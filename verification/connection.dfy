/**
 The snapshot builder of connections/connection.go (getConnections): it
 reads the lines of /proc/net/tcp, skips the header, and maps the key
 "localIP:localPort:remoteIP:remotePort" to the connection it names.

 The reader is the sequence of lines the scanner yielded plus a flag for a
 scanner error. Indexing the second and third field of a line is unchecked
 in Go, as is the endpoint parser's byte indexing; a line that triggers either
 is modelled as `Crashed`, and a table with such a line as `Crash`.
 */
module Connections {
  import opened Wrappers
  import opened GoStrings
  import opened Net
  import opened Parse

  datatype Connection = Connection(localIP: IPv4, localPort: Port, remoteIP: IPv4, remotePort: Port)

  /** fmt.Sprintf("%s:%d:%s:%d", localIP, localPort, remoteIP, remotePort). */
  function ConnKey(c: Connection): string {
    JoinWith(KeyFields(c), ':')
  }

  function KeyFields(c: Connection): seq<string> {
    [IPString(c.localIP), Decimal(c.localPort), IPString(c.remoteIP), Decimal(c.remotePort)]
  }

  /** The key splits back into its four fields: no field contains ':'. */
  lemma {:induction false} ConnKeyFields(c: Connection)
    ensures Split(ConnKey(c), ':') == KeyFields(c)
  {
    var f := KeyFields(c);
    IPStringShape(c.localIP);
    IPStringShape(c.remoteIP);
    forall i | 0 <= i < 4
      ensures Avoids(f[i], {':'})
    {
      if i == 1 || i == 3 {
        assert AllDigits(f[i]);
      }
    }
    SplitJoin(f, ':', {':'});
  }

  /** Distinct connections have distinct keys, so the map identifies a 4-tuple by its key. */
  lemma {:induction false} ConnKeyInjective(c1: Connection, c2: Connection)
    requires ConnKey(c1) == ConnKey(c2)
    ensures c1 == c2
  {
    ConnKeyFields(c1);
    ConnKeyFields(c2);
    assert KeyFields(c1) == KeyFields(c2);
    IPStringInjective(c1.localIP, c2.localIP);
    IPStringInjective(c1.remoteIP, c2.remoteIP);
    DecimalInjective(c1.localPort, c2.localPort);
    DecimalInjective(c1.remotePort, c2.remotePort);
  }

  /** strings.Split(strings.TrimSpace(line), " "). */
  function LineFields(line: string): seq<string> {
    Split(TrimSpace(line), ' ')
  }

  /** What one data line contributes: a connection, nothing, or a panic. */
  datatype LineOutcome = Kept(conn: Connection) | Skipped | Crashed

  /**
   One iteration of the scan loop: field 1 is the local endpoint, field 2 the
   remote one; a line whose endpoints fail to parse is skipped.
   */
  function ScanLine(line: string): (r: LineOutcome)
    ensures r.Kept? <==>
      var f := LineFields(line);
      |f| >= 3 && ParseEndpoint(f[1]).Ok? && ParseEndpoint(f[2]).Ok?
    ensures r.Kept? ==>
      var f := LineFields(line);
      ParseEndpoint(f[1]) == Ok(Endpoint(r.conn.localIP, r.conn.localPort)) &&
      ParseEndpoint(f[2]) == Ok(Endpoint(r.conn.remoteIP, r.conn.remotePort))
    ensures r.Crashed? <==>
      var f := LineFields(line);
      || |f| < 2
      || ParseEndpoint(f[1]).IndexPanic?
      || (ParseEndpoint(f[1]).Ok? && (|f| < 3 || ParseEndpoint(f[2]).IndexPanic?))
  {
    var f := LineFields(line);
    if |f| < 2 then Crashed
    else
      match ParseEndpoint(f[1])
      case IndexPanic => Crashed
      case Err(_) => Skipped
      case Ok(local) =>
        if |f| < 3 then Crashed
        else
          match ParseEndpoint(f[2])
          case IndexPanic => Crashed
          case Err(_) => Skipped
          case Ok(remote) => Kept(Connection(local.ip, local.port, remote.ip, remote.port))
  }

  /** A line is kept exactly when its second and third fields are well-formed tokens. */
  lemma KeptIffWellFormed(line: string)
    ensures ScanLine(line).Kept? <==>
      var f := LineFields(line);
      |f| >= 3 && WellFormedToken(f[1]) && WellFormedToken(f[2])
  {
    var f := LineFields(line);
    if |f| >= 3 {
      ParseOkIff(f[1]);
      ParseOkIff(f[2]);
    }
  }

  /**
   A line with at least three fields never panics when each of fields 1 and 2
   is a well-formed token or does not have the token length: the first kind
   parses, the second is rejected by the length check.
   */
  lemma {:induction false} SafeLine(line: string)
    requires |LineFields(line)| >= 3
    requires WellFormedToken(LineFields(line)[1]) || |LineFields(line)[1]| != TokenLength
    requires WellFormedToken(LineFields(line)[2]) || |LineFields(line)[2]| != TokenLength
    ensures !ScanLine(line).Crashed?
  {
    var f := LineFields(line);
    ParseOkIff(f[1]);
    ParseOkIff(f[2]);
  }

  /** The lines after the header (the first scanned line is always skipped). */
  function DataLines(lines: seq<string>): seq<string> {
    if |lines| == 0 then [] else lines[1..]
  }

  /** The outcome of every data line, in order. */
  function Outcomes(data: seq<string>): (outs: seq<LineOutcome>)
    ensures |outs| == |data|
    ensures forall i :: 0 <= i < |data| ==> outs[i] == ScanLine(data[i])
  {
    seq(|data|, i requires 0 <= i < |data| => ScanLine(data[i]))
  }

  /** The connections the kept lines name. */
  function KeptConns(outs: seq<LineOutcome>): set<Connection> {
    set o | o in outs && o.Kept? :: o.conn
  }

  /** `m` is the snapshot of `conns`: one entry per connection, under its own key. */
  ghost predicate SnapshotOf(m: map<string, Connection>, conns: set<Connection>) {
    && (forall k :: k in m ==> k == ConnKey(m[k]) && m[k] in conns)
    && (forall c :: c in conns ==> ConnKey(c) in m)
  }

  /** The scan loop over the line outcomes, in order; `None` once a line panics. */
  function Collect(outs: seq<LineOutcome>): (r: Option<map<string, Connection>>)
    ensures r.None? <==> Crashed in outs
    ensures r.Some? ==> SnapshotOf(r.value, KeptConns(outs))
    decreases |outs|
  {
    if |outs| == 0 then Some(map[])
    else
      var prefix, last := outs[..|outs| - 1], outs[|outs| - 1];
      assert outs == prefix + [last];
      assert KeptConns(outs) == KeptConns(prefix) + (if last.Kept? then {last.conn} else {});
      match Collect(prefix)
      case None => None
      case Some(m) =>
        match last
        case Crashed => None
        case Skipped => Some(m)
        case Kept(c) =>
          var m' := m[ConnKey(c) := c];
          assert SnapshotOf(m', KeptConns(outs));
          Some(m')
  }

  datatype SnapshotError = ScanFailed | EmptyTable

  /** The outcome of getConnections: a snapshot, an error, or a panic. */
  datatype Snapshot = Built(conns: map<string, Connection>) | Failed(error: SnapshotError) | Crash

  /**
   getConnections. A panicking line wins; then a scanner error; then a table
   without data lines is an error, even though a data line that fails to
   parse still counts as a line.
   */
  function GetConnections(lines: seq<string>, scanFailed: bool): (r: Snapshot)
    ensures r.Crash? <==> Crashed in Outcomes(DataLines(lines))
    ensures !r.Crash? ==> (r == Failed(ScanFailed) <==> scanFailed)
    ensures !r.Crash? && !scanFailed ==> (r == Failed(EmptyTable) <==> |lines| <= 1)
    ensures r.Built? ==> SnapshotOf(r.conns, KeptConns(Outcomes(DataLines(lines))))
  {
    var data := DataLines(lines);
    match Collect(Outcomes(data))
    case None => Crash
    case Some(m) =>
      if scanFailed then Failed(ScanFailed)
      else if |data| == 0 then Failed(EmptyTable)
      else Built(m)
  }

  /** A table none of whose data lines panics does not make getConnections panic. */
  lemma {:induction false} NoCrashedLine(lines: seq<string>, scanFailed: bool)
    requires forall i :: 1 <= i < |lines| ==> !ScanLine(lines[i]).Crashed?
    ensures !GetConnections(lines, scanFailed).Crash?
  {
    var outs := Outcomes(DataLines(lines));
    forall j | 0 <= j < |outs|
      ensures outs[j] != Crashed
    {
      assert outs[j] == ScanLine(lines[j + 1]);
    }
  }

  /** Duplicate 4-tuples collapse: the snapshot has one entry per distinct connection. */
  lemma SnapshotSize(m: map<string, Connection>, conns: set<Connection>)
    requires SnapshotOf(m, conns)
    ensures |m| == |conns|
  {
    forall c1, c2 | ConnKey(c1) == ConnKey(c2)
      ensures c1 == c2
    {
      ConnKeyInjective(c1, c2);
    }
    KeyedMapSize(m, conns, ConnKey);
  }

  /** A map holding each element of a set under its key, for an injective key, is as large as the set. */
  lemma {:induction false} KeyedMapSize<K, V>(m: map<K, V>, vs: set<V>, key: V -> K)
    requires forall v1, v2 :: key(v1) == key(v2) ==> v1 == v2
    requires forall k :: k in m ==> k == key(m[k]) && m[k] in vs
    requires forall v :: v in vs ==> key(v) in m
    ensures |m| == |vs|
    decreases vs
  {
    if vs == {} {
      assert m.Keys == {};
    } else {
      var v :| v in vs;
      var m', vs' := m - {key(v)}, vs - {v};
      forall k | k in m'
        ensures k == key(m'[k]) && m'[k] in vs'
      {
        assert m'[k] == m[k];
      }
      KeyedMapSize(m', vs', key);
      assert m.Keys == m'.Keys + {key(v)};
    }
  }

  /**
   A table whose data lines all fail to parse gives an empty snapshot, not an
   error, because such lines still count.
   */
  lemma AllMalformedIsEmpty(lines: seq<string>)
    requires |lines| >= 2
    requires forall i :: 1 <= i < |lines| ==> ScanLine(lines[i]).Skipped?
    ensures GetConnections(lines, false) == Built(map[])
  {
    var outs := Outcomes(DataLines(lines));
    assert forall i :: 0 <= i < |outs| ==> outs[i] == ScanLine(lines[i + 1]);
    assert forall o :: o in outs ==> o == Skipped;
    assert KeptConns(outs) == {};
    var r := GetConnections(lines, false);
    assert r.Built?;
    SnapshotSize(r.conns, {});
  }
}

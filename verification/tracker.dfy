/**
 The port/time tracker of connections/blocker.go (IPBlocker.IPPortTime): for
 every pair key "localIP:remoteIP" the local ports the remote host reached,
 each with the Unix time it was last seen.

 Go's map iteration order is unspecified. The methods below take the next key
 with `:|`, so every order is covered, and their results are specified as
 sets and duplicate-free enumerations rather than as fixed sequences.
 */
module PortTracker {
  import opened Wrappers
  import opened GoStrings
  import opened Net

  type PortTimes = map<Port, int>

  type Tracker = map<string, PortTimes>

  /** A pair is reported once it has this many tracked ports. */
  const ScanThreshold: nat := 3

  /** fmt.Sprintf("%s:%s", localIP, remoteIP). */
  function PairKey(localIP: string, remoteIP: string): string {
    localIP + ":" + remoteIP
  }

  /** `port` is tracked under `key`. */
  predicate Seen(tr: Tracker, key: string, port: Port) {
    key in tr && port in tr[key]
  }

  /** Every key holds a ':' (true of every key AddPort builds), so it splits into two parts. */
  ghost predicate KeysSplit(tr: Tracker) {
    forall k :: k in tr ==> ':' in k
  }

  /**
   AddPort: the port's timestamp under the pair becomes `t`, the pair is
   created if absent, and every other pair and port keeps its timestamp.
   */
  function AddPort(tr: Tracker, localIP: string, remoteIP: string, port: Port, t: int): (r: Tracker)
    ensures r.Keys == tr.Keys + {PairKey(localIP, remoteIP)}
    ensures Seen(r, PairKey(localIP, remoteIP), port) && r[PairKey(localIP, remoteIP)][port] == t
    ensures forall k, p: Port :: Seen(r, k, p) <==> Seen(tr, k, p) || (k == PairKey(localIP, remoteIP) && p == port)
    ensures forall k, p: Port :: Seen(tr, k, p) && (k != PairKey(localIP, remoteIP) || p != port) ==>
      Seen(r, k, p) && r[k][p] == tr[k][p]
    ensures KeysSplit(tr) ==> KeysSplit(r)
  {
    var key := PairKey(localIP, remoteIP);
    assert key[|localIP|] == ':';
    var ports := if key in tr then tr[key] else map[];
    tr[key := ports[port := t]]
  }

  /** The ports of one pair still younger than `ttl` seconds at `now`. */
  function Unexpired(pm: PortTimes, now: int, ttl: int): PortTimes {
    map p | p in pm && now - pm[p] < ttl :: pm[p]
  }

  /** The entry (key, port) is at least `ttl` seconds old at `now`. */
  predicate Expired(tr: Tracker, now: int, ttl: int, key: string, port: Port) {
    Seen(tr, key, port) && now - tr[key][port] >= ttl
  }

  /**
   The tracker after eviction: exactly the entries with now - ts >= ttl are
   gone, the others keep their timestamps, and emptied pairs stay.
   */
  function Evict(tr: Tracker, now: int, ttl: int): (r: Tracker)
    ensures r.Keys == tr.Keys
    ensures forall k, p: Port :: Seen(r, k, p) <==> Seen(tr, k, p) && !Expired(tr, now, ttl, k, p)
    ensures forall k, p: Port :: Seen(r, k, p) ==> Seen(tr, k, p) && r[k][p] == tr[k][p]
  {
    map k | k in tr :: Unexpired(tr[k], now, ttl)
  }

  /**
   RemoveOldConnections. `removed` lists the removed ports, one per removed
   entry; the ghost `entries` says which pair each came from.
   */
  method RemoveOldConnections(tr: Tracker, now: int, ttl: int)
    returns (tr': Tracker, removed: seq<Port>, ghost entries: seq<(string, Port)>)
    ensures tr' == Evict(tr, now, ttl)
    ensures |removed| == |entries| && NoDup(entries)
    ensures forall i :: 0 <= i < |entries| ==> removed[i] == entries[i].1
    ensures forall k, p: Port :: (k, p) in entries <==> Expired(tr, now, ttl, k, p)
  {
    tr', removed, entries := tr, [], [];
    var keys := tr.Keys;
    while keys != {}
      invariant keys <= tr.Keys && tr'.Keys == tr.Keys
      invariant forall k :: k in tr && k !in keys ==> tr'[k] == Unexpired(tr[k], now, ttl)
      invariant forall k :: k in keys ==> tr'[k] == tr[k]
      invariant |removed| == |entries| && NoDup(entries)
      invariant forall i :: 0 <= i < |entries| ==> removed[i] == entries[i].1
      invariant forall k, p: Port :: (k, p) in entries <==> k !in keys && Expired(tr, now, ttl, k, p)
      decreases keys
    {
      var k :| k in keys;
      var pm := tr[k];
      var ports := pm.Keys;
      while ports != {}
        invariant ports <= tr[k].Keys
        invariant forall p :: p in pm <==> p in tr[k] && (p in ports || now - tr[k][p] < ttl)
        invariant forall p :: p in pm ==> pm[p] == tr[k][p]
        invariant |removed| == |entries| && NoDup(entries)
        invariant forall i :: 0 <= i < |entries| ==> removed[i] == entries[i].1
        invariant forall k', p: Port :: (k', p) in entries <==>
          (k' !in keys && Expired(tr, now, ttl, k', p)) || (k' == k && p !in ports && Expired(tr, now, ttl, k, p))
        decreases ports
      {
        var p :| p in ports;
        if now - pm[p] >= ttl {
          removed := removed + [p];
          entries := entries + [(k, p)];
          pm := pm - {p};
        }
        ports := ports - {p};
      }
      assert pm == Unexpired(tr[k], now, ttl);
      tr' := tr'[k := pm];
      keys := keys - {k};
    }
  }

  /**
   For a tracker holding one pair, the ports RemoveOldConnections reports are
   exactly its expired ports, each once.
   */
  lemma {:induction false} RemovedOfOnePair(tr: Tracker, now: int, ttl: int, key: string, removed: seq<Port>, entries: seq<(string, Port)>)
    requires tr.Keys == {key}
    requires |removed| == |entries| && NoDup(entries)
    requires forall i :: 0 <= i < |entries| ==> removed[i] == entries[i].1
    requires forall k, p: Port :: (k, p) in entries <==> Expired(tr, now, ttl, k, p)
    ensures NoDup(removed)
    ensures forall p :: p in removed <==> Expired(tr, now, ttl, key, p)
    ensures |removed| == |set p: Port | p in removed|
  {
    forall i | 0 <= i < |entries|
      ensures entries[i] == (key, removed[i])
    {
      assert entries[i] in entries;
    }
    forall p: Port | Expired(tr, now, ttl, key, p)
      ensures p in removed
    {
      var i :| 0 <= i < |entries| && entries[i] == (key, p);
    }
    assert NoDup(removed) by {
      forall i, j | 0 <= i < j < |removed|
        ensures removed[i] != removed[j]
      {
        assert entries[i] != entries[j];
      }
    }
    NoDupSize(removed);
  }

  /** The tracker of the eviction unit tests: ports 80, 81 and 82 seen at 40, 50 and 60. */
  const TestTracker: Tracker := map["192.168.1.1" := map[80 := 40, 81 := 50, 82 := 60]]

  /** Eviction test "remove all": at 90 with a ttl of 30 every port goes. */
  method RemoveAllScenario() returns (removed: seq<Port>)
    ensures |removed| == 3 && forall p :: p in removed <==> p in {80, 81, 82}
  {
    var tr';
    ghost var entries;
    tr', removed, entries := RemoveOldConnections(TestTracker, 90, 30);
    RemovedOfOnePair(TestTracker, 90, 30, "192.168.1.1", removed, entries);
    assert (set p: Port | p in removed) == {80, 81, 82};
  }

  /** Eviction test "remove 80": at 70 only the port seen at 40 is 30 seconds old. */
  method RemoveOneScenario() returns (removed: seq<Port>)
    ensures removed == [80]
  {
    var tr';
    ghost var entries;
    tr', removed, entries := RemoveOldConnections(TestTracker, 70, 30);
    RemovedOfOnePair(TestTracker, 70, 30, "192.168.1.1", removed, entries);
    assert (set p: Port | p in removed) == {80};
    assert removed[0] in removed;
  }

  /** Eviction test "remove none": at 60 no port is 30 seconds old. */
  method RemoveNoneScenario() returns (removed: seq<Port>)
    ensures removed == []
  {
    var tr';
    ghost var entries;
    tr', removed, entries := RemoveOldConnections(TestTracker, 60, 30);
    RemovedOfOnePair(TestTracker, 60, 30, "192.168.1.1", removed, entries);
  }

  /** The record HostsToBlock hands to the blocker. */
  datatype RemoteHost = RemoteHost(remoteIP: Option<IPv4>, localIP: Option<IPv4>, ports: seq<Port>)

  /** The pairs with at least ScanThreshold tracked ports. */
  function Offenders(tr: Tracker): set<string> {
    set k | k in tr && |tr[k]| >= ScanThreshold
  }

  /**
   The tracker after extraction: every offending pair is emptied, every other
   pair is untouched, and nothing offends any more.
   */
  function Drain(tr: Tracker): (r: Tracker)
    ensures r.Keys == tr.Keys
    ensures forall k :: k in Offenders(tr) ==> r[k] == map[]
    ensures forall k :: k in tr && k !in Offenders(tr) ==> r[k] == tr[k]
    ensures Offenders(r) == {}
  {
    map k | k in tr :: if |tr[k]| >= ScanThreshold then map[] else tr[k]
  }

  /**
   The host record for a pair key: the key is split at ':', the first part is
   the local address and the second the remote one.
   */
  function HostFor(key: string, ports: seq<Port>): RemoteHost
    requires ':' in key
  {
    SplitMany(key, ':');
    var parts := Split(key, ':');
    RemoteHost(ParseIP(parts[1]), ParseIP(parts[0]), ports)
  }

  /** `s` lists the members of `members` once each. */
  ghost predicate Enumerates(s: seq<Port>, members: set<Port>) {
    NoDup(s) && forall p :: p in s <==> p in members
  }

  /** Drain with the pairs in `todo` not yet visited. */
  function DrainExcept(tr: Tracker, todo: set<string>): Tracker {
    map k | k in tr :: if k !in todo && |tr[k]| >= ScanThreshold then map[] else tr[k]
  }

  /** The ports tracked for one pair, once each, in map order. */
  method ListPorts(pm: PortTimes) returns (ports: seq<Port>)
    ensures Enumerates(ports, pm.Keys)
  {
    ports := [];
    var left := pm.Keys;
    while left != {}
      invariant left <= pm.Keys
      invariant NoDup(ports)
      invariant forall p :: p in ports <==> p in pm && p !in left
      decreases left
    {
      var p :| p in left;
      ports := ports + [p];
      left := left - {p};
    }
  }

  /** The records describe the pairs in `keys`, in order: parsed from the key, with all of its ports. */
  ghost predicate Describes(tr: Tracker, hosts: seq<RemoteHost>, keys: seq<string>) {
    && |keys| == |hosts| && NoDup(keys)
    && (forall i :: 0 <= i < |keys| ==> keys[i] in tr && ':' in keys[i])
    && (forall i :: 0 <= i < |hosts| ==> hosts[i] == HostFor(keys[i], hosts[i].ports))
    && (forall i :: 0 <= i < |hosts| ==> Enumerates(hosts[i].ports, tr[keys[i]].Keys))
  }

  lemma DescribesSnoc(tr: Tracker, hosts: seq<RemoteHost>, keys: seq<string>, host: RemoteHost, key: string)
    requires Describes(tr, hosts, keys) && key in tr && ':' in key && key !in keys
    requires host == HostFor(key, host.ports) && Enumerates(host.ports, tr[key].Keys)
    ensures Describes(tr, hosts + [host], keys + [key])
  {
  }

  /** The state of HostsToBlock's loop once the pairs outside `todo` are visited. */
  ghost predicate Visited(tr: Tracker, todo: set<string>, tr': Tracker, hosts: seq<RemoteHost>, keys: seq<string>) {
    && todo <= tr.Keys
    && tr' == DrainExcept(tr, todo)
    && Describes(tr, hosts, keys)
    && (forall k :: k in keys <==> k in tr && |tr[k]| >= ScanThreshold && k !in todo)
  }

  lemma DrainStep(tr: Tracker, todo: set<string>, key: string)
    requires key in todo && key in tr
    ensures |tr[key]| >= ScanThreshold ==> DrainExcept(tr, todo)[key := map[]] == DrainExcept(tr, todo - {key})
    ensures |tr[key]| < ScanThreshold ==> DrainExcept(tr, todo) == DrainExcept(tr, todo - {key})
  {
    if |tr[key]| >= ScanThreshold {
      assert DrainExcept(tr, todo)[key := map[]] == DrainExcept(tr, todo - {key});
    } else {
      assert DrainExcept(tr, todo) == DrainExcept(tr, todo - {key});
    }
  }

  /** One iteration of HostsToBlock's loop: the pair `key` is visited. */
  method Visit(tr: Tracker, todo: set<string>, tr': Tracker, hosts: seq<RemoteHost>, ghost keys: seq<string>, key: string)
    returns (tr2: Tracker, hosts2: seq<RemoteHost>, ghost keys2: seq<string>)
    requires KeysSplit(tr) && key in todo
    requires Visited(tr, todo, tr', hosts, keys)
    ensures Visited(tr, todo - {key}, tr2, hosts2, keys2)
  {
    if |tr[key]| >= ScanThreshold {
      var ports := ListPorts(tr[key]);
      var host := HostFor(key, ports);
      DescribesSnoc(tr, hosts, keys, host, key);
      hosts2, keys2 := hosts + [host], keys + [key];
      tr2 := tr'[key := map[]];
    } else {
      tr2, hosts2, keys2 := tr', hosts, keys;
    }
    DrainStep(tr, todo, key);
  }

  /**
   HostsToBlock: one record per offending pair, holding all of its ports,
   and each such pair emptied. The ghost `keys` names each record's pair.
   */
  method HostsToBlock(tr: Tracker) returns (tr': Tracker, hosts: seq<RemoteHost>, ghost keys: seq<string>)
    requires KeysSplit(tr)
    ensures tr' == Drain(tr)
    ensures |keys| == |hosts| && NoDup(keys)
    ensures forall k :: k in keys <==> k in Offenders(tr)
    ensures forall i :: 0 <= i < |keys| ==> keys[i] in tr && ':' in keys[i]
    ensures forall i :: 0 <= i < |hosts| ==> hosts[i] == HostFor(keys[i], hosts[i].ports)
    ensures forall i :: 0 <= i < |hosts| ==> Enumerates(hosts[i].ports, tr[keys[i]].Keys)
  {
    tr', hosts, keys := tr, [], [];
    var todo := tr.Keys;
    VisitedInit(tr);
    while todo != {}
      invariant Visited(tr, todo, tr', hosts, keys)
      decreases todo
    {
      var key :| key in todo;
      tr', hosts, keys := Visit(tr, todo, tr', hosts, keys, key);
      todo := todo - {key};
    }
    VisitedAll(tr, tr', hosts, keys);
  }

  lemma VisitedInit(tr: Tracker)
    ensures Visited(tr, tr.Keys, tr, [], [])
  {
    assert tr == DrainExcept(tr, tr.Keys);
  }

  /** Once every pair is visited, the loop state is HostsToBlock's result. */
  lemma VisitedAll(tr: Tracker, tr': Tracker, hosts: seq<RemoteHost>, keys: seq<string>)
    requires Visited(tr, {}, tr', hosts, keys)
    ensures tr' == Drain(tr)
    ensures |keys| == |hosts| && NoDup(keys)
    ensures forall k :: k in keys <==> k in Offenders(tr)
    ensures forall i :: 0 <= i < |keys| ==> keys[i] in tr && ':' in keys[i]
    ensures forall i :: 0 <= i < |hosts| ==> hosts[i] == HostFor(keys[i], hosts[i].ports)
    ensures forall i :: 0 <= i < |hosts| ==> Enumerates(hosts[i].ports, tr[keys[i]].Keys)
  {
    assert DrainExcept(tr, {}) == Drain(tr);
  }

  /** Extraction is idempotent: a drained tracker has nothing left to extract. */
  lemma DrainIdempotent(tr: Tracker)
    ensures Drain(Drain(tr)) == Drain(tr)
  {
  }

  /** A pair key built from two rendered addresses splits and parses back into them. */
  lemma {:induction false} PairKeyRoundTrip(local: IPv4, remote: IPv4, ports: seq<Port>)
    ensures ':' in PairKey(IPString(local), IPString(remote))
    ensures HostFor(PairKey(IPString(local), IPString(remote)), ports) == RemoteHost(Some(remote), Some(local), ports)
  {
    var l, r := IPString(local), IPString(remote);
    var key := PairKey(l, r);
    assert key[|l|] == ':';
    ParseIPString(local);
    ParseIPString(remote);
    assert key == l + [':'] + r;
    SplitAtSeparator(l, ':', r, {':'});
    SplitAvoiding(r, {':'});
  }

  predicate Ascending(s: seq<Port>) {
    forall i, j :: 0 <= i < j < |s| ==> s[i] <= s[j]
  }

  function InsertSorted(x: Port, s: seq<Port>): (r: seq<Port>)
    requires Ascending(s)
    ensures Ascending(r)
    ensures multiset(r) == multiset(s) + multiset{x}
    decreases |s|
  {
    if |s| == 0 || x <= s[0] then [x] + s
    else
      var rest := InsertSorted(x, s[1..]);
      assert s == [s[0]] + s[1..];
      BoundedBelow(s[0], rest, s[1..], x);
      [s[0]] + rest
  }

  /** A lower bound of `s` and of `x` bounds any arrangement of `s` with `x` added. */
  lemma BoundedBelow(lo: Port, r: seq<Port>, s: seq<Port>, x: Port)
    requires multiset(r) == multiset(s) + multiset{x}
    requires lo <= x && forall i :: 0 <= i < |s| ==> lo <= s[i]
    ensures forall i :: 0 <= i < |r| ==> lo <= r[i]
  {
    forall i | 0 <= i < |r|
      ensures lo <= r[i]
    {
      assert r[i] in multiset(r);
      if r[i] != x {
        assert r[i] in multiset(s);
        assert r[i] in s;
      }
    }
  }

  /** sort.Slice with `<` on the ports: ascending, and the same ports. */
  function SortPorts(ports: seq<Port>): (r: seq<Port>)
    ensures Ascending(r) && multiset(r) == multiset(ports)
    decreases |ports|
  {
    if |ports| == 0 then []
    else
      assert ports == [ports[0]] + ports[1..];
      InsertSorted(ports[0], SortPorts(ports[1..]))
  }

  function Decimals(ports: seq<Port>): (r: seq<string>)
    ensures |r| == |ports|
    ensures forall i :: 0 <= i < |r| ==> r[i] == Decimal(ports[i])
  {
    seq(|ports|, i requires 0 <= i < |ports| => Decimal(ports[i]))
  }

  /** fmt.Sprint of a []uint16: the decimals separated by spaces, in brackets. */
  function SprintPorts(ports: seq<Port>): string {
    "[" + JoinWith(Decimals(ports), ' ') + "]"
  }

  const Brackets: set<char> := {'[', ']'}

  /** portsToString: strings.Trim(strings.Join(strings.Fields(fmt.Sprint(ports)), ","), "[]"). */
  function PortsToString(ports: seq<Port>): string {
    Trim(JoinWith(Fields(SprintPorts(ports)), ','), Brackets)
  }

  /** RemoteHost.String: the ports are sorted before they are rendered. */
  function Describe(h: RemoteHost): string {
    IPText(h.remoteIP) + " -> " + IPText(h.localIP) + " on ports " + PortsToString(SortPorts(h.ports))
  }

  /** Prepending to a join prepends to its first piece. */
  lemma JoinPrefix(p: string, parts: seq<string>, sep: char)
    requires |parts| >= 1
    ensures p + JoinWith(parts, sep) == JoinWith([p + parts[0]] + parts[1..], sep)
  {
    var q := [p + parts[0]] + parts[1..];
    assert q[1..] == parts[1..];
  }

  /** Appending to a join appends to its last piece. */
  lemma {:induction false} JoinSuffix(parts: seq<string>, q: string, sep: char)
    requires |parts| >= 1
    ensures JoinWith(parts, sep) + q == JoinWith(parts[..|parts| - 1] + [parts[|parts| - 1] + q], sep)
    decreases |parts|
  {
    var n := |parts|;
    var w := parts[..n - 1] + [parts[n - 1] + q];
    if n > 1 {
      JoinSuffix(parts[1..], q, sep);
      assert w[0] == parts[0];
      assert w[1..] == parts[1..][..n - 2] + [parts[1..][n - 2] + q];
    }
  }

  /** The bracketed join of `d` as a join of pieces with the brackets glued to the ends. */
  function Bracketed(d: seq<string>): (r: seq<string>)
    requires |d| >= 1
  {
    var first := ["[" + d[0]] + d[1..];
    first[..|d| - 1] + [first[|d| - 1] + "]"]
  }

  lemma BracketJoin(d: seq<string>, sep: char)
    requires |d| >= 1
    ensures "[" + JoinWith(d, sep) + "]" == JoinWith(Bracketed(d), sep)
  {
    JoinPrefix("[", d, sep);
    JoinSuffix(["[" + d[0]] + d[1..], "]", sep);
  }

  lemma {:induction false} NonEmptyKeeps(parts: seq<string>)
    requires forall i :: 0 <= i < |parts| ==> |parts[i]| > 0
    ensures NonEmpty(parts) == parts
    decreases |parts|
  {
    if |parts| > 0 {
      NonEmptyKeeps(parts[1..]);
      assert [parts[0]] + parts[1..] == parts;
    }
  }

  lemma {:induction false} JoinAvoids(parts: seq<string>, sep: char, cut: set<char>)
    requires sep !in cut
    requires forall i :: 0 <= i < |parts| ==> Avoids(parts[i], cut)
    ensures Avoids(JoinWith(parts, sep), cut)
    decreases |parts|
  {
    if |parts| > 1 {
      JoinAvoids(parts[1..], sep, cut);
    }
  }

  lemma TrimBrackets(x: string)
    requires Avoids(x, Brackets)
    ensures Trim("[" + x + "]", Brackets) == x
  {
    var s := "[" + x + "]";
    assert s[1..] == x + "]";
    if |x| > 0 {
      assert (x + "]")[0] == x[0];
      assert TrimLeft(s, Brackets) == x + "]";
      assert (x + "]")[..|x|] == x;
      assert TrimRight(x + "]", Brackets) == TrimRight(x, Brackets);
      assert TrimRight(x, Brackets) == x;
    } else {
      assert TrimLeft(s, Brackets) == TrimLeft("]", Brackets);
      assert "]"[1..] == "";
    }
  }

  /** Pieces that avoid a set still avoid it once brackets are glued to the ends. */
  lemma BracketedAvoids(d: seq<string>, cut: set<char>)
    requires |d| >= 1 && '[' !in cut && ']' !in cut
    requires forall i :: 0 <= i < |d| ==> Avoids(d[i], cut) && |d[i]| > 0
    ensures forall i :: 0 <= i < |Bracketed(d)| ==> Avoids(Bracketed(d)[i], cut) && |Bracketed(d)[i]| > 0
  {
    var first := ["[" + d[0]] + d[1..];
    assert forall i :: 0 <= i < |first| ==> Avoids(first[i], cut) && |first[i]| > 0;
    var n := |d| - 1;
    assert Avoids(first[n] + "]", cut);
  }

  /** The decimals of a port list are non-empty and hold no space or bracket. */
  lemma DecimalsShape(ports: seq<Port>)
    ensures forall i :: 0 <= i < |Decimals(ports)| ==>
      var d := Decimals(ports)[i]; |d| > 0 && Avoids(d, Whitespace) && Avoids(d, Brackets)
  {
    forall i | 0 <= i < |ports|
      ensures Avoids(Decimal(ports[i]), Whitespace) && Avoids(Decimal(ports[i]), Brackets)
    {
      assert AllDigits(Decimal(ports[i]));
    }
  }

  /** fmt.Sprint then strings.Fields then strings.Join with ",": the comma list in brackets. */
  lemma {:induction false} SprintFields(ports: seq<Port>)
    ensures JoinWith(Fields(SprintPorts(ports)), ',') == "[" + JoinWith(Decimals(ports), ',') + "]"
  {
    if |ports| == 0 {
      assert SprintPorts(ports) == "[]";
      SplitAvoiding("[]", Whitespace);
      NonEmptyKeeps(["[]"]);
    } else {
      SprintFieldsNonEmpty(ports);
    }
  }

  lemma SprintFieldsNonEmpty(ports: seq<Port>)
    requires |ports| > 0
    ensures JoinWith(Fields(SprintPorts(ports)), ',') == "[" + JoinWith(Decimals(ports), ',') + "]"
  {
    SprintPieces(ports);
    BracketJoin(Decimals(ports), ',');
  }

  /** The fields of fmt.Sprint's rendering are the decimals, the first with '[' and the last with ']'. */
  lemma SprintPieces(ports: seq<Port>)
    requires |ports| > 0
    ensures Fields(SprintPorts(ports)) == Bracketed(Decimals(ports))
  {
    var d := Decimals(ports);
    DecimalsShape(ports);
    var b := Bracketed(d);
    BracketJoin(d, ' ');
    BracketedAvoids(d, Whitespace);
    SplitJoin(b, ' ', Whitespace);
    NonEmptyKeeps(b);
  }

  /**
   The rendering of a port list is its decimals joined by commas, with no
   brackets and no spaces; the empty list renders as the empty string.
   */
  lemma {:induction false} PortsToStringIsCommaList(ports: seq<Port>)
    ensures PortsToString(ports) == JoinWith(Decimals(ports), ',')
  {
    DecimalsShape(ports);
    JoinAvoids(Decimals(ports), ',', Brackets);
    SprintFields(ports);
    TrimBrackets(JoinWith(Decimals(ports), ','));
  }

  lemma EightyDecimal(d: nat)
    requires d < 10
    ensures Decimal(80 + d) == ['8', ('0' as int + d) as char]
  {
    assert Decimal(8) == "8";
    assert (80 + d) / 10 == 8 && (80 + d) % 10 == d;
  }

  lemma ExampleDecimals()
    ensures Decimals([80, 81, 82]) == ["80", "81", "82"]
  {
    EightyDecimal(0);
    EightyDecimal(1);
    EightyDecimal(2);
  }

  lemma ExampleJoin()
    ensures JoinWith(["80", "81", "82"], ',') == "80,81,82"
  {
  }

  /** The rendering of the example: the ports 80, 81 and 82 give "80,81,82". */
  lemma PortsToStringExample()
    ensures PortsToString([80, 81, 82]) == "80,81,82"
  {
    PortsToStringIsCommaList([80, 81, 82]);
    ExampleDecimals();
    ExampleJoin();
  }

  /** RemoteHost.String: the addresses, then the sorted ports as a comma list without brackets or spaces. */
  lemma DescribeCommaList(h: RemoteHost)
    ensures Describe(h) == IPText(h.remoteIP) + " -> " + IPText(h.localIP) + " on ports " + JoinWith(Decimals(SortPorts(h.ports)), ',')
  {
    PortsToStringIsCommaList(SortPorts(h.ports));
  }

  /** No ports render as the empty string. */
  lemma PortsToStringEmpty()
    ensures PortsToString([]) == ""
  {
    PortsToStringIsCommaList([]);
  }

  /** The tracker the "remove 80" test leaves behind: the pair stays, holding 81 and 82. */
  lemma EvictionExample()
    ensures Evict(TestTracker, 70, 30) == map["192.168.1.1" := map[81 := 50, 82 := 60]]
  {
    assert Evict(TestTracker, 70, 30)["192.168.1.1"] == map[81 := 50, 82 := 60];
  }

  /** The ports of one pair after AddPort: the old ones with `port` set to `t`. */
  lemma AddPortPair(tr: Tracker, local: string, remote: string, port: Port, t: int)
    ensures AddPort(tr, local, remote, port, t)[PairKey(local, remote)] ==
      (if PairKey(local, remote) in tr then tr[PairKey(local, remote)] else map[])[port := t]
  {
  }

  /**
   Detection within the window: three distinct local ports reached from one
   remote host 0, 10 and 20 seconds into the window are all still tracked
   after eviction with a ttl of 60, so the pair is reported.
   */
  lemma {:induction false} ScanDetected(tr: Tracker, local: string, remote: string, p1: Port, p2: Port, p3: Port, t0: int)
    requires p1 != p2 && p2 != p3 && p1 != p3
    ensures PairKey(local, remote) in
      Offenders(Evict(AddPort(AddPort(AddPort(tr, local, remote, p1, t0), local, remote, p2, t0 + 10), local, remote, p3, t0 + 20), t0 + 20, 60))
  {
    var key := PairKey(local, remote);
    var tr1 := AddPort(tr, local, remote, p1, t0);
    var tr2 := AddPort(tr1, local, remote, p2, t0 + 10);
    var tr3 := AddPort(tr2, local, remote, p3, t0 + 20);
    AddPortPair(tr, local, remote, p1, t0);
    AddPortPair(tr1, local, remote, p2, t0 + 10);
    AddPortPair(tr2, local, remote, p3, t0 + 20);
    WithinWindow(tr3, key, p1, p2, p3, t0 + 20, 60);
  }

  /** A pair holding three distinct ports, each younger than `ttl` at `now`, is still an offender after eviction. */
  lemma WithinWindow(tr: Tracker, key: string, p1: Port, p2: Port, p3: Port, now: int, ttl: int)
    requires p1 != p2 && p2 != p3 && p1 != p3
    requires Seen(tr, key, p1) && now - tr[key][p1] < ttl
    requires Seen(tr, key, p2) && now - tr[key][p2] < ttl
    requires Seen(tr, key, p3) && now - tr[key][p3] < ttl
    ensures key in Offenders(Evict(tr, now, ttl))
  {
    var young := Evict(tr, now, ttl)[key];
    assert young == Unexpired(tr[key], now, ttl);
    assert p1 in young && p2 in young && p3 in young;
    SubsetSize({p1, p2, p3}, young.Keys);
  }

  lemma SubsetSize<T>(a: set<T>, b: set<T>)
    requires a <= b
    ensures |a| <= |b|
  {
    assert b == a + (b - a);
  }
}

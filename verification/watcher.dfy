/**
 The watcher of connections/connection.go (Observe, updateIPBlocker,
 printNewConnections) and the order of one tick of main.go's loop.

 Opening /proc/net/tcp is reduced to its outcome: the file could not be
 opened, or the scanner yielded some lines and may have failed. The
 Prometheus counter of new connections is a plain number in the watcher.
 */
module Watcher {
  import opened Wrappers
  import opened Net
  import opened Parse
  import opened Connections
  import opened PortTracker
  import opened HostBlocker
  import opened Util

  /** What Observe reads: a file that could not be opened, or the scanned lines and a scanner-error flag. */
  datatype Source = Unreadable | Lines(lines: seq<string>, scanFailed: bool)

  /** ConnectionWatcher, with the metric it increments. */
  datatype Watcher = Watcher(conns: map<string, Connection>, blocker: Blocker, newConnections: nat)

  /** NewConnectionWatcher: no previous snapshot, the given blocker, a zero counter. */
  function NewWatcher(b: Blocker): (w: Watcher)
    ensures w.blocker == b && w.newConnections == 0
    ensures forall k :: k !in w.conns
  {
    Watcher(map[], b, 0)
  }

  /** How long, in seconds, a port stays tracked. */
  const TTL: int := 60

  /** The tracker key of a connection's address pair. */
  function PairOf(c: Connection): string {
    PairKey(IPString(c.localIP), IPString(c.remoteIP))
  }

  /** The tracker entries a snapshot touches: its connections' pairs with their local ports. */
  function Touched(conns: map<string, Connection>): set<(string, Port)> {
    TouchedExcept(conns, {})
  }

  /** The entries touched by the connections whose keys are not in `todo`. */
  function TouchedExcept(conns: map<string, Connection>, todo: set<string>): set<(string, Port)> {
    set k | k in conns && k !in todo :: (PairOf(conns[k]), conns[k].localPort)
  }

  lemma TouchedExceptStep(conns: map<string, Connection>, todo: set<string>, k: string)
    requires k in todo && k in conns
    ensures TouchedExcept(conns, todo - {k}) == TouchedExcept(conns, todo) + {(PairOf(conns[k]), conns[k].localPort)}
  {
  }

  /**
   `r` is `tr` after an AddPort at time `t` for every entry in `touched`:
   those entries carry `t`, every other entry keeps its time, nothing is
   dropped, and no other entry appears.
   */
  ghost predicate Updated(tr: Tracker, r: Tracker, touched: set<(string, Port)>, t: int) {
    && r.Keys == tr.Keys + (set e | e in touched :: e.0)
    && (forall k, p: Port :: Seen(r, k, p) <==> Seen(tr, k, p) || (k, p) in touched)
    && (forall k, p: Port :: (k, p) in touched ==> Seen(r, k, p) && r[k][p] == t)
    && (forall k, p: Port :: Seen(tr, k, p) && (k, p) !in touched ==> Seen(r, k, p) && r[k][p] == tr[k][p])
  }

  lemma UpdatedStep(tr: Tracker, r: Tracker, done: set<(string, Port)>, t: int, c: Connection)
    requires Updated(tr, r, done, t)
    ensures Updated(tr, AddPort(r, IPString(c.localIP), IPString(c.remoteIP), c.localPort, t), done + {(PairOf(c), c.localPort)}, t)
  {
    var r' := AddPort(r, IPString(c.localIP), IPString(c.remoteIP), c.localPort, t);
    var e := (PairOf(c), c.localPort);
    var done' := done + {e};
    assert (set x | x in done' :: x.0) == (set x | x in done :: x.0) + {e.0};
    forall k, p: Port | (k, p) in done'
      ensures Seen(r', k, p) && r'[k][p] == t
    {
      if (k, p) != e {
        assert (k, p) in done;
      }
    }
    forall k, p: Port | Seen(tr, k, p) && (k, p) !in done'
      ensures Seen(r', k, p) && r'[k][p] == tr[k][p]
    {
      assert Seen(r, k, p) && r[k][p] == tr[k][p];
    }
  }

  /**
   updateIPBlocker: AddPort(localIP, remoteIP, localPort, t) for every
   connection of the snapshot, in map order. Only local ports are tracked;
   a remote port never is.
   */
  method UpdateIPBlocker(tr: Tracker, conns: map<string, Connection>, t: int) returns (r: Tracker)
    ensures Updated(tr, r, Touched(conns), t)
    ensures KeysSplit(tr) ==> KeysSplit(r)
  {
    r := tr;
    var todo := conns.Keys;
    assert TouchedExcept(conns, todo) == {};
    assert (set e | e in TouchedExcept(conns, todo) :: e.0) == {};
    while todo != {}
      invariant todo <= conns.Keys
      invariant Updated(tr, r, TouchedExcept(conns, todo), t)
      invariant KeysSplit(tr) ==> KeysSplit(r)
      decreases todo
    {
      var k :| k in todo;
      var c := conns[k];
      UpdatedStep(tr, r, TouchedExcept(conns, todo), t, c);
      TouchedExceptStep(conns, todo, k);
      r := AddPort(r, IPString(c.localIP), IPString(c.remoteIP), c.localPort, t);
      todo := todo - {k};
    }
  }

  /**
   The direction printNewConnections logs a new connection in: local to
   remote when the local port lies in the ephemeral range (the host dialled
   out), remote to local otherwise.
   */
  function Framing(c: Connection): (r: (Endpoint, Endpoint))
    ensures IsEphemeralPort(c.localPort) ==> r == (Endpoint(c.localIP, c.localPort), Endpoint(c.remoteIP, c.remotePort))
    ensures !IsEphemeralPort(c.localPort) ==> r == (Endpoint(c.remoteIP, c.remotePort), Endpoint(c.localIP, c.localPort))
  {
    var local, remote := Endpoint(c.localIP, c.localPort), Endpoint(c.remoteIP, c.remotePort);
    if c.localPort >= MinEphemeralPort && c.localPort <= MaxEphemeralPort then (local, remote) else (remote, local)
  }

  /**
   printNewConnections: the keys of `obs` absent from `past`, each reported
   once with its logged direction; the counter grows by their number.
   */
  method PrintNewConnections(obs: map<string, Connection>, past: map<string, Connection>)
    returns (count: nat, reported: seq<string>, framed: seq<(Endpoint, Endpoint)>)
    ensures NoDup(reported)
    ensures forall k :: k in reported <==> k in obs && k !in past
    ensures |framed| == |reported| && forall i :: 0 <= i < |reported| ==> reported[i] in obs && framed[i] == Framing(obs[reported[i]])
    ensures count == |reported| == |obs.Keys - past.Keys|
  {
    count, reported, framed := 0, [], [];
    var todo := obs.Keys;
    while todo != {}
      invariant todo <= obs.Keys
      invariant NoDup(reported) && count == |reported| == |framed|
      invariant forall k :: k in reported <==> k in obs && k !in past && k !in todo
      invariant forall i :: 0 <= i < |reported| ==> reported[i] in obs && framed[i] == Framing(obs[reported[i]])
      decreases todo
    {
      var k :| k in todo;
      if k !in past {
        reported := reported + [k];
        framed := framed + [Framing(obs[k])];
        count := count + 1;
      }
      todo := todo - {k};
    }
    assert (set k | k in reported) == obs.Keys - past.Keys;
    NoDupSize(reported);
  }

  /** The snapshot Observe reads, when the file could be opened. */
  function Read(src: Source): Snapshot
    requires src.Lines?
  {
    GetConnections(src.lines, src.scanFailed)
  }

  /** The table makes getConnections panic (a line with too few fields or an unchecked byte index). */
  predicate Panics(src: Source) {
    src.Lines? && Read(src).Crash?
  }

  /**
   Observe. When the file cannot be opened or getConnections reports an
   error, nothing changes. Otherwise every connection of the snapshot is fed
   to the tracker, the counter grows by the number of keys absent from the
   previous snapshot, and the snapshot replaces the previous one outright.
   A table that makes getConnections panic ends the Go process; here it is
   reported as `panicked`, with the state left as it was.
   */
  method Observe(w: Watcher, src: Source, t: int) returns (w': Watcher, panicked: bool)
    ensures panicked <==> Panics(src)
    ensures w'.blocker.blocked == w.blocker.blocked && w'.blocker.table == w.blocker.table
    ensures w'.newConnections == w.newConnections + |w'.conns.Keys - w.conns.Keys|
    ensures panicked || src.Unreadable? || Read(src).Failed? ==> w' == w
    ensures src.Lines? && Read(src).Built? ==>
      && w'.conns == Read(src).conns
      && Updated(w.blocker.tracker, w'.blocker.tracker, Touched(w'.conns), t)
    ensures Valid(w.blocker) ==> Valid(w'.blocker)
  {
    if src.Unreadable? {
      return w, false;
    }
    var snapshot := GetConnections(src.lines, src.scanFailed);
    if !snapshot.Built? {
      return w, snapshot.Crash?;
    }
    var obs := snapshot.conns;
    var tracker := UpdateIPBlocker(w.blocker.tracker, obs, t);
    var count, reported, framed := PrintNewConnections(obs, w.conns);
    w', panicked := Watcher(obs, w.blocker.(tracker := tracker), w.newConnections + count), false;
  }

  /**
   Start-up in main: open the firewall, build a watcher around the new
   blocker, and seed it with one observation. The watcher knows no earlier
   snapshot, so every connection of the first snapshot is counted as new;
   nothing is blocked and no firewall call has been made yet.
   */
  method Start(available: bool, src: Source, t: int) returns (w: Watcher, panicked: bool)
    ensures panicked <==> Panics(src)
    ensures w.blocker.table.Some? <==> available
    ensures w.blocker.blocked == [] && LogOf(w.blocker) == []
    ensures src.Lines? && Read(src).Built? ==>
      && w.conns == Read(src).conns && w.newConnections == |Read(src).conns|
      && Updated(map[], w.blocker.tracker, Touched(w.conns), t)
    ensures !(src.Lines? && Read(src).Built?) ==> w.conns == map[] && w.newConnections == 0 && w.blocker.tracker == map[]
    ensures Valid(w.blocker)
  {
    var w0 := NewWatcher(NewBlocker(available));
    w, panicked := Observe(w0, src, t);
    AllKeysNew(w.conns, w0.conns);
  }

  /** Against an empty previous snapshot, every key of a snapshot is new. */
  lemma AllKeysNew(obs: map<string, Connection>, past: map<string, Connection>)
    requires forall k :: k !in past
    ensures |obs.Keys - past.Keys| == |obs|
  {
    assert obs.Keys - past.Keys == obs.Keys;
  }

  /**
   What one tick extracts from the tracker `tr` at `t`: `keys` names exactly
   the pairs that still offend after eviction, each once, and `hosts[i]` is
   the pair `keys[i]`, with its addresses taken from the key and all of its
   young ports, at least the threshold's worth of them.
   */
  ghost predicate ExtractedFrom(tr: Tracker, t: int, keys: seq<string>, hosts: seq<RemoteHost>) {
    && |keys| == |hosts| && NoDup(keys)
    && (forall k :: k in keys <==> k in Offenders(Evict(tr, t, TTL)))
    && (forall i :: 0 <= i < |hosts| ==> keys[i] in tr && ':' in keys[i])
    && (forall i :: 0 <= i < |hosts| ==> hosts[i] == HostFor(keys[i], hosts[i].ports))
    && (forall i :: 0 <= i < |hosts| ==> Enumerates(hosts[i].ports, Evict(tr, t, TTL)[keys[i]].Keys))
    && (forall i :: 0 <= i < |hosts| ==> NoDup(hosts[i].ports) && |hosts[i].ports| >= ScanThreshold)
  }

  /** An enumeration of an offending pair's ports has at least the threshold's worth of distinct ports. */
  lemma OffenderPorts(tr: Tracker, key: string, ports: seq<Port>)
    requires key in Offenders(tr) && Enumerates(ports, tr[key].Keys)
    ensures NoDup(ports) && |ports| >= ScanThreshold
  {
    NoDupSize(ports);
    var members := set p: Port | p in ports;
    assert |members| == |ports|;
    assert members == tr[key].Keys;
    assert |tr[key].Keys| == |tr[key]|;
  }

  /** After eviction and extraction, what remains was there before, with the same time, and is young. */
  lemma SweptYoung(tr: Tracker, t: int)
    ensures forall k, p: Port :: Seen(Drain(Evict(tr, t, TTL)), k, p) ==>
      Seen(tr, k, p) && Drain(Evict(tr, t, TTL))[k][p] == tr[k][p] && t - tr[k][p] < TTL
  {
    var young := Evict(tr, t, TTL);
    forall k, p: Port | Seen(Drain(young), k, p)
      ensures Seen(tr, k, p) && Drain(young)[k][p] == tr[k][p] && t - tr[k][p] < TTL
    {
      assert Seen(young, k, p) && Drain(young)[k][p] == young[k][p];
    }
  }

  /**
   The tracker half of a tick: RemoveOldConnections with the TTL, then
   HostsToBlock. The tracker becomes the evicted one with every offending
   pair emptied; the hosts are exactly the pairs that still reached the
   threshold after eviction (`keys` names them), each with all its young
   ports. What is left is young and holds no offending pair.
   */
  method Extract(tr: Tracker, t: int) returns (tr': Tracker, hosts: seq<RemoteHost>, ghost keys: seq<string>)
    requires KeysSplit(tr)
    ensures tr' == Drain(Evict(tr, t, TTL))
    ensures ExtractedFrom(tr, t, keys, hosts)
    ensures KeysSplit(tr') && tr'.Keys == tr.Keys
    ensures forall k, p: Port :: Seen(tr', k, p) ==> Seen(tr, k, p) && tr'[k][p] == tr[k][p] && t - tr[k][p] < TTL
    ensures Offenders(tr') == {}
  {
    var young, removed, entries := RemoveOldConnections(tr, t, TTL);
    tr', hosts, keys := HostsToBlock(young);
    forall i | 0 <= i < |hosts|
      ensures NoDup(hosts[i].ports) && |hosts[i].ports| >= ScanThreshold
    {
      assert keys[i] in keys;
      OffenderPorts(young, keys[i], hosts[i].ports);
    }
    SweptYoung(tr, t);
  }

  /**
   The second half of a tick: evict, extract the offenders and block them.
   The snapshot and counter are untouched; the tracker ends evicted and
   drained; the firewall handle is kept, and the log and BlockedHosts only
   grow, with every new call and record naming an extracted host.
   */
  method Sweep(w: Watcher, t: int, oracle: Oracle) returns (w': Watcher, hosts: seq<RemoteHost>, ghost keys: seq<string>)
    requires Valid(w.blocker)
    ensures w'.conns == w.conns && w'.newConnections == w.newConnections
    ensures |w.blocker.blocked| <= |w'.blocker.blocked| && w'.blocker.blocked[..|w.blocker.blocked|] == w.blocker.blocked
    ensures w'.blocker.table.Some? <==> w.blocker.table.Some?
    ensures |LogOf(w.blocker)| <= |LogOf(w'.blocker)| && LogOf(w'.blocker)[..|LogOf(w.blocker)|] == LogOf(w.blocker)
    ensures forall k, p: Port :: Seen(w'.blocker.tracker, k, p) ==> t - w'.blocker.tracker[k][p] < TTL
    ensures w.blocker.table.Some? && Cooperative(oracle) ==>
      forall i :: 0 <= i < |hosts| ==> Filtered(hosts[i].remoteIP) || hosts[i].remoteIP in w'.blocker.blocked
    ensures w'.blocker.tracker == Drain(Evict(w.blocker.tracker, t, TTL))
    ensures Offenders(w'.blocker.tracker) == {}
    ensures Valid(w'.blocker)
    ensures CallsFrom(w.blocker, hosts, w'.blocker) && RecordedFrom(w.blocker, hosts, w'.blocker)
    ensures Covered(w.blocker, hosts, w'.blocker)
    ensures w'.blocker == ConsiderAll(w.blocker.(tracker := w'.blocker.tracker), hosts, oracle)
    ensures ExtractedFrom(w.blocker.tracker, t, keys, hosts)
  {
    var tracker;
    tracker, hosts, keys := Extract(w.blocker.tracker, t);
    var b1 := w.blocker.(tracker := tracker);
    assert Valid(b1);
    var b, errs := BlockHosts(b1, hosts, oracle);
    w' := w.(blocker := b);
    Retracked(w.blocker, tracker, hosts, oracle, b);
  }

  /**
   One tick of the main loop: Observe, then Sweep (Extract, then BlockHosts
   on the extracted hosts). `observed` is the tracker after Observe; the hosts are
   exactly its pairs that hold three young ports, and the tracker ends up
   evicted and drained. Every extracted host had at least three ports and,
   with a handle and a cooperative firewall, ends up filtered or blocked.
   When Observe panics the tick stops there.
   */
  method Tick(w: Watcher, src: Source, t: int, oracle: Oracle)
    returns (w': Watcher, hosts: seq<RemoteHost>, panicked: bool, ghost observed: Tracker, ghost keys: seq<string>)
    requires Valid(w.blocker)
    ensures panicked <==> Panics(src)
    ensures panicked ==> w' == w && hosts == [] && keys == []
    ensures w'.conns == (if src.Lines? && Read(src).Built? then Read(src).conns else w.conns)
    ensures w'.newConnections == w.newConnections + |w'.conns.Keys - w.conns.Keys|
    ensures !(src.Lines? && Read(src).Built?) ==> observed == w.blocker.tracker
    ensures |w.blocker.blocked| <= |w'.blocker.blocked| && w'.blocker.blocked[..|w.blocker.blocked|] == w.blocker.blocked
    ensures w'.blocker.table.Some? <==> w.blocker.table.Some?
    ensures |LogOf(w.blocker)| <= |LogOf(w'.blocker)| && LogOf(w'.blocker)[..|LogOf(w.blocker)|] == LogOf(w.blocker)
    ensures !panicked ==> forall k, p: Port :: Seen(w'.blocker.tracker, k, p) ==> t - w'.blocker.tracker[k][p] < TTL
    ensures w.blocker.table.Some? && Cooperative(oracle) ==>
      forall i :: 0 <= i < |hosts| ==> Filtered(hosts[i].remoteIP) || hosts[i].remoteIP in w'.blocker.blocked
    ensures src.Lines? && Read(src).Built? ==> Updated(w.blocker.tracker, observed, Touched(Read(src).conns), t)
    ensures !panicked ==> w'.blocker.tracker == Drain(Evict(observed, t, TTL))
    ensures !panicked ==> Offenders(w'.blocker.tracker) == {}
    ensures Valid(w'.blocker)
    ensures CallsFrom(w.blocker, hosts, w'.blocker) && RecordedFrom(w.blocker, hosts, w'.blocker)
    ensures Covered(w.blocker, hosts, w'.blocker)
    ensures !panicked ==> w'.blocker == ConsiderAll(w.blocker.(tracker := w'.blocker.tracker), hosts, oracle)
    ensures !panicked ==> ExtractedFrom(observed, t, keys, hosts)
  {
    var w1;
    w1, panicked := Observe(w, src, t);
    observed := w1.blocker.tracker;
    if panicked {
      return w, [], true, observed, [];
    }
    w', hosts, keys := Sweep(w1, t, oracle);
  }

  /**
   Detection end to end: when one snapshot holds connections from one remote
   address to three distinct local ports of one local address, the tracker
   after Observe makes that pair an offender of the tick's eviction, so Tick
   extracts it.
   */
  lemma {:induction false} SnapshotScanDetected(tr: Tracker, observed: Tracker, conns: map<string, Connection>, t: int, k1: string, k2: string, k3: string)
    requires Updated(tr, observed, Touched(conns), t)
    requires k1 in conns && k2 in conns && k3 in conns
    requires PairOf(conns[k1]) == PairOf(conns[k2]) == PairOf(conns[k3])
    requires conns[k1].localPort != conns[k2].localPort && conns[k2].localPort != conns[k3].localPort
    requires conns[k1].localPort != conns[k3].localPort
    ensures PairOf(conns[k1]) in Offenders(Evict(observed, t, TTL))
  {
    var key := PairOf(conns[k1]);
    TouchedAt(tr, observed, conns, t, k1);
    TouchedAt(tr, observed, conns, t, k2);
    TouchedAt(tr, observed, conns, t, k3);
    WithinWindow(observed, key, conns[k1].localPort, conns[k2].localPort, conns[k3].localPort, t, TTL);
  }

  /** A connection of the snapshot is tracked after the update, stamped with the update's time. */
  lemma TouchedAt(tr: Tracker, observed: Tracker, conns: map<string, Connection>, t: int, k: string)
    requires Updated(tr, observed, Touched(conns), t) && k in conns
    ensures Seen(observed, PairOf(conns[k]), conns[k].localPort)
    ensures observed[PairOf(conns[k])][conns[k].localPort] == t
  {
    assert (PairOf(conns[k]), conns[k].localPort) in TouchedExcept(conns, {});
  }
}

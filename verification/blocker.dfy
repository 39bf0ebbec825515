/**
 The host blocker of connections/blocker.go: BlockHosts, isBlocked,
 insertRule and CleanUp, run against an abstract firewall.

 The iptables handle is modelled as its call log: every Exists, Insert and
 Delete the blocker issues is appended together with the reply it got. The
 replies come from an oracle, a function from the position of a call in the
 log to its reply, so every firewall behaviour is covered and contracts can
 speak about the calls that were issued. A nil handle is `None`.
 */
module HostBlocker {
  import opened Wrappers
  import opened GoStrings
  import opened Net
  import opened PortTracker

  /** A DROP rule operation on the INPUT chain of the filter table, for source address `addr`. */
  datatype Call = Exists(addr: string) | Insert(addr: string) | Delete(addr: string)

  /** A firewall reply: whether the call returned an error, and (for Exists) whether the rule is present. */
  datatype Reply = Reply(failed: bool, present: bool)

  datatype Logged = Logged(call: Call, reply: Reply)

  /** The firewall handle: the calls issued through it, with their replies. */
  datatype Table = Table(log: seq<Logged>)

  /** The reply the firewall gives to the call at a given position of the log. */
  type Oracle = nat -> Reply

  /** IPBlocker: the port tracker, BlockedHosts, and the possibly nil firewall handle. */
  datatype Blocker = Blocker(tracker: Tracker, blocked: seq<Option<IPv4>>, table: Option<Table>)

  /** The calls issued so far (none without a handle). */
  function LogOf(b: Blocker): seq<Logged> {
    if b.table.Some? then b.table.value.log else []
  }

  function Issue(t: Table, c: Call, oracle: Oracle): Table {
    Table(t.log + [Logged(c, oracle(|t.log|))])
  }

  /**
   NewIPBlocker: an empty tracker, nothing blocked, and a handle exactly when
   the firewall could be opened (`available`).
   */
  function NewBlocker(available: bool): (b: Blocker)
    ensures Valid(b)
    ensures b.tracker == map[] && b.blocked == [] && LogOf(b) == []
    ensures b.table.Some? <==> available
  {
    Blocker(map[], [], if available then Some(Table([])) else None)
  }

  /** The two addresses BlockHosts never blocks, compared as rendered text. */
  predicate Filtered(ip: Option<IPv4>) {
    IPText(ip) == "0.0.0.0" || IPText(ip) == "127.0.0.1"
  }

  lemma RenderedSpecials()
    ensures IPString(Unspecified) == "0.0.0.0"
    ensures IPString(Loopback) == "127.0.0.1"
  {
    assert Decimal(0) == "0";
    assert Decimal(1) == "1";
    assert Decimal(127) == "127";
  }

  /** The filter spares exactly 0.0.0.0 and 127.0.0.1, not the rest of 127.0.0.0/8 nor a nil address. */
  lemma {:induction false} FilteredExactly(ip: Option<IPv4>)
    ensures Filtered(ip) <==> ip == Some(Unspecified) || ip == Some(Loopback)
  {
    RenderedSpecials();
    if IPText(ip) == "0.0.0.0" {
      IPTextInjective(ip, Some(Unspecified));
    } else if IPText(ip) == "127.0.0.1" {
      IPTextInjective(ip, Some(Loopback));
    }
  }

  /** Another loopback address, such as 127.0.0.2, is not filtered. */
  lemma OtherLoopbackBlockable()
    ensures !Filtered(Some(IPv4(127, 0, 0, 2)))
    ensures !Filtered(None)
  {
    FilteredExactly(Some(IPv4(127, 0, 0, 2)));
    FilteredExactly(None);
  }

  /** isBlocked: net.IP.Equal against every address in BlockedHosts. */
  predicate IsBlocked(b: Blocker, ip: Option<IPv4>) {
    ip in b.blocked
  }

  /** isBlocked's loop: walk BlockedHosts and stop at the first address equal to `ip`. */
  method LookUpBlocked(b: Blocker, ip: Option<IPv4>) returns (found: bool)
    ensures found <==> IsBlocked(b, ip)
  {
    var i := 0;
    while i < |b.blocked|
      invariant 0 <= i <= |b.blocked|
      invariant ip !in b.blocked[..i]
    {
      if b.blocked[i] == ip {
        return true;
      }
      i := i + 1;
    }
    assert b.blocked[..i] == b.blocked;
    return false;
  }

  /** The test BlockHosts applies before acting on a host. */
  predicate Eligible(b: Blocker, ip: Option<IPv4>) {
    !Filtered(ip) && !IsBlocked(b, ip)
  }

  /**
   insertRule: ask whether the rule exists; stop when the check fails or
   finds the rule; otherwise insert it. The result's flag says whether the
   address is to be recorded in BlockedHosts.
   */
  function InsertRule(t: Table, ip: Option<IPv4>, oracle: Oracle): (r: (Table, bool))
    ensures |t.log| < |r.0.log| <= |t.log| + 2 && r.0.log[..|t.log|] == t.log
    ensures r.0.log[|t.log|] == Logged(Exists(IPText(ip)), oracle(|t.log|))
    ensures |r.0.log| == |t.log| + 2 <==> oracle(|t.log|) == Reply(false, false)
    ensures |r.0.log| == |t.log| + 2 ==> r.0.log[|t.log| + 1] == Logged(Insert(IPText(ip)), oracle(|t.log| + 1))
    ensures r.1 <==> |r.0.log| == |t.log| + 2 && !oracle(|t.log| + 1).failed
  {
    var t1 := Issue(t, Exists(IPText(ip)), oracle);
    var check := oracle(|t.log|);
    if check.failed || check.present then (t1, false)
    else
      var t2 := Issue(t1, Insert(IPText(ip)), oracle);
      (t2, !oracle(|t1.log|).failed)
  }

  predicate Succeeded(e: Logged) {
    e.call.Insert? && !e.reply.failed
  }

  /** The addresses of the successful inserts of a log, in order. */
  function Inserted(log: seq<Logged>): seq<string>
    decreases |log|
  {
    if |log| == 0 then []
    else
      var last := log[|log| - 1];
      Inserted(log[..|log| - 1]) + (if Succeeded(last) then [last.call.addr] else [])
  }

  /** Every Insert directly follows an Exists on the same address that reported neither error nor rule. */
  ghost predicate Checked(log: seq<Logged>) {
    forall j :: 0 <= j < |log| && log[j].call.Insert? ==>
      j > 0 && log[j - 1] == Logged(Exists(log[j].call.addr), Reply(false, false))
  }

  /** No Exists or Insert names 0.0.0.0 or 127.0.0.1. */
  ghost predicate Spared(log: seq<Logged>) {
    forall j :: 0 <= j < |log| && !log[j].call.Delete? ==>
      log[j].call.addr != "0.0.0.0" && log[j].call.addr != "127.0.0.1"
  }

  /** Once an address is inserted, no later Exists or Insert names it. */
  ghost predicate NoReinsert(log: seq<Logged>) {
    forall i, j :: 0 <= i < j < |log| && Succeeded(log[i]) && !log[j].call.Delete? ==>
      log[j].call.addr != log[i].call.addr
  }

  function Rendered(ips: seq<Option<IPv4>>): (r: seq<string>)
    ensures |r| == |ips| && forall i :: 0 <= i < |ips| ==> r[i] == IPText(ips[i])
  {
    seq(|ips|, i requires 0 <= i < |ips| => IPText(ips[i]))
  }

  /**
   The blocker's invariant. BlockedHosts holds no duplicate and no filtered
   address; with a handle it is exactly the successful inserts of the log,
   in order, and the log keeps the check-then-insert discipline; without a
   handle it stays empty.
   */
  ghost predicate Valid(b: Blocker) {
    && KeysSplit(b.tracker)
    && NoDup(b.blocked)
    && (forall i :: 0 <= i < |b.blocked| ==> !Filtered(b.blocked[i]))
    && (b.table.None? ==> b.blocked == [])
    && (b.table.Some? ==>
         var log := b.table.value.log;
         Rendered(b.blocked) == Inserted(log) && Checked(log) && Spared(log) && NoReinsert(log))
  }

  /** Every successful insert of a log is among its inserted addresses. */
  lemma {:induction false} InsertedHas(log: seq<Logged>, i: nat)
    requires i < |log| && Succeeded(log[i])
    ensures log[i].call.addr in Inserted(log)
    decreases |log|
  {
    if i < |log| - 1 {
      InsertedHas(log[..|log| - 1], i);
    }
  }

  /**
   One iteration of BlockHosts' loop: a filtered or already blocked host, or
   a nil handle, leaves the blocker as it is; otherwise insertRule runs, so
   the log grows by an Exists on the host's address and the host may be
   appended to BlockedHosts.
   */
  function Consider(b: Blocker, host: RemoteHost, oracle: Oracle): (r: Blocker)
    ensures r.tracker == b.tracker && (r.table.Some? <==> b.table.Some?)
    ensures !Eligible(b, host.remoteIP) || b.table.None? ==> r == b
    ensures Eligible(b, host.remoteIP) && b.table.Some? ==>
      && |LogOf(b)| < |LogOf(r)| && LogOf(r)[..|LogOf(b)|] == LogOf(b)
      && LogOf(r)[|LogOf(b)|].call == Exists(IPText(host.remoteIP))
    ensures r.blocked == b.blocked || (r.blocked == b.blocked + [host.remoteIP] && Eligible(b, host.remoteIP))
  {
    if !Eligible(b, host.remoteIP) || b.table.None? then b
    else
      var (t, recorded) := InsertRule(b.table.value, host.remoteIP, oracle);
      Blocker(b.tracker, if recorded then b.blocked + [host.remoteIP] else b.blocked, Some(t))
  }

  /** The calls insertRule appends: an Exists on `addr`, then an Insert on it only after a clean "absent". */
  ghost predicate RuleCalls(ext: seq<Logged>, addr: string) {
    && 1 <= |ext| <= 2
    && ext[0].call == Exists(addr)
    && (|ext| == 2 ==> ext[0].reply == Reply(false, false) && ext[1].call == Insert(addr))
  }

  lemma RuleChecked(log: seq<Logged>, ext: seq<Logged>, addr: string)
    requires Checked(log) && RuleCalls(ext, addr)
    ensures Checked(log + ext)
  {
    var all := log + ext;
    forall j | 0 <= j < |all| && all[j].call.Insert?
      ensures j > 0 && all[j - 1] == Logged(Exists(all[j].call.addr), Reply(false, false))
    {
      if j < |log| {
        assert all[j] == log[j] && all[j - 1] == log[j - 1];
      } else {
        assert j == |log| + 1;
      }
    }
  }

  lemma RuleSpared(log: seq<Logged>, ext: seq<Logged>, addr: string)
    requires Spared(log) && RuleCalls(ext, addr)
    requires addr != "0.0.0.0" && addr != "127.0.0.1"
    ensures Spared(log + ext)
  {
    var all := log + ext;
    forall j | 0 <= j < |all| && !all[j].call.Delete?
      ensures all[j].call.addr != "0.0.0.0" && all[j].call.addr != "127.0.0.1"
    {
      if j < |log| {
        assert all[j] == log[j];
      }
    }
  }

  lemma RuleNoReinsert(log: seq<Logged>, ext: seq<Logged>, addr: string)
    requires NoReinsert(log) && RuleCalls(ext, addr)
    requires forall i :: 0 <= i < |log| && Succeeded(log[i]) ==> log[i].call.addr != addr
    ensures NoReinsert(log + ext)
  {
    var all := log + ext;
    forall i, j | 0 <= i < j < |all| && Succeeded(all[i]) && !all[j].call.Delete?
      ensures all[j].call.addr != all[i].call.addr
    {
      if j < |log| {
        assert all[i] == log[i] && all[j] == log[j];
      } else if i < |log| {
        assert all[i] == log[i];
      }
    }
  }

  lemma RuleInserted(log: seq<Logged>, ext: seq<Logged>, addr: string)
    requires RuleCalls(ext, addr)
    ensures Inserted(log + ext) == Inserted(log) + (if |ext| == 2 && Succeeded(ext[1]) then [addr] else [])
  {
    var one := log + [ext[0]];
    assert one[..|log|] == log;
    if |ext| == 2 {
      assert (log + ext)[..|log| + 1] == one;
    } else {
      assert log + ext == one;
    }
  }

  /** The addresses already recorded are the ones a log has successfully inserted. */
  lemma {:induction false} RecordedInserts(b: Blocker, ip: Option<IPv4>)
    requires Valid(b) && b.table.Some? && !IsBlocked(b, ip)
    ensures forall i :: 0 <= i < |b.table.value.log| && Succeeded(b.table.value.log[i]) ==>
      b.table.value.log[i].call.addr != IPText(ip)
  {
    var log := b.table.value.log;
    forall i | 0 <= i < |log| && Succeeded(log[i])
      ensures log[i].call.addr != IPText(ip)
    {
      InsertedHas(log, i);
      var k :| 0 <= k < |b.blocked| && Rendered(b.blocked)[k] == log[i].call.addr;
      if IPText(b.blocked[k]) == IPText(ip) {
        IPTextInjective(b.blocked[k], ip);
      }
    }
  }

  /** Considering a host keeps the blocker's invariant. */
  lemma {:induction false} ConsiderValid(b: Blocker, host: RemoteHost, oracle: Oracle)
    requires Valid(b)
    ensures Valid(Consider(b, host, oracle))
  {
    var ip := host.remoteIP;
    if Eligible(b, ip) && b.table.Some? {
      var log := b.table.value.log;
      var (t, recorded) := InsertRule(b.table.value, ip, oracle);
      var ext := t.log[|log|..];
      assert t.log == log + ext;
      assert RuleCalls(ext, IPText(ip));
      RecordedInserts(b, ip);
      RuleChecked(log, ext, IPText(ip));
      RuleSpared(log, ext, IPText(ip));
      RuleNoReinsert(log, ext, IPText(ip));
      RuleInserted(log, ext, IPText(ip));
      var r := Consider(b, host, oracle);
      assert Rendered(r.blocked) == Rendered(b.blocked) + (if recorded then [IPText(ip)] else []);
    }
  }

  /** Some Exists at or after position `from` names `addr`. */
  ghost predicate Asked(log: seq<Logged>, from: nat, addr: string) {
    exists j :: from <= j < |log| && log[j].call == Exists(addr)
  }

  /** The firewall always answers "no error, no rule". */
  ghost predicate Cooperative(oracle: Oracle) {
    forall n: nat :: oracle(n) == Reply(false, false)
  }

  /** The blocker after BlockHosts' loop extends the one before it: same tracker, longer log and list. */
  ghost predicate Extends(b: Blocker, cur: Blocker) {
    && Valid(cur) && cur.tracker == b.tracker
    && (b.table.None? ==> cur == b)
    && (b.table.Some? <==> cur.table.Some?)
    && |LogOf(b)| <= |LogOf(cur)| && LogOf(cur)[..|LogOf(b)|] == LogOf(b)
    && |b.blocked| <= |cur.blocked| && cur.blocked[..|b.blocked|] == b.blocked
  }

  /** The remote addresses of a list of hosts, in order. */
  function Remotes(hosts: seq<RemoteHost>): (r: seq<Option<IPv4>>)
    ensures |r| == |hosts| && forall i :: 0 <= i < |hosts| ==> r[i] == hosts[i].remoteIP
  {
    seq(|hosts|, i requires 0 <= i < |hosts| => hosts[i].remoteIP)
  }

  /** Every call issued since `b` names the address of one of the hosts in `done`. */
  ghost predicate CallsFrom(b: Blocker, done: seq<RemoteHost>, cur: Blocker) {
    forall j :: |LogOf(b)| <= j < |LogOf(cur)| ==> LogOf(cur)[j].call.addr in Rendered(Remotes(done))
  }

  /** Every address recorded since `b` is the address of one of the hosts in `done`. */
  ghost predicate RecordedFrom(b: Blocker, done: seq<RemoteHost>, cur: Blocker) {
    forall k :: |b.blocked| <= k < |cur.blocked| ==> cur.blocked[k] in Remotes(done)
  }

  /** With a handle, every host in `done` is filtered, recorded, or was asked about since `b`. */
  ghost predicate Covered(b: Blocker, done: seq<RemoteHost>, cur: Blocker) {
    b.table.Some? ==> forall i :: 0 <= i < |done| ==>
      Filtered(done[i].remoteIP) || done[i].remoteIP in cur.blocked ||
      Asked(LogOf(cur), |LogOf(b)|, IPText(done[i].remoteIP))
  }

  /** With a handle and a cooperative firewall, every host in `done` is filtered or recorded. */
  ghost predicate Completed(b: Blocker, done: seq<RemoteHost>, oracle: Oracle, cur: Blocker) {
    b.table.Some? && Cooperative(oracle) ==> forall i :: 0 <= i < |done| ==>
      Filtered(done[i].remoteIP) || done[i].remoteIP in cur.blocked
  }

  /** The growth facts read only the handle, the log and BlockedHosts, so they hold whatever the tracker was. */
  lemma Retracked(b: Blocker, tr: Tracker, hosts: seq<RemoteHost>, oracle: Oracle, cur: Blocker)
    requires Extends(b.(tracker := tr), cur)
    requires CallsFrom(b.(tracker := tr), hosts, cur) && RecordedFrom(b.(tracker := tr), hosts, cur)
    requires Covered(b.(tracker := tr), hosts, cur) && Completed(b.(tracker := tr), hosts, oracle, cur)
    ensures cur.table.Some? <==> b.table.Some?
    ensures |LogOf(b)| <= |LogOf(cur)| && LogOf(cur)[..|LogOf(b)|] == LogOf(b)
    ensures |b.blocked| <= |cur.blocked| && cur.blocked[..|b.blocked|] == b.blocked
    ensures CallsFrom(b, hosts, cur) && RecordedFrom(b, hosts, cur)
    ensures Covered(b, hosts, cur) && Completed(b, hosts, oracle, cur)
  {
    assert LogOf(b.(tracker := tr)) == LogOf(b);
  }

  /** The state of BlockHosts' loop after the hosts in `done`, starting from `b`. */
  ghost predicate Progress(b: Blocker, done: seq<RemoteHost>, oracle: Oracle, cur: Blocker) {
    && Extends(b, cur)
    && CallsFrom(b, done, cur)
    && RecordedFrom(b, done, cur)
    && Covered(b, done, cur)
    && Completed(b, done, oracle, cur)
  }

  lemma ExtendsStep(b: Blocker, host: RemoteHost, oracle: Oracle, cur: Blocker)
    requires Extends(b, cur)
    ensures Extends(b, Consider(cur, host, oracle))
  {
    ConsiderValid(cur, host, oracle);
    var next := Consider(cur, host, oracle);
    if next != cur {
      assert LogOf(next)[..|LogOf(cur)|] == LogOf(cur);
      assert LogOf(next)[..|LogOf(b)|] == LogOf(b);
      assert next.blocked[..|b.blocked|] == b.blocked;
    }
  }

  lemma CallsFromStep(b: Blocker, done: seq<RemoteHost>, host: RemoteHost, oracle: Oracle, cur: Blocker)
    requires Extends(b, cur) && CallsFrom(b, done, cur)
    ensures CallsFrom(b, done + [host], Consider(cur, host, oracle))
  {
    var next := Consider(cur, host, oracle);
    var names := Rendered(Remotes(done + [host]));
    assert names == Rendered(Remotes(done)) + [IPText(host.remoteIP)];
    if next != cur {
      var (t, recorded) := InsertRule(cur.table.value, host.remoteIP, oracle);
      assert LogOf(next) == t.log;
      forall j | |LogOf(b)| <= j < |LogOf(next)|
        ensures LogOf(next)[j].call.addr in names
      {
        if j < |LogOf(cur)| {
          assert LogOf(next)[j] == LogOf(cur)[j];
        }
      }
    }
  }

  lemma RecordedFromStep(b: Blocker, done: seq<RemoteHost>, host: RemoteHost, oracle: Oracle, cur: Blocker)
    requires Extends(b, cur) && RecordedFrom(b, done, cur)
    ensures RecordedFrom(b, done + [host], Consider(cur, host, oracle))
  {
    var next := Consider(cur, host, oracle);
    assert Remotes(done + [host]) == Remotes(done) + [host.remoteIP];
    assert next.blocked == cur.blocked || next.blocked == cur.blocked + [host.remoteIP];
  }

  lemma CoveredStep(b: Blocker, done: seq<RemoteHost>, host: RemoteHost, oracle: Oracle, cur: Blocker)
    requires Extends(b, cur) && Covered(b, done, cur)
    ensures Covered(b, done + [host], Consider(cur, host, oracle))
  {
    var next := Consider(cur, host, oracle);
    var all := done + [host];
    var m, n := |LogOf(b)|, |LogOf(cur)|;
    if b.table.Some? {
      forall i | 0 <= i < |all|
        ensures Filtered(all[i].remoteIP) || all[i].remoteIP in next.blocked ||
          Asked(LogOf(next), m, IPText(all[i].remoteIP))
      {
        if i < |done| {
          assert all[i] == done[i];
          if Asked(LogOf(cur), m, IPText(done[i].remoteIP)) {
            var j :| m <= j < n && LogOf(cur)[j].call == Exists(IPText(done[i].remoteIP));
            assert LogOf(next)[j] == LogOf(cur)[j];
          }
        } else if next != cur {
          assert LogOf(next)[n].call == Exists(IPText(host.remoteIP));
        }
      }
    }
  }

  lemma CompletedStep(b: Blocker, done: seq<RemoteHost>, host: RemoteHost, oracle: Oracle, cur: Blocker)
    requires Extends(b, cur) && Completed(b, done, oracle, cur)
    ensures Completed(b, done + [host], oracle, Consider(cur, host, oracle))
  {
    var next := Consider(cur, host, oracle);
    var all := done + [host];
    if b.table.Some? && Cooperative(oracle) {
      forall i | 0 <= i < |all|
        ensures Filtered(all[i].remoteIP) || all[i].remoteIP in next.blocked
      {
        if i < |done| {
          assert all[i] == done[i];
        } else if next != cur {
          assert oracle(|LogOf(cur)|) == Reply(false, false);
          assert oracle(|LogOf(cur)| + 1) == Reply(false, false);
          assert next.blocked == cur.blocked + [host.remoteIP];
        }
      }
    }
  }

  lemma ProgressInit(b: Blocker, oracle: Oracle)
    requires Valid(b)
    ensures Progress(b, [], oracle, b)
  {
    assert LogOf(b)[..|LogOf(b)|] == LogOf(b) && b.blocked[..|b.blocked|] == b.blocked;
  }

  lemma ProgressStep(b: Blocker, done: seq<RemoteHost>, host: RemoteHost, oracle: Oracle, cur: Blocker)
    requires Progress(b, done, oracle, cur)
    ensures Progress(b, done + [host], oracle, Consider(cur, host, oracle))
  {
    ExtendsStep(b, host, oracle, cur);
    CallsFromStep(b, done, host, oracle, cur);
    RecordedFromStep(b, done, host, oracle, cur);
    CoveredStep(b, done, host, oracle, cur);
    CompletedStep(b, done, host, oracle, cur);
  }

  /** BlockHosts' loop as a function: every host considered in order. */
  function ConsiderAll(b: Blocker, hosts: seq<RemoteHost>, oracle: Oracle): Blocker
    decreases |hosts|
  {
    if |hosts| == 0 then b
    else Consider(ConsiderAll(b, hosts[..|hosts| - 1], oracle), hosts[|hosts| - 1], oracle)
  }

  /** Considering the hosts one by one keeps the loop's progress facts. */
  lemma {:induction false} ConsiderAllProgress(b: Blocker, hosts: seq<RemoteHost>, oracle: Oracle)
    requires Valid(b)
    ensures Progress(b, hosts, oracle, ConsiderAll(b, hosts, oracle))
    decreases |hosts|
  {
    if |hosts| == 0 {
      assert hosts == [];
      ProgressInit(b, oracle);
    } else {
      var front, last := hosts[..|hosts| - 1], hosts[|hosts| - 1];
      var cur := ConsiderAll(b, front, oracle);
      assert ConsiderAll(b, hosts, oracle) == Consider(cur, last, oracle);
      assert front + [last] == hosts;
      ConsiderAllProgress(b, front, oracle);
      ProgressStep(b, front, last, oracle, cur);
    }
  }

  /**
   BlockHosts. Hosts whose address is filtered or already recorded are left
   alone; with a handle every other host gets insertRule; the returned
   error list is always empty, whatever the firewall answers.
   */
  method BlockHosts(b: Blocker, hosts: seq<RemoteHost>, oracle: Oracle) returns (b': Blocker, errs: seq<string>)
    requires Valid(b)
    ensures errs == []
    ensures b' == ConsiderAll(b, hosts, oracle)
    ensures Extends(b, b')
    ensures CallsFrom(b, hosts, b')
    ensures RecordedFrom(b, hosts, b')
    ensures Covered(b, hosts, b')
    ensures Completed(b, hosts, oracle, b')
  {
    b', errs := b, [];
    var i := 0;
    while i < |hosts|
      invariant 0 <= i <= |hosts|
      invariant b' == ConsiderAll(b, hosts[..i], oracle)
    {
      assert hosts[..i + 1][..i] == hosts[..i];
      b' := Consider(b', hosts[i], oracle);
      i := i + 1;
    }
    assert hosts[..i] == hosts;
    ConsiderAllProgress(b, hosts, oracle);
  }

  /** Every inserted address of a log comes from a successful insert in it. */
  lemma {:induction false} InsertedFrom(log: seq<Logged>, addr: string)
    requires addr in Inserted(log)
    ensures exists i :: 0 <= i < |log| && Succeeded(log[i]) && log[i].call.addr == addr
    decreases |log|
  {
    var front := log[..|log| - 1];
    if addr in Inserted(front) {
      InsertedFrom(front, addr);
      var i :| 0 <= i < |front| && Succeeded(front[i]) && front[i].call.addr == addr;
      assert log[i] == front[i];
    }
  }

  /**
   Every recorded address was recorded the way insertRule allows: its Insert
   succeeded, right after an Exists that reported neither error nor rule.
   */
  lemma {:induction false} RecordedAfterCheck(b: Blocker, k: nat)
    requires Valid(b) && k < |b.blocked|
    ensures b.table.Some?
    ensures exists j :: (0 < j < |LogOf(b)| && LogOf(b)[j].call == Insert(IPText(b.blocked[k])) &&
      !LogOf(b)[j].reply.failed && LogOf(b)[j - 1] == Logged(Exists(IPText(b.blocked[k])), Reply(false, false)))
  {
    var log := LogOf(b);
    assert Rendered(b.blocked)[k] in Inserted(log);
    InsertedFrom(log, IPText(b.blocked[k]));
    var j :| 0 <= j < |log| && Succeeded(log[j]) && log[j].call.addr == IPText(b.blocked[k]);
    assert log == b.table.value.log && log[j].call == Insert(IPText(b.blocked[k]));
    assert j > 0 && log[j - 1] == Logged(Exists(IPText(b.blocked[k])), Reply(false, false));
  }

  /**
   After BlockHosts (or any extension of a valid blocker), no new Exists or
   Insert names 0.0.0.0, 127.0.0.1 or an address that was already recorded.
   */
  lemma {:induction false} BlockedNeverAsked(b: Blocker, b': Blocker)
    requires Valid(b) && Extends(b, b')
    ensures forall j :: |LogOf(b)| <= j < |LogOf(b')| && !LogOf(b')[j].call.Delete? ==>
      var addr := LogOf(b')[j].call.addr;
      addr != "0.0.0.0" && addr != "127.0.0.1" && addr !in Rendered(b.blocked)
  {
    var log, log' := LogOf(b), LogOf(b');
    forall j | |log| <= j < |log'| && !log'[j].call.Delete?
      ensures log'[j].call.addr !in Rendered(b.blocked)
    {
      if log'[j].call.addr in Rendered(b.blocked) {
        InsertedFrom(log, log'[j].call.addr);
      }
    }
  }

  /** Calls that are all Deletes. */
  ghost predicate OnlyDeletes(ext: seq<Logged>) {
    forall j :: 0 <= j < |ext| ==> ext[j].call.Delete?
  }

  /** Deletes never add to the inserted addresses. */
  lemma {:induction false} InsertedDeletes(log: seq<Logged>, ext: seq<Logged>)
    requires OnlyDeletes(ext)
    ensures Inserted(log + ext) == Inserted(log)
    decreases |ext|
  {
    if |ext| == 0 {
      assert log + ext == log;
    } else {
      var front := ext[..|ext| - 1];
      InsertedDeletes(log, front);
      assert (log + ext)[..|log + ext| - 1] == log + front;
    }
  }

  /** Deletes keep the check-then-insert discipline of a log. */
  lemma DisciplineDeletes(log: seq<Logged>, ext: seq<Logged>)
    requires OnlyDeletes(ext) && Checked(log) && Spared(log) && NoReinsert(log)
    ensures Checked(log + ext) && Spared(log + ext) && NoReinsert(log + ext)
  {
    var all := log + ext;
    forall j | 0 <= j < |all| && !all[j].call.Delete?
      ensures j < |log| && all[j] == log[j]
    {
    }
    forall j | 0 <= j < |all| && all[j].call.Insert?
      ensures j > 0 && all[j - 1] == Logged(Exists(all[j].call.addr), Reply(false, false))
    {
      assert all[j - 1] == log[j - 1];
    }
    forall i, j | 0 <= i < j < |all| && Succeeded(all[i]) && !all[j].call.Delete?
      ensures all[j].call.addr != all[i].call.addr
    {
      assert all[i] == log[i];
    }
  }

  /** A blocker whose log grows by Deletes alone, and nothing else changes, stays valid. */
  lemma ValidAfterDeletes(b: Blocker, b': Blocker, ext: seq<Logged>)
    requires Valid(b) && b.table.Some? && b'.table.Some?
    requires b'.tracker == b.tracker && b'.blocked == b.blocked
    requires LogOf(b') == LogOf(b) + ext && OnlyDeletes(ext)
    ensures Valid(b')
  {
    InsertedDeletes(LogOf(b), ext);
    DisciplineDeletes(LogOf(b), ext);
  }

  /** The calls CleanUp appends to a log of length `from`: a Delete per address, in order, with the firewall's replies. */
  function DeleteCalls(addrs: seq<Option<IPv4>>, from: nat, oracle: Oracle): (r: seq<Logged>)
    ensures |r| == |addrs| && OnlyDeletes(r)
    ensures forall i :: 0 <= i < |addrs| ==> r[i] == Logged(Delete(IPText(addrs[i])), oracle(from + i))
  {
    seq(|addrs|, i requires 0 <= i < |addrs| => Logged(Delete(IPText(addrs[i])), oracle(from + i)))
  }

  lemma DeleteCallsSnoc(addrs: seq<Option<IPv4>>, n: nat, from: nat, oracle: Oracle)
    requires n < |addrs|
    ensures DeleteCalls(addrs[..n + 1], from, oracle) ==
      DeleteCalls(addrs[..n], from, oracle) + [Logged(Delete(IPText(addrs[n])), oracle(from + n))]
  {
  }

  /**
   CleanUp: one Delete per BlockedHosts entry, in order, whatever each
   Delete answers; nothing else changes, and without a handle (where
   BlockedHosts is empty) no call is made.
   */
  method CleanUp(b: Blocker, oracle: Oracle) returns (b': Blocker)
    requires b.table.None? ==> b.blocked == []
    ensures b'.tracker == b.tracker && b'.blocked == b.blocked
    ensures b.table.Some? <==> b'.table.Some?
    ensures LogOf(b') == LogOf(b) + DeleteCalls(b.blocked, |LogOf(b)|, oracle)
    ensures Valid(b) ==> Valid(b')
  {
    b' := b;
    var i := 0;
    assert b.blocked[..0] == [];
    while i < |b.blocked|
      invariant 0 <= i <= |b.blocked|
      invariant b'.tracker == b.tracker && b'.blocked == b.blocked
      invariant b.table.Some? <==> b'.table.Some?
      invariant LogOf(b') == LogOf(b) + DeleteCalls(b.blocked[..i], |LogOf(b)|, oracle)
    {
      DeleteCallsSnoc(b.blocked, i, |LogOf(b)|, oracle);
      b' := b'.(table := Some(Issue(b'.table.value, Delete(IPText(b.blocked[i])), oracle)));
      i := i + 1;
    }
    assert b.blocked[..i] == b.blocked;
    if Valid(b) && b.table.Some? {
      ValidAfterDeletes(b, b', DeleteCalls(b.blocked, |LogOf(b)|, oracle));
    }
  }
}

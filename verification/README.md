# connectionWatcher in Dafny

A model of the core of connectionWatcher, a Linux daemon that polls
`/proc/net/tcp` every ten seconds. It:

- logs and counts new TCP connections;
- tracks, per pair "local address:remote address", the local ports the remote
  host reached and when each port was last seen;
- treats a pair with three or more tracked ports as a port scan and asks
  iptables to DROP traffic from the remote address;
- deletes those rules on exit.

The model covers `connections/parse.go`, `connections/connection.go`,
`connections/blocker.go` and `connections/util.go`, plus the order of one
tick of the main loop in `main.go`.

| file | module | models |
|---|---|---|
| `wrappers.dfy` | `Wrappers` | `Option`, duplicate-free sequences |
| `gostrings.dfy` | `GoStrings` | the parts of Go's `strings` and `fmt` the core uses: `Split`, `Join`, `Trim`, `TrimSpace`, `Fields`, `%d` |
| `net.dfy` | `Net` | IPv4 addresses, `IP.String`, the IPv4 branch of `net.ParseIP` |
| `parse.dfy` | `Parse` | `parseEndpoint`, `parseIPv4`, `parsePort`, `hex.DecodeString` |
| `connection.dfy` | `Connections` | `Connection`, the scan loop and `getConnections` |
| `tracker.dfy` | `PortTracker` | `IPPortTime`, plus `AddPort`, `RemoveOldConnections`, `HostsToBlock`, `RemoteHost.String` and `portsToString` |
| `blocker.dfy` | `HostBlocker` | `NewIPBlocker`, `BlockHosts`, `isBlocked`, `insertRule` and `CleanUp`, against an abstract firewall |
| `util.dfy` | `Util` | the ephemeral port range and `IsEphemeralPort` |
| `watcher.dfy` | `Watcher` | `Observe`, `updateIPBlocker`, `printNewConnections` and one tick of the main loop |

Modelling choices:

- **Go panics.** Code that can panic returns an explicit outcome instead of
  being excluded:
  - `parseIPv4` and `parsePort` index the decoded bytes without checking
    their number. A 13-character token whose colon is not at position 8 can
    make them panic; this is `IndexPanic`.
  - The scan loop indexes the second and third field of a line without
    checking them. A line that is too short panics; this is `Crashed` and
    `Crash`, and `Observe` and `Tick` report it as `panicked`.
- **Map iteration order.** Go leaves it unspecified. Every loop over a map
  picks its next key with `:|`, so every order is covered. Results whose
  order depends on the map (the removed ports, the hosts to block, the ports
  of a host) are specified as sets or as duplicate-free enumerations.
- **The iptables handle** is its call log. Each `Exists`, `Insert` or
  `Delete` is appended with the reply it received. Replies come from an
  oracle, a function from a call's position in the log to its reply, so
  every firewall behaviour is covered. A nil handle is `None`.
- **Blocker invariant (`HostBlocker.Valid`).** It holds from `NewIPBlocker`
  on and is kept by every operation:
  - `BlockedHosts` is exactly the list of successful inserts in the log;
  - `BlockedHosts` has no duplicate and no filtered address, and without a
    handle it stays empty;
  - no `Insert` was issued without a preceding clean `Exists`;
  - no `Exists` or `Insert` names 0.0.0.0 or 127.0.0.1;
  - no address is checked again once inserted.

Where the code and its comments or tests differ, the model follows the code:

- `BlockHosts` compares the rendered address with the strings "0.0.0.0" and
  "127.0.0.1". Other loopback addresses such as 127.0.0.2 are not spared
  (`HostBlocker.FilteredExactly`).
- When `Exists` finds the rule already present, `insertRule` returns without
  recording the address in `BlockedHosts`. Such a rule is therefore never
  deleted by `CleanUp`, and it is checked again on every later scan from
  that host.
- `BlockHosts` never appends to its error list. It always returns an empty
  list, whatever the firewall answers.
- The test case named "invalid hex" (`x12:D8AC`) is rejected by the length
  check, not by the hex decoder (`Parse.RejectedVectors`).
- A table whose data lines all fail to parse is not the "empty" error. It is
  an empty snapshot, because `lineCount` counts every data line
  (`Connections.AllMalformedIsEmpty`).
- `net.IPv4` never returns nil, so the error branch of `parseIPv4` (lines
  47-49) cannot be reached. It is not modelled.

## Model

| member | source | states |
|---|---|---|
| GoStrings.SplitAny | connections/parse.go:20 | `strings.Split` yields one more piece than there are separators, and no piece contains a separator; `GoStrings.Split` is this with one separator, and `Connections.LineFields` applies it to `strings.TrimSpace` of the line (`GoStrings.TrimSpace`, the two-sided trim of whitespace) |
| GoStrings.SplitJoin | connections/connection.go:113 | splitting a join (`GoStrings.JoinWith`, the model of `strings.Join` and of the `%s:%d:%s:%d` key) of separator-free pieces gives back the pieces |
| GoStrings.JoinSplit | connections/blocker.go:93 | joining the pieces of a split with the same separator restores the string |
| GoStrings.SplitMany | connections/blocker.go:93-96 | a split has at least two pieces exactly when the separator occurs, so `ips[1]` exists exactly for keys containing ':' |
| GoStrings.TrimLeft | connections/blocker.go:188 | `strings.Trim` drops exactly the leading run of cut characters: the result is a suffix, everything dropped is in the cutset, and the result does not start with one |
| GoStrings.TrimRight | connections/blocker.go:188 | the same for the trailing run |
| GoStrings.Decimal | connections/connection.go:113 | `%d` is the shortest decimal numeral: all digits, no leading zero except "0", and its value is the number |
| GoStrings.DecimalCanonical | connections/connection.go:113 | every numeral without a leading zero is the `%d` rendering of its value |
| GoStrings.DecimalInjective | connections/connection.go:113 | distinct numbers render differently |
| Net.ParseOctet | connections/blocker.go:95-96 | an octet `net.ParseIP` accepts is the canonical decimal rendering of its value |
| Net.ParseIPString | connections/blocker.go:95-96 | parsing the rendering of an address gives back the address |
| Net.IPString | connections/connection.go:67 | `IP.String` for IPv4: `Net.ParseIPString` proves `net.ParseIP` inverts it and `Net.IPStringInjective` that it is injective |
| Net.ParseIP | connections/blocker.go:95-96 | the IPv4 branch of `net.ParseIP`; `Net.ParseIPCanonical` proves every accepted string is the rendering of its result |
| Net.ParseIPCanonical | connections/blocker.go:95-96 | an address that parses is the rendering of its value |
| Net.IPStringInjective | connections/blocker.go:69 | distinct addresses render differently, so a pair key names one pair of addresses |
| Net.IPTextInjective | connections/blocker.go:113-115 | distinct possibly-nil addresses render differently; nil renders as "<nil>", which is no dotted quad |
| Parse.HexDecode | connections/parse.go:41-44 | `hex.DecodeString` succeeds exactly on even-length strings of hex digits (either case), giving half as many bytes |
| Parse.HexRoundTrip | connections/parse.go:41 | decoding an upper-case encoding gives back the bytes |
| Parse.HexDecodeCanonical | connections/parse.go:41 | a string that decodes is the encoding of its bytes, up to letter case |
| Parse.ParseEndpoint | connections/parse.go:14-24 | a token that is not 13 characters long is a length error carrying its length; a 13-character token without exactly one ':' is a split error carrying the number of pieces |
| Parse.ParseIPv4 | connections/parse.go:40-52 | a string that does not hex-decode is an error; one that decodes to fewer than four bytes panics; an eight-digit string is the little-endian hex of the address it yields |
| Parse.ParsePort | connections/parse.go:55-61 | a string that does not hex-decode is an error; one that decodes to fewer than two bytes panics; a four-digit string is the big-endian hex of the port it yields |
| Parse.ParseEncodeRoundTrip | connections/parse.go:14-61 | parsing the kernel's rendering of any endpoint gives back that endpoint: address bytes reversed, port big-endian |
| Parse.ParseOkIff | connections/parse.go:14-61 | a token parses exactly when it is eight hex digits, ':', then four hex digits |
| Parse.ParseEndpointCanonical | connections/parse.go:14-61 | a token that parses is the rendering of its result, up to the case of its hex letters |
| Parse.MisplacedColon | connections/parse.go:46 | a 13-character hex token whose one colon is at an even position other than 8 panics on the unchecked byte index; at an odd position it is a hex error |
| Parse.NonHexAddressRejected | connections/parse.go:26-29 | a non-hex character before the colon is a hex error |
| Parse.NonHexPortRejected | connections/parse.go:31-34 | a non-hex character after a well-formed address part is an error |
| Parse.TestVector1 | connections/parse_test.go:20-28 | "1201C00A:192B" parses to 10.192.1.18, port 6443 |
| Parse.TestVector2 | connections/parse_test.go:29-37 | "1801C00A:EA78" parses to 10.192.1.24, port 60024 |
| Parse.TestVector3 | connections/parse_test.go:38-46 | "1501C00A:D8AC" parses to 10.192.1.21, port 55468 |
| Parse.RejectedVectors | connections/parse_test.go:47-73 | "x12:D8AC", "" and "AAAA:AAAA:AAAA" are rejected, each by the length check |
| Connections.ConnKeyFields | connections/connection.go:113 | a connection key splits at ':' into its four fields |
| Connections.ConnKey | connections/connection.go:113 | the `%s:%d:%s:%d` key; `Connections.ConnKeyFields` and `Connections.ConnKeyInjective` prove it splits back into its fields and names one connection |
| Connections.ConnKeyInjective | connections/connection.go:113-119 | distinct connections have distinct keys |
| Connections.ScanLine | connections/connection.go:97-111 | a line yields a connection exactly when fields 1 and 2 both parse, and the connection is what they parse to; it panics exactly when it has fewer than two fields, when field 1 panics the parser, or when field 1 parses and field 2 is missing or panics the parser; every other line is skipped |
| Connections.KeptIffWellFormed | connections/connection.go:97-111 | a line yields a connection exactly when it has at least three fields and fields 1 and 2 are well-formed tokens |
| Connections.Collect | connections/connection.go:94-120 | the scan loop panics exactly when some line panics; otherwise the map holds every kept connection under its own key and nothing else |
| Connections.GetConnections | connections/connection.go:88-133 | a panic wins; otherwise the result is the scanner error exactly when the scanner failed; otherwise it is the empty-table error exactly when there is no data line, and a snapshot holding exactly the kept connections under their keys in every other case |
| Connections.SafeLine | connections/connection.go:97-111 | a line with at least three fields never panics when each of fields 1 and 2 is a well-formed token or not 13 characters long |
| Connections.NoCrashedLine | connections/connection.go:95-120 | a table none of whose data lines panics does not make getConnections panic, so `Watcher.Observe` and `Watcher.Tick` do not report a panic for it |
| Connections.SnapshotSize | connections/connection.go:113-114 | duplicate lines collapse: the snapshot has one entry per distinct connection |
| Connections.AllMalformedIsEmpty | connections/connection.go:96-110 | a table whose data lines are all skipped gives an empty snapshot, not an error |
| PortTracker.AddPort | connections/blocker.go:68-75 | the pair gains the port with time t and is created if absent; every other pair and port keeps its time and nothing else appears |
| PortTracker.Evict | connections/blocker.go:54-62 | exactly the entries with now - ts >= ttl go; the others keep their times, and emptied pairs stay |
| PortTracker.RemoveOldConnections | connections/blocker.go:51-65 | the tracker afterwards is the eviction; the removed ports correspond one to one with the expired (pair, port) entries |
| PortTracker.RemovedOfOnePair | connections/blocker.go:51-65 | with a single pair, the removed ports are exactly its expired ports, each once |
| PortTracker.RemoveAllScenario | connections/blocker_test.go:74-84 | at 90 with ttl 30, ports 80, 81 and 82 are all removed |
| PortTracker.RemoveOneScenario | connections/blocker_test.go:85-95 | at 70 with ttl 30, only port 80 is removed |
| PortTracker.RemoveNoneScenario | connections/blocker_test.go:96-106 | at 60 with ttl 30, nothing is removed |
| PortTracker.EvictionExample | connections/blocker_test.go:85-95 | after "remove 80" the pair stays, holding ports 81 and 82 with their times |
| PortTracker.Drain | connections/blocker.go:83-92 | every pair with three or more ports is emptied but kept, every other pair is untouched, and nothing offends any more |
| PortTracker.ListPorts | connections/blocker.go:86-91 | the ports of a pair are listed once each |
| PortTracker.HostsToBlock | connections/blocker.go:79-103 | one record per offending pair, holding all its ports once each and the addresses parsed from the key; the tracker is drained |
| PortTracker.DrainIdempotent | connections/blocker.go:79-103 | draining the tracker a second time right after the first changes nothing, so a second `HostsToBlock` finds no offender |
| PortTracker.PairKeyRoundTrip | connections/blocker.go:69 | a key built from two rendered addresses splits and parses back into them, remote and local in the right fields |
| PortTracker.PairKey | connections/blocker.go:69 | the `%s:%s` pair key; `PortTracker.PairKeyRoundTrip` proves that splitting it recovers both addresses |
| PortTracker.HostFor | connections/blocker.go:93-98 | the host record of a pair key: remote address from the part after ':', local from the part before; `PortTracker.PairKeyRoundTrip` proves it inverts `PairKey` |
| PortTracker.SortPorts | connections/blocker.go:183 | the sorted ports are ascending and a permutation of the input |
| PortTracker.SprintFields | connections/blocker.go:188 | `Fields` of `fmt.Sprint`, joined with ",", is the comma list of decimals in brackets; `PortTracker.SprintPorts` models `fmt.Sprint` of a port slice and `GoStrings.Fields` models `strings.Fields` |
| PortTracker.PortsToStringIsCommaList | connections/blocker.go:187-189 | `portsToString` is the decimals joined by commas, with no brackets and no spaces |
| PortTracker.PortsToString | connections/blocker.go:187-189 | `portsToString` as written (Sprint, Fields, Join, Trim); `PortTracker.PortsToStringIsCommaList` proves it is the plain comma list |
| PortTracker.Describe | connections/blocker.go:182-185 | `RemoteHost.String` over the sorted ports; `PortTracker.DescribeCommaList` gives its exact text |
| PortTracker.DescribeCommaList | connections/blocker.go:182-185 | `RemoteHost.String` gives the remote and local address, then the sorted ports as a comma list |
| PortTracker.PortsToStringExample | connections/blocker.go:187-189 | ports 80, 81 and 82 render as "80,81,82" |
| PortTracker.PortsToStringEmpty | connections/blocker.go:187-189 | no ports render as "" |
| PortTracker.ScanDetected | connections/blocker.go:51-98 | three distinct ports reached from one host 0, 10 and 20 seconds into a 60-second window survive eviction, so the pair is reported |
| HostBlocker.NewBlocker | connections/blocker.go:30-47 | the new blocker is valid and empty, and has a handle exactly when the firewall could be opened |
| HostBlocker.FilteredExactly | connections/blocker.go:115 | the filter spares exactly the addresses 0.0.0.0 and 127.0.0.1 |
| HostBlocker.OtherLoopbackBlockable | connections/blocker.go:106 | 127.0.0.2 and a nil address are not spared |
| HostBlocker.InsertRule | connections/blocker.go:139-157 | `Exists` comes first; `Insert` follows exactly when `Exists` answered "no error, absent"; the address is recorded exactly when that `Insert` succeeded |
| HostBlocker.IsBlocked | connections/blocker.go:130-137 | membership in `BlockedHosts`; `HostBlocker.LookUpBlocked` proves isBlocked's loop computes it |
| HostBlocker.LookUpBlocked | connections/blocker.go:130-137 | the loop over `BlockedHosts` finds the address exactly when it is in the list |
| HostBlocker.Consider | connections/blocker.go:112-124 | a filtered or already blocked host, or a nil handle, changes nothing; otherwise the log grows by an `Exists` on the host's address, and `BlockedHosts` either stays or gains exactly that host |
| HostBlocker.ConsiderValid | connections/blocker.go:112-124 | one iteration of `BlockHosts` keeps the blocker invariant |
| HostBlocker.ConsiderAllProgress | connections/blocker.go:112-125 | after any number of iterations, the calls and recorded addresses come only from the hosts seen, and each host is spared, recorded or asked about |
| HostBlocker.BlockHosts | connections/blocker.go:109-128 | the result is `ConsiderAll`, every host considered in order (each an Exists, then an Insert exactly on a clean "absent"); the error list is empty; without a handle nothing changes; the tracker is unchanged and the log and `BlockedHosts` only grow, keeping the blocker invariant (so no duplicates); new calls and records name only the given hosts; with a handle each host is spared, recorded or asked about, and with a cooperative firewall spared or recorded |
| HostBlocker.RecordedAfterCheck | connections/blocker.go:139-157 | every recorded address has a successful `Insert` in the log, directly after an `Exists` that reported no error and no rule |
| HostBlocker.BlockedNeverAsked | connections/blocker.go:115 | new `Exists` and `Insert` calls never name 0.0.0.0, 127.0.0.1 or an address already recorded |
| HostBlocker.InsertedFrom | connections/blocker.go:154 | each inserted address comes from a successful `Insert` in the log |
| HostBlocker.CleanUp | connections/blocker.go:160-168 | one `Delete` per `BlockedHosts` entry, in order, whatever each reply; nothing else changes, and the invariant is kept |
| HostBlocker.ValidAfterDeletes | connections/blocker.go:163 | `Delete` calls never break the blocker invariant |
| Util.EphemeralExamples | connections/util.go:3-5 | 60000 is ephemeral and 80 is not, and the bounds 32768 and 60999 are inclusive |
| Util.IsEphemeralPort | connections/util.go:3-5 | the inclusive range from `MinEphemeralPort` to `MaxEphemeralPort`; `Util.EphemeralExamples` pins the bounds and the test cases, and `Watcher.Framing` uses the same test |
| Watcher.UpdateIPBlocker | connections/connection.go:65-69 | each snapshot connection's (pair, local port) gets time t; every other entry keeps its time; no other entry appears; every key stays splittable |
| Watcher.Framing | connections/connection.go:76-80 | a new connection is logged local to remote when its local port is ephemeral, and remote to local otherwise |
| Watcher.PrintNewConnections | connections/connection.go:73-84 | exactly the keys absent from the previous snapshot are reported, once each, with their framing; the counter grows by their number |
| Watcher.NewWatcher | connections/connection.go:37-42 | the new watcher holds the given blocker, knows no connection and has a zero counter |
| Watcher.Start | main.go:30-34 | after `NewIPBlocker`, `NewConnectionWatcher` and the seeding `Observe`: the blocker is valid, has a handle exactly when the firewall opened, has made no call and blocked nothing; a panic is reported exactly when the table panics; on a built snapshot every one of its connections counts as new and the tracker is the update of the empty one; otherwise the watcher is still empty |
| Watcher.AllKeysNew | connections/connection.go:73-84 | against an empty previous snapshot, the number of new keys is the size of the snapshot |
| Watcher.Observe | connections/connection.go:45-63 | it reports a panic exactly when getConnections panics; when it panics, the file cannot be opened or the scan fails, nothing changes; otherwise the snapshot replaces the connections and the tracker is updated; in every case the counter grows by the number of keys new against the previous snapshot, and `BlockedHosts` and the log are untouched |
| Watcher.Extract | main.go:48-49 | the tracker becomes the 60-second eviction with every offending pair emptied; the hosts are exactly the pairs with three or more young ports, once each, with the addresses parsed from the key and all the pair's young ports; what remains is young with its old time, and no pair offends |
| Watcher.Sweep | main.go:48-55 | the snapshot and counter are untouched; the tracker becomes the evicted tracker with every offending pair emptied, young and without offenders; the hosts are exactly the offenders of the eviction, each with all its young ports; the handle is kept; the log and `BlockedHosts` only grow, every new call and record naming an extracted host; the final blocker is `ConsiderAll` of the hosts; with a cooperative firewall each host ends up spared or blocked |
| Watcher.Tick | main.go:45-55 | a panic in Observe stops the tick with nothing changed and no host; otherwise the tracker after Observe is the update of the old one by the snapshot (or the old one when nothing was read); the snapshot and counter are Observe's; the tracker ends evicted and drained; the hosts are exactly the pairs of the observed tracker with three or more young ports, each with all of them; the blocker invariant is kept; the firewall handle is kept (or stays absent); the call log and `BlockedHosts` only grow; every new call and every new record names an extracted host; the final blocker is `ConsiderAll` of the extracted hosts over the drained blocker; with a handle each host is spared, recorded or asked about, and with a cooperative firewall spared or blocked |
| Watcher.SnapshotScanDetected | main.go:47-49 | three connections of one snapshot from one remote address to three distinct local ports of one local address make that pair an offender of the same tick's eviction, so the tick extracts it |
| Watcher.TouchedAt | connections/connection.go:65-69 | every connection of the snapshot is tracked after the update under its pair and local port, stamped with the tick's time |

## Left out

- Opening `/proc/net/tcp` is not modelled. Observe reads a `Source`: either the file could not be opened, or the scanner's lines plus a flag saying whether the scanner reported an error.
- `bufio.Scanner` internals (line length limits, the errors it reports) are not modelled; only their outcome, the scanner-error flag, is.
- The iptables library is replaced by the call log and the oracle. `NewIPv4Table` becomes the `available` flag of `NewBlocker`. The table, chain and rule arguments (`filter`, `INPUT`, position 1, `-s addr -j DROP`) are the same for every call and are not recorded.
- Log output is left out. The one exception is the direction in which `printNewConnections` frames a new connection (`Watcher.Framing`).
- The Prometheus counter `NewConnections` is a plain number in the watcher. The metrics HTTP server is not modelled.
- `IgnoredIPs` is declared but never read by the code, so it is not modelled.
- `main`'s ticker, signal handling and goroutines are not modelled. One tick is `Watcher.Tick`; `CleanUp` is modelled on its own.
- PortTracker.RemoveOldConnections: does not model int64 overflow of `now - ts`; times are unbounded integers.
- Net.ParseIP: only the IPv4 branch of `net.ParseIP` is modelled. It is called only on the parts of a pair key split at ':', which contain no ':'.
- Strings are sequences of characters, not UTF-8 bytes. `/proc/net/tcp` is ASCII.
- `RemoteHost.String` sorts the host's port slice in place, which is visible to later readers of the slice. The model renders a sorted copy (`PortTracker.Describe`).
- PortTracker.HostsToBlock: requires every key to contain ':'. A key without one would make Go panic on `ips[1]`. Every key `AddPort` builds contains ':', and `Watcher.Tick` carries that fact.
- Watcher.Observe and Watcher.Tick: a panic ends the Go process, with no state after it. The model reports it as `panicked` and returns the watcher unchanged; no later tick is modelled. `Connections.SafeLine` and `Connections.NoCrashedLine` state when a table cannot panic.
- HostBlocker.CleanUp: requires that a blocker without an iptables handle has recorded no host; Go would dereference the nil handle otherwise. `HostBlocker.Valid` guarantees it.
- Parse.ParseEndpoint: the error values carry the kind of error only, not Go's message text.
- `net.IP.Equal` treats 4-byte and 16-byte forms of an address as equal; IPv4 values here have a single form.

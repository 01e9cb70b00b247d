/**
 * The connection registry of the chat process: the list of live
 * connections, each with its id and remote endpoint, and the counter that
 * hands out connection ids. Sockets are not modelled; whether a socket call
 * succeeds is an input, and closing a socket is recorded in a ghost set.
 */
module Registry {
  import opened Text
  import opened Wire

  /** One live connection as the registry sees it. */
  datatype Entry = Entry(id: int, remoteIp: string, remotePort: int)

  predicate SameEndpoint(e: Entry, ip: string, port: int) {
    e.remoteIp == ip && e.remotePort == port
  }

  predicate HasEndpoint(s: seq<Entry>, ip: string, port: int) {
    exists k :: 0 <= k < |s| && SameEndpoint(s[k], ip, port)
  }

  predicate HasId(s: seq<Entry>, id: int) {
    exists k :: 0 <= k < |s| && s[k].id == id
  }

  /** Ids grow strictly along the list; in particular no id occurs twice. */
  predicate IdsIncreasing(s: seq<Entry>) {
    forall i, j :: 0 <= i < j < |s| ==> s[i].id < s[j].id
  }

  /** No two entries share a remote `(ip, port)` pair. */
  predicate EndpointsUnique(s: seq<Entry>) {
    forall i, j :: 0 <= i < j < |s| ==> !SameEndpoint(s[j], s[i].remoteIp, s[i].remotePort)
  }

  function IdSet(s: seq<Entry>): set<int> {
    set k | 0 <= k < |s| :: s[k].id
  }

  /** Position of the first entry with the given id, if any. */
  function FirstIndexOf(s: seq<Entry>, id: int): (r: Option<nat>)
    ensures r.None? <==> !HasId(s, id)
    ensures r.Some? ==> r.value < |s| && s[r.value].id == id
    ensures r.Some? ==> forall k :: 0 <= k < r.value ==> s[k].id != id
  {
    if s == [] then None
    else if s[0].id == id then Some(0)
    else match FirstIndexOf(s[1..], id)
      case None => None
      case Some(k) => Some(k + 1)
  }

  /** The list with position `i` taken out. */
  function Without(s: seq<Entry>, i: nat): (r: seq<Entry>)
    requires i < |s|
    ensures |r| == |s| - 1
    ensures forall k :: 0 <= k < i ==> r[k] == s[k]
    ensures forall k :: i <= k < |r| ==> r[k] == s[k + 1]
  {
    s[..i] + s[i + 1..]
  }

  /** `removeIf(c -> c.id == id)`: keep, in order, the entries with another id. */
  function RemoveWhere(s: seq<Entry>, id: int): (r: seq<Entry>)
    ensures |r| <= |s|
    ensures forall k :: 0 <= k < |r| ==> r[k].id != id
    decreases |s|
  {
    if s == [] then []
    else
      var last := s[|s| - 1];
      RemoveWhere(s[..|s| - 1], id) + (if last.id == id then [] else [last])
  }

  /** `RemoveWhere` keeps exactly the entries whose id differs. */
  lemma {:induction false} RemoveWhereMembers(s: seq<Entry>, id: int, e: Entry)
    ensures e in RemoveWhere(s, id) <==> e in s && e.id != id
    decreases |s|
  {
    if s != [] {
      var init := s[..|s| - 1];
      assert s == init + [s[|s| - 1]];
      RemoveWhereMembers(init, id, e);
    }
  }

  /** Removal keeps the ordering of ids, hence also the relative order of the entries. */
  lemma {:induction false} RemoveWhereKeepsOrder(s: seq<Entry>, id: int)
    requires IdsIncreasing(s) && EndpointsUnique(s)
    ensures IdsIncreasing(RemoveWhere(s, id)) && EndpointsUnique(RemoveWhere(s, id))
    decreases |s|
  {
    if s != [] {
      var init := s[..|s| - 1];
      var last := s[|s| - 1];
      var r := RemoveWhere(init, id);
      RemoveWhereKeepsOrder(init, id);
      forall k | 0 <= k < |r|
        ensures r[k].id < last.id && !SameEndpoint(last, r[k].remoteIp, r[k].remotePort)
      {
        RemoveWhereMembers(init, id, r[k]);
        var m :| 0 <= m < |init| && init[m] == r[k];
        assert s[m] == init[m];
      }
    }
  }

  /** With no entry carrying the id, `removeIf` changes nothing. */
  lemma {:induction false} RemoveWhereAbsent(s: seq<Entry>, id: int)
    requires !HasId(s, id)
    ensures RemoveWhere(s, id) == s
    decreases |s|
  {
    if s != [] {
      var init := s[..|s| - 1];
      assert !HasId(init, id) by {
        forall k | 0 <= k < |init| ensures init[k].id != id { assert init[k] == s[k]; }
      }
      RemoveWhereAbsent(init, id);
      assert s == init + [s[|s| - 1]];
    }
  }

  /** Entries that `removeIf` keeps carry the labels they carried before. */
  lemma RemoveWhereKeepsLabels(s: seq<Entry>, id: int, issued: set<int>, closed: set<int>)
    requires forall k :: 0 <= k < |s| ==> s[k].id in issued && s[k].id !in closed
    ensures forall k :: 0 <= k < |RemoveWhere(s, id)| ==>
      RemoveWhere(s, id)[k].id in issued && RemoveWhere(s, id)[k].id !in closed
  {
    var r := RemoveWhere(s, id);
    forall k | 0 <= k < |r| ensures r[k].id in issued && r[k].id !in closed {
      RemoveWhereMembers(s, id, r[k]);
    }
  }

  /** `removeIf` is idempotent. */
  lemma RemoveWhereIdempotent(s: seq<Entry>, id: int)
    ensures RemoveWhere(RemoveWhere(s, id), id) == RemoveWhere(s, id)
  {
    var r := RemoveWhere(s, id);
    forall k | 0 <= k < |r| ensures r[k].id != id {
      RemoveWhereMembers(s, id, r[k]);
    }
    RemoveWhereAbsent(r, id);
  }

  /** With increasing ids, taking out the one entry with an id is `removeIf` on that id. */
  lemma {:induction false} WithoutIsRemoveWhere(s: seq<Entry>, id: int, i: nat)
    requires IdsIncreasing(s) && i < |s| && s[i].id == id
    ensures Without(s, i) == RemoveWhere(s, id)
    decreases |s|
  {
    var init := s[..|s| - 1];
    var last := s[|s| - 1];
    if i == |s| - 1 {
      RemoveWhereOfLast(s, id);
      assert Without(s, i) == init;
    } else {
      assert last.id > id by { assert s[i].id < s[|s| - 1].id; }
      assert RemoveWhere(s, id) == RemoveWhere(init, id) + [last];
      assert IdsIncreasing(init) && init[i] == s[i] by {
        assert forall k | 0 <= k < |init| :: init[k] == s[k];
      }
      WithoutIsRemoveWhere(init, id, i);
      assert s == init + [last];
      WithoutThenAppend(init, i, last);
    }
  }

  lemma RemoveWhereOfLast(s: seq<Entry>, id: int)
    requires IdsIncreasing(s) && |s| > 0 && s[|s| - 1].id == id
    ensures RemoveWhere(s, id) == s[..|s| - 1]
  {
    var init := s[..|s| - 1];
    assert RemoveWhere(s, id) == RemoveWhere(init, id);
    assert !HasId(init, id) by {
      forall k | 0 <= k < |init| ensures init[k].id != id { assert init[k] == s[k] && s[k].id < s[|s| - 1].id; }
    }
    RemoveWhereAbsent(init, id);
  }

  lemma WithoutThenAppend(s: seq<Entry>, i: nat, e: Entry)
    requires i < |s|
    ensures Without(s + [e], i) == Without(s, i) + [e]
  {
    var a := Without(s + [e], i);
    var b := Without(s, i) + [e];
    forall k | 0 <= k < |a| ensures a[k] == b[k] {
      if k < |a| - 1 {
        if k < i { assert a[k] == s[k] && b[k] == s[k]; }
        else { assert a[k] == s[k + 1] && b[k] == s[k + 1]; }
      }
    }
  }

  /**
   * On a list with increasing ids, removing the first entry with an id is
   * `removeIf` on that id, so the receiver's later `removeIf` finds nothing.
   */
  lemma RemoveFirstIsRemoveAll(s: seq<Entry>, id: int, i: nat)
    requires IdsIncreasing(s) && i < |s| && s[i].id == id
    ensures Without(s, i) == RemoveWhere(s, id)
    ensures !HasId(Without(s, i), id)
    ensures RemoveWhere(Without(s, i), id) == Without(s, i)
  {
    WithoutIsRemoveWhere(s, id, i);
    var r := Without(s, i);
    forall k | 0 <= k < |r| ensures r[k].id != id {
      if k >= i { assert r[k] == s[k + 1]; }
    }
    RemoveWhereAbsent(r, id);
  }

  lemma WithoutKeepsOrder(s: seq<Entry>, i: nat)
    requires i < |s| && IdsIncreasing(s) && EndpointsUnique(s)
    ensures IdsIncreasing(Without(s, i)) && EndpointsUnique(Without(s, i))
  {
    var r := Without(s, i);
    forall a, b | 0 <= a < b < |r|
      ensures r[a].id < r[b].id && !SameEndpoint(r[b], r[a].remoteIp, r[a].remotePort)
    {
      var a' := if a < i then a else a + 1;
      var b' := if b < i then b else b + 1;
      assert r[a] == s[a'] && r[b] == s[b'];
    }
  }

  /** Removing an entry leaves every other entry, and nothing else. */
  lemma WithoutMembers(s: seq<Entry>, i: nat, e: Entry)
    requires i < |s| && IdsIncreasing(s)
    ensures e in Without(s, i) <==> e in s && e.id != s[i].id
  {
    var r := Without(s, i);
    if e in r {
      var k :| 0 <= k < |r| && r[k] == e;
      if k >= i { assert r[k] == s[k + 1]; }
    }
    if e in s && e.id != s[i].id {
      var k :| 0 <= k < |s| && s[k] == e;
      if k < i { assert r[k] == e; } else { assert k > i && r[k - 1] == e; }
    }
  }

  /**
   * Taking out position `i` keeps every remaining id within a set of ids, and
   * keeps each of them apart from a set the removed id may then join.
   */
  lemma WithoutKeepsLabels(s: seq<Entry>, i: nat, issued: set<int>, closed: set<int>)
    requires i < |s| && IdsIncreasing(s)
    requires forall k :: 0 <= k < |s| ==> s[k].id in issued && s[k].id !in closed
    ensures forall k :: 0 <= k < |Without(s, i)| ==>
      Without(s, i)[k].id in issued && Without(s, i)[k].id !in closed + {s[i].id}
  {
    var r := Without(s, i);
    forall k | 0 <= k < |r| ensures r[k].id in issued && r[k].id !in closed + {s[i].id} {
      if k < i {
        assert r[k] == s[k] && s[k].id < s[i].id;
      } else {
        assert r[k] == s[k + 1] && s[i].id < s[k + 1].id;
      }
    }
  }

  /** A new entry with an id above all others and a fresh endpoint keeps both invariants. */
  lemma AppendKeepsOrder(s: seq<Entry>, e: Entry)
    requires IdsIncreasing(s) && EndpointsUnique(s)
    requires forall k :: 0 <= k < |s| ==> s[k].id < e.id
    requires !HasEndpoint(s, e.remoteIp, e.remotePort)
    ensures IdsIncreasing(s + [e]) && EndpointsUnique(s + [e])
  {
    var r := s + [e];
    forall a, b | 0 <= a < b < |r|
      ensures r[a].id < r[b].id && !SameEndpoint(r[b], r[a].remoteIp, r[a].remotePort)
    {
      assert r[a] == s[a];
      if b == |s| {
        assert !SameEndpoint(s[a], e.remoteIp, e.remotePort);
      } else {
        assert r[b] == s[b];
      }
    }
  }

  const NoConnections: string := "No active connections."
  const ListHeader: string := "ID\tIP Address\tPort"

  /** One row of `list`: id, address and port separated by tabs. */
  function Row(e: Entry): string {
    IntToString(e.id) + "\t" + e.remoteIp + "\t" + IntToString(e.remotePort)
  }

  /** The rows of `list`, one per entry, in list order. */
  function Rows(s: seq<Entry>): seq<string> {
    seq(|s|, k requires 0 <= k < |s| => Row(s[k]))
  }

  /** Everything `list` prints for a registry holding `s`. */
  function Listing(s: seq<Entry>): (r: seq<string>)
    ensures |r| == (if s == [] then 1 else |s| + 1)
  {
    if s == [] then [NoConnections] else [ListHeader] + Rows(s)
  }

  /**
   * `list` prints "No active connections." exactly when the registry is
   * empty; otherwise a header and one row per entry, in list order.
   */
  lemma ListingShape(s: seq<Entry>)
    ensures Listing(s) == [NoConnections] <==> s == []
    ensures s != [] ==> |Listing(s)| == |s| + 1 && Listing(s)[0] == ListHeader
    ensures forall k :: 0 <= k < |s| ==> Listing(s)[k + 1] == Row(s[k])
  {
    if s != [] {
      var l := [ListHeader] + Rows(s);
      assert Listing(s) == l;
      assert |l| == |s| + 1 >= 2;
      forall k | 0 <= k < |s| ensures l[k + 1] == Row(s[k]) {
        assert l[k + 1] == Rows(s)[k];
      }
    }
  }

  predicate StartsWith(line: string, prefix: string) {
    |prefix| <= |line| && line[..|prefix|] == prefix
  }

  /** A row begins with the text of an id followed by a tab exactly when it is that entry's row. */
  lemma RowShowsId(e: Entry, id: int)
    ensures StartsWith(Row(e), IntToString(id) + "\t") <==> e.id == id
  {
    var a := IntToString(id);
    var b := IntToString(e.id);
    var row := Row(e);
    assert row == b + ("\t" + e.remoteIp + "\t" + IntToString(e.remotePort));
    if StartsWith(row, a + "\t") {
      var p := a + "\t";
      assert row[..|p|] == p;
      assert row[|a|] == p[|a|] == '\t';
      assert row[|b|] == '\t';
      assert forall k | 0 <= k < |b| :: row[k] == b[k] && IsNumeralChar(b[k]);
      assert forall k | 0 <= k < |a| :: row[k] == row[..|p|][k] == a[k] && IsNumeralChar(a[k]);
      assert |a| == |b|;
      assert a == row[..|a|] == b;
      IntToStringInjective(id, e.id);
    }
  }

  /**
   * After `terminate id` removed an entry, `list` shows no row for that id
   * (ids being unique, no other entry carries it).
   */
  lemma TerminatedIdNotListed(s: seq<Entry>, i: nat)
    requires IdsIncreasing(s) && i < |s|
    ensures forall k :: 1 <= k < |Listing(Without(s, i))| ==>
      !StartsWith(Listing(Without(s, i))[k], IntToString(s[i].id) + "\t")
  {
    var r := Without(s, i);
    forall k | 1 <= k < |Listing(r)|
      ensures !StartsWith(Listing(r)[k], IntToString(s[i].id) + "\t")
    {
      var e := r[k - 1];
      assert Listing(r)[k] == Row(e);
      if k - 1 < i {
        assert e == s[k - 1] && s[k - 1].id < s[i].id;
      } else {
        assert e == s[k] && s[i].id < s[k].id;
      }
      RowShowsId(e, s[i].id);
    }
  }

  /** The ports a socket address may carry. */
  predicate IsPortNumber(p: int) {
    0 <= p <= 0xFFFF
  }

  /** The port of an accepted socket, which `Socket.getPort` gives in 0-65535. */
  type Port = p: int | 0 <= p <= 0xFFFF

  /** How an outbound connect attempt ends once the duplicate and port checks have passed. */
  datatype ConnectAttempt =
    | Refused(reason: string)       // the socket constructor throws; no id is taken
    | StreamFailed(reason: string)  // the socket opens, its output stream fails after the id is taken
    | Established

  /**
   * `PortOutOfRange`: the socket constructor rejects the port with an
   * unchecked exception that `connectToPeer` does not catch.
   */
  datatype ConnectResult = AlreadyConnected | PortOutOfRange | ConnectFailed(reason: string) | Connected(id: int)

  /**
   * Whether the one socket call of a listener round returns normally:
   * `close()` on a socket from a known endpoint, `getOutputStream()` on a
   * socket from a new one.
   */
  datatype SocketCall = Returns | Throws(reason: string)

  datatype AcceptResult = Discarded | Accepted(id: int) | ServerError(reason: string)

  /** The registry's state: the connection list and the next id. */
  datatype Snapshot = Snapshot(entries: seq<Entry>, counter: nat)

  /**
   * What the registry keeps true between operations: ids are positive,
   * below the counter and strictly increasing, every port is a port number,
   * and endpoints are unique.
   */
  predicate Inv(st: Snapshot) {
    && st.counter >= 1
    && (forall k :: 0 <= k < |st.entries| ==> 1 <= st.entries[k].id < st.counter && IsPortNumber(st.entries[k].remotePort))
    && IdsIncreasing(st.entries)
    && EndpointsUnique(st.entries)
  }

  /** `connectToPeer` on the registry: duplicate check, id, append. */
  function ConnectStep(st: Snapshot, destination: string, port: int, attempt: ConnectAttempt): (r: (ConnectResult, Snapshot))
    ensures st.counter <= r.1.counter <= st.counter + 1
    ensures !r.0.Connected? ==> r.1.entries == st.entries
    ensures r.0.Connected? ==> !HasEndpoint(st.entries, destination, port) && IsPortNumber(port)
  {
    if HasEndpoint(st.entries, destination, port) then (AlreadyConnected, st)
    else if !IsPortNumber(port) then (PortOutOfRange, st)
    else match attempt
      case Refused(reason) => (ConnectFailed(reason), st)
      case StreamFailed(reason) => (ConnectFailed(reason), Snapshot(st.entries, st.counter + 1))
      case Established =>
        (Connected(st.counter), Snapshot(st.entries + [Entry(st.counter, destination, port)], st.counter + 1))
  }

  /** One round of the listener's accept loop on the registry. */
  function AcceptStep(st: Snapshot, clientIp: string, clientPort: Port, call: SocketCall): (r: (AcceptResult, Snapshot))
    ensures st.counter <= r.1.counter <= st.counter + 1
    ensures !r.0.Accepted? ==> r.1.entries == st.entries
    ensures r.0.Accepted? ==> !HasEndpoint(st.entries, clientIp, clientPort)
    ensures r.0.ServerError? <==> call.Throws?
  {
    if HasEndpoint(st.entries, clientIp, clientPort) then
      match call
      case Returns => (Discarded, st)
      case Throws(reason) => (ServerError(reason), st)
    else match call
      case Throws(reason) => (ServerError(reason), Snapshot(st.entries, st.counter + 1))
      case Returns =>
        (Accepted(st.counter), Snapshot(st.entries + [Entry(st.counter, clientIp, clientPort)], st.counter + 1))
  }

  /** `terminateConnection` on the registry: drop the first entry with the id, if any. */
  function TerminateStep(st: Snapshot, id: int): (r: (bool, Snapshot))
    ensures r.0 == HasId(st.entries, id) && r.1.counter == st.counter
    ensures !r.0 ==> r.1 == st
    ensures r.0 ==> |r.1.entries| == |st.entries| - 1
  {
    match FirstIndexOf(st.entries, id)
    case None => (false, st)
    case Some(i) => (true, Snapshot(Without(st.entries, i), st.counter))
  }

  /** The receiver's cleanup on the registry. */
  function CleanupStep(st: Snapshot, id: int): (r: Snapshot)
    ensures !HasId(r.entries, id) && r.counter == st.counter
  {
    Snapshot(RemoveWhere(st.entries, id), st.counter)
  }

  /** `exitChat` on the registry. */
  function ExitStep(st: Snapshot): (r: Snapshot)
    ensures r.entries == [] && r.counter == st.counter
    ensures Inv(st) ==> Inv(r)
  {
    Snapshot([], st.counter)
  }

  /** A connect to an endpoint already in the list is refused and changes nothing. */
  lemma ConnectRejectsDuplicate(st: Snapshot, destination: string, port: int, attempt: ConnectAttempt)
    requires HasEndpoint(st.entries, destination, port)
    ensures ConnectStep(st, destination, port, attempt) == (AlreadyConnected, st)
  {
  }

  /**
   * An inbound socket from an endpoint already in the list changes nothing:
   * it is dropped, or, when closing it throws, the listener reports the error.
   */
  lemma AcceptDiscardsDuplicate(st: Snapshot, clientIp: string, clientPort: Port, call: SocketCall)
    requires HasEndpoint(st.entries, clientIp, clientPort)
    ensures AcceptStep(st, clientIp, clientPort, call) ==
      (match call case Returns => Discarded case Throws(reason) => ServerError(reason), st)
  {
  }

  /**
   * A successful outbound registration appends exactly one entry, carrying
   * an id no live entry has, and moves the counter on by one.
   */
  lemma ConnectSuccess(st: Snapshot, destination: string, port: int, attempt: ConnectAttempt)
    requires Inv(st)
    requires ConnectStep(st, destination, port, attempt).0.Connected?
    ensures var (r, st') := ConnectStep(st, destination, port, attempt);
      && r.id == st.counter && !HasId(st.entries, r.id)
      && st'.entries == st.entries + [Entry(r.id, destination, port)]
      && st'.counter == st.counter + 1
  {
  }

  /**
   * A successful inbound registration appends exactly one entry for the
   * client's endpoint, with an id no live entry has, and moves the counter on.
   */
  lemma AcceptSuccess(st: Snapshot, clientIp: string, clientPort: Port, call: SocketCall)
    requires Inv(st)
    requires AcceptStep(st, clientIp, clientPort, call).0.Accepted?
    ensures var (r, st') := AcceptStep(st, clientIp, clientPort, call);
      && r.id == st.counter && !HasId(st.entries, r.id)
      && st'.entries == st.entries + [Entry(r.id, clientIp, clientPort)]
      && st'.counter == st.counter + 1
  {
  }

  lemma ConnectKeepsInv(st: Snapshot, destination: string, port: int, attempt: ConnectAttempt)
    requires Inv(st)
    ensures Inv(ConnectStep(st, destination, port, attempt).1)
  {
    if !HasEndpoint(st.entries, destination, port) && IsPortNumber(port) && attempt.Established? {
      AppendKeepsOrder(st.entries, Entry(st.counter, destination, port));
    }
  }

  lemma AcceptKeepsInv(st: Snapshot, clientIp: string, clientPort: Port, call: SocketCall)
    requires Inv(st)
    ensures Inv(AcceptStep(st, clientIp, clientPort, call).1)
  {
    if !HasEndpoint(st.entries, clientIp, clientPort) && call.Returns? {
      AppendKeepsOrder(st.entries, Entry(st.counter, clientIp, clientPort));
    }
  }

  /**
   * `terminate id` removes exactly the entry with that id and keeps the rest
   * in order; without such an entry it reports failure and changes nothing.
   */
  lemma TerminateRemovesExactly(st: Snapshot, id: int)
    requires Inv(st)
    ensures var (found, st') := TerminateStep(st, id);
      && found == HasId(st.entries, id)
      && st'.counter == st.counter
      && (!found ==> st' == st)
      && (found ==> |st'.entries| == |st.entries| - 1)
      && (forall e :: e in st'.entries <==> e in st.entries && e.id != id)
      && Inv(st')
  {
    match FirstIndexOf(st.entries, id)
    case None =>
      forall e | e in st.entries ensures e.id != id {
        var k :| 0 <= k < |st.entries| && st.entries[k] == e;
      }
    case Some(i) =>
      WithoutKeepsOrder(st.entries, i);
      forall e ensures e in Without(st.entries, i) <==> e in st.entries && e.id != id {
        WithoutMembers(st.entries, i, e);
      }
  }

  /**
   * The receiver's cleanup removes every entry with the id and nothing else,
   * keeps the invariant, and is a no-op once `terminate` has removed the id.
   */
  lemma CleanupRemovesExactly(st: Snapshot, id: int)
    requires Inv(st)
    ensures forall e :: e in CleanupStep(st, id).entries <==> e in st.entries && e.id != id
    ensures Inv(CleanupStep(st, id))
    ensures CleanupStep(CleanupStep(st, id), id) == CleanupStep(st, id)
    ensures CleanupStep(TerminateStep(st, id).1, id) == TerminateStep(st, id).1
  {
    forall e ensures e in CleanupStep(st, id).entries <==> e in st.entries && e.id != id {
      RemoveWhereMembers(st.entries, id, e);
    }
    CleanupKeepsInv(st, id);
    RemoveWhereIdempotent(st.entries, id);
    match FirstIndexOf(st.entries, id)
    case None =>
      RemoveWhereAbsent(st.entries, id);
    case Some(i) =>
      RemoveFirstIsRemoveAll(st.entries, id, i);
  }

  /** The receiver's cleanup keeps the invariant. */
  lemma CleanupKeepsInv(st: Snapshot, id: int)
    requires Inv(st)
    ensures Inv(CleanupStep(st, id))
  {
    RemoveWhereKeepsOrder(st.entries, id);
    var r := RemoveWhere(st.entries, id);
    forall k | 0 <= k < |r| ensures 1 <= r[k].id < st.counter && IsPortNumber(r[k].remotePort) {
      RemoveWhereMembers(st.entries, id, r[k]);
    }
  }

  /** Under the invariant, `terminate` leaves the list that the receiver's cleanup would. */
  lemma TerminateIsCleanup(st: Snapshot, id: int)
    requires Inv(st)
    ensures TerminateStep(st, id).1 == CleanupStep(st, id)
  {
    match FirstIndexOf(st.entries, id)
    case None =>
      RemoveWhereAbsent(st.entries, id);
    case Some(i) =>
      WithoutIsRemoveWhere(st.entries, id, i);
  }

  /** Everything that can happen to the registry, one step at a time. */
  datatype Event =
    | OutboundConnect(destination: string, port: int, attempt: ConnectAttempt)
    | InboundAccept(clientIp: string, clientPort: Port, call: SocketCall)
    | TerminateCommand(id: int)
    | ReceiverCleanup(id: int)
    | ExitCommand

  function Apply(st: Snapshot, ev: Event): Snapshot {
    match ev
    case OutboundConnect(d, p, a) => ConnectStep(st, d, p, a).1
    case InboundAccept(ip, p, o) => AcceptStep(st, ip, p, o).1
    case TerminateCommand(id) => TerminateStep(st, id).1
    case ReceiverCleanup(id) => CleanupStep(st, id)
    case ExitCommand => ExitStep(st)
  }

  /** The id a step registers, if it registers a connection. */
  function Granted(st: Snapshot, ev: Event): Option<int> {
    match ev
    case OutboundConnect(d, p, a) =>
      (match ConnectStep(st, d, p, a).0 case Connected(id) => Some(id) case _ => None)
    case InboundAccept(ip, p, o) =>
      (match AcceptStep(st, ip, p, o).0 case Accepted(id) => Some(id) case _ => None)
    case _ => None
  }

  /** The state after a sequence of steps, run one after another. */
  function Run(st: Snapshot, evs: seq<Event>): Snapshot
    decreases |evs|
  {
    if evs == [] then st else Run(Apply(st, evs[0]), evs[1..])
  }

  /** The ids registered along a run, in the order they were handed out. */
  function GrantedIds(st: Snapshot, evs: seq<Event>): seq<int>
    decreases |evs|
  {
    if evs == [] then []
    else
      var rest := GrantedIds(Apply(st, evs[0]), evs[1..]);
      match Granted(st, evs[0]) case Some(id) => [id] + rest case None => rest
  }

  lemma ApplyKeepsInv(st: Snapshot, ev: Event)
    requires Inv(st)
    ensures Inv(Apply(st, ev))
    ensures Apply(st, ev).counter >= st.counter
    ensures Granted(st, ev).Some? ==> Granted(st, ev).value == st.counter && Apply(st, ev).counter == st.counter + 1
  {
    match ev
    case OutboundConnect(d, p, a) => ConnectKeepsInv(st, d, p, a);
    case InboundAccept(ip, p, o) => AcceptKeepsInv(st, ip, p, o);
    case TerminateCommand(id) => TerminateRemovesExactly(st, id);
    case ReceiverCleanup(id) => CleanupRemovesExactly(st, id);
    case ExitCommand =>
  }

  /**
   * Under sequential execution every run keeps the invariant, and the ids
   * it registers strictly increase: an id is never handed out twice, even
   * after the connection that had it was removed.
   */
  lemma {:induction false} RunKeepsInvAndNeverReusesIds(st: Snapshot, evs: seq<Event>)
    requires Inv(st)
    ensures Inv(Run(st, evs))
    ensures Run(st, evs).counter >= st.counter
    ensures forall i, j :: 0 <= i < j < |GrantedIds(st, evs)| ==> GrantedIds(st, evs)[i] < GrantedIds(st, evs)[j]
    ensures forall i :: 0 <= i < |GrantedIds(st, evs)| ==> st.counter <= GrantedIds(st, evs)[i] < Run(st, evs).counter
    decreases |evs|
  {
    if evs != [] {
      var next := Apply(st, evs[0]);
      ApplyKeepsInv(st, evs[0]);
      RunKeepsInvAndNeverReusesIds(next, evs[1..]);
    }
  }

  class ConnectionRegistry {
    /** The live connections, in the order they were registered. */
    var entries: seq<Entry>
    /** The next id to hand out (`connectionCounter`). */
    var counter: nat
    /** Every id handed out so far, whether or not it reached the list. */
    ghost var issued: set<int>
    /** Ids whose socket the registry side has closed (`terminate`, `exit`). */
    ghost var closed: set<int>

    function Snap(): Snapshot
      reads this
    {
      Snapshot(entries, counter)
    }

    ghost predicate Valid()
      reads this
    {
      && Inv(Snap())
      && (forall x :: x in issued ==> 1 <= x < counter)
      && closed <= issued
      && (forall k :: 0 <= k < |entries| ==> entries[k].id in issued && entries[k].id !in closed)
    }

    constructor ()
      ensures Valid()
      ensures entries == [] && counter == 1 && issued == {} && closed == {}
    {
      entries := [];
      counter := 1;
      issued := {};
      closed := {};
    }

    /** The duplicate scan that precedes both outbound and inbound registration. */
    method HasPeer(ip: string, port: int) returns (dup: bool)
      ensures dup == HasEndpoint(entries, ip, port)
    {
      dup := false;
      var i := 0;
      while i < |entries|
        invariant 0 <= i <= |entries|
        invariant dup == HasEndpoint(entries[..i], ip, port)
      {
        assert entries[..i + 1] == entries[..i] + [entries[i]];
        if entries[i].remoteIp == ip && entries[i].remotePort == port {
          dup := true;
          return;
        }
        i := i + 1;
      }
      assert entries[..i] == entries;
    }

    /** The scan of `terminate` and `send` for the first entry with an id. */
    method IndexOfId(id: int) returns (r: Option<nat>)
      ensures r == FirstIndexOf(entries, id)
    {
      var i := 0;
      while i < |entries|
        invariant 0 <= i <= |entries|
        invariant forall k :: 0 <= k < i ==> entries[k].id != id
      {
        if entries[i].id == id {
          return Some(i);
        }
        i := i + 1;
      }
      return None;
    }

    /** `connectionCounter++`: hand out the next id. */
    method NextId() returns (id: int)
      requires Valid()
      modifies this
      ensures Valid()
      ensures id == old(counter) && id !in old(issued)
      ensures counter == old(counter) + 1 && issued == old(issued) + {id}
      ensures entries == old(entries) && closed == old(closed)
    {
      id := counter;
      counter := counter + 1;
      issued := issued + {id};
    }

    /**
     * `connectToPeer`: refuse a destination already in the list; otherwise
     * open the socket, which rejects a port outside 0-65535, and, when that
     * fully succeeds, register it.
     */
    method Connect(destination: string, port: int, attempt: ConnectAttempt) returns (r: ConnectResult)
      requires Valid()
      modifies this
      ensures Valid()
      ensures (r, Snap()) == ConnectStep(old(Snap()), destination, port, attempt)
      ensures issued == old(issued) + (if counter == old(counter) then {} else {old(counter)})
      ensures closed == old(closed)
    {
      var dup := HasPeer(destination, port);
      if dup {
        return AlreadyConnected;
      }
      if !IsPortNumber(port) {
        return PortOutOfRange;
      }
      match attempt
      case Refused(reason) =>
        r := ConnectFailed(reason);
      case StreamFailed(reason) =>
        var id := NextId();
        r := ConnectFailed(reason);
      case Established =>
        ConnectKeepsInv(Snap(), destination, port, attempt);
        var id := NextId();
        entries := entries + [Entry(id, destination, port)];
        r := Connected(id);
    }

    /**
     * One round of the listener: close an accepted socket whose endpoint is
     * already in the list; otherwise take an id and register it. When the
     * socket call throws, the exception leaves the accept loop and the
     * listener stops; for a new endpoint the id is spent.
     */
    method Accept(clientIp: string, clientPort: Port, call: SocketCall) returns (r: AcceptResult)
      requires Valid()
      modifies this
      ensures Valid()
      ensures (r, Snap()) == AcceptStep(old(Snap()), clientIp, clientPort, call)
      ensures issued == old(issued) + (if counter == old(counter) then {} else {old(counter)})
      ensures closed == old(closed)
    {
      var dup := HasPeer(clientIp, clientPort);
      if dup {
        match call {
          case Returns => r := Discarded;
          case Throws(reason) => r := ServerError(reason);
        }
        return;
      }
      AcceptKeepsInv(Snap(), clientIp, clientPort, call);
      var id := NextId();
      match call
      case Throws(reason) =>
        r := ServerError(reason);
      case Returns =>
        entries := entries + [Entry(id, clientIp, clientPort)];
        r := Accepted(id);
    }

    /** `terminateConnection`: take out the first entry with the id and close it. */
    method Terminate(id: int) returns (found: bool)
      requires Valid()
      modifies this
      ensures Valid()
      ensures (found, Snap()) == TerminateStep(old(Snap()), id)
      ensures issued == old(issued)
      ensures closed == old(closed) + (if found then {id} else {})
    {
      var index := IndexOfId(id);
      match index
      case None =>
        found := false;
      case Some(i) =>
        found := true;
        ghost var after := Snapshot(Without(entries, i), counter);
        assert TerminateStep(Snap(), id) == (true, after);
        TerminateRemovesExactly(Snap(), id);
        assert Inv(after);
        WithoutKeepsLabels(entries, i, issued, closed);
        entries := Without(entries, i);
        closed := closed + {id};
    }

    /** The receiver's cleanup: `removeIf(c -> c.id == id)`. */
    method RemoveIf(id: int)
      requires Valid()
      modifies this
      ensures Valid()
      ensures Snap() == CleanupStep(old(Snap()), id)
      ensures issued == old(issued) && closed == old(closed)
    {
      ghost var before := Snap();
      var kept := Remaining(id);
      CleanupKeepsInv(before, id);
      RemoveWhereKeepsLabels(entries, id, issued, closed);
      assert Inv(Snapshot(kept, counter));
      entries := kept;
      assert Snap() == CleanupStep(before, id);
    }

    /** The loop of `removeIf`: the entries it keeps, in order. */
    method Remaining(id: int) returns (kept: seq<Entry>)
      ensures kept == RemoveWhere(entries, id)
    {
      kept := [];
      var i := 0;
      while i < |entries|
        invariant 0 <= i <= |entries|
        invariant kept == RemoveWhere(entries[..i], id)
      {
        assert entries[..i + 1][..i] == entries[..i];
        if entries[i].id != id {
          kept := kept + [entries[i]];
        }
        i := i + 1;
      }
      assert entries[..i] == entries;
    }

    /** `sendMessage`: the text written to the connection with that id, if there is one. */
    method Send(id: int, message: string, myIp: string, sep: string) returns (r: Option<string>)
      ensures r.Some? <==> HasId(entries, id)
      ensures r.Some? ==> r.value == WireText(myIp, message, sep)
    {
      var index := IndexOfId(id);
      if index.Some? {
        r := Some(WireText(myIp, message, sep));
      } else {
        r := None;
      }
    }

    /** `listConnections`: what it prints, row by row. */
    method List() returns (lines: seq<string>)
      ensures lines == Listing(entries)
    {
      if entries == [] {
        return [NoConnections];
      }
      var rows := ListRows();
      lines := [ListHeader] + rows;
    }

    /** The loop of `listConnections` over the list, one row per connection. */
    method ListRows() returns (rows: seq<string>)
      ensures rows == Rows(entries)
    {
      rows := [];
      var i := 0;
      while i < |entries|
        invariant 0 <= i <= |entries|
        invariant |rows| == i
        invariant forall k :: 0 <= k < i ==> rows[k] == Row(entries[k])
      {
        rows := rows + [Row(entries[i])];
        i := i + 1;
      }
    }

    /** `exitChat`: close every connection, then empty the list. */
    method Exit()
      requires Valid()
      modifies this
      ensures Valid()
      ensures Snap() == ExitStep(old(Snap()))
      ensures issued == old(issued)
      ensures closed == old(closed) + IdSet(old(entries))
    {
      var i := 0;
      while i < |entries|
        invariant 0 <= i <= |entries|
        invariant entries == old(entries) && counter == old(counter) && issued == old(issued)
        invariant closed == old(closed) + IdSet(entries[..i])
        invariant closed <= issued
      {
        assert IdSet(entries[..i + 1]) == IdSet(entries[..i]) + {entries[i].id} by {
          assert forall k | 0 <= k < i + 1 :: entries[..i + 1][k] == entries[k];
          assert forall k | 0 <= k < i :: entries[..i][k] == entries[k];
        }
        closed := closed + {entries[i].id};
        i := i + 1;
      }
      assert entries[..i] == entries;
      entries := [];
    }
  }
}

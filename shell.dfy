/**
 * The command loop, the listener's accept loop and the per-connection
 * receiver, each as one step over the connection registry: what a step
 * changes in the registry, what it prints and what it writes to a peer.
 */
module Shell {
  import opened Text
  import opened Wire
  import opened Commands
  import opened Registry

  /** What the process fixes at start-up: its own address, its port, the platform line separator. */
  datatype Config = Config(myIp: string, listeningPort: int, lineSeparator: string)

  /** The registry operation a command performs; every other command leaves the registry alone. */
  function Effect(st: Snapshot, c: Command, attempt: ConnectAttempt): (r: Snapshot)
    ensures r.counter >= st.counter
    ensures !(c.Connect? || c.Terminate? || c.Exit?) ==> r == st
  {
    match c
    case Connect(destination, port) => ConnectStep(st, destination, port, attempt).1
    case Terminate(id) => TerminateStep(st, id).1
    case Exit => ExitStep(st)
    case _ => st
  }

  function NoSuchId(id: int): string {
    "Error: No connection with id " + IntToString(id)
  }

  /**
   * The lines the command loop prints for a command (the help text is not
   * modelled, and neither is the stack trace of a port out of range).
   */
  function Response(st: Snapshot, c: Command, cfg: Config, attempt: ConnectAttempt): (r: seq<string>)
    ensures !c.List? ==> |r| <= 1
  {
    match c
    case Help => []
    case MyIp => ["My IP: " + cfg.myIp]
    case MyPort => ["Listening on port: " + IntToString(cfg.listeningPort)]
    case Connect(destination, port) =>
      (match ConnectStep(st, destination, port, attempt).0
       case AlreadyConnected => ["Error: Already connected to " + destination + ":" + IntToString(port)]
       case PortOutOfRange => []
       case ConnectFailed(reason) => ["Error connecting to " + destination + ":" + IntToString(port) + " - " + reason]
       case Connected(_) => ["Connected to " + destination + " on port " + IntToString(port)])
    case List => Listing(st.entries)
    case Terminate(id) =>
      if HasId(st.entries, id) then ["Connection " + IntToString(id) + " terminated."] else [NoSuchId(id)]
    case Send(id, _) =>
      if HasId(st.entries, id) then ["Message sent to " + IntToString(id)] else [NoSuchId(id)]
    case Exit => ["Exiting chat."]
    case ConnectUsage => ["Usage: connect <destination> <port>"]
    case TerminateUsage => ["Usage: terminate <connection id>"]
    case SendUsage => ["Usage: send <connection id> <message>"]
    case InvalidPort => ["Invalid port number."]
    case InvalidId => ["Invalid connection id."]
    case Unknown => ["Unknown command. Type 'help' for available commands."]
  }

  /** What a command writes to a peer: only `send` to a live id writes anything. */
  function Written(st: Snapshot, c: Command, cfg: Config): (r: Option<string>)
    ensures r.Some? <==> c.Send? && HasId(st.entries, c.id)
  {
    match c
    case Send(id, message) =>
      if HasId(st.entries, id) then Some(WireText(cfg.myIp, message, cfg.lineSeparator)) else None
    case _ => None
  }

  /**
   * Whether the command loop stops after a command: `exit`, or a connect
   * whose port the socket constructor rejects with an exception that
   * leaves `main` (the listener and receivers keep running).
   */
  predicate EndsLoop(st: Snapshot, c: Command, attempt: ConnectAttempt) {
    c.Exit? || (c.Connect? && ConnectStep(st, c.destination, c.port, attempt).0.PortOutOfRange?)
  }

  /** One pass of the command loop for one operator line. */
  method Step(reg: ConnectionRegistry, cfg: Config, line: string, attempt: ConnectAttempt)
    returns (out: seq<string>, written: Option<string>, quit: bool)
    requires reg.Valid()
    modifies reg
    ensures reg.Valid()
    ensures reg.Snap() == Effect(old(reg.Snap()), Parse(line), attempt)
    ensures out == Response(old(reg.Snap()), Parse(line), cfg, attempt)
    ensures written == Written(old(reg.Snap()), Parse(line), cfg)
    ensures quit <==> EndsLoop(old(reg.Snap()), Parse(line), attempt)
  {
    var c := Parse(line);
    written := None;
    quit := false;
    match c {
      case Connect(destination, port) =>
        out, quit := RunConnect(reg, cfg, destination, port, attempt);
      case List =>
        out := reg.List();
      case Terminate(id) =>
        out := RunTerminate(reg, id);
      case Send(id, message) =>
        out, written := RunSend(reg, cfg, id, message);
      case Exit =>
        reg.Exit();
        out := ["Exiting chat."];
        quit := true;
      case _ =>
        out := Response(reg.Snap(), c, cfg, attempt);
    }
  }

  method RunConnect(reg: ConnectionRegistry, cfg: Config, destination: string, port: int, attempt: ConnectAttempt)
    returns (out: seq<string>, quit: bool)
    requires reg.Valid()
    modifies reg
    ensures reg.Valid()
    ensures reg.Snap() == ConnectStep(old(reg.Snap()), destination, port, attempt).1
    ensures out == Response(old(reg.Snap()), Connect(destination, port), cfg, attempt)
    ensures quit <==> EndsLoop(old(reg.Snap()), Connect(destination, port), attempt)
    ensures reg.issued == old(reg.issued) + (if reg.counter == old(reg.counter) then {} else {old(reg.counter)})
    ensures reg.closed == old(reg.closed)
  {
    var r := reg.Connect(destination, port, attempt);
    quit := false;
    match r {
      case AlreadyConnected =>
        out := ["Error: Already connected to " + destination + ":" + IntToString(port)];
      case PortOutOfRange =>
        out := [];
        quit := true;
      case ConnectFailed(reason) =>
        out := ["Error connecting to " + destination + ":" + IntToString(port) + " - " + reason];
      case Connected(_) =>
        out := ["Connected to " + destination + " on port " + IntToString(port)];
    }
  }

  method RunTerminate(reg: ConnectionRegistry, id: int) returns (out: seq<string>)
    requires reg.Valid()
    modifies reg
    ensures reg.Valid()
    ensures reg.Snap() == TerminateStep(old(reg.Snap()), id).1
    ensures out == (if old(HasId(reg.entries, id)) then ["Connection " + IntToString(id) + " terminated."] else [NoSuchId(id)])
    ensures reg.issued == old(reg.issued)
    ensures reg.closed == old(reg.closed) + (if old(HasId(reg.entries, id)) then {id} else {})
  {
    var found := reg.Terminate(id);
    if found {
      out := ["Connection " + IntToString(id) + " terminated."];
    } else {
      out := [NoSuchId(id)];
    }
  }

  method RunSend(reg: ConnectionRegistry, cfg: Config, id: int, message: string)
    returns (out: seq<string>, written: Option<string>)
    ensures written == Written(reg.Snap(), Send(id, message), cfg)
    ensures out == (if HasId(reg.entries, id) then ["Message sent to " + IntToString(id)] else [NoSuchId(id)])
  {
    written := reg.Send(id, message, cfg.myIp, cfg.lineSeparator);
    if written.Some? {
      out := ["Message sent to " + IntToString(id)];
    } else {
      out := [NoSuchId(id)];
    }
  }

  /** What the listener prints for one accepted socket, and whether it keeps listening. */
  function ListenerResponse(a: AcceptResult, clientIp: string, clientPort: int): (r: (seq<string>, bool))
    ensures r.1 <==> !a.ServerError?
    ensures |r.0| == (if a.Discarded? then 0 else 1)
  {
    match a
    case Discarded => ([], true)
    case Accepted(_) => (["Accepted connection from " + clientIp + ":" + IntToString(clientPort)], true)
    case ServerError(reason) => (["Server error: " + reason], false)
  }

  /** One round of the listener's accept loop for a socket from `clientIp:clientPort`. */
  method ListenerRound(reg: ConnectionRegistry, clientIp: string, clientPort: Port, call: SocketCall)
    returns (out: seq<string>, listening: bool)
    requires reg.Valid()
    modifies reg
    ensures reg.Valid()
    ensures reg.Snap() == AcceptStep(old(reg.Snap()), clientIp, clientPort, call).1
    ensures (out, listening) ==
      ListenerResponse(AcceptStep(old(reg.Snap()), clientIp, clientPort, call).0, clientIp, clientPort)
  {
    var r := reg.Accept(clientIp, clientPort, call);
    out, listening := ListenerResponse(r, clientIp, clientPort).0, ListenerResponse(r, clientIp, clientPort).1;
  }

  /**
   * The receiver of one connection: read every line until the stream ends
   * (end of stream, or the socket closed under it), then remove the
   * connection's id from the registry.
   */
  method ReceiverRun(reg: ConnectionRegistry, conn: Entry, stream: string) returns (messages: seq<string>)
    requires reg.Valid()
    modifies reg
    ensures reg.Valid()
    ensures messages == ReadLines(stream)
    ensures reg.Snap() == CleanupStep(old(reg.Snap()), conn.id)
  {
    messages := ReceiveAll(stream);
    reg.RemoveIf(conn.id);
  }

  /** Only `connect`, `terminate` and `exit` touch the registry; malformed lines never do. */
  lemma OnlyThreeCommandsChangeRegistry(st: Snapshot, line: string, cfg: Config, attempt: ConnectAttempt)
    requires !(Parse(line).Connect? || Parse(line).Terminate? || Parse(line).Exit?)
    ensures Effect(st, Parse(line), attempt) == st
    ensures Parse(line).Send? ==> Written(st, Parse(line), cfg).Some? == HasId(st.entries, Parse(line).id)
  {
  }

  /**
   * `connect` to a new endpoint with a port outside 0-65535 ends the command
   * loop, prints nothing on standard output and leaves the registry alone.
   */
  lemma OutOfRangePortEndsLoop(st: Snapshot, destination: string, port: int, cfg: Config, attempt: ConnectAttempt)
    requires NoSpace(destination) && IntMin <= port <= IntMax && !IsPortNumber(port)
    requires !HasEndpoint(st.entries, destination, port)
    ensures var c := Parse("connect " + destination + " " + IntToString(port));
      && c == Connect(destination, port)
      && Effect(st, c, attempt) == st
      && Response(st, c, cfg, attempt) == []
      && EndsLoop(st, c, attempt)
  {
    ParseRenderConnect(destination, port);
  }

  /** `send` to an unknown id reports the error, writes nothing and leaves the registry unchanged. */
  lemma SendToUnknownId(st: Snapshot, id: int, message: string, cfg: Config, attempt: ConnectAttempt)
    requires !HasId(st.entries, id)
    ensures Response(st, Send(id, message), cfg, attempt) == ["Error: No connection with id " + IntToString(id)]
    ensures Written(st, Send(id, message), cfg) == None
    ensures Effect(st, Send(id, message), attempt) == st
  {
  }

  /**
   * `send` to a live id writes the sender line and the message; the peer's
   * receiver reads back exactly those two lines.
   */
  lemma SendIsReadBack(st: Snapshot, id: int, message: string, cfg: Config)
    requires HasId(st.entries, id)
    requires NoBreaks(cfg.myIp) && NoBreaks(message) && IsLineSeparator(cfg.lineSeparator)
    ensures Written(st, Send(id, message), cfg) == Some(OutboundMessage(cfg.myIp, message) + cfg.lineSeparator)
    ensures ReadLines(Written(st, Send(id, message), cfg).value) == [SenderLine(cfg.myIp), message]
  {
    WireRoundTrip(cfg.myIp, message, cfg.lineSeparator);
  }

  /** No line of `list` starts with the text of `id` and a tab unless an entry has that id. */
  lemma ListingShowsOnlyLiveIds(s: seq<Entry>, id: int)
    requires !HasId(s, id)
    ensures forall k :: 0 <= k < |Listing(s)| ==> !StartsWith(Listing(s)[k], IntToString(id) + "\t")
  {
    var t := IntToString(id);
    var l := Listing(s);
    forall k | 0 <= k < |l| ensures !StartsWith(l[k], t + "\t") {
      if k == 0 {
        assert IsNumeralChar(t[0]);
        assert (t + "\t")[0] == t[0];
        assert l[0][0] == 'I' || l[0][0] == 'N';
      } else {
        assert l[k] == Row(s[k - 1]);
        RowShowsId(s[k - 1], id);
      }
    }
  }

  /** `terminate id` followed by `list` never shows `id`. */
  lemma TerminateThenListHidesId(st: Snapshot, id: int, cfg: Config, attempt: ConnectAttempt)
    requires Inv(st)
    ensures var after := Effect(st, Terminate(id), attempt);
      forall k :: 0 <= k < |Response(after, List, cfg, attempt)| ==>
        !StartsWith(Response(after, List, cfg, attempt)[k], IntToString(id) + "\t")
  {
    var after := Effect(st, Terminate(id), attempt);
    TerminateRemovesExactly(st, id);
    assert !HasId(after.entries, id) by {
      forall k | 0 <= k < |after.entries| ensures after.entries[k].id != id {
        assert after.entries[k] in after.entries;
      }
    }
    ListingShowsOnlyLiveIds(after.entries, id);
  }

  /** After `exit` the registry is empty: `list` would print "No active connections.". */
  lemma ExitEmptiesRegistry(st: Snapshot, cfg: Config, attempt: ConnectAttempt)
    ensures Effect(st, Exit, attempt).entries == []
    ensures Response(Effect(st, Exit, attempt), List, cfg, attempt) == ["No active connections."]
  {
  }
}

# Peer-to-peer chat: connection registry, command line and wire text

This project models the core of a small TCP chat program, `src/Chat.java`.
The program listens for inbound connections, runs an interactive command loop,
and keeps a shared list of live connections.
Each connection has a numeric id, a remote address and a remote port.
The model covers these parts, one module each:

- `Text`: the decimal text of a Java `int` as string concatenation writes it, and `Integer.parseInt`, including its range check.
- `Wire`: the text `send` puts on a connection (a sender line, the message, the line separator `println` adds), and how the receiver cuts incoming characters into lines, as `BufferedReader.readLine` does.
- `Commands`: `line.split(" ", 3)`, the case-insensitive command names, the token-count checks, and the numeric parsing of ports and ids.
- `Registry`: the connection list and the id counter.
  - Pure step functions on a `Snapshot` define what `connectToPeer`, the listener round, `terminateConnection`, the receiver's `removeIf` and `exitChat` do to the registry.
  - The class `ConnectionRegistry` holds the list and the counter as fields. Its methods update them in place and are proved against those step functions.
  - Ghost sets record which ids were handed out and which sockets the registry side closed.
- `Shell`: one pass of the command loop (what it changes, what it prints, what it writes), one round of the listener, and the life of one receiver.

Sockets, threads and the console are not modelled as such. Results that depend on the outside world are parameters:

- whether a socket call succeeds (`ConnectAttempt`, `SocketCall`);
- the characters that arrive on a stream;
- the local address;
- the platform line separator.

## Model

| member | source | states |
|---|---|---|
| Text.IntToString | src/Chat.java:150 | the decimal text of an int is non-empty, uses only digits and '-', and starts with '-' exactly for negative values |
| Text.ParseIntRoundTrip | src/Chat.java:59 | `parseInt` reads back the decimal text of every value in the int range |
| Text.IntToStringInjective | src/Chat.java:150 | distinct ids have distinct decimal texts |
| Text.ParseInt | src/Chat.java:58-63 | whatever `parseInt` accepts is an optionally signed numeral with a value in the int range |
| Text.ParseIntRejectsExactly | src/Chat.java:58-63 | `parseInt` throws exactly on the empty token, a lone sign, a token with a stray character, and a numeral whose value does not fit in an int |
| Text.ParseIntRejectsNonDigit | src/Chat.java:58-63 | a token with a character that is not a digit (a sign is allowed only at the front) throws `NumberFormatException` |
| Text.ParseIntRejectsOutOfRange | src/Chat.java:73-78 | the decimal text of a value outside the int range is rejected |
| Wire.WireText | src/Chat.java:191 | the text of one send starts with the sender line and ends with the platform line separator |
| Wire.ReadLines | src/Chat.java:278 | the lines read from a stream are never more than its characters, and none holds a line break |
| Wire.ReadLine | src/Chat.java:278 | `readLine` gives null exactly at end of stream; otherwise the line is the text before the first '\n' or '\r', the stream resumes right after its terminator, which is nothing at the end of the stream, "\n", "\r\n", or a "\r" no "\n" follows, and what is left over is shorter |
| Wire.ReceiveAll | src/Chat.java:276-283 | the receiving loop collects exactly the lines of the stream, in order |
| Wire.ReadLineOfLine | src/Chat.java:253 | a line without breaks, followed by "\n" or "\r\n", is read back as itself, and reading resumes right after the terminator |
| Wire.WireTextLines | src/Chat.java:252-254 | the text of one send, followed by anything, is read as its sender line and message, then the lines of what follows |
| Wire.WireRoundTrip | src/Chat.java:191 | what `send` writes is read by the peer as exactly two lines: "Message from <ip>:" and the message |
| Wire.StreamPreservesOrder | src/Chat.java:252-254 | successive sends on one connection arrive as sender line and message, in the order sent |
| Commands.Split3 | src/Chat.java:41 | `split(" ", 3)` gives one to three tokens |
| Commands.SplitCharacterised | src/Chat.java:41 | the tokens join back to the line with single spaces, and only the third token may contain a space |
| Commands.SplitUnique | src/Chat.java:41 | any one-to-three split whose first two tokens hold no space and which joins back to the line is the split `split(" ", 3)` makes |
| Commands.EqualsIgnoreCaseIsLowered | src/Chat.java:46 | `equalsIgnoreCase` (same length; per character equal, equal upper-cased, or equal lower-cased after upper-casing) holds exactly when the lower-cased strings are equal |
| Commands.NameTestIsEqualsIgnoreCase | src/Chat.java:46-95 | for a lower-case command name, `token.equalsIgnoreCase(name)` holds exactly when the lower-cased token is the name, which is the test the dispatch makes |
| Commands.CommandNameIgnoresCase | src/Chat.java:44-98 | lines that differ only in the case of the command word parse to the same command |
| Commands.Parse | src/Chat.java:41-98 | whenever a line is taken as connect, terminate or send, its destination holds no space and its port or id lies in the int range |
| Commands.Dispatch | src/Chat.java:46-100 | the dispatch yields connect, terminate or send only once their token-count and `parseInt` checks have passed, with the arguments taken from the tokens |
| Commands.ParseRender | src/Chat.java:41-98 | every command typed in its documented form parses back to that command, arguments included |
| Commands.ParseRenderConnect | src/Chat.java:52-65 | `connect <dest> <port>` parses to a connect to that destination and port |
| Commands.ParseRenderTerminate | src/Chat.java:68-80 | `terminate <id>` parses to a terminate of that id |
| Commands.ParseRenderSend | src/Chat.java:81-94 | `send <id> <message>` parses to a send of that message, all its spaces kept, to that id |
| Commands.ParseConnect | src/Chat.java:52-65 | for every port token, `connect <dest> <token>` asks to connect to that destination and port when `parseInt` accepts the token, and prints "Invalid port number." otherwise |
| Commands.ParseTerminate | src/Chat.java:68-80 | for every id token, `terminate <token>` asks to terminate that id when `parseInt` accepts it, and prints "Invalid connection id." otherwise |
| Commands.ParseSend | src/Chat.java:81-94 | for every id token and message, `send <token> <message>` asks to send the whole message to that id when `parseInt` accepts the token, and prints "Invalid connection id." otherwise |
| Commands.ConnectNeedsThreeTokens | src/Chat.java:53-92 | a line parses to connect or send only with three tokens and an int in the numeric slot, and to terminate only with at least two tokens and an int id |
| Commands.NonNumericPortIsInvalid | src/Chat.java:58-63 | a connect line whose port token is empty, a lone sign, holds a stray character or is a numeral outside the int range prints "Invalid port number." and connects nowhere |
| Commands.NonNumericTerminateIdIsInvalid | src/Chat.java:73-78 | a terminate line with such an id token is reported as an invalid id |
| Commands.NonNumericSendIdIsInvalid | src/Chat.java:86-91 | a send line with such an id token is reported as an invalid id and sends nothing |
| Registry.FirstIndexOf | src/Chat.java:160-165 | the scan finds nothing exactly when no entry has the id; otherwise it finds the first entry with that id |
| Registry.Without | src/Chat.java:167 | removing one position shifts the later entries down by one and keeps the earlier ones |
| Registry.RemoveWhere | src/Chat.java:289 | `removeIf(c -> c.id == id)` leaves no entry with the id and never lengthens the list |
| Registry.RemoveWhereMembers | src/Chat.java:289 | `removeIf(c -> c.id == id)` keeps exactly the entries with another id |
| Registry.RemoveWhereKeepsOrder | src/Chat.java:289 | `removeIf` keeps the ids increasing and the endpoints unique |
| Registry.RemoveWhereIdempotent | src/Chat.java:288-290 | a second `removeIf` on the same id changes nothing |
| Registry.RemoveFirstIsRemoveAll | src/Chat.java:157-169 | with increasing ids, removing the first entry with an id leaves the same list as `removeIf` on that id, and a later `removeIf` on it changes nothing |
| Registry.WithoutIsRemoveWhere | src/Chat.java:157-169 | with increasing ids, taking out the entry at the index of an id equals `removeIf` on that id |
| Registry.TerminateIsCleanup | src/Chat.java:157-176 | under the invariant, `terminate` leaves exactly the list that the receiver's `removeIf` (line 287) would leave |
| Registry.CleanupKeepsInv | src/Chat.java:285-289 | the receiver's `removeIf` keeps the invariant |
| Registry.Listing | src/Chat.java:143-154 | `list` prints one line for an empty registry, and a header plus one line per entry otherwise |
| Registry.ListingShape | src/Chat.java:143-154 | `list` prints "No active connections." exactly when the list is empty; otherwise a header and one row per entry, in list order |
| Registry.RowShowsId | src/Chat.java:150 | a row starts with an id's text and a tab exactly when it is the row of the entry with that id |
| Registry.TerminatedIdNotListed | src/Chat.java:157-169 | after an entry is taken out, `list` shows no row for its id |
| Registry.ConnectStep | src/Chat.java:119-140 | a connect uses at most one id, changes the list only when it succeeds, and succeeds only for an endpoint not yet in the list and a port in 0-65535 |
| Registry.AcceptStep | src/Chat.java:309-337 | a listener round uses at most one id, changes the list only when it registers the socket, does so only for a new endpoint, and ends in a server error exactly when its socket call throws |
| Registry.TerminateStep | src/Chat.java:157-176 | terminate succeeds exactly when the id is live, then removes one entry; otherwise it changes nothing; the counter is kept |
| Registry.CleanupStep | src/Chat.java:286-290 | after the receiver's cleanup no entry has its id; the counter is kept |
| Registry.ExitStep | src/Chat.java:199-208 | after exit the list is empty, the counter is kept, and the invariant still holds |
| Registry.ConnectRejectsDuplicate | src/Chat.java:121-127 | a connect to an endpoint already in the list prints the duplicate error and changes nothing |
| Registry.AcceptDiscardsDuplicate | src/Chat.java:313-336 | an inbound socket from an endpoint already in the list changes nothing: it is closed silently, or, when `close` throws, the listener prints "Server error: ..." |
| Registry.ConnectSuccess | src/Chat.java:129-136 | a successful connect appends exactly one entry, with the current counter as its id, which no live entry holds, and moves the counter on by one |
| Registry.AcceptSuccess | src/Chat.java:326-332 | an accepted socket appends exactly one entry for the client's endpoint, with the current counter as its id, which no live entry holds, and moves the counter on by one |
| Registry.ConnectKeepsInv | src/Chat.java:119-140 | every outcome of a connect keeps ids positive, below the counter and increasing, every port within 0-65535, and endpoints unique |
| Registry.AcceptKeepsInv | src/Chat.java:309-333 | every outcome of a listener round keeps that invariant; the client's port is a `Port`, as `getPort` (line 311) gives |
| Registry.TerminateRemovesExactly | src/Chat.java:157-176 | terminate reports success exactly when the id is live; it then removes exactly the entries with that id and keeps the invariant; otherwise nothing changes |
| Registry.CleanupRemovesExactly | src/Chat.java:286-290 | the receiver's cleanup removes exactly the entries with its id and keeps the invariant; it is idempotent, and it is a no-op after terminate has removed the id |
| Registry.ApplyKeepsInv | src/Chat.java:131 | every registry step keeps the invariant and never moves the counter back; a step that registers a connection uses the current counter and bumps it by one |
| Registry.RunKeepsInvAndNeverReusesIds | src/Chat.java:8 | under any sequence of steps the invariant holds, and the ids handed out strictly increase, so an id is never reused |
| Registry.ConnectionRegistry.constructor | src/Chat.java:7-8 | the registry starts empty, with the counter at 1 |
| Registry.ConnectionRegistry.HasPeer | src/Chat.java:121-127 | the duplicate scan is true exactly when some entry has that address and port |
| Registry.ConnectionRegistry.IndexOfId | src/Chat.java:160-165 | the id scan returns the first position holding the id, or nothing |
| Registry.ConnectionRegistry.NextId | src/Chat.java:131 | `connectionCounter++` hands out the old counter, never handed out before, and bumps the counter |
| Registry.ConnectionRegistry.Connect | src/Chat.java:119-140 | follows the connect step exactly, port check included; the only id taken is the old counter, and no socket is closed |
| Registry.ConnectionRegistry.Accept | src/Chat.java:309-333 | follows the listener step exactly; the only id taken is the old counter |
| Registry.ConnectionRegistry.Terminate | src/Chat.java:157-176 | follows the terminate step exactly, and closes the socket of the removed id and no other |
| Registry.ConnectionRegistry.RemoveIf | src/Chat.java:288-290 | the receiver's cleanup leaves exactly the cleanup step's list and keeps the invariant |
| Registry.ConnectionRegistry.Remaining | src/Chat.java:288 | the filtering loop of `removeIf` keeps, in order, the entries whose id differs |
| Registry.ConnectionRegistry.Send | src/Chat.java:179-195 | writes only when the id is live, and then exactly the sender line, the message and the separator |
| Registry.ConnectionRegistry.List | src/Chat.java:143-154 | prints exactly the listing of the current entries |
| Registry.ConnectionRegistry.ListRows | src/Chat.java:149-151 | the printing loop produces one row per entry, in list order |
| Registry.ConnectionRegistry.Exit | src/Chat.java:199-208 | closes the socket of every live connection, then empties the list |
| Shell.Effect | src/Chat.java:38-101 | no command moves the counter back, and only connect, terminate and exit change the registry |
| Shell.Response | src/Chat.java:38-101 | every command except `list` prints at most one line (`help` prints nothing here, see below), and a connect whose port is out of range prints nothing |
| Shell.Written | src/Chat.java:179-195 | a command writes to a peer exactly when it is a send to a live id |
| Shell.Step | src/Chat.java:38-101 | one pass of the command loop changes the registry by the parsed command's step, prints its response, writes only for a send to a live id, and stops the loop exactly when `EndsLoop` holds: on exit, and on a connect to a new endpoint whose port is outside 0-65535 (line 97 and the unchecked exception of `new Socket`) |
| Shell.RunConnect | src/Chat.java:119-140 | prints the duplicate error, the connection error with its cause, or "Connected to ...", as the connect step's outcome says, or prints nothing and stops the loop for a port out of range; only the old counter can be newly issued, and no socket is closed |
| Shell.RunTerminate | src/Chat.java:170-175 | prints "Connection N terminated." exactly when the id was live, and the no-such-id error otherwise; it closes that id's socket only when it was live, and issues no id |
| Shell.RunSend | src/Chat.java:189-195 | prints "Message sent to N" exactly when the id is live, and the no-such-id error otherwise |
| Shell.ListenerRound | src/Chat.java:309-337 | an accepted socket is closed silently, or registered and announced, or, when its `close` or `getOutputStream` throws, ends the accept loop with "Server error: ..." |
| Shell.ReceiverRun | src/Chat.java:274-292 | the receiver reads exactly the stream's lines and then removes its id from the registry |
| Shell.ListenerResponse | src/Chat.java:320-336 | the listener keeps listening unless the round ended in a server error; it prints nothing for a duplicate and one line otherwise |
| Shell.OnlyThreeCommandsChangeRegistry | src/Chat.java:38-101 | only connect, terminate and exit change the registry; send writes exactly when its id is live |
| Shell.OutOfRangePortEndsLoop | src/Chat.java:129-139 | `connect <dest> <port>` to a new endpoint with a port outside 0-65535 ends the command loop, prints nothing on standard output and leaves the registry alone |
| Shell.SendToUnknownId | src/Chat.java:193-195 | a send to an unknown id prints the error, writes nothing and leaves the registry unchanged |
| Shell.SendIsReadBack | src/Chat.java:191 | a send to a live id writes text that the peer reads back as the sender line and the message |
| Shell.ListingShowsOnlyLiveIds | src/Chat.java:143-154 | no line of `list` starts with an id's text and a tab unless an entry has that id |
| Shell.TerminateThenListHidesId | src/Chat.java:157-176 | after `terminate id`, `list` shows no row for that id |
| Shell.ExitEmptiesRegistry | src/Chat.java:199-208 | after `exit` the registry is empty |

## Left out

- Sockets, streams, threads and `synchronized` are not modelled. Steps on the registry happen one at a time. The race between the duplicate scan and the later `add` (the scan and the add take the lock separately, lines 121-135 and 313-331) is therefore not represented, although the program does not make them atomic.
- Registry.ConnectionRegistry.Connect: the outcome of `new Socket` and `getOutputStream` is a parameter. Host-name resolution is not modelled.
- A port outside 0-65535 makes `new Socket` throw `IllegalArgumentException`. That exception is unchecked, so the `catch (IOException e)` of `connectToPeer` misses it. It leaves `main` and ends only the command-loop thread. The listener is a non-daemon thread, so the process keeps accepting peers with no operator loop. The model returns `PortOutOfRange`, changes nothing, and `Shell.Step` reports that the loop stops. The stack trace on standard error is not modelled, nor is the process that runs on without a shell.
- Registry.ConnectionRegistry.Accept: when the socket call of a round throws, the exception leaves the accept loop, since the catch sits outside the `while`. That call is `close` on a duplicate endpoint (line 323) and `getOutputStream` on a new one (line 242). The model stops the listener (`ServerError`), as the code does. For a new endpoint the id is still used up, because `connectionCounter++` runs before the constructor throws.
- Shell.ListenerRound: a round starts once `serverSocket.accept()` has returned a socket. An `IOException` from `accept` itself, or from binding the server socket, also ends the listener with "Server error: ..."; those are not modelled.
- Registry.ConnectionRegistry.Send: `PrintWriter` swallows write errors. The model therefore always reports "Message sent", as the code does; a failed write is never reported.
- Registry.ConnectionRegistry.NextId: the counter is an unbounded natural number. The wrap-around of the 32-bit `connectionCounter` after 2^31 - 1 connections is not modelled.
- Commands.CommandNameIgnoresCase: `equalsIgnoreCase` is modelled with ASCII case mappings only. Java uses the Unicode mappings of `Character.toUpperCase` and `toLowerCase`, so it also accepts, for instance, "ſend" (long s upper-cases to 'S') or "lıst" (dotless i upper-cases to 'I'). The model parses such words as unknown commands.
- Commands.NameTestIsEqualsIgnoreCase: the same ASCII restriction.
- Text.ParseInt: only ASCII digits are accepted. `Integer.parseInt` also accepts other Unicode decimal digits, which are not modelled.
- Shell.Step, Shell.Response: the help text (`printHelp`, lines 106-116, nine lines) is not modelled. `help` prints nothing in the model, and the prompt "chat> " is not modelled either.
- Shell.Step: each pass receives a line. At the end of standard input `scanner.nextLine()` (line 40) throws `NoSuchElementException`, which ends the command loop like an out-of-range port; that case is not modelled.
- Shell.Step: its contract does not pass on the ghost sets `issued` and `closed`. `Shell.RunConnect`, `Shell.RunTerminate` and the registry methods state them.
- Shell.ReceiverRun: what the receiver prints for each message (lines 279-282) and the "Connection N closed." line are not modelled. An I/O error while reading is modelled as the end of the stream; both lead to the same cleanup.
- `main`'s argument check, `getMyIp`, the listener's bind and the welcome message are not modelled. The local address, the listening port and the line separator are the `Config` parameters.
- `System.exit` and `scanner.close` are not modelled. `exit` sets the `quit` result.
- Closing a socket is recorded in the ghost set `closed`. `Connection.close` (lines 257-263) ignores an I/O error, which has no effect on the registry, so that error is not modelled. The listener's own `clientSocket.close()` is a different case: its error ends the listener, and that is modelled.
- Wire.WireRoundTrip: the model works on characters. `PrintWriter` and `InputStreamReader` encode and decode with each JVM's default charset. When the two ends use different charsets, or a character cannot be encoded (it becomes '?'), the peer reads other characters. The model assumes both ends share one charset that encodes every character sent.
- Shell.SendIsReadBack: the same charset assumption.

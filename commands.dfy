/**
 * The operator's command line: the split into at most three space-separated
 * tokens, the case-insensitive command names, the token-count checks and
 * the numeric parsing of ports and connection ids.
 */
module Commands {
  import opened Text

  /** What one operator line asks for, or why it is rejected. */
  datatype Command =
    | Help
    | MyIp
    | MyPort
    | Connect(destination: string, port: int)
    | List
    | Terminate(id: int)
    | Send(id: int, message: string)
    | Exit
    | ConnectUsage     // `connect` with fewer than three tokens
    | TerminateUsage   // `terminate` with fewer than two tokens
    | SendUsage        // `send` with fewer than three tokens
    | InvalidPort      // the port token of `connect` is not an int
    | InvalidId        // the id token of `terminate` or `send` is not an int
    | Unknown

  predicate NoSpace(s: string) {
    forall k :: 0 <= k < |s| ==> s[k] != ' '
  }

  /** Index of the first space, or the length of the string when there is none. */
  function SpaceIndex(s: string): (i: nat)
    ensures i <= |s|
    ensures forall k :: 0 <= k < i ==> s[k] != ' '
    ensures i < |s| ==> s[i] == ' '
  {
    if s == [] || s[0] == ' ' then 0
    else
      1 + SpaceIndex(s[1..])
  }

  /** What follows the first space, cut at its own first space into at most two tokens. */
  function SplitRest(rest: string): (tokens: seq<string>)
    ensures 1 <= |tokens| <= 2
  {
    var j := SpaceIndex(rest);
    if j == |rest| then [rest] else [rest[..j], rest[j + 1..]]
  }

  /**
   * `line.split(" ", 3)`: cut at the first two spaces; the third token keeps
   * every later space, and empty tokens are kept.
   */
  function Split3(line: string): (tokens: seq<string>)
    ensures 1 <= |tokens| <= 3
  {
    var i := SpaceIndex(line);
    if i == |line| then [line] else [line[..i]] + SplitRest(line[i + 1..])
  }

  /** The tokens put back together with one space between neighbours. */
  function Join(tokens: seq<string>): string
    decreases |tokens|
  {
    if |tokens| <= 1 then (if tokens == [] then "" else tokens[0])
    else tokens[0] + " " + Join(tokens[1..])
  }

  lemma JoinTwo(a: string, b: string)
    ensures Join([a, b]) == a + " " + b
  {
    assert [a, b][1..] == [b];
  }

  lemma JoinThree(a: string, b: string, c: string)
    ensures Join([a, b, c]) == a + " " + b + " " + c
  {
    assert [a, b, c][1..] == [b, c];
    JoinTwo(b, c);
  }

  /**
   * The result `split(" ", 3)` must have: one to three tokens that join back
   * to the line, where only the third token may contain a space.
   */
  predicate SplitsInto(line: string, tokens: seq<string>) {
    && 1 <= |tokens| <= 3
    && Join(tokens) == line
    && (forall k :: 0 <= k < |tokens| && k < 2 ==> NoSpace(tokens[k]))
  }

  lemma SpaceIndexAt(s: string, i: nat)
    requires i <= |s|
    requires forall k :: 0 <= k < i ==> s[k] != ' '
    requires i < |s| ==> s[i] == ' '
    ensures SpaceIndex(s) == i
  {
  }

  /** The first space of `a + rest`, for a word `a` and a `rest` that is empty or starts with a space. */
  lemma SpaceIndexAfterWord(a: string, rest: string)
    requires NoSpace(a)
    requires rest == [] || rest[0] == ' '
    ensures SpaceIndex(a + rest) == |a|
  {
    var s := a + rest;
    assert forall k | 0 <= k < |a| :: s[k] == a[k];
    SpaceIndexAt(s, |a|);
  }

  /** The text before the first space holds no space. */
  lemma PrefixBeforeSpace(s: string)
    ensures NoSpace(s[..SpaceIndex(s)])
  {
    var i := SpaceIndex(s);
    forall k | 0 <= k < i ensures s[..i][k] != ' ' {
      assert s[..i][k] == s[k];
    }
  }

  /** The rest after the first space splits into a word and whatever follows its first space. */
  lemma SplitRestCharacterised(rest: string)
    ensures Join(SplitRest(rest)) == rest && NoSpace(SplitRest(rest)[0])
    ensures |SplitRest(rest)| == 1 ==> NoSpace(rest)
  {
    var j := SpaceIndex(rest);
    PrefixBeforeSpace(rest);
    if j == |rest| {
      assert rest[..j] == rest;
    } else {
      assert rest == rest[..j] + " " + rest[j + 1..];
      JoinTwo(rest[..j], rest[j + 1..]);
    }
  }

  /** A string is what comes before one of its spaces, the space, and what comes after. */
  lemma CutAtSpace(s: string, i: nat)
    requires i < |s| && s[i] == ' '
    ensures s == s[..i] + " " + s[i + 1..]
  {
    var t := s[..i] + " " + s[i + 1..];
    assert |t| == |s|;
    forall k | 0 <= k < |s| ensures t[k] == s[k] {
      if k < i {
        assert t[k] == s[..i][k];
      } else if i < k {
        assert t[k] == s[i + 1..][k - i - 1];
      }
    }
  }

  lemma SplitWordRest(w: string, rest: string)
    requires NoSpace(w)
    ensures SplitsInto(w + " " + rest, [w] + SplitRest(rest))
  {
    var r := SplitRest(rest);
    SplitRestCharacterised(rest);
    var t := [w] + r;
    assert t[0] == w && t[1..] == r && t[1] == r[0];
    assert Join(t) == w + " " + Join(r);
  }

  /** `Split3` splits every line as `split(" ", 3)` must. */
  lemma SplitCharacterised(line: string)
    ensures SplitsInto(line, Split3(line))
  {
    var i := SpaceIndex(line);
    PrefixBeforeSpace(line);
    if i == |line| {
      assert line[..i] == line;
    } else {
      var w := line[..i];
      var rest := line[i + 1..];
      assert Split3(line) == [w] + SplitRest(rest);
      CutAtSpace(line, i);
      SplitWordRest(w, rest);
    }
  }

  /** The split of a line that starts with a word: the word, then the split of what follows its space. */
  lemma SplitAfterWord(a: string, rest: string)
    requires NoSpace(a)
    requires rest == [] || rest[0] == ' '
    ensures Split3(a + rest) == (if rest == [] then [a] else [a] + SplitRest(rest[1..]))
  {
    var line := a + rest;
    SpaceIndexAfterWord(a, rest);
    if rest == [] {
      assert line == a;
    } else {
      assert line[..|a|] == a && line[|a| + 1..] == rest[1..];
    }
  }

  lemma SplitRestUnique(rest: string, tokens: seq<string>)
    requires 1 <= |tokens| <= 2 && Join(tokens) == rest && NoSpace(tokens[0])
    ensures tokens == SplitRest(rest)
  {
    if |tokens| == 1 {
      assert tokens == [tokens[0]] && rest == tokens[0];
      SplitRestOne(tokens[0]);
    } else {
      assert tokens == [tokens[0], tokens[1]];
      JoinTwo(tokens[0], tokens[1]);
      SplitRestTwo(tokens[0], tokens[1]);
    }
  }

  /** There is exactly one such split: any tokens meeting it are `Split3(line)`. */
  lemma SplitUnique(line: string, tokens: seq<string>)
    requires SplitsInto(line, tokens)
    ensures tokens == Split3(line)
  {
    if |tokens| == 1 {
      assert line == line + [];
      SpaceIndexAfterWord(line, []);
    } else {
      var a := tokens[0];
      var t := tokens[1..];
      var rest := Join(t);
      assert line == a + (" " + rest);
      SplitAfterWord(a, " " + rest);
      assert (" " + rest)[1..] == rest;
      assert t[0] == tokens[1];
      SplitRestUnique(rest, t);
      assert tokens == [a] + t;
    }
  }

  /** `Character.toLowerCase` and `Character.toUpperCase` on ASCII letters. */
  function LowerChar(c: char): char {
    if 'A' <= c <= 'Z' then (c as int - 'A' as int + 'a' as int) as char else c
  }

  function UpperChar(c: char): char {
    if 'a' <= c <= 'z' then (c as int - 'a' as int + 'A' as int) as char else c
  }

  /** The string with every ASCII capital replaced by its small letter. */
  function Lowered(s: string): string {
    seq(|s|, k requires 0 <= k < |s| => LowerChar(s[k]))
  }

  /** The character test of `String.equalsIgnoreCase`: equal, equal upper-cased, or equal lower-cased after that. */
  predicate CharsEqualIgnoreCase(c1: char, c2: char) {
    c1 == c2 || UpperChar(c1) == UpperChar(c2) || LowerChar(UpperChar(c1)) == LowerChar(UpperChar(c2))
  }

  /** `a.equalsIgnoreCase(b)`: the same length and every pair of characters passes the test above. */
  predicate EqualsIgnoreCase(a: string, b: string) {
    |a| == |b| && forall k :: 0 <= k < |a| ==> CharsEqualIgnoreCase(a[k], b[k])
  }

  lemma LowerOfUpper(c: char)
    ensures LowerChar(UpperChar(c)) == LowerChar(c)
  {
  }

  /** Two characters pass the test of `equalsIgnoreCase` exactly when their lower-case forms agree. */
  lemma CharsEqualIgnoreCaseIsLower(c1: char, c2: char)
    ensures CharsEqualIgnoreCase(c1, c2) <==> LowerChar(c1) == LowerChar(c2)
  {
    LowerOfUpper(c1);
    LowerOfUpper(c2);
  }

  /** `equalsIgnoreCase` holds exactly when the lower-cased strings are equal. */
  lemma EqualsIgnoreCaseIsLowered(a: string, b: string)
    ensures EqualsIgnoreCase(a, b) <==> Lowered(a) == Lowered(b)
  {
    forall k | 0 <= k < |a| && k < |b| ensures CharsEqualIgnoreCase(a[k], b[k]) <==> Lowered(a)[k] == Lowered(b)[k] {
      CharsEqualIgnoreCaseIsLower(a[k], b[k]);
    }
    if Lowered(a) == Lowered(b) {
      assert |a| == |Lowered(a)|;
    }
  }

  /**
   * The command the shell executes for a line, or the message it prints
   * instead. Every command name is lower case, so the token matches it
   * ignoring case exactly when its lower-cased form equals the name.
   */
  function Parse(line: string): (c: Command)
    ensures c.Connect? || c.Terminate? || c.Send? ==> IsRequest(c)
  {
    var tokens := Split3(line);
    SplitCharacterised(line);
    Dispatch(Lowered(tokens[0]), tokens)
  }

  /** The chain of name tests and token checks of the command loop. */
  function Dispatch(name: string, tokens: seq<string>): (c: Command)
    requires 1 <= |tokens| <= 3
    ensures c.Connect? ==> |tokens| == 3 && ParseInt(tokens[2]) == Some(c.port) && c.destination == tokens[1]
    ensures c.Terminate? ==> |tokens| >= 2 && ParseInt(tokens[1]) == Some(c.id)
    ensures c.Send? ==> |tokens| == 3 && ParseInt(tokens[1]) == Some(c.id) && c.message == tokens[2]
  {
    if name == "help" then Help
    else if name == "myip" then MyIp
    else if name == "myport" then MyPort
    else if name == "connect" then
      if |tokens| < 3 then ConnectUsage
      else match ParseInt(tokens[2])
        case None => InvalidPort
        case Some(port) => Connect(tokens[1], port)
    else if name == "list" then List
    else if name == "terminate" then
      if |tokens| < 2 then TerminateUsage
      else match ParseInt(tokens[1])
        case None => InvalidId
        case Some(id) => Terminate(id)
    else if name == "send" then
      if |tokens| < 3 then SendUsage
      else match ParseInt(tokens[1])
        case None => InvalidId
        case Some(id) => Send(id, tokens[2])
    else if name == "exit" then Exit
    else Unknown
  }

  /** Lower-casing leaves a string without upper-case letters alone. */
  lemma LoweredOfLowerCase(s: string)
    requires forall k :: 0 <= k < |s| ==> !('A' <= s[k] <= 'Z')
    ensures Lowered(s) == s
  {
    assert forall k | 0 <= k < |s| :: Lowered(s)[k] == s[k];
  }

  /**
   * The name test of `Dispatch`, equality of the lower-cased token with a
   * lower-case name, is `token.equalsIgnoreCase(name)`.
   */
  lemma NameTestIsEqualsIgnoreCase(token: string, name: string)
    requires forall k :: 0 <= k < |name| ==> !('A' <= name[k] <= 'Z')
    ensures EqualsIgnoreCase(token, name) <==> Lowered(token) == name
  {
    LoweredOfLowerCase(name);
    EqualsIgnoreCaseIsLowered(token, name);
  }

  /** Commands an operator can type; their arguments are what a typed line can carry. */
  predicate IsRequest(c: Command) {
    match c
    case Help => true
    case MyIp => true
    case MyPort => true
    case Connect(destination, port) => NoSpace(destination) && IntMin <= port <= IntMax
    case List => true
    case Terminate(id) => IntMin <= id <= IntMax
    case Send(id, _) => IntMin <= id <= IntMax
    case Exit => true
    case _ => false
  }

  /** A line in the documented form of each command. */
  function Render(c: Command): string
    requires IsRequest(c)
  {
    match c
    case Help => "help"
    case MyIp => "myip"
    case MyPort => "myport"
    case Connect(destination, port) => "connect " + destination + " " + IntToString(port)
    case List => "list"
    case Terminate(id) => "terminate " + IntToString(id)
    case Send(id, message) => "send " + IntToString(id) + " " + message
    case Exit => "exit"
  }

  lemma IntTextHasNoSpace(i: int)
    ensures NoSpace(IntToString(i))
  {
    var s := IntToString(i);
    assert forall k | 0 <= k < |s| :: IsNumeralChar(s[k]);
  }

  /** The dispatch never looks at the first token itself, only at the name derived from it. */
  lemma DispatchIgnoresFirstToken(name: string, t1: seq<string>, t2: seq<string>)
    requires 1 <= |t1| <= 3 && |t1| == |t2| && t1[1..] == t2[1..]
    ensures Dispatch(name, t1) == Dispatch(name, t2)
  {
    assert forall k | 1 <= k < |t1| :: t1[k] == t1[1..][k - 1];
    assert forall k | 1 <= k < |t2| :: t2[k] == t2[1..][k - 1];
  }

  /** A line that starts with a lower-case command word dispatches on that word. */
  lemma ParseCommandLine(name: string, rest: string)
    requires NoSpace(name) && forall k :: 0 <= k < |name| ==> !('A' <= name[k] <= 'Z')
    requires rest == [] || rest[0] == ' '
    ensures Parse(name + rest) == Dispatch(name, if rest == [] then [name] else [name] + SplitRest(rest[1..]))
  {
    SplitAfterWord(name, rest);
    LoweredOfLowerCase(name);
  }

  lemma SplitRestOne(w: string)
    requires NoSpace(w)
    ensures SplitRest(w) == [w]
  {
    SpaceIndexAfterWord(w, []);
    assert w + [] == w;
  }

  lemma SplitRestTwo(a: string, b: string)
    requires NoSpace(a)
    ensures SplitRest(a + " " + b) == [a, b]
  {
    var r := a + " " + b;
    assert r == a + (" " + b);
    SpaceIndexAfterWord(a, " " + b);
    assert r[..|a|] == a && r[|a| + 1..] == b;
  }

  /** A line that is a single lower-case word dispatches on that word. */
  lemma ParseWord(w: string)
    requires NoSpace(w) && forall k :: 0 <= k < |w| ==> !('A' <= w[k] <= 'Z')
    ensures Parse(w) == Dispatch(w, [w])
  {
    ParseCommandLine(w, []);
    assert w + [] == w;
  }

  /** A lower-case command word and one argument without a space. */
  lemma ParseTwoTokens(name: string, arg: string)
    requires NoSpace(name) && forall k :: 0 <= k < |name| ==> !('A' <= name[k] <= 'Z')
    requires NoSpace(arg)
    ensures Parse(name + " " + arg) == Dispatch(name, [name, arg])
  {
    var rest := " " + arg;
    assert name + " " + arg == name + rest;
    assert rest[1..] == arg;
    SplitRestOne(arg);
    assert [name] + SplitRest(rest[1..]) == [name, arg];
    ParseCommandLine(name, rest);
  }

  /** A lower-case command word, an argument without a space, and the rest of the line. */
  lemma ParseThreeTokens(name: string, arg: string, last: string)
    requires NoSpace(name) && forall k :: 0 <= k < |name| ==> !('A' <= name[k] <= 'Z')
    requires NoSpace(arg)
    ensures Parse(name + " " + arg + " " + last) == Dispatch(name, [name, arg, last])
  {
    var tail := arg + " " + last;
    var rest := " " + tail;
    AppendAssoc(arg, " ", last);
    AppendAssoc(name + " " + arg, " ", last);
    AppendAssoc(name + " ", arg, " " + last);
    AppendAssoc(name, " ", tail);
    assert rest[1..] == tail;
    SplitRestTwo(arg, last);
    assert [name] + SplitRest(rest[1..]) == [name, arg, last];
    ParseCommandLine(name, rest);
  }

  /** A `terminate` line with its argument dispatches as the terminate command. */
  lemma ParseTerminateLine(arg: string)
    requires NoSpace(arg)
    ensures Parse("terminate " + arg) == Dispatch("terminate", ["terminate", arg])
  {
    assert "terminate " + arg == "terminate" + " " + arg;
    ParseTwoTokens("terminate", arg);
  }

  /** A `connect` line with its two arguments dispatches as the connect command. */
  lemma ParseConnectLine(arg: string, last: string)
    requires NoSpace(arg)
    ensures Parse("connect " + arg + " " + last) == Dispatch("connect", ["connect", arg, last])
  {
    assert "connect " + arg == "connect" + " " + arg;
    ParseThreeTokens("connect", arg, last);
  }

  /** A `send` line with its two arguments dispatches as the send command. */
  lemma ParseSendLine(arg: string, last: string)
    requires NoSpace(arg)
    ensures Parse("send " + arg + " " + last) == Dispatch("send", ["send", arg, last])
  {
    assert "send " + arg == "send" + " " + arg;
    ParseThreeTokens("send", arg, last);
  }

  lemma DispatchConnect(arg: string, last: string)
    ensures Dispatch("connect", ["connect", arg, last]) ==
      match ParseInt(last) case None => InvalidPort case Some(port) => Connect(arg, port)
  {
  }

  lemma DispatchTerminate(arg: string)
    ensures Dispatch("terminate", ["terminate", arg]) ==
      match ParseInt(arg) case None => InvalidId case Some(id) => Terminate(id)
  {
  }

  lemma DispatchSend(arg: string, last: string)
    ensures Dispatch("send", ["send", arg, last]) ==
      match ParseInt(arg) case None => InvalidId case Some(id) => Send(id, last)
  {
  }

  /**
   * A `connect` line with a destination and any port token: the connect
   * command when `parseInt` accepts the token, "Invalid port number."
   * otherwise (the empty token, a lone sign, a non-digit, an out-of-range value).
   */
  lemma ParseConnect(destination: string, port: string)
    requires NoSpace(destination)
    ensures Parse("connect " + destination + " " + port) ==
      match ParseInt(port) case None => InvalidPort case Some(p) => Connect(destination, p)
  {
    ParseConnectLine(destination, port);
    DispatchConnect(destination, port);
  }

  /** A `terminate` line with any id token: the terminate command, or "Invalid connection id.". */
  lemma ParseTerminate(id: string)
    requires NoSpace(id)
    ensures Parse("terminate " + id) ==
      match ParseInt(id) case None => InvalidId case Some(i) => Terminate(i)
  {
    ParseTerminateLine(id);
    DispatchTerminate(id);
  }

  /** A `send` line with any id token and any message: the send command, or "Invalid connection id.". */
  lemma ParseSend(id: string, message: string)
    requires NoSpace(id)
    ensures Parse("send " + id + " " + message) ==
      match ParseInt(id) case None => InvalidId case Some(i) => Send(i, message)
  {
    ParseSendLine(id, message);
    DispatchSend(id, message);
  }

  lemma ParseRenderConnect(destination: string, port: int)
    requires NoSpace(destination) && IntMin <= port <= IntMax
    ensures Parse("connect " + destination + " " + IntToString(port)) == Connect(destination, port)
  {
    var t := IntToString(port);
    ParseIntRoundTrip(port);
    ParseConnectLine(destination, t);
    DispatchConnect(destination, t);
  }

  lemma ParseRenderTerminate(id: int)
    requires IntMin <= id <= IntMax
    ensures Parse("terminate " + IntToString(id)) == Terminate(id)
  {
    var t := IntToString(id);
    IntTextHasNoSpace(id);
    ParseIntRoundTrip(id);
    ParseTerminateLine(t);
    DispatchTerminate(t);
  }

  /** The third token of `send` keeps every space of the message. */
  lemma ParseRenderSend(id: int, message: string)
    requires IntMin <= id <= IntMax
    ensures Parse("send " + IntToString(id) + " " + message) == Send(id, message)
  {
    var t := IntToString(id);
    IntTextHasNoSpace(id);
    ParseIntRoundTrip(id);
    ParseSendLine(t, message);
    DispatchSend(t, message);
  }

  /** The commands without arguments, each typed as its bare name. */
  lemma ParseHelp() ensures Parse("help") == Help { ParseWord("help"); }
  lemma ParseMyIp() ensures Parse("myip") == MyIp { ParseWord("myip"); }
  lemma ParseMyPort() ensures Parse("myport") == MyPort { ParseWord("myport"); }
  lemma ParseList() ensures Parse("list") == List { ParseWord("list"); }
  lemma ParseExit() ensures Parse("exit") == Exit { ParseWord("exit"); }

  /**
   * Parsing a line in the documented form gives back the command; in
   * particular the message of `send` keeps all its spaces.
   */
  lemma ParseRender(c: Command)
    requires IsRequest(c)
    ensures Parse(Render(c)) == c
  {
    match c {
      case Connect(destination, port) => ParseRenderConnect(destination, port);
      case Terminate(id) => ParseRenderTerminate(id);
      case Send(id, message) => ParseRenderSend(id, message);
      case Help => ParseHelp();
      case MyIp => ParseMyIp();
      case MyPort => ParseMyPort();
      case List => ParseList();
      case Exit => ParseExit();
    }
  }

  /**
   * Command names match whatever their case: lines that differ only in the
   * case of the command word parse to the same command.
   */
  lemma CommandNameIgnoresCase(a: string, b: string, rest: string)
    requires EqualsIgnoreCase(a, b) && NoSpace(a) && NoSpace(b)
    requires rest == [] || rest[0] == ' '
    ensures Parse(a + rest) == Parse(b + rest)
  {
    EqualsIgnoreCaseIsLowered(a, b);
    SplitAfterWord(a, rest);
    SplitAfterWord(b, rest);
    var ta := Split3(a + rest);
    var tb := Split3(b + rest);
    assert ta[1..] == tb[1..];
    DispatchIgnoresFirstToken(Lowered(a), ta, tb);
  }

  /**
   * A line asks to connect or send only with three tokens and an int in the
   * numeric slot, and to terminate only with at least two tokens and an int id.
   */
  lemma ConnectNeedsThreeTokens(line: string)
    ensures Parse(line).Connect? ==> |Split3(line)| == 3 && ParseInt(Split3(line)[2]) == Some(Parse(line).port)
    ensures Parse(line).Terminate? ==> |Split3(line)| >= 2 && ParseInt(Split3(line)[1]) == Some(Parse(line).id)
    ensures Parse(line).Send? ==> |Split3(line)| == 3 && ParseInt(Split3(line)[1]) == Some(Parse(line).id)
  {
  }

  /**
   * A connect line whose port token `parseInt` rejects is reported invalid
   * and asks for nothing: an empty token (`connect h `), a lone sign, a
   * non-digit, or a numeral outside the int range.
   */
  lemma NonNumericPortIsInvalid(destination: string, port: string)
    requires NoSpace(destination)
    requires NotAnInt(port)
    ensures Parse("connect " + destination + " " + port) == InvalidPort
  {
    ParseIntRejectsExactly(port);
    ParseConnect(destination, port);
  }

  /** Likewise for the id token of `terminate`. */
  lemma NonNumericTerminateIdIsInvalid(id: string)
    requires NoSpace(id)
    requires NotAnInt(id)
    ensures Parse("terminate " + id) == InvalidId
  {
    ParseIntRejectsExactly(id);
    ParseTerminate(id);
  }

  /** Likewise for the id token of `send`; nothing is sent. */
  lemma NonNumericSendIdIsInvalid(id: string, message: string)
    requires NoSpace(id)
    requires NotAnInt(id)
    ensures Parse("send " + id + " " + message) == InvalidId
  {
    ParseIntRejectsExactly(id);
    ParseSend(id, message);
  }
}

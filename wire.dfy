/**
 * What travels over a connection: the text `send` writes (a sender line,
 * the message, a line terminator) and how the receiving side cuts the
 * incoming character stream into lines, as `BufferedReader.readLine` does.
 */
module Wire {
  import opened Text

  predicate IsBreak(c: char) {
    c == '\n' || c == '\r'
  }

  predicate NoBreaks(s: string) {
    forall k :: 0 <= k < |s| ==> !IsBreak(s[k])
  }

  /** The terminators `PrintWriter.println` may write: the platform's line separator. */
  predicate IsLineSeparator(sep: string) {
    sep == "\n" || sep == "\r\n"
  }

  /** The first line of every sent message, naming the sender's address. */
  function SenderLine(myIp: string): string {
    "Message from " + myIp + ":"
  }

  /** The string `send` hands to the connection: sender line, a line feed, the message. */
  function OutboundMessage(myIp: string, message: string): string {
    SenderLine(myIp) + "\n" + message
  }

  /** What `println` puts on the stream for that string. */
  function WireText(myIp: string, message: string, sep: string): (r: string)
    ensures |SenderLine(myIp)| < |r| && r[..|SenderLine(myIp)|] == SenderLine(myIp)
    ensures |sep| <= |r| && r[|r| - |sep|..] == sep
  {
    OutboundMessage(myIp, message) + sep
  }

  /** Index of the first line break, or the length of the string when there is none. */
  function BreakIndex(s: string): (i: nat)
    ensures i <= |s|
    ensures forall k :: 0 <= k < i ==> !IsBreak(s[k])
    ensures i < |s| ==> IsBreak(s[i])
  {
    if s == [] || IsBreak(s[0]) then 0 else 1 + BreakIndex(s[1..])
  }

  /**
   * `t` is what `readLine` consumes after a line when `rest` follows: nothing
   * at the end of the stream, otherwise "\n", "\r\n", or a "\r" that no "\n"
   * follows.
   */
  predicate EndsLine(t: string, rest: string) {
    || (t == [] && rest == [])
    || t == "\n"
    || t == "\r\n"
    || (t == "\r" && (rest == [] || rest[0] != '\n'))
  }

  /**
   * `readLine`: `None` at end of stream; otherwise the characters up to the
   * first "\n", "\r" or "\r\n" (or to the end of the stream), and what
   * follows that terminator.
   */
  function ReadLine(s: string): (r: Option<(string, string)>)
    ensures r.None? <==> s == []
    ensures r.Some? ==> NoBreaks(r.value.0) && |r.value.1| < |s|
    ensures r.Some? ==> var (line, rest) := r.value;
      && |line| + |rest| <= |s|
      && line == s[..BreakIndex(s)]
      && rest == s[|s| - |rest|..]
      && EndsLine(s[|line|..|s| - |rest|], rest)
  {
    if s == [] then None
    else
      var i := BreakIndex(s);
      if i == |s| then Some((s, []))
      else if s[i] == '\r' && i + 1 < |s| && s[i + 1] == '\n' then Some((s[..i], s[i + 2..]))
      else Some((s[..i], s[i + 1..]))
  }

  /** Every line the receiving side reads before end of stream. */
  function ReadLines(s: string): (r: seq<string>)
    ensures |r| <= |s|
    ensures forall k :: 0 <= k < |r| ==> NoBreaks(r[k])
    decreases |s|
  {
    match ReadLine(s)
    case None => []
    case Some(p) => [p.0] + ReadLines(p.1)
  }

  /** The receiving loop of a connection: read lines until end of stream. */
  method ReceiveAll(stream: string) returns (lines: seq<string>)
    ensures lines == ReadLines(stream)
  {
    lines := [];
    var rest := stream;
    while rest != []
      invariant lines + ReadLines(rest) == ReadLines(stream)
      decreases |rest|
    {
      ReadLinesStep(lines, rest);
      var p := ReadLine(rest).value;
      lines := lines + [p.0];
      rest := p.1;
    }
  }

  /** Reading one more line moves it from the stream to the lines already read. */
  lemma ReadLinesStep(done: seq<string>, s: string)
    requires s != []
    ensures done + ReadLines(s) == (done + [ReadLine(s).value.0]) + ReadLines(ReadLine(s).value.1)
  {
    var p := ReadLine(s).value;
    assert ReadLines(s) == [p.0] + ReadLines(p.1);
  }

  /** A line without breaks followed by a terminator is read back as itself. */
  lemma ReadLineOfLine(line: string, sep: string, rest: string)
    requires NoBreaks(line) && IsLineSeparator(sep)
    ensures ReadLine(line + sep + rest) == Some((line, rest))
  {
    var s := line + sep + rest;
    var i := BreakIndex(s);
    assert s[|line|] == sep[0];
    assert forall k | 0 <= k < |line| :: s[k] == line[k];
    assert i == |line| && s[..i] == line;
    if sep == "\n" {
      assert s[i] == '\n' && s[i + 1..] == rest;
    } else {
      assert s[i] == '\r' && s[i + 1] == '\n' && s[i + 2..] == rest;
    }
  }

  lemma SenderLineNoBreaks(myIp: string)
    requires NoBreaks(myIp)
    ensures NoBreaks(SenderLine(myIp))
  {
    var first := SenderLine(myIp);
    var n := |"Message from "|;
    forall k | 0 <= k < |first| ensures !IsBreak(first[k]) {
      if n <= k < n + |myIp| { assert first[k] == myIp[k - n]; }
    }
  }

  lemma ReadLinesOfLine(line: string, sep: string, rest: string)
    requires NoBreaks(line) && IsLineSeparator(sep)
    ensures ReadLines(line + sep + rest) == [line] + ReadLines(rest)
  {
    ReadLineOfLine(line, sep, rest);
  }

  /** What one send writes, followed by anything, is read as its two lines and then the rest. */
  lemma WireTextLines(myIp: string, message: string, sep: string, later: string)
    requires NoBreaks(myIp) && NoBreaks(message) && IsLineSeparator(sep)
    ensures ReadLines(WireText(myIp, message, sep) + later) ==
      [SenderLine(myIp), message] + ReadLines(later)
  {
    var first := SenderLine(myIp);
    var head := first + "\n";
    var tail := message + sep + later;
    AppendAssoc(head + message, sep, later);
    AppendAssoc(head, message, sep + later);
    AppendAssoc(message, sep, later);
    assert WireText(myIp, message, sep) + later == first + "\n" + tail;
    SenderLineNoBreaks(myIp);
    ReadLinesOfLine(first, "\n", tail);
    ReadLinesOfLine(message, sep, later);
  }

  /** The receiver reads a sent message as two lines: the sender line, then the message. */
  lemma WireRoundTrip(myIp: string, message: string, sep: string)
    requires NoBreaks(myIp) && NoBreaks(message) && IsLineSeparator(sep)
    ensures ReadLines(WireText(myIp, message, sep)) == [SenderLine(myIp), message]
  {
    var w := WireText(myIp, message, sep);
    assert w + [] == w;
    WireTextLines(myIp, message, sep, []);
  }

  /** Everything written by successive sends on one connection, in order. */
  function Transmitted(myIp: string, messages: seq<string>, sep: string): string
    decreases |messages|
  {
    if messages == [] then [] else WireText(myIp, messages[0], sep) + Transmitted(myIp, messages[1..], sep)
  }

  /** The lines a receiver should see for those sends: sender line, message, and so on. */
  function ExpectedLines(myIp: string, messages: seq<string>): (r: seq<string>)
    decreases |messages|
  {
    if messages == [] then [] else [SenderLine(myIp), messages[0]] + ExpectedLines(myIp, messages[1..])
  }

  /**
   * Messages arrive exactly as sent and in the order sent: the receiver
   * reads back every message body, each after its sender line.
   */
  lemma {:induction false} StreamPreservesOrder(myIp: string, messages: seq<string>, sep: string)
    requires NoBreaks(myIp) && IsLineSeparator(sep)
    requires forall k :: 0 <= k < |messages| ==> NoBreaks(messages[k])
    ensures ReadLines(Transmitted(myIp, messages, sep)) == ExpectedLines(myIp, messages)
    decreases |messages|
  {
    if messages != [] {
      var later := Transmitted(myIp, messages[1..], sep);
      WireTextLines(myIp, messages[0], sep, later);
      StreamPreservesOrder(myIp, messages[1..], sep);
    }
  }
}

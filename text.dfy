/**
 * Decimal text of Java `int` values: the rendering used when an int is
 * concatenated into a string, and `Integer.parseInt`, which the command
 * shell applies to the port and connection-id tokens.
 */
module Text {

  datatype Option<T> = None | Some(value: T)

  /** The range of a Java `int`. */
  const IntMin: int := -0x8000_0000
  const IntMax: int := 0x7fff_ffff

  lemma AppendAssoc(a: string, b: string, c: string)
    ensures a + b + c == a + (b + c)
  {
  }

  predicate IsDigit(c: char) {
    '0' <= c <= '9'
  }

  predicate AllDigits(s: string) {
    forall k :: 0 <= k < |s| ==> IsDigit(s[k])
  }

  /** Characters that can occur in the decimal text of an int. */
  predicate IsNumeralChar(c: char) {
    IsDigit(c) || c == '-'
  }

  function DigitChar(d: nat): (c: char)
    requires d < 10
    ensures IsDigit(c) && c as int - '0' as int == d
  {
    ('0' as int + d) as char
  }

  /** Decimal text of a non-negative number, without leading zeros. */
  function NatToString(n: nat): (r: string)
    ensures |r| >= 1 && AllDigits(r)
    ensures r[0] == '0' ==> n == 0
    decreases n
  {
    if n < 10 then [DigitChar(n)] else NatToString(n / 10) + [DigitChar(n % 10)]
  }

  /** Decimal text of an int, as string concatenation writes it. */
  function IntToString(i: int): (r: string)
    ensures |r| >= 1
    ensures forall k :: 0 <= k < |r| ==> IsNumeralChar(r[k])
    ensures (r[0] == '-') == (i < 0)
  {
    if i < 0 then "-" + NatToString(-i) else NatToString(i)
  }

  /** The value of a string of decimal digits (leading zeros allowed). */
  function DigitsValue(s: string): nat
    requires AllDigits(s)
    decreases |s|
  {
    if s == [] then 0 else DigitsValue(s[..|s| - 1]) * 10 + (s[|s| - 1] as int - '0' as int)
  }

  /** The shapes `Integer.parseInt` accepts: an optional sign and at least one digit. */
  predicate IsNumeral(s: string) {
    if |s| >= 1 && (s[0] == '-' || s[0] == '+') then |s| >= 2 && AllDigits(s[1..])
    else |s| >= 1 && AllDigits(s)
  }

  /** `Integer.parseInt` before its range check. */
  function ParseDecimal(s: string): Option<int> {
    if !IsNumeral(s) then None
    else if s[0] == '-' then Some(-(DigitsValue(s[1..]) as int))
    else if s[0] == '+' then Some(DigitsValue(s[1..]))
    else Some(DigitsValue(s))
  }

  /**
   * `Integer.parseInt(s)`: `None` stands for the NumberFormatException it
   * throws on a malformed numeral or on a value outside the int range.
   */
  function ParseInt(s: string): (r: Option<int>)
    ensures r.Some? ==> IsNumeral(s) && IntMin <= r.value <= IntMax
  {
    match ParseDecimal(s)
    case Some(n) => if IntMin <= n <= IntMax then Some(n) else None
    case None => None
  }

  lemma {:induction false} DigitsValueOfNatToString(n: nat)
    ensures DigitsValue(NatToString(n)) == n
    decreases n
  {
    if n >= 10 {
      var a := NatToString(n / 10);
      var s := a + [DigitChar(n % 10)];
      assert s[..|s| - 1] == a;
      DigitsValueOfNatToString(n / 10);
    }
  }

  /** Reading back the text of any int gives the int. */
  lemma ParseDecimalRoundTrip(i: int)
    ensures ParseDecimal(IntToString(i)) == Some(i)
  {
    var s := IntToString(i);
    if i < 0 {
      assert s[1..] == NatToString(-i);
      DigitsValueOfNatToString(-i);
    } else {
      DigitsValueOfNatToString(i);
    }
  }

  /** `Integer.parseInt` reads back the text of every int in range. */
  lemma ParseIntRoundTrip(i: int)
    requires IntMin <= i <= IntMax
    ensures ParseInt(IntToString(i)) == Some(i)
  {
    ParseDecimalRoundTrip(i);
  }

  /** Distinct ints have distinct texts. */
  lemma IntToStringInjective(a: int, b: int)
    requires IntToString(a) == IntToString(b)
    ensures a == b
  {
    ParseDecimalRoundTrip(a);
    ParseDecimalRoundTrip(b);
  }

  /** A token with a character that is neither a digit nor a leading sign is rejected. */
  lemma ParseIntRejectsNonDigit(s: string, k: nat)
    requires k < |s| && !IsDigit(s[k])
    requires k > 0 || (s[k] != '-' && s[k] != '+')
    ensures ParseInt(s) == None
  {
    if |s| >= 1 && (s[0] == '-' || s[0] == '+') {
      assert s[1..][k - 1] == s[k];
    }
  }

  /** A character that is neither a digit nor a sign in front. */
  predicate HasStrayChar(s: string) {
    exists k :: 0 <= k < |s| && !IsDigit(s[k]) && (k > 0 || (s[k] != '-' && s[k] != '+'))
  }

  /**
   * The tokens `Integer.parseInt` throws on: the empty string, a lone sign,
   * a stray character, or a numeral whose value does not fit in an int.
   */
  predicate NotAnInt(s: string) {
    || s == [] || s == "+" || s == "-"
    || HasStrayChar(s)
    || (IsNumeral(s) && !(IntMin <= ParseDecimal(s).value <= IntMax))
  }

  /** `Integer.parseInt` fails on exactly those tokens. */
  lemma ParseIntRejectsExactly(s: string)
    ensures ParseInt(s) == None <==> NotAnInt(s)
  {
    if HasStrayChar(s) {
      var k :| 0 <= k < |s| && !IsDigit(s[k]) && (k > 0 || (s[k] != '-' && s[k] != '+'));
      ParseIntRejectsNonDigit(s, k);
    }
    if !IsNumeral(s) && |s| >= 1 {
      if s[0] == '-' || s[0] == '+' {
        if |s| >= 2 {
          var j :| 0 <= j < |s[1..]| && !IsDigit(s[1..][j]);
          assert s[j + 1] == s[1..][j];
        }
      } else {
        var j :| 0 <= j < |s| && !IsDigit(s[j]);
      }
    }
  }

  /** The text of a value that does not fit in an int is rejected. */
  lemma ParseIntRejectsOutOfRange(i: int)
    requires i < IntMin || IntMax < i
    ensures ParseInt(IntToString(i)) == None
  {
    ParseDecimalRoundTrip(i);
  }
}

/** The pieces of JavaScript string semantics the core relies on: the
    whitespace class (`\s`, and what `parseInt` skips) and the global
    `parseInt` without a radix argument. */
module JsText {
  import opened Wrappers
  import opened Clock

  /** ECMAScript WhiteSpace and LineTerminator code points. */
  predicate IsWhitespace(c: char) {
    var n := c as int;
    || n == 0x09 || n == 0x0A || n == 0x0B || n == 0x0C || n == 0x0D || n == 0x20
    || n == 0xA0 || n == 0x1680 || (0x2000 <= n <= 0x200A)
    || n == 0x2028 || n == 0x2029 || n == 0x202F || n == 0x205F || n == 0x3000 || n == 0xFEFF
  }

  /** `s` without its leading whitespace. */
  function TrimStart(s: string): (r: string)
    ensures |r| <= |s| && r == s[|s| - |r|..]
    ensures r == [] || !IsWhitespace(r[0])
  {
    if s != [] && IsWhitespace(s[0]) then TrimStart(s[1..]) else s
  }

  /** The value of `c` as a digit in base 10 or 16. */
  function RadixDigit(c: char, radix: int): (d: Option<int>)
    ensures d.Some? ==> 0 <= d.value < radix
    ensures radix == 10 ==> (d.Some? <==> IsDigit(c))
    ensures radix == 10 && IsDigit(c) ==> d == Some(DigitValue(c))
  {
    if IsDigit(c) && DigitValue(c) < radix then Some(DigitValue(c))
    else if radix == 16 && 'a' <= c <= 'f' then Some(c as int - 'a' as int + 10)
    else if radix == 16 && 'A' <= c <= 'F' then Some(c as int - 'A' as int + 10)
    else None
  }

  predicate AllDigits(s: string, radix: int) {
    forall k :: 0 <= k < |s| ==> RadixDigit(s[k], radix).Some?
  }

  /** The length of the longest prefix of `s` made of digits. */
  function LeadingDigits(s: string, radix: int): (n: nat)
    ensures n <= |s| && AllDigits(s[..n], radix)
    ensures n < |s| ==> RadixDigit(s[n], radix).None?
  {
    if s == [] || RadixDigit(s[0], radix).None? then 0
    else
      var n := 1 + LeadingDigits(s[1..], radix);
      assert forall k :: 1 <= k < n ==> s[..n][k] == s[1..][..n - 1][k - 1];
      n
  }

  /** The number that a string of digits denotes. */
  function DigitsValue(s: string, radix: int): (v: nat)
    requires AllDigits(s, radix) && radix > 0
  {
    if s == [] then 0
    else DigitsValue(s[..|s| - 1], radix) * radix + RadixDigit(s[|s| - 1], radix).value
  }

  /** The unsigned part of `parseInt`: a "0x" or "0X" prefix selects base
      16, then the longest run of digits is read; `None` when there is
      none. */
  function ParseUnsigned(u: string): Option<int> {
    var hex := |u| >= 2 && u[0] == '0' && (u[1] == 'x' || u[1] == 'X');
    var body := if hex then u[2..] else u;
    var radix := if hex then 16 else 10;
    var n := LeadingDigits(body, radix);
    if n == 0 then None else Some(DigitsValue(body[..n], radix))
  }

  /** `parseInt(s)` with no radix: leading whitespace skipped, then an
      optional sign; `None` is `NaN`. */
  function ParseInt(s: string): Option<int> {
    var t := TrimStart(s);
    if |t| > 0 && t[0] == '-' then
      match ParseUnsigned(t[1..])
      case None => None
      case Some(v) => Some(-v)
    else if |t| > 0 && t[0] == '+' then ParseUnsigned(t[1..])
    else ParseUnsigned(t)
  }

  /** The decimal text of a natural number, without leading zeros. */
  function DecimalString(n: nat): (s: string)
    ensures |s| >= 1 && forall k :: 0 <= k < |s| ==> IsDigit(s[k])
    ensures |s| >= 2 ==> s[0] != '0'
  {
    if n < 10 then [DigitChar(n)] else DecimalString(n / 10) + [DigitChar(n % 10)]
  }

  /** The decimal text of an integer, as `String(i)` writes it. */
  function IntString(i: int): string {
    if i < 0 then "-" + DecimalString(-i) else DecimalString(i)
  }

  lemma {:induction false} DecimalValue(n: nat)
    ensures AllDigits(DecimalString(n), 10)
    ensures DigitsValue(DecimalString(n), 10) == n
  {
    var s := DecimalString(n);
    if n >= 10 {
      DecimalValue(n / 10);
      assert s[..|s| - 1] == DecimalString(n / 10);
    }
  }

  /** `parseInt` reads back what `String` writes. */
  lemma ParseIntString(i: int)
    ensures ParseInt(IntString(i)) == Some(i)
  {
    var m: nat := if i < 0 then -i else i;
    var digits := DecimalString(m);
    ParseUnsignedDecimal(m);
    var s := IntString(i);
    if i < 0 {
      assert s == ['-'] + digits;
      NoLeadingWhitespace(s);
      assert s[1..] == digits;
    } else {
      assert s == digits;
      NoLeadingWhitespace(s);
    }
  }

  lemma NoLeadingWhitespace(s: string)
    requires |s| > 0 && (s[0] == '-' || IsDigit(s[0]))
    ensures TrimStart(s) == s
  {
  }

  lemma ParseUnsignedDecimal(m: nat)
    ensures ParseUnsigned(DecimalString(m)) == Some(m)
  {
    var digits := DecimalString(m);
    DecimalValue(m);
    assert |digits| < 2 || digits[0] != '0';
    AllDigitsLead(digits, 10);
    assert digits[..|digits|] == digits;
  }

  /** A string of digits is its own longest digit prefix. */
  lemma AllDigitsLead(s: string, radix: int)
    requires AllDigits(s, radix)
    ensures LeadingDigits(s, radix) == |s|
  {
  }
}

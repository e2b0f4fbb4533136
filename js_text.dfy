/** The few JavaScript string and number conversions the chat server, its Redis
    client and its browser client rely on: the white-space class of `\s` and of
    `parseInt`, `Number.prototype.toString` on integers, and `parseInt(s, 10)`. */
module JsText {

  /** What `parseInt` returns: an integer, or NaN when no digit follows the
      optional sign. */
  datatype Parsed = Number(v: int) | NaN

  /** JavaScript white space and line terminators: the characters `\s` matches
      and the ones `parseInt` skips before the sign (TAB, VT, FF, SP, NBSP,
      ZWNBSP, the Unicode space separators, LF, CR, LS, PS). */
  predicate IsWhitespace(c: char)
  {
    c == '\t' || c == '\n' || c == '\U{B}' || c == '\U{C}' || c == '\r' || c == ' '
    || c == '\U{A0}' || c == '\U{1680}' || ('\U{2000}' <= c <= '\U{200A}')
    || c == '\U{2028}' || c == '\U{2029}' || c == '\U{202F}' || c == '\U{205F}'
    || c == '\U{3000}' || c == '\U{FEFF}'
  }

  predicate IsDigit(c: char)
  {
    '0' <= c <= '9'
  }

  predicate AllDigits(s: string)
  {
    forall i :: 0 <= i < |s| ==> IsDigit(s[i])
  }

  function DigitValue(c: char): (d: nat)
    requires IsDigit(c)
    ensures d < 10
  {
    c as int - '0' as int
  }

  function DigitChar(d: nat): (c: char)
    requires d < 10
    ensures IsDigit(c) && DigitValue(c) == d
  {
    ('0' as int + d) as char
  }

  /** The number a run of decimal digits denotes, read most significant first. */
  function DigitsValue(s: string): nat
    requires AllDigits(s)
  {
    if s == [] then 0 else DigitsValue(s[..|s| - 1]) * 10 + DigitValue(s[|s| - 1])
  }

  /** `k.toString()` for a non-negative integer: its shortest decimal form. */
  function NatToString(k: nat): (s: string)
    ensures |s| >= 1 && AllDigits(s)
    ensures s[0] == '0' ==> k == 0 && s == "0"
  {
    if k < 10 then [DigitChar(k)] else NatToString(k / 10) + [DigitChar(k % 10)]
  }

  /** `k.toString()` for an integer (JavaScript prints integers in this range
      without an exponent). */
  function IntToString(k: int): (s: string)
    ensures |s| >= 1 && s[0] != '+' && !IsWhitespace(s[0])
    ensures s[0] == '-' <==> k < 0
  {
    if k < 0 then "-" + NatToString(-k) else NatToString(k)
  }

  /** The white space `parseInt` skips before the sign. */
  function SkipWhitespace(s: string): (r: string)
    ensures |r| <= |s| && r == s[|s| - |r|..]
    ensures r == [] || !IsWhitespace(r[0])
  {
    if s != [] && IsWhitespace(s[0]) then SkipWhitespace(s[1..]) else s
  }

  /** The longest run of decimal digits at the start of `s`. */
  function DigitPrefix(s: string): (r: string)
    ensures |r| <= |s| && r == s[..|r|] && AllDigits(r)
    ensures |r| < |s| ==> !IsDigit(s[|r|])
  {
    if s != [] && IsDigit(s[0]) then [s[0]] + DigitPrefix(s[1..]) else []
  }

  /** `parseInt(s, 10)`: skip white space, read an optional sign, then the
      longest run of decimal digits; NaN when that run is empty. */
  function ParseInt(s: string): Parsed
  {
    var t := SkipWhitespace(s);
    var negative := t != [] && t[0] == '-';
    var u := if t != [] && (t[0] == '-' || t[0] == '+') then t[1..] else t;
    var d := DigitPrefix(u);
    if d == [] then NaN
    else if negative then Number(-(DigitsValue(d) as int))
    else Number(DigitsValue(d))
  }

  lemma {:induction false} NatToStringValue(k: nat)
    ensures DigitsValue(NatToString(k)) == k
  {
    if k >= 10 {
      NatToStringValue(k / 10);
      var s := NatToString(k);
      assert s[..|s| - 1] == NatToString(k / 10);
    }
  }

  lemma {:induction false} DigitPrefixOfDigits(s: string)
    requires AllDigits(s)
    ensures DigitPrefix(s) == s
  {
    if s != [] {
      DigitPrefixOfDigits(s[1..]);
    }
  }

  /** `Array.prototype.join(sep)` on an array of strings. */
  function JoinWith(parts: seq<string>, sep: string): string
  {
    if parts == [] then ""
    else if |parts| == 1 then parts[0]
    else parts[0] + sep + JoinWith(parts[1..], sep)
  }

  /** `parseInt(k.toString(), 10) == k`: the integers the client prints in its
      requests and the server prints in its replies read back unchanged. */
  lemma ParseIntToString(k: int)
    ensures ParseInt(IntToString(k)) == Number(k)
  {
    var s := IntToString(k);
    assert SkipWhitespace(s) == s;
    var digits := NatToString(if k < 0 then -k else k);
    if k < 0 {
      assert s[1..] == digits;
    }
    DigitPrefixOfDigits(digits);
    NatToStringValue(if k < 0 then -k else k);
  }
}

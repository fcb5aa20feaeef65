/** The parts of ECMAScript semantics the client's logic relies on, written
    out over unbounded integers and Unicode strings: 32-bit wrap-around,
    the sign-of-dividend remainder, `String.prototype.trim`, UTF-16 code
    units, `String(number)` and `parseInt`. */
module JsSemantics {
  import opened EventTypes

  const TwoTo32: int := 0x1_0000_0000
  const TwoTo31: int := 0x8000_0000

  /** ECMAScript ToInt32: reduce modulo 2^32 into the signed 32-bit range. */
  function ToInt32(x: int): (r: int)
    ensures -TwoTo31 <= r < TwoTo31
    ensures (x - r) % TwoTo32 == 0
    ensures -TwoTo31 <= x < TwoTo31 ==> r == x
  {
    var m := x % TwoTo32;
    if m >= TwoTo31 then m - TwoTo32 else m
  }

  /** The `%` operator on integral numbers with a positive divisor: the
      remainder takes the sign of the dividend (truncating division). */
  function Remainder(a: int, d: int): (r: int)
    requires d > 0
    ensures -d < r < d
    ensures a >= 0 ==> r >= 0
    ensures a <= 0 ==> r <= 0
    ensures (a - r) % d == 0
  {
    if a >= 0 then
      var q := a / d;
      assert a - a % d == q * d;
      MultipleOfDivisor(q, d);
      a % d
    else
      var q := (-a) / d;
      assert a + (-a) % d == (-q) * d;
      MultipleOfDivisor(-q, d);
      -((-a) % d)
  }

  /** Every multiple of a positive divisor leaves no remainder. */
  lemma MultipleOfDivisor(q: int, d: int)
    requires d > 0
    ensures (q * d) % d == 0
  {
    var k, m := (q * d) / d, (q * d) % d;
    assert (q - k) * d == m;
    ProductBounds(q - k, d);
  }

  /** A nonzero multiple of a positive number is at least that number away
      from zero. */
  lemma ProductBounds(c: int, d: int)
    requires d > 0
    ensures c >= 1 ==> c * d >= d
    ensures c <= -1 ==> c * d <= -d
  {
  }

  /** Unlike a floored modulus, the remainder is odd in its dividend. */
  lemma RemainderOfNegation(a: int, d: int)
    requires d > 0
    ensures Remainder(-a, d) == -Remainder(a, d)
  {
  }

  /** WhiteSpace and LineTerminator code points of ECMAScript, the set that
      `trim` removes. */
  predicate IsWhitespace(c: char) {
    c == '\t' || c == '\n' || c == '\U{000B}' || c == '\U{000C}' || c == '\r' ||
    c == ' ' || c == '\U{00A0}' || c == '\U{1680}' ||
    ('\U{2000}' <= c <= '\U{200A}') ||
    c == '\U{2028}' || c == '\U{2029}' || c == '\U{202F}' || c == '\U{205F}' ||
    c == '\U{3000}' || c == '\U{FEFF}'
  }

  /** `s` without its leading whitespace. */
  function TrimStart(s: string): (r: string)
    ensures |r| <= |s| && r == s[|s| - |r|..]
    ensures forall i :: 0 <= i < |s| - |r| ==> IsWhitespace(s[i])
    ensures r != [] ==> !IsWhitespace(r[0])
  {
    if s != [] && IsWhitespace(s[0]) then TrimStart(s[1..]) else s
  }

  /** `s` without its trailing whitespace. */
  function TrimEnd(s: string): (r: string)
    ensures |r| <= |s| && r == s[..|r|]
    ensures forall i :: |r| <= i < |s| ==> IsWhitespace(s[i])
    ensures r != [] ==> !IsWhitespace(r[|r| - 1])
  {
    if s != [] && IsWhitespace(s[|s| - 1]) then TrimEnd(s[..|s| - 1]) else s
  }

  /** `s.trim()`. */
  function Trim(s: string): string {
    TrimEnd(TrimStart(s))
  }

  /** `!s.trim()`: the trimmed string is empty, which is the case exactly
      when every character of `s` is whitespace. */
  predicate IsBlank(s: string)
    ensures IsBlank(s) <==> forall i :: 0 <= i < |s| ==> IsWhitespace(s[i])
  {
    var t := TrimStart(s);
    assert t == [] || !IsWhitespace(s[|s| - |t|]);
    Trim(s) == []
  }

  /** The UTF-16 code units of one code point. */
  function CodeUnits(c: char): (r: seq<int>)
    ensures 1 <= |r| <= 2
    ensures forall i :: 0 <= i < |r| ==> 0 <= r[i] < 0x1_0000
    ensures (c as int) < 0x1_0000 ==> r == [c as int]
    ensures (c as int) >= 0x1_0000 ==>
      && |r| == 2
      && 0xD800 <= r[0] < 0xDC00 && 0xDC00 <= r[1] < 0xE000
      && 0x1_0000 + (r[0] - 0xD800) * 0x400 + (r[1] - 0xDC00) == c as int
  {
    var v := c as int;
    if v < 0x1_0000 then [v]
    else [0xD800 + (v - 0x1_0000) / 0x400, 0xDC00 + (v - 0x1_0000) % 0x400]
  }

  /** `s.split('')` followed by `charCodeAt(0)` on each piece: the UTF-16
      code units of `s`, in order. */
  function Utf16(s: string): (r: seq<int>)
    ensures |r| >= |s|
    ensures forall i :: 0 <= i < |r| ==> 0 <= r[i] < 0x1_0000
  {
    if s == [] then [] else CodeUnits(s[0]) + Utf16(s[1..])
  }

  /** The code units of a concatenation are those of its parts, in order. */
  lemma {:induction false} Utf16Append(a: string, b: string)
    ensures Utf16(a + b) == Utf16(a) + Utf16(b)
  {
    if a == [] {
      assert a + b == b;
    } else {
      assert (a + b)[0] == a[0] && (a + b)[1..] == a[1..] + b;
      Utf16Append(a[1..], b);
      calc {
        Utf16(a + b);
        CodeUnits(a[0]) + Utf16(a[1..] + b);
        CodeUnits(a[0]) + (Utf16(a[1..]) + Utf16(b));
        (CodeUnits(a[0]) + Utf16(a[1..])) + Utf16(b);
      }
    }
  }

  /** For text inside the Basic Multilingual Plane there is one code unit
      per character, equal to its code point. */
  lemma {:induction false} Utf16OfBmp(s: string)
    requires forall i :: 0 <= i < |s| ==> (s[i] as int) < 0x1_0000
    ensures |Utf16(s)| == |s|
    ensures forall i :: 0 <= i < |s| ==> Utf16(s)[i] == s[i] as int
  {
    if s != [] {
      Utf16OfBmp(s[1..]);
    }
  }

  predicate IsDigit(c: char) {
    '0' <= c <= '9'
  }

  function DigitChar(d: int): (c: char)
    requires 0 <= d < 10
    ensures IsDigit(c) && (c as int) - ('0' as int) == d
  {
    (('0' as int) + d) as char
  }

  /** The decimal numeral of a natural number, without leading zeros. */
  function DecimalDigits(n: nat): (r: string)
    ensures r != []
    ensures forall i :: 0 <= i < |r| ==> IsDigit(r[i])
    ensures |r| > 1 ==> r[0] != '0'
  {
    if n < 10 then [DigitChar(n)] else DecimalDigits(n / 10) + [DigitChar(n % 10)]
  }

  /** `String(n)` for an integral number. */
  function NumberToString(n: int): (r: string)
    ensures r != []
    ensures n < 0 <==> r[0] == '-'
    ensures forall i :: (if n < 0 then 1 else 0) <= i < |r| ==> IsDigit(r[i])
    ensures n < 0 ==> |r| >= 2
    ensures |r| > (if n < 0 then 2 else 1) ==> r[if n < 0 then 1 else 0] != '0'
  {
    if n < 0 then "-" + DecimalDigits(-n) else DecimalDigits(n)
  }

  /** The value of a string of decimal digits. */
  function DigitsValue(s: string): nat
    requires forall i :: 0 <= i < |s| ==> IsDigit(s[i])
  {
    if s == [] then 0
    else
      assert IsDigit(s[|s| - 1]);
      DigitsValue(s[..|s| - 1]) * 10 + ((s[|s| - 1] as int) - ('0' as int))
  }

  /** The longest prefix of `s` made of decimal digits. */
  function DigitPrefix(s: string): (r: string)
    ensures |r| <= |s| && r == s[..|r|]
    ensures forall i :: 0 <= i < |r| ==> IsDigit(r[i])
    ensures |r| < |s| ==> !IsDigit(s[|r|])
  {
    if s != [] && IsDigit(s[0]) then [s[0]] + DigitPrefix(s[1..]) else []
  }

  predicate IsHexDigit(c: char) {
    IsDigit(c) || ('a' <= c <= 'f') || ('A' <= c <= 'F')
  }

  function HexDigitValue(c: char): (v: int)
    requires IsHexDigit(c)
    ensures 0 <= v < 16
  {
    if IsDigit(c) then (c as int) - ('0' as int)
    else if 'a' <= c <= 'f' then (c as int) - ('a' as int) + 10
    else (c as int) - ('A' as int) + 10
  }

  /** The longest prefix of `s` made of hexadecimal digits. */
  function HexPrefix(s: string): (r: string)
    ensures |r| <= |s| && r == s[..|r|]
    ensures forall i :: 0 <= i < |r| ==> IsHexDigit(r[i])
  {
    if s != [] && IsHexDigit(s[0]) then [s[0]] + HexPrefix(s[1..]) else []
  }

  function HexValue(s: string): nat
    requires forall i :: 0 <= i < |s| ==> IsHexDigit(s[i])
  {
    if s == [] then 0
    else HexValue(s[..|s| - 1]) * 16 + HexDigitValue(s[|s| - 1])
  }

  /** `parseInt(s)` without a radix: skip leading whitespace, read an
      optional sign, then a `0x`/`0X` prefixed hexadecimal or a decimal
      digit run, ignoring whatever follows. `None` stands for NaN. */
  function ParseInt(s: string): (r: Option<int>)
    ensures r.Some? ==> exists i :: 0 <= i < |s| && IsDigit(s[i])
  {
    var t := TrimStart(s);
    var sign := if t != [] && t[0] == '-' then -1 else 1;
    var body := if t != [] && (t[0] == '-' || t[0] == '+') then t[1..] else t;
    assert body == s[|s| - |body|..];
    if |body| >= 2 && body[0] == '0' && (body[1] == 'x' || body[1] == 'X') then
      var hex := HexPrefix(body[2..]);
      if hex == [] then None
      else
        assert IsDigit(s[|s| - |body|]);
        Some(sign * HexValue(hex))
    else
      var digits := DigitPrefix(body);
      if digits == [] then None
      else
        assert IsDigit(s[|s| - |body|]) by {
          assert digits[0] == body[0];
        }
        Some(sign * DigitsValue(digits))
  }

  lemma {:induction false} DigitsValueOfDecimal(n: nat)
    ensures DigitsValue(DecimalDigits(n)) == n
  {
    var r := DecimalDigits(n);
    if n >= 10 {
      DigitsValueOfDecimal(n / 10);
      assert r[..|r| - 1] == DecimalDigits(n / 10);
    }
  }

  lemma {:induction false} DigitPrefixOfDigits(s: string)
    requires forall i :: 0 <= i < |s| ==> IsDigit(s[i])
    ensures DigitPrefix(s) == s
  {
    if s != [] {
      DigitPrefixOfDigits(s[1..]);
    }
  }

  /** `parseInt(String(n)) === n` for every integral number. */
  lemma ParseIntOfNumberToString(n: int)
    ensures ParseInt(NumberToString(n)) == Some(n)
  {
    var s := NumberToString(n);
    var d := if n < 0 then DecimalDigits(-n) else DecimalDigits(n);
    assert !IsWhitespace(s[0]);
    assert TrimStart(s) == s;
    var body := if n < 0 then s[1..] else s;
    assert body == d;
    assert !(|d| >= 2 && d[1] == 'x');
    DigitPrefixOfDigits(d);
    DigitsValueOfDecimal(if n < 0 then -n else n);
  }

  /** `parseInt(String(undefined))` is NaN. */
  lemma ParseIntOfUndefined()
    ensures ParseInt("undefined") == None
  {
    assert TrimStart("undefined") == "undefined";
    assert DigitPrefix("undefined") == [];
  }
}

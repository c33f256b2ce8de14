/**
 * `chr(int(text, 16))` as the loader uses it (main.py): Python's base-16
 * integer syntax and the conversion of a code point to a character.
 */
module HexInt {
  import opened Wrappers
  import opened Text

  predicate IsHexDigit(c: char) {
    '0' <= c <= '9' || 'a' <= c <= 'f' || 'A' <= c <= 'F'
  }

  function DigitValue(c: char): (v: nat)
    requires IsHexDigit(c)
    ensures v < 16
  {
    if '0' <= c <= '9' then c as int - '0' as int
    else if 'a' <= c <= 'f' then c as int - 'a' as int + 10
    else c as int - 'A' as int + 10
  }

  predicate AllHexDigits(s: string) {
    forall k :: 0 <= k < |s| ==> IsHexDigit(s[k])
  }

  /** The value of a string of hex digits, most significant first. */
  function Value(s: string): nat
    requires AllHexDigits(s)
  {
    if s == [] then 0 else 16 * Value(s[..|s| - 1]) + DigitValue(s[|s| - 1])
  }

  /**
   * The digit part Python accepts: one or more hex digits, a single `_`
   * allowed between two digits.
   */
  predicate Grouped(s: string)
    decreases |s|
  {
    && s != []
    && IsHexDigit(s[0])
    && (|s| == 1 || if s[1] == '_' then |s| > 2 && Grouped(s[2..]) else Grouped(s[1..]))
  }

  /** The digits of a grouped string, underscores removed. */
  function Digits(s: string): (r: string)
    requires Grouped(s)
    ensures r != [] && AllHexDigits(r) && r[0] == s[0]
    decreases |s|
  {
    if |s| == 1 then [s[0]]
    else if s[1] == '_' then [s[0]] + Digits(s[2..])
    else [s[0]] + Digits(s[1..])
  }

  /** A grouped string holds only hex digits and underscores. */
  lemma {:induction false} GroupedChars(s: string)
    requires Grouped(s)
    ensures forall c :: c in s ==> IsHexDigit(c) || c == '_'
    decreases |s|
  {
    if |s| > 1 {
      if s[1] == '_' {
        GroupedChars(s[2..]);
        assert s == [s[0], s[1]] + s[2..];
      } else {
        GroupedChars(s[1..]);
        assert s == [s[0]] + s[1..];
      }
    }
  }

  /** A character that may appear in a base-16 numeral: digit, underscore, sign or the `x` of `0x`. */
  predicate NumeralChar(c: char) {
    IsHexDigit(c) || c == '_' || c == '+' || c == '-' || c == 'x' || c == 'X'
  }

  /** After an optional sign: drop an `0x`/`0X` prefix and one underscore right after it. */
  function DropPrefix(s: string): (r: string)
    ensures |r| <= |s|
    ensures forall c :: c in r ==> c in s
    ensures forall c :: c in s ==> c in r || NumeralChar(c)
  {
    if |s| >= 2 && s[0] == '0' && (s[1] == 'x' || s[1] == 'X') then
      if |s| >= 3 && s[2] == '_' then s[3..] else s[2..]
    else s
  }

  /** The numeral after an optional leading sign. */
  function Unsigned(t: string): (r: string)
    ensures forall c :: c in r ==> c in t
    ensures forall c :: c in t ==> c in r || NumeralChar(c)
  {
    if t != [] && (t[0] == '-' || t[0] == '+') then t[1..] else t
  }

  /**
   * The information separators U+001C..U+001F. `str.strip()` removes them,
   * but `int()` does not count them as whitespace, so a numeral holding one
   * anywhere is rejected.
   */
  predicate IsSeparatorControl(c: char) {
    '\U{1C}' <= c <= '\U{1F}'
  }

  /** The whitespace `int()` skips around a numeral. */
  predicate IsIntSpace(c: char) {
    IsSpace(c) && !IsSeparatorControl(c)
  }

  /**
   * `int(text, 16)`: surrounding whitespace, an optional sign, an optional
   * `0x` prefix, then grouped hex digits; anything else is a `ValueError`,
   * here `None`.
   */
  function ParseInt16(text: string): (r: Option<int>)
  {
    if exists k :: 0 <= k < |text| && IsSeparatorControl(text[k]) then None
    else
    var t := Strip(text);
    var negative := t != [] && t[0] == '-';
    var unsigned := Unsigned(t);
    var body := DropPrefix(unsigned);
    if Grouped(body) then
      var v: int := Value(Digits(body));
      Some(if negative then -v else v)
    else None
  }

  lemma {:induction false} DigitsOfPlainDigits(s: string)
    requires s != [] && AllHexDigits(s)
    ensures Grouped(s) && Digits(s) == s
  {
    if |s| > 1 {
      DigitsOfPlainDigits(s[1..]);
    }
  }

  /** A run of hex digits has no whitespace at its ends, no sign and no `0x` prefix. */
  lemma PlainDigitsBare(text: string)
    requires text != [] && AllHexDigits(text)
    ensures Trimmed(text)
    ensures Unsigned(text) == text && DropPrefix(text) == text
  {
    assert !IsSpace(text[0]) && !IsSpace(text[|text| - 1]);
  }

  /** A plain run of hex digits is read as its value. */
  lemma ParseInt16Digits(text: string)
    requires text != [] && AllHexDigits(text)
    ensures ParseInt16(text) == Some(Value(text))
  {
    PlainDigitsBare(text);
    StripUnchanged(text);
    DigitsOfPlainDigits(text);
  }

  /**
   * Whatever `int(text, 16)` accepts holds at least one hex digit, and
   * nothing but numeral characters and the whitespace `int()` skips.
   */
  lemma ParseInt16Accepts(text: string)
    requires ParseInt16(text).Some?
    ensures forall c :: c in text ==> NumeralChar(c) || IsIntSpace(c)
    ensures exists c :: c in text && IsHexDigit(c)
  {
    var t := Strip(text);
    var unsigned := Unsigned(t);
    var body := DropPrefix(unsigned);
    assert Grouped(body);
    GroupedChars(body);
    StripChars(text);
    assert forall c :: c in text ==> c in t || IsSpace(c);
    assert body[0] in unsigned;
  }

  /** Upper-case hex digit for a value below 16. */
  function HexDigit(d: nat): (c: char)
    requires d < 16
    ensures IsHexDigit(c) && DigitValue(c) == d
  {
    if d < 10 then ('0' as int + d) as char else ('A' as int + d - 10) as char
  }

  /** The shortest upper-case hex spelling of `n`, as in `U+4E2D`. */
  function ToHex(n: nat): (s: string)
    ensures s != [] && AllHexDigits(s)
    ensures |s| > 1 ==> s[0] != '0'
  {
    if n < 16 then [HexDigit(n)] else ToHex(n / 16) + [HexDigit(n % 16)]
  }

  lemma {:induction false} ValueToHex(n: nat)
    ensures Value(ToHex(n)) == n
  {
    if n >= 16 {
      var s := ToHex(n);
      assert s[..|s| - 1] == ToHex(n / 16);
      ValueToHex(n / 16);
    }
  }

  /** `int(h, 16)` reads back every value written as hex digits. */
  lemma HexRoundTrip(n: nat)
    ensures ParseInt16(ToHex(n)) == Some(n)
  {
    ValueToHex(n);
    ParseInt16Digits(ToHex(n));
  }

  /** The code points a Dafny `char` can hold: the Unicode scalar values. */
  predicate IsScalarValue(v: int) {
    0 <= v < 0xD800 || 0xE000 <= v < 0x11_0000
  }

  /**
   * `chr(v)`: `None` (Python's `ValueError`) outside the Unicode scalar
   * values.
   */
  function CodePointChar(v: int): (r: Option<char>)
    ensures r.Some? <==> IsScalarValue(v)
    ensures r.Some? ==> r.value as int == v
  {
    if IsScalarValue(v) then Some(v as char) else None
  }
}

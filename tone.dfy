/**
 * `remove_tone` (main.py): a romanised syllable loses its tone digits and
 * its tone-marked vowels become plain letters, the u-umlaut forms becoming `v`.
 */
module Tone {
  /** A tone digit. Only the ASCII digits are modelled. */
  predicate IsDigit(c: char) {
    '0' <= c <= '9'
  }

  /** The 25 tone-marked vowels and their plain letters. */
  const ToneMap: map<char, char> := map[
    '\U{0101}' := 'a', '\U{00E1}' := 'a', '\U{01CE}' := 'a', '\U{00E0}' := 'a',  // ā á ǎ à
    '\U{0113}' := 'e', '\U{00E9}' := 'e', '\U{011B}' := 'e', '\U{00E8}' := 'e',  // ē é ě è
    '\U{012B}' := 'i', '\U{00ED}' := 'i', '\U{01D0}' := 'i', '\U{00EC}' := 'i',  // ī í ǐ ì
    '\U{014D}' := 'o', '\U{00F3}' := 'o', '\U{01D2}' := 'o', '\U{00F2}' := 'o',  // ō ó ǒ ò
    '\U{016B}' := 'u', '\U{00FA}' := 'u', '\U{01D4}' := 'u', '\U{00F9}' := 'u',  // ū ú ǔ ù
    '\U{01D6}' := 'v', '\U{01D8}' := 'v', '\U{01DA}' := 'v', '\U{01DC}' := 'v',  // ǖ ǘ ǚ ǜ
    '\U{00FC}' := 'v'                                                             // ü
  ]

  /** Every tone mark lies between U+00E0 and U+01DC, every plain letter between `a` and `v`. */
  lemma ToneMapRanges()
    ensures forall c :: c in ToneMap ==> '\U{00E0}' <= c <= '\U{01DC}'
    ensures forall c :: c in ToneMap ==> 'a' <= ToneMap[c] <= 'v'
  {
  }

  /** `tone_map.get(c, c)`: the plain letter, never a tone mark, and a digit only when `c` was one. */
  function Base(c: char): (b: char)
    ensures b !in ToneMap && (IsDigit(b) <==> IsDigit(c))
    ensures c !in ToneMap ==> b == c
    ensures c in ToneMap ==> 'a' <= b <= 'v'
  {
    ToneMapRanges();
    if c in ToneMap then ToneMap[c] else c
  }

  /** Number of tone digits in `s`. */
  function DigitCount(s: string): nat
  {
    if s == [] then 0 else (if IsDigit(s[0]) then 1 else 0) + DigitCount(s[1..])
  }

  /** The first comprehension: the characters of `s` that are not digits, in order. */
  function DropDigits(s: string): (r: string)
    ensures |r| == |s| - DigitCount(s)
    ensures forall k :: 0 <= k < |r| ==> !IsDigit(r[k])
  {
    if s == [] then []
    else if IsDigit(s[0]) then DropDigits(s[1..])
    else [s[0]] + DropDigits(s[1..])
  }

  /** The second comprehension: every character replaced by its plain letter. */
  function MapTones(s: string): (r: string)
    ensures |r| == |s|
    ensures forall k :: 0 <= k < |s| ==> r[k] == Base(s[k])
  {
    if s == [] then [] else [Base(s[0])] + MapTones(s[1..])
  }

  /** `remove_tone`: neither a digit nor a tone-marked vowel is left, and only the digits are dropped. */
  function RemoveTone(s: string): (r: string)
    ensures |r| == |s| - DigitCount(s)
  {
    MapTones(DropDigits(s))
  }

  /** No digit and no tone-marked vowel is left in the result of `remove_tone`. */
  lemma RemoveToneClean(s: string)
    ensures forall k :: 0 <= k < |RemoveTone(s)| ==> !IsDigit(RemoveTone(s)[k]) && RemoveTone(s)[k] !in ToneMap
  {
    var d := DropDigits(s);
    assert RemoveTone(s) == MapTones(d);
  }

  lemma {:induction false} DropDigitsAppend(a: string, b: string)
    ensures DropDigits(a + b) == DropDigits(a) + DropDigits(b)
  {
    if a != [] {
      assert (a + b)[1..] == a[1..] + b;
      DropDigitsAppend(a[1..], b);
    } else {
      assert a + b == b;
    }
  }

  /**
   * The first comprehension works character by character: on a
   * concatenation it is the concatenation of its results, a digit
   * disappears and any other character is kept as it is. So the
   * non-digits of `s` are kept, in order.
   */
  lemma DropDigitsByCharacter(a: string, b: string, c: char)
    ensures DropDigits(a + b) == DropDigits(a) + DropDigits(b)
    ensures DropDigits([c]) == if IsDigit(c) then [] else [c]
  {
    DropDigitsAppend(a, b);
    assert [c][1..] == [];
  }

  lemma {:induction false} MapTonesAppend(a: string, b: string)
    ensures MapTones(a + b) == MapTones(a) + MapTones(b)
  {
    var l, r := MapTones(a + b), MapTones(a) + MapTones(b);
    assert |l| == |r|;
    forall k | 0 <= k < |l| ensures l[k] == r[k] {
      if k < |a| {
        assert (a + b)[k] == a[k];
      } else {
        assert (a + b)[k] == b[k - |a|];
      }
    }
  }

  /**
   * `remove_tone` works character by character: on a concatenation it is the
   * concatenation of its results, a digit disappears, and any other
   * character becomes its plain letter (unchanged when it is not a tone mark).
   * These two facts determine `RemoveTone` completely.
   */
  lemma RemoveToneByCharacter(a: string, b: string, c: char)
    ensures RemoveTone(a + b) == RemoveTone(a) + RemoveTone(b)
    ensures RemoveTone([c]) == if IsDigit(c) then [] else [Base(c)]
  {
    DropDigitsByCharacter(a, b, c);
    MapTonesAppend(DropDigits(a), DropDigits(b));
  }

  /** A string with no digit and no tone mark is left exactly as it is. */
  lemma {:induction false} RemoveTonePlain(s: string)
    requires forall k :: 0 <= k < |s| ==> !IsDigit(s[k]) && s[k] !in ToneMap
    ensures RemoveTone(s) == s
  {
    if s != [] {
      RemoveTonePlain(s[1..]);
      RemoveToneByCharacter([s[0]], s[1..], s[0]);
      assert s == [s[0]] + s[1..];
    }
  }

  /** Removing the tones twice is the same as removing them once. */
  lemma RemoveToneIdempotent(s: string)
    ensures RemoveTone(RemoveTone(s)) == RemoveTone(s)
  {
    RemoveToneClean(s);
    RemoveTonePlain(RemoveTone(s));
  }

  /** On a digit-free string every character stays at its place, tone marks replaced by plain letters. */
  lemma {:induction false} RemoveToneWithoutDigits(s: string)
    requires forall k :: 0 <= k < |s| ==> !IsDigit(s[k])
    ensures |RemoveTone(s)| == |s|
    ensures forall k :: 0 <= k < |s| ==> RemoveTone(s)[k] == Base(s[k])
  {
    if s != [] {
      RemoveToneWithoutDigits(s[1..]);
      RemoveToneByCharacter([s[0]], s[1..], s[0]);
      assert s == [s[0]] + s[1..];
    }
  }
}

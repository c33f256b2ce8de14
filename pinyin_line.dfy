/**
 * One line of the `pinyin.txt` data file as the loop body of
 * `load_pinyin_dict` (main.py) reads it: `U+4E2D: zhōng,zhòng  # 中`.
 */
module PinyinLine {
  import opened Wrappers
  import opened Text
  import opened HexInt

  /** What one line of the data file does to the index. */
  datatype LineOutcome =
    | Skip                                  // blank, a comment, no `#`, or an unreadable code point
    | Entry(ch: char, tokens: seq<string>)  // the character and its stripped readings
    | NoColon                               // `split(':', 1)` gives one part and the unpacking raises

  /** `code_point[2:]`: the text after the `U+`, empty for a shorter string. */
  function CodePointText(code: string): string {
    if |code| >= 2 then code[2..] else []
  }

  /** `[p.strip() for p in parts]` */
  function StripAll(parts: seq<string>): (r: seq<string>)
    ensures |r| == |parts|
    ensures forall k :: 0 <= k < |r| ==> r[k] == Strip(parts[k])
  {
    seq(|parts|, k requires 0 <= k < |parts| => Strip(parts[k]))
  }

  /** `chr(int(code_point[2:], 16))`, `None` where Python raises `ValueError`. */
  function DecodeCodePoint(code: string): (r: Option<char>)
    ensures r.Some? <==>
      ParseInt16(CodePointText(code)).Some? && IsScalarValue(ParseInt16(CodePointText(code)).value)
    ensures r.Some? ==> ParseInt16(CodePointText(code)) == Some(r.value as int)
  {
    match ParseInt16(CodePointText(code))
    case None => None
    case Some(v) => CodePointChar(v)
  }

  /** `[p.strip() for p in pinyin_str.split(',')]`: at least one reading, none holding a comma. */
  function Readings(pinyin: string): (r: seq<string>)
    ensures |r| >= 1
  {
    StripAll(Split(pinyin, ','))
  }

  /** No reading holds a comma. */
  lemma ReadingsNoComma(pinyin: string)
    ensures forall k :: 0 <= k < |Readings(pinyin)| ==> ',' !in Readings(pinyin)[k]
  {
    var pieces := Split(pinyin, ',');
    forall k | 0 <= k < |pieces| ensures ',' !in Strip(pieces[k]) {
      StripChars(pieces[k]);
    }
  }

  /**
   * The part before the `#`, stripped, split at its first `:` into the code
   * point and the readings.
   */
  function ParseFields(codePointPart: string): (r: LineOutcome)
    ensures r == NoColon <==> ':' !in codePointPart
    ensures r.Entry? ==> |r.tokens| >= 1
  {
    match SplitOnce(codePointPart, ':')
    case None => NoColon
    case Some(fields) =>
      match DecodeCodePoint(Strip(fields.0))
      case None => Skip
      case Some(ch) => Entry(ch, Readings(Strip(fields.1)))
  }

  /** A stripped line: blank lines, comments and lines without `#` are skipped. */
  function ParseStripped(line: string): (r: LineOutcome)
    ensures line == [] ==> r == Skip
    ensures line != [] && line[0] == '#' ==> r == Skip
    ensures '#' !in line ==> r == Skip
    ensures r == NoColon <==> line != [] && line[0] != '#' && '#' in line && ':' !in SplitOnce(line, '#').value.0
    ensures r.Entry? ==> |r.tokens| >= 1
  {
    if line == [] || line[0] == '#' then Skip
    else match SplitOnce(line, '#')
      case None => Skip
      case Some(parts) =>
        var codePointPart := Strip(parts.0);
        StripChars(parts.0);
        assert ':' in codePointPart <==> ':' in parts.0;
        ParseFields(codePointPart)
  }

  /** One line of the data file, read as the loop body of `load_pinyin_dict` reads it. */
  function ParseLine(raw: string): LineOutcome
  {
    ParseStripped(Strip(raw))
  }

  /**
   * A line is skipped when it is blank or a comment once stripped, or has no
   * `#`; the load raises exactly on a line whose part before the first `#`
   * has no `:`; a line that is read yields at least one reading and no
   * reading holds a comma.
   */
  lemma ParseLineCases(raw: string)
    ensures Strip(raw) == [] ==> ParseLine(raw) == Skip
    ensures Strip(raw) != [] && Strip(raw)[0] == '#' ==> ParseLine(raw) == Skip
    ensures '#' !in Strip(raw) ==> ParseLine(raw) == Skip
    ensures ParseLine(raw) == NoColon <==>
      var line := Strip(raw);
      line != [] && line[0] != '#' && '#' in line && ':' !in SplitOnce(line, '#').value.0
    ensures ParseLine(raw).Entry? ==> |ParseLine(raw).tokens| >= 1
    ensures ParseLine(raw).Entry? ==> forall k :: 0 <= k < |ParseLine(raw).tokens| ==> ',' !in ParseLine(raw).tokens[k]
  {
    var line := Strip(raw);
    if line != [] && line[0] != '#' && '#' in line {
      var codePointPart := Strip(SplitOnce(line, '#').value.0);
      match SplitOnce(codePointPart, ':')
      case None =>
      case Some(fields) =>
        ReadingsNoComma(Strip(fields.1));
    }
  }

  /**
   * A line with a `#` and a `:` before it whose code point `int(..., 16)`
   * or `chr` rejects is skipped.
   */
  lemma BadCodePointSkips(raw: string)
    requires var line := Strip(raw); line != [] && line[0] != '#' && '#' in line
    requires var part := Strip(SplitOnce(Strip(raw), '#').value.0);
      ':' in part && DecodeCodePoint(Strip(SplitOnce(part, ':').value.0)) == None
    ensures ParseLine(raw) == Skip
  {
  }

  // ---------------------------------------------------------------------
  // A line written in the data file's own format reads back.
  // ---------------------------------------------------------------------

  /** A line of `pinyin.txt`: `U+4E2D: zhōng,zhòng  # 中`. */
  function FormatLine(ch: char, tokens: seq<string>, literal: string): string
  {
    "U+" + ToHex(ch as int) + ": " + Join(",", tokens) + "  # " + literal
  }

  /** A reading as the file spells it: no comma, no `#`, no whitespace at either end. */
  predicate PlainReading(t: string) {
    ',' !in t && '#' !in t && Trimmed(t)
  }

  /** The readings after the `:` of a formatted line, with the space that precedes them. */
  function ReadingsPart(j: string): string {
    if j == [] then [] else " " + j
  }

  /** The stripped part before the `#` of a formatted line with no readings. */
  lemma StripCodePointAlone(h: string)
    ensures Strip("U+" + h + ": " + [] + "  ") == "U+" + h + ":"
  {
    var y := "U+" + h + ":";
    assert "U+" + h + ": " + [] + "  " == y + "   ";
    StripTrailing(y, "   ");
  }

  /** The stripped part before the `#` of a formatted line with readings. */
  lemma StripCodePointWithReadings(h: string, j: string)
    requires j != [] && Trimmed(j)
    ensures Strip("U+" + h + ": " + j + "  ") == "U+" + h + ":" + (" " + j)
  {
    var y := "U+" + h + ": " + j;
    assert y[|y| - 1] == j[|j| - 1];
    StripTrailing(y, "  ");
  }

  /** The part before the `#` of a formatted line, stripped. */
  lemma StripCodePointPart(h: string, j: string)
    requires Trimmed(j)
    ensures Strip("U+" + h + ": " + j + "  ") == "U+" + h + ":" + ReadingsPart(j)
  {
    if j == [] {
      StripCodePointAlone(h);
    } else {
      StripCodePointWithReadings(h, j);
    }
  }

  /** The readings part of a formatted line, stripped, is the joined readings. */
  lemma StripReadingsPart(j: string)
    requires Trimmed(j)
    ensures Strip(ReadingsPart(j)) == j
  {
    if j != [] {
      assert (" " + j)[1..] == j;
      assert TrimLeft(" " + j) == TrimLeft(j) == j;
    }
  }

  /** Every reading of the data file's format is its own `strip()`. */
  lemma StripAllPlain(tokens: seq<string>)
    requires forall k :: 0 <= k < |tokens| ==> PlainReading(tokens[k])
    ensures StripAll(tokens) == tokens
  {
    forall k | 0 <= k < |tokens| ensures Strip(tokens[k]) == tokens[k] {
      StripUnchanged(tokens[k]);
    }
  }

  /** `strip()` of a line keeps it up to and including its first `#`. */
  lemma StripKeepsHash(a: string, tail: string)
    requires a != [] && !IsSpace(a[0]) && '#' !in a
    ensures var t := Strip(a + "#" + tail);
      t != [] && t[0] == a[0] && SplitOnce(t, '#').Some? && SplitOnce(t, '#').value.0 == a
  {
    var line := a + "#" + tail;
    assert line[0] == a[0];
    StripFromStart(line);
    assert line[|a|] == '#';
    TrimRightKeeps(line, |a|);
    var t := TrimRight(line);
    assert t[..|a| + 1] == line[..|a| + 1] == a + "#";
    assert t == a + ['#'] + t[|a| + 1..];
    SplitOnceAt(a, '#', t[|a| + 1..]);
  }

  /** A code point written as `U+` and hex digits. */
  lemma CodePointSpelling(h: string)
    requires h != [] && AllHexDigits(h)
    ensures Trimmed("U+" + h) && CodePointText("U+" + h) == h && ':' !in "U+" + h
  {
    var c := "U+" + h;
    assert c[|c| - 1] == h[|h| - 1];
    assert c[2..] == h;
  }

  /** `chr(ord(ch)) == ch` */
  lemma CharCodePoint(ch: char)
    ensures CodePointChar(ch as int) == Some(ch)
  {
  }

  /** `chr(int(h, 16))` gives back the character whose code point was written as `U+h`. */
  lemma CodePointRoundTrip(ch: char)
    ensures Strip("U+" + ToHex(ch as int)) == "U+" + ToHex(ch as int)
    ensures DecodeCodePoint("U+" + ToHex(ch as int)) == Some(ch)
  {
    var h := ToHex(ch as int);
    CodePointSpelling(h);
    StripUnchanged("U+" + h);
    HexRoundTrip(ch as int);
    assert ParseInt16(CodePointText("U+" + h)) == Some(ch as int);
    CharCodePoint(ch);
  }

  /** Splitting joined readings at the commas and stripping each gives them back. */
  lemma ReadingsRoundTrip(tokens: seq<string>)
    requires |tokens| >= 1
    requires forall k :: 0 <= k < |tokens| ==> PlainReading(tokens[k])
    ensures Readings(Join(",", tokens)) == tokens
  {
    assert "," == [','];
    SplitJoin(tokens, ',');
    StripAllPlain(tokens);
  }

  /** Splitting at the first `:` when the code point part has none. */
  lemma ParseFieldsAt(code: string, rest: string, ch: char)
    requires ':' !in code
    requires DecodeCodePoint(Strip(code)) == Some(ch)
    ensures ParseFields(code + ":" + rest) == Entry(ch, Readings(Strip(rest)))
  {
    SplitOnceAt(code, ':', rest);
    assert code + ":" + rest == code + [':'] + rest;
  }

  /** The code point of a formatted line's fields decodes, leaving the readings part. */
  lemma FieldsCodePoint(ch: char, tokens: seq<string>)
    ensures var rest := ReadingsPart(Join(",", tokens));
      ParseFields("U+" + ToHex(ch as int) + ":" + rest) == Entry(ch, Readings(Strip(rest)))
  {
    var h := ToHex(ch as int);
    CodePointSpelling(h);
    CodePointRoundTrip(ch);
    ParseFieldsAt("U+" + h, ReadingsPart(Join(",", tokens)), ch);
  }

  /** The readings part of a formatted line's fields reads back as the readings. */
  lemma FieldsReadings(tokens: seq<string>)
    requires |tokens| >= 1
    requires forall k :: 0 <= k < |tokens| ==> PlainReading(tokens[k])
    ensures Readings(Strip(ReadingsPart(Join(",", tokens)))) == tokens
  {
    JoinEnds(',', tokens);
    StripReadingsPart(Join(",", tokens));
    ReadingsRoundTrip(tokens);
  }

  /** The stripped part before the `#` of a formatted line yields its character and readings. */
  lemma FieldsRoundTrip(ch: char, tokens: seq<string>)
    requires |tokens| >= 1
    requires forall k :: 0 <= k < |tokens| ==> PlainReading(tokens[k])
    ensures ParseFields("U+" + ToHex(ch as int) + ":" + ReadingsPart(Join(",", tokens))) == Entry(ch, tokens)
  {
    FieldsCodePoint(ch, tokens);
    FieldsReadings(tokens);
  }

  /** A formatted line is its code point and readings part, a `#`, and the literal. */
  lemma FormatLineShape(ch: char, tokens: seq<string>, literal: string)
    requires forall k :: 0 <= k < |tokens| ==> PlainReading(tokens[k])
    ensures var a := "U+" + ToHex(ch as int) + ": " + Join(",", tokens) + "  ";
      '#' !in a && a[0] == 'U' && FormatLine(ch, tokens, literal) == a + "#" + (" " + literal)
  {
    var h := ToHex(ch as int);
    var j := Join(",", tokens);
    assert "," == [','];
    JoinAvoids(',', tokens, '#');
    CodePointSpelling(h);
  }

  /** A stripped line that is neither blank nor a comment is read from its part before the first `#`. */
  lemma ParseStrippedAt(t: string, a: string)
    requires t != [] && t[0] != '#'
    requires SplitOnce(t, '#').Some? && SplitOnce(t, '#').value.0 == a
    ensures ParseStripped(t) == ParseFields(Strip(a))
  {
  }

  /** The part before the `#` of a formatted line, stripped, is the text `ParseFields` reads. */
  lemma StripFields(ch: char, tokens: seq<string>)
    requires forall k :: 0 <= k < |tokens| ==> PlainReading(tokens[k])
    ensures Strip("U+" + ToHex(ch as int) + ": " + Join(",", tokens) + "  ") ==
      "U+" + ToHex(ch as int) + ":" + ReadingsPart(Join(",", tokens))
  {
    JoinEnds(',', tokens);
    StripCodePointPart(ToHex(ch as int), Join(",", tokens));
  }

  /** A formatted line is read from its part before the `#`. */
  lemma LineToFields(ch: char, tokens: seq<string>, literal: string)
    requires forall k :: 0 <= k < |tokens| ==> PlainReading(tokens[k])
    ensures ParseLine(FormatLine(ch, tokens, literal)) ==
      ParseFields(Strip("U+" + ToHex(ch as int) + ": " + Join(",", tokens) + "  "))
  {
    var a := "U+" + ToHex(ch as int) + ": " + Join(",", tokens) + "  ";
    FormatLineShape(ch, tokens, literal);
    StripKeepsHash(a, " " + literal);
    ParseStrippedAt(Strip(FormatLine(ch, tokens, literal)), a);
  }

  /**
   * A line written in the data file's format reads back as the character
   * and readings it was written from.
   */
  lemma LineRoundTrip(ch: char, tokens: seq<string>, literal: string)
    requires |tokens| >= 1
    requires forall k :: 0 <= k < |tokens| ==> PlainReading(tokens[k])
    ensures ParseLine(FormatLine(ch, tokens, literal)) == Entry(ch, tokens)
  {
    LineToFields(ch, tokens, literal);
    StripFields(ch, tokens);
    FieldsRoundTrip(ch, tokens);
  }
}

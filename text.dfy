/**
 * The few Python `str` operations that the loader relies on:
 * `strip()`, `split(sep, 1)`, `split(sep)` and `sep.join(parts)`.
 */
module Text {
  import opened Wrappers

  /** Python's `str.isspace` for a single character. */
  predicate IsSpace(c: char) {
    || c == ' '
    || ('\t' <= c <= '\r')
    || ('\U{1C}' <= c <= '\U{1F}')
    || c == '\U{85}' || c == '\U{A0}' || c == '\U{1680}'
    || ('\U{2000}' <= c <= '\U{200A}')
    || c == '\U{2028}' || c == '\U{2029}' || c == '\U{202F}' || c == '\U{205F}' || c == '\U{3000}'
  }

  /** No whitespace at either end. */
  predicate Trimmed(s: string) {
    s == [] || (!IsSpace(s[0]) && !IsSpace(s[|s| - 1]))
  }

  /** Python's `s.lstrip()`: the suffix left after dropping leading whitespace. */
  function TrimLeft(s: string): (r: string)
    ensures |r| <= |s| && r == s[|s| - |r|..]
    ensures r == [] || !IsSpace(r[0])
  {
    if s != [] && IsSpace(s[0]) then TrimLeft(s[1..]) else s
  }

  /** Python's `s.rstrip()`: the prefix left after dropping trailing whitespace. */
  function TrimRight(s: string): (r: string)
    ensures |r| <= |s| && r == s[..|r|]
    ensures r == [] || !IsSpace(r[|r| - 1])
  {
    if s != [] && IsSpace(s[|s| - 1]) then TrimRight(s[..|s| - 1]) else s
  }

  /** Python's `s.strip()`. */
  function Strip(s: string): (r: string)
    ensures |r| <= |s|
    ensures Trimmed(r)
  {
    TrimRight(TrimLeft(s))
  }

  /** `lstrip()` drops only whitespace. */
  lemma {:induction false} TrimLeftDropsSpaces(s: string)
    ensures forall k :: 0 <= k < |s| - |TrimLeft(s)| ==> IsSpace(s[k])
    decreases |s|
  {
    if s != [] && IsSpace(s[0]) {
      TrimLeftDropsSpaces(s[1..]);
    }
  }

  /** `rstrip()` drops only whitespace. */
  lemma {:induction false} TrimRightDropsSpaces(s: string)
    ensures forall k :: |TrimRight(s)| <= k < |s| ==> IsSpace(s[k])
    decreases |s|
  {
    if s != [] && IsSpace(s[|s| - 1]) {
      TrimRightDropsSpaces(s[..|s| - 1]);
    }
  }

  /** `rstrip()` keeps every character up to the last non-whitespace one. */
  lemma TrimRightKeeps(s: string, i: nat)
    requires i < |s| && !IsSpace(s[i])
    ensures i < |TrimRight(s)|
  {
    TrimRightDropsSpaces(s);
  }

  /** A string that ends in non-whitespace is its own `rstrip()`. */
  lemma TrimRightUnchanged(s: string)
    requires s != [] && !IsSpace(s[|s| - 1])
    ensures TrimRight(s) == s
  {
  }

  /** `strip()` of a string that starts with non-whitespace is its `rstrip()`. */
  lemma StripFromStart(s: string)
    requires s != [] && !IsSpace(s[0])
    ensures Strip(s) == TrimRight(s)
  {
    assert TrimLeft(s) == s;
  }

  /**
   * `strip()` removes whitespace at the two ends only: what it leaves is a
   * contiguous piece of `s`, and everything before and after that piece is
   * whitespace.
   */
  lemma StripIsInfix(s: string)
    ensures var i := |s| - |TrimLeft(s)|;
      && i + |Strip(s)| <= |s|
      && Strip(s) == s[i..i + |Strip(s)|]
      && (forall k :: 0 <= k < i ==> IsSpace(s[k]))
      && (forall k :: i + |Strip(s)| <= k < |s| ==> IsSpace(s[k]))
  {
    var l := TrimLeft(s);
    var i := |s| - |l|;
    TrimLeftDropsSpaces(s);
    TrimRightDropsSpaces(l);
    forall k | i + |Strip(s)| <= k < |s| ensures IsSpace(s[k]) {
      assert s[k] == l[k - i];
    }
  }

  /** `strip()` keeps the characters of `s` and drops only whitespace. */
  lemma StripChars(s: string)
    ensures forall c :: c in Strip(s) ==> c in s
    ensures forall c :: c in s ==> c in Strip(s) || IsSpace(c)
  {
    var l := TrimLeft(s);
    var r := TrimRight(l);
    TrimLeftDropsSpaces(s);
    TrimRightDropsSpaces(l);
    assert forall c :: c in r ==> c in l;
    assert forall c :: c in l ==> c in s;
    forall c | c in s ensures c in r || IsSpace(c) {
      var k :| 0 <= k < |s| && s[k] == c;
      if k >= |s| - |l| {
        assert l[k - (|s| - |l|)] == c;
        var m := k - (|s| - |l|);
        if m < |r| {
          assert r[m] == c;
        }
      }
    }
  }

  /** A string without leading or trailing whitespace is its own `strip()`. */
  lemma StripUnchanged(s: string)
    requires Trimmed(s)
    ensures Strip(s) == s
  {
  }

  /** Trailing whitespace does not survive `rstrip()`. */
  lemma {:induction false} TrimRightSpaces(s: string, w: string)
    requires forall k :: 0 <= k < |w| ==> IsSpace(w[k])
    ensures TrimRight(s + w) == TrimRight(s)
    decreases |w|
  {
    if w != [] {
      assert (s + w)[..|s + w| - 1] == s + w[..|w| - 1];
      TrimRightSpaces(s, w[..|w| - 1]);
    } else {
      assert s + w == s;
    }
  }

  /** Whitespace after a string without whitespace at its ends is all that `strip()` removes. */
  lemma StripTrailing(y: string, w: string)
    requires y != [] && Trimmed(y)
    requires forall k :: 0 <= k < |w| ==> IsSpace(w[k])
    ensures Strip(y + w) == y
  {
    assert (y + w)[0] == y[0];
    StripFromStart(y + w);
    TrimRightSpaces(y, w);
    TrimRightUnchanged(y);
  }

  /**
   * Python's `s.split(sep, 1)`: `None` when `sep` does not occur (the
   * one-element list), otherwise the text before and after its first
   * occurrence.
   */
  function SplitOnce(s: string, sep: char): (r: Option<(string, string)>)
    ensures r.None? <==> sep !in s
    ensures r.Some? ==> s == r.value.0 + [sep] + r.value.1 && sep !in r.value.0
  {
    if s == [] then None
    else if s[0] == sep then Some(([], s[1..]))
    else match SplitOnce(s[1..], sep)
      case None => None
      case Some(p) =>
        assert s == [s[0]] + s[1..];
        Some(([s[0]] + p.0, p.1))
  }

  /** The split at the first occurrence is the only one whose left part avoids `sep`. */
  lemma {:induction false} SplitOnceAt(a: string, sep: char, b: string)
    requires sep !in a
    ensures SplitOnce(a + [sep] + b, sep) == Some((a, b))
  {
    var s := a + [sep] + b;
    if a == [] {
      assert s[1..] == b;
    } else {
      assert s[1..] == a[1..] + [sep] + b;
      SplitOnceAt(a[1..], sep, b);
      assert a == [a[0]] + a[1..];
    }
  }

  /** Python's `sep.join(parts)`. */
  function Join(sep: string, parts: seq<string>): string
    decreases |parts|
  {
    if |parts| == 0 then []
    else if |parts| == 1 then parts[0]
    else parts[0] + sep + Join(sep, parts[1..])
  }

  /** Joining one more part adds the separator and that part. */
  lemma {:induction false} JoinSnoc(sep: string, parts: seq<string>, p: string)
    requires parts != []
    ensures Join(sep, parts + [p]) == Join(sep, parts) + sep + p
    decreases |parts|
  {
    assert (parts + [p])[1..] == parts[1..] + [p];
    if |parts| > 1 {
      JoinSnoc(sep, parts[1..], p);
    }
  }

  /** Python's `s.split(sep)`: always at least one piece, and no piece holds `sep`. */
  function Split(s: string, sep: char): (r: seq<string>)
    ensures |r| >= 1
    ensures forall k :: 0 <= k < |r| ==> sep !in r[k]
    decreases |s|
  {
    match SplitOnce(s, sep)
    case None => [s]
    case Some(p) =>
      var rest := Split(p.1, sep);
      [p.0] + rest
  }

  /** Joining the pieces of `split` with `sep` gives back the string. */
  lemma {:induction false} JoinSplit(s: string, sep: char)
    ensures Join([sep], Split(s, sep)) == s
    decreases |s|
  {
    match SplitOnce(s, sep)
    case None =>
    case Some(p) =>
      JoinSplit(p.1, sep);
      var r := Split(s, sep);
      assert r == [p.0] + Split(p.1, sep);
      assert r[1..] == Split(p.1, sep);
  }

  /** `split` undoes `join` when no part holds the separator. */
  lemma {:induction false} SplitJoin(parts: seq<string>, sep: char)
    requires |parts| >= 1
    requires forall k :: 0 <= k < |parts| ==> sep !in parts[k]
    ensures Split(Join([sep], parts), sep) == parts
    decreases |parts|
  {
    if |parts| > 1 {
      var rest := Join([sep], parts[1..]);
      SplitOnceAt(parts[0], sep, rest);
      SplitJoin(parts[1..], sep);
      assert parts == [parts[0]] + parts[1..];
    } else {
      assert Join([sep], parts) == parts[0];
    }
  }

  /**
   * Joining parts that carry no whitespace at their ends with a
   * non-whitespace separator gives a string without whitespace at its ends.
   */
  lemma {:induction false} JoinEnds(sep: char, parts: seq<string>)
    requires !IsSpace(sep)
    requires forall k :: 0 <= k < |parts| ==> Trimmed(parts[k])
    ensures Trimmed(Join([sep], parts))
    decreases |parts|
  {
    if |parts| > 1 {
      JoinEnds(sep, parts[1..]);
      var rest := Join([sep], parts[1..]);
      var j := parts[0] + [sep] + rest;
      assert j[0] == if parts[0] == [] then sep else parts[0][0];
      assert j[|j| - 1] == if rest == [] then sep else rest[|rest| - 1];
    }
  }

  /** A character that is neither the separator nor in any part is not in the joined string. */
  lemma {:induction false} JoinAvoids(sep: char, parts: seq<string>, x: char)
    requires x != sep
    requires forall k :: 0 <= k < |parts| ==> x !in parts[k]
    ensures x !in Join([sep], parts)
    decreases |parts|
  {
    if |parts| > 1 {
      JoinAvoids(sep, parts[1..], x);
    }
  }
}

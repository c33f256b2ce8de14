/**
 * `load_pinyin_dict` (main.py): the reverse index from a tone-free
 * syllable to the characters read that way, built line by line from the
 * `pinyin.txt` data file.
 */
module PinyinDict {
  import opened Wrappers
  import opened Tone
  import opened PinyinLine

  /** The reverse index: a tone-free syllable to its characters in first-seen order. */
  type Index = map<string, seq<char>>

  /** The `ValueError` of the unpacking at line 25, which nothing catches; `line` counts from 0. */
  datatype LoadError = UnpackError(line: nat)

  /** What each line of the file does, in file order. */
  function Outcomes(lines: seq<string>): (r: seq<LineOutcome>)
    ensures |r| == |lines|
    ensures forall n :: 0 <= n < |lines| ==> r[n] == ParseLine(lines[n])
  {
    seq(|lines|, n requires 0 <= n < |lines| => ParseLine(lines[n]))
  }

  /**
   * Lines 39-42: make sure `key` has a list, then append `ch` unless it is
   * already there. Every other key keeps its list.
   */
  function Insert(idx: Index, key: string, ch: char): Index
  {
    var withKey := if key !in idx then idx[key := []] else idx;
    if ch !in withKey[key] then withKey[key := withKey[key] + [ch]] else withKey
  }

  /**
   * After `Insert`, `key` has a list that ends in `ch`: the old list when
   * it already held `ch`, the old list followed by `ch` otherwise, and `[ch]`
   * for a new key. No other key changes.
   */
  lemma InsertEffect(idx: Index, key: string, ch: char)
    ensures Insert(idx, key, ch).Keys == idx.Keys + {key}
    ensures forall k :: k in idx && k != key ==> Insert(idx, key, ch)[k] == idx[k]
    ensures key in idx && ch in idx[key] ==> Insert(idx, key, ch) == idx
    ensures key in idx && ch !in idx[key] ==> Insert(idx, key, ch)[key] == idx[key] + [ch]
    ensures key !in idx ==> Insert(idx, key, ch)[key] == [ch]
  {
  }

  /** The inner loop over the readings of one line: each reading's tone-free form receives `ch`. */
  function InsertTokens(idx: Index, tokens: seq<string>, ch: char): Index
  {
    if tokens == [] then idx
    else Insert(InsertTokens(idx, tokens[..|tokens| - 1], ch), RemoveTone(tokens[|tokens| - 1]), ch)
  }

  /** What line number `n`, with outcome `o`, does to the index built so far. */
  function Step(idx: Index, o: LineOutcome, n: nat): Result<Index, LoadError>
  {
    match o
    case Skip => Ok(idx)
    case NoColon => Err(UnpackError(n))
    case Entry(ch, tokens) => Ok(InsertTokens(idx, tokens, ch))
  }

  /** The index after lines with the given outcomes, or the error that aborts the load. */
  function BuildFrom(outs: seq<LineOutcome>): Result<Index, LoadError>
  {
    if outs == [] then Ok(map[])
    else match BuildFrom(outs[..|outs| - 1])
      case Err(e) => Err(e)
      case Ok(idx) => Step(idx, outs[|outs| - 1], |outs| - 1)
  }

  /** The result of `load_pinyin_dict` on the lines of the file. */
  function Build(lines: seq<string>): Result<Index, LoadError>
  {
    BuildFrom(Outcomes(lines))
  }

  lemma BuildNext(outs: seq<LineOutcome>, n: nat, idx: Index)
    requires n < |outs| && BuildFrom(outs[..n]) == Ok(idx)
    ensures BuildFrom(outs[..n + 1]) == Step(idx, outs[n], n)
  {
    assert outs[..n + 1][..n] == outs[..n];
  }

  /** Once a line has raised, the lines after it change nothing. */
  lemma {:induction false} BuildErrorPersists(outs: seq<LineOutcome>, m: nat)
    requires m <= |outs| && BuildFrom(outs[..m]).Err?
    ensures BuildFrom(outs) == BuildFrom(outs[..m])
    decreases |outs| - m
  {
    if m < |outs| {
      assert outs[..m + 1][..m] == outs[..m];
      BuildErrorPersists(outs, m + 1);
    } else {
      assert outs[..m] == outs;
    }
  }

  /** Lines 35-42: every reading of one line, tone-free, receives `ch` unless it has it already. */
  method InsertReadings(idx: Index, tokens: seq<string>, ch: char) returns (r: Index)
    ensures r == InsertTokens(idx, tokens, ch)
  {
    r := idx;
    var t := 0;
    while t < |tokens|
      invariant 0 <= t <= |tokens|
      invariant r == InsertTokens(idx, tokens[..t], ch)
    {
      var key := RemoveTone(tokens[t]);
      ghost var before := r;
      assert InsertTokens(idx, tokens[..t + 1], ch) == Insert(before, key, ch) by {
        assert tokens[..t + 1][..t] == tokens[..t];
      }
      if key !in r {
        r := r[key := []];
      }
      if ch !in r[key] {
        r := r[key := r[key] + [ch]];
      }
      assert r == Insert(before, key, ch);
      t := t + 1;
    }
    assert tokens[..t] == tokens;
  }

  /** `load_pinyin_dict` over the lines of the file, with the dictionary updated in place. */
  method LoadPinyinDict(lines: seq<string>) returns (r: Result<Index, LoadError>)
    ensures r == Build(lines)
  {
    ghost var outs := Outcomes(lines);
    var pinyinToHanzi: Index := map[];
    var n := 0;
    while n < |lines|
      invariant 0 <= n <= |lines|
      invariant BuildFrom(outs[..n]) == Ok(pinyinToHanzi)
    {
      BuildNext(outs, n, pinyinToHanzi);
      match ParseLine(lines[n]) {
        case Skip =>
        case NoColon =>
          BuildErrorPersists(outs, n + 1);
          return Err(UnpackError(n));
        case Entry(ch, tokens) =>
          pinyinToHanzi := InsertReadings(pinyinToHanzi, tokens, ch);
      }
      n := n + 1;
    }
    assert outs[..n] == outs;
    return Ok(pinyinToHanzi);
  }

  // ---------------------------------------------------------------------
  // What the index holds: a reference definition without the loop, and
  // the lemmas tying `Build` to it.
  // ---------------------------------------------------------------------

  predicate NoDuplicates<T(==)>(s: seq<T>) {
    forall a, b :: 0 <= a < b < |s| ==> s[a] != s[b]
  }

  /** The position of the first occurrence of `x` in `s`. */
  function FirstIndex<T(==)>(s: seq<T>, x: T): (r: nat)
    requires x in s
    ensures r < |s| && s[r] == x && x !in s[..r]
  {
    if s[0] == x then 0
    else
      assert s[1..][..FirstIndex(s[1..], x)] == s[1..FirstIndex(s[1..], x) + 1];
      1 + FirstIndex(s[1..], x)
  }

  /** The first occurrence is the only position holding `x` with no `x` before it. */
  lemma {:induction false} FirstIndexUnique<T>(s: seq<T>, x: T, i: nat)
    requires i < |s| && s[i] == x && x !in s[..i]
    ensures FirstIndex(s, x) == i
  {
    if s[0] != x {
      assert s[1..][..i - 1] == s[..i][1..];
      FirstIndexUnique(s[1..], x, i - 1);
    }
  }

  /** Appending an element does not move the first occurrence of an element already present. */
  lemma FirstIndexAppend<T>(p: seq<T>, c: T, x: T)
    requires x in p
    ensures FirstIndex(p + [c], x) == FirstIndex(p, x)
  {
    var i := FirstIndex(p, x);
    assert (p + [c])[..i] == p[..i];
    FirstIndexUnique(p + [c], x, i);
  }

  /**
   * `s` without repetitions, each element kept at its first occurrence:
   * the same elements, none twice, in the order of their first occurrence
   * in `s`.
   */
  function Dedup(s: seq<char>): (r: seq<char>)
    ensures NoDuplicates(r)
    ensures forall x :: x in r <==> x in s
    ensures forall a, b :: 0 <= a < b < |r| ==> FirstIndex(s, r[a]) < FirstIndex(s, r[b])
  {
    if s == [] then []
    else
      var p, c := s[..|s| - 1], s[|s| - 1];
      assert s == p + [c];
      var d := Dedup(p);
      forall x | x in p ensures FirstIndex(s, x) == FirstIndex(p, x) {
        FirstIndexAppend(p, c, x);
      }
      if c in d then d
      else
        assert c !in p;
        assert FirstIndex(s, c) == |p| by {
          assert s[..|p|] == p;
          FirstIndexUnique(s, c, |p|);
        }
        d + [c]
  }

  lemma DedupAppend(s: seq<char>, c: char)
    ensures Dedup(s + [c]) == if c in Dedup(s) then Dedup(s) else Dedup(s) + [c]
  {
    assert (s + [c])[..|s|] == s;
  }

  /** The characters that the readings of one line hand to `key`, in order. */
  function TokenHits(tokens: seq<string>, key: string, ch: char): seq<char>
  {
    if tokens == [] then []
    else TokenHits(tokens[..|tokens| - 1], key, ch) + (if RemoveTone(tokens[|tokens| - 1]) == key then [ch] else [])
  }

  /** The characters that a line with outcome `o` hands to `key`. */
  function OutcomeHits(o: LineOutcome, key: string): seq<char>
  {
    match o
    case Entry(ch, tokens) => TokenHits(tokens, key, ch)
    case _ => []
  }

  function HitsFrom(outs: seq<LineOutcome>, key: string): seq<char>
  {
    if outs == [] then []
    else HitsFrom(outs[..|outs| - 1], key) + OutcomeHits(outs[|outs| - 1], key)
  }

  /** Every character that the lines hand to `key`, in file order, repetitions included. */
  function Hits(lines: seq<string>, key: string): seq<char>
  {
    HitsFrom(Outcomes(lines), key)
  }

  /** `key`'s entry in `idx` is what the characters `past` leave behind. */
  predicate Agrees(idx: Index, key: string, past: seq<char>) {
    && (key in idx <==> past != [])
    && (key in idx ==> idx[key] == Dedup(past))
  }

  lemma AppendAssoc(a: seq<char>, b: seq<char>, c: seq<char>)
    ensures a + (b + c) == a + b + c
  {
  }

  /** One `Insert` keeps `Agrees`, with `ch` added to the history of `key` when it is the key inserted. */
  lemma InsertAgrees(before: Index, last: string, ch: char, key: string, history: seq<char>)
    requires Agrees(before, key, history)
    ensures Agrees(Insert(before, last, ch), key, history + (if last == key then [ch] else []))
  {
    InsertEffect(before, last, ch);
    if last == key {
      DedupAppend(history, ch);
      if key !in before {
        assert history == [];
        assert [] + [ch] == [ch];
      }
    } else {
      assert history + [] == history;
    }
  }

  lemma {:induction false} InsertTokensAgrees(idx: Index, tokens: seq<string>, ch: char, key: string, past: seq<char>)
    requires Agrees(idx, key, past)
    ensures Agrees(InsertTokens(idx, tokens, ch), key, past + TokenHits(tokens, key, ch))
    decreases |tokens|
  {
    if tokens == [] {
      assert past + [] == past;
    } else {
      var front := tokens[..|tokens| - 1];
      var last := RemoveTone(tokens[|tokens| - 1]);
      var hit := if last == key then [ch] else [];
      InsertTokensAgrees(idx, front, ch, key, past);
      InsertAgrees(InsertTokens(idx, front, ch), last, ch, key, past + TokenHits(front, key, ch));
      var earlier := TokenHits(front, key, ch);
      assert TokenHits(tokens, key, ch) == earlier + hit;
      AppendAssoc(past, earlier, hit);
    }
  }

  lemma {:induction false} BuildAgrees(outs: seq<LineOutcome>, key: string)
    requires BuildFrom(outs).Ok?
    ensures Agrees(BuildFrom(outs).value, key, HitsFrom(outs, key))
  {
    if outs != [] {
      var front := outs[..|outs| - 1];
      BuildAgrees(front, key);
      var idx := BuildFrom(front).value;
      match outs[|outs| - 1] {
        case Skip =>
          assert BuildFrom(outs) == Ok(idx);
          assert HitsFrom(outs, key) == HitsFrom(front, key) + [];
          assert HitsFrom(outs, key) == HitsFrom(front, key);
        case Entry(ch, tokens) =>
          InsertTokensAgrees(idx, tokens, ch, key, HitsFrom(front, key));
      }
    }
  }

  /**
   * The index `load_pinyin_dict` builds, described without the loop: a
   * syllable is a key exactly when some line hands it a character, and its
   * list is every character handed to it, each once, in order of first
   * appearance in the file.
   */
  lemma IndexIsFirstSeenHits(lines: seq<string>, key: string)
    requires Build(lines).Ok?
    ensures key in Build(lines).value <==> Hits(lines, key) != []
    ensures key in Build(lines).value ==> Build(lines).value[key] == Dedup(Hits(lines, key))
  {
    BuildAgrees(Outcomes(lines), key);
  }

  /** Every list of the index is non-empty and holds no character twice. */
  lemma IndexListsDuplicateFree(lines: seq<string>, key: string)
    requires Build(lines).Ok? && key in Build(lines).value
    ensures Build(lines).value[key] != []
    ensures NoDuplicates(Build(lines).value[key])
  {
    BuildAgrees(Outcomes(lines), key);
  }

  lemma {:induction false} TokenHitsContain(tokens: seq<string>, ch: char, t: nat)
    requires t < |tokens|
    ensures ch in TokenHits(tokens, RemoveTone(tokens[t]), ch)
    decreases |tokens|
  {
    if t < |tokens| - 1 {
      TokenHitsContain(tokens[..|tokens| - 1], ch, t);
    }
  }

  lemma {:induction false} HitsContain(outs: seq<LineOutcome>, n: nat, ch: char, tokens: seq<string>, t: nat)
    requires n < |outs| && outs[n] == Entry(ch, tokens) && t < |tokens|
    ensures ch in HitsFrom(outs, RemoveTone(tokens[t]))
    decreases |outs|
  {
    if n < |outs| - 1 {
      HitsContain(outs[..|outs| - 1], n, ch, tokens, t);
    } else {
      TokenHitsContain(tokens, ch, t);
    }
  }

  /**
   * Each well-formed line puts its character in the list of the tone-free
   * form of every one of its readings, and no later line takes it out.
   */
  lemma EntryIsIndexed(lines: seq<string>, n: nat, ch: char, tokens: seq<string>, t: nat)
    requires Build(lines).Ok?
    requires n < |lines| && ParseLine(lines[n]) == Entry(ch, tokens) && t < |tokens|
    ensures RemoveTone(tokens[t]) in Build(lines).value
    ensures ch in Build(lines).value[RemoveTone(tokens[t])]
  {
    HitsContain(Outcomes(lines), n, ch, tokens, t);
    BuildAgrees(Outcomes(lines), RemoveTone(tokens[t]));
  }

  /** The outcomes of one more line are those of the lines before and its own. */
  lemma OutcomesSnoc(lines: seq<string>, line: string)
    ensures Outcomes(lines + [line]) == Outcomes(lines) + [ParseLine(line)]
  {
    var all := Outcomes(lines + [line]);
    forall n | 0 <= n < |lines| ensures all[n] == Outcomes(lines)[n] {
      assert (lines + [line])[n] == lines[n];
    }
  }

  /** Appending a skipped outcome changes nothing. */
  lemma BuildFromSkip(outs: seq<LineOutcome>)
    ensures BuildFrom(outs + [Skip]) == BuildFrom(outs)
  {
    assert (outs + [Skip])[..|outs|] == outs;
  }

  /** A skipped line leaves the whole index as it was. */
  lemma SkippedLineChangesNothing(lines: seq<string>, line: string)
    requires ParseLine(line) == Skip
    ensures Build(lines + [line]) == Build(lines)
  {
    OutcomesSnoc(lines, line);
    BuildFromSkip(Outcomes(lines));
  }

  /** Handing a syllable a character it already lists leaves the index as it was. */
  lemma {:induction false} InsertKnownIsNoOp(idx: Index, tokens: seq<string>, ch: char)
    requires forall k :: 0 <= k < |tokens| ==> RemoveTone(tokens[k]) in idx && ch in idx[RemoveTone(tokens[k])]
    ensures InsertTokens(idx, tokens, ch) == idx
  {
    if tokens != [] {
      InsertKnownIsNoOp(idx, tokens[..|tokens| - 1], ch);
      InsertEffect(idx, RemoveTone(tokens[|tokens| - 1]), ch);
    }
  }

  lemma {:induction false} BuildFromFails(outs: seq<LineOutcome>)
    ensures BuildFrom(outs).Ok? <==> forall n :: 0 <= n < |outs| ==> outs[n] != NoColon
    ensures BuildFrom(outs).Err? ==>
      var n := BuildFrom(outs).error.line;
      && n < |outs| && outs[n] == NoColon
      && forall m :: 0 <= m < n ==> outs[m] != NoColon
  {
    if outs != [] {
      var front := outs[..|outs| - 1];
      BuildFromFails(front);
      assert forall n :: 0 <= n < |front| ==> front[n] == outs[n];
    }
  }

  /**
   * The load fails exactly when some line has a `#` but no `:` before it,
   * and the error names the first such line.
   */
  lemma LoadFailsOnFirstColonlessLine(lines: seq<string>)
    ensures Build(lines).Ok? <==> forall n :: 0 <= n < |lines| ==> ParseLine(lines[n]) != NoColon
    ensures Build(lines).Err? ==>
      var n := Build(lines).error.line;
      && n < |lines| && ParseLine(lines[n]) == NoColon
      && forall m :: 0 <= m < n ==> ParseLine(lines[m]) != NoColon
  {
    BuildFromFails(Outcomes(lines));
  }
}

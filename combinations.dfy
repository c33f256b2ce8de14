/**
 * The work of one thread, `process_batch` (main.py): for every `he`
 * character `i` of its batch and every `yi` character `j`, the line of all
 * strings `he[i] + yi[j] + wei[k]`, tagged with `(i, j)`.
 */
module Combinations {

  /** The three character lists the program combines, `dict_data['he']`, `['yi']` and `['wei']`. */
  datatype Columns = Columns(he: seq<char>, yi: seq<char>, wei: seq<char>)

  /** One entry of a batch's results: `(i, j, line_results)`. */
  datatype Triple = Triple(i: nat, j: nat, line: seq<string>)

  /** The line for `he[i]` and `yi[j]`: one three-character string per `wei` character. */
  function Words(c: Columns, i: nat, j: nat): (r: seq<string>)
    requires i < |c.he| && j < |c.yi|
    ensures |r| == |c.wei|
  {
    seq(|c.wei|, k requires 0 <= k < |c.wei| => [c.he[i], c.yi[j], c.wei[k]])
  }

  /** The triples for `he[i]` and the first `m` characters of `yi`. */
  function Row(c: Columns, i: nat, m: nat): seq<Triple>
    requires i < |c.he| && m <= |c.yi|
  {
    if m == 0 then [] else Row(c, i, m - 1) + [Triple(i, m - 1, Words(c, i, m - 1))]
  }

  /** The triples for the `he` rows `s` up to `e`, row by row. */
  function Rows(c: Columns, s: nat, e: nat): seq<Triple>
    requires s <= e <= |c.he|
    decreases e - s
  {
    if e == s then [] else Rows(c, s, e - 1) + Row(c, e - 1, |c.yi|)
  }

  /** `process_batch(i_start, i_end, ...)`: the nested loops over `i`, `j` and `k`. */
  method ProcessBatch(c: Columns, iStart: nat, iEnd: nat) returns (batchResults: seq<Triple>)
    requires iStart <= iEnd <= |c.he|
    ensures batchResults == Rows(c, iStart, iEnd)
  {
    batchResults := [];
    for i := iStart to iEnd
      invariant batchResults == Rows(c, iStart, i)
    {
      for j := 0 to |c.yi|
        invariant batchResults == Rows(c, iStart, i) + Row(c, i, j)
      {
        var lineResults := [];
        for k := 0 to |c.wei|
          invariant lineResults == Words(c, i, j)[..k]
        {
          var s := [c.he[i], c.yi[j], c.wei[k]];
          lineResults := lineResults + [s];
        }
        assert lineResults == Words(c, i, j);
        batchResults := batchResults + [Triple(i, j, lineResults)];
      }
    }
  }

  /** `(i, j)` comes strictly before `(i', j')`. */
  predicate KeyLess(a: Triple, b: Triple) {
    a.i < b.i || (a.i == b.i && a.j < b.j)
  }

  /** `(i, j)` comes no later than `(i', j')`. */
  predicate KeyLeq(a: Triple, b: Triple) {
    a.i < b.i || (a.i == b.i && a.j <= b.j)
  }

  predicate StrictlyByKey(s: seq<Triple>) {
    forall p, q :: 0 <= p < q < |s| ==> KeyLess(s[p], s[q])
  }

  predicate SortedByKey(s: seq<Triple>) {
    forall p, q :: 0 <= p < q < |s| ==> KeyLeq(s[p], s[q])
  }

  /** Row `i` holds `(i, j, Words(i, j))` at position `j`, for every `j` below `m`. */
  lemma {:induction false} RowAt(c: Columns, i: nat, m: nat)
    requires i < |c.he| && m <= |c.yi|
    ensures |Row(c, i, m)| == m
    ensures forall j :: 0 <= j < m ==> Row(c, i, m)[j] == Triple(i, j, Words(c, i, j))
  {
    if m > 0 {
      RowAt(c, i, m - 1);
    }
  }

  /** The batches of consecutive rows put end to end are the rows of their union. */
  lemma {:induction false} RowsSplit(c: Columns, s: nat, m: nat, e: nat)
    requires s <= m <= e <= |c.he|
    ensures Rows(c, s, m) + Rows(c, m, e) == Rows(c, s, e)
    decreases e - m
  {
    if e > m {
      RowsSplit(c, s, m, e - 1);
    }
  }

  /** The rows `s` up to `e` hold `|yi|` triples per row. */
  lemma {:induction false} RowsLength(c: Columns, s: nat, e: nat)
    requires s <= e <= |c.he|
    ensures |Rows(c, s, e)| == (e - s) * |c.yi|
    decreases e - s
  {
    if e > s {
      RowsLength(c, s, e - 1);
      RowAt(c, e - 1, |c.yi|);
      assert (e - s) * |c.yi| == (e - 1 - s) * |c.yi| + |c.yi|;
    }
  }

  /** Row-major order: `(i, j)` sits at position `(i - s) * |yi| + j`. */
  lemma {:induction false} RowsAt(c: Columns, s: nat, e: nat, i: nat, j: nat)
    requires s <= i < e <= |c.he| && j < |c.yi|
    ensures (i - s) * |c.yi| + j < |Rows(c, s, e)|
    ensures Rows(c, s, e)[(i - s) * |c.yi| + j] == Triple(i, j, Words(c, i, j))
    decreases e - s
  {
    RowsLength(c, s, e - 1);
    RowsLength(c, s, e);
    RowAt(c, e - 1, |c.yi|);
    if i < e - 1 {
      RowsAt(c, s, e - 1, i, j);
      assert (i - s) * |c.yi| + j < (e - 1 - s) * |c.yi| by {
        assert (i - s) * |c.yi| + |c.yi| == (i + 1 - s) * |c.yi|;
        assert (i + 1 - s) <= e - 1 - s;
      }
    }
  }

  /** Every triple of the rows `s` up to `e` is `(i, j, Words(i, j))` for some `s <= i < e` and `j < |yi|`. */
  lemma {:induction false} RowsContents(c: Columns, s: nat, e: nat)
    requires s <= e <= |c.he|
    ensures forall t :: t in Rows(c, s, e) ==>
      s <= t.i < e && t.j < |c.yi| && t.line == Words(c, t.i, t.j)
    decreases e - s
  {
    if e > s {
      RowsContents(c, s, e - 1);
      RowAt(c, e - 1, |c.yi|);
    }
  }

  /** The rows come out in strictly increasing `(i, j)` order. */
  lemma {:induction false} RowsStrictlyByKey(c: Columns, s: nat, e: nat)
    requires s <= e <= |c.he|
    ensures StrictlyByKey(Rows(c, s, e))
    decreases e - s
  {
    if e > s {
      var front := Rows(c, s, e - 1);
      var row := Row(c, e - 1, |c.yi|);
      RowsStrictlyByKey(c, s, e - 1);
      RowsContents(c, s, e - 1);
      RowAt(c, e - 1, |c.yi|);
      var all := front + row;
      forall p, q | 0 <= p < q < |all|
        ensures KeyLess(all[p], all[q])
      {
        if q < |front| {
          assert all[p] == front[p] && all[q] == front[q];
        } else if p < |front| {
          assert all[p] in front;
        } else {
          assert all[p] == row[p - |front|] && all[q] == row[q - |front|];
        }
      }
    }
  }

  /** The number of strings in a sequence of triples. */
  function WordCount(rs: seq<Triple>): nat {
    if rs == [] then 0 else WordCount(rs[..|rs| - 1]) + |rs[|rs| - 1].line|
  }

  lemma {:induction false} WordCountAppend(a: seq<Triple>, b: seq<Triple>)
    ensures WordCount(a + b) == WordCount(a) + WordCount(b)
    decreases |b|
  {
    if b != [] {
      WordCountAppend(a, b[..|b| - 1]);
      assert (a + b)[..|a + b| - 1] == a + b[..|b| - 1];
    } else {
      assert a + b == a;
    }
  }

  lemma {:induction false} RowWordCount(c: Columns, i: nat, m: nat)
    requires i < |c.he| && m <= |c.yi|
    ensures WordCount(Row(c, i, m)) == m * |c.wei|
  {
    if m > 0 {
      RowWordCount(c, i, m - 1);
      WordCountAppend(Row(c, i, m - 1), [Triple(i, m - 1, Words(c, i, m - 1))]);
      assert WordCount([Triple(i, m - 1, Words(c, i, m - 1))]) == |c.wei|;
      assert m * |c.wei| == (m - 1) * |c.wei| + |c.wei|;
    }
  }

  /** The rows `s` up to `e` hold `|yi| * |wei|` strings per row. */
  lemma {:induction false} RowsWordCount(c: Columns, s: nat, e: nat)
    requires s <= e <= |c.he|
    ensures WordCount(Rows(c, s, e)) == (e - s) * (|c.yi| * |c.wei|)
    decreases e - s
  {
    if e > s {
      RowsWordCount(c, s, e - 1);
      RowWordCount(c, e - 1, |c.yi|);
      WordCountAppend(Rows(c, s, e - 1), Row(c, e - 1, |c.yi|));
      var yw := |c.yi| * |c.wei|;
      var d := e - 1 - s;
      assert (d + 1) * yw == d * yw + yw;
    }
  }

  /** `total = he_size * yi_size * wei_size`: all rows together hold that many strings. */
  lemma TotalWords(c: Columns)
    ensures WordCount(Rows(c, 0, |c.he|)) == |c.he| * |c.yi| * |c.wei|
  {
    RowsWordCount(c, 0, |c.he|);
    MulAssoc(|c.he|, |c.yi|, |c.wei|);
  }

  lemma MulAssoc(a: nat, b: nat, d: nat)
    ensures a * (b * d) == a * b * d
  {
  }
}

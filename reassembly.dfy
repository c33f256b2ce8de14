/**
 * Putting the threads' results back together (main.py): each thread appends
 * its batch to the shared list when it finishes, in whatever order the
 * threads finish, and the list is then sorted by `(i, j)`.
 */
module Reassembly {
  import opened Batches
  import opened Combinations

  // ---------------------------------------------------------------------
  // `results.sort(key=lambda x: (x[0], x[1]))`
  // ---------------------------------------------------------------------

  /** `x` and every element of `s` come no earlier than `h`. */
  lemma SortedCons(h: Triple, s: seq<Triple>)
    requires SortedByKey(s)
    requires forall y :: y in s ==> KeyLeq(h, y)
    ensures SortedByKey([h] + s)
  {
    var r := [h] + s;
    forall p, q | 0 <= p < q < |r|
      ensures KeyLeq(r[p], r[q])
    {
      if p == 0 {
        assert r[q] in s;
      } else {
        assert r[p] == s[p - 1] && r[q] == s[q - 1];
      }
    }
  }

  /**
   * Places `x` in front of the first element whose key is not below its
   * own, so that it stays ahead of the equal keys that followed it.
   */
  function InsertByKey(x: Triple, s: seq<Triple>): (r: seq<Triple>)
    requires SortedByKey(s)
    ensures SortedByKey(r)
    ensures multiset(r) == multiset(s) + multiset{x}
  {
    if s == [] || KeyLeq(x, s[0]) then
      SortedCons(x, s);
      [x] + s
    else
      var rest := InsertByKey(x, s[1..]);
      assert s == [s[0]] + s[1..];
      forall y | y in rest
        ensures KeyLeq(s[0], y)
      {
        assert y in multiset(rest);
      }
      SortedCons(s[0], rest);
      [s[0]] + rest
  }

  /** Python's stable sort by `(i, j)`: sorted, and a permutation of its input. */
  function SortByKey(s: seq<Triple>): (r: seq<Triple>)
    ensures SortedByKey(r)
    ensures multiset(r) == multiset(s)
  {
    if s == [] then []
    else
      assert s == [s[0]] + s[1..];
      InsertByKey(s[0], SortByKey(s[1..]))
  }

  lemma MultisetTail<T>(s: seq<T>)
    requires s != []
    ensures multiset(s[1..]) == multiset(s) - multiset{s[0]}
  {
    assert s == [s[0]] + s[1..];
  }

  /** The smallest key of a strictly sorted sequence is at its front, and only there. */
  lemma SortedHeads(a: seq<Triple>, b: seq<Triple>)
    requires a != [] && StrictlyByKey(a) && SortedByKey(b)
    requires multiset(a) == multiset(b)
    ensures b != [] && b[0] == a[0]
  {
    assert a[0] in multiset(b);
    var q :| 0 <= q < |b| && b[q] == a[0];
    assert b[0] in multiset(a);
    var p :| 0 <= p < |a| && a[p] == b[0];
    assert KeyLeq(b[0], b[q]);
  }

  /**
   * Distinct keys fix the order: a sequence sorted by key that holds the
   * same triples as a strictly sorted one is that sequence.
   */
  lemma {:induction false} SortedUnique(a: seq<Triple>, b: seq<Triple>)
    requires StrictlyByKey(a) && SortedByKey(b)
    requires multiset(a) == multiset(b)
    ensures a == b
    decreases |a|
  {
    if a == [] {
      assert |b| == |multiset(b)| == 0;
    } else {
      SortedHeads(a, b);
      MultisetTail(a);
      MultisetTail(b);
      var a', b' := a[1..], b[1..];
      assert StrictlyByKey(a') by {
        forall p, q | 0 <= p < q < |a'| ensures KeyLess(a'[p], a'[q]) {
          assert a'[p] == a[p + 1] && a'[q] == a[q + 1];
        }
      }
      assert SortedByKey(b') by {
        forall p, q | 0 <= p < q < |b'| ensures KeyLeq(b'[p], b'[q]) {
          assert b'[p] == b[p + 1] && b'[q] == b[q + 1];
        }
      }
      SortedUnique(a', b');
      assert a == [a[0]] + a' && b == [b[0]] + b';
    }
  }

  /** Sorting any rearrangement of the rows gives the rows in row-major order. */
  lemma SortRestoresRows(c: Columns, s: nat, e: nat, results: seq<Triple>)
    requires s <= e <= |c.he|
    requires multiset(results) == multiset(Rows(c, s, e))
    ensures SortByKey(results) == Rows(c, s, e)
  {
    RowsStrictlyByKey(c, s, e);
    SortedUnique(Rows(c, s, e), SortByKey(results));
  }

  // ---------------------------------------------------------------------
  // `results_list.extend(batch_results)` in completion order
  // ---------------------------------------------------------------------

  /** `0, 1, ..., n - 1`: the batch numbers. */
  function Range(n: nat): (r: seq<nat>)
    ensures |r| == n && forall k :: 0 <= k < n ==> r[k] == k
  {
    seq(n, k => k)
  }

  /** The order the threads finish in: every batch number below `n` exactly once. */
  predicate CompletionOrder(order: seq<nat>, n: nat) {
    && (forall k :: 0 <= k < |order| ==> order[k] < n)
    && multiset(order) == multiset(Range(n))
  }

  /** The shared list after the threads in `order` have each appended their batch. */
  function Gather(pieces: seq<seq<Triple>>, order: seq<nat>): seq<Triple>
    requires forall k :: 0 <= k < |order| ==> order[k] < |pieces|
  {
    if order == [] then []
    else Gather(pieces, order[..|order| - 1]) + pieces[order[|order| - 1]]
  }

  lemma {:induction false} GatherAppend(pieces: seq<seq<Triple>>, o1: seq<nat>, o2: seq<nat>)
    requires forall k :: 0 <= k < |o1| ==> o1[k] < |pieces|
    requires forall k :: 0 <= k < |o2| ==> o2[k] < |pieces|
    ensures Gather(pieces, o1 + o2) == Gather(pieces, o1) + Gather(pieces, o2)
    decreases |o2|
  {
    if o2 == [] {
      assert o1 + o2 == o1;
    } else {
      var init := o2[..|o2| - 1];
      assert (o1 + o2)[..|o1 + o2| - 1] == o1 + init;
      GatherAppend(pieces, o1, init);
    }
  }

  lemma MultisetRemove<T>(o: seq<T>, p: nat)
    requires p < |o|
    ensures multiset(o[..p] + o[p + 1..]) == multiset(o) - multiset{o[p]}
  {
    assert o == o[..p] + [o[p]] + o[p + 1..];
  }

  /** Taking one batch number out of the order takes its batch out of the list. */
  lemma GatherRemove(pieces: seq<seq<Triple>>, o: seq<nat>, p: nat)
    requires forall k :: 0 <= k < |o| ==> o[k] < |pieces|
    requires p < |o|
    ensures multiset(Gather(pieces, o)) == multiset(Gather(pieces, o[..p] + o[p + 1..])) + multiset(pieces[o[p]])
  {
    var x := o[p];
    var before, after := o[..p], o[p + 1..];
    assert o == before + [x] + after;
    assert Gather(pieces, [x]) == pieces[x] by {
      assert [x][..0] == [];
    }
    var g1, g2 := Gather(pieces, before), Gather(pieces, after);
    GatherAppend(pieces, before + [x], after);
    GatherAppend(pieces, before, [x]);
    assert Gather(pieces, o) == g1 + pieces[x] + g2;
    GatherAppend(pieces, before, after);
    assert multiset(g1 + pieces[x] + g2) == multiset(g1 + g2) + multiset(pieces[x]);
  }

  /** Whatever order the batches are appended in, the list holds the same triples. */
  lemma {:induction false} GatherPermutation(pieces: seq<seq<Triple>>, o1: seq<nat>, o2: seq<nat>)
    requires forall k :: 0 <= k < |o1| ==> o1[k] < |pieces|
    requires forall k :: 0 <= k < |o2| ==> o2[k] < |pieces|
    requires multiset(o1) == multiset(o2)
    ensures multiset(Gather(pieces, o1)) == multiset(Gather(pieces, o2))
    decreases |o1|
  {
    if o1 == [] {
      assert |o2| == |multiset(o2)| == 0;
    } else {
      var last := |o1| - 1;
      var x := o1[last];
      assert x in multiset(o2);
      var p :| 0 <= p < |o2| && o2[p] == x;
      var r1, r2 := o1[..last], o2[..p] + o2[p + 1..];
      assert r1 == o1[..last] + o1[last + 1..];
      MultisetRemove(o1, last);
      MultisetRemove(o2, p);
      assert multiset(r1) == multiset(r2);
      assert forall k :: 0 <= k < |r2| ==> r2[k] < |pieces| by {
        forall k | 0 <= k < |r2| ensures r2[k] < |pieces| {
          assert r2[k] == if k < p then o2[k] else o2[k + 1];
        }
      }
      GatherPermutation(pieces, r1, r2);
      GatherRemove(pieces, o1, last);
      GatherRemove(pieces, o2, p);
    }
  }

  /** What each planned batch contributes: its rows. */
  function BatchResults(c: Columns, w: nat): (r: seq<seq<Triple>>)
    requires w > 0
    ensures |r| == |Plan(|c.he|, w)|
    ensures forall k :: 0 <= k < |r| ==>
      var b := Plan(|c.he|, w)[k];
      b.start <= b.end <= |c.he| && r[k] == Rows(c, b.start, b.end)
  {
    var plan := Plan(|c.he|, w);
    PlanCovers(|c.he|, w);
    seq(|plan|, k requires 0 <= k < |plan| => Rows(c, plan[k].start, plan[k].end))
  }

  /** The first `m` batches, in batch order, are the rows up to the end of batch `m - 1`. */
  lemma {:induction false} GatherInOrder(c: Columns, w: nat, m: nat)
    requires w > 0 && 0 < m <= |Plan(|c.he|, w)|
    ensures Plan(|c.he|, w)[m - 1].end <= |c.he|
    ensures Gather(BatchResults(c, w), Range(m)) == Rows(c, 0, Plan(|c.he|, w)[m - 1].end)
  {
    var plan := Plan(|c.he|, w);
    var pieces := BatchResults(c, w);
    PlanCovers(|c.he|, w);
    assert Range(m)[..m - 1] == Range(m - 1);
    if m == 1 {
      assert Gather(pieces, Range(m)) == Gather(pieces, Range(0)) + pieces[0];
    } else {
      GatherInOrder(c, w, m - 1);
      RowsSplit(c, 0, plan[m - 1].start, plan[m - 1].end);
    }
  }

  /**
   * Whichever order the threads finish in, sorting the shared list gives
   * every `(i, j)` triple once, in row-major order.
   */
  lemma ReassemblyRestoresOrder(c: Columns, w: nat, order: seq<nat>)
    requires w > 0
    requires CompletionOrder(order, |Plan(|c.he|, w)|)
    ensures SortByKey(Gather(BatchResults(c, w), order)) == Rows(c, 0, |c.he|)
  {
    var plan := Plan(|c.he|, w);
    var pieces := BatchResults(c, w);
    PlanCovers(|c.he|, w);
    GatherPermutation(pieces, order, Range(|plan|));
    if plan == [] {
      assert Gather(pieces, Range(0)) == [];
    } else {
      GatherInOrder(c, w, |plan|);
    }
    SortRestoresRows(c, 0, |c.he|, Gather(pieces, order));
  }
}

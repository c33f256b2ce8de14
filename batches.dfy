/**
 * How the main program splits the rows of `he` between its worker threads
 * (main.py): `batch_size = he_size // num_threads + 1`, and thread `t` gets
 * the rows `t * batch_size` up to `min((t + 1) * batch_size, he_size)` when
 * that range starts inside the table.
 */
module Batches {

  /** The half-open range of `he` rows one thread works on. */
  datatype Batch = Batch(start: nat, end: nat)

  function Min(a: nat, b: nat): nat {
    if a < b then a else b
  }

  function BatchSize(n: nat, w: nat): nat
    requires w > 0
  {
    n / w + 1
  }

  /** The batches started by the first `t` rounds of the thread loop. */
  function BatchesUpTo(n: nat, w: nat, t: nat): seq<Batch>
    requires w > 0
  {
    if t == 0 then []
    else
      var b := BatchSize(n, w);
      var start := (t - 1) * b;
      BatchesUpTo(n, w, t - 1) + (if start < n then [Batch(start, Min(t * b, n))] else [])
  }

  /** The batches of `n` rows for `w` threads. */
  function Plan(n: nat, w: nat): seq<Batch>
    requires w > 0
  {
    BatchesUpTo(n, w, w)
  }

  /** The thread-creation loop: one batch per round whose start lies inside the table. */
  method PlanBatches(heSize: nat, numThreads: nat) returns (batches: seq<Batch>)
    requires numThreads > 0
    ensures batches == Plan(heSize, numThreads)
  {
    var batchSize := heSize / numThreads + 1;
    batches := [];
    for t := 0 to numThreads
      invariant batches == BatchesUpTo(heSize, numThreads, t)
    {
      var iStart := t * batchSize;
      var iEnd := Min((t + 1) * batchSize, heSize);
      if iStart < heSize {
        batches := batches + [Batch(iStart, iEnd)];
      }
    }
  }

  lemma MulMono(a: nat, c: nat, b: nat)
    requires a <= c
    ensures a * b <= c * b
  {
  }

  /** `w` batches of `n / w + 1` rows always reach past the last row. */
  lemma FullPlanReaches(n: nat, w: nat)
    requires w > 0
    ensures w * BatchSize(n, w) > n
  {
    var q := n / w;
    assert n == w * q + n % w;
    assert w * (q + 1) == w * q + w;
  }

  /**
   * After `t` rounds: batch `k` is rows `k * b` up to `min((k + 1) * b, n)`,
   * each starting inside the table, and a round that started no batch
   * means the rows are all taken.
   */
  lemma {:induction false} BatchesUpToShape(n: nat, w: nat, t: nat)
    requires w > 0
    ensures |BatchesUpTo(n, w, t)| <= t
    ensures |BatchesUpTo(n, w, t)| < t ==> |BatchesUpTo(n, w, t)| * BatchSize(n, w) >= n
    ensures forall k :: 0 <= k < |BatchesUpTo(n, w, t)| ==>
      k * BatchSize(n, w) < n && BatchesUpTo(n, w, t)[k] == Batch(k * BatchSize(n, w), Min((k + 1) * BatchSize(n, w), n))
  {
    if t > 0 {
      BatchesUpToShape(n, w, t - 1);
      var b := BatchSize(n, w);
      var prev := BatchesUpTo(n, w, t - 1);
      if (t - 1) * b < n {
        if |prev| < t - 1 {
          MulMono(|prev|, t - 1, b);
        }
        assert |prev| == t - 1;
        assert BatchesUpTo(n, w, t) == prev + [Batch((t - 1) * b, Min(t * b, n))];
      } else {
        assert BatchesUpTo(n, w, t) == prev;
      }
    }
  }

  /** At most one batch per thread; none exactly when there are no rows. */
  lemma PlanCount(n: nat, w: nat)
    requires w > 0
    ensures |Plan(n, w)| <= w
    ensures Plan(n, w) == [] <==> n == 0
  {
    BatchesUpToShape(n, w, w);
    if Plan(n, w) == [] {
      assert |Plan(n, w)| * BatchSize(n, w) == 0;
    } else {
      assert 0 * BatchSize(n, w) == 0;
    }
  }

  /** The first batch starts at row 0 and the last one ends at row `n`. */
  lemma PlanEnds(n: nat, w: nat)
    requires w > 0
    ensures Plan(n, w) != [] ==> Plan(n, w)[0].start == 0 && Plan(n, w)[|Plan(n, w)| - 1].end == n
  {
    var bs := Plan(n, w);
    var b := BatchSize(n, w);
    BatchesUpToShape(n, w, w);
    if bs != [] {
      var k := |bs| - 1;
      if |bs| == w {
        FullPlanReaches(n, w);
      }
      assert (k + 1) * b >= n;
      assert bs[k] == Batch(k * b, Min((k + 1) * b, n));
      assert bs[0] == Batch(0 * b, Min((0 + 1) * b, n));
    }
  }

  /** Every batch holds at least one row, and none reaches past row `n`. */
  lemma PlanNonEmpty(n: nat, w: nat)
    requires w > 0
    ensures forall k :: 0 <= k < |Plan(n, w)| ==> Plan(n, w)[k].start < Plan(n, w)[k].end <= n
  {
    var bs := Plan(n, w);
    var b := BatchSize(n, w);
    BatchesUpToShape(n, w, w);
    forall k | 0 <= k < |bs|
      ensures bs[k].start < bs[k].end <= n
    {
      assert (k + 1) * b == k * b + b;
    }
  }

  /** Each batch starts where the one before it ends: no row is left out or done twice. */
  lemma PlanContiguous(n: nat, w: nat)
    requires w > 0
    ensures forall k :: 0 <= k < |Plan(n, w)| - 1 ==> Plan(n, w)[k].end == Plan(n, w)[k + 1].start
  {
    var bs := Plan(n, w);
    var b := BatchSize(n, w);
    BatchesUpToShape(n, w, w);
    forall k | 0 <= k < |bs| - 1
      ensures bs[k].end == bs[k + 1].start
    {
      assert bs[k + 1] == Batch((k + 1) * b, Min((k + 1 + 1) * b, n));
      assert bs[k] == Batch(k * b, Min((k + 1) * b, n));
      assert (k + 1) * b < n;
    }
  }

  /** The valid range facts about the plan, gathered for callers. */
  lemma PlanCovers(n: nat, w: nat)
    requires w > 0
    ensures |Plan(n, w)| <= w
    ensures Plan(n, w) == [] <==> n == 0
    ensures Plan(n, w) != [] ==> Plan(n, w)[0].start == 0 && Plan(n, w)[|Plan(n, w)| - 1].end == n
    ensures forall k :: 0 <= k < |Plan(n, w)| ==> Plan(n, w)[k].start < Plan(n, w)[k].end <= n
    ensures forall k :: 0 <= k < |Plan(n, w)| - 1 ==> Plan(n, w)[k].end == Plan(n, w)[k + 1].start
  {
    PlanCount(n, w);
    PlanEnds(n, w);
    PlanNonEmpty(n, w);
    PlanContiguous(n, w);
  }
}

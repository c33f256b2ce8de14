/**
 * The main program (main.py) from the loaded index to the text of the
 * output file: split the `he` rows into batches, let one thread per batch
 * build its triples, append the batches in the order the threads finish,
 * sort by `(i, j)` and write the lines out.
 */
module Pipeline {
  import opened Wrappers
  import opened PinyinDict
  import opened Batches
  import opened Combinations
  import opened Reassembly
  import opened Writer

  /** The index has the three syllables the program looks up. */
  predicate HasSyllables(idx: Index) {
    "he" in idx && "yi" in idx && "wei" in idx
  }

  /** `dict_data['he']`, `dict_data['yi']` and `dict_data['wei']`. */
  function ColumnsOf(idx: Index): Columns
    requires HasSyllables(idx)
  {
    Columns(idx["he"], idx["yi"], idx["wei"])
  }

  /** One `process_batch` call per planned batch. */
  method ProcessAll(c: Columns, numThreads: nat) returns (batchResults: seq<seq<Triple>>)
    requires numThreads > 0
    ensures batchResults == BatchResults(c, numThreads)
  {
    var batches := PlanBatches(|c.he|, numThreads);
    batchResults := [];
    for t := 0 to |batches|
      invariant batchResults == BatchResults(c, numThreads)[..t]
    {
      var r := ProcessBatch(c, batches[t].start, batches[t].end);
      batchResults := batchResults + [r];
    }
  }

  /** `results_list.extend(batch_results)` under the lock, thread by thread in `order`. */
  method Collect(batchResults: seq<seq<Triple>>, order: seq<nat>) returns (results: seq<Triple>)
    requires forall k :: 0 <= k < |order| ==> order[k] < |batchResults|
    ensures results == Gather(batchResults, order)
  {
    results := [];
    for k := 0 to |order|
      invariant results == Gather(batchResults, order[..k])
    {
      results := results + batchResults[order[k]];
      assert order[..k + 1][..k] == order[..k];
    }
    assert order[..|order|] == order;
  }

  /**
   * Batches, threads finishing in `order`, the sort and the output loop.
   * Whatever the number of threads and whatever order they finish in, the
   * file is the row-major rendering of all triples.
   */
  method Generate(c: Columns, numThreads: nat, order: seq<nat>) returns (out: string)
    requires numThreads > 0
    requires CompletionOrder(order, |Plan(|c.he|, numThreads)|)
    ensures out == Render(Rows(c, 0, |c.he|))
  {
    var batchResults := ProcessAll(c, numThreads);
    var results := Collect(batchResults, order);
    ReassemblyRestoresOrder(c, numThreads, order);
    results := SortByKey(results);
    out := WriteResults(results);
  }

  /**
   * The whole program on the lines of `pinyin.txt`: a line without `:`
   * before its `#` stops it; otherwise the file holds every
   * `he`-`yi`-`wei` combination, row by row.
   */
  method Run(lines: seq<string>, numThreads: nat, order: seq<nat>) returns (r: Result<string, LoadError>)
    requires numThreads > 0
    requires Build(lines).Ok? ==>
      HasSyllables(Build(lines).value) &&
      CompletionOrder(order, |Plan(|Build(lines).value["he"]|, numThreads)|)
    ensures Build(lines).Err? ==> r == Err(Build(lines).error)
    ensures Build(lines).Ok? ==> r == Ok(Render(Rows(ColumnsOf(Build(lines).value), 0, |Build(lines).value["he"]|)))
  {
    var loaded := LoadPinyinDict(lines);
    match loaded
    case Err(e) =>
      r := Err(e);
    case Ok(dictData) =>
      var out := Generate(ColumnsOf(dictData), numThreads, order);
      r := Ok(out);
  }
}

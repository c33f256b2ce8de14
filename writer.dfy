/**
 * The output loop of the main program (main.py): one line per `(i, j)`
 * triple, its strings joined by spaces and followed by a space, and an
 * empty line wherever `i` changes from one triple to the next.
 */
module Writer {
  import opened Text
  import opened Combinations

  /** `' '.join(line_chars) + ' '` and the line break written after it. */
  function LineText(line: seq<string>): string {
    Join(" ", line) + " " + "\n"
  }

  /**
   * The file the loop writes for `results`: before each triple, an empty
   * line when its `i` differs from the previous triple's, never before the
   * first one.
   */
  function Render(rs: seq<Triple>): string {
    if rs == [] then []
    else
      var init := rs[..|rs| - 1];
      var last := rs[|rs| - 1];
      if init != [] && init[|init| - 1].i != last.i then Render(init) + "\n" + LineText(last.line)
      else Render(init) + LineText(last.line)
  }

  /** The file-writing loop, with `current_i` starting at `-1`. */
  method WriteResults(results: seq<Triple>) returns (out: string)
    ensures out == Render(results)
  {
    out := [];
    var currentI: int := -1;
    for n := 0 to |results|
      invariant out == Render(results[..n])
      invariant currentI == if n == 0 then -1 else results[n - 1].i
    {
      var t := results[n];
      if t.i != currentI && currentI != -1 {
        out := out + "\n";
      }
      out := out + (Join(" ", t.line) + " ");
      out := out + "\n";
      currentI := t.i;
      assert results[..n + 1][..n] == results[..n];
    }
    assert results[..|results|] == results;
  }

  /** The lines of the triples, one after the other, with no empty lines. */
  function Lines(rs: seq<Triple>): string {
    if rs == [] then [] else Lines(rs[..|rs| - 1]) + LineText(rs[|rs| - 1].line)
  }

  /** Triples that share their `i` are written without empty lines between them. */
  lemma {:induction false} RenderOneRow(rs: seq<Triple>, i: nat)
    requires forall k :: 0 <= k < |rs| ==> rs[k].i == i
    ensures Render(rs) == Lines(rs)
  {
    if rs != [] {
      RenderOneRow(rs[..|rs| - 1], i);
    }
  }

  lemma RenderSnoc(rs: seq<Triple>, t: Triple)
    ensures Render(rs + [t]) ==
      if rs != [] && rs[|rs| - 1].i != t.i then Render(rs) + "\n" + LineText(t.line) else Render(rs) + LineText(t.line)
  {
    assert (rs + [t])[..|rs|] == rs;
  }

  lemma LinesSnoc(rs: seq<Triple>, t: Triple)
    ensures Lines(rs + [t]) == Lines(rs) + LineText(t.line)
  {
    assert (rs + [t])[..|rs|] == rs;
  }

  lemma Assoc(x: string, y: string, z: string)
    ensures (x + y) + z == x + (y + z)
  {
  }

  lemma LinesOne(t: Triple)
    ensures Lines([t]) == LineText(t.line)
  {
    assert [t][..0] == [];
  }

  lemma RenderAppendNext(a: seq<Triple>, init: seq<Triple>, t: Triple)
    requires init != [] && init[|init| - 1].i == t.i
    requires Render(a + init) == Render(a) + "\n" + Lines(init)
    ensures Render(a + (init + [t])) == Render(a) + "\n" + Lines(init + [t])
  {
    assert a + (init + [t]) == (a + init) + [t];
    assert (a + init)[|a + init| - 1] == init[|init| - 1];
    RenderSnoc(a + init, t);
    LinesSnoc(init, t);
    Assoc(Render(a) + "\n", Lines(init), LineText(t.line));
  }

  /** Triples of a new `i` after others: one empty line, then their lines. */
  lemma {:induction false} RenderAppendRow(a: seq<Triple>, b: seq<Triple>, i: nat)
    requires a != [] && a[|a| - 1].i != i
    requires forall k :: 0 <= k < |b| ==> b[k].i == i
    ensures Render(a + b) == if b == [] then Render(a) else Render(a) + "\n" + Lines(b)
    decreases |b|
  {
    if b == [] {
      assert a + b == a;
    } else {
      var init := b[..|b| - 1];
      var t := b[|b| - 1];
      assert b == init + [t];
      if init == [] {
        RenderSnoc(a, t);
        LinesOne(t);
      } else {
        RenderAppendRow(a, init, i);
        RenderAppendNext(a, init, t);
      }
    }
  }

  /** The block of lines for row `i` of `he`. */
  function Block(c: Columns, i: nat): string
    requires i < |c.he|
  {
    Lines(Row(c, i, |c.yi|))
  }

  /** The blocks of the first `n` rows of `he`. */
  function Blocks(c: Columns, n: nat): seq<string>
    requires n <= |c.he|
  {
    if n == 0 then [] else Blocks(c, n - 1) + [Block(c, n - 1)]
  }

  lemma RenderFirstRow(c: Columns)
    requires 0 < |c.he|
    ensures Render(Rows(c, 0, 1)) == Join("\n", Blocks(c, 1))
  {
    RowAt(c, 0, |c.yi|);
    RenderOneRow(Row(c, 0, |c.yi|), 0);
    assert Rows(c, 0, 1) == Row(c, 0, |c.yi|);
    assert Blocks(c, 1) == [Block(c, 0)];
  }

  lemma RenderNextRow(c: Columns, n: nat)
    requires 2 <= n <= |c.he| && |c.yi| > 0
    requires Render(Rows(c, 0, n - 1)) == Join("\n", Blocks(c, n - 1))
    ensures Render(Rows(c, 0, n)) == Join("\n", Blocks(c, n))
  {
    var front := Rows(c, 0, n - 1);
    var row := Row(c, n - 1, |c.yi|);
    RowAt(c, n - 1, |c.yi|);
    RowsLength(c, 0, n - 1);
    RowsContents(c, 0, n - 1);
    assert front[|front| - 1] in front;
    RenderAppendRow(front, row, n - 1);
    JoinSnoc("\n", Blocks(c, n - 1), Block(c, n - 1));
  }

  /** Without `yi` characters there are no triples and nothing is written. */
  lemma RenderNoYi(c: Columns, n: nat)
    requires n <= |c.he| && |c.yi| == 0
    ensures Render(Rows(c, 0, n)) == []
  {
    RowsLength(c, 0, n);
  }

  /**
   * The file holds one block of lines per `he` character, in order, the
   * blocks separated by a single empty line, with no empty line before the
   * first block or after the last; when `yi` is empty there is nothing.
   */
  lemma {:induction false} RenderRows(c: Columns, n: nat)
    requires n <= |c.he|
    ensures Render(Rows(c, 0, n)) == if |c.yi| == 0 then [] else Join("\n", Blocks(c, n))
  {
    if |c.yi| == 0 {
      RenderNoYi(c, n);
    } else if n == 1 {
      RenderFirstRow(c);
    } else if n > 1 {
      RenderRows(c, n - 1);
      RenderNextRow(c, n);
    }
  }

  /** No empty line precedes the first triple's line. */
  lemma {:induction false} RenderStartsWithFirstLine(rs: seq<Triple>)
    requires rs != []
    ensures LineText(rs[0].line) <= Render(rs)
  {
    if |rs| > 1 {
      var init := rs[..|rs| - 1];
      RenderStartsWithFirstLine(init);
      assert init[0] == rs[0];
    }
  }
}

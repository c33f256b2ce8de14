# he-yi-wei in Dafny

A model of `main.py`, the program that writes every three-character string
"he·yi·wei" that can be spelled with characters read *he*, *yi* and *wei*.
The program does three things:

- It reads the `pinyin.txt` data file (`U+4E2D: zhōng,zhòng  # 中`) into a
  reverse index. The index maps each tone-free syllable to its characters,
  in first-seen order and without repeats (`load_pinyin_dict`, `remove_tone`).
- It splits the `he` characters into batches, one per worker thread. Each
  thread builds the lines `he[i] + yi[j] + wei[k]` for its rows
  (`process_batch`) and appends them to a shared list when it finishes. The
  list is then sorted by `(i, j)`.
- It writes one line per `(i, j)`, with an empty line between the blocks of
  different `i`.

The model follows the code:

| file | module | what it holds |
|---|---|---|
| `wrappers.dfy` | `Wrappers` | `Option` and `Result` |
| `text.dfy` | `Text` | Python's `strip`, `split(sep, 1)`, `split(sep)` and `join` |
| `tone.dfy` | `Tone` | `remove_tone` |
| `hexint.dfy` | `HexInt` | `int(text, 16)` and `chr` |
| `pinyin_line.dfy` | `PinyinLine` | the body of the line loop of `load_pinyin_dict` |
| `pinyin_dict.dfy` | `PinyinDict` | the whole load, as a loop updating a map, and the index it builds |
| `batches.dfy` | `Batches` | the thread-creation loop and its batches |
| `combinations.dfy` | `Combinations` | `process_batch` and the rows it produces |
| `reassembly.dfy` | `Reassembly` | appending in completion order, and the sort |
| `writer.dfy` | `Writer` | the output loop |
| `pipeline.dfy` | `Pipeline` | the main flow, from the lines of the data file to the text of the output file |

The loops of the program are `method`s proved against functions:

- `LoadPinyinDict` and `InsertReadings` update the index in place.
- `PlanBatches` is the thread-creation loop.
- `ProcessBatch` is the nested `i`/`j`/`k` loops.
- `WriteResults` is the `current_i` loop.

The properties are lemmas about those functions.

## Model

| member | source | states |
|---|---|---|
| Text.Strip | main.py:16 | `strip()` never lengthens a string and leaves no whitespace at either end |
| Text.StripIsInfix | main.py:16 | `strip()` leaves a contiguous piece of `s`, and everything before and after that piece is whitespace |
| Text.StripChars | main.py:16 | every character of `strip(s)` is in `s`; every character of `s` is in `strip(s)` or is whitespace |
| Text.SplitOnce | main.py:20 | `split(sep, 1)` has one part exactly when `sep` is absent; otherwise `s` is the part before, `sep`, and the part after, and the part before holds no `sep` |
| Text.SplitOnceAt | main.py:25 | the split happens at the first `sep`: splitting `a + sep + b` with `sep` not in `a` gives `(a, b)` |
| Text.Split | main.py:34 | `split(',')` gives at least one piece and no piece holds a comma |
| Text.JoinSplit | main.py:34 | joining the pieces of `split(sep)` with `sep` gives back the string |
| Text.SplitJoin | main.py:34 | `split(sep)` of a `join` gives back the parts when none holds `sep` |
| Text.JoinEnds | main.py:34 | parts without whitespace at their ends, joined with a non-space separator, give a string without whitespace at its ends |
| Tone.ToneMapRanges | main.py:54-62 | every key of `tone_map` lies between U+00E0 and U+01DC and every value is a plain letter between `a` and `v` |
| Tone.Base | main.py:63 | `tone_map.get(c, c)` is never a key, keeps non-keys, and gives a digit exactly for a digit |
| Tone.DropDigits | main.py:52 | deleting the digits leaves no digit and shortens the string by its number of digits |
| Tone.DropDigitsByCharacter | main.py:52 | deleting the digits distributes over concatenation, drops a digit and keeps any other character, so exactly the non-digits are kept, in order |
| Tone.MapTones | main.py:63 | the mapping keeps the length and replaces each character by its base letter at the same place |
| Tone.RemoveTone | main.py:46-64 | the result is the input's length minus its number of digits |
| Tone.RemoveToneClean | main.py:52-63 | no digit and no `tone_map` key is left in the result |
| Tone.RemoveToneByCharacter | main.py:52-63 | `remove_tone` distributes over concatenation; a digit disappears and any other character becomes its base letter, so every non-digit, non-tone character is kept in order |
| Tone.RemoveTonePlain | main.py:52-63 | a string without digits and tone marks is left unchanged |
| Tone.RemoveToneIdempotent | main.py:46-64 | `remove_tone(remove_tone(s)) == remove_tone(s)` |
| Tone.RemoveToneWithoutDigits | main.py:52-63 | on a digit-free string the length is kept and each character is replaced by its base letter in place |
| HexInt.ParseInt16Digits | main.py:30 | `int(h, 16)` of a run of hex digits is its value |
| HexInt.ParseInt16Accepts | main.py:30 | whatever `int(text, 16)` accepts holds a hex digit and only numeral characters and the whitespace `int()` skips, so no separator control U+001C..U+001F |
| HexInt.HexRoundTrip | main.py:30 | `int(h, 16)` reads back every number written as upper-case hex |
| HexInt.CodePointChar | main.py:30 | `chr(v)` succeeds exactly on the Unicode scalar values and gives the character with that code |
| PinyinLine.DecodeCodePoint | main.py:29-32 | `chr(int(code_point[2:], 16))` succeeds exactly when the hex text is read and its value is a Unicode scalar value, and the character's code is that value |
| PinyinLine.Readings | main.py:34 | a line always has at least one reading |
| PinyinLine.ReadingsNoComma | main.py:34 | no reading holds a comma |
| PinyinLine.ParseFields | main.py:25-34 | the unpacking raises exactly when there is no `:`; an entry has at least one reading |
| PinyinLine.ParseStripped | main.py:17-34 | a stripped line is skipped when it is blank, a comment or has no `#`; it raises exactly when it has a `#` and no `:` before the first `#` |
| PinyinLine.ParseLineCases | main.py:15-34 | the same cases for a raw line of the file, after its `strip()`; an entry's readings are non-empty and hold no comma |
| PinyinLine.BadCodePointSkips | main.py:29-32 | a line whose code point `int`/`chr` rejects is skipped |
| PinyinLine.CodePointRoundTrip | main.py:26-30 | `U+` and the hex of a character decodes back to that character |
| PinyinLine.ReadingsRoundTrip | main.py:34 | splitting joined readings at the commas and stripping each gives them back |
| PinyinLine.LineRoundTrip | main.py:16-34 | a line written in the file's format `U+XXXX: r1,r2  # 字` reads back as its character and readings |
| PinyinDict.InsertEffect | main.py:39-42 | after inserting `ch` for `key`, `key` has a list; that list is unchanged if it held `ch`, gets `ch` appended if it did not, and is `[ch]` for a new key; no other key changes |
| PinyinDict.InsertReadings | main.py:35-42 | the loop over one line's readings gives the index `InsertTokens` describes |
| PinyinDict.LoadPinyinDict | main.py:13-43 | the load, a loop that updates the dictionary in place, gives `Build(lines)`: the index, or the error of the first line without `:` |
| PinyinDict.BuildErrorPersists | main.py:25 | once a line has raised, later lines change nothing |
| PinyinDict.Dedup | main.py:41-42 | a list with no repeats, holding the same characters, in order of first occurrence |
| PinyinDict.InsertAgrees | main.py:39-42 | one insertion keeps each key's list equal to the repeat-free history of the characters handed to it |
| PinyinDict.InsertTokensAgrees | main.py:35-42 | the same for all readings of a line |
| PinyinDict.BuildAgrees | main.py:15-42 | the same for all lines |
| PinyinDict.IndexIsFirstSeenHits | main.py:13-43 | a syllable is a key exactly when some line hands it a character; its list is those characters, each once, in first-seen order |
| PinyinDict.IndexListsDuplicateFree | main.py:39-42 | every list of the index is non-empty and has no repeats |
| PinyinDict.InsertKnownIsNoOp | main.py:41-42 | inserting a character that a key's list already holds leaves the whole index unchanged |
| PinyinDict.EntryIsIndexed | main.py:30-42 | a read line's character ends up in the list of `remove_tone(r)` for each of its readings `r` |
| PinyinDict.SkippedLineChangesNothing | main.py:17-32 | a skipped line leaves the whole index, every entry, as it was |
| PinyinDict.BuildFromFails | main.py:25 | the load fails exactly when some outcome is a missing `:`, and the error names the first such line |
| PinyinDict.LoadFailsOnFirstColonlessLine | main.py:25 | the same, stated on the lines of the file |
| Batches.PlanBatches | main.py:140-151 | the thread-creation loop creates the batches of `Plan` |
| Batches.FullPlanReaches | main.py:140 | `num_threads` batches of `he_size // num_threads + 1` rows reach past the last row |
| Batches.BatchesUpToShape | main.py:142-145 | after `t` rounds, batch `k` is `[k*b, min((k+1)*b, n))` and starts inside the table; a round without a batch means every row is taken |
| Batches.PlanCount | main.py:142-145 | at most `num_threads` batches, and none exactly when `he_size = 0` |
| Batches.PlanEnds | main.py:143-144 | the first batch starts at row 0 and the last ends at `he_size` |
| Batches.PlanNonEmpty | main.py:143-145 | every batch is non-empty and inside `[0, he_size)` |
| Batches.PlanContiguous | main.py:143-144 | each batch starts where the previous one ends: no gap and no overlap |
| Combinations.Words | main.py:123-126 | a line holds one string per `wei` character |
| Combinations.ProcessBatch | main.py:119-127 | the nested loops give the rows `i_start` up to `i_end`, in row-major order |
| Combinations.RowsSplit | main.py:121 | consecutive batches put end to end are the rows of their union |
| Combinations.RowsLength | main.py:121-127 | `yi_size` triples per row |
| Combinations.RowsAt | main.py:121-127 | `(i, j, [he[i]+yi[j]+wei[k] for k])` sits at position `(i - s) * yi_size + j` |
| Combinations.RowsContents | main.py:121-127 | every triple is `(i, j, line)` with `i` in the batch, `j < yi_size` and the line of `i` and `j` |
| Combinations.RowsStrictlyByKey | main.py:121-127 | the rows come in strictly increasing `(i, j)` order |
| Combinations.TotalWords | main.py:115 | all rows together hold `he_size * yi_size * wei_size` strings |
| Reassembly.InsertByKey | main.py:158 | inserting into a list sorted by `(i, j)` keeps it sorted and adds exactly that triple |
| Reassembly.SortByKey | main.py:158 | the sort gives a list sorted by `(i, j)` that is a permutation of its input |
| Reassembly.SortedUnique | main.py:158 | a list sorted by key with the same triples as a strictly sorted list is that list |
| Reassembly.SortRestoresRows | main.py:158 | sorting any rearrangement of the rows gives the rows in row-major order |
| Reassembly.GatherAppend | main.py:129-130 | appending the batches of two groups of threads is appending the two lists |
| Reassembly.GatherRemove | main.py:129-130 | taking one thread out of the completion order takes its batch out of the list |
| Reassembly.GatherPermutation | main.py:129-130 | whatever order the threads append in, the shared list holds the same triples |
| Reassembly.GatherInOrder | main.py:142-151 | the batches appended in batch order are the rows up to the end of the last one |
| Reassembly.ReassemblyRestoresOrder | main.py:129-158 | whatever order the threads finish in, the sorted list is every `(i, j)` triple once, in row-major order |
| Writer.WriteResults | main.py:161-168 | the output loop writes `Render(results)`: each triple's `' '.join(line) + ' '` and a newline, with one extra newline exactly where `i` changes and never before the first |
| Writer.RenderOneRow | main.py:164-167 | triples that share their `i` are written with no empty lines between them |
| Writer.RenderRows | main.py:161-168 | for the sorted rows, the file is one block per `he` character in order, separated by single empty lines, with none before the first or after the last; with no `yi` characters it is empty |
| Writer.RenderStartsWithFirstLine | main.py:162-166 | the file starts with the first triple's line |
| Pipeline.ProcessAll | main.py:142-151 | one `process_batch` per created batch gives the results of every batch |
| Pipeline.Collect | main.py:129-130 | the appends under the lock, in completion order, give the list `Gather` describes |
| Pipeline.Generate | main.py:140-168 | for any number of threads and any completion order, the file is the row-major rendering of all triples |
| Pipeline.Run | main.py:110-168 | on the data file's lines: the error of the first line without `:`, or else the row-major rendering of all he·yi·wei triples |

## Left out

- Threads and the lock are left out (main.py:129-130, main.py:146-155). The order in which the threads finish is the parameter `order`, any permutation of the batch numbers. The appends under the lock happen one after another in that order.
- File I/O is left out. The data file is a sequence of lines, already split, and the output file is a string.
- Timing and the prints are left out (main.py:108, main.py:133, main.py:170-172).
- The commented-out earlier version (main.py:67-105) is dead code and is left out.
- Tone.IsDigit: `str.isdigit` is modelled for the ASCII digits `0`-`9` only. Other Unicode digits are kept by the model and would be dropped by Python.
- HexInt.ParseInt16: only ASCII digits are read. Python's `int` also accepts other Unicode decimal digits.
- HexInt.CodePointChar: the surrogates `0xD800`-`0xDFFF` cannot be a Dafny `char`, so a line naming one is skipped. Python returns a lone surrogate for these.
- HexInt.CodePointChar: a value too large for a C integer makes `chr` raise `OverflowError`, which nothing catches. The model skips that line like any other out-of-range value.
- Pipeline.Run: `dict_data['he']`, `['yi']` and `['wei']` raise `KeyError` when a syllable is missing. This is a precondition (`HasSyllables`) rather than an error result.
- Pipeline.Run: the thread count, fixed at 8 in the source, is any positive number.
- Reassembly.SortByKey: Python's sort is modelled as a stable insertion sort. The keys of the rows are distinct, so every sort gives the same result (`SortedUnique`).
- The character after `#` (`hanzi`) is computed and never used by the code. The model ignores it.
- Three behaviours of the code are modelled as written, though they may surprise a reader:
  - Batch size. A batch has `he_size // num_threads + 1` rows (main.py:140), not `ceil(he_size / num_threads)`. For example 16 rows and 8 threads give 3 rows per batch and 6 batches.
  - A line without `:`. A line with a `#` but no `:` before it is not skipped: the unpacking at main.py:25 raises a `ValueError` that nothing catches, and the load stops.
  - Empty syllable lists. An empty `he` creates no batch and an empty file. An empty `yi` gives an empty file. An empty `wei` gives lines that hold a single space.

/** The lexicon builder of the preprocessing script: read the embedding file
    line by line into a word-to-index dictionary and a table of weight rows,
    put a padding row in front and an unknown-word row at the end.

    A weight row is tracked by where it comes from and by its length (the
    float values are not modelled): the vector parsed from line `i` of the
    file, or a randomly drawn vector. */
module Lexicon {
  import opened Seqs

  const IntendedEmbeddingDimension: nat := 50
  const PadToken: int := 0
  const PadWord: string := "PAD"
  const UnkWord: string := "UNK"

  datatype Row = FileRow(line: nat, dim: nat) | RandomRow(dim: nat)

  /** One line of the embedding file as `line.split()` returns it: the word,
      then one field per vector component. */
  type Fields = seq<string>

  /** A line whose vector has the intended dimension; the others are skipped. */
  predicate Accepted(fields: Fields)
  {
    |fields| == IntendedEmbeddingDimension + 1
  }

  /** The word of an accepted line. */
  function WordOf(fields: Fields): string
    requires Accepted(fields)
  {
    fields[0]
  }

  datatype Lexicon = Lexicon(wordToIndex: map<string, int>, weights: seq<Row>, unknownToken: int)

  /** `values[0]` on a blank line, and `weights[0]` when no line was
      accepted, both raise an `IndexError`. */
  datatype LexError = BlankLine(line: nat) | NoEmbeddings

  datatype Built = Built(lex: Lexicon) | Failed(error: LexError)

  /** How the index of an accepted word is chosen: the builder as written
      uses the line number plus one; the corrected builder uses the number of
      rows accepted so far plus one. */
  datatype Numbering = ByLineNumber | ByRowCount

  /** The rows appended while reading the first `n` lines. */
  function RowsAfter(lines: seq<Fields>, n: nat): (rows: seq<Row>)
    requires n <= |lines|
  {
    if n == 0 then []
    else RowsAfter(lines, n - 1) + (if Accepted(lines[n - 1]) then [FileRow(n - 1, |lines[n - 1]| - 1)] else [])
  }

  /** The index given to the word of line `n - 1` when it is accepted. */
  function Entry(lines: seq<Fields>, n: nat, numbering: Numbering): int
    requires 1 <= n <= |lines|
  {
    match numbering
    case ByLineNumber => n
    case ByRowCount => |RowsAfter(lines, n - 1)| + 1
  }

  /** The dictionary after reading the first `n` lines: `PAD` first, then
      one assignment per accepted line, a later one overwriting an earlier
      one for the same word. */
  function IndexAfter(lines: seq<Fields>, n: nat, numbering: Numbering): map<string, int>
    requires n <= |lines|
  {
    if n == 0 then map[PadWord := PadToken]
    else
      var m := IndexAfter(lines, n - 1, numbering);
      if Accepted(lines[n - 1]) then m[WordOf(lines[n - 1]) := Entry(lines, n, numbering)] else m
  }

  /** The first blank line at or after `i`, or `|lines|` if there is none. */
  function FirstBlank(lines: seq<Fields>, i: nat): (b: nat)
    requires i <= |lines|
    ensures i <= b <= |lines|
    ensures forall j :: i <= j < b ==> lines[j] != []
    ensures b < |lines| ==> lines[b] == []
    decreases |lines| - i
  {
    if i == |lines| || lines[i] == [] then i else FirstBlank(lines, i + 1)
  }

  /** What the builder produces for an embedding file, given as its lines:
      the first blank line, if any, is the error; a built lexicon has random
      rows at both ends and `UNK` naming the last one. */
  function LexiconOf(lines: seq<Fields>, numbering: Numbering): (r: Built)
    ensures r.Failed? && r.error.BlankLine? ==>
              r.error.line < |lines| && lines[r.error.line] == [] &&
              forall j :: 0 <= j < r.error.line ==> lines[j] != []
    ensures r.Built? ==>
              |r.lex.weights| >= 3 && r.lex.unknownToken == |r.lex.weights| - 1 &&
              UnkWord in r.lex.wordToIndex && r.lex.wordToIndex[UnkWord] == r.lex.unknownToken &&
              r.lex.weights[0].RandomRow? && r.lex.weights[|r.lex.weights| - 1].RandomRow?
  {
    var blank := FirstBlank(lines, 0);
    if blank < |lines| then Failed(BlankLine(blank))
    else
      var rows := RowsAfter(lines, |lines|);
      if rows == [] then Failed(NoEmbeddings)
      else
        var dim := rows[0].dim;
        var weights := [RandomRow(dim)] + rows;
        var unknownToken := |weights|;
        Built(Lexicon(IndexAfter(lines, |lines|, numbering)[UnkWord := unknownToken],
                      weights + [RandomRow(dim)], unknownToken))
  }

  /** The loop of the preprocessing script that reads the embedding file,
      then the padding row, the `UNK` entry and the unknown-word row. With
      `ByLineNumber` this is the script as written; `ByRowCount` is the
      corrected numbering. */
  method BuildLexicon(lines: seq<Fields>, numbering: Numbering) returns (r: Built)
    ensures r == LexiconOf(lines, numbering)
  {
    var wordToIndex := map[PadWord := PadToken];
    var weights: seq<Row> := [];
    for index := 0 to |lines|
      invariant forall j :: 0 <= j < index ==> lines[j] != []
      invariant wordToIndex == IndexAfter(lines, index, numbering)
      invariant weights == RowsAfter(lines, index)
    {
      var values := lines[index];
      if |values| == 0 {
        return Failed(BlankLine(index));
      }
      var word := values[0];
      var wordWeights := values[1..];
      if |wordWeights| == IntendedEmbeddingDimension {
        var entry := if numbering == ByLineNumber then index + 1 else |weights| + 1;
        wordToIndex := wordToIndex[word := entry];
        weights := weights + [FileRow(index, |wordWeights|)];
      }
    }
    if |weights| == 0 {
      return Failed(NoEmbeddings);
    }
    var embeddingDimension := weights[0].dim;
    weights := [RandomRow(embeddingDimension)] + weights;
    var unknownToken := |weights|;
    wordToIndex := wordToIndex[UnkWord := unknownToken];
    weights := weights + [RandomRow(embeddingDimension)];
    r := Built(Lexicon(wordToIndex, weights, unknownToken));
  }

  // ---------------------------------------------------------------------
  // Facts about the rows and the dictionary while reading.

  /** Reading more lines only appends rows. */
  lemma {:induction false} RowsAfterPrefix(lines: seq<Fields>, a: nat, b: nat)
    requires a <= b <= |lines|
    ensures |RowsAfter(lines, a)| <= |RowsAfter(lines, b)|
    ensures RowsAfter(lines, b)[..|RowsAfter(lines, a)|] == RowsAfter(lines, a)
    decreases b - a
  {
    if a < b {
      RowsAfterPrefix(lines, a, b - 1);
    }
  }

  /** One row per accepted line, of the intended dimension, in line order:
      every row comes from an accepted line, the rows' lines strictly
      increase, and every accepted line has its row. */
  lemma {:induction false} RowsAfterContents(lines: seq<Fields>, n: nat)
    requires n <= |lines|
    ensures |RowsAfter(lines, n)| == Count(lines[..n], Accepted)
    ensures forall k :: 0 <= k < |RowsAfter(lines, n)| ==>
              RowsAfter(lines, n)[k].FileRow? && RowsAfter(lines, n)[k].line < n &&
              Accepted(lines[RowsAfter(lines, n)[k].line]) &&
              RowsAfter(lines, n)[k].dim == IntendedEmbeddingDimension
    ensures forall a, b :: 0 <= a < b < |RowsAfter(lines, n)| ==>
              RowsAfter(lines, n)[a].line < RowsAfter(lines, n)[b].line
    ensures forall j :: 0 <= j < n && Accepted(lines[j]) ==>
              FileRow(j, IntendedEmbeddingDimension) in RowsAfter(lines, n)
  {
    if n > 0 {
      RowsAfterContents(lines, n - 1);
      assert lines[..n] == lines[..n - 1] + [lines[n - 1]];
      CountAppend(lines[..n - 1], [lines[n - 1]], Accepted);
    }
  }

  /** When no line is skipped, row `k` comes from line `k`. */
  lemma {:induction false} RowsAfterNothingSkipped(lines: seq<Fields>, n: nat)
    requires n <= |lines|
    requires forall j :: 0 <= j < n ==> Accepted(lines[j])
    ensures |RowsAfter(lines, n)| == n
    ensures forall k :: 0 <= k < n ==> RowsAfter(lines, n)[k] == FileRow(k, IntendedEmbeddingDimension)
  {
    if n > 0 {
      RowsAfterNothingSkipped(lines, n - 1);
    }
  }

  /** The words in the dictionary are `PAD` and the words of accepted lines. */
  lemma {:induction false} IndexAfterKeys(lines: seq<Fields>, n: nat, numbering: Numbering, w: string)
    requires n <= |lines|
    ensures w in IndexAfter(lines, n, numbering) <==>
            w == PadWord || exists j :: 0 <= j < n && Accepted(lines[j]) && WordOf(lines[j]) == w
  {
    if n > 0 {
      IndexAfterKeys(lines, n - 1, numbering, w);
    }
  }

  /** `PAD` keeps index 0 exactly when no accepted line has the word `PAD`. */
  lemma {:induction false} IndexAfterPad(lines: seq<Fields>, n: nat, numbering: Numbering)
    requires n <= |lines|
    ensures PadWord in IndexAfter(lines, n, numbering)
    ensures IndexAfter(lines, n, numbering)[PadWord] == PadToken <==>
            forall j :: 0 <= j < n && Accepted(lines[j]) ==> WordOf(lines[j]) != PadWord
  {
    if n > 0 {
      IndexAfterPad(lines, n - 1, numbering);
    }
  }

  /** No accepted line after line `i` (and before line `n`) has the word of
      line `i`: its assignment is the one that survives. */
  predicate LastWithWord(lines: seq<Fields>, n: nat, i: nat)
    requires i < n <= |lines| && Accepted(lines[i])
  {
    forall j :: i < j < n && Accepted(lines[j]) ==> WordOf(lines[j]) != WordOf(lines[i])
  }

  /** The surviving assignment of a word is the one made by its last
      accepted line. */
  lemma {:induction false} IndexAfterValue(lines: seq<Fields>, n: nat, numbering: Numbering, i: nat)
    requires i < n <= |lines| && Accepted(lines[i]) && LastWithWord(lines, n, i)
    ensures WordOf(lines[i]) in IndexAfter(lines, n, numbering)
    ensures IndexAfter(lines, n, numbering)[WordOf(lines[i])] == Entry(lines, i + 1, numbering)
  {
    if i < n - 1 {
      IndexAfterValue(lines, n - 1, numbering, i);
    }
  }

  /** Every index handed out is at least 1 except `PAD`'s initial 0, and
      numbering by rows never hands out more than the number of rows. */
  lemma {:induction false} IndexAfterRange(lines: seq<Fields>, n: nat, numbering: Numbering)
    requires n <= |lines|
    ensures forall w :: w in IndexAfter(lines, n, numbering) ==>
              0 <= IndexAfter(lines, n, numbering)[w] && (w == PadWord || 1 <= IndexAfter(lines, n, numbering)[w])
    ensures numbering == ByRowCount ==>
              forall w :: w in IndexAfter(lines, n, numbering) ==> IndexAfter(lines, n, numbering)[w] <= |RowsAfter(lines, n)|
  {
    if n > 0 {
      IndexAfterRange(lines, n - 1, numbering);
    }
  }

  // ---------------------------------------------------------------------
  // Facts about the finished lexicon, for either numbering.

  /** Building fails exactly on a blank line, or when no line is accepted. */
  lemma LexiconFailure(lines: seq<Fields>, numbering: Numbering)
    ensures LexiconOf(lines, numbering).Failed? <==>
            (exists j :: 0 <= j < |lines| && lines[j] == []) || Count(lines, Accepted) == 0
    ensures LexiconOf(lines, numbering) == Failed(NoEmbeddings) <==>
            (forall j :: 0 <= j < |lines| ==> lines[j] != []) && Count(lines, Accepted) == 0
  {
    RowsAfterContents(lines, |lines|);
    assert lines[..|lines|] == lines;
  }

  /** The finished table: the padding row, one row of the intended dimension
      per accepted line (in file order, see `LexiconRowOrder`), then the
      unknown-word row; `UNK`
      names the last row and `PAD` names the first unless the file itself
      has an accepted line for the word `PAD`. */
  lemma LexiconShape(lines: seq<Fields>, numbering: Numbering)
    requires LexiconOf(lines, numbering).Built?
    ensures var lex := LexiconOf(lines, numbering).lex;
            |lex.weights| == Count(lines, Accepted) + 2 &&
            lex.weights[0] == RandomRow(IntendedEmbeddingDimension) &&
            lex.weights[|lex.weights| - 1] == RandomRow(IntendedEmbeddingDimension) &&
            lex.unknownToken == |lex.weights| - 1 &&
            UnkWord in lex.wordToIndex && lex.wordToIndex[UnkWord] == lex.unknownToken &&
            (forall k :: 0 <= k < |lex.weights| ==> lex.weights[k].dim == IntendedEmbeddingDimension) &&
            (forall k :: 1 <= k < |lex.weights| - 1 ==>
               lex.weights[k].FileRow? && lex.weights[k].line < |lines| && Accepted(lines[lex.weights[k].line]))
    ensures var lex := LexiconOf(lines, numbering).lex;
            PadWord in lex.wordToIndex &&
            (lex.wordToIndex[PadWord] == PadToken <==>
             forall j :: 0 <= j < |lines| && Accepted(lines[j]) ==> WordOf(lines[j]) != PadWord)
  {
    var lex := LexiconOf(lines, numbering).lex;
    var rows := RowsAfter(lines, |lines|);
    TableRows(lines, numbering);
    RowsAfterContents(lines, |lines|);
    IndexAfterPad(lines, |lines|, numbering);
    assert forall k :: 1 <= k < |lex.weights| - 1 ==> lex.weights[k] == rows[k - 1];
  }

  /** The file rows of the finished table are in file order, and every
      accepted line has its row: with the count of `LexiconShape` they are
      exactly the accepted lines, each once, in order. */
  lemma LexiconRowOrder(lines: seq<Fields>, numbering: Numbering)
    requires LexiconOf(lines, numbering).Built?
    ensures var lex := LexiconOf(lines, numbering).lex;
            |lex.weights| >= 2 &&
            (forall k :: 1 <= k < |lex.weights| - 1 ==> lex.weights[k].FileRow?) &&
            (forall a, b :: 1 <= a < b < |lex.weights| - 1 ==> lex.weights[a].line < lex.weights[b].line) &&
            (forall j :: 0 <= j < |lines| && Accepted(lines[j]) ==>
               exists k :: 1 <= k < |lex.weights| - 1 && lex.weights[k] == FileRow(j, IntendedEmbeddingDimension))
  {
    var lex := LexiconOf(lines, numbering).lex;
    var rows := RowsAfter(lines, |lines|);
    TableRows(lines, numbering);
    RowsAfterContents(lines, |lines|);
    assert forall k :: 1 <= k < |lex.weights| - 1 ==> lex.weights[k] == rows[k - 1];
    forall j | 0 <= j < |lines| && Accepted(lines[j])
      ensures exists k :: 1 <= k < |lex.weights| - 1 && lex.weights[k] == FileRow(j, IntendedEmbeddingDimension)
    {
      var i :| 0 <= i < |rows| && rows[i] == FileRow(j, IntendedEmbeddingDimension);
      assert lex.weights[i + 1] == rows[i];
    }
  }

  /** The finished table is the rows read, between two random rows. */
  lemma TableRows(lines: seq<Fields>, numbering: Numbering)
    requires LexiconOf(lines, numbering).Built?
    ensures LexiconOf(lines, numbering).lex.weights ==
            [RandomRow(IntendedEmbeddingDimension)] + RowsAfter(lines, |lines|) + [RandomRow(IntendedEmbeddingDimension)]
    ensures |RowsAfter(lines, |lines|)| == Count(lines, Accepted)
  {
    RowsAfterContents(lines, |lines|);
    assert lines[..|lines|] == lines;
  }


  /** Only `PAD` can have index 0, and numbering by rows keeps every index
      inside the table. */
  lemma LexiconIndexRange(lines: seq<Fields>, numbering: Numbering)
    requires LexiconOf(lines, numbering).Built?
    ensures var lex := LexiconOf(lines, numbering).lex;
            forall w :: w in lex.wordToIndex ==>
              0 <= lex.wordToIndex[w] && (w == PadWord || 1 <= lex.wordToIndex[w])
    ensures var lex := LexiconOf(lines, numbering).lex;
            numbering == ByRowCount ==>
              forall w :: w in lex.wordToIndex ==> lex.wordToIndex[w] < |lex.weights|
  {
    IndexAfterRange(lines, |lines|, numbering);
  }

  /** Lines of the wrong dimension add no entry: the dictionary's words are
      `PAD`, `UNK` and the words of the accepted lines. */
  lemma LexiconKeys(lines: seq<Fields>, numbering: Numbering, w: string)
    requires LexiconOf(lines, numbering).Built?
    ensures w in LexiconOf(lines, numbering).lex.wordToIndex <==>
            w == PadWord || w == UnkWord ||
            exists j :: 0 <= j < |lines| && Accepted(lines[j]) && WordOf(lines[j]) == w
  {
    IndexAfterKeys(lines, |lines|, numbering, w);
  }

  /** Every word of an accepted line that is its word's last accepted line
      (and is not `UNK`, which is overwritten) has an index that names a row
      of the table, and that row is the vector read from that very line. */
  predicate Aligned(lex: Lexicon, lines: seq<Fields>)
  {
    forall i :: 0 <= i < |lines| && Accepted(lines[i]) && WordOf(lines[i]) != UnkWord && LastWithWord(lines, |lines|, i) ==>
      WordOf(lines[i]) in lex.wordToIndex &&
      0 <= lex.wordToIndex[WordOf(lines[i])] < |lex.weights| &&
      lex.weights[lex.wordToIndex[WordOf(lines[i])]] == FileRow(i, IntendedEmbeddingDimension)
  }

  /** As written, the index of a word is its line number plus one; that
      names the word's own row when no line of the file is skipped. */
  lemma AlignedWhenNothingSkipped(lines: seq<Fields>)
    requires LexiconOf(lines, ByLineNumber).Built?
    requires forall j :: 0 <= j < |lines| ==> Accepted(lines[j])
    ensures Aligned(LexiconOf(lines, ByLineNumber).lex, lines)
  {
    var lex := LexiconOf(lines, ByLineNumber).lex;
    RowsAfterNothingSkipped(lines, |lines|);
    forall i | 0 <= i < |lines| && Accepted(lines[i]) && WordOf(lines[i]) != UnkWord && LastWithWord(lines, |lines|, i)
      ensures WordOf(lines[i]) in lex.wordToIndex
      ensures 0 <= lex.wordToIndex[WordOf(lines[i])] < |lex.weights|
      ensures lex.weights[lex.wordToIndex[WordOf(lines[i])]] == FileRow(i, IntendedEmbeddingDimension)
    {
      IndexAfterValue(lines, |lines|, ByLineNumber, i);
    }
  }

  /** With every line accepted and all words distinct (and none of them
      `UNK`), the word on line `i` has index `i + 1`, and row `i + 1` is the
      vector of line `i`. */
  lemma LineIndexAlignment(lines: seq<Fields>, i: nat)
    requires LexiconOf(lines, ByLineNumber).Built?
    requires forall j :: 0 <= j < |lines| ==> Accepted(lines[j]) && WordOf(lines[j]) != UnkWord
    requires forall j, k :: 0 <= j < k < |lines| ==> WordOf(lines[j]) != WordOf(lines[k])
    requires i < |lines|
    ensures WordOf(lines[i]) in LexiconOf(lines, ByLineNumber).lex.wordToIndex
    ensures LexiconOf(lines, ByLineNumber).lex.wordToIndex[WordOf(lines[i])] == i + 1
    ensures |LexiconOf(lines, ByLineNumber).lex.weights| == |lines| + 2
    ensures LexiconOf(lines, ByLineNumber).lex.weights[i + 1] == FileRow(i, IntendedEmbeddingDimension)
  {
    RowsAfterNothingSkipped(lines, |lines|);
    IndexAfterValue(lines, |lines|, ByLineNumber, i);
  }

  /** A two-line file whose first line is skipped: its second word is given
      index 2, which is the unknown-word index, and row 2 is the random
      unknown-word row rather than that word's vector. */
  function SkippedLineExample(): seq<Fields>
  {
    [["bad"], ["good"] + seq(IntendedEmbeddingDimension, _ => "0.5")]
  }

  lemma SkippedLineMisaligns()
    ensures LexiconOf(SkippedLineExample(), ByLineNumber).Built?
    ensures var lex := LexiconOf(SkippedLineExample(), ByLineNumber).lex;
            lex.wordToIndex["good"] == 2 == lex.unknownToken &&
            lex.weights[2] == RandomRow(IntendedEmbeddingDimension)
    ensures !Aligned(LexiconOf(SkippedLineExample(), ByLineNumber).lex, SkippedLineExample())
  {
    var lines := SkippedLineExample();
    assert !Accepted(lines[0]) && Accepted(lines[1]);
    assert RowsAfter(lines, 2) == [FileRow(1, IntendedEmbeddingDimension)];
    assert WordOf(lines[1]) == "good";
    assert LastWithWord(lines, 2, 1);
  }

  /** With two skipped lines in front, the index of the word already lies
      past the end of the table. */
  function SkippedLinesExample(): seq<Fields>
  {
    [["bad"], ["worse"], ["good"] + seq(IntendedEmbeddingDimension, _ => "0.5")]
  }

  lemma SkippedLinesOverrun()
    ensures LexiconOf(SkippedLinesExample(), ByLineNumber).Built?
    ensures var lex := LexiconOf(SkippedLinesExample(), ByLineNumber).lex;
            "good" in lex.wordToIndex && lex.wordToIndex["good"] == |lex.weights| == 3
  {
    var lines := SkippedLinesExample();
    assert !Accepted(lines[0]) && !Accepted(lines[1]) && Accepted(lines[2]);
    assert RowsAfter(lines, 3) == [FileRow(2, IntendedEmbeddingDimension)];
    assert WordOf(lines[2]) == "good";
  }

  /** Numbering accepted rows instead of lines keeps every word on its own
      row whatever lines are skipped. */
  lemma AlignedByRowCount(lines: seq<Fields>)
    requires LexiconOf(lines, ByRowCount).Built?
    ensures Aligned(LexiconOf(lines, ByRowCount).lex, lines)
  {
    var lex := LexiconOf(lines, ByRowCount).lex;
    var rows := RowsAfter(lines, |lines|);
    forall i | 0 <= i < |lines| && Accepted(lines[i]) && WordOf(lines[i]) != UnkWord && LastWithWord(lines, |lines|, i)
      ensures WordOf(lines[i]) in lex.wordToIndex
      ensures 0 <= lex.wordToIndex[WordOf(lines[i])] < |lex.weights|
      ensures lex.weights[lex.wordToIndex[WordOf(lines[i])]] == FileRow(i, IntendedEmbeddingDimension)
    {
      IndexAfterValue(lines, |lines|, ByRowCount, i);
      var before := RowsAfter(lines, i);
      assert RowsAfter(lines, i + 1) == before + [FileRow(i, IntendedEmbeddingDimension)];
      RowsAfterPrefix(lines, i + 1, |lines|);
      assert rows[|before|] == RowsAfter(lines, i + 1)[|before|];
    }
  }
}

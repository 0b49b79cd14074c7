# Tweet preprocessing and batch sampling for binary emotion classification

This Dafny project models the preprocessing pipeline and the batch samplers
of a two-stage tweet emotion classifier. The preprocessing script
(`preprocess_tf_binary.py`) does the following:

- rewrites hashtags and all-caps runs inside the tweet normaliser;
- separates the normalised tweets by the target emotion's 0/1 column;
- reads a GloVe embedding file into a word-to-index dictionary and a table of weight rows;
- encodes every tweet as a fixed row of 35 word indices;
- cuts each pool of encoded rows into a test prefix and a train suffix.

The training script (`tf_binary_clf.py`) draws balanced mini-batches of 24 rows from those pools.

Modules:

- `Seqs` (`seqs.dfy`): sequence helpers. These are `Concat`, Python's clamped slice, the ascending positions that satisfy a predicate, and counting.
- `Text` (`text.dfy`): character classes, `str.lower`, `str.isupper`, `str.split()` (runs of non-whitespace) and `" ".join`. It also proves the split/join round trip.
- `Hashtag` (`hashtag.dfy`):
  - `fix_split` with the zero-width lookahead `(?=[A-Z])`. The lookahead matches at every upper-case position.
  - the `hashtag` and `allcaps` replacement callbacks.
- `Partition` (`partition.dfy`): `clean_and_separate`. The normaliser `tokenize` is a function parameter.
- `TrainTestSplit` (`split.dfy`): `create_train_and_test`. Here `test_size` is a rational `num / den`, `int()` truncates toward zero, and slice bounds follow Python's rules.
- `Lexicon` (`lexicon.dfy`): the embedding-file loop, as a method proved against a specification function.
  - A weight row is tracked by its origin and its length: `FileRow(line, dim)` or `RandomRow(dim)`.
  - A blank line (`values[0]` raises `IndexError`) and a file with no accepted line (`weights[0]` raises `IndexError`) are error results.
- `Encoder` (`encoder.dfy`): the two encoder loops, as a method over a fresh `array2<int>` proved against `EncodedRow`.
- `Batch` (`batch.dfy`): `_get_train_batch` and `_get_test_batch`.
  - The pools are read-only `array2<int>` matrices.
  - The values `randint` returns are the `draws` parameter.

`create_train_and_test` (preprocess_tf_binary.py:91-98) does not shuffle.
The test part of each pool is its first `int(test_size * len)` rows, and the
train part is the rest.

## Model

| member | source | states |
|---|---|---|
| Hashtag.Cuts | preprocess_tf_binary.py:29 | the matches of the lookahead `(?=[A-Z])` sit at upper-case positions, in strictly ascending order |
| Hashtag.CutsComplete | preprocess_tf_binary.py:29 | every upper-case position is a match of the lookahead |
| Hashtag.Pieces | preprocess_tf_binary.py:32 | piece `j` is the Python slice `s[starts[j]:ends[j]]`, one piece per start/end pair |
| Hashtag.FixSplit | preprocess_tf_binary.py:28-32 | `fix_split` with the lookahead gives one more piece than there are matches |
| Hashtag.FixSplitConcat | preprocess_tf_binary.py:28-32 | the pieces of `fix_split` concatenate back to the input string |
| Hashtag.FixSplitCount | preprocess_tf_binary.py:28-32 | there is exactly one piece more than there are upper-case letters |
| Hashtag.FixSplitFirstPiece | preprocess_tf_binary.py:28-32 | the first piece has no upper-case letter, and it is empty iff the input is empty or starts with an upper-case letter |
| Hashtag.FixSplitLaterPieces | preprocess_tf_binary.py:28-32 | every later piece is non-empty, starts with an upper-case letter and has no other upper-case letter |
| Hashtag.FixSplitNoSpace | preprocess_tf_binary.py:28-32 | no piece has whitespace when the input has none |
| Hashtag.Hashtag | preprocess_tf_binary.py:35-42 | an all-caps body gives the body's length plus two and no capital left; any other body gives text that begins with `<hashtag>` |
| Hashtag.HashtagAllUpper | preprocess_tf_binary.py:35-39 | an all-caps body (as `str.isupper` says) yields ` body.lower() `, which splits into exactly the one lowered token |
| Hashtag.HashtagCamelCase | preprocess_tf_binary.py:35-42 | any other body yields text starting with `<hashtag>`; splitting it gives the marker, then the non-empty camel-case pieces, which glue back to the body |
| Hashtag.Allcaps | preprocess_tf_binary.py:45-47 | the result is the match's length plus ` <allcaps>` and holds no capital |
| Hashtag.AllcapsWords | preprocess_tf_binary.py:45-47 | a run of 2 or more capitals splits into the lowered run and `<allcaps>`; each letter moves to its lower-case partner |
| Text.Lower | preprocess_tf_binary.py:39 | `str.lower` keeps the length, leaves no capital, moves each capital 32 code points to its lower-case partner and fixes every other character |
| Text.LowerFacts | preprocess_tf_binary.py:39 | lowering keeps a whitespace-free string whitespace-free, and lowering twice is lowering once |
| Text.PyIsUpper | preprocess_tf_binary.py:38 | a string that passes `str.isupper` is non-empty and changed by lowering; one without capitals never passes |
| Text.Words | preprocess_tf_binary.py:190 | `str.split()` yields only non-empty, whitespace-free fields |
| Text.WordsAppendSpace | preprocess_tf_binary.py:190 | a whitespace character separates: `split(a + c + b) == split(a) + split(b)` |
| Text.Join | preprocess_tf_binary.py:41 | `" ".join` puts exactly one separator between neighbouring fields (length is the fields' total plus the field count minus one) |
| Text.WordsJoinRoundTrip | preprocess_tf_binary.py:41 | splitting undoes `" ".join` on a list of words |
| Text.WordsOfJoin | preprocess_tf_binary.py:41 | splitting a join gives back exactly the non-empty fields, provided no field has whitespace |
| Partition.CleanAndSeparate | preprocess_tf_binary.py:75-87 | the two lists together hold at most one tweet per row |
| Partition.LabelRows | preprocess_tf_binary.py:78-79 | the selected rows are exactly the rows carrying the value, in ascending order |
| Partition.TweetsWithLabelSelects | preprocess_tf_binary.py:78-85 | selecting by value keeps exactly the tweets of those rows, in row order |
| Partition.CleanAndSeparateSelects | preprocess_tf_binary.py:75-87 | the has-emotion list is the normalised tweet of each row labelled 1, in order; likewise for rows labelled 0 |
| Partition.LabelRowsTokenized | preprocess_tf_binary.py:76-79 | normalising the text moves no row between labels |
| Partition.OtherLabelsDropped | preprocess_tf_binary.py:78-79 | a row is in a list iff it carries that list's value, so no row is in both lists |
| Partition.CleanAndSeparateAppend | preprocess_tf_binary.py:75-87 | separating a concatenated corpus gives the concatenation of the separated parts |
| Partition.CleanAndSeparateSizes | preprocess_tf_binary.py:75-87 | the list sizes count the rows labelled 1 and 0; with the other rows they sum to the corpus size |
| TrainTestSplit.TruncDiv | preprocess_tf_binary.py:91 | `int()` of `a / b` truncates toward zero: the remainder `a - q*b` lies in `[0, b)` for `a >= 0` and in `(-b, 0]` for `a < 0` |
| TrainTestSplit.SliceBound | preprocess_tf_binary.py:94-98 | a bound in `0..n` is kept; a bound above `n` becomes `n`; a negative bound counts from the end (`n + i`) and becomes 0 below `-n` |
| TrainTestSplit.TestPart | preprocess_tf_binary.py:94-95 | the test part is a prefix of the pool |
| TrainTestSplit.TrainPart | preprocess_tf_binary.py:97-98 | the train part is a suffix of the pool, and the test part followed by it is the whole pool |
| TrainTestSplit.CreateTrainAndTest | preprocess_tf_binary.py:90-100 | each pool is exactly its test part followed by its train part: nothing lost, duplicated or reordered |
| TrainTestSplit.TestPartLength | preprocess_tf_binary.py:91-98 | for `0 <= test_size <= 1`, the test part has `floor(len * test_size)` rows and the train part has the rest |
| TrainTestSplit.DefaultSplit | preprocess_tf_binary.py:90-92 | with the default `test_size` of one fifth, the test part is the first `len // 5` rows of each pool |
| TrainTestSplit.PoolsIndependent | preprocess_tf_binary.py:90-100 | each pool's parts do not depend on the other pool |
| Lexicon.FirstBlank | preprocess_tf_binary.py:127-130 | the first blank line (where `values[0]` would raise), or the end of the file when there is none |
| Lexicon.LexiconOf | preprocess_tf_binary.py:123-153 | a failure on a blank line names the first blank line; a built lexicon has random rows at both ends and `UNK` names the last row |
| Lexicon.BuildLexicon | preprocess_tf_binary.py:123-153 | the loop, the padding row, the `UNK` entry and the unknown-word row produce exactly `LexiconOf(lines, numbering)` |
| Lexicon.LexiconFailure | preprocess_tf_binary.py:127-145 | building fails exactly when some line is blank or no line has 50 values; the no-embeddings error happens exactly when no line is blank and none is accepted |
| Lexicon.LexiconShape | preprocess_tf_binary.py:123-153 | the table is the padding row, one 50-wide file row per accepted line (as many as there are accepted lines, each from an accepted line), then the unknown row; `UNK` is the last index; `PAD` is 0 iff no accepted line redefines it |
| Lexicon.LexiconRowOrder | preprocess_tf_binary.py:132-135 | the file rows of the table keep file order (their lines strictly increase), and every accepted line has its row |
| Lexicon.LexiconKeys | preprocess_tf_binary.py:132-134 | the dictionary holds exactly `PAD`, `UNK` and the words of accepted lines, so skipped lines add nothing |
| Lexicon.IndexAfterValue | preprocess_tf_binary.py:134 | a word's surviving index comes from its last accepted line |
| Lexicon.RowsAfterContents | preprocess_tf_binary.py:132-135 | the rows number the accepted lines; each row comes from an accepted line and is 50 wide; their lines strictly increase; every accepted line has its row |
| Lexicon.LexiconIndexRange | preprocess_tf_binary.py:123-150 | only `PAD` can have index 0; with row-count numbering every index lies inside the table |
| Lexicon.AlignedWhenNothingSkipped | preprocess_tf_binary.py:132-135 | as written, a word's index names its own vector's row when no line is skipped |
| Lexicon.LineIndexAlignment | preprocess_tf_binary.py:134-135 | with every line accepted and distinct words, the word on line `i` has index `i + 1`, and row `i + 1` is line `i`'s vector |
| Lexicon.SkippedLineMisaligns | preprocess_tf_binary.py:132-135 | counterexample: after one skipped line, the accepted word gets the unknown-word index and names the random row |
| Lexicon.SkippedLinesOverrun | preprocess_tf_binary.py:132-135 | counterexample: after two skipped lines, the accepted word's index equals the table length |
| Lexicon.AlignedByRowCount | preprocess_tf_binary.py:134 | with row-count numbering, every word's index names its own vector's row, whatever lines are skipped |
| Encoder.Lookup | preprocess_tf_binary.py:192-195 | the looked-up index is always a dictionary value or the unknown-word index |
| Encoder.EncodedRow | preprocess_tf_binary.py:186-199 | every encoded row has `MAX_TWEET_LENGTH` (35) entries |
| Encoder.EncodeTweets | preprocess_tf_binary.py:186-199 | a fresh `len(tweets)` by 35 matrix whose row `t` is `EncodedRow(tweets[t])` |
| Encoder.EncodeCorpus | preprocess_tf_binary.py:186-215 | both loops, one falling back to `word_to_index['UNK']` and one to `UNKNOWN_TOKEN`, encode with the same unknown-word index |
| Encoder.EncodedRowMeaning | preprocess_tf_binary.py:190-198 | entry `k` is the word's index, the unknown index for an unlisted word, or padding past the last word |
| Encoder.EncodedRowTruncates | preprocess_tf_binary.py:196-198 | words after the 35th are dropped: text appended after a space does not change the row |
| Encoder.EncodedRowPadding | preprocess_tf_binary.py:186-198 | over a built lexicon an entry is 0 iff it is padding or the word `PAD` keeping index 0; no unknown word is confused with padding |
| Encoder.EncodedRowInTable | preprocess_tf_binary.py:186-198 | with row-count numbering, every encoded entry is a valid row of the embedding table |
| Batch.LabelOf | tf_binary_clf.py:44-51 | a row's label is `[1, 0]` or `[0, 1]` |
| Batch.Labels | tf_binary_clf.py:41-51 | the loop appends one label per batch row |
| Batch.CopyRow | tf_binary_clf.py:46 | `arr[i] = pool[num - 1:num]` sets row `i` to the pool row and changes no other row |
| Batch.DrawBatch | tf_binary_clf.py:40-67 | `_get_train_batch` and `_get_test_batch` (the same code, over the train and the test pools) return a fresh 24 by 35 batch: even row `i` is has-emotion row `draws[i] - 1`, odd row `i` is no-emotion row `draws[i] - 1`, and the labels say which |
| Batch.LabelsBalanced | tf_binary_clf.py:43-51 | row `i` gets `[1, 0]` iff `i` is even; `n` rows get `ceil(n/2)` has-emotion and `floor(n/2)` no-emotion labels |
| Batch.BatchBalanced | tf_binary_clf.py:40-52 | every batch of 24 holds 12 rows of each class |

## Left out

- The rest of `tokenize` (preprocess_tf_binary.py:50-72): the URL, user, emoticon, heart, number, repeat and elongation substitutions and the final lower-casing. Python's `re.sub` engine is outside the model. `clean_and_separate` takes the normaliser as a function parameter, and only the `hashtag` and `allcaps` callbacks are modelled.
- Character classes are ASCII. Python's `str.isupper`/`str.lower` also act on non-ASCII cased letters, and `str.split()` splits on Unicode whitespace beyond Latin-1.
- Reading the embedding file, the CSV corpora and the pickle output are I/O. The embedding file is modelled as the list of its lines' `split()` fields.
- Float weights: the `np.float32` parsing of vector components and `np.random.randn` rows. Rows are tracked only by origin and length. A component that does not parse as a float (a `ValueError`) is not modelled.
- The check at preprocess_tf_binary.py:136-138 comes after `continue`, so it can never fire. It prints only, and is left out.
- `balance_data_set` (preprocess_tf_binary.py:105-114) is not called by the pipeline, and it uses random sampling.
- The frame surgery in `main` (column selection, `dropna`, `reset_index`) is left out. So is the in-place overwrite of the `Tweet` column: `Tokenized` returns the new rows instead of mutating the frame.
- TrainTestSplit.CreateTrainAndTest: `test_size` is the exact rational `num / den`. The script's float product `0.2 * len` is rounded in binary floating point, which the model does not capture.
- Encoder.EncodeTweets: entries are unbounded integers. The `int32` dtype's wrap-around would need more than 2^31 embedding rows.
- Batch.DrawBatch: `arr` is `np.zeros`, a float matrix; the model stores the integer indices exactly. `randint`'s randomness is the `draws` parameter. An empty pool (where `randint(1, 0)` raises `ValueError`) and a pool not 35 wide (a broadcast error) are preconditions, not error results.
- The recurrent network, training loop, checkpoints and summaries of `tf_binary_clf.py` (lines 70 onward) run inside the ML framework.

## Findings

| source | as written | input that shows it | evidently intended | confidence | as-written member | corrected member |
|---|---|---|---|---|---|---|
| preprocess_tf_binary.py:134 | `word_to_index[word] = index + 1` numbers a word by its line in the file, but a row is appended only for lines with 50 values | lines `bad` and `good` followed by 50 values: `good` gets index 2, which is `UNKNOWN_TOKEN`, and row 2 is the random unknown row; with two skipped lines the index is 3, past the end of a 3-row table | number a word by the count of rows accepted so far plus one, so that every index names its own word's vector | not executed | Lexicon.SkippedLineMisaligns | Lexicon.AlignedByRowCount |

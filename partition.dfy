/** `clean_and_separate`: normalise every tweet of the corpus and split the
    normalised tweets by the value of the target emotion's indicator column.
    The normaliser (`tokenize`) is a parameter: its chain of regular-expression
    passes is not part of this model. */
module Partition {
  import opened Seqs

  /** One corpus row once the frame is cut down to the tweet text and the
      target emotion's column. */
  datatype Record = Record(tweet: string, indicator: int)

  const HasEmotion: int := 1
  const NoEmotion: int := 0

  /** `data['Tweet'] = data['Tweet'].apply(tokenize)` */
  function Tokenized(data: seq<Record>, tokenize: string -> string): (r: seq<Record>)
    ensures |r| == |data|
    ensures forall i :: 0 <= i < |data| ==>
              r[i].tweet == tokenize(data[i].tweet) && r[i].indicator == data[i].indicator
  {
    seq(|data|, i requires 0 <= i < |data| => Record(tokenize(data[i].tweet), data[i].indicator))
  }

  /** `data[data[emotion] == value]['Tweet'].values.tolist()` */
  function TweetsWithLabel(data: seq<Record>, value: int): (r: seq<string>)
  {
    if data == [] then []
    else (if data[0].indicator == value then [data[0].tweet] else []) + TweetsWithLabel(data[1..], value)
  }

  /** `clean_and_separate(data, emotion)`: the normalised tweets of the
      rows labelled 1, then those of the rows labelled 0; no row lands in
      both, so together they hold at most one tweet per row. */
  function CleanAndSeparate(data: seq<Record>, tokenize: string -> string): (r: (seq<string>, seq<string>))
    ensures |r.0| + |r.1| <= |data|
  {
    var cleaned := Tokenized(data, tokenize);
    TwoLabelsFit(cleaned, HasEmotion, NoEmotion);
    (TweetsWithLabel(cleaned, HasEmotion), TweetsWithLabel(cleaned, NoEmotion))
  }

  lemma {:induction false} TwoLabelsFit(data: seq<Record>, v: int, w: int)
    requires v != w
    ensures |TweetsWithLabel(data, v)| + |TweetsWithLabel(data, w)| <= |data|
  {
    if data != [] {
      TwoLabelsFit(data[1..], v, w);
    }
  }

  /** The rows carrying `value`, as ascending row numbers. */
  function LabelRows(data: seq<Record>, value: int): (rows: seq<nat>)
    ensures forall k :: 0 <= k < |rows| ==> rows[k] < |data| && data[rows[k]].indicator == value
    ensures forall i :: 0 <= i < |data| && data[i].indicator == value ==> i in rows
    ensures Increasing(rows)
  {
    Positions(data, (r: Record) => r.indicator == value)
  }

  /** The tweets of the listed rows, in the order listed. */
  function TweetsAt(data: seq<Record>, rows: seq<nat>): (r: seq<string>)
    requires forall k :: 0 <= k < |rows| ==> rows[k] < |data|
  {
    seq(|rows|, k requires 0 <= k < |rows| => data[rows[k]].tweet)
  }

  lemma {:induction false} TweetsWithLabelFrom(data: seq<Record>, value: int, p: Record -> bool, i: nat)
    requires i <= |data|
    requires forall r :: p(r) <==> r.indicator == value
    ensures TweetsWithLabel(data[i..], value) == TweetsAt(data, PositionsFrom(data, p, i))
    decreases |data| - i
  {
    if i < |data| {
      TweetsWithLabelFrom(data, value, p, i + 1);
      TweetsWithLabelStep(data, value, p, i);
    }
  }

  /** One step of `TweetsWithLabelFrom`: the row at `i` is kept exactly when
      it is one of the selected positions. */
  lemma TweetsWithLabelStep(data: seq<Record>, value: int, p: Record -> bool, i: nat)
    requires i < |data|
    requires forall r :: p(r) <==> r.indicator == value
    requires TweetsWithLabel(data[i + 1..], value) == TweetsAt(data, PositionsFrom(data, p, i + 1))
    ensures TweetsWithLabel(data[i..], value) == TweetsAt(data, PositionsFrom(data, p, i))
  {
    var rest := PositionsFrom(data, p, i + 1);
    assert data[i..][1..] == data[i + 1..];
    assert TweetsWithLabel(data[i..], value) ==
           (if data[i].indicator == value then [data[i].tweet] else []) + TweetsWithLabel(data[i + 1..], value);
    if p(data[i]) {
      assert PositionsFrom(data, p, i) == [i] + rest;
      TweetsAtCons(data, i, rest);
    } else {
      assert PositionsFrom(data, p, i) == rest;
    }
  }

  /** Selecting a leading row prepends its tweet. */
  lemma TweetsAtCons(data: seq<Record>, i: nat, rest: seq<nat>)
    requires i < |data|
    requires forall k :: 0 <= k < |rest| ==> rest[k] < |data|
    ensures TweetsAt(data, [i] + rest) == [data[i].tweet] + TweetsAt(data, rest)
  {
  }

  /** Selecting by value keeps exactly the tweets of the rows that carry the
      value, in their original order. */
  lemma TweetsWithLabelSelects(data: seq<Record>, value: int)
    ensures TweetsWithLabel(data, value) == TweetsAt(data, LabelRows(data, value))
  {
    TweetsWithLabelFrom(data, value, (r: Record) => r.indicator == value, 0);
    assert data[0..] == data;
  }

  /** The has-emotion list is the normalised tweet of every row labelled 1,
      in row order; the no-emotion list likewise for the rows labelled 0. */
  lemma CleanAndSeparateSelects(data: seq<Record>, tokenize: string -> string)
    ensures var has := LabelRows(data, HasEmotion);
            |CleanAndSeparate(data, tokenize).0| == |has| &&
            forall k :: 0 <= k < |has| ==> CleanAndSeparate(data, tokenize).0[k] == tokenize(data[has[k]].tweet)
    ensures var no := LabelRows(data, NoEmotion);
            |CleanAndSeparate(data, tokenize).1| == |no| &&
            forall k :: 0 <= k < |no| ==> CleanAndSeparate(data, tokenize).1[k] == tokenize(data[no[k]].tweet)
  {
    var cleaned := Tokenized(data, tokenize);
    TweetsWithLabelSelects(cleaned, HasEmotion);
    TweetsWithLabelSelects(cleaned, NoEmotion);
    LabelRowsTokenized(data, tokenize, HasEmotion);
    LabelRowsTokenized(data, tokenize, NoEmotion);
  }

  /** Normalising the text does not move any row between labels. */
  lemma LabelRowsTokenized(data: seq<Record>, tokenize: string -> string, value: int)
    ensures LabelRows(Tokenized(data, tokenize), value) == LabelRows(data, value)
  {
    var cleaned := Tokenized(data, tokenize);
    var p := (r: Record) => r.indicator == value;
    PositionsFromSame(cleaned, data, p, p, 0);
  }

  /** A row whose value is neither 1 nor 0 lands in neither list, and no row
      lands in both. */
  lemma OtherLabelsDropped(data: seq<Record>, i: nat)
    requires i < |data|
    ensures i in LabelRows(data, HasEmotion) <==> data[i].indicator == HasEmotion
    ensures i in LabelRows(data, NoEmotion) <==> data[i].indicator == NoEmotion
    ensures !(i in LabelRows(data, HasEmotion) && i in LabelRows(data, NoEmotion))
  {
  }

  /** Separation commutes with concatenating corpora: the lists of a joined
      corpus are the lists of its parts, joined in the same order. */
  lemma {:induction false} CleanAndSeparateAppend(a: seq<Record>, b: seq<Record>, tokenize: string -> string)
    ensures CleanAndSeparate(a + b, tokenize).0 == CleanAndSeparate(a, tokenize).0 + CleanAndSeparate(b, tokenize).0
    ensures CleanAndSeparate(a + b, tokenize).1 == CleanAndSeparate(a, tokenize).1 + CleanAndSeparate(b, tokenize).1
  {
    assert Tokenized(a + b, tokenize) == Tokenized(a, tokenize) + Tokenized(b, tokenize);
    TweetsWithLabelAppend(Tokenized(a, tokenize), Tokenized(b, tokenize), HasEmotion);
    TweetsWithLabelAppend(Tokenized(a, tokenize), Tokenized(b, tokenize), NoEmotion);
  }

  lemma {:induction false} TweetsWithLabelAppend(a: seq<Record>, b: seq<Record>, value: int)
    ensures TweetsWithLabel(a + b, value) == TweetsWithLabel(a, value) + TweetsWithLabel(b, value)
  {
    if a == [] {
      assert a + b == b;
    } else {
      assert (a + b)[1..] == a[1..] + b;
      TweetsWithLabelAppend(a[1..], b, value);
    }
  }

  /** Every row is counted once: the two lists together hold one tweet per
      row labelled 1 or 0, and all rows when every value is 1 or 0. */
  lemma CleanAndSeparateSizes(data: seq<Record>, tokenize: string -> string)
    ensures |CleanAndSeparate(data, tokenize).0| == Count(data, (r: Record) => r.indicator == HasEmotion)
    ensures |CleanAndSeparate(data, tokenize).1| == Count(data, (r: Record) => r.indicator == NoEmotion)
    ensures |CleanAndSeparate(data, tokenize).0| + |CleanAndSeparate(data, tokenize).1|
            + Count(data, (r: Record) => r.indicator != HasEmotion && r.indicator != NoEmotion) == |data|
  {
    CleanAndSeparateSelects(data, tokenize);
    LabelCount(data, HasEmotion);
    LabelCount(data, NoEmotion);
    ThreeWayCount(data);
  }

  lemma LabelCount(data: seq<Record>, value: int)
    ensures |LabelRows(data, value)| == Count(data, (r: Record) => r.indicator == value)
  {
    PositionsCount(data, (r: Record) => r.indicator == value);
  }

  lemma {:induction false} ThreeWayCount(data: seq<Record>)
    ensures Count(data, (r: Record) => r.indicator == HasEmotion) + Count(data, (r: Record) => r.indicator == NoEmotion)
            + Count(data, (r: Record) => r.indicator != HasEmotion && r.indicator != NoEmotion) == |data|
  {
    if data != [] {
      ThreeWayCount(data[1..]);
    }
  }
}

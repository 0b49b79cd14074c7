/** The batch samplers of the training script: a batch of `BatchSize` rows
    drawn with replacement, alternating between the has-emotion pool (even
    rows, one-hot label `[1, 0]`) and the no-emotion pool (odd rows, label
    `[0, 1]`). The random draws are a parameter: `draws[i]` is the value
    `randint(1, len(pool))` returns for row `i`. */
module Batch {
  import opened Seqs

  const BatchSize: nat := 24
  const MaxTweetLength: nat := 35

  const HasEmotionLabel: seq<int> := [1, 0]
  const NoEmotionLabel: seq<int> := [0, 1]

  /** The label of row `i` of a batch. */
  function LabelOf(i: nat): (l: seq<int>)
    ensures l == HasEmotionLabel || l == NoEmotionLabel
  {
    if i % 2 == 0 then HasEmotionLabel else NoEmotionLabel
  }

  /** The label list after `n` passes of the batch loop. */
  function Labels(n: nat): (ls: seq<seq<int>>)
    ensures |ls| == n
  {
    if n == 0 then [] else Labels(n - 1) + [LabelOf(n - 1)]
  }

  /** `randint(1, n)` returns a value in `1..n`: the pool a row is drawn
      from must be non-empty. */
  predicate DrawsFit(draws: seq<int>, hasCount: nat, noCount: nat)
  {
    |draws| == BatchSize &&
    forall i :: 0 <= i < |draws| ==> 1 <= draws[i] <= (if i % 2 == 0 then hasCount else noCount)
  }

  /** `arr[i] = pool[num - 1:num]`: copy one row of a pool into row `i`. */
  method CopyRow(arr: array2<int>, i: nat, pool: array2<int>, r: nat)
    requires arr != pool
    requires i < arr.Length0 && r < pool.Length0 && arr.Length1 == pool.Length1
    modifies arr
    ensures forall k :: 0 <= k < arr.Length1 ==> arr[i, k] == pool[r, k]
    ensures forall j, k :: 0 <= j < arr.Length0 && j != i && 0 <= k < arr.Length1 ==> arr[j, k] == old(arr[j, k])
  {
    for k := 0 to arr.Length1
      invariant forall c :: 0 <= c < k ==> arr[i, c] == pool[r, c]
      invariant forall j, c :: 0 <= j < arr.Length0 && j != i && 0 <= c < arr.Length1 ==> arr[j, c] == old(arr[j, c])
    {
      arr[i, k] := pool[r, k];
    }
  }

  /** `_get_train_batch` and `_get_test_batch` (the same code over the train
      and the test pools): row `i` is row `draws[i] - 1` of the has-emotion
      pool for even `i` and of the no-emotion pool for odd `i`, and the labels
      say which. The pools are only read. */
  method DrawBatch(hasIds: array2<int>, noIds: array2<int>, draws: seq<int>)
    returns (arr: array2<int>, labels: seq<seq<int>>)
    requires hasIds.Length1 == MaxTweetLength && noIds.Length1 == MaxTweetLength
    requires DrawsFit(draws, hasIds.Length0, noIds.Length0)
    ensures fresh(arr)
    ensures arr.Length0 == BatchSize && arr.Length1 == MaxTweetLength
    ensures forall i, k :: 0 <= i < BatchSize && 0 <= k < MaxTweetLength && i % 2 == 0 ==>
              arr[i, k] == hasIds[draws[i] - 1, k]
    ensures forall i, k :: 0 <= i < BatchSize && 0 <= k < MaxTweetLength && i % 2 == 1 ==>
              arr[i, k] == noIds[draws[i] - 1, k]
    ensures labels == Labels(BatchSize)
  {
    labels := [];
    arr := new int[BatchSize, MaxTweetLength]((i, k) => 0);
    for i := 0 to BatchSize
      invariant labels == Labels(i)
      invariant forall j, k :: 0 <= j < i && 0 <= k < MaxTweetLength && j % 2 == 0 ==> arr[j, k] == hasIds[draws[j] - 1, k]
      invariant forall j, k :: 0 <= j < i && 0 <= k < MaxTweetLength && j % 2 == 1 ==> arr[j, k] == noIds[draws[j] - 1, k]
    {
      var num := draws[i];
      if i % 2 == 0 {
        CopyRow(arr, i, hasIds, num - 1);
        labels := labels + [HasEmotionLabel];
      } else {
        CopyRow(arr, i, noIds, num - 1);
        labels := labels + [NoEmotionLabel];
      }
    }
  }

  /** Row `i` carries `[1, 0]` exactly when it is even, and a batch of `n`
      rows holds `ceil(n / 2)` has-emotion and `floor(n / 2)` no-emotion
      labels. */
  lemma {:induction false} LabelsBalanced(n: nat)
    ensures forall i :: 0 <= i < n ==> (Labels(n)[i] == HasEmotionLabel <==> i % 2 == 0)
    ensures Count(Labels(n), l => l == HasEmotionLabel) == (n + 1) / 2
    ensures Count(Labels(n), l => l == NoEmotionLabel) == n / 2
  {
    LabelsAt(n);
    LabelCounts(n);
  }

  /** Row `i` of every label list is `LabelOf(i)`. */
  lemma {:induction false} LabelsAt(n: nat)
    ensures forall i :: 0 <= i < n ==> Labels(n)[i] == LabelOf(i)
  {
    if n > 0 {
      LabelsAt(n - 1);
    }
  }

  /** The class counts after `n` rows. */
  lemma {:induction false} LabelCounts(n: nat)
    ensures Count(Labels(n), l => l == HasEmotionLabel) == (n + 1) / 2
    ensures Count(Labels(n), l => l == NoEmotionLabel) == n / 2
  {
    if n > 0 {
      LabelCounts(n - 1);
      CountAppend(Labels(n - 1), [LabelOf(n - 1)], l => l == HasEmotionLabel);
      CountAppend(Labels(n - 1), [LabelOf(n - 1)], l => l == NoEmotionLabel);
    }
  }

  /** Every batch is balanced: 12 rows of each class. */
  lemma BatchBalanced()
    ensures Count(Labels(BatchSize), l => l == HasEmotionLabel) == 12
    ensures Count(Labels(BatchSize), l => l == NoEmotionLabel) == 12
  {
    LabelsBalanced(BatchSize);
  }
}

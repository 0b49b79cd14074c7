/** `create_train_and_test`: each pool of encoded tweets is cut, without
    shuffling, into a test prefix and a train suffix. The fraction
    `test_size` is the rational `num / den`. */
module TrainTestSplit {

  /** Python's `int(x)` for the rational `x = a / b`: truncation toward zero
      (Dafny's `/` is Euclidean, so the negative case is written out). */
  function TruncDiv(a: int, b: int): (q: int)
    requires b > 0
    ensures a >= 0 ==> 0 <= a - q * b < b
    ensures a < 0 ==> -b < a - q * b <= 0
  {
    if a >= 0 then a / b else -((-a) / b)
  }

  /** Where a Python slice bound `i` lands in a sequence of length `n`: a
      negative bound counts from the end, and the result is clamped to
      `0..n`. */
  function SliceBound(i: int, n: nat): (k: nat)
    ensures k <= n
    ensures 0 <= i <= n ==> k == i
    ensures i > n ==> k == n
    ensures i < 0 && 0 <= n + i ==> k == n + i
    ensures n + i < 0 ==> k == 0
  {
    if i < 0 then (if n + i < 0 then 0 else n + i)
    else if i > n then n
    else i
  }

  /** `int(test_size * len(pool))` with `test_size == num / den`. */
  function TestCount(n: nat, num: int, den: int): int
    requires den > 0
  {
    TruncDiv(num * n, den)
  }

  /** The four pools handed to the training stage, in the order they are
      returned and persisted. */
  datatype Split<T> = Split(trainHas: seq<T>, trainNo: seq<T>, testHas: seq<T>, testNo: seq<T>)

  /** `pool[:k]` and `pool[k:]` for `k = int(test_size * len(pool))`: a
      prefix and the matching suffix of the pool. */
  function TestPart<T>(pool: seq<T>, num: int, den: int): (r: seq<T>)
    requires den > 0
    ensures |r| <= |pool| && r == pool[..|r|]
  {
    pool[..SliceBound(TestCount(|pool|, num, den), |pool|)]
  }

  function TrainPart<T>(pool: seq<T>, num: int, den: int): (r: seq<T>)
    requires den > 0
    ensures |r| <= |pool| && r == pool[|pool| - |r|..]
    ensures TestPart(pool, num, den) + r == pool
  {
    pool[SliceBound(TestCount(|pool|, num, den), |pool|)..]
  }

  /** `create_train_and_test(has_emo, no_emo, test_size)`: every row of
      each pool lands in exactly one part, the test part first, in the
      original order. */
  function CreateTrainAndTest<T>(has: seq<T>, no: seq<T>, num: int, den: int): (r: Split<T>)
    requires den > 0
    ensures r.testHas + r.trainHas == has
    ensures r.testNo + r.trainNo == no
  {
    Split(TrainPart(has, num, den), TrainPart(no, num, den), TestPart(has, num, den), TestPart(no, num, den))
  }

  /** For `0 <= test_size <= 1` the test part of a pool of length `L` is its
      prefix of length `floor(L * test_size)` and the train part the rest. */
  lemma TestPartLength<T>(pool: seq<T>, num: int, den: int)
    requires 0 <= num <= den && den > 0
    ensures |TestPart(pool, num, den)| == (|pool| * num) / den
    ensures |TrainPart(pool, num, den)| == |pool| - (|pool| * num) / den
  {
    var n := |pool|;
    assert num * n == n * num;
    assert n * num <= n * den by {
      MulMonotone(n, num, den);
    }
    DivBound(n * num, n, den);
  }

  lemma MulMonotone(n: nat, a: int, b: int)
    requires a <= b
    ensures n * a <= n * b
  {
  }

  lemma DivBound(x: nat, n: nat, d: int)
    requires d > 0 && x <= n * d
    ensures x / d <= n
  {
    var q := x / d;
    assert q * d <= x;
    assert q * d <= n * d;
    assert (q - n) * d <= 0;
  }

  /** The default `test_size = 0.2` puts the first fifth (rounded down) of each
      pool into the test part. */
  lemma DefaultSplit<T>(has: seq<T>, no: seq<T>)
    ensures |CreateTrainAndTest(has, no, 1, 5).testHas| == |has| / 5
    ensures |CreateTrainAndTest(has, no, 1, 5).testNo| == |no| / 5
  {
    TestPartLength(has, 1, 5);
    TestPartLength(no, 1, 5);
  }

  /** The pools are cut independently: the parts cut from one pool do not
      depend on the other pool. */
  lemma PoolsIndependent<T>(has: seq<T>, no: seq<T>, has': seq<T>, no': seq<T>, num: int, den: int)
    requires den > 0
    ensures CreateTrainAndTest(has, no, num, den).testHas == CreateTrainAndTest(has, no', num, den).testHas
    ensures CreateTrainAndTest(has, no, num, den).trainHas == CreateTrainAndTest(has, no', num, den).trainHas
    ensures CreateTrainAndTest(has, no, num, den).testNo == CreateTrainAndTest(has', no, num, den).testNo
    ensures CreateTrainAndTest(has, no, num, den).trainNo == CreateTrainAndTest(has', no, num, den).trainNo
  {
  }
}

/** `sum_of_squares_numpy`: convert the input to an int64 array (which
    refuses integers outside the int64 range), square it elementwise and sum
    it, both steps in wrapping int64 arithmetic. */
module NumpyReducer {
  import opened Int64
  import opened SumSquares

  /** What the conversion yields: the array, or numpy's OverflowError. */
  datatype Result<T> = Ok(value: T) | OverflowError

  /** The integers an int64 array holds. */
  function Ints(a: seq<int64>): seq<int> {
    seq(|a|, i requires 0 <= i < |a| => a[i] as int)
  }

  /** `np.array(num, dtype=np.int64)`, element by element in order. */
  function ToInt64Array(s: seq<int>): (r: Result<seq<int64>>)
    ensures r.Ok? <==> forall i | 0 <= i < |s| :: InRange(s[i])
    ensures r.Ok? ==> Ints(r.value) == s
  {
    if |s| == 0 then Ok([])
    else
      var last := s[|s| - 1];
      match ToInt64Array(s[..|s| - 1])
      case OverflowError => OverflowError
      case Ok(a) =>
        if InRange(last) then
          assert Ints(a + [last as int64]) == Ints(a) + [last];
          Ok(a + [last as int64])
        else OverflowError
  }

  /** `arr * arr`: elementwise wrapped product. */
  function SquareArray(a: seq<int64>): seq<int64> {
    seq(|a|, i requires 0 <= i < |a| => Mul(a[i], a[i]))
  }

  /** `np.sum` on an int64 array: wrapped additions starting from 0. Since
      wrapped addition is associative and commutative, the order in which
      numpy pairs the additions does not change the result. */
  function SumArray(a: seq<int64>): int64 {
    if |a| == 0 then 0 else Add(SumArray(a[..|a| - 1]), a[|a| - 1])
  }

  function Numpy(s: seq<int>): Result<int64> {
    match ToInt64Array(s)
    case OverflowError => OverflowError
    case Ok(arr) => Ok(SumArray(SquareArray(arr)))
  }

  /** On any converted array the reducer yields the exact sum of squares
      reduced into the int64 range. */
  lemma {:induction false} SumOfSquaredArray(a: seq<int64>)
    ensures SumArray(SquareArray(a)) == Wrap(SumSq(Ints(a)))
  {
    if |a| > 0 {
      var p, x := a[..|a| - 1], a[|a| - 1];
      assert SquareArray(a)[..|a| - 1] == SquareArray(p);
      assert Ints(a) == Ints(p) + [x as int];
      SumOfSquaredArray(p);
      SumSqAppend(Ints(p), x as int);
      WrapAdd(SumSq(Ints(p)), x as int * x as int);
    }
  }

  /** The reducer fails exactly when some element is outside the int64
      range, and otherwise returns the true sum of squares wrapped to int64. */
  lemma NumpyIsWrappedSumSq(s: seq<int>)
    ensures Numpy(s).OverflowError? <==> exists i | 0 <= i < |s| :: !InRange(s[i])
    ensures Numpy(s).Ok? ==> Numpy(s).value == Wrap(SumSq(s))
  {
    if ToInt64Array(s).Ok? {
      SumOfSquaredArray(ToInt64Array(s).value);
    }
  }

  /** When the elements and the whole sum fit in int64 (so does every square
      and every partial sum, none of them negative), all three reducers
      return the same value. */
  lemma ReducersAgree(s: seq<int>)
    requires forall i | 0 <= i < |s| :: InRange(s[i])
    requires SumSq(s) <= Max
    ensures Numpy(s) == Ok(SumSq(s) as int64)
    ensures ListComp(s) == SumSq(s)
  {
    NumpyIsWrappedSumSq(s);
    ListCompIsSumSq(s);
  }

  /** An empty input converts to an empty array whose sum is 0. */
  lemma EmptyIsZero()
    ensures Numpy([]) == Ok(0)
  {
  }

  /** On the script's input, 1..10,000,000, every element converts, but the
      sum exceeds the int64 maximum and the numpy reducer returns a wrapped
      value that differs from the other two reducers' exact one. */
  lemma ScriptInputWraps()
    ensures SumSq(Range(ScriptN)) > Max
    ensures Numpy(Range(ScriptN)) == Ok(1_291_990_006_563_070_912)
    ensures Numpy(Range(ScriptN)).value as int != SumSq(Range(ScriptN))
  {
    ScriptSum();
    NumpyIsWrappedSumSq(Range(ScriptN));
    WrapUnique(SumSq(Range(ScriptN)), 1_291_990_006_563_070_912);
  }
}

/** The sum-of-squares reducers of the benchmark script, over an arbitrary
    sequence of (unbounded, Python) integers, against one reference
    definition. */
module SumSquares {

  /** Reference definition: x0*x0 + x1*x1 + ... taken from the front. A square
      is never negative, so neither is the sum, and it is zero exactly when
      every element is. */
  function SumSq(s: seq<int>): (r: int)
    ensures r >= 0
    ensures r == 0 <==> forall i | 0 <= i < |s| :: s[i] == 0
  {
    if |s| == 0 then 0
    else
      SquarePositive(s[0]);
      assert forall i | 1 <= i < |s| :: s[i] == s[1..][i - 1];
      s[0] * s[0] + SumSq(s[1..])
  }

  lemma SquarePositive(x: int)
    ensures x * x >= 0
    ensures x * x == 0 <==> x == 0
  {
  }

  /** Appending x adds exactly x*x: what one more turn of the loop body does. */
  lemma {:induction false} SumSqAppend(s: seq<int>, x: int)
    ensures SumSq(s + [x]) == SumSq(s) + x * x
  {
    if |s| > 0 {
      assert (s + [x])[1..] == s[1..] + [x];
      SumSqAppend(s[1..], x);
    }
  }

  /** Python's builtin `sum` with its default start 0: a left-to-right fold. */
  function Sum(xs: seq<int>): int {
    if |xs| == 0 then 0 else Sum(xs[..|xs| - 1]) + xs[|xs| - 1]
  }

  /** The list `[num * num for num in num]`, built by appending in order. */
  function Squares(s: seq<int>): (r: seq<int>)
    ensures |r| == |s|
    ensures forall i | 0 <= i < |s| :: r[i] == s[i] * s[i]
  {
    if |s| == 0 then []
    else Squares(s[..|s| - 1]) + [s[|s| - 1] * s[|s| - 1]]
  }

  /** `sum_of_squares_listcomp`: sum of the list of squares. */
  function ListComp(s: seq<int>): int {
    Sum(Squares(s))
  }

  /** The comprehension reducer agrees with the reference definition. */
  lemma {:induction false} ListCompIsSumSq(s: seq<int>)
    ensures ListComp(s) == SumSq(s)
  {
    if |s| > 0 {
      var p, x := s[..|s| - 1], s[|s| - 1];
      assert s == p + [x];
      assert Squares(s)[..|s| - 1] == Squares(p);
      ListCompIsSumSq(p);
      SumSqAppend(p, x);
    }
  }

  /** `sum_of_squares_basic`: an accumulator that starts at 0 and adds the
      square of each element in order. */
  method Basic(num: seq<int>) returns (result: int)
    ensures result == SumSq(num)
    ensures result >= 0
    ensures |num| == 0 ==> result == 0
  {
    result := 0;
    var i := 0;
    while i < |num|
      invariant 0 <= i <= |num|
      invariant result == SumSq(num[..i])
    {
      assert num[..i + 1] == num[..i] + [num[i]];
      SumSqAppend(num[..i], num[i]);
      result := result + num[i] * num[i];
      i := i + 1;
    }
    assert num[..i] == num;
  }

  /** `list(range(1, n + 1))`: the integers 1 through n in increasing order. */
  function Range(n: nat): (r: seq<int>)
    ensures |r| == n
    ensures forall i | 0 <= i < n :: r[i] == i + 1
  {
    if n == 0 then [] else Range(n - 1) + [n]
  }

  /** The input length the benchmark script builds. */
  const ScriptN: nat := 10_000_000

  lemma ClosedFormStep(n: int, prev: int)
    requires n >= 1
    requires 6 * prev == (n - 1) * n * (2 * n - 1)
    ensures 6 * (prev + n * n) == n * (n + 1) * (2 * n + 1)
  {
  }

  /** The sum of the squares of 1..n is n(n+1)(2n+1)/6. */
  lemma {:induction false} RangeClosedForm(n: nat)
    ensures 6 * SumSq(Range(n)) == n * (n + 1) * (2 * n + 1)
    ensures SumSq(Range(n)) == n * (n + 1) * (2 * n + 1) / 6
  {
    if n > 0 {
      RangeClosedForm(n - 1);
      SumSqAppend(Range(n - 1), n);
      ClosedFormStep(n, SumSq(Range(n - 1)));
    }
  }

  lemma SmallRanges()
    ensures SumSq(Range(3)) == 14
    ensures SumSq(Range(10)) == 385
  {
    RangeClosedForm(3);
    RangeClosedForm(10);
  }

  /** On the script's own input the exact sum is about 3.33 * 10^20. */
  lemma ScriptSum()
    ensures SumSq(Range(ScriptN)) == 333_333_383_333_335_000_000
  {
    RangeClosedForm(ScriptN);
  }

  /** An empty input yields 0 from the reference and from the comprehension. */
  lemma EmptyIsZero()
    ensures SumSq([]) == 0 && ListComp([]) == 0
  {
  }
}

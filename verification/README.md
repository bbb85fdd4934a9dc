# Sum of squares: three reducers, one specification

A Dafny model of the benchmark script `code_1.py`, which computes the sum of
squares of the list `1..10,000,000` in three ways:

- `sum_of_squares_basic`: an accumulator that starts at 0 and adds `num * num`
  for each element in order (the loop variable shadows the parameter, but the
  loop still walks the original list);
- `sum_of_squares_listcomp`: builds the list of squares with a comprehension
  and passes it to the builtin `sum`;
- `sum_of_squares_numpy`: converts the list to an `int64` array, squares it
  elementwise and calls `np.sum`.

Python integers are unbounded, so the first two reducers are modelled on
Dafny's `int`. The numpy reducer is modelled with explicit `int64` semantics
(module `Int64`): the conversion fails with `OverflowError` when an element
lies outside the signed 64-bit range, and the elementwise product and the sum
wrap modulo 2^64. Everything is stated against one reference definition,
`SumSq`, a recursion over the sequence from the front.

Modules:

- `Int64` (`int64.dfy`): the int64 range, the `int64` newtype, `Wrap`, and
  wrapped `Add` and `Mul`;
- `SumSquares` (`sum_squares.dfy`): `SumSq`, Python's `sum`, the loop reducer
  `Basic` as a method with a loop invariant, the comprehension reducer
  `ListComp`, the input `Range(n)` for `list(range(1, n + 1))`, and the closed
  form n(n+1)(2n+1)/6;
- `NumpyReducer` (`numpy_reducer.dfy`): conversion, elementwise square, wrapped
  sum, and the theorems that tie the numpy reducer to `SumSq`.

The script's input gives an exact sum of 333,333,383,333,335,000,000. That is
above the int64 maximum of 9,223,372,036,854,775,807. On this input the model
proves that the numpy reducer returns 1,291,990,006,563,070,912, so it does not
return what the other two reducers return. The three agree whenever every
element and the total fit in int64 (`NumpyReducer.ReducersAgree`).

## Model

| member | source | states |
|---|---|---|
| SumSquares.SumSq | code_1.py:10 | the sum of squares is never negative, and it is zero exactly when every element is zero |
| SumSquares.SumSqAppend | code_1.py:9-10 | appending x to the input adds exactly x*x to the sum, which is what one loop iteration adds |
| SumSquares.Basic | code_1.py:7-11 | the loop reducer returns the reference sum of squares of the whole input (loop invariant: after i elements the accumulator is the sum of squares of the first i), is non-negative, and returns 0 on an empty input |
| SumSquares.Squares | code_1.py:15 | the comprehension list has the input's length, and element i is the square of input element i |
| SumSquares.ListCompIsSumSq | code_1.py:14-15 | summing the comprehension list gives the reference sum of squares on every input, so it equals the loop reducer's result |
| SumSquares.Range | code_1.py:4 | `list(range(1, n + 1))` has n elements and element i is i + 1 |
| SumSquares.RangeClosedForm | code_1.py:4 | for the input 1..n the sum of squares is n(n+1)(2n+1)/6 |
| SumSquares.SmallRanges | code_1.py:4 | for n = 3 the sum is 14 and for n = 10 it is 385 |
| SumSquares.ScriptSum | code_1.py:4 | for the script's n = 10,000,000 the exact sum is 333,333,383,333,335,000,000 |
| SumSquares.EmptyIsZero | code_1.py:8-15 | the reference and the comprehension reducer yield 0 on an empty input |
| Int64.Wrap | code_1.py:20 | the wrapped value is an int64 congruent to the exact value modulo 2^64, and is the exact value when that fits in int64 |
| Int64.WrapUnique | code_1.py:20 | exactly one int64 value is congruent to a given integer, so the wrapped result does not depend on how it was computed |
| Int64.WrapAdd | code_1.py:20 | wrapping the operands of an addition first gives the same int64 result as wrapping the exact sum |
| NumpyReducer.ToInt64Array | code_1.py:19 | the int64 conversion succeeds exactly when every element is in the int64 range, and then holds the input's values in order |
| NumpyReducer.SumOfSquaredArray | code_1.py:20 | squaring an int64 array elementwise and summing it yields the exact sum of squares reduced into the int64 range |
| NumpyReducer.NumpyIsWrappedSumSq | code_1.py:18-20 | the numpy reducer fails exactly when some element is outside int64; otherwise it returns the exact sum of squares wrapped to int64 |
| NumpyReducer.ReducersAgree | code_1.py:7-20 | if every element and the total fit in int64, the numpy, comprehension and loop reducers return the same value |
| NumpyReducer.EmptyIsZero | code_1.py:18-20 | the numpy reducer returns 0 on an empty input |
| NumpyReducer.ScriptInputWraps | code_1.py:4-20 | on 1..10,000,000 the exact sum exceeds int64, and the numpy reducer returns 1,291,990,006,563,070,912 instead of it |

## Left out

- The timing harness (`timeit` with `number=10` and the division by 10, code_1.py:23-31): wall-clock measurement producing floats, with nothing to prove.
- The printed report and its fixed-point formatting (code_1.py:34-37): output only.
- The commentary on the GIL and the recorded timings (code_1.py:39-47): prose, not behaviour.
- Materialising the 10,000,000-element list: the input is the parameter `n` of `Range`, or an arbitrary sequence, and `ScriptN` is the script's value.
- The order in which `np.sum` adds array elements is not modelled: `SumArray` adds left to right. Wrapped addition is associative and commutative, so any order gives the same int64 result.
- Determinism of the reducers needs no statement: every reducer is a Dafny function or a method without state, so equal inputs give equal results.
- Memory exhaustion while building the comprehension list or the array is not modelled.

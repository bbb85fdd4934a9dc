/** Signed 64-bit two's-complement integers, as numpy's `int64` dtype stores
    them: a value range, and the wrap-around that `*` and `+` on int64 arrays
    perform silently when an exact result leaves that range. */
module Int64 {

  const Min: int := -0x8000_0000_0000_0000
  const Max: int := 0x7FFF_FFFF_FFFF_FFFF
  /** 2^64: two int64 results of the same exact value differ by a multiple of it. */
  const Modulus: int := 0x1_0000_0000_0000_0000

  newtype int64 = x: int | -0x8000_0000_0000_0000 <= x <= 0x7FFF_FFFF_FFFF_FFFF

  predicate InRange(x: int) {
    Min <= x <= Max
  }

  /** x and y leave the same remainder modulo 2^64. */
  predicate Congruent(x: int, y: int) {
    (x - y) % Modulus == 0
  }

  /** The int64 value a machine holds after computing the exact integer x. */
  function Wrap(x: int): (r: int64)
    ensures InRange(x) ==> r as int == x
    ensures Congruent(x, r as int)
  {
    ((x - Min) % Modulus + Min) as int64
  }

  /** Wrapped addition, as numpy adds two int64 values. */
  function Add(a: int64, b: int64): int64 {
    Wrap(a as int + b as int)
  }

  /** Wrapped multiplication, as numpy multiplies two int64 values. */
  function Mul(a: int64, b: int64): int64 {
    Wrap(a as int * b as int)
  }

  /** Wrap is the only int64 value congruent to its argument. */
  lemma WrapUnique(x: int, r: int)
    requires InRange(r) && Congruent(x, r)
    ensures Wrap(x) as int == r
  {
  }

  /** Wrapping the operands first does not change the wrapped sum. */
  lemma WrapAdd(x: int, y: int)
    ensures Add(Wrap(x), Wrap(y)) == Wrap(x + y)
  {
  }
}

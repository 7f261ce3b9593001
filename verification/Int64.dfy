/** Go's int64: two's-complement addition that wraps around modulo 2^64. */
module Int64 {
  const TWO_63: int := 0x8000_0000_0000_0000
  const TWO_64: int := 0x1_0000_0000_0000_0000

  predicate InRange(x: int) {
    -TWO_63 <= x < TWO_63
  }

  type int64 = x: int | InRange(x)

  /** The int64 congruent to `x` modulo 2^64. */
  function Wrap(x: int): (r: int64)
    ensures InRange(x) ==> r == x
  {
    (x + TWO_63) % TWO_64 - TWO_63
  }

  function Add(a: int64, b: int64): int64 {
    Wrap(a + b)
  }

  /** `Wrap` picks the one int64 in each residue class. */
  lemma WrapUnique(x: int, y: int, k: int)
    requires x == y + k * TWO_64
    ensures Wrap(x) == Wrap(y)
  {
    var a, b := (x + TWO_63) % TWO_64, (y + TWO_63) % TWO_64;
    var p, q := (x + TWO_63) / TWO_64, (y + TWO_63) / TWO_64;
    assert a - b == (k - p + q) * TWO_64;
  }

  /** Wrapping an operand first changes nothing: sums may be wrapped at every step or once at the end. */
  lemma WrapOperand(x: int, y: int)
    ensures Wrap(Wrap(x) + y) == Wrap(x + y)
    ensures Wrap(x + Wrap(y)) == Wrap(x + y)
  {
    WrapUnique(x + y, Wrap(x) + y, (x + TWO_63) / TWO_64);
    WrapUnique(x + y, x + Wrap(y), (y + TWO_63) / TWO_64);
  }

  lemma AddAssociative(a: int64, b: int64, c: int64)
    ensures Add(Add(a, b), c) == Add(a, Add(b, c))
  {
    WrapOperand(a + b, c);
    WrapOperand(a, b + c);
  }
}

/** Go's int64 arithmetic. */
module Int64 {
  const TWO_TO_THE_63: int := 0x8000_0000_0000_0000

  type int64 = x: int | -TWO_TO_THE_63 <= x < TWO_TO_THE_63

  /** The int64 a sum wraps around to. */
  function Wrap(x: int): int64 { (x + TWO_TO_THE_63) % (2 * TWO_TO_THE_63) - TWO_TO_THE_63 }

  /** Division rounds towards zero. */
  function Quotient(a: int, b: int): int
    requires b > 0
  {
    if a >= 0 then a / b else -(-a / b)
  }

  lemma WrapOfWrap(x: int, y: int)
    ensures Wrap(Wrap(x) + y) == Wrap(x + y)
  {
    var q, z := (x + TWO_TO_THE_63) / (2 * TWO_TO_THE_63), x + y + TWO_TO_THE_63;
    assert Wrap(x) == x - q * (2 * TWO_TO_THE_63);
    assert z == z / (2 * TWO_TO_THE_63) * (2 * TWO_TO_THE_63) + z % (2 * TWO_TO_THE_63);
    assert z - q * (2 * TWO_TO_THE_63) == (z / (2 * TWO_TO_THE_63) - q) * (2 * TWO_TO_THE_63) + z % (2 * TWO_TO_THE_63);
  }

  lemma WrapsNegative(x: int)
    requires TWO_TO_THE_63 <= x < 2 * TWO_TO_THE_63
    ensures Wrap(x) < 0
  {
  }

  lemma WrapsToItself(x: int)
    requires 0 <= x < TWO_TO_THE_63
    ensures Wrap(x) == x
  {
  }
}

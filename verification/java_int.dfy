/** Java's 32-bit `int`: its range, two's-complement wrap-around and the `(int)` cast of a `long`. */
module JavaInt {

  const TWO_32: int := 0x1_0000_0000
  const MIN_INT: int := -0x8000_0000
  const MAX_INT: int := 0x7fff_ffff

  /** The values of a Java `int`. */
  type Int32 = x: int | MIN_INT <= x <= MAX_INT

  /** Two's-complement truncation of an unbounded integer to 32 bits: what an `int` addition
      (including `AtomicIntegerArray.addAndGet`) and an `(int)` cast of a `long` produce. */
  function Wrap32(x: int): (r: Int32)
    ensures MIN_INT <= x <= MAX_INT ==> r == x
    ensures (x - r) % TWO_32 == 0
  {
    var m := (x - MIN_INT) % TWO_32;
    assert x - (m + MIN_INT) == ((x - MIN_INT) / TWO_32) * TWO_32;
    m + MIN_INT
  }

  /** Two integers that differ by a multiple of 2^32 wrap to the same `int`: the `(int)` cast
      of a node id in `getResult` reads the same slot for ids 2^32 apart. */
  lemma WrapCongruent(x: int, y: int)
    requires (x - y) % TWO_32 == 0
    ensures Wrap32(x) == Wrap32(y)
  {
    var k := (x - y) / TWO_32;
    assert x - MIN_INT == (y - MIN_INT) + k * TWO_32;
    ModShift(y - MIN_INT, k);
  }

  /** Adding a multiple of 2^32 does not change the remainder (the step of `WrapCongruent`). */
  lemma ModShift(a: int, k: int)
    ensures (a + k * TWO_32) % TWO_32 == a % TWO_32
  {
    var q := a / TWO_32;
    var r := a % TWO_32;
    assert a + k * TWO_32 == (q + k) * TWO_32 + r;
  }

  /** Adding to an already wrapped value wraps like adding to the unwrapped one: a chain of
      32-bit additions equals one wrap of the exact sum (used by
      `ParallelStorage.VisitExtendsPass` for the successive `addAndGet` calls on one slot). */
  lemma WrapAddLeft(a: int, b: int)
    ensures Wrap32(Wrap32(a) + b) == Wrap32(a + b)
  {
    assert ((Wrap32(a) + b) - (a + b)) % TWO_32 == 0 by {
      var k := (a - Wrap32(a)) / TWO_32;
      assert (Wrap32(a) + b) - (a + b) == -k * TWO_32;
      ModShift(0, -k);
    }
    WrapCongruent(Wrap32(a) + b, a + b);
  }
}

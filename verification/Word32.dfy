/** Signed 32-bit words and powers of two. */
module Word32 {

  const WORD: int := 0x1_0000_0000
  const HALF: int := 0x8000_0000

  /** The int32 that agrees with `x` modulo 2^32. */
  function Wrap(x: int): (r: int)
    ensures -HALF <= r < HALF
    ensures (x - r) % WORD == 0
  {
    var m := x % WORD;
    if m < HALF then m else m - WORD
  }

  function Pow2(n: nat): (r: int)
    ensures r >= 1
  {
    if n == 0 then 1 else 2 * Pow2(n - 1)
  }

  lemma {:induction false} Pow2Grows(a: nat, b: nat)
    requires a <= b
    ensures Pow2(a) <= Pow2(b)
    decreases b
  {
    if a < b {
      Pow2Grows(a, b - 1);
    }
  }

  lemma Pow2Values()
    ensures Pow2(29) == 0x2000_0000 && Pow2(30) == 0x4000_0000 && Pow2(31) == HALF && Pow2(32) == WORD
  {
    assert Pow2(5) == 32;
    assert Pow2(10) == 1024;
    assert Pow2(15) == 0x8000;
    assert Pow2(20) == 0x10_0000;
    assert Pow2(25) == 0x200_0000;
    assert Pow2(30) == 0x4000_0000;
  }
}

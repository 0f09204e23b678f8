/** Pi by the series of Leibniz, 4 (1 - 1/3 + 1/5 - ...), and Euler's transformation of it.

The partial sums with an odd number of terms fall towards pi and those with an even number rise
towards it.  Taking differences of the terms again and again gives another series for the same
number; how far its partial sums are from those of the first one is known exactly.
*/
module Leibniz {

  function Odd(n: nat): (r: real)
    ensures r >= 1.0
  {
    (2 * n + 1) as real
  }

  function Unit(n: nat): (r: real) {
    1.0 / Odd(n)
  }

  predicate Even(n: nat) {
    n % 2 == 0
  }

  /** The sum of the first n terms. */
  function Partial(n: nat): real {
    if n == 0 then 0.0
    else if Even(n - 1) then Partial(n - 1) + 4.0 * Unit(n - 1)
    else Partial(n - 1) - 4.0 * Unit(n - 1)
  }

  /** `x` is the whole part of `scale` times pi. */
  ghost predicate IsWholePart(x: int, scale: real) {
    (forall m: nat :: AtMost(x, scale, Over(m))) && exists m: nat :: Under(x + 1, scale, Over(m))
  }

  ghost predicate AtMost(x: int, scale: real, v: real) {
    x as real <= scale * v
  }

  ghost predicate Under(x: int, scale: real, v: real) {
    scale * v < x as real
  }

  /** The partial sums above pi. */
  function Over(m: nat): real {
    Partial(2 * m + 1)
  }

  lemma WholePartIsUnique(x: int, y: int, scale: real)
    requires IsWholePart(x, scale) && IsWholePart(y, scale)
    ensures x == y
  {
    var m: nat :| Under(x + 1, scale, Over(m));
    var k: nat :| Under(y + 1, scale, Over(k));
    assert AtMost(y, scale, Over(m)) && AtMost(x, scale, Over(k));
  }

  lemma Parity(m: nat)
    ensures Even(2 * m) && !Even(2 * m + 1)
  {
  }

  lemma Inverse(n: nat)
    ensures Unit(n) * Odd(n) == 1.0 && Unit(n) > 0.0
  {
  }

  lemma Smaller(n: nat)
    ensures 0.0 < Unit(n + 1) < Unit(n)
  {
  }

  /** One more term above, one more below. */
  lemma Steps(m: nat)
    ensures Partial(2 * m + 1) == Partial(2 * m) + 4.0 * Unit(2 * m)
    ensures Partial(2 * m + 2) == Partial(2 * m + 1) - 4.0 * Unit(2 * m + 1)
  {
    Parity(m);
  }

  ghost predicate Inverts(u: real, n: int) {
    u > 0.0 && u * n as real == 1.0
  }

  lemma OverStep(m: nat)
    ensures Over(m) == Partial(2 * m) + 4.0 * Unit(2 * m) && Inverts(Unit(2 * m), 4 * m + 1)
  {
    Steps(m);
    Inverse(2 * m);
  }

  /** The partial sums close in on one number. */
  lemma ClosesIn(m: nat)
    ensures Partial(2 * m) < Partial(2 * m + 2) < Partial(2 * m + 3) < Partial(2 * m + 1)
    ensures Partial(2 * m + 1) - Partial(2 * m) == 4.0 * Unit(2 * m)
  {
    Steps(m);
    Steps(m + 1);
    Smaller(2 * m);
    Smaller(2 * m + 1);
  }

  // ---------------------------------------------------------------- differences

  /** The terms' differences of order j, halved j times. */
  function Diff(j: nat, n: nat): real {
    if j == 0 then Unit(n) else (Diff(j - 1, n) - Diff(j - 1, n + 1)) / 2.0
  }

  lemma OddStep(n: nat, k: nat)
    ensures Odd(n + k) == Odd(n) + 2.0 * (k as real)
  {
  }

  /** x to y is as a to b. */
  ghost predicate Ratio(x: real, y: real, a: real, b: real) {
    x * b == y * a
  }

  lemma UnitRatio(n: nat)
    ensures Unit(n) > 0.0 && Ratio(Unit(n + 1), Unit(n), Odd(n), Odd(n + 1))
  {
    Inverse(n);
    Inverse(n + 1);
  }

  /** Neighbouring differences are in simple proportion. */
  lemma {:induction false} DiffRatio(j: nat, n: nat)
    ensures Diff(j, n) > 0.0 && Ratio(Diff(j, n + 1), Diff(j, n), Odd(n), Odd(n + j + 1))
    decreases j, 0
  {
    if j == 0 {
      UnitRatio(n);
    } else {
      NextOrder(j - 1, n);
      NextOrder(j - 1, n + 1);
      RatioStep(Diff(j - 1, n), Diff(j - 1, n + 1), Diff(j, n), Diff(j, n + 1), j as real,
                Odd(n), Odd(n + j), Odd(n + j + 1));
    }
  }

  /** So are those of the next order. */
  lemma {:induction false} NextOrder(j: nat, n: nat)
    ensures Diff(j, n) > 0.0 && Ratio(Diff(j, n + 1), Diff(j, n), Odd(n), Odd(n + j + 1))
    ensures Ratio(Diff(j + 1, n), Diff(j, n), (j + 1) as real, Odd(n + j + 1))
    decreases j, 1
  {
    DiffRatio(j, n);
    OddStep(n, j + 1);
    HalfDifference(Diff(j, n), Diff(j, n + 1), Diff(j + 1, n), (j + 1) as real, Odd(n), Odd(n + j + 1));
  }

  lemma RatioStep(x: real, y: real, x': real, y': real, j: real, a: real, b: real, c: real)
    requires x > 0.0 && j > 0.0 && b > 0.0 && Ratio(y, x, a, b) && Ratio(x', x, j, b) && Ratio(y', y, j, c)
    ensures x' > 0.0 && Ratio(y', x', a, c)
  {
    assert x * j > 0.0;
    Positive(x', b);
    assert (y' * c) * b == (y * b) * j;
    assert (x * a) * j == (x * j) * a == (x' * b) * a == (x' * a) * b;
    Cancel(y' * c, x' * a, b);
  }

  lemma Positive(x: real, b: real)
    requires b > 0.0 && x * b > 0.0
    ensures x > 0.0
  {
  }

  lemma Cancel(p: real, q: real, b: real)
    requires b > 0.0 && p * b == q * b
    ensures p == q
  {
    assert (p - q) * b == 0.0;
  }

  lemma HalfDifference(x: real, y: real, z: real, j: real, a: real, c: real)
    requires z == (x - y) / 2.0 && Ratio(y, x, a, c) && c == a + 2.0 * j
    ensures Ratio(z, x, j, c)
  {
    assert 2.0 * (z * c) == x * c - y * c == x * c - x * a;
    assert x * c == x * a + 2.0 * (x * j);
  }

  lemma DiffFalls(j: nat, n: nat)
    ensures 0.0 < Diff(j, n + 1) < Diff(j, n)
  {
    DiffRatio(j, n + 1);
    DiffRatio(j + 1, n);
  }

  // ---------------------------------------------------------------- Euler's series

  /** The first j terms of Euler's series for the tail of the series from the n-th term on. */
  function Euler(j: nat, n: nat): real {
    if j == 0 then 0.0 else Euler(j - 1, n) + Diff(j - 1, n) / 2.0
  }

  lemma {:induction false} EulerPositive(j: nat, n: nat)
    ensures Euler(j, n) >= 0.0 && (j > 0 ==> Euler(j, n) > 0.0)
  {
    if j > 0 {
      EulerPositive(j - 1, n);
      DiffRatio(j - 1, n);
    }
  }

  /** Two neighbouring tails make up a term, but for a difference of order j. */
  lemma {:induction false} EulerPair(j: nat, n: nat)
    ensures Euler(j, n) + Euler(j, n + 1) == Unit(n) - Diff(j, n)
  {
    if j > 0 {
      EulerPair(j - 1, n);
      assert Diff(j, n) == (Diff(j - 1, n) - Diff(j - 1, n + 1)) / 2.0;
    }
  }

  /** The alternating sum of differences of order j. */
  function Alternating(j: nat, n: nat): real {
    if n == 0 then 0.0
    else if Even(n - 1) then Alternating(j, n - 1) + Diff(j, n - 1)
    else Alternating(j, n - 1) - Diff(j, n - 1)
  }

  /** Euler's sum and Leibniz's, and what is between them. */
  lemma {:induction false} EulerIsLeibniz(j: nat, n: nat)
    ensures 4.0 * Euler(j, 0)
            == Partial(n) + (if Even(n) then 4.0 * Euler(j, n) else -4.0 * Euler(j, n)) - 4.0 * Alternating(j, n)
  {
    if n > 0 {
      EulerIsLeibniz(j, n - 1);
      EulerPair(j, n - 1);
      assert Even(n) != Even(n - 1);
    }
  }

  lemma AlternatingSteps(j: nat, m: nat)
    ensures Alternating(j, 2 * m + 1) == Alternating(j, 2 * m) + Diff(j, 2 * m)
    ensures Alternating(j, 2 * m + 2) == Alternating(j, 2 * m + 1) - Diff(j, 2 * m + 1)
  {
    Parity(m);
  }

  lemma {:induction false} AlternatingBounds(j: nat, m: nat)
    ensures Alternating(j, 2 * m) <= Diff(j, 0) - Diff(j, 2 * m)
    ensures m > 0 ==> Alternating(j, 2 * m) >= Diff(j, 0) - Diff(j, 1)
  {
    if m > 0 {
      AlternatingBounds(j, m - 1);
      AlternatingSteps(j, m - 1);
      DiffFalls(j, 2 * m - 2);
      DiffFalls(j, 2 * m - 1);
    }
  }

  /** Euler's sum with four times the next difference is above pi. */
  lemma EulerAbove(j: nat, m: nat)
    ensures Partial(2 * m) < 4.0 * Euler(j, 0) + 4.0 * Diff(j, 0)
  {
    Parity(m);
    AlternatingBounds(j, m);
    DiffRatio(j, 2 * m);
    EulerIsLeibniz(j, 2 * m);
    EulerPositive(j, 2 * m);
  }

  /** With three times it is below. */
  lemma EulerBelow(j: nat, m: nat)
    requires j > 0
    ensures 4.0 * Euler(j, 0) + 3.0 * Diff(j, 0) < Partial(2 * m + 1)
  {
    Parity(m);
    EulerIsLeibniz(j, 2 * m + 1);
    EulerPositive(j, 2 * m + 1);
    OddAlternating(j, m);
    ThreeQuarters(j);
  }

  lemma OddAlternating(j: nat, m: nat)
    ensures Alternating(j, 2 * m + 1) >= Diff(j, 0) - Diff(j, 1)
  {
    AlternatingBounds(j, m);
    AlternatingSteps(j, m);
    DiffRatio(j, 2 * m);
    DiffFalls(j, 0);
  }

  lemma ThreeQuarters(j: nat)
    requires j > 0
    ensures 4.0 * (Diff(j, 0) - Diff(j, 1)) >= 3.0 * Diff(j, 0)
  {
    NextOrder(j, 0);
    OddStep(0, j + 1);
    assert Diff(j + 1, 0) == (Diff(j, 0) - Diff(j, 1)) / 2.0;
    AtLeastThree(Diff(j, 0), Diff(j + 1, 0), Odd(j + 1), (j + 1) as real);
  }

  lemma AtLeastThree(x: real, z: real, c: real, j: real)
    requires x > 0.0 && Ratio(z, x, j, c) && c == 1.0 + 2.0 * j && j >= 2.0
    ensures 8.0 * z >= 3.0 * x
  {
    assert x * c == x + 2.0 * (x * j);
    assert (8.0 * z - 3.0 * x) * c == 8.0 * (x * j) - 3.0 * (x * c) == 2.0 * (x * j) - 3.0 * x;
    assert x * j >= x * 2.0;
    Positive(8.0 * z - 3.0 * x, c);
  }
}

/** The digit spigot of misc/cgo/gmp/pi.go, with its big integers as integers.

After k terms the sum of 2 j!/(3 5 ... (2j+1)) over j < k is known, and the limit lies
between that sum plus three and plus four times the next scale.  A digit is printed once
both ends of the interval agree on it.  The state has a closed form, and whatever has been
printed is the decimal prefix of every point of this and all later intervals.  All of them hold
pi, as it is given by the series of Leibniz.
*/
module Spigot {

  import L = Leibniz

  // ---------------------------------------------------------------- the series

  function Fact(k: nat): (f: int)
    ensures f >= 1
  {
    if k == 0 then 1 else Fact(k - 1) * k
  }

  /** The product of the odd numbers up to 2k+1. */
  function Odds(k: nat): (d: int)
    ensures d >= 1
  {
    if k == 0 then 1 else Odds(k - 1) * (2 * k + 1)
  }

  /** The sum of the first k terms, over the denominator Odds(k). */
  function Sum(k: nat): int {
    if k == 0 then 0 else (Sum(k - 1) + 2 * Fact(k - 1)) * (2 * k + 1)
  }

  /** The ends of the interval after k terms, over the denominator Odds(k). */
  function Low(k: nat): int {
    3 * Fact(k) + Sum(k)
  }

  function High(k: nat): int {
    4 * Fact(k) + Sum(k)
  }

  /** The next term maps the interval into itself. */
  lemma Nested(k: nat)
    ensures Low(k + 1) == Low(k) * (2 * k + 3) + Fact(k) * k
    ensures High(k + 1) == High(k) * (2 * k + 3) - 2 * Fact(k)
  {
    NestedAlgebra(Fact(k), Sum(k), k);
  }

  lemma NestedAlgebra(f: int, a: int, k: int)
    ensures 3 * (f * (k + 1)) + (a + 2 * f) * (2 * k + 3) == (3 * f + a) * (2 * k + 3) + f * k
    ensures 4 * (f * (k + 1)) + (a + 2 * f) * (2 * k + 3) == (4 * f + a) * (2 * k + 3) - 2 * f
  {
    var y, g := 2 * k + 3, f * k;
    assert f * (k + 1) == g + f;
    assert f * y == 2 * g + 3 * f by {
      assert f * (2 * k + 3) == f * (2 * k) + f * 3;
      assert f * (2 * k) == 2 * (f * k);
    }
    Distribute(a, 2, f, y);
    Distribute(a, 3, f, y);
    Distribute(a, 4, f, y);
  }

  lemma Distribute(a: int, c: int, f: int, y: int)
    ensures (a + c * f) * y == a * y + c * (f * y)
    ensures (c * f + a) * y == a * y + c * (f * y)
  {
  }

  function Pow(b: int, n: nat): int {
    if n == 0 then 1 else b * Pow(b, n - 1)
  }

  lemma {:induction false} PowPositive(b: int, n: nat)
    requires b >= 1
    ensures Pow(b, n) >= 1
  {
    if n > 0 {
      PowPositive(b, n - 1);
      assert b * Pow(b, n - 1) >= 1;
    }
  }

  /** The interval at least halves with every term. */
  lemma {:induction false} Shrinks(k: nat)
    ensures High(k) - Low(k) == Fact(k)
    ensures Fact(k) * Pow(2, k) <= Odds(k)
  {
    if k > 0 {
      Shrinks(k - 1);
      ShrinkStep(Fact(k - 1), Pow(2, k - 1), Odds(k - 1), k);
    }
  }

  lemma ShrinkStep(f: int, p: int, d: int, k: int)
    requires f * p <= d && d >= 0 && k >= 0
    ensures (f * k) * (2 * p) <= d * (2 * k + 1)
  {
    MulMono(f * p, d, 2 * k);
    assert (f * k) * (2 * p) == (f * p) * (2 * k);
    assert d * (2 * k + 1) == d * (2 * k) + d;
  }

  lemma MulMono(a: int, b: int, c: int)
    requires a <= b && c >= 0
    ensures a * c <= b * c
  {
  }

  // ---------------------------------------------------------------- the limit is pi

  /** The series is Euler's. */
  lemma {:induction false} IsEuler(k: nat)
    ensures Share(Fact(k), L.Diff(k, 0), Odds(k)) && Share(Sum(k), 4.0 * L.Euler(k, 0), Odds(k))
  {
    if k == 0 {
      FirstTerm();
    } else {
      IsEuler(k - 1);
      L.NextOrder(k - 1, 0);
      FactStep(Fact(k - 1), Odds(k - 1), k, L.Diff(k - 1, 0), L.Diff(k, 0), Fact(k), Odds(k));
      SumStep(Fact(k - 1), Odds(k - 1), Sum(k - 1), k, L.Diff(k - 1, 0), L.Euler(k - 1, 0), Sum(k), Odds(k));
      assert 4.0 * L.Euler(k, 0) == 4.0 * L.Euler(k - 1, 0) + 2.0 * L.Diff(k - 1, 0);
    }
  }

  lemma FirstTerm()
    ensures Share(Fact(0), L.Diff(0, 0), Odds(0)) && Share(Sum(0), 4.0 * L.Euler(0, 0), Odds(0))
  {
    L.Inverse(0);
  }

  /** `n` is `x` over the denominator `o`. */
  ghost predicate Share(n: int, x: real, o: int) {
    n as real == x * o as real
  }

  lemma FactStep(f: int, o: int, k: int, d: real, d': real, f': int, o': int)
    requires Share(f, d, o) && f' == f * k && o' == o * (2 * k + 1) && L.Ratio(d', d, k as real, (2 * k + 1) as real)
    ensures Share(f', d', o')
  {
    var y, x, j := (2 * k + 1) as real, o as real, k as real;
    AsProduct(o, 2 * k + 1);
    AsProduct(f, k);
    assert d' * (x * y) == (d' * y) * x;
    assert (d * j) * x == (d * x) * j;
  }

  lemma SumStep(f: int, o: int, s: int, k: int, d: real, e: real, s': int, o': int)
    requires Share(f, d, o) && Share(s, 4.0 * e, o) && s' == (s + 2 * f) * (2 * k + 1) && o' == o * (2 * k + 1)
    ensures Share(s', 4.0 * e + 2.0 * d, o')
  {
    var y, x, z := (2 * k + 1) as real, o as real, 4.0 * e + 2.0 * d;
    AsProduct(o, 2 * k + 1);
    AsProduct(s + 2 * f, 2 * k + 1);
    Combined(s, f, 4.0 * e, d, o, 2);
    assert z * (x * y) == (z * x) * y;
  }

  lemma Combined(s: int, f: int, e: real, d: real, o: int, c: int)
    requires Share(s, e, o) && Share(f, d, o)
    ensures Share(s + c * f, e + c as real * d, o)
  {
    AsProduct(c, f);
    var x, r := o as real, c as real;
    assert (e + r * d) * x == e * x + r * (d * x);
  }

  lemma AsProduct(a: int, b: int)
    ensures (a * b) as real == a as real * b as real
  {
  }

  /** `n` over `o` is below `x`, or above it. */
  ghost predicate Below(n: int, o: int, x: real) {
    n as real < x * o as real
  }

  ghost predicate Beyond(n: int, o: int, x: real) {
    x * o as real < n as real
  }

  /** Every interval holds pi: its ends are on either side of all of Leibniz's partial sums. */
  lemma HoldsPi(k: nat, m: nat)
    ensures Below(Low(k), Odds(k), L.Partial(2 * m + 1)) && Beyond(High(k), Odds(k), L.Partial(2 * m))
  {
    LowIsBelow(k, m);
    IsEuler(k);
    L.EulerAbove(k, m);
    EndAbove(L.Partial(2 * m), Sum(k), Fact(k), Odds(k), 4.0 * L.Euler(k, 0), L.Diff(k, 0));
  }

  lemma EndAbove(p: real, s: int, f: int, o: int, e: real, d: real)
    requires Share(s, e, o) && Share(f, d, o) && o >= 1 && p < e + 4.0 * d
    ensures Beyond(4 * f + s, o, p)
  {
    Combined(s, f, e, d, o, 4);
    Scaled(p, e + 4.0 * d, o as real);
  }

  lemma EndBelow(p: real, s: int, f: int, o: int, e: real, d: real)
    requires Share(s, e, o) && Share(f, d, o) && o >= 1 && e + 3.0 * d < p
    ensures Below(3 * f + s, o, p)
  {
    Combined(s, f, e, d, o, 3);
    Scaled(e + 3.0 * d, p, o as real);
  }

  lemma LowIsBelow(k: nat, m: nat)
    ensures Below(Low(k), Odds(k), L.Over(m))
  {
    if k == 0 {
      LaterLowIsBelow(1, m);
      assert Low(1) == 9 && Odds(1) == 3 && Low(0) == 3 && Odds(0) == 1;
    } else {
      LaterLowIsBelow(k, m);
    }
  }

  lemma LaterLowIsBelow(k: nat, m: nat)
    requires k > 0
    ensures Below(Low(k), Odds(k), L.Over(m))
  {
    IsEuler(k);
    L.EulerBelow(k, m);
    EndBelow(L.Over(m), Sum(k), Fact(k), Odds(k), 4.0 * L.Euler(k, 0), L.Diff(k, 0));
  }

  lemma Scaled(a: real, b: real, o: real)
    requires a < b && o > 0.0
    ensures a * o < b * o
  {
  }

  // ---------------------------------------------------------------- decimal prefixes

  /** The number whose decimal digits are `ds`. */
  function Decimal(ds: seq<int>): int {
    if ds == [] then 0 else 10 * Decimal(ds[..|ds| - 1]) + ds[|ds| - 1]
  }

  /** `p` is the integer part of 10^n times every point of the interval after k terms. */
  ghost predicate Prefix(p: int, n: nat, k: nat) {
    p * Odds(k) <= Pow(10, n) * Low(k) && Pow(10, n) * High(k) < (p + 1) * Odds(k)
  }

  /** The digits `ds`, one of them before the point, are settled after k terms. */
  ghost predicate Settled(ds: seq<int>, k: nat) {
    ds != [] ==> Prefix(Decimal(ds), |ds| - 1, k)
  }

  /** The digits `ds` are the first ones of pi. */
  ghost predicate IsPi(ds: seq<int>) {
    ds != [] ==> L.IsWholePart(Decimal(ds), Pow(10, |ds| - 1) as real)
  }

  lemma SettledIsPi(ds: seq<int>, k: nat)
    requires Settled(ds, k)
    ensures IsPi(ds)
  {
    if ds != [] {
      PrefixIsPi(Decimal(ds), |ds| - 1, k);
    }
  }

  /** A settled prefix is that of pi. */
  lemma PrefixIsPi(p: int, n: nat, k: nat)
    requires Prefix(p, n, k)
    ensures L.IsWholePart(p, Pow(10, n) as real)
  {
    var t := Pow(10, n);
    PowPositive(10, n);
    forall m: nat ensures L.AtMost(p, t as real, L.Over(m)) {
      LowIsBelow(k, m);
      AtMostPi(p, t, Odds(k), Low(k), L.Over(m));
    }
    var far := UnderFarOut(p, t, k);
  }

  lemma UnderFarOut(p: int, t: int, k: nat) returns (far: nat)
    requires t >= 1 && t * High(k) < (p + 1) * Odds(k)
    ensures L.Under(p + 1, t as real, L.Over(far))
  {
    far := Product(t, Odds(k));
    HoldsPi(k, far);
    L.OverStep(far);
    UnderNext(p, t, Odds(k), High(k), L.Partial(2 * far), L.Unit(2 * far), far);
  }

  lemma Product(t: int, o: int) returns (far: nat)
    requires t >= 1 && o >= 1
    ensures far == t * o
  {
    MulMono(1, t, o);
    far := t * o;
  }

  lemma AtMostPi(p: int, t: int, o: int, l: int, x: real)
    requires t >= 1 && o >= 1 && p * o <= t * l && Below(l, o, x)
    ensures L.AtMost(p, t as real, x)
  {
    var y, u := o as real, t as real;
    AsProduct(p, o);
    AsProduct(t, l);
    Scaled(l as real, x * y, u);
    assert (x * y) * u == (u * x) * y;
    BelowBy(p as real, u * x, y);
  }

  lemma BelowBy(a: real, b: real, o: real)
    requires o > 0.0 && a * o < b * o
    ensures a < b
  {
  }

  lemma UnderNext(p: int, t: int, o: int, h: int, x: real, u: real, far: int)
    requires t >= 1 && o >= 1 && t * h < (p + 1) * o && Beyond(h, o, x)
    requires far == t * o && L.Inverts(u, 4 * far + 1)
    ensures L.Under(p + 1, t as real, x + 4.0 * u)
  {
    var y, w := o as real, t as real;
    AsProduct(p + 1, o);
    AsProduct(t, h);
    AsProduct(t, o);
    Scaled(x * y, h as real, w);
    assert (w * (x + 4.0 * u)) * y == (x * y) * w + 4.0 * (u * (w * y));
    assert u * (4.0 * (w * y) + 1.0) == 4.0 * (u * (w * y)) + u;
    BelowBy(w * (x + 4.0 * u), (p + 1) as real, y);
  }

  lemma PrefixStep(p: int, n: nat, k: nat)
    requires Prefix(p, n, k)
    ensures Prefix(p, n, k + 1)
  {
    var t, y, d, f := Pow(10, n), 2 * k + 3, Odds(k), Fact(k);
    PowPositive(10, n);
    Nested(k);
    LowStep(p, t, y, d, Low(k), f * k);
    HighStep(p + 1, t, y, d, High(k), 2 * f);
  }

  lemma LowStep(p: int, t: int, y: int, d: int, l: int, e: int)
    requires t >= 0 && y > 0 && e >= 0 && p * d <= t * l
    ensures p * (d * y) <= t * (l * y + e)
  {
    MulMono(p * d, t * l, y);
    assert p * (d * y) == (p * d) * y;
    assert t * (l * y + e) == (t * l) * y + t * e by {
      assert t * (l * y + e) == t * (l * y) + t * e;
    }
    MulMono(0, t, e);
  }

  lemma HighStep(p: int, t: int, y: int, d: int, h: int, e: int)
    requires t >= 0 && y > 0 && e >= 0 && t * h < p * d
    ensures t * (h * y - e) < p * (d * y)
  {
    MulMono(t * h + 1, p * d, y);
    assert (t * h + 1) * y == (t * h) * y + y;
    assert p * (d * y) == (p * d) * y;
    assert t * (h * y - e) == (t * h) * y - t * e by {
      assert t * (h * y - e) == t * (h * y) - t * e;
    }
    MulMono(0, t, e);
  }

  /** Once settled, a prefix stays settled: no later interval leaves it. */
  lemma {:induction false} PrefixForever(p: int, n: nat, k: nat, j: nat)
    requires Prefix(p, n, k) && k <= j
    ensures Prefix(p, n, j)
    decreases j - k
  {
    if k < j {
      PrefixStep(p, n, k);
      PrefixForever(p, n, k + 1, j);
    }
  }

  /** The limit is between 3 and 4. */
  lemma {:induction false} Bounds(k: nat)
    ensures 3 * Odds(k) <= Low(k) <= High(k) <= 4 * Odds(k)
  {
    if k > 0 {
      Bounds(k - 1);
      Nested(k - 1);
      MulMono(0, Fact(k - 1), k - 1);
      BoundsStep(Odds(k - 1), 2 * k + 1, Low(k - 1), High(k - 1), Fact(k - 1) * (k - 1), 2 * Fact(k - 1));
    }
  }

  lemma BoundsStep(d: int, y: int, l: int, h: int, e: int, e': int)
    requires 3 * d <= l && h <= 4 * d && y >= 0 && e >= 0 && e' >= 0
    ensures 3 * (d * y) <= l * y + e && h * y - e' <= 4 * (d * y)
  {
    MulMono(3 * d, l, y);
    MulMono(h, 4 * d, y);
    assert (3 * d) * y == 3 * (d * y) && (4 * d) * y == 4 * (d * y);
  }

  // ---------------------------------------------------------------- the program

  lemma TermAlgebra(t: int, s: int, f: int, p: int, d: int, y: int)
    ensures (t * s - 10 * p * d + 2 * (t * f)) * y == t * ((s + 2 * f) * y) - 10 * p * (d * y)
  {
    assert (t * s - 10 * p * d + 2 * (t * f)) * y == (t * s) * y - (10 * p * d) * y + 2 * ((t * f) * y);
    assert (t * s) * y == t * (s * y) && (t * f) * y == t * (f * y);
    assert (10 * p * d) * y == 10 * p * (d * y);
    assert t * ((s + 2 * f) * y) == t * (s * y) + 2 * (t * (f * y)) by {
      assert (s + 2 * f) * y == s * y + 2 * (f * y);
      assert t * (s * y + 2 * (f * y)) == t * (s * y) + t * (2 * (f * y));
    }
  }

  /** Both ends of the interval, less what was printed, share the integer part `d`. */
  ghost predicate Shares(d: int, numer: int, accum: int, denom: int) {
    d * denom <= 3 * numer + accum && 4 * numer + accum < (d + 1) * denom
  }

  /** A shared digit extends the prefix by one place. */
  lemma DigitExtends(d: int, p: int, n: nat, k: nat, accum: int)
    requires accum == Pow(10, n) * Sum(k) - 10 * p * Odds(k)
    requires Shares(d, Pow(10, n) * Fact(k), accum, Odds(k))
    ensures Prefix(10 * p + d, n, k)
  {
    ExtendAlgebra(d, p, Pow(10, n), Fact(k), Sum(k), Odds(k));
  }

  lemma ExtendAlgebra(d: int, p: int, t: int, f: int, s: int, o: int)
    requires d * o <= 3 * (t * f) + (t * s - 10 * p * o) && 4 * (t * f) + (t * s - 10 * p * o) < (d + 1) * o
    ensures (10 * p + d) * o <= t * (3 * f + s) && t * (4 * f + s) < (10 * p + d + 1) * o
  {
    assert t * (3 * f + s) == 3 * (t * f) + t * s && t * (4 * f + s) == 4 * (t * f) + t * s;
    assert (10 * p + d) * o == 10 * p * o + d * o;
    assert (10 * p + d + 1) * o == 10 * p * o + (d + 1) * o;
  }

  lemma DigitRange(d: int, p: int, n: nat, k: nat)
    requires Prefix(10 * p + d, n, k)
    requires if n == 0 then p == 0 else Prefix(p, n - 1, k)
    ensures 0 <= d <= 9
  {
    if n == 0 {
      Bounds(k);
      FirstDigit(d, Low(k), High(k), Odds(k));
    } else {
      PowPositive(10, n - 1);
      LaterDigit(d, p, Pow(10, n - 1), Low(k), High(k), Odds(k));
    }
  }

  lemma FirstDigit(d: int, l: int, h: int, o: int)
    requires o >= 1 && 3 * o <= l <= h <= 4 * o && d * o <= l && h < (d + 1) * o
    ensures 0 <= d <= 9
  {
    StrictlyBelow(d, 5, o);
    StrictlyBelow(0, d + 1, o);
  }

  lemma LaterDigit(d: int, p: int, t: int, l: int, h: int, o: int)
    requires o >= 1 && l <= h && t >= 0
    requires p * o <= t * l && t * h < (p + 1) * o
    requires (10 * p + d) * o <= (10 * t) * l && (10 * t) * h < (10 * p + d + 1) * o
    ensures 0 <= d <= 9
  {
    assert (10 * t) * l == 10 * (t * l) && (10 * t) * h == 10 * (t * h);
    assert (10 * p) * o == 10 * (p * o) && (10 * p + 10) * o == 10 * ((p + 1) * o);
    assert t * l <= t * h by {
      MulMono(l, h, t);
    }
    StrictlyBelow(10 * p + d, 10 * p + 10, o);
    StrictlyBelow(10 * p, 10 * p + d + 1, o);
  }

  lemma StrictlyBelow(a: int, b: int, o: int)
    requires o >= 1 && a * o < b * o
    ensures a < b
  {
    if a >= b {
      MulMono(b, a, o);
    }
  }

  ghost function Numer(ds: seq<int>, k: nat): int {
    Pow(10, |ds|) * Fact(k)
  }

  ghost function Accum(ds: seq<int>, k: nat): int {
    Pow(10, |ds|) * Sum(k) - 10 * Decimal(ds) * Odds(k)
  }

  /** The closed form of the state after `k` terms and the digits `ds`. */
  ghost predicate Form(numer: int, accum: int, denom: int, ds: seq<int>, k: nat) {
    numer == Numer(ds, k) && accum == Accum(ds, k) && denom == Odds(k)
  }

  /** After the k-th term a digit is printed exactly when both ends of the interval have it. */
  ghost function WithDigit(ds: seq<int>, k: nat): seq<int> {
    var n, a, d := Numer(ds, k), Accum(ds, k), Odds(k);
    if n <= a && (3 * n + a) / d == (4 * n + a) / d then ds + [(3 * n + a) / d] else ds
  }

  /** What is printed by the time k terms have been taken in. */
  ghost function DigitsAfter(k: nat): seq<int> {
    if k == 0 then [] else WithDigit(DigitsAfter(k - 1), k)
  }

  lemma FormTerm(numer: int, accum: int, denom: int, ds: seq<int>, k: nat)
    requires Form(numer, accum, denom, ds, k)
    ensures Form(numer * (k + 1), (accum + 2 * numer) * (2 * (k + 1) + 1), denom * (2 * (k + 1) + 1), ds, k + 1)
  {
    var t := Pow(10, |ds|);
    TermAlgebra(t, Sum(k), Fact(k), Decimal(ds), Odds(k), 2 * (k + 1) + 1);
    Associate(t, Fact(k), k + 1);
  }

  lemma Associate(a: int, b: int, c: int)
    ensures (a * b) * c == a * (b * c)
  {
  }

  lemma FormDigit(numer: int, accum: int, denom: int, ds: seq<int>, k: nat, d: int)
    requires Form(numer, accum, denom, ds, k)
    ensures Form(numer * 10, (accum - denom * d) * 10, denom, ds + [d], k)
    ensures Decimal(ds + [d]) == 10 * Decimal(ds) + d
  {
    var t := Pow(10, |ds|);
    assert (ds + [d])[..|ds|] == ds;
    EliminateAlgebra(t, Sum(k), Decimal(ds), d, Odds(k));
    Associate(10, t, Fact(k));
  }

  class Spigot {
    var tmp1: int
    var tmp2: int
    var numer: int
    var accum: int
    var denom: int
    var k: nat             // terms consumed
    var printed: seq<int>  // digits printed

    /** The closed form of the state, and what the printed digits mean. */
    ghost predicate Valid()
      reads this
    {
      && Form(numer, accum, denom, printed, k)
      && Settled(printed, k)
      && forall i :: 0 <= i < |printed| ==> 0 <= printed[i] <= 9
    }

    constructor ()
      ensures Valid() && printed == [] && k == 0
    {
      tmp1, tmp2, numer, accum, denom, k, printed := 0, 0, 1, 0, 1, 0, [];
    }

    /** The digit both ends of the interval begin with, or -1.  A digit is given exactly when
        there is one and the accumulator has caught up with the numerator. */
    method ExtractDigit() returns (d: int)
      requires numer > 0 && denom > 0
      modifies this`tmp1, this`tmp2
      ensures d >= 0 ==> Shares(d, numer, accum, denom) && d == (3 * numer + accum) / denom
      ensures d >= 0 <==> numer <= accum && (3 * numer + accum) / denom == (4 * numer + accum) / denom
      ensures d >= -1
    {
      if numer > accum {
        return -1;
      }
      tmp1 := numer * 2;
      tmp1 := tmp1 + numer;
      tmp1 := tmp1 + accum;
      tmp1, tmp2 := tmp1 / denom, tmp1 % denom;
      ghost var x, q, r := 3 * numer + accum, tmp1, tmp2;
      assert x == q * denom + r;
      tmp2 := tmp2 + numer;
      SharedQuotient(x, numer, denom);
      if tmp2 >= denom {
        return -1;
      }
      return tmp1;
    }

    method NextTerm(n: int)
      modifies this`tmp1, this`numer, this`accum, this`denom
      ensures accum == (old(accum) + 2 * old(numer)) * (2 * n + 1)
      ensures numer == old(numer) * n && denom == old(denom) * (2 * n + 1)
    {
      var y2 := n * 2 + 1;
      tmp1 := numer * 2;
      accum := accum + tmp1;
      accum := accum * y2;
      numer := numer * n;
      denom := denom * y2;
    }

    method EliminateDigit(d: int)
      modifies this`tmp1, this`numer, this`accum
      ensures accum == (old(accum) - denom * d) * 10 && numer == old(numer) * 10
    {
      tmp1 := denom * d;
      accum := accum - tmp1;
      accum := accum * 10;
      numer := numer * 10;
    }

    /** One more term. */
    method Term()
      requires Valid()
      modifies this
      ensures Valid() && k == old(k) + 1 && printed == old(printed)
    {
      FormTerm(numer, accum, denom, printed, k);
      if printed != [] {
        PrefixStep(Decimal(printed), |printed| - 1, k);
      }
      NextTerm(k + 1);
      k := k + 1;
    }

    /** Print `d` if it is a digit. */
    method Print(d: int)
      requires Valid() && d >= 0 && Shares(d, numer, accum, denom)
      modifies this
      ensures Valid() && k == old(k) && printed == old(printed) + [d]
    {
      DigitExtends(d, Decimal(printed), |printed|, k, accum);
      DigitRange(d, Decimal(printed), |printed|, k);
      FormDigit(numer, accum, denom, printed, k, d);
      EliminateDigit(d);
      printed := printed + [d];
    }

    /** One round of the inner loop: a term, and a digit if it settles one. */
    method Round()
      requires Valid()
      modifies this
      ensures Valid() && k == old(k) + 1 && printed == WithDigit(old(printed), k)
    {
      Term();
      Positive();
      assert numer == Numer(printed, k) && accum == Accum(printed, k);
      var d := ExtractDigit();
      if d >= 0 {
        Print(d);
      }
    }

    lemma Positive()
      requires Valid()
      ensures numer > 0 && denom > 0
    {
      PowPositive(10, |printed|);
      MulMono(1, Pow(10, |printed|), Fact(k));
    }
  }

  lemma EliminateAlgebra(t: int, s: int, p: int, d: int, o: int)
    ensures (t * s - 10 * p * o - o * d) * 10 == (10 * t) * s - 10 * (10 * p + d) * o
  {
  }

  lemma SharedQuotient(x: int, n: int, den: int)
    requires den > 0 && n > 0 && x >= 0
    ensures var q, r := x / den, x % den;
            && (r + n < den <==> (x + n) / den == q)
            && q * den <= x
            && (r + n < den ==> x + n < (q + 1) * den)
  {
    var q, r := x / den, x % den;
    assert x == q * den + r;
    if r + n < den {
      QuotientIs(x + n, q, r + n, den);
    } else {
      assert x + n == (x + n) / den * den + (x + n) % den;
    }
  }

  lemma QuotientIs(x: int, q: int, r: int, den: int)
    requires den > 0 && x == q * den + r && 0 <= r < den
    ensures x / den == q
  {
    var q' := x / den;
    assert x == q' * den + x % den;
    assert (q' - q) * den == r - x % den;
    if q' > q {
      MulMono(1, q' - q, den);
    } else if q' < q {
      MulMono(1, q - q', den);
    }
  }

  /** The program, up to `digits` digits or `rounds` rounds: it prints a digit as soon as the
      interval settles it, and what it prints is a decimal prefix of every later interval, and
      so of the limit. */
  method Digits(digits: nat, rounds: nat) returns (printed: seq<int>, ghost k: nat)
    ensures printed == DigitsAfter(k) && |printed| <= digits && (|printed| == digits || k == rounds)
    ensures IsPi(printed)
    ensures forall i :: 0 <= i < |printed| ==> 0 <= printed[i] <= 9
    ensures forall j: nat :: j >= k ==> Settled(printed, j)
  {
    var s := new Spigot();
    for i := 0 to rounds
      invariant s.Valid() && |s.printed| <= digits && s.k == i && s.printed == DigitsAfter(i)
      invariant fresh(s)
    {
      if |s.printed| >= digits {
        break;
      }
      s.Round();
    }
    printed, k := s.printed, s.k;
    SettledIsPi(printed, k);
    forall j: nat | j >= k ensures Settled(printed, j) {
      if printed != [] {
        PrefixForever(Decimal(printed), |printed| - 1, k, j);
      }
    }
  }

  // ---------------------------------------------------------------- every digit, or a fraction

  /** p / 10^n lies in the interval after k terms, above its lower end. */
  ghost predicate Point(p: int, n: nat, k: nat) {
    Pow(10, n) * Low(k) < p * Odds(k) <= Pow(10, n) * High(k)
  }

  /** It lies in all of them, so the limit is the fraction p / 10^n. */
  ghost predicate Fixed(p: int, n: nat) {
    forall k: nat :: Point(p, n, k)
  }

  /** How far the lower end is above p / 10^n. */
  ghost function Above(p: int, n: nat, k: nat): int {
    Pow(10, n) * Low(k) - p * Odds(k)
  }

  lemma AboveStep(p: int, n: nat, k: nat)
    ensures Above(p, n, k + 1) == (2 * k + 3) * Above(p, n, k) + Pow(10, n) * (Fact(k) * k)
  {
    Nested(k);
    AboveAlgebra(Pow(10, n), Low(k), p, Odds(k), 2 * k + 3, Fact(k) * k);
  }

  lemma AboveAlgebra(t: int, l: int, p: int, o: int, y: int, e: int)
    ensures t * (l * y + e) - p * (o * y) == y * (t * l - p * o) + t * e
  {
    assert t * (l * y + e) == t * (l * y) + t * e;
    assert t * (l * y) == y * (t * l) && p * (o * y) == y * (p * o);
    assert y * (t * l - p * o) == y * (t * l) - y * (p * o);
  }

  /** What has been printed is not above the lower end, and after two more terms it is below. */
  lemma PrintedIsBelow(ds: seq<int>, k: nat)
    requires Settled(ds, k)
    ensures Above(10 * Decimal(ds), |ds|, k) >= 0
  {
    if ds == [] {
      Bounds(k);
    } else {
      TenTimes(Decimal(ds), Odds(k), Pow(10, |ds| - 1), Low(k));
    }
  }

  lemma TenTimes(p: int, o: int, t: int, l: int)
    requires p * o <= t * l
    ensures (10 * p) * o <= (10 * t) * l
  {
  }

  lemma GetsAbove(p: int, n: nat, k: nat)
    requires Above(p, n, k) >= 0
    ensures Above(p, n, k + 1) >= 0 && (k >= 1 ==> Above(p, n, k + 1) >= 1)
  {
    AboveStep(p, n, k);
    PowPositive(10, n);
    MulMono(0, Above(p, n, k), 2 * k + 3);
    MulMono(0, Fact(k), k);
    MulMono(0, Pow(10, n), Fact(k) * k);
    if k >= 1 {
      MulMono(1, Fact(k), k);
      MulMono(1, Pow(10, n), Fact(k) * k);
    }
  }

  /** Once the lower end is above p / 10^n it stays a fixed way above it. */
  lemma {:induction false} StaysAbove(p: int, n: nat, k: nat, m: nat)
    requires Above(p, n, k) >= 1 && k <= m
    ensures Above(p, n, m) * Odds(k) >= Odds(m) && Above(p, n, m) >= 1
    decreases m
  {
    if k == m {
      MulMono(1, Above(p, n, k), Odds(k));
    } else {
      StaysAbove(p, n, k, m - 1);
      AboveStep(p, n, m - 1);
      PowPositive(10, n);
      MulMono(0, Fact(m - 1), m - 1);
      MulMono(0, Pow(10, n), Fact(m - 1) * (m - 1));
      AboveGrows(Above(p, n, m - 1), Above(p, n, m), Odds(k), Odds(m - 1), 2 * m + 1);
    }
  }

  lemma AboveGrows(a: int, a': int, o: int, d: int, y: int)
    requires a >= 1 && a' >= y * a && a * o >= d && y >= 1 && o >= 1
    ensures a' * o >= d * y && a' >= 1
  {
    MulMono(1, a, y);
    MulMono(y * a, a', o);
    MulMono(d, a * o, y);
    assert (y * a) * o == (a * o) * y;
  }

  lemma {:induction false} PowGrows(k: nat, m: nat)
    requires k <= m
    ensures Pow(2, k) <= Pow(2, m)
    decreases m
  {
    if k < m {
      PowGrows(k, m - 1);
      PowPositive(2, m - 1);
    }
  }

  lemma {:induction false} PowExceeds(x: nat)
    ensures Pow(2, x) > x
  {
    if x > 0 {
      PowExceeds(x - 1);
    }
  }

  /** From some term on the interval is shorter than a digit and the accumulator has caught up. */
  lemma CatchesUp(p: int, n: nat, k: nat, m: nat)
    requires Above(p, n, k) >= 1 && k <= m && Pow(2, m) > 4 * Pow(10, n) * Odds(k)
    ensures Pow(10, n) * Fact(m) < Odds(m)
    ensures 4 * (Pow(10, n) * Fact(m)) <= Above(p, n, m)
  {
    PowPositive(10, n);
    Shrinks(m);
    StaysAbove(p, n, k, m);
    Small(Pow(10, n), Fact(m), Pow(2, m), Odds(m), Odds(k), Above(p, n, m));
  }

  lemma Small(t: int, f: int, w: int, o: int, d: int, a: int)
    requires t >= 1 && f >= 1 && o >= 1 && d >= 1 && a >= 1
    requires f * w <= o && a * d >= o && w > 4 * t * d
    ensures t * f < o && 4 * (t * f) <= a
  {
    var u, v := t * f, 4 * t * d;
    assert u * w <= t * o by {
      MulMono(f * w, o, t);
      Associate(t, f, w);
    }
    assert t < w by {
      MulMono(1, d, 4 * t);
    }
    LessBy(u, w, t, o);
    assert 4 * u * w <= a * v by {
      MulMono(o, a * d, 4 * t);
      Reorder(a, d, t);
      Associate(4, u, w);
    }
    AtMostBy(4 * u, w, a, v);
  }

  lemma Reorder(a: int, d: int, t: int)
    ensures (a * d) * (4 * t) == a * (4 * t * d)
  {
    Associate(a, d, 4 * t);
  }

  lemma LessBy(u: int, w: int, t: int, o: int)
    requires u * w <= t * o && 0 <= t < w && o >= 1
    ensures u < o
  {
    Shifted(t, 1, o);
    if u >= o {
      MulMono(o, u, w);
      MulMono(t + 1, w, o);
    }
  }

  lemma AtMostBy(u: int, w: int, a: int, v: int)
    requires u * w <= a * v && 0 <= v < w && a >= 1
    ensures u <= a
  {
    Shifted(a, 1, w);
    if u >= a + 1 {
      MulMono(a + 1, u, w);
      MulMono(v, w, a);
    }
  }

  /** When no digit is printed although the accumulator has caught up, a whole number of the
      digit's place lies in the interval. */
  lemma PointBetween(ds: seq<int>, k: nat) returns (p: int)
    requires WithDigit(ds, k) == ds && 4 * Numer(ds, k) <= Above(10 * Decimal(ds), |ds|, k)
    ensures Point(p, |ds|, k)
  {
    var n, a, o := Numer(ds, k), Accum(ds, k), Odds(k);
    EndsAre(ds, k);
    PowPositive(10, |ds|);
    MulMono(1, Pow(10, |ds|), Fact(k));
    var x := 3 * n + a;
    assert x == Above(10 * Decimal(ds), |ds|, k) && n <= a;
    var q := x / o;
    assert x / o != (x + n) / o;
    Crosses(x, n, o);
    p := 10 * Decimal(ds) + (q + 1);
    Shifted(10 * Decimal(ds), q + 1, o);
  }

  lemma Shifted(z: int, q: int, o: int)
    ensures (z + q) * o == z * o + q * o
  {
  }

  lemma EndsAre(ds: seq<int>, k: nat)
    ensures 3 * Numer(ds, k) + Accum(ds, k) == Pow(10, |ds|) * Low(k) - 10 * Decimal(ds) * Odds(k)
    ensures 4 * Numer(ds, k) + Accum(ds, k) == Pow(10, |ds|) * High(k) - 10 * Decimal(ds) * Odds(k)
  {
    EndsAlgebra(Pow(10, |ds|), Fact(k), Sum(k));
  }

  lemma EndsAlgebra(t: int, f: int, s: int)
    ensures t * (3 * f + s) == 3 * (t * f) + t * s && t * (4 * f + s) == 4 * (t * f) + t * s
  {
  }

  lemma Crosses(x: int, n: int, o: int)
    requires o > 0 && n > 0 && x >= 0 && x / o != (x + n) / o
    ensures x < (x / o + 1) * o <= x + n
  {
    SharedQuotient(x, n, o);
    assert x == x / o * o + x % o;
    assert (x / o + 1) * o == x / o * o + o;
  }

  /** A point of a later interval is one of the earlier ones. */
  lemma {:induction false} PointBack(p: int, n: nat, k: nat, m: nat)
    requires Point(p, n, m) && k <= m
    ensures Point(p, n, k)
    decreases m
  {
    if k < m {
      PointStep(p, n, m - 1);
      PointBack(p, n, k, m - 1);
    }
  }

  lemma PointStep(p: int, n: nat, k: nat)
    requires Point(p, n, k + 1)
    ensures Point(p, n, k)
  {
    PowPositive(10, n);
    Nested(k);
    MulMono(0, Fact(k), k);
    PointAlgebra(Pow(10, n), Low(k), High(k), p, Odds(k), 2 * k + 3, Fact(k) * k, 2 * Fact(k));
  }

  lemma PointAlgebra(t: int, l: int, h: int, p: int, o: int, y: int, e: int, e': int)
    requires t >= 1 && y >= 1 && e >= 0 && e' >= 0
    requires t * (l * y + e) < p * (o * y) <= t * (h * y - e')
    ensures t * l < p * o <= t * h
  {
    AboveAlgebra(t, l, p, o, y, e);
    AboveAlgebra(t, h, p, o, y, -e');
    MulMono(0, t, e);
    MulMono(0, t, e');
    assert t * (h * y + -e') == t * (h * y - e') && t * -e' == -(t * e');
    if t * l - p * o >= 0 {
      MulMono(0, t * l - p * o, y);
    }
    if t * h - p * o < 0 {
      MulMono(t * h - p * o, -1, y);
    }
  }

  /** There is only one such point once the interval is short. */
  lemma PointIsUnique(p: int, p': int, n: nat, k: nat)
    requires Point(p, n, k) && Point(p', n, k) && Pow(10, n) * Fact(k) < Odds(k)
    ensures p == p'
  {
    var t := Pow(10, n);
    assert t * High(k) == t * Low(k) + t * Fact(k) by {
      assert t * (Low(k) + Fact(k)) == t * Low(k) + t * Fact(k);
    }
    if p < p' {
      Apart(p, p', Odds(k));
    } else if p' < p {
      Apart(p', p, Odds(k));
    }
  }

  lemma Apart(a: int, b: int, o: int)
    requires a < b && o >= 0
    ensures a * o + o <= b * o
  {
    MulMono(a + 1, b, o);
    assert (a + 1) * o == a * o + o;
  }

  ghost predicate PrintsAt(ds: seq<int>, j: nat) {
    WithDigit(ds, j) != ds
  }

  /** A state of the program: either some later term settles the next digit, or the limit is a
      fraction with as many places as there are digits printed. */
  lemma DigitOrPoint(ds: seq<int>, k: nat)
    requires Settled(ds, k)
    ensures (exists j: nat :: j > k && PrintsAt(ds, j)) || exists p: int :: Fixed(p, |ds|)
  {
    if forall j: nat :: j > k ==> !PrintsAt(ds, j) {
      var p := FixedPoint(ds, k);
    }
  }

  lemma FixedPoint(ds: seq<int>, k: nat) returns (p: int)
    requires Settled(ds, k) && forall j: nat :: j > k ==> !PrintsAt(ds, j)
    ensures Fixed(p, |ds|)
  {
    var n, z := |ds|, 10 * Decimal(ds);
    PrintedIsBelow(ds, k);
    GetsAbove(z, n, k);
    GetsAbove(z, n, k + 1);
    PowPositive(10, n);
    var c := k + 2;
    MulMono(1, 4 * Pow(10, n), Odds(c));
    var far: nat := 4 * Pow(10, n) * Odds(c);
    PowExceeds(far);
    var j0 := c + far;
    PowGrows(far, j0);
    CatchesUp(z, n, c, j0);
    assert !PrintsAt(ds, j0);
    p := PointBetween(ds, j0);
    forall m: nat ensures Point(p, n, m) {
      if m <= j0 {
        PointBack(p, n, m, j0);
      } else {
        PowGrows(far, m);
        CatchesUp(z, n, c, m);
        assert !PrintsAt(ds, m);
        var p' := PointBetween(ds, m);
        PointBack(p', n, j0, m);
        PointIsUnique(p, p', n, j0);
      }
    }
  }

  /** The limit is no decimal fraction. */
  ghost predicate NoFraction() {
    forall p: int, n: nat :: !Fixed(p, n)
  }

  lemma NextPrint(ds: seq<int>, k: nat) returns (j: nat)
    requires Settled(ds, k) && NoFraction()
    ensures j > k && PrintsAt(ds, j)
  {
    DigitOrPoint(ds, k);
    j :| j > k && PrintsAt(ds, j);
  }

  /** If the limit is a fraction with `n` places, no more than `n` digits are printed. */
  lemma {:induction false} FixedIsLast(p: int, n: nat, k: nat)
    requires Fixed(p, n)
    ensures |DigitsAfter(k)| <= n
  {
    if k > 0 {
      FixedIsLast(p, n, k - 1);
      var ds := DigitsAfter(k - 1);
      if |ds| == n && WithDigit(ds, k) != ds {
        NoPoint(ds, k, p);
      }
    }
  }

  /** A digit is printed only when no whole number of its place lies in the interval. */
  lemma NoPoint(ds: seq<int>, k: nat, p: int)
    requires WithDigit(ds, k) != ds
    ensures !Point(p, |ds|, k)
  {
    var n, a, o := Numer(ds, k), Accum(ds, k), Odds(k);
    EndsAre(ds, k);
    PowPositive(10, |ds|);
    MulMono(1, Pow(10, |ds|), Fact(k));
    var x := 3 * n + a;
    SharedQuotient(x, n, o);
    if Point(p, |ds|, k) {
      NoneBetween(Pow(10, |ds|) * Low(k), Pow(10, |ds|) * High(k), 10 * Decimal(ds), x / o, p, o);
    }
  }

  lemma NoneBetween(l: int, h: int, z: int, q: int, p: int, o: int)
    requires o >= 1 && q * o <= l - z * o && h - z * o < (q + 1) * o
    ensures !(l < p * o <= h)
  {
    if l < p * o <= h {
      Shifted(z, q, o);
      Shifted(z, q + 1, o);
      StrictlyBelow(z + q, p, o);
      StrictlyBelow(p, z + (q + 1), o);
    }
  }

  lemma {:induction false} DigitsAreSettled(k: nat)
    ensures Settled(DigitsAfter(k), k)
  {
    if k > 0 {
      DigitsAreSettled(k - 1);
      var ds := DigitsAfter(k - 1);
      if ds != [] {
        PrefixStep(Decimal(ds), |ds| - 1, k - 1);
      }
      if WithDigit(ds, k) != ds {
        DigitIsSettled(ds, k);
      }
    }
  }

  lemma DigitIsSettled(ds: seq<int>, k: nat)
    requires WithDigit(ds, k) != ds
    ensures Settled(WithDigit(ds, k), k)
  {
    var n, a, o := Numer(ds, k), Accum(ds, k), Odds(k);
    PowPositive(10, |ds|);
    MulMono(1, Pow(10, |ds|), Fact(k));
    var d := (3 * n + a) / o;
    SharedQuotient(3 * n + a, n, o);
    DigitExtends(d, Decimal(ds), |ds|, k, a);
    FormDigit(n, a, o, ds, k, d);
  }

  /** At least `m` digits are printed in the end. */
  ghost predicate Reached(m: nat) {
    exists k: nat :: |DigitsAfter(k)| >= m
  }

  lemma {:induction false} OneMoreDigit(k: nat, i: nat, j: nat)
    requires k <= i < j && PrintsAt(DigitsAfter(k), j) && DigitsAfter(i) == DigitsAfter(k)
    ensures Reached(|DigitsAfter(k)| + 1)
    decreases j - i
  {
    assert DigitsAfter(i + 1) == WithDigit(DigitsAfter(i), i + 1);
    if DigitsAfter(i + 1) != DigitsAfter(k) {
      assert |DigitsAfter(i + 1)| >= |DigitsAfter(k)| + 1;
    } else {
      OneMoreDigit(k, i + 1, j);
    }
  }

  lemma {:induction false} EveryNumberIsReached(m: nat)
    requires NoFraction()
    ensures Reached(m)
  {
    if m == 0 {
      assert |DigitsAfter(0)| >= 0;
    } else {
      EveryNumberIsReached(m - 1);
      var k: nat :| |DigitsAfter(k)| >= m - 1;
      if |DigitsAfter(k)| == m - 1 {
        DigitsAreSettled(k);
        var j := NextPrint(DigitsAfter(k), k);
        OneMoreDigit(k, k, j);
      }
    }
  }

  /** The program prints as many digits as one likes if and only if the limit is no decimal fraction. */
  lemma PrintsForeverIff()
    ensures (forall m: nat :: Reached(m)) <==> NoFraction()
  {
    if NoFraction() {
      forall m: nat ensures Reached(m) {
        EveryNumberIsReached(m);
      }
    } else {
      var p: int, n: nat :| Fixed(p, n);
      forall k: nat ensures |DigitsAfter(k)| <= n {
        FixedIsLast(p, n, k);
      }
      assert !Reached(n + 1);
    }
  }

  /** The program itself.  Unless the limit is a decimal fraction it ends, with all digits. */
  method PrintDigits(digits: nat) returns (printed: seq<int>, ghost k: nat)
    requires NoFraction()
    ensures printed == DigitsAfter(k) && |printed| == digits && IsPi(printed)
    ensures forall i :: 0 <= i < |printed| ==> 0 <= printed[i] <= 9
    ensures forall j: nat :: j >= k ==> Settled(printed, j)
  {
    var s := new Spigot();
    for i := 0 to digits
      invariant s.Valid() && |s.printed| == i && s.printed == DigitsAfter(s.k) && fresh(s)
    {
      NextDigit(s);
    }
    printed, k := s.printed, s.k;
    SettledIsPi(printed, k);
    forall j: nat | j >= k ensures Settled(printed, j) {
      if printed != [] {
        PrefixForever(Decimal(printed), |printed| - 1, k, j);
      }
    }
  }

  /** Terms are taken in until one settles the next digit. */
  method NextDigit(s: Spigot)
    requires s.Valid() && s.printed == DigitsAfter(s.k) && NoFraction()
    modifies s
    ensures s.Valid() && s.printed == DigitsAfter(s.k) && |s.printed| == old(|s.printed|) + 1
  {
    var n := |s.printed|;
    ghost var ds := s.printed;
    ghost var j := NextPrint(ds, s.k);
    while |s.printed| == n
      invariant s.Valid() && s.printed == DigitsAfter(s.k)
      invariant if |s.printed| == n then s.printed == ds && s.k < j else |s.printed| == n + 1
      decreases j - s.k, |s.printed| == n
    {
      AfterRound(ds, s.k);
      s.Round();
    }
  }

  lemma AfterRound(ds: seq<int>, k: nat)
    requires ds == DigitsAfter(k)
    ensures DigitsAfter(k + 1) == WithDigit(ds, k + 1)
    ensures if PrintsAt(ds, k + 1) then |WithDigit(ds, k + 1)| == |ds| + 1 else WithDigit(ds, k + 1) == ds
  {
  }
}

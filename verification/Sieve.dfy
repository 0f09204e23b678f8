/** The concurrent prime sieve of doc/progs/sieve.go as a system of steps.

A generator, a growing chain of filters and the main loop run concurrently, joined by
unbuffered channels: a send and its receive are one step.  Link 0 leaves the generator,
link j leaves filter j-1, and the last link enters the main loop.
*/
module Sieve {

  import opened Common

  /** A filter waits to receive, or holds a value it is trying to send. */
  datatype Filter = Filter(prime: int, holding: Option<int>)

  datatype State = State(next: int, filters: seq<Filter>, printed: seq<int>)

  const Initial := State(2, [], [])

  /** A value can pass over link `j`: its sender has one and its receiver waits. */
  predicate Enabled(s: State, j: nat) {
    && j <= |s.filters|
    && (j > 0 ==> s.filters[j - 1].holding.Some?)
    && (j < |s.filters| ==> s.filters[j].holding.None?)
  }

  function Passing(s: State, j: nat): int
    requires Enabled(s, j)
  {
    if j == 0 then s.next else s.filters[j - 1].holding.value
  }

  function Sent(s: State, j: nat): (s': State)
    requires Enabled(s, j)
    ensures |s'.filters| == |s.filters|
  {
    if j == 0 then s.(next := s.next + 1)
    else s.(filters := s.filters[j - 1 := s.filters[j - 1].(holding := None)])
  }

  function Received(s: State, j: nat, v: int): State
    requires j <= |s.filters|
  {
    if j == |s.filters| then
      s.(printed := s.printed + [v], filters := s.filters + [Filter(v, None)])
    else if Divisible(v, s.filters[j].prime) then s
    else s.(filters := s.filters[j := s.filters[j].(holding := Some(v))])
  }

  predicate Divisible(v: int, p: int) {
    p != 0 && v % p == 0
  }

  predicate Sane(s: State) {
    s.next >= 2 && forall k :: 0 <= k < |s.filters| ==> s.filters[k].prime >= 2
  }

  function Apply(s: State, j: nat): State
    requires Enabled(s, j)
  {
    Received(Sent(s, j), j, Passing(s, j))
  }

  // ---------------------------------------------------------------- primes

  ghost predicate IsPrime(n: int) {
    n >= 2 && forall d :: 2 <= d < n ==> n % d != 0
  }

  /** `ps` are the first primes, in order, with none left out. */
  ghost predicate FirstPrimes(ps: seq<int>) {
    && (forall i :: 0 <= i < |ps| ==> IsPrime(ps[i]))
    && (forall i, j :: 0 <= i < j < |ps| ==> ps[i] < ps[j])
    && (forall q, i :: 0 <= i < |ps| && IsPrime(q) && q <= ps[i] ==> q in ps)
  }

  /** There is only one list of the first primes of each length. */
  lemma {:induction false} FirstPrimesUnique(ps: seq<int>, qs: seq<int>)
    requires FirstPrimes(ps) && FirstPrimes(qs) && |ps| <= |qs|
    ensures ps == qs[..|ps|]
    decreases |ps|
  {
    if ps != [] {
      var n := |ps| - 1;
      FirstPrimesPrefix(ps, n);
      FirstPrimesUnique(ps[..n], qs);
      NotLater(ps, qs, n);
      NotLater(qs, ps, n);
    }
  }

  lemma FirstPrimesPrefix(ps: seq<int>, n: nat)
    requires FirstPrimes(ps) && n <= |ps|
    ensures FirstPrimes(ps[..n])
  {
    forall q, i | 0 <= i < n && IsPrime(q) && q <= ps[..n][i] ensures q in ps[..n] {
      var k :| 0 <= k < |ps| && ps[k] == q;
      assert k <= i;
      assert q == ps[..n][k];
    }
  }

  lemma NotLater(ps: seq<int>, qs: seq<int>, n: nat)
    requires FirstPrimes(ps) && FirstPrimes(qs) && n < |ps| && n < |qs| && ps[..n] == qs[..n]
    ensures ps[n] <= qs[n]
  {
    assert forall k :: 0 <= k < n ==> ps[k] == ps[..n][k] == qs[k];
  }

  // ---------------------------------------------------------------- the invariant

  /** `n` survives the first `k` filters. */
  ghost predicate Rough(n: int, ps: seq<int>, k: nat)
    requires k <= |ps|
  {
    forall i :: 0 <= i < k ==> ps[i] != 0 && n % ps[i] != 0
  }

  /** No number from `a` up to `b` survives the first `k` filters. */
  ghost predicate NoneRough(a: int, b: int, ps: seq<int>, k: nat)
    requires k <= |ps|
  {
    forall n :: a <= n < b ==> !Rough(n, ps, k)
  }

  /** Filter `j` has sent on exactly the survivors below b[j+1], out of those below b[j]. */
  ghost predicate FilterOk(s: State, b: seq<int>, j: nat)
    requires j < |s.filters| && |b| == |s.filters| + 1 && |s.printed| == |s.filters|
  {
    && s.filters[j].prime == s.printed[j]
    && match s.filters[j].holding
       case None => b[j + 1] <= b[j] && NoneRough(b[j + 1], b[j], s.printed, j + 1)
       case Some(v) =>
         && b[j + 1] <= v < b[j] && Rough(v, s.printed, j + 1)
         && NoneRough(b[j + 1], v, s.printed, j + 1) && NoneRough(v + 1, b[j], s.printed, j + 1)
  }

  ghost predicate FiltersOk(s: State, b: seq<int>) {
    |s.printed| == |s.filters| && |b| == |s.filters| + 1 && forall j: nat :: j < |s.filters| ==> FilterOk(s, b, j)
  }

  /** b[j] bounds what has passed over link `j`. */
  ghost predicate Inv(s: State, b: seq<int>) {
    var k := |s.filters|;
    && Sane(s) && |s.printed| == k && |b| == k + 1
    && b[0] == s.next && (forall j :: 0 <= j <= k ==> b[j] >= 2)
    && FiltersOk(s, b)
    && b[k] == Beyond(s.printed) && NoneRough(2, b[k], s.printed, k)
    && FirstPrimes(s.printed)
  }

  /** The first number not yet decided by what is printed. */
  function Beyond(ps: seq<int>): int {
    if ps == [] then 2 else ps[|ps| - 1] + 1
  }

  lemma InvInitial()
    ensures Inv(Initial, [2])
  {
  }

  /** The value about to pass over link `j` is the next survivor of the filters before it. */
  lemma PassingIsNext(s: State, b: seq<int>, j: nat)
    requires Inv(s, b) && Enabled(s, j)
    ensures var v := Passing(s, j);
            b[j] <= v && Rough(v, s.printed, j) && NoneRough(b[j], v, s.printed, j)
  {
    if j > 0 {
      assert FilterOk(s, b, j - 1);
    }
  }

  lemma SenderStep(s: State, b: seq<int>, j: nat)
    requires Inv(s, b) && Enabled(s, j) && j > 0
    ensures var v := Passing(s, j);
            NoneRough(v + 1, b[j - 1], s.printed, j) && v + 1 <= b[j - 1]
  {
    assert FilterOk(s, b, j - 1);
  }

  lemma ReceiverStep(s: State, b: seq<int>, j: nat)
    requires Inv(s, b) && Enabled(s, j) && j < |s.filters|
    ensures var v := Passing(s, j);
            b[j + 1] <= v && NoneRough(b[j + 1], v, s.printed, j + 1)
  {
    var v, k := Passing(s, j), j + 1;
    PassingIsNext(s, b, j);
    assert FilterOk(s, b, j);
    forall n | b[k] <= n < v ensures !Rough(n, s.printed, k) {
      if n >= b[j] {
        assert !Rough(n, s.printed, j);
      }
    }
  }

  /** One value passes over a link between generator and filters. */
  lemma InnerStep(s: State, b: seq<int>, j: nat)
    requires Inv(s, b) && Enabled(s, j) && j < |s.filters|
    ensures Inv(Apply(s, j), b[j := Passing(s, j) + 1])
  {
    var s', v := Apply(s, j), Passing(s, j);
    var b' := b[j := v + 1];
    PassingIsNext(s, b, j);
    forall i: nat | i < |s'.filters| ensures FilterOk(s', b', i) {
      assert FilterOk(s, b, i);
      if i == j {
        ReceiverOk(s, b, j);
      } else if i + 1 == j {
        SenderStep(s, b, j);
      }
    }
  }

  lemma ReceiverOk(s: State, b: seq<int>, j: nat)
    requires Inv(s, b) && Enabled(s, j) && j < |s.filters|
    ensures |Apply(s, j).filters| == |s.filters| && Apply(s, j).printed == s.printed
    ensures FilterOk(Apply(s, j), b[j := Passing(s, j) + 1], j)
  {
    var v := Passing(s, j);
    PassingIsNext(s, b, j);
    ReceiverStep(s, b, j);
    assert FilterOk(s, b, j);
    if v % s.filters[j].prime == 0 {
      assert !Rough(v, s.printed, j + 1);
    }
  }

  lemma Divides(a: int, d: int, p: int)
    requires d > 0 && p > 0 && a % d == 0 && d % p == 0
    ensures a % p == 0
  {
    var x, y := a / d, d / p;
    assert a == d * x && d == p * y;
    assert a == p * (y * x) by {
      assert (p * y) * x == p * (y * x);
    }
    Multiple(p, y * x);
  }

  lemma Multiple(p: int, k: int)
    requires p > 0
    ensures (p * k) % p == 0
  {
    var q, r := p * k / p, p * k % p;
    assert p * k == p * q + r;
    var t := k - q;
    assert p * t == r by {
      assert p * k - p * q == p * (k - q);
    }
    if t >= 1 {
      AtLeastOnce(p, t);
    } else if t <= -1 {
      AtLeastOnce(p, -t);
    }
  }

  lemma AtLeastOnce(p: int, t: int)
    requires p > 0 && t >= 1
    ensures p * t >= p
  {
  }

  /** The least survivor of all filters is the next prime. */
  lemma NextIsPrime(ps: seq<int>, v: int)
    requires FirstPrimes(ps) && v >= 2 && Rough(v, ps, |ps|) && NoneRough(2, v, ps, |ps|)
    ensures FirstPrimes(ps + [v])
  {
    var k := |ps|;
    forall d | 2 <= d < v ensures v % d != 0 {
      assert !Rough(d, ps, k);
      var i :| 0 <= i < k && (ps[i] == 0 || d % ps[i] == 0);
      assert IsPrime(ps[i]);
      if v % d == 0 {
        Divides(v, d, ps[i]);
      }
    }
    assert IsPrime(v);
    forall i | 0 <= i < k ensures ps[i] < v {
    }
    forall q | IsPrime(q) && q < v ensures q in ps {
      assert !Rough(q, ps, k);
      var i :| 0 <= i < k && (ps[i] == 0 || q % ps[i] == 0);
      assert IsPrime(ps[i]);
    }
    forall q, i | 0 <= i < k + 1 && IsPrime(q) && q <= (ps + [v])[i] ensures q in ps + [v] {
      if q < v {
        assert q in ps;
      }
    }
  }

  /** A value reaches the main loop, which prints it and adds a filter for it. */
  lemma LastStep(s: State, b: seq<int>)
    requires Inv(s, b) && Enabled(s, |s.filters|)
    ensures var k, v := |s.filters|, Passing(s, |s.filters|);
            Inv(Apply(s, k), b[k := v + 1] + [v + 1])
  {
    var k := |s.filters|;
    var s', v := Apply(s, k), Passing(s, k);
    var b' := b[k := v + 1] + [v + 1];
    PassingIsNext(s, b, k);
    assert v >= 2;
    forall n | 2 <= n < v ensures !Rough(n, s.printed, k) {
    }
    NextIsPrime(s.printed, v);
    LastFilters(s, b);
    NewBound(s.printed, v);
    assert s'.printed == s.printed + [v] && Beyond(s'.printed) == v + 1;
  }

  lemma LastFilters(s: State, b: seq<int>)
    requires Inv(s, b) && Enabled(s, |s.filters|)
    ensures var k, v := |s.filters|, Passing(s, |s.filters|);
            FiltersOk(Apply(s, k), b[k := v + 1] + [v + 1])
  {
    var k := |s.filters|;
    var s', v := Apply(s, k), Passing(s, k);
    var b' := b[k := v + 1] + [v + 1];
    if k > 0 {
      SenderStep(s, b, k);
    }
    forall i: nat | i < k + 1 ensures FilterOk(s', b', i) {
      if i < k {
        assert FilterOk(s, b, i);
        SamePrefix(s.printed, v, i + 1);
      }
    }
  }

  lemma NewBound(ps: seq<int>, v: int)
    requires v >= 2 && NoneRough(2, v, ps, |ps|)
    ensures NoneRough(2, v + 1, ps + [v], |ps + [v]|)
  {
    var ps' := ps + [v];
    var k := |ps'|;
    forall n | 2 <= n < v + 1 ensures !Rough(n, ps', k) {
      if n < v {
        assert !Rough(n, ps, |ps|);
        SamePrefix(ps, v, |ps|);
      } else {
        assert ps'[|ps|] == v;
        Multiple(v, 1);
      }
    }
  }

  /** A new filter does not change what the earlier ones let through. */
  lemma SamePrefix(ps: seq<int>, v: int, k: nat)
    requires k <= |ps|
    ensures forall n :: Rough(n, ps + [v], k) <==> Rough(n, ps, k)
  {
    assert forall i :: 0 <= i < k ==> (ps + [v])[i] == ps[i];
  }

  function Sum(b: seq<int>): int {
    if b == [] then 0 else Sum(b[..|b| - 1]) + b[|b| - 1]
  }

  lemma {:induction false} SumUpdate(b: seq<int>, j: nat, v: int)
    requires j < |b|
    ensures Sum(b[j := v]) == Sum(b) - b[j] + v
  {
    var n := |b| - 1;
    if j < n {
      assert b[j := v][..n] == b[..n][j := v];
      SumUpdate(b[..n], j, v);
    } else {
      assert b[j := v][..n] == b[..n];
    }
  }

  lemma {:induction false} SumAtMost(b: seq<int>, m: int)
    requires forall j :: 0 <= j < |b| ==> b[j] <= m
    ensures Sum(b) <= |b| * m
  {
    if b != [] {
      SumAtMost(b[..|b| - 1], m);
    }
  }

  /** Every communication keeps the bounds and moves one of them on. */
  lemma InvStep(s: State, b: seq<int>, j: nat) returns (b': seq<int>)
    requires Inv(s, b) && Enabled(s, j)
    ensures Inv(Apply(s, j), b') && Sum(b') > Sum(b)
  {
    var v := Passing(s, j);
    BoundsMove(s, b, j);
    if j < |s.filters| {
      InnerStep(s, b, j);
      b' := b[j := v + 1];
    } else {
      LastStep(s, b);
      b' := b[j := v + 1] + [v + 1];
    }
  }

  lemma BoundsMove(s: State, b: seq<int>, j: nat)
    requires Inv(s, b) && Enabled(s, j)
    ensures var b', v := b[j := Passing(s, j) + 1], Passing(s, j);
            Sum(b) < Sum(b') < Sum(b' + [v + 1])
  {
    var b', v := b[j := Passing(s, j) + 1], Passing(s, j);
    PassingIsNext(s, b, j);
    SumUpdate(b, j, v + 1);
    assert (b' + [v + 1])[..|b|] == b';
  }

  // ---------------------------------------------------------------- whole runs

  /** The links in `js` pass a value each, one after the other. */
  ghost predicate IsRun(s: State, js: seq<nat>)
    decreases |js|
  {
    js != [] ==> Enabled(s, js[0]) && IsRun(Apply(s, js[0]), js[1..])
  }

  ghost function After(s: State, js: seq<nat>): State
    requires IsRun(s, js)
    decreases |js|
  {
    if js == [] then s else After(Apply(s, js[0]), js[1..])
  }

  lemma {:induction false} InvRun(s: State, b: seq<int>, js: seq<nat>) returns (b': seq<int>)
    requires Inv(s, b) && IsRun(s, js)
    ensures Inv(After(s, js), b') && Sum(b') >= Sum(b) + |js|
    decreases |js|
  {
    if js == [] {
      b' := b;
    } else {
      b' := InvStep(s, b, js[0]);
      b' := InvRun(Apply(s, js[0]), b', js[1..]);
    }
  }

  /** Some link can always pass a value. */
  lemma {:induction false} NeverStuck(s: State, k: nat) returns (j: nat)
    requires k <= |s.filters| && (k < |s.filters| ==> s.filters[k].holding.None?)
    ensures Enabled(s, j)
    decreases k
  {
    if k == 0 || s.filters[k - 1].holding.Some? {
      j := k;
    } else {
      j := NeverStuck(s, k - 1);
    }
  }

  /** However the goroutines are scheduled, what has been printed is the first primes in
      order, as many as there are, and the program can go on. */
  lemma PrintsThePrimes(js: seq<nat>) returns (j: nat)
    requires IsRun(Initial, js)
    ensures FirstPrimes(After(Initial, js).printed)
    ensures Enabled(After(Initial, js), j)
  {
    InvInitial();
    var b := InvRun(Initial, [2], js);
    var s := After(Initial, js);
    j := NeverStuck(s, |s.filters|);
  }

  // ---------------------------------------------------------------- every prime is printed

  function Product(ps: seq<int>): int {
    if ps == [] then 1 else Product(ps[..|ps| - 1]) * ps[|ps| - 1]
  }

  lemma {:induction false} ProductIsMultiple(ps: seq<int>, i: nat)
    requires i < |ps| && forall j :: 0 <= j < |ps| ==> ps[j] >= 2
    ensures Product(ps) >= 1 && Product(ps) % ps[i] == 0
  {
    var n := |ps| - 1;
    var a := Product(ps[..n]);
    ProductIsPositive(ps);
    if i == n {
      Multiple(ps[n], a);
    } else {
      ProductIsMultiple(ps[..n], i);
      Multiple(a, ps[n]);
      Divides(a * ps[n], a, ps[i]);
    }
  }

  lemma {:induction false} ProductIsPositive(ps: seq<int>)
    requires forall j :: 0 <= j < |ps| ==> ps[j] >= 2
    ensures Product(ps) >= 1
  {
    if ps != [] {
      ProductIsPositive(ps[..|ps| - 1]);
      AtLeastOnce(Product(ps[..|ps| - 1]), ps[|ps| - 1]);
    }
  }

  /** Some number is divided by none of them. */
  lemma SomeRough(ps: seq<int>)
    requires FirstPrimes(ps)
    ensures Product(ps) >= 1 && Rough(Product(ps) + 1, ps, |ps|)
  {
    ProductIsPositive(ps);
    forall i | 0 <= i < |ps| ensures ps[i] != 0 && (Product(ps) + 1) % ps[i] != 0 {
      ProductIsMultiple(ps, i);
      NextIsNoMultiple(Product(ps), ps[i]);
    }
  }

  lemma NextIsNoMultiple(a: int, p: int)
    requires p >= 2 && a % p == 0
    ensures (a + 1) % p != 0
  {
    if (a + 1) % p == 0 {
      var x, y := a / p, (a + 1) / p;
      assert a == p * x && a + 1 == p * y;
      assert p * (y - x) == 1 by {
        assert p * (y - x) == p * y - p * x;
      }
      if y - x >= 1 {
        AtLeastOnce(p, y - x);
      } else if x - y >= 1 {
        AtLeastOnce(p, x - y);
      }
    }
  }

  lemma {:induction false} LeastRough(ps: seq<int>, a: int, top: int) returns (v: int)
    requires 2 <= a <= top && Rough(top, ps, |ps|) && NoneRough(2, a, ps, |ps|)
    ensures v >= 2 && Rough(v, ps, |ps|) && NoneRough(2, v, ps, |ps|)
    decreases top - a
  {
    if Rough(a, ps, |ps|) {
      v := a;
    } else {
      v := LeastRough(ps, a + 1, top);
    }
  }

  /** There are as many primes as one likes. */
  lemma {:induction false} Primes(n: nat) returns (ps: seq<int>)
    ensures FirstPrimes(ps) && |ps| == n
  {
    ps := [];
    if n > 0 {
      ps := Primes(n - 1);
      SomeRough(ps);
      var v := LeastRough(ps, 2, Product(ps) + 1);
      NextIsPrime(ps, v);
      ps := ps + [v];
    }
  }

  /** Two primes that a filter has not sent on cannot both have reached it. */
  lemma AtMostOne(s: State, b: seq<int>, j: nat, u: int, w: int)
    requires Inv(s, b) && j < |s.filters| && b[j + 1] <= u < w
    requires Rough(u, s.printed, j + 1) && Rough(w, s.printed, j + 1)
    ensures b[j] <= w
  {
    if b[j] > w {
      OnlyHeld(s, b, j, u);
      OnlyHeld(s, b, j, w);
    }
  }

  lemma OnlyHeld(s: State, b: seq<int>, j: nat, u: int)
    requires Inv(s, b) && j < |s.filters| && b[j + 1] <= u < b[j] && Rough(u, s.printed, j + 1)
    ensures s.filters[j].holding == Some(u)
  {
    assert FilterOk(s, b, j);
  }

  /** A later prime passes the filters of earlier ones. */
  lemma LaterIsRough(ps: seq<int>, n: nat, i: nat)
    requires FirstPrimes(ps) && n <= i < |ps|
    ensures Rough(ps[i], ps, n)
  {
    forall k | 0 <= k < n ensures ps[k] != 0 && ps[i] % ps[k] != 0 {
      assert IsPrime(ps[k]) && IsPrime(ps[i]) && ps[k] < ps[i];
    }
  }

  /** With k primes printed, link j has not passed more than the (k - j)-th prime after those. */
  lemma {:induction false} LinkBound(s: State, b: seq<int>, ps: seq<int>, j: nat)
    requires Inv(s, b) && FirstPrimes(ps) && |ps| > 2 * |s.filters| && j <= |s.filters|
    requires s.printed == ps[..|s.filters|]
    ensures b[j] <= ps[2 * |s.filters| - j]
    decreases |s.filters| - j
  {
    var k := |s.filters|;
    if j == k {
      LastLink(s.printed, ps);
    } else {
      LinkBound(s, b, ps, j + 1);
      var m := 2 * k - j;
      LaterIsRough(ps, j + 1, m - 1);
      LaterIsRough(ps, j + 1, m);
      PrefixRough(s.printed, ps, j + 1);
      AtMostOne(s, b, j, ps[m - 1], ps[m]);
    }
  }

  lemma LastLink(printed: seq<int>, ps: seq<int>)
    requires FirstPrimes(ps) && |printed| < |ps| && printed == ps[..|printed|]
    ensures Beyond(printed) <= ps[|printed|]
  {
    var k := |printed|;
    assert k > 0 ==> printed[k - 1] == ps[k - 1] < ps[k];
    assert IsPrime(ps[k]);
  }

  lemma PrefixRough(ps: seq<int>, qs: seq<int>, k: nat)
    requires |ps| <= |qs| && ps == qs[..|ps|] && k <= |ps|
    ensures forall n :: Rough(n, ps, k) <==> Rough(n, qs, k)
  {
    assert forall i :: 0 <= i < k ==> ps[i] == qs[i];
  }

  /** How many steps it takes at most to print more than the first `m` of `ps`. */
  lemma StepsBound(ps: seq<int>, m: nat, js: seq<nat>)
    requires FirstPrimes(ps) && |ps| == 2 * m + 1 && IsRun(Initial, js)
    ensures |After(Initial, js).printed| <= m ==> |js| <= (m + 1) * ps[2 * m]
  {
    InvInitial();
    var b := InvRun(Initial, [2], js);
    var s := After(Initial, js);
    var k, top := |s.filters|, ps[2 * m];
    if k <= m {
      FirstPrimesUnique(s.printed, ps);
      forall j: nat | j <= k ensures b[j] <= top {
        LinkBound(s, b, ps, j);
        assert 2 * k - j < 2 * m ==> ps[2 * k - j] < top;
      }
      SumAtMost(b, top);
      assert IsPrime(top);
      More(k + 1, m + 1, top);
    }
  }

  lemma More(a: nat, b: nat, c: int)
    requires a <= b && c >= 0
    ensures a * c <= b * c
  {
  }

  /** Under every schedule every prime is printed: after `n` steps, whichever they are, more
      than the first `m` primes are out. */
  lemma PrintsEveryPrime(m: nat) returns (n: nat)
    ensures forall js :: IsRun(Initial, js) && |js| > n ==>
              |After(Initial, js).printed| > m && FirstPrimes(After(Initial, js).printed)
  {
    var ps := Primes(2 * m + 1);
    assert IsPrime(ps[2 * m]);
    n := (m + 1) * ps[2 * m];
    forall js | IsRun(Initial, js) && |js| > n
      ensures |After(Initial, js).printed| > m && FirstPrimes(After(Initial, js).printed)
    {
      StepsBound(ps, m, js);
      var j := PrintsThePrimes(js);
    }
  }
}

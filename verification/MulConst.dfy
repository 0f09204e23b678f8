/** Multiplication by a constant, compiled to shifts and adds (src/cmd/5c/mul.c).

`Mulcon0` looks for a short shift/add program that multiplies by a constant.  It keeps a
ring of twenty remembered answers, consults a table of hints, and otherwise runs two
independent searches: `Gen1`..`Gen3` look for a string of operators (a hint) over an
unordered pair of values, and `DoCode` looks for the register choices that make such a
string work on two ordered registers.

The meaning of a program is the one its consumer gives it: `EmitStep` follows `mulcon`
in src/cmd/5c/swt.c, not `docode`.
*/
module MulConst {

  import opened Common
  import opened Word32

  // ---------------------------------------------------------------- 32-bit words

  function Shl(x: int, n: nat): int {
    Wrap(x * Pow2(n))
  }

  lemma WrapCongruent(a: int, b: int, k: int)
    requires a == b + k * WORD
    ensures Wrap(a) == Wrap(b)
  {
  }

  lemma WrapOfWrapped(x: int) returns (k: int)
    ensures x == Wrap(x) + k * WORD
  {
    k := (x - Wrap(x)) / WORD;
  }

  lemma WrapMul(x: int, y: int)
    ensures Wrap(x * Wrap(y)) == Wrap(x * y)
  {
    var k := WrapOfWrapped(y);
    calc {
      x * y;
      x * (Wrap(y) + k * WORD);
      x * Wrap(y) + (x * k) * WORD;
    }
    WrapCongruent(x * y, x * Wrap(y), x * k);
  }

  lemma WrapAdd(a: int, b: int)
    ensures Wrap(Wrap(a) + Wrap(b)) == Wrap(a + b)
    ensures Wrap(Wrap(a) - Wrap(b)) == Wrap(a - b)
  {
    var k := WrapOfWrapped(a);
    var l := WrapOfWrapped(b);
    WrapCongruent(a + b, Wrap(a) + Wrap(b), k + l);
    WrapCongruent(a - b, Wrap(a) - Wrap(b), k - l);
  }

  // ---------------------------------------------------------------- running a program

  datatype Regs = Regs(r0: int, r1: int)

  function Pick(second: bool, s: Regs): int {
    if second then s.r1 else s.r0
  }

  function Put(second: bool, s: Regs, v: int): Regs {
    if second then s.(r1 := v) else s.(r0 := v)
  }

  /** What `mulcon` emits for one operator and its digit.  The digit's bits name the
      destination and the operands. */
  function EmitStep(op: char, digit: char, s: Regs): Regs {
    var v := digit as int - '0' as int;
    if op == '+' then
      Put(v / 4 % 2 == 1, s, Wrap(Pick(v / 2 % 2 == 1, s) + Pick(v % 2 == 1, s)))
    else if op == '-' then
      Put(v / 4 % 2 == 1, s, Wrap(Pick(v / 2 % 2 == 1, s) - Pick(v % 2 == 1, s)))
    else
      var c := op as int - 'a' as int;
      if 0 <= c < 32 then Put(v / 2 % 2 == 1, s, Shl(Pick(v % 2 == 1, s), c)) else s
  }

  function RunCode(code: string, s: Regs): Regs {
    if |code| < 2 then s else RunCode(code[2..], EmitStep(code[0], code[1], s))
  }

  function Scale(x: int, s: Regs): Regs {
    Regs(Wrap(x * s.r0), Wrap(x * s.r1))
  }

  lemma SumScales(x: int, n: int, l: int)
    ensures Wrap(Wrap(x * n) + Wrap(x * l)) == Wrap(x * Wrap(n + l))
    ensures Wrap(Wrap(x * n) - Wrap(x * l)) == Wrap(x * Wrap(n - l))
  {
    MulDistributes(x, n, l);
    SumOf(x * n, x * l, x * (n + l), x * (n - l));
    WrapMul(x, n + l);
    WrapMul(x, n - l);
  }

  lemma SumOf(a: int, b: int, s: int, d: int)
    requires a + b == s && a - b == d
    ensures Wrap(Wrap(a) + Wrap(b)) == Wrap(s) && Wrap(Wrap(a) - Wrap(b)) == Wrap(d)
  {
    WrapAdd(a, b);
  }

  lemma MulDistributes(x: int, n: int, l: int)
    ensures x * n + x * l == x * (n + l) && x * n - x * l == x * (n - l)
  {
  }

  lemma ShiftScales(x: int, l: int, c: nat)
    ensures Shl(Wrap(x * l), c) == Wrap(x * Shl(l, c))
  {
    var p := Pow2(c);
    WrapMul(p, x * l);
    WrapMul(x, l * p);
    assert Wrap(x * l) * p == p * Wrap(x * l);
    MulReorder(p, x, l);
  }

  lemma MulReorder(p: int, x: int, l: int)
    ensures p * (x * l) == x * (l * p)
  {
  }

  lemma EmitStepIsLinear(op: char, digit: char, s: Regs, x: int)
    ensures EmitStep(op, digit, Scale(x, s)) == Scale(x, EmitStep(op, digit, s))
  {
    var v := digit as int - '0' as int;
    if op == '+' || op == '-' {
      SumScales(x, Pick(v / 2 % 2 == 1, s), Pick(v % 2 == 1, s));
    } else {
      var c := op as int - 'a' as int;
      if 0 <= c < 32 {
        ShiftScales(x, Pick(v % 2 == 1, s), c);
      }
    }
  }

  /** Programs are linear in the pair of registers: running one on multiples of `x` gives
      multiples of `x`. */
  lemma {:induction false} RunCodeIsLinear(code: string, s: Regs, x: int)
    ensures RunCode(code, Scale(x, s)) == Scale(x, RunCode(code, s))
    decreases |code|
  {
    if |code| >= 2 {
      EmitStepIsLinear(code[0], code[1], s, x);
      RunCodeIsLinear(code[2..], EmitStep(code[0], code[1], s), x);
    }
  }

  /** `code` multiplies by `v`, as seen by running it on the coefficients (1, 0). */
  predicate Evaluates(code: string, v: int) {
    |code| % 2 == 0 && RunCode(code, Regs(1, 0)).r0 == v
  }

  /** A program found by working on coefficients multiplies every word by that constant. */
  lemma CodeMultiplies(code: string, v: int, x: int)
    requires Evaluates(code, v)
    requires Wrap(x) == x
    ensures RunCode(code, Regs(x, 0)).r0 == Wrap(x * v)
  {
    RunCodeIsLinear(code, Regs(1, 0), x);
    assert Scale(x, Regs(1, 0)) == Regs(x, 0);
  }

  lemma {:induction false} RunCodeAppend(a: string, b: string, s: Regs)
    requires |a| % 2 == 0
    ensures RunCode(a + b, s) == RunCode(b, RunCode(a, s))
    decreases |a|
  {
    if a == [] {
      assert a + b == b;
    } else {
      assert (a + b)[2..] == a[2..] + b;
      RunCodeAppend(a[2..], b, EmitStep(a[0], a[1], s));
    }
  }

  // ---------------------------------------------------------------- the register search

  /** The register choice number `i` that `docode` tries for operator `op`. */
  function Choice(op: char, i: nat, s: Regs): Option<Regs> {
    var c := op as int - 'a' as int;
    if op == '+' then
      if i == 1 then Some(Regs(Wrap(s.r0 + s.r1), s.r1))
      else if i == 5 then Some(Regs(s.r0, Wrap(s.r0 + s.r1)))
      else None
    else if op == '-' then
      if i == 1 then Some(Regs(Wrap(s.r0 - s.r1), s.r1))
      else if i == 2 then Some(Regs(Wrap(s.r1 - s.r0), s.r1))
      else if i == 5 then Some(Regs(s.r0, Wrap(s.r0 - s.r1)))
      else if i == 6 then Some(Regs(s.r0, Wrap(s.r1 - s.r0)))
      else None
    else if 1 <= c < 30 then
      if i == 0 then Some(Regs(Shl(s.r0, c), s.r1))
      else if i == 1 then Some(Regs(Shl(s.r1, c), s.r1))
      else if i == 2 then Some(Regs(s.r0, Shl(s.r0, c)))
      else if i == 3 then Some(Regs(s.r0, Shl(s.r1, c)))
      else None
    else None
  }

  function Digit(i: nat): char
    requires i < 8
  {
    ('0' as int + i) as char
  }

  /** The two readings of a digit agree: what `docode` computes for choice `i` is what
      `mulcon` emits for digit `i`. */
  lemma ChoiceIsEmitted(op: char, i: nat, s: Regs)
    requires i < 8
    ensures Choice(op, i, s).Some? ==> EmitStep(op, Digit(i), s) == Choice(op, i, s).value
  {
  }

  /** With the chosen digit put in, the code runs its first step and then the rest. */
  lemma StepEmitted(code: seq<char>, op: char, i: nat, cp: nat, n: nat, s: Regs, v: int)
    requires cp + 2 <= n < |code| && code[cp] == op != NUL && i < 8 && Choice(op, i, s).Some?
    requires NUL !in code[cp + 2..n] && RunCode(code[cp + 2..n], Choice(op, i, s).value).r0 == v
    ensures var done := code[cp + 1 := Digit(i)];
            NUL !in done[cp..n] && RunCode(done[cp..n], s).r0 == v
  {
    var done := code[cp + 1 := Digit(i)];
    assert done[cp..n] == [op, Digit(i)] + code[cp + 2..n];
    assert done[cp..n][2..] == code[cp + 2..n];
    ChoiceIsEmitted(op, i, s);
  }

  /** Some sequence of register choices leads from `s` through `hint` to `v` in r0. */
  ghost predicate Solves(hint: string, s: Regs, v: int) {
    if hint == "" then s.r0 == v
    else exists i: nat :: i < 8 && Choice(hint[0], i, s).Some? && Solves(hint[1..], Choice(hint[0], i, s).value, v)
  }

  lemma SolvesBy(hint: string, s: Regs, v: int, i: nat)
    requires hint != "" && i < 8
    requires Choice(hint[0], i, s).Some? && Solves(hint[1..], Choice(hint[0], i, s).value, v)
    ensures Solves(hint, s, v)
  {
  }

  /** Choice `i` leaves its result in r0. */
  predicate WritesFirst(op: char, i: nat) {
    if op == '+' || op == '-' then i < 4 else i < 2
  }

  /** As `Solves`, but the last operator must compute `v` rather than find it left over. */
  ghost predicate Makes(hint: string, s: Regs, v: int)
    decreases |hint|, 1
  {
    exists i: nat :: i < 8 && MakesBy(hint, s, v, i)
  }

  ghost predicate MakesBy(hint: string, s: Regs, v: int, i: nat)
    decreases |hint|, 0
  {
    && hint != ""
    && Choice(hint[0], i, s).Some?
    && if |hint| == 1 then WritesFirst(hint[0], i) && Choice(hint[0], i, s).value.r0 == v
       else Makes(hint[1..], Choice(hint[0], i, s).value, v)
  }

  lemma {:induction false} MakesSolves(hint: string, s: Regs, v: int)
    requires hint != "" && Makes(hint, s, v)
    ensures Solves(hint, s, v)
    decreases |hint|
  {
    var i: nat :| i < 8 && MakesBy(hint, s, v, i);
    var t := Choice(hint[0], i, s).value;
    if |hint| > 1 {
      MakesSolves(hint[1..], t, v);
    }
    assert Solves(hint[1..], t, v);
  }

  function Swapped(s: Regs): Regs {
    Regs(s.r1, s.r0)
  }

  /** The choice that does to the swapped registers what choice `i` does, swapped. */
  function Mirror(op: char, i: nat): (j: nat)
    requires i < 8
    ensures j < 8
  {
    if op == '+' then (if i == 1 then 5 else if i == 5 then 1 else i)
    else if op == '-' then (if i == 1 then 6 else if i == 6 then 1 else if i == 2 then 5 else if i == 5 then 2 else i)
    else if i < 4 then 3 - i else i
  }

  /** The choice that computes into r0, from the swapped registers, what choice `i` does. */
  function LastMirror(op: char, i: nat): (j: nat)
    requires i < 8
    ensures j < 8
  {
    if op == '+' then i else if op == '-' then (if i == 1 then 2 else if i == 2 then 1 else i)
    else if i < 2 then 1 - i else i
  }

  lemma MirrorMirrors(op: char, i: nat, s: Regs)
    requires i < 8 && Choice(op, i, s).Some?
    ensures Choice(op, Mirror(op, i), Swapped(s)) == Some(Swapped(Choice(op, i, s).value))
    ensures WritesFirst(op, i) ==>
              && WritesFirst(op, LastMirror(op, i))
              && Choice(op, LastMirror(op, i), Swapped(s)).Some?
              && Choice(op, LastMirror(op, i), Swapped(s)).value.r0 == Choice(op, i, s).value.r0
  {
  }

  /** Making a value does not depend on which register holds which.  This is what lets the
      searches over unordered pairs stand in for the search over ordered registers. */
  lemma {:induction false} MakesSwapped(hint: string, s: Regs, v: int)
    requires hint != "" && Makes(hint, s, v)
    ensures Makes(hint, Swapped(s), v)
    decreases |hint|
  {
    var i: nat :| i < 8 && MakesBy(hint, s, v, i);
    MirrorMirrors(hint[0], i, s);
    if |hint| == 1 {
      assert MakesBy(hint, Swapped(s), v, LastMirror(hint[0], i));
    } else {
      var t := Choice(hint[0], i, s).value;
      MakesSwapped(hint[1..], t, v);
      assert MakesBy(hint, Swapped(s), v, Mirror(hint[0], i));
    }
  }

  /** One step of a pair search: an operator in front of a hint for what it produces, in
      either order of the registers. */
  lemma MakesStep(op: char, i: nat, rest: string, s: Regs, t: Regs, v: int)
    requires i < 8 && Choice(op, i, s) == Some(t)
    requires rest != "" && (Makes(rest, t, v) || Makes(rest, Swapped(t), v))
    ensures Makes([op] + rest, s, v)
  {
    if !Makes(rest, t, v) {
      MakesSwapped(rest, Swapped(t), v);
    }
    assert ([op] + rest)[1..] == rest;
    assert MakesBy([op] + rest, s, v, i);
  }

  lemma MakesLast(op: char, i: nat, s: Regs, t: Regs, v: int)
    requires i < 8 && Choice(op, i, s) == Some(t)
    requires WritesFirst(op, i) && t.r0 == v
    ensures Makes([op], s, v)
  {
    assert MakesBy([op], s, v, i);
  }

  // ---------------------------------------------------------------- C strings

  const NUL: char := '\0'

  function CString(buf: seq<char>): (r: string)
    ensures NUL !in r && r <= buf
    ensures |r| < |buf| ==> buf[|r|] == NUL
  {
    if buf == [] || buf[0] == NUL then "" else [buf[0]] + CString(buf[1..])
  }

  lemma {:induction false} CStringIs(buf: seq<char>, n: nat)
    requires n < |buf| && buf[n] == NUL && NUL !in buf[..n]
    ensures CString(buf) == buf[..n]
  {
    if n > 0 {
      assert buf[1..][..n - 1] == buf[..n][1..];
      CStringIs(buf[1..], n - 1);
    }
  }

  // ---------------------------------------------------------------- the compiler's state

  datatype Multab = Multab(val: int, code: seq<char>)
  datatype Hintab = Hintab(val: int, hint: string)

  /** gen3's bookkeeping: what has been shifted, and what has not been used. */
  datatype Flags = Flags(sr1: bool, sr0: bool, ur1: bool, ur0: bool)

  const UR1: Flags := Flags(false, false, true, false)
  const UR0: Flags := Flags(false, false, false, true)
  const UR1SR1: Flags := Flags(true, false, true, false)

  const NTAB := 20
  const CODESIZE := 20
  const HINTSIZE := 10
  const MAXMULOPS := 3

  /** Up to this value every shift count the pair search uses is one docode accepts. */
  const SEARCHABLE := 0x2000_0000

  /** A remembered code is empty or multiplies by the value it is filed under, and it
      leaves room in its buffer: codes for odd values also for the shift that the recursive
      case appends. */
  ghost predicate Sound(t: Multab) {
    var code := CString(t.code);
    code != "" ==> Evaluates(code, t.val) && |code| <= (if t.val % 2 == 1 then 16 else 18)
  }

  /** Slot `g` is the first that holds an answer for `v`. */
  ghost predicate Remembers(tab: seq<Multab>, g: nat, v: int) {
    g < |tab| && tab[g].val == v && forall j :: 0 <= j < g ==> tab[j].val != v
  }

  /** A remembered answer: the slot, or a remembered failure. */
  function Recalled(tab: seq<Multab>, g: nat): int
    requires g < |tab|
  {
    if CString(tab[g].code) == "" then -1 else g
  }

  function ShiftChar(i: nat): char
    requires i <= 30
  {
    ('a' as int + i) as char
  }

  /** Nothing but the code of slot `m` has changed, and that only from `cp` on. */
  ghost predicate OnlyCode(tab: seq<Multab>, tab': seq<Multab>, m: nat, cp: nat) {
    && |tab'| == |tab| && m < |tab| && cp <= |tab[m].code| == |tab'[m].code|
    && tab' == tab[m := tab[m].(code := tab'[m].code)]
    && tab'[m].code[..cp] == tab[m].code[..cp]
  }

  lemma OnlyCodeTrans(a: seq<Multab>, b: seq<Multab>, c: seq<Multab>, m: nat, cp: nat, cp': nat)
    requires OnlyCode(a, b, m, cp) && OnlyCode(b, c, m, cp') && cp <= cp'
    ensures OnlyCode(a, c, m, cp) && (cp < cp' ==> c[m].code[cp] == b[m].code[cp])
  {
    assert c[m].code[..cp] == c[m].code[..cp'][..cp];
    assert cp < cp' ==> c[m].code[cp] == c[m].code[..cp'][cp];
  }

  class Compiler {
    const hintab: seq<Hintab>
    var multab: seq<Multab>
    var multabp: int
    var mulval: int
    var mulcp: int
    var hint: seq<char>
    var valmax: int
    var shmax: int
    var searchFailures: nat  // "multiply table failure" reports after a hint was searched
    var tableFailures: nat   // the same report for a hint out of the table

    ghost predicate Shaped()
      reads this
    {
      && |multab| == NTAB
      && |hint| == HINTSIZE
      && (forall g :: 0 <= g < NTAB ==> |multab[g].code| == CODESIZE)
      && (forall g :: 0 <= g < |hintab| ==>
            |hintab[g].hint| <= (if hintab[g].val % 2 == 1 then 8 else 9) && NUL !in hintab[g].hint)
    }

    /** Every slot but `skip` holds no code or one that multiplies by the slot's value. */
    ghost predicate SoundExcept(skip: int)
      reads this
    {
      Shaped() && forall g :: 0 <= g < NTAB && g != skip ==> Sound(multab[g])
    }

    ghost predicate Valid()
      reads this
    {
      SoundExcept(-1)
    }

    constructor (hints: seq<Hintab>)
      requires forall g :: 0 <= g < |hints| ==>
                 |hints[g].hint| <= (if hints[g].val % 2 == 1 then 8 else 9) && NUL !in hints[g].hint
      ensures Valid() && hintab == hints
    {
      hintab := hints;
      multab := seq(NTAB, _ => Multab(0, seq(CODESIZE, _ => NUL)));
      multabp, mulval, mulcp, valmax, shmax := 0, 0, 0, 0, 0;
      searchFailures, tableFailures := 0, 0;
      hint := seq(HINTSIZE, _ => NUL);
    }

    // -------------------------------------------------------------- docode

    method SetCode(m: nat, k: nat, c: char)
      requires m < |multab| && k < |multab[m].code|
      modifies this`multab
      ensures multab == old(multab)[m := old(multab[m]).(code := old(multab[m].code)[k := c])]
    {
      multab := multab[m := multab[m].(code := multab[m].code[k := c])];
    }

    /** Put in the digit that was chosen once the rest of the program is there. */
    method PutDigit(m: nat, op: char, i: nat, cp: nat, n: nat, s: Regs)
      requires m < |multab| && cp + 2 <= n < |multab[m].code| && multab[m].code[cp] == op != NUL
      requires i < 8 && Choice(op, i, s).Some?
      requires NUL !in multab[m].code[cp + 2..n] && RunCode(multab[m].code[cp + 2..n], Choice(op, i, s).value).r0 == mulval
      modifies this`multab
      ensures OnlyCode(old(multab), multab, m, cp + 1) && multab[m].code[n] == old(multab[m].code[n])
      ensures NUL !in multab[m].code[cp..n] && RunCode(multab[m].code[cp..n], s).r0 == mulval
    {
      StepEmitted(multab[m].code, op, i, cp, n, s, mulval);
      SetCode(m, cp + 1, Digit(i));
    }

    /** Backtracking search for the digits that make `hp` compute `mulval` from `s`.  The
        search is complete, and the program it leaves behind runs to `mulval`. */
    method DoCode(hp: string, m: nat, cp: nat, s: Regs) returns (ok: bool)
      requires m < |multab|
      requires cp + 2 * |hp| < |multab[m].code|
      requires NUL !in hp
      modifies this`multab
      ensures OnlyCode(old(multab), multab, m, cp)
      ensures ok <==> Solves(hp, s, mulval)
      ensures ok ==>
                var n := cp + 2 * |hp|;
                && multab[m].code[n] == NUL
                && NUL !in multab[m].code[cp..n]
                && RunCode(multab[m].code[cp..n], s).r0 == mulval
      decreases |hp|, 1
    {
      if hp == "" {
        SetCode(m, cp, NUL);
        return s.r0 == mulval;
      }
      var c := hp[0];
      SetCode(m, cp, c);
      var limit := if c == '+' || c == '-' then 8 else 4;
      var i := 0;
      while i < limit
        invariant 0 <= i <= limit
        invariant OnlyCode(old(multab), multab, m, cp) && multab[m].code[cp] == c
        invariant forall j: nat :: j < i && Choice(c, j, s).Some? ==> !Solves(hp[1..], Choice(c, j, s).value, mulval)
      {
        var t := Choice(c, i, s);
        if t.Some? {
          ghost var before := multab;
          ok := TryDigit(hp, m, cp, s, i, t.value);
          OnlyCodeTrans(old(multab), before, multab, m, cp, cp + 1);
          if ok {
            return;
          }
        }
        i := i + 1;
      }
      ok := false;
    }

    /** One digit behind the operator at `cp`, and the search for the rest. */
    method TryDigit(hp: string, m: nat, cp: nat, s: Regs, i: nat, t: Regs) returns (ok: bool)
      requires m < |multab| && hp != "" && cp + 2 * |hp| < |multab[m].code| && NUL !in hp
      requires multab[m].code[cp] == hp[0] && i < 8 && Choice(hp[0], i, s) == Some(t)
      modifies this`multab
      ensures OnlyCode(old(multab), multab, m, cp + 1) && multab[m].code[cp] == hp[0]
      ensures ok <==> Solves(hp[1..], t, mulval)
      ensures ok ==>
                var n := cp + 2 * |hp|;
                && multab[m].code[n] == NUL
                && NUL !in multab[m].code[cp..n]
                && RunCode(multab[m].code[cp..n], s).r0 == mulval
      decreases |hp|, 0
    {
      ghost var start := multab;
      ok := DoCode(hp[1..], m, cp + 2, t);
      OnlyCodeTrans(start, start, multab, m, cp + 1, cp + 2);
      assert cp + 2 + 2 * |hp[1..]| == cp + 2 * |hp|;
      if ok {
        ghost var before := multab;
        PutDigit(m, hp[0], i, cp, cp + 2 * |hp|, s);
        OnlyCodeTrans(start, before, multab, m, cp + 1, cp + 1);
      }
    }

    // -------------------------------------------------------------- gen1, gen2, gen3

    ghost predicate Searching(len: nat)
      reads this
    {
      && len <= mulcp <= |hint|
      && 0 <= shmax <= 30
      && (mulval <= SEARCHABLE ==> shmax < 30)
    }

    /** A search of `len` operators left the buffer as it was, or put in front of `cp` a
        string that makes `mulval` out of the pair `s`. */
    ghost predicate Outcome(ok: bool, len: nat, s: Regs, h: seq<char>, cp: int)
      requires len <= cp <= |h|
      reads this
    {
      if ok then
        && |hint| == |h| && mulcp == cp - len && hint[cp..] == h[cp..]
        && NUL !in hint[mulcp..cp]
        && (mulval <= SEARCHABLE ==> Makes(hint[mulcp..cp], s, mulval))
      else
        hint == h && mulcp == cp
    }

    /** Searching for 0: no value above 2 is considered. */
    ghost predicate Idle()
      reads this`mulval, this`shmax, this`valmax
    {
      mulval == 0 && shmax == 1 && valmax == 2
    }

    method PutHint(c: char)
      requires 1 <= mulcp <= |hint|
      modifies this`mulcp, this`hint
      ensures mulcp == old(mulcp) - 1 && hint == old(hint)[mulcp := c]
    {
      mulcp := mulcp - 1;
      hint := hint[mulcp := c];
    }

    method Finish(op: char, ghost i: nat, ghost s: Regs)
      requires mulcp >= 1 && Searching(1) && op != NUL
      requires mulval <= SEARCHABLE ==>
                 i < 8 && WritesFirst(op, i) && Choice(op, i, s).Some? && Choice(op, i, s).value.r0 == mulval
      modifies this`mulcp, this`hint
      ensures Outcome(true, 1, s, old(hint), old(mulcp))
    {
      PutHint(op);
      assert hint[mulcp..old(mulcp)] == [op];
      if mulval <= SEARCHABLE {
        MakesLast(op, i, s, Choice(op, i, s).value, mulval);
      }
    }

    /** Put `op` in front of what a successful search from `t` left, where `op` leads from
        `s` to `t` up to the order of the registers. */
    method Extend(op: char, ghost i: nat, ghost s: Regs, ghost t: Regs, ghost len: nat, ghost h: seq<char>, ghost cp: int)
      requires 1 <= len < cp <= |h| && op != NUL
      requires Outcome(true, len, t, h, cp)
      requires mulval <= SEARCHABLE ==>
                 i < 8 && (Choice(op, i, s) == Some(t) || Choice(op, i, s) == Some(Swapped(t)))
      modifies this`mulcp, this`hint
      ensures Outcome(true, len + 1, s, h, cp)
    {
      ghost var rest := hint[mulcp..cp];
      PutHint(op);
      assert hint[mulcp..cp] == [op] + rest;
      if mulval <= SEARCHABLE {
        MakesStep(op, i, rest, s, Choice(op, i, s).value, mulval);
      }
    }

    /** The loops of gen3 that shift `base` into a new larger element beside `keep`. */
    method GenShift(len: nat, base: int, keep: int, f: Flags, ghost i0: nat, ghost s: Regs) returns (ok: bool)
      requires len >= 1 && Searching(len + 1)
      requires i0 < 8
      requires forall i: nat :: 1 <= i < 30 ==>
                 var c := Choice(ShiftChar(i), i0, s);
                 c == Some(Regs(keep, Shl(base, i))) || c == Some(Swapped(Regs(keep, Shl(base, i))))
      modifies this`mulcp, this`hint
      ensures Outcome(ok, len + 1, s, old(hint), old(mulcp)) && (Idle() ==> !ok)
      decreases len, 1
    {
      ghost var h, cp := hint, mulcp;
      for i := 1 to shmax + 1
        invariant hint == h && mulcp == cp
      {
        var x := Shl(base, i);
        if x > valmax {
          break;
        }
        ok := Gen3(len, keep, x, f);
        if ok {
          Extend(ShiftChar(i), i0, s, Regs(keep, x), len, h, cp);
          return;
        }
      }
      ok := false;
    }

    /** The loop of gen3 that shifts the smaller element in place. */
    method GenShiftSmaller(len: nat, r0: int, r1: int, f1: Flags, f2: Flags) returns (ok: bool)
      requires len >= 1 && Searching(len + 1)
      modifies this`mulcp, this`hint
      ensures Outcome(ok, len + 1, Regs(r0, r1), old(hint), old(mulcp)) && (Idle() ==> !ok)
      decreases len, 1
    {
      ghost var s, h, cp := Regs(r0, r1), hint, mulcp;
      for i := 1 to shmax + 1
        invariant hint == h && mulcp == cp
      {
        var x := Shl(r0, i);
        if x > valmax {
          break;
        }
        if x > r1 {
          ok := Gen3(len, r1, x, f2);
          if ok {
            Extend(ShiftChar(i), 0, s, Regs(r1, x), len, h, cp);
            return;
          }
        } else {
          ok := Gen3(len, x, r1, f1);
          if ok {
            Extend(ShiftChar(i), 0, s, Regs(x, r1), len, h, cp);
            return;
          }
        }
      }
      ok := false;
    }

    /** The additions and subtractions gen3 tries last. */
    method GenSum(len: nat, r0: int, r1: int) returns (ok: bool)
      requires len >= 1 && Searching(len + 1)
      modifies this`mulcp, this`hint
      ensures Outcome(ok, len + 1, Regs(r0, r1), old(hint), old(mulcp)) && (Idle() ==> !ok)
      decreases len, 1
    {
      ghost var s, h, cp := Regs(r0, r1), hint, mulcp;
      var x := Wrap(r1 + r0);
      ok := Gen3(len, r0, x, UR1);
      if ok {
        Extend('+', 5, s, Regs(r0, x), len, h, cp);
        return;
      }
      ok := Gen3(len, r1, x, UR1);
      if ok {
        Extend('+', 1, s, Regs(r1, x), len, h, cp);
        return;
      }
      x := Wrap(r1 - r0);
      ok := Gen3(len, x, r1, UR0);
      if ok {
        Extend('-', 2, s, Regs(x, r1), len, h, cp);
        return;
      }
      if x > r0 {
        ok := Gen3(len, r0, x, UR1);
        if ok {
          Extend('-', 6, s, Regs(r0, x), len, h, cp);
        }
      } else {
        ok := Gen3(len, x, r0, UR0);
        if ok {
          Extend('-', 6, s, Regs(x, r0), len, h, cp);
        }
      }
    }

    /** The last operator: make `mulval` from the pair directly. */
    method CalcR0(r0: int, r1: int, flag: Flags) returns (ok: bool)
      requires Searching(1) && 0 < r0 < r1 <= valmax
      modifies this`mulcp, this`hint
      ensures Outcome(ok, 1, Regs(r0, r1), old(hint), old(mulcp)) && (Idle() ==> !ok)
    {
      ghost var s := Regs(r0, r1);
      if flag.ur1 && !flag.ur0 {
        for i := 1 to shmax + 1
          invariant hint == old(hint) && mulcp == old(mulcp)
        {
          var x := Shl(r1, i);
          if x >= mulval {
            if x == mulval {
              Finish(ShiftChar(i), 1, s);
              return true;
            }
            break;
          }
        }
      }
      if mulval == Wrap(r1 + r0) {
        Finish('+', 1, s);
        return true;
      }
      if mulval == Wrap(r1 - r0) {
        Finish('-', 2, s);
        return true;
      }
      ok := false;
    }

    /** Search for `len0` operators that make `mulval` from the pair r0 < r1. */
    method Gen3(len0: nat, r0: int, r1: int, flag: Flags) returns (ok: bool)
      requires len0 >= 1 && Searching(len0)
      modifies this`mulcp, this`hint
      ensures Outcome(ok, len0, Regs(r0, r1), old(hint), old(mulcp)) && (Idle() ==> !ok)
      decreases len0, 0
    {
      if r0 <= 0 || r0 >= r1 || r1 > valmax {
        return false;
      }
      ghost var s := Regs(r0, r1);
      var len := len0 - 1;
      if len == 0 {
        ok := CalcR0(r0, r1, flag);
        return;
      }
      if !flag.ur1 {
        ok := GenShift(len, r0, r0, UR1SR1, 2, s);
        if ok { return; }
      }
      if !flag.ur0 {
        ok := GenShift(len, r1, r1, UR1SR1, 1, s);
        if ok { return; }
      }
      if !flag.sr1 {
        ok := GenShift(len, r1, r0, UR1SR1.(ur0 := flag.ur0), 3, s);
        if ok { return; }
      }
      if !flag.sr0 {
        ok := GenShiftSmaller(len, r0, r1, Flags(flag.sr1, true, flag.ur1, true), Flags(true, flag.sr1, true, flag.ur1));
        if ok { return; }
      }
      ok := GenSum(len, r0, r1);
    }

    /** Search from the pair {1, r1}; with no operators left, r1 itself must be the answer. */
    method Gen2(len0: nat, r1: int) returns (ok: bool)
      requires Searching(len0)
      modifies this`mulcp, this`hint
      ensures len0 == 0 ==> hint == old(hint) && mulcp == old(mulcp) && (ok <==> r1 == mulval)
      ensures len0 > 0 ==> Outcome(ok, len0, Regs(1, r1), old(hint), old(mulcp))
      ensures Idle() && r1 == 2 ==> !ok
    {
      if len0 <= 0 {
        return r1 == mulval;
      }
      ghost var s, h, cp := Regs(1, r1), hint, mulcp;
      var len := len0 - 1;
      if len == 0 {
        if mulval == Wrap(r1 + 1) {
          Finish('+', 1, s);
          return true;
        }
        if mulval == Wrap(r1 - 1) {
          Finish('-', 2, s);
          return true;
        }
        return false;
      }
      ok := Gen3(len, r1, Wrap(r1 + 1), UR1);
      if ok {
        Extend('+', 1, s, Regs(r1, Wrap(r1 + 1)), len, h, cp);
        return;
      }
      ok := Gen3(len, Wrap(r1 - 1), r1, UR0);
      if ok {
        Extend('-', 2, s, Regs(Wrap(r1 - 1), r1), len, h, cp);
        return;
      }
      ok := Gen3(len, 1, Wrap(r1 + 1), UR1);
      if ok {
        Extend('+', 5, s, Regs(1, Wrap(r1 + 1)), len, h, cp);
        return;
      }
      ok := Gen3(len, 1, Wrap(r1 - 1), UR1);
      if ok {
        Extend('-', 6, s, Regs(1, Wrap(r1 - 1)), len, h, cp);
      }
    }

    /** How far shifts and values go in the search. */
    method SetBounds()
      modifies this`shmax, this`valmax
      ensures 1 <= shmax <= 30 && (mulval <= SEARCHABLE ==> shmax < 30)
      ensures mulval == 0 ==> Idle()
    {
      shmax := 1;
      while shmax < 30
        invariant 1 <= shmax <= 30
        invariant mulval <= SEARCHABLE ==> shmax < 30
        invariant mulval == 0 ==> shmax == 1
      {
        Pow2Values();
        valmax := Pow2(shmax);
        if valmax >= mulval {
          break;
        }
        shmax := shmax + 1;
      }
    }

    /** The hint search.  For a value from 2 to 2^29, success leaves a hint of exactly `len0`
        characters on which the register search from (1, 0) succeeds. */
    method Gen1(len0: nat) returns (ok: bool)
      requires 1 <= len0 == mulcp < |hint|
      modifies this`mulcp, this`hint, this`shmax, this`valmax
      ensures |hint| == old(|hint|)
      ensures mulval == 1 ==> ok && hint == old(hint)
      ensures mulval != 1 && ok ==>
                && mulcp == 0 && hint[len0..] == old(hint)[len0..]
                && NUL !in hint[..len0]
                && (mulval <= SEARCHABLE ==> Solves(hint[..len0], Regs(1, 0), mulval))
      ensures !ok ==> hint == old(hint)
      ensures mulval == 0 ==> !ok
    {
      SetBounds();
      if mulval == 1 {
        return true;
      }
      var len := len0 - 1;
      var last := shmax;
      assert Shl(1, 1) == 2;
      for i := 1 to last + 1
        invariant hint == old(hint) && mulcp == old(mulcp) && shmax == last
        invariant mulval == 0 ==> Idle()
      {
        ok := Gen2(len, Shl(1, i));
        if ok {
          ghost var rest := hint[mulcp..len0];
          PutHint(ShiftChar(i));
          assert hint[..len0] == [ShiftChar(i)] + rest;
          if mulval <= SEARCHABLE {
            FirstShiftSolves(i, rest, mulval);
          }
          return;
        }
      }
      ok := false;
    }

    // -------------------------------------------------------------- mulcon0

    /** The table of hints is in order. */
    ghost predicate Rising() {
      forall i, j :: 0 <= i < j < |hintab| ==> hintab[i].val < hintab[j].val
    }

    method Lookup(v: int) returns (g: int)
      ensures -1 <= g < |hintab|
      ensures g >= 0 ==> hintab[g].val == v
      ensures Rising() && g < 0 ==> forall i :: 0 <= i < |hintab| ==> hintab[i].val != v
    {
      var a1, a2 := 0, |hintab|;
      while a1 < a2
        invariant 0 <= a1 <= a2 <= |hintab|
        invariant Rising() ==> forall i :: 0 <= i < a1 || a2 <= i < |hintab| ==> hintab[i].val != v
      {
        g := (a2 + a1) / 2;
        if v < hintab[g].val {
          a2 := g;
        } else if v > hintab[g].val {
          a1 := g + 1;
        } else {
          return;
        }
      }
      g := -1;
    }

    method StoreCode(m: nat, code: string)
      requires Shaped() && m < NTAB && |code| < CODESIZE && NUL !in code
      modifies this`multab
      ensures Shaped()
      ensures multab == old(multab)[m := multab[m]] && multab[m].val == old(multab[m]).val
      ensures CString(multab[m].code) == code
    {
      var buf := code + [NUL] + multab[m].code[|code| + 1..];
      assert buf[..|code|] == code;
      CStringIs(buf, |code|);
      multab := multab[m := multab[m].(code := buf)];
    }

    /** Run the register search for slot `m` on `h`. */
    method TryHint(m: nat, h: string) returns (ok: bool)
      requires Shaped() && m < NTAB && multab[m].val == mulval
      requires NUL !in h && |h| <= (if mulval % 2 == 1 then 8 else 9)
      modifies this`multab
      ensures Shaped()
      ensures multab == old(multab)[m := multab[m]] && multab[m].val == mulval
      ensures ok <==> Solves(h, Regs(1, 0), mulval)
      ensures ok ==> Sound(multab[m]) && Evaluates(CString(multab[m].code), mulval)
    {
      ok := DoCode(h, m, 0, Regs(1, 0));
      if ok {
        CStringIs(multab[m].code, 2 * |h|);
        assert multab[m].code[0..2 * |h|] == multab[m].code[..2 * |h|];
      }
    }

    /** Search for a hint of one, two or three operators and turn it into a program. */
    method TrySearch(m: nat, v: int) returns (ok: bool)
      requires Shaped() && m < NTAB && multab[m].val == mulval == v
      modifies this`multab, this`mulcp, this`hint, this`shmax, this`valmax, this`searchFailures
      ensures Shaped()
      ensures multab == old(multab)[m := multab[m]] && multab[m].val == v
      ensures ok ==> Sound(multab[m]) && Evaluates(CString(multab[m].code), v)
      ensures v <= SEARCHABLE ==> searchFailures == old(searchFailures)
      ensures v == 0 ==> !ok
    {
      hint := hint[0 := NUL];
      for g := 1 to MAXMULOPS + 1
        invariant Shaped() && multab == old(multab) && mulval == v
        invariant hint[0] == NUL && searchFailures == old(searchFailures)
      {
        if g >= MAXMULOPS && v >= 65535 {
          break;
        }
        mulcp := g;
        hint := hint[mulcp := NUL];
        var found := Gen1(g);
        if found {
          if v != 1 {
            assert hint[g..][0] == NUL;
            CStringIs(hint, g);
          }
          ok := TryHint(m, CString(hint));
          if ok {
            return;
          }
          assert v > SEARCHABLE;
          searchFailures := searchFailures + 1;
          break;
        }
      }
      ok := false;
    }

    /** The odd part of a value and the shift that restores it. */
    method SplitShift(v0: nat) returns (v: nat, shift: nat)
      requires 0 < v0 < HALF
      ensures v % 2 == 1 && v * Pow2(shift) == v0 && v <= v0 && shift <= 30 && v == Halved(v0, shift)
      ensures shift == 0 <==> v0 % 2 == 1
    {
      v, shift := v0, 0;
      while v % 2 == 0
        invariant 0 < v <= v0 && v * Pow2(shift) == v0 && v == Halved(v0, shift)
        invariant shift == 0 ==> v == v0
        invariant shift > 0 ==> v0 % 2 == 0
        decreases v
      {
        v, shift := v / 2, shift + 1;
      }
      ShiftBound(v, shift);
    }

    /** What mulcon0 promises about a slot it returns. */
    ghost predicate Answer(m: int, v: int, skip: int)
      requires |multab| == NTAB
      reads this
    {
      m >= 0 ==>
        && m < NTAB && m != skip
        && multab[m].val == v
        && Evaluates(CString(multab[m].code), v)
        && |CString(multab[m].code)| <= (if v % 2 == 1 then 16 else 18)
    }

    /** mulcon0 up to its last resort: the answer in slot `m`, or -1, or else slot `m` claimed and
        neither a remembered answer nor a hint found.  For 0 there is no hint to be found. */
    method Ready(v0: nat, ghost skip: int) returns (done: bool, m: int)
      requires v0 < HALF && SoundExcept(skip)
      requires 0 <= skip ==> skip < NTAB && multabp == skip && v0 % 2 == 1 && multab[skip].val % 2 == 0
      modifies this
      ensures Shaped() && m < NTAB && (0 <= skip < NTAB ==> m != skip && multab[skip] == old(multab[skip]))
      ensures done ==> SoundExcept(skip) && Answer(m, v0, skip)
      ensures !done ==>
                && 0 <= m && multabp == m && multab[m].val == v0
                && multab == old(multab)[m := multab[m]]
      ensures v0 <= SEARCHABLE ==> searchFailures == old(searchFailures)
      ensures forall g: nat :: Remembers(old(multab), g, v0) ==> done && multab == old(multab) && m == Recalled(old(multab), g)
      ensures v0 == 0 && (forall g :: 0 <= g < |hintab| ==> hintab[g].val != 0) ==>
                (done <==> exists g: nat :: Remembers(old(multab), g, 0))
    {
      for g := 0 to NTAB
        invariant multab == old(multab) && multabp == old(multabp) && searchFailures == old(searchFailures)
        invariant Shaped()
        invariant forall j :: 0 <= j < g ==> multab[j].val != v0
      {
        if multab[g].val == v0 {
          assert Remembers(multab, g, v0);
          return true, if multab[g].code[0] == NUL then -1 else g;
        }
      }

      m := Claim(v0);
      var g := Lookup(v0);
      if g >= 0 {
        var ok := TryHint(m, hintab[g].hint);
        if !ok {
          tableFailures := tableFailures + 1;
          StoreCode(m, "");
          m := -1;
        }
        return true, m;
      }
      done := TrySearch(m, v0);
    }

    /** mulcon0 on a value that is not negative.  `skip` is the slot of the call that is waiting
        for this one, if any; that slot is in the making and is left alone. */
    method Find(v0: nat, ghost skip: int) returns (m: int)
      requires v0 < HALF && (v0 == 0 ==> exists g: nat :: Remembers(multab, g, 0))
      requires SoundExcept(skip)
      requires 0 <= skip ==> skip < NTAB && multabp == skip && v0 % 2 == 1 && multab[skip].val % 2 == 0
      modifies this
      ensures SoundExcept(skip)
      ensures 0 <= skip < NTAB ==> multab[skip] == old(multab[skip])
      ensures Answer(m, v0, skip)
      ensures v0 <= SEARCHABLE ==> searchFailures == old(searchFailures)
      ensures forall g: nat :: Remembers(old(multab), g, v0) ==> multab == old(multab) && m == Recalled(old(multab), g)
      decreases v0 % 2 == 0, 1
    {
      var done;
      done, m := Ready(v0, skip);
      if !done {
        var ok := FindShifted(m, v0);
        if !ok {
          m := -1;
        }
      }
    }

    /** Take the next slot of the ring for `v`. */
    method Claim(v: int) returns (m: nat)
      requires Shaped()
      modifies this`multab, this`multabp, this`mulval
      ensures Shaped() && m < NTAB && multabp == m && mulval == v
      ensures m == if 0 <= old(multabp) + 1 < NTAB then old(multabp) + 1 else 0
      ensures multab == old(multab)[m := old(multab[m]).(val := v)]
    {
      multabp := multabp + 1;
      if multabp < 0 || multabp >= NTAB {
        multabp := 0;
      }
      m := multabp;
      multab := multab[m := multab[m].(val := v)];
      mulval := v;
    }

    /** The program of the odd part and a shift; slot `m` holds it or nothing. */
    method FindShifted(m: nat, v0: nat) returns (ok: bool)
      requires 0 < v0 < HALF && m < NTAB && Shaped() && multabp == m && multab[m].val == v0
      requires v0 % 2 == 0 ==> SoundExcept(m)
      modifies this
      ensures Shaped() && multab[m].val == v0
      ensures v0 % 2 == 0 ==> SoundExcept(m)
      ensures v0 % 2 == 1 ==> multab == old(multab)[m := multab[m]]
      ensures if ok then Evaluates(CString(multab[m].code), v0) && |CString(multab[m].code)| <= 18 && v0 % 2 == 0
              else CString(multab[m].code) == ""
      ensures v0 <= SEARCHABLE ==> searchFailures == old(searchFailures)
      decreases v0 % 2 == 0, 0
    {
      var v, shift := SplitShift(v0);
      if shift > 0 {
        var m1 := Find(v, m);
        if m1 >= 0 {
          var code := CString(multab[m1].code);
          ShiftedEvaluates(code, v, shift, v0);
          StoreCode(m, code + [ShiftChar(shift), '0']);
          return true;
        }
      }
      StoreCode(m, "");
      return false;
    }

    /** A program for `v`, or -1.  Whatever is returned multiplies every word by |v|, every
        slot of the ring stays sound, and up to 2^29 no searched hint is ever rejected.  The
        shifting out of zero bits would not end for 0, which a slot must remember. */
    method Mulcon0(v: int) returns (m: int)
      requires -HALF < v < HALF && (v == 0 ==> exists g: nat :: Remembers(multab, g, 0))
      requires Valid()
      modifies this
      ensures Valid()
      ensures m >= 0 ==>
                && m < NTAB && multab[m].val == Abs(v)
                && forall x :: Wrap(x) == x ==> RunCode(CString(multab[m].code), Regs(x, 0)).r0 == Wrap(x * Abs(v))
      ensures Abs(v) <= SEARCHABLE ==> searchFailures == old(searchFailures)
      ensures forall g: nat :: Remembers(old(multab), g, Abs(v)) ==> multab == old(multab) && m == Recalled(old(multab), g)
    {
      m := Find(Abs(v), -1);
      if m >= 0 {
        ghost var code := CString(multab[m].code);
        forall x | Wrap(x) == x ensures RunCode(code, Regs(x, 0)).r0 == Wrap(x * Abs(v)) {
          CodeMultiplies(code, Abs(v), x);
        }
      }
    }
  }

  /** What is left after `n` turns of the loop that takes out factors of two. */
  function Halved(v: int, n: nat): int {
    if n == 0 then v else Halved(v, n - 1) / 2
  }

  /** The loop ends, at the first odd number it comes to, for every value but 0. */
  lemma HalvingEnds(v: nat)
    ensures v != 0 <==> exists n: nat :: Halved(v, n) % 2 == 1
  {
    if v == 0 {
      forall n: nat ensures Halved(0, n) % 2 == 0 {
        HalvedZero(n);
      }
    } else {
      var n := OddPart(v, v, 0);
    }
  }

  lemma {:induction false} HalvedZero(n: nat)
    ensures Halved(0, n) == 0
  {
    if n > 0 {
      HalvedZero(n - 1);
    }
  }

  lemma {:induction false} OddPart(v: nat, u: nat, k: nat) returns (n: nat)
    requires u > 0 && u == Halved(v, k)
    ensures Halved(v, n) % 2 == 1
    decreases u
  {
    n := k;
    if u % 2 == 0 {
      n := OddPart(v, u / 2, k + 1);
    }
  }

  lemma MulGrows(v: nat, p: nat)
    requires v >= 1
    ensures v * p >= p
  {
  }

  lemma ShiftBound(v: nat, shift: nat)
    requires v >= 1 && v * Pow2(shift) < HALF
    ensures shift <= 30
  {
    MulGrows(v, Pow2(shift));
    if shift > 30 {
      Pow2Grows(31, shift);
      Pow2Values();
    }
  }

  /** Appending a shift of r0 multiplies the program's constant by a power of two. */
  lemma ShiftedEvaluates(code: string, v: nat, shift: nat, w: nat)
    requires Evaluates(code, v) && shift <= 30 && w == v * Pow2(shift) < HALF
    ensures Evaluates(code + [ShiftChar(shift), '0'], w)
  {
    var op, s := ShiftChar(shift), RunCode(code, Regs(1, 0));
    RunCodeAppend(code, [op, '0'], Regs(1, 0));
    RunShift(shift, s);
    WrapSmall(v, Pow2(shift), w);
    LengthEven(code, [op, '0']);
  }

  lemma WrapSmall(v: nat, p: int, w: nat)
    requires w == v * p < HALF
    ensures Wrap(v * p) == w
  {
  }

  lemma LengthEven(a: string, b: string)
    requires |a| % 2 == 0 && |b| == 2
    ensures |a + b| % 2 == 0
  {
  }

  lemma RunShift(shift: nat, s: Regs)
    requires shift <= 30
    ensures RunCode([ShiftChar(shift), '0'], s) == Regs(Wrap(s.r0 * Pow2(shift)), s.r1)
  {
    var op := ShiftChar(shift);
    assert [op, '0'][2..] == "";
    assert EmitStep(op, '0', s) == Regs(Shl(s.r0, shift), s.r1);
  }

  function Abs(v: int): nat {
    if v < 0 then -v else v
  }

  /** The first operator turns (1, 0) into the shifted value, or into the pair {1, 1<<i}. */
  lemma FirstShiftSolves(i: nat, rest: string, v: int)
    requires 1 <= i < 30
    requires if rest == "" then v == Shl(1, i) else Makes(rest, Regs(1, Shl(1, i)), v)
    ensures Solves([ShiftChar(i)] + rest, Regs(1, 0), v)
  {
    var h := [ShiftChar(i)] + rest;
    assert h[1..] == rest;
    if rest == "" {
      SolvesBy(h, Regs(1, 0), v, 0);
    } else {
      MakesSolves(rest, Regs(1, Shl(1, i)), v);
      SolvesBy(h, Regs(1, 0), v, 2);
    }
  }
}

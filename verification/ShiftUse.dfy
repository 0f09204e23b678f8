/** What `copyu` answers (src/cmd/5c/peep.c), against what instructions do.

An instruction is blind to a register if, whatever the machine and its state, setting the register
first makes no difference but in the register itself, and none at all if the instruction sets it.
`copyu` answers 0 or 3 exactly for the instructions that are blind to the register, but for one
that takes the register from itself.
*/
module ShiftUse {

  import opened ShiftProp

  /** The opcodes for which `copyu` has an answer. */
  predicate Known(op: Opcode) {
    op == Nop || op == Jump || IsMove(op) || ReadReadWrite(op)
  }

  ghost predicate BlindIn(p: Instr, n: nat, s: Cpu, w: Word, env: Env)
    requires Good(p) && n < NREG
  {
    Exec(p, Set(s, n, w), env) == if p.to == Reg(n) then Exec(p, s, env) else Set(Exec(p, s, env), n, w)
  }

  ghost predicate Blind(p: Instr, n: nat)
    requires Good(p) && n < NREG
  {
    forall s, w, env :: BlindIn(p, n, s, w, env)
  }

  /** The register is subtracted from itself, so that its value does not matter. */
  predicate Cancels(p: Instr, n: nat) {
    p.op in {Sub, Rsb, Cmp} && p.from == Reg(n) && Second(p) == n
  }

  /** The answers, exactly: 3 or 4 if the register is set, 0 or 3 if its old value does not matter. */
  lemma CopyUExact(p: Instr, n: nat)
    requires Good(p) && n < NREG
    ensures Known(p.op) ==>
              && CopyU(p, n) in {0, 1, 3, 4}
              && (CopyU(p, n) in {3, 4} <==> p.to == Reg(n))
              && (CopyU(p, n) in {0, 3} <==> Blind(p, n) && !Cancels(p, n))
    ensures !Known(p.op) ==> CopyU(p, n) == 2
  {
    if Known(p.op) {
      if CopyU(p, n) in {0, 3} {
        forall s, w, env ensures BlindIn(p, n, s, w, env) {
          NotUsed(p, n, s, w, env);
        }
      } else if !Cancels(p, n) {
        var s, w, env := Sees(p, n);
        assert !BlindIn(p, n, s, w, env);
      }
    }
  }

  lemma NotUsed(p: Instr, n: nat, s: Cpu, w: Word, env: Env)
    requires Good(p) && n < NREG && CopyU(p, n) in {0, 3}
    ensures BlindIn(p, n, s, w, env)
  {
    if CopyU(p, n) == 0 {
      Untouched(p, n, s, w, env);
    } else {
      SetNotUsed(p, n, s, w, env);
    }
  }

  // ----- machines that show what is used -----

  /** Which part of a shifted operand comes through. */
  datatype Part = Value | Amount | Neither

  /** A machine that shows one thing: of two operands the first or the second, of a shifted one a
      part, of a store the address or the value, and of a load the address. */
  function Lens(first: bool, part: Part, address: bool): Env {
    Env((_, _, a) => a,
        (_, _, a, v) => map[0 := if address then a else v],
        (_, x) => x,
        (_, a, b) => if first then a else b,
        (_, a, b) => if first then a else b,
        (_, v, n) => match part case Value => v case Amount => Low(n) case Neither => 0,
        (_, _, _, _) => false,
        (_, s) => s)
  }

  /** Everything is zero but register `n`. */
  function Only(n: nat, x: Word): Cpu
    requires n < NREG
  {
    Cpu(seq(NREG, _ => 0)[n := x], Predication.Flags.Flags(false, false, false, false), map[])
  }

  /** The part of an operand that register `n` is in. */
  function PartOf(a: Adr, n: nat): Part {
    if a.Shift? && a.reg != n then Amount else Value
  }

  lemma OperandSees(a: Adr, n: nat, x: Word, first: bool, address: bool)
    requires GoodOperand(a) && n < NREG && Mentions(a, n) && x <= 1
    ensures Operand(a, Only(n, x), Lens(first, PartOf(a, n), address)) == x
  {
  }

  lemma SetOnly(n: nat, x: Word, w: Word)
    requires n < NREG
    ensures Set(Only(n, x), n, w) == Only(n, w)
  {
    assert Only(n, x).r[n := w] == Only(n, w).r;
  }

  /** An instruction that is known and uses a register shows it on some machine. */
  lemma Sees(p: Instr, n: nat) returns (s: Cpu, w: Word, env: Env)
    requires Good(p) && n < NREG && Known(p.op) && CopyU(p, n) in {1, 4} && !Cancels(p, n)
    ensures !BlindIn(p, n, s, w, env)
  {
    if IsMove(p.op) {
      if Mentions(p.to, n) && p.to.Oreg? {
        s, w, env := Only(n, 0), 1, Lens(true, Value, true);
        StoreSees(p, n);
      } else {
        s, w, env := Only(n, 0), 1, Lens(true, PartOf(p.from, n), false);
        MoveSees(p, n);
      }
    } else if Second(p) == n {
      var x := Pivot(p, n);
      s, w, env := Only(n, x), Low((x as int) + 1), Lens(true, if IsShift(p.op) then Value else Neither, false);
      FirstSees(p, n, x, w);
      Shows(p, n, s, w, env);
    } else {
      s, w, env := Only(n, 0), 1, Lens(false, if IsShift(p.op) then Amount else PartOf(p.from, n), false);
      SecondSees(p, n);
      Shows(p, n, s, w, env);
    }
  }

  /** States that differ where the register is not to blame. */
  lemma Apart(to: Adr, n: nat, w: Word, a: Cpu, b: Cpu)
    requires n < NREG && (to.Reg? ==> to.reg < NREG)
    requires (to.Reg? && a.r[to.reg] != b.r[to.reg]) || (!to.Reg? && (a.m != b.m || a.f != b.f))
    ensures b != if to == Reg(n) then a else Set(a, n, w)
  {
  }

  lemma StoreSees(p: Instr, n: nat)
    requires Good(p) && n < NREG && IsMove(p.op) && p.to.Oreg? && Mentions(p.to, n)
    ensures !BlindIn(p, n, Only(n, 0), 1, Lens(true, Value, true))
  {
    var env := Lens(true, Value, true);
    SetOnly(n, 0, 1);
    assert Address(p.to, Only(n, 0)) == p.to.offset && Address(p.to, Only(n, 1)) == Low(1 + p.to.offset);
    assert Exec(p, Only(n, 0), env).m[0] != Exec(p, Only(n, 1), env).m[0];
    Apart(p.to, n, 1, Exec(p, Only(n, 0), env), Exec(p, Only(n, 1), env));
  }

  lemma MoveSees(p: Instr, n: nat)
    requires Good(p) && n < NREG && IsMove(p.op) && Mentions(p.from, n)
    ensures !BlindIn(p, n, Only(n, 0), 1, Lens(true, PartOf(p.from, n), false))
  {
    var env, s, t := Lens(true, PartOf(p.from, n), false), Only(n, 0), Only(n, 1);
    SetOnly(n, 0, 1);
    MovedSees(p, n);
    MoveShows(p, s, true, PartOf(p.from, n));
    MoveShows(p, t, true, PartOf(p.from, n));
    if !p.to.Reg? {
      MapsApart(Moved(p, s, env), Moved(p, t, env));
    }
    Apart(p.to, n, 1, Exec(p, s, env), Exec(p, t, env));
  }

  lemma MapsApart(a: Word, b: Word)
    requires a != b
    ensures var m: Memory := map[0 := a]; m != map[0 := b]
  {
    assert map[0 := a][0] != map[0 := b][0];
  }

  lemma MoveShows(p: Instr, s: Cpu, first: bool, part: Part)
    requires Good(p) && IsMove(p.op)
    ensures var env := Lens(first, part, false);
            if p.to.Reg? then Exec(p, s, env).r[p.to.reg] == Moved(p, s, env)
            else Exec(p, s, env).m == map[0 := Moved(p, s, env)]
  {
  }

  lemma MovedSees(p: Instr, n: nat)
    requires Good(p) && n < NREG && IsMove(p.op) && Mentions(p.from, n)
    ensures var env := Lens(true, PartOf(p.from, n), false);
            Moved(p, Only(n, 0), env) != Moved(p, Only(n, 1), env)
  {
    if p.from.Oreg? {
      assert Address(p.from, Only(n, 0)) == p.from.offset && Address(p.from, Only(n, 1)) == Low(1 + p.from.offset);
    } else {
      OperandSees(p.from, n, 0, true, false);
      OperandSees(p.from, n, 1, true, false);
    }
  }

  /** Where a sum or difference with a constant is zero. */
  function Pivot(p: Instr, n: nat): Word {
    if p.from.Const? && p.op in {Add, Cmn} then Low(0 - p.from.offset)
    else if p.from.Const? && p.op in {Sub, Rsb, Cmp} then p.from.offset
    else 0
  }

  /** A result that is zero in one state and not in the other shows in a register or in the flags. */
  lemma Shows(p: Instr, n: nat, s: Cpu, w: Word, env: Env)
    requires Good(p) && n < NREG && Computes(p.op) && ReadReadWrite(p.op)
    requires Result(p, s, env).0 == 0 != Result(p, Set(s, n, w), env).0
    ensures !BlindIn(p, n, s, w, env)
  {
    ResultShows(p, s, env);
    ResultShows(p, Set(s, n, w), env);
    Apart(p.to, n, w, Exec(p, s, env), Exec(p, Set(s, n, w), env));
  }

  lemma ResultShows(p: Instr, s: Cpu, env: Env)
    requires Good(p) && ReadReadWrite(p.op)
    ensures IsCompare(p.op) ==> (Exec(p, s, env).f.z <==> Result(p, s, env).0 == 0)
    ensures !IsCompare(p.op) ==> p.to.Reg? && Exec(p, s, env).r[p.to.reg] == Result(p, s, env).0
  {
  }

  // ----- results -----

  predicate IsSum(op: Opcode) {
    op in {Add, Cmn, Sub, Cmp, Rsb}
  }

  function Signum(op: Opcode, a: Word, b: Word): int
    requires IsSum(op)
  {
    if op == Add || op == Cmn then (a as int) + (b as int) else if op == Rsb then b - a else a - b
  }

  lemma SumIs(op: Opcode, a: Word, b: Word, f: Flags, c: bool, env: Env)
    requires IsSum(op)
    ensures Alu(op, a, b, f, c, env).0 == Low(Signum(op, a, b))
  {
    Complement(a, b);
    Complement(b, a);
  }

  lemma Complement(a: Word, b: Word)
    ensures Sum(a, Not(b), true).0 == Low(a - b)
  {
    assert (a as int) + Not(b) + 1 == a - b + 0x1_0000_0000;
    LowPeriod(a - b);
  }

  lemma LowPeriod(x: int)
    ensures Low(x + 0x1_0000_0000) == Low(x)
  {
  }

  /** The result of an instruction on a machine that shows one thing. */
  lemma ResultIs(p: Instr, s: Cpu, first: bool, part: Part)
    requires Good(p) && ReadReadWrite(p.op)
    ensures var env := Lens(first, part, false);
            Result(p, s, env).0
            == if IsShift(p.op) then
                 match part case Value => s.r[Second(p)] case Amount => Low(ShiftAmount(p, s)) case Neither => 0
               else if IsSum(p.op) then Low(Signum(p.op, s.r[Second(p)], Operand(p.from, s, env)))
               else if first then s.r[Second(p)]
               else Operand(p.from, s, env)
  {
    var env := Lens(first, part, false);
    if IsSum(p.op) {
      SumIs(p.op, s.r[Second(p)], Operand(p.from, s, env), s.f, ShifterCarry(p.from, s, env), env);
    }
  }

  /** With shifted operands out of the way, an operand is a constant, the register or zero. */
  lemma OperandIs(a: Adr, n: nat, x: Word)
    requires GoodOperand(a) && n < NREG
    ensures Operand(a, Only(n, x), Lens(true, Neither, false))
            == Beside(a, n, x)
  {
  }

  lemma FirstSees(p: Instr, n: nat, x: Word, w: Word)
    requires Good(p) && n < NREG && ReadReadWrite(p.op) && Second(p) == n && !Cancels(p, n)
    requires x == Pivot(p, n) && w == Low((x as int) + 1)
    ensures var env := Lens(true, if IsShift(p.op) then Value else Neither, false);
            Result(p, Only(n, x), env).0 == 0 != Result(p, Set(Only(n, x), n, w), env).0
  {
    SetOnly(n, x, w);
    FirstShows(p, n, x);
    FirstShows(p, n, w);
    if IsSum(p.op) {
      PivotSees(p, n, x, w);
    }
  }

  lemma FirstShows(p: Instr, n: nat, x: Word)
    requires Good(p) && n < NREG && ReadReadWrite(p.op) && Second(p) == n
    ensures Result(p, Only(n, x), Lens(true, if IsShift(p.op) then Value else Neither, false)).0
            == if IsSum(p.op) then Low(Signum(p.op, x, Beside(p.from, n, x))) else x
  {
    ResultIs(p, Only(n, x), true, if IsShift(p.op) then Value else Neither);
    if IsSum(p.op) {
      OperandIs(p.from, n, x);
    }
  }

  /** An operand that is a constant, the register, or zero. */
  function Beside(a: Adr, n: nat, x: Word): Word {
    if a.Const? then a.offset else if a == Reg(n) then x else 0
  }

  lemma PivotSees(p: Instr, n: nat, x: Word, w: Word)
    requires IsSum(p.op) && Second(p) == n && !Cancels(p, n) && x == Pivot(p, n) && w == Low((x as int) + 1)
    ensures Low(Signum(p.op, x, Beside(p.from, n, x))) == 0 != Low(Signum(p.op, w, Beside(p.from, n, w)))
  {
    if p.from.Const? {
      var v := p.from.offset;
      if p.op == Add || p.op == Cmn {
        SumPivot(v, x, w);
      } else {
        DifferencePivot(v, w);
      }
    } else {
      assert x == 0 && w == 1;
    }
  }

  lemma SumPivot(v: Word, x: Word, w: Word)
    requires x == Low(0 - (v as int)) && w == Low((x as int) + 1)
    ensures Low((x as int) + v) == 0 && Low((w as int) + v) == 1
  {
    if v == 0 {
      assert x == 0;
    } else {
      assert x == 0x1_0000_0000 - v;
      if v == 1 {
        assert w == 0;
      }
    }
  }

  lemma DifferencePivot(v: Word, w: Word)
    requires w == Low((v as int) + 1)
    ensures Low(v - v) == 0 && Low(w - v) == 1 && Low(v - w) == 0xffff_ffff
  {
    if v == 0xffff_ffff {
      assert w == 0;
    }
  }

  lemma SecondSees(p: Instr, n: nat)
    requires Good(p) && n < NREG && ReadReadWrite(p.op) && Second(p) != n && Mentions(p.from, n)
    ensures var env := Lens(false, if IsShift(p.op) then Amount else PartOf(p.from, n), false);
            Result(p, Only(n, 0), env).0 == 0 != Result(p, Set(Only(n, 0), n, 1), env).0
  {
    SetOnly(n, 0, 1);
    SecondShows(p, n, 0);
    SecondShows(p, n, 1);
  }

  function Against(op: Opcode, x: Word): (r: Word)
    ensures r == 0 <==> x == 0
  {
    if (op == Sub || op == Cmp) && x != 0 then 0x1_0000_0000 - x else x
  }

  /** The result is the register's value, or its opposite. */
  lemma SecondShows(p: Instr, n: nat, x: Word)
    requires Good(p) && n < NREG && ReadReadWrite(p.op) && Second(p) != n && Mentions(p.from, n) && x <= 1
    ensures var part := if IsShift(p.op) then Amount else PartOf(p.from, n);
            Result(p, Only(n, x), Lens(false, part, false)).0 == Against(p.op, x)
  {
    if IsShift(p.op) {
      ResultIs(p, Only(n, x), false, Amount);
      AmountShows(p, n, x);
    } else {
      ResultIs(p, Only(n, x), false, PartOf(p.from, n));
      OperandSees(p.from, n, x, false, false);
      ZeroElsewhere(p, n, x);
      if IsSum(p.op) {
        BesideZero(p.op, x);
      }
    }
  }

  lemma AmountShows(p: Instr, n: nat, x: Word)
    requires Good(p) && n < NREG && IsShift(p.op) && Mentions(p.from, n) && x <= 1
    ensures Low(ShiftAmount(p, Only(n, x))) == x
  {
  }

  lemma BesideZero(op: Opcode, x: Word)
    requires IsSum(op) && x <= 1
    ensures Low(Signum(op, 0, x)) == Against(op, x)
  {
  }

  lemma ZeroElsewhere(p: Instr, n: nat, x: Word)
    requires Good(p) && n < NREG && ReadReadWrite(p.op) && Second(p) != n
    ensures Second(p) < NREG && Only(n, x).r[Second(p)] == 0
  {
  }

  // ----- which instructions can take a shift -----

  /** On every machine `op'` does to the operands exchanged what `op` does to them. */
  ghost predicate Exchanges(op: Opcode, op': Opcode) {
    && IsAlu(op') && IsCompare(op') == IsCompare(op)
    && forall a: Word, b: Word, f: Flags, c: bool, env: Env :: Lawful(env) ==> SameResult(op, op', a, b, f, c, env)
  }

  ghost predicate SameResult(op: Opcode, op': Opcode, a: Word, b: Word, f: Flags, c: bool, env: Env) {
    Alu(op', b, a, f, c, env) == Alu(op, a, b, f, c, env)
  }

  /** The pass exchanges the operands of all operations that can be exchanged, but for CMN. */
  lemma SwappableExact(op: Opcode)
    requires IsAlu(op) && op != Mvn
    ensures Swappable(op) || op == Cmn <==> exists op' :: Exchanges(op, op')
  {
    if Swappable(op) {
      forall a: Word, b: Word, f: Flags, c: bool, env: Env | Lawful(env)
        ensures SameResult(op, Reversed(op), a, b, f, c, env)
      {
        AluSwaps(op, a, b, f, c, env);
      }
      assert Exchanges(op, Reversed(op));
    } else if op == Cmn {
      assert Exchanges(Cmn, Cmn);
    } else {
      forall op' ensures !Exchanges(op, op') {
        NotExchanged(op, op');
      }
    }
  }

  /** On this machine bits are cleared from nothing. */
  function Clears(): Env {
    Env((_, _, a) => a, (_, m, _, _) => m, (_, x) => x, (_, a, _) => a, Cleared, (_, v, _) => v,
        (_, _, _, _) => false, (_, s) => s)
  }

  function Cleared(op: Opcode, a: Word, b: Word): Word {
    if op == Bic then a else 0
  }

  lemma ClearsIsLawful()
    ensures Lawful(Clears()) && Tells(Clears())
  {
    assert forall op, a, b :: Clears().bits(op, a, b) == Cleared(op, a, b);
  }

  /** What distinguishes it. */
  ghost predicate Tells(env: Env) {
    env.bits(Bic, 5, 1) == 5 && forall op :: env.bits(op, 1, 5) != 5
  }

  lemma NotExchanged(op: Opcode, op': Opcode)
    requires op == Bic || op == Cmp
    ensures !Exchanges(op, op')
  {
    if IsAlu(op') && IsCompare(op') == IsCompare(op) {
      ClearsIsLawful();
      var f := Predication.Flags.Flags(false, false, false, false);
      Differs(op, op', f, Clears());
      assert !SameResult(op, op', 5, 1, f, false, Clears());
    }
  }

  lemma Differs(op: Opcode, op': Opcode, f: Flags, env: Env)
    requires (op == Bic || op == Cmp) && IsAlu(op') && IsCompare(op') == IsCompare(op) && !f.c && Tells(env)
    ensures !SameResult(op, op', 5, 1, f, false, env)
  {
    if op == Bic {
      NotFive(op', f, env);
    } else {
      SumIs(op, 5, 1, f, false, env);
      SumIs(op', 1, 5, f, false, env);
    }
  }

  lemma NotFive(op: Opcode, f: Flags, env: Env)
    requires IsAlu(op) && !IsCompare(op) && !f.c && Tells(env)
    ensures Alu(op, 1, 5, f, false, env).0 != 5
  {
    if IsSum(op) {
      SumIs(op, 1, 5, f, false, env);
    } else if op == Sbc {
      Borrows(1, 5);
    } else if op == Rsc {
      Borrows(5, 1);
    }
  }

  lemma Borrows(a: Word, b: Word)
    ensures Sum(a, Not(b), false).0 == Low(a - b - 1)
  {
    assert (a as int) + Not(b) == a - b - 1 + 0x1_0000_0000;
    LowPeriod(a - b - 1);
  }

  /** When an instruction can take register `n` as a shifted operand. */
  lemma TakesExact(q: Instr, n: nat)
    requires Good(q) && IsAlu(q.op) && n < NREG
    ensures Takes(q, n) <==>
              || (q.from == Reg(n) && (q.op == Mvn || Second(q) != n))
              || (q.from.Reg? && q.from.reg != n && Second(q) == n
                  && q.op !in {Mvn, Cmn} && exists op' :: Exchanges(q.op, op'))
  {
    if q.op != Mvn {
      SwappableExact(q.op);
    }
  }
}

/** If-conversion in the ARM peephole optimiser (src/cmd/5c/peep.c, `predicate`).

A conditional branch over one or two short arms is replaced by straight-line code whose
instructions carry the branch's condition or its opposite.  The result halts with exactly
the machine states the branching code halts with, for every meaning of the instructions
that leaves the flags alone where `modifiescpsr` says so; floating-point compares, which it
forgets, must not be in an arm.
*/
module Predication {

  import opened Common
  import opened Opcodes

  // ---------------------------------------------------------------- conditions

  datatype Flags = Flags(n: bool, z: bool, c: bool, v: bool)

  /** Section A3.2 of the ARM Architecture Reference Manual. */
  predicate Passes(cond: int, f: Flags) {
    if cond == 0 then f.z
    else if cond == 1 then !f.z
    else if cond == 2 then f.c
    else if cond == 3 then !f.c
    else if cond == 4 then f.n
    else if cond == 5 then !f.n
    else if cond == 6 then f.v
    else if cond == 7 then !f.v
    else if cond == 8 then f.c && !f.z
    else if cond == 9 then !f.c || f.z
    else if cond == 10 then f.n == f.v
    else if cond == 11 then f.n != f.v
    else if cond == 12 then !f.z && f.n == f.v
    else if cond == 13 then f.z || f.n != f.v
    else cond == AL
  }

  predicate IsBranch(op: int) {
    ABEQ <= op <= ABLE
  }

  /** When a conditional branch is taken, by the meaning of its mnemonic. */
  predicate Taken(op: int, f: Flags)
    requires IsBranch(op)
  {
    if op == ABEQ then f.z else if op == ABNE then !f.z
    else if op == ABCS || op == ABHS then f.c else if op == ABCC || op == ABLO then !f.c
    else if op == ABMI then f.n else if op == ABPL then !f.n
    else if op == ABVS then f.v else if op == ABVC then !f.v
    else if op == ABHI then f.c && !f.z else if op == ABLS then !(f.c && !f.z)
    else if op == ABGE then f.n == f.v else if op == ABLT then f.n != f.v
    else if op == ABGT then !f.z && f.n == f.v else !(!f.z && f.n == f.v)
  }

  datatype PredInfo = PredInfo(opcode: int, notopcode: int, scond: int, notscond: int)

  /** The table predinfo; its conditions and opcodes say what they must. */
  function Info(op: int): (i: PredInfo)
    requires IsBranch(op)
    ensures IsBranch(i.opcode) && IsBranch(i.notopcode)
    ensures forall f: Flags ::
              && Taken(i.opcode, f) == Taken(op, f) && Taken(i.notopcode, f) == !Taken(op, f)
              && Passes(i.scond, f) == Taken(op, f) && Passes(i.notscond, f) == !Taken(op, f)
  {
    if op == ABEQ then PredInfo(ABEQ, ABNE, 0x0, 0x1)
    else if op == ABNE then PredInfo(ABNE, ABEQ, 0x1, 0x0)
    else if op == ABCS then PredInfo(ABCS, ABCC, 0x2, 0x3)
    else if op == ABHS then PredInfo(ABHS, ABLO, 0x2, 0x3)
    else if op == ABCC then PredInfo(ABCC, ABCS, 0x3, 0x2)
    else if op == ABLO then PredInfo(ABLO, ABHS, 0x3, 0x2)
    else if op == ABMI then PredInfo(ABMI, ABPL, 0x4, 0x5)
    else if op == ABPL then PredInfo(ABPL, ABMI, 0x5, 0x4)
    else if op == ABVS then PredInfo(ABVS, ABVC, 0x6, 0x7)
    else if op == ABVC then PredInfo(ABVC, ABVS, 0x7, 0x6)
    else if op == ABHI then PredInfo(ABHI, ABLS, 0x8, 0x9)
    else if op == ABLS then PredInfo(ABLS, ABHI, 0x9, 0x8)
    else if op == ABGE then PredInfo(ABGE, ABLT, 0xA, 0xB)
    else if op == ABLT then PredInfo(ABLT, ABGE, 0xB, 0xA)
    else if op == ABGT then PredInfo(ABGT, ABLE, 0xC, 0xD)
    else PredInfo(ABLE, ABGT, 0xD, 0xC)
  }

  predicate Predicable(op: int) {
    !IsBranch(op) && op !in {ANOP, AXXX, ADATA, AGLOBL, AGOK, AHISTORY, ANAME, ASIGNAME, ATEXT, AWORD, ADYNT, AINIT, ABCASE, ACASE}
  }

  // ---------------------------------------------------------------- programs and their runs

  /** An instruction: opcode, condition, S bit, branch target, and the rest of its operands. */
  datatype Prog = Prog(op: int, cond: int, sbit: bool, target: nat, body: nat)

  const NOP := Prog(ANOP, AL, false, 0, 0)

  predicate ModifiesCpsr(p: Prog) {
    p.sbit || p.op in {ATST, ATEQ, ACMN, ACMP, AMULU, ADIVU, AMUL, ADIV, AMOD, AMODU, ABL}
  }

  /** Floating-point compares set the flags too, and `modifiescpsr` does not know it. */
  predicate FloatCompare(op: int) {
    op == ACMPF || op == ACMPD
  }

  predicate Terminal(op: int) {
    op == ARET || op == ARFE
  }

  /** The flags, and everything else an instruction can read or write. */
  datatype Machine = Machine(flags: Flags, cells: map<int, int>)

  /** What an executed instruction does, from its opcode, S bit and operands, and which entry
      of a table of cases is chosen. */
  datatype Meaning = Meaning(run: (int, bool, nat, Machine) -> Machine, pick: (nat, Machine) -> nat)

  ghost predicate FlagsKept(sem: Meaning) {
    forall p: Prog, m: Machine :: !ModifiesCpsr(p) && !FloatCompare(p.op) ==>
                                    sem.run(p.op, p.sbit, p.body, m).flags == m.flags
  }

  datatype Conf = At(pc: nat, m: Machine) | Halted(m: Machine)

  function Step(code: seq<Prog>, c: Conf, sem: Meaning): Conf {
    if c.Halted? || c.pc >= |code| then c
    else
      var p, m := code[c.pc], c.m;
      if IsBranch(p.op) then At(if Taken(p.op, m.flags) then p.target else c.pc + 1, m)
      else if p.op == ABCASE then At(p.target, m)
      else if !Passes(p.cond, m.flags) || p.op == ANOP then At(c.pc + 1, m)
      else if p.op == AB then At(p.target, m)
      else if p.op == ACASE then At(Entry(code, sem.pick(p.body, m), c.pc + 1), m)
      else if Terminal(p.op) then Halted(sem.run(p.op, p.sbit, p.body, m))
      else At(c.pc + 1, sem.run(p.op, p.sbit, p.body, m))
  }

  /** Where entry `j` of a table of cases leads; `next` if there is none. */
  function Entry(code: seq<Prog>, j: nat, next: nat): nat {
    if j < |code| && code[j].op == ABCASE then code[j].target else next
  }

  function After(code: seq<Prog>, c: Conf, sem: Meaning, k: nat): Conf
    decreases k
  {
    if k == 0 then c else After(code, Step(code, c, sem), sem, k - 1)
  }

  /** A run from `c` halts in machine state `m`. */
  ghost predicate Halts(code: seq<Prog>, c: Conf, sem: Meaning, m: Machine) {
    exists k: nat :: After(code, c, sem, k) == Halted(m)
  }

  lemma {:induction false} AfterAdd(code: seq<Prog>, c: Conf, sem: Meaning, a: nat, b: nat)
    ensures After(code, c, sem, a + b) == After(code, After(code, c, sem, a), sem, b)
    decreases a
  {
    if a > 0 {
      AfterAdd(code, Step(code, c, sem), sem, a - 1, b);
    }
  }

  lemma {:induction false} HaltedStays(code: seq<Prog>, m: Machine, sem: Meaning, k: nat)
    ensures After(code, Halted(m), sem, k) == Halted(m)
  {
    if k > 0 {
      HaltedStays(code, m, sem, k - 1);
    }
  }

  // ---------------------------------------------------------------- replacing a region

  /** Positions outside the region that starts with the branch `r` and ends before `e`. */
  predicate Outside(c: Conf, r: nat, e: nat) {
    c.Halted? || c.pc <= r || c.pc >= e
  }

  /** Running from `r` to the first configuration outside the region, in `k` steps. */
  ghost predicate Crosses(code: seq<Prog>, r: nat, e: nat, m: Machine, sem: Meaning, k: nat, c: Conf) {
    k > 0 && After(code, At(r, m), sem, k) == c && Outside(c, r, e)
  }

  /** Both programs agree outside the region, cannot be entered past `r`, and cross the
      region with the same effect. */
  ghost predicate Replaces(a: seq<Prog>, b: seq<Prog>, r: nat, e: nat, sem: Meaning) {
    && |a| == |b|
    && (forall k :: 0 <= k < |a| && (k < r || k >= e) ==> a[k] == b[k])
    && (forall k :: r <= k < e && k < |a| ==> a[k].op != ABCASE && b[k].op != ABCASE)
    && (forall k: nat, m: Machine :: k < |a| && (k < r || k >= e) ==> StaysOut(a, k, m, r, e, sem))
    && forall m: Machine :: CrossAlike(a, b, r, e, m, sem)
  }

  predicate StaysOut(code: seq<Prog>, k: nat, m: Machine, r: nat, e: nat, sem: Meaning) {
    Outside(Step(code, At(k, m), sem), r, e)
  }

  ghost predicate CrossAlike(a: seq<Prog>, b: seq<Prog>, r: nat, e: nat, m: Machine, sem: Meaning) {
    exists ka: nat, kb: nat, c: Conf :: Crosses(a, r, e, m, sem, ka, c) && Crosses(b, r, e, m, sem, kb, c)
  }

  lemma HaltsLater(code: seq<Prog>, c: Conf, sem: Meaning, k: nat, m: Machine)
    requires Halts(code, After(code, c, sem, k), sem, m)
    ensures Halts(code, c, sem, m)
  {
    var k': nat :| After(code, After(code, c, sem, k), sem, k') == Halted(m);
    AfterAdd(code, c, sem, k, k');
  }

  lemma HaltsNow(code: seq<Prog>, m: Machine, sem: Meaning)
    ensures Halts(code, Halted(m), sem, m)
  {
    assert After(code, Halted(m), sem, 0) == Halted(m);
  }

  lemma {:induction false} Simulates(a: seq<Prog>, b: seq<Prog>, r: nat, e: nat, sem: Meaning, c: Conf, k: nat, m: Machine)
    requires Replaces(a, b, r, e, sem) && Outside(c, r, e)
    requires After(a, c, sem, k) == Halted(m)
    ensures Halts(b, c, sem, m)
    decreases k
  {
    if c.Halted? {
      HaltedStays(a, c.m, sem, k);
      HaltsNow(b, m, sem);
    } else if c.pc != r {
      var d := Step(a, c, sem);
      SameStep(a, b, r, e, sem, c);
      assert k > 0 && After(a, d, sem, k - 1) == Halted(m);
      Simulates(a, b, r, e, sem, d, k - 1, m);
      assert After(b, c, sem, 1) == After(b, d, sem, 0) == d;
      HaltsLater(b, c, sem, 1, m);
    } else {
      assert CrossAlike(a, b, r, e, c.m, sem);
      var ka: nat, kb: nat, d: Conf :| Crosses(a, r, e, c.m, sem, ka, d) && Crosses(b, r, e, c.m, sem, kb, d);
      if ka <= k {
        AfterAdd(a, c, sem, ka, k - ka);
        Simulates(a, b, r, e, sem, d, k - ka, m);
      } else {
        AfterAdd(a, c, sem, k, ka - k);
        HaltedStays(a, m, sem, ka - k);
        HaltsNow(b, m, sem);
      }
      HaltsLater(b, c, sem, kb, m);
    }
  }

  lemma SameStep(a: seq<Prog>, b: seq<Prog>, r: nat, e: nat, sem: Meaning, c: Conf)
    requires Replaces(a, b, r, e, sem) && Outside(c, r, e) && c.At? && c.pc != r
    ensures Step(a, c, sem) == Step(b, c, sem) && Outside(Step(a, c, sem), r, e)
  {
    if c.pc < |a| {
      assert StaysOut(a, c.pc, c.m, r, e, sem);
    }
  }

  // ---------------------------------------------------------------- arms

  /** An unconditional instruction that goes on to the next one. */
  predicate Body(p: Prog) {
    p.cond == AL && (p.op == ANOP || (Predicable(p.op) && p.op != AB && !Terminal(p.op) && !FloatCompare(p.op)))
  }

  predicate Bodies(ps: seq<Prog>) {
    forall k :: 0 <= k < |ps| ==> Body(ps[k])
  }

  /** Nothing but the last instruction modifies the flags. */
  predicate QuietButLast(ps: seq<Prog>) {
    forall k :: 0 <= k < |ps| - 1 ==> !ModifiesCpsr(ps[k])
  }

  predicate Quiet(ps: seq<Prog>) {
    forall k :: 0 <= k < |ps| ==> !ModifiesCpsr(ps[k])
  }

  function Under(p: Prog, cond: int): Prog {
    if Predicable(p.op) then p.(cond := cond) else p
  }

  function AllUnder(ps: seq<Prog>, cond: int): (r: seq<Prog>)
    ensures |r| == |ps| && forall k :: 0 <= k < |ps| ==> r[k] == Under(ps[k], cond)
  {
    seq(|ps|, k requires 0 <= k < |ps| => Under(ps[k], cond))
  }

  function RunOne(p: Prog, m: Machine, sem: Meaning): Machine {
    if p.op == ANOP then m else sem.run(p.op, p.sbit, p.body, m)
  }

  function RunAll(ps: seq<Prog>, m: Machine, sem: Meaning): Machine {
    if ps == [] then m else RunAll(ps[1..], RunOne(ps[0], m, sem), sem)
  }

  /** `ps` stands in `code` from position `a` on. */
  predicate Holds(code: seq<Prog>, a: nat, ps: seq<Prog>) {
    a + |ps| <= |code| && code[a..a + |ps|] == ps
  }

  lemma HoldsTail(code: seq<Prog>, a: nat, ps: seq<Prog>)
    requires Holds(code, a, ps) && ps != []
    ensures a < |code| && code[a] == ps[0] && Holds(code, a + 1, ps[1..])
  {
    assert code[a] == code[a..a + |ps|][0];
    assert code[a + 1..a + |ps|] == code[a..a + |ps|][1..];
  }

  lemma BodyStep(code: seq<Prog>, a: nat, p: Prog, cond: int, m: Machine, sem: Meaning)
    requires a < |code| && Body(p) && code[a] == Under(p, cond)
    ensures Step(code, At(a, m), sem) == At(a + 1, if Passes(cond, m.flags) then RunOne(p, m, sem) else m)
  {
  }

  /** An arm under a condition that holds runs as it would unconditionally. */
  lemma {:induction false} ArmRuns(code: seq<Prog>, a: nat, ps: seq<Prog>, cond: int, m: Machine, sem: Meaning)
    requires Bodies(ps) && Holds(code, a, AllUnder(ps, cond)) && Passes(cond, m.flags)
    requires cond == AL || (QuietButLast(ps) && FlagsKept(sem))
    ensures After(code, At(a, m), sem, |ps|) == At(a + |ps|, RunAll(ps, m, sem))
    decreases |ps|
  {
    if ps != [] {
      HoldsTail(code, a, AllUnder(ps, cond));
      BodyStep(code, a, ps[0], cond, m, sem);
      assert AllUnder(ps, cond)[1..] == AllUnder(ps[1..], cond);
      var m' := RunOne(ps[0], m, sem);
      if |ps| > 1 {
        assert cond != AL ==> !ModifiesCpsr(ps[0]) && m'.flags == m.flags;
        ArmRuns(code, a + 1, ps[1..], cond, m', sem);
      }
    }
  }

  /** An arm under a condition that fails does nothing. */
  lemma {:induction false} ArmSkips(code: seq<Prog>, a: nat, ps: seq<Prog>, cond: int, m: Machine, sem: Meaning)
    requires Bodies(ps) && Holds(code, a, AllUnder(ps, cond)) && !Passes(cond, m.flags)
    ensures After(code, At(a, m), sem, |ps|) == At(a + |ps|, m)
    decreases |ps|
  {
    if ps != [] {
      HoldsTail(code, a, AllUnder(ps, cond));
      BodyStep(code, a, ps[0], cond, m, sem);
      assert AllUnder(ps, cond)[1..] == AllUnder(ps[1..], cond);
      ArmSkips(code, a + 1, ps[1..], cond, m, sem);
    }
  }

  lemma {:induction false} QuietKeepsFlags(ps: seq<Prog>, m: Machine, sem: Meaning)
    requires Bodies(ps) && Quiet(ps) && FlagsKept(sem)
    ensures RunAll(ps, m, sem).flags == m.flags
    decreases |ps|
  {
    if ps != [] {
      assert RunOne(ps[0], m, sem).flags == m.flags;
      QuietKeepsFlags(ps[1..], RunOne(ps[0], m, sem), sem);
    }
  }

  lemma AlwaysUnder(ps: seq<Prog>)
    requires Bodies(ps)
    ensures AllUnder(ps, AL) == ps
  {
  }

  // ---------------------------------------------------------------- the three conversions

  /** One arm, skipped by the branch: run it under the opposite condition. */
  lemma OneArm(a: seq<Prog>, b: seq<Prog>, r: nat, ps: seq<Prog>, m: Machine, sem: Meaning)
    requires FlagsKept(sem) && Bodies(ps) && QuietButLast(ps) && ps != []
    requires r < |a| && r < |b| && IsBranch(a[r].op) && b[r] == NOP
    requires Holds(a, r + 1, ps) && Holds(b, r + 1, AllUnder(ps, Info(a[r].op).notscond))
    requires a[r].target == r + 1 + |ps|
    ensures CrossAlike(a, b, r, r + 1 + |ps|, m, sem)
  {
    var n, e := |ps|, r + 1 + |ps|;
    var cond := Info(a[r].op).notscond;
    if Taken(a[r].op, m.flags) {
      ArmSkips(b, r + 1, ps, cond, m, sem);
      FromBranch(b, r, m, sem, n, At(e, m));
      assert After(a, At(r, m), sem, 1) == At(e, m);
      assert Crosses(a, r, e, m, sem, 1, At(e, m)) && Crosses(b, r, e, m, sem, 1 + n, At(e, m));
    } else {
      var c := At(e, RunAll(ps, m, sem));
      IntoArm(b, r, ps, cond, m, sem);
      AlwaysUnder(ps);
      IntoArm(a, r, ps, AL, m, sem);
      assert Crosses(a, r, e, m, sem, 1 + n, c) && Crosses(b, r, e, m, sem, 1 + n, c);
    }
  }

  lemma FromBranch(code: seq<Prog>, r: nat, m: Machine, sem: Meaning, n: nat, c: Conf)
    requires Step(code, At(r, m), sem) == At(r + 1, m) && After(code, At(r + 1, m), sem, n) == c
    ensures After(code, At(r, m), sem, 1 + n) == c
  {
  }

  /** Over the branch and through the arm, whose condition holds. */
  lemma IntoArm(code: seq<Prog>, r: nat, ps: seq<Prog>, cond: int, m: Machine, sem: Meaning)
    requires Bodies(ps) && Holds(code, r + 1, AllUnder(ps, cond)) && Passes(cond, m.flags)
    requires cond == AL || (QuietButLast(ps) && FlagsKept(sem))
    requires Step(code, At(r, m), sem) == At(r + 1, m)
    ensures After(code, At(r, m), sem, 1 + |ps|) == At(r + 1 + |ps|, RunAll(ps, m, sem))
  {
    ArmRuns(code, r + 1, ps, cond, m, sem);
    FromBranch(code, r, m, sem, |ps|, At(r + 1 + |ps|, RunAll(ps, m, sem)));
  }

  /** From `r` into the first arm, through it to `l`, over `l`, and on for `n'` steps. */
  lemma Thread(code: seq<Prog>, r: nat, l: nat, m: Machine, m': Machine, sem: Meaning, n: nat, n': nat)
    requires Step(code, At(r, m), sem) == At(r + 1, m)
    requires After(code, At(r + 1, m), sem, n) == At(l, m')
    ensures After(code, At(r, m), sem, 2 + n + n') == After(code, Step(code, At(l, m'), sem), sem, n')
  {
    AfterAdd(code, At(r + 1, m), sem, n, 1 + n');
    assert After(code, At(r, m), sem, 2 + n + n') == After(code, At(r + 1, m), sem, 1 + n + n');
    assert After(code, At(l, m'), sem, 1 + n') == After(code, Step(code, At(l, m'), sem), sem, n');
  }

  /** Over `r`, through the first arm, over `l` and through the second. */
  lemma FourLegs(code: seq<Prog>, r: nat, l: nat, m: Machine, m1: Machine, m2: Machine, sem: Meaning, n: nat, n': nat)
    requires r < |code| && code[r] == NOP && After(code, At(r + 1, m), sem, n) == At(l, m1)
    requires l < |code| && code[l] == NOP && After(code, At(l + 1, m1), sem, n') == At(l + 1 + n', m2)
    ensures After(code, At(r, m), sem, 2 + n + n') == At(l + 1 + n', m2)
  {
    NopStep(code, r, m, sem);
    NopStep(code, l, m1, sem);
    Thread(code, r, l, m, m1, sem, n, n');
  }

  lemma RunsThrough(code: seq<Prog>, r: nat, ps: seq<Prog>, cond: int, m: Machine, sem: Meaning, n': nat)
    requires Step(code, At(r, m), sem) == At(r + 1, m)
    requires Bodies(ps) && Holds(code, r + 1, AllUnder(ps, cond)) && Passes(cond, m.flags)
    requires Quiet(ps) && FlagsKept(sem)
    ensures var m' := RunAll(ps, m, sem);
            && m'.flags == m.flags
            && After(code, At(r, m), sem, 2 + |ps| + n') == After(code, Step(code, At(r + 1 + |ps|, m'), sem), sem, n')
  {
    QuietKeepsFlags(ps, m, sem);
    ArmRuns(code, r + 1, ps, cond, m, sem);
    Thread(code, r, r + 1 + |ps|, m, RunAll(ps, m, sem), sem, |ps|, n');
  }

  lemma SkipsThrough(code: seq<Prog>, r: nat, ps: seq<Prog>, cond: int, m: Machine, sem: Meaning, n': nat)
    requires Step(code, At(r, m), sem) == At(r + 1, m)
    requires Bodies(ps) && Holds(code, r + 1, AllUnder(ps, cond)) && !Passes(cond, m.flags)
    ensures After(code, At(r, m), sem, 2 + |ps| + n') == After(code, Step(code, At(r + 1 + |ps|, m), sem), sem, n')
  {
    ArmSkips(code, r + 1, ps, cond, m, sem);
    Thread(code, r, r + 1 + |ps|, m, m, sem, |ps|, n');
  }

  /** Two arms, the first ending in a jump over the second, before and after conversion. */
  ghost predicate TwoArmed(a: seq<Prog>, b: seq<Prog>, r: nat, ps: seq<Prog>, qs: seq<Prog>) {
    var l := r + 1 + |ps|;
    && Bodies(ps) && Quiet(ps) && Bodies(qs) && QuietButLast(qs)
    && l < |a| && IsBranch(a[r].op) && Holds(a, r + 1, ps)
    && a[l].op == AB && a[l].cond == AL && Holds(a, l + 1, qs)
    && a[r].target == l + 1 && a[l].target == l + 1 + |qs|
    && BothUnder(b, r, a[r].op, ps, qs)
  }

  /** Both arms under their conditions, with NOPs where the branch and the jump were. */
  ghost predicate BothUnder(b: seq<Prog>, r: nat, op: int, ps: seq<Prog>, qs: seq<Prog>)
    requires IsBranch(op) && Bodies(ps) && Bodies(qs)
  {
    var l := r + 1 + |ps|;
    && l < |b| && b[r] == NOP && Holds(b, r + 1, AllUnder(ps, Info(op).notscond))
    && b[l] == NOP && Holds(b, l + 1, AllUnder(qs, Info(op).scond))
  }

  lemma NopStep(code: seq<Prog>, k: nat, m: Machine, sem: Meaning)
    requires k < |code| && code[k] == NOP
    ensures Step(code, At(k, m), sem) == At(k + 1, m)
  {
  }

  lemma JumpStep(code: seq<Prog>, k: nat, m: Machine, sem: Meaning)
    requires k < |code| && code[k].op == AB && code[k].cond == AL
    ensures Step(code, At(k, m), sem) == At(code[k].target, m)
  {
  }

  lemma BranchStep(code: seq<Prog>, k: nat, m: Machine, sem: Meaning)
    requires k < |code| && IsBranch(code[k].op)
    ensures Step(code, At(k, m), sem) == At(if Taken(code[k].op, m.flags) then code[k].target else k + 1, m)
  {
  }

  lemma SecondArmBefore(a: seq<Prog>, b: seq<Prog>, r: nat, ps: seq<Prog>, qs: seq<Prog>, m: Machine, sem: Meaning)
    requires FlagsKept(sem) && TwoArmed(a, b, r, ps, qs) && Taken(a[r].op, m.flags)
    ensures After(a, At(r, m), sem, 1 + |qs|) == At(r + 2 + |ps| + |qs|, RunAll(qs, m, sem))
  {
    BranchStep(a, r, m, sem);
    JumpThenArm(a, r, r + 2 + |ps|, qs, m, sem);
  }

  lemma JumpThenArm(a: seq<Prog>, r: nat, i: nat, qs: seq<Prog>, m: Machine, sem: Meaning)
    requires Bodies(qs) && Holds(a, i, qs) && Step(a, At(r, m), sem) == At(i, m)
    ensures After(a, At(r, m), sem, 1 + |qs|) == At(i + |qs|, RunAll(qs, m, sem))
  {
    AlwaysUnder(qs);
    ArmRuns(a, i, qs, AL, m, sem);
    AfterAdd(a, At(r, m), sem, 1, |qs|);
  }

  lemma SecondArmAfter(op: int, b: seq<Prog>, r: nat, ps: seq<Prog>, qs: seq<Prog>, m: Machine, sem: Meaning)
    requires FlagsKept(sem) && Bodies(ps) && Bodies(qs) && QuietButLast(qs)
    requires IsBranch(op) && BothUnder(b, r, op, ps, qs) && Taken(op, m.flags)
    ensures After(b, At(r, m), sem, 2 + |ps| + |qs|) == At(r + 2 + |ps| + |qs|, RunAll(qs, m, sem))
  {
    var l, info := r + 1 + |ps|, Info(op);
    ArmRuns(b, l + 1, qs, info.scond, m, sem);
    SkipThen(b, r, l, ps, info.notscond, m, RunAll(qs, m, sem), sem, |qs|);
  }

  lemma SkipThen(b: seq<Prog>, r: nat, l: nat, ps: seq<Prog>, cond: int, m: Machine, m': Machine, sem: Meaning, n: nat)
    requires l == r + 1 + |ps| < |b| && b[r] == NOP && b[l] == NOP && After(b, At(l + 1, m), sem, n) == At(l + 1 + n, m')
    requires Bodies(ps) && Holds(b, r + 1, AllUnder(ps, cond)) && !Passes(cond, m.flags)
    ensures After(b, At(r, m), sem, 2 + |ps| + n) == At(l + 1 + n, m')
  {
    ArmSkips(b, r + 1, ps, cond, m, sem);
    FourLegs(b, r, l, m, m, m', sem, |ps|, n);
  }

  lemma FirstArmBefore(a: seq<Prog>, b: seq<Prog>, r: nat, ps: seq<Prog>, qs: seq<Prog>, m: Machine, sem: Meaning)
    requires FlagsKept(sem) && TwoArmed(a, b, r, ps, qs) && !Taken(a[r].op, m.flags)
    ensures After(a, At(r, m), sem, 2 + |ps|) == At(r + 2 + |ps| + |qs|, RunAll(ps, m, sem))
  {
    BranchStep(a, r, m, sem);
    AlwaysUnder(ps);
    RunsThrough(a, r, ps, AL, m, sem, 0);
    JumpStep(a, r + 1 + |ps|, RunAll(ps, m, sem), sem);
  }

  lemma FirstArmAfter(op: int, b: seq<Prog>, r: nat, ps: seq<Prog>, qs: seq<Prog>, m: Machine, sem: Meaning)
    requires FlagsKept(sem) && Bodies(ps) && Quiet(ps) && Bodies(qs)
    requires IsBranch(op) && BothUnder(b, r, op, ps, qs) && !Taken(op, m.flags)
    ensures After(b, At(r, m), sem, 2 + |ps| + |qs|) == At(r + 2 + |ps| + |qs|, RunAll(ps, m, sem))
  {
    var l, m', info := r + 1 + |ps|, RunAll(ps, m, sem), Info(op);
    QuietKeepsFlags(ps, m, sem);
    ArmRuns(b, r + 1, ps, info.notscond, m, sem);
    ThenSkip(b, r, l, qs, info.scond, m, m', sem, |ps|);
  }

  lemma ThenSkip(b: seq<Prog>, r: nat, l: nat, qs: seq<Prog>, cond: int, m: Machine, m': Machine, sem: Meaning, n: nat)
    requires r < |b| && l < |b| && b[r] == NOP && b[l] == NOP && After(b, At(r + 1, m), sem, n) == At(l, m')
    requires Bodies(qs) && Holds(b, l + 1, AllUnder(qs, cond)) && !Passes(cond, m'.flags)
    ensures After(b, At(r, m), sem, 2 + n + |qs|) == At(l + 1 + |qs|, m')
  {
    ArmSkips(b, l + 1, qs, cond, m', sem);
    FourLegs(b, r, l, m, m', m', sem, n, |qs|);
  }

  lemma TwoArms(a: seq<Prog>, b: seq<Prog>, r: nat, ps: seq<Prog>, qs: seq<Prog>, m: Machine, sem: Meaning)
    requires FlagsKept(sem) && TwoArmed(a, b, r, ps, qs)
    ensures CrossAlike(a, b, r, r + 2 + |ps| + |qs|, m, sem)
  {
    var n, n', e := |ps|, |qs|, r + 2 + |ps| + |qs|;
    if Taken(a[r].op, m.flags) {
      SecondArmBefore(a, b, r, ps, qs, m, sem);
      SecondArmAfter(a[r].op, b, r, ps, qs, m, sem);
      var c := At(e, RunAll(qs, m, sem));
      assert Crosses(a, r, e, m, sem, 1 + n', c) && Crosses(b, r, e, m, sem, 2 + n + n', c);
    } else {
      FirstArmBefore(a, b, r, ps, qs, m, sem);
      FirstArmAfter(a[r].op, b, r, ps, qs, m, sem);
      var c := At(e, RunAll(ps, m, sem));
      assert Crosses(a, r, e, m, sem, 2 + n, c) && Crosses(b, r, e, m, sem, 2 + n + n', c);
    }
  }

  /** The closing jump or return of an arm, kept under the opposite condition. */
  function Kept(p: Prog, op: int): Prog
    requires IsBranch(op)
  {
    if p.op == AB then p.(op := Info(op).notopcode) else p.(cond := Info(op).notscond)
  }

  /** One arm that does not come back, before and after its exit became conditional. */
  ghost predicate Leaving(a: seq<Prog>, b: seq<Prog>, r: nat, ps: seq<Prog>) {
    var l := r + 1 + |ps|;
    && Bodies(ps) && Quiet(ps)
    && l < |a| && l < |b| && IsBranch(a[r].op) && b[r] == NOP
    && Holds(a, r + 1, ps) && Holds(b, r + 1, AllUnder(ps, Info(a[r].op).notscond))
    && (a[l].op == AB || Terminal(a[l].op)) && a[l].cond == AL && b[l] == Kept(a[l], a[r].op)
    && a[r].target == l + 1 && (a[l].op == AB ==> a[l].target <= r || a[l].target > l)
  }

  lemma KeptStep(a: seq<Prog>, b: seq<Prog>, l: nat, op: int, m: Machine, sem: Meaning)
    requires l < |a| && l < |b| && IsBranch(op)
    requires (a[l].op == AB || Terminal(a[l].op)) && a[l].cond == AL && b[l] == Kept(a[l], op)
    ensures Step(b, At(l, m), sem) == if Taken(op, m.flags) then At(l + 1, m) else Step(a, At(l, m), sem)
  {
  }

  lemma LeavingArm(a: seq<Prog>, b: seq<Prog>, r: nat, ps: seq<Prog>, m: Machine, sem: Meaning)
    requires FlagsKept(sem) && Leaving(a, b, r, ps)
    ensures CrossAlike(a, b, r, r + 2 + |ps|, m, sem)
  {
    var n, l, e := |ps|, r + 1 + |ps|, r + 2 + |ps|;
    if Taken(a[r].op, m.flags) {
      KeptStep(a, b, l, a[r].op, m, sem);
      LeavingTaken(a, b, r, ps, m, sem);
      assert Crosses(a, r, e, m, sem, 1, At(e, m)) && Crosses(b, r, e, m, sem, 2 + n, At(e, m));
    } else {
      var m' := RunAll(ps, m, sem);
      QuietKeepsFlags(ps, m, sem);
      KeptStep(a, b, l, a[r].op, m', sem);
      LeavingNotTaken(a, b, r, ps, m, sem);
      var c := Step(a, At(l, m'), sem);
      assert Outside(c, r, e);
      assert Crosses(a, r, e, m, sem, 2 + n, c) && Crosses(b, r, e, m, sem, 2 + n, c);
    }
  }

  lemma LeavingTaken(a: seq<Prog>, b: seq<Prog>, r: nat, ps: seq<Prog>, m: Machine, sem: Meaning)
    requires FlagsKept(sem) && Leaving(a, b, r, ps) && Taken(a[r].op, m.flags)
    ensures After(a, At(r, m), sem, 1) == At(r + 2 + |ps|, m)
    ensures After(b, At(r, m), sem, 2 + |ps|) == Step(b, At(r + 1 + |ps|, m), sem)
  {
    SkipsThrough(b, r, ps, Info(a[r].op).notscond, m, sem, 0);
    assert After(a, At(r, m), sem, 1) == After(a, Step(a, At(r, m), sem), sem, 0);
  }

  lemma LeavingNotTaken(a: seq<Prog>, b: seq<Prog>, r: nat, ps: seq<Prog>, m: Machine, sem: Meaning)
    requires FlagsKept(sem) && Leaving(a, b, r, ps) && !Taken(a[r].op, m.flags)
    ensures var m' := RunAll(ps, m, sem);
            var l := r + 1 + |ps|;
            && After(a, At(r, m), sem, 2 + |ps|) == Step(a, At(l, m'), sem)
            && After(b, At(r, m), sem, 2 + |ps|) == Step(b, At(l, m'), sem)
  {
    AlwaysUnder(ps);
    RunsThrough(a, r, ps, AL, m, sem, 0);
    RunsThrough(b, r, ps, Info(a[r].op).notscond, m, sem, 0);
  }

  /** Everything but the region itself: equal code, and no way past its start. */
  ghost predicate Framed(a: seq<Prog>, b: seq<Prog>, r: nat, e: nat, sem: Meaning) {
    && |a| == |b| && (forall k :: 0 <= k < |a| && (k < r || k >= e) ==> a[k] == b[k])
    && (forall k: nat, m: Machine :: k < |a| && (k < r || k >= e) ==> StaysOut(a, k, m, r, e, sem))
  }

  /** An arm holds no entry of a table and no branch, under a condition or not. */
  lemma ArmOpcodes(a: seq<Prog>, i: nat, ps: seq<Prog>, cond: int)
    requires Bodies(ps) && Holds(a, i, AllUnder(ps, cond))
    ensures forall k: nat :: i <= k < i + |ps| ==> k < |a| && a[k].op != ABCASE && !IsBranch(a[k].op)
  {
    forall k: nat | i <= k < i + |ps| ensures k < |a| && a[k].op != ABCASE && !IsBranch(a[k].op) {
      assert Body(ps[k - i]);
      assert a[k] == a[i..i + |ps|][k - i];
    }
  }

  lemma OneArmedReplaces(a: seq<Prog>, b: seq<Prog>, r: nat, ps: seq<Prog>, e: nat, sem: Meaning)
    requires FlagsKept(sem) && Bodies(ps) && QuietButLast(ps) && ps != [] && e == r + 1 + |ps| && Framed(a, b, r, e, sem)
    requires r < |a| && IsBranch(a[r].op) && b[r] == NOP && a[r].target == e
    requires Holds(a, r + 1, ps) && Holds(b, r + 1, AllUnder(ps, Info(a[r].op).notscond))
    ensures Replaces(a, b, r, e, sem)
  {
    AlwaysUnder(ps);
    ArmOpcodes(a, r + 1, ps, AL);
    ArmOpcodes(b, r + 1, ps, Info(a[r].op).notscond);
    forall m: Machine ensures CrossAlike(a, b, r, e, m, sem) {
      OneArm(a, b, r, ps, m, sem);
    }
  }

  lemma TwoArmedReplaces(a: seq<Prog>, b: seq<Prog>, r: nat, ps: seq<Prog>, qs: seq<Prog>, e: nat, sem: Meaning)
    requires FlagsKept(sem) && TwoArmed(a, b, r, ps, qs) && e == r + 2 + |ps| + |qs| && Framed(a, b, r, e, sem)
    ensures Replaces(a, b, r, e, sem)
  {
    var l := r + 1 + |ps|;
    AlwaysUnder(ps);
    AlwaysUnder(qs);
    ArmOpcodes(a, r + 1, ps, AL);
    ArmOpcodes(a, l + 1, qs, AL);
    ArmOpcodes(b, r + 1, ps, Info(a[r].op).notscond);
    ArmOpcodes(b, l + 1, qs, Info(a[r].op).scond);
    forall m: Machine ensures CrossAlike(a, b, r, e, m, sem) {
      TwoArms(a, b, r, ps, qs, m, sem);
    }
  }

  lemma LeavingReplaces(a: seq<Prog>, b: seq<Prog>, r: nat, ps: seq<Prog>, e: nat, sem: Meaning)
    requires FlagsKept(sem) && Leaving(a, b, r, ps) && e == r + 2 + |ps| && Framed(a, b, r, e, sem)
    ensures Replaces(a, b, r, e, sem)
  {
    AlwaysUnder(ps);
    ArmOpcodes(a, r + 1, ps, AL);
    ArmOpcodes(b, r + 1, ps, Info(a[r].op).notscond);
    forall m: Machine ensures CrossAlike(a, b, r, e, m, sem) {
      LeavingArm(a, b, r, ps, m, sem);
    }
  }

  // ---------------------------------------------------------------- equivalence

  ghost predicate Equivalent(a: seq<Prog>, b: seq<Prog>) {
    forall sem: Meaning, m: Machine, m': Machine :: FlagsKept(sem) ==> AlikeFrom(a, b, sem, m, m')
  }

  /** Started at the beginning in `m`, both halt in `m'` or neither does. */
  ghost predicate AlikeFrom(a: seq<Prog>, b: seq<Prog>, sem: Meaning, m: Machine, m': Machine) {
    Halts(a, At(0, m), sem, m') <==> Halts(b, At(0, m), sem, m')
  }

  lemma ReplacedIsAlike(a: seq<Prog>, b: seq<Prog>, r: nat, e: nat, sem: Meaning, m: Machine, m': Machine)
    requires Replaces(a, b, r, e, sem)
    ensures AlikeFrom(a, b, sem, m, m')
  {
    if Halts(a, At(0, m), sem, m') {
      var k: nat :| After(a, At(0, m), sem, k) == Halted(m');
      Simulates(a, b, r, e, sem, At(0, m), k, m');
    }
    if Halts(b, At(0, m), sem, m') {
      var k: nat :| After(b, At(0, m), sem, k) == Halted(m');
      ReplacesBack(a, b, r, e, sem);
      Simulates(b, a, r, e, sem, At(0, m), k, m');
    }
  }

  lemma ReplacesBack(a: seq<Prog>, b: seq<Prog>, r: nat, e: nat, sem: Meaning)
    requires Replaces(a, b, r, e, sem)
    ensures Replaces(b, a, r, e, sem)
  {
    forall k: nat, m: Machine | k < |a| && (k < r || k >= e) ensures StaysOut(b, k, m, r, e, sem) {
      assert StaysOut(a, k, m, r, e, sem);
    }
    forall m: Machine ensures CrossAlike(b, a, r, e, m, sem) {
      assert CrossAlike(a, b, r, e, m, sem);
    }
  }

  lemma EquivalentTrans(a: seq<Prog>, b: seq<Prog>, c: seq<Prog>)
    requires Equivalent(a, b) && Equivalent(b, c)
    ensures Equivalent(a, c)
  {
    forall sem: Meaning, m: Machine, m': Machine | FlagsKept(sem) ensures AlikeFrom(a, c, sem, m, m') {
      assert AlikeFrom(a, b, sem, m, m') && AlikeFrom(b, c, sem, m, m');
    }
  }

  // ---------------------------------------------------------------- the flow graph

  datatype Stop = Join | Split | End | Branch | Setcond | Toolong

  /** The Reg nodes, in link order: whether control falls through to the next node (s1) and
      from the previous one (p1), the branch successor (s2), and how many nodes are on the
      list of branch predecessors (p2, p2link).  The last two are never updated. */
  datatype Graph = Graph(code: seq<Prog>, s1: seq<bool>, p1: seq<bool>, s2: seq<Option<nat>>, np2: seq<nat>)

  predicate MayFall(p: Prog) {
    !((p.op == AB || Terminal(p.op)) && p.cond == AL)
  }

  /** Two nodes that branch to the same place. */
  predicate BothLead(s2: seq<Option<nat>>, j: nat, k: nat) {
    j < k < |s2| && s2[j].Some? && s2[j] == s2[k]
  }

  predicate Sized(g: Graph) {
    |g.s1| == |g.p1| == |g.s2| == |g.np2| == |g.code|
  }

  /** The graph has at least the edges the code has, and knows about merges. */
  ghost predicate Covers(g: Graph) {
    var n := |g.code|;
    && Sized(g)
    && (forall k :: 0 <= k < n && (IsBranch(g.code[k].op) || g.code[k].op == AB || g.code[k].op == ABCASE) ==>
          g.s2[k] == Some(g.code[k].target))
    && (forall k :: 0 <= k < n && IsBranch(g.code[k].op) ==> g.s1[k])
    && (forall k :: 0 <= k < n && g.s2[k].Some? ==> g.s2[k].value < n && g.np2[g.s2[k].value] >= 1)
    && (forall j: nat, k: nat :: BothLead(g.s2, j, k) ==> g.s2[k].value < n && g.np2[g.s2[k].value] >= 2)
    && (forall k :: 0 <= k < n && g.s1[k] ==> k + 1 < n && g.p1[k + 1])
    && (forall k :: 0 <= k < n - 1 && MayFall(g.code[k]) ==> g.s1[k])
  }

  /** The last node does not fall through. */
  predicate Bounded(g: Graph) {
    Sized(g) && forall k :: 0 <= k < |g.code| && g.s1[k] ==> k + 1 < |g.code|
  }

  predicate NotJoin(g: Graph, k: nat)
    requires k < |g.np2| && k < |g.p1|
  {
    !(g.np2[k] > 0 && (g.p1[k] || g.np2[k] >= 2))
  }

  /** A node that joinsplit walks through. */
  ghost predicate Passed(g: Graph, k: nat)
    requires Sized(g)
  {
    k < |g.code| && NotJoin(g, k) && g.s1[k] && g.s2[k] == None
  }

  /** What an arm may hold: an unconditional instruction that can be made conditional and is no
      floating-point compare, a NOP, a closing jump or an exit, and its edges show which. */
  ghost predicate PlainAt(g: Graph, k: nat)
    requires Sized(g) && k < |g.code|
  {
    var p := g.code[k];
    && p.cond == AL
    && (p.op == AB ==> !g.s1[k])
    && (Terminal(p.op) ==> !g.s1[k] && g.s2[k] == None)
    && (p.op == ANOP ==> g.s1[k] || g.s2[k] == None)
    && (p.op != AB && !Terminal(p.op) && p.op != ANOP ==>
          Predicable(p.op) && !FloatCompare(p.op) && g.s2[k] == None)
  }

  /** The instructions, NOPs aside, from `start` up to `k`. */
  function Weight(code: seq<Prog>, start: nat, k: nat): nat
    requires start <= k <= |code|
    decreases k
  {
    if k == start then 0 else Weight(code, start, k - 1) + if code[k - 1].op != ANOP then 1 else 0
  }

  /** Node `k` belongs to the arm that joinsplit walks from `start`. */
  ghost predicate InArm(g: Graph, start: nat, k: nat)
    requires Sized(g)
  {
    && start <= k < |g.code| && NotJoin(g, k) && !(g.s1[k] && g.s2[k].Some?)
    && (forall j: nat :: start <= j < k ==> Passed(g, j) && !ModifiesCpsr(g.code[j]))
    && Weight(g.code, start, k) < 4
  }

  /** Node `k`, not before `b`, is a branch, or a jump that the pass may turn into one: the exit of
      an arm that such a branch skips. */
  ghost predicate Turning(g: Graph, b: nat, k: nat)
    requires Sized(g)
    decreases k
  {
    && b <= k < |g.code|
    && (IsBranch(g.code[k].op)
        || (g.code[k].op == AB && exists r: nat :: b <= r < k && Skips(g, r, k) && Turning(g, b, r)))
  }

  ghost predicate Skips(g: Graph, r: nat, k: nat)
    requires Sized(g)
  {
    r < k < |g.code| && InArm(g, r + 1, k) && g.code[r].target == k + 1
  }

  /** Node `k` is in an arm, from `start`, of a branch at `r` that is to be converted. */
  ghost predicate Exposed(g: Graph, b: nat, r: nat, start: nat, k: nat)
    requires Covers(g)
  {
    Turning(g, b, r) && Converts(g, r, start) && InArm(g, start, k)
  }

  /** The arms to be converted from `b` on are plain; nothing is asked of other nodes. */
  ghost predicate Plain(g: Graph, b: nat)
    requires Covers(g)
  {
    forall r: nat, start: nat, k: nat :: Exposed(g, b, r, start, k) ==> PlainAt(g, k)
  }

  /** The arm from `start` is plain. */
  ghost predicate PlainFrom(g: Graph, start: nat)
    requires Sized(g)
  {
    forall k: nat :: InArm(g, start, k) ==> PlainAt(g, k)
  }

  lemma ConvertedIsPlain(g: Graph, r: nat)
    requires Covers(g) && Plain(g, r) && r + 1 < |g.code| && IsBranch(g.code[r].op)
    ensures Decide(g, r) != Keep ==> PlainFrom(g, r + 1)
    ensures Decide(g, r) == Rejoin ==> PlainFrom(g, g.code[r].target)
  {
    if Decide(g, r) != Keep {
      forall k: nat | InArm(g, r + 1, k) ensures PlainAt(g, k) {
        assert Exposed(g, r, r, r + 1, k);
      }
    }
    if Decide(g, r) == Rejoin {
      forall k: nat | InArm(g, g.code[r].target, k) ensures PlainAt(g, k) {
        assert Exposed(g, r, r, g.code[r].target, k);
      }
    }
  }

  lemma {:induction false} WeightGrows(code: seq<Prog>, start: nat, j: nat, k: nat)
    requires start <= j <= k <= |code|
    ensures Weight(code, start, j) <= Weight(code, start, k)
    decreases k
  {
    if j < k {
      WeightGrows(code, start, j, k - 1);
    }
  }

  lemma ArmPrefix(g: Graph, start: nat, j: nat, k: nat)
    requires Sized(g) && InArm(g, start, k) && start <= j <= k
    ensures InArm(g, start, j)
  {
    WeightGrows(g.code, start, j, k);
    assert j < k ==> Passed(g, j);
  }

  lemma {:induction false} WeightSame(a: seq<Prog>, b: seq<Prog>, start: nat, k: nat)
    requires start <= k <= |a| == |b| && forall j :: start <= j < k ==> a[j] == b[j]
    ensures Weight(a, start, k) == Weight(b, start, k)
    decreases k
  {
    if start < k {
      WeightSame(a, b, start, k - 1);
    }
  }

  /** Behind `f` the graphs differ only in that `h` may know of a merge right there. */
  ghost predicate Trails(g: Graph, h: Graph, f: nat) {
    && |h.code| == |g.code| == |h.s1| == |g.s1| == |h.p1| == |g.p1| && h.s2 == g.s2 && h.np2 == g.np2
    && (forall k: nat {:trigger h.code[k]} {:trigger h.s1[k]} {:trigger h.p1[k]} :: f < k < |g.code| ==>
          h.code[k] == g.code[k] && h.s1[k] == g.s1[k] && (g.p1[k] ==> h.p1[k]) && (k > f + 1 ==> h.p1[k] == g.p1[k]))
    && (f < |g.code| ==> h.code[f].target == g.code[f].target)
  }

  lemma InArmBack(g: Graph, h: Graph, f: nat, start: nat, k: nat)
    requires Sized(g) && Sized(h) && Trails(g, h, f) && f < start && InArm(h, start, k)
    ensures InArm(g, start, k)
  {
    WeightSame(g.code, h.code, start, k);
    forall j: nat | start <= j < k ensures Passed(g, j) && !ModifiesCpsr(g.code[j]) {
      assert Passed(h, j);
    }
  }

  lemma {:induction false} TurningBack(g: Graph, h: Graph, b: nat, f: nat, k: nat)
    requires Sized(g) && Sized(h) && Trails(g, h, f) && b <= f && Turning(h, f, k)
    requires IsBranch(h.code[f].op) ==> Turning(g, b, f)
    ensures Turning(g, b, k)
    decreases k
  {
    if k > f && !IsBranch(h.code[k].op) {
      var r: nat :| f <= r < k && Skips(h, r, k) && Turning(h, f, r);
      TurningBack(g, h, b, f, r);
      SkipsBack(g, h, f, r, k);
    }
  }

  lemma SkipsBack(g: Graph, h: Graph, f: nat, r: nat, k: nat)
    requires Sized(g) && Sized(h) && Trails(g, h, f) && f <= r && Skips(h, r, k)
    ensures Skips(g, r, k)
  {
    InArmBack(g, h, f, r + 1, k);
  }

  /** A survey that does not stop at once reports the same. */
  lemma {:induction false} SurveySame(g: Graph, h: Graph, f: nat, start: nat, k: nat)
    requires Bounded(g) && Bounded(h) && Trails(g, h, f) && f < start <= k < |g.code| && (k == f + 1 ==> NotJoin(h, k))
    ensures Survey(h, start, k) == Survey(g, start, k)
    decreases |g.code| - k
  {
    NodeSame(g, h, f, start, k);
    if NotJoin(g, k) && g.s1[k] && g.s2[k] == None {
      SurveySame(g, h, f, start, k + 1);
    }
  }

  lemma NodeSame(g: Graph, h: Graph, f: nat, start: nat, k: nat)
    requires Sized(g) && Sized(h) && Trails(g, h, f) && f < start <= k < |g.code| && (k == f + 1 ==> NotJoin(h, k))
    ensures h.code[k] == g.code[k] && h.s1[k] == g.s1[k] && (NotJoin(h, k) <==> NotJoin(g, k))
    ensures Weight(h.code, start, k) == Weight(g.code, start, k) && Weight(h.code, start, k + 1) == Weight(g.code, start, k + 1)
  {
    WeightSame(g.code, h.code, start, k);
    WeightSame(g.code, h.code, start, k + 1);
  }

  lemma {:induction false} SurveyShape(g: Graph, start: nat, k: nat)
    requires Bounded(g) && start <= k < |g.code|
    ensures var j := Survey(g, start, k); j.last >= start && (j.t == Join ==> j.end >= k)
    ensures !NotJoin(g, k) ==> Survey(g, start, k).t == Join && Survey(g, start, k).end == k
    decreases |g.code| - k
  {
    if NotJoin(g, k) && g.s1[k] && g.s2[k] == None {
      SurveyShape(g, start, k + 1);
    }
  }

  /** What is to be converted in `h` was to be converted in `g`. */
  lemma ConvertsBack(g: Graph, h: Graph, f: nat, r: nat, start: nat)
    requires Covers(g) && Covers(h) && Trails(g, h, f) && f <= r && Converts(h, r, start)
    ensures Converts(g, r, start) && r < start
  {
    DecideSame(g, h, f, r);
  }

  lemma DecideSame(g: Graph, h: Graph, f: nat, r: nat)
    requires Bounded(g) && Bounded(h) && Trails(g, h, f) && f <= r && r + 1 < |h.code| && h.code[r].target < |h.code|
    requires Decide(h, r) != Keep
    ensures g.code[r].target == h.code[r].target > r + 1 && Decide(g, r) == Decide(h, r)
  {
    var target := h.code[r].target;
    assert target == g.code[r].target;
    SurveyShape(h, r + 1, r + 1);
    SurveyShape(h, target, target);
    ChosenGoesOn(r, target, Survey(h, r + 1, r + 1), Survey(h, target, target));
    SurveySame(g, h, f, r + 1, r + 1);
    SurveySame(g, h, f, target, target);
  }

  lemma ChosenGoesOn(r: nat, target: nat, j1: JoinInfo, j2: JoinInfo)
    requires Chosen(target, j1, j2) != Keep && j1.last >= r + 1 && (j2.t == Join ==> j2.end >= target)
    ensures target > r + 1 && !(j1.t == Join && j1.end == r + 1)
  {
  }

  /** What has been converted exposes nothing new. */
  lemma PlainKept(g: Graph, h: Graph, b: nat, f: nat)
    requires Covers(g) && Covers(h) && Trails(g, h, f) && b <= f && Plain(g, b)
    requires f < |h.code| && IsBranch(h.code[f].op) ==> Turning(g, b, f)
    ensures Plain(h, f)
  {
    forall r: nat, start: nat, k: nat | Exposed(h, f, r, start, k) ensures PlainAt(h, k) {
      TurningBack(g, h, b, f, r);
      ConvertsBack(g, h, f, r, start);
      InArmBack(g, h, f, start, k);
      assert Exposed(g, b, r, start, k);
    }
  }

  lemma {:induction false} TurningLater(g: Graph, b: nat, c: nat, k: nat)
    requires Sized(g) && b <= c && Turning(g, c, k)
    ensures Turning(g, b, k)
    decreases k
  {
    if !IsBranch(g.code[k].op) {
      var r: nat :| c <= r < k && Skips(g, r, k) && Turning(g, c, r);
      TurningLater(g, b, c, r);
    }
  }

  lemma PlainLater(g: Graph, b: nat, c: nat)
    requires Covers(g) && Plain(g, b) && b <= c
    ensures Plain(g, c)
  {
    forall r: nat, start: nat, k: nat | Exposed(g, c, r, start, k) ensures PlainAt(g, k) {
      TurningLater(g, b, c, r);
      assert Exposed(g, b, r, start, k);
    }
  }

  /** The nodes from `start` are walked through up to `last`, which does not fall through. */
  ghost predicate Exits(g: Graph, start: nat, last: nat, len: nat)
    requires Sized(g)
  {
    && start <= last < |g.code| && NotJoin(g, last) && !g.s1[last]
    && (forall k: nat :: start <= k < last ==> Passed(g, k) && !ModifiesCpsr(g.code[k]))
    && InArm(g, start, last)
    && (len == 0 ==> g.code[last].op == ANOP)
  }

  /** What joinsplit reports: where the chain from `start` stops, and why. */
  ghost predicate Reported(g: Graph, start: nat, t: Stop, last: nat, end: nat, len: nat)
    requires Sized(g)
  {
    match t
    case Split => true
    case Toolong => true
    case Join =>
      && start <= end < |g.code| && !NotJoin(g, end) && last == (if end == start then start else end - 1)
      && (forall k: nat :: start <= k < end ==> Passed(g, k) && !ModifiesCpsr(g.code[k]))
      && (start < end ==> InArm(g, start, last))
      && (len == 0 ==> forall k: nat :: start <= k < end ==> g.code[k].op == ANOP) && (end == start ==> len == 0)
    case Setcond =>
      && start <= last < |g.code| && end == last + 1
      && (forall k: nat :: start <= k <= last ==> Passed(g, k)) && InArm(g, start, last)
      && (forall k: nat :: start <= k < last ==> !ModifiesCpsr(g.code[k]))
      && (len == 0 ==> forall k: nat :: start <= k <= last ==> g.code[k].op == ANOP)
    case End => Exits(g, start, last, len) && g.s2[last] == None
    case Branch => Exits(g, start, last, len) && g.s2[last] == Some(end)
  }

  datatype JoinInfo = JoinInfo(t: Stop, last: nat, end: nat, len: nat)

  /** Where the chain that began at `start` and has come to `k` ends. */
  ghost function Survey(g: Graph, start: nat, k: nat): JoinInfo
    requires Bounded(g) && start <= k < |g.code|
    decreases |g.code| - k
  {
    var before, len := if k == start then start else k - 1, Weight(g.code, start, k + 1);
    if !NotJoin(g, k) then JoinInfo(Join, before, k, Weight(g.code, start, k))
    else if g.s1[k] && g.s2[k].Some? then JoinInfo(Split, before, k, Weight(g.code, start, k))
    else if g.s2[k].Some? then JoinInfo(Branch, k, g.s2[k].value, len)
    else if !g.s1[k] then JoinInfo(End, k, k + 1, len)
    else if ModifiesCpsr(g.code[k]) then JoinInfo(Setcond, k, k + 1, len)
    else if len >= 4 then JoinInfo(Toolong, k, k + 1, len)
    else Survey(g, start, k + 1)
  }

  /** The survey means what it reports. */
  lemma {:induction false} SurveyIsReported(g: Graph, start: nat, k: nat)
    requires Covers(g) && start <= k < |g.code| && Walked(g, start, k)
    ensures var i := Survey(g, start, k); start <= i.last && Reported(g, start, i.t, i.last, i.end, i.len)
    decreases |g.code| - k
  {
    if GoesOn(g, start, k) {
      SurveyIsReported(g, start, k + 1);
    } else if !NotJoin(g, k) {
      JoinIsReported(g, start, k);
    } else {
      StopIsReported(g, start, k);
    }
  }

  /** The nodes from `start` up to `k` have been walked through. */
  ghost predicate Walked(g: Graph, start: nat, k: nat)
    requires Sized(g) && start <= k <= |g.code|
  {
    (forall j: nat :: start <= j < k ==> Passed(g, j) && !ModifiesCpsr(g.code[j])) && Weight(g.code, start, k) < 4
  }

  ghost predicate GoesOn(g: Graph, start: nat, k: nat)
    requires Sized(g) && start <= k < |g.code|
  {
    NotJoin(g, k) && g.s1[k] && g.s2[k] == None && !ModifiesCpsr(g.code[k]) && Weight(g.code, start, k + 1) < 4
  }

  lemma JoinIsReported(g: Graph, start: nat, k: nat)
    requires Covers(g) && start <= k < |g.code| && Walked(g, start, k) && !NotJoin(g, k)
    ensures Reported(g, start, Join, if k == start then start else k - 1, k, Weight(g.code, start, k))
  {
    WeightIsZero(g.code, start, k);
    if start < k {
      WeightGrows(g.code, start, k - 1, k);
      assert Passed(g, k - 1);
    }
  }

  lemma StopIsReported(g: Graph, start: nat, k: nat)
    requires Covers(g) && start <= k < |g.code| && Walked(g, start, k) && NotJoin(g, k) && !GoesOn(g, start, k)
    ensures var i := Survey(g, start, k); start <= i.last && Reported(g, start, i.t, i.last, i.end, i.len)
  {
    WeightIsZero(g.code, start, k + 1);
  }

  lemma {:induction false} WeightIsZero(code: seq<Prog>, start: nat, k: nat)
    requires start <= k <= |code|
    ensures Weight(code, start, k) == 0 <==> forall j: nat :: start <= j < k ==> code[j].op == ANOP
    decreases k
  {
    if start < k {
      WeightIsZero(code, start, k - 1);
    }
  }

  /** joinsplit: the maximal chain of instructions from `start` that could be conditional. */
  method JoinSplit(g: Graph, start: nat) returns (t: Stop, last: nat, end: nat, len: nat)
    requires Covers(g) && start < |g.code|
    ensures JoinInfo(t, last, end, len) == Survey(g, start, start)
  {
    var r := start;
    last, end, len := start, start, 0;
    while true
      invariant start <= r < |g.code| && last == (if r == start then start else r - 1)
      invariant len == Weight(g.code, start, r) && Survey(g, start, start) == Survey(g, start, r)
      decreases |g.code| - r
    {
      if g.np2[r] > 0 && (g.p1[r] || g.np2[r] >= 2) {
        return Join, last, r, len;
      }
      if g.s1[r] && g.s2[r].Some? {
        return Split, last, r, len;
      }
      last := r;
      if g.code[r].op != ANOP {
        len := len + 1;
      }
      if !g.s1[r] && g.s2[r] == None {
        return End, last, r + 1, len;
      }
      if g.s2[r].Some? {
        return Branch, last, g.s2[r].value, len;
      }
      if ModifiesCpsr(g.code[r]) {
        return Setcond, last, r + 1, len;
      }
      r := r + 1;
      if len >= 4 {
        return Toolong, last, r, len;
      }
    }
  }

  // ---------------------------------------------------------------- applypred and excise

  /** What applypred makes of one instruction of an arm of branch `op`. */
  function Applied(p: Prog, op: int, truth: bool, keep: bool): Prog
    requires IsBranch(op)
  {
    if p.op == AB then
      if keep then p.(op := if truth then Info(op).opcode else Info(op).notopcode) else NOP
    else if Predicable(p.op) then p.(cond := if truth then Info(op).scond else Info(op).notscond)
    else p
  }

  /** `h` is `g` with the arm from `start` to `last` put under a condition. */
  ghost predicate Conditioned(g: Graph, h: Graph, start: nat, last: nat, op: int, truth: bool, keep: bool)
    requires IsBranch(op) && Sized(g) && Sized(h)
  {
    && |h.code| == |g.code| && h.s2 == g.s2 && h.np2 == g.np2
    && (forall k: nat {:trigger h.code[k]} {:trigger h.s1[k]} :: k < |g.code| && (k < start || k > last) ==>
          h.code[k] == g.code[k] && h.s1[k] == g.s1[k])
    && (forall k: nat {:trigger h.code[k]} {:trigger h.s1[k]} :: start <= k <= last && k < |g.code| ==>
          h.code[k] == Applied(g.code[k], op, truth, keep && k == last) && h.s1[k])
    && (forall k: nat {:trigger h.p1[k]} :: k < |g.code| && (k <= start || k > last + 1) ==> h.p1[k] == g.p1[k])
  }

  /** An arm without instructions is left alone. */
  ghost predicate ArmDone(g: Graph, h: Graph, start: nat, j: JoinInfo, op: int, truth: bool, keep: bool)
    requires IsBranch(op)
  {
    Covers(g) && Covers(h) && if j.len == 0 then h == g else Conditioned(g, h, start, j.last, op, truth, keep)
  }

  datatype Decision = Keep | Rejoin | Leave

  /** The two arms come together again in a way the pass can use. */
  predicate Rejoins(t1: Stop, end1: nat, t2: Stop, end2: nat) {
    && end1 == end2
    && ((t1 == Branch && (t2 == Join || t2 == Setcond)) || (t2 == Join && (t1 == Join || t1 == Setcond)))
  }

  /** What the pass does about the branch at `r`, or about the jump there if it becomes one. */
  ghost function Decide(g: Graph, r: nat): Decision
    requires Bounded(g) && r + 1 < |g.code| && g.code[r].target < |g.code|
  {
    var target := g.code[r].target;
    Chosen(target, Survey(g, r + 1, r + 1), Survey(g, target, target))
  }

  /** What the pass does about a branch to `target` whose arms were surveyed. */
  function Chosen(target: nat, j1: JoinInfo, j2: JoinInfo): Decision {
    if j1.last + 1 != target then Keep
    else if Rejoins(j1.t, j1.end, j2.t, j2.end) then Rejoin
    else if j1.t == End || j1.t == Branch then Leave
    else Keep
  }

  /** The arm from `start` is one that the pass puts under a condition when it comes to `r`. */
  ghost predicate Converts(g: Graph, r: nat, start: nat)
    requires Covers(g)
  {
    && r + 1 < |g.code| && g.code[r].target < |g.code|
    && if start == r + 1 then Decide(g, r) != Keep else start == g.code[r].target && Decide(g, r) == Rejoin
  }

  /** `h` is `g` with the arms of the branch at `r` conditioned, by way of `h1` and `h2`, and the branch excised. */
  ghost predicate Converted(g: Graph, h1: Graph, h2: Graph, h: Graph, r: nat)
    requires Covers(g) && r + 1 < |g.code| && IsBranch(g.code[r].op)
  {
    var op, target, leave := g.code[r].op, g.code[r].target, Decide(g, r) == Leave;
    && ArmDone(g, h1, r + 1, Survey(g, r + 1, r + 1), op, false, leave)
    && (if leave then h2 == h1 else ArmDone(h1, h2, target, Survey(g, target, target), op, true, false))
    && |h2.code| == |g.code| && h == h2.(code := h2.code[r := NOP])
  }

  /** One turn of the pass. */
  ghost predicate Turned(g: Graph, h: Graph, r: nat) {
    && Covers(g)
    && if r + 1 < |g.code| && IsBranch(g.code[r].op) && Decide(g, r) != Keep then
         exists h1: Graph, h2: Graph :: Converted(g, h1, h2, h, r)
       else h == g
  }

  method ApplyPred(g: Graph, start: nat, last: nat, len: nat, op: int, truth: bool, keep: bool) returns (h: Graph)
    requires Covers(g) && IsBranch(op) && start <= last && (len > 0 ==> last + 1 < |g.code|)
    ensures Covers(h)
    ensures len == 0 ==> h == g
    ensures len > 0 ==> Conditioned(g, h, start, last, op, truth, keep)
  {
    h := g;
    if len == 0 {
      return;
    }
    for k := start to last + 1
      invariant Covers(h)
      invariant |h.code| == |g.code| && h.s2 == g.s2 && h.np2 == g.np2
      invariant forall j: nat :: j < |g.code| && (j < start || j >= k) ==> h.code[j] == g.code[j] && h.s1[j] == g.s1[j]
      invariant forall j: nat :: start <= j < k ==> h.code[j] == Applied(g.code[j], op, truth, keep && j == last) && h.s1[j]
      invariant forall j: nat :: j < |g.code| && (j <= start || j > k) ==> h.p1[j] == g.p1[j]
    {
      h := ApplyOne(h, k, op, truth, keep && k == last);
    }
  }

  method ApplyOne(g: Graph, k: nat, op: int, truth: bool, keep: bool) returns (h: Graph)
    requires Covers(g) && IsBranch(op) && k + 1 < |g.code|
    ensures Covers(h)
    ensures h == g.(code := g.code[k := Applied(g.code[k], op, truth, keep)], s1 := g.s1[k := true], p1 := g.p1[k + 1 := true])
  {
    var p := g.code[k];
    if p.op == AB {
      if !keep {
        p := NOP;
      } else if truth {
        p := p.(op := Info(op).opcode);
      } else {
        p := p.(op := Info(op).notopcode);
      }
    } else if Predicable(p.op) {
      p := p.(cond := if truth then Info(op).scond else Info(op).notscond);
    }
    h := g.(code := g.code[k := p]);
    if !h.s1[k] {
      h := h.(s1 := h.s1[k := true], p1 := h.p1[k + 1 := true]);
    } else {
      assert h.s1 == h.s1[k := true] && h.p1 == h.p1[k + 1 := true];
    }
  }

  method Excise(g: Graph, r: nat) returns (h: Graph)
    requires Covers(g) && r < |g.code| && g.s1[r]
    ensures h == g.(code := g.code[r := NOP]) && Covers(h)
  {
    h := g.(code := g.code[r := NOP]);
  }

  // ---------------------------------------------------------------- regions found by joinsplit

  /** No branch from outside leads past the start of the region. */
  ghost predicate Sealed(g: Graph, r: nat, e: nat)
    requires Covers(g)
  {
    forall k: nat :: k < |g.code| && (k < r || k >= e) && g.s2[k].Some? ==> g.s2[k].value <= r || g.s2[k].value >= e
  }

  lemma SealedStaysOut(g: Graph, r: nat, e: nat, k: nat, m: Machine, sem: Meaning)
    requires Covers(g) && Sealed(g, r, e) && k < |g.code| && (k < r || k >= e)
    requires forall j :: r <= j < e && j < |g.code| ==> g.code[j].op != ABCASE
    ensures StaysOut(g.code, k, m, r, e, sem)
  {
    if IsBranch(g.code[k].op) || g.code[k].op == AB || g.code[k].op == ABCASE {
      assert g.s2[k] == Some(g.code[k].target);
    } else if g.code[k].op == ACASE {
      var j := sem.pick(g.code[k].body, m);
      if j < |g.code| && g.code[j].op == ABCASE {
        assert g.s2[j] == Some(g.code[j].target);
      }
    }
  }

  /** Nothing branches into a chain that is entered by falling through. */
  lemma ChainNotTarget(g: Graph, start: nat, stop: nat)
    requires Covers(g) && start <= stop < |g.code| && g.p1[start]
    requires forall k: nat :: start <= k < stop ==> Passed(g, k)
    requires NotJoin(g, stop)
    ensures forall k: nat :: start <= k <= stop ==> g.np2[k] == 0
  {
    forall k: nat | start <= k <= stop ensures g.np2[k] == 0 {
      if k > start {
        assert Passed(g, k - 1);
        assert g.p1[k];
      }
      if k < stop {
        assert Passed(g, k);
      }
    }
  }

  lemma PassedIsBody(g: Graph, k: nat)
    requires Covers(g) && k < |g.code| && PlainAt(g, k) && Passed(g, k)
    ensures Body(g.code[k])
  {
  }

  lemma PassedAreBodies(g: Graph, start: nat, stop: nat)
    requires Covers(g) && PlainFrom(g, start) && start <= stop <= |g.code|
    requires forall k: nat :: start <= k < stop ==> Passed(g, k)
    requires start < stop ==> InArm(g, start, stop - 1)
    ensures Bodies(g.code[start..stop])
  {
    forall k | 0 <= k < stop - start ensures Body(g.code[start..stop][k]) {
      ArmPrefix(g, start, start + k, stop - 1);
      PassedIsBody(g, start + k);
    }
  }

  lemma BodiesAreNoCases(code: seq<Prog>, start: nat, stop: nat)
    requires start <= stop <= |code| && Bodies(code[start..stop])
    ensures forall k: nat :: start <= k < stop ==> code[k].op != ABCASE
  {
    forall k: nat | start <= k < stop ensures code[k].op != ABCASE {
      assert Body(code[start..stop][k - start]);
    }
  }

  lemma ExitIsClosing(g: Graph, last: nat)
    requires Covers(g) && last + 1 < |g.code| && PlainAt(g, last) && !g.s1[last]
    ensures if g.s2[last].Some? then g.code[last].op == AB else Terminal(g.code[last].op)
  {
  }

  /** The arm of a conditioned graph holds the arm under the condition. */
  lemma ConditionedHolds(g: Graph, h: Graph, start: nat, last: nat, stop: nat, op: int, truth: bool, keep: bool)
    requires Sized(g) && Sized(h) && IsBranch(op) && start <= stop <= last + 1 <= |g.code|
    requires Conditioned(g, h, start, last, op, truth, keep) && Bodies(g.code[start..stop])
    ensures Holds(h.code, start, AllUnder(g.code[start..stop], if truth then Info(op).scond else Info(op).notscond))
  {
    var ps := g.code[start..stop];
    forall k | 0 <= k < |ps| ensures h.code[start..stop][k] == AllUnder(ps, if truth then Info(op).scond else Info(op).notscond)[k] {
      assert Body(ps[k]) && ps[k] == g.code[start + k];
    }
  }

  /** The arm that leaves, before its conversion. */
  lemma LeavingBefore(g: Graph, r: nat, t: Stop, last: nat, end: nat, len: nat)
    requires Covers(g) && PlainFrom(g, r + 1) && r < |g.code| && IsBranch(g.code[r].op)
    requires (t == End || t == Branch) && Reported(g, r + 1, t, last, end, len) && g.s2[r] == Some(last + 1)
    ensures var a, ps := g.code, g.code[r + 1..last];
            && Bodies(ps) && Quiet(ps) && last + 1 < |a| && Holds(a, r + 1, ps) && a[r].target == last + 1
            && (a[last].op == AB || Terminal(a[last].op)) && a[last].cond == AL
            && (a[last].op == AB <==> t == Branch)
  {
    assert PlainAt(g, last);
    ExitIsClosing(g, last);
    PassedAreBodies(g, r + 1, last);
  }

  /** Its closing jump does not lead back into it. */
  lemma LeavingTarget(g: Graph, r: nat, last: nat)
    requires Covers(g) && r < last < |g.code| && g.s1[r] && InArm(g, r + 1, last)
    ensures g.code[last].op == AB ==> g.code[last].target <= r || g.code[last].target > last
  {
    ChainNotTarget(g, r + 1, last);
  }

  lemma LeavingShape(g: Graph, h: Graph, b: seq<Prog>, r: nat, t: Stop, last: nat, end: nat, len: nat)
    requires Covers(g) && PlainFrom(g, r + 1) && r < |g.code| && IsBranch(g.code[r].op)
    requires (t == End || t == Branch) && Reported(g, r + 1, t, last, end, len)
    requires g.s2[r] == Some(last + 1)
    requires Covers(h) && Conditioned(g, h, r + 1, last, g.code[r].op, false, true)
    requires b == h.code[r := NOP]
    ensures r < last && Leaving(g.code, b, r, g.code[r + 1..last])
  {
    LeavingBefore(g, r, t, last, end, len);
    LeavingTarget(g, r, last);
    LeavingAfter(g, h, b, r, last);
  }

  lemma LeavingAfter(g: Graph, h: Graph, b: seq<Prog>, r: nat, last: nat)
    requires Covers(g) && r < last < |g.code| && IsBranch(g.code[r].op) && Bodies(g.code[r + 1..last])
    requires g.code[last].op == AB || Terminal(g.code[last].op)
    requires Covers(h) && Conditioned(g, h, r + 1, last, g.code[r].op, false, true) && b == h.code[r := NOP]
    ensures |b| == |g.code| && b[r] == NOP && b[last] == Kept(g.code[last], g.code[r].op)
    ensures Holds(b, r + 1, AllUnder(g.code[r + 1..last], Info(g.code[r].op).notscond))
  {
    ConditionedHolds(g, h, r + 1, last, last, g.code[r].op, false, true);
    HoldsStill(h.code, b, r + 1, AllUnder(g.code[r + 1..last], Info(g.code[r].op).notscond));
  }

  lemma LeavingStaysOut(g: Graph, r: nat, t: Stop, last: nat, end: nat, len: nat, k: nat, m: Machine, sem: Meaning)
    requires Covers(g) && PlainFrom(g, r + 1) && r < |g.code| && IsBranch(g.code[r].op)
    requires (t == End || t == Branch) && Reported(g, r + 1, t, last, end, len)
    requires g.s2[r] == Some(last + 1) && k < |g.code| && (k < r || k >= last + 1)
    ensures StaysOut(g.code, k, m, r, last + 1, sem)
  {
    LeavingBefore(g, r, t, last, end, len);
    ChainNotTarget(g, r + 1, last);
    BodiesAreNoCases(g.code, r + 1, last);
    SealedStaysOut(g, r, last + 1, k, m, sem);
  }

  /** One arm that ends where the branch leads, before and after its conversion. */
  ghost predicate OneArmed(g: Graph, h: Graph, b: seq<Prog>, r: nat, e: nat)
    requires Covers(g)
  {
    && PlainFrom(g, r + 1) && r + 1 < e < |g.code| && IsBranch(g.code[r].op)
    && (forall k: nat :: r < k < e ==> Passed(g, k)) && InArm(g, r + 1, e - 1)
    && (forall k: nat :: r < k < e - 1 ==> !ModifiesCpsr(g.code[k]))
    && g.s2[r] == Some(e)
    && Covers(h) && ArmUnder(g, h, r + 1, e, g.code[r].op, false)
    && b == h.code[r := NOP]
  }

  lemma OneArmHolds(g: Graph, h: Graph, b: seq<Prog>, r: nat, e: nat)
    requires Covers(g) && OneArmed(g, h, b, r, e)
    ensures Bodies(g.code[r + 1..e]) && Holds(b, r + 1, AllUnder(g.code[r + 1..e], Info(g.code[r].op).notscond))
  {
    PassedAreBodies(g, r + 1, e);
    OneArmStill(g, h, b, r, e);
  }

  lemma OneArmStill(g: Graph, h: Graph, b: seq<Prog>, r: nat, e: nat)
    requires Sized(g) && Sized(h) && r + 1 <= e < |g.code| && IsBranch(g.code[r].op) && Bodies(g.code[r + 1..e])
    requires ArmUnder(g, h, r + 1, e, g.code[r].op, false) && b == h.code[r := NOP]
    ensures Holds(b, r + 1, AllUnder(g.code[r + 1..e], Info(g.code[r].op).notscond))
  {
    ArmHolds(g, h, r + 1, e, g.code[r].op, false);
    HoldsStill(h.code, b, r + 1, AllUnder(g.code[r + 1..e], Info(g.code[r].op).notscond));
  }

  lemma OneArmStaysOut(g: Graph, h: Graph, b: seq<Prog>, r: nat, e: nat, k: nat, m: Machine, sem: Meaning)
    requires Covers(g) && OneArmed(g, h, b, r, e) && k < |g.code| && (k < r || k >= e)
    ensures StaysOut(g.code, k, m, r, e, sem)
  {
    OneArmSealed(g, h, b, r, e);
    SealedStaysOut(g, r, e, k, m, sem);
  }

  lemma OneArmSealed(g: Graph, h: Graph, b: seq<Prog>, r: nat, e: nat)
    requires Covers(g) && OneArmed(g, h, b, r, e)
    ensures Sealed(g, r, e) && forall j :: r <= j < e ==> g.code[j].op != ABCASE
  {
    assert Passed(g, e - 1);
    ChainNotTarget(g, r + 1, e - 1);
    PassedAreBodies(g, r + 1, e);
    BodiesAreNoCases(g.code, r + 1, e);
  }

  lemma OneArmFramed(g: Graph, h: Graph, b: seq<Prog>, r: nat, e: nat, sem: Meaning)
    requires Covers(g) && OneArmed(g, h, b, r, e)
    ensures Framed(g.code, b, r, e, sem)
  {
    forall k: nat, m: Machine | k < |g.code| && (k < r || k >= e) ensures StaysOut(g.code, k, m, r, e, sem) {
      OneArmStaysOut(g, h, b, r, e, k, m, sem);
    }
  }

  /** What conversion makes of the second arm, which may hold nothing to condition. */
  ghost predicate ArmUnder(g: Graph, h: Graph, start: nat, e: nat, op: int, truth: bool)
    requires Sized(g) && Sized(h) && IsBranch(op)
  {
    || (start < e && Conditioned(g, h, start, e - 1, op, truth, false))
    || (h == g && start <= e && forall k: nat :: start <= k < e && k < |g.code| ==> g.code[k].op == ANOP)
  }

  lemma ArmHolds(g: Graph, h: Graph, start: nat, e: nat, op: int, truth: bool)
    requires Sized(g) && Sized(h) && IsBranch(op) && ArmUnder(g, h, start, e, op, truth)
    requires start <= e <= |g.code| && Bodies(g.code[start..e])
    ensures |h.code| == |g.code|
    ensures Holds(h.code, start, AllUnder(g.code[start..e], if truth then Info(op).scond else Info(op).notscond))
    ensures forall k: nat :: k < |g.code| && (k < start || k >= e) ==> h.code[k] == g.code[k]
  {
    if h == g {
      assert g.code[start..e] == AllUnder(g.code[start..e], if truth then Info(op).scond else Info(op).notscond);
    } else {
      ConditionedHolds(g, h, start, e - 1, e, op, truth, false);
    }
  }

  lemma SecondArmSealed(g: Graph, r: nat, l: nat, e: nat)
    requires Covers(g) && r < l < e < |g.code| && g.s2[r] == Some(l + 1) && (l + 1 < e ==> NotJoin(g, l + 1))
    requires forall k: nat :: l < k < e ==> Passed(g, k)
    requires forall k: nat :: r < k <= l ==> g.np2[k] == 0
    ensures Sealed(g, r, e)
  {
    forall t: nat | l + 1 < t < e ensures g.np2[t] == 0 {
      assert Passed(g, t - 1) && Passed(g, t);
      assert g.p1[t];
    }
    forall k: nat | k < |g.code| && k != r && l + 1 < e ensures g.s2[k] != Some(l + 1) {
      assert !BothLead(g.s2, r, k) && !BothLead(g.s2, k, r);
    }
  }

  /** A branch over two arms, the first of which jumps over the second. */
  ghost predicate Diamond(g: Graph, r: nat, l: nat, e: nat)
    requires Covers(g)
  {
    && PlainFrom(g, r + 1) && PlainFrom(g, l + 1)
    && r < l < e < |g.code| && IsBranch(g.code[r].op)
    && (forall k: nat :: r < k < l ==> Passed(g, k) && !ModifiesCpsr(g.code[k]))
    && NotJoin(g, l) && !g.s1[l] && g.s2[l] == Some(e) && g.s2[r] == Some(l + 1)
    && InArm(g, r + 1, l) && (l + 1 < e ==> InArm(g, l + 1, e - 1))
    && (forall k: nat :: l < k < e ==> Passed(g, k))
    && (forall k: nat :: l < k < e - 1 ==> !ModifiesCpsr(g.code[k]))
  }

  lemma DiamondSealed(g: Graph, r: nat, l: nat, e: nat)
    requires Covers(g) && Diamond(g, r, l, e)
    ensures Sealed(g, r, e)
  {
    ChainNotTarget(g, r + 1, l);
    assert l + 1 < e ==> Passed(g, l + 1);
    SecondArmSealed(g, r, l, e);
  }

  /** The diamond as code, before its conversion. */
  ghost predicate DiamondCode(a: seq<Prog>, r: nat, l: nat, e: nat) {
    && r < l < e < |a| && IsBranch(a[r].op)
    && var ps, qs := a[r + 1..l], a[l + 1..e];
    && Bodies(ps) && Quiet(ps) && Bodies(qs) && QuietButLast(qs)
    && a[l].op == AB && a[l].cond == AL && a[r].target == l + 1 && a[l].target == e
  }

  lemma DiamondBefore(g: Graph, r: nat, l: nat, e: nat)
    requires Covers(g) && Diamond(g, r, l, e)
    ensures DiamondCode(g.code, r, l, e)
  {
    assert PlainAt(g, l);
    PassedAreBodies(g, r + 1, l);
    PassedAreBodies(g, l + 1, e);
  }

  /** And after it: `c1` has the first arm conditioned, `c2` both. */
  lemma DiamondCodeAfter(a: seq<Prog>, c1: seq<Prog>, c2: seq<Prog>, r: nat, l: nat, e: nat)
    requires DiamondCode(a, r, l, e) && |a| == |c1| == |c2|
    requires Holds(c1, r + 1, AllUnder(a[r + 1..l], Info(a[r].op).notscond)) && c1[l] == NOP
    requires Holds(c2, l + 1, AllUnder(a[l + 1..e], Info(a[r].op).scond))
    requires forall k :: 0 <= k <= l ==> c2[k] == c1[k]
    ensures TwoArmed(a, c2[r := NOP], r, a[r + 1..l], a[l + 1..e])
  {
    var b := c2[r := NOP];
    HoldsStill(c1, b, r + 1, AllUnder(a[r + 1..l], Info(a[r].op).notscond));
    HoldsStill(c2, b, l + 1, AllUnder(a[l + 1..e], Info(a[r].op).scond));
  }

  lemma DiamondFirst(g: Graph, h1: Graph, r: nat, l: nat, e: nat)
    requires Covers(g) && Diamond(g, r, l, e) && Bodies(g.code[r + 1..l]) && g.code[l].op == AB
    requires Covers(h1) && Conditioned(g, h1, r + 1, l, g.code[r].op, false, false)
    ensures Holds(h1.code, r + 1, AllUnder(g.code[r + 1..l], Info(g.code[r].op).notscond)) && h1.code[l] == NOP
    ensures |h1.code| == |g.code| && forall k: nat :: k < |g.code| && (k < r || k >= e) ==> h1.code[k] == g.code[k]
  {
    ConditionedHolds(g, h1, r + 1, l, l, g.code[r].op, false, false);
  }

  lemma HoldsStill(a: seq<Prog>, b: seq<Prog>, i: nat, ps: seq<Prog>)
    requires Holds(a, i, ps) && |a| == |b| && forall k :: i <= k < i + |ps| ==> a[k] == b[k]
    ensures Holds(b, i, ps)
  {
    assert a[i..i + |ps|] == b[i..i + |ps|];
  }

  lemma DiamondSecond(g: Graph, h1: Graph, h2: Graph, r: nat, l: nat, e: nat)
    requires Covers(g) && Diamond(g, r, l, e) && Bodies(g.code[l + 1..e])
    requires Covers(h1) && Conditioned(g, h1, r + 1, l, g.code[r].op, false, false)
    requires Covers(h2) && ArmUnder(h1, h2, l + 1, e, g.code[r].op, true)
    ensures |h2.code| == |g.code| && Holds(h2.code, l + 1, AllUnder(g.code[l + 1..e], Info(g.code[r].op).scond))
    ensures forall k: nat :: k < |g.code| && (k <= l || k >= e) ==> h2.code[k] == h1.code[k]
  {
    assert h1.code[l + 1..e] == g.code[l + 1..e];
    ArmHolds(h1, h2, l + 1, e, g.code[r].op, true);
  }

  lemma DiamondFramed(g: Graph, b: seq<Prog>, r: nat, l: nat, e: nat, sem: Meaning)
    requires Covers(g) && Diamond(g, r, l, e) && |b| == |g.code|
    requires forall k :: 0 <= k < |b| && (k < r || k >= e) ==> b[k] == g.code[k]
    ensures Framed(g.code, b, r, e, sem)
  {
    forall k: nat, m: Machine | k < |g.code| && (k < r || k >= e) ensures StaysOut(g.code, k, m, r, e, sem) {
      DiamondStaysOut(g, r, l, e, k, m, sem);
    }
  }

  lemma DiamondStaysOut(g: Graph, r: nat, l: nat, e: nat, k: nat, m: Machine, sem: Meaning)
    requires Covers(g) && Diamond(g, r, l, e) && k < |g.code| && (k < r || k >= e)
    ensures StaysOut(g.code, k, m, r, e, sem)
  {
    DiamondSealed(g, r, l, e);
    DiamondBefore(g, r, l, e);
    BodiesAreNoCases(g.code, r + 1, l);
    BodiesAreNoCases(g.code, l + 1, e);
    SealedStaysOut(g, r, e, k, m, sem);
  }

  lemma DiamondIsTwoArmed(g: Graph, h1: Graph, h2: Graph, r: nat, l: nat, e: nat)
    requires Covers(g) && Diamond(g, r, l, e)
    requires Covers(h1) && Conditioned(g, h1, r + 1, l, g.code[r].op, false, false)
    requires Covers(h2) && ArmUnder(h1, h2, l + 1, e, g.code[r].op, true)
    ensures var a, b := g.code, h2.code[r := NOP];
            && TwoArmed(a, b, r, a[r + 1..l], a[l + 1..e])
            && |b| == |a| && forall k :: 0 <= k < |b| && (k < r || k >= e) ==> b[k] == a[k]
  {
    DiamondBefore(g, r, l, e);
    DiamondSecond(g, h1, h2, r, l, e);
    DiamondFirst(g, h1, r, l, e);
    DiamondCodeAfter(g.code, h1.code, h2.code, r, l, e);
  }

  // ---------------------------------------------------------------- the pass

  /** The state between two rounds: nodes from `f` on are untouched, and no branch waits
      between `r` and `f`. */
  ghost predicate Between(g: Graph, r: nat, f: nat) {
    && Covers(g) && Plain(g, f)
    && forall k: nat :: r <= k < f && k < |g.code| ==> !IsBranch(g.code[k].op)
  }

  lemma ReplacedIsEquivalent(a: seq<Prog>, b: seq<Prog>, r: nat, e: nat)
    requires forall sem: Meaning :: FlagsKept(sem) ==> Replaces(a, b, r, e, sem)
    ensures Equivalent(a, b)
  {
    forall sem: Meaning, m: Machine, m': Machine | FlagsKept(sem) ensures AlikeFrom(a, b, sem, m, m') {
      ReplacedIsAlike(a, b, r, e, sem, m, m');
    }
  }

  lemma LeavingCode(a: seq<Prog>, b: seq<Prog>, r: nat, ps: seq<Prog>, e: nat)
    requires Leaving(a, b, r, ps) && e == r + 2 + |ps| && forall sem: Meaning :: Framed(a, b, r, e, sem)
    ensures Equivalent(a, b)
  {
    forall sem: Meaning | FlagsKept(sem) ensures Replaces(a, b, r, e, sem) {
      LeavingReplaces(a, b, r, ps, e, sem);
    }
    ReplacedIsEquivalent(a, b, r, e);
  }

  lemma TwoArmedCode(a: seq<Prog>, b: seq<Prog>, r: nat, ps: seq<Prog>, qs: seq<Prog>, e: nat)
    requires TwoArmed(a, b, r, ps, qs) && e == r + 2 + |ps| + |qs| && forall sem: Meaning :: Framed(a, b, r, e, sem)
    ensures Equivalent(a, b)
  {
    forall sem: Meaning | FlagsKept(sem) ensures Replaces(a, b, r, e, sem) {
      TwoArmedReplaces(a, b, r, ps, qs, e, sem);
    }
    ReplacedIsEquivalent(a, b, r, e);
  }

  lemma LeavingFramed(g: Graph, h: Graph, b: seq<Prog>, r: nat, t: Stop, last: nat, end: nat, len: nat, sem: Meaning)
    requires Covers(g) && PlainFrom(g, r + 1) && r < |g.code| && IsBranch(g.code[r].op)
    requires (t == End || t == Branch) && Reported(g, r + 1, t, last, end, len)
    requires g.s2[r] == Some(last + 1)
    requires Covers(h) && Conditioned(g, h, r + 1, last, g.code[r].op, false, true)
    requires b == h.code[r := NOP]
    ensures Framed(g.code, b, r, last + 1, sem)
  {
    var e := last + 1;
    forall k: nat, m: Machine | k < |g.code| && (k < r || k >= e) ensures StaysOut(g.code, k, m, r, e, sem) {
      LeavingStaysOut(g, r, t, last, end, len, k, m, sem);
    }
  }

  lemma LeavingEquivalent(g: Graph, h: Graph, b: seq<Prog>, r: nat, t: Stop, last: nat, end: nat, len: nat)
    requires Covers(g) && PlainFrom(g, r + 1) && r < |g.code| && IsBranch(g.code[r].op)
    requires (t == End || t == Branch) && Reported(g, r + 1, t, last, end, len)
    requires g.s2[r] == Some(last + 1)
    requires Covers(h) && Conditioned(g, h, r + 1, last, g.code[r].op, false, true)
    requires b == h.code[r := NOP]
    ensures Equivalent(g.code, b)
  {
    var e := last + 1;
    LeavingShape(g, h, b, r, t, last, end, len);
    forall sem: Meaning ensures Framed(g.code, b, r, e, sem) {
      LeavingFramed(g, h, b, r, t, last, end, len, sem);
    }
    LeavingCode(g.code, b, r, g.code[r + 1..last], e);
  }

  ghost predicate SurveyedLeaving(g: Graph, r: nat, j1: JoinInfo) {
    && Covers(g) && r + 1 < |g.code| && IsBranch(g.code[r].op)
    && Survey(g, r + 1, r + 1) == j1 && Decide(g, r) == Leave
  }

  lemma LeftIsTurned(g: Graph, h1: Graph, h: Graph, r: nat, j1: JoinInfo)
    requires Covers(g) && r + 1 < |g.code| && IsBranch(g.code[r].op)
    requires ArmDone(g, h1, r + 1, j1, g.code[r].op, false, true)
    requires |h1.code| == |g.code| && h == h1.(code := h1.code[r := NOP])
    ensures SurveyedLeaving(g, r, j1) ==> Turned(g, h, r)
  {
    if SurveyedLeaving(g, r, j1) {
      assert Converted(g, h1, h1, h, r);
    }
  }

  method ConvertLeaving(g: Graph, r: nat, t: Stop, last: nat, end: nat, len: nat) returns (h: Graph, ghost f: nat)
    requires Covers(g) && Plain(g, r) && PlainFrom(g, r + 1) && r < |g.code| && IsBranch(g.code[r].op)
    requires (t == End || t == Branch) && Reported(g, r + 1, t, last, end, len) && g.s2[r] == Some(last + 1)
    ensures Between(h, r + 1, f) && |h.code| == |g.code|
    ensures Equivalent(g.code, h.code)
    ensures SurveyedLeaving(g, r, JoinInfo(t, last, end, len)) ==> Turned(g, h, r)
  {
    var op := g.code[r].op;
    LeavingBefore(g, r, t, last, end, len);
    var h1 := ApplyPred(g, r + 1, last, len, op, false, true);
    h := Excise(h1, r);
    LeftIsTurned(g, h1, h, r, JoinInfo(t, last, end, len));
    f := if t == Branch then last else last + 1;
    LeavingEquivalent(g, h1, h.code, r, t, last, end, len);
    LeavingSettled(g, h1, h, r, t, last, end, len);
  }

  lemma LeavingSettled(g: Graph, h1: Graph, h: Graph, r: nat, t: Stop, last: nat, end: nat, len: nat)
    requires Covers(g) && Plain(g, r) && PlainFrom(g, r + 1) && r < |g.code| && IsBranch(g.code[r].op)
    requires (t == End || t == Branch) && Reported(g, r + 1, t, last, end, len) && g.s2[r] == Some(last + 1)
    requires Covers(h1) && Conditioned(g, h1, r + 1, last, g.code[r].op, false, true)
    requires Covers(h) && h == h1.(code := h1.code[r := NOP])
    ensures Between(h, r + 1, if t == Branch then last else last + 1)
  {
    var f: nat := if t == Branch then last else last + 1;
    LeavingBefore(g, r, t, last, end, len);
    LeavingAfter(g, h1, h.code, r, last);
    ArmOpcodes(h.code, r + 1, g.code[r + 1..last], Info(g.code[r].op).notscond);
    if t == Branch {
      LeavingExitTurns(g, r, last);
    }
    LeavingKept(g, h1, h, r, last, f);
  }

  lemma LeavingKept(g: Graph, h1: Graph, h: Graph, r: nat, last: nat, f: nat)
    requires Covers(g) && Plain(g, r) && r < last < |g.code| && IsBranch(g.code[r].op) && last <= f <= last + 1
    requires Covers(h1) && Conditioned(g, h1, r + 1, last, g.code[r].op, false, true)
    requires Covers(h) && h == h1.(code := h1.code[r := NOP])
    requires f < |h.code| && IsBranch(h.code[f].op) ==> Turning(g, r, f)
    ensures Plain(h, f)
  {
    assert h1.s1[last];
    LeavingTrails(g, h1, r, last, f);
    PlainKept(g, h, r, f);
  }

  lemma LeavingTrails(g: Graph, h1: Graph, r: nat, last: nat, f: nat)
    requires Sized(g) && r < last < |g.code| && IsBranch(g.code[r].op) && last <= f <= last + 1
    requires Sized(h1) && Conditioned(g, h1, r + 1, last, g.code[r].op, false, true)
    requires last + 1 < |g.code| ==> h1.p1[last + 1]
    ensures Trails(g, h1.(code := h1.code[r := NOP]), f)
  {
  }

  lemma LeavingExitTurns(g: Graph, r: nat, last: nat)
    requires Covers(g) && r < last < |g.code| && IsBranch(g.code[r].op) && g.s2[r] == Some(last + 1)
    requires InArm(g, r + 1, last) && g.code[last].op == AB
    ensures Turning(g, r, last)
  {
    assert Turning(g, r, r);
    assert Skips(g, r, last);
  }

  /** Both conditions under which the arms rejoin at the same place. */
  ghost predicate Rejoining(g: Graph, r: nat, t1: Stop, last1: nat, end1: nat, len1: nat, t2: Stop, last2: nat, end2: nat, len2: nat)
    requires Covers(g)
  {
    && Plain(g, r) && PlainFrom(g, r + 1) && PlainFrom(g, last1 + 1)
    && r < |g.code| && IsBranch(g.code[r].op) && g.s2[r] == Some(last1 + 1)
    && r + 1 <= last1 && Reported(g, r + 1, t1, last1, end1, len1)
    && Reported(g, last1 + 1, t2, last2, end2, len2)
    && Rejoins(t1, end1, t2, end2)
  }

  lemma RejoiningShape(g: Graph, r: nat, t1: Stop, last1: nat, end1: nat, len1: nat, t2: Stop, last2: nat, end2: nat, len2: nat)
    requires Covers(g) && Rejoining(g, r, t1, last1, end1, len1, t2, last2, end2, len2)
    ensures if t1 == Branch then
              && Diamond(g, r, last1, end1) && len1 > 0
              && (len2 > 0 ==> last2 + 1 == end1 && last1 < last2)
              && (len2 == 0 ==> forall k: nat :: last1 < k < end1 ==> g.code[k].op == ANOP)
            else
              && end1 == last1 + 1 < |g.code| && len2 == 0
              && (forall k: nat :: r < k < end1 ==> Passed(g, k)) && InArm(g, r + 1, last1)
              && (forall k: nat :: r < k < end1 - 1 ==> !ModifiesCpsr(g.code[k]))
              && (len1 == 0 ==> forall k: nat :: r < k < end1 ==> g.code[k].op == ANOP)
  {
    if t1 == Branch {
      assert PlainAt(g, last1);
      ExitIsClosing(g, last1);
      if t2 == Setcond {
        assert Passed(g, last2);
      }
    }
  }

  lemma ConditionedSecond(g: Graph, h1: Graph, h2: Graph, r: nat, l: nat, e: nat, last: nat, len: nat)
    requires Covers(g) && Diamond(g, r, l, e)
    requires Covers(h1) && Conditioned(g, h1, r + 1, l, g.code[r].op, false, false)
    requires len == 0 ==> forall k: nat :: l < k < e ==> g.code[k].op == ANOP
    requires len > 0 ==> last + 1 == e && l < last
    requires Covers(h2) && (len == 0 ==> h2 == h1) && (len > 0 ==> Conditioned(h1, h2, l + 1, last, g.code[r].op, true, false))
    ensures ArmUnder(h1, h2, l + 1, e, g.code[r].op, true)
    ensures h2.s1[r]
  {
  }

  /** After conversion no branch is left in the region, and what follows is untouched. */
  lemma Settled(g: Graph, h1: Graph, h2: Graph, r: nat, l: nat, e: nat)
    requires Covers(g) && Plain(g, r) && Diamond(g, r, l, e)
    requires Covers(h1) && Conditioned(g, h1, r + 1, l, g.code[r].op, false, false)
    requires Covers(h2) && ArmUnder(h1, h2, l + 1, e, g.code[r].op, true)
    requires h2.s1[r] && Covers(h2.(code := h2.code[r := NOP]))
    ensures Between(h2.(code := h2.code[r := NOP]), r + 1, e)
  {
    var h := h2.(code := h2.code[r := NOP]);
    DiamondIsTwoArmed(g, h1, h2, r, l, e);
    TwoArmedHasNoBranch(g.code, h.code, r, g.code[r + 1..l], g.code[l + 1..e]);
    PlainKept(g, h, r, e);
  }

  lemma TwoArmedHasNoBranch(a: seq<Prog>, b: seq<Prog>, r: nat, ps: seq<Prog>, qs: seq<Prog>)
    requires TwoArmed(a, b, r, ps, qs)
    ensures forall k: nat :: r + 1 <= k < r + 2 + |ps| + |qs| ==> !IsBranch(b[k].op)
  {
    var l := r + 1 + |ps|;
    ArmOpcodes(b, r + 1, ps, Info(a[r].op).notscond);
    ArmOpcodes(b, l + 1, qs, Info(a[r].op).scond);
  }

  /** `j1` and `j2` are what joinsplit says of the two arms of the branch at `r`. */
  ghost predicate Surveyed(g: Graph, r: nat, j1: JoinInfo, j2: JoinInfo) {
    && Covers(g) && r + 1 < |g.code| && IsBranch(g.code[r].op)
    && Survey(g, r + 1, r + 1) == j1 && Survey(g, g.code[r].target, g.code[r].target) == j2 && Decide(g, r) == Rejoin
  }

  /** Condition both arms and excise the branch. */
  method ApplyBoth(g: Graph, r: nat, j1: JoinInfo, j2: JoinInfo) returns (h: Graph, ghost h1: Graph, ghost h2: Graph)
    requires Covers(g) && r + 1 < |g.code| && IsBranch(g.code[r].op) && g.s1[r] && g.code[r].target == j1.last + 1
    requires r + 1 <= j1.last && j1.last + 1 <= j2.last
    requires (j1.len > 0 ==> j1.last + 1 < |g.code|) && (j2.len > 0 ==> j2.last + 1 < |g.code|)
    ensures ArmDone(g, h1, r + 1, j1, g.code[r].op, false, false)
    ensures ArmDone(h1, h2, j1.last + 1, j2, g.code[r].op, true, false)
    ensures |h2.code| == |g.code| && h == h2.(code := h2.code[r := NOP]) && Covers(h) && h2.s1[r]
  {
    var op := g.code[r].op;
    var k1 := ApplyPred(g, r + 1, j1.last, j1.len, op, false, false);
    var k2 := ApplyPred(k1, j1.last + 1, j2.last, j2.len, op, true, false);
    h := Excise(k2, r);
    h1, h2 := k1, k2;
  }

  lemma RejoinedIsTurned(g: Graph, h1: Graph, h2: Graph, h: Graph, r: nat, j1: JoinInfo, j2: JoinInfo)
    requires Covers(g) && r + 1 < |g.code| && IsBranch(g.code[r].op)
    requires ArmDone(g, h1, r + 1, j1, g.code[r].op, false, false) && ArmDone(h1, h2, g.code[r].target, j2, g.code[r].op, true, false)
    requires |h2.code| == |g.code| && h == h2.(code := h2.code[r := NOP])
    ensures Surveyed(g, r, j1, j2) ==> Turned(g, h, r)
  {
    if Surveyed(g, r, j1, j2) {
      assert Converted(g, h1, h2, h, r);
    }
  }

  method ConvertTwo(g: Graph, r: nat, t1: Stop, last1: nat, end1: nat, len1: nat, t2: Stop, last2: nat, end2: nat, len2: nat)
      returns (h: Graph)
    requires Covers(g) && Rejoining(g, r, t1, last1, end1, len1, t2, last2, end2, len2) && t1 == Branch
    ensures Between(h, r + 1, end1) && |h.code| == |g.code|
    ensures Equivalent(g.code, h.code)
    ensures Surveyed(g, r, JoinInfo(t1, last1, end1, len1), JoinInfo(t2, last2, end2, len2)) ==> Turned(g, h, r)
  {
    RejoiningShape(g, r, t1, last1, end1, len1, t2, last2, end2, len2);
    var op := g.code[r].op;
    var j1, j2 := JoinInfo(t1, last1, end1, len1), JoinInfo(t2, last2, end2, len2);
    ghost var h1, h2;
    h, h1, h2 := ApplyBoth(g, r, j1, j2);
    ConditionedSecond(g, h1, h2, r, last1, end1, last2, len2);
    TwoDone(g, h1, h2, r, last1, end1);
    RejoinedIsTurned(g, h1, h2, h, r, j1, j2);
  }

  lemma TwoDone(g: Graph, h1: Graph, h2: Graph, r: nat, l: nat, e: nat)
    requires Covers(g) && Plain(g, r) && Diamond(g, r, l, e)
    requires Covers(h1) && Conditioned(g, h1, r + 1, l, g.code[r].op, false, false)
    requires Covers(h2) && ArmUnder(h1, h2, l + 1, e, g.code[r].op, true)
    requires h2.s1[r] && Covers(h2.(code := h2.code[r := NOP]))
    ensures Between(h2.(code := h2.code[r := NOP]), r + 1, e)
    ensures Equivalent(g.code, h2.code[r := NOP]) && |h2.code| == |g.code|
  {
    DiamondEquivalent(g, h1, h2, r, l, e);
    Settled(g, h1, h2, r, l, e);
  }

  lemma DiamondEquivalent(g: Graph, h1: Graph, h2: Graph, r: nat, l: nat, e: nat)
    requires Covers(g) && Diamond(g, r, l, e)
    requires Covers(h1) && Conditioned(g, h1, r + 1, l, g.code[r].op, false, false)
    requires Covers(h2) && ArmUnder(h1, h2, l + 1, e, g.code[r].op, true)
    ensures Equivalent(g.code, h2.code[r := NOP])
  {
    var b := h2.code[r := NOP];
    DiamondIsTwoArmed(g, h1, h2, r, l, e);
    forall sem: Meaning ensures Framed(g.code, b, r, e, sem) {
      DiamondFramed(g, b, r, l, e, sem);
    }
    TwoArmedCode(g.code, b, r, g.code[r + 1..l], g.code[l + 1..e], e);
  }

  lemma OneArmEquivalent(g: Graph, h: Graph, b: seq<Prog>, r: nat, e: nat)
    requires Covers(g) && OneArmed(g, h, b, r, e)
    ensures Equivalent(g.code, b)
  {
    OneArmHolds(g, h, b, r, e);
    forall sem: Meaning | FlagsKept(sem) ensures Replaces(g.code, b, r, e, sem) {
      OneArmFramed(g, h, b, r, e, sem);
      OneArmedReplaces(g.code, b, r, g.code[r + 1..e], e, sem);
    }
    ReplacedIsEquivalent(g.code, b, r, e);
  }

  method ConvertOne(g: Graph, r: nat, t1: Stop, last1: nat, end1: nat, len1: nat, t2: Stop, last2: nat, end2: nat, len2: nat)
      returns (h: Graph)
    requires Covers(g) && Rejoining(g, r, t1, last1, end1, len1, t2, last2, end2, len2) && t1 != Branch
    ensures Between(h, r + 1, end1) && |h.code| == |g.code|
    ensures Equivalent(g.code, h.code)
    ensures Surveyed(g, r, JoinInfo(t1, last1, end1, len1), JoinInfo(t2, last2, end2, len2)) ==> Turned(g, h, r)
  {
    RejoiningShape(g, r, t1, last1, end1, len1, t2, last2, end2, len2);
    var j1, j2 := JoinInfo(t1, last1, end1, len1), JoinInfo(t2, last2, end2, len2);
    ghost var h1, h2;
    h, h1, h2 := ApplyBoth(g, r, j1, j2);
    OneMade(g, h1, h2, h, r, j1, j2);
    OneDone(g, h1, h, r, end1);
    RejoinedIsTurned(g, h1, h2, h, r, j1, j2);
  }

  lemma OneMade(g: Graph, h1: Graph, h2: Graph, h: Graph, r: nat, j1: JoinInfo, j2: JoinInfo)
    requires Covers(g) && Rejoining(g, r, j1.t, j1.last, j1.end, j1.len, j2.t, j2.last, j2.end, j2.len) && j1.t != Branch
    requires r + 1 < |g.code| && IsBranch(g.code[r].op)
    requires ArmDone(g, h1, r + 1, j1, g.code[r].op, false, false)
    requires ArmDone(h1, h2, j1.last + 1, j2, g.code[r].op, true, false)
    requires |h2.code| == |g.code| && h == h2.(code := h2.code[r := NOP])
    ensures h2 == h1 && OneArmed(g, h1, h.code, r, j1.end)
  {
    RejoiningShape(g, r, j1.t, j1.last, j1.end, j1.len, j2.t, j2.last, j2.end, j2.len);
  }

  lemma OneDone(g: Graph, h1: Graph, h: Graph, r: nat, e: nat)
    requires Covers(g) && Plain(g, r) && Covers(h)
    requires OneArmed(g, h1, h.code, r, e) && h == h1.(code := h1.code[r := NOP])
    ensures Between(h, r + 1, e) && Equivalent(g.code, h.code)
  {
    OneArmEquivalent(g, h1, h.code, r, e);
    OneArmBodies(g, h1, h.code, r, e);
    OneArmTrails(g, h1, h, r, e);
    PlainKept(g, h, r, e);
  }

  lemma OneArmTrails(g: Graph, h1: Graph, h: Graph, r: nat, e: nat)
    requires Sized(g) && Sized(h1) && r + 1 < e < |g.code| && IsBranch(g.code[r].op)
    requires ArmUnder(g, h1, r + 1, e, g.code[r].op, false) && h == h1.(code := h1.code[r := NOP])
    ensures Trails(g, h, e)
  {
  }

  lemma OneArmBodies(g: Graph, h: Graph, b: seq<Prog>, r: nat, e: nat)
    requires Covers(g) && OneArmed(g, h, b, r, e)
    ensures forall k: nat :: r + 1 <= k < e ==> k < |b| && !IsBranch(b[k].op)
  {
    OneArmHolds(g, h, b, r, e);
    ArmOpcodes(b, r + 1, g.code[r + 1..e], Info(g.code[r].op).notscond);
  }

  method ConvertBoth(g: Graph, r: nat, t1: Stop, last1: nat, end1: nat, len1: nat, t2: Stop, last2: nat, end2: nat, len2: nat)
      returns (h: Graph)
    requires Covers(g) && Rejoining(g, r, t1, last1, end1, len1, t2, last2, end2, len2)
    ensures Between(h, r + 1, end1) && |h.code| == |g.code|
    ensures Equivalent(g.code, h.code)
    ensures Surveyed(g, r, JoinInfo(t1, last1, end1, len1), JoinInfo(t2, last2, end2, len2)) ==> Turned(g, h, r)
  {
    if t1 == Branch {
      h := ConvertTwo(g, r, t1, last1, end1, len1, t2, last2, end2, len2);
    } else {
      h := ConvertOne(g, r, t1, last1, end1, len1, t2, last2, end2, len2);
    }
  }

  /** A whole function, with its ATEXT in front and a branch over one instruction. */
  function Small(): Graph {
    Graph([Prog(ATEXT, AL, false, 0, 0), Prog(ACMP, AL, false, 0, 1), Prog(ABEQ, AL, false, 4, 0),
           Prog(AMOVW, AL, false, 0, 2), Prog(ARET, AL, false, 0, 0)],
          [true, true, true, true, false], [false, true, true, true, true],
          [None, None, Some(4), None, None], [0, 0, 0, 0, 1])
  }

  lemma SmallIsCovered()
    ensures Covers(Small())
  {
  }

  lemma SmallIsPlain()
    ensures Covers(Small()) && Plain(Small(), 0)
  {
    var g := Small();
    SmallIsCovered();
    forall r: nat, start: nat, k: nat | Exposed(g, 0, r, start, k) ensures PlainAt(g, k) {
      assert g.code[r].op in {AB, ABEQ};
      assert r == 2;
      assert !NotJoin(g, 4);
      assert k == 3;
    }
  }

  /** The pass takes whole functions as they come, and converts this one's branch. */
  lemma SmallIsConverted()
    ensures Covers(Small()) && Plain(Small(), 0) && Small().code[0].op == ATEXT && Decide(Small(), 2) == Rejoin
  {
    var g := Small();
    SmallIsCovered();
    SmallIsPlain();
    assert Weight(g.code, 3, 3) == 0 && Weight(g.code, 3, 4) == 1;
    assert Survey(g, 3, 4) == JoinInfo(Join, 3, 4, 1);
    assert Survey(g, 4, 4).end == 4;
  }

  /** The whole pass.  Whatever the program and its input, the optimised code halts in the
      same machine states as the code it was given, and every branch is dealt with in its turn
      as decided. */
  method Predicate(g0: Graph) returns (g: Graph, ghost turns: seq<Graph>)
    requires Covers(g0) && Plain(g0, 0)
    ensures Equivalent(g0.code, g.code)
    ensures |turns| == |g0.code| + 1 && turns[0] == g0 && turns[|g0.code|] == g
    ensures forall r :: 0 <= r < |g0.code| ==> Turned(turns[r], turns[r + 1], r)
  {
    g, turns := g0, [g0];
    ghost var f: nat := 0;
    for r := 0 to |g0.code|
      invariant |g.code| == |g0.code| && Between(g, r, f)
      invariant Equivalent(g0.code, g.code)
      invariant |turns| == r + 1 && turns[0] == g0 && turns[r] == g
      invariant forall j :: 0 <= j < r ==> Turned(turns[j], turns[j + 1], j)
    {
      ghost var before := g;
      if IsBranch(g.code[r].op) {
        g, f := Turn(g, r, f);
        EquivalentTrans(g0.code, before.code, g.code);
      }
      assert Turned(before, g, r);
      turns := turns + [g];
    }
  }

  lemma SurveyMeans(g: Graph, start: nat, j: JoinInfo)
    requires Covers(g) && start < |g.code| && Survey(g, start, start) == j
    ensures start <= j.last && Reported(g, start, j.t, j.last, j.end, j.len)
  {
    SurveyIsReported(g, start, start);
  }

  /** What the two surveys of a branch decide, the arms concerned are fit for. */
  lemma Planned(g: Graph, r: nat, j1: JoinInfo, j2: JoinInfo)
    requires Covers(g) && Plain(g, r) && r + 1 < |g.code| && IsBranch(g.code[r].op)
    requires Survey(g, r + 1, r + 1) == j1 && Survey(g, g.code[r].target, g.code[r].target) == j2
    ensures Chosen(g.code[r].target, j1, j2) == Rejoin ==>
              Surveyed(g, r, j1, j2) && PlainFrom(g, r + 1) && PlainFrom(g, g.code[r].target)
    ensures Chosen(g.code[r].target, j1, j2) == Leave ==> SurveyedLeaving(g, r, j1) && PlainFrom(g, r + 1)
    ensures Chosen(g.code[r].target, j1, j2) == Decide(g, r)
  {
    ConvertedIsPlain(g, r);
  }

  /** One branch: convert it if its arms allow. */
  method Turn(g: Graph, r: nat, ghost f0: nat) returns (h: Graph, ghost f: nat)
    requires r < |g.code| && Between(g, r, f0) && IsBranch(g.code[r].op)
    ensures |h.code| == |g.code| && Between(h, r + 1, f) && Equivalent(g.code, h.code)
    ensures Turned(g, h, r)
  {
    h, f := g, f0;
    PlainLater(g, f, r);
    var target := g.s2[r].value;
    var t1, last1, end1, len1 := JoinSplit(g, r + 1);
    var t2, last2, end2, len2 := JoinSplit(g, target);
    SurveyMeans(g, r + 1, JoinInfo(t1, last1, end1, len1));
    SurveyMeans(g, target, JoinInfo(t2, last2, end2, len2));
    Planned(g, r, JoinInfo(t1, last1, end1, len1), JoinInfo(t2, last2, end2, len2));
    if last1 + 1 == target {
      if Rejoins(t1, end1, t2, end2) {
        h := ConvertBoth(g, r, t1, last1, end1, len1, t2, last2, end2, len2);
        f := end1;
      } else if t1 == End || t1 == Branch {
        h, f := ConvertLeaving(g, r, t1, last1, end1, len1);
      }
    }
  }
}

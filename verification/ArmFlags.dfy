/** Which instructions set the flags, by the words the linker makes of them.

The compiler decides by opcode what may be made conditional (src/cmd/5c/peep.c, `modifiescpsr`).
The linker makes words of the opcodes (src/cmd/5l/asm.c, `oprrr`), and calls of divisions; what a
word does to the flags is in the ARM Architecture Reference Manual.  The two are compared here for
every opcode, and if-conversion is shown right for a machine that runs the words.
*/
module ArmFlags {

  import opened Common
  import opened Opcodes
  import opened Predication
  import ShiftProp

  // ---------------------------------------------------------------- words

  /** The condition and the S bit as the compiler keeps them. */
  function Scond(cond: bv32, sbit: bool): bv32 {
    (cond & 0xf) | (if sbit then 0x10 else 0)
  }

  /** The word for an operation on registers, its operands not yet filled in; none for others. */
  function Oprrr(a: int, sc: bv32): Option<bv32> {
    var o := ((sc & 0xf) << 28) | (if sc & 0x10 != 0 then 1 << 20 else 0);
    if a == AMULU || a == AMUL then Some(o | (0x0 << 21) | (0x9 << 4))
    else if a == AMULA then Some(o | (0x1 << 21) | (0x9 << 4))
    else if a == AMULLU then Some(o | (0x4 << 21) | (0x9 << 4))
    else if a == AMULL then Some(o | (0x6 << 21) | (0x9 << 4))
    else if a == AMULALU then Some(o | (0x5 << 21) | (0x9 << 4))
    else if a == AMULAL then Some(o | (0x7 << 21) | (0x9 << 4))
    else if a == AAND then Some(o | (0x0 << 21))
    else if a == AEOR then Some(o | (0x1 << 21))
    else if a == ASUB then Some(o | (0x2 << 21))
    else if a == ARSB then Some(o | (0x3 << 21))
    else if a == AADD then Some(o | (0x4 << 21))
    else if a == AADC then Some(o | (0x5 << 21))
    else if a == ASBC then Some(o | (0x6 << 21))
    else if a == ARSC then Some(o | (0x7 << 21))
    else if a == ATST then Some(o | (0x8 << 21) | (1 << 20))
    else if a == ATEQ then Some(o | (0x9 << 21) | (1 << 20))
    else if a == ACMP then Some(o | (0xa << 21) | (1 << 20))
    else if a == ACMN then Some(o | (0xb << 21) | (1 << 20))
    else if a == AORR then Some(o | (0xc << 21))
    else if a == AMOVW then Some(o | (0xd << 21))
    else if a == ABIC then Some(o | (0xe << 21))
    else if a == AMVN then Some(o | (0xf << 21))
    else if a == ASLL then Some(o | (0xd << 21) | (0 << 5))
    else if a == ASRL then Some(o | (0xd << 21) | (1 << 5))
    else if a == ASRA then Some(o | (0xd << 21) | (2 << 5))
    else if a == ASWI then Some(o | (0xf << 24))
    else if a == AADDD then Some(o | (0xe << 24) | (0x0 << 20) | (1 << 8) | (1 << 7))
    else if a == AADDF then Some(o | (0xe << 24) | (0x0 << 20) | (1 << 8))
    else if a == AMULD then Some(o | (0xe << 24) | (0x1 << 20) | (1 << 8) | (1 << 7))
    else if a == AMULF then Some(o | (0xe << 24) | (0x1 << 20) | (1 << 8))
    else if a == ASUBD then Some(o | (0xe << 24) | (0x2 << 20) | (1 << 8) | (1 << 7))
    else if a == ASUBF then Some(o | (0xe << 24) | (0x2 << 20) | (1 << 8))
    else if a == ADIVD then Some(o | (0xe << 24) | (0x4 << 20) | (1 << 8) | (1 << 7))
    else if a == ADIVF then Some(o | (0xe << 24) | (0x4 << 20) | (1 << 8))
    else if a == ACMPD || a == ACMPF then Some(o | (0xe << 24) | (0x9 << 20) | (0xF << 12) | (1 << 8) | (1 << 4))
    else if a == AMOVF || a == AMOVDF then Some(o | (0xe << 24) | (0x0 << 20) | (1 << 15) | (1 << 8))
    else if a == AMOVD || a == AMOVFD then Some(o | (0xe << 24) | (0x0 << 20) | (1 << 15) | (1 << 8) | (1 << 7))
    else if a == AMOVWF then Some(o | (0xe << 24) | (0 << 20) | (1 << 8) | (1 << 4))
    else if a == AMOVWD then Some(o | (0xe << 24) | (0 << 20) | (1 << 8) | (1 << 4) | (1 << 7))
    else if a == AMOVFW then Some(o | (0xe << 24) | (1 << 20) | (1 << 8) | (1 << 4))
    else if a == AMOVDW then Some(o | (0xe << 24) | (1 << 20) | (1 << 8) | (1 << 4) | (1 << 7))
    else None
  }

  /** Data processing and multiplication with the S bit (sections A3.4 and A3.5 of the ARM
      Architecture Reference Manual), and a coprocessor's answer to register 15 (section A3.13). */
  predicate WordSetsFlags(w: bv32) {
    || (w & 0x0c00_0000 == 0 && w & 0x0010_0000 != 0)
    || (w & 0x0f10_0010 == 0x0e10_0010 && w & 0x0000_f000 == 0x0000_f000)
  }

  /** Divisions become calls, and after a call nothing is known of the flags. */
  predicate IsCall(a: int) {
    a in {ABL, ADIV, ADIVU, AMOD, AMODU}
  }

  predicate SetsFlags(a: int, cond: bv32, sbit: bool) {
    IsCall(a) || match Oprrr(a, Scond(cond, sbit)) case Some(w) => WordSetsFlags(w) case None => false
  }

  /** What the compiler says is so, but for floating-point compares, which it does not know to set
      the flags, and for multiplications and odd S bits, which it takes to set them. */
  lemma CpsrExact(p: Prog, cond: bv32)
    ensures ModifiesCpsr(p) <==>
              || (SetsFlags(p.op, cond, p.sbit) && !FloatCompare(p.op))
              || p.sbit || p.op == AMUL || p.op == AMULU
    ensures FloatCompare(p.op) ==> SetsFlags(p.op, cond, p.sbit)
  {
  }

  // ---------------------------------------------------------------- a machine that runs the words

  /** The operands of an instruction, what calls and other words leave in the flags, and what
      everything does to the rest of the machine. */
  datatype World = World(
    operands: (nat, Machine) -> (ShiftProp.Word, ShiftProp.Word),
    left: (int, nat, Machine) -> Flags,
    effect: (int, bool, nat, Machine) -> map<int, int>,
    pick: (nat, Machine) -> nat)

  function FlagsAfter(w: World, op: int, sbit: bool, body: nat, m: Machine): Flags {
    var (a, b) := w.operands(body, m);
    if !SetsFlags(op, 14, sbit) then m.flags
    else if op == ACMP then ShiftProp.Sum(a, ShiftProp.Not(b), true).1
    else if op == ACMN then ShiftProp.Sum(a, b, false).1
    else if op == ATST then ShiftProp.Logical(ShiftProp.Bits(ShiftProp.And, a, b), m.flags.c, m.flags).1
    else if op == ATEQ then ShiftProp.Logical(ShiftProp.Bits(ShiftProp.Eor, a, b), m.flags.c, m.flags).1
    else w.left(op, body, m)
  }

  function Arm(w: World): Meaning {
    Meaning((op: int, sbit: bool, body: nat, m: Machine) =>
              Machine(FlagsAfter(w, op, sbit, body, m), w.effect(op, sbit, body, m)), w.pick)
  }

  lemma RunIs(w: World, op: int, sbit: bool, body: nat, m: Machine)
    ensures Arm(w).run(op, sbit, body, m) == Machine(FlagsAfter(w, op, sbit, body, m), w.effect(op, sbit, body, m))
  {
  }

  lemma KeepsFlags(w: World, p: Prog, m: Machine)
    requires !ModifiesCpsr(p) && !FloatCompare(p.op)
    ensures Arm(w).run(p.op, p.sbit, p.body, m).flags == m.flags
  {
    CpsrExact(p, 14);
    RunIs(w, p.op, p.sbit, p.body, m);
  }

  lemma ArmKeepsFlags(w: World)
    ensures FlagsKept(Arm(w))
  {
    forall p: Prog, m: Machine | !ModifiesCpsr(p) && !FloatCompare(p.op)
      ensures Arm(w).run(p.op, p.sbit, p.body, m).flags == m.flags
    {
      KeepsFlags(w, p, m);
    }
  }

  /** Nothing is taken to set the flags that could not change them. */
  lemma FlagsChange(p: Prog) returns (w: World, m: Machine)
    requires SetsFlags(p.op, 14, p.sbit)
    ensures Arm(w).run(p.op, p.sbit, p.body, m).flags != m.flags
  {
    w := ZEROES;
    m := Machine(Flags(false, false, false, false), map[]);
    ZeroBits();
    RunIs(w, p.op, p.sbit, p.body, m);
  }

  lemma ZeroBits()
    ensures ShiftProp.Bits(ShiftProp.And, 0, 0) == 0 && ShiftProp.Bits(ShiftProp.Eor, 0, 0) == 0
  {
    var z := 0 as bv32;
    assert z & z == 0 && z ^ z == 0;
  }

  /** All operands are zero, and whatever else sets the flags finds its operands equal. */
  const ZEROES: World := World((_, _) => (0, 0), (_, _, _) => Flags(false, true, false, false),
                               (_, _, _, m: Machine) => m.cells, (_, _) => 0)

  /** If-conversion on that machine: the code halts in the same states as before. */
  method PredicateOnArm(g0: Graph) returns (g: Graph)
    requires Covers(g0) && Plain(g0, 0)
    ensures forall w: World, m: Machine, m': Machine :: AlikeFrom(g0.code, g.code, Arm(w), m, m')
  {
    ghost var turns;
    g, turns := Predicate(g0);
    forall w: World, m: Machine, m': Machine ensures AlikeFrom(g0.code, g.code, Arm(w), m, m') {
      ArmKeepsFlags(w);
    }
  }

  // ---------------------------------------------------------------- a compare that is missed

  /** A function with a floating-point compare in front of a move, under a branch. */
  function Floating(): Graph {
    Graph([Prog(ATEXT, AL, false, 0, 0), Prog(ACMP, AL, false, 0, 1), Prog(ABEQ, AL, false, 5, 0),
           Prog(ACMPD, AL, false, 0, 2), Prog(AMOVW, AL, false, 0, 3), Prog(ARET, AL, false, 0, 0)],
          [true, true, true, true, true, false], [false, true, true, true, true, true],
          [None, None, Some(5), None, None, None], [0, 0, 0, 0, 0, 1])
  }

  const CONVERTED: seq<Prog> := [
    Prog(ATEXT, AL, false, 0, 0), Prog(ACMP, AL, false, 0, 1), NOP,
    Prog(ACMPD, 1, false, 0, 2), Prog(AMOVW, 1, false, 0, 3), Prog(ARET, AL, false, 0, 0)]

  lemma FloatingIsCovered()
    ensures Covers(Floating())
  {
    var g := Floating();
    assert forall k :: 0 <= k < 6 && g.s2[k].Some? ==> k == 2;
    assert forall j: nat, k: nat :: !BothLead(g.s2, j, k);
  }

  lemma FloatingIsSurveyed()
    ensures Covers(Floating()) && Bounded(Floating()) && Survey(Floating(), 3, 3) == JoinInfo(Join, 4, 5, 2)
    ensures Survey(Floating(), 5, 5).t == Join && Survey(Floating(), 5, 5).end == 5 && Survey(Floating(), 5, 5).len == 0
  {
    var g := Floating();
    FloatingIsCovered();
    assert Weight(g.code, 3, 3) == 0 && Weight(g.code, 3, 4) == 1 && Weight(g.code, 3, 5) == 2;
    assert Survey(g, 3, 5) == JoinInfo(Join, 4, 5, 2);
    assert Survey(g, 3, 4) == JoinInfo(Join, 4, 5, 2);
  }

  /** The pass makes its arm conditional. */
  lemma FloatingIsConverted(h: Graph)
    requires Turned(Floating(), h, 2)
    ensures h.code == CONVERTED
  {
    var g := Floating();
    FloatingIsSurveyed();
    assert Decide(g, 2) == Rejoin;
    var h1, h2 :| Converted(g, h1, h2, h, 2);
    ArmIsConditional(h1);
  }

  lemma ArmIsConditional(h1: Graph)
    requires Sized(h1) && Sized(Floating()) && Conditioned(Floating(), h1, 3, 4, ABEQ, false, false)
    ensures h1.code[2 := NOP] == CONVERTED
  {
    var c := h1.code;
    assert c[0] == Floating().code[0] && c[1] == Floating().code[1] && c[5] == Floating().code[5];
    assert c[3] == Applied(Floating().code[3], ABEQ, false, false);
    assert c[4] == Applied(Floating().code[4], ABEQ, false, false);
  }

  lemma OneHalt(code: seq<Prog>, c: Conf, sem: Meaning, i: nat, j: nat, m: Machine, m': Machine)
    requires After(code, c, sem, i) == Halted(m) && After(code, c, sem, j) == Halted(m') && i <= j
    ensures m == m'
  {
    AfterAdd(code, c, sem, i, j - i);
    HaltedStays(code, m, sem, j - i);
  }

  /** The integers differ, the floating-point numbers are equal, and the move sets a cell. */
  const MOVES: World := World((_, _) => (1, 0), (_, _, _) => Flags(false, true, false, false),
                              (op, _, _, m: Machine) => if op == AMOVW then map[0 := 1] else m.cells, (_, _) => 0)

  function Blank(): Machine {
    Machine(Flags(false, false, false, false), map[])
  }

  /** An instruction that goes on to the next one. */
  predicate Ordinary(op: int) {
    !IsBranch(op) && op !in {ABCASE, ANOP, AB, ACASE} && !Terminal(op)
  }

  lemma OrdinaryStep(code: seq<Prog>, k: nat, m: Machine, sem: Meaning)
    requires k < |code| && Ordinary(code[k].op)
    ensures Step(code, At(k, m), sem)
            == var p := code[k]; At(k + 1, if Passes(p.cond, m.flags) then sem.run(p.op, p.sbit, p.body, m) else m)
  {
  }

  /** What the instructions of the function do. */
  lemma KeepsAll(op: int, body: nat, m: Machine)
    requires op == ATEXT || op == ARET
    ensures Arm(MOVES).run(op, false, body, m) == m
  {
    RunIs(MOVES, op, false, body, m);
  }

  lemma Compares(body: nat, m: Machine)
    ensures Arm(MOVES).run(ACMP, false, body, m).cells == m.cells && !Arm(MOVES).run(ACMP, false, body, m).flags.z
  {
    RunIs(MOVES, ACMP, false, body, m);
  }

  lemma ComparesFloats(body: nat, m: Machine)
    ensures Arm(MOVES).run(ACMPD, false, body, m) == Machine(Flags(false, true, false, false), m.cells)
  {
    RunIs(MOVES, ACMPD, false, body, m);
  }

  lemma Moves(body: nat, m: Machine)
    ensures Arm(MOVES).run(AMOVW, false, body, m) == Machine(m.flags, map[0 := 1])
  {
    RunIs(MOVES, AMOVW, false, body, m);
  }

  /** Steps one after the other. */
  lemma {:induction false} Steps(code: seq<Prog>, sem: Meaning, c: seq<Conf>, i: nat)
    requires i < |c| && forall j :: 0 <= j < |c| - 1 ==> Step(code, c[j], sem) == c[j + 1]
    ensures After(code, c[i], sem, |c| - 1 - i) == c[|c| - 1]
    decreases |c| - i
  {
    if i < |c| - 1 {
      Steps(code, sem, c, i + 1);
    }
  }

  /** Both start alike, up to the compare of integers, and end with the return. */
  lemma Ends(code: seq<Prog>, m: Machine, m1: Machine, m2: Machine)
    requires |code| == 6 && code[0] == Prog(ATEXT, AL, false, 0, 0) && code[1] == Prog(ACMP, AL, false, 0, 1)
    requires code[5] == Prog(ARET, AL, false, 0, 0) && m1 == Arm(MOVES).run(ACMP, false, 1, m)
    ensures Step(code, At(0, m), Arm(MOVES)) == At(1, m) && Step(code, At(1, m), Arm(MOVES)) == At(2, m1)
    ensures Step(code, At(5, m2), Arm(MOVES)) == Halted(m2)
  {
    OrdinaryStep(code, 0, m, Arm(MOVES));
    KeepsAll(ATEXT, 0, m);
    OrdinaryStep(code, 1, m, Arm(MOVES));
    KeepsAll(ARET, 0, m2);
  }

  /** The compare of floats and the move, under `cond`. */
  lemma Middle(code: seq<Prog>, cond: int, m: Machine)
    requires |code| == 6 && code[3] == Prog(ACMPD, cond, false, 0, 2) && code[4] == Prog(AMOVW, cond, false, 0, 3)
    requires (cond == AL || cond == 1) && !m.flags.z
    ensures var m2 := Machine(Flags(false, true, false, false), m.cells);
            && Step(code, At(3, m), Arm(MOVES)) == At(4, m2)
            && Step(code, At(4, m2), Arm(MOVES)) == At(5, if cond == AL then Machine(m2.flags, map[0 := 1]) else m2)
  {
    var m2 := Machine(Flags(false, true, false, false), m.cells);
    OrdinaryStep(code, 3, m, Arm(MOVES));
    ComparesFloats(2, m);
    OrdinaryStep(code, 4, m2, Arm(MOVES));
    Moves(3, m2);
  }

  lemma FloatingRuns(m: Machine)
    ensures After(Floating().code, At(0, m), Arm(MOVES), 6)
            == Halted(Machine(Flags(false, true, false, false), map[0 := 1]))
  {
    var code, m1 := Floating().code, Arm(MOVES).run(ACMP, false, 1, m);
    var m2 := Machine(Flags(false, true, false, false), m1.cells);
    var m3 := Machine(m2.flags, map[0 := 1]);
    Compares(1, m);
    Ends(code, m, m1, m3);
    Middle(code, AL, m1);
    Steps(code, Arm(MOVES), [At(0, m), At(1, m), At(2, m1), At(3, m1), At(4, m2), At(5, m3), Halted(m3)], 0);
  }

  lemma ConvertedRuns(m: Machine)
    ensures After(CONVERTED, At(0, m), Arm(MOVES), 6)
            == Halted(Machine(Flags(false, true, false, false), m.cells))
  {
    var code, m1 := CONVERTED, Arm(MOVES).run(ACMP, false, 1, m);
    var m2 := Machine(Flags(false, true, false, false), m1.cells);
    Compares(1, m);
    Ends(code, m, m1, m2);
    Middle(code, 1, m1);
    Steps(code, Arm(MOVES), [At(0, m), At(1, m), At(2, m1), At(3, m1), At(4, m2), At(5, m2), Halted(m2)], 0);
  }

  /** A floating-point compare inside an arm is missed: the pass makes the arm conditional, and
      the instructions behind the compare go by its outcome and not by the branch's. */
  lemma CompareIsMissed(h: Graph) returns (w: World, m: Machine, m': Machine)
    requires Turned(Floating(), h, 2)
    ensures !AlikeFrom(Floating().code, h.code, Arm(w), m, m')
  {
    w, m := MOVES, Blank();
    FloatingIsConverted(h);
    FloatingRuns(m);
    ConvertedRuns(m);
    m' := Machine(Flags(false, true, false, false), map[0 := 1]);
    assert 0 in m'.cells;
    var sem := Arm(w);
    if Halts(CONVERTED, At(0, m), sem, m') {
      var k: nat :| After(CONVERTED, At(0, m), sem, k) == Halted(m');
      var other := Machine(Flags(false, true, false, false), m.cells);
      if k <= 6 {
        OneHalt(CONVERTED, At(0, m), sem, k, 6, m', other);
      } else {
        OneHalt(CONVERTED, At(0, m), sem, 6, k, other, m');
      }
    }
    assert Halts(Floating().code, At(0, m), sem, m');
  }
}

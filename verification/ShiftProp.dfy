/**
 * Folding a shift into the operand of a later instruction (src/cmd/5c/peep.c, `shiftprop`),
 * on straight-line ARM code.
 *
 * Sums and flags are those of the ARM.  Loads, stores, narrowing moves, products, quotients, bitwise
 * operations and shifts are whatever the environment says, so that all of this holds for every
 * meaning of them; only that AND, ORR and EOR commute is asked for.  A constant amount is what the
 * linker makes of it, five bits.
 */
module ShiftProp {

  import opened Word32
  import Predication

  type Flags = Predication.Flags
  type Word = x: int | 0 <= x < 0x1_0000_0000
  type Memory = map<Word, Word>

  const NREG: nat := 16

  datatype Opcode =
    And | Eor | Sub | Rsb | Add | Adc | Sbc | Rsc | Cmp | Cmn | Orr | Bic | Mvn |
    Sll | Srl | Sra | Mul | Div | Divu | Movw | Movh | Movhu | Movb | Movbu | Nop | Jump | Unknown

  datatype Amount = Field(bits: nat) | Register(reg: nat)
  datatype Adr = Empty | Const(offset: Word) | Reg(reg: nat) | Oreg(base: nat, offset: Word) | Shift(kind: Opcode, reg: nat, amount: Amount)
  datatype Instr = Instr(op: Opcode, from: Adr, reg: nat, to: Adr, sbit: bool)

  type Regs = r: seq<Word> | |r| == NREG witness seq(NREG, _ => 0)

  datatype Cpu = Cpu(r: Regs, f: Flags, m: Memory)

  datatype Env = Env(
    load: (Opcode, Memory, Word) -> Word,
    store: (Opcode, Memory, Word, Word) -> Memory,
    narrow: (Opcode, Word) -> Word,
    mul: (Opcode, Word, Word) -> Word,
    bits: (Opcode, Word, Word) -> Word,
    shift: (Opcode, Word, nat) -> Word,
    carry: (Opcode, Word, nat, bool) -> bool,
    other: (Instr, Cpu) -> Cpu)

  /** The only thing asked of the environment: the bitwise operations that can be swapped commute. */
  ghost predicate Lawful(env: Env) {
    && (forall a, b :: env.bits(And, a, b) == env.bits(And, b, a))
    && (forall a, b :: env.bits(Orr, a, b) == env.bits(Orr, b, a))
    && (forall a, b :: env.bits(Eor, a, b) == env.bits(Eor, b, a))
  }

  // ----- arithmetic -----

  function Low(x: int): Word {
    x % 0x1_0000_0000
  }

  function Not(x: Word): Word {
    0xffff_ffff - x
  }

  function Signed(x: Word): int {
    if x < 0x8000_0000 then x else x - 0x1_0000_0000
  }

  function Bit(c: bool): int {
    if c then 1 else 0
  }

  /** A sum with carry, and the four flags it sets. */
  function Sum(a: Word, b: Word, c: bool): (Word, Flags) {
    var r := Low(a + b + Bit(c));
    (r, Predication.Flags.Flags(r >= 0x8000_0000, r == 0, a + b + Bit(c) >= 0x1_0000_0000,
                                Signed(r) != Signed(a) + Signed(b) + Bit(c)))
  }

  /** The carry of a logical operation is `c`, that of its shifter. */
  function Logical(r: Word, c: bool, f: Flags): (Word, Flags) {
    (r, Predication.Flags.Flags(r >= 0x8000_0000, r == 0, c, f.v))
  }

  /** A five-bit field: zero stands for 32 except in a left shift. */
  function FieldAmount(kind: Opcode, n: nat): nat {
    if n == 0 && kind != Sll then 32 else n
  }

  predicate IsLogical(op: Opcode) {
    op in {And, Eor, Orr, Bic, Mvn}
  }

  predicate IsCompare(op: Opcode) {
    op == Cmp || op == Cmn
  }

  predicate IsShift(op: Opcode) {
    op in {Sll, Srl, Sra}
  }

  predicate IsMove(op: Opcode) {
    op in {Movw, Movh, Movhu, Movb, Movbu}
  }

  /** Result and flags of an operation on `a`, the plain register, and `b`, the flexible operand. */
  function Alu(op: Opcode, a: Word, b: Word, f: Flags, c: bool, env: Env): (Word, Flags) {
    match op
    case Add => Sum(a, b, false)
    case Cmn => Sum(a, b, false)
    case Adc => Sum(a, b, f.c)
    case Sub => Sum(a, Not(b), true)
    case Cmp => Sum(a, Not(b), true)
    case Rsb => Sum(b, Not(a), true)
    case Sbc => Sum(a, Not(b), f.c)
    case Rsc => Sum(b, Not(a), f.c)
    case Mvn => Logical(Not(b), c, f)
    case _ => Logical(env.bits(op, a, b), c, f)
  }

  predicate IsAlu(op: Opcode) {
    op in {And, Eor, Sub, Rsb, Add, Adc, Sbc, Rsc, Cmp, Cmn, Orr, Bic, Mvn}
  }

  // ----- instructions -----

  /** A general register that the compiler may allocate: not the program counter. */
  predicate General(r: nat) {
    r < 15
  }

  predicate GoodOperand(a: Adr) {
    match a
    case Const(_) => true
    case Reg(r) => General(r)
    case Shift(kind, r, amount) => IsShift(kind) && General(r) && (amount.Register? ==> General(amount.reg))
    case _ => false
  }

  predicate GoodPlace(a: Adr) {
    match a
    case Reg(r) => General(r)
    case Oreg(r, _) => General(r)
    case _ => false
  }

  /** The forms of instruction the compiler makes: two or three operands, a register result. */
  predicate Good(p: Instr) {
    if p.op == Nop || p.op == Jump then p.from == Empty && p.to == Empty
    else if IsMove(p.op) then (GoodOperand(p.from) || GoodPlace(p.from)) && GoodPlace(p.to) && p.reg == NREG
    else if p.op == Unknown then true
    else
      && (if IsShift(p.op) then (p.from.Const? || p.from.Reg?) && GoodOperand(p.from) else GoodOperand(p.from))
      && (p.reg == NREG || General(p.reg))
      && (if IsCompare(p.op) then p.to == Empty && p.reg != NREG else p.to.Reg? && General(p.to.reg))
  }

  /** The plain register operand: the result's register when none is named. */
  function Second(p: Instr): nat {
    if p.reg == NREG && p.to.Reg? then p.to.reg else p.reg
  }

  /** The amount a shifted operand is shifted by: a field, or the low byte of a register. */
  function OperandAmount(a: Adr, s: Cpu): nat
    requires GoodOperand(a) && a.Shift?
  {
    match a.amount
    case Field(n) => FieldAmount(a.kind, n)
    case Register(y) => s.r[y] % 256
  }

  /** The flexible operand. */
  function Operand(a: Adr, s: Cpu, env: Env): Word
    requires GoodOperand(a)
  {
    match a
    case Const(v) => v
    case Reg(r) => s.r[r]
    case Shift(kind, x, _) => env.shift(kind, s.r[x], OperandAmount(a, s))
  }

  /** The carry out of the flexible operand; an unshifted operand leaves the carry alone. */
  function ShifterCarry(a: Adr, s: Cpu, env: Env): bool
    requires GoodOperand(a)
  {
    if a.Shift? then env.carry(a.kind, s.r[a.reg], OperandAmount(a, s), s.f.c) else s.f.c
  }

  /** The amount of a shift instruction: five bits of a constant, or the low byte of a register. */
  function ShiftAmount(p: Instr, s: Cpu): nat
    requires Good(p) && IsShift(p.op)
  {
    if p.from.Const? then FieldAmount(p.op, p.from.offset % 32) else s.r[p.from.reg] % 256
  }

  function ShiftResult(p: Instr, s: Cpu, env: Env): Word
    requires Good(p) && IsShift(p.op)
  {
    env.shift(p.op, s.r[Second(p)], ShiftAmount(p, s))
  }

  function Set(s: Cpu, n: nat, w: Word): Cpu
    requires n < NREG
  {
    s.(r := s.r[n := w])
  }

  function Put(p: Instr, res: (Word, Flags), s: Cpu): Cpu
    requires p.to.Reg? ==> p.to.reg < NREG
  {
    var t := if p.to.Reg? then Set(s, p.to.reg, res.0) else s;
    if p.sbit || IsCompare(p.op) then t.(f := res.1) else t
  }

  function Address(a: Adr, s: Cpu): Word
    requires GoodPlace(a) && a.Oreg?
  {
    Low(s.r[a.base] + a.offset)
  }

  /** The value a move carries. */
  function Moved(p: Instr, s: Cpu, env: Env): Word
    requires Good(p) && IsMove(p.op)
  {
    if p.from.Oreg? then env.load(p.op, s.m, Address(p.from, s))
    else env.narrow(p.op, Operand(p.from, s, env))
  }

  function Move(p: Instr, v: Word, s: Cpu, env: Env): Cpu
    requires Good(p) && IsMove(p.op)
  {
    if p.to.Reg? then Put(p, Logical(v, s.f.c, s.f), s)
    else s.(m := env.store(p.op, s.m, Address(p.to, s), v))
  }

  predicate Computes(op: Opcode) {
    IsAlu(op) || IsShift(op) || op in {Mul, Div, Divu}
  }

  /** Result and flags of an instruction that computes. */
  function Result(p: Instr, s: Cpu, env: Env): (Word, Flags)
    requires Good(p) && Computes(p.op)
  {
    if IsAlu(p.op) then Alu(p.op, s.r[Second(p)], Operand(p.from, s, env), s.f, ShifterCarry(p.from, s, env), env)
    else if IsShift(p.op) then Logical(ShiftResult(p, s, env), s.f.c, s.f)
    else Logical(env.mul(p.op, s.r[Second(p)], Operand(p.from, s, env)), s.f.c, s.f)
  }

  /** One instruction.  The code is a trace, in which a jump does nothing; an instruction that is
      not known may do anything. */
  function Exec(p: Instr, s: Cpu, env: Env): Cpu
    requires Good(p)
  {
    if Computes(p.op) then Put(p, Result(p, s, env), s)
    else if IsMove(p.op) then Move(p, Moved(p, s, env), s, env)
    else if p.op == Unknown then env.other(p, s)
    else s
  }

  // ----- use and definition of a register -----

  predicate Direct(a: Adr, n: nat) {
    a == Reg(n)
  }

  /** Direct or indirect reference. */
  predicate Mentions(a: Adr, n: nat) {
    match a
    case Reg(r) => r == n
    case Oreg(r, _) => r == n
    case Shift(_, r, amount) => r == n || (amount.Register? && amount.reg == n)
    case _ => false
  }

  predicate ReadReadWrite(op: Opcode) {
    op in {Add, Sub, Rsb, Sll, Srl, Sra, Orr, And, Eor, Mul, Div, Divu, Cmp, Cmn}
  }

  /** What an instruction does to register `n`: 0 nothing, 1 uses it, 2 anything, 3 sets it, 4 sets and uses it. */
  function CopyU(p: Instr, n: nat): int {
    if p.op == Nop || IsMove(p.op) then
      if Direct(p.to, n) then if Mentions(p.from, n) then 4 else 3
      else if Mentions(p.from, n) || Mentions(p.to, n) then 1
      else 0
    else if ReadReadWrite(p.op) then
      if Direct(p.to, n) then if Mentions(p.from, n) || p.reg == NREG || p.reg == n then 4 else 3
      else if Mentions(p.from, n) || p.reg == n || Mentions(p.to, n) then 1
      else 0
    else if p.op == Jump then 0
    else 2
  }

  /** The rewriting that goes with the question: a result in `n` gets its operand named. */
  function Named(p: Instr, n: nat): Instr {
    if ReadReadWrite(p.op) && Direct(p.to, n) && p.reg == NREG then p.(reg := p.to.reg) else p
  }

  lemma NamedIsSame(p: Instr, n: nat, s: Cpu, env: Env)
    requires Good(p)
    ensures Good(Named(p, n)) && Exec(Named(p, n), s, env) == Exec(p, s, env)
  {
  }

  lemma SetSet(s: Cpu, n: nat, m: nat, v: Word, w: Word)
    requires n < NREG && m < NREG
    ensures n != m ==> Set(Set(s, n, v), m, w) == Set(Set(s, m, w), n, v)
    ensures n == m ==> Set(Set(s, n, v), m, w) == Set(s, m, w)
  {
    assert n != m ==> s.r[n := v][m := w] == s.r[m := w][n := v];
    assert n == m ==> s.r[n := v][m := w] == s.r[m := w];
  }

  lemma OperandElsewhere(a: Adr, s: Cpu, n: nat, w: Word, env: Env)
    requires GoodOperand(a) && n < NREG && !Mentions(a, n)
    ensures Operand(a, Set(s, n, w), env) == Operand(a, s, env)
    ensures ShifterCarry(a, Set(s, n, w), env) == ShifterCarry(a, s, env)
  {
  }

  lemma PutElsewhere(p: Instr, res: (Word, Flags), s: Cpu, n: nat, w: Word)
    requires n < NREG && (p.to.Reg? ==> p.to.reg < NREG)
    ensures p.to != Reg(n) ==> Put(p, res, Set(s, n, w)) == Set(Put(p, res, s), n, w)
    ensures p.to == Reg(n) ==> Put(p, res, Set(s, n, w)) == Put(p, res, s)
  {
    if p.to.Reg? {
      SetSet(s, n, p.to.reg, w, res.0);
    }
  }

  /** The result does not depend on a register that is not used. */
  lemma ResultElsewhere(p: Instr, s: Cpu, n: nat, w: Word, env: Env)
    requires Good(p) && Computes(p.op) && n < NREG && !Mentions(p.from, n) && Second(p) != n
    ensures Result(p, Set(s, n, w), env) == Result(p, s, env)
  {
    OperandElsewhere(p.from, s, n, w, env);
  }

  lemma AddressElsewhere(a: Adr, s: Cpu, n: nat, w: Word)
    requires GoodPlace(a) && a.Oreg? && n < NREG && !Mentions(a, n)
    ensures Address(a, Set(s, n, w)) == Address(a, s)
  {
  }

  lemma MovedElsewhere(p: Instr, s: Cpu, n: nat, w: Word, env: Env)
    requires Good(p) && IsMove(p.op) && n < NREG && !Mentions(p.from, n)
    ensures Moved(p, Set(s, n, w), env) == Moved(p, s, env)
  {
    if p.from.Oreg? {
      AddressElsewhere(p.from, s, n, w);
    } else {
      OperandElsewhere(p.from, s, n, w, env);
    }
  }

  lemma MoveElsewhere(p: Instr, v: Word, s: Cpu, n: nat, w: Word, env: Env)
    requires Good(p) && IsMove(p.op) && n < NREG
    ensures !Mentions(p.to, n) ==> Move(p, v, Set(s, n, w), env) == Set(Move(p, v, s, env), n, w)
    ensures p.to == Reg(n) ==> Move(p, v, Set(s, n, w), env) == Move(p, v, s, env)
  {
    if p.to.Reg? {
      PutElsewhere(p, Logical(v, s.f.c, s.f), s, n, w);
    } else if p.to.base != n {
      AddressElsewhere(p.to, s, n, w);
    }
  }

  /** An instruction that neither uses nor sets a register commutes with setting it. */
  lemma Untouched(p: Instr, n: nat, s: Cpu, w: Word, env: Env)
    requires Good(p) && n < NREG && CopyU(p, n) == 0
    ensures Exec(p, Set(s, n, w), env) == Set(Exec(p, s, env), n, w)
  {
    if Computes(p.op) {
      ResultElsewhere(p, s, n, w, env);
      PutElsewhere(p, Result(p, s, env), s, n, w);
    } else if IsMove(p.op) {
      MovedElsewhere(p, s, n, w, env);
      MoveElsewhere(p, Moved(p, s, env), s, n, w, env);
    }
  }

  /** An instruction that at most uses a register leaves it as it was. */
  lemma NotSet(p: Instr, n: nat, s: Cpu, env: Env)
    requires Good(p) && n < NREG && 0 <= CopyU(p, n) <= 1
    ensures Exec(p, s, env).r[n] == s.r[n]
  {
  }

  /** An instruction that sets a register without using it forgets what was there. */
  lemma SetNotUsed(p: Instr, n: nat, s: Cpu, w: Word, env: Env)
    requires Good(p) && n < NREG && CopyU(p, n) == 3
    ensures Exec(p, Set(s, n, w), env) == Exec(p, s, env)
  {
    if Computes(p.op) {
      ResultElsewhere(p, s, n, w, env);
      PutElsewhere(p, Result(p, s, env), s, n, w);
    } else {
      MovedElsewhere(p, s, n, w, env);
      MoveElsewhere(p, Moved(p, s, env), s, n, w, env);
    }
  }

  /** The bitwise operations themselves. */
  function Bits(op: Opcode, a: Word, b: Word): Word {
    var x, y := a as bv32, b as bv32;
    (if op == And then x & y else if op == Orr then x | y else if op == Eor then x ^ y else x & !y) as Word
  }

  /** Whatever the rest of it does, a machine with these operations is lawful. */
  lemma BitsAreLawful(env: Env)
    requires forall op, a, b :: env.bits(op, a, b) == Bits(op, a, b)
    ensures Lawful(env)
  {
    forall a: Word, b: Word, op | op in {And, Orr, Eor} ensures Bits(op, a, b) == Bits(op, b, a) {
      BitsCommute(op, a, b);
    }
  }

  lemma BitsCommute(op: Opcode, a: Word, b: Word)
    requires op in {And, Orr, Eor}
    ensures Bits(op, a, b) == Bits(op, b, a)
  {
    var x, y := a as bv32, b as bv32;
    assert x & y == y & x;
    assert x | y == y | x;
    assert x ^ y == y ^ x;
  }

  // ----- swapping operands -----

  predicate Swappable(op: Opcode) {
    op in {And, Eor, Add, Adc, Orr, Sub, Rsb, Sbc, Rsc}
  }

  function Reversed(op: Opcode): Opcode {
    match op
    case Sub => Rsb
    case Rsb => Sub
    case Sbc => Rsc
    case Rsc => Sbc
    case _ => op
  }

  function Swapped(p: Instr, n: nat): Instr
    requires p.from.Reg?
  {
    p.(op := Reversed(p.op), reg := p.from.reg, from := Reg(n))
  }

  lemma AluSwaps(op: Opcode, a: Word, b: Word, f: Flags, c: bool, env: Env)
    requires Swappable(op) && Lawful(env)
    ensures Alu(Reversed(op), b, a, f, c, env) == Alu(op, a, b, f, c, env)
  {
  }

  /** Exchanging the operands, and the operation with its reverse, changes nothing. */
  lemma SwapIsSame(p: Instr, n: nat, s: Cpu, env: Env)
    requires Good(p) && Swappable(p.op) && p.from.Reg? && Second(p) == n && Lawful(env)
    ensures Good(Swapped(p, n)) && Exec(Swapped(p, n), s, env) == Exec(p, s, env)
  {
    var a, b := s.r[n], s.r[p.from.reg];
    AluSwaps(p.op, a, b, s.f, s.f.c, env);
    AluResult(p, s, env);
    AluResult(Swapped(p, n), s, env);
  }

  // ----- folding -----

  /** The instruction with the shift `p` as its flexible operand. */
  function Folded(p: Instr, q: Instr): Instr
    requires Good(p) && IsShift(p.op)
  {
    q.(from := Shift(p.op, Second(p), if p.from.Const? then Field(p.from.offset % 32) else Register(p.from.reg)))
  }

  /** What the pass meets: no S bit where the shifter's carry would show. */
  predicate Plain(p: Instr) {
    Good(p) && (p.sbit ==> !IsShift(p.op) && !IsLogical(p.op))
  }

  /** The shifted operand is what the shift would have left in its result. */
  lemma FoldedOperand(p: Instr, q: Instr, s: Cpu, env: Env)
    requires Good(p) && IsShift(p.op)
    ensures GoodOperand(Folded(p, q).from) && Operand(Folded(p, q).from, s, env) == ShiftResult(p, s, env)
  {
  }

  lemma AluCarry(op: Opcode, a: Word, a': Word, b: Word, f: Flags, c: bool, c': bool, env: Env)
    requires IsAlu(op) && (a == a' || op == Mvn)
    ensures Alu(op, a, b, f, c, env).0 == Alu(op, a', b, f, c', env).0
    ensures !IsLogical(op) ==> Alu(op, a, b, f, c, env) == Alu(op, a', b, f, c', env)
  {
  }

  lemma FoldResult(p: Instr, q: Instr, s: Cpu, env: Env)
    requires Good(p) && IsShift(p.op) && Good(q) && Good(Folded(p, q)) && IsAlu(q.op)
    requires var n := p.to.reg; q.from == Reg(n) && (q.op == Mvn || Second(q) != n)
    ensures var old', new' := Result(q, Set(s, p.to.reg, ShiftResult(p, s, env)), env), Result(Folded(p, q), s, env);
            old'.0 == new'.0 && (!IsLogical(q.op) ==> old' == new')
  {
    var n, v, q' := p.to.reg, ShiftResult(p, s, env), Folded(p, q);
    var t := Set(s, n, v);
    FoldedOperand(p, q, s, env);
    ResultWith(q, s, n, v, env);
    AluCarry(q.op, t.r[Second(q)], s.r[Second(q)], v, s.f, s.f.c, ShifterCarry(q'.from, s, env), env);
    AluResult(q', s, env);
  }

  /** The result of a use that finds `v` in its register `n`. */
  lemma ResultWith(q: Instr, s: Cpu, n: nat, v: Word, env: Env)
    requires Good(q) && IsAlu(q.op) && n < NREG && q.from == Reg(n) && (q.op == Mvn || Second(q) != n)
    ensures var t := Set(s, n, v);
            && Result(q, t, env) == Alu(q.op, t.r[Second(q)], v, s.f, s.f.c, env)
            && (q.op == Mvn || t.r[Second(q)] == s.r[Second(q)])
  {
    AluResult(q, Set(s, n, v), env);
  }

  lemma AluResult(q: Instr, s: Cpu, env: Env)
    requires Good(q) && IsAlu(q.op)
    ensures Result(q, s, env) == Alu(q.op, s.r[Second(q)], Operand(q.from, s, env), s.f, ShifterCarry(q.from, s, env), env)
  {
  }

  lemma SamePut(q: Instr, from: Adr, a: (Word, Flags), b: (Word, Flags), s: Cpu)
    requires (q.to.Reg? ==> q.to.reg < NREG) && a.0 == b.0 && (q.sbit || IsCompare(q.op) ==> a == b)
    ensures Put(q, a, s) == Put(q.(from := from), b, s)
  {
  }

  lemma FoldPut(q: Instr, from: Adr, a: (Word, Flags), b: (Word, Flags), s: Cpu, n: nat, v: Word)
    requires n < NREG && (q.to.Reg? ==> q.to.reg < NREG) && a.0 == b.0 && (q.sbit || IsCompare(q.op) ==> a == b)
    ensures Put(q, a, Set(s, n, v))
            == var t := Put(q.(from := from), b, s); if q.to == Reg(n) then t else Set(t, n, v)
  {
    PutElsewhere(q, a, s, n, v);
    SamePut(q, from, a, b, s);
  }

  /** The folded instruction in a state without the shift does what the instruction did with it. */
  lemma FoldIsSame(p: Instr, q: Instr, s: Cpu, env: Env)
    requires Good(p) && IsShift(p.op) && Plain(q) && IsAlu(q.op)
    requires var n := p.to.reg; q.from == Reg(n) && (q.op == Mvn || Second(q) != n)
    ensures var n, v := p.to.reg, ShiftResult(p, s, env);
            && Plain(Folded(p, q))
            && Exec(q, Set(s, n, v), env)
               == (if q.to == Reg(n) then Exec(Folded(p, q), s, env) else Set(Exec(Folded(p, q), s, env), n, v))
  {
    var n, v, q' := p.to.reg, ShiftResult(p, s, env), Folded(p, q);
    FoldedIsPlain(p, q);
    FoldResult(p, q, s, env);
    FoldPut(q, q'.from, Result(q, Set(s, n, v), env), Result(q', s, env), s, n, v);
  }

  // ----- runs -----

  predicate AllPlain(code: seq<Instr>) {
    forall k :: 0 <= k < |code| ==> Plain(code[k])
  }

  predicate AllGood(code: seq<Instr>) {
    forall k :: 0 <= k < |code| ==> Good(code[k])
  }

  type Step = (Instr, Cpu) -> Cpu

  /** The state after the instructions from `i` up to `j`, for any meaning of a single one. */
  function Run(code: seq<Instr>, i: nat, j: nat, s: Cpu, f: Step): Cpu
    requires i <= j <= |code|
    decreases j
  {
    if i == j then s else f(code[j - 1], Run(code, i, j - 1, s, f))
  }

  lemma {:induction false} RunSplit(code: seq<Instr>, i: nat, k: nat, j: nat, s: Cpu, f: Step)
    requires i <= k <= j <= |code|
    ensures Run(code, i, j, s, f) == Run(code, k, j, Run(code, i, k, s, f), f)
    decreases j
  {
    if k < j {
      RunSplit(code, i, k, j - 1, s, f);
    }
  }

  ghost predicate Alike(p: Instr, q: Instr, f: Step) {
    forall t :: f(p, t) == f(q, t)
  }

  lemma {:induction false} RunAlike(c: seq<Instr>, d: seq<Instr>, i: nat, j: nat, s: Cpu, f: Step)
    requires i <= j <= |c| == |d| && forall k :: i <= k < j ==> Alike(c[k], d[k], f)
    ensures Run(c, i, j, s, f) == Run(d, i, j, s, f)
    decreases j
  {
    if i < j {
      RunAlike(c, d, i, j - 1, s, f);
      assert Alike(c[j - 1], d[j - 1], f);
    }
  }

  /** A change of state that an instruction carries over. */
  ghost predicate Carries(q: Instr, d: Cpu -> Cpu, f: Step) {
    forall t {:trigger f(q, d(t))} :: f(q, d(t)) == d(f(q, t))
  }

  lemma {:induction false} RunCarries(code: seq<Instr>, i: nat, j: nat, s: Cpu, d: Cpu -> Cpu, f: Step)
    requires i <= j <= |code| && forall k :: i <= k < j ==> Carries(code[k], d, f)
    ensures Run(code, i, j, d(s), f) == d(Run(code, i, j, s, f))
    decreases j
  {
    if i < j {
      RunCarries(code, i, j - 1, s, d, f);
      assert Carries(code[j - 1], d, f);
    }
  }

  /** The meaning of single instructions under an environment. */
  function Machine(env: Env): Step {
    (p, s) => if Good(p) then Exec(p, s, env) else s
  }

  // ----- the window from the shift to the next definition of its result -----

  /** Neither the result nor the operands of the shift `p` are touched. */
  predicate Passes(q: Instr, p: Instr) {
    && p.to.Reg? && CopyU(q, p.to.reg) == 0
    && (p.from.Reg? ==> CopyU(q, p.from.reg) <= 1)
    && (p.reg != NREG && p.reg != p.to.reg ==> CopyU(q, p.reg) <= 1)
  }

  lemma CopyUPositive(q: Instr, n: nat)
    ensures CopyU(q, n) >= 0
  {
  }

  /** Such an instruction leaves what the shift would compute as it is. */
  lemma ShiftKept(p: Instr, q: Instr, s: Cpu, env: Env)
    requires Good(p) && IsShift(p.op) && Good(q) && Passes(q, p)
    ensures ShiftResult(p, Exec(q, s, env), env) == ShiftResult(p, s, env)
  {
    CopyUPositive(q, Second(p));
    NotSet(q, Second(p), s, env);
    if p.from.Reg? {
      CopyUPositive(q, p.from.reg);
      NotSet(q, p.from.reg, s, env);
    }
  }

  /** The state with the shift done, and the state with a value in a register. */
  function WithShift(p: Instr, env: Env): Cpu -> Cpu
    requires Good(p) && IsShift(p.op)
  {
    t => Set(t, p.to.reg, ShiftResult(p, t, env))
  }

  function WithValue(n: nat, w: Word): Cpu -> Cpu
    requires n < NREG
  {
    t => Set(t, n, w)
  }

  lemma PassesCarries(p: Instr, q: Instr, env: Env)
    requires Good(p) && IsShift(p.op) && Good(q) && Passes(q, p)
    ensures Carries(q, WithShift(p, env), Machine(env))
  {
    forall t ensures Machine(env)(q, WithShift(p, env)(t)) == WithShift(p, env)(Machine(env)(q, t)) {
      Untouched(q, p.to.reg, t, ShiftResult(p, t, env), env);
      ShiftKept(p, q, t, env);
    }
  }

  lemma UntouchedCarries(q: Instr, n: nat, w: Word, env: Env)
    requires Good(q) && n < NREG && CopyU(q, n) == 0
    ensures Carries(q, WithValue(n, w), Machine(env))
  {
    forall t ensures Machine(env)(q, WithValue(n, w)(t)) == WithValue(n, w)(Machine(env)(q, t)) {
      Untouched(q, n, t, w, env);
    }
  }

  const NOP: Instr := Instr(Nop, Empty, NREG, Empty, false)

  /** The instruction `q` can take the result of the shift `p` as a shifted operand. */
  predicate CanTake(q: Instr, p: Instr) {
    p.to.Reg? && TakesNow(q, p.to.reg)
  }

  predicate TakesNow(q: Instr, n: nat) {
    IsAlu(q.op) && q.from == Reg(n) && (q.op == Mvn || Second(q) != n)
  }

  /** From the shift at `i` over its one use at `j` to the next definition of its result just before `m`. */
  ghost predicate Window(code: seq<Instr>, i: nat, j: nat, m: nat) {
    && i < j < m <= |code| && IsShift(code[i].op)
    && (forall k :: i < k < j ==> Passes(code[k], code[i]))
    && CanTake(code[j], code[i])
    && var n := code[i].to.reg;
    && if code[j].to == Reg(n) then m == j + 1
       else j + 1 < m && (forall k :: j < k < m - 1 ==> CopyU(code[k], n) == 0) && CopyU(code[m - 1], n) == 3
  }

  /** The code with the shift gone and its use folded. */
  function Elided(code: seq<Instr>, i: nat, j: nat): seq<Instr>
    requires i < j < |code| && Good(code[i]) && IsShift(code[i].op)
  {
    code[i := NOP][j := Folded(code[i], code[j])]
  }

  lemma AlikeItself(c: seq<Instr>, d: seq<Instr>, i: nat, j: nat, s: Cpu, f: Step)
    requires i <= j <= |c| == |d| && forall k :: i <= k < j ==> c[k] == d[k]
    ensures Run(c, i, j, s, f) == Run(d, i, j, s, f)
  {
    forall k | i <= k < j ensures Alike(c[k], d[k], f) { }
    RunAlike(c, d, i, j, s, f);
  }

  /** One code starts with a change of state, the other with nothing. */
  lemma HeadIsSame(code: seq<Instr>, d: seq<Instr>, i: nat, j: nat, s: Cpu, w: Cpu -> Cpu, f: Step)
    requires i < j <= |code| == |d| && f(code[i], s) == w(s) && f(d[i], s) == s
    requires forall k :: i < k < j ==> code[k] == d[k] && Carries(code[k], w, f)
    ensures Run(code, i, j, s, f) == w(Run(d, i, j, s, f))
  {
    RunSplit(code, i, i + 1, j, s, f);
    RunSplit(d, i, i + 1, j, s, f);
    assert Run(code, i, i, s, f) == s && Run(d, i, i, s, f) == s;
    RunCarries(code, i + 1, j, s, w, f);
    AlikeItself(code, d, i + 1, j, s, f);
  }

  lemma ShiftOrNothing(p: Instr, s: Cpu, env: Env)
    requires Plain(p) && IsShift(p.op)
    ensures Machine(env)(p, s) == WithShift(p, env)(s) && Machine(env)(NOP, s) == s
  {
  }

  /** The run up to the use, with the shift and without it. */
  lemma WindowBefore(code: seq<Instr>, d: seq<Instr>, i: nat, j: nat, s: Cpu, env: Env)
    requires AllGood(code) && i < j <= |code| && IsShift(code[i].op) && Plain(code[i])
    requires forall k :: i < k < j ==> Passes(code[k], code[i])
    requires |d| == |code| && d[i] == NOP && forall k :: i < k < j ==> code[k] == d[k]
    ensures Run(code, i, j, s, Machine(env)) == WithShift(code[i], env)(Run(d, i, j, s, Machine(env)))
  {
    forall k | i < k < j ensures Carries(code[k], WithShift(code[i], env), Machine(env)) {
      PassesCarries(code[i], code[k], env);
    }
    ShiftOrNothing(code[i], s, env);
    HeadIsSame(code, d, i, j, s, WithShift(code[i], env), Machine(env));
  }

  lemma WindowUse(code: seq<Instr>, i: nat, j: nat, m: nat, s: Cpu, env: Env)
    requires AllGood(code) && Window(code, i, j, m) && Plain(code[i]) && Plain(code[j])
    ensures var n, d, f := code[i].to.reg, Elided(code, i, j), Machine(env);
            var t := Run(d, i, j, s, f);
            Run(code, i, j + 1, s, f)
            == if code[j].to == Reg(n) then Run(d, i, j + 1, s, f)
               else Set(Run(d, i, j + 1, s, f), n, ShiftResult(code[i], t, env))
  {
    var d, f := Elided(code, i, j), Machine(env);
    WindowBefore(code, d, i, j, s, env);
    FoldIsSame(code[i], code[j], Run(d, i, j, s, f), env);
  }

  /** An instruction that wipes out a change of state. */
  ghost predicate Forgets(q: Instr, d: Cpu -> Cpu, f: Step) {
    forall t {:trigger f(q, d(t))} :: f(q, d(t)) == f(q, t)
  }

  lemma SetForgets(q: Instr, n: nat, w: Word, env: Env)
    requires Good(q) && n < NREG && CopyU(q, n) == 3
    ensures Forgets(q, WithValue(n, w), Machine(env))
  {
    forall t ensures Machine(env)(q, WithValue(n, w)(t)) == Machine(env)(q, t) {
      SetNotUsed(q, n, t, w, env);
    }
  }

  /** A change of state is carried along until it is wiped out. */
  lemma TailIsSame(code: seq<Instr>, j: nat, m: nat, s: Cpu, d: Cpu -> Cpu, f: Step)
    requires j < m <= |code| && (forall k :: j <= k < m - 1 ==> Carries(code[k], d, f)) && Forgets(code[m - 1], d, f)
    ensures Run(code, j, m, d(s), f) == Run(code, j, m, s, f)
  {
    RunCarries(code, j, m - 1, s, d, f);
    var q, t := code[m - 1], Run(code, j, m - 1, s, f);
    assert Run(code, j, m, d(s), f) == f(q, d(t));
    assert f(q, d(t)) == f(q, t);
  }

  lemma JoinTail(code: seq<Instr>, e: seq<Instr>, i: nat, j: nat, m: nat, s: Cpu, d: Cpu -> Cpu, f: Step)
    requires i <= j < m <= |code| == |e| && Run(code, i, j, s, f) == d(Run(e, i, j, s, f))
    requires (forall k :: j <= k < m - 1 ==> Carries(code[k], d, f)) && Forgets(code[m - 1], d, f)
    requires forall k :: j <= k < m ==> code[k] == e[k]
    ensures Run(code, i, m, s, f) == Run(e, i, m, s, f)
  {
    var u := Run(e, i, j, s, f);
    RunSplit(code, i, j, m, s, f);
    RunSplit(e, i, j, m, s, f);
    TailIsSame(code, j, m, u, d, f);
    AlikeItself(code, e, j, m, u, f);
  }

  lemma TailWipes(code: seq<Instr>, n: nat, j: nat, m: nat, w: Word, env: Env)
    requires AllGood(code) && n < NREG && j < m <= |code|
    requires (forall k :: j <= k < m - 1 ==> CopyU(code[k], n) == 0) && CopyU(code[m - 1], n) == 3
    ensures forall k :: j <= k < m - 1 ==> Carries(code[k], WithValue(n, w), Machine(env))
    ensures Forgets(code[m - 1], WithValue(n, w), Machine(env))
  {
    forall k | j <= k < m - 1 ensures Carries(code[k], WithValue(n, w), Machine(env)) {
      UntouchedCarries(code[k], n, w, env);
    }
    SetForgets(code[m - 1], n, w, env);
  }

  /** Over the whole window the two codes reach the same state. */
  lemma WindowIsSame(code: seq<Instr>, i: nat, j: nat, m: nat, s: Cpu, env: Env)
    requires AllGood(code) && Window(code, i, j, m) && Plain(code[i]) && Plain(code[j])
    ensures Run(code, i, m, s, Machine(env)) == Run(Elided(code, i, j), i, m, s, Machine(env))
  {
    var n, d, f := code[i].to.reg, Elided(code, i, j), Machine(env);
    WindowUse(code, i, j, m, s, env);
    if code[j].to != Reg(n) {
      var v := ShiftResult(code[i], Run(d, i, j, s, f), env);
      TailWipes(code, n, j + 1, m, v, env);
      JoinTail(code, d, i, j + 1, m, s, WithValue(n, v), f);
    }
  }

  /** Two codes with the same effect on every state under every lawful environment. */
  ghost predicate Equivalent(c: seq<Instr>, d: seq<Instr>) {
    && |c| == |d|
    && forall s, env :: Lawful(env) ==> Run(c, 0, |c|, s, Machine(env)) == Run(d, 0, |d|, s, Machine(env))
  }

  /** Eliding the shift changes nothing in the end. */
  lemma ElidedIsEquivalent(code: seq<Instr>, i: nat, j: nat, m: nat)
    requires AllGood(code) && Window(code, i, j, m) && Plain(code[i]) && Plain(code[j])
    ensures Equivalent(code, Elided(code, i, j))
  {
    var d := Elided(code, i, j);
    forall s, env | Lawful(env) ensures Run(code, 0, |code|, s, Machine(env)) == Run(d, 0, |d|, s, Machine(env)) {
      var f := Machine(env);
      AlikeItself(code, d, 0, i, s, f);
      var t := Run(code, 0, i, s, f);
      RunSplit(code, 0, i, m, s, f);
      RunSplit(d, 0, i, m, s, f);
      WindowIsSame(code, i, j, m, t, env);
      RunSplit(code, 0, m, |code|, s, f);
      RunSplit(d, 0, m, |code|, s, f);
      AlikeItself(code, d, m, |code|, Run(code, 0, m, s, f), f);
    }
  }

  // ----- the pass, which rewrites the code in place -----

  /** Two instructions with the same effect. */
  ghost predicate SameEffect(p: Instr, q: Instr) {
    Good(q) && (Plain(p) ==> Plain(q)) && forall env :: Lawful(env) ==> Alike(p, q, Machine(env))
  }

  ghost predicate SameCode(c: seq<Instr>, d: seq<Instr>) {
    |c| == |d| && forall k :: 0 <= k < |c| ==> SameEffect(c[k], d[k])
  }

  lemma SameCodeItself(c: seq<Instr>)
    requires AllGood(c)
    ensures SameCode(c, c)
  {
  }

  lemma SameEffectTrans(p: Instr, q: Instr, r: Instr)
    requires SameEffect(p, q) && SameEffect(q, r)
    ensures SameEffect(p, r)
  {
    forall env | Lawful(env) ensures Alike(p, r, Machine(env)) {
      assert Alike(p, q, Machine(env)) && Alike(q, r, Machine(env));
    }
  }

  /** Replacing one instruction by one with the same effect. */
  lemma SameCodeUpdate(c: seq<Instr>, d: seq<Instr>, k: nat, q: Instr)
    requires SameCode(c, d) && k < |d| && SameEffect(d[k], q)
    ensures SameCode(c, d[k := q])
  {
    SameEffectTrans(c[k], d[k], q);
  }

  lemma SameCodeIsEquivalent(c: seq<Instr>, d: seq<Instr>)
    requires SameCode(c, d)
    ensures Equivalent(c, d)
  {
    forall s, env | Lawful(env) ensures Run(c, 0, |c|, s, Machine(env)) == Run(d, 0, |d|, s, Machine(env)) {
      forall k | 0 <= k < |c| ensures Alike(c[k], d[k], Machine(env)) {
        assert SameEffect(c[k], d[k]);
      }
      RunAlike(c, d, 0, |c|, s, Machine(env));
    }
  }

  lemma EquivalentTrans(c: seq<Instr>, d: seq<Instr>, e: seq<Instr>)
    requires Equivalent(c, d) && Equivalent(d, e)
    ensures Equivalent(c, e)
  {
  }

  lemma NamedEffect(p: Instr, n: nat)
    requires Good(p)
    ensures SameEffect(p, Named(p, n))
  {
    forall env | Lawful(env) ensures Alike(p, Named(p, n), Machine(env)) {
      forall s ensures Machine(env)(p, s) == Machine(env)(Named(p, n), s) {
        NamedIsSame(p, n, s, env);
      }
    }
  }

  lemma SwappedEffect(p: Instr, n: nat)
    requires Good(p) && Swappable(p.op) && p.from.Reg? && Second(p) == n
    ensures SameEffect(p, Swapped(p, n))
  {
    forall env | Lawful(env) ensures Alike(p, Swapped(p, n), Machine(env)) {
      forall s ensures Machine(env)(p, s) == Machine(env)(Swapped(p, n), s) {
        SwapIsSame(p, n, s, env);
      }
    }
  }

  /** Naming an operand does not change what is used and set. */
  lemma NamedCopyU(p: Instr, m: nat, n: nat)
    requires n < NREG
    ensures CopyU(Named(p, m), n) == CopyU(p, n)
  {
  }

  /** The use with the shift's result, register `n`, as its flexible operand, if need be by exchange. */
  function Arranged(q: Instr, n: nat): Instr {
    if Swappable(q.op) && q.from.Reg? && (q.reg == n || (q.reg == NREG && q.to == Reg(n))) then Swapped(q, n) else q
  }

  /** The instruction can take register `n` shifted, perhaps after exchanging its operands. */
  predicate Takes(q: Instr, n: nat) {
    TakesNow(Arranged(q, n), n)
  }

  /** Two shifts of the same to the same, or no shifts. */
  predicate SameShift(p: Instr, q: Instr) {
    && p.to == q.to && (IsShift(p.op) <==> IsShift(q.op))
    && (IsShift(p.op) ==>
          p.from == q.from && (p.reg == q.reg || (Implied(p.reg, p.to) && Implied(q.reg, p.to))))
  }

  /** The operand is the result's register, named or not. */
  predicate Implied(reg: nat, to: Adr) {
    reg == NREG || to == Reg(reg)
  }

  /** Two instructions alike in all that decides about folding: they use and set the same
      registers, and can take the same ones shifted. */
  ghost predicate SameUse(p: Instr, q: Instr) {
    SameShift(p, q) && forall r: nat :: r < NREG ==> AlikeOn(p, q, r)
  }

  predicate AlikeOn(p: Instr, q: Instr, r: nat) {
    CopyU(p, r) == CopyU(q, r) && (Takes(p, r) <==> Takes(q, r))
  }

  ghost predicate SameUses(c: seq<Instr>, d: seq<Instr>, from: nat) {
    |c| == |d| && forall k :: from <= k < |c| ==> SameUse(c[k], d[k])
  }

  lemma NamedSameUse(p: Instr, n: nat)
    requires n < NREG
    ensures SameUse(p, Named(p, n))
  {
    forall r: nat | r < NREG ensures AlikeOn(p, Named(p, n), r) {
      NamedCopyU(p, n, r);
    }
  }

  lemma SwappedSameUse(q: Instr, n: nat)
    requires Good(q) && Swappable(q.op) && q.from.Reg? && n < NREG && (q.reg == n || (q.reg == NREG && q.to == Reg(n)))
    ensures SameUse(q, Swapped(q, n))
  {
    forall r: nat | r < NREG ensures AlikeOn(q, Swapped(q, n), r) {
      if r == n {
        SwappedTakes(q, n);
      }
    }
  }

  lemma SwappedTakes(q: Instr, n: nat)
    requires Good(q) && Swappable(q.op) && q.from.Reg? && n < NREG && (q.reg == n || (q.reg == NREG && q.to == Reg(n)))
    ensures Takes(q, n) <==> q.from.reg != n
    ensures Takes(Swapped(q, n), n) <==> q.from.reg != n
  {
  }

  lemma ArrangedSameUse(q: Instr, n: nat)
    requires Good(q) && n < NREG
    ensures SameUse(q, Arranged(q, n))
  {
    if Swappable(q.op) && q.from.Reg? && (q.reg == n || (q.reg == NREG && q.to == Reg(n))) {
      SwappedSameUse(q, n);
    }
  }

  lemma SameUseAt(p: Instr, q: Instr, n: nat)
    requires SameUse(p, q) && n < NREG
    ensures CopyU(p, n) == CopyU(q, n) && (Takes(p, n) <==> Takes(q, n))
  {
    assert AlikeOn(p, q, n);
  }

  lemma SameUseTrans(p: Instr, q: Instr, r: Instr)
    requires SameUse(p, q) && SameUse(q, r)
    ensures SameUse(p, r)
  {
    forall n: nat | n < NREG ensures AlikeOn(p, r, n) {
      assert AlikeOn(p, q, n) && AlikeOn(q, r, n);
    }
  }

  // ----- when a shift can be folded -----

  /** The result is used, or something unknown happens to it. */
  predicate Uses(q: Instr, n: nat) {
    CopyU(q, n) != 0 && CopyU(q, n) != 3
  }

  /** The code runs straight from the shift at `i` to the first use of its result at `j`. */
  ghost predicate Reaches(code: seq<Instr>, next: seq<bool>, prev: seq<bool>, i: nat, j: nat) {
    && i < j < |code| == |next| == |prev| && code[i].to.Reg?
    && (forall k :: i <= k < j ==> next[k]) && (forall k :: i < k <= j ==> prev[k])
    && (forall k :: i < k < j ==> Passes(code[k], code[i]))
    && Uses(code[j], code[i].to.reg)
  }

  ghost predicate NoUse(code: seq<Instr>, next: seq<bool>, prev: seq<bool>, i: nat) {
    forall j: nat :: !Reaches(code, next, prev, i, j)
  }

  /** The code runs straight on from `j` to where register `n` is set, just before `m`, without using it. */
  ghost predicate Tail(code: seq<Instr>, next: seq<bool>, j: nat, n: nat, m: nat) {
    && j + 1 < m <= |code| == |next|
    && (forall k :: j <= k < m - 1 ==> next[k])
    && (forall k :: j < k < m - 1 ==> CopyU(code[k], n) == 0) && CopyU(code[m - 1], n) == 3
  }

  ghost predicate NoEnd(code: seq<Instr>, next: seq<bool>, j: nat, n: nat) {
    forall m: nat :: !Tail(code, next, j, n, m)
  }

  ghost predicate Folds(code: seq<Instr>, next: seq<bool>, prev: seq<bool>, i: nat, j: nat, m: nat) {
    && Reaches(code, next, prev, i, j)
    && var n := code[i].to.reg;
    && Takes(code[j], n)
    && if code[j].to == Reg(n) then m == j + 1 else Tail(code, next, j, n, m)
  }

  ghost predicate CanFold(code: seq<Instr>, next: seq<bool>, prev: seq<bool>, i: nat) {
    exists j: nat, m: nat :: Folds(code, next, prev, i, j, m)
  }

  lemma PassesSameUse(p: Instr, p': Instr, q: Instr, q': Instr)
    requires Good(p) && IsShift(p.op) && SameShift(p, p') && SameUse(q, q')
    ensures Passes(q, p) <==> Passes(q', p')
    ensures Uses(q, p.to.reg) <==> Uses(q', p.to.reg)
  {
    SameUseAt(q, q', p.to.reg);
    if p.from.Reg? {
      SameUseAt(q, q', p.from.reg);
    }
    if p.reg != NREG {
      SameUseAt(q, q', p.reg);
    }
  }

  /** What is reached depends on what is used and set, and on nothing else. */
  lemma ReachesSame(c: seq<Instr>, d: seq<Instr>, next: seq<bool>, prev: seq<bool>, i: nat, j: nat)
    requires SameUses(c, d, 0) && i < |c| && Good(c[i]) && IsShift(c[i].op)
    ensures Reaches(c, next, prev, i, j) ==> Reaches(d, next, prev, i, j)
  {
    assert SameUse(c[i], d[i]);
    forall k | 0 <= k < |c| ensures Passes(c[k], c[i]) <==> Passes(d[k], d[i]) {
      PassesSameUse(c[i], d[i], c[k], d[k]);
    }
    if i < j < |c| {
      PassesSameUse(c[i], d[i], c[j], d[j]);
    }
  }

  lemma TailSame(c: seq<Instr>, d: seq<Instr>, next: seq<bool>, j: nat, n: nat, m: nat)
    requires SameUses(c, d, j + 1) && n < NREG
    ensures Tail(c, next, j, n, m) ==> Tail(d, next, j, n, m)
  {
    forall k | j + 1 <= k < |c| ensures CopyU(c[k], n) == CopyU(d[k], n) {
      SameUseAt(c[k], d[k], n);
    }
  }

  /** Whether a shift can be folded depends on what is used, set and taken, and on nothing else. */
  lemma FoldsSame(c: seq<Instr>, d: seq<Instr>, next: seq<bool>, prev: seq<bool>, i: nat)
    requires SameUses(c, d, 0) && i < |c| && Good(c[i]) && IsShift(c[i].op) && CanFold(c, next, prev, i)
    ensures CanFold(d, next, prev, i)
  {
    var j: nat, m: nat :| Folds(c, next, prev, i, j, m);
    var n := c[i].to.reg;
    ReachesSame(c, d, next, prev, i, j);
    assert SameUse(c[i], d[i]) && SameUse(c[j], d[j]);
    SameUseAt(c[j], d[j], n);
    TailSame(c, d, next, j, n, m);
    assert Folds(d, next, prev, i, j, m);
  }

  /** There is only one first use. */
  lemma ReachesOnce(code: seq<Instr>, next: seq<bool>, prev: seq<bool>, i: nat, j: nat, k: nat)
    requires Reaches(code, next, prev, i, j) && Reaches(code, next, prev, i, k)
    ensures j == k
  {
  }

  /** Past `j`, up to which the way is clear, it ends before any use. */
  lemma NotReached(code: seq<Instr>, next: seq<bool>, prev: seq<bool>, i: nat, j: nat)
    requires i <= j < |code| == |next| == |prev| && code[i].to.Reg?
    requires forall k :: i < k <= j ==> Passes(code[k], code[i])
    requires j + 1 == |code| || !next[j] || !prev[j + 1] || !(Passes(code[j + 1], code[i]) || Uses(code[j + 1], code[i].to.reg))
    ensures NoUse(code, next, prev, i)
  {
  }

  lemma NoTail(code: seq<Instr>, next: seq<bool>, j: nat, n: nat, m: nat)
    requires j < m <= |code| == |next|
    requires forall k :: j < k < m ==> CopyU(code[k], n) == 0
    requires m == |code| || !next[m - 1] || (CopyU(code[m], n) != 0 && CopyU(code[m], n) != 3)
    ensures NoEnd(code, next, j, n)
  {
  }

  /** Naming the operand beforehand makes no difference to the exchange. */
  lemma ArrangedNamed(q: Instr, p: Instr)
    requires Good(q) && Good(p) && IsShift(p.op)
    ensures Takes(Named(q, p.to.reg), p.to.reg) <==> Takes(q, p.to.reg)
    ensures Named(q, p.to.reg).to == q.to == Arranged(Named(q, p.to.reg), p.to.reg).to
  {
  }

  /** Nothing has changed but the instruction at `k`, and that not in a way that matters. */
  ghost predicate ChangedAt(c: seq<Instr>, c': seq<Instr>, k: nat) {
    k < |c| == |c'| && c' == c[k := c'[k]] && SameUse(c[k], c'[k])
  }

  /** What the instruction at `k` does to register `n`; its operand may get named on the way. */
  method Copyu(code: array<Instr>, k: nat, n: nat, ghost was: seq<Instr>) returns (u: int)
    requires k < code.Length && n < NREG && SameCode(was, code[..])
    modifies code
    ensures SameCode(was, code[..]) && code[k] == Named(old(code[k]), n) && ChangedAt(old(code[..]), code[..], k)
    ensures u == CopyU(code[k], n)
  {
    var p := code[k];
    NamedEffect(p, n);
    SameCodeUpdate(was, code[..], k, Named(p, n));
    NamedSameUse(p, n);
    ghost var c := code[..];
    assert c == c[k := p];
    if p.op == Nop || IsMove(p.op) {
      if Direct(p.to, n) {
        return if Mentions(p.from, n) then 4 else 3;
      }
      return if Mentions(p.from, n) || Mentions(p.to, n) then 1 else 0;
    } else if ReadReadWrite(p.op) {
      if Direct(p.to, n) {
        if p.reg == NREG {
          p := p.(reg := p.to.reg);
          code[k] := p;
        }
        return if Mentions(p.from, n) || p.reg == n then 4 else 3;
      }
      return if Mentions(p.from, n) || p.reg == n || Mentions(p.to, n) then 1 else 0;
    } else if p.op == Jump {
      return 0;
    }
    return 2;
  }

  /** Is the instruction at `k` clear of the result and the operands of the shift? `used` tells why not. */
  method Clear(code: array<Instr>, k: nat, p: Instr, ghost was: seq<Instr>) returns (clear: bool, used: bool)
    requires k < code.Length && SameCode(was, code[..]) && Good(p) && IsShift(p.op)
    modifies code
    ensures SameCode(was, code[..]) && ChangedAt(old(code[..]), code[..], k)
    ensures clear <==> Passes(code[k], p)
    ensures used <==> Uses(code[k], p.to.reg)
    ensures used ==> code[k] == Named(old(code[k]), p.to.reg)
  {
    ghost var c0 := code[..];
    var u := Copyu(code, k, p.to.reg, was);
    if u != 0 {
      return false, u != 3;
    }
    ghost var c1 := code[..];
    if p.from.Reg? {
      u := Copyu(code, k, p.from.reg, was);
      ChangedTwice(c0, c1, code[..], k);
      if u > 1 {
        return false, false;
      }
    }
    ghost var c2 := code[..];
    if p.reg != NREG && p.reg != p.to.reg {
      u := Copyu(code, k, p.reg, was);
      ChangedTwice(c0, c2, code[..], k);
      if u > 1 {
        return false, false;
      }
    }
    return true, false;
  }

  lemma ChangedTwice(c0: seq<Instr>, c1: seq<Instr>, c2: seq<Instr>, k: nat)
    requires ChangedAt(c0, c1, k) && ChangedAt(c1, c2, k)
    ensures ChangedAt(c0, c2, k)
  {
    SameUseTrans(c0[k], c1[k], c2[k]);
  }

  lemma OneChanged(c0: seq<Instr>, c: seq<Instr>, c': seq<Instr>, k: nat, from: nat)
    requires SameUses(c0, c, from) && ChangedAt(c, c', k) && from <= k
    ensures SameUses(c0, c', from)
  {
    forall j | from <= j < |c| ensures SameUse(c0[j], c'[j]) {
      if j == k {
        SameUseTrans(c0[j], c[j], c'[j]);
      }
    }
  }

  /** Up to `j` the way is clear; behind it nothing has been touched. */
  ghost predicate Clearing(c0: seq<Instr>, c: seq<Instr>, next: seq<bool>, prev: seq<bool>, i: nat, j: nat) {
    && i <= j < |c| == |next| == |prev| && SameUses(c0, c, 0) && c[i] == c0[i]
    && (forall k :: j < k < |c| ==> c[k] == c0[k])
    && (forall k :: i <= k < j ==> next[k]) && (forall k :: i < k <= j ==> prev[k])
    && (forall k :: i < k <= j ==> Passes(c[k], c[i]))
  }

  lemma ClearingStep(c0: seq<Instr>, c: seq<Instr>, c': seq<Instr>, next: seq<bool>, prev: seq<bool>, i: nat, j: nat)
    requires Clearing(c0, c, next, prev, i, j) && ChangedAt(c, c', j + 1) && next[j] && prev[j + 1] && c[i].to.Reg?
    ensures SameUses(c0, c', 0) && c'[i] == c0[i] && c[j + 1] == c0[j + 1]
    ensures Passes(c'[j + 1], c[i]) ==> Clearing(c0, c', next, prev, i, j + 1)
    ensures Uses(c'[j + 1], c[i].to.reg) ==> Reaches(c', next, prev, i, j + 1)
    ensures !Passes(c'[j + 1], c[i]) && !Uses(c'[j + 1], c[i].to.reg) ==> NoUse(c', next, prev, i)
  {
    OneChanged(c0, c, c', j + 1, 0);
    if !Passes(c'[j + 1], c[i]) && !Uses(c'[j + 1], c[i].to.reg) {
      NotReached(c', next, prev, i, j);
    }
  }

  /** One instruction further on the way from the shift. */
  method Look(code: array<Instr>, next: seq<bool>, prev: seq<bool>, i: nat, j: nat, ghost was: seq<Instr>, ghost c0: seq<Instr>)
    returns (clear: bool, used: bool)
    requires SameCode(was, code[..]) && Clearing(c0, code[..], next, prev, i, j) && IsShift(code[i].op)
    requires j + 1 < code.Length && next[j] && prev[j + 1]
    modifies code
    ensures SameCode(was, code[..]) && SameUses(c0, code[..], 0) && code[i] == c0[i]
    ensures clear ==> Clearing(c0, code[..], next, prev, i, j + 1)
    ensures !clear && used ==> Reaches(code[..], next, prev, i, j + 1) && code[j + 1] == Named(c0[j + 1], c0[i].to.reg)
    ensures !clear && !used ==> NoUse(code[..], next, prev, i)
  {
    ghost var c := code[..];
    clear, used := Clear(code, j + 1, code[i], was);
    ClearingStep(c0, c, code[..], next, prev, i, j);
  }

  /** The first use of the shift's result, if nothing touches its operands before and the code runs straight to it. */
  method FirstUse(code: array<Instr>, next: seq<bool>, prev: seq<bool>, i: nat, ghost was: seq<Instr>)
    returns (found: bool, j: nat)
    requires i < code.Length == |next| == |prev| && SameCode(was, code[..]) && IsShift(code[i].op)
    modifies code
    ensures SameCode(was, code[..]) && code[i] == old(code[i]) && SameUses(old(code[..]), code[..], 0)
    ensures if found then Reaches(code[..], next, prev, i, j) && code[j] == Named(old(code[j]), code[i].to.reg)
            else NoUse(code[..], next, prev, i)
  {
    ghost var c0 := code[..];
    j := i;
    while j + 1 < code.Length && next[j]
      invariant j < code.Length && SameCode(was, code[..]) && Clearing(c0, code[..], next, prev, i, j)
      decreases code.Length - j
    {
      if !prev[j + 1] {
        NotReached(code[..], next, prev, i, j);
        return false, j;
      }
      var clear, used := Look(code, next, prev, i, j, was, c0);
      if !clear {
        return used, j + 1;
      }
      j := j + 1;
    }
    NotReached(code[..], next, prev, i, j);
    return false, j;
  }

  /** Can the use take a shifted operand, perhaps after exchanging its operands? */
  method Prepare(code: array<Instr>, i: nat, j: nat, ghost was: seq<Instr>) returns (ok: bool)
    requires i < j < code.Length && SameCode(was, code[..]) && IsShift(code[i].op)
    modifies code
    ensures SameCode(was, code[..]) && ChangedAt(old(code[..]), code[..], j)
    ensures code[j] == Arranged(old(code[j]), code[i].to.reg) && (ok <==> CanTake(code[j], code[i]))
  {
    ghost var c := code[..];
    assert c == c[j := c[j]];
    var n := code[i].to.reg;
    var q := code[j];
    ArrangedSameUse(q, n);
    if !IsAlu(q.op) {
      return false;
    }
    if Swappable(q.op) {
      if q.reg == n || (q.reg == NREG && q.to == Reg(n)) {
        if !q.from.Reg? {
          return false;
        }
        SwappedEffect(q, n);
        q := Swapped(q, n);
        SameCodeUpdate(was, code[..], j, q);
        code[j] := q;
      }
    }
    if q.op != Mvn && (q.reg == n || (q.reg == NREG && q.to == Reg(n))) {
      return false;
    }
    return q.from == Reg(n);
  }

  /** From `j` up to `m` the register is neither used nor set. */
  ghost predicate Trailing(c0: seq<Instr>, c: seq<Instr>, next: seq<bool>, j: nat, n: nat, m: nat) {
    && j < m <= |c| == |c0| == |next| && SameUses(c0, c, j + 1) && (forall k :: 0 <= k <= j ==> c[k] == c0[k])
    && (forall k :: j <= k < m - 1 ==> next[k])
    && (forall k :: j < k < m ==> CopyU(c[k], n) == 0)
  }

  lemma TrailingStep(c0: seq<Instr>, c: seq<Instr>, c': seq<Instr>, next: seq<bool>, j: nat, n: nat, m: nat)
    requires Trailing(c0, c, next, j, n, m) && ChangedAt(c, c', m) && next[m - 1]
    ensures SameUses(c0, c', j + 1) && (forall k :: 0 <= k <= j ==> c'[k] == c0[k])
    ensures CopyU(c'[m], n) == 0 ==> Trailing(c0, c', next, j, n, m + 1)
    ensures CopyU(c'[m], n) == 3 ==> Tail(c', next, j, n, m + 1)
    ensures CopyU(c'[m], n) != 0 && CopyU(c'[m], n) != 3 ==> NoEnd(c', next, j, n)
  {
    OneChanged(c0, c, c', m, j + 1);
    if CopyU(c'[m], n) != 0 && CopyU(c'[m], n) != 3 {
      NoTail(c', next, j, n, m);
    }
  }

  /** Is the register set again before it is used again? */
  method NextSet(code: array<Instr>, next: seq<bool>, j: nat, n: nat, ghost was: seq<Instr>) returns (found: bool, m: nat)
    requires j < code.Length == |next| && SameCode(was, code[..]) && n < NREG
    modifies code
    ensures SameCode(was, code[..]) && forall k :: 0 <= k <= j ==> code[k] == old(code[k])
    ensures SameUses(old(code[..]), code[..], j + 1)
    ensures if found then Tail(code[..], next, j, n, m) else NoEnd(code[..], next, j, n)
  {
    m := j + 1;
    ghost var c0 := code[..];
    while m < code.Length && next[m - 1]
      invariant j < m <= code.Length && SameCode(was, code[..]) && Trailing(c0, code[..], next, j, n, m)
    {
      ghost var c := code[..];
      var u := Copyu(code, m, n, was);
      TrailingStep(c0, c, code[..], next, j, n, m);
      if u != 0 {
        return u == 3, m + 1;
      }
      m := m + 1;
    }
    NoTail(code[..], next, j, n, m);
    return false, m;
  }

  /** The code after the shift at `i` has been excised. */
  function Excised(code: seq<Instr>, i: nat): seq<Instr>
    requires i < |code|
  {
    code[i := NOP]
  }

  /** The use at `j` and the window's end `m`, found exactly when there are any. */
  method FindUse(code: array<Instr>, next: seq<bool>, prev: seq<bool>, i: nat, ghost was: seq<Instr>)
    returns (ok: bool, j: nat, ghost m: nat)
    requires i < code.Length == |next| == |prev| && was == code[..] && AllGood(was) && IsShift(code[i].op)
    modifies code
    ensures SameCode(was, code[..]) && SameUses(was, code[..], 0)
    ensures ok <==> CanFold(was, next, prev, i)
    ensures ok ==> Window(code[..], i, j, m) && Folds(was, next, prev, i, j, m)
  {
    SameCodeItself(was);
    var n := code[i].to.reg;
    m := 0;
    ok, j := FirstUse(code, next, prev, i, was);
    ghost var c1 := code[..];
    if !ok {
      NoFold(was, c1, next, prev, i);
      return;
    }
    ok := Prepare(code, i, j, was);
    OneChanged(was, c1, code[..], j, 0);
    ArrangedNamed(was[j], was[i]);
    if !ok {
      NoFoldAt(was, c1, next, prev, i, j);
      return;
    }
    ghost var c2 := code[..];
    m := j + 1;
    if code[j].to != Reg(n) {
      ok, m := NextSet(code, next, j, n, was);
      UsesThen(was, c2, code[..], j);
      if !ok {
        NoFoldTail(was, c1, c2, code[..], next, prev, i, j);
        return;
      }
    }
    DoesFold(was, c1, c2, code[..], next, prev, i, j, m);
  }

  /** Wherever the shift at `i` is used, if it and its use are plain, `d` is as good as the code. */
  ghost predicate RightIfPlain(was: seq<Instr>, next: seq<bool>, prev: seq<bool>, i: nat, d: seq<Instr>) {
    forall j: nat, m: nat :: Folds(was, next, prev, i, j, m) && Plain(was[i]) && Plain(was[j]) ==> Equivalent(was, d)
  }

  /** Fold the shift at `i` into its one use, exactly when nothing stands in between.  The code is
      equivalent if no flags are set from the shifter's carry. */
  method Shiftprop(code: array<Instr>, next: seq<bool>, prev: seq<bool>, i: nat) returns (ok: bool)
    requires i < code.Length == |next| == |prev| && AllGood(code[..]) && IsShift(code[i].op)
    modifies code
    ensures AllGood(code[..]) && SameShifts(old(code[..]), code[..]) && (old(AllPlain(code[..])) ==> AllPlain(code[..]))
    ensures ok <==> CanFold(old(code[..]), next, prev, i)
    ensures if ok then RightIfPlain(old(code[..]), next, prev, i, Excised(code[..], i))
            else SameCode(old(code[..]), code[..]) && SameUses(old(code[..]), code[..], 0)
  {
    ghost var was := code[..];
    var j;
    ghost var m;
    ok, j, m := FindUse(code, next, prev, i, was);
    UsesShift(was, code[..]);
    if ok {
      FoldedCode(was, code[..], next, prev, i, j, m);
      code[j] := Folded(code[i], code[j]);
    }
  }

  /** The shifts stand where they stood. */
  ghost predicate SameShifts(c: seq<Instr>, d: seq<Instr>) {
    |c| == |d| && forall k :: 0 <= k < |c| ==> (IsShift(c[k].op) <==> IsShift(d[k].op))
  }

  lemma UsesShift(c: seq<Instr>, d: seq<Instr>)
    requires SameUses(c, d, 0)
    ensures SameShifts(c, d)
  {
    forall k | 0 <= k < |c| ensures IsShift(c[k].op) <==> IsShift(d[k].op) {
      assert SameUse(c[k], d[k]);
    }
  }

  lemma NoFold(was: seq<Instr>, c1: seq<Instr>, next: seq<bool>, prev: seq<bool>, i: nat)
    requires SameUses(was, c1, 0) && i < |was| && c1[i] == was[i] && Good(was[i]) && IsShift(was[i].op)
    requires NoUse(c1, next, prev, i)
    ensures !CanFold(was, next, prev, i)
  {
    forall j: nat, m: nat ensures !Folds(was, next, prev, i, j, m) {
      ReachesSame(was, c1, next, prev, i, j);
    }
  }

  lemma NoFoldAt(was: seq<Instr>, c1: seq<Instr>, next: seq<bool>, prev: seq<bool>, i: nat, j: nat)
    requires SameUses(was, c1, 0) && i < |was| && c1[i] == was[i] && Good(was[i]) && IsShift(was[i].op)
    requires Reaches(c1, next, prev, i, j) && !Takes(was[j], was[i].to.reg)
    ensures !CanFold(was, next, prev, i)
  {
    forall k: nat, m: nat ensures !Folds(was, next, prev, i, k, m) {
      ReachesSame(was, c1, next, prev, i, k);
      if Reaches(was, next, prev, i, k) {
        ReachesOnce(c1, next, prev, i, j, k);
      }
    }
  }

  lemma NoFoldTail(was: seq<Instr>, c1: seq<Instr>, c2: seq<Instr>, c3: seq<Instr>, next: seq<bool>, prev: seq<bool>, i: nat, j: nat)
    requires SameUses(was, c1, 0) && i < |was| && c1[i] == was[i] && Good(was[i]) && IsShift(was[i].op)
    requires Reaches(c1, next, prev, i, j) && was[j].to != Reg(was[i].to.reg)
    requires |c2| == |c1| && (forall k :: j < k < |c1| ==> c2[k] == c1[k]) && SameUses(c2, c3, j + 1)
    requires NoEnd(c3, next, j, was[i].to.reg)
    ensures !CanFold(was, next, prev, i)
  {
    UsesThrough(was, c1, c2, c3, j);
    forall k: nat, m: nat ensures !Folds(was, next, prev, i, k, m) {
      ReachesSame(was, c1, next, prev, i, k);
      TailSame(was, c3, next, j, was[i].to.reg, m);
      if Reaches(was, next, prev, i, k) {
        ReachesOnce(c1, next, prev, i, j, k);
      }
    }
  }

  lemma UsesThen(was: seq<Instr>, c2: seq<Instr>, c3: seq<Instr>, j: nat)
    requires SameUses(was, c2, 0) && SameUses(c2, c3, j + 1) && j < |c2| && forall k :: 0 <= k <= j ==> c3[k] == c2[k]
    ensures SameUses(was, c3, 0)
  {
    forall k | 0 <= k < |was| ensures SameUse(was[k], c3[k]) {
      if k > j {
        SameUseTrans(was[k], c2[k], c3[k]);
      }
    }
  }

  lemma SameUsesBack(c: seq<Instr>, d: seq<Instr>, from: nat)
    requires SameUses(c, d, from)
    ensures SameUses(d, c, from)
  {
    forall k | from <= k < |c| ensures SameUse(d[k], c[k]) {
      forall r: nat | r < NREG ensures AlikeOn(d[k], c[k], r) {
        SameUseAt(c[k], d[k], r);
      }
    }
  }

  lemma UsesThrough(was: seq<Instr>, c1: seq<Instr>, c2: seq<Instr>, c3: seq<Instr>, j: nat)
    requires SameUses(was, c1, 0) && |c2| == |c1| && (forall k :: j < k < |c1| ==> c2[k] == c1[k]) && SameUses(c2, c3, j + 1)
    ensures SameUses(was, c3, j + 1) && SameUses(c3, was, j + 1)
  {
    forall k | j + 1 <= k < |was| ensures SameUse(was[k], c3[k]) {
      SameUseTrans(was[k], c1[k], c3[k]);
    }
    SameUsesBack(was, c3, j + 1);
  }

  lemma DoesFold(was: seq<Instr>, c1: seq<Instr>, c2: seq<Instr>, c3: seq<Instr>, next: seq<bool>, prev: seq<bool>, i: nat, j: nat, m: nat)
    requires SameUses(was, c1, 0) && i < |was| && c1[i] == was[i] && Good(was[i]) && IsShift(was[i].op)
    requires Reaches(c1, next, prev, i, j) && Takes(was[j], was[i].to.reg)
    requires |c2| == |c1| && (forall k :: 0 <= k < |c1| && k != j ==> c2[k] == c1[k]) && SameUses(c2, c3, j + 1)
    requires forall k :: 0 <= k <= j ==> c3[k] == c2[k]
    requires CanTake(c2[j], was[i]) && c2[j].to == was[j].to
    requires if was[j].to == Reg(was[i].to.reg) then m == j + 1 else Tail(c3, next, j, was[i].to.reg, m)
    ensures Folds(was, next, prev, i, j, m) && Window(c3, i, j, m)
  {
    UsesThrough(was, c1, c2, c3, j);
    SameUsesBack(was, c1, 0);
    ReachesSame(c1, was, next, prev, i, j);
    TailSame(c3, was, next, j, was[i].to.reg, m);
    assert Folds(was, next, prev, i, j, m);
  }

  lemma FoldedCode(was: seq<Instr>, code: seq<Instr>, next: seq<bool>, prev: seq<bool>, i: nat, j: nat, m: nat)
    requires SameCode(was, code) && Window(code, i, j, m) && Folds(was, next, prev, i, j, m)
    ensures Good(code[i])
    ensures var d := code[j := Folded(code[i], code[j])];
            AllGood(d) && (AllPlain(was) ==> AllPlain(d)) && RightIfPlain(was, next, prev, i, Excised(d, i))
  {
    var d := code[j := Folded(code[i], code[j])];
    assert AllGood(code);
    FoldedIsPlain(code[i], code[j]);
    forall j': nat, m': nat | Folds(was, next, prev, i, j', m') && Plain(was[i]) && Plain(was[j'])
      ensures Equivalent(was, Excised(d, i))
    {
      ReachesOnce(was, next, prev, i, j, j');
      FoldedIsRight(was, code, i, j, m);
    }
  }

  lemma FoldedIsRight(was: seq<Instr>, code: seq<Instr>, i: nat, j: nat, m: nat)
    requires SameCode(was, code) && Window(code, i, j, m) && Plain(was[i]) && Plain(was[j])
    ensures Good(code[i]) && Equivalent(was, Excised(code[j := Folded(code[i], code[j])], i))
  {
    assert SameEffect(was[i], code[i]) && SameEffect(was[j], code[j]);
    SameCodeIsEquivalent(was, code);
    ElidedIsEquivalent(code, i, j, m);
    assert Excised(code[j := Folded(code[i], code[j])], i) == Elided(code, i, j);
    EquivalentTrans(was, code, Elided(code, i, j));
  }

  lemma FoldedIsPlain(p: Instr, q: Instr)
    requires Good(p) && IsShift(p.op) && Good(q) && IsAlu(q.op)
    ensures Good(Folded(p, q)) && (Plain(q) ==> Plain(Folded(p, q)))
  {
  }

  /** How many shifts there are among the first `n` instructions. */
  function Shifts(code: seq<Instr>, n: nat): nat
    requires n <= |code|
  {
    if n == 0 then 0 else Shifts(code, n - 1) + if IsShift(code[n - 1].op) then 1 else 0
  }

  lemma {:induction false} ShiftsSame(c: seq<Instr>, d: seq<Instr>, n: nat)
    requires SameShifts(c, d) && n <= |c|
    ensures Shifts(c, n) == Shifts(d, n)
  {
    if n > 0 {
      ShiftsSame(c, d, n - 1);
    }
  }

  lemma {:induction false} ShiftGone(code: seq<Instr>, i: nat, n: nat)
    requires i < |code| && n <= |code| && IsShift(code[i].op)
    ensures Shifts(Excised(code, i), n) == Shifts(code, n) - if i < n then 1 else 0
  {
    if n > 0 {
      ShiftGone(code, i, n - 1);
    }
  }

  /** None of the shifts before `n` can be folded. */
  ghost predicate Settled(code: seq<Instr>, next: seq<bool>, prev: seq<bool>, n: nat) {
    forall i :: 0 <= i < n && i < |code| && IsShift(code[i].op) ==> !CanFold(code, next, prev, i)
  }

  lemma SettledSame(c: seq<Instr>, d: seq<Instr>, next: seq<bool>, prev: seq<bool>, n: nat)
    requires AllPlain(d) && SameUses(c, d, 0) && Settled(c, next, prev, n)
    ensures Settled(d, next, prev, n)
  {
    SameUsesBack(c, d, 0);
    UsesShift(c, d);
    forall i | 0 <= i < n && i < |d| && IsShift(d[i].op) ensures !CanFold(d, next, prev, i) {
      if CanFold(d, next, prev, i) {
        FoldsSame(d, c, next, prev, i);
      }
    }
  }

  /** One turn of the pass: shifts that can be folded are folded and excised.  When there were
      none, there are none. */
  method Turn(code: array<Instr>, next: seq<bool>, prev: seq<bool>) returns (t: nat)
    requires code.Length == |next| == |prev| && AllPlain(code[..])
    modifies code
    ensures AllPlain(code[..]) && Equivalent(old(code[..]), code[..])
    ensures Shifts(code[..], code.Length) + t == old(Shifts(code[..], code.Length))
    ensures t == 0 ==> Settled(code[..], next, prev, code.Length)
  {
    t := 0;
    ghost var was := code[..];
    TurnStarts(was, next, prev);
    for i := 0 to code.Length
      invariant TurnAt(was, code[..], next, prev, i, t)
    {
      ghost var mid := code[..];
      if IsShift(code[i].op) {
        var ok := FoldAt(code, next, prev, i);
        TurnStep(was, mid, code[..], next, prev, i, t, ok);
        if ok {
          t := t + 1;
        }
      } else {
        TurnPasses(was, mid, next, prev, i, t);
      }
    }
  }

  /** Where the turn stands before instruction `i`, with `t` shifts folded. */
  ghost predicate TurnAt(was: seq<Instr>, c: seq<Instr>, next: seq<bool>, prev: seq<bool>, i: nat, t: nat) {
    && AllPlain(c) && Equivalent(was, c) && Shifts(c, |c|) + t == Shifts(was, |was|)
    && (t == 0 ==> Settled(c, next, prev, i))
  }

  lemma TurnStarts(was: seq<Instr>, next: seq<bool>, prev: seq<bool>)
    requires AllPlain(was)
    ensures TurnAt(was, was, next, prev, 0, 0)
  {
  }

  lemma TurnPasses(was: seq<Instr>, c: seq<Instr>, next: seq<bool>, prev: seq<bool>, i: nat, t: nat)
    requires TurnAt(was, c, next, prev, i, t) && i < |c| && !IsShift(c[i].op)
    ensures TurnAt(was, c, next, prev, i + 1, t)
  {
    if t == 0 {
      SettledNext(c, next, prev, i);
    }
  }

  lemma TurnStep(was: seq<Instr>, mid: seq<Instr>, c: seq<Instr>, next: seq<bool>, prev: seq<bool>, i: nat, t: nat, ok: bool)
    requires TurnAt(was, mid, next, prev, i, t) && i < |mid| == |c|
    requires AllPlain(c) && Equivalent(mid, c) && Shifts(c, |c|) + (if ok then 1 else 0) == Shifts(mid, |mid|)
    requires !ok ==> SameUses(mid, c, 0) && !CanFold(mid, next, prev, i)
    ensures TurnAt(was, c, next, prev, i + 1, if ok then t + 1 else t)
  {
    EquivalentTrans(was, mid, c);
    if !ok && t == 0 {
      SettledNext(mid, next, prev, i);
      SettledSame(mid, c, next, prev, i + 1);
    }
  }

  lemma SettledNext(c: seq<Instr>, next: seq<bool>, prev: seq<bool>, i: nat)
    requires Settled(c, next, prev, i) && i < |c| && (IsShift(c[i].op) ==> !CanFold(c, next, prev, i))
    ensures Settled(c, next, prev, i + 1)
  {
  }

  lemma RightHere(was: seq<Instr>, next: seq<bool>, prev: seq<bool>, i: nat, d: seq<Instr>)
    requires AllPlain(was) && i < |was| && CanFold(was, next, prev, i) && RightIfPlain(was, next, prev, i, d)
    ensures Equivalent(was, d)
  {
    var j: nat, m: nat :| Folds(was, next, prev, i, j, m);
    assert Plain(was[i]) && Plain(was[j]);
  }

  /** Fold the shift at `i` if that can be done, and excise it. */
  method FoldAt(code: array<Instr>, next: seq<bool>, prev: seq<bool>, i: nat) returns (ok: bool)
    requires i < code.Length == |next| == |prev| && AllPlain(code[..]) && IsShift(code[i].op)
    modifies code
    ensures AllPlain(code[..]) && Equivalent(old(code[..]), code[..])
    ensures Shifts(code[..], code.Length) + (if ok then 1 else 0) == old(Shifts(code[..], code.Length))
    ensures ok <==> CanFold(old(code[..]), next, prev, i)
    ensures !ok ==> SameUses(old(code[..]), code[..], 0)
  {
    ghost var was := code[..];
    ok := Shiftprop(code, next, prev, i);
    ShiftsSame(was, code[..], code.Length);
    if ok {
      RightHere(was, next, prev, i, Excised(code[..], i));
      ShiftGone(code[..], i, code.Length);
      code[i] := NOP;
    } else {
      SameCodeIsEquivalent(was, code[..]);
    }
  }

  /** The pass: turns until nothing more can be folded. */
  method Peep(code: array<Instr>, next: seq<bool>, prev: seq<bool>)
    requires code.Length == |next| == |prev| && AllPlain(code[..])
    modifies code
    ensures AllPlain(code[..]) && Equivalent(old(code[..]), code[..])
    ensures Settled(code[..], next, prev, code.Length)
  {
    var t := Turn(code, next, prev);
    while t > 0
      invariant AllPlain(code[..]) && Equivalent(old(code[..]), code[..])
      invariant t == 0 ==> Settled(code[..], next, prev, code.Length)
      decreases Shifts(code[..], code.Length) + t
    {
      ghost var mid := code[..];
      t := Turn(code, next, prev);
      EquivalentTrans(old(code[..]), mid, code[..]);
    }
  }

  // ----- the S bit -----

  lemma FoldedCarry(p: Instr, q: Instr, s: Cpu, env: Env)
    requires Good(p) && IsShift(p.op) && Good(q) && IsLogical(q.op)
    ensures Good(Folded(p, q))
    ensures ShifterCarry(Folded(p, q).from, s, env) == env.carry(p.op, s.r[Second(p)], ShiftAmount(p, s), s.f.c)
  {
  }

  lemma FoldedFlags(p: Instr, q: Instr, s: Cpu, env: Env)
    requires Good(p) && IsShift(p.op) && Good(q) && IsLogical(q.op) && CanTake(q, p) && Good(Folded(p, q))
    ensures Result(q, Set(s, p.to.reg, ShiftResult(p, s, env)), env).1 == Result(Folded(p, q), s, env).1
            <==> ShifterCarry(Folded(p, q).from, s, env) == s.f.c
  {
    var v, q' := ShiftResult(p, s, env), Folded(p, q);
    var t := Set(s, p.to.reg, v);
    FoldedOperand(p, q, s, env);
    AluResult(q, t, env);
    AluResult(q', s, env);
    LogicalFlags(q.op, t.r[Second(q)], s.r[Second(q)], v, s.f, s.f.c, ShifterCarry(q'.from, s, env), env);
  }

  /** With the S bit, a logical instruction keeps its flags when folded exactly if the shifter's carry is the old carry. */
  lemma FoldWithSBit(p: Instr, q: Instr, s: Cpu, env: Env)
    requires Good(p) && IsShift(p.op) && Good(q) && q.sbit && IsLogical(q.op) && CanTake(q, p)
    ensures Good(Folded(p, q))
    ensures Exec(q, Set(s, p.to.reg, ShiftResult(p, s, env)), env).f == Exec(Folded(p, q), s, env).f
            <==> env.carry(p.op, s.r[Second(p)], ShiftAmount(p, s), s.f.c) == s.f.c
  {
    var t := Set(s, p.to.reg, ShiftResult(p, s, env));
    FoldedCarry(p, q, s, env);
    FoldedFlags(p, q, s, env);
    SBitPut(q, Result(q, t, env), t);
    SBitPut(Folded(p, q), Result(Folded(p, q), s, env), s);
  }

  lemma LogicalFlags(op: Opcode, a: Word, a': Word, b: Word, f: Flags, c: bool, c': bool, env: Env)
    requires IsLogical(op) && (a == a' || op == Mvn)
    ensures Alu(op, a, b, f, c, env).1 == Alu(op, a', b, f, c', env).1 <==> c == c'
  {
  }

  lemma SBitPut(q: Instr, res: (Word, Flags), s: Cpu)
    requires q.sbit && (q.to.Reg? ==> q.to.reg < NREG)
    ensures Put(q, res, s).f == res.1
  {
  }

  // ----- the operand as a number -----

  function KindBits(kind: Opcode): nat {
    if kind == Sll then 0 else if kind == Srl then 1 else 2
  }

  /** The offset that stands for a shifted operand. */
  function Pack(a: Adr): nat
    requires a.Shift?
  {
    a.reg + 32 * KindBits(a.kind) +
    match a.amount { case Field(c) => 128 * c case Register(y) => 16 + 256 * y }
  }

  function Unpack(o: nat): Adr {
    var kind := if o / 32 % 4 == 0 then Sll else if o / 32 % 4 == 1 then Srl else Sra;
    Shift(kind, o % 16, if o / 16 % 2 == 0 then Field(o / 128) else Register(o / 256))
  }

  /** The offset says all there is, and its bits tell which registers are used. */
  lemma PackRoundTrip(a: Adr, n: nat)
    requires GoodOperand(a) && a.Shift? && (a.amount.Field? ==> a.amount.bits < 32)
    ensures Unpack(Pack(a)) == a
    ensures Mentions(a, n) <==> Pack(a) % 16 == n || (Pack(a) / 16 % 2 == 1 && Pack(a) / 256 == n)
  {
    var k := KindBits(a.kind);
    match a.amount {
      case Field(c) => PackField(a.reg, k, c);
      case Register(y) => PackRegister(a.reg, k, y);
    }
  }

  lemma PackField(r: nat, k: nat, c: nat)
    requires r < 16 && k < 3 && c < 32
    ensures var o := r + 32 * k + 128 * c; o % 16 == r && o / 16 % 2 == 0 && o / 32 % 4 == k && o / 128 == c
  {
    var o := r + 32 * k + 128 * c;
    Split(o, 16, 2 * k + 8 * c, r);
    Split(o, 32, k + 4 * c, r);
    Split(k + 4 * c, 4, c, k);
    Split(o, 128, c, r + 32 * k);
    Split(2 * k + 8 * c, 2, k + 4 * c, 0);
  }

  lemma PackRegister(r: nat, k: nat, y: nat)
    requires r < 16 && k < 3
    ensures var o := r + 32 * k + (16 + 256 * y); o % 16 == r && o / 16 % 2 == 1 && o / 32 % 4 == k && o / 256 == y
  {
    var o := r + 32 * k + (16 + 256 * y);
    Split(o, 16, 2 * k + 1 + 16 * y, r);
    Split(2 * k + 1 + 16 * y, 2, k + 8 * y, 1);
    Split(o, 32, k + 8 * y, r + 16);
    Split(k + 8 * y, 4, 2 * y, k);
    Split(o, 256, y, r + 32 * k + 16);
  }

  lemma Split(o: nat, d: nat, q: nat, r: nat)
    requires d > 0 && o == d * q + r && r < d
    ensures o / d == q && o % d == r
  {
    assert o == d * (o / d) + o % d;
    if o / d < q {
      Apart(d, o / d, q);
    } else if q < o / d {
      Apart(d, q, o / d);
    }
  }

  lemma Apart(d: nat, a: nat, b: nat)
    requires a < b
    ensures d * a + d <= d * b
  {
    var c: nat := b - a - 1;
    Distribute(d, a, c);
  }

  lemma Distribute(d: nat, a: nat, c: nat)
    ensures d * (a + 1 + c) == d * a + d + d * c && d * c >= 0
  {
  }

  /** The bits that say what a shift instruction shifts, as the linker puts them together. */
  function Encoded(p: Instr): nat
    requires Good(p) && IsShift(p.op)
  {
    Second(p) + 32 * KindBits(p.op) + if p.from.Const? then 128 * (p.from.offset % 32) else 16 + 256 * p.from.reg
  }

  /** Folding moves exactly those bits into the operand of the use, which they determine. */
  lemma FoldKeepsEncoding(p: Instr, q: Instr)
    requires Good(p) && IsShift(p.op)
    ensures Pack(Folded(p, q).from) == Encoded(p) && Unpack(Encoded(p)) == Folded(p, q).from
  {
    PackRoundTrip(Folded(p, q).from, 0);
  }

  // ----- what becomes of a constant amount -----

  /** The shifts of the source language on 32-bit words. */
  function ShiftWord(kind: Opcode, x: Word, n: nat): Word {
    if kind == Sll then Low(x * Pow2(n))
    else if kind == Srl then Smaller(x, Pow2(n)); x / Pow2(n)
    else Low(Signed(x) / Pow2(n))
  }

  /** Five bits of the constant shift as the constant does. */
  ghost predicate FieldMeans(kind: Opcode, c: nat) {
    forall x: Word :: ShiftWord(kind, x, FieldAmount(kind, c % 32)) == ShiftWord(kind, x, c)
  }

  predicate FieldFits(kind: Opcode, c: nat) {
    if c < 32 then c != 0 || kind == Sll
    else (kind == Srl && c % 32 == 0) || (kind == Sra && (c % 32 == 0 || c % 32 == 31))
  }

  /** The five bits of a constant that are encoded, folded or not, shift as the constant would
      exactly for amounts 1 to 31 and a few that shift everything out alike. */
  lemma FieldIsExact(kind: Opcode, c: nat)
    requires IsShift(kind)
    ensures FieldMeans(kind, c) <==> FieldFits(kind, c)
  {
    if c >= 32 {
      WideShift(kind, c);
    } else if c == 0 && kind != Sll {
      ZeroShift(kind);
    } else {
      assert FieldAmount(kind, c % 32) == c;
    }
  }

  lemma ZeroShift(kind: Opcode)
    requires kind == Srl || kind == Sra
    ensures !FieldMeans(kind, 0)
  {
    OnlySign(1, 32);
    assert Pow2(0) == 1;
    assert ShiftWord(kind, 1, FieldAmount(kind, 0)) == 0;
    assert ShiftWord(kind, 1, 0) == 1;
  }

  lemma Powers(c: nat)
    ensures Pow2(30) == 0x4000_0000 && Pow2(31) == 0x8000_0000 && Pow2(32) == 0x1_0000_0000
    ensures c >= 32 ==> Pow2(c) >= 0x1_0000_0000
    ensures c <= 31 ==> 1 <= Pow2(c) <= 0x8000_0000
    ensures c <= 30 ==> Pow2(c) <= 0x4000_0000
  {
    Pow2Values();
    if c >= 32 {
      Pow2Grows(32, c);
    } else {
      Pow2Grows(c, 31);
      if c <= 30 {
        Pow2Grows(c, 30);
      }
    }
  }

  /** A shift by 31 or more leaves only the sign. */
  lemma OnlySign(x: Word, n: nat)
    requires n >= 31
    ensures Signed(x) / Pow2(n) == (if x < 0x8000_0000 then 0 else -1)
    ensures n >= 32 ==> x / Pow2(n) == 0
  {
    Powers(n);
    Quotient(Signed(x), Pow2(n));
    Quotient(x, Pow2(n));
  }

  lemma Quotient(x: int, d: int)
    requires d > 0
    ensures 0 <= x < d ==> x / d == 0
    ensures -d <= x < 0 ==> x / d == -1
    ensures x >= d ==> x / d >= 1
  {
  }

  lemma {:induction false} LowPower(c: nat)
    requires c >= 32
    ensures Low(Pow2(c)) == 0
    decreases c
  {
    Powers(32);
    if c > 32 {
      LowPower(c - 1);
      assert Pow2(c) == 2 * Pow2(c - 1);
    }
  }

  lemma WideShift(kind: Opcode, c: nat)
    requires IsShift(kind) && c >= 32
    ensures FieldMeans(kind, c) <==> FieldFits(kind, c)
  {
    var f := c % 32;
    if FieldFits(kind, c) {
      WideFits(kind, c);
    } else {
      var x: Word := if kind == Sll then 1 else if kind == Srl then 0x8000_0000 else 0x4000_0000;
      WideMisses(kind, c, x);
      assert ShiftWord(kind, x, FieldAmount(kind, f)) != ShiftWord(kind, x, c);
    }
  }

  lemma WideFits(kind: Opcode, c: nat)
    requires c >= 32 && FieldFits(kind, c)
    ensures FieldMeans(kind, c)
  {
    var n := FieldAmount(kind, c % 32);
    forall x: Word ensures ShiftWord(kind, x, n) == ShiftWord(kind, x, c) {
      OnlySign(x, n);
      OnlySign(x, c);
    }
  }

  /** A bit that the field leaves in and the constant shifts out. */
  lemma WideMisses(kind: Opcode, c: nat, x: Word)
    requires IsShift(kind) && c >= 32 && !FieldFits(kind, c)
    requires x == if kind == Sll then 1 else if kind == Srl then 0x8000_0000 else 0x4000_0000
    ensures ShiftWord(kind, x, FieldAmount(kind, c % 32)) != 0 && ShiftWord(kind, x, c) == 0
  {
    var f := c % 32;
    Powers(f);
    Powers(c);
    if kind == Sll {
      LowPower(c);
    } else {
      Quotient(x, Pow2(f));
      Quotient(x, Pow2(c));
      Smaller(x, Pow2(f));
    }
  }

  lemma Smaller(x: nat, d: int)
    requires d >= 1
    ensures 0 <= x / d <= x
  {
  }
}

/** Short-circuit conditions compiled to back-patched branches (src/cmd/5c/cgen.c).

`Boolgen` emits, for a condition and a wanted truth value, code that falls through when
the condition has that value and otherwise takes one branch, which the caller patches.
The reference is `Truth`: the value and the operand evaluations, in order, that sections
6.5.13 to 6.5.17 of ISO C99 prescribe.
*/
module BoolGen {

  import opened Common

  // ---------------------------------------------------------------- relations

  datatype Rel = OEQ | ONE | OLE | OLS | OLT | OLO | OGE | OHS | OGT | OHI

  function Unsigned(x: int): int {
    x % 0x1_0000_0000
  }

  /** Whether `a` stands in relation `o` to `b`; the last four compare as unsigned words. */
  predicate Holds(o: Rel, a: int, b: int) {
    match o
    case OEQ => a == b
    case ONE => a != b
    case OLE => a <= b
    case OLT => a < b
    case OGE => a >= b
    case OGT => a > b
    case OLS => Unsigned(a) <= Unsigned(b)
    case OLO => Unsigned(a) < Unsigned(b)
    case OHS => Unsigned(a) >= Unsigned(b)
    case OHI => Unsigned(a) > Unsigned(b)
  }

  /** The table comrel: the relation that holds exactly when `o` does not. */
  function Comrel(o: Rel): (r: Rel)
    ensures forall a, b :: Holds(r, a, b) <==> !Holds(o, a, b)
  {
    match o
    case OEQ => ONE
    case ONE => OEQ
    case OLE => OGT
    case OLS => OHI
    case OLT => OGE
    case OLO => OHS
    case OGE => OLT
    case OHS => OLO
    case OGT => OLE
    case OHI => OLS
  }

  /** The table invrel: the same relation with its sides exchanged. */
  function Invrel(o: Rel): (r: Rel)
    ensures forall a, b :: Holds(r, b, a) <==> Holds(o, a, b)
  {
    match o
    case OEQ => OEQ
    case ONE => ONE
    case OLE => OGE
    case OLS => OHS
    case OLT => OGT
    case OLO => OHI
    case OGE => OLE
    case OHS => OLS
    case OGT => OLT
    case OHI => OLO
  }

  // ---------------------------------------------------------------- conditions and their meaning

  /** An operand: a constant, or an expression with the compiler's estimate of how hard it
      is.  Estimates of FNX and more mean that evaluating it calls a function. */
  datatype Expr = Const(v: int) | Compute(id: nat, complex: nat)

  datatype Node =
    | Value(e: Expr)
    | Relation(op: Rel, l: Expr, r: Expr)
    | Comma(first: Expr, second: Node)
    | Not(n: Node)
    | Cond(c: Node, t: Node, f: Node)
    | AndAnd(a: Node, b: Node)
    | OrOr(a: Node, b: Node)

  const FNX: nat := 100

  /** What was evaluated so far, in order.  An operand's value may depend on all of it, so
      every side effect an operand can have is covered. */
  type History = seq<nat>
  type Env = (nat, History) -> int

  function Eval(e: Expr, h: History, env: Env): (int, History) {
    match e
    case Const(v) => (v, h)
    case Compute(id, _) => (env(id, h), h + [id])
  }

  function Complexity(e: Expr): nat {
    match e
    case Const(_) => 0
    case Compute(_, complex) => complex
  }

  /** C leaves the order of a relation's operands open; this is the compiler's choice. */
  predicate RightFirst(l: Expr, r: Expr) {
    (Complexity(l) >= FNX && Complexity(r) >= FNX) || Complexity(l) < Complexity(r)
  }

  /** The truth of a condition and the history after evaluating it. */
  function Truth(n: Node, h: History, env: Env): (bool, History) {
    match n
    case Value(e) =>
      var (v, h1) := Eval(e, h, env);
      (v != 0, h1)
    case Relation(op, l, r) =>
      if RightFirst(l, r) then
        var (y, h1) := Eval(r, h, env);
        var (x, h2) := Eval(l, h1, env);
        (Holds(op, x, y), h2)
      else
        var (x, h1) := Eval(l, h, env);
        var (y, h2) := Eval(r, h1, env);
        (Holds(op, x, y), h2)
    case Comma(first, second) =>
      var (_, h1) := Eval(first, h, env);
      Truth(second, h1, env)
    case Not(m) =>
      var (t, h1) := Truth(m, h, env);
      (!t, h1)
    case Cond(c, t, f) =>
      var (b, h1) := Truth(c, h, env);
      Truth(if b then t else f, h1, env)
    case AndAnd(a, b) =>
      var (t, h1) := Truth(a, h, env);
      if t then Truth(b, h1, env) else (false, h1)
    case OrOr(a, b) =>
      var (t, h1) := Truth(a, h, env);
      if t then (true, h1) else Truth(b, h1, env)
  }

  // ---------------------------------------------------------------- emitted code

  /** The temporaries of one relation, and the safe slot that survives a function call. */
  datatype Temp = Nod | Nod1 | Safe

  datatype Operand = Reg(t: Temp) | Imm(v: int)

  datatype Instr =
    | Load(e: Expr, dst: Option<Temp>)
    | Move(src: Temp, to: Temp)
    | Store(v: int)
    | Cmp(f1: Operand, f2: Operand)
    | Branch(o: Rel, target: Option<nat>)
    | Goto(target: Option<nat>)

  datatype State = State(hist: History, temps: map<Temp, int>, cmp: (int, int), dest: int)

  function Get(o: Operand, s: State): int {
    match o
    case Imm(v) => v
    case Reg(t) => if t in s.temps then s.temps[t] else 0
  }

  /** Where a run of the code ends: past its end, or at a branch not yet patched. */
  datatype Outcome = Falls(s: State) | Takes(at: nat, s: State) | Stuck

  predicate IsBranch(i: Instr) {
    i.Branch? || i.Goto?
  }

  /** The effect of an instruction, apart from where it goes next. */
  function Step(i: Instr, s: State, env: Env): State {
    match i
    case Load(e, dst) =>
      var (v, h) := Eval(e, s.hist, env);
      s.(hist := h, temps := if dst.Some? then s.temps[dst.value := v] else s.temps)
    case Move(src, to) => s.(temps := s.temps[to := Get(Reg(src), s)])
    case Store(v) => s.(dest := v)
    case Cmp(f1, f2) => s.(cmp := (Get(f2, s), Get(f1, s)))
    case _ => s
  }

  predicate Jumps(i: Instr, s: State) {
    i.Goto? || (i.Branch? && Holds(i.o, s.cmp.0, s.cmp.1))
  }

  function Exec(code: seq<Instr>, pc: nat, s: State, env: Env): Outcome
    decreases |code| - pc
  {
    if pc >= |code| then Falls(s)
    else
      var i := code[pc];
      if !IsBranch(i) then Exec(code, pc + 1, Step(i, s, env), env)
      else if !Jumps(i, s) then Exec(code, pc + 1, s, env)
      else if i.target == None then Takes(pc, s)
      else if pc < i.target.value <= |code| then Exec(code, i.target.value, s, env)
      else Stuck
  }

  predicate Open(i: Instr) {
    IsBranch(i) && i.target == None
  }

  function Patched(code: seq<Instr>, p: nat, t: nat): (r: seq<Instr>)
    requires p < |code| && IsBranch(code[p])
  {
    code[p := code[p].(target := Some(t))]
  }

  /** Code added at the end is reached exactly by falling through what was there. */
  lemma {:induction false} ExecAppend(code: seq<Instr>, more: seq<Instr>, pc: nat, s: State, env: Env)
    requires pc <= |code| && Exec(code, pc, s, env) != Stuck
    ensures var o := Exec(code, pc, s, env);
            Exec(code + more, pc, s, env) ==
              if o.Falls? then Exec(code + more, |code|, o.s, env) else o
    decreases |code| - pc
  {
    if pc < |code| {
      var i := code[pc];
      assert (code + more)[pc] == i;
      if !IsBranch(i) {
        ExecAppend(code, more, pc + 1, Step(i, s, env), env);
      } else if !Jumps(i, s) {
        ExecAppend(code, more, pc + 1, s, env);
      } else if i.target != None {
        ExecAppend(code, more, i.target.value, s, env);
      }
    }
  }

  /** Patching a branch to the end of the code turns taking it into falling through. */
  lemma {:induction false} ExecPatch(code: seq<Instr>, p: nat, pc: nat, s: State, env: Env)
    requires pc <= |code| && p < |code| && Open(code[p])
    ensures var o := Exec(code, pc, s, env);
            Exec(Patched(code, p, |code|), pc, s, env) ==
              if o.Takes? && o.at == p then Falls(o.s) else o
    decreases |code| - pc
  {
    if pc < |code| {
      var i := code[pc];
      if !IsBranch(i) {
        ExecPatch(code, p, pc + 1, Step(i, s, env), env);
      } else if !Jumps(i, s) {
        ExecPatch(code, p, pc + 1, s, env);
      } else if i.target != None && pc < i.target.value <= |code| {
        ExecPatch(code, p, i.target.value, s, env);
      }
    }
  }

  // ---------------------------------------------------------------- what boolgen promises

  /** No branch is left open from `start` up to `end`. */
  predicate Closed(code: seq<Instr>, start: nat, end: nat) {
    start <= end <= |code| && forall k :: start <= k < end ==> !Open(code[k])
  }

  /** From `start`, the code evaluates `n` and nothing else; it falls through when the
      condition is `sense` and otherwise takes its last instruction, its one open branch. */
  ghost predicate Tests(code: seq<Instr>, start: nat, n: Node, sense: bool) {
    && start < |code|
    && Open(code[|code| - 1]) && Closed(code, start, |code| - 1)
    && forall s: State, env: Env :: TestsFrom(code, start, n, sense, s, env)
  }

  ghost predicate TestsFrom(code: seq<Instr>, start: nat, n: Node, sense: bool, s: State, env: Env) {
    var o := Exec(code, start, s, env);
    var (t, h) := Truth(n, s.hist, env);
    && o != Stuck && o.s.hist == h && o.s.dest == s.dest
    && (if t == sense then o.Falls? else o.Takes? && o.at == |code| - 1)
  }

  /** From `start`, the code evaluates `n`, stores whether it is `sense`, and falls through; no
      branch in it is open. */
  ghost predicate Stores(code: seq<Instr>, start: nat, n: Node, sense: bool) {
    && Closed(code, start, |code|)
    && forall s: State, env: Env :: StoresFrom(code, start, n, sense, s, env)
  }

  ghost predicate StoresFrom(code: seq<Instr>, start: nat, n: Node, sense: bool, s: State, env: Env) {
    var o := Exec(code, start, s, env);
    var (t, h) := Truth(n, s.hist, env);
    o.Falls? && o.s.hist == h && o.s.dest == if t == sense then 1 else 0
  }

  ghost predicate Extends(code: seq<Instr>, before: seq<Instr>) {
    |before| <= |code| && code[..|before|] == before
  }

  /** Running on from code already understood into what a later call added. */
  lemma Continue(c1: seq<Instr>, c2: seq<Instr>, pc: nat, s: State, env: Env)
    requires Extends(c2, c1) && pc <= |c1| && Exec(c1, pc, s, env) != Stuck
    ensures var o := Exec(c1, pc, s, env);
            Exec(c2, pc, s, env) == if o.Falls? then Exec(c2, |c1|, o.s, env) else o
  {
    assert c2 == c1 + c2[|c1|..];
    ExecAppend(c1, c2[|c1|..], pc, s, env);
  }

  lemma PatchCloses(code: seq<Instr>, start: nat, p: nat, t: nat, end: nat)
    requires Closed(code, start, p) && p < end <= |code| && IsBranch(code[p]) && Closed(code, p + 1, end)
    ensures Closed(Patched(code, p, t), start, end)
  {
  }

  lemma ExtendsClosed(c2: seq<Instr>, c1: seq<Instr>, start: nat, end: nat)
    requires Extends(c2, c1) && Closed(c1, start, end)
    ensures Closed(c2, start, end)
  {
    forall k | start <= k < end ensures !Open(c2[k]) {
      assert c2[k] == c2[..|c1|][k];
    }
  }

  lemma AppendClosed(code: seq<Instr>, i: Instr, start: nat, end: nat)
    requires Closed(code, start, end)
    ensures Closed(code + [i], start, end)
  {
  }

  /** && for a wanted true, || for a wanted false: fall through when both parts agree. */
  lemma BothCase(c1: seq<Instr>, c2: seq<Instr>, start: nat, n: Node, a: Node, b: Node, sense: bool)
    requires Tests(c1, start, a, sense) && Tests(c2, |c1|, b, !sense) && Extends(c2, c1)
    requires n == if sense then AndAnd(a, b) else OrOr(a, b)
    ensures var c3 := Patched(c2, |c1| - 1, |c2|) + [Goto(None)];
            Tests(Patched(c3, |c2| - 1, |c3|), start, n, sense)
  {
    var c2' := Patched(c2, |c1| - 1, |c2|);
    var c3 := c2' + [Goto(None)];
    var c4 := Patched(c3, |c2| - 1, |c3|);
    assert Open(c4[|c4| - 1]);
    ExtendsClosed(c2, c1, start, |c1| - 1);
    PatchCloses(c2, start, |c1| - 1, |c2|, |c2| - 1);
    AppendClosed(c2', Goto(None), start, |c2| - 1);
    PatchCloses(c3, start, |c2| - 1, |c3|, |c2|);
    forall s: State, env: Env ensures TestsFrom(c4, start, n, sense, s, env) {
      assert TestsFrom(c1, start, a, sense, s, env);
      var o1 := Exec(c1, start, s, env);
      assert TestsFrom(c2, |c1|, b, !sense, o1.s, env);
      Continue(c1, c2, start, s, env);
      ExecPatch(c2, |c1| - 1, start, s, env);
      ExecAppend(c2', [Goto(None)], start, s, env);
      ExecPatch(c3, |c2| - 1, start, s, env);
    }
  }

  /** || for a wanted true, && for a wanted false: fall through as soon as one part agrees. */
  lemma EitherCase(c1: seq<Instr>, c2: seq<Instr>, start: nat, n: Node, a: Node, b: Node, sense: bool)
    requires Tests(c1, start, a, !sense) && Tests(c2, |c1|, b, !sense) && Extends(c2, c1)
    requires n == if sense then OrOr(a, b) else AndAnd(a, b)
    ensures var c3 := c2 + [Goto(None)];
            Tests(Patched(Patched(c3, |c1| - 1, |c3|), |c2| - 1, |c3|), start, n, sense)
  {
    var c3 := c2 + [Goto(None)];
    var c4 := Patched(c3, |c1| - 1, |c3|);
    var c5 := Patched(c4, |c2| - 1, |c3|);
    assert Open(c5[|c5| - 1]);
    ExtendsClosed(c2, c1, start, |c1| - 1);
    AppendClosed(c2, Goto(None), start, |c1| - 1);
    AppendClosed(c2, Goto(None), |c1|, |c2| - 1);
    PatchCloses(c3, start, |c1| - 1, |c3|, |c2| - 1);
    PatchCloses(c4, start, |c2| - 1, |c3|, |c2|);
    forall s: State, env: Env ensures TestsFrom(c5, start, n, sense, s, env) {
      assert TestsFrom(c1, start, a, !sense, s, env);
      var o1 := Exec(c1, start, s, env);
      assert TestsFrom(c2, |c1|, b, !sense, o1.s, env);
      Continue(c1, c2, start, s, env);
      ExecAppend(c2, [Goto(None)], start, s, env);
      ExecPatch(c3, |c1| - 1, start, s, env);
      ExecPatch(c4, |c2| - 1, start, s, env);
    }
  }

  lemma CondCloses(c1: seq<Instr>, c2: seq<Instr>, c4: seq<Instr>, start: nat)
    requires c1 != [] && Open(c1[|c1| - 1]) && Closed(c1, start, |c1| - 1)
    requires Extends(c2, c1) && |c1| < |c2| && Open(c2[|c2| - 1]) && Closed(c2, |c1|, |c2| - 1)
    requires var c3 := c2 + [Goto(None)];
             Extends(c4, Patched(c3, |c1| - 1, |c3|)) && |c3| < |c4| && Open(c4[|c4| - 1]) && Closed(c4, |c3|, |c4| - 1)
    ensures var c5 := Patched(c4, |c2| - 1, |c4|) + [Goto(None)];
            Closed(Patched(Patched(c5, |c2|, |c5|), |c4| - 1, |c5|), start, |c4|)
  {
    var c3 := c2 + [Goto(None)];
    var c3' := Patched(c3, |c1| - 1, |c3|);
    ExtendsClosed(c2, c1, start, |c1| - 1);
    AppendClosed(c2, Goto(None), start, |c1| - 1);
    AppendClosed(c2, Goto(None), |c1|, |c2| - 1);
    PatchCloses(c3, start, |c1| - 1, |c3|, |c2| - 1);
    ExtendsClosed(c4, c3', start, |c2| - 1);
    assert forall k :: 0 <= k < |c3'| ==> c4[k] == c4[..|c3'|][k] == c3'[k];
    var c4' := Patched(c4, |c2| - 1, |c4|);
    PatchCloses(c4, start, |c2| - 1, |c4|, |c2|);
    var c5 := c4' + [Goto(None)];
    PatchCloses(c5, start, |c2|, |c5|, |c4| - 1);
    PatchCloses(Patched(c5, |c2|, |c5|), start, |c4| - 1, |c5|, |c4|);
  }

  /** ?: with its two arms tested for opposite truth values and three joins. */
  lemma CondCase(c1: seq<Instr>, c2: seq<Instr>, c4: seq<Instr>, start: nat, n: Node, sense: bool)
    requires n.Cond?
    requires Tests(c1, start, n.c, true) && Tests(c2, |c1|, n.t, sense) && Extends(c2, c1)
    requires var c3 := c2 + [Goto(None)];
             Extends(c4, Patched(c3, |c1| - 1, |c3|)) && Tests(c4, |c3|, n.f, !sense)
    ensures var c5 := Patched(c4, |c2| - 1, |c4|) + [Goto(None)];
            Tests(Patched(Patched(c5, |c2|, |c5|), |c4| - 1, |c5|), start, n, sense)
  {
    var c3 := c2 + [Goto(None)];
    var c3' := Patched(c3, |c1| - 1, |c3|);
    var c4' := Patched(c4, |c2| - 1, |c4|);
    var c5 := c4' + [Goto(None)];
    var c6 := Patched(c5, |c2|, |c5|);
    var c7 := Patched(c6, |c4| - 1, |c5|);
    assert Open(c7[|c7| - 1]);
    CondCloses(c1, c2, c4, start);
    forall s: State, env: Env ensures TestsFrom(c7, start, n, sense, s, env) {
      assert TestsFrom(c1, start, n.c, true, s, env);
      var o1 := Exec(c1, start, s, env);
      assert TestsFrom(c2, |c1|, n.t, sense, o1.s, env);
      assert TestsFrom(c4, |c3|, n.f, !sense, o1.s, env);
      Continue(c1, c2, start, s, env);
      ExecAppend(c2, [Goto(None)], start, s, env);
      ExecPatch(c3, |c1| - 1, start, s, env);
      Continue(c3', c4, start, s, env);
      ExecPatch(c4, |c2| - 1, start, s, env);
      ExecAppend(c4', [Goto(None)], start, s, env);
      ExecPatch(c5, |c2|, start, s, env);
      ExecPatch(c6, |c4| - 1, start, s, env);
    }
  }

  /** A condition whose code has been emitted, with the stores of 1 and 0 behind it. */
  lemma StoreCase(c1: seq<Instr>, start: nat, n: Node, sense: bool)
    requires Tests(c1, start, n, sense)
    ensures var c2 := c1 + [Store(1)] + [Goto(None)];
            var c3 := Patched(c2, |c1| - 1, |c2|) + [Store(0)];
            Stores(Patched(c3, |c2| - 1, |c3|), start, n, sense)
  {
    var c1' := c1 + [Store(1)];
    var c2 := c1' + [Goto(None)];
    var c2' := Patched(c2, |c1| - 1, |c2|);
    var c3 := c2' + [Store(0)];
    var c4 := Patched(c3, |c2| - 1, |c3|);
    AppendClosed(c1, Store(1), start, |c1| - 1);
    AppendClosed(c1', Goto(None), start, |c1| - 1);
    PatchCloses(c2, start, |c1| - 1, |c2|, |c2| - 1);
    AppendClosed(c2', Store(0), start, |c2| - 1);
    PatchCloses(c3, start, |c2| - 1, |c3|, |c3|);
    forall s: State, env: Env ensures StoresFrom(c4, start, n, sense, s, env) {
      assert TestsFrom(c1, start, n, sense, s, env);
      ExecAppend(c1, [Store(1)], start, s, env);
      ExecAppend(c1', [Goto(None)], start, s, env);
      ExecPatch(c2, |c1| - 1, start, s, env);
      ExecAppend(c2', [Store(0)], start, s, env);
      ExecPatch(c3, |c2| - 1, start, s, env);
    }
  }

  // ---------------------------------------------------------------- relations, compared

  predicate Straight(block: seq<Instr>) {
    forall i :: 0 <= i < |block| ==> !IsBranch(block[i])
  }

  function Run(block: seq<Instr>, s: State, env: Env): State
    requires Straight(block)
  {
    if block == [] then s else Run(block[1..], Step(block[0], s, env), env)
  }

  lemma {:induction false} ExecStraight(before: seq<Instr>, block: seq<Instr>, after: seq<Instr>, s: State, env: Env)
    requires Straight(block)
    ensures Exec(before + block + after, |before|, s, env) ==
            Exec(before + block + after, |before + block|, Run(block, s, env), env)
    decreases |block|
  {
    if block != [] {
      var code := before + block + after;
      assert code == (before + block[..1]) + block[1..] + after;
      assert code[|before|] == block[0];
      ExecStraight(before + block[..1], block[1..], after, Step(block[0], s, env), env);
      assert |before + block| == |(before + block[..1]) + block[1..]|;
    }
  }

  /** An operand of a relation: an expression, or a value kept in the safe slot. */
  datatype Side = Of(e: Expr) | Kept

  function LoadOf(x: Side, dst: Temp): Instr {
    if x == Kept then Move(Safe, dst) else Load(x.e, Some(dst))
  }

  /** The comparison boolgen emits for two sides, and the relation its branch tests. */
  function Compare(o: Rel, l: Expr, r: Side): (seq<Instr>, Rel) {
    if l.Const? then ([LoadOf(r, Nod), Cmp(Imm(l.v), Reg(Nod))], Invrel(o))
    else if r.Of? && r.e.Const? then ([LoadOf(Of(l), Nod), Cmp(Imm(r.e.v), Reg(Nod))], o)
    else if r == Kept || Complexity(l) >= Complexity(r.e) then
      ([LoadOf(Of(l), Nod1), LoadOf(r, Nod), Cmp(Reg(Nod), Reg(Nod1))], o)
    else ([LoadOf(r, Nod), LoadOf(Of(l), Nod1), Cmp(Reg(Nod), Reg(Nod1))], o)
  }

  /** The values of the two sides and the history after both, in the compiler's order. */
  function Sides(l: Expr, r: Side, s: State, env: Env): (int, int, History) {
    if r == Kept then
      var (x, h) := Eval(l, s.hist, env);
      (x, Get(Reg(Safe), s), h)
    else if RightFirst(l, r.e) then
      var (y, h) := Eval(r.e, s.hist, env);
      var (x, h') := Eval(l, h, env);
      (x, y, h')
    else
      var (x, h) := Eval(l, s.hist, env);
      var (y, h') := Eval(r.e, h, env);
      (x, y, h')
  }

  lemma RunTwo(a: Instr, b: Instr, s: State, env: Env)
    requires Straight([a, b])
    ensures Run([a, b], s, env) == Step(b, Step(a, s, env), env)
  {
    assert [a, b][1..] == [b];
    assert Run([b], Step(a, s, env), env) == Step(b, Step(a, s, env), env);
  }

  lemma RunThree(a: Instr, b: Instr, c: Instr, s: State, env: Env)
    requires Straight([a, b, c])
    ensures Run([a, b, c], s, env) == Step(c, Step(b, Step(a, s, env), env), env)
  {
    assert [a, b, c][1..] == [b, c];
    RunTwo(b, c, Step(a, s, env), env);
  }

  /** Whatever shape was chosen, the branch tests `o` of the two values, left then right. */
  lemma CompareTests(o: Rel, l: Expr, r: Side, s: State, env: Env)
    requires r.Of? ==> !(Complexity(l) >= FNX && Complexity(r.e) >= FNX)
    ensures var (block, o') := Compare(o, l, r);
            Straight(block) &&
            var s' := Run(block, s, env);
            var (x, y, h) := Sides(l, r, s, env);
            s'.dest == s.dest && s'.hist == h && (Holds(o', s'.cmp.0, s'.cmp.1) <==> Holds(o, x, y))
  {
    var (block, o') := Compare(o, l, r);
    if |block| == 2 {
      RunTwo(block[0], block[1], s, env);
      assert block == [block[0], block[1]];
    } else {
      RunThree(block[0], block[1], block[2], s, env);
      assert block == [block[0], block[1], block[2]];
    }
    var (x, y, h) := Sides(l, r, s, env);
    var s' := Run(block, s, env);
    if l.Const? {
      assert s'.cmp == (y, x) && s'.hist == h;
    } else {
      assert s'.cmp == (x, y) && s'.hist == h;
    }
  }

  /** What is emitted for a whole relation; when both sides call functions the right one is
      evaluated first and kept across the other's call. */
  function Related(n: Node, sense: bool): (seq<Instr>, Rel)
    requires n.Relation?
  {
    var o := if sense then Comrel(n.op) else n.op;
    if Complexity(n.l) >= FNX && Complexity(n.r) >= FNX then
      var (block, o') := Compare(o, n.l, Kept);
      ([Load(n.r, Some(Nod)), Move(Nod, Safe)] + block, o')
    else Compare(o, n.l, Of(n.r))
  }

  lemma RelationCase(c0: seq<Instr>, n: Node, sense: bool)
    requires n.Relation?
    ensures var (block, o) := Related(n, sense);
            Tests(c0 + block + [Branch(o, None)], |c0|, n, sense)
  {
    var (block, o) := Related(n, sense);
    var code := c0 + block + [Branch(o, None)];
    var both := Complexity(n.l) >= FNX && Complexity(n.r) >= FNX;
    var o0 := if sense then Comrel(n.op) else n.op;
    forall s: State, env: Env ensures TestsFrom(code, |c0|, n, sense, s, env) {
      if both {
        var s1 := Step(block[0], s, env);
        var s2 := Step(block[1], s1, env);
        var rest := Compare(o0, n.l, Kept).0;
        assert block[1..][1..] == rest;
        CompareTests(o0, n.l, Kept, s2, env);
        assert Run(block, s, env) == Run(block[1..], s1, env) == Run(rest, s2, env);
      } else {
        CompareTests(o0, n.l, Of(n.r), s, env);
      }
      ExecStraight(c0, block, [Branch(o, None)], s, env);
    }
  }

  lemma ValueCase(c0: seq<Instr>, n: Node, sense: bool)
    requires n.Value? && n.e.Compute?
    ensures var o := if sense then Comrel(ONE) else ONE;
            Tests(c0 + [Load(n.e, Some(Nod)), Cmp(Imm(0), Reg(Nod))] + [Branch(o, None)], |c0|, n, sense)
  {
    var o := if sense then Comrel(ONE) else ONE;
    var block := [Load(n.e, Some(Nod)), Cmp(Imm(0), Reg(Nod))];
    var code := c0 + block + [Branch(o, None)];
    forall s: State, env: Env ensures TestsFrom(code, |c0|, n, sense, s, env) {
      var s1 := Step(block[0], s, env);
      assert Run(block, s, env) == Run(block[1..], s1, env) == Step(block[1], s1, env);
      ExecStraight(c0, block, [Branch(o, None)], s, env);
    }
  }

  lemma ConstCase(c: seq<Instr>, start: nat, n: Node, sense: bool)
    requires n.Value? && n.e.Const? && start < |c|
    requires if (n.e.v != 0) == sense then |c| == start + 2 && c[start..] == [Goto(Some(start + 2)), Goto(None)]
             else |c| == start + 1 && c[start..] == [Goto(None)]
    ensures Tests(c, start, n, sense)
  {
    assert c[start] == c[start..][0];
    if (n.e.v != 0) == sense {
      assert c[start + 1] == c[start..][1];
    }
    forall s: State, env: Env ensures TestsFrom(c, start, n, sense, s, env) {
    }
  }

  lemma CommaCase(c: seq<Instr>, start: nat, n: Node, sense: bool, nn: bool)
    requires n.Comma? && start < |c| && c[start] == Load(n.first, None)
    requires if nn then Stores(c, start + 1, n.second, sense) else Tests(c, start + 1, n.second, sense)
    ensures if nn then Stores(c, start, n, sense) else Tests(c, start, n, sense)
  {
    forall s: State, env: Env ensures if nn then StoresFrom(c, start, n, sense, s, env) else TestsFrom(c, start, n, sense, s, env) {
      var s1 := Step(c[start], s, env);
      assert if nn then StoresFrom(c, start + 1, n.second, sense, s1, env) else TestsFrom(c, start + 1, n.second, sense, s1, env);
    }
  }

  lemma NotCase(c: seq<Instr>, start: nat, n: Node, sense: bool, nn: bool)
    requires n.Not?
    requires if nn then Stores(c, start, n.n, !sense) else Tests(c, start, n.n, !sense)
    ensures if nn then Stores(c, start, n, sense) else Tests(c, start, n, sense)
  {
    forall s: State, env: Env ensures if nn then StoresFrom(c, start, n, sense, s, env) else TestsFrom(c, start, n, sense, s, env) {
      assert if nn then StoresFrom(c, start, n.n, !sense, s, env) else TestsFrom(c, start, n.n, !sense, s, env);
    }
  }

  // ---------------------------------------------------------------- the code generator

  class Generator {
    var code: seq<Instr>

    method Emit(i: Instr)
      modifies this
      ensures code == old(code) + [i]
    {
      code := code + [i];
    }

    method Patch(p: nat, t: nat)
      requires p < |code| && IsBranch(code[p])
      modifies this
      ensures code == Patched(old(code), p, t)
    {
      code := code[p := code[p].(target := Some(t))];
    }

    /** The tail `com`: store the outcome when there is a destination. */
    method Com(nn: bool, ghost start: nat, ghost n: Node, ghost sense: bool)
      requires Tests(code, start, n, sense)
      modifies this
      ensures Extends(code, old(code)[..start])
      ensures if nn then Stores(code, start, n, sense) else code == old(code)
    {
      if nn {
        StoreCase(code, start, n, sense);
        var p1 := |code| - 1;
        Emit(Store(1));
        Emit(Goto(None));
        var p2 := |code| - 1;
        Patch(p1, |code|);
        Emit(Store(0));
        Patch(p2, |code|);
      }
    }

    /** Compare and branch on a relation of which at most one side calls a function. */
    method CompareSides(o: Rel, l: Expr, r: Side)
      modifies this
      ensures var (block, o') := Compare(o, l, r);
              code == old(code) + block + [Branch(o', None)]
    {
      if l.Const? {
        Emit(LoadOf(r, Nod));
        Emit(Cmp(Imm(l.v), Reg(Nod)));
        Emit(Branch(Invrel(o), None));
      } else if r.Of? && r.e.Const? {
        Emit(Load(l, Some(Nod)));
        Emit(Cmp(Imm(r.e.v), Reg(Nod)));
        Emit(Branch(o, None));
      } else {
        if r == Kept || Complexity(l) >= Complexity(r.e) {
          Emit(Load(l, Some(Nod1)));
          Emit(LoadOf(r, Nod));
        } else {
          Emit(LoadOf(r, Nod));
          Emit(Load(l, Some(Nod1)));
        }
        Emit(Cmp(Reg(Nod), Reg(Nod1)));
        Emit(Branch(o, None));
      }
    }

    method RelationOf(n: Node, sense: bool, nn: bool)
      requires n.Relation?
      modifies this
      ensures Extends(code, old(code))
      ensures if nn then Stores(code, old(|code|), n, sense) else Tests(code, old(|code|), n, sense)
    {
      var o := if sense then Comrel(n.op) else n.op;
      if Complexity(n.l) >= FNX && Complexity(n.r) >= FNX {
        Emit(Load(n.r, Some(Nod)));
        Emit(Move(Nod, Safe));
        CompareSides(o, n.l, Kept);
      } else {
        CompareSides(o, n.l, Of(n.r));
      }
      RelationCase(old(code), n, sense);
      assert code == old(code) + Related(n, sense).0 + [Branch(Related(n, sense).1, None)];
      Com(nn, |old(code)|, n, sense);
    }

    method Question(n: Node, sense: bool, nn: bool)
      requires n.Cond?
      modifies this
      ensures Extends(code, old(code))
      ensures if nn then Stores(code, old(|code|), n, sense) else Tests(code, old(|code|), n, sense)
      decreases n, 0
    {
      ghost var start := |code|;
      Boolgen(n.c, true, false);
      ghost var c1 := code;
      var p1 := |code| - 1;
      Boolgen(n.t, sense, false);
      ghost var c2 := code;
      var p2 := |code| - 1;
      Emit(Goto(None));
      Patch(p1, |code|);
      p1 := |code| - 1;
      Boolgen(n.f, !sense, false);
      ghost var c4 := code;
      Patch(p2, |code|);
      p2 := |code| - 1;
      Emit(Goto(None));
      Patch(p1, |code|);
      Patch(p2, |code|);
      CondCase(c1, c2, c4, start, n, sense);
      Com(nn, start, n, sense);
    }

    /** The label `caseand`. */
    method Both(n: Node, a: Node, b: Node, sense: bool, nn: bool)
      requires n == if sense then AndAnd(a, b) else OrOr(a, b)
      modifies this
      ensures Extends(code, old(code))
      ensures if nn then Stores(code, old(|code|), n, sense) else Tests(code, old(|code|), n, sense)
      decreases n, 0
    {
      ghost var start := |code|;
      Boolgen(a, sense, false);
      ghost var c1 := code;
      var p1 := |code| - 1;
      Boolgen(b, !sense, false);
      ghost var c2 := code;
      var p2 := |code| - 1;
      Patch(p1, |code|);
      Emit(Goto(None));
      Patch(p2, |code|);
      BothCase(c1, c2, start, n, a, b, sense);
      Com(nn, start, n, sense);
    }

    /** The label `caseor`. */
    method Either(n: Node, a: Node, b: Node, sense: bool, nn: bool)
      requires n == if sense then OrOr(a, b) else AndAnd(a, b)
      modifies this
      ensures Extends(code, old(code))
      ensures if nn then Stores(code, old(|code|), n, sense) else Tests(code, old(|code|), n, sense)
      decreases n, 0
    {
      ghost var start := |code|;
      Boolgen(a, !sense, false);
      ghost var c1 := code;
      var p1 := |code| - 1;
      Boolgen(b, !sense, false);
      ghost var c2 := code;
      var p2 := |code| - 1;
      Emit(Goto(None));
      Patch(p1, |code|);
      Patch(p2, |code|);
      EitherCase(c1, c2, start, n, a, b, sense);
      Com(nn, start, n, sense);
    }

    method Boolgen(n: Node, sense: bool, nn: bool)
      modifies this
      ensures Extends(code, old(code))
      ensures if nn then Stores(code, old(|code|), n, sense) else Tests(code, old(|code|), n, sense)
      decreases n, 1
    {
      ghost var start := |code|;
      match n
      case Value(Const(v)) =>
        var o := if sense then v != 0 else v == 0;
        Emit(Goto(None));
        if o {
          var p1 := |code| - 1;
          Emit(Goto(None));
          Patch(p1, |code|);
        }
        ConstCase(code, start, n, sense);
        Com(nn, start, n, sense);

      case Value(Compute(_, _)) =>
        Emit(Load(n.e, Some(Nod)));
        Emit(Cmp(Imm(0), Reg(Nod)));
        Emit(Branch(if sense then Comrel(ONE) else ONE, None));
        ValueCase(old(code), n, sense);
        assert code == old(code) + [Load(n.e, Some(Nod)), Cmp(Imm(0), Reg(Nod))] + [code[|code| - 1]];
        Com(nn, start, n, sense);

      case Relation(_, _, _) =>
        RelationOf(n, sense, nn);

      case Comma(first, second) =>
        Emit(Load(first, None));
        ghost var c1 := code;
        Boolgen(second, sense, nn);
        CommaCase(code, start, n, sense, nn);

      case Not(m) =>
        Boolgen(m, !sense, nn);
        NotCase(code, start, n, sense, nn);

      case Cond(_, _, _) =>
        Question(n, sense, nn);

      case AndAnd(a, b) =>
        if sense {
          Both(n, a, b, sense, nn);
        } else {
          Either(n, a, b, sense, nn);
        }

      case OrOr(a, b) =>
        if sense {
          Either(n, a, b, sense, nn);
        } else {
          Both(n, a, b, sense, nn);
        }
    }
  }
}

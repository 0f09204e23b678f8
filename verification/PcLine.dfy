/**
 * The table that maps program counters to source lines: the linker's encoder `asmlc`
 * (src/cmd/5l/asm.c) and its two readers `pc2line` and `line2addr` (src/libmach/sym.c).
 *
 * A table is a sequence of entries; each entry moves a state of pc and line.  The meaning of
 * a table is the sequence of states it goes through.
 */
module PcLine {

  import opened Common
  import opened Word32

  datatype State = State(pc: int, line: int)

  const HUGE: int := 0x7fff_ffff

  // ----- the meaning of a table -----

  /** A zero byte is followed by four bytes of line difference. */
  function Width(u: byte): nat {
    if u == 0 then 5 else 1
  }

  /** The entries from position `i` on fill the rest of the table exactly. */
  predicate Whole(t: seq<byte>, i: nat)
    decreases |t| - i
  {
    i == |t| || (i < |t| && i + Width(t[i]) <= |t| && Whole(t, i + Width(t[i])))
  }

  function Delta(t: seq<byte>, i: nat): int
    requires i < |t| && i + Width(t[i]) <= |t|
  {
    var u: int := t[i];
    if u == 0 then Word(t[i + 1], t[i + 2], t[i + 3], t[i + 4])
    else if u < 65 then u
    else if u < 129 then 64 - u
    else 0
  }

  /** Four bytes as a signed word, the highest first. */
  function Word(a: int, b: int, c: int, d: int): int {
    Wrap(((a * 256 + b) * 256 + c) * 256 + d)
  }

  /** How far one entry moves the pc. */
  function Stride(u: byte, quant: nat): int {
    (if u >= 129 then quant * (u - 129) else 0) + quant
  }

  function After(t: seq<byte>, i: nat, s: State, quant: nat): State
    requires i < |t| && i + Width(t[i]) <= |t|
  {
    State(s.pc + Stride(t[i], quant), if t[i] >= 129 then s.line else Wrap(s.line + Delta(t, i)))
  }

  /** The states from `s` on, the last one being that after the last entry. */
  function States(t: seq<byte>, i: nat, s: State, quant: nat): (ss: seq<State>)
    requires Whole(t, i)
    ensures |ss| > 0 && ss[0] == s
    decreases |t| - i
  {
    if i == |t| then [s] else [s] + States(t, i + Width(t[i]), After(t, i, s, quant), quant)
  }

  predicate Rising(ss: seq<State>) {
    forall j, k :: 0 <= j < k < |ss| ==> ss[j].pc < ss[k].pc
  }

  lemma StrideIsPositive(u: byte, quant: nat)
    requires quant > 0
    ensures Stride(u, quant) > 0
  {
    assert u >= 129 ==> quant * (u - 129) >= 0;
  }

  lemma {:induction false} StatesRise(t: seq<byte>, i: nat, s: State, quant: nat)
    requires Whole(t, i) && quant > 0
    ensures Rising(States(t, i, s, quant))
    decreases |t| - i
  {
    if i < |t| {
      StrideIsPositive(t[i], quant);
      StatesRise(t, i + Width(t[i]), After(t, i, s, quant), quant);
      var rest := States(t, i + Width(t[i]), After(t, i, s, quant), quant);
      forall k | 0 <= k < |rest| ensures s.pc < rest[k].pc {
        assert k > 0 ==> rest[0].pc < rest[k].pc;
      }
    }
  }

  // ----- pc to line -----

  /** The line of the first state at or above `pc`, or of the last state. */
  function LineAt(ss: seq<State>, pc: int): int
    requires |ss| > 0
  {
    if |ss| == 1 || ss[0].pc >= pc then ss[0].line else LineAt(ss[1..], pc)
  }

  /** At a state's own pc the line is that state's. */
  lemma {:induction false} LineAtState(ss: seq<State>, k: nat)
    requires k < |ss| && Rising(ss)
    ensures LineAt(ss, ss[k].pc) == ss[k].line
    decreases |ss|
  {
    if k > 0 {
      assert ss[0].pc < ss[k].pc && ss[1..][k - 1] == ss[k];
      LineAtState(ss[1..], k - 1);
    }
  }

  // ----- line to pc -----

  function Distance(s: State, line: int): nat {
    if s.line >= line then s.line - line else line - s.line
  }

  /** `end` zero means no upper bound. */
  predicate Within(s: State, base: int, end: int) {
    base <= s.pc && (end == 0 || s.pc < end)
  }

  /** The distance as the code has it, in 32 bits. */
  function Gap(s: State, line: int): int {
    Wrap(Distance(s, line))
  }

  /** The code's distance is the distance unless that has 32 bits. */
  lemma GapIsDistance(s: State, line: int)
    requires Distance(s, line) < WORD
    ensures Gap(s, line) == Distance(s, line) <==> Distance(s, line) <= HUGE
    ensures Gap(s, line) < 0 <==> Distance(s, line) > HUGE
  {
  }

  /** In range and nearer than the distance the search starts from. */
  predicate Counts(s: State, line: int, base: int, end: int) {
    Within(s, base, end) && Gap(s, line) < HUGE
  }

  /** Among the first `n` states, `k` is the first of those nearest to `line`. */
  ghost predicate Nearest(ss: seq<State>, n: nat, k: nat, line: int, base: int, end: int) {
    && k < n <= |ss| && Counts(ss[k], line, base, end)
    && (forall j :: 0 <= j < n && Within(ss[j], base, end) ==> Gap(ss[k], line) <= Gap(ss[j], line))
    && (forall j :: 0 <= j < k && Within(ss[j], base, end) ==> Gap(ss[k], line) < Gap(ss[j], line))
  }

  /** When no line is too far away for 32 bits, nearest means what it says. */
  lemma NearestIsNearest(ss: seq<State>, n: nat, k: nat, line: int, base: int, end: int)
    requires Nearest(ss, n, k, line, base, end)
    requires forall j :: 0 <= j < n ==> Distance(ss[j], line) <= HUGE
    ensures forall j :: 0 <= j < n && Within(ss[j], base, end) ==>
              Distance(ss[k], line) <= Distance(ss[j], line) && (j < k ==> Distance(ss[k], line) < Distance(ss[j], line))
  {
    forall j | 0 <= j < n ensures Gap(ss[j], line) == Distance(ss[j], line) {
      GapIsDistance(ss[j], line);
    }
  }

  /** Some of the first `n` states is at or past `line`. */
  ghost predicate Past(ss: seq<State>, n: nat, line: int, base: int, end: int) {
    exists j :: 0 <= j < n <= |ss| && Within(ss[j], base, end) && ss[j].line >= line
  }

  /** Some of the first `n` states counts. */
  ghost predicate Any(ss: seq<State>, n: nat, line: int, base: int, end: int) {
    exists j :: 0 <= j < n <= |ss| && Counts(ss[j], line, base, end)
  }

  /** State number `k` of `ss` is `s`, and the entries from `c` on make the others. */
  ghost predicate Reads(t: seq<byte>, c: nat, ss: seq<State>, k: nat, s: State, quant: nat) {
    && c <= |t| && Whole(t, c) && k < |ss| && ss[k] == s
    && ss[k..] == States(t, c, s, quant)
  }

  lemma ReadsFirst(t: seq<byte>, ss: seq<State>, s: State, quant: nat)
    requires Whole(t, 0) && ss == States(t, 0, s, quant)
    ensures Reads(t, 0, ss, 0, s, quant)
  {
    assert ss[0..] == ss;
  }

  lemma ReadsNext(t: seq<byte>, c: nat, ss: seq<State>, k: nat, s: State, quant: nat)
    requires Reads(t, c, ss, k, s, quant) && c < |t|
    ensures Reads(t, c + Width(t[c]), ss, k + 1, After(t, c, s, quant), quant)
  {
    assert ss[k + 1..] == ss[k..][1..];
  }

  lemma ReadsAll(t: seq<byte>, c: nat, ss: seq<State>, k: nat, s: State, quant: nat)
    requires Reads(t, c, ss, k, s, quant)
    ensures c == |t| ==> k == |ss| - 1
  {
  }

  class SymbolTable {
    var pcline: array?<byte>
    var firstinstr: nat
    var txtstart: nat
    var txtend: nat
    const pcquant: nat

    ghost predicate Valid()
      reads this, pcline
    {
      && pcquant > 0
      && pcquant <= txtstart && (firstinstr != 0 ==> pcquant <= firstinstr)
      && (pcline != null ==> Whole(pcline[..], 0))
    }

    ghost function StatesFrom(pc: int): (ss: seq<State>)
      requires Valid() && pcline != null
      reads this, pcline
      ensures |ss| > 0
    {
      States(pcline[..], 0, State(pc - pcquant, 0), pcquant)
    }

    /** One entry of the table, read at `c`. */
    method Entry(c: nat, currpc: int, currline: int) returns (c': nat, pc: int, line: int)
      requires Valid() && pcline != null && c < pcline.Length && Whole(pcline[..], c)
      ensures c' == c + Width(pcline[c]) && Whole(pcline[..], c')
      ensures State(pc, line) == After(pcline[..], c, State(currpc, currline), pcquant)
    {
      var u := pcline[c];
      c', pc, line := c, currpc, currline;
      if u == 0 {
        line := Wrap(line + Word(pcline[c + 1], pcline[c + 2], pcline[c + 3], pcline[c + 4]));
        c' := c' + 4;
      } else if u < 65 {
        line := Wrap(line + u);
      } else if u < 129 {
        line := Wrap(line - (u - 64));
      } else {
        pc := pc + pcquant * (u - 129);
      }
      pc := pc + pcquant;
      c' := c' + 1;
    }

    /** The line for a pc: -1 without a table or outside the text. */
    ghost function LineOf(pc: int): int
      requires Valid()
      reads this, pcline
    {
      var start := if firstinstr != 0 then firstinstr else txtstart;
      if pcline == null || pc < start - pcquant || pc > txtend then -1 else LineAt(StatesFrom(start), pc)
    }

    method Pc2line(pc: nat) returns (line: int)
      requires Valid()
      ensures line == LineOf(pc)
    {
      if pcline == null {
        return -1;
      }
      var start := if firstinstr != 0 then firstinstr else txtstart;
      var currline, currpc: int := 0, start - pcquant;
      if pc < currpc || pc > txtend {
        return -1;
      }
      var c: nat := 0;
      while c < pcline.Length && currpc < pc
        invariant c <= pcline.Length && Whole(pcline[..], c)
        invariant LineAt(StatesFrom(start), pc) == LineAt(States(pcline[..], c, State(currpc, currline), pcquant), pc)
        decreases pcline.Length - c
      {
        c, currpc, currline := Entry(c, currpc, currline);
      }
      return currline;
    }
  
    /** Consider one state: keep it if it is nearer than what has been found. */
    method Consider(currpc: int, currline: int, line: int, base: nat, delta: int, pc: Option<int>, found: bool,
                    ghost ss: seq<State>, ghost k: nat, ghost best: nat, ghost end: nat)
      returns (delta': int, pc': Option<int>, found': bool, ghost best': nat)
      requires k < |ss| && ss[k] == State(currpc, currline) && (end == 0 || currpc < end)
      requires Best(ss, k, line, base, end, delta, pc, found, best)
      ensures Best(ss, k + 1, line, base, end, delta', pc', found', best')
    {
      delta', pc', found', best' := delta, pc, found, best;
      if currpc >= base {
        var d;
        if currline >= line {
          d := Wrap(currline - line);
          found' := true;
        } else {
          d := Wrap(line - currline);
        }
        if d < delta {
          delta', pc', best' := d, Some(currpc), k;
        }
      }
    }

    /** Find the pc for a line between `base` and `end`. */
    method Line2addr(line: int, base: nat, end: nat) returns (r: Option<int>)
      requires Valid()
      ensures pcline == null || line == 0 ==> r == None
      ensures pcline != null && line != 0 ==> Answers(r, StatesFrom(txtstart), line, base, end)
    {
      if pcline == null || line == 0 {
        return None;
      }
      ghost var t, ss := pcline[..], StatesFrom(txtstart);
      var currline, currpc: int := 0, txtstart - pcquant;
      ReadsFirst(t, ss, State(currpc, currline), pcquant);
      var pc, found, delta := None, false, HUGE;
      ghost var k: nat, best: nat := 0, 0;
      var c: nat := 0;
      while c < pcline.Length
        invariant Reads(t, c, ss, k, State(currpc, currline), pcquant)
        invariant Best(ss, k, line, base, end, delta, pc, found, best)
        decreases pcline.Length - c
      {
        if end != 0 && currpc >= end {
          break;
        }
        delta, pc, found, best := Consider(currpc, currline, line, base, delta, pc, found, ss, k, best, end);
        ReadsNext(t, c, ss, k, State(currpc, currline), pcquant);
        c, currpc, currline := Entry(c, currpc, currline);
        k := k + 1;
      }
      ReadsAll(t, c, ss, k, State(currpc, currline), pcquant);
      StatesRise(t, 0, State(txtstart - pcquant, 0), pcquant);
      Concluded(ss, k, line, base, end, delta, pc, found, best);
      return if found then pc else None;
    }

    /** The line at the address found is nearest to the line asked for, and the address is the first such. */
    lemma ReadersAgree(r: Option<int>, line: int, base: nat, end: nat)
      requires Valid() && pcline != null && (firstinstr == 0 || firstinstr == txtstart)
      requires var ss := StatesFrom(txtstart); ss[|ss| - 1].pc <= txtend && Answers(r, ss, line, base, end) && r.Some?
      ensures var ss := StatesFrom(txtstart);
              exists k: nat :: Nearest(ss, |ss| - 1, k, line, base, end) && r.value == ss[k].pc && LineOf(r.value) == ss[k].line
    {
      StatesRise(pcline[..], 0, State(txtstart - pcquant, 0), pcquant);
      var k := AnswerReads(r, StatesFrom(txtstart), line, base, end);
    }
  }

  /** What has been found among the first `k` states. */
  ghost predicate Best(ss: seq<State>, k: nat, line: int, base: int, end: int, delta: int, pc: Option<int>, found: bool, best: nat) {
    && k <= |ss| && (found <==> Past(ss, k, line, base, end))
    && if pc == None then
         delta == HUGE && forall j :: 0 <= j < k ==> !Counts(ss[j], line, base, end)
       else
         Nearest(ss, k, best, line, base, end) && pc == Some(ss[best].pc) && delta == Gap(ss[best], line)
  }

  /** The answer over every state but the last: the first nearest one, unless all lie before the
      line, or none counts. */
  ghost predicate Answers(r: Option<int>, ss: seq<State>, line: int, base: int, end: int)
    requires |ss| > 0
  {
    var n: nat := |ss| - 1;
    if Past(ss, n, line, base, end) && Any(ss, n, line, base, end) then
      exists k: nat :: Nearest(ss, n, k, line, base, end) && r == Some(ss[k].pc)
    else
      r == None
  }

  /** The states that were not looked at are above the range. */
  lemma Concluded(ss: seq<State>, k: nat, line: int, base: int, end: int, delta: int, pc: Option<int>, found: bool, best: nat)
    requires k < |ss| && Rising(ss) && Best(ss, k, line, base, end, delta, pc, found, best)
    requires k == |ss| - 1 || (end != 0 && ss[k].pc >= end)
    ensures Answers(if found then pc else None, ss, line, base, end)
  {
    var n: nat := |ss| - 1;
    assert forall j :: k <= j < n ==> !Within(ss[j], base, end);
    if pc != None {
      assert Nearest(ss, n, best, line, base, end);
    }
  }

  lemma AnswerReads(r: Option<int>, ss: seq<State>, line: int, base: int, end: int) returns (k: nat)
    requires |ss| > 0 && Rising(ss) && Answers(r, ss, line, base, end) && r.Some?
    ensures Nearest(ss, |ss| - 1, k, line, base, end) && r.value == ss[k].pc && LineAt(ss, r.value) == ss[k].line
    ensures ss[0].pc <= r.value < ss[|ss| - 1].pc
  {
    var n: nat := |ss| - 1;
    k :| Nearest(ss, n, k, line, base, end) && r == Some(ss[k].pc);
    LineAtState(ss, k);
    assert k > 0 ==> ss[0].pc < ss[k].pc;
  }

  /** There is only one first nearest state. */
  lemma NearestIsUnique(ss: seq<State>, n: nat, j: nat, k: nat, line: int, base: int, end: int)
    requires Nearest(ss, n, j, line, base, end) && Nearest(ss, n, k, line, base, end)
    ensures j == k
  {
  }

  // ----- the last state is never looked at -----

  /** The answer a reader would expect: over every state. */
  ghost predicate AnswersAll(r: Option<int>, ss: seq<State>, line: int, base: int, end: int) {
    if Past(ss, |ss|, line, base, end) && Any(ss, |ss|, line, base, end) then
      exists k: nat :: Nearest(ss, |ss|, k, line, base, end) && r == Some(ss[k].pc)
    else
      r == None
  }

  /** The last state is in range and would win. */
  ghost predicate LastWins(ss: seq<State>, line: int, base: int, end: int)
    requires |ss| > 0
  {
    var n: nat := |ss| - 1;
    var past, any := Past(ss, n, line, base, end), Any(ss, n, line, base, end);
    && Within(ss[n], base, end) && (past || ss[n].line >= line) && (any || Gap(ss[n], line) < HUGE)
    && (past && any ==> forall j :: 0 <= j < n && Within(ss[j], base, end) ==> Gap(ss[n], line) < Gap(ss[j], line))
  }

  /** The answer is the one over all states exactly when the last state would not win. */
  lemma LastStateMissed(r: Option<int>, ss: seq<State>, line: int, base: int, end: int)
    requires |ss| > 0 && Rising(ss) && Answers(r, ss, line, base, end)
    ensures AnswersAll(r, ss, line, base, end) <==> !LastWins(ss, line, base, end)
  {
    var n: nat := |ss| - 1;
    OneMore(ss, n, line, base, end);
    if Past(ss, n, line, base, end) && Any(ss, n, line, base, end) {
      var k: nat :| Nearest(ss, n, k, line, base, end) && r == Some(ss[k].pc);
      FoundBefore(r, ss, k, line, base, end);
      BeatsAll(ss, k, line, base, end);
    }
  }

  /** A state found stays the answer unless the last state beats it. */
  lemma FoundBefore(r: Option<int>, ss: seq<State>, k: nat, line: int, base: int, end: int)
    requires |ss| > 0 && Rising(ss) && Nearest(ss, |ss| - 1, k, line, base, end) && r == Some(ss[k].pc)
    requires Past(ss, |ss|, line, base, end) && Any(ss, |ss|, line, base, end)
    ensures AnswersAll(r, ss, line, base, end) <==> !Beaten(ss, k, line, base, end)
  {
    LastBeside(ss, k, line, base, end);
    forall m: nat | Nearest(ss, |ss|, m, line, base, end) && r == Some(ss[m].pc) ensures m == k {
      SamePc(ss, m, k);
    }
  }

  ghost predicate Beaten(ss: seq<State>, k: nat, line: int, base: int, end: int)
    requires k < |ss|
  {
    Within(ss[|ss| - 1], base, end) && Gap(ss[|ss| - 1], line) < Gap(ss[k], line)
  }

  lemma BeatsAll(ss: seq<State>, k: nat, line: int, base: int, end: int)
    requires |ss| > 0 && Nearest(ss, |ss| - 1, k, line, base, end)
    requires Past(ss, |ss| - 1, line, base, end) && Any(ss, |ss| - 1, line, base, end)
    ensures LastWins(ss, line, base, end) <==> Beaten(ss, k, line, base, end)
  {
    assert Within(ss[k], base, end);
  }

  lemma OneMore(ss: seq<State>, n: nat, line: int, base: int, end: int)
    requires n < |ss|
    ensures Past(ss, n + 1, line, base, end) <==>
            Past(ss, n, line, base, end) || (Within(ss[n], base, end) && ss[n].line >= line)
    ensures Any(ss, n + 1, line, base, end) <==> Any(ss, n, line, base, end) || Counts(ss[n], line, base, end)
  {
  }

  lemma SamePc(ss: seq<State>, j: nat, k: nat)
    requires Rising(ss) && j < |ss| && k < |ss| && ss[j].pc == ss[k].pc
    ensures j == k
  {
  }

  lemma LastBeside(ss: seq<State>, k: nat, line: int, base: int, end: int)
    requires |ss| > 0 && Nearest(ss, |ss| - 1, k, line, base, end)
    ensures Nearest(ss, |ss|, k, line, base, end) <==> !Beaten(ss, k, line, base, end)
  {
  }

  /** Two entries, lines 1 and 3: line 3 is not found although the table holds it. */
  lemma LastLineExample(pc: int, quant: nat)
    requires quant > 0 && pc >= quant
    ensures var t: seq<byte> := [1, 2];
            && Whole(t, 0)
            && var ss := States(t, 0, State(pc - quant, 0), quant);
            && ss[2] == State(pc + quant, 3)
            && Answers(None, ss, 3, pc - quant, 0) && !AnswersAll(None, ss, 3, pc - quant, 0)
  {
    var t: seq<byte> := [1, 2];
    assert Whole(t, 2) && Whole(t, 1) && Whole(t, 0);
    var s0, s1, s2 := State(pc - quant, 0), State(pc, 1), State(pc + quant, 3);
    assert After(t, 0, s0, quant) == s1 && After(t, 1, s1, quant) == s2;
    assert States(t, 2, s2, quant) == [s2];
    assert States(t, 1, s1, quant) == [s1, s2];
    var ss := States(t, 0, s0, quant);
    assert ss == [s0, s1, s2];
    assert Within(ss[2], pc - quant, 0) && ss[2].line >= 3;
  }

  // ----- the encoder -----

  datatype Kind = Text | Nop | Other
  datatype Prog = Prog(pc: int, line: int, kind: Kind)

  const MINLC: nat := 4

  /** Instructions lie one behind another in units of four bytes, lines are 32-bit numbers. */
  ghost predicate LaidOut(ps: seq<Prog>, text: int) {
    && (forall i :: 0 <= i < |ps| ==> -HALF <= ps[i].line < HALF)
    && (forall i :: 0 <= i < |ps| && ps[i].kind == Other ==> text <= ps[i].pc && (ps[i].pc - text) % MINLC == 0)
    && (forall i, j :: 0 <= i < j < |ps| && ps[i].kind == Other && ps[j].kind == Other ==> ps[i].pc + MINLC <= ps[j].pc)
  }

  ghost function Trace(t: seq<byte>, text: int): (ss: seq<State>)
    requires Whole(t, 0)
    ensures |ss| > 0
  {
    States(t, 0, State(text - MINLC, 0), MINLC)
  }

  ghost function Last(ss: seq<State>): State
    requires |ss| > 0
  {
    ss[|ss| - 1]
  }

  /** One more entry is one more state. */
  lemma {:induction false} StatesAppend(t: seq<byte>, e: seq<byte>, i: nat, s: State, quant: nat)
    requires Whole(t, i) && |e| > 0 && |e| == Width(e[0])
    ensures Whole(t + e, i)
    ensures var ss := States(t, i, s, quant); States(t + e, i, s, quant) == ss + [After(e, 0, Last(ss), quant)]
    decreases |t| - i
  {
    var u := t + e;
    if i == |t| {
      assert u[i] == e[0] && Whole(u, |u|);
      assert forall j :: 0 <= j < |e| ==> u[i + j] == e[j];
      assert After(u, i, s, quant) == After(e, 0, s, quant);
    } else {
      var k := i + Width(t[i]);
      assert forall j :: i <= j < k ==> u[j] == t[j];
      assert After(u, i, s, quant) == After(t, i, s, quant);
      StatesAppend(t, e, k, After(t, i, s, quant), quant);
    }
  }

  /** One more state speaks for the pcs above the last one and for no other. */
  lemma {:induction false} LineAtAppend(ss: seq<State>, x: State, pc: int)
    requires |ss| > 0 && Rising(ss) && Last(ss).pc < x.pc
    ensures LineAt(ss + [x], pc) == if pc <= Last(ss).pc then LineAt(ss, pc) else x.line
    ensures pc > Last(ss).pc ==> LineAt(ss, pc) == Last(ss).line
    decreases |ss|
  {
    var st := ss + [x];
    if |ss| > 1 {
      assert ss[0].pc < Last(ss).pc;
      assert st[1..] == ss[1..] + [x];
      LineAtAppend(ss[1..], x, pc);
    } else {
      assert st[1..] == [x];
    }
  }

  /** `t` reads as `ps[..i]` says, and ends in the state `oldpc`, `oldlc` stand for. */
  ghost predicate Encodes(t: seq<byte>, text: int, ps: seq<Prog>, i: nat, oldpc: int, oldlc: int) {
    && Whole(t, 0) && i <= |ps|
    && Last(Trace(t, text)) == State(oldpc - MINLC, oldlc)
    && (forall j :: 0 <= j < i && ps[j].kind == Other ==> LineAt(Trace(t, text), ps[j].pc) == ps[j].line)
  }

  lemma Appended(t: seq<byte>, e: seq<byte>, text: int, pc: int)
    requires Whole(t, 0) && |e| > 0 && |e| == Width(e[0])
    ensures Whole(t + e, 0)
    ensures var last, next := Last(Trace(t, text)), After(e, 0, Last(Trace(t, text)), MINLC);
            && Last(Trace(t + e, text)) == next
            && LineAt(Trace(t + e, text), pc) == (if pc <= last.pc then LineAt(Trace(t, text), pc) else next.line)
            && (pc > last.pc ==> LineAt(Trace(t, text), pc) == last.line)
  {
    var s := State(text - MINLC, 0);
    StatesAppend(t, e, 0, s, MINLC);
    StatesRise(t, 0, s, MINLC);
    StrideIsPositive(e[0], MINLC);
    LineAtAppend(Trace(t, text), After(e, 0, Last(Trace(t, text)), MINLC), pc);
  }

  /** An entry that only moves the pc leaves every line as it was. */
  lemma PcAppended(t: seq<byte>, k: int, text: int, ps: seq<Prog>, i: nat, oldpc: int, oldlc: int)
    requires 1 <= k <= 127 && Encodes(t, text, ps, i, oldpc, oldlc)
    ensures Encodes(t + [k + 128], text, ps, i, oldpc + MINLC * k, oldlc)
  {
    var e: seq<byte> := [k + 128];
    Appended(t, e, text, 0);
    forall j | 0 <= j < i && ps[j].kind == Other ensures LineAt(Trace(t + e, text), ps[j].pc) == ps[j].line {
      Appended(t, e, text, ps[j].pc);
    }
  }

  /** The high-to-low bytes of a 32-bit number read as that number. */
  lemma WordOfBytes(s: int)
    requires -HALF <= s < HALF
    ensures Word(s / 0x100_0000 % 256, s / 0x1_0000 % 256, s / 0x100 % 256, s % 256) == s
  {
    var a, b, c := s / 0x100, s / 0x1_0000, s / 0x100_0000;
    Digits(s, a, b, c, c / 256);
    WrapTurns(s, c / 256);
  }

  lemma Digits(s: int, a: int, b: int, c: int, d: int)
    requires a == s / 0x100 && b == s / 0x1_0000 && c == s / 0x100_0000 && d == c / 256
    ensures ((c % 256 * 256 + b % 256) * 256 + a % 256) * 256 + s % 256 == s - WORD * d
  {
    assert a / 256 == b && b / 256 == c;
  }

  lemma WrapTurns(s: int, d: int)
    requires -HALF <= s < HALF
    ensures Wrap(s - WORD * d) == s
  {
    var x := s - WORD * d;
    Multiple(x, -d, s);
  }

  /** A number is known by its remainder. */
  lemma Multiple(x: int, q: int, s: int)
    requires x == WORD * q + s && -HALF <= s < HALF
    ensures Wrap(x) == s
  {
    if s >= 0 {
      assert x / WORD == q && x % WORD == s;
    } else {
      assert x / WORD == q - 1 && x % WORD == s + WORD;
    }
  }

  /** A difference taken at 32 bits leads back to the line. */
  lemma WrapDifference(a: int, b: int)
    requires -HALF <= b < HALF && -HALF <= a < HALF
    ensures Wrap(a + Wrap(b - a)) == b
    ensures Wrap(b - a) == 0 ==> a == b
  {
  }

  /** The entry for a line difference. */
  function LineEntry(s: int): seq<byte>
    requires -HALF <= s < HALF
  {
    if s > 64 || s < -64 then [0, s / 0x100_0000 % 256, s / 0x1_0000 % 256, s / 0x100 % 256, s % 256]
    else if s > 0 then [s]
    else [64 - s]
  }

  lemma LineEntryReads(s: int)
    requires -HALF <= s < HALF && s != 0
    ensures var e := LineEntry(s); e[0] < 129 && |e| == Width(e[0]) && Delta(e, 0) == s
  {
    WordOfBytes(s);
  }

  /** The entry for an instruction speaks for it and for none before it. */
  lemma LineAppended(t: seq<byte>, text: int, ps: seq<Prog>, i: nat, oldlc: int)
    requires LaidOut(ps, text) && i < |ps| && ps[i].kind == Other && ps[i].line != oldlc
    requires -HALF <= oldlc < HALF && Encodes(t, text, ps, i, ps[i].pc, oldlc)
    ensures Encodes(t + LineEntry(Wrap(ps[i].line - oldlc)), text, ps, i + 1, ps[i].pc + MINLC, ps[i].line)
  {
    var e := LineEntry(Wrap(ps[i].line - oldlc));
    WrapDifference(oldlc, ps[i].line);
    LineEntryReads(Wrap(ps[i].line - oldlc));
    Appended(t, e, text, ps[i].pc);
    forall j | 0 <= j < i && ps[j].kind == Other ensures LineAt(Trace(t + e, text), ps[j].pc) == ps[j].line {
      Appended(t, e, text, ps[j].pc);
    }
  }

  /** An instruction on the current line needs no entry. */
  lemma SameLine(t: seq<byte>, text: int, ps: seq<Prog>, i: nat, oldpc: int, oldlc: int)
    requires i < |ps| && Encodes(t, text, ps, i, oldpc, oldlc)
    requires ps[i].kind == Other ==> ps[i].line == oldlc && ps[i].pc >= oldpc
    ensures Encodes(t, text, ps, i + 1, oldpc, oldlc)
  {
    if ps[i].kind == Other {
      Appended(t, [129], text, ps[i].pc);
    }
  }

  /** One entry that moves the pc. */
  method PutEntry(t0: seq<byte>, k: int, ghost text: int, ghost ps: seq<Prog>, ghost i: nat, ghost oldpc: int, ghost oldlc: int)
    returns (t: seq<byte>)
    requires 1 <= k <= 127 && Encodes(t0, text, ps, i, oldpc, oldlc)
    ensures t == t0 + [k + 128] && Encodes(t, text, ps, i, oldpc + MINLC * k, oldlc)
  {
    PcAppended(t0, k, text, ps, i, oldpc, oldlc);
    t := t0 + [k + 128];
  }

  /** Entries that move the pc up to an instruction. */
  method PutPc(t0: seq<byte>, v0: nat, ghost text: int, ghost ps: seq<Prog>, ghost i: nat, ghost oldpc: int, ghost oldlc: int)
    returns (t: seq<byte>)
    requires Encodes(t0, text, ps, i, oldpc, oldlc)
    ensures Encodes(t, text, ps, i, oldpc + MINLC * v0, oldlc)
  {
    var v := v0;
    t := t0;
    while v != 0
      invariant 0 <= v <= v0 && Encodes(t, text, ps, i, oldpc + MINLC * (v0 - v), oldlc)
      decreases v
    {
      var s := 127;
      if v < 127 {
        s := v;
      }
      t := PutEntry(t, s, text, ps, i, oldpc + MINLC * (v0 - v), oldlc);
      v := v - s;
    }
  }

  /** Where the next entry starts: in step with the text, and not above an instruction still to come. */
  ghost predicate InStep(ps: seq<Prog>, i: nat, text: int, oldpc: int, oldlc: int) {
    && -HALF <= oldlc < HALF && (oldpc - text) % MINLC == 0
    && forall j :: i <= j < |ps| && ps[j].kind == Other ==> oldpc <= ps[j].pc
  }

  /** The entries for an instruction on a new line. */
  method PutLine(t0: seq<byte>, ps: seq<Prog>, i: nat, oldpc: int, oldlc: int, ghost text: int) returns (t: seq<byte>)
    requires LaidOut(ps, text) && i < |ps| && ps[i].kind == Other && ps[i].line != oldlc
    requires InStep(ps, i, text, oldpc, oldlc) && Encodes(t0, text, ps, i, oldpc, oldlc)
    ensures Encodes(t, text, ps, i + 1, ps[i].pc + MINLC, ps[i].line)
  {
    Units(ps[i].pc, oldpc, text);
    var v := (ps[i].pc - oldpc) / MINLC;
    t := PutPc(t0, v, text, ps, i, oldpc, oldlc);
    LineAppended(t, text, ps, i, oldlc);
    t := t + LineEntry(Wrap(ps[i].line - oldlc));
  }

  lemma Units(pc: int, oldpc: int, text: int)
    requires (pc - text) % MINLC == 0 && (oldpc - text) % MINLC == 0
    ensures oldpc + MINLC * ((pc - oldpc) / MINLC) == pc && (pc + MINLC - text) % MINLC == 0
  {
  }

  lemma StaysInStep(ps: seq<Prog>, i: nat, text: int)
    requires LaidOut(ps, text) && i < |ps| && ps[i].kind == Other
    ensures InStep(ps, i + 1, text, ps[i].pc + MINLC, ps[i].line)
  {
    Units(ps[i].pc, text, text);
  }

  /** An odd table gets one more entry. */
  method Pad(t0: seq<byte>, ghost text: int, ghost ps: seq<Prog>, ghost oldpc: int, ghost oldlc: int) returns (t: seq<byte>)
    requires Encodes(t0, text, ps, |ps|, oldpc, oldlc)
    ensures |t| % 2 == 0 && Whole(t, 0)
    ensures forall j :: 0 <= j < |ps| && ps[j].kind == Other ==> LineAt(Trace(t, text), ps[j].pc) == ps[j].line
  {
    t := t0;
    if |t| % 2 == 1 {
      t := PutEntry(t, 1, text, ps, |ps|, oldpc, oldlc);
      Encoded(t, text, ps, oldpc + MINLC, oldlc);
    } else {
      Encoded(t, text, ps, oldpc, oldlc);
    }
  }

  lemma Encoded(t: seq<byte>, text: int, ps: seq<Prog>, oldpc: int, oldlc: int)
    requires Encodes(t, text, ps, |ps|, oldpc, oldlc)
    ensures Whole(t, 0)
    ensures forall j :: 0 <= j < |ps| && ps[j].kind == Other ==> LineAt(Trace(t, text), ps[j].pc) == ps[j].line
  {
  }

  /** The table of a program: reading it back gives every instruction its own line. */
  method Asmlc(ps: seq<Prog>, text: int) returns (t: seq<byte>)
    requires LaidOut(ps, text)
    ensures Whole(t, 0) && |t| % 2 == 0
    ensures forall j :: 0 <= j < |ps| && ps[j].kind == Other ==> LineAt(Trace(t, text), ps[j].pc) == ps[j].line
  {
    var oldpc, oldlc := text, 0;
    t := [];
    for i := 0 to |ps|
      invariant Encodes(t, text, ps, i, oldpc, oldlc) && InStep(ps, i, text, oldpc, oldlc)
    {
      var p := ps[i];
      if p.line == oldlc || p.kind != Other {
        SameLine(t, text, ps, i, oldpc, oldlc);
      } else {
        t := PutLine(t, ps, i, oldpc, oldlc, text);
        StaysInStep(ps, i, text);
        oldlc, oldpc := p.line, p.pc + MINLC;
      }
    }
    t := Pad(t, text, ps, oldpc, oldlc);
  }
}

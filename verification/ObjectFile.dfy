/** ARM object files: the assembler's writer (src/cmd/5a/lex.c) and libmach's reader
(src/libmach/5obj.c).

Instruction records refer to symbols by a small index.  The writer keeps a ring of the
symbols it has announced and announces a symbol again, with a name record, whenever it
has been evicted.  The reader never sees the ring: it only remembers the last name record
for each index.  The result is that reading back resolves every operand to the symbol and
kind the writer meant.
*/
module ObjectFile {

  import opened Common
  import opened Opcodes
  import Predication

  // ---------------------------------------------------------------- constants (src/cmd/5l/5.out.h)

  const NSNAME := 8

  const D_NONE := 1
  const D_BRANCH := 2
  const D_OREG := 3
  const D_EXTERN := 4
  const D_STATIC := 5
  const D_AUTO := 6
  const D_PARAM := 7
  const D_CONST := 8
  const D_FCONST := 9
  const D_SCONST := 10
  const D_PSR := 11
  const D_REG := 13
  const D_FREG := 14
  const D_SHIFT := 20
  const D_FPCR := 21
  const D_REGREG := 22
  const D_CONST2 := 25

  // ---------------------------------------------------------------- records as bytes

  /** An operand as it stands in a record; `payload` is what follows its four fixed bytes. */
  datatype Addr = Addr(typ: int, reg: int, sym: int, name: int, payload: seq<byte>)

  datatype Record =
    | Name(typ: int, sym: int, id: seq<byte>, sig: seq<byte>)
    | Instr(op: int, head: seq<byte>, from: Addr, to: Addr)

  predicate IsByte(x: int) {
    0 <= x < 256
  }

  function Low(x: int): byte {
    x % 256
  }

  function Little(l: int): (r: seq<byte>)
    ensures |r| == 4
  {
    [Low(l), Low(l / 0x100), Low(l / 0x1_0000), Low(l / 0x100_0000)]
  }

  /** The number that bytes stand for, the first being worth the least. */
  function Worth(b: seq<byte>): nat {
    if b == [] then 0 else b[0] + 256 * Worth(b[1..])
  }

  lemma LittleWorth(l: int)
    ensures Worth(Little(l)) == l % 0x1_0000_0000
  {
    var q1, q2, q3 := l / 0x100, l / 0x1_0000, l / 0x100_0000;
    WorthOfFour(Low(l), Low(q1), Low(q2), Low(q3));
    Digits(l, q1, q2, q3);
  }

  lemma WorthOfFour(a: byte, b: byte, c: byte, d: byte)
    ensures Worth([a, b, c, d]) == (a as int) + 0x100 * (b as int) + 0x1_0000 * (c as int) + 0x100_0000 * (d as int)
  {
    assert [d][1..] == [] && Worth([d]) == d as int;
    assert [c, d][1..] == [d] && Worth([c, d]) == (c as int) + 0x100 * Worth([d]);
    assert [b, c, d][1..] == [c, d] && Worth([b, c, d]) == (b as int) + 0x100 * Worth([c, d]);
    assert [a, b, c, d][1..] == [b, c, d];
  }

  lemma Digits(l: int, q1: int, q2: int, q3: int)
    requires q1 == l / 0x100 && q2 == l / 0x1_0000 && q3 == l / 0x100_0000
    ensures l % 0x1_0000_0000 == l % 0x100 + 0x100 * (q1 % 0x100) + 0x1_0000 * (q2 % 0x100) + 0x100_0000 * (q3 % 0x100)
  {
    assert q2 == q1 / 0x100;
    assert q3 == q2 / 0x100;
    assert l / 0x1_0000_0000 == q3 / 0x100;
  }

  /** How many payload bytes the reader takes for an operand type. */
  function PayloadSize(typ: int): nat {
    if typ == D_CONST2 then 8
    else if typ == D_OREG || typ == D_CONST || typ == D_BRANCH || typ == D_SHIFT then 4
    else if typ == D_SCONST then NSNAME
    else if typ == D_FCONST then 8
    else 0
  }

  predicate ByteFields(a: Addr) {
    IsByte(a.typ) && IsByte(a.reg) && IsByte(a.sym) && IsByte(a.name)
  }

  function AddrBytes(a: Addr): seq<byte>
    requires ByteFields(a)
  {
    [a.typ, a.reg, a.sym, a.name] + a.payload
  }

  predicate Encodable(r: Record) {
    match r
    case Name(typ, sym, id, sig) => IsByte(typ) && IsByte(sym) && 0 !in id && sig == []
    case Instr(op, head, from, to) =>
      && IsByte(op) && op != ANAME && op != ASIGNAME && |head| == 6
      && ByteFields(from) && ByteFields(to)
  }

  function Bytes(r: Record): (b: seq<byte>)
    requires Encodable(r)
    ensures |b| > 0
  {
    match r
    case Name(typ, sym, id, _) => [ANAME, typ, sym] + id + [0]
    case Instr(op, head, from, to) => [op] + head + AddrBytes(from) + AddrBytes(to)
  }

  // ---------------------------------------------------------------- reading one record

  datatype Got = Got(r: Record, next: nat) | End

  /** Bgetc: the byte at `pos`, or -1 at the end of the file. */
  function GetC(data: seq<byte>, pos: nat): int {
    if pos < |data| then data[pos] else -1
  }

  function Advance(data: seq<byte>, pos: nat, n: nat): (p: nat) {
    if pos + n <= |data| then pos + n else if pos <= |data| then |data| else pos
  }

  function AddrAt(data: seq<byte>, pos: nat): (Addr, nat)
    requires pos <= |data|
  {
    var p := Advance(data, pos, 4);
    var typ := GetC(data, pos);
    var q := Advance(data, p, PayloadSize(typ));
    (Addr(typ, GetC(data, pos + 1), GetC(data, pos + 2), GetC(data, pos + 3), data[p..q]), q)
  }

  /** The first NUL at or after `pos`, or the end of the file. */
  function Nul(data: seq<byte>, pos: nat): (p: nat)
    requires pos <= |data|
    ensures pos <= p <= |data|
    ensures 0 !in data[pos..p] && (p < |data| ==> data[p] == 0)
    decreases |data| - pos
  {
    if pos == |data| || data[pos] == 0 then pos else Nul(data, pos + 1)
  }

  function ReadName(data: seq<byte>, pos: nat): (g: Got)
    requires pos < |data|
    ensures g.Got? ==> pos < g.next <= |data|
  {
    var p := if data[pos] == ASIGNAME then Advance(data, pos + 1, 4) else pos + 1;
    var start := Advance(data, p, 2);
    var end := Nul(data, start);
    if end == |data| then End
    else Got(Name(GetC(data, p), GetC(data, p + 1), data[start..end], data[pos + 1..p]), end + 1)
  }

  function ReadInstr(data: seq<byte>, pos: nat): (g: Got)
    requires pos < |data|
    ensures g.Got? && pos < g.next <= |data|
  {
    var p := Advance(data, pos + 1, 6);
    var (from, q) := AddrAt(data, p);
    var (to, next) := AddrAt(data, q);
    Got(Instr(data[pos], data[pos + 1..p], from, to), next)
  }

  function ReadAt(data: seq<byte>, pos: nat): (g: Got)
    requires pos <= |data|
    ensures g.Got? ==> pos < g.next <= |data|
  {
    if pos == |data| then End
    else if data[pos] == ANAME || data[pos] == ASIGNAME then ReadName(data, pos)
    else ReadInstr(data, pos)
  }

  /** The reader takes as many payload bytes as the writer gave it. */
  predicate Agreed(r: Record) {
    r.Instr? ==> |r.from.payload| == PayloadSize(r.from.typ) && |r.to.payload| == PayloadSize(r.to.typ)
  }

  lemma AddrRoundTrip(pre: seq<byte>, a: Addr, tail: seq<byte>)
    requires ByteFields(a) && |a.payload| == PayloadSize(a.typ)
    ensures AddrAt(pre + AddrBytes(a) + tail, |pre|) == (a, |pre| + |AddrBytes(a)|)
  {
    var data := pre + AddrBytes(a) + tail;
    assert data[|pre| + 4..|pre| + 4 + |a.payload|] == a.payload;
  }

  lemma SliceLast(data: seq<byte>, from: nat, to: nat)
    requires from < to <= |data|
    ensures data[from..to] == data[from..to - 1] + [data[to - 1]]
    ensures data[from..to][..to - from - 1] == data[from..to - 1]
  {
  }

  lemma NulAt(data: seq<byte>, pos: nat, end: nat)
    requires pos <= end < |data| && data[end] == 0 && 0 !in data[pos..end]
    ensures Nul(data, pos) == end
    decreases end - pos
  {
    if pos < end {
      assert data[pos] == data[pos..end][0];
      assert data[pos + 1..end] == data[pos..end][1..];
      NulAt(data, pos + 1, end);
    }
  }

  lemma NameAt(pre: seq<byte>, r: Record, tail: seq<byte>)
    requires r.Name? && Encodable(r)
    ensures var data, n, end := pre + Bytes(r) + tail, |pre|, |pre| + 3 + |r.id|;
            && end + 1 == n + |Bytes(r)| <= |data|
            && data[n] == ANAME && data[n + 1] == r.typ && data[n + 2] == r.sym
            && data[n + 3..end] == r.id && data[end] == 0
  {
    var data, n := pre + Bytes(r) + tail, |pre|;
    assert data[n..n + |Bytes(r)|] == Bytes(r);
    assert Bytes(r)[3..3 + |r.id|] == r.id;
    assert data[n + 3..n + 3 + |r.id|] == data[n..n + |Bytes(r)|][3..3 + |r.id|];
  }

  lemma NameRoundTrip(pre: seq<byte>, r: Record, tail: seq<byte>)
    requires r.Name? && Encodable(r)
    ensures ReadName(pre + Bytes(r) + tail, |pre|) == Got(r, |pre| + |Bytes(r)|)
  {
    NameAt(pre, r, tail);
    NameReads(pre + Bytes(r) + tail, |pre|, r);
  }

  lemma NameReads(data: seq<byte>, n: nat, r: Record)
    requires r.Name? && r.sig == [] && 0 !in r.id && n + 4 + |r.id| <= |data|
    requires data[n] == ANAME && data[n + 1] == r.typ && data[n + 2] == r.sym
    requires data[n + 3..n + 3 + |r.id|] == r.id && data[n + 3 + |r.id|] == 0
    ensures ReadName(data, n) == Got(r, n + 4 + |r.id|)
  {
    NulAt(data, n + 3, n + 3 + |r.id|);
  }

  lemma HeadAt(pre: seq<byte>, r: Record, tail: seq<byte>)
    requires r.Instr? && Encodable(r)
    ensures var data, n := pre + Bytes(r) + tail, |pre|;
            && n + 7 + |AddrBytes(r.from)| + |AddrBytes(r.to)| == n + |Bytes(r)| <= |data|
            && data[n] == r.op && data[n + 1..n + 7] == r.head
  {
    var data, n := pre + Bytes(r) + tail, |pre|;
    assert data[n..n + |Bytes(r)|] == Bytes(r);
    assert data[n + 1..n + 7] == Bytes(r)[1..7] == r.head;
  }

  lemma FirstOperand(pre: seq<byte>, r: Record, tail: seq<byte>)
    requires r.Instr? && Encodable(r) && Agreed(r)
    ensures |pre| + 7 <= |pre + Bytes(r) + tail|
    ensures AddrAt(pre + Bytes(r) + tail, |pre| + 7) == (r.from, |pre| + 7 + |AddrBytes(r.from)|)
  {
    var front, rest := pre + [r.op] + r.head, AddrBytes(r.to) + tail;
    assert pre + Bytes(r) + tail == front + AddrBytes(r.from) + rest;
    AddrRoundTrip(front, r.from, rest);
  }

  lemma SecondOperand(pre: seq<byte>, r: Record, tail: seq<byte>)
    requires r.Instr? && Encodable(r) && Agreed(r)
    ensures |pre| + 7 + |AddrBytes(r.from)| <= |pre + Bytes(r) + tail|
    ensures AddrAt(pre + Bytes(r) + tail, |pre| + 7 + |AddrBytes(r.from)|) == (r.to, |pre| + |Bytes(r)|)
  {
    var front := pre + [r.op] + r.head + AddrBytes(r.from);
    assert pre + Bytes(r) + tail == front + AddrBytes(r.to) + tail;
    AddrRoundTrip(front, r.to, tail);
  }

  lemma InstrRoundTrip(pre: seq<byte>, r: Record, tail: seq<byte>)
    requires r.Instr? && Encodable(r) && Agreed(r)
    ensures ReadInstr(pre + Bytes(r) + tail, |pre|) == Got(r, |pre| + |Bytes(r)|)
  {
    HeadAt(pre, r, tail);
    FirstOperand(pre, r, tail);
    SecondOperand(pre, r, tail);
  }

  /** Reading a written record gives it back and ends where it ends, whatever surrounds it. */
  lemma RecordRoundTrip(pre: seq<byte>, r: Record, tail: seq<byte>)
    requires Encodable(r) && Agreed(r)
    ensures ReadAt(pre + Bytes(r) + tail, |pre|) == Got(r, |pre| + |Bytes(r)|)
  {
    var data := pre + Bytes(r) + tail;
    assert data[|pre|] == Bytes(r)[0];
    if r.Name? {
      NameRoundTrip(pre, r, tail);
    } else {
      InstrRoundTrip(pre, r, tail);
    }
  }

  // ---------------------------------------------------------------- operands the reader misreads

  /** How many payload bytes the writer gives an operand type; D_REGREG has one, for which
      the reader has no case. */
  function WrittenSize(typ: int): nat {
    if typ == D_REGREG then 1 else PayloadSize(typ)
  }

  predicate KnownType(typ: int) {
    typ in {D_NONE, D_REG, D_FREG, D_PSR, D_FPCR, D_REGREG, D_OREG, D_CONST, D_BRANCH, D_SHIFT, D_SCONST, D_FCONST}
  }

  predicate Written(r: Record) {
    && Encodable(r)
    && (r.Instr? ==>
          && KnownType(r.from.typ) && |r.from.payload| == WrittenSize(r.from.typ)
          && KnownType(r.to.typ) && |r.to.payload| == WrittenSize(r.to.typ))
  }

  predicate HasRegReg(r: Record) {
    r.Instr? && (r.from.typ == D_REGREG || r.to.typ == D_REGREG)
  }

  lemma AddrEnd(data: seq<byte>, pos: nat)
    requires pos + 12 <= |data|
    ensures AddrAt(data, pos).1 == pos + 4 + PayloadSize(data[pos])
  {
  }

  lemma InstrEnd(pre: seq<byte>, r: Record, tail: seq<byte>)
    requires Written(r) && r.Instr? && |tail| >= 8
    ensures var data := pre + Bytes(r) + tail;
            var q := |pre| + 11 + PayloadSize(r.from.typ);
            && q < |data|
            && ReadAt(data, |pre|).Got?
            && ReadAt(data, |pre|).next == q + 4 + PayloadSize(data[q])
  {
    var data := pre + Bytes(r) + tail;
    var q := |pre| + 11 + PayloadSize(r.from.typ);
    assert data[|pre|] == r.op;
    assert data[|pre| + 7] == r.from.typ;
    assert |data| >= |pre| + 15 + |r.from.payload| + |r.to.payload| + 8;
    AddrEnd(data, |pre| + 7);
    AddrEnd(data, q);
  }

  /** In a file that goes on, the reader stays in step over a record if and only if neither
      operand is a register pair. */
  lemma InStepIff(pre: seq<byte>, r: Record, tail: seq<byte>)
    requires Written(r) && |tail| >= 8
    ensures var g := ReadAt(pre + Bytes(r) + tail, |pre|);
            g.Got? && (g.next == |pre| + |Bytes(r)| <==> !HasRegReg(r))
  {
    if HasRegReg(r) {
      OutOfStep(pre, r, tail);
    } else {
      RecordRoundTrip(pre, r, tail);
    }
  }

  lemma OutOfStep(pre: seq<byte>, r: Record, tail: seq<byte>)
    requires Written(r) && HasRegReg(r) && |tail| >= 8
    ensures var g := ReadAt(pre + Bytes(r) + tail, |pre|); g.Got? && g.next != |pre| + |Bytes(r)|
  {
    InstrEnd(pre, r, tail);
    InstrLength(r);
    if r.from.typ != D_REGREG {
      ToTypeAt(pre, r, tail);
    }
    var data := pre + Bytes(r) + tail;
    SizesDiffer(r, data[|pre| + 11 + PayloadSize(r.from.typ)]);
  }

  /** With `typ` read as the type of the second operand, the reader's sizes and the writer's do
      not add up to the same. */
  lemma SizesDiffer(r: Record, typ: int)
    requires Written(r) && HasRegReg(r) && (r.from.typ != D_REGREG ==> typ == r.to.typ)
    ensures PayloadSize(r.from.typ) + PayloadSize(typ) != |r.from.payload| + |r.to.payload|
  {
  }

  lemma InstrLength(r: Record)
    requires Encodable(r) && r.Instr?
    ensures |Bytes(r)| == 15 + |r.from.payload| + |r.to.payload|
  {
  }

  lemma ToTypeAt(pre: seq<byte>, r: Record, tail: seq<byte>)
    requires Encodable(r) && r.Instr?
    ensures var data, q := pre + Bytes(r) + tail, |pre| + 11 + |r.from.payload|;
            q < |data| && data[q] == r.to.typ
  {
  }

  // ---------------------------------------------------------------- what a file means

  datatype Symbol = Symbol(name: seq<byte>, kind: int)

  /** What the reader knows: the last name announced for each index. */
  type Table = map<int, Symbol>

  /** An operand with its symbol in place of an index. */
  datatype Operand = Operand(typ: int, reg: int, name: int, symbol: Option<Symbol>, payload: seq<byte>)

  datatype Meant = Meant(op: int, head: seq<byte>, from: Operand, to: Operand)

  function Resolve(a: Addr, t: Table): Operand {
    Operand(a.typ, a.reg, a.name, if a.sym != 0 && a.sym in t then Some(t[a.sym]) else None, a.payload)
  }

  function After(r: Record, t: Table): Table {
    if r.Name? then t[r.sym := Symbol(r.id, r.typ)] else t
  }

  function MeaningOf(r: Record, t: Table): seq<Meant> {
    if r.Instr? then [Meant(r.op, r.head, Resolve(r.from, t), Resolve(r.to, t))] else []
  }

  /** Read a whole file record by record, resolving each instruction's operands. */
  function Replay(data: seq<byte>, pos: nat, t: Table): seq<Meant>
    requires pos <= |data|
    decreases |data| - pos
  {
    match ReadAt(data, pos)
    case End => []
    case Got(r, next) => MeaningOf(r, t) + Replay(data, next, After(r, t))
  }

  function Flat(rs: seq<Record>): seq<byte>
    requires forall i :: 0 <= i < |rs| ==> Encodable(rs[i])
  {
    if rs == [] then [] else Bytes(rs[0]) + Flat(rs[1..])
  }

  function Meaning(rs: seq<Record>, t: Table): seq<Meant> {
    if rs == [] then [] else MeaningOf(rs[0], t) + Meaning(rs[1..], After(rs[0], t))
  }

  function Final(rs: seq<Record>, t: Table): Table {
    if rs == [] then t else Final(rs[1..], After(rs[0], t))
  }

  lemma {:induction false} FlatAppend(rs: seq<Record>, r: Record)
    requires Encodable(r) && forall i :: 0 <= i < |rs| ==> Encodable(rs[i])
    ensures Flat(rs + [r]) == Flat(rs) + Bytes(r)
  {
    if rs == [] {
      assert rs + [r] == [r];
    } else {
      assert (rs + [r])[1..] == rs[1..] + [r];
      FlatAppend(rs[1..], r);
    }
  }

  lemma {:induction false} FinalAppend(rs: seq<Record>, r: Record, t: Table)
    ensures Final(rs + [r], t) == After(r, Final(rs, t))
    decreases |rs|
  {
    if rs == [] {
      assert rs + [r] == [r];
    } else {
      assert (rs + [r])[1..] == rs[1..] + [r];
      FinalAppend(rs[1..], r, After(rs[0], t));
    }
  }

  lemma {:induction false} MeaningAppend(rs: seq<Record>, r: Record, t: Table)
    ensures Meaning(rs + [r], t) == Meaning(rs, t) + MeaningOf(r, Final(rs, t))
    ensures Final(rs + [r], t) == After(r, Final(rs, t))
    decreases |rs|
  {
    FinalAppend(rs, r, t);
    if rs == [] {
      assert rs + [r] == [r];
    } else {
      var first, rest, t' := MeaningOf(rs[0], t), rs[1..], After(rs[0], t);
      assert (rs + [r])[1..] == rest + [r];
      MeaningAppend(rest, r, t');
      assert Meaning(rs + [r], t) == first + (Meaning(rest, t') + MeaningOf(r, Final(rest, t')));
      Concat(first, Meaning(rest, t'), MeaningOf(r, Final(rest, t')));
    }
  }

  lemma Concat<T>(a: seq<T>, b: seq<T>, c: seq<T>)
    ensures a + (b + c) == (a + b) + c
  {
  }

  lemma FirstRecord(pre: seq<byte>, rs: seq<Record>)
    requires rs != [] && forall i :: 0 <= i < |rs| ==> Encodable(rs[i]) && Agreed(rs[i])
    ensures ReadAt(pre + Flat(rs), |pre|) == Got(rs[0], |pre + Bytes(rs[0])|)
    ensures pre + Flat(rs) == (pre + Bytes(rs[0])) + Flat(rs[1..])
  {
    RecordRoundTrip(pre, rs[0], Flat(rs[1..]));
    Regroup(pre, Bytes(rs[0]), Flat(rs[1..]));
  }

  lemma Regroup(a: seq<byte>, b: seq<byte>, c: seq<byte>)
    ensures a + (b + c) == a + b + c
  {
  }

  lemma ReplayStep(data: seq<byte>, pos: nat, t: Table, g: Got)
    requires pos <= |data| && g == ReadAt(data, pos) && g.Got?
    ensures Replay(data, pos, t) == MeaningOf(g.r, t) + Replay(data, g.next, After(g.r, t))
  {
  }

  /** Reading the bytes of records in sequence stays in step to the end. */
  lemma {:induction false} ReplayFlat(pre: seq<byte>, rs: seq<Record>, t: Table)
    requires forall i :: 0 <= i < |rs| ==> Encodable(rs[i]) && Agreed(rs[i])
    ensures Replay(pre + Flat(rs), |pre|, t) == Meaning(rs, t)
    decreases |rs|
  {
    if rs != [] {
      FirstRecord(pre, rs);
      var pre' := pre + Bytes(rs[0]);
      ReplayStep(pre + Flat(rs), |pre|, t, Got(rs[0], |pre'|));
      ReplayFlat(pre', rs[1..], After(rs[0], t));
    }
  }

  // ---------------------------------------------------------------- the writer

  class Sym {
    const name: seq<byte>
    var sym: int

    constructor (n: seq<byte>)
      ensures name == n && sym == 0
    {
      name, sym := n, 0;
    }
  }

  /** An operand as the parser hands it over; `low` and `high` are the two halves of a
      floating-point constant. */
  datatype Gen = Gen(sym: Sym?, offset: int, typ: int, reg: int, name: int, low: int, high: int, sval: seq<byte>)

  datatype Slot = Slot(sym: Sym?, typ: int)

  predicate GoodGen(g: Gen) {
    && KnownType(g.typ) && IsByte(g.reg) && IsByte(g.name) && |g.sval| == NSNAME
    && (g.sym != null ==> 0 !in g.sym.name)
  }

  function Payload(g: Gen): seq<byte> {
    if g.typ == D_REGREG then [Low(g.offset)]
    else if g.typ == D_SCONST then g.sval
    else if g.typ == D_FCONST then Little(g.low) + Little(g.high)
    else if PayloadSize(g.typ) == 4 then Little(g.offset)
    else []
  }

  function AddrOf(g: Gen, k: int): Addr {
    Addr(g.typ, g.reg, k, g.name, Payload(g))
  }

  /** The operand the writer means: its own fields, its symbol by name, and its kind. */
  function Intended(g: Gen): Operand {
    Operand(g.typ, g.reg, g.name, if g.sym == null then None else Some(Symbol(g.sym.name, g.name)), Payload(g))
  }

  function Bcode(cond: int): int {
    if cond == 0 then ABEQ else if cond == 1 then ABNE else if cond == 2 then ABCS else if cond == 3 then ABCC
    else if cond == 4 then ABMI else if cond == 5 then ABPL else if cond == 6 then ABVS else if cond == 7 then ABVC
    else if cond == 8 then ABHI else if cond == 9 then ABLS else if cond == 10 then ABGE else if cond == 11 then ABLT
    else if cond == 12 then ABGT else if cond == 13 then ABLE else if cond == 14 then AB else ANOP
  }

  /** A conditional AB stands for the matching conditional branch. */
  function Opcode(a: int, scond: byte): int {
    if a == AB then Bcode(scond % 16) else a
  }

  function Condition(a: int, scond: byte): byte {
    if a == AB then scond / 16 * 16 + AL else scond
  }

  /** What is written for an opcode and a condition: a jump under a condition becomes the branch
      that is taken exactly when the condition passes, and runs always itself. */
  lemma OpcodeIsBranch(a: int, scond: byte)
    ensures a != AB ==> Opcode(a, scond) == a && Condition(a, scond) == scond
    ensures a == AB ==> Condition(a, scond) % 16 == AL && Condition(a, scond) / 16 == scond / 16
    ensures a == AB && scond % 16 < AL ==>
              && Predication.IsBranch(Opcode(a, scond))
              && forall f :: Predication.Taken(Opcode(a, scond), f) == Predication.Passes(scond % 16, f)
    ensures a == AB && scond % 16 == AL ==> Opcode(a, scond) == AB
    ensures a == AB && scond % 16 == 15 ==> Opcode(a, scond) == ANOP
  {
  }

  /** What an operand's payload is worth. */
  lemma PayloadIs(g: Gen)
    ensures g.typ in {D_OREG, D_CONST, D_BRANCH, D_SHIFT} ==>
              |Payload(g)| == 4 && Worth(Payload(g)) == g.offset % 0x1_0000_0000
    ensures g.typ == D_FCONST ==>
              && |Payload(g)| == 8
              && Worth(Payload(g)[..4]) == g.low % 0x1_0000_0000 && Worth(Payload(g)[4..]) == g.high % 0x1_0000_0000
    ensures g.typ == D_REGREG ==> |Payload(g)| == 1 && Worth(Payload(g)) == g.offset % 256
    ensures g.typ in {D_NONE, D_REG, D_FREG, D_PSR, D_FPCR} ==> Payload(g) == []
  {
    LittleWorth(g.offset);
    LittleWorth(g.low);
    LittleWorth(g.high);
    if g.typ == D_FCONST {
      assert Payload(g)[..4] == Little(g.low) && Payload(g)[4..] == Little(g.high);
    }
  }

  class Writer {
    const nsym: int
    var h: seq<Slot>
    var sym: int
    var pass: int
    var pc: int
    var lineno: int
    var out: seq<byte>
    ghost var records: seq<Record>
    ghost var meant: seq<Meant>

    /** The output is the bytes of records that mean what was asked for, and every slot of
        the ring is known to a reader of the output under the slot's own index. */
    ghost predicate Valid()
      reads this
    {
      && 3 <= nsym <= 128 && |h| == nsym && 1 <= sym < nsym && h[0].sym == null
      && (forall i :: 0 <= i < |records| ==> Written(records[i]))
      && out == Flat(records)
      && meant == Meaning(records, map[])
      && forall k :: 1 <= k < nsym && h[k].sym != null ==>
           k in Final(records, map[]) && Final(records, map[])[k] == Symbol(h[k].sym.name, h[k].typ)
    }

    constructor (n: int)
      requires 3 <= n <= 128
      ensures Valid() && out == [] && meant == [] && pass == 2
    {
      nsym, sym, pass, pc, lineno := n, 1, 2, 0, 1;
      h := seq(n, _ => Slot(null, 0));
      out, records, meant := [], [], [];
    }

    function Next(k: int): int {
      if k + 1 >= nsym then 1 else k + 1
    }

    method Put(bytes: seq<byte>, ghost r: Record)
      requires Valid() && Written(r) && bytes == Bytes(r)
      modifies this`out, this`records, this`meant
      ensures out == old(out) + Bytes(r) && records == old(records) + [r]
      ensures out == Flat(records) && (forall i :: 0 <= i < |records| ==> Written(records[i]))
      ensures meant == Meaning(records, map[]) == old(meant) + MeaningOf(r, Final(old(records), map[]))
      ensures Final(records, map[]) == After(r, Final(old(records), map[]))
    {
      FlatAppend(records, r);
      MeaningAppend(records, r, map[]);
      out := out + bytes;
      records := records + [r];
      meant := Meaning(records, map[]);
    }

    /** The index of an operand's symbol, announcing the symbol first if the ring does not
        hold it under this kind. */
    method Intern(g: Gen) returns (k: int, added: bool)
      requires Valid() && GoodGen(g)
      modifies this`h, this`sym, this`out, this`records, this`meant
      modifies (if g.sym == null then {} else {g.sym})`sym
      ensures Valid() && meant == old(meant)
      ensures g.sym == null ==> k == 0 && !added
      ensures g.sym != null ==> 1 <= k < nsym && h[k] == Slot(g.sym, g.name) && g.sym.sym == k
      ensures added ==> g.sym != null && k == old(sym) && sym == Next(k) && h == old(h)[k := Slot(g.sym, g.name)]
      ensures added ==> !(0 <= old(g.sym.sym) < nsym && old(h)[old(g.sym.sym)] == Slot(g.sym, g.name))
      ensures !added ==> h == old(h) && sym == old(sym) && (g.sym != null ==> g.sym.sym == old(g.sym.sym))
    {
      k, added := 0, false;
      if g.sym != null {
        var s := g.sym;
        k := s.sym;
        if k < 0 || k >= nsym {
          k := 0;
        }
        if h[k] != Slot(s, g.name) {
          ghost var r := Name(g.name, sym, s.name, []);
          Put([ANAME, g.name, sym] + s.name + [0], r);
          s.sym := sym;
          h := h[sym := Slot(s, g.name)];
          k, added := sym, true;
          sym := Next(sym);
        }
      }
    }

    /** The index stands for the operand's symbol and kind in the ring; 0 is no symbol. */
    ghost predicate Indexes(k: int, g: Gen)
      reads this
    {
      if g.sym == null then k == 0 else 1 <= k < nsym <= |h| && h[k] == Slot(g.sym, g.name)
    }

    /** Indices for both operands of an instruction.  Announcing the second may evict the
        first; then both are tried once more, and the second try cannot fail. */
    method InternBoth(g1: Gen, g2: Gen) returns (sf: int, st: int)
      requires Valid() && GoodGen(g1) && GoodGen(g2)
      modifies this`h, this`sym, this`out, this`records, this`meant
      modifies (if g1.sym == null then {} else {g1.sym})`sym, (if g2.sym == null then {} else {g2.sym})`sym
      ensures Valid() && meant == old(meant)
      ensures Indexes(sf, g1) && Indexes(st, g2)
    {
      var again, first := true, true;
      sf, st := 0, 0;
      while again
        invariant Valid() && meant == old(meant)
        invariant again && !first ==>
                    g1.sym != null && 0 <= g1.sym.sym < nsym && h[g1.sym.sym] != Slot(g1.sym, g1.name)
        invariant !again ==> Indexes(sf, g1) && Indexes(st, g2)
        decreases again, first
      {
        var added1, added2;
        sf, added1 := Intern(g1);
        st, added2 := Intern(g2);
        again := added2 && st == sf;
        first := false;
      }
    }

    /** Emit one instruction.  A reader of everything written so far gets one more
        instruction, with exactly the operands that were passed in. */
    method Outcode(a0: int, scond0: byte, g1: Gen, reg: byte, g2: Gen)
      requires Valid() && GoodGen(g1) && GoodGen(g2)
      requires IsByte(a0) && a0 != ANAME && a0 != ASIGNAME
      modifies this`h, this`sym, this`pc, this`out, this`records, this`meant
      modifies (if g1.sym == null then {} else {g1.sym})`sym, (if g2.sym == null then {} else {g2.sym})`sym
      ensures Valid()
      ensures var a := Opcode(a0, scond0);
              && pc == old(pc) + (if a != AGLOBL && a != ADATA then 1 else 0)
              && meant == old(meant) + (if pass == 1 then [] else
                   [Meant(a, [Condition(a0, scond0), reg] + Little(lineno), Intended(g1), Intended(g2))])
      ensures pass == 1 ==> out == old(out)
    {
      var a, scond := Opcode(a0, scond0), Condition(a0, scond0);
      if pass != 1 {
        Emit(a, [scond, reg] + Little(lineno), g1, g2);
      }
      if a != AGLOBL && a != ADATA {
        pc := pc + 1;
      }
    }

    method Emit(a: byte, head: seq<byte>, g1: Gen, g2: Gen)
      requires Valid() && GoodGen(g1) && GoodGen(g2)
      requires a != ANAME && a != ASIGNAME && |head| == 6
      modifies this`h, this`sym, this`out, this`records, this`meant
      modifies (if g1.sym == null then {} else {g1.sym})`sym, (if g2.sym == null then {} else {g2.sym})`sym
      ensures Valid()
      ensures meant == old(meant) + [Meant(a, head, Intended(g1), Intended(g2))]
    {
      var sf, st := InternBoth(g1, g2);
      PutInstr(a, head, g1, sf, g2, st);
    }

    method PutInstr(a: byte, head: seq<byte>, g1: Gen, sf: int, g2: Gen, st: int)
      requires Valid() && GoodGen(g1) && GoodGen(g2) && Indexes(sf, g1) && Indexes(st, g2)
      requires a != ANAME && a != ASIGNAME && |head| == 6
      modifies this`out, this`records, this`meant
      ensures Valid()
      ensures meant == old(meant) + [Meant(a, head, Intended(g1), Intended(g2))]
    {
      ghost var r := Instr(a, head, AddrOf(g1, sf), AddrOf(g2, st));
      IndexResolves(g1, sf);
      IndexResolves(g2, st);
      var bytes1: seq<byte> := [g1.typ, g1.reg, sf, g1.name] + Payload(g1);
      var bytes2: seq<byte> := [g2.typ, g2.reg, st, g2.name] + Payload(g2);
      Put([a] + head + bytes1 + bytes2, r);
    }

    lemma IndexResolves(g: Gen, k: int)
      requires Valid() && GoodGen(g) && Indexes(k, g)
      ensures ByteFields(AddrOf(g, k)) && |Payload(g)| == WrittenSize(g.typ)
      ensures Resolve(AddrOf(g, k), Final(records, map[])) == Intended(g)
    {
    }
  }

  /** No operand of the instruction is a register pair. */
  predicate NoPair(m: Meant) {
    m.from.typ != D_REGREG && m.to.typ != D_REGREG
  }

  /** A register pair in a record shows in what the records mean. */
  lemma {:induction false} PairsAreMeant(rs: seq<Record>, t: Table, i: nat)
    requires forall k :: 0 <= k < |Meaning(rs, t)| ==> NoPair(Meaning(rs, t)[k])
    requires i < |rs|
    ensures !HasRegReg(rs[i])
    decreases |rs|
  {
    var head, rest := MeaningOf(rs[0], t), Meaning(rs[1..], After(rs[0], t));
    assert Meaning(rs, t) == head + rest;
    if i == 0 {
      if rs[0].Instr? {
        assert NoPair((head + rest)[0]);
      }
    } else {
      forall k | 0 <= k < |rest| ensures NoPair(rest[k]) {
        assert (head + rest)[|head| + k] == rest[k];
      }
      PairsAreMeant(rs[1..], After(rs[0], t), i - 1);
    }
  }

  /** Everything the writer was asked for is read back from the bytes alone, if no register pair
      was among it: same order, same fields, and every operand with the symbol and kind it was
      given. */
  lemma ReadBackIsMeant(w: Writer)
    requires w.Valid()
    requires forall i :: 0 <= i < |w.meant| ==> NoPair(w.meant[i])
    ensures Replay(w.out, 0, map[]) == w.meant
  {
    forall i | 0 <= i < |w.records| ensures !HasRegReg(w.records[i]) {
      PairsAreMeant(w.records, map[], i);
    }
    ReplayFlat([], w.records, map[]);
    assert [] + Flat(w.records) == w.out;
  }

  // ---------------------------------------------------------------- the reader

  datatype Kind = aNone | aName | aText | aData
  datatype Prog = Prog(kind: Kind, typ: char, sym: int, id: seq<byte>, sig: seq<byte>)

  function Type2Char(t: int): char {
    if t == D_EXTERN then 'U' else if t == D_STATIC then 'b' else if t == D_AUTO then 'a'
    else if t == D_PARAM then 'p' else '?'
  }

  function KindOf(r: Record): Kind {
    if r.Name? then aName
    else if r.from.typ != D_OREG || (r.from.name != D_STATIC && r.from.name != D_EXTERN) then aNone
    else if r.op == ATEXT then aText
    else if r.op == AGLOBL then aData
    else aNone
  }

  class Reader {
    const data: seq<byte>
    var pos: nat

    constructor (d: seq<byte>)
      ensures data == d && pos == 0
    {
      data, pos := d, 0;
    }

    method Bgetc() returns (c: int)
      requires pos <= |data|
      modifies this
      ensures c == GetC(data, old(pos)) && pos == Advance(data, old(pos), 1)
    {
      c := GetC(data, pos);
      pos := if pos < |data| then pos + 1 else pos;
    }

    method Skip(n: nat)
      requires pos <= |data|
      modifies this
      ensures pos == Advance(data, old(pos), n)
    {
      for i := 0 to n
        invariant pos <= |data| && pos == Advance(data, old(pos), i)
      {
        var _ := Bgetc();
      }
    }

    method Bread(n: nat) returns (b: seq<byte>)
      requires pos <= |data|
      modifies this
      ensures pos == Advance(data, old(pos), n) && b == data[old(pos)..pos]
    {
      var q := if pos + n <= |data| then pos + n else |data|;
      b := data[pos..q];
      pos := q;
    }

    method ReadAddr() returns (a: Addr)
      requires pos <= |data|
      modifies this
      ensures pos <= |data| && (a, pos) == AddrAt(data, old(pos))
    {
      var typ := Bgetc();
      var reg := Bgetc();
      var sym := Bgetc();
      var name := Bgetc();
      var payload := Bread(PayloadSize(typ));
      a := Addr(typ, reg, sym, name, payload);
    }

    /** A NUL-terminated name: scan for the NUL, then back up and read it. */
    method ReadId() returns (ok: bool, id: seq<byte>)
      requires pos <= |data|
      modifies this
      ensures pos <= |data|
      ensures ok <==> Nul(data, old(pos)) < |data|
      ensures ok ==> id == data[old(pos)..Nul(data, old(pos))] && pos == Nul(data, old(pos)) + 1
    {
      var from, n, c := pos, 0, 1;
      id := [];
      while c != 0
        invariant from <= pos <= |data| && pos == from + n
        invariant if c == 0 then n > 0 && data[pos - 1] == 0 && 0 !in data[from..pos - 1] else 0 !in data[from..pos]
        decreases |data| - pos, c != 0
      {
        c := Bgetc();
        if c < 0 {
          NoNul(data, from);
          return false, id;
        }
        n := n + 1;
        SliceLast(data, from, pos);
      }
      NulAt(data, from, pos - 1);
      pos := pos - n;
      id := Bread(n);
      SliceLast(data, from, from + n);
      return true, id[..n - 1];
    }

    /** The rest of a name record, behind its first byte. */
    method ReadNameRecord(op: int) returns (ok: bool, p: Prog)
      requires 0 < pos <= |data| && data[pos - 1] == op && (op == ANAME || op == ASIGNAME)
      modifies this
      ensures pos <= |data|
      ensures ok <==> ReadName(data, old(pos) - 1).Got?
      ensures ok ==>
                var Got(r, next) := ReadName(data, old(pos) - 1);
                pos == next && r.Name? && p == Prog(aName, Type2Char(r.typ), r.sym, r.id, r.sig)
    {
      var sig := [];
      if op == ASIGNAME {
        sig := Bread(4);
      }
      var typ := Bgetc();
      var sym := Bgetc();
      var id;
      ok, id := ReadId();
      p := Prog(aName, Type2Char(typ), sym, id, sig);
    }

    /** One record.  The file is consumed record by record exactly as `ReadAt` says. */
    method Read5() returns (ok: bool, p: Prog)
      requires pos <= |data|
      modifies this
      ensures pos <= |data|
      ensures ok <==> ReadAt(data, old(pos)).Got?
      ensures ok ==>
                var Got(r, next) := ReadAt(data, old(pos));
                && pos == next && p.kind == KindOf(r)
                && (if r.Name? then p == Prog(aName, Type2Char(r.typ), r.sym, r.id, r.sig) else p.sym == r.from.sym)
    {
      ok, p := false, Prog(aNone, '?', 0, [], []);
      var op := Bgetc();
      if op < 0 {
        return;
      }
      if op == ANAME || op == ASIGNAME {
        ok, p := ReadNameRecord(op);
        return;
      }
      var kind := if op == ATEXT then aText else if op == AGLOBL then aData else aNone;
      Skip(6);
      var a := ReadAddr();
      var _ := ReadAddr();
      if a.typ != D_OREG || (a.name != D_STATIC && a.name != D_EXTERN) {
        kind := aNone;
      }
      return true, Prog(kind, '?', a.sym, [], []);
    }
  }

  lemma {:induction false} NoNul(data: seq<byte>, pos: nat)
    requires pos <= |data| && 0 !in data[pos..]
    ensures Nul(data, pos) == |data|
    decreases |data| - pos
  {
    if pos < |data| {
      assert data[pos] == data[pos..][0] && data[pos + 1..] == data[pos..][1..];
      NoNul(data, pos + 1);
    }
  }
}

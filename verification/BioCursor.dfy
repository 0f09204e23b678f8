/** Reading through a buffer and reading without one.

A program that reads a file by any sequence of Bgetc, Bungetc, Bread, Brdline and Bseek gets
what it would get from a plain cursor over the file's bytes, however the descriptor serves
them.  The cursor also counts what the program must keep to: it gives back no more than it may,
asks for a line only once bytes given back have been read again, and having met the end of the
file with Bgetc it does not go on to read or give back before it seeks.
*/
module BioCursor {

  import opened Common
  import opened Bio

  datatype Op =
    | Get
    | Unget
    | Read(count: int)
    | Line(delim: byte)
    | Seek(off: int, base: int)

  datatype Outcome =
    | Byte(c: int)
    | Returned(n: int)
    | Bytes(data: seq<byte>)
    | Found(line: Option<seq<byte>>, len: int)

  /** Whether seeks backwards are right: they are, or they are if nothing is read first, or the
      end of the file was met and reading went on. */
  datatype Trust = Sure | AtEnd | Lost

  /** A position; how many bytes can be given back; how many may have been given back and not
      read again; and whether seeks can be trusted. */
  datatype Cursor = Cursor(pos: int, back: nat, lent: nat, trust: Trust)

  const START := Cursor(0, 0, 0, Sure)

  function Less(lent: nat, n: int): nat {
    if 0 <= n <= lent then lent - n else 0
  }

  function Sought(file: seq<byte>, c: Cursor, off: int, base: int): int {
    off + if base == 1 then c.pos else if base == 2 then |file| else 0
  }

  /** What a program may do next. */
  predicate Allowed(file: seq<byte>, bsize: nat, c: Cursor, op: Op) {
    match op
    case Get => true
    case Unget => c.back > 0
    case Read(_) => true
    case Line(_) => c.lent == 0
    case Seek(off, base) =>
      var target := Sought(file, c, off, base);
      && 0 <= base <= 2 && target >= 0
      && (c.trust != Lost || base == 2 || target < c.pos - bsize || target > c.pos + bsize)
  }

  /** The bytes of `file` from `pos` on. */
  function From(file: seq<byte>, pos: int): seq<byte> {
    if 0 <= pos <= |file| then file[pos..] else []
  }

  function Upto(s: seq<byte>, count: int): seq<byte> {
    s[..Min(if count < 0 then 0 else count, |s|)]
  }

  /** Where `delim` first is in `s`, or the length of `s`. */
  function IndexOf(s: seq<byte>, delim: byte): (i: nat)
    ensures i <= |s| && delim !in s[..i] && (i < |s| ==> s[i] == delim)
  {
    if s == [] || s[0] == delim then 0
    else
      var i := 1 + IndexOf(s[1..], delim);
      assert s[..i] == [s[0]] + s[1..][..i - 1];
      i
  }

  /** The line that begins `s`, if a `delim` ends one. */
  function LineOf(s: seq<byte>, delim: byte): Outcome {
    var i := IndexOf(s, delim);
    if i < |s| then Found(Some(s[..i + 1]), i + 1) else Found(None, |s|)
  }

  /** What an operation gives, on the file's bytes alone. */
  function Answer(file: seq<byte>, bsize: nat, c: Cursor, op: Op): Outcome {
    match op
    case Get => Byte(if 0 <= c.pos < |file| then file[c.pos] else BEOF)
    case Unget => Returned(1)
    case Read(count) => Bytes(Upto(From(file, c.pos), count))
    case Line(delim) => LineOf(Upto(From(file, c.pos), bsize), delim)
    case Seek(off, base) => Returned(Sought(file, c, off, base))
  }

  function Length(o: Outcome): nat {
    match o
    case Bytes(data) => |data|
    case Found(Some(l), _) => |l|
    case _ => 0
  }

  /** Where it leaves the cursor. */
  function Next(file: seq<byte>, bsize: nat, c: Cursor, op: Op): (c': Cursor)
    requires Allowed(file, bsize, c, op)
  {
    var n := Length(Answer(file, bsize, c, op));
    match op
    case Get =>
      if c.pos < |file| then
        Cursor(c.pos + 1, Min(c.back + 1, BUNGET), Less(c.lent, 1), if c.trust == Lost then Lost else Sure)
      else
        Cursor(c.pos, Min(c.back, bsize), c.lent, if c.trust == Sure then AtEnd else Lost)
    case Unget => Cursor(c.pos - 1, c.back - 1, c.lent + 1, if c.trust == Sure then Sure else Lost)
    case Read(_) => Cursor(c.pos + n, Min(n, 1), Less(c.lent, n), c.trust)
    case Line(_) => Cursor(c.pos + n, 0, 0, if c.trust == Lost then Lost else Sure)
    case Seek(off, base) =>
      var target := Sought(file, c, off, base);
      Cursor(target, 0, Less(c.lent, target - c.pos), Sure)
  }

  predicate AllAllowed(file: seq<byte>, bsize: nat, c: Cursor, ops: seq<Op>)
    decreases |ops|
  {
    ops != [] ==> Allowed(file, bsize, c, ops[0]) && AllAllowed(file, bsize, Next(file, bsize, c, ops[0]), ops[1..])
  }

  function Answers(file: seq<byte>, bsize: nat, c: Cursor, ops: seq<Op>): seq<Outcome>
    requires AllAllowed(file, bsize, c, ops)
    decreases |ops|
  {
    if ops == [] then []
    else [Answer(file, bsize, c, ops[0])] + Answers(file, bsize, Next(file, bsize, c, ops[0]), ops[1..])
  }

  /** A buffer that stands where the cursor does and still has what the cursor counts on. */
  ghost predicate Tracks(bp: Biobuf, c: Cursor)
    reads bp, bp.b
  {
    && bp.ReadValid() && bp.Position() == c.pos && bp.Avail() >= c.back && bp.Reach() <= bp.bsize + c.lent
    && (c.trust == Sure ==> bp.Claimed()) && (c.trust == AtEnd ==> bp.Trusted())
  }

  method DoGet(bp: Biobuf, ghost c: Cursor) returns (o: Outcome)
    requires Tracks(bp, c)
    modifies bp, bp.b
    ensures o == Answer(bp.file, bp.bsize, c, Get) && Tracks(bp, Next(bp.file, bp.bsize, c, Get))
  {
    assert c.pos < |bp.file| ==> bp.Rest()[0] == bp.file[c.pos];
    var b := bp.Bgetc();
    o := Byte(b);
  }

  method DoUnget(bp: Biobuf, ghost c: Cursor) returns (o: Outcome)
    requires Tracks(bp, c) && c.back > 0
    modifies bp, bp.b
    ensures o == Returned(1) && Tracks(bp, Next(bp.file, bp.bsize, c, Unget))
  {
    var r := bp.Bungetc();
    o := Returned(r);
  }

  method DoRead(bp: Biobuf, count: int, ghost c: Cursor) returns (o: Outcome)
    requires Tracks(bp, c)
    modifies bp, bp.b
    ensures o == Answer(bp.file, bp.bsize, c, Read(count)) && Tracks(bp, Next(bp.file, bp.bsize, c, Read(count)))
  {
    var data := bp.Bread(count);
    o := Bytes(data);
  }

  method DoSeek(bp: Biobuf, off: int, base: int, ghost c: Cursor) returns (o: Outcome)
    requires Tracks(bp, c) && Allowed(bp.file, bp.bsize, c, Seek(off, base))
    modifies bp, bp.b
    ensures o == Answer(bp.file, bp.bsize, c, Seek(off, base))
    ensures Tracks(bp, Next(bp.file, bp.bsize, c, Seek(off, base)))
  {
    var n := bp.Bseek(off, base);
    o := Returned(n);
  }

  /** The first line of what is ahead is the only one. */
  lemma LineIs(bp: Biobuf, delim: byte, pos: int, line: Option<seq<byte>>, len: int)
    requires bp.IsLine(delim, pos, bp.bsize, line, len)
    ensures Found(line, len) == LineOf(Upto(From(bp.file, pos), bp.bsize), delim)
  {
    var s := bp.Ahead(pos, bp.bsize);
    assert s == Upto(From(bp.file, pos), bp.bsize);
    FirstLine(s, delim, line, len);
  }

  lemma FirstLine(s: seq<byte>, delim: byte, line: Option<seq<byte>>, len: int)
    requires match line
             case None => delim !in s && len == |s|
             case Some(l) => l <= s && l != [] && l[|l| - 1] == delim && delim !in l[..|l| - 1] && len == |l|
    ensures Found(line, len) == LineOf(s, delim)
  {
    if line.Some? {
      var n := |line.value|;
      assert line.value == s[..n] && line.value[..n - 1] == s[..n - 1] && s[n - 1] == delim;
    }
  }

  method DoLine(bp: Biobuf, delim: byte, ghost c: Cursor) returns (o: Outcome)
    requires Tracks(bp, c) && c.lent == 0
    modifies bp, bp.b
    ensures o == Answer(bp.file, bp.bsize, c, Line(delim)) && Tracks(bp, Next(bp.file, bp.bsize, c, Line(delim)))
  {
    var line := bp.Brdline(delim);
    LineIs(bp, delim, c.pos, line, bp.rdline);
    o := Found(line, bp.rdline);
  }

  method Do(bp: Biobuf, op: Op, ghost c: Cursor) returns (o: Outcome)
    requires Tracks(bp, c) && Allowed(bp.file, bp.bsize, c, op)
    modifies bp, bp.b
    ensures o == Answer(bp.file, bp.bsize, c, op) && Tracks(bp, Next(bp.file, bp.bsize, c, op))
  {
    match op
    case Get => o := DoGet(bp, c);
    case Unget => o := DoUnget(bp, c);
    case Read(count) => o := DoRead(bp, count, c);
    case Line(delim) => o := DoLine(bp, delim, c);
    case Seek(off, base) => o := DoSeek(bp, off, base, c);
  }

  /** The buffer is invisible: any program gets the plain cursor's answers. */
  method Run(size: nat, file: seq<byte>, served: (int, int) -> int, ops: seq<Op>) returns (out: seq<Outcome>)
    requires size > BUNGET && AllAllowed(file, size - BUNGET, START, ops)
    ensures out == Answers(file, size - BUNGET, START, ops)
  {
    var bp := new Biobuf.Open(size, file, served);
    out := RunFrom(bp, ops, START);
  }

  method RunFrom(bp: Biobuf, ops: seq<Op>, ghost start: Cursor) returns (out: seq<Outcome>)
    requires Tracks(bp, start) && AllAllowed(bp.file, bp.bsize, start, ops)
    modifies bp, bp.b
    ensures out == Answers(bp.file, bp.bsize, start, ops)
  {
    out := [];
    ghost var c := start;
    for i := 0 to |ops|
      invariant Tracks(bp, c) && AllAllowed(bp.file, bp.bsize, c, ops[i..])
      invariant Answers(bp.file, bp.bsize, start, ops) == out + Answers(bp.file, bp.bsize, c, ops[i..])
    {
      assert ops[i..][0] == ops[i] && ops[i..][1..] == ops[i + 1..];
      var o := Do(bp, ops[i], c);
      out := out + [o];
      c := Next(bp.file, bp.bsize, c, ops[i]);
    }
  }
}

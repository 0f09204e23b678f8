/** Buffered input and output (src/libbio).

One buffer serves reading and writing.  The bytes in use end at the end of the buffer and
are counted by the negative numbers `icount` and `ocount`; four bytes before the buffer
keep the end of the previous one so that characters can be given back.  The descriptor is
a file with arbitrary short reads, and writes that may fail.  The results say that the
buffer is invisible: readers see the file's bytes in order, writers' bytes arrive in order.
*/
module Bio {

  import opened Common

  const BUNGET := 4
  const BEOF := -1

  datatype Mode = Inactive | Reading | Writing | AtEof

  function Min(a: int, b: int): int {
    if a <= b then a else b
  }

  function Max(a: int, b: int): int {
    if a <= b then b else a
  }

  /** `n` bytes of `s` from `src` on, copied over those from `dst` on. */
  function Moved(s: seq<byte>, dst: nat, src: nat, n: nat): (r: seq<byte>)
    requires dst + n <= |s| && src + n <= |s|
    ensures |r| == |s|
  {
    seq(|s|, j requires 0 <= j < |s| => if dst <= j < dst + n then s[src + (j - dst)] else s[j])
  }

  function Overlaid(s: seq<byte>, dst: nat, data: seq<byte>): (r: seq<byte>)
    requires dst + |data| <= |s|
    ensures |r| == |s|
  {
    seq(|s|, j requires 0 <= j < |s| => if dst <= j < dst + |data| then data[j - dst] else s[j])
  }

  lemma OverlaidByNone(s: seq<byte>, dst: nat)
    requires dst <= |s|
    ensures Overlaid(s, dst, []) == s
  {
  }

  /** The whole buffer after Bgetc has read `data` into it. */
  function Refilled(s: seq<byte>, bsize: nat, data: seq<byte>): (r: seq<byte>)
    requires |s| == BUNGET + bsize && |data| <= bsize
    ensures |r| == |s|
  {
    var s1 := Overlaid(Moved(s, 0, bsize, BUNGET), BUNGET, data);
    if 0 < |data| < bsize then Moved(s1, bsize - |data|, 0, |data| + BUNGET) else s1
  }

  /** Refilling leaves the end of the old buffer followed by the new data. */
  lemma RefillBytes(s: seq<byte>, bsize: nat, data: seq<byte>)
    requires |s| == BUNGET + bsize && 0 < |data| <= bsize
    ensures Refilled(s, bsize, data)[bsize - |data|..] == s[bsize..] + data
  {
    var t, n := Refilled(s, bsize, data), |data|;
    var s1 := Overlaid(Moved(s, 0, bsize, BUNGET), BUNGET, data);
    forall j | 0 <= j < BUNGET + n ensures t[bsize - n..][j] == (s[bsize..] + data)[j] {
      assert t[bsize - n + j] == s1[j];
    }
  }

  /** In front of what a refill of `s` with `data` put up against the end, `t` has `data` as it
      was read and, behind that, `s`. */
  predicate LeftInFront(t: seq<byte>, s: seq<byte>, bsize: nat, data: seq<byte>) {
    && |t| == |s| == BUNGET + bsize
    && forall j :: BUNGET <= j < |t| && (data == [] || j < bsize - |data|) ==>
         t[j] == if j < BUNGET + |data| then data[j - BUNGET] else s[j]
  }

  /** What `t` has of `s` and `data` after a refill: the end of `s` and `data` at its end. */
  predicate Behind(t: seq<byte>, s: seq<byte>, bsize: nat, data: seq<byte>) {
    && |data| <= bsize && LeftInFront(t, s, bsize, data)
    && (data != [] ==> t[bsize - |data|..] == s[bsize..] + data)
  }

  /** How many bytes at the end are the file's after a refill with `n`, if `good` were before. */
  function StillGood(good: nat, bsize: nat, n: nat): nat {
    if n == 0 then Min(good, bsize) else Min(good, BUNGET) + n
  }

  lemma RefillFront(s: seq<byte>, bsize: nat, data: seq<byte>)
    requires |s| == BUNGET + bsize && |data| <= bsize
    ensures LeftInFront(Refilled(s, bsize, data), s, bsize, data)
  {
    var s1 := Overlaid(Moved(s, 0, bsize, BUNGET), BUNGET, data);
    var t := Refilled(s, bsize, data);
    assert forall j :: BUNGET <= j < |t| && (data == [] || j < bsize - |data|) ==> t[j] == s1[j];
  }

  lemma FrontBytes(s: seq<byte>, bsize: nat, data: seq<byte>)
    requires |s| == BUNGET + bsize && |data| <= bsize
    ensures var s1 := Overlaid(s, BUNGET, data);
            var s2 := Moved(s1, BUNGET + bsize - |data|, BUNGET, |data|);
            && s2[BUNGET + bsize - |data|..] == [] + data
            && (|data| == bsize ==> s1[BUNGET + bsize - |data|..] == [] + data)
  {
    var s1 := Overlaid(s, BUNGET, data);
    assert s1[BUNGET..BUNGET + |data|] == data;
  }

  /** The last `good` bytes of `buf` are the bytes of `file` before `offset`. */
  ghost predicate Window(buf: seq<byte>, good: nat, file: seq<byte>, offset: int) {
    && good <= |buf| && good <= offset && (good > 0 ==> offset <= |file|)
    && forall j :: |buf| - good <= j < |buf| ==> buf[j] == file[offset - |buf| + j]
  }

  lemma WindowSlice(buf: seq<byte>, good: nat, file: seq<byte>, offset: int, from: nat, n: nat)
    requires Window(buf, good, file, offset) && 0 < n <= from <= good
    ensures offset - from + n <= |file|
    ensures buf[|buf| - from..|buf| - from + n] == file[offset - from..offset - from + n]
  {
  }

  /** A window followed by newly read bytes. */
  lemma WindowGrows(tail: seq<byte>, good: nat, file: seq<byte>, offset: int, data: seq<byte>, buf: seq<byte>)
    requires Window(tail, good, file, offset) && data != []
    requires 0 <= offset && offset + |data| <= |file| && data == file[offset..offset + |data|]
    requires |tail| + |data| <= |buf| && buf[|buf| - |tail| - |data|..] == tail + data
    ensures Window(buf, good + |data|, file, offset + |data|)
  {
    var n := |tail| + |data|;
    forall j | |buf| - good - |data| <= j < |buf| ensures buf[j] == file[offset + |data| - |buf| + j] {
      assert buf[j] == buf[|buf| - n..][j - |buf| + n] == (tail + data)[j - |buf| + n];
    }
  }

  /** The last bytes of the old buffer and the new data make one window. */
  lemma RefillKeeps(s: seq<byte>, bsize: nat, good: nat, file: seq<byte>, offset: int, data: seq<byte>, t: seq<byte>)
    requires |s| == BUNGET + bsize && |data| <= bsize && 0 <= offset && Window(s, good, file, offset)
    requires data != [] ==> offset + |data| <= |file| && data == file[offset..offset + |data|]
    requires Behind(t, s, bsize, data)
    ensures Window(t, StillGood(good, bsize, |data|), file, offset + |data|)
  {
    if data == [] {
      WindowKept(s, good, file, offset, t, Min(good, bsize));
    } else {
      var tail := s[bsize..];
      WindowKept(s, good, file, offset, tail, Min(good, BUNGET));
      WindowGrows(tail, Min(good, BUNGET), file, offset, data, t);
    }
  }

  /** What is in front of a window, and how much of it is used, may change. */
  lemma WindowKept(buf: seq<byte>, good: nat, file: seq<byte>, offset: int, buf': seq<byte>, good': nat)
    requires Window(buf, good, file, offset) && good' <= good && good' <= |buf'|
    requires forall j :: |buf'| - good' <= j < |buf'| ==> buf'[j] == buf[|buf| - |buf'| + j]
    ensures Window(buf', good', file, offset)
  {
  }

  /** The `n` bytes of `file` from `pos` on stand at the front of the buffer proper. */
  ghost predicate InFront(buf: seq<byte>, n: int, file: seq<byte>, pos: int) {
    && BUNGET + n <= |buf| && 0 <= pos && (n > 0 ==> pos + n <= |file|)
    && forall j :: BUNGET <= j < BUNGET + n ==> buf[j] == file[pos - BUNGET + j]
  }

  lemma BackWindow(s: seq<byte>, n: nat, file: seq<byte>, pos: int, t: seq<byte>)
    requires InFront(s, n, file, pos)
    requires t == if BUNGET + n < |s| then Moved(s, |s| - n, BUNGET, n) else s
    ensures Window(t, n, file, pos + n)
  {
    forall j | |t| - n <= j < |t| ensures t[j] == file[pos + n - |t| + j] {
      assert t[j] == s[j - |t| + n + BUNGET];
    }
  }

  /** The last `n` bytes of `s` are the first of the buffer proper in `t`. */
  predicate AtFront(t: seq<byte>, s: seq<byte>, n: nat) {
    && BUNGET + n <= |s| == |t|
    && forall j :: BUNGET <= j < BUNGET + n ==> t[j] == s[j + (|s| - BUNGET - n)]
  }

  lemma MovedDown(s: seq<byte>, src: nat, n: nat)
    requires BUNGET + n <= |s| == src + n
    ensures AtFront(Moved(s, BUNGET, src, n), s, n)
  {
  }

  lemma ToFront(s: seq<byte>, good: nat, file: seq<byte>, offset: int, n: nat, t: seq<byte>)
    requires Window(s, good, file, offset) && n <= good && BUNGET + n <= |s| == |t|
    requires AtFront(t, s, n)
    ensures InFront(t, n, file, offset - n)
  {
  }

  lemma AppendFront(s: seq<byte>, n: nat, file: seq<byte>, pos: int, data: seq<byte>)
    requires InFront(s, n, file, pos) && BUNGET + n + |data| <= |s|
    requires pos + n + |data| <= |file| && data == file[pos + n..pos + n + |data|]
    ensures InFront(Overlaid(s, BUNGET + n, data), n + |data|, file, pos)
  {
  }

  lemma SlicePrefix(s: seq<byte>, from: nat, n: nat, m: nat)
    requires n <= m && from + m <= |s|
    ensures s[from..from + n] == s[from..from + m][..n]
  {
  }

  lemma Adjacent(file: seq<byte>, pos: nat, i: nat, j: nat)
    requires pos + i + j <= |file|
    ensures file[pos..pos + i + j] == file[pos..pos + i] + file[pos + i..pos + i + j]
  {
  }

  lemma NeitherPart(delim: byte, file: seq<byte>, pos: nat, i: nat, j: nat)
    requires pos + i + j <= |file| && delim !in file[pos + i..pos + i + j] && (i > 0 ==> delim !in file[pos..pos + i])
    ensures delim !in file[pos..pos + i + j]
  {
    Adjacent(file, pos, i, j);
  }

  /** How much a read of `max` bytes at `pos` of a file of `len` delivers: something, except at the
      end. */
  function Amount(serve: (int, int) -> int, len: nat, pos: int, max: int): (n: int)
    requires 0 <= pos && 0 < max
    ensures 0 <= n <= max && (n == 0 <==> pos >= len) && (n > 0 ==> pos + n <= len)
  {
    var n := serve(pos, max);
    if pos >= len then 0 else if 1 <= n <= max && pos + n <= len then n else Min(max, len - pos)
  }

  /** What a buffer promised before some operation. */
  datatype Was = Was(reach: int, claimed: bool, trusted: bool)

  class Biobuf {
    const bsize: nat
    const b: array<byte>     // BUNGET bytes, then the buffer proper
    var icount: int
    var ocount: int
    var rdline: int
    var state: Mode
    var offset: int
    var gbuf: int            // start of the good data, as an index of b
    const file: seq<byte>    // what a descriptor open for reading delivers
    const serve: (int, int) -> int  // how much of it, from where, when so much is asked for
    var fpos: int            // and where it stands
    var written: seq<byte>   // what a descriptor open for writing has received
    ghost var last: nat      // how many bytes the last read brought that stand at the end of b
    ghost var kept: nat      // how many bytes of the file still stand in front of those
    ghost var accepted: seq<byte>

    function Ebuf(): int {
      BUNGET + bsize
    }

    // -------------------------------------------------------------- the descriptor

    method Memmove(dst: int, src: int, n: int)
      requires 0 <= n && 0 <= dst && dst + n <= b.Length && 0 <= src && src + n <= b.Length
      modifies b
      ensures b[..] == Moved(old(b[..]), dst, src, n)
    {
      var t := b[src..src + n];
      forall k | 0 <= k < n {
        b[dst + k] := t[k];
      }
    }

    function Served(pos: int, max: int): (n: int)
      requires 0 <= pos && 0 < max
      ensures 0 <= n <= max && (n == 0 <==> pos >= |file|) && (n > 0 ==> pos + n <= |file|)
    {
      Amount(serve, |file|, pos, max)
    }

    /** The bytes that such a read delivers. */
    function Chunk(pos: int): (data: seq<byte>)
      requires 0 <= pos && 0 < bsize
      ensures |data| == Served(pos, bsize) && (data != [] ==> pos + |data| <= |file| && data == file[pos..pos + |data|])
    {
      if pos >= |file| then [] else file[pos..pos + Served(pos, bsize)]
    }

    method Read(dst: int, max: int) returns (n: int)
      requires 0 <= dst && 0 < max && dst + max <= b.Length && 0 <= fpos
      modifies b, this`fpos
      ensures n == Served(old(fpos), max) && fpos == old(fpos) + n
      ensures n > 0 ==> b[..] == Overlaid(old(b[..]), dst, file[old(fpos)..fpos])
      ensures n == 0 ==> b[..] == old(b[..])
    {
      n := Served(fpos, max);
      forall k | 0 <= k < n {
        b[dst + k] := file[fpos + k];
      }
      fpos := fpos + n;
    }

    // -------------------------------------------------------------- reading

    /** How many bytes before the end of the buffer are those of the file before `offset`. */
    ghost function Good(): nat
      reads this
    {
      last + kept
    }

    /** The state of a buffer open for reading, with `ic` as its count. */
    ghost predicate Held(ic: int)
      reads this, b
    {
      && 0 < bsize && b.Length == BUNGET + bsize
      && (state == Reading || state == AtEof)
      && 0 <= offset == fpos
      && last <= bsize && kept <= BUNGET && Window(b[..], Good(), file, offset)
      && ic <= 0 && (state == AtEof ==> ic == 0 && offset >= |file|)
      && BUNGET <= gbuf <= Ebuf()
    }

    /** Moreover all that is left to read in the buffer is the file's. */
    ghost predicate ReadState(ic: int)
      reads this, b
    {
      Held(ic) && 0 <= Good() + ic
    }

    ghost predicate ReadValid()
      reads this, b
    {
      ReadState(icount)
    }

    /** Where the next byte comes from. */
    function Position(): int
      reads this
    {
      offset + icount
    }

    /** How many bytes can be given back. */
    ghost function Avail(): int
      reads this
    {
      Good() + icount
    }

    /** `gbuf` claims no more than the file's bytes.  Only a Bgetc that meets the end of the file
        makes it claim more. */
    ghost predicate Claimed()
      reads this
    {
      Ebuf() - gbuf <= Good()
    }

    /** A seek goes by no claim that is not met: at the end of the file it makes none. */
    ghost predicate Trusted()
      reads this
    {
      Claimed() || state == AtEof
    }

    /** How far a line is looked for. */
    function Reach(): int
      reads this
    {
      Max(bsize, -icount)
    }

    /** What is left of the file. */
    ghost function Rest(): seq<byte>
      requires 0 <= Position()
      reads this
    {
      if Position() <= |file| then file[Position()..] else []
    }

    /** A buffer just refilled, with `used` of the new bytes consumed, from one at `off0` that held
        `b0`.  At the end of the file `gbuf` claims the whole buffer. */
    ghost predicate Refreshed(used: int, off0: int, b0: seq<byte>, last0: int, kept0: int)
      requires 0 <= off0 && 0 < bsize && b.Length == BUNGET + bsize
      reads this, b
    {
      var data := Chunk(off0);
      && offset == off0 + |data| && LeftInFront(b[..], b0, bsize, data)
      && if data == [] then
           && state == AtEof && icount == 0 && gbuf == BUNGET
           && last == last0 && kept == Min(kept0, bsize - last0)
         else
           && state == Reading && icount == used - |data| && gbuf == Ebuf() - |data|
           && last == |data| && kept == Min(last0 + kept0, BUNGET)
    }

    /** The next byte of the file, or the end; the rest says when the buffer is refilled and
        what it then holds.  Whatever stands at `icount` is served. */
    method Bgetc() returns (c: int)
      requires Held(icount) && 0 <= Ebuf() + icount
      modifies this, b
      ensures Held(icount)
      ensures old(ReadValid()) ==> ReadValid()
      ensures old(ReadValid()) && old(Rest()) == [] ==>
                c == BEOF && Position() == old(Position()) && Avail() >= Min(old(Avail()), bsize)
      ensures old(ReadValid()) && old(Rest()) != [] ==>
                && c == old(Rest())[0] && Position() == old(Position()) + 1
                && Avail() >= Min(old(Avail()) + 1, BUNGET)
      ensures old(icount) != 0 ==>
                && c == old(b[Ebuf() + icount]) && icount == old(icount) + 1
                && b[..] == old(b[..]) && unchanged(`offset, `state, `gbuf, `last, `kept)
      ensures old(icount) == 0 && old(state) == AtEof ==>
                && c == BEOF && icount == 0 && state == Reading
                && b[..] == old(b[..]) && unchanged(`offset, `gbuf, `last, `kept)
      ensures old(icount) == 0 && old(state) == Reading ==>
                Refreshed(1, old(offset), old(b[..]), old(last), old(kept))
      ensures Reach() <= Max(bsize, old(Reach()) - 1)
      ensures old(Trusted()) && c != BEOF ==> Claimed()
      ensures old(Claimed()) ==> Trusted() && (old(state) == AtEof ==> Claimed())
    {
      if icount == 0 {
        if state != Reading {
          if state == AtEof {
            state := Reading;
          }
          return BEOF;
        }
        c := Refill();
        if c < 0 {
          return;
        }
      }
      c := Take();
    }

    /** Whatever stands at `icount`. */
    method Take() returns (c: int)
      requires Held(icount) && icount < 0 <= Ebuf() + icount
      modifies this`icount
      ensures Held(icount) && icount == old(icount) + 1 && c == old(b[Ebuf() + icount])
      ensures old(ReadValid()) ==> Position() <= |file| && c == file[old(Position())]
    {
      assert Avail() >= 0 ==> b[..][Ebuf() + icount] == file[offset + icount];
      c := b[Ebuf() + icount];
      icount := icount + 1;
    }

    /** Get the next buffer, keeping the end of the previous one in front of it. */
    method Refill() returns (r: int)
      requires Held(0) && icount == 0 && state == Reading
      modifies this, b
      ensures Held(icount) && Refreshed(0, old(offset), old(b[..]), old(last), old(kept))
      ensures r == if old(offset) >= |file| then BEOF else 0
    {
      ghost var good := Good();
      var i := NextBuffer(good);
      if i <= 0 {
        state := AtEof;
        kept := Min(kept, bsize - last);
        return BEOF;
      }
      last, kept := i, Min(good, BUNGET);
      icount := -i;
      offset := offset + i;
      return 0;
    }

    /** The bytes of a refill, and how many of them are the file's. */
    method NextBuffer(ghost good: nat) returns (i: int)
      requires 0 < bsize && b.Length == BUNGET + bsize && 0 <= fpos && Window(b[..], good, file, fpos)
      modifies b, this`fpos, this`gbuf
      ensures i == |Chunk(old(fpos))| && fpos == old(fpos) + i
      ensures gbuf == if i == 0 then BUNGET else Ebuf() - i
      ensures Window(b[..], StillGood(good, bsize, i), file, fpos)
      ensures LeftInFront(b[..], old(b[..]), bsize, Chunk(old(fpos)))
    {
      ghost var b0, data := b[..], Chunk(fpos);
      i := ReadBuffer();
      RefillKeeps(b0, bsize, good, file, old(fpos), data, b[..]);
    }

    /** What a refill puts where. */
    method ReadBuffer() returns (i: int)
      requires 0 < bsize && b.Length == BUNGET + bsize && 0 <= fpos
      modifies b, this`fpos, this`gbuf
      ensures i == |Chunk(old(fpos))| && fpos == old(fpos) + i
      ensures gbuf == if i == 0 then BUNGET else Ebuf() - i
      ensures Behind(b[..], old(b[..]), bsize, Chunk(old(fpos)))
    {
      RefillFront(b[..], bsize, Chunk(fpos));
      if Chunk(fpos) != [] {
        RefillBytes(b[..], bsize, Chunk(fpos));
      }
      i := ReadBehind();
    }

    /** As much as the buffer can take is asked for, at its front. */
    method ReadChunk() returns (i: int)
      requires 0 < bsize && b.Length == BUNGET + bsize && 0 <= fpos
      modifies b, this`fpos
      ensures i == |Chunk(old(fpos))| && fpos == old(fpos) + i
      ensures b[..] == Overlaid(old(b[..]), BUNGET, Chunk(old(fpos)))
    {
      OverlaidByNone(b[..], BUNGET);
      i := Read(BUNGET, bsize);
    }

    /** The moves and the read of a refill. */
    method ReadBehind() returns (i: int)
      requires 0 < bsize && b.Length == BUNGET + bsize && 0 <= fpos
      modifies b, this`fpos, this`gbuf
      ensures i == |Chunk(old(fpos))| && fpos == old(fpos) + i
      ensures gbuf == if i == 0 then BUNGET else Ebuf() - i
      ensures b[..] == Refilled(old(b[..]), bsize, Chunk(old(fpos)))
    {
      Memmove(0, Ebuf() - BUNGET, BUNGET);
      i := ReadChunk();
      gbuf := BUNGET;
      if 0 < i < bsize {
        Memmove(Ebuf() - i - BUNGET, 0, i + BUNGET);
        gbuf := Ebuf() - i;
      }
    }

    /** One byte is given back.  What is then in the buffer is the file's if there was a byte to
        give back. */
    method Bungetc() returns (r: int)
      requires Held(icount)
      modifies this`state, this`icount
      ensures Held(icount) && (old(Avail()) > 0 ==> ReadValid())
      ensures r == 1 && Position() == old(Position()) - 1 && Avail() == old(Avail()) - 1
      ensures old(Claimed()) ==> Claimed()
    {
      if state == AtEof {
        state := Reading;
      }
      if state != Reading {
        return BEOF;
      }
      icount := icount - 1;
      return 1;
    }

    /** `data` are the bytes of the file from `start` on. */
    ghost predicate Delivered(data: seq<byte>, start: int) {
      0 <= start && (data != [] ==> start + |data| <= |file| && data == file[start..start + |data|])
    }

    /** Exactly the next `count` bytes of the file, or all that are left. */
    method Bread(count: int) returns (data: seq<byte>)
      requires ReadValid()
      modifies this, b
      ensures ReadValid()
      ensures data == old(Rest())[..Min(if count < 0 then 0 else count, |old(Rest())|)]
      ensures Position() == old(Position()) + |data| && (data != [] ==> Avail() > 0)
      ensures Reach() <= Max(bsize, old(Reach()) - |data|)
      ensures (old(Claimed()) ==> Claimed()) && (old(Trusted()) ==> Trusted())
    {
      ghost var start, was := Position(), Was(Reach(), Claimed(), Trusted());
      ghost var left;
      var ic;
      data, ic, left := Deliver(count, start, was);
      Settle(ic, left, data, start, was);
      AsMuch(data, start, if count < 0 then 0 else count);
    }

    method Deliver(count: int, ghost start: int, ghost was: Was) returns (data: seq<byte>, ic: int, ghost left: int)
      requires Delivering(icount, count, [], start, was)
      modifies this, b
      ensures Delivering(ic, left, data, start, was) && (left > 0 ==> ic == 0 && offset >= |file|)
      ensures |data| == (if count < 0 then 0 else count) - (if left < 0 then 0 else left)
    {
      var c := count;
      data, ic := [], icount;
      while c > 0
        invariant Delivering(ic, c, data, start, was)
        invariant |data| == (if count < 0 then 0 else count) - (if c < 0 then 0 else c)
        decreases c, offset < |file|, state == Reading, ic == 0
      {
        var n := Min(-ic, c);
        if n == 0 {
          if state != Reading {
            break;
          }
          var i := Fetch(c, data, start, was);
          if i <= 0 {
            break;
          }
          ic := -i;
        } else {
          data := Copy(ic, c, n, data, start, was);
          c := c - n;
          ic := ic + n;
        }
      }
      left := c;
    }

    /** Bytes from `start` on that are `count`, or end with the file. */
    lemma AsMuch(data: seq<byte>, start: int, count: nat)
      requires Delivered(data, start) && |data| <= count && (|data| < count ==> start + |data| >= |file|)
      ensures data == (if start <= |file| then file[start..] else [])[..Min(count, Max(|file| - start, 0))]
    {
    }

    method Settle(ic: int, ghost left: int, ghost data: seq<byte>, ghost start: int, ghost was: Was)
      requires Delivering(ic, left, data, start, was) && (left > 0 ==> ic == 0 && offset >= |file|)
      modifies this`icount
      ensures ReadValid() && Position() == start + |data| && (data != [] ==> Avail() > 0)
      ensures Reach() <= Max(bsize, was.reach - |data|) && (was.claimed ==> Claimed()) && (was.trusted ==> Trusted())
      ensures Delivered(data, start) && (left > 0 ==> Position() >= |file|)
    {
      icount := ic;
    }

    /** What has been delivered from `start` on leads up to what is in the buffer at `ic`, with
        `left` bytes to come; `ic` and `gbuf` reach no further back than they did. */
    ghost predicate Delivering(ic: int, left: int, data: seq<byte>, start: int, was: Was)
      reads this, b
    {
      && ReadState(ic) && offset + ic == start + |data| && Delivered(data, start)
      && -ic <= Max(bsize, was.reach - |data|) && (data != [] ==> Good() + ic > 0 || (ic < 0 && left > 0))
      && (was.claimed ==> Claimed()) && (was.trusted ==> Trusted())
    }

    /** All of the buffer has gone out and more is wanted. */
    method Fetch(c: int, ghost data: seq<byte>, ghost start: int, ghost was: Was) returns (i: int)
      requires Delivering(0, c, data, start, was) && c > 0 && state == Reading
      modifies this, b
      ensures Delivering(-i, c, data, start, was) && 0 <= i
      ensures state == (if i == 0 then AtEof else Reading) && (i > 0 <==> old(offset) < |file|) && offset >= old(offset)
    {
      i := FillFront();
      if i <= 0 {
        state := AtEof;
      }
    }

    /** The `n` bytes at `ic` in the buffer go out behind `data`. */
    method Copy(ic: int, c: int, n: int, data: seq<byte>, ghost start: int, ghost was: Was) returns (data': seq<byte>)
      requires Delivering(ic, c, data, start, was) && 0 < n <= -ic
      ensures |data'| == |data| + n && Delivering(ic + n, c - n, data', start, was)
    {
      WindowSlice(b[..], Good(), file, offset, -ic, n);
      var piece := b[Ebuf() + ic..Ebuf() + ic + n];
      assert piece == b[..][Ebuf() + ic..Ebuf() + ic + n];
      Joined(data, piece, start);
      data' := data + piece;
    }

    lemma Joined(data: seq<byte>, piece: seq<byte>, start: int)
      requires Delivered(data, start) && piece != [] && start + |data| + |piece| <= |file|
      requires piece == file[start + |data|..start + |data| + |piece|]
      ensures Delivered(data + piece, start)
    {
    }

    /** Read a fresh buffer and move it up against the end. */
    method FillFront() returns (i: int)
      requires 0 < bsize && b.Length == BUNGET + bsize && 0 <= offset == fpos
      requires Window(b[..], Good(), file, offset)
      modifies b, this`fpos, this`gbuf, this`offset, this`last, this`kept
      ensures i == 0 <==> old(offset) >= |file|
      ensures 0 <= i <= bsize && offset == fpos == old(offset) + i
      ensures i > 0 ==> last == i && kept == 0 && Window(b[..], i, file, offset) && gbuf == Ebuf() - i
      ensures i == 0 ==> b[..] == old(b[..]) && unchanged(`gbuf, `last, `kept)
    {
      i := FrontBuffer();
      if i > 0 {
        WindowGrows([], 0, file, offset, file[offset..offset + i], b[..]);
        offset := offset + i;
        last, kept := i, 0;
      }
    }

    method FrontBuffer() returns (i: int)
      requires 0 < bsize && b.Length == BUNGET + bsize && 0 <= fpos
      modifies b, this`fpos, this`gbuf
      ensures 0 <= i <= bsize && fpos == old(fpos) + i && (i == 0 <==> old(fpos) >= |file|)
      ensures i > 0 ==> fpos <= |file| && gbuf == Ebuf() - i && b[..][Ebuf() - i..] == [] + file[old(fpos)..fpos]
      ensures i == 0 ==> gbuf == old(gbuf) && b[..] == old(b[..])
    {
      ghost var b0 := b[..];
      i := Read(BUNGET, bsize);
      if i > 0 {
        gbuf := BUNGET;
        FrontBytes(b0, bsize, file[old(fpos)..fpos]);
        if i < bsize {
          Memmove(Ebuf() - i, BUNGET, i);
          gbuf := Ebuf() - i;
        }
      }
    }

    // -------------------------------------------------------------- lines

    /** The first `delim` in b[from..to], or -1. */
    method Memchr(from: int, to: int, delim: byte) returns (k: int)
      requires 0 <= from <= to <= b.Length
      ensures k == -1 || from <= k < to
      ensures k >= 0 ==> b[k] == delim && delim !in b[from..k]
      ensures k == -1 ==> delim !in b[from..to]
    {
      k := from;
      while k < to
        invariant from <= k <= to && delim !in b[from..k]
      {
        if b[k] == delim {
          return;
        }
        k := k + 1;
      }
      return -1;
    }

    /** `n` unread bytes, those from `pos` on, stand at the front of the buffer. */
    ghost predicate Front(n: int, pos: int)
      reads this, b
    {
      && 0 <= n <= bsize && 0 < bsize && b.Length == BUNGET + bsize
      && 0 <= pos && offset == fpos == pos + n
      && InFront(b[..], n, file, pos)
    }

    method ShiftUp(n: int, ghost pos: int)
      requires 0 <= n <= bsize && b.Length == BUNGET + bsize && InFront(b[..], n, file, pos)
      modifies b
      ensures Window(b[..], n, file, pos + n)
    {
      ghost var b0 := b[..];
      if n < bsize {
        Memmove(Ebuf() - n, BUNGET, n);
      }
      BackWindow(b0, n, file, pos, b[..]);
    }

    /** Move `n` bytes from the front back up against the end; `used` of them are consumed. */
    method MoveBack(n: int, used: int, len: int, ghost pos: int)
      requires Front(n, pos) && 0 <= used <= n && gbuf == BUNGET
      requires state == Reading || (state == AtEof && n == 0 && offset >= |file|)
      modifies this`icount, this`gbuf, this`last, this`kept, this`rdline, b
      ensures ReadValid() && Position() == pos + used && gbuf == Ebuf() - n && last == n && rdline == len
      ensures Claimed() && -icount <= bsize
    {
      gbuf, icount, rdline := Ebuf() - n, used - n, len;
      last, kept := n, 0;
      ShiftUp(n, pos);
    }

    /** The bytes of the file from `pos` on, as far as `reach`. */
    ghost function Ahead(pos: int, reach: int): seq<byte>
      requires 0 <= pos && 0 <= reach
    {
      if pos <= |file| then file[pos..Min(pos + reach, |file|)] else []
    }

    /** A line ends with the first `delim` ahead; without one `len` is all there is. */
    ghost predicate IsLine(delim: byte, pos: int, reach: int, line: Option<seq<byte>>, len: int) {
      && 0 <= pos && 0 <= reach
      && match line
         case None => delim !in Ahead(pos, reach) && len == |Ahead(pos, reach)|
         case Some(l) => l <= Ahead(pos, reach) && l != [] && l[|l| - 1] == delim && delim !in l[..|l| - 1] && len == |l|
    }

    /** Giving bytes back has left more of them unread than the buffer holds, and there is no
        `delim` in those. */
    ghost predicate Overfull(delim: byte)
      requires 0 <= Position() && (icount < 0 ==> offset <= |file|) && icount <= 0
      reads this
    {
      -icount > bsize && delim !in file[Position()..offset]
    }

    /** The first `delim` among the next `bsize` bytes, or among those unread if they are more,
        ends the line that is returned and consumed.  Without one nothing is consumed, and
        `rdline` says how much is at hand -- unless the unread bytes overflow the buffer, and
        then those in front of the last `bsize` are lost. */
    method Brdline(delim: byte) returns (line: Option<seq<byte>>)
      requires ReadValid()
      modifies this, b
      ensures ReadValid()
      ensures if old(Overfull(delim)) then
                line == None && rdline == bsize && Position() == old(offset) - bsize
              else
                && IsLine(delim, old(Position()), Max(bsize, -old(icount)), line, rdline)
                && Position() == old(Position()) + if line == None then 0 else |line.value|
      ensures (old(Trusted()) ==> Claimed()) && Reach() <= old(Reach())
    {
      var i := -icount;
      if i == 0 && state != Reading {
        if state == AtEof {
          state := Reading;
        }
        rdline := 0;
        gbuf := Ebuf();
        return None;
      }
      ghost var pos := Position();
      line := InBuffer(delim, i);
      if line == None {
        if i > bsize {
          FullBuffer();
        } else {
          assert Max(bsize, i) == bsize;
          MoveFront(i);
          line := Search(delim, i, pos);
        }
      }
    }

    /** More than a buffer's worth is unread: no byte moves and the loop does not start. */
    method FullBuffer()
      requires ReadValid() && -icount > bsize && state == Reading
      modifies this`icount, this`gbuf, this`rdline
      ensures ReadValid() && rdline == bsize && Position() == offset - bsize && Claimed()
    {
      gbuf := BUNGET;
      rdline := bsize;
      icount := -(bsize as int);
    }

    /** Move the `i` unread bytes to the front of the buffer. */
    method MoveFront(i: int)
      requires ReadValid() && i == -icount <= bsize
      modifies b, this`gbuf
      ensures Front(i, Position()) && gbuf == BUNGET
    {
      ghost var b0 := b[..];
      gbuf := BUNGET;
      ShiftDown(i);
      ToFront(b0, Good(), file, offset, i, b[..]);
    }

    method ShiftDown(n: int)
      requires 0 <= n <= bsize && b.Length == BUNGET + bsize
      modifies b
      ensures AtFront(b[..], old(b[..]), n)
    {
      if n < bsize {
        var src := Ebuf() - n;
        MovedDown(b[..], src, n);
        Memmove(BUNGET, src, n);
      }
    }

    /** Look for a line in the remainder of the buffer. */
    method InBuffer(delim: byte, i: int) returns (line: Option<seq<byte>>)
      requires ReadValid() && i == -icount
      modifies this`icount, this`rdline
      ensures ReadValid()
      ensures line == None ==> icount == old(icount) && (i > 0 ==> delim !in file[Position()..offset])
      ensures line.Some? ==>
                && !old(Overfull(delim)) && IsLine(delim, old(Position()), Max(bsize, i), line, rdline)
                && Position() == old(Position()) + |line.value| && icount > old(icount)
    {
      var ip := Ebuf() - i;
      var ep := Memchr(ip, Ebuf(), delim);
      line := None;
      if i > 0 {
        WindowSlice(b[..], Good(), file, offset, i, i);
        assert b[ip..Ebuf()] == b[..][ip..Ebuf()];
      }
      if ep >= 0 {
        var j := ep - ip + 1;
        FirstOf(delim, b[..], ip, j, i);
        line := Some(b[ip..ip + j]);
        assert b[ip..ip + j] == b[..][ip..ip + j];
        rdline := j;
        icount := icount + j;
      }
    }

    /** The first `delim` of the unread bytes of `buf` ends a line of the file. */
    lemma FirstOf(delim: byte, buf: seq<byte>, ip: int, j: int, i: int)
      requires 0 <= ip < ip + j <= ip + i == |buf| && 0 <= Position() && Position() + i == offset <= |file|
      requires buf[ip..ip + i] == file[Position()..offset]
      requires buf[ip + j - 1] == delim && delim !in buf[ip..ip + j - 1]
      ensures IsLine(delim, Position(), Max(bsize, i), Some(buf[ip..ip + j]), j)
      ensures delim in file[Position()..offset]
    {
      var pos, unread := Position(), buf[ip..ip + i];
      SlicePrefix(buf, ip, j, i);
      SlicePrefix(buf, ip, j - 1, i);
      SlicePrefix(file, pos, j, i);
      SlicePrefix(file, pos, j - 1, i);
      assert unread[j - 1] == delim;
      FoundAt(delim, 0, j, pos, Max(bsize, i));
    }

    /** The front of the buffer holds the `i` bytes from `pos` on, and no `delim` is in them. */
    ghost predicate Gathering(delim: byte, i: int, pos: int)
      reads this, b
    {
      && Front(i, pos) && gbuf == BUNGET && (state == Reading || (state == AtEof && i == 0 && offset >= |file|))
      && (i > 0 ==> delim !in file[pos..pos + i])
    }

    /** Append to the front of the buffer until `delim` turns up, the file ends or the
        buffer is full. */
    method Search(delim: byte, i0: int, ghost pos: int) returns (line: Option<seq<byte>>)
      requires Gathering(delim, i0, pos)
      modifies this, b
      ensures ReadValid()
      ensures IsLine(delim, pos, bsize, line, rdline)
      ensures Position() == pos + (if line == None then 0 else |line.value|) && Claimed() && -icount <= bsize
    {
      var i := i0;
      while i < bsize
        invariant Gathering(delim, i, pos)
        decreases bsize - i
      {
        var j := Append(i, pos);
        if j <= 0 {
          line := GiveUp(delim, i, pos);
          return;
        }
        var ep := Memchr(BUNGET + i, BUNGET + i + j, delim);
        if ep >= 0 {
          line := EndLine(delim, i, ep - BUNGET + 1, i + j, pos);
          return;
        }
        NotYet(delim, i, j, pos);
        i := i + j;
      }
      line := GiveUp(delim, bsize, pos);
    }

    /** There is no line among the `i` bytes at the front, and no more to be had. */
    method GiveUp(delim: byte, i: int, ghost pos: int) returns (line: Option<seq<byte>>)
      requires Gathering(delim, i, pos) && (i == bsize || offset >= |file|)
      modifies this`icount, this`gbuf, this`last, this`kept, this`rdline, b
      ensures ReadValid() && Claimed() && -icount <= bsize
      ensures line == None && IsLine(delim, pos, bsize, None, rdline) && Position() == pos
    {
      NoLine(delim, i, pos);
      MoveBack(i, 0, i, pos);
      return None;
    }

    /** Deliver the line of `n` bytes at the front, with `m` bytes there in all. */
    method EndLine(delim: byte, ghost i: int, n: int, m: int, ghost pos: int) returns (line: Option<seq<byte>>)
      requires Front(m, pos) && gbuf == BUNGET && state == Reading && 0 <= i < n <= m
      requires delim !in file[pos..pos + i]
      requires b[BUNGET + n - 1] == delim && delim !in b[BUNGET + i..BUNGET + n - 1]
      modifies this`icount, this`gbuf, this`last, this`kept, this`rdline, b
      ensures ReadValid() && line.Some? && |line.value| == n
      ensures IsLine(delim, pos, bsize, line, rdline) && Position() == pos + n && Claimed() && -icount <= bsize
    {
      FrontIs(i, n - 1, m, pos);
      FrontIs(n - 1, n, m, pos);
      assert b[BUNGET + n - 1] == b[BUNGET + n - 1..BUNGET + n][0] == file[pos + n - 1];
      FrontIs(0, n, m, pos);
      FoundAt(delim, i, n, pos, bsize);
      line := Some(b[BUNGET..BUNGET + n]);
      MoveBack(m, n, n, pos);
    }

    lemma NoLine(delim: byte, i: int, pos: int)
      requires Front(i, pos) && (i == bsize || offset >= |file|) && (i > 0 ==> delim !in file[pos..pos + i])
      ensures IsLine(delim, pos, bsize, None, i)
    {
      if i > 0 {
        assert Ahead(pos, bsize) == file[pos..pos + i];
      }
    }

    method Append(i: int, ghost pos: int) returns (j: int)
      requires Front(i, pos) && i < bsize
      modifies b, this`fpos, this`offset
      ensures 0 <= j && Front(i + j, pos) && (j == 0 <==> old(offset) >= |file|)
    {
      ghost var b0 := b[..];
      j := Read(BUNGET + i, bsize - i);
      offset := offset + j;
      if j > 0 {
        AppendFront(b0, i, file, pos, file[pos + i..pos + i + j]);
      }
    }

    /** The file's bytes as found in the buffer: no `delim` up to `i`, the first one at `n`. */
    lemma FoundAt(delim: byte, i: int, n: int, pos: int, reach: int)
      requires 0 <= i < n <= reach && 0 <= pos && pos + n <= |file|
      requires delim !in file[pos..pos + i] && delim !in file[pos + i..pos + n - 1] && file[pos + n - 1] == delim
      ensures IsLine(delim, pos, reach, Some(file[pos..pos + n]), n)
    {
      var l := file[pos..pos + n];
      assert l == Ahead(pos, reach)[..n];
      assert l[..n - 1] == file[pos..pos + i] + file[pos + i..pos + n - 1];
    }

    lemma NotYet(delim: byte, i: int, j: int, pos: int)
      requires 0 <= i && 0 < j && Front(i + j, pos) && (i > 0 ==> delim !in file[pos..pos + i])
      requires delim !in b[BUNGET + i..BUNGET + i + j]
      ensures delim !in file[pos..pos + i + j]
    {
      FrontIs(i, i + j, i + j, pos);
      NeitherPart(delim, file, pos, i, j);
    }

    lemma FrontIs(from: int, to: int, n: int, pos: int)
      requires Front(n, pos) && 0 <= from <= to <= n && n > 0
      ensures b[BUNGET + from..BUNGET + to] == file[pos + from..pos + to]
    {
      assert forall j :: BUNGET <= j < BUNGET + n ==> b[j] == b[..][j];
    }

    // -------------------------------------------------------------- positions

    function Boffset(): int
      reads this
    {
      match state
      case Reading => offset + icount
      case AtEof => offset + icount
      case Writing => offset + (bsize + ocount)
      case Inactive => BEOF
    }

    method Lseek(n: int, base: int) returns (r: int)
      requires base == 0 || base == 2
      modifies this`fpos
      ensures var t := n + if base == 2 then |file| else 0;
              if t < 0 then r == -1 && fpos == old(fpos) else r == t == fpos
    {
      r := n + if base == 2 then |file| else 0;
      if r < 0 {
        return -1;
      }
      fpos := r;
    }

    /** Where a seek asks to go. */
    function Target(off: int, base: int): int
      reads this
    {
      off + if base == 1 then Position() else if base == 2 then |file| else 0
    }

    /** The guards under which a seek only moves `icount`. */
    predicate Inside(target: int, base: int)
      reads this
    {
      var d, bufsz := target - Position(), Ebuf() - gbuf;
      && state == Reading && base != 2 && -bufsz <= d <= bufsz
      && if d >= 0 then icount + d <= 0 else bufsz >= -(icount + d)
    }

    /** Seek on a buffer open for reading.  While `gbuf` claims only what is the file's, reading goes
        on from the place asked for if and only if that is not before the file.  In any state it
        does so if a seek that stays inside the buffer goes back no further than the bytes that
        the last read brought and those kept in front of them, or if any other seek is not to a
        place before the file.  A seek inside the buffer only moves `icount`, whatever stands
        there. */
    method Bseek(off: int, base0: int) returns (n: int)
      requires Held(icount) && 0 <= base0 <= 2
      modifies this
      ensures var target := old(Target(off, base0));
              var inside := old(Inside(target, base0));
              && n == (if inside || target >= 0 then target else -1)
              && ((if inside then old(offset) - target <= old(Good()) else target >= 0) ==> ReadValid())
              && (inside || target >= 0 ==> Held(icount) && Position() == n == Boffset())
              && (inside ==> icount == target - offset && b[..] == old(b[..]) && unchanged(`offset, `state))
              && (old(ReadValid()) && old(Trusted()) ==> (ReadValid() <==> target >= 0))
              && (old(Trusted()) || !inside ==> Claimed())
              && Reach() <= (if target < old(Position()) then bsize
                             else Max(bsize, old(Reach()) - (target - old(Position()))))
    {
      if state == AtEof {
        state := Reading;
        icount := 0;
        gbuf := Ebuf();
      }
      n := SeekReading(off, base0);
    }

    /** The case of a buffer that is not at the end of the file. */
    method SeekReading(off: int, base0: int) returns (n: int)
      requires Held(icount) && state == Reading && 0 <= base0 <= 2
      modifies this
      ensures state == Reading
      ensures var target := old(Target(off, base0));
              if old(Inside(target, base0)) then
                && n == target == Position() && Held(icount) && unchanged(`offset, `gbuf, `last, `kept)
                && ((old(ReadValid()) && Claimed()) || offset - target <= Good() ==> ReadValid())
                && Reach() <= (if target < old(Position()) then bsize
                               else Max(bsize, old(Reach()) - (target - old(Position()))))
              else
                && n == offset == (if target < 0 then -1 else target) && icount == 0
                && (ReadValid() <==> target >= 0) && Claimed()
    {
      n := off;
      var base := base0;
      if base == 1 {
        n := n + Boffset();
        base := 0;
      }
      if base == 0 {
        var done := SeekInside(n);
        if done {
          return;
        }
      }
      n := SeekFile(n, base);
    }

    /** Try to seek within the buffer. */
    method SeekInside(n: int) returns (done: bool)
      requires Held(icount) && state == Reading
      modifies this`icount
      ensures done <==> old(Inside(n, 0))
      ensures done ==>
                && Held(icount) && Position() == n
                && ((old(ReadValid()) && Claimed()) || offset - n <= Good() ==> ReadValid())
                && Reach() <= (if n < old(Position()) then bsize else Max(bsize, old(Reach()) - (n - old(Position()))))
    {
      if ReadValid() && Claimed() && Inside(n, 0) {
        ClaimedIsGood(n, 0);
      }
      var d := n - Boffset();
      var bufsz := Ebuf() - gbuf;
      if -bufsz <= d <= bufsz {
        icount := icount + d;
        if d >= 0 {
          if icount <= 0 {
            return true;
          }
        } else if Ebuf() - gbuf >= -icount {
          return true;
        }
      }
      return false;
    }

    /** Reset the buffer and move the descriptor. */
    method SeekFile(n: int, base: int) returns (r: int)
      requires 0 < bsize && b.Length == BUNGET + bsize && state == Reading && (base == 0 || base == 2)
      modifies this
      ensures var t := n + if base == 2 then |file| else 0;
              && r == offset == (if t < 0 then -1 else t) && icount == 0 && state == Reading
              && (ReadValid() <==> t >= 0) && Claimed()
    {
      r := Lseek(n, base);
      icount := 0;
      gbuf := Ebuf();
      last, kept := 0, 0;
      offset := r;
    }

    /** A seek inside the buffer stays among the file's bytes if no more than those are claimed. */
    lemma ClaimedIsGood(target: int, base: int)
      requires ReadValid() && Claimed() && Inside(target, base)
      ensures 0 <= target && offset - target <= Good()
    {
    }

    // -------------------------------------------------------------- opening

    constructor Open(size: nat, contents: seq<byte>, served: (int, int) -> int)
      requires size > BUNGET
      ensures ReadValid() && Position() == 0 == Boffset() && Rest() == contents && fresh(b)
      ensures bsize == size - BUNGET && file == contents && serve == served && state == Reading && offset == 0
      ensures icount == last == kept == 0 && gbuf == Ebuf() && Claimed()
    {
      bsize := size - BUNGET;
      b := new byte[size](_ => 0);
      icount, ocount, rdline, offset, gbuf, fpos := 0, 0, 0, 0, size, 0;
      state, file, serve, written, accepted := Reading, contents, served, [], [];
      last, kept := 0, 0;
    }

    constructor Create(size: nat)
      requires size > BUNGET
      ensures WriteValid() && accepted == [] && Boffset() == 0 && fresh(b)
    {
      bsize := size - BUNGET;
      b := new byte[size](_ => 0);
      icount, ocount, rdline, offset, gbuf, fpos := 0, -(size - BUNGET), 0, 0, size, 0;
      state, file, serve, written, accepted := Writing, [], (_, max) => max, [], [];
      last, kept := 0, 0;
    }

    // -------------------------------------------------------------- writing

    /** The state of a buffer open for writing: what was accepted has been written or is in
        the buffer, in order. */
    ghost predicate WriteValid()
      reads this, b
    {
      WriteState(ocount)
    }

    ghost predicate WriteState(oc: int)
      reads this, b
    {
      && 0 < bsize && b.Length == BUNGET + bsize
      && state == Writing
      && -(bsize as int) <= oc <= 0
      && offset == |written|
      && accepted == written + b[BUNGET..Ebuf() + oc]
    }

    lemma BoffsetCountsAccepted()
      requires WriteValid()
      ensures Boffset() == |accepted|
    {
    }

    /** write: all of the first `n` bytes of the buffer, or a failure that takes fewer. */
    method Write(n: int, fails: bool) returns (c: int)
      requires 0 < n <= bsize && b.Length == BUNGET + bsize
      modifies this`written
      ensures fails <==> c != n
      ensures c == n ==> written == old(written) + b[BUNGET..BUNGET + n]
    {
      if fails {
        return -1;
      }
      written := written + b[BUNGET..BUNGET + n];
      return n;
    }

    /** A writer's bytes go out, all or none.  A reader's unread bytes are dropped, so that
        reading goes on where the descriptor stands. */
    method Bflush(fails: bool) returns (r: int)
      requires state == Writing ==> WriteValid()
      requires state == Reading || state == AtEof ==> Held(icount)
      modifies this
      ensures accepted == old(accepted)
      ensures old(state) == Writing && r == 0 ==> WriteValid() && written == accepted && ocount == -(bsize as int)
      ensures old(state) == Writing && r != 0 ==> fails && state == Inactive
      ensures old(state) in {Reading, AtEof} ==>
                ReadValid() && Claimed() && state == Reading && Position() == old(offset)
      ensures r == if old(state) == Inactive || (old(state) == Writing && state == Inactive) then BEOF else 0
    {
      match state {
        case Writing =>
          var n := bsize + ocount;
          if n == 0 {
            return 0;
          }
          var c := Write(n, fails);
          if n == c {
            offset := offset + n;
            ocount := -(bsize as int);
            return 0;
          }
          state := Inactive;
          ocount := 0;
        case Reading =>
          icount := 0;
          gbuf := Ebuf();
          return 0;
        case AtEof =>
          state := Reading;
          icount := 0;
          gbuf := Ebuf();
          return 0;
        case Inactive =>
      }
      return BEOF;
    }

    method Bputc(c: byte, fails: bool) returns (r: int)
      requires WriteValid()
      modifies this, b
      ensures r == 0 ==> WriteValid() && accepted == old(accepted) + [c]
      ensures r == 0 || (r == BEOF && fails && state == Inactive)
    {
      while true
        invariant WriteValid() && accepted == old(accepted)
        decreases ocount == 0
      {
        var i := ocount;
        if i != 0 {
          b[Ebuf() + i] := c;
          ocount := i + 1;
          accepted := accepted + [c];
          return 0;
        }
        var f := Bflush(fails);
        if f == BEOF {
          break;
        }
      }
      return BEOF;
    }

    /** Copy bytes into the free part of the buffer. */
    method Store(oc: int, piece: seq<byte>)
      requires WriteState(oc) && |piece| <= -oc
      modifies b, this`accepted
      ensures WriteState(oc + |piece|) && accepted == old(accepted) + piece
    {
      ghost var old_part := b[BUNGET..Ebuf() + oc];
      forall k | 0 <= k < |piece| {
        b[Ebuf() + oc + k] := piece[k];
      }
      accepted := accepted + piece;
      assert b[BUNGET..Ebuf() + oc + |piece|] == old_part + piece;
    }

    method Bwrite(data: seq<byte>, fails: bool) returns (r: int)
      requires WriteValid()
      modifies this, b
      ensures r == |data| ==> WriteValid() && accepted == old(accepted) + data
      ensures r == |data| || (r == BEOF && fails && state == Inactive)
    {
      var c, p, oc := |data|, 0, ocount;
      while c > 0
        invariant 0 <= c && p + c == |data|
        invariant WriteState(oc) && accepted == old(accepted) + data[..p]
        decreases c, oc == 0
      {
        var n := Min(-oc, c);
        if n == 0 {
          if state != Writing {
            return BEOF;
          }
          var i := Write(bsize, fails);
          if i != bsize {
            state := Inactive;
            return BEOF;
          }
          offset := offset + i;
          oc := -(bsize as int);
        } else {
          Store(oc, data[p..p + n]);
          oc := oc + n;
          c := c - n;
          p := p + n;
        }
      }
      ocount := oc;
      return |data|;
    }
  }

  /** Up to four bytes just read can be given back and read again, wherever the buffer was
      refilled in between. */
  method GetUngetGet(bp: Biobuf, k: nat) returns (once: seq<int>, again: seq<int>)
    requires bp.ReadValid() && k <= BUNGET && k <= |bp.Rest()|
    modifies bp, bp.b
    ensures bp.ReadValid() && once == again == old(bp.Rest())[..k]
    ensures bp.Position() == old(bp.Position()) + k
  {
    ghost var rest := bp.Rest();
    once := GetAll(bp, k);
    for i := 0 to k
      invariant bp.ReadValid() && bp.Position() == old(bp.Position()) + k - i && bp.Avail() >= k - i
    {
      var r := bp.Bungetc();
    }
    assert bp.Rest() == rest;
    again := GetAll(bp, k);
  }

  method GetAll(bp: Biobuf, k: nat) returns (s: seq<int>)
    requires bp.ReadValid() && k <= |bp.Rest()|
    modifies bp, bp.b
    ensures bp.ReadValid() && s == old(bp.Rest())[..k] && bp.Position() == old(bp.Position()) + k
    ensures bp.Avail() >= Min(k, BUNGET)
  {
    s := [];
    ghost var start := bp.Position();
    for i := 0 to k
      invariant bp.ReadValid() && bp.Position() == start + i && bp.Avail() >= Min(i, BUNGET)
      invariant |s| == i && forall j :: 0 <= j < i ==> s[j] == bp.file[start + j]
    {
      var c := GetOne(bp);
      s := s + [c];
    }
  }

  method GetOne(bp: Biobuf) returns (c: int)
    requires bp.ReadValid() && bp.Position() < |bp.file|
    modifies bp, bp.b
    ensures bp.ReadValid() && c == bp.file[old(bp.Position())] && bp.Position() == old(bp.Position()) + 1
    ensures bp.Avail() >= Min(old(bp.Avail()) + 1, BUNGET)
  {
    assert bp.Rest()[0] == bp.file[bp.Position()];
    c := bp.Bgetc();
  }

  /** Bytes that are in the buffer are read without touching it. */
  method Skip(bp: Biobuf, k: nat)
    requires bp.Held(bp.icount) && k <= -bp.icount <= bp.Ebuf()
    modifies bp, bp.b
    ensures bp.Held(bp.icount) && bp.icount == old(bp.icount) + k && bp.b[..] == old(bp.b[..])
    ensures unchanged(bp`offset, bp`state, bp`gbuf, bp`last, bp`kept)
  {
    for i := 0 to k
      invariant bp.Held(bp.icount) && bp.icount == old(bp.icount) + i && bp.b[..] == old(bp.b[..])
      invariant unchanged(bp`offset, bp`state, bp`gbuf, bp`last, bp`kept)
    {
      var c := bp.Bgetc();
    }
  }

  // ---------------------------------------------------------------- a file read to its end

  function Total(chunks: seq<nat>): nat {
    if chunks == [] then 0 else Total(chunks[..|chunks| - 1]) + chunks[|chunks| - 1]
  }

  predicate Sizes(chunks: seq<nat>, bsize: nat) {
    forall k :: 0 <= k < |chunks| ==> 1 <= chunks[k] <= bsize
  }

  /** The lengths of the reads that bring the first bytes of a file of `len` into the buffer. */
  ghost predicate AsServed(chunks: seq<nat>, serve: (int, int) -> int, len: nat, bsize: nat)
    decreases |chunks|
  {
    && 0 < bsize
    && (chunks != [] ==>
          var n := |chunks| - 1;
          chunks[n] == Amount(serve, len, Total(chunks[..n]), bsize) && AsServed(chunks[..n], serve, len, bsize))
  }

  /** The offset of the byte of the file that stands `d` bytes before the end of the buffer after
      Bgetc has read `chunks`, or -1.  Each read leaves its bytes at the end behind four of the
      bytes before them, and once more at the front, where a later shorter one leaves them. */
  function Origin(chunks: seq<nat>, bsize: nat, d: nat): (x: int)
    requires 0 < d <= bsize && Sizes(chunks, bsize)
    ensures x == -1 || 0 <= x < Total(chunks)
    decreases |chunks|
  {
    if chunks == [] then -1
    else
      var n, len, rest := chunks[|chunks| - 1], Total(chunks), chunks[..|chunks| - 1];
      if d <= n + BUNGET then
        if d <= len then len - d else -1
      else if bsize - d < n then len - n + (bsize - d)
      else Origin(rest, bsize, d)
  }

  ghost predicate HoldsOrigins(buf: seq<byte>, bsize: nat, file: seq<byte>, chunks: seq<nat>) {
    && |buf| == BUNGET + bsize && Sizes(chunks, bsize) && Total(chunks) <= |file|
    && forall d: nat :: 0 < d <= bsize && Origin(chunks, bsize, d) >= 0 ==>
         buf[|buf| - d] == file[Origin(chunks, bsize, d)]
  }

  lemma OriginAfter(chunks: seq<nat>, n: nat, bsize: nat, d: nat)
    requires 0 < d <= bsize && Sizes(chunks, bsize) && 1 <= n <= bsize
    ensures Total(chunks + [n]) == Total(chunks) + n
    ensures Origin(chunks + [n], bsize, d)
            == var len := Total(chunks) + n;
               if d <= n + BUNGET then if d <= len then len - d else -1
               else if bsize - d < n then len - n + (bsize - d)
               else Origin(chunks, bsize, d)
  {
    assert (chunks + [n])[..|chunks|] == chunks;
  }

  /** One more read, of `n` bytes. */
  lemma OriginStep(t: seq<byte>, s: seq<byte>, good: nat, bsize: nat, file: seq<byte>, chunks: seq<nat>, n: nat)
    requires HoldsOrigins(s, bsize, file, chunks) && 1 <= n <= bsize && Total(chunks) + n <= |file|
    requires good >= Min(Total(chunks), BUNGET) && Window(t, Min(good, BUNGET) + n, file, Total(chunks) + n)
    requires LeftInFront(t, s, bsize, file[Total(chunks)..Total(chunks) + n])
    ensures HoldsOrigins(t, bsize, file, chunks + [n])
  {
    assert (chunks + [n])[..|chunks|] == chunks;
    forall d: nat | 0 < d <= bsize && Origin(chunks + [n], bsize, d) >= 0
      ensures t[|t| - d] == file[Origin(chunks + [n], bsize, d)]
    {
      OriginStepAt(t, s, good, bsize, file, chunks, n, d);
    }
  }

  lemma OriginStepAt(t: seq<byte>, s: seq<byte>, good: nat, bsize: nat, file: seq<byte>, chunks: seq<nat>, n: nat,
                     d: nat)
    requires HoldsOrigins(s, bsize, file, chunks) && 1 <= n <= bsize && Total(chunks) + n <= |file|
    requires good >= Min(Total(chunks), BUNGET) && Window(t, Min(good, BUNGET) + n, file, Total(chunks) + n)
    requires LeftInFront(t, s, bsize, file[Total(chunks)..Total(chunks) + n])
    requires 0 < d <= bsize && Origin(chunks + [n], bsize, d) >= 0
    ensures Total(chunks + [n]) == Total(chunks) + n
    ensures t[|t| - d] == file[Origin(chunks + [n], bsize, d)]
  {
    OriginAfter(chunks, n, bsize, d);
    if d <= n + BUNGET {
      InWindow(t, Min(good, BUNGET) + n, file, Total(chunks) + n, d);
    } else {
      InFrontOf(t, s, bsize, file, Total(chunks), n, d);
    }
  }

  lemma InWindow(buf: seq<byte>, good: nat, file: seq<byte>, offset: nat, d: nat)
    requires Window(buf, good, file, offset) && 0 < d <= good
    ensures buf[|buf| - d] == file[offset - d]
  {
  }

  lemma InFrontOf(t: seq<byte>, s: seq<byte>, bsize: nat, file: seq<byte>, pos: nat, n: nat, d: nat)
    requires 1 <= n && pos + n <= |file| && LeftInFront(t, s, bsize, file[pos..pos + n]) && n + BUNGET < d <= bsize
    ensures t[|t| - d] == if bsize - d < n then file[pos + (bsize - d)] else s[|s| - d]
  {
  }

  /** One buffer is read byte by byte. */
  method TakeBuffer(bp: Biobuf) returns (ghost n: nat)
    requires bp.Held(0) && bp.icount == 0 && bp.state == Reading && bp.offset < |bp.file|
    modifies bp, bp.b
    ensures bp.Held(0) && bp.icount == 0 && bp.state == Reading
    ensures n == bp.Served(old(bp.offset), bp.bsize) && bp.offset == old(bp.offset) + n <= |bp.file|
    ensures bp.last == n && bp.kept == Min(old(bp.last + bp.kept), BUNGET)
    ensures LeftInFront(bp.b[..], old(bp.b[..]), bp.bsize, bp.file[old(bp.offset)..old(bp.offset) + n])
  {
    var size := |bp.Chunk(bp.offset)|;
    n := size;
    var c := bp.Bgetc();
    Skip(bp, size - 1);
  }

  /** A file of which `chunks` have been read and consumed. */
  ghost predicate Consumed(bp: Biobuf, chunks: seq<nat>)
    reads bp, bp.b
  {
    && bp.Held(0) && bp.icount == 0 && bp.state == Reading
    && bp.offset == Total(chunks) && bp.Good() >= Min(bp.offset, BUNGET)
    && HoldsOrigins(bp.b[..], bp.bsize, bp.file, chunks) && AsServed(chunks, bp.serve, |bp.file|, bp.bsize)
  }

  lemma NothingYet(bp: Biobuf)
    requires bp.Held(0) && bp.icount == 0 && bp.state == Reading && bp.offset == 0
    ensures Consumed(bp, [])
  {
    assert forall d: nat :: 0 < d <= bp.bsize ==> Origin([], bp.bsize, d) == -1;
  }

  lemma ServedNext(chunks: seq<nat>, serve: (int, int) -> int, len: nat, bsize: nat, n: nat)
    requires AsServed(chunks, serve, len, bsize) && n == Amount(serve, len, Total(chunks), bsize)
    ensures AsServed(chunks + [n], serve, len, bsize) && Total(chunks + [n]) == Total(chunks) + n
  {
    var after := chunks + [n];
    assert after[..|chunks|] == chunks;
  }

  method TakeNext(bp: Biobuf, ghost chunks: seq<nat>) returns (ghost after: seq<nat>)
    requires Consumed(bp, chunks) && bp.offset < |bp.file|
    modifies bp, bp.b
    ensures Consumed(bp, after) && bp.offset > old(bp.offset)
  {
    ghost var s, good := bp.b[..], bp.Good();
    ghost var n := TakeBuffer(bp);
    OriginStep(bp.b[..], s, good, bp.bsize, bp.file, chunks, n);
    ServedNext(chunks, bp.serve, |bp.file|, bp.bsize, n);
    after := chunks + [n];
  }

  /** The whole file is read byte by byte. */
  method ReadFile(bp: Biobuf) returns (ghost chunks: seq<nat>)
    requires Consumed(bp, [])
    modifies bp, bp.b
    ensures Consumed(bp, chunks) && bp.offset == |bp.file|
  {
    chunks := [];
    while bp.offset < |bp.file|
      invariant Consumed(bp, chunks)
      decreases |bp.file| - bp.offset
    {
      chunks := TakeNext(bp, chunks);
    }
  }

  method SeekFromEnd(bp: Biobuf, target: nat, ghost chunks: seq<nat>) returns (n: int, c: int)
    requires Consumed(bp, chunks) && target < bp.offset == |bp.file|
    modifies bp, bp.b
    ensures n == target && Finds(bp.file, bp.bsize, chunks, target, c)
  {
    ghost var len, buf := |bp.file|, bp.b[..];
    assert bp.Chunk(len) == [];
    c := bp.Bgetc();
    assert bp.state == AtEof && bp.icount == 0 && bp.offset == len && bp.gbuf == BUNGET;
    c := bp.Bgetc();
    assert forall j :: BUNGET <= j < |buf| ==> bp.b[..][j] == buf[j];
    n := bp.Bseek(target, 0);
    c := bp.Bgetc();
  }

  /** The byte `c` that is served for `target` is the target's if that lies further back than the
      buffer reaches, and otherwise the one that stands in the buffer. */
  ghost predicate Finds(file: seq<byte>, bsize: nat, chunks: seq<nat>, target: nat, c: int) {
    && target < |file| == Total(chunks) && Sizes(chunks, bsize)
    && var d := |file| - target;
       if d > bsize then c == file[target]
       else Origin(chunks, bsize, d) >= 0 ==> c == file[Origin(chunks, bsize, d)]
  }

  /** A file is read by Bgetc to its end, the end is met twice, and a seek goes to `target`: it says
      it is there, and serves the byte that the reads have left there, whatever their lengths. */
  method SeekAfterEnd(size: nat, file: seq<byte>, served: (int, int) -> int, target: nat)
    returns (n: int, c: int, ghost chunks: seq<nat>)
    requires size > BUNGET && target < |file|
    ensures AsServed(chunks, served, |file|, size - BUNGET) && Total(chunks) == |file|
    ensures n == target && Finds(file, size - BUNGET, chunks, target, c)
  {
    var bp := new Biobuf.Open(size, file, served);
    NothingYet(bp);
    chunks := ReadFile(bp);
    n, c := SeekFromEnd(bp, target, chunks);
  }

  /** The seek is right within the last read and the four bytes before it. */
  lemma OriginIsTarget(chunks: seq<nat>, bsize: nat, d: nat)
    requires 0 < d <= bsize && Sizes(chunks, bsize) && d <= Total(chunks) && d <= chunks[|chunks| - 1] + BUNGET
    ensures Origin(chunks, bsize, d) == Total(chunks) - d
  {
  }

  // ---------------------------------------------------------------- reads from a disk

  /** Every read delivers as much as was asked for, as from a disk. */
  ghost predicate ReadsWhole(serve: (int, int) -> int) {
    forall p, max :: serve(p, max) == max
  }

  /** The offset of the byte that is served after a file of `len` bytes has been read by Bgetc
      through a buffer of `bsize` to its end, that has been met twice, and a seek to `target`. */
  function Found(len: nat, bsize: nat, target: nat): (x: nat)
    requires 0 < bsize && target < len
    ensures x < len
  {
    var r, d := len % bsize, len - target;
    if d > bsize || len < bsize || r == 0 || d <= r + BUNGET then target
    else if bsize - d < r then len - r + (bsize - d)
    else len - r - d
  }

  /** The seek finds its target if and only if that lies further back than the buffer reaches, or
      within the last read and the four bytes before it, or the last read was the only one or
      a full one. */
  lemma FoundIsTarget(len: nat, bsize: nat, target: nat)
    requires 0 < bsize && target < len
    ensures Found(len, bsize, target) == target <==>
              var r, d := len % bsize, len - target;
              d > bsize || d <= r + BUNGET || r == 0 || len < bsize
  {
  }

  lemma Remainder(len: nat, bsize: nat, k: nat, r: nat)
    requires len == k * bsize + r && r < bsize
    ensures len % bsize == r
  {
    var q, m := len / bsize, len % bsize;
    assert len == q * bsize + m;
    if q < k {
      Apart(bsize, q, k);
    } else if k < q {
      Apart(bsize, k, q);
    }
  }

  lemma Apart(bsize: nat, a: nat, b: nat)
    requires a < b
    ensures a * bsize + bsize <= b * bsize
  {
    assert b * bsize - a * bsize == (b - a) * bsize;
    AtLeast(bsize, b - a);
  }

  lemma AtLeast(bsize: nat, k: nat)
    requires k >= 1
    ensures k * bsize >= bsize
  {
  }

  lemma OneMore(bsize: nat, n: nat)
    requires n >= 1
    ensures n * bsize == (n - 1) * bsize + bsize
  {
  }

  /** All reads but the last are of a whole buffer. */
  lemma {:induction false} WholeBuffers(chunks: seq<nat>, serve: (int, int) -> int, len: nat, bsize: nat)
    requires ReadsWhole(serve) && AsServed(chunks, serve, len, bsize) && Sizes(chunks, bsize) && chunks != []
    ensures var n := |chunks| - 1;
            && Total(chunks[..n]) == n * bsize && chunks[n] == Min(bsize, len - n * bsize)
            && (n > 0 ==> chunks[n - 1] == bsize)
    decreases |chunks|
  {
    var n := |chunks| - 1;
    var rest := chunks[..n];
    if n > 0 {
      WholeBuffers(rest, serve, len, bsize);
      OneMore(bsize, n);
    }
  }

  /** `Found` and `Origin` with the last of the reads of length `r`. */
  function AfterLast(len: nat, bsize: nat, r: nat, d: nat): int {
    if d <= r + BUNGET then len - d else if bsize - d < r then len - r + (bsize - d) else len - r - d
  }

  lemma FoundBehind(len: nat, bsize: nat, k: nat, r: nat, d: nat)
    requires len == k * bsize + r && 0 < r <= bsize && 0 < d <= bsize && d <= len
    ensures Found(len, bsize, len - d) == AfterLast(len, bsize, r, d)
  {
    if r < bsize {
      Remainder(len, bsize, k, r);
      if k > 0 {
        AtLeast(bsize, k);
      }
    } else {
      OneMore(bsize, k + 1);
      Remainder(len, bsize, k + 1, 0);
    }
  }

  lemma OriginBehind(chunks: seq<nat>, bsize: nat, d: nat)
    requires Sizes(chunks, bsize) && chunks != [] && 0 < d <= bsize && d <= Total(chunks)
    requires |chunks| > 1 ==> chunks[|chunks| - 2] == bsize
    ensures Origin(chunks, bsize, d) == AfterLast(Total(chunks), bsize, chunks[|chunks| - 1], d)
  {
    if |chunks| > 1 {
      var rest := chunks[..|chunks| - 1];
      assert rest[|rest| - 1] == bsize;
      OriginIsTarget(rest, bsize, d);
    }
  }

  /** With whole reads, what stands in the buffer is what is `Found`. */
  lemma OriginIsFound(chunks: seq<nat>, serve: (int, int) -> int, bsize: nat, d: nat)
    requires ReadsWhole(serve) && AsServed(chunks, serve, Total(chunks), bsize) && Sizes(chunks, bsize)
    requires 0 < d <= bsize && d <= Total(chunks)
    ensures Origin(chunks, bsize, d) == Found(Total(chunks), bsize, Total(chunks) - d)
  {
    var k := |chunks| - 1;
    WholeBuffers(chunks, serve, Total(chunks), bsize);
    OriginBehind(chunks, bsize, d);
    FoundBehind(Total(chunks), bsize, k, chunks[k], d);
  }

  /** The same with whole reads: the byte read after the seek is the one `Found`. */
  method SeekBack(size: nat, file: seq<byte>, target: nat) returns (n: int, c: int)
    requires size > BUNGET && target < |file|
    ensures n == target && c == file[Found(|file|, size - BUNGET, target)]
  {
    var served: (int, int) -> int := (_, max) => max;
    ghost var chunks;
    n, c, chunks := SeekAfterEnd(size, file, served, target);
    if |file| - target <= size - BUNGET {
      OriginIsFound(chunks, served, size - BUNGET, |file| - target);
    }
  }

  const SEVEN: seq<byte> := [10, 11, 12, 13, 14, 15, 16]

  /** A seek that serves a wrong byte: in a file of seven bytes and a buffer of six, a seek to
      offset 1 finds the last byte and not the second. */
  method Misread() returns (n: int, c: int)
    ensures n == 1 && c == SEVEN[6] != SEVEN[1]
  {
    n, c := SeekBack(BUNGET + 6, SEVEN, 1);
  }

  /** For every length, buffer and target for which the seek does not find its target there is a
      file of which a wrong byte is served. */
  lemma SomeFileIsMisread(len: nat, bsize: nat, target: nat) returns (file: seq<byte>)
    requires 0 < bsize && target < len && Found(len, bsize, target) != target
    ensures |file| == len && file[Found(len, bsize, target)] != file[target]
  {
    file := seq(len, i => if i == target then 1 else 0);
  }

  const TWELVE: seq<byte> := [10, 11, 12, 13, 14, 15, 16, 17, 18, 19, 20, 21]

  /** With a buffer of six, the seventh byte is read and two are given back across the refill. */
  method TwoBack() returns (bp: Biobuf)
    ensures fresh(bp) && fresh(bp.b) && bp.ReadValid() && bp.file == TWELVE && bp.bsize == 6
    ensures bp.icount == -7 && bp.offset == 12
  {
    bp := new Biobuf.Open(BUNGET + 6, TWELVE, (_, max) => max);
    var c := bp.Bgetc();
    assert bp.icount == -5 && bp.last == 6;
    Skip(bp, 5);
    c := bp.Bgetc();
    assert bp.icount == -5 && bp.Good() == 10;
    var r := bp.Bungetc();
    r := bp.Bungetc();
  }

  /** A byte that Brdline loses: reading stands at the sixth byte when a line is asked for that is
      not there, and the byte read next is the seventh. */
  method LoseByte() returns (at: int, line: Option<seq<byte>>, c: int)
    ensures at == 5 && line == None && c == TWELVE[6] != TWELVE[5]
  {
    var bp := TwoBack();
    at := bp.Boffset();
    assert bp.Overfull(0);
    line := bp.Brdline(0);
    c := GetOne(bp);
  }
}

/**
 * Splitting a line into tokens with quoting, in place (src/lib9/tokenize.c).
 *
 * `Text`, `End` and `Gap` are the reference: they read the string `w` from position `i` and
 * write nothing.
 */
module Tokenize {

  const NUL: char := '\0'
  const QUOTE: char := '\''
  const BLANKS: set<char> := {' ', '\t', '\r', '\n'}

  // ----- the reference -----

  /** The rest of the token that stands at `i`, with its quotes resolved. */
  function Text(w: string, i: nat, quoting: bool, sep: set<char>): string
    decreases |w| - i
  {
    if i >= |w| || (!quoting && w[i] in sep) then ""
    else if w[i] != QUOTE then [w[i]] + Text(w, i + 1, quoting, sep)
    else if !quoting then Text(w, i + 1, true, sep)
    else if i + 1 == |w| || w[i + 1] != QUOTE then Text(w, i + 1, false, sep)
    else [QUOTE] + Text(w, i + 2, true, sep)
  }

  /** Where that token ends. */
  function End(w: string, i: nat, quoting: bool, sep: set<char>): (e: nat)
    ensures i <= |w| ==> i + |Text(w, i, quoting, sep)| <= e <= |w|
    ensures i <= e < |w| ==> w[e] in sep
    decreases |w| - i
  {
    if i >= |w| || (!quoting && w[i] in sep) then i
    else if w[i] != QUOTE then End(w, i + 1, quoting, sep)
    else if !quoting then End(w, i + 1, true, sep)
    else if i + 1 == |w| || w[i + 1] != QUOTE then End(w, i + 1, false, sep)
    else End(w, i + 2, true, sep)
  }

  /** The first position from `i` on that holds no separator. */
  function Gap(w: string, i: nat, sep: set<char>): (g: nat)
    requires i <= |w|
    ensures i <= g <= |w|
    ensures g < |w| ==> w[g] !in sep
    decreases |w| - i
  {
    if i == |w| || w[i] !in sep then i else Gap(w, i + 1, sep)
  }

  /** At most `max` tokens from `i` on. */
  function Tokens(w: string, i: nat, max: int, sep: set<char>): (r: seq<string>)
    requires i <= |w|
    ensures |r| <= if max < 0 then 0 else max
    decreases if max < 0 then 0 else max
  {
    var g := Gap(w, i, sep);
    if max <= 0 || g == |w| then []
    else [Text(w, g, false, sep)] + Tokens(w, End(w, g, false, sep), max - 1, sep)
  }

  /** At most `max` fields from `i` on, quotes left in; the last one allowed takes all that is left. */
  function Fields(w: string, i: nat, max: int, sep: set<char>): (r: seq<string>)
    requires i <= |w|
    ensures |r| <= if max < 0 then 0 else max
    decreases if max < 0 then 0 else max
  {
    var g := Gap(w, i, sep);
    if max <= 0 || g == |w| then []
    else if max == 1 then [w[g..]]
    else [w[g..End(w, g, false, sep)]] + Fields(w, End(w, g, false, sep), max - 1, sep)
  }

  // ----- quoting and reading back -----

  function Doubled(x: string): string {
    if x == "" then "" else (if x[0] == QUOTE then [QUOTE, QUOTE] else [x[0]]) + Doubled(x[1..])
  }

  function Quoted(x: string): string {
    [QUOTE] + Doubled(x) + [QUOTE]
  }

  predicate Bare(x: string, sep: set<char>) {
    forall i :: 0 <= i < |x| ==> x[i] != QUOTE && x[i] !in sep
  }

  /** `v` is a way to write `x`: quoted, or bare when it holds nothing that quoting is for. */
  predicate Writes(v: string, x: string, sep: set<char>) {
    v == Quoted(x) || (v == x && x != "" && Bare(x, sep))
  }

  /** `v` stands in `w` at `i`. */
  predicate Has(w: string, i: nat, v: string) {
    i + |v| <= |w| && w[i..i + |v|] == v
  }

  /** The end of the string or a separator: what ends a token when no quote is open. */
  predicate Stop(w: string, i: nat, sep: set<char>) {
    i == |w| || (i < |w| && w[i] in sep)
  }

  lemma HasParts(w: string, i: nat, u: string, v: string)
    requires Has(w, i, u + v)
    ensures Has(w, i, u) && Has(w, i + |u|, v)
  {
    assert w[i..i + |u|] == w[i..i + |u + v|][..|u|];
    assert w[i + |u|..i + |u + v|] == w[i..i + |u + v|][|u|..];
  }

  lemma HasFirst(w: string, i: nat, v: string)
    requires Has(w, i, v) && v != ""
    ensures i < |w| && w[i] == v[0]
  {
    assert w[i] == w[i..i + |v|][0];
  }

  lemma HasSecond(w: string, i: nat, v: string)
    requires Has(w, i, v) && |v| > 1
    ensures i + 1 < |w| && w[i + 1] == v[1]
  {
    assert w[i + 1] == w[i..i + |v|][1];
  }

  /** Inside quotes the doubled text reads as itself, up to the closing quote. */
  lemma {:induction false} ReadDoubled(w: string, i: nat, x: string, sep: set<char>)
    requires Has(w, i, Doubled(x) + [QUOTE]) && Stop(w, i + |Doubled(x)| + 1, sep) && QUOTE !in sep
    ensures Text(w, i, true, sep) == x
    ensures End(w, i, true, sep) == i + |Doubled(x)| + 1
    decreases |x|
  {
    HasFirst(w, i, Doubled(x) + [QUOTE]);
    if x != "" {
      var v, rest := if x[0] == QUOTE then [QUOTE, QUOTE] else [x[0]], Doubled(x[1..]) + [QUOTE];
      assert Doubled(x) + [QUOTE] == v + rest;
      HasParts(w, i, v, rest);
      if x[0] == QUOTE {
        HasSecond(w, i, v);
        ReadDoubled(w, i + 2, x[1..], sep);
      } else {
        ReadDoubled(w, i + 1, x[1..], sep);
      }
    }
  }

  lemma {:induction false} ReadBare(w: string, i: nat, x: string, sep: set<char>)
    requires Has(w, i, x) && Stop(w, i + |x|, sep) && Bare(x, sep)
    ensures Text(w, i, false, sep) == x && End(w, i, false, sep) == i + |x|
    decreases |x|
  {
    if x != "" {
      assert x == [x[0]] + x[1..];
      HasParts(w, i, [x[0]], x[1..]);
      HasFirst(w, i, x);
      ReadBare(w, i + 1, x[1..], sep);
    }
  }

  lemma ReadQuoted(w: string, i: nat, x: string, sep: set<char>)
    requires Has(w, i, Quoted(x)) && Stop(w, i + |Quoted(x)|, sep) && QUOTE !in sep
    ensures Text(w, i, false, sep) == x && End(w, i, false, sep) == i + |Quoted(x)|
  {
    assert Quoted(x) == [QUOTE] + (Doubled(x) + [QUOTE]);
    HasParts(w, i, [QUOTE], Doubled(x) + [QUOTE]);
    HasFirst(w, i, [QUOTE]);
    ReadDoubled(w, i + 1, x, sep);
  }

  /** One written token reads back, and the reading stops right behind it. */
  lemma ReadWritten(w: string, i: nat, v: string, x: string, sep: set<char>)
    requires Has(w, i, v) && Writes(v, x, sep) && Stop(w, i + |v|, sep) && QUOTE !in sep
    ensures Text(w, i, false, sep) == x && End(w, i, false, sep) == i + |v|
    ensures i < |w| && Gap(w, i, sep) == i
  {
    HasFirst(w, i, v);
    if v == Quoted(x) {
      ReadQuoted(w, i, x, sep);
    } else {
      ReadBare(w, i, x, sep);
    }
  }

  function JoinWith(c: char, vs: seq<string>): string {
    if vs == [] then ""
    else vs[0] + if |vs| == 1 then "" else [c] + JoinWith(c, vs[1..])
  }

  lemma TokensSkip(w: string, i: nat, max: int, sep: set<char>)
    requires i < |w| && w[i] in sep
    ensures Tokens(w, i, max, sep) == Tokens(w, i + 1, max, sep)
  {
  }

  /** The first piece of a joined line, and what follows it. */
  lemma FirstOfJoined(w: string, i: nat, c: char, vs: seq<string>)
    requires vs != [] && i <= |w| && w[i..] == JoinWith(c, vs)
    ensures Has(w, i, vs[0])
    ensures var k := i + |vs[0]|;
            if |vs| == 1 then k == |w|
            else k < |w| && w[k] == c && w[k + 1..] == JoinWith(c, vs[1..])
  {
    var rest := if |vs| == 1 then "" else [c] + JoinWith(c, vs[1..]);
    var k := i + |vs[0]|;
    assert Has(w, i, vs[0] + rest);
    HasParts(w, i, vs[0], rest);
    if |vs| > 1 {
      HasFirst(w, k, rest);
      assert w[k + 1..] == rest[1..];
    }
  }

  /** The first written token is the first one read. */
  lemma TokensFirst(w: string, i: nat, v: string, x: string, max: int, sep: set<char>)
    requires Has(w, i, v) && Writes(v, x, sep) && Stop(w, i + |v|, sep) && QUOTE !in sep && max > 0
    ensures Tokens(w, i, max, sep) == [x] + Tokens(w, i + |v|, max - 1, sep)
  {
    ReadWritten(w, i, v, x, sep);
  }

  lemma JoinedNone(w: string, i: nat, max: int, sep: set<char>)
    requires i == |w|
    ensures Tokens(w, i, max, sep) == []
  {
  }

  lemma JoinedOne(w: string, i: nat, c: char, vs: seq<string>, x: string, max: int, sep: set<char>)
    requires |vs| == 1 && i <= |w| && w[i..] == JoinWith(c, vs) && Writes(vs[0], x, sep) && QUOTE !in sep && max > 0
    ensures Tokens(w, i, max, sep) == [x]
  {
    FirstOfJoined(w, i, c, vs);
    TokensFirst(w, i, vs[0], x, max, sep);
    JoinedNone(w, i + |vs[0]|, max - 1, sep);
  }

  lemma JoinedMore(w: string, i: nat, k: nat, v: string, x: string, xs: seq<string>, max: int, sep: set<char>)
    requires Has(w, i, v) && Writes(v, x, sep) && QUOTE !in sep && max > 0
    requires k == i + |v| + 1 <= |w| && w[k - 1] in sep && Tokens(w, k, max - 1, sep) == xs
    ensures Tokens(w, i, max, sep) == [x] + xs
  {
    TokensFirst(w, i, v, x, max, sep);
    TokensSkip(w, k - 1, max - 1, sep);
  }

  predicate AllWrite(vs: seq<string>, xs: seq<string>, sep: set<char>) {
    |vs| == |xs| && forall k :: 0 <= k < |vs| ==> Writes(vs[k], xs[k], sep)
  }

  lemma AllWriteRest(vs: seq<string>, xs: seq<string>, sep: set<char>)
    requires AllWrite(vs, xs, sep) && vs != []
    ensures Writes(vs[0], xs[0], sep) && AllWrite(vs[1..], xs[1..], sep) && xs == [xs[0]] + xs[1..]
  {
  }

  lemma ReadShort(w: string, i: nat, c: char, vs: seq<string>, xs: seq<string>, max: int, sep: set<char>)
    requires QUOTE !in sep && AllWrite(vs, xs, sep) && |vs| <= 1 && |vs| <= max
    requires i <= |w| && w[i..] == JoinWith(c, vs)
    ensures Tokens(w, i, max, sep) == xs
  {
    if vs == [] {
      JoinedNone(w, i, max, sep);
    } else {
      JoinedOne(w, i, c, vs, xs[0], max, sep);
    }
  }

  /** Tokens written down and joined with a separator read back as the same list. */
  lemma {:induction false} ReadJoined(w: string, i: nat, c: char, vs: seq<string>, xs: seq<string>, max: int, sep: set<char>)
    requires c in sep && QUOTE !in sep && AllWrite(vs, xs, sep) && |vs| <= max
    requires i <= |w| && w[i..] == JoinWith(c, vs)
    ensures Tokens(w, i, max, sep) == xs
    decreases |vs|
  {
    if |vs| <= 1 {
      ReadShort(w, i, c, vs, xs, max, sep);
    } else {
      var k := i + |vs[0]| + 1;
      AllWriteRest(vs, xs, sep);
      FirstOfJoined(w, i, c, vs);
      ReadJoined(w, k, c, vs[1..], xs[1..], max - 1, sep);
      JoinedMore(w, i, k, vs[0], xs[0], xs[1..], max, sep);
    }
  }

  /** The list survives being written on one line and split again. */
  lemma RoundTrip(c: char, vs: seq<string>, xs: seq<string>, max: int)
    requires c in BLANKS && AllWrite(vs, xs, BLANKS) && |vs| <= max
    ensures Tokens(JoinWith(c, vs), 0, max, BLANKS) == xs
  {
    var w := JoinWith(c, vs);
    assert w[0..] == w;
    ReadJoined(w, 0, c, vs, xs, max, BLANKS);
  }

  /** Two words with a blank, a tab, a carriage return or a newline between them are two tokens. */
  lemma TwoWords(x: string, c: char, y: string)
    requires x != "" && y != "" && c in {' ', '\t', '\r', '\n'}
    requires IsWord(x) && IsWord(y)
    ensures Tokens(x + [c] + y, 0, 2, BLANKS) == [x, y]
  {
    assert [x, y][1..] == [y];
    assert JoinWith(c, [x, y]) == x + [c] + y;
    assert Bare(x, BLANKS) && Bare(y, BLANKS);
    RoundTrip(c, [x, y], [x, y], 2);
  }

  predicate IsWord(x: string) {
    forall i :: 0 <= i < |x| ==> x[i] !in {'\'', ' ', '\t', '\r', '\n'}
  }

  /** Anything between single quotes is one token, with two of them standing for one. */
  lemma QuotedWord(x: string, y: string)
    requires '\'' !in x && '\'' !in y
    ensures Tokens("'" + x + "''" + y + "'", 0, 1, BLANKS) == [x + "'" + y]
  {
    QuotedIs(x, y);
    var v := Quoted(x + "'" + y);
    assert JoinWith(' ', [v]) == v;
    RoundTrip(' ', [v], [x + "'" + y], 1);
  }

  lemma QuotedIs(x: string, y: string)
    requires '\'' !in x && '\'' !in y
    ensures Quoted(x + "'" + y) == "'" + x + "''" + y + "'"
  {
    DoubledParts(x + "'", y);
    DoubledParts(x, "'");
    DoubledPlain(x);
    DoubledPlain(y);
    assert Doubled("'") == "''";
    Joins("'", x, "''", y);
  }

  lemma Joins(a: string, b: string, c: string, d: string)
    ensures a + (b + c + d) == a + b + c + d
  {
  }

  lemma {:induction false} DoubledParts(x: string, y: string)
    ensures Doubled(x + y) == Doubled(x) + Doubled(y)
  {
    if x == "" {
      assert x + y == y;
    } else {
      assert (x + y)[1..] == x[1..] + y;
      DoubledParts(x[1..], y);
    }
  }

  lemma {:induction false} DoubledPlain(x: string)
    requires QUOTE !in x
    ensures Doubled(x) == x
  {
    if x != "" {
      DoubledPlain(x[1..]);
      assert x == [x[0]] + x[1..];
    }
  }

  // ----- the string rewritten in place -----

  /** The string `x` stands in `a` at `p` and is ended there. */
  ghost predicate StandsAt(a: seq<char>, p: nat, x: string) {
    && p + |x| < |a|
    && a[p..p + |x|] == x
    && a[p + |x|] == NUL
  }

  /** All the strings stand where `args` says. */
  ghost predicate AllStand(a: seq<char>, args: seq<nat>, n: nat, all: seq<string>) {
    n == |all| <= |args| && forall k :: 0 <= k < n ==> StandsAt(a, args[k], all[k])
  }

  /** What is left of `w` to read at `t`, with `done` written. */
  ghost predicate Reading(w: string, done: string, s0: nat, t: nat, quoting: bool, sep: set<char>) {
    && s0 <= t <= |w|
    && Text(w, s0, false, sep) == done + Text(w, t, quoting, sep)
    && End(w, s0, false, sep) == End(w, t, quoting, sep)
  }

  /** A byte kept as it is. */
  lemma ReadPlain(w: string, done: string, s0: nat, t: nat, quoting: bool, sep: set<char>)
    requires Reading(w, done, s0, t, quoting, sep) && t < |w| && w[t] != QUOTE && (quoting || w[t] !in sep)
    ensures Reading(w, done + [w[t]], s0, t + 1, quoting, sep)
  {
  }

  /** A quote that opens or closes a quoted part. */
  lemma ReadToggle(w: string, done: string, s0: nat, t: nat, quoting: bool, sep: set<char>)
    requires Reading(w, done, s0, t, quoting, sep) && t < |w| && w[t] == QUOTE
    requires if quoting then t + 1 == |w| || w[t + 1] != QUOTE else QUOTE !in sep
    ensures Reading(w, done, s0, t + 1, !quoting, sep)
  {
  }

  /** Two quotes inside a quoted part stand for one. */
  lemma ReadPair(w: string, done: string, s0: nat, t: nat, sep: set<char>)
    requires Reading(w, done, s0, t, true, sep) && t + 1 < |w| && w[t] == QUOTE && w[t + 1] == QUOTE
    ensures Reading(w, done + [QUOTE], s0, t + 2, true, sep)
  {
  }

  lemma ReadEnd(w: string, done: string, s0: nat, t: nat, quoting: bool, sep: set<char>)
    requires Reading(w, done, s0, t, quoting, sep) && (t == |w| || (!quoting && w[t] in sep))
    ensures Text(w, s0, false, sep) == done && End(w, s0, false, sep) == t
  {
  }

  /** `a` holds the string `w` from `t` on, and its end. */
  ghost predicate Holds(a: seq<char>, w: string, t: nat) {
    && t <= |w| < |a| && a[|w|] == NUL
    && (forall j :: t <= j < |w| ==> a[j] == w[j] && w[j] != NUL)
  }

  /** Move to the end of the token at `s`. */
  method Etoken(buf: array<char>, s: nat, sep: set<char>, ghost w: string) returns (t: nat)
    requires Holds(buf[..], w, s)
    ensures t == End(w, s, false, sep)
  {
    var quoting := false;
    t := s;
    while buf[t] != NUL && (quoting || buf[t] !in sep)
      invariant s <= t <= |w| && End(w, s, false, sep) == End(w, t, quoting, sep)
      decreases |w| - t
    {
      if buf[t] != QUOTE {
        t := t + 1;
      } else if !quoting {
        quoting := true;
        t := t + 1;
      } else if buf[t + 1] != QUOTE {
        quoting := false;
        t := t + 1;
      } else {
        t := t + 2;
      }
    }
  }

  /** `done` is written from `s0` to `s`; what is below `s0` and from `t` on is untouched. */
  ghost predicate Moving(a: seq<char>, orig: seq<char>, done: string, s0: nat, s: nat, t: nat) {
    && s0 <= s <= t <= |orig| == |a| && a[s0..s] == done
    && (forall j :: s0 <= j < t ==> a[j] != NUL)
    && (forall j :: 0 <= j < s0 || t <= j < |a| ==> a[j] == orig[j])
  }

  /** Move the byte at `t` down to `s`. */
  method Move(buf: array<char>, ghost orig: seq<char>, ghost s0: nat, s: nat, t: nat)
    requires s0 <= s <= t < buf.Length && Moving(buf[..], orig, buf[s0..s], s0, s, t) && orig[t] != NUL
    modifies buf
    ensures Moving(buf[..], orig, old(buf[s0..s]) + [orig[t]], s0, s + 1, t + 1)
  {
    buf[s] := buf[t];
  }

  /** A quote opens or closes a quoted part, or is the first of two that stand for one. */
  method TakeQuote(buf: array<char>, ghost orig: seq<char>, ghost done: string, ghost s0: nat, s: nat, t: nat,
                   quoting: bool, ghost sep: set<char>, ghost w: string)
    returns (s': nat, t': nat, quoting': bool, ghost done': string)
    requires Holds(orig, w, s0) && s0 <= s <= t < |w| && w[t] == QUOTE && (quoting || QUOTE !in sep)
    requires Moving(buf[..], orig, done, s0, s, t) && Reading(w, done, s0, t, quoting, sep)
    modifies buf
    ensures t < t' <= |w| && Moving(buf[..], orig, done', s0, s', t') && Reading(w, done', s0, t', quoting', sep)
  {
    s', t', quoting', done' := s, t + 1, quoting, done;
    assert buf[t] == w[t] && buf[t'] == orig[t'];
    if !quoting {
      ReadToggle(w, done, s0, t, quoting, sep);
      quoting' := true;
    } else if buf[t'] != QUOTE {
      ReadToggle(w, done, s0, t, quoting, sep);
      quoting' := false;
    } else {
      ReadPair(w, done, s0, t, sep);
      done' := done + [QUOTE];
      Move(buf, orig, s0, s, t');
      s', t' := s + 1, t' + 1;
    }
  }

  /** The loop of `qtoken`: `s` writes what `t` reads. */
  method Unquote(buf: array<char>, s0: nat, sep: set<char>, ghost w: string) returns (s: nat, t: nat)
    requires Holds(buf[..], w, s0)
    modifies buf
    ensures s0 <= s <= t && t == End(w, s0, false, sep) && buf[s0..s] == Text(w, s0, false, sep)
    ensures forall j :: s0 <= j < t ==> buf[j] != NUL
    ensures forall j :: 0 <= j < s0 || t <= j < buf.Length ==> buf[j] == old(buf[j])
  {
    ghost var orig, done := buf[..], "";
    var quoting := false;
    s, t := s0, s0;
    while buf[t] != NUL && (quoting || buf[t] !in sep)
      invariant s0 <= s <= t <= |w| && Moving(buf[..], orig, done, s0, s, t)
      invariant Reading(w, done, s0, t, quoting, sep)
      decreases |w| - t
    {
      if buf[t] != QUOTE {
        ReadPlain(w, done, s0, t, quoting, sep);
        done := done + [buf[t]];
        Move(buf, orig, s0, s, t);
        s, t := s + 1, t + 1;
      } else {
        s, t, quoting, done := TakeQuote(buf, orig, done, s0, s, t, quoting, sep, w);
      }
    }
    ReadEnd(w, done, s0, t, quoting, sep);
  }

  /** Resolve the token at `s0` in place, end it, and step over the separator if that was overwritten. */
  method Qtoken(buf: array<char>, s0: nat, sep: set<char>, ghost w: string) returns (t: nat)
    requires Holds(buf[..], w, s0)
    modifies buf
    ensures StandsAt(buf[..], s0, Text(w, s0, false, sep))
    ensures var x, e := Text(w, s0, false, sep), End(w, s0, false, sep);
            t == if s0 + |x| == e < |w| then e + 1 else e
    ensures forall j :: 0 <= j < s0 || t <= j < buf.Length ==> buf[j] == old(buf[j])
  {
    var s;
    s, t := Unquote(buf, s0, sep, w);
    ghost var x := buf[s0..s];
    if buf[s] != NUL {
      buf[s] := NUL;
      if t == s {
        t := t + 1;
      }
    }
    assert buf[s0..s] == x;
  }

  /** The first `n` of the tokens of `w` stand where `args` says, all of them ended before `s`. */
  ghost predicate Placed(a: seq<char>, args: seq<nat>, n: nat, tokens: seq<string>, s: nat, w: string) {
    && n <= |args| && n <= |tokens|
    && (forall k :: 0 <= k < n ==> StandsAt(a, args[k], tokens[k]) && (args[k] + |tokens[k]| < s || s == |w|))
  }

  /** Skip separators. */
  method SkipTo(buf: array<char>, s0: nat, sep: set<char>, ghost w: string) returns (s: nat)
    requires Holds(buf[..], w, s0)
    ensures s == Gap(w, s0, sep)
  {
    s := s0;
    while buf[s] != NUL && buf[s] in sep
      invariant s0 <= s <= |w| && Gap(w, s0, sep) == Gap(w, s, sep)
      decreases |w| - s
    {
      s := s + 1;
    }
  }

  /** A string that ends below `g` still stands when nothing below `g` changes. */
  lemma StillStands(a: seq<char>, b: seq<char>, p: nat, x: string, g: nat)
    requires StandsAt(a, p, x) && p + |x| < g && |a| == |b| && g <= |a|
    requires forall j :: 0 <= j < g ==> b[j] == a[j]
    ensures StandsAt(b, p, x)
  {
    assert a[p..p + |x|] == b[p..p + |x|];
  }

  /** Another token is put behind those that stand. */
  lemma PlacedMore(a: seq<char>, b: seq<char>, args: seq<nat>, args': seq<nat>, n: nat, tokens: seq<string>,
                   s: nat, g: nat, x: string, next: nat, w: string)
    requires Placed(a, args, n, tokens, s, w) && n == |tokens| < |args| == |args'|
    requires |a| == |b| && s <= g < |w| < |a| && (forall j :: 0 <= j < g ==> b[j] == a[j])
    requires (forall k :: 0 <= k < n ==> args'[k] == args[k]) && args'[n] == g
    requires StandsAt(b, g, x) && (g + |x| < next || next == |w|) && g < next
    ensures Placed(b, args', n + 1, tokens + [x], next, w)
  {
    forall k | 0 <= k < n ensures StandsAt(b, args'[k], tokens[k]) && args'[k] + |tokens[k]| < next {
      StillStands(a, b, args[k], tokens[k], g);
    }
  }

  /** One token: its place is noted and it is resolved in place. */
  method TakeToken(buf: array<char>, args: array<nat>, nargs: nat, s: nat, sep: set<char>,
                   ghost s0: nat, ghost tokens: seq<string>, ghost w: string) returns (t: nat)
    requires nargs == |tokens| < args.Length && s0 <= s < |w| && w[s] !in sep && Holds(buf[..], w, s)
    requires Placed(buf[..], args[..], nargs, tokens, s0, w)
    modifies buf, args
    ensures Holds(buf[..], w, t)
    ensures var x, e := Text(w, s, false, sep), End(w, s, false, sep);
            && t == (if s + |x| == e < |w| then e + 1 else e)
            && Placed(buf[..], args[..], nargs + 1, tokens + [x], t, w)
  {
    ghost var a, p := buf[..], args[..];
    args[nargs] := s;
    t := Qtoken(buf, s, sep, w);
    EndMoves(w, s, sep);
    PlacedMore(a, buf[..], p, args[..], nargs, tokens, s0, s, Text(w, s, false, sep), t, w);
  }

  lemma EndMoves(w: string, s: nat, sep: set<char>)
    requires s < |w| && w[s] !in sep
    ensures s < End(w, s, false, sep)
  {
  }

  /** Of all tokens, `tokens` are taken and the rest is read from `i` on. */
  ghost predicate Left(all: seq<string>, tokens: seq<string>, w: string, i: nat, max: int, sep: set<char>) {
    i <= |w| && all == tokens + Tokens(w, i, max, sep)
  }

  lemma LeftNone(all: seq<string>, tokens: seq<string>, w: string, i: nat, max: int, sep: set<char>)
    requires Left(all, tokens, w, i, max, sep) && (max <= 0 || Gap(w, i, sep) == |w|)
    ensures all == tokens
  {
  }

  /** One token is taken and reading goes on where `qtoken` stopped. */
  lemma LeftTake(all: seq<string>, tokens: seq<string>, w: string, i: nat, next: nat, max: int, sep: set<char>)
    requires Left(all, tokens, w, i, max, sep) && max > 0 && Gap(w, i, sep) < |w|
    requires var g := Gap(w, i, sep);
             var e := End(w, g, false, sep);
             next == if g + |Text(w, g, false, sep)| == e < |w| then e + 1 else e
    ensures Left(all, tokens + [Text(w, Gap(w, i, sep), false, sep)], w, next, max - 1, sep)
  {
    var g := Gap(w, i, sep);
    var x, e := Text(w, g, false, sep), End(w, g, false, sep);
    assert all == tokens + [x] + Tokens(w, e, max - 1, sep);
    if next == e + 1 {
      TokensSkip(w, e, max - 1, sep);
    }
  }

  method FillTokens(buf: array<char>, args: array<nat>, maxargs: int, sep: set<char>, ghost all: seq<string>, ghost w: string)
    returns (nargs: nat)
    requires Holds(buf[..], w, 0) && maxargs <= args.Length && Left(all, [], w, 0, maxargs, sep)
    modifies buf, args
    ensures AllStand(buf[..], args[..], nargs, all)
  {
    nargs := 0;
    var s: nat := 0;
    ghost var tokens := [];
    while nargs < maxargs
      invariant nargs == |tokens| <= args.Length && Holds(buf[..], w, s)
      invariant Placed(buf[..], args[..], nargs, tokens, s, w)
      invariant Left(all, tokens, w, s, maxargs - nargs, sep)
    {
      ghost var s0 := s;
      s := SkipTo(buf, s, sep, w);
      if buf[s] == NUL {
        LeftNone(all, tokens, w, s0, maxargs - nargs, sep);
        return;
      }
      ghost var x := Text(w, s, false, sep);
      s := TakeToken(buf, args, nargs, s, sep, s0, tokens, w);
      LeftTake(all, tokens, w, s0, s, maxargs - nargs, sep);
      tokens := tokens + [x];
      nargs := nargs + 1;
    }
    LeftNone(all, tokens, w, s, maxargs - nargs, sep);
  }

  /** Split the string `w` that `buf` holds into at most `maxargs` tokens. */
  method Tokenize(buf: array<char>, args: array<nat>, maxargs: int, ghost w: string) returns (nargs: nat)
    requires Holds(buf[..], w, 0) && maxargs <= args.Length
    modifies buf, args
    ensures AllStand(buf[..], args[..], nargs, Tokens(w, 0, maxargs, BLANKS))
  {
    ghost var all := Tokens(w, 0, maxargs, BLANKS);
    assert [] + all == all;
    nargs := FillTokens(buf, args, maxargs, BLANKS, all, w);
  }

  /** Written tokens split in place are the strings that were written. */
  method SplitWritten(buf: array<char>, args: array<nat>, maxargs: int, c: char, ghost vs: seq<string>, ghost xs: seq<string>)
    returns (nargs: nat)
    requires c in BLANKS && AllWrite(vs, xs, BLANKS) && |vs| <= maxargs <= args.Length
    requires Holds(buf[..], JoinWith(c, vs), 0)
    modifies buf, args
    ensures AllStand(buf[..], args[..], nargs, xs)
  {
    RoundTrip(c, vs, xs, maxargs);
    nargs := Tokenize(buf, args, maxargs, JoinWith(c, vs));
  }

  // ----- fields: no quotes resolved, separators overwritten -----

  /** Overwrite separators. */
  method EraseTo(buf: array<char>, s0: nat, sep: set<char>, ghost w: string) returns (s: nat)
    requires Holds(buf[..], w, s0)
    modifies buf
    ensures s == Gap(w, s0, sep) && Holds(buf[..], w, s)
    ensures forall j :: 0 <= j < buf.Length && !(s0 <= j < s) ==> buf[j] == old(buf[j])
    ensures forall j :: s0 <= j < s ==> buf[j] == NUL
  {
    s := s0;
    while buf[s] != NUL && buf[s] in sep
      invariant s0 <= s <= |w| && Gap(w, s0, sep) == Gap(w, s, sep)
      invariant forall j :: 0 <= j < buf.Length && !(s0 <= j < s) ==> buf[j] == old(buf[j])
      invariant forall j :: s0 <= j < s ==> buf[j] == NUL
      decreases |w| - s
    {
      buf[s] := NUL;
      s := s + 1;
    }
  }

  /** Of all fields, `fields` stand ended and the rest is read from `i` on. */
  ghost predicate FieldsLeft(all: seq<string>, fields: seq<string>, w: string, i: nat, max: int, sep: set<char>) {
    i <= |w| && all == fields + Fields(w, i, max, sep)
  }

  /** The field that starts at `g` and reads up to `s` is still to be ended, if there is one. */
  ghost predicate Open(a: seq<char>, args: seq<nat>, n: nat, fields: seq<string>, s: nat,
                       all: seq<string>, max: int, sep: set<char>, w: string) {
    if n == 0 then
      fields == [] && s == 0 && Holds(a, w, 0) && FieldsLeft(all, [], w, 0, max, sep)
    else
      && n <= |args| && |fields| == n - 1
      && var g := args[n - 1];
      && g < |w| && w[g] !in sep && s == End(w, g, false, sep) && Holds(a, w, g)
      && Placed(a, args, n - 1, fields, g, w)
      && FieldsLeft(all, fields, w, g, max - n + 1, sep)
  }

  lemma FieldEnds(b: seq<char>, g: nat, s0: nat, s: nat, sep: set<char>, w: string)
    requires g < |w| < |b| && s0 == End(w, g, false, sep) && s == Gap(w, s0, sep) && b[|w|] == NUL
    requires forall j :: g <= j < s0 ==> b[j] == w[j]
    requires forall j :: s0 <= j < s ==> b[j] == NUL
    ensures StandsAt(b, g, w[g..s0])
  {
    assert b[g..s0] == w[g..s0];
  }

  lemma FieldTaken(all: seq<string>, fields: seq<string>, g: nat, max: int, sep: set<char>, w: string)
    requires g < |w| && w[g] !in sep && max > 1 && FieldsLeft(all, fields, w, g, max, sep)
    ensures var e := End(w, g, false, sep);
            g < e && FieldsLeft(all, fields + [w[g..e]], w, e, max - 1, sep)
  {
    EndMoves(w, g, sep);
  }

  lemma FieldEnded(a: seq<char>, b: seq<char>, args: seq<nat>, n: nat, fields: seq<string>, s0: nat, s: nat,
                   all: seq<string>, max: int, sep: set<char>, w: string)
    requires 0 < n < |args| && n < max && Open(a, args, n, fields, s0, all, max, sep, w)
    requires s == Gap(w, s0, sep) && |a| == |b|
    requires forall j :: 0 <= j < |b| && !(s0 <= j < s) ==> b[j] == a[j]
    requires forall j :: s0 <= j < s ==> b[j] == NUL
    ensures var g := args[n - 1];
            && g <= s0 <= |w| && Placed(b, args, n, fields + [w[g..s0]], s, w)
            && FieldsLeft(all, fields + [w[g..s0]], w, s0, max - n, sep)
  {
    var g := args[n - 1];
    FieldTaken(all, fields, g, max - n + 1, sep, w);
    FieldEnds(b, g, s0, s, sep, w);
    PlacedMore(a, b, args, args, n - 1, fields, g, g, w[g..s0], s, w);
  }

  /** Overwriting the separators after a field ends it. */
  method EndField(buf: array<char>, args: array<nat>, n: nat, ghost fields: seq<string>, s0: nat,
                  ghost all: seq<string>, ghost max: int, sep: set<char>, ghost w: string)
    returns (s: nat, ghost fields': seq<string>)
    requires Open(buf[..], args[..], n, fields, s0, all, max, sep, w) && n < max && n < args.Length
    modifies buf
    ensures |fields'| == n && s0 <= |w| && s == Gap(w, s0, sep) && Holds(buf[..], w, s)
    ensures Placed(buf[..], args[..], n, fields', s, w) && FieldsLeft(all, fields', w, s0, max - n, sep)
  {
    ghost var a := buf[..];
    s := EraseTo(buf, s0, sep, w);
    if n == 0 {
      fields' := [];
    } else {
      ghost var g := args[n - 1];
      fields' := fields + [w[g..s0]];
      FieldEnded(a, buf[..], args[..], n, fields, s0, s, all, max, sep, w);
    }
  }

  /** A new field is opened where the separators end. */
  lemma OpenNext(a: seq<char>, args: seq<nat>, args': seq<nat>, n: nat, fields: seq<string>, s0: nat, s: nat,
                 all: seq<string>, max: int, sep: set<char>, w: string)
    requires |fields| == n < |args| && s0 <= |w| && s == Gap(w, s0, sep) < |w| && Holds(a, w, s)
    requires Placed(a, args, n, fields, s, w) && FieldsLeft(all, fields, w, s0, max - n, sep)
    requires args' == args[n := s]
    ensures Open(a, args', n + 1, fields, End(w, s, false, sep), all, max, sep, w)
  {
    assert Gap(w, s, sep) == s;
    assert Fields(w, s0, max - n, sep) == Fields(w, s, max - n, sep);
  }

  method OpenField(buf: array<char>, args: array<nat>, n: nat, ghost fields: seq<string>, s: nat, ghost s0: nat,
                   ghost all: seq<string>, ghost max: int, sep: set<char>, ghost w: string) returns (t: nat)
    requires |fields| == n < args.Length && s0 <= |w| && s == Gap(w, s0, sep) < |w| && Holds(buf[..], w, s)
    requires Placed(buf[..], args[..], n, fields, s, w) && FieldsLeft(all, fields, w, s0, max - n, sep)
    modifies args
    ensures Open(buf[..], args[..], n + 1, fields, t, all, max, sep, w)
  {
    OpenNext(buf[..], args[..], args[..][n := s], n, fields, s0, s, all, max, sep, w);
    args[n] := s;
    t := Etoken(buf, s, sep, w);
  }

  lemma NoneLeft(all: seq<string>, fields: seq<string>, w: string, i: nat, max: int, sep: set<char>)
    requires FieldsLeft(all, fields, w, i, max, sep) && Gap(w, i, sep) == |w|
    ensures all == fields
  {
  }

  /** The last field allowed runs to the end of the string. */
  lemma LastField(a: seq<char>, args: seq<nat>, n: nat, fields: seq<string>, s: nat,
                  all: seq<string>, max: int, sep: set<char>, w: string)
    requires Open(a, args, n, fields, s, all, max, sep, w) && max <= n && (n == 0 || n == max)
    ensures AllStand(a, args, n, all)
  {
    if n > 0 {
      var g := args[n - 1];
      assert Gap(w, g, sep) == g;
      assert a[g..|w|] == w[g..];
      assert all == fields + [w[g..]];
    }
  }

  /** The next turn: end the open field and open another, if there is one. */
  method NextField(buf: array<char>, args: array<nat>, n: nat, ghost fields: seq<string>, s0: nat,
                   ghost all: seq<string>, ghost max: int, sep: set<char>, ghost w: string)
    returns (more: bool, s: nat, ghost fields': seq<string>)
    requires Open(buf[..], args[..], n, fields, s0, all, max, sep, w) && n < max <= args.Length
    modifies buf, args
    ensures if more then Open(buf[..], args[..], n + 1, fields', s, all, max, sep, w)
            else AllStand(buf[..], args[..], n, all)
  {
    s, fields' := EndField(buf, args, n, fields, s0, all, max, sep, w);
    more := buf[s] != NUL;
    if more {
      s := OpenField(buf, args, n, fields', s, s0, all, max, sep, w);
    } else {
      NoneLeft(all, fields', w, s0, max - n, sep);
    }
  }

  method FillFields(buf: array<char>, args: array<nat>, maxargs: int, sep: set<char>, ghost all: seq<string>, ghost w: string)
    returns (nargs: nat)
    requires maxargs <= args.Length && Open(buf[..], args[..], 0, [], 0, all, maxargs, sep, w)
    modifies buf, args
    ensures AllStand(buf[..], args[..], nargs, all)
  {
    nargs := 0;
    var s: nat := 0;
    ghost var fields := [];
    while nargs < maxargs
      invariant nargs <= args.Length && (nargs == 0 || nargs <= maxargs)
      invariant Open(buf[..], args[..], nargs, fields, s, all, maxargs, sep, w)
    {
      var more;
      more, s, fields := NextField(buf, args, nargs, fields, s, all, maxargs, sep, w);
      if !more {
        return;
      }
      nargs := nargs + 1;
    }
    LastField(buf[..], args[..], nargs, fields, s, all, maxargs, sep, w);
  }

  /** Split the string `w` that `buf` holds into at most `maxargs` fields. */
  method Gettokens(buf: array<char>, args: array<nat>, maxargs: int, sep: set<char>, ghost w: string) returns (nargs: nat)
    requires Holds(buf[..], w, 0) && maxargs <= args.Length
    modifies buf, args
    ensures AllStand(buf[..], args[..], nargs, Fields(w, 0, maxargs, sep))
  {
    ghost var all := Fields(w, 0, maxargs, sep);
    assert [] + all == all;
    nargs := FillFields(buf, args, maxargs, sep, all, w);
  }
}

/**
 * Lexical clean-up of a path name, rewritten in place (src/lib9/cleanname.c).
 *
 * The reference is a stack of path elements; `Resolve` is what a path means when it is
 * walked element by element from a working directory in a tree without links.
 */
module CleanName {

  const NUL: char := '\0'

  // ----- elements of a path -----

  /** The text between slashes, empty elements included. */
  function Split(t: string): (r: seq<string>)
    ensures |r| > 0
  {
    if t == "" then [""]
    else
      var rest := Split(t[1..]);
      if t[0] == '/' then [""] + rest else [[t[0]] + rest[0]] + rest[1..]
  }

  function Join(st: seq<string>): string {
    if |st| == 0 then ""
    else Glue(Join(st[..|st| - 1]), st[|st| - 1], |st| == 1)
  }

  function Glue(front: string, last: string, only: bool): string {
    if only then last else front + "/" + last
  }

  predicate IsRooted(s: string) {
    s != "" && s[0] == '/'
  }

  function Body(s: string): string {
    if IsRooted(s) then s[1..] else s
  }

  // ----- the normal form -----

  /** What one more element does to the stack of elements kept so far. */
  function Push(st: seq<string>, e: string, rooted: bool): seq<string> {
    if e == "" || e == "." then st
    else if e == ".." then
      if st != [] && st[|st| - 1] != ".." then st[..|st| - 1]
      else if rooted then st
      else st + [e]
    else st + [e]
  }

  function PushAll(st: seq<string>, es: seq<string>, rooted: bool): seq<string>
    decreases |es|
  {
    if es == [] then st else PushAll(Push(st, es[0], rooted), es[1..], rooted)
  }

  function Stack(s: string): seq<string> {
    PushAll([], Split(Body(s)), IsRooted(s))
  }

  function Clean(s: string): string {
    Spell(Stack(s), IsRooted(s))
  }

  function Spell(st: seq<string>, rooted: bool): string {
    if rooted then "/" + Join(st)
    else if st == [] then "."
    else Join(st)
  }

  /** An element that names something: not empty, not a dot or two, no slash. */
  predicate Named(e: string) {
    e != "" && e != "." && e != ".." && '/' !in e
  }

  /** `k` leading double dots, none at all when rooted, and named elements after them. */
  predicate Normal(st: seq<string>, k: nat, rooted: bool) {
    && k <= |st|
    && (rooted ==> k == 0)
    && (forall i :: 0 <= i < k ==> st[i] == "..")
    && (forall i :: k <= i < |st| ==> Named(st[i]))
  }


  /** The number of leading double dots after one more element. */
  function Up(st: seq<string>, k: nat, e: string, rooted: bool): nat {
    if e == ".." && k == |st| && !rooted then k + 1 else k
  }

  lemma PushNormal(st: seq<string>, k: nat, e: string, rooted: bool)
    requires Normal(st, k, rooted) && '/' !in e
    ensures Normal(Push(st, e, rooted), Up(st, k, e, rooted), rooted)
  {
    assert st != [] ==> (st[|st| - 1] == ".." <==> k == |st|);
  }

  lemma {:induction false} PushAllNormal(st: seq<string>, k: nat, es: seq<string>, rooted: bool) returns (k': nat)
    requires Normal(st, k, rooted)
    requires forall e :: e in es ==> '/' !in e
    ensures Normal(PushAll(st, es, rooted), k', rooted)
    decreases |es|
  {
    if es == [] {
      k' := k;
    } else {
      PushNormal(st, k, es[0], rooted);
      k' := PushAllNormal(Push(st, es[0], rooted), Up(st, k, es[0], rooted), es[1..], rooted);
    }
  }

  lemma {:induction false} SplitHasNoSlash(t: string)
    ensures forall e :: e in Split(t) ==> '/' !in e
  {
    if t != "" {
      SplitHasNoSlash(t[1..]);
      var rest := Split(t[1..]);
      assert '/' !in rest[0];
    }
  }

  /** Every path has a normal stack: no empty element or dot, `..` leading and only when unrooted. */
  lemma StackIsNormal(s: string) returns (k: nat)
    ensures Normal(Stack(s), k, IsRooted(s))
  {
    SplitHasNoSlash(Body(s));
    k := PushAllNormal([], 0, Split(Body(s)), IsRooted(s));
  }

  // ----- splitting what was joined -----

  /** An element that runs up to a slash or the end of the text is split off whole. */
  lemma {:induction false} SplitElement(t: string, k: nat)
    requires k <= |t| && '/' !in t[..k] && (k == |t| || t[k] == '/')
    ensures Split(t[k..])[0] == ""
    ensures Split(t) == [t[..k]] + Split(t[k..])[1..]
    decreases k
  {
    if k == 0 {
      assert t[0..] == t;
    } else {
      assert t[0] == t[..k][0] && t[1..][..k - 1] == t[1..k] && t[1..][k - 1..] == t[k..];
      assert t[..k] == [t[0]] + t[1..k];
      forall c | c in t[1..k] ensures c in t[..k] { }
      SplitElement(t[1..], k - 1);
    }
  }

  lemma {:induction false} SplitAppend(t: string, e: string)
    requires '/' !in e
    ensures Split(t + "/" + e) == Split(t) + [e]
    decreases |t|
  {
    var u := t + "/" + e;
    if t == "" {
      assert u[1..] == e;
      SplitElement(e, |e|);
      assert e[..|e|] == e && e[|e|..] == "";
    } else {
      assert u[1..] == t[1..] + "/" + e && u[0] == t[0];
      SplitAppend(t[1..], e);
    }
  }

  lemma {:induction false} SplitJoin(st: seq<string>)
    requires st != [] && forall i :: 0 <= i < |st| ==> '/' !in st[i]
    ensures Split(Join(st)) == st
    decreases |st|
  {
    var pre, e := st[..|st| - 1], st[|st| - 1];
    assert st == pre + [e];
    if pre == [] {
      assert e[..|e|] == e && e[|e|..] == "";
      SplitElement(e, |e|);
    } else {
      SplitJoin(pre);
      SplitAppend(Join(pre), e);
    }
  }

  lemma {:induction false} JoinStarts(st: seq<string>)
    requires forall i :: 0 <= i < |st| ==> st[i] != "" && '/' !in st[i]
    ensures st == [] <==> Join(st) == ""
    ensures st != [] ==> Join(st)[0] != '/'
    decreases |st|
  {
    if |st| > 1 {
      JoinStarts(st[..|st| - 1]);
    }
  }

  // ----- the normal form is reached once and for all -----

  /** Pushing the elements of a normal stack one after another rebuilds it. */
  lemma {:induction false} NormalStands(st: seq<string>, k: nat, i: nat, rooted: bool)
    requires Normal(st, k, rooted) && i <= |st|
    ensures PushAll(st[..i], st[i..], rooted) == st
    decreases |st| - i
  {
    if i < |st| {
      assert i > 0 ==> (st[..i][i - 1] == ".." <==> i <= k);
      assert Push(st[..i], st[i], rooted) == st[..i] + [st[i]] == st[..i + 1];
      assert st[i..][1..] == st[i + 1..];
      NormalStands(st, k, i + 1, rooted);
    } else {
      assert st[..i] == st;
    }
  }

  lemma SpellStack(st: seq<string>, k: nat, rooted: bool)
    requires Normal(st, k, rooted)
    ensures IsRooted(Spell(st, rooted)) == rooted
    ensures Stack(Spell(st, rooted)) == st
  {
    var s := Spell(st, rooted);
    JoinStarts(st);
    if st == [] {
      assert rooted ==> s == "/" && s[1..] == "";
      SplitElement(".", 1);
    } else {
      assert rooted ==> s[1..] == Join(st);
      SplitJoin(st);
      NormalStands(st, k, 0, rooted);
      assert st[..0] == [] && st[0..] == st;
    }
  }

  /** Cleaning a clean name changes nothing. */
  lemma CleanIsIdempotent(s: string)
    ensures Clean(Clean(s)) == Clean(s)
  {
    var k := StackIsNormal(s);
    SpellStack(Stack(s), k, IsRooted(s));
  }

  // ----- meaning -----

  /** One step of a walk: `..` at the root stays at the root. */
  function Walk(dir: seq<string>, e: string): seq<string> {
    if e == "" || e == "." then dir
    else if e == ".." then if dir == [] then [] else dir[..|dir| - 1]
    else dir + [e]
  }

  function WalkAll(dir: seq<string>, es: seq<string>): seq<string>
    decreases |es|
  {
    if es == [] then dir else WalkAll(Walk(dir, es[0]), es[1..])
  }

  /** The directory a path leads to from the working directory `cwd`. */
  function Resolve(cwd: seq<string>, s: string): seq<string> {
    WalkAll(if IsRooted(s) then [] else cwd, Split(Body(s)))
  }

  lemma {:induction false} WalkSnoc(dir: seq<string>, es: seq<string>, e: string)
    ensures WalkAll(dir, es + [e]) == Walk(WalkAll(dir, es), e)
    decreases |es|
  {
    if es != [] {
      assert (es + [e])[1..] == es[1..] + [e];
      WalkSnoc(Walk(dir, es[0]), es[1..], e);
    }
  }

  lemma PushWalks(dir: seq<string>, st: seq<string>, k: nat, e: string, rooted: bool)
    requires Normal(st, k, rooted) && (rooted ==> dir == [])
    ensures WalkAll(dir, Push(st, e, rooted)) == Walk(WalkAll(dir, st), e)
  {
    WalkSnoc(dir, st, e);
    if st != [] {
      var pre, top := st[..|st| - 1], st[|st| - 1];
      assert st == pre + [top];
      WalkSnoc(dir, pre, top);
      assert top == ".." <==> k == |st|;
      assert k < |st| ==> Walk(WalkAll(dir, pre), top)[..|WalkAll(dir, pre)|] == WalkAll(dir, pre);
    }
  }

  lemma {:induction false} PushAllWalks(dir: seq<string>, st: seq<string>, k: nat, es: seq<string>, rooted: bool)
    requires Normal(st, k, rooted) && (rooted ==> dir == [])
    requires forall e :: e in es ==> '/' !in e
    ensures WalkAll(dir, PushAll(st, es, rooted)) == WalkAll(WalkAll(dir, st), es)
    decreases |es|
  {
    if es != [] {
      PushWalks(dir, st, k, es[0], rooted);
      PushNormal(st, k, es[0], rooted);
      PushAllWalks(dir, Push(st, es[0], rooted), Up(st, k, es[0], rooted), es[1..], rooted);
    }
  }

  /** A path walks as its stack does. */
  lemma ResolveStack(cwd: seq<string>, s: string)
    ensures Resolve(cwd, s) == WalkAll(if IsRooted(s) then [] else cwd, Stack(s))
  {
    SplitHasNoSlash(Body(s));
    PushAllWalks(if IsRooted(s) then [] else cwd, [], 0, Split(Body(s)), IsRooted(s));
  }

  /** The clean name leads where the name did, from every working directory. */
  lemma CleanResolves(cwd: seq<string>, s: string)
    ensures Resolve(cwd, Clean(s)) == Resolve(cwd, s)
    ensures IsRooted(Clean(s)) == IsRooted(s)
  {
    var k := StackIsNormal(s);
    SpellStack(Stack(s), k, IsRooted(s));
    ResolveStack(cwd, s);
    ResolveStack(cwd, Clean(s));
  }

  /** A normal stack climbs `k` levels, as far as there are any, and goes down its named elements. */
  lemma {:induction false} WalkNormal(dir: seq<string>, st: seq<string>, k: nat, rooted: bool)
    requires Normal(st, k, rooted)
    ensures WalkAll(dir, st) == dir[..if k <= |dir| then |dir| - k else 0] + st[k..]
    decreases |st|
  {
    if st != [] {
      var pre, top := st[..|st| - 1], st[|st| - 1];
      assert st == pre + [top];
      WalkSnoc(dir, pre, top);
      if k < |st| {
        WalkNormal(dir, pre, k, rooted);
        assert pre[k..] + [top] == st[k..];
      } else {
        WalkNormal(dir, pre, k - 1, rooted);
        assert pre[k - 1..] == [] && st[k..] == [];
      }
    }
  }

  ghost predicate SameMeaning(s: string, t: string) {
    IsRooted(s) == IsRooted(t) && forall cwd :: Resolve(cwd, s) == Resolve(cwd, t)
  }

  /** Two normal stacks that walk alike from the root and from one deep directory are equal. */
  lemma NormalIsUnique(st: seq<string>, k: nat, su: seq<string>, m: nat, rooted: bool, dir: seq<string>)
    requires Normal(st, k, rooted) && Normal(su, m, rooted)
    requires WalkAll([], st) == WalkAll([], su)
    requires rooted || (|dir| == k + m && WalkAll(dir, st) == WalkAll(dir, su))
    ensures st == su
  {
    FromRoot(st, k, rooted);
    FromRoot(su, m, rooted);
    if !rooted {
      WalkNormal(dir, st, k, rooted);
      WalkNormal(dir, su, m, rooted);
      SameClimb(dir, k, m, st[k..]);
    }
    SameParts(st, su, k, rooted);
  }

  lemma FromRoot(st: seq<string>, k: nat, rooted: bool)
    requires Normal(st, k, rooted)
    ensures WalkAll([], st) == st[k..]
  {
    WalkNormal([], st, k, rooted);
  }

  lemma SameClimb(dir: seq<string>, k: nat, m: nat, rest: seq<string>)
    requires k <= |dir| && m <= |dir|
    requires dir[..|dir| - k] + rest == dir[..|dir| - m] + rest
    ensures k == m
  {
    assert |dir[..|dir| - k] + rest| == |dir[..|dir| - m] + rest|;
  }

  lemma SameParts(st: seq<string>, su: seq<string>, k: nat, rooted: bool)
    requires Normal(st, k, rooted) && Normal(su, k, rooted) && st[k..] == su[k..]
    ensures st == su
  {
    assert st == st[..k] + st[k..] && su == su[..k] + su[k..];
    assert st[..k] == su[..k];
  }

  /** Two names have the same clean name exactly when they mean the same. */
  lemma CleanIsCanonical(s: string, t: string)
    ensures Clean(s) == Clean(t) <==> SameMeaning(s, t)
  {
    var k := StackIsNormal(s);
    var m := StackIsNormal(t);
    if Clean(s) == Clean(t) {
      forall cwd ensures Resolve(cwd, s) == Resolve(cwd, t) {
        CleanResolves(cwd, s);
        CleanResolves(cwd, t);
      }
      CleanResolves([], s);
      CleanResolves([], t);
    }
    if SameMeaning(s, t) {
      var dir := seq(k + m, _ => "d");
      forall cwd ensures Resolve(cwd, s) == WalkAll(if IsRooted(s) then [] else cwd, Stack(s)) { ResolveStack(cwd, s); }
      forall cwd ensures Resolve(cwd, t) == WalkAll(if IsRooted(t) then [] else cwd, Stack(t)) { ResolveStack(cwd, t); }
      assert Resolve([], s) == Resolve([], t);
      assert Resolve(dir, s) == Resolve(dir, t);
      NormalIsUnique(Stack(s), k, Stack(t), m, IsRooted(s), dir);
    }
  }

  // ----- the rewriting in place -----

  /** An element runs up to a slash or the end of the text; nothing below `p` matters to it. */
  lemma ElementPushed(s: string, st: seq<string>, rooted: bool, p: nat, k: nat)
    requires p + k <= |s| && '/' !in s[p..p + k] && (p + k == |s| || s[p + k] == '/')
    ensures PushAll(st, Split(s[p..]), rooted) == PushAll(Push(st, s[p..p + k], rooted), Split(s[p + k..]), rooted)
  {
    var t := s[p..];
    assert t[..k] == s[p..p + k] && t[k..] == s[p + k..];
    SplitElement(t, k);
    var rest := Split(s[p + k..]);
    assert rest == [""] + rest[1..];
    assert ([t[..k]] + rest[1..])[1..] == rest[1..];
  }

  /** From `p` to `end` is one turn of the loop: a slash, or an element up to a slash or the end. */
  ghost predicate Turn(s: string, p: nat, end: nat) {
    && p < end <= |s|
    && if s[p] == '/' then end == p + 1 else '/' !in s[p..end] && (end == |s| || s[end] == '/')
  }

  /** What the turn adds: nothing for a slash. */
  ghost function Taken(s: string, p: nat, end: nat): string
    requires Turn(s, p, end)
  {
    if s[p] == '/' then "" else s[p..end]
  }

  lemma TurnPushed(s: string, st: seq<string>, rooted: bool, p: nat, end: nat)
    requires Turn(s, p, end) && Remains(s, p, st, rooted)
    ensures Remains(s, end, Push(st, Taken(s, p, end), rooted), rooted)
  {
    if s[p] == '/' {
      assert s[p..][1..] == s[end..];
      assert ([""] + Split(s[end..]))[1..] == Split(s[end..]);
    } else {
      ElementPushed(s, st, rooted, p, end - p);
    }
  }

  predicate DotAt(s: string, p: nat)
    requires p < |s|
  {
    s[p] == '.' && (p + 1 == |s| || s[p + 1] == '/')
  }

  predicate DotDotAt(s: string, p: nat)
    requires p < |s|
  {
    s[p] == '.' && p + 1 < |s| && s[p + 1] == '.' && (p + 2 == |s| || s[p + 2] == '/')
  }

  lemma DotTurn(s: string, p: nat)
    requires p < |s|
    ensures DotAt(s, p) ==> Turn(s, p, p + 1) && Taken(s, p, p + 1) == "."
    ensures DotDotAt(s, p) ==> Turn(s, p, p + 2) && Taken(s, p, p + 2) == ".."
  {
  }

  lemma NamePushed(s: string, st: seq<string>, k: nat, rooted: bool, p: nat, end: nat, dotdot: nat)
    requires Turn(s, p, end) && s[p] != '/' && !DotAt(s, p) && !DotDotAt(s, p)
    requires Floor(dotdot, st, k, rooted)
    ensures Push(st, s[p..end], rooted) == st + [s[p..end]]
    ensures Floor(dotdot, st + [s[p..end]], k, rooted)
  {
    var e := s[p..end];
    assert e[0] == s[p];
    assert e == "." ==> end == p + 1;
    assert end == p + 2 ==> e[1] == s[p + 1];
    PushNormal(st, k, e, rooted);
    assert (st + [e])[..k] == st[..k];
  }

  /** Longer stacks are spelled longer. */
  lemma {:induction false} JoinGrows(st: seq<string>, i: nat)
    requires i <= |st| && forall j :: 0 <= j < |st| ==> st[j] != ""
    ensures i < |st| ==> |Join(st[..i])| < |Join(st)|
    decreases |st|
  {
    if i < |st| {
      var pre := st[..|st| - 1];
      assert pre[..i] == st[..i];
      JoinGrows(pre, i);
      assert i == |pre| ==> st[..i] == pre;
    }
  }

  /** Text that is spelled by a stack, followed by one more element, with a slash between. */
  lemma JoinSnoc(st: seq<string>, e: string)
    ensures Join(st + [e]) == if st == [] then e else Join(st) + "/" + e
  {
    assert (st + [e])[..|st|] == st;
  }

  /** Where the cursors stand before each element: the stack is written below `q`, the rest is untouched. */
  ghost predicate Placed(a: seq<char>, orig: seq<char>, n: nat, p: nat, q: nat, st: seq<string>, rooted: bool)
    requires n < |orig|
  {
    var r := if rooted then 1 else 0;
    && |a| == |orig|
    && r <= q <= p <= n
    && (forall j :: p <= j < |a| ==> a[j] == orig[j])
    && (rooted ==> a[0] == '/')
    && a[r..q] == Join(st)
    && (p < n && orig[p] != '/' ==> q < p || q == r)
  }

  /** `dotdot` is where the leading double dots end. */
  ghost predicate Floor(dotdot: nat, st: seq<string>, k: nat, rooted: bool) {
    Normal(st, k, rooted) && dotdot == (if rooted then 1 else 0) + |Join(st[..k])|
  }

  /** The stack that is still to be reached from `p`. */
  ghost predicate Remains(s: string, p: nat, st: seq<string>, rooted: bool)
    requires p <= |s|
  {
    PushAll(st, Split(s[p..]), rooted) == Stack(s)
  }

  /** Step back over the last element: to the slash before it or to where `..` cannot climb further. */
  method Backtrack(name: array<char>, q0: nat, dotdot: nat, ghost st: seq<string>, ghost k: nat, ghost rooted: bool)
    returns (q: nat)
    requires Normal(st, k, rooted) && k < |st|
    requires var r: nat := if rooted then 1 else 0;
             r <= q0 < name.Length && name[r..q0] == Join(st) && dotdot == r + |Join(st[..k])|
    ensures var r: nat := if rooted then 1 else 0;
            q == r + |Join(st[..|st| - 1])| && dotdot <= q < q0 && name[r..q] == Join(st[..|st| - 1])
  {
    ghost var r: nat := if rooted then 1 else 0;
    ghost var pre, e := st[..|st| - 1], st[|st| - 1];
    ghost var low := r + |Join(pre)|;
    assert st == pre + [e] && Named(e) && pre[..k] == st[..k];
    BacktrackBounds(pre, k);
    LastElement(pre, e);
    ghost var t := Join(st);
    assert forall j :: r <= j < q0 ==> name[j] == t[j - r];
    q := q0 - 1;
    while q > dotdot && name[q] != '/'
      invariant dotdot <= low <= q < q0
    {
      q := q - 1;
    }
    assert name[r..q] == t[..q - r];
  }

  /** The last element is what follows the last slash. */
  lemma LastElement(pre: seq<string>, e: string)
    requires '/' !in e && e != ""
    ensures var t := Join(pre + [e]);
            && |Join(pre)| < |t| && t[..|Join(pre)|] == Join(pre)
            && (forall i :: |Join(pre)| < i < |t| ==> t[i] != '/')
            && (pre != [] ==> t[|Join(pre)|] == '/')
  {
    JoinSnoc(pre, e);
    var t, m := Join(pre + [e]), |Join(pre)|;
    var skip := if pre == [] then 0 else m + 1;
    forall i | m < i < |t| ensures t[i] != '/' {
      assert t[i] == e[i - skip];
    }
  }

  lemma BacktrackBounds(pre: seq<string>, k: nat)
    requires k <= |pre| && forall j :: 0 <= j < |pre| ==> pre[j] != ""
    ensures |Join(pre[..k])| <= |Join(pre)|
    ensures k < |pre| ==> |Join(pre[..k])| < |Join(pre)|
  {
    JoinGrows(pre, k);
    assert pre[..|pre|] == pre;
  }

  /** Copy an element down to `q0`, up to and including the byte that ends it. */
  method CopyElement(name: array<char>, p0: nat, q0: nat, ghost n: nat) returns (p: nat, q: nat)
    requires q0 <= p0 <= n < name.Length && name[n] == NUL
    modifies name
    ensures p0 <= p <= n && q - q0 == p - p0
    ensures old(name[p]) == '/' || old(name[p]) == NUL
    ensures forall j :: p0 <= j < p ==> old(name[j]) != '/' && old(name[j]) != NUL
    ensures name[q0..q] == old(name[..])[p0..p]
    ensures forall j :: 0 <= j < q0 || p <= j < name.Length ==> name[j] == old(name[j])
  {
    ghost var orig := name[..];
    p, q := p0, q0;
    name[q] := name[p];
    while name[q] != '/' && name[q] != NUL
      invariant p0 <= p <= n && q - q0 == p - p0
      invariant forall j :: p0 <= j < p ==> orig[j] != '/' && orig[j] != NUL
      invariant name[q] == orig[p]
      invariant name[q0..q] == orig[p0..p]
      invariant forall j :: 0 <= j < q0 || p <= j < name.Length ==> name[j] == orig[j]
      decreases n - p
    {
      p, q := p + 1, q + 1;
      name[q] := name[p];
    }
  }

  /** A slash, unless nothing has been written. */
  method PutSlash(name: array<char>, ghost orig: seq<char>, ghost n: nat, p: nat, q0: nat, rooted: bool, ghost st: seq<string>)
    returns (q: nat)
    requires n < |orig| && p < n && orig[p] != '/' && (q0 == (if rooted then 1 else 0) <==> st == [])
    requires Placed(name[..], orig, n, p, q0, st, rooted)
    modifies name
    ensures (if rooted then 1 else 0) <= q <= p && (rooted ==> name[0] == '/')
    ensures name[if rooted then 1 else 0..q] == if st == [] then "" else Join(st) + "/"
    ensures forall j :: p <= j < name.Length ==> name[j] == orig[j]
  {
    q := q0;
    if q != if rooted then 1 else 0 {
      name[q] := '/';
      q := q + 1;
    }
  }

  /** Write two dots behind a slash, unless they come first. */
  method PutDots(name: array<char>, ghost orig: seq<char>, ghost n: nat, p: nat, q0: nat, ghost st: seq<string>)
    returns (q: nat)
    requires n < |orig| && p + 2 <= n && orig[p] != '/' && (p + 2 < n ==> orig[p + 2] == '/')
    requires Placed(name[..], orig, n, p, q0, st, false) && (q0 == 0 <==> st == [])
    modifies name
    ensures Placed(name[..], orig, n, p + 2, q, st + [".."], false)
    ensures q == |Join(st + [".."])|
  {
    q := PutSlash(name, orig, n, p, q0, false, st);
    ghost var front := name[..q];
    name[q], name[q + 1] := '.', '.';
    q := q + 2;
    JoinSnoc(st, "..");
    assert name[0..q] == front + "..";
  }

  /** The element `..`: climb if there is something to climb over, else keep it unless rooted. */
  method DotDot(name: array<char>, ghost orig: seq<char>, ghost n: nat, p: nat, q0: nat, dotdot0: nat, rooted: bool,
                ghost st: seq<string>, ghost k: nat)
    returns (q: nat, dotdot: nat)
    requires n < |orig| && p + 2 <= n && orig[p] != '/' && (p + 2 < n ==> orig[p + 2] == '/')
    requires Placed(name[..], orig, n, p, q0, st, rooted) && Floor(dotdot0, st, k, rooted)
    modifies name
    ensures Placed(name[..], orig, n, p + 2, q, Push(st, "..", rooted), rooted)
    ensures Floor(dotdot, Push(st, "..", rooted), Up(st, k, "..", rooted), rooted)
  {
    q, dotdot := q0, dotdot0;
    ClimbOrKeep(st, k, dotdot, rooted);
    StackWritten(st, k, rooted);
    if q > dotdot {
      q := Backtrack(name, q, dotdot, st, k, rooted);
      Dropped(name[..], orig, n, p, q0, q, st, Push(st, "..", rooted), rooted);
    } else if !rooted {
      q := PutDots(name, orig, n, p, q, st);
      dotdot := q;
    } else {
      Dropped(name[..], orig, n, p, q0, q, st, st, rooted);
    }
  }

  /** What `..` does to a stack with `k` leading double dots. */
  lemma ClimbOrKeep(st: seq<string>, k: nat, dotdot: nat, rooted: bool)
    requires Floor(dotdot, st, k, rooted)
    ensures var st', k' := Push(st, "..", rooted), Up(st, k, "..", rooted);
            && (dotdot < (if rooted then 1 else 0) + |Join(st)| <==> k < |st|)
            && (k < |st| ==> st' == st[..|st| - 1] && Floor(dotdot, st', k', rooted))
            && (k == |st| && rooted ==> st' == st && Floor(dotdot, st', k', rooted))
            && (k == |st| && !rooted ==> st' == st + [".."] && Floor(|Join(st')|, st', k', rooted))
  {
    BacktrackBounds(st, k);
    FloorReached(st, k, rooted);
    PushNormal(st, k, "..", rooted);
    if k == |st| && !rooted {
      assert (st + [".."])[..k + 1] == st + [".."];
    }
  }

  /** Two characters are passed over, and the stack is no longer than it was. */
  lemma Dropped(a: seq<char>, orig: seq<char>, n: nat, p: nat, q0: nat, q: nat, st: seq<string>, st': seq<string>, rooted: bool)
    requires n < |orig| && p + 2 <= n && (p + 2 < n ==> orig[p + 2] == '/') && Placed(a, orig, n, p, q0, st, rooted)
    requires var r: nat := if rooted then 1 else 0; r <= q <= q0 && a[r..q] == Join(st')
    ensures Placed(a, orig, n, p + 2, q, st', rooted)
  {
  }

  lemma FloorReached(st: seq<string>, k: nat, rooted: bool)
    requires Normal(st, k, rooted)
    ensures k == |st| ==> st[..k] == st && (st != [] ==> st[|st| - 1] == "..")
    ensures k < |st| ==> st[|st| - 1] != ".." && st[..|st| - 1][..k] == st[..k]
  {
  }

  /** A named element: copied down behind a slash. */
  method Element(name: array<char>, ghost orig: seq<char>, ghost n: nat, p0: nat, q0: nat, rooted: bool,
                 ghost st: seq<string>)
    returns (p: nat, q: nat)
    requires n < |orig| && p0 < n && orig[n] == NUL && orig[p0] != '/' && (forall j :: 0 <= j < n ==> orig[j] != NUL)
    requires Placed(name[..], orig, n, p0, q0, st, rooted)
    requires q0 == (if rooted then 1 else 0) <==> st == []
    modifies name
    ensures p0 < p <= n && '/' !in orig[..n][p0..p] && (p == n || orig[p] == '/')
    ensures Placed(name[..], orig, n, p, q, st + [orig[..n][p0..p]], rooted)
  {
    var start := PutSlash(name, orig, n, p0, q0, rooted, st);
    ghost var was := name[..];
    assert forall j :: p0 <= j < |orig| ==> was[j] == orig[j];
    p, q := CopyElement(name, p0, start, n);
    assert p < n ==> was[p] == '/';
    ElementIn(was, orig, n, p0, p);
    Moved(name[..], was, orig, n, p, start, q, st, orig[..n][p0..p], rooted);
  }

  lemma Moved(a: seq<char>, was: seq<char>, orig: seq<char>, n: nat, p: nat, start: nat, q: nat, st: seq<string>, e: string, rooted: bool)
    requires (if rooted then 1 else 0) <= start <= q <= p <= n < |orig| == |was| == |a|
    requires rooted ==> was[0] == '/'
    requires was[if rooted then 1 else 0..start] == if st == [] then "" else Join(st) + "/"
    requires forall j :: p <= j < |orig| ==> was[j] == orig[j]
    requires forall j :: 0 <= j < start || p <= j < |orig| ==> a[j] == was[j]
    requires a[start..q] == e && (p == n || orig[p] == '/')
    ensures Placed(a, orig, n, p, q, st + [e], rooted)
  {
    var r := if rooted then 1 else 0;
    assert a[r..start] == was[r..start];
    Appended(a, r, start, q, st, e);
  }

  lemma ElementIn(was: seq<char>, orig: seq<char>, n: nat, p0: nat, p: nat)
    requires p0 <= p <= n < |orig| == |was| && forall j :: p0 <= j < |orig| ==> was[j] == orig[j]
    requires forall j :: p0 <= j < p ==> was[j] != '/'
    ensures was[p0..p] == orig[..n][p0..p] && '/' !in orig[..n][p0..p]
  {
  }

  lemma Appended(a: seq<char>, r: nat, start: nat, q: nat, st: seq<string>, e: string)
    requires r <= start <= q <= |a|
    requires a[r..start] == (if st == [] then "" else Join(st) + "/") && a[start..q] == e
    ensures a[r..q] == Join(st + [e])
  {
    JoinSnoc(st, e);
    assert a[r..q] == a[r..start] + a[start..q];
  }

  /** End the string; an empty one becomes a dot. */
  method Finish(name: array<char>, ghost orig: seq<char>, ghost n: nat, q0: nat, rooted: bool, ghost st: seq<string>)
    requires 2 <= name.Length && n < |orig| && (q0 == (if rooted then 1 else 0) <==> st == [])
    requires Placed(name[..], orig, n, n, q0, st, rooted)
    modifies name
    ensures var c := Spell(st, rooted);
            && |c| < name.Length && name[..|c|] == c && name[|c|] == NUL
            && |c| <= (if n == 0 then 1 else n)
    ensures forall j :: n < j < name.Length && 1 < j ==> name[j] == orig[j]
  {
    var q := q0;
    ghost var r: nat := if rooted then 1 else 0;
    assert name[..q] == name[..r] + name[r..q];
    if q == 0 {
      name[q] := '.';
      q := q + 1;
    }
    name[q] := NUL;
  }

  lemma StackWritten(st: seq<string>, k: nat, rooted: bool)
    requires Normal(st, k, rooted)
    ensures Join(st) == "" <==> st == []
  {
    JoinStarts(st);
  }

  /** The loop's turn at a named element. */
  method StepName(name: array<char>, ghost orig: seq<char>, ghost n: nat, p0: nat, q0: nat, rooted: bool,
                  ghost dotdot: nat, ghost st: seq<string>, ghost k: nat)
    returns (p: nat, q: nat, ghost st': seq<string>)
    requires n < |orig| && p0 < n && orig[n] == NUL && forall j :: 0 <= j < n ==> orig[j] != NUL
    requires orig[p0] != '/' && !DotAt(orig[..n], p0) && !DotDotAt(orig[..n], p0)
    requires Placed(name[..], orig, n, p0, q0, st, rooted) && Floor(dotdot, st, k, rooted)
    modifies name
    ensures Turn(orig[..n], p0, p) && st' == Push(st, Taken(orig[..n], p0, p), rooted)
    ensures Placed(name[..], orig, n, p, q, st', rooted) && Floor(dotdot, st', k, rooted)
  {
    StackWritten(st, k, rooted);
    p, q := Element(name, orig, n, p0, q0, rooted, st);
    NamePushed(orig[..n], st, k, rooted, p0, p, dotdot);
    st' := st + [orig[..n][p0..p]];
  }

  lemma Skipped(a: seq<char>, orig: seq<char>, n: nat, p: nat, q: nat, st: seq<string>, rooted: bool)
    requires n < |orig| && p < n && Placed(a, orig, n, p, q, st, rooted)
    requires orig[p] == '/' || p + 1 == n || orig[p + 1] == '/'
    ensures Placed(a, orig, n, p + 1, q, st, rooted)
  {
  }

  /** What the loop tests in the buffer are the element's own characters. */
  lemma Tested(a: seq<char>, orig: seq<char>, n: nat, p: nat, q: nat, st: seq<string>, rooted: bool)
    requires n < |orig| && p < n && orig[n] == NUL && (forall j :: 0 <= j < n ==> orig[j] != NUL)
    requires Placed(a, orig, n, p, q, st, rooted)
    ensures a[p] == orig[p] && (a[p] != NUL ==> p + 1 < |a|)
    ensures DotAt(orig[..n], p) <==> a[p] == '.' && (a[p + 1] == '/' || a[p + 1] == NUL)
    ensures a[p] == '.' && a[p + 1] == '.' ==> p + 2 <= n
    ensures DotDotAt(orig[..n], p) <==> a[p] == '.' && a[p + 1] == '.' && (a[p + 2] == '/' || a[p + 2] == NUL)
  {
  }

  /** One turn of the loop. */
  method Step(name: array<char>, ghost orig: seq<char>, ghost n: nat, p0: nat, q0: nat, dotdot0: nat, rooted: bool,
              ghost st0: seq<string>, ghost k0: nat)
    returns (p: nat, q: nat, dotdot: nat, ghost st: seq<string>, ghost k: nat)
    requires n < |orig| && p0 < n && orig[n] == NUL && forall j :: 0 <= j < n ==> orig[j] != NUL
    requires Placed(name[..], orig, n, p0, q0, st0, rooted) && Floor(dotdot0, st0, k0, rooted)
    modifies name
    ensures Turn(orig[..n], p0, p) && st == Push(st0, Taken(orig[..n], p0, p), rooted)
    ensures Placed(name[..], orig, n, p, q, st, rooted) && Floor(dotdot, st, k, rooted)
  {
    p, q, dotdot, st, k := p0, q0, dotdot0, st0, k0;
    Tested(name[..], orig, n, p, q, st, rooted);
    DotTurn(orig[..n], p);
    if name[p] == '/' {
      Skipped(name[..], orig, n, p, q, st, rooted);
      p := p + 1;
    } else if name[p] == '.' && (name[p + 1] == '/' || name[p + 1] == NUL) {
      Skipped(name[..], orig, n, p, q, st, rooted);
      p := p + 1;
    } else if name[p] == '.' && name[p + 1] == '.' && (name[p + 2] == '/' || name[p + 2] == NUL) {
      q, dotdot := DotDot(name, orig, n, p, q, dotdot, rooted, st, k);
      st, k := Push(st, "..", rooted), Up(st, k, "..", rooted);
      p := p + 2;
    } else {
      p, q, st := StepName(name, orig, n, p, q, rooted, dotdot, st, k);
    }
  }

  lemma Reached(s: string, st: seq<string>, rooted: bool)
    requires Remains(s, |s|, st, rooted)
    ensures st == Stack(s)
  {
    assert s[|s|..] == "" && Split("") == [""];
    assert PushAll(st, [""], rooted) == PushAll(st, [], rooted);
  }

  /** `name` holds a string that ends at `n`; afterwards it holds the clean name. */
  method Cleanname(name: array<char>, ghost n: nat)
    requires 2 <= name.Length && n < name.Length && name[n] == NUL && NUL !in name[..n]
    modifies name
    ensures var c := Clean(old(name[..n]));
            && |c| < name.Length && name[..|c|] == c && name[|c|] == NUL
            && |c| <= (if n == 0 then 1 else n)
    ensures forall j :: n < j < name.Length && 1 < j ==> name[j] == old(name[j])
  {
    ghost var orig := name[..];
    ghost var s := orig[..n];
    var rooted := name[0] == '/';
    var r: nat := if rooted then 1 else 0;
    var p: nat, q: nat, dotdot: nat := r, r, r;
    ghost var st: seq<string>, k: nat := [], 0;
    assert s[r..] == Body(s);
    while name[p] != NUL
      invariant p <= n
      invariant Placed(name[..], orig, n, p, q, st, rooted) && Floor(dotdot, st, k, rooted)
      invariant Remains(s, p, st, rooted)
      decreases n - p
    {
      ghost var was, kept := p, st;
      p, q, dotdot, st, k := Step(name, orig, n, p, q, dotdot, rooted, st, k);
      TurnPushed(s, kept, rooted, was, p);
    }
    StackWritten(st, k, rooted);
    Reached(s, st, rooted);
    Finish(name, orig, n, q, rooted, st);
  }
}

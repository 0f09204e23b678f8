/** The precedence-climbing parser of doc/talks/io2010/eval1.go, over tokens.

Operands and operators alternate.  The reference is a tree: higher precedence binds
tighter and equal precedence associates to the left.  There is exactly one such tree for a
token sequence, and the parser computes its value.
*/
module EvalParser {

  type Token = string
  type PrecTab = map<Token, int>

  datatype Tree = Leaf(tok: Token) | Node(l: Tree, op: Token, r: Tree)

  function Prec(tab: PrecTab, tok: Token): int {
    if tok in tab then tab[tok] else 0
  }

  /** Operators have positive precedence, and the end of the input is not one. */
  predicate GoodTab(tab: PrecTab) {
    "" !in tab && forall op :: op in tab ==> tab[op] >= 1
  }

  function Flatten(t: Tree): (s: seq<Token>)
    ensures |s| % 2 == 1
  {
    match t
    case Leaf(tok) => [tok]
    case Node(l, op, r) => Flatten(l) + [op] + Flatten(r)
  }

  /** The operator at the root, if any, binds at least as tightly as `p`. */
  predicate AtLeast(tab: PrecTab, t: Tree, p: int) {
    t.Leaf? || Prec(tab, t.op) >= p
  }

  /** Tighter operators are further down; equal ones lean to the left. */
  predicate Proper(tab: PrecTab, t: Tree) {
    t.Node? ==>
      var p := Prec(tab, t.op);
      && p >= 1
      && AtLeast(tab, t.l, p) && AtLeast(tab, t.r, p + 1)
      && Proper(tab, t.l) && Proper(tab, t.r)
  }

  function Ops(t: Tree): set<Token> {
    match t
    case Leaf(_) => {}
    case Node(l, op, r) => Ops(l) + {op} + Ops(r)
  }

  /** The same by the numbers of the table: each operator below and to the left of another has at
      least its number, each below and to the right a greater one. */
  ghost predicate Binds(tab: PrecTab, t: Tree) {
    t.Node? ==>
      && t.op in tab
      && (forall o :: o in Ops(t.l) ==> o in tab && tab[o] >= tab[t.op])
      && (forall o :: o in Ops(t.r) ==> o in tab && tab[o] > tab[t.op])
      && Binds(tab, t.l) && Binds(tab, t.r)
  }

  lemma {:induction false} OpsOfProper(tab: PrecTab, t: Tree, p: int)
    requires GoodTab(tab) && Proper(tab, t) && AtLeast(tab, t, p)
    ensures forall o :: o in Ops(t) ==> o in tab && tab[o] >= p
  {
    if t.Node? {
      OpsOfProper(tab, t.l, p);
      OpsOfProper(tab, t.r, p);
    }
  }

  lemma RootIsOp(t: Tree)
    requires t.Node?
    ensures t.op in Ops(t)
  {
  }

  lemma {:induction false} ProperIff(tab: PrecTab, t: Tree)
    requires GoodTab(tab)
    ensures Proper(tab, t) <==> Binds(tab, t)
  {
    if t.Node? {
      ProperIff(tab, t.l);
      ProperIff(tab, t.r);
      if Proper(tab, t) {
        OpsOfProper(tab, t.l, tab[t.op]);
        OpsOfProper(tab, t.r, tab[t.op] + 1);
      }
      if t.l.Node? {
        RootIsOp(t.l);
      }
      if t.r.Node? {
        RootIsOp(t.r);
      }
    }
  }

  function ValueOf<V>(newVal: Token -> V, binaryOp: (V, Token, V) -> V, t: Tree): V {
    match t
    case Leaf(tok) => newVal(tok)
    case Node(l, op, r) => binaryOp(ValueOf(newVal, binaryOp, l), op, ValueOf(newVal, binaryOp, r))
  }

  // ---------------------------------------------------------------- the tree is unique

  /** Every operator of a proper tree binds at least as tightly as its root. */
  lemma {:induction false} OpsAtLeast(tab: PrecTab, t: Tree, p: int, k: nat)
    requires Proper(tab, t) && AtLeast(tab, t, p) && k < |Flatten(t)| && k % 2 == 1
    ensures Prec(tab, Flatten(t)[k]) >= p
  {
    if t.Node? {
      var n := |Flatten(t.l)|;
      if k < n {
        OpsAtLeast(tab, t.l, p, k);
      } else if k > n {
        var j := Beyond(k, n);
        OpsAtLeast(tab, t.r, p, j);
        assert Flatten(t)[k] == Flatten(t.r)[j];
      }
    }
  }

  /** Operators left of the root bind at least as tightly, operators right of it tighter. */
  lemma OpBesideRoot(tab: PrecTab, t: Tree, k: nat)
    requires Proper(tab, t) && t.Node? && k < |Flatten(t)| && k % 2 == 1
    ensures var n := |Flatten(t.l)|;
            && Flatten(t)[n] == t.op
            && (k < n ==> Prec(tab, Flatten(t)[k]) >= Prec(tab, t.op))
            && (k > n ==> Prec(tab, Flatten(t)[k]) > Prec(tab, t.op))
  {
    var n := |Flatten(t.l)|;
    FlattenAt(t, n);
    if k < n {
      OpLeftOfRoot(tab, t, k);
    } else if k > n {
      OpRightOfRoot(tab, t, k);
    }
  }

  lemma OpLeftOfRoot(tab: PrecTab, t: Tree, k: nat)
    requires Proper(tab, t) && t.Node? && k < |Flatten(t.l)| && k % 2 == 1
    ensures k < |Flatten(t)| && Prec(tab, Flatten(t)[k]) >= Prec(tab, t.op)
  {
    FlattenAt(t, k);
    OpsAtLeast(tab, t.l, Prec(tab, t.op), k);
  }

  lemma OpRightOfRoot(tab: PrecTab, t: Tree, k: nat)
    requires Proper(tab, t) && t.Node? && |Flatten(t.l)| < k < |Flatten(t)| && k % 2 == 1
    ensures Prec(tab, Flatten(t)[k]) > Prec(tab, t.op)
  {
    FlattenAt(t, k);
    var j := Beyond(k, |Flatten(t.l)|);
    OpsAtLeast(tab, t.r, Prec(tab, t.op) + 1, j);
  }

  lemma Beyond(k: nat, n: nat) returns (j: nat)
    requires n < k && k % 2 == 1 && n % 2 == 1
    ensures j == k - n - 1 && j % 2 == 1
  {
    j := k - n - 1;
  }

  lemma FlattenAt(t: Tree, k: nat)
    requires t.Node? && k < |Flatten(t)|
    ensures var n := |Flatten(t.l)|;
            && |Flatten(t)| == n + 1 + |Flatten(t.r)|
            && Flatten(t)[k] == if k < n then Flatten(t.l)[k] else if k == n then t.op else Flatten(t.r)[k - n - 1]
  {
  }

  /** Of two roots over the same tokens neither can be left of the other. */
  lemma RootsAgree(tab: PrecTab, s: Tree, t: Tree)
    requires Proper(tab, s) && Proper(tab, t) && s.Node? && t.Node? && Flatten(s) == Flatten(t)
    ensures |Flatten(s.l)| >= |Flatten(t.l)|
  {
    OpBesideRoot(tab, s, |Flatten(t.l)|);
    OpBesideRoot(tab, t, |Flatten(s.l)|);
  }

  lemma {:induction false} ProperTreeIsUnique(tab: PrecTab, s: Tree, t: Tree)
    requires Proper(tab, s) && Proper(tab, t) && Flatten(s) == Flatten(t)
    ensures s == t
  {
    if s.Leaf? || t.Leaf? {
      assert |Flatten(s)| == |Flatten(t)|;
    } else {
      RootsAgree(tab, s, t);
      RootsAgree(tab, t, s);
      var n := |Flatten(s.l)|;
      assert Flatten(s)[..n] == Flatten(s.l) && Flatten(t)[..n] == Flatten(t.l);
      assert Flatten(s)[n] == s.op && Flatten(t)[n] == t.op;
      assert Flatten(s)[n + 1..] == Flatten(s.r) && Flatten(t)[n + 1..] == Flatten(t.r);
      ProperTreeIsUnique(tab, s.l, t.l);
      ProperTreeIsUnique(tab, s.r, t.r);
    }
  }

  // ---------------------------------------------------------------- the parser

  /** The token at `i`; past the end there are only empty ones. */
  function TokenAt(toks: seq<Token>, i: nat): Token {
    if i < |toks| then toks[i] else ""
  }

  function Tokens(toks: seq<Token>, from: nat, n: nat): (s: seq<Token>)
    ensures |s| == n && forall k :: 0 <= k < n ==> s[k] == TokenAt(toks, from + k)
  {
    seq(n, k requires 0 <= k => TokenAt(toks, from + k))
  }

  class Parser<V> {
    const precTab: PrecTab
    const newVal: Token -> V
    const binaryOp: (V, Token, V) -> V
    const toks: seq<Token>
    var pos: nat
    var tok: Token

    constructor (tab: PrecTab, f: Token -> V, op: (V, Token, V) -> V, src: seq<Token>)
      ensures precTab == tab && newVal == f && binaryOp == op && toks == src
      ensures pos == 0 && tok == TokenAt(src, 0)
    {
      precTab, newVal, binaryOp, toks, pos := tab, f, op, src, 0;
      tok := TokenAt(src, 0);
    }

    /** `t` is a proper tree over the tokens from `start` up to `end`. */
    ghost predicate Parsed(t: Tree, start: nat, end: nat) {
      Proper(precTab, t) && Flatten(t) == Tokens(toks, start, |Flatten(t)|) && end == start + |Flatten(t)|
    }

    lemma Extended(t: Tree, op: Token, u: Tree, start: nat, mid: nat, end: nat)
      requires Parsed(t, start, mid) && op == TokenAt(toks, mid) && Parsed(u, mid + 1, end)
      requires Prec(precTab, op) >= 1
      requires AtLeast(precTab, t, Prec(precTab, op)) && AtLeast(precTab, u, Prec(precTab, op) + 1)
      ensures Parsed(Node(t, op, u), start, end)
    {
      var n := |Flatten(Node(t, op, u))|;
      assert Flatten(Node(t, op, u)) == Tokens(toks, start, n);
    }

    ghost predicate Valid()
      reads this
    {
      GoodTab(precTab) && tok == TokenAt(toks, pos)
    }

    method Next()
      requires GoodTab(precTab)
      modifies this
      ensures Valid() && pos == old(pos) + 1
    {
      pos := pos + 1;
      tok := TokenAt(toks, pos);
    }

    /** Parses operands joined by operators of at least `prec1`, up to the first operator
        below that. */
    method BinaryExpr(prec1: int) returns (x: V, ghost t: Tree)
      requires Valid() && prec1 >= 1
      modifies this
      ensures Valid()
      ensures Parsed(t, old(pos), pos) && AtLeast(precTab, t, prec1)
      ensures Prec(precTab, tok) < prec1
      ensures x == ValueOf(newVal, binaryOp, t)
      decreases if pos <= |toks| then |toks| - pos + 1 else 0, 2
    {
      ghost var start := pos;
      x, t := newVal(tok), Leaf(tok);
      Next();
      var prec := Prec(precTab, tok);
      while prec >= prec1
        invariant Valid() && Prec(precTab, tok) <= prec
        invariant Parsed(t, start, pos) && AtLeast(precTab, t, prec + 1) && (t.Leaf? || prec >= prec1 - 1)
        invariant x == ValueOf(newVal, binaryOp, t)
        decreases prec
      {
        x, t := Level(prec, x, t, start);
        prec := prec - 1;
      }
    }

    /** The operators of one level, taken from the left. */
    method Level(prec: int, x0: V, ghost t0: Tree, ghost start: nat) returns (x: V, ghost t: Tree)
      requires Valid() && prec >= 1 && Prec(precTab, tok) <= prec
      requires Parsed(t0, start, pos) && AtLeast(precTab, t0, prec + 1) && x0 == ValueOf(newVal, binaryOp, t0)
      modifies this
      ensures Valid() && Prec(precTab, tok) <= prec - 1
      ensures Parsed(t, start, pos) && AtLeast(precTab, t, prec) && x == ValueOf(newVal, binaryOp, t)
      decreases if pos <= |toks| then |toks| - pos + 1 else 0, 1
    {
      x, t := x0, t0;
      while Prec(precTab, tok) == prec
        invariant Valid() && Prec(precTab, tok) <= prec
        invariant Parsed(t, start, pos) && AtLeast(precTab, t, prec)
        invariant x == ValueOf(newVal, binaryOp, t)
        invariant pos >= old(pos)
        decreases if pos <= |toks| then |toks| - pos + 1 else 0
      {
        ghost var mid := pos;
        var op, y;
        ghost var u;
        op, y, u := Operand(prec);
        Extended(t, op, u, start, mid, pos);
        x, t := binaryOp(x, op, y), Node(t, op, u);
      }
    }

    /** An operator of the level and what it applies to on its right. */
    method Operand(prec: int) returns (op: Token, y: V, ghost u: Tree)
      requires Valid() && prec >= 1 && Prec(precTab, tok) == prec
      modifies this
      ensures Valid() && op == TokenAt(toks, old(pos)) && Prec(precTab, op) == prec && Prec(precTab, tok) <= prec
      ensures Parsed(u, old(pos) + 1, pos) && AtLeast(precTab, u, prec + 1) && y == ValueOf(newVal, binaryOp, u)
      ensures old(pos) < |toks| && pos > old(pos)
      decreases if pos <= |toks| then |toks| - pos + 1 else 0, 0
    {
      op := tok;
      Next();
      y, u := BinaryExpr(prec + 1);
    }
  }

  /** Operands at even places and operators at odd ones, from operand to operand. */
  predicate Alternates(tab: PrecTab, toks: seq<Token>) {
    |toks| % 2 == 1 && forall k :: 0 <= k < |toks| && k % 2 == 1 ==> toks[k] in tab
  }

  /** `t` is a proper tree, by the numbers of the table, over the tokens up to the first that is no operator where one could be. */
  ghost predicate Covers(tab: PrecTab, toks: seq<Token>, t: Tree) {
    && Binds(tab, t) && Flatten(t) == Tokens(toks, 0, |Flatten(t)|) && TokenAt(toks, |Flatten(t)|) !in tab
    && (Alternates(tab, toks) ==> Flatten(t) == toks)
  }

  /** The value of a proper tree over the longest stretch of tokens that has one; for an
      alternating input that is all of it, and there is no other such tree. */
  method Eval<V>(tab: PrecTab, newVal: Token -> V, binaryOp: (V, Token, V) -> V, toks: seq<Token>) returns (x: V)
    requires GoodTab(tab)
    ensures exists t: Tree :: Covers(tab, toks, t) && x == ValueOf(newVal, binaryOp, t)
    ensures Alternates(tab, toks) ==>
              forall s: Tree :: Binds(tab, s) && Flatten(s) == toks ==> x == ValueOf(newVal, binaryOp, s)
  {
    var p := new Parser(tab, newVal, binaryOp, toks);
    ghost var t;
    x, t := p.BinaryExpr(1);
    if Alternates(tab, toks) {
      WholeInput(tab, toks, t, p.tok);
      forall s: Tree | Binds(tab, s) && Flatten(s) == toks ensures x == ValueOf(newVal, binaryOp, s) {
        ProperIff(tab, s);
        ProperTreeIsUnique(tab, s, t);
      }
    }
    ProperIff(tab, t);
    assert Covers(tab, toks, t);
  }

  /** Three operands: the second operator gets the middle one if its number is greater. */
  method Three<V>(tab: PrecTab, newVal: Token -> V, binaryOp: (V, Token, V) -> V,
                  a: Token, o: Token, b: Token, q: Token, c: Token)
    returns (x: V)
    requires GoodTab(tab) && o in tab && q in tab
    ensures x == if tab[q] > tab[o] then binaryOp(newVal(a), o, binaryOp(newVal(b), q, newVal(c)))
                 else binaryOp(binaryOp(newVal(a), o, newVal(b)), q, newVal(c))
  {
    var toks := [a, o, b, q, c];
    assert Alternates(tab, toks);
    ghost var t := Grouped(tab, newVal, binaryOp, a, o, b, q, c);
    x := Eval(tab, newVal, binaryOp, toks);
    assert Binds(tab, t) && x == ValueOf(newVal, binaryOp, t);
  }

  lemma Grouped<V>(tab: PrecTab, newVal: Token -> V, binaryOp: (V, Token, V) -> V,
                   a: Token, o: Token, b: Token, q: Token, c: Token)
    returns (t: Tree)
    requires o in tab && q in tab
    ensures Binds(tab, t) && Flatten(t) == [a, o, b, q, c]
    ensures ValueOf(newVal, binaryOp, t)
            == if tab[q] > tab[o] then binaryOp(newVal(a), o, binaryOp(newVal(b), q, newVal(c)))
               else binaryOp(binaryOp(newVal(a), o, newVal(b)), q, newVal(c))
  {
    if tab[q] > tab[o] {
      Pair(tab, newVal, binaryOp, b, q, c);
      t := Node(Leaf(a), o, Node(Leaf(b), q, Leaf(c)));
    } else {
      Pair(tab, newVal, binaryOp, a, o, b);
      t := Node(Node(Leaf(a), o, Leaf(b)), q, Leaf(c));
    }
  }

  lemma Pair<V>(tab: PrecTab, newVal: Token -> V, binaryOp: (V, Token, V) -> V, a: Token, o: Token, b: Token)
    requires o in tab
    ensures var t := Node(Leaf(a), o, Leaf(b));
            && Flatten(t) == [a, o, b] && Ops(t) == {o} && Binds(tab, t)
            && ValueOf(newVal, binaryOp, t) == binaryOp(newVal(a), o, newVal(b))
  {
  }

  const TALK: PrecTab := map["&&" := 1, "||" := 2, "==" := 3, "!=" := 3, "<" := 3, "<=" := 3, ">" := 3, ">=" := 3,
                             "+" := 4, "-" := 4, "*" := 5, "/" := 5, "%" := 5]

  /** With the talk's table products are taken before sums. */
  method SumWithProduct<V>(newVal: Token -> V, binaryOp: (V, Token, V) -> V, a: Token, b: Token, c: Token)
    returns (x: V)
    ensures x == binaryOp(newVal(a), "+", binaryOp(newVal(b), "*", newVal(c)))
  {
    x := Three(TALK, newVal, binaryOp, a, "+", b, "*", c);
  }

  /** Stopping before a token that is no operator, the parse has used an alternating input up. */
  lemma WholeInput(tab: PrecTab, toks: seq<Token>, t: Tree, next: Token)
    requires GoodTab(tab) && Alternates(tab, toks) && Proper(tab, t)
    requires Flatten(t) == Tokens(toks, 0, |Flatten(t)|) && next == TokenAt(toks, |Flatten(t)|)
    requires Prec(tab, next) < 1
    ensures Flatten(t) == toks
  {
    var n := |Flatten(t)|;
    assert n >= |toks|;
    if n > |toks| {
      assert Flatten(t)[n - 2] == TokenAt(toks, n - 2);
      OpsAtLeast(tab, t, if t.Node? then Prec(tab, t.op) else 1, n - 2);
    }
  }
}

/** Which branches if-conversion takes (src/cmd/5c/peep.c, `predicate`), by the shape of the code.

A branch is converted exactly when it skips forward over a short chain of instructions that nothing
else leads into and of which none but the last touches the flags, or over such a chain with a jump
or an exit at its end.  In the second case the code behind is taken as the other arm if both come
together again.
*/
module IfShapes {

  import opened Predication
  import opened Common

  /** Nodes from `start` up to `stop` that are walked through, the last of which may set the flags:
      fewer than four instructions, or four if the last one sets the flags. */
  ghost predicate Chain(g: Graph, start: nat, stop: nat)
    requires Sized(g)
  {
    && start < stop <= |g.code| && Walked(g, start, stop - 1) && Passed(g, stop - 1)
    && (ModifiesCpsr(g.code[stop - 1]) || Weight(g.code, start, stop) < 4)
  }

  /** A branch over a chain. */
  ghost predicate If(g: Graph, r: nat, e: nat)
    requires Sized(g)
  {
    r + 1 < e < |g.code| && IsBranch(g.code[r].op) && g.code[r].target == e && Chain(g, r + 1, e)
  }

  /** A branch over nodes that end, at `l`, with a jump or an exit. */
  ghost predicate Skip(g: Graph, r: nat, l: nat)
    requires Sized(g)
  {
    && r + 1 <= l && l + 1 < |g.code| && IsBranch(g.code[r].op) && g.code[r].target == l + 1
    && Walked(g, r + 1, l) && NotJoin(g, l) && !g.s1[l]
  }

  /** The jump goes to where the chain behind it ends. */
  ghost predicate IfElse(g: Graph, r: nat, l: nat, e: nat)
    requires Sized(g)
  {
    Skip(g, r, l) && l + 1 < e < |g.code| && g.s2[l] == Some(e) && Chain(g, l + 1, e)
  }

  lemma {:induction false} SurveyGoesOn(g: Graph, start: nat, k: nat, stop: nat)
    requires Covers(g) && start <= k <= stop < |g.code| && Walked(g, start, stop)
    ensures Survey(g, start, k) == Survey(g, start, stop)
    decreases stop - k
  {
    if k < stop {
      WeightGrows(g.code, start, k + 1, stop);
      assert Passed(g, k) && !ModifiesCpsr(g.code[k]);
      SurveyGoesOn(g, start, k + 1, stop);
    }
  }

  /** A chain is surveyed up to its end, where a branch and the chain itself come together. */
  lemma ChainIsSurveyed(g: Graph, start: nat, e: nat)
    requires Covers(g) && e < |g.code| && Chain(g, start, e) && !NotJoin(g, e)
    ensures var j := Survey(g, start, start); (j.t == Join || j.t == Setcond) && j.last == e - 1 && j.end == e
  {
    SurveyGoesOn(g, start, start, e - 1);
    if !ModifiesCpsr(g.code[e - 1]) {
      assert Survey(g, start, e - 1) == Survey(g, start, e);
    }
  }

  lemma MeetsAt(g: Graph, k: nat, e: nat)
    requires Covers(g) && k < |g.code| && e < |g.code| && g.s2[k] == Some(e) && e > 0 && g.s1[e - 1]
    ensures !NotJoin(g, e) && Survey(g, e, e) == JoinInfo(Join, e, e, 0)
  {
  }

  lemma IfIsConverted(g: Graph, r: nat, e: nat)
    requires Covers(g) && If(g, r, e)
    ensures Decide(g, r) == Rejoin
  {
    MeetsAt(g, r, e);
    ChainIsSurveyed(g, r + 1, e);
  }

  lemma SkipIsSurveyed(g: Graph, r: nat, l: nat)
    requires Covers(g) && Skip(g, r, l)
    ensures var j := Survey(g, r + 1, r + 1);
            && j.last == l && j.t == (if g.s2[l].Some? then Branch else End)
            && (g.s2[l].Some? ==> j.end == g.s2[l].value)
  {
    SurveyGoesOn(g, r + 1, r + 1, l);
  }

  lemma SkipIsConverted(g: Graph, r: nat, l: nat)
    requires Covers(g) && Skip(g, r, l)
    ensures Decide(g, r) != Keep
  {
    SkipIsSurveyed(g, r, l);
  }

  lemma IfElseIsConverted(g: Graph, r: nat, l: nat, e: nat)
    requires Covers(g) && IfElse(g, r, l, e)
    ensures Decide(g, r) == Rejoin
  {
    SkipIsSurveyed(g, r, l);
    MeetsAt(g, l, e);
    ChainIsSurveyed(g, l + 1, e);
  }

  /** A branch is converted if and only if it skips a chain, or nodes that end with a jump or an exit. */
  lemma ConvertedIff(g: Graph, r: nat)
    requires Covers(g) && r + 1 < |g.code| && IsBranch(g.code[r].op)
    ensures Decide(g, r) != Keep <==>
              var t := g.code[r].target; If(g, r, t) || (t > 0 && Skip(g, r, t - 1))
  {
    var t := g.code[r].target;
    if Decide(g, r) != Keep {
      ConvertedHasShape(g, r);
    } else if If(g, r, t) {
      IfIsConverted(g, r, t);
    } else if t > 0 && Skip(g, r, t - 1) {
      SkipIsConverted(g, r, t - 1);
    }
  }

  /** Up to where a survey has walked. */
  lemma {:induction false} SurveyWalks(g: Graph, start: nat, k: nat)
    requires Covers(g) && start <= k < |g.code| && Walked(g, start, k)
    ensures var i := Survey(g, start, k);
            match i.t
            case Join =>
              && k <= i.end < |g.code| && Walked(g, start, i.end)
              && i.last == (if i.end == start then start else i.end - 1)
            case Setcond =>
              && k <= i.last < |g.code| && Walked(g, start, i.last) && Passed(g, i.last) && ModifiesCpsr(g.code[i.last])
              && i.end == i.last + 1
            case Branch => k <= i.last < |g.code| && Walked(g, start, i.last) && NotJoin(g, i.last) && !g.s1[i.last]
            case End => k <= i.last < |g.code| && Walked(g, start, i.last) && NotJoin(g, i.last) && !g.s1[i.last]
            case _ => true
    decreases |g.code| - k
  {
    if GoesOn(g, start, k) {
      SurveyWalks(g, start, k + 1);
    }
  }

  lemma ConvertedHasShape(g: Graph, r: nat)
    requires Covers(g) && r + 1 < |g.code| && IsBranch(g.code[r].op) && Decide(g, r) != Keep
    ensures var t := g.code[r].target; If(g, r, t) || (t > 0 && Skip(g, r, t - 1))
  {
    var t := g.code[r].target;
    var j1, j2 := Survey(g, r + 1, r + 1), Survey(g, t, t);
    SurveyWalks(g, r + 1, r + 1);
    SurveyWalks(g, t, t);
    if j1.t == Join {
      assert j1.end == t;
      WeightGrows(g.code, r + 1, t - 1, t);
      assert Walked(g, r + 1, t - 1) && Passed(g, t - 1);
    }
  }
}

/** The load balancer of doc/talks/io2010/balance.go as a system of steps.

Requesters, workers and the balancer run concurrently.  The channel `work` and every
reply channel are unbuffered, so a send and its receive are one step; `done` and the
workers' request channels are buffered.  `WorkerPool` has the heap that chooses a worker.
*/
module Balancer {

  datatype Requester = Idle | Waiting

  /** A worker is free, has a request in hand, or has replied and not yet reported. */
  datatype Phase = Free | Working(r: nat) | Reporting

  datatype Worker = Worker(queue: seq<nat>, phase: Phase, pending: int)

  /** The balancer waits in its select, has popped `w` to give it the request of `r`, or has sent
      that and not yet counted it. */
  datatype Control = Selecting | Dispatching(r: nat, w: nat) | Charging(w: nat)

  datatype State = State(
    requesters: seq<Requester>,
    workers: seq<Worker>,
    done: seq<nat>,
    control: Control,
    sent: seq<nat>,
    replied: seq<nat>)

  datatype Step =
    | Submit(r: nat, w: nat)  // a requester's send meets the balancer's select; heap.Pop yields w
    | Enqueue                 // dispatch sends to the popped worker
    | Charge                  // and only then counts the request and pushes the worker back
    | Take(w: nat)            // a worker receives its next request
    | Reply(w: nat)           // a worker's reply meets its requester's receive
    | Report(w: nat)          // a worker sends itself on done
    | Complete                // the balancer receives from done and counts down

  predicate Least(s: State, w: nat) {
    w < |s.workers| && forall v :: 0 <= v < |s.workers| ==> s.workers[w].pending <= s.workers[v].pending
  }

  predicate Shaped(s: State) {
    && |s.workers| > 0
    && |s.sent| == |s.requesters| && |s.replied| == |s.requesters|
    && (s.control.Dispatching? ==> s.control.r < |s.requesters|)
    && (!s.control.Selecting? ==> s.control.w < |s.workers|)
    && (forall i :: 0 <= i < |s.done| ==> s.done[i] < |s.workers|)
  }

  /** Whether a step can happen now.  Request channels hold as many requests as there are
      requesters, and done as many workers as there are workers. */
  predicate Enabled(s: State, step: Step)
    requires Shaped(s)
  {
    match step
    case Submit(r, w) => s.control.Selecting? && r < |s.requesters| && s.requesters[r].Idle? && Least(s, w)
    case Enqueue => s.control.Dispatching? && |s.workers[s.control.w].queue| < |s.requesters|
    case Charge => s.control.Charging?
    case Take(w) => w < |s.workers| && s.workers[w].phase.Free? && s.workers[w].queue != []
    case Reply(w) =>
      && w < |s.workers| && s.workers[w].phase.Working?
      && s.workers[w].phase.r < |s.requesters| && s.requesters[s.workers[w].phase.r].Waiting?
    case Report(w) => w < |s.workers| && s.workers[w].phase.Reporting? && |s.done| < |s.workers|
    case Complete => s.control.Selecting? && s.done != []
  }

  function Apply(s: State, step: Step): (s': State)
    requires Shaped(s) && Enabled(s, step)
    ensures Shaped(s') && |s'.workers| == |s.workers| && |s'.requesters| == |s.requesters|
  {
    match step
    case Submit(r, w) =>
      s.(requesters := s.requesters[r := Waiting], control := Dispatching(r, w), sent := s.sent[r := s.sent[r] + 1])
    case Enqueue =>
      var w := s.workers[s.control.w];
      s.(workers := s.workers[s.control.w := w.(queue := w.queue + [s.control.r])], control := Charging(s.control.w))
    case Charge =>
      var w := s.workers[s.control.w];
      s.(workers := s.workers[s.control.w := w.(pending := w.pending + 1)], control := Selecting)
    case Take(w) =>
      var v := s.workers[w];
      s.(workers := s.workers[w := v.(queue := v.queue[1..], phase := Working(v.queue[0]))])
    case Reply(w) =>
      var r := s.workers[w].phase.r;
      s.(workers := s.workers[w := s.workers[w].(phase := Reporting)],
         requesters := s.requesters[r := Idle], replied := s.replied[r := s.replied[r] + 1])
    case Report(w) =>
      s.(workers := s.workers[w := s.workers[w].(phase := Free)], done := s.done + [w])
    case Complete =>
      var w := s.done[0];
      s.(workers := s.workers[w := s.workers[w].(pending := s.workers[w].pending - 1)], done := s.done[1..])
  }

  function Initial(requesters: nat, workers: nat): (s: State)
    requires workers > 0
    ensures Shaped(s)
  {
    State(seq(requesters, _ => Idle), seq(workers, _ => Worker([], Free, 0)), [], Selecting,
          seq(requesters, _ => 0), seq(requesters, _ => 0))
  }

  /** `steps` can happen one after the other from `s`. */
  ghost predicate IsRun(s: State, steps: seq<Step>)
    requires Shaped(s)
    decreases |steps|
  {
    steps != [] ==> Enabled(s, steps[0]) && IsRun(Apply(s, steps[0]), steps[1..])
  }

  ghost function After(s: State, steps: seq<Step>): (s': State)
    requires Shaped(s) && IsRun(s, steps)
    ensures Shaped(s') && |s'.workers| == |s.workers| && |s'.requesters| == |s.requesters|
    decreases |steps|
  {
    if steps == [] then s else After(Apply(s, steps[0]), steps[1..])
  }

  // ---------------------------------------------------------------- the invariant

  function Busy(p: Phase): nat {
    if p.Free? then 0 else 1
  }

  function Count(q: seq<nat>, r: nat): nat {
    multiset(q)[r]
  }

  /** How often the request of `r` is in a worker's queue or hand. */
  function HeldBy(w: Worker, r: nat): nat {
    Count(w.queue, r) + if w.phase == Working(r) then 1 else 0
  }

  function Held(ws: seq<Worker>, r: nat): nat {
    if ws == [] then 0 else Held(ws[..|ws| - 1], r) + HeldBy(ws[|ws| - 1], r)
  }

  /** How often the request of `r` is anywhere between its send and its reply. */
  function Outstanding(s: State, r: nat): nat {
    Held(s.workers, r) + if s.control.Dispatching? && s.control.r == r then 1 else 0
  }

  predicate IsWaiting(s: State, r: nat) {
    r < |s.requesters| && s.requesters[r].Waiting?
  }

  /** What the balancer believes is pending, or is about to, is what is queued, in hand, or in
      done. */
  ghost predicate Counted(s: State, w: nat)
    requires w < |s.workers|
  {
    && 0 <= s.workers[w].pending
    && s.workers[w].pending + (if s.control == Charging(w) then 1 else 0)
       == |s.workers[w].queue| + Busy(s.workers[w].phase) + Count(s.done, w)
  }

  /** Every waiting requester has exactly one request out, nobody else has any, and sends
      and replies on its channel match. */
  ghost predicate Matched(s: State, r: nat) {
    && Outstanding(s, r) == (if IsWaiting(s, r) then 1 else 0)
    && (r < |s.requesters| && r < |s.sent| && r < |s.replied| ==>
          s.sent[r] == s.replied[r] + if IsWaiting(s, r) then 1 else 0)
  }

  ghost predicate Inv(s: State) {
    && Shaped(s)
    && (forall w: nat :: w < |s.workers| ==> Counted(s, w))
    && (forall r: nat :: Matched(s, r))
  }

  lemma {:induction false} HeldUpdate(ws: seq<Worker>, w: nat, v: Worker, r: nat)
    requires w < |ws|
    ensures Held(ws[w := v], r) == Held(ws, r) - HeldBy(ws[w], r) + HeldBy(v, r)
    decreases |ws|
  {
    var n := |ws| - 1;
    if w < n {
      HeldUpdate(ws[..n], w, v, r);
      assert ws[w := v][..n] == ws[..n][w := v];
    } else {
      assert ws[w := v][..n] == ws[..n];
    }
  }

  lemma {:induction false} HeldInitial(n: nat, r: nat)
    ensures Held(seq(n, _ => Worker([], Free, 0)), r) == 0
  {
    if n > 0 {
      HeldInitial(n - 1, r);
      assert seq(n, _ => Worker([], Free, 0))[..n - 1] == seq(n - 1, _ => Worker([], Free, 0));
    }
  }

  lemma InvInitial(requesters: nat, workers: nat)
    requires workers > 0
    ensures Inv(Initial(requesters, workers))
  {
    var s := Initial(requesters, workers);
    forall r: nat ensures Matched(s, r) {
      HeldInitial(workers, r);
    }
  }

  lemma CountHead(q: seq<nat>, r: nat)
    requires q != []
    ensures Count(q, r) == Count(q[1..], r) + if q[0] == r then 1 else 0
  {
    assert q == [q[0]] + q[1..];
  }

  /** The worker a step changes, if any. */
  function Touched(s: State, step: Step): nat
    requires Shaped(s) && Enabled(s, step)
  {
    match step
    case Submit(r, w) => w
    case Enqueue => s.control.w
    case Charge => s.control.w
    case Take(w) => w
    case Reply(w) => w
    case Report(w) => w
    case Complete => s.done[0]
  }

  lemma MatchedStep(s: State, step: Step, r: nat)
    requires Inv(s) && Enabled(s, step)
    ensures Matched(Apply(s, step), r)
  {
    var s', w := Apply(s, step), Touched(s, step);
    assert Matched(s, r);
    HeldUpdate(s.workers, w, s'.workers[w], r);
    assert s'.workers == s.workers[w := s'.workers[w]];
    if step.Take? {
      CountHead(s.workers[w].queue, r);
    }
    if step.Reply? {
      assert Matched(s, s.workers[w].phase.r);
    }
  }

  lemma CountedStep(s: State, step: Step, w: nat)
    requires Inv(s) && Enabled(s, step) && w < |s.workers|
    ensures Counted(Apply(s, step), w)
  {
    assert Counted(s, w);
    if step.Complete? {
      CountHead(s.done, w);
    }
  }

  lemma InvStep(s: State, step: Step)
    requires Inv(s) && Enabled(s, step)
    ensures Inv(Apply(s, step))
  {
    forall w: nat | w < |s.workers| ensures Counted(Apply(s, step), w) {
      CountedStep(s, step, w);
    }
    forall r: nat ensures Matched(Apply(s, step), r) {
      MatchedStep(s, step, r);
    }
  }

  /** The counts are exact in every state of every run, for any numbers of requesters and
      workers. */
  lemma {:induction false} InvRun(s: State, steps: seq<Step>)
    requires Inv(s) && IsRun(s, steps)
    ensures Inv(After(s, steps))
    decreases |steps|
  {
    if steps != [] {
      InvStep(s, steps[0]);
      InvRun(Apply(s, steps[0]), steps[1..]);
    }
  }

  // ---------------------------------------------------------------- dispatch never blocks

  lemma {:induction false} HeldByIsHeld(ws: seq<Worker>, w: nat, r: nat)
    requires w < |ws|
    ensures HeldBy(ws[w], r) <= Held(ws, r)
    decreases |ws|
  {
    if w < |ws| - 1 {
      HeldByIsHeld(ws[..|ws| - 1], w, r);
    }
  }

  /** A sequence without repetitions is no longer than the set it draws from. */
  lemma {:induction false} NoRepetition(q: seq<nat>, from: set<nat>)
    requires forall r: nat :: Count(q, r) <= if r in from then 1 else 0
    ensures |q| <= |from|
    decreases |q|
  {
    if q != [] {
      var rest := from - {q[0]};
      forall r: nat ensures Count(q[1..], r) <= if r in rest then 1 else 0 {
        CountHead(q, r);
      }
      CountHead(q, q[0]);
      NoRepetition(q[1..], rest);
    }
  }

  ghost function Below(n: nat): (b: set<nat>)
    ensures |b| == n && forall r: nat :: r in b <==> r < n
  {
    if n == 0 then {} else Below(n - 1) + {n - 1}
  }

  /** When the balancer has popped a worker, that worker's request channel has room. */
  lemma DispatchNeverBlocks(s: State)
    requires Inv(s) && s.control.Dispatching?
    ensures Enabled(s, Enqueue)
  {
    var q, n := s.workers[s.control.w].queue, |s.requesters|;
    var from := Below(n) - {s.control.r};
    forall r: nat ensures Count(q, r) <= if r in from then 1 else 0 {
      HeldByIsHeld(s.workers, s.control.w, r);
      assert Matched(s, r);
    }
    NoRepetition(q, from);
    assert s.control.r in Below(n);
  }

  // ---------------------------------------------------------------- progress

  /** The steps a worker's share of the outstanding work still takes. */
  function Load(w: Worker): nat {
    4 * |w.queue| + if w.phase.Working? then 3 else if w.phase.Reporting? then 2 else 0
  }

  function Loads(ws: seq<Worker>): nat {
    if ws == [] then 0 else Loads(ws[..|ws| - 1]) + Load(ws[|ws| - 1])
  }

  /** The steps that the requests under way still take. */
  function Remaining(s: State): nat {
    Loads(s.workers) + |s.done| + match s.control case Selecting => 0 case Dispatching(_, _) => 6 case Charging(_) => 1
  }

  lemma {:induction false} LoadsUpdate(ws: seq<Worker>, w: nat, v: Worker)
    requires w < |ws|
    ensures Loads(ws[w := v]) == Loads(ws) - Load(ws[w]) + Load(v)
    decreases |ws|
  {
    var n := |ws| - 1;
    if w < n {
      LoadsUpdate(ws[..n], w, v);
      assert ws[w := v][..n] == ws[..n][w := v];
    } else {
      assert ws[w := v][..n] == ws[..n];
    }
  }

  /** Every request costs its submission and exactly six further steps. */
  lemma StepCost(s: State, step: Step)
    requires Shaped(s) && Enabled(s, step)
    ensures Remaining(Apply(s, step)) == Remaining(s) + if step.Submit? then 6 else -1
  {
    var s', w := Apply(s, step), Touched(s, step);
    LoadsUpdate(s.workers, w, s'.workers[w]);
    assert s'.workers == s.workers[w := s'.workers[w]];
  }

  function Submissions(steps: seq<Step>): nat {
    if steps == [] then 0 else (if steps[0].Submit? then 1 else 0) + Submissions(steps[1..])
  }

  /** Over a whole run nothing is lost and nothing is done twice: the steps taken and the
      steps still to come are seven for each submission. */
  lemma {:induction false} RunCost(s: State, steps: seq<Step>)
    requires Shaped(s) && IsRun(s, steps)
    ensures |steps| + Remaining(After(s, steps)) == Remaining(s) + 7 * Submissions(steps)
    decreases |steps|
  {
    if steps != [] {
      StepCost(s, steps[0]);
      RunCost(Apply(s, steps[0]), steps[1..]);
    }
  }

  lemma {:induction false} LoadedWorker(ws: seq<Worker>) returns (w: nat)
    requires Loads(ws) > 0
    ensures w < |ws| && Load(ws[w]) > 0
  {
    var n := |ws| - 1;
    if Load(ws[n]) > 0 {
      w := n;
    } else {
      w := LoadedWorker(ws[..n]);
    }
  }

  /** While any request is under way some step other than a submission can happen. */
  lemma Progress(s: State) returns (step: Step)
    requires Inv(s) && Remaining(s) > 0
    ensures Enabled(s, step) && !step.Submit?
  {
    if s.control.Dispatching? {
      DispatchNeverBlocks(s);
      return Enqueue;
    }
    if s.control.Charging? {
      return Charge;
    }
    if s.done != [] {
      return Complete;
    }
    var w := LoadedWorker(s.workers);
    match s.workers[w].phase
    case Free => step := Take(w);
    case Reporting => step := Report(w);
    case Working(r) =>
      HeldByIsHeld(s.workers, w, r);
      assert Matched(s, r);
      step := Reply(w);
  }

  lemma {:induction false} LeastWorker(ws: seq<Worker>) returns (w: nat)
    requires ws != []
    ensures w < |ws| && forall v :: 0 <= v < |ws| ==> ws[w].pending <= ws[v].pending
  {
    var n := |ws| - 1;
    if n == 0 {
      w := 0;
    } else {
      w := LeastWorker(ws[..n]);
      if ws[n].pending < ws[w].pending {
        w := n;
      }
    }
  }

  lemma {:induction false} IdleWhenDone(ws: seq<Worker>, r: nat)
    requires Loads(ws) == 0
    ensures Held(ws, r) == 0
    decreases |ws|
  {
    if ws != [] {
      IdleWhenDone(ws[..|ws| - 1], r);
    }
  }

  /** The whole system, after any run: no deadlock; and once nothing is under way, every
      request has been answered, each exactly once on its own channel, and every count is
      back at zero. */
  lemma AnyRun(requesters: nat, workers: nat, steps: seq<Step>) returns (next: Step)
    requires requesters > 0 && workers > 0 && IsRun(Initial(requesters, workers), steps)
    ensures var s := After(Initial(requesters, workers), steps);
            && Inv(s)
            && Enabled(s, next)
            && (Remaining(s) == 0 ==>
                  && |steps| == 7 * Submissions(steps)
                  && (forall r :: 0 <= r < requesters ==> s.sent[r] == s.replied[r])
                  && (forall w :: 0 <= w < workers ==> s.workers[w].pending == 0))
  {
    var s0 := Initial(requesters, workers);
    var s := After(s0, steps);
    InvInitial(requesters, workers);
    InvRun(s0, steps);
    RunCost(s0, steps);
    InitialLoad(workers);
    if Remaining(s) > 0 {
      next := Progress(s);
    } else {
      forall r: nat | r < requesters ensures s.sent[r] == s.replied[r] && s.requesters[r].Idle? {
        IdleWhenDone(s.workers, r);
        assert Matched(s, r);
      }
      forall w: nat | w < workers ensures s.workers[w].pending == 0 {
        assert Counted(s, w);
        NoLoad(s.workers, w);
      }
      var w := LeastWorker(s.workers);
      next := Submit(0, w);
    }
  }

  lemma {:induction false} InitialLoad(n: nat)
    ensures Loads(seq(n, _ => Worker([], Free, 0))) == 0
  {
    if n > 0 {
      InitialLoad(n - 1);
      assert seq(n, _ => Worker([], Free, 0))[..n - 1] == seq(n - 1, _ => Worker([], Free, 0));
    }
  }

  lemma {:induction false} NoLoad(ws: seq<Worker>, w: nat)
    requires w < |ws| && Loads(ws) == 0
    ensures Load(ws[w]) == 0
    decreases |ws|
  {
    if w < |ws| - 1 {
      NoLoad(ws[..|ws| - 1], w);
    }
  }
}

/** internal/driver/driver.go: a run's workers, their shared iteration count, first error
    and cancellation, with what the calls report to internal/stats/stats.go, and the exit
    status main.go:136-154 makes of both.

    Each worker is a small program whose steps interleave with the others' in any order;
    a lock makes the counting, the recording and each observation one step. The run's
    context may also end from outside, by its deadline or its parent, before any step. */
module RunDriver {
  import opened Octets
  import Stats

  /** `iterations` of 0 stands for no bound. */
  datatype Options = Options(concurrency: nat, iterations: nat, stopOnError: bool)

  /** Why an operation fails: by the server's doing, slowness included; because the
      context has ended, which stops a dial; or because its connection's own deadline has
      passed. That deadline is set once, when the connection is made: for IMAP to so long
      after it (client.go:53), for POP3 to the earlier of that and the context's deadline
      (pop3.go:169-173), for LMTP to the context's or, where it has none, to so long after
      (lmtp.go:81-85). */
  datatype Cause = ByServer | ByContext | ByClock

  /** Where a worker is: waiting for its start, about to look at the context, past that
      look, in a call, its connection's deadline passed or not, in a call with an operation
      failed and not yet observed, in a call about to return, back from a failed call, about
      to record the failure, about to cancel the run, or gone. A call returns at its first
      failed operation. */
  datatype Phase =
    | Waiting | Top | Passed | Calling(late: bool) | Broken(cause: Cause) | Told
    | Failed | Recording | Stopping | Done

  datatype Run = Run(
    workers: seq<Phase>,
    started: nat,             // iterCount
    firstErr: Option<nat>,    // the worker whose error it is
    cancelled: bool,          // the context has ended
    outside: bool,            // and did so for a reason of its own
    failedCalls: nat,
    log: seq<Stats.Obs>)      // what the collector has been told

  datatype Action =
    | Wake(w: nat)                      // its time in the ramp-up has come
    | Quit(w: nat)                      // the run ended while it waited
    | Look(w: nat)
    | Claim(w: nat)
    | Clock(w: nat)                     // its connection's deadline passes
    | Succeed(w: nat, name: string, d: int)
    | Fail(w: nat, cause: Cause)
    | Report(w: nat, name: string, d: int, text: string)
    | Return(w: nat, failed: bool)
    | Judge(w: nat)
    | Record(w: nat)
    | Stop(w: nat)
    | End                               // the context ends, by its deadline or its parent

  predicate CanFail(r: Run, p: Phase, cause: Cause) {
    p.Calling? && (cause == ByContext ==> r.cancelled) && (cause == ByClock ==> p.late)
  }

  /** A call that has reported a failure returns it, or nothing once the run has ended. */
  predicate Possible(o: Options, r: Run, a: Action) {
    match a
    case Wake(w) => At(r, w, Waiting)
    case Quit(w) => At(r, w, Waiting) && r.cancelled
    case Look(w) => At(r, w, Top)
    case Claim(w) => At(r, w, Passed)
    case Clock(w) => At(r, w, Calling(false))
    case Succeed(w, _, _) => w < |r.workers| && r.workers[w].Calling?
    case Fail(w, cause) => w < |r.workers| && CanFail(r, r.workers[w], cause)
    case Report(w, _, _, _) => w < |r.workers| && r.workers[w].Broken?
    case Return(w, failed) =>
      w < |r.workers| && (r.workers[w].Calling? || (r.workers[w] == Told && (failed || r.cancelled)))
    case Judge(w) => At(r, w, Failed)
    case Record(w) => At(r, w, Recording)
    case Stop(w) => At(r, w, Stopping)
    case End => !r.cancelled
  }

  predicate At(r: Run, w: nat, p: Phase) {
    w < |r.workers| && r.workers[w] == p
  }

  function To(r: Run, w: nat, p: Phase): Run
    requires w < |r.workers|
  {
    r.(workers := r.workers[w := p])
  }

  function Observed(r: Run, name: string, d: int, err: Option<string>): Run {
    r.(log := r.log + [Stats.Entry(name, d, err, r.cancelled)])
  }

  function Apply(o: Options, r: Run, a: Action): Run
    requires Possible(o, r, a)
  {
    match a
    case Wake(w) => To(r, w, Top)
    case Quit(w) => To(r, w, Done)
    case Look(w) => To(r, w, if r.cancelled then Done else Passed)
    case Claim(w) =>
      if o.iterations > 0 && r.started >= o.iterations then To(r, w, Done)
      else To(r, w, Calling(false)).(started := r.started + 1)
    case Clock(w) => To(r, w, Calling(true))
    case Succeed(w, name, d) => Observed(r, name, d, None)
    case Fail(w, cause) => To(r, w, Broken(cause))
    case Report(w, name, d, text) => Observed(To(r, w, Told), name, d, Some(text))
    case Return(w, failed) =>
      if failed then To(r, w, Failed).(failedCalls := r.failedCalls + 1) else To(r, w, Top)
    case Judge(w) => To(r, w, if r.cancelled then Done else Recording)
    case Record(w) =>
      To(r, w, if o.stopOnError then Stopping else Top)
        .(firstErr := if r.firstErr.None? then Some(w) else r.firstErr)
    case Stop(w) => To(r, w, Done).(cancelled := true)
    case End => r.(cancelled := true, outside := true)
  }

  /** A run begins with every worker waiting, or at once where there is no ramp-up. */
  predicate Initial(o: Options, r: Run) {
    && |r.workers| == (if o.concurrency == 0 then 1 else o.concurrency)
    && (forall w :: 0 <= w < |r.workers| ==> r.workers[w] == Waiting || r.workers[w] == Top)
    && r.started == 0 && r.firstErr.None? && !r.cancelled && !r.outside
    && r.failedCalls == 0 && r.log == []
  }

  ghost predicate IsRun(o: Options, states: seq<Run>, actions: seq<Action>) {
    && |states| == |actions| + 1 && Initial(o, states[0])
    && forall i :: 0 <= i < |actions| ==>
         Possible(o, states[i], actions[i]) && states[i + 1] == Apply(o, states[i], actions[i])
  }

  predicate Quiescent(r: Run) {
    forall w :: 0 <= w < |r.workers| ==> r.workers[w] == Done
  }

  /** What `Run` returns once all workers are gone. */
  function Result(o: Options, r: Run): Option<nat> {
    if o.stopOnError then r.firstErr else None
  }

  /** The program's exit status: of the error and the summary's failures (main.go:139-146). */
  predicate ExitsNonZero(o: Options, r: Run, s: Stats.Summary) {
    Result(o, r).Some? || s.errors > 0
  }

  function Sum(f: Phase -> nat, ps: seq<Phase>): nat {
    if ps == [] then 0 else Sum(f, ps[..|ps| - 1]) + f(ps[|ps| - 1])
  }

  lemma {:induction false} SumUpdate(f: Phase -> nat, ps: seq<Phase>, w: nat, p: Phase)
    requires w < |ps|
    ensures Sum(f, ps[w := p]) == Sum(f, ps) - f(ps[w]) + f(p)
  {
    var n := |ps| - 1;
    if w == n {
      assert ps[w := p][..n] == ps[..n];
    } else {
      assert ps[w := p][..n] == ps[..n][w := p];
      SumUpdate(f, ps[..n], w, p);
    }
  }

  /** A failed operation the collector has not been told of. */
  function Unreported(p: Phase): nat { if p.Broken? then 1 else 0 }

  /** A worker that may still report a failure after the run has ended. */
  function MayReport(p: Phase): nat { if p == Passed || p.Calling? || p.Broken? then 1 else 0 }

  lemma {:induction false} SumBounded(ps: seq<Phase>)
    ensures Sum(MayReport, ps) <= |ps|
  {
    if ps != [] { SumBounded(ps[..|ps| - 1]); }
  }

  lemma {:induction false} SumOfNone(ps: seq<Phase>)
    requires forall w :: 0 <= w < |ps| ==> !ps[w].Broken?
    ensures Sum(Unreported, ps) == 0
  {
    if ps != [] { SumOfNone(ps[..|ps| - 1]); }
  }

  // ---------------------------------------------------------- the invariant

  /** What holds of a single worker. */
  predicate WorkerInv(o: Options, r: Run, p: Phase) {
    && (p == Done ==> r.cancelled || (o.iterations > 0 && r.started >= o.iterations))
    && (p == Stopping ==> o.stopOnError && r.firstErr.Some?)
    && (p == Failed || p == Recording ==> r.failedCalls > 0)
    && (p == Broken(ByContext) ==> r.cancelled)
  }

  predicate AllWorkers(o: Options, r: Run) {
    forall w :: 0 <= w < |r.workers| ==> WorkerInv(o, r, r.workers[w])
  }

  predicate Bounded(o: Options, r: Run) {
    && (o.iterations > 0 ==> r.started <= o.iterations)
    && (r.cancelled && !r.outside ==> r.firstErr.Some? && o.stopOnError)
    && (r.firstErr.Some? ==> r.failedCalls > 0)
    && (r.outside ==> r.cancelled)
  }

  /** Cut-off failures and those still to come are no more than the workers: a worker
      reports one at most, and looks at the context before it could report another. */
  predicate FewCut(r: Run) {
    Stats.CountAll(r.log, Stats.CutOff) + (if r.cancelled then Sum(MayReport, r.workers) else 0)
      <= (if r.cancelled then |r.workers| else 0)
  }

  /** A failed call is on its way to being recorded, or already has been, unless the
      context ended from outside. */
  predicate OnItsWay(r: Run) {
    r.failedCalls > 0 && !r.outside ==>
      r.firstErr.Some? || exists w :: 0 <= w < |r.workers| && (r.workers[w] == Failed || r.workers[w] == Recording)
  }

  /** So is a reported failure on its way to being a failed call. */
  predicate Returning(r: Run) {
    Stats.CountAll(r.log, Stats.Bad) > 0 && !r.outside ==>
      r.failedCalls > 0 || exists w :: 0 <= w < |r.workers| && r.workers[w] == Told
  }

  predicate Inv(o: Options, r: Run) {
    AllWorkers(o, r) && Bounded(o, r) && FewCut(r) && OnItsWay(r) && Returning(r)
  }

  /** An action of a worker changes that worker's place and nobody else's. */
  lemma OneMoves(o: Options, r: Run, a: Action, f: Phase -> nat)
    requires Possible(o, r, a) && !a.End?
    ensures var ps := Apply(o, r, a).workers;
            && a.w < |r.workers| == |ps| && ps == r.workers[a.w := ps[a.w]]
            && Sum(f, ps) == Sum(f, r.workers) - f(r.workers[a.w]) + f(ps[a.w])
  {
    hide Sum;
    var ps := Apply(o, r, a).workers;
    assert ps == r.workers[a.w := ps[a.w]];
    SumUpdate(f, r.workers, a.w, ps[a.w]);
  }

  lemma StepKeepsBounds(o: Options, r: Run, a: Action)
    requires AllWorkers(o, r) && Bounded(o, r) && Possible(o, r, a)
    ensures Bounded(o, Apply(o, r, a)) && |Apply(o, r, a).workers| == |r.workers|
  {
    if !a.End? { assert WorkerInv(o, r, r.workers[a.w]); }
  }

  /** A worker that does not move keeps what holds of it. */
  lemma OthersKeep(o: Options, r: Run, a: Action, p: Phase)
    requires Bounded(o, r) && Possible(o, r, a) && WorkerInv(o, r, p)
    ensures WorkerInv(o, Apply(o, r, a), p)
  {
  }

  lemma MoverKeeps(o: Options, r: Run, a: Action)
    requires AllWorkers(o, r) && Bounded(o, r) && Possible(o, r, a) && !a.End?
    ensures var t := Apply(o, r, a); a.w < |t.workers| && WorkerInv(o, t, t.workers[a.w])
  {
    assert WorkerInv(o, r, r.workers[a.w]);
  }

  lemma StepKeepsWorkers(o: Options, r: Run, a: Action)
    requires AllWorkers(o, r) && Bounded(o, r) && Possible(o, r, a)
    ensures AllWorkers(o, Apply(o, r, a))
  {
    hide WorkerInv, Bounded;
    var t := Apply(o, r, a);
    if !a.End? { MoverKeeps(o, r, a); }
    forall w | 0 <= w < |t.workers| ensures WorkerInv(o, t, t.workers[w]) {
      if a.End? || w != a.w { OthersKeep(o, r, a, r.workers[w]); }
    }
  }

  lemma StepKeepsFewCut(o: Options, r: Run, a: Action)
    requires FewCut(r) && Possible(o, r, a)
    ensures FewCut(Apply(o, r, a))
  {
    hide Sum, Stats.CountAll, Apply, Possible;
    var t := Apply(o, r, a);
    LogStep(o, r, a, Stats.CutOff);
    SumBounded(t.workers);
    ReportsLess(o, r, a);
  }

  /** After the end, a report is one fewer still to come, and nobody may report anew. */
  lemma ReportsLess(o: Options, r: Run, a: Action)
    requires Possible(o, r, a)
    ensures var t := Apply(o, r, a);
            && |t.workers| == |r.workers| && (r.cancelled ==> t.cancelled)
            && (r.cancelled ==> Sum(MayReport, t.workers) + (if a.Report? then 1 else 0) <= Sum(MayReport, r.workers))
  {
    hide Sum;
    if !a.End? { OneMoves(o, r, a, MayReport); }
  }

  /** What an action adds to the log's failures of one kind. */
  lemma LogStep(o: Options, r: Run, a: Action, k: Stats.Kind)
    requires Possible(o, r, a) && k != Stats.Good
    ensures Stats.CountAll(Apply(o, r, a).log, k) == Stats.CountAll(r.log, k)
            + (if a.Report? && (k == Stats.CutOff <==> r.cancelled) then 1 else 0)
  {
    if a.Succeed? {
      Stats.CountsStep(r.log, Stats.Entry(a.name, a.d, None, r.cancelled), a.name, k);
    } else if a.Report? {
      Stats.CountsStep(r.log, Stats.Entry(a.name, a.d, Some(a.text), r.cancelled), a.name, k);
    }
  }

  lemma StepKeepsOnItsWay(o: Options, r: Run, a: Action)
    requires OnItsWay(r) && Bounded(o, r) && Possible(o, r, a)
    ensures OnItsWay(Apply(o, r, a))
  {
    var t := Apply(o, r, a);
    if a.Return? && a.failed {
      assert t.workers[a.w] == Failed;
    } else if r.failedCalls > 0 && !r.outside && r.firstErr.None? {
      var w :| 0 <= w < |r.workers| && (r.workers[w] == Failed || r.workers[w] == Recording);
      if a.Judge? && a.w == w {
        assert !r.cancelled && t.workers[w] == Recording;
      } else if !(a.Record? && a.w == w) && !a.End? {
        assert t.workers[w] == r.workers[w];
      }
    }
  }

  lemma StepKeepsReturning(o: Options, r: Run, a: Action)
    requires Returning(r) && Bounded(o, r) && Possible(o, r, a)
    ensures Returning(Apply(o, r, a))
  {
    var t := Apply(o, r, a);
    LogStep(o, r, a, Stats.Bad);
    if a.Report? {
      assert t.workers[a.w] == Told;
    } else if Stats.CountAll(r.log, Stats.Bad) > 0 && !t.outside && r.failedCalls == 0 {
      var w :| 0 <= w < |r.workers| && r.workers[w] == Told;
      if !(a.Return? && a.w == w) {
        assert t.workers[w] == Told;
      }
    }
  }

  lemma StepKeepsInv(o: Options, r: Run, a: Action)
    requires Inv(o, r) && Possible(o, r, a)
    ensures Inv(o, Apply(o, r, a))
    ensures |Apply(o, r, a).workers| == |r.workers|
  {
    hide AllWorkers, Bounded, FewCut, OnItsWay, Returning, Apply, Possible;
    StepKeepsBounds(o, r, a);
    StepKeepsWorkers(o, r, a);
    StepKeepsFewCut(o, r, a);
    StepKeepsOnItsWay(o, r, a);
    StepKeepsReturning(o, r, a);
  }

  /** A run without its last step is a run, which that step takes to its end. */
  lemma RunBefore(o: Options, states: seq<Run>, actions: seq<Action>)
    requires IsRun(o, states, actions) && actions != []
    ensures var n := |actions| - 1;
            && IsRun(o, states[..n + 1], actions[..n]) && states[..n + 1][n] == states[n]
            && Possible(o, states[n], actions[n]) && states[n + 1] == Apply(o, states[n], actions[n])
  {
    hide Possible, Apply, Initial;
  }

  lemma InitialInv(o: Options, r: Run)
    requires Initial(o, r)
    ensures Inv(o, r)
  {
  }

  lemma {:induction false} RunKeepsInv(o: Options, states: seq<Run>, actions: seq<Action>)
    requires IsRun(o, states, actions)
    ensures Inv(o, states[|actions|]) && |states[|actions|].workers| == |states[0].workers|
    ensures states[0].workers != []
  {
    hide Inv, Possible, Apply;
    if actions == [] {
      InitialInv(o, states[0]);
    } else {
      var n := |actions| - 1;
      RunBefore(o, states, actions);
      RunKeepsInv(o, states[..n + 1], actions[..n]);
      StepKeepsInv(o, states[n], actions[n]);
    }
  }

  // ------------------------------------------------------- the run's promises

  /** In every interleaving no more calls start than iterations were asked for, and when
      all workers are gone without the run having been cancelled, exactly that many have. */
  lemma IterationsAreHonoured(o: Options, states: seq<Run>, actions: seq<Action>)
    requires IsRun(o, states, actions) && o.iterations > 0
    ensures var r := states[|actions|];
            && r.started <= o.iterations
            && (Quiescent(r) && !r.cancelled ==> r.started == o.iterations)
  {
    hide Possible, Apply, FewCut, OnItsWay, Returning;
    RunKeepsInv(o, states, actions);
    var r := states[|actions|];
    assert WorkerInv(o, r, r.workers[0]);
  }

  /** With StopOnError and nothing ending the context from outside, `Run` returns an error
      exactly when some call failed. */
  lemma ErrorIffSomeCallFailed(o: Options, states: seq<Run>, actions: seq<Action>)
    requires IsRun(o, states, actions) && o.stopOnError
    requires Quiescent(states[|actions|]) && !states[|actions|].outside
    ensures Result(o, states[|actions|]).Some? <==> states[|actions|].failedCalls > 0
  {
    hide Possible, Apply, FewCut, AllWorkers, Returning;
    RunKeepsInv(o, states, actions);
  }

  // ------------------------------------------------------- who failed, and when

  /** How many operations failed for one cause while the run's context was live. */
  function LiveFailures(states: seq<Run>, actions: seq<Action>, cause: Cause): nat
    requires |states| == |actions| + 1
  {
    if actions == [] then 0
    else
      var n := |actions| - 1;
      LiveFailures(states[..n + 1], actions[..n], cause)
      + (if actions[n].Fail? && actions[n].cause == cause && !states[n].cancelled then 1 else 0)
  }

  /** All of them: the context cuts nothing off before it has ended. */
  function AllLive(states: seq<Run>, actions: seq<Action>): nat
    requires |states| == |actions| + 1
  {
    LiveFailures(states, actions, ByServer) + LiveFailures(states, actions, ByClock)
  }

  lemma AllLiveStep(o: Options, states: seq<Run>, actions: seq<Action>)
    requires IsRun(o, states, actions) && actions != []
    ensures var n := |actions| - 1;
            AllLive(states, actions) == AllLive(states[..n + 1], actions[..n])
                                        + (if actions[n].Fail? && !states[n].cancelled then 1 else 0)
  {
    RunBefore(o, states, actions);
  }

  /** While a run is live, the failures it counts and those not yet reported are the
      operations that have failed. */
  lemma {:induction false} LiveAccount(o: Options, states: seq<Run>, actions: seq<Action>)
    requires IsRun(o, states, actions) && !states[|actions|].cancelled
    ensures var r := states[|actions|];
            Stats.CountAll(r.log, Stats.Bad) + Sum(Unreported, r.workers) == AllLive(states, actions)
  {
    if actions == [] {
      SumOfNone(states[0].workers);
    } else {
      var n := |actions| - 1;
      RunBefore(o, states, actions);
      AllLiveStep(o, states, actions);
      LiveBefore(o, states[n], actions[n]);
      LiveAccount(o, states[..n + 1], actions[..n]);
      AccountStep(o, states[n], actions[n]);
    }
  }

  lemma LiveBefore(o: Options, r: Run, a: Action)
    requires Possible(o, r, a) && !Apply(o, r, a).cancelled
    ensures !r.cancelled
  {
  }

  lemma AccountStep(o: Options, r: Run, a: Action)
    requires Possible(o, r, a) && !r.cancelled
    ensures var t := Apply(o, r, a);
            Stats.CountAll(t.log, Stats.Bad) + Sum(Unreported, t.workers)
            == Stats.CountAll(r.log, Stats.Bad) + Sum(Unreported, r.workers) + (if a.Fail? then 1 else 0)
  {
    hide Sum, Stats.CountAll;
    LogStep(o, r, a, Stats.Bad);
    if !a.End? { OneMoves(o, r, a, Unreported); }
  }

  /** Where a run's context ended: after its first `e` steps, or not yet. */
  predicate EndsAt(states: seq<Run>, e: nat) {
    e < |states| && !states[e].cancelled && (e + 1 < |states| ==> states[e + 1].cancelled)
  }

  lemma {:induction false} EndedStays(o: Options, states: seq<Run>, actions: seq<Action>, e: nat)
    requires IsRun(o, states, actions) && e <= |actions| && states[e].cancelled
    ensures states[|actions|].cancelled
  {
    hide Possible, Apply, Initial;
    if e < |actions| {
      var n := |actions| - 1;
      RunBefore(o, states, actions);
      EndedStays(o, states[..n + 1], actions[..n], e);
      EndIsFinal(o, states[n], actions[n]);
    }
  }

  /** Attribution, exactly: what a run counts against the server is what failed before its
      context ended, less what had not been reported by then. */
  lemma {:induction false} ErrorsExactly(o: Options, states: seq<Run>, actions: seq<Action>, e: nat)
    requires IsRun(o, states, actions) && EndsAt(states, e)
    ensures Stats.CountAll(states[|actions|].log, Stats.Bad) + Sum(Unreported, states[e].workers)
         == AllLive(states, actions)
  {
    if e == |actions| {
      LiveAccount(o, states, actions);
    } else {
      var n := |actions| - 1;
      RunBefore(o, states, actions);
      AllLiveStep(o, states, actions);
      ErrorsExactly(o, states[..n + 1], actions[..n], e);
      if e < n {
        assert states[..n + 1][e + 1] == states[e + 1];
        EndedStays(o, states[..n + 1], actions[..n], e + 1);
      }
      LastStepCounts(o, states[n], actions[n], e == n);
    }
  }

  lemma EndIsFinal(o: Options, r: Run, a: Action)
    requires Possible(o, r, a) && r.cancelled
    ensures Apply(o, r, a).cancelled
  {
  }

  lemma LastStepCounts(o: Options, r: Run, a: Action, ending: bool)
    requires Possible(o, r, a) && if ending then !r.cancelled && Apply(o, r, a).cancelled else r.cancelled
    ensures Stats.CountAll(Apply(o, r, a).log, Stats.Bad) == Stats.CountAll(r.log, Stats.Bad)
    ensures !(a.Fail? && !r.cancelled)
  {
    LogStep(o, r, a, Stats.Bad);
  }

  lemma {:induction false} EndsSomewhere(o: Options, states: seq<Run>, actions: seq<Action>) returns (e: nat)
    requires IsRun(o, states, actions)
    ensures EndsAt(states, e)
  {
    if !states[|actions|].cancelled {
      e := |actions|;
    } else {
      var n := |actions| - 1;
      RunBefore(o, states, actions);
      e := EndsSomewhere(o, states[..n + 1], actions[..n]);
      if e == n { return; }
      assert states[..n + 1][e + 1] == states[e + 1];
    }
  }

  /** While the context is live no connection in use outlives its deadline. */
  predicate InTime(r: Run) {
    forall w :: 0 <= w < |r.workers| && r.workers[w] == Calling(true) ==> r.cancelled
  }

  /** The context ends no later than the deadline of any connection in use. */
  predicate Prompt(states: seq<Run>) {
    forall i :: 0 <= i < |states| ==> InTime(states[i])
  }

  predicate ServerNeverFails(actions: seq<Action>) {
    forall i :: 0 <= i < |actions| && actions[i].Fail? ==> actions[i].cause != ByServer
  }

  lemma {:induction false} PromptIsClean(o: Options, states: seq<Run>, actions: seq<Action>)
    requires IsRun(o, states, actions) && Prompt(states)
    ensures LiveFailures(states, actions, ByClock) == 0
  {
    if actions != [] {
      var n := |actions| - 1;
      RunBefore(o, states, actions);
      PromptIsClean(o, states[..n + 1], actions[..n]);
      assert InTime(states[n]);
    }
  }

  lemma {:induction false} NoServerFailures(states: seq<Run>, actions: seq<Action>)
    requires |states| == |actions| + 1 && ServerNeverFails(actions)
    ensures LiveFailures(states, actions, ByServer) == 0
  {
    if actions != [] {
      var n := |actions| - 1;
      NoServerFailures(states[..n + 1], actions[..n]);
    }
  }

  /** Attribution: a summary never holds more errors than operations that failed while the
      context was live, and never more cut-off operations than workers. The errors are the
      server's as long as no connection outlives its deadline before the context ends; so
      such a run against a server that never fails reports none. */
  lemma ErrorsAreTheServers(o: Options, states: seq<Run>, actions: seq<Action>, s: Stats.Summary)
    requires IsRun(o, states, actions) && Stats.Summarises(s, states[|actions|].log)
    ensures s.errors <= AllLive(states, actions)
    ensures s.cancelled <= |states[0].workers|
    ensures Prompt(states) ==> s.errors <= LiveFailures(states, actions, ByServer)
    ensures Prompt(states) && ServerNeverFails(actions) ==> s.errors == 0
  {
    hide Possible, Apply, Prompt, ServerNeverFails, EndsAt, AllWorkers, Bounded, OnItsWay, Returning;
    var e := EndsSomewhere(o, states, actions);
    ErrorsExactly(o, states, actions, e);
    RunKeepsInv(o, states, actions);
    if Prompt(states) { PromptIsClean(o, states, actions); }
    if ServerNeverFails(actions) { NoServerFailures(states, actions); }
  }

  /** Without that, a server that never fails is charged with exactly the operations that a
      connection's deadline cut off and that were reported before the context had ended. */
  lemma CleanIff(o: Options, states: seq<Run>, actions: seq<Action>, s: Stats.Summary, e: nat)
    requires IsRun(o, states, actions) && Stats.Summarises(s, states[|actions|].log) && EndsAt(states, e)
    requires ServerNeverFails(actions)
    ensures s.errors == 0 <==> LiveFailures(states, actions, ByClock) == Sum(Unreported, states[e].workers)
  {
    hide Possible, Apply, ServerNeverFails, EndsAt;
    ErrorsExactly(o, states, actions, e);
    NoServerFailures(states, actions);
  }

  /** Every failure is kept: a run that ends by running out of iterations has counted each
      failed operation, and cut none off. */
  lemma RealFailuresAreReported(o: Options, states: seq<Run>, actions: seq<Action>, s: Stats.Summary)
    requires IsRun(o, states, actions) && Stats.Summarises(s, states[|actions|].log)
    requires Quiescent(states[|actions|]) && !states[|actions|].cancelled
    ensures s.errors == AllLive(states, actions) && s.cancelled == 0
  {
    hide Possible, Apply, AllWorkers, Bounded, OnItsWay, Returning;
    LiveAccount(o, states, actions);
    SumOfNone(states[|actions|].workers);
    RunKeepsInv(o, states, actions);
  }

  // ------------------------------------------------------------ the exit status

  /** Step `i` reports a failure while the context is live. */
  predicate ReportedLive(states: seq<Run>, actions: seq<Action>, i: nat) {
    i < |actions| && i < |states| && actions[i].Report? && !states[i].cancelled
  }

  /** Step `i` records a call's error. */
  predicate RecordedAt(actions: seq<Action>, i: nat) {
    i < |actions| && actions[i].Record?
  }

  lemma {:induction false} ErrorsAreReports(o: Options, states: seq<Run>, actions: seq<Action>)
    requires IsRun(o, states, actions)
    ensures Stats.CountAll(states[|actions|].log, Stats.Bad) > 0 <==> exists i :: ReportedLive(states, actions, i)
  {
    hide Possible, Apply, Initial, Stats.CountAll;
    if actions == [] {
      NothingYet(o, states[0]);
    } else {
      var n := |actions| - 1;
      RunBefore(o, states, actions);
      ErrorsAreReports(o, states[..n + 1], actions[..n]);
      LogStep(o, states[n], actions[n], Stats.Bad);
      ReportedBefore(states, actions, states[..n + 1], actions[..n]);
    }
  }

  lemma NothingYet(o: Options, r: Run)
    requires Initial(o, r)
    ensures Stats.CountAll(r.log, Stats.Bad) == 0 && r.firstErr.None?
  {
  }

  /** A failure was reported before the last step, or in it. */
  lemma ReportedBefore(states: seq<Run>, actions: seq<Action>, before: seq<Run>, earlier: seq<Action>)
    requires |states| == |actions| + 1 && actions != []
    requires before == states[..|actions|] && earlier == actions[..|actions| - 1]
    ensures (exists i :: ReportedLive(states, actions, i))
            <==> (exists i :: ReportedLive(before, earlier, i)) || ReportedLive(states, actions, |earlier|)
  {
    forall i: nat | i < |earlier| ensures ReportedLive(states, actions, i) == ReportedLive(before, earlier, i) {}
    if i: nat :| ReportedLive(states, actions, i) && i < |earlier| {
      assert ReportedLive(before, earlier, i);
    }
    if i: nat :| ReportedLive(before, earlier, i) {
      assert ReportedLive(states, actions, i);
    }
  }

  lemma {:induction false} FirstErrIsRecorded(o: Options, states: seq<Run>, actions: seq<Action>)
    requires IsRun(o, states, actions)
    ensures states[|actions|].firstErr.Some? <==> exists i :: RecordedAt(actions, i)
  {
    hide Possible, Apply, Initial;
    if actions == [] {
      NothingYet(o, states[0]);
    } else {
      var n := |actions| - 1;
      RunBefore(o, states, actions);
      FirstErrIsRecorded(o, states[..n + 1], actions[..n]);
      RecordedBefore(actions, actions[..n]);
      OnlyRecording(o, states[n], actions[n]);
    }
  }

  lemma RecordedBefore(actions: seq<Action>, earlier: seq<Action>)
    requires actions != [] && earlier == actions[..|actions| - 1]
    ensures (exists i :: RecordedAt(actions, i))
            <==> (exists i :: RecordedAt(earlier, i)) || RecordedAt(actions, |earlier|)
  {
    if i: nat :| RecordedAt(actions, i) && i < |earlier| {
      assert RecordedAt(earlier, i);
    }
    if i: nat :| RecordedAt(earlier, i) {
      assert RecordedAt(actions, i);
    }
  }

  lemma OnlyRecording(o: Options, r: Run, a: Action)
    requires Possible(o, r, a)
    ensures Apply(o, r, a).firstErr.Some? <==> r.firstErr.Some? || a.Record?
  {
  }

  /** The exit status of every run, however it ends: it is non-zero if and only if some
      failure was reported while the context was live, or, with StopOnError, some call's
      error was recorded. */
  lemma GateIff(o: Options, states: seq<Run>, actions: seq<Action>, s: Stats.Summary)
    requires IsRun(o, states, actions) && Stats.Summarises(s, states[|actions|].log)
    ensures ExitsNonZero(o, states[|actions|], s)
            <==> (exists i :: ReportedLive(states, actions, i))
                 || (o.stopOnError && exists i :: RecordedAt(actions, i))
  {
    hide Possible, Apply, Initial, ReportedLive, RecordedAt, Stats.CountAll;
    ErrorsAreReports(o, states, actions);
    FirstErrIsRecorded(o, states, actions);
  }

  /** In numbers: of the operations that failed while the context was live, some were no
      longer unreported when it ended. */
  lemma GateCounts(o: Options, states: seq<Run>, actions: seq<Action>, s: Stats.Summary, e: nat)
    requires IsRun(o, states, actions) && Stats.Summarises(s, states[|actions|].log) && EndsAt(states, e)
    ensures ExitsNonZero(o, states[|actions|], s)
            <==> Result(o, states[|actions|]).Some? || AllLive(states, actions) > Sum(Unreported, states[e].workers)
  {
    hide Possible, Apply, AllLive, EndsAt;
    ErrorsExactly(o, states, actions, e);
  }

  /** A run that ends of its own: with StopOnError the exit status is non-zero when some call
      failed, and without it when some operation did. */
  lemma GateOfItsOwn(o: Options, states: seq<Run>, actions: seq<Action>, s: Stats.Summary)
    requires IsRun(o, states, actions) && Stats.Summarises(s, states[|actions|].log)
    requires Quiescent(states[|actions|]) && !states[|actions|].outside
    ensures ExitsNonZero(o, states[|actions|], s) <==>
              if o.stopOnError then states[|actions|].failedCalls > 0 else AllLive(states, actions) > 0
  {
    hide Possible, Apply, AllWorkers, FewCut, AllLive;
    RunKeepsInv(o, states, actions);
    if !o.stopOnError { RealFailuresAreReported(o, states, actions, s); }
  }

  /** Bounded by a duration alone and without StopOnError no run does. */
  lemma EndsFromOutside(o: Options, states: seq<Run>, actions: seq<Action>)
    requires IsRun(o, states, actions) && o.iterations == 0 && !o.stopOnError && Quiescent(states[|actions|])
    ensures states[|actions|].outside
  {
    hide Possible, Apply, FewCut, OnItsWay, Returning;
    RunKeepsInv(o, states, actions);
    var r := states[|actions|];
    assert WorkerInv(o, r, r.workers[0]);
  }

  // ------------------------------------------------- whose error, and what it ends

  /** Step `i` is the first that records an error. */
  predicate FirstRecorded(actions: seq<Action>, i: nat) {
    RecordedAt(actions, i) && forall k: nat :: k < i ==> !RecordedAt(actions, k)
  }

  /** The error a run returns is the first that was recorded. */
  lemma {:induction false} FirstErrIsFirst(o: Options, states: seq<Run>, actions: seq<Action>)
    requires IsRun(o, states, actions) && states[|actions|].firstErr.Some?
    ensures exists i: nat :: FirstRecorded(actions, i) && states[|actions|].firstErr == Some(actions[i].w)
  {
    hide Possible, Apply, Initial;
    if actions == [] {
      NothingYet(o, states[0]);
    } else {
      var n := |actions| - 1;
      var before, earlier := states[..n + 1], actions[..n];
      RunBefore(o, states, actions);
      Keeps(o, states[n], actions[n]);
      forall k: nat | k < n ensures RecordedAt(earlier, k) == RecordedAt(actions, k) {}
      if states[n].firstErr.Some? {
        FirstErrIsFirst(o, before, earlier);
        var i: nat :| FirstRecorded(earlier, i) && before[n].firstErr == Some(earlier[i].w);
        assert FirstRecorded(actions, i);
      } else {
        FirstErrIsRecorded(o, before, earlier);
        assert FirstRecorded(actions, n);
      }
    }
  }

  lemma Keeps(o: Options, r: Run, a: Action)
    requires Possible(o, r, a)
    ensures r.firstErr.Some? ==> Apply(o, r, a).firstErr == r.firstErr
    ensures r.firstErr.None? ==> Apply(o, r, a).firstErr == if a.Record? then Some(a.w) else None
  {
  }

  /** Worker `w` was back from a failed call while the context was live. */
  predicate JudgedLive(states: seq<Run>, actions: seq<Action>, j: nat, w: nat) {
    j < |actions| && j < |states| && actions[j] == Judge(w) && !states[j].cancelled
  }

  /** No call's error is recorded that came back after the context had ended. */
  lemma {:induction false} RecordedWasLive(o: Options, states: seq<Run>, actions: seq<Action>, w: nat)
    requires IsRun(o, states, actions) && At(states[|actions|], w, Recording)
    ensures exists j: nat :: JudgedLive(states, actions, j, w)
  {
    hide Apply, Possible, Initial;
    if actions == [] {
      NobodyRecords(o, states[0], w);
    } else {
      var n := |actions| - 1;
      RunBefore(o, states, actions);
      ComesToRecord(o, states[n], actions[n], w);
      if actions[n] == Judge(w) {
        assert JudgedLive(states, actions, n, w);
      } else {
        RecordedWasLive(o, states[..n + 1], actions[..n], w);
        var j: nat :| JudgedLive(states[..n + 1], actions[..n], j, w);
        assert JudgedLive(states, actions, j, w);
      }
    }
  }

  lemma NobodyRecords(o: Options, r: Run, w: nat)
    requires Initial(o, r)
    ensures !At(r, w, Recording)
  {
  }

  lemma ComesToRecord(o: Options, r: Run, a: Action, w: nat)
    requires Possible(o, r, a) && At(Apply(o, r, a), w, Recording)
    ensures if a == Judge(w) then !r.cancelled else At(r, w, Recording)
  {
  }

  predicate Leaving(r: Run, w: nat) { At(r, w, Stopping) || At(r, w, Done) }

  lemma LeavingStays(o: Options, r: Run, a: Action, w: nat)
    requires Possible(o, r, a) && Leaving(r, w)
    ensures Leaving(Apply(o, r, a), w) && (!a.End? && a.w == w ==> a == Stop(w))
  {
  }

  lemma {:induction false} StaysLeaving(o: Options, states: seq<Run>, actions: seq<Action>, i: nat, j: nat, w: nat)
    requires IsRun(o, states, actions) && i <= j <= |actions| && Leaving(states[i], w)
    ensures Leaving(states[j], w)
  {
    hide Apply, Possible, Initial;
    if i < j {
      StaysLeaving(o, states, actions, i, j - 1, w);
      LeavingStays(o, states[j - 1], actions[j - 1], w);
    }
  }

  /** With StopOnError, a worker that has recorded an error does one thing more: it ends the
      run. */
  lemma RecordingStops(o: Options, states: seq<Run>, actions: seq<Action>, i: nat, j: nat)
    requires IsRun(o, states, actions) && o.stopOnError && i < j < |actions| && RecordedAt(actions, i)
    ensures !actions[j].End? && actions[j].w == actions[i].w ==> actions[j] == Stop(actions[i].w)
  {
    hide Apply, Possible, Initial;
    var w := actions[i].w;
    Recorded(o, states[i], actions[i]);
    StaysLeaving(o, states, actions, i + 1, j, w);
    LeavingStays(o, states[j], actions[j], w);
  }

  lemma Recorded(o: Options, r: Run, a: Action)
    requires Possible(o, r, a) && a.Record? && o.stopOnError
    ensures Leaving(Apply(o, r, a), a.w)
  {
  }

  /** An error that was recorded has ended the run, or is about to. */
  predicate Ending(o: Options, r: Run) {
    o.stopOnError && r.firstErr.Some? ==>
      r.cancelled || exists w :: 0 <= w < |r.workers| && r.workers[w] == Stopping
  }

  lemma StepKeepsEnding(o: Options, r: Run, a: Action)
    requires Ending(o, r) && Possible(o, r, a)
    ensures Ending(o, Apply(o, r, a))
  {
    var t := Apply(o, r, a);
    if a.Record? {
      assert o.stopOnError ==> t.workers[a.w] == Stopping;
    } else if o.stopOnError && r.firstErr.Some? && !r.cancelled {
      var w :| 0 <= w < |r.workers| && r.workers[w] == Stopping;
      if !(a.Stop? && a.w == w) { assert t.workers[w] == Stopping; }
    }
  }

  lemma {:induction false} RunKeepsEnding(o: Options, states: seq<Run>, actions: seq<Action>)
    requires IsRun(o, states, actions)
    ensures Ending(o, states[|actions|])
  {
    hide Apply, Possible, Ending;
    if actions == [] {
      NotEnding(o, states[0]);
    } else {
      var n := |actions| - 1;
      RunBefore(o, states, actions);
      RunKeepsEnding(o, states[..n + 1], actions[..n]);
      StepKeepsEnding(o, states[n], actions[n]);
    }
  }

  lemma NotEnding(o: Options, r: Run)
    requires Initial(o, r)
    ensures Ending(o, r)
  {
  }

  /** With StopOnError, a run that is over and has an error was ended, and the others'
      operations with it. */
  lemma AnErrorEndsTheRun(o: Options, states: seq<Run>, actions: seq<Action>)
    requires IsRun(o, states, actions) && o.stopOnError
    requires Quiescent(states[|actions|]) && Result(o, states[|actions|]).Some?
    ensures states[|actions|].cancelled
  {
    hide Apply, Possible, Initial;
    RunKeepsEnding(o, states, actions);
  }

  // ------------------------------------------------------------ four short runs

  function One(p: Phase): Run {
    Run([p], 0, None, false, false, 0, [])
  }

  /** A run goes on by one step. */
  lemma Then(o: Options, states: seq<Run>, actions: seq<Action>, r: Run, a: Action)
    returns (s: seq<Run>, acts: seq<Action>, t: Run)
    requires IsRun(o, states, actions) && states[|actions|] == r && Possible(o, r, a)
    ensures IsRun(o, s, acts) && t == Apply(o, r, a) && s[|acts|] == t
    ensures ServerNeverFails(actions) && (a.Fail? ==> a.cause != ByServer) ==> ServerNeverFails(acts)
    ensures AllLive(s, acts) == AllLive(states, actions) + (if a.Fail? && !r.cancelled then 1 else 0)
  {
    hide Possible, Apply, Initial, AllLive;
    t := Apply(o, r, a);
    s, acts := states + [t], actions + [a];
    assert s[..|acts|] == states && acts[..|actions|] == actions;
    AllLiveStep(o, s, acts);
  }

  lemma InACall(o: Options) returns (states: seq<Run>, actions: seq<Action>, r: Run)
    requires o.concurrency == 1 && o.iterations <= 1
    ensures IsRun(o, states, actions) && states[|actions|] == r
    ensures ServerNeverFails(actions) && AllLive(states, actions) == 0
    ensures r == One(Calling(false)).(started := 1)
  {
    hide IsRun, ServerNeverFails, AllLive;
    states, actions, r := AtFirst(o);
    states, actions, r := Then(o, states, actions, r, Look(0));
    states, actions, r := Then(o, states, actions, r, Claim(0));
  }

  lemma AtFirst(o: Options) returns (states: seq<Run>, actions: seq<Action>, r: Run)
    requires o.concurrency == 1
    ensures IsRun(o, states, actions) && states[|actions|] == r
    ensures ServerNeverFails(actions) && AllLive(states, actions) == 0
    ensures r == One(Top)
  {
    states, actions, r := [One(Top)], [], One(Top);
  }

  const TimedOut := Stats.Entry("BODY", 1, Some("i/o timeout"), false)

  /** Its connection's deadline cuts an operation off, and the failure is reported. */
  lemma CutOffEarly(o: Options) returns (states: seq<Run>, actions: seq<Action>, r: Run)
    requires o.concurrency == 1 && o.iterations == 1
    ensures IsRun(o, states, actions) && states[|actions|] == r && ServerNeverFails(actions)
    ensures r == Run([Told], 1, None, false, false, 0, [TimedOut])
  {
    hide IsRun, ServerNeverFails, AllLive;
    states, actions, r := InACall(o);
    states, actions, r := Then(o, states, actions, r, Clock(0));
    states, actions, r := Then(o, states, actions, r, Fail(0, ByClock));
    states, actions, r := Then(o, states, actions, r, Report(0, "BODY", 1, "i/o timeout"));
  }

  lemma OneError()
    ensures Stats.CountAll([TimedOut], Stats.Bad) == 1
  {
    assert [TimedOut][..0] == [];
  }

  /** stats.go:63-66 has it that an operation the run cuts off always finds the run ended.
      A connection whose deadline was set to the context's may notice it first: a server that
      never fails is charged with an error. */
  lemma EarlyClock() returns (states: seq<Run>, actions: seq<Action>)
    ensures IsRun(Options(1, 1, false), states, actions) && ServerNeverFails(actions)
    ensures var r := states[|actions|];
            Quiescent(r) && r.outside && Stats.CountAll(r.log, Stats.Bad) == 1
  {
    hide IsRun, ServerNeverFails, Stats.CountAll, AllLive;
    var o, r := Options(1, 1, false), One(Top);
    OneError();
    states, actions, r := CutOffEarly(o);
    states, actions, r := Then(o, states, actions, r, End);
    states, actions, r := Then(o, states, actions, r, Return(0, true));
    states, actions, r := Then(o, states, actions, r, Judge(0));
  }

  /** And one whose deadline was set to so long after it was made passes it while the run
      goes on: a server that never fails is charged with an error in a run that nothing ends
      but its iterations. */
  lemma OwnDeadline() returns (states: seq<Run>, actions: seq<Action>)
    ensures IsRun(Options(1, 1, false), states, actions) && ServerNeverFails(actions)
    ensures var r := states[|actions|];
            Quiescent(r) && !r.cancelled && Stats.CountAll(r.log, Stats.Bad) == 1
  {
    hide IsRun, ServerNeverFails, Stats.CountAll, AllLive;
    var o, r := Options(1, 1, false), One(Top);
    OneError();
    states, actions, r := CutOffEarly(o);
    states, actions, r := Then(o, states, actions, r, Return(0, true));
    states, actions, r := RunsOut(o, states, actions, r, [TimedOut]);
  }

  /** The only worker's way from its only failed call to the end of its iterations. */
  lemma RunsOut(o: Options, states: seq<Run>, actions: seq<Action>, r: Run, log: seq<Stats.Obs>)
    returns (s: seq<Run>, acts: seq<Action>, t: Run)
    requires o.concurrency == 1 && o.iterations == 1 && !o.stopOnError
    requires IsRun(o, states, actions) && states[|actions|] == r && ServerNeverFails(actions)
    requires r == Run([Failed], 1, None, false, false, 1, log)
    ensures IsRun(o, s, acts) && s[|acts|] == t && ServerNeverFails(acts)
    ensures t == Run([Done], 1, Some(0), false, false, 1, log)
  {
    hide IsRun, ServerNeverFails, AllLive;
    s, acts, t := Then(o, states, actions, r, Judge(0));
    s, acts, t := Then(o, s, acts, t, Record(0));
    s, acts, t := Then(o, s, acts, t, Look(0));
    s, acts, t := Then(o, s, acts, t, Claim(0));
  }

  const Unalarmed := Stats.Entry("NOOP", 1, None, false)

  lemma FailsUnseen(o: Options) returns (states: seq<Run>, actions: seq<Action>, r: Run)
    requires o.concurrency == 1 && o.iterations == 1
    ensures IsRun(o, states, actions) && states[|actions|] == r && ServerNeverFails(actions)
    ensures r == Run([Failed], 1, None, false, false, 1, [Unalarmed])
  {
    hide IsRun, ServerNeverFails, AllLive;
    states, actions, r := InACall(o);
    states, actions, r := Then(o, states, actions, r, Succeed(0, "NOOP", 1));
    states, actions, r := Then(o, states, actions, r, Return(0, true));
  }

  lemma NoError(s: Stats.Summary)
    requires Stats.Summarises(s, [Unalarmed])
    ensures s.errors == 0
  {
    assert [Unalarmed][..0] == [] && Stats.KindOf(Unalarmed.ending) == Stats.Good;
    assert Stats.CountAll([Unalarmed], Stats.Bad) == 0;
  }

  /** README.md:336 makes the exit status non-zero when any protocol error occurred. A
      call may fail with every operation observed as a success, as a client does that finds
      its view contradicted (driver.go:303-312 of imapdrv): without StopOnError the program
      exits with zero. */
  lemma SilentFailure(s: Stats.Summary) returns (states: seq<Run>, actions: seq<Action>)
    requires Stats.Summarises(s, [Unalarmed])
    ensures IsRun(Options(1, 1, false), states, actions)
    ensures var r := states[|actions|];
            && Stats.Summarises(s, r.log) && Quiescent(r) && r.failedCalls == 1
            && !ExitsNonZero(Options(1, 1, false), r, s)
  {
    hide IsRun, ServerNeverFails, Stats.Summarises, AllLive;
    var o, r := Options(1, 1, false), One(Top);
    NoError(s);
    states, actions, r := FailsUnseen(o);
    states, actions, r := RunsOut(o, states, actions, r, [Unalarmed]);
  }

  const Late := Stats.Entry("BODY", 1, Some("554 refused"), true)

  lemma LateIsCut(s: Stats.Summary)
    requires Stats.Summarises(s, [Late])
    ensures s.errors == 0 && s.cancelled == 1
  {
    assert [Late][..0] == [] && Stats.KindOf(Late.ending) == Stats.CutOff;
    assert Stats.CountAll([Late], Stats.Bad) == 0 && Stats.CountAll([Late], Stats.CutOff) == 1;
  }

  lemma FailsAndEnds(o: Options) returns (states: seq<Run>, actions: seq<Action>, r: Run)
    requires o.concurrency == 1 && o.iterations == 0
    ensures IsRun(o, states, actions) && states[|actions|] == r && AllLive(states, actions) == 1
    ensures r == Run([Broken(ByServer)], 1, None, true, true, 0, [])
  {
    hide IsRun, ServerNeverFails, AllLive;
    states, actions, r := InACall(o);
    states, actions, r := Then(o, states, actions, r, Fail(0, ByServer));
    states, actions, r := Then(o, states, actions, r, End);
  }

  /** Nor is it non-zero when the server's failure is observed only after the duration has
      passed: it is put down to the end of the run. */
  lemma LateReport(s: Stats.Summary) returns (states: seq<Run>, actions: seq<Action>)
    requires Stats.Summarises(s, [Late])
    ensures IsRun(Options(1, 0, false), states, actions) && AllLive(states, actions) == 1
    ensures var r := states[|actions|];
            && Stats.Summarises(s, r.log) && Quiescent(r) && r.failedCalls == 1
            && !ExitsNonZero(Options(1, 0, false), r, s)
  {
    hide IsRun, ServerNeverFails, Stats.Summarises, AllLive;
    var o, r := Options(1, 0, false), One(Top);
    LateIsCut(s);
    states, actions, r := FailsAndEnds(o);
    states, actions, r := Then(o, states, actions, r, Report(0, "BODY", 1, "554 refused"));
    assert r == Run([Told], 1, None, true, true, 0, [Late]);
    states, actions, r := Then(o, states, actions, r, Return(0, true));
    states, actions, r := Then(o, states, actions, r, Judge(0));
  }

  // -------------------------------------------------------------- termination

  function Rank(p: Phase): nat {
    match p
    case Done => 0
    case Passed => 1
    case Top => 2
    case Waiting => 3
    case Stopping => 3
    case Recording => 4
    case Failed => 5
    case Told => 6
    case Broken(_) => 7
    case Calling(late) => if late then 8 else 9
  }

  /** Each step of a bounded run uses up some of this, but for an operation that succeeds:
      calls still to be claimed, steps the workers still have to take, and the end of the
      context. */
  function Remaining(o: Options, r: Run): int {
    10 * (o.iterations - r.started) + Sum(Rank, r.workers) + (if r.cancelled then 0 else 1)
  }

  function Steps(actions: seq<Action>): nat {
    if actions == [] then 0
    else Steps(actions[..|actions| - 1]) + (if actions[|actions| - 1].Succeed? then 0 else 1)
  }

  lemma EveryStepIsProgress(o: Options, r: Run, a: Action)
    requires Inv(o, r) && Possible(o, r, a) && o.iterations > 0
    ensures 0 <= Remaining(o, Apply(o, r, a)) <= Remaining(o, r) - (if a.Succeed? then 0 else 1)
  {
    hide Inv;
    StepKeepsInv(o, r, a);
    NothingOwed(o, Apply(o, r, a));
    StepUsesUp(o, r, a);
  }

  lemma StepUsesUp(o: Options, r: Run, a: Action)
    requires Possible(o, r, a) && o.iterations > 0
    ensures Remaining(o, Apply(o, r, a)) <= Remaining(o, r) - (if a.Succeed? then 0 else 1)
  {
    hide Sum;
    if !a.End? { OneMoves(o, r, a, Rank); }
  }

  /** A run bounded by iterations ends: whatever the interleaving, it has no more steps
      than this many, operations that succeed apart. */
  lemma {:induction false} RunsEnd(o: Options, states: seq<Run>, actions: seq<Action>)
    requires IsRun(o, states, actions) && o.iterations > 0
    ensures Steps(actions) + Remaining(o, states[|actions|]) <= Remaining(o, states[0])
    ensures Remaining(o, states[|actions|]) >= 0
  {
    hide Inv, Possible, Apply, Remaining;
    RunKeepsInv(o, states, actions);
    if actions == [] {
      NothingOwed(o, states[0]);
    } else {
      var n := |actions| - 1;
      RunBefore(o, states, actions);
      RunsEnd(o, states[..n + 1], actions[..n]);
      RunKeepsInv(o, states[..n + 1], actions[..n]);
      EveryStepIsProgress(o, states[n], actions[n]);
    }
  }

  lemma NothingOwed(o: Options, r: Run)
    requires Inv(o, r) && o.iterations > 0
    ensures Remaining(o, r) >= 0
  {
  }

  /** And it does not get stuck on the way: while a worker is not gone, it has a step. */
  lemma NoWorkerIsStuck(o: Options, r: Run, w: nat) returns (a: Action)
    requires w < |r.workers| && r.workers[w] != Done
    ensures Possible(o, r, a) && !a.End? && !a.Succeed? && a.w == w
  {
    match r.workers[w]
    case Waiting => a := Wake(w);
    case Top => a := Look(w);
    case Passed => a := Claim(w);
    case Calling(_) => a := Return(w, false);
    case Broken(_) => a := Report(w, "", 0, "");
    case Told => a := Return(w, true);
    case Failed => a := Judge(w);
    case Recording => a := Record(w);
    case Stopping => a := Stop(w);
  }
}

/** What holds over whole runs of the scheduler, for every interleaving of any number of engines. */
module SchedulerTheorems {
  import opened Common
  import opened EngineRun
  import opened Scheduler
  import opened SchedulerInvariant
  import opened SchedulerSteps

  /** `states` are the states passed through when `labels` are taken one after the other. */
  ghost predicate Fragment(engine: Engine, states: seq<State>, labels: seq<Label>) {
    && |states| == |labels| + 1
    && forall i :: 0 <= i < |labels| ==> Enabled(states[i], labels[i]) && states[i + 1] == Next(engine, states[i], labels[i])
  }

  ghost predicate IsRun(engine: Engine, states: seq<State>, labels: seq<Label>) {
    Fragment(engine, states, labels) && states[0] == Init
  }

  lemma {:induction false} FragmentInv(engine: Engine, states: seq<State>, labels: seq<Label>, k: nat)
    requires Fragment(engine, states, labels) && Inv(engine, states[0]) && k <= |labels|
    ensures Inv(engine, states[k])
  {
    if k > 0 {
      FragmentInv(engine, states, labels, k - 1);
      StepKeeps(engine, states[k - 1], labels[k - 1]);
    }
  }

  lemma RunInv(engine: Engine, states: seq<State>, labels: seq<Label>, k: nat)
    requires IsRun(engine, states, labels) && k <= |labels|
    ensures Inv(engine, states[k])
  {
    InitInv(engine);
    FragmentInv(engine, states, labels, k);
  }

  // ---- one round ----

  /** Steps `p` and `k` are the submission and the return of the same `calcAndWait`. */
  ghost predicate Round(engine: Engine, states: seq<State>, labels: seq<Label>, p: nat, k: nat) {
    && IsRun(engine, states, labels)
    && p < k < |labels| && labels[p].Prepare? && labels[k] == Return
    && forall i :: p < i < k ==> !labels[i].Prepare? && labels[i] != Return
  }

  lemma {:induction false} RoundKeepsJob(engine: Engine, states: seq<State>, labels: seq<Label>, p: nat, k: nat, m: nat)
    requires Round(engine, states, labels, p, k) && p < m <= k
    ensures states[m].n == labels[p].count && states[m].job == labels[p].newJob
    ensures states[m].rounds == states[p].rounds
  {
    if m > p + 1 { RoundKeepsJob(engine, states, labels, p, k, m - 1); }
  }

  /** When the submitter can wake, everything it submitted is done and no token is left behind. */
  lemma WakesOnlyWhenAllDone(engine: Engine, s: State)
    requires Inv(engine, s) && Enabled(s, Return)
    ensures s.done == s.n && s.fifo == [] && Held(s) == 0 && InFinalize(s) == 0
    ensures s.finished == 1 && Next(engine, s, Return).finished == 0
    ensures forall j: nat :: j < s.n ==> Marked(s, j)
  {
    NobodyHolds(s);
    forall j: nat | j < s.n ensures Marked(s, j) {
      forall e: nat ensures !HasPc(s, e, Marking(j)) { assert !Holds(s, e, j); }
    }
  }

  /**
   * The parallel run refines the sequential map: when `calcAndWait` returns,
   * subtask `j` reports what running it alone reports, for every `j`: what the
   * engine's function gives for the inputs of index `j`. The task is in error
   * exactly when one of them is.
   */
  lemma ParallelRefinesSequential(engine: Engine, states: seq<State>, labels: seq<Label>, p: nat, k: nat)
    requires Round(engine, states, labels, p, k)
    ensures var s, n, job := states[k], labels[p].count, labels[p].newJob;
      && s.n == n && s.job == job
      && (forall j: nat :: j < n ==> Reports(s, j, Alone(engine, job, j)))
      && (s.taskError <==> exists j: nat :: j < n && Alone(engine, job, j).Failure?)
      && (forall j: nat :: j < n ==> j < |s.slots| && ShowsOwn(engine, job, j, s.slots[j]))
      && (s.taskError <==> exists j: nat :: j < n && FailsOwn(engine, job, j))
  {
    hide ShowsOwn, FailsOwn;
    var s, n, job := states[k], labels[p].count, labels[p].newJob;
    RunInv(engine, states, labels, k);
    RoundKeepsJob(engine, states, labels, p, k, k);
    WakesOnlyWhenAllDone(engine, s);
    forall j: nat | j < n ensures Reports(s, j, Alone(engine, job, j)) {
      assert Marked(s, j);
    }
    if j: nat :| j < n && Alone(engine, job, j).Failure? {
      assert Reports(s, j, Alone(engine, job, j)) && Marked(s, j) && s.slots[j].isError;
    }
    if s.taskError {
      var j: nat :| j < s.n && j < |s.slots| && Marked(s, j) && s.slots[j].isError;
      assert Reports(s, j, Alone(engine, job, j));
    }
    forall j: nat | j < n
      ensures ShowsOwn(engine, job, j, s.slots[j]) && (Alone(engine, job, j).Failure? <==> FailsOwn(engine, job, j))
    {
      ReportShows(engine, job, s.slots[j], j);
    }
  }

  function Finalizes(labels: seq<Label>): nat {
    if labels == [] then 0
    else Finalizes(labels[..|labels| - 1]) + if labels[|labels| - 1].Finalize? then 1 else 0
  }

  lemma StepFinalizes(engine: Engine, s: State, l: Label)
    requires Enabled(s, l)
    ensures Next(engine, s, l).finalizes == s.finalizes + if l.Finalize? then 1 else 0
  {
  }

  lemma {:induction false} FinalizesCounted(engine: Engine, states: seq<State>, labels: seq<Label>, p: nat, k: nat)
    requires Fragment(engine, states, labels) && p <= k <= |labels|
    ensures states[k].finalizes == states[p].finalizes + Finalizes(labels[p..k])
  {
    hide Next, Enabled;
    if p < k {
      FinalizesCounted(engine, states, labels, p, k - 1);
      StepFinalizes(engine, states[k - 1], labels[k - 1]);
      assert labels[p..k][..k - 1 - p] == labels[p..k - 1];
    }
  }

  /** Nothing is done in a run in which no engine has been started: all there are have exited, and no round returns. */
  lemma {:induction false} NothingRunsWithoutEngine(engine: Engine, states: seq<State>, labels: seq<Label>, k: nat)
    requires IsRun(engine, states, labels) && k <= |labels|
    requires forall i :: 0 <= i < k ==> labels[i] != AddEngine(true)
    ensures AllExited(states[k])
  {
    hide Next, Enabled, AllExited;
    if k > 0 {
      NothingRunsWithoutEngine(engine, states, labels, k - 1);
      StepStaysExited(engine, states[k - 1], labels[k - 1]);
    } else {
      NoneToRun();
    }
  }

  /** No engine can take part, and no round has returned. */
  predicate AllExited(s: State) {
    s.finished == 0 && s.rounds == 0 && forall e :: 0 <= e < |s.engines| ==> s.engines[e].pc == Exited
  }

  lemma NoneToRun()
    ensures AllExited(Init)
  {
  }

  lemma StepStaysExited(engine: Engine, s: State, l: Label)
    requires Enabled(s, l) && AllExited(s) && l != AddEngine(true)
    ensures AllExited(Next(engine, s, l))
  {
    hide AfterRun, PrepareSlots;
  }

  /** Each round calls FinalizeTask exactly once, and only once all its subtasks are done. */
  lemma EachRoundFinalizesOnce(engine: Engine, states: seq<State>, labels: seq<Label>, p: nat, k: nat)
    requires Round(engine, states, labels, p, k)
    ensures Finalizes(labels[p..k]) == 1
    ensures forall i :: p < i < k && labels[i].Finalize? ==> states[i].done == states[i].n == labels[p].count
  {
    hide AfterRun, PrepareSlots, Next, Store, OnePlace, NotStranded, Results, Flag, Life;
    RunInv(engine, states, labels, p);
    RunInv(engine, states, labels, k);
    WakesOnlyWhenAllDone(engine, states[k]);
    RoundKeepsJob(engine, states, labels, p, k, k);
    FinalizesCounted(engine, states, labels, p, k);
    forall i | p < i < k && labels[i].Finalize?
      ensures states[i].done == states[i].n == labels[p].count
    {
      RunInv(engine, states, labels, i);
      RoundKeepsJob(engine, states, labels, p, k, i);
      SumAtLeast(states[i].engines, labels[i].e, IsFinalizing);
    }
  }

  /** The semaphore that ends `calcAndWait` never holds more than one token, and none outside a round. */
  lemma FinishedNeverAboveOne(engine: Engine, states: seq<State>, labels: seq<Label>, k: nat)
    requires IsRun(engine, states, labels) && k <= |labels|
    ensures states[k].finished <= 1
    ensures !states[k].sub.Posting? ==> states[k].finished == 0 && states[k].finalizes == states[k].rounds
  {
    RunInv(engine, states, labels, k);
  }

  // ---- no subtask is stranded ----

  /** A thread wakes up, or a token is posted, without a subtask to go with it. */
  predicate AddsToken(s: State, l: Label) {
    l.SpuriousWake? || l.ClosePost? || (l.Signal? && s.sub.Deleting? && s.work && HasPc(s, s.sub.next, Waiting))
  }

  ghost predicate NothingAdded(states: seq<State>, labels: seq<Label>, k: nat)
    requires k <= |labels| && |states| == |labels| + 1
  {
    forall i :: 0 <= i < k ==> !AddsToken(states[i], labels[i])
  }

  lemma {:induction false} NothingExtra(engine: Engine, states: seq<State>, labels: seq<Label>, k: nat)
    requires IsRun(engine, states, labels) && k <= |labels| && NothingAdded(states, labels, k)
    ensures states[k].extra == 0
  {
    hide Next, Enabled, AddsToken;
    if k > 0 {
      NothingExtra(engine, states, labels, k - 1);
      ExtraStays(engine, states[k - 1], labels[k - 1]);
    }
  }

  lemma ExtraStays(engine: Engine, s: State, l: Label)
    requires Enabled(s, l) && !AddsToken(s, l)
    ensures Next(engine, s, l).extra == s.extra
  {
    hide AfterRun, PrepareSlots;
  }

  /** Start tokens, threads on their way to the queue and posts still to come always cover the queue, exactly so when nothing but the submitter's posts woke anybody. */
  lemma NoSubtaskStranded(engine: Engine, states: seq<State>, labels: seq<Label>, k: nat)
    requires IsRun(engine, states, labels) && k <= |labels|
    ensures var s := states[k];
      && |s.fifo| <= s.tokens + Woke(s) + PostsLeft(s)
      && (NothingAdded(states, labels, k) ==> |s.fifo| == s.tokens + Woke(s) + PostsLeft(s))
  {
    RunInv(engine, states, labels, k);
    hide Next, Enabled, AddsToken;
    if NothingAdded(states, labels, k) { NothingExtra(engine, states, labels, k); }
  }

  // ---- progress ----

  /** Steps somebody outside has to choose: signals, new submissions, changes to the set of engines. */
  predicate External(l: Label) {
    l.SpuriousWake? || l.Prepare? || l.AddEngine? || l.Shrink? || l.BeginClose?
  }

  function SubmitterEffort(s: State): int {
    match s.sub
    case Idle => 0
    case Queueing => 10 * s.n + 2
    case Posting(left) => 5 * left + 1
    case ClosePosting(left) => 5 * left + 6 * |s.engines| + 3
    case Deleting(next, stage, _, _) =>
      6 * (|s.engines| - next) + (match stage case Asking => 1 case Signalling => 0 case Joining => -4)
    case Closed => 0
  }

  function Measure(s: State): int {
    Sum(s.engines, Effort) + 4 * s.tokens + 5 * |s.fifo| + s.finished + SubmitterEffort(s)
  }

  lemma MeasureNatural(s: State)
    requires Life(s)
    ensures Measure(s) >= 0
  {
  }

  predicate IsSubmitterStep(l: Label) {
    l == Queue || l == Post || l == Return || l == ClosePost || l == Stop || l == Signal || l == Join
  }

  lemma InvMeasure(engine: Engine, s: State)
    requires Inv(engine, s)
    ensures Measure(s) >= 0
  {
    MeasureNatural(s);
  }

  lemma SubmitterStepsDecrease(engine: Engine, s: State, l: Label)
    requires Life(s) && Enabled(s, l) && IsSubmitterStep(l)
    ensures Measure(Next(engine, s, l)) < Measure(s)
  {
    hide Next, Enabled, Measure, Life;
    if l == Signal { SignalDecreases(engine, s); }
    else if l == Stop { StopDecreases(engine, s); }
    else { PostsDecrease(engine, s, l); }
  }

  lemma PostsDecrease(engine: Engine, s: State, l: Label)
    requires Enabled(s, l) && (l == Queue || l == Post || l == Return || l == ClosePost || l == Join)
    requires Life(s)
    ensures Measure(Next(engine, s, l)) < Measure(s)
  {
    hide AfterRun, PrepareSlots, Sum, Asleep;
  }

  lemma StopDecreases(engine: Engine, s: State)
    requires Life(s) && Enabled(s, Stop)
    ensures Measure(Next(engine, s, Stop)) < Measure(s)
  {
    hide AfterRun, PrepareSlots, Sum;
    StopCounts(engine, s, Next(engine, s, Stop));
  }

  lemma SignalDecreases(engine: Engine, s: State)
    requires Enabled(s, Signal)
    ensures Measure(Next(engine, s, Signal)) < Measure(s)
  {
    hide AfterRun, PrepareSlots, Sum;
    var t := Next(engine, s, Signal);
    assert t.engines == s.engines[s.sub.next := t.engines[s.sub.next]];
    SumUpdate(s.engines, s.sub.next, t.engines[s.sub.next], Effort);
  }

  lemma EngineStepsDecrease(engine: Engine, s: State, l: Label)
    requires Enabled(s, l)
    requires l.CheckLoop? || l.Block? || l.TakeToken? || l.Extract? || l.Run? || l.Mark? || l.Count? || l.Finalize?
    ensures Measure(Next(engine, s, l)) < Measure(s)
  {
    hide AfterRun, PrepareSlots, Sum;
    var t := Next(engine, s, l);
    assert t.engines == s.engines[l.e := t.engines[l.e]] && t.sub == s.sub && t.n == s.n;
    SumUpdate(s.engines, l.e, t.engines[l.e], Effort);
    assert SubmitterEffort(t) == SubmitterEffort(s);
  }

  /** Every internal step brings the system closer to rest. */
  lemma InternalStepsDecrease(engine: Engine, s: State, l: Label)
    requires Inv(engine, s) && Enabled(s, l) && !External(l)
    ensures 0 <= Measure(Next(engine, s, l)) < Measure(s)
  {
    StepKeeps(engine, s, l);
    MeasureNatural(Next(engine, s, l));
    if IsSubmitterStep(l) {
      SubmitterStepsDecrease(engine, s, l);
    } else {
      EngineStepsDecrease(engine, s, l);
    }
  }

  ghost predicate Quiet(s: State) {
    forall l :: Enabled(s, l) ==> External(l)
  }

  predicate InRound(s: State) { s.sub == Queueing || s.sub.Posting? }

  predicate SomeEngine(s: State) { exists e :: 0 <= e < |s.engines| && s.engines[e].pc != Exited }

  /** The steps an engine takes unaided. */
  function OwnLabels(e: nat): set<Label> {
    {CheckLoop(e), Block(e), Extract(e), Run(e), Mark(e), Count(e), Finalize(e)}
  }

  /** An engine that is neither waiting nor gone can take a step. */
  lemma AwakeCanStep(engine: Engine, s: State, e: nat) returns (l: Label)
    requires Inv(engine, s) && e < |s.engines| && s.engines[e].pc != Waiting && s.engines[e].pc != Exited
    ensures Enabled(s, l) && l in OwnLabels(e) && !External(l)
  {
    var pc := s.engines[e].pc;
    if pc.Running? || pc.Marking? || pc.Counting? { assert Holds(s, e, pc.slot); }
    l := match pc
      case Head => CheckLoop(e)
      case Entering => Block(e)
      case Woken => Extract(e)
      case Running(_) => Run(e)
      case Marking(_) => Mark(e)
      case Counting(_) => Count(e)
      case _ => Finalize(e);
  }

  /** A round under way with an engine to serve it is never stuck. */
  lemma RoundNotStuck(engine: Engine, s: State)
    requires Inv(engine, s) && InRound(s) && SomeEngine(s)
    ensures !Quiet(s)
  {
    if s.sub == Queueing { assert Enabled(s, Queue); }
    else if s.sub.left > 0 { assert Enabled(s, Post); }
    else if e: nat :| e < |s.engines| && s.engines[e].pc != Waiting && s.engines[e].pc != Exited {
      var l := AwakeCanStep(engine, s, e);
    } else {
      AllAsleep(s);
      if s.done == s.n { assert Enabled(s, Return); }
      else {
        var e: nat :| e < |s.engines| && s.engines[e].pc != Exited;
        assert Enabled(s, TakeToken(e));
      }
    }
  }

  lemma AllAsleep(s: State)
    requires forall e :: 0 <= e < |s.engines| ==> s.engines[e].pc == Waiting || s.engines[e].pc == Exited
    ensures Woke(s) == 0 && Held(s) == 0 && InFinalize(s) == 0
  {
    if Woke(s) > 0 { var e := SumWitness(s.engines, IsWoken); }
    if Held(s) > 0 { var e := SumWitness(s.engines, IsHolding); }
    if InFinalize(s) > 0 { var e := SumWitness(s.engines, IsFinalizing); }
  }

  /** An internal fragment is no longer than the measure of its first state. */
  lemma {:induction false} FragmentBounded(engine: Engine, states: seq<State>, labels: seq<Label>, k: nat)
    requires Fragment(engine, states, labels) && Inv(engine, states[0]) && k <= |labels|
    requires forall i :: 0 <= i < k ==> !External(labels[i])
    ensures Measure(states[k]) + k <= Measure(states[0])
    ensures k > 0 ==> 0 <= Measure(states[k])
  {
    if k > 0 {
      FragmentBounded(engine, states, labels, k - 1);
      FragmentInv(engine, states, labels, k - 1);
      InternalStepsDecrease(engine, states[k - 1], labels[k - 1]);
    }
  }

  lemma EnginesStay(engine: Engine, s: State, l: Label)
    requires Inv(engine, s) && Enabled(s, l) && !External(l)
    requires InRound(s) || s.sub == Idle
    requires SomeEngine(s)
    ensures SomeEngine(Next(engine, s, l))
    ensures var t := Next(engine, s, l);
      if l == Return || s.sub == Idle then t.sub == Idle else InRound(t)
  {
    var e :| 0 <= e < |s.engines| && s.engines[e].pc != Exited;
    assert Next(engine, s, l).engines[e].pc != Exited;
  }

  /** Within a round no engine leaves; internal steps only end the round by returning. */
  lemma {:induction false} RoundOrReturned(engine: Engine, states: seq<State>, labels: seq<Label>, k: nat)
    requires Fragment(engine, states, labels) && Inv(engine, states[0]) && k <= |labels|
    requires InRound(states[0]) && SomeEngine(states[0])
    requires forall i :: 0 <= i < k ==> !External(labels[i])
    ensures SomeEngine(states[k])
    ensures InRound(states[k]) || (states[k].sub == Idle && exists i :: 0 <= i < k && labels[i] == Return)
  {
    if k > 0 {
      RoundOrReturned(engine, states, labels, k - 1);
      FragmentInv(engine, states, labels, k - 1);
      EnginesStay(engine, states[k - 1], labels[k - 1]);
    }
  }

  /**
   * Progress of a round: with an engine to serve it, a run of internal steps
   * is finite, and one that cannot be continued has returned from `calcAndWait`.
   */
  lemma EveryMaximalRunReturns(engine: Engine, states: seq<State>, labels: seq<Label>)
    requires Fragment(engine, states, labels) && Inv(engine, states[0])
    requires InRound(states[0]) && SomeEngine(states[0])
    requires forall i :: 0 <= i < |labels| ==> !External(labels[i])
    ensures |labels| <= Measure(states[0])
    ensures Quiet(states[|labels|]) ==> exists i :: 0 <= i < |labels| && labels[i] == Return
  {
    var k := |labels|;
    FragmentBounded(engine, states, labels, k);
    FragmentInv(engine, states, labels, k);
    RoundOrReturned(engine, states, labels, k);
    if InRound(states[k]) { RoundNotStuck(engine, states[k]); }
  }

  // ---- shutdown ----

  lemma ClosingNotStuck(engine: Engine, s: State)
    requires Inv(engine, s) && Closing(s) && s.sub != Closed
    ensures !Quiet(s)
  {
    if s.sub.ClosePosting? { assert Enabled(s, ClosePost); }
    else if s.sub.stage.Asking? { assert Enabled(s, Stop); }
    else if s.sub.stage.Signalling? { assert Enabled(s, Signal); }
    else {
      var e := s.sub.next;
      match s.engines[e].pc
      case Exited => assert Enabled(s, Join);
      case Waiting =>
        SumAtLeast(s.engines, e, IsWaiting);
        assert Enabled(s, TakeToken(e));
      case _ => var l := AwakeCanStep(engine, s, e);
    }
  }

  lemma {:induction false} StaysClosing(engine: Engine, states: seq<State>, labels: seq<Label>, k: nat)
    requires Fragment(engine, states, labels) && k <= |labels| && Closing(states[0])
    ensures Closing(states[k])
  {
    hide AfterRun, PrepareSlots, Sum;
    if k > 0 { StaysClosing(engine, states, labels, k - 1); }
  }

  /**
   * Shutdown completeness: once the destructor has begun, internal steps run
   * out, and when they have, every engine thread has exited and every join has
   * returned, each thread having taken at most one more start token.
   */
  lemma ShutdownCompletes(engine: Engine, states: seq<State>, labels: seq<Label>)
    requires Fragment(engine, states, labels) && Inv(engine, states[0]) && Closing(states[0])
    requires forall i :: 0 <= i < |labels| ==> !External(labels[i])
    ensures |labels| <= Measure(states[0])
    ensures var last := states[|labels|];
      && (forall e :: 0 <= e < |last.engines| ==> last.engines[e].lateTokens <= 1)
      && (Quiet(last) ==> last.sub == Closed && forall e :: 0 <= e < |last.engines| ==> last.engines[e].pc == Exited)
  {
    var k := |labels|;
    FragmentBounded(engine, states, labels, k);
    FragmentInv(engine, states, labels, k);
    StaysClosing(engine, states, labels, k);
    if states[k].sub != Closed { ClosingNotStuck(engine, states[k]); }
  }

  // ---- removal of engines ----

  /** Removal is under way, as opposed to the destructor. */
  predicate Removing(s: State) { s.sub.Deleting? && !s.sub.closing }

  /** The thread to be joined was not blocked when the signal came, and has taken no token since. */
  predicate Doomed(s: State) {
    Removing(s) && s.sub.stage.Joining? && (HasPc(s, s.sub.next, Entering) || HasPc(s, s.sub.next, Waiting))
  }

  /** Removal hangs in exactly these states: the thread to be joined sleeps, so does every other, and there is no token. */
  lemma RemovalStuckIff(engine: Engine, s: State)
    requires Inv(engine, s) && Removing(s)
    ensures Quiet(s) <==>
      && s.sub.stage.Joining? && s.tokens == 0 && HasPc(s, s.sub.next, Waiting)
      && forall e :: 0 <= e < |s.engines| ==> s.engines[e].pc == Waiting || s.engines[e].pc == Exited
  {
    hide Store, OnePlace, Counted, FinishedOnce, NotStranded, Results, Flag;
    if Quiet(s) {
      assert !Enabled(s, Stop) && !Enabled(s, Signal) && !Enabled(s, Join);
      forall e | 0 <= e < |s.engines| ensures s.engines[e].pc == Waiting || s.engines[e].pc == Exited {
        if s.engines[e].pc != Waiting && s.engines[e].pc != Exited { var l := AwakeCanStep(engine, s, e); }
      }
      assert !Enabled(s, TakeToken(s.sub.next));
    } else {
      var l :| Enabled(s, l) && !External(l);
      assert s.sub.stage.Joining? && s.tokens == 0 && HasPc(s, s.sub.next, Waiting) ==>
        !l.TakeToken? && l != Join && l != Stop && l != Signal;
    }
  }

  /** The stop signal reaches a thread that is past its loop condition and not blocked yet. */
  predicate LosesSignal(s: State, l: Label) {
    l.Signal? && Removing(s) && HasPc(s, s.sub.next, Entering)
  }

  /** What a step does to the thread that is waited for. */
  lemma DoomedStep(engine: Engine, s: State, l: Label)
    requires Inv(engine, s) && Removing(s) && Enabled(s, l) && !External(l)
    ensures var t := Next(engine, s, l);
      && (Doomed(t) <==> LosesSignal(s, l) || (Doomed(s) && l != TakeToken(s.sub.next)))
      && (Doomed(t) ==> t.sub.next == s.sub.next)
      && (Removing(t) || t.sub == Idle)
  {
    hide AfterRun, PrepareSlots, Sum, Store, OnePlace, Counted, FinishedOnce, NotStranded, Results, Flag;
  }

  /** After a removal has returned, internal steps do not start another. */
  lemma IdleStep(engine: Engine, s: State, l: Label)
    requires s.sub == Idle && Enabled(s, l) && !External(l)
    ensures Next(engine, s, l).sub == Idle
  {
    hide AfterRun, PrepareSlots;
  }

  /** At step `i` the signal for a thread was lost, and up to step `k` that thread took no token. */
  ghost predicate LostFor(states: seq<State>, labels: seq<Label>, i: nat, k: nat)
    requires i < k <= |labels| && |states| == |labels| + 1
  {
    LosesSignal(states[i], labels[i])
    && forall j :: i < j < k ==> labels[j] != TakeToken(states[i].sub.next)
  }

  /** Within a run of internal steps, a thread is doomed exactly when its signal was lost and it took no token since. */
  lemma {:induction false} DoomedIffLost(engine: Engine, states: seq<State>, labels: seq<Label>, k: nat)
    requires Fragment(engine, states, labels) && Inv(engine, states[0]) && k <= |labels|
    requires Removing(states[0]) && states[0].sub.stage.Asking?
    requires forall i :: 0 <= i < k ==> !External(labels[i])
    ensures Removing(states[k]) || states[k].sub == Idle
    ensures Doomed(states[k]) <==> exists i: nat :: i < k && LostFor(states, labels, i, k)
    ensures forall i: nat :: i < k && LostFor(states, labels, i, k) ==> Doomed(states[k]) && states[k].sub.next == states[i].sub.next
  {
    hide Next, Enabled, Inv, Doomed, LosesSignal;
    if k == 0 {
      NotDoomedYet(states[0]);
    } else {
      DoomedIffLost(engine, states, labels, k - 1);
      FragmentInv(engine, states, labels, k - 1);
      DoomedOneMore(engine, states, labels, k - 1, k);
    }
  }

  lemma NotDoomedYet(s: State)
    requires Removing(s) && s.sub.stage.Asking?
    ensures !Doomed(s)
  {
  }

  /** The induction step, from step `k` to step `m`. */
  lemma DoomedOneMore(engine: Engine, states: seq<State>, labels: seq<Label>, k: nat, m: nat)
    requires |states| == |labels| + 1 && k < |labels| && m == k + 1
    requires Enabled(states[k], labels[k]) && states[m] == Next(engine, states[k], labels[k])
    requires Inv(engine, states[k]) && !External(labels[k])
    requires Removing(states[k]) || states[k].sub == Idle
    requires Doomed(states[k]) <==> exists i: nat :: i < k && LostFor(states, labels, i, k)
    requires forall i: nat :: i < k && LostFor(states, labels, i, k) ==> Doomed(states[k]) && states[k].sub.next == states[i].sub.next
    ensures Removing(states[m]) || states[m].sub == Idle
    ensures Doomed(states[m]) <==> exists i: nat :: i < m && LostFor(states, labels, i, m)
    ensures forall i: nat :: i < m && LostFor(states, labels, i, m) ==>
              Doomed(states[m]) && states[m].sub.next == states[i].sub.next
  {
    var s, l := states[k], labels[k];
    if s.sub == Idle {
      IdleStep(engine, s, l);
      forall i: nat | i < m ensures !LostFor(states, labels, i, m) {
        if i < k { assert !LostFor(states, labels, i, k); }
      }
    } else {
      hide Next, Enabled, Inv, Doomed;
      DoomedStep(engine, s, l);
      LostOneMore(states, labels, k, m);
    }
  }

  /** What has been lost one step later. */
  lemma LostOneMore(states: seq<State>, labels: seq<Label>, k: nat, m: nat)
    requires |states| == |labels| + 1 && k < |labels| && m == k + 1
    requires Doomed(states[k]) <==> exists i: nat :: i < k && LostFor(states, labels, i, k)
    requires forall i: nat :: i < k && LostFor(states, labels, i, k) ==> Doomed(states[k]) && states[k].sub.next == states[i].sub.next
    requires Removing(states[k]) && (LosesSignal(states[k], labels[k]) ==> !Doomed(states[k]))
    requires Doomed(states[m]) <==>
      LosesSignal(states[k], labels[k]) || (Doomed(states[k]) && labels[k] != TakeToken(states[k].sub.next))
    requires Doomed(states[m]) ==> states[m].sub.next == states[k].sub.next
    ensures Doomed(states[m]) <==> exists i: nat :: i < m && LostFor(states, labels, i, m)
    ensures forall i: nat :: i < m && LostFor(states, labels, i, m) ==>
              Doomed(states[m]) && states[m].sub.next == states[i].sub.next
  {
    hide Doomed;
    var s, l := states[k], labels[k];
    forall i: nat | i < k ensures LostFor(states, labels, i, m) <==>
      LostFor(states, labels, i, k) && l != TakeToken(states[i].sub.next) { }
    if LosesSignal(s, l) { assert LostFor(states, labels, k, m); }
    else if Doomed(s) && l != TakeToken(s.sub.next) {
      var i: nat :| i < k && LostFor(states, labels, i, k);
      assert LostFor(states, labels, i, m);
    }
  }

  /**
   * A removal that runs until nothing more can happen has returned if and only
   * if every stop signal found its thread exited, blocked, or not yet past its
   * loop condition, or the thread took a spare start token later.
   */
  /** A removal of the engines from number `keep` on is under way, or has returned. */
  predicate Keeps(s: State, keep: nat, engines: nat) {
    keep <= engines &&
    if s.sub == Idle then |s.engines| == keep
    else Removing(s) && s.sub.keep == keep <= s.sub.next && |s.engines| == engines
  }

  lemma RemovalKeeps(engine: Engine, s: State)
    requires Inv(engine, s) && Removing(s)
    ensures Keeps(s, s.sub.keep, |s.engines|)
  {
    hide Store, OnePlace, Counted, FinishedOnce, NotStranded, Results, Flag;
  }

  lemma StepKeepsTheFirst(engine: Engine, s: State, l: Label, keep: nat, engines: nat)
    requires Enabled(s, l) && !External(l) && Keeps(s, keep, engines)
    ensures var t := Next(engine, s, l);
      Keeps(t, keep, engines) && forall e :: 0 <= e < keep ==> t.engines[e].shouldRun == s.engines[e].shouldRun
  {
    hide AfterRun, PrepareSlots;
  }

  /** A removal that has returned leaves the first engines, as many as it was to keep, and has told none of them to stop. */
  lemma {:induction false} RemovalKeepsTheFirst(engine: Engine, states: seq<State>, labels: seq<Label>, k: nat)
    requires Fragment(engine, states, labels) && k <= |labels| && Removing(states[0])
    requires Keeps(states[0], states[0].sub.keep, |states[0].engines|)
    requires forall i :: 0 <= i < k ==> !External(labels[i])
    ensures var s, t := states[0], states[k];
      && Keeps(t, s.sub.keep, |s.engines|)
      && forall e :: 0 <= e < s.sub.keep ==> t.engines[e].shouldRun == s.engines[e].shouldRun
  {
    hide Next, Enabled;
    if k > 0 {
      RemovalKeepsTheFirst(engine, states, labels, k - 1);
      StepKeepsTheFirst(engine, states[k - 1], labels[k - 1], states[0].sub.keep, |states[0].engines|);
    }
  }

  lemma RemovalReturnsIff(engine: Engine, states: seq<State>, labels: seq<Label>)
    requires Fragment(engine, states, labels) && Inv(engine, states[0])
    requires Removing(states[0]) && states[0].sub.stage.Asking?
    requires forall i :: 0 <= i < |labels| ==> !External(labels[i])
    ensures |labels| <= Measure(states[0])
    ensures var k := |labels|;
      Quiet(states[k]) ==> (states[k].sub == Idle <==> !exists i: nat :: i < k && LostFor(states, labels, i, k))
    ensures states[|labels|].sub == Idle ==> |states[|labels|].engines| == states[0].sub.keep
  {
    hide Next, Enabled, Inv, LosesSignal;
    var k := |labels|;
    RemovalKeeps(engine, states[0]);
    RemovalKeepsTheFirst(engine, states, labels, k);
    FragmentBounded(engine, states, labels, k);
    FragmentInv(engine, states, labels, k);
    InvMeasure(engine, states[k]);
    DoomedIffLost(engine, states, labels, k);
    if Quiet(states[k]) && Removing(states[k]) { RemovalStuckIff(engine, states[k]); }
  }

  ghost predicate Reachable(engine: Engine, s: State) {
    exists states, labels :: IsRun(engine, states, labels) && states[|labels|] == s
  }

  lemma InitReachable(engine: Engine)
    ensures Reachable(engine, Init)
  {
    assert IsRun(engine, [Init], []);
  }

  lemma StepReachable(engine: Engine, s: State, l: Label, t: State)
    requires Reachable(engine, s) && Enabled(s, l) && t == Next(engine, s, l)
    ensures Reachable(engine, t)
  {
    var states, labels :| IsRun(engine, states, labels) && states[|labels|] == s;
    assert IsRun(engine, states + [t], labels + [l]);
  }

  /** Two engines wait; the signal that should have stopped one of them was lost. */
  const Stuck := Init.(engines := [EngineThread(Waiting, true, 0), EngineThread(Waiting, false, 0)],
                       sub := Deleting(1, Joining, 1, false))

  /** The second engine is past its loop condition, the first one waits. */
  const Late := Init.(engines := [EngineThread(Waiting, true, 0), EngineThread(Entering, true, 0)])

  lemma LateReachable(engine: Engine)
    ensures Reachable(engine, Late)
  {
    var head, entering, waiting := EngineThread(Head, true, 0), EngineThread(Entering, true, 0), EngineThread(Waiting, true, 0);
    var s1 := Init.(engines := [head]);
    var s2 := Init.(engines := [head, head]);
    var s3 := Init.(engines := [entering, head]);
    var s4 := Init.(engines := [waiting, head]);
    InitReachable(engine);
    StepReachable(engine, Init, AddEngine(true), s1);
    StepReachable(engine, s1, AddEngine(true), s2);
    StepReachable(engine, s2, CheckLoop(0), s3);
    StepReachable(engine, s3, Block(0), s4);
    StepReachable(engine, s4, CheckLoop(1), Late);
  }

  /** It does happen: the signal arrives between a thread's look at its loop condition and its wait, and the join never returns. */
  lemma ShrinkCanWaitForever(engine: Engine)
    ensures Reachable(engine, Stuck)
    ensures Removing(Stuck) && Quiet(Stuck)
  {
    hide Inv, Reachable;
    var s6 := Late.(sub := Deleting(1, Asking, 1, false));
    var s7 := Late.(engines := [EngineThread(Waiting, true, 0), EngineThread(Entering, false, 0)],
                    sub := Deleting(1, Signalling, 1, false));
    var s8 := s7.(sub := Deleting(1, Joining, 1, false));
    LateReachable(engine);
    StepReachable(engine, Late, Shrink(1), s6);
    StepReachable(engine, s6, Stop, s7);
    assert LosesSignal(s7, Signal);
    StepReachable(engine, s7, Signal, s8);
    StepReachable(engine, s8, Block(1), Stuck);
    ReachableInv(engine, Stuck);
    RemovalStuckIff(engine, Stuck);
  }

  lemma ReachableInv(engine: Engine, s: State)
    requires Reachable(engine, s)
    ensures Inv(engine, s)
  {
    var states, labels :| IsRun(engine, states, labels) && states[|labels|] == s;
    RunInv(engine, states, labels, |labels|);
  }
}

/**
 * Calls handed to the single MATLAB engine thread, as a transition system. Any
 * number of threads queue calls; a synchronous caller waits on a semaphore of
 * its own call. The queue holds eight calls and may refuse one unnoticed.
 */
module MatHandle {
  import opened Common

  const QUEUE_SIZE := 8

  datatype CallPc = Queueing | CallPosting | Awaiting | Returned

  /** A call: how often its callback has run, and the tokens in its own semaphore. */
  datatype Call = Call(isSync: bool, pc: CallPc, accepted: bool, runs: nat, sema: nat)

  datatype EnginePc = Head | Waiting | Extracting | Running(call: nat) | Informing(call: nat) | Exited

  datatype StopPc = NotStopped | StopPosting | Stopped

  /** `accepted` and `executed` are histories: calls in the order of entering the queue, and of their callbacks' runs. */
  datatype State = State(run: bool, open: bool, queue: seq<nat>, sema: nat, engine: EnginePc, stop: StopPc,
                         calls: seq<Call>, accepted: seq<nat>, executed: seq<nat>)

  datatype Label = Begin(isSync: bool) | Caller(call: nat) | Engine | StopClears | StopPosts

  const Init := State(true, true, [], 0, Head, NotStopped, [], [], [])

  function SetCall(s: State, c: nat, call: Call): State
    requires c < |s.calls|
  {
    s.(calls := s.calls[c := call])
  }

  predicate Enabled(s: State, l: Label) {
    match l
    case Begin(_) => s.open
    case Caller(c) =>
      c < |s.calls| && s.calls[c].pc != Returned && (s.calls[c].pc == Awaiting ==> s.calls[c].sema > 0)
    case Engine =>
      (match s.engine
       case Waiting => s.sema > 0
       case Running(c) => c < |s.calls|
       case Informing(c) => c < |s.calls|
       case Exited => false
       case _ => true)
    case StopClears => s.run && s.stop == NotStopped
    case StopPosts => s.stop == StopPosting
  }

  function NextCaller(s: State, c: nat): State
    requires c < |s.calls|
  {
    var call := s.calls[c];
    match call.pc
    case Queueing =>
      if |s.queue| < QUEUE_SIZE then
        SetCall(s, c, call.(pc := CallPosting, accepted := true)).(queue := s.queue + [c], accepted := s.accepted + [c])
      else SetCall(s, c, call.(pc := CallPosting))
    case CallPosting =>
      SetCall(s, c, call.(pc := if call.isSync then Awaiting else Returned)).(sema := s.sema + 1)
    case Awaiting => if call.sema > 0 then SetCall(s, c, call.(pc := Returned, sema := call.sema - 1)) else s
    case Returned => s
  }

  function NextEngine(s: State): State
    requires Enabled(s, Engine)
  {
    match s.engine
    case Head => if s.run then s.(engine := Waiting) else s.(open := false, engine := Exited)
    case Waiting => s.(sema := s.sema - 1, engine := Extracting)
    case Extracting =>
      if s.queue == [] then s.(engine := Head) else s.(engine := Running(s.queue[0]), queue := s.queue[1..])
    case Running(c) =>
      SetCall(s, c, s.calls[c].(runs := s.calls[c].runs + 1)).(executed := s.executed + [c], engine := Informing(c))
    case Informing(c) =>
      SetCall(s, c, if s.calls[c].isSync then s.calls[c].(sema := s.calls[c].sema + 1) else s.calls[c]).(engine := Extracting)
    case Exited => s
  }

  function Next(s: State, l: Label): State
    requires Enabled(s, l)
  {
    match l
    case Begin(isSync) => s.(calls := s.calls + [Call(isSync, Queueing, false, 0, 0)])
    case Caller(c) => NextCaller(s, c)
    case Engine => NextEngine(s)
    case StopClears => s.(run := false, stop := StopPosting)
    case StopPosts => s.(sema := s.sema + 1, stop := Stopped)
  }

  // ---- what every step keeps ----

  function InHand(engine: EnginePc): seq<nat> {
    if engine.Running? then [engine.call] else []
  }

  /** The callback of `c` has run, and a synchronous caller has been told. */
  predicate Informed(s: State, c: nat) {
    c in s.executed && s.engine != Informing(c)
  }

  predicate CallFits(s: State, c: nat)
    requires c < |s.calls|
  {
    var call := s.calls[c];
    && (c in s.accepted <==> call.accepted)
    && (call.pc == Queueing ==> !call.accepted) && (call.pc == Awaiting ==> call.isSync)
    && call.runs == (if c in s.executed then 1 else 0)
    && (call.isSync ==> (Informed(s, c) <==> call.sema == 1 || call.pc == Returned))
    && call.sema == (if call.isSync && Informed(s, c) && call.pc != Returned then 1 else 0)
  }

  /** Calls leave in the order in which they entered. */
  ghost predicate Ordered(s: State) {
    && s.accepted == s.executed + InHand(s.engine) + s.queue
    && Distinct(s.accepted)
    && (forall c :: c in s.accepted ==> c < |s.calls|)
    && (s.engine.Informing? ==> s.engine.call in s.executed)
  }

  predicate PostIsComing(s: State) {
    s.stop == StopPosting || exists c :: 0 <= c < |s.calls| && s.calls[c].pc == CallPosting
  }

  predicate Woken(s: State) {
    (s.engine == Head || s.engine == Waiting) && s.queue != [] ==> s.sema > 0 || PostIsComing(s)
  }

  ghost predicate Inv(s: State) {
    && (forall c :: 0 <= c < |s.calls| ==> CallFits(s, c))
    && Ordered(s) && Woken(s)
  }

  lemma InitHolds()
    ensures Inv(Init)
  {
  }

  lemma BeginKeeps(s: State, isSync: bool)
    requires Inv(s) && s.open
    ensures Inv(Next(s, Begin(isSync)))
  {
    var t := Next(s, Begin(isSync));
    forall c | 0 <= c < |t.calls| ensures CallFits(t, c) {
      if c < |s.calls| { assert CallFits(s, c) && t.calls[c] == s.calls[c]; }
    }
    if PostIsComing(s) && s.stop != StopPosting {
      var c :| 0 <= c < |s.calls| && s.calls[c].pc == CallPosting;
      assert t.calls[c].pc == CallPosting;
    }
  }

  lemma QueueingKeeps(s: State, c: nat)
    requires Inv(s) && Enabled(s, Caller(c)) && s.calls[c].pc == Queueing
    ensures Inv(NextCaller(s, c))
  {
    var t := NextCaller(s, c);
    assert CallFits(s, c) && t.calls[c].pc == CallPosting;
    forall k | 0 <= k < |t.calls| ensures CallFits(t, k) { assert CallFits(s, k); }
    if |s.queue| < QUEUE_SIZE {
      assert t.accepted == t.executed + InHand(t.engine) + t.queue;
    }
  }

  lemma CallerKeeps(s: State, c: nat)
    requires Inv(s) && Enabled(s, Caller(c)) && s.calls[c].pc != Queueing
    ensures Inv(NextCaller(s, c))
  {
    var t := NextCaller(s, c);
    assert CallFits(s, c);
    forall k | 0 <= k < |t.calls| ensures CallFits(t, k) { assert CallFits(s, k); }
    if s.calls[c].pc == Awaiting && PostIsComing(s) && s.stop != StopPosting {
      var other :| 0 <= other < |s.calls| && s.calls[other].pc == CallPosting;
      assert t.calls[other].pc == CallPosting;
    }
  }

  lemma RunningKeeps(s: State)
    requires Inv(s) && Enabled(s, Engine) && s.engine.Running?
    ensures Inv(NextEngine(s))
  {
    var t, c := NextEngine(s), s.engine.call;
    assert s.accepted[|s.executed|] == c;
    forall i | 0 <= i < |s.executed| ensures s.executed[i] != c { assert s.accepted[i] == s.executed[i]; }
    assert c !in s.executed;
    assert t.accepted == t.executed + InHand(t.engine) + t.queue;
    forall k | 0 <= k < |t.calls| ensures CallFits(t, k) { assert CallFits(s, k); }
  }

  lemma InformingKeeps(s: State)
    requires Inv(s) && Enabled(s, Engine) && s.engine.Informing?
    ensures Inv(NextEngine(s))
  {
    var t, c := NextEngine(s), s.engine.call;
    forall k | 0 <= k < |t.calls| ensures CallFits(t, k) { assert CallFits(s, k); }
  }

  lemma EngineKeeps(s: State)
    requires Inv(s) && Enabled(s, Engine) && !s.engine.Running? && !s.engine.Informing?
    ensures Inv(NextEngine(s))
  {
    var t := NextEngine(s);
    if s.engine == Extracting && s.queue != [] {
      assert t.accepted == t.executed + InHand(t.engine) + t.queue by {
        assert s.queue == [s.queue[0]] + s.queue[1..];
      }
    }
    forall k | 0 <= k < |t.calls| ensures CallFits(t, k) { assert CallFits(s, k); }
    assert PostIsComing(s) ==> PostIsComing(t);
  }

  lemma StopKeeps(s: State, l: Label)
    requires Inv(s) && Enabled(s, l) && (l.StopClears? || l.StopPosts?)
    ensures Inv(Next(s, l))
  {
    var t := Next(s, l);
    forall k | 0 <= k < |t.calls| ensures CallFits(t, k) { assert CallFits(s, k); }
  }

  lemma StepKeeps(s: State, l: Label)
    requires Inv(s) && Enabled(s, l)
    ensures Inv(Next(s, l))
  {
    hide Inv;
    match l
    case Begin(isSync) => BeginKeeps(s, isSync);
    case Caller(c) => if s.calls[c].pc == Queueing { QueueingKeeps(s, c); } else { CallerKeeps(s, c); }
    case Engine =>
      if s.engine.Running? { RunningKeeps(s); }
      else if s.engine.Informing? { InformingKeeps(s); }
      else { EngineKeeps(s); }
    case StopClears => StopKeeps(s, l);
    case StopPosts => StopKeeps(s, l);
  }

  // ---- runs ----

  predicate IsRun(states: seq<State>, labels: seq<Label>) {
    && |states| == |labels| + 1
    && states[0] == Init
    && forall i :: 0 <= i < |labels| ==> Enabled(states[i], labels[i]) && states[i + 1] == Next(states[i], labels[i])
  }

  lemma {:induction false} RunInv(states: seq<State>, labels: seq<Label>, k: nat)
    requires IsRun(states, labels) && k <= |labels|
    ensures Inv(states[k])
  {
    hide Inv, Next;
    if k == 0 {
      InitHolds();
    } else {
      RunInv(states, labels, k - 1);
      StepKeeps(states[k - 1], labels[k - 1]);
    }
  }

  /**
   * A synchronous call has returned only when its own callback has run exactly
   * once; no callback of any call ever runs twice; and callbacks run in the
   * order in which their calls were accepted.
   */
  lemma SyncReturnsAfterItsOwnRun(states: seq<State>, labels: seq<Label>, k: nat, c: nat)
    requires IsRun(states, labels) && k <= |labels| && c < |states[k].calls|
    ensures var s, call := states[k], states[k].calls[c];
      && call.runs <= 1
      && (call.runs == 1 ==> call.accepted)
      && (call.isSync && call.pc == Returned ==> call.runs == 1)
      && s.executed <= s.accepted && Distinct(s.executed)
  {
    RunInv(states, labels, k);
    var s := states[k];
    assert CallFits(s, c);
    assert s.accepted[..|s.executed|] == s.executed;
    forall i, j | 0 <= i < j < |s.executed| ensures s.executed[i] != s.executed[j] {
      assert s.accepted[i] == s.executed[i] && s.accepted[j] == s.executed[j];
    }
    if c in s.executed { assert c in s.accepted; }
  }

  /** A synchronous call that the queue refused does not return, ever. */
  lemma RefusedSyncNeverReturns(states: seq<State>, labels: seq<Label>, k: nat, c: nat)
    requires IsRun(states, labels) && k <= |labels| && c < |states[k].calls|
    requires states[k].calls[c].isSync && states[k].calls[c].pc != Queueing && !states[k].calls[c].accepted
    ensures states[k].calls[c].pc != Returned && states[k].calls[c].runs == 0
  {
    SyncReturnsAfterItsOwnRun(states, labels, k, c);
  }

  ghost predicate Reachable(s: State) {
    exists states, labels :: IsRun(states, labels) && states[|labels|] == s
  }

  lemma InitReachable()
    ensures Reachable(Init)
  {
    assert IsRun([Init], []);
  }

  lemma StepReachable(s: State, l: Label)
    requires Reachable(s) && Enabled(s, l)
    ensures Reachable(Next(s, l))
  {
    var states, labels :| IsRun(states, labels) && states[|labels|] == s;
    assert IsRun(states + [Next(s, l)], labels + [l]);
  }

  /** `n` asynchronous calls have been queued before the engine thread gets to run. */
  function Crowded(n: nat): State {
    State(true, true, seq(n, i => i), 0, Head, NotStopped,
          seq(n, i => Call(false, CallPosting, true, 0, 0)), seq(n, i => i), [])
  }

  lemma {:induction false} CrowdedReachable(n: nat)
    requires n <= QUEUE_SIZE
    ensures Reachable(Crowded(n))
  {
    if n == 0 {
      InitReachable();
    } else {
      var s := Crowded(n - 1);
      CrowdedReachable(n - 1);
      StepReachable(s, Begin(false));
      var t := Next(s, Begin(false));
      StepReachable(t, Caller(n - 1));
      var u := NextCaller(t, n - 1);
      assert u.queue == Crowded(n).queue && u.calls == Crowded(n).calls && u.accepted == Crowded(n).accepted;
    }
  }

  /** It does happen: eight queued calls are enough for a synchronous ninth one to be refused, which then waits for good. */
  lemma RefusalHappens() returns (s: State)
    ensures Reachable(s) && |s.calls| == 9 && s.calls[8].isSync && s.calls[8].pc == CallPosting && !s.calls[8].accepted
  {
    CrowdedReachable(8);
    var c := Crowded(8);
    StepReachable(c, Begin(true));
    StepReachable(Next(c, Begin(true)), Caller(8));
    s := NextCaller(Next(c, Begin(true)), 8);
  }

  // ---- every call comes to its end ----

  function Weight(call: Call): nat {
    match call.pc
    case Queueing => 9
    case CallPosting => 5
    case Awaiting => 1
    case Returned => 0
  }

  function Weights(calls: seq<Call>): nat {
    if calls == [] then 0 else Weights(calls[..|calls| - 1]) + Weight(calls[|calls| - 1])
  }

  lemma {:induction false} WeightsUpdate(calls: seq<Call>, c: nat, call: Call)
    requires c < |calls|
    ensures Weights(calls[c := call]) + Weight(calls[c]) == Weights(calls) + Weight(call)
  {
    var u := calls[c := call];
    if c == |calls| - 1 {
      assert u[..|u| - 1] == calls[..|calls| - 1];
    } else {
      assert u[..|u| - 1] == calls[..|calls| - 1][c := call];
      WeightsUpdate(calls[..|calls| - 1], c, call);
    }
  }

  function EngineWork(pc: EnginePc): nat {
    match pc
    case Waiting => 0
    case Exited => 0
    case Head => 1
    case Extracting => 2
    case Informing(_) => 3
    case Running(_) => 4
  }

  /** A bound on the steps that callers and the engine can still take without new calls. */
  function Effort(s: State): nat {
    Weights(s.calls) + 3 * |s.queue| + 3 * s.sema + EngineWork(s.engine)
  }

  lemma CallerDecreases(s: State, c: nat)
    requires Enabled(s, Caller(c))
    ensures Effort(NextCaller(s, c)) < Effort(s)
  {
    WeightsUpdate(s.calls, c, NextCaller(s, c).calls[c]);
  }

  lemma EngineDecreases(s: State)
    requires Enabled(s, Engine)
    ensures Effort(NextEngine(s)) < Effort(s)
  {
    if s.engine.Running? || s.engine.Informing? {
      WeightsUpdate(s.calls, s.engine.call, NextEngine(s).calls[s.engine.call]);
    }
  }

  lemma StepDecreases(s: State, l: Label)
    requires Enabled(s, l) && (l.Caller? || l.Engine?)
    ensures Effort(Next(s, l)) < Effort(s)
  {
    hide Effort;
    if l.Caller? { CallerDecreases(s, l.call); } else { EngineDecreases(s); }
  }

  /** Nobody can move, short of a new call or a stop. */
  ghost predicate Quiet(s: State) {
    !Enabled(s, Engine) && s.stop != StopPosting && forall c :: !Enabled(s, Caller(c))
  }

  lemma EngineCallExists(s: State)
    requires Inv(s)
    ensures s.engine.Running? || s.engine.Informing? ==> s.engine.call < |s.calls|
  {
    if s.engine.Running? { assert s.accepted[|s.executed|] == s.engine.call && s.engine.call in s.accepted; }
    if s.engine.Informing? { assert s.engine.call in s.accepted; }
  }

  lemma RestingQueue(s: State)
    requires Inv(s) && Quiet(s)
    ensures s.engine == Waiting || s.engine == Exited
    ensures s.engine != Exited ==> s.queue == []
  {
    EngineCallExists(s);
    if PostIsComing(s) {
      var other :| 0 <= other < |s.calls| && s.calls[other].pc == CallPosting;
      assert Enabled(s, Caller(other));
    }
  }

  /**
   * When all is quiet, the synchronous calls that have returned are exactly those
   * the queue accepted and the engine thread took, each run once; and unless the
   * thread has ended, it has taken all.
   */
  lemma QuietMeansServed(s: State, c: nat)
    requires Inv(s) && Quiet(s) && c < |s.calls|
    ensures s.calls[c].isSync ==> (s.calls[c].pc == Returned <==> s.calls[c].accepted && c !in s.queue)
    ensures !s.calls[c].isSync ==> s.calls[c].pc == Returned
    ensures s.calls[c].runs == if s.calls[c].accepted && c !in s.queue then 1 else 0
    ensures s.engine != Exited ==> s.queue == []
  {
    assert CallFits(s, c);
    assert !Enabled(s, Caller(c));
    RestingQueue(s);
    assert s.accepted == s.executed + s.queue;
    forall i: nat, j: nat | i < |s.executed| && j < |s.queue| ensures s.executed[i] != s.queue[j] {
      assert s.accepted[i] == s.executed[i] && s.accepted[|s.executed| + j] == s.queue[j];
    }
  }

  /** The calls and the engine thread at rest: what has been served, and what has not. */
  ghost predicate AllServed(s: State) {
    forall c :: 0 <= c < |s.calls| ==>
      && (if s.calls[c].isSync then s.calls[c].pc == Returned <==> s.calls[c].accepted && c !in s.queue else s.calls[c].pc == Returned)
      && s.calls[c].runs == if s.calls[c].accepted && c !in s.queue then 1 else 0
  }

  /** From any reachable state, callers and engine come to rest within `Effort` steps, and then every accepted call has been served. */
  lemma {:induction false} AcceptedCallsAreServed(states: seq<State>, labels: seq<Label>, from: nat, k: nat)
    requires IsRun(states, labels) && from <= k <= |labels|
    requires forall i :: from <= i < k ==> labels[i].Caller? || labels[i].Engine?
    ensures Effort(states[k]) + (k - from) <= Effort(states[from])
    ensures Quiet(states[k]) ==> AllServed(states[k]) && (states[k].engine != Exited ==> states[k].queue == [])
  {
    hide Inv, Next, Effort;
    RunInv(states, labels, k);
    if from < k {
      AcceptedCallsAreServed(states, labels, from, k - 1);
      StepDecreases(states[k - 1], labels[k - 1]);
    }
    if Quiet(states[k]) {
      RestingQueue(states[k]);
      forall c | 0 <= c < |states[k].calls|
        ensures states[k].calls[c].isSync ==>
          (states[k].calls[c].pc == Returned <==> states[k].calls[c].accepted && c !in states[k].queue)
        ensures !states[k].calls[c].isSync ==> states[k].calls[c].pc == Returned
        ensures states[k].calls[c].runs == if states[k].calls[c].accepted && c !in states[k].queue then 1 else 0
      {
        QuietMeansServed(states[k], c);
      }
    }
  }

  // ---- the stop ----

  /** The run flag and the engine go down only for a stop request, and its post is not lost. */
  predicate StopFits(s: State) {
    && (s.run <==> s.stop == NotStopped)
    && (s.open <==> s.engine != Exited) && (s.engine == Exited ==> !s.run)
    && (!s.run && s.engine == Waiting ==> s.sema > 0 || s.stop == StopPosting)
  }

  lemma StepKeepsStopFits(s: State, l: Label)
    requires StopFits(s) && Enabled(s, l)
    ensures StopFits(Next(s, l))
  {
  }

  lemma {:induction false} RunStopFits(states: seq<State>, labels: seq<Label>, k: nat)
    requires IsRun(states, labels) && k <= |labels|
    ensures StopFits(states[k])
  {
    hide Next, Enabled, StopFits;
    if k > 0 {
      RunStopFits(states, labels, k - 1);
      StepKeepsStopFits(states[k - 1], labels[k - 1]);
    } else {
      InitStopFits();
    }
  }

  lemma InitStopFits()
    ensures StopFits(Init)
  {
  }

  /** When nobody can move, the engine thread has ended and takes no more calls if and only if it was told to stop. */
  lemma EndsIffStopped(states: seq<State>, labels: seq<Label>, k: nat)
    requires IsRun(states, labels) && k <= |labels| && Quiet(states[k])
    ensures var s := states[k]; (s.engine == Exited <==> s.stop == Stopped) && (s.engine == Exited <==> !s.open)
  {
    hide Next, Inv;
    RunInv(states, labels, k);
    RunStopFits(states, labels, k);
    RestingQueue(states[k]);
  }

  // ---- for a thread that makes calls ----

  /** A call that the queue has refused. */
  predicate Refused(s: State, c: nat) {
    c < |s.calls| && s.calls[c].isSync && s.calls[c].pc != Queueing && !s.calls[c].accepted
  }

  lemma RefusedIsNotReturned(s: State, c: nat)
    requires Inv(s) && Refused(s, c)
    ensures s.calls[c].pc != Returned
  {
    assert CallFits(s, c);
    assert c in s.executed ==> c in s.accepted;
  }

  /** Once refused, refused for good. */
  lemma RefusedStays(s: State, l: Label, c: nat)
    requires Refused(s, c) && Enabled(s, l)
    ensures Refused(Next(s, l), c)
  {
  }

  /** What a step does to the calls: one more, or the same ones; a call that has returned stays so. */
  lemma CallsAfter(s: State, l: Label)
    requires Enabled(s, l)
    ensures var t := Next(s, l);
      && |t.calls| == |s.calls| + (if l.Begin? then 1 else 0)
      && (forall c :: 0 <= c < |s.calls| ==> t.calls[c].isSync == s.calls[c].isSync)
      && (forall c :: 0 <= c < |s.calls| && s.calls[c].pc == Returned ==> t.calls[c].pc == Returned)
      && (l.Begin? ==> t.calls[|s.calls|] == Call(l.isSync, Queueing, false, 0, 0))
  {
  }

  lemma BeginAdds(s: State, isSync: bool)
    ensures Effort(s.(calls := s.calls + [Call(isSync, Queueing, false, 0, 0)])) == Effort(s) + 9
  {
    var u := s.calls + [Call(isSync, Queueing, false, 0, 0)];
    assert u[..|u| - 1] == s.calls;
  }
}

/** When the removal of engines always returns, seen from the state in which it begins. */
module SchedulerRemoval {
  import opened Common
  import opened EngineRun
  import opened Scheduler
  import opened SchedulerInvariant
  import opened SchedulerSteps
  import opened SchedulerTheorems

  /** A run of internal steps from `s` that cannot be continued. */
  ghost predicate MaximalFrom(engine: Engine, s: State, states: seq<State>, labels: seq<Label>) {
    && Fragment(engine, states, labels) && states[0] == s
    && (forall i :: 0 <= i < |labels| ==> !External(labels[i]))
    && Quiet(states[|labels|])
  }

  /** The engine has exited, or sleeps in its wait with nothing to wake it. */
  predicate AtRest(s: State, e: nat) {
    HasPc(s, e, Exited) || (HasPc(s, e, Waiting) && s.tokens == 0)
  }

  // ---- all engines to be removed are at rest ----

  /** The engines still to be asked are at rest, and the one that is joined has been woken. */
  predicate Sure(s: State) {
    && Removing(s)
    && (forall e: nat :: s.sub.next <= e < |s.engines| && (e > s.sub.next || !s.sub.stage.Joining?) ==> AtRest(s, e))
    && !Doomed(s)
  }

  lemma SureStays(engine: Engine, s: State, l: Label)
    requires Inv(engine, s) && Sure(s) && Enabled(s, l) && !External(l)
    ensures var t := Next(engine, s, l); Sure(t) || t.sub == Idle
  {
    hide AfterRun, PrepareSlots, Inv;
    DoomedStep(engine, s, l);
    if l.Signal? { assert AtRest(s, s.sub.next); }
    var t := Next(engine, s, l);
    if t.sub.Deleting? {
      forall e: nat | t.sub.next <= e < |t.engines| && (e > t.sub.next || !t.sub.stage.Joining?) ensures AtRest(t, e) {
        assert AtRest(s, e);
      }
    }
  }

  lemma {:induction false} SureRun(engine: Engine, states: seq<State>, labels: seq<Label>, k: nat)
    requires Fragment(engine, states, labels) && k <= |labels| && Inv(engine, states[0]) && Sure(states[0])
    requires forall i :: 0 <= i < k ==> !External(labels[i])
    ensures Sure(states[k]) || states[k].sub == Idle
  {
    hide Next, Enabled, Inv, Sure;
    if k > 0 {
      SureRun(engine, states, labels, k - 1);
      FragmentInv(engine, states, labels, k - 1);
      if states[k - 1].sub == Idle { IdleStep(engine, states[k - 1], labels[k - 1]); }
      else { SureStays(engine, states[k - 1], labels[k - 1]); }
    }
  }

  lemma SureReturns(engine: Engine, s: State, states: seq<State>, labels: seq<Label>)
    requires Inv(engine, s) && Sure(s) && MaximalFrom(engine, s, states, labels)
    ensures states[|labels|].sub == Idle
  {
    hide Next, Enabled, Inv;
    var k := |labels|;
    SureRun(engine, states, labels, k);
    FragmentInv(engine, states, labels, k);
    if Removing(states[k]) { RemovalStuckIff(engine, states[k]); }
  }

  // ---- one of them is not ----

  /** A thread that will look at its loop condition again, and then wait: it can still take every token there is. */
  predicate Going(s: State, e: nat) {
    e < |s.engines| && s.engines[e].shouldRun && s.engines[e].pc != Exited && (s.engines[e].pc == Waiting ==> s.tokens > 0)
  }

  /** The engines from `from` to `e` can be removed without a token. */
  predicate RestBetween(s: State, from: nat, e: nat) {
    forall d: nat :: from <= d < e ==> AtRest(s, d)
  }

  /** The removal has not begun, and engine `e` is on its way to where it will miss the signal. */
  predicate Driving(s: State, e: nat) {
    && Removing(s) && s.sub.stage.Asking? && s.work && s.fifo == []
    && s.sub.next <= e && Going(s, e) && RestBetween(s, s.sub.next, e)
  }

  /** Engine `e` is there, and no token is left; those before it are being removed. */
  predicate Poised(s: State, e: nat) {
    && Removing(s) && s.work && s.fifo == [] && s.tokens == 0
    && s.sub.next <= e && HasPc(s, e, Entering) && (s.sub.stage.Joining? ==> s.sub.next < e)
    && RestBetween(s, if s.sub.stage.Joining? then s.sub.next + 1 else s.sub.next, e)
    && (s.sub.stage.Joining? ==>
          HasPc(s, s.sub.next, Woken) || HasPc(s, s.sub.next, Head) || HasPc(s, s.sub.next, Exited))
  }

  /** The signal is lost, and nothing can make up for it. */
  predicate Lost(s: State) { Removing(s) && Doomed(s) && s.tokens == 0 }

  lemma LostStays(engine: Engine, s: State, l: Label)
    requires Inv(engine, s) && Lost(s) && Enabled(s, l) && !External(l)
    ensures Lost(Next(engine, s, l))
  {
    hide AfterRun, PrepareSlots, Sum, Store, OnePlace, Counted, FinishedOnce, NotStranded, Results, Flag;
    DoomedStep(engine, s, l);
  }

  /** The next step of a removal that leads to the loss. */
  lemma PoisedStep(engine: Engine, s: State, e: nat) returns (l: Label)
    requires Inv(engine, s) && Poised(s, e)
    ensures Enabled(s, l) && !External(l)
    ensures var t := Next(engine, s, l); Poised(t, e) || Lost(t)
  {
    hide AfterRun, PrepareSlots, Sum, Store, OnePlace, Counted, FinishedOnce, NotStranded, Results, Flag;
    var next := s.sub.next;
    l := if s.sub.stage.Asking? then Stop
         else if s.sub.stage.Signalling? then Signal
         else if HasPc(s, next, Woken) then Extract(next)
         else if HasPc(s, next, Head) then CheckLoop(next)
         else Join;
    var t := Next(engine, s, l);
    forall d: nat | t.sub.next < d < e || (d == t.sub.next && d < e && !t.sub.stage.Joining?) ensures AtRest(t, d) { assert AtRest(s, d); }
    if next < e { assert !s.sub.stage.Joining? ==> AtRest(s, next); }
  }

  /** The next step of the engine that will miss the signal. */
  lemma DrivingStep(engine: Engine, s: State, e: nat) returns (l: Label)
    requires Inv(engine, s) && Driving(s, e) && !Poised(s, e)
    ensures Enabled(s, l) && !External(l)
    ensures Driving(Next(engine, s, l), e)
  {
    hide AfterRun, PrepareSlots, Inv;
    if HasPc(s, e, Waiting) { l := TakeToken(e); } else { l := AwakeCanStep(engine, s, e); }
    var t := Next(engine, s, l);
    forall d: nat | s.sub.next <= d < e ensures AtRest(t, d) { assert AtRest(s, d); }
  }

  /** From there, some run of internal steps ends in a join that never returns. */
  lemma {:induction false} Hangs(engine: Engine, s: State, e: nat) returns (states: seq<State>, labels: seq<Label>)
    requires Inv(engine, s) && (Driving(s, e) || Poised(s, e) || Lost(s))
    ensures MaximalFrom(engine, s, states, labels) && Lost(states[|labels|])
    decreases Measure(s) + 5
  {
    hide Next, Enabled, Inv, Driving, Poised, Lost;
    if Lost(s) && Quiet(s) {
      states, labels := [s], [];
    } else {
      var l;
      if Lost(s) {
        l :| Enabled(s, l) && !External(l);
        LostStays(engine, s, l);
      } else if Poised(s, e) {
        l := PoisedStep(engine, s, e);
      } else {
        l := DrivingStep(engine, s, e);
      }
      var t := Next(engine, s, l);
      StepKeeps(engine, s, l);
      InternalStepsDecrease(engine, s, l);
      var later, rest := Hangs(engine, t, e);
      states, labels := [s] + later, [l] + rest;
      StepBefore(engine, s, l, t, later, rest);
    }
  }

  lemma StepBefore(engine: Engine, s: State, l: Label, t: State, later: seq<State>, rest: seq<Label>)
    requires Enabled(s, l) && !External(l) && t == Next(engine, s, l) && MaximalFrom(engine, t, later, rest)
    ensures MaximalFrom(engine, s, [s] + later, [l] + rest)
    ensures ([s] + later)[|[l] + rest|] == later[|rest|]
  {
    hide Next, Enabled, External, Quiet;
    var states, labels := [s] + later, [l] + rest;
    forall i | 0 <= i < |labels| ensures Enabled(states[i], labels[i]) && states[i + 1] == Next(engine, states[i], labels[i]) {
      if i > 0 { assert states[i] == later[i - 1] && labels[i] == rest[i - 1] && states[i + 1] == later[i]; }
    }
    forall i | 0 <= i < |labels| ensures !External(labels[i]) { if i > 0 { assert labels[i] == rest[i - 1]; } }
  }

  /** The first engine that is not at rest will do. */
  lemma FirstNotAtRest(s: State, from: nat, e: nat) returns (first: nat)
    requires from <= e && !AtRest(s, e)
    ensures from <= first <= e && !AtRest(s, first) && RestBetween(s, from, first)
    decreases e
  {
    if d: nat :| from <= d < e && !AtRest(s, d) { first := FirstNotAtRest(s, from, d); } else { first := e; }
  }

  /**
   * Once a removal begins, it returns however the threads are scheduled if and
   * only if each engine to be removed has exited, or sleeps and no start token is left.
   */
  lemma RemovalAlwaysReturnsIff(engine: Engine, s: State)
    requires Inv(engine, s) && Removing(s) && s.sub.stage.Asking? && s.sub.next == s.sub.keep
    ensures (forall states: seq<State>, labels: seq<Label> :: MaximalFrom(engine, s, states, labels) ==> states[|labels|].sub == Idle)
      <==> forall e: nat :: s.sub.keep <= e < |s.engines| ==> AtRest(s, e)
  {
    if forall e: nat :: s.sub.keep <= e < |s.engines| ==> AtRest(s, e) {
      forall states: seq<State>, labels: seq<Label> | MaximalFrom(engine, s, states, labels) ensures states[|labels|].sub == Idle {
        SureReturns(engine, s, states, labels);
      }
    } else {
      var e: nat :| s.sub.keep <= e < |s.engines| && !AtRest(s, e);
      var first := FirstNotAtRest(s, s.sub.keep, e);
      NothingQueued(engine, s);
      assert Driving(s, first);
      var states, labels := Hangs(engine, s, first);
      assert MaximalFrom(engine, s, states, labels) && states[|labels|].sub != Idle;
    }
  }

  lemma NothingQueued(engine: Engine, s: State)
    requires Inv(engine, s) && Removing(s) && s.sub.stage.Asking?
    ensures s.fifo == [] && s.work
    ensures forall e: nat :: s.sub.next <= e < |s.engines| && s.engines[e].pc != Exited ==> s.engines[e].shouldRun
  {
    hide Store, OnePlace, FinishedOnce, NotStranded, Results, Flag;
  }
}

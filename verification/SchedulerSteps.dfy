/** Every step of the scheduler keeps the invariant. */
module SchedulerSteps {
  import opened Common
  import opened EngineRun
  import opened Scheduler
  import opened SchedulerInvariant

  lemma InitInv(engine: Engine)
    ensures Inv(engine, Init)
  {
    hide Results, OnePlace, Flag, Life, Store, Counted, FinishedOnce, NotStranded;
    InitCounts();
    InitTokens();
    InitPlaces();
    InitResults(engine);
    InitLife();
  }

  lemma InitCounts()
    ensures Counted(Init) && FinishedOnce(Init)
  {
    hide Sum;
    NoEngines(IsFinalizing);
    NoEngines(IsHolding);
  }

  lemma InitTokens()
    ensures Store(Init) && NotStranded(Init)
  {
    hide Sum;
    NoEngines(IsWoken);
  }

  lemma NoEngines(kind: Kind)
    ensures Sum(Init.engines, kind) == 0
  {
  }

  lemma InitPlaces()
    ensures OnePlace(Init)
  {
  }

  lemma InitResults(engine: Engine)
    ensures Results(engine, Init) && Flag(Init)
  {
  }

  lemma InitLife()
    ensures Life(Init)
  {
  }

  /** Every count after one thread has changed. */
  lemma Recount(es: seq<EngineThread>, e: nat, t: EngineThread)
    requires e < |es|
    ensures forall kind ::
              Sum(es[e := t], kind) + Weight(kind, es[e].pc) == Sum(es, kind) + Weight(kind, t.pc)
  {
    forall kind { SumUpdate(es, e, t, kind); }
  }

  lemma NobodyHolds(s: State)
    requires Held(s) == 0
    ensures forall e: nat, j: nat :: !Holds(s, e, j)
    ensures forall j: nat :: Ran(s, j) <==> s.sub != Queueing && j !in s.fifo
  {
    forall e: nat | e < |s.engines|
      ensures Weight(IsHolding, s.engines[e].pc) == 0
    {
      SumAtLeast(s.engines, e, IsHolding);
    }
  }

  /** Only thread `e` differs between the two states. */
  ghost predicate OnlyMoves(s: State, t: State, e: nat) {
    && e < |s.engines| == |t.engines|
    && t.engines == s.engines[e := t.engines[e]]
    && s.n == t.n && s.job == t.job && (s.sub == Queueing <==> t.sub == Queueing)
  }

  predicate Holding(pc: Pc) { pc.Running? || pc.Marking? || pc.Counting? }

  lemma OthersStay(s: State, t: State, e: nat)
    requires OnlyMoves(s, t, e)
    ensures forall f: nat, pc :: f != e ==> (HasPc(t, f, pc) <==> HasPc(s, f, pc))
    ensures forall f: nat, j: nat :: f != e ==> (Holds(t, f, j) <==> Holds(s, f, j))
  {
  }

  /** A step of a thread that holds no subtask before or after. */
  lemma HoldsNothing(engine: Engine, s: State, t: State, e: nat)
    requires OnePlace(s) && Results(engine, s) && Flag(s)
    requires OnlyMoves(s, t, e)
    requires !Holding(s.engines[e].pc) && !Holding(t.engines[e].pc)
    requires s.fifo == t.fifo && s.slots == t.slots && s.taskError == t.taskError
    ensures OnePlace(t) && Results(engine, t) && Flag(t)
  {
    OthersStay(s, t, e);
    forall j: nat ensures (Ran(t, j) <==> Ran(s, j)) && (Marked(t, j) <==> Marked(s, j)) {
      Unmoved(s, t, e, j);
      Unmoved(t, s, e, j);
    }
  }

  lemma Unmoved(s: State, t: State, e: nat, j: nat)
    requires OnlyMoves(s, t, e)
    requires j in t.fifo ==> j in s.fifo
    requires t.engines[e].pc != Running(j) || s.engines[e].pc == Running(j)
    ensures Ran(s, j) ==> Ran(t, j)
    ensures Marked(s, j) && (t.engines[e].pc != Marking(j) || s.engines[e].pc == Marking(j)) ==> Marked(t, j)
  {
    OthersStay(s, t, e);
    if Ran(s, j) {
      forall f: nat ensures !HasPc(t, f, Running(j)) { assert !HasPc(s, f, Running(j)); }
      if Marked(s, j) && (t.engines[e].pc != Marking(j) || s.engines[e].pc == Marking(j)) {
        forall f: nat ensures !HasPc(t, f, Marking(j)) { assert !HasPc(s, f, Marking(j)); }
      }
    }
  }

  lemma CheckLoopKeeps(engine: Engine, s: State, e: nat)
    requires Inv(engine, s) && Enabled(s, CheckLoop(e))
    ensures Inv(engine, Next(engine, s, CheckLoop(e)))
  {
    var t := Next(engine, s, CheckLoop(e));
    Recount(s.engines, e, t.engines[e]);
    HoldsNothing(engine, s, t, e);
  }

  lemma BlockKeeps(engine: Engine, s: State, e: nat)
    requires Inv(engine, s) && Enabled(s, Block(e))
    ensures Inv(engine, Next(engine, s, Block(e)))
  {
    var t := Next(engine, s, Block(e));
    Recount(s.engines, e, t.engines[e]);
    HoldsNothing(engine, s, t, e);
  }

  lemma TakeTokenKeeps(engine: Engine, s: State, e: nat)
    requires Inv(engine, s) && Enabled(s, TakeToken(e))
    ensures Inv(engine, Next(engine, s, TakeToken(e)))
  {
    var t := Next(engine, s, TakeToken(e));
    Recount(s.engines, e, t.engines[e]);
    HoldsNothing(engine, s, t, e);
  }

  lemma SpuriousWakeKeeps(engine: Engine, s: State, e: nat)
    requires Inv(engine, s) && Enabled(s, SpuriousWake(e))
    ensures Inv(engine, Next(engine, s, SpuriousWake(e)))
  {
    var t := Next(engine, s, SpuriousWake(e));
    Recount(s.engines, e, t.engines[e]);
    HoldsNothing(engine, s, t, e);
  }

  lemma FinalizeKeeps(engine: Engine, s: State, e: nat)
    requires Inv(engine, s) && Enabled(s, Finalize(e))
    ensures Inv(engine, Next(engine, s, Finalize(e)))
  {
    var t := Next(engine, s, Finalize(e));
    Recount(s.engines, e, t.engines[e]);
    HoldsNothing(engine, s, t, e);
  }

  /** A thread that is awake before and after its step changes nothing about shutdown. */
  lemma AwakeLife(s: State, t: State, e: nat)
    requires Life(s) && OnlyMoves(s, t, e)
    requires t.sub == s.sub && t.work == s.work && t.tokens == s.tokens
    requires var x, y := s.engines[e], t.engines[e];
      && x.shouldRun == y.shouldRun && x.lateTokens == y.lateTokens
      && x.pc != Waiting && y.pc != Waiting && x.pc != Entering && y.pc != Entering && x.pc != Exited && y.pc != Exited
    ensures Life(t)
  {
    SumUpdate(s.engines, e, t.engines[e], IsWaiting);
  }

  lemma ExtractKeeps(engine: Engine, s: State, e: nat)
    requires Inv(engine, s) && Enabled(s, Extract(e))
    ensures Inv(engine, Next(engine, s, Extract(e)))
  {
    var t := Next(engine, s, Extract(e));
    AwakeLife(s, t, e);
    ExtractCounts(engine, s, t, e);
    if s.fifo == [] {
      HoldsNothing(engine, s, t, e);
    } else {
      ExtractedOnePlace(engine, s, t, e);
      ExtractedResults(engine, s, t, e);
    }
  }

  lemma ExtractCounts(engine: Engine, s: State, t: State, e: nat)
    requires Store(s) && OnePlace(s) && Counted(s) && FinishedOnce(s) && NotStranded(s)
    requires Enabled(s, Extract(e))
    requires t == Next(engine, s, Extract(e))
    ensures Store(t) && Counted(t) && FinishedOnce(t) && NotStranded(t)
  {
    hide AfterRun, Alone, Observe, PrepareSlots, Sum;
    Recount(s.engines, e, t.engines[e]);
    SumAtLeast(s.engines, e, IsWoken);
  }

  lemma ExtractedOnePlace(engine: Engine, s: State, t: State, e: nat)
    requires OnePlace(s) && Enabled(s, Extract(e)) && s.fifo != []
    requires t == Next(engine, s, Extract(e))
    ensures OnePlace(t)
  {
    OthersStay(s, t, e);
    assert s.fifo == [s.fifo[0]] + t.fifo;
  }

  lemma ExtractedResults(engine: Engine, s: State, t: State, e: nat)
    requires OnePlace(s) && Results(engine, s) && Flag(s)
    requires Enabled(s, Extract(e)) && s.fifo != [] && t == Next(engine, s, Extract(e))
    ensures Results(engine, t) && Flag(t)
  {
    var j := s.fifo[0];
    assert s.fifo == [j] + t.fifo;
    assert HasPc(t, e, Running(j));
    forall k: nat ensures (Ran(t, k) <==> Ran(s, k)) && (Marked(t, k) <==> Marked(s, k)) {
      if k != j {
        Unmoved(s, t, e, k);
        Unmoved(t, s, e, k);
      }
    }
  }

  lemma RunKeeps(engine: Engine, s: State, e: nat)
    requires Inv(engine, s) && Enabled(s, Run(e))
    ensures Inv(engine, Next(engine, s, Run(e)))
  {
    var t := Next(engine, s, Run(e));
    var j := s.engines[e].pc.slot;
    assert Holds(s, e, j);
    AwakeLife(s, t, e);
    RunOnePlace(s, t, e);
    RunResults(engine, s, t, e, j);
    Recount(s.engines, e, t.engines[e]);
  }

  lemma RunOnePlace(s: State, t: State, e: nat)
    requires OnePlace(s) && OnlyMoves(s, t, e) && s.fifo == t.fifo
    requires Holding(s.engines[e].pc) && Holding(t.engines[e].pc) && s.engines[e].pc.slot == t.engines[e].pc.slot
    ensures OnePlace(t)
  {
    OthersStay(s, t, e);
    assert forall f: nat, j: nat :: Holds(t, f, j) <==> Holds(s, f, j);
  }

  lemma RunResults(engine: Engine, s: State, t: State, e: nat, j: nat)
    requires Store(s) && Results(engine, s) && Flag(s)
    requires Enabled(s, Run(e)) && j == s.engines[e].pc.slot && t == Next(engine, s, Run(e)) && j < s.n
    ensures Results(engine, t) && Flag(t)
  {
    RunForgetsTheSlot(engine, s.job, s.slots[j]);
    assert Reports(t, j, Alone(engine, t.job, j));
    assert HasPc(s, e, Running(j)) && HasPc(t, e, Marking(j));
    forall k: nat ensures k != j ==> (Ran(t, k) <==> Ran(s, k))
                  ensures Marked(t, k) <==> Marked(s, k) {
      if k != j {
        Unmoved(s, t, e, k);
        Unmoved(t, s, e, k);
      }
    }
    forall k: nat | k < t.n && Ran(t, k) && k != j ensures Reports(t, k, Alone(engine, t.job, k)) {
      assert Reports(s, k, Alone(engine, s.job, k));
    }
  }

  lemma MarkKeeps(engine: Engine, s: State, e: nat)
    requires Inv(engine, s) && Enabled(s, Mark(e))
    ensures Inv(engine, Next(engine, s, Mark(e)))
  {
    hide AfterRun, Alone, Observe, PrepareSlots, Sum;
    var t := Next(engine, s, Mark(e));
    Recount(s.engines, e, t.engines[e]);
    var j := s.engines[e].pc.slot;
    assert Holds(s, e, j) && HasPc(s, e, Marking(j));
    OthersStay(s, t, e);
    forall k: nat ensures Ran(t, k) <==> Ran(s, k)
                  ensures k != j ==> (Marked(t, k) <==> Marked(s, k)) {
      Unmoved(s, t, e, k);
      Unmoved(t, s, e, k);
    }
    NobodyElse(s, e, j);
    NobodyElse(t, e, j);
    assert Counted(s) && s.sub != Queueing by { SumAtLeast(s.engines, e, IsHolding); }
    assert Marked(t, j);
  }

  /** The holder of a subtask is the only one. */
  lemma NobodyElse(s: State, e: nat, j: nat)
    requires OnePlace(s) && Holds(s, e, j)
    ensures forall f: nat :: f != e ==> !HasPc(s, f, Running(j)) && !HasPc(s, f, Marking(j))
  {
    forall f: nat | f != e && (HasPc(s, f, Running(j)) || HasPc(s, f, Marking(j))) ensures false {
      assert Holds(s, f, j);
    }
  }

  lemma CountKeeps(engine: Engine, s: State, e: nat)
    requires Inv(engine, s) && Enabled(s, Count(e))
    ensures Inv(engine, Next(engine, s, Count(e)))
  {
    hide AfterRun, Alone, Observe, PrepareSlots, Sum;
    var t := Next(engine, s, Count(e));
    Recount(s.engines, e, t.engines[e]);
    SumAtLeast(s.engines, e, IsHolding);
    OthersStay(s, t, e);
    forall k: nat ensures (Ran(t, k) <==> Ran(s, k)) && (Marked(t, k) <==> Marked(s, k)) {
      Unmoved(s, t, e, k);
      Unmoved(t, s, e, k);
    }
  }

  lemma PrepareKeeps(engine: Engine, s: State, count: nat, job: Job)
    requires Inv(engine, s) && Enabled(s, Prepare(count, job))
    ensures Inv(engine, Next(engine, s, Prepare(count, job)))
  {
    NobodyHolds(s);
    NobodyHolds(Next(engine, s, Prepare(count, job)));
  }

  lemma QueueKeeps(engine: Engine, s: State)
    requires Inv(engine, s) && Enabled(s, Queue)
    ensures Inv(engine, Next(engine, s, Queue))
  {
    var t := Next(engine, s, Queue);
    NobodyHolds(s);
    NobodyHolds(t);
    forall j: nat | j < t.n ensures j in t.fifo { assert t.fifo[j] == j; }
  }

  /** A step of the submitter that touches neither the round nor the engines. */
  lemma SubmitterOnly(engine: Engine, s: State, t: State)
    requires OnePlace(s) && Results(engine, s) && Flag(s)
    requires t == s.(sub := t.sub, tokens := t.tokens, finished := t.finished, work := t.work,
                     extra := t.extra, finalizes := t.finalizes, rounds := t.rounds)
    requires s.sub != Queueing && t.sub != Queueing
    ensures OnePlace(t) && Results(engine, t) && Flag(t)
  {
    assert forall e: nat, pc :: HasPc(t, e, pc) <==> HasPc(s, e, pc);
    assert forall e: nat, j: nat :: Holds(t, e, j) <==> Holds(s, e, j);
    assert forall j: nat :: (Ran(t, j) <==> Ran(s, j)) && (Marked(t, j) <==> Marked(s, j));
  }

  lemma PostKeeps(engine: Engine, s: State)
    requires Inv(engine, s) && Enabled(s, Post)
    ensures Inv(engine, Next(engine, s, Post))
  {
    SubmitterOnly(engine, s, Next(engine, s, Post));
  }

  lemma ReturnKeeps(engine: Engine, s: State)
    requires Inv(engine, s) && Enabled(s, Return)
    ensures Inv(engine, Next(engine, s, Return))
  {
    SubmitterOnly(engine, s, Next(engine, s, Return));
  }

  lemma BeginCloseKeeps(engine: Engine, s: State)
    requires Inv(engine, s) && Enabled(s, BeginClose)
    ensures Inv(engine, Next(engine, s, BeginClose))
  {
    SubmitterOnly(engine, s, Next(engine, s, BeginClose));
    SumBound(s.engines, IsWaiting);
  }

  lemma ClosePostKeeps(engine: Engine, s: State)
    requires Inv(engine, s) && Enabled(s, ClosePost)
    ensures Inv(engine, Next(engine, s, ClosePost))
  {
    SubmitterOnly(engine, s, Next(engine, s, ClosePost));
  }

  lemma ShrinkKeeps(engine: Engine, s: State, keep: nat)
    requires Inv(engine, s) && Enabled(s, Shrink(keep))
    ensures Inv(engine, Next(engine, s, Shrink(keep)))
  {
    SubmitterOnly(engine, s, Next(engine, s, Shrink(keep)));
  }

  /** The signal is a spurious wake-up of a blocked thread, or nothing. */
  lemma SignalKeeps(engine: Engine, s: State)
    requires Inv(engine, s) && Enabled(s, Signal)
    ensures Inv(engine, Next(engine, s, Signal))
  {
    hide AfterRun, Alone, Observe, PrepareSlots, Sum;
    var t, e := Next(engine, s, Signal), s.sub.next;
    Recount(s.engines, e, t.engines[e]);
    assert t.engines == s.engines[e := t.engines[e]];
    SumAtLeast(s.engines, e, IsHolding);
    HoldsNothing(engine, s, t, e);
  }

  lemma JoinKeeps(engine: Engine, s: State)
    requires Inv(engine, s) && Enabled(s, Join)
    ensures Inv(engine, Next(engine, s, Join))
  {
    SubmitterOnly(engine, s, Next(engine, s, Join));
  }

  lemma AddEngineKeeps(engine: Engine, s: State, started: bool)
    requires Inv(engine, s) && Enabled(s, AddEngine(started))
    ensures Inv(engine, Next(engine, s, AddEngine(started)))
  {
    var t := Next(engine, s, AddEngine(started));
    var added := t.engines[|s.engines|];
    forall kind ensures Sum(t.engines, kind) == Sum(s.engines, kind) + Weight(kind, added.pc) {
      SumAppend(s.engines, added, kind);
    }
    NobodyHolds(s);
    NobodyHolds(t);
    SameMarks(s, t);
  }

  /** With no thread holding a subtask, only the round decides what has run. */
  lemma SameMarks(s: State, t: State)
    requires Held(s) == 0 && Held(t) == 0
    requires s.fifo == t.fifo && s.sub != Queueing && t.sub != Queueing
    ensures forall j: nat :: (Ran(t, j) <==> Ran(s, j)) && (Marked(t, j) <==> Marked(s, j))
  {
    NobodyHolds(s);
    NobodyHolds(t);
    forall e: nat, j: nat ensures !HasPc(s, e, Marking(j)) && !HasPc(t, e, Marking(j)) {
      assert !Holds(s, e, j) && !Holds(t, e, j);
    }
  }

  lemma StopKeeps(engine: Engine, s: State)
    requires Inv(engine, s) && Enabled(s, Stop)
    ensures Inv(engine, Next(engine, s, Stop))
  {
    hide AfterRun, Alone, Observe, PrepareSlots, Sum;
    var t := Next(engine, s, Stop);
    StopCounts(engine, s, t);
    StopLife(engine, s, t);
    NobodyHolds(s);
    NobodyHolds(t);
    SameMarks(s, t);
  }

  lemma StopCounts(engine: Engine, s: State, t: State)
    requires Life(s) && Enabled(s, Stop) && t == Next(engine, s, Stop)
    ensures forall kind :: Sum(t.engines, kind) == Sum(s.engines, kind)
  {
    var d := s.sub;
    forall kind ensures Sum(t.engines, kind) == Sum(s.engines, kind) {
      if d.next < |s.engines| && s.engines[d.next].shouldRun {
        SumUpdate(s.engines, d.next, t.engines[d.next], kind);
      } else if d.next >= |s.engines| && !d.closing {
        SumTake(s.engines, d.keep, kind);
      }
    }
  }

  lemma StopLife(engine: Engine, s: State, t: State)
    requires Life(s) && Enabled(s, Stop) && t == Next(engine, s, Stop)
    ensures Life(t)
  {
    StopCounts(engine, s, t);
    var d := s.sub;
    if d.next < |s.engines| && !s.engines[d.next].shouldRun {
      assert s.engines[d.next].pc == Exited;
    }
  }

  /** Every step keeps the invariant. */
  lemma StepKeeps(engine: Engine, s: State, l: Label)
    requires Inv(engine, s) && Enabled(s, l)
    ensures Inv(engine, Next(engine, s, l))
  {
    match l
    case CheckLoop(e) => CheckLoopKeeps(engine, s, e);
    case Block(e) => BlockKeeps(engine, s, e);
    case TakeToken(e) => TakeTokenKeeps(engine, s, e);
    case SpuriousWake(e) => SpuriousWakeKeeps(engine, s, e);
    case Extract(e) => ExtractKeeps(engine, s, e);
    case Run(e) => RunKeeps(engine, s, e);
    case Mark(e) => MarkKeeps(engine, s, e);
    case Count(e) => CountKeeps(engine, s, e);
    case Finalize(e) => FinalizeKeeps(engine, s, e);
    case Prepare(count, job) => PrepareKeeps(engine, s, count, job);
    case Queue => QueueKeeps(engine, s);
    case Post => PostKeeps(engine, s);
    case Return => ReturnKeeps(engine, s);
    case AddEngine(started) => AddEngineKeeps(engine, s, started);
    case Shrink(keep) => ShrinkKeeps(engine, s, keep);
    case BeginClose => BeginCloseKeeps(engine, s);
    case ClosePost => ClosePostKeeps(engine, s);
    case Stop => StopKeeps(engine, s);
    case Signal => SignalKeeps(engine, s);
    case Join => JoinKeeps(engine, s);
  }
}

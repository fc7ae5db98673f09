/** What every step of the scheduler keeps. */
module SchedulerInvariant {
  import opened Common
  import opened EngineRun
  import opened Scheduler

  // ---- counting engines by program counter ----

  /** What is being counted; `Effort` is the number of steps a thread can still take unaided, with room to spare. */
  datatype Kind = IsWoken | IsWaiting | IsFinalizing | IsHolding | Effort

  function Weight(kind: Kind, pc: Pc): nat {
    match kind
    case IsWoken => if pc.Woken? then 1 else 0
    case IsWaiting => if pc.Entering? || pc.Waiting? then 1 else 0
    case IsFinalizing => if pc.Finalizing? then 1 else 0
    case IsHolding => if pc.Running? || pc.Marking? || pc.Counting? then 1 else 0
    case Effort =>
      match pc
      case Exited => 0
      case Waiting => 0
      case Entering => 1
      case Head => 2
      case Woken => 3
      case Finalizing => 4
      case Counting(_) => 5
      case Marking(_) => 6
      case Running(_) => 7
  }

  function Sum(es: seq<EngineThread>, kind: Kind): nat {
    if es == [] then 0 else Sum(es[..|es| - 1], kind) + Weight(kind, es[|es| - 1].pc)
  }

  lemma {:induction false} SumUpdate(es: seq<EngineThread>, e: nat, t: EngineThread, kind: Kind)
    requires e < |es|
    ensures Sum(es[e := t], kind) + Weight(kind, es[e].pc) == Sum(es, kind) + Weight(kind, t.pc)
  {
    var u := es[e := t];
    if e == |es| - 1 {
      assert u[..|u| - 1] == es[..|es| - 1];
    } else {
      assert u[..|u| - 1] == es[..|es| - 1][e := t];
      SumUpdate(es[..|es| - 1], e, t, kind);
    }
  }

  lemma {:induction false} SumAtLeast(es: seq<EngineThread>, e: nat, kind: Kind)
    requires e < |es|
    ensures Weight(kind, es[e].pc) <= Sum(es, kind)
  {
    if e < |es| - 1 { SumAtLeast(es[..|es| - 1], e, kind); }
  }

  lemma {:induction false} SumPair(es: seq<EngineThread>, e: nat, f: nat, kind: Kind)
    requires e < f < |es|
    ensures Weight(kind, es[e].pc) + Weight(kind, es[f].pc) <= Sum(es, kind)
  {
    if f < |es| - 1 { SumPair(es[..|es| - 1], e, f, kind); }
    else { SumAtLeast(es[..|es| - 1], e, kind); }
  }

  lemma {:induction false} SumAppend(es: seq<EngineThread>, t: EngineThread, kind: Kind)
    ensures Sum(es + [t], kind) == Sum(es, kind) + Weight(kind, t.pc)
  {
    assert (es + [t])[..|es|] == es;
  }

  /** Threads that weigh nothing can be dropped. */
  lemma {:induction false} SumTake(es: seq<EngineThread>, k: nat, kind: Kind)
    requires k <= |es|
    requires forall i :: k <= i < |es| ==> Weight(kind, es[i].pc) == 0
    ensures Sum(es[..k], kind) == Sum(es, kind)
  {
    if k == |es| { assert es[..k] == es; }
    else {
      assert es[..|es| - 1][..k] == es[..k];
      SumTake(es[..|es| - 1], k, kind);
    }
  }

  lemma {:induction false} SumBound(es: seq<EngineThread>, kind: Kind)
    requires kind != Effort
    ensures Sum(es, kind) <= |es|
  {
    if es != [] { SumBound(es[..|es| - 1], kind); }
  }

  /** A positive sum has a thread that contributes to it. */
  lemma {:induction false} SumWitness(es: seq<EngineThread>, kind: Kind) returns (e: nat)
    requires Sum(es, kind) > 0
    ensures e < |es| && Weight(kind, es[e].pc) > 0
  {
    if Weight(kind, es[|es| - 1].pc) > 0 { e := |es| - 1; }
    else { e := SumWitness(es[..|es| - 1], kind); }
  }

  // ---- the invariant ----

  function Woke(s: State): nat { Sum(s.engines, IsWoken) }
  function Asleep(s: State): nat { Sum(s.engines, IsWaiting) }
  function InFinalize(s: State): nat { Sum(s.engines, IsFinalizing) }
  function Held(s: State): nat { Sum(s.engines, IsHolding) }

  function PostsLeft(s: State): nat { if s.sub.Posting? then s.sub.left else 0 }

  predicate Holds(s: State, e: nat, j: nat) {
    e < |s.engines|
    && var pc := s.engines[e].pc;
    (pc.Running? || pc.Marking? || pc.Counting?) && pc.slot == j
  }

  /** Subtask `j` of the current round has been run. */
  ghost predicate Ran(s: State, j: nat) {
    s.sub != Queueing && j !in s.fifo && forall e: nat :: !HasPc(s, e, Running(j))
  }

  /** Subtask `j` has been run and its error, if any, has reached the task. */
  ghost predicate Marked(s: State, j: nat) {
    Ran(s, j) && forall e: nat :: !HasPc(s, e, Marking(j))
  }

  /** The store: slot `i` was built with index `i`, and the current round's slots have the job's outputs. */
  ghost predicate Store(s: State) {
    && s.n <= |s.slots|
    && (forall i :: 0 <= i < |s.slots| ==> s.slots[i].Valid() && s.slots[i].index == i)
    && (forall i :: 0 <= i < s.n ==> s.slots[i].nOuts == s.job.nOuts)
    && (s.sub.Posting? || s.sub == Queueing ==> s.n >= 1)
  }

  /** Each unfinished subtask is in one place only. */
  ghost predicate OnePlace(s: State) {
    && (forall i :: 0 <= i < |s.fifo| ==> s.fifo[i] < s.n)
    && (forall i, k :: 0 <= i < k < |s.fifo| ==> s.fifo[i] != s.fifo[k])
    && (forall e: nat, j: nat :: Holds(s, e, j) ==> j < s.n && j !in s.fifo)
    && (forall e: nat, f: nat, j: nat :: Holds(s, e, j) && Holds(s, f, j) ==> e == f)
  }

  ghost predicate Counted(s: State) {
    && s.done + |s.fifo| + Held(s) == (if s.sub == Queueing then 0 else s.n)
    && (s.sub != Queueing && !s.sub.Posting? ==> s.done == s.n)
  }

  function RoundComplete(s: State): nat { if s.sub.Posting? && s.done == s.n then 1 else 0 }

  ghost predicate FinishedOnce(s: State) {
    && InFinalize(s) + s.finished == RoundComplete(s)
    && s.finalizes + InFinalize(s) == s.rounds + RoundComplete(s)
  }

  ghost predicate NotStranded(s: State) {
    |s.fifo| <= s.tokens + Woke(s) + PostsLeft(s) <= |s.fifo| + s.extra
  }

  ghost predicate Results(engine: Engine, s: State) {
    forall j: nat :: j < s.n && Ran(s, j) ==> Reports(s, j, Alone(engine, s.job, j))
  }

  predicate Reports(s: State, j: nat, report: Report) {
    && j < |s.slots| && s.slots[j].Valid()
    && (s.slots[j].isError ==> s.slots[j].nOuts > 0)
    && Observe(s.slots[j]) == report
  }

  ghost predicate Flag(s: State) {
    s.taskError <==> exists j: nat :: j < s.n && j < |s.slots| && Marked(s, j) && s.slots[j].isError
  }

  predicate Closing(s: State) {
    s.sub.ClosePosting? || (s.sub.Deleting? && s.sub.closing) || s.sub == Closed
  }

  /** Which threads may stop, and why those still waiting at shutdown will find a token. */
  ghost predicate Life(s: State) {
    && (s.work <==> !Closing(s))
    && (s.sub.Deleting? ==>
        && s.sub.next <= |s.engines|
        && (!s.sub.closing ==> 1 <= s.sub.keep <= s.sub.next)
        && (s.sub.closing ==> s.sub.keep == 0)
        && (forall e :: s.sub.keep <= e < s.sub.next ==> s.engines[e].pc == Exited)
        && (s.sub.stage != Asking ==> s.sub.next < |s.engines| && !s.engines[s.sub.next].shouldRun))
    && (s.sub == Closed ==> forall e :: 0 <= e < |s.engines| ==> s.engines[e].pc == Exited)
    && (forall e :: 0 <= e < |s.engines| ==>
        var t := s.engines[e];
        && (t.pc == Exited && s.work ==> !t.shouldRun)
        && (!t.shouldRun ==> t.pc == Exited || (s.sub.Deleting? && s.sub.stage != Asking && s.sub.next == e))
        && t.lateTokens <= (if s.work || t.pc == Waiting || t.pc == Entering then 0 else 1))
    && (!s.work ==> Asleep(s) <= s.tokens + if s.sub.ClosePosting? then s.sub.left else 0)
  }

  ghost predicate Inv(engine: Engine, s: State) {
    Store(s) && OnePlace(s) && Counted(s) && FinishedOnce(s) && NotStranded(s)
    && Results(engine, s) && Flag(s) && Life(s)
  }
}

/**
 * The multi-engine scheduler as a transition system. One submitter thread (the
 * MATLAB thread) prepares a task, queues its subtasks, posts one start token per
 * subtask and waits; any number of engine threads loop. Each label is one
 * atomic step of one thread.
 */
module Scheduler {
  import opened Common
  import opened EngineRun

  /**
   * Where an engine thread stands; the number is the slot of the subtask it holds.
   * `Entering` is past the loop condition and not yet blocked in the wait.
   */
  datatype Pc =
    | Head | Entering | Waiting | Woken
    | Running(slot: nat) | Marking(slot: nat) | Counting(slot: nat)
    | Finalizing | Exited

  /** `lateTokens` counts start tokens taken after shutdown began; no step reads it. */
  datatype EngineThread = EngineThread(pc: Pc, shouldRun: bool, lateTokens: nat)

  /** How far the removal of one engine has come. */
  datatype StopStage = Asking | Signalling | Joining

  datatype Submitter =
    | Idle
    | Queueing
    | Posting(left: nat)                     // with nothing left: waiting for the finished semaphore
    | ClosePosting(left: nat)
    | Deleting(next: nat, stage: StopStage, keep: nat, closing: bool)
    | Closed

  datatype State = State(
    work: bool,
    engines: seq<EngineThread>,
    tokens: nat,
    fifo: seq<nat>,
    sub: Submitter,
    finished: nat,
    job: Job, n: nat, slots: seq<Slot>, done: nat, taskError: bool,
    // History, read by no step: wake-ups and posts that belong to no subtask,
    // calls of FinalizeTask, and rounds that have returned.
    extra: nat, finalizes: nat, rounds: nat)

  datatype Label =
    | CheckLoop(e: nat) | Block(e: nat) | TakeToken(e: nat) | SpuriousWake(e: nat) | Extract(e: nat)
    | Run(e: nat) | Mark(e: nat) | Count(e: nat) | Finalize(e: nat)
    | Prepare(count: nat, newJob: Job) | Queue | Post | Return
    | AddEngine(started: bool) | Shrink(keep: nat)
    | BeginClose | ClosePost | Stop | Signal | Join

  const Init := State(true, [], 0, [], Idle, 0, Job("", [], 0), 0, [], 0, false, 0, 0, 0)

  /** The store keeps every slot it ever built; only slots past the largest size so far are new. */
  function GrowSlots(slots: seq<Slot>, count: nat): (r: seq<Slot>)
    ensures |r| == if count <= |slots| then |slots| else count
    ensures forall i :: 0 <= i < |slots| ==> r[i] == slots[i]
    ensures forall i :: |slots| <= i < |r| ==> r[i] == Slot(i, false, 0, [])
  {
    if count <= |slots| then slots
    else slots + seq(count - |slots|, i requires 0 <= i => Slot(|slots| + i, false, 0, []))
  }

  function ResizeOutputs(slot: Slot, nOuts: nat): (r: Slot)
    ensures r.nOuts == nOuts && r.Valid() && r.index == slot.index && r.isError == slot.isError
    ensures slot.outputs <= r.outputs
    ensures forall i :: |slot.outputs| <= i < |r.outputs| ==> r.outputs[i] == []
  {
    slot.(nOuts := nOuts,
          outputs := if nOuts <= |slot.outputs| then slot.outputs
                     else slot.outputs + seq(nOuts - |slot.outputs|, i => []))
  }

  /** The first `count` slots get this many outputs. */
  function SetOutputs(slots: seq<Slot>, count: nat, nOuts: nat): (r: seq<Slot>)
    ensures |r| == |slots|
    ensures forall i :: 0 <= i < |slots| ==> r[i] == if i < count then ResizeOutputs(slots[i], nOuts) else slots[i]
  {
    seq(|slots|, i requires 0 <= i < |slots| => if i < count then ResizeOutputs(slots[i], nOuts) else slots[i])
  }

  /** The slots after `PrepareTaskForCalc`. */
  function PrepareSlots(slots: seq<Slot>, count: nat, nOuts: nat): (r: seq<Slot>)
    ensures |r| >= count && |r| >= |slots|
  {
    SetOutputs(GrowSlots(slots, count), count, nOuts)
  }

  predicate HasPc(s: State, e: nat, pc: Pc) {
    e < |s.engines| && s.engines[e].pc == pc
  }

  function SetPc(s: State, e: nat, pc: Pc): State
    requires e < |s.engines|
  {
    s.(engines := s.engines[e := s.engines[e].(pc := pc)])
  }

  predicate Enabled(s: State, l: Label) {
    match l
    case CheckLoop(e) => HasPc(s, e, Head)
    case Block(e) => HasPc(s, e, Entering)
    case TakeToken(e) => HasPc(s, e, Waiting) && s.tokens > 0
    case SpuriousWake(e) => HasPc(s, e, Waiting)
    case Extract(e) => HasPc(s, e, Woken)
    case Run(e) => e < |s.engines| && s.engines[e].pc.Running? && s.engines[e].pc.slot < |s.slots|
                   && s.slots[s.engines[e].pc.slot].Valid()
    case Mark(e) => e < |s.engines| && s.engines[e].pc.Marking? && s.engines[e].pc.slot < |s.slots|
    case Count(e) => e < |s.engines| && s.engines[e].pc.Counting?
    case Finalize(e) => HasPc(s, e, Finalizing)
    case Prepare(count, _) => s.sub == Idle && count >= 1
    case Queue => s.sub == Queueing
    case Post => s.sub.Posting? && s.sub.left > 0
    case Return => s.sub == Posting(0) && s.finished > 0
    case AddEngine(_) => s.sub == Idle
    case Shrink(keep) => s.sub == Idle && 1 <= keep < |s.engines|
    case BeginClose => s.sub == Idle
    case ClosePost => s.sub.ClosePosting?
    case Stop => s.sub.Deleting? && s.sub.stage.Asking?
    case Signal => s.sub.Deleting? && s.sub.stage.Signalling? && s.sub.next < |s.engines|
    case Join => s.sub.Deleting? && s.sub.stage.Joining? && HasPc(s, s.sub.next, Exited)
  }

  function Next(engine: Engine, s: State, l: Label): State
    requires Enabled(s, l)
  {
    match l
    case CheckLoop(e) => SetPc(s, e, if s.engines[e].shouldRun && s.work then Entering else Exited)
    case Block(e) => SetPc(s, e, Waiting)
    case TakeToken(e) =>
      var late := if s.work then 0 else 1;
      s.(tokens := s.tokens - 1,
         engines := s.engines[e := EngineThread(Woken, s.engines[e].shouldRun, s.engines[e].lateTokens + late)])
    case SpuriousWake(e) => SetPc(s, e, Woken).(extra := s.extra + 1)
    case Extract(e) =>
      if s.fifo == [] then SetPc(s, e, Head)
      else SetPc(s, e, Running(s.fifo[0])).(fifo := s.fifo[1..])
    case Run(e) =>
      var j := s.engines[e].pc.slot;
      SetPc(s, e, Marking(j)).(slots := s.slots[j := AfterRun(engine, s.job, s.slots[j])])
    case Mark(e) =>
      var j := s.engines[e].pc.slot;
      SetPc(s, e, Counting(j)).(taskError := s.taskError || s.slots[j].isError)
    case Count(e) =>
      SetPc(s, e, if s.n <= s.done + 1 then Finalizing else Head).(done := s.done + 1)
    case Finalize(e) => SetPc(s, e, Head).(finished := s.finished + 1, finalizes := s.finalizes + 1)
    case Prepare(count, newJob) =>
      s.(job := newJob, n := count, slots := PrepareSlots(s.slots, count, newJob.nOuts),
         done := 0, taskError := false, sub := Queueing)
    case Queue => s.(fifo := s.fifo + seq(s.n, i => i), sub := Posting(s.n))
    case Post => s.(tokens := s.tokens + 1, sub := Posting(s.sub.left - 1))
    case Return => s.(finished := s.finished - 1, rounds := s.rounds + 1, sub := Idle)
    case AddEngine(started) =>
      s.(engines := s.engines + [if started then EngineThread(Head, true, 0) else EngineThread(Exited, false, 0)])
    case Shrink(keep) => s.(sub := Deleting(keep, Asking, keep, false))
    case BeginClose => s.(work := false, sub := ClosePosting(|s.engines|))
    case ClosePost =>
      if s.sub.left == 0 then s.(sub := Deleting(0, Asking, 0, true))
      else s.(tokens := s.tokens + 1, extra := s.extra + 1, sub := ClosePosting(s.sub.left - 1))
    case Stop =>
      var d := s.sub;
      if d.next >= |s.engines| then
        if d.closing then s.(sub := Closed)
        else s.(sub := Idle, engines := if d.keep <= |s.engines| then s.engines[..d.keep] else s.engines)
      else if !s.engines[d.next].shouldRun then s.(sub := d.(next := d.next + 1))
      else s.(sub := d.(stage := Signalling),
              engines := s.engines[d.next := s.engines[d.next].(shouldRun := false)])
    case Signal =>
      // The signal interrupts a blocked wait; a thread that is not blocked yet does not notice it.
      var t := s.(sub := s.sub.(stage := Joining));
      if s.work && HasPc(s, s.sub.next, Waiting) then SetPc(t, s.sub.next, Woken).(extra := s.extra + 1) else t
    case Join => s.(sub := s.sub.(next := s.sub.next + 1, stage := Asking))
  }
}

/**
 * What one engine thread does with one subtask: the inputs it gives to the
 * engine, and what it leaves in the subtask's own slot afterwards.
 * The engine itself is an uninterpreted function.
 */
module EngineRun {
  import opened Common

  const REPLACE_BY_INDEX := "--replace-by-index"

  datatype MxArray = Chars(text: string) | UInt32(value: nat) | Opaque(id: int)

  /** One submission: the function to call, its inputs and the number of outputs. */
  datatype Job = Job(name: string, inputs: seq<MxArray>, nOuts: nat)

  /**
   * What the engine makes available after a call: the byte stream of each
   * output (an output past the end of `outs` is missing as well, so a call that
   * throws leaves `outs` empty) and the byte stream of the last exception.
   */
  datatype Outcome = Outcome(outs: seq<Option<Bytes>>, exception: Option<Bytes>)

  type Engine = (string, seq<MxArray>, nat) -> Outcome

  /**
   * A subtask. `outputs` is everything ever constructed in its output store,
   * of which the first `nOuts` entries belong to the current submission.
   */
  datatype Slot = Slot(index: nat, isError: bool, nOuts: nat, outputs: seq<Bytes>) {
    predicate Valid() { nOuts <= |outputs| }
  }

  /** A text input is replaced by the subtask index when it begins with the marker: the copy is cut to the marker's length. */
  function InputFor(input: MxArray, index: nat): MxArray {
    if input.Chars? && REPLACE_BY_INDEX <= input.text then UInt32(index) else input
  }

  function InputsFor(inputs: seq<MxArray>, index: nat): seq<MxArray> {
    seq(|inputs|, i requires 0 <= i < |inputs| => InputFor(inputs[i], index))
  }

  function Call(engine: Engine, job: Job, index: nat): Outcome {
    engine(job.name, InputsFor(job.inputs, index), job.nOuts)
  }

  function Stream(o: Outcome, i: nat): Option<Bytes> {
    if i < |o.outs| then o.outs[i] else None
  }

  /** The first output of the call that has no byte stream, or `n` when all are there. */
  function FirstMissing(o: Outcome, n: nat): (k: nat)
    ensures k <= n
    ensures forall i: nat :: i < k ==> Stream(o, i).Some?
    ensures k < n ==> Stream(o, k).None?
  {
    if n == 0 then 0
    else
      var k := FirstMissing(o, n - 1);
      if k < n - 1 || Stream(o, k).None? then k else n
  }

  function Streams(o: Outcome, k: nat): (r: seq<Bytes>)
    requires forall i: nat :: i < k ==> Stream(o, i).Some?
    ensures |r| == k
  {
    seq(k, i requires 0 <= i < k => Stream(o, i).value)
  }

  /** The slot after `runFunctionInEngineThread`, whatever an earlier submission left in it. */
  function AfterRun(engine: Engine, job: Job, slot: Slot): (r: Slot)
    requires slot.Valid()
    ensures r.Valid() && r.index == slot.index && r.nOuts == slot.nOuts && |r.outputs| == |slot.outputs|
  {
    var o := Call(engine, job, slot.index);
    var k := FirstMissing(o, slot.nOuts);
    var kept := Streams(o, k) + slot.outputs[k..];
    if k == slot.nOuts then slot.(isError := false, outputs := kept)
    else slot.(isError := true,
               outputs := if o.exception.Some? then kept[0 := o.exception.value] else kept[k := []])
  }

  /** What the submitter can see of a subtask: all its outputs, or the first entry of a failed one. */
  datatype Report = Outputs(streams: seq<Bytes>) | Failure(stream: Bytes)

  function Observe(slot: Slot): Report
    requires slot.Valid()
    requires slot.isError ==> slot.nOuts > 0
  {
    if slot.isError then Failure(slot.outputs[0]) else Outputs(slot.outputs[..slot.nOuts])
  }

  /** What running the subtask with this index alone, once, on an idle machine reports. */
  function Alone(engine: Engine, job: Job, index: nat): Report {
    var o := Call(engine, job, index);
    var k := FirstMissing(o, job.nOuts);
    if k == job.nOuts then Outputs(Streams(o, k))
    else if o.exception.Some? then Failure(o.exception.value)
    else if k == 0 then Failure([])
    else Failure(Stream(o, 0).value)
  }

  // ---- what is reported, from what the engine is given and what it makes available ----

  /** Subtask `index` gives the engine `ins`: its own index for each text that begins with the marker, and all else as submitted. */
  ghost predicate GivenTo(ins: seq<MxArray>, inputs: seq<MxArray>, index: nat) {
    && |ins| == |inputs|
    && forall i :: 0 <= i < |ins| ==>
         ins[i] == match inputs[i]
                   case Chars(text) => if REPLACE_BY_INDEX <= text then UInt32(index) else inputs[i]
                   case _ => inputs[i]
  }

  /** One of the first `n` outputs is missing. */
  ghost predicate Fails(o: Outcome, n: nat) {
    exists i: nat :: i < n && (i < |o.outs| ==> o.outs[i] == None)
  }

  /** `stream` is that of the exception if it has one, else of the first output if that is there, else it is empty. */
  ghost predicate ErrorStream(o: Outcome, stream: Bytes) {
    match o.exception
    case Some(thrown) => stream == thrown
    case None =>
      if |o.outs| > 0 && o.outs[0].Some? then o.outs[0] == Some(stream) else stream == []
  }

  /** These are the byte streams of the first `n` outputs. */
  ghost predicate GivesAll(o: Outcome, n: nat, streams: seq<Bytes>) {
    |streams| == n <= |o.outs| && forall i :: 0 <= i < n ==> o.outs[i] == Some(streams[i])
  }

  /** The slot holds all outputs of the outcome, or tells its failure in first place. */
  ghost predicate HoldsOutcome(slot: Slot, o: Outcome) {
    && slot.nOuts <= |slot.outputs|
    && if Fails(o, slot.nOuts) then slot.isError && slot.nOuts > 0 && ErrorStream(o, slot.outputs[0])
       else !slot.isError && GivesAll(o, slot.nOuts, slot.outputs[..slot.nOuts])
  }

  /** The slot shows what the engine's function gives for this subtask of the job. */
  ghost predicate ShowsOwn(engine: Engine, job: Job, index: nat, slot: Slot) {
    slot.nOuts == job.nOuts && exists ins :: GivenTo(ins, job.inputs, index) && HoldsOutcome(slot, engine(job.name, ins, job.nOuts))
  }

  /** The engine's function does not give all outputs for this subtask of the job. */
  ghost predicate FailsOwn(engine: Engine, job: Job, index: nat) {
    exists ins :: GivenTo(ins, job.inputs, index) && Fails(engine(job.name, ins, job.nOuts), job.nOuts)
  }

  /** What a run leaves is the outcome of the engine's function on the subtask's own inputs. */
  lemma RunHoldsOutcome(engine: Engine, job: Job, slot: Slot) returns (ins: seq<MxArray>)
    requires slot.Valid()
    ensures GivenTo(ins, job.inputs, slot.index)
    ensures HoldsOutcome(AfterRun(engine, job, slot), engine(job.name, ins, job.nOuts))
  {
    ins := InputsFor(job.inputs, slot.index);
    var o := engine(job.name, ins, job.nOuts);
    var k := FirstMissing(o, slot.nOuts);
    if k < slot.nOuts {
      assert Stream(o, k).None? && Fails(o, slot.nOuts);
    } else {
      forall i: nat | i < slot.nOuts ensures i < |o.outs| && o.outs[i].Some? { assert Stream(o, i).Some?; }
    }
  }

  /** The report of a subtask that runs alone is the outcome of the engine's function on its own inputs. */
  lemma AloneReportsOutcome(engine: Engine, job: Job, index: nat) returns (ins: seq<MxArray>)
    ensures GivenTo(ins, job.inputs, index)
    ensures var o, r := engine(job.name, ins, job.nOuts), Alone(engine, job, index);
      if Fails(o, job.nOuts) then r.Failure? && ErrorStream(o, r.stream)
      else r.Outputs? && GivesAll(o, job.nOuts, r.streams)
  {
    ins := InputsFor(job.inputs, index);
    var o := engine(job.name, ins, job.nOuts);
    var k := FirstMissing(o, job.nOuts);
    if k < job.nOuts {
      assert Stream(o, k).None? && Fails(o, job.nOuts);
      if k > 0 { assert Stream(o, 0).Some?; }
    } else {
      forall i: nat | i < job.nOuts ensures i < |o.outs| && o.outs[i].Some? { assert Stream(o, i).Some?; }
    }
  }

  /** A subtask has only one list of inputs. */
  lemma GivenOnce(ins: seq<MxArray>, others: seq<MxArray>, inputs: seq<MxArray>, index: nat)
    requires GivenTo(ins, inputs, index) && GivenTo(others, inputs, index)
    ensures ins == others
  {
  }

  lemma ReportShows(engine: Engine, job: Job, slot: Slot, index: nat)
    requires slot.Valid() && slot.nOuts == job.nOuts && (slot.isError ==> slot.nOuts > 0)
    requires Observe(slot) == Alone(engine, job, index)
    ensures ShowsOwn(engine, job, index, slot) && (slot.isError <==> FailsOwn(engine, job, index))
  {
    hide Alone, GivenTo, ErrorStream, GivesAll;
    var ins := AloneReportsOutcome(engine, job, index);
    forall others | GivenTo(others, job.inputs, index) ensures others == ins { GivenOnce(ins, others, job.inputs, index); }
  }

  /** A run reports the same whatever was in the slot before. */
  lemma RunForgetsTheSlot(engine: Engine, job: Job, slot: Slot)
    requires slot.Valid() && slot.nOuts == job.nOuts
    ensures var r := AfterRun(engine, job, slot);
      && (r.isError ==> r.nOuts > 0)
      && Observe(r) == Alone(engine, job, slot.index)
  {
    var o := Call(engine, job, slot.index);
    var k := FirstMissing(o, slot.nOuts);
    if k == slot.nOuts {
      assert (Streams(o, k) + slot.outputs[k..])[..slot.nOuts] == Streams(o, k);
    }
  }

  /** A subtask in which the engine produced nothing at all is reported as failed exactly when an output was asked for. */
  lemma ThrowingCallIsReportedIffOutputsAsked(engine: Engine, job: Job, slot: Slot)
    requires slot.Valid() && slot.nOuts == job.nOuts
    requires Call(engine, job, slot.index).outs == []
    ensures AfterRun(engine, job, slot).isError <==> job.nOuts >= 1
  {
    var k := FirstMissing(Call(engine, job, slot.index), slot.nOuts);
    assert Stream(Call(engine, job, slot.index), 0).None?;
  }
}

/**
 * The objects behind the scheduler's slots: subtasks, the resizable store that
 * owns them, and the task. Each method is proved to do to its object what the
 * transition system does to the corresponding value.
 */
module TaskObjects {
  import opened Common
  import opened EngineRun
  import opened Scheduler

  class SubTask {
    const index: nat
    var isError: bool
    var nOuts: nat
    var outputs: seq<Bytes>

    ghost function View(): Slot
      reads this
    {
      Slot(index, isError, nOuts, outputs)
    }

    constructor (index: nat)
      ensures View() == Slot(index, false, 0, [])
    {
      this.index := index;
      isError, nOuts, outputs := false, 0, [];
    }

    /** The output store grows by constructing empty entries and never shrinks. */
    method SetNumberOfOutputs(count: nat)
      requires View().Valid()
      modifies this
      ensures View() == ResizeOutputs(old(View()), count)
    {
      ghost var was := outputs;
      while |outputs| < count
        invariant was <= outputs && |outputs| <= (if |was| < count then count else |was|)
        invariant forall i :: |was| <= i < |outputs| ==> outputs[i] == []
        invariant isError == old(isError)
      {
        outputs := outputs + [[]];
      }
      nOuts := count;
      assert outputs == ResizeOutputs(old(View()), count).outputs;
    }

    /** `runFunctionInEngineThread`: copy the output streams one by one, and on the first missing one put the exception in first place. */
    method RunInEngine(engine: Engine, job: Job)
      requires View().Valid()
      modifies this
      ensures View() == AfterRun(engine, job, old(View()))
      ensures exists ins :: GivenTo(ins, job.inputs, index) && HoldsOutcome(View(), engine(job.name, ins, job.nOuts))
    {
      ghost var was := outputs;
      isError := false;
      var o := Call(engine, job, index);
      var i := 0;
      while i < nOuts
        invariant i <= nOuts == old(nOuts) && !isError
        invariant |outputs| == |was|
        invariant forall k: nat :: k < i ==> Stream(o, k).Some? && outputs[k] == Stream(o, k).value
        invariant forall k :: i <= k < |was| ==> outputs[k] == was[k]
      {
        if Stream(o, i).None? { break; }
        outputs := outputs[i := Stream(o, i).value];
        i := i + 1;
      }
      assert i == FirstMissing(o, nOuts);
      assert outputs == Streams(o, i) + was[i..];
      if i < nOuts {
        if o.exception.Some? { outputs := outputs[0 := o.exception.value]; }
        else { outputs := outputs[i := []]; }
        isError := true;
      }
      ghost var ins := RunHoldsOutcome(engine, job, old(View()));
    }
  }

  /** The store of subtasks: capacity only grows, and an entry is constructed once, with its position as index. */
  class SubTaskStore {
    var buffer: array<SubTask?>
    var size: nat

    ghost predicate Valid()
      reads this, buffer, buffer[..]
    {
      && size <= buffer.Length
      && forall k :: 0 <= k < buffer.Length ==> buffer[k] != null && buffer[k].index == k && buffer[k].View().Valid()
    }

    ghost function Slots(): (r: seq<Slot>)
      requires Valid()
      reads this, buffer, buffer[..]
      ensures |r| == buffer.Length
    {
      seq(buffer.Length, k requires 0 <= k < buffer.Length && Valid() reads this, buffer, buffer[..] => buffer[k].View())
    }

    constructor ()
      ensures Valid() && size == 0 && Slots() == [] && fresh(buffer)
    {
      buffer := new SubTask?[0];
      size := 0;
    }

    method Resize(newSize: nat)
      requires Valid()
      modifies this
      ensures Valid() && size == newSize
      ensures Slots() == GrowSlots(old(Slots()), newSize)
      ensures forall k :: 0 <= k < old(buffer.Length) ==> k < buffer.Length && buffer[k] == old(buffer[k])
      ensures forall k :: old(buffer.Length) <= k < buffer.Length ==> fresh(buffer[k])
    {
      if newSize > buffer.Length {
        var moved := new SubTask?[newSize];
        forall k | 0 <= k < buffer.Length { moved[k] := buffer[k]; }
        var maxSize := buffer.Length;
        while maxSize < newSize
          invariant buffer.Length <= maxSize <= newSize && fresh(moved) && moved.Length == newSize
          invariant buffer == old(buffer) && unchanged(this)
          invariant forall k :: 0 <= k < buffer.Length ==> moved[k] == old(buffer[k])
          invariant forall k :: buffer.Length <= k < maxSize ==>
            moved[k] != null && fresh(moved[k]) && moved[k].View() == Slot(k, false, 0, [])
        {
          moved[maxSize] := new SubTask(maxSize);
          maxSize := maxSize + 1;
        }
        buffer := moved;
      }
      size := newSize;
    }

    /** Give each subtask of the current size this many outputs. */
    method SetNumberOfOutputs(nOuts: nat)
      requires Valid()
      modifies buffer[..]
      ensures Valid()
      ensures Slots() == SetOutputs(old(Slots()), size, nOuts)
    {
      ghost var was := Slots();
      var i := 0;
      while i < size
        invariant i <= size && Valid()
        invariant forall k :: 0 <= k < |was| ==>
          buffer[k].View() == if k < i then ResizeOutputs(was[k], nOuts) else was[k]
      {
        assert buffer[i].View() == was[i];
        buffer[i].SetNumberOfOutputs(nOuts);
        i := i + 1;
      }
      assert Slots() == SetOutputs(was, size, nOuts);
    }
  }

  class Task {
    const store: SubTaskStore
    var job: Job
    var done: nat
    var isError: bool

    ghost predicate Valid()
      reads this, store, store.buffer, store.buffer[..]
    {
      store.Valid()
    }

    constructor ()
      ensures Valid() && store.Slots() == [] && store.size == 0
      ensures fresh(store)
    {
      store := new SubTaskStore();
      job, done, isError := Job("", [], 0), 0, false;
    }

    method PrepareTaskForCalc(count: nat, newJob: Job)
      requires Valid()
      modifies this, store, store.buffer[..]
      ensures Valid() && store.size == count
      ensures store.Slots() == PrepareSlots(old(store.Slots()), count, newJob.nOuts)
      ensures job == newJob && done == 0 && !isError
    {
      hide GrowSlots, SetOutputs, ResizeOutputs;
      isError := false;
      store.Resize(count);
      store.SetNumberOfOutputs(newJob.nOuts);
      job := newJob;
      done := 0;
    }

    /** The error of a finished subtask reaches the task. */
    method MarkError(j: nat)
      requires Valid() && j < store.size
      modifies this
      ensures Valid() && isError == (old(isError) || store.Slots()[j].isError)
      ensures job == old(job) && done == old(done)
    {
      if store.buffer[j].isError { isError := true; }
    }

    /** Under the task's mutex: one more subtask is done; true for the one that completes the task. */
    method SetSubTaskDone() returns (inform: bool)
      requires Valid()
      modifies this
      ensures Valid() && done == old(done) + 1 && inform == (store.size <= old(done) + 1)
      ensures job == old(job) && isError == old(isError)
    {
      done := done + 1;
      inform := store.size <= done;
    }
  }
}

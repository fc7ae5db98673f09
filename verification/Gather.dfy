/** How the submitter turns a finished task into what the caller gets: cell arrays of outputs, or one rethrown exception. */
module Gather {
  import opened Common
  import opened EngineRun
  import opened Scheduler
  import opened SchedulerInvariant
  import opened SchedulerTheorems
  import opened TaskObjects

  /** `getArrayFromByteStream`, which may have no array to give. */
  type FromStream = Bytes -> Option<MxArray>

  datatype MexResult = Rethrown(exception: MxArray) | Nothing | Cells(cells: seq<seq<Option<MxArray>>>)

  /** The smallest index in error, or `n`. */
  function FirstError(slots: seq<Slot>, n: nat): (j: nat)
    requires n <= |slots|
    ensures j <= n
    ensures forall k :: 0 <= k < j ==> !slots[k].isError
    ensures j < n ==> slots[j].isError
  {
    if n == 0 then 0
    else
      var j := FirstError(slots, n - 1);
      if j < n - 1 || slots[n - 1].isError then j else n
  }

  function Collect(taskError: bool, slots: seq<Slot>, n: nat, nOuts: nat, decode: FromStream): MexResult
    requires n <= |slots|
    requires forall j :: 0 <= j < n ==> slots[j].Valid() && slots[j].nOuts == nOuts
    requires forall j :: 0 <= j < n && slots[j].isError ==> nOuts > 0
  {
    var j := FirstError(slots, n);
    if taskError && j < n then
      assert slots[j].Valid();
      Rethrow(decode(slots[j].outputs[0]))
    else
      Cells(Table(nOuts, n, (i: nat, j: nat) => SlotCell(slots, i, j, decode)))
  }

  /** One row per output, one column per subtask. */
  function Table<T>(rows: nat, columns: nat, f: (nat, nat) -> T): (r: seq<seq<T>>)
    ensures |r| == rows && forall i :: 0 <= i < rows ==> |r[i]| == columns
    ensures forall i, j :: 0 <= i < rows && 0 <= j < columns ==> r[i][j] == f(i, j)
  {
    seq(rows, i requires 0 <= i => seq(columns, j requires 0 <= j => f(i, j)))
  }

  /** A matrix with the right shape and entries is the table. */
  lemma IsTable<T>(m: seq<seq<T>>, rows: nat, columns: nat, f: (nat, nat) -> T)
    requires |m| == rows && forall i :: 0 <= i < rows ==> |m[i]| == columns
    requires forall i, j :: 0 <= i < rows && 0 <= j < columns ==> m[i][j] == f(i, j)
    ensures m == Table(rows, columns, f)
  {
    forall i | 0 <= i < rows ensures m[i] == Table(rows, columns, f)[i] { }
  }

  function Rethrow(exception: Option<MxArray>): MexResult {
    if exception.Some? then Rethrown(exception.value) else Nothing
  }

  function SlotCell(slots: seq<Slot>, i: nat, j: nat, decode: FromStream): Option<MxArray> {
    if j < |slots| && i < |slots[j].outputs| then decode(slots[j].outputs[i]) else None
  }

  /** The caller gets the exception in the stream, if it is one. */
  ghost predicate Throws(r: MexResult, exception: Option<MxArray>) {
    match exception
    case Some(x) => r == Rethrown(x)
    case None => r == Nothing
  }

  /** The exception in the first output of the first slot in error, else one array for each output of each slot. */
  ghost predicate Gathers(r: MexResult, taskError: bool, slots: seq<Slot>, n: nat, nOuts: nat, decode: FromStream) {
    && n <= |slots|
    && (forall j :: taskError && 0 <= j < n && slots[j].isError && (forall k :: 0 <= k < j ==> !slots[k].isError) ==>
          slots[j].outputs != [] && Throws(r, decode(slots[j].outputs[0])))
    && (!taskError || (forall j :: 0 <= j < n ==> !slots[j].isError) ==>
          && r.Cells? && |r.cells| == nOuts && (forall i :: 0 <= i < nOuts ==> |r.cells[i]| == n)
          && forall i, j :: 0 <= i < nOuts && 0 <= j < n ==> i < |slots[j].outputs| && r.cells[i][j] == decode(slots[j].outputs[i]))
  }

  lemma CollectGathers(taskError: bool, slots: seq<Slot>, n: nat, nOuts: nat, decode: FromStream)
    requires n <= |slots|
    requires forall j :: 0 <= j < n ==> slots[j].Valid() && slots[j].nOuts == nOuts
    requires forall j :: 0 <= j < n && slots[j].isError ==> nOuts > 0
    ensures Gathers(Collect(taskError, slots, n, nOuts, decode), taskError, slots, n, nOuts, decode)
  {
    hide Table, FirstError;
    var first := FirstError(slots, n);
    forall j | taskError && 0 <= j < n && slots[j].isError && (forall k :: 0 <= k < j ==> !slots[k].isError) ensures j == first {
    }
    forall j | 0 <= j < n ensures nOuts <= |slots[j].outputs| { assert slots[j].Valid(); }
  }

  /** The end of `RunTasksOnTheEngines`, after `calcAndWait` has returned. */
  method CollectOutputs(task: Task, n: nat, nOuts: nat, decode: FromStream) returns (r: MexResult)
    requires task.Valid() && n <= task.store.buffer.Length
    requires var slots := task.store.Slots();
      forall j :: 0 <= j < n ==> slots[j].Valid() && slots[j].nOuts == nOuts && (slots[j].isError ==> nOuts > 0)
    ensures r == Collect(task.isError, task.store.Slots(), n, nOuts, decode)
    ensures Gathers(r, task.isError, task.store.Slots(), n, nOuts, decode)
  {
    hide Gathers;
    ghost var slots := task.store.Slots();
    CollectGathers(task.isError, slots, n, nOuts, decode);
    if task.isError {
      var j := 0;
      while j < n
        invariant j <= n && forall k :: 0 <= k < j ==> !slots[k].isError
      {
        assert task.store.buffer[j].View() == slots[j];
        if task.store.buffer[j].isError {
          assert j == FirstError(slots, n);
          var out := decode(task.store.buffer[j].outputs[0]);
          if out.Some? { return Rethrown(out.value); }
          return Nothing;
        }
        j := j + 1;
      }
    }
    var cells := [];
    var i := 0;
    while i < nOuts
      invariant i <= nOuts && |cells| == i
      invariant forall p :: 0 <= p < i ==> |cells[p]| == n
      invariant forall p, q :: 0 <= p < i && 0 <= q < n ==> cells[p][q] == decode(slots[q].outputs[p])
    {
      var cell := [];
      var j := 0;
      while j < n
        invariant j <= n && |cell| == j
        invariant forall q :: 0 <= q < j ==> cell[q] == decode(slots[q].outputs[i])
      {
        assert task.store.buffer[j].View() == slots[j];
        cell := cell + [decode(task.store.buffer[j].outputs[i])];
        j := j + 1;
      }
      cells := cells + [cell];
      i := i + 1;
    }
    r := Cells(cells);
    IsTable(cells, nOuts, n, (i: nat, j: nat) => SlotCell(slots, i, j, decode));
  }

  // ---- the sequential meaning of a submission ----

  /** The smallest index whose call fails on its own, or `n`. */
  function FirstFailure(engine: Engine, job: Job, n: nat): (j: nat)
    ensures j <= n
    ensures forall k: nat :: k < j ==> Alone(engine, job, k).Outputs?
    ensures j < n ==> Alone(engine, job, j).Failure?
  {
    if n == 0 then 0
    else
      var j := FirstFailure(engine, job, n - 1);
      if j < n - 1 || Alone(engine, job, n - 1).Failure? then j else n
  }

  /** Call the function for index 0, 1, .. one after the other; stop at the first failure. */
  function Sequential(engine: Engine, job: Job, n: nat, decode: FromStream): MexResult {
    var j := FirstFailure(engine, job, n);
    if j < n then
      Rethrow(decode(Alone(engine, job, j).stream))
    else
      Cells(Table(job.nOuts, n, (i: nat, j: nat) => Cell(Alone(engine, job, j), i, decode)))
  }

  function Cell(report: Report, i: nat, decode: FromStream): Option<MxArray> {
    if report.Outputs? && i < |report.streams| then decode(report.streams[i]) else None
  }

  /**
   * What the caller gets, from the engine's function on the inputs of each index: the
   * exception of the smallest index that does not give all outputs, else an array for
   * each output of each index.
   */
  ghost predicate Yields(r: MexResult, engine: Engine, job: Job, n: nat, decode: FromStream) {
    && (forall j: nat, ins :: j < n && GivenTo(ins, job.inputs, j) && FailsFirst(engine, job, j) ==>
          exists stream :: ErrorStream(engine(job.name, ins, job.nOuts), stream) && Throws(r, decode(stream)))
    && ((forall j: nat :: j < n ==> !FailsOwn(engine, job, j)) ==>
          && r.Cells? && |r.cells| == job.nOuts && (forall i: nat :: i < job.nOuts ==> |r.cells[i]| == n)
          && forall i: nat, j: nat, ins :: i < job.nOuts && j < n && GivenTo(ins, job.inputs, j) ==>
               CellIs(r.cells[i][j], engine(job.name, ins, job.nOuts), i, decode))
  }

  ghost predicate FailsFirst(engine: Engine, job: Job, j: nat) {
    FailsOwn(engine, job, j) && forall k: nat :: k < j ==> !FailsOwn(engine, job, k)
  }

  /** The array is what the byte stream of output `i` holds. */
  ghost predicate CellIs(cell: Option<MxArray>, o: Outcome, i: nat, decode: FromStream) {
    i < |o.outs| && o.outs[i].Some? && cell == decode(o.outs[i].value)
  }

  lemma SequentialYields(engine: Engine, job: Job, n: nat, decode: FromStream)
    ensures Yields(Sequential(engine, job, n, decode), engine, job, n, decode)
  {
    hide Alone, GivenTo, ErrorStream, FailsOwn, Fails;
    var r := Sequential(engine, job, n, decode);
    forall j: nat ensures FailsOwn(engine, job, j) <==> Alone(engine, job, j).Failure? { var own := OwnReport(engine, job, j); }
    var first := FirstFailure(engine, job, n);
    forall j: nat, ins | j < n && GivenTo(ins, job.inputs, j)
      ensures FailsFirst(engine, job, j) ==>
        exists stream :: ErrorStream(engine(job.name, ins, job.nOuts), stream) && Throws(r, decode(stream))
      ensures first == n ==> forall i: nat :: i < job.nOuts ==> CellIs(r.cells[i][j], engine(job.name, ins, job.nOuts), i, decode)
    {
      var own := OwnReport(engine, job, j);
      GivenOnce(ins, own, job.inputs, j);
      if FailsFirst(engine, job, j) { assert j == first; }
    }
  }

  lemma OwnReport(engine: Engine, job: Job, j: nat) returns (ins: seq<MxArray>)
    ensures GivenTo(ins, job.inputs, j) && (FailsOwn(engine, job, j) <==> Alone(engine, job, j).Failure?)
    ensures var o, r := engine(job.name, ins, job.nOuts), Alone(engine, job, j);
      if r.Failure? then ErrorStream(o, r.stream)
      else GivesAll(o, job.nOuts, r.streams)
  {
    hide Alone, GivenTo, ErrorStream, Fails, GivesAll;
    ins := AloneReportsOutcome(engine, job, j);
    forall others | GivenTo(others, job.inputs, j) ensures others == ins { GivenOnce(ins, others, job.inputs, j); }
  }

  /** Whatever the interleaving, a submission yields what the sequential loop yields; in particular the exception rethrown is that of the smallest failing index. */
  lemma ParallelEqualsSequential(engine: Engine, states: seq<State>, labels: seq<Label>, p: nat, k: nat, decode: FromStream)
    requires Round(engine, states, labels, p, k)
    ensures var s, n, job := states[k], labels[p].count, labels[p].newJob;
      && n <= |s.slots|
      && (forall j :: 0 <= j < n ==> s.slots[j].Valid() && s.slots[j].nOuts == job.nOuts
                                     && (s.slots[j].isError ==> job.nOuts > 0))
      && Collect(s.taskError, s.slots, n, job.nOuts, decode) == Sequential(engine, job, n, decode)
      && Yields(Collect(s.taskError, s.slots, n, job.nOuts, decode), engine, job, n, decode)
  {
    hide Yields, ShowsOwn, FailsOwn;
    SequentialYields(engine, labels[p].newJob, labels[p].count, decode);
    var s, n, job := states[k], labels[p].count, labels[p].newJob;
    ParallelRefinesSequential(engine, states, labels, p, k);
    RunInv(engine, states, labels, k);
    forall j: nat | j < n ensures s.slots[j].isError <==> Alone(engine, job, j).Failure? {
      assert Reports(s, j, Alone(engine, job, j));
    }
    var first := FirstError(s.slots, n);
    assert first == FirstFailure(engine, job, n);
    if first < n {
      assert Reports(s, first, Alone(engine, job, first));
    } else {
      forall i: nat, j: nat | i < job.nOuts && j < n
        ensures SlotCell(s.slots, i, j, decode) == Cell(Alone(engine, job, j), i, decode)
      {
        assert Reports(s, j, Alone(engine, job, j));
        assert s.slots[j].outputs[i] == s.slots[j].outputs[..job.nOuts][i];
      }
      IsTable(Table(job.nOuts, n, (i: nat, j: nat) => SlotCell(s.slots, i, j, decode)),
              job.nOuts, n, (i: nat, j: nat) => Cell(Alone(engine, job, j), i, decode));
    }
  }
}

/**
 * The inner loop of the resource thread, on the heap: it empties the job queue and
 * keeps the connection list. Jobs name items by the number of their creation.
 */
module ResourceJobs {
  import opened Common
  import opened ConnectionLists
  import opened FifoFasts
  import L = ServerLifecycle

  type Job = L.Job

  /** How many items there have been, and the numbers of those in the list. */
  datatype Record = Record(made: nat, ids: seq<nat>)

  function AfterJob(r: Record, job: Job): Record {
    match job
    case NewClient(_) => Record(r.made + 1, r.ids + [r.made])
    case DeleteClient(id) => Record(r.made, L.Remove(r.ids, id))
    case FinishLoop => r
  }

  function AfterJobs(r: Record, jobs: seq<Job>): Record
    decreases |jobs|
  {
    if jobs == [] then r else AfterJobs(AfterJob(r, jobs[0]), jobs[1..])
  }

  predicate InOrder(r: Record) {
    L.Increasing(r.ids) && forall i :: 0 <= i < |r.ids| ==> r.ids[i] < r.made
  }

  /** A deletion names an item that is in the list by then; it may be one that an earlier of the jobs creates. */
  predicate JobsFit(r: Record, jobs: seq<Job>)
    decreases |jobs|
  {
    jobs != [] ==> (jobs[0].DeleteClient? ==> jobs[0].id in r.ids) && JobsFit(AfterJob(r, jobs[0]), jobs[1..])
  }

  lemma JobKeepsOrder(r: Record, job: Job)
    requires InOrder(r)
    ensures InOrder(AfterJob(r, job))
  {
    if job.DeleteClient? {
      L.RemoveKeepsOrder(r.ids, job.id);
      forall i | 0 <= i < |L.Remove(r.ids, job.id)| ensures L.Remove(r.ids, job.id)[i] < r.made {
        assert L.Remove(r.ids, job.id)[i] in r.ids;
      }
    }
  }

  /** The clients that arrive, in their order. */
  function Clients(jobs: seq<Job>): seq<int> {
    if jobs == [] then []
    else (if jobs[0].NewClient? then [jobs[0].client] else []) + Clients(jobs[1..])
  }

  lemma {:induction false} ClientsAppend(jobs: seq<Job>, job: Job)
    ensures Clients(jobs + [job]) == Clients(jobs) + if job.NewClient? then [job.client] else []
  {
    if jobs != [] {
      assert (jobs + [job])[1..] == jobs[1..] + [job];
      ClientsAppend(jobs[1..], job);
    }
  }

  /** Created minus deleted, in the order of creation, whatever the jobs. */
  lemma {:induction false} ListIsCreatedMinusDeleted(r: Record, jobs: seq<Job>)
    requires InOrder(r) && JobsFit(r, jobs)
    ensures var t := AfterJobs(r, jobs);
      && InOrder(t) && t.made == r.made + |Clients(jobs)|
      && forall id: nat :: id in t.ids <==> (id in r.ids || r.made <= id < t.made) && L.DeleteClient(id) !in jobs
    decreases |jobs|
  {
    if jobs != [] {
      var job, rest := jobs[0], jobs[1..];
      var u := AfterJob(r, job);
      JobKeepsOrder(r, job);
      ListIsCreatedMinusDeleted(u, rest);
      if job.DeleteClient? {
        DeletedStaysOut(u, rest, job.id);
      }
      assert forall j: Job :: j in jobs <==> j == job || j in rest;
    }
  }

  lemma TwoJobs(r: Record, a: Job, b: Job)
    requires (a.DeleteClient? ==> a.id in r.ids) && (b.DeleteClient? ==> b.id in AfterJob(r, a).ids)
    ensures JobsFit(r, [a, b]) && AfterJobs(r, [a, b]) == AfterJob(AfterJob(r, a), b)
  {
    hide AfterJob;
    var jobs, u := [a, b], AfterJob(r, a);
    assert jobs[1..] == [b] && [b][1..] == [];
    assert AfterJobs(AfterJob(u, b), []) == AfterJob(u, b);
    assert AfterJobs(u, [b]) == AfterJob(u, b);
    assert JobsFit(u, [b]);
  }

  /** An item can be created and deleted by jobs of one queue. */
  lemma NewItemCanBeDeleted(r: Record, client: int)
    requires InOrder(r)
    ensures var jobs := [L.NewClient(client), L.DeleteClient(r.made)];
      JobsFit(r, jobs) && AfterJobs(r, jobs) == Record(r.made + 1, r.ids)
  {
    hide L.Remove;
    var u := AfterJob(r, L.NewClient(client));
    JobKeepsOrder(r, L.NewClient(client));
    TwoJobs(r, L.NewClient(client), L.DeleteClient(r.made));
    RemovePlace(u.ids, |r.ids|);
    assert u.ids[..|r.ids|] + u.ids[|r.ids| + 1..] == r.ids;
  }

  /** What is not in the list and has been made never is again, and no job names it. */
  lemma {:induction false} DeletedStaysOut(r: Record, jobs: seq<Job>, id: nat)
    requires JobsFit(r, jobs) && id < r.made && id !in r.ids
    ensures L.DeleteClient(id) !in jobs && id !in AfterJobs(r, jobs).ids
    decreases |jobs|
  {
    if jobs != [] { DeletedStaysOut(AfterJob(r, jobs[0]), jobs[1..], id); }
  }

  // ---- the same in the transition system ----

  lemma {:induction false} NamedOnceFit(r: Record, jobs: seq<Job>)
    requires forall i :: 0 <= i < |jobs| && jobs[i].DeleteClient? ==> jobs[i].id in r.ids
    requires forall i, j :: 0 <= i < j < |jobs| && jobs[i].DeleteClient? ==> jobs[j] != jobs[i]
    ensures JobsFit(r, jobs)
    decreases |jobs|
  {
    if jobs != [] {
      var u, rest := AfterJob(r, jobs[0]), jobs[1..];
      forall i | 0 <= i < |rest| && rest[i].DeleteClient? ensures rest[i].id in u.ids {
        assert rest[i] == jobs[i + 1] && jobs[0] != jobs[i + 1];
      }
      forall i, j | 0 <= i < j < |rest| && rest[i].DeleteClient? ensures rest[j] != rest[i] {
        assert rest[i] == jobs[i + 1] && rest[j] == jobs[j + 1];
      }
      NamedOnceFit(u, rest);
    }
  }

  function RecordOf(s: L.State): Record { Record(|s.items|, s.list) }

  /** Whenever the resource thread is about to take a job, the queued jobs fit the list. */
  lemma QueuedJobsFit(s: L.State)
    requires L.ItemsFit(s) && s.resource.Draining?
    ensures InOrder(RecordOf(s)) && JobsFit(RecordOf(s), s.queue)
  {
    forall i | 0 <= i < |s.queue| && s.queue[i].DeleteClient? ensures s.queue[i].id in s.list { assert L.JobFits(s, i); }
    forall i, j | 0 <= i < j < |s.queue| && s.queue[i].DeleteClient? ensures s.queue[j] != s.queue[i] { assert L.JobFits(s, i); }
    forall i | 0 <= i < |s.list| ensures s.list[i] < |s.items| { assert s.list[i] in s.list; }
    NamedOnceFit(RecordOf(s), s.queue);
  }

  /** Steps of the resource thread alone. */
  predicate OwnSteps(path: seq<L.State>) {
    path != [] && forall i :: 0 <= i < |path| - 1 ==> L.Enabled(path[i], L.Resource) && path[i + 1] == L.NextResource(path[i])
  }

  /** The steps the resource thread takes for one job, with the thread of an item to delete at its end, change the list as the job says. */
  lemma JobBySteps(s: L.State) returns (path: seq<L.State>)
    requires s.resource.Draining? && s.queue != []
    requires s.queue[0].DeleteClient? ==> s.queue[0].id < |s.items| && s.items[s.queue[0].id].thread == L.Done
    ensures OwnSteps(path) && path[0] == s
    ensures var t := path[|path| - 1];
      t.resource.Draining? && t.queue == s.queue[1..] && RecordOf(t) == AfterJob(RecordOf(s), s.queue[0])
  {
    hide L.Remove;
    var a := L.NextResource(s);
    match s.queue[0]
    case FinishLoop => path := [s, a];
    case NewClient(_) => path := [s, a, L.NextResource(a)];
    case DeleteClient(_) =>
      var b := L.NextResource(a);
      var c := L.NextResource(b);
      var d := L.NextResource(c);
      var e := L.NextResource(d);
      path := [s, a, b, c, d, e, L.NextResource(e)];
  }

  // ---- the same on the heap ----

  /** The items of the list are those of the record, in its order. */
  ghost predicate Linked(items: seq<Item>, made: seq<Item>, ids: seq<nat>) {
    && InOrder(Record(|made|, ids)) && |items| == |ids|
    && forall i :: 0 <= i < |items| ==> items[i] == made[ids[i]]
  }

  lemma LinkedGrows(items: seq<Item>, made: seq<Item>, ids: seq<nat>, item: Item)
    requires Linked(items, made, ids)
    ensures Linked(items + [item], made + [item], ids + [|made|])
    ensures Record(|made| + 1, ids + [|made|]) == AfterJob(Record(|made|, ids), L.NewClient(item.connection))
  {
  }

  lemma {:induction false} RemovePlace(ids: seq<nat>, k: nat)
    requires L.Increasing(ids) && k < |ids|
    ensures L.Remove(ids, ids[k]) == ids[..k] + ids[k + 1..]
  {
    if k == 0 {
      L.RemoveAbsent(ids[1..], ids[0]);
    } else {
      RemovePlace(ids[1..], k - 1);
      assert ids[1..][k - 1] == ids[k] && ids[1..][..k - 1] == ids[1..k] && ids[1..][k..] == ids[k + 1..];
      assert [ids[0]] + ids[1..k] == ids[..k];
    }
  }

  lemma LinkedShrinks(items: seq<Item>, made: seq<Item>, ids: seq<nat>, k: nat)
    requires Linked(items, made, ids) && k < |items|
    ensures Linked(Without(items, k), made, L.Remove(ids, ids[k]))
  {
    RemovePlace(ids, k);
    JobKeepsOrder(Record(|made|, ids), L.DeleteClient(ids[k]));
  }

  /** New items for these clients, in their order. */
  predicate MadeFor(made: seq<Item>, was: seq<Item>, clients: seq<int>) {
    && |made| == |was| + |clients| && made[..|was|] == was
    && forall i :: 0 <= i < |clients| ==> made[|was| + i].connection == clients[i]
  }

  lemma MadeMore(was: seq<Item>, one: seq<Item>, made: seq<Item>, a: seq<int>, b: seq<int>)
    requires MadeFor(one, was, a) && MadeFor(made, one, b)
    ensures MadeFor(made, was, a + b)
  {
    assert made[..|was|] == made[..|one|][..|was|];
    forall i | 0 <= i < |a| + |b| ensures made[|was| + i].connection == (a + b)[i] {
      if i < |a| { assert made[|was| + i] == made[..|one|][|was| + i]; }
      else { assert made[|was| + i] == made[|one| + (i - |a|)]; }
    }
  }

  lemma FinishIsNothing(r: Record)
    ensures AfterJob(r, L.FinishLoop) == r
  {
  }

  lemma JobClients(made: seq<Item>, job: Job)
    ensures Clients([job]) == if job.NewClient? then [job.client] else []
  {
    assert [job][1..] == [];
  }

  lemma NewClients(was: seq<Item>, made: seq<Item>, job: Job)
    requires if job.NewClient? then |made| == |was| + 1 && made[..|was|] == was && made[|was|].connection == job.client else made == was
    ensures MadeFor(made, was, Clients([job]))
  {
    JobClients(made, job);
  }

  class ResourceThread {
    const queue: FifoFast<Job>
    const list: ConnectionList
    var run: bool
    /** The items ever created, by number: what a job's number stands for. */
    var made: seq<Item>
    ghost var ids: seq<nat>

    constructor (maxSize: int, cashSize: nat)
      ensures queue.Valid() && list.Valid() && queue.Contents() == [] && run
      ensures list.items == [] && made == [] && ids == []
    {
      queue := new FifoFast(maxSize, cashSize);
      list := new ConnectionList();
      run, made, ids := true, [], [];
    }

    ghost function Now(): Record
      reads this
    {
      Record(|made|, ids)
    }

    /** A new item at the end of the list. */
    method Create(client: int)
      requires list.Valid() && Linked(list.items, made, ids)
      modifies this`made, this`ids, list, list.items
      ensures list.Valid() && Linked(list.items, made, ids) && Now() == AfterJob(old(Now()), L.NewClient(client))
      ensures |made| == |old(made)| + 1 && made[..|old(made)|] == old(made) && fresh(made[|old(made)|]) && made[|old(made)|].connection == client
      ensures list.items == old(list.items) + [made[|old(made)|]]
    {
      hide Linked, AfterJob, Distinct, Chained, ConnectionList.Valid;
      var pNewItem := new Item(client);
      LinkedGrows(list.items, made, ids, pNewItem);
      list.Append(pNewItem);
      made, ids := made + [pNewItem], ids + [|made|];
    }

    /** `DeleteItemInResourceThread`, as far as the list is concerned. */
    method Delete(id: nat)
      requires list.Valid() && Linked(list.items, made, ids) && id in ids
      modifies this`ids, list, list.items
      ensures list.Valid() && Linked(list.items, made, ids) && Now() == AfterJob(old(Now()), L.DeleteClient(id))
      ensures forall i :: 0 <= i < |list.items| ==> list.items[i] in old(list.items)
    {
      hide Linked, AfterJob, L.Remove, Without, Distinct, Chained, ConnectionList.Valid;
      ghost var k, after, left := TakenOut(list.items, made, ids, id);
      list.Unlink(made[id], k);
      ids := left;
    }

    /** One job. */
    method Handle(job: Job)
      requires list.Valid() && Linked(list.items, made, ids)
      requires job.DeleteClient? ==> job.id in ids
      modifies this`run, this`made, this`ids, list, list.items
      ensures list.Valid() && Linked(list.items, made, ids) && Now() == AfterJob(old(Now()), job)
      ensures run == (old(run) && job != L.FinishLoop)
      ensures MadeFor(made, old(made), Clients([job]))
      ensures forall i :: 0 <= i < |list.items| ==> list.items[i] in old(list.items) || fresh(list.items[i])
    {
      hide Linked, AfterJob, Clients, MadeFor, Distinct, Chained, ConnectionList.Valid;
      JobClients(made, job);
      FinishIsNothing(Now());
      match job {
        case FinishLoop => run := false;
        case NewClient(client) => Create(client);
        case DeleteClient(id) => Delete(id);
      }
      NewClients(old(made), made, job);
    }

    /**
     * Take jobs until there are none. A request to finish does not end the loop:
     * the jobs behind it are handled as well.
     */
    method HandleJobs()
      requires queue.Valid() && list.Valid() && Linked(list.items, made, ids) && JobsFit(Now(), queue.Contents())
      modifies this`run, this`made, this`ids, queue, queue.cashed, list, list.items
      ensures queue.Valid() && list.Valid() && queue.Contents() == []
      ensures run == (old(run) && L.FinishLoop !in old(queue.Contents()))
      ensures Linked(list.items, made, ids) && Now() == AfterJobs(old(Now()), old(queue.Contents()))
      ensures MadeFor(made, old(made), Clients(old(queue.Contents())))
    {
      hide Linked, JobsFit, AfterJob, AfterJobs, Clients, MadeFor, FifoFast.Valid, FifoFast.Contents, ConnectionList.Valid;
      ghost var jobs := queue.Contents();
      ghost var done: seq<Job> := [];
      NothingDone(made);
      var nextJob := L.FinishLoop;
      while true
        invariant queue.Valid() && list.Valid() && jobs == done + queue.Contents()
        invariant run == (old(run) && L.FinishLoop !in done)
        invariant Linked(list.items, made, ids) && JobsFit(Now(), queue.Contents())
        invariant AfterJobs(Now(), queue.Contents()) == AfterJobs(old(Now()), jobs)
        invariant MadeFor(made, old(made), Clients(done))
        invariant forall i :: 0 <= i < |list.items| ==> list.items[i] in old(list.items) || fresh(list.items[i])
        decreases |queue.Contents()|
      {
        ghost var left, r, before := queue.Contents(), Now(), made;
        var ok;
        ok, nextJob := queue.Extract(nextJob);
        if !ok {
          assert done + [] == done && AfterJobs(Now(), []) == Now();
          break;
        }
        TakeFirst(jobs, done, left, nextJob, queue.Contents());
        FirstFits(r, left, nextJob, queue.Contents());
        Handle(nextJob);
        MadeMore(old(made), before, made, Clients(done), Clients([nextJob]));
        done := done + [nextJob];
      }
    }
  }

  lemma NothingDone(made: seq<Item>)
    ensures MadeFor(made, made, Clients([]))
    ensures forall r :: AfterJobs(r, []) == r
  {
  }

  lemma TakeFirst(jobs: seq<Job>, done: seq<Job>, left: seq<Job>, job: Job, rest: seq<Job>)
    requires jobs == done + left && left == [job] + rest
    ensures jobs == (done + [job]) + rest && Clients(done + [job]) == Clients(done) + Clients([job])
    ensures L.FinishLoop in done + [job] <==> L.FinishLoop in done || job == L.FinishLoop
  {
    ClientsAppend(done, job);
    ClientsAppend([], job);
    assert [] + [job] == [job];
  }

  lemma FirstFits(r: Record, left: seq<Job>, job: Job, rest: seq<Job>)
    requires JobsFit(r, left) && left == [job] + rest
    ensures (job.DeleteClient? ==> job.id in r.ids) && JobsFit(AfterJob(r, job), rest)
    ensures AfterJobs(r, left) == AfterJobs(AfterJob(r, job), rest)
  {
    assert left[1..] == rest;
  }

  /** Where item `id` is in the list, and list and record without it. */
  lemma TakenOut(items: seq<Item>, made: seq<Item>, ids: seq<nat>, id: nat) returns (k: nat, after: seq<Item>, left: seq<nat>)
    requires Linked(items, made, ids) && id in ids
    ensures k < |items| && id < |made| && items[k] == made[id] && after == Without(items, k)
    ensures Linked(after, made, left) && Record(|made|, left) == AfterJob(Record(|made|, ids), L.DeleteClient(id))
    ensures forall i :: 0 <= i < |after| ==> after[i] in items
  {
    k :| k < |ids| && ids[k] == id;
    LinkedShrinks(items, made, ids, k);
    after, left := Without(items, k), L.Remove(ids, id);
  }
}

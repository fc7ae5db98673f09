/** What holds in every run of the server, and at the end of its resource thread. */
module ServerTheorems {
  import opened Common
  import opened ServerLifecycle
  import Mat = MatHandle

  /** A finite run: states joined by the labels of the steps between them. */
  ghost predicate IsRun(states: seq<State>, labels: seq<Label>) {
    && |states| == |labels| + 1
    && states[0] == Init(states[0].closeWakes)
    && forall i :: 0 <= i < |labels| ==> Enabled(states[i], labels[i]) && states[i + 1] == Next(states[i], labels[i])
  }

  lemma {:induction false} RunInv(states: seq<State>, labels: seq<Label>, k: nat)
    requires IsRun(states, labels) && k <= |labels|
    ensures Inv(states[k]) && Woken(states[k]) && StopHeard(states[k])
  {
    hide Inv, Next, Woken, StopHeard;
    if k > 0 {
      RunInv(states, labels, k - 1);
      StepKeeps(states[k - 1], labels[k - 1]);
      StepKeepsWoken(states[k - 1], labels[k - 1]);
      StepKeepsStopHeard(states[k - 1], labels[k - 1]);
    } else {
      InitHolds(states[0].closeWakes);
    }
  }

  lemma InitHolds(closeWakes: bool)
    ensures Inv(Init(closeWakes)) && Woken(Init(closeWakes)) && StopHeard(Init(closeWakes))
  {
    Mat.InitHolds();
    hide Mat.Inv;
  }

  // ---- exactly once ----

  /**
   * Every item ever created has been closed, joined, unlinked and freed exactly
   * once when the resource thread ends, and the list is empty; in between, no
   * stage is ever carried out twice, nor before the one it depends on.
   */
  lemma DestroyedExactlyOnce(states: seq<State>, labels: seq<Label>, k: nat, id: nat)
    requires IsRun(states, labels) && k <= |labels| && id < |states[k].items|
    ensures var s, item := states[k], states[k].items[id];
      && 1 >= item.closed >= item.joined >= item.unlinked >= item.freed
      && (item.joined == 1 ==> item.thread == Done)
      && (s.resource.Ended? ==> s.list == [] && Counts(item, 1, 1, 1, 1) && item.thread == Done)
  {
    hide CallsFit;
    RunInv(states, labels, k);
    assert StageFits(states[k], id);
  }

  /** The list holds the items that have been linked and not unlinked, in the order of their creation. */
  lemma ListIsCreatedMinusDeleted(states: seq<State>, labels: seq<Label>, k: nat)
    requires IsRun(states, labels) && k <= |labels|
    ensures var s := states[k];
      && Increasing(s.list)
      && forall id: nat :: id in s.list <==> id < |s.items| && s.items[id].unlinked == 0 && s.resource != Linking(id)
  {
    hide CallsFit;
    RunInv(states, labels, k);
    var s := states[k];
    forall id: nat ensures id in s.list <==> id < |s.items| && s.items[id].unlinked == 0 && s.resource != Linking(id) {
      if id < |s.items| { assert StageFits(s, id); }
    }
  }

  /**
   * The items a step reads through a pointer: a contact thread its own, the engine
   * thread the one whose call it runs, the resource thread the one it works on.
   */
  predicate Touches(s: State, l: Label, id: nat) {
    match l
    case Contact(c) => c == id
    case Receives(c, _) => c == id
    case EngineStep =>
      s.eng.engine.Running? && s.eng.engine.call < |s.callers| && s.callers[s.eng.engine.call] == Some(id)
    case Resource =>
      (match s.resource
       case Linking(d) => id == d || id in s.list
       case Deleting(d, stage, _) => id == d || (stage == UnlinkIt && id in s.list)
       case Cleaning => s.list != [] && id == s.list[0]
       case Draining => s.queue != [] && s.queue[0] == DeleteClient(id)
       case _ => false)
    case _ => false
  }

  /** A call that is being run has not returned. */
  lemma RunningCallIsAwaited(e: Mat.State)
    requires Mat.Inv(e) && e.engine.Running?
    ensures e.engine.call < |e.calls| && (e.calls[e.engine.call].isSync ==> e.calls[e.engine.call].pc != Mat.Returned)
  {
    var c := e.engine.call;
    assert e.accepted[|e.executed|] == c;
    assert c in e.accepted;
    assert Mat.CallFits(e, c);
    forall i | 0 <= i < |e.executed| ensures e.executed[i] != c { assert e.accepted[i] == e.executed[i]; }
  }

  /** No step of any thread reads an item that has been freed; in particular no request for deletion outlives its item. */
  lemma FreedItemsAreNotTouched(states: seq<State>, labels: seq<Label>, k: nat, l: Label, id: nat)
    requires IsRun(states, labels) && k <= |labels|
    requires Enabled(states[k], l) && Touches(states[k], l, id)
    ensures id < |states[k].items| && states[k].items[id].freed == 0
  {
    RunInv(states, labels, k);
    NotTouched(states[k], l, id);
  }

  lemma NotTouched(s: State, l: Label, id: nat)
    requires Inv(s) && Enabled(s, l) && Touches(s, l, id)
    ensures id < |s.items| && s.items[id].freed == 0
  {
    hide Mat.Inv, Mat.Enabled;
    if s.resource.Draining? && l == Resource { assert JobFits(s, 0); }
    if s.resource.Cleaning? && l == Resource { assert s.list[0] in s.list; }
    if l == EngineStep {
      RunningCallIsAwaited(s.eng);
      assert CallerFits(s, s.eng.engine.call);
    }
    assert id < |s.items| && StageFits(s, id);
  }

  // ---- no lost wake-up ----

  /** Some thread has queued a job, or tried to, and is about to post. */
  predicate PostIsComing(s: State) {
    || s.posters > 0 || s.stop == StopPosting
    || exists id :: 0 <= id < |s.items| && s.items[id].thread == ContactPosting
  }

  /** Whenever the resource thread is about to wait and there are jobs, it will not wait for good. */
  predicate Woken(s: State) {
    AboutToWait(s) && s.queue != [] ==> s.sema > 0 || PostIsComing(s)
  }

  /** A poster stays until it posts. */
  lemma PosterStays(s: State, l: Label)
    requires Enabled(s, l) && PostIsComing(s)
    ensures PostIsComing(Next(s, l)) || Next(s, l).sema > s.sema
  {
    hide NextResource, NextContact, NextReceives, Mat.Next, Mat.Enabled;
    if s.posters > 0 || s.stop == StopPosting {
      match l {
        case Resource => ResourceKeepsThreads(s);
        case Contact(id) => OtherPosts(s, id, id);
        case Receives(id, what) => ReceivesLeaves(s, id, what); ReceivesPosters(s, id, what, id);
        case _ =>
      }
    } else {
      var other :| 0 <= other < |s.items| && s.items[other].thread == ContactPosting;
      assert l.Resource? || l.Contact? || l.Receives? || Next(s, l).items == s.items;
      match l {
        case Resource =>
          ResourceKeepsThreads(s);
          assert NextResource(s).items[other].thread == ContactPosting;
        case Contact(id) => OtherPosts(s, id, other);
        case Receives(id, what) => ReceivesPosters(s, id, what, other);
        case _ =>
      }
    }
  }

  lemma OtherPosts(s: State, id: nat, other: nat)
    requires id < |s.items| && other < |s.items|
    ensures var t := NextContact(s, id);
      && t.posters == s.posters && t.stop == s.stop && other < |t.items|
      && (s.items[other].thread == ContactPosting ==> t.items[other].thread == ContactPosting || t.sema > s.sema)
  {
  }

  lemma ReceivesPosters(s: State, id: nat, what: Reception, other: nat)
    requires id < |s.items| && other < |s.items| && s.items[id].thread == Receiving
    ensures var t := NextReceives(s, id, what);
      && t.posters == s.posters && other < |t.items|
      && (s.items[other].thread == ContactPosting ==> t.items[other].thread == ContactPosting)
  {
    hide Mat.Next;
  }

  lemma StepKeepsWoken(s: State, l: Label)
    requires Woken(s) && Enabled(s, l)
    ensures Woken(Next(s, l))
  {
    hide Remove, Mat.Next, Mat.Enabled, PostIsComing, NextResource, NextContact, NextReceives;
    if PostIsComing(s) { PosterStays(s, l); }
    match l {
      case Resource => ResourceQueue(s);
      case Contact(id) => ContactQueue(s, id);
      case Receives(id, what) => ReceivesQueue(s, id, what);
      case ClientArrives(_) => NewPoster(Next(s, l));
      case StopQueues => NewPoster(Next(s, l));
      case _ =>
    }
  }

  lemma NewPoster(s: State)
    requires s.posters > 0 || s.stop == StopPosting
    ensures PostIsComing(s)
  {
  }

  /** The resource thread starts to wait only after it has found the queue empty, or before anybody could queue. */
  lemma ResourceQueue(s: State)
    requires Enabled(s, Resource)
    ensures var t := NextResource(s);
      AboutToWait(t) ==> t.sema == s.sema && t.queue == s.queue && (AboutToWait(s) || t.queue == [])
  {
    hide Remove, Mat.Enabled;
  }

  predicate AboutToWait(s: State) {
    s.resource == ResourcePc.Starting || s.resource == Head || s.resource == Waiting
  }

  lemma ContactQueue(s: State, id: nat)
    requires id < |s.items|
    ensures var t := NextContact(s, id);
      && t.resource == s.resource && t.sema >= s.sema
      && (t.queue == s.queue || PostIsComing(t))
  {
    if s.items[id].thread == Asking {
      assert NextContact(s, id).items[id].thread == ContactPosting;
    }
  }

  lemma ReceivesQueue(s: State, id: nat, what: Reception)
    requires id < |s.items|
    ensures var t := NextReceives(s, id, what); t.resource == s.resource && t.sema == s.sema && t.queue == s.queue
  {
    hide Mat.Next;
  }

  /** Once the stop request has been posted, the resource thread does not wait without a token. */
  predicate StopHeard(s: State) {
    s.stop != StopPc.Running && !s.mRun && s.resource == Waiting ==>
      s.sema > 0 || s.stop == Finishing || s.stop == StopPosting
  }

  lemma StepKeepsStopHeard(s: State, l: Label)
    requires StopHeard(s) && Enabled(s, l)
    ensures StopHeard(Next(s, l))
  {
    hide Remove, Mat.Next, Mat.Enabled, NextResource, NextContact, NextReceives;
    match l {
      case Resource => ResourceWaits(s);
      case Contact(id) => ContactLeaves(s, id);
      case Receives(id, what) => ReceivesLeaves(s, id, what);
      case _ =>
    }
  }

  /** The resource thread begins to wait only with the run flag up. */
  lemma ResourceWaits(s: State)
    requires Enabled(s, Resource)
    ensures var t := NextResource(s); t.stop == s.stop && (t.resource == Waiting ==> t.mRun)
  {
    hide Remove, Mat.Enabled;
  }

  lemma ContactLeaves(s: State, id: nat)
    requires id < |s.items|
    ensures var t := NextContact(s, id);
      t.resource == s.resource && t.stop == s.stop && t.mRun == s.mRun && t.sema >= s.sema
  {
  }

  lemma ReceivesLeaves(s: State, id: nat, what: Reception)
    requires id < |s.items|
    ensures var t := NextReceives(s, id, what);
      t.resource == s.resource && t.stop == s.stop && t.mRun == s.mRun && t.sema == s.sema
  {
    hide Mat.Next;
  }

  lemma StopIsHeard(states: seq<State>, labels: seq<Label>, k: nat)
    requires IsRun(states, labels) && k <= |labels|
    requires states[k].stop == StopJoining && !states[k].mRun && states[k].resource == Waiting
    ensures states[k].sema > 0
  {
    RunInv(states, labels, k);
  }

  lemma NoLostWakeup(states: seq<State>, labels: seq<Label>, k: nat)
    requires IsRun(states, labels) && k <= |labels|
    requires states[k].resource == Waiting && states[k].queue != []
    ensures states[k].sema > 0 || PostIsComing(states[k])
  {
    RunInv(states, labels, k);
  }

  // ---- the end is reached ----

  /** Steps of the server's own threads: nothing new comes from outside but what was received already. */
  predicate Own(l: Label) {
    l.Resource? || l.Contact? || l.Receives? || l.EngineStep? || l.CallStep?
  }

  /** How many steps a contact thread can still take once the server no longer runs, its call and its request for deletion included. */
  function Rank(pc: ContactPc): nat {
    match pc
    case Done => 0
    case ContactPosting => 1
    case Asking => 3
    case Checking => 4
    case Starting => 5
    case Calling(_) => 5
    case Receiving => 15
    case Beginning => 16
  }

  function Ranks(items: seq<Item>): nat {
    if items == [] then 0 else Ranks(items[..|items| - 1]) + Rank(items[|items| - 1].thread)
  }

  lemma {:induction false} RanksUpdate(items: seq<Item>, id: nat, item: Item)
    requires id < |items|
    ensures Ranks(items[id := item]) + Rank(items[id].thread) == Ranks(items) + Rank(item.thread)
  {
    var u := items[id := item];
    if id == |items| - 1 {
      assert u[..|u| - 1] == items[..|items| - 1];
    } else {
      assert u[..|u| - 1] == items[..|items| - 1][id := item];
      RanksUpdate(items[..|items| - 1], id, item);
    }
  }

  lemma RanksAppend(items: seq<Item>, item: Item)
    ensures Ranks(items + [item]) == Ranks(items) + Rank(item.thread)
  {
    assert (items + [item])[..|items|] == items;
  }

  /** What a queued job can still cost: a new client's item has to be linked, run, and destroyed. */
  function JobWork(job: Job): nat { if job.NewClient? then 13 else 1 }

  function JobsWork(jobs: seq<Job>): nat {
    if jobs == [] then 0 else JobWork(jobs[0]) + JobsWork(jobs[1..])
  }

  lemma {:induction false} JobsWorkAppend(jobs: seq<Job>, job: Job)
    ensures JobsWork(jobs + [job]) == JobsWork(jobs) + JobWork(job)
  {
    if jobs != [] {
      assert (jobs + [job])[1..] == jobs[1..] + [job];
      JobsWorkAppend(jobs[1..], job);
    }
  }

  /** Steps the resource thread has still to take once the run flag is down, apart from those for queued jobs. */
  function Remaining(s: State): int {
    var clean := 6 * |s.list| + 1;
    match s.resource
    case Ended => 0
    case Cleaning => clean
    case Head => clean + 1
    case Draining => clean + 2
    case Waiting => clean + 3
    case Linking(_) => clean + 9
    case Deleting(_, stage, cleaning) =>
      (if cleaning then -1 else 1) + (match stage
       case StopIt => clean
       case Close => clean - 1
       case JoinIt => clean - 2
       case UnlinkIt => clean - 3
       case FreeIt => clean + 2)
    case Starting => clean + 4
  }

  function Effort(s: State): int {
    Ranks(s.items) + JobsWork(s.queue) + Remaining(s) + Mat.Effort(s.eng)
  }

  /** The run flag is down, and the resource thread is past the place where it sets it. */
  predicate Stopping(s: State) {
    !s.mRun && s.resource != ResourcePc.Starting
  }

  lemma EffortNatural(s: State)
    requires ItemsFit(s)
    ensures Effort(s) >= 0
  {
    if s.resource.Deleting? { assert StageFits(s, s.resource.id); }
  }

  lemma ContactDecreases(s: State, id: nat)
    requires Stopping(s) && Enabled(s, Contact(id))
    ensures Stopping(NextContact(s, id)) && Effort(NextContact(s, id)) < Effort(s)
  {
    hide Mat.Effort, Ranks, JobsWork, Rank, Remaining, NextContact;
    ContactChanges(s, id);
    RanksUpdate(s.items, id, NextContact(s, id).items[id]);
    JobsWorkAppend(s.queue, DeleteClient(id));
  }

  /** What a step of a contact thread changes; its thread has less to do, by more than its request gives the resource thread. */
  lemma ContactChanges(s: State, id: nat)
    requires Stopping(s) && Enabled(s, Contact(id))
    ensures var t := NextContact(s, id);
      && Stopping(t) && t.eng == s.eng && t.list == s.list && t.resource == s.resource
      && Remaining(t) == Remaining(s) && t.items == s.items[id := t.items[id]]
      && if t.queue == s.queue then Rank(t.items[id].thread) < Rank(s.items[id].thread)
         else t.queue == s.queue + [DeleteClient(id)] && Rank(t.items[id].thread) + JobWork(DeleteClient(id)) < Rank(s.items[id].thread)
  {
    hide Mat.Enabled;
  }

  lemma ReceivesDecreases(s: State, id: nat, what: Reception)
    requires Stopping(s) && Enabled(s, Receives(id, what))
    ensures Stopping(NextReceives(s, id, what)) && Effort(NextReceives(s, id, what)) < Effort(s)
  {
    hide Mat.Effort, Ranks, JobsWork;
    RanksUpdate(s.items, id, NextReceives(s, id, what).items[id]);
    if s.eng.open { Mat.BeginAdds(s.eng, true); }
  }

  lemma EngineDecreases(s: State, l: Mat.Label)
    requires Stopping(s) && Mat.Enabled(s.eng, l) && (l.Engine? || l.Caller?)
    ensures var t := s.(eng := Mat.Next(s.eng, l)); Stopping(t) && Effort(t) < Effort(s)
  {
    hide Mat.Effort, Mat.Next, Mat.Enabled, Ranks, JobsWork;
    Mat.StepDecreases(s.eng, l);
  }

  lemma DeletingDecreases(s: State)
    requires ItemsFit(s) && Stopping(s) && s.resource.Deleting? && Enabled(s, Resource)
    ensures Stopping(NextResource(s)) && Effort(NextResource(s)) < Effort(s)
  {
    hide Mat.Effort, Ranks, JobsWork;
    var d := s.resource.id;
    assert StageFits(s, d);
    RemoveKeepsOrder(s.list, d);
    RanksUpdate(s.items, d, NextResource(s).items[d]);
  }

  lemma ResourceDecreases(s: State)
    requires ItemsFit(s) && Stopping(s) && Enabled(s, Resource)
    ensures Stopping(NextResource(s)) && Effort(NextResource(s)) < Effort(s)
  {
    hide Mat.Effort, Ranks;
    if s.resource.Deleting? {
      DeletingDecreases(s);
    } else if s.resource.Draining? && s.queue != [] {
      if s.queue[0].NewClient? { RanksAppend(s.items, NextResource(s).items[|s.items|]); }
    }
  }

  /** Each step of the server's own threads brings the end closer. */
  lemma OwnStepDecreases(s: State, l: Label)
    requires ItemsFit(s) && Stopping(s) && Enabled(s, l) && Own(l)
    ensures Stopping(Next(s, l)) && 0 <= Effort(Next(s, l)) < Effort(s)
  {
    ItemsKept(s, l);
    EffortNatural(Next(s, l));
    hide ItemsFit, Effort, Stopping;
    match l
    case Resource => ResourceDecreases(s);
    case Contact(id) => ContactDecreases(s, id);
    case Receives(id, what) => ReceivesDecreases(s, id, what);
    case EngineStep => EngineDecreases(s, Mat.Engine);
    case CallStep(c) => EngineDecreases(s, Mat.Caller(c));
  }

  /** The contact thread of an item waits for a call that the engine thread's queue has refused. */
  predicate HoldsRefusedCall(s: State, id: nat) {
    id < |s.items| && s.items[id].thread.Calling? && Mat.Refused(s.eng, s.items[id].thread.call)
  }

  /** The contact thread of an item is in a receive, begun before its socket was closed, that nothing but the client can end. */
  predicate OnlyClientWakes(s: State, id: nat) {
    id < |s.items| && s.items[id].thread == Receiving && !s.closeWakes
  }

  /** No thread of the server can move, and no receive is about to be ended by a closed socket. */
  ghost predicate Quiet(s: State) {
    && !Enabled(s, Resource) && !Enabled(s, EngineStep)
    && (forall id :: !Enabled(s, Contact(id)))
    && (forall c :: !Enabled(s, CallStep(c)))
    && (forall id :: 0 <= id < |s.items| && s.closeWakes && s.items[id].thread == Receiving ==> s.items[id].closed == 0)
  }

  /** The joined thread of a server at rest either holds a refused call or sits in a receive that closing did not end. */
  lemma JoinBlockedBy(s: State, id: nat)
    requires Inv(s) && Quiet(s) && s.resource.Deleting? && s.resource.id == id && s.resource.stage == JoinIt
    ensures HoldsRefusedCall(s, id) || OnlyClientWakes(s, id)
  {
    assert StageFits(s, id) && CallFits(s, id);
    assert !Enabled(s, Resource) && !Enabled(s, Contact(id));
    if s.items[id].thread.Calling? {
      var c := s.items[id].thread.call;
      assert !Enabled(s, EngineStep);
      forall k ensures !Mat.Enabled(s.eng, Mat.Caller(k)) { assert !Enabled(s, CallStep(k)); }
      Mat.QuietMeansServed(s.eng, c);
      Mat.RestingQueue(s.eng);
      assert !Mat.Enabled(s.eng, Mat.Caller(c));
    }
  }

  lemma EndedMeansAllDone(s: State, id: nat)
    requires ItemsFit(s) && s.resource.Ended? && id < |s.items|
    ensures s.items[id].thread == Done
  {
    assert StageFits(s, id);
  }

  /**
   * With the run flag down and the stop request posted, a server at rest has
   * ended if and only if no contact thread holds a refused call or sits in a
   * receive that closing its socket did not end.
   */
  lemma StoppedAtRestIff(s: State)
    requires Inv(s) && StopHeard(s) && Stopping(s) && Quiet(s)
    requires TakesNoJobs(s.resource) || s.stop == StopJoining
    ensures s.resource.Ended? <==> forall id :: 0 <= id < |s.items| ==> !HoldsRefusedCall(s, id) && !OnlyClientWakes(s, id)
  {
    hide Mat.Inv, Mat.Enabled;
    if s.resource.Ended? {
      forall id | 0 <= id < |s.items| ensures !HoldsRefusedCall(s, id) && !OnlyClientWakes(s, id) { EndedMeansAllDone(s, id); }
    } else {
      assert !Enabled(s, Resource);
      assert s.resource.Deleting? && s.resource.stage == JoinIt;
      JoinBlockedBy(s, s.resource.id);
    }
  }

  /** The same without the flag: a server at rest after the stop request has ended exactly when, besides, the run flag is down. */
  lemma StopAtRestIff(s: State)
    requires Inv(s) && StopHeard(s) && Quiet(s) && s.stop == StopJoining
    ensures s.resource.Ended? <==>
      !s.mRun && forall id :: 0 <= id < |s.items| ==> !HoldsRefusedCall(s, id) && !OnlyClientWakes(s, id)
  {
    hide CallsFit;
    assert !Enabled(s, Resource);
    if !s.mRun { StoppedAtRestIff(s); }
  }

  /**
   * Completion of `StopMServer`: from any state of a run in which the run flag is
   * down, the stop request posted and the resource thread past its start, the
   * server's threads come to rest within `Effort` steps in any order; and then the
   * resource thread has ended, with every join returned, if and only if no contact
   * thread holds a refused call or sits in a receive that closing did not end.
   */
  lemma {:induction false} StopCompletesIff(states: seq<State>, labels: seq<Label>, from: nat, k: nat)
    requires IsRun(states, labels) && from <= k <= |labels| && Stopping(states[from])
    requires TakesNoJobs(states[from].resource) || states[from].stop == StopJoining
    requires forall i :: from <= i < k ==> Own(labels[i])
    ensures Stopping(states[k]) && (TakesNoJobs(states[k].resource) || states[k].stop == StopJoining)
    ensures Effort(states[k]) + (k - from) <= Effort(states[from]) && Effort(states[k]) >= 0
    ensures Quiet(states[k]) ==>
      (states[k].resource.Ended? <==>
         forall id :: 0 <= id < |states[k].items| ==> !HoldsRefusedCall(states[k], id) && !OnlyClientWakes(states[k], id))
  {
    hide Next, Effort, ItemsFit, CallsFit, Stopping, StopHeard, Woken, Quiet, Enabled;
    RunInv(states, labels, k);
    if from < k {
      StopCompletesIff(states, labels, from, k - 1);
      RunInv(states, labels, k - 1);
      OwnStepDecreases(states[k - 1], labels[k - 1]);
      PhaseStays(states[k - 1], labels[k - 1]);
    }
    EffortNatural(states[k]);
    if Quiet(states[k]) { StoppedAtRestIff(states[k]); }
  }

  lemma PhaseStays(s: State, l: Label)
    requires Enabled(s, l) && Own(l) && (TakesNoJobs(s.resource) || s.stop == StopJoining)
    ensures TakesNoJobs(Next(s, l).resource) || Next(s, l).stop == StopJoining
  {
    hide Mat.Next, Mat.Enabled, Remove;
  }

  // ---- a refused call ----

  /** A thread that holds a refused call holds it for good. */
  lemma RefusedCallStays(s: State, l: Label, id: nat)
    requires Inv(s) && Enabled(s, l) && HoldsRefusedCall(s, id)
    ensures HoldsRefusedCall(Next(s, l), id)
  {
    hide Next, Enabled, EngineLabel, ItemsFit, Mat.Next, Mat.Enabled, Mat.Inv, Mat.Refused;
    var c := s.items[id].thread.call;
    RefusedWaits(s.eng, c);
    EngineOf(s, l);
    var m := EngineLabel(s, l);
    if m.Some? { Mat.RefusedStays(s.eng, m.value, c); }
    CallerStays(s, l, id);
  }

  lemma RefusedWaits(e: Mat.State, c: nat)
    requires Mat.Inv(e) && Mat.Refused(e, c)
    ensures c < |e.calls| && e.calls[c].pc != Mat.Returned
  {
    Mat.RefusedIsNotReturned(e, c);
  }

  /** A contact thread whose call has not returned stays where it is. */
  lemma CallerStays(s: State, l: Label, id: nat)
    requires Enabled(s, l) && id < |s.items| && s.items[id].thread.Calling?
    requires s.items[id].thread.call < |s.eng.calls| && s.eng.calls[s.items[id].thread.call].pc != Mat.Returned
    ensures id < |Next(s, l).items| && Next(s, l).items[id].thread == s.items[id].thread
  {
    hide Mat.Next, Mat.Enabled, NextResource;
    if l.Resource? { ResourceKeepsThreads(s); }
  }

  /** The step of the engine's own system that a step of the server is. */
  function EngineLabel(s: State, l: Label): Option<Mat.Label> {
    match l
    case EngineStep => Some(Mat.Engine)
    case CallStep(c) => Some(Mat.Caller(c))
    case ForeignCall(isSync) => Some(Mat.Begin(isSync))
    case Receives(_, what) => if what == RemoteCall && s.eng.open then Some(Mat.Begin(true)) else None
    case _ => None
  }

  lemma EngineOf(s: State, l: Label)
    requires Enabled(s, l)
    ensures var m := EngineLabel(s, l);
      if m.Some? then Mat.Enabled(s.eng, m.value) && Next(s, l).eng == Mat.Next(s.eng, m.value) else Next(s, l).eng == s.eng
  {
    hide Mat.Next, NextResource;
    if l.Resource? { ResourceKeepsThreads(s); }
  }

  /** Once a call of a contact thread has been refused, the resource thread never ends, whatever happens. */
  lemma {:induction false} RefusedCallPreventsEnd(states: seq<State>, labels: seq<Label>, from: nat, k: nat, id: nat)
    requires IsRun(states, labels) && from <= k <= |labels| && HoldsRefusedCall(states[from], id)
    ensures HoldsRefusedCall(states[k], id) && !states[k].resource.Ended?
  {
    hide Next, ItemsFit, CallsFit, StopHeard, Woken, Enabled;
    RunInv(states, labels, k);
    if from < k {
      RefusedCallPreventsEnd(states, labels, from, k - 1, id);
      RunInv(states, labels, k - 1);
      RefusedCallStays(states[k - 1], labels[k - 1], id);
    }
    if states[k].resource.Ended? { EndedMeansAllDone(states[k], id); }
  }

  ghost predicate Reachable(s: State) {
    exists states, labels :: IsRun(states, labels) && states[|labels|] == s
  }

  lemma InitReachable(closeWakes: bool)
    ensures Reachable(Init(closeWakes))
  {
    assert IsRun([Init(closeWakes)], []);
  }

  lemma StepReachable(s: State, l: Label, t: State)
    requires Reachable(s) && Enabled(s, l) && t == Next(s, l)
    ensures Reachable(t)
  {
    var states, labels :| IsRun(states, labels) && states[|labels|] == s;
    assert IsRun(states + [t], labels + [l]);
  }

  /** The engine thread with `n` synchronous calls queued before it gets to run. */
  function Crowd(n: nat): Mat.State {
    Mat.State(true, true, seq(n, i => i), 0, Mat.Head, Mat.NotStopped,
              seq(n, i => Mat.Call(true, Mat.CallPosting, true, 0, 0)), seq(n, i => i), [])
  }

  /** A server with `n` connections whose calls are all queued, and one more client waiting to be served. */
  function Crowded(n: nat, closeWakes: bool): State {
    State(true, [NewClient(0)], 0, n, StopPc.Running, Draining,
          seq(n, (i: nat) => Item(0, true, Calling(i), 0, 0, 0, 0)), seq(n, (i: nat) => i), Crowd(n),
          seq(n, (i: nat) => Some(i)), closeWakes)
  }

  /** The next client's item, up to where its thread is about to queue a call. */
  function Served(n: nat, closeWakes: bool): State {
    var s, c := Crowded(n, closeWakes), Crowd(n);
    s.(queue := [], items := s.items + [Item(0, true, Calling(n), 0, 0, 0, 0)], list := s.list + [n],
       eng := c.(calls := c.calls + [Mat.Call(true, Mat.Queueing, false, 0, 0)]), callers := s.callers + [Some(n)])
  }

  lemma ServedReachable(n: nat, closeWakes: bool)
    requires Reachable(Crowded(n, closeWakes))
    ensures Reachable(Served(n, closeWakes))
  {
    hide Reachable;
    var s := Crowded(n, closeWakes);
    var fresh0 := Item(0, false, ContactPc.Starting, 0, 0, 0, 0);
    var s1 := s.(queue := [], items := s.items + [fresh0], resource := Linking(n));
    var s2 := s1.(list := s.list + [n], resource := Draining);
    var s3 := s2.(items := s.items + [fresh0.(run := true, thread := Checking)]);
    var s4 := s2.(items := s.items + [fresh0.(run := true, thread := Beginning)]);
    var s5 := s2.(items := s.items + [fresh0.(run := true, thread := Receiving)]);
    StepReachable(s, Resource, s1);
    StepReachable(s1, Resource, s2);
    assert s3.items == s2.items[n := s3.items[n]];
    StepReachable(s2, Contact(n), s3);
    assert s4.items == s3.items[n := s4.items[n]];
    StepReachable(s3, Contact(n), s4);
    assert s5.items == s4.items[n := s5.items[n]];
    StepReachable(s4, Contact(n), s5);
    assert Served(n, closeWakes).items == s5.items[n := Served(n, closeWakes).items[n]];
    StepReachable(s5, Receives(n, RemoteCall), Served(n, closeWakes));
  }

  lemma {:induction false} CrowdedReachable(n: nat, closeWakes: bool)
    requires n <= Mat.QUEUE_SIZE
    ensures Reachable(Crowded(n, closeWakes))
  {
    hide Reachable, Crowded;
    if n == 0 {
      FirstClientReachable(closeWakes);
    } else {
      CrowdedReachable(n - 1, closeWakes);
      ServedReachable(n - 1, closeWakes);
      CrowdedMore(n, closeWakes);
    }
  }

  lemma FirstClientReachable(closeWakes: bool)
    ensures Reachable(Crowded(0, closeWakes))
  {
    hide Reachable;
    var i := Init(closeWakes);
    var s1 := i.(queue := [NewClient(0)], posters := 1);
    var s2 := i.(queue := [NewClient(0)], sema := 1);
    InitReachable(closeWakes);
    StepReachable(i, ClientArrives(0), s1);
    StepReachable(s1, ClientPosts, s2);
    StepReachable(s2, Resource, s2.(resource := Head));
    StepReachable(s2.(resource := Head), Resource, s2.(resource := Waiting));
    StepReachable(s2.(resource := Waiting), Resource, s2.(resource := Draining, sema := 0));
    assert Crowded(0, closeWakes) == s2.(resource := Draining, sema := 0);
  }

  lemma CrowdedMore(n: nat, closeWakes: bool)
    requires 0 < n <= Mat.QUEUE_SIZE && Reachable(Served(n - 1, closeWakes))
    ensures Reachable(Crowded(n, closeWakes))
  {
    hide Reachable;
    var s := Served(n - 1, closeWakes);
    var t := s.(eng := Crowd(n));
    CrowdGrows(n);
    StepReachable(s, CallStep(n - 1), t);
    assert t.items == Crowded(n, closeWakes).items && t.list == Crowded(n, closeWakes).list;
    assert t.callers == Crowded(n, closeWakes).callers;
    StepReachable(t, ClientArrives(0), Crowded(n, closeWakes));
  }

  lemma CrowdGrows(n: nat)
    requires 0 < n <= Mat.QUEUE_SIZE
    ensures var c := Crowd(n - 1);
      Mat.NextCaller(c.(calls := c.calls + [Mat.Call(true, Mat.Queueing, false, 0, 0)]), n - 1) == Crowd(n)
  {
    var c, d := Crowd(n - 1), Crowd(n);
    var u := c.(calls := c.calls + [Mat.Call(true, Mat.Queueing, false, 0, 0)]);
    var t := Mat.NextCaller(u, n - 1);
    assert t.calls == d.calls && t.queue == d.queue && t.accepted == d.accepted;
  }

  /**
   * It does happen: with eight calls queued, the ninth connection's is refused,
   * and no run from there ever ends the resource thread.
   */
  lemma NinthCallIsRefused(closeWakes: bool) returns (s: State)
    ensures Reachable(s) && s.stop == StopPc.Running && HoldsRefusedCall(s, 8)
  {
    hide Reachable;
    CrowdedReachable(8, closeWakes);
    ServedReachable(8, closeWakes);
    var t := Served(8, closeWakes);
    s := Next(t, CallStep(8));
    StepReachable(t, CallStep(8), s);
  }

  // ---- the stop request and a late start ----

  /** The resource thread sets the run flag at its start. */
  predicate SetsFlag(s: State, l: Label) { l == Resource && s.resource == ResourcePc.Starting }

  /** The resource thread clears it when it handles the request to finish. */
  predicate ClearsFlag(s: State, l: Label) {
    l == Resource && s.resource == Draining && s.queue != [] && s.queue[0] == FinishLoop
  }

  /** At step `i` the flag was set, and up to step `k` not cleared again. */
  ghost predicate SetAt(states: seq<State>, labels: seq<Label>, i: nat, k: nat)
    requires i < k <= |labels| && |states| == |labels| + 1
  {
    SetsFlag(states[i], labels[i]) && forall j :: i < j < k ==> !ClearsFlag(states[j], labels[j])
  }

  lemma FlagStep(s: State, l: Label)
    requires Enabled(s, l) && s.stop != StopPc.Running
    ensures Next(s, l).mRun <==> SetsFlag(s, l) || (s.mRun && !ClearsFlag(s, l))
    ensures Next(s, l).stop != StopPc.Running
  {
    hide Mat.Next, Mat.Enabled, Remove;
  }

  /**
   * After the stop request has cleared the run flag it is up again exactly when the
   * resource thread started later and has not handled the request to finish since,
   * for instance because the full queue refused it.
   */
  lemma {:induction false} FlagAfterStop(states: seq<State>, labels: seq<Label>, from: nat, k: nat)
    requires IsRun(states, labels) && from < k <= |labels| && labels[from] == StopClears
    ensures states[k].stop != StopPc.Running
    ensures states[k].mRun <==> exists i: nat :: from < i < k && SetAt(states, labels, i, k)
  {
    hide Next, SetsFlag, ClearsFlag;
    var m := k - 1;
    if m == from {
      AfterStopClears(states[m]);
    } else {
      FlagAfterStop(states, labels, from, m);
      FlagStep(states[m], labels[m]);
      forall i: nat | from < i < m
        ensures SetAt(states, labels, i, k) <==> SetAt(states, labels, i, m) && !ClearsFlag(states[m], labels[m]) { }
      if SetsFlag(states[m], labels[m]) { assert SetAt(states, labels, m, k); }
      else if states[k].mRun {
        var i: nat :| from < i < m && SetAt(states, labels, i, m);
        assert SetAt(states, labels, i, k);
      }
    }
  }

  /** The request to finish is queued or has been handled, unless the full queue refused it. */
  lemma {:induction false} FinishIsKeptUnlessRefused(states: seq<State>, labels: seq<Label>, from: nat, k: nat)
    requires IsRun(states, labels) && from < k <= |labels| && labels[from] == StopQueues && |states[from].queue| < QUEUE_SIZE
    ensures FinishLoop in states[k].queue || exists i :: from < i < k && ClearsFlag(states[i], labels[i])
  {
    hide Next, Enabled;
    if k == from + 1 {
      FinishIsQueued(states[from]);
    } else {
      FinishIsKeptUnlessRefused(states, labels, from, k - 1);
      if FinishLoop in states[k - 1].queue {
        JobStays(states[k - 1], labels[k - 1], FinishLoop);
        assert FinishLoop in states[k].queue || ClearsFlag(states[k - 1], labels[k - 1]);
      }
    }
  }

  lemma FinishIsQueued(s: State)
    requires Enabled(s, StopQueues) && |s.queue| < QUEUE_SIZE
    ensures FinishLoop in Next(s, StopQueues).queue
  {
    assert Next(s, StopQueues).queue[|s.queue|] == FinishLoop;
  }

  /** A queued job stays until the resource thread takes it. */
  lemma JobStays(s: State, l: Label, job: Job)
    requires Enabled(s, l) && job in s.queue
    ensures job in Next(s, l).queue || (l == Resource && s.resource == Draining && s.queue[0] == job)
  {
    hide Mat.Next, Mat.Enabled, Remove, NextContact, NextReceives, NextDeleting;
    match l {
      case Contact(id) => ContactQueued(s, id);
      case Receives(id, what) => ReceivesQueue(s, id, what);
      case Resource => if s.resource.Deleting? { DeletingQueue(s, s.resource.id, s.resource.stage, s.resource.cleaning); }
      case _ =>
    }
  }

  lemma ContactQueued(s: State, id: nat)
    requires id < |s.items|
    ensures s.queue <= NextContact(s, id).queue
  {
  }

  lemma DeletingQueue(s: State, id: nat, stage: Stage, cleaning: bool)
    requires id < |s.items|
    ensures NextDeleting(s, id, stage, cleaning).queue == s.queue
  {
  }

  lemma AfterStopClears(s: State)
    requires Enabled(s, StopClears)
    ensures Next(s, StopClears).stop != StopPc.Running && !Next(s, StopClears).mRun
  {
  }
}

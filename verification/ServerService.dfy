/** What the server does for its clients while it runs: each accepted client gets its item, and each that leaves is cleaned up behind. */
module ServerService {
  import opened Common
  import opened ServerLifecycle
  import opened ServerTheorems
  import J = ResourceJobs
  import Mat = MatHandle

  // ---- clients ----

  function ClientsOf(items: seq<Item>): seq<int> {
    seq(|items|, i requires 0 <= i < |items| => items[i].client)
  }

  /** The client a step brings in: one that finds room in the queue. */
  function Comes(s: State, l: Label): seq<int> {
    match l
    case ClientArrives(client) => if |s.queue| < QUEUE_SIZE then [client] else []
    case _ => []
  }

  /** All clients that came before step `k`, in their order. */
  function Came(states: seq<State>, labels: seq<Label>, k: nat): seq<int>
    requires k <= |labels| < |states|
  {
    if k == 0 then [] else Came(states, labels, k - 1) + Comes(states[k - 1], labels[k - 1])
  }

  lemma StepServes(s: State, l: Label)
    requires Enabled(s, l)
    ensures var t := Next(s, l);
      ClientsOf(t.items) + J.Clients(t.queue) == ClientsOf(s.items) + J.Clients(s.queue) + Comes(s, l)
  {
    hide Mat.Next, Mat.Enabled, Remove, J.Clients, NextContact, NextReceives, NextResource;
    match l {
      case ClientArrives(client) => J.ClientsAppend(s.queue, NewClient(client));
      case StopQueues => J.ClientsAppend(s.queue, FinishLoop);
      case Contact(id) => ContactServes(s, id);
      case Receives(id, what) => ReceivesServes(s, id, what);
      case Resource => ResourceServes(s);
      case _ =>
    }
  }

  lemma SameClients(items: seq<Item>, id: nat, item: Item)
    requires id < |items| && item.client == items[id].client
    ensures ClientsOf(items[id := item]) == ClientsOf(items)
  {
  }

  lemma ContactServes(s: State, id: nat)
    requires id < |s.items|
    ensures var t := NextContact(s, id); ClientsOf(t.items) == ClientsOf(s.items) && J.Clients(t.queue) == J.Clients(s.queue)
  {
    hide J.Clients, ClientsOf;
    J.ClientsAppend(s.queue, DeleteClient(id));
    var t := NextContact(s, id);
    SameClients(s.items, id, t.items[id]);
    assert t.items == s.items[id := t.items[id]];
  }

  lemma ReceivesServes(s: State, id: nat, what: Reception)
    requires id < |s.items|
    ensures var t := NextReceives(s, id, what); ClientsOf(t.items) == ClientsOf(s.items) && t.queue == s.queue
  {
    hide Mat.Next, ClientsOf;
    var t := NextReceives(s, id, what);
    SameClients(s.items, id, t.items[id]);
    assert t.items == s.items[id := t.items[id]];
  }

  lemma ResourceServes(s: State)
    requires Enabled(s, Resource)
    ensures var t := NextResource(s); ClientsOf(t.items) + J.Clients(t.queue) == ClientsOf(s.items) + J.Clients(s.queue)
  {
    hide Mat.Enabled, Remove, NextDeleting, NextJob, ClientsOf, J.Clients;
    match s.resource {
      case Deleting(id, stage, cleaning) => DeletingServes(s, id, stage, cleaning);
      case Draining => if s.queue != [] { JobServes(s); }
      case _ =>
    }
  }

  lemma DeletingServes(s: State, id: nat, stage: Stage, cleaning: bool)
    requires id < |s.items|
    ensures var t := NextDeleting(s, id, stage, cleaning); ClientsOf(t.items) == ClientsOf(s.items) && t.queue == s.queue
  {
    hide Remove, ClientsOf;
    var t := NextDeleting(s, id, stage, cleaning);
    SameClients(s.items, id, t.items[id]);
    assert t.items == s.items[id := t.items[id]];
  }

  lemma JobServes(s: State)
    requires s.queue != []
    ensures var t := NextJob(s); ClientsOf(t.items) + J.Clients(t.queue) == ClientsOf(s.items) + J.Clients(s.queue)
  {
    var t, rest := NextJob(s), J.Clients(s.queue[1..]);
    if s.queue[0].NewClient? {
      assert ClientsOf(t.items) == ClientsOf(s.items) + [s.queue[0].client];
      assert ClientsOf(s.items) + ([s.queue[0].client] + rest) == ClientsOf(s.items) + [s.queue[0].client] + rest;
    }
  }

  /** Every client that came has its item, in the order of their coming, or a job in the queue that will make one. */
  lemma {:induction false} EveryClientIsServed(states: seq<State>, labels: seq<Label>, k: nat)
    requires IsRun(states, labels) && k <= |labels|
    ensures ClientsOf(states[k].items) + J.Clients(states[k].queue) == Came(states, labels, k)
  {
    hide Next, Enabled, Comes, J.Clients;
    if k > 0 {
      EveryClientIsServed(states, labels, k - 1);
      StepServes(states[k - 1], labels[k - 1]);
    } else {
      NobodyYet(states[0].closeWakes);
    }
  }

  lemma NobodyYet(closeWakes: bool)
    ensures ClientsOf(Init(closeWakes).items) + J.Clients(Init(closeWakes).queue) == []
  {
  }

  // ---- leaving ----

  /** A receive on the connection of item `id` has failed, as when the client disconnects. */
  ghost predicate HasFailed(labels: seq<Label>, k: nat, id: nat)
    requires k <= |labels|
  {
    exists i :: 0 <= i < k && labels[i] == Receives(id, Failure)
  }

  /** The thread of item `id` asks for the deletion, and the queue is full. */
  predicate Refuses(s: State, l: Label, id: nat) {
    l == Contact(id) && id < |s.items| && s.items[id].thread == Asking && |s.queue| >= QUEUE_SIZE
  }

  ghost predicate WasRefused(states: seq<State>, labels: seq<Label>, k: nat, id: nat)
    requires k <= |labels| < |states|
  {
    exists i :: 0 <= i < k && Refuses(states[i], labels[i], id)
  }

  /** The thread of item `id` has asked for the deletion. */
  predicate HasAsked(s: State, id: nat) {
    id < |s.items| && (s.items[id].thread == ContactPosting || s.items[id].thread == Done)
  }

  /** While jobs are taken, an item whose thread has asked is untouched with no job to delete it exactly if the queue refused that request. */
  predicate AsksFit(s: State, id: nat, refused: bool) {
    if HasAsked(s, id) then TakesNoJobs(s.resource) || (refused <==> Alive(s, id) && DeleteClient(id) !in s.queue)
    else !refused
  }

  /** Before the stop request the run flag is up and jobs are taken. */
  predicate Up(s: State) {
    s.stop == StopPc.Running ==> s.mRun && FinishLoop !in s.queue && !TakesNoJobs(s.resource)
  }

  /** Before the stop request a contact thread leaves its loop exactly if a receive has failed. */
  predicate LeavesFit(s: State, id: nat, failed: bool) {
    if id < |s.items| && s.stop == StopPc.Running then
      var item := s.items[id];
      && (failed <==> item.thread == Asking || HasAsked(s, id) || (item.thread == Checking && !item.run))
      && (item.thread in {Beginning, Receiving} || item.thread.Calling? ==> item.run && item.closed == 0)
    else id < |s.items| || !failed
  }

  lemma UpStays(s: State, l: Label)
    requires ItemsFit(s) && Up(s) && Enabled(s, l)
    ensures Up(Next(s, l))
  {
    hide ItemsFit, Mat.Next, Mat.Enabled, NextResource, NextContact, NextReceives;
    match l {
      case Resource => ResourceUp(s);
      case Contact(id) => ContactLeaves(s, id); ContactJobs(s, id);
      case Receives(id, what) => ReceivesLeaves(s, id, what); ReceivesQueue(s, id, what);
      case ClientArrives(client) => OfferOther(s.queue, NewClient(client), FinishLoop);
      case _ =>
    }
  }

  lemma ContactJobs(s: State, id: nat)
    requires id < |s.items|
    ensures FinishLoop in NextContact(s, id).queue <==> FinishLoop in s.queue
  {
    OfferOther(s.queue, DeleteClient(id), FinishLoop);
  }

  lemma DeletingUp(s: State, id: nat, stage: Stage, cleaning: bool)
    requires id < |s.items|
    ensures var t := NextDeleting(s, id, stage, cleaning);
      t.stop == s.stop && t.mRun == s.mRun && t.queue == s.queue && (TakesNoJobs(t.resource) ==> cleaning)
  {
    hide Remove;
  }

  lemma ResourceUp(s: State)
    requires Enabled(s, Resource) && Up(s)
    ensures Up(NextResource(s))
  {
    hide Mat.Enabled, Remove, NextDeleting;
    if s.resource.Deleting? {
      DeletingUp(s, s.resource.id, s.resource.stage, s.resource.cleaning);
    } else if s.resource.Draining? && s.queue != [] {
      assert s.queue[0] in s.queue;
      assert forall job :: job in s.queue[1..] ==> job in s.queue;
    }
  }

  // ---- the requests for deletion ----

  /** Somebody else's step: the item, its place and its job stay. */
  lemma AsksUnmoved(s: State, t: State, id: nat, refused: bool)
    requires AsksFit(s, id, refused) && HasAsked(t, id) == HasAsked(s, id)
    requires TakesNoJobs(s.resource) ==> TakesNoJobs(t.resource)
    requires HasAsked(t, id) ==> TakesNoJobs(t.resource) || (Alive(t, id) == Alive(s, id) && (DeleteClient(id) in t.queue <==> DeleteClient(id) in s.queue))
    ensures AsksFit(t, id, refused)
  {
  }

  lemma OfferOther(queue: seq<Job>, job: Job, other: Job)
    requires job != other
    ensures other in Offer(queue, job) <==> other in queue
  {
  }

  lemma ContactOthers(s: State, who: nat, id: nat)
    requires Enabled(s, Contact(who))
    ensures var t := NextContact(s, who);
      && t.list == s.list && t.resource == s.resource && |t.items| == |s.items|
      && if who == id && s.items[id].thread == Asking then
           HasAsked(t, id) && t.queue == Offer(s.queue, DeleteClient(id))
         else HasAsked(t, id) == HasAsked(s, id) && (DeleteClient(id) in t.queue <==> DeleteClient(id) in s.queue)
  {
    hide Mat.Enabled;
    OfferOther(s.queue, DeleteClient(who), DeleteClient(if id == who then who + 1 else id));
  }

  lemma ContactAsks(s: State, who: nat, id: nat, refused: bool)
    requires ItemsFit(s) && Enabled(s, Contact(who)) && AsksFit(s, id, refused)
    ensures AsksFit(NextContact(s, who), id, refused || Refuses(s, Contact(who), id))
  {
    hide Mat.Enabled, NextContact;
    var t := NextContact(s, who);
    ContactOthers(s, who, id);
    if who == id && s.items[id].thread == Asking {
      assert StageFits(s, id);
      forall i | 0 <= i < |s.queue| ensures s.queue[i] != DeleteClient(id) { assert JobFits(s, i); }
      assert |s.queue| < QUEUE_SIZE ==> t.queue[|s.queue|] == DeleteClient(id);
    } else {
      AsksUnmoved(s, t, id, refused);
    }
  }

  lemma ReceivesAsks(s: State, who: nat, what: Reception, id: nat, refused: bool)
    requires Enabled(s, Receives(who, what)) && AsksFit(s, id, refused)
    ensures AsksFit(NextReceives(s, who, what), id, refused)
  {
    hide Mat.Enabled, Mat.Next;
    AsksUnmoved(s, NextReceives(s, who, what), id, refused);
  }

  lemma JobAsks(s: State, id: nat, refused: bool)
    requires ItemsFit(s) && s.resource.Draining? && s.queue != [] && AsksFit(s, id, refused)
    ensures AsksFit(NextJob(s), id, refused)
  {
    var t := NextJob(s);
    if s.queue[0] == DeleteClient(id) {
      assert JobFits(s, 0);
    } else {
      assert forall job :: job in s.queue <==> job == s.queue[0] || job in t.queue;
      AsksUnmoved(s, t, id, refused);
    }
  }

  lemma DeletingAsks(s: State, id: nat, refused: bool)
    requires ItemsFit(s) && s.resource.Deleting? && Enabled(s, Resource) && AsksFit(s, id, refused)
    ensures AsksFit(NextResource(s), id, refused)
  {
    hide Mat.Enabled, JobFits, ListFits;
    assert StageFits(s, s.resource.id);
    AsksUnmoved(s, NextResource(s), id, refused);
  }

  lemma ResourceAsks(s: State, id: nat, refused: bool)
    requires ItemsFit(s) && Enabled(s, Resource) && AsksFit(s, id, refused)
    ensures AsksFit(NextResource(s), id, refused)
  {
    hide ItemsFit, Mat.Enabled, Remove;
    if s.resource.Deleting? {
      DeletingAsks(s, id, refused);
    } else if s.resource.Draining? && s.queue != [] {
      JobAsks(s, id, refused);
    } else {
      AsksUnmoved(s, NextResource(s), id, refused);
    }
  }

  lemma StepAsks(s: State, l: Label, id: nat, refused: bool)
    requires ItemsFit(s) && Enabled(s, l) && AsksFit(s, id, refused)
    ensures AsksFit(Next(s, l), id, refused || Refuses(s, l, id))
  {
    hide ItemsFit, Mat.Next, Mat.Enabled, NextResource, NextContact, NextReceives;
    match l {
      case Contact(who) => ContactAsks(s, who, id, refused);
      case Receives(who, what) => ReceivesAsks(s, who, what, id, refused);
      case Resource => ResourceAsks(s, id, refused);
      case ClientArrives(client) =>
        OfferOther(s.queue, NewClient(client), DeleteClient(id));
        AsksUnmoved(s, Next(s, l), id, refused);
      case StopQueues =>
        OfferOther(s.queue, FinishLoop, DeleteClient(id));
        AsksUnmoved(s, Next(s, l), id, refused);
      case _ => AsksUnmoved(s, Next(s, l), id, refused);
    }
  }

  /**
   * As long as jobs are taken, the item of a contact thread that has asked for its
   * deletion has the job in the queue, is being destroyed or has been, or else the
   * full queue has refused that very request.
   */
  lemma {:induction false} RequestIsKeptUnlessRefused(states: seq<State>, labels: seq<Label>, k: nat, id: nat)
    requires IsRun(states, labels) && k <= |labels|
    ensures AsksFit(states[k], id, WasRefused(states, labels, k, id))
  {
    hide Next, Enabled, AsksFit, ItemsFit, CallsFit, Woken, StopHeard, Refuses;
    if k > 0 {
      RequestIsKeptUnlessRefused(states, labels, k - 1, id);
      RunInv(states, labels, k - 1);
      StepAsks(states[k - 1], labels[k - 1], id, WasRefused(states, labels, k - 1, id));
      assert WasRefused(states, labels, k, id) <==>
        WasRefused(states, labels, k - 1, id) || Refuses(states[k - 1], labels[k - 1], id);
    } else {
      NobodyAsked(states[0].closeWakes, id);
    }
  }

  lemma NobodyAsked(closeWakes: bool, id: nat)
    ensures AsksFit(Init(closeWakes), id, false) && LeavesFit(Init(closeWakes), id, false) && Up(Init(closeWakes))
  {
  }

  // ---- who leaves ----

  /** Before the stop request a thread that has not asked has an item nobody destroys. */
  lemma NotAskedIsOpen(s: State, id: nat)
    requires ItemsFit(s) && Up(s) && s.stop == StopPc.Running && id < |s.items| && !HasAsked(s, id)
    ensures s.items[id].closed == 0 && !BeingDeleted(s, id)
  {
    assert StageFits(s, id);
  }

  lemma ItemLeaves(s: State, t: State, id: nat, failed: bool)
    requires LeavesFit(s, id, failed) && id < |s.items| && id < |t.items| && t.items[id] == s.items[id]
    requires t.stop == StopPc.Running ==> s.stop == StopPc.Running
    ensures LeavesFit(t, id, failed)
  {
  }

  lemma ContactGoes(s: State, who: nat, id: nat, failed: bool)
    requires ItemsFit(s) && Up(s) && Enabled(s, Contact(who)) && LeavesFit(s, id, failed)
    ensures LeavesFit(NextContact(s, who), id, failed)
  {
    hide Mat.Enabled, ItemsFit;
    if who == id && s.stop == StopPc.Running && !HasAsked(s, id) { NotAskedIsOpen(s, id); }
  }

  lemma ReceivesGoes(s: State, who: nat, what: Reception, id: nat, failed: bool)
    requires ItemsFit(s) && Up(s) && Enabled(s, Receives(who, what)) && LeavesFit(s, id, failed)
    ensures LeavesFit(NextReceives(s, who, what), id, failed || (who == id && what == Failure))
  {
    hide Mat.Enabled, Mat.Next, ItemsFit;
  }

  lemma ResourceGoes(s: State, id: nat, failed: bool)
    requires ItemsFit(s) && Up(s) && Enabled(s, Resource) && LeavesFit(s, id, failed)
    ensures LeavesFit(NextResource(s), id, failed)
  {
    hide Mat.Enabled, Remove, ItemsFit;
    if s.stop == StopPc.Running && id < |s.items| && !HasAsked(s, id) { NotAskedIsOpen(s, id); }
  }

  lemma StepLeaves(s: State, l: Label, id: nat, failed: bool)
    requires ItemsFit(s) && Up(s) && Enabled(s, l) && LeavesFit(s, id, failed)
    ensures LeavesFit(Next(s, l), id, failed || l == Receives(id, Failure))
  {
    hide ItemsFit, Up, Mat.Next, Mat.Enabled, NextResource, NextContact, NextReceives;
    match l {
      case Contact(who) => ContactGoes(s, who, id, failed);
      case Receives(who, what) => ReceivesGoes(s, who, what, id, failed);
      case Resource => ResourceGoes(s, id, failed);
      case _ => if id < |s.items| { ItemLeaves(s, Next(s, l), id, failed); }
    }
  }

  lemma {:induction false} UpHolds(states: seq<State>, labels: seq<Label>, k: nat)
    requires IsRun(states, labels) && k <= |labels|
    ensures Up(states[k])
  {
    hide Next, Enabled, Up, ItemsFit, CallsFit, Woken, StopHeard;
    if k > 0 {
      UpHolds(states, labels, k - 1);
      RunInv(states, labels, k - 1);
      UpStays(states[k - 1], labels[k - 1]);
    } else {
      NobodyAsked(states[0].closeWakes, 0);
    }
  }

  /** Before the stop request the thread of an item leaves its loop if and only if a receive on its connection has failed. */
  lemma {:induction false} LeavesIffFailed(states: seq<State>, labels: seq<Label>, k: nat, id: nat)
    requires IsRun(states, labels) && k <= |labels|
    ensures LeavesFit(states[k], id, HasFailed(labels, k, id))
  {
    hide Next, Enabled, LeavesFit, Up, ItemsFit, CallsFit, Woken, StopHeard;
    if k > 0 {
      LeavesIffFailed(states, labels, k - 1, id);
      RunInv(states, labels, k - 1);
      UpHolds(states, labels, k - 1);
      StepLeaves(states[k - 1], labels[k - 1], id, HasFailed(labels, k - 1, id));
      assert HasFailed(labels, k, id) <==> HasFailed(labels, k - 1, id) || labels[k - 1] == Receives(id, Failure);
    } else {
      NobodyAsked(states[0].closeWakes, id);
    }
  }

  // ---- an item that is destroyed ----

  /** The run flag of item `id` has been taken down for its destruction. */
  predicate IsStopped(s: State, id: nat) {
    BeingDeleted(s, id) && s.resource.stage != StopIt
  }

  /** The thread of item `id` starts only now, and puts the flag up again. */
  predicate StartsLate(s: State, l: Label, id: nat) {
    l == Contact(id) && id < |s.items| && s.items[id].thread == ContactPc.Starting && IsStopped(s, id)
  }

  lemma StepStops(s: State, l: Label, id: nat)
    requires Enabled(s, l) && IsStopped(Next(s, l), id) && id < |Next(s, l).items| && Next(s, l).items[id].run
    ensures StartsLate(s, l, id) || (IsStopped(s, id) && id < |s.items| && s.items[id].run)
  {
    hide Mat.Next, Mat.Enabled, Remove, NextContact, NextReceives, NextResource;
    match l {
      case Contact(who) => ContactStops(s, who, id);
      case Receives(who, what) => ReceivesStops(s, who, what, id);
      case Resource => ResourceStops(s, id);
      case _ =>
    }
  }

  lemma ContactStops(s: State, who: nat, id: nat)
    requires who < |s.items|
    ensures var t := NextContact(s, who);
      && t.resource == s.resource && |t.items| == |s.items|
      && (id < |s.items| && t.items[id].run && !s.items[id].run ==> who == id && s.items[id].thread == ContactPc.Starting)
  {
  }

  lemma ReceivesStops(s: State, who: nat, what: Reception, id: nat)
    requires who < |s.items|
    ensures var t := NextReceives(s, who, what);
      t.resource == s.resource && |t.items| == |s.items| && (id < |s.items| && t.items[id].run ==> s.items[id].run)
  {
    hide Mat.Next;
  }

  lemma ResourceStops(s: State, id: nat)
    requires Enabled(s, Resource) && IsStopped(NextResource(s), id) && id < |NextResource(s).items|
    ensures NextResource(s).items[id].run ==> IsStopped(s, id) && id < |s.items| && s.items[id].run
  {
    hide Mat.Enabled, Remove;
  }

  /** While an item is destroyed, its run flag is up again only if its thread has started after the flag was taken down. */
  lemma {:induction false} StoppedUnlessLate(states: seq<State>, labels: seq<Label>, k: nat, id: nat)
    requires IsRun(states, labels) && k <= |labels|
    requires IsStopped(states[k], id) && id < |states[k].items| && states[k].items[id].run
    ensures exists i :: 0 <= i < k && StartsLate(states[i], labels[i], id)
  {
    hide Next, Enabled, IsStopped, StartsLate;
    if k > 0 {
      StepStops(states[k - 1], labels[k - 1], id);
      if !StartsLate(states[k - 1], labels[k - 1], id) { StoppedUnlessLate(states, labels, k - 1, id); }
    }
  }

  /** The item that is cleaned up is the first of those still there. */
  predicate CleansFirst(s: State) {
    s.resource.Deleting? && s.resource.cleaning ==> forall x :: x in s.list ==> s.resource.id <= x
  }

  lemma StepCleansFirst(s: State, l: Label)
    requires ItemsFit(s) && CleansFirst(s) && Enabled(s, l)
    ensures CleansFirst(Next(s, l))
  {
    hide ItemsFit, Mat.Next, Mat.Enabled, NextResource, NextContact, NextReceives;
    match l {
      case Resource => ResourceCleansFirst(s);
      case Contact(id) => ContactKeepsList(s, id);
      case Receives(id, what) => ReceivesKeepsList(s, id, what);
      case _ =>
    }
  }

  lemma ContactKeepsList(s: State, id: nat)
    requires id < |s.items|
    ensures var t := NextContact(s, id); t.list == s.list && t.resource == s.resource
  {
  }

  lemma ReceivesKeepsList(s: State, id: nat, what: Reception)
    requires id < |s.items|
    ensures var t := NextReceives(s, id, what); t.list == s.list && t.resource == s.resource
  {
    hide Mat.Next;
  }

  lemma ResourceCleansFirst(s: State)
    requires ItemsFit(s) && CleansFirst(s) && Enabled(s, Resource)
    ensures CleansFirst(NextResource(s))
  {
    hide Mat.Enabled, StageFits, JobFits, AskedOnce;
    if s.resource.Cleaning? && s.list != [] {
      forall x | x in s.list ensures s.list[0] <= x {
        var i :| 0 <= i < |s.list| && s.list[i] == x;
      }
    }
  }

  /** When the server stops, it destroys the items that are left in the order of their creation. */
  lemma {:induction false} CleansUpInOrder(states: seq<State>, labels: seq<Label>, k: nat, id: nat)
    requires IsRun(states, labels) && k <= |labels|
    ensures CleansFirst(states[k])
    ensures states[k].resource.Deleting? && states[k].resource.cleaning && id < states[k].resource.id && id < |states[k].items| ==>
      Counts(states[k].items[id], 1, 1, 1, 1)
  {
    hide Next, Enabled, CallsFit, Woken, StopHeard, JobFits, ListFits, AskedOnce;
    RunInv(states, labels, k);
    if k > 0 {
      CleansUpInOrder(states, labels, k - 1, id);
      RunInv(states, labels, k - 1);
      StepCleansFirst(states[k - 1], labels[k - 1]);
    }
    if id < |states[k].items| { assert StageFits(states[k], id); }
  }

  predicate ClosedAndAway(s: State, id: nat) {
    id < |s.items| && s.items[id].closed > 0 && s.items[id].thread != Receiving
  }

  lemma StepStaysAway(s: State, l: Label, id: nat)
    requires Enabled(s, l) && ClosedAndAway(s, id)
    ensures ClosedAndAway(Next(s, l), id)
  {
    hide Mat.Next, Mat.Enabled, NextResource, NextContact;
    match l {
      case Resource => ResourceKeepsAway(s, id);
      case Contact(who) => ContactKeepsAway(s, who, id);
      case _ =>
    }
  }

  lemma ResourceKeepsAway(s: State, id: nat)
    requires Enabled(s, Resource) && ClosedAndAway(s, id)
    ensures ClosedAndAway(NextResource(s), id)
  {
    hide Mat.Enabled, Remove, NextDeleting;
    match s.resource {
      case Deleting(other, stage, cleaning) => DeletingKeepsAway(s, other, stage, cleaning, id);
      case _ =>
    }
  }

  lemma DeletingKeepsAway(s: State, other: nat, stage: Stage, cleaning: bool, id: nat)
    requires other < |s.items| && ClosedAndAway(s, id)
    ensures ClosedAndAway(NextDeleting(s, other, stage, cleaning), id)
  {
    hide Remove;
  }

  lemma ContactKeepsAway(s: State, who: nat, id: nat)
    requires who < |s.items| && ClosedAndAway(s, id)
    ensures ClosedAndAway(NextContact(s, who), id)
  {
  }

  /** After its socket has been closed, a thread that is not in a receive never is again. */
  lemma {:induction false} NoReceiveAfterClose(states: seq<State>, labels: seq<Label>, from: nat, k: nat, id: nat)
    requires IsRun(states, labels) && from <= k <= |labels| && ClosedAndAway(states[from], id)
    ensures ClosedAndAway(states[k], id)
  {
    hide Next, Enabled, ClosedAndAway;
    if from < k {
      NoReceiveAfterClose(states, labels, from, k - 1, id);
      StepStaysAway(states[k - 1], labels[k - 1], id);
    }
  }

  // ---- at rest ----

  /** Steps that need no client: of the server's threads, and the posts of clients whose request is queued. */
  predicate Inner(l: Label) {
    l.Resource? || l.Contact? || l.EngineStep? || l.CallStep? || l.ClientPosts?
  }

  /** Only a client can go on: one that arrives, sends something, or leaves. */
  ghost predicate AtRest(s: State) {
    forall l :: Inner(l) ==> !Enabled(s, l)
  }

  lemma RestingServer(s: State)
    requires Inv(s) && Woken(s) && Up(s) && AtRest(s) && s.stop == StopPc.Running
    ensures s.resource == Waiting && s.queue == []
  {
    hide CallsFit, Mat.Enabled, Remove;
    assert !Enabled(s, Resource) && !Enabled(s, ClientPosts);
    forall id | 0 <= id < |s.items| ensures s.items[id].thread != ContactPosting { assert !Enabled(s, Contact(id)); }
  }

  lemma RestingThread(s: State, id: nat)
    requires Inv(s) && AtRest(s) && id < |s.items|
    ensures s.items[id].thread == Done || s.items[id].thread == Receiving || HoldsRefusedCall(s, id)
  {
    hide ItemsFit, Mat.Inv, Mat.Enabled, Mat.Refused;
    assert !Enabled(s, Contact(id));
    if s.items[id].thread.Calling? {
      var c := s.items[id].thread.call;
      assert CallFits(s, id);
      CallAtRest(s, c);
    }
  }

  /** A synchronous call that has not returned at rest has been refused. */
  lemma CallAtRest(s: State, c: nat)
    requires CallsFit(s) && AtRest(s) && c < |s.eng.calls| && s.eng.calls[c].isSync && s.eng.calls[c].pc != Mat.Returned
    ensures Mat.Refused(s.eng, c)
  {
    assert !Enabled(s, EngineStep);
    forall k ensures !Mat.Enabled(s.eng, Mat.Caller(k)) { assert !Enabled(s, CallStep(k)); }
    Mat.QuietMeansServed(s.eng, c);
    Mat.RestingQueue(s.eng);
    assert !Mat.Enabled(s.eng, Mat.Caller(c));
  }

  /**
   * A running server at rest, whatever has happened to it: the clients that came
   * have an item each, in the order of their coming. The item of a client whose
   * connection has failed has been closed, joined, unlinked and freed once, or is
   * untouched if the full queue refused its thread's request; the thread of any
   * other waits for its client, or for a call that was refused.
   */
  lemma RunningServerAtRest(states: seq<State>, labels: seq<Label>, k: nat)
    requires IsRun(states, labels) && k <= |labels| && AtRest(states[k]) && states[k].stop == StopPc.Running
    ensures var s := states[k];
      && ClientsOf(s.items) == Came(states, labels, k)
      && forall id: nat :: id < |s.items| ==>
           var item := s.items[id];
           if !HasFailed(labels, k, id) then
             Counts(item, 0, 0, 0, 0) && id in s.list && (item.thread == Receiving || HoldsRefusedCall(s, id))
           else
             && item.thread == Done
             && if WasRefused(states, labels, k, id) then Counts(item, 0, 0, 0, 0) && id in s.list
                else Counts(item, 1, 1, 1, 1) && id !in s.list
  {
    hide CallsFit, ItemsFit, Woken, StopHeard, AtRest, Next, HoldsRefusedCall, HasFailed, WasRefused, ClientsOf, Came;
    var s := states[k];
    RunInv(states, labels, k);
    UpHolds(states, labels, k);
    RestingServer(s);
    EveryClientIsServed(states, labels, k);
    forall id: nat | id < |s.items|
      ensures var item, failed := s.items[id], HasFailed(labels, k, id);
        && (failed <==> item.thread == Done) && (failed || item.thread == Receiving || HoldsRefusedCall(s, id))
        && if failed && !WasRefused(states, labels, k, id) then Counts(item, 1, 1, 1, 1) && id !in s.list
           else Counts(item, 0, 0, 0, 0) && id in s.list
    {
      RestingThread(s, id);
      LeavesIffFailed(states, labels, k, id);
      RequestIsKeptUnlessRefused(states, labels, k, id);
      RestingItem(s, id, HasFailed(labels, k, id), WasRefused(states, labels, k, id));
    }
  }

  lemma RestingItem(s: State, id: nat, failed: bool, refused: bool)
    requires ItemsFit(s) && s.resource == Waiting && s.queue == [] && id < |s.items| && s.stop == StopPc.Running
    requires s.items[id].thread == Done || s.items[id].thread == Receiving || HoldsRefusedCall(s, id)
    requires LeavesFit(s, id, failed) && AsksFit(s, id, refused)
    ensures failed <==> s.items[id].thread == Done
    ensures if failed && !refused then Counts(s.items[id], 1, 1, 1, 1) && id !in s.list
            else Counts(s.items[id], 0, 0, 0, 0) && id in s.list
  {
    hide Mat.Refused;
    assert StageFits(s, id);
  }

  // ---- rest is reached ----

  /** How many steps the thread of an item can still take before it waits for its client or is at its end, with those it gives the resource thread. */
  function ThreadWork(item: Item): nat {
    match item.thread
    case Starting => 16
    case Checking => if item.run then 15 else 13
    case Beginning => 14
    case Receiving => 0
    case Calling(_) => 16
    case Asking => 12
    case ContactPosting => 5
    case Done => 0
  }

  function ThreadsWork(items: seq<Item>): nat {
    if items == [] then 0 else ThreadsWork(items[..|items| - 1]) + ThreadWork(items[|items| - 1])
  }

  lemma {:induction false} ThreadsUpdate(items: seq<Item>, id: nat, item: Item)
    requires id < |items|
    ensures ThreadsWork(items[id := item]) + ThreadWork(items[id]) == ThreadsWork(items) + ThreadWork(item)
  {
    var u := items[id := item];
    if id == |items| - 1 {
      assert u[..|u| - 1] == items[..|items| - 1];
    } else {
      assert u[..|u| - 1] == items[..|items| - 1][id := item];
      ThreadsUpdate(items[..|items| - 1], id, item);
    }
  }

  lemma ThreadsAppend(items: seq<Item>, item: Item)
    ensures ThreadsWork(items + [item]) == ThreadsWork(items) + ThreadWork(item)
  {
    assert (items + [item])[..|items|] == items;
  }

  function JobCost(job: Job): nat { if job.NewClient? then 18 else 6 }

  function JobsCost(jobs: seq<Job>): nat {
    if jobs == [] then 0 else JobCost(jobs[0]) + JobsCost(jobs[1..])
  }

  lemma {:induction false} JobsCostAppend(jobs: seq<Job>, job: Job)
    ensures JobsCost(jobs + [job]) == JobsCost(jobs) + JobCost(job)
  {
    if jobs != [] {
      assert (jobs + [job])[1..] == jobs[1..] + [job];
      JobsCostAppend(jobs[1..], job);
    }
  }

  /** What the resource thread has to do before it waits. */
  function ResourceCost(r: ResourcePc): nat {
    match r
    case Waiting => 1
    case Head => 2
    case Starting => 3
    case Draining => 3
    case Linking(_) => 4
    case Deleting(_, stage, _) =>
      (match stage
       case StopIt => 8
       case Close => 7
       case JoinIt => 6
       case UnlinkIt => 5
       case FreeIt => 4)
    case Cleaning => 0
    case Ended => 0
  }

  function Work(s: State): nat {
    ThreadsWork(s.items) + JobsCost(s.queue) + 4 * s.sema + 5 * s.posters + ResourceCost(s.resource) + Mat.Effort(s.eng)
  }

  lemma ContactWorks(s: State, id: nat)
    requires Enabled(s, Contact(id)) && s.mRun
    ensures Work(NextContact(s, id)) < Work(s)
  {
    hide Mat.Enabled, Mat.Effort, ThreadsWork, JobsCost, ThreadWork, NextContact;
    var t := NextContact(s, id);
    ContactWorkChanges(s, id);
    ThreadsUpdate(s.items, id, t.items[id]);
    JobsCostAppend(s.queue, DeleteClient(id));
  }

  lemma ContactWorkChanges(s: State, id: nat)
    requires Enabled(s, Contact(id)) && s.mRun
    ensures var t := NextContact(s, id);
      && t.eng == s.eng && t.posters == s.posters && t.resource == s.resource && t.items == s.items[id := t.items[id]]
      && (t.queue == s.queue || t.queue == s.queue + [DeleteClient(id)])
      && ThreadWork(t.items[id]) + 4 * (t.sema - s.sema) + (if t.queue == s.queue then 0 else 6) < ThreadWork(s.items[id])
  {
    hide Mat.Enabled;
  }

  lemma ResourceWorks(s: State)
    requires ItemsFit(s) && Up(s) && s.stop == StopPc.Running && Enabled(s, Resource)
    ensures Work(NextResource(s)) < Work(s)
  {
    hide Mat.Enabled, Mat.Effort, ThreadsWork, ItemsFit, Remove, NextDeleting, NextJob;
    match s.resource {
      case Deleting(id, stage, cleaning) => DeletingWorks(s, id, stage, cleaning);
      case Draining => if s.queue != [] { JobWorks(s); }
      case _ =>
    }
  }

  lemma DeletingWorks(s: State, id: nat, stage: Stage, cleaning: bool)
    requires ItemsFit(s) && s.resource == Deleting(id, stage, cleaning) && !cleaning
    ensures Work(NextDeleting(s, id, stage, cleaning)) < Work(s)
  {
    hide Mat.Effort, ThreadsWork, Remove, StageFits, JobFits, ListFits;
    ThreadsUpdate(s.items, id, NextDeleting(s, id, stage, cleaning).items[id]);
  }

  lemma JobWorks(s: State)
    requires s.resource.Draining? && s.queue != [] && FinishLoop !in s.queue
    ensures Work(NextJob(s)) < Work(s)
  {
    hide Mat.Effort, ThreadsWork;
    assert s.queue[0] in s.queue;
    if s.queue[0].NewClient? { ThreadsAppend(s.items, NextJob(s).items[|s.items|]); }
  }

  lemma InnerStepWorks(s: State, l: Label)
    requires ItemsFit(s) && Up(s) && s.stop == StopPc.Running && Enabled(s, l) && Inner(l)
    ensures Next(s, l).stop == StopPc.Running && Work(Next(s, l)) < Work(s)
  {
    hide ItemsFit, Mat.Effort, Mat.Enabled, Mat.Next, ThreadsWork, JobsCost, NextResource, NextContact, ResourceCost;
    match l {
      case Resource => ResourceWorks(s); ResourceKeepsThreads(s);
      case Contact(id) => ContactWorks(s, id); ContactLeaves(s, id);
      case EngineStep => Mat.StepDecreases(s.eng, Mat.Engine);
      case CallStep(c) => Mat.StepDecreases(s.eng, Mat.Caller(c));
      case ClientPosts =>
    }
  }

  /** While no client does anything, a running server comes to rest: its threads can take at most `Work` steps, in any order. */
  lemma {:induction false} RunningServerSettles(states: seq<State>, labels: seq<Label>, from: nat, k: nat)
    requires IsRun(states, labels) && from <= k <= |labels| && states[from].stop == StopPc.Running
    requires forall i :: from <= i < k ==> Inner(labels[i])
    ensures states[k].stop == StopPc.Running && Work(states[k]) + (k - from) <= Work(states[from])
  {
    hide Next, Enabled, Up, ItemsFit, CallsFit, Woken, StopHeard, Work;
    if from < k {
      RunningServerSettles(states, labels, from, k - 1);
      RunInv(states, labels, k - 1);
      UpHolds(states, labels, k - 1);
      InnerStepWorks(states[k - 1], labels[k - 1]);
    }
  }
}

/**
 * The life of connection items as a transition system: clients arrive, contact
 * threads start inside the constructor of their item and ask for its deletion
 * at their end, and one resource thread creates, links and destroys items.
 * The job queue is bounded and may refuse a job without anybody noticing.
 * A contact thread that has received a request hands it to the engine thread,
 * whose own transition system is part of the state.
 */
module ServerLifecycle {
  import opened Common
  import Mat = MatHandle

  const QUEUE_SIZE := 16

  datatype Job = NewClient(client: int) | DeleteClient(id: nat) | FinishLoop

  /**
   * Where a contact thread stands. A receive begins in `Beginning`, and fails at once
   * if the socket has been closed by then; in `Receiving` it is under way. While the
   * thread waits for the engine thread, the number is that of its call.
   */
  datatype ContactPc = Starting | Checking | Beginning | Receiving | Calling(call: nat) | Asking | ContactPosting | Done

  /** What a call of ReceiveHeader can bring. */
  datatype Reception = Timeout | RemoteCall | Failure

  /** An item, and how often each stage of its destruction has been carried out. */
  datatype Item = Item(client: int, run: bool, thread: ContactPc, closed: nat, joined: nat, unlinked: nat, freed: nat)

  datatype Stage = StopIt | Close | JoinIt | UnlinkIt | FreeIt

  datatype ResourcePc =
    | Starting | Head | Waiting | Draining
    | Linking(id: nat)
    | Deleting(id: nat, stage: Stage, cleaning: bool)
    | Cleaning | Ended

  datatype StopPc = Running | Finishing | StopPosting | StopJoining | Stopped

  /**
   * Item `i` is the `i`-th ever created. `list` is the linked list; `posters` counts
   * clients between queueing and posting. `eng` is the engine thread with its queue,
   * and `callers` says whose each of its calls is: an item's, or somebody else's.
   * `closeWakes` is a property of the platform that no step changes: whether closing a
   * socket ends a receive that another thread has begun on it.
   */
  datatype State = State(mRun: bool, queue: seq<Job>, sema: nat, posters: nat,
                         stop: StopPc, resource: ResourcePc, items: seq<Item>, list: seq<nat>,
                         eng: Mat.State, callers: seq<Option<nat>>, closeWakes: bool)

  datatype Label =
    | ClientArrives(client: int) | ClientPosts
    | Contact(id: nat) | Receives(id: nat, what: Reception)
    | EngineStep | CallStep(call: nat) | ForeignCall(isSync: bool)
    | StopClears | StopQueues | StopPosts | StopReturns
    | Resource

  function Init(closeWakes: bool): State {
    State(true, [], 0, 0, Running, ResourcePc.Starting, [], [], Mat.Init, [], closeWakes)
  }

  function Offer(queue: seq<Job>, job: Job): seq<Job> {
    if |queue| < QUEUE_SIZE then queue + [job] else queue
  }

  function SetItem(s: State, id: nat, item: Item): State
    requires id < |s.items|
  {
    s.(items := s.items[id := item])
  }

  function Remove(list: seq<nat>, id: nat): (r: seq<nat>)
    ensures |r| <= |list|
    ensures forall x :: x in r <==> x in list && x != id
  {
    if list == [] then []
    else if list[0] == id then Remove(list[1..], id)
    else [list[0]] + Remove(list[1..], id)
  }

  predicate Enabled(s: State, l: Label) {
    match l
    case ClientArrives(_) => true
    case ClientPosts => s.posters > 0
    case Contact(id) =>
      id < |s.items| &&
      (match s.items[id].thread
       case Receiving => false
       case Done => false
       case Calling(c) => c < |s.eng.calls| && s.eng.calls[c].pc == Mat.Returned
       case _ => true)
    case Receives(id, _) => id < |s.items| && s.items[id].thread == Receiving
    case EngineStep => Mat.Enabled(s.eng, Mat.Engine)
    case CallStep(c) => Mat.Enabled(s.eng, Mat.Caller(c))
    case ForeignCall(isSync) => Mat.Enabled(s.eng, Mat.Begin(isSync))
    case StopClears => s.stop.Running? && s.mRun
    case StopQueues => s.stop.Finishing?
    case StopPosts => s.stop.StopPosting?
    case StopReturns => s.stop.StopJoining? && s.resource.Ended?
    case Resource =>
      match s.resource
      case Waiting => s.sema > 0
      case Linking(id) => id < |s.items|
      case Deleting(id, stage, _) => id < |s.items| && (stage.JoinIt? ==> s.items[id].thread == Done)
      case Ended => false
      case _ => true
  }

  function NextContact(s: State, id: nat): State
    requires id < |s.items|
  {
    var item := s.items[id];
    match item.thread
    case Starting => SetItem(s, id, item.(run := true, thread := Checking))
    case Checking => SetItem(s, id, item.(thread := if s.mRun && item.run then Beginning else Asking))
    case Beginning =>
      SetItem(s, id, if item.closed > 0 then item.(run := false, thread := Checking) else item.(thread := Receiving))
    case Calling(_) => SetItem(s, id, item.(thread := Checking))
    case Asking => SetItem(s, id, item.(thread := ContactPosting)).(queue := Offer(s.queue, DeleteClient(id)))
    case ContactPosting => SetItem(s, id, item.(thread := Done)).(sema := s.sema + 1)
    case _ => s
  }

  /** A call from a thread that does not belong to an item, or from the contact thread of one. */
  function NewCall(s: State, caller: Option<nat>, isSync: bool): State
    requires s.eng.open
  {
    s.(eng := Mat.Next(s.eng, Mat.Begin(isSync)), callers := s.callers + [caller])
  }

  function NextReceives(s: State, id: nat, what: Reception): State
    requires id < |s.items|
  {
    var item := s.items[id];
    match what
    case Timeout => SetItem(s, id, item.(thread := Checking))
    case Failure => SetItem(s, id, item.(run := false, thread := Checking))
    case RemoteCall =>
      if s.eng.open then NewCall(SetItem(s, id, item.(thread := Calling(|s.eng.calls|))), Some(id), true)
      else SetItem(s, id, item.(thread := Checking))
  }

  function NextDeleting(s: State, id: nat, stage: Stage, cleaning: bool): State
    requires id < |s.items|
  {
    var item := s.items[id];
    match stage
    case StopIt => SetItem(s, id, item.(run := false)).(resource := Deleting(id, Close, cleaning))
    case Close => SetItem(s, id, item.(closed := item.closed + 1)).(resource := Deleting(id, JoinIt, cleaning))
    case JoinIt => SetItem(s, id, item.(joined := item.joined + 1)).(resource := Deleting(id, UnlinkIt, cleaning))
    case UnlinkIt =>
      SetItem(s, id, item.(unlinked := item.unlinked + 1)).(list := Remove(s.list, id), resource := Deleting(id, FreeIt, cleaning))
    case FreeIt =>
      SetItem(s, id, item.(freed := item.freed + 1)).(resource := if cleaning then Cleaning else Draining)
  }

  function NextJob(s: State): State
    requires s.queue != []
  {
    var t := s.(queue := s.queue[1..]);
    match s.queue[0]
    case FinishLoop => t.(mRun := false)
    case NewClient(client) =>
      t.(items := s.items + [Item(client, false, ContactPc.Starting, 0, 0, 0, 0)], resource := Linking(|s.items|))
    case DeleteClient(id) => t.(resource := Deleting(id, StopIt, false))
  }

  function NextResource(s: State): State
    requires Enabled(s, Resource)
  {
    match s.resource
    case Starting => s.(mRun := true, resource := Head)
    case Head => s.(resource := if s.mRun then Waiting else Cleaning)
    case Waiting => s.(sema := s.sema - 1, resource := Draining)
    case Draining => if s.queue == [] then s.(resource := Head) else NextJob(s)
    case Linking(id) => s.(list := s.list + [id], resource := Draining)
    case Deleting(id, stage, cleaning) => NextDeleting(s, id, stage, cleaning)
    case Cleaning => s.(resource := if s.list == [] then Ended else Deleting(s.list[0], StopIt, true))
    case Ended => s
  }

  function Next(s: State, l: Label): State
    requires Enabled(s, l)
  {
    match l
    case ClientArrives(client) => s.(queue := Offer(s.queue, NewClient(client)), posters := s.posters + 1)
    case ClientPosts => s.(sema := s.sema + 1, posters := s.posters - 1)
    case Contact(id) => NextContact(s, id)
    case Receives(id, what) => NextReceives(s, id, what)
    case EngineStep => s.(eng := Mat.Next(s.eng, Mat.Engine))
    case CallStep(c) => s.(eng := Mat.Next(s.eng, Mat.Caller(c)))
    case ForeignCall(isSync) => NewCall(s, None, isSync)
    case StopClears => s.(mRun := false, stop := Finishing)
    case StopQueues => s.(queue := Offer(s.queue, FinishLoop), stop := StopPosting)
    case StopPosts => s.(sema := s.sema + 1, stop := StopJoining)
    case StopReturns => s.(stop := Stopped)
    case Resource => NextResource(s)
  }

  // ---- what every step keeps ----

  /** The resource thread no longer takes jobs. */
  predicate TakesNoJobs(r: ResourcePc) {
    r.Cleaning? || r.Ended? || (r.Deleting? && r.cleaning)
  }

  predicate BeingDeleted(s: State, id: nat) { s.resource.Deleting? && s.resource.id == id }

  /** Item `id` is in the list or about to be linked, and is not being destroyed. */
  predicate Alive(s: State, id: nat) {
    (id in s.list || s.resource == Linking(id)) && !BeingDeleted(s, id)
  }

  predicate Counts(item: Item, closed: nat, joined: nat, unlinked: nat, freed: nat) {
    item.closed == closed && item.joined == joined && item.unlinked == unlinked && item.freed == freed
  }

  /** How far the destruction of an item has come follows from where the resource thread stands. */
  predicate StageFits(s: State, id: nat)
    requires id < |s.items|
  {
    var item := s.items[id];
    if BeingDeleted(s, id) then
      match s.resource.stage
      case StopIt => Counts(item, 0, 0, 0, 0) && id in s.list
      case Close => Counts(item, 0, 0, 0, 0) && id in s.list
      case JoinIt => Counts(item, 1, 0, 0, 0) && id in s.list
      case UnlinkIt => Counts(item, 1, 1, 0, 0) && id in s.list && item.thread == Done
      case FreeIt => Counts(item, 1, 1, 1, 0) && id !in s.list && item.thread == Done
    else if Alive(s, id) then Counts(item, 0, 0, 0, 0)
    else Counts(item, 1, 1, 1, 1) && item.thread == Done
  }

  predicate Increasing(list: seq<nat>) {
    forall i, j :: 0 <= i < j < |list| ==> list[i] < list[j]
  }

  /** A job in the queue that asks for a deletion comes from the item's own thread, which asks once. */
  predicate JobFits(s: State, i: nat)
    requires i < |s.queue|
  {
    s.queue[i].DeleteClient? ==>
      var id := s.queue[i].id;
      && id < |s.items|
      && (s.items[id].thread == ContactPosting || s.items[id].thread == Done)
      && (TakesNoJobs(s.resource) || Alive(s, id))
      && forall j :: 0 <= j < |s.queue| && j != i ==> s.queue[j] != DeleteClient(id)
  }

  predicate ListFits(s: State) {
    && (forall id :: id in s.list ==> id < |s.items|)
    && Increasing(s.list)
    && (s.resource.Linking? ==> s.resource.id == |s.items| - 1 && s.resource.id !in s.list)
    && (s.resource.Ended? ==> s.list == [])
  }

  /** While a deletion that a contact thread asked for is carried out, nobody else asks for it. */
  predicate AskedOnce(s: State) {
    s.resource.Deleting? ==>
      var id := s.resource.id;
      && id < |s.items|
      && (!s.resource.cleaning ==>
            && (s.items[id].thread == ContactPosting || s.items[id].thread == Done)
            && forall j :: 0 <= j < |s.queue| ==> s.queue[j] != DeleteClient(id))
  }

  predicate ItemsFit(s: State) {
    && (forall id :: 0 <= id < |s.items| ==> StageFits(s, id))
    && (forall i :: 0 <= i < |s.queue| ==> JobFits(s, i))
    && ListFits(s) && AskedOnce(s)
    && (TakesNoJobs(s.resource) ==> !s.mRun)
  }

  /** The thread of item `id` waits for a call of its own. */
  predicate CallFits(s: State, id: nat)
    requires id < |s.items|
  {
    s.items[id].thread.Calling? ==>
      var c := s.items[id].thread.call;
      c < |s.eng.calls| && s.eng.calls[c].isSync && c < |s.callers| && s.callers[c] == Some(id)
  }

  /** A call that has not returned has its caller waiting for it. */
  predicate CallerFits(s: State, c: nat)
    requires c < |s.callers|
  {
    s.callers[c].Some? && c < |s.eng.calls| ==>
      var id := s.callers[c].value;
      s.eng.calls[c].isSync && (s.eng.calls[c].pc != Mat.Returned ==> id < |s.items| && s.items[id].thread == Calling(c))
  }

  ghost predicate CallsFit(s: State) {
    && Mat.Inv(s.eng) && s.eng.run && s.eng.open && s.eng.stop == Mat.NotStopped && s.eng.engine != Mat.Exited
    && |s.callers| == |s.eng.calls|
    && (forall id :: 0 <= id < |s.items| ==> CallFits(s, id))
    && (forall c :: 0 <= c < |s.callers| ==> CallerFits(s, c))
  }

  ghost predicate Inv(s: State) {
    ItemsFit(s) && CallsFit(s)
  }

  lemma {:induction false} RemoveKeepsOrder(list: seq<nat>, id: nat)
    requires Increasing(list)
    ensures Increasing(Remove(list, id))
    ensures id in list ==> |Remove(list, id)| == |list| - 1
  {
    if list != [] {
      RemoveKeepsOrder(list[1..], id);
      if list[0] == id {
        forall x | x in list[1..] ensures x != id { }
        RemoveAbsent(list[1..], id);
      } else {
        var r := Remove(list[1..], id);
        forall j | 0 <= j < |r| ensures list[0] < r[j] {
          assert r[j] in list[1..];
        }
      }
    }
  }

  lemma {:induction false} RemoveAbsent(list: seq<nat>, id: nat)
    requires id !in list
    ensures Remove(list, id) == list
  {
    if list != [] { RemoveAbsent(list[1..], id); }
  }

  /** A job appended to the queue by somebody else leaves the others as they were. */
  lemma OfferKeeps(s: State, job: Job, t: State)
    requires ItemsFit(s) && !job.DeleteClient?
    requires t.queue == Offer(s.queue, job) && t.items == s.items && t.list == s.list && t.resource == s.resource
    requires t.mRun ==> s.mRun
    ensures ItemsFit(t)
  {
    forall i | 0 <= i < |t.queue| ensures JobFits(t, i) {
      if i < |s.queue| { assert JobFits(s, i) && t.queue[i] == s.queue[i]; }
    }
    forall id | 0 <= id < |t.items| ensures StageFits(t, id) { assert StageFits(s, id); }
  }

  /** A step of a contact thread that does not queue anything. */
  lemma ContactMovesKeeps(s: State, id: nat, item: Item, t: State)
    requires ItemsFit(s) && id < |s.items| && s.items[id].thread != Done
    requires Counts(item, s.items[id].closed, s.items[id].joined, s.items[id].unlinked, s.items[id].freed)
    requires s.items[id].thread == ContactPosting ==> item.thread == Done
    requires t.items == s.items[id := item] && t.queue == s.queue && t.list == s.list && t.resource == s.resource
    requires t.mRun == s.mRun
    ensures ItemsFit(t)
  {
    forall k | 0 <= k < |t.items| ensures StageFits(t, k) { assert StageFits(s, k); }
    forall i | 0 <= i < |t.queue| ensures JobFits(t, i) { assert JobFits(s, i); }
  }

  /** The request for deletion: the item is alive, or nobody looks at the queue any more. */
  lemma AskingKeeps(s: State, id: nat)
    requires ItemsFit(s) && id < |s.items| && s.items[id].thread == Asking
    ensures ItemsFit(NextContact(s, id))
  {
    var t := NextContact(s, id);
    assert StageFits(s, id);
    forall i | 0 <= i < |s.queue| ensures s.queue[i] != DeleteClient(id) { assert JobFits(s, i); }
    assert TakesNoJobs(s.resource) || Alive(s, id);
    forall k | 0 <= k < |t.items| ensures StageFits(t, k) { assert StageFits(s, k); }
    forall i | 0 <= i < |t.queue| ensures JobFits(t, i) {
      if i < |s.queue| { assert JobFits(s, i) && t.queue[i] == s.queue[i]; }
    }
  }

  lemma ContactKeeps(s: State, id: nat)
    requires ItemsFit(s) && Enabled(s, Contact(id))
    ensures ItemsFit(NextContact(s, id))
  {
    var t := NextContact(s, id);
    if s.items[id].thread == Asking { AskingKeeps(s, id); }
    else { ContactMovesKeeps(s, id, t.items[id], t); }
  }

  lemma JobKeeps(s: State)
    requires ItemsFit(s) && s.resource.Draining? && s.queue != []
    ensures ItemsFit(NextJob(s))
  {
    var t := NextJob(s);
    assert JobFits(s, 0);
    forall k | 0 <= k < |t.items| ensures StageFits(t, k) {
      if k < |s.items| { assert StageFits(s, k); }
    }
    forall i | 0 <= i < |t.queue| ensures JobFits(t, i) {
      assert JobFits(s, i + 1) && t.queue[i] == s.queue[i + 1];
      forall j | 0 <= j < |t.queue| && j != i && t.queue[i].DeleteClient? ensures t.queue[j] != t.queue[i] {
        assert t.queue[j] == s.queue[j + 1];
      }
    }
    if s.queue[0].DeleteClient? {
      forall j | 0 <= j < |t.queue| ensures t.queue[j] != s.queue[0] { assert t.queue[j] == s.queue[j + 1]; }
    }
  }

  lemma DeletingStages(s: State)
    requires ItemsFit(s) && s.resource.Deleting? && Enabled(s, Resource)
    ensures var t := NextResource(s); forall k :: 0 <= k < |t.items| ==> StageFits(t, k)
  {
    hide JobFits, AskedOnce, ListFits;
    var t := NextResource(s);
    assert StageFits(s, s.resource.id);
    forall k | 0 <= k < |t.items| ensures StageFits(t, k) { assert StageFits(s, k); }
  }

  /** As long as the list stays, so does what the jobs ask for. */
  lemma DeletingJobs(s: State)
    requires ItemsFit(s) && s.resource.Deleting? && Enabled(s, Resource) && s.resource.stage != UnlinkIt
    ensures var t := NextResource(s); forall i :: 0 <= i < |t.queue| ==> JobFits(t, i)
  {
    hide StageFits, Remove, ListFits, Mat.Enabled;
    var t := NextResource(s);
    forall i | 0 <= i < |t.queue| ensures JobFits(t, i) { assert JobFits(s, i); }
  }

  /** No job asks for the item that is unlinked. */
  lemma UnlinkingJobs(s: State)
    requires ItemsFit(s) && s.resource.Deleting? && Enabled(s, Resource) && s.resource.stage == UnlinkIt
    ensures var t := NextResource(s); forall i :: 0 <= i < |t.queue| ==> JobFits(t, i)
  {
    hide StageFits, ListFits, Mat.Enabled;
    var t := NextResource(s);
    forall i | 0 <= i < |t.queue| ensures JobFits(t, i) { assert JobFits(s, i); }
  }

  lemma DeletingKeeps(s: State)
    requires ItemsFit(s) && s.resource.Deleting? && Enabled(s, Resource)
    ensures ItemsFit(NextResource(s))
  {
    hide JobFits;
    assert StageFits(s, s.resource.id);
    RemoveKeepsOrder(s.list, s.resource.id);
    DeletingStages(s);
    if s.resource.stage == UnlinkIt { UnlinkingJobs(s); } else { DeletingJobs(s); }
  }

  lemma OtherResourceKeeps(s: State)
    requires ItemsFit(s) && Enabled(s, Resource) && !s.resource.Deleting? && !(s.resource.Draining? && s.queue != [])
    ensures ItemsFit(NextResource(s))
  {
    var t := NextResource(s);
    forall j | 0 <= j < |s.list| ensures s.list[j] < |s.items| && (s.resource.Linking? ==> s.list[j] != s.resource.id) {
      assert s.list[j] in s.list;
    }
    forall k | 0 <= k < |t.items| ensures StageFits(t, k) { assert StageFits(s, k); }
    forall i | 0 <= i < |t.queue| ensures JobFits(t, i) { assert JobFits(s, i); }
  }

  lemma ItemsKept(s: State, l: Label)
    requires ItemsFit(s) && Enabled(s, l)
    ensures ItemsFit(Next(s, l))
  {
    hide ItemsFit, Mat.Next, Mat.Enabled;
    match l
    case ClientArrives(client) => OfferKeeps(s, NewClient(client), Next(s, l));
    case ClientPosts => SameKeeps(s, Next(s, l));
    case Contact(id) => ContactKeeps(s, id);
    case Receives(id, what) => ContactMovesKeeps(s, id, Next(s, l).items[id], Next(s, l));
    case EngineStep => SameKeeps(s, Next(s, l));
    case CallStep(_) => SameKeeps(s, Next(s, l));
    case ForeignCall(_) => SameKeeps(s, Next(s, l));
    case StopClears => SameKeeps(s, Next(s, l));
    case StopQueues => OfferKeeps(s, FinishLoop, Next(s, l));
    case StopPosts => SameKeeps(s, Next(s, l));
    case StopReturns => SameKeeps(s, Next(s, l));
    case Resource =>
      if s.resource.Deleting? { DeletingKeeps(s); }
      else if s.resource.Draining? && s.queue != [] { JobKeeps(s); }
      else { OtherResourceKeeps(s); }
  }

  lemma SameKeeps(s: State, t: State)
    requires ItemsFit(s)
    requires t.items == s.items && t.queue == s.queue && t.list == s.list && t.resource == s.resource && (t.mRun ==> s.mRun)
    ensures ItemsFit(t)
  {
    forall k | 0 <= k < |t.items| ensures StageFits(t, k) { assert StageFits(s, k); }
    forall i | 0 <= i < |t.queue| ensures JobFits(t, i) { assert JobFits(s, i); }
  }

  // ---- calls ----

  /** Only the thread of item `moved` stands elsewhere; new items have threads that call nobody. */
  predicate ThreadsKept(before: seq<Item>, after: seq<Item>, moved: int) {
    && |before| <= |after|
    && (forall id :: 0 <= id < |before| && id != moved ==> after[id].thread == before[id].thread)
    && (forall id :: |before| <= id < |after| ==> !after[id].thread.Calling?)
  }

  /** A step that makes no call: the thread that moves calls nobody, or has come back from its call. */
  lemma CallsStay(s: State, t: State, moved: int)
    requires CallsFit(s) && t.eng == s.eng && t.callers == s.callers && ThreadsKept(s.items, t.items, moved)
    requires 0 <= moved < |s.items| ==> !t.items[moved].thread.Calling?
    requires 0 <= moved < |s.items| && s.items[moved].thread.Calling? && s.items[moved].thread.call < |s.eng.calls| ==>
      s.eng.calls[s.items[moved].thread.call].pc == Mat.Returned
    ensures CallsFit(t)
  {
    hide Mat.Inv;
    forall id | 0 <= id < |t.items| ensures CallFits(t, id) {
      if id < |s.items| { assert CallFits(s, id); }
    }
    forall c | 0 <= c < |t.callers| ensures CallerFits(t, c) {
      assert CallerFits(s, c);
    }
  }

  /** A step of the engine thread, or of a thread within its call. */
  lemma EngineMoves(s: State, l: Mat.Label)
    requires CallsFit(s) && Mat.Enabled(s.eng, l) && (l.Engine? || l.Caller?)
    ensures CallsFit(s.(eng := Mat.Next(s.eng, l)))
  {
    var t := s.(eng := Mat.Next(s.eng, l));
    EngineStaysUp(s.eng, l);
    Mat.StepKeeps(s.eng, l);
    Mat.CallsAfter(s.eng, l);
    hide Mat.Inv, Mat.Next, Mat.Enabled;
    forall id | 0 <= id < |t.items| ensures CallFits(t, id) { assert CallFits(s, id); }
    forall c | 0 <= c < |t.callers| ensures CallerFits(t, c) { assert CallerFits(s, c); }
  }

  lemma EngineStaysUp(e: Mat.State, l: Mat.Label)
    requires Mat.Enabled(e, l) && !l.StopClears? && !l.StopPosts?
    requires e.run && e.open && e.stop == Mat.NotStopped && e.engine != Mat.Exited
    ensures var t := Mat.Next(e, l); t.run && t.open && t.stop == Mat.NotStopped && t.engine != Mat.Exited
  {
  }

  /** A new call, of the thread of item `id` or of another. */
  lemma NewCallKeeps(s: State, caller: Option<nat>, isSync: bool)
    requires |s.callers| == |s.eng.calls|
    requires Mat.Inv(s.eng) && s.eng.run && s.eng.open && s.eng.stop == Mat.NotStopped && s.eng.engine != Mat.Exited
    requires forall id :: 0 <= id < |s.items| && caller != Some(id) ==> CallFits(s, id)
    requires forall c :: 0 <= c < |s.callers| ==> CallerFits(s, c)
    requires caller.Some? ==>
      isSync && caller.value < |s.items| && s.items[caller.value].thread == Calling(|s.eng.calls|)
    ensures CallsFit(NewCall(s, caller, isSync))
  {
    var l := Mat.Begin(isSync);
    var t := NewCall(s, caller, isSync);
    EngineStaysUp(s.eng, l);
    Mat.StepKeeps(s.eng, l);
    Mat.CallsAfter(s.eng, l);
    NewCallPc(s.eng, isSync);
    hide Mat.Inv, Mat.Next, Mat.Enabled;
    forall id | 0 <= id < |t.items| ensures CallFits(t, id) {
      if caller != Some(id) { assert CallFits(s, id); }
    }
    forall c | 0 <= c < |t.callers| ensures CallerFits(t, c) {
      if c < |s.callers| { assert CallerFits(s, c); }
    }
  }

  lemma NewCallPc(e: Mat.State, isSync: bool)
    requires e.open
    ensures var t := Mat.Next(e, Mat.Begin(isSync));
      forall c :: 0 <= c < |e.calls| ==> t.calls[c] == e.calls[c]
  {
  }

  lemma ReceivesKeepsCalls(s: State, id: nat, what: Reception)
    requires CallsFit(s) && Enabled(s, Receives(id, what))
    ensures CallsFit(NextReceives(s, id, what))
  {
    if what == RemoteCall {
      var u := SetItem(s, id, s.items[id].(thread := Calling(|s.eng.calls|)));
      forall k | 0 <= k < |u.items| && k != id ensures CallFits(u, k) { assert CallFits(s, k); }
      forall c | 0 <= c < |u.callers| ensures CallerFits(u, c) { assert CallerFits(s, c); }
      NewCallKeeps(u, Some(id), true);
    } else {
      CallsStay(s, NextReceives(s, id, what), id);
    }
  }

  lemma CallsKept(s: State, l: Label)
    requires CallsFit(s) && Enabled(s, l)
    ensures CallsFit(Next(s, l))
  {
    hide CallsFit, Mat.Next, Mat.Inv;
    match l
    case Receives(id, what) => ReceivesKeepsCalls(s, id, what);
    case EngineStep => EngineMoves(s, Mat.Engine);
    case CallStep(c) => EngineMoves(s, Mat.Caller(c));
    case ForeignCall(isSync) => ForeignKeeps(s, isSync);
    case Contact(id) => CallsStay(s, NextContact(s, id), id);
    case Resource => ResourceKeepsCalls(s);
    case _ => CallsStay(s, Next(s, l), -1);
  }

  /** What the resource thread does not touch: the clients' posts, the stop request, the engine, and where threads stand. */
  lemma ResourceKeepsThreads(s: State)
    requires Enabled(s, Resource)
    ensures var t := NextResource(s);
      && t.eng == s.eng && t.callers == s.callers && t.closeWakes == s.closeWakes
      && t.posters == s.posters && t.stop == s.stop && ThreadsKept(s.items, t.items, -1)
  {
    hide Mat.Enabled, Remove, ThreadsKept, NextDeleting;
    NoThreadMoves(s.items);
    match s.resource {
      case Deleting(id, stage, cleaning) => DeletingKeepsThreads(s, id, stage, cleaning);
      case Draining => if s.queue != [] && s.queue[0].NewClient? { NewItemKept(s.items, NextResource(s).items); }
      case _ =>
    }
  }

  lemma DeletingKeepsThreads(s: State, id: nat, stage: Stage, cleaning: bool)
    requires id < |s.items|
    ensures var t := NextDeleting(s, id, stage, cleaning);
      && t.eng == s.eng && t.callers == s.callers && t.closeWakes == s.closeWakes
      && t.posters == s.posters && t.stop == s.stop && ThreadsKept(s.items, t.items, -1)
  {
    hide ThreadsKept, Remove;
    var t := NextDeleting(s, id, stage, cleaning);
    assert t.items == s.items[id := t.items[id]] && t.items[id].thread == s.items[id].thread;
    SameThreadKept(s.items, id, t.items[id]);
  }

  lemma NoThreadMoves(items: seq<Item>)
    ensures ThreadsKept(items, items, -1)
  {
  }

  lemma SameThreadKept(items: seq<Item>, id: nat, item: Item)
    requires id < |items| && item.thread == items[id].thread
    ensures ThreadsKept(items, items[id := item], -1)
  {
  }

  lemma NewItemKept(items: seq<Item>, after: seq<Item>)
    requires |after| == |items| + 1 && after[..|items|] == items && !after[|items|].thread.Calling?
    ensures ThreadsKept(items, after, -1)
  {
    forall id | 0 <= id < |items| ensures after[id] == items[id] { assert after[..|items|][id] == items[id]; }
  }

  lemma ResourceKeepsCalls(s: State)
    requires CallsFit(s) && Enabled(s, Resource)
    ensures CallsFit(NextResource(s))
  {
    hide CallsFit, Mat.Enabled, NextResource, ThreadsKept;
    ResourceKeepsThreads(s);
    CallsStay(s, NextResource(s), -1);
  }

  lemma ForeignKeeps(s: State, isSync: bool)
    requires CallsFit(s)
    ensures CallsFit(NewCall(s, None, isSync))
  {
    NewCallKeeps(s, None, isSync);
  }

  /** The invariant survives every step of every thread. */
  lemma StepKeeps(s: State, l: Label)
    requires Inv(s) && Enabled(s, l)
    ensures Inv(Next(s, l))
  {
    hide ItemsFit, CallsFit, Next;
    ItemsKept(s, l);
    CallsKept(s, l);
  }
}

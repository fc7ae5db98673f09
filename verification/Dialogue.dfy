/** What happens on one connection that is in step, as a log of commands and server turns, and the proxy's moves in it. */
module Dialogues {
  import opened Frames
  import P = Proxies

  /** What is to happen next: the client's program gives a command, or the server's contact thread takes a turn. */
  datatype Act = Sending(m: Message) | Receiving | Serving

  /**
   * What came of an act: how the receiving of a pending result ended, or `P.Timeout`
   * where there was none; the result code of a send command; whether the server's
   * turn served a request.
   */
  datatype Event = Asked(m: Message, rcv: P.Reception, code: int) | Collected(rcv: P.Reception) | Turned(served: bool)

  function ActOf(e: Event): Act {
    match e
    case Asked(m, _, _) => Sending(m)
    case Collected(_) => Receiving
    case Turned(_) => Serving
  }

  const HEARD := P.Message(true)

  /** How many requests have been sent, replied to, and have their results. */
  datatype Tally = Tally(asked: nat, served: nat, heard: nat)

  function Counted(k: Tally, e: Event): Tally {
    match e
    case Asked(_, rcv, code) => Tally(k.asked + (if code == 0 then 1 else 0), k.served, k.heard + (if rcv == HEARD then 1 else 0))
    case Collected(rcv) => if rcv == HEARD then k.(heard := k.heard + 1) else k
    case Turned(served) => if served then k.(served := k.served + 1) else k
  }

  function TallyOf(log: seq<Event>): Tally {
    if log == [] then Tally(0, 0, 0) else Counted(TallyOf(log[..|log| - 1]), log[|log| - 1])
  }

  /** The request that an event adds. */
  function News(e: Event): seq<Message> {
    if e.Asked? && e.code == 0 then [e.m] else []
  }

  /** The requests sent, in their order. */
  function Went(log: seq<Event>): seq<Message> {
    if log == [] then [] else Went(log[..|log| - 1]) + News(log[|log| - 1])
  }

  /**
   * What can come of an act. A result is heard only if its reply has been sent; a
   * request goes exactly if none is without its result when it is sent.
   */
  predicate CanHappen(k: Tally, e: Event) {
    match e
    case Asked(_, rcv, code) =>
      if k.heard == k.asked then rcv == P.Timeout && code == 0
      else if rcv == HEARD then k.heard < k.served && code == 0
      else rcv == P.Timeout && code == -1
    case Collected(rcv) => rcv == P.Timeout || (rcv == HEARD && k.heard < k.served)
    case Turned(served) => served ==> k.served < k.asked
  }

  /** Nothing has come that the act could work on: no request for the server, or no reply for a client that waits for one. */
  predicate Idle(k: Tally, act: Act) {
    if act.Serving? then k.served >= k.asked else k.heard < k.asked && k.heard >= k.served
  }

  /** The act did not do what it is for. */
  predicate InVain(k: Tally, e: Event) {
    match e
    case Asked(_, _, code) => code != 0
    case Collected(rcv) => rcv != HEARD && k.heard < k.asked
    case Turned(served) => !served
  }

  /** Which ends have a steady socket, one that neither fails nor times out while there is something to move. */
  datatype Ends = Ends(client: bool, server: bool) {
    /** The end that acts has one. */
    predicate Of(act: Act) {
      if act.Serving? then server else client
    }
  }

  /** What comes of an act; with a steady socket nothing is in vain where there is something to work on. */
  predicate Happens(steady: Ends, k: Tally, e: Event) {
    CanHappen(k, e) && (steady.Of(ActOf(e)) && InVain(k, e) ==> Idle(k, ActOf(e)))
  }

  ghost predicate IsLog(steady: Ends, log: seq<Event>) {
    forall i :: 0 <= i < |log| ==> Happens(steady, TallyOf(log[..i]), log[i])
  }

  /** The acts of the log are the first of these. */
  ghost predicate Performed(acts: seq<Act>, log: seq<Event>) {
    |log| <= |acts| && forall i :: 0 <= i < |log| ==> ActOf(log[i]) == acts[i]
  }

  lemma LogGrows(steady: Ends, log: seq<Event>, e: Event)
    ensures TallyOf(log + [e]) == Counted(TallyOf(log), e) && Went(log + [e]) == Went(log) + News(e)
    ensures IsLog(steady, log + [e]) <==> IsLog(steady, log) && Happens(steady, TallyOf(log), e)
  {
    hide Happens, Counted, News;
    var all := log + [e];
    assert all[..|log|] == log;
    forall i | 0 <= i < |log| ensures all[..i] == log[..i] && all[i] == log[i] {
    }
    if IsLog(steady, all) {
      assert Happens(steady, TallyOf(all[..|log|]), all[|log|]);
      forall i | 0 <= i < |log| ensures Happens(steady, TallyOf(log[..i]), log[i]) {
        assert Happens(steady, TallyOf(all[..i]), all[i]);
      }
    }
  }

  /** Results follow replies and replies follow requests, and one request at most is without its result. */
  predicate InLockstep(k: Tally) {
    k.heard <= k.served <= k.asked <= k.heard + 1
  }

  /** However the network behaves, it is never more than one request that is unanswered. */
  lemma {:induction false} NeverTwoUnanswered(steady: Ends, log: seq<Event>)
    requires IsLog(steady, log)
    ensures InLockstep(TallyOf(log)) && |Went(log)| == TallyOf(log).asked
  {
    hide IsLog, CanHappen, InVain, Idle, Counted, News, InLockstep;
    if log == [] {
      NoneUnanswered();
    } else {
      var before, e := log[..|log| - 1], log[|log| - 1];
      assert log == before + [e];
      LogGrows(steady, before, e);
      NeverTwoUnanswered(steady, before);
      EventKeepsLockstep(TallyOf(before), e);
    }
  }

  lemma EventKeepsLockstep(k: Tally, e: Event)
    requires CanHappen(k, e) && InLockstep(k)
    ensures InLockstep(Counted(k, e)) && Counted(k, e).asked == k.asked + |News(e)|
  {
  }

  lemma NoneUnanswered()
    ensures InLockstep(TallyOf([])) && TallyOf([]).asked == 0
  {
  }

  // ---- the proxy ----

  /** No attempt to connect is made. */
  const NO_ATTEMPT := P.Attempt(false, false, false)

  function OpOf(e: Event): P.Op
    requires !e.Turned?
  {
    if e.Asked? then P.Send(e.rcv, NO_ATTEMPT, NO_ATTEMPT, e.code, NO_ATTEMPT) else P.Receive(e.rcv, NO_ATTEMPT)
  }

  /** The commands given to the proxy, and what the network answered. */
  function Ops(log: seq<Event>): seq<P.Op> {
    if log == [] then []
    else Ops(log[..|log| - 1]) + if log[|log| - 1].Turned? then [] else [OpOf(log[|log| - 1])]
  }

  /** The proxy's own state on a connection that is up. */
  function ProxyState(k: Tally): P.State {
    P.State(k.heard < k.asked, true, 0, if k.heard <= k.asked then k.asked - k.heard else 0)
  }

  /** The proxy's states, from the beginning on and after each of its commands. */
  function States(log: seq<Event>): seq<P.State> {
    if log == [] then [ProxyState(Tally(0, 0, 0))]
    else States(log[..|log| - 1]) + if log[|log| - 1].Turned? then [] else [ProxyState(TallyOf(log))]
  }

  ghost predicate ProxyStep(s: P.State, op: P.Op, t: P.State) {
    op.rcv != P.Message(false) && P.Possible(s, op) && forall maxTryCount :: P.Step(s, op, maxTryCount) == t
  }

  /** A run of the proxy's transition system on one connection, on which no body is lost. */
  ghost predicate ProxyRun(states: seq<P.State>, ops: seq<P.Op>) {
    && |states| == |ops| + 1 && states[0] == P.State(false, true, 0, 0)
    && forall i :: 0 <= i < |ops| ==> ProxyStep(states[i], ops[i], states[i + 1])
  }

  /** The client has moved as the proxy's transition system does, and there is nothing but replies for it to read. */
  lemma {:induction false} LogIsProxyRun(steady: Ends, log: seq<Event>)
    requires IsLog(steady, log)
    ensures ProxyRun(States(log), Ops(log)) && States(log)[|Ops(log)|] == ProxyState(TallyOf(log))
  {
    hide IsLog, ProxyStep, CanHappen, InVain, Counted, InLockstep, ProxyState;
    if log == [] {
      NothingDone();
    } else {
      var before, e := log[..|log| - 1], log[|log| - 1];
      assert log == before + [e];
      LogGrows(steady, before, e);
      LogIsProxyRun(steady, before);
      NeverTwoUnanswered(steady, before);
      EventIsStep(TallyOf(before), e);
      if e.Turned? {
        assert States(log) == States(before);
      } else {
        RunGoesOn(States(before), Ops(before), OpOf(e), ProxyState(TallyOf(log)));
      }
    }
  }

  lemma NothingDone()
    ensures ProxyRun(States([]), Ops([])) && States([])[|Ops([])|] == ProxyState(TallyOf([]))
  {
  }

  lemma RunGoesOn(states: seq<P.State>, ops: seq<P.Op>, op: P.Op, t: P.State)
    requires ProxyRun(states, ops) && ProxyStep(states[|ops|], op, t)
    ensures ProxyRun(states + [t], ops + [op])
  {
    hide ProxyStep;
  }

  lemma EventIsStep(k: Tally, e: Event)
    requires CanHappen(k, e) && InLockstep(k)
    ensures if e.Turned? then ProxyState(Counted(k, e)) == ProxyState(k)
            else ProxyStep(ProxyState(k), OpOf(e), ProxyState(Counted(k, e)))
  {
  }

  /** Every state of such a run is in lockstep, since no body is lost. */
  lemma {:induction false} ProxyRunKeepsLockstep(states: seq<P.State>, ops: seq<P.Op>, k: nat)
    requires ProxyRun(states, ops) && k <= |ops|
    ensures P.Lockstep(states[k])
  {
    if k > 0 {
      ProxyRunKeepsLockstep(states, ops, k - 1);
      assert ProxyStep(states[k - 1], ops[k - 1], states[k]);
      P.KeepsLockstepIff(states[k - 1], ops[k - 1], 0);
      assert P.Step(states[k - 1], ops[k - 1], 0) == states[k];
    }
  }

  /** So the proxy never has two requests under way, whatever the network does. */
  lemma LogKeepsLockstep(steady: Ends, log: seq<Event>, k: nat)
    requires IsLog(steady, log) && k <= |Ops(log)|
    ensures ProxyRun(States(log), Ops(log)) && P.Lockstep(States(log)[k])
  {
    hide IsLog, ProxyStep;
    LogIsProxyRun(steady, log);
    ProxyRunKeepsLockstep(States(log), Ops(log), k);
  }

  // ---- acts in a useful order ----

  /** Behind each request the server takes a turn before the client's next command, and only then; `owed` tells whether it has a request to serve. */
  predicate Paced(acts: seq<Act>, owed: bool) {
    acts != [] ==> owed == acts[0].Serving? && Paced(acts[1..], acts[0].Sending?)
  }

  /** The requests that are to be sent, in their order. */
  function Requests(acts: seq<Act>): seq<Message> {
    if acts == [] then []
    else Requests(acts[..|acts| - 1]) + if acts[|acts| - 1].Sending? then [acts[|acts| - 1].m] else []
  }

  /** The last command was to send. */
  predicate Awaits(acts: seq<Act>) {
    acts != [] && (acts[|acts| - 1].Sending? || (acts[|acts| - 1].Serving? && Awaits(acts[..|acts| - 1])))
  }

  /** What the acts alone tell of the tally. */
  predicate AsPaced(acts: seq<Act>, n: nat, k: Tally, went: seq<Message>)
    requires n <= |acts|
  {
    && went == Requests(acts[..n]) && |went| == k.asked && InLockstep(k)
    && k.heard == k.asked - (if Awaits(acts[..n]) then 1 else 0)
    && Paced(acts[n..], k.served < k.asked)
  }

  lemma PacedGoesOn(acts: seq<Act>, n: nat, k: Tally, went: seq<Message>, e: Event)
    requires n < |acts| && ActOf(e) == acts[n] && AsPaced(acts, n, k, went) && Happens(Ends(true, true), k, e)
    ensures AsPaced(acts, n + 1, Counted(k, e), went + News(e))
  {
    assert !Idle(k, acts[n]);
    assert acts[..n + 1][..n] == acts[..n];
    assert acts[n..][1..] == acts[n + 1..];
  }

  /** With steady sockets there is then always something to work on, and the acts alone tell what has been sent and heard. */
  lemma {:induction false} PacedTellsAll(acts: seq<Act>, log: seq<Event>)
    requires Paced(acts, false) && IsLog(Ends(true, true), log) && Performed(acts, log)
    ensures AsPaced(acts, |log|, TallyOf(log), Went(log))
    ensures |log| < |acts| ==> !Idle(TallyOf(log), acts[|log|])
    decreases |log|
  {
    hide IsLog, Paced, Counted, News, Happens, Requests, Awaits;
    if log == [] {
      NothingYet(acts);
    } else {
      var n := |log| - 1;
      var before, e := log[..n], log[n];
      assert log == before + [e];
      LogGrows(Ends(true, true), before, e);
      PacedTellsAll(acts, before);
      PacedGoesOn(acts, n, TallyOf(before), Went(before), e);
    }
    PacedHasWork(acts, |log|, TallyOf(log), Went(log));
  }

  /** So with steady sockets everything that comes of the acts is determined by them. */
  lemma {:induction false} LogIsDetermined(acts: seq<Act>, log: seq<Event>, other: seq<Event>)
    requires IsLog(Ends(true, true), log) && IsLog(Ends(true, true), other)
    requires Performed(acts, log) && Performed(acts, other) && |log| <= |other|
    ensures log <= other
    decreases |log|
  {
    hide IsLog, Happens, Counted, News;
    if log != [] {
      var n := |log| - 1;
      assert log == log[..n] + [log[n]] && other[..n + 1] == other[..n] + [other[n]];
      LogGrows(Ends(true, true), log[..n], log[n]);
      FrontOfLog(Ends(true, true), other, n + 1);
      LogGrows(Ends(true, true), other[..n], other[n]);
      LogIsDetermined(acts, log[..n], other[..n]);
      assert log[..n] == other[..n];
      NeverTwoUnanswered(Ends(true, true), log[..n]);
      assert ActOf(log[n]) == acts[n] && ActOf(other[n]) == acts[n];
      OneOutcome(TallyOf(log[..n]), log[n], other[n]);
    }
  }

  lemma FrontOfLog(steady: Ends, log: seq<Event>, n: nat)
    requires IsLog(steady, log) && n <= |log|
    ensures IsLog(steady, log[..n])
  {
    hide Happens, TallyOf;
    forall i | 0 <= i < n ensures Happens(steady, TallyOf(log[..n][..i]), log[..n][i]) {
      assert log[..n][..i] == log[..i];
    }
  }

  lemma OneOutcome(k: Tally, e: Event, f: Event)
    requires InLockstep(k) && ActOf(e) == ActOf(f)
    requires Happens(Ends(true, true), k, e) && Happens(Ends(true, true), k, f)
    ensures e == f
  {
  }

  lemma NothingYet(acts: seq<Act>)
    requires Paced(acts, false)
    ensures AsPaced(acts, 0, Tally(0, 0, 0), [])
  {
    assert acts[0..] == acts && acts[..0] == [];
  }

  lemma PacedHasWork(acts: seq<Act>, n: nat, k: Tally, went: seq<Message>)
    requires n <= |acts| && AsPaced(acts, n, k, went)
    ensures n < |acts| ==> !Idle(k, acts[n])
  {
  }
}

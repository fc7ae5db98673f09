/** The client that keeps at most one request under way: its flags, and the requests its connection still owes a reply for. */
module Proxies {
  import opened Wire

  /** How a call of ReceiveHeaderScriptNameAndArrays2 ends: `whole` tells whether the body followed the header. */
  datatype Reception = Timeout | Failure | Message(whole: bool)

  /** What an attempt to connect meets; the second try comes only when the last engine start was long ago. */
  datatype Attempt = Attempt(first: bool, longAgo: bool, second: bool) {
    predicate Succeeds() { first || (longAgo && second) }
  }

  /** What the network answers to one command; `sendCode` is the result of handing over the request, negative if that fails. */
  datatype Op =
    | Receive(rcv: Reception, afterClose: Attempt)
    | Send(rcv: Reception, afterClose: Attempt, before: Attempt, sendCode: int, afterFailure: Attempt)

  /** `outstanding` counts the requests sent on the present connection whose replies have not been read to the end. */
  datatype State = State(pending: bool, connected: bool, tries: int, outstanding: nat)

  function Connect(s: State, a: Attempt, maxTryCount: int): State {
    if s.connected then s
    else if s.tries > maxTryCount then s.(tries := s.tries + 1)
    else if a.Succeeds() then s.(connected := true, tries := 0, outstanding := 0)
    else s.(tries := s.tries + 1)
  }

  function Close(s: State): State { s.(connected := false, outstanding := 0) }

  function Received(s: State, rcv: Reception, a: Attempt, maxTryCount: int): State {
    if !s.pending then s
    else match rcv
      case Timeout => s
      case Failure => Connect(Close(s), a, maxTryCount).(pending := false)
      case Message(whole) =>
        s.(pending := false, outstanding := if whole && s.outstanding > 0 then s.outstanding - 1 else s.outstanding)
  }

  /** About to send, connected if possible. */
  function Ready(s: State, before: Attempt, maxTryCount: int): State {
    (if s.connected then s else Connect(s.(tries := 0), before, maxTryCount)).(pending := true)
  }

  /** What sending gives; on a closed socket it cannot succeed. */
  function SendResult(connected: bool, sendCode: int): int {
    if sendCode >= 0 && !connected then E_SEND else sendCode
  }

  function Sent(s: State, sendCode: int, before: Attempt, after: Attempt, maxTryCount: int): State {
    var t := Ready(s, before, maxTryCount);
    if SendResult(t.connected, sendCode) >= 0 then t.(outstanding := t.outstanding + 1)
    else Connect(Close(t), after, maxTryCount)
  }

  function Step(s: State, op: Op, maxTryCount: int): State {
    match op
    case Receive(rcv, a) => Received(s, rcv, a, maxTryCount)
    case Send(rcv, a, before, sendCode, after) =>
      var t := Received(s, rcv, a, maxTryCount);
      if t.pending then t else Sent(t, sendCode, before, after, maxTryCount)
  }

  /** A send command gets as far as handing over its request. */
  predicate Goes(s: State, op: Op, maxTryCount: int) {
    op.Send? && op.sendCode >= 0
    && (!s.pending || op.rcv != Timeout)
    && (Received(s, op.rcv, op.afterClose, maxTryCount).connected || (maxTryCount >= 0 && op.before.Succeeds()))
  }

  /** Exactly then a new request is under way. */
  lemma GoesIffOneMore(s: State, op: Op, maxTryCount: int)
    requires op.Send?
    ensures var t := Received(s, op.rcv, op.afterClose, maxTryCount);
      Goes(s, op, maxTryCount) <==> !t.pending && Sent(t, op.sendCode, op.before, op.afterFailure, maxTryCount).outstanding > 0
  {
  }

  /** The server sends nothing but replies. */
  predicate Possible(s: State, op: Op) {
    s.pending && op.rcv.Message? ==> s.outstanding > 0
  }

  class EqFctProxy {
    const maxTryCount: int
    var pending: bool
    var connected: bool
    var numOfTryOfStart: int
    ghost var outstanding: nat

    ghost function View(): State
      reads this
    {
      State(pending, connected, numOfTryOfStart, outstanding)
    }

    constructor (maxTryCount: int)
      ensures this.maxTryCount == maxTryCount && View() == State(false, false, 0, 0)
    {
      this.maxTryCount := maxTryCount;
      pending, connected, numOfTryOfStart, outstanding := false, false, 0, 0;
    }

    method TryConnect(a: Attempt)
      modifies this
      ensures View() == Connect(old(View()), a, maxTryCount)
    {
      if connected { return; }
      numOfTryOfStart := numOfTryOfStart + 1;
      if numOfTryOfStart - 1 > maxTryCount { return; }
      var ok := a.first;
      if !ok && a.longAgo { ok := a.second; }
      connected := ok;
      if connected {
        numOfTryOfStart := 0;
        outstanding := 0;
      }
    }

    method CloseSocket()
      modifies this
      ensures View() == Close(old(View()))
    {
      connected := false;
      outstanding := 0;
    }

    method ReceiveResultFromMatlab(rcv: Reception, a: Attempt) returns (code: int)
      modifies this
      ensures View() == Received(old(View()), rcv, a, maxTryCount)
      ensures code == if !old(pending) || rcv == Failure then -2 else if rcv == Timeout then SOCKET_TIMEOUT else 0
    {
      if !pending { return -2; }
      match rcv {
        case Timeout => return SOCKET_TIMEOUT;
        case Failure =>
          CloseSocket();
          TryConnect(a);
          pending := false;
          return -2;
        case Message(whole) =>
          if whole && outstanding > 0 { outstanding := outstanding - 1; }
          pending := false;
          return 0;
      }
    }

    method SendCommandToMatlab(rcv: Reception, a: Attempt, before: Attempt, sendCode: int, after: Attempt) returns (code: int)
      modifies this
      ensures View() == Step(old(View()), Send(rcv, a, before, sendCode, after), maxTryCount)
      ensures var t := Received(old(View()), rcv, a, maxTryCount);
        code == if t.pending then -1
                else if Goes(old(View()), Send(rcv, a, before, sendCode, after), maxTryCount) then 0
                else SendResult(Ready(t, before, maxTryCount).connected, sendCode)
      ensures code == 0 <==> Goes(old(View()), Send(rcv, a, before, sendCode, after), maxTryCount)
    {
      if pending {
        var ignored := ReceiveResultFromMatlab(rcv, a);
        if pending { return -1; }
      }
      if !connected {
        numOfTryOfStart := 0;
        TryConnect(before);
      }
      pending := true;
      var nReceived := SendResult(connected, sendCode);
      if nReceived < 0 {
        CloseSocket();
        TryConnect(after);
        return nReceived;
      }
      outstanding := outstanding + 1;
      return 0;
    }
  }

  // ---- connecting ----

  /** A client without a connection gets one exactly if the attempt succeeds and has not been preceded by more failures than allowed. */
  lemma ConnectsIff(s: State, a: Attempt, maxTryCount: int)
    requires !s.connected
    ensures Connect(s, a, maxTryCount).connected <==> s.tries <= maxTryCount && (a.first || (a.longAgo && a.second))
    ensures !Connect(s, a, maxTryCount).connected ==> Connect(s, a, maxTryCount) == s.(tries := s.tries + 1)
  {
  }

  /** The state after attempts that come one after the other. */
  function Attempted(s: State, attempts: seq<Attempt>, maxTryCount: int): State {
    if attempts == [] then s
    else Connect(Attempted(s, attempts[..|attempts| - 1], maxTryCount), attempts[|attempts| - 1], maxTryCount)
  }

  /** After attempts none of which gave a connection, each counted, the next is made exactly if there were at most `maxTryCount`. */
  lemma {:induction false} GivesUpAfter(s: State, attempts: seq<Attempt>, next: Attempt, maxTryCount: int)
    requires !s.connected && s.tries == 0 && next.Succeeds()
    requires forall i :: 0 <= i < |attempts| ==> !attempts[i].Succeeds()
    ensures Attempted(s, attempts, maxTryCount) == s.(tries := |attempts|)
    ensures Attempted(s, attempts + [next], maxTryCount).connected <==> |attempts| <= maxTryCount
  {
    if attempts != [] { GivesUpAfter(s, attempts[..|attempts| - 1], next, maxTryCount); }
    assert (attempts + [next])[..|attempts|] == attempts;
  }

  /** A client that is connected has no failed attempts to count. */
  lemma {:induction false} ConnectedCountsNone(states: seq<State>, ops: seq<Op>, maxTryCount: int, k: nat)
    requires IsRun(states, ops, maxTryCount) && k <= |ops|
    ensures states[k].connected ==> states[k].tries == 0
  {
    if k > 0 {
      ConnectedCountsNone(states, ops, maxTryCount, k - 1);
      assert Possible(states[k - 1], ops[k - 1]);
    }
  }

  /** In every run a receive or a send that breaks the connection is followed by one new attempt, which succeeds whenever it can. */
  lemma FailureTriesAgain(states: seq<State>, ops: seq<Op>, maxTryCount: int, k: nat)
    requires IsRun(states, ops, maxTryCount) && k < |ops| && states[k].connected && maxTryCount >= 0
    ensures states[k].pending && ops[k].Receive? && ops[k].rcv == Failure ==>
      states[k + 1] == State(false, ops[k].afterClose.Succeeds(), if ops[k].afterClose.Succeeds() then 0 else 1, 0)
    ensures !states[k].pending && ops[k].Send? && ops[k].sendCode < 0 ==>
      states[k + 1] == State(true, ops[k].afterFailure.Succeeds(), if ops[k].afterFailure.Succeeds() then 0 else 1, 0)
  {
    ConnectedCountsNone(states, ops, maxTryCount, k);
    assert Possible(states[k], ops[k]);
  }

  // ---- lockstep ----

  /** One request at most is under way, and only while a result is awaited; none without a connection. */
  predicate Lockstep(s: State) {
    && s.outstanding <= (if s.pending then 1 else 0)
    && (!s.connected ==> s.outstanding == 0)
  }

  /** A reply's header is read but not its body, and the connection stays in use. */
  predicate LosesBody(s: State, op: Op) {
    s.pending && op.rcv == Message(false) && (op.Receive? || op.sendCode >= 0)
  }

  /** A command keeps the lockstep exactly when it does not lose the body of a reply. */
  lemma KeepsLockstepIff(s: State, op: Op, maxTryCount: int)
    requires Lockstep(s) && Possible(s, op)
    ensures Lockstep(Step(s, op, maxTryCount)) <==> !LosesBody(s, op)
  {
    if op.Send? {
      var t := Received(s, op.rcv, op.afterClose, maxTryCount);
      assert op.rcv == Message(false) && s.pending ==> t.outstanding == 1 && t.connected;
    }
  }

  predicate IsRun(states: seq<State>, ops: seq<Op>, maxTryCount: int) {
    && |states| == |ops| + 1
    && states[0] == State(false, false, 0, 0)
    && forall i :: 0 <= i < |ops| ==> Possible(states[i], ops[i]) && states[i + 1] == Step(states[i], ops[i], maxTryCount)
  }

  /** Over any sequence of commands, timeouts, failed sends and reconnects, as long as bodies follow their headers, never more than one request is unanswered. */
  lemma {:induction false} NeverTwoOutstanding(states: seq<State>, ops: seq<Op>, maxTryCount: int, k: nat)
    requires IsRun(states, ops, maxTryCount) && k <= |ops|
    requires forall i :: 0 <= i < k ==> ops[i].rcv != Message(false)
    ensures Lockstep(states[k]) && states[k].outstanding <= 1
  {
    if k > 0 {
      NeverTwoOutstanding(states, ops, maxTryCount, k - 1);
      KeepsLockstepIff(states[k - 1], ops[k - 1], maxTryCount);
    }
  }

  /** One lost body is enough for two requests to be under way on one connection. */
  lemma LostBodyLetsTwoBeOutstanding(s: State, a: Attempt, maxTryCount: int, next: Op)
    requires Lockstep(s) && s.pending && s.outstanding == 1
    requires next.Send? && next.sendCode >= 0
    ensures Step(Step(s, Receive(Message(false), a), maxTryCount), next, maxTryCount).outstanding == 2
  {
  }

  /** A failed send leaves the proxy waiting for a reply that nobody owes. */
  lemma FailedSendAwaitsNothing(s: State, op: Op, maxTryCount: int)
    requires Lockstep(s) && Possible(s, op) && op.Send? && op.sendCode < 0
    requires !Received(s, op.rcv, op.afterClose, maxTryCount).pending
    ensures var t := Step(s, op, maxTryCount); t.pending && t.outstanding == 0
  {
  }

  /** From then on nothing but a broken connection helps: every other command leaves the proxy as it is. */
  lemma {:induction false} BusyUntilFailure(states: seq<State>, ops: seq<Op>, maxTryCount: int, from: nat, k: nat)
    requires IsRun(states, ops, maxTryCount) && from <= k <= |ops|
    requires states[from].pending && states[from].outstanding == 0
    requires forall i :: from <= i < k ==> ops[i].rcv != Failure
    ensures states[k] == states[from]
  {
    if from < k {
      BusyUntilFailure(states, ops, maxTryCount, from, k - 1);
      assert Possible(states[k - 1], ops[k - 1]);
    }
  }
}

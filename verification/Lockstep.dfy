/** A client and a server that alternate on one connection, as the proxy uses it. */
module Locksteps {
  import opened Common
  import opened Octets
  import opened NwArrays
  import opened Raw1
  import opened Raw1Codec
  import opened Frames
  import opened Versioning
  import opened Wire
  import opened Serializers
  import opened ServerCalls
  import opened Conversations
  import opened Dialogues
  import P = Proxies

  /** What has been said on a connection: the requests sent and their frames, the replies sent, and how many of these have been read. */
  datatype Talk = Talk(ms: seq<Message>, frames: seq<Bytes>, replies: seq<Bytes>, read: nat)

  /** What both ends hold of the connection: what is still to come to each, and all that each has sent. */
  datatype Transit = Transit(toClient: Bytes, toServer: Bytes, fromServer: Bytes, fromClient: Bytes)

  /** What is under way is what has been said and not yet read; all replies are right, in the order of the requests. */
  ghost predicate InStep(t: Talk, evaluate: Evaluator, client: seq<Registration>, server: seq<Registration>, w: Transit) {
    && FramesOf(t.frames, t.ms) && AllServed(server, t.ms) && CanHear(client, t.ms) && w.fromClient == Join(t.frames)
    && SentSince(false, t.replies, [], evaluate, server, t.frames, [], w.fromServer)
    && StillToCome(|t.replies|, t.frames, w.toServer, [])
    && StillToCome(t.read, t.replies, w.toClient, [])
  }

  lemma {:induction false} JoinFromAppend(frames: seq<Bytes>, f: Bytes, k: nat)
    requires k <= |frames|
    ensures Join((frames + [f])[k..]) == Join(frames[k..]) + f
  {
    assert (frames + [f])[k..] == frames[k..] + [f];
    JoinAppend(frames[k..], f);
  }

  lemma OneMoreToCome(k: nat, frames: seq<Bytes>, incoming: Bytes, f: Bytes)
    requires StillToCome(k, frames, incoming, [])
    ensures StillToCome(k, frames + [f], incoming + f, [])
  {
    hide Join;
    JoinFromAppend(frames, f, k);
    assert incoming + [] == incoming && incoming + f + [] == incoming + f;
  }

  lemma AskedOneMore(t: Talk, evaluate: Evaluator, client: seq<Registration>, server: seq<Registration>, w: Transit, m: Message, f: Bytes)
    requires InStep(t, evaluate, client, server, w) && FrameOf(f, m) && Serves(server, m) && CanHear(client, [m])
    ensures InStep(t.(ms := t.ms + [m], frames := t.frames + [f]), evaluate, client, server,
                   w.(toServer := w.toServer + f, fromClient := w.fromClient + f))
  {
    hide FrameOf, Join, Replies, Serves, CanReceive;
    JoinAppend(t.frames, f);
    OneMoreToCome(|t.replies|, t.frames, w.toServer, f);
    assert [m][0] == m;
  }

  lemma ServedOneMore(t: Talk, evaluate: Evaluator, client: seq<Registration>, server: seq<Registration>, w: Transit,
                      now: seq<Bytes>, toServer: Bytes, fromServer: Bytes)
    requires InStep(t, evaluate, client, server, w)
    requires SentSince(false, now, [], evaluate, server, t.frames, [], fromServer) && StillToCome(|now|, t.frames, toServer, [])
    requires now == t.replies || (|now| == |t.replies| + 1 && now[..|t.replies|] == t.replies)
    ensures |w.fromServer| <= |fromServer|
    ensures InStep(t.(replies := now), evaluate, client, server,
                   Transit(w.toClient + fromServer[|w.fromServer|..], toServer, fromServer, w.fromClient))
  {
    hide FrameOf, Join, Replies, Serves, CanReceive;
    var was := t.replies;
    assert w.fromServer == Join(was) && fromServer == Join(now);
    if now == was {
      assert w.toClient + fromServer[|w.fromServer|..] == w.toClient;
    } else {
      var r := now[|was|];
      assert now == was + [r];
      JoinAppend(was, r);
      assert fromServer[|w.fromServer|..] == r;
      OneMoreToCome(t.read, was, w.toClient, r);
    }
  }

  /** What the client is going to read: the right replies. */
  ghost function RightReplies(evaluate: Evaluator, ms: seq<Message>, n: nat): (r: seq<Message>)
    requires Complete(evaluate) && n <= |ms|
    ensures |r| == n
  {
    seq(n, i requires 0 <= i < n => RightReply(evaluate, ms[i]))
  }

  lemma RepliesComing(t: Talk, evaluate: Evaluator, client: seq<Registration>, server: seq<Registration>, w: Transit)
    requires InStep(t, evaluate, client, server, w) && Complete(evaluate)
    ensures |t.replies| <= |t.ms|
    ensures Coming(client, t.read, t.replies, RightReplies(evaluate, t.ms, |t.replies|), w.toClient, [])
  {
    hide Replies, IsFrame, Join, CanReceive, CanSend, Result, Sendable;
    var answers := RightReplies(evaluate, t.ms, |t.replies|);
    forall i | 0 <= i < |answers| ensures FrameOf(t.replies[i], answers[i]) {
      RightReplyFrame(evaluate, server, t.frames[i], t.ms[i], t.replies[i]);
    }
    forall i | 0 <= i < |answers|
      ensures FitsInt32(answers[i].version) && FitsInt32(answers[i].seriType) && CanReceive(client, answers[i].version, answers[i].seriType)
    {
      assert answers[i].version == t.ms[i].version && answers[i].seriType == t.ms[i].seriType;
    }
  }

  lemma ReadOneMore(t: Talk, evaluate: Evaluator, client: seq<Registration>, server: seq<Registration>, w: Transit,
                    answers: seq<Message>, toClient: Bytes)
    requires InStep(t, evaluate, client, server, w) && Coming(client, t.read + 1, t.replies, answers, toClient, [])
    ensures InStep(t.(read := t.read + 1), evaluate, client, server, w.(toClient := toClient))
  {
    hide FramesOf, AllServed, CanHear, SentSince, Join;
  }

  // ---- the two ends ----

  /** The client: one serializer for both directions, the functions it found last, its socket, and the slots for results. */
  datatype Client = Client(ser: Serializer, registry: Registry, cache: FncPointers, sock: Socket,
                           slots: array<NwArray?>, timeoutMs: int)

  /** The contact thread of the connection. */
  datatype Server = Server(ser: Serializer, registry: Registry, cache: FncPointers, sock: Socket, evaluate: Evaluator)

  ghost predicate Apart(c: Client, s: Server) {
    && c.ser.buf != s.ser.buf && c.cache != s.cache && c.sock != s.sock && !c.sock.CanMislead()
    && Polite(s.evaluate) && Complete(s.evaluate)
  }

  /** The client's buffer, whatever it was used for last, has the connection's tags. */
  ghost predicate ClientReady(c: Client, tags: (int, int), views: seq<Option<Arr>>)
    reads c.ser, c.ser.buf, c.registry, c.cache, c.slots, c.slots[..]
  {
    c.ser.Valid() && HasTags(c.ser.buf.bytes, tags) && Usable(c.registry, c.cache) && Shows(c.slots, views)
  }

  predicate HasTags(b: Bytes, tags: (int, int)) {
    HEADER_LEN <= |b| && Read32(b, VERSION) == tags.0 && Read32(b, TYPE) == tags.1
  }

  ghost predicate ServerReady(s: Server)
    reads s.ser, s.ser.buf, s.registry, s.cache
  {
    s.ser.Valid() && Usable(s.registry, s.cache)
  }

  ghost function Wires(c: Client, s: Server): Transit
    reads c.sock, s.sock
  {
    Transit(c.sock.incoming, s.sock.incoming, s.sock.sent, c.sock.sent)
  }

  ghost predicate Connected(t: Talk, c: Client, s: Server)
    reads c.registry, s.registry, c.sock, s.sock
  {
    InStep(t, s.evaluate, c.registry.history, s.registry.history, Wires(c, s))
  }

  /** Both ends have the functions for the connection's tags, and the message fits a frame. */
  ghost predicate Askable(m: Message, tags: (int, int), client: seq<Registration>, server: seq<Registration>) {
    && m.version == tags.0 && m.seriType == tags.1 && Sendable(m.name, m.outs, Present(m.arrays))
    && Serves(server, m) && CanHear(client, [m]) && CanSend(client, m.version, m.seriType)
  }

  lemma AskableIsSayable(m: Message, tags: (int, int), client: seq<Registration>, server: seq<Registration>, b: Bytes)
    requires Askable(m, tags, client, server) && HasTags(b, tags)
    ensures CanSend(client, Read32(b, VERSION), Read32(b, TYPE)) && Sayable(b, m)
    ensures Serves(server, m) && CanHear(client, [m])
  {
    hide Sendable, CanSend, Serves, CanReceive, Read32;
  }

  /** An act sends nothing but one frame of the request it is given, or the first bytes of it. */
  ghost predicate SendsPartOf(act: Act, was: Bytes, sent: Bytes) {
    was <= sent && (sent == was || (act.Sending? && exists f: Bytes :: FrameOf(f, act.m) && sent <= was + f))
  }

  /** The client sends a request; what the network takes of it comes to the server. */
  method Ask(c: Client, s: Server, m: Message, ghost tags: (int, int), ghost views: seq<Option<Arr>>, ghost t: Talk)
    returns (code: int, ghost now: Talk)
    requires Apart(c, s) && ClientReady(c, tags, views) && ServerReady(s) && Connected(t, c, s)
    requires Askable(m, tags, c.registry.history, s.registry.history)
    modifies c.ser.buf, c.cache, c.sock, s.sock`incoming
    ensures ClientReady(c, tags, views) && ServerReady(s)
    ensures code >= 0 ==> Connected(now, c, s)
    ensures code >= 0 ==> now.ms == t.ms + [m] && now.replies == t.replies && now.read == t.read
    ensures SendsPartOf(Sending(m), old(c.sock.sent), c.sock.sent)
    ensures c.sock.steady ==> code >= 0
  {
    hide Usable, Shows, InStep, Askable, Read32, Sayable, Serves, CanHear, CanSend, FrameOf, Polite, Complete;
    AskableIsSayable(m, tags, c.registry.history, s.registry.history, c.ser.buf.bytes);
    var before := |c.sock.sent|;
    ghost var f, lost, w := [], [], Wires(c, s);
    code, f, lost := Say(c.ser, c.registry, c.cache, c.sock, m);
    now := t.(ms := t.ms + [m], frames := t.frames + [f]);
    if code >= 0 {
      assert c.sock.sent == c.sock.sent + lost == old(c.sock.sent) + f;
      assert c.sock.sent[before..] == f;
      AskedOneMore(t, s.evaluate, c.registry.history, s.registry.history, w, m, f);
      s.sock.incoming := s.sock.incoming + c.sock.sent[before..];
      assert Wires(c, s) == w.(toServer := w.toServer + f, fromClient := w.fromClient + f);
    }
  }

  /** One turn of the contact thread; what it sends comes to the client. */
  method Serve(c: Client, s: Server, ghost tags: (int, int), ghost views: seq<Option<Arr>>, ghost t: Talk)
    returns (go: bool, ghost now: Talk)
    requires Apart(c, s) && ClientReady(c, tags, views) && ServerReady(s) && Connected(t, c, s)
    modifies s.ser.buf, s.cache, s.sock, c.sock`incoming
    ensures ClientReady(c, tags, views) && ServerReady(s)
    ensures go ==> Connected(now, c, s)
    ensures go ==> now.ms == t.ms && now.read == t.read && |t.replies| <= |now.replies| <= |t.replies| + 1 && |now.replies| <= |t.ms|
    ensures s.sock.steady && |t.replies| < |t.ms| ==> go && |now.replies| > |t.replies|
    ensures old(s.sock.NextSelect()) == SOCKET_TIMEOUT ==> go
  {
    hide Usable, Shows, Read32, Serves, CanHear, CanSend, FrameOf, Polite, Complete, SentSince, IsRequest, Join;
    FramesAreRequests(t.frames, t.ms);
    var before := |s.sock.sent|;
    ghost var w := Wires(c, s);
    var run, cut, stray;
    ghost var replies, part;
    run, cut, stray, replies, part := Turn(s.ser, s.registry, s.cache, s.sock, s.evaluate, t.frames, [], t.replies, []);
    go := run && !cut && !stray;
    now := t.(replies := replies);
    if go {
      SentNumbers(cut, replies, part, s.evaluate, s.registry.history, t.frames, [], s.sock.sent);
      ServedOneMore(t, s.evaluate, c.registry.history, s.registry.history, w, replies, s.sock.incoming, s.sock.sent);
      c.sock.incoming := c.sock.incoming + s.sock.sent[before..];
    }
  }

  /** The proxy's view of how a receive ends. */
  function ReceptionOf(r: int, n: int): P.Reception {
    if r == SOCKET_TIMEOUT then P.Timeout else if r < 0 then P.Failure else P.Message(n >= 0)
  }

  /**
   * The client receives a result. If a whole one came, it is that of its own request
   * that has waited longest; a timeout leaves everything as it was.
   */
  method Fetch(c: Client, s: Server, ghost tags: (int, int), ghost views: seq<Option<Arr>>, ghost t: Talk)
    returns (rcv: P.Reception, heard: Option<Heard>, ghost now: Talk, ghost shown: seq<Option<Arr>>)
    requires Apart(c, s) && ClientReady(c, tags, views) && ServerReady(s) && Connected(t, c, s)
    requires AllTagged(t.ms, tags)
    modifies c.ser.buf, c.cache, c.sock`incoming, c.sock`moves, c.sock`selects, c.slots, c.slots[..]
    ensures ServerReady(s) && Reused(c.slots)
    ensures rcv == P.Timeout || rcv == P.Message(true) ==> ClientReady(c, tags, shown) && Connected(now, c, s)
    ensures rcv == P.Timeout <==> old(c.sock.NextSelect()) == SOCKET_TIMEOUT
    ensures old(c.sock.NextSelect()) != 0 && rcv != P.Timeout ==> rcv == P.Failure
    ensures rcv == P.Timeout ==> c.ser.buf.bytes == old(c.ser.buf.bytes) && c.sock.incoming == old(c.sock.incoming)
    ensures rcv != P.Message(true) ==> heard == None && now == t
    ensures rcv.Message? ==> t.read < |t.replies|
    ensures rcv == P.Message(true) ==> now == t.(read := t.read + 1) && t.read < |t.replies| <= |t.ms|
    ensures rcv == P.Message(true) ==> heard == Some(Hearing(RightReply(s.evaluate, t.ms[t.read]), c.slots.Length))
    ensures c.sock.steady && t.read < |t.replies| ==> rcv == P.Message(true)
  {
    hide Usable, Shows, Read32, InStep, Coming, Arrived, Hearing, RightReply, Polite, Complete, CanSend;
    ghost var w := Wires(c, s);
    RepliesComing(t, s.evaluate, c.registry.history, s.registry.history, w);
    ghost var answers := RightReplies(s.evaluate, t.ms, |t.replies|);
    heard, now, shown := None, t, views;
    var r, n := TakeNext(c.ser, c.registry, c.cache, c.sock, c.timeoutMs, c.slots, views, t.read, t.replies, answers, []);
    rcv := ReceptionOf(r, n);
    if r >= 0 && n >= 0 {
      var value;
      value, shown := TakeDown(c.ser, c.slots, n, views, t.read, answers);
      heard, now := Some(value), t.(read := t.read + 1);
      ReadOneMore(t, s.evaluate, c.registry.history, s.registry.history, w, answers, c.sock.incoming);
      TagsArrive(t, s.evaluate, tags, c.ser.buf.bytes, views, n, c.slots);
      assert Wires(c, s) == w.(toClient := c.sock.incoming);
    }
  }

  predicate AllTagged(ms: seq<Message>, tags: (int, int)) {
    forall i :: 0 <= i < |ms| ==> ms[i].version == tags.0 && ms[i].seriType == tags.1
  }

  /** The header of the reply has put the connection's tags into the buffer once more. */
  lemma TagsArrive(t: Talk, evaluate: Evaluator, tags: (int, int), b: Bytes, views: seq<Option<Arr>>, n: int, slots: array<NwArray?>)
    requires AllTagged(t.ms, tags) && Complete(evaluate) && |t.replies| <= |t.ms|
    requires Arrived(t.read, RightReplies(evaluate, t.ms, |t.replies|), b, views, n, slots)
    ensures HasTags(b, tags)
  {
    hide Read32, Result, Delivered, IsFrame;
    var m := RightReplies(evaluate, t.ms, |t.replies|)[t.read];
    var f: Bytes :| f <= b && FrameOf(f, m);
    TagsOfFrame(f, m);
    PrefixKeepsHeader(f, b);
    assert HeaderOf(b) == HeaderOf(f);
  }

  lemma TagsOfFrame(f: Bytes, m: Message)
    requires FrameOf(f, m)
    ensures HEADER_LEN <= |f| && Read32(f, VERSION) == m.version && Read32(f, TYPE) == m.seriType
  {
    FrameIsReadable(f, m.version, m.seriType, m.name, m.outs, Present(m.arrays));
  }

  // ---- the proxy's commands ----

  /** What the two ends have done, in numbers. */
  function Numbers(t: Talk): Tally {
    Tally(|t.ms|, |t.replies|, t.read)
  }

  lemma ReadIsSaid(t: Talk, c: Client, s: Server)
    requires Connected(t, c, s)
    ensures t.read <= |t.replies| <= |t.ms|
  {
  }

  /**
   * `ReceiveResultFromMatlab`, on a connection that is up. `over` tells that the
   * connection is given up, or that it is out of step because a body was cut.
   */
  method ReceiveResult(c: Client, s: Server, pending: bool, ghost tags: (int, int), ghost views: seq<Option<Arr>>, ghost t: Talk)
    returns (after: bool, over: bool, heard: Option<Heard>, ghost rcv: P.Reception, ghost now: Talk, ghost shown: seq<Option<Arr>>)
    requires Apart(c, s) && ClientReady(c, tags, views) && ServerReady(s) && Connected(t, c, s) && AllTagged(t.ms, tags)
    modifies c.ser.buf, c.cache, c.sock`incoming, c.sock`moves, c.sock`selects, c.slots, c.slots[..]
    ensures ServerReady(s) && Reused(c.slots)
    ensures !over ==> ClientReady(c, tags, shown) && Connected(now, c, s)
    ensures now == if heard.Some? then t.(read := t.read + 1) else t
    ensures heard.Some? ==> pending && t.read < |t.replies| <= |t.ms|
    ensures heard.Some? ==> heard.value == Hearing(RightReply(s.evaluate, t.ms[t.read]), c.slots.Length)
    ensures !over ==> rcv == (if heard.Some? then HEARD else P.Timeout) && after == (pending && heard.None?)
    ensures over ==> pending && heard.None?
    ensures old(c.sock.NextSelect()) == SOCKET_TIMEOUT ==> !over && heard.None?
    ensures pending && !over && heard.None? ==> old(c.sock.NextSelect()) == SOCKET_TIMEOUT
    ensures c.sock.steady && pending && t.read < |t.replies| ==> heard.Some?
  {
    hide ClientReady, ServerReady, InStep, Hearing, RightReply, Polite, Complete;
    ReadIsSaid(t, c, s);
    after, over, heard, now, shown := pending, false, None, t, views;
    var ending := P.Timeout;
    if pending {
      ending, heard, now, shown := Fetch(c, s, tags, views, t);
      over := ending == P.Failure || ending == P.Message(false);
      after := ending == P.Timeout;
    }
    rcv := ending;
  }

  /** The part of `SendCommandToMatlab` behind the check for a pending task. */
  method SendRequest(c: Client, s: Server, m: Message, ghost tags: (int, int), ghost views: seq<Option<Arr>>, ghost t: Talk)
    returns (code: int, ghost now: Talk)
    requires Apart(c, s) && ClientReady(c, tags, views) && ServerReady(s) && Connected(t, c, s)
    requires Askable(m, tags, c.registry.history, s.registry.history) && AllTagged(t.ms, tags)
    modifies c.ser.buf, c.cache, c.sock, s.sock`incoming
    ensures ClientReady(c, tags, views) && ServerReady(s)
    ensures code >= 0 ==> Connected(now, c, s) && now.ms == t.ms + [m] && AllTagged(now.ms, tags)
    ensures code >= 0 ==> now.read == t.read && now.replies == t.replies
    ensures code < 0 ==> now == t
    ensures SendsPartOf(Sending(m), old(c.sock.sent), c.sock.sent)
    ensures c.sock.steady ==> code >= 0
  {
    hide ClientReady, ServerReady, InStep, Polite, Complete, Sendable, Serves, CanHear, CanSend, SendsPartOf;
    code, now := Ask(c, s, m, tags, views, t);
    if code < 0 { now := t; }
  }

  /**
   * `SendCommandToMatlab`, on a connection that is up: a result that is pending is
   * received first, and as long as it has not come nothing is sent.
   */
  method SendCommand(c: Client, s: Server, m: Message, pending: bool, ghost tags: (int, int), ghost views: seq<Option<Arr>>, ghost t: Talk)
    returns (after: bool, code: int, over: bool, heard: Option<Heard>, ghost rcv: P.Reception, ghost now: Talk, ghost shown: seq<Option<Arr>>)
    requires Apart(c, s) && ClientReady(c, tags, views) && ServerReady(s) && Connected(t, c, s)
    requires Askable(m, tags, c.registry.history, s.registry.history) && AllTagged(t.ms, tags)
    modifies c.ser.buf, c.cache, c.sock, c.slots, c.slots[..], s.sock`incoming
    ensures ServerReady(s) && Reused(c.slots)
    ensures !over ==> ClientReady(c, tags, shown) && Connected(now, c, s)
    ensures now.ms == (if code == 0 then t.ms + [m] else t.ms) && AllTagged(now.ms, tags)
    ensures now.read == t.read + (if heard.Some? then 1 else 0) && now.replies == t.replies
    ensures heard.Some? ==> pending && t.read < |t.replies| <= |t.ms|
    ensures heard.Some? ==> heard.value == Hearing(RightReply(s.evaluate, t.ms[t.read]), c.slots.Length)
    ensures !over ==> after && rcv == (if heard.Some? then HEARD else P.Timeout)
    ensures !over ==> code == if pending && heard.None? then -1 else 0
    ensures over ==> code < 0
    ensures pending && old(c.sock.NextSelect()) == SOCKET_TIMEOUT ==> !over && heard.None?
    ensures SendsPartOf(Sending(m), old(c.sock.sent), c.sock.sent)
    ensures c.sock.steady && (pending ==> t.read < |t.replies|) ==> !over && (pending ==> heard.Some?)
  {
    hide ClientReady, ServerReady, InStep, Hearing, RightReply, Polite, Complete, Askable, Connected, FrameOf;
    after, over, heard, rcv, now, shown := ReceiveResult(c, s, pending, tags, views, t);
    code := -1;
    if !over && !after {
      ghost var mid := now;
      after := true;
      code, now := SendRequest(c, s, m, tags, shown, mid);
      over := code < 0;
      if !over { code := 0; }
    }
  }

  // ---- whole dialogues ----

  ghost predicate ActsFit(acts: seq<Act>, tags: (int, int), client: seq<Registration>, server: seq<Registration>) {
    forall i :: 0 <= i < |acts| && acts[i].Sending? ==> Askable(acts[i].m, tags, client, server)
  }

  /** One result for each of the first requests, and each the result of its own request. */
  ghost predicate HeardInOrder(heard: seq<Heard>, evaluate: Evaluator, ms: seq<Message>, slots: nat)
    requires Complete(evaluate)
  {
    |heard| <= |ms| && forall i :: 0 <= i < |heard| ==> heard[i] == Hearing(RightReply(evaluate, ms[i]), slots)
  }

  function WithOne(heard: seq<Heard>, one: Option<Heard>): seq<Heard> {
    if one.Some? then heard + [one.value] else heard
  }

  lemma HeardAppend(heard: seq<Heard>, one: Option<Heard>, evaluate: Evaluator, ms: seq<Message>, now: seq<Message>, slots: nat)
    requires Complete(evaluate) && HeardInOrder(heard, evaluate, ms, slots) && ms <= now
    requires one.Some? ==> |heard| < |ms| && one.value == Hearing(RightReply(evaluate, ms[|heard|]), slots)
    ensures HeardInOrder(WithOne(heard, one), evaluate, now, slots)
  {
    hide Hearing, RightReply;
  }

  /** The log tells what has been said, and the client waits exactly for the result of a request without one. */
  ghost predicate Tells(log: seq<Event>, steady: Ends, t: Talk, pending: bool) {
    && IsLog(steady, log) && Went(log) == t.ms && TallyOf(log) == Numbers(t)
    && (pending <==> t.read < |t.ms|)
  }

  /** What both ends have done since the connection was made, as long as it is in step. */
  ghost predicate Agrees(heard: seq<Heard>, pending: bool, t: Talk, evaluate: Evaluator, tags: (int, int), slots: nat,
                         steady: Ends, log: seq<Event>)
    requires Complete(evaluate)
  {
    && t.read == |heard| && AllTagged(t.ms, tags) && HeardInOrder(heard, evaluate, t.ms, slots)
    && Tells(log, steady, t, pending)
  }

  /** An event and what it has changed. */
  ghost predicate Brings(t: Talk, e: Event, steady: Ends, now: Talk, after: bool) {
    && Happens(steady, Numbers(t), e) && Numbers(now) == Counted(Numbers(t), e) && now.ms == t.ms + News(e)
    && (after <==> now.read < |now.ms|)
  }

  lemma CollectingBrings(pending: bool, one: bool, t: Talk, steady: Ends, now: Talk)
    requires InLockstep(Numbers(t)) && (pending <==> t.read < |t.ms|) && now == (if one then t.(read := t.read + 1) else t)
    requires if one then pending && t.read < |t.replies| else steady.client && pending ==> t.read >= |t.replies|
    ensures Brings(t, Collected(if one then HEARD else P.Timeout), steady, now, pending && !one)
  {
  }

  lemma ServingBrings(t: Talk, now: Talk, pending: bool, steady: Ends)
    requires InLockstep(Numbers(t)) && (pending <==> t.read < |t.ms|)
    requires now.ms == t.ms && now.read == t.read && |t.replies| <= |now.replies| <= |t.replies| + 1 && |now.replies| <= |t.ms|
    requires steady.server && |t.replies| < |t.ms| ==> |now.replies| > |t.replies|
    ensures Brings(t, Turned(|now.replies| > |t.replies|), steady, now, pending)
  {
  }

  lemma AskingBrings(m: Message, pending: bool, one: bool, t: Talk, steady: Ends, code: int, now: Talk)
    requires InLockstep(Numbers(t)) && (pending <==> t.read < |t.ms|)
    requires code == (if pending && !one then -1 else 0) && now.ms == (if code == 0 then t.ms + [m] else t.ms)
    requires now.read == t.read + (if one then 1 else 0) && now.replies == t.replies
    requires if one then pending && t.read < |t.replies| else steady.client && pending ==> t.read >= |t.replies|
    ensures Brings(t, Asked(m, if one then HEARD else P.Timeout, code), steady, now, true)
  {
  }

  lemma AgreesOneMore(heard: seq<Heard>, pending: bool, t: Talk, evaluate: Evaluator, tags: (int, int), slots: nat,
                      steady: Ends, log: seq<Event>, one: Option<Heard>, e: Event, after: bool, now: Talk)
    requires Complete(evaluate) && Agrees(heard, pending, t, evaluate, tags, slots, steady, log)
    requires Brings(t, e, steady, now, after) && AllTagged(now.ms, tags)
    requires now.read == t.read + if one.Some? then 1 else 0
    requires one.Some? ==> t.read < |t.ms| && one.value == Hearing(RightReply(evaluate, t.ms[t.read]), slots)
    ensures Agrees(WithOne(heard, one), after, now, evaluate, tags, slots, steady, log + [e])
  {
    hide HeardInOrder, Hearing, RightReply, IsLog, TallyOf, Went, Happens, Counted, News, AllTagged;
    HeardAppend(heard, one, evaluate, t.ms, now.ms, slots);
    LogGrows(steady, log, e);
  }

  /** Where a dialogue stands while it is in step. */
  ghost predicate Standing(c: Client, s: Server, tags: (int, int), views: seq<Option<Arr>>, heard: seq<Heard>, pending: bool, t: Talk,
                           log: seq<Event>)
    reads c.ser, c.ser.buf, c.registry, c.cache, c.sock, c.slots, c.slots[..], s.ser, s.ser.buf, s.registry, s.cache, s.sock
  {
    && Apart(c, s) && ClientReady(c, tags, views) && ServerReady(s) && Connected(t, c, s)
    && Agrees(heard, pending, t, s.evaluate, tags, c.slots.Length, Steady(c, s), log)
  }

  function Steady(c: Client, s: Server): Ends {
    Ends(c.sock.steady, s.sock.steady)
  }

  /** Results of the client's own requests, in their order. */
  ghost predicate Told(heard: seq<Heard>, evaluate: Evaluator, ms: seq<Message>, slots: nat) {
    Complete(evaluate) && HeardInOrder(heard, evaluate, ms, slots)
  }

  /** With such a socket, an end waits for as long as nothing comes. */
  function Waits(c: Client, s: Server): Ends {
    Ends(c.sock.steady && c.sock.quiet, s.sock.steady && s.sock.quiet)
  }

  lemma NothingComing(t: Talk, c: Client, s: Server)
    requires Connected(t, c, s)
    ensures |t.replies| <= |t.ms|
    ensures t.read == |t.replies| && c.sock.quiet ==> c.sock.NextSelect() == SOCKET_TIMEOUT
    ensures |t.replies| == |t.ms| && s.sock.quiet ==> s.sock.NextSelect() == SOCKET_TIMEOUT
  {
  }

  /** The dialogue has come to its end; with a steady socket, only because the act had nothing to work on, and did not just wait. */
  ghost predicate Ended(c: Client, s: Server, heard: seq<Heard>, one: Option<Heard>, t: Talk, log: seq<Event>, act: Act) {
    && Told(WithOne(heard, one), s.evaluate, t.ms, c.slots.Length)
    && (one.Some? ==> act.Sending?)
    && (Steady(c, s).Of(act) ==> Idle(TallyOf(log), act)) && !Waits(c, s).Of(act)
  }

  lemma StandingIs(c: Client, s: Server, tags: (int, int), views: seq<Option<Arr>>, heard: seq<Heard>, pending: bool, t: Talk,
                   log: seq<Event>)
    requires Standing(c, s, tags, views, heard, pending, t, log)
    ensures Told(heard, s.evaluate, t.ms, c.slots.Length) && |heard| == t.read && AllTagged(t.ms, tags)
    ensures Tells(log, Steady(c, s), t, pending) && InLockstep(Numbers(t))
    ensures FramesOf(t.frames, t.ms) && c.sock.sent == Join(t.frames) && Connected(t, c, s) && c.sock != s.sock
  {
    hide ClientReady, ServerReady, HeardInOrder, Polite, Complete, FramesOf, Join, AllServed, CanHear, SentSince, StillToCome;
    NeverTwoUnanswered(Steady(c, s), log);
  }

  /** A turn of the server. */
  method PerformServing(c: Client, s: Server, pending: bool, ghost tags: (int, int), ghost views: seq<Option<Arr>>,
                        ghost heard: seq<Heard>, ghost t: Talk, ghost log: seq<Event>)
    returns (over: bool, ghost now: Talk, ghost e: Event)
    requires Standing(c, s, tags, views, heard, pending, t, log)
    modifies s.ser.buf, s.cache, s.sock, c.sock`incoming
    ensures ActOf(e) == Serving
    ensures !over ==> Standing(c, s, tags, views, heard, pending, now, log + [e])
    ensures over ==> Ended(c, s, heard, None, t, log, Serving)
  {
    hide ClientReady, ServerReady, Connected, Agrees, HeardInOrder, Polite, Complete, AllTagged, IsLog, TallyOf, Went,
      Brings, InLockstep, FramesOf, Join;
    StandingIs(c, s, tags, views, heard, pending, t, log);
    NothingComing(t, c, s);
    var go;
    go, now := Serve(c, s, tags, views, t);
    over := !go;
    e := Turned(go && |now.replies| > |t.replies|);
    if go {
      ServingBrings(t, now, pending, Steady(c, s));
      AgreesOneMore(heard, pending, t, s.evaluate, tags, c.slots.Length, Steady(c, s), log, None, e, pending, now);
    }
  }

  /** The client asks for a result. */
  method PerformReceiving(c: Client, s: Server, pending: bool, ghost tags: (int, int), ghost views: seq<Option<Arr>>,
                          ghost heard: seq<Heard>, ghost t: Talk, ghost log: seq<Event>)
    returns (after: bool, over: bool, one: Option<Heard>, ghost now: Talk, ghost shown: seq<Option<Arr>>, ghost e: Event)
    requires Standing(c, s, tags, views, heard, pending, t, log)
    modifies c.ser.buf, c.cache, c.sock`incoming, c.sock`moves, c.sock`selects, c.slots, c.slots[..]
    ensures Reused(c.slots) && ActOf(e) == Receiving
    ensures !over ==> Standing(c, s, tags, shown, WithOne(heard, one), after, now, log + [e])
    ensures over ==> Ended(c, s, heard, one, t, log, Receiving)
  {
    hide ClientReady, ServerReady, Connected, Agrees, HeardInOrder, Hearing, RightReply, Polite, Complete, AllTagged, IsLog, TallyOf, Went,
      Brings, FramesOf, Join;
    StandingIs(c, s, tags, views, heard, pending, t, log);
    NothingComing(t, c, s);
    ghost var rcv;
    after, over, one, rcv, now, shown := ReceiveResult(c, s, pending, tags, views, t);
    e := Collected(rcv);
    if !over {
      CollectingBrings(pending, one.Some?, t, Steady(c, s), now);
      AgreesOneMore(heard, pending, t, s.evaluate, tags, c.slots.Length, Steady(c, s), log, one, e, after, now);
    }
  }

  /** The client gives a command. */
  method PerformSending(c: Client, s: Server, m: Message, pending: bool, ghost tags: (int, int), ghost views: seq<Option<Arr>>,
                        ghost heard: seq<Heard>, ghost t: Talk, ghost log: seq<Event>)
    returns (after: bool, over: bool, one: Option<Heard>, ghost now: Talk, ghost shown: seq<Option<Arr>>, ghost e: Event)
    requires Standing(c, s, tags, views, heard, pending, t, log)
    requires Askable(m, tags, c.registry.history, s.registry.history)
    modifies c.ser.buf, c.cache, c.sock, c.slots, c.slots[..], s.sock`incoming
    ensures Reused(c.slots) && ActOf(e) == Sending(m)
    ensures !over ==> Standing(c, s, tags, shown, WithOne(heard, one), after, now, log + [e])
    ensures over ==> Ended(c, s, heard, one, t, log, Sending(m))
    ensures SendsPartOf(Sending(m), old(c.sock.sent), c.sock.sent)
  {
    hide ClientReady, ServerReady, Connected, Agrees, HeardInOrder, Hearing, RightReply, Polite, Complete, AllTagged, IsLog, TallyOf, Went,
      Brings, FramesOf, Join, Askable, SendsPartOf;
    StandingIs(c, s, tags, views, heard, pending, t, log);
    NothingComing(t, c, s);
    var code;
    ghost var rcv;
    after, code, over, one, rcv, now, shown := SendCommand(c, s, m, pending, tags, views, t);
    e := Asked(m, rcv, code);
    if over {
      HeardAppend(heard, one, s.evaluate, t.ms, t.ms, c.slots.Length);
    } else {
      AskingBrings(m, pending, one.Some?, t, Steady(c, s), code, now);
      AgreesOneMore(heard, pending, t, s.evaluate, tags, c.slots.Length, Steady(c, s), log, one, e, after, now);
    }
  }

  /** One act; `over` when the connection is no longer in step. */
  method Perform(c: Client, s: Server, act: Act, pending: bool, ghost tags: (int, int), ghost views: seq<Option<Arr>>,
                 ghost heard: seq<Heard>, ghost t: Talk, ghost log: seq<Event>)
    returns (after: bool, over: bool, one: Option<Heard>, ghost now: Talk, ghost shown: seq<Option<Arr>>, ghost e: Event)
    requires Standing(c, s, tags, views, heard, pending, t, log)
    requires act.Sending? ==> Askable(act.m, tags, c.registry.history, s.registry.history)
    modifies c.ser.buf, c.cache, c.sock, c.slots, c.slots[..], s.ser.buf, s.cache, s.sock
    ensures Reused(c.slots) && ActOf(e) == act
    ensures !over ==> Standing(c, s, tags, shown, WithOne(heard, one), after, now, log + [e])
    ensures over ==> Ended(c, s, heard, one, t, log, act)
    ensures SendsPartOf(act, old(c.sock.sent), c.sock.sent)
  {
    hide Standing, Ended, Askable, FrameOf, Told, Tells, Connected, FramesOf, Join;
    StandingIs(c, s, tags, views, heard, pending, t, log);
    after, one, shown := pending, None, views;
    match act {
      case Serving =>
        over, now, e := PerformServing(c, s, pending, tags, views, heard, t, log);
      case Receiving =>
        after, over, one, now, shown, e := PerformReceiving(c, s, pending, tags, views, heard, t, log);
      case Sending(m) =>
        after, over, one, now, shown, e := PerformSending(c, s, m, pending, tags, views, heard, t, log);
    }
  }

  /** A connection on which nothing has been said yet. */
  ghost predicate Opened(c: Client, s: Server)
    reads c.sock, s.sock
  {
    c.sock.incoming == [] && s.sock.incoming == [] && c.sock.sent == [] && s.sock.sent == []
  }

  const SILENCE := Talk([], [], [], 0)

  lemma NothingSaid(c: Client, s: Server, tags: (int, int), views: seq<Option<Arr>>)
    requires Apart(c, s) && ClientReady(c, tags, views) && ServerReady(s) && Opened(c, s)
    ensures Standing(c, s, tags, views, [], false, SILENCE, [])
  {
    hide ClientReady, ServerReady, Polite, Complete;
  }

  /** What a dialogue of these acts has come to, as far as it went. */
  ghost predicate WentAs(acts: seq<Act>, log: seq<Event>, t: Talk, steady: Ends) {
    && Performed(acts, log) && IsLog(steady, log) && Went(log) == t.ms && TallyOf(log) == Numbers(t)
    && InLockstep(Numbers(t)) && FramesOf(t.frames, t.ms)
  }

  /**
   * Any sequence of commands and server turns on one connection and one buffer, for
   * any behaviour of the network, up to where the connection is given up or a body
   * is cut. The log tells what came of each act: the requests sent are those of the
   * send commands that went, in their order, never are two of them unanswered, and
   * what the client has sent is their frames and, at the end, at most a part of one
   * more. Each result heard is that of the client's own request, in the order of
   * the requests, and the client has moved as the proxy's transition system does,
   * with nothing but replies to read. An act is in vain or ends the dialogue only
   * if the socket of its end is not steady or it had nothing to work on, and a wait
   * that only times out does not end it; so on steady
   * sockets, with a turn of the server behind each request, all requests go, and all
   * results that a later command receives are heard.
   */
  method Dialogue(c: Client, s: Server, acts: seq<Act>, ghost tags: (int, int), ghost views: seq<Option<Arr>>)
    returns (heard: seq<Heard>, pending: bool, over: bool, ghost t: Talk, ghost log: seq<Event>)
    requires Apart(c, s) && ClientReady(c, tags, views) && ServerReady(s) && Opened(c, s)
    requires ActsFit(acts, tags, c.registry.history, s.registry.history)
    modifies c.ser.buf, c.cache, c.sock, c.slots, c.slots[..], s.ser.buf, s.cache, s.sock
    ensures WentAs(acts, log, t, Steady(c, s)) && Told(heard, s.evaluate, t.ms, c.slots.Length)
    ensures !over ==> |log| == |acts| && |heard| == t.read && Connected(t, c, s) && c.sock.sent == Join(t.frames)
    ensures !over ==> ProxyRun(States(log), Ops(log)) && States(log)[|Ops(log)|] == P.State(pending, true, 0, |t.ms| - |heard|)
    ensures over ==> |log| < |acts| && SendsPartOf(acts[|log|], Join(t.frames), c.sock.sent)
    ensures over ==> |heard| == t.read || (|heard| == t.read + 1 && acts[|log|].Sending?)
    ensures over && Steady(c, s).Of(acts[|log|]) ==> Idle(TallyOf(log), acts[|log|])
    ensures over ==> !Waits(c, s).Of(acts[|log|])
    ensures Steady(c, s) == Ends(true, true) && Paced(acts, false) ==>
      !over && t.ms == Requests(acts) && |heard| == |t.ms| - (if Awaits(acts) then 1 else 0)
  {
    hide Apart, ClientReady, ServerReady, Opened, ActsFit, Standing, Told, Askable, Connected, SendsPartOf,
      Idle, IsLog, TallyOf, Went, FramesOf, Join, Paced, Requests, Awaits, ProxyStep;
    NothingSaid(c, s, tags, views);
    ghost var shown := views;
    t, log := SILENCE, [];
    heard, pending, over := [], false, false;
    StandingIs(c, s, tags, shown, heard, pending, t, log);
    var i := 0;
    while i < |acts| && !over
      invariant 0 <= i <= |acts| && Reused(c.slots)
      invariant WentAs(acts, log, t, Steady(c, s)) && Told(heard, s.evaluate, t.ms, c.slots.Length)
      invariant !over ==> i == |log| && Standing(c, s, tags, shown, heard, pending, t, log)
      invariant !over ==> |heard| == t.read && Connected(t, c, s) && c.sock.sent == Join(t.frames)
      invariant !over ==> (pending <==> |heard| < |t.ms|)
      invariant over ==> |log| < |acts| && SendsPartOf(acts[|log|], Join(t.frames), c.sock.sent)
      invariant over ==> |heard| == t.read || (|heard| == t.read + 1 && acts[|log|].Sending?)
      invariant over && Steady(c, s).Of(acts[|log|]) ==> Idle(TallyOf(log), acts[|log|])
      invariant over ==> !Waits(c, s).Of(acts[|log|])
      decreases |acts| - i
    {
      var one;
      ghost var now, e;
      ActFits(acts, i, tags, c.registry.history, s.registry.history);
      pending, over, one, now, shown, e := Perform(c, s, acts[i], pending, tags, shown, heard, t, log);
      heard := WithOne(heard, one);
      if !over {
        t, log := now, log + [e];
        StandingIs(c, s, tags, shown, heard, pending, t, log);
      }
      i := i + 1;
    }
    if Steady(c, s) == Ends(true, true) && Paced(acts, false) {
      PacedTellsAll(acts, log);
      assert acts[..|acts|] == acts;
    }
    LogIsProxyRun(Steady(c, s), log);
  }

  lemma ActFits(acts: seq<Act>, i: nat, tags: (int, int), client: seq<Registration>, server: seq<Registration>)
    requires ActsFit(acts, tags, client, server) && i < |acts|
    ensures acts[i].Sending? ==> Askable(acts[i].m, tags, client, server)
  {
  }

  /** One round: send, serve, receive; without a result the client gives up. */
  method OneCall(c: Client, s: Server, m: Message, ghost tags: (int, int), ghost views: seq<Option<Arr>>,
                 ghost heard: seq<Heard>, ghost t: Talk, ghost log: seq<Event>)
    returns (one: Option<Heard>, ghost now: Talk, ghost shown: seq<Option<Arr>>, ghost later: seq<Event>)
    requires Standing(c, s, tags, views, heard, false, t, log)
    requires Askable(m, tags, c.registry.history, s.registry.history)
    modifies c.ser.buf, c.cache, c.sock, c.slots, c.slots[..], s.ser.buf, s.cache, s.sock
    ensures Reused(c.slots)
    ensures one.Some? ==> Standing(c, s, tags, shown, WithOne(heard, one), false, now, later) && now.ms == t.ms + [m]
    ensures c.sock.steady && s.sock.steady ==> one.Some?
  {
    hide Standing, Askable, HeardInOrder, Complete, Told, IsLog, TallyOf, Went, Connected, FramesOf, Join;
    StandingIs(c, s, tags, views, heard, false, t, log);
    one, now, shown, later := None, t, views, log;
    var pending, over, none;
    ghost var e;
    pending, over, none, now, shown, e := PerformSending(c, s, m, false, tags, views, heard, t, later);
    if over { return; }
    ghost var sent := now;
    NextIs(c, s, tags, shown, WithOne(heard, none), pending, sent, later, e);
    later := later + [e];
    over, now, e := PerformServing(c, s, true, tags, shown, heard, sent, later);
    if over { return; }
    ghost var served := now;
    NextIs(c, s, tags, shown, heard, true, served, later, e);
    later := later + [e];
    pending, over, one, now, shown, e := PerformReceiving(c, s, true, tags, shown, heard, served, later);
    if over { one := None; return; }
    NextIs(c, s, tags, shown, WithOne(heard, one), pending, now, later, e);
    later := later + [e];
  }

  /** How an event has led on. */
  lemma NextIs(c: Client, s: Server, tags: (int, int), views: seq<Option<Arr>>, heard: seq<Heard>, pending: bool, t: Talk,
               log: seq<Event>, e: Event)
    requires Standing(c, s, tags, views, heard, pending, t, log + [e])
    ensures Happens(Steady(c, s), TallyOf(log), e) && Numbers(t) == Counted(TallyOf(log), e) && t.ms == Went(log) + News(e)
    ensures TallyOf(log + [e]) == Numbers(t) && Went(log + [e]) == t.ms
    ensures |heard| == t.read && (pending <==> t.read < |t.ms|) && InLockstep(Numbers(t))
  {
    hide Standing, IsLog, TallyOf, Went, Happens, Counted, News, Told, Connected, FramesOf, Join;
    StandingIs(c, s, tags, views, heard, pending, t, log + [e]);
    LogGrows(Steady(c, s), log, e);
  }

  /**
   * Calls one after the other on one connection and one buffer, each waiting for
   * its result, as a program that calls remote scripts does: the results are those
   * of its own scripts in its order, and nothing is missing if nothing fails.
   */
  method CallInTurn(c: Client, s: Server, ms: seq<Message>, ghost tags: (int, int), ghost views: seq<Option<Arr>>)
    returns (heard: seq<Heard>)
    requires Apart(c, s) && ClientReady(c, tags, views) && ServerReady(s) && Opened(c, s)
    requires AllAskable(ms, tags, c.registry.history, s.registry.history)
    modifies c.ser.buf, c.cache, c.sock, c.slots, c.slots[..], s.ser.buf, s.cache, s.sock
    ensures Complete(s.evaluate) && HeardInOrder(heard, s.evaluate, ms, c.slots.Length)
    ensures c.sock.steady && s.sock.steady ==> |heard| == |ms|
  {
    hide Apart, ClientReady, ServerReady, Opened, AllAskable, Standing, Askable, HeardInOrder, Complete, Tells, Connected, FramesOf, Join;
    NothingSaid(c, s, tags, views);
    ghost var t, shown, log := SILENCE, views, [];
    heard := [];
    StandingIs(c, s, tags, shown, heard, false, t, log);
    var go, i := true, 0;
    while i < |ms| && go
      invariant 0 <= i <= |ms| && Reused(c.slots)
      invariant go ==> Standing(c, s, tags, shown, heard, false, t, log) && |heard| == i
      invariant t.ms <= ms && |t.ms| <= i && (go ==> |t.ms| == i)
      invariant Complete(s.evaluate) && HeardInOrder(heard, s.evaluate, t.ms, c.slots.Length)
      invariant c.sock.steady && s.sock.steady ==> go
    {
      var one;
      ghost var now;
      EachAskable(ms, i, tags, c.registry.history, s.registry.history);
      one, now, shown, log := OneCall(c, s, ms[i], tags, shown, heard, t, log);
      heard, go, i := WithOne(heard, one), one.Some?, i + 1;
      if go {
        assert ms[..i] == ms[..i - 1] + [ms[i - 1]];
        t := now;
        StandingIs(c, s, tags, shown, heard, false, t, log);
      }
    }
    MoreAsked(heard, s.evaluate, t.ms, ms, c.slots.Length);
  }

  ghost predicate AllAskable(ms: seq<Message>, tags: (int, int), client: seq<Registration>, server: seq<Registration>) {
    forall i :: 0 <= i < |ms| ==> Askable(ms[i], tags, client, server)
  }

  lemma EachAskable(ms: seq<Message>, i: nat, tags: (int, int), client: seq<Registration>, server: seq<Registration>)
    requires AllAskable(ms, tags, client, server) && i < |ms|
    ensures Askable(ms[i], tags, client, server)
  {
    hide Askable;
  }

  lemma MoreAsked(heard: seq<Heard>, evaluate: Evaluator, ms: seq<Message>, all: seq<Message>, slots: nat)
    requires Complete(evaluate) && HeardInOrder(heard, evaluate, ms, slots) && ms <= all
    ensures HeardInOrder(heard, evaluate, all, slots)
  {
    hide Hearing, RightReply;
  }
}

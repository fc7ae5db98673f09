/** Whole conversations: messages sent one after the other from one end, and what the other end makes of them. */
module Conversations {
  import opened Common
  import opened Octets
  import opened NwArrays
  import opened Raw1
  import opened Raw1Codec
  import opened Frames
  import opened Versioning
  import opened Wire
  import opened Serializers
  import opened ServerCalls

  ghost predicate FramesOf(frames: seq<Bytes>, ms: seq<Message>) {
    |frames| == |ms| && forall i :: 0 <= i < |ms| ==> FrameOf(frames[i], ms[i])
  }

  /** A frame of any message is a request the server can serve. */
  lemma FrameIsRequest(f: Bytes, m: Message)
    requires FrameOf(f, m)
    ensures IsRequest(f)
  {
    hide Read32, Decode, CString;
    FrameReadsBack(f, m.version, m.seriType, m.name, m.outs, m.arrays, MAXIMUM_NUMBER_OF_IN_AND_OUTS);
  }

  lemma FramesAreRequests(frames: seq<Bytes>, ms: seq<Message>)
    requires FramesOf(frames, ms)
    ensures AllRequests(frames)
  {
    hide FrameOf, IsRequest;
    forall i | 0 <= i < |frames| ensures IsRequest(frames[i]) {
      FrameIsRequest(frames[i], ms[i]);
    }
  }

  // ---- sending ----

  /** Messages with the sender's own tags that it can send. */
  predicate CanSay(regs: seq<Registration>, b: Bytes, ms: seq<Message>) {
    && HEADER_LEN <= |b| && CanSend(regs, Read32(b, VERSION), Read32(b, TYPE))
    && forall i :: 0 <= i < |ms| ==> Sayable(b, ms[i])
  }

  predicate Sayable(b: Bytes, m: Message)
    requires HEADER_LEN <= |b|
  {
    m.version == Read32(b, VERSION) && m.seriType == Read32(b, TYPE) && Sendable(m.name, m.outs, Present(m.arrays))
  }

  /** One message: a frame of it goes out, but for the bytes `lost` at its end. */
  method Say(ser: Serializer, registry: Registry, cache: FncPointers, sock: Socket, m: Message)
    returns (r: int, ghost f: Bytes, ghost lost: Bytes)
    requires ser.Valid() && Usable(registry, cache)
    requires CanSend(registry.history, Read32(ser.buf.bytes, VERSION), Read32(ser.buf.bytes, TYPE)) && Sayable(ser.buf.bytes, m)
    modifies ser.buf, cache, sock
    ensures ser.Valid() && Usable(registry, cache) && SameTags(old(ser.buf.bytes), ser.buf.bytes)
    ensures FrameOf(f, m) && sock.sent + lost == old(sock.sent) + f && sock.incoming == old(sock.incoming)
    ensures old(sock.sent) <= sock.sent && (r >= 0 <==> lost == []) && (sock.steady ==> r >= 0)
  {
    hide Read32, Sendable, CanSend, Sent;
    r, f := ser.SendScriptNameAndArrays(registry, cache, sock, Some(m.name), m.outs, Present(m.arrays));
    lost := LostOf(old(sock.sent), f, r, sock.sent);
  }

  lemma LostOf(before: Bytes, f: Bytes, r: int, after: Bytes) returns (lost: Bytes)
    requires Sent(before, f, r, after)
    ensures after + lost == before + f && before <= after && (r >= 0 <==> lost == [])
  {
    if r >= 0 {
      lost := [];
    } else {
      var k: nat :| k < |f| && after == before + f[..k];
      lost := f[k..];
      assert f[..k] + f[k..] == f;
    }
  }

  lemma StillSayable(regs: seq<Registration>, b: Bytes, t: Bytes, ms: seq<Message>)
    requires CanSay(regs, b, ms) && SameTags(b, t)
    ensures CanSay(regs, t, ms)
  {
    hide Read32, Sendable, CanSend;
    forall i | 0 <= i < |ms| ensures Sayable(t, ms[i]) {
      assert Sayable(b, ms[i]);
    }
  }

  /** What has gone out since `before` are frames of the first messages, but for the bytes `lost` at their end. */
  ghost predicate Said(frames: seq<Bytes>, ms: seq<Message>, before: Bytes, sent: Bytes, lost: Bytes) {
    |frames| <= |ms| && FramesOf(frames, ms[..|frames|]) && sent + lost == before + Join(frames)
  }

  lemma SaidOneMore(frames: seq<Bytes>, f: Bytes, ms: seq<Message>, before: Bytes, sent: Bytes, now: Bytes, lost: Bytes)
    requires Said(frames, ms, before, sent, []) && |frames| < |ms|
    requires FrameOf(f, ms[|frames|]) && now + lost == sent + f
    ensures Said(frames + [f], ms, before, now, lost)
  {
    hide FrameOf, Join;
    JoinAppend(frames, f);
    assert sent == before + Join(frames);
    assert before + Join(frames + [f]) == before + Join(frames) + f;
  }

  lemma CanSayEach(regs: seq<Registration>, b: Bytes, ms: seq<Message>, i: nat)
    requires CanSay(regs, b, ms) && i < |ms|
    ensures HEADER_LEN <= |b| && CanSend(regs, Read32(b, VERSION), Read32(b, TYPE)) && Sayable(b, ms[i])
  {
  }

  /**
   * Messages one after the other, until a send fails: what goes out are frames of
   * the messages in their order, but for the bytes `lost` at the end of the last.
   */
  method SendAll(ser: Serializer, registry: Registry, cache: FncPointers, sock: Socket, ms: seq<Message>)
    returns (ok: bool, ghost frames: seq<Bytes>, ghost lost: Bytes)
    requires ser.Valid() && Usable(registry, cache) && CanSay(registry.history, ser.buf.bytes, ms)
    modifies ser.buf, cache, sock
    ensures ser.Valid() && Usable(registry, cache) && Said(frames, ms, old(sock.sent), sock.sent, lost)
    ensures if ok then |frames| == |ms| && lost == [] else |frames| > 0 && lost != []
    ensures sock.steady ==> ok
  {
    ok, frames, lost := true, [], [];
    assert Said(frames, ms, sock.sent, sock.sent, lost);
    var i := 0;
    while i < |ms| && ok
      invariant ser.Valid() && Usable(registry, cache) && CanSay(registry.history, ser.buf.bytes, ms)
      invariant 0 <= i <= |ms| && |frames| == i && Said(frames, ms, old(sock.sent), sock.sent, lost)
      invariant (ok <==> lost == []) && (!ok ==> i > 0) && (sock.steady ==> ok)
    {
      hide *;
      ghost var sent, b := sock.sent, ser.buf.bytes;
      CanSayEach(registry.history, b, ms, i);
      ghost var f;
      var r;
      r, f, lost := Say(ser, registry, cache, sock, ms[i]);
      ok := r >= 0;
      StillSayable(registry.history, b, ser.buf.bytes, ms);
      SaidOneMore(frames, f, ms, old(sock.sent), sent, sock.sent, lost);
      frames := frames + [f];
      i := i + 1;
    }
  }

  // ---- receiving ----

  /** What the receiving end gets to know of a message. */
  datatype Heard = Heard(name: Bytes, outs: int, arrays: seq<Option<Arr>>)

  /** What it should be, for a receiver with this many slots. */
  function Hearing(m: Message, slots: nat): Heard {
    Heard(m.name, m.outs, Present(m.arrays[..Cut(|m.arrays|, slots)]))
  }

  /** The registry serves the tags of all these messages. */
  predicate CanHear(regs: seq<Registration>, ms: seq<Message>) {
    forall i :: 0 <= i < |ms| ==> FitsInt32(ms[i].version) && FitsInt32(ms[i].seriType) && CanReceive(regs, ms[i].version, ms[i].seriType)
  }

  lemma FrameDecodes(f: Bytes, m: Message, slots: nat)
    requires FrameOf(f, m)
    ensures Decodable(f, slots) && Window(f) == Body(f) && Read32(f, NUM_AFTER_HEADER) == |f| - HEADER_LEN
    ensures Readable(f) && HEADER_LEN < |f| && FitsInt32(|f|)
  {
    hide Read32, Decode, CString;
    FrameReadsBack(f, m.version, m.seriType, m.name, m.outs, m.arrays, slots);
    FrameInBuffer(f, f);
  }

  /** What is next on a stream of frames is safe to receive, into any buffer. */
  lemma FrameAhead(b: Bytes, k: nat, frames: seq<Bytes>, ms: seq<Message>, incoming: Bytes, lost: Bytes, slots: nat)
    requires HEADER_LEN <= |b| && FramesOf(frames, ms) && StillToCome(k, frames, incoming, lost)
    ensures StreamAhead(b, incoming, slots)
    ensures lost == [] && k < |frames| ==> HEADER_LEN <= |incoming|
  {
    hide Read32, FrameOf, IsRequest, Decodable, Put, Join;
    FramesAreRequests(frames, ms);
    NextIsThere(k, frames, incoming, lost);
    if HEADER_LEN <= |incoming| {
      var head, left := incoming[..HEADER_LEN], incoming[HEADER_LEN..];
      HeaderMeansRequest(frames, k, incoming, head, left, lost);
      FrameDecodes(frames[k], ms[k], slots);
      HeaderBefore(b, frames[k], left, Join(frames[k + 1..]), lost);
    }
  }

  lemma HeaderBefore(b: Bytes, f: Bytes, left: Bytes, rest: Bytes, lost: Bytes)
    requires HEADER_LEN <= |b| && HEADER_LEN <= |f| && left + lost == f[HEADER_LEN..] + rest
    ensures var h := Put(b, 0, f[..HEADER_LEN]);
      && Read32(h, NUM_AFTER_HEADER) == Read32(f, NUM_AFTER_HEADER)
      && (|f| - HEADER_LEN <= |left| ==> h[..HEADER_LEN] + left[..|f| - HEADER_LEN] == f)
  {
    hide Put, Read32;
    var h := Put(b, 0, f[..HEADER_LEN]);
    PutReads(b, 0, f[..HEADER_LEN]);
    HeaderOfRequest(f, h);
    if |f| - HEADER_LEN <= |left| {
      assert left[..|f| - HEADER_LEN] == (left + lost)[..|f| - HEADER_LEN] == f[HEADER_LEN..];
    }
  }

  /** The message has been decoded: what is in the buffer and in the slots is what it says. */
  method TakeDown(ser: Serializer, slots: array<NwArray?>, n: nat, ghost views: seq<Option<Arr>>, ghost k: nat, ghost ms: seq<Message>)
    returns (heard: Heard, ghost now: seq<Option<Arr>>)
    requires Arrived(k, ms, ser.buf.bytes, views, n, slots)
    ensures k < |ms| && heard == Hearing(ms[k], slots.Length) && Shows(slots, now)
  {
    hide Read32, Shows, IsFrame, CString, Decode, WantedCount;
    ghost var m := ms[k];
    ghost var f: Bytes :| f <= ser.buf.bytes && FrameOf(f, m);
    FrameReadsBack(f, m.version, m.seriType, m.name, m.outs, m.arrays, 0);
    now := Present(m.arrays[..n]) + views[n..];
    SlotCount(slots, now);
    var name := ser.MatlabScriptName(f);
    var outs := ser.NumOfExpOutsOrError(f);
    var arrays := Values(slots, n, now);
    heard := Heard(name, outs, arrays);
  }

  /** Message `k` is next on a stream of frames that the receiver's registry serves. */
  ghost predicate Coming(regs: seq<Registration>, k: nat, frames: seq<Bytes>, ms: seq<Message>, incoming: Bytes, lost: Bytes) {
    FramesOf(frames, ms) && CanHear(regs, ms) && StillToCome(k, frames, incoming, lost)
  }

  /** A frame of message `k` is in the buffer, and its arrays are in the slots. */
  ghost predicate Arrived(k: nat, ms: seq<Message>, b: Bytes, views: seq<Option<Arr>>, n: int, slots: array<NwArray?>)
    reads slots, slots[..]
  {
    && k < |ms| && Delivered(ms[k], views, n, slots)
    && exists f: Bytes :: f <= b && FrameOf(f, ms[k])
  }

  /** Take the next message off the stream; `n` is negative if its body was cut. */
  method TakeNext(ser: Serializer, registry: Registry, cache: FncPointers, sock: Socket, timeoutMs: int,
                  slots: array<NwArray?>, ghost views: seq<Option<Arr>>,
                  ghost k: nat, ghost frames: seq<Bytes>, ghost ms: seq<Message>, ghost lost: Bytes)
    returns (r: int, n: int)
    requires ser.Valid() && Usable(registry, cache) && Shows(slots, views) && !sock.CanMislead()
    requires Coming(registry.history, k, frames, ms, sock.incoming, lost)
    modifies ser.buf, cache, sock`incoming, sock`moves, sock`selects, slots, slots[..]
    ensures ser.Valid() && Usable(registry, cache) && Reused(slots)
    ensures r < 0 || n < 0 ==> Shows(slots, views)
    ensures r == SOCKET_TIMEOUT ==> sock.incoming == old(sock.incoming) && ser.buf.bytes == old(ser.buf.bytes)
    ensures old(sock.NextSelect()) != 0 ==> r == old(sock.NextSelect())
    ensures r == SOCKET_TIMEOUT ==> old(sock.NextSelect()) == SOCKET_TIMEOUT
    ensures r >= 0 ==> k < |ms|
    ensures r >= 0 && n >= 0 ==>
      Arrived(k, ms, ser.buf.bytes, views, n, slots) && Coming(registry.history, k + 1, frames, ms, sock.incoming, lost)
    ensures sock.steady && lost == [] && k < |ms| ==> r >= 0 && n >= 0
  {
    hide Shows, Coming, Arrived, Usable, StreamAhead, Announced, Outcome, BodyTaken;
    ComingIsSafe(registry.history, k, frames, ms, sock.incoming, lost, ser.buf.bytes, slots.Length);
    ghost var was := sock.incoming;
    ghost var head, body;
    r, n, head, body := ser.ReceiveHeaderScriptNameAndArrays2(registry, cache, sock, timeoutMs, slots, slots.Length, views);
    if r >= 0 {
      HeardIs(registry.history, k, frames, ms, was, head, body, sock.incoming, lost, ser.buf.bytes, views, n, slots);
    }
  }

  lemma ComingIsSafe(regs: seq<Registration>, k: nat, frames: seq<Bytes>, ms: seq<Message>, incoming: Bytes, lost: Bytes,
                     b: Bytes, slots: nat)
    requires Coming(regs, k, frames, ms, incoming, lost) && HEADER_LEN <= |b|
    ensures StreamAhead(b, incoming, slots)
    ensures lost == [] && k < |ms| ==> HEADER_LEN <= |incoming|
  {
    FrameAhead(b, k, frames, ms, incoming, lost, slots);
  }

  /**
   * Receive the next message. It is heard as it was said; or nothing has come when
   * the time was up, and it can be tried again; or the receiver gives up.
   */
  method HearNext(ser: Serializer, registry: Registry, cache: FncPointers, sock: Socket, timeoutMs: int,
                  slots: array<NwArray?>, ghost views: seq<Option<Arr>>,
                  ghost k: nat, ghost frames: seq<Bytes>, ghost ms: seq<Message>, ghost lost: Bytes)
    returns (heard: Option<Heard>, go: bool, ghost now: seq<Option<Arr>>)
    requires ser.Valid() && Usable(registry, cache) && Shows(slots, views) && !sock.CanMislead()
    requires Coming(registry.history, k, frames, ms, sock.incoming, lost)
    modifies ser.buf, cache, sock`incoming, sock`moves, sock`selects, slots, slots[..]
    ensures ser.Valid() && Usable(registry, cache) && Reused(slots) && Shows(slots, now)
    ensures heard.Some? ==> go && k < |ms| && heard.value == Hearing(ms[k], slots.Length)
    ensures go ==> Coming(registry.history, if heard.Some? then k + 1 else k, frames, ms, sock.incoming, lost)
    ensures sock.steady && lost == [] && k < |ms| ==> heard.Some?
  {
    hide Shows, Coming, Arrived, Usable;
    heard, now := None, views;
    var r, n := TakeNext(ser, registry, cache, sock, timeoutMs, slots, views, k, frames, ms, lost);
    go := if r < 0 then r == SOCKET_TIMEOUT else n >= 0;
    if r >= 0 && n >= 0 {
      var value;
      value, now := TakeDown(ser, slots, n, views, k, ms);
      heard := Some(value);
    }
  }

  lemma HeardIs(regs: seq<Registration>, k: nat, frames: seq<Bytes>, ms: seq<Message>, was: Bytes, head: Bytes, body: Bytes,
                left: Bytes, lost: Bytes, b: Bytes, views: seq<Option<Arr>>, n: int, slots: array<NwArray?>)
    requires Coming(regs, k, frames, ms, was, lost) && was == head + body + left && |head| == HEADER_LEN
    requires Outcome(regs, head, body, b, views, n, slots)
    ensures k < |ms|
    ensures n >= 0 ==> Arrived(k, ms, b, views, n, slots) && Coming(regs, k + 1, frames, ms, left, lost)
    ensures n < 0 ==> Shows(slots, views) && (lost == [] ==> !BodyTaken(head, was[HEADER_LEN..], body))
  {
    hide Read32, Shows, IsFrame, CString, Decode, Decoding, CanReceive, Join, Windowed, IsRequest;
    FramesAreRequests(frames, ms);
    HeaderMeansRequest(frames, k, was, head, body + left, lost);
    var f, m, rest := frames[k], ms[k], Join(frames[k + 1..]);
    assert FrameOf(f, m);
    FrameDecodes(f, m, |views|);
    HeaderOfRequest(f, head);
    assert was[HEADER_LEN..] == body + left;
    if |body| == Read32(head, NUM_AFTER_HEADER) {
      assert f == f[..HEADER_LEN] + f[HEADER_LEN..];
      assert f + rest == head + (body + left + lost) == head + body + (left + lost);
      FirstFrameTaken(f, rest, head, body, left + lost);
      MessageArrives(regs, f, m, b, |views|, views, n, slots);
    }
  }

  /** The first messages, in their order, as they were said. */
  ghost predicate HeardRight(heard: seq<Heard>, ms: seq<Message>, slots: nat) {
    |heard| <= |ms| && forall i :: 0 <= i < |heard| ==> heard[i] == Hearing(ms[i], slots)
  }

  lemma HeardOneMore(heard: seq<Heard>, ms: seq<Message>, slots: nat, one: Heard)
    requires HeardRight(heard, ms, slots) && |heard| < |ms| && one == Hearing(ms[|heard|], slots)
    ensures HeardRight(heard + [one], ms, slots)
  {
    hide Hearing;
  }

  /** Receive messages one after the other into the same buffer and slots, up to the first that is cut. */
  method HearAll(ser: Serializer, registry: Registry, cache: FncPointers, sock: Socket, timeoutMs: int,
                 slots: array<NwArray?>, turns: nat, ghost views: seq<Option<Arr>>,
                 ghost frames: seq<Bytes>, ghost ms: seq<Message>, ghost lost: Bytes)
    returns (heard: seq<Heard>)
    requires ser.Valid() && Usable(registry, cache) && Shows(slots, views) && !sock.CanMislead()
    requires Coming(registry.history, 0, frames, ms, sock.incoming, lost)
    modifies ser.buf, cache, sock`incoming, sock`moves, sock`selects, slots, slots[..]
    ensures HeardRight(heard, ms, slots.Length)
    ensures sock.steady && lost == [] && turns >= |ms| ==> |heard| == |ms|
  {
    hide Shows, Coming, Usable, Hearing;
    ghost var now := views;
    heard := [];
    var go, turn := true, 0;
    while turn < turns && go
      invariant ser.Valid() && Usable(registry, cache) && Shows(slots, now) && turn <= turns
      invariant Reused(slots)
      invariant go ==> Coming(registry.history, |heard|, frames, ms, sock.incoming, lost)
      invariant HeardRight(heard, ms, slots.Length)
      invariant sock.steady && lost == [] && |heard| < |ms| ==> go && |heard| == turn
    {
      var one;
      one, go, now := HearNext(ser, registry, cache, sock, timeoutMs, slots, now, |heard|, frames, ms, lost);
      if one.Some? {
        HeardOneMore(heard, ms, slots.Length, one.value);
        heard := heard + [one.value];
      }
      turn := turn + 1;
    }
  }

  // ---- from one end to the other ----

  lemma HeardOfFirst(heard: seq<Heard>, ms: seq<Message>, k: nat, slots: nat)
    requires k <= |ms| && HeardRight(heard, ms[..k], slots)
    ensures HeardRight(heard, ms, slots)
  {
    hide Hearing;
  }

  /** Whatever part of what was said arrives, it is the beginning. */
  lemma SaidIsComing(frames: seq<Bytes>, ms: seq<Message>, sent: Bytes, lost: Bytes, incoming: Bytes, missing: Bytes)
    requires Said(frames, ms, [], sent, lost) && sent == incoming + missing
    ensures |frames| <= |ms| && FramesOf(frames, ms[..|frames|]) && StillToCome(0, frames, incoming, missing + lost)
  {
    hide FrameOf, Join;
    assert frames[0..] == frames;
    assert incoming + (missing + lost) == sent + lost == [] + Join(frames) == Join(frames);
  }

  /** How the network will treat one connection, and how many bytes at the end of what was sent it will lose. */
  datatype Network = Network(lose: nat, selects: seq<SelectCode>, moves: seq<Move>, stalls: nat,
                             spurious: bool, patient: bool, steady: bool, quiet: bool) {
    method Carry(sent: Bytes) returns (sock: Socket, ghost missing: Bytes)
      ensures fresh(sock) && sent == sock.incoming + missing && sock.sent == []
      ensures sock.spurious == spurious && sock.patient == patient && sock.steady == steady && (lose == 0 ==> missing == [])
    {
      var arrives := if lose <= |sent| then |sent| - lose else 0;
      missing := sent[arrives..];
      sock := new Socket(sent[..arrives], true, selects, moves, stalls, spurious, patient, steady, quiet);
    }

    predicate Perfect() { steady && lose == 0 }

    predicate CanMislead() { spurious && !patient }
  }

  /**
   * Messages are sent over one connection and received at its other end. Whatever
   * the buffers and slots held, however the network cuts, delays or loses the end
   * of what was sent, the receiver hears the first messages in their order, each as
   * it was said; all of them if nothing fails.
   */
  method Converse(sender: Serializer, senders: Registry, sendersCache: FncPointers, line: Socket, ms: seq<Message>, network: Network,
                  receiver: Serializer, receivers: Registry, receiversCache: FncPointers, timeoutMs: int, turns: nat,
                  slots: array<NwArray?>, ghost views: seq<Option<Arr>>)
    returns (heard: seq<Heard>)
    requires sender.Valid() && Usable(senders, sendersCache) && CanSay(senders.history, sender.buf.bytes, ms) && line.sent == []
    requires receiver.Valid() && Usable(receivers, receiversCache) && CanHear(receivers.history, ms) && Shows(slots, views)
    requires (sendersCache != receiversCache || senders == receivers) && !network.CanMislead()
    modifies sender.buf, sendersCache, line, receiver.buf, receiversCache, slots, slots[..]
    ensures HeardRight(heard, ms, slots.Length)
    ensures line.steady && network.Perfect() && turns >= |ms| ==> |heard| == |ms|
  {
    hide Shows, CanSay, Said, HeardRight, StillToCome, FramesOf, CanReceive;
    var ok, other;
    ghost var frames, lost, missing;
    ok, frames, lost := SendAll(sender, senders, sendersCache, line, ms);
    other, missing := network.Carry(line.sent);
    SaidIsComing(frames, ms, line.sent, lost, other.incoming, missing);
    heard := HearAll(receiver, receivers, receiversCache, other, timeoutMs, slots, turns, views,
                     frames, ms[..|frames|], missing + lost);
    HeardOfFirst(heard, ms, |frames|, slots.Length);
  }

  // ---- remote calls ----

  /** What evaluating the script of request `m` gives: the first inputs go in. */
  function Result(evaluate: Evaluator, m: Message): Evaluation {
    evaluate(m.name, Present(if |m.arrays| <= 50 then m.arrays else m.arrays[..50]), if m.outs <= 50 then m.outs else 50)
  }

  /** The server answers a request by evaluating its script on its arrays. */
  lemma AnswerOfMessage(evaluate: Evaluator, regs: seq<Registration>, f: Bytes, m: Message)
    requires FrameOf(f, m) && CanReceive(regs, m.version, m.seriType)
    ensures Readable(f) && Answer(evaluate, regs, f) == Result(evaluate, m)
    ensures Read32(f, VERSION) == m.version && Read32(f, TYPE) == m.seriType
  {
    hide Read32, Decode, WantedCount, Handler, CString, IsFrame;
    var slots := MAXIMUM_NUMBER_OF_IN_AND_OUTS;
    FrameReadsBack(f, m.version, m.seriType, m.name, m.outs, m.arrays, slots);
    var p := ReadFrame(f, slots);
    assert p == Parsed(m.version, m.seriType, m.outs, m.name, Cut(|m.arrays|, slots), m.arrays[..Cut(|m.arrays|, slots)]);
    assert p.arrays == Decode(Body(f), slots).arrays && p.count == WantedCount(Body(f), slots);
    var arrays := Present(p.arrays) + Nothing()[|p.arrays|..];
    assert arrays[..p.count] == Present(p.arrays);
    assert p.arrays == if |m.arrays| <= 50 then m.arrays else m.arrays[..50];
  }

  /** A script leaves no output out. */
  ghost predicate Complete(evaluate: Evaluator) {
    forall name, inputs, outs :: AllThere(evaluate(name, inputs, outs).outputs)
  }

  predicate AllThere(outputs: seq<Option<Arr>>) {
    forall i :: 0 <= i < |outputs| ==> outputs[i].Some?
  }

  function Arrays(outputs: seq<Option<Arr>>): (r: seq<Arr>)
    requires AllThere(outputs)
    ensures Present(r) == outputs
  {
    seq(|outputs|, i requires 0 <= i < |outputs| => outputs[i].value)
  }

  /** The message that says this to the sender of `m`. */
  function Reply(m: Message, e: Evaluation): Message
    requires AllThere(e.outputs)
  {
    Message(m.version, m.seriType, if e.Fine? then OK else ERROR, if e.Fine? then 0 else -1, Arrays(e.outputs))
  }

  /** The registry serves both ways. */
  predicate Serves(regs: seq<Registration>, m: Message) {
    && FitsInt32(m.version) && FitsInt32(m.seriType)
    && CanReceive(regs, m.version, m.seriType) && CanSend(regs, m.version, m.seriType)
  }

  ghost function RightReply(evaluate: Evaluator, m: Message): Message
    requires Complete(evaluate)
  {
    assert AllThere(Result(evaluate, m).outputs);
    Reply(m, Result(evaluate, m))
  }

  lemma RightReplyFrame(evaluate: Evaluator, regs: seq<Registration>, f: Bytes, m: Message, reply: Bytes)
    requires FrameOf(f, m) && Serves(regs, m) && Complete(evaluate) && Replies(reply, evaluate, regs, f)
    ensures FrameOf(reply, RightReply(evaluate, m))
  {
    hide IsFrame, CanReceive, CanSend, Answer, Result;
    AnswerOfMessage(evaluate, regs, f, m);
  }

  lemma ErrorReplyFrame(regs: seq<Registration>, m: Message, reply: Bytes)
    requires Serves(regs, m) && IsReply(reply, regs, m.version, m.seriType, Wrong([]))
    ensures FrameOf(reply, Reply(m, Wrong([])))
  {
    hide IsFrame, CanReceive, CanSend;
    assert Present(Arrays([])) == [];
  }

  /** What the client should hear in answer to its requests: the right replies, and last perhaps an error. */
  ghost predicate IsAnswers(answers: seq<Message>, evaluate: Evaluator, ms: seq<Message>)
    requires Complete(evaluate)
  {
    && |answers| <= |ms|
    && forall i :: 0 <= i < |answers| ==>
         answers[i] == RightReply(evaluate, ms[i]) || (i == |answers| - 1 && answers[i] == Reply(ms[i], Wrong([])))
  }

  /** What the server has sent are frames of answers, but for some bytes at the end. */
  lemma AnswersSent(cut: bool, replies: seq<Bytes>, part: Bytes, evaluate: Evaluator, regs: seq<Registration>,
                    frames: seq<Bytes>, ms: seq<Message>, sent: Bytes)
    returns (answers: seq<Message>, back: seq<Bytes>, lost: Bytes)
    requires Complete(evaluate) && FramesOf(frames, ms) && forall i :: 0 <= i < |ms| ==> Serves(regs, ms[i])
    requires SentSince(cut, replies, part, evaluate, regs, frames, [], sent)
    ensures IsAnswers(answers, evaluate, ms) && FramesOf(back, answers) && sent + lost == Join(back)
    ensures !cut ==> lost == [] && |answers| == |replies| && forall i :: 0 <= i < |answers| ==> answers[i] == RightReply(evaluate, ms[i])
  {
    hide Replies, IsReply, IsFrame, Join, CanReceive, CanSend, Result, Sendable;
    answers := seq(|replies|, i requires 0 <= i < |replies| => RightReply(evaluate, ms[i]));
    back, lost := replies, [];
    forall i | 0 <= i < |replies| ensures FrameOf(replies[i], answers[i]) {
      RightReplyFrame(evaluate, regs, frames[i], ms[i], replies[i]);
    }
    if cut {
      var k := |replies|;
      var f, m := frames[k], ms[k];
      assert FrameOf(f, m);
      var reply, last := LastAnswer(part, evaluate, regs, f, m);
      answers, back, lost := answers + [last], replies + [reply], reply[|part|..];
      JoinAppend(replies, reply);
      assert part + lost == reply;
      assert sent + lost == Join(replies) + reply;
    } else {
      assert sent + lost == Join(replies);
    }
  }

  lemma LastAnswer(part: Bytes, evaluate: Evaluator, regs: seq<Registration>, f: Bytes, m: Message)
    returns (reply: Bytes, last: Message)
    requires Complete(evaluate) && FrameOf(f, m) && Serves(regs, m) && CutReply(part, evaluate, regs, f)
    ensures part <= reply && FrameOf(reply, last)
    ensures last == RightReply(evaluate, m) || last == Reply(m, Wrong([]))
  {
    hide Replies, IsReply, IsFrame, CanReceive, CanSend, Result, Answer;
    AnswerOfMessage(evaluate, regs, f, m);
    reply :| part <= reply &&
      (IsReply(reply, regs, Read32(f, VERSION), Read32(f, TYPE), Wrong([])) || (part != reply && Replies(reply, evaluate, regs, f)));
    if IsReply(reply, regs, Read32(f, VERSION), Read32(f, TYPE), Wrong([])) {
      ErrorReplyFrame(regs, m, reply);
      last := Reply(m, Wrong([]));
    } else {
      RightReplyFrame(evaluate, regs, f, m, reply);
      last := RightReply(evaluate, m);
    }
  }

  lemma AnswersCanBeHeard(regs: seq<Registration>, answers: seq<Message>, evaluate: Evaluator, ms: seq<Message>)
    requires Complete(evaluate) && IsAnswers(answers, evaluate, ms) && CanHear(regs, ms)
    ensures CanHear(regs, answers)
  {
    hide CanReceive, Result;
    forall i | 0 <= i < |answers|
      ensures FitsInt32(answers[i].version) && FitsInt32(answers[i].seriType) && CanReceive(regs, answers[i].version, answers[i].seriType)
    {
      assert answers[i].version == ms[i].version && answers[i].seriType == ms[i].seriType;
    }
  }

  ghost predicate AllServed(regs: seq<Registration>, ms: seq<Message>) {
    forall i :: 0 <= i < |ms| ==> Serves(regs, ms[i])
  }

  /** The server's end: the requests that arrive are answered. */
  method Respond(servers: Registry, sock: Socket, evaluate: Evaluator, version: int, seriType: int, turns: nat,
                 ghost frames: seq<Bytes>, ghost ms: seq<Message>, ghost lost: Bytes)
    returns (ghost answers: seq<Message>, ghost back: seq<Bytes>, ghost missing: Bytes)
    requires FitsInt32(version) && FitsInt32(seriType) && Polite(evaluate) && Complete(evaluate)
    requires servers.Valid() && OnlyRaw1(servers.history) && AllServed(servers.history, ms)
    requires FramesOf(frames, ms) && StillToCome(0, frames, sock.incoming, lost) && sock.sent == []
    modifies sock
    ensures IsAnswers(answers, evaluate, ms) && FramesOf(back, answers) && sock.sent + missing == Join(back)
    ensures sock.steady && lost == [] && turns >= |ms| ==> missing == [] && AllRight(answers, evaluate, ms)
  {
    hide Polite, StillToCome, SentSince, IsAnswers, Join, FrameOf, IsRequest, Result;
    FramesAreRequests(frames, ms);
    var cut, stray;
    ghost var replies, part;
    cut, stray, replies, part := ContactThread(servers, sock, evaluate, version, seriType, turns, frames, lost);
    answers, back, missing := AnswersSent(cut, replies, part, evaluate, servers.history, frames, ms, sock.sent);
  }

  /** One right answer to each request. */
  ghost predicate AllRight(answers: seq<Message>, evaluate: Evaluator, ms: seq<Message>)
    requires Complete(evaluate)
  {
    |answers| == |ms| && forall i :: 0 <= i < |ms| ==> answers[i] == RightReply(evaluate, ms[i])
  }

  /** The client sends its requests, and the server serves the part of them that arrives; `reply` is what it sends back. */
  method AskServer(client: Serializer, clients: Registry, cache: FncPointers, line: Socket, ms: seq<Message>, there: Network,
                   servers: Registry, evaluate: Evaluator, version: int, seriType: int, turns: nat)
    returns (reply: Bytes, ghost answers: seq<Message>, ghost back: seq<Bytes>, ghost missing: Bytes)
    requires client.Valid() && Usable(clients, cache) && CanSay(clients.history, client.buf.bytes, ms) && line.sent == []
    requires FitsInt32(version) && FitsInt32(seriType) && Polite(evaluate) && Complete(evaluate)
    requires servers.Valid() && OnlyRaw1(servers.history) && AllServed(servers.history, ms)
    modifies client.buf, cache, line
    ensures client.Valid() && Usable(clients, cache)
    ensures IsAnswers(answers, evaluate, ms) && FramesOf(back, answers) && reply + missing == Join(back)
    ensures line.steady && there.Perfect() && turns >= |ms| ==> missing == [] && AllRight(answers, evaluate, ms)
  {
    hide CanSay, Said, Polite, IsAnswers, AllRight, StillToCome, FramesOf, Join, Serves;
    var ok, sock;
    ghost var frames, lost, gone;
    ok, frames, lost := SendAll(client, clients, cache, line, ms);
    sock, gone := there.Carry(line.sent);
    SaidIsComing(frames, ms, line.sent, lost, sock.incoming, gone);
    ghost var some := ms[..|frames|];
    answers, back, missing := Respond(servers, sock, evaluate, version, seriType, turns, frames, some, gone + lost);
    AnswersToFirst(answers, evaluate, ms, |frames|);
    reply := sock.sent;
  }

  lemma AnswersToFirst(answers: seq<Message>, evaluate: Evaluator, ms: seq<Message>, k: nat)
    requires Complete(evaluate) && k <= |ms| && IsAnswers(answers, evaluate, ms[..k])
    ensures IsAnswers(answers, evaluate, ms)
    ensures k == |ms| && AllRight(answers, evaluate, ms[..k]) ==> AllRight(answers, evaluate, ms)
  {
    hide Result;
    assert k == |ms| ==> ms[..k] == ms;
  }

  /**
   * Calls of scripts on a server. The client sends its requests, the server serves
   * the part of them that arrives, and the client receives the part of the replies
   * that arrives. What the client hears are the results of evaluating its own
   * scripts on its own arrays, in the order of its requests, and last perhaps an
   * error; if nothing fails, the result of every one.
   */
  method RemoteCalls(client: Serializer, clients: Registry, cache: FncPointers, line: Socket, ms: seq<Message>, there: Network,
                     servers: Registry, evaluate: Evaluator, version: int, seriType: int, serverTurns: nat, back: Network,
                     receiver: Serializer, timeoutMs: int, turns: nat, slots: array<NwArray?>, ghost views: seq<Option<Arr>>)
    returns (heard: seq<Heard>, ghost answers: seq<Message>)
    requires client.Valid() && Usable(clients, cache) && CanSay(clients.history, client.buf.bytes, ms) && line.sent == []
    requires FitsInt32(version) && FitsInt32(seriType) && Polite(evaluate) && Complete(evaluate)
    requires servers.Valid() && OnlyRaw1(servers.history) && AllServed(servers.history, ms)
    requires receiver.Valid() && CanHear(clients.history, ms) && Shows(slots, views) && !back.CanMislead()
    modifies client.buf, cache, line, receiver.buf, slots, slots[..]
    ensures IsAnswers(answers, evaluate, ms) && HeardRight(heard, answers, slots.Length)
    ensures line.steady && there.Perfect() && back.Perfect() && serverTurns >= |ms| && turns >= |ms| ==>
      |heard| == |ms| && AllRight(answers, evaluate, ms)
  {
    hide Shows, CanSay, HeardRight, Polite, IsAnswers, Result, FramesOf, Join, AllServed, CanReceive;
    var reply, sock;
    ghost var frames, missing, gone;
    reply, answers, frames, missing := AskServer(client, clients, cache, line, ms, there, servers, evaluate, version, seriType, serverTurns);
    sock, gone := back.Carry(reply);
    AnswersCanBeHeard(clients.history, answers, evaluate, ms);
    assert sock.incoming + (gone + missing) == reply + missing;
    assert frames[0..] == frames;
    heard := HearAll(receiver, clients, cache, sock, timeoutMs, slots, turns, views, frames, answers, gone + missing);
  }
}

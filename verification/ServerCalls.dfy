/** One request of a client and the reply to it, and the contact thread that serves a connection. */
module ServerCalls {
  import opened Common
  import opened Octets
  import opened NwArrays
  import opened Raw1
  import opened Raw1Codec
  import opened Frames
  import opened Versioning
  import opened Wire
  import opened Serializers

  const MAXIMUM_NUMBER_OF_IN_AND_OUTS := 50
  const CALL_TIMEOUT_MS := 10000
  const SERVER_BIG_TIMEOUT_MS := -1
  const OK: Bytes := [79, 75]
  const ERROR: Bytes := [69, 114, 114, 111, 114]

  /** What evaluating a script leaves to be sent back. */
  datatype Evaluation = Fine(outputs: seq<Option<Arr>>) | Wrong(outputs: seq<Option<Arr>>) {
    function Info(): Bytes { if Fine? then OK else ERROR }
    function Code(): int { if Fine? then 0 else -1 }
    predicate CanBeSent() { Sendable(Info(), Code(), outputs) }
  }

  /** MATLAB: what a script does with these inputs and this number of expected outputs. */
  type Evaluator = (Bytes, seq<Option<Arr>>, int) -> Evaluation

  ghost predicate Polite(evaluate: Evaluator) {
    forall name, inputs, outs :: evaluate(name, inputs, outs).CanBeSent()
  }

  function Nothing(): (r: seq<Option<Arr>>)
    ensures |r| == MAXIMUM_NUMBER_OF_IN_AND_OUTS
  {
    seq(MAXIMUM_NUMBER_OF_IN_AND_OUTS, i => None)
  }

  function AtMost(outs: int): int {
    if outs > MAXIMUM_NUMBER_OF_IN_AND_OUTS then MAXIMUM_NUMBER_OF_IN_AND_OUTS else outs
  }

  /** The meaning of a request that arrived as frame `f`. */
  function Answer(evaluate: Evaluator, regs: seq<Registration>, f: Bytes): Evaluation
    requires Readable(f)
  {
    var deserialize := Handler(regs, Read32(f, VERSION), Read32(f, TYPE), DESERI_TO_RES);
    var toArgs := Handler(regs, Read32(f, VERSION), Read32(f, TYPE), RES_TO_ARGS);
    var count := WantedCount(Body(f), MAXIMUM_NUMBER_OF_IN_AND_OUTS);
    var n := BodyCode(deserialize, toArgs, count);
    var inputs := BodyArrays(deserialize, toArgs, Body(f), MAXIMUM_NUMBER_OF_IN_AND_OUTS, Nothing());
    if n < 0 || n > |inputs| then Wrong([])
    else
      var outs := Read32(f, NUM_OUTS);
      evaluate(CString(NameBytes(f)), inputs[..n], if outs <= 50 then outs else 50)
  }

  /** The bytes sent in answer to a request with these tags: one frame with the same tags, or nothing when no serializer is registered for them. */
  ghost predicate IsReply(reply: Bytes, regs: seq<Registration>, version: int, seriType: int, e: Evaluation)
    requires FitsInt32(version) && FitsInt32(seriType)
  {
    if CanSend(regs, version, seriType) then IsFrame(reply, version, seriType, if e.Fine? then OK else ERROR, if e.Fine? then 0 else -1, e.outputs)
    else reply == []
  }

  lemma WrongCanBeSent()
    ensures Wrong([]).CanBeSent()
  {
    assert Offset([], 0) == COUNT_LEN;
  }

  /** The inputs are in the slots: evaluate the script. */
  method Evaluate(ser: Serializer, slots: array<NwArray?>, n: nat, evaluate: Evaluator,
                  ghost views: seq<Option<Arr>>, ghost f: Bytes)
    returns (e: Evaluation)
    requires ser.Valid() && Shows(slots, views) && n <= slots.Length
    requires Readable(f) && f <= ser.buf.bytes && 0 in NameBytes(f)
    ensures var outs := Read32(f, NUM_OUTS); e == evaluate(CString(NameBytes(f)), views[..n], if outs <= 50 then outs else 50)
  {
    hide Read32, CString, Decode, WantedCount, Shows;
    var outs := ser.NumOfExpOutsOrError(f);
    var name := ser.MatlabScriptName(f);
    var inputs := Values(slots, n, views);
    e := evaluate(name, inputs, AtMost(outs));
  }

  lemma CountIsCut(s: Bytes, slots: nat)
    requires COUNT_LEN <= |s|
    ensures WantedCount(s, slots) <= slots
  {
  }

  /** The frame of the request whose header is in buffer `b` and of whose body `got` has come. */
  function RequestFrame(b: Bytes, got: Bytes): Bytes
    requires HEADER_LEN <= |b|
  {
    b[..HEADER_LEN] + got
  }

  /** What the server relies on without checking: the announced bytes have a place, and if they come, they make a well-formed request. */
  predicate RequestSafe(b: Bytes, rest: Bytes) {
    && HEADER_LEN <= |b|
    && var all := Read32(b, NUM_AFTER_HEADER);
       all > 0 ==> Room(b, rest) && (all <= |rest| ==> WellFormed(RequestFrame(b, rest[..all]), MAXIMUM_NUMBER_OF_IN_AND_OUTS))
  }

  lemma SafeIsAnnounced(b: Bytes, rest: Bytes)
    requires RequestSafe(b, rest) && Read32(b, NUM_AFTER_HEADER) > 0
    ensures Announced(b, rest, MAXIMUM_NUMBER_OF_IN_AND_OUTS)
  {
    hide Read32, CString, Decode;
    var all := Read32(b, NUM_AFTER_HEADER);
    if all <= |rest| {
      var f := RequestFrame(b, rest[..all]);
      FrameInBuffer(f, f);
    }
  }

  /** What the answer must be when `got` has come of the body announced in `b`. */
  ghost predicate Answered(evaluate: Evaluator, regs: seq<Registration>, b: Bytes, got: Bytes, e: Evaluation)
    requires HEADER_LEN <= |b|
  {
    var f := RequestFrame(b, got);
    if 0 < Read32(b, NUM_AFTER_HEADER) == |got| then
      WellFormed(f, MAXIMUM_NUMBER_OF_IN_AND_OUTS) && e == Answer(evaluate, regs, f)
    else e == Wrong([])
  }

  /** Receive the body and evaluate the script; `whole` tells whether the body came, which the source does not look at. */
  method AnswerRequest(ser: Serializer, registry: Registry, cache: FncPointers, sock: Socket, evaluate: Evaluator)
    returns (e: Evaluation, whole: bool, ghost got: Bytes)
    requires ser.Valid() && Usable(registry, cache) && RequestSafe(ser.buf.bytes, sock.incoming)
    modifies ser.buf, cache, sock`incoming, sock`moves, sock`selects
    ensures ser.Valid() && Usable(registry, cache) && SameTags(old(ser.buf.bytes), ser.buf.bytes)
    ensures old(sock.incoming) == got + sock.incoming
    ensures got == [] || |got| <= old(Read32(ser.buf.bytes, NUM_AFTER_HEADER))
    ensures Answered(evaluate, registry.history, old(ser.buf.bytes), got, e)
    ensures whole == (|got| == old(Read32(ser.buf.bytes, NUM_AFTER_HEADER)))
    ensures sock.steady && 0 < old(Read32(ser.buf.bytes, NUM_AFTER_HEADER)) <= |old(sock.incoming)| ==> whole
  {
    hide Read32, Decode, WantedCount, Shows, BodyArrays, Handler, Put, Decoding, WellFormed;
    e, got := Wrong([]), [];
    var all := ser.buf.GetInt32(NUM_AFTER_HEADER);
    if all > 0 {
      SafeIsAnnounced(ser.buf.bytes, sock.incoming);
      var before := |sock.incoming|;
      var slots := NoArrays();
      var n;
      n, got := ser.ReceiveScriptNameAndArrays2(registry, cache, sock, CALL_TIMEOUT_MS, slots, Nothing());
      BodyKeepsTags(old(ser.buf.bytes), got);
      whole := before - |sock.incoming| == all;
      assert old(sock.incoming)[..|got|] == got;
      if n >= 0 {
        e := AnswerBody(ser, registry, slots, n, evaluate, RequestFrame(old(ser.buf.bytes), got));
      } else if |got| == all {
        RefusedIsWrong(evaluate, registry.history, RequestFrame(old(ser.buf.bytes), got), ser.buf.bytes, n, slots);
      }
    } else {
      whole := all == 0;
    }
  }

  /** A body that is not decoded is answered with an error. */
  lemma RefusedIsWrong(evaluate: Evaluator, regs: seq<Registration>, f: Bytes, b: Bytes, n: int, slots: array<NwArray?>)
    requires WellFormed(f, MAXIMUM_NUMBER_OF_IN_AND_OUTS) && f <= b && Windowed(b) && n < 0
    requires Decoding(regs, b, MAXIMUM_NUMBER_OF_IN_AND_OUTS, Nothing(), n, slots)
    ensures Answer(evaluate, regs, f) == Wrong([])
  {
    hide Read32, CString, Decode, WantedCount, BodyArrays, Handler, Window, Windowed, Shows;
    FrameInBuffer(f, b);
  }

  lemma BodyKeepsTags(b: Bytes, got: Bytes)
    requires HEADER_LEN + |got| <= |b|
    ensures SameTags(b, Put(b, HEADER_LEN, got))
  {
    hide Put;
    PutKeeps32(b, HEADER_LEN, got, VERSION);
    PutKeeps32(b, HEADER_LEN, got, TYPE);
  }

  method NoArrays() returns (slots: array<NwArray?>)
    ensures fresh(slots) && slots.Length == MAXIMUM_NUMBER_OF_IN_AND_OUTS && Shows(slots, Nothing())
    ensures forall i :: 0 <= i < slots.Length ==> slots[i] == null
  {
    slots := new NwArray?[MAXIMUM_NUMBER_OF_IN_AND_OUTS](_ => null);
  }

  method AnswerBody(ser: Serializer, registry: Registry, slots: array<NwArray?>, n: nat, evaluate: Evaluator, ghost f: Bytes)
    returns (e: Evaluation)
    requires ser.Valid() && slots.Length == MAXIMUM_NUMBER_OF_IN_AND_OUTS
    requires WellFormed(f, MAXIMUM_NUMBER_OF_IN_AND_OUTS) && f <= ser.buf.bytes && Windowed(ser.buf.bytes)
    requires Decoding(registry.history, ser.buf.bytes, MAXIMUM_NUMBER_OF_IN_AND_OUTS, Nothing(), n, slots)
    ensures e == Answer(evaluate, registry.history, f)
  {
    hide Read32, CString, Decode, WantedCount, BodyArrays, Handler, Window, Windowed;
    FrameInBuffer(f, ser.buf.bytes);
    CountIsCut(Body(f), MAXIMUM_NUMBER_OF_IN_AND_OUTS);
    ghost var deserialize := Handler(registry.history, Read32(f, VERSION), Read32(f, TYPE), DESERI_TO_RES);
    ghost var toArgs := Handler(registry.history, Read32(f, VERSION), Read32(f, TYPE), RES_TO_ARGS);
    ghost var views := BodyArrays(deserialize, toArgs, Body(f), MAXIMUM_NUMBER_OF_IN_AND_OUTS, Nothing());
    e := Evaluate(ser, slots, n, evaluate, views, f);
  }

  /** Bytes `part` of which were sent: all of them, or a strict prefix. */
  predicate SentOf(whole: bool, reply: Bytes, before: Bytes, after: Bytes) {
    if whole then after == before + reply
    else exists k: nat :: k < |reply| && after == before + reply[..k]
  }

  /**
   * One request, once its header is in the buffer: receive the body, evaluate, and
   * send one reply. `whole` tells whether body and reply went through without a
   * cut, which the source does not look at.
   */
  method CallMatlabFunction(ser: Serializer, registry: Registry, cache: FncPointers, sock: Socket, evaluate: Evaluator)
    returns (whole: bool, ghost e: Evaluation, ghost got: Bytes, ghost reply: Bytes)
    requires ser.Valid() && Usable(registry, cache) && Polite(evaluate) && RequestSafe(ser.buf.bytes, sock.incoming)
    modifies ser.buf, cache, sock
    ensures ser.Valid() && Usable(registry, cache) && SameTags(old(ser.buf.bytes), ser.buf.bytes)
    ensures old(sock.incoming) == got + sock.incoming
    ensures got == [] || |got| <= old(Read32(ser.buf.bytes, NUM_AFTER_HEADER))
    ensures Answered(evaluate, registry.history, old(ser.buf.bytes), got, e)
    ensures IsReply(reply, registry.history, old(Read32(ser.buf.bytes, VERSION)), old(Read32(ser.buf.bytes, TYPE)), e)
    ensures SentOf(true, reply, old(sock.sent), sock.sent) || SentOf(false, reply, old(sock.sent), sock.sent)
    ensures whole ==> |got| == old(Read32(ser.buf.bytes, NUM_AFTER_HEADER)) && SentOf(true, reply, old(sock.sent), sock.sent)
    ensures !whole && |got| == old(Read32(ser.buf.bytes, NUM_AFTER_HEADER)) ==> SentOf(false, reply, old(sock.sent), sock.sent)
    ensures sock.steady && 0 < old(Read32(ser.buf.bytes, NUM_AFTER_HEADER)) <= |old(sock.incoming)| ==> whole
  {
    hide Read32, Answered, IsFrame, CanSend, RequestSafe, SentOf, Usable, Polite;
    var answer, came;
    answer, came, got := AnswerRequest(ser, registry, cache, sock, evaluate);
    e := answer;
    AnswerCanBeSent(evaluate, registry.history, old(ser.buf.bytes), got, answer);
    var code, f := ser.SendScriptNameAndArrays(registry, cache, sock, Some(answer.Info()), answer.Code(), answer.outputs);
    whole := came && code != E_SEND;
    reply := if CanSend(registry.history, old(Read32(ser.buf.bytes, VERSION)), old(Read32(ser.buf.bytes, TYPE))) then f else [];
    ReplySent(CanSend(registry.history, old(Read32(ser.buf.bytes, VERSION)), old(Read32(ser.buf.bytes, TYPE))), f, code, old(sock.sent), sock.sent);
  }

  lemma ReplySent(can: bool, f: Bytes, code: int, before: Bytes, after: Bytes)
    requires if can then Sent(before, f, code, after) else code == -1 && after == before
    ensures SentOf(code != E_SEND, if can then f else [], before, after)
  {
  }

  lemma AnswerCanBeSent(evaluate: Evaluator, regs: seq<Registration>, b: Bytes, got: Bytes, e: Evaluation)
    requires Polite(evaluate) && HEADER_LEN <= |b| && Answered(evaluate, regs, b, got, e)
    ensures e.CanBeSent()
  {
    hide Sendable;
    WrongCanBeSent();
  }

  // ---- a connection ----

  /** A complete request that the server can serve. */
  predicate IsRequest(f: Bytes) {
    WellFormed(f, MAXIMUM_NUMBER_OF_IN_AND_OUTS) && HEADER_LEN < |f| && FitsInt32(|f|)
  }

  /** `reply` answers request `f`, with the request's own tags. */
  ghost predicate Replies(reply: Bytes, evaluate: Evaluator, regs: seq<Registration>, f: Bytes) {
    Readable(f) && IsReply(reply, regs, Read32(f, VERSION), Read32(f, TYPE), Answer(evaluate, regs, f))
  }

  /** What is sent when request `f` or the reply to it is cut: of the error reply anything, of the right reply not all. */
  ghost predicate CutReply(part: Bytes, evaluate: Evaluator, regs: seq<Registration>, f: Bytes) {
    && Readable(f)
    && exists reply: Bytes :: part <= reply &&
         (IsReply(reply, regs, Read32(f, VERSION), Read32(f, TYPE), Wrong([])) || (part != reply && Replies(reply, evaluate, regs, f)))
  }

  lemma {:induction false} JoinAppend(frames: seq<Bytes>, f: Bytes)
    ensures Join(frames + [f]) == Join(frames) + f
  {
    if frames == [] {
      assert [] + [f] == [f] && Join([f]) == f + Join([]);
    } else {
      assert (frames + [f])[1..] == frames[1..] + [f];
      JoinAppend(frames[1..], f);
    }
  }

  /** With the header of request `f` in the buffer, what comes next, of which `lost` may be missing, is safe to take. */
  lemma RequestAhead(f: Bytes, rest: Bytes, b: Bytes, incoming: Bytes, lost: Bytes)
    requires IsRequest(f) && incoming + lost == f[HEADER_LEN..] + rest
    requires HoldsRest(b) && f[..HEADER_LEN] <= b
    ensures RequestSafe(b, incoming) && Read32(b, NUM_AFTER_HEADER) == |f| - HEADER_LEN
    ensures lost == [] ==> |f| - HEADER_LEN <= |incoming|
  {
    hide Read32, CString, Decode;
    HeaderOfRequest(f, b);
    var all := |f| - HEADER_LEN;
    if all <= |incoming| {
      assert (incoming + lost)[..all] == incoming[..all] && (f[HEADER_LEN..] + rest)[..all] == f[HEADER_LEN..];
      assert RequestFrame(b, incoming[..all]) == f;
    }
  }

  /** A request that has come whole has been answered as it should. */
  lemma WholeAnswer(evaluate: Evaluator, regs: seq<Registration>, b: Bytes, f: Bytes, e: Evaluation)
    requires HEADER_LEN < |f| && f[..HEADER_LEN] <= b && Read32(b, NUM_AFTER_HEADER) == |f| - HEADER_LEN
    requires Answered(evaluate, regs, b, f[HEADER_LEN..], e)
    ensures Readable(f) && e == Answer(evaluate, regs, f)
  {
    hide Read32, CString, Decode, WantedCount, BodyArrays, Handler, Readable;
    assert RequestFrame(b, f[HEADER_LEN..]) == f[..HEADER_LEN] + f[HEADER_LEN..] == f;
  }

  lemma HeaderOfRequest(f: Bytes, b: Bytes)
    requires HEADER_LEN <= |f| && f[..HEADER_LEN] <= b
    ensures b[..HEADER_LEN] == f[..HEADER_LEN]
    ensures Read32(b, NUM_AFTER_HEADER) == Read32(f, NUM_AFTER_HEADER)
    ensures Read32(b, VERSION) == Read32(f, VERSION) && Read32(b, TYPE) == Read32(f, TYPE)
  {
    PrefixKeepsHeader(f[..HEADER_LEN], b);
    PrefixKeepsHeader(f[..HEADER_LEN], f);
    assert HeaderOf(f) == HeaderOf(b);
  }

  lemma HeadTaken(f: Bytes, rest: Bytes, head: Bytes, left: Bytes)
    requires IsRequest(f) && f + rest == head + left && |head| == HEADER_LEN
    ensures head == f[..HEADER_LEN] && left == f[HEADER_LEN..] + rest
  {
    assert f == f[..HEADER_LEN] + f[HEADER_LEN..];
    assert f + rest == f[..HEADER_LEN] + (f[HEADER_LEN..] + rest);
    SameSplit(f[..HEADER_LEN], f[HEADER_LEN..] + rest, head, left);
  }

  /**
   * Request `f`, whose header has been taken: if nothing is cut, it is taken whole
   * and its reply is sent; else what is sent is `part`.
   */
  method Serve(ser: Serializer, registry: Registry, cache: FncPointers, sock: Socket, evaluate: Evaluator,
               ghost f: Bytes, ghost rest: Bytes, ghost lost: Bytes)
    returns (whole: bool, ghost part: Bytes)
    requires ser.Valid() && Usable(registry, cache) && Polite(evaluate)
    requires IsRequest(f) && HoldsRest(ser.buf.bytes) && f[..HEADER_LEN] <= ser.buf.bytes
    requires sock.incoming + lost == f[HEADER_LEN..] + rest
    modifies ser.buf, cache, sock
    ensures ser.Valid() && Usable(registry, cache) && sock.sent == old(sock.sent) + part
    ensures if whole then sock.incoming + lost == rest && Replies(part, evaluate, registry.history, f)
            else CutReply(part, evaluate, registry.history, f)
    ensures exists got: Bytes :: |got| <= |f| - HEADER_LEN && old(sock.incoming) == got + sock.incoming
    ensures sock.steady && lost == [] ==> whole
  {
    hide Read32, WellFormed, IsReply, Usable, HoldsRest, Polite, Answered, Answer, RequestSafe, SentOf, CutReply, Replies;
    ghost var b, was := ser.buf.bytes, sock.incoming;
    HeaderOfRequest(f, b);
    RequestAhead(f, rest, b, was, lost);
    ghost var e, got, reply;
    whole, e, got, reply := CallMatlabFunction(ser, registry, cache, sock, evaluate);
    part := PartOf(reply, old(sock.sent), sock.sent);
    if |got| == |f| - HEADER_LEN {
      assert was + lost == got + (sock.incoming + lost);
      SameSplit(f[HEADER_LEN..], rest, got, sock.incoming + lost);
    }
    ServedPart(evaluate, registry.history, b, f, got, e, reply, part);
  }

  /** What has been sent of a reply. */
  lemma PartOf(reply: Bytes, before: Bytes, after: Bytes) returns (part: Bytes)
    requires SentOf(true, reply, before, after) || SentOf(false, reply, before, after)
    ensures part <= reply && after == before + part
    ensures SentOf(true, reply, before, after) ==> part == reply
    ensures SentOf(false, reply, before, after) ==> part != reply
  {
    part := after[|before|..];
  }

  lemma ServedPart(evaluate: Evaluator, regs: seq<Registration>, b: Bytes, f: Bytes, got: Bytes, e: Evaluation, reply: Bytes, part: Bytes)
    requires IsRequest(f) && f[..HEADER_LEN] <= b && part <= reply
    requires Answered(evaluate, regs, b, got, e) && IsReply(reply, regs, Read32(b, VERSION), Read32(b, TYPE), e)
    requires |got| == |f| - HEADER_LEN ==> got == f[HEADER_LEN..]
    ensures |got| == |f| - HEADER_LEN ==> Replies(reply, evaluate, regs, f)
    ensures |got| != |f| - HEADER_LEN || part != reply ==> CutReply(part, evaluate, regs, f)
  {
    hide Read32, CString, Decode, IsReply, Answer;
    HeaderOfRequest(f, b);
    if |got| == |f| - HEADER_LEN { WholeAnswer(evaluate, regs, b, f, e); }
  }

  ghost predicate AllRequests(frames: seq<Bytes>) {
    forall i :: 0 <= i < |frames| ==> IsRequest(frames[i])
  }

  /** One reply to each of the first requests, in their order. */
  ghost predicate RepliesTo(replies: seq<Bytes>, evaluate: Evaluator, regs: seq<Registration>, frames: seq<Bytes>) {
    |replies| <= |frames| && forall i :: 0 <= i < |replies| ==> Replies(replies[i], evaluate, regs, frames[i])
  }

  /** What has been sent since `before`: the replies, and after a cut also a part of the next one. */
  ghost predicate SentSince(cut: bool, replies: seq<Bytes>, part: Bytes, evaluate: Evaluator, regs: seq<Registration>,
                            frames: seq<Bytes>, before: Bytes, sent: Bytes)
  {
    && RepliesTo(replies, evaluate, regs, frames) && sent == before + Join(replies) + part
    && if cut then |replies| < |frames| && CutReply(part, evaluate, regs, frames[|replies|]) else part == []
  }

  lemma SentNumbers(cut: bool, replies: seq<Bytes>, part: Bytes, evaluate: Evaluator, regs: seq<Registration>,
                    frames: seq<Bytes>, before: Bytes, sent: Bytes)
    requires SentSince(cut, replies, part, evaluate, regs, frames, before, sent)
    ensures if cut then |replies| < |frames| else |replies| <= |frames| && part == []
  {
  }

  lemma NothingSent(evaluate: Evaluator, regs: seq<Registration>, frames: seq<Bytes>, sent: Bytes)
    ensures SentSince(false, [], [], evaluate, regs, frames, sent, sent)
  {
  }

  lemma RepliesOneMore(replies: seq<Bytes>, reply: Bytes, evaluate: Evaluator, regs: seq<Registration>, frames: seq<Bytes>)
    requires |replies| < |frames| && RepliesTo(replies, evaluate, regs, frames)
    requires Replies(reply, evaluate, regs, frames[|replies|])
    ensures RepliesTo(replies + [reply], evaluate, regs, frames)
  {
    hide Replies;
  }

  lemma SentOneMore(replies: seq<Bytes>, reply: Bytes, evaluate: Evaluator, regs: seq<Registration>,
                    frames: seq<Bytes>, before: Bytes, sent: Bytes)
    requires SentSince(false, replies, [], evaluate, regs, frames, before, sent)
    requires |replies| < |frames| && Replies(reply, evaluate, regs, frames[|replies|])
    ensures SentSince(false, replies + [reply], [], evaluate, regs, frames, before, sent + reply)
  {
    hide Replies, Join;
    RepliesOneMore(replies, reply, evaluate, regs, frames);
    JoinAppend(replies, reply);
    assert sent + reply == before + Join(replies + [reply]) + [];
  }

  lemma CutNow(replies: seq<Bytes>, part: Bytes, evaluate: Evaluator, regs: seq<Registration>,
               frames: seq<Bytes>, before: Bytes, sent: Bytes)
    requires SentSince(false, replies, [], evaluate, regs, frames, before, sent)
    requires |replies| < |frames| && CutReply(part, evaluate, regs, frames[|replies|])
    ensures SentSince(true, replies, part, evaluate, regs, frames, before, sent + part)
  {
    hide Replies, Join, CutReply;
    assert before + Join(replies) + [] == before + Join(replies);
  }

  /** From frame `k` on all is still to come, but for the first bytes of that frame, of which at most `most` have been taken. */
  ghost predicate TakenAtMost(most: nat, k: nat, frames: seq<Bytes>, incoming: Bytes, lost: Bytes) {
    exists taken: Bytes :: |taken| <= most && StillToCome(k, frames, taken + incoming, lost)
  }

  lemma NothingTaken(k: nat, frames: seq<Bytes>, incoming: Bytes, lost: Bytes)
    requires StillToCome(k, frames, incoming, lost)
    ensures TakenAtMost(HEADER_LEN - 1, k, frames, incoming, lost)
  {
    hide StillToCome;
    assert [] + incoming == incoming;
  }

  lemma NextIsThere(k: nat, frames: seq<Bytes>, was: Bytes, lost: Bytes)
    requires AllRequests(frames) && StillToCome(k, frames, was, lost)
    ensures k <= |frames| && (lost == [] && k < |frames| ==> HEADER_LEN <= |was|)
  {
    hide WellFormed;
    if k < |frames| { assert IsRequest(frames[k]); }
  }

  /**
   * One turn of the contact thread's loop. It serves the next request, or finds
   * nothing, or ends the loop because of an error with the header. `cut` tells
   * whether the body of the request or the reply was cut, `stray` whether a header
   * was reported although none came. The source does not notice either; this turn
   * is followed up to there.
   */
  method Turn(ser: Serializer, registry: Registry, cache: FncPointers, sock: Socket, evaluate: Evaluator,
              ghost frames: seq<Bytes>, ghost before: Bytes, ghost replies: seq<Bytes>, ghost lost: Bytes)
    returns (run: bool, cut: bool, stray: bool, ghost now: seq<Bytes>, ghost part: Bytes)
    requires ser.Valid() && Usable(registry, cache) && Polite(evaluate) && AllRequests(frames)
    requires SentSince(false, replies, [], evaluate, registry.history, frames, before, sock.sent)
    requires StillToCome(|replies|, frames, sock.incoming, lost)
    modifies ser.buf, cache, sock
    ensures ser.Valid() && Usable(registry, cache)
    ensures SentSince(cut, now, part, evaluate, registry.history, frames, before, sock.sent)
    ensures now == replies || (run && !cut && |now| == |replies| + 1 && now[..|replies|] == replies)
    ensures run && !cut ==> StillToCome(|now|, frames, sock.incoming, lost)
    ensures run && !cut && now == replies ==> sock.incoming == old(sock.incoming)
    ensures !run ==> !cut && TakenAtMost(HEADER_LEN - 1, |now|, frames, sock.incoming, lost)
    ensures cut ==> TakenAtMost(|frames[|now|]|, |now|, frames, sock.incoming, lost)
    ensures stray ==> sock.CanMislead() && run && !cut && now == replies
    ensures old(sock.NextSelect()) != 0 ==>
      !cut && !stray && now == replies && sock.incoming == old(sock.incoming) && (run <==> old(sock.NextSelect()) == SOCKET_TIMEOUT)
    ensures run && !cut && !stray && now == replies ==> old(sock.NextSelect()) == SOCKET_TIMEOUT
    ensures sock.steady && lost == [] && |replies| < |frames| ==> run && !cut && !stray && |now| == |replies| + 1
  {
    hide Read32, WellFormed, Usable, HoldsRest, Polite, Replies, CutReply, Join, SentSince;
    ghost var k, was, sent := |replies|, sock.incoming, sock.sent;
    NextIsThere(k, frames, was, lost);
    run, cut, stray, now, part := true, false, false, replies, [];
    var available := |sock.incoming|;
    var action;
    ghost var head, trace;
    action, head, trace := ser.ReceiveHeader(sock, SERVER_BIG_TIMEOUT_MS);
    if action == REMOTE_CALL && |sock.incoming| == available {
      stray := true;
    } else if action == REMOTE_CALL {
      HeaderMeansRequest(frames, k, was, head, sock.incoming, lost);
      ghost var f, rest, mid := frames[k], Join(frames[k + 1..]), sock.incoming;
      var whole;
      whole, part := Serve(ser, registry, cache, sock, evaluate, f, rest, lost);
      cut := !whole;
      if whole {
        SentOneMore(replies, part, evaluate, registry.history, frames, before, sent);
        now, part := replies + [part], [];
      } else {
        CutNow(replies, part, evaluate, registry.history, frames, before, sent);
        TakenPart(k, frames, was, head, mid, sock.incoming, lost);
      }
    } else if action != SOCKET_TIMEOUT {
      assert StillToCome(k, frames, head + sock.incoming, lost);
      run := false;
    }
  }

  /**
   * The contact thread, up to the first request or reply that is cut in the
   * middle, or the first header reported although none came. `turns` is how long the server runs. Clients send complete requests
   * `frames`, of whose bytes the last, `lost`, may be missing. Whatever the network
   * does, what has been sent is one reply for each request received, in their
   * order, each with its request's own version and type; after a cut, also a part
   * of the reply to the request that was cut, or of an error reply.
   */
  method ContactThread(registry: Registry, sock: Socket, evaluate: Evaluator, version: int, seriType: int, turns: nat,
                       ghost frames: seq<Bytes>, ghost lost: Bytes)
    returns (cut: bool, stray: bool, ghost replies: seq<Bytes>, ghost part: Bytes)
    requires FitsInt32(version) && FitsInt32(seriType) && Polite(evaluate)
    requires registry.Valid() && OnlyRaw1(registry.history)
    requires AllRequests(frames) && StillToCome(0, frames, sock.incoming, lost)
    modifies sock
    ensures SentSince(cut, replies, part, evaluate, registry.history, frames, old(sock.sent), sock.sent)
    ensures !cut ==> TakenAtMost(HEADER_LEN - 1, |replies|, frames, sock.incoming, lost)
    ensures cut ==> |replies| < |frames| && TakenAtMost(|frames[|replies|]|, |replies|, frames, sock.incoming, lost)
    ensures stray ==> sock.CanMislead() && !cut
    ensures sock.steady && lost == [] && turns >= |frames| ==> !cut && |replies| == |frames|
  {
    hide SentSince, Polite, AllRequests, StillToCome;
    NothingSent(evaluate, registry.history, frames, sock.sent);
    var ser := new Serializer(version, seriType);
    var cache := new FncPointers();
    replies, part := [], [];
    var run := true;
    cut, stray := false, false;
    var turn := 0;
    while turn < turns && run && !cut && !stray
      invariant ser.Valid() && fresh(ser) && fresh(ser.buf) && fresh(cache) && Usable(registry, cache)
      invariant turn <= turns && (!cut ==> part == [])
      invariant SentSince(cut, replies, part, evaluate, registry.history, frames, old(sock.sent), sock.sent)
      invariant run && !cut ==> StillToCome(|replies|, frames, sock.incoming, lost)
      invariant !run && !cut ==> TakenAtMost(HEADER_LEN - 1, |replies|, frames, sock.incoming, lost)
      invariant |replies| <= |frames| && (cut ==> |replies| < |frames|)
      invariant cut ==> TakenAtMost(|frames[|replies|]|, |replies|, frames, sock.incoming, lost)
      invariant sock.steady && lost == [] && |replies| < |frames| ==> run && !stray && |replies| == turn
      invariant stray ==> sock.CanMislead() && !cut
      invariant sock.steady && lost == [] ==> !cut
    {
      run, cut, stray, replies, part := Turn(ser, registry, cache, sock, evaluate, frames, old(sock.sent), replies, lost);
      SentNumbers(cut, replies, part, evaluate, registry.history, frames, old(sock.sent), sock.sent);
      turn := turn + 1;
    }
    if run && !cut { NothingTaken(|replies|, frames, sock.incoming, lost); }
  }

  /** Of a request that was cut, no more has been taken than it has. */
  lemma TakenPart(k: nat, frames: seq<Bytes>, was: Bytes, head: Bytes, mid: Bytes, incoming: Bytes, lost: Bytes)
    requires k < |frames| && StillToCome(k, frames, was, lost) && was == head + mid
    requires exists got: Bytes :: |got| <= |frames[k]| - |head| && mid == got + incoming
    ensures TakenAtMost(|frames[k]|, k, frames, incoming, lost)
  {
    hide StillToCome;
    var got: Bytes :| |got| <= |frames[k]| - |head| && mid == got + incoming;
    assert was == (head + got) + incoming;
  }

  /** A header that has come is that of the next request. */
  lemma HeaderMeansRequest(frames: seq<Bytes>, k: nat, was: Bytes, head: Bytes, left: Bytes, lost: Bytes)
    requires AllRequests(frames) && StillToCome(k, frames, was, lost)
    requires was == head + left && |head| == HEADER_LEN
    ensures k < |frames| && head == frames[k][..HEADER_LEN]
    ensures left + lost == frames[k][HEADER_LEN..] + Join(frames[k + 1..])
  {
    hide IsRequest;
    assert was + lost == head + (left + lost);
    assert frames[k..][1..] == frames[k + 1..];
    HeadTaken(frames[k], Join(frames[k + 1..]), head, left + lost);
  }
}

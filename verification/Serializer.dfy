/** The reusable message buffer of one connection end, sending and receiving whole messages. */
module Serializers {
  import opened Common
  import opened Octets
  import opened NwArrays
  import opened Raw1
  import opened Raw1Codec
  import opened Frames
  import opened Versioning
  import opened Wire

  const REMOTE_CALL := 0

  /** The registry holds the RAW1 functions, under any number of (version, type) pairs; single functions may be missing. */
  const RAW1 := Entry(1, 2, 3, 4)

  predicate OnlyRaw1(regs: seq<Registration>) {
    forall i, which :: 0 <= i < |regs| ==> regs[i].entry.Get(which) == 0 || regs[i].entry.Get(which) == RAW1.Get(which)
  }

  lemma {:induction false} HandlerIsRaw1(regs: seq<Registration>, version: bv32, seriType: bv32, which: Fnc)
    requires OnlyRaw1(regs)
    ensures var fn := Wanted(Found(regs, version, seriType), which); fn == 0 || fn == RAW1.Get(which)
  {
    if regs != [] {
      assert regs[0].entry.Get(which) == 0 || regs[0].entry.Get(which) == RAW1.Get(which);
      HandlerIsRaw1(regs[1..], version, seriType, which);
    }
  }

  /** A registry, and the cache of one connection in front of it. */
  ghost predicate Usable(registry: Registry, cache: FncPointers)
    reads registry, cache
  {
    registry.Valid() && OnlyRaw1(registry.history) && cache.Agrees(registry.entries)
  }

  /** An int32 as bits. */
  function Bits(x: int): bv32
    requires FitsInt32(x)
  {
    (if x < 0 then x + TWO32 else x) as bv32
  }

  /** Different tags have different bits, and a negative tag has the sign bit. */
  lemma BitsTell(x: int, y: int)
    requires FitsInt32(x) && FitsInt32(y)
    ensures Bits(x) == Bits(y) <==> x == y
    ensures Negative(Bits(x)) <==> x < 0
  {
    hide Bits, Negative;
    SignBit(Bits(x));
    BitsValue(x);
    BitsValue(y);
  }

  lemma BitsValue(x: int)
    requires FitsInt32(x)
    ensures Bits(x) as int == if x < 0 then x + TWO32 else x
  {
    var b := BitsFor(if x < 0 then x + TWO32 else x);
    ThereAndBack(b);
  }

  /** Every number below 2^32 has its bits: those of its half, and one more. */
  lemma {:induction false} BitsFor(n: nat) returns (b: bv32)
    requires n < TWO32
    ensures b as int == n
  {
    if n == 0 {
      b := 0;
    } else {
      var half := BitsFor(n / 2);
      assert half < 0x8000_0000;
      Doubled(half);
      b := if n % 2 == 0 then half << 1 else (half << 1) | 1;
    }
  }

  lemma Doubled(b: bv32)
    requires b < 0x8000_0000
    ensures (b << 1) as int == 2 * (b as int) && ((b << 1) | 1) as int == 2 * (b as int) + 1
  {
  }

  lemma ThereAndBack(b: bv32)
    ensures (b as int) as bv32 == b
  {
  }

  lemma SignBit(b: bv32)
    ensures Negative(b) <==> b as int >= TWO31
  {
  }

  /** The function found for these tags, 0 when there is none. */
  function Handler(regs: seq<Registration>, version: int, seriType: int, which: Fnc): Fn
    requires FitsInt32(version) && FitsInt32(seriType)
  {
    Wanted(Found(regs, Bits(version), Bits(seriType)), which)
  }

  /**
   * After functions have been registered for tags that nothing answered for, a
   * connection with these tags finds each of them; one with other tags finds what it
   * found before, unless both have the same negative type.
   */
  lemma OwnTagsAreFound(regs: seq<Registration>, version: int, seriType: int, a: Fn, b: Fn, c: Fn, d: Fn, w: int, u: int, which: Fnc)
    requires FitsInt32(version) && FitsInt32(seriType) && FitsInt32(w) && FitsInt32(u)
    requires Found(regs, Bits(version), Bits(seriType)) == None
    ensures var now := regs + [Registration(Bits(version), Bits(seriType), Entry(a, b, c, d))];
      && Handler(now, version, seriType, SERI_TO_RES) == a && Handler(now, version, seriType, RES_TO_BTSTREAM) == b
      && Handler(now, version, seriType, DESERI_TO_RES) == c && Handler(now, version, seriType, RES_TO_ARGS) == d
      && (u != seriType || (w != version && u >= 0) ==> Handler(now, w, u, which) == Handler(regs, w, u, which))
  {
    hide Bits, Found, Negative;
    var last := Registration(Bits(version), Bits(seriType), Entry(a, b, c, d));
    BitsTell(u, seriType);
    BitsTell(w, version);
    FoundAppend(regs, last, Bits(version), Bits(seriType));
    FoundAppend(regs, last, Bits(w), Bits(u));
  }

  function Text(name: Option<Bytes>): Bytes { if name.Some? then name.value else [] }

  /** What `ReceiveHeader` makes of the result of its receive call. */
  function HeaderCode(received: int): int {
    if received == HEADER_LEN then REMOTE_CALL else if received > 0 then -1 else received
  }

  /** The lengths agree, the name ends, and the records stay inside: what a sender of this protocol produces. */
  predicate WellFormed(f: Bytes, slots: nat) {
    Readable(f) && 0 in NameBytes(f) && Decode(Body(f), slots).inside
  }

  /** The argument bytes that the header in `b` tells of are there. */
  predicate Windowed(b: Bytes) {
    HEADER_LEN <= |b| && COUNT_LEN <= Read32(b, BYTE_LENGTH) <= |b| - HEADER_LEN
  }

  function Window(b: Bytes): (r: Bytes)
    requires Windowed(b)
    ensures |r| == Read32(b, BYTE_LENGTH)
  {
    b[HEADER_LEN..HEADER_LEN + Read32(b, BYTE_LENGTH)]
  }

  /** Decoding what `b` holds does not leave its argument bytes. */
  predicate Decodable(b: Bytes, slots: nat) {
    Windowed(b) && Decode(Window(b), slots).inside
  }

  /** The bytes that the header in `b` announces have a place behind it, or all that is still to come has. */
  predicate Room(b: Bytes, rest: Bytes) {
    HEADER_LEN <= |b| && (HEADER_LEN + Read32(b, NUM_AFTER_HEADER) <= |b| || HEADER_LEN + |rest| <= |b|)
  }

  /**
   * What the receiver relies on without checking: the announced bytes have a place,
   * and if they come, they decode. With none announced it is what the buffer holds
   * already that may be decoded.
   */
  predicate Announced(b: Bytes, rest: Bytes, slots: nat) {
    && Room(b, rest)
    && var all := Read32(b, NUM_AFTER_HEADER);
       if all > 0 then all <= |rest| ==> Decodable(b[..HEADER_LEN] + rest[..all], slots)
       else all == 0 || IsRecvError(all) ==> Decodable(b, slots)
  }

  /** The receiver takes the body for complete: all announced bytes came, or the announced number is what a receive of none ends with. */
  predicate Accepted(all: int, got: Bytes, none: int) {
    if all > 0 then |got| == all else none == all
  }

  /** The code for a body that did not come: that of the failed wait, of the failed or closed connection, or -2 when too little came. */
  predicate RefusedWith(code: int, got: Bytes, select: SelectCode) {
    && code < 0 && (select != 0 ==> code == select)
    && if got != [] then code == -2 || code == E_RECEIVE else code == -2 || IsRecvError(code)
  }

  /** Room for the announced bytes there is exactly if their number and that of the header fit an int32. */
  predicate HoldsRest(b: Bytes) {
    && HEADER_LEN <= |b|
    && (HEADER_LEN + Read32(b, NUM_AFTER_HEADER) <= |b| <==> FitsInt32(HEADER_LEN + Read32(b, NUM_AFTER_HEADER)))
  }

  /** What `Announced` asks, for the message whose header is next on stream `s`; `b` is the buffer before it. */
  predicate StreamAhead(b: Bytes, s: Bytes, slots: nat)
    requires HEADER_LEN <= |b|
  {
    HEADER_LEN <= |s| ==>
      var h, rest := Put(b, 0, s[..HEADER_LEN]), s[HEADER_LEN..];
      && (FitsInt32(HEADER_LEN + Read32(h, NUM_AFTER_HEADER)) || HEADER_LEN + |rest| <= |b|)
      && var all := Read32(h, NUM_AFTER_HEADER);
         if all > 0 then all <= |rest| ==> Decodable(h[..HEADER_LEN] + rest[..all], slots)
         else all == 0 || IsRecvError(all) ==> Decodable(h, slots)
  }

  /** What `f` says is in the buffer, which may go on behind it. */
  lemma FrameInBuffer(f: Bytes, b: Bytes)
    requires Readable(f) && f <= b
    ensures Windowed(b) && Window(b) == Body(f)
    ensures Read32(b, VERSION) == Read32(f, VERSION) && Read32(b, TYPE) == Read32(f, TYPE)
    ensures Read32(b, NUM_AFTER_HEADER) == |f| - HEADER_LEN
    ensures Read32(b, NUM_OUTS) == Read32(f, NUM_OUTS) && Read32(b, BYTE_LENGTH) == Read32(f, BYTE_LENGTH)
    ensures 0 in NameBytes(f) ==> CString(b[HEADER_LEN + Read32(f, BYTE_LENGTH)..]) == CString(NameBytes(f))
  {
    PrefixKeepsHeader(f, b);
    assert HeaderOf(f) == HeaderOf(b);
    if 0 in NameBytes(f) {
      assert b[HEADER_LEN + Read32(f, BYTE_LENGTH)..] == NameBytes(f) + b[|f|..];
      CStringOfPrefix(NameBytes(f), b[|f|..]);
    }
  }

  class Serializer {
    const buf: Buffer

    ghost predicate Valid()
      reads this, buf
    {
      HEADER_LEN <= |buf.bytes| && FitsInt32(|buf.bytes|)
    }

    constructor (version: int, seriType: int)
      requires FitsInt32(version) && FitsInt32(seriType)
      ensures Valid() && fresh(buf) && HeaderOf(buf.bytes) == Header(version, seriType, 0, 0, 0)
    {
      buf := new Buffer(HEADER_LEN);
      new;
      ghost var b0 := buf.bytes;
      buf.Write(VERSION, LE32(version));
      ghost var b1 := buf.bytes;
      buf.Write(TYPE, LE32(seriType));
      PutReads32(b0, VERSION, version);
      PutReads32(b1, TYPE, seriType);
      PutKeeps32(b1, TYPE, LE32(seriType), VERSION);
      HeadedFields(buf.bytes, 0, 0, 0);
      SetFields(0, 0, 0);
    }

    method SetFields(afterHeader: int, outs: int, byteLength: int)
      requires Valid() && FitsInt32(afterHeader) && FitsInt32(outs) && FitsInt32(byteLength)
      modifies buf
      ensures Valid() && buf.bytes == Headed(old(buf.bytes), afterHeader, outs, byteLength)
    {
      buf.Write(NUM_AFTER_HEADER, LE32(afterHeader));
      buf.Write(NUM_OUTS, LE32(outs));
      buf.Write(BYTE_LENGTH, LE32(byteLength));
    }

    /** The buffer only grows, and keeps its beginning; a wrapped size does not make it grow. */
    method Resize(newAfterHeader: int)
      requires Valid() && FitsInt32(newAfterHeader)
      modifies buf
      ensures Valid() && old(buf.bytes) <= buf.bytes
      ensures newAfterHeader + HEADER_LEN <= |buf.bytes| <==> FitsInt32(newAfterHeader + HEADER_LEN)
      ensures |buf.bytes| == |old(buf.bytes)| || |buf.bytes| == newAfterHeader + HEADER_LEN
    {
      var newSize := Wrap32(newAfterHeader + HEADER_LEN);
      if newSize > |buf.bytes| { buf.Grow(newSize); }
    }

    /** The header, once the length of the byte stream is known; `b` is the grown buffer. */
    method PutHeader(text: Bytes, outs: int, args: seq<Option<Arr>>) returns (len: nat, ghost b: Bytes)
      requires Valid() && Sendable(text, outs, args)
      modifies buf
      ensures Valid() && old(buf.bytes) <= b && FitsInt32(|b|) && HEADER_LEN + AfterHeader(text, args) <= |b| && len == Total(args)
      ensures buf.bytes == Headed(b, AfterHeader(text, args), outs, len)
      ensures SameTags(old(buf.bytes), buf.bytes)
    {
      hide Put, LE32, Read32, Encode;
      len := SerializeToResource(args);
      Resize(1 + |text| + len);
      b := buf.bytes;
      SetFields(1 + |text| + len, outs, len);
      HeadedFields(b, AfterHeader(text, args), outs, len);
      assert HeaderOf(buf.bytes).version == Read32(b, VERSION) && HeaderOf(buf.bytes).seriType == Read32(b, TYPE);
      FrontStays(old(buf.bytes), b);
    }

    /** The body, and the send call. */
    method PutBodyAndSend(sock: Socket, text: Bytes, outs: int, args: seq<Option<Arr>>, len: nat, ghost b: Bytes)
      returns (r: int, ghost f: Bytes)
      requires HEADER_LEN <= |b| && FitsInt32(|b|) && Sendable(text, outs, args) && len == Total(args)
      requires HEADER_LEN + AfterHeader(text, args) <= |b| && buf.bytes == Headed(b, AfterHeader(text, args), outs, len)
      modifies buf, sock
      ensures Valid() && SameTags(b, buf.bytes) && sock.incoming == old(sock.incoming)
      ensures IsFrame(f, Read32(b, VERSION), Read32(b, TYPE), text, outs, args)
      ensures Sent(old(sock.sent), f, r, sock.sent) && (sock.steady ==> r >= 0)
    {
      hide Put, LE32, Read32, Encode, Headed;
      WriteStream(buf, HEADER_LEN, len, args);
      buf.Write(HEADER_LEN + len, text + [0]);
      assert buf.bytes == FullBuffer(b, text, outs, args);
      FullIsFrame(b, text, outs, args);
      FullTags(b, text, outs, args);
      var all := buf.GetInt32(NUM_AFTER_HEADER);
      f := buf.bytes[..all + HEADER_LEN];
      r := sock.SendData(buf.bytes[..all + HEADER_LEN]);
    }

    /** Find a registered function for the tags now in the buffer. */
    method FindFor(registry: Registry, cache: FncPointers, which: Fnc) returns (fn: Fn)
      requires Valid() && Usable(registry, cache)
      modifies cache
      ensures Usable(registry, cache)
      ensures fn == 0 || fn == RAW1.Get(which)
      ensures fn == Handler(registry.history, Read32(buf.bytes, VERSION), Read32(buf.bytes, TYPE), which)
    {
      var version := buf.GetInt32(VERSION);
      var seriType := buf.GetInt32(TYPE);
      fn := cache.Find(registry, Bits(version), Bits(seriType), which);
      HandlerIsRaw1(registry.history, Bits(version), Bits(seriType), which);
    }

    /**
     * Send one message with the tags now in the buffer. Without both functions
     * nothing is sent; otherwise one frame of the message is, and the result tells
     * whether the network took all of it.
     */
    method SendScriptNameAndArrays(registry: Registry, cache: FncPointers, sock: Socket,
                                   scriptName: Option<Bytes>, outs: int, args: seq<Option<Arr>>)
      returns (r: int, ghost f: Bytes)
      requires Valid() && Usable(registry, cache)
      requires Sendable(Text(scriptName), outs, args)
      modifies buf, cache, sock
      ensures Valid() && Usable(registry, cache) && sock.incoming == old(sock.incoming)
      ensures SameTags(old(buf.bytes), buf.bytes)
      ensures var version, seriType := old(Read32(buf.bytes, VERSION)), old(Read32(buf.bytes, TYPE));
        if CanSend(registry.history, version, seriType) then
          && IsFrame(f, version, seriType, if scriptName.Some? then scriptName.value else [], outs, args)
          && Sent(old(sock.sent), f, r, sock.sent) && (sock.steady ==> r >= 0)
        else
          r == -1 && sock.sent == old(sock.sent)
    {
      f := [];
      var text := Text(scriptName);
      var toResource := FindFor(registry, cache, SERI_TO_RES);
      if toResource == 0 { return -1, f; }
      var len;
      ghost var b;
      len, b := PutHeader(text, outs, args);
      var toStream := FindFor(registry, cache, RES_TO_BTSTREAM);
      if toStream == 0 { return -1, f; }
      FrontStays(old(buf.bytes), b);
      r, f := PutBodyAndSend(sock, text, outs, args, len, b);
    }

    // ---- receiving ----

    /**
     * Receive a header over whatever the buffer holds, and make room for what it
     * announces. A header is reported when one came, and also when every single
     * receive call would have blocked or moved nothing until the time was up: then
     * the buffer still has the old one.
     */
    method ReceiveHeader(sock: Socket, timeoutMs: int) returns (r: int, ghost got: Bytes, ghost trace: seq<Raw>)
      requires Valid()
      modifies buf, sock`incoming, sock`moves, sock`selects
      ensures Valid() && old(sock.incoming) == got + sock.incoming
      ensures |got| <= HEADER_LEN
      ensures r == REMOTE_CALL <==> |got| == HEADER_LEN || BlockedThroughout(trace)
      ensures r == REMOTE_CALL && |got| != HEADER_LEN ==> sock.CanMislead() && got == []
      ensures old(sock.BlocksAtOnce(HEADER_LEN, SMALL_TIMEOUT_MS)) ==> r == REMOTE_CALL && got == []
      ensures old(sock.NextSelect()) != 0 ==> r == old(sock.NextSelect()) && got == []
      ensures r == SOCKET_TIMEOUT ==> old(sock.NextSelect()) == SOCKET_TIMEOUT
      ensures old(sock.NextSelect()) == 0 ==> exists x: int :: EndsAs(trace, x) && r == if x == 64 then 0 else if x > 0 then -1 else x
      ensures r <= 0 && (r < 0 ==> IsRecvError(r))
      ensures r < 0 && r != -1 && r != E_RECEIVE ==> got == []
      ensures Put(old(buf.bytes), 0, got) <= buf.bytes
      ensures |got| == HEADER_LEN ==> got <= buf.bytes && HoldsRest(buf.bytes)
      ensures |buf.bytes| == |old(buf.bytes)| || (|got| == HEADER_LEN && |buf.bytes| == HEADER_LEN + Read32(buf.bytes, NUM_AFTER_HEADER))
      ensures sock.steady && HEADER_LEN <= |old(sock.incoming)| ==> |got| == HEADER_LEN
    {
      var received;
      received, got, trace := sock.Recv(buf, 0, HEADER_LEN, timeoutMs);
      PutReads(old(buf.bytes), 0, got);
      if received != HEADER_LEN { return HeaderCode(received), got, trace; }
      var all := buf.GetInt32(NUM_AFTER_HEADER);
      ghost var b := buf.bytes;
      if all >= 0 {
        Resize(all);
        PrefixKeepsHeader(b, buf.bytes);
        assert HeaderOf(b).afterHeader == all;
      }
      r := REMOTE_CALL;
    }

    method LoadArrays(len: nat, slots: array<NwArray?>, n: nat, ghost views: seq<Option<Arr>>)
      requires Valid() && Shows(slots, views) && n <= slots.Length
      requires Decodable(buf.bytes, slots.Length) && len == |Window(buf.bytes)| && n == WantedCount(Window(buf.bytes), slots.Length)
      modifies slots, slots[..]
      ensures var arrays := Decode(Window(buf.bytes), slots.Length).arrays;
        |arrays| <= |views| && Shows(slots, Present(arrays) + views[|arrays|..])
      ensures Reused(slots)
    {
      hide Read32, Walk, StepAt, Read64As32;
      DecodeCut(Window(buf.bytes), slots.Length);
      ReadStream(buf, HEADER_LEN, len, slots, n, views);
    }

    method CountArrays(slots: nat) returns (len: nat, n: int)
      requires Valid() && Windowed(buf.bytes)
      ensures len == |Window(buf.bytes)| && n == WantedCount(Window(buf.bytes), slots)
    {
      hide Read32;
      len := buf.GetInt32(BYTE_LENGTH);
      n := ReadCount(buf, HEADER_LEN, len);
      if n > slots { n := slots; }
    }

    /** The body, when its count can be read. */
    method DecodeCounted(registry: Registry, cache: FncPointers, slots: array<NwArray?>, ghost views: seq<Option<Arr>>)
      returns (n: int)
      requires Valid() && Usable(registry, cache) && Shows(slots, views) && Decodable(buf.bytes, slots.Length)
      modifies cache, slots, slots[..]
      ensures Usable(registry, cache) && Reused(slots)
      ensures var toArgs := Handler(registry.history, Read32(buf.bytes, VERSION), Read32(buf.bytes, TYPE), RES_TO_ARGS);
        n == BodyCode(1, toArgs, WantedCount(Window(buf.bytes), slots.Length))
        && Shows(slots, BodyArrays(1, toArgs, Window(buf.bytes), slots.Length, views))
    {
      hide Read32, Walk, StepAt, Read64As32, ElementSize;
      var len;
      len, n := CountArrays(slots.Length);
      if n < 0 { return n; }
      var toArgs := FindFor(registry, cache, RES_TO_ARGS);
      if toArgs == 0 { return if n > 0 then -1 else 0; }
      LoadArrays(len, slots, n, views);
    }

    /** What is done with a body that counts as complete. */
    method DecodeBody(registry: Registry, cache: FncPointers, slots: array<NwArray?>, ghost views: seq<Option<Arr>>)
      returns (n: int)
      requires Valid() && Usable(registry, cache) && Shows(slots, views) && Decodable(buf.bytes, slots.Length)
      modifies cache, slots, slots[..]
      ensures Usable(registry, cache) && Reused(slots)
      ensures Decoding(registry.history, buf.bytes, slots.Length, views, n, slots)
    {
      var deserialize := FindFor(registry, cache, DESERI_TO_RES);
      if deserialize == 0 { return -1; }
      n := DecodeCounted(registry, cache, slots, views);
    }

    /**
     * Receive what the header in the buffer announces. The result is negative
     * unless all of it came, or the announced length is not positive and happens to
     * be the code with which receiving nothing ends.
     */
    method ReceiveBody(sock: Socket, timeoutMs: int) returns (code: int, ghost got: Bytes)
      requires Valid() && Room(buf.bytes, sock.incoming)
      modifies buf, sock`incoming, sock`moves, sock`selects
      ensures Valid() && HEADER_LEN + |got| <= |old(buf.bytes)| && buf.bytes == Put(old(buf.bytes), HEADER_LEN, got)
      ensures old(sock.incoming) == got + sock.incoming
      ensures code >= 0 <==>
        Accepted(old(Read32(buf.bytes, NUM_AFTER_HEADER)), got, old(sock.ResultOfNone(Read32(buf.bytes, NUM_AFTER_HEADER))))
      ensures got == [] || |got| <= old(Read32(buf.bytes, NUM_AFTER_HEADER))
      ensures code < 0 ==> RefusedWith(code, got, old(sock.NextSelect()))
      ensures sock.steady && 0 < old(Read32(buf.bytes, NUM_AFTER_HEADER)) <= |old(sock.incoming)| ==> code >= 0
    {
      hide Put, Read32;
      var all := buf.GetInt32(NUM_AFTER_HEADER);
      var received;
      ghost var trace;
      received, got, trace := sock.Recv(buf, HEADER_LEN, all, timeoutMs);
      if received != all { return if received < 0 then received else -2, got; }
      code := 0;
    }

    /**
     * Receive what the header in the buffer announces, and decode it. Once the body
     * counts as complete, result and slots are those of the buffer's contents, even
     * if nothing has come.
     */
    method ReceiveScriptNameAndArrays2(registry: Registry, cache: FncPointers, sock: Socket, timeoutMs: int,
                                       slots: array<NwArray?>, ghost views: seq<Option<Arr>>)
      returns (n: int, ghost got: Bytes)
      requires Valid() && Usable(registry, cache) && Shows(slots, views)
      requires Announced(buf.bytes, sock.incoming, slots.Length)
      modifies buf, cache, sock`incoming, sock`moves, sock`selects, slots, slots[..]
      ensures Valid() && Usable(registry, cache) && Reused(slots)
      ensures old(sock.incoming) == got + sock.incoming
      ensures HEADER_LEN + |got| <= |old(buf.bytes)| && buf.bytes == Put(old(buf.bytes), HEADER_LEN, got)
      ensures var all := old(Read32(buf.bytes, NUM_AFTER_HEADER));
        if Accepted(all, got, old(sock.ResultOfNone(Read32(buf.bytes, NUM_AFTER_HEADER)))) then
          && Decodable(buf.bytes, slots.Length)
          && Decoding(registry.history, buf.bytes, slots.Length, views, n, slots)
        else RefusedWith(n, got, old(sock.NextSelect())) && Shows(slots, views)
      ensures Outcome(registry.history, old(buf.bytes), got, buf.bytes, views, n, slots)
      ensures got == [] || |got| <= old(Read32(buf.bytes, NUM_AFTER_HEADER))
      ensures sock.steady && 0 < old(Read32(buf.bytes, NUM_AFTER_HEADER)) <= |old(sock.incoming)| ==>
        |got| == old(Read32(buf.bytes, NUM_AFTER_HEADER))
    {
      hide Put, Decode, Decoding, Shows, Usable, Read32, Outcome;
      SlotCount(slots, views);
      ghost var b, none := buf.bytes, sock.ResultOfNone(Read32(buf.bytes, NUM_AFTER_HEADER));
      var code;
      code, got := ReceiveBody(sock, timeoutMs);
      if code < 0 {
        n := code;
      } else {
        CompleteIsDecodable(b, old(sock.incoming), got, slots.Length, none);
        n := DecodeBody(registry, cache, slots, views);
      }
      OutcomeIs(registry.history, b, got, none, buf.bytes, views, n, slots);
    }

    /** The header, and what is known of the stream and the buffer behind it. */
    method ReceiveHeaderAhead(sock: Socket, timeoutMs: int, ghost slots: nat) returns (r: int, ghost head: Bytes)
      requires Valid() && StreamAhead(buf.bytes, sock.incoming, slots)
      requires sock.CanMislead() ==> Announced(buf.bytes, sock.incoming, slots)
      modifies buf, sock`incoming, sock`moves, sock`selects
      ensures Valid() && old(sock.incoming) == head + sock.incoming
      ensures r < 0 ==> |head| < HEADER_LEN
      ensures old(sock.NextSelect()) != 0 ==> r == old(sock.NextSelect()) && head == []
      ensures r == SOCKET_TIMEOUT ==> old(sock.NextSelect()) == SOCKET_TIMEOUT
      ensures r < 0 && r != -1 && r != E_RECEIVE ==> head == []
      ensures r >= 0 ==> r == REMOTE_CALL && Announced(buf.bytes, sock.incoming, slots)
      ensures r >= 0 ==> HeadInBuffer(head, old(buf.bytes), buf.bytes) && (head == [] ==> sock.CanMislead())
      ensures head == [] ==> buf.bytes == old(buf.bytes)
      ensures sock.steady && HEADER_LEN <= |old(sock.incoming)| ==> |head| == HEADER_LEN
    {
      hide Read32, StreamAhead, Announced, Put, HoldsRest;
      ghost var trace;
      r, head, trace := ReceiveHeader(sock, timeoutMs);
      PutNothing(old(buf.bytes), 0);
      if r >= 0 {
        HeaderTaken(old(buf.bytes), old(sock.incoming), head, buf.bytes, sock.incoming, slots);
      }
    }

    /** The body, after the header in `head`, or none. */
    method ReceiveBodyBehind(registry: Registry, cache: FncPointers, sock: Socket, timeoutMs: int,
                             slots: array<NwArray?>, ghost views: seq<Option<Arr>>, ghost b0: Bytes, ghost head: Bytes)
      returns (n: int, ghost body: Bytes)
      requires Valid() && Usable(registry, cache) && Shows(slots, views) && HeadInBuffer(head, b0, buf.bytes)
      requires Announced(buf.bytes, sock.incoming, slots.Length)
      modifies buf, cache, sock`incoming, sock`moves, sock`selects, slots, slots[..]
      ensures Valid() && Usable(registry, cache) && Reused(slots) && old(sock.incoming) == body + sock.incoming
      ensures Outcome(registry.history, if head == [] then b0 else head, body, buf.bytes, views, n, slots)
      ensures sock.steady ==> BodyTaken(old(buf.bytes), old(sock.incoming), body)
    {
      hide Decoding, Shows, Usable, Decodable, Read32, Announced, Outcome, Accepted, Put;
      n, body := ReceiveScriptNameAndArrays2(registry, cache, sock, timeoutMs, slots, views);
      SameOutcome(registry.history, old(buf.bytes), if head == [] then b0 else head, body, buf.bytes, views, n, slots);
    }

    /** Receive a whole message; the result is that of its header, `numOut` that of its body. */
    method ReceiveHeaderScriptNameAndArrays2(registry: Registry, cache: FncPointers, sock: Socket, timeoutMs: int,
                                             slots: array<NwArray?>, numIn: int, ghost views: seq<Option<Arr>>)
      returns (r: int, numOut: int, ghost head: Bytes, ghost body: Bytes)
      requires Valid() && Usable(registry, cache) && Shows(slots, views)
      requires StreamAhead(buf.bytes, sock.incoming, slots.Length)
      requires sock.CanMislead() ==> Announced(buf.bytes, sock.incoming, slots.Length)
      modifies buf, cache, sock`incoming, sock`moves, sock`selects, slots, slots[..]
      ensures Valid() && Usable(registry, cache) && Reused(slots)
      ensures old(sock.incoming) == head + body + sock.incoming
      ensures r < 0 ==> |head| < HEADER_LEN && body == [] && numOut == numIn && Shows(slots, views)
      ensures old(sock.NextSelect()) != 0 ==> r == old(sock.NextSelect()) && head == []
      ensures r == SOCKET_TIMEOUT ==> old(sock.NextSelect()) == SOCKET_TIMEOUT
      ensures r < 0 && r != -1 && r != E_RECEIVE ==> head == [] && buf.bytes == old(buf.bytes)
      ensures r >= 0 ==> r == REMOTE_CALL && (|head| == HEADER_LEN || (head == [] && sock.CanMislead()))
      ensures r >= 0 ==>
        Outcome(registry.history, if head == [] then old(buf.bytes) else head, body, buf.bytes, views, numOut, slots)
      ensures sock.steady && HEADER_LEN <= |old(sock.incoming)| ==>
        |head| == HEADER_LEN && BodyTaken(head, old(sock.incoming)[HEADER_LEN..], body)
    {
      hide Shows, Usable, StreamAhead, Announced, Outcome, Put, BodyTaken;
      numOut, body := numIn, [];
      r, head := ReceiveHeaderAhead(sock, timeoutMs, slots.Length);
      if r < 0 { return; }
      ghost var b, was := buf.bytes, sock.incoming;
      numOut, body := ReceiveBodyBehind(registry, cache, sock, timeoutMs, slots, views, old(buf.bytes), head);
      if |head| == HEADER_LEN { BodyTakenBehind(head, b, was, body); }
    }

    method NumOfExpOutsOrError(ghost f: Bytes) returns (outs: int)
      requires Readable(f) && f <= buf.bytes
      ensures outs == ReadFrame(f, 0).outs
    {
      FrameInBuffer(f, buf.bytes);
      outs := buf.GetInt32(NUM_OUTS);
    }

    /** The name starts behind the byte stream and ends at the first NUL; what the buffer holds behind the message does not matter. */
    method MatlabScriptName(ghost f: Bytes) returns (name: Bytes)
      requires Readable(f) && f <= buf.bytes && 0 in NameBytes(f)
      ensures name == ReadFrame(f, 0).name
    {
      hide Read32, Walk, Decode, WantedCount, CString, Windowed, Window;
      FrameInBuffer(f, buf.bytes);
      var len := buf.GetInt32(BYTE_LENGTH);
      name := ScanCString(buf.bytes, HEADER_LEN + len);
    }
  }

  /** Decoding looks at nothing behind the argument bytes. */
  lemma DecodablePrefix(f: Bytes, b: Bytes, slots: nat)
    requires Decodable(f, slots) && f <= b
    ensures Decodable(b, slots) && Window(b) == Window(f)
  {
    hide Decode, Read32;
    PrefixKeeps32(f, b, BYTE_LENGTH);
    var end := HEADER_LEN + Read32(f, BYTE_LENGTH);
    assert b[..|f|][HEADER_LEN..end] == b[HEADER_LEN..end];
    assert Window(b) == Window(f);
  }

  lemma HeadArrived(b0: Bytes, incoming: Bytes, head: Bytes, b: Bytes, slots: nat)
    requires HEADER_LEN <= |b0| && StreamAhead(b0, incoming, slots)
    requires |head| == HEADER_LEN && head <= incoming && Put(b0, 0, head) <= b && HoldsRest(b)
    ensures Announced(b, incoming[HEADER_LEN..], slots)
    ensures Read32(b, NUM_AFTER_HEADER) == Read32(head, NUM_AFTER_HEADER) && b[..HEADER_LEN] == head
  {
    hide Put, Decode, Window, Windowed;
    var h := Put(b0, 0, head);
    PutReads(b0, 0, head);
    PrefixKeeps32(h, b, NUM_AFTER_HEADER);
    PrefixKeeps32(head, h, NUM_AFTER_HEADER);
    assert incoming[..HEADER_LEN] == head && h[..HEADER_LEN] == b[..HEADER_LEN];
    if Decodable(h, slots) { DecodablePrefix(h, b, slots); }
  }

  /** After a header has been reported, whether one came or not. */
  lemma HeaderTaken(b0: Bytes, incoming: Bytes, head: Bytes, b: Bytes, left: Bytes, slots: nat)
    requires |head| <= HEADER_LEN <= |b0| && StreamAhead(b0, incoming, slots) && incoming == head + left && Put(b0, 0, head) <= b
    requires if |head| == HEADER_LEN then HoldsRest(b)
             else head == [] && |b| == |b0| && Announced(b0, incoming, slots)
    ensures Announced(b, left, slots)
    ensures HeadInBuffer(head, b0, b)
  {
    hide Put, Read32, Announced, StreamAhead, HoldsRest;
    if |head| == HEADER_LEN {
      HeadArrived(b0, incoming, head, b, slots);
      assert incoming[HEADER_LEN..] == left;
    } else {
      PutNothing(b0, 0);
      assert b == b0 && left == incoming;
    }
  }

  lemma CompleteIsDecodable(b: Bytes, incoming: Bytes, got: Bytes, slots: nat, none: int)
    requires Announced(b, incoming, slots) && got <= incoming && HEADER_LEN + |got| <= |b|
    requires var all := Read32(b, NUM_AFTER_HEADER);
      Accepted(all, got, none) && (all <= 0 ==> got == [] && (none == 0 || IsRecvError(none)))
    ensures Decodable(Put(b, HEADER_LEN, got), slots)
    ensures Read32(b, NUM_AFTER_HEADER) > 0 ==>
      b[..HEADER_LEN] + got <= Put(b, HEADER_LEN, got) && Decodable(b[..HEADER_LEN] + got, slots)
  {
    hide Put, Decode, Decodable, Read32, IsRecvError;
    if Read32(b, NUM_AFTER_HEADER) > 0 {
      assert incoming[..|got|] == got;
      BodyInBuffer(b, got);
      DecodablePrefix(b[..HEADER_LEN] + got, Put(b, HEADER_LEN, got), slots);
    } else {
      PutNothing(b, HEADER_LEN);
    }
  }

  lemma BodyInBuffer(b: Bytes, got: Bytes)
    requires HEADER_LEN + |got| <= |b|
    ensures b[..HEADER_LEN] + got <= Put(b, HEADER_LEN, got)
  {
    hide Put;
    PutReads(b, HEADER_LEN, got);
    var t := Put(b, HEADER_LEN, got);
    assert t[..HEADER_LEN + |got|] == t[..HEADER_LEN] + t[HEADER_LEN..HEADER_LEN + |got|];
  }

  /** Result and output slots are as the contents of buffer `b` say. */
  ghost predicate Decoding(regs: seq<Registration>, b: Bytes, count: nat, views: seq<Option<Arr>>, n: int, slots: array<NwArray?>)
    requires Windowed(b) && count == |views|
    reads slots, slots[..]
  {
    var deserialize := Handler(regs, Read32(b, VERSION), Read32(b, TYPE), DESERI_TO_RES);
    var toArgs := Handler(regs, Read32(b, VERSION), Read32(b, TYPE), RES_TO_ARGS);
    && n == BodyCode(deserialize, toArgs, WantedCount(Window(b), count))
    && Shows(slots, BodyArrays(deserialize, toArgs, Window(b), count, views))
  }

  /** The body that the header in `h` announces has been taken if it was there. */
  predicate BodyTaken(h: Bytes, was: Bytes, body: Bytes) {
    HEADER_LEN <= |h| && (0 < Read32(h, NUM_AFTER_HEADER) <= |was| ==> |body| == Read32(h, NUM_AFTER_HEADER))
  }

  /** The header in buffer `b` is the one that came, or still the old one of `b0`. */
  predicate HeadInBuffer(head: Bytes, b0: Bytes, b: Bytes) {
    && HEADER_LEN <= |b0|
    && if head == [] then b == b0 else |head| == HEADER_LEN && head <= b
  }

  lemma BodyTakenBehind(head: Bytes, b: Bytes, was: Bytes, body: Bytes)
    requires |head| == HEADER_LEN && head <= b
    ensures BodyTaken(b, was, body) <==> BodyTaken(head, was, body)
  {
    PrefixKeeps32(head, b, NUM_AFTER_HEADER);
  }

  /**
   * What has become of the body that the header in `h` announces: decoded if it came, or
   * not there; when none is announced, one or the other, of what buffer `b` held.
   */
  ghost predicate Outcome(regs: seq<Registration>, h: Bytes, body: Bytes, b: Bytes, views: seq<Option<Arr>>,
                          n: int, slots: array<NwArray?>)
    reads slots, slots[..]
  {
    && HEADER_LEN <= |h|
    && var all := Read32(h, NUM_AFTER_HEADER);
    && (all > 0 && |body| == all ==> h[..HEADER_LEN] + body <= b && Decodable(h[..HEADER_LEN] + body, |views|))
    && (all <= 0 ==> body == [])
    && if all > 0 && |body| != all then n < 0 && Shows(slots, views)
       else
         || (Decodable(b, |views|) && Decoding(regs, b, |views|, views, n, slots))
         || (all <= 0 && n < 0 && Shows(slots, views))
  }

  lemma SameOutcome(regs: seq<Registration>, h: Bytes, t: Bytes, body: Bytes, b: Bytes, views: seq<Option<Arr>>,
                    n: int, slots: array<NwArray?>)
    requires HEADER_LEN <= |t| && t <= h && Outcome(regs, h, body, b, views, n, slots)
    ensures Outcome(regs, t, body, b, views, n, slots)
  {
    hide Read32, Decoding, Decodable, Shows;
    PrefixKeeps32(t, h, NUM_AFTER_HEADER);
    assert h[..HEADER_LEN] == t[..HEADER_LEN];
  }

  lemma OutcomeIs(regs: seq<Registration>, b0: Bytes, body: Bytes, none: int, b: Bytes, views: seq<Option<Arr>>,
                  n: int, slots: array<NwArray?>)
    requires HEADER_LEN <= |b0|
    requires if Accepted(Read32(b0, NUM_AFTER_HEADER), body, none) then
        Decodable(b, |views|) && Decoding(regs, b, |views|, views, n, slots)
      else n < 0 && Shows(slots, views)
    requires var f := b0[..HEADER_LEN] + body;
      0 < Read32(b0, NUM_AFTER_HEADER) == |body| ==> f <= b && Decodable(f, |views|)
    requires Read32(b0, NUM_AFTER_HEADER) <= 0 ==> body == []
    ensures Outcome(regs, b0, body, b, views, n, slots)
  {
    hide Read32, Decoding, Shows, Decode;
  }

  /** The result for a body that has arrived. */
  function BodyCode(deserialize: Fn, toArgs: Fn, count: int): int {
    if deserialize == 0 then -1
    else if count < 0 then count
    else if toArgs == 0 then if count > 0 then -1 else 0
    else count
  }

  /** What the output slots hold afterwards. */
  function BodyArrays(deserialize: Fn, toArgs: Fn, body: Bytes, slots: nat, views: seq<Option<Arr>>): seq<Option<Arr>>
    requires COUNT_LEN <= |body| && slots == |views|
  {
    if deserialize == 0 || toArgs == 0 || WantedCount(body, slots) < 0 then views
    else
      var arrays := Decode(body, slots).arrays;
      if |arrays| <= slots then Present(arrays) + views[|arrays|..] else views
  }

  /** Both functions a receiver needs are registered. */
  predicate CanReceive(regs: seq<Registration>, version: int, seriType: int)
    requires FitsInt32(version) && FitsInt32(seriType)
  {
    Handler(regs, version, seriType, DESERI_TO_RES) != 0 && Handler(regs, version, seriType, RES_TO_ARGS) != 0
  }

  /** The receiver has the number of the message's arrays, and the slots hold them, as many as there are slots. */
  ghost predicate Delivered(m: Message, views: seq<Option<Arr>>, n: int, slots: array<NwArray?>)
    reads slots, slots[..]
  {
    && n == Cut(|m.arrays|, |views|)
    && Shows(slots, Present(m.arrays[..n]) + views[n..])
  }

  /**
   * End to end: when the buffer begins with a frame of message `m`, the receiver
   * has its number of arrays, and the output slots hold exactly its arrays, as many
   * as there are slots, whatever they held before.
   */
  lemma MessageArrives(regs: seq<Registration>, f: Bytes, m: Message, b: Bytes, count: nat, views: seq<Option<Arr>>,
                       n: int, slots: array<NwArray?>)
    requires FrameOf(f, m) && f <= b && Windowed(b) && count == |views| && Decoding(regs, b, count, views, n, slots)
    requires CanReceive(regs, m.version, m.seriType)
    ensures Delivered(m, views, n, slots)
  {
    hide Read32, Shows, Decode, WantedCount, Handler, CString, IsFrame, Window, Windowed;
    FrameReadsBack(f, m.version, m.seriType, m.name, m.outs, m.arrays, count);
    FrameInBuffer(f, b);
    var k := Cut(|m.arrays|, count);
    assert ReadFrame(f, count).count == k && ReadFrame(f, count).arrays == m.arrays[..k];
  }

  // ---- what can go wrong ----

  /** A header is reported although none came: one byte is there to be read, and the first receive call blocks until the time is up. */
  method HeaderOutOfNothing() returns (r: int, taken: nat)
    ensures r == REMOTE_CALL && taken == 0
  {
    var sock := new Socket([1], false, [0], [Block(true)], 0, true, false, false, false);
    var ser := new Serializer(0, 0);
    assert sock.BlocksAtOnce(HEADER_LEN, SMALL_TIMEOUT_MS);
    ghost var got, trace;
    r, got, trace := ser.ReceiveHeader(sock, -1);
    assert [1] == sock.incoming;
    taken := 1 - |sock.incoming|;
  }

  /** The header in buffer `b`, but with this length. */
  function WithLength(b: Bytes, all: int): (r: Bytes)
    requires HEADER_LEN <= |b| && FitsInt32(all)
    ensures |r| == HEADER_LEN
  {
    Put(b[..HEADER_LEN], NUM_AFTER_HEADER, LE32(all))
  }

  lemma LengthPut(b: Bytes, all: int)
    requires HEADER_LEN <= |b| && FitsInt32(all)
    ensures Put(b, 0, WithLength(b, all)) == Put(b, NUM_AFTER_HEADER, LE32(all))
  {
    hide Put, LE32;
    assert b[0..0 + HEADER_LEN] == b[..HEADER_LEN];
    PutInWindow(b, 0, HEADER_LEN, NUM_AFTER_HEADER, LE32(all));
  }

  /** Another length in the header changes neither the tags nor the argument bytes. */
  lemma LengthKeeps(b: Bytes, all: int)
    requires Windowed(b) && FitsInt32(all)
    ensures var t := Put(b, NUM_AFTER_HEADER, LE32(all));
      SameTags(b, t) && Windowed(t) && Window(t) == Window(b) && Read32(t, NUM_AFTER_HEADER) == all
  {
    hide Put, LE32, Read32;
    var d := LE32(all);
    PutReads32(b, NUM_AFTER_HEADER, all);
    PutKeeps32(b, NUM_AFTER_HEADER, d, VERSION);
    PutKeeps32(b, NUM_AFTER_HEADER, d, TYPE);
    PutKeeps32(b, NUM_AFTER_HEADER, d, BYTE_LENGTH);
    PutElsewhere(b, NUM_AFTER_HEADER, d, HEADER_LEN, HEADER_LEN + Read32(b, BYTE_LENGTH));
  }

  lemma StaleAhead(b: Bytes, extra: Bytes, slots: nat)
    requires Decodable(b, slots)
    ensures StreamAhead(b, WithLength(b, E_CONN_CLOSED) + extra, slots)
    ensures var t := Put(b, 0, WithLength(b, E_CONN_CLOSED));
      SameTags(b, t) && Windowed(t) && Window(t) == Window(b) && Read32(t, NUM_AFTER_HEADER) == E_CONN_CLOSED
  {
    hide Put, LE32, Read32, Decode;
    var s := WithLength(b, E_CONN_CLOSED) + extra;
    LengthPut(b, E_CONN_CLOSED);
    LengthKeeps(b, E_CONN_CLOSED);
    assert s[..HEADER_LEN] == WithLength(b, E_CONN_CLOSED);
  }

  /** The header comes once more, with that length; nothing else changes. */
  method ReceiveStaleHeader(ser: Serializer, sock: Socket, timeoutMs: int, slots: nat, ghost extra: Bytes) returns (r: int)
    requires ser.Valid() && Decodable(ser.buf.bytes, slots)
    requires sock.steady && sock.incoming == WithLength(ser.buf.bytes, E_CONN_CLOSED) + extra
    modifies ser.buf, sock`incoming, sock`moves, sock`selects
    ensures r == REMOTE_CALL && sock.incoming == extra && ser.Valid()
    ensures ser.buf.bytes == Put(old(ser.buf.bytes), 0, WithLength(old(ser.buf.bytes), E_CONN_CLOSED))
    ensures Announced(ser.buf.bytes, extra, slots)
  {
    hide Put, Read32, Decodable, Windowed, Window, Announced;
    ghost var b := ser.buf.bytes;
    StaleAhead(b, extra, slots);
    ghost var h := WithLength(b, E_CONN_CLOSED);
    ghost var t := Put(b, 0, h);
    ghost var head, trace;
    r, head, trace := ser.ReceiveHeader(sock, timeoutMs);
    SameSplit(h, extra, head, sock.incoming);
    HeadArrived(b, h + extra, h, ser.buf.bytes, slots);
    assert (h + extra)[HEADER_LEN..] == extra;
    assert ser.buf.bytes == t by { PrefixKeeps32(t, ser.buf.bytes, NUM_AFTER_HEADER); }
  }

  /**
   * What the buffer holds of the message before is delivered once more although
   * only a header came: its length equals the code with which a receive call for a
   * negative number of bytes ends, so the body counts as complete. What follows the
   * header is left where it is.
   */
  method DeliveredAgain(ser: Serializer, registry: Registry, cache: FncPointers, sock: Socket, timeoutMs: int,
                        slots: array<NwArray?>, ghost views: seq<Option<Arr>>, ghost extra: Bytes)
    returns (r: int, n: int)
    requires ser.Valid() && Usable(registry, cache) && Shows(slots, views) && Decodable(ser.buf.bytes, slots.Length)
    requires sock.steady && extra != [] && sock.incoming == WithLength(ser.buf.bytes, E_CONN_CLOSED) + extra
    modifies ser.buf, cache, sock`incoming, sock`moves, sock`selects, slots, slots[..]
    ensures r == REMOTE_CALL && sock.incoming == extra
    ensures Decoding(registry.history, old(ser.buf.bytes), slots.Length, views, n, slots)
  {
    hide Put, LE32, Read32, Decode, Shows, Usable, Windowed, Window, Announced, Decoding;
    SlotCount(slots, views);
    ghost var b := ser.buf.bytes;
    StaleAhead(b, extra, slots.Length);
    r := ReceiveStaleHeader(ser, sock, timeoutMs, slots.Length, extra);
    PutNothing(ser.buf.bytes, HEADER_LEN);
    ghost var body;
    n, body := ser.ReceiveScriptNameAndArrays2(registry, cache, sock, timeoutMs, slots, views);
    SameDecoding(registry.history, ser.buf.bytes, b, views, n, slots);
  }

  lemma SameDecoding(regs: seq<Registration>, b: Bytes, t: Bytes, views: seq<Option<Arr>>, n: int, slots: array<NwArray?>)
    requires SameTags(t, b) && Windowed(b) && Windowed(t) && Window(b) == Window(t)
    requires Decoding(regs, b, |views|, views, n, slots)
    ensures Decoding(regs, t, |views|, views, n, slots)
  {
    hide Read32, Windowed, Window, Shows, BodyArrays;
  }

  lemma DecodeCut(s: Bytes, slots: nat)
    requires COUNT_LEN <= |s| && WantedCount(s, slots) >= 0
    ensures Decode(s, WantedCount(s, slots)) == Decode(s, slots)
    ensures |Decode(s, slots).arrays| <= slots
  {
    var n := WantedCount(s, slots);
    assert WantedCount(s, n) == n;
  }

  predicate SameTags(s: Bytes, t: Bytes) {
    && HEADER_LEN <= |s| && HEADER_LEN <= |t|
    && Read32(s, VERSION) == Read32(t, VERSION) && Read32(s, TYPE) == Read32(t, TYPE)
  }

  /** Both functions a sender needs are registered. */
  predicate CanSend(regs: seq<Registration>, version: int, seriType: int)
    requires FitsInt32(version) && FitsInt32(seriType)
  {
    Handler(regs, version, seriType, SERI_TO_RES) != 0 && Handler(regs, version, seriType, RES_TO_BTSTREAM) != 0
  }

  /** The frame was handed over once, whole if the result says so, else cut short. */
  ghost predicate Sent(before: Bytes, f: Bytes, r: int, after: Bytes) {
    if r >= 0 then r == |f| && after == before + f
    else r == E_SEND && exists k: nat :: k < |f| && after == before + f[..k]
  }

  lemma FrontStays(s: Bytes, t: Bytes)
    requires HEADER_LEN <= |s| && s <= t
    ensures SameTags(s, t)
  {
    PrefixKeeps32(s, t, VERSION);
    PrefixKeeps32(s, t, TYPE);
  }

  lemma FullTags(b: Bytes, text: Bytes, outs: int, args: seq<Option<Arr>>)
    requires Sendable(text, outs, args) && HEADER_LEN + AfterHeader(text, args) <= |b|
    ensures var r := FullBuffer(b, text, outs, args);
      Read32(r, VERSION) == Read32(b, VERSION) && Read32(r, TYPE) == Read32(b, TYPE)
  {
    FullHeader(b, text, outs, args);
    assert HeaderOf(FullBuffer(b, text, outs, args)).version == Read32(b, VERSION);
  }
}

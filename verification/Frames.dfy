/**
 * The bytes of one message, as a value: a 64-byte header, the argument byte
 * stream, and the NUL-terminated script name.
 */
module Frames {
  import opened Common
  import opened Octets
  import opened NwArrays
  import opened Raw1

  const HEADER_LEN := 64

  // Offsets of the header's int32 fields. Bytes 20 to 63 are reserved, and sent as they are.
  const VERSION := 0
  const TYPE := 4
  const NUM_AFTER_HEADER := 8
  const NUM_OUTS := 12
  const BYTE_LENGTH := 16

  /** What the receiver of a frame gets to know. */
  datatype Parsed = Parsed(version: int, seriType: int, outs: int, name: Bytes, count: int, arrays: seq<Arr>)

  /** The bytes before the first NUL. */
  function CString(s: Bytes): (r: Bytes)
    ensures 0 !in r && |r| <= |s|
  {
    if s == [] || s[0] == 0 then [] else [s[0]] + CString(s[1..])
  }

  lemma {:induction false} CStringStops(name: Bytes, rest: Bytes)
    requires 0 !in name
    ensures CString(name + [0] + rest) == name
  {
    if name == [] {
      assert ([] + [0] + rest)[0] == 0;
    } else {
      assert (name + [0] + rest)[1..] == name[1..] + [0] + rest;
      CStringStops(name[1..], rest);
    }
  }

  /** What follows the first NUL does not matter. */
  lemma {:induction false} CStringOfPrefix(s: Bytes, rest: Bytes)
    requires 0 in s
    ensures CString(s + rest) == CString(s)
  {
    if s[0] != 0 {
      assert (s + rest)[1..] == s[1..] + rest;
      CStringOfPrefix(s[1..], rest);
    }
  }

  /** How a C string is read. */
  method ScanCString(s: Bytes, start: nat) returns (name: Bytes)
    requires start <= |s|
    ensures name == CString(s[start..])
  {
    name := [];
    var end := start;
    while end < |s| && s[end] != 0
      invariant start <= end <= |s|
      invariant name + CString(s[end..]) == CString(s[start..])
    {
      assert s[end..][1..] == s[end + 1..];
      name := name + [s[end]];
      end := end + 1;
    }
    assert CString(s[end..]) == [];
  }

  // ---- writing ----

  /** The lengths of the parts of a frame. */
  function AfterHeader(name: Bytes, args: seq<Option<Arr>>): nat { Total(args) + (|name| + 1) }

  predicate Sendable(name: Bytes, outs: int, args: seq<Option<Arr>>) {
    && AllEncodable(args) && FitsInt32(|args|)
    && FitsInt32(outs) && 0 !in name
    && FitsInt32(HEADER_LEN + AfterHeader(name, args))
  }

  function Headed(b: Bytes, afterHeader: int, outs: int, byteLength: int): (r: Bytes)
    requires HEADER_LEN <= |b| && FitsInt32(afterHeader) && FitsInt32(outs) && FitsInt32(byteLength)
    ensures |r| == |b|
  {
    Put(Put(Put(b, NUM_AFTER_HEADER, LE32(afterHeader)), NUM_OUTS, LE32(outs)), BYTE_LENGTH, LE32(byteLength))
  }

  lemma PutReads32(b: Bytes, off: nat, x: int)
    requires off + 4 <= |b| && FitsInt32(x)
    ensures Read32(Put(b, off, LE32(x)), off) == x
  {
    PutReads(b, off, LE32(x));
    ReadBack32(Put(b, off, LE32(x)), off, x);
  }

  /** A field outside the overwritten part stays. */
  lemma PutKeeps32(b: Bytes, at: nat, data: Bytes, off: nat)
    requires at + |data| <= |b| && off + 4 <= |b| && (off + 4 <= at || at + |data| <= off)
    ensures Read32(Put(b, at, data), off) == Read32(b, off)
  {
    PutElsewhere(b, at, data, off, off + 4);
    ReadSame32(Put(b, at, data), off, b, off);
  }

  /** The five fields of a header. */
  datatype Header = Header(version: int, seriType: int, afterHeader: int, outs: int, byteLength: int)

  function HeaderOf(s: Bytes): Header
    requires HEADER_LEN <= |s|
  {
    Header(Read32(s, VERSION), Read32(s, TYPE), Read32(s, NUM_AFTER_HEADER), Read32(s, NUM_OUTS), Read32(s, BYTE_LENGTH))
  }

  lemma HeadedFields(b: Bytes, afterHeader: int, outs: int, byteLength: int)
    requires HEADER_LEN <= |b| && FitsInt32(afterHeader) && FitsInt32(outs) && FitsInt32(byteLength)
    ensures HeaderOf(Headed(b, afterHeader, outs, byteLength))
         == Header(Read32(b, VERSION), Read32(b, TYPE), afterHeader, outs, byteLength)
  {
    var b1 := Put(b, NUM_AFTER_HEADER, LE32(afterHeader));
    var b2 := Put(b1, NUM_OUTS, LE32(outs));
    PutReads32(b, NUM_AFTER_HEADER, afterHeader);
    PutReads32(b1, NUM_OUTS, outs);
    PutReads32(b2, BYTE_LENGTH, byteLength);
    PutKeeps32(b1, NUM_OUTS, LE32(outs), NUM_AFTER_HEADER);
    PutKeeps32(b2, BYTE_LENGTH, LE32(byteLength), NUM_AFTER_HEADER);
    PutKeeps32(b2, BYTE_LENGTH, LE32(byteLength), NUM_OUTS);
    TagsStay(b, afterHeader, outs, byteLength, VERSION);
    TagsStay(b, afterHeader, outs, byteLength, TYPE);
  }

  lemma TagsStay(b: Bytes, afterHeader: int, outs: int, byteLength: int, off: nat)
    requires HEADER_LEN <= |b| && FitsInt32(afterHeader) && FitsInt32(outs) && FitsInt32(byteLength)
    requires off + 4 <= NUM_AFTER_HEADER
    ensures Read32(Headed(b, afterHeader, outs, byteLength), off) == Read32(b, off)
  {
    var b1 := Put(b, NUM_AFTER_HEADER, LE32(afterHeader));
    var b2 := Put(b1, NUM_OUTS, LE32(outs));
    PutKeeps32(b, NUM_AFTER_HEADER, LE32(afterHeader), off);
    PutKeeps32(b1, NUM_OUTS, LE32(outs), off);
    PutKeeps32(b2, BYTE_LENGTH, LE32(byteLength), off);
  }

  /** Overwriting behind the header leaves the fields. */
  lemma BodyKeepsHeader(b: Bytes, at: nat, data: Bytes)
    requires HEADER_LEN <= at && at + |data| <= |b|
    ensures HeaderOf(Put(b, at, data)) == HeaderOf(b)
  {
    PutKeeps32(b, at, data, VERSION);
    PutKeeps32(b, at, data, TYPE);
    PutKeeps32(b, at, data, NUM_AFTER_HEADER);
    PutKeeps32(b, at, data, NUM_OUTS);
    PutKeeps32(b, at, data, BYTE_LENGTH);
  }

  lemma PrefixKeeps32(s: Bytes, t: Bytes, off: nat)
    requires off + 4 <= |s| && s <= t
    ensures Read32(s, off) == Read32(t, off)
  {
    assert s[off..off + 4] == t[off..off + 4];
    ReadSame32(s, off, t, off);
  }

  lemma PrefixKeepsHeader(s: Bytes, t: Bytes)
    requires HEADER_LEN <= |s| && s <= t
    ensures HeaderOf(s) == HeaderOf(t)
  {
    PrefixKeeps32(s, t, VERSION);
    PrefixKeeps32(s, t, TYPE);
    PrefixKeeps32(s, t, NUM_AFTER_HEADER);
    PrefixKeeps32(s, t, NUM_OUTS);
    PrefixKeeps32(s, t, BYTE_LENGTH);
  }

  /** These bytes are a frame of this message with these tags; its padding and reserved bytes can be anything. */
  ghost predicate IsFrame(f: Bytes, version: int, seriType: int, name: Bytes, outs: int, args: seq<Option<Arr>>) {
    && Sendable(name, outs, args)
    && |f| == HEADER_LEN + AfterHeader(name, args)
    && HeaderOf(f) == Header(version, seriType, AfterHeader(name, args), outs, Total(args))
    && IsStream(f[HEADER_LEN..HEADER_LEN + Total(args)], args)
    && f[HEADER_LEN + Total(args)..] == name + [0]
  }

  /** A frame byte by byte: five int32 fields, room up to byte 64, the argument stream, the name, and a NUL. */
  lemma FrameLayout(f: Bytes, version: int, seriType: int, name: Bytes, outs: int, args: seq<Option<Arr>>)
    requires IsFrame(f, version, seriType, name, outs, args)
    ensures |f| == 64 + Total(args) + |name| + 1
    ensures Read32(f, 0) == version && Read32(f, 4) == seriType && Read32(f, 8) == |f| - 64
    ensures Read32(f, 12) == outs && Read32(f, 16) == Total(args)
    ensures f[64 + Total(args)..|f| - 1] == name && f[|f| - 1] == 0
  {
    hide Read32;
    assert HeaderOf(f).version == version && HeaderOf(f).seriType == seriType && HeaderOf(f).afterHeader == |f| - 64;
    assert f[64 + Total(args)..][..|name|] == name && f[64 + Total(args)..][|name|] == 0;
  }

  ghost predicate IsStream(s: Bytes, args: seq<Option<Arr>>)
    requires AllEncodable(args) && FitsInt32(|args|)
  {
    exists stale: Bytes :: COUNT_LEN <= |stale| == |s| && s == Encode(stale, args)
  }

  lemma EncodedIsStream(stale: Bytes, args: seq<Option<Arr>>)
    requires AllEncodable(args) && FitsInt32(|args|) && COUNT_LEN <= |stale|
    ensures IsStream(Encode(stale, args), args)
  {
  }

  /** The send buffer when everything is in place. */
  function FullBuffer(b: Bytes, name: Bytes, outs: int, args: seq<Option<Arr>>): (r: Bytes)
    requires Sendable(name, outs, args) && HEADER_LEN + AfterHeader(name, args) <= |b|
    ensures |r| == |b|
  {
    var h := Headed(b, AfterHeader(name, args), outs, Total(args));
    var stale := h[HEADER_LEN..HEADER_LEN + Total(args)];
    Put(Put(h, HEADER_LEN, Encode(stale, args)), HEADER_LEN + Total(args), name + [0])
  }

  lemma FullHeader(b: Bytes, name: Bytes, outs: int, args: seq<Option<Arr>>)
    requires Sendable(name, outs, args) && HEADER_LEN + AfterHeader(name, args) <= |b|
    ensures HeaderOf(FullBuffer(b, name, outs, args))
         == Header(Read32(b, VERSION), Read32(b, TYPE), AfterHeader(name, args), outs, Total(args))
  {
    hide Put, LE32, Encode, Read32;
    var h := Headed(b, AfterHeader(name, args), outs, Total(args));
    var e := Encode(h[HEADER_LEN..HEADER_LEN + Total(args)], args);
    HeadedFields(b, AfterHeader(name, args), outs, Total(args));
    BodyKeepsHeader(h, HEADER_LEN, e);
    BodyKeepsHeader(Put(h, HEADER_LEN, e), HEADER_LEN + Total(args), name + [0]);
  }

  lemma PutsRead(h: Bytes, at: nat, e: Bytes, tail: Bytes)
    requires at + |e| + |tail| <= |h|
    ensures var r, end := Put(Put(h, at, e), at + |e|, tail), at + |e| + |tail|;
      r[..end][at..at + |e|] == e && r[..end][at + |e|..] == tail
  {
    var g := Put(h, at, e);
    var r, end := Put(g, at + |e|, tail), at + |e| + |tail|;
    PutReads(h, at, e);
    PutElsewhere(g, at + |e|, tail, at, at + |e|);
    PutReads(g, at + |e|, tail);
    assert r[..end][at..at + |e|] == r[at..at + |e|];
    assert r[..end][at + |e|..] == r[at + |e|..end];
  }

  /** Where the parts of a full send buffer are. */
  lemma FullParts(b: Bytes, name: Bytes, outs: int, args: seq<Option<Arr>>)
    requires Sendable(name, outs, args) && HEADER_LEN + AfterHeader(name, args) <= |b|
    ensures var f := FullBuffer(b, name, outs, args)[..HEADER_LEN + AfterHeader(name, args)];
      var h := Headed(b, AfterHeader(name, args), outs, Total(args));
      && f[HEADER_LEN..HEADER_LEN + Total(args)] == Encode(h[HEADER_LEN..HEADER_LEN + Total(args)], args)
      && f[HEADER_LEN + Total(args)..] == name + [0]
  {
    hide Put, LE32, Encode;
    var h := Headed(b, AfterHeader(name, args), outs, Total(args));
    PutsRead(h, HEADER_LEN, Encode(h[HEADER_LEN..HEADER_LEN + Total(args)], args), name + [0]);
  }

  /** Whatever was in the buffer, what is sent is a frame with the buffer's own tags. */
  lemma FullIsFrame(b: Bytes, name: Bytes, outs: int, args: seq<Option<Arr>>)
    requires Sendable(name, outs, args) && HEADER_LEN + AfterHeader(name, args) <= |b|
    ensures Read32(FullBuffer(b, name, outs, args), NUM_AFTER_HEADER) == AfterHeader(name, args)
    ensures IsFrame(FullBuffer(b, name, outs, args)[..HEADER_LEN + AfterHeader(name, args)],
                    Read32(b, VERSION), Read32(b, TYPE), name, outs, args)
  {
    var r := FullBuffer(b, name, outs, args);
    FullHeader(b, name, outs, args);
    FullParts(b, name, outs, args);
    EncodedIsStream(Headed(b, AfterHeader(name, args), outs, Total(args))[HEADER_LEN..HEADER_LEN + Total(args)], args);
    assert HeaderOf(r).afterHeader == Read32(r, NUM_AFTER_HEADER);
    PrefixKeepsHeader(r[..HEADER_LEN + AfterHeader(name, args)], r);
  }

  // ---- reading ----

  /** A frame whose lengths agree. */
  predicate Readable(f: Bytes) {
    && HEADER_LEN <= |f|
    && Read32(f, NUM_AFTER_HEADER) == |f| - HEADER_LEN
    && COUNT_LEN <= Read32(f, BYTE_LENGTH) <= |f| - HEADER_LEN
  }

  function Body(f: Bytes): (r: Bytes)
    requires Readable(f)
    ensures |r| == Read32(f, BYTE_LENGTH)
  {
    f[HEADER_LEN..HEADER_LEN + Read32(f, BYTE_LENGTH)]
  }

  function NameBytes(f: Bytes): Bytes
    requires Readable(f)
  {
    f[HEADER_LEN + Read32(f, BYTE_LENGTH)..]
  }

  function ReadFrame(f: Bytes, slots: nat): Parsed
    requires Readable(f)
  {
    Parsed(Read32(f, VERSION), Read32(f, TYPE), Read32(f, NUM_OUTS), CString(NameBytes(f)),
           WantedCount(Body(f), slots), Decode(Body(f), slots).arrays)
  }

  function Cut(k: nat, slots: nat): nat { if k < slots then k else slots }

  lemma StreamReadsBack(s: Bytes, arrays: seq<Arr>, slots: nat)
    requires AllEncodable(Present(arrays)) && FitsInt32(|arrays|) && FitsInt32(|s|)
    requires |s| == Total(Present(arrays)) && IsStream(s, Present(arrays))
    ensures var k := Cut(|arrays|, slots);
      Decode(s, slots) == Decoded(arrays[..k], true) && WantedCount(s, slots) == k
  {
    var args := Present(arrays);
    var stale: Bytes :| COUNT_LEN <= |stale| == |s| && s == Encode(stale, args);
    forall i | 0 <= i < |arrays| ensures Encodable(arrays[i]) {
      assert args[i] == Some(arrays[i]);
    }
    PrepassIsExact(args);
    RoundTrip(stale, arrays, slots);
    EncodedCount(stale, args, slots);
  }

  lemma HeaderIs(f: Bytes, h: Header)
    requires HEADER_LEN <= |f| && HeaderOf(f) == h
    requires h.afterHeader == |f| - HEADER_LEN && COUNT_LEN <= h.byteLength <= h.afterHeader
    ensures Readable(f) && Read32(f, BYTE_LENGTH) == h.byteLength
    ensures Read32(f, VERSION) == h.version && Read32(f, TYPE) == h.seriType && Read32(f, NUM_OUTS) == h.outs
    ensures Body(f) == f[HEADER_LEN..HEADER_LEN + h.byteLength] && NameBytes(f) == f[HEADER_LEN + h.byteLength..]
  {
  }

  lemma FrameIsReadable(f: Bytes, version: int, seriType: int, name: Bytes, outs: int, args: seq<Option<Arr>>)
    requires IsFrame(f, version, seriType, name, outs, args)
    ensures Readable(f) && Read32(f, BYTE_LENGTH) == Total(args) && NameBytes(f) == name + [0]
    ensures Read32(f, VERSION) == version && Read32(f, TYPE) == seriType && Read32(f, NUM_OUTS) == outs
  {
    HeaderIs(f, Header(version, seriType, AfterHeader(name, args), outs, Total(args)));
  }

  lemma BodyIsStream(f: Bytes, version: int, seriType: int, name: Bytes, outs: int, args: seq<Option<Arr>>)
    requires IsFrame(f, version, seriType, name, outs, args)
    requires Readable(f) && Read32(f, BYTE_LENGTH) == Total(args)
    ensures IsStream(Body(f), args)
  {
    assert Body(f) == f[HEADER_LEN..HEADER_LEN + Total(args)];
  }

  lemma NameReadsBack(name: Bytes)
    requires 0 !in name
    ensures 0 in name + [0] && CString(name + [0]) == name
  {
    CStringStops(name, []);
    assert name + [0] + [] == name + [0] && (name + [0])[|name|] == 0;
  }

  /** Reading a frame gives back the message and the tags; arrays beyond the output slots are dropped. */
  lemma FrameReadsBack(f: Bytes, version: int, seriType: int, name: Bytes, outs: int, arrays: seq<Arr>, slots: nat)
    requires IsFrame(f, version, seriType, name, outs, Present(arrays))
    ensures Readable(f) && Decode(Body(f), slots).inside && 0 in NameBytes(f)
    ensures var k := Cut(|arrays|, slots);
      ReadFrame(f, slots) == Parsed(version, seriType, outs, name, k, arrays[..k])
  {
    FrameIsReadable(f, version, seriType, name, outs, Present(arrays));
    BodyIsStream(f, version, seriType, name, outs, Present(arrays));
    StreamReadsBack(Body(f), arrays, slots);
    NameReadsBack(name);
  }

  // ---- a stream of frames ----

  /** The first frame on a stream, when it is all there and its lengths agree. */
  function FirstFrame(s: Bytes): (r: Option<Bytes>)
    ensures r.Some? ==> Readable(r.value) && r.value <= s
  {
    if |s| < HEADER_LEN then None
    else
      var end := HEADER_LEN + Read32(s, NUM_AFTER_HEADER);
      if end < HEADER_LEN || |s| < end || !Readable(s[..end]) then None else Some(s[..end])
  }

  /** Take this many frames off a stream, given how to find the first one. */
  function Split(first: Bytes -> Option<Bytes>, s: Bytes, n: nat): Option<(seq<Bytes>, Bytes)> {
    if n == 0 then Some(([], s))
    else
      var f := first(s);
      if f.None? || |f.value| > |s| then None
      else
        var rest := Split(first, s[|f.value|..], n - 1);
        if rest.None? then None else Some(([f.value] + rest.value.0, rest.value.1))
  }

  function Join(frames: seq<Bytes>): Bytes {
    if frames == [] then [] else frames[0] + Join(frames[1..])
  }

  /** From frame `k` on all is still to come on a stream but the bytes `lost` at the end, which never will. */
  predicate StillToCome(k: nat, frames: seq<Bytes>, incoming: Bytes, lost: Bytes) {
    k <= |frames| && incoming + lost == Join(frames[k..])
  }

  /** A frame at the head of a stream is found, whatever follows it. */
  lemma FrameIsFirst(f: Bytes, rest: Bytes)
    requires Readable(f)
    ensures FirstFrame(f + rest) == Some(f)
  {
    var s := f + rest;
    assert s[NUM_AFTER_HEADER..NUM_AFTER_HEADER + 4] == f[NUM_AFTER_HEADER..NUM_AFTER_HEADER + 4];
    ReadSame32(s, NUM_AFTER_HEADER, f, NUM_AFTER_HEADER);
    assert s[..|f|] == f;
  }

  lemma SameSplit(a: Bytes, b: Bytes, c: Bytes, d: Bytes)
    requires a + b == c + d && |a| == |c|
    ensures a == c && b == d
  {
    assert a == (a + b)[..|a|] && c == (c + d)[..|a|];
    assert b == (a + b)[|a|..] && d == (c + d)[|a|..];
  }

  /** A receiver that takes a header, and then as many bytes as it announces, has taken exactly the first frame. */
  lemma FirstFrameTaken(f: Bytes, rest: Bytes, head: Bytes, body: Bytes, left: Bytes)
    requires Readable(f) && f + rest == head + body + left
    requires |head| == HEADER_LEN && |body| == Read32(head, NUM_AFTER_HEADER)
    ensures head + body == f && left == rest
  {
    hide Read32;
    assert f + rest == f[..HEADER_LEN] + (f[HEADER_LEN..] + rest);
    SameSplit(f[..HEADER_LEN], f[HEADER_LEN..] + rest, head, body + left);
    PrefixKeeps32(head, f, NUM_AFTER_HEADER);
    SameSplit(f, rest, head + body, left);
  }

  lemma {:induction false} SplitUndoesJoin(first: Bytes -> Option<Bytes>, frames: seq<Bytes>, rest: Bytes)
    requires forall i, tail: Bytes :: 0 <= i < |frames| ==> first(frames[i] + tail) == Some(frames[i])
    ensures Split(first, Join(frames) + rest, |frames|) == Some((frames, rest))
  {
    if frames == [] {
      assert Join(frames) + rest == rest;
    } else {
      var f, tail := frames[0], Join(frames[1..]) + rest;
      assert Join(frames) + rest == f + tail && (f + tail)[|f|..] == tail;
      SplitUndoesJoin(first, frames[1..], rest);
      assert first(f + tail) == Some(f);
      assert [f] + frames[1..] == frames;
    }
  }

  datatype Message = Message(version: int, seriType: int, name: Bytes, outs: int, arrays: seq<Arr>)

  ghost predicate FrameOf(f: Bytes, m: Message) {
    IsFrame(f, m.version, m.seriType, m.name, m.outs, Present(m.arrays))
  }

  /** What should arrive of a message. */
  function Received(m: Message, slots: nat): Parsed {
    var k := Cut(|m.arrays|, slots);
    Parsed(m.version, m.seriType, m.outs, m.name, k, m.arrays[..k])
  }

  /**
   * Frames that follow each other on one byte stream are read back one by one,
   * as the messages they were made from, and what follows them stays.
   */
  lemma StreamRoundTrip(frames: seq<Bytes>, ms: seq<Message>, rest: Bytes, slots: nat)
    requires |frames| == |ms| && forall i :: 0 <= i < |ms| ==> FrameOf(frames[i], ms[i])
    ensures Split(FirstFrame, Join(frames) + rest, |ms|) == Some((frames, rest))
    ensures forall i :: 0 <= i < |ms| ==>
      Readable(frames[i]) && Decode(Body(frames[i]), slots).inside && ReadFrame(frames[i], slots) == Received(ms[i], slots)
  {
    forall i | 0 <= i < |ms|
      ensures Readable(frames[i]) && Decode(Body(frames[i]), slots).inside
      ensures ReadFrame(frames[i], slots) == Received(ms[i], slots)
    {
      var m := ms[i];
      FrameReadsBack(frames[i], m.version, m.seriType, m.name, m.outs, m.arrays, slots);
    }
    forall i, tail: Bytes | 0 <= i < |frames| ensures FirstFrame(frames[i] + tail) == Some(frames[i]) {
      FrameIsFirst(frames[i], tail);
    }
    SplitUndoesJoin(FirstFrame, frames, rest);
  }
}

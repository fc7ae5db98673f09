/**
 * The RAW1 byte stream: an eight-byte count, then one record per array of four
 * int32 (rows, columns, element size, class) followed by the data, padded to a
 * multiple of eight. Padding bytes are never written.
 */
module Raw1 {
  import opened Common
  import opened Octets
  import opened NwArrays

  const COUNT_LEN := 8
  const RECORD_HEADER_LEN := 16

  // ---- sizes ----

  function Padded(len: int): int { (Quotient(len, 8) + (if Remainder(len, 8) != 0 then 1 else 0)) * 8 }

  lemma PaddedIsTight(len: nat)
    ensures Padded(len) % 8 == 0 && len <= Padded(len) < len + 8
  {
  }

  function RecordLen(a: Arr): nat {
    RECORD_HEADER_LEN + Padded(|a.data|)
  }

  /** Where the record after the first `k` arguments begins; absent arguments have none. */
  function Offset(args: seq<Option<Arr>>, k: nat): (r: nat)
    requires k <= |args|
    ensures r >= COUNT_LEN
  {
    if k == 0 then COUNT_LEN
    else Offset(args, k - 1) + if args[k - 1].Some? then RecordLen(args[k - 1].value) else 0
  }

  function Total(args: seq<Option<Arr>>): nat { Offset(args, |args|) }

  lemma {:induction false} OffsetMonotone(args: seq<Option<Arr>>, i: nat, k: nat)
    requires i <= k <= |args|
    ensures Offset(args, i) <= Offset(args, k)
  {
    if i < k { OffsetMonotone(args, i, k - 1); }
  }

  lemma RecordLenAligned(a: Arr)
    ensures RecordLen(a) % 8 == 0
    ensures RECORD_HEADER_LEN + |a.data| <= RecordLen(a) < RECORD_HEADER_LEN + |a.data| + 8
  {
    PaddedIsTight(|a.data|);
  }

  lemma AddAligned(x: int, y: int)
    requires x % 8 == 0 && y % 8 == 0
    ensures (x + y) % 8 == 0
  {
  }

  /** Every record starts on a multiple of eight and is followed by fewer than eight bytes of padding. */
  lemma {:induction false} RecordsAligned(args: seq<Option<Arr>>, k: nat)
    requires k <= |args|
    ensures Offset(args, k) % 8 == 0
    ensures k < |args| && args[k].Some? ==>
      var end := Offset(args, k) + RECORD_HEADER_LEN + |args[k].value.data|;
      end <= Offset(args, k + 1) < end + 8
  {
    if k > 0 {
      RecordsAligned(args, k - 1);
      if args[k - 1].Some? {
        RecordLenAligned(args[k - 1].value);
        AddAligned(Offset(args, k - 1), RecordLen(args[k - 1].value));
      }
    }
    if k < |args| && args[k].Some? { RecordLenAligned(args[k].value); }
  }

  // ---- the encoder ----

  function RecordHeader(a: Arr): (r: Bytes)
    requires FitsInt32(a.m) && FitsInt32(a.n) && FitsInt32(a.classId)
    requires a.Valid()
    ensures |r| == RECORD_HEADER_LEN
  {
    LE32(a.m) + LE32(a.n) + LE32(a.elementSize) + LE32(a.classId)
  }

  predicate Encodable(a: Arr) {
    a.Valid() && FitsInt32(a.m) && FitsInt32(a.n) && FitsInt32(a.classId)
  }

  predicate AllEncodable(args: seq<Option<Arr>>) {
    forall i :: 0 <= i < |args| && args[i].Some? ==> Encodable(args[i].value)
  }

  function WriteRecord(s: Bytes, off: nat, a: Arr): (r: Bytes)
    requires Encodable(a) && off + RecordLen(a) <= |s|
    ensures |r| == |s|
  {
    PaddedIsTight(|a.data|);
    Put(Put(s, off, RecordHeader(a)), off + RECORD_HEADER_LEN, a.data)
  }

  /** How many arguments the encoder gets through before one does not fit. */
  function Fitting(args: seq<Option<Arr>>, len: nat): (k: nat)
    ensures k <= |args|
    ensures COUNT_LEN <= len ==> Offset(args, k) <= len
    ensures k < |args| ==> args[k].Some? && Offset(args, k + 1) > len
    ensures forall i :: 0 <= i < k && COUNT_LEN <= len ==> Offset(args, i) <= len
  {
    FittingFrom(args, len, 0)
  }

  function FittingFrom(args: seq<Option<Arr>>, len: nat, i: nat): (k: nat)
    requires i <= |args|
    requires forall j :: 0 <= j <= i && COUNT_LEN <= len ==> Offset(args, j) <= len
    ensures i <= k <= |args|
    ensures COUNT_LEN <= len ==> Offset(args, k) <= len
    ensures k < |args| ==> args[k].Some? && Offset(args, k + 1) > len
    ensures forall j :: 0 <= j <= k && COUNT_LEN <= len ==> Offset(args, j) <= len
    decreases |args| - i
  {
    if i == |args| || (args[i].Some? && Offset(args, i + 1) > len) then i
    else FittingFrom(args, len, i + 1)
  }

  /** The buffer after the records of the first `k` arguments have been written over it. */
  function Records(stale: Bytes, args: seq<Option<Arr>>, k: nat): (r: Bytes)
    requires k <= |args| && AllEncodable(args) && Offset(args, k) <= |stale|
    ensures |r| == |stale|
  {
    if k == 0 then stale
    else if args[k - 1].None? then Records(stale, args, k - 1)
    else WriteRecord(Records(stale, args, k - 1), Offset(args, k - 1), args[k - 1].value)
  }

  /** The whole stream, written over whatever the buffer held. */
  function Encode(stale: Bytes, args: seq<Option<Arr>>): (r: Bytes)
    requires AllEncodable(args) && |stale| >= COUNT_LEN && FitsInt32(|args|)
    ensures |r| == |stale|
  {
    var k := Fitting(args, |stale|);
    Put(Records(stale, args, k), 0, LE64(k))
  }

  // ---- the decoder ----

  /** The int32 product the decoder computes from a record header. */
  function HeaderLen(s: Bytes, off: nat): int
    requires off + RECORD_HEADER_LEN <= |s|
  {
    Wrap32(Times(Wrap32(Times(Read32(s, off), Read32(s, off + 4))), Read32(s, off + 8)))
  }

  /** The test that ends decoding: the padded data would not fit. */
  predicate Overruns(s: Bytes, off: nat)
    requires off + RECORD_HEADER_LEN <= |s|
  {
    var padded := Wrap32(Padded(HeaderLen(s, off)));
    padded < 0 || Wrap32(off + RECORD_HEADER_LEN + padded) > |s|
  }

  /**
   * For a record whose length is not negative, the test ends decoding exactly if the
   * padded data does not fit, unless the sum behind it leaves the int32 range.
   */
  lemma StopsRightlyIff(s: Bytes, off: nat)
    requires off + RECORD_HEADER_LEN <= |s| && FitsInt32(|s|) && HeaderLen(s, off) >= 0
    ensures var padded, end := Padded(HeaderLen(s, off)), off + RECORD_HEADER_LEN + Padded(HeaderLen(s, off));
      (Overruns(s, off) <==> end > |s|) <==> !(padded < TWO31 <= end)
  {
    hide Read32, Times;
    PaddedIsTight(HeaderLen(s, off));
    var padded := Padded(HeaderLen(s, off));
    if padded < TWO31 {
      WrapOnce(off + RECORD_HEADER_LEN + padded);
    } else {
      assert padded == TWO31;
      WrapOnce(padded);
    }
  }

  /** A sum that leaves the int32 range on the upper side becomes negative. */
  lemma WrapOnce(x: int)
    requires 0 <= x < TWO32
    ensures Wrap32(x) == if x < TWO31 then x else x - TWO32
  {
  }

  /** So a record of nearly 2^31 bytes passes on a stream of 24. */
  lemma TooLongPasses() returns (s: Bytes)
    ensures |s| == 24 && HeaderLen(s, 8) == 0x7FFF_FFF8 && !Overruns(s, 8)
  {
    hide Times, LE32, Read32, Padded;
    s := LE32(0) + LE32(0) + LE32(0x7FFF_FFF8) + LE32(1) + LE32(1) + LE32(8);
    assert s[8..12] == LE32(0x7FFF_FFF8) && s[12..16] == LE32(1) && s[16..20] == LE32(1);
    ReadBack32(s, 8, 0x7FFF_FFF8);
    ReadBack32(s, 12, 1);
    ReadBack32(s, 16, 1);
    TimesOne(0x7FFF_FFF8);
    PaddedWhole(0x7FFF_FFF8);
    StopsRightlyIff(s, 8);
  }

  lemma PaddedWhole(len: nat)
    requires len % 8 == 0
    ensures Padded(len) == len
  {
  }

  lemma TimesOne(x: int)
    ensures Times(x, 1) == x
  {
    assert Times(x, 0) == 0;
  }

  /** A record that passes the test lies inside the stream, if its length is not negative and the sum stays in the int32 range. */
  lemma PassedLiesInside(s: Bytes, off: nat)
    requires off + RECORD_HEADER_LEN <= |s| && FitsInt32(|s|) && !Overruns(s, off)
    requires HeaderLen(s, off) >= 0 && off + RECORD_HEADER_LEN + Padded(HeaderLen(s, off)) < TWO31
    ensures off + RECORD_HEADER_LEN + HeaderLen(s, off) <= |s|
  {
    hide HeaderLen;
    PaddedIsTight(HeaderLen(s, off));
    StopsRightlyIff(s, off);
  }

  /**
   * One turn of the decoder's loop: an array and where the next record starts,
   * the end, or a record the decoder does not guard against: its header lies
   * outside the stream, or its size is not what its class and dimensions say.
   */
  datatype Step = Item(a: Arr, next: nat) | Stop | Fault

  predicate RecordMatches(s: Bytes, off: nat)
    requires off + RECORD_HEADER_LEN <= |s|
  {
    var m, n := Read32(s, off), Read32(s, off + 4);
    && m >= 0 && n >= 0
    && Read32(s, off + 8) == ElementSize(Read32(s, off + 12))
    && HeaderLen(s, off) == Size(m, n, ElementSize(Read32(s, off + 12)))
    && off + RECORD_HEADER_LEN + Padded(HeaderLen(s, off)) <= |s|
  }

  function ReadRecord(s: Bytes, off: nat): (r: Arr)
    requires off + RECORD_HEADER_LEN <= |s| && RecordMatches(s, off)
    ensures r.Valid() && HeaderLen(s, off) == |r.data|
  {
    PaddedIsTight(HeaderLen(s, off));
    var start := off + RECORD_HEADER_LEN;
    Arr(Read32(s, off), Read32(s, off + 4), Read32(s, off + 8), Read32(s, off + 12),
        s[start..start + HeaderLen(s, off)])
  }

  function StepAt(s: Bytes, off: nat): Step {
    if off + RECORD_HEADER_LEN > |s| then Fault
    else if Overruns(s, off) then Stop
    else if !RecordMatches(s, off) then Fault
    else Item(ReadRecord(s, off), off + RecordLen(ReadRecord(s, off)))
  }

  /** The arrays found, and whether the decoder stayed inside the stream. */
  datatype Decoded = Decoded(arrays: seq<Arr>, inside: bool)

  function Walk(step: nat -> Step, off: nat, k: int): (r: Decoded)
    ensures k >= 0 ==> |r.arrays| <= k
    decreases k
  {
    if k <= 0 then Decoded([], true)
    else
      match step(off)
      case Fault => Decoded([], false)
      case Stop => Decoded([], true)
      case Item(a, next) =>
        var rest := Walk(step, next, k - 1);
        Decoded([a] + rest.arrays, rest.inside)
  }

  /** The number of arrays the decoder goes for. */
  function WantedCount(s: Bytes, slots: int): int
    requires COUNT_LEN <= |s|
  {
    var count := Read64As32(s, 0);
    if count > slots then slots else count
  }

  function Decode(s: Bytes, slots: int): Decoded
    requires COUNT_LEN <= |s|
  {
    Walk(Steps(s), COUNT_LEN, WantedCount(s, slots))
  }

  function Steps(s: Bytes): nat -> Step {
    (off: nat) => StepAt(s, off)
  }

  // ---- round trip ----

  /** Record `a` can be read at `off`. */
  predicate RecordAt(s: Bytes, off: nat, a: Arr) {
    && Encodable(a)
    && off + RecordLen(a) <= |s| && off + RECORD_HEADER_LEN + |a.data| <= |s|
    && s[off..off + RECORD_HEADER_LEN] == RecordHeader(a)
    && s[off + RECORD_HEADER_LEN..off + RECORD_HEADER_LEN + |a.data|] == a.data
  }

  lemma WrittenRecord(s: Bytes, off: nat, a: Arr)
    requires Encodable(a) && off + RecordLen(a) <= |s|
    ensures RecordAt(WriteRecord(s, off, a), off, a)
  {
    PaddedIsTight(|a.data|);
    var one := Put(s, off, RecordHeader(a));
    PutReads(s, off, RecordHeader(a));
    PutReads(one, off + RECORD_HEADER_LEN, a.data);
    PutElsewhere(one, off + RECORD_HEADER_LEN, a.data, off, off + RECORD_HEADER_LEN);
  }

  lemma WriteElsewhere(s: Bytes, off: nat, a: Arr, i: nat, j: nat)
    requires Encodable(a) && off + RecordLen(a) <= |s| && i <= j <= off
    ensures WriteRecord(s, off, a)[i..j] == s[i..j]
  {
    PaddedIsTight(|a.data|);
    PutElsewhere(s, off, RecordHeader(a), i, j);
    PutElsewhere(Put(s, off, RecordHeader(a)), off + RECORD_HEADER_LEN, a.data, i, j);
  }

  /** A record before the one being written stays. */
  lemma RecordStays(s: Bytes, off: nat, a: Arr, at: nat, b: Arr)
    requires RecordAt(s, off, a) && off + RecordLen(a) <= at
    requires Encodable(b) && at + RecordLen(b) <= |s|
    ensures RecordAt(WriteRecord(s, at, b), off, a)
  {
    RecordLenAligned(a);
    WriteElsewhere(s, at, b, off, off + RECORD_HEADER_LEN);
    WriteElsewhere(s, at, b, off + RECORD_HEADER_LEN, off + RECORD_HEADER_LEN + |a.data|);
  }

  /** Every record written so far stays readable. */
  lemma {:induction false} RecordsStay(stale: Bytes, args: seq<Option<Arr>>, k: nat, i: nat)
    requires k <= |args| && AllEncodable(args) && Offset(args, k) <= |stale|
    requires i < k && args[i].Some?
    ensures RecordAt(Records(stale, args, k), Offset(args, i), args[i].value)
  {
    hide RecordAt, WriteRecord, RecordHeader, Encodable;
    if i == k - 1 {
      WrittenRecord(Records(stale, args, k - 1), Offset(args, k - 1), args[k - 1].value);
    } else {
      RecordsStay(stale, args, k - 1, i);
      OffsetMonotone(args, i + 1, k - 1);
      if args[k - 1].Some? {
        RecordStays(Records(stale, args, k - 1), Offset(args, i), args[i].value, Offset(args, k - 1), args[k - 1].value);
      }
    }
  }

  /** A record after the count is not touched by writing the count. */
  lemma CountLeavesRecord(s: Bytes, k: int, off: nat, a: Arr)
    requires RecordAt(s, off, a) && FitsInt32(k) && COUNT_LEN <= off
    ensures RecordAt(Put(s, 0, LE64(k)), off, a)
  {
    PutElsewhere(s, 0, LE64(k), off, off + RECORD_HEADER_LEN);
    PutElsewhere(s, 0, LE64(k), off + RECORD_HEADER_LEN, off + RECORD_HEADER_LEN + |a.data|);
  }

  lemma EncodedRecord(stale: Bytes, args: seq<Option<Arr>>, i: nat)
    requires AllEncodable(args) && |stale| >= COUNT_LEN && FitsInt32(|args|)
    requires i < Fitting(args, |stale|) && args[i].Some?
    ensures RecordAt(Encode(stale, args), Offset(args, i), args[i].value)
  {
    var k := Fitting(args, |stale|);
    RecordsStay(stale, args, k, i);
    CountLeavesRecord(Records(stale, args, k), k, Offset(args, i), args[i].value);
  }

  /** A record that is there is decoded to the array that was written. */
  lemma RecordReadsBack(s: Bytes, off: nat, a: Arr)
    requires RecordAt(s, off, a) && FitsInt32(|s|)
    ensures StepAt(s, off) == Item(a, off + RecordLen(a))
  {
    HeaderReadsBack(s, off, a);
    PaddedIsTight(|a.data|);
    WrapProduct(Times(a.m, a.n), a.elementSize);
  }

  lemma FieldReadsBack(s: Bytes, off: nat, header: Bytes, i: nat, x: int)
    requires off + |header| <= |s| && s[off..off + |header|] == header
    requires i + 4 <= |header| && FitsInt32(x) && header[i..i + 4] == LE32(x)
    ensures Read32(s, off + i) == x
  {
    SliceInWindow(s, off, |header|, i, 4);
    ReadBack32(s, off + i, x);
  }

  lemma HeaderFields(a: Arr)
    requires Encodable(a)
    ensures var h := RecordHeader(a);
      h[0..4] == LE32(a.m) && h[4..8] == LE32(a.n) && h[8..12] == LE32(a.elementSize) && h[12..16] == LE32(a.classId)
  {
  }

  lemma HeaderReadsBack(s: Bytes, off: nat, a: Arr)
    requires RecordAt(s, off, a)
    ensures Read32(s, off) == a.m && Read32(s, off + 4) == a.n
    ensures Read32(s, off + 8) == a.elementSize && Read32(s, off + 12) == a.classId
  {
    var h := RecordHeader(a);
    HeaderFields(a);
    FieldReadsBack(s, off, h, 0, a.m);
    FieldReadsBack(s, off, h, 4, a.n);
    FieldReadsBack(s, off, h, 8, a.elementSize);
    FieldReadsBack(s, off, h, 12, a.classId);
  }

  function Present(arrays: seq<Arr>): (r: seq<Option<Arr>>)
    ensures |r| == |arrays|
  {
    seq(|arrays|, i requires 0 <= i < |arrays| => Some(arrays[i]))
  }

  lemma {:induction false} WalkFollows(step: nat -> Step, starts: seq<nat>, arrays: seq<Arr>)
    requires |starts| == |arrays| + 1
    requires forall j :: 0 <= j < |arrays| ==> step(starts[j]) == Item(arrays[j], starts[j + 1])
    ensures Walk(step, starts[0], |arrays|) == Decoded(arrays, true)
    decreases |arrays|
  {
    if arrays != [] { WalkFollows(step, starts[1..], arrays[1..]); }
  }

  function Offsets(args: seq<Option<Arr>>, k: nat): (r: seq<nat>)
    requires k <= |args|
    ensures |r| == k + 1 && forall j :: 0 <= j <= k ==> r[j] == Offset(args, j)
  {
    seq(k + 1, j requires 0 <= j <= k => Offset(args, j))
  }

  lemma NextOffset(args: seq<Option<Arr>>, j: nat)
    requires j < |args| && args[j].Some?
    ensures Offset(args, j + 1) == Offset(args, j) + RecordLen(args[j].value)
  {
  }

  lemma EncodedStep(stale: Bytes, arrays: seq<Arr>, j: nat)
    requires forall i :: 0 <= i < |arrays| ==> Encodable(arrays[i])
    requires |stale| >= COUNT_LEN && FitsInt32(|stale|) && FitsInt32(|arrays|)
    requires j < Fitting(Present(arrays), |stale|)
    ensures var args := Present(arrays);
      StepAt(Encode(stale, args), Offset(args, j)) == Item(arrays[j], Offset(args, j + 1))
  {
    hide Encode, StepAt, RecordAt, Offset, Fitting, RecordLen, Encodable;
    EncodedRecord(stale, Present(arrays), j);
    NextOffset(Present(arrays), j);
    RecordReadsBack(Encode(stale, Present(arrays)), Offset(Present(arrays), j), arrays[j]);
  }

  lemma EncodedCount(stale: Bytes, args: seq<Option<Arr>>, slots: nat)
    requires AllEncodable(args) && |stale| >= COUNT_LEN && FitsInt32(|args|)
    ensures var k := Fitting(args, |stale|);
      WantedCount(Encode(stale, args), slots) == if k < slots then k else slots
  {
    var k := Fitting(args, |stale|);
    PutReads(Records(stale, args, k), 0, LE64(k));
    ReadBack64(Encode(stale, args), 0, k);
  }

  /**
   * Round trip: whatever the buffer held, decoding what was encoded into it
   * restores exactly the longest leading run of arrays whose records fit, cut
   * to the number of output slots; and the decoder stays inside the stream.
   */
  lemma RoundTrip(stale: Bytes, arrays: seq<Arr>, slots: nat)
    requires forall i :: 0 <= i < |arrays| ==> Encodable(arrays[i])
    requires |stale| >= COUNT_LEN && FitsInt32(|stale|) && FitsInt32(|arrays|)
    ensures var k := Fitting(Present(arrays), |stale|);
      Decode(Encode(stale, Present(arrays)), slots) == Decoded(arrays[..if k < slots then k else slots], true)
  {
    var args := Present(arrays);
    var s := Encode(stale, args);
    EncodedCount(stale, args, slots);
    var count := WantedCount(s, slots);
    var starts := Offsets(args, count);
    forall j | 0 <= j < count ensures Steps(s)(starts[j]) == Item(arrays[..count][j], starts[j + 1]) {
      EncodedStep(stale, arrays, j);
    }
    WalkFollows(Steps(s), starts, arrays[..count]);
  }

  /** The size pre-pass is exact: a buffer of that length takes every argument, and the encoder ends at its end. */
  lemma {:induction false} PrepassIsExact(args: seq<Option<Arr>>)
    ensures Fitting(args, Total(args)) == |args|
  {
    var k := Fitting(args, Total(args));
    if k < |args| { OffsetMonotone(args, k + 1, |args|); }
  }

  /** Records written for the first `k` arguments: one for each argument that is there. */
  function RecordCount(args: seq<Option<Arr>>, k: nat): (r: nat)
    requires k <= |args|
    ensures r <= k
  {
    if k == 0 then 0 else RecordCount(args, k - 1) + if args[k - 1].Some? then 1 else 0
  }

  lemma {:induction false} RecordCountFull(args: seq<Option<Arr>>, k: nat)
    requires k <= |args|
    ensures RecordCount(args, k) == k <==> forall i :: 0 <= i < k ==> args[i].Some?
  {
    if k > 0 { RecordCountFull(args, k - 1); }
  }

  /** The count that is sent includes absent arguments, which have no record: it is right exactly when none is absent. */
  lemma CountIsRightIffNoneAbsent(stale: Bytes, args: seq<Option<Arr>>)
    requires AllEncodable(args) && |stale| >= COUNT_LEN && FitsInt32(|args|)
    ensures var k := Fitting(args, |stale|);
      WantedCount(Encode(stale, args), |args|) == RecordCount(args, k) <==> forall i :: 0 <= i < k ==> args[i].Some?
  {
    EncodedCount(stale, args, |args|);
    RecordCountFull(args, Fitting(args, |stale|));
  }
}

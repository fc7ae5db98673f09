/** The four functions registered for RAW1, working on buffers and matrices in place. */
module Raw1Codec {
  import opened Common
  import opened Octets
  import opened NwArrays
  import opened Raw1

  /** What the C expressions compute for the length of one array. */
  function Length32(m: nat, n: nat, elementSize: nat): int {
    Wrap32(Times(Wrap32(Times(Wrap32(m), Wrap32(n))), Wrap32(elementSize)))
  }

  lemma LengthExact(m: nat, n: nat, elementSize: nat)
    ensures Length32(m, n, elementSize) == Wrap32(Size(m, n, elementSize))
  {
    WrapProduct(m, n);
    WrapProduct(Times(m, n), elementSize);
  }

  predicate AllValid(args: seq<Option<Arr>>) {
    forall i :: 0 <= i < |args| && args[i].Some? ==> args[i].value.Valid()
  }

  /** The size pre-pass. Its int32 arithmetic is exact for as long as the length itself is an int32. */
  method SerializeToResource(args: seq<Option<Arr>>) returns (r: int)
    requires AllValid(args)
    ensures FitsInt32(r)
    ensures r == Total(args) <==> Total(args) < TWO31
  {
    r := COUNT_LEN;
    var i := 0;
    while i < |args|
      invariant i <= |args| && FitsInt32(r)
      invariant Total(args) < TWO31 ==> r == Offset(args, i)
    {
      if args[i].Some? {
        var a := args[i].value;
        var corrected := Wrap32(Padded(Length32(a.m, a.n, a.elementSize)));
        r := Wrap32(r + RECORD_HEADER_LEN);
        r := Wrap32(r + corrected);
        if Total(args) < TWO31 { SingleLength(args, i); }
      }
      i := i + 1;
    }
  }

  lemma HeaderInFour(s: Bytes, off: nat, a: Arr)
    requires Encodable(a) && off + RECORD_HEADER_LEN <= |s|
    ensures Put(Put(Put(Put(s, off, LE32(a.m)), off + 4, LE32(a.n)), off + 8, LE32(a.elementSize)), off + 12, LE32(a.classId))
         == Put(s, off, RecordHeader(a))
  {
    PutsJoin(s, off, LE32(a.m), LE32(a.n));
    PutsJoin(s, off, LE32(a.m) + LE32(a.n), LE32(a.elementSize));
    PutsJoin(s, off, LE32(a.m) + LE32(a.n) + LE32(a.elementSize), LE32(a.classId));
  }

  lemma FittingIs(args: seq<Option<Arr>>, len: nat, k: nat)
    requires COUNT_LEN <= len && k <= |args| && Offset(args, k) <= len
    requires k < |args| ==> args[k].Some? && Offset(args, k + 1) > len
    ensures Fitting(args, len) == k
  {
    var f := Fitting(args, len);
    if f < k { OffsetMonotone(args, f + 1, k); }
  }

  lemma SingleLength(views: seq<Option<Arr>>, i: nat)
    requires i < |views| && views[i].Some? && views[i].value.Valid() && FitsInt32(Total(views))
    ensures var a := views[i].value;
      && Length32(a.m, a.n, a.elementSize) == |a.data|
      && FitsInt32(Padded(|a.data|)) && |a.data| <= Padded(|a.data|)
      && Offset(views, i + 1) == Offset(views, i) + RECORD_HEADER_LEN + Padded(|a.data|)
      && FitsInt32(Offset(views, i + 1))
  {
    var a := views[i].value;
    OffsetMonotone(views, i + 1, |views|);
    LengthExact(a.m, a.n, a.elementSize);
    PaddedIsTight(|a.data|);
  }

  /** The four header fields and the data of one record. */
  method PutRecord(buf: Buffer, pos: nat, a: Arr)
    requires Encodable(a) && pos + RecordLen(a) <= |buf.bytes|
    modifies buf
    ensures buf.bytes == WriteRecord(old(buf.bytes), pos, a)
  {
    RecordLenAligned(a);
    buf.Write(pos, LE32(a.m));
    buf.Write(pos + 4, LE32(a.n));
    buf.Write(pos + 8, LE32(a.elementSize));
    buf.Write(pos + 12, LE32(a.classId));
    HeaderInFour(old(buf.bytes), pos, a);
    buf.Write(pos + RECORD_HEADER_LEN, a.data);
  }

  lemma RecordInWindow(s: Bytes, base: nat, len: nat, off: nat, a: Arr)
    requires base + len <= |s| && Encodable(a) && off + RecordLen(a) <= len
    ensures WriteRecord(s, base + off, a) == Put(s, base, WriteRecord(s[base..base + len], off, a))
  {
    RecordLenAligned(a);
    var one := Put(s, base + off, RecordHeader(a));
    var w := Put(s[base..base + len], off, RecordHeader(a));
    PutInWindow(s, base, len, off, RecordHeader(a));
    PutInWindow(one, base, len, off + RECORD_HEADER_LEN, a.data);
    PutReads(s, base, w);
    PutTwice(s, base, w, Put(w, off + RECORD_HEADER_LEN, a.data));
  }

  lemma AbsentRecord(stale: Bytes, args: seq<Option<Arr>>, i: nat)
    requires i < |args| && args[i].None? && AllEncodable(args) && Offset(args, i) <= |stale|
    ensures Offset(args, i + 1) == Offset(args, i) && Records(stale, args, i + 1) == Records(stale, args, i)
  {
  }

  /** The window of the buffer holds the records of the first `k` arguments. */
  predicate WrittenUpTo(b: Bytes, was: Bytes, base: nat, len: nat, args: seq<Option<Arr>>, k: nat) {
    && k <= |args| && AllEncodable(args) && base + len <= |was| && Offset(args, k) <= len
    && b == Put(was, base, Records(was[base..base + len], args, k))
  }

  /** One turn of the encoder's loop; `fits` is false when it ends the loop. */
  method WriteNext(buf: Buffer, base: nat, len: nat, off: nat, args: seq<Option<Arr>>, i: nat, ghost was: Bytes)
    returns (fits: bool, next: nat)
    requires i < |args| && FitsInt32(len) && FitsInt32(Total(args))
    requires WrittenUpTo(buf.bytes, was, base, len, args, i) && off == Offset(args, i)
    modifies buf
    ensures fits == (args[i].None? || Offset(args, i + 1) <= len)
    ensures if fits then WrittenUpTo(buf.bytes, was, base, len, args, i + 1) && next == Offset(args, i + 1)
            else buf.bytes == old(buf.bytes)
  {
    hide Put, Records, Offset, Length32, LE32, RecordHeader, Wrap32, Padded, Size;
    fits, next := true, off;
    if args[i].None? {
      AbsentRecord(was[base..base + len], args, i);
    } else {
      var a := args[i].value;
      var corrected := Wrap32(Padded(Length32(a.m, a.n, a.elementSize)));
      SingleLength(args, i);
      fits := Wrap32(off + corrected + RECORD_HEADER_LEN) <= len;
      if fits {
        PutRecord(buf, base + off, a);
        NextRecord(was, base, len, args, i);
        next := off + RECORD_HEADER_LEN + corrected;
      }
    }
  }

  /** The encoder: writes the records that fit, then how many arguments it got through. */
  method WriteStream(buf: Buffer, base: nat, len: nat, args: seq<Option<Arr>>)
    requires base + len <= |buf.bytes| && COUNT_LEN <= len && FitsInt32(len)
    requires AllEncodable(args) && FitsInt32(|args|) && FitsInt32(Total(args))
    modifies buf
    ensures buf.bytes == Put(old(buf.bytes), base, Encode(old(buf.bytes)[base..base + len], args))
  {
    hide Put, LE32, RecordHeader, Encode, Wrap32, Size;
    ghost var was := buf.bytes;
    PutSame(was, base, len);
    var numOfArgs := |args|;
    var off: nat := COUNT_LEN;
    var i := 0;
    while i < numOfArgs
      invariant i <= numOfArgs == |args| && off == Offset(args, i)
      invariant WrittenUpTo(buf.bytes, was, base, len, args, i)
    {
      var fits, next := WriteNext(buf, base, len, off, args, i, was);
      if !fits {
        numOfArgs := i;
        break;
      }
      off := next;
      i := i + 1;
    }
    FittingIs(args, len, numOfArgs);
    buf.Write(base, LE64(numOfArgs));
    CountInWindow(was, base, len, args);
  }

  lemma CountInWindow(was: Bytes, base: nat, len: nat, views: seq<Option<Arr>>)
    requires base + len <= |was| && COUNT_LEN <= len && AllEncodable(views) && FitsInt32(|views|)
    ensures var w, k := was[base..base + len], Fitting(views, len);
      Put(Put(was, base, Records(w, views, k)), base, LE64(k)) == Put(was, base, Encode(w, views))
  {
    hide Put, LE32, LE64, Records;
    var w, k := was[base..base + len], Fitting(views, len);
    PutOverWindow(was, base, Records(w, views, k), LE64(k));
  }

  lemma NextRecord(was: Bytes, base: nat, len: nat, views: seq<Option<Arr>>, i: nat)
    requires base + len <= |was| && i < |views| && views[i].Some? && AllEncodable(views)
    requires Offset(views, i + 1) <= len
    ensures var window := was[base..base + len];
      WriteRecord(Put(was, base, Records(window, views, i)), base + Offset(views, i), views[i].value)
      == Put(was, base, Records(window, views, i + 1))
  {
    hide Put, LE32, RecordHeader, WriteRecord, RecordLen;
    var window := was[base..base + len];
    var s := Put(was, base, Records(window, views, i));
    PutReads(was, base, Records(window, views, i));
    RecordInWindow(s, base, len, Offset(views, i), views[i].value);
    PutTwice(was, base, Records(window, views, i), Records(window, views, i + 1));
  }

  // ---- decoding ----

  lemma ReadInWindow(s: Bytes, base: nat, len: nat, off: nat)
    requires base + len <= |s| && off + 4 <= len
    ensures Read32(s[base..base + len], off) == Read32(s, base + off)
  {
    SliceInWindow(s, base, len, off, 4);
    ReadSame32(s[base..base + len], off, s, base + off);
  }

  /** The count reader. */
  method ReadCount(buf: Buffer, base: nat, len: nat) returns (count: int)
    requires base + len <= |buf.bytes| && COUNT_LEN <= len
    ensures count == Read64As32(buf.bytes[base..base + len], 0)
  {
    var low := buf.GetInt32(base);
    var high := buf.GetInt32(base + 4);
    ReadInWindow(buf.bytes, base, len, 0);
    ReadInWindow(buf.bytes, base, len, 4);
    count := From64(low, high);
  }

  /** The slot holds this matrix, or nothing. */
  ghost predicate SlotShows(slot: NwArray?, view: Option<Arr>)
    reads slot
  {
    if slot == null then view == None else slot.Valid() && view == Some(slot.View())
  }

  /** What the output slots hold; no matrix is in two of them. */
  ghost predicate Shows(slots: array<NwArray?>, views: seq<Option<Arr>>)
    reads slots, slots[..]
  {
    && slots.Length == |views|
    && (forall i :: 0 <= i < slots.Length ==> SlotShows(slots[i], views[i]))
    && (forall i, j :: 0 <= i < j < slots.Length && slots[i] != null ==> slots[i] != slots[j])
  }

  lemma SlotCount(slots: array<NwArray?>, views: seq<Option<Arr>>)
    requires Shows(slots, views)
    ensures slots.Length == |views|
  {
  }

  /** A matrix that is in a slot was in it before, or is new. */
  twostate predicate Reused(slots: array<NwArray?>)
    reads slots
  {
    forall i :: 0 <= i < slots.Length && slots[i] != null ==> slots[i] == old(slots[i]) || fresh(slots[i])
  }

  /** The bytes of record `a` are at `off`, as the decoder will find them. */
  predicate RecordBytes(s: Bytes, off: nat, a: Arr) {
    && a.Valid() && off + RECORD_HEADER_LEN + |a.data| <= |s|
    && Read32(s, off) == a.m && Read32(s, off + 4) == a.n && Read32(s, off + 12) == a.classId
    && HeaderLen(s, off) == |a.data|
    && s[off + RECORD_HEADER_LEN..off + RECORD_HEADER_LEN + |a.data|] == a.data
  }

  lemma StepUnlessFault(s: Bytes, off: nat)
    requires StepAt(s, off) != Fault
    ensures off + RECORD_HEADER_LEN <= |s|
    ensures StepAt(s, off).Stop? <==> Overruns(s, off)
    ensures !Overruns(s, off) ==>
      var next := off + RECORD_HEADER_LEN + Padded(HeaderLen(s, off));
      && 0 <= HeaderLen(s, off) && next <= |s|
      && StepAt(s, off).next == next && RecordBytes(s, off, StepAt(s, off).a)
  {
    if !Overruns(s, off) { PaddedIsTight(HeaderLen(s, off)); }
  }

  lemma WindowReads(s: Bytes, base: nat, len: nat, off: nat)
    requires base + len <= |s| && off + RECORD_HEADER_LEN <= len
    ensures var w := s[base..base + len];
      && Read32(w, off) == Read32(s, base + off) && Read32(w, off + 4) == Read32(s, base + off + 4)
      && Read32(w, off + 8) == Read32(s, base + off + 8) && Read32(w, off + 12) == Read32(s, base + off + 12)
  {
    ReadInWindow(s, base, len, off);
    ReadInWindow(s, base, len, off + 4);
    ReadInWindow(s, base, len, off + 8);
    ReadInWindow(s, base, len, off + 12);
  }

  /** The decoder's test for the record at `off`; the data length when it passes. */
  method CheckRecord(buf: Buffer, base: nat, len: nat, off: nat) returns (stop: bool, single: int, corrected: int)
    requires base + len <= |buf.bytes| && off + RECORD_HEADER_LEN <= len
    ensures var w := buf.bytes[base..base + len];
      stop == Overruns(w, off) && single == HeaderLen(w, off) && corrected == Wrap32(Padded(single))
  {
    hide Read32, Times;
    var m := buf.GetInt32(base + off);
    var n := buf.GetInt32(base + off + 4);
    var elementSize := buf.GetInt32(base + off + 8);
    WindowReads(buf.bytes, base, len, off);
    single := Wrap32(Times(Wrap32(Times(m, n)), elementSize));
    corrected := Wrap32(Padded(single));
    stop := corrected < 0 || Wrap32(off + RECORD_HEADER_LEN + corrected) > len;
  }

  /** Resize one slot and copy data into it. */
  method Load(slot: NwArray?, m: nat, n: nat, classId: int, data: Bytes) returns (r: NwArray)
    requires slot != null ==> slot.Valid()
    requires |data| == Size(m, n, ElementSize(classId))
    modifies slot
    ensures r.Valid() && r.View() == Arr(m, n, ElementSize(classId), classId, data)
    ensures if slot == null then fresh(r) else r == slot
  {
    r := NwArray.Resize(slot, m, n, classId);
    r.Fill(data);
  }

  lemma RecordInBuffer(s: Bytes, base: nat, len: nat, off: nat, a: Arr)
    requires base + len <= |s| && RecordBytes(s[base..base + len], off, a)
    ensures var start := base + off + RECORD_HEADER_LEN;
      && start + |a.data| <= |s| && s[start..start + |a.data|] == a.data
      && Read32(s, base + off) == a.m && Read32(s, base + off + 4) == a.n && Read32(s, base + off + 12) == a.classId
    ensures a == Arr(a.m, a.n, ElementSize(a.classId), a.classId, a.data)
    ensures |a.data| == Size(a.m, a.n, ElementSize(a.classId))
  {
    WindowReads(s, base, len, off);
    SliceInWindow(s, base, len, off + RECORD_HEADER_LEN, |a.data|);
  }

  /** Read the record at `off` into one slot. */
  method FillSlot(buf: Buffer, base: nat, len: nat, off: nat, single: nat, slot: NwArray?, ghost a: Arr) returns (r: NwArray)
    requires base + len <= |buf.bytes|
    requires RecordBytes(buf.bytes[base..base + len], off, a) && single == |a.data|
    requires slot != null ==> slot.Valid()
    modifies slot
    ensures r.Valid() && r.View() == a
    ensures if slot == null then fresh(r) else r == slot
  {
    hide Read32, Size, RecordBytes;
    RecordInBuffer(buf.bytes, base, len, off, a);
    var m := buf.GetInt32(base + off);
    var n := buf.GetInt32(base + off + 4);
    var classId := buf.GetInt32(base + off + 12);
    var start := base + off + RECORD_HEADER_LEN;
    r := Load(slot, m, n, classId, buf.bytes[start..start + single]);
  }

  /** `step` is what the decoder does on this stream; the trigger keeps its definition out of the way until it is asked for. */
  ghost predicate Tells(step: nat -> Step, s: Bytes) {
    forall off: nat {:trigger StepAt(s, off)} :: step(off) == StepAt(s, off)
  }

  /** One turn of the decoder's loop, on one slot. */
  method ReadNext(buf: Buffer, base: nat, len: nat, off: nat, slot: NwArray?, ghost step: nat -> Step)
    returns (stop: bool, next: nat, r: NwArray?)
    requires base + len <= |buf.bytes| && FitsInt32(len)
    requires slot != null ==> slot.Valid()
    requires Tells(step, buf.bytes[base..base + len]) && step(off) != Fault
    modifies slot
    ensures stop == step(off).Stop?
    ensures stop ==> r == slot && (slot != null ==> unchanged(slot))
    ensures !stop ==> next == step(off).next && SlotShows(r, Some(step(off).a))
    ensures !stop ==> if slot == null then fresh(r) else r == slot
  {
    ghost var w := buf.bytes[base..base + len];
    assert step(off) == StepAt(w, off);
    StepUnlessFault(w, off);
    var single, corrected;
    stop, single, corrected := CheckRecord(buf, base, len, off);
    next, r := off, slot;
    if !stop {
      r := FillSlot(buf, base, len, off, single, slot, step(off).a);
      next := off + RECORD_HEADER_LEN + corrected;
    }
  }

  /** The same, on slot `i` of the caller's array. */
  method ReadIntoSlot(buf: Buffer, base: nat, len: nat, off: nat, slots: array<NwArray?>, i: nat,
                      ghost views: seq<Option<Arr>>, ghost step: nat -> Step)
    returns (stop: bool, next: nat)
    requires base + len <= |buf.bytes| && FitsInt32(len) && i < slots.Length && Shows(slots, views)
    requires Tells(step, buf.bytes[base..base + len]) && step(off) != Fault
    modifies slots, slots[i]
    ensures stop == step(off).Stop? && (!stop ==> next == step(off).next)
    ensures Shows(slots, if stop then views else views[i := Some(step(off).a)])
    ensures forall j :: 0 <= j < slots.Length && j != i ==> slots[j] == old(slots[j])
    ensures Reused(slots)
  {
    assert SlotShows(slots[i], views[i]);
    var slot;
    stop, next, slot := ReadNext(buf, base, len, off, slots[i], step);
    slots[i] := slot;
  }

  /** The slots after the loop has taken up to `k` more records, from slot `i` on. */
  ghost function Filled(step: nat -> Step, off: nat, k: nat, views: seq<Option<Arr>>, i: nat): (r: seq<Option<Arr>>)
    requires i + k <= |views|
    ensures |r| == |views|
    decreases k
  {
    if k == 0 || !step(off).Item? then views
    else Filled(step, step(off).next, k - 1, views[i := Some(step(off).a)], i + 1)
  }

  lemma {:induction false} FilledIs(step: nat -> Step, off: nat, k: nat, views: seq<Option<Arr>>, i: nat)
    requires i + k <= |views|
    ensures var arrays := Walk(step, off, k).arrays;
      |arrays| <= k && Filled(step, off, k, views, i) == views[..i] + Present(arrays) + views[i + |arrays|..]
    decreases k
  {
    if k > 0 && step(off).Item? {
      var a, next := step(off).a, step(off).next;
      FilledIs(step, next, k - 1, views[i := Some(a)], i + 1);
      var rest := Walk(step, next, k - 1).arrays;
      assert Present([a] + rest) == [Some(a)] + Present(rest);
    }
  }

  /** The decoder's loop. */
  method ReadRecords(buf: Buffer, base: nat, len: nat, slots: array<NwArray?>, count: nat,
                     ghost views: seq<Option<Arr>>, ghost step: nat -> Step)
    requires base + len <= |buf.bytes| && FitsInt32(len)
    requires count <= slots.Length && Shows(slots, views)
    requires Tells(step, buf.bytes[base..base + len]) && Walk(step, COUNT_LEN, count).inside
    modifies slots, slots[..]
    ensures Shows(slots, Filled(step, COUNT_LEN, count, views, 0)) && Reused(slots)
  {
    ghost var now := views;
    var off: nat := COUNT_LEN;
    var i := 0;
    while i < count
      invariant i <= count && Shows(slots, now)
      invariant Walk(step, off, count - i).inside
      invariant Filled(step, off, count - i, now, i) == Filled(step, COUNT_LEN, count, views, 0)
      invariant Reused(slots) && forall j :: i <= j < slots.Length ==> slots[j] == old(slots[j])
    {
      var stop, next := ReadIntoSlot(buf, base, len, off, slots, i, now, step);
      if stop { break; }
      now := now[i := Some(step(off).a)];
      off := next;
      i := i + 1;
    }
  }

  /**
   * The decoder, for a stream that keeps it inside: afterwards the first slots
   * hold the arrays of the stream, and the other slots what they held.
   */
  method ReadStream(buf: Buffer, base: nat, len: nat, slots: array<NwArray?>, wanted: nat, ghost views: seq<Option<Arr>>)
    requires base + len <= |buf.bytes| && COUNT_LEN <= len && FitsInt32(len)
    requires wanted <= slots.Length && Shows(slots, views)
    requires Decode(buf.bytes[base..base + len], wanted).inside
    modifies slots, slots[..]
    ensures var arrays := Decode(buf.bytes[base..base + len], wanted).arrays;
      |arrays| <= wanted && Shows(slots, Present(arrays) + views[|arrays|..])
    ensures Reused(slots)
  {
    hide Read32, StepAt, Shows, Filled;
    var count := ReadCount(buf, base, len);
    if count > wanted { count := wanted; }
    if count <= 0 {
      assert Present([]) + views == views;
    } else {
      ghost var step := Steps(buf.bytes[base..base + len]);
      ReadRecords(buf, base, len, slots, count, views, step);
      FilledIs(step, COUNT_LEN, count, views, 0);
      ghost var arrays := Walk(step, COUNT_LEN, count).arrays;
      assert Filled(step, COUNT_LEN, count, views, 0) == Present(arrays) + views[|arrays|..];
    }
  }

  /** The values of the first `n` slots. */
  method Values(slots: array<NwArray?>, n: nat, ghost views: seq<Option<Arr>>) returns (values: seq<Option<Arr>>)
    requires n <= slots.Length && Shows(slots, views)
    ensures values == views[..n]
  {
    values := [];
    for i := 0 to n
      invariant values == views[..i]
    {
      assert SlotShows(slots[i], views[i]);
      var slot := slots[i];
      if slot == null {
        values := values + [None];
      } else {
        values := values + [Some(Arr(slot.m, slot.n, slot.elementSize, slot.classId,
                                     slot.storage[..Size(slot.m, slot.n, slot.elementSize)]))];
      }
    }
  }
}

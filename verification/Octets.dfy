/** Integers of fixed width, their little-endian bytes, and overwriting part of a byte sequence. */
module Octets {
  import opened Common

  const TWO31 := 0x8000_0000
  const TWO32 := 0x1_0000_0000

  predicate FitsInt32(x: int) { -TWO31 <= x < TWO31 }

  /** The int32 congruent to `x` modulo 2^32: conversion to int32, and int32 arithmetic on two's complement hardware. */
  function Wrap32(x: int): (r: int)
    ensures FitsInt32(r)
    ensures FitsInt32(x) ==> r == x
  {
    (x + TWO31) % TWO32 - TWO31
  }

  lemma {:induction false} TimesShift(x: int, p: int, y: int)
    ensures Times(x + p * TWO32, y) == Times(x, y) + Times(p, y) * TWO32
    decreases if y < 0 then -y else y
  {
    if y > 0 { TimesShift(x, p, y - 1); } else if y < 0 { TimesShift(x, p, y + 1); }
  }

  lemma WrapFirstFactor(x: int, y: int)
    ensures Wrap32(Times(Wrap32(x), y)) == Wrap32(Times(x, y))
  {
    var p := (x + TWO31) / TWO32;
    assert x == Wrap32(x) + p * TWO32;
    TimesShift(Wrap32(x), p, y);
    WrapShift(Times(Wrap32(x), y), Times(p, y));
  }

  lemma TimesCommutes(x: int, y: int)
    ensures Times(x, y) == Times(y, x)
  {
    TimesIsProduct(x, y);
    TimesIsProduct(y, x);
  }

  /** Wrapping may be done after the product. */
  lemma WrapProduct(x: int, y: int)
    ensures Wrap32(Times(Wrap32(x), Wrap32(y))) == Wrap32(Times(x, y))
  {
    WrapFirstFactor(x, Wrap32(y));
    TimesCommutes(x, Wrap32(y));
    WrapFirstFactor(y, x);
    TimesCommutes(y, x);
  }

  lemma WrapShift(x: int, k: int)
    ensures Wrap32(x + k * TWO32) == Wrap32(x)
  {
    ModShift(x + TWO31, k);
  }

  lemma {:induction false} ModShift(x: int, k: int)
    ensures (x + k * TWO32) % TWO32 == x % TWO32
    decreases if k < 0 then -k else k
  {
    if k > 0 { ModShift(x + TWO32, k - 1); }
    else if k < 0 { ModShift(x - TWO32, k + 1); }
  }

  /**
   * Multiplication, written as repeated addition so that a proof meets a
   * product of two unknowns only where it asks for one.
   */
  function Times(x: int, y: int): int
    decreases if y < 0 then -y else y
  {
    if y == 0 then 0 else if y > 0 then Times(x, y - 1) + x else Times(x, y + 1) - x
  }

  lemma {:induction false} TimesIsProduct(x: int, y: int)
    ensures Times(x, y) == x * y
    decreases if y < 0 then -y else y
  {
    if y > 0 {
      TimesIsProduct(x, y - 1);
      assert x * (y - 1) + x == x * y;
    } else if y < 0 {
      TimesIsProduct(x, y + 1);
      assert x * (y + 1) - x == x * y;
    }
  }

  lemma TimesNatural(x: nat, y: nat)
    ensures Times(x, y) >= 0
  {
    TimesIsProduct(x, y);
  }

  /** Division and remainder truncating toward zero. */
  function Quotient(x: int, d: int): int
    requires d > 0
  {
    if x >= 0 then x / d else -((-x) / d)
  }

  function Remainder(x: int, d: int): int
    requires d > 0
  {
    x - Quotient(x, d) * d
  }

  // ---- bytes of numbers ----

  /** How many numbers `n` bytes can tell apart. */
  function Limit(n: nat): nat {
    if n == 0 then 1 else 0x100 * Limit(n - 1)
  }

  lemma LimitOfFour()
    ensures Limit(4) == TWO32
  {
    assert Limit(1) == 0x100 && Limit(2) == 0x1_0000 && Limit(3) == 0x100_0000;
  }

  /** The number in `n` bytes, least significant first. */
  function Unsigned(s: Bytes, off: nat, n: nat): (u: nat)
    requires off + n <= |s|
    ensures u < Limit(n)
    decreases n
  {
    if n == 0 then 0 else s[off] + 0x100 * Unsigned(s, off + 1, n - 1)
  }

  function Digits(u: nat, n: nat): (r: Bytes)
    ensures |r| == n
  {
    if n == 0 then [] else [u % 0x100] + Digits(u / 0x100, n - 1)
  }

  lemma {:induction false} DigitsReadBack(s: Bytes, off: nat, u: nat, n: nat)
    requires off + n <= |s| && s[off..off + n] == Digits(u, n) && u < Limit(n)
    ensures Unsigned(s, off, n) == u
    decreases n
  {
    if n > 0 {
      var window := s[off..off + n];
      assert window[0] == s[off] && window[1..] == s[off + 1..off + n];
      DigitsReadBack(s, off + 1, u / 0x100, n - 1);
    }
  }

  /** Equal bytes, equal number. */
  lemma {:induction false} UnsignedSame(s: Bytes, i: nat, t: Bytes, j: nat, n: nat)
    requires i + n <= |s| && j + n <= |t| && s[i..i + n] == t[j..j + n]
    ensures Unsigned(s, i, n) == Unsigned(t, j, n)
    decreases n
  {
    if n > 0 {
      assert s[i] == s[i..i + n][0] && t[j] == t[j..j + n][0];
      assert s[i + 1..i + n] == s[i..i + n][1..] && t[j + 1..j + n] == t[j..j + n][1..];
      UnsignedSame(s, i + 1, t, j + 1, n - 1);
    }
  }

  function LE32(x: int): (r: Bytes)
    requires FitsInt32(x)
    ensures |r| == 4
  {
    Digits(if x < 0 then x + TWO32 else x, 4)
  }

  function Signed(u: nat): int {
    if u < TWO31 then u else u - TWO32
  }

  function Read32(s: Bytes, off: nat): (x: int)
    requires off + 4 <= |s|
    ensures FitsInt32(x)
  {
    LimitOfFour();
    Signed(Unsigned(s, off, 4))
  }

  lemma ReadBack32(s: Bytes, off: nat, x: int)
    requires FitsInt32(x) && off + 4 <= |s| && s[off..off + 4] == LE32(x)
    ensures Read32(s, off) == x
  {
    LimitOfFour();
    DigitsReadBack(s, off, if x < 0 then x + TWO32 else x, 4);
  }

  lemma ReadSame32(s: Bytes, i: nat, t: Bytes, j: nat)
    requires i + 4 <= |s| && j + 4 <= |t| && s[i..i + 4] == t[j..j + 4]
    ensures Read32(s, i) == Read32(t, j)
  {
    UnsignedSame(s, i, t, j, 4);
  }

  /** An int32 stored as an int64. */
  function LE64(x: int): (r: Bytes)
    requires FitsInt32(x)
    ensures |r| == 8
  {
    LE32(x) + LE32(if x < 0 then -1 else 0)
  }

  /** An int64 read and converted to int32. */
  function Read64As32(s: Bytes, off: nat): int
    requires off + 8 <= |s|
  {
    From64(Read32(s, off), Read32(s, off + 4))
  }

  /** The int64 with these halves, converted to int32. */
  function From64(low: int, high: int): int {
    Wrap32((if low < 0 then low + TWO32 else low) + TWO32 * high)
  }

  lemma ReadBack64(s: Bytes, off: nat, x: int)
    requires FitsInt32(x) && off + 8 <= |s| && s[off..off + 8] == LE64(x)
    ensures Read64As32(s, off) == x
  {
    assert s[off..off + 4] == s[off..off + 8][..4];
    assert s[off + 4..off + 8] == s[off..off + 8][4..];
    ReadBack32(s, off, x);
    ReadBack32(s, off + 4, if x < 0 then -1 else 0);
    if x >= 0 { WrapShift(x, 0); } else { WrapShift(x + TWO32, -1); }
  }

  /** Slices of a window are slices of the whole. */
  lemma SliceInWindow(s: Bytes, base: nat, len: nat, off: nat, count: nat)
    requires base + len <= |s| && off + count <= len
    ensures s[base..base + len][off..off + count] == s[base + off..base + off + count]
  {
    var x, y := s[base..base + len][off..off + count], s[base + off..base + off + count];
    forall k | 0 <= k < count ensures x[k] == y[k] { }
  }

  /** Overwrite the bytes from `off` on, one after the other. */
  function Put(s: Bytes, off: nat, b: Bytes): (r: Bytes)
    requires off + |b| <= |s|
    ensures |r| == |s|
    decreases |b|
  {
    if b == [] then s else Put(s[off := b[0]], off + 1, b[1..])
  }

  lemma {:induction false} PutIs(s: Bytes, off: nat, b: Bytes)
    requires off + |b| <= |s|
    ensures Put(s, off, b) == s[..off] + b + s[off + |b|..]
    decreases |b|
  {
    if b != [] {
      var t := s[off := b[0]];
      PutIs(t, off + 1, b[1..]);
      calc {
        Put(s, off, b);
        t[..off + 1] + b[1..] + t[off + |b|..];
        { assert t[..off + 1] == s[..off] + [b[0]] && t[off + |b|..] == s[off + |b|..]; }
        s[..off] + [b[0]] + b[1..] + s[off + |b|..];
        { assert [b[0]] + b[1..] == b; assert s[..off] + [b[0]] + b[1..] == s[..off] + ([b[0]] + b[1..]); }
        s[..off] + b + s[off + |b|..];
      }
    } else {
      assert s[..off] + b + s[off..] == s;
    }
  }

  lemma PutNothing(s: Bytes, off: nat)
    requires off <= |s|
    ensures Put(s, off, []) == s
  {
  }

  /** What was written, and what was not. */
  lemma PutReads(s: Bytes, off: nat, b: Bytes)
    requires off + |b| <= |s|
    ensures Put(s, off, b)[off..off + |b|] == b
    ensures Put(s, off, b)[..off] == s[..off] && Put(s, off, b)[off + |b|..] == s[off + |b|..]
  {
    PutIs(s, off, b);
  }

  /** What lies outside the overwritten part stays. */
  lemma PutElsewhere(s: Bytes, off: nat, b: Bytes, i: nat, j: nat)
    requires off + |b| <= |s| && i <= j <= |s|
    requires j <= off || off + |b| <= i
    ensures Put(s, off, b)[i..j] == s[i..j]
  {
    PutIs(s, off, b);
  }

  /** Two adjacent writes are one. */
  lemma PutsJoin(s: Bytes, off: nat, b: Bytes, c: Bytes)
    requires off + |b| + |c| <= |s|
    ensures Put(Put(s, off, b), off + |b|, c) == Put(s, off, b + c)
  {
    PutIs(s, off, b);
    PutIs(Put(s, off, b), off + |b|, c);
    PutIs(s, off, b + c);
  }

  /** Writing into a window is writing the whole window anew. */
  lemma PutInWindow(s: Bytes, base: nat, len: nat, off: nat, b: Bytes)
    requires base + len <= |s| && off + |b| <= len
    ensures Put(s, base + off, b) == Put(s, base, Put(s[base..base + len], off, b))
  {
    PutIs(s, base + off, b);
    PutIs(s[base..base + len], off, b);
    PutIs(s, base, Put(s[base..base + len], off, b));
  }

  /** The window written last is all that counts. */
  lemma PutTwice(s: Bytes, off: nat, b: Bytes, c: Bytes)
    requires off + |b| <= |s| && |b| == |c|
    ensures Put(Put(s, off, b), off, c) == Put(s, off, c)
  {
    PutIs(s, off, b);
    PutIs(Put(s, off, b), off, c);
    PutIs(s, off, c);
  }

  lemma PutOverWindow(s: Bytes, base: nat, w: Bytes, c: Bytes)
    requires base + |w| <= |s| && |c| <= |w|
    ensures Put(Put(s, base, w), base, c) == Put(s, base, Put(w, 0, c))
  {
    hide Put;
    PutReads(s, base, w);
    PutInWindow(Put(s, base, w), base, |w|, 0, c);
    PutTwice(s, base, w, Put(w, 0, c));
  }

  lemma PutSame(s: Bytes, base: nat, len: nat)
    requires base + len <= |s|
    ensures Put(s, base, s[base..base + len]) == s
  {
    PutIs(s, base, s[base..base + len]);
  }

  /** A memory block whose bytes are overwritten in place. */
  class Buffer {
    var bytes: Bytes

    constructor (size: nat)
      ensures |bytes| == size
    {
      var zeros: Bytes := seq(size, i => 0);
      assert |zeros| == size;
      var arbitrary: Bytes :| |arbitrary| == size;
      bytes := arbitrary;
    }

    method Write(pos: nat, b: Bytes)
      requires pos + |b| <= |bytes|
      modifies this
      ensures bytes == Put(old(bytes), pos, b)
    {
      var i := 0;
      while i < |b|
        invariant i <= |b| && |bytes| == |old(bytes)|
        invariant Put(bytes, pos + i, b[i..]) == Put(old(bytes), pos, b)
      {
        bytes := bytes[pos + i := b[i]];
        i := i + 1;
      }
    }

    /** `realloc` to a larger size: the beginning is kept, the rest arbitrary. */
    method Grow(size: nat)
      requires |bytes| <= size
      modifies this
      ensures |bytes| == size && old(bytes) <= bytes
    {
      var zeros: Bytes := seq(size - |bytes|, i => 0);
      assert |zeros| == size - |bytes|;
      var rest: Bytes :| |rest| == size - |bytes|;
      bytes := bytes + rest;
    }

    method GetInt32(pos: nat) returns (x: int)
      requires pos + 4 <= |bytes|
      ensures x == Read32(bytes, pos)
    {
      x := Read32(bytes, pos);
    }
  }
}

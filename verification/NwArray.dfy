/** Numeric matrices as the serializer sees them: dimensions, element size, class and raw data in storage that is reused. */
module NwArrays {
  import opened Common
  import opened Octets

  /** Element size by class number; classes without fixed-size elements have size 0. */
  function ElementSize(classId: int): nat {
    match classId
    case 3 => 1   // logical
    case 4 => 1   // char
    case 6 => 8   // double
    case 7 => 4   // single
    case 8 => 1
    case 9 => 1
    case 10 => 2
    case 11 => 2
    case 12 => 4
    case 13 => 4
    case 14 => 8
    case 15 => 8
    case 16 => 8  // function
    case _ => 0
  }

  /** The number of data bytes. */
  function Size(m: nat, n: nat, elementSize: nat): nat {
    TimesNatural(m, n);
    TimesNatural(Times(m, n), elementSize);
    Times(Times(m, n), elementSize)
  }

  /** The value of a matrix. */
  datatype Arr = Arr(m: nat, n: nat, elementSize: nat, classId: int, data: Bytes) {
    predicate Valid() {
      elementSize == ElementSize(classId) && |data| == Size(m, n, elementSize)
    }
  }

  /** The data of a single element takes as many bytes as a value of the class has. */
  lemma OneElement(a: Arr)
    requires a.Valid() && a.m == 1 && a.n == 1
    ensures |a.data| ==
      if a.classId in {3, 4, 8, 9} then 1
      else if a.classId in {10, 11} then 2
      else if a.classId in {7, 12, 13} then 4
      else if a.classId in {6, 14, 15, 16} then 8
      else 0
  {
    OneTimes(1);
    OneTimes(a.elementSize);
  }

  lemma {:induction false} OneTimes(x: nat)
    ensures Times(1, x) == x
  {
    if x > 0 { OneTimes(x - 1); }
  }

  /** A matrix object. `storage` is the allocated block, of which the matrix uses the beginning. */
  class NwArray {
    var storage: Bytes
    var m: nat
    var n: nat
    var elementSize: nat
    var classId: int

    ghost predicate Valid()
      reads this
    {
      elementSize == ElementSize(classId) && Size(m, n, elementSize) <= |storage|
    }

    ghost function View(): (r: Arr)
      requires Valid()
      reads this
      ensures r.Valid()
    {
      Arr(m, n, elementSize, classId, storage[..Size(m, n, elementSize)])
    }

    constructor ()
      ensures Valid() && m == 0 && n == 0 && classId == 0 && storage == []
    {
      storage := [];
      m, n, elementSize, classId := 0, 0, 0, 0;
    }

    /**
     * `nwResizeNumericMatrix`: reuse the given matrix, or make one, so that it
     * has these dimensions and class. Storage only grows and keeps its beginning;
     * what a larger block holds beyond it is arbitrary.
     */
    static method Resize(src: NwArray?, rows: nat, columns: nat, newClass: int) returns (r: NwArray)
      requires src != null ==> src.Valid()
      modifies src
      ensures r.Valid() && r.m == rows && r.n == columns && r.classId == newClass
      ensures src != null ==> r == src && old(src.storage) <= r.storage
      ensures src == null ==> fresh(r)
    {
      var newSize := ElementSize(newClass);
      var toAlloc := Size(rows, columns, newSize);
      if src == null { r := new NwArray(); } else { r := src; }
      if toAlloc > |r.storage| {
        var zeros: Bytes := seq(toAlloc - |r.storage|, i => 0);
        assert |zeros| == toAlloc - |r.storage|;
        var rest: Bytes :| |rest| == toAlloc - |r.storage|;
        r.storage := r.storage + rest;
      }
      r.m, r.n, r.elementSize, r.classId := rows, columns, newSize, newClass;
    }

    /** `memcpy` into the storage. */
    method Fill(data: Bytes)
      requires Valid() && |data| <= |storage|
      modifies this
      ensures Valid() && m == old(m) && n == old(n) && elementSize == old(elementSize) && classId == old(classId)
      ensures storage == data + old(storage)[|data|..]
    {
      storage := data + storage[|data|..];
    }
  }
}

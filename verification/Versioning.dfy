/** The registry of serializer functions by (version, type), and the per-connection cache in front of it. */
module Versioning {
  import opened Common

  /** A function pointer; 0 is NULL. */
  type Fn = nat

  datatype Fnc = SERI_TO_RES | RES_TO_BTSTREAM | DESERI_TO_RES | RES_TO_ARGS

  datatype Entry = Entry(seriToRs: Fn, seRsToBtStr: Fn, deseriToRs: Fn, deseRsToArgs: Fn) {
    function Get(which: Fnc): Fn {
      match which
      case SERI_TO_RES => seriToRs
      case RES_TO_BTSTREAM => seRsToBtStr
      case DESERI_TO_RES => deseriToRs
      case RES_TO_ARGS => deseRsToArgs
    }

    function With(which: Fnc, fn: Fn): Entry {
      match which
      case SERI_TO_RES => this.(seriToRs := fn)
      case RES_TO_BTSTREAM => this.(seRsToBtStr := fn)
      case DESERI_TO_RES => this.(deseriToRs := fn)
      case RES_TO_ARGS => this.(deseRsToArgs := fn)
    }
  }

  const NO_FUNCTIONS := Entry(0, 0, 0, 0)

  // ---- the key ----

  predicate Negative(x: bv32) { x >= 0x8000_0000 }

  /** Conversion of an int32 to uint64: the sign is extended. */
  function Extend(x: bv32): bv64 {
    if Negative(x) then x as bv64 | 0xFFFF_FFFF_0000_0000 else x as bv64
  }

  function Pack(high: bv64, low: bv64): bv64 { (high << 32) | low }

  /** The packed number, wrapped so that only lemmas about keys look at its bits. */
  datatype Index = Index(bits: bv64)

  function Key(version: bv32, seriType: bv32): Index {
    Index(Pack(Extend(version), Extend(seriType)))
  }

  lemma LowNegative(x: bv32)
    requires Negative(x)
    ensures Extend(x) & 0xFFFF_FFFF == x as bv64
  {
  }

  lemma LowPositive(x: bv32)
    requires !Negative(x)
    ensures Extend(x) & 0xFFFF_FFFF == x as bv64
  {
  }

  lemma LowHalf(x: bv32)
    ensures Extend(x) & 0xFFFF_FFFF == x as bv64
  {
    if Negative(x) { LowNegative(x); } else { LowPositive(x); }
  }

  lemma HighHalf(x: bv32)
    ensures Extend(x) & 0xFFFF_FFFF_0000_0000 == if Negative(x) then 0xFFFF_FFFF_0000_0000 else 0
  {
  }

  lemma PackLow(a: bv64, b: bv64)
    ensures Pack(a, b) & 0xFFFF_FFFF == b & 0xFFFF_FFFF
  {
  }

  lemma PackHigh(a: bv64, b: bv64)
    requires b & 0xFFFF_FFFF_0000_0000 == 0
    ensures Pack(a, b) >> 32 == a & 0xFFFF_FFFF
  {
  }

  lemma PackDrowned(a: bv64, b: bv64)
    requires b & 0xFFFF_FFFF_0000_0000 == 0xFFFF_FFFF_0000_0000
    ensures Pack(a, b) == b
  {
  }

  lemma Narrow(x: bv32, y: bv32)
    requires x as bv64 == y as bv64
    ensures x == y
  {
  }

  lemma KeyLow(version: bv32, seriType: bv32)
    ensures Key(version, seriType).bits & 0xFFFF_FFFF == seriType as bv64
  {
    PackLow(Extend(version), Extend(seriType));
    LowHalf(seriType);
  }

  /** The version can be read back from a key, unless the type was negative: then nothing of it is left. */
  lemma KeyHigh(version: bv32, seriType: bv32)
    ensures if Negative(seriType) then Key(version, seriType).bits == Extend(seriType)
            else Key(version, seriType).bits >> 32 == version as bv64
  {
    HighHalf(seriType);
    if Negative(seriType) {
      PackDrowned(Extend(version), Extend(seriType));
    } else {
      PackHigh(Extend(version), Extend(seriType));
      LowHalf(version);
    }
  }

  lemma SameType(v: bv32, t: bv32, w: bv32, u: bv32)
    requires Key(v, t) == Key(w, u)
    ensures t == u
  {
    KeyLow(v, t);
    KeyLow(w, u);
    Narrow(t, u);
  }

  lemma SameVersion(v: bv32, w: bv32, t: bv32)
    requires Key(v, t) == Key(w, t) && !Negative(t)
    ensures v == w
  {
    KeyHigh(v, t);
    KeyHigh(w, t);
    Narrow(v, w);
  }

  lemma NegativeTypesMeet(v: bv32, w: bv32, t: bv32)
    requires Negative(t)
    ensures Key(v, t) == Key(w, t)
  {
    KeyHigh(v, t);
    KeyHigh(w, t);
  }

  /** Two pairs share a key exactly when they are equal, or share a negative type: its sign bits drown the version. */
  lemma KeysCollideIff(v: bv32, t: bv32, w: bv32, u: bv32)
    ensures Key(v, t) == Key(w, u) <==> t == u && (v == w || Negative(t))
  {
    if Key(v, t) == Key(w, u) {
      SameType(v, t, w, u);
      if !Negative(t) { SameVersion(v, w, t); }
    } else if t == u && Negative(t) {
      NegativeTypesMeet(v, w, t);
    }
  }

  // ---- the registry ----

  datatype Registration = Registration(version: bv32, seriType: bv32, entry: Entry)

  type Table = map<Index, Entry>

  /** The entry the first registration for this pair gave, if any. */
  function Registered(regs: seq<Registration>, version: bv32, seriType: bv32): Option<Entry> {
    if regs == [] then None
    else if regs[0].version == version && regs[0].seriType == seriType then Some(regs[0].entry)
    else Registered(regs[1..], version, seriType)
  }

  /** The entry the first registration with this type gave, whatever its version. */
  function FirstOfType(regs: seq<Registration>, seriType: bv32): Option<Entry> {
    if regs == [] then None
    else if regs[0].seriType == seriType then Some(regs[0].entry)
    else FirstOfType(regs[1..], seriType)
  }

  /** What a lookup finds: with a negative type the version does not count. */
  function Found(regs: seq<Registration>, version: bv32, seriType: bv32): Option<Entry> {
    if Negative(seriType) then FirstOfType(regs, seriType) else Registered(regs, version, seriType)
  }

  function At(entries: Table, key: Index): Option<Entry> {
    if key in entries then Some(entries[key]) else None
  }

  /** `std::map::insert`: what is there stays. */
  function Insert(entries: Table, key: Index, entry: Entry): Table {
    if key in entries then entries else entries[key := entry]
  }

  /** What the table gives under the key of a pair, for every pair there is. */
  ghost predicate Exact(entries: Table, regs: seq<Registration>) {
    forall version, seriType :: At(entries, Key(version, seriType)) == Found(regs, version, seriType)
  }

  /** A registration that a lookup of this pair meets. */
  predicate Answers(reg: Registration, version: bv32, seriType: bv32) {
    reg.seriType == seriType && (reg.version == version || Negative(seriType))
  }

  lemma {:induction false} RegisteredAppend(regs: seq<Registration>, last: Registration, version: bv32, seriType: bv32)
    ensures Registered(regs + [last], version, seriType) ==
      if Registered(regs, version, seriType).Some? then Registered(regs, version, seriType)
      else if last.version == version && last.seriType == seriType then Some(last.entry) else None
  {
    if regs != [] {
      assert (regs + [last])[1..] == regs[1..] + [last];
      RegisteredAppend(regs[1..], last, version, seriType);
    }
  }

  lemma {:induction false} FirstOfTypeAppend(regs: seq<Registration>, last: Registration, seriType: bv32)
    ensures FirstOfType(regs + [last], seriType) ==
      if FirstOfType(regs, seriType).Some? then FirstOfType(regs, seriType)
      else if last.seriType == seriType then Some(last.entry) else None
  {
    if regs != [] {
      assert (regs + [last])[1..] == regs[1..] + [last];
      FirstOfTypeAppend(regs[1..], last, seriType);
    }
  }

  lemma FoundAppend(regs: seq<Registration>, last: Registration, version: bv32, seriType: bv32)
    ensures Found(regs + [last], version, seriType) ==
      if Found(regs, version, seriType).Some? then Found(regs, version, seriType)
      else if Answers(last, version, seriType) then Some(last.entry) else None
  {
    RegisteredAppend(regs, last, version, seriType);
    FirstOfTypeAppend(regs, last, seriType);
  }

  lemma InsertAt(entries: Table, added: Index, entry: Entry, key: Index)
    ensures At(Insert(entries, added, entry), key) ==
      if At(entries, key).Some? then At(entries, key) else if key == added then Some(entry) else None
  {
  }

  lemma InsertExactAt(entries: Table, regs: seq<Registration>, added: Index, last: Registration, key: Index, version: bv32, seriType: bv32)
    requires At(entries, key) == Found(regs, version, seriType)
    requires key == added <==> Answers(last, version, seriType)
    ensures At(Insert(entries, added, last.entry), key) == Found(regs + [last], version, seriType)
  {
    hide Found, Answers, Negative;
    InsertAt(entries, added, last.entry, key);
    FoundAppend(regs, last, version, seriType);
  }

  /** Registering keeps the table exact for lookups of every pair; the first registration that answers wins. */
  lemma InsertExact(entries: Table, regs: seq<Registration>, last: Registration)
    requires Exact(entries, regs)
    ensures Exact(Insert(entries, Key(last.version, last.seriType), last.entry), regs + [last])
  {
    hide Key, Found;
    var added := Key(last.version, last.seriType);
    forall version, seriType
      ensures At(Insert(entries, added, last.entry), Key(version, seriType)) == Found(regs + [last], version, seriType)
    {
      KeysCollideIff(last.version, last.seriType, version, seriType);
      InsertExactAt(entries, regs, added, last, Key(version, seriType), version, seriType);
    }
  }

  /** A lookup gives what was registered for its own pair exactly if the type is not negative, or the first registration of that type, under whatever version, agrees. */
  lemma LookupIsOwnIff(entries: Table, regs: seq<Registration>, version: bv32, seriType: bv32)
    requires Exact(entries, regs)
    ensures At(entries, Key(version, seriType)) == Registered(regs, version, seriType) <==>
      !Negative(seriType) || FirstOfType(regs, seriType) == Registered(regs, version, seriType)
  {
    hide Key, Negative;
    assert At(entries, Key(version, seriType)) == Found(regs, version, seriType);
  }

  /** A negative type makes the registry answer for versions nobody registered. */
  lemma NegativeTypeIsFoundUnderAnyVersion(entries: Table, version: bv32, other: bv32, seriType: bv32, entry: Entry)
    requires Negative(seriType) && Key(version, seriType) !in entries
    ensures At(Insert(entries, Key(version, seriType), entry), Key(other, seriType)) == Some(entry)
  {
    NegativeTypesMeet(version, other, seriType);
  }

  class Registry {
    var entries: Table
    ghost var history: seq<Registration>

    ghost predicate Valid()
      reads this
    {
      Exact(entries, history)
    }

    constructor ()
      ensures Valid() && history == []
    {
      entries := map[];
      history := [];
    }

    method Register(version: bv32, seriType: bv32, entry: Entry)
      requires Valid()
      modifies this
      ensures Valid() && history == old(history) + [Registration(version, seriType, entry)]
    {
      var key := Key(version, seriType);
      InsertExact(entries, history, Registration(version, seriType, entry));
      if key !in entries { entries := entries[key := entry]; }
      history := history + [Registration(version, seriType, entry)];
    }
  }

  /** After registering four functions for a pair that nothing answered for, each of the four lookups gives its own. */
  lemma NewFunctionsAreFound(regs: seq<Registration>, version: bv32, seriType: bv32, a: Fn, b: Fn, c: Fn, d: Fn)
    requires forall i :: 0 <= i < |regs| ==> regs[i].seriType != seriType || (regs[i].version != version && seriType < 0x8000_0000)
    ensures var found := Found(regs + [Registration(version, seriType, Entry(a, b, c, d))], version, seriType);
      && Wanted(found, SERI_TO_RES) == a && Wanted(found, RES_TO_BTSTREAM) == b
      && Wanted(found, DESERI_TO_RES) == c && Wanted(found, RES_TO_ARGS) == d
  {
    NothingAnswers(regs, version, seriType);
    FoundAppend(regs, Registration(version, seriType, Entry(a, b, c, d)), version, seriType);
  }

  lemma {:induction false} NothingAnswers(regs: seq<Registration>, version: bv32, seriType: bv32)
    requires forall i :: 0 <= i < |regs| ==> regs[i].seriType != seriType || (regs[i].version != version && seriType < 0x8000_0000)
    ensures Found(regs, version, seriType) == None
  {
    if regs != [] {
      forall i | 0 <= i < |regs[1..]|
        ensures regs[1..][i].seriType != seriType || (regs[1..][i].version != version && seriType < 0x8000_0000)
      {
        assert regs[1..][i] == regs[i + 1];
      }
      NothingAnswers(regs[1..], version, seriType);
    }
  }

  // ---- the cache ----

  /** What a lookup should give: the pair's own function, or NULL. */
  function Wanted(found: Option<Entry>, which: Fnc): Fn {
    match found
    case None => 0
    case Some(Entry(seriToRs, seRsToBtStr, deseriToRs, deseRsToArgs)) =>
      match which
      case SERI_TO_RES => seriToRs
      case RES_TO_BTSTREAM => seRsToBtStr
      case DESERI_TO_RES => deseriToRs
      case RES_TO_ARGS => deseRsToArgs
  }

  /** Every cached pointer is the registry's for the cached key. */
  predicate CacheAgrees(entries: Table, key: Index, fncs: Entry) {
    forall which :: fncs.Get(which) != 0 ==> fncs.Get(which) == Wanted(At(entries, key), which)
  }

  /** Registering more does not spoil a cache. */
  lemma CacheSurvivesInsert(entries: Table, added: Index, entry: Entry, key: Index, fncs: Entry)
    requires CacheAgrees(entries, key, fncs)
    ensures CacheAgrees(Insert(entries, added, entry), key, fncs)
  {
    forall which | fncs.Get(which) != 0 ensures fncs.Get(which) == Wanted(At(Insert(entries, added, entry), key), which) {
      assert fncs.Get(which) == Wanted(At(entries, key), which);
      InsertAt(entries, added, entry, key);
    }
  }

  /** The functions a connection found last, and the key they were found under. */
  class FncPointers {
    var fncIndex: Index
    var fncs: Entry

    ghost predicate Agrees(entries: Table)
      reads this
    {
      CacheAgrees(entries, fncIndex, fncs)
    }

    constructor ()
      ensures forall entries :: Agrees(entries)
    {
      fncIndex, fncs := Index(0), NO_FUNCTIONS;
    }

    /** Pointers already cached are kept. */
    method FillFrom(found: Entry)
      modifies this`fncs
      ensures forall which :: fncs.Get(which) == if old(fncs).Get(which) != 0 then old(fncs).Get(which) else found.Get(which)
    {
      if fncs.seriToRs == 0 { fncs := fncs.(seriToRs := found.seriToRs); }
      if fncs.seRsToBtStr == 0 { fncs := fncs.(seRsToBtStr := found.seRsToBtStr); }
      if fncs.deseriToRs == 0 { fncs := fncs.(deseriToRs := found.deseriToRs); }
      if fncs.deseRsToArgs == 0 { fncs := fncs.(deseRsToArgs := found.deseRsToArgs); }
    }

    method FindByKey(entries: Table, key: Index, which: Fnc) returns (fn: Fn)
      requires Agrees(entries)
      modifies this
      ensures Agrees(entries) && fn == Wanted(At(entries, key), which)
    {
      if key != fncIndex {
        fncs := NO_FUNCTIONS;
        fncIndex := key;
      }
      if fncs.Get(which) == 0 && key in entries {
        var found := entries[key];
        fncs := fncs.With(which, found.Get(which));
        FillFrom(found);
      }
      fn := fncs.Get(which);
    }

    /** `FindSeriToRes`, `FindSeResToBtStream`, `FindDeSeriToRes` and `FindDeseRsToArgs`, which differ in the pointer they want. */
    method Find(registry: Registry, version: bv32, seriType: bv32, which: Fnc) returns (fn: Fn)
      requires registry.Valid() && Agrees(registry.entries)
      modifies this
      ensures Agrees(registry.entries)
      ensures fn == Wanted(Found(registry.history, version, seriType), which)
    {
      fn := FindByKey(registry.entries, Key(version, seriType), which);
    }
  }
}

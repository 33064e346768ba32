/**
  The sharded in-memory cache of file bytes.  Each shard has its own budget and drops the least recently used
  entries first; an entry above the budget is kept alone.  The entries of a shard are a sequence, the oldest
  first; list and map of the source's LRU cache are that sequence.
*/
module MemoryCache {
  import opened Prelude
  import opened Bytes

  datatype Entry = Entry(key: string, value: seq<Byte>)

  /** Bytes held. */
  function Used(es: seq<Entry>): nat {
    if es == [] then 0 else |es[0].value| + Used(es[1..])
  }

  function Lookup(es: seq<Entry>, key: string): Option<seq<Byte>> {
    if es == [] then None else if es[0].key == key then Some(es[0].value) else Lookup(es[1..], key)
  }

  predicate Unique(es: seq<Entry>) {
    es == [] || (Lookup(es[1..], es[0].key).None? && Unique(es[1..]))
  }

  function Without(es: seq<Entry>, key: string): seq<Entry> {
    if es == [] then [] else if es[0].key == key then es[1..] else [es[0]] + Without(es[1..], key)
  }

  /** Oldest entries go until `need` more bytes fit, or nothing is left. */
  function Evicted(es: seq<Entry>, need: nat, max: nat): seq<Entry> {
    if es != [] && Used(es) + need > max then Evicted(es[1..], need, max) else es
  }

  function Inserted(es: seq<Entry>, key: string, value: seq<Byte>, max: nat): seq<Entry> {
    Without(Evicted(es, |value|, max), key) + [Entry(key, value)]
  }

  /** A hit becomes the most recently used entry. */
  function Touched(es: seq<Entry>, key: string): seq<Entry> {
    match Lookup(es, key)
    case None => es
    case Some(value) => Without(es, key) + [Entry(key, value)]
  }

  // ---------------------------------------------------------------- facts about entries

  lemma {:induction false} UsedConcat(es: seq<Entry>, more: seq<Entry>)
    ensures Used(es + more) == Used(es) + Used(more)
  {
    if es == [] {
      assert es + more == more;
    } else {
      assert (es + more)[1..] == es[1..] + more;
      UsedConcat(es[1..], more);
    }
  }

  lemma {:induction false} UsedOne(e: Entry)
    ensures Used([e]) == |e.value|
  {
    assert [e][1..] == [];
  }

  lemma {:induction false} LookupAppend(es: seq<Entry>, e: Entry, key: string)
    ensures Lookup(es + [e], key) ==
              if Lookup(es, key).Some? then Lookup(es, key) else if e.key == key then Some(e.value) else None
  {
    if es == [] {
      assert [] + [e] == [e] && [e][1..] == [];
    } else {
      assert (es + [e])[1..] == es[1..] + [e];
      LookupAppend(es[1..], e, key);
    }
  }

  lemma {:induction false} UniqueAppend(es: seq<Entry>, e: Entry)
    requires Unique(es) && Lookup(es, e.key).None?
    ensures Unique(es + [e])
  {
    if es == [] {
      assert [] + [e] == [e] && [e][1..] == [];
    } else {
      assert (es + [e])[1..] == es[1..] + [e];
      UniqueAppend(es[1..], e);
      LookupAppend(es[1..], e, es[0].key);
    }
  }

  lemma {:induction false} LookupWithout(es: seq<Entry>, key: string, other: string)
    requires Unique(es)
    ensures Lookup(Without(es, key), other) == if other == key then None else Lookup(es, other)
  {
    if es != [] && es[0].key != key {
      LookupWithout(es[1..], key, other);
      assert ([es[0]] + Without(es[1..], key))[1..] == Without(es[1..], key);
    }
  }

  lemma {:induction false} UniqueWithout(es: seq<Entry>, key: string)
    requires Unique(es)
    ensures Unique(Without(es, key)) && Lookup(Without(es, key), key).None?
  {
    if es != [] && es[0].key != key {
      UniqueWithout(es[1..], key);
      LookupWithout(es[1..], key, es[0].key);
      assert ([es[0]] + Without(es[1..], key))[1..] == Without(es[1..], key);
    }
  }

  lemma {:induction false} UsedWithout(es: seq<Entry>, key: string)
    ensures Used(Without(es, key)) == Used(es) - match Lookup(es, key) case None => 0 case Some(v) => |v|
    ensures |Without(es, key)| == |es| - if Lookup(es, key).Some? then 1 else 0
    ensures Lookup(es, key).None? ==> Without(es, key) == es
  {
    if es != [] && es[0].key != key {
      UsedWithout(es[1..], key);
      assert ([es[0]] + Without(es[1..], key))[1..] == Without(es[1..], key);
    }
  }

  // ---------------------------------------------------------------- eviction

  /** What stays is the most recently used end, and no entry went that could have stayed. */
  lemma {:induction false} EvictsOldestOnly(es: seq<Entry>, need: nat, max: nat) returns (k: nat)
    ensures k <= |es| && Evicted(es, need, max) == es[k..]
    ensures k > 0 ==> Used(es[k - 1..]) + need > max
    ensures Used(es[k..]) + need <= max || k == |es|
  {
    if es != [] && Used(es) + need > max {
      var j := EvictsOldestOnly(es[1..], need, max);
      k := j + 1;
      assert es[1..][j..] == es[k..];
      if j > 0 { assert es[1..][j - 1..] == es[k - 1..]; }
    } else {
      k := 0;
    }
  }

  lemma {:induction false} UniqueEvicted(es: seq<Entry>, need: nat, max: nat)
    requires Unique(es)
    ensures Unique(Evicted(es, need, max))
  {
    if es != [] { UniqueEvicted(es[1..], need, max); }
  }

  /** After an insert the shard is within its budget, unless the new entry alone exceeds it and is alone. */
  lemma {:induction false} InsertedBudget(es: seq<Entry>, key: string, value: seq<Byte>, max: nat)
    requires Unique(es)
    ensures var es' := Inserted(es, key, value, max);
            && Unique(es')
            && (Used(es') <= max || (es' == [Entry(key, value)] && |value| > max))
  {
    hide Lookup, Unique, Used, Without, Evicted;
    var k := EvictsOldestOnly(es, |value|, max);
    var kept, e := Evicted(es, |value|, max), Entry(key, value);
    UniqueEvicted(es, |value|, max);
    UniqueWithout(kept, key);
    UsedWithout(kept, key);
    UniqueAppend(Without(kept, key), e);
    UsedConcat(Without(kept, key), [e]);
    UsedOne(e);
    NothingUsed();
    if k == |es| {
      assert Without(kept, key) + [e] == [e];
    }
  }

  lemma {:induction false} NothingUsed()
    ensures Used([]) == 0 && forall key :: Without([], key) == []
  {}

  lemma {:induction false} TouchedSame(es: seq<Entry>, key: string, other: string)
    requires Unique(es)
    ensures Unique(Touched(es, key)) && Used(Touched(es, key)) == Used(es) && |Touched(es, key)| == |es|
    ensures Lookup(Touched(es, key), other) == Lookup(es, other)
  {
    hide Lookup, Unique, Used, Without;
    UniqueWithout(es, key);
    UsedWithout(es, key);
    LookupWithout(es, key, other);
    if Lookup(es, key).Some? {
      var e, rest := Entry(key, Lookup(es, key).value), Without(es, key);
      UniqueAppend(rest, e);
      UsedConcat(rest, [e]);
      UsedOne(e);
      LookupAppend(rest, e, other);
    }
  }

  /** An insert answers for its own key, and changes no other key's value except by dropping it. */
  lemma {:induction false} InsertedLookup(es: seq<Entry>, key: string, value: seq<Byte>, max: nat, other: string)
    requires Unique(es)
    ensures var found := Lookup(Inserted(es, key, value, max), other);
            if other == key then found == Some(value) else found.None? || found == Lookup(es, other)
  {
    hide Lookup, Unique, Without, Evicted;
    var kept := Evicted(es, |value|, max);
    UniqueEvicted(es, |value|, max);
    LookupWithout(kept, key, other);
    LookupAppend(Without(kept, key), Entry(key, value), other);
    LookupEvicted(es, |value|, max, other);
  }

  lemma {:induction false} LookupEvicted(es: seq<Entry>, need: nat, max: nat, key: string)
    requires Unique(es)
    ensures Lookup(Evicted(es, need, max), key).None? || Lookup(Evicted(es, need, max), key) == Lookup(es, key)
  {
    if es != [] { LookupEvicted(es[1..], need, max, key); }
  }

  lemma {:induction false} UsedShrinks(es: seq<Entry>, i: nat, j: nat)
    requires i <= j <= |es|
    ensures Used(es[j..]) <= Used(es[i..])
  {
    assert es[i..] == es[i..j] + es[j..];
    UsedConcat(es[i..j], es[j..]);
  }

  /** Each key is found where it is, and nowhere behind. */
  lemma {:induction false} LookupAt(es: seq<Entry>, i: nat, k: nat)
    requires Unique(es) && i < |es| && k <= |es|
    ensures Lookup(es[k..], es[i].key) == if k <= i then Some(es[i].value) else None
  {
    if k > 0 && i > 0 {
      LookupAt(es[1..], i - 1, k - 1);
      assert es[1..][k - 1..] == es[k..] && es[1..][i - 1] == es[i];
    } else if k > 0 {
      LookupNoneBehind(es[1..], es[0].key, k - 1);
      assert es[1..][k - 1..] == es[k..];
    } else if i > 0 {
      LookupAt(es[1..], i - 1, 0);
      assert es[1..][0..] == es[1..] && es[0..] == es && es[1..][i - 1] == es[i];
    } else {
      assert es[0..] == es;
    }
  }

  lemma {:induction false} LookupNoneBehind(es: seq<Entry>, key: string, k: nat)
    requires Lookup(es, key).None? && k <= |es|
    ensures Lookup(es[k..], key).None?
  {
    if k > 0 {
      LookupNoneBehind(es[1..], key, k - 1);
      assert es[1..][k - 1..] == es[k..];
    } else {
      assert es[0..] == es;
    }
  }

  /**
    What an insert leaves of the other keys: an entry stays exactly if it fits into the budget together with
    the new one and all entries used after it.
  */
  ghost predicate RoomMade(es: seq<Entry>, es': seq<Entry>, key: string, value: seq<Byte>, max: nat) {
    && Lookup(es', key) == Some(value) && es' != [] && es'[|es'| - 1] == Entry(key, value)
    && (forall i :: 0 <= i < |es| && es[i].key != key ==>
         Lookup(es', es[i].key) == if Used(es[i..]) + |value| <= max then Some(es[i].value) else None)
    && (forall other :: other != key && Lookup(es, other).None? ==> Lookup(es', other).None?)
    && (Used(es) + |value| <= max ==> forall other :: other != key ==> Lookup(es', other) == Lookup(es, other))
  }

  lemma {:induction false} InsertExact(es: seq<Entry>, key: string, value: seq<Byte>, max: nat)
    requires Unique(es)
    ensures RoomMade(es, Inserted(es, key, value, max), key, value, max)
  {
    hide Lookup, Unique, Without, Used;
    var es' := Inserted(es, key, value, max);
    InsertedLookup(es, key, value, max, key);
    forall i: nat | i < |es| && es[i].key != key
      ensures Lookup(es', es[i].key) == if Used(es[i..]) + |value| <= max then Some(es[i].value) else None
    {
      EntryStays(es, key, value, max, i);
    }
    forall other | other != key
      ensures Lookup(es, other).None? ==> Lookup(es', other).None?
      ensures Used(es) + |value| <= max ==> Lookup(es', other) == Lookup(es, other)
    {
      OtherKey(es, key, value, max, other);
    }
  }

  lemma {:induction false} EntryStays(es: seq<Entry>, key: string, value: seq<Byte>, max: nat, i: nat)
    requires Unique(es) && i < |es| && es[i].key != key
    ensures Lookup(Inserted(es, key, value, max), es[i].key) ==
              if Used(es[i..]) + |value| <= max then Some(es[i].value) else None
  {
    hide Lookup, Unique, Without, Used, Evicted;
    var k := EvictsOldestOnly(es, |value|, max);
    OtherKey(es, key, value, max, es[i].key);
    LookupAt(es, i, k);
    if i < k { UsedShrinks(es, i, k - 1); } else { UsedShrinks(es, k, i); }
  }

  lemma {:induction false} OtherKey(es: seq<Entry>, key: string, value: seq<Byte>, max: nat, other: string)
    requires Unique(es) && other != key
    ensures Lookup(Inserted(es, key, value, max), other) == Lookup(Evicted(es, |value|, max), other)
    ensures Lookup(es, other).None? ==> Lookup(Inserted(es, key, value, max), other).None?
    ensures Used(es) + |value| <= max ==> Lookup(Inserted(es, key, value, max), other) == Lookup(es, other)
  {
    var kept := Evicted(es, |value|, max);
    UniqueEvicted(es, |value|, max);
    hide Lookup, Unique, Without, Used;
    LookupWithout(kept, key, other);
    LookupAppend(Without(kept, key), Entry(key, value), other);
    LookupEvicted(es, |value|, max, other);
  }

  // ---------------------------------------------------------------- a shard

  class Shard {
    const maxBytes: nat
    var cache: seq<Entry>     // least recently used first
    var usedBytes: nat

    /** The running total is the exact sum, and within the budget unless one entry is alone over it. */
    ghost predicate Valid()
      reads this
    {
      && Unique(cache) && usedBytes == Used(cache)
      && (usedBytes <= maxBytes || |cache| == 1)
    }

    constructor (maxBytes: nat)
      ensures Valid() && cache == [] && this.maxBytes == maxBytes
    {
      this.maxBytes, cache, usedBytes := maxBytes, [], 0;
    }

    method PopLru() returns (evicted: Entry)
      requires cache != []
      modifies `cache
      ensures cache == old(cache)[1..] && evicted == old(cache)[0]
    {
      evicted := cache[0];
      cache := cache[1..];
    }

    method Pop(key: string) returns (found: Option<seq<Byte>>)
      modifies `cache
      ensures found == Lookup(old(cache), key) && cache == Without(old(cache), key)
    {
      ghost var es := cache;
      found := None;
      var i := 0;
      while i < |cache| && cache[i].key != key
        invariant 0 <= i <= |cache| && cache == es
        invariant Lookup(es, key) == Lookup(es[i..], key) && Without(es, key) == es[..i] + Without(es[i..], key)
      {
        assert es[i..][1..] == es[i + 1..];
        assert es[..i] + ([es[i]] + Without(es[i + 1..], key)) == es[..i + 1] + Without(es[i + 1..], key);
        i := i + 1;
      }
      if i < |cache| {
        found := Some(cache[i].value);
        assert es[i..][1..] == es[i + 1..];
        cache := cache[..i] + cache[i + 1..];
      } else {
        assert es[..i] + [] == es;
      }
    }

    method Insert(key: string, value: seq<Byte>)
      requires Valid()
      modifies this
      ensures Valid() && cache == Inserted(old(cache), key, value, maxBytes)
      ensures RoomMade(old(cache), cache, key, value, maxBytes)
    {
      InsertExact(cache, key, value, maxBytes);
      hide RoomMade;
      hide Lookup, Unique, Without, Used;
      var newSize := |value|;
      ghost var es := cache;
      while usedBytes + newSize > maxBytes
        invariant Unique(cache) && usedBytes == Used(cache)
        invariant Evicted(es, newSize, maxBytes) == Evicted(cache, newSize, maxBytes)
        decreases |cache|
      {
        if cache == [] { break; }
        OldestOut(cache);
        var evicted := PopLru();
        usedBytes := SaturatingSub(usedBytes, |evicted.value|);
      }
      assert cache == Evicted(es, newSize, maxBytes);
      UsedWithout(cache, key);
      var found := Pop(key);
      if found.Some? { usedBytes := SaturatingSub(usedBytes, |found.value|); }
      InsertedBudget(es, key, value, maxBytes);
      UsedConcat(cache, [Entry(key, value)]);
      UsedOne(Entry(key, value));
      cache := cache + [Entry(key, value)];
      usedBytes := usedBytes + newSize;
    }

    method Get(key: string) returns (found: Option<seq<Byte>>)
      requires Valid()
      modifies `cache
      ensures Valid() && found == Lookup(old(cache), key) && cache == Touched(old(cache), key)
      ensures forall other :: Lookup(cache, other) == Lookup(old(cache), other)
      ensures found.Some? ==> cache != [] && cache[|cache| - 1] == Entry(key, found.value)
    {
      forall other { TouchedSame(cache, key, other); }
      TouchedSame(cache, key, key);
      UsedWithout(cache, key);
      found := Pop(key);
      if found.Some? { cache := cache + [Entry(key, found.value)]; }
    }

    method Remove(key: string)
      requires Valid()
      modifies this
      ensures Valid() && cache == Without(old(cache), key)
      ensures forall other :: Lookup(cache, other) == if other == key then None else Lookup(old(cache), other)
    {
      forall other { LookupWithout(cache, key, other); }
      UniqueWithout(cache, key);
      UsedWithout(cache, key);
      if |cache| == 1 { AtMostOne(cache, key); }
      var found := Pop(key);
      if found.Some? { usedBytes := SaturatingSub(usedBytes, |found.value|); }
    }
  }

  function SaturatingSub(x: nat, y: nat): nat {
    if x < y then 0 else x - y
  }

  lemma {:induction false} OldestOut(es: seq<Entry>)
    requires es != [] && Unique(es)
    ensures Used(es[1..]) == SaturatingSub(Used(es), |es[0].value|) && Unique(es[1..])
  {}

  lemma {:induction false} AtMostOne(es: seq<Entry>, key: string)
    requires |es| == 1
    ensures Used(Without(es, key)) == 0 || Without(es, key) == es
  {}

  // ---------------------------------------------------------------- whole histories of one shard

  datatype Op = Insert(key: string, value: seq<Byte>) | Get(key: string) | Remove(key: string)

  /** A shard together with what a reader may expect of it: last values written and times of last use. */
  datatype History = History(es: seq<Entry>, last: map<string, seq<Byte>>, used: map<string, nat>, clock: nat)

  const START: History := History([], map[], map[], 0)

  function After(h: History, op: Op, max: nat): History {
    match op
    case Insert(key, value) =>
      History(Inserted(h.es, key, value, max), h.last[key := value], h.used[key := h.clock], h.clock + 1)
    case Get(key) =>
      History(Touched(h.es, key), h.last,
              if Lookup(h.es, key).Some? then h.used[key := h.clock] else h.used, h.clock + 1)
    case Remove(key) => History(Without(h.es, key), h.last - {key}, h.used, h.clock + 1)
  }

  function Run(h: History, ops: seq<Op>, max: nat): History
    decreases |ops|
  {
    if ops == [] then h else Run(After(h, ops[0], max), ops[1..], max)
  }

  /**
    From use time `lo` on: every entry holds the last value written for its key, and the entries are
    ordered by the time of their last use.
  */
  ghost predicate Ordered(es: seq<Entry>, lo: nat, h: History) {
    es == [] ||
    var e := es[0];
    && e.key in h.last && h.last[e.key] == e.value
    && e.key in h.used && lo <= h.used[e.key] < h.clock
    && Ordered(es[1..], h.used[e.key] + 1, h)
  }

  ghost predicate Coherent(h: History) {
    Ordered(h.es, 0, h)
  }

  lemma {:induction false} OrderedFrom(es: seq<Entry>, lo: nat, lo': nat, h: History)
    requires Ordered(es, lo, h) && lo' <= lo
    ensures Ordered(es, lo', h)
  {}

  lemma {:induction false} OrderedNotBelow(es: seq<Entry>, lo: nat, h: History, key: string)
    requires Ordered(es, lo, h) && key in h.used && h.used[key] < lo
    ensures Lookup(es, key).None?
  {
    if es != [] { OrderedNotBelow(es[1..], h.used[es[0].key] + 1, h, key); }
  }

  lemma {:induction false} OrderedUnique(es: seq<Entry>, lo: nat, h: History)
    requires Ordered(es, lo, h)
    ensures Unique(es)
  {
    if es != [] {
      OrderedUnique(es[1..], h.used[es[0].key] + 1, h);
      OrderedNotBelow(es[1..], h.used[es[0].key] + 1, h, es[0].key);
    }
  }

  lemma {:induction false} OrderedWithout(es: seq<Entry>, lo: nat, h: History, key: string)
    requires Ordered(es, lo, h)
    ensures Ordered(Without(es, key), lo, h)
  {
    if es != [] {
      if es[0].key == key {
        OrderedFrom(es[1..], h.used[key] + 1, lo, h);
      } else {
        OrderedWithout(es[1..], h.used[es[0].key] + 1, h, key);
        assert ([es[0]] + Without(es[1..], key))[1..] == Without(es[1..], key);
      }
    }
  }

  lemma {:induction false} OrderedEvicted(es: seq<Entry>, lo: nat, h: History, need: nat, max: nat)
    requires Ordered(es, lo, h)
    ensures Ordered(Evicted(es, need, max), lo, h)
  {
    if es != [] && Used(es) + need > max {
      OrderedEvicted(es[1..], h.used[es[0].key] + 1, h, need, max);
      OrderedFrom(Evicted(es[1..], need, max), h.used[es[0].key] + 1, lo, h);
    }
  }

  /** What does not concern the entries may change, and time goes on. */
  lemma {:induction false} OrderedLater(es: seq<Entry>, lo: nat, h: History, h': History, key: string)
    requires Ordered(es, lo, h) && Lookup(es, key).None? && h.clock <= h'.clock
    requires forall k :: k != key && k in h.last ==> k in h'.last && h'.last[k] == h.last[k]
    requires forall k :: k != key && k in h.used ==> k in h'.used && h'.used[k] == h.used[k]
    ensures Ordered(es, lo, h')
  {
    if es != [] { OrderedLater(es[1..], h.used[es[0].key] + 1, h, h', key); }
  }

  lemma {:induction false} OrderedAppend(es: seq<Entry>, lo: nat, h: History, e: Entry)
    requires Ordered(es, lo, h)
    requires e.key in h.last && h.last[e.key] == e.value && e.key in h.used && lo <= h.used[e.key] < h.clock
    requires forall k :: Lookup(es, k).Some? && k in h.used ==> h.used[k] < h.used[e.key]
    ensures Ordered(es + [e], lo, h)
  {
    if es == [] {
      assert [] + [e] == [e] && [e][1..] == [];
    } else {
      assert Lookup(es, es[0].key).Some?;
      OrderedUnique(es, lo, h);
      OrderedAppend(es[1..], h.used[es[0].key] + 1, h, e);
      assert (es + [e])[1..] == es[1..] + [e];
    }
  }

  lemma {:induction false} OrderedTimes(es: seq<Entry>, lo: nat, h: History, key: string)
    requires Ordered(es, lo, h) && Lookup(es, key).Some?
    ensures key in h.used && h.used[key] < h.clock && key in h.last && h.last[key] == Lookup(es, key).value
  {
    if es[0].key != key { OrderedTimes(es[1..], h.used[es[0].key] + 1, h, key); }
  }

  /** The new entry of an insert, or the entry a reader just hit, goes last. */
  lemma {:induction false} NewestLast(es: seq<Entry>, h: History, h': History, e: Entry)
    requires Ordered(es, 0, h) && Lookup(es, e.key).None? && h'.clock == h.clock + 1
    requires h'.last == h.last[e.key := e.value] && h'.used == h.used[e.key := h.clock]
    ensures Ordered(es + [e], 0, h')
  {
    OrderedLater(es, 0, h, h', e.key);
    forall k | Lookup(es, k).Some? ensures k != e.key && k in h'.used && h'.used[k] < h.clock {
      OrderedTimes(es, 0, h, k);
    }
    OrderedAppend(es, 0, h', e);
  }

  lemma {:induction false} CoherentKept(h: History, op: Op, max: nat)
    requires Coherent(h)
    ensures Coherent(After(h, op, max))
  {
    hide Ordered, Lookup, Without, Evicted, Unique;
    var h' := After(h, op, max);
    OrderedUnique(h.es, 0, h);
    match op {
      case Insert(key, value) =>
        var kept := Evicted(h.es, |value|, max);
        OrderedEvicted(h.es, 0, h, |value|, max);
        UniqueEvicted(h.es, |value|, max);
        UniqueWithout(kept, key);
        OrderedWithout(kept, 0, h, key);
        NewestLast(Without(kept, key), h, h', Entry(key, value));
      case Get(key) =>
        UniqueWithout(h.es, key);
        OrderedWithout(h.es, 0, h, key);
        if Lookup(h.es, key).Some? {
          OrderedTimes(h.es, 0, h, key);
          assert h.last == h.last[key := Lookup(h.es, key).value];
          NewestLast(Without(h.es, key), h, h', Entry(key, Lookup(h.es, key).value));
        } else {
          OrderedLater(h.es, 0, h, h', key);
        }
      case Remove(key) =>
        UniqueWithout(h.es, key);
        OrderedWithout(h.es, 0, h, key);
        OrderedLater(Without(h.es, key), 0, h, h', key);
    }
  }

  lemma {:induction false} CoherentOnRuns(h: History, ops: seq<Op>, max: nat)
    requires Coherent(h)
    ensures Coherent(Run(h, ops, max))
    decreases |ops|
  {
    if ops != [] {
      CoherentKept(h, ops[0], max);
      CoherentOnRuns(After(h, ops[0], max), ops[1..], max);
    }
  }

  /** A hit is the value last inserted for the key and not removed since, whatever happened in between. */
  lemma {:induction false} HitIsLastInserted(ops: seq<Op>, key: string, max: nat)
    ensures var h := Run(START, ops, max);
            Lookup(h.es, key).Some? ==> key in h.last && Lookup(h.es, key).value == h.last[key]
  {
    CoherentOnRuns(START, ops, max);
    var h := Run(START, ops, max);
    if Lookup(h.es, key).Some? { OrderedTimes(h.es, 0, h, key); }
  }

  lemma {:induction false} OrderedPair(es: seq<Entry>, lo: nat, h: History, i: nat, j: nat)
    requires Ordered(es, lo, h) && i <= j < |es|
    ensures es[i].key in h.used && es[j].key in h.used && lo <= h.used[es[i].key]
    ensures i < j ==> h.used[es[i].key] < h.used[es[j].key]
    decreases j
  {
    if i > 0 {
      OrderedPair(es[1..], h.used[es[0].key] + 1, h, i - 1, j - 1);
    } else if j > 0 {
      OrderedPair(es[1..], h.used[es[0].key] + 1, h, j - 1, j - 1);
    }
  }

  /** In any history, every entry an insert evicts was used less recently than every entry that stays. */
  lemma {:induction false} EvictsLeastRecentlyUsed(ops: seq<Op>, value: seq<Byte>, max: nat) returns (k: nat)
    ensures var h := Run(START, ops, max);
            && k <= |h.es| && Evicted(h.es, |value|, max) == h.es[k..]
            && forall i, j :: 0 <= i < k <= j < |h.es| ==>
                 h.es[i].key in h.used && h.es[j].key in h.used && h.used[h.es[i].key] < h.used[h.es[j].key]
  {
    var h := Run(START, ops, max);
    CoherentOnRuns(START, ops, max);
    k := EvictsOldestOnly(h.es, |value|, max);
    forall i: nat, j: nat | i < k <= j < |h.es|
      ensures h.es[i].key in h.used && h.es[j].key in h.used && h.used[h.es[i].key] < h.used[h.es[j].key]
    {
      OrderedPair(h.es, 0, h, i, j);
    }
  }

  /** The bytes of the entries used at or after a time. */
  ghost function UsedSince(es: seq<Entry>, used: map<string, nat>, time: nat): nat {
    if es == [] then 0 else
      (if es[0].key in used && used[es[0].key] >= time then |es[0].value| else 0) + UsedSince(es[1..], used, time)
  }

  lemma {:induction false} SinceAll(es: seq<Entry>, lo: nat, h: History, time: nat)
    requires Ordered(es, lo, h) && time <= lo
    ensures UsedSince(es, h.used, time) == Used(es)
  {
    if es != [] { SinceAll(es[1..], h.used[es[0].key] + 1, h, time); }
  }

  /** The entries used since an entry was are those behind it, and itself. */
  lemma {:induction false} SinceEntry(es: seq<Entry>, lo: nat, h: History, i: nat)
    requires Ordered(es, lo, h) && i < |es|
    ensures es[i].key in h.used && UsedSince(es, h.used, h.used[es[i].key]) == Used(es[i..])
  {
    OrderedPair(es, lo, h, 0, i);
    if i == 0 {
      OrderedFrom(es[1..], h.used[es[0].key] + 1, h.used[es[0].key], h);
      SinceAll(es[1..], h.used[es[0].key], h, h.used[es[0].key]);
      assert es[0..] == es;
    } else {
      SinceEntry(es[1..], h.used[es[0].key] + 1, h, i - 1);
      assert es[1..][i - 1..] == es[i..] && es[1..][i - 1] == es[i];
    }
  }

  lemma {:induction false} LookupIndex(es: seq<Entry>, key: string) returns (i: nat)
    requires Lookup(es, key).Some?
    ensures i < |es| && es[i] == Entry(key, Lookup(es, key).value)
  {
    i := 0;
    if es[0].key != key {
      var j := LookupIndex(es[1..], key);
      i := j + 1;
    }
  }

  /**
    After any history, an insert forgets another key exactly if its entry does not fit into the budget any more
    together with the new one and everything used since.
  */
  lemma {:induction false} ForgetsExactly(ops: seq<Op>, key: string, value: seq<Byte>, max: nat, other: string)
    requires other != key
    ensures var h, h' := Run(START, ops, max), After(Run(START, ops, max), Op.Insert(key, value), max);
            && Lookup(h'.es, key) == Some(value)
            && if Lookup(h.es, other).None? then Lookup(h'.es, other).None? else
                 && other in h.used
                 && Lookup(h'.es, other) == if UsedSince(h.es, h.used, h.used[other]) + |value| <= max
                                            then Lookup(h.es, other) else None
  {
    var h := Run(START, ops, max);
    CoherentOnRuns(START, ops, max);
    OrderedUnique(h.es, 0, h);
    hide Run, Lookup, Used, UsedSince, Inserted, Ordered, Unique;
    InsertExact(h.es, key, value, max);
    if Lookup(h.es, other).Some? {
      var i := LookupIndex(h.es, other);
      SinceEntry(h.es, 0, h, i);
    }
  }

  /** Every insert of the history fits beside what the shard holds by then. */
  ghost predicate Roomy(h: History, ops: seq<Op>, max: nat)
    decreases |ops|
  {
    ops == [] ||
      ((ops[0].Insert? ==> Used(h.es) + |ops[0].value| <= max) && Roomy(After(h, ops[0], max), ops[1..], max))
  }

  /** Every key answers with what was inserted last and not removed. */
  ghost predicate Remembers(h: History) {
    forall key :: Lookup(h.es, key) == if key in h.last then Some(h.last[key]) else None
  }

  lemma {:induction false} RememberedKept(h: History, op: Op, max: nat)
    requires Unique(h.es) && Remembers(h) && (op.Insert? ==> Used(h.es) + |op.value| <= max)
    ensures Remembers(After(h, op, max))
  {
    hide Lookup, Unique, Used, Without, Inserted, Touched;
    forall key ensures Lookup(After(h, op, max).es, key) ==
                       if key in After(h, op, max).last then Some(After(h, op, max).last[key]) else None
    {
      match op {
        case Insert(k, value) => InsertExact(h.es, k, value, max);
        case Get(k) => TouchedSame(h.es, k, key);
        case Remove(k) => LookupWithout(h.es, k, key);
      }
    }
  }

  /** As long as the budget suffices nothing is forgotten. */
  lemma {:induction false} NothingForgotten(h: History, ops: seq<Op>, max: nat)
    requires Coherent(h) && Remembers(h) && Roomy(h, ops, max)
    ensures Remembers(Run(h, ops, max))
    decreases |ops|
  {
    if ops != [] {
      OrderedUnique(h.es, 0, h);
      CoherentKept(h, ops[0], max);
      RememberedKept(h, ops[0], max);
      hide Coherent, Remembers, After;
      NothingForgotten(After(h, ops[0], max), ops[1..], max);
    }
  }

  // ---------------------------------------------------------------- the shards together

  /** `hash` routes each key to one shard. */
  class MemoryCache {
    const shards: seq<Shard>
    const hash: string -> nat

    ghost predicate Valid()
      reads this, shards
    {
      && shards != []
      && (forall i, j :: 0 <= i < j < |shards| ==> shards[i] != shards[j])
      && forall s :: s in shards ==> s.Valid()
    }

    constructor (maxBytes: nat, shardCount: nat, hash: string -> nat)
      ensures Valid() && fresh(shards) && this.hash == hash && |shards| == Max(shardCount, 1)
      ensures forall s :: s in shards ==> s.cache == [] && s.maxBytes == Max(maxBytes / Max(shardCount, 1), 1)
    {
      var count := Max(shardCount, 1);
      var perShard := Max(maxBytes / count, 1);
      var made: seq<Shard> := [];
      while |made| < count
        invariant |made| <= count && fresh(made)
        invariant forall i, j :: 0 <= i < j < |made| ==> made[i] != made[j]
        invariant forall s :: s in made ==> s.Valid() && s.cache == [] && s.maxBytes == perShard
      {
        var s := new Shard(perShard);
        made := made + [s];
      }
      this.shards, this.hash := made, hash;
    }

    function ShardIndex(key: string): (i: nat)
      requires shards != []
      ensures i < |shards|
    {
      hash(key) % |shards|
    }

    method Insert(key: string, value: seq<Byte>)
      requires Valid()
      modifies shards[ShardIndex(key)]
      ensures Valid()
      ensures var s := shards[ShardIndex(key)];
              s.cache == Inserted(old(s.cache), key, value, s.maxBytes)
              && RoomMade(old(s.cache), s.cache, key, value, s.maxBytes)
    {
      shards[ShardIndex(key)].Insert(key, value);
    }

    method Get(key: string) returns (found: Option<seq<Byte>>)
      requires Valid()
      modifies shards[ShardIndex(key)]
      ensures Valid()
      ensures var s := shards[ShardIndex(key)];
              found == Lookup(old(s.cache), key) && s.cache == Touched(old(s.cache), key)
    {
      found := shards[ShardIndex(key)].Get(key);
    }

    method Remove(key: string)
      requires Valid()
      modifies shards[ShardIndex(key)]
      ensures Valid()
      ensures var s := shards[ShardIndex(key)]; s.cache == Without(old(s.cache), key)
    {
      shards[ShardIndex(key)].Remove(key);
    }
  }
}

/**
 The handles of a replay: the driver returns others than those that were recorded, so small maps
 that share one array translate them.
 */
module Handles {
  import opened Options
  import opened Wire

  const MAXMAPS := 16
  const MAXKEYS := 16

  // ---------- Slots as finite maps ----------

  // The slots of one map: keys at the even places, their values behind them.
  type Slots = s: seq<Long> | |s| == 2 * MAXKEYS witness seq(2 * MAXKEYS, _ => 0)

  function Key(slots: Slots, i: nat): Long
    requires i < MAXKEYS
  {
    slots[2 * i]
  }

  function Val(slots: Slots, i: nat): Long
    requires i < MAXKEYS
  {
    slots[2 * i + 1]
  }

  function Set(slots: Slots, i: nat, key: Long, val: Long): (slots': Slots)
    requires i < MAXKEYS
    ensures forall j: nat :: j < MAXKEYS ==> Key(slots', j) == if j == i then key else Key(slots, j)
    ensures forall j: nat :: j < MAXKEYS ==> Val(slots', j) == if j == i then val else Val(slots, j)
  {
    slots[2 * i := key][2 * i + 1 := val]
  }

  // The slots in front of the first without a key.
  function Used(slots: Slots, from: nat): (n: nat)
    requires from <= MAXKEYS
    ensures from <= n <= MAXKEYS
    ensures forall i: nat :: from <= i < n ==> Key(slots, i) != 0
    ensures n < MAXKEYS ==> Key(slots, n) == 0
    decreases MAXKEYS - from
  {
    if from == MAXKEYS || Key(slots, from) == 0 then from else Used(slots, from + 1)
  }

  // The keys are a prefix, and no key is there twice.
  predicate Kept(slots: Slots) {
    var n := Used(slots, 0);
    && (forall i: nat :: n <= i < MAXKEYS ==> Key(slots, i) == 0)
    && Distinct(slots, n)
  }

  // The map that the first n slots hold.
  function MapOf(slots: Slots, n: nat): map<Long, Long>
    requires n <= MAXKEYS
  {
    if n == 0 then map[] else MapOf(slots, n - 1)[Key(slots, n - 1) := Val(slots, n - 1)]
  }

  function Contents(slots: Slots): map<Long, Long> {
    MapOf(slots, Used(slots, 0))
  }

  // What is found under a key: null if it is not there.
  function Lookup(m: map<Long, Long>, key: Long): Long {
    if key in m then m[key] else 0
  }

  predicate Distinct(slots: Slots, n: nat)
    requires n <= MAXKEYS
  {
    forall i: nat, j: nat :: i < j < n ==> Key(slots, i) != Key(slots, j)
  }

  lemma {:induction false} Found(slots: Slots, n: nat, i: nat)
    requires i < n <= MAXKEYS && Distinct(slots, n)
    ensures Key(slots, i) in MapOf(slots, n) && MapOf(slots, n)[Key(slots, i)] == Val(slots, i)
  {
    if i < n - 1 {
      Found(slots, n - 1, i);
    }
  }

  lemma {:induction false} NotFound(slots: Slots, n: nat, key: Long)
    requires n <= MAXKEYS && forall i: nat :: i < n ==> Key(slots, i) != key
    ensures key !in MapOf(slots, n)
  {
    if n > 0 {
      NotFound(slots, n - 1, key);
    }
  }

  lemma {:induction false} AllFound(slots: Slots, n: nat)
    requires n <= MAXKEYS && Distinct(slots, n)
    ensures |MapOf(slots, n)| == n
  {
    if n > 0 {
      AllFound(slots, n - 1);
      NotFound(slots, n - 1, Key(slots, n - 1));
      assert MapOf(slots, n).Keys == MapOf(slots, n - 1).Keys + {Key(slots, n - 1)};
    }
  }

  lemma {:induction false} SameMap(a: Slots, b: Slots, n: nat)
    requires n <= MAXKEYS && forall i: nat :: i < n ==> Key(a, i) == Key(b, i) && Val(a, i) == Val(b, i)
    ensures MapOf(a, n) == MapOf(b, n)
  {
    if n > 0 {
      SameMap(a, b, n - 1);
    }
  }

  lemma {:induction false} MapUpdated(slots: Slots, n: nat, i: nat, val: Long)
    requires i < n <= MAXKEYS && Distinct(slots, n)
    ensures MapOf(Set(slots, i, Key(slots, i), val), n) == MapOf(slots, n)[Key(slots, i) := val]
  {
    if i == n - 1 {
      SameMap(slots, Set(slots, i, Key(slots, i), val), i);
    } else {
      MapUpdated(slots, n - 1, i, val);
    }
  }

  lemma UsedIs(slots: Slots, n: nat)
    requires n <= MAXKEYS && (forall i: nat :: i < n ==> Key(slots, i) != 0) && (n < MAXKEYS ==> Key(slots, n) == 0)
    ensures Used(slots, 0) == n
  {
    var m := Used(slots, 0);
    assert m == MAXKEYS || Key(slots, m) == 0;
  }

  // A map holds at most sixteen keys, none of them null.
  lemma ContentsBounded(slots: Slots)
    requires Kept(slots)
    ensures 0 !in Contents(slots) && |Contents(slots)| == Used(slots, 0) <= MAXKEYS
  {
    var n := Used(slots, 0);
    AllFound(slots, n);
    NotFound(slots, n, 0);
  }

  // A slot with a new key, or with a new value under its key.
  lemma SlotPut(slots: Slots, i: nat, key: Long, val: Long)
    requires Kept(slots) && i < MAXKEYS && i <= Used(slots, 0)
    requires Key(slots, i) == 0 || Key(slots, i) == key
    requires forall j: nat :: j < i ==> Key(slots, j) != key
    ensures Kept(Set(slots, i, key, val))
    ensures Contents(Set(slots, i, key, val)) == if key == 0 then Contents(slots) else Contents(slots)[key := val]
  {
    hide Key, Val, Set, MapOf, Used;
    var n, slots' := Used(slots, 0), Set(slots, i, key, val);
    if key == 0 {
      UsedIs(slots', n);
      SameMap(slots, slots', n);
    } else if i < n {
      UsedIs(slots', n);
      MapUpdated(slots, n, i, val);
    } else {
      UsedIs(slots', n + 1);
      SameMap(slots, slots', n);
      LastEntry(slots', n);
    }
  }

  lemma LastEntry(slots: Slots, n: nat)
    requires n < MAXKEYS
    ensures MapOf(slots, n + 1) == MapOf(slots, n)[Key(slots, n) := Val(slots, n)]
  {
  }

  // ---------- The maps ----------

  class Maps {
    const mapSpace: array<Long>
    var lastMap: int

    ghost predicate Valid()
      reads this, mapSpace
    {
      && mapSpace.Length == MAXMAPS * MAXKEYS * 2
      && -1 <= lastMap < MAXMAPS
      && (forall m :: 0 <= m <= lastMap ==> Kept(SlotsOf(m)))
      && (forall k :: 32 * (lastMap + 1) <= k < mapSpace.Length ==> mapSpace[k] == 0)
    }

    ghost function SlotsOf(m: int): Slots
      reads mapSpace
      requires mapSpace.Length == MAXMAPS * MAXKEYS * 2 && 0 <= m < MAXMAPS
    {
      mapSpace[32 * m..32 * m + 32]
    }

    constructor ()
      ensures Valid() && lastMap == -1 && fresh(mapSpace)
    {
      mapSpace := new Long[MAXMAPS * MAXKEYS * 2](_ => 0);
      lastMap := -1;
    }

    // A new map, which is empty; there is none left after the sixteenth.
    method CreateMap() returns (m: Option<nat>)
      requires Valid()
      modifies this
      ensures Valid() && (m == None <==> old(lastMap) == MAXMAPS - 1)
      ensures m.Some? ==> lastMap == old(lastMap) + 1 && m == Some(lastMap) && Contents(SlotsOf(lastMap)) == map[]
      ensures m == None ==> lastMap == old(lastMap)
    {
      if lastMap + 1 >= MAXMAPS { return None; }
      lastMap := lastMap + 1;
      assert SlotsOf(lastMap)[0] == 0;
      m := Some(lastMap);
    }

    // Fails if the map is full and does not have the key.
    method PutMap(m: nat, key: Long, val: Long) returns (ok: bool)
      requires Valid() && m <= lastMap
      modifies mapSpace
      ensures Valid()
      ensures ok <==> key in old(Contents(SlotsOf(m))) || |old(Contents(SlotsOf(m)))| < MAXKEYS
      ensures Contents(SlotsOf(m)) ==
              if ok && key != 0 then old(Contents(SlotsOf(m)))[key := val] else old(Contents(SlotsOf(m)))
      ensures forall k :: 0 <= k <= lastMap && k != m ==> SlotsOf(k) == old(SlotsOf(k))
    {
      hide Kept, Contents, MapOf, Used;
      ghost var slots := SlotsOf(m);
      var base, i := 32 * m, 0;
      while i < MAXKEYS
        invariant 0 <= i <= MAXKEYS && Passed(slots, i, key)
        invariant mapSpace[..] == old(mapSpace[..])
      {
        assert mapSpace[base + 2 * i] == Key(slots, i);
        if mapSpace[base + 2 * i] == 0 || mapSpace[base + 2 * i] == key {
          PassedPut(slots, i, key);
          SlotPut(slots, i, key, val);
          mapSpace[base + 2 * i] := key;
          mapSpace[base + 2 * i + 1] := val;
          assert SlotsOf(m) == Set(slots, i, key, val);
          assert forall k :: 0 <= k <= lastMap && k != m ==> SlotsOf(k) == old(SlotsOf(k));
          return true;
        }
        i := i + 1;
      }
      PassedAll(slots, key);
      return false;
    }

    method GetMap(m: nat, key: Long) returns (val: Long)
      requires Valid() && m <= lastMap
      ensures val == Lookup(Contents(SlotsOf(m)), key)
    {
      hide Kept, Contents, MapOf, Used;
      ghost var slots := SlotsOf(m);
      var base, i := 32 * m, 0;
      while i < MAXKEYS
        invariant 0 <= i <= MAXKEYS && Passed(slots, i, key)
      {
        assert mapSpace[base + 2 * i] == Key(slots, i) && mapSpace[base + 2 * i + 1] == Val(slots, i);
        if mapSpace[base + 2 * i] == 0 {
          PassedGet(slots, i, key);
          return 0;
        }
        if mapSpace[base + 2 * i] == key {
          PassedGet(slots, i, key);
          return mapSpace[base + 2 * i + 1];
        }
        i := i + 1;
      }
      PassedAll(slots, key);
      return 0;
    }
  }

  // The slots in front of i have keys, and not this one.
  predicate Passed(slots: Slots, i: nat, key: Long)
    requires i <= MAXKEYS
  {
    forall j: nat :: j < i ==> Key(slots, j) != 0 && Key(slots, j) != key
  }

  lemma PassedUsed(slots: Slots, i: nat, key: Long)
    requires Kept(slots) && i <= MAXKEYS && Passed(slots, i, key)
    ensures i <= Used(slots, 0)
  {
    var n := Used(slots, 0);
    assert n == MAXKEYS || Key(slots, n) == 0;
  }

  lemma PassedPut(slots: Slots, i: nat, key: Long)
    requires Kept(slots) && i < MAXKEYS && Passed(slots, i, key) && (Key(slots, i) == 0 || Key(slots, i) == key)
    ensures i <= Used(slots, 0)
    ensures key in Contents(slots) || |Contents(slots)| < MAXKEYS
  {
    PassedUsed(slots, i, key);
    ContentsBounded(slots);
    if i < Used(slots, 0) {
      Found(slots, Used(slots, 0), i);
    }
  }

  lemma PassedGet(slots: Slots, i: nat, key: Long)
    requires Kept(slots) && i < MAXKEYS && Passed(slots, i, key) && (Key(slots, i) == 0 || Key(slots, i) == key)
    ensures Lookup(Contents(slots), key) == if Key(slots, i) == 0 then 0 else Val(slots, i)
  {
    PassedUsed(slots, i, key);
    if i < Used(slots, 0) {
      Found(slots, Used(slots, 0), i);
    } else if key == 0 {
      ContentsBounded(slots);
    } else {
      NotFound(slots, i, key);
    }
  }

  lemma PassedAll(slots: Slots, key: Long)
    requires Kept(slots) && Passed(slots, MAXKEYS, key)
    ensures key !in Contents(slots) && |Contents(slots)| == MAXKEYS
  {
    PassedUsed(slots, MAXKEYS, key);
    ContentsBounded(slots);
    NotFound(slots, MAXKEYS, key);
  }
}

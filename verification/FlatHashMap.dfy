/** Open-addressing, linear-probing map from 64-bit keys to 32-bit values; entries are never erased. */
module FlatHashMap {
  import opened Api
  import opened Bits

  datatype Slot = Slot(key: uint64, value: uint32, occupied: bool)

  const EMPTY_SLOT := Slot(0, 0xFFFF_FFFF, false)

  /** Number of occupied slots. */
  ghost function Count(slots: seq<Slot>): (r: nat)
    ensures r <= |slots|
  {
    if |slots| == 0 then 0
    else Count(slots[..|slots| - 1]) + (if slots[|slots| - 1].occupied then 1 else 0)
  }

  lemma {:induction false} CountPlace(slots: seq<Slot>, i: nat, s: Slot)
    requires i < |slots| && !slots[i].occupied && s.occupied
    ensures Count(slots[i := s]) == Count(slots) + 1
  {
    var n := |slots| - 1;
    if i == n {
      assert slots[i := s][..n] == slots[..n];
    } else {
      assert slots[i := s][..n] == slots[..n][i := s];
      CountPlace(slots[..n], i, s);
    }
  }

  lemma {:induction false} CountAssign(slots: seq<Slot>, i: nat, s: Slot)
    requires i < |slots| && slots[i].occupied == s.occupied
    ensures Count(slots[i := s]) == Count(slots)
  {
    var n := |slots| - 1;
    if i == n {
      assert slots[i := s][..n] == slots[..n];
    } else {
      assert slots[i := s][..n] == slots[..n][i := s];
      CountAssign(slots[..n], i, s);
    }
  }

  /** A table that is not full has a free slot. */
  lemma {:induction false} FreeSlot(slots: seq<Slot>) returns (e: nat)
    requires Count(slots) < |slots|
    ensures e < |slots| && !slots[e].occupied
  {
    var n := |slots| - 1;
    if slots[n].occupied { e := FreeSlot(slots[..n]); } else { e := n; }
  }

  lemma {:induction false} CountEmpty(n: nat)
    ensures Count(seq(n, _ => EMPTY_SLOT)) == 0
  {
    if n > 0 {
      assert seq(n, _ => EMPTY_SLOT)[..n - 1] == seq(n - 1, _ => EMPTY_SLOT);
      CountEmpty(n - 1);
    }
  }

  /** i is passed when probing cyclically from h up to, not including, p. */
  ghost predicate OnPath(h: nat, p: nat, i: nat) {
    if h <= p then h <= i < p else i >= h || i < p
  }

  ghost predicate PathOccupied(slots: seq<Slot>, h: nat, p: nat) {
    forall i :: 0 <= i < |slots| && OnPath(h, p, i) ==> slots[i].occupied
  }

  /** The slot where probing for a key begins. */
  ghost function Home(mix: uint64 -> uint64, key: uint64, capacity: nat): (r: nat)
    requires capacity > 0
    ensures r < capacity
  {
    mix(key) % capacity
  }

  /** pos names the slot of each key, and every key is reachable by probing from its home. */
  ghost predicate IsTable(mix: uint64 -> uint64, slots: seq<Slot>, pos: map<uint64, nat>) {
    && |slots| > 0
    && (forall k <- pos :: pos[k] < |slots| && slots[pos[k]].occupied && slots[pos[k]].key == k)
    && (forall j :: 0 <= j < |slots| && slots[j].occupied ==> slots[j].key in pos && pos[slots[j].key] == j)
    && (forall k <- pos :: PathOccupied(slots, Home(mix, k, |slots|), pos[k]))
  }

  ghost function Stored(slots: seq<Slot>, pos: map<uint64, nat>): map<uint64, uint32> {
    map k <- pos | pos[k] < |slots| :: slots[pos[k]].value
  }

  /** Occupying a free slot at the end of its probe path adds one entry. */
  lemma TablePlace(mix: uint64 -> uint64, slots: seq<Slot>, pos: map<uint64, nat>, i: nat, key: uint64, value: uint32)
    requires IsTable(mix, slots, pos) && key !in pos
    requires i < |slots| && !slots[i].occupied && PathOccupied(slots, Home(mix, key, |slots|), i)
    ensures IsTable(mix, slots[i := Slot(key, value, true)], pos[key := i])
    ensures Stored(slots[i := Slot(key, value, true)], pos[key := i]) == Stored(slots, pos)[key := value]
  {
    var slots', pos' := slots[i := Slot(key, value, true)], pos[key := i];
    forall k <- pos' ensures PathOccupied(slots', Home(mix, k, |slots'|), pos'[k]) {
      if k != key { assert PathOccupied(slots, Home(mix, k, |slots|), pos[k]); }
    }
  }

  lemma TableAssign(mix: uint64 -> uint64, slots: seq<Slot>, pos: map<uint64, nat>, key: uint64, value: uint32)
    requires IsTable(mix, slots, pos) && key in pos
    ensures IsTable(mix, slots[pos[key] := slots[pos[key]].(value := value)], pos)
    ensures Stored(slots[pos[key] := slots[pos[key]].(value := value)], pos) == Stored(slots, pos)[key := value]
  {
    var slots' := slots[pos[key] := slots[pos[key]].(value := value)];
    forall k <- pos ensures PathOccupied(slots', Home(mix, k, |slots'|), pos[k]) {
      assert PathOccupied(slots, Home(mix, k, |slots|), pos[k]);
    }
  }

  lemma EmptyTable(mix: uint64 -> uint64, n: nat)
    ensures n > 0 ==> IsTable(mix, seq(n, _ => EMPTY_SLOT), map[])
    ensures Stored(seq(n, _ => EMPTY_SLOT), map[]) == map[] == Filled([])
  {
  }

  /** The entries of a slot sequence, collected from left to right. */
  ghost function Filled(slots: seq<Slot>): map<uint64, uint32> {
    if |slots| == 0 then map[]
    else
      var rest, s := Filled(slots[..|slots| - 1]), slots[|slots| - 1];
      if s.occupied then rest[s.key := s.value] else rest
  }

  lemma {:induction false} FilledEntry(slots: seq<Slot>, key: uint64) returns (j: nat)
    requires key in Filled(slots)
    ensures j < |slots| && slots[j].occupied && slots[j].key == key && slots[j].value == Filled(slots)[key]
  {
    var n := |slots| - 1;
    if slots[n].occupied && slots[n].key == key { j := n; } else { j := FilledEntry(slots[..n], key); }
  }

  lemma {:induction false} FilledHas(slots: seq<Slot>, j: nat)
    requires j < |slots| && slots[j].occupied
    ensures slots[j].key in Filled(slots)
  {
    var n := |slots| - 1;
    if j < n { FilledHas(slots[..n], j); }
  }

  /** Going one slot further adds that slot's entry, whose key has not been met before. */
  lemma FilledPrefix(mix: uint64 -> uint64, slots: seq<Slot>, pos: map<uint64, nat>, i: nat)
    requires IsTable(mix, slots, pos) && i < |slots|
    ensures slots[i].occupied ==> slots[i].key !in Filled(slots[..i])
    ensures Filled(slots[..i + 1]) ==
      if slots[i].occupied then Filled(slots[..i])[slots[i].key := slots[i].value] else Filled(slots[..i])
  {
    assert slots[..i + 1][..i] == slots[..i];
    if slots[i].occupied && slots[i].key in Filled(slots[..i]) {
      var j := FilledEntry(slots[..i], slots[i].key);
    }
  }

  lemma FilledIsStored(mix: uint64 -> uint64, slots: seq<Slot>, pos: map<uint64, nat>)
    requires IsTable(mix, slots, pos)
    ensures Filled(slots) == Stored(slots, pos)
  {
    var f, m := Filled(slots), Stored(slots, pos);
    forall key | key in f ensures key in m && m[key] == f[key] { var j := FilledEntry(slots, key); }
    forall key | key in m ensures key in f { FilledHas(slots, pos[key]); }
  }

  // Capacities

  /** Exponent of the smallest power of two at or above n. */
  function CeilLog2(n: nat): nat {
    if n <= 1 then 0 else 1 + CeilLog2((n + 1) / 2)
  }

  lemma {:induction false} CeilLog2Is(n: nat)
    ensures Pow2(CeilLog2(n)) >= n
    ensures forall k: nat :: Pow2(k) >= n ==> CeilLog2(n) <= k
  {
    if n > 1 {
      CeilLog2Is((n + 1) / 2);
      forall k: nat | Pow2(k) >= n ensures CeilLog2(n) <= k {
        assert k > 0 && Pow2(k - 1) >= (n + 1) / 2;
      }
    }
  }

  /** Smallest power-of-two capacity that holds n entries at load 0.7. */
  function CapacityFor(n: nat): nat {
    Pow2(CeilLog2(n * 10 / 7 + 1))
  }

  lemma CapacityForIs(n: nat, k: nat)
    ensures 10 * n <= 7 * CapacityFor(n)
    ensures 10 * n <= 7 * Pow2(k) && Pow2(k) % 7 != 0 ==> CapacityFor(n) <= Pow2(k)
  {
    CeilLog2Is(n * 10 / 7 + 1);
    if 10 * n <= 7 * Pow2(k) && Pow2(k) % 7 != 0 {
      Pow2Mod7(k);
      Fits(n, k);
      Pow2Mono(CeilLog2(n * 10 / 7 + 1), k);
    }
  }

  lemma Fits(n: nat, k: nat)
    requires 10 * n <= 7 * Pow2(k)
    ensures n * 10 / 7 + 1 <= Pow2(k)
  {
    Pow2Mod7(k);
    if 10 * n == 7 * Pow2(k) {
      Pow2Mod5(k);
    }
  }

  lemma {:induction false} Pow2Mod7(k: nat)
    ensures Pow2(k) % 7 != 0
  {
    if k > 0 { Pow2Mod7(k - 1); }
  }

  /** A full load is never met exactly: no power of two is a multiple of 5. */
  lemma {:induction false} Pow2Mod5(k: nat)
    ensures Pow2(k) % 5 != 0
  {
    if k > 0 { Pow2Mod5(k - 1); }
  }

  /** A table of 2^k slots holding `size` entries. */
  ghost predicate IsSized(mix: uint64 -> uint64, slots: seq<Slot>, pos: map<uint64, nat>, capacity: nat, k: nat,
                          size: nat) {
    capacity == |slots| == Pow2(k) && IsTable(mix, slots, pos) && size == Count(slots) == |pos|
  }

  lemma SizedPlace(mix: uint64 -> uint64, slots: seq<Slot>, pos: map<uint64, nat>, capacity: nat, k: nat, size: nat,
                   i: nat, key: uint64, value: uint32)
    requires IsSized(mix, slots, pos, capacity, k, size) && key !in Stored(slots, pos)
    requires i < capacity && !slots[i].occupied && PathOccupied(slots, Home(mix, key, capacity), i)
    ensures IsSized(mix, slots[i := Slot(key, value, true)], pos[key := i], capacity, k, size + 1)
    ensures Stored(slots[i := Slot(key, value, true)], pos[key := i]) == Stored(slots, pos)[key := value]
  {
    TablePlace(mix, slots, pos, i, key, value);
    CountPlace(slots, i, Slot(key, value, true));
  }

  class FlatHashMap {
    const mix: uint64 -> uint64
    var slots: seq<Slot>
    var capacity: nat
    var mask: nat
    var size: nat
    ghost var logCapacity: nat
    ghost var pos: map<uint64, nat>

    ghost predicate Shape()
      reads this
    {
      mask == capacity - 1 && IsSized(mix, slots, pos, capacity, logCapacity, size)
    }

    /** Occupancy stays within 0.7 of the capacity. */
    ghost predicate Valid()
      reads this
    {
      Shape() && 10 * size <= 7 * capacity
    }

    ghost function Contents(): map<uint64, uint32>
      reads this
    {
      Stored(slots, pos)
    }

    constructor (mix: uint64 -> uint64)
      ensures Valid() && Contents() == map[] && capacity == 16
    {
      this.mix := mix;
      new;
      slots := seq(16, _ => EMPTY_SLOT);
      capacity, mask, size := 16, 15, 0;
      pos, logCapacity := map[], 4;
      CountEmpty(16);
      assert Pow2(4) == 16;
    }

    /** Grow-only: afterwards n entries fit without a rehash. */
    method Reserve(n: nat)
      requires Valid()
      modifies this
      ensures Valid() && Contents() == old(Contents())
      ensures capacity >= old(capacity) && 10 * n <= 7 * capacity
    {
      var cap := CapacityFor(n);
      CapacityForIs(n, logCapacity);
      if cap > capacity {
        CapacityNeeded();
        Rehash(cap, CeilLog2(n * 10 / 7 + 1));
      }
    }

    /** The capacity floor of Rehash is met by the current capacity. */
    lemma CapacityNeeded()
      requires Valid()
      ensures CapacityFor(size) <= capacity
    {
      Pow2Mod7(logCapacity);
      CapacityForIs(size, logCapacity);
    }

    /** First slot of a key's probe sequence: masking is the remainder, the capacity being a power of two. */
    method FirstProbe(key: uint64) returns (idx: nat)
      requires Shape()
      ensures idx == Home(mix, key, capacity)
    {
      AndLowMask(mix(key), logCapacity);
      idx := And(mix(key), mask);
    }

    method NextProbe(idx: nat) returns (next: nat)
      requires Shape() && idx < capacity
      ensures next == if idx + 1 == capacity then 0 else idx + 1
    {
      AndLowMask(idx + 1, logCapacity);
      WrapOnce(idx, capacity);
      next := And(idx + 1, mask);
    }

    /** Where a key is stored. */
    method FindSlot(key: uint64) returns (r: Option<nat>)
      requires Valid()
      ensures r == if key in pos then Some(pos[key]) else None
    {
      hide Home, Stored, Count, Pow2;
      var idx := FirstProbe(key);
      ghost var h := idx;
      ghost var e := FreeSlot(slots);
      assert key in pos ==> PathOccupied(slots, h, pos[key]);
      while true
        invariant 0 <= idx < capacity
        invariant !OnPath(h, idx, e)
        invariant key in pos ==> !OnPath(h, idx, pos[key])
        decreases if idx <= e then e - idx else e + capacity - idx
      {
        if !slots[idx].occupied { return None; }
        if slots[idx].key == key { return Some(idx); }
        idx := NextProbe(idx);
      }
    }

    method Find(key: uint64) returns (r: Option<uint32>)
      requires Valid()
      ensures r == if key in Contents() then Some(Contents()[key]) else None
    {
      var slot := FindSlot(key);
      r := if slot.Some? then Some(slots[slot.value].value) else None;
    }

    method Contains(key: uint64) returns (r: bool)
      requires Valid()
      ensures r <==> key in Contents()
    {
      var slot := FindSlot(key);
      r := slot.Some?;
    }

    method AssignExisting(key: uint64, value: uint32)
      requires Valid() && key in Contents()
      modifies this
      ensures Valid() && Contents() == old(Contents())[key := value]
      ensures capacity == old(capacity)
    {
      var slot := FindSlot(key);
      var idx := slot.value;
      TableAssign(mix, slots, pos, key, value);
      CountAssign(slots, idx, slots[idx].(value := value));
      slots := slots[idx := slots[idx].(value := value)];
    }

    /** Adds an absent key; grows only when the load would pass 0.7. */
    method Insert(key: uint64, value: uint32)
      requires Valid() && key !in Contents()
      modifies this
      ensures Valid() && Contents() == old(Contents())[key := value]
      ensures 10 * (old(size) + 1) <= 7 * old(capacity) ==> capacity == old(capacity)
    {
      if size + 1 > capacity * 7 / 10 {
        CapacityNeeded();
        Rehash(capacity * 2, logCapacity + 1);
      }
      Place(key, value);
    }

    method Rehash(newCapacity: nat, ghost k: nat)
      requires Valid() && newCapacity == Pow2(k) && newCapacity >= CapacityFor(size)
      modifies this
      ensures Valid() && Contents() == old(Contents())
      ensures size == old(size) && capacity == newCapacity
    {
      hide Pow2, CapacityFor, IsTable, Filled;
      var cap := if newCapacity >= CapacityFor(size) then newCapacity else CapacityFor(size);
      CapacityForIs(size, k);
      var previous := slots;
      ghost var oldPos, oldSize := pos, size;
      slots := seq(cap, _ => EMPTY_SLOT);
      capacity, mask, size := cap, cap - 1, 0;
      pos, logCapacity := map[], k;
      CountEmpty(cap);
      EmptyTable(mix, cap);
      assert previous[..0] == [];
      for i := 0 to |previous|
        invariant Shape() && capacity == cap
        invariant size == Count(previous[..i]) <= oldSize
        invariant Contents() == Filled(previous[..i])
      {
        CountPrefix(previous, i);
        FilledPrefix(mix, previous, oldPos, i);
        var s := previous[i];
        if s.occupied { Place(s.key, s.value); }
      }
      assert previous[..|previous|] == previous;
      FilledIsStored(mix, previous, oldPos);
    }

    /** The first free slot of a key's probe path. */
    method FreeProbe(key: uint64) returns (idx: nat)
      requires Shape() && size < capacity
      ensures idx < capacity == |slots| && !slots[idx].occupied
      ensures PathOccupied(slots, Home(mix, key, capacity), idx)
    {
      hide Home, Stored, Count, Pow2;
      idx := FirstProbe(key);
      ghost var h := idx;
      ghost var e := FreeSlot(slots);
      while slots[idx].occupied
        invariant 0 <= idx < capacity
        invariant !OnPath(h, idx, e)
        invariant PathOccupied(slots, h, idx)
        decreases if idx <= e then e - idx else e + capacity - idx
      {
        idx := NextProbe(idx);
      }
    }

    /** Stores an absent key in the first free slot of its probe path. */
    method Place(key: uint64, value: uint32)
      requires Shape() && key !in Contents() && size < capacity
      modifies this
      ensures Shape() && Contents() == old(Contents())[key := value]
      ensures capacity == old(capacity) && size == old(size) + 1
    {
      hide IsSized, Stored, PathOccupied, Home;
      var idx := FreeProbe(key);
      SizedPlace(mix, slots, pos, capacity, logCapacity, size, idx, key, value);
      slots := slots[idx := Slot(key, value, true)];
      pos := pos[key := idx];
      size := size + 1;
    }
  }

  lemma WrapOnce(idx: nat, capacity: nat)
    requires idx < capacity
    ensures (idx + 1) % capacity == if idx + 1 == capacity then 0 else idx + 1
  {
  }

  lemma {:induction false} CountPrefix(slots: seq<Slot>, i: nat)
    requires i < |slots|
    ensures Count(slots[..i + 1]) == Count(slots[..i]) + (if slots[i].occupied then 1 else 0)
    ensures Count(slots[..i + 1]) <= Count(slots)
    decreases |slots| - i
  {
    assert slots[..i + 1][..i] == slots[..i];
    if i + 1 < |slots| { CountPrefix(slots, i + 1); } else { assert slots[..i + 1] == slots; }
  }
}

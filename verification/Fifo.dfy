/** Intrusive doubly linked FIFO queues threaded through the records of one shared pool. */
module Fifo {
  import opened Api
  import opened OrderPool

  type Records = seq<OrderRecord>

  /** The i-th slot of a queue; INVALID_SLOT before its start and past its end. */
  ghost function At(q: seq<nat>, i: int): int {
    if 0 <= i < |q| then q[i] else INVALID_SLOT
  }

  ghost predicate Distinct(q: seq<nat>) {
    forall i, j :: 0 <= i < j < |q| ==> q[i] != q[j]
  }

  ghost predicate InPool(recs: Records, q: seq<nat>) {
    forall i :: 0 <= i < |q| ==> q[i] < |recs|
  }

  ghost predicate LinkedAt(recs: Records, q: seq<nat>, i: nat)
    requires i < |q| && q[i] < |recs|
  {
    recs[q[i]].prev == At(q, i - 1) && recs[q[i]].next == At(q, i + 1)
  }

  /** The prev and next fields of q's records spell out q, in both directions and without a cycle. */
  ghost predicate Chain(recs: Records, q: seq<nat>) {
    && InPool(recs, q) && Distinct(q)
    && (forall i :: 0 <= i < |q| ==> LinkedAt(recs, q, i))
  }

  // The three link updates

  /** Appending `slot` behind `tail`. */
  function AppendLinks(recs: Records, tail: uint32, slot: uint32): (r: Records)
    requires slot < |recs| && (tail != INVALID_SLOT ==> tail < |recs|)
    ensures |r| == |recs|
  {
    var r := recs[slot := recs[slot].(prev := tail, next := INVALID_SLOT)];
    if tail != INVALID_SLOT then r[tail := r[tail].(next := slot)] else r
  }

  /** Unlinking `slot` from wherever it stands. */
  function UnlinkLinks(recs: Records, slot: uint32): (r: Records)
    requires slot < |recs|
    requires recs[slot].prev != INVALID_SLOT ==> recs[slot].prev < |recs|
    requires recs[slot].next != INVALID_SLOT ==> recs[slot].next < |recs|
    ensures |r| == |recs|
  {
    var p, n := recs[slot].prev, recs[slot].next;
    var r := if p != INVALID_SLOT then recs[p := recs[p].(next := n)] else recs;
    var r' := if n != INVALID_SLOT then r[n := r[n].(prev := p)] else r;
    r'[slot := r'[slot].(isOpen := false, prev := INVALID_SLOT, next := INVALID_SLOT)]
  }

  /** Giving `slot`'s position to `heir`. */
  function SpliceLinks(recs: Records, slot: uint32, heir: uint32): (r: Records)
    requires slot < |recs| && heir < |recs| && heir != slot
    requires recs[slot].prev != INVALID_SLOT ==> recs[slot].prev < |recs|
    requires recs[slot].next != INVALID_SLOT ==> recs[slot].next < |recs|
    ensures |r| == |recs|
  {
    var p, n := recs[slot].prev, recs[slot].next;
    var r := recs[heir := recs[heir].(prev := p, next := n)];
    var r' := if p != INVALID_SLOT then r[p := r[p].(next := heir)] else r;
    var r'' := if n != INVALID_SLOT then r'[n := r'[n].(prev := heir)] else r';
    r''[slot := r''[slot].(isOpen := false, prev := INVALID_SLOT, next := INVALID_SLOT)]
  }

  lemma ChainFrame(recs: Records, recs': Records, q: seq<nat>)
    requires Chain(recs, q) && |recs'| >= |recs|
    requires forall i :: 0 <= i < |q| ==> recs'[q[i]].prev == recs[q[i]].prev && recs'[q[i]].next == recs[q[i]].next
    ensures Chain(recs', q)
  {
    forall i | 0 <= i < |q| ensures LinkedAt(recs', q, i) { assert LinkedAt(recs, q, i); }
  }

  lemma AppendChain(recs: Records, q: seq<nat>, slot: uint32)
    requires Chain(recs, q) && |recs| <= INVALID_SLOT && slot < |recs| && slot !in q
    ensures At(q, |q| - 1) == INVALID_SLOT || At(q, |q| - 1) < |recs|
    ensures Chain(AppendLinks(recs, At(q, |q| - 1), slot), q + [slot])
  {
    var r, q' := AppendLinks(recs, At(q, |q| - 1), slot), q + [slot];
    forall i | 0 <= i < |q'| ensures LinkedAt(r, q', i) {
      if i < |q| { assert LinkedAt(recs, q, i); }
    }
  }

  lemma NeighboursInPool(recs: Records, q: seq<nat>, k: nat)
    requires Chain(recs, q) && k < |q|
    ensures recs[q[k]].prev == At(q, k - 1) && recs[q[k]].next == At(q, k + 1)
    ensures At(q, k - 1) == INVALID_SLOT || At(q, k - 1) < |recs|
    ensures At(q, k + 1) == INVALID_SLOT || At(q, k + 1) < |recs|
  {
    assert LinkedAt(recs, q, k);
  }

  ghost function Without(q: seq<nat>, k: nat): seq<nat>
    requires k < |q|
  {
    q[..k] + q[k + 1..]
  }

  lemma WithoutAt(q: seq<nat>, k: nat, i: int)
    requires k < |q|
    ensures At(Without(q, k), i) == if i < 0 then INVALID_SLOT else if i < k then At(q, i) else At(q, i + 1)
  {
    if k <= i < |q| - 1 { assert Without(q, k)[i] == q[k + 1..][i - k]; }
  }

  lemma UnlinkChain(recs: Records, q: seq<nat>, k: nat)
    requires Chain(recs, q) && |recs| <= INVALID_SLOT && k < |q|
    requires recs[q[k]].prev == At(q, k - 1) && recs[q[k]].next == At(q, k + 1)
    requires At(q, k - 1) == INVALID_SLOT || At(q, k - 1) < |recs|
    requires At(q, k + 1) == INVALID_SLOT || At(q, k + 1) < |recs|
    ensures Chain(UnlinkLinks(recs, q[k]), Without(q, k))
  {
    var r, q' := UnlinkLinks(recs, q[k]), Without(q, k);
    forall i | 0 <= i < |q'| ensures LinkedAt(r, q', i) {
      WithoutAt(q, k, i - 1); WithoutAt(q, k, i); WithoutAt(q, k, i + 1);
      assert LinkedAt(recs, q, if i < k then i else i + 1);
    }
  }

  ghost function Substitute(q: seq<nat>, k: nat, heir: nat): seq<nat>
    requires k < |q|
  {
    q[k := heir]
  }

  lemma SpliceChain(recs: Records, q: seq<nat>, k: nat, heir: uint32)
    requires Chain(recs, q) && |recs| <= INVALID_SLOT && k < |q| && heir < |recs| && heir !in q
    requires recs[q[k]].prev == At(q, k - 1) && recs[q[k]].next == At(q, k + 1)
    requires At(q, k - 1) == INVALID_SLOT || At(q, k - 1) < |recs|
    requires At(q, k + 1) == INVALID_SLOT || At(q, k + 1) < |recs|
    ensures Chain(SpliceLinks(recs, q[k], heir), Substitute(q, k, heir))
  {
    var r, q' := SpliceLinks(recs, q[k], heir), Substitute(q, k, heir);
    forall i | 0 <= i < |q'| ensures LinkedAt(r, q', i) {
      assert LinkedAt(recs, q, i);
    }
  }

  /** Links are a function of the queue: two pools spelling out the same queue agree on them. */
  lemma ChainDetermines(recs: Records, recs': Records, q: seq<nat>, i: nat)
    requires Chain(recs, q) && Chain(recs', q) && i < |q|
    ensures recs[q[i]].prev == recs'[q[i]].prev && recs[q[i]].next == recs'[q[i]].next
  {
    assert LinkedAt(recs, q, i) && LinkedAt(recs', q, i);
  }

  // Sums of open quantities

  ghost function SumOpen(recs: Records, q: seq<nat>): nat
    requires InPool(recs, q)
  {
    if |q| == 0 then 0 else SumOpen(recs, q[..|q| - 1]) + recs[q[|q| - 1]].openQty
  }

  lemma {:induction false} SumFrame(recs: Records, recs': Records, q: seq<nat>)
    requires InPool(recs, q) && InPool(recs', q)
    requires forall i :: 0 <= i < |q| ==> recs'[q[i]].openQty == recs[q[i]].openQty
    ensures SumOpen(recs', q) == SumOpen(recs, q)
  {
    if |q| > 0 { SumFrame(recs, recs', q[..|q| - 1]); }
  }

  lemma SumAppend(recs: Records, q: seq<nat>, slot: nat)
    requires InPool(recs, q) && slot < |recs|
    ensures SumOpen(recs, q + [slot]) == SumOpen(recs, q) + recs[slot].openQty
  {
    assert (q + [slot])[..|q|] == q;
  }

  lemma {:induction false} SumWithout(recs: Records, q: seq<nat>, k: nat)
    requires InPool(recs, q) && k < |q|
    ensures InPool(recs, Without(q, k))
    ensures SumOpen(recs, Without(q, k)) + recs[q[k]].openQty == SumOpen(recs, q)
  {
    var init, last := q[..|q| - 1], q[|q| - 1];
    if k == |q| - 1 {
      assert Without(q, k) == init;
    } else {
      SumWithout(recs, init, k);
      assert Without(q, k) == Without(init, k) + [last];
      SumAppend(recs, Without(init, k), last);
    }
  }

  /** Replacing one member, or the quantity of one member, shifts the sum by the difference. */
  lemma SumReplace(recs: Records, recs': Records, q: seq<nat>, k: nat, slot: nat)
    requires InPool(recs, q) && k < |q| && slot < |recs'| && InPool(recs', q)
    requires forall i :: 0 <= i < |q| && i != k ==> recs'[q[i]].openQty == recs[q[i]].openQty
    ensures SumOpen(recs', Substitute(q, k, slot)) == SumOpen(recs, q) - recs[q[k]].openQty + recs'[slot].openQty
    ensures recs[q[k]].openQty <= SumOpen(recs, q)
  {
    SumWithout(recs, q, k);
    var q' := Substitute(q, k, slot);
    SumWithout(recs', q', k);
    assert Without(q', k) == Without(q, k);
    SumFrame(recs, recs', Without(q, k));
  }
}

/** Occupancy bitmap over price-level indices, refining a finite set of naturals. */
module LevelBitset {
  import opened Api
  import opened Bits

  /** Whether `bit` is set in the word sequence. */
  ghost predicate BitSet(words: seq<uint64>, bit: nat) {
    bit / 64 < |words| && Bit(words[bit / 64], bit % 64)
  }

  ghost function BitMembers(words: seq<uint64>): set<nat> {
    set bit: nat | 0 <= bit < 64 * |words| && BitSet(words, bit)
  }

  lemma MembersAre(words: seq<uint64>, bit: nat)
    ensures bit in BitMembers(words) <==> BitSet(words, bit)
  {
  }

  /** Position of a bit from its word and offset. */
  lemma Locate(w: nat, k: nat)
    requires k < 64
    ensures (64 * w + k) / 64 == w && (64 * w + k) % 64 == k
  {
  }

  class LevelBitset {
    var words: seq<uint64>

    /** The set this bitmap stands for. */
    ghost function Members(): set<nat>
      reads this
    {
      BitMembers(words)
    }

    constructor ()
      ensures words == [] && Members() == {}
    {
      words := [];
    }

    method Resize(nBits: nat)
      modifies this
      ensures |words| == (nBits + 63) / 64 && nBits <= 64 * |words|
      ensures Members() == {}
    {
      words := seq((nBits + 63) / 64, _ => 0);
      forall bit: nat ensures !BitSet(words, bit) {
        ZeroBit(bit % 64);
      }
    }

    method Set(bit: nat)
      requires bit < 64 * |words|
      modifies this
      ensures |words| == old(|words|)
      ensures Members() == old(Members()) + {bit}
    {
      AndLowMask(bit, 6); Pow2_64();
      SetMembers(words, bit);
      words := words[bit / 64 := Or(words[bit / 64], Shl(1, And(bit, 63)))];
    }

    method Clear(bit: nat)
      requires bit < 64 * |words|
      modifies this
      ensures |words| == old(|words|)
      ensures Members() == old(Members()) - {bit}
    {
      AndLowMask(bit, 6); Pow2_64();
      ClearMembers(words, bit);
      words := words[bit / 64 := And(words[bit / 64], Not(Shl(1, And(bit, 63))))];
    }

    method Test(bit: nat) returns (r: bool)
      requires bit < 64 * |words|
      ensures r <==> bit in Members()
    {
      AndLowMask(bit, 6); Pow2_64();
      r := And(Shr(words[bit / 64], And(bit, 63)), 1) == 1;
      ShrBit(words[bit / 64], bit % 64);
      MembersAre(words, bit);
    }

    /** Highest member at or below `start`; -1 exactly when there is none. */
    method FindHighestLe(start: int) returns (r: int)
      requires start < 64 * |words|
      ensures r == -1 <==> forall m <- Members() :: m > start
      ensures r != -1 ==> r in Members() && r <= start && forall m <- Members() :: m <= start ==> m <= r
    {
      hide And, Shl, Bit, BitWidth, Pow2, LowMask;
      if start < 0 { return -1; }
      AndLowMask(start, 6); Pow2_64();
      var wordIdx := start / 64;
      var bitIdx := And(start, 63);
      var mask := LowMask(bitIdx);
      AndBound(words[wordIdx], mask);
      var w: uint64 := And(words[wordIdx], mask);
      LowMasked(words, start);
      while true
        invariant 0 <= wordIdx < |words| && wordIdx <= start / 64
        invariant forall j: nat :: j < 64 ==> (Bit(w, j) <==>
          BitSet(words, 64 * wordIdx + j) && 64 * wordIdx + j <= start)
        invariant forall b: nat :: b >= 64 * (wordIdx + 1) && BitSet(words, b) ==> b > start
        decreases wordIdx
      {
        if w != 0 {
          r := wordIdx * 64 + (63 - CountlZero(w));
          HighestInWord(words, wordIdx, w, start);
          assert r in Members();
          return;
        }
        forall b: nat | b >= 64 * wordIdx && BitSet(words, b) ensures b > start {
          if b < 64 * (wordIdx + 1) { EmptyWord(words, wordIdx, w, b); }
        }
        wordIdx := wordIdx - 1;
        if wordIdx < 0 { return -1; }
        w := words[wordIdx];
        WholeWord(words, wordIdx);
      }
    }

    /** Lowest member at or above `start`; -1 exactly when there is none. */
    method FindLowestGe(start: int) returns (r: int)
      ensures r == -1 <==> forall m <- Members() :: m < start
      ensures r != -1 ==> r in Members() && r >= start && forall m <- Members() :: m >= start ==> m >= r
    {
      hide And, Shl, Bit, CountrZero, Pow2, HighMask;
      var from := if start < 0 then 0 else start;
      AndLowMask(from, 6); Pow2_64();
      var wordIdx := from / 64;
      if wordIdx >= |words| { return -1; }
      var bitIdx := And(from, 63);
      var mask := HighMask(bitIdx);
      AndBound(words[wordIdx], mask);
      var w: uint64 := And(words[wordIdx], mask);
      HighMasked(words, from);
      while true
        invariant 0 <= wordIdx < |words| && wordIdx >= from / 64
        invariant forall j: nat :: j < 64 ==> (Bit(w, j) <==>
          BitSet(words, 64 * wordIdx + j) && 64 * wordIdx + j >= from)
        invariant forall b: nat :: b < 64 * wordIdx && BitSet(words, b) ==> b < from
        decreases |words| - wordIdx
      {
        if w != 0 {
          r := wordIdx * 64 + CountrZero(w);
          LowestInWord(words, wordIdx, w, from);
          assert r in Members();
          return;
        }
        forall b: nat | b < 64 * (wordIdx + 1) && BitSet(words, b) ensures b < from {
          if b >= 64 * wordIdx { EmptyWord(words, wordIdx, w, b); }
        }
        wordIdx := wordIdx + 1;
        if wordIdx >= |words| { return -1; }
        w := words[wordIdx];
        WholeWord(words, wordIdx);
      }
    }
  }

  /** The mask keeping bits 0 to b of a word. */
  function LowMask(b: nat): uint64
    requires b < 64
  {
    if b == 63 then 0xFFFF_FFFF_FFFF_FFFF
    else
      LowMaskBit(b, 0);
      Shl(1, b + 1) - 1
  }

  /** The mask keeping bits b to 63 of a word. */
  function HighMask(b: nat): uint64
    requires b < 64
  {
    if b == 0 then 0xFFFF_FFFF_FFFF_FFFF else Shl(0xFFFF_FFFF_FFFF_FFFF, b)
  }

  /** What the first, masked word of a downward scan shows. */
  lemma LowMasked(words: seq<uint64>, start: nat)
    requires start / 64 < |words|
    ensures forall j: nat :: j < 64 ==>
      Bit(And(words[start / 64], LowMask(start % 64)), j)
      == (BitSet(words, 64 * (start / 64) + j) && 64 * (start / 64) + j <= start)
  {
    var w, b := start / 64, start % 64;
    forall j: nat | j < 64
      ensures Bit(And(words[w], LowMask(b)), j) <==> BitSet(words, 64 * w + j) && 64 * w + j <= start
    {
      Locate(w, j);
      AndBit(words[w], LowMask(b), j);
      if b == 63 { HighMaskBit(0, j); } else { LowMaskBit(b, j); }
    }
  }

  /** What the first, masked word of an upward scan shows. */
  lemma HighMasked(words: seq<uint64>, start: nat)
    requires start / 64 < |words|
    ensures forall j: nat :: j < 64 ==>
      Bit(And(words[start / 64], HighMask(start % 64)), j)
      == (BitSet(words, 64 * (start / 64) + j) && 64 * (start / 64) + j >= start)
  {
    var w, b := start / 64, start % 64;
    forall j: nat | j < 64
      ensures Bit(And(words[w], HighMask(b)), j) <==> BitSet(words, 64 * w + j) && 64 * w + j >= start
    {
      Locate(w, j);
      AndBit(words[w], HighMask(b), j);
      HighMaskBit(b, j);
    }
  }

  /** A word without a set bit contributes no member to its range. */
  lemma EmptyWord(words: seq<uint64>, wordIdx: nat, w: uint64, b: nat)
    requires w == 0 && 64 * wordIdx <= b < 64 * (wordIdx + 1)
    ensures b - 64 * wordIdx < 64 && !Bit(w, b - 64 * wordIdx)
  {
    ZeroBit(b - 64 * wordIdx);
  }

  /** What an unmasked word shows. */
  lemma WholeWord(words: seq<uint64>, wordIdx: nat)
    requires wordIdx < |words|
    ensures forall j: nat :: j < 64 ==> (Bit(words[wordIdx], j) <==> BitSet(words, 64 * wordIdx + j))
  {
    forall j: nat | j < 64 ensures Bit(words[wordIdx], j) <==> BitSet(words, 64 * wordIdx + j) {
      Locate(wordIdx, j);
    }
  }

  lemma OrFits(w: uint64, off: nat)
    requires off < 64
    ensures Or(w, Shl(1, off)) < 0x1_0000_0000_0000_0000
  {
    Pow2_64();
    OrBound(w, Shl(1, off), 64);
  }

  /** Setting a bit adds one member. */
  lemma SetMembers(words: seq<uint64>, bit: nat)
    requires bit / 64 < |words|
    ensures Or(words[bit / 64], Shl(1, bit % 64)) < 0x1_0000_0000_0000_0000
    ensures BitMembers(words[bit / 64 := Or(words[bit / 64], Shl(1, bit % 64))]) == BitMembers(words) + {bit}
  {
    var w, off := words[bit / 64], bit % 64;
    OrFits(w, off);
    var words' := words[bit / 64 := Or(w, Shl(1, off))];
    forall b: nat ensures BitSet(words', b) <==> BitSet(words, b) || b == bit {
      hide Or, Shl, Bit;
      OrBit(w, Shl(1, off), b % 64);
      OneBit(off, b % 64);
    }
    hide BitSet;
  }

  /** Clearing a bit removes one member. */
  lemma ClearMembers(words: seq<uint64>, bit: nat)
    requires bit / 64 < |words|
    ensures And(words[bit / 64], Not(Shl(1, bit % 64))) < 0x1_0000_0000_0000_0000
    ensures BitMembers(words[bit / 64 := And(words[bit / 64], Not(Shl(1, bit % 64)))]) == BitMembers(words) - {bit}
  {
    var w, off := words[bit / 64], bit % 64;
    AndBound(w, Not(Shl(1, off)));
    var words' := words[bit / 64 := And(w, Not(Shl(1, off)))];
    forall b: nat ensures BitSet(words', b) <==> BitSet(words, b) && b != bit {
      hide And, Not, Shl, Bit;
      AndBit(w, Not(Shl(1, off)), b % 64);
      NotBit(Shl(1, off), b % 64);
      OneBit(off, b % 64);
    }
    hide BitSet;
  }

  lemma HighestInWord(words: seq<uint64>, wordIdx: nat, w: uint64, start: nat)
    requires w != 0 && wordIdx < |words|
    requires forall j: nat :: j < 64 ==> (Bit(w, j) <==> BitSet(words, 64 * wordIdx + j) && 64 * wordIdx + j <= start)
    requires forall b: nat :: b >= 64 * (wordIdx + 1) && BitSet(words, b) ==> b > start
    ensures var r := wordIdx * 64 + (63 - CountlZero(w));
      0 <= r <= start && r in BitMembers(words) && forall m <- BitMembers(words) :: m <= start ==> m <= r
  {
    hide BitSet, Bit;
    HighestBit(w);
    var r := wordIdx * 64 + (63 - CountlZero(w));
    assert BitSet(words, r);
    forall m <- BitMembers(words) | m <= start ensures m <= r {
      if m >= 64 * wordIdx {
        assert BitSet(words, m);
        var j := m - 64 * wordIdx;
        assert BitSet(words, 64 * wordIdx + j);
        assert Bit(w, j);
      }
    }
  }

  lemma LowestInWord(words: seq<uint64>, wordIdx: nat, w: uint64, from: nat)
    requires w != 0 && wordIdx < |words|
    requires forall j: nat :: j < 64 ==> (Bit(w, j) <==> BitSet(words, 64 * wordIdx + j) && 64 * wordIdx + j >= from)
    requires forall b: nat :: b < 64 * wordIdx && BitSet(words, b) ==> b < from
    ensures var r := wordIdx * 64 + CountrZero(w);
      from <= r && r in BitMembers(words) && forall m <- BitMembers(words) :: m >= from ==> m >= r
  {
    LowestBit(w);
    var c := LowestBelow64(w);
    var r := wordIdx * 64 + c;
    assert BitSet(words, r);
    forall m <- BitMembers(words) | m >= from ensures m >= r {
      assert BitSet(words, m);
      if m < 64 * (wordIdx + 1) {
        var j := m - 64 * wordIdx;
        assert BitSet(words, 64 * wordIdx + j);
        assert Bit(w, j);
      }
    }
  }

  lemma LowestBelow64(w: uint64) returns (c: nat)
    requires w != 0
    ensures c == CountrZero(w) < 64
  {
    c := CountrZero(w);
    LowestBit(w);
    HighestBit(w);
    assert 0 <= CountlZero(w);
  }
}

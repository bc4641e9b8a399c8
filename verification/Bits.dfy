/** Unsigned machine words as natural numbers, with the bit operations the engine uses. */
module Bits {
  import opened Api

  function Pow2(k: nat): (r: nat)
    ensures r >= 1
  {
    if k == 0 then 1 else 2 * Pow2(k - 1)
  }

  /** Bit k of x, counting from the least significant. */
  predicate Bit(x: nat, k: nat) {
    if k == 0 then x % 2 == 1 else Bit(x / 2, k - 1)
  }

  /** The `&` of two words. */
  function And(x: nat, y: nat): nat {
    if x == 0 || y == 0 then 0
    else 2 * And(x / 2, y / 2) + (if x % 2 == 1 && y % 2 == 1 then 1 else 0)
  }

  /** The `|` of two words. */
  function Or(x: nat, y: nat): nat
    decreases x + y
  {
    if x == 0 then y else if y == 0 then x
    else 2 * Or(x / 2, y / 2) + (if x % 2 == 1 || y % 2 == 1 then 1 else 0)
  }

  /** The `~` of a 64-bit word. */
  function Not(x: uint64): uint64 {
    0xFFFF_FFFF_FFFF_FFFF - x
  }

  /** The `<<` of a 64-bit word: what leaves at the top is lost. */
  function Shl(x: uint64, k: nat): uint64 {
    if k == 0 then x else (2 * Shl(x, k - 1)) % 0x1_0000_0000_0000_0000
  }

  /** The `>>` of a word. */
  function Shr(x: nat, k: nat): nat {
    if k == 0 then x else Shr(x / 2, k - 1)
  }

  /** Number of digits of x in base 2. */
  function BitWidth(x: nat): nat {
    if x == 0 then 0 else 1 + BitWidth(x / 2)
  }

  /** std::countl_zero on a 64-bit word. */
  function CountlZero(x: uint64): (r: nat)
    ensures r == 64 - BitWidth(x)
  {
    Pow2_64();
    WidthBound(x, 64);
    64 - BitWidth(x)
  }

  /** std::countr_zero on a 64-bit word; 64 at zero. */
  function CountrZero(x: nat): nat {
    if x == 0 then 64 else if x % 2 == 1 then 0 else 1 + CountrZero(x / 2)
  }

  lemma Pow2Plus8(k: nat)
    ensures Pow2(k + 8) == 256 * Pow2(k)
  {
    assert Pow2(k + 4) == 16 * Pow2(k) by {
      assert Pow2(k + 2) == 4 * Pow2(k) && Pow2(k + 4) == 4 * Pow2(k + 2);
    }
    assert Pow2(k + 6) == 4 * Pow2(k + 4) && Pow2(k + 8) == 4 * Pow2(k + 6);
  }

  lemma Pow2Of64(k: nat)
    requires k == 64
    ensures Pow2(k) == 0x1_0000_0000_0000_0000
  {
    Pow2Plus8(0); Pow2Plus8(8); Pow2Plus8(16); Pow2Plus8(24);
    Pow2Plus8(32); Pow2Plus8(40); Pow2Plus8(48); Pow2Plus8(56);
  }

  lemma Pow2Of63(k: nat)
    requires k == 63
    ensures Pow2(k) == 0x8000_0000_0000_0000
  {
    Pow2Of64(k + 1);
  }

  lemma Pow2_64()
    ensures Pow2(64) == 0x1_0000_0000_0000_0000
    ensures Pow2(63) == 0x8000_0000_0000_0000
    ensures Pow2(6) == 64
  {
    Pow2Of64(64);
    Pow2Of63(63);
  }

  lemma {:induction false} Pow2Mono(a: nat, b: nat)
    requires a <= b
    ensures Pow2(a) <= Pow2(b)
  {
    if a < b { Pow2Mono(a, b - 1); }
  }

  lemma {:induction false} WidthBound(x: nat, n: nat)
    requires x < Pow2(n)
    ensures BitWidth(x) <= n
  {
    if x != 0 && n != 0 { WidthBound(x / 2, n - 1); }
  }

  /** `&` and `|` act on each bit separately. */
  lemma {:induction false} AndBit(x: nat, y: nat, k: nat)
    ensures Bit(And(x, y), k) <==> Bit(x, k) && Bit(y, k)
    decreases k, x + y
  {
    if x == 0 || y == 0 {
      ZeroBit(k);
    } else {
      var a := And(x / 2, y / 2);
      var c := if x % 2 == 1 && y % 2 == 1 then 1 else 0;
      assert (2 * a + c) / 2 == a && (2 * a + c) % 2 == c;
      if k != 0 { AndBit(x / 2, y / 2, k - 1); }
    }
  }

  lemma {:induction false} OrBit(x: nat, y: nat, k: nat)
    ensures Bit(Or(x, y), k) <==> Bit(x, k) || Bit(y, k)
    decreases k, x + y
  {
    if x == 0 || y == 0 {
      ZeroBit(k);
    } else {
      var a := Or(x / 2, y / 2);
      var c := if x % 2 == 1 || y % 2 == 1 then 1 else 0;
      assert (2 * a + c) / 2 == a && (2 * a + c) % 2 == c;
      if k != 0 { OrBit(x / 2, y / 2, k - 1); }
    }
  }

  lemma {:induction false} ZeroBit(k: nat)
    ensures !Bit(0, k)
  {
    if k != 0 { ZeroBit(k - 1); }
  }

  /** Complementing within n bits flips each of them. */
  lemma {:induction false} ComplementBit(x: nat, n: nat, k: nat)
    requires x < Pow2(n) && k < n
    ensures Bit(Pow2(n) - 1 - x, k) <==> !Bit(x, k)
  {
    var m := Pow2(n - 1);
    assert Pow2(n) == 2 * m;
    assert (2 * m - 1 - x) / 2 == m - 1 - x / 2;
    if k != 0 { ComplementBit(x / 2, n - 1, k - 1); }
  }

  lemma NotBit(x: uint64, k: nat)
    requires k < 64
    ensures Bit(Not(x), k) <==> !Bit(x, k)
  {
    Pow2_64();
    ComplementBit(x, 64, k);
  }

  /** Reducing modulo 2^n keeps the low n bits. */
  lemma {:induction false} ModBit(y: nat, n: nat, k: nat)
    requires k < n
    ensures Bit(y % Pow2(n), k) <==> Bit(y, k)
  {
    var m := Pow2(n - 1);
    HalfMod(y, m);
    if k != 0 { ModBit(y / 2, n - 1, k - 1); }
  }

  lemma HalfMod(y: nat, m: nat)
    requires m > 0
    ensures (y % (2 * m)) / 2 == (y / 2) % m
    ensures (y % (2 * m)) % 2 == y % 2
  {
    var q, r := y / (2 * m), y % (2 * m);
    assert y == 2 * (m * q) + r;
    assert y / 2 == m * q + r / 2;
    assert r / 2 < m;
    DivModUnique(y / 2, m, q, r / 2);
  }

  lemma DivModUnique(x: int, d: int, q: int, r: int)
    requires d > 0 && 0 <= r < d && x == d * q + r
    ensures x / d == q && x % d == r
  {
    var q', r' := x / d, x % d;
    assert x == d * q' + r';
    assert d * (q - q') == r' - r;
    SmallMultiple(d, q - q');
  }

  lemma SmallMultiple(d: int, k: int)
    requires d > 0 && -d < d * k < d
    ensures k == 0
  {
    if k > 0 { MulAtLeast(d, k); }
    if k < 0 { MulAtLeast(d, -k); }
  }

  lemma {:induction false} MulAtLeast(d: int, k: int)
    requires d > 0 && k >= 1
    ensures d * k >= d
  {
    if k > 1 {
      MulAtLeast(d, k - 1);
      assert d * k == d * (k - 1) + d;
    }
  }

  lemma {:induction false} ShlBit(x: uint64, k: nat, j: nat)
    requires j < 64
    ensures Bit(Shl(x, k), j) <==> j >= k && Bit(x, j - k)
  {
    if k != 0 {
      var y: nat := Shl(x, k - 1);
      Pow2_64();
      ModBit(2 * y, 64, j);
      if j > 0 { ShlBit(x, k - 1, j - 1); }
    }
  }

  /** The word with the single bit k set. */
  lemma OneBit(k: nat, j: nat)
    requires k < 64 && j < 64
    ensures Bit(Shl(1, k), j) <==> j == k
  {
    ShlBit(1, k, j);
    if j > k { ZeroBit(j - k - 1); }
  }

  lemma Pow2Below(k: nat)
    requires k < 64
    ensures Pow2(k) < 0x1_0000_0000_0000_0000
  {
    Pow2_64();
    Pow2Mono(k, 63);
  }

  lemma {:induction false} ShlOne(k: nat)
    requires k < 64
    ensures Shl(1, k) == Pow2(k)
  {
    Pow2Below(k);
    if k != 0 { ShlOne(k - 1); }
  }

  /** `(1 << (b + 1)) - 1` keeps exactly the bits up to b. */
  lemma LowMaskBit(b: nat, j: nat)
    requires b < 63 && j < 64
    ensures Shl(1, b + 1) >= 1
    ensures Bit(Shl(1, b + 1) - 1, j) <==> j <= b
  {
    ShlOne(b + 1);
    if j <= b {
      ZeroBit(j);
      ComplementBit(0, b + 1, j);
    } else {
      WidthBound(Pow2(b + 1) - 1, b + 1);
      HighBits(Pow2(b + 1) - 1, j);
    }
  }

  /** `~0 << b` keeps exactly the bits from b on. */
  lemma HighMaskBit(b: nat, j: nat)
    requires b < 64 && j < 64
    ensures Bit(Shl(0xFFFF_FFFF_FFFF_FFFF, b), j) <==> j >= b
  {
    ShlBit(0xFFFF_FFFF_FFFF_FFFF, b, j);
    if j >= b {
      ZeroBit(j - b);
      NotBit(0, j - b);
    }
  }

  /** No bit is set from BitWidth on. */
  lemma {:induction false} HighBits(x: nat, j: nat)
    requires BitWidth(x) <= j
    ensures !Bit(x, j)
  {
    if x == 0 { ZeroBit(j); } else { HighBits(x / 2, j - 1); }
  }

  /** 63 - countl_zero names the highest set bit of a non-zero word. */
  lemma {:induction false} HighestBit(x: nat)
    requires x > 0
    ensures BitWidth(x) >= 1 && Bit(x, BitWidth(x) - 1)
    ensures forall j: nat :: j >= BitWidth(x) ==> !Bit(x, j)
  {
    if x >= 2 { HighestBit(x / 2); }
    forall j: nat | j >= BitWidth(x) ensures !Bit(x, j) { HighBits(x, j); }
  }

  /** countr_zero names the lowest set bit of a non-zero word. */
  lemma {:induction false} LowestBit(x: nat)
    requires x > 0
    ensures Bit(x, CountrZero(x))
    ensures forall j: nat :: j < CountrZero(x) ==> !Bit(x, j)
  {
    if x % 2 == 0 {
      LowestBit(x / 2);
      forall j: nat | j < CountrZero(x) ensures !Bit(x, j) {
        if j > 0 { assert !Bit(x / 2, j - 1); }
      }
    }
  }

  lemma AndStep(x: nat, m: nat, n: nat)
    requires x > 0 && m > 0 && n == 2 * m
    ensures And(x, n - 1) == 2 * And(x / 2, m - 1) + x % 2
  {
    assert (n - 1) / 2 == m - 1 && (n - 1) % 2 == 1;
  }

  lemma ModStep(x: nat, m: nat, n: nat)
    requires m > 0 && n == 2 * m
    ensures x % n == 2 * ((x / 2) % m) + x % 2
  {
    HalfMod(x, m);
    var r := x % n;
    assert r == 2 * (r / 2) + r % 2;
  }

  /** The low k bits of x. */
  ghost function Low(x: nat, k: nat): nat {
    if k == 0 then 0 else 2 * Low(x / 2, k - 1) + x % 2
  }

  lemma {:induction false} AndIsLow(x: nat, k: nat)
    ensures And(x, Pow2(k) - 1) == Low(x, k)
    decreases k
  {
    if k != 0 {
      AndIsLow(x / 2, k - 1);
      if x != 0 { AndStep(x, Pow2(k - 1), Pow2(k)); }
    }
  }

  lemma {:induction false} LowIsMod(x: nat, k: nat)
    ensures Low(x, k) == x % Pow2(k)
  {
    if k != 0 {
      LowIsMod(x / 2, k - 1);
      ModStep(x, Pow2(k - 1), Pow2(k));
    }
  }

  /** Masking with 2^k - 1 is the remainder modulo 2^k. */
  lemma AndLowMask(x: nat, k: nat)
    ensures And(x, Pow2(k) - 1) == x % Pow2(k)
  {
    AndIsLow(x, k);
    LowIsMod(x, k);
  }

  lemma {:induction false} AndBound(x: nat, y: nat)
    ensures And(x, y) <= x && And(x, y) <= y
  {
    if x != 0 && y != 0 { AndBound(x / 2, y / 2); }
  }

  /** A bitwise or stays below any power of two that bounds its operands. */
  lemma {:induction false} OrBound(x: nat, y: nat, n: nat)
    requires x < Pow2(n) && y < Pow2(n)
    ensures Or(x, y) < Pow2(n)
    decreases n
  {
    if x != 0 && y != 0 { OrBound(x / 2, y / 2, n - 1); }
  }

  lemma {:induction false} ShrBit(x: nat, k: nat)
    ensures And(Shr(x, k), 1) == 1 <==> Bit(x, k)
  {
    if k == 0 { AndLowMask(x, 1); assert Pow2(1) == 2; } else { ShrBit(x / 2, k - 1); }
  }
}

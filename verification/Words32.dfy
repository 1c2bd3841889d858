/** Unsigned 32-bit words with Go's wrap-around, bitwise operators written out, and which operations lose nothing. */
module Words32 {

  const TWO_32: int := 0x1_0000_0000
  type Word = x: int | 0 <= x < TWO_32
  type Byte = x: int | 0 <= x < 256

  function Mul(x: Word, c: Word): Word { (x * c) % TWO_32 }

  function Add(x: Word, c: Word): Word { (x + c) % TWO_32 }

  /** `bits.RotateLeft32(x, 15)` and `bits.RotateLeft32(x, 13)` */
  function RotateLeft15(x: Word): Word { (x % 0x20000) * 0x8000 + x / 0x20000 }

  function RotateLeft13(x: Word): Word { (x % 0x80000) * 0x2000 + x / 0x80000 }

  /** `x >> k` */
  function Shr(x: nat, k: nat): (r: nat)
    ensures r <= x
    decreases k
  {
    if k == 0 then x else Shr(x / 2, k - 1)
  }

  /** Bitwise exclusive or, from the lowest bit up. */
  function XorNat(x: nat, y: nat): nat
    decreases x + y
  {
    if x == 0 && y == 0 then 0 else 2 * XorNat(x / 2, y / 2) + (x + y) % 2
  }

  /** Bitwise or. */
  function OrNat(x: nat, y: nat): nat
    decreases x + y
  {
    if x == 0 && y == 0 then 0 else 2 * OrNat(x / 2, y / 2) + (if x % 2 == 1 || y % 2 == 1 then 1 else 0)
  }

  function Pow2(k: nat): (r: nat)
    ensures r > 0
  {
    if k == 0 then 1 else 2 * Pow2(k - 1)
  }

  lemma {:induction false} XorBound(x: nat, y: nat, k: nat)
    requires x < Pow2(k) && y < Pow2(k)
    ensures XorNat(x, y) < Pow2(k)
  {
    if k > 0 {
      XorBound(x / 2, y / 2, k - 1);
    }
  }

  lemma {:induction false} OrBound(x: nat, y: nat, k: nat)
    requires x < Pow2(k) && y < Pow2(k)
    ensures OrNat(x, y) < Pow2(k)
  {
    if k > 0 {
      OrBound(x / 2, y / 2, k - 1);
    }
  }

  lemma Pow2Of32()
    ensures Pow2(32) == TWO_32 && Pow2(8) == 256
  {
    assert Pow2(8) == 256;
    assert Pow2(16) == 0x1_0000;
    assert Pow2(24) == 0x100_0000;
  }

  function Xor(x: Word, y: Word): Word {
    Pow2Of32();
    XorBound(x, y, 32);
    XorNat(x, y)
  }

  function Or(x: Word, y: Word): Word {
    Pow2Of32();
    OrBound(x, y, 32);
    OrNat(x, y)
  }

  // ---------------------------------------------------------------- nothing is lost

  lemma {:induction false} XorCancels(x: nat, y: nat, z: nat)
    ensures XorNat(x, y) == XorNat(x, z) <==> y == z
    ensures XorNat(y, x) == XorNat(x, y)
    decreases x + y + z
  {
    if x + y + z > 0 {
      XorCancels(x / 2, y / 2, z / 2);
    }
  }

  lemma {:induction false} XorShifts(x: nat, y: nat, k: nat)
    ensures Shr(XorNat(x, y), k) == XorNat(Shr(x, k), Shr(y, k))
    decreases k
  {
    if k > 0 {
      XorShifts(x / 2, y / 2, k - 1);
    }
  }

  lemma {:induction false} ShiftsAdd(x: nat, k: nat, l: nat)
    ensures Shr(Shr(x, k), l) == Shr(x, k + l)
    decreases k
  {
    if k > 0 {
      ShiftsAdd(x / 2, k - 1, l);
    }
  }

  lemma {:induction false} ShiftedOut(x: nat, k: nat, l: nat)
    requires x < Pow2(k) && k <= l
    ensures Shr(x, l) == 0
    decreases l
  {
    if l > 0 {
      ShiftedOut(x / 2, if k == 0 then 0 else k - 1, l - 1);
    }
  }

  function XorShift(x: Word, k: nat): Word {
    Xor(x, Shr(x, k))
  }

  /** `x ^= x >> k` loses nothing: the bits from position `l` up can be read off, then those from `l - k`, and so on. */
  lemma {:induction false} XorShiftInjectiveFrom(x: Word, y: Word, k: nat, l: nat)
    requires k > 0 && XorShift(x, k) == XorShift(y, k)
    ensures Shr(x, l) == Shr(y, l)
    decreases 32 - l
  {
    if l < 32 {
      XorShiftInjectiveFrom(x, y, k, l + k);
      XorShifts(x, Shr(x, k), l);
      XorShifts(y, Shr(y, k), l);
      ShiftsAdd(x, k, l);
      ShiftsAdd(y, k, l);
      XorCancels(Shr(x, l + k), Shr(x, l), Shr(y, l));
      XorCancels(Shr(x, l), Shr(x, l + k), 0);
      XorCancels(Shr(y, l), Shr(x, l + k), 0);
    } else {
      Pow2Of32();
      ShiftedOut(x, 32, l);
      ShiftedOut(y, 32, l);
    }
  }

  lemma XorShiftInjective(x: Word, y: Word, k: nat)
    requires k > 0 && XorShift(x, k) == XorShift(y, k)
    ensures x == y
  {
    XorShiftInjectiveFrom(x, y, k, 0);
  }

  lemma QuotientIs(x: int, d: int, q: int, r: int)
    requires x == d * q + r && 0 <= r < d
    ensures x / d == q && x % d == r
  {
    var e := x / d - q;
    assert d * e == r - x % d;
    SmallMultiple(d, e);
  }

  lemma SmallMultiple(d: int, e: int)
    requires -d < d * e < d
    ensures e == 0
  {
  }

  /** Multiplying by a constant that has an inverse modulo 2^32 is injective. */
  lemma MulInjective(x: Word, y: Word, c: Word, inverse: Word)
    requires (c * inverse) % TWO_32 == 1 && Mul(x, c) == Mul(y, c)
    ensures x == y
  {
    MulInverts(x, c, inverse);
    MulInverts(y, c, inverse);
  }

  lemma MulInverts(x: Word, c: Word, inverse: Word)
    requires (c * inverse) % TWO_32 == 1
    ensures (Mul(x, c) * inverse) % TWO_32 == x
  {
    var m, q := (c * inverse) / TWO_32, (x * c) / TWO_32;
    assert Mul(x, c) == x * c - TWO_32 * q;
    assert Mul(x, c) * inverse == TWO_32 * (x * m - q * inverse) + x by {
      assert Mul(x, c) * inverse == x * c * inverse - TWO_32 * q * inverse;
      assert x * c * inverse == x * (c * inverse);
      assert c * inverse == TWO_32 * m + 1;
      assert x * (TWO_32 * m + 1) == TWO_32 * (x * m) + x;
    }
    QuotientIs(Mul(x, c) * inverse, TWO_32, x * m - q * inverse, x);
  }

  lemma Rotate15Injective(x: Word, y: Word)
    requires RotateLeft15(x) == RotateLeft15(y)
    ensures x == y
  {
    QuotientIs(RotateLeft15(x), 0x8000, x % 0x20000, x / 0x20000);
    QuotientIs(RotateLeft15(y), 0x8000, y % 0x20000, y / 0x20000);
  }

  lemma Rotate13Injective(x: Word, y: Word)
    requires RotateLeft13(x) == RotateLeft13(y)
    ensures x == y
  {
    QuotientIs(RotateLeft13(x), 0x2000, x % 0x80000, x / 0x80000);
    QuotientIs(RotateLeft13(y), 0x2000, y % 0x80000, y / 0x80000);
  }

  lemma AddInjective(x: Word, y: Word, c: Word)
    requires Add(x, c) == Add(y, c)
    ensures x == y
  {
  }

  // ---------------------------------------------------------------- disjoint lanes

  lemma {:induction false} OrFacts(x: nat, y: nat)
    ensures OrNat(x, y) == OrNat(y, x) && OrNat(0, x) == x
    decreases x + y
  {
    if x + y > 0 {
      OrFacts(x / 2, y / 2);
    }
    if x > 0 && y == 0 {
      OrFacts(x / 2, 0);
    } else if x > 0 {
      OrFacts(x / 2, 0);
    }
  }

  lemma OrEvenStep(x: nat, z: nat)
    ensures OrNat(x, 2 * z) == 2 * OrNat(x / 2, z) + x % 2
  {
  }

  /** Or-ing bits into positions that are still clear is addition. */
  lemma {:induction false} OrIsSum(x: nat, y: nat, k: nat)
    requires x < Pow2(k)
    ensures OrNat(x, y * Pow2(k)) == x + y * Pow2(k)
    decreases k
  {
    if k == 0 {
      OrFacts(y, 0);
    } else {
      var z := y * Pow2(k - 1);
      assert Pow2(k) == 2 * Pow2(k - 1) && y * Pow2(k) == 2 * z;
      hide Pow2, OrNat;
      OrIsSum(x / 2, y, k - 1);
      OrEvenStep(x, z);
    }
  }
}

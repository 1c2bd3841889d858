/**
 The values of the 32-bit MurmurHash3 that internal/murmur3_test.go lists, computed from the model: together they
 fix every constant, rotation, shift and lane. A word is taken apart into bytes for the exclusive ors.
 */
module Murmur3Values {
  import opened Words32
  import opened Murmur3

  // ---------------------------------------------------------------- exclusive or, byte by byte

  function ValueOf(b: bv8): Byte { b as int }

  lemma LowBit(b: bv8)
    ensures ValueOf(b) == 2 * ValueOf(b >> 1) + (if b & 1 == 0 then 0 else 1)
  {
  }

  lemma XorOfBits(x: bv8, y: bv8)
    ensures (x ^ y) >> 1 == (x >> 1) ^ (y >> 1)
    ensures (x ^ y) & 1 == 0 <==> (x & 1 == 0 <==> y & 1 == 0)
  {
  }

  lemma XorOfZeros(x: bv8, y: bv8)
    requires ValueOf(x) == 0 && ValueOf(y) == 0
    ensures ValueOf(x ^ y) == 0
  {
    assert x == 0 && y == 0;
  }

  lemma XorUnfolds(x: nat, y: nat)
    ensures XorNat(x, y) == 2 * XorNat(x / 2, y / 2) + (x + y) % 2
  {
  }

  lemma XorDigit(s: nat, t: nat, x: nat, y: nat)
    requires x < 2 && y < 2
    ensures XorNat(2 * s + x, 2 * t + y) == 2 * XorNat(s, t) + (if x == y then 0 else 1)
  {
    var a, b := 2 * s + x, 2 * t + y;
    XorUnfolds(a, b);
    Halves(s, x);
    Halves(t, y);
    Halves(s + t, if x == y then 0 else 1);
    hide XorNat;
    assert a + b == 2 * (s + t) + (x + y) && (a + b) % 2 == if x == y then 0 else 1;
  }

  lemma Halves(s: nat, x: nat)
    requires x < 2
    ensures (2 * s + x) / 2 == s && (2 * s + x) % 2 == x
  {
  }

  /** `XorNat` is the exclusive or of bit-vectors. */
  lemma {:induction false} XorIsBitwise(x: bv8, y: bv8, k: nat)
    requires ValueOf(x) < Pow2(k) && ValueOf(y) < Pow2(k)
    ensures XorNat(ValueOf(x), ValueOf(y)) == ValueOf(x ^ y)
    decreases k
  {
    hide ValueOf, XorNat;
    if k == 0 {
      XorOfZeros(x, y);
      XorUnfolds(0, 0);
    } else {
      LowBit(x);
      LowBit(y);
      LowBit(x ^ y);
      assert ValueOf(x >> 1) < Pow2(k - 1) && ValueOf(y >> 1) < Pow2(k - 1);
      hide *;
      XorIsBitwise(x >> 1, y >> 1, k - 1);
      XorOfBits(x, y);
      XorDigit(ValueOf(x >> 1), ValueOf(y >> 1), if x & 1 == 0 then 0 else 1, if y & 1 == 0 then 0 else 1);
    }
  }

  lemma XorOfBytes(x: bv8, y: bv8)
    ensures XorNat(ValueOf(x), ValueOf(y)) == ValueOf(x ^ y)
  {
    var k := 8;
    assert Pow2(k) == 0x100;
    hide XorNat;
    XorIsBitwise(x, y, k);
  }

  /** `x << k`, without a limit */
  function Shl(x: nat, k: nat): nat {
    if k == 0 then x else 2 * Shl(x, k - 1)
  }

  lemma {:induction false} XorSplits(a: nat, x: nat, b: nat, y: nat, k: nat)
    requires x < Pow2(k) && y < Pow2(k)
    ensures XorNat(Shl(a, k) + x, Shl(b, k) + y) == Shl(XorNat(a, b), k) + XorNat(x, y)
  {
    if k > 0 {
      XorSplits(a, x / 2, b, y / 2, k - 1);
      hide Pow2, XorNat;
      XorSplitsStep(Shl(a, k - 1), Shl(b, k - 1), x, y);
    }
  }

  lemma XorSplitsStep(s: nat, t: nat, x: nat, y: nat)
    ensures XorNat(2 * s + x, 2 * t + y) - XorNat(x, y) == 2 * (XorNat(s + x / 2, t + y / 2) - XorNat(x / 2, y / 2))
  {
    hide XorNat;
    XorDigit(s + x / 2, t + y / 2, x % 2, y % 2);
    XorDigit(x / 2, y / 2, x % 2, y % 2);
    assert 2 * (s + x / 2) + x % 2 == 2 * s + x && 2 * (t + y / 2) + y % 2 == 2 * t + y;
  }

  lemma Shl8(x: nat)
    ensures Shl(x, 8) == 0x100 * x
  {
    assert Shl(x, 1) == 2 * x;
    assert Shl(x, 2) == 4 * x;
    assert Shl(x, 4) == 16 * x;
    assert Shl(x, 6) == 64 * x;
  }

  lemma XorOneMoreByte(x: nat, y: nat, a: Byte, b: Byte)
    ensures XorNat(0x100 * x + a, 0x100 * y + b) == 0x100 * XorNat(x, y) + XorNat(a, b)
  {
    hide XorNat;
    Shl8(x);
    Shl8(y);
    Shl8(XorNat(x, y));
    Pow2Of32();
    hide Shl, Pow2;
    var k := 8;
    XorSplits(x, a, y, b, k);
  }

  lemma XorOfFour(a: Byte, b: Byte, c: Byte, d: Byte, e: Byte, f: Byte, g: Byte, h: Byte)
    ensures XorNat(0x100_0000 * a + 0x1_0000 * b + 0x100 * c + d, 0x100_0000 * e + 0x1_0000 * f + 0x100 * g + h)
            == 0x100_0000 * XorNat(a, e) + 0x1_0000 * XorNat(b, f) + 0x100 * XorNat(c, g) + XorNat(d, h)
  {
    hide XorNat;
    XorOneMoreByte(a, e, b, f);
    var i, j := 0x100 * a + b, 0x100 * e + f;
    XorOneMoreByte(i, j, c, g);
    XorOneMoreByte(0x100 * i + c, 0x100 * j + g, d, h);
  }

  /** The exclusive or of two words, given by their bytes, the highest first. */
  lemma XorBytes(a: bv8, b: bv8, c: bv8, d: bv8, e: bv8, f: bv8, g: bv8, h: bv8)
    ensures XorNat(0x100_0000 * (a as int) + 0x1_0000 * (b as int) + 0x100 * (c as int) + d as int,
                   0x100_0000 * (e as int) + 0x1_0000 * (f as int) + 0x100 * (g as int) + h as int)
            == 0x100_0000 * ((a ^ e) as int) + 0x1_0000 * ((b ^ f) as int) + 0x100 * ((c ^ g) as int) + (d ^ h) as int
  {
    XorOfValues(a, b, c, d, e, f, g, h);
  }

  lemma XorOfValues(a: bv8, b: bv8, c: bv8, d: bv8, e: bv8, f: bv8, g: bv8, h: bv8)
    ensures XorNat(0x100_0000 * ValueOf(a) + 0x1_0000 * ValueOf(b) + 0x100 * ValueOf(c) + ValueOf(d),
                   0x100_0000 * ValueOf(e) + 0x1_0000 * ValueOf(f) + 0x100 * ValueOf(g) + ValueOf(h))
            == 0x100_0000 * ValueOf(a ^ e) + 0x1_0000 * ValueOf(b ^ f) + 0x100 * ValueOf(c ^ g) + ValueOf(d ^ h)
  {
    hide XorNat, ValueOf;
    XorOfBytes(a, e);
    XorOfBytes(b, f);
    XorOfBytes(c, g);
    XorOfBytes(d, h);
    XorOfFour(ValueOf(a), ValueOf(b), ValueOf(c), ValueOf(d), ValueOf(e), ValueOf(f), ValueOf(g), ValueOf(h));
  }

  // ---------------------------------------------------------------- the parts of a hash

  /** Shifting right by k divides by 2^k. */
  lemma {:induction false} ShrDivides(x: nat, q: nat, r: nat, k: nat)
    requires x == Shl(q, k) + r && r < Pow2(k)
    ensures Shr(x, k) == q
    decreases k
  {
    if k > 0 {
      assert x / 2 == Shl(q, k - 1) + r / 2;
      ShrDivides(x / 2, q, r / 2, k - 1);
    }
  }

  lemma ShlOf(q: nat)
    ensures Shl(q, 13) == 0x2000 * q && Shl(q, 16) == 0x1_0000 * q && Pow2(13) == 0x2000 && Pow2(16) == 0x1_0000
  {
    Shl8(q);
    Pow2Of32();
    assert Shl(q, 10) == 0x400 * q && Pow2(10) == 0x400;
    assert Shl(q, 12) == 0x1000 * q && Pow2(12) == 0x1000;
    assert Shl(q, 14) == 0x4000 * q;
    assert Pow2(12) == 0x1000;
    assert Pow2(14) == 0x4000;
  }

  lemma Shr13And16(x: nat)
    ensures Shr(x, 13) == x / 0x2000 && Shr(x, 16) == x / 0x1_0000
  {
    ShlOf(x / 0x2000);
    ShlOf(x / 0x1_0000);
    hide Shl, Pow2, Shr;
    var k, l := 13, 16;
    ShrDivides(x, x / 0x2000, x % 0x2000, k);
    ShrDivides(x, x / 0x1_0000, x % 0x1_0000, l);
  }

  /** The finalizer, step by step. */
  lemma FinalizeAt(h: Word, a: Word, b: Word, c: Word, d: Word, r: Word)
    requires XorNat(h, h / 0x1_0000) == a && a * 0x85EBCA6B % 0x1_0000_0000 == b
    requires XorNat(b, b / 0x2000) == c && c * 0xC2B2AE35 % 0x1_0000_0000 == d && XorNat(d, d / 0x1_0000) == r
    ensures Finalize(h) == r
  {
    hide XorNat, Shr;
    Shr13And16(h);
    Shr13And16(b);
    Shr13And16(d);
  }

  /** `round` and what it does to `k1` first, step by step. */
  lemma RoundAt(h: Word, s: Word, k: Word, x: Word, y: Word, r: Word)
    requires Scramble(k) == s && XorNat(h, s) == x && (x % 0x8_0000) * 0x2000 + x / 0x8_0000 == y
    requires (y * 5 + 0xE6546B64) % 0x1_0000_0000 == r
    ensures Round(h, k) == r
  {
    hide XorNat, Scramble;
    var z := y * 5;
    assert ((z % 0x1_0000_0000) + 0xE6546B64) % 0x1_0000_0000 == (z + 0xE6546B64) % 0x1_0000_0000;
  }

  lemma ScrambleAt(k: Word, a: Word, b: Word, s: Word)
    requires k * 0xCC9E2D51 % 0x1_0000_0000 == a && (a % 0x2_0000) * 0x8000 + a / 0x2_0000 == b
    requires b * 0x1B873593 % 0x1_0000_0000 == s
    ensures Scramble(k) == s
  {
  }

  /** Bytes are packed with the first one lowest. */
  lemma PackOf(a: Byte, b: Byte, c: Byte, d: Byte)
    ensures Pack([]) == 0 && Pack([a]) == a && Pack([a, b]) == 0x100 * b + a
    ensures Pack([a, b, c]) == 0x1_0000 * c + 0x100 * b + a && Pack([a, b, c, d]) == 0x100_0000 * d + 0x1_0000 * c + 0x100 * b + a
  {
    assert [a][..0] == [] && [a, b][..1] == [a] && [a, b, c][..2] == [a, b] && [a, b, c, d][..3] == [a, b, c];
    PackIsSum([a]);
    PackIsSum([a, b]);
    PackIsSum([a, b, c]);
    PackIsSum([a, b, c, d]);
    assert Pack([]) == 0;
    hide Pack;
    Pow2Of(0);
    Pow2Of(1);
    Pow2Of(2);
    Pow2Of(3);
  }

  lemma HashParts(seed: Word, msg: seq<Byte>, blocks: seq<Byte>, tail: seq<Byte>)
    requires |blocks| % 4 == 0 && |tail| < 4 && msg == blocks + tail
    ensures HashOf(seed, msg) == Finalize(Xor(Xor(Body(seed, blocks), Scramble(Pack(tail))), |msg| % TWO_32))
  {
    hide Body, Finalize, XorNat, Pack, Scramble;
    assert msg[..|blocks|] == blocks && msg[|blocks|..] == tail;
  }

  lemma OneMoreBlock(seed: Word, blocks: seq<Byte>, a: Byte, b: Byte, c: Byte, d: Byte, m: seq<Byte>, k: Word)
    requires |blocks| % 4 == 0 && m == blocks + [a, b, c, d] && k == 0x100_0000 * d + 0x1_0000 * c + 0x100 * b + a
    ensures Body(seed, m) == Round(Body(seed, blocks), k)
  {
    hide Body, Round, Pack;
    BodyStep(seed, m, |blocks|);
    assert m[..|blocks| + 4] == m && m[..|blocks|] == blocks && m[|blocks|..|blocks| + 4] == [a, b, c, d];
    PackOf(a, b, c, d);
  }

  // ---------------------------------------------------------------- the listed values

  lemma EmptySeed0()
    ensures HashOf(0, []) == 0x00000000
  {
    hide Body, Round, Scramble, Finalize, XorNat, Pack;
    HashParts(0x00000000, [], [], []);
    BodyOfNothing(0x00000000, []);
    PackOf(0x00, 0x00, 0x00, 0x00);
    ScrambleAt(0x00000000, 0x00000000, 0x00000000, 0x00000000);
    XorBytes(0x00, 0x00, 0x00, 0x00, 0x00, 0x00, 0x00, 0x00);
    FinalizeAt(0x00000000, 0x00000000, 0x00000000, 0x00000000, 0x00000000, 0x00000000);
  }

  lemma EmptySeed1()
    ensures HashOf(1, []) == 0x514E28B7
  {
    hide Body, Round, Scramble, Finalize, XorNat, Pack;
    HashParts(0x00000001, [], [], []);
    BodyOfNothing(0x00000001, []);
    PackOf(0x00, 0x00, 0x00, 0x00);
    ScrambleAt(0x00000000, 0x00000000, 0x00000000, 0x00000000);
    XorBytes(0x00, 0x00, 0x00, 0x01, 0x00, 0x00, 0x00, 0x00);
    XorBytes(0x85, 0xEB, 0xCA, 0x6B, 0x00, 0x04, 0x2F, 0x5E);
    XorBytes(0x51, 0x4E, 0x79, 0xF9, 0x00, 0x00, 0x51, 0x4E);
    FinalizeAt(0x00000001, 0x00000001, 0x85EBCA6B, 0x85EFE535, 0x514E79F9, 0x514E28B7);
  }

  lemma EmptySeedMax()
    ensures HashOf(0xFFFFFFFF, []) == 0x81F16F39
  {
    hide Body, Round, Scramble, Finalize, XorNat, Pack;
    HashParts(0xFFFFFFFF, [], [], []);
    BodyOfNothing(0xFFFFFFFF, []);
    PackOf(0x00, 0x00, 0x00, 0x00);
    ScrambleAt(0x00000000, 0x00000000, 0x00000000, 0x00000000);
    XorBytes(0xFF, 0xFF, 0xFF, 0xFF, 0x00, 0x00, 0x00, 0x00);
    XorBytes(0xFF, 0xFF, 0xFF, 0xFF, 0x00, 0x00, 0xFF, 0xFF);
    XorBytes(0x35, 0x95, 0x00, 0x00, 0x00, 0x01, 0xAC, 0xA8);
    XorBytes(0x81, 0xF1, 0xEE, 0xC8, 0x00, 0x00, 0x81, 0xF1);
    FinalizeAt(0xFFFFFFFF, 0xFFFF0000, 0x35950000, 0x3594ACA8, 0x81F1EEC8, 0x81F16F39);
  }

  lemma OneBlockOfOnes()
    ensures HashOf(0, [0xFF, 0xFF, 0xFF, 0xFF]) == 0x76293B50
  {
    hide Body, Round, Scramble, Finalize, XorNat, Pack;
    HashParts(0x00000000, [0xFF, 0xFF, 0xFF, 0xFF], [0xFF, 0xFF, 0xFF, 0xFF], []);
    BodyOfNothing(0x00000000, []);
    OneMoreBlock(0x00000000, [], 0xFF, 0xFF, 0xFF, 0xFF, [0xFF, 0xFF, 0xFF, 0xFF], 0xFFFFFFFF);
    ScrambleAt(0xFFFFFFFF, 0x3361D2AF, 0xE95799B0, 0xBBEEB010);
    XorBytes(0x00, 0x00, 0x00, 0x00, 0xBB, 0xEE, 0xB0, 0x10);
    RoundAt(0x00000000, 0xBBEEB010, 0xFFFFFFFF, 0xBBEEB010, 0xD602177D, 0x145EE0D5);
    PackOf(0x00, 0x00, 0x00, 0x00);
    ScrambleAt(0x00000000, 0x00000000, 0x00000000, 0x00000000);
    XorBytes(0x14, 0x5E, 0xE0, 0xD5, 0x00, 0x00, 0x00, 0x00);
    XorBytes(0x14, 0x5E, 0xE0, 0xD5, 0x00, 0x00, 0x00, 0x04);
    XorBytes(0x14, 0x5E, 0xE0, 0xD1, 0x00, 0x00, 0x14, 0x5E);
    XorBytes(0x3A, 0xEE, 0x0D, 0xC5, 0x00, 0x01, 0xD7, 0x70);
    XorBytes(0x76, 0x29, 0x4D, 0x79, 0x00, 0x00, 0x76, 0x29);
    FinalizeAt(0x145EE0D1, 0x145EF48F, 0x3AEE0DC5, 0x3AEFDAB5, 0x76294D79, 0x76293B50);
  }

  lemma OneBlock()
    ensures HashOf(0, [0x21, 0x43, 0x65, 0x87]) == 0xF55B516B
  {
    hide Body, Round, Scramble, Finalize, XorNat, Pack;
    HashParts(0x00000000, [0x21, 0x43, 0x65, 0x87], [0x21, 0x43, 0x65, 0x87], []);
    BodyOfNothing(0x00000000, []);
    OneMoreBlock(0x00000000, [], 0x21, 0x43, 0x65, 0x87, [0x21, 0x43, 0x65, 0x87], 0x87654321);
    ScrambleAt(0x87654321, 0x5E350A71, 0x8538AF1A, 0x5082EDEE);
    XorBytes(0x00, 0x00, 0x00, 0x00, 0x50, 0x82, 0xED, 0xEE);
    RoundAt(0x00000000, 0x5082EDEE, 0x87654321, 0x5082EDEE, 0x5DBDCA10, 0xBB095DB4);
    PackOf(0x00, 0x00, 0x00, 0x00);
    ScrambleAt(0x00000000, 0x00000000, 0x00000000, 0x00000000);
    XorBytes(0xBB, 0x09, 0x5D, 0xB4, 0x00, 0x00, 0x00, 0x00);
    XorBytes(0xBB, 0x09, 0x5D, 0xB4, 0x00, 0x00, 0x00, 0x04);
    XorBytes(0xBB, 0x09, 0x5D, 0xB0, 0x00, 0x00, 0xBB, 0x09);
    XorBytes(0xE6, 0x04, 0x69, 0x53, 0x00, 0x07, 0x30, 0x23);
    XorBytes(0xF5, 0x5B, 0xA4, 0x30, 0x00, 0x00, 0xF5, 0x5B);
    FinalizeAt(0xBB095DB0, 0xBB09E6B9, 0xE6046953, 0xE6035970, 0xF55BA430, 0xF55B516B);
  }

  lemma OneBlockSeeded()
    ensures HashOf(0x5082EDEE, [0x21, 0x43, 0x65, 0x87]) == 0x2362F9DE
  {
    hide Body, Round, Scramble, Finalize, XorNat, Pack;
    HashParts(0x5082EDEE, [0x21, 0x43, 0x65, 0x87], [0x21, 0x43, 0x65, 0x87], []);
    BodyOfNothing(0x5082EDEE, []);
    OneMoreBlock(0x5082EDEE, [], 0x21, 0x43, 0x65, 0x87, [0x21, 0x43, 0x65, 0x87], 0x87654321);
    ScrambleAt(0x87654321, 0x5E350A71, 0x8538AF1A, 0x5082EDEE);
    XorBytes(0x50, 0x82, 0xED, 0xEE, 0x50, 0x82, 0xED, 0xEE);
    RoundAt(0x5082EDEE, 0x5082EDEE, 0x87654321, 0x00000000, 0x00000000, 0xE6546B64);
    PackOf(0x00, 0x00, 0x00, 0x00);
    ScrambleAt(0x00000000, 0x00000000, 0x00000000, 0x00000000);
    XorBytes(0xE6, 0x54, 0x6B, 0x64, 0x00, 0x00, 0x00, 0x00);
    XorBytes(0xE6, 0x54, 0x6B, 0x64, 0x00, 0x00, 0x00, 0x04);
    XorBytes(0xE6, 0x54, 0x6B, 0x60, 0x00, 0x00, 0xE6, 0x54);
    XorBytes(0x9F, 0x7E, 0x0C, 0xBC, 0x00, 0x04, 0xFB, 0xF0);
    XorBytes(0x23, 0x62, 0xDA, 0xBC, 0x00, 0x00, 0x23, 0x62);
    FinalizeAt(0xE6546B60, 0xE6548D34, 0x9F7E0CBC, 0x9F7AF74C, 0x2362DABC, 0x2362F9DE);
  }

  lemma TailOfThree()
    ensures HashOf(0, [0x21, 0x43, 0x65]) == 0x7E4A8634
  {
    hide Body, Round, Scramble, Finalize, XorNat, Pack;
    HashParts(0x00000000, [0x21, 0x43, 0x65], [], [0x21, 0x43, 0x65]);
    BodyOfNothing(0x00000000, []);
    PackOf(0x21, 0x43, 0x65, 0x00);
    ScrambleAt(0x00654321, 0xA7350A71, 0x8538D39A, 0x17A6636E);
    XorBytes(0x00, 0x00, 0x00, 0x00, 0x17, 0xA6, 0x63, 0x6E);
    XorBytes(0x17, 0xA6, 0x63, 0x6E, 0x00, 0x00, 0x00, 0x03);
    XorBytes(0x17, 0xA6, 0x63, 0x6D, 0x00, 0x00, 0x17, 0xA6);
    XorBytes(0xE8, 0x13, 0xFE, 0xD9, 0x00, 0x07, 0x40, 0x9F);
    XorBytes(0x7E, 0x4A, 0xF8, 0x7E, 0x00, 0x00, 0x7E, 0x4A);
    FinalizeAt(0x17A6636D, 0x17A674CB, 0xE813FED9, 0xE814BE46, 0x7E4AF87E, 0x7E4A8634);
  }

  lemma TailOfTwo()
    ensures HashOf(0, [0x21, 0x43]) == 0xA0F7B07A
  {
    hide Body, Round, Scramble, Finalize, XorNat, Pack;
    HashParts(0x00000000, [0x21, 0x43], [], [0x21, 0x43]);
    BodyOfNothing(0x00000000, []);
    PackOf(0x21, 0x43, 0x00, 0x00);
    ScrambleAt(0x00004321, 0xC6400A71, 0x0538E320, 0xEC900B60);
    XorBytes(0x00, 0x00, 0x00, 0x00, 0xEC, 0x90, 0x0B, 0x60);
    XorBytes(0xEC, 0x90, 0x0B, 0x60, 0x00, 0x00, 0x00, 0x02);
    XorBytes(0xEC, 0x90, 0x0B, 0x62, 0x00, 0x00, 0xEC, 0x90);
    XorBytes(0xDC, 0xBB, 0xE6, 0x26, 0x00, 0x06, 0xE5, 0xDF);
    XorBytes(0xA0, 0xF7, 0x10, 0x8D, 0x00, 0x00, 0xA0, 0xF7);
    FinalizeAt(0xEC900B62, 0xEC90E7F2, 0xDCBBE626, 0xDCBD03F9, 0xA0F7108D, 0xA0F7B07A);
  }

  lemma TailOfOne()
    ensures HashOf(0, [0x21]) == 0x72661CF4
  {
    hide Body, Round, Scramble, Finalize, XorNat, Pack;
    HashParts(0x00000000, [0x21], [], [0x21]);
    BodyOfNothing(0x00000000, []);
    PackOf(0x21, 0x00, 0x00, 0x00);
    ScrambleAt(0x00000021, 0x6063D771, 0xEBB8B031, 0xAC5E5123);
    XorBytes(0x00, 0x00, 0x00, 0x00, 0xAC, 0x5E, 0x51, 0x23);
    XorBytes(0xAC, 0x5E, 0x51, 0x23, 0x00, 0x00, 0x00, 0x01);
    XorBytes(0xAC, 0x5E, 0x51, 0x22, 0x00, 0x00, 0xAC, 0x5E);
    XorBytes(0x1C, 0x8B, 0xCA, 0xD4, 0x00, 0x00, 0xE4, 0x5E);
    XorBytes(0x72, 0x66, 0x6E, 0x92, 0x00, 0x00, 0x72, 0x66);
    FinalizeAt(0xAC5E5122, 0xAC5EFD7C, 0x1C8BCAD4, 0x1C8B2E8A, 0x72666E92, 0x72661CF4);
  }

  lemma OneZeroBlock()
    ensures HashOf(0, [0x00, 0x00, 0x00, 0x00]) == 0x2362F9DE
  {
    hide Body, Round, Scramble, Finalize, XorNat, Pack;
    HashParts(0x00000000, [0x00, 0x00, 0x00, 0x00], [0x00, 0x00, 0x00, 0x00], []);
    BodyOfNothing(0x00000000, []);
    OneMoreBlock(0x00000000, [], 0x00, 0x00, 0x00, 0x00, [0x00, 0x00, 0x00, 0x00], 0x00000000);
    ScrambleAt(0x00000000, 0x00000000, 0x00000000, 0x00000000);
    XorBytes(0x00, 0x00, 0x00, 0x00, 0x00, 0x00, 0x00, 0x00);
    RoundAt(0x00000000, 0x00000000, 0x00000000, 0x00000000, 0x00000000, 0xE6546B64);
    PackOf(0x00, 0x00, 0x00, 0x00);
    XorBytes(0xE6, 0x54, 0x6B, 0x64, 0x00, 0x00, 0x00, 0x00);
    XorBytes(0xE6, 0x54, 0x6B, 0x64, 0x00, 0x00, 0x00, 0x04);
    XorBytes(0xE6, 0x54, 0x6B, 0x60, 0x00, 0x00, 0xE6, 0x54);
    XorBytes(0x9F, 0x7E, 0x0C, 0xBC, 0x00, 0x04, 0xFB, 0xF0);
    XorBytes(0x23, 0x62, 0xDA, 0xBC, 0x00, 0x00, 0x23, 0x62);
    FinalizeAt(0xE6546B60, 0xE6548D34, 0x9F7E0CBC, 0x9F7AF74C, 0x2362DABC, 0x2362F9DE);
  }

  lemma ThreeZeros()
    ensures HashOf(0, [0x00, 0x00, 0x00]) == 0x85F0B427
  {
    hide Body, Round, Scramble, Finalize, XorNat, Pack;
    HashParts(0x00000000, [0x00, 0x00, 0x00], [], [0x00, 0x00, 0x00]);
    BodyOfNothing(0x00000000, []);
    PackOf(0x00, 0x00, 0x00, 0x00);
    ScrambleAt(0x00000000, 0x00000000, 0x00000000, 0x00000000);
    XorBytes(0x00, 0x00, 0x00, 0x00, 0x00, 0x00, 0x00, 0x00);
    XorBytes(0x00, 0x00, 0x00, 0x00, 0x00, 0x00, 0x00, 0x03);
    XorBytes(0x00, 0x00, 0x00, 0x03, 0x00, 0x00, 0x00, 0x00);
    XorBytes(0x91, 0xC3, 0x5F, 0x41, 0x00, 0x04, 0x8E, 0x1A);
    XorBytes(0x85, 0xF0, 0x31, 0xD7, 0x00, 0x00, 0x85, 0xF0);
    FinalizeAt(0x00000003, 0x00000003, 0x91C35F41, 0x91C7D15B, 0x85F031D7, 0x85F0B427);
  }

  lemma TwoZeros()
    ensures HashOf(0, [0x00, 0x00]) == 0x30F4C306
  {
    hide Body, Round, Scramble, Finalize, XorNat, Pack;
    HashParts(0x00000000, [0x00, 0x00], [], [0x00, 0x00]);
    BodyOfNothing(0x00000000, []);
    PackOf(0x00, 0x00, 0x00, 0x00);
    ScrambleAt(0x00000000, 0x00000000, 0x00000000, 0x00000000);
    XorBytes(0x00, 0x00, 0x00, 0x00, 0x00, 0x00, 0x00, 0x00);
    XorBytes(0x00, 0x00, 0x00, 0x00, 0x00, 0x00, 0x00, 0x02);
    XorBytes(0x00, 0x00, 0x00, 0x02, 0x00, 0x00, 0x00, 0x00);
    XorBytes(0x0B, 0xD7, 0x94, 0xD6, 0x00, 0x00, 0x5E, 0xBC);
    XorBytes(0x30, 0xF4, 0xF3, 0xF2, 0x00, 0x00, 0x30, 0xF4);
    FinalizeAt(0x00000002, 0x00000002, 0x0BD794D6, 0x0BD7CA6A, 0x30F4F3F2, 0x30F4C306);
  }

  lemma OneZero()
    ensures HashOf(0, [0x00]) == 0x514E28B7
  {
    hide Body, Round, Scramble, Finalize, XorNat, Pack;
    HashParts(0x00000000, [0x00], [], [0x00]);
    BodyOfNothing(0x00000000, []);
    PackOf(0x00, 0x00, 0x00, 0x00);
    ScrambleAt(0x00000000, 0x00000000, 0x00000000, 0x00000000);
    XorBytes(0x00, 0x00, 0x00, 0x00, 0x00, 0x00, 0x00, 0x00);
    XorBytes(0x00, 0x00, 0x00, 0x00, 0x00, 0x00, 0x00, 0x01);
    XorBytes(0x00, 0x00, 0x00, 0x01, 0x00, 0x00, 0x00, 0x00);
    XorBytes(0x85, 0xEB, 0xCA, 0x6B, 0x00, 0x04, 0x2F, 0x5E);
    XorBytes(0x51, 0x4E, 0x79, 0xF9, 0x00, 0x00, 0x51, 0x4E);
    FinalizeAt(0x00000001, 0x00000001, 0x85EBCA6B, 0x85EFE535, 0x514E79F9, 0x514E28B7);
  }

  lemma FirstBlock()
    ensures Body(0x9747B28C, [0x48, 0x65, 0x6C, 0x6C]) == 0xDAE4C92E
  {
    hide Body, Round, Scramble, XorNat, Pack;
    BodyOfNothing(0x9747B28C, []);
    OneMoreBlock(0x9747B28C, [], 0x48, 0x65, 0x6C, 0x6C, [0x48, 0x65, 0x6C, 0x6C], 0x6C6C6548);
    ScrambleAt(0x6C6C6548, 0x3E89B3C8, 0xD9E41F44, 0x0153080C);
    XorBytes(0x97, 0x47, 0xB2, 0x8C, 0x01, 0x53, 0x08, 0x0C);
    RoundAt(0x9747B28C, 0x0153080C, 0x6C6C6548, 0x9614BA80, 0x975012C2, 0xDAE4C92E);
  }

  lemma SecondBlock()
    ensures Body(0x9747B28C, [0x48, 0x65, 0x6C, 0x6C, 0x6F, 0x2C, 0x20, 0x77]) == 0x71C6B43C
  {
    hide Body, Round, Scramble, XorNat, Pack;
    FirstBlock();
    OneMoreBlock(0x9747B28C, [0x48, 0x65, 0x6C, 0x6C], 0x6F, 0x2C, 0x20, 0x77, [0x48, 0x65, 0x6C, 0x6C, 0x6F, 0x2C, 0x20, 0x77], 0x77202C6F);
    ScrambleAt(0x77202C6F, 0x397F921F, 0xC90F9CBF, 0x7D238CAD);
    XorBytes(0xDA, 0xE4, 0xC9, 0x2E, 0x7D, 0x23, 0x8C, 0xAD);
    RoundAt(0xDAE4C92E, 0x7D238CAD, 0x77202C6F, 0xA7C74583, 0xE8B074F8, 0x71C6B43C);
  }

  lemma ThirdBlock()
    ensures Body(0x9747B28C, [0x48, 0x65, 0x6C, 0x6C, 0x6F, 0x2C, 0x20, 0x77, 0x6F, 0x72, 0x6C, 0x64]) == 0x3BD692AF
  {
    hide Body, Round, Scramble, XorNat, Pack;
    SecondBlock();
    OneMoreBlock(0x9747B28C, [0x48, 0x65, 0x6C, 0x6C, 0x6F, 0x2C, 0x20, 0x77], 0x6F, 0x72, 0x6C, 0x64, [0x48, 0x65, 0x6C, 0x6C, 0x6F, 0x2C, 0x20, 0x77, 0x6F, 0x72, 0x6C, 0x64], 0x646C726F);
    ScrambleAt(0x646C726F, 0xEAEFB81F, 0xDC0FF577, 0xA9BC9655);
    XorBytes(0x71, 0xC6, 0xB4, 0x3C, 0xA9, 0xBC, 0x96, 0x55);
    RoundAt(0x71C6B43C, 0xA9BC9655, 0x646C726F, 0xD87A2269, 0x444D3B0F, 0x3BD692AF);
  }

  lemma ThreeBlocksAndTail()
    ensures HashOf(0x9747B28C, [0x48, 0x65, 0x6C, 0x6C, 0x6F, 0x2C, 0x20, 0x77, 0x6F, 0x72, 0x6C, 0x64, 0x21]) == 0x24884CBA
  {
    hide Body, Round, Scramble, Finalize, XorNat, Pack;
    HashParts(0x9747B28C, [0x48, 0x65, 0x6C, 0x6C, 0x6F, 0x2C, 0x20, 0x77, 0x6F, 0x72, 0x6C, 0x64, 0x21], [0x48, 0x65, 0x6C, 0x6C, 0x6F, 0x2C, 0x20, 0x77, 0x6F, 0x72, 0x6C, 0x64], [0x21]);
    ThirdBlock();
    PackOf(0x21, 0x00, 0x00, 0x00);
    ScrambleAt(0x00000021, 0x6063D771, 0xEBB8B031, 0xAC5E5123);
    XorBytes(0x3B, 0xD6, 0x92, 0xAF, 0xAC, 0x5E, 0x51, 0x23);
    XorBytes(0x97, 0x88, 0xC3, 0x8C, 0x00, 0x00, 0x00, 0x0D);
    XorBytes(0x97, 0x88, 0xC3, 0x81, 0x00, 0x00, 0x97, 0x88);
    XorBytes(0xB9, 0x8D, 0x39, 0xC3, 0x00, 0x05, 0xCC, 0x69);
    XorBytes(0x24, 0x88, 0x68, 0x32, 0x00, 0x00, 0x24, 0x88);
    FinalizeAt(0x9788C381, 0x97885409, 0xB98D39C3, 0xB988F5AA, 0x24886832, 0x24884CBA);
  }

  /** All of them. */
  lemma PublishedValues()
    ensures HashOf(0, []) == 0x00000000
    ensures HashOf(1, []) == 0x514E28B7
    ensures HashOf(0xFFFFFFFF, []) == 0x81F16F39
    ensures HashOf(0, [0xFF, 0xFF, 0xFF, 0xFF]) == 0x76293B50
    ensures HashOf(0, [0x21, 0x43, 0x65, 0x87]) == 0xF55B516B
    ensures HashOf(0x5082EDEE, [0x21, 0x43, 0x65, 0x87]) == 0x2362F9DE
    ensures HashOf(0, [0x21, 0x43, 0x65]) == 0x7E4A8634
    ensures HashOf(0, [0x21, 0x43]) == 0xA0F7B07A
    ensures HashOf(0, [0x21]) == 0x72661CF4
    ensures HashOf(0, [0x00, 0x00, 0x00, 0x00]) == 0x2362F9DE
    ensures HashOf(0, [0x00, 0x00, 0x00]) == 0x85F0B427
    ensures HashOf(0, [0x00, 0x00]) == 0x30F4C306
    ensures HashOf(0, [0x00]) == 0x514E28B7
    ensures HashOf(0x9747B28C, [0x48, 0x65, 0x6C, 0x6C, 0x6F, 0x2C, 0x20, 0x77, 0x6F, 0x72, 0x6C, 0x64, 0x21]) == 0x24884CBA
  {
    hide HashOf;
    EmptySeed0();
    EmptySeed1();
    EmptySeedMax();
    OneBlockOfOnes();
    OneBlock();
    OneBlockSeeded();
    TailOfThree();
    TailOfTwo();
    TailOfOne();
    OneZeroBlock();
    ThreeZeros();
    TwoZeros();
    OneZero();
    ThreeBlocksAndTail();
  }
}

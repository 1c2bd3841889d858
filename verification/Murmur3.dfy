/**
 The incremental MurmurHash3 of internal/murmur3.go. The writer keeps four words of state; `HashOf`
 is the one-shot definition of the 32-bit hash on a whole message.
 */
module Murmur3 {
  import opened Words32

  const C1: Word := 0xCC9E2D51
  const C2: Word := 0x1B873593

  /** What `round` and `Sum32` do to `k1` before mixing it in. */
  function Scramble(k1: Word): Word {
    Mul(RotateLeft15(Mul(k1, C1)), C2)
  }

  /** `round`; `h1*4 + h1` is `h1*5` on words. */
  function Round(h1: Word, k1: Word): Word {
    Add(Mul(RotateLeft13(Xor(h1, Scramble(k1))), 5), 0xE6546B64)
  }

  /** The last lines of `Sum32`. */
  function Finalize(h: Word): Word {
    XorShift(Mul(XorShift(Mul(XorShift(h, 16), 0x85EBCA6B), 13), 0xC2B2AE35), 16)
  }

  /** `uint32(b) << (i << 3)` */
  function Lane(b: Byte, i: nat): (r: Word)
    requires i < 4
    ensures r == b * Pow2(8 * i)
  {
    assert Pow2(0) == 1 && Pow2(8) == 0x100;
    assert Pow2(16) == 0x1_0000;
    assert Pow2(24) == 0x100_0000;
    b * (if i == 0 then 1 else if i == 1 then 0x100 else if i == 2 then 0x1_0000 else 0x100_0000)
  }

  /** The bytes of a partial block, the first one in the lowest lane. */
  function Pack(data: seq<Byte>): Word
    requires |data| <= 4
  {
    if data == [] then 0 else Or(Pack(data[..|data| - 1]), Lane(data[|data| - 1], |data| - 1))
  }

  function PackBlock(data: seq<Byte>): Word {
    if |data| <= 4 then Pack(data) else 0
  }

  /** Whole blocks of four bytes, each packed and mixed in, in order. */
  function Fold(mix: (Word, Word) -> Word, pack: seq<Byte> -> Word, seed: Word, data: seq<Byte>): Word
    requires |data| % 4 == 0
    decreases |data|
  {
    if data == [] then seed else mix(Fold(mix, pack, seed, data[..|data| - 4]), pack(data[|data| - 4..]))
  }

  /** All whole blocks of a message. */
  function Body(seed: Word, data: seq<Byte>): Word
    requires |data| % 4 == 0
  {
    Fold(Round, PackBlock, seed, data)
  }

  function Whole(n: nat): (r: nat)
    ensures r <= n < r + 4 && r % 4 == 0
  {
    n - n % 4
  }

  /** The 32-bit hash of a message: its blocks, its tail, its length, the finalizer. */
  function HashOf(seed: Word, msg: seq<Byte>): Word {
    var b := Whole(|msg|);
    Finalize(Xor(Xor(Body(seed, msg[..b]), Scramble(Pack(msg[b..]))), |msg| % TWO_32))
  }

  // ---------------------------------------------------------------- the writer

  class MurmurHash3 {
    var rem: int
    var len: int
    var k1: Word
    var h1: Word
    /** The seed in force and everything written since it was set. */
    ghost var seed: Word
    ghost var written: seq<Byte>

    ghost predicate Valid()
      reads this
    {
      var b := Whole(|written|);
      len == |written| && rem == |written| - b && k1 == Pack(written[b..]) && h1 == Body(seed, written[..b])
    }

    /** `NewMurmurHash3` */
    constructor (seed: Word)
      ensures Valid() && this.seed == seed && written == []
    {
      rem, len, k1, h1 := 0, 0, 0, seed;
      this.seed, written := seed, [];
    }

    method Write(data: seq<Byte>) returns (n: nat)
      requires Valid()
      modifies this
      ensures Valid() && seed == old(seed) && written == old(written) + data && n == |data|
    {
      hide Body, Round, Pack;
      n := |data|;
      len := len + n;
      var h := h1;
      ghost var w := written;
      ghost var b := Whole(|w|);
      written := w + data;
      var rest := data;
      if rem != 0 {
        var i, j;
        k1, i, j := FillBlock(k1, rem, data, w[b..]);
        rest := data[j..];
        rem := i;
        if rem < 4 {
          StillPartial(w, data);
          assert data[..j] == data;
          return;
        }
        h := Round(h, k1);
        BlockFilled(seed, w, data[..j]);
        w := w + data[..j];
      }
      assert |w| % 4 == 0 && h == Body(seed, w) && w + rest == written by {
        if old(rem) == 0 { assert w[..|w|] == w; }
      }
      h := MixBlocks(h, rest);
      BlocksMixed(seed, w, rest);
      rest := rest[Whole(|rest|)..];
      rem := |rest|;
      k1 := PackTail(rest);
      h1 := h;
    }

    method Sum32() returns (r: Word)
      requires Valid()
      ensures r == HashOf(seed, written)
    {
      r := Finalize(Xor(Xor(h1, Scramble(k1)), len % TWO_32));
    }

    /** `Reset` forgets the seed along with the message. */
    method Reset()
      modifies this
      ensures Valid() && seed == 0 && written == []
    {
      rem, len, k1, h1 := 0, 0, 0, 0;
      seed, written := 0, [];
    }
  }

  /** `MurmurHash3Sum` */
  method MurmurHash3Sum(data: seq<Byte>, seed: Word) returns (r: Word)
    ensures r == HashOf(seed, data)
  {
    var h := new MurmurHash3(seed);
    var _ := h.Write(data);
    r := h.Sum32();
    assert [] + data == data;
  }

  /** The first loop of `Write`: top up the pending block. */
  method FillBlock(k1: Word, rem: nat, data: seq<Byte>, ghost tail: seq<Byte>) returns (k: Word, i: nat, j: nat)
    requires |tail| == rem < 4 && k1 == Pack(tail)
    ensures i == rem + j && j == (if rem + |data| < 4 then |data| else 4 - rem) && k == Pack(tail + data[..j])
  {
    hide Pack, Or, Lane;
    k, i, j := k1, rem, 0;
    assert tail + data[..0] == tail;
    while i < 4 && j < |data|
      invariant j <= |data| && i == rem + j <= 4 && k == Pack(tail + data[..j])
    {
      PackSnoc(tail + data[..j], data[j]);
      assert tail + data[..j + 1] == (tail + data[..j]) + [data[j]];
      k := Or(k, Lane(data[j], i));
      j := j + 1;
      i := i + 1;
    }
  }

  /** The second loop: whole blocks straight from the input. */
  method MixBlocks(h0: Word, data: seq<Byte>) returns (h: Word)
    ensures h == Body(h0, data[..Whole(|data|)])
  {
    hide Pack, Or, Lane, Body, Round, Pow2;
    BodyOfNothing(h0, data[..0]);
    h := h0;
    var bodyLen := Whole(|data|);
    var i := 0;
    while i < bodyLen
      invariant i <= bodyLen && i % 4 == 0 && h == Body(h0, data[..i])
    {
      var k1 := Or(Or(Or(Lane(data[i + 3], 3), Lane(data[i + 2], 2)), Lane(data[i + 1], 1)), data[i]);
      BlockIsPacked(data[i], data[i + 1], data[i + 2], data[i + 3]);
      assert data[i..i + 4] == [data[i], data[i + 1], data[i + 2], data[i + 3]];
      BodyStep(h0, data, i);
      h := Round(h, k1);
      i := i + 4;
    }
  }

  /** The last loop: the bytes that do not fill a block. */
  method PackTail(data: seq<Byte>) returns (k: Word)
    requires |data| < 4
    ensures k == Pack(data)
  {
    hide Or, Lane;
    k := 0;
    for i := 0 to |data|
      invariant k == Pack(data[..i])
    {
      PackSnoc(data[..i], data[i]);
      assert data[..i + 1] == data[..i] + [data[i]];
      k := Or(k, Lane(data[i], i));
    }
    assert data[..|data|] == data;
  }

  lemma PackSnoc(data: seq<Byte>, b: Byte)
    requires |data| < 4
    ensures Pack(data + [b]) == Or(Pack(data), Lane(b, |data|))
  {
    assert (data + [b])[..|data|] == data;
  }

  /** A packed block is the sum of its lanes, below the next lane. */
  lemma {:induction false} PackIsSum(data: seq<Byte>)
    requires |data| <= 4
    ensures Pack(data) < Pow2(8 * |data|)
    ensures data != [] ==> var n := |data| - 1; Pack(data) == Pack(data[..n]) + data[n] * Pow2(8 * n)
  {
    if data != [] {
      var n := |data| - 1;
      PackIsSum(data[..n]);
      OrIsSum(Pack(data[..n]), data[n], 8 * n);
      Pow2Of(n);
    }
  }

  lemma Pow2Of(n: nat)
    requires n < 4
    ensures Pow2(8 * n) == (if n == 0 then 1 else if n == 1 then 0x100 else if n == 2 then 0x1_0000 else 0x100_0000)
    ensures Pow2(8 * (n + 1)) == 256 * Pow2(8 * n)
  {
    assert Pow2(8) == 0x100;
    assert Pow2(16) == 0x1_0000;
    assert Pow2(24) == 0x100_0000;
    assert Pow2(32) == 0x1_0000_0000;
  }

  /** The block expression of the second loop, high lane first, is the packed block. */
  lemma BlockIsPacked(b0: Byte, b1: Byte, b2: Byte, b3: Byte)
    ensures Or(Or(Or(Lane(b3, 3), Lane(b2, 2)), Lane(b1, 1)), b0) == Pack([b0, b1, b2, b3])
  {
    hide OrNat;
    var s := [b0, b1, b2, b3];
    assert s[..3] == [b0, b1, b2] && s[..3][..2] == [b0, b1] && s[..3][..2][..1] == [b0] && [b0][..0] == [];
    assert Pack(s) == b0 + b1 * 0x100 + b2 * 0x1_0000 + b3 * 0x100_0000 by {
      PackIsSum([b0]); PackIsSum([b0, b1]); PackIsSum([b0, b1, b2]); PackIsSum(s);
      Pow2Of(0); Pow2Of(1); Pow2Of(2); Pow2Of(3);
    }
    Lanes(b0, b1, b2, b3);
    hide Pack, Pow2, Lane;
    OrLow(b3, b2, 2);
    OrLow(b3 * 0x100 + b2, b1, 1);
    OrLow(b3 * 0x1_0000 + b2 * 0x100 + b1, b0, 0);
  }

  lemma Lanes(b0: Byte, b1: Byte, b2: Byte, b3: Byte)
    ensures Lane(b3, 3) == b3 * 0x100_0000 && Lane(b2, 2) == b2 * 0x1_0000 && Lane(b1, 1) == b1 * 0x100
  {
  }

  /** Or-ing a byte in below lanes that are already filled. */
  lemma OrLow(high: nat, b: Byte, lane: nat)
    requires lane < 3
    ensures lane == 0 ==> OrNat(high * 0x100, b) == high * 0x100 + b
    ensures lane == 1 ==> OrNat(high * 0x1_0000, b * 0x100) == high * 0x1_0000 + b * 0x100
    ensures lane == 2 ==> OrNat(high * 0x100_0000, b * 0x1_0000) == high * 0x100_0000 + b * 0x1_0000
  {
    hide OrNat;
    Pow2Of(lane);
    var k := 8 * lane;
    hide Pow2;
    assert b * Pow2(k) < 256 * Pow2(k);
    OrIsSum(b * Pow2(k), high, k + 8);
    OrFacts(b * Pow2(k), high * Pow2(k + 8));
  }

  lemma BodyOfNothing(seed: Word, data: seq<Byte>)
    requires data == []
    ensures Body(seed, data) == seed
  {
  }

  lemma BodyStep(seed: Word, data: seq<Byte>, i: nat)
    requires i + 4 <= |data| && i % 4 == 0
    ensures Body(seed, data[..i + 4]) == Round(Body(seed, data[..i]), Pack(data[i..i + 4]))
  {
    hide Round, Pack;
    assert data[..i + 4][..i] == data[..i] && data[..i + 4][i..] == data[i..i + 4];
  }

  lemma StillPartial(w: seq<Byte>, data: seq<Byte>)
    requires |w| - Whole(|w|) + |data| < 4
    ensures Whole(|w + data|) == Whole(|w|)
    ensures (w + data)[Whole(|w|)..] == w[Whole(|w|)..] + data && (w + data)[..Whole(|w|)] == w[..Whole(|w|)]
  {
  }

  lemma BlockFilled(seed: Word, w: seq<Byte>, data: seq<Byte>)
    requires |w| - Whole(|w|) + |data| == 4
    ensures (|w| + |data|) % 4 == 0
    ensures Body(seed, w + data) == Round(Body(seed, w[..Whole(|w|)]), Pack(w[Whole(|w|)..] + data))
  {
    hide Round, Pack, Body, Fold;
    var m, i := w + data, Whole(|w|);
    assert m[..i + 4] == m && m[..i] == w[..i] && m[i..i + 4] == w[i..] + data;
    BodyStep(seed, m, i);
  }

  lemma {:induction false} FoldConcat(mix: (Word, Word) -> Word, pack: seq<Byte> -> Word, seed: Word, a: seq<Byte>, b: seq<Byte>)
    requires |a| % 4 == 0 && |b| % 4 == 0
    ensures Fold(mix, pack, seed, a + b) == Fold(mix, pack, Fold(mix, pack, seed, a), b)
    decreases |b|
  {
    if b == [] {
      assert a + b == a;
    } else {
      FoldConcat(mix, pack, seed, a, b[..|b| - 4]);
      assert (a + b)[..|a + b| - 4] == a + b[..|b| - 4] && (a + b)[|a + b| - 4..] == b[|b| - 4..];
    }
  }

  lemma WholeOfBoth(w: seq<Byte>, rest: seq<Byte>)
    requires |w| % 4 == 0
    ensures var c := Whole(|rest|);
            Whole(|w + rest|) == |w| + c && (w + rest)[..|w| + c] == w + rest[..c] && (w + rest)[|w| + c..] == rest[c..]
  {
  }

  lemma BlocksMixed(seed: Word, w: seq<Byte>, rest: seq<Byte>)
    requires |w| % 4 == 0
    ensures var c := Whole(|rest|);
            && Whole(|w + rest|) == |w| + c
            && Body(seed, (w + rest)[..|w| + c]) == Body(Body(seed, w), rest[..c]) && (w + rest)[|w| + c..] == rest[c..]
  {
    hide Fold;
    WholeOfBoth(w, rest);
    FoldConcat(Round, PackBlock, seed, w, rest[..Whole(|rest|)]);
  }

  function Flatten(chunks: seq<seq<Byte>>): seq<Byte> {
    if chunks == [] then [] else chunks[0] + Flatten(chunks[1..])
  }

  lemma FlattenUnfolds(chunks: seq<seq<Byte>>, i: nat)
    requires i <= |chunks|
    ensures Flatten(chunks[i..]) == if i == |chunks| then [] else chunks[i] + Flatten(chunks[i + 1..])
  {
    if i < |chunks| { assert chunks[i..][1..] == chunks[i + 1..]; }
  }

  /** However a message is split into chunks, writing them one by one gives the one-shot hash of the whole. */
  method SumOfChunks(chunks: seq<seq<Byte>>, seed: Word) returns (r: Word)
    ensures r == HashOf(seed, Flatten(chunks))
  {
    hide HashOf, Body, Pack, Flatten;
    var h := new MurmurHash3(seed);
    assert chunks[0..] == chunks;
    for i := 0 to |chunks|
      invariant fresh(h) && h.Valid() && h.seed == seed && h.written + Flatten(chunks[i..]) == Flatten(chunks)
    {
      FlattenUnfolds(chunks, i);
      var _ := h.Write(chunks[i]);
    }
    FlattenUnfolds(chunks, |chunks|);
    assert h.written + [] == h.written;
    r := h.Sum32();
  }

  // ---------------------------------------------------------------- collisions

  lemma ScrambleInjective(k: Word, l: Word)
    requires Scramble(k) == Scramble(l)
    ensures k == l
  {
    hide Mul, RotateLeft15;
    MulInjective(RotateLeft15(Mul(k, C1)), RotateLeft15(Mul(l, C1)), C2, 0x56ED309B);
    Rotate15Injective(Mul(k, C1), Mul(l, C1));
    MulInjective(k, l, C1, 0xDEE13BB1);
  }

  /** `round` is injective, hence a bijection on 32 bits, in either argument when the other is fixed. */
  lemma RoundInjective(h: Word, k: Word, g: Word, l: Word)
    ensures Round(h, k) == Round(g, l) ==> (h == g <==> k == l)
  {
    hide Mul, Add, RotateLeft13, Scramble, XorNat;
    if Round(h, k) != Round(g, l) { return; }
    var x, y := Xor(h, Scramble(k)), Xor(g, Scramble(l));
    AddInjective(Mul(RotateLeft13(x), 5), Mul(RotateLeft13(y), 5), 0xE6546B64);
    MulInjective(RotateLeft13(x), RotateLeft13(y), 5, 0xCCCCCCCD);
    Rotate13Injective(x, y);
    XorCancels(h, Scramble(k), Scramble(l));
    XorCancels(Scramble(k), h, g);
    XorCancels(Scramble(k), g, 0);
    if h == g { ScrambleInjective(k, l); }
  }

  /** The finalizer is injective, hence a bijection on 32 bits. */
  lemma FinalizeInjective(h: Word, g: Word)
    ensures Finalize(h) == Finalize(g) <==> h == g
  {
    hide Mul, XorShift;
    if Finalize(h) != Finalize(g) { return; }
    var a, b := XorShift(h, 16), XorShift(g, 16);
    var c, d := XorShift(Mul(a, 0x85EBCA6B), 13), XorShift(Mul(b, 0x85EBCA6B), 13);
    XorShiftInjective(Mul(c, 0xC2B2AE35), Mul(d, 0xC2B2AE35), 16);
    MulInjective(c, d, 0xC2B2AE35, 0x7ED1B41D);
    XorShiftInjective(Mul(a, 0x85EBCA6B), Mul(b, 0x85EBCA6B), 13);
    MulInjective(a, b, 0x85EBCA6B, 0xA5CB9243);
    XorShiftInjective(h, g, 16);
  }

  lemma SameDigits(d: int, a: int, p: int, b: int, q: int)
    requires p + a * d == q + b * d && 0 <= p < d && 0 <= q < d
    ensures a == b && p == q
  {
    assert d * (a - b) == q - p;
    SmallMultiple(d, a - b);
  }

  /** The last byte of a packed block can be read off. */
  lemma SameLast(x: seq<Byte>, y: seq<Byte>)
    requires 0 < |x| == |y| <= 4 && Pack(x) == Pack(y)
    ensures var n := |x| - 1; x[n] == y[n] && Pack(x[..n]) == Pack(y[..n])
  {
    var n := |x| - 1;
    var d := Pow2(8 * n);
    PackIsSum(x);
    PackIsSum(y);
    PackIsSum(x[..n]);
    PackIsSum(y[..n]);
    hide Pack, Pow2;
    SameDigits(d, x[n], Pack(x[..n]), y[n], Pack(y[..n]));
  }

  lemma {:induction false} PackInjective(x: seq<Byte>, y: seq<Byte>)
    requires |x| == |y| <= 4 && Pack(x) == Pack(y)
    ensures x == y
  {
    if x != [] {
      var n := |x| - 1;
      SameLast(x, y);
      hide Pack;
      PackInjective(x[..n], y[..n]);
      assert x == x[..n] + [x[n]] && y == y[..n] + [y[n]];
    }
  }

  /** Distinct running hashes stay distinct through the same blocks, if mixing in a block keeps them so. */
  lemma {:induction false} FoldInjective(mix: (Word, Word) -> Word, pack: seq<Byte> -> Word, h: Word, g: Word, data: seq<Byte>)
    requires forall a, b, k :: mix(a, k) == mix(b, k) ==> a == b
    requires |data| % 4 == 0 && Fold(mix, pack, h, data) == Fold(mix, pack, g, data)
    ensures h == g
    decreases |data|
  {
    if data != [] {
      FoldInjective(mix, pack, h, g, data[..|data| - 4]);
    }
  }

  lemma BodyInjective(h: Word, g: Word, data: seq<Byte>)
    requires |data| % 4 == 0 && Body(h, data) == Body(g, data)
    ensures h == g
  {
    hide Round, Pack, Fold;
    forall a, b, k | Round(a, k) == Round(b, k) ensures a == b {
      RoundInjective(a, k, b, k);
    }
    FoldInjective(Round, PackBlock, h, g, data);
  }

  lemma HashFromParts(seed: Word, pre: seq<Byte>, msg: seq<Byte>)
    requires |pre| % 4 == 0
    ensures var c := Whole(|msg|);
            HashOf(seed, pre + msg) ==
            Finalize(Xor(Xor(Body(Body(seed, pre), msg[..c]), Scramble(Pack(msg[c..]))), |pre + msg| % TWO_32))
  {
    hide Finalize, Xor, Scramble, Pack, Body;
    BlocksMixed(seed, pre, msg);
  }

  lemma SameHashSameMix(a: Word, b: Word, k: Word, l: Word, n: Word)
    requires Finalize(Xor(Xor(a, Scramble(k)), n)) == Finalize(Xor(Xor(b, Scramble(l)), n))
    ensures a == b <==> k == l
  {
    hide Finalize, Scramble, XorNat;
    FinalizeInjective(Xor(Xor(a, Scramble(k)), n), Xor(Xor(b, Scramble(l)), n));
    var x, y := Xor(a, Scramble(k)), Xor(b, Scramble(l));
    XorCancels(n, x, y);
    XorCancels(n, y, 0);
    XorCancels(a, Scramble(k), Scramble(l));
    XorCancels(Scramble(k), a, b);
    XorCancels(Scramble(k), b, 0);
    if a == b { ScrambleInjective(k, l); }
  }

  /** Messages that differ only inside one aligned 4-byte block never collide, whatever the seed and the rest. */
  lemma BlockChangeNeverCollides(seed: Word, pre: seq<Byte>, x: seq<Byte>, y: seq<Byte>, post: seq<Byte>)
    requires |pre| % 4 == 0 && |x| == |y| == 4 && x != y
    ensures HashOf(seed, pre + x + post) != HashOf(seed, pre + y + post)
  {
    hide Finalize, Xor, Scramble, Pack, Body, Round, HashOf;
    var a, b := Body(seed, pre + x), Body(seed, pre + y);
    if HashOf(seed, pre + x + post) == HashOf(seed, pre + y + post) {
      SameAfterwards(seed, pre + x, pre + y, post);
      assert a == b;
      OneBlock(Body(seed, pre), x);
      OneBlock(Body(seed, pre), y);
      BlocksMixed(seed, pre, x);
      BlocksMixed(seed, pre, y);
      assert x[..4] == x && y[..4] == y && (pre + x)[..|pre| + 4] == pre + x && (pre + y)[..|pre| + 4] == pre + y;
      RoundInjective(Body(seed, pre), Pack(x), Body(seed, pre), Pack(y));
      PackInjective(x, y);
    }
  }

  /** Equal hashes of messages with the same ending: the running hashes before the ending were equal. */
  lemma SameAfterwards(seed: Word, u: seq<Byte>, v: seq<Byte>, post: seq<Byte>)
    requires |u| == |v| && |u| % 4 == 0 && HashOf(seed, u + post) == HashOf(seed, v + post)
    ensures Body(seed, u) == Body(seed, v)
  {
    hide Finalize, Xor, Scramble, Pack, Body, HashOf;
    var c := Whole(|post|);
    HashFromParts(seed, u, post);
    HashFromParts(seed, v, post);
    SameHashSameMix(Body(Body(seed, u), post[..c]), Body(Body(seed, v), post[..c]), Pack(post[c..]), Pack(post[c..]), |u + post| % TWO_32);
    BodyInjective(Body(seed, u), Body(seed, v), post[..c]);
  }

  /** One message never has the same hash under two seeds. */
  lemma SeedChangeNeverCollides(seed: Word, other: Word, msg: seq<Byte>)
    ensures HashOf(seed, msg) == HashOf(other, msg) <==> seed == other
  {
    hide Finalize, Xor, Scramble, Pack, Body;
    var b := Whole(|msg|);
    if HashOf(seed, msg) == HashOf(other, msg) {
      var k := Pack(msg[b..]);
      SameHashSameMix(Body(seed, msg[..b]), Body(other, msg[..b]), k, k, |msg| % TWO_32);
      BodyInjective(seed, other, msg[..b]);
    }
  }

  /**
   Using a hash again after `Reset`, exactly: it hashes like a new one with the same seed if and only if
   that seed is 0, whatever was written before and after.
   */
  method HashAgainAfterReset(seed: Word, first: seq<Byte>, msg: seq<Byte>) returns (again: Word, anew: Word)
    ensures anew == HashOf(seed, msg)
    ensures again == anew <==> seed == 0
  {
    hide HashOf, MurmurHash3.Valid;
    var h := new MurmurHash3(seed);
    var _ := h.Write(first);
    h.Reset();
    var _ := h.Write(msg);
    again := h.Sum32();
    assert [] + msg == msg;
    anew := MurmurHash3Sum(msg, seed);
    var zero: Word := 0;
    SeedChangeNeverCollides(seed, zero, msg);
  }

  lemma OneBlock(h: Word, x: seq<Byte>)
    requires |x| == 4
    ensures Body(h, x) == Round(h, Pack(x))
  {
    BodyOfNothing(h, x[..0]);
    assert x[0..] == x;
  }

  /** Messages of equal length that differ only in the last, partial block never collide either. */
  lemma TailChangeNeverCollides(seed: Word, pre: seq<Byte>, x: seq<Byte>, y: seq<Byte>)
    requires |pre| % 4 == 0 && |x| == |y| < 4 && x != y
    ensures HashOf(seed, pre + x) != HashOf(seed, pre + y)
  {
    hide Finalize, Xor, Scramble, Pack, Body, HashOf;
    HashFromParts(seed, pre, x);
    HashFromParts(seed, pre, y);
    assert x[..0] == y[..0] && x[0..] == x && y[0..] == y;
    if HashOf(seed, pre + x) == HashOf(seed, pre + y) {
      SameHashSameMix(Body(Body(seed, pre), x[..0]), Body(Body(seed, pre), y[..0]), Pack(x), Pack(y), |pre + x| % TWO_32);
      PackInjective(x, y);
    }
  }
}

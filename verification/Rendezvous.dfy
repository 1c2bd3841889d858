/**
 The rendezvous subsetter of resolver/rendezvous.go: a min-heap of the k best-ranked addresses, built
 in the first k slots of the caller's slice while the rest of that slice is scanned, and what makes
 the chosen subset stable.
 */
module Rendezvous {
  import opened GoHeap
  import opened Words32
  import opened Murmur3

  datatype Address = Address(hostPort: seq<Byte>, attributes: int)

  /** A hash of the caller's choice: its sum depends on the bytes written since `Reset`. */
  class CustomHash {
    const sum: seq<Byte> -> Word
    var written: seq<Byte>

    constructor (sum: seq<Byte> -> Word)
      ensures this.sum == sum && written == []
    {
      this.sum, written := sum, [];
    }
  }

  /** The `hash.Hash32` of the options, by default a MurmurHash3. */
  datatype Hash32 = Default(murmur: MurmurHash3) | Custom(custom: CustomHash) {
    ghost function Repr(): set<object> {
      match this
      case Default(murmur) => {murmur}
      case Custom(custom) => {custom}
    }

    ghost predicate Valid()
      reads Repr()
    {
      Default? ==> murmur.Valid()
    }

    /** Reset, then given these bytes. */
    ghost predicate Holds(data: seq<Byte>)
      reads Repr()
    {
      match this
      case Default(murmur) => murmur.Valid() && murmur.seed == 0 && murmur.written == data
      case Custom(custom) => custom.written == data
    }

    /** The sum of these bytes after a `Reset`, which leaves a MurmurHash3 with seed 0. */
    function SumOf(data: seq<Byte>): Word {
      match this
      case Default(_) => HashOf(0, data)
      case Custom(custom) => custom.sum(data)
    }

    method Reset()
      modifies Repr()
      ensures Holds([])
    {
      match this
      case Default(murmur) => murmur.Reset();
      case Custom(custom) => custom.written := [];
    }

    method Write(data: seq<Byte>, ghost before: seq<Byte>)
      requires Holds(before)
      modifies Repr()
      ensures Holds(before + data)
    {
      match this
      case Default(murmur) => var _ := murmur.Write(data);
      case Custom(custom) => custom.written := custom.written + data;
    }

    method Sum32(ghost data: seq<Byte>) returns (r: Word)
      requires Holds(data)
      ensures r == SumOf(data)
    {
      match this
      case Default(murmur) => r := murmur.Sum32();
      case Custom(custom) => r := custom.sum(custom.written);
    }
  }

  /** `rank`: the hash of key and host:port together. */
  function RankOf(hash: Hash32, key: seq<Byte>, a: Address): Word {
    hash.SumOf(key + a.hostPort)
  }

  function Ranks(hash: Hash32, key: seq<Byte>): Ranking {
    a => RankOf(hash, key, a)
  }

  // ---------------------------------------------------------------- the best k

  type Ranking = Address -> Word

  /** `s` is a choice of k best-ranked members of `m` (all of them if there are fewer). */
  ghost predicate TopK(rank: Ranking, m: multiset<Address>, k: nat, s: multiset<Address>) {
    && s <= m && |s| == (if k < |m| then k else |m|)
    && forall x, y :: x in s && y in m - s ==> rank(y) <= rank(x)
  }

  /** No rejected address ties with a different chosen one. */
  ghost predicate NoTieAtTheEdge(rank: Ranking, m: multiset<Address>, s: multiset<Address>) {
    forall x, y :: x in s && y in m - s && rank(x) == rank(y) ==> x == y
  }

  lemma SubMultiset(s: multiset<Address>, t: multiset<Address>)
    requires s <= t && |s| == |t|
    ensures s == t
  {
    assert t == s + (t - s);
    assert |t| == |s| + |t - s|;
  }

  /** Two different choices of the same size: each has a member the other rejects. */
  lemma Differ(m: multiset<Address>, s: multiset<Address>, t: multiset<Address>) returns (x: Address, y: Address)
    requires s <= m && t <= m && |s| == |t| && s != t
    ensures x in s && x in m - t && y in t && y in m - s && x != y
  {
    if s <= t { SubMultiset(s, t); }
    if t <= s { SubMultiset(t, s); }
    x :| s[x] > t[x];
    y :| t[y] > s[y];
  }

  lemma TwoChoices(rank: Ranking, m: multiset<Address>, k: nat, s: multiset<Address>, t: multiset<Address>)
    requires TopK(rank, m, k, s) && TopK(rank, m, k, t) && NoTieAtTheEdge(rank, m, s)
    ensures s == t
  {
    if s != t {
      var x, y := Differ(m, s, t);
    }
  }

  /** A choice of the best k is the only one if and only if no rejected address ties with a different chosen one. */
  lemma ChoiceIsDeterminedIff(rank: Ranking, m: multiset<Address>, k: nat, s: multiset<Address>)
    requires TopK(rank, m, k, s)
    ensures (forall t :: TopK(rank, m, k, t) ==> t == s) <==> NoTieAtTheEdge(rank, m, s)
  {
    if NoTieAtTheEdge(rank, m, s) {
      forall t | TopK(rank, m, k, t) ensures t == s {
        TwoChoices(rank, m, k, s, t);
      }
    } else {
      var x, y :| x in s && y in m - s && rank(x) == rank(y) && x != y;
      var t := s - multiset{x} + multiset{y};
      assert t[x] == s[x] - 1;
      assert m - t == m - s - multiset{y} + multiset{x};
      assert TopK(rank, m, k, t) && t != s;
    }
  }

  lemma {:induction false} BestOf(rank: Ranking, m: multiset<Address>) returns (w: Address)
    requires |m| > 0
    ensures w in m && forall y :: y in m ==> rank(y) <= rank(w)
    decreases |m|
  {
    w :| w in m;
    var rest := m - multiset{w};
    assert forall y :: y in m ==> y == w || y in rest;
    if rest != multiset{} {
      var v := BestOf(rank, rest);
      if rank(w) < rank(v) { w := v; }
    }
  }

  lemma {:induction false} WorstOf(rank: Ranking, m: multiset<Address>) returns (w: Address)
    requires |m| > 0
    ensures w in m && forall y :: y in m ==> rank(w) <= rank(y)
    decreases |m|
  {
    w :| w in m;
    var rest := m - multiset{w};
    assert forall y :: y in m ==> y == w || y in rest;
    if rest != multiset{} {
      var v := WorstOf(rank, rest);
      if rank(v) < rank(w) { w := v; }
    }
  }

  lemma Sizes(m: multiset<Address>, s: multiset<Address>)
    requires s <= m
    ensures |m| == |s| + |m - s|
  {
    assert m == s + (m - s);
  }

  lemma UnchosenIsNotNeeded(rank: Ranking, m: multiset<Address>, k: nat, s: multiset<Address>, y: Address)
    requires TopK(rank, m, k, s) && y in m - s
    ensures TopK(rank, m - multiset{y}, k, s)
  {
    var n := m - multiset{y};
    Sizes(m, s);
    assert forall v :: s[v] <= n[v];
    forall v | v in n - s ensures v in m - s {
      assert (n - s)[v] <= (m - s)[v];
    }
  }

  /** Losing an address that was not chosen changes nothing, unless what is left ties at the edge. */
  lemma RemovingUnchosenKeepsAll(rank: Ranking, m: multiset<Address>, k: nat, s: multiset<Address>, y: Address, t: multiset<Address>)
    requires TopK(rank, m, k, s) && y in m - s
    requires NoTieAtTheEdge(rank, m - multiset{y}, s) && TopK(rank, m - multiset{y}, k, t)
    ensures t == s
  {
    hide TopK, NoTieAtTheEdge;
    UnchosenIsNotNeeded(rank, m, k, s, y);
    TwoChoices(rank, m - multiset{y}, k, s, t);
  }

  /** The best rejected address moves up into the slot of a chosen one that goes away. */
  lemma Promotion(rank: Ranking, m: multiset<Address>, k: nat, s: multiset<Address>, x: Address, w: Address)
    requires TopK(rank, m, k, s) && x in s && w in m - s
    requires forall y :: y in m - s ==> rank(y) <= rank(w)
    ensures TopK(rank, m - multiset{x}, k, s - multiset{x} + multiset{w})
  {
    var n, c := m - multiset{x}, s - multiset{x} + multiset{w};
    Sizes(m, s);
    forall y | y in n - c ensures y in m - s {
      assert (n - c)[y] <= (m - s)[y];
    }
    forall z | z in c ensures z in s || z == w {
    }
    assert forall z :: c[z] <= n[z];
  }

  /** Losing a chosen address changes exactly its slot: the best rejected address, if any, takes it. */
  lemma RemovingChosenChangesOneSlot(rank: Ranking, m: multiset<Address>, k: nat, s: multiset<Address>, x: Address, t: multiset<Address>)
    requires TopK(rank, m, k, s) && x in s
    requires NoTieAtTheEdge(rank, m - multiset{x}, t) && TopK(rank, m - multiset{x}, k, t)
    ensures m == s ==> t == s - multiset{x}
    ensures m != s ==> exists w :: w in m - s && t == s - multiset{x} + multiset{w}
  {
    hide TopK, NoTieAtTheEdge;
    var n := m - multiset{x};
    if m == s {
      AllAreChosen(rank, m, k, s, x);
      TwoChoices(rank, n, k, t, n);
    } else {
      assert |m - s| > 0 by { Chosen(rank, m, k, s); Sizes(m, s); if |m - s| == 0 { SubMultiset(s, m); } }
      var w := BestOf(rank, m - s);
      Promotion(rank, m, k, s, x, w);
      TwoChoices(rank, n, k, t, s - multiset{x} + multiset{w});
    }
  }

  lemma Chosen(rank: Ranking, m: multiset<Address>, k: nat, s: multiset<Address>)
    requires TopK(rank, m, k, s)
    ensures s <= m && |s| == (if k < |m| then k else |m|)
  {
  }

  lemma AllAreChosen(rank: Ranking, m: multiset<Address>, k: nat, s: multiset<Address>, x: Address)
    requires TopK(rank, m, k, s) && m == s && x in m
    ensures TopK(rank, m - multiset{x}, k, m - multiset{x})
  {
  }

  /** A better newcomer takes the slot of the worst chosen address. */
  lemma Displacement(rank: Ranking, m: multiset<Address>, k: nat, s: multiset<Address>, z: Address, w: Address)
    requires TopK(rank, m, k, s) && w in s && k <= |m| && rank(w) < rank(z)
    requires forall y :: y in s ==> rank(w) <= rank(y)
    ensures TopK(rank, m + multiset{z}, k, s - multiset{w} + multiset{z})
  {
    var n, c := m + multiset{z}, s - multiset{w} + multiset{z};
    forall y | y in n - c ensures y in m - s || y == w {
      assert (n - c)[y] <= (m - s)[y] + (if y == w then 1 else 0);
    }
    forall v | v in c ensures v in s || v == z {
    }
    assert forall v :: c[v] <= n[v];
  }

  /** A new address displaces at most one chosen one. */
  lemma AddingReplacesAtMostOne(rank: Ranking, m: multiset<Address>, k: nat, s: multiset<Address>, z: Address, t: multiset<Address>)
    requires k > 0 && TopK(rank, m, k, s)
    requires NoTieAtTheEdge(rank, m + multiset{z}, t) && TopK(rank, m + multiset{z}, k, t)
    ensures if |m| < k then t == s + multiset{z} else t == s || exists w :: w in s && t == s - multiset{w} + multiset{z}
  {
    var n := m + multiset{z};
    if |m| < k {
      SubMultiset(s, m);
      assert TopK(rank, n, k, n);
      TwoChoices(rank, n, k, t, n);
    } else {
      var w := WorstOf(rank, s);
      if rank(w) < rank(z) {
        Displacement(rank, m, k, s, z, w);
        TwoChoices(rank, n, k, t, s - multiset{w} + multiset{z});
      } else {
        assert n - s == m - s + multiset{z};
        assert TopK(rank, n, k, s);
        TwoChoices(rank, n, k, t, s);
      }
    }
  }

  // ---------------------------------------------------------------- the heap in the caller's slice

  type Ranked = Entry<Address>

  ghost function Canonical(rank: Ranking, a: Address): Ranked {
    Entry(a, rank(a), 0)
  }

  /** `addressHeap` */
  class AddressHeap {
    /** The caller's slice; the heap is its first `ranks.Length` slots. */
    const addrs: array<Address>
    const ranks: array<Word>
    const key: seq<Byte>
    const hash: Hash32
    ghost var view: seq<Ranked>

    ghost predicate Shape()
      reads this, addrs, ranks, hash.Repr()
    {
      |view| == ranks.Length <= addrs.Length && hash.Valid()
    }

    ghost predicate Valid()
      reads this, addrs, ranks, hash.Repr()
    {
      && Shape()
      && (forall i :: 0 <= i < ranks.Length ==> view[i] == Entry(addrs[i], ranks[i], 0))
      && (forall i :: 0 <= i < ranks.Length ==> view[i] == Canonical(Ranks(hash, key), addrs[i]))
    }

    /** `rank`: the shared hash object is reset, then fed the key and the address. */
    method Rank(addr: Address) returns (r: Word)
      requires Shape()
      modifies hash.Repr()
      ensures Shape() && r == RankOf(hash, key, addr)
      ensures r == match hash
                   case Default(_) => HashOf(0, key + addr.hostPort)
                   case Custom(custom) => custom.sum(key + addr.hostPort)
    {
      hide HashOf, MurmurHash3.Valid;
      hash.Reset();
      hash.Write(key, []);
      hash.Write(addr.hostPort, [] + key);
      assert [] + key + addr.hostPort == key + addr.hostPort;
      r := hash.Sum32(key + addr.hostPort);
    }

    method Swap(i: nat, j: nat)
      requires Valid() && i < ranks.Length && j < ranks.Length
      modifies `view, addrs, ranks
      ensures Valid() && view == GoHeap.Swap(old(view), i, j)
      ensures addrs[ranks.Length..] == old(addrs[ranks.Length..])
    {
      hide HashOf, Body, Pack, RankOf, MurmurHash3.Valid;
      addrs[i], addrs[j] := addrs[j], addrs[i];
      ranks[i], ranks[j] := ranks[j], ranks[i];
      view := GoHeap.Swap(view, i, j);
    }

    method Down(i0: nat) returns (moved: bool)
      requires Valid() && i0 < ranks.Length
      modifies `view, addrs, ranks
      ensures Valid() && view == GoHeap.Down(old(view), i0).0 && (moved <==> GoHeap.Down(old(view), i0).1 > i0)
      ensures addrs[ranks.Length..] == old(addrs[ranks.Length..])
    {
      hide GoHeap.Down, RankOf;
      var i: nat := i0;
      while true
        invariant i0 <= i < ranks.Length && Valid() && addrs[ranks.Length..] == old(addrs[ranks.Length..])
        invariant GoHeap.Down(view, i) == GoHeap.Down(old(view), i0)
        decreases ranks.Length - i
      {
        var j1 := 2 * i + 1;
        if j1 >= ranks.Length { break; }
        var j := j1;
        var j2 := j1 + 1;
        if j2 < ranks.Length && ranks[j2] < ranks[j1] { j := j2; }
        assert j == SmallerChild(view, i);
        if ranks[j] >= ranks[i] { break; }
        DownUnfolds(view, i);
        Swap(i, j);
        i := j;
      }
      DownUnfolds(view, i);
      moved := i > i0;
    }

    method Up(j0: nat)
      requires Valid() && j0 < ranks.Length
      modifies `view, addrs, ranks
      ensures Valid() && view == GoHeap.Up(old(view), j0)
      ensures addrs[ranks.Length..] == old(addrs[ranks.Length..])
    {
      hide RankOf;
      var j: nat := j0;
      while true
        invariant j < ranks.Length && Valid() && addrs[ranks.Length..] == old(addrs[ranks.Length..])
        invariant GoHeap.Up(view, j) == GoHeap.Up(old(view), j0)
        decreases j
      {
        var i := Parent(j);
        if i == j || ranks[j] >= ranks[i] { break; }
        Swap(i, j);
        j := i;
      }
    }

    method Fix(i: nat)
      requires Valid() && i < ranks.Length
      modifies `view, addrs, ranks
      ensures Valid() && view == GoHeap.Fix(old(view), i)
      ensures addrs[ranks.Length..] == old(addrs[ranks.Length..])
    {
      var moved := Down(i);
      if !moved { Up(i); }
    }

    method Init()
      requires Valid()
      modifies `view, addrs, ranks
      ensures Valid() && view == GoHeap.Init(old(view))
      ensures addrs[ranks.Length..] == old(addrs[ranks.Length..])
    {
      hide GoHeap.Down, RankOf;
      var i: nat := ranks.Length / 2;
      while i > 0
        invariant i <= ranks.Length / 2 && Valid() && addrs[ranks.Length..] == old(addrs[ranks.Length..])
        invariant InitFrom(view, i) == GoHeap.Init(old(view))
      {
        i := i - 1;
        var _ := Down(i);
      }
    }

    /** `newAddressHeap` on the first `k` slots of `addrs`. */
    constructor (addrs: array<Address>, k: nat, key: seq<Byte>, hash: Hash32)
      requires k <= addrs.Length && hash.Valid()
      modifies addrs, hash.Repr()
      ensures Valid() && this.addrs == addrs && this.key == key && this.hash == hash && ranks.Length == k && fresh(ranks)
      ensures view == GoHeap.Init(Entries(Ranks(hash, key), old(addrs[..k]))) && addrs[k..] == old(addrs[k..])
    {
      hide RankOf, Canonical, MurmurHash3.Valid;
      this.addrs, this.key, this.hash := addrs, key, hash;
      ranks := new Word[k](i => 0);
      view := seq(k, i => Entry(Address([], 0), 0, 0));
      new;
      RankAll();
      assert view == Entries(Ranks(hash, key), addrs[..k]);
      Init();
    }

    /** Overwrite the root with a better address and restore the heap. */
    method ReplaceRoot(a: Address, rank: Word)
      requires Valid() && ranks.Length > 0 && rank == RankOf(hash, key, a)
      modifies `view, addrs, ranks
      ensures Valid() && view == GoHeap.Fix(old(view)[0 := Canonical(Ranks(hash, key), a)], 0)
      ensures addrs[ranks.Length..] == old(addrs[ranks.Length..])
    {
      hide RankOf, MurmurHash3.Valid;
      addrs[0] := a;
      ranks[0] := rank;
      view := view[0 := Canonical(Ranks(hash, key), a)];
      Fix(0);
    }

    method RankAll()
      requires Shape()
      modifies `view, ranks, hash.Repr()
      ensures Valid()
    {
      hide RankOf, MurmurHash3.Valid;
      for i := 0 to ranks.Length
        invariant Shape()
        invariant forall j :: 0 <= j < i ==> view[j] == Entry(addrs[j], ranks[j], 0) && view[j] == Canonical(Ranks(hash, key), addrs[j])
      {
        var r := Rank(addrs[i]);
        ranks[i] := r;
        view := view[i := Entry(addrs[i], r, 0)];
      }
    }
  }

  ghost function Items(v: seq<Ranked>): seq<Address> {
    seq(|v|, i requires 0 <= i < |v| => v[i].item)
  }

  ghost function Entries(rank: Ranking, addrs: seq<Address>): seq<Ranked> {
    seq(|addrs|, i requires 0 <= i < |addrs| => Canonical(rank, addrs[i]))
  }

  /** One iteration of the scan: a better address takes the root's place. */
  ghost function ScanOne(rank: Ranking, v: seq<Ranked>, a: Address): (r: seq<Ranked>)
    requires v != []
    ensures |r| == |v|
  {
    if rank(a) > v[0].major then Fix(v[0 := Canonical(rank, a)], 0) else v
  }

  ghost function Scan(rank: Ranking, v: seq<Ranked>, rest: seq<Address>): (r: seq<Ranked>)
    requires v != []
    ensures |r| == |v|
  {
    if rest == [] then v else ScanOne(rank, Scan(rank, v, rest[..|rest| - 1]), rest[|rest| - 1])
  }

  /** What `computeSubset` returns for a slice with these contents, in order. */
  ghost function Subset(rank: Ranking, input: seq<Address>, k: nat): seq<Address>
    requires k > 0
  {
    if |input| <= k then input else Items(Scan(rank, Init(Entries(rank, input[..k])), input[k..]))
  }

  /** In a sequence of correctly ranked entries an address occurs as often as its entry. */
  lemma {:induction false} ItemCount(rank: Ranking, v: seq<Ranked>, a: Address)
    requires forall i :: 0 <= i < |v| ==> v[i] == Canonical(rank, v[i].item)
    ensures multiset(Items(v))[a] == multiset(v)[Canonical(rank, a)]
  {
    if v != [] {
      var n := |v| - 1;
      ItemCount(rank, v[..n], a);
      assert v == v[..n] + [v[n]] && Items(v) == Items(v[..n]) + [v[n].item];
    }
  }

  lemma ItemsPermute(rank: Ranking, v: seq<Ranked>, w: seq<Ranked>)
    requires forall i :: 0 <= i < |v| ==> v[i] == Canonical(rank, v[i].item)
    requires forall i :: 0 <= i < |w| ==> w[i] == Canonical(rank, w[i].item)
    requires multiset(v) == multiset(w)
    ensures multiset(Items(v)) == multiset(Items(w))
  {
    hide Canonical, Items;
    forall a ensures multiset(Items(v))[a] == multiset(Items(w))[a] {
      ItemCount(rank, v, a);
      ItemCount(rank, w, a);
    }
  }

  /** The scan so far: the heap holds the best of what was seen, everything dropped ranks no higher than its root. */
  ghost predicate Scanned(rank: Ranking, v: seq<Ranked>, dropped: multiset<Address>, seen: multiset<Address>) {
    && v != [] && IsHeap(v) && (forall i :: 0 <= i < |v| ==> v[i] == Canonical(rank, v[i].item))
    && multiset(Items(v)) + dropped == seen
    && forall d :: d in dropped ==> rank(d) <= v[0].major
  }

  lemma ScanSkips(rank: Ranking, v: seq<Ranked>, dropped: multiset<Address>, seen: multiset<Address>, a: Address)
    requires Scanned(rank, v, dropped, seen) && rank(a) <= v[0].major
    ensures Scanned(rank, v, dropped + multiset{a}, seen + multiset{a})
  {
    hide IsHeap, Items, Canonical;
  }

  lemma ScanReplaces(rank: Ranking, v: seq<Ranked>, dropped: multiset<Address>, seen: multiset<Address>, a: Address)
    requires Scanned(rank, v, dropped, seen) && rank(a) > v[0].major
    ensures Scanned(rank, Fix(v[0 := Canonical(rank, a)], 0), dropped + multiset{v[0].item}, seen + multiset{a})
  {
    hide Fix, IsHeap;
    var x := Canonical(rank, a);
    var g := v[0 := x];
    var r := Fix(g, 0);
    FixPermutes(g, 0);
    FixAfterUpdate(v, 0, x);
    assert |r| == |g|;
    forall i | 0 <= i < |r| ensures r[i] == Canonical(rank, r[i].item) && v[0].major <= r[i].major {
      assert r[i] in multiset(g);
      var j :| 0 <= j < |g| && g[j] == r[i];
      RootIsLeast(v, j);
    }
    assert Items(g) == Items(v)[0 := a];
    ItemsPermute(rank, g, r);
  }

  lemma ScanIsTopK(rank: Ranking, v: seq<Ranked>, dropped: multiset<Address>, seen: multiset<Address>)
    requires Scanned(rank, v, dropped, seen)
    ensures TopK(rank, seen, |v|, multiset(Items(v)))
  {
    hide IsHeap;
    var s := multiset(Items(v));
    assert seen - s == dropped;
    assert |s| == |v|;
    forall x, y | x in s && y in seen - s ensures rank(y) <= rank(x) {
      assert x in Items(v);
      var i :| 0 <= i < |v| && Items(v)[i] == x;
      RootIsLeast(v, i);
    }
  }

  /** Scanning keeps the best of what was seen. */
  lemma {:induction false} ScanKeepsBest(rank: Ranking, v: seq<Ranked>, rest: seq<Address>, seen: multiset<Address>) returns (dropped: multiset<Address>)
    requires Scanned(rank, v, multiset{}, seen)
    ensures v != [] && Scanned(rank, Scan(rank, v, rest), dropped, seen + multiset(rest))
  {
    hide Fix, Scanned, Canonical;
    assert v != [] by { ScannedIsNotEmpty(rank, v, multiset{}, seen); }
    if rest == [] {
      dropped := multiset{};
      assert seen + multiset(rest) == seen;
    } else {
      var front, a := rest[..|rest| - 1], rest[|rest| - 1];
      dropped := ScanKeepsBest(rank, v, front, seen);
      var u := Scan(rank, v, front);
      assert rest == front + [a];
      assert seen + multiset(rest) == seen + multiset(front) + multiset{a};
      if rank(a) > u[0].major {
        ScanReplaces(rank, u, dropped, seen + multiset(front), a);
        dropped := dropped + multiset{u[0].item};
      } else {
        ScanSkips(rank, u, dropped, seen + multiset(front), a);
        dropped := dropped + multiset{a};
      }
    }
  }

  lemma ScannedIsNotEmpty(rank: Ranking, v: seq<Ranked>, dropped: multiset<Address>, seen: multiset<Address>)
    requires Scanned(rank, v, dropped, seen)
    ensures v != []
  {
  }

  /** The heap of the first k addresses, before the scan. */
  lemma HeapOfFirst(rank: Ranking, addrs: seq<Address>)
    requires addrs != []
    ensures var v := Init(Entries(rank, addrs));
            Scanned(rank, v, multiset{}, multiset(addrs)) && v[0].item in addrs && v[0].major == rank(v[0].item)
  {
    hide Init, IsHeap;
    var e := Entries(rank, addrs);
    var v := Init(e);
    InitMakesHeap(e);
    InitPermutes(e);
    assert Items(e) == addrs;
    forall i | 0 <= i < |v| ensures v[i] == Canonical(rank, v[i].item) && v[i].item in addrs {
      assert v[i] in multiset(e);
      var j :| 0 <= j < |e| && e[j] == v[i];
      assert v[i].item == addrs[j];
    }
    ItemsPermute(rank, e, v);
  }

  /** The subset is a choice of the k best-ranked addresses. */
  lemma SubsetIsTopK(rank: Ranking, input: seq<Address>, k: nat)
    requires k > 0
    ensures TopK(rank, multiset(input), k, multiset(Subset(rank, input, k)))
  {
    hide Scanned, Init, Scan, Entries, Canonical, Items;
    if |input| > k {
      var v := Init(Entries(rank, input[..k]));
      EntriesLength(rank, input[..k]);
      HeapOfFirst(rank, input[..k]);
      var dropped := ScanKeepsBest(rank, v, input[k..], multiset(input[..k]));
      assert input == input[..k] + input[k..];
      ScanIsTopK(rank, Scan(rank, v, input[k..]), dropped, multiset(input));
    }
  }

  lemma EntriesLength(rank: Ranking, addrs: seq<Address>)
    ensures |Init(Entries(rank, addrs))| == |addrs|
  {
    hide Init;
  }

  // ---------------------------------------------------------------- the order of the input

  /** No address after the first k ranks higher than one of them. */
  ghost predicate BestFirst(rank: Ranking, input: seq<Address>, k: nat)
    requires k <= |input|
  {
    forall x, y :: x in input[..k] && y in input[k..] ==> rank(y) <= rank(x)
  }

  lemma {:induction false} NothingReplaced(rank: Ranking, v: seq<Ranked>, rest: seq<Address>)
    requires v != [] && forall y :: y in rest ==> rank(y) <= v[0].major
    ensures Scan(rank, v, rest) == v
  {
    if rest != [] {
      NothingReplaced(rank, v, rest[..|rest| - 1]);
    }
  }

  /** If the first k addresses are a choice of the best already, they are the subset: a later address never wins a tie. */
  lemma FirstBestAreKept(rank: Ranking, input: seq<Address>, k: nat)
    requires 0 < k <= |input| && BestFirst(rank, input, k)
    ensures multiset(Subset(rank, input, k)) == multiset(input[..k])
  {
    hide Init, Scan, Canonical, IsHeap, Entries;
    if |input| > k {
      var v := Init(Entries(rank, input[..k]));
      EntriesLength(rank, input[..k]);
      HeapOfFirst(rank, input[..k]);
      NothingReplaced(rank, v, input[k..]);
    } else {
      assert input[..k] == input;
    }
  }

  lemma {:induction false} Enumerate(m: multiset<Address>) returns (s: seq<Address>)
    ensures multiset(s) == m
    decreases |m|
  {
    if m == multiset{} {
      s := [];
    } else {
      var a :| a in m;
      s := Enumerate(m - multiset{a});
      s := [a] + s;
    }
  }

  /** A choice of the best k is what `computeSubset` returns for some order of the same addresses. */
  lemma EveryChoiceIsReturned(rank: Ranking, m: multiset<Address>, k: nat, t: multiset<Address>) returns (input: seq<Address>)
    requires k > 0 && TopK(rank, m, k, t)
    ensures multiset(input) == m && multiset(Subset(rank, input, k)) == t
  {
    hide Subset;
    var first := Enumerate(t);
    var rest := Enumerate(m - t);
    input := first + rest;
    assert m == t + (m - t);
    assert |first| == |t| && |m| == |t| + |m - t| && |multiset(rest)| == |rest|;
    if k <= |m| {
      assert input[..k] == first && input[k..] == rest;
      forall x, y | x in input[..k] && y in input[k..] ensures rank(y) <= rank(x) {
        assert x in multiset(first) && y in multiset(rest);
      }
      FirstBestAreKept(rank, input, k);
    } else {
      SubMultiset(t, m);
      ShortInput(rank, input, k);
    }
  }

  lemma ShortInput(rank: Ranking, input: seq<Address>, k: nat)
    requires k > 0 && |input| <= k
    ensures Subset(rank, input, k) == input
  {
  }

  /**
   The promise of the same addresses for the same key and k, exactly: two orders of the same addresses can
   give different subsets if and only if some rejected address ties in rank with a different chosen one, in
   any choice of the k best that the caller cares to make.
   */
  lemma OrderMattersIff(rank: Ranking, input: seq<Address>, k: nat, s: multiset<Address>)
    requires k > 0 && TopK(rank, multiset(input), k, s)
    ensures (exists other :: multiset(other) == multiset(input) && multiset(Subset(rank, other, k)) != multiset(Subset(rank, input, k)))
            <==> !NoTieAtTheEdge(rank, multiset(input), s)
  {
    hide Subset, TopK, NoTieAtTheEdge;
    var m, c := multiset(input), multiset(Subset(rank, input, k));
    SubsetIsTopK(rank, input, k);
    ChoiceIsDeterminedIff(rank, m, k, s);
    if NoTieAtTheEdge(rank, m, s) {
      forall other | multiset(other) == m ensures multiset(Subset(rank, other, k)) == c {
        SubsetIsTopK(rank, other, k);
      }
    } else {
      var t :| TopK(rank, m, k, t) && t != s;
      var other := EveryChoiceIsReturned(rank, m, k, if t == c then s else t);
    }
  }

  /** A failing input, whatever hash and key: one host:port with different attributes, in either order. */
  lemma TiedPair(hash: Hash32, key: seq<Byte>, host: seq<Byte>, p: int, q: int)
    requires p != q
    ensures var a, b := Address(host, p), Address(host, q);
            && multiset([a, b]) == multiset([b, a])
            && multiset(Subset(Ranks(hash, key), [a, b], 1)) == multiset{a} && multiset(Subset(Ranks(hash, key), [b, a], 1)) == multiset{b}
  {
    hide Subset, Hash32.SumOf;
    var a, b := Address(host, p), Address(host, q);
    assert Ranks(hash, key)(a) == Ranks(hash, key)(b);
    assert [a, b][..1] == [a] && [a, b][1..] == [b] && [b, a][..1] == [b] && [b, a][1..] == [a];
    FirstBestAreKept(Ranks(hash, key), [a, b], 1);
    FirstBestAreKept(Ranks(hash, key), [b, a], 1);
  }

  // ---------------------------------------------------------------- stability, exactly

  /** Enough rejected addresses tie with one of `a` to push a copy of it out of the choice `c`. */
  ghost predicate CanOust(rank: Ranking, n: multiset<Address>, c: multiset<Address>, a: multiset<Address>) {
    exists u, rivals :: u in a && Rivals(rank, n - c, u, rivals) && |rivals| + a[u] == c[u] + 1
  }

  ghost predicate Rivals(rank: Ranking, rejected: multiset<Address>, u: Address, rivals: multiset<Address>) {
    rivals <= rejected && forall v :: v in rivals ==> v != u && rank(v) == rank(u)
  }

  lemma {:induction false} Part(m: multiset<Address>, q: nat) returns (p: multiset<Address>)
    requires q <= |m|
    ensures p <= m && |p| == q
    decreases q
  {
    if q == 0 {
      p := multiset{};
    } else {
      var a :| a in m;
      p := Part(m - multiset{a}, q - 1);
      p := p + multiset{a};
    }
  }

  /** A copy of `u` less than `a` has of it, and tied addresses in its place. */
  lemma Oust(rank: Ranking, n: multiset<Address>, k: nat, c: multiset<Address>, a: multiset<Address>, u: Address, rivals: multiset<Address>)
    returns (t: multiset<Address>)
    requires TopK(rank, n, k, c) && a <= c && u in a && Rivals(rank, n - c, u, rivals) && |rivals| + a[u] == c[u] + 1
    ensures TopK(rank, n, k, t) && !(a <= t)
  {
    var q := |rivals|;
    var less := c[u := c[u] - q];
    t := less + rivals;
    assert rivals != multiset{};
    var v :| v in rivals;
    assert c == less + multiset{}[u := q];
    assert |multiset{}[u := q]| == q;
    assert t[u] == c[u] - q;
    forall x ensures t[x] <= n[x] {
      assert rivals[x] <= n[x] - c[x] || rivals[x] == 0;
    }
    forall x, y | x in t && y in n - t ensures rank(y) <= rank(x) {
      assert x in c || x in rivals;
      assert y == u || y in n - c by { assert (n - t)[y] <= (n - c)[y] + (if y == u then q else 0); }
      assert v in n - c && u in c;
    }
  }

  /** Whatever choice of the k best is made, it has all of `a` in it, if and only if no rival can push one out. */
  lemma KeptByAllIff(rank: Ranking, n: multiset<Address>, k: nat, c: multiset<Address>, a: multiset<Address>)
    requires TopK(rank, n, k, c) && a <= c
    ensures (forall t :: TopK(rank, n, k, t) ==> a <= t) <==> !CanOust(rank, n, c, a)
  {
    hide TopK;
    if CanOust(rank, n, c, a) {
      var u, rivals :| u in a && Rivals(rank, n - c, u, rivals) && |rivals| + a[u] == c[u] + 1;
      var t := Oust(rank, n, k, c, a, u, rivals);
    } else {
      forall t | TopK(rank, n, k, t) ensures a <= t {
        if !(a <= t) { FindRivals(rank, n, k, c, a, t); }
      }
    }
  }

  lemma FindRivals(rank: Ranking, n: multiset<Address>, k: nat, c: multiset<Address>, a: multiset<Address>, t: multiset<Address>)
    requires TopK(rank, n, k, c) && a <= c && TopK(rank, n, k, t) && !(a <= t)
    ensures CanOust(rank, n, c, a)
  {
    var u :| a[u] > t[u];
    assert c == (c * t) + (c - t) && t == (c * t) + (t - c);
    assert |c - t| == |t - c|;
    assert (c - t)[u] == c[u] - t[u];
    CountBound(c - t, u);
    var rivals := Part(t - c, c[u] - a[u] + 1);
    forall v | v in rivals ensures v in n - c && v != u && rank(v) == rank(u) {
      assert v in t - c && u in n - t;
    }
    assert Rivals(rank, n - c, u, rivals) by {
      forall v ensures rivals[v] <= (n - c)[v] {
        assert rivals[v] <= (t - c)[v];
      }
    }
  }

  lemma CountBound(m: multiset<Address>, u: Address)
    ensures m[u] <= |m|
  {
    assert m == m[u := 0] + multiset{}[u := m[u]];
    assert |multiset{}[u := m[u]]| == m[u];
  }

  /** The order in which the worst addresses come first. */
  function Reversed(rank: Ranking): Ranking {
    a => TWO_32 - 1 - rank(a)
  }

  /** What is not chosen is a choice of the worst. */
  lemma RejectedAreWorst(rank: Ranking, n: multiset<Address>, k: nat, t: multiset<Address>)
    requires t <= n && k <= |n|
    ensures TopK(rank, n, k, t) <==> TopK(Reversed(rank), n, |n| - k, n - t)
  {
    assert n - (n - t) == t;
    Sizes(n, t);
  }

  /** Enough chosen addresses tie with one outside `b` to let a copy of it into the choice `c`. */
  ghost predicate CanEnter(rank: Ranking, n: multiset<Address>, c: multiset<Address>, b: multiset<Address>) {
    exists v, rivals :: v in n - b && Rivals(rank, c, v, rivals) && |rivals| + (n - b)[v] == (n - c)[v] + 1
  }

  lemma Flip(n: multiset<Address>, x: multiset<Address>, y: multiset<Address>)
    requires x <= n && y <= n
    ensures x <= y <==> n - y <= n - x
    ensures n - (n - x) == x
  {
    if n - y <= n - x {
      forall a ensures x[a] <= y[a] {
        assert (n - y)[a] <= (n - x)[a];
      }
    }
  }

  /** Whatever choice of the k best is made, it lies within `b`, if and only if no rival can let one in. */
  lemma WithinForAllIff(rank: Ranking, n: multiset<Address>, k: nat, c: multiset<Address>, b: multiset<Address>)
    requires k <= |n| && TopK(rank, n, k, c) && c <= b <= n
    ensures (forall t :: TopK(rank, n, k, t) ==> t <= b) <==> !CanEnter(rank, n, c, b)
  {
    hide TopK, CanOust, CanEnter, Reversed;
    var back := Reversed(rank);
    RejectedAreWorst(rank, n, k, c);
    Flip(n, c, b);
    KeptByAllIff(back, n, |n| - k, n - c, n - b);
    SameRivals(rank, n, c, b);
    if t :| TopK(rank, n, k, t) && !(t <= b) {
      Chosen(rank, n, k, t);
      RejectedAreWorst(rank, n, k, t);
      Flip(n, t, b);
      assert TopK(back, n, |n| - k, n - t) && !(n - b <= n - t);
    } else {
      forall t | TopK(back, n, |n| - k, t) ensures n - b <= t {
        Chosen(back, n, |n| - k, t);
        Flip(n, t, n - b);
        RejectedAreWorst(rank, n, k, n - t);
        Flip(n, n - t, b);
      }
    }
  }

  lemma SameRivals(rank: Ranking, n: multiset<Address>, c: multiset<Address>, b: multiset<Address>)
    requires c <= n
    ensures CanOust(Reversed(rank), n, n - c, n - b) <==> CanEnter(rank, n, c, b)
  {
    assert n - (n - c) == c;
    assert forall v, rivals :: Rivals(Reversed(rank), c, v, rivals) <==> Rivals(rank, c, v, rivals);
  }

  /**
   Losing an unchosen address changes nothing, in any order of what is left, if and only if what is left
   has no tie at the edge.
   */
  lemma RemovingUnchosenIff(rank: Ranking, input: seq<Address>, k: nat, y: Address)
    requires k > 0 && y in multiset(input) - multiset(Subset(rank, input, k))
    ensures var n, s := multiset(input) - multiset{y}, multiset(Subset(rank, input, k));
            (forall rest :: multiset(rest) == n ==> multiset(Subset(rank, rest, k)) == s) <==> NoTieAtTheEdge(rank, n, s)
  {
    hide Subset, TopK, NoTieAtTheEdge;
    var n, s := multiset(input) - multiset{y}, multiset(Subset(rank, input, k));
    SubsetIsTopK(rank, input, k);
    UnchosenIsNotNeeded(rank, multiset(input), k, s, y);
    ChoiceIsDeterminedIff(rank, n, k, s);
    if NoTieAtTheEdge(rank, n, s) {
      forall rest | multiset(rest) == n ensures multiset(Subset(rank, rest, k)) == s {
        SubsetIsTopK(rank, rest, k);
      }
    } else {
      var t :| TopK(rank, n, k, t) && t != s;
      var rest := EveryChoiceIsReturned(rank, n, k, t);
    }
  }

  /** `t` is `s` with the slot of `x` taken by a rejected address. */
  ghost predicate OneSlotChanged(m: multiset<Address>, s: multiset<Address>, x: Address, t: multiset<Address>) {
    exists w :: w in m - s && t == s - multiset{x} + multiset{w}
  }

  lemma OneSlotMeans(m: multiset<Address>, s: multiset<Address>, x: Address, t: multiset<Address>)
    requires s <= m && x in s && t <= m - multiset{x} && |t| == |s|
    ensures OneSlotChanged(m, s, x, t) <==> s - multiset{x} <= t
  {
    if s - multiset{x} <= t {
      TakenIn(m, s, x, t);
    }
  }

  lemma TakenIn(m: multiset<Address>, s: multiset<Address>, x: Address, t: multiset<Address>)
    requires s <= m && x in s && s - multiset{x} <= t <= m - multiset{x} && |t| == |s|
    ensures exists w :: w in m - s && t == s - multiset{x} + multiset{w}
  {
    var kept := s - multiset{x};
    var rest := t - kept;
    Sizes(t, kept);
    var w :| w in rest;
    SubMultiset(multiset{w}, rest);
    assert t == kept + multiset{w};
    assert (m - s)[w] >= rest[w];
  }

  /**
   Losing a chosen address changes exactly its slot, in any order of what is left, if and only if no kept
   address can be pushed out by rejected ones that tie with it. `w` is a best rejected address.
   */
  lemma RemovingChosenIff(rank: Ranking, input: seq<Address>, k: nat, x: Address, w: Address)
    requires k > 0 && x in multiset(Subset(rank, input, k)) && w in multiset(input) - multiset(Subset(rank, input, k))
    requires forall y :: y in multiset(input) - multiset(Subset(rank, input, k)) ==> rank(y) <= rank(w)
    ensures var m, s := multiset(input), multiset(Subset(rank, input, k));
            var n, kept := m - multiset{x}, s - multiset{x};
            (forall rest :: multiset(rest) == n ==> OneSlotChanged(m, s, x, multiset(Subset(rank, rest, k))))
            <==> !CanOust(rank, n, kept + multiset{w}, kept)
  {
    hide Subset, TopK, CanOust, OneSlotChanged;
    var m, s := multiset(input), multiset(Subset(rank, input, k));
    var n, kept := m - multiset{x}, s - multiset{x};
    SubsetIsTopK(rank, input, k);
    Promotion(rank, m, k, s, x, w);
    KeptByAllIff(rank, n, k, kept + multiset{w}, kept);
    Chosen(rank, m, k, s);
    Chosen(rank, n, k, kept + multiset{w});
    if !CanOust(rank, n, kept + multiset{w}, kept) {
      forall rest | multiset(rest) == n ensures OneSlotChanged(m, s, x, multiset(Subset(rank, rest, k))) {
        var t := multiset(Subset(rank, rest, k));
        SubsetIsTopK(rank, rest, k);
        Chosen(rank, n, k, t);
        OneSlotMeans(m, s, x, t);
      }
    } else {
      var t :| TopK(rank, n, k, t) && !(kept <= t);
      Chosen(rank, n, k, t);
      OneSlotMeans(m, s, x, t);
      var rest := EveryChoiceIsReturned(rank, n, k, t);
    }
  }

  ghost predicate OneReplaced(s: multiset<Address>, z: Address, t: multiset<Address>) {
    t == s || exists w :: w in s && t == s - multiset{w} + multiset{z}
  }

  lemma OneReplacedMeans(s: multiset<Address>, z: Address, t: multiset<Address>)
    requires |t| == |s|
    ensures OneReplaced(s, z, t) <==> t <= s + multiset{z}
  {
    if t <= s + multiset{z} && t != s {
      LeftOut(s, z, t);
    }
  }

  lemma LeftOut(s: multiset<Address>, z: Address, t: multiset<Address>)
    requires |t| == |s| && t <= s + multiset{z} && t != s
    ensures exists w :: w in s && t == s - multiset{w} + multiset{z}
  {
    var both := s + multiset{z};
    var out := both - t;
    Sizes(both, t);
    var w :| w in out;
    SubMultiset(multiset{w}, out);
    assert t == both - multiset{w};
    assert both - multiset{z} == s;
    assert t == s - multiset{w} + multiset{z};
  }

  /**
   A new address displaces at most one chosen one, in any order of the new list, if and only if no address
   rejected before can come in by a tie. `c` is any choice among the old ones and the newcomer.
   */
  lemma AddingIff(rank: Ranking, input: seq<Address>, k: nat, z: Address, c: multiset<Address>)
    requires 0 < k <= |input|
    requires TopK(rank, multiset(input) + multiset{z}, k, c) && c <= multiset(Subset(rank, input, k)) + multiset{z}
    ensures var n, s := multiset(input) + multiset{z}, multiset(Subset(rank, input, k));
            (forall more :: multiset(more) == n ==> OneReplaced(s, z, multiset(Subset(rank, more, k))))
            <==> !CanEnter(rank, n, c, s + multiset{z})
  {
    hide Subset, TopK, CanEnter, OneReplaced;
    var n, s := multiset(input) + multiset{z}, multiset(Subset(rank, input, k));
    SubsetIsTopK(rank, input, k);
    Chosen(rank, multiset(input), k, s);
    assert |multiset(input)| == |input|;
    WithinForAllIff(rank, n, k, c, s + multiset{z});
    if !CanEnter(rank, n, c, s + multiset{z}) {
      forall more | multiset(more) == n ensures OneReplaced(s, z, multiset(Subset(rank, more, k))) {
        var t := multiset(Subset(rank, more, k));
        SubsetIsTopK(rank, more, k);
        Chosen(rank, n, k, t);
        OneReplacedMeans(s, z, t);
      }
    } else {
      var t :| TopK(rank, n, k, t) && !(t <= s + multiset{z});
      Chosen(rank, n, k, t);
      OneReplacedMeans(s, z, t);
      var more := EveryChoiceIsReturned(rank, n, k, t);
    }
  }

  /** Such a choice exists: the old one, or the old one with its worst address replaced. */
  lemma ChoiceWithNewcomer(rank: Ranking, m: multiset<Address>, k: nat, s: multiset<Address>, z: Address) returns (c: multiset<Address>)
    requires 0 < k <= |m| && TopK(rank, m, k, s)
    ensures TopK(rank, m + multiset{z}, k, c) && c <= s + multiset{z}
  {
    var w := WorstOf(rank, s);
    if rank(w) < rank(z) {
      Displacement(rank, m, k, s, z, w);
      c := s - multiset{w} + multiset{z};
    } else {
      assert m + multiset{z} - s == m - s + multiset{z};
      c := s;
    }
  }

  /** A failing input: `y` was not chosen, and without it the tie between `p` and `q` falls the other way. */
  lemma UnchosenMatters(rank: Ranking, y: Address, p: Address, q: Address, r: Address)
    requires p != q && rank(y) == 1 && rank(p) == rank(q) == 5 && rank(r) == 6
    ensures multiset(Subset(rank, [y, p, q, r], 2)) == multiset{p, r}
    ensures multiset(Subset(rank, [p, q, r], 2)) == multiset{q, r}
  {
    var ey, ep, eq, er := Canonical(rank, y), Canonical(rank, p), Canonical(rank, q), Canonical(rank, r);
    TwoSlots(rank, y, p);
    TwoSlots(rank, p, q);
    assert [y, p, q, r][..2] == [y, p] && [y, p, q, r][2..] == [q, r];
    assert [p, q, r][..2] == [p, q] && [p, q, r][2..] == [r];
    OneMoreScanned(rank, ey, ep, q);
    OneMoreScanned(rank, eq, ep, r);
    OneMoreScanned(rank, ep, eq, r);
    assert [q, r][..1] == [q] && [q][..0] == [] && [r][..0] == [];
    assert Scan(rank, [ey, ep], [q]) == [eq, ep];
    assert Scan(rank, [ey, ep], [q, r]) == [ep, er];
    assert Scan(rank, [ep, eq], [r]) == [eq, er];
    assert Items([ep, er]) == [p, r] && Items([eq, er]) == [q, r];
  }

  /** A hash of the last byte. */
  function LastByte(data: seq<Byte>): Word {
    if data == [] then 0 else data[|data| - 1]
  }

  /** Such a ranking, whatever the key: four hosts under a hash of the caller's choice, two of which collide. */
  lemma UnchosenMattersForHash(hash: Hash32, key: seq<Byte>)
    requires hash.Custom? && hash.custom.sum == LastByte
    ensures var rank := Ranks(hash, key);
            var y, p, q, r := Address([1], 0), Address([5], 0), Address([0, 5], 0), Address([6], 0);
            && multiset(Subset(rank, [y, p, q, r], 2)) == multiset{p, r}
            && multiset(Subset(rank, [p, q, r], 2)) == multiset{q, r}
  {
    var rank := Ranks(hash, key);
    var y, p, q, r := Address([1], 0), Address([5], 0), Address([0, 5], 0), Address([6], 0);
    assert rank(y) == LastByte(key + [1]) == 1 && rank(r) == LastByte(key + [6]) == 6;
    assert rank(p) == LastByte(key + [5]) == 5 && rank(q) == LastByte(key + [0, 5]) == 5;
    assert p.hostPort != q.hostPort;
    hide Subset, Ranks;
    UnchosenMatters(rank, y, p, q, r);
  }

  /** 1 for two equal bytes, 0 for all other data. */
  function IsPair(data: seq<Byte>): Word {
    if |data| == 2 && data[0] == data[1] then 1 else 0
  }

  /** Clients with different keys can get different subsets of the same addresses. */
  lemma KeyMatters(hash: Hash32)
    requires hash.Custom? && hash.custom.sum == IsPair
    ensures var a, b := Address([5], 0), Address([6], 0);
            && Subset(Ranks(hash, [5]), [a, b], 1) == [a] && Subset(Ranks(hash, [6]), [a, b], 1) == [b]
            && Subset(Ranks(hash, [5]), [b, a], 1) == [a] && Subset(Ranks(hash, [6]), [b, a], 1) == [b]
  {
    var a, b := Address([5], 0), Address([6], 0);
    assert [5] + a.hostPort == [5, 5] && [5] + b.hostPort == [5, 6] && [6] + a.hostPort == [6, 5] && [6] + b.hostPort == [6, 6];
    var five, six := Ranks(hash, [5]), Ranks(hash, [6]);
    assert five(a) == IsPair([5, 5]) == 1 && five(b) == IsPair([5, 6]) == 0;
    assert six(a) == IsPair([6, 5]) == 0 && six(b) == IsPair([6, 6]) == 1;
    assert a != b;
    hide Ranks;
    BestOfTwo(five, a, b);
    BestOfTwo(six, b, a);
  }

  lemma BestOfTwo(rank: Ranking, best: Address, other: Address)
    requires rank(best) > rank(other)
    ensures Subset(rank, [best, other], 1) == [best] && Subset(rank, [other, best], 1) == [best]
  {
    OnlyBest(rank, [best, other], best, other);
    OnlyBest(rank, [other, best], best, other);
  }

  lemma OnlyBest(rank: Ranking, input: seq<Address>, best: Address, other: Address)
    requires rank(best) > rank(other) && (input == [best, other] || input == [other, best])
    ensures Subset(rank, input, 1) == [best]
  {
    var k, s := 1, Subset(rank, input, 1);
    SubsetIsTopK(rank, input, k);
    hide Subset, TopK, NoTieAtTheEdge;
    assert multiset(input) == multiset{best, other};
    SingleBest(rank, multiset(input), k, best, other);
    TwoChoices(rank, multiset(input), k, multiset{best}, multiset(s));
    OnlyMember(s, best);
  }

  lemma OnlyMember(s: seq<Address>, x: Address)
    requires multiset(s) == multiset{x}
    ensures s == [x]
  {
    assert |s| == |multiset(s)| == 1 && s[0] in multiset(s);
  }

  lemma SingleBest(rank: Ranking, m: multiset<Address>, k: nat, best: Address, other: Address)
    requires rank(best) > rank(other) && m == multiset{best, other} && k == 1
    ensures TopK(rank, m, k, multiset{best}) && NoTieAtTheEdge(rank, m, multiset{best})
  {
    assert m - multiset{best} == multiset{other};
  }

  lemma TwoSlots(rank: Ranking, a: Address, b: Address)
    requires rank(a) <= rank(b)
    ensures Init(Entries(rank, [a, b])) == [Canonical(rank, a), Canonical(rank, b)]
  {
    var v := [Canonical(rank, a), Canonical(rank, b)];
    assert Entries(rank, [a, b]) == v;
    assert Down(v, 0) == (v, 0);
    assert InitFrom(v, 0) == v;
    assert InitFrom(v, 1) == InitFrom(Down(v, 0).0, 0);
  }

  lemma OneMoreScanned(rank: Ranking, root: Ranked, other: Ranked, a: Address)
    requires root.major < rank(a) && root.minor == other.minor == 0
    ensures ScanOne(rank, [root, other], a) == if other.major < rank(a) then [other, Canonical(rank, a)] else [Canonical(rank, a), other]
  {
    var x := Canonical(rank, a);
    assert [root, other][0 := x] == [x, other];
    assert SmallerChild([x, other], 0) == 1;
    assert Swap([x, other], 0, 1) == [other, x];
    assert Down([other, x], 1) == ([other, x], 1);
  }

  // ---------------------------------------------------------------- computeSubset

  /**
   `computeSubset`: the first `n` slots of the slice end up holding min(length, k) of its original
   addresses, every selected rank at least every rejected one, although the heap overwrites those
   very slots while the rest of the slice is still being read.
   */
  method ComputeSubset(addrs: array<Address>, k: nat, key: seq<Byte>, hash: Hash32) returns (n: nat)
    requires k > 0 && hash.Valid()
    modifies addrs, hash.Repr()
    ensures n == (if k < addrs.Length then k else addrs.Length)
    ensures addrs[..n] == Subset(Ranks(hash, key), old(addrs[..]), k)
    ensures TopK(Ranks(hash, key), multiset(old(addrs[..])), k, multiset(addrs[..n]))
    ensures addrs.Length <= k ==> addrs[..] == old(addrs[..])
    ensures addrs[n..] == old(addrs[n..])
  {
    hide RankOf, HashOf, MurmurHash3.Valid, GoHeap.Fix, GoHeap.Init, Items, Entries, Canonical, TopK;
    SubsetIsTopK(Ranks(hash, key), addrs[..], k);
    if addrs.Length <= k {
      assert addrs[..addrs.Length] == addrs[..];
      return addrs.Length;
    }
    n := k;
    ghost var input := addrs[..];
    ghost var first := GoHeap.Init(Entries(Ranks(hash, key), input[..k]));
    assert input[..k] == addrs[..k];
    var h := new AddressHeap(addrs, k, key, hash);
    for i := k to addrs.Length
      invariant h.Valid() && h.addrs == addrs && h.key == key && h.hash == hash && h.ranks.Length == k && fresh(h) && fresh(h.ranks)
      invariant |first| == k && h.view == Scan(Ranks(hash, key), first, input[k..i])
      invariant addrs[k..] == input[k..]
    {
      assert addrs[k..][i - k] == input[k..][i - k];
      assert input[k..i + 1][..i - k] == input[k..i];
      var rank := h.Rank(addrs[i]);
      if rank > h.ranks[0] {
        h.ReplaceRoot(addrs[i], rank);
      }
    }
    assert input[k..addrs.Length] == input[k..];
    ItemsAre(h.view, addrs[..k]);
  }

  lemma ItemsAre(v: seq<Ranked>, addrs: seq<Address>)
    requires |v| == |addrs| && forall i :: 0 <= i < |v| ==> v[i].item == addrs[i]
    ensures Items(v) == addrs
  {
  }
}

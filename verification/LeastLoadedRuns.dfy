/**
 What the least-loaded pickers promise over whole runs: which connections `update` leaves in the
 heap, exactly when heap order survives, that loads stay level, and round-robin tie-breaking.
 */
module LeastLoadedRuns {
  import opened Collections
  import opened GoHeap
  import opened LeastLoadedSpec
  import Words32

  // ---------------------------------------------------------------- permutations

  ghost function ItemSeq(v: seq<Slot>): seq<ConnItem> {
    seq(|v|, k requires 0 <= k < |v| => v[k].item)
  }

  ghost predicate DistinctItems(v: seq<Slot>) {
    NoDup(ItemSeq(v))
  }

  /** Loads and tie-breaks are unsigned. */
  ghost predicate Unsigned(v: seq<Slot>) {
    forall e :: e in v ==> 0 <= e.major < TWO_64 && 0 <= e.minor < TWO_64
  }

  lemma DistinctByCard(v: seq<Slot>)
    ensures DistinctItems(v) <==> |ItemsOf(v)| == |v|
  {
    NoDupCard(ItemSeq(v));
    forall k | 0 <= k < |v| ensures v[k].item in ItemSeq(v) {
      assert ItemSeq(v)[k] == v[k].item;
    }
    assert ToSet(ItemSeq(v)) == ItemsOf(v);
  }

  lemma ConnsByCard(v: seq<Slot>)
    ensures NoDup(ConnsOf(v)) <==> |ItemConns(v)| == |v|
  {
    NoDupCard(ConnsOf(v));
    forall k | 0 <= k < |v| ensures v[k].item.conn in ConnsOf(v) {
      assert ConnsOf(v)[k] == v[k].item.conn;
    }
    assert ToSet(ConnsOf(v)) == ItemConns(v);
  }

  lemma PermutationMembers(v: seq<Slot>, r: seq<Slot>)
    requires multiset(v) == multiset(r)
    ensures |r| == |v| && forall i :: 0 <= i < |v| ==> r[i] in v && v[i] in r
  {
    assert |multiset(v)| == |v| && |multiset(r)| == |r|;
    forall i | 0 <= i < |v| ensures r[i] in v && v[i] in r {
      assert r[i] in multiset(v) && v[i] in multiset(r);
    }
  }

  lemma MembersItems(v: seq<Slot>, r: seq<Slot>)
    requires forall i :: 0 <= i < |r| ==> r[i] in v
    ensures ItemsOf(r) <= ItemsOf(v) && ItemConns(r) <= ItemConns(v)
  {
    forall i | 0 <= i < |r| ensures r[i].item in ItemsOf(v) && r[i].item.conn in ItemConns(v) {
      var j :| 0 <= j < |v| && v[j] == r[i];
    }
  }

  lemma PermutationKeeps(v: seq<Slot>, r: seq<Slot>)
    requires multiset(v) == multiset(r)
    ensures |r| == |v| && (forall i :: 0 <= i < |v| ==> r[i] in v && v[i] in r)
    ensures ItemsOf(r) == ItemsOf(v) && (DistinctItems(v) <==> DistinctItems(r))
    ensures ItemConns(r) == ItemConns(v) && (NoDup(ConnsOf(v)) <==> NoDup(ConnsOf(r)))
  {
    hide *;
    PermutationMembers(v, r);
    MembersItems(v, r);
    MembersItems(r, v);
    DistinctByCard(v);
    DistinctByCard(r);
    ConnsByCard(v);
    ConnsByCard(r);
  }

  /** Rewriting slot `k` of a heap and fixing it: a heap again, with exactly that entry exchanged. */
  lemma ReplaceAndFix(v: seq<Slot>, k: nat, x: Slot)
    requires k < |v| && x.item == v[k].item
    ensures var r := Fix(v[k := x], k);
            && |r| == |v| && x in r && ItemsOf(r) == ItemsOf(v)
            && (forall j :: 0 <= j < |v| && j != k ==> v[j] in r)
            && (forall i :: 0 <= i < |v| ==> r[i] == x || exists j :: 0 <= j < |v| && j != k && v[j] == r[i])
            && (DistinctItems(v) ==> DistinctItems(r))
            && (IsHeap(v) ==> IsHeap(r))
  {
    hide Fix, IsHeap;
    var g := v[k := x];
    FixPermutes(g, k);
    assert ItemsOf(Fix(g, k)) == ItemsOf(v) && (DistinctItems(v) ==> DistinctItems(Fix(g, k))) by {
      hide DistinctItems, ItemsOf;
      PermutationKeeps(g, Fix(g, k));
      UpdateKeepsItems(v, k, x);
      DistinctByCard(v);
      DistinctByCard(g);
    }
    if IsHeap(v) {
      FixAfterUpdate(v, k, x);
    }
    assert g[k] == x;
    PermutationMembers(g, Fix(g, k));
    hide DistinctItems, ItemsOf;
    forall j | 0 <= j < |v| && j != k ensures v[j] in Fix(g, k) {
      assert g[j] == v[j];
    }
    var r := Fix(g, k);
    forall i | 0 <= i < |v| && r[i] != x ensures exists j :: 0 <= j < |v| && j != k && v[j] == r[i] {
      var j :| 0 <= j < |g| && g[j] == r[i];
      assert v[j] == r[i];
    }
  }

  // ---------------------------------------------------------------- update

  /** What the compaction loop keeps and what it leaves to be created. */
  lemma {:induction false} CompactSelects(v: seq<Slot>, wanted: set<Conn>)
    ensures var (kept, missing) := Compact(v, wanted);
            && missing == wanted - ItemConns(v) && ItemConns(kept) == wanted * ItemConns(v)
            && NoDup(ConnsOf(kept))
            && (NoDup(ConnsOf(v)) ==> forall e :: e in v && e.item.conn in wanted ==> e in kept)
            && (|kept| == |v| ==> kept == v)
  {
    if v != [] {
      var n := |v| - 1;
      var front, e := v[..n], v[n];
      CompactSelects(front, wanted);
      assert v == front + [e];
      AppendedSlot(front, e);
      var (kept, missing) := Compact(front, wanted);
      AppendedSlot(kept, e);
      assert forall i :: 0 <= i < n ==> ConnsOf(front)[i] == ConnsOf(v)[i];
      if NoDup(ConnsOf(v)) && e.item.conn in wanted {
        assert NoDup(ConnsOf(front));
        forall i | 0 <= i < n ensures front[i].item.conn != e.item.conn {
          assert ConnsOf(v)[i] != ConnsOf(v)[n];
        }
      }
      if e.item.conn in missing {
        forall i | 0 <= i < |kept| ensures ConnsOf(kept)[i] != e.item.conn {
          assert kept[i].item.conn in ItemConns(kept);
        }
      }
    }
  }

  /** Newcomers for a set of connections, one item each. */
  ghost predicate NewcomersFor(added: seq<Slot>, missing: set<Conn>) {
    Newcomers(added, ConnsOf(added)) && ItemConns(added) == missing && |added| == |missing|
  }

  /**
   `update` leaves exactly the given connections, once each; a surviving connection keeps its item
   with load and tie-break, and every other entry is a newcomer with load 0.
   */
  lemma UpdateHoldsExactly(v: seq<Slot>, wanted: set<Conn>, added: seq<Slot>)
    requires v != [] || wanted != {}
    requires NewcomersFor(added, Compact(v, wanted).1)
    ensures var r := UpdateResult(v, wanted, added);
            && ItemConns(r) == wanted && NoDup(ConnsOf(r)) && |r| == |wanted|
            && (forall e :: e in r ==> e in added || (e in v && e.item.conn in wanted))
            && (NoDup(ConnsOf(v)) ==> forall e :: e in v && e.item.conn in wanted ==> e in r)
            && (forall e :: e in added ==> e in r && e.major == 0 && e.minor == 0)
  {
    hide Compact, UpdateResult, Newcomers, ItemConns, ConnsOf;
    KeptAndAdded(v, wanted, added);
    var all := Compact(v, wanted).0 + added;
    UpdateIsPermutation(v, wanted, added);
    PermutationKeeps(all, UpdateResult(v, wanted, added));
  }

  lemma UpdateIsPermutation(v: seq<Slot>, wanted: set<Conn>, added: seq<Slot>)
    requires v != [] || wanted != {}
    requires |added| == |Compact(v, wanted).1|
    ensures multiset(UpdateResult(v, wanted, added)) == multiset(Compact(v, wanted).0 + added)
  {
    InitPermutes(Compact(v, wanted).0 + added);
  }

  lemma KeptAndAdded(v: seq<Slot>, wanted: set<Conn>, added: seq<Slot>)
    requires NewcomersFor(added, Compact(v, wanted).1)
    ensures var all := Compact(v, wanted).0 + added;
            && ItemConns(all) == wanted && NoDup(ConnsOf(all)) && |all| == |wanted|
            && (forall e :: e in all ==> e in added || (e in v && e.item.conn in wanted))
            && (NoDup(ConnsOf(v)) ==> forall e :: e in v && e.item.conn in wanted ==> e in all)
            && (forall e :: e in added ==> e in all && e.major == 0 && e.minor == 0)
  {
    hide Compact;
    var (kept, missing) := Compact(v, wanted);
    CompactSelects(v, wanted);
    CompactKeepsEntries(v, wanted);
    ConcatConns(kept, added);
    ConnsByCard(kept);
    ConnsByCard(kept + added);
    assert wanted == wanted * ItemConns(v) + (wanted - ItemConns(v));
    assert |wanted| == |wanted * ItemConns(v)| + |wanted - ItemConns(v)|;
    forall e | e in kept ensures e.item.conn in wanted {
      var k :| 0 <= k < |kept| && kept[k] == e;
      assert kept[k].item.conn in ItemConns(kept);
    }
  }

  lemma ConcatConns(a: seq<Slot>, b: seq<Slot>)
    ensures ItemConns(a + b) == ItemConns(a) + ItemConns(b)
  {
    forall k | 0 <= k < |a| ensures a[k].item.conn in ItemConns(a + b) {
      assert (a + b)[k] == a[k];
    }
    forall k | 0 <= k < |b| ensures b[k].item.conn in ItemConns(a + b) {
      assert (a + b)[|a| + k] == b[k];
    }
  }

  // ---------------------------------------------------------------- heap order

  /** The guard under which appending newcomers is harmless: every parent they get is itself idle and never picked. */
  ghost predicate ParentsIdle(v: seq<Slot>, n: nat) {
    forall k :: |v| <= k < |v| + n && 0 < k && Parent(k) < |v| ==> v[Parent(k)].major == 0 && v[Parent(k)].minor == 0
  }

  /**
   Exactly when `update` keeps heap order. The comment in the code speaks of `heap.Push`, the code
   appends without sifting up, so order is kept if and only if the heap is rebuilt or every old
   parent of a newcomer has load 0 and tie-break 0.
   */
  lemma UpdateKeepsOrderIff(v: seq<Slot>, wanted: set<Conn>, added: seq<Slot>)
    requires v != [] || wanted != {}
    requires IsHeap(v) && Unsigned(v) && NewcomersFor(added, Compact(v, wanted).1)
    ensures IsHeap(UpdateResult(v, wanted, added)) <==>
            var (kept, missing) := Compact(v, wanted);
            Pushes(|v|, |kept|, |missing|) ==> ParentsIdle(v, |missing|)
  {
    hide Compact, Init;
    var (kept, missing) := Compact(v, wanted);
    CompactSelects(v, wanted);
    var all := kept + added;
    InitMakesHeap(all);
    if Pushes(|v|, |kept|, |missing|) {
      if ParentsIdle(v, |missing|) {
        forall k | 0 < k < |all| ensures !Before(all[k], all[Parent(k)]) {
          assert Parent(k) < k;
          if k < |v| {
            assert all[k] == v[k] && all[Parent(k)] == v[Parent(k)];
          } else {
            assert all[k] == added[k - |v|];
            if Parent(k) < |v| { assert all[Parent(k)] == v[Parent(k)]; } else { assert all[Parent(k)] == added[Parent(k) - |v|]; }
          }
        }
      } else {
        var k :| |v| <= k < |v| + |missing| && 0 < k && Parent(k) < |v| && !(v[Parent(k)].major == 0 && v[Parent(k)].minor == 0);
        assert v[Parent(k)] in v;
        assert all[k] == added[k - |v|] && all[Parent(k)] == v[Parent(k)];
        assert Before(all[k], all[Parent(k)]);
      }
    }
  }

  /** The smallest broken case: one connection with a request, and one new connection, which the next acquire passes over. */
  lemma OneBusyConnBreaksOrder(a: ConnItem, d: ConnItem, tie: Uint64)
    requires a.conn != d.conn
    ensures var v := [Entry(a, 1, tie)];
            var r := UpdateResult(v, {a.conn, d.conn}, [Entry(d, 0, 0)]);
            && IsHeap(v) && Compact(v, {a.conn, d.conn}) == (v, {d.conn}) && Pushes(1, 1, 1)
            && r == [Entry(a, 1, tie), Entry(d, 0, 0)] && !IsHeap(r)
  {
    var v := [Entry(a, 1, tie)];
    var wanted := {a.conn, d.conn};
    assert v[0].item.conn == a.conn;
    assert NoDup(ConnsOf(v)) && ItemConns(v) == {a.conn};
    AllKept(v, wanted);
    assert wanted - {a.conn} == {d.conn};
    assert BitsLen(2) == 2 && |{d.conn}| == 1;
    hide Compact, BitsLen, ItemConns, ConnsOf, NoDup;
    var r := UpdateResult(v, wanted, [Entry(d, 0, 0)]);
    assert r == v + [Entry(d, 0, 0)];
    assert Parent(1) == 0 && Before(r[1], r[Parent(1)]);
  }

  /** The same with three busy connections, where the threshold still lets one newcomer through. */
  lemma DirectPushBreaksOrder(a: ConnItem, b: ConnItem, c: ConnItem, d: ConnItem, ta: Uint64, tb: Uint64, tc: Uint64)
    requires NoDup([a.conn, b.conn, c.conn, d.conn]) && ta <= tb && ta <= tc
    ensures var v := [Entry(a, 1, ta), Entry(b, 1, tb), Entry(c, 1, tc)];
            var wanted := {a.conn, b.conn, c.conn, d.conn};
            && IsHeap(v) && Compact(v, wanted) == (v, {d.conn}) && Pushes(3, 3, 1)
            && UpdateResult(v, wanted, [Entry(d, 0, 0)])[0].major == 1 && UpdateResult(v, wanted, [Entry(d, 0, 0)])[3].major == 0
            && !IsHeap(UpdateResult(v, wanted, [Entry(d, 0, 0)]))
  {
    var v := [Entry(a, 1, ta), Entry(b, 1, tb), Entry(c, 1, tc)];
    var wanted := {a.conn, b.conn, c.conn, d.conn};
    var cs := [a.conn, b.conn, c.conn, d.conn];
    assert cs[0] != cs[1] && cs[0] != cs[2] && cs[0] != cs[3] && cs[1] != cs[2] && cs[1] != cs[3] && cs[2] != cs[3];
    ThreeConns(v, a.conn, b.conn, c.conn);
    AllKept(v, wanted);
    assert wanted - {a.conn, b.conn, c.conn} == {d.conn};
    assert BitsLen(4) == 3 && |{d.conn}| == 1;
    hide Compact, BitsLen, ItemConns, ConnsOf, NoDup;
    assert v[0].item.conn == a.conn && v[1].item.conn == b.conn && v[2].item.conn == c.conn;
    var r := UpdateResult(v, wanted, [Entry(d, 0, 0)]);
    assert r == v + [Entry(d, 0, 0)];
    assert Parent(3) == 1 && Before(r[3], r[Parent(3)]);
  }

  lemma ThreeConns(v: seq<Slot>, a: Conn, b: Conn, c: Conn)
    requires |v| == 3 && v[0].item.conn == a && v[1].item.conn == b && v[2].item.conn == c && a != b && a != c && b != c
    ensures ItemConns(v) == {a, b, c} && NoDup(ConnsOf(v))
  {
  }

  lemma {:induction false} BitsLenIs(n: nat, len: nat)
    requires len > 0 && Words32.Pow2(len - 1) <= n < Words32.Pow2(len)
    ensures BitsLen(n) == len
  {
    if len > 1 {
      BitsLenIs(n / 2, len - 1);
    }
  }

  /**
   When `update` pushes instead of rebuilding, exactly: no item left the heap, and `missing` newcomers are
   at most an n-th part of all n items, where the quotient is by the number of binary digits of n.
   */
  lemma PushesIff(before: nat, kept: nat, missing: nat, digits: nat)
    requires kept + missing > 0 && digits > 0
    requires Words32.Pow2(digits - 1) <= kept + missing < Words32.Pow2(digits)
    ensures Pushes(before, kept, missing) <==> kept == before && missing * digits <= kept + missing
  {
    BitsLenIs(kept + missing, digits);
    QuotientBoundIff(missing, kept + missing, digits);
  }

  lemma QuotientBoundIff(m: nat, n: nat, d: nat)
    requires d > 0
    ensures m <= n / d <==> m * d <= n
  {
    var q := n / d;
    assert d * q <= n < d * (q + 1);
    if m <= q {
      assert m * d <= q * d;
    } else {
      assert m * d >= (q + 1) * d;
    }
  }

  /** With many newcomers the heap is rebuilt: one busy connection and five new ones, and the next acquire takes an idle one. */
  lemma ManyNewcomersRebuild(a: ConnItem, tie: Uint64, wanted: set<Conn>, added: seq<Slot>)
    requires a.conn in wanted && |wanted| == 6 && NewcomersFor(added, wanted - {a.conn})
    ensures var v := [Entry(a, 1, tie)];
            && Compact(v, wanted) == (v, wanted - {a.conn}) && !Pushes(1, 1, 5)
            && var r := UpdateResult(v, wanted, added); IsHeap(r) && |r| == 6 && r[0].major == 0
  {
    var v := [Entry(a, 1, tie)];
    OneIsKept(v, a, wanted);
    assert |wanted - {a.conn}| == 5;
    assert Words32.Pow2(2) == 4 && Words32.Pow2(3) == 8;
    var digits := 3;
    PushesIff(1, 1, 5, digits);
    hide Compact, Init, IsHeap, Words32.Pow2, Pushes;
    RebuiltRootIsIdle(v, added);
    assert UpdateResult(v, wanted, added) == Init(v + added);
  }

  lemma OneIsKept(v: seq<Slot>, a: ConnItem, wanted: set<Conn>)
    requires |v| == 1 && v[0].item == a && a.conn in wanted
    ensures Compact(v, wanted) == (v, wanted - {a.conn})
  {
    assert NoDup(ConnsOf(v)) && ItemConns(v) == {a.conn};
    AllKept(v, wanted);
  }

  /** The root of a heap made of some items and at least one idle one is idle. */
  lemma RebuiltRootIsIdle(v: seq<Slot>, added: seq<Slot>)
    requires added != [] && added[0].major == 0 && forall k :: 0 <= k < |v + added| ==> (v + added)[k].major >= 0
    ensures var r := Init(v + added); IsHeap(r) && |r| == |v| + |added| && r[0].major == 0
  {
    var all := v + added;
    var r := Init(all);
    InitMakesHeap(all);
    InitPermutes(all);
    hide Init, IsHeap;
    PermutationMembers(all, r);
    assert all[|v|] == added[0];
    var i :| 0 <= i < |r| && r[i] == all[|v|];
    RootIsLeast(r, i);
  }

  /**
   What the acquire after an update takes, exactly: a least item, unless newcomers were pushed behind a
   root that is busy or was picked before.
   */
  lemma AcquireAfterUpdateIff(v: seq<Slot>, wanted: set<Conn>, added: seq<Slot>)
    requires v != [] || wanted != {}
    requires IsHeap(v) && Unsigned(v) && NewcomersFor(added, Compact(v, wanted).1)
    ensures var (kept, missing) := Compact(v, wanted);
            var r := UpdateResult(v, wanted, added);
            (forall k :: 0 <= k < |r| ==> !Before(r[k], r[0])) <==>
            (Pushes(|v|, |kept|, |missing|) && v != [] && missing != {} ==> v[0].major == 0 && v[0].minor == 0)
  {
    hide Compact, Init, IsHeap, ItemConns, ConnsOf;
    var (kept, missing) := Compact(v, wanted);
    CompactSelects(v, wanted);
    var r := UpdateResult(v, wanted, added);
    if Pushes(|v|, |kept|, |missing|) {
      assert r == v + added;
      if v != [] && missing != {} {
        assert r[|v|] == added[0] && r[0] == v[0] && v[0] in v;
      }
      forall k | 0 <= k < |v| ensures !Before(v[k], v[0]) {
        RootIsLeast(v, k);
      }
      forall k | |v| <= k < |r| ensures r[k].major == 0 && r[k].minor == 0 {
        assert r[k] == added[k - |v|];
      }
    } else {
      InitMakesHeap(kept + added);
      forall k | 0 <= k < |r| ensures !Before(r[k], r[0]) {
        RootIsLeast(r, k);
      }
    }
  }

  /** When every connection of the heap is still wanted, compaction keeps the heap as it is. */
  lemma AllKept(v: seq<Slot>, wanted: set<Conn>)
    requires NoDup(ConnsOf(v)) && ItemConns(v) <= wanted
    ensures Compact(v, wanted) == (v, wanted - ItemConns(v))
  {
    hide Compact, ItemConns, ConnsOf, NoDup;
    CompactSelects(v, wanted);
    ConnsByCard(v);
    ConnsByCard(Compact(v, wanted).0);
    assert wanted * ItemConns(v) == ItemConns(v);
  }

  /** What the comment in `update` describes: each newcomer goes in by `heap.Push`. */
  function PushEach(v: seq<Slot>, added: seq<Slot>): seq<Slot>
    decreases |added|
  {
    if added == [] then v else PushEach(Push(v, added[0]), added[1..])
  }

  lemma {:induction false} PushEachKeepsHeap(v: seq<Slot>, added: seq<Slot>)
    requires IsHeap(v)
    ensures IsHeap(PushEach(v, added)) && multiset(PushEach(v, added)) == multiset(v) + multiset(added)
    decreases |added|
  {
    if added != [] {
      hide Up, IsHeap;
      PushKeepsHeap(v, added[0]);
      UpPermutes(v + [added[0]], |v|);
      PushEachKeepsHeap(Push(v, added[0]), added[1..]);
      assert added == [added[0]] + added[1..];
    }
  }

  // ---------------------------------------------------------------- runs

  /**
   One call on the heap. A release names the item's slot; that of an evicted item leaves the heap alone.
   Order does not depend on which releases there are; RequestAccounting says which can happen.
   */
  datatype Op =
    | DoAcquire(tie: Uint64)
    | DoRelease(slot: nat)
    | DoReleaseEvicted
    | DoUpdate(wanted: set<Conn>, added: seq<Slot>)

  ghost predicate Enabled(v: seq<Slot>, op: Op) {
    match op
    case DoAcquire(_) => v != []
    case DoRelease(slot) => slot < |v|
    case DoReleaseEvicted => true
    case DoUpdate(wanted, added) => (v != [] || wanted != {}) && NewcomersFor(added, Compact(v, wanted).1)
  }

  /** `sift` selects between the comment's `heap.Push` and the code's `h.Push`. */
  ghost function Apply(v: seq<Slot>, op: Op, sift: bool): seq<Slot>
    requires Enabled(v, op)
  {
    match op
    case DoAcquire(tie) => Acquire(v, tie)
    case DoRelease(slot) => ReleaseAt(v, slot)
    case DoReleaseEvicted => v
    case DoUpdate(wanted, added) =>
      if sift && Pushes(|v|, |Compact(v, wanted).0|, |added|) then PushEach(v, added) else UpdateResult(v, wanted, added)
  }

  ghost predicate Runs(v: seq<Slot>, ops: seq<Op>, sift: bool)
    decreases |ops|
  {
    ops != [] ==> Enabled(v, ops[0]) && Runs(Apply(v, ops[0], sift), ops[1..], sift)
  }

  /** Every state the run passes through is a heap. */
  ghost predicate AlwaysHeap(v: seq<Slot>, ops: seq<Op>, sift: bool)
    requires Runs(v, ops, sift)
    decreases |ops|
  {
    IsHeap(v) && (ops != [] ==> AlwaysHeap(Apply(v, ops[0], sift), ops[1..], sift))
  }

  /** An `update` rebuilds, or finds the newcomers' parents idle. */
  ghost predicate SafeOp(v: seq<Slot>, op: Op)
    requires Enabled(v, op)
  {
    op.DoUpdate? ==> var (kept, missing) := Compact(v, op.wanted); Pushes(|v|, |kept|, |missing|) ==> ParentsIdle(v, |missing|)
  }

  /** Every `update` of the run is safe. */
  ghost predicate UpdatesSafe(v: seq<Slot>, ops: seq<Op>)
    requires Runs(v, ops, false)
    decreases |ops|
  {
    ops != [] ==> SafeOp(v, ops[0]) && UpdatesSafe(Apply(v, ops[0], false), ops[1..])
  }

  /** Every acquire of the run takes an item that no item comes before in (load, tieBreak). */
  ghost predicate AcquiresLeast(v: seq<Slot>, ops: seq<Op>, sift: bool)
    requires Runs(v, ops, sift)
    decreases |ops|
  {
    ops != [] ==>
      && (ops[0].DoAcquire? ==> forall k :: 0 <= k < |v| ==> !Before(v[k], v[0]))
      && AcquiresLeast(Apply(v, ops[0], sift), ops[1..], sift)
  }

  lemma StepKeepsUnsigned(v: seq<Slot>, op: Op)
    requires Enabled(v, op) && Unsigned(v)
    ensures Unsigned(Apply(v, op, false))
  {
    hide Fix, Compact, UpdateResult, Before;
    match op
    case DoAcquire(tie) => ReplaceAndFix(v, 0, Entry(v[0].item, Inc(v[0].major), tie));
    case DoRelease(slot) =>
      assert v[slot] in v;
      ReplaceAndFix(v, slot, Entry(v[slot].item, Dec(v[slot].major), v[slot].minor));
    case DoReleaseEvicted =>
    case DoUpdate(wanted, added) => UpdateHoldsExactly(v, wanted, added);
  }

  /** One step keeps heap order, if and only if it is not an update that pushes below a busy parent. */
  lemma StepKeepsOrderIff(v: seq<Slot>, op: Op)
    requires Enabled(v, op) && Unsigned(v) && IsHeap(v)
    ensures IsHeap(Apply(v, op, false)) <==> SafeOp(v, op)
  {
    hide Fix, Compact, IsHeap, Init, Pushes, ParentsIdle, PushEach, UpdateResult;
    match op
    case DoAcquire(tie) => ReplaceAndFix(v, 0, Entry(v[0].item, Inc(v[0].major), tie));
    case DoRelease(slot) => ReplaceAndFix(v, slot, Entry(v[slot].item, Dec(v[slot].major), v[slot].minor));
    case DoReleaseEvicted =>
    case DoUpdate(wanted, added) => UpdateKeepsOrderIff(v, wanted, added);
  }

  lemma SiftingStep(v: seq<Slot>, op: Op)
    requires Enabled(v, op) && IsHeap(v)
    ensures IsHeap(Apply(v, op, true))
  {
    hide Fix, Compact, IsHeap, Init, PushEach;
    match op
    case DoAcquire(tie) => ReplaceAndFix(v, 0, Entry(v[0].item, Inc(v[0].major), tie));
    case DoRelease(slot) => ReplaceAndFix(v, slot, Entry(v[slot].item, Dec(v[slot].major), v[slot].minor));
    case DoReleaseEvicted =>
    case DoUpdate(wanted, added) =>
      PushEachKeepsHeap(v, added);
      InitMakesHeap(Compact(v, wanted).0 + added);
  }

  /** For the code as written: a run keeps heap order throughout if and only if each of its updates is safe. */
  lemma {:induction false} RunKeepsOrderIff(v: seq<Slot>, ops: seq<Op>)
    requires Runs(v, ops, false) && Unsigned(v) && IsHeap(v)
    ensures AlwaysHeap(v, ops, false) <==> UpdatesSafe(v, ops)
    decreases |ops|
  {
    if ops != [] {
      hide Apply, Enabled, IsHeap, SafeOp, Unsigned;
      StepKeepsOrderIff(v, ops[0]);
      StepKeepsUnsigned(v, ops[0]);
      if IsHeap(Apply(v, ops[0], false)) {
        RunKeepsOrderIff(Apply(v, ops[0], false), ops[1..]);
      }
    }
  }

  /** With the `heap.Push` of the comment every run keeps heap order. */
  lemma {:induction false} SiftingRunKeepsOrder(v: seq<Slot>, ops: seq<Op>)
    requires Runs(v, ops, true) && IsHeap(v)
    ensures AlwaysHeap(v, ops, true)
    decreases |ops|
  {
    if ops != [] {
      SiftingStep(v, ops[0]);
      hide Apply, Enabled, IsHeap;
      SiftingRunKeepsOrder(Apply(v, ops[0], true), ops[1..]);
    }
  }

  /** In a run that keeps heap order every acquire takes a least-loaded item, ties going to the smaller tie-break. */
  lemma {:induction false} OrderedRunAcquiresLeast(v: seq<Slot>, ops: seq<Op>, sift: bool)
    requires Runs(v, ops, sift) && AlwaysHeap(v, ops, sift)
    ensures AcquiresLeast(v, ops, sift)
    decreases |ops|
  {
    if ops != [] {
      hide Apply, Enabled, IsHeap, Before;
      forall k | 0 <= k < |v| ensures !Before(v[k], v[0]) {
        RootIsLeast(v, k);
      }
      OrderedRunAcquiresLeast(Apply(v, ops[0], sift), ops[1..], sift);
    }
  }
}

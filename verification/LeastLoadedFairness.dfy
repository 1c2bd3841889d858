/** How evenly the least-loaded pickers spread requests over a fixed set of connections. */
module LeastLoadedFairness {
  import opened Collections
  import opened GoHeap
  import opened LeastLoadedSpec
  import opened LeastLoadedRuns

  // ---------------------------------------------------------------- loads stay level

  function AcquireAll(v: seq<Slot>, ties: seq<Uint64>): seq<Slot>
    requires v != []
    decreases |ties|
  {
    if ties == [] then v else AcquireAll(Acquire(v, ties[0]), ties[1..])
  }

  ghost predicate LoadsIn(v: seq<Slot>, m: int) {
    forall i :: 0 <= i < |v| ==> m <= v[i].major <= m + 1
  }

  lemma AcquireStaysLevel(v: seq<Slot>, tie: Uint64, m: nat)
    requires v != [] && IsHeap(v) && LoadsIn(v, m) && m + 2 < TWO_64
    ensures IsHeap(Acquire(v, tie)) && (LoadsIn(Acquire(v, tie), m) || LoadsIn(Acquire(v, tie), m + 1))
  {
    hide Fix, IsHeap;
    var x := Entry(v[0].item, Inc(v[0].major), tie);
    ReplaceAndFix(v, 0, x);
    forall k | 0 <= k < |v| ensures v[0].major <= v[k].major {
      RootIsLeast(v, k);
    }
    var r := Acquire(v, tie);
    forall i | 0 <= i < |r| ensures (if v[0].major == m then m else m + 1) <= r[i].major <= (if v[0].major == m then m + 1 else m + 2) {
      if r[i] != x {
        var j :| 0 <= j < |v| && j != 0 && v[j] == r[i];
      }
    }
  }

  lemma {:induction false} AcquiresStayLevel(v: seq<Slot>, ties: seq<Uint64>, m: nat)
    requires v != [] && IsHeap(v) && LoadsIn(v, m) && m + |ties| + 1 < TWO_64
    ensures exists m': nat :: LoadsIn(AcquireAll(v, ties), m')
    decreases |ties|
  {
    if ties != [] {
      hide Acquire, IsHeap, LoadsIn;
      AcquireStaysLevel(v, ties[0], m);
      AcquiresStayLevel(Acquire(v, ties[0]), ties[1..], if LoadsIn(Acquire(v, ties[0]), m) then m else m + 1);
      var m': nat :| LoadsIn(AcquireAll(Acquire(v, ties[0]), ties[1..]), m');
      assert LoadsIn(AcquireAll(v, ties), m');
    } else {
      assert LoadsIn(AcquireAll(v, ties), m);
    }
  }

  lemma FreshLoads(added: seq<Slot>, conns: seq<Conn>)
    requires Newcomers(added, conns)
    ensures |Init(added)| == |added| && forall i :: 0 <= i < |added| ==> Init(added)[i].major == 0 && Init(added)[i].minor == 0
  {
    hide Init;
    InitPermutes(added);
    PermutationMembers(added, Init(added));
    forall i | 0 <= i < |added| ensures Init(added)[i].major == 0 && Init(added)[i].minor == 0 {
      assert Init(added)[i] in added;
    }
  }

  /** However many requests are in flight, with none finished no connection has two more than another. */
  lemma LoadsStayLevel(added: seq<Slot>, conns: seq<Conn>, ties: seq<Uint64>)
    requires conns != [] && Newcomers(added, conns) && |ties| + 1 < TWO_64
    ensures var r := AcquireAll(Init(added), ties);
            forall i, j :: 0 <= i < |r| && 0 <= j < |r| ==> r[i].major <= r[j].major + 1
  {
    hide Init, AcquireAll, IsHeap;
    InitMakesHeap(added);
    FreshLoads(added, conns);
    AcquiresStayLevel(Init(added), ties, 0);
    var m: nat :| LoadsIn(AcquireAll(Init(added), ties), m);
  }

  // ---------------------------------------------------------------- round-robin tie-breaking

  /** A round-robin picker and everything it ever picked; its `counter` is the number of picks. */
  datatype RoundRobin = RoundRobin(v: seq<Slot>, picks: seq<ConnItem>)

  /** 1 + the position of the last pick of `x`, or 0 if `x` was never picked. */
  ghost function LastPick(picks: seq<ConnItem>, x: ConnItem): nat {
    if picks == [] then 0
    else if picks[|picks| - 1] == x then |picks|
    else LastPick(picks[..|picks| - 1], x)
  }

  ghost predicate RoundRobinInv(s: RoundRobin) {
    && s.v != [] && IsHeap(s.v) && DistinctItems(s.v)
    && (forall i :: 0 <= i < |s.v| ==> s.v[i].minor == LastPick(s.picks, s.v[i].item))
    && ToSet(s.picks) <= ItemsOf(s.v)
  }

  /** `Pick`: the counter is incremented, then becomes the tie-break of the chosen item. */
  ghost function Pick(s: RoundRobin): RoundRobin
    requires s.v != [] && |s.picks| + 1 < TWO_64
  {
    RoundRobin(Acquire(s.v, |s.picks| + 1), s.picks + [s.v[0].item])
  }

  ghost function Done(s: RoundRobin, k: nat): RoundRobin
    requires k < |s.v|
  {
    s.(v := ReleaseAt(s.v, k))
  }

  lemma {:induction false} LastPickFacts(picks: seq<ConnItem>, x: ConnItem)
    ensures LastPick(picks, x) <= |picks|
    ensures LastPick(picks, x) > 0 ==> picks[LastPick(picks, x) - 1] == x
    ensures forall i :: LastPick(picks, x) <= i < |picks| ==> picks[i] != x
  {
    if picks != [] {
      LastPickFacts(picks[..|picks| - 1], x);
    }
  }

  lemma PickKeepsInv(s: RoundRobin)
    requires RoundRobinInv(s) && |s.picks| + 1 < TWO_64
    ensures RoundRobinInv(Pick(s)) && |Pick(s).v| == |s.v|
  {
    hide Fix, IsHeap;
    var x := Entry(s.v[0].item, Inc(s.v[0].major), |s.picks| + 1);
    ReplaceAndFix(s.v, 0, x);
    var t := Pick(s);
    assert t.picks[..|s.picks|] == s.picks;
    forall i | 0 <= i < |t.v| ensures t.v[i].minor == LastPick(t.picks, t.v[i].item) {
      if t.v[i] != x {
        var j :| 0 <= j < |s.v| && j != 0 && s.v[j] == t.v[i];
        assert ItemSeq(s.v)[0] != ItemSeq(s.v)[j];
      }
    }
    assert s.v[0].item in ItemsOf(s.v);
  }

  lemma DoneKeepsInv(s: RoundRobin, k: nat)
    requires RoundRobinInv(s) && k < |s.v|
    ensures RoundRobinInv(Done(s, k)) && |Done(s, k).v| == |s.v|
  {
    hide Fix, IsHeap;
    ReplaceAndFix(s.v, k, Entry(s.v[k].item, Dec(s.v[k].major), s.v[k].minor));
    var t := Done(s, k);
    forall i | 0 <= i < |t.v| ensures t.v[i].minor == LastPick(t.picks, t.v[i].item) {
      if t.v[i] != Entry(s.v[k].item, Dec(s.v[k].major), s.v[k].minor) {
        var j :| 0 <= j < |s.v| && j != k && s.v[j] == t.v[i];
      }
    }
  }

  /** A picker over distinct new connections satisfies the invariant. */
  lemma FreshKeepsInv(added: seq<Slot>, conns: seq<Conn>)
    requires conns != [] && NoDup(conns) && Newcomers(added, conns)
    ensures RoundRobinInv(RoundRobin(Init(added), [])) && |Init(added)| == |conns|
    ensures forall i :: 0 <= i < |added| ==> Init(added)[i].major == 0
  {
    hide Init, IsHeap, DistinctItems, ItemsOf, NoDup;
    InitMakesHeap(added);
    FreshLoads(added, conns);
    assert DistinctItems(Init(added)) by {
      DistinctConnsDistinctItems(added, conns);
      InitPermutes(added);
      PermutationKeeps(added, Init(added));
    }
  }

  lemma DistinctConnsDistinctItems(added: seq<Slot>, conns: seq<Conn>)
    requires NoDup(conns) && Newcomers(added, conns)
    ensures DistinctItems(added)
  {
    forall i, j | 0 <= i < j < |added| ensures ItemSeq(added)[i] != ItemSeq(added)[j] {
      assert added[i].item.conn == conns[i] && added[j].item.conn == conns[j];
    }
  }

  /** A `Pick`, or a release of any slot, in any interleaving. */
  datatype Event = EvPick | EvDone(slot: nat)

  ghost predicate Plays(s: RoundRobin, events: seq<Event>)
    requires s.v != []
    decreases |events|
  {
    events != [] ==>
      if events[0].EvPick? then |s.picks| + 1 < TWO_64 && Plays(Pick(s), events[1..])
      else events[0].slot < |s.v| && Plays(Done(s, events[0].slot), events[1..])
  }

  ghost function After(s: RoundRobin, events: seq<Event>): RoundRobin
    requires s.v != [] && Plays(s, events)
    decreases |events|
  {
    if events == [] then s
    else if events[0].EvPick? then After(Pick(s), events[1..])
    else After(Done(s, events[0].slot), events[1..])
  }

  lemma {:induction false} PlayKeepsInv(s: RoundRobin, events: seq<Event>)
    requires RoundRobinInv(s) && Plays(s, events)
    ensures RoundRobinInv(After(s, events))
    decreases |events|
  {
    if events != [] {
      hide RoundRobinInv, Pick, Done;
      if events[0].EvPick? {
        PickKeepsInv(s);
        PlayKeepsInv(Pick(s), events[1..]);
      } else {
        DoneKeepsInv(s, events[0].slot);
        PlayKeepsInv(Done(s, events[0].slot), events[1..]);
      }
    }
  }

  /**
   After any interleaving of picks and completions, the next pick is a least-loaded connection, and
   among those the one picked longest ago (never-picked ones first).
   */
  lemma PicksLeastRecentOfLeastLoaded(s: RoundRobin, events: seq<Event>, k: nat)
    requires RoundRobinInv(s) && Plays(s, events) && k < |After(s, events).v|
    ensures var t := After(s, events);
            var x, y := t.v[0], t.v[k];
            && x.major <= y.major
            && (x.major == y.major ==>
                  LastPick(t.picks, x.item) < LastPick(t.picks, y.item) || x.item == y.item
                  || (LastPick(t.picks, x.item) == 0 && LastPick(t.picks, y.item) == 0))
  {
    PlayKeepsInv(s, events);
    var t := After(s, events);
    hide After, IsHeap;
    RootIsLeast(t.v, k);
    LastPickFacts(t.picks, t.v[0].item);
    LastPickFacts(t.picks, t.v[k].item);
  }

  // ---------------------------------------------------------------- one request at a time

  ghost predicate Idle(s: RoundRobin) {
    forall i :: 0 <= i < |s.v| ==> s.v[i].major == 0
  }

  /** A pick whose request finishes before the next pick. */
  ghost function PickAndFinish(s: RoundRobin): RoundRobin
    requires RoundRobinInv(s) && |s.picks| + 1 < TWO_64
  {
    PickKeepsInv(s);
    PickedIsThere(s);
    var k :| 0 <= k < |Pick(s).v| && Pick(s).v[k].item == s.v[0].item;
    Done(Pick(s), k)
  }

  lemma PickedIsThere(s: RoundRobin)
    requires RoundRobinInv(s) && |s.picks| + 1 < TWO_64
    ensures exists k :: 0 <= k < |Pick(s).v| && Pick(s).v[k].item == s.v[0].item
  {
    hide Fix;
    var x := Entry(s.v[0].item, Inc(s.v[0].major), |s.picks| + 1);
    ReplaceAndFix(s.v, 0, x);
    assert x in Pick(s).v;
  }

  lemma SameItemSameSlot(v: seq<Slot>, i: nat, j: nat)
    requires DistinctItems(v) && i < |v| && j < |v| && v[i].item == v[j].item
    ensures i == j
  {
    assert ItemSeq(v)[i] == ItemSeq(v)[j];
  }

  lemma PickAndFinishKeeps(s: RoundRobin)
    requires RoundRobinInv(s) && Idle(s) && |s.picks| + 1 < TWO_64
    ensures var t := PickAndFinish(s);
            RoundRobinInv(t) && Idle(t) && |t.v| == |s.v| && t.picks == s.picks + [s.v[0].item]
  {
    hide Fix, IsHeap;
    var x := Entry(s.v[0].item, Inc(s.v[0].major), |s.picks| + 1);
    var p := Pick(s);
    PickKeepsInv(s);
    PickedIsThere(s);
    ReplaceAndFix(s.v, 0, x);
    var k0 :| 0 <= k0 < |p.v| && p.v[k0] == x;
    forall k | 0 <= k < |p.v| && p.v[k].item == s.v[0].item ensures k == k0 {
      SameItemSameSlot(p.v, k, k0);
    }
    DoneKeepsInv(p, k0);
    var y := Entry(x.item, 0, x.minor);
    ReplaceAndFix(p.v, k0, y);
    forall i | 0 <= i < |p.v| ensures Done(p, k0).v[i].major == 0 {
      if Done(p, k0).v[i] != y {
        var j :| 0 <= j < |p.v| && j != k0 && p.v[j] == Done(p, k0).v[i];
        assert p.v[j] != x;
      }
    }
  }

  /** Any `n` consecutive picks are distinct and the sequence of picks repeats with period `n`. */
  ghost predicate Rotates(picks: seq<ConnItem>, n: nat) {
    && (forall i, j :: 0 <= i < j < |picks| && j < i + n ==> picks[i] != picks[j])
    && (forall i, j :: 0 <= i < j < |picks| && j == i + n ==> picks[i] == picks[j])
  }

  /** With all connections idle, the next pick is none of the last `n - 1`. */
  lemma NextPickIsNotRecent(s: RoundRobin, p: nat)
    requires RoundRobinInv(s) && Idle(s) && |s.picks| - |s.v| < p < |s.picks|
    ensures s.picks[p] != s.v[0].item
  {
    var x := s.v[0].item;
    LastPickFacts(s.picks, x);
    var q := LastPick(s.picks, x);
    if p < q {
      var recent := s.picks[q..];
      hide IsHeap;
      forall k | 0 < k < |s.v| ensures s.v[k].item in recent {
        var y := s.v[k].item;
        RootIsLeast(s.v, k);
        LastPickFacts(s.picks, y);
        if y == x { SameItemSameSlot(s.v, 0, k); }
        assert LastPick(s.picks, y) > q;
        assert recent[LastPick(s.picks, y) - 1 - q] == y;
      }
      DistinctByCard(s.v);
      NoDupCard(recent);
      assert ItemsOf(s.v) <= ToSet(recent) + {x};
      SubsetCard(ItemsOf(s.v), ToSet(recent) + {x});
    }
  }

  /** Once all connections have been picked, the next pick is the one picked `n` picks ago. */
  lemma NextPickRepeats(s: RoundRobin)
    requires RoundRobinInv(s) && Idle(s) && Rotates(s.picks, |s.v|) && |s.v| <= |s.picks|
    ensures s.v[0].item == s.picks[|s.picks| - |s.v|]
  {
    hide IsHeap;
    var n, t := |s.v|, |s.picks|;
    var x := s.v[0].item;
    var recent := s.picks[t - n + 1..];
    forall i | 0 <= i < |recent| ensures recent[i] != x && recent[i] != s.picks[t - n] {
      NextPickIsNotRecent(s, t - n + 1 + i);
    }
    NoDupCard(recent);
    DistinctByCard(s.v);
    if x != s.picks[t - n] {
      var all := ToSet(recent) + {x, s.picks[t - n]};
      assert |all| == n + 1;
      assert all <= ItemsOf(s.v) by { assert x in ItemsOf(s.v); assert ToSet(recent) <= ToSet(s.picks); assert s.picks[t - n] in s.picks; }
      SubsetCard(all, ItemsOf(s.v));
    }
  }

  ghost function Serial(s: RoundRobin, rounds: nat): RoundRobin
    requires RoundRobinInv(s) && Idle(s) && |s.picks| + rounds < TWO_64
    decreases rounds
  {
    if rounds == 0 then s else
      PickAndFinishKeeps(s);
      Serial(PickAndFinish(s), rounds - 1)
  }

  /** The tie-break is a round robin: over n connections, requests served one at a time visit them in a fixed rotation. */
  lemma {:induction false} SerialPicksRotate(s: RoundRobin, rounds: nat)
    requires RoundRobinInv(s) && Idle(s) && |s.picks| + rounds < TWO_64
    requires Rotates(s.picks, |s.v|)
    ensures Rotates(Serial(s, rounds).picks, |s.v|) && |Serial(s, rounds).picks| == |s.picks| + rounds
    decreases rounds
  {
    if rounds > 0 {
      PickAndFinishKeeps(s);
      forall p | |s.picks| - |s.v| < p < |s.picks| ensures 0 <= p ==> s.picks[p] != s.v[0].item {
        if 0 <= p { NextPickIsNotRecent(s, p); }
      }
      if |s.v| <= |s.picks| { NextPickRepeats(s); }
      hide PickAndFinish, RoundRobinInv;
      SerialPicksRotate(PickAndFinish(s), rounds - 1);
    }
  }
}

/**
 Whether a least-loaded picker picks the connection with the fewest requests in flight, and not only
 the item with the smallest load: a connection that left and came back has more than one item.
 */
module FewestInFlight {
  import opened Collections
  import opened GoHeap
  import opened LeastLoadedSpec
  import opened RequestAccounting
  import LeastLoadedRuns
  import Life = RequestLifecycle

  /** The pick to come takes a connection with the fewest unreleased picks. */
  ghost predicate RootConnIsLeast(s: System) {
    forall k :: 0 <= k < |s.view| ==> |Unreleased(s, s.view[0].item.conn)| <= |Unreleased(s, s.view[k].item.conn)|
  }

  /** A connection of the heap has requests in flight that were counted on another item of it. */
  ghost predicate HasStalePicks(s: System) {
    exists x, y :: x in ItemsOf(s.view) && y in Known(s) && y.conn == x.conn && y != x && OpenPicks(s, y) != {}
  }

  ghost predicate Ordered(s: System) {
    Inv(s) && IsHeap(s.view) && LeastLoadedRuns.Unsigned(s.view)
  }

  /** Fewer than 2^64 requests are in flight on each connection. */
  ghost predicate Countable(s: System) {
    forall k :: 0 <= k < |s.view| ==> |Unreleased(s, s.view[k].item.conn)| < TWO_64
  }

  lemma ConnLoad(s: System, k: nat)
    requires Inv(s) && k < |s.view| && !HasStalePicks(s) && |Unreleased(s, s.view[k].item.conn)| < TWO_64
    ensures s.view[k].major == |Unreleased(s, s.view[k].item.conn)|
  {
    hide OpenPicks, Unreleased;
    var x := s.view[k].item;
    assert x in ItemsOf(s.view) && x in Known(s);
    ItemSpeaksForConnIff(s, x);
    SameSlot(s.view, k, SlotOf(s.view, x));
  }

  /** Without stale picks a heap has at its root a connection with the fewest requests in flight. */
  lemma RootConnHasFewest(s: System)
    requires Ordered(s) && Countable(s) && !HasStalePicks(s)
    ensures RootConnIsLeast(s)
  {
    hide HasStalePicks, IsHeap, Inv, Unreleased;
    forall k | 0 <= k < |s.view| ensures |Unreleased(s, s.view[0].item.conn)| <= |Unreleased(s, s.view[k].item.conn)| {
      RootIsLeast(s.view, k);
      ConnLoad(s, 0);
      ConnLoad(s, k);
    }
  }

  // ---------------------------------------------------------------- runs without updates

  /** A step that leaves the set of connections alone. */
  datatype Steady = Another(id: nat, tie: Uint64) | Moves(c: Conn, step: Life.Step)

  function AsStep(m: Steady): Step {
    match m
    case Another(id, tie) => Pick(id, tie)
    case Moves(c, st) => OnConn(c, st)
  }

  ghost predicate SteadyRuns(s: System, run: seq<Steady>)
    decreases |run|
  {
    run != [] ==> Enabled(s, AsStep(run[0])) && SteadyRuns(Apply(s, AsStep(run[0])), run[1..])
  }

  ghost function SteadyAfter(s: System, run: seq<Steady>): System
    requires SteadyRuns(s, run)
    decreases |run|
  {
    if run == [] then s else SteadyAfter(Apply(s, AsStep(run[0])), run[1..])
  }

  ghost predicate Reaches(s: System, t: System) {
    exists run :: SteadyRuns(s, run) && SteadyAfter(s, run) == t
  }

  lemma FirstStep(s: System, m: Steady, rest: seq<Steady>)
    ensures SteadyRuns(s, [m] + rest) <==> Enabled(s, AsStep(m)) && SteadyRuns(Apply(s, AsStep(m)), rest)
    ensures SteadyRuns(s, [m] + rest) ==> SteadyAfter(s, [m] + rest) == SteadyAfter(Apply(s, AsStep(m)), rest)
  {
    hide Apply, Enabled, AsStep;
    assert ([m] + rest)[0] == m && ([m] + rest)[1..] == rest;
  }

  lemma {:induction false} RunsConcat(s: System, a: seq<Steady>, b: seq<Steady>)
    requires SteadyRuns(s, a) && SteadyRuns(SteadyAfter(s, a), b)
    ensures SteadyRuns(s, a + b) && SteadyAfter(s, a + b) == SteadyAfter(SteadyAfter(s, a), b)
    decreases |a|
  {
    hide Apply, Enabled, AsStep;
    if a == [] {
      assert a + b == b;
    } else {
      hide SteadyRuns, SteadyAfter;
      assert a == [a[0]] + a[1..] && a + b == [a[0]] + (a[1..] + b);
      FirstStep(s, a[0], a[1..]);
      FirstStep(s, a[0], a[1..] + b);
      RunsConcat(Apply(s, AsStep(a[0])), a[1..], b);
    }
  }

  lemma ReachesSelf(s: System)
    ensures Reaches(s, s)
  {
    assert SteadyRuns(s, []) && SteadyAfter(s, []) == s;
  }

  lemma ReachesStep(s: System, m: Steady)
    requires Enabled(s, AsStep(m))
    ensures Reaches(s, Apply(s, AsStep(m)))
  {
    hide Apply, Enabled;
    var t := Apply(s, AsStep(m));
    assert [m][0] == m && [m][1..] == [];
    assert SteadyRuns(t, []) && SteadyAfter(t, []) == t;
    assert SteadyRuns(s, [m]) && SteadyAfter(s, [m]) == t;
  }

  lemma ReachesConcat(s: System, t: System, u: System)
    requires Reaches(s, t) && Reaches(t, u)
    ensures Reaches(s, u)
  {
    hide SteadyRuns, SteadyAfter;
    var a :| SteadyRuns(s, a) && SteadyAfter(s, a) == t;
    var b :| SteadyRuns(t, b) && SteadyAfter(t, b) == u;
    RunsConcat(s, a, b);
  }

  /** The same items with the same tie-breaks, in some order. */
  ghost predicate SameTies(v: seq<Slot>, r: seq<Slot>) {
    && |r| == |v| && ItemsOf(r) == ItemsOf(v)
    && forall i :: 0 <= i < |r| ==> HasTie(v, r[i].item, r[i].minor)
  }

  ghost predicate HasTie(v: seq<Slot>, x: ConnItem, tie: int) {
    exists j :: 0 <= j < |v| && v[j].item == x && v[j].minor == tie
  }

  lemma SameTiesConcat(u: seq<Slot>, v: seq<Slot>, w: seq<Slot>)
    requires SameTies(u, v) && SameTies(v, w)
    ensures SameTies(u, w)
  {
    forall i | 0 <= i < |w| ensures HasTie(u, w[i].item, w[i].minor) {
      var k :| 0 <= k < |v| && v[k].item == w[i].item && v[k].minor == w[i].minor;
      assert HasTie(u, v[k].item, v[k].minor);
    }
  }

  lemma ReleasedTies(v: seq<Slot>, k: nat)
    requires k < |v| && LeastLoadedRuns.DistinctItems(v)
    ensures SameTies(v, ReleaseAt(v, k))
  {
    hide Fix;
    var e := Entry(v[k].item, Dec(v[k].major), v[k].minor);
    FixedSlots(v, k, e);
    var r := ReleaseAt(v, k);
    forall i | 0 <= i < |r| ensures HasTie(v, r[i].item, r[i].minor) {
      if r[i] == e {
        assert v[k].item == r[i].item && v[k].minor == r[i].minor;
      } else {
        var j :| 0 <= j < |v| && v[j] == r[i];
      }
    }
  }

  lemma StepKeepsOrdered(s: System, step: Step)
    requires Ordered(s) && Enabled(s, step) && !step.Update?
    ensures Ordered(Apply(s, step))
  {
    hide Inv, Apply, Enabled, IsHeap, LeastLoadedRuns.Unsigned;
    StepKeepsInv(s, step);
    StepKeepsOrderIff(s, step);
    NotAnUpdate(s, step);
  }

  lemma NotAnUpdate(s: System, step: Step)
    requires Enabled(s, step) && !step.Update?
    ensures SafeStep(s, step)
  {
  }

  ghost predicate OpenWithout(s: System, t: System, ids: set<nat>) {
    forall x :: x in Known(s) ==> OpenPicks(t, x) == OpenPicks(s, x) - ids
  }

  /** What a step of one connection changes for the picker: the picks it releases. */
  lemma OnConnChanges(s: System, c: Conn, st: Life.Step)
    requires Ordered(s) && Enabled(s, OnConn(c, st))
    ensures var t := Apply(s, OnConn(c, st));
            && Ordered(t) && Known(t) == Known(s) && t.holder == s.holder && SameTies(s.view, t.view)
            && ConnState(t, c) == Life.Apply(ConnState(s, c), st)
            && OpenWithout(s, t, if Life.Releases(st) then {st.id} else {})
  {
    hide Life.Apply, Life.Enabled, Life.Releases, OpenPicks, ItemsOf, IsHeap, Inv, Release, SameTies, Known, OpenWithout, LeastLoadedRuns.Unsigned;
    StepKeepsOrdered(s, OnConn(c, st));
    OrderedInv(s);
    InvHeld(s);
    OpenPicksMove(s, c, st);
    var m := Move(s, c, st);
    if Life.Releases(st) {
      HolderIsKnown(s, st.id);
      SameKnown(s, m);
      ReleaseChanges(s, m, s.holder[st.id], st.id);
    } else {
      TiesSelf(s.view);
      SameKnown(s, m);
      NothingReleased(s, m);
    }
  }

  lemma InvHeld(s: System)
    requires Inv(s)
    ensures Held(s) && LeastLoadedRuns.DistinctItems(s.view)
  {
  }

  lemma NothingReleased(s: System, t: System)
    requires forall x :: OpenPicks(t, x) == OpenPicks(s, x)
    ensures OpenWithout(s, t, {})
  {
    hide OpenPicks, Known;
    forall x | x in Known(s) ensures OpenPicks(t, x) == OpenPicks(s, x) - {} {
      assert OpenPicks(s, x) - {} == OpenPicks(s, x);
    }
  }

  /** `m` is the state in which the request has moved on and its item is about to be released. */
  lemma ReleaseChanges(s: System, m: System, x: ConnItem, id: nat)
    requires Inv(s) && Held(m) && m.view == s.view && m.evicted == s.evicted && m.holder == s.holder && x in Known(s) && id in OpenPicks(s, x)
    requires Known(m) == Known(s)
    requires forall y :: OpenPicks(m, y) == if y == x then OpenPicks(s, x) - {id} else OpenPicks(s, y)
    ensures var t := Release(m, x);
            Known(t) == Known(s) && t.holder == s.holder && t.conns == m.conns && SameTies(s.view, t.view) && OpenWithout(s, t, {id})
  {
    hide OpenPicks, SameTies, Held, LoadsCount;
    var t := Release(m, x);
    ReleaseKeepsKnown(m, x);
    HeldDependsOn(m, t);
    HeldBy(s, id, x);
    if x !in s.evicted { ReleasedTies(s.view, SlotOf(s.view, x)); } else { TiesSelf(s.view); }
    forall y | y in Known(s) ensures OpenPicks(t, y) == OpenPicks(s, y) - {id} {
      var open := OpenPicks(s, y);
      assert y != x ==> open - {id} == open;
    }
  }

  lemma TiesSelf(v: seq<Slot>)
    ensures SameTies(v, v)
  {
    forall i | 0 <= i < |v| ensures HasTie(v, v[i].item, v[i].minor) {
      assert v[i] == v[i];
    }
  }

  // ---------------------------------------------------------------- finishing requests

  function Stage(r: Life.Request): nat {
    match r
    case Picked => 3
    case Active => 2
    case BodyOpen => 2
    case Aborting => 2
    case _ => 1
  }

  /** The next step of a request that has not been released. */
  function NextStep(s: Life.Conn, id: nat): Life.Step
    requires id in s.requests
  {
    match s.requests[id]
    case Picked => Life.Start(id)
    case Aborting => Life.Abort(id)
    case Active => Life.Fail(id)
    case BodyOpen => Life.Hook(id)
    case Rejected => Life.Reject(id)
    case _ => Life.Release(id)
  }

  lemma Advances(s: Life.Conn, id: nat)
    requires id in Life.Where(s.requests, Life.Unreleased)
    ensures id in s.requests
    ensures var st := NextStep(s, id);
            && Life.Enabled(s, st) && !st.Pick? && (Life.Releases(st) ==> st.id == id)
            && (!Life.Releases(st) ==> id in Life.Apply(s, st).requests && Stage(Life.Apply(s, st).requests[id]) < Stage(s.requests[id]))
  {
  }

  /** `t` is `s` with one pick released, or none yet. */
  ghost predicate Released(s: System, t: System, ids: set<nat>) {
    && Reaches(s, t) && Ordered(t) && Known(t) == Known(s) && t.holder == s.holder && SameTies(s.view, t.view)
    && OpenWithout(s, t, ids)
  }

  lemma ReleasedConcat(s: System, t: System, u: System, a: set<nat>, b: set<nat>)
    requires Released(s, t, a) && Released(t, u, b)
    ensures Released(s, u, a + b)
  {
    hide Reaches, SameTies, Known, OpenPicks, Ordered;
    ReachesConcat(s, t, u);
    SameTiesConcat(s.view, t.view, u.view);
    forall x | x in Known(s) ensures OpenPicks(u, x) == OpenPicks(s, x) - (a + b) {
      assert OpenPicks(t, x) == OpenPicks(s, x) - a;
    }
  }

  lemma HeldBy(s: System, id: nat, x: ConnItem)
    requires Inv(s) && id in OpenPicks(s, x)
    ensures id in s.holder && s.holder[id] == x && id in Life.Where(ConnState(s, x.conn).requests, Life.Unreleased)
    ensures forall y :: y != x ==> id !in OpenPicks(s, y)
  {
  }

  /** One request runs to its release. */
  lemma {:induction false} FinishPick(s: System, x: ConnItem, id: nat) returns (t: System)
    requires Ordered(s) && id in OpenPicks(s, x) && id in ConnState(s, x.conn).requests
    ensures Released(s, t, {id})
    decreases Stage(ConnState(s, x.conn).requests[id])
  {
    hide Life.Apply, Life.Enabled, Life.Releases, Life.Where, OpenPicks, Known, Reaches, SameTies, Stage, NextStep, Ordered;
    OrderedInv(s);
    HeldBy(s, id, x);
    Advances(ConnState(s, x.conn), id);
    var st := NextStep(ConnState(s, x.conn), id);
    ConnStepEnabled(s, x.conn, st);
    OnConnChanges(s, x.conn, st);
    ReachesStep(s, Moves(x.conn, st));
    var next := Apply(s, OnConn(x.conn, st));
    hide Apply, Enabled;
    if Life.Releases(st) {
      t := next;
    } else {
      StillOpen(s, next, x, id);
      t := FinishPick(next, x, id);
      ReleasedConcat(s, next, t, {}, {id});
      assert {} + {id} == {id};
    }
  }

  lemma StillOpen(s: System, t: System, x: ConnItem, id: nat)
    requires Inv(s) && id in OpenPicks(s, x) && OpenWithout(s, t, {})
    ensures id in OpenPicks(t, x)
  {
    hide OpenPicks, Known;
    HeldBy(s, id, x);
    HolderIsKnown(s, id);
  }

  lemma OrderedInv(s: System)
    requires Ordered(s)
    ensures Inv(s)
  {
  }

  lemma ConnStepEnabled(s: System, c: Conn, st: Life.Step)
    requires !st.Pick? && Life.Enabled(ConnState(s, c), st)
    ensures Enabled(s, OnConn(c, st)) && AsStep(Moves(c, st)) == OnConn(c, st)
  {
  }

  /** All picks that have not been released. */
  ghost function AllOpen(s: System): set<nat> {
    set id | id in s.holder && id in OpenPicks(s, s.holder[id])
  }

  lemma ReleasedMeans(s: System, t: System, ids: set<nat>)
    requires Released(s, t, ids)
    ensures Ordered(t)
  {
  }

  lemma OpenAfter(s: System, t: System, ids: set<nat>)
    requires Inv(s) && Released(s, t, ids)
    ensures AllOpen(t) == AllOpen(s) - ids
  {
    hide OpenPicks, Known, Reaches, SameTies, Ordered;
    forall id | id in s.holder ensures s.holder[id] in Known(s) {
      HolderIsKnown(s, id);
    }
  }

  lemma FinishOne(s: System, id: nat) returns (t: System)
    requires Ordered(s) && id in AllOpen(s)
    ensures Released(s, t, {id}) && Ordered(t) && AllOpen(t) == AllOpen(s) - {id}
  {
    hide Ordered, OpenPicks, Released;
    OrderedInv(s);
    OpenIsRequest(s, id, s.holder[id]);
    t := FinishPick(s, s.holder[id], id);
    OpenAfter(s, t, {id});
    ReleasedMeans(s, t, {id});
  }

  /** Every request but one runs to its release. */
  lemma {:induction false} FinishAllBut(s: System, keep: nat) returns (t: System)
    requires Ordered(s)
    ensures Released(s, t, AllOpen(s) - {keep}) && AllOpen(t) <= {keep}
    decreases |AllOpen(s)|
  {
    hide Ordered, OpenPicks, Released;
    if AllOpen(s) <= {keep} {
      t := s;
      NoneReleased(s);
      assert AllOpen(s) - {keep} == {};
    } else {
      var id :| id in AllOpen(s) && id != keep;
      hide AllOpen;
      var next := FinishOne(s, id);
      t := FinishAllBut(next, keep);
      ReleasedConcat(s, next, t, {id}, AllOpen(next) - {keep});
      assert {id} + (AllOpen(next) - {keep}) == AllOpen(s) - {keep};
    }
  }

  lemma NoneReleased(s: System)
    requires Ordered(s)
    ensures Released(s, s, {})
  {
    hide OpenPicks, Ordered, Known, SameTies, Reaches;
    ReachesSelf(s);
    TiesSelf(s.view);
    forall x | x in Known(s) ensures OpenPicks(s, x) == OpenPicks(s, x) - {} {
    }
  }

  // ---------------------------------------------------------------- picking past a stale item

  ghost predicate OneItemPerConn(v: seq<Slot>) {
    forall x, y :: x in ItemsOf(v) && y in ItemsOf(v) && x.conn == y.conn ==> x == y
  }

  /** What a pick changes: the root's entry and its open picks. */
  lemma PickChanges(s: System, id: nat, tie: Uint64)
    requires Ordered(s) && Enabled(s, Pick(id, tie))
    ensures var t, x := Apply(s, Pick(id, tie)), s.view[0].item;
            && Ordered(t) && Known(t) == Known(s) && |t.view| == |s.view| && ItemsOf(t.view) == ItemsOf(s.view) && id !in s.holder
            && (forall y :: y in Known(s) ==> OpenPicks(t, y) == if y == x then OpenPicks(s, x) + {id} else OpenPicks(s, y))
            && (forall i :: 0 <= i < |t.view| ==> t.view[i] == Entry(x, Inc(s.view[0].major), tie)
                                                   || (t.view[i].item != x && exists j :: 0 <= j < |s.view| && s.view[j] == t.view[i]))
  {
    hide Life.Apply, Life.Enabled, OpenPicks, Held, Fix, IsHeap, LoadsCount;
    var x := s.view[0].item;
    var t := Apply(s, Pick(id, tie));
    StepKeepsOrdered(s, Pick(id, tie));
    assert x in ItemsOf(s.view);
    FixedSlots(s.view, 0, Entry(x, Inc(s.view[0].major), tie));
    PickIsEnabled(s, x.conn, id);
    PickMoves(s, t, x, id);
  }

  lemma NewId(s: System) returns (id: nat)
    requires Inv(s)
    ensures NewRequest(s, id)
  {
    id := Unused(s.holder.Keys);
    hide LoadsCount;
  }

  /**
   One connection, behind item `x` of the heap, still has the request `id` counted on its old item `y`;
   nothing is open on `x`, at most one pick on any other item of the heap, and nothing anywhere else.
   */
  ghost predicate OneStale(s: System, x: ConnItem, y: ConnItem, id: nat) {
    && Ordered(s) && OneItemPerConn(s.view) && x in ItemsOf(s.view) && y in Known(s) && y !in ItemsOf(s.view) && x.conn == y.conn
    && OpenPicks(s, y) == {id} && OpenPicks(s, x) == {}
    && (forall z :: z in Known(s) && z !in ItemsOf(s.view) && z != y ==> OpenPicks(s, z) == {})
    && (forall z :: z in ItemsOf(s.view) ==> |OpenPicks(s, z)| <= 1)
  }

  /** `x` has tie-break `tie`, and the items with an open pick have later ones. */
  ghost predicate PickedLater(s: System, x: ConnItem, tie: int) {
    && (forall i :: 0 <= i < |s.view| && s.view[i].item == x ==> s.view[i].minor == tie)
    && (forall i :: 0 <= i < |s.view| && OpenPicks(s, s.view[i].item) != {} ==> s.view[i].minor > tie)
  }

  /** The items of the heap without an open pick. */
  ghost function IdleItems(s: System): set<ConnItem> {
    set z | z in ItemsOf(s.view) && OpenPicks(s, z) == {}
  }

  lemma SmallLoad(s: System, i: nat)
    requires Inv(s) && i < |s.view| && |OpenPicks(s, s.view[i].item)| <= 1
    ensures s.view[i].major == |OpenPicks(s, s.view[i].item)|
  {
    hide OpenPicks, Held;
  }

  /** The root of the heap is idle, since `x` is. */
  lemma RootIsIdle(s: System, x: ConnItem, y: ConnItem, id: nat)
    requires OneStale(s, x, y, id)
    ensures s.view != [] && s.view[0].item in IdleItems(s)
  {
    hide OpenPicks, IsHeap, Inv;
    var k := SlotOf(s.view, x);
    RootIsLeast(s.view, k);
    assert s.view[0].item in ItemsOf(s.view);
    SmallLoad(s, 0);
    SmallLoad(s, k);
  }

  /** A pick of another item, later than `x` was picked. */
  lemma PickOther(s: System, x: ConnItem, y: ConnItem, id: nat, tie: int, now: Uint64) returns (t: System)
    requires OneStale(s, x, y, id) && PickedLater(s, x, tie) && now > tie && s.view != [] && s.view[0].item != x
    ensures Reaches(s, t) && OneStale(t, x, y, id) && PickedLater(t, x, tie) && ItemsOf(t.view) == ItemsOf(s.view)
    ensures IdleItems(t) == IdleItems(s) - {s.view[0].item} && s.view[0].item in IdleItems(s)
  {
    hide OpenPicks, Known, IsHeap, Inv, Reaches, Apply, Enabled, LeastLoadedRuns.Unsigned;
    RootIsIdle(s, x, y, id);
    var next := NewId(s);
    PickIsPossible(s, next, now);
    PickChanges(s, next, now);
    ReachesStep(s, Another(next, now));
    t := Apply(s, Pick(next, now));
    var root := s.view[0].item;
    forall i | 0 <= i < |s.view| ensures s.view[i].item in ItemsOf(s.view) && s.view[i].item in Known(s) {
      InKnown(s, i);
    }
    assert OpenPicks(t, root) == {} + {next};
  }

  lemma InKnown(s: System, i: nat)
    requires i < |s.view|
    ensures s.view[i].item in ItemsOf(s.view) && ItemsOf(s.view) <= Known(s)
  {
  }

  lemma PickIsPossible(s: System, id: nat, tie: Uint64)
    requires s.view != [] && NewRequest(s, id)
    ensures Enabled(s, Pick(id, tie)) && AsStep(Another(id, tie)) == Pick(id, tie)
  {
  }

  /** Other items are picked until it is the turn of `x`. */
  lemma {:induction false} PickUntil(s: System, x: ConnItem, y: ConnItem, id: nat, tie: int, now: Uint64) returns (t: System)
    requires OneStale(s, x, y, id) && PickedLater(s, x, tie) && now > tie && now + |IdleItems(s)| < TWO_64
    ensures Reaches(s, t) && OneStale(t, x, y, id) && PickedLater(t, x, tie) && ItemsOf(t.view) == ItemsOf(s.view)
    ensures t.view != [] && t.view[0].item == x
    decreases |IdleItems(s)|
  {
    hide OneStale, PickedLater, Reaches, OpenPicks;
    RootIsIdle(s, x, y, id);
    if s.view[0].item == x {
      t := s;
      ReachesSelf(s);
    } else {
      var next := PickOther(s, x, y, id, tie, now);
      t := PickUntil(next, x, y, id, tie, now + 1);
      ReachesConcat(s, next, t);
    }
  }

  /** At the turn of `x` some other item is idle, or becomes so when its one request is finished. */
  lemma FreeAnother(s: System, x: ConnItem, y: ConnItem, id: nat, tie: int) returns (t: System, d: ConnItem)
    requires OneStale(s, x, y, id) && PickedLater(s, x, tie) && |s.view| >= 2 && s.view[0].item == x
    ensures Reaches(s, t) && OneStale(t, x, y, id) && t.view != [] && t.view[0].item == x
    ensures d in IdleItems(t) && d != x
  {
    hide OpenPicks, Known, IsHeap, Inv, Reaches, LeastLoadedRuns.Unsigned;
    if z :| z in IdleItems(s) && z != x {
      t, d := s, z;
      ReachesSelf(s);
    } else {
      OrderedInv(s);
      d := s.view[1].item;
      InKnown(s, 1);
      Distinct(s);
      assert d !in IdleItems(s);
      var other :| other in OpenPicks(s, d);
      HeldBy(s, other, d);
      OpenIsRequest(s, other, d);
      t := FinishPick(s, d, other);
      SubsetCard({other}, OpenPicks(s, d));
      FinishedState(s, t, x, y, id, tie, d, other);
    }
  }

  lemma Distinct(s: System)
    requires Inv(s) && |s.view| >= 2
    ensures s.view[0].item != s.view[1].item
  {
    if s.view[0].item == s.view[1].item { SameSlot(s.view, 0, 1); }
  }

  lemma OpenIsRequest(s: System, id: nat, x: ConnItem)
    requires id in OpenPicks(s, x)
    ensures id in ConnState(s, x.conn).requests
  {
  }

  lemma FinishedState(s: System, t: System, x: ConnItem, y: ConnItem, id: nat, tie: int, d: ConnItem, other: nat)
    requires OneStale(s, x, y, id) && PickedLater(s, x, tie) && s.view != [] && s.view[0].item == x
    requires d in ItemsOf(s.view) && d != x && OpenPicks(s, d) == {other} && Released(s, t, {other})
    requires IdleItems(s) <= {x}
    ensures OneStale(t, x, y, id) && t.view != [] && t.view[0].item == x && d in IdleItems(t)
  {
    hide OpenPicks, Known, IsHeap, Inv, Reaches, LeastLoadedRuns.Unsigned;
    OrderedInv(s);
    OnlyOne(s, other, d);
    assert ItemsOf(s.view) <= Known(s) by { InKnown(s, 0); }
    assert OneStale(t, x, y, id);
    RootStays(s, t, x, y, id, tie);
  }

  lemma OnlyOne(s: System, id: nat, x: ConnItem)
    requires Inv(s) && id in OpenPicks(s, x)
    ensures forall z :: z in Known(s) && z != x ==> OpenPicks(s, z) - {id} == OpenPicks(s, z)
  {
    forall z | z in Known(s) && z != x ensures OpenPicks(s, z) - {id} == OpenPicks(s, z) {
      HeldBy(s, id, x);
    }
  }

  /** Fewer open picks elsewhere do not bring another item before `x`, which was picked before all of them. */
  lemma RootStays(s: System, t: System, x: ConnItem, y: ConnItem, id: nat, tie: int)
    requires OneStale(s, x, y, id) && PickedLater(s, x, tie) && s.view != [] && s.view[0].item == x
    requires OneStale(t, x, y, id) && SameTies(s.view, t.view) && IdleItems(s) <= {x}
    ensures t.view != [] && t.view[0].item == x
  {
    hide OpenPicks, Known, Inv, IsHeap;
    var k := SlotOf(t.view, x);
    RootIsLeast(t.view, k);
    RootIsIdle(t, x, y, id);
    SmallLoad(t, 0);
    SmallLoad(t, k);
    assert HasTie(s.view, t.view[0].item, t.view[0].minor) && HasTie(s.view, x, t.view[k].minor);
    var i :| 0 <= i < |s.view| && s.view[i].item == t.view[0].item && s.view[i].minor == t.view[0].minor;
    InKnown(s, i);
    var j :| 0 <= j < |s.view| && s.view[j].item == x && s.view[j].minor == t.view[k].minor;
    assert s.view[i].item in IdleItems(s) ==> s.view[i].item == x;
  }

  // ---------------------------------------------------------------- exactly when

  /** With `x` at the root, idle except for the stale request, another idle connection has fewer requests. */
  lemma StaleRootIsNotLeast(s: System, x: ConnItem, y: ConnItem, id: nat, d: ConnItem)
    requires OneStale(s, x, y, id) && s.view != [] && s.view[0].item == x && d in IdleItems(s) && d != x
    ensures Countable(s) && !RootConnIsLeast(s)
  {
    hide OpenPicks, Unreleased, IsHeap, LoadsCount, LeastLoadedRuns.Unsigned, Held;
    OrderedInv(s);
    forall k | 0 <= k < |s.view| ensures |Unreleased(s, s.view[k].item.conn)| <= 1 {
      InKnown(s, k);
      var z := s.view[k].item;
      UnreleasedOnConn(s, x, y, id, z);
      SubsetCard(Unreleased(s, z.conn), if z == x then {id} else OpenPicks(s, z));
    }
    UnreleasedOnConn(s, x, y, id, d);
    OpenIsUnreleased(s, id, y);
    assert |Unreleased(s, x.conn)| > 0;
    var k := SlotOf(s.view, d);
    assert |Unreleased(s, s.view[k].item.conn)| == 0;
  }

  lemma OpenIsUnreleased(s: System, id: nat, y: ConnItem)
    requires id in OpenPicks(s, y)
    ensures id in Unreleased(s, y.conn)
  {
  }

  lemma UnreleasedOnConn(s: System, x: ConnItem, y: ConnItem, id: nat, z: ConnItem)
    requires OneStale(s, x, y, id) && z in ItemsOf(s.view)
    ensures Unreleased(s, z.conn) <= if z == x then {id} else OpenPicks(s, z)
  {
    hide OpenPicks, Unreleased, IsHeap, LoadsCount, LeastLoadedRuns.Unsigned;
    OrderedInv(s);
    UnreleasedAreHeld(s, z.conn);
    forall i | i in Unreleased(s, z.conn) ensures i in if z == x then {id} else OpenPicks(s, z) {
      HeldIsOpen(s, i, z.conn);
    }
  }

  lemma HeldIsOpen(s: System, id: nat, c: Conn)
    requires id in s.holder && s.holder[id].conn == c && id in Unreleased(s, c)
    ensures id in OpenPicks(s, s.holder[id])
  {
  }

  /** All requests but one on an old item are finished. */
  lemma Settle(s: System, x: ConnItem, y: ConnItem) returns (t: System, id: nat)
    requires Ordered(s) && OneItemPerConn(s.view) && x in ItemsOf(s.view) && y in Known(s) && y.conn == x.conn && y != x
    requires OpenPicks(s, y) != {}
    ensures Reaches(s, t) && OneStale(t, x, y, id) && SameTies(s.view, t.view) && ItemsOf(t.view) == ItemsOf(s.view)
    ensures forall z :: z in ItemsOf(t.view) ==> OpenPicks(t, z) == {}
  {
    hide OpenPicks, Known, IsHeap, Inv, Reaches, LeastLoadedRuns.Unsigned;
    OrderedInv(s);
    id :| id in OpenPicks(s, y);
    t := FinishAllBut(s, id);
    OrderedInv(t);
    HeldBy(s, id, y);
    assert ItemsOf(s.view) <= Known(s) by { InKnown(s, SlotOf(s.view, x)); }
    forall z | z in Known(s) ensures OpenPicks(t, z) == if z == y then {id} else {} {
      OpenAmong(s, z);
      OpenAmong(t, z);
      if z != y { assert id !in OpenPicks(s, z); }
    }
  }

  lemma OpenAmong(s: System, x: ConnItem)
    requires Inv(s)
    ensures OpenPicks(s, x) <= AllOpen(s)
  {
  }

  /** With a stale request and a second connection, the picker can come to pick a connection that is not least. */
  lemma StaleMisleads(s: System, x: ConnItem, y: ConnItem, counter: Uint64) returns (t: System)
    requires Ordered(s) && OneItemPerConn(s.view) && |s.view| >= 2
    requires (forall i :: 0 <= i < |s.view| ==> s.view[i].minor <= counter) && counter + |s.view| + 1 < TWO_64
    requires x in ItemsOf(s.view) && y in Known(s) && y.conn == x.conn && y != x && OpenPicks(s, y) != {}
    ensures Reaches(s, t) && Countable(t) && !RootConnIsLeast(t)
  {
    hide OpenPicks, Known, Reaches, OneStale, RootConnIsLeast, Countable;
    var a, id := Settle(s, x, y);
    var k := SlotOf(a.view, x);
    var tie := a.view[k].minor;
    TiesBelow(s, a, counter);
    StaleSlots(a, x, y, id);
    assert PickedLater(a, x, tie) by {
      forall i | 0 <= i < |a.view| && a.view[i].item == x ensures a.view[i].minor == tie {
        SameSlot(a.view, i, k);
      }
      forall i | 0 <= i < |a.view| ensures OpenPicks(a, a.view[i].item) == {} { InKnown(a, i); }
    }
    var b := PickUntil(a, x, y, id, tie, counter + 1);
    StaleSlots(b, x, y, id);
    SameCount(s, b);
    ReachesConcat(s, a, b);
    var d;
    t, d := FreeAnother(b, x, y, id, tie);
    ReachesConcat(s, b, t);
    StaleRootIsNotLeast(t, x, y, id, d);
  }

  lemma TiesBelow(s: System, t: System, counter: int)
    requires SameTies(s.view, t.view) && forall i :: 0 <= i < |s.view| ==> s.view[i].minor <= counter
    ensures forall i :: 0 <= i < |t.view| ==> t.view[i].minor <= counter
  {
    forall i | 0 <= i < |t.view| ensures t.view[i].minor <= counter {
      assert HasTie(s.view, t.view[i].item, t.view[i].minor);
    }
  }

  lemma StaleSlots(s: System, x: ConnItem, y: ConnItem, id: nat)
    requires OneStale(s, x, y, id)
    ensures Inv(s) && LeastLoadedRuns.DistinctItems(s.view) && |IdleItems(s)| <= |s.view|
  {
    LeastLoadedRuns.DistinctByCard(s.view);
    SubsetCard(IdleItems(s), ItemsOf(s.view));
  }

  lemma SameCount(s: System, t: System)
    requires Inv(s) && Inv(t) && ItemsOf(s.view) == ItemsOf(t.view)
    ensures |s.view| == |t.view|
  {
    LeastLoadedRuns.DistinctByCard(s.view);
    LeastLoadedRuns.DistinctByCard(t.view);
  }

  /** Without updates no request becomes stale. */
  lemma StepKeepsFresh(s: System, m: Steady)
    requires Ordered(s) && OneItemPerConn(s.view) && !HasStalePicks(s) && Enabled(s, AsStep(m))
    ensures var t := Apply(s, AsStep(m)); Ordered(t) && OneItemPerConn(t.view) && !HasStalePicks(t)
  {
    hide OpenPicks, Known, Inv, IsHeap, LeastLoadedRuns.Unsigned, Apply;
    match m
    case Another(id, tie) =>
      PickChanges(s, id, tie);
      var root := s.view[0].item;
      InKnown(s, 0);
    case Moves(c, st) => OnConnChanges(s, c, st);
  }

  lemma {:induction false} RunKeepsFresh(s: System, run: seq<Steady>)
    requires Ordered(s) && OneItemPerConn(s.view) && !HasStalePicks(s) && SteadyRuns(s, run)
    ensures Ordered(SteadyAfter(s, run)) && !HasStalePicks(SteadyAfter(s, run))
    decreases |run|
  {
    hide Ordered, OneItemPerConn, HasStalePicks, Apply, Enabled, AsStep;
    if run != [] {
      StepKeepsFresh(s, run[0]);
      RunKeepsFresh(Apply(s, AsStep(run[0])), run[1..]);
    }
  }

  /**
   When a least-loaded picker really picks the least busy connection, exactly: as long as the set of two
   or more connections stays as it is, every pick takes a connection with the fewest unreleased
   picks if and only if no connection of the heap has requests in flight that were counted on an older
   item, one it had before it left and came back. `counter` is the tie-break of the last pick.
   */
  lemma PicksLeastConnIff(s: System, counter: Uint64)
    requires Ordered(s) && OneItemPerConn(s.view) && |s.view| >= 2
    requires (forall i :: 0 <= i < |s.view| ==> s.view[i].minor <= counter) && counter + |s.view| + 1 < TWO_64
    ensures (forall t :: Reaches(s, t) && Countable(t) ==> RootConnIsLeast(t)) <==> !HasStalePicks(s)
  {
    hide Reaches, RootConnIsLeast, Countable, Ordered, OneItemPerConn, Known, OpenPicks;
    if HasStalePicks(s) {
      var x, y :| x in ItemsOf(s.view) && y in Known(s) && y.conn == x.conn && y != x && OpenPicks(s, y) != {};
      var t := StaleMisleads(s, x, y, counter);
    } else {
      forall t | Reaches(s, t) && Countable(t) ensures RootConnIsLeast(t) {
        FreshReaches(s, t);
        RootConnHasFewest(t);
      }
    }
  }

  lemma FreshReaches(s: System, t: System)
    requires Ordered(s) && OneItemPerConn(s.view) && !HasStalePicks(s) && Reaches(s, t)
    ensures Ordered(t) && !HasStalePicks(t)
  {
    hide Ordered, OneItemPerConn, HasStalePicks;
    var run :| SteadyRuns(s, run) && SteadyAfter(s, run) == t;
    RunKeepsFresh(s, run);
  }

  // ---------------------------------------------------------------- over whole runs

  lemma DistinctConnsOneItem(v: seq<Slot>)
    requires NoDup(ConnsOf(v))
    ensures OneItemPerConn(v)
  {
    forall x, y | x in ItemsOf(v) && y in ItemsOf(v) && x.conn == y.conn ensures x == y {
      var i :| 0 <= i < |v| && v[i].item == x;
      var j :| 0 <= j < |v| && v[j].item == y;
      assert ConnsOf(v)[i] == ConnsOf(v)[j];
    }
  }

  lemma SameItemsOneItem(v: seq<Slot>, r: seq<Slot>)
    requires ItemsOf(r) == ItemsOf(v) && OneItemPerConn(v)
    ensures OneItemPerConn(r)
  {
  }

  /** Only updates change which items are in the heap. */
  lemma ItemsStay(s: System, step: Step)
    requires Inv(s) && Enabled(s, step) && !step.Update?
    ensures ItemsOf(Apply(s, step).view) == ItemsOf(s.view)
  {
    hide Fix, ItemsOf, Inv, Apply, Enabled;
    var v := s.view;
    var op := StepIsHeapOp(s, step);
    match op
    case DoAcquire(tie) => LeastLoadedRuns.ReplaceAndFix(v, 0, Entry(v[0].item, Inc(v[0].major), tie));
    case DoRelease(slot) => LeastLoadedRuns.ReplaceAndFix(v, slot, Entry(v[slot].item, Dec(v[slot].major), v[slot].minor));
    case DoReleaseEvicted =>
  }

  lemma StepKeepsOneItem(s: System, step: Step)
    requires Inv(s) && LeastLoadedRuns.Unsigned(s.view) && OneItemPerConn(s.view) && Enabled(s, step)
    ensures LeastLoadedRuns.Unsigned(Apply(s, step).view) && OneItemPerConn(Apply(s, step).view)
  {
    hide OpenPicks, IsHeap, Inv, ItemsOf, Compact, UpdateResult, OneItemPerConn, LeastLoadedRuns.Unsigned;
    var op := StepIsHeapOp(s, step);
    LeastLoadedRuns.StepKeepsUnsigned(s.view, op);
    if step.Update? {
      LeastLoadedRuns.UpdateHoldsExactly(s.view, step.wanted, step.added);
      DistinctConnsOneItem(UpdateResult(s.view, step.wanted, step.added));
    } else {
      ItemsStay(s, step);
      SameItemsOneItem(s.view, Apply(s, step).view);
    }
  }

  lemma {:induction false} RunKeepsOneItem(s: System, steps: seq<Step>)
    requires Inv(s) && LeastLoadedRuns.Unsigned(s.view) && OneItemPerConn(s.view) && Runs(s, steps)
    ensures var t := After(s, steps); Inv(t) && LeastLoadedRuns.Unsigned(t.view) && OneItemPerConn(t.view)
    decreases |steps|
  {
    hide Inv, Apply, Enabled, LeastLoadedRuns.Unsigned, OneItemPerConn;
    if steps != [] {
      StepKeepsOneItem(s, steps[0]);
      StepKeepsInv(s, steps[0]);
      RunKeepsOneItem(Apply(s, steps[0]), steps[1..]);
    }
  }

  lemma FreshOneItem(s: System, added: seq<Slot>, conns: seq<Conn>)
    requires Fresh(s, added, conns) && NoDup(conns)
    ensures Ordered(s) && OneItemPerConn(s.view)
  {
    hide Init, OpenPicks, IsHeap, ItemsOf, OneItemPerConn;
    FreshInv(s, added, conns);
    assert ConnsOf(added) == conns;
    InitPermutes(added);
    LeastLoadedRuns.PermutationKeeps(added, Init(added));
    DistinctConnsOneItem(s.view);
  }

  /**
   The same after any run of a picker made for distinct connections that leaves the heap in order, be it
   because every update was safe or because a later one rebuilt it: from there on, as long as the
   connections stay, every pick takes a connection with the fewest requests in flight if and only if none
   of them has requests that were counted on an older item.
   */
  lemma PicksLeastConnAfterRunIff(s: System, added: seq<Slot>, conns: seq<Conn>, steps: seq<Step>, counter: Uint64)
    requires Fresh(s, added, conns) && NoDup(conns) && Runs(s, steps)
    requires var t := After(s, steps);
             IsHeap(t.view) && |t.view| >= 2
             && (forall i :: 0 <= i < |t.view| ==> t.view[i].minor <= counter) && counter + |t.view| + 1 < TWO_64
    ensures var t := After(s, steps);
            (forall u :: Reaches(t, u) && Countable(u) ==> RootConnIsLeast(u)) <==> !HasStalePicks(t)
  {
    hide Reaches, RootConnIsLeast, Countable, Inv, IsHeap, LeastLoadedRuns.Unsigned, OneItemPerConn, HasStalePicks, Fresh;
    FreshOneItem(s, added, conns);
    RunKeepsOneItem(s, steps);
    PicksLeastConnIff(After(s, steps), counter);
  }

  // ---------------------------------------------------------------- a failing run

  /** A run whose updates are safe, and where it ends. */
  ghost predicate SafeRun(s: System, run: seq<Step>, t: System) {
    Runs(s, run) && UpdatesSafe(s, run) && After(s, run) == t
  }

  /** Steps `step` then `rest`. */
  lemma RunFromBack(s: System, step: Step, rest: seq<Step>, next: System, last: System) returns (run: seq<Step>)
    requires Enabled(s, step) && Apply(s, step) == next && SafeStep(s, step) && SafeRun(next, rest, last)
    ensures run == [step] + rest && SafeRun(s, run, last)
  {
    hide Apply, Enabled, SafeStep;
    run := [step] + rest;
    assert run[0] == step && run[1..] == rest;
  }

  function Picked(ids: set<nat>): Life.Conn {
    Life.Conn(0, 0, 0, [], map id | id in ids :: Life.Picked, map[])
  }

  /**
   Connection 0 is picked twice, leaves while both requests are in flight, comes back with a new item,
   and is about to be picked again, although connection 1 has one request only.
   */
  lemma BusyConnIsPicked(i: ConnItem, j: ConnItem, back: ConnItem) returns (run: seq<Step>, t: System)
    requires i.conn == 0 && j.conn == 1 && back.conn == 0 && i != back
    ensures var s := System([Entry(i, 0, 0)], map[], map[], map[]);
            Fresh(s, [Entry(i, 0, 0)], [0]) && SafeRun(s, run, t)
    ensures run == [Pick(0, 1), Pick(1, 2), Update({1}, [Entry(j, 0, 0)]), Update({0, 1}, [Entry(back, 0, 0)]), Pick(2, 3)]
    ensures t.view == [Entry(back, 0, 0), Entry(j, 1, 3)] && Unreleased(t, 0) == {0, 1} && Unreleased(t, 1) == {2}
    ensures HasStalePicks(t) && !RootConnIsLeast(t)
  {
    var s0 := System([Entry(i, 0, 0)], map[], map[], map[]);
    var s2 := System([Entry(i, 2, 2)], map[], map[0 := i, 1 := i], map[0 := Picked({0, 1})]);
    hide SafeRun, RootConnIsLeast, HasStalePicks, Fresh, Picked, Unreleased;
    run, t := BusyTail(s2, i, j, back);
    run := BusyHead(s0, s2, i, run, t);
    IsFresh(s0, i);
    Counted(t, i, j, back);
  }

  lemma BusyHead(s0: System, s2: System, i: ConnItem, tail: seq<Step>, last: System) returns (run: seq<Step>)
    requires i.conn == 0 && s0 == System([Entry(i, 0, 0)], map[], map[], map[])
    requires s2 == System([Entry(i, 2, 2)], map[], map[0 := i, 1 := i], map[0 := Picked({0, 1})]) && SafeRun(s2, tail, last)
    ensures SafeRun(s0, run, last) && run == [Pick(0, 1), Pick(1, 2)] + tail
  {
    var s1 := System([Entry(i, 1, 1)], map[], map[0 := i], map[0 := Picked({0})]);
    hide SafeRun, Apply, Enabled, SafeStep, Picked;
    Pick2(s1, s2, i);
    run := RunFromBack(s1, Pick(1, 2), tail, s2, last);
    Pick1(s0, s1, i);
    run := RunFromBack(s0, Pick(0, 1), run, s1, last);
    assert run == [Pick(0, 1), Pick(1, 2)] + tail;
  }

  lemma BusyTail(s2: System, i: ConnItem, j: ConnItem, back: ConnItem) returns (run: seq<Step>, last: System)
    requires i.conn == 0 && j.conn == 1 && back.conn == 0 && i != back
    requires s2 == System([Entry(i, 2, 2)], map[], map[0 := i, 1 := i], map[0 := Picked({0, 1})])
    ensures SafeRun(s2, run, last)
    ensures run == [Update({1}, [Entry(j, 0, 0)]), Update({0, 1}, [Entry(back, 0, 0)]), Pick(2, 3)]
    ensures last == System([Entry(back, 0, 0), Entry(j, 1, 3)], map[i := 2], map[0 := i, 1 := i, 2 := j], map[0 := Picked({0, 1}), 1 := Picked({2})])
  {
    var s3 := System([Entry(j, 0, 0)], map[i := 2], s2.holder, s2.conns);
    var s4 := System([Entry(j, 0, 0), Entry(back, 0, 0)], s3.evicted, s2.holder, s2.conns);
    last := System([Entry(back, 0, 0), Entry(j, 1, 3)], s3.evicted, s2.holder[2 := j], s2.conns[1 := Picked({2})]);
    assert 2 !in Picked({0, 1}).requests;
    hide Apply, Enabled, SafeStep, Picked;
    RunEnds(last);
    hide SafeRun;
    Pick5(s4, last, j, back);
    run := RunFromBack(s4, Pick(2, 3), [], last, last);
    Update4(s3, s4, j, back);
    run := RunFromBack(s3, Update({0, 1}, [Entry(back, 0, 0)]), run, s4, last);
    Update3(s2, s3, i, j);
    run := RunFromBack(s2, Update({1}, [Entry(j, 0, 0)]), run, s3, last);
  }

  lemma RunEnds(s: System)
    ensures SafeRun(s, [], s)
  {
  }

  lemma IsFresh(s: System, i: ConnItem)
    requires i.conn == 0 && s == System([Entry(i, 0, 0)], map[], map[], map[])
    ensures Fresh(s, [Entry(i, 0, 0)], [0])
  {
    assert Init([Entry(i, 0, 0)]) == [Entry(i, 0, 0)];
  }

  lemma Pick1(s: System, t: System, i: ConnItem)
    requires i.conn == 0 && s == System([Entry(i, 0, 0)], map[], map[], map[])
    requires t == System([Entry(i, 1, 1)], map[], map[0 := i], map[0 := Picked({0})])
    ensures Enabled(s, Pick(0, 1)) && Apply(s, Pick(0, 1)) == t && SafeStep(s, Pick(0, 1))
  {
    assert Acquire(s.view, 1) == t.view;
    assert Life.Apply(ConnState(s, 0), Life.Pick(0)) == Picked({0});
  }

  lemma Pick2(s: System, t: System, i: ConnItem)
    requires i.conn == 0 && s == System([Entry(i, 1, 1)], map[], map[0 := i], map[0 := Picked({0})])
    requires t == System([Entry(i, 2, 2)], map[], map[0 := i, 1 := i], map[0 := Picked({0, 1})])
    ensures Enabled(s, Pick(1, 2)) && Apply(s, Pick(1, 2)) == t && SafeStep(s, Pick(1, 2))
  {
    assert Acquire(s.view, 2) == t.view;
    assert Life.Apply(ConnState(s, 0), Life.Pick(1)) == Picked({0, 1});
  }

  lemma SingleSlot(e: Slot)
    ensures ItemsOf([e]) == {e.item} && ItemConns([e]) == {e.item.conn} && ConnsOf([e]) == [e.item.conn]
  {
    NothingAdded([]);
    AppendedSlot([], e);
    assert [] + [e] == [e];
  }

  lemma Update3(s: System, t: System, i: ConnItem, j: ConnItem)
    requires i.conn == 0 && j.conn == 1 && s == System([Entry(i, 2, 2)], map[], map[0 := i, 1 := i], map[0 := Picked({0, 1})])
    requires t == System([Entry(j, 0, 0)], map[i := 2], s.holder, s.conns)
    ensures var step := Update({1}, [Entry(j, 0, 0)]); Enabled(s, step) && Apply(s, step) == t && SafeStep(s, step)
  {
    assert s.view[..0] == [] && Compact([], {1}) == ([], {1});
    assert Compact(s.view, {1}) == ([], {1});
    assert [] + [Entry(j, 0, 0)] == [Entry(j, 0, 0)];
    SingleSlot(Entry(i, 2, 2));
    SingleSlot(Entry(j, 0, 0));
    assert UpdateResult(s.view, {1}, [Entry(j, 0, 0)]) == t.view;
  }

  lemma Update4(s: System, t: System, j: ConnItem, back: ConnItem)
    requires j.conn == 1 && back.conn == 0 && s.view == [Entry(j, 0, 0)] && back !in s.evicted
    requires t == s.(view := [Entry(j, 0, 0), Entry(back, 0, 0)])
    ensures var step := Update({0, 1}, [Entry(back, 0, 0)]); Enabled(s, step) && Apply(s, step) == t && SafeStep(s, step)
  {
    assert s.view[..0] == [] && Compact([], {0, 1}) == ([], {0, 1});
    assert {0, 1} - {1} == {0};
    assert [] + s.view == s.view;
    assert Compact(s.view, {0, 1}) == (s.view, {0});
    assert BitsLen(2) == 2;
    SingleSlot(Entry(j, 0, 0));
    SingleSlot(Entry(back, 0, 0));
    assert UpdateResult(s.view, {0, 1}, [Entry(back, 0, 0)]) == t.view;
    assert t.view[0].item == j;
  }

  lemma Pick5(s: System, t: System, j: ConnItem, back: ConnItem)
    requires j.conn == 1 && s.view == [Entry(j, 0, 0), Entry(back, 0, 0)] && s.conns.Keys == {0} && s.holder.Keys == {0, 1} && 2 !in s.conns[0].requests
    requires t == s.(view := [Entry(back, 0, 0), Entry(j, 1, 3)], holder := s.holder[2 := j], conns := s.conns[1 := Picked({2})])
    ensures Enabled(s, Pick(2, 3)) && Apply(s, Pick(2, 3)) == t && SafeStep(s, Pick(2, 3))
  {
    var v := [Entry(j, 1, 3), Entry(back, 0, 0)];
    assert s.view[0 := Entry(j, 1, 3)] == v && Swap(v, 0, 1) == t.view;
    assert SmallerChild(v, 0) == 1 && Before(v[1], v[0]);
    assert Down(t.view, 1) == (t.view, 1);
    assert Down(v, 0) == (t.view, 1);
    assert Acquire(s.view, 3) == t.view;
    assert Life.Apply(ConnState(s, 1), Life.Pick(2)) == Picked({2});
  }

  lemma Counted(t: System, i: ConnItem, j: ConnItem, back: ConnItem)
    requires i.conn == 0 && j.conn == 1 && back.conn == 0 && i != back
    requires t == System([Entry(back, 0, 0), Entry(j, 1, 3)], map[i := 2], map[0 := i, 1 := i, 2 := j], map[0 := Picked({0, 1}), 1 := Picked({2})])
    ensures Unreleased(t, 0) == {0, 1} && Unreleased(t, 1) == {2} && HasStalePicks(t) && !RootConnIsLeast(t)
  {
    assert t.view[0].item == back && t.view[1].item == j;
    assert 0 in OpenPicks(t, i) && back in ItemsOf(t.view) && i in Known(t);
    assert Unreleased(t, 0) == {0, 1} && Unreleased(t, 1) == {2};
    assert |{0, 1}| == 2 && |{2}| == 1;
    assert |Unreleased(t, t.view[0].item.conn)| == 2 && |Unreleased(t, t.view[1].item.conn)| == 1;
  }
}

/**
 Request accounting end to end: one least-loaded picker, the connections behind it, and all their
 requests, under every interleaving of picks, the steps of RequestLifecycle, and updates of the
 picker. Each request holds the item that `pickLocked` captured for its `whenDone`, whether that item
 is still in the heap, has been evicted, or belongs to a connection that has come back with a new item.
 */
module RequestAccounting {
  import opened Collections
  import opened GoHeap
  import opened LeastLoadedSpec
  import LeastLoadedRuns
  import Life = RequestLifecycle

  datatype System = System(
    view: seq<Slot>,                 // the picker's heap
    evicted: map<ConnItem, int>,     // the loads of the items whose index is -1
    holder: map<nat, ConnItem>,      // the item that the `whenDone` of each request releases
    conns: map<Conn, Life.Conn>)

  datatype Step =
    | Pick(id: nat, tie: Uint64)
    | OnConn(c: Conn, step: Life.Step)  // a step of one request or one closer of a connection
    | Update(wanted: set<Conn>, added: seq<Slot>)

  /** A connection that was never picked is as the pool made it, or is at most being closed. */
  function ConnState(s: System, c: Conn): Life.Conn {
    if c in s.conns then s.conns[c] else Life.Conn(0, 0, 0, [], map[], map[])
  }

  ghost function Known(s: System): set<ConnItem> {
    ItemsOf(s.view) + s.evicted.Keys
  }

  ghost predicate NewRequest(s: System, id: nat) {
    id !in s.holder && forall c :: id !in ConnState(s, c).requests
  }

  ghost predicate Enabled(s: System, step: Step) {
    match step
    case Pick(id, _) => s.view != [] && NewRequest(s, id)
    case OnConn(c, st) => !st.Pick? && Life.Enabled(ConnState(s, c), st)
    case Update(wanted, added) =>
      && (s.view != [] || wanted != {})
      && LeastLoadedRuns.NewcomersFor(added, Compact(s.view, wanted).1) && ItemsOf(added) !! Known(s)
  }

  /** The slot that the item's `index` names. */
  ghost function SlotOf(v: seq<Slot>, x: ConnItem): (k: nat)
    requires x in ItemsOf(v)
    ensures k < |v| && v[k].item == x
  {
    var k :| 0 <= k < |v| && v[k].item == x;
    k
  }

  /** `load` of an item, wherever it is. */
  ghost function LoadOf(s: System, x: ConnItem): int
    requires x in Known(s)
  {
    if x in s.evicted then s.evicted[x] else s.view[SlotOf(s.view, x)].major
  }

  /** `release`: an item that has been evicted leaves the heap alone. */
  ghost function Release(s: System, x: ConnItem): System
    requires x in Known(s)
  {
    if x in s.evicted then s.(evicted := s.evicted[x := Dec(s.evicted[x])])
    else s.(view := ReleaseAt(s.view, SlotOf(s.view, x)))
  }

  ghost function Move(s: System, c: Conn, st: Life.Step): System
    requires Life.Enabled(ConnState(s, c), st)
  {
    s.(conns := s.conns[c := Life.Apply(ConnState(s, c), st)])
  }

  /** `update`: the items that leave the heap keep their loads. */
  ghost function Evict(s: System, wanted: set<Conn>, added: seq<Slot>): System
    requires Enabled(s, Update(wanted, added))
  {
    var next := UpdateResult(s.view, wanted, added);
    var out := ItemsOf(s.view) - ItemsOf(next);
    s.(view := next, evicted := map x | x in s.evicted.Keys + out :: if x in s.evicted then s.evicted[x] else LoadOf(s, x))
  }

  /** The `whenDone` of one request; every request holds a known item (`Held`). */
  ghost function WhenDone(s: System, id: nat): System {
    if id in s.holder && s.holder[id] in Known(s) then Release(s, s.holder[id]) else s
  }

  ghost function Apply(s: System, step: Step): System
    requires Enabled(s, step)
  {
    match step
    case Pick(id, tie) =>
      var x := s.view[0].item;
      Move(s, x.conn, Life.Pick(id)).(view := Acquire(s.view, tie), holder := s.holder[id := x])
    case OnConn(c, st) => if Life.Releases(st) then WhenDone(Move(s, c, st), st.id) else Move(s, c, st)
    case Update(wanted, added) => Evict(s, wanted, added)
  }

  // ---------------------------------------------------------------- the invariant

  /** Requests and the items they hold: each request of a connection holds a known item of that connection. */
  ghost predicate Held(s: System) {
    && (forall id :: id in s.holder ==> s.holder[id] in Known(s) && id in ConnState(s, s.holder[id].conn).requests)
    && (forall c, id :: id in ConnState(s, c).requests ==> id in s.holder && s.holder[id].conn == c)
  }

  ghost function Unreleased(s: System, c: Conn): set<nat> {
    Life.Where(ConnState(s, c).requests, Life.Unreleased)
  }

  /** The picks of an item that have not been released. */
  ghost function OpenPicks(s: System, x: ConnItem): set<nat> {
    set id | id in s.holder && s.holder[id] == x && id in Unreleased(s, x.conn)
  }

  ghost predicate LoadsCount(s: System) {
    && (forall k :: 0 <= k < |s.view| ==> s.view[k].major == |OpenPicks(s, s.view[k].item)| % TWO_64)
    && (forall x :: x in s.evicted ==> s.evicted[x] == |OpenPicks(s, x)| % TWO_64)
  }

  ghost predicate Inv(s: System) {
    && Held(s) && LoadsCount(s)
    && LeastLoadedRuns.DistinctItems(s.view) && ItemsOf(s.view) !! s.evicted.Keys
    && (forall c :: c in s.conns ==> Life.Accounted(s.conns[c]))
  }

  /** A step on a connection, seen from its requests: at most one is added or released. */
  lemma MoveRequests(s: System, c: Conn, st: Life.Step)
    requires Life.Enabled(ConnState(s, c), st)
    ensures var t := Move(s, c, st);
            && (forall d :: ConnState(t, d).requests.Keys == ConnState(s, d).requests.Keys + (if d == c && st.Pick? then {st.id} else {}))
            && (forall d :: Unreleased(t, d) == if d != c then Unreleased(s, d)
                                                else if st.Pick? then Unreleased(s, d) + {st.id}
                                                else if Life.Releases(st) then Unreleased(s, d) - {st.id} else Unreleased(s, d))
    ensures Life.Releases(st) ==> st.id in Unreleased(s, c) && st.id in ConnState(s, c).requests
  {
    hide Life.Apply, Life.Enabled, Life.Where, Life.Releases;
    Life.StepReleases(ConnState(s, c), st);
    Life.OpenAreRequests(ConnState(s, c));
    var t := Move(s, c, st);
    assert forall d :: d != c ==> ConnState(t, d) == ConnState(s, d);
  }

  lemma OpenPicksMove(s: System, c: Conn, st: Life.Step)
    requires Held(s) && Life.Enabled(ConnState(s, c), st) && !st.Pick?
    ensures Held(Move(s, c, st))
    ensures Life.Releases(st) ==> st.id in s.holder && st.id in OpenPicks(s, s.holder[st.id])
    ensures forall x :: OpenPicks(Move(s, c, st), x) ==
                        if Life.Releases(st) && s.holder[st.id] == x then OpenPicks(s, x) - {st.id} else OpenPicks(s, x)
  {
    hide Life.Apply, Life.Enabled, Life.Releases, ConnState, Unreleased;
    MoveRequests(s, c, st);
    var t := Move(s, c, st);
    assert forall d, id :: id in ConnState(t, d).requests.Keys <==> id in ConnState(s, d).requests.Keys;
    assert Known(t) == Known(s);
  }

  /** Counting up and down modulo 2^64. */
  lemma OneMoreOrLess(n: nat)
    ensures Inc(n % TWO_64) == (n + 1) % TWO_64
    ensures n > 0 ==> Dec(n % TWO_64) == (n - 1) % TWO_64
  {
  }

  lemma SameSlot(v: seq<Slot>, i: nat, j: nat)
    requires LeastLoadedRuns.DistinctItems(v) && i < |v| && j < |v| && v[i].item == v[j].item
    ensures i == j
  {
    assert LeastLoadedRuns.ItemSeq(v)[i] == LeastLoadedRuns.ItemSeq(v)[j];
  }

  /** Writing slot `k` and fixing the heap, as the slots see it. */
  lemma FixedSlots(v: seq<Slot>, k: nat, e: Slot)
    requires k < |v| && e.item == v[k].item && LeastLoadedRuns.DistinctItems(v)
    ensures var r := Fix(v[k := e], k);
            && |r| == |v| && ItemsOf(r) == ItemsOf(v) && LeastLoadedRuns.DistinctItems(r)
            && forall i :: 0 <= i < |r| ==> r[i] == e || (r[i].item != e.item && exists j :: 0 <= j < |v| && v[j] == r[i])
  {
    hide Fix;
    LeastLoadedRuns.ReplaceAndFix(v, k, e);
    var r := Fix(v[k := e], k);
    forall i | 0 <= i < |r| && r[i] != e ensures r[i].item != e.item && exists j :: 0 <= j < |v| && v[j] == r[i] {
      var j :| 0 <= j < |v| && j != k && v[j] == r[i];
      if v[j].item == e.item { SameSlot(v, j, k); }
    }
  }

  /** One item's load and its open picks move together, nothing else moves. */
  lemma FixKeepsCount(s: System, t: System, k: nat, e: Slot)
    requires k < |s.view| && e.item == s.view[k].item && LeastLoadedRuns.DistinctItems(s.view) && LoadsCount(s)
    requires t.view == Fix(s.view[k := e], k) && t.evicted == s.evicted && e.item !in s.evicted
    requires e.major == |OpenPicks(t, e.item)| % TWO_64
    requires forall x :: x in Known(s) && x != e.item ==> OpenPicks(t, x) == OpenPicks(s, x)
    ensures LoadsCount(t) && Known(t) == Known(s) && LeastLoadedRuns.DistinctItems(t.view) && ItemsOf(t.view) == ItemsOf(s.view)
  {
    hide Fix, OpenPicks;
    FixedSlots(s.view, k, e);
    forall i | 0 <= i < |t.view| ensures t.view[i].major == |OpenPicks(t, t.view[i].item)| % TWO_64 {
      if t.view[i] != e {
        var j :| 0 <= j < |s.view| && s.view[j] == t.view[i];
        assert s.view[j].item in ItemsOf(s.view);
      }
    }
  }

  lemma ConnsAccounted(s: System, c: Conn, st: Life.Step)
    requires Life.Enabled(ConnState(s, c), st) && forall d :: d in s.conns ==> Life.Accounted(s.conns[d])
    ensures forall d :: d in Move(s, c, st).conns ==> Life.Accounted(Move(s, c, st).conns[d])
  {
    hide Life.Apply, Life.Enabled;
    assert Life.Accounted(ConnState(s, c));
    Life.StepKeepsAccounted(ConnState(s, c), st);
  }

  lemma HeldDependsOn(s: System, t: System)
    requires Held(s) && t.holder == s.holder && t.conns == s.conns && Known(s) <= Known(t)
    ensures Held(t) && forall x :: OpenPicks(t, x) == OpenPicks(s, x)
  {
    hide Known;
    SameConns(s, t);
  }

  lemma OnConnKeepsInv(s: System, c: Conn, st: Life.Step)
    requires Inv(s) && Enabled(s, OnConn(c, st))
    ensures Inv(Apply(s, OnConn(c, st)))
  {
    hide Life.Apply, Life.Enabled, Held, OpenPicks, Life.Releases;
    var t := Move(s, c, st);
    ConnsAccounted(s, c, st);
    OpenPicksMove(s, c, st);
    if Life.Releases(st) {
      HolderIsKnown(s, st.id);
      ReleaseKeepsInv(s, t, s.holder[st.id], st.id);
    }
  }

  lemma HolderIsKnown(s: System, id: nat)
    requires Held(s) && id in s.holder
    ensures s.holder[id] in Known(s)
  {
  }

  /** `s` is the state before, `t` the state in which the request has moved on and its item is about to be released. */
  lemma ReleaseKeepsInv(s: System, t: System, x: ConnItem, id: nat)
    requires Inv(s) && Held(t) && t.view == s.view && t.evicted == s.evicted && x in Known(s) && id in OpenPicks(s, x)
    requires forall c :: c in t.conns ==> Life.Accounted(t.conns[c])
    requires forall y :: OpenPicks(t, y) == if y == x then OpenPicks(s, x) - {id} else OpenPicks(s, y)
    ensures Inv(Release(t, x))
  {
    hide Held, OpenPicks, Life.Accounted;
    var r := Release(t, x);
    OneMoreOrLess(|OpenPicks(s, x)|);
    assert |OpenPicks(t, x)| == |OpenPicks(s, x)| - 1;
    if x in s.evicted {
      HeldDependsOn(t, r);
    } else {
      var k := SlotOf(s.view, x);
      var e := Entry(x, Dec(s.view[k].major), s.view[k].minor);
      FixedSlots(s.view, k, e);
      HeldDependsOn(t, r);
      FixKeepsCount(s, r, k, e);
    }
  }

  lemma PickKeepsInv(s: System, id: nat, tie: Uint64)
    requires Inv(s) && Enabled(s, Pick(id, tie))
    ensures Inv(Apply(s, Pick(id, tie)))
  {
    hide Life.Apply, Life.Enabled, OpenPicks, Held, Fix;
    var x := s.view[0].item;
    var t := Apply(s, Pick(id, tie));
    assert s.view[0].item in ItemsOf(s.view);
    var e := Entry(x, Inc(s.view[0].major), tie);
    FixedSlots(s.view, 0, e);
    assert Life.Enabled(ConnState(s, x.conn), Life.Pick(id)) by { PickIsEnabled(s, x.conn, id); }
    ConnsAccounted(s, x.conn, Life.Pick(id));
    PickMoves(s, t, x, id);
    OneMoreOrLess(|OpenPicks(s, x)|);
    FixKeepsCount(s, t, 0, e);
  }

  lemma PickIsEnabled(s: System, c: Conn, id: nat)
    requires NewRequest(s, id)
    ensures Life.Enabled(ConnState(s, c), Life.Pick(id))
  {
  }

  lemma PickMoves(s: System, t: System, x: ConnItem, id: nat)
    requires Held(s) && NewRequest(s, id) && x in Known(s) && Known(t) == Known(s) && Life.Enabled(ConnState(s, x.conn), Life.Pick(id))
    requires t.holder == s.holder[id := x] && t.conns == Move(s, x.conn, Life.Pick(id)).conns
    ensures Held(t) && id !in OpenPicks(s, x)
    ensures forall y :: OpenPicks(t, y) == if y == x then OpenPicks(s, x) + {id} else OpenPicks(s, y)
  {
    hide Life.Apply, Life.Enabled, Known, Unreleased, ConnState, Held, OpenPicks, Move;
    MoveRequests(s, x.conn, Life.Pick(id));
    SameConns(Move(s, x.conn, Life.Pick(id)), t);
    PickHolds(s, t, x, id);
    PickOpens(s, t, x, id);
  }

  lemma PickHolds(s: System, t: System, x: ConnItem, id: nat)
    requires Held(s) && id !in s.holder && x in Known(s) && Known(t) == Known(s) && t.holder == s.holder[id := x]
    requires forall d :: ConnState(t, d).requests.Keys == ConnState(s, d).requests.Keys + (if d == x.conn then {id} else {})
    ensures Held(t)
  {
    hide Known, ConnState;
    assert forall d, i :: i in ConnState(t, d).requests <==> i in ConnState(t, d).requests.Keys;
    assert forall d, i :: i in ConnState(s, d).requests <==> i in ConnState(s, d).requests.Keys;
  }

  lemma PickOpens(s: System, t: System, x: ConnItem, id: nat)
    requires id !in s.holder && t.holder == s.holder[id := x]
    requires forall d :: Unreleased(t, d) == Unreleased(s, d) + (if d == x.conn then {id} else {})
    ensures id !in OpenPicks(s, x)
    ensures forall y :: OpenPicks(t, y) == if y == x then OpenPicks(s, x) + {id} else OpenPicks(s, y)
  {
    hide Unreleased;
  }

  lemma SameConns(s: System, t: System)
    requires s.conns == t.conns
    ensures forall c :: ConnState(t, c) == ConnState(s, c) && Unreleased(t, c) == Unreleased(s, c)
  {
  }

  lemma UpdateKeepsInv(s: System, wanted: set<Conn>, added: seq<Slot>)
    requires Inv(s) && Enabled(s, Update(wanted, added))
    ensures Inv(Apply(s, Update(wanted, added)))
  {
    hide Life.Accounted, OpenPicks, Held, UpdateResult, Compact, LeastLoadedRuns.NewcomersFor, ItemConns, ConnsOf;
    hide LeastLoadedRuns.DistinctItems, ItemsOf;
    var t := Evict(s, wanted, added);
    LeastLoadedRuns.UpdateHoldsExactly(s.view, wanted, added);
    DistinctConns(t.view);
    Stay(s.view, t.view, added);
    HeldDependsOn(s, t);
    NewcomersHoldNothing(s, added);
    UpdatedLoads(s, t, added);
    EvictedLoads(s, t);
  }

  lemma NewcomersHoldNothing(s: System, added: seq<Slot>)
    requires Held(s) && ItemsOf(added) !! Known(s)
    ensures forall e :: e in added ==> OpenPicks(s, e.item) == {}
  {
    hide Held, OpenPicks;
    forall e | e in added ensures OpenPicks(s, e.item) == {} {
      var k :| 0 <= k < |added| && added[k] == e;
      NothingHeld(s, e.item);
    }
  }

  lemma UpdatedLoads(s: System, t: System, added: seq<Slot>)
    requires LoadsCount(s) && forall x :: OpenPicks(t, x) == OpenPicks(s, x)
    requires forall e :: e in added ==> e.major == 0 && OpenPicks(s, e.item) == {}
    requires forall e :: e in t.view ==> e in added || e in s.view
    ensures forall k :: 0 <= k < |t.view| ==> t.view[k].major == |OpenPicks(t, t.view[k].item)| % TWO_64
  {
    hide OpenPicks;
    forall k | 0 <= k < |t.view| ensures t.view[k].major == |OpenPicks(t, t.view[k].item)| % TWO_64 {
      assert t.view[k] in t.view;
      if t.view[k] in s.view {
        var j :| 0 <= j < |s.view| && s.view[j] == t.view[k];
      }
    }
  }

  lemma EvictedLoads(s: System, t: System)
    requires LoadsCount(s) && forall x :: OpenPicks(t, x) == OpenPicks(s, x)
    requires t.evicted.Keys <= Known(s)
    requires forall x :: x in t.evicted ==> t.evicted[x] == LoadOf(s, x)
    ensures forall x :: x in t.evicted ==> t.evicted[x] == |OpenPicks(t, x)| % TWO_64
  {
    hide OpenPicks;
  }

  lemma DistinctConns(v: seq<Slot>)
    requires NoDup(ConnsOf(v))
    ensures LeastLoadedRuns.DistinctItems(v)
  {
    forall i, j | 0 <= i < j < |v| ensures v[i].item != v[j].item {
      assert ConnsOf(v)[i] != ConnsOf(v)[j];
    }
  }

  lemma Stay(v: seq<Slot>, r: seq<Slot>, added: seq<Slot>)
    requires forall e :: e in r ==> e in added || e in v
    ensures ItemsOf(r) <= ItemsOf(v) + ItemsOf(added)
  {
    forall k | 0 <= k < |r| ensures r[k].item in ItemsOf(v) + ItemsOf(added) {
      assert r[k] in r;
      if r[k] in v {
        var j :| 0 <= j < |v| && v[j] == r[k];
      } else {
        var j :| 0 <= j < |added| && added[j] == r[k];
      }
    }
  }

  lemma NothingHeld(s: System, x: ConnItem)
    requires Held(s) && x !in Known(s)
    ensures OpenPicks(s, x) == {}
  {
  }

  lemma StepKeepsInv(s: System, step: Step)
    requires Inv(s) && Enabled(s, step)
    ensures Inv(Apply(s, step))
  {
    hide Inv, Apply, Enabled;
    match step
    case Pick(id, tie) => PickKeepsInv(s, id, tie);
    case OnConn(c, st) => OnConnKeepsInv(s, c, st);
    case Update(wanted, added) => UpdateKeepsInv(s, wanted, added);
  }

  // ---------------------------------------------------------------- runs

  /** A new picker over some connections, with nothing picked yet. */
  ghost predicate Fresh(s: System, added: seq<Slot>, conns: seq<Conn>) {
    && Newcomers(added, conns) && LeastLoadedRuns.DistinctItems(added)
    && s == System(Init(added), map[], map[], map[])
  }

  ghost predicate Runs(s: System, steps: seq<Step>)
    decreases |steps|
  {
    steps != [] ==> Enabled(s, steps[0]) && Runs(Apply(s, steps[0]), steps[1..])
  }

  ghost function After(s: System, steps: seq<Step>): System
    requires Runs(s, steps)
    decreases |steps|
  {
    if steps == [] then s else After(Apply(s, steps[0]), steps[1..])
  }

  lemma FreshInv(s: System, added: seq<Slot>, conns: seq<Conn>)
    requires Fresh(s, added, conns)
    ensures Inv(s) && IsHeap(s.view) && LeastLoadedRuns.Unsigned(s.view)
  {
    hide Init, IsHeap, OpenPicks, LeastLoadedRuns.DistinctItems, ItemsOf;
    InitMakesHeap(added);
    InitPermutes(added);
    NothingOpen(s);
    assert LeastLoadedRuns.DistinctItems(s.view) && forall e :: e in s.view ==> e.major == 0 && e.minor == 0 by {
      LeastLoadedRuns.PermutationKeeps(added, Init(added));
      forall k | 0 <= k < |s.view| ensures s.view[k].major == 0 && s.view[k].minor == 0 {
        assert s.view[k] in added;
      }
    }
  }

  lemma NothingOpen(s: System)
    requires s.holder == map[]
    ensures forall x :: OpenPicks(s, x) == {}
  {
  }

  lemma {:induction false} RunKeepsInv(s: System, steps: seq<Step>)
    requires Inv(s) && Runs(s, steps)
    ensures Inv(After(s, steps))
    decreases |steps|
  {
    hide Inv, Apply, Enabled;
    if steps != [] {
      StepKeepsInv(s, steps[0]);
      RunKeepsInv(Apply(s, steps[0]), steps[1..]);
    }
  }

  lemma LoadOfKnown(s: System, x: ConnItem)
    requires Inv(s) && x in Known(s)
    ensures LoadOf(s, x) == |OpenPicks(s, x)| % TWO_64
  {
    hide OpenPicks;
  }

  /**
   Request accounting, in every run of a picker, its connections and their requests: the load of each
   item, in the heap or evicted, is the number of its picks that are not released (modulo 2^64); every
   pick holds an item, is released at most once, and is open exactly until it is released.
   */
  lemma LoadsAreOpenPicks(s: System, added: seq<Slot>, conns: seq<Conn>, steps: seq<Step>)
    requires Fresh(s, added, conns) && Runs(s, steps)
    ensures var t := After(s, steps);
            && (forall x :: x in Known(t) ==> LoadOf(t, x) == |OpenPicks(t, x)| % TWO_64)
            && (forall id :: id in t.holder ==>
                  var x := t.holder[id];
                  x in Known(t) && NoDup(ConnState(t, x.conn).released) && (id in OpenPicks(t, x) <==> id !in ConnState(t, x.conn).released))
  {
    hide Init, Apply, Enabled;
    FreshInv(s, added, conns);
    RunKeepsInv(s, steps);
    var t := After(s, steps);
    hide After, Runs;
    forall x | x in Known(t) ensures LoadOf(t, x) == |OpenPicks(t, x)| % TWO_64 {
      LoadOfKnown(t, x);
    }
    forall id | id in t.holder ensures var c := t.holder[id].conn;
      NoDup(ConnState(t, c).released) && (id in OpenPicks(t, t.holder[id]) <==> id !in ConnState(t, c).released) {
      OpenUntilReleased(t, id);
    }
  }

  lemma OpenUntilReleased(t: System, id: nat)
    requires Inv(t) && id in t.holder
    ensures NoDup(ConnState(t, t.holder[id].conn).released)
    ensures id in OpenPicks(t, t.holder[id]) <==> id !in ConnState(t, t.holder[id].conn).released
  {
    hide LoadsCount;
  }

  /**
   With fewer than 2^64 open picks of the item a release never underflows: it takes one off the load
   of the item that was picked, and off no other, even when that item has been evicted.
   */
  lemma ReleaseNeverUnderflows(s: System, c: Conn, st: Life.Step)
    requires Inv(s) && Enabled(s, OnConn(c, st)) && Life.Releases(st)
    requires st.id in s.holder ==> |OpenPicks(s, s.holder[st.id])| < TWO_64
    ensures st.id in s.holder && s.holder[st.id] in Known(s)
    ensures var t, x := Apply(s, OnConn(c, st)), s.holder[st.id];
            && LoadOf(s, x) > 0 && Known(t) == Known(s)
            && forall y :: y in Known(s) ==> LoadOf(t, y) == if y == x then LoadOf(s, x) - 1 else LoadOf(s, y)
  {
    hide Life.Apply, Life.Enabled, Life.Releases, Held, OpenPicks, LoadsCount, LoadOf, Release, Known;
    OpenPicksMove(s, c, st);
    HolderIsKnown(s, st.id);
    var t, x := Apply(s, OnConn(c, st)), s.holder[st.id];
    OnConnKeepsInv(s, c, st);
    SameKnown(s, Move(s, c, st));
    ReleaseKeepsKnown(Move(s, c, st), x);
    HeldDependsOn(Move(s, c, st), t);
    ReleasedLoads(s, t, x, st.id);
  }

  lemma SameKnown(s: System, t: System)
    requires t.view == s.view && t.evicted == s.evicted
    ensures Known(t) == Known(s)
  {
  }

  lemma ReleasedLoads(s: System, t: System, x: ConnItem, id: nat)
    requires Inv(s) && Inv(t) && Known(t) == Known(s) && x in Known(s) && id in OpenPicks(s, x) && |OpenPicks(s, x)| < TWO_64
    requires forall y :: OpenPicks(t, y) == if y == x then OpenPicks(s, x) - {id} else OpenPicks(s, y)
    ensures LoadOf(s, x) > 0
    ensures forall y :: y in Known(s) ==> LoadOf(t, y) == if y == x then LoadOf(s, x) - 1 else LoadOf(s, y)
  {
    hide Inv, OpenPicks, LoadOf, Known;
    LoadOfKnown(s, x);
    assert |OpenPicks(t, x)| == |OpenPicks(s, x)| - 1;
    forall y | y in Known(s) ensures LoadOf(t, y) == if y == x then LoadOf(s, x) - 1 else LoadOf(s, y) {
      LoadOfKnown(s, y);
      LoadOfKnown(t, y);
      if y == x {
        assert LoadOf(t, x) == |OpenPicks(t, x)|;
        assert LoadOf(s, x) == |OpenPicks(s, x)|;
      } else {
        assert OpenPicks(t, y) == OpenPicks(s, y);
      }
    }
  }

  lemma ReleaseKeepsKnown(s: System, x: ConnItem)
    requires LeastLoadedRuns.DistinctItems(s.view) && x in Known(s)
    ensures var t := Release(s, x); Known(t) == Known(s) && t.holder == s.holder && t.conns == s.conns
  {
    if x !in s.evicted {
      var k := SlotOf(s.view, x);
      FixedSlots(s.view, k, Entry(x, Dec(s.view[k].major), s.view[k].minor));
    }
  }

  /**
   An update changes no load: survivors and evicted items keep theirs, and a connection that comes back
   gets a new item with load 0, whatever its old items still hold.
   */
  lemma UpdateKeepsLoads(s: System, wanted: set<Conn>, added: seq<Slot>)
    requires Inv(s) && Enabled(s, Update(wanted, added))
    ensures var t := Apply(s, Update(wanted, added));
            && Known(s) + ItemsOf(added) == Known(t)
            && (forall x :: x in Known(s) ==> LoadOf(t, x) == LoadOf(s, x))
            && (forall x :: x in ItemsOf(added) ==> LoadOf(t, x) == 0)
  {
    hide OpenPicks, Held, UpdateResult, Compact;
    var t := Apply(s, Update(wanted, added));
    UpdateKeepsInv(s, wanted, added);
    LeastLoadedRuns.UpdateHoldsExactly(s.view, wanted, added);
    Stay(s.view, t.view, added);
    Stay(added, added, t.view);
    forall k | 0 <= k < |added| ensures added[k].item in ItemsOf(t.view) {
      assert added[k] in t.view;
      var j :| 0 <= j < |t.view| && t.view[j] == added[k];
    }
    HeldDependsOn(s, t);
    forall x | x in Known(t) ensures LoadOf(t, x) == if x in Known(s) then LoadOf(s, x) else 0 {
      LoadOfKnown(t, x);
      if x in Known(s) { LoadOfKnown(s, x); } else { NothingHeld(s, x); }
    }
  }

  /**
   The load of an item is the number of unreleased picks of its connection if and only if no other
   item of that connection has an open pick.
   */
  lemma ItemSpeaksForConnIff(s: System, x: ConnItem)
    requires Inv(s) && x in Known(s) && |Unreleased(s, x.conn)| < TWO_64
    ensures LoadOf(s, x) == |Unreleased(s, x.conn)| <==> forall y :: y in Known(s) && y.conn == x.conn && y != x ==> OpenPicks(s, y) == {}
  {
    hide Unreleased;
    var open, all := OpenPicks(s, x), Unreleased(s, x.conn);
    LoadOfKnown(s, x);
    SubsetCard(open, all);
    UnreleasedAreHeld(s, x.conn);
    if forall y :: y in Known(s) && y.conn == x.conn && y != x ==> OpenPicks(s, y) == {} {
      forall id | id in all ensures id in open {
        assert id in OpenPicks(s, s.holder[id]);
      }
      assert open == all;
    } else {
      var y, id :| y in Known(s) && y.conn == x.conn && y != x && id in OpenPicks(s, y);
      assert id in all && id !in open;
    }
  }

  lemma UnreleasedAreHeld(s: System, c: Conn)
    requires Held(s)
    ensures forall id :: id in Unreleased(s, c) ==> id in s.holder && s.holder[id].conn == c && s.holder[id] in Known(s)
  {
  }

  // ---------------------------------------------------------------- the fewest requests in flight

  /** What a step does to the heap is one of the heap's own operations. */
  lemma StepIsHeapOp(s: System, step: Step) returns (op: LeastLoadedRuns.Op)
    requires Inv(s) && Enabled(s, step)
    ensures LeastLoadedRuns.Enabled(s.view, op) && Apply(s, step).view == LeastLoadedRuns.Apply(s.view, op, false)
    ensures op.DoUpdate? <==> step.Update?
    ensures step.Update? ==> op == LeastLoadedRuns.DoUpdate(step.wanted, step.added)
  {
    hide Life.Apply, Life.Enabled, Life.Releases, Fix, UpdateResult, Compact, OpenPicks;
    match step
    case Pick(id, tie) => op := LeastLoadedRuns.DoAcquire(tie);
    case Update(wanted, added) => op := LeastLoadedRuns.DoUpdate(wanted, added);
    case OnConn(c, st) =>
      op := LeastLoadedRuns.DoReleaseEvicted;
      if Life.Releases(st) {
        OpenPicksMove(s, c, st);
        HolderIsKnown(s, st.id);
        var x := s.holder[st.id];
        if x !in s.evicted { op := LeastLoadedRuns.DoRelease(SlotOf(s.view, x)); }
      }
  }

  ghost predicate SafeStep(s: System, step: Step)
    requires Enabled(s, step)
  {
    step.Update? ==> LeastLoadedRuns.SafeOp(s.view, LeastLoadedRuns.DoUpdate(step.wanted, step.added))
  }

  /** Every update of the run rebuilds the heap, or finds the newcomers' parents idle. */
  ghost predicate UpdatesSafe(s: System, steps: seq<Step>)
    requires Runs(s, steps)
    decreases |steps|
  {
    steps != [] ==> SafeStep(s, steps[0]) && UpdatesSafe(Apply(s, steps[0]), steps[1..])
  }

  lemma StepKeepsOrderIff(s: System, step: Step)
    requires Inv(s) && Enabled(s, step) && IsHeap(s.view) && LeastLoadedRuns.Unsigned(s.view)
    ensures LeastLoadedRuns.Unsigned(Apply(s, step).view)
    ensures IsHeap(Apply(s, step).view) <==> SafeStep(s, step)
  {
    hide Inv, Apply, Enabled, LeastLoadedRuns.Apply, LeastLoadedRuns.Enabled, IsHeap, LeastLoadedRuns.Unsigned;
    var op := StepIsHeapOp(s, step);
    LeastLoadedRuns.StepKeepsUnsigned(s.view, op);
    LeastLoadedRuns.StepKeepsOrderIff(s.view, op);
  }

  lemma {:induction false} SafeRunKeepsOrder(s: System, steps: seq<Step>)
    requires Inv(s) && Runs(s, steps) && IsHeap(s.view) && LeastLoadedRuns.Unsigned(s.view) && UpdatesSafe(s, steps)
    ensures IsHeap(After(s, steps).view)
    decreases |steps|
  {
    hide Inv, Apply, Enabled, IsHeap, LeastLoadedRuns.Unsigned, SafeStep;
    if steps != [] {
      StepKeepsInv(s, steps[0]);
      StepKeepsOrderIff(s, steps[0]);
      SafeRunKeepsOrder(Apply(s, steps[0]), steps[1..]);
    }
  }

  /** A heap of correct loads has at its root an item with the fewest open picks. */
  lemma RootHasFewestOpenPicks(t: System, k: nat)
    requires Inv(t) && IsHeap(t.view) && k < |t.view|
    requires forall x :: x in ItemsOf(t.view) ==> |OpenPicks(t, x)| < TWO_64
    ensures |OpenPicks(t, t.view[0].item)| <= |OpenPicks(t, t.view[k].item)|
  {
    hide OpenPicks, Held, IsHeap;
    RootIsLeast(t.view, k);
    assert t.view[0].item in ItemsOf(t.view) && t.view[k].item in ItemsOf(t.view);
  }

  /**
   After any run whose updates are safe, the next pick takes an item with the fewest unreleased picks (for
   connections, which can have several items, see FewestInFlight).
   */
  lemma PicksFewestInFlight(s: System, added: seq<Slot>, conns: seq<Conn>, steps: seq<Step>, k: nat)
    requires Fresh(s, added, conns) && Runs(s, steps) && UpdatesSafe(s, steps) && k < |After(s, steps).view|
    requires forall x :: x in ItemsOf(After(s, steps).view) ==> |OpenPicks(After(s, steps), x)| < TWO_64
    ensures var t := After(s, steps); |OpenPicks(t, t.view[0].item)| <= |OpenPicks(t, t.view[k].item)|
  {
    hide Init, Apply, Enabled, IsHeap, LeastLoadedRuns.Unsigned, SafeStep, OpenPicks;
    FreshInv(s, added, conns);
    SafeRunKeepsOrder(s, steps);
    RunKeepsInv(s, steps);
    RootHasFewestOpenPicks(After(s, steps), k);
  }
}

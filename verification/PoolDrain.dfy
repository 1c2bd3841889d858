/**
 One transport pool of transport.go with its connections: its lists, the requests and closers of every
 connection it ever made, and what `close` waits for once it has taken the lock.
 */
module PoolDrain {
  import opened Collections
  import Lists = ConnPool
  import Life = RequestLifecycle
  import opened DrainProgress

  type Conn = Lists.Conn

  datatype Body = Body(
    lists: Lists.Pool,
    conns: map<Conn, Life.Conn>,   // every connection the pool ever made
    snapshot: seq<Conn>,           // the connections `close` waits for, a connection on both lists twice
    waiters: map<nat, nat>,        // its calls of `connection.close`, by position in the snapshot
    stopped: bool)                 // the balancer's goroutine has returned: no more calls of NewConn and RemoveConn

  datatype Step =
    | NewConn
    | RemoveConn(c: Conn, call: nat)    // and `go c.close()`
    | OnConn(c: Conn, step: Life.Step)  // a request or a closer moves on; doClose ends in connClosed
    | Stop                              // the balancer's goroutine sees its context cancelled and returns
    | Shut                              // `close` takes the lock
    | CloseConn(i: nat, call: nat)      // one goroutine of `close` calls connection.close

  function NewLife(): Life.Conn {
    Life.Conn(0, 0, 0, [], map[], map[])
  }

  predicate Fresh(b: Body) {
    b == Body(Lists.Pool([], [], false, 0), map[], [], map[], false)
  }

  ghost predicate Enabled(b: Body, step: Step) {
    match step
    case NewConn => !b.stopped
    case RemoveConn(c, call) => !b.stopped && (c in b.lists.conns ==> c in b.conns && Life.Enabled(b.conns[c], Life.Enter(call)))
    // there is room for one more request on the connection: fewer than 2^63 at once
    case OnConn(c, st) => c in b.conns && !st.Enter? && Life.Enabled(b.conns[c], st) && Life.Bounded(Life.Apply(b.conns[c], st))
    case Stop => !b.stopped
    case Shut => !b.lists.closed
    // `close` has waited for the balancer before it closes connections
    case CloseConn(i, call) =>
      && b.lists.closed && b.stopped && i < |b.snapshot| && i !in b.waiters
      && b.snapshot[i] in b.conns && Life.Enabled(b.conns[b.snapshot[i]], Life.Enter(call))
  }

  ghost function Move(b: Body, c: Conn, st: Life.Step): Body
    requires c in b.conns && Life.Enabled(b.conns[c], st)
  {
    b.(conns := b.conns[c := Life.Apply(b.conns[c], st)])
  }

  ghost function Apply(b: Body, step: Step): Body
    requires Enabled(b, step)
  {
    match step
    case NewConn =>
      if b.lists.closed then b
      else b.(lists := Lists.Apply(b.lists, Lists.NewConn), conns := b.conns[b.lists.made := NewLife()])
    case RemoveConn(c, call) =>
      if c in b.lists.conns then Move(b, c, Life.Enter(call)).(lists := Lists.Apply(b.lists, Lists.RemoveConn(c))) else b
    case OnConn(c, st) =>
      if st.DoClose? then Move(b, c, st).(lists := Lists.Apply(b.lists, Lists.ConnClosed(c))) else Move(b, c, st)
    case Stop => b.(stopped := true)
    case Shut => b.(lists := Lists.Apply(b.lists, Lists.Close), snapshot := Lists.Waited(b.lists))
    case CloseConn(i, call) => Move(b, b.snapshot[i], Life.Enter(call)).(waiters := b.waiters[i := call])
  }

  /** Every goroutine of `close` has seen its connection closed. */
  predicate Done(b: Body) {
    && b.lists.closed
    && forall i :: 0 <= i < |b.snapshot| ==> Waited(b, i)
  }

  predicate Waited(b: Body, i: nat)
    requires i < |b.snapshot|
  {
    i in b.waiters && b.snapshot[i] in b.conns
    && b.waiters[i] in b.conns[b.snapshot[i]].closers && b.conns[b.snapshot[i]].closers[b.waiters[i]].Finished?
  }

  /** `close` waits for a connection that nobody will ever close. */
  ghost predicate HoldsLost(b: Body) {
    exists i :: 0 <= i < |b.snapshot| && b.snapshot[i] in b.conns && Lost(b.conns[b.snapshot[i]])
  }

  /** A removed connection is lost, and no connClosed is still to come that would drop it: every other closer has returned. */
  ghost predicate CannotForget(b: Body) {
    && b.stopped
    && (exists c :: c in b.lists.removedConns && c in b.conns && Lost(b.conns[c]))
    && (forall c, k :: c in b.conns && !Lost(b.conns[c]) && k in b.conns[c].closers ==> b.conns[c].closers[k].Finished?)
  }

  /** `close` waits, or is bound to wait, for a connection that nobody will ever close. */
  ghost predicate Doomed(b: Body) {
    HoldsLost(b) || (!b.lists.closed && CannotForget(b))
  }

  // ---------------------------------------------------------------- the invariant

  ghost predicate ListsInv(b: Body) {
    && Lists.Inv(b.lists) && (forall c :: c in b.lists.removedConns ==> c < b.lists.made)
    && (forall c: Conn :: c in b.conns <==> c < b.lists.made)
    && (forall c :: c in b.snapshot ==> c < b.lists.made)
    && (!b.lists.closed ==> b.snapshot == [] && b.waiters == map[])
    && (b.lists.closed ==> forall c :: c in b.lists.conns ==> c in b.snapshot)
    && (b.waiters != map[] ==> b.stopped)
    && (forall i :: i in b.waiters ==> i < |b.snapshot| && b.snapshot[i] in b.conns && b.waiters[i] in b.conns[b.snapshot[i]].closers)
  }

  ghost predicate ConnsInv(b: Body) {
    && (forall c :: c in b.conns ==> Sound(b.conns[c]) && Life.Bounded(b.conns[c]))
    && (forall c :: c in b.conns && c in b.lists.conns && !b.lists.closed ==> b.conns[c].closers == map[])
  }

  ghost predicate Inv(b: Body) {
    ListsInv(b) && ConnsInv(b)
  }

  /** What a step of one connection keeps. */
  lemma MoveKeeps(b: Body, c: Conn, st: Life.Step)
    requires c in b.conns && Sound(b.conns[c]) && Life.Bounded(b.conns[c]) && Life.Enabled(b.conns[c], st)
    ensures var s, t := b.conns[c], Life.Apply(b.conns[c], st);
            && Sound(t) && (Lost(s) ==> Lost(t)) && (!st.Start? ==> Life.Bounded(t))
            && s.closers.Keys <= t.closers.Keys && (st.Enter? ==> t.closers.Keys == s.closers.Keys + {st.id})
            && (forall k :: k in s.closers && s.closers[k].Finished? ==> t.closers[k].Finished?)
            && (st.DoClose? ==> s.closers != map[])
            && (!st.Enter? && s.closers == map[] ==> t.closers == map[])
  {
    StepKeepsSound(b.conns[c], st);
    if !st.Start? { StillBounded(b.conns[c], st); }
    hide Sound, Lost, Life.Bounded;
  }

  lemma FreshInv(b: Body)
    requires Fresh(b)
    ensures Inv(b)
  {
  }

  lemma StepKeepsInv(b: Body, step: Step)
    requires Inv(b) && Enabled(b, step)
    ensures Inv(Apply(b, step))
  {
    hide Inv, Apply, Enabled;
    StepKeepsListsInv(b, step);
    StepKeepsConnsInv(b, step);
    InvParts(Apply(b, step));
  }

  lemma InvParts(b: Body)
    ensures Inv(b) <==> ListsInv(b) && ConnsInv(b)
  {
  }

  lemma StepKeepsListsInv(b: Body, step: Step)
    requires Inv(b) && Enabled(b, step)
    ensures ListsInv(Apply(b, step))
  {
    hide Sound, Life.Bounded, Life.Apply, Life.Enabled, ConnsInv, Lists.Inv;
    ListsMove(b, step);
    match step
    case NewConn =>
    case RemoveConn(c, call) => if c in b.lists.conns { CallsMove(b, c, Life.Enter(call)); }
    case OnConn(c, st) => CallsMove(b, c, st);
    case Stop =>
    case Shut => ListedAreMade(b);
    case CloseConn(i, call) =>
      CallsMove(b, b.snapshot[i], Life.Enter(call));
  }

  lemma CallsMove(b: Body, c: Conn, st: Life.Step)
    requires c in b.conns && Life.Enabled(b.conns[c], st)
    ensures b.conns[c].closers.Keys <= Life.Apply(b.conns[c], st).closers.Keys
    ensures st.Enter? ==> st.id in Life.Apply(b.conns[c], st).closers
  {
  }

  lemma ListedAreMade(b: Body)
    requires ListsInv(b)
    ensures forall c :: c in Lists.Waited(b.lists) ==> c < b.lists.made
  {
  }

  /** What the steps do to the two lists. */
  lemma ListsMove(b: Body, step: Step)
    requires ListsInv(b) && Enabled(b, step)
    ensures var l, m := b.lists, Apply(b, step).lists;
            && Lists.Inv(m) && l.made <= m.made && (forall c :: c in m.removedConns ==> c < m.made)
            && (forall c :: c in m.conns ==> c in l.conns || (step.NewConn? && !l.closed && c == l.made))
  {
    hide Life.Bounded, Life.Apply, Life.Enabled;
    match step
    case NewConn => Lists.StepKeepsInv(b.lists, Lists.NewConn);
    case RemoveConn(c, call) =>
      Lists.StepKeepsInv(b.lists, Lists.RemoveConn(c));
      Lists.DropOne(b.lists.conns, c);
    case OnConn(c, st) =>
      Lists.StepKeepsInv(b.lists, Lists.ConnClosed(c));
      Lists.DropOne(b.lists.conns, c);
    case Stop =>
    case Shut =>
    case CloseConn(i, call) =>
  }

  lemma StepKeepsConnsInv(b: Body, step: Step)
    requires Inv(b) && Enabled(b, step)
    ensures ConnsInv(Apply(b, step))
  {
    hide Sound, Lost, Life.Bounded, Life.Apply, Life.Enabled;
    ListsMove(b, step);
    match step
    case NewConn => NewLifeIsSound();
    case RemoveConn(c, call) =>
      if c in b.lists.conns {
        MoveKeeps(b, c, Life.Enter(call));
        Lists.DropOne(b.lists.conns, c);
      }
    case OnConn(c, st) => MoveKeeps(b, c, st);
    case Stop =>
    case Shut =>
    case CloseConn(i, call) => MoveKeeps(b, b.snapshot[i], Life.Enter(call));
  }

  lemma NewLifeIsSound()
    ensures Sound(NewLife()) && !Lost(NewLife()) && Life.Bounded(NewLife())
  {
    var lost := false;
    FreshSound(NewLife(), lost);
  }

  /** A connection stays lost, and `close` goes on waiting for it. */
  lemma LostStays(b: Body, step: Step)
    requires Inv(b) && Enabled(b, step)
    ensures forall c :: c in b.conns && Lost(b.conns[c]) ==> c in Apply(b, step).conns && Lost(Apply(b, step).conns[c])
    ensures HoldsLost(b) ==> HoldsLost(Apply(b, step))
  {
    hide Sound, Lost, Life.Bounded, Life.Apply, Life.Enabled;
    match step
    case NewConn =>
    case RemoveConn(c, call) => if c in b.lists.conns { MoveKeeps(b, c, Life.Enter(call)); }
    case OnConn(c, st) => MoveKeeps(b, c, st);
    case Stop =>
    case Shut =>
    case CloseConn(i, call) => MoveKeeps(b, b.snapshot[i], Life.Enter(call));
  }

  lemma AllStarted(b: Body, i: nat)
    requires Done(b) && i < |b.snapshot|
    ensures i in b.waiters
  {
    assert Waited(b, i);
  }

  /** A wait that is over stays over. */
  lemma DoneStays(b: Body, step: Step)
    requires Inv(b) && Enabled(b, step) && Done(b)
    ensures Done(Apply(b, step))
  {
    hide Sound, Lost, Life.Bounded, Life.Apply, Life.Enabled;
    if step.RemoveConn? && step.c in b.lists.conns { MoveKeeps(b, step.c, Life.Enter(step.call)); }
    if step.OnConn? { MoveKeeps(b, step.c, step.step); }
    if step.CloseConn? { AllStarted(b, step.i); }
    forall i | 0 <= i < |b.snapshot| ensures Waited(Apply(b, step), i) {
      assert Waited(b, i);
    }
  }

  /** When the wait is over, every connection that `close` waited for or that is still active is closed, once, and has no request under way. */
  lemma DoneClosesAll(b: Body)
    requires Inv(b) && Done(b)
    ensures forall c :: c in b.lists.conns || c in b.snapshot ==> c in b.conns && b.conns[c].closes == 1
    ensures forall c, r :: (c in b.lists.conns || c in b.snapshot) && r in b.conns[c].requests ==>
              b.conns[c].requests[r] !in {Life.Active, Life.BodyOpen, Life.Finishing, Life.Ending}
  {
    forall c | c in b.lists.conns || c in b.snapshot ensures c in b.conns && ClosedOnce(b.conns[c]) {
      var i :| 0 <= i < |b.snapshot| && b.snapshot[i] == c;
      assert Waited(b, i);
      FinishedIsClosed(b.conns[c], b.waiters[i]);
    }
  }

  ghost predicate ClosedOnce(s: Life.Conn) {
    s.closes == 1 && forall r :: r in s.requests ==> s.requests[r] !in {Life.Active, Life.BodyOpen, Life.Finishing, Life.Ending}
  }

  lemma FinishedIsClosed(s: Life.Conn, k: nat)
    requires Sound(s) && k in s.closers && s.closers[k].Finished?
    ensures ClosedOnce(s)
  {
    hide Life.SignallingCount;
    Life.CountsBound(s);
  }

  lemma LostIsNeverDone(b: Body)
    requires Inv(b) && HoldsLost(b)
    ensures !Done(b) && b.lists.closed
  {
    var i :| 0 <= i < |b.snapshot| && b.snapshot[i] in b.conns && Lost(b.conns[b.snapshot[i]]);
    assert b.conns[b.snapshot[i]].closes == 0;
    assert !Waited(b, i);
  }

  /** While the pool is open, only a removed connection can be lost. */
  lemma OnlyRemovedAreLost(b: Body, c: Conn)
    requires Inv(b) && !b.lists.closed && c in b.conns && Lost(b.conns[c])
    ensures c !in b.lists.conns
  {
  }

  // ---------------------------------------------------------------- what can still happen

  ghost predicate Runs(b: Body, steps: seq<Step>)
    decreases |steps|
  {
    steps != [] ==> Enabled(b, steps[0]) && Runs(Apply(b, steps[0]), steps[1..])
  }

  ghost function After(b: Body, steps: seq<Step>): Body
    requires Runs(b, steps)
    decreases |steps|
  {
    if steps == [] then b else After(Apply(b, steps[0]), steps[1..])
  }

  lemma {:induction false} RunKeepsInv(b: Body, steps: seq<Step>)
    requires Inv(b) && Runs(b, steps)
    ensures Inv(After(b, steps)) && (HoldsLost(b) ==> HoldsLost(After(b, steps)))
    decreases |steps|
  {
    hide Inv, Apply, Enabled, HoldsLost;
    if steps != [] {
      StepKeepsInv(b, steps[0]);
      LostStays(b, steps[0]);
      RunKeepsInv(Apply(b, steps[0]), steps[1..]);
    }
  }

  lemma {:induction false} RunsConcat(b: Body, x: seq<Step>, y: seq<Step>)
    requires Runs(b, x) && Runs(After(b, x), y)
    ensures Runs(b, x + y) && After(b, x + y) == After(After(b, x), y)
    decreases |x|
  {
    hide Apply, Enabled;
    if x == [] {
      assert x + y == y;
    } else {
      assert (x + y)[0] == x[0] && (x + y)[1..] == x[1..] + y;
      RunsConcat(Apply(b, x[0]), x[1..], y);
    }
  }

  /** Runs in which `close` does not take the lock. */
  predicate Shutless(steps: seq<Step>) {
    forall i :: 0 <= i < |steps| ==> !steps[i].Shut?
  }

  ghost predicate Reaches(b: Body, t: Body) {
    exists steps :: Shutless(steps) && Runs(b, steps) && After(b, steps) == t
  }

  lemma ReachesSelf(b: Body)
    ensures Reaches(b, b)
  {
    assert Shutless([]) && Runs(b, []) && After(b, []) == b;
  }

  lemma ReachesStep(b: Body, step: Step)
    requires Enabled(b, step) && !step.Shut?
    ensures Reaches(b, Apply(b, step))
  {
    var t := Apply(b, step);
    assert [step][0] == step && [step][1..] == [];
    assert Runs(t, []) && After(t, []) == t;
    assert Shutless([step]) && Runs(b, [step]) && After(b, [step]) == t;
  }

  lemma ReachesConcat(b: Body, t: Body, u: Body)
    requires Reaches(b, t) && Reaches(t, u)
    ensures Reaches(b, u)
  {
    hide Runs, After;
    var x :| Shutless(x) && Runs(b, x) && After(b, x) == t;
    var y :| Shutless(y) && Runs(t, y) && After(t, y) == u;
    RunsConcat(b, x, y);
    assert Shutless(x + y);
  }

  /** A quiet run of one connection is a run of the pool. */
  lemma {:induction false} LiftQuiet(b: Body, c: Conn, steps: seq<Life.Step>)
    requires c in b.conns && Life.Quiet(steps) && Life.Runs(b.conns[c], steps)
    ensures Reaches(b, b.(conns := b.conns[c := Life.After(b.conns[c], steps)]))
    decreases |steps|
  {
    hide Life.Apply, Life.Enabled, Life.Bounded, Reaches;
    if steps == [] {
      assert b.(conns := b.conns[c := b.conns[c]]) == b;
      ReachesSelf(b);
    } else {
      var next := Move(b, c, steps[0]);
      assert !steps[0].Enter? && !steps[0].DoClose?;
      assert Life.Bounded(next.conns[c]);
      ReachesStep(b, OnConn(c, steps[0]));
      LiftQuiet(next, c, steps[1..]);
      var last := Life.After(b.conns[c], steps);
      assert next.conns[c := last] == b.conns[c := last];
      ReachesConcat(b, next, b.(conns := b.conns[c := last]));
    }
  }

  /** A call of connection.close can return unless the connection is lost. */
  lemma CallCanReturn(b: Body, c: Conn, call: nat) returns (t: Body)
    requires Inv(b) && c in b.conns && !Lost(b.conns[c]) && call in b.conns[c].closers && !b.conns[c].closers[call].Finished?
    ensures Reaches(b, t) && Inv(t) && t.conns.Keys == b.conns.Keys && t.snapshot == b.snapshot && t.waiters == b.waiters && t.stopped == b.stopped
    ensures t.lists == Lists.Apply(b.lists, Lists.ConnClosed(c))
    ensures forall d :: d in b.conns && d != c ==> t.conns[d] == b.conns[d]
    ensures !Lost(t.conns[c]) && t.conns[c].closers.Keys == b.conns[c].closers.Keys && t.conns[c].closers[call].Finished?
    ensures forall k :: k in b.conns[c].closers && b.conns[c].closers[k].Finished? ==> t.conns[c].closers[k].Finished?
  {
    hide Sound, Lost, Life.Bounded, Reaches, Life.Apply, Life.Enabled;
    var drained := CanDrain(b.conns[c], call);
    var steps :| Life.Quiet(steps) && Life.Runs(b.conns[c], steps) && Life.After(b.conns[c], steps) == drained;
    LiftQuiet(b, c, steps);
    hide Life.Runs, Life.After;
    var u := b.(conns := b.conns[c := drained]);
    WaitingCallReturns(u, c, call);
    t := Apply(u, OnConn(c, Life.DoClose(call)));
    ReachesStep(u, OnConn(c, Life.DoClose(call)));
    ReachesConcat(b, u, t);
    ReachedInv(b, t);
  }

  lemma WaitingCallReturns(u: Body, c: Conn, call: nat)
    requires c in u.conns && Ready(u.conns[c]) && call in u.conns[c].closers && u.conns[c].closers[call].Waiting? && u.conns[c].closes > 0
    ensures Enabled(u, OnConn(c, Life.DoClose(call)))
    ensures var s := Life.Apply(u.conns[c], Life.DoClose(call));
            !Lost(s) && s.closers == u.conns[c].closers[call := Life.Finished]
  {
    StepKeepsSound(u.conns[c], Life.DoClose(call));
    StillBounded(u.conns[c], Life.DoClose(call));
    hide Sound, Lost, Life.Bounded;
  }

  lemma ReachedInv(b: Body, t: Body)
    requires Inv(b) && Reaches(b, t)
    ensures Inv(t) && (HoldsLost(b) ==> HoldsLost(t))
  {
    hide Inv, HoldsLost, Runs, After;
    var steps :| Shutless(steps) && Runs(b, steps) && After(b, steps) == t;
    RunKeepsInv(b, steps);
  }

  /** How far the waiting has got: the first `n` connections of the snapshot are closed. */
  ghost predicate DoneUpTo(b: Body, n: nat)
    requires n <= |b.snapshot|
  {
    forall i :: 0 <= i < n ==> Waited(b, i)
  }

  /** One more goroutine of `close` starts, if it has not yet, and returns. */
  lemma WaitForOne(b: Body, n: nat) returns (t: Body)
    requires Inv(b) && b.lists.closed && b.stopped && !HoldsLost(b) && n < |b.snapshot| && DoneUpTo(b, n)
    ensures Reaches(b, t) && Inv(t) && t.lists.closed && t.stopped && !HoldsLost(t) && t.snapshot == b.snapshot && DoneUpTo(t, n + 1)
  {
    hide Sound, Lost, Life.Bounded, Reaches, Life.Apply, Life.Enabled;
    var c := b.snapshot[n];
    assert c in b.snapshot;
    var u := StartWaiting(b, n);
    if Waited(u, n) {
      t := u;
    } else {
      t := CallCanReturn(u, c, u.waiters[n]);
      ReachesConcat(b, u, t);
      forall i | 0 <= i < n + 1 ensures Waited(t, i) {
        if i < n { assert Waited(u, i); }
      }
    }
  }

  lemma StartWaiting(b: Body, n: nat) returns (u: Body)
    requires Inv(b) && b.lists.closed && b.stopped && !HoldsLost(b) && n < |b.snapshot| && DoneUpTo(b, n)
    ensures Reaches(b, u) && Inv(u) && u.lists.closed && u.stopped && !HoldsLost(u) && u.snapshot == b.snapshot && DoneUpTo(u, n)
    ensures n in u.waiters && u.conns.Keys == b.conns.Keys && b.snapshot[n] in u.conns && u.waiters[n] in u.conns[b.snapshot[n]].closers
  {
    hide Sound, Lost, Life.Bounded, Reaches, Life.Apply;
    var c := b.snapshot[n];
    assert c in b.snapshot;
    if n in b.waiters {
      u := b;
      ReachesSelf(b);
    } else {
      var call := NewCall(b.conns[c]);
      u := Apply(b, CloseConn(n, call));
      ReachesStep(b, CloseConn(n, call));
      StepKeepsInv(b, CloseConn(n, call));
      MoveKeeps(b, c, Life.Enter(call));
      EnterLosesNothing(b.conns[c], call);
      forall i | 0 <= i < n ensures Waited(u, i) {
        assert Waited(b, i);
      }
    }
  }

  lemma NewCall(s: Life.Conn) returns (call: nat)
    ensures Life.Enabled(s, Life.Enter(call))
  {
    call := Unused(s.closers.Keys);
  }

  lemma EnterLosesNothing(s: Life.Conn, call: nat)
    requires Sound(s) && Life.Bounded(s) && Life.Enabled(s, Life.Enter(call))
    ensures Lost(Life.Apply(s, Life.Enter(call))) == Lost(s)
  {
    StepKeepsSound(s, Life.Enter(call));
  }

  lemma {:induction false} WaitForAll(b: Body, n: nat) returns (t: Body)
    requires Inv(b) && b.lists.closed && b.stopped && !HoldsLost(b) && n <= |b.snapshot| && DoneUpTo(b, n)
    ensures Reaches(b, t) && Done(t)
    decreases |b.snapshot| - n
  {
    hide Inv, HoldsLost, Reaches, Waited;
    if n == |b.snapshot| {
      t := b;
      ReachesSelf(b);
    } else {
      var u := WaitForOne(b, n);
      t := WaitForAll(u, n + 1);
      ReachesConcat(b, u, t);
    }
  }

  /**
   What `close` of a pool waits for, exactly: once it has taken the lock, its wait can still end if and
   only if it does not wait for a lost connection.
   */
  lemma WaitCanEndIff(b: Body)
    requires Inv(b) && b.lists.closed
    ensures (exists t :: Reaches(b, t) && Done(t)) <==> !HoldsLost(b)
  {
    hide Inv, HoldsLost, Reaches;
    if HoldsLost(b) {
      forall t | Reaches(b, t) ensures !Done(t) {
        ReachedInv(b, t);
        LostIsNeverDone(t);
      }
    } else {
      var u := StopFirst(b);
      var t := WaitForAll(u, 0);
      ReachesConcat(b, u, t);
    }
  }

  /** The balancer's goroutine returns, if it has not yet. */
  lemma StopFirst(b: Body) returns (t: Body)
    requires Inv(b)
    ensures Reaches(b, t) && Inv(t) && t == b.(stopped := true) && HoldsLost(t) == HoldsLost(b)
  {
    if b.stopped {
      t := b;
      ReachesSelf(b);
    } else {
      t := Apply(b, Stop);
      ReachesStep(b, Stop);
      StepKeepsInv(b, Stop);
    }
  }

  lemma MakeAndRemove(b: Body, call: nat) returns (t: Body, c: Conn)
    requires Inv(b) && !b.lists.closed && !b.stopped
    ensures Reaches(b, t) && Inv(t) && !t.lists.closed
    ensures c !in b.conns && c !in t.lists.conns && c in t.conns && !Lost(t.conns[c])
    ensures forall d :: d in b.conns ==> d in t.conns && t.conns[d] == b.conns[d]
    ensures call in t.conns[c].closers && t.conns[c].closers[call].Entered?
  {
    hide Sound, Lost, Life.Bounded, Reaches, Life.Apply, ConnsInv;
    c := b.lists.made;
    var b1 := Apply(b, NewConn);
    ReachesStep(b, NewConn);
    StepKeepsInv(b, NewConn);
    NewLifeIsSound();
    t := Apply(b1, RemoveConn(c, call));
    ReachesStep(b1, RemoveConn(c, call));
    StepKeepsInv(b1, RemoveConn(c, call));
    EnterLosesNothing(NewLife(), call);
    ReachesConcat(b, b1, t);
    EnterIsNew(NewLife(), call);
    Lists.DropOne(b1.lists.conns, c);
  }

  /** Once a closer of a connection that is not lost returns, its connClosed has dropped every lost one. */
  lemma ForgetBy(b: Body, c: Conn, call: nat) returns (t: Body)
    requires Inv(b) && !b.lists.closed && c in b.conns && !Lost(b.conns[c])
    requires call in b.conns[c].closers && !b.conns[c].closers[call].Finished?
    ensures Reaches(b, t) && Inv(t) && !t.lists.closed && forall d :: d in b.conns && d != c ==> d in t.conns && t.conns[d] == b.conns[d]
    ensures NoneLost(t)
  {
    hide Sound, Lost, Life.Bounded, Reaches, Life.Apply, Life.Enabled, ConnsInv;
    t := CallCanReturn(b, c, call);
    Lists.DropOne(b.lists.conns, c);
    ListedAreUnmarked(t);
  }

  /** A snapshot taken now would hold no lost connection. */
  ghost predicate NoneLost(b: Body) {
    forall c :: c in Lists.Waited(b.lists) && c in b.conns ==> !Lost(b.conns[c])
  }

  lemma SnapshotOf(b: Body)
    requires Inv(b) && !b.lists.closed
    ensures Enabled(b, Shut) && Inv(Apply(b, Shut)) && (HoldsLost(Apply(b, Shut)) <==> !NoneLost(b))
  {
    hide Sound, Lost, Life.Bounded;
    StepKeepsInv(b, Shut);
    var w := Lists.Waited(b.lists);
    if c :| c in w && c in b.conns && Lost(b.conns[c]) {
      var i :| 0 <= i < |w| && w[i] == c;
      assert Apply(b, Shut).snapshot[i] == c;
    }
  }

  /**
   While the pool is open, `close` can come to take a snapshot without a lost connection, by dropping the
   lost ones: while the balancer runs, one more connection that is made, removed and closed does it; later,
   any closer that has still to return.
   */
  lemma OpenPoolCanForget(b: Body) returns (t: Body)
    requires Inv(b) && !b.lists.closed && !Doomed(b)
    ensures Reaches(b, t) && Inv(t) && !t.lists.closed
    ensures forall c :: c in b.conns && Lost(b.conns[c]) ==> c in t.conns && t.conns[c] == b.conns[c]
    ensures Enabled(t, Shut) && Inv(Apply(t, Shut)) && !HoldsLost(Apply(t, Shut))
  {
    hide Sound, Lost, Life.Bounded, Reaches, Life.Apply, Life.Enabled, ConnsInv, ListsInv, NoneLost;
    if !b.stopped {
      var call := 0;
      var u, c := MakeAndRemove(b, call);
      t := ForgetBy(u, c, call);
      ReachesConcat(b, u, t);
    } else if c, k :| c in b.conns && !Lost(b.conns[c]) && k in b.conns[c].closers && !b.conns[c].closers[k].Finished? {
      t := ForgetBy(b, c, k);
    } else {
      t := b;
      ReachesSelf(b);
      NothingToForget(b);
    }
    SnapshotOf(t);
  }

  lemma NothingToForget(b: Body)
    requires Inv(b) && !b.lists.closed && !(exists c :: c in b.lists.removedConns && c in b.conns && Lost(b.conns[c]))
    ensures NoneLost(b)
  {
    hide Sound, Lost, Life.Bounded;
    ListedAreUnmarked(b);
  }

  /** A doomed pool stays doomed. */
  lemma DoomedStays(b: Body, step: Step)
    requires Inv(b) && Enabled(b, step) && Doomed(b)
    ensures Doomed(Apply(b, step))
  {
    hide Sound, Lost, Life.Bounded, Life.Apply, Life.Enabled, HoldsLost, ListsInv, ConnsInv;
    if HoldsLost(b) {
      LostStays(b, step);
    } else if step.Shut? {
      var c :| c in b.lists.removedConns && c in b.conns && Lost(b.conns[c]);
      SnapshotOf(b);
      assert c in Lists.Waited(b.lists);
    } else if step.OnConn? {
      StillCannotForget(b, step.c, step.step);
    }
  }

  lemma StillCannotForget(b: Body, c: Conn, st: Life.Step)
    requires Inv(b) && Enabled(b, OnConn(c, st)) && !b.lists.closed && CannotForget(b)
    ensures CannotForget(Apply(b, OnConn(c, st))) && !Apply(b, OnConn(c, st)).lists.closed
  {
    NotClosing(b, c, st);
    MoveKeeps(b, c, st);
    ClosersMove(b.conns[c], st);
    hide Sound, Lost, Life.Bounded, Life.Apply, Life.Enabled;
  }

  /** Nobody gets past the wait on a lost connection, and on the others everybody has. */
  lemma NotClosing(b: Body, c: Conn, st: Life.Step)
    requires Enabled(b, OnConn(c, st)) && CannotForget(b)
    ensures !st.DoClose?
  {
  }

  /** Closers only come by Enter, and a closer that has returned stays so. */
  lemma ClosersMove(s: Life.Conn, st: Life.Step)
    requires Life.Enabled(s, st) && !st.Enter?
    ensures Life.Apply(s, st).closers.Keys == s.closers.Keys
    ensures forall k :: k in s.closers && s.closers[k].Finished? ==> Life.Apply(s, st).closers[k].Finished?
  {
  }

  lemma DoomedIsNeverDone(b: Body)
    requires Inv(b) && Doomed(b)
    ensures !Done(b)
  {
    hide Inv, HoldsLost;
    if HoldsLost(b) { LostIsNeverDone(b); }
  }

  lemma {:induction false} RunKeepsDoomed(b: Body, steps: seq<Step>)
    requires Inv(b) && Runs(b, steps) && Doomed(b)
    ensures Inv(After(b, steps)) && Doomed(After(b, steps))
    decreases |steps|
  {
    hide Inv, Apply, Enabled, Doomed;
    if steps != [] {
      StepKeepsInv(b, steps[0]);
      DoomedStays(b, steps[0]);
      RunKeepsDoomed(Apply(b, steps[0]), steps[1..]);
    }
  }

  /**
   What the wait of `close` depends on in a pool that is still open, exactly: `close` can come to take a
   snapshot without a lost connection if and only if the balancer still runs, or no removed connection is
   lost, or a closer of a connection that is not lost has still to return.
   */
  lemma OpenPoolCanForgetIff(b: Body)
    requires Inv(b) && !b.lists.closed
    ensures (exists t :: Reaches(b, t) && !t.lists.closed && !HoldsLost(Apply(t, Shut))) <==> !CannotForget(b)
  {
    hide Inv, HoldsLost, Reaches, CannotForget;
    OpenIsNotHolding(b);
    if CannotForget(b) {
      forall t | Reaches(b, t) && !t.lists.closed ensures HoldsLost(Apply(t, Shut)) {
        DoomedReaches(b, t);
        DoomedStays(t, Shut);
        ShutCloses(t);
      }
    } else {
      var t := OpenPoolCanForget(b);
    }
  }

  lemma OpenIsNotHolding(b: Body)
    requires Inv(b) && !b.lists.closed
    ensures !HoldsLost(b)
  {
  }

  lemma ShutCloses(b: Body)
    requires !b.lists.closed
    ensures Apply(b, Shut).lists.closed
  {
  }

  lemma DoomedReaches(b: Body, t: Body)
    requires Inv(b) && Doomed(b) && Reaches(b, t)
    ensures Inv(t) && Doomed(t)
  {
    hide Inv, Doomed, Runs, After;
    var steps :| Shutless(steps) && Runs(b, steps) && After(b, steps) == t;
    RunKeepsDoomed(b, steps);
  }

  lemma EnterIsNew(s: Life.Conn, call: nat)
    requires Life.Enabled(s, Life.Enter(call))
    ensures var t := Life.Apply(s, Life.Enter(call)); call in t.closers && t.closers[call].Entered?
  {
  }

  lemma ListedAreUnmarked(b: Body)
    requires Inv(b) && !b.lists.closed
    ensures forall c :: c in b.lists.conns ==> c in b.conns && !Lost(b.conns[c])
  {
    forall c | c in b.lists.conns ensures c in b.conns && !Lost(b.conns[c]) {
      if Lost(b.conns[c]) { OnlyRemovedAreLost(b, c); }
    }
  }

  // ---------------------------------------------------------------- a lost connection

  /** A pool whose only connection was removed while a start aborted across the end of its last request. */
  lemma LostBodyIsReachable(b: Body) returns (t: Body)
    requires Fresh(b)
    ensures Reaches(b, t) && t.lists == Lists.Pool([], [0], false, 1) && 0 in t.conns && Lost(t.conns[0]) && !t.stopped
  {
    hide Reaches, Life.Runs, Life.After, Lost;
    var b1 := Apply(b, NewConn);
    ReachesStep(b, NewConn);
    var picked := Life.Conn(1, 0, 0, [], map[0 := Life.Active, 1 := Life.Picked], map[]);
    var closing := Life.Conn(1, 0, 0, [], map[0 := Life.Active, 1 := Life.Picked], map[0 := Life.Entered]);
    Life.RunEnds(picked);
    var steps := Life.StuckPicks(NewLife(), picked, [], picked);
    LiftQuiet(b1, 0, steps);
    var b2 := b1.(conns := b1.conns[0 := picked]);
    ReachesConcat(b, b1, b2);
    var call := 0;
    var b3 := RemoveOnly(b2, call);
    ReachesStep(b2, RemoveConn(0, call));
    ReachesConcat(b, b2, b3);
    steps := Life.StuckTail(closing);
    LiftQuiet(b3, 0, steps);
    t := b3.(conns := b3.conns[0 := Life.After(closing, steps)]);
    ReachesConcat(b, b3, t);
    StuckIsLost(t.conns[0]);
  }

  lemma RemoveOnly(b: Body, call: nat) returns (t: Body)
    requires b.lists == Lists.Pool([0], [], false, 1) && 0 in b.conns && b.conns[0].closers == map[] && !b.stopped
    ensures Enabled(b, RemoveConn(0, call)) && t == Apply(b, RemoveConn(0, call))
    ensures t.lists == Lists.Pool([], [0], false, 1) && !t.stopped && t.conns == b.conns[0 := b.conns[0].(closers := map[call := Life.Entered])]
  {
    assert Without([0], {0}) == Without([], {0}) + [];
    t := Apply(b, RemoveConn(0, call));
  }

  lemma StuckIsLost(s: Life.Conn)
    requires s == Life.Conn(Life.MIN_INT64, 0, 0, [0, 1], map[0 := Life.Over, 1 := Life.Over], map[0 := Life.Waiting])
    ensures Lost(s)
  {
    Life.NoneWhere(s.requests, Life.Running);
    Life.NoneWhere(s.requests, Life.Pending);
    Life.NoClosers(s);
  }
}

/**
 What `close` of the root transport waits for, in every state it can be in: which pools can still finish
 closing, when a call can still return, and what becomes of a connection whose drain signal was lost.
 */
module PoolClosing {
  import opened Collections
  import opened PoolLifecycle
  import PoolDrain
  import Life = RequestLifecycle
  import DrainProgress

  // ---------------------------------------------------------------- reachable states

  ghost predicate Reaches(m: Transport, t: Transport) {
    exists steps :: Runs(m, steps) && After(m, steps) == t
  }

  lemma {:induction false} RunsConcat(m: Transport, x: seq<Step>, y: seq<Step>)
    requires Runs(m, x) && Runs(After(m, x), y)
    ensures Runs(m, x + y) && After(m, x + y) == After(After(m, x), y)
    decreases |x|
  {
    hide Apply, Enabled;
    if x == [] {
      assert x + y == y;
    } else {
      assert (x + y)[0] == x[0] && (x + y)[1..] == x[1..] + y;
      RunsConcat(Apply(m, x[0]), x[1..], y);
    }
  }

  lemma ReachesSelf(m: Transport)
    ensures Reaches(m, m)
  {
    assert Runs(m, []) && After(m, []) == m;
  }

  lemma ReachesStep(m: Transport, step: Step)
    requires Enabled(m, step)
    ensures Reaches(m, Apply(m, step))
  {
    hide Apply, Enabled;
    var t := Apply(m, step);
    assert [step][0] == step && [step][1..] == [];
    assert Runs(t, []) && After(t, []) == t;
    assert Runs(m, [step]) && After(m, [step]) == t;
  }

  lemma ReachesConcat(m: Transport, t: Transport, u: Transport)
    requires Reaches(m, t) && Reaches(t, u)
    ensures Reaches(m, u)
  {
    hide Runs, After;
    var x :| Runs(m, x) && After(m, x) == t;
    var y :| Runs(t, y) && After(t, y) == u;
    RunsConcat(m, x, y);
  }

  ghost predicate Sound(m: Transport) {
    Inv(m) && CloseInv(m)
  }

  lemma ReachesSound(m: Transport, t: Transport)
    requires Sound(m) && Reaches(m, t)
    ensures Sound(t)
  {
    hide Inv, CloseInv, Runs, After;
    var steps :| Runs(m, steps) && After(m, steps) == t;
    RunKeepsInv(m, steps);
    RunKeepsCloseInv(m, steps);
  }

  lemma InsideStep(m: Transport, id: PoolId, st: PoolDrain.Step) returns (next: Transport)
    requires m.cancelled && id in m.all && !st.Shut? && PoolDrain.Enabled(m.all[id].body, st)
    ensures next.cancelled && Enabled(m, Inside(id, st)) && next == Apply(m, Inside(id, st))
    ensures next == WithBody(m, id, PoolDrain.Apply(m.all[id].body, st)) && id in next.all
    ensures next.all[id].body == PoolDrain.Apply(m.all[id].body, st)
  {
    hide PoolDrain.Apply, PoolDrain.Enabled;
    next := Apply(m, Inside(id, st));
  }

  /** Once the context is cancelled a run inside one pool is a run of the transport. */
  lemma {:induction false} LiftBody(m: Transport, id: PoolId, steps: seq<PoolDrain.Step>)
    requires m.cancelled && id in m.all && PoolDrain.Shutless(steps) && PoolDrain.Runs(m.all[id].body, steps)
    ensures Reaches(m, WithBody(m, id, PoolDrain.After(m.all[id].body, steps)))
    decreases |steps|
  {
    hide PoolDrain.Apply, PoolDrain.Enabled, Reaches, Apply, Enabled, WithBody;
    var body := m.all[id].body;
    if steps == [] {
      WithSameBody(m, id, body, body);
      ReachesSelf(m);
    } else {
      assert !steps[0].Shut?;
      var next := InsideStep(m, id, steps[0]);
      ReachesStep(m, Inside(id, steps[0]));
      WithSameBody(m, id, next.all[id].body, PoolDrain.After(body, steps));
      LiftBody(next, id, steps[1..]);
      ReachesConcat(m, next, WithBody(m, id, PoolDrain.After(body, steps)));
    }
  }

  function WithBody(m: Transport, id: PoolId, body: PoolDrain.Body): Transport
    requires id in m.all
  {
    SetPool(m, id, m.all[id].(body := body))
  }

  lemma WithSameBody(m: Transport, id: PoolId, b: PoolDrain.Body, c: PoolDrain.Body)
    requires id in m.all
    ensures id in WithBody(m, id, b).all && WithBody(m, id, b).all[id].body == b
    ensures WithBody(WithBody(m, id, b), id, c) == WithBody(m, id, c) && WithBody(m, id, m.all[id].body) == m
  {
    var t := WithBody(m, id, b);
    assert t.all[id := t.all[id].(body := c)] == m.all[id := m.all[id].(body := c)];
    assert m.all[id := m.all[id]] == m.all;
  }

  lemma LiftReach(m: Transport, id: PoolId, body: PoolDrain.Body)
    requires m.cancelled && id in m.all && PoolDrain.Reaches(m.all[id].body, body)
    ensures Reaches(m, SetPool(m, id, m.all[id].(body := body)))
  {
    hide PoolDrain.Runs, PoolDrain.After, Reaches;
    var steps :| PoolDrain.Shutless(steps) && PoolDrain.Runs(m.all[id].body, steps) && PoolDrain.After(m.all[id].body, steps) == body;
    LiftBody(m, id, steps);
  }

  /** A pool's connections move only by its own steps and when `close` takes its lock. */
  lemma BodyAfter(m: Transport, id: PoolId, step: Step)
    requires Enabled(m, step) && id in m.all
    ensures var b, t := m.all[id].body, Apply(m, step);
            && id in t.all
            && (t.all[id].body == b
                || (step.Inside? && PoolDrain.Enabled(b, step.step) && t.all[id].body == PoolDrain.Apply(b, step.step))
                || (step.EnterClose? && !b.lists.closed && PoolDrain.Enabled(b, PoolDrain.Shut) && t.all[id].body == PoolDrain.Apply(b, PoolDrain.Shut)))
  {
    hide PoolDrain.Apply, PoolDrain.Done;
    if !step.Inside? && !step.EnterClose? {
      hide Apply;
      OtherSteps(m, id, step);
    }
  }

  lemma OtherSteps(m: Transport, id: PoolId, step: Step)
    requires Enabled(m, step) && id in m.all && !step.Inside? && !step.EnterClose?
    ensures id in Apply(m, step).all && Apply(m, step).all[id].body == m.all[id].body
  {
    hide PoolDrain.Apply, PoolDrain.Enabled, PoolDrain.Done, NewPool;
  }

  // ---------------------------------------------------------------- doomed pools

  /** `close` of the pool waits, or is bound to wait, for a connection that nobody will ever close. */
  ghost predicate Doomed(m: Transport, id: PoolId) {
    id in m.all && PoolDrain.Doomed(m.all[id].body)
  }

  lemma DoomedStep(m: Transport, id: PoolId, step: Step)
    requires Inv(m) && Doomed(m, id) && Enabled(m, step)
    ensures Doomed(Apply(m, step), id)
  {
    hide Inv, Apply, Enabled, PoolDrain.Doomed, PoolDrain.Inv, PoolDrain.Apply, PoolDrain.Enabled;
    BodyOf(m, id);
    BodyAfter(m, id, step);
    if Apply(m, step).all[id].body != m.all[id].body {
      PoolDrain.DoomedStays(m.all[id].body, if step.Inside? then step.step else PoolDrain.Shut);
    }
  }

  /** A doomed pool has not finished closing. */
  lemma DoomedIsUnclosed(m: Transport, id: PoolId)
    requires Inv(m) && Doomed(m, id)
    ensures m.all[id].onCloses == 0 && m.runningPools > 0
    ensures !m.all[id].shutdown.Completed? && !m.all[id].shutdown.Closed?
    ensures forall c :: c in m.callers ==> !m.callers[c].Returned?
  {
    BodyOf(m, id);
    PoolDrain.DoomedIsNeverDone(m.all[id].body);
    hide PoolDrain.Inv, PoolDrain.Done, PoolDrain.Doomed;
    assert PoolInv(m, id, m.all[id]);
    assert id in Unclosed(m);
  }

  lemma BodyOf(m: Transport, id: PoolId)
    requires Inv(m) && id in m.all
    ensures BodyInv(m.all[id].body, m.all[id].shutdown) && PoolDrain.Inv(m.all[id].body)
    ensures m.all[id].body.lists.closed <==> !m.all[id].shutdown.Open?
  {
    assert PoolInv(m, id, m.all[id]);
    hide PoolDrain.Inv, PoolDrain.Done;
  }

  /** Such a pool never finishes closing, and no call of the transport's `close` ever returns. */
  lemma {:induction false} DoomedPoolBlocksClose(m: Transport, id: PoolId, steps: seq<Step>)
    requires Inv(m) && Doomed(m, id) && Runs(m, steps)
    ensures var t := After(m, steps);
            Doomed(t, id) && !t.all[id].shutdown.Closed? && t.all[id].onCloses == 0 && forall c :: c in t.callers ==> !t.callers[c].Returned?
    decreases |steps|
  {
    hide Inv, Apply, Enabled, Doomed;
    if steps != [] {
      StepKeepsInv(m, steps[0]);
      DoomedStep(m, id, steps[0]);
      DoomedPoolBlocksClose(Apply(m, steps[0]), id, steps[1..]);
    } else {
      DoomedIsUnclosed(m, id);
    }
  }

  // ---------------------------------------------------------------- finishing

  /** `close` has cancelled the context and taken the warm pools. */
  ghost predicate Draining(m: Transport) {
    Sound(m) && m.closed && !CloseUnderWay(m)
  }

  lemma DrainingMeans(m: Transport)
    requires Draining(m)
    ensures Inv(m) && m.cancelled
  {
  }

  /** `t` differs from `m` in one pool, which has left the map at most. */
  ghost predicate OnlyPool(m: Transport, t: Transport, id: PoolId) {
    && Reaches(m, t) && Draining(t) && t.callers == m.callers && t.all.Keys == m.all.Keys && id in m.all
    && forall i :: i in m.all && i != id ==> t.all[i] == m.all[i]
  }

  lemma OnlyConcat(m: Transport, t: Transport, u: Transport, id: PoolId)
    requires OnlyPool(m, t, id) && OnlyPool(t, u, id)
    ensures OnlyPool(m, u, id)
  {
    hide Reaches, Draining;
    ReachesConcat(m, t, u);
  }

  lemma OnlyStep(m: Transport, step: Step, id: PoolId)
    requires Draining(m) && Enabled(m, step) && id in m.all
    requires step in {SeeCancel(id), RemoveCancelled(id), EnterClose(id), CompleteClose(id), OnClose(id)}
    ensures OnlyPool(m, Apply(m, step), id)
  {
    hide Inv, CloseInv, Reaches, PoolDrain.Apply, PoolDrain.Enabled, PoolDrain.Done;
    StepKeepsInv(m, step);
    StepKeepsCloseInv(m, step);
    ReachesStep(m, step);
  }

  lemma OnlyBody(m: Transport, id: PoolId, body: PoolDrain.Body)
    requires Draining(m) && id in m.all && PoolDrain.Reaches(m.all[id].body, body)
    ensures OnlyPool(m, SetPool(m, id, m.all[id].(body := body)), id)
  {
    DrainingMeans(m);
    hide Reaches, Sound;
    var t := SetPool(m, id, m.all[id].(body := body));
    LiftReach(m, id, body);
    ReachesSound(m, t);
  }

  /** A pool that nobody has called close on yet gets to that point. */
  lemma LeaveMap(m: Transport, id: PoolId) returns (t: Transport)
    requires Draining(m) && id in m.all && m.all[id].shutdown.Open?
    ensures OnlyPool(m, t, id) && t.all[id].shutdown.Open? && t.all[id].calls == 1 && t.all[id].body == m.all[id].body
  {
    hide Reaches, BodyInv, CloseInv, OnlyPool;
    assert PoolInv(m, id, m.all[id]);
    if m.all[id].calls == 0 { NotWarm(m, id); }
    if m.all[id].calls == 1 {
      t := m;
      OnlySelf(m, id);
    } else if m.all[id].watcher.Cancelled? {
      t := Apply(m, RemoveCancelled(id));
      OnlyStep(m, RemoveCancelled(id), id);
    } else {
      var u := Apply(m, SeeCancel(id));
      OnlyStep(m, SeeCancel(id), id);
      t := Apply(u, RemoveCancelled(id));
      OnlyMeans(m, u, id);
      OnlyStep(u, RemoveCancelled(id), id);
      OnlyConcat(m, u, t, id);
    }
  }

  lemma OnlySelf(m: Transport, id: PoolId)
    requires Draining(m) && id in m.all
    ensures OnlyPool(m, m, id)
  {
    ReachesSelf(m);
  }

  lemma OnlyMeans(m: Transport, t: Transport, id: PoolId)
    requires OnlyPool(m, t, id)
    ensures Draining(t) && id in t.all && Reaches(m, t)
  {
  }

  lemma NotWarm(m: Transport, id: PoolId)
    requires Draining(m) && id in m.all && m.all[id].shutdown.Open? && m.all[id].calls == 0
    ensures m.cancelled && !m.all[id].warm
  {
    hide BodyInv;
    assert PoolInv(m, id, m.all[id]);
    WarmPoolsAreTargets(m);
  }

  /** An open pool that is not doomed can take its snapshot without a lost connection in it. */
  lemma ShutWithoutLost(m: Transport, id: PoolId) returns (t: Transport)
    requires Draining(m) && id in m.all && m.all[id].shutdown.Open? && !Doomed(m, id)
    ensures OnlyPool(m, t, id) && t.all[id].shutdown.Working? && !Doomed(t, id)
  {
    hide Reaches, OnlyPool, PoolDrain.HoldsLost, PoolDrain.Inv, PoolDrain.Apply, PoolDrain.Enabled, PoolDrain.Reaches, PoolDrain.CannotForget, BodyInv, Sound;
    var u := LeaveMap(m, id);
    OnlyMeans(m, u, id);
    OpenBody(u, id);
    var body := PoolDrain.OpenPoolCanForget(u.all[id].body);
    var v := SetPool(u, id, u.all[id].(body := body));
    OnlyBody(u, id, body);
    OnlyMeans(u, v, id);
    PoolDrain.ShutCloses(body);
    t := Apply(v, EnterClose(id));
    OnlyStep(v, EnterClose(id), id);
    OnlyConcat(m, u, v, id);
    OnlyConcat(m, v, t, id);
  }

  lemma OpenBody(m: Transport, id: PoolId)
    requires Draining(m) && id in m.all && m.all[id].shutdown.Open?
    ensures PoolDrain.Inv(m.all[id].body) && !m.all[id].body.lists.closed
  {
    BodyOf(m, id);
  }

  lemma ClosedBody(m: Transport, id: PoolId)
    requires Draining(m) && id in m.all && !m.all[id].shutdown.Open?
    ensures PoolDrain.Inv(m.all[id].body) && m.all[id].body.lists.closed
  {
    BodyOf(m, id);
  }

  lemma FinishWaiting(m: Transport, id: PoolId) returns (t: Transport)
    requires Draining(m) && id in m.all && m.all[id].shutdown.Working? && !Doomed(m, id)
    ensures OnlyPool(m, t, id) && t.all[id].shutdown.Completed?
  {
    hide Reaches, OnlyPool, PoolDrain.HoldsLost, PoolDrain.Inv, PoolDrain.Done, PoolDrain.Reaches, Draining;
    ClosedBody(m, id);
    PoolDrain.WaitCanEndIff(m.all[id].body);
    var body :| PoolDrain.Reaches(m.all[id].body, body) && PoolDrain.Done(body);
    var v := SetPool(m, id, m.all[id].(body := body));
    OnlyBody(m, id, body);
    OnlyMeans(m, v, id);
    t := Apply(v, CompleteClose(id));
    OnlyStep(v, CompleteClose(id), id);
    OnlyConcat(m, v, t, id);
  }

  /** From its snapshot on, a pool finishes closing unless it waits in vain. */
  lemma FinishClosing(m: Transport, id: PoolId) returns (t: Transport)
    requires Draining(m) && id in m.all && !m.all[id].shutdown.Open? && !m.all[id].shutdown.Closed? && !Doomed(m, id)
    ensures OnlyPool(m, t, id) && t.all[id].shutdown.Closed?
  {
    hide Reaches, OnlyPool, Doomed, Draining;
    var u := m;
    OnlySelf(m, id);
    if m.all[id].shutdown.Working? {
      u := FinishWaiting(m, id);
      OnlyMeans(m, u, id);
    }
    t := Apply(u, OnClose(id));
    OnlyStep(u, OnClose(id), id);
    OnlyConcat(m, u, t, id);
  }

  lemma PoolCloses(m: Transport, id: PoolId) returns (t: Transport)
    requires Draining(m) && id in m.all && !m.all[id].shutdown.Closed? && !Doomed(m, id)
    ensures OnlyPool(m, t, id) && t.all[id].shutdown.Closed?
  {
    hide Reaches, OnlyPool, Doomed, Draining;
    var u := m;
    OnlySelf(m, id);
    if m.all[id].shutdown.Open? {
      u := ShutWithoutLost(m, id);
      OnlyMeans(m, u, id);
    }
    t := FinishClosing(u, id);
    OnlyConcat(m, u, t, id);
  }

  /** Every state in which a call of `close` has cancelled and taken the warm pools. */
  lemma ReachedDraining(m0: Transport, m: Transport)
    requires Fresh(m0) && Reaches(m0, m) && m.closed && !CloseUnderWay(m)
    ensures Draining(m)
  {
    hide Reaches;
    FreshInv(m0);
    ReachesSound(m0, m);
  }

  /**
   In every reachable state in which `close` has cancelled and taken the warm pools, a pool can still finish
   closing if and only if it is not doomed: its snapshot holds no lost connection; or it is still open, and
   its balancer still runs, or no removed connection is lost, or some other closer has still to return.
   */
  lemma PoolClosesIff(m0: Transport, m: Transport, id: PoolId)
    requires Fresh(m0) && Reaches(m0, m) && m.closed && !CloseUnderWay(m) && id in m.all
    ensures (exists t :: Reaches(m, t) && id in t.all && t.all[id].shutdown.Closed?) <==> !Doomed(m, id)
  {
    hide Reaches;
    ReachedDraining(m0, m);
    if Doomed(m, id) {
      forall t | Reaches(m, t) ensures Doomed(t, id) && !t.all[id].shutdown.Closed? {
        StaysDoomed(m, t, id);
      }
    } else if m.all[id].shutdown.Closed? {
      ReachesSelf(m);
    } else {
      var t := PoolCloses(m, id);
      OnlyMeans(m, t, id);
    }
  }

  lemma StaysDoomed(m: Transport, t: Transport, id: PoolId)
    requires Inv(m) && Doomed(m, id) && Reaches(m, t)
    ensures Doomed(t, id) && !t.all[id].shutdown.Closed? && forall c :: c in t.callers ==> !t.callers[c].Returned?
  {
    hide Inv, Doomed, Runs, After;
    var steps :| Runs(m, steps) && After(m, steps) == t;
    DoomedPoolBlocksClose(m, id, steps);
  }

  lemma {:induction false} AllPoolsClose(m: Transport) returns (t: Transport)
    requires Draining(m) && forall id :: id in m.all ==> !Doomed(m, id)
    ensures Reaches(m, t) && Draining(t) && t.callers == m.callers && Unclosed(t) == {}
    decreases |Unclosed(m)|
  {
    hide Reaches, Draining, PoolDrain.Doomed;
    if Unclosed(m) == {} {
      t := m;
      ReachesSelf(m);
    } else {
      var id :| id in Unclosed(m);
      var u := PoolCloses(m, id);
      assert Unclosed(u) == Unclosed(m) - {id};
      DrainingMeans(u);
      if Doomed(u, id) { DoomedIsUnclosed(u, id); }
      t := AllPoolsClose(u);
      ReachesConcat(m, u, t);
    }
  }

  /**
   When `close` of the transport can still return, exactly: in every reachable state in which it has
   cancelled and taken the warm pools, a call can still return if and only if no pool is doomed.
   */
  lemma CloseCanReturnIff(m0: Transport, m: Transport, caller: nat)
    requires Fresh(m0) && Reaches(m0, m) && m.closed && !CloseUnderWay(m) && caller in m.callers
    ensures (exists t :: Reaches(m, t) && caller in t.callers && t.callers[caller].Returned?)
            <==> forall id :: id in m.all ==> !Doomed(m, id)
  {
    hide Reaches, Doomed;
    ReachedDraining(m0, m);
    if id :| id in m.all && Doomed(m, id) {
      forall t | Reaches(m, t) ensures caller in t.callers ==> !t.callers[caller].Returned? {
        StaysDoomed(m, t, id);
      }
    } else {
      var u := AllPoolsClose(m);
      var t := LetReturn(u, caller);
      ReachesConcat(m, u, t);
    }
  }

  lemma LetReturn(m: Transport, caller: nat) returns (t: Transport)
    requires Draining(m) && caller in m.callers && Unclosed(m) == {}
    ensures Reaches(m, t) && caller in t.callers && t.callers[caller].Returned?
  {
    hide Reaches;
    if m.callers[caller].Returned? {
      t := m;
      ReachesSelf(m);
    } else {
      assert m.callers[caller].Draining?;
      t := Apply(m, WaitReturns(caller));
      ReachesStep(m, WaitReturns(caller));
    }
  }

  // ---------------------------------------------------------------- a lost connection, forgotten or waited for

  /**
   The first call of `close` has cancelled and taken the warm pools; the only pool is still open, its
   balancer still runs, and its one connection, already removed, is lost.
   */
  lemma LostConnIsReachable(m0: Transport, dest: Target) returns (m: Transport)
    requires Fresh(m0)
    ensures Reaches(m0, m) && Draining(m) && m.callers == map[0 := Caller.Draining] && 0 in m.all && m.all[0].shutdown.Open?
    ensures m.all.Keys == {0}
    ensures var body := m.all[0].body;
            body.lists == PoolDrain.Lists.Pool([], [0], false, 1) && !body.stopped && 0 in body.conns && DrainProgress.Lost(body.conns[0])
  {
    hide Reaches, PoolDrain.Reaches, DrainProgress.Lost;
    FreshInv(m0);
    var id := 0;
    var p := NewPool(dest, false);
    var m1 := m0.(pools := map[dest := id], all := map[id := p], runningPools := 1);
    assert m1 == Apply(m0, SlowLookup(dest, false, id));
    ReachesStep(m0, SlowLookup(dest, false, id));
    var m2 := CloseBegins(m1, id, p);
    ReachesConcat(m0, m1, m2);
    ReachesSound(m0, m2);
    DrainingMeans(m2);
    var body := PoolDrain.LostBodyIsReachable(p.body);
    m := SetPool(m2, id, p.(body := body));
    LiftReach(m2, id, body);
    ReachesConcat(m0, m2, m);
    ReachesSound(m0, m);
  }

  lemma CloseBegins(m: Transport, id: PoolId, p: Pool) returns (t: Transport)
    requires !m.closed && m.callers == map[] && m.all == map[id := p] && m.pools == map[p.dest := id] && !p.warm
    ensures Reaches(m, t) && t.all == m.all && t.closed && !CloseUnderWay(t) && t.callers == map[0 := Caller.Draining]
  {
    hide Reaches;
    var caller: nat :| caller == 0;
    var t1 := Apply(m, BeginClose(caller));
    ReachesStep(m, BeginClose(caller));
    var t2 := Apply(t1, CancelByClose(caller));
    ReachesStep(t1, CancelByClose(caller));
    ReachesConcat(m, t1, t2);
    assert WarmTargets(t2) == {};
    t := Apply(t2, TakeWarmPools(caller));
    ReachesStep(t2, TakeWarmPools(caller));
    ReachesConcat(m, t2, t);
    assert t.all == m.all;
  }

  /** A removed connection is lost for good, connClosed drops it, and `close` returns without having waited for it. */
  lemma LostConnCanBeForgotten(m0: Transport, dest: Target) returns (t: Transport)
    requires Fresh(m0)
    ensures Reaches(m0, t) && 0 in t.callers && t.callers[0].Returned?
    ensures 0 in t.all && 0 in t.all[0].body.conns && DrainProgress.Lost(t.all[0].body.conns[0])
  {
    hide Reaches, DrainProgress.Lost, Sound;
    var m := LostConnIsReachable(m0, dest);
    var caller := 0;
    DrainingMeans(m);
    BodyOf(m, 0);
    PoolDrain.OpenIsNotHolding(m.all[0].body);
    CloseCanReturnIff(m0, m, caller);
    t :| Reaches(m, t) && caller in t.callers && t.callers[caller].Returned?;
    ReachesConcat(m0, m, t);
    DrainingMeans(m);
    LostConnStays(m, t, 0, 0);
  }

  /** It also happens that `close` takes the same connection into its snapshot, and then it never returns. */
  lemma LostConnCanBlockClose(m0: Transport, dest: Target) returns (t: Transport)
    requires Fresh(m0)
    ensures Reaches(m0, t) && Doomed(t, 0) && t.callers == map[0 := Caller.Draining]
    ensures forall u :: Reaches(t, u) ==> forall c :: c in u.callers ==> !u.callers[c].Returned?
  {
    hide Reaches, DrainProgress.Lost, Sound, PoolDrain.Inv, OnlyPool;
    var m := LostConnIsReachable(m0, dest);
    var id := 0;
    var u := LeaveMap(m, id);
    OnlyMeans(m, u, id);
    OnlyCallers(m, u, id);
    t := Apply(u, EnterClose(id));
    OnlyStep(u, EnterClose(id), id);
    OnlyMeans(u, t, id);
    OnlyCallers(u, t, id);
    ReachesConcat(m0, m, u);
    ReachesConcat(m0, u, t);
    assert t.all[id].body.snapshot == [0] && t.all[id].body.snapshot[0] == 0;
    DrainingMeans(t);
    forall v | Reaches(t, v) ensures forall c :: c in v.callers ==> !v.callers[c].Returned? {
      StaysDoomed(t, v, id);
    }
  }

  /**
   Without any snapshot: the balancer returns while its pool is still open. Nothing is left that would drop
   the lost connection before `close` takes its snapshot, so no call of `close` ever returns.
   */
  lemma StoppedPoolBlocksClose(m0: Transport, dest: Target) returns (t: Transport)
    requires Fresh(m0)
    ensures Reaches(m0, t) && t.callers == map[0 := Caller.Draining]
    ensures Doomed(t, 0) && t.all[0].shutdown.Open? && t.all[0].body.stopped
    ensures forall u :: Reaches(t, u) ==> forall c :: c in u.callers ==> !u.callers[c].Returned?
  {
    hide Reaches, DrainProgress.Lost, Sound, PoolDrain.HoldsLost;
    var m := LostConnIsReachable(m0, dest);
    DrainingMeans(m);
    BodyOf(m, 0);
    t := InsideStep(m, 0, PoolDrain.Stop);
    ReachesStep(m, Inside(0, PoolDrain.Stop));
    ReachesConcat(m0, m, t);
    assert forall c :: c in t.all[0].body.conns ==> c == 0;
    assert 0 in t.all[0].body.lists.removedConns;
    StepKeepsInv(m, Inside(0, PoolDrain.Stop));
    forall v | Reaches(t, v) ensures forall c :: c in v.callers ==> !v.callers[c].Returned? {
      StaysDoomed(t, v, 0);
    }
  }

  lemma OnlyCallers(m: Transport, t: Transport, id: PoolId)
    requires OnlyPool(m, t, id)
    ensures t.callers == m.callers
  {
  }

  lemma LostConnStays(m: Transport, t: Transport, id: PoolId, c: PoolDrain.Conn)
    requires Inv(m) && Reaches(m, t) && id in m.all && c in m.all[id].body.conns && DrainProgress.Lost(m.all[id].body.conns[c])
    ensures id in t.all && c in t.all[id].body.conns && DrainProgress.Lost(t.all[id].body.conns[c])
  {
    hide Inv, Runs, After, DrainProgress.Lost;
    var steps :| Runs(m, steps) && After(m, steps) == t;
    LostConnStaysIn(m, id, c, steps);
  }

  lemma {:induction false} LostConnStaysIn(m: Transport, id: PoolId, c: PoolDrain.Conn, steps: seq<Step>)
    requires Inv(m) && Runs(m, steps) && id in m.all && c in m.all[id].body.conns && DrainProgress.Lost(m.all[id].body.conns[c])
    ensures var t := After(m, steps); id in t.all && c in t.all[id].body.conns && DrainProgress.Lost(t.all[id].body.conns[c])
    decreases |steps|
  {
    if steps != [] {
      StepKeepsInv(m, steps[0]);
      LostConnStep(m, id, c, steps[0]);
      hide Inv, Apply, Enabled, DrainProgress.Lost;
      LostConnStaysIn(Apply(m, steps[0]), id, c, steps[1..]);
    }
  }

  lemma LostConnStep(m: Transport, id: PoolId, c: PoolDrain.Conn, step: Step)
    requires Inv(m) && Enabled(m, step) && id in m.all && c in m.all[id].body.conns && DrainProgress.Lost(m.all[id].body.conns[c])
    ensures var t := Apply(m, step); id in t.all && c in t.all[id].body.conns && DrainProgress.Lost(t.all[id].body.conns[c])
  {
    hide Inv, Apply, Enabled, DrainProgress.Lost, PoolDrain.Inv, PoolDrain.Apply, PoolDrain.Enabled;
    BodyOf(m, id);
    BodyAfter(m, id, step);
    if Apply(m, step).all[id].body != m.all[id].body {
      if step.Inside? { PoolDrain.LostStays(m.all[id].body, step.step); } else { ShutKeepsConns(m.all[id].body); }
    }
  }

  lemma ShutKeepsConns(b: PoolDrain.Body)
    requires !b.lists.closed
    ensures PoolDrain.Enabled(b, PoolDrain.Shut) && PoolDrain.Apply(b, PoolDrain.Shut).conns == b.conns
  {
  }
}

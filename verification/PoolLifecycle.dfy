/**
 The root transport of transport.go: lookups, creation, the idle goroutine of each pool, context
 cancellation and `close`, under every interleaving. A critical section or a channel operation is
 one step; a channel of capacity 1 is a boolean.
 */
module PoolLifecycle {
  import opened Collections
  import PoolDrain

  type Target(!new, ==) = string
  type PoolId = nat

  /** The goroutine of `closeWhenIdle`; pools that are kept warm have none. */
  datatype Watcher = NoWatcher | Watching | Cancelled | Left

  /** The call of `transportPool.close` that found `closed` unset. */
  datatype Shutdown = Open | Working | Completed | Closed

  datatype Pool = Pool(
    dest: Target,
    warm: bool,
    activity: bool,      // a token is in the activity channel
    used: bool,          // a lookup has returned this pool since the channel was last drained, or ever if it never was
    drained: bool,       // the channel has been drained at least once
    watcher: Watcher,
    calls: nat,          // calls of close that have not yet taken the pool's lock
    shutdown: Shutdown,
    onCloses: nat,       // how often onClose (runningPools.Done) has run
    body: PoolDrain.Body)

  /** A caller of `mainTransport.close`. */
  datatype Caller = First | CancelledRoot | Draining | Returned

  datatype Transport = Transport(
    closed: bool,
    cancelled: bool,                  // rootCtx is done
    pools: map<Target, PoolId>,
    all: map<PoolId, Pool>,           // every pool ever made
    runningPools: int,                // the WaitGroup's counter
    callers: map<nat, Caller>)

  datatype Step =
    | FastLookup(dest: Target)                      // under the read lock
    | SlowLookup(dest: Target, warm: bool, id: PoolId) // under the write lock
    | Bump(id: PoolId)                              // the watcher receives from activity
    | Timer(id: PoolId)                             // tryRemovePool
    | SeeCancel(id: PoolId)                         // the watcher receives from ctx.Done()
    | RemoveCancelled(id: PoolId)                   // removePool
    | EnterClose(id: PoolId)                        // close takes the pool's lock
    | Inside(id: PoolId, step: PoolDrain.Step)      // the pool's connections and their requests and closers
    | CompleteClose(id: PoolId)                     // all connections waited for have closed: close(closeComplete)
    | OnClose(id: PoolId)                           // onClose
    | CancelRoot                                    // the owner of the root context cancels it
    | BeginClose(caller: nat)                       // close sets closed
    | CancelByClose(caller: nat)
    | TakeWarmPools(caller: nat)                    // closeKeepWarmPools' critical section
    | WaitReturns(caller: nat)                      // runningPools.Wait returns

  ghost predicate Enabled(m: Transport, step: Step) {
    match step
    case FastLookup(_) => true
    case SlowLookup(_, _, id) => id !in m.all
    case Bump(id) => id in m.all && m.all[id].watcher.Watching? && m.all[id].activity
    case Timer(id) => id in m.all && m.all[id].watcher.Watching?
    case SeeCancel(id) => id in m.all && m.all[id].watcher.Watching? && m.cancelled
    case RemoveCancelled(id) => id in m.all && m.all[id].watcher.Cancelled?
    case EnterClose(id) => id in m.all && m.all[id].calls > 0
    // the balancer's context is cancelled with the root context, or by close of the pool
    case Inside(id, st) =>
      && id in m.all && !st.Shut? && PoolDrain.Enabled(m.all[id].body, st)
      && (st.Stop? ==> m.cancelled || !m.all[id].shutdown.Open?)
    case CompleteClose(id) => id in m.all && m.all[id].shutdown.Working? && PoolDrain.Done(m.all[id].body)
    case OnClose(id) => id in m.all && m.all[id].shutdown.Completed?
    case CancelRoot => true
    case BeginClose(c) => c !in m.callers
    case CancelByClose(c) => c in m.callers && m.callers[c].First?
    case TakeWarmPools(c) => c in m.callers && m.callers[c].CancelledRoot?
    case WaitReturns(c) => c in m.callers && m.callers[c].Draining? && m.runningPools == 0
  }

  function NewPool(dest: Target, warm: bool): Pool {
    var body := PoolDrain.Body(PoolDrain.Lists.Pool([], [], false, 0), map[], [], map[], false);
    Pool(dest, warm, false, true, false, if warm then NoWatcher else Watching, 0, Open, 0, body)
  }

  function SetPool(m: Transport, id: PoolId, p: Pool): Transport {
    m.(all := m.all[id := p])
  }

  /** `getPoolLocked`: a non-blocking send on the activity channel, if there is one. */
  function Touch(p: Pool): Pool {
    if p.warm then p else p.(activity := true)
  }

  /** `delete(m.pools, dest)` by the watcher of `id`, which then calls `pool.close()`. */
  function Remove(m: Transport, id: PoolId): Transport
    requires id in m.all
  {
    var p := m.all[id];
    m.(pools := m.pools - {p.dest}, all := m.all[id := p.(watcher := Left, calls := p.calls + 1)])
  }

  function Drain(p: Pool): Pool {
    p.(activity := false, used := false, drained := true)
  }

  function WarmTargets(m: Transport): set<Target> {
    set d | d in m.pools && m.pools[d] in m.all && m.all[m.pools[d]].warm
  }

  ghost function Apply(m: Transport, step: Step): Transport
    requires Enabled(m, step)
  {
    match step
    case FastLookup(dest) =>
      if dest !in m.pools || m.pools[dest] !in m.all then m
      else
        var p := Touch(m.all[m.pools[dest]]);
        SetPool(m, m.pools[dest], if m.closed then p else p.(used := true))
    case SlowLookup(dest, warm, id) =>
      if m.closed then m
      else if dest in m.pools && m.pools[dest] in m.all then
        SetPool(m, m.pools[dest], Touch(m.all[m.pools[dest]]).(used := true))
      else
        var p := NewPool(dest, warm);
        m.(pools := m.pools[dest := id], all := m.all[id := p], runningPools := m.runningPools + 1)
    case Bump(id) => SetPool(m, id, Drain(m.all[id]))
    case Timer(id) => if m.all[id].activity then SetPool(m, id, Drain(m.all[id])) else Remove(m, id)
    case SeeCancel(id) => SetPool(m, id, m.all[id].(watcher := Cancelled))
    case RemoveCancelled(id) => Remove(m, id)
    case EnterClose(id) =>
      var p := m.all[id].(calls := m.all[id].calls - 1);
      SetPool(m, id, if p.shutdown.Open? && !p.body.lists.closed
                     then p.(shutdown := Working, body := PoolDrain.Apply(p.body, PoolDrain.Shut)) else p)
    case Inside(id, st) => SetPool(m, id, m.all[id].(body := PoolDrain.Apply(m.all[id].body, st)))
    case CompleteClose(id) => SetPool(m, id, m.all[id].(shutdown := Completed))
    case OnClose(id) =>
      SetPool(m, id, m.all[id].(shutdown := Closed, onCloses := m.all[id].onCloses + 1)).(runningPools := m.runningPools - 1)
    case CancelRoot => m.(cancelled := true)
    case BeginClose(c) => m.(closed := true, callers := m.callers[c := if m.closed then Draining else First])
    case CancelByClose(c) => m.(cancelled := true, callers := m.callers[c := CancelledRoot])
    case TakeWarmPools(c) =>
      var taken := WarmTargets(m);
      m.(pools := m.pools - taken,
         all := map id | id in m.all :: if m.all[id].dest in taken && m.pools[m.all[id].dest] == id
                                        then m.all[id].(calls := m.all[id].calls + 1) else m.all[id],
         callers := m.callers[c := Draining])
    case WaitReturns(c) => m.(callers := m.callers[c := Returned])
  }

  // ---------------------------------------------------------------- the invariant

  /** The pools whose `onClose` has not run. */
  ghost function Unclosed(m: Transport): set<PoolId> {
    set id | id in m.all && !m.all[id].shutdown.Closed?
  }

  /** The pools whose `onClose` has run. */
  ghost function Finished(m: Transport): set<PoolId> {
    set id | id in m.all && m.all[id].onCloses == 1
  }

  ghost predicate InMap(m: Transport, id: PoolId, p: Pool) {
    p.dest in m.pools && m.pools[p.dest] == id
  }

  ghost predicate BodyInv(body: PoolDrain.Body, shutdown: Shutdown) {
    && PoolDrain.Inv(body) && (body.lists.closed <==> !shutdown.Open?)
    && (shutdown.Completed? || shutdown.Closed? ==> PoolDrain.Done(body))
  }

  ghost predicate PoolInv(m: Transport, id: PoolId, p: Pool) {
    && BodyInv(p.body, p.shutdown) && (p.warm <==> p.watcher.NoWatcher?)
    && (p.watcher.Watching? || p.watcher.Cancelled? ==> InMap(m, id, p))
    && (p.watcher.Left? ==> !InMap(m, id, p)) && (p.watcher.Cancelled? ==> m.cancelled)
    && (InMap(m, id, p) <==> p.calls == 0 && p.shutdown.Open?)
    && p.calls <= 1 && (p.calls == 1 ==> p.shutdown.Open?)
    && p.onCloses == (if p.shutdown.Closed? then 1 else 0)
    && (p.watcher.Watching? ==> (p.used ==> p.activity || !p.drained) && (!p.drained ==> p.used))
  }

  ghost predicate Inv(m: Transport) {
    && (forall d :: d in m.pools ==> m.pools[d] in m.all && m.all[m.pools[d]].dest == d)
    && (forall id :: id in m.all ==> PoolInv(m, id, m.all[id]))
    && m.runningPools == |Unclosed(m)|
    && (m.callers != map[] ==> m.closed)
    && (forall c :: c in m.callers && m.callers[c].Returned? ==> m.runningPools == 0)
  }

  /** A step that changes one pool, not its target, and leaves the map alone. */
  lemma SetPoolKeepsInv(m: Transport, id: PoolId, p: Pool)
    requires Inv(m) && id in m.all && p.dest == m.all[id].dest && PoolInv(m, id, p)
    requires p.shutdown.Closed? <==> m.all[id].shutdown.Closed?
    ensures Inv(SetPool(m, id, p))
  {
    hide BodyInv;
    var t := SetPool(m, id, p);
    assert Unclosed(t) == Unclosed(m);
    forall i | i in t.all ensures PoolInv(t, i, t.all[i]) {
      assert PoolInv(m, i, if i == id then p else m.all[i]);
    }
  }

  lemma OnCloseKeepsInv(m: Transport, id: PoolId)
    requires Inv(m) && id in m.all && m.all[id].shutdown.Completed?
    ensures Inv(SetPool(m, id, m.all[id].(shutdown := Closed, onCloses := m.all[id].onCloses + 1)).(runningPools := m.runningPools - 1))
  {
    hide BodyInv;
    ShutdownStep(m.all[id]);
    var p := m.all[id].(shutdown := Closed, onCloses := m.all[id].onCloses + 1);
    var t := SetPool(m, id, p).(runningPools := m.runningPools - 1);
    assert PoolInv(m, id, m.all[id]);
    UnclosedShrinks(m, t, id);
    hide Unclosed;
    forall i | i in t.all ensures PoolInv(t, i, t.all[i]) {
      if i == id { assert PoolInv(t, id, p); } else { assert PoolInv(m, i, m.all[i]); }
    }
  }

  /** A watcher's delete takes its own pool out of the map, never a successor for the same target. */
  lemma RemoveKeepsInv(m: Transport, id: PoolId)
    requires Inv(m) && id in m.all && (m.all[id].watcher.Watching? || m.all[id].watcher.Cancelled?)
    ensures InMap(m, id, m.all[id])
    ensures Inv(Remove(m, id))
  {
    hide BodyInv;
    var t := Remove(m, id);
    assert PoolInv(m, id, m.all[id]);
    assert Unclosed(t) == Unclosed(m);
    forall i | i in t.all ensures PoolInv(t, i, t.all[i]) {
      assert PoolInv(m, i, m.all[i]);
    }
  }

  lemma CreateKeepsInv(m: Transport, dest: Target, warm: bool, id: PoolId)
    requires Inv(m) && Enabled(m, SlowLookup(dest, warm, id))
    ensures Inv(Apply(m, SlowLookup(dest, warm, id)))
  {
    hide BodyInv;
    var t := Apply(m, SlowLookup(dest, warm, id));
    if !m.closed {
      if dest in m.pools {
        assert PoolInv(m, m.pools[dest], m.all[m.pools[dest]]);
        SetPoolKeepsInv(m, m.pools[dest], t.all[m.pools[dest]]);
      } else {
        NewPoolKeepsInv(m, dest, id, t.all[id]);
      }
    }
  }

  lemma NewPoolKeepsInv(m: Transport, dest: Target, id: PoolId, p: Pool)
    requires Inv(m) && !m.closed && id !in m.all && dest !in m.pools
    requires p == NewPool(dest, p.warm)
    ensures Inv(m.(pools := m.pools[dest := id], all := m.all[id := p], runningPools := m.runningPools + 1))
  {
    NewBody(dest, p.warm);
    hide Unclosed, BodyInv;
    var t := m.(pools := m.pools[dest := id], all := m.all[id := p], runningPools := m.runningPools + 1);
    UnclosedGrows(m, t, id);
    forall i | i in t.all ensures PoolInv(t, i, t.all[i]) {
      if i != id { assert PoolInv(m, i, m.all[i]); }
    }
  }

  lemma NewBody(dest: Target, warm: bool)
    ensures BodyInv(NewPool(dest, warm).body, NewPool(dest, warm).shutdown)
  {
    PoolDrain.FreshInv(NewPool(dest, warm).body);
  }

  lemma UnclosedGrows(m: Transport, t: Transport, id: PoolId)
    requires id !in m.all && t.all.Keys == m.all.Keys + {id} && !t.all[id].shutdown.Closed?
    requires forall i :: i in m.all ==> t.all[i] == m.all[i]
    ensures |Unclosed(t)| == |Unclosed(m)| + 1
  {
    assert Unclosed(t) == Unclosed(m) + {id};
  }

  lemma UnclosedShrinks(m: Transport, t: Transport, id: PoolId)
    requires id in m.all && t.all.Keys == m.all.Keys && !m.all[id].shutdown.Closed? && t.all[id].shutdown.Closed?
    requires forall i :: i in m.all && i != id ==> t.all[i] == m.all[i]
    ensures |Unclosed(t)| == |Unclosed(m)| - 1 && |Unclosed(m)| > 0
  {
    assert id in Unclosed(m) && Unclosed(t) == Unclosed(m) - {id};
  }

  lemma TakeWarmKeepsInv(m: Transport, c: nat)
    requires Inv(m) && Enabled(m, TakeWarmPools(c))
    ensures Inv(Apply(m, TakeWarmPools(c)))
  {
    hide BodyInv, PoolDrain.Apply, PoolDrain.Enabled, PoolDrain.Done;
    var t := Apply(m, TakeWarmPools(c));
    assert Unclosed(t) == Unclosed(m);
    forall i | i in t.all ensures PoolInv(t, i, t.all[i]) {
      assert PoolInv(m, i, m.all[i]);
      assert m.all[i].dest in WarmTargets(m) && InMap(m, i, m.all[i]) ==> m.all[i].warm;
    }
  }

  lemma StepKeepsInv(m: Transport, step: Step)
    requires Inv(m) && Enabled(m, step)
    ensures Inv(Apply(m, step))
  {
    hide BodyInv, PoolDrain.Apply, PoolDrain.Enabled, PoolDrain.Done;
    var t := Apply(m, step);
    match step
    case FastLookup(dest) =>
      if dest in m.pools {
        assert PoolInv(m, m.pools[dest], m.all[m.pools[dest]]);
        SetPoolKeepsInv(m, m.pools[dest], t.all[m.pools[dest]]);
      }
    case SlowLookup(dest, warm, id) => CreateKeepsInv(m, dest, warm, id);
    case Timer(id) => if m.all[id].activity { OwnStepKeepsInv(m, step); } else { RemoveKeepsInv(m, id); }
    case RemoveCancelled(id) => RemoveKeepsInv(m, id);
    case OnClose(id) => OnCloseKeepsInv(m, id);
    case TakeWarmPools(c) => TakeWarmKeepsInv(m, c);
    case Bump(_) => OwnStepKeepsInv(m, step);
    case SeeCancel(_) => OwnStepKeepsInv(m, step);
    case EnterClose(_) => BodyStepKeepsInv(m, step);
    case Inside(_, _) => BodyStepKeepsInv(m, step);
    case CompleteClose(_) => OwnStepKeepsInv(m, step);
    case _ => CallersKeepInv(m, t);
  }

  /** The steps of one pool that leave the map alone. */
  lemma OwnStepKeepsInv(m: Transport, step: Step)
    requires Inv(m) && Enabled(m, step)
    requires step.Bump? || (step.Timer? && m.all[step.id].activity) || step.SeeCancel? || step.CompleteClose?
    ensures Inv(Apply(m, step))
  {
    hide BodyInv, PoolDrain.Done;
    assert PoolInv(m, step.id, m.all[step.id]);
    ShutdownStep(m.all[step.id]);
    SetPoolKeepsInv(m, step.id, Apply(m, step).all[step.id]);
  }

  /** The steps inside one pool. */
  lemma BodyStepKeepsInv(m: Transport, step: Step)
    requires Inv(m) && Enabled(m, step) && (step.EnterClose? || step.Inside?)
    ensures Inv(Apply(m, step))
  {
    hide BodyInv, PoolDrain.Enabled, PoolDrain.Apply;
    var p := m.all[step.id];
    assert PoolInv(m, step.id, p);
    if step.Inside? {
      BodyStep(p, step.step);
    } else if p.shutdown.Open? {
      ShutStep(p);
    }
    SetPoolKeepsInv(m, step.id, Apply(m, step).all[step.id]);
  }

  lemma BodyStep(p: Pool, st: PoolDrain.Step)
    requires BodyInv(p.body, p.shutdown) && PoolDrain.Enabled(p.body, st) && !st.Shut?
    ensures BodyInv(PoolDrain.Apply(p.body, st), p.shutdown)
  {
    PoolDrain.StepKeepsInv(p.body, st);
    if PoolDrain.Done(p.body) { PoolDrain.DoneStays(p.body, st); }
    hide PoolDrain.Inv, PoolDrain.Done;
  }

  lemma ShutStep(p: Pool)
    requires BodyInv(p.body, p.shutdown) && p.shutdown.Open?
    ensures PoolDrain.Enabled(p.body, PoolDrain.Shut) && !p.body.lists.closed
    ensures BodyInv(PoolDrain.Apply(p.body, PoolDrain.Shut), Working)
  {
    PoolDrain.StepKeepsInv(p.body, PoolDrain.Shut);
    hide PoolDrain.Inv, PoolDrain.Done;
  }

  /** The steps of a pool's shutdown that leave its connections alone. */
  lemma ShutdownStep(p: Pool)
    requires BodyInv(p.body, p.shutdown)
    ensures p.shutdown.Working? && PoolDrain.Done(p.body) ==> BodyInv(p.body, Completed)
    ensures p.shutdown.Completed? ==> BodyInv(p.body, Closed)
  {
    hide PoolDrain.Inv, PoolDrain.Done;
  }

  lemma CallersKeepInv(m: Transport, t: Transport)
    requires Inv(m) && t.pools == m.pools && t.all == m.all && t.runningPools == m.runningPools && (m.cancelled ==> t.cancelled)
    requires (t.callers != map[] ==> t.closed) && forall c :: c in t.callers && t.callers[c].Returned? ==> t.runningPools == 0
    ensures Inv(t)
  {
    hide BodyInv;
    assert Unclosed(t) == Unclosed(m);
    forall i | i in t.all ensures PoolInv(t, i, t.all[i]) {
      assert PoolInv(m, i, m.all[i]);
    }
  }

  // ---------------------------------------------------------------- runs

  predicate Fresh(m: Transport) {
    m == Transport(false, false, map[], map[], 0, map[])
  }

  ghost predicate Runs(m: Transport, steps: seq<Step>)
    decreases |steps|
  {
    steps != [] ==> Enabled(m, steps[0]) && Runs(Apply(m, steps[0]), steps[1..])
  }

  ghost function After(m: Transport, steps: seq<Step>): Transport
    requires Runs(m, steps)
    decreases |steps|
  {
    if steps == [] then m else After(Apply(m, steps[0]), steps[1..])
  }

  lemma {:induction false} RunKeepsInv(m: Transport, steps: seq<Step>)
    requires Inv(m) && Runs(m, steps)
    ensures Inv(After(m, steps))
    decreases |steps|
  {
    hide Inv, Apply, Enabled;
    if steps != [] {
      StepKeepsInv(m, steps[0]);
      RunKeepsInv(Apply(m, steps[0]), steps[1..]);
    }
  }

  /**
   In every interleaving the WaitGroup's counter is the number of pools made minus the number of
   `onClose` calls, no pool's `onClose` runs twice, and every pool in the map is open, under its own target.
   */
  lemma RunningPoolsCounts(m: Transport, steps: seq<Step>)
    requires Fresh(m) && Runs(m, steps)
    ensures var t := After(m, steps);
            && t.runningPools == |t.all| - |Finished(t)|
            && (forall id :: id in t.all ==> t.all[id].onCloses <= 1)
            && (forall d :: d in t.pools ==> t.pools[d] in t.all && t.all[t.pools[d]].dest == d && t.all[t.pools[d]].shutdown.Open?)
  {
    FreshInv(m);
    RunKeepsInv(m, steps);
    hide Inv, After;
    InvCounts(After(m, steps));
  }

  lemma FreshInv(m: Transport)
    requires Fresh(m)
    ensures Inv(m) && CloseInv(m)
  {
    assert Unclosed(m) == {};
  }

  lemma InvCounts(t: Transport)
    requires Inv(t)
    ensures t.runningPools == |t.all| - |Finished(t)|
    ensures forall id :: id in t.all ==> t.all[id].onCloses <= 1
    ensures forall d :: d in t.pools ==> t.pools[d] in t.all && t.all[t.pools[d]].dest == d && t.all[t.pools[d]].shutdown.Open?
  {
    assert forall id :: id in t.all ==> t.all[id].onCloses == (if t.all[id].shutdown.Closed? then 1 else 0) by {
      assert forall id :: id in t.all ==> PoolInv(t, id, t.all[id]);
    }
    FinishedComplement(t);
    forall d | d in t.pools ensures t.all[t.pools[d]].shutdown.Open? {
      assert PoolInv(t, t.pools[d], t.all[t.pools[d]]);
    }
  }

  lemma FinishedComplement(t: Transport)
    requires forall id :: id in t.all ==> t.all[id].onCloses == (if t.all[id].shutdown.Closed? then 1 else 0)
    ensures |Unclosed(t)| == |t.all| - |Finished(t)|
  {
    assert Unclosed(t) + Finished(t) == t.all.Keys && Unclosed(t) !! Finished(t);
    assert |Unclosed(t) + Finished(t)| == |Unclosed(t)| + |Finished(t)|;
  }

  /** A watcher's delete, on idle timeout or on cancellation, removes exactly the watcher's own pool from the map. */
  lemma WatcherRemovesItsOwnPool(m: Transport, step: Step)
    requires Inv(m) && Enabled(m, step)
    requires step.RemoveCancelled? || (step.Timer? && !m.all[step.id].activity)
    ensures var p := m.all[step.id];
            && p.dest in m.pools && m.pools[p.dest] == step.id
            && Apply(m, step).pools == m.pools - {p.dest}
            && (forall d :: d in m.pools && m.pools[d] == step.id ==> d == p.dest)
  {
    RemoveKeepsInv(m, step.id);
  }

  datatype Option<T> = None | Some(value: T)

  /** The pool that a lookup hands to its caller, found or just made. */
  function HandsOut(m: Transport, step: Step): Option<PoolId> {
    match step
    case FastLookup(dest) => if !m.closed && dest in m.pools then Some(m.pools[dest]) else None
    case SlowLookup(dest, _, id) => if m.closed then None else if dest in m.pools then Some(m.pools[dest]) else Some(id)
    case _ => None
  }

  ghost predicate NeverReturned(m: Transport, id: PoolId, steps: seq<Step>)
    requires Runs(m, steps)
    decreases |steps|
  {
    steps != [] ==> HandsOut(m, steps[0]) != Some(id) && NeverReturned(Apply(m, steps[0]), id, steps[1..])
  }

  /** The map only ever loses pools or gains a new one, and a pool keeps its target. */
  lemma MapStep(m: Transport, step: Step)
    requires Enabled(m, step)
    ensures var t := Apply(m, step);
            && (forall d :: d in t.pools ==> (d in m.pools && t.pools[d] == m.pools[d]) || t.pools[d] !in m.all)
            && (forall id :: id in m.all ==> id in t.all && t.all[id].dest == m.all[id].dest)
  {
    hide NewPool, PoolDrain.Apply, PoolDrain.Enabled, PoolDrain.Done;
  }

  /** A pool only leaves the map when it idles out, when the root context is done, or as a warm pool when the transport is closed. */
  lemma WhyAPoolLeaves(m: Transport, step: Step, id: PoolId)
    requires Inv(m) && Enabled(m, step) && id in m.all && InMap(m, id, m.all[id]) && !InMap(Apply(m, step), id, m.all[id])
    ensures var p := m.all[id];
            || (step == Timer(id) && !p.warm && !p.activity && p.calls == 0)
            || (step == RemoveCancelled(id) && !p.warm && m.cancelled)
            || (step.TakeWarmPools? && p.warm && m.closed)
  {
    hide BodyInv, PoolDrain.Apply, PoolDrain.Enabled, PoolDrain.Done;
    assert PoolInv(m, id, m.all[id]);
    assert step.Timer? || step.RemoveCancelled? ==> PoolInv(m, step.id, m.all[step.id]);
  }

  lemma OutStep(m: Transport, id: PoolId, step: Step)
    requires Inv(m) && Enabled(m, step) && id in m.all && !InMap(m, id, m.all[id])
    ensures var t := Apply(m, step);
            id in t.all && t.all[id].dest == m.all[id].dest && !InMap(t, id, t.all[id])
    ensures HandsOut(m, step) != Some(id)
  {
    hide PoolInv, Unclosed, Apply;
    MapStep(m, step);
  }

  /** A pool that has left the map is never returned by a lookup again. */
  lemma {:induction false} OutForGood(m: Transport, id: PoolId, steps: seq<Step>)
    requires Inv(m) && Runs(m, steps) && id in m.all && !InMap(m, id, m.all[id])
    ensures NeverReturned(m, id, steps)
    decreases |steps|
  {
    if steps != [] {
      OutStep(m, id, steps[0]);
      StepKeepsInv(m, steps[0]);
      hide Inv, Apply, Enabled;
      OutForGood(Apply(m, steps[0]), id, steps[1..]);
    }
  }

  /** `used` of a pool with a watcher says what lookups and drains have done to it since. */
  lemma UsedFollowsLookups(m: Transport, id: PoolId, step: Step)
    requires Inv(m) && Enabled(m, step) && id in Apply(m, step).all
    ensures Apply(m, step).all[id].used <==>
            HandsOut(m, step) == Some(id) ||
            (id in m.all && m.all[id].used && !(step.Bump? && step.id == id) && !(step.Timer? && step.id == id && m.all[id].activity))
  {
    hide BodyInv, PoolDrain.Apply, PoolDrain.Enabled, PoolDrain.Done;
  }

  /**
   When an idle timeout removes a pool, exactly: no lookup has returned it since its activity channel
   was last drained, if the channel was ever drained; otherwise only the lookup that made the pool has.
   No lookup ever returns it afterwards.
   */
  lemma IdleRemovalIsIdleIff(m0: Transport, before: seq<Step>, id: PoolId, more: seq<Step>)
    requires Fresh(m0) && Runs(m0, before)
    requires var m := After(m0, before);
             Enabled(m, Timer(id)) && !InMap(Apply(m, Timer(id)), id, m.all[id]) && Runs(Apply(m, Timer(id)), more)
    ensures var m := After(m0, before);
            && InMap(m, id, m.all[id]) && (!m.all[id].used <==> m.all[id].drained)
            && NeverReturned(Apply(m, Timer(id)), id, more)
  {
    FreshInv(m0);
    RunKeepsInv(m0, before);
    var m := After(m0, before);
    hide After;
    assert PoolInv(m, id, m.all[id]);
    RemoveKeepsInv(m, id);
    OutForGood(Apply(m, Timer(id)), id, more);
  }

  /** The failing case: the pool is removed although the lookup that made it has just returned it. */
  lemma NewPoolCanBeRemoved(m: Transport, dest: Target, id: PoolId)
    requires Fresh(m)
    ensures var run := [SlowLookup(dest, false, id), Timer(id)];
            Runs(m, run) && HandsOut(m, run[0]) == Some(id) && After(m, run).pools == map[]
            && id in After(m, run).all && After(m, run).all[id].used && After(m, run).all[id].calls == 1
  {
    var run := [SlowLookup(dest, false, id), Timer(id)];
    var m1 := Apply(m, run[0]);
    assert run[1..] == [Timer(id)] && run[1..][1..] == [];
    assert Enabled(m1, Timer(id)) && m1.pools == map[dest := id];
    var m2 := Apply(m1, Timer(id));
    assert Runs(m2, []) && After(m2, []) == m2;
    assert Runs(m1, [Timer(id)]) && After(m1, [Timer(id)]) == m2;
  }

  /**
   A lookup hands out nothing once `closed` is set, and before that the pool of its own target, which nobody
   has begun to close and whose goroutine, if it has one, finds a token in the activity channel; only the fast path can miss.
   */
  lemma LookupReturnsOpenPool(m: Transport, step: Step)
    requires Inv(m) && Enabled(m, step) && (step.FastLookup? || step.SlowLookup?)
    ensures HandsOut(m, step).None? <==> m.closed || (step.FastLookup? && step.dest !in m.pools)
    ensures HandsOut(m, step).Some? ==>
              var t, id := Apply(m, step), HandsOut(m, step).value;
              && step.dest in t.pools && t.pools[step.dest] == id && id in t.all
              && t.all[id].dest == step.dest && t.all[id].shutdown.Open? && t.all[id].calls == 0
              && (id in m.all ==> t.all[id].warm || t.all[id].activity)
  {
    StepKeepsInv(m, step);
    hide BodyInv;
    if HandsOut(m, step).Some? {
      var t, id := Apply(m, step), HandsOut(m, step).value;
      assert PoolInv(t, id, t.all[id]);
    }
  }

  lemma NothingMadeStep(m: Transport, step: Step)
    requires m.closed && Enabled(m, step)
    ensures var t := Apply(m, step); t.closed && t.all.Keys == m.all.Keys && t.runningPools <= m.runningPools
  {
  }

  /** A pool's balancer has only returned if the root context is done or the pool is being closed. */
  ghost predicate StoppedForAReason(m: Transport) {
    forall id :: id in m.all && m.all[id].body.stopped ==> m.cancelled || !m.all[id].shutdown.Open?
  }

  lemma StepKeepsStopped(m: Transport, step: Step)
    requires StoppedForAReason(m) && Enabled(m, step)
    ensures StoppedForAReason(Apply(m, step))
  {
    if step.Inside? { InsideStops(m.all[step.id].body, step.step); }
    if step.EnterClose? && !m.all[step.id].body.lists.closed { InsideStops(m.all[step.id].body, PoolDrain.Shut); }
    hide PoolDrain.Apply, PoolDrain.Enabled, PoolDrain.Done;
  }

  lemma InsideStops(b: PoolDrain.Body, st: PoolDrain.Step)
    requires PoolDrain.Enabled(b, st)
    ensures PoolDrain.Apply(b, st).stopped <==> b.stopped || st.Stop?
  {
  }

  /** So in every run: while a pool is open and the root context is not done, its balancer still runs. */
  lemma {:induction false} BalancerRunsUntilClosed(m: Transport, steps: seq<Step>)
    requires StoppedForAReason(m) && Runs(m, steps)
    ensures StoppedForAReason(After(m, steps))
    decreases |steps|
  {
    hide StoppedForAReason, Apply, Enabled;
    if steps != [] {
      StepKeepsStopped(m, steps[0]);
      BalancerRunsUntilClosed(Apply(m, steps[0]), steps[1..]);
    }
  }

  /** Once `closed` is set no pool is made any more, so nothing is added to the WaitGroup. */
  lemma {:induction false} NothingMadeAfterClose(m: Transport, steps: seq<Step>)
    requires m.closed && Runs(m, steps) && Inv(m)
    ensures var t := After(m, steps); t.closed && t.all.Keys == m.all.Keys && t.runningPools <= m.runningPools
    decreases |steps|
  {
    if steps != [] {
      StepKeepsInv(m, steps[0]);
      NothingMadeStep(m, steps[0]);
      hide Inv, Apply, Enabled;
      NothingMadeAfterClose(Apply(m, steps[0]), steps[1..]);
    }
  }

  ghost predicate AllClosed(body: PoolDrain.Body) {
    forall c :: c in body.lists.conns || c in body.snapshot ==> c in body.conns && body.conns[c].closes == 1
  }

  /**
   When any call of `close` has returned, every pool ever made has finished closing, with each of its active
   connections and each that it waited for closed exactly once, the map is empty, and all that stays so.
   */
  lemma CloseReturnsClean(m: Transport, steps: seq<Step>, caller: nat, more: seq<Step>)
    requires Fresh(m) && Runs(m, steps)
    requires caller in After(m, steps).callers && After(m, steps).callers[caller].Returned?
    requires Runs(After(m, steps), more)
    ensures var t := After(After(m, steps), more);
            t.pools == map[] && forall id :: id in t.all ==>
              && t.all[id].shutdown.Closed? && t.all[id].onCloses == 1 && PoolDrain.Done(t.all[id].body)
              && forall c :: c in t.all[id].body.lists.conns || c in t.all[id].body.snapshot ==>
                   c in t.all[id].body.conns && t.all[id].body.conns[c].closes == 1
  {
    FreshInv(m);
    RunKeepsInv(m, steps);
    RunKeepsInv(After(m, steps), more);
    NothingMadeAfterClose(After(m, steps), more);
    var t := After(After(m, steps), more);
    assert Unclosed(t) == {};
    forall id | id in t.all ensures t.all[id].shutdown.Closed? && t.all[id].onCloses == 1 && PoolDrain.Done(t.all[id].body) && PoolDrain.Inv(t.all[id].body) {
      assert id !in Unclosed(t) && PoolInv(t, id, t.all[id]);
    }
    forall id | id in t.all ensures AllClosed(t.all[id].body) {
      PoolDrain.DoneClosesAll(t.all[id].body);
    }
    InvCounts(t);
    assert t.pools.Keys == {};
  }

  // ---------------------------------------------------------------- progress

  /** The first caller of `close` has still to cancel the context or to take the warm pools. */
  ghost predicate CloseUnderWay(m: Transport) {
    exists c :: c in m.callers && (m.callers[c].First? || m.callers[c].CancelledRoot?)
  }

  ghost predicate CloseInv(m: Transport) {
    && (m.closed ==> CloseUnderWay(m) || (m.cancelled && WarmTargets(m) == {}))
    && (forall c :: c in m.callers && m.callers[c].CancelledRoot? ==> m.cancelled)
  }

  lemma WarmTargetsShrink(m: Transport, step: Step)
    requires Inv(m) && m.closed && Enabled(m, step)
    ensures WarmTargets(Apply(m, step)) <= WarmTargets(m)
  {
    hide PoolInv, PoolDrain.Apply, PoolDrain.Enabled, PoolDrain.Done, Unclosed;
  }

  lemma StepKeepsCloseInv(m: Transport, step: Step)
    requires Inv(m) && CloseInv(m) && Enabled(m, step)
    ensures CloseInv(Apply(m, step))
  {
    hide BodyInv, PoolDrain.Apply, PoolDrain.Enabled, PoolDrain.Done;
    var t := Apply(m, step);
    if step.TakeWarmPools? {
      assert WarmTargets(t) == {};
    } else if step.BeginClose? && !m.closed {
      assert t.callers[step.caller].First?;
    } else if step.CancelByClose? {
      assert t.callers[step.caller].CancelledRoot?;
    } else if m.closed {
      if CloseUnderWay(m) {
        var c :| c in m.callers && (m.callers[c].First? || m.callers[c].CancelledRoot?);
        assert c in t.callers && t.callers[c] == m.callers[c];
      } else {
        WarmTargetsShrink(m, step);
      }
    }
  }

  lemma WarmPoolsAreTargets(m: Transport)
    ensures forall id :: id in m.all && m.all[id].warm && InMap(m, id, m.all[id]) ==> m.all[id].dest in WarmTargets(m)
  {
  }

  lemma {:induction false} RunKeepsCloseInv(m: Transport, steps: seq<Step>)
    requires Inv(m) && CloseInv(m) && Runs(m, steps)
    ensures CloseInv(After(m, steps))
    decreases |steps|
  {
    hide Inv, CloseInv, Apply, Enabled;
    if steps != [] {
      StepKeepsInv(m, steps[0]);
      StepKeepsCloseInv(m, steps[0]);
      RunKeepsCloseInv(Apply(m, steps[0]), steps[1..]);
    }
  }
}

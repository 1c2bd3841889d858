/**
 The balancer of balancer.go: connections, their health and warm-up, the tiers that decide which are
 usable, and the published picker, under every interleaving of address updates, health changes and
 warm-ups before shutdown. One critical section, or one call into the pool, is one step.
 */
module Balancer {
  import opened Collections

  type Conn = nat

  /** health.State: better states are smaller. */
  type State = s: int | -1 <= s <= 2 witness 0
  const HEALTHY: State := -1
  const UNKNOWN: State := 0
  const DEGRADED: State := 1
  const UNHEALTHY: State := 2

  datatype Info = Info(state: State, warm: bool)

  /** What the pool was last given: nothing yet, an error picker, or a picker over a set of connections. */
  datatype Published = Nothing | ErrorPicker | Picks(conns: set<Conn>, warm: bool)

  datatype Option<T> = None | Some(value: T)

  /** Where the goroutine that owns the connection manager is inside `updateConns`. */
  datatype Phase =
    | Between
    | Creating(added: seq<Conn>, removing: seq<Conn>) // NewConn calls, before the lock is taken
    | Removing(added: seq<Conn>, rest: seq<Conn>)     // RemoveConn calls, after it was released

  datatype Bal = Bal(
    conns: seq<Conn>,
    info: map<Conn, Info>,
    latestUsable: set<Conn>,
    latestPicker: Option<set<Conn>>,  // a picker is represented by the connections it was built from
    published: Published,
    active: set<Conn>,                // the pool's connections
    removed: set<Conn>,               // every connection ever passed to RemoveConn
    made: nat,                        // connections are numbered as the pool makes them
    tracked: set<Conn>,               // the connections in the manager's connsByAddr
    phase: Phase,
    built: seq<set<Conn>>,            // the connections of each picker made so far
    resolved: bool)                   // the goroutine of the manager has seen addresses

  // ---------------------------------------------------------------- usable connections

  function InState(conns: seq<Conn>, info: map<Conn, Info>, s: State): seq<Conn> {
    if conns == [] then []
    else
      var n := |conns| - 1;
      InState(conns[..n], info, s) + (if conns[n] in info && info[conns[n]].state == s then [conns[n]] else [])
  }

  /** At least 3, and beyond that a quarter of n, halves rounded up. */
  function MinConns(n: nat): (r: nat)
    ensures r >= 3 && n < 4 * r + 2 && (r > 3 ==> 4 * r - 2 <= n)
  {
    if (n + 2) / 4 > 3 then (n + 2) / 4 else 3
  }

  /** The tiers from `s` on, added to `results` until there are enough. */
  function TiersFrom(conns: seq<Conn>, info: map<Conn, Info>, results: seq<Conn>, s: State): seq<Conn>
    decreases UNHEALTHY - s
  {
    if s == UNHEALTHY then results
    else
      var more := results + InState(conns, info, s);
      if |more| >= MinConns(|conns|) then more else TiersFrom(conns, info, more, s + 1)
  }

  function Usable(conns: seq<Conn>, info: map<Conn, Info>): seq<Conn> {
    TiersFrom(conns, info, [], HEALTHY)
  }

  ghost predicate AnyWarm(conns: seq<Conn>, info: map<Conn, Info>) {
    exists c :: c in conns && c in info && info[c].warm && info[c].state == HEALTHY
  }

  lemma {:induction false} InStateMembers(conns: seq<Conn>, info: map<Conn, Info>, s: State)
    ensures forall c :: c in InState(conns, info, s) <==> c in conns && c in info && info[c].state == s
  {
    if conns != [] {
      InStateMembers(conns[..|conns| - 1], info, s);
      assert conns == conns[..|conns| - 1] + [conns[|conns| - 1]];
    }
  }

  lemma {:induction false} InStateIsSet(conns: seq<Conn>, info: map<Conn, Info>, s: State)
    requires NoDup(conns)
    ensures NoDup(InState(conns, info, s))
    ensures ToSet(InState(conns, info, s)) == set c | c in conns && c in info && info[c].state == s
  {
    InStateMembers(conns, info, s);
    if conns != [] {
      var n := |conns| - 1;
      var front := conns[..n];
      assert forall i, j :: 0 <= i < j < n ==> front[i] == conns[i] && front[j] == conns[j];
      InStateIsSet(front, info, s);
      InStateMembers(front, info, s);
      hide InState;
      forall i | 0 <= i < |InState(front, info, s)| ensures InState(front, info, s)[i] != conns[n] {
        assert InState(front, info, s)[i] in front;
      }
      InStateStep(conns, info, s);
    }
  }

  lemma InStateStep(conns: seq<Conn>, info: map<Conn, Info>, s: State)
    requires conns != []
    ensures var n := |conns| - 1;
            InState(conns, info, s) ==
            InState(conns[..n], info, s) + (if conns[n] in info && info[conns[n]].state == s then [conns[n]] else [])
  {
  }

  /** The connections in states better than `s`. */
  ghost function Better(conns: seq<Conn>, info: map<Conn, Info>, s: int): set<Conn> {
    set c | c in conns && c in info && info[c].state < s
  }

  /**
   The usable connections are whole tiers, best first: every connection in a state better than some
   cut, which is never below degraded; one tier less would be fewer than max(3, a quarter), and so
   would be the whole unless it stops as soon as there are enough.
   */
  lemma UsableIsWholeTiers(conns: seq<Conn>, info: map<Conn, Info>) returns (cut: State)
    requires NoDup(conns)
    ensures cut > HEALTHY && NoDup(Usable(conns, info))
    ensures ToSet(Usable(conns, info)) == set c | c in conns && c in info && info[c].state < cut
    ensures cut < UNHEALTHY ==> |set c | c in conns && c in info && info[c].state < cut| >= MinConns(|conns|)
    ensures cut > UNKNOWN ==> |set c | c in conns && c in info && info[c].state < cut - 1| < MinConns(|conns|)
  {
    cut := Cut(conns, info);
    hide Usable;
    BetterIs(conns, info, cut);
    BetterIs(conns, info, cut - 1);
    hide Better;
  }

  lemma BetterIs(conns: seq<Conn>, info: map<Conn, Info>, s: int)
    ensures Better(conns, info, s) == set c | c in conns && c in info && info[c].state < s
  {
  }

  lemma Cut(conns: seq<Conn>, info: map<Conn, Info>) returns (cut: State)
    requires NoDup(conns)
    ensures cut > HEALTHY && IsListOf(Usable(conns, info), Better(conns, info, cut))
    ensures cut < UNHEALTHY ==> |Better(conns, info, cut)| >= MinConns(|conns|)
    ensures cut > UNKNOWN ==> |Better(conns, info, cut - 1)| < MinConns(|conns|)
  {
    TierSets(conns, info);
    UsableCases(conns, info);
    hide InState, Usable, Better;
    var h, u := InState(conns, info, HEALTHY), InState(conns, info, UNKNOWN);
    if |h| >= MinConns(|conns|) {
      cut := UNKNOWN;
    } else if |h| + |u| >= MinConns(|conns|) {
      cut := DEGRADED;
    } else {
      cut := UNHEALTHY;
    }
  }

  /** The list of usable connections has the better tiers first. */
  lemma UsableIsSorted(conns: seq<Conn>, info: map<Conn, Info>)
    ensures var usable := Usable(conns, info);
            forall i, j :: 0 <= i < j < |usable| ==>
              usable[i] in info && usable[j] in info && info[usable[i]].state <= info[usable[j]].state
  {
    var usable, all := Usable(conns, info), InState(conns, info, HEALTHY) + InState(conns, info, UNKNOWN) + InState(conns, info, DEGRADED);
    InStateMembers(conns, info, HEALTHY);
    InStateMembers(conns, info, UNKNOWN);
    InStateMembers(conns, info, DEGRADED);
    UsableCases(conns, info);
    hide Usable, InState;
    assert usable == all[..|usable|];
    TiersAreSorted(info, InState(conns, info, HEALTHY), InState(conns, info, UNKNOWN), InState(conns, info, DEGRADED));
  }

  lemma TiersAreSorted(info: map<Conn, Info>, h: seq<Conn>, u: seq<Conn>, d: seq<Conn>)
    requires forall c :: c in h ==> c in info && info[c].state == HEALTHY
    requires forall c :: c in u ==> c in info && info[c].state == UNKNOWN
    requires forall c :: c in d ==> c in info && info[c].state == DEGRADED
    ensures var all := h + u + d;
            forall i, j :: 0 <= i < j < |all| ==> all[i] in info && all[j] in info && info[all[i]].state <= info[all[j]].state
  {
  }

  lemma TierSets(conns: seq<Conn>, info: map<Conn, Info>)
    requires NoDup(conns)
    ensures var h, u, d := InState(conns, info, HEALTHY), InState(conns, info, UNKNOWN), InState(conns, info, DEGRADED);
            && IsListOf(h, Better(conns, info, UNKNOWN))
            && IsListOf(h + u, Better(conns, info, DEGRADED)) && IsListOf(h + u + d, Better(conns, info, UNHEALTHY))
  {
    hide InState, IsListOf;
    NoneBetter(conns, info);
    OneMoreTier(conns, info, [], HEALTHY);
    assert [] + InState(conns, info, HEALTHY) == InState(conns, info, HEALTHY);
    OneMoreTier(conns, info, InState(conns, info, HEALTHY), UNKNOWN);
    OneMoreTier(conns, info, InState(conns, info, HEALTHY) + InState(conns, info, UNKNOWN), DEGRADED);
  }

  ghost predicate IsListOf(s: seq<Conn>, all: set<Conn>) {
    NoDup(s) && ToSet(s) == all && |s| == |all|
  }

  lemma NoneBetter(conns: seq<Conn>, info: map<Conn, Info>)
    ensures IsListOf([], Better(conns, info, HEALTHY))
  {
    assert Better(conns, info, HEALTHY) == {} && ToSet<Conn>([]) == {};
  }

  /** One more tier is added to the list of those better than it. */
  lemma OneMoreTier(conns: seq<Conn>, info: map<Conn, Info>, better: seq<Conn>, s: State)
    requires NoDup(conns) && IsListOf(better, Better(conns, info, s))
    ensures IsListOf(better + InState(conns, info, s), Better(conns, info, s + 1))
  {
    InStateIsSet(conns, info, s);
    hide InState;
    var tier := InState(conns, info, s);
    assert Better(conns, info, s + 1) == Better(conns, info, s) + ToSet(tier) && Better(conns, info, s) !! ToSet(tier);
    hide Better;
    NoDupConcat(better, tier);
    assert ToSet(better + tier) == ToSet(better) + ToSet(tier);
    NoDupCard(better + tier);
  }

  lemma UsableCases(conns: seq<Conn>, info: map<Conn, Info>)
    ensures var h, u, d := InState(conns, info, HEALTHY), InState(conns, info, UNKNOWN), InState(conns, info, DEGRADED);
            Usable(conns, info) == if |h| >= MinConns(|conns|) then h
                                   else if |h| + |u| >= MinConns(|conns|) then h + u else h + u + d
  {
    hide InState;
    var h, u, d := InState(conns, info, HEALTHY), InState(conns, info, UNKNOWN), InState(conns, info, DEGRADED);
    assert [] + h == h;
    assert TiersFrom(conns, info, h + u + d, UNHEALTHY) == h + u + d;
    assert TiersFrom(conns, info, h + u, DEGRADED) == h + u + d;
    assert TiersFrom(conns, info, h, UNKNOWN) == if |h| + |u| >= MinConns(|conns|) then h + u else h + u + d;
  }

  // ---------------------------------------------------------------- steps

  /** `newPickerLocked`: a new picker only if the usable set changed, but always a publication. */
  ghost function Publish(b: Bal): Bal {
    var usable := ToSet(Usable(b.conns, b.info));
    if usable == {} then b.(published := ErrorPicker)
    else
      var p := if usable != b.latestUsable then Some(usable) else b.latestPicker;
      b.(latestUsable := usable, latestPicker := p,
         built := if usable != b.latestUsable then b.built + [usable] else b.built,
         published := if p.Some? then Picks(p.value, AnyWarm(Usable(b.conns, b.info), b.info)) else Nothing)
  }

  datatype Step =
    | UpdateHealth(c: Conn, state: State)
    | WarmedUp(c: Conn)
    | ResolveError                       // setErrorPicker, only called while no addresses are known
    | BeginUpdate(removing: seq<Conn>)   // updateConns is called
    | NewConn                            // the pool makes one more connection
    | SwapConns                          // the critical section of updateConns
    | RemoveConn                         // the pool is told to drop the next one

  predicate Enabled(b: Bal, step: Step) {
    match step
    case UpdateHealth(_, _) => true
    case WarmedUp(_) => true
    case ResolveError => b.phase.Between? && !b.resolved
    case BeginUpdate(removing) => b.phase.Between? && forall i :: 0 <= i < |removing| ==> removing[i] < b.made
    case NewConn => b.phase.Creating?
    case SwapConns => b.phase.Creating?
    case RemoveConn => b.phase.Removing? && b.phase.rest != []
  }

  /** What the critical section of `updateConns` does to `conns` and `connInfo`. */
  ghost function Swapped(b: Bal): Bal
    requires b.phase.Creating?
  {
    var gone := set c | c in b.phase.removing;
    var kept := Without(b.conns, gone);
    b.(conns := kept + b.phase.added,
       info := map c | c in b.info.Keys - (set d | d in b.conns && d in gone) + (set d | d in b.phase.added)
                 :: if c in b.phase.added then Info(UNKNOWN, false) else b.info[c],
       phase := if b.phase.removing == [] then Between else Removing(b.phase.added, b.phase.removing),
       tracked := if b.phase.removing == [] then b.tracked + ToSet(b.phase.added) else b.tracked)
  }

  ghost function Apply(b: Bal, step: Step): Bal
    requires Enabled(b, step)
  {
    match step
    case UpdateHealth(c, state) =>
      if c !in b.info || b.info[c].state == state then b
      else Publish(b.(info := b.info[c := Info(state, b.info[c].warm)]))
    case WarmedUp(c) =>
      if c !in b.info then b else Publish(b.(info := b.info[c := Info(b.info[c].state, true)]))
    case ResolveError => b.(published := ErrorPicker)
    case BeginUpdate(removing) => b.(phase := Creating([], removing), tracked := b.tracked - ToSet(removing), resolved := true)
    case NewConn => b.(active := b.active + {b.made}, made := b.made + 1, phase := Creating(b.phase.added + [b.made], b.phase.removing))
    case SwapConns => Publish(Swapped(b))
    case RemoveConn =>
      var c := b.phase.rest[0];
      b.(active := b.active - {c}, removed := b.removed + {c},
         phase := if |b.phase.rest| == 1 then Between else Removing(b.phase.added, b.phase.rest[1..]),
         tracked := if |b.phase.rest| == 1 then b.tracked + ToSet(b.phase.added) else b.tracked)
  }

  // ---------------------------------------------------------------- the invariant

  ghost predicate PhaseInv(b: Bal) {
    match b.phase
    case Between => true
    case Creating(added, removing) =>
      && NoDup(added) && ToSet(added) <= b.active && ToSet(added) !! ToSet(b.conns) + ToSet(removing) + b.removed
      && forall c :: c in removing ==> c < b.made
    case Removing(_, rest) => rest != [] && ToSet(rest) !! ToSet(b.conns) && forall c :: c in rest ==> c < b.made
  }

  /** No connection is leaked: the balancer, its pool and the connection manager agree, up to what the current update has still to do. */
  ghost predicate AgreeInv(b: Bal) {
    match b.phase
    case Between => b.active == ToSet(b.conns) && b.tracked == ToSet(b.conns)
    case Creating(added, removing) => b.active == ToSet(b.conns) + ToSet(added) && b.tracked == ToSet(b.conns) - ToSet(removing)
    case Removing(added, rest) => b.active - ToSet(rest) == ToSet(b.conns) && b.tracked + ToSet(added) == ToSet(b.conns)
  }

  ghost predicate Changing(built: seq<set<Conn>>) {
    forall i :: 0 <= i < |built| ==> built[i] != {} && (i > 0 ==> built[i] != built[i - 1])
  }

  /** The last picker made is the latest one, and each was made for another set of connections than the one before. */
  ghost predicate BuiltInv(b: Bal) {
    && b.latestPicker == (if b.latestUsable == {} then None else Some(b.latestUsable))
    && b.latestUsable == (if b.built == [] then {} else b.built[|b.built| - 1])
    && Changing(b.built)
  }

  ghost predicate PickerInv(b: Bal) {
    && BuiltInv(b)
    && (b.published.Picks? <==> Usable(b.conns, b.info) != [])
    && (b.published.Picks? ==>
          b.published == Picks(ToSet(Usable(b.conns, b.info)), AnyWarm(Usable(b.conns, b.info), b.info)) && b.published.conns == b.latestUsable)
    && (b.published.Nothing? || !b.resolved ==> b.conns == [])
    && (b.resolved || b.phase.Between?)
  }

  ghost predicate ConnsInv(b: Bal) {
    && NoDup(b.conns) && b.info.Keys == ToSet(b.conns)
    && ToSet(b.conns) <= b.active && b.removed !! ToSet(b.conns)
    && (forall c :: c in b.active || c in b.removed ==> c < b.made)
  }

  ghost predicate Inv(b: Bal) {
    ConnsInv(b) && PickerInv(b) && PhaseInv(b) && AgreeInv(b)
  }

  lemma PublishKeepsInv(b: Bal)
    requires ConnsInv(b) && PhaseInv(b) && AgreeInv(b) && BuiltInv(b) && b.resolved
    ensures Inv(Publish(b)) && !Publish(b).published.Nothing?
  {
    hide Usable, AnyWarm;
    var usable := Usable(b.conns, b.info);
    assert usable != [] ==> usable[0] in ToSet(usable);
    assert usable == [] ==> ToSet(usable) == {};
  }

  lemma SwapKeepsInv(b: Bal)
    requires Inv(b) && b.phase.Creating?
    ensures Inv(Publish(Swapped(b)))
  {
    SwapMembers(b);
    SwapInfo(b);
    hide Without, Publish, Usable, AnyWarm;
    var t := Swapped(b);
    assert t.active == b.active && t.removed == b.removed && t.made == b.made && BuiltInv(t);
    PublishKeepsInv(t);
  }

  /** The new list: the old one without the connections to remove, then the new connections. */
  lemma SwapMembers(b: Bal)
    requires ConnsInv(b) && PhaseInv(b) && b.phase.Creating?
    ensures NoDup(Swapped(b).conns)
    ensures ToSet(Swapped(b).conns) == ToSet(b.conns) - ToSet(b.phase.removing) + ToSet(b.phase.added)
  {
    var added, gone := b.phase.added, set c | c in b.phase.removing;
    var kept := Without(b.conns, gone);
    WithoutMembers(b.conns, gone);
    assert gone == ToSet(b.phase.removing);
    assert ToSet(kept + added) == ToSet(kept) + ToSet(added);
    NoDupConcat(kept, added);
  }

  lemma SwapInfo(b: Bal)
    requires ConnsInv(b) && b.phase.Creating?
    ensures Swapped(b).info.Keys == ToSet(b.conns) - ToSet(b.phase.removing) + ToSet(b.phase.added)
  {
    hide Without;
    assert forall c :: c in b.conns <==> c in ToSet(b.conns);
  }

  lemma NoDupConcat<T>(a: seq<T>, b: seq<T>)
    requires NoDup(a) && NoDup(b) && ToSet(a) !! ToSet(b)
    ensures NoDup(a + b)
  {
    forall i, j | 0 <= i < j < |a + b| ensures (a + b)[i] != (a + b)[j] {
      if i < |a| <= j {
        assert a[i] in ToSet(a) && b[j - |a|] in ToSet(b);
      }
    }
  }

  /** Every step, in any state the balancer can be in, keeps the invariant. */
  lemma StepKeepsInv(b: Bal, step: Step)
    requires Inv(b) && Enabled(b, step)
    ensures Inv(Apply(b, step))
  {
    match step
    case UpdateHealth(c, state) => InfoStepKeepsInv(b, step);
    case WarmedUp(c) => InfoStepKeepsInv(b, step);
    case ResolveError =>
      hide Usable, AnyWarm;
      NoneUsable(b.conns, b.info);
    case BeginUpdate(removing) => PhaseStepKeepsInv(b, step);
    case NewConn => PhaseStepKeepsInv(b, step);
    case SwapConns => SwapKeepsInv(b);
    case RemoveConn => PhaseStepKeepsInv(b, step);
  }

  lemma InfoStepKeepsInv(b: Bal, step: Step)
    requires Inv(b) && Enabled(b, step) && (step.UpdateHealth? || step.WarmedUp?)
    ensures Inv(Apply(b, step))
  {
    hide Publish, Usable, AnyWarm;
    if step.c in b.info {
      var i := b.info[step.c];
      PublishKeepsInv(b.(info := b.info[step.c := if step.UpdateHealth? then Info(step.state, i.warm) else Info(i.state, true)]));
    }
  }

  lemma PhaseStepKeepsInv(b: Bal, step: Step)
    requires Inv(b) && Enabled(b, step) && (step.BeginUpdate? || step.NewConn? || step.RemoveConn?)
    ensures Inv(Apply(b, step))
  {
    PhaseStepKeepsConns(b, step);
    hide PickerInv, ConnsInv, Publish, Usable, AnyWarm, Changing;
    PickerDependsOn(b, Apply(b, step));
  }

  lemma PhaseStepKeepsConns(b: Bal, step: Step)
    requires Inv(b) && Enabled(b, step) && (step.BeginUpdate? || step.NewConn? || step.RemoveConn?)
    ensures ConnsInv(Apply(b, step)) && PhaseInv(Apply(b, step)) && AgreeInv(Apply(b, step))
  {
    hide PickerInv, Publish, Usable, AnyWarm;
    match step
    case BeginUpdate(removing) =>
      assert ToSet<Conn>([]) == {};
    case NewConn =>
      assert ToSet(b.phase.added + [b.made]) == ToSet(b.phase.added) + {b.made};
      assert b.made !in b.active && (b.made in b.phase.added <==> b.made in ToSet(b.phase.added));
    case RemoveConn =>
      var rest := b.phase.rest;
      assert rest[0] in rest && forall c :: c in rest[1..] ==> c in rest;
      assert rest[0] in ToSet(rest) && ToSet(rest[1..]) <= ToSet(rest);
  }

  lemma NoneUsable(conns: seq<Conn>, info: map<Conn, Info>)
    requires conns == []
    ensures Usable(conns, info) == []
  {
    UsableCases(conns, info);
  }

  lemma PickerDependsOn(b: Bal, t: Bal)
    requires PickerInv(b) && t.conns == b.conns && t.info == b.info && t.published == b.published
    requires t.latestPicker == b.latestPicker && t.latestUsable == b.latestUsable && t.built == b.built && t.resolved
    ensures PickerInv(t)
  {
  }

  predicate Fresh(b: Bal) {
    b == Bal([], map[], {}, None, Nothing, {}, {}, 0, {}, Between, [], false)
  }

  ghost predicate Runs(b: Bal, steps: seq<Step>)
    decreases |steps|
  {
    steps != [] ==> Enabled(b, steps[0]) && Runs(Apply(b, steps[0]), steps[1..])
  }

  ghost function After(b: Bal, steps: seq<Step>): Bal
    requires Runs(b, steps)
    decreases |steps|
  {
    if steps == [] then b else After(Apply(b, steps[0]), steps[1..])
  }

  lemma {:induction false} RunKeepsInv(b: Bal, steps: seq<Step>)
    requires Inv(b) && Runs(b, steps)
    ensures Inv(After(b, steps))
    decreases |steps|
  {
    hide Inv, Apply, Enabled;
    if steps != [] {
      StepKeepsInv(b, steps[0]);
      RunKeepsInv(Apply(b, steps[0]), steps[1..]);
    }
  }

  /**
   After any interleaving: `connInfo` describes exactly the balancer's connections, which are all in
   the pool, and between updates are exactly those of the pool and of the connection manager; and a
   published picker holds exactly the connections that are usable now, none that was ever passed
   to `RemoveConn`, and is the last picker made.
   */
  lemma PublishedPickerIsCurrent(b: Bal, steps: seq<Step>)
    requires Fresh(b) && Runs(b, steps)
    ensures var t := After(b, steps);
            && t.info.Keys == ToSet(t.conns) && ToSet(t.conns) <= t.active && t.removed !! ToSet(t.conns)
            && (t.phase.Between? ==> t.active == ToSet(t.conns) && t.tracked == ToSet(t.conns))
            && (t.published.Picks? ==>
                  && t.published.conns == ToSet(Usable(t.conns, t.info)) && t.published.conns <= ToSet(t.conns)
                  && t.published.conns !! t.removed && t.built != [] && t.published.conns == t.built[|t.built| - 1]
                  && (t.published.warm <==> exists c :: c in t.published.conns && t.info[c].warm && t.info[c].state == HEALTHY))
  {
    FreshInv(b);
    RunKeepsInv(b, steps);
    var t := After(b, steps);
    hide After, Runs;
    UsableAreConns(t.conns, t.info);
    hide Usable;
    if t.published.Picks? {
      assert Usable(t.conns, t.info)[0] in t.published.conns;
    }
  }

  lemma UsableIff(conns: seq<Conn>, info: map<Conn, Info>)
    ensures Usable(conns, info) != [] <==> exists c :: c in conns && c in info && info[c].state < UNHEALTHY
  {
    InStateMembers(conns, info, HEALTHY);
    InStateMembers(conns, info, UNKNOWN);
    InStateMembers(conns, info, DEGRADED);
    UsableCases(conns, info);
    hide Usable, InState;
    var all := InState(conns, info, HEALTHY) + InState(conns, info, UNKNOWN) + InState(conns, info, DEGRADED);
    if Usable(conns, info) != [] {
      var c := Usable(conns, info)[0];
      assert c in all && c in conns && info[c].state < UNHEALTHY;
    }
    if c :| c in conns && c in info && info[c].state < UNHEALTHY {
      assert info[c].state == HEALTHY || info[c].state == UNKNOWN || info[c].state == DEGRADED;
      assert c in all;
    }
  }

  /** The steps that publish whatever the state: the end of an update, and a resolver's error. */
  ghost predicate PublishesFirst(steps: seq<Step>) {
    exists i :: 0 <= i < |steps| && (steps[i].SwapConns? || steps[i].ResolveError?)
  }

  /**
   What is published in every reachable state: nothing until the first update or resolver error is through,
   and from then on a picker exactly while some connection is in a state better than unhealthy, and otherwise an
   error picker. A picker is made exactly when the usable connections are others than those of the last picker.
   */
  lemma PicksIffSomeUsable(b: Bal, steps: seq<Step>)
    requires Fresh(b) && Runs(b, steps)
    ensures var t := After(b, steps);
            && (t.published.Nothing? <==> !PublishesFirst(steps))
            && (t.published.Picks? <==> exists c :: c in t.conns && c in t.info && t.info[c].state < UNHEALTHY)
            && forall i :: 0 <= i < |t.built| ==> t.built[i] != {} && (i > 0 ==> t.built[i] != t.built[i - 1])
  {
    FreshInv(b);
    RunKeepsInv(b, steps);
    FirstPublication(b, steps);
    var t := After(b, steps);
    UsableIff(t.conns, t.info);
    hide After, Runs, Usable;
  }

  lemma {:induction false} FirstPublication(b: Bal, steps: seq<Step>)
    requires Inv(b) && Runs(b, steps)
    ensures After(b, steps).published.Nothing? <==> b.published.Nothing? && !PublishesFirst(steps)
    decreases |steps|
  {
    if steps != [] {
      StepKeepsInv(b, steps[0]);
      StepPublishes(b, steps[0]);
      FirstOfRest(steps);
      hide Inv, Apply, Enabled, PublishesFirst;
      FirstPublication(Apply(b, steps[0]), steps[1..]);
    }
  }

  lemma FirstOfRest(steps: seq<Step>)
    requires steps != []
    ensures PublishesFirst(steps) <==> steps[0].SwapConns? || steps[0].ResolveError? || PublishesFirst(steps[1..])
  {
    var rest := steps[1..];
    if i :| 0 <= i < |steps| && (steps[i].SwapConns? || steps[i].ResolveError?) {
      assert i == 0 || steps[i] == rest[i - 1];
    }
    if i :| 0 <= i < |rest| && (rest[i].SwapConns? || rest[i].ResolveError?) {
      assert steps[i + 1] == rest[i];
    }
  }

  lemma PublishesAtAll(b: Bal)
    requires BuiltInv(b)
    ensures !Publish(b).published.Nothing?
  {
    hide Usable, AnyWarm;
    var usable := Usable(b.conns, b.info);
    assert usable != [] ==> usable[0] in ToSet(usable);
  }

  lemma StepPublishes(b: Bal, step: Step)
    requires Inv(b) && Enabled(b, step)
    ensures Apply(b, step).published.Nothing? <==> b.published.Nothing? && !step.SwapConns? && !step.ResolveError?
  {
    hide Usable, AnyWarm;
    if step.SwapConns? {
      assert Swapped(b).resolved;
      SwapKeepsInv(b);
      hide Swapped, Inv;
      PublishesAtAll(Swapped(b));
    }
  }

  /** So every end of an update, warm-up or change of state of a known connection leaves one of the two published. */
  lemma EachChangePublishes(b: Bal, step: Step)
    requires Inv(b) && Enabled(b, step)
    requires step.SwapConns? || (step.WarmedUp? && step.c in b.info) || (step.UpdateHealth? && step.c in b.info && b.info[step.c].state != step.state)
    ensures var t := Apply(b, step);
            if exists c :: c in t.conns && c in t.info && t.info[c].state < UNHEALTHY then t.published.Picks? else t.published == ErrorPicker
  {
    StepKeepsInv(b, step);
    StepPublishes(b, step);
    var t := Apply(b, step);
    UsableIff(t.conns, t.info);
    assert step.SwapConns? || b.conns != [] by {
      if !step.SwapConns? { assert step.c in ToSet(b.conns); }
    }
    hide Apply, Usable;
  }

  // ---------------------------------------------------------------- what is known of a connection

  /** `steps[i]` reports a state of connection `c`. */
  predicate Reports(steps: seq<Step>, i: nat, c: Conn) {
    i < |steps| && steps[i].UpdateHealth? && steps[i].c == c
  }

  /** A connection joins when an update ends, and is unknown and cold then. */
  lemma NewConnIsUnknown(b: Bal, step: Step, c: Conn)
    requires Inv(b) && Enabled(b, step) && c !in b.info
    ensures c in Apply(b, step).info <==> step.SwapConns? && c in b.phase.added
    ensures c in Apply(b, step).info ==> Apply(b, step).info[c] == Info(UNKNOWN, false)
  {
    hide Usable, AnyWarm;
  }

  /** From then on its state is the last one reported, and it is warm once a warm-up of it was reported. */
  lemma {:induction false} InfoIsLastReported(b: Bal, steps: seq<Step>, c: Conn)
    requires Inv(b) && Runs(b, steps) && c in b.info && c in After(b, steps).info
    ensures var i := After(b, steps).info[c];
            && ((forall j :: 0 <= j < |steps| ==> !Reports(steps, j, c)) ==> i.state == b.info[c].state)
            && (forall j :: 0 <= j < |steps| && Reports(steps, j, c) && (forall k :: j < k < |steps| ==> !Reports(steps, k, c)) ==>
                  i.state == steps[j].state)
            && (i.warm <==> b.info[c].warm || Step.WarmedUp(c) in steps)
    decreases |steps|
  {
    if steps != [] {
      var t, rest := Apply(b, steps[0]), steps[1..];
      StepKeepsInv(b, steps[0]);
      if c !in t.info { LeavingIsLeft(b, steps[0], c); }
      hide Inv, Apply, Enabled, Left;
      if c !in t.info {
        GoneForGood(t, rest, c);
        assert false;
      }
      InfoStep(b, steps[0], c);
      InfoIsLastReported(t, rest, c);
      hide After, Runs;
      forall j: nat ensures Reports(rest, j, c) <==> Reports(steps, j + 1, c) { }
      assert Reports(steps, 0, c) <==> steps[0].UpdateHealth? && steps[0].c == c;
      assert steps == [steps[0]] + rest;
      if forall j :: 0 <= j < |steps| ==> !Reports(steps, j, c) {
        forall j | 0 <= j < |rest| ensures !Reports(rest, j, c) {
          assert !Reports(steps, j + 1, c);
        }
      }
      assert Step.WarmedUp(c) in steps <==> steps[0] == Step.WarmedUp(c) || Step.WarmedUp(c) in rest;
    }
  }

  lemma LeavingIsLeft(b: Bal, step: Step, c: Conn)
    requires Inv(b) && Enabled(b, step) && c in b.info && c !in Apply(b, step).info
    ensures Left(Apply(b, step), c)
  {
    hide Usable, AnyWarm;
    assert c in ToSet(b.conns);
  }

  lemma InfoStep(b: Bal, step: Step, c: Conn)
    requires Inv(b) && Enabled(b, step) && c in b.info && c in Apply(b, step).info
    ensures Apply(b, step).info[c] ==
            Info(if step.UpdateHealth? && step.c == c then step.state else b.info[c].state, b.info[c].warm || step == Step.WarmedUp(c))
  {
    hide Usable, AnyWarm;
    if step.SwapConns? {
      assert c in ToSet(b.conns);
      assert c !in ToSet(b.phase.added);
    }
  }

  ghost predicate Left(b: Bal, c: Conn) {
    c < b.made && c !in b.info && (b.phase.Creating? ==> c !in b.phase.added)
  }

  /** A connection that has left never comes back. */
  lemma {:induction false} GoneForGood(b: Bal, steps: seq<Step>, c: Conn)
    requires Inv(b) && Runs(b, steps) && Left(b, c)
    ensures c !in After(b, steps).info
    decreases |steps|
  {
    if steps != [] {
      StepKeepsInv(b, steps[0]);
      LeftStays(b, steps[0], c);
      GoneForGood(Apply(b, steps[0]), steps[1..], c);
    }
  }

  lemma LeftStays(b: Bal, step: Step, c: Conn)
    requires Inv(b) && Enabled(b, step) && Left(b, c)
    ensures Left(Apply(b, step), c)
  {
    hide Usable, AnyWarm;
  }

  lemma FreshInv(b: Bal)
    requires Fresh(b)
    ensures Inv(b)
  {
  }

  // ---------------------------------------------------------------- the balancer object

  /** The fields of `balancer` guarded by its mutex, and what it has told its pool. */
  class BalancerObject {
    var conns: seq<Conn>
    var connInfo: map<Conn, Info>
    var latestUsableConns: set<Conn>
    var latestPicker: Option<set<Conn>>
    var published: Published
    ghost var active: set<Conn>
    ghost var removed: set<Conn>
    ghost var made: nat
    ghost var tracked: set<Conn>
    ghost var phase: Phase
    ghost var built: seq<set<Conn>>
    ghost var resolved: bool

    ghost function View(): Bal
      reads this
    {
      Bal(conns, connInfo, latestUsableConns, latestPicker, published, active, removed, made, tracked, phase, built, resolved)
    }

    /** `computeUsableConnsLocked` */
    method ComputeUsable() returns (results: seq<Conn>)
      requires forall i :: 0 <= i < |conns| ==> conns[i] in connInfo
      ensures results == Usable(conns, connInfo)
    {
      hide TiersFrom, InState;
      var byState: map<State, seq<Conn>> := map[];
      GroupStarts(conns[..0], connInfo);
      for i := 0 to |conns|
        invariant forall s: State :: (if s in byState then byState[s] else []) == InState(conns[..i], connInfo, s)
      {
        var s := connInfo[conns[i]].state;
        GroupStep(conns, connInfo, i);
        byState := byState[s := (if s in byState then byState[s] else []) + [conns[i]]];
      }
      assert conns[..|conns|] == conns;
      var minConns := 3;
      if (|conns| + 2) / 4 > minConns { minConns := (|conns| + 2) / 4; }
      results := [];
      var candidate: State := HEALTHY;
      while candidate != UNHEALTHY
        invariant TiersFrom(conns, connInfo, results, candidate) == Usable(conns, connInfo)
        decreases UNHEALTHY - candidate
      {
        TiersUnfold(conns, connInfo, results, candidate);
        results := results + (if candidate in byState then byState[candidate] else []);
        if |results| >= minConns { return; }
        candidate := candidate + 1;
      }
      TiersUnfold(conns, connInfo, results, candidate);
    }

    /** `isWarmLocked` */
    method IsWarm(usable: seq<Conn>) returns (warm: bool)
      requires forall i :: 0 <= i < |usable| ==> usable[i] in connInfo
      ensures warm <==> AnyWarm(usable, connInfo)
    {
      for i := 0 to |usable|
        invariant forall j :: 0 <= j < i ==> !(connInfo[usable[j]].warm && connInfo[usable[j]].state == HEALTHY)
      {
        if connInfo[usable[i]].warm && connInfo[usable[i]].state == HEALTHY {
          assert usable[i] in usable;
          return true;
        }
      }
      return false;
    }

    /** `newPickerLocked` */
    method NewPicker()
      requires ConnsInv(View()) && BuiltInv(View())
      modifies `latestUsableConns, `latestPicker, `published, `built
      ensures View() == Publish(old(View()))
    {
      hide Usable, AnyWarm;
      assert forall i :: 0 <= i < |conns| ==> conns[i] in ToSet(conns);
      var usable := ComputeUsable();
      UsableAreConns(conns, connInfo);
      if |usable| == 0 {
        assert ToSet(usable) == {};
        published := ErrorPicker;
        return;
      }
      assert usable[0] in ToSet(usable);
      var usableSet := set c | c in usable;
      if usableSet != latestUsableConns {
        latestPicker := Some(usableSet);
        latestUsableConns := usableSet;
        built := built + [usableSet];
      }
      var warm := IsWarm(usable);
      published := Picks(latestPicker.value, warm);
    }

    method UpdateHealthState(c: Conn, state: State)
      requires Inv(View())
      modifies this
      ensures Inv(View()) && View() == Apply(old(View()), Step.UpdateHealth(c, state))
    {
      StepKeepsInv(View(), Step.UpdateHealth(c, state));
      if c !in connInfo { return; }
      var info := connInfo[c];
      if info.state == state { return; }
      connInfo := connInfo[c := info.(state := state)];
      NewPicker();
    }

    method WarmedUp(c: Conn)
      requires Inv(View())
      modifies this
      ensures Inv(View()) && View() == Apply(old(View()), Step.WarmedUp(c))
    {
      StepKeepsInv(View(), Step.WarmedUp(c));
      if c !in connInfo { return; }
      connInfo := connInfo[c := connInfo[c].(warm := true)];
      NewPicker();
    }

    /** `setErrorPicker`, when the resolver fails before it has found any address. */
    method SetErrorPicker()
      requires Inv(View()) && phase.Between? && !resolved
      modifies `published
      ensures Inv(View()) && View() == Apply(old(View()), Step.ResolveError)
    {
      published := ErrorPicker;
    }

    /** The loop that leaves out the connections to remove and forgets their info. */
    method DropConns(setToRemove: set<Conn>) returns (newConns: seq<Conn>)
      modifies `connInfo
      ensures newConns == Without(conns, setToRemove)
      ensures connInfo == old(connInfo) - (ToSet(conns) * setToRemove)
    {
      hide Without;
      newConns := [];
      NothingKept(conns[..0], setToRemove);
      for i := 0 to |conns|
        invariant newConns == Without(conns[..i], setToRemove)
        invariant connInfo == old(connInfo) - (ToSet(conns[..i]) * setToRemove)
      {
        KeptStep(conns, setToRemove, i);
        assert ToSet(conns[..i + 1]) == ToSet(conns[..i]) + {conns[i]};
        if conns[i] in setToRemove {
          connInfo := connInfo - {conns[i]};
        } else {
          newConns := newConns + [conns[i]];
        }
      }
      assert conns[..|conns|] == conns;
    }

    /** `initConnInfoLocked` */
    method InitConnInfo(addConns: seq<Conn>)
      modifies `connInfo
      ensures connInfo.Keys == old(connInfo).Keys + ToSet(addConns)
      ensures forall c :: c in connInfo ==> connInfo[c] == if c in addConns then Info(UNKNOWN, false) else old(connInfo)[c]
    {
      for i := 0 to |addConns|
        invariant connInfo.Keys == old(connInfo).Keys + ToSet(addConns[..i])
        invariant forall c :: c in connInfo ==> connInfo[c] == if c in addConns[..i] then Info(UNKNOWN, false) else old(connInfo)[c]
      {
        connInfo := connInfo[addConns[i] := Info(UNKNOWN, false)];
      }
      assert addConns[..|addConns|] == addConns;
    }

    /** The critical section of `updateConns`. */
    method SwapConns(addConns: seq<Conn>, removeConns: seq<Conn>)
      requires Inv(View()) && phase == Creating(addConns, removeConns)
      modifies this
      ensures Inv(View()) && View() == Apply(old(View()), Step.SwapConns)
    {
      hide Usable, AnyWarm, Without, Publish, Swapped, PickerInv, PhaseInv, AgreeInv, Changing, NoDup;
      StepKeepsInv(View(), Step.SwapConns);
      ghost var b := View();
      var setToRemove := set c | c in removeConns;
      var newConns := DropConns(setToRemove);
      InitConnInfo(addConns);
      conns := newConns + addConns;
      tracked := if removeConns == [] then tracked + ToSet(addConns) else tracked;
      phase := if removeConns == [] then Between else Removing(addConns, removeConns);
      SwappedFields(b, newConns, connInfo);
      SwapParts(b);
      NewPicker();
    }
  }

  lemma SwappedFields(b: Bal, kept: seq<Conn>, info: map<Conn, Info>)
    requires b.phase.Creating? && kept == Without(b.conns, set c | c in b.phase.removing)
    requires info.Keys == b.info.Keys - (ToSet(b.conns) * (set c | c in b.phase.removing)) + ToSet(b.phase.added)
    requires forall c :: c in info ==> info[c] == if c in b.phase.added then Info(UNKNOWN, false) else b.info[c]
    ensures Swapped(b) == b.(conns := kept + b.phase.added, info := info,
                             phase := if b.phase.removing == [] then Between else Removing(b.phase.added, b.phase.removing),
                             tracked := if b.phase.removing == [] then b.tracked + ToSet(b.phase.added) else b.tracked)
  {
    assert info.Keys == Swapped(b).info.Keys;
  }

  lemma SwapParts(b: Bal)
    requires Inv(b) && b.phase.Creating?
    ensures ConnsInv(Swapped(b)) && BuiltInv(Swapped(b))
  {
    SwapKeepsInv(b);
  }

  lemma GroupStarts(conns: seq<Conn>, info: map<Conn, Info>)
    requires conns == []
    ensures forall s: State :: InState(conns, info, s) == []
  {
  }

  lemma GroupStep(conns: seq<Conn>, info: map<Conn, Info>, i: nat)
    requires i < |conns| && conns[i] in info
    ensures forall s: State :: InState(conns[..i + 1], info, s) ==
                               InState(conns[..i], info, s) + (if info[conns[i]].state == s then [conns[i]] else [])
  {
    assert conns[..i + 1][..i] == conns[..i];
  }

  lemma TiersUnfold(conns: seq<Conn>, info: map<Conn, Info>, results: seq<Conn>, s: State)
    ensures TiersFrom(conns, info, results, s) ==
            if s == UNHEALTHY then results
            else if |results + InState(conns, info, s)| >= MinConns(|conns|) then results + InState(conns, info, s)
            else TiersFrom(conns, info, results + InState(conns, info, s), s + 1)
  {
  }

  lemma UsableAreConns(conns: seq<Conn>, info: map<Conn, Info>)
    ensures forall i :: 0 <= i < |Usable(conns, info)| ==> Usable(conns, info)[i] in conns && Usable(conns, info)[i] in info
  {
    InStateMembers(conns, info, HEALTHY);
    InStateMembers(conns, info, UNKNOWN);
    InStateMembers(conns, info, DEGRADED);
    UsableCases(conns, info);
    hide Usable, InState;
    forall i | 0 <= i < |Usable(conns, info)| ensures Usable(conns, info)[i] in conns && Usable(conns, info)[i] in info {
      assert Usable(conns, info)[i] in Usable(conns, info);
    }
  }

  lemma NothingKept(conns: seq<Conn>, gone: set<Conn>)
    requires conns == []
    ensures Without(conns, gone) == []
  {
  }

  lemma KeptStep(conns: seq<Conn>, gone: set<Conn>, i: nat)
    requires i < |conns|
    ensures Without(conns[..i + 1], gone) == Without(conns[..i], gone) + (if conns[i] in gone then [] else [conns[i]])
  {
    assert conns[..i + 1][..i] == conns[..i];
  }
}

/**
 When a marked connection can still finish closing: exactly while its signal is not lost. From every
 other state some way of ending its requests and scheduling its closers lets `connection.close` return.
 */
module DrainProgress {
  import opened Collections
  import opened RequestLifecycle

  /** Nobody is left to close `closed`: the connection is marked, has no active request, and no signal is due. */
  ghost predicate Lost(s: Conn) {
    Marked(s) && ActiveCount(s) == 0 && s.closes + SignallingCount(s) == 0
  }

  predicate PastMark(c: Closer) {
    c.MustSignal? || c.Waiting? || c.Finished?
  }

  ghost predicate ClosersInv(s: Conn) {
    && (forall k :: k in s.closers && PastMark(s.closers[k]) ==> Marked(s))
    && (forall k :: k in s.closers && s.closers[k].Finished? ==> s.closes > 0)
    && (Marked(s) ==> s.closers != map[])
  }

  ghost predicate Sound(s: Conn) {
    Inv(s, Lost(s)) && ClosersInv(s)
  }

  lemma LostFollows(s: Conn, lost: bool)
    requires Inv(s, lost)
    ensures Lost(s) == lost
  {
    hide ActiveCount, AbortingCount, SignallingCount;
  }

  lemma StepKeepsSound(s: Conn, step: Step)
    requires Sound(s) && Bounded(s) && Enabled(s, step)
    ensures Sound(Apply(s, step)) && Lost(Apply(s, step)) == (Lost(s) || LosesSignal(s, step))
  {
    StepKeepsInv(s, Lost(s), step);
    LostFollows(Apply(s, step), Lost(s) || LosesSignal(s, step));
    StepKeepsClosersInv(s, step);
  }

  lemma StepKeepsClosersInv(s: Conn, step: Step)
    requires Sound(s) && Bounded(s) && Enabled(s, step)
    ensures ClosersInv(Apply(s, step))
  {
    hide ActiveCount, AbortingCount, SignallingCount, Lost, Where;
    if Marked(s) { MarkedStep(s, Lost(s), step); } else { MarkAppears(s, step); }
    hide Wrap, Inv, Bounded;
    if step.Load? || step.Cas? { CloserMarks(s, step); }
  }

  /** Only the compare-and-swap of a closer marks a connection. */
  lemma MarkAppears(s: Conn, step: Step)
    requires Sound(s) && Bounded(s) && Enabled(s, step) && !Marked(s)
    ensures Marked(Apply(s, step)) ==> step.Cas?
  {
    hide ActiveCount, AbortingCount, SignallingCount, Lost;
    CountsBound(s);
  }

  /** A closer that moves past the mark finds or leaves the connection marked. */
  lemma CloserMarks(s: Conn, step: Step)
    requires Sound(s) && Enabled(s, step) && (step.Load? || step.Cas?)
    ensures PastMark(Apply(s, step).closers[step.id]) ==> Marked(Apply(s, step))
  {
    hide ActiveCount, AbortingCount, SignallingCount, Lost;
  }

  lemma FreshSound(s: Conn, lost: bool)
    requires Fresh(s) && !lost
    ensures Sound(s) && !Lost(s) && Bounded(s)
  {
    FreshInv(s, lost);
    LostFollows(s, lost);
    CountsBound(s);
  }

  /** A connection is lost exactly when a step of its run lost the signal. */
  lemma LostIff(s0: Conn, steps: seq<Step>)
    requires Fresh(s0) && Runs(s0, steps)
    ensures Lost(After(s0, steps)) <==> Loses(s0, steps)
  {
    var lost := false;
    FreshInv(s0, lost);
    RunKeepsInv(s0, lost, steps);
    hide Runs, After, Loses, Apply, Enabled, Inv, Lost;
    LostFollows(After(s0, steps), lost || Loses(s0, steps));
  }

  // ---------------------------------------------------------------- runs that finish

  lemma {:induction false} RunsConcat(s: Conn, a: seq<Step>, b: seq<Step>)
    requires Runs(s, a) && Runs(After(s, a), b)
    ensures Runs(s, a + b) && After(s, a + b) == After(After(s, a), b)
    decreases |a|
  {
    hide Apply, Enabled, Bounded;
    if a == [] {
      assert a + b == b;
    } else {
      assert (a + b)[0] == a[0] && (a + b)[1..] == a[1..] + b;
      RunsConcat(Apply(s, a[0]), a[1..], b);
    }
  }

  /** `t` can be reached quietly, with no signal lost and the same calls of `close`. */
  ghost predicate Progress(s: Conn, t: Conn) {
    && (exists steps :: Quiet(steps) && Runs(s, steps) && After(s, steps) == t)
    && Sound(t) && !Lost(t) && Bounded(t) && t.closers.Keys == s.closers.Keys
    && (forall k :: k in s.closers ==> (t.closers[k].Finished? <==> s.closers[k].Finished?))
  }

  ghost predicate Ready(s: Conn) {
    Sound(s) && !Lost(s) && Bounded(s)
  }

  lemma NoProgress(s: Conn)
    requires Ready(s)
    ensures Progress(s, s)
  {
    assert Quiet([]) && Runs(s, []) && After(s, []) == s;
  }

  lemma ProgressConcat(s: Conn, t: Conn, u: Conn)
    requires Progress(s, t) && Progress(t, u)
    ensures Progress(s, u)
  {
    hide Runs, After, Sound, Lost, Bounded;
    var a :| Quiet(a) && Runs(s, a) && After(s, a) == t;
    var b :| Quiet(b) && Runs(t, b) && After(t, b) == u;
    RunsConcat(s, a, b);
    assert Quiet(a + b);
  }

  lemma ProgressStep(s: Conn, step: Step)
    requires Ready(s) && Enabled(s, step) && Quiet([step]) && !step.Start? && !LosesSignal(s, step)
    ensures Progress(s, Apply(s, step))
  {
    var t := Apply(s, step);
    assert [step][0] == step;
    StepKeepsSound(s, step);
    StillBounded(s, step);
    assert [step][1..] == [];
    assert Runs(t, []) && After(t, []) == t;
    assert Runs(s, [step]) && After(s, [step]) == t;
    hide Runs, After, Sound, Lost, Bounded;
  }

  lemma StillBounded(s: Conn, step: Step)
    requires Bounded(s) && Enabled(s, step) && !step.Start?
    ensures Bounded(Apply(s, step))
  {
    hide ActiveCount, AbortingCount, SignallingCount;
    var t := Apply(s, step);
    if IsCloserStep(step) {
      CountsDependOn(s.(closers := t.closers), t);
      CloserMoves(s, step.id, t.closers[step.id]);
      CountsDependOn(MoveCloser(s, step.id, t.closers[step.id]), t);
    } else {
      CountsMove(s, step.id, t.requests[step.id]);
      CountsDependOn(Move(s, step.id, t.requests[step.id]), t);
    }
  }

  /** First every aborted start makes its second `Add`. */
  lemma {:induction false} AbortAll(s: Conn) returns (t: Conn)
    requires Ready(s)
    ensures Progress(s, t) && AbortingCount(t) == 0
    decreases AbortingCount(s)
  {
    if AbortingCount(s) == 0 {
      t := s;
      NoProgress(s);
    } else {
      var id :| id in Where(s.requests, Aborted);
      var next := Apply(s, Abort(id));
      CountsMove(s, id, Rejected);
      CountsDependOn(Move(s, id, Rejected), next);
      ProgressStep(s, Abort(id));
      hide Sound, Lost, Bounded, Apply, Inv;
      t := AbortAll(next);
      ProgressConcat(s, next, t);
    }
  }

  function Stage(r: Request): nat {
    match r
    case Active => 4
    case BodyOpen => 4
    case Finishing => 3
    case Ending => 2
    case Signalling => 1
    case _ => 0
  }

  function NextStep(s: Conn, id: nat): Step
    requires id in s.requests
  {
    match s.requests[id]
    case Active => Fail(id)
    case BodyOpen => Hook(id)
    case Finishing => Release(id)
    case Ending => End(id)
    case _ => Signal(id)
  }

  /** Then one request is brought to its end. */
  lemma {:induction false} FinishRequest(s: Conn, id: nat) returns (t: Conn)
    requires Ready(s) && AbortingCount(s) == 0 && id in s.requests && Stage(s.requests[id]) > 0
    ensures Progress(s, t) && AbortingCount(t) == 0 && t.requests == s.requests[id := Over]
    decreases Stage(s.requests[id])
  {
    var step := NextStep(s, id);
    var next := Apply(s, step);
    hide ActiveCount, AbortingCount, SignallingCount;
    CountsMove(s, id, next.requests[id]);
    CountsDependOn(Move(s, id, next.requests[id]), next);
    ProgressStep(s, step);
    hide Sound, Lost, Bounded, Apply, Inv;
    if Stage(next.requests[id]) > 0 {
      t := FinishRequest(next, id);
      ProgressConcat(s, next, t);
    } else {
      t := next;
    }
  }

  ghost function Busy(s: Conn): set<nat> {
    set id | id in s.requests && Stage(s.requests[id]) > 0
  }

  lemma {:induction false} FinishAll(s: Conn) returns (t: Conn)
    requires Ready(s) && AbortingCount(s) == 0
    ensures Progress(s, t) && AbortingCount(t) == 0 && Busy(t) == {}
    decreases |Busy(s)|
  {
    hide Sound, Lost, Bounded, AbortingCount;
    if Busy(s) == {} {
      t := s;
      NoProgress(s);
    } else {
      var id :| id in Busy(s);
      var next := FinishRequest(s, id);
      assert Busy(next) == Busy(s) - {id};
      t := FinishAll(next);
      ProgressConcat(s, next, t);
    }
  }

  function CloserStage(s: Conn, c: Closer): nat {
    match c
    case Entered => 3
    case Loaded(reqs) => if reqs == s.counter then 2 else 4
    case MustSignal => 1
    case _ => 0
  }

  function NextCloserStep(c: Closer, k: nat): Step {
    match c
    case Entered => Load(k)
    case Loaded(_) => Cas(k)
    case _ => CloseSignal(k)
  }

  /** With no request left in the way, a closer reaches its wait. */
  lemma {:induction false} ToWaiting(s: Conn, k: nat) returns (t: Conn)
    requires Ready(s) && k in s.closers && !s.closers[k].Finished?
    ensures Progress(s, t) && t.requests == s.requests && t.closers[k].Waiting?
    decreases CloserStage(s, s.closers[k])
  {
    if s.closers[k].Waiting? {
      t := s;
      NoProgress(s);
    } else {
      var step := NextCloserStep(s.closers[k], k);
      var next := Apply(s, step);
      ProgressStep(s, step);
      hide Sound, Lost, Bounded, Inv;
      t := ToWaiting(next, k);
      ProgressConcat(s, next, t);
    }
  }

  /** Then whoever owes the signal sends it. */
  lemma SendSignal(s: Conn, k: nat) returns (t: Conn)
    requires Ready(s) && Busy(s) == {} && k in s.closers && s.closers[k].Waiting?
    ensures Progress(s, t) && t.closers[k].Waiting? && t.closes > 0
  {
    if s.closes > 0 {
      t := s;
      NoProgress(s);
    } else {
      assert Where(s.requests, Running) == {} && Where(s.requests, Pending) == {};
      assert Marked(s);
      assert |SignallingClosers(s)| == 1;
      var j :| j in SignallingClosers(s);
      t := Apply(s, CloseSignal(j));
      ProgressStep(s, CloseSignal(j));
    }
  }

  /** Unless the signal is lost, a call of `close` can get to its `doClose`. */
  lemma CanDrain(s: Conn, k: nat) returns (t: Conn)
    requires Ready(s) && k in s.closers && !s.closers[k].Finished?
    ensures Progress(s, t) && t.closers[k].Waiting? && t.closes > 0
  {
    hide Sound, Lost, Bounded, Progress;
    var a := AbortAll(s);
    ProgressMeans(s, a);
    var b := FinishAll(a);
    ProgressMeans(a, b);
    ProgressConcat(s, a, b);
    var c := ToWaiting(b, k);
    ProgressMeans(b, c);
    ProgressConcat(s, b, c);
    t := SendSignal(c, k);
    ProgressConcat(s, c, t);
  }

  lemma ProgressMeans(s: Conn, t: Conn)
    requires Progress(s, t)
    ensures Ready(t) && t.closers.Keys == s.closers.Keys
    ensures forall k :: k in s.closers ==> (t.closers[k].Finished? <==> s.closers[k].Finished?)
  {
  }
}

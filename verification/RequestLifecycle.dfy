/**
 One leaf connection of transport.go under every interleaving of its requests and closers: the
 `outstandingRequests` counter with its closing mark, the `closed` channel, the completion hook
 on response bodies, and the calls of the picker's `whenDone` (what those do to the picker's items is
 in RequestAccounting). Each atomic operation is one step.
 */
module RequestLifecycle {
  import opened Collections
  import opened LeastLoadedSpec

  const TWO_63: int := 0x8000_0000_0000_0000
  const MIN_INT64: int := -TWO_63

  /** Two's-complement wrap-around of an int64 result. */
  function Wrap(x: int): (r: int)
    ensures MIN_INT64 <= r < TWO_63
    ensures MIN_INT64 <= x < TWO_63 ==> r == x
  {
    (x + TWO_63) % TWO_64 - TWO_63
  }

  /** Where one request is between `Pick` and its end. */
  datatype Request =
    | Picked      // the picker counted it; RoundTrip not entered
    | Aborting    // startRequest's Add(1) came out negative; its Add(-1) is still to come
    | Rejected    // startRequest returned false; whenDone is still to be called
    | Active      // counted in; the round trip is under way
    | BodyOpen    // the response was returned; its hook has not fired
    | Finishing   // onFinish entered; whenDone is still to be called
    | Ending      // whenDone called; endRequest's Add(-1) is still to come
    | Signalling  // endRequest saw MinInt64; close(c.closed) is still to come
    | Over

  /** Where one call of `connection.close` is. */
  datatype Closer = Entered | Loaded(reqs: int) | MustSignal | Waiting | Finished

  datatype Conn = Conn(
    counter: int,               // outstandingRequests
    closes: nat,                // how often close(c.closed) has run; a second run panics
    doCloses: nat,              // how often doClose has been entered
    released: seq<nat>,         // the requests whose whenDone has been called, in order
    requests: map<nat, Request>,
    closers: map<nat, Closer>)

  /** A connection as `NewConn` makes it. */
  predicate Fresh(s: Conn) {
    && s.counter == 0 && s.closes == 0 && s.doCloses == 0 && s.released == []
    && s.requests == map[] && s.closers == map[]
  }

  datatype Step =
    | Pick(id: nat)
    | Start(id: nat)      // Add(1) in startRequest
    | Abort(id: nat)      // Add(-1) in startRequest
    | Reject(id: nat)     // whenDone of a rejected request
    | Fail(id: nat)       // the round trip returned an error
    | Respond(id: nat)    // the round trip returned a response
    | Hook(id: nat)       // Read failed or Close was called: the CAS on hookReadCloser.closed
    | Release(id: nat)    // whenDone in onFinish
    | End(id: nat)        // Add(-1) in endRequest
    | Signal(id: nat)     // close(c.closed) in endRequest
    | Enter(id: nat)      // a call of connection.close
    | Load(id: nat)
    | Cas(id: nat)
    | CloseSignal(id: nat) // close(c.closed) in connection.close
    | DoClose(id: nat)    // <-c.closed returns and doClose runs

  predicate At(s: Conn, id: nat, r: Request) {
    id in s.requests && s.requests[id] == r
  }

  ghost predicate Enabled(s: Conn, step: Step) {
    match step
    case Pick(id) => id !in s.requests
    case Start(id) => At(s, id, Picked)
    case Abort(id) => At(s, id, Aborting)
    case Reject(id) => At(s, id, Rejected)
    case Fail(id) => At(s, id, Active)
    case Respond(id) => At(s, id, Active)
    case Hook(id) => id in s.requests && s.requests[id] in {BodyOpen, Finishing, Ending, Signalling, Over}
    case Release(id) => At(s, id, Finishing)
    case End(id) => At(s, id, Ending)
    case Signal(id) => At(s, id, Signalling)
    case Enter(id) => id !in s.closers
    case Load(id) => id in s.closers && s.closers[id].Entered?
    case Cas(id) => id in s.closers && s.closers[id].Loaded?
    case CloseSignal(id) => id in s.closers && s.closers[id].MustSignal?
    case DoClose(id) => id in s.closers && s.closers[id].Waiting? && s.closes > 0
  }

  function Move(s: Conn, id: nat, r: Request): Conn {
    s.(requests := s.requests[id := r])
  }

  function MoveCloser(s: Conn, id: nat, c: Closer): Conn {
    s.(closers := s.closers[id := c])
  }

  ghost function Apply(s: Conn, step: Step): Conn
    requires Enabled(s, step)
  {
    match step
    case Pick(id) => Move(s, id, Picked)
    case Start(id) =>
      var result := Wrap(s.counter + 1);
      Move(s, id, if result < 0 then Aborting else Active).(counter := result)
    case Abort(id) => Move(s, id, Rejected).(counter := Wrap(s.counter - 1))
    case Reject(id) => Move(s, id, Over).(released := s.released + [id])
    case Fail(id) => Move(s, id, Finishing)
    case Respond(id) => Move(s, id, BodyOpen)
    case Hook(id) => if s.requests[id] == BodyOpen then Move(s, id, Finishing) else s
    case Release(id) => Move(s, id, Ending).(released := s.released + [id])
    case End(id) =>
      var result := Wrap(s.counter - 1);
      Move(s, id, if result == MIN_INT64 then Signalling else Over).(counter := result)
    case Signal(id) => Move(s, id, Over).(closes := s.closes + 1)
    case Enter(id) => MoveCloser(s, id, Entered)
    case Load(id) => MoveCloser(s, id, if s.counter < 0 then Waiting else Loaded(s.counter))
    case Cas(id) =>
      var reqs := s.closers[id].reqs;
      var markedValue := Wrap(reqs - MIN_INT64);
      if s.counter != reqs then MoveCloser(s, id, Entered)
      else MoveCloser(s, id, if markedValue == MIN_INT64 then MustSignal else Waiting).(counter := markedValue)
    case CloseSignal(id) => MoveCloser(s, id, Waiting).(closes := s.closes + 1)
    case DoClose(id) => MoveCloser(s, id, Finished).(doCloses := s.doCloses + 1)
  }

  // ---------------------------------------------------------------- counting

  /** The classes of requests that the counters count. */
  datatype Class = Running | Aborted | Pending | Unreleased

  predicate Is(r: Request, c: Class) {
    match c
    case Running => r in {Active, BodyOpen, Finishing, Ending}
    case Aborted => r == Aborting
    case Pending => r == Signalling
    case Unreleased => r in {Picked, Aborting, Rejected, Active, BodyOpen, Finishing}
  }

  ghost function Where(requests: map<nat, Request>, c: Class): set<nat> {
    set id | id in requests && Is(requests[id], c)
  }

  ghost function Count(s: Conn, c: Class): nat {
    |Where(s.requests, c)|
  }

  ghost function ActiveCount(s: Conn): nat { Count(s, Running) }

  ghost function AbortingCount(s: Conn): nat { Count(s, Aborted) }

  ghost function SignallingClosers(s: Conn): set<nat> {
    set id | id in s.closers && s.closers[id].MustSignal?
  }

  /** Requests and closers that are about to run close(c.closed). */
  ghost function SignallingCount(s: Conn): nat {
    Count(s, Pending) + |SignallingClosers(s)|
  }

  predicate Marked(s: Conn) { s.counter < 0 }

  /** Fewer than 2^63 requests are counted at once, with room for one more: no `Add` carries the counter across the mark. */
  ghost predicate Bounded(s: Conn) {
    ActiveCount(s) + AbortingCount(s) + 1 < TWO_63
  }

  /** Steps that neither make a new call of `close` nor run `doClose`. */
  predicate Quiet(steps: seq<Step>) {
    forall i :: 0 <= i < |steps| ==> !steps[i].Enter? && !steps[i].DoClose?
  }

  ghost predicate Runs(s: Conn, steps: seq<Step>)
    decreases |steps|
  {
    Bounded(s) && (steps != [] ==> Enabled(s, steps[0]) && Runs(Apply(s, steps[0]), steps[1..]))
  }

  ghost function After(s: Conn, steps: seq<Step>): Conn
    requires Runs(s, steps)
    decreases |steps|
  {
    if steps == [] then s else After(Apply(s, steps[0]), steps[1..])
  }

  // ---------------------------------------------------------------- the invariant

  /** `lost` says that the last active request ended while an aborted start sat between its two Adds. */
  ghost predicate Inv(s: Conn, lost: bool) {
    && s.counter == (if Marked(s) then MIN_INT64 else 0) + ActiveCount(s) + AbortingCount(s)
    && (!Marked(s) ==> AbortingCount(s) == 0)
    && s.closes + SignallingCount(s) == (if Marked(s) && ActiveCount(s) == 0 && !lost then 1 else 0)
    && (lost ==> Marked(s) && ActiveCount(s) == 0)
    && (s.doCloses > 0 ==> s.closes > 0)
    && (forall id :: id in s.closers && s.closers[id].Loaded? ==> 0 <= s.closers[id].reqs < TWO_63)
  }

  ghost predicate Accounted(s: Conn) {
    && NoDup(s.released)
    && (forall id :: id in s.released <==> id in s.requests && !Is(s.requests[id], Unreleased))
  }

  /** The step that loses the wake-up: the last active request leaves while an aborted start is half done. */
  ghost predicate LosesSignal(s: Conn, step: Step) {
    step.End? && Marked(s) && ActiveCount(s) == 1 && AbortingCount(s) > 0
  }

  lemma CountMove(s: Conn, id: nat, r: Request, c: Class)
    ensures Count(Move(s, id, r), c) ==
            Count(s, c) - (if id in s.requests && Is(s.requests[id], c) then 1 else 0) + (if Is(r, c) then 1 else 0)
  {
    var before := Where(s.requests, c);
    assert Where(s.requests[id := r], c) == if Is(r, c) then before + {id} else before - {id};
  }

  /** How the three counts move with one request. */
  lemma CountsMove(s: Conn, id: nat, r: Request)
    ensures var was := if id in s.requests then s.requests[id] else Over;
            var t := Move(s, id, r);
            && ActiveCount(t) == ActiveCount(s) - (if Is(was, Running) then 1 else 0) + (if Is(r, Running) then 1 else 0)
            && AbortingCount(t) == AbortingCount(s) - (if was == Aborting then 1 else 0) + (if r == Aborting then 1 else 0)
            && SignallingCount(t) == SignallingCount(s) - (if was == Signalling then 1 else 0) + (if r == Signalling then 1 else 0)
  {
    CountMove(s, id, r, Running);
    CountMove(s, id, r, Aborted);
    CountMove(s, id, r, Pending);
  }

  lemma CloserMoves(s: Conn, id: nat, c: Closer)
    ensures var t := MoveCloser(s, id, c);
            && ActiveCount(t) == ActiveCount(s) && AbortingCount(t) == AbortingCount(s)
            && SignallingCount(t) == SignallingCount(s)
                                     - (if id in s.closers && s.closers[id].MustSignal? then 1 else 0) + (if c.MustSignal? then 1 else 0)
  {
    var before := SignallingClosers(s);
    assert SignallingClosers(MoveCloser(s, id, c)) == if c.MustSignal? then before + {id} else before - {id};
  }

  /** Every step keeps the invariant, and `lost` becomes true exactly when the step loses the signal. */
  lemma StepKeepsInv(s: Conn, lost: bool, step: Step)
    requires Bounded(s) && Inv(s, lost) && Enabled(s, step)
    ensures Inv(Apply(s, step), lost || LosesSignal(s, step))
  {
    hide Inv, Apply;
    if IsCloserStep(step) {
      CloserStepKeepsInv(s, lost, step);
    } else {
      RequestStepKeepsInv(s, lost, step);
    }
  }

  predicate IsCloserStep(step: Step) {
    step.Enter? || step.Load? || step.Cas? || step.CloseSignal? || step.DoClose?
  }

  lemma CloserStepKeepsInv(s: Conn, lost: bool, step: Step)
    requires Bounded(s) && Inv(s, lost) && Enabled(s, step) && IsCloserStep(step)
    ensures Inv(Apply(s, step), lost)
  {
    hide ActiveCount, AbortingCount, SignallingCount;
    CountsBound(s);
    CloserMoves(s, step.id, Apply(s, step).closers[step.id]);
    CountsDependOn(MoveCloser(s, step.id, Apply(s, step).closers[step.id]), Apply(s, step));
  }

  lemma RequestStepKeepsInv(s: Conn, lost: bool, step: Step)
    requires Bounded(s) && Inv(s, lost) && Enabled(s, step) && !IsCloserStep(step)
    ensures Inv(Apply(s, step), lost || LosesSignal(s, step))
  {
    hide ActiveCount, AbortingCount, SignallingCount;
    CountsBound(s);
    CountsMove(s, step.id, Apply(s, step).requests[step.id]);
    CountsDependOn(Move(s, step.id, Apply(s, step).requests[step.id]), Apply(s, step));
  }

  lemma CountsDependOn(s: Conn, t: Conn)
    requires s.requests == t.requests && s.closers == t.closers
    ensures ActiveCount(s) == ActiveCount(t) && AbortingCount(s) == AbortingCount(t) && SignallingCount(s) == SignallingCount(t)
  {
  }

  lemma CountsBound(s: Conn)
    ensures ActiveCount(s) + AbortingCount(s) <= |s.requests|
    ensures forall id :: id in s.requests && Is(s.requests[id], Running) ==> ActiveCount(s) > 0
    ensures forall id :: id in s.requests && s.requests[id] == Aborting ==> AbortingCount(s) > 0
  {
    var active, aborting := Where(s.requests, Running), Where(s.requests, Aborted);
    assert active !! aborting && |active + aborting| == |active| + |aborting|;
    SubsetCard(active + aborting, s.requests.Keys);
    forall id | id in s.requests && Is(s.requests[id], Running) ensures |active| > 0 {
      assert id in active;
    }
    forall id | id in s.requests && s.requests[id] == Aborting ensures |aborting| > 0 {
      assert id in aborting;
    }
  }

  // ---------------------------------------------------------------- drain

  /** Somewhere in the run, the last active request ended while an aborted start sat between its two Adds. */
  ghost predicate Loses(s: Conn, steps: seq<Step>)
    requires Runs(s, steps)
    decreases |steps|
  {
    steps != [] && (LosesSignal(s, steps[0]) || Loses(Apply(s, steps[0]), steps[1..]))
  }

  lemma {:induction false} RunKeepsInv(s: Conn, lost: bool, steps: seq<Step>)
    requires Inv(s, lost) && Runs(s, steps)
    ensures Inv(After(s, steps), lost || Loses(s, steps))
    decreases |steps|
  {
    hide Inv, Apply, Enabled, LosesSignal;
    if steps != [] {
      StepKeepsInv(s, lost, steps[0]);
      RunKeepsInv(Apply(s, steps[0]), lost || LosesSignal(s, steps[0]), steps[1..]);
    }
  }

  lemma FreshInv(s: Conn, lost: bool)
    requires Fresh(s) && !lost
    ensures Inv(s, lost) && Accounted(s)
  {
    assert !Marked(s);
    hide Where, Marked;
    NoneWhere(s.requests, Running);
    NoneWhere(s.requests, Aborted);
    NoneWhere(s.requests, Pending);
    NoneWhere(s.requests, Unreleased);
    assert SignallingClosers(s) == {};
  }

  lemma NoneWhere(requests: map<nat, Request>, c: Class)
    requires forall id :: id in requests ==> !Is(requests[id], c)
    ensures Where(requests, c) == {}
  {
  }

  /**
   Drain safety, in every interleaving: the counter is the mark plus the active and half-aborted
   requests; `closed` is closed at most once; and once it is closed, so whenever `doClose` has been
   entered, the connection is marked and no request is active.
   */
  lemma DrainSafety(s0: Conn, steps: seq<Step>)
    requires Fresh(s0) && Runs(s0, steps)
    ensures var s := After(s0, steps);
            && s.counter == (if Marked(s) then MIN_INT64 else 0) + ActiveCount(s) + AbortingCount(s)
            && s.closes + SignallingCount(s) <= 1
            && (s.closes > 0 || s.doCloses > 0 ==> s.closes == 1 && Marked(s) && ActiveCount(s) == 0)
  {
    hide ActiveCount, AbortingCount, SignallingCount, Apply, Enabled, After, Loses, Runs, Accounted, Marked;
    var lost := false;
    FreshInv(s0, lost);
    RunKeepsInv(s0, lost, steps);
  }

  /** Every start of the run is on its way out: it comes out negative and aborts. */
  ghost predicate StartsAbort(s: Conn, steps: seq<Step>)
    requires Runs(s, steps)
    decreases |steps|
  {
    steps != [] ==>
      && (steps[0].Start? ==> At(Apply(s, steps[0]), steps[0].id, Aborting))
      && StartsAbort(Apply(s, steps[0]), steps[1..])
  }

  /** After the mark every start aborts, the requests that are active were active at the mark, and the mark stays. */
  lemma {:induction false} NothingStartsAfterMark(s: Conn, lost: bool, steps: seq<Step>)
    requires Inv(s, lost) && Runs(s, steps) && Marked(s)
    ensures StartsAbort(s, steps) && Marked(After(s, steps))
    ensures Where(After(s, steps).requests, Running) <= Where(s.requests, Running)
    decreases |steps|
  {
    if steps != [] {
      MarkedStep(s, lost, steps[0]);
      StepKeepsInv(s, lost, steps[0]);
      hide Inv, Apply, Enabled, Bounded;
      NothingStartsAfterMark(Apply(s, steps[0]), lost || LosesSignal(s, steps[0]), steps[1..]);
    }
  }

  lemma MarkedStep(s: Conn, lost: bool, step: Step)
    requires Inv(s, lost) && Bounded(s) && Enabled(s, step) && Marked(s)
    ensures Marked(Apply(s, step)) && Where(Apply(s, step).requests, Running) <= Where(s.requests, Running)
    ensures step.Start? ==> At(Apply(s, step), step.id, Aborting)
  {
    hide ActiveCount, AbortingCount, SignallingCount;
    CountsBound(s);
  }

  /**
   Drain completion, exactly: a marked connection with no active request has had `closed` closed
   (or a goroutine is about to close it) if and only if no aborted start overlapped the end of the
   last active request.
   */
  lemma DrainCompletesIff(s0: Conn, steps: seq<Step>)
    requires Fresh(s0) && Runs(s0, steps)
    ensures var s := After(s0, steps);
            Marked(s) && ActiveCount(s) == 0 ==> (s.closes + SignallingCount(s) == 1 <==> !Loses(s0, steps))
    ensures Loses(s0, steps) ==> Marked(After(s0, steps)) && ActiveCount(After(s0, steps)) == 0
  {
    hide ActiveCount, AbortingCount, SignallingCount, Apply, Enabled, After, Loses, Runs, Accounted, Marked;
    var lost := false;
    FreshInv(s0, lost);
    RunKeepsInv(s0, lost, steps);
  }

  /** A lost signal is lost for good: nothing that happens later closes `closed`, so no closer ever gets to `doClose`. */
  lemma LostForGood(s0: Conn, steps: seq<Step>, more: seq<Step>)
    requires Fresh(s0) && Runs(s0, steps) && Loses(s0, steps) && Runs(After(s0, steps), more)
    ensures var s := After(After(s0, steps), more); s.closes == 0 && SignallingCount(s) == 0 && s.doCloses == 0
  {
    hide ActiveCount, AbortingCount, SignallingCount, Apply, Enabled, After, Loses, Runs, Accounted, Marked;
    var lost := false;
    FreshInv(s0, lost);
    RunKeepsInv(s0, lost, steps);
    RunKeepsInv(After(s0, steps), lost || Loses(s0, steps), more);
  }

  /**
   The lost signal can happen: a start that aborts across the end of the last request leaves every
   request over, the closer waiting, and `closed` never closed.
   */
  lemma StuckRunIsReachable(s0: Conn) returns (run: seq<Step>)
    requires Fresh(s0)
    ensures Runs(s0, run) && Loses(s0, run)
    ensures var s := After(s0, run);
            s.requests == map[0 := Over, 1 := Over] && s.closers == map[0 := Waiting] && s.counter == MIN_INT64 && s.closes == 0
  {
    var closing := Conn(1, 0, 0, [], map[0 := Active, 1 := Picked], map[0 := Entered]);
    run := StuckTail(closing);
    run := StuckHead(s0, closing, run, After(closing, run));
    hide Runs, After, Loses, Marked;
    NoneWhere(After(s0, run).requests, Running);
    NoneWhere(After(s0, run).requests, Pending);
    NoClosers(After(s0, run));
    assert Marked(After(s0, run)) by { MinIsMarked(After(s0, run)); }
    DrainCompletesIff(s0, run);
  }

  lemma MinIsMarked(s: Conn)
    requires s.counter == MIN_INT64
    ensures Marked(s)
  {
  }

  lemma StuckHead(s0: Conn, closing: Conn, rest: seq<Step>, last: Conn) returns (run: seq<Step>)
    requires Fresh(s0) && closing == Conn(1, 0, 0, [], map[0 := Active, 1 := Picked], map[0 := Entered])
    requires Runs(closing, rest) && After(closing, rest) == last
    ensures Runs(s0, run) && After(s0, run) == last
  {
    hide Runs, After;
    var s3 := Conn(1, 0, 0, [], map[0 := Active, 1 := Picked], map[]);
    run := RunFromBack(s3, Enter(0), rest, closing, last);
    run := StuckPicks(s0, s3, run, last);
  }

  /** One request is under way and one is picked. */
  lemma StuckPicks(s0: Conn, s3: Conn, rest: seq<Step>, last: Conn) returns (run: seq<Step>)
    requires Fresh(s0) && s3 == Conn(1, 0, 0, [], map[0 := Active, 1 := Picked], map[])
    requires Runs(s3, rest) && After(s3, rest) == last
    ensures Runs(s0, run) && After(s0, run) == last && (Quiet(rest) ==> Quiet(run))
  {
    hide Runs, After;
    var s1 := Conn(0, 0, 0, [], map[0 := Picked], map[]);
    var s2 := Conn(1, 0, 0, [], map[0 := Active], map[]);
    run := RunFromBack(s2, Pick(1), rest, s3, last);
    run := RunFromBack(s1, Start(0), run, s2, last);
    run := RunFromBack(s0, Pick(0), run, s1, last);
  }

  /** The connection is marked, and the picked request starts and aborts across the end of the other one. */
  lemma StuckTail(closing: Conn) returns (run: seq<Step>)
    requires closing == Conn(1, 0, 0, [], map[0 := Active, 1 := Picked], map[0 := Entered])
    ensures Runs(closing, run) && Quiet(run)
    ensures After(closing, run) == Conn(MIN_INT64, 0, 0, [0, 1], map[0 := Over, 1 := Over], map[0 := Waiting])
  {
    hide Runs, After;
    var s5 := closing.(closers := map[0 := Loaded(1)]);
    var marked := closing.(counter := MIN_INT64 + 1, closers := map[0 := Waiting]);
    var s7 := marked.(counter := MIN_INT64 + 2, requests := map[0 := Active, 1 := Aborting]);
    var s12 := Conn(MIN_INT64, 0, 0, [0, 1], map[0 := Over, 1 := Over], map[0 := Waiting]);
    run := StuckOverlap(s7);
    run := RunFromBack(marked, Start(1), run, s7, s12);
    run := RunFromBack(s5, Cas(0), run, marked, s12);
    run := RunFromBack(closing, Load(0), run, s5, s12);
  }

  lemma StuckOverlap(s7: Conn) returns (run: seq<Step>)
    requires s7 == Conn(MIN_INT64 + 2, 0, 0, [], map[0 := Active, 1 := Aborting], map[0 := Waiting])
    ensures Runs(s7, run) && Quiet(run)
    ensures After(s7, run) == Conn(MIN_INT64, 0, 0, [0, 1], map[0 := Over, 1 := Over], map[0 := Waiting])
  {
    hide Runs, After;
    var s8 := s7.(requests := map[0 := Finishing, 1 := Aborting]);
    var s9 := s7.(requests := map[0 := Ending, 1 := Aborting], released := [0]);
    var s10 := s9.(requests := map[0 := Over, 1 := Aborting], counter := MIN_INT64 + 1);
    var s12 := Conn(MIN_INT64, 0, 0, [0, 1], map[0 := Over, 1 := Over], map[0 := Waiting]);
    run := StuckEnd(s10);
    run := RunFromBack(s9, End(0), run, s10, s12);
    run := RunFromBack(s8, Release(0), run, s9, s12);
    run := RunFromBack(s7, Fail(0), run, s8, s12);
  }

  lemma StuckEnd(s10: Conn) returns (run: seq<Step>)
    requires s10 == Conn(MIN_INT64 + 1, 0, 0, [0], map[0 := Over, 1 := Aborting], map[0 := Waiting])
    ensures Runs(s10, run) && Quiet(run)
    ensures After(s10, run) == Conn(MIN_INT64, 0, 0, [0, 1], map[0 := Over, 1 := Over], map[0 := Waiting])
  {
    hide Runs, After;
    var s11 := s10.(requests := map[0 := Over, 1 := Rejected], counter := MIN_INT64);
    var s12 := s11.(requests := map[0 := Over, 1 := Over], released := [0, 1]);
    RunEnds(s12);
    run := RunFromBack(s11, Reject(1), [], s12, s12);
    run := RunFromBack(s10, Abort(1), run, s11, s12);
  }

  lemma NoClosers(s: Conn)
    requires forall id :: id in s.closers ==> !s.closers[id].MustSignal?
    ensures SignallingClosers(s) == {}
  {
  }

  lemma RunEnds(s: Conn)
    requires |s.requests| <= 2
    ensures Runs(s, []) && After(s, []) == s
  {
    CountsBound(s);
  }

  lemma RunFromBack(s: Conn, step: Step, rest: seq<Step>, next: Conn, last: Conn) returns (run: seq<Step>)
    requires |s.requests| <= 2 && Enabled(s, step) && Apply(s, step) == next && Runs(next, rest) && After(next, rest) == last
    ensures Runs(s, run) && After(s, run) == last && (Quiet(rest) && Quiet([step]) ==> Quiet(run))
  {
    CountsBound(s);
    run := [step] + rest;
    assert run[1..] == rest;
    assert Quiet(rest) && Quiet([step]) ==> Quiet(run) by {
      assert [step][0] == step;
    }
  }

  // ---------------------------------------------------------------- calls of whenDone

  /** The steps in which a request's `whenDone` is called. */
  predicate Releases(step: Step) {
    step.Reject? || step.Release?
  }

  /** Which requests a step adds and which it releases; no other step touches that. */
  lemma StepReleases(s: Conn, step: Step)
    requires Enabled(s, step)
    ensures var t := Apply(s, step);
            && t.requests.Keys == s.requests.Keys + (if step.Pick? then {step.id} else {})
            && Where(t.requests, Unreleased) == (if step.Pick? then Where(s.requests, Unreleased) + {step.id}
                                                 else if Releases(step) then Where(s.requests, Unreleased) - {step.id}
                                                 else Where(s.requests, Unreleased))
            && (Releases(step) ==> step.id in Where(s.requests, Unreleased))
            && (step.Pick? ==> step.id !in s.requests)
  {
  }

  lemma OpenAreRequests(s: Conn)
    ensures Where(s.requests, Unreleased) <= s.requests.Keys
  {
  }

  lemma StepKeepsAccounted(s: Conn, step: Step)
    requires Accounted(s) && Enabled(s, step)
    ensures Accounted(Apply(s, step))
  {
    hide Marked, Wrap;
  }

  /**
   In every interleaving no request's `whenDone` is called twice, and it has been called for every
   request that is past its rejection or its completion hook.
   */
  lemma {:induction false} RunKeepsAccounted(s: Conn, steps: seq<Step>)
    requires Accounted(s) && Runs(s, steps)
    ensures Accounted(After(s, steps))
    decreases |steps|
  {
    hide Accounted, Apply, Enabled;
    if steps != [] {
      StepKeepsAccounted(s, steps[0]);
      RunKeepsAccounted(Apply(s, steps[0]), steps[1..]);
    }
  }

  /** The response of request `id` was handed out, and later its body was closed or a read of it failed. */
  ghost predicate ReadThrough(steps: seq<Step>, id: nat) {
    exists i, j :: 0 <= i < j < |steps| && steps[i] == Respond(id) && steps[j] == Hook(id)
  }

  /** `whenDone` is only called for a request that was rejected, that failed, or whose response was read through or closed. */
  lemma ReleasedForAReason(s0: Conn, steps: seq<Step>, id: nat)
    requires Fresh(s0) && Runs(s0, steps) && id in After(s0, steps).released
    ensures Reject(id) in steps || Fail(id) in steps || ReadThrough(steps, id)
  {
    ReleasedFrom(s0, steps, id);
  }

  lemma {:induction false} ReleasedFrom(s: Conn, steps: seq<Step>, id: nat)
    requires Runs(s, steps) && id in After(s, steps).released
    ensures || id in s.released || At(s, id, Finishing) || (At(s, id, BodyOpen) && Hook(id) in steps)
            || Reject(id) in steps || Fail(id) in steps || ReadThrough(steps, id)
    decreases |steps|
  {
    if steps != [] {
      var step, rest := steps[0], steps[1..];
      var t := Apply(s, step);
      ReleasedFrom(t, rest, id);
      ReasonStep(s, step, id);
      hide Apply, Enabled, Runs, After, Bounded;
      assert steps == [step] + rest;
      ReadLater(step, rest, steps, id);
    }
  }

  lemma ReasonStep(s: Conn, step: Step, id: nat)
    requires Enabled(s, step)
    ensures var t := Apply(s, step);
            && (id in t.released ==> id in s.released || step == Reject(id) || At(s, id, Finishing))
            && (At(t, id, Finishing) ==> At(s, id, Finishing) || step == Fail(id) || (At(s, id, BodyOpen) && step == Hook(id)))
            && (At(t, id, BodyOpen) ==> At(s, id, BodyOpen) || step == Respond(id))
  {
    hide Wrap;
  }

  lemma ReadLater(step: Step, rest: seq<Step>, steps: seq<Step>, id: nat)
    requires steps == [step] + rest
    ensures ReadThrough(rest, id) || (step == Respond(id) && Hook(id) in rest) ==> ReadThrough(steps, id)
  {
    if ReadThrough(rest, id) {
      var i, j :| 0 <= i < j < |rest| && rest[i] == Respond(id) && rest[j] == Hook(id);
      assert steps[i + 1] == Respond(id) && steps[j + 1] == Hook(id);
    } else if step == Respond(id) && Hook(id) in rest {
      var j :| 0 <= j < |rest| && rest[j] == Hook(id);
      assert steps[0] == Respond(id) && steps[j + 1] == Hook(id);
    }
  }

  /** A response that was handed out holds its connection: until its hook fires it is not released, and `closed` stays open. */
  lemma OpenBodyHoldsConn(s0: Conn, before: seq<Step>, id: nat, more: seq<Step>)
    requires Fresh(s0) && Runs(s0, before) && Enabled(After(s0, before), Respond(id))
    requires Runs(Apply(After(s0, before), Respond(id)), more) && Hook(id) !in more
    ensures var s := After(Apply(After(s0, before), Respond(id)), more);
            id !in s.released && s.closes == 0 && s.doCloses == 0
  {
    var lost := false;
    FreshInv(s0, lost);
    RunKeepsInv(s0, lost, before);
    RunKeepsAccounted(s0, before);
    var s := After(s0, before);
    lost := lost || Loses(s0, before);
    RunsAreBounded(s0, before);
    StepKeepsInv(s, lost, Respond(id));
    StepKeepsAccounted(s, Respond(id));
    var t := Apply(s, Respond(id));
    assert At(t, id, BodyOpen);
    hide Inv, Apply, Enabled, After, Runs, LosesSignal;
    BodyStaysOpen(t, lost || LosesSignal(s, Respond(id)), id, more);
    RunKeepsAccounted(t, more);
  }

  lemma {:induction false} RunsAreBounded(s: Conn, steps: seq<Step>)
    requires Runs(s, steps)
    ensures Bounded(After(s, steps))
    decreases |steps|
  {
    hide Bounded, Apply, Enabled;
    if steps != [] { RunsAreBounded(Apply(s, steps[0]), steps[1..]); }
  }

  lemma {:induction false} BodyStaysOpen(s: Conn, lost: bool, id: nat, steps: seq<Step>)
    requires Inv(s, lost) && Runs(s, steps) && At(s, id, BodyOpen) && Hook(id) !in steps
    ensures At(After(s, steps), id, BodyOpen) && After(s, steps).closes == 0 && After(s, steps).doCloses == 0
    decreases |steps|
  {
    if steps == [] {
      CountsBound(s);
    } else {
      var step, rest := steps[0], steps[1..];
      StepKeepsInv(s, lost, step);
      assert step != Hook(id) && Hook(id) !in rest;
      OnlyHookEnds(s, step, id);
      hide Inv, Apply, Enabled, Bounded;
      BodyStaysOpen(Apply(s, step), lost || LosesSignal(s, step), id, rest);
    }
  }

  lemma OnlyHookEnds(s: Conn, step: Step, id: nat)
    requires Enabled(s, step) && At(s, id, BodyOpen) && step != Hook(id)
    ensures At(Apply(s, step), id, BodyOpen)
  {
  }

  /** Once `closed` is closed, every request has been released, but for those that a start turns away or has yet to. */
  lemma ClosedMeansReleased(s0: Conn, steps: seq<Step>)
    requires Fresh(s0) && Runs(s0, steps)
    ensures var s := After(s0, steps);
            s.closes > 0 ==> forall id :: id in s.requests ==> id in s.released || s.requests[id] in {Picked, Aborting, Rejected}
  {
    var lost := false;
    FreshInv(s0, lost);
    RunKeepsInv(s0, lost, steps);
    RunKeepsAccounted(s0, steps);
    hide After, Runs, Loses, SignallingCount;
    CountsBound(After(s0, steps));
  }
}

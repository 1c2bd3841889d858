/** The polling health checker of health/polling.go: the state and counter its probe loop keeps. */
module HealthPolling {

  datatype State = Healthy | Unknown | Degraded | Unhealthy

  /** `NewPollingChecker`: a threshold left at zero means one. */
  function Threshold(configured: int): int {
    if configured == 0 then 1 else configured
  }

  /** The variables the probe goroutine captures, and the updates it has sent to the tracker. */
  class Checker {
    const healthyThreshold: int
    const unhealthyThreshold: int
    var state: State
    var counter: int
    ghost var probes: seq<State>
    var updates: seq<State>

    constructor (healthyThreshold: int, unhealthyThreshold: int)
      ensures this.healthyThreshold == (if healthyThreshold == 0 then 1 else healthyThreshold)
      ensures this.unhealthyThreshold == (if unhealthyThreshold == 0 then 1 else unhealthyThreshold)
      ensures Tracks() && probes == []
    {
      this.healthyThreshold := Threshold(healthyThreshold);
      this.unhealthyThreshold := Threshold(unhealthyThreshold);
      state, counter := Unknown, Threshold(healthyThreshold);
      probes, updates := [], [];
    }

    /** The loop variables are those of the automaton after the probes so far. */
    ghost predicate Tracks()
      reads this
    {
      Auto(state, counter, updates) == After(healthyThreshold, unhealthyThreshold, probes)
    }

    /** One iteration of the loop, with the prober's answer. */
    method OnProbe(result: State)
      requires Tracks()
      modifies this
      ensures Tracks() && probes == old(probes) + [result]
    {
      assert (probes + [result])[..|probes|] == probes;
      probes := probes + [result];
      var lastState := state;
      if result == Healthy && (state == Unhealthy || state == Degraded || state == Unknown) {
        counter := counter + 1;
        if counter >= healthyThreshold {
          state := result;
          counter := 0;
        }
      } else if state == Healthy && (result == Unhealthy || result == Degraded || result == Unknown) {
        counter := counter + 1;
        if counter >= unhealthyThreshold {
          state := result;
          counter := 0;
        }
      } else {
        state := result;
        counter := 0;
      }
      if lastState != state {
        updates := updates + [result];
      }
    }
  }

  // ---------------------------------------------------------------- the automaton

  datatype Auto = Auto(state: State, counter: int, updates: seq<State>)

  function Next(h: int, u: int, a: Auto, result: State): Auto {
    var crossing := (result == Healthy) != (a.state == Healthy);
    var moves := !crossing || a.counter + 1 >= (if result == Healthy then h else u);
    Auto(if moves then result else a.state,
         if moves then 0 else a.counter + 1,
         if moves && result != a.state then a.updates + [result] else a.updates)
  }

  function After(h: int, u: int, probes: seq<State>): Auto {
    if probes == [] then Auto(Unknown, h, [])
    else Next(h, u, After(h, u, probes[..|probes| - 1]), probes[|probes| - 1])
  }

  // ---------------------------------------------------------------- the closed form

  /** How many of the latest probes, up to and including the last, are on the last one's side. */
  ghost function Run(probes: seq<State>): nat {
    if probes == [] then 0
    else
      var n := |probes| - 1;
      if n > 0 && (probes[n - 1] == Healthy) == (probes[n] == Healthy) then Run(probes[..n]) + 1 else 1
  }

  /** The last probe of this history completes a run as long as its side's threshold (a healthy first probe counts at once). */
  ghost predicate Reaches(h: int, u: int, probes: seq<State>)
    requires probes != []
  {
    var last := probes[|probes| - 1];
    Run(probes) >= (if last == Healthy then h else u) || (|probes| == 1 && last == Healthy)
  }

  /** The prefix at which a run last reached its threshold was a healthy one. */
  ghost predicate LastReachedHealthy(h: int, u: int, probes: seq<State>) {
    exists i :: 0 < i <= |probes| && Reaches(h, u, probes[..i]) && probes[i - 1] == Healthy
                && forall j :: i < j <= |probes| ==> !Reaches(h, u, probes[..j])
  }

  /** The latest result that was not healthy; unknown before there is one. */
  ghost function LatestBad(probes: seq<State>): State {
    if probes == [] then Unknown
    else if probes[|probes| - 1] != Healthy then probes[|probes| - 1]
    else LatestBad(probes[..|probes| - 1])
  }

  ghost predicate AutoInv(h: int, u: int, probes: seq<State>) {
    var a := After(h, u, probes);
    && (a.state == Healthy <==> LastReachedHealthy(h, u, probes))
    && (a.state != Healthy ==> a.state == LatestBad(probes))
    && a.counter == (if probes == [] then h
                     else if (probes[|probes| - 1] == Healthy) == (a.state == Healthy) then 0
                     else Run(probes))
  }

  lemma LastReachedSnoc(h: int, u: int, probes: seq<State>, r: State)
    ensures var more := probes + [r];
            LastReachedHealthy(h, u, more) <==>
            if Reaches(h, u, more) then r == Healthy else LastReachedHealthy(h, u, probes)
  {
    hide Reaches;
    var more := probes + [r];
    assert more[..|more|] == more;
    assert forall i :: 0 <= i <= |probes| ==> more[..i] == probes[..i];
    if Reaches(h, u, more) {
      if r == Healthy {
        assert 0 < |more| <= |more| && Reaches(h, u, more[..|more|]) && more[|more| - 1] == Healthy;
      }
    } else if LastReachedHealthy(h, u, probes) {
      var i :| 0 < i <= |probes| && Reaches(h, u, probes[..i]) && probes[i - 1] == Healthy
               && forall j :: i < j <= |probes| ==> !Reaches(h, u, probes[..j]);
      assert Reaches(h, u, more[..i]) && more[i - 1] == Healthy;
      forall j | i < j <= |more| ensures !Reaches(h, u, more[..j]) {
        if j <= |probes| { assert more[..j] == probes[..j]; }
      }
    }
  }

  /**
   Hysteresis in closed form, for any thresholds and any probe history: the state is healthy exactly
   when the run that last reached its threshold was a healthy one, and is otherwise the latest result
   that was not healthy.
   */
  lemma {:induction false} StateIsClosedForm(h: int, u: int, probes: seq<State>)
    ensures AutoInv(h, u, probes)
  {
    if probes != [] {
      var n := |probes| - 1;
      var front, r := probes[..n], probes[n];
      StateIsClosedForm(h, u, front);
      assert probes == front + [r];
      LastReachedSnoc(h, u, front, r);
      hide LastReachedHealthy;
    }
  }

  /**
   What the tracker sees: a probe that changes the state adds it to the updates, and no other probe adds anything, so
   that replaying the updates from unknown gives the state, and no update repeats the previous one.
   */
  lemma {:induction false} UpdatesReplayState(h: int, u: int, probes: seq<State>)
    ensures var a := After(h, u, probes);
            && a.state == (if a.updates == [] then Unknown else a.updates[|a.updates| - 1])
            && (a.updates != [] ==> a.updates[0] != Unknown)
            && (probes == [] ==> a.updates == [])
            && (probes != [] ==>
                  var b := After(h, u, probes[..|probes| - 1]);
                  a.updates == b.updates + (if a.state == b.state then [] else [a.state]))
            && forall i :: 0 < i < |a.updates| ==> a.updates[i - 1] != a.updates[i]
  {
    if probes != [] {
      UpdatesReplayState(h, u, probes[..|probes| - 1]);
    }
  }
}

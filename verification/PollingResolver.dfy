/** The polling resolver of resolver/resolver.go: its two racing timers, and the in-place address filter. */
module PollingResolver {

  /** Times and durations in nanoseconds. */
  type Time = int

  datatype Config = Config(defaultTTL: Time, minRefreshInterval: Time)

  /** Which source ends the wait for the refresh timer after an early refresh. */
  datatype Inner = TtlFirst | RefreshFirst | InnerCancelled

  /** How the wait after one resolution ends; `late` is how long after its source was ready. */
  datatype Wake =
    | Cancelled
    | TimerFires(late: nat)
    | Refresh(after: nat, inner: Inner, late: nat)

  /** What the environment does to one iteration of `run`. */
  datatype Round = Round(probe: nat, ttl: Time, wake: Wake)

  function EffectiveTTL(c: Config, ttl: Time): (r: Time)
    ensures r >= c.minRefreshInterval && r >= (if ttl == 0 then c.defaultTTL else ttl)
    ensures r == c.minRefreshInterval || r == (if ttl == 0 then c.defaultTTL else ttl)
  {
    var t := if ttl == 0 then c.defaultTTL else ttl;
    if t < c.minRefreshInterval then c.minRefreshInterval else t
  }

  function Max(a: Time, b: Time): Time { if a < b then b else a }

  /** When the iteration that resolved at `start` resets its timer, and when that timer fires. */
  function ResetAt(start: Time, r: Round): Time { start + r.probe }

  function FiresAt(c: Config, start: Time, r: Round): Time { ResetAt(start, r) + Max(0, EffectiveTTL(c, r.ttl)) }

  /** Each wait ends as soon as one of its sources is ready. */
  predicate Prompt(c: Config, r: Round) {
    match r.wake
    case Cancelled => true
    case TimerFires(late) => late == 0
    case Refresh(after, inner, late) =>
      after <= EffectiveTTL(c, r.ttl) && late == 0 && (inner.TtlFirst? ==> r.probe + EffectiveTTL(c, r.ttl) <= c.minRefreshInterval)
  }

  /** What the source promises about two consecutive calls of `ResolveOnce`. */
  ghost predicate Follows(c: Config, start: Time, r: Round, next: Time) {
    && next - start >= c.minRefreshInterval && next >= ResetAt(start, r)
    && (Prompt(c, r) ==> next <= FiresAt(c, start, r))
  }

  /**
   When the next call comes, exactly; `t` is the larger of the minimum interval and the TTL, or the default
   for a TTL of 0. A refresh signal counts at once if the minimum interval is over, and otherwise when
   that interval is over or the timer of length `t` has fired, whichever the inner wait took.
   */
  ghost predicate WokenAt(c: Config, start: Time, r: Round, next: Time) {
    var ttl := if r.ttl == 0 then c.defaultTTL else r.ttl;
    var t := if ttl < c.minRefreshInterval then c.minRefreshInterval else ttl;
    var wait := if t < 0 then 0 else t;
    match r.wake
    case Cancelled => false
    case TimerFires(late) => next == start + r.probe + wait + late
    case Refresh(after, inner, late) =>
      if r.probe + after >= c.minRefreshInterval then next == start + r.probe + after
      else match inner
           case TtlFirst => next == start + r.probe + (if wait < after then after else wait) + late
           case RefreshFirst => next == start + c.minRefreshInterval + late
           case InnerCancelled => false
  }

  /** The loop returns: it is cancelled in its wait, or in the wait that an early refresh leads to. */
  ghost predicate Stops(c: Config, r: Round) {
    r.wake.Cancelled? || (r.wake.Refresh? && r.wake.inner.InnerCancelled? && r.probe + r.wake.after < c.minRefreshInterval)
  }

  datatype Outcome = Stopped | ResolveAt(time: Time)

  /** One iteration of the loop of `run`: from one call of `ResolveOnce` to the next, or to the return. */
  method Iterate(c: Config, lastResolve: Time, r: Round) returns (o: Outcome)
    ensures o.ResolveAt? ==> Follows(c, lastResolve, r, o.time) && WokenAt(c, lastResolve, r, o.time)
    ensures o.Stopped? <==> Stops(c, r)
  {
    var now := lastResolve + r.probe;
    var timerAt := now + EffectiveTTL(c, r.ttl);
    match r.wake {
      case Cancelled => return Stopped;
      case TimerFires(late) => now := Max(now, timerAt) + late;
      case Refresh(after, inner, late) =>
        now := now + after;
        if now - lastResolve < c.minRefreshInterval {
          var deadline := lastResolve + c.minRefreshInterval;
          var refreshAt := now + (deadline - now);
          match inner {
            case InnerCancelled => return Stopped;
            case TtlFirst => now := Max(now, timerAt) + late;
            case RefreshFirst => now := Max(now, refreshAt) + late;
          }
        }
    }
    o := ResolveAt(now);
  }

  /**
   `run`: the times at which `ResolveOnce` is called. Whatever the refresh signals, TTLs and probe
   durations, consecutive calls are at least the minimum interval apart, so that no window holds more
   than its length divided by that interval, plus one; and a call whose waits end promptly comes no
   later than the timer reset plus the effective TTL. The loop only ends with the rounds or when it is
   cancelled.
   */
  method Run(c: Config, start: Time, rounds: seq<Round>) returns (starts: seq<Time>)
    ensures 1 <= |starts| <= |rounds| + 1 && starts[0] == start
    ensures forall i :: 0 < i < |starts| ==>
              Follows(c, starts[i - 1], rounds[i - 1], starts[i]) && WokenAt(c, starts[i - 1], rounds[i - 1], starts[i])
    ensures |starts| == |rounds| + 1 || Stops(c, rounds[|starts| - 1])
    ensures c.minRefreshInterval > 0 ==>
              forall from, to :: from <= to ==> |InWindow(starts, from, to)| <= (to - from) / c.minRefreshInterval + 1
  {
    hide InWindow, WokenAt;
    var lastResolve := start;
    starts := [start];
    for n := 0 to |rounds|
      invariant |starts| == n + 1 && starts[0] == start && starts[n] == lastResolve
      invariant forall i :: 0 < i < |starts| ==>
                  Follows(c, starts[i - 1], rounds[i - 1], starts[i]) && WokenAt(c, starts[i - 1], rounds[i - 1], starts[i])
    {
      var o := Iterate(c, lastResolve, rounds[n]);
      if o.Stopped? { break; }
      lastResolve := o.time;
      starts := starts + [lastResolve];
    }
    if c.minRefreshInterval > 0 {
      forall from, to | from <= to ensures |InWindow(starts, from, to)| <= (to - from) / c.minRefreshInterval + 1 {
        WindowBound(starts, c.minRefreshInterval, from, to - from);
      }
    }
  }

  // ---------------------------------------------------------------- the rate bound

  ghost predicate Spaced(starts: seq<Time>, gap: Time) {
    forall i :: 0 < i < |starts| ==> starts[i] - starts[i - 1] >= gap
  }

  lemma {:induction false} SpacedFar(starts: seq<Time>, gap: Time, i: nat, j: nat)
    requires Spaced(starts, gap) && i <= j < |starts|
    ensures starts[j] - starts[i] >= (j - i) * gap
    decreases j - i
  {
    if i < j {
      SpacedFar(starts, gap, i, j - 1);
      assert (j - i) * gap == (j - 1 - i) * gap + gap;
    }
  }

  /** The calls that fall into a window. */
  ghost function InWindow(starts: seq<Time>, from: Time, to: Time): set<nat> {
    set i | 0 <= i < |starts| && from <= starts[i] <= to
  }

  lemma {:induction false} RangeSize(s: set<nat>, first: nat, n: nat)
    requires forall i :: i in s ==> first <= i < first + n
    ensures |s| <= n
    decreases n
  {
    if n == 0 {
      assert s == {};
    } else {
      RangeSize(s - {first + n - 1}, first, n - 1);
      assert |s| <= |s - {first + n - 1}| + 1;
    }
  }

  /** The rate limit: a window of length `w` holds at most w / interval + 1 calls. */
  lemma WindowBound(starts: seq<Time>, gap: Time, from: Time, w: nat)
    requires gap > 0 && Spaced(starts, gap)
    ensures |InWindow(starts, from, from + w)| <= w / gap + 1
  {
    var s := InWindow(starts, from, from + w);
    if s != {} {
      var first := Least(s);
      forall i | i in s ensures first <= i < first + (w / gap + 1) {
        SpacedFar(starts, gap, first, i);
        QuotientBound(i - first, gap, w);
      }
      RangeSize(s, first, w / gap + 1);
    }
  }

  lemma QuotientBound(n: nat, gap: Time, w: nat)
    requires gap > 0 && n * gap <= w
    ensures n <= w / gap
  {
    var q := w / gap;
    assert w < gap * (q + 1);
    assert n * gap < (q + 1) * gap;
  }

  lemma {:induction false} Least(s: set<nat>) returns (m: nat)
    requires s != {}
    ensures m in s && forall i :: i in s ==> m <= i
    decreases |s|
  {
    m :| m in s;
    if s != {m} {
      var k := Least(s - {m});
      assert forall i :: i in s ==> i == m || i in s - {m};
      if k < m { m := k; }
    }
  }

  // ---------------------------------------------------------------- the address filter

  datatype Addr = V4 | V4In6 | V6
  datatype Policy = PreferIPv4 | RequireIPv4 | PreferIPv6 | RequireIPv6 | UseBothIPv4AndIPv6

  predicate Matches(p: Policy, family: Addr) {
    match p
    case PreferIPv4 | RequireIPv4 => family.V4? || family.V4In6?
    case PreferIPv6 | RequireIPv6 => family.V6?
    case UseBothIPv4AndIPv6 => true
  }

  function Filter<T>(p: Policy, family: T -> Addr, addrs: seq<T>): seq<T> {
    if addrs == [] then []
    else Filter(p, family, addrs[..|addrs| - 1]) + (if Matches(p, family(addrs[|addrs| - 1])) then [addrs[|addrs| - 1]] else [])
  }

  /** The filter keeps single addresses by their family, and works address by address, in order. */
  lemma {:induction false} FilterIs<T>(p: Policy, family: T -> Addr, a: seq<T>, b: seq<T>, x: T)
    ensures Filter(p, family, [x]) ==
            (match p
             case PreferIPv4 => if family(x) == V6 then [] else [x]
             case RequireIPv4 => if family(x) == V6 then [] else [x]
             case PreferIPv6 => if family(x) == V6 then [x] else []
             case RequireIPv6 => if family(x) == V6 then [x] else []
             case UseBothIPv4AndIPv6 => [x])
    ensures Filter(p, family, a + b) == Filter(p, family, a) + Filter(p, family, b)
    decreases |b|
  {
    assert [x][..0] == [];
    if b == [] {
      assert a + b == a;
    } else {
      FilterIs(p, family, a, b[..|b| - 1], x);
      assert (a + b)[..|a + b| - 1] == a + b[..|b| - 1];
    }
  }

  /**
   `applyAddressFamilyPolicy`, which filters into the slice it reads. The first `n` slots end up with
   the matching addresses in order; under a preference that nothing matches, all addresses come back untouched.
   */
  method ApplyAddressFamilyPolicy<T>(addrs: array<T>, policy: Policy, family: T -> Addr) returns (n: nat)
    modifies addrs
    ensures n <= addrs.Length
    ensures var matching := Filter(policy, family, old(addrs[..]));
            if policy.UseBothIPv4AndIPv6? || (matching == [] && (policy.PreferIPv4? || policy.PreferIPv6?))
            then n == addrs.Length && addrs[..] == old(addrs[..])
            else addrs[..n] == matching
  {
    if policy.UseBothIPv4AndIPv6? { return addrs.Length; }
    ghost var input := addrs[..];
    n := 0;
    for i := 0 to addrs.Length
      invariant n <= i && addrs[..n] == Filter(policy, family, input[..i])
      invariant addrs[i..] == input[i..] && (n == 0 ==> addrs[..] == input)
    {
      assert addrs[i] == addrs[i..][0] == input[i];
      assert input[..i + 1][..i] == input[..i];
      if Matches(policy, family(addrs[i])) {
        addrs[n] := addrs[i];
        n := n + 1;
      }
    }
    assert input[..addrs.Length] == input;
    if !(policy.RequireIPv4? || policy.RequireIPv6?) && n == 0 { return addrs.Length; }
  }
}

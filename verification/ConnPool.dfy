/**
 The connection lists of one transport pool (transport.go): active connections, connections that
 are draining after their removal, and which of them closing the pool waits for.
 */
module ConnPool {
  import opened Collections

  /** Connections are numbered in the order the pool makes them. */
  type Conn = nat

  datatype Pool = Pool(conns: seq<Conn>, removedConns: seq<Conn>, closed: bool, made: nat)

  datatype Step = NewConn | RemoveConn(c: Conn) | ConnClosed(c: Conn) | Close

  function Apply(p: Pool, step: Step): Pool {
    match step
    case NewConn => if p.closed then p else p.(conns := p.conns + [p.made], made := p.made + 1)
    case RemoveConn(c) => p.(conns := Without(p.conns, {c}), removedConns := if c in p.conns then p.removedConns + [c] else p.removedConns)
    // the code filters t.conns here, where its comment speaks of t.removedConns
    case ConnClosed(c) => p.(removedConns := Without(p.conns, {c}))
    case Close => p.(closed := true)
  }

  function After(p: Pool, steps: seq<Step>): Pool
    decreases |steps|
  {
    if steps == [] then p else After(Apply(p, steps[0]), steps[1..])
  }

  /** What `close` waits for. */
  function Waited(p: Pool): seq<Conn> {
    p.conns + p.removedConns
  }

  ghost predicate Inv(p: Pool) {
    NoDup(p.conns) && forall c :: c in p.conns ==> c < p.made
  }

  lemma StepKeepsInv(p: Pool, step: Step)
    requires Inv(p)
    ensures Inv(Apply(p, step))
    ensures forall c :: c < p.made && c !in p.conns ==> c !in Apply(p, step).conns
  {
    match step
    case NewConn => assert forall i :: 0 <= i < |p.conns| ==> p.conns[i] in p.conns;
    case RemoveConn(c) => DropOne(p.conns, c);
    case _ =>
  }

  lemma KeptMembers(conns: seq<Conn>, c: Conn)
    ensures forall d :: d in Without(conns, {c}) <==> d in conns && d != c
  {
    WithoutMembers(conns, {c});
    assert forall d :: (d in ToSet(Without(conns, {c})) <==> d in Without(conns, {c})) && (d in ToSet(conns) <==> d in conns);
  }

  lemma DropOne(conns: seq<Conn>, c: Conn)
    requires NoDup(conns)
    ensures NoDup(Without(conns, {c})) && forall d :: d in Without(conns, {c}) <==> d in conns && d != c
  {
    WithoutMembers(conns, {c});
    KeptMembers(conns, c);
  }

  lemma {:induction false} RunKeepsInv(p: Pool, steps: seq<Step>)
    requires Inv(p)
    ensures Inv(After(p, steps))
    decreases |steps|
  {
    if steps != [] {
      StepKeepsInv(p, steps[0]);
      RunKeepsInv(Apply(p, steps[0]), steps[1..]);
    }
  }

  lemma {:induction false} OnTheListIff(p: Pool, c: Conn, post: seq<Step>)
    requires Inv(p) && c < p.made && c !in p.conns
    ensures c in Waited(After(p, post)) <==> c in p.removedConns && forall i :: 0 <= i < |post| ==> !post[i].ConnClosed?
    decreases |post|
  {
    if post != [] {
      var s, rest := post[0], post[1..];
      StepKeepsInv(p, s);
      if s.ConnClosed? { DropOne(p.conns, s.c); }
      OnTheListIff(Apply(p, s), c, rest);
      assert (forall i :: 0 <= i < |post| ==> !post[i].ConnClosed?) <==>
             !s.ConnClosed? && forall i :: 0 <= i < |rest| ==> !rest[i].ConnClosed? by {
        assert forall i :: 0 <= i < |rest| ==> rest[i] == post[i + 1];
        assert forall i :: 0 < i < |post| ==> post[i] == rest[i - 1];
      }
    }
  }

  /**
   When closing the pool waits for a removed connection, exactly: whatever happens after the removal, if
   and only if no connection of the pool has finished closing in the meantime.
   */
  lemma RemovedIsWaitedForIff(p: Pool, c: Conn, post: seq<Step>)
    requires Inv(p) && c in p.conns
    ensures c in Waited(After(Apply(p, RemoveConn(c)), post)) <==> forall i :: 0 <= i < |post| ==> !post[i].ConnClosed?
  {
    StepKeepsInv(p, RemoveConn(c));
    DropOne(p.conns, c);
    OnTheListIff(Apply(p, RemoveConn(c)), c, post);
  }

  /** Two connections are removed and the first finishes closing: closing the pool does not wait for the second. */
  lemma DrainingConnIsForgotten(p: Pool)
    requires p == Pool([0, 1], [], false, 2)
    ensures var t := After(p, [RemoveConn(0), RemoveConn(1), ConnClosed(0), Close]);
            t.closed && 1 !in Waited(t)
  {
    var q := Apply(p, RemoveConn(0));
    StepKeepsInv(p, RemoveConn(0));
    DropOne(p.conns, 0);
    var post := [ConnClosed(0), Close];
    assert post[0].ConnClosed?;
    RemovedIsWaitedForIff(q, 1, post);
    var steps := [RemoveConn(0), RemoveConn(1), ConnClosed(0), Close];
    assert steps[1..] == [RemoveConn(1)] + post && ([RemoveConn(1)] + post)[1..] == post;
    assert post[1..] == [Close];
    assert After(p, steps) == After(q, [RemoveConn(1)] + post);
    assert After(Apply(q, RemoveConn(1)), post) == Apply(Apply(Apply(q, RemoveConn(1)), ConnClosed(0)), Close);
  }

  /** The fields of `transportPool` guarded by its lock; every method copies the list it changes. */
  class TransportPool {
    var conns: seq<Conn>
    var removedConns: seq<Conn>
    var closed: bool
    var made: nat

    ghost function View(): Pool
      reads this
    {
      Pool(conns, removedConns, closed, made)
    }

    constructor ()
      ensures View() == Pool([], [], false, 0)
    {
      conns, removedConns, closed, made := [], [], false, 0;
    }

    method New() returns (c: Conn, ok: bool)
      modifies this
      ensures View() == Apply(old(View()), NewConn)
      ensures ok == !old(closed) && closed == old(closed) && removedConns == old(removedConns)
      ensures conns == (if ok then old(conns) + [c] else old(conns))
      ensures ok ==> c == old(made) && made == c + 1
    {
      c, ok := made, !closed;
      if ok {
        conns := conns + [c];
        made := made + 1;
      }
    }

    method Remove(toRemove: Conn) returns (found: bool)
      modifies this
      ensures View() == Apply(old(View()), RemoveConn(toRemove)) && (found <==> toRemove in old(conns))
      ensures forall d :: d in conns <==> d in old(conns) && d != toRemove
      ensures removedConns == (if found then old(removedConns) + [toRemove] else old(removedConns))
    {
      KeptMembers(conns, toRemove);
      var newConns: seq<Conn> := [];
      found := false;
      for i := 0 to |conns|
        invariant newConns == Without(conns[..i], {toRemove}) && (found <==> toRemove in conns[..i])
      {
        assert conns[..i + 1][..i] == conns[..i] && conns[..i + 1] == conns[..i] + [conns[i]];
        if conns[i] == toRemove { found := true; } else { newConns := newConns + [conns[i]]; }
      }
      assert conns[..|conns|] == conns;
      conns := newConns;
      if !found { return; }
      removedConns := removedConns + [toRemove];
    }

    method OnConnClosed(closedConn: Conn)
      modifies this
      ensures View() == Apply(old(View()), ConnClosed(closedConn))
      ensures conns == old(conns) && forall d :: d in removedConns <==> d in old(conns) && d != closedConn
    {
      KeptMembers(conns, closedConn);
      var newRemovedConns: seq<Conn> := [];
      for i := 0 to |conns|
        invariant newRemovedConns == Without(conns[..i], {closedConn})
      {
        assert conns[..i + 1][..i] == conns[..i];
        if conns[i] != closedConn { newRemovedConns := newRemovedConns + [conns[i]]; }
      }
      assert conns[..|conns|] == conns;
      removedConns := newRemovedConns;
    }

    /** The critical section of `close`: the connections it will close and wait for. */
    method BeginClose() returns (waitFor: seq<Conn>, alreadyClosed: bool)
      modifies this
      ensures View() == Apply(old(View()), Close) && waitFor == Waited(View()) && alreadyClosed == old(closed)
      ensures closed && conns == old(conns) && removedConns == old(removedConns) && waitFor == conns + removedConns
    {
      waitFor, alreadyClosed := conns + removedConns, closed;
      closed := true;
    }
  }
}

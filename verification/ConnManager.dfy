/**
 The connection manager of balancer.go: reconciling the tracked connections with the resolver's
 addresses, host by host, and recycling connections that have reached their maximum lifetime.
 */
module ConnManager {
  import opened Collections

  type HostPort = string
  datatype Address = Address(hostPort: HostPort, attributes: int)

  class Conn {
    const hostPort: HostPort
    var attributes: int

    constructor (address: Address)
      ensures hostPort == address.hostPort && attributes == address.attributes
    {
      hostPort, attributes := address.hostPort, address.attributes;
    }
  }

  // ---------------------------------------------------------------- per-host views

  /** The addresses for one host, in order. */
  function AddrsOn(addrs: seq<Address>, h: HostPort): seq<Address> {
    if addrs == [] then []
    else AddrsOn(addrs[..|addrs| - 1], h) + (if addrs[|addrs| - 1].hostPort == h then [addrs[|addrs| - 1]] else [])
  }

  /** The connections to one host, in order. */
  function ConnsOn(conns: seq<Conn>, h: HostPort): seq<Conn> {
    if conns == [] then []
    else ConnsOn(conns[..|conns| - 1], h) + (if conns[|conns| - 1].hostPort == h then [conns[|conns| - 1]] else [])
  }

  function Min(a: nat, b: nat): (r: nat)
    ensures r <= a && r <= b && (r == a || r == b)
  {
    if a < b then a else b
  }

  function Tracked(byAddr: map<HostPort, seq<Conn>>, h: HostPort): seq<Conn> {
    if h in byAddr then byAddr[h] else []
  }

  function Wanted(desired: map<HostPort, seq<Address>>, h: HostPort): seq<Address> {
    if h in desired then desired[h] else []
  }

  /** The wanted addresses of every host. */
  ghost predicate Groups(desired: map<HostPort, seq<Address>>, addrs: seq<Address>) {
    forall h :: Wanted(desired, h) == AddrsOn(addrs, h)
  }

  lemma {:induction false} AddrsOnConcat(a: seq<Address>, b: seq<Address>, h: HostPort)
    ensures AddrsOn(a + b, h) == AddrsOn(a, h) + AddrsOn(b, h)
  {
    if b == [] {
      assert a + b == a;
    } else {
      AddrsOnConcat(a, b[..|b| - 1], h);
      assert (a + b)[..|a + b| - 1] == a + b[..|b| - 1];
    }
  }

  lemma {:induction false} ConnsOnConcat(a: seq<Conn>, b: seq<Conn>, h: HostPort)
    ensures ConnsOn(a + b, h) == ConnsOn(a, h) + ConnsOn(b, h)
  {
    if b == [] {
      assert a + b == a;
    } else {
      ConnsOnConcat(a, b[..|b| - 1], h);
      assert (a + b)[..|a + b| - 1] == a + b[..|b| - 1];
    }
  }

  lemma {:induction false} AddrsOnOneHost(addrs: seq<Address>, g: HostPort, h: HostPort)
    requires forall i :: 0 <= i < |addrs| ==> addrs[i].hostPort == g
    ensures AddrsOn(addrs, h) == if g == h then addrs else []
  {
    if addrs != [] {
      AddrsOnOneHost(addrs[..|addrs| - 1], g, h);
      assert addrs == addrs[..|addrs| - 1] + [addrs[|addrs| - 1]];
    }
  }

  lemma {:induction false} ConnsOnOneHost(conns: seq<Conn>, g: HostPort, h: HostPort)
    requires forall i :: 0 <= i < |conns| ==> conns[i].hostPort == g
    ensures ConnsOn(conns, h) == if g == h then conns else []
  {
    if conns != [] {
      ConnsOnOneHost(conns[..|conns| - 1], g, h);
      assert conns == conns[..|conns| - 1] + [conns[|conns| - 1]];
    }
  }

  lemma {:induction false} AddrsOnHosts(addrs: seq<Address>, h: HostPort)
    ensures forall i :: 0 <= i < |AddrsOn(addrs, h)| ==> AddrsOn(addrs, h)[i].hostPort == h
    ensures AddrsOn(addrs, h) != [] ==> exists i :: 0 <= i < |addrs| && addrs[i].hostPort == h
  {
    if addrs != [] {
      AddrsOnHosts(addrs[..|addrs| - 1], h);
    }
  }

  // ---------------------------------------------------------------- the manager

  ghost predicate UnderOwnHost(byAddr: map<HostPort, seq<Conn>>) {
    forall h :: h in byAddr ==> NoDup(byAddr[h]) && forall i :: 0 <= i < |byAddr[h]| ==> byAddr[h][i].hostPort == h
  }

  /** A Go slice of connections: the first `len` slots of its backing array. */
  datatype Slice = Slice(data: array<Conn?>, len: nat)

  ghost predicate Mirrors(s: Slice, list: seq<Conn>)
    reads s.data
  {
    s.len <= s.data.Length && s.data[..s.len] == list
  }

  ghost function ArraysOf(slices: map<HostPort, Slice>): set<array<Conn?>> {
    set h | h in slices :: slices[h].data
  }

  /** The slices hold the lists, and no two hosts share a backing array. */
  ghost predicate Represents(slices: map<HostPort, Slice>, lists: map<HostPort, seq<Conn>>)
    reads ArraysOf(slices)
  {
    slices.Keys == lists.Keys && Separate(slices) && forall h :: h in slices ==> Mirrors(slices[h], lists[h])
  }

  ghost predicate Separate(slices: map<HostPort, Slice>) {
    forall g, h :: g in slices && h in slices && g != h ==> slices[g].data != slices[h].data
  }

  lemma ReplaceSlice(slices: map<HostPort, Slice>, lists: map<HostPort, seq<Conn>>, h: HostPort, s: Slice, list: seq<Conn>)
    requires slices.Keys == lists.Keys && Separate(slices) && Mirrors(s, list)
    requires forall g :: g in slices && g != h ==> Mirrors(slices[g], lists[g]) && slices[g].data != s.data
    ensures Represents(slices[h := s], lists[h := list])
  {
    hide Mirrors;
  }

  lemma SameArrays(slices: map<HostPort, Slice>, lists: map<HostPort, seq<Conn>>, remaining: map<HostPort, Slice>, kept: map<HostPort, seq<Conn>>)
    requires Represents(slices, lists) && remaining.Keys == kept.Keys == slices.Keys
    requires forall h :: h in remaining ==> Mirrors(remaining[h], kept[h]) && remaining[h].data == slices[h].data
    ensures Represents(remaining, kept) && ArraysOf(remaining) == ArraysOf(slices)
  {
    hide Mirrors;
    forall h | h in slices ensures slices[h].data in ArraysOf(remaining) && remaining[h].data in ArraysOf(slices) {
      assert remaining[h].data == slices[h].data;
    }
  }

  lemma ArraysAfterUpdate(slices: map<HostPort, Slice>, h: HostPort, s: Slice)
    ensures ArraysOf(slices[h := s]) <= ArraysOf(slices) + {s.data}
    ensures h in slices && slices[h].data == s.data ==> ArraysOf(slices[h := s]) == ArraysOf(slices)
  {
    var next := slices[h := s];
    forall g | g in slices && g != h ensures slices[g].data in ArraysOf(next) {
      assert next[g] == slices[g];
    }
    assert next[h] == s;
  }

  class Manager {
    var connsByAddr: map<HostPort, Slice>
    /** What the slices hold. */
    ghost var lists: map<HostPort, seq<Conn>>

    ghost function Backing(): set<array<Conn?>>
      reads this
    {
      ArraysOf(connsByAddr)
    }

    /** Every connection is tracked once, under its own host, in slices of the hosts' own. */
    ghost predicate Valid()
      reads this, Backing()
    {
      UnderOwnHost(lists) && Represents(connsByAddr, lists)
    }

    ghost function All(): set<Conn>
      reads this
    {
      set h, i | h in lists && 0 <= i < |lists[h]| :: lists[h][i]
    }

    constructor ()
      ensures Valid() && connsByAddr == map[] && lists == map[]
    {
      connsByAddr, lists := map[], map[];
    }

    static lemma Reads(s: Slice, list: seq<Conn>)
      ensures Mirrors(s, list) <==> s.len <= s.data.Length && s.data[..s.len] == list
    {
    }

    /** Deletes a slot in place: the later connections move up, and the vacated slot is set to nil. */
    static method Delete(data: array<Conn?>, len: nat, k: nat)
      requires k < len <= data.Length
      modifies data
      ensures data[..len - 1] == old(data[..k]) + old(data[k + 1..len]) && data[len - 1] == null && data[len..] == old(data[len..])
    {
      for i := k to len - 1
        invariant forall j :: 0 <= j < i ==> data[j] == if j < k then old(data[j]) else old(data[j + 1])
        invariant forall j :: i <= j < data.Length ==> data[j] == old(data[j])
      {
        data[i] := data[i + 1];
      }
      data[len - 1] := null;
    }

    /** The same for a host's list. */
    method RemoveAt(h: HostPort, k: nat)
      requires Valid() && h in connsByAddr && k < connsByAddr[h].len
      modifies `connsByAddr, `lists, connsByAddr[h].data
      ensures Valid() && Backing() == old(Backing())
      ensures lists == old(lists)[h := old(lists[h])[..k] + old(lists[h])[k + 1..]]
    {
      hide UnderOwnHost, Mirrors;
      var existing := connsByAddr[h];
      ghost var list := lists[h];
      Reads(existing, list);
      Delete(existing.data, existing.len, k);
      DeletedKeeps(lists, h, k);
      var shorter := Slice(existing.data, existing.len - 1);
      assert Mirrors(shorter, list[..k] + list[k + 1..]) by { Reads(shorter, list[..k] + list[k + 1..]); }
      assert forall g :: g in connsByAddr && g != h ==> Mirrors(connsByAddr[g], lists[g]);
      ArraysAfterUpdate(connsByAddr, h, shorter);
      ReplaceSlice(connsByAddr, lists, h, shorter, list[..k] + list[k + 1..]);
      hide Represents, Separate, ArraysOf;
      connsByAddr, lists := connsByAddr[h := shorter], lists[h := list[..k] + list[k + 1..]];
    }

    /** Go's `append`: in place while there is capacity, else into a larger copy. */
    method Append(h: HostPort, c: Conn)
      requires Valid() && c.hostPort == h && c !in Tracked(lists, h)
      modifies `connsByAddr, `lists, Backing()
      ensures Valid() && fresh(Backing() - old(Backing()))
      ensures lists == old(lists)[h := Tracked(old(lists), h) + [c]]
    {
      hide UnderOwnHost, Mirrors;
      ghost var list := Tracked(lists, h);
      var data, n := Room(h);
      data[n] := c;
      var longer := Slice(data, n + 1);
      assert Mirrors(longer, list + [c]) by { Reads(longer, list + [c]); }
      AddedKeeps(lists, h, c);
      assert forall g :: g in connsByAddr && g != h ==> Mirrors(connsByAddr[g], lists[g]);
      ArraysAfterUpdate(connsByAddr, h, longer);
      ReplaceSlice(connsByAddr, lists, h, longer, list + [c]);
      hide Represents, Separate, ArraysOf;
      connsByAddr, lists := connsByAddr[h := longer], lists[h := list + [c]];
    }

    /** A host's list in an array with a slot to spare: its own, or a new one. */
    method Room(h: HostPort) returns (data: array<Conn?>, n: nat)
      requires Valid()
      ensures n < data.Length && data[..n] == Tracked(lists, h)
      ensures fresh(data) || (h in connsByAddr && data == connsByAddr[h].data)
    {
      if h in connsByAddr {
        data, n := connsByAddr[h].data, connsByAddr[h].len;
        if n == data.Length { data := Grown(data); }
      } else {
        data, n := new Conn?[1], 0;
      }
    }

    static method Grown(data: array<Conn?>) returns (grown: array<Conn?>)
      ensures fresh(grown) && grown.Length > data.Length && grown[..data.Length] == data[..]
    {
      grown := new Conn?[2 * data.Length + 1](i reads data => if 0 <= i < data.Length then data[i] else null);
    }

    /** Group the resolver's addresses by host. */
    method Partition(addrs: seq<Address>) returns (desired: map<HostPort, seq<Address>>)
      ensures Groups(desired, addrs)
    {
      desired := map[];
      for i := 0 to |addrs|
        invariant forall h :: Wanted(desired, h) == AddrsOn(addrs[..i], h)
      {
        assert addrs[..i + 1][..i] == addrs[..i];
        desired := desired[addrs[i].hostPort := Wanted(desired, addrs[i].hostPort) + [addrs[i]]];
      }
      assert addrs[..|addrs|] == addrs;
    }

    /** Give the first connections of a host the attributes of its first wanted addresses. */
    static method SyncAttributes(got: Slice, want: seq<Address>, ghost list: seq<Conn>)
      requires Mirrors(got, list) && NoDup(list)
      modifies (set i | 0 <= i < |list| :: list[i])`attributes
      ensures forall i :: 0 <= i < Min(|list|, |want|) ==> list[i].attributes == want[i].attributes
      ensures forall i :: Min(|list|, |want|) <= i < |list| ==> list[i].attributes == old(list[i].attributes)
    {
      for i := 0 to Min(got.len, |want|)
        invariant forall j :: 0 <= j < i ==> list[j].attributes == want[j].attributes
        invariant forall j :: i <= j < |list| ==> list[j].attributes == old(list[j].attributes)
      {
        var c := got.data[i];
        assert c == list[i];
        c.attributes := want[i].attributes;
      }
    }

    /** The same for a tracked host, touching no other connection, and what the host keeps, has too much of and lacks. */
    method PlanOne(h: HostPort, want: seq<Address>) returns (keep: Slice, surplus: seq<Conn>, lack: seq<Address>)
      requires Valid() && h in connsByAddr && h in lists
      modifies All()`attributes
      ensures Valid()
      ensures var n := Min(|lists[h]|, |want|);
              Mirrors(keep, lists[h][..n]) && keep.data == connsByAddr[h].data && surplus == lists[h][n..] && lack == want[n..]
      ensures forall i :: 0 <= i < Min(|lists[h]|, |want|) ==> lists[h][i].attributes == want[i].attributes
      ensures forall g, i :: g in lists && 0 <= i < |lists[g]| && (g == h ==> |want| <= i) ==>
                lists[g][i].attributes == old(lists[g][i].attributes)
    {
      hide Represents, Mirrors;
      HostSlice(h);
      var got := connsByAddr[h];
      ghost var list := lists[h];
      Reads(got, list);
      SyncAttributes(got, want, list);
      if |want| > got.len {
        keep, surplus, lack := got, [], want[got.len..];
        assert list[..got.len] == list;
      } else {
        keep := Slice(got.data, |want|);
        surplus, lack := NonNull(got.data[|want|..got.len]), [];
        assert got.data[..got.len][|want|..] == got.data[|want|..got.len] && got.data[..got.len][..|want|] == got.data[..|want|];
      }
      Reads(keep, list[..Min(|list|, |want|)]);
    }

    /** The loop over the tracked hosts; a kept slice is a prefix of the old one, on the same backing array. */
    method PlanTracked(desired: map<HostPort, seq<Address>>, ghost addrs: seq<Address>)
      returns (newAddrs: seq<Address>, toRemove: seq<Conn>, remaining: map<HostPort, Slice>, ghost kept: map<HostPort, seq<Conn>>)
      requires Valid() && Groups(desired, addrs)
      modifies All()`attributes
      ensures Represents(remaining, kept) && ArraysOf(remaining) == Backing()
      ensures forall h :: Tracked(kept, h) == Kept(lists, addrs, h)
      ensures forall h :: ConnsOn(toRemove, h) == Surplus(lists, addrs, h)
      ensures Requested(lists, addrs, lists.Keys, newAddrs)
      ensures forall h, i :: h in lists && 0 <= i < |lists[h]| ==>
                lists[h][i].attributes == if i < |AddrsOn(addrs, h)| then AddrsOn(addrs, h)[i].attributes else old(lists[h][i].attributes)
    {
      hide AddrsOn, ConnsOn, Planned, UnderOwnHost, Represents, Mirrors;
      SameKeys();
      newAddrs, toRemove, remaining, kept := [], [], map[], map[];
      NothingPlanned(lists, addrs);
      var todo := connsByAddr.Keys;
      while todo != {}
        invariant Valid() && todo <= connsByAddr.Keys && remaining.Keys == kept.Keys == connsByAddr.Keys - todo
        invariant forall h :: h in remaining ==> Mirrors(remaining[h], kept[h]) && remaining[h].data == connsByAddr[h].data
        invariant Planned(lists, addrs, lists.Keys - todo, newAddrs, toRemove, kept)
        invariant forall h, i :: h in lists && 0 <= i < |lists[h]| ==>
                    lists[h][i].attributes == if h !in todo && i < |AddrsOn(addrs, h)| then AddrsOn(addrs, h)[i].attributes
                                              else old(lists[h][i].attributes)
        decreases todo
      {
        var h :| h in todo;
        var want := Wanted(desired, h);
        var keep, surplus, lack := PlanOne(h, want);
        PlanHost(lists, addrs, lists.Keys - todo, newAddrs, toRemove, kept, h);
        assert lists.Keys - todo + {h} == lists.Keys - (todo - {h});
        remaining := remaining[h := keep];
        kept := kept[h := lists[h][..Min(|lists[h]|, |want|)]];
        newAddrs := newAddrs + lack;
        toRemove := toRemove + surplus;
        todo := todo - {h};
      }
      assert lists.Keys - todo == lists.Keys;
      PlannedAll(lists, addrs, newAddrs, toRemove, kept);
      SameArrays(connsByAddr, lists, remaining, kept);
    }

    /** The loop over the hosts that are wanted but not tracked yet. */
    method PlanNew(desired: map<HostPort, seq<Address>>, addrs0: seq<Address>, ghost addrs: seq<Address>) returns (newAddrs: seq<Address>)
      requires Valid() && Groups(desired, addrs)
      requires Requested(lists, addrs, lists.Keys, addrs0)
      ensures forall h :: AddrsOn(newAddrs, h) == Lacking(lists, addrs, h)
    {
      hide AddrsOn, Lacking, Requested, Represents, UnderOwnHost;
      SameKeys();
      newAddrs := addrs0;
      var hosts := desired.Keys - connsByAddr.Keys;
      ghost var done := lists.Keys;
      while hosts != {}
        invariant hosts <= desired.Keys - connsByAddr.Keys && done == lists.Keys + desired.Keys - hosts
        invariant Requested(lists, addrs, done, newAddrs)
        decreases hosts
      {
        var h :| h in hosts;
        assert desired[h] == Wanted(desired, h);
        RequestHost(lists, addrs, done, newAddrs, h);
        newAddrs := newAddrs + desired[h];
        hosts, done := hosts - {h}, done + {h};
      }
      forall h | h !in done ensures AddrsOn(addrs, h) == [] {
        assert Wanted(desired, h) == [];
      }
      RequestedAll(lists, addrs, done, newAddrs);
    }

    /**
     The first part of `reconcileAddresses`. Host by host: the first min(got, want) connections are
     kept, in order, with the attributes of the first wanted addresses; the other connections are to be
     removed; the other addresses need new connections.
     */
    method Plan(addrs: seq<Address>) returns (newAddrs: seq<Address>, toRemove: seq<Conn>)
      requires Valid()
      modifies `connsByAddr, `lists, All()`attributes
      ensures Valid() && Backing() == old(Backing())
      ensures forall h :: Tracked(lists, h) == Kept(old(lists), addrs, h)
      ensures forall h :: ConnsOn(toRemove, h) == Surplus(old(lists), addrs, h)
      ensures forall h :: AddrsOn(newAddrs, h) == Lacking(old(lists), addrs, h)
      ensures forall h, i :: h in old(lists) && 0 <= i < |old(lists)[h]| ==>
                old(lists)[h][i].attributes == if i < |AddrsOn(addrs, h)| then AddrsOn(addrs, h)[i].attributes else old(lists[h][i].attributes)
    {
      hide AddrsOn, ConnsOn, Kept, Surplus, Lacking, Tracked, UnderOwnHost, Represents;
      var remaining: map<HostPort, Slice>;
      ghost var kept: map<HostPort, seq<Conn>>;
      newAddrs, toRemove, remaining, kept := PlanAll(addrs);
      KeptUnderOwnHost(lists, addrs, kept);
      connsByAddr, lists := remaining, kept;
    }

    /** Both loops, before the fields are replaced. */
    method PlanAll(addrs: seq<Address>)
      returns (newAddrs: seq<Address>, toRemove: seq<Conn>, remaining: map<HostPort, Slice>, ghost kept: map<HostPort, seq<Conn>>)
      requires Valid()
      modifies All()`attributes
      ensures UnderOwnHost(lists) && Represents(remaining, kept) && ArraysOf(remaining) == Backing()
      ensures forall h :: Tracked(kept, h) == Kept(lists, addrs, h)
      ensures forall h :: ConnsOn(toRemove, h) == Surplus(lists, addrs, h)
      ensures forall h :: AddrsOn(newAddrs, h) == Lacking(lists, addrs, h)
      ensures forall h, i :: h in lists && 0 <= i < |lists[h]| ==>
                lists[h][i].attributes == if i < |AddrsOn(addrs, h)| then AddrsOn(addrs, h)[i].attributes else old(lists[h][i].attributes)
    {
      hide AddrsOn, ConnsOn, Kept, Surplus, Lacking, Groups;
      assert Represents(connsByAddr, lists);
      var desired := Partition(addrs);
      assert Valid();
      hide Represents, UnderOwnHost;
      newAddrs, toRemove, remaining, kept := PlanTracked(desired, addrs);
      newAddrs := PlanNew(desired, newAddrs, addrs);
    }

    /**
     `doUpdate`, with the pool's creations inlined: `ok` says for which requests the pool makes a
     connection. The new connections join their hosts in order.
     */
    method DoUpdate(newAddrs: seq<Address>, ok: nat -> bool) returns (newConns: seq<Conn>)
      requires Valid()
      modifies `connsByAddr, `lists, Backing()
      ensures Valid() && fresh(Backing() - old(Backing())) && fresh(set c | c in newConns)
      ensures forall h :: Tracked(lists, h) == Tracked(old(lists), h) + ConnsOn(newConns, h)
      ensures forall h :: SameAddresses(ConnsOn(newConns, h), AddrsOn(Granted(newAddrs, ok), h))
    {
      hide ConnsOn, AddrsOn, Granted, SameAddresses, UnderOwnHost, Joined, Represents;
      ghost var before := lists;
      newConns := CreateConns(newAddrs, ok);
      forall i | 0 <= i < |newConns| ensures newConns[i] !in Tracked(before, newConns[i].hostPort) {
        assert fresh(newConns[i]) by { assert newConns[i] in set c | c in newConns; }
      }
      NothingJoined(before, newConns[..0]);
      for i := 0 to |newConns|
        invariant Valid() && fresh(Backing() - old(Backing()))
        invariant Joined(before, lists, newConns[..i]) && SameAddresses(newConns, Granted(newAddrs, ok))
      {
        JoinOne(before, lists, newConns, i);
        Append(newConns[i].hostPort, newConns[i]);
      }
      assert newConns[..|newConns|] == newConns;
      forall h ensures Tracked(lists, h) == Tracked(before, h) + ConnsOn(newConns, h) {
        AllJoined(before, lists, newConns, h);
      }
      forall h ensures SameAddresses(ConnsOn(newConns, h), AddrsOn(Granted(newAddrs, ok), h)) {
        SameAddressesOn(newConns, Granted(newAddrs, ok), h);
      }
    }

    /**
     `reconcileAddresses`. Afterwards each host tracks its kept connections followed by the
     connections the pool granted for its missing addresses; if it granted all of them, the per-host
     counts are the resolver's.
     */
    method Reconcile(addrs: seq<Address>, ok: nat -> bool) returns (newAddrs: seq<Address>, toRemove: seq<Conn>, newConns: seq<Conn>)
      requires Valid()
      modifies `connsByAddr, `lists, Backing(), All()`attributes
      ensures Valid() && fresh(Backing() - old(Backing())) && fresh(set c | c in newConns) && All() <= old(All()) + set c | c in newConns
      ensures forall h :: ConnsOn(toRemove, h) == Surplus(old(lists), addrs, h)
      ensures forall h :: AddrsOn(newAddrs, h) == Lacking(old(lists), addrs, h)
      ensures forall h :: Tracked(lists, h) == Kept(old(lists), addrs, h) + ConnsOn(newConns, h)
      ensures forall h :: SameAddresses(ConnsOn(newConns, h), AddrsOn(Granted(newAddrs, ok), h))
      ensures (forall i :: 0 <= i < |newAddrs| ==> ok(i)) ==> forall h :: |Tracked(lists, h)| == |AddrsOn(addrs, h)|
      ensures forall h, i :: h in old(lists) && 0 <= i < |old(lists)[h]| ==>
                old(lists)[h][i].attributes == if i < |AddrsOn(addrs, h)| then AddrsOn(addrs, h)[i].attributes else old(lists[h][i].attributes)
    {
      hide AddrsOn, ConnsOn, Kept, Surplus, Lacking, Granted, Represents, UnderOwnHost;
      newAddrs, toRemove := Plan(addrs);
      newConns := DoUpdate(newAddrs, ok);
      forall h, i | h in lists && 0 <= i < |lists[h]| ensures lists[h][i] in old(All()) || lists[h][i] in newConns {
        Shares(old(lists), addrs, h);
        ConnsOnMembers(newConns, h);
        assert lists[h] == Tracked(lists, h);
      }
      forall h | Granted(newAddrs, ok) == newAddrs ensures |Tracked(lists, h)| == |AddrsOn(addrs, h)| {
        Shares(old(lists), addrs, h);
      }
      GrantedOn(newAddrs, ok, "");
    }

    /**
     Reconciling twice with the same addresses: the second round removes nothing and asks, per host, for
     the wanted addresses past those kept and granted in the first: the first round's requests without
     as many as the pool granted.
     */
    method ReconcileTwice(addrs: seq<Address>, ok1: nat -> bool, ok2: nat -> bool)
      returns (asked1: seq<Address>, asked2: seq<Address>, removed2: seq<Conn>)
      requires Valid()
      modifies `connsByAddr, `lists, Backing(), All()`attributes
      ensures removed2 == []
      ensures forall h :: var granted := |AddrsOn(Granted(asked1, ok1), h)|;
                granted <= |AddrsOn(asked1, h)| && AddrsOn(asked2, h) == AddrsOn(asked1, h)[granted..]
    {
      var removed1: seq<Conn>, made1: seq<Conn>, made2: seq<Conn>;
      hide AddrsOn, ConnsOn, Granted, Kept, Surplus, Lacking, SameAddresses, Represents, UnderOwnHost;
      asked1, removed1, made1 := Reconcile(addrs, ok1);
      ghost var before, now := old(lists), lists;
      forall h ensures StillLacking(now, addrs, asked1, Granted(asked1, ok1), h) {
        assert SameAddresses(ConnsOn(made1, h), AddrsOn(Granted(asked1, ok1), h));
        GrantedOn(asked1, ok1, h);
        SecondRound(before, now, addrs, asked1, ConnsOn(made1, h), Granted(asked1, ok1), h);
      }
      asked2, removed2, made2 := Reconcile(addrs, ok2);
      forall h ensures var granted := |AddrsOn(Granted(asked1, ok1), h)|;
        granted <= |AddrsOn(asked1, h)| && AddrsOn(asked2, h) == AddrsOn(asked1, h)[granted..] && ConnsOn(removed2, h) == [] {
        assert StillLacking(now, addrs, asked1, Granted(asked1, ok1), h);
      }
      NoConnsAnywhere(removed2);
    }

    /** Where a connection is in a list, by linear search. */
    static method Find(existing: Slice, c: Conn, ghost list: seq<Conn>) returns (found: bool, k: nat)
      requires Mirrors(existing, list)
      ensures found <==> c in list
      ensures found ==> k < |list| && list[k] == c
    {
      found, k := false, 0;
      while k < existing.len
        invariant k <= |list| && c !in list[..k]
      {
        if existing.data[k] == c { found := true; return; }
        k := k + 1;
      }
    }

    /**
     The first loop of `recycleConns`: every tracked connection of the batch is taken out of its host's
     list, and an entry that is not tracked (any more) is set to nil.
     */
    method Untrack(batch: array<Conn?>) returns (needToCompact: bool)
      requires Valid() && batch !in Backing() && forall i :: 0 <= i < batch.Length ==> batch[i] != null
      modifies `connsByAddr, `lists, Backing(), batch
      ensures Valid() && fresh(Backing() - old(Backing()))
      ensures Untracked(old(lists), lists, Recycled(NonNull(old(batch[..])), old(All())))
      ensures batch[..] == Marked(NonNull(old(batch[..])), old(All()))
      ensures !needToCompact ==> forall i :: 0 <= i < batch.Length ==> batch[i] != null
    {
      hide Marked, Recycled, NonNull, Untracked, UnderOwnHost, Represents, Mirrors;
      ghost var input, all, before := NonNull(batch[..]), All(), lists;
      assert forall c :: c in all <==> c in Tracked(before, c.hostPort) by { AllAreTracked(); }
      needToCompact := false;
      NothingRecycled(input[..0], all, before);
      for i := 0 to batch.Length
        invariant Valid() && Backing() == old(Backing()) && Untracked(before, lists, Recycled(input[..i], all))
        invariant batch[..i] == Marked(input[..i], all) && forall k :: i <= k < batch.Length ==> batch[k] == input[k]
        invariant !needToCompact ==> forall k :: 0 <= k < i ==> batch[k] != null
      {
        var c := batch[i];
        var h := c.hostPort;
        var found, k := false, 0;
        HostSlice(h);
        if h in connsByAddr { found, k := Find(connsByAddr[h], c, lists[h]); }
        ghost var front := Recycled(input[..i], all);
        RecycleStep(input, i, all);
        StillTracked(before, lists, front, c);
        if found {
          UntrackOne(before, lists, front, c, k);
          RemoveAt(h, k);
        } else {
          batch[i] := null;
          needToCompact := true;
        }
        assert batch[..i + 1] == batch[..i] + [batch[i]];
      }
      assert input[..batch.Length] == input && batch[..batch.Length] == batch[..];
      assert Untracked(before, lists, Recycled(input, all));
    }

    lemma SameKeys()
      requires Valid()
      ensures connsByAddr.Keys == lists.Keys
    {
    }

    lemma HostSlice(h: HostPort)
      requires Valid()
      ensures h in connsByAddr <==> h in lists
      ensures h in lists ==> Mirrors(connsByAddr[h], lists[h]) && connsByAddr[h].len == |lists[h]| && connsByAddr[h].data in Backing()
    {
    }

    lemma AllAreTracked()
      requires Valid()
      ensures forall c :: c in All() <==> c in Tracked(lists, c.hostPort)
    {
    }

    /** The second loop: squeeze out the nil entries, in place. */
    method Compact(batch: array<Conn?>, ghost input: seq<Conn>, ghost all: set<Conn>) returns (n: nat)
      requires batch[..] == Marked(input, all)
      modifies batch
      ensures n == |Recycled(input, all)| <= batch.Length
      ensures forall i :: 0 <= i < n ==> batch[i] == Recycled(input, all)[i]
    {
      hide Marked, Recycled;
      ghost var marked := batch[..];
      n := 0;
      NothingRecycled(input[..0], all, map[]);
      for i := 0 to batch.Length
        invariant n == |Recycled(input[..i], all)| <= i
        invariant forall k :: 0 <= k < n ==> batch[k] == Recycled(input[..i], all)[k]
        invariant forall k :: i <= k < batch.Length ==> batch[k] == marked[k]
      {
        RecycleStep(input, i, all);
        MarkedAt(input, i, all);
        var c := batch[i];
        if c != null {
          batch[n] := c;
          n := n + 1;
        }
      }
      assert input[..batch.Length] == input;
    }

    /** Both loops: the connections to recycle, and the lists without them. */
    method TakeOut(batch: array<Conn?>) returns (toRemove: seq<Conn>, anything: bool)
      requires Valid() && batch !in Backing() && forall i :: 0 <= i < batch.Length ==> batch[i] != null
      modifies `connsByAddr, `lists, Backing(), batch
      ensures Valid() && fresh(Backing() - old(Backing()))
      ensures toRemove == Recycled(NonNull(old(batch[..])), old(All())) && (!anything ==> toRemove == [])
      ensures forall h :: Tracked(lists, h) == Without(Tracked(old(lists), h), ToSet(toRemove))
    {
      hide Marked, Without, Recycled, NonNull, Represents, UnderOwnHost;
      ghost var input, all := NonNull(batch[..]), All();
      var needToCompact := Untrack(batch);
      var n := batch.Length;
      if needToCompact {
        n := Compact(batch, input, all);
      } else {
        NoneDropped(input, all);
      }
      toRemove := NonNull(batch[..n]);
      assert toRemove == Recycled(input, all);
      anything := !needToCompact || n > 0;
    }

    /**
     `recycleConns`. Each tracked connection of the batch is removed once, whatever repeats or stale
     entries the batch holds, and a replacement with the same address is requested for each; if the
     pool grants them all, no host's count changes.
     */
    method Recycle(batch: array<Conn?>, ok: nat -> bool) returns (newAddrs: seq<Address>, toRemove: seq<Conn>, newConns: seq<Conn>)
      requires Valid() && batch !in Backing() && forall i :: 0 <= i < batch.Length ==> batch[i] != null
      modifies `connsByAddr, `lists, Backing(), batch
      ensures Valid() && fresh(Backing() - old(Backing()))
      ensures toRemove == Recycled(NonNull(old(batch[..])), old(All()))
      ensures SameAddresses(toRemove, newAddrs)
      ensures forall h :: Tracked(lists, h) == Without(Tracked(old(lists), h), ToSet(toRemove)) + ConnsOn(newConns, h)
      ensures forall h :: SameAddresses(ConnsOn(newConns, h), AddrsOn(Granted(newAddrs, ok), h))
      ensures (forall i :: 0 <= i < |newAddrs| ==> ok(i)) ==> forall h :: |Tracked(lists, h)| == |Tracked(old(lists), h)|
    {
      hide Without, Recycled, NonNull, AddrsOn, ConnsOn, Granted, Represents;
      ghost var input, all, before := NonNull(batch[..]), All(), lists;
      assert forall c :: c in all ==> c in Tracked(before, c.hostPort);
      var anything;
      toRemove, anything := TakeOut(batch);
      forall h ensures |Without(Tracked(before, h), ToSet(toRemove))| + |ConnsOn(toRemove, h)| == |Tracked(before, h)| {
        RecycledOnce(input, all);
        assert forall c :: c in toRemove ==> c in ToSet(toRemove);
        RecycledCounts(Tracked(before, h), toRemove, h);
      }
      newAddrs, newConns := [], [];
      if anything {
        newAddrs := AddressesOf(toRemove);
        newConns := DoUpdate(newAddrs, ok);
      }
      FinishRecycle(toRemove, newAddrs, newConns, ok, anything);
    }

    /** `Address()` of each connection. */
    static method AddressesOf(conns: seq<Conn>) returns (addrs: seq<Address>)
      ensures SameAddresses(conns, addrs)
    {
      addrs := [];
      for i := 0 to |conns|
        invariant |addrs| == i && forall k :: 0 <= k < i ==> addrs[k] == Address(conns[k].hostPort, conns[k].attributes)
      {
        addrs := addrs + [Address(conns[i].hostPort, conns[i].attributes)];
      }
    }

    /** The pool's part of `updateFunc`: a new connection for each address it accepts. */
    method CreateConns(newAddrs: seq<Address>, ok: nat -> bool) returns (newConns: seq<Conn>)
      ensures fresh(set c | c in newConns) && NoDup(newConns) && SameAddresses(newConns, Granted(newAddrs, ok))
    {
      newConns := [];
      for i := 0 to |newAddrs|
        invariant fresh(set c | c in newConns) && NoDup(newConns)
        invariant SameAddresses(newConns, Granted(newAddrs[..i], ok))
      {
        assert newAddrs[..i + 1][..i] == newAddrs[..i];
        if ok(i) {
          var c := new Conn(newAddrs[i]);
          newConns := newConns + [c];
        }
      }
      assert newAddrs[..|newAddrs|] == newAddrs;
    }
  }

  // ---------------------------------------------------------------- recycling

  function NonNull(conns: seq<Conn?>): (r: seq<Conn>)
    requires forall i :: 0 <= i < |conns| ==> conns[i] != null
    ensures |r| == |conns| && forall i :: 0 <= i < |conns| ==> r[i] == conns[i]
  {
    if conns == [] then [] else NonNull(conns[..|conns| - 1]) + [conns[|conns| - 1]]
  }

  /** The entries of a batch that get recycled: the tracked ones, each at its first occurrence. */
  function Recycled(batch: seq<Conn>, tracked: set<Conn>): seq<Conn> {
    if batch == [] then []
    else
      var n := |batch| - 1;
      var front := Recycled(batch[..n], tracked);
      if batch[n] in tracked && batch[n] !in front then front + [batch[n]] else front
  }

  /** The batch with every other entry set to nil. */
  function Marked(batch: seq<Conn>, tracked: set<Conn>): (r: seq<Conn?>)
    ensures |r| == |batch|
  {
    if batch == [] then []
    else
      var n := |batch| - 1;
      Marked(batch[..n], tracked) + [if batch[n] in tracked && batch[n] !in Recycled(batch[..n], tracked) then batch[n] else null]
  }

  lemma DeletedKeeps(lists: map<HostPort, seq<Conn>>, h: HostPort, k: nat)
    requires UnderOwnHost(lists) && h in lists && k < |lists[h]|
    ensures UnderOwnHost(lists[h := lists[h][..k] + lists[h][k + 1..]])
  {
    var list := lists[h];
    var shorter := list[..k] + list[k + 1..];
    assert forall i :: 0 <= i < |shorter| ==> shorter[i] == list[if i < k then i else i + 1];
  }

  lemma AddedKeeps(lists: map<HostPort, seq<Conn>>, h: HostPort, c: Conn)
    requires UnderOwnHost(lists) && c.hostPort == h && c !in Tracked(lists, h)
    ensures UnderOwnHost(lists[h := Tracked(lists, h) + [c]])
  {
  }

  lemma NothingRecycled(batch: seq<Conn>, all: set<Conn>, byAddr: map<HostPort, seq<Conn>>)
    requires batch == []
    ensures Recycled(batch, all) == [] && Marked(batch, all) == []
    ensures Untracked(byAddr, byAddr, Recycled(batch, all))
  {
    forall h ensures Tracked(byAddr, h) == Without(Tracked(byAddr, h), {}) {
      WithoutNone(Tracked(byAddr, h));
    }
    assert ToSet(Recycled(batch, all)) == {};
  }

  lemma RecycleStep(input: seq<Conn>, i: nat, all: set<Conn>)
    requires i < |input|
    ensures var front := Recycled(input[..i], all);
            var recycle := input[i] in all && input[i] !in front;
            && Recycled(input[..i + 1], all) == (if recycle then front + [input[i]] else front)
            && Marked(input[..i + 1], all) == Marked(input[..i], all) + [if recycle then input[i] else null]
  {
    assert input[..i + 1][..i] == input[..i];
  }

  lemma {:induction false} MarkedAt(input: seq<Conn>, i: nat, all: set<Conn>)
    requires i < |input|
    ensures Marked(input, all)[i] == if input[i] in all && input[i] !in Recycled(input[..i], all) then input[i] else null
    decreases |input|
  {
    var n := |input| - 1;
    if i < n {
      MarkedAt(input[..n], i, all);
      assert input[..n][..i] == input[..i];
    }
  }

  /** Every host's list without certain connections, in order. */
  ghost predicate Untracked(before: map<HostPort, seq<Conn>>, now: map<HostPort, seq<Conn>>, gone: seq<Conn>) {
    forall h :: Tracked(now, h) == Without(Tracked(before, h), ToSet(gone))
  }

  lemma StillTracked(before: map<HostPort, seq<Conn>>, now: map<HostPort, seq<Conn>>, gone: seq<Conn>, c: Conn)
    requires Untracked(before, now, gone)
    ensures c in Tracked(now, c.hostPort) <==> c in Tracked(before, c.hostPort) && c !in gone
  {
    hide Without;
    var was, left := Tracked(before, c.hostPort), Tracked(now, c.hostPort);
    WithoutMembers(was, ToSet(gone));
    assert (c in left <==> c in ToSet(left)) && (c in was <==> c in ToSet(was)) && (c in gone <==> c in ToSet(gone));
  }

  /** Deleting one more slot from one host's list. */
  lemma UntrackOne(before: map<HostPort, seq<Conn>>, now: map<HostPort, seq<Conn>>, front: seq<Conn>, c: Conn, k: nat)
    requires UnderOwnHost(before) && UnderOwnHost(now) && Untracked(before, now, front)
    requires k < |Tracked(now, c.hostPort)| && Tracked(now, c.hostPort)[k] == c
    ensures var existing := Tracked(now, c.hostPort);
            var next := now[c.hostPort := existing[..k] + existing[k + 1..]];
            UnderOwnHost(next) && Untracked(before, next, front + [c])
  {
    hide Without;
    var g := c.hostPort;
    assert ToSet(front + [c]) == ToSet(front) + {c};
    assert NoDup(Tracked(before, g));
    WithoutOneMore(Tracked(before, g), ToSet(front), c, k);
    forall h | h != g ensures Without(Tracked(before, h), ToSet(front) + {c}) == Without(Tracked(before, h), ToSet(front)) {
      WithoutAbsent(Tracked(before, h), ToSet(front), c);
    }
  }

  /** Recycling takes each tracked connection of the batch exactly once and nothing else. */
  lemma {:induction false} RecycledOnce(batch: seq<Conn>, tracked: set<Conn>)
    ensures NoDup(Recycled(batch, tracked)) && ToSet(Recycled(batch, tracked)) == ToSet(batch) * tracked
  {
    if batch != [] {
      var n := |batch| - 1;
      RecycledOnce(batch[..n], tracked);
      assert ToSet(batch) == ToSet(batch[..n]) + {batch[n]} by { assert batch == batch[..n] + [batch[n]]; }
      var front := Recycled(batch[..n], tracked);
      assert ToSet(front + [batch[n]]) == ToSet(front) + {batch[n]};
      assert batch[n] in front <==> batch[n] in ToSet(front);
    }
  }

  lemma {:induction false} NoneDropped(input: seq<Conn>, all: set<Conn>)
    requires forall i :: 0 <= i < |input| ==> Marked(input, all)[i] != null
    ensures Recycled(input, all) == input && forall i :: 0 <= i < |input| ==> Marked(input, all)[i] == input[i]
  {
    if input != [] {
      var n := |input| - 1;
      assert forall i :: 0 <= i < n ==> Marked(input, all)[i] == Marked(input[..n], all)[i];
      NoneDropped(input[..n], all);
      assert Marked(input, all)[n] != null;
      assert input == input[..n] + [input[n]];
    }
  }

  lemma {:induction false} ConnsOnSet(conns: seq<Conn>, h: HostPort)
    ensures ToSet(ConnsOn(conns, h)) == set c | c in conns && c.hostPort == h
    ensures NoDup(conns) ==> NoDup(ConnsOn(conns, h))
  {
    if conns != [] {
      var n := |conns| - 1;
      var front := conns[..n];
      ConnsOnSet(front, h);
      assert conns == front + [conns[n]];
      assert ToSet(ConnsOn(conns, h)) == ToSet(ConnsOn(front, h)) + (if conns[n].hostPort == h then {conns[n]} else {});
      if NoDup(conns) {
        assert forall i, j :: 0 <= i < j < n ==> front[i] == conns[i] && front[j] == conns[j];
        assert conns[n] !in front by { assert forall i :: 0 <= i < n ==> front[i] == conns[i]; }
        var w := ConnsOn(front, h);
        forall i | 0 <= i < |w| ensures w[i] != conns[n] {
          assert w[i] in ToSet(w);
        }
      }
    }
  }

  /** Replacements, host by host, when all are granted; and nothing at all when there is nothing to recycle. */
  lemma FinishRecycle(toRemove: seq<Conn>, newAddrs: seq<Address>, newConns: seq<Conn>, ok: nat -> bool, anything: bool)
    requires SameAddresses(toRemove, newAddrs)
    requires !anything ==> newAddrs == [] && newConns == []
    ensures !anything ==> forall h :: ConnsOn(newConns, h) == [] && AddrsOn(Granted(newAddrs, ok), h) == []
    ensures (forall i :: 0 <= i < |newAddrs| ==> ok(i)) ==> Granted(newAddrs, ok) == newAddrs
    ensures forall h :: |ConnsOn(toRemove, h)| == |AddrsOn(newAddrs, h)|
  {
    hide AddrsOn, ConnsOn;
    forall h ensures |ConnsOn(toRemove, h)| == |AddrsOn(newAddrs, h)| {
      SameAddressesOn(toRemove, newAddrs, h);
    }
    GrantedOn(newAddrs, ok, "");
    NothingOn([], []);
  }

  /** A host loses as many connections as are recycled on it. */
  lemma RecycledCounts(s: seq<Conn>, r: seq<Conn>, h: HostPort)
    requires NoDup(s) && NoDup(r) && (forall c :: c in s ==> c.hostPort == h)
    requires forall c :: c in r && c.hostPort == h ==> c in s
    ensures |Without(s, ToSet(r))| + |ConnsOn(r, h)| == |s|
  {
    hide Without, ConnsOn;
    var w, o := Without(s, ToSet(r)), ConnsOn(r, h);
    WithoutMembers(s, ToSet(r));
    ConnsOnSet(r, h);
    NoDupCard(s);
    NoDupCard(w);
    NoDupCard(o);
    assert ToSet(s) == ToSet(w) + ToSet(o);
    assert ToSet(w) !! ToSet(o);
  }

  lemma {:induction false} ConnsOnMembers(conns: seq<Conn>, h: HostPort)
    ensures forall i :: 0 <= i < |ConnsOn(conns, h)| ==> ConnsOn(conns, h)[i] in conns
  {
    if conns != [] {
      ConnsOnMembers(conns[..|conns| - 1], h);
    }
  }

  lemma NoConnsAnywhere(conns: seq<Conn>)
    ensures (forall h :: ConnsOn(conns, h) == []) <==> conns == []
  {
    if conns != [] {
      assert ConnsOn(conns, conns[|conns| - 1].hostPort) != [];
    }
  }

  lemma ConnsOnSnoc(conns: seq<Conn>, c: Conn)
    ensures forall h :: ConnsOn(conns + [c], h) == ConnsOn(conns, h) + (if c.hostPort == h then [c] else [])
  {
    assert (conns + [c])[..|conns|] == conns;
  }

  /** Every host's list with its share of some connections at the end. */
  ghost predicate Joined(before: map<HostPort, seq<Conn>>, now: map<HostPort, seq<Conn>>, added: seq<Conn>) {
    forall h :: Tracked(now, h) == Tracked(before, h) + ConnsOn(added, h)
  }

  lemma NothingJoined(before: map<HostPort, seq<Conn>>, added: seq<Conn>)
    requires added == []
    ensures Joined(before, before, added)
  {
  }

  lemma AllJoined(before: map<HostPort, seq<Conn>>, now: map<HostPort, seq<Conn>>, added: seq<Conn>, h: HostPort)
    requires Joined(before, now, added)
    ensures Tracked(now, h) == Tracked(before, h) + ConnsOn(added, h)
  {
  }

  lemma JoinOne(before: map<HostPort, seq<Conn>>, now: map<HostPort, seq<Conn>>, added: seq<Conn>, i: nat)
    requires i < |added| && NoDup(added) && UnderOwnHost(now) && Joined(before, now, added[..i])
    requires added[i] !in Tracked(before, added[i].hostPort)
    ensures var h := added[i].hostPort;
            added[i] !in Tracked(now, h) && Joined(before, now[h := Tracked(now, h) + [added[i]]], added[..i + 1])
  {
    hide ConnsOn, NoDup, Tracked, UnderOwnHost, Joined;
    var c := added[i];
    assert added[..i + 1] == added[..i] + [c];
    ConnsOnSnoc(added[..i], c);
    NotAmong(added, i);
    AllJoined(before, now, added[..i], c.hostPort);
    JoinedSnoc(before, now, added[..i], c);
  }

  lemma JoinedSnoc(before: map<HostPort, seq<Conn>>, now: map<HostPort, seq<Conn>>, added: seq<Conn>, c: Conn)
    requires Joined(before, now, added)
    ensures Joined(before, now[c.hostPort := Tracked(now, c.hostPort) + [c]], added + [c])
  {
    hide ConnsOn;
    ConnsOnSnoc(added, c);
  }

  lemma NotAmong(added: seq<Conn>, i: nat)
    requires i < |added| && NoDup(added)
    ensures added[i] !in ConnsOn(added[..i], added[i].hostPort)
  {
    hide ConnsOn;
    ConnsOnMembers(added[..i], added[i].hostPort);
    forall k | 0 <= k < i ensures added[..i][k] != added[i] {
    }
  }

  lemma {:induction false} SameAddressesOn(conns: seq<Conn>, addrs: seq<Address>, h: HostPort)
    requires SameAddresses(conns, addrs)
    ensures SameAddresses(ConnsOn(conns, h), AddrsOn(addrs, h))
  {
    if conns != [] {
      SameAddressesOn(conns[..|conns| - 1], addrs[..|addrs| - 1], h);
    }
  }

  /** The requested addresses for which the pool makes a connection; `ok(i)` is its answer to the i-th request. */
  function Granted(addrs: seq<Address>, ok: nat -> bool): seq<Address> {
    if addrs == [] then []
    else
      var n := |addrs| - 1;
      Granted(addrs[..n], ok) + (if ok(n) then [addrs[n]] else [])
  }

  /** The requests before the n-th that were met. */
  ghost function Met(ok: nat -> bool, n: nat): set<nat> {
    set j: nat | j < n && ok(j)
  }

  lemma MetStep(ok: nat -> bool, n: nat)
    ensures Met(ok, 0) == {} && |Met(ok, n + 1)| == |Met(ok, n)| + (if ok(n) then 1 else 0)
  {
    assert Met(ok, n + 1) == Met(ok, n) + (if ok(n) then {n} else {});
  }

  lemma {:induction false} GrantedCount(addrs: seq<Address>, ok: nat -> bool)
    ensures |Granted(addrs, ok)| == |Met(ok, |addrs|)|
  {
    MetStep(ok, if addrs == [] then 0 else |addrs| - 1);
    if addrs != [] {
      hide Met;
      GrantedCount(addrs[..|addrs| - 1], ok);
    }
  }

  /**
   The granted addresses are those whose requests were met, and no others, in the order of the requests: as many as
   requests were met, and the address of a request that was met stands behind those met before it.
   */
  lemma GrantedIs(addrs: seq<Address>, ok: nat -> bool, i: nat)
    requires i < |addrs| && ok(i)
    ensures |Granted(addrs, ok)| == |set j: nat | j < |addrs| && ok(j)|
    ensures var n := |set j: nat | j < i && ok(j)|; n < |Granted(addrs, ok)| && Granted(addrs, ok)[n] == addrs[i]
  {
    GrantedCount(addrs, ok);
    assert Met(ok, |addrs|) == set j: nat | j < |addrs| && ok(j);
    assert Met(ok, i) == set j: nat | j < i && ok(j);
    hide Met;
    GrantedAt(addrs, ok, i);
  }

  lemma {:induction false} GrantedAt(addrs: seq<Address>, ok: nat -> bool, i: nat)
    requires i < |addrs| && ok(i)
    ensures |Met(ok, i)| < |Granted(addrs, ok)| && Granted(addrs, ok)[|Met(ok, i)|] == addrs[i]
  {
    hide Met;
    var n := |addrs| - 1;
    if i < n {
      GrantedAt(addrs[..n], ok, i);
    } else {
      GrantedCount(addrs[..n], ok);
    }
  }

  lemma {:induction false} GrantedOn(addrs: seq<Address>, ok: nat -> bool, h: HostPort)
    ensures |AddrsOn(Granted(addrs, ok), h)| <= |AddrsOn(addrs, h)|
    ensures (forall i :: 0 <= i < |addrs| ==> ok(i)) ==> Granted(addrs, ok) == addrs
  {
    if addrs != [] {
      var n := |addrs| - 1;
      var front, last := addrs[..n], [addrs[n]];
      assert addrs == front + last;
      hide AddrsOn;
      GrantedOn(front, ok, h);
      AddrsOnConcat(front, last, h);
      AddrsOnConcat(Granted(front, ok), last, h);
      assert Granted(addrs, ok) == if ok(n) then Granted(front, ok) + last else Granted(front, ok);
    }
  }

  /** Position by position, the connections were made for the addresses. */
  ghost predicate SameAddresses(conns: seq<Conn>, addrs: seq<Address>)
    reads set i | 0 <= i < |conns| :: conns[i]
  {
    |conns| == |addrs| && forall i :: 0 <= i < |conns| ==> conns[i].hostPort == addrs[i].hostPort && conns[i].attributes == addrs[i].attributes
  }

  function Kept(byAddr: map<HostPort, seq<Conn>>, addrs: seq<Address>, h: HostPort): seq<Conn> {
    Tracked(byAddr, h)[..Min(|Tracked(byAddr, h)|, |AddrsOn(addrs, h)|)]
  }

  function Surplus(byAddr: map<HostPort, seq<Conn>>, addrs: seq<Address>, h: HostPort): seq<Conn> {
    Tracked(byAddr, h)[Min(|Tracked(byAddr, h)|, |AddrsOn(addrs, h)|)..]
  }

  function Lacking(byAddr: map<HostPort, seq<Conn>>, addrs: seq<Address>, h: HostPort): seq<Address> {
    AddrsOn(addrs, h)[Min(|Tracked(byAddr, h)|, |AddrsOn(addrs, h)|)..]
  }

  lemma Shares(byAddr: map<HostPort, seq<Conn>>, addrs: seq<Address>, h: HostPort)
    ensures var got, want := Tracked(byAddr, h), AddrsOn(addrs, h);
            var n := Min(|got|, |want|);
            Kept(byAddr, addrs, h) == got[..n] && Surplus(byAddr, addrs, h) == got[n..] && Lacking(byAddr, addrs, h) == want[n..]
  {
  }

  /** What one host lacks after a round in which `granted` of the requests were met. */
  ghost predicate StillLacking(now: map<HostPort, seq<Conn>>, addrs: seq<Address>, asked: seq<Address>, granted: seq<Address>, h: HostPort) {
    && |AddrsOn(granted, h)| <= |AddrsOn(asked, h)|
    && Lacking(now, addrs, h) == AddrsOn(asked, h)[|AddrsOn(granted, h)|..] && Surplus(now, addrs, h) == []
  }

  lemma SecondRound(before: map<HostPort, seq<Conn>>, now: map<HostPort, seq<Conn>>, addrs: seq<Address>, asked: seq<Address>,
                    made: seq<Conn>, granted: seq<Address>, h: HostPort)
    requires AddrsOn(asked, h) == Lacking(before, addrs, h) && SameAddresses(made, AddrsOn(granted, h))
    requires Tracked(now, h) == Kept(before, addrs, h) + made && |AddrsOn(granted, h)| <= |AddrsOn(asked, h)|
    ensures StillLacking(now, addrs, asked, granted, h)
  {
    hide AddrsOn;
    Shares(before, addrs, h);
    Shares(now, addrs, h);
  }

  lemma HostShares(byAddr: map<HostPort, seq<Conn>>, addrs: seq<Address>, h: HostPort)
    requires h in byAddr
    ensures var n := Min(|byAddr[h]|, |AddrsOn(addrs, h)|);
            Kept(byAddr, addrs, h) == byAddr[h][..n] && Surplus(byAddr, addrs, h) == byAddr[h][n..] && Lacking(byAddr, addrs, h) == AddrsOn(addrs, h)[n..]
  {
    hide AddrsOn;
    Shares(byAddr, addrs, h);
  }

  /** The requests so far, when what the hosts in `done` lack has been asked for. */
  ghost predicate Requested(byAddr: map<HostPort, seq<Conn>>, addrs: seq<Address>, done: set<HostPort>, newAddrs: seq<Address>) {
    forall h :: RequestedOn(byAddr, addrs, done, newAddrs, h)
  }

  ghost predicate RequestedOn(byAddr: map<HostPort, seq<Conn>>, addrs: seq<Address>, done: set<HostPort>, newAddrs: seq<Address>, h: HostPort) {
    AddrsOn(newAddrs, h) == if h in done then Lacking(byAddr, addrs, h) else []
  }

  lemma RequestHost(byAddr: map<HostPort, seq<Conn>>, addrs: seq<Address>, done: set<HostPort>, newAddrs: seq<Address>, h: HostPort)
    requires Requested(byAddr, addrs, done, newAddrs) && h !in done && h !in byAddr
    ensures Requested(byAddr, addrs, done + {h}, newAddrs + AddrsOn(addrs, h))
  {
    hide AddrsOn;
    var more := AddrsOn(addrs, h);
    assert more[0..] == more;
    forall g ensures RequestedOn(byAddr, addrs, done + {h}, newAddrs + more, g) {
      assert RequestedOn(byAddr, addrs, done, newAddrs, g);
      AppendOnHost(h, newAddrs, more, [], [], addrs, 0, g);
    }
  }

  lemma RequestedAll(byAddr: map<HostPort, seq<Conn>>, addrs: seq<Address>, done: set<HostPort>, newAddrs: seq<Address>)
    requires Requested(byAddr, addrs, done, newAddrs) && byAddr.Keys <= done
    requires forall h :: h !in done ==> AddrsOn(addrs, h) == []
    ensures forall h :: AddrsOn(newAddrs, h) == Lacking(byAddr, addrs, h)
  {
    hide AddrsOn;
    forall h ensures AddrsOn(newAddrs, h) == Lacking(byAddr, addrs, h) {
      assert RequestedOn(byAddr, addrs, done, newAddrs, h);
    }
  }

  lemma KeptUnderOwnHost(byAddr: map<HostPort, seq<Conn>>, addrs: seq<Address>, kept: map<HostPort, seq<Conn>>)
    requires UnderOwnHost(byAddr) && forall h :: Tracked(kept, h) == Kept(byAddr, addrs, h)
    ensures UnderOwnHost(kept)
  {
    hide AddrsOn;
    forall h | h in kept ensures NoDup(kept[h]) && forall i :: 0 <= i < |kept[h]| ==> kept[h][i].hostPort == h {
      assert kept[h] == Tracked(kept, h) == Kept(byAddr, addrs, h);
    }
  }

  lemma UntrackedShares(byAddr: map<HostPort, seq<Conn>>, addrs: seq<Address>)
    ensures forall h :: h !in byAddr ==> Kept(byAddr, addrs, h) == [] && Surplus(byAddr, addrs, h) == []
  {
  }

  /** The plan so far, when the hosts in `done` have been looked at. */
  ghost predicate Planned(byAddr: map<HostPort, seq<Conn>>, addrs: seq<Address>, done: set<HostPort>,
                          newAddrs: seq<Address>, toRemove: seq<Conn>, remaining: map<HostPort, seq<Conn>>) {
    remaining.Keys == done && forall h :: PlannedOn(byAddr, addrs, newAddrs, toRemove, remaining, h)
  }

  ghost predicate PlannedOn(byAddr: map<HostPort, seq<Conn>>, addrs: seq<Address>,
                            newAddrs: seq<Address>, toRemove: seq<Conn>, remaining: map<HostPort, seq<Conn>>, h: HostPort) {
    if h in remaining then
      remaining[h] == Kept(byAddr, addrs, h) && ConnsOn(toRemove, h) == Surplus(byAddr, addrs, h) && AddrsOn(newAddrs, h) == Lacking(byAddr, addrs, h)
    else
      ConnsOn(toRemove, h) == [] && AddrsOn(newAddrs, h) == []
  }

  lemma NothingPlanned(byAddr: map<HostPort, seq<Conn>>, addrs: seq<Address>)
    ensures Planned(byAddr, addrs, byAddr.Keys - byAddr.Keys, [], [], map[])
  {
    NothingOn([], []);
  }

  lemma PlanHost(byAddr: map<HostPort, seq<Conn>>, addrs: seq<Address>, done: set<HostPort>,
                 newAddrs: seq<Address>, toRemove: seq<Conn>, remaining: map<HostPort, seq<Conn>>, h: HostPort)
    requires Planned(byAddr, addrs, done, newAddrs, toRemove, remaining) && h in byAddr && h !in done
    requires UnderOwnHost(byAddr)
    ensures var got, want := byAddr[h], AddrsOn(addrs, h);
            var n := Min(|got|, |want|);
            Planned(byAddr, addrs, done + {h}, newAddrs + want[n..], toRemove + got[n..], remaining[h := got[..n]])
  {
    hide AddrsOn, ConnsOn, Kept, Surplus, Lacking, Min;
    var n := Min(|byAddr[h]|, |AddrsOn(addrs, h)|);
    MinBounds(|byAddr[h]|, |AddrsOn(addrs, h)|);
    var more, surplus := AddrsOn(addrs, h)[n..], byAddr[h][n..];
    HostShares(byAddr, addrs, h);
    var newAddrs', toRemove', remaining' := newAddrs + more, toRemove + surplus, remaining[h := byAddr[h][..n]];
    forall g ensures PlannedOn(byAddr, addrs, newAddrs', toRemove', remaining', g) {
      assert PlannedOn(byAddr, addrs, newAddrs, toRemove, remaining, g);
      AppendOnHost(h, newAddrs, more, toRemove, surplus, addrs, n, g);
    }
  }

  lemma MinBounds(a: nat, b: nat)
    ensures Min(a, b) <= a && Min(a, b) <= b
  {
  }

  lemma PlannedAll(byAddr: map<HostPort, seq<Conn>>, addrs: seq<Address>, newAddrs: seq<Address>, toRemove: seq<Conn>, remaining: map<HostPort, seq<Conn>>)
    requires Planned(byAddr, addrs, byAddr.Keys, newAddrs, toRemove, remaining)
    ensures forall h :: Tracked(remaining, h) == Kept(byAddr, addrs, h)
    ensures forall h :: ConnsOn(toRemove, h) == Surplus(byAddr, addrs, h)
    ensures Requested(byAddr, addrs, byAddr.Keys, newAddrs)
  {
    hide AddrsOn, ConnsOn, Kept, Surplus, Lacking;
    UntrackedShares(byAddr, addrs);
    forall h ensures Tracked(remaining, h) == Kept(byAddr, addrs, h) && ConnsOn(toRemove, h) == Surplus(byAddr, addrs, h)
      && RequestedOn(byAddr, addrs, byAddr.Keys, newAddrs, h) {
      assert PlannedOn(byAddr, addrs, newAddrs, toRemove, remaining, h);
    }
  }

  lemma NothingOn(addrs: seq<Address>, conns: seq<Conn>)
    requires addrs == [] && conns == []
    ensures forall h :: AddrsOn(addrs, h) == [] && ConnsOn(conns, h) == []
  {
  }

  /** Appending one host's share changes the view of that host only. */
  lemma AppendOnHost(g: HostPort, newAddrs: seq<Address>, more: seq<Address>, toRemove: seq<Conn>, surplus: seq<Conn>, addrs: seq<Address>, n: nat, h: HostPort)
    requires forall i :: 0 <= i < |surplus| ==> surplus[i].hostPort == g
    requires n <= |AddrsOn(addrs, g)| && more == AddrsOn(addrs, g)[n..]
    ensures AddrsOn(newAddrs + more, h) == AddrsOn(newAddrs, h) + (if h == g then more else [])
    ensures ConnsOn(toRemove + surplus, h) == ConnsOn(toRemove, h) + (if h == g then surplus else [])
  {
    hide AddrsOn, ConnsOn;
    AddrsOnHosts(addrs, g);
    AddrsOnConcat(newAddrs, more, h);
    AddrsOnOneHost(more, g, h);
    ConnsOnConcat(toRemove, surplus, h);
    ConnsOnOneHost(surplus, g, h);
  }
}

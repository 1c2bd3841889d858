/**
 What the operations of picker/leastloaded.go do to the heap, as functions on sequences of
 (item, load, tieBreak) entries, and what follows from them.
 */
module LeastLoadedSpec {
  import opened GoHeap

  /** The identity of a `conn.Conn` value. */
  type Conn = nat

  const TWO_64: int := 0x1_0000_0000_0000_0000
  type Uint64 = x: int | 0 <= x < TWO_64

  class ConnItem {
    const conn: Conn
    var load: Uint64
    var tieBreak: Uint64
    var index: int

    constructor (conn: Conn, index: int)
      ensures this.conn == conn && load == 0 && tieBreak == 0 && this.index == index
    {
      this.conn, this.index, load, tieBreak := conn, index, 0, 0;
    }
  }

  type Slot = Entry<ConnItem>

  function Snapshot(item: ConnItem): Slot
    reads item
  {
    Entry(item, item.load, item.tieBreak)
  }

  ghost function ItemsOf(v: seq<Slot>): set<ConnItem>
  {
    set k | 0 <= k < |v| :: v[k].item
  }

  ghost function ConnsOf(v: seq<Slot>): seq<Conn>
  {
    seq(|v|, k requires 0 <= k < |v| => v[k].item.conn)
  }

  ghost function ItemConns(v: seq<Slot>): set<Conn>
  {
    set k | 0 <= k < |v| :: v[k].item.conn
  }

  lemma SwapKeepsItems(v: seq<Slot>, i: nat, j: nat)
    requires i < |v| && j < |v|
    ensures ItemsOf(Swap(v, i, j)) == ItemsOf(v)
  {
    var s := Swap(v, i, j);
    forall k | 0 <= k < |v| ensures v[k].item in ItemsOf(s) {
      assert v[k] == s[if k == i then j else if k == j then i else k];
    }
  }

  lemma UpdateKeepsItems(v: seq<Slot>, k: nat, e: Slot)
    requires k < |v| && e.item == v[k].item
    ensures ItemsOf(v[k := e]) == ItemsOf(v)
  {
    forall i | 0 <= i < |v| ensures v[i].item in ItemsOf(v[k := e]) {
      assert v[k := e][i].item == v[i].item;
    }
  }

  lemma NothingAdded(v: seq<Slot>)
    requires v == []
    ensures ItemsOf(v) == {} && ItemConns(v) == {} && ConnsOf(v) == []
  {
  }

  lemma AppendedSlot(v: seq<Slot>, e: Slot)
    ensures ItemsOf(v + [e]) == ItemsOf(v) + {e.item}
    ensures ItemConns(v + [e]) == ItemConns(v) + {e.item.conn}
    ensures ConnsOf(v + [e]) == ConnsOf(v) + [e.item.conn]
  {
    forall k | 0 <= k < |v| ensures v[k].item in ItemsOf(v + [e]) && v[k].item.conn in ItemConns(v + [e]) {
      assert (v + [e])[k] == v[k];
    }
    assert (v + [e])[|v|] == e;
  }

  /** `load++` and `load--` on an unsigned 64-bit field. */
  function Inc(load: int): Uint64 { (load + 1) % TWO_64 }

  function Dec(load: int): Uint64 { (load - 1) % TWO_64 }

  function Acquire(v: seq<Slot>, tie: Uint64): (r: seq<Slot>)
    requires v != []
    ensures |r| == |v|
  {
    Fix(v[0 := Entry(v[0].item, Inc(v[0].major), tie)], 0)
  }

  function ReleaseAt(v: seq<Slot>, k: nat): (r: seq<Slot>)
    requires k < |v|
    ensures |r| == |v|
  {
    Fix(v[k := Entry(v[k].item, Dec(v[k].major), v[k].minor)], k)
  }

  /** `bits.Len` */
  function BitsLen(n: nat): (r: nat)
    ensures n > 0 ==> r > 0
  {
    if n == 0 then 0 else 1 + BitsLen(n / 2)
  }

  /** The compaction loop: which entries survive, in order, and which wanted connections have no item yet. */
  function Compact(v: seq<Slot>, wanted: set<Conn>): (r: (seq<Slot>, set<Conn>))
    ensures |r.0| <= |v| && r.1 <= wanted
  {
    if v == [] then ([], wanted) else
      var (kept, missing) := Compact(v[..|v| - 1], wanted);
      var e := v[|v| - 1];
      if e.item.conn in missing then (kept + [e], missing - {e.item.conn}) else (kept, missing)
  }

  lemma CompactOfNothing(v: seq<Slot>, wanted: set<Conn>)
    requires v == []
    ensures Compact(v, wanted) == ([], wanted)
  {
  }

  lemma CompactStep(v: seq<Slot>, i: nat, wanted: set<Conn>)
    requires i < |v|
    ensures var (kept, missing) := Compact(v[..i], wanted);
            Compact(v[..i + 1], wanted) ==
            if v[i].item.conn in missing then (kept + [v[i]], missing - {v[i].item.conn}) else (kept, missing)
  {
    assert v[..i + 1][..i] == v[..i];
  }

  lemma {:induction false} CompactKeepsEntries(v: seq<Slot>, wanted: set<Conn>)
    ensures forall e :: e in Compact(v, wanted).0 ==> e in v
  {
    if v != [] {
      CompactKeepsEntries(v[..|v| - 1], wanted);
    }
  }

  function Elements(conns: seq<Conn>): (r: set<Conn>)
    ensures conns != [] ==> conns[0] in r
  {
    set c | c in conns
  }

  /** Whether `update` takes the path that pushes the newcomers and returns. */
  predicate Pushes(before: nat, kept: nat, missing: nat)
    requires kept == before ==> kept + missing > 0
  {
    kept == before && missing <= (kept + missing) / BitsLen(kept + missing)
  }

  ghost predicate Newcomers(added: seq<Slot>, conns: seq<Conn>)
  {
    |added| == |conns| && forall i :: 0 <= i < |added| ==> added[i] == Entry(added[i].item, 0, 0) && added[i].item.conn == conns[i]
  }

  /** `update`, given the items it makes for the missing connections: `h.Push` appends, it does not sift up. */
  function UpdateResult(v: seq<Slot>, wanted: set<Conn>, added: seq<Slot>): seq<Slot>
    requires v != [] || wanted != {}
    requires |added| == |Compact(v, wanted).1|
  {
    var (kept, missing) := Compact(v, wanted);
    if Pushes(|v|, |kept|, |missing|) then kept + added else Init(kept + added)
  }

}

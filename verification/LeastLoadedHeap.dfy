/**
 The index-carrying heap of connections of picker/leastloaded.go: a backing array that is
 swapped, compacted and appended in place, and items whose `load`, `tieBreak` and `index`
 fields are updated in place. Every method is proved equal to a function on `view`, the
 sequence of (item, load, tieBreak) entries; what those functions promise is in LeastLoadedSpec.
 */
module LeastLoadedHeap {
  import opened GoHeap
  import opened LeastLoadedSpec

  class ConnHeap {
    /** The backing array of the Go slice; its length is the slice's capacity. */
    var slots: array<ConnItem?>
    var len: nat
    ghost var view: seq<Slot>

    ghost function Items(): set<ConnItem>
      reads this
    {
      ItemsOf(view)
    }

    /** `view` mirrors the first `len` slots, every item knows its slot, and slots from `limit` on are nil. */
    ghost predicate ValidUpTo(limit: nat)
      reads this, slots, Items()
    {
      && |view| == len <= slots.Length
      && (forall i :: 0 <= i < len ==> slots[i] == view[i].item)
      && (forall i :: 0 <= i < len ==> view[i].item.index == i && view[i] == Snapshot(view[i].item))
      && (forall i :: len <= i < slots.Length && limit <= i ==> slots[i] == null)
    }

    /** No slot past the end pins an item. */
    ghost predicate Valid()
      reads this, slots, Items()
    {
      ValidUpTo(len)
    }

    method Less(i: nat, j: nat) returns (r: bool)
      requires Valid() && i < len && j < len
      ensures r == Before(view[i], view[j])
    {
      var a, b := slots[i], slots[j];
      r := if a.load == b.load then a.tieBreak < b.tieBreak else a.load < b.load;
    }

    method Swap(i: nat, j: nat)
      requires Valid() && i < len && j < len
      modifies `view, slots, view[i].item`index, view[j].item`index
      ensures Valid() && Items() == old(Items())
      ensures view == GoHeap.Swap(old(view), i, j)
    {
      slots[i], slots[j] := slots[j], slots[i];
      slots[i].index := i;
      slots[j].index := j;
      view := GoHeap.Swap(view, i, j);
      SwapKeepsItems(old(view), i, j);
    }

    method Up(j0: nat)
      requires Valid() && j0 < len
      modifies `view, slots, Items()`index
      ensures Valid() && Items() == old(Items())
      ensures view == GoHeap.Up(old(view), j0)
    {
      var j: nat := j0;
      while true
        invariant j < len && Valid() && Items() == old(Items())
        invariant GoHeap.Up(view, j) == GoHeap.Up(old(view), j0)
        decreases j
      {
        var i := Parent(j);
        if i == j { break; }
        var less := Less(j, i);
        if !less { break; }
        Swap(i, j);
        j := i;
      }
    }

    method Down(i0: nat) returns (moved: bool)
      requires Valid() && i0 < len
      modifies `view, slots, Items()`index
      ensures Valid() && Items() == old(Items())
      ensures view == GoHeap.Down(old(view), i0).0 && (moved <==> GoHeap.Down(old(view), i0).1 > i0)
    {
      hide GoHeap.Down;
      var i: nat := i0;
      while true
        invariant i0 <= i < len && Valid() && Items() == old(Items())
        invariant GoHeap.Down(view, i) == GoHeap.Down(old(view), i0)
        decreases len - i
      {
        var j1 := 2 * i + 1;
        if j1 >= len { break; }
        var j := j1;
        var j2 := j1 + 1;
        if j2 < len {
          var less := Less(j2, j1);
          if less { j := j2; }
        }
        assert j == SmallerChild(view, i);
        var less := Less(j, i);
        if !less { break; }
        DownUnfolds(view, i);
        Swap(i, j);
        i := j;
      }
      DownUnfolds(view, i);
      moved := i > i0;
    }

    method Fix(i: nat)
      requires Valid() && i < len
      modifies `view, slots, Items()`index
      ensures Valid() && Items() == old(Items())
      ensures view == GoHeap.Fix(old(view), i)
    {
      var moved := Down(i);
      if !moved { Up(i); }
    }

    method Init()
      requires Valid()
      modifies `view, slots, Items()`index
      ensures Valid() && Items() == old(Items())
      ensures view == GoHeap.Init(old(view))
    {
      hide GoHeap.Down;
      var i: nat := len / 2;
      while i > 0
        invariant i <= len / 2 && Valid() && Items() == old(Items())
        invariant InitFrom(view, i) == GoHeap.Init(old(view))
      {
        i := i - 1;
        var _ := Down(i);
      }
    }

    /** `newConnHeap` */
    constructor (allConns: seq<Conn>)
      ensures Valid() && fresh(slots) && fresh(Items())
      ensures exists added :: Newcomers(added, allConns) && view == GoHeap.Init(added)
    {
      slots := new ConnItem?[|allConns|](i => null);
      len := 0;
      view := [];
      new;
      for i := 0 to |allConns|
        invariant len == i && Valid() && slots.Length == |allConns|
        invariant fresh(slots) && fresh(Items())
        invariant Newcomers(view, allConns[..i])
      {
        var _ := AppendNew(allConns[i], len);
      }
      assert allConns[..|allConns|] == allConns;
      Init();
    }

    /** Go's `append` of a new item: in place while there is capacity, else into a larger copy. */
    method AppendNew(conn: Conn, ghost limit: nat) returns (item: ConnItem)
      requires ValidUpTo(limit) && len <= limit
      modifies `slots, `len, `view, slots
      ensures ValidUpTo(if limit == old(len) then len else limit)
      ensures len == old(len) + 1 && (slots == old(slots) || fresh(slots))
      ensures old(len) < old(slots.Length) ==> slots == old(slots)
      ensures fresh(item) && item.conn == conn && view == old(view) + [Entry(item, 0, 0)]
      ensures Items() == old(Items()) + {item}
    {
      item := new ConnItem(conn, len);
      if len == slots.Length {
        var grown := new ConnItem?[2 * len + 1](i reads this, slots => if 0 <= i < len && len == slots.Length then slots[i] else null);
        slots := grown;
      }
      slots[len] := item;
      len := len + 1;
      AppendedSlot(view, Entry(item, 0, 0));
      view := view + [Entry(item, 0, 0)];
    }

    /** The first loop of `update`: pack the survivors to the front and tell each other item that it is out. */
    method CompactLoop(wanted: set<Conn>) returns (missing: set<Conn>, j: nat, ghost kept: seq<Slot>)
      requires Valid()
      modifies slots, Items()`index
      ensures (kept, missing) == Compact(view, wanted) && |kept| == j <= len
      ensures forall k :: 0 <= k < j ==> slots[k] == kept[k].item && kept[k].item.index == k
      ensures forall k :: len <= k < slots.Length ==> slots[k] == null
      ensures forall k :: 0 <= k < len ==> Settled(view[k].item, kept)
    {
      hide Compact, Snapshot;
      kept, missing, j := [], wanted, 0;
      CompactOfNothing(view[..0], wanted);
      for i := 0 to len
        invariant |kept| == j <= i && (kept, missing) == Compact(view[..i], wanted)
        invariant forall k :: 0 <= k < j ==> slots[k] == kept[k].item && kept[k].item.index == k
        invariant forall k :: i <= k < len ==> slots[k] == view[k].item && view[k].item.index == k
        invariant forall k :: len <= k < slots.Length ==> slots[k] == null
        invariant forall k :: 0 <= k < i ==> Settled(view[k].item, kept)
      {
        CompactStep(view, i, wanted);
        var item := slots[i];
        if item.conn in missing {
          missing := missing - {item.conn};
          kept := kept + [view[i]];
          if i != j {
            item.index := j;
            slots[j] := item;
          }
          j := j + 1;
        } else {
          item.index := -1;
        }
      }
      assert view[..len] == view;
    }

    static ghost predicate Settled(item: ConnItem, kept: seq<Slot>)
      reads item
    {
      item.index == -1 || (0 <= item.index < |kept| && kept[item.index].item == item)
    }

    method CompactInPlace(wanted: set<Conn>) returns (missing: set<Conn>)
      requires Valid()
      modifies `view, `len, slots, Items()`index
      ensures ValidUpTo(old(len)) && (view, missing) == Compact(old(view), wanted)
      ensures Items() <= old(Items()) && old(len) <= slots.Length
      ensures forall item :: item in old(Items()) && item !in Items() ==> item.index == -1
    {
      hide Compact;
      ghost var kept;
      missing, len, kept := CompactLoop(wanted);
      CompactKeepsEntries(view, wanted);
      forall k | 0 <= k < len ensures kept[k].item in Items() && kept[k] == Snapshot(kept[k].item) {
        assert kept[k] in kept;
        var i :| 0 <= i < |view| && view[i] == kept[k];
      }
      view := kept;
    }

    /** The loops over `newMap`: one new item, with load 0, at the end for each connection. */
    method AppendAll(conns: set<Conn>, ghost limit: nat) returns (ghost added: seq<Slot>)
      requires ValidUpTo(limit) && len <= limit
      modifies `slots, `len, `view, slots
      ensures view == old(view) + added && len == old(len) + |conns|
      ensures Newcomers(added, ConnsOf(added)) && |added| == |conns| && ItemConns(added) == conns && fresh(ItemsOf(added))
      ensures ValidUpTo(if limit <= len then len else limit)
      ensures slots == old(slots) || fresh(slots)
      ensures Items() == old(Items()) + ItemsOf(added)
    {
      hide ItemsOf, ItemConns, ConnsOf;
      NothingAdded([]);
      var rest := conns;
      added := [];
      while rest != {}
        invariant rest <= conns && view == old(view) + added
        invariant |added| + |rest| == |conns| && ItemConns(added) == conns - rest
        invariant Newcomers(added, ConnsOf(added)) && fresh(ItemsOf(added))
        invariant Items() == old(Items()) + ItemsOf(added)
        invariant ValidUpTo(if limit <= len then len else limit)
        invariant slots == old(slots) || fresh(slots)
        decreases rest
      {
        var cn :| cn in rest;
        var item := AppendNew(cn, if limit <= len then len else limit);
        AppendedSlot(added, Entry(item, 0, 0));
        added := added + [Entry(item, 0, 0)];
        rest := rest - {cn};
      }
    }

    /** The loop that sets the slots no longer in use to nil, so that they pin no item. */
    method ClearTail(newLen: nat, sliceLen: nat)
      requires ValidUpTo(sliceLen) && len <= newLen <= sliceLen <= slots.Length
      modifies slots
      ensures ValidUpTo(newLen)
    {
      for i := newLen to sliceLen
        invariant ValidUpTo(sliceLen)
        invariant forall k :: newLen <= k < i ==> slots[k] == null
      {
        slots[i] := null;
      }
    }

    /** The slow path of `update`, after compaction: clear the tail, append the newcomers, heapify. */
    method Rebuild(newMap: set<Conn>, sliceLen: nat) returns (ghost added: seq<Slot>)
      requires ValidUpTo(sliceLen) && len <= sliceLen <= slots.Length
      modifies this, slots, Items()`index
      ensures Valid() && (slots == old(slots) || fresh(slots))
      ensures Newcomers(added, ConnsOf(added)) && |added| == |newMap| && ItemConns(added) == newMap && fresh(ItemsOf(added))
      ensures view == GoHeap.Init(old(view) + added) && Items() == old(Items()) + ItemsOf(added)
    {
      hide GoHeap.Init, ItemConns, ConnsOf;
      var newLen := len + |newMap|;
      var limit := sliceLen;
      if sliceLen > newLen {
        ClearTail(newLen, sliceLen);
        limit := newLen;
      }
      added := AppendAll(newMap, limit);
      Init();
    }

    /** `update` */
    method Update(allConns: seq<Conn>) returns (ghost added: seq<Slot>)
      requires Valid()
      requires len != 0 || allConns != []
      modifies this, slots, Items()`index
      ensures Valid() && (slots == old(slots) || fresh(slots))
      ensures Newcomers(added, ConnsOf(added)) && fresh(ItemsOf(added))
      ensures ItemConns(added) == Compact(old(view), Elements(allConns)).1
      ensures |added| == |Compact(old(view), Elements(allConns)).1| && view == UpdateResult(old(view), Elements(allConns), added)
      ensures forall item :: item in old(Items()) && item !in Items() ==> item.index == -1
    {
      hide Compact, GoHeap.Init, BitsLen, ItemConns, ConnsOf;
      if view == [] { CompactOfNothing(view, Elements(allConns)); }
      var newMap: set<Conn> := {};
      for i := 0 to |allConns|
        invariant newMap == Elements(allConns[..i])
      {
        newMap := newMap + {allConns[i]};
      }
      assert allConns[..|allConns|] == allConns;

      var sliceLen := len;
      newMap := CompactInPlace(newMap);
      var newLen := len + |newMap|;
      if len == sliceLen {
        var threshold := newLen / BitsLen(newLen);
        if |newMap| <= threshold {
          added := AppendAll(newMap, len);
          return;
        }
      }
      added := Rebuild(newMap, sliceLen);
    }

    method Acquire(nextTieBreak: Uint64) returns (entry: ConnItem)
      requires Valid() && len > 0
      modifies `view, slots, Items()`index, view[0].item
      ensures Valid() && Items() == old(Items())
      ensures entry == old(view)[0].item && view == LeastLoadedSpec.Acquire(old(view), nextTieBreak)
    {
      entry := slots[0];
      entry.load := Inc(entry.load);
      entry.tieBreak := nextTieBreak;
      UpdateKeepsItems(view, 0, Snapshot(entry));
      view := view[0 := Snapshot(entry)];
      Fix(entry.index);
    }

    /** The handle `pickLocked` keeps for the release: the item is in its slot, or has been evicted and knows it. */
    ghost predicate Tracks(entry: ConnItem)
      reads this, entry
    {
      Settled(entry, view)
    }

    lemma ItemsAreTracked(entry: ConnItem)
      requires Valid() && entry in Items()
      ensures Tracks(entry) && entry.index != -1
    {
      var k :| 0 <= k < |view| && view[k].item == entry;
    }

    method Release(entry: ConnItem)
      requires Valid() && Tracks(entry)
      modifies `view, slots, Items()`index, entry
      ensures Valid() && Items() == old(Items())
      ensures view == if old(entry.index) == -1 then old(view) else ReleaseAt(old(view), old(entry.index))
      ensures entry.load == Dec(old(entry.load)) && entry.tieBreak == old(entry.tieBreak)
    {
      entry.load := Dec(entry.load);
      if entry.index != -1 {
        UpdateKeepsItems(view, entry.index, Snapshot(entry));
        view := view[entry.index := Snapshot(entry)];
        Fix(entry.index);
      }
    }
  }

  /** `leastLoadedRoundRobin`: the tie-break of a pick is the number of picks so far. */
  class RoundRobinPicker {
    const conns: ConnHeap
    var counter: Uint64

    constructor (allConns: seq<Conn>)
      ensures conns.Valid() && fresh(conns) && fresh(conns.slots) && fresh(conns.Items()) && counter == 0
      ensures exists added :: Newcomers(added, allConns) && conns.view == GoHeap.Init(added)
    {
      conns := new ConnHeap(allConns);
      counter := 0;
    }

    /** `Pick`; the returned item is what `whenDone` will release. */
    method Pick() returns (entry: ConnItem)
      requires conns.Valid() && conns.len > 0
      modifies `counter, conns`view, conns.slots, conns.Items()`index, conns.view[0].item
      ensures conns.Valid() && conns.Items() == old(conns.Items()) && conns.Tracks(entry)
      ensures counter == Inc(old(counter)) && entry == old(conns.view)[0].item
      ensures conns.view == LeastLoadedSpec.Acquire(old(conns.view), counter)
    {
      counter := Inc(counter);
      entry := conns.Acquire(counter);
      conns.ItemsAreTracked(entry);
    }
  }
}

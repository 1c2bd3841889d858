/**
 Go's `container/heap`, on sequences: the binary-heap algorithms that both the least-loaded
 picker and the rendezvous subsetter run over their own storage. The classes of those modules
 run the loops in place and are proved equal to the functions of this module; what the
 functions promise is proved here, once.
 */
module GoHeap {

  /** What `Less` sees of an element: `major` decides, `minor` breaks ties. */
  datatype Entry<T> = Entry(item: T, major: int, minor: int)

  predicate Before<T>(a: Entry<T>, b: Entry<T>) {
    if a.major == b.major then a.minor < b.minor else a.major < b.major
  }

  /** The parent slot; Go's `(j-1)/2` truncates, so slot 0 is its own parent. */
  function Parent(k: nat): nat {
    if k == 0 then 0 else (k - 1) / 2
  }

  /** Heap order on every edge whose parent slot is at least `lo`. */
  ghost predicate HeapFrom<T>(h: seq<Entry<T>>, lo: nat) {
    forall k :: 0 < k < |h| && lo <= Parent(k) ==> !Before(h[k], h[Parent(k)])
  }

  ghost predicate IsHeap<T>(h: seq<Entry<T>>) {
    HeapFrom(h, 0)
  }

  /** Like `HeapFrom`, but the element in slot `i` may be out of place. */
  ghost predicate HeapExcept<T>(h: seq<Entry<T>>, i: nat, lo: nat) {
    && (forall k :: 0 < k < |h| && lo <= Parent(k) && Parent(k) != i && k != i ==> !Before(h[k], h[Parent(k)]))
    && (forall k :: 0 < i < k < |h| && lo <= Parent(i) && Parent(k) == i ==> !Before(h[k], h[Parent(i)]))
  }

  function Swap<T>(h: seq<Entry<T>>, i: nat, j: nat): (r: seq<Entry<T>>)
    requires i < |h| && j < |h|
    ensures |r| == |h|
  {
    h[i := h[j]][j := h[i]]
  }

  function Up<T>(h: seq<Entry<T>>, j: nat): (r: seq<Entry<T>>)
    requires j < |h|
    ensures |r| == |h|
    decreases j
  {
    if j == 0 || !Before(h[j], h[Parent(j)]) then h
    else Up(Swap(h, Parent(j), j), Parent(j))
  }

  function SmallerChild<T>(h: seq<Entry<T>>, i: nat): (j: nat)
    requires 2 * i + 1 < |h|
    ensures i < j < |h|
  {
    if 2 * i + 2 < |h| && Before(h[2 * i + 2], h[2 * i + 1]) then 2 * i + 2 else 2 * i + 1
  }

  /** `down`: the new sequence and the slot where the element came to rest. */
  function Down<T>(h: seq<Entry<T>>, i: nat): (r: (seq<Entry<T>>, nat))
    requires i < |h|
    ensures |r.0| == |h| && i <= r.1 < |h|
    decreases |h| - i
  {
    if 2 * i + 1 < |h| && Before(h[SmallerChild(h, i)], h[i])
    then Down(Swap(h, i, SmallerChild(h, i)), SmallerChild(h, i))
    else (h, i)
  }

  function Fix<T>(h: seq<Entry<T>>, i: nat): (r: seq<Entry<T>>)
    requires i < |h|
    ensures |r| == |h|
  {
    var (d, rest) := Down(h, i);
    if i < rest then d else Up(d, i)
  }

  /** The remaining iterations of `Init` when slots `n..` have been sifted already. */
  function InitFrom<T>(h: seq<Entry<T>>, n: nat): (r: seq<Entry<T>>)
    requires n <= |h|
    ensures |r| == |h|
    decreases n
  {
    if n == 0 then h else InitFrom(Down(h, n - 1).0, n - 1)
  }

  function Init<T>(h: seq<Entry<T>>): (r: seq<Entry<T>>)
    ensures |r| == |h|
  {
    InitFrom(h, |h| / 2)
  }

  function Push<T>(h: seq<Entry<T>>, x: Entry<T>): (r: seq<Entry<T>>)
    ensures |r| == |h| + 1
  {
    Up(h + [x], |h|)
  }

  lemma NotBeforeTransitive<T>(a: Entry<T>, b: Entry<T>, c: Entry<T>)
    requires !Before(a, b) && !Before(b, c)
    ensures !Before(a, c)
  {
  }

  lemma DownUnfolds<T>(h: seq<Entry<T>>, i: nat)
    requires i < |h|
    ensures Down(h, i) == if 2 * i + 1 < |h| && Before(h[SmallerChild(h, i)], h[i])
                          then Down(Swap(h, i, SmallerChild(h, i)), SmallerChild(h, i))
                          else (h, i)
  {
  }

  lemma SwapPermutes<T>(h: seq<Entry<T>>, i: nat, j: nat)
    requires i < |h| && j < |h|
    ensures multiset(Swap(h, i, j)) == multiset(h)
  {
  }

  lemma {:induction false} UpPermutes<T>(h: seq<Entry<T>>, j: nat)
    requires j < |h|
    ensures multiset(Up(h, j)) == multiset(h)
    decreases j
  {
    if j > 0 && Before(h[j], h[Parent(j)]) {
      SwapPermutes(h, Parent(j), j);
      UpPermutes(Swap(h, Parent(j), j), Parent(j));
    }
  }

  lemma {:induction false} DownPermutes<T>(h: seq<Entry<T>>, i: nat)
    requires i < |h|
    ensures multiset(Down(h, i).0) == multiset(h)
    decreases |h| - i
  {
    if 2 * i + 1 < |h| && Before(h[SmallerChild(h, i)], h[i]) {
      SwapPermutes(h, i, SmallerChild(h, i));
      DownPermutes(Swap(h, i, SmallerChild(h, i)), SmallerChild(h, i));
    }
  }

  lemma FixPermutes<T>(h: seq<Entry<T>>, i: nat)
    requires i < |h|
    ensures multiset(Fix(h, i)) == multiset(h)
  {
    DownPermutes(h, i);
    UpPermutes(Down(h, i).0, i);
  }

  lemma {:induction false} InitFromPermutes<T>(h: seq<Entry<T>>, n: nat)
    requires n <= |h|
    ensures multiset(InitFrom(h, n)) == multiset(h)
    decreases n
  {
    if n > 0 {
      DownPermutes(h, n - 1);
      InitFromPermutes(Down(h, n - 1).0, n - 1);
    }
  }

  lemma InitPermutes<T>(h: seq<Entry<T>>)
    ensures multiset(Init(h)) == multiset(h)
  {
    InitFromPermutes(h, |h| / 2);
  }

  lemma {:induction false} UpRestoresHeap<T>(h: seq<Entry<T>>, j: nat)
    requires j < |h| && HeapExcept(h, j, 0)
    requires forall k :: j < k < |h| && Parent(k) == j ==> !Before(h[k], h[j])
    ensures IsHeap(Up(h, j))
    decreases j
  {
    if j > 0 && Before(h[j], h[Parent(j)]) {
      UpRestoresHeap(Swap(h, Parent(j), j), Parent(j));
    }
  }

  /** The smaller child really is a child, and no child comes before it. */
  lemma SmallerChildIsLeast<T>(h: seq<Entry<T>>, i: nat)
    requires 2 * i + 1 < |h|
    ensures Parent(SmallerChild(h, i)) == i
    ensures forall k :: 0 < k < |h| && Parent(k) == i ==> !Before(h[k], h[SmallerChild(h, i)])
  {
    forall k | 0 < k < |h| && Parent(k) == i ensures !Before(h[k], h[SmallerChild(h, i)]) {
      assert k == 2 * i + 1 || k == 2 * i + 2;
    }
  }

  /** One step of sifting down moves the disorder from slot `i` to the smaller child `j`. */
  lemma SinkMovesDisorder<T>(h: seq<Entry<T>>, i: nat, j: nat, lo: nat)
    requires lo <= i < j < |h| && HeapExcept(h, i, lo) && Parent(j) == i && Before(h[j], h[i])
    requires forall k :: 0 < k < |h| && Parent(k) == i ==> !Before(h[k], h[j])
    ensures HeapExcept(Swap(h, i, j), j, lo) && !Before(Swap(h, i, j)[j], Swap(h, i, j)[Parent(j)])
  {
    hide SmallerChild;
    var s := Swap(h, i, j);
    forall k | 0 < k < |s| && lo <= Parent(k) && Parent(k) != j && k != j ensures !Before(s[k], s[Parent(k)]) {
      assert Parent(k) < k;
      if k != i {
        assert s[k] == h[k];
        assert s[Parent(k)] == if Parent(k) == i then h[j] else h[Parent(k)];
      }
    }
    forall k | j < k < |s| && lo <= Parent(j) && Parent(k) == j ensures !Before(s[k], s[Parent(j)]) {
      assert s[k] == h[k] && s[i] == h[j];
    }
  }

  /** Sifting down either repairs every edge from level `lo`, or leaves the element where its children are no smaller. */
  lemma {:induction false} DownRestoresHeap<T>(h: seq<Entry<T>>, i: nat, lo: nat)
    requires lo <= i < |h| && HeapExcept(h, i, lo)
    ensures var (d, rest) := Down(h, i);
            if i < rest then HeapFrom(d, lo)
            else d == h && forall k :: 0 < k < |h| && Parent(k) == i ==> !Before(h[k], h[i])
    decreases |h| - i
  {
    hide Down, Swap, SmallerChild, Before;
    DownUnfolds(h, i);
    if 2 * i + 1 < |h| {
      var j := SmallerChild(h, i);
      SmallerChildIsLeast(h, i);
      if Before(h[j], h[i]) {
        SinkMovesDisorder(h, i, j, lo);
        DownRestoresHeap(Swap(h, i, j), j, lo);
        if Down(Swap(h, i, j), j).1 == j {
          HeapFromParts(Swap(h, i, j), j, lo);
        }
      } else {
        forall k | 0 < k < |h| && Parent(k) == i ensures !Before(h[k], h[i]) {
          NotBeforeTransitive(h[k], h[j], h[i]);
        }
      }
    }
  }

  lemma HeapFromParts<T>(h: seq<Entry<T>>, i: nat, lo: nat)
    requires i < |h| && HeapExcept(h, i, lo)
    requires forall k :: 0 < k < |h| && Parent(k) == i ==> !Before(h[k], h[i])
    requires i > 0 && lo <= Parent(i) ==> !Before(h[i], h[Parent(i)])
    ensures HeapFrom(h, lo)
  {
  }

  lemma FixRestoresHeap<T>(h: seq<Entry<T>>, i: nat)
    requires i < |h| && HeapExcept(h, i, 0)
    ensures IsHeap(Fix(h, i))
  {
    DownRestoresHeap(h, i, 0);
    if Down(h, i).1 == i {
      UpRestoresHeap(h, i);
    }
  }

  /** Whatever is put into one slot of a heap, `Fix` of that slot makes it a heap again. */
  lemma FixAfterUpdate<T>(h: seq<Entry<T>>, i: nat, x: Entry<T>)
    requires i < |h| && IsHeap(h)
    ensures IsHeap(Fix(h[i := x], i))
  {
    var g := h[i := x];
    forall k | 0 < i < k < |h| && Parent(k) == i ensures !Before(g[k], g[Parent(i)]) {
      assert !Before(h[k], h[i]) && !Before(h[i], h[Parent(i)]);
    }
    FixRestoresHeap(g, i);
  }

  lemma {:induction false} InitFromMakesHeap<T>(h: seq<Entry<T>>, n: nat)
    requires n <= |h| && HeapFrom(h, n)
    ensures IsHeap(InitFrom(h, n))
    decreases n
  {
    if n > 0 {
      DownRestoresHeap(h, n - 1, n - 1);
      InitFromMakesHeap(Down(h, n - 1).0, n - 1);
    }
  }

  /** `heap.Init` makes a heap of any sequence. */
  lemma InitMakesHeap<T>(h: seq<Entry<T>>)
    ensures IsHeap(Init(h))
  {
    InitFromMakesHeap(h, |h| / 2);
  }

  /** `heap.Push` keeps a heap a heap. */
  lemma PushKeepsHeap<T>(h: seq<Entry<T>>, x: Entry<T>)
    requires IsHeap(h)
    ensures IsHeap(Push(h, x))
  {
    UpRestoresHeap(h + [x], |h|);
  }

  /** The root of a heap comes before or level with every element. */
  lemma {:induction false} RootIsLeast<T>(h: seq<Entry<T>>, k: nat)
    requires IsHeap(h) && k < |h|
    ensures !Before(h[k], h[0])
    decreases k
  {
    if k > 0 {
      RootIsLeast(h, Parent(k));
    }
  }

}

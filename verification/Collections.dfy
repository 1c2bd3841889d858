/** Duplicate-free sequences and counting, used by several of the models. */
module Collections {

  ghost predicate NoDup<T>(s: seq<T>) {
    forall i, j :: 0 <= i < j < |s| ==> s[i] != s[j]
  }

  ghost function ToSet<T>(s: seq<T>): set<T> {
    set x | x in s
  }

  /** A sequence has as many distinct elements as slots exactly when it has no duplicates. */
  lemma {:induction false} NoDupCard<T>(s: seq<T>)
    ensures |ToSet(s)| <= |s|
    ensures NoDup(s) <==> |ToSet(s)| == |s|
  {
    if s != [] {
      var n := |s| - 1;
      var front := s[..n];
      NoDupCard(front);
      assert s == front + [s[n]];
      assert ToSet(s) == ToSet(front) + {s[n]};
      if s[n] in front {
        assert ToSet(s) == ToSet(front);
        var i :| 0 <= i < n && front[i] == s[n];
        assert s[i] == s[n];
      } else {
        assert |ToSet(s)| == |ToSet(front)| + 1;
        assert NoDup(front) ==> NoDup(s);
        assert NoDup(s) ==> forall i, j :: 0 <= i < j < n ==> front[i] == s[i] && front[j] == s[j];
      }
    } else {
      assert ToSet(s) == {};
    }
  }

  lemma SubsetCard<T>(a: set<T>, b: set<T>)
    requires a <= b
    ensures |a| <= |b|
    ensures |a| == |b| ==> a == b
  {
    assert b == a + (b - a);
    assert |b| == |a| + |b - a|;
  }

  /** A sequence without certain elements, in order. */
  function Without<T(==)>(s: seq<T>, gone: set<T>): seq<T> {
    if s == [] then []
    else Without(s[..|s| - 1], gone) + (if s[|s| - 1] in gone then [] else [s[|s| - 1]])
  }

  lemma {:induction false} WithoutNone<T>(s: seq<T>)
    ensures Without(s, {}) == s
  {
    if s != [] {
      WithoutNone(s[..|s| - 1]);
    }
  }

  /** It works element by element, in order. */
  lemma {:induction false} WithoutIs<T>(a: seq<T>, b: seq<T>, gone: set<T>, x: T)
    ensures Without([x], gone) == (if x in gone then [] else [x])
    ensures Without(a + b, gone) == Without(a, gone) + Without(b, gone)
    decreases |b|
  {
    assert [x][..0] == [];
    if b == [] {
      assert a + b == a;
    } else {
      WithoutIs(a, b[..|b| - 1], gone, x);
      assert (a + b)[..|a + b| - 1] == a + b[..|b| - 1];
    }
  }

  lemma {:induction false} WithoutMembers<T>(s: seq<T>, gone: set<T>)
    ensures ToSet(Without(s, gone)) == ToSet(s) - gone
    ensures NoDup(s) ==> NoDup(Without(s, gone))
  {
    if s != [] {
      var n := |s| - 1;
      WithoutMembers(s[..n], gone);
      assert s == s[..n] + [s[n]];
      assert ToSet(s) == ToSet(s[..n]) + {s[n]};
      assert ToSet(Without(s, gone)) == ToSet(Without(s[..n], gone)) + (if s[n] in gone then {} else {s[n]});
      if NoDup(s) {
        assert forall i, j :: 0 <= i < j < n ==> s[..n][i] == s[i] && s[..n][j] == s[j];
        assert NoDup(s[..n]) && s[n] !in s[..n];
        var w := Without(s[..n], gone);
        forall i | 0 <= i < |w| ensures w[i] != s[n] {
          assert w[i] in ToSet(w);
        }
      }
    }
  }

  /** Taking one more element out, by deleting its slot. */
  lemma {:induction false} WithoutOneMore<T>(s: seq<T>, gone: set<T>, c: T, k: nat)
    requires NoDup(s) && k < |Without(s, gone)| && Without(s, gone)[k] == c
    ensures var w := Without(s, gone); Without(s, gone + {c}) == w[..k] + w[k + 1..]
  {
    var n := |s| - 1;
    var front := s[..n];
    assert s == front + [s[n]];
    assert NoDup(front) by { assert forall i, j :: 0 <= i < j < n ==> front[i] == s[i] && front[j] == s[j]; }
    var v := Without(front, gone);
    if k < |v| {
      WithoutOneMore(front, gone, c, k);
      WithoutMembers(front, gone);
      assert v[k] in ToSet(v);
      assert c in front;
      var i :| 0 <= i < n && front[i] == c;
      assert s[i] != s[n];
    } else {
      WithoutMembers(front, gone);
      assert c == s[n];
      forall i | 0 <= i < n ensures front[i] != c {
        assert s[i] != s[n];
      }
      WithoutAbsent(front, gone, c);
    }
  }

  lemma {:induction false} WithoutAbsent<T>(s: seq<T>, gone: set<T>, c: T)
    requires c !in s
    ensures Without(s, gone + {c}) == Without(s, gone)
  {
    if s != [] {
      WithoutAbsent(s[..|s| - 1], gone, c);
    }
  }

  lemma {:induction false} Unused(ids: set<nat>) returns (id: nat)
    ensures id !in ids && forall i :: i in ids ==> i < id
    decreases |ids|
  {
    if ids == {} {
      id := 0;
    } else {
      var i :| i in ids;
      id := Unused(ids - {i});
      if id <= i { id := i + 1; }
      assert forall j :: j in ids ==> j == i || j in ids - {i};
    }
  }
}

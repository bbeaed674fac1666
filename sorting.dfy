/** `Array.prototype.sort` with a comparator, on an array in place. The
    comparator is given as `le(a, b)`, "`a` may stand before `b`", which is
    what a non-positive comparator result means; the sort is correct when
    that relation is a total preorder. */
module Sorting {

  /** Of any two elements, one may stand before the other. */
  ghost predicate Total<T(!new)>(le: (T, T) -> bool) {
    forall a, b :: le(a, b) || le(b, a)
  }

  ghost predicate Transitive<T(!new)>(le: (T, T) -> bool) {
    forall a, b, c :: le(a, b) && le(b, c) ==> le(a, c)
  }

  /** Every element may stand before every later one. */
  ghost predicate Sorted<T>(s: seq<T>, le: (T, T) -> bool) {
    forall i, j :: 0 <= i < j < |s| ==> le(s[i], s[j])
  }

  /** Every element may stand before the next one. */
  ghost predicate Chained<T>(s: seq<T>, le: (T, T) -> bool) {
    forall k :: 0 < k < |s| ==> le(s[k - 1], s[k])
  }

  /** For a transitive relation, ordered neighbours make an ordered list. */
  lemma {:induction false} ChainedIsSorted<T(!new)>(s: seq<T>, le: (T, T) -> bool)
    requires Transitive(le) && Chained(s, le)
    ensures Sorted(s, le)
    decreases |s|
  {
    if |s| > 1 {
      var t := s[..|s| - 1];
      assert Chained(t, le) by {
        forall k | 0 < k < |t| ensures le(t[k - 1], t[k]) {
          assert t[k - 1] == s[k - 1] && t[k] == s[k];
        }
      }
      ChainedIsSorted(t, le);
      forall i, j | 0 <= i < j < |s| ensures le(s[i], s[j]) {
        if j < |s| - 1 {
          assert t[i] == s[i] && t[j] == s[j];
        } else if i < |s| - 2 {
          assert le(t[i], t[|s| - 2]);
          assert le(s[|s| - 2], s[|s| - 1]);
        }
      }
    }
  }

  /** Midway through inserting the element that started at `i`: it now
      stands at `j`, the elements before it are in order, those from it up to
      `i` are in order, and its left neighbour may stand before its right one. */
  ghost predicate Inserting<T>(s: seq<T>, j: int, i: int, le: (T, T) -> bool) {
    0 <= j <= i < |s|
    && Chained(s[..j], le) && Chained(s[j..i + 1], le)
    && (0 < j < i ==> le(s[j - 1], s[j + 1]))
  }

  /** Inserting starts with the element alone at `i`. */
  lemma InsertStart<T>(s: seq<T>, i: int, le: (T, T) -> bool)
    requires 0 <= i < |s| && Chained(s[..i], le)
    ensures Inserting(s, i, i, le)
  {
    assert s[i..i + 1] == [s[i]];
  }

  /** One step of inserting: the element at `j` must go before `s[j - 1]`;
      swapping them keeps both ordered runs ordered. */
  lemma InsertStep<T(!new)>(s: seq<T>, j: int, i: int, le: (T, T) -> bool)
    requires Total(le)
    requires Inserting(s, j, i, le) && 0 < j && !le(s[j - 1], s[j])
    ensures Inserting(s[j - 1 := s[j]][j := s[j - 1]], j - 1, i, le)
  {
    var t := s[j - 1 := s[j]][j := s[j - 1]];
    assert le(s[j], s[j - 1]);
    var l, u, v := t[..j - 1], t[j - 1..i + 1], s[j..i + 1];
    assert Chained(l, le) by {
      forall k | 0 < k < |l| ensures le(l[k - 1], l[k]) {
        assert s[..j][k - 1] == l[k - 1] && s[..j][k] == l[k];
      }
    }
    forall k | 0 < k < |u| ensures le(u[k - 1], u[k]) {
      if k == 1 {
        assert u[0] == s[j] && u[1] == s[j - 1];
      } else if k == 2 {
        assert u[1] == s[j - 1] && u[2] == s[j + 1];
      } else {
        assert u[k - 1] == v[k - 2] && u[k] == v[k - 1];
      }
    }
    if 0 < j - 1 {
      assert s[..j][j - 2] == t[j - 2] && s[..j][j - 1] == t[j];
    }
  }

  /** Inserting is done when the element reached the front or stands after
      an element that may precede it. */
  lemma InsertDone<T>(s: seq<T>, j: int, i: int, le: (T, T) -> bool)
    requires Inserting(s, j, i, le)
    requires j > 0 ==> le(s[j - 1], s[j])
    ensures Chained(s[..i + 1], le)
  {
    var u, l, r := s[..i + 1], s[..j], s[j..i + 1];
    forall k | 0 < k < |u| ensures le(u[k - 1], u[k]) {
      if k < j {
        assert l[k - 1] == u[k - 1] && l[k] == u[k];
      } else if k > j {
        assert r[k - 1 - j] == u[k - 1] && r[k - j] == u[k];
      }
    }
  }

  lemma SwapKeepsMultiset<T>(s: seq<T>, x: int, y: int)
    requires 0 <= x < y < |s|
    ensures multiset(s[x := s[y]][y := s[x]]) == multiset(s)
  {
    var t := s[x := s[y]];
    assert multiset(t) == multiset(s) - multiset{s[x]} + multiset{s[y]};
    assert t[y] == s[y];
    assert multiset(t[y := s[x]]) == multiset(t) - multiset{s[y]} + multiset{s[x]};
  }

  /** Two elements out of order are swapped by any sort. */
  lemma SortedPairSwaps<T>(s: seq<T>, t: seq<T>, le: (T, T) -> bool)
    requires |s| == 2 && !le(s[0], s[1])
    requires multiset(t) == multiset(s) && Sorted(t, le)
    ensures t == [s[1], s[0]]
  {
    assert multiset(s) == multiset{s[0], s[1]} by { assert s == [s[0], s[1]]; }
    assert |t| == 2 by { assert |multiset(t)| == |multiset(s)|; }
    assert multiset(t) == multiset{t[0], t[1]} by { assert t == [t[0], t[1]]; }
    assert le(t[0], t[1]);
    assert t[0] == s[1] by {
      assert t[0] in multiset{s[0], s[1]};
      if t[0] == s[0] {
        assert false;
      }
    }
    assert multiset{t[1]} == multiset{s[0]};
    assert t[1] in multiset{s[0]};
  }

  /** Moves `a[i]` left past the elements before it that must follow it,
      so that the first `i + 1` elements are in order. */
  method InsertLeft<T(!new)>(a: array<T>, i: int, le: (T, T) -> bool)
    requires Total(le)
    requires 0 <= i < a.Length && Chained(a[..i], le)
    modifies a
    ensures Chained(a[..i + 1], le)
    ensures multiset(a[..]) == multiset(old(a[..]))
  {
    var j := i;
    InsertStart(a[..], i, le);
    while j > 0 && !le(a[j - 1], a[j])
      invariant Inserting(a[..], j, i, le)
      invariant multiset(a[..]) == multiset(old(a[..]))
    {
      ghost var s := a[..];
      InsertStep(s, j, i, le);
      SwapKeepsMultiset(s, j - 1, j);
      a[j - 1], a[j] := a[j], a[j - 1];
      assert a[..] == s[j - 1 := s[j]][j := s[j - 1]];
      j := j - 1;
    }
    InsertDone(a[..], j, i, le);
  }

  /** Sorts `a` in place: the same elements, each allowed before every later
      one. */
  method InsertionSort<T(!new)>(a: array<T>, le: (T, T) -> bool)
    requires Total(le) && Transitive(le)
    modifies a
    ensures Sorted(a[..], le)
    ensures multiset(a[..]) == multiset(old(a[..]))
  {
    var i := 0;
    while i < a.Length
      invariant 0 <= i <= a.Length
      invariant Chained(a[..i], le)
      invariant multiset(a[..]) == multiset(old(a[..]))
    {
      InsertLeft(a, i, le);
      i := i + 1;
    }
    assert a[..] == a[..a.Length];
    ChainedIsSorted(a[..], le);
  }
}

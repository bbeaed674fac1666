/** The order of the exported page (src/App.tsx, the comparator passed to
    `banners.sort` in `generatePreviewHTML`): tallest effective height first,
    equal heights by title. */
module ExportOrder {
  import opened Banners
  import opened Sorting

  /** `x.localeCompare(y)`, taken as the comparison of the code points from
      the left, a proper prefix first: negative, zero or positive. */
  function TitleCompare(x: string, y: string): (c: int)
    ensures -1 <= c <= 1
    ensures c == 0 <==> x == y
  {
    if x == [] && y == [] then 0
    else if x == [] then -1
    else if y == [] then 1
    else if x[0] < y[0] then -1
    else if x[0] > y[0] then 1
    else
      var c := TitleCompare(x[1..], y[1..]);
      assert c == 0 ==> x == [x[0]] + x[1..] == [y[0]] + y[1..] == y;
      c
  }

  lemma {:induction false} TitleCompareAntisymmetric(x: string, y: string)
    ensures TitleCompare(y, x) == -TitleCompare(x, y)
  {
    if x != [] && y != [] && x[0] == y[0] {
      TitleCompareAntisymmetric(x[1..], y[1..]);
    }
  }

  lemma {:induction false} TitleCompareTransitive(x: string, y: string, z: string)
    requires TitleCompare(x, y) <= 0 && TitleCompare(y, z) <= 0
    ensures TitleCompare(x, z) <= 0
  {
    if x != [] && y != [] && z != [] && x[0] == y[0] == z[0] {
      TitleCompareTransitive(x[1..], y[1..], z[1..]);
    }
  }

  /** The comparator: `bHeight - aHeight` when the effective heights differ,
      else the title comparison. Negative puts `a` first. */
  function Compare(a: Banner, b: Banner): (c: int)
    ensures c < 0 <==> EffectiveHeight(a) > EffectiveHeight(b)
                       || (EffectiveHeight(a) == EffectiveHeight(b) && TitleCompare(a.title, b.title) < 0)
    ensures c == 0 <==> EffectiveHeight(a) == EffectiveHeight(b) && a.title == b.title
  {
    var ah := EffectiveHeight(a);
    var bh := EffectiveHeight(b);
    if bh != ah then bh - ah else TitleCompare(a.title, b.title)
  }

  /** `a` may stand before `b` in the exported page. */
  predicate Before(a: Banner, b: Banner)
    ensures Before(a, b) <==> EffectiveHeight(a) > EffectiveHeight(b)
                              || (EffectiveHeight(a) == EffectiveHeight(b) && TitleCompare(a.title, b.title) <= 0)
  {
    Compare(a, b) <= 0
  }

  lemma BeforeTotal(a: Banner, b: Banner)
    ensures Before(a, b) || Before(b, a)
  {
    TitleCompareAntisymmetric(a.title, b.title);
  }

  lemma BeforeTransitive(a: Banner, b: Banner, c: Banner)
    requires Before(a, b) && Before(b, c)
    ensures Before(a, c)
  {
    if EffectiveHeight(a) == EffectiveHeight(b) == EffectiveHeight(c) {
      TitleCompareTransitive(a.title, b.title, c.title);
    }
  }

  /** The comparator is a total preorder on banners. */
  lemma BeforeIsTotalPreorder()
    ensures Total(Before) && Transitive(Before)
  {
    forall a, b ensures Before(a, b) || Before(b, a) {
      BeforeTotal(a, b);
    }
    forall a, b, c | Before(a, b) && Before(b, c) ensures Before(a, c) {
      BeforeTransitive(a, b, c);
    }
  }

  /** Every banner may stand before every later one. */
  ghost predicate ExportOrdered(s: seq<Banner>) {
    Sorted(s, Before)
  }

  /** What an export-ordered list shows: effective heights never grow along
      it, and banners of equal effective height stand in title order. */
  lemma ExportOrderedMeaning(s: seq<Banner>, i: int, j: int)
    requires ExportOrdered(s) && 0 <= i < j < |s|
    ensures EffectiveHeight(s[i]) >= EffectiveHeight(s[j])
    ensures EffectiveHeight(s[i]) == EffectiveHeight(s[j]) ==> TitleCompare(s[i].title, s[j].title) <= 0
  {
    assert Before(s[i], s[j]);
  }

  /** `banners.sort(comparator)`, in place: the same banners, export-ordered. */
  method SortForExport(a: array<Banner>)
    modifies a
    ensures ExportOrdered(a[..])
    ensures multiset(a[..]) == multiset(old(a[..]))
  {
    BeforeIsTotalPreorder();
    InsertionSort(a, Before);
  }
}

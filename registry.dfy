/** The list of banners the editor holds and its event handlers (src/App.tsx:
    `handleAddBanner`, `handleTitleChange`, `handleIframeLoad`,
    `handleDeleteBanner`, and the export in `generatePreviewHTML`). */
module Registry {
  import opened Wrappers
  import opened Text
  import opened Titles
  import opened Dimensions
  import opened Banners
  import opened ExportOrder
  import opened Sorting

  /** The list after adding `url`: unchanged when the URL is blank, else one
      more record at the end with the trimmed URL, no size yet and the title
      derived from the URL. */
  function Added(s: seq<Banner>, url: string): (r: seq<Banner>)
    ensures Trim(url) == [] ==> r == s
    ensures Trim(url) != [] ==> |r| == |s| + 1 && r[..|s|] == s
    ensures Trim(url) != [] ==> r[|s|] == Banner(Trim(url), TitleFromUrl(url), 0, 0)
  {
    if Trim(url) == [] then s else s + [Banner(Trim(url), TitleFromUrl(url), 0, 0)]
  }

  /** The record `Added` appends has a URL without surrounding white space and
      a title without `_` or lower-case letters, and is shown at the size in
      its URL or, lacking one, as "Responsive". */
  lemma AddedRecord(s: seq<Banner>, url: string)
    requires Trim(url) != []
    ensures var b := Added(s, url)[|s|];
            Trim(b.url) == b.url && b.url != [] && '_' !in b.title
            && (FilenameDims(b.url).None? ==> RenderBlock(b).caption == Responsive)
  {
    TrimIdempotent(url);
    var b := Added(s, url)[|s|];
    if FilenameDims(b.url).None? {
      UnsizedIsResponsive(b);
    }
  }

  /** The list after `handleTitleChange(index, title)`: only that record's
      title differs. */
  function Retitled(s: seq<Banner>, index: int, title: string): (r: seq<Banner>)
    requires 0 <= index < |s|
    ensures |r| == |s| && r[index].title == title
    ensures r[index] == Banner(s[index].url, title, s[index].width, s[index].height)
    ensures forall k :: 0 <= k < |s| && k != index ==> r[k] == s[k]
  {
    s[index := s[index].(title := title)]
  }

  /** `s.filter((_, k) => k !== index)`, written as the filter walks. */
  function Without(s: seq<Banner>, index: int): (r: seq<Banner>)
    ensures |r| == if 0 <= index < |s| then |s| - 1 else |s|
  {
    if s == [] then []
    else Without(s[..|s| - 1], index) + (if index == |s| - 1 then [] else [s[|s| - 1]])
  }

  /** The filter removes exactly the record at `index`, keeping the others in
      their order; an index outside the list removes nothing. */
  lemma {:induction false} WithoutIsRemoval(s: seq<Banner>, index: int)
    ensures Without(s, index) == if 0 <= index < |s| then s[..index] + s[index + 1..] else s
    decreases |s|
  {
    if s != [] {
      var t := s[..|s| - 1];
      WithoutIsRemoval(t, index);
      if 0 <= index < |s| - 1 {
        assert t[..index] == s[..index];
        assert t[index + 1..] + [s[|s| - 1]] == s[index + 1..];
      } else if index == |s| - 1 {
        assert s[..index] == t && s[index + 1..] == [];
      } else {
        assert t + [s[|s| - 1]] == s;
      }
    }
  }

  /** The size a meta `content` gives: a missing or empty attribute gives
      none, otherwise `getDimensionsFromMeta`. */
  function ContentDims(content: Option<string>): (r: Option<Dims>)
    ensures content.None? || content == Some([]) ==> r.None?
  {
    match content
    case None => None
    case Some(c) => if c == [] then None else MetaDims(c)
  }

  /** The first `Some` that `f` gives along `xs`, if any: none exactly when
      `f` gives none for every element. */
  function FirstSome<A, B>(xs: seq<A>, f: A -> Option<B>): (r: Option<B>)
    ensures r.None? <==> forall k :: 0 <= k < |xs| ==> f(xs[k]).None?
  {
    if xs == [] then None
    else if f(xs[0]).Some? then f(xs[0])
    else
      var rest := xs[1..];
      assert forall k :: 0 < k < |xs| ==> xs[k] == rest[k - 1];
      FirstSome(rest, f)
  }

  /** What `FirstSome` finds is what `f` gives for an element before which
      `f` gives nothing. */
  lemma {:induction false} FirstSomeFirst<A, B>(xs: seq<A>, f: A -> Option<B>)
    requires FirstSome(xs, f).Some?
    ensures exists k :: 0 <= k < |xs| && f(xs[k]) == FirstSome(xs, f)
                        && forall k' :: 0 <= k' < k ==> f(xs[k']).None?
  {
    if f(xs[0]).None? {
      var rest := xs[1..];
      FirstSomeFirst(rest, f);
      var k :| 0 <= k < |rest| && f(rest[k]) == FirstSome(rest, f)
               && forall k' :: 0 <= k' < k ==> f(rest[k']).None?;
      assert FirstSome(xs, f) == FirstSome(rest, f);
      forall k' | 0 <= k' < k + 1 ensures f(xs[k']).None? {
        if k' > 0 {
          assert xs[k'] == rest[k' - 1];
        }
      }
      assert f(xs[k + 1]) == FirstSome(xs, f) by {
        assert xs[k + 1] == rest[k];
      }
    } else {
      assert f(xs[0]) == FirstSome(xs, f);
    }
  }

  /** The size the first meta tag whose content holds one gives, if any:
      none exactly when no tag's content gives a size. */
  function FirstMetaMatch(metas: seq<Option<string>>): (r: Option<Dims>)
    ensures r.None? <==> forall k :: 0 <= k < |metas| ==> ContentDims(metas[k]).None?
  {
    FirstSome(metas, ContentDims)
  }

  /** What `FirstMetaMatch` finds is the size of a tag before which no tag
      gives one. */
  lemma FirstMetaMatchFirst(metas: seq<Option<string>>)
    requires FirstMetaMatch(metas).Some?
    ensures exists k :: 0 <= k < |metas| && ContentDims(metas[k]) == FirstMetaMatch(metas)
                        && forall k' :: 0 <= k' < k ==> ContentDims(metas[k']).None?
  {
    FirstSomeFirst(metas, ContentDims);
  }

  /** The scan of `handleIframeLoad` over the frame's meta tags, stopping at
      the first whose content gives a size. */
  method FirstMetaDims(metas: seq<Option<string>>) returns (dims: Option<Dims>)
    ensures dims == FirstMetaMatch(metas)
  {
    dims := None;
    var i := 0;
    while i < |metas|
      invariant 0 <= i <= |metas|
      invariant dims.None?
      invariant FirstMetaMatch(metas) == FirstMetaMatch(metas[i..])
    {
      assert metas[i..][1..] == metas[i + 1..];
      var content := metas[i];
      if content.Some? && content.value != [] {
        dims := MetaDims(content.value);
        if dims.Some? {
          break;
        }
      }
      i := i + 1;
    }
  }

  /** The size a loaded frame gives its banner: the size in the URL, else
      the first meta tag's, else 340 by 677. */
  function LoadedDims(url: string, metas: seq<Option<string>>): (d: Dims)
    ensures FilenameDims(url).Some? ==> d == FilenameDims(url).value
    ensures FilenameDims(url).None? && FirstMetaMatch(metas).Some? ==> d == FirstMetaMatch(metas).value
    ensures FilenameDims(url).None? && FirstMetaMatch(metas).None? ==> d == Dims(DefaultWidth, DefaultHeight)
  {
    match FilenameDims(url)
    case Some(d) => d
    case None =>
      match FirstMetaMatch(metas)
      case Some(d) => d
      case None => Dims(DefaultWidth, DefaultHeight)
  }

  /** The list after a frame load stored `d` on the record at `index`: only
      that record's width and height differ. */
  function WithDims(s: seq<Banner>, index: int, d: Dims): (r: seq<Banner>)
    requires 0 <= index < |s|
    ensures |r| == |s|
    ensures r[index] == Banner(s[index].url, s[index].title, d.width, d.height)
    ensures forall k :: 0 <= k < |s| && k != index ==> r[k] == s[k]
  {
    s[index := s[index].(width := d.width, height := d.height)]
  }

  /** A banner whose URL names no size and whose frame offers no meta size
      ends up at 340 by 677 and is captioned "Responsive" on export. */
  lemma LoadedWithoutSizeIsResponsive(s: seq<Banner>, index: int, metas: seq<Option<string>>)
    requires 0 <= index < |s|
    requires FilenameDims(s[index].url).None?
    requires forall k :: 0 <= k < |metas| ==> ContentDims(metas[k]).None?
    ensures var b := WithDims(s, index, LoadedDims(s[index].url, metas))[index];
            RenderBlock(b).caption == Responsive && EffectiveHeight(b) == DefaultHeight
  {
  }

  /** A banner that was loaded keeps the loaded size on export, when it is
      not 0 by anything. */
  lemma LoadedSizeIsRendered(s: seq<Banner>, index: int, metas: seq<Option<string>>)
    requires 0 <= index < |s|
    requires var d := LoadedDims(s[index].url, metas); d.width > 0 && d.height > 0
    ensures var d := LoadedDims(s[index].url, metas);
            var b := RenderBlock(WithDims(s, index, d)[index]);
            b.width == d.width && b.height == d.height
  {
  }

  /** The exported page: its title and one block per banner. */
  datatype Preview = Preview(title: string, blocks: seq<Block>)

  /** On an export-ordered list the blocks come tallest first, and blocks of
      equal height in title order: the sort key is the rendered height. */
  lemma ExportedBlocksOrdered(s: seq<Banner>, i: int, j: int)
    requires ExportOrdered(s) && 0 <= i < j < |s|
    ensures RenderAll(s)[i].height >= RenderAll(s)[j].height
    ensures RenderAll(s)[i].height == RenderAll(s)[j].height
            ==> TitleCompare(RenderAll(s)[i].title, RenderAll(s)[j].title) <= 0
  {
    ExportOrderedMeaning(s, i, j);
  }

  /** The export order is forced when heights differ: a shorter banner
      added before a taller one stands after it once exported, so sorting the
      live list changes the order the editor shows. */
  lemma ExportSwapsShorterFirst(s: seq<Banner>, t: seq<Banner>)
    requires |s| == 2 && EffectiveHeight(s[0]) < EffectiveHeight(s[1])
    requires multiset(t) == multiset(s) && ExportOrdered(t)
    ensures t == [s[1], s[0]]
  {
    assert !Before(s[0], s[1]);
    SortedPairSwaps(s, t, Before);
  }

  /** An array holding `s`. */
  method NewArray(s: seq<Banner>) returns (a: array<Banner>)
    ensures fresh(a) && a[..] == s
  {
    a := new Banner[|s|](k requires 0 <= k < |s| => s[k]);
  }

  /** The editor's state: `banners`, the array the React state holds. The
      handlers replace it by a new array; the export sorts it in place. */
  class BannerRegistry {
    var banners: array<Banner>

    constructor ()
      ensures fresh(banners) && Records() == []
    {
      banners := new Banner[0];
    }

    function Records(): seq<Banner>
      reads this, banners
    {
      banners[..]
    }

    /** `handleAddBanner` with `url` in the input field. */
    method Add(url: string)
      modifies this
      ensures Records() == Added(old(Records()), url)
      ensures Trim(url) == [] ==> banners == old(banners)
      ensures Trim(url) != [] ==> fresh(banners)
    {
      var trimmed := Trim(url);
      if trimmed != [] {
        banners := NewArray(banners[..] + [Banner(trimmed, TitleFromUrl(url), 0, 0)]);
      }
    }

    /** `handleTitleChange(index, title)` */
    method Retitle(index: int, title: string)
      requires 0 <= index < banners.Length
      modifies this
      ensures fresh(banners)
      ensures Records() == Retitled(old(Records()), index, title)
    {
      var s := banners[..];
      banners := NewArray(s[index := s[index].(title := title)]);
    }

    /** `handleDeleteBanner(index)` */
    method Delete(index: int)
      modifies this
      ensures fresh(banners)
      ensures Records() == Without(old(Records()), index)
    {
      banners := NewArray(Without(banners[..], index));
    }

    /** `handleIframeLoad(index)`: `frameAttached` says whether the frame
        element exists; `metas` are the `content` attributes of its document's
        meta tags, empty when its document cannot be read. */
    method LoadDimensions(index: int, frameAttached: bool, metas: seq<Option<string>>)
      requires 0 <= index < banners.Length
      modifies this
      ensures !frameAttached ==> banners == old(banners)
      ensures frameAttached ==> fresh(banners)
      ensures frameAttached ==> Records() == WithDims(old(Records()), index, LoadedDims(old(Records())[index].url, metas))
    {
      if frameAttached {
        var dims := FilenameDims(banners[index].url);
        if dims.None? {
          dims := FirstMetaDims(metas);
        }
        if dims.None? {
          dims := Some(Dims(DefaultWidth, DefaultHeight));
        }
        var s := banners[..];
        banners := NewArray(s[index := s[index].(width := dims.value.width, height := dims.value.height)]);
      }
    }

    /** `generatePreviewHTML(pageTitle)`: sorts the banners in place into
        export order and renders one block per banner in that order. */
    method Export(pageTitle: string) returns (page: Preview)
      modifies banners
      ensures multiset(Records()) == multiset(old(Records()))
      ensures ExportOrdered(Records())
      ensures page == Preview(pageTitle, RenderAll(Records()))
    {
      SortForExport(banners);
      page := Preview(pageTitle, RenderAll(banners[..]));
    }
  }
}

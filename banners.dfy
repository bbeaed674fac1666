/** A banner record and how the exported page lays it out (src/App.tsx,
    `generatePreviewHTML`: the size fallback, the caption and the full-width
    flag of each block). */
module Banners {
  import opened Wrappers
  import opened Dimensions

  /** `interface Banner`; width and height are 0 until the frame has loaded. */
  datatype Banner = Banner(url: string, title: string, width: nat, height: nat)

  /** The size shown when nothing better is known; a block of exactly this
      size is captioned "Responsive". */
  const DefaultWidth: nat := 340
  const DefaultHeight: nat := 677
  /** From this effective width on a block takes the whole row. */
  const FullWidthFrom: nat := 728

  /** `n || fallback` on a number: 0 is falsy. */
  function OrDefault(n: Option<nat>, fallback: nat): (r: nat)
    ensures n.Some? && n.value != 0 ==> r == n.value
    ensures n.None? || n.value == 0 ==> r == fallback
    ensures fallback > 0 ==> r > 0
  {
    match n
    case Some(v) => if v != 0 then v else fallback
    case None => fallback
  }

  /** The width a banner is rendered with: the stored width when positive,
      else the width in its URL when that is not 0, else 340. */
  function EffectiveWidth(b: Banner): (w: nat)
    ensures w > 0
    ensures b.width > 0 ==> w == b.width
    ensures b.width == 0 && FilenameDims(b.url).None? ==> w == DefaultWidth
    ensures b.width == 0 && FilenameDims(b.url).Some? ==>
              w == if FilenameDims(b.url).value.width > 0 then FilenameDims(b.url).value.width else DefaultWidth
  {
    if b.width > 0 then b.width
    else OrDefault(match FilenameDims(b.url) case Some(d) => Some(d.width) case None => None, DefaultWidth)
  }

  /** The height a banner is rendered with, and also the key the export sort
      orders by: the stored height when positive, else the height in its URL
      when that is not 0, else 677. */
  function EffectiveHeight(b: Banner): (h: nat)
    ensures h > 0
    ensures b.height > 0 ==> h == b.height
    ensures b.height == 0 && FilenameDims(b.url).None? ==> h == DefaultHeight
    ensures b.height == 0 && FilenameDims(b.url).Some? ==>
              h == if FilenameDims(b.url).value.height > 0 then FilenameDims(b.url).value.height else DefaultHeight
  {
    if b.height > 0 then b.height
    else OrDefault(match FilenameDims(b.url) case Some(d) => Some(d.height) case None => None, DefaultHeight)
  }

  /** The "Size:" line of a block. */
  datatype Caption = Responsive | Size(width: nat, height: nat)

  /** One banner's block of the exported page: its heading, its caption, the
      frame's source and size, and whether it spans the row. */
  datatype Block = Block(title: string, url: string, caption: Caption,
                         width: nat, height: nat, fullWidth: bool)

  function RenderBlock(b: Banner): (r: Block)
    ensures r.title == b.title && r.url == b.url
    ensures r.width == EffectiveWidth(b) && r.height == EffectiveHeight(b)
    ensures r.caption == Responsive <==> r.width == DefaultWidth && r.height == DefaultHeight
    ensures r.caption != Responsive ==> r.caption == Size(r.width, r.height)
    ensures r.fullWidth <==> r.width >= FullWidthFrom
  {
    var w := EffectiveWidth(b);
    var h := EffectiveHeight(b);
    Block(b.title, b.url,
          if w == DefaultWidth && h == DefaultHeight then Responsive else Size(w, h),
          w, h, w >= FullWidthFrom)
  }

  /** One block per banner, in the order given. */
  function RenderAll(banners: seq<Banner>): (blocks: seq<Block>)
    ensures |blocks| == |banners|
    ensures forall k :: 0 <= k < |banners| ==> blocks[k] == RenderBlock(banners[k])
  {
    if banners == [] then []
    else
      var init := banners[..|banners| - 1];
      assert forall k :: 0 <= k < |init| ==> init[k] == banners[k];
      RenderAll(init) + [RenderBlock(banners[|banners| - 1])]
  }

  /** A banner with no stored size and no size in its URL is shown at
      340 by 677 and captioned "Responsive". */
  lemma UnsizedIsResponsive(b: Banner)
    requires b.width == 0 && b.height == 0 && FilenameDims(b.url).None?
    ensures RenderBlock(b).caption == Responsive
    ensures !RenderBlock(b).fullWidth
  {
  }

  /** A banner whose URL names its size, with no stored size, is shown at the
      size in its URL, when neither number is 0. */
  lemma UrlSizeIsRendered(b: Banner, d: Dims)
    requires b.width == 0 && b.height == 0 && FilenameDims(b.url) == Some(d)
    requires d.width > 0 && d.height > 0
    ensures RenderBlock(b).width == d.width && RenderBlock(b).height == d.height
    ensures RenderBlock(b).caption == Responsive <==> d == Dims(DefaultWidth, DefaultHeight)
  {
  }

  /** `banner_300x600` without a stored size renders at 300 by 600, not full
      width, captioned with its size. */
  lemma ExampleBlock(url: string)
    requires url == "banner_300x600"
    ensures RenderBlock(Banner(url, "B", 0, 0)) == Block("B", url, Size(300, 600), 300, 600, false)
  {
    FilenameExample(url);
  }
}

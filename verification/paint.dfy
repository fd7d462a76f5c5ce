/** The vertical and horizontal placement of blocks in `render`
    (renderer.ts:268-290): a page margin of 8, collapsed vertical margins
    between neighbouring blocks, and a left offset from `margin-left`. The
    text drawing itself is abstracted into the height each block takes, and
    the device pixel ratio into an integer scale factor. */
module Paint {
  import opened Wrappers
  import opened Styles
  import opened Layout

  /** `globalMargin`, also the bottom margin assumed above the first block. */
  const GlobalMargin: int := 8

  function Max(a: int, b: int): int {
    if a >= b then a else b
  }

  /** Where a block is drawn: the top and left handed to the text drawing. */
  datatype Placement = Placement(top: int, left: int)

  /** The bottom margin of the block before block `i`: the page margin
      before the first one, else that block's `margin-bottom` or 0. */
  function PrevBottom(styles: seq<Style>, i: nat): int
    requires i <= |styles|
  {
    if i == 0 then GlobalMargin else styles[i - 1].marginBottom.GetOr(0)
  }

  /** The space above block `i`, before scaling: the larger of its own top
      margin and the bottom margin above it. */
  function Gap(styles: seq<Style>, i: nat): int
    requires i < |styles|
  {
    Max(styles[i].marginTop.GetOr(0), PrevBottom(styles, i))
  }

  /** The left offset of a block, before scaling. */
  function Indent(st: Style): int {
    GlobalMargin + st.marginLeft.GetOr(0)
  }

  /** The top of block `i`: the bottom of the block before it (the page top
      for the first) plus the scaled gap. */
  function Top(styles: seq<Style>, heights: seq<nat>, ratio: nat, i: nat): int
    requires |heights| == |styles| && i < |styles|
  {
    (if i == 0 then 0 else Top(styles, heights, ratio, i - 1) + heights[i - 1]) + Gap(styles, i) * ratio
  }

  /** Where block `i` is drawn. */
  function Place(styles: seq<Style>, heights: seq<nat>, ratio: nat, i: nat): Placement
    requires |heights| == |styles| && i < |styles|
  {
    Placement(Top(styles, heights, ratio, i), Indent(styles[i]) * ratio)
  }

  function StylesOf(blocks: seq<Block>): (r: seq<Style>)
    ensures |r| == |blocks| && forall i :: 0 <= i < |blocks| ==> r[i] == blocks[i].style
  {
    seq(|blocks|, i requires 0 <= i < |blocks| => blocks[i].style)
  }

  /** The loop of `render` over the blocks. `heights[i]` is how far the text
      drawing of block `i` moves `y` down from the top it is given. Each block
      is placed at the scaled collapsed gap below the previous block's bottom
      and at the scaled indent. */
  method Render(blocks: seq<Block>, heights: seq<nat>, ratio: nat) returns (placements: seq<Placement>)
    requires |heights| == |blocks|
    ensures |placements| == |blocks|
    ensures forall i :: 0 <= i < |blocks| ==> placements[i] == Place(StylesOf(blocks), heights, ratio, i)
  {
    var styles := StylesOf(blocks);
    var previousMarginBottom := GlobalMargin;
    var y := 0;
    placements := [];
    var i := 0;
    while i < |blocks|
      invariant i <= |blocks| && |placements| == i
      invariant previousMarginBottom == PrevBottom(styles, i)
      invariant y == if i == 0 then 0 else Top(styles, heights, ratio, i - 1) + heights[i - 1]
      invariant forall k :: 0 <= k < i ==> placements[k] == Place(styles, heights, ratio, k)
    {
      var st := blocks[i].style;
      var actualMarginTop := Max(st.marginTop.GetOr(0), previousMarginBottom) * ratio;
      y := y + actualMarginTop;
      var actualMarginLeft := (GlobalMargin + st.marginLeft.GetOr(0)) * ratio;
      assert Placement(y, actualMarginLeft) == Place(styles, heights, ratio, i);
      placements := placements + [Placement(y, actualMarginLeft)];
      y := y + heights[i];
      previousMarginBottom := st.marginBottom.GetOr(0);
      i := i + 1;
    }
  }

  /** Margins collapse: the gap is the larger of the two adjoining margins,
      never their sum (section 8.3.1 of CSS 2.1). */
  lemma GapCollapses(styles: seq<Style>, i: nat)
    requires i < |styles|
    ensures Gap(styles, i) >= styles[i].marginTop.GetOr(0) && Gap(styles, i) >= PrevBottom(styles, i)
    ensures Gap(styles, i) == styles[i].marginTop.GetOr(0) || Gap(styles, i) == PrevBottom(styles, i)
  {
  }

  /** A paragraph followed by a heading is separated by the heading's 22, not
      by 16 + 22; a first paragraph sits 16 below the page top, not 8 + 16. */
  lemma ParagraphThenHeading()
    ensures var styles := [StyleForTag("p"), StyleForTag("h1")];
            Gap(styles, 0) == 16 && Gap(styles, 1) == 22
  {
  }

  /** Every margin in the table is non-negative. */
  predicate Unsigned(st: Style) {
    st.marginTop.GetOr(0) >= 0 && st.marginBottom.GetOr(0) >= 0 && st.marginLeft.GetOr(0) >= 0
  }

  lemma TableIsUnsigned(tag: string)
    ensures Unsigned(StyleForTag(tag))
  {
  }

  /** With the table's margins, blocks are stacked in order without
      overlapping: each starts at or below the bottom of the one before, and
      at least the page margin below the page top. */
  lemma {:induction false} BlocksDoNotOverlap(styles: seq<Style>, heights: seq<nat>, ratio: nat, i: nat)
    requires |heights| == |styles| && i < |styles|
    requires forall k :: 0 <= k < |styles| ==> Unsigned(styles[k])
    ensures Top(styles, heights, ratio, i) >= GlobalMargin * ratio
    ensures i > 0 ==> Top(styles, heights, ratio, i) >= Top(styles, heights, ratio, i - 1) + heights[i - 1]
    decreases i
  {
    assert Gap(styles, i) >= 0;
    if i > 0 {
      BlocksDoNotOverlap(styles, heights, ratio, i - 1);
      assert Gap(styles, i) * ratio >= 0 by {
        assert Gap(styles, i) >= 0 && ratio >= 0;
      }
    } else {
      assert Gap(styles, 0) >= GlobalMargin;
      assert Gap(styles, 0) * ratio >= GlobalMargin * ratio by {
        MulMonotone(Gap(styles, 0), GlobalMargin, ratio);
      }
    }
  }

  lemma MulMonotone(a: int, b: int, c: nat)
    requires a >= b
    ensures a * c >= b * c
  {
  }

  /** The indent is the page margin plus `margin-left`: 48 for `dd`, 8 for
      every other tag. */
  lemma IndentOfTags(tag: string)
    ensures Indent(StyleForTag(tag)) == (if tag == "dd" then 48 else GlobalMargin)
  {
  }
}

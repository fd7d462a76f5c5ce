/** The first half of `generateBlocks` (renderer.ts:112-173): a depth-first
    walk of the tree below `body` with an explicit stack, which carries the
    inherited text properties down and groups the text of the tree into
    blocks. */
module Layout {
  import opened Wrappers
  import opened Sequences
  import opened CharClasses
  import opened Whitespace
  import opened Dom
  import opened Styles

  /** The text properties a node inherits (`TextNodeRenderCtx`). */
  datatype RenderCtx = RenderCtx(size: Option<int>, color: Option<string>, weight: Option<string>,
                                 underline: Option<bool>)

  const EmptyCtx := RenderCtx(None, None, None, None)

  /** A piece of text to draw (`TextNodeRenderInfo`): the collapsed text of a
      text node, the properties in force there, and the node's parent. */
  datatype Run = Run(text: string, ctx: RenderCtx, owner: nat)

  /** A block (`Block2`): the element it belongs to, that element's style and
      the runs drawn in it. */
  datatype Block = Block(element: nat, style: Style, runs: seq<Run>)

  /** An entry of the walk's stack. */
  datatype Item = Item(node: nat, ctx: RenderCtx)

  /** `sub` occurs in `s` at position `i`. */
  predicate OccursAt(s: string, sub: string, i: nat) {
    i + |sub| <= |s| && s[i..i + |sub|] == sub
  }

  lemma DropSlice(s: string, i: nat, n: nat)
    requires i + 1 + n <= |s|
    ensures s[1..][i..i + n] == s[i + 1..i + 1 + n]
  {
  }

  /** `s.includes(sub)`. */
  function Contains(s: string, sub: string): (r: bool)
    ensures r <==> exists i: nat :: OccursAt(s, sub, i)
    decreases |s|
  {
    if |s| < |sub| then false
    else if s[..|sub|] == sub then assert OccursAt(s, sub, 0); true
    else
      var r := Contains(s[1..], sub);
      assert forall i: nat :: OccursAt(s, sub, i + 1) <==> OccursAt(s[1..], sub, i) by {
        forall i: nat
          ensures OccursAt(s, sub, i + 1) <==> OccursAt(s[1..], sub, i)
        {
          if i + 1 + |sub| <= |s| {
            DropSlice(s, i, |sub|);
          }
        }
      }
      assert !OccursAt(s, sub, 0);
      assert (exists i: nat :: OccursAt(s, sub, i)) ==> exists i: nat :: OccursAt(s[1..], sub, i) by {
        if exists i: nat :: OccursAt(s, sub, i) {
          var i: nat :| OccursAt(s, sub, i);
          assert i > 0;
          assert OccursAt(s[1..], sub, i - 1);
        }
      }
      r
  }

  /** The context a child inherits: the parent's context with `font-size`,
      `color`, `text-decoration` and `font-weight` taken from the element's
      style where the style has them; underlining is on exactly when the
      decoration mentions "underline". */
  function Overlay(ctx: RenderCtx, st: Style): (r: RenderCtx)
    ensures r.size == (if st.fontSize.Some? then st.fontSize else ctx.size)
    ensures r.color == (if st.color.Some? then st.color else ctx.color)
    ensures r.weight == (if st.fontWeight.Some? then st.fontWeight else ctx.weight)
    ensures r.underline == (if st.textDecoration.Some? then Some(Contains(st.textDecoration.value, "underline"))
                            else ctx.underline)
  {
    var c := if st.fontSize.Some? then ctx.(size := st.fontSize) else ctx;
    var c := if st.color.Some? then c.(color := st.color) else c;
    var c := if st.textDecoration.Some? then c.(underline := Some(Contains(st.textDecoration.value, "underline"))) else c;
    if st.fontWeight.Some? then c.(weight := st.fontWeight) else c
  }

  /** A style without text properties passes the context through, and
      overlaying the same style twice changes nothing more. */
  lemma OverlayLaws(ctx: RenderCtx, st: Style)
    ensures st.fontSize.None? && st.color.None? && st.fontWeight.None? && st.textDecoration.None? ==>
              Overlay(ctx, st) == ctx
    ensures Overlay(Overlay(ctx, st), st) == Overlay(ctx, st)
  {
  }

  /** Links are blue and underlined; headings are bold; nothing else changes
      the inherited properties. */
  lemma TableOverlays(ctx: RenderCtx, tag: string)
    ensures tag == "a" ==> Overlay(ctx, StyleForTag(tag)) == ctx.(color := Some("blue"), underline := Some(true))
    ensures tag !in {"a", "h1", "h2"} ==> Overlay(ctx, StyleForTag(tag)) == ctx
  {
    if tag == "a" {
      assert "underline"[0..9] == "underline";
    }
  }

  /** The style of an element. */
  function StyleOf(t: Tree, n: nat): Style
    requires n < |t.nodes|
  {
    StyleForTag(TagOf(t, n))
  }

  /** The walk looks styles up with the intended `getStylesForTag`. It agrees
      with the lookup as written on every element except one named after an
      `Object.prototype` member: such an element is a block here, while as
      written it has no display and joins the enclosing block. */
  lemma StyleOfAsWritten(t: Tree, n: nat)
    requires n < |t.nodes|
    ensures TagOf(t, n) !in PrototypeKeys ==> StyleOf(t, n) == StyleForTagAsWritten(TagOf(t, n))
    ensures TagOf(t, n) in PrototypeKeys ==>
      StyleOf(t, n).display == Some(DisplayBlock) && StyleForTagAsWritten(TagOf(t, n)).display.None?
  {
    AsWrittenDiffersOnPrototypeKeys(TagOf(t, n));
    if TagOf(t, n) in PrototypeKeys {
      StyleForTagDisplays(TagOf(t, n));
    }
  }

  predicate Hidden(t: Tree, n: nat)
    requires n < |t.nodes|
  {
    t.nodes[n].kind.Element? && StyleOf(t, n).display == Some(DisplayNone)
  }

  /** The order in which the walk pops nodes: the node, then, unless it is a
      hidden element, its children's walks in document order, each under the
      node's overlaid context. */
  function Preorder(t: Tree, n: nat, ctx: RenderCtx): (r: seq<Item>)
    requires ChildrenAfter(t) && n < |t.nodes|
    ensures |r| >= 1 && r[0] == Item(n, ctx)
    ensures forall k :: 0 <= k < |r| ==> n <= r[k].node < |t.nodes|
    decreases |t.nodes| - n, 1
  {
    match t.nodes[n].kind
    case Text(_) => [Item(n, ctx)]
    case Element(_, _, children) =>
      if Hidden(t, n) then [Item(n, ctx)]
      else [Item(n, ctx)] + PreorderList(t, n, children, Overlay(ctx, StyleOf(t, n)))
  }

  function PreorderList(t: Tree, p: nat, cs: seq<nat>, ctx: RenderCtx): (r: seq<Item>)
    requires ChildrenAfter(t) && p < |t.nodes|
    requires forall k :: 0 <= k < |cs| ==> p < cs[k] < |t.nodes|
    ensures forall k :: 0 <= k < |r| ==> p < r[k].node < |t.nodes|
    decreases |t.nodes| - p, 0, |cs|
  {
    if cs == [] then [] else Preorder(t, cs[0], ctx) + PreorderList(t, p, cs[1..], ctx)
  }

  function Last(blocks: seq<Block>): Block
    requires |blocks| > 0
  {
    blocks[|blocks| - 1]
  }

  /** A new block for the node's parent, pushed when the node is not below the
      current block's element (the walk has left that element). The root has
      no parent; it is only ever popped first, as the body itself. */
  function Restart(t: Tree, blocks: seq<Block>, n: nat): (r: seq<Block>)
    requires WellFormed(t) && |blocks| > 0 && n < |t.nodes|
    ensures |blocks| <= |r| <= |blocks| + 1 && r[..|blocks|] == blocks
    ensures n != Root ==> HasParent(t, n, Last(r).element)
    ensures |r| == |blocks| + 1 ==> Last(r).runs == []
    ensures HasParent(t, n, Last(blocks).element) || n == Root ==> r == blocks
    ensures !HasParent(t, n, Last(blocks).element) && n != Root ==>
      && t.nodes[n].parent.Some? && t.nodes[n].parent.value < |t.nodes|
      && r == blocks + [Block(t.nodes[n].parent.value, StyleOf(t, t.nodes[n].parent.value), [])]
  {
    if HasParent(t, n, Last(blocks).element) || n == Root then blocks
    else
      assert ListedByParent(t, n);
      var p := t.nodes[n].parent.value;
      assert HasParent(t, p, p);
      blocks + [Block(p, StyleOf(t, p), [])]
  }

  /** Add a run to the current (last) block. */
  function AppendRun(blocks: seq<Block>, r: Run): (b: seq<Block>)
    requires |blocks| > 0
    ensures |b| == |blocks| && b[..|blocks| - 1] == blocks[..|blocks| - 1]
    ensures Last(b) == Last(blocks).(runs := Last(blocks).runs + [r])
  {
    blocks[|blocks| - 1 := Last(blocks).(runs := Last(blocks).runs + [r])]
  }

  /** One popped entry: restart the block if the walk left it, then a block
      element opens a block of its own, and a text node adds its collapsed
      text to the current block. */
  function Absorb(t: Tree, blocks: seq<Block>, it: Item): (r: seq<Block>)
    requires WellFormed(t) && |blocks| > 0 && it.node < |t.nodes|
    ensures |r| >= |blocks|
  {
    var n := it.node;
    var b := Restart(t, blocks, n);
    match t.nodes[n].kind
    case Element(_, _, _) =>
      if StyleOf(t, n).display == Some(DisplayBlock) then b + [Block(n, StyleOf(t, n), [])] else b
    case Text(text) =>
      AppendRun(b, Run(Collapse(text), it.ctx, t.nodes[n].parent.GetOr(Root)))
  }

  /** The blocks after popping `items` in order. */
  function Collect(t: Tree, blocks: seq<Block>, items: seq<Item>): (r: seq<Block>)
    requires WellFormed(t) && |blocks| > 0
    requires forall k :: 0 <= k < |items| ==> items[k].node < |t.nodes|
    ensures |r| >= |blocks|
    decreases |items|
  {
    if items == [] then blocks else Collect(t, Absorb(t, blocks, items[0]), items[1..])
  }

  /** The entries still to be popped, as the walk will pop them: the top
      entry's walk first, then the rest of the stack. */
  function Pending(t: Tree, stack: seq<Item>): (r: seq<Item>)
    requires ChildrenAfter(t)
    requires forall k :: 0 <= k < |stack| ==> stack[k].node < |t.nodes|
    ensures forall k :: 0 <= k < |r| ==> r[k].node < |t.nodes|
    ensures |r| >= |stack|
  {
    if stack == [] then []
    else Preorder(t, stack[|stack| - 1].node, stack[|stack| - 1].ctx) + Pending(t, stack[..|stack| - 1])
  }

  /** The children as the source pushes them: last child first. */
  function Pushed(cs: seq<nat>, ctx: RenderCtx): (r: seq<Item>)
    ensures |r| == |cs| && forall k :: 0 <= k < |cs| ==> r[k] == Item(cs[|cs| - 1 - k], ctx)
  {
    if cs == [] then [] else Pushed(cs[1..], ctx) + [Item(cs[0], ctx)]
  }

  /** Pushing the children in reverse makes them pop in document order. */
  lemma {:induction false} PushedChildrenPopInOrder(t: Tree, p: nat, cs: seq<nat>, ctx: RenderCtx, rest: seq<Item>)
    requires ChildrenAfter(t) && p < |t.nodes|
    requires forall k :: 0 <= k < |cs| ==> p < cs[k] < |t.nodes|
    requires forall k :: 0 <= k < |rest| ==> rest[k].node < |t.nodes|
    ensures Pending(t, rest + Pushed(cs, ctx)) == PreorderList(t, p, cs, ctx) + Pending(t, rest)
    decreases |cs|
  {
    if cs == [] {
      assert rest + Pushed(cs, ctx) == rest;
    } else {
      var front := rest + Pushed(cs[1..], ctx);
      PushedInTree(t, p, cs[1..], ctx, rest, front);
      assert rest + Pushed(cs, ctx) == front + [Item(cs[0], ctx)];
      PendingSnoc(t, front, Item(cs[0], ctx));
      PushedChildrenPopInOrder(t, p, cs[1..], ctx, rest);
      Associate(Preorder(t, cs[0], ctx), PreorderList(t, p, cs[1..], ctx), Pending(t, rest));
    }
  }

  lemma PushedInTree(t: Tree, p: nat, cs: seq<nat>, ctx: RenderCtx, rest: seq<Item>, s: seq<Item>)
    requires forall k :: 0 <= k < |cs| ==> p < cs[k] < |t.nodes|
    requires forall k :: 0 <= k < |rest| ==> rest[k].node < |t.nodes|
    requires s == rest + Pushed(cs, ctx)
    ensures forall k :: 0 <= k < |s| ==> s[k].node < |t.nodes|
  {
  }

  /** The entries still to be popped once the top entry is popped and, for
      a shown element, its children pushed. */
  function Successors(t: Tree, it: Item, rest: seq<Item>): (r: seq<Item>)
    requires ChildrenAfter(t) && it.node < |t.nodes|
    requires forall k :: 0 <= k < |rest| ==> rest[k].node < |t.nodes|
    ensures forall k :: 0 <= k < |r| ==> r[k].node < |t.nodes|
  {
    var n := it.node;
    if t.nodes[n].kind.Element? && !Hidden(t, n) then
      rest + Pushed(t.nodes[n].kind.children, Overlay(it.ctx, StyleOf(t, n)))
    else rest
  }

  /** Popping the top entry leaves exactly the rest of its walk pending. */
  lemma PopTop(t: Tree, it: Item, rest: seq<Item>)
    requires ChildrenAfter(t) && it.node < |t.nodes|
    requires forall k :: 0 <= k < |rest| ==> rest[k].node < |t.nodes|
    ensures Pending(t, rest + [it]) == [it] + Pending(t, Successors(t, it, rest))
  {
    PendingSnoc(t, rest, it);
    var n := it.node;
    if t.nodes[n].kind.Element? && !Hidden(t, n) {
      var cs := t.nodes[n].kind.children;
      var ctx := Overlay(it.ctx, StyleOf(t, n));
      PushedChildrenPopInOrder(t, n, cs, ctx, rest);
      ShownPreorder(t, it, ctx);
      Associate([it], PreorderList(t, n, cs, ctx), Pending(t, rest));
    }
  }

  lemma PendingSnoc(t: Tree, rest: seq<Item>, it: Item)
    requires ChildrenAfter(t) && it.node < |t.nodes|
    requires forall k :: 0 <= k < |rest| ==> rest[k].node < |t.nodes|
    ensures Pending(t, rest + [it]) == Preorder(t, it.node, it.ctx) + Pending(t, rest)
  {
    var s := rest + [it];
    assert s[..|s| - 1] == rest && s[|s| - 1] == it;
  }

  lemma ShownPreorder(t: Tree, it: Item, ctx: RenderCtx)
    requires ChildrenAfter(t) && it.node < |t.nodes|
    requires t.nodes[it.node].kind.Element? && !Hidden(t, it.node)
    requires ctx == Overlay(it.ctx, StyleOf(t, it.node))
    ensures Preorder(t, it.node, it.ctx) == [it] + PreorderList(t, it.node, t.nodes[it.node].kind.children, ctx)
  {
  }

  lemma CollectCons(t: Tree, blocks: seq<Block>, it: Item, items: seq<Item>)
    requires WellFormed(t) && |blocks| > 0 && it.node < |t.nodes|
    requires forall k :: 0 <= k < |items| ==> items[k].node < |t.nodes|
    ensures Collect(t, blocks, [it] + items) == Collect(t, Absorb(t, blocks, it), items)
  {
    assert ([it] + items)[1..] == items;
  }

  /** Push the children last first, as the source's downward loop does. */
  method PushChildren(stack: seq<Item>, children: seq<nat>, ctx: RenderCtx) returns (r: seq<Item>)
    ensures r == stack + Pushed(children, ctx)
  {
    r := stack;
    var i := |children|;
    while i > 0
      invariant 0 <= i <= |children|
      invariant r == stack + Pushed(children[i..], ctx)
    {
      i := i - 1;
      assert children[i..] == [children[i]] + children[i + 1..];
      r := r + [Item(children[i], ctx)];
    }
    assert children[0..] == children;
  }

  /** `generateBlocks` up to the post-pass: the walk with an explicit stack.
      The blocks are those that popping the entries of the body's walk, in
      order, produces. */
  method GenerateRawBlocks(t: Tree, body: nat) returns (blocks: seq<Block>)
    requires WellFormed(t) && IsElement(t, body)
    ensures |blocks| > 0
    ensures blocks == Collect(t, [Block(body, StyleOf(t, body), [])], Preorder(t, body, EmptyCtx))
  {
    var init := [Block(body, StyleOf(t, body), [])];
    blocks := init;
    var stack := [Item(body, EmptyCtx)];
    assert Pending(t, stack) == Preorder(t, body, EmptyCtx) + Pending(t, []);
    assert Pending(t, stack) == Preorder(t, body, EmptyCtx);
    while |stack| > 0
      invariant forall k :: 0 <= k < |stack| ==> stack[k].node < |t.nodes|
      invariant |blocks| > 0
      invariant Collect(t, blocks, Pending(t, stack)) == Collect(t, init, Preorder(t, body, EmptyCtx))
      decreases |Pending(t, stack)|
    {
      var it := stack[|stack| - 1];
      var rest := stack[..|stack| - 1];
      var blocks', stack' := PopEntry(t, blocks, it, rest);
      WalkStep(t, blocks, stack, blocks', stack');
      blocks, stack := blocks', stack';
    }
  }

  /** Popping the top entry and absorbing it leaves the same blocks to come,
      and strictly fewer entries of the walk pending. */
  lemma WalkStep(t: Tree, blocks: seq<Block>, stack: seq<Item>, blocks': seq<Block>, stack': seq<Item>)
    requires WellFormed(t) && |blocks| > 0 && |stack| > 0
    requires forall k :: 0 <= k < |stack| ==> stack[k].node < |t.nodes|
    requires blocks' == Absorb(t, blocks, stack[|stack| - 1])
    requires stack' == Successors(t, stack[|stack| - 1], stack[..|stack| - 1])
    ensures forall k :: 0 <= k < |stack'| ==> stack'[k].node < |t.nodes|
    ensures |blocks'| > 0
    ensures Collect(t, blocks', Pending(t, stack')) == Collect(t, blocks, Pending(t, stack))
    ensures |Pending(t, stack')| < |Pending(t, stack)|
  {
    var it := stack[|stack| - 1];
    var rest := stack[..|stack| - 1];
    SplitLast(stack);
    PopTop(t, it, rest);
    CollectCons(t, blocks, it, Pending(t, stack'));
  }

  /** One turn of the walk's loop (renderer.ts:126-172) for the popped entry
      `it`: restart a block if the walk has left the current one, open a block
      for a block-level element, push the children of a shown element, or
      add a text node's run to the current block.

      A text node's run, with its collapsed text, context and parent as
      owner, ends the last block, whose element is the parent or one of its
      ancestors; the blocks before it are kept. A block-level element ends
      the blocks with an empty block of its own after the kept ones; any
      other element leaves them as `Restart` does. A shown element's
      children go on top of the rest of the stack last first, under the
      overlaid context; anything else leaves just the rest. */
  method PopEntry(t: Tree, blocks: seq<Block>, it: Item, rest: seq<Item>) returns (blocks': seq<Block>, stack: seq<Item>)
    requires WellFormed(t) && |blocks| > 0 && it.node < |t.nodes|
    requires forall k :: 0 <= k < |rest| ==> rest[k].node < |t.nodes|
    ensures blocks' == Absorb(t, blocks, it)
    ensures stack == Successors(t, it, rest)
    ensures t.nodes[it.node].kind.Text? ==>
      && t.nodes[it.node].parent.Some? && t.nodes[it.node].parent.value < |t.nodes|
      && var p := t.nodes[it.node].parent.value;
      && var run := Run(Collapse(t.nodes[it.node].kind.text), it.ctx, p);
      && |blocks| <= |blocks'| <= |blocks| + 1
      && blocks'[..|blocks| - 1] == blocks[..|blocks| - 1]
      && |Last(blocks').runs| > 0 && Last(blocks').runs[|Last(blocks').runs| - 1] == run
      && HasParent(t, p, Last(blocks').element)
      && (|blocks'| == |blocks| ==> Last(blocks') == Last(blocks).(runs := Last(blocks).runs + [run]))
      && (|blocks'| > |blocks| ==> Last(blocks') == Block(p, StyleOf(t, p), [run]))
    ensures t.nodes[it.node].kind.Element? && StyleOf(t, it.node).display == Some(DisplayBlock) ==>
      && |blocks'| >= |blocks| + 1 && blocks'[..|blocks|] == blocks
      && Last(blocks') == Block(it.node, StyleOf(t, it.node), [])
    ensures t.nodes[it.node].kind.Element? && StyleOf(t, it.node).display != Some(DisplayBlock) ==>
      blocks' == Restart(t, blocks, it.node)
    ensures t.nodes[it.node].kind.Element? && !Hidden(t, it.node) ==>
      var cs := t.nodes[it.node].kind.children;
      && |stack| == |rest| + |cs| && stack[..|rest|] == rest
      && forall j :: |rest| <= j < |stack| ==> stack[j] == Item(cs[|stack| - 1 - j], Overlay(it.ctx, StyleOf(t, it.node)))
    ensures !(t.nodes[it.node].kind.Element? && !Hidden(t, it.node)) ==> stack == rest
  {
    stack := rest;
    var n := it.node;
    blocks' := Restart(t, blocks, n);
    match t.nodes[n].kind {
      case Element(_, _, children) =>
        var st := StyleOf(t, n);
        if st.display == Some(DisplayBlock) {
          blocks' := blocks' + [Block(n, st, [])];
        }
        if st.display != Some(DisplayNone) {
          stack := PushChildren(stack, children, Overlay(it.ctx, st));
        }
      case Text(text) =>
        blocks' := AppendRun(blocks', Run(Collapse(text), it.ctx, t.nodes[n].parent.GetOr(Root)));
    }
  }

  /** The runs of all blocks, block after block. */
  function RunsOf(blocks: seq<Block>): seq<Run> {
    if blocks == [] then [] else RunsOf(blocks[..|blocks| - 1]) + Last(blocks).runs
  }

  /** The run a text entry contributes, independently of any block. */
  function TextRuns(t: Tree, items: seq<Item>): seq<Run>
    requires forall k :: 0 <= k < |items| ==> items[k].node < |t.nodes|
  {
    if items == [] then []
    else
      var n := items[0].node;
      var here := match t.nodes[n].kind
        case Text(text) => [Run(Collapse(text), items[0].ctx, t.nodes[n].parent.GetOr(Root))]
        case Element(_, _, _) => [];
      here + TextRuns(t, items[1..])
  }

  lemma RunsOfEmptyBlock(blocks: seq<Block>, b: Block)
    requires b.runs == []
    ensures RunsOf(blocks + [b]) == RunsOf(blocks)
  {
    assert (blocks + [b])[..|blocks|] == blocks;
  }

  lemma RunsOfAppendRun(blocks: seq<Block>, r: Run)
    requires |blocks| > 0
    ensures RunsOf(AppendRun(blocks, r)) == RunsOf(blocks) + [r]
  {
    var b := AppendRun(blocks, r);
    var front := blocks[..|blocks| - 1];
    assert b[..|b| - 1] == front;
    assert RunsOf(b) == RunsOf(front) + (Last(blocks).runs + [r]);
    assert RunsOf(blocks) == RunsOf(front) + Last(blocks).runs;
  }

  lemma AbsorbRuns(t: Tree, blocks: seq<Block>, it: Item)
    requires WellFormed(t) && |blocks| > 0 && it.node < |t.nodes|
    ensures RunsOf(Absorb(t, blocks, it)) == RunsOf(blocks) + TextRuns(t, [it])
  {
    var n := it.node;
    var b := Restart(t, blocks, n);
    if |b| == |blocks| + 1 {
      assert b == blocks + [Last(b)];
      RunsOfEmptyBlock(blocks, Last(b));
    } else {
      assert b == blocks;
    }
    match t.nodes[n].kind
    case Element(_, _, _) =>
      if StyleOf(t, n).display == Some(DisplayBlock) {
        RunsOfEmptyBlock(b, Block(n, StyleOf(t, n), []));
      }
    case Text(text) =>
      RunsOfAppendRun(b, Run(Collapse(text), it.ctx, t.nodes[n].parent.GetOr(Root)));
  }

  lemma TextRunsCons(t: Tree, items: seq<Item>)
    requires |items| > 0 && forall k :: 0 <= k < |items| ==> items[k].node < |t.nodes|
    ensures TextRuns(t, items) == TextRuns(t, [items[0]]) + TextRuns(t, items[1..])
  {
    assert [items[0]][1..] == [];
  }

  /** Blocks only group the runs: read block after block, the runs are the
      text entries' runs in the order the walk pops them. */
  lemma {:induction false} CollectRuns(t: Tree, blocks: seq<Block>, items: seq<Item>)
    requires WellFormed(t) && |blocks| > 0
    requires forall k :: 0 <= k < |items| ==> items[k].node < |t.nodes|
    ensures RunsOf(Collect(t, blocks, items)) == RunsOf(blocks) + TextRuns(t, items)
    decreases |items|
  {
    if items != [] {
      var b := Absorb(t, blocks, items[0]);
      var x, y := TextRuns(t, [items[0]]), TextRuns(t, items[1..]);
      assert RunsOf(b) == RunsOf(blocks) + x by {
        AbsorbRuns(t, blocks, items[0]);
      }
      assert RunsOf(Collect(t, b, items[1..])) == RunsOf(b) + y by {
        CollectRuns(t, b, items[1..]);
      }
      assert TextRuns(t, items) == x + y by {
        TextRunsCons(t, items);
      }
      assert Collect(t, blocks, items) == Collect(t, b, items[1..]);
      Associate(RunsOf(blocks), x, y);
    }
  }

  /** Every run sits in a block whose element is its owner or an ancestor of
      its owner. */
  predicate Anchored(t: Tree, blocks: seq<Block>)
    requires ParentsBefore(t)
  {
    forall i, k :: 0 <= i < |blocks| && 0 <= k < |blocks[i].runs| ==>
      blocks[i].runs[k].owner < |t.nodes| && HasParent(t, blocks[i].runs[k].owner, blocks[i].element)
  }

  lemma AbsorbAnchored(t: Tree, blocks: seq<Block>, it: Item)
    requires WellFormed(t) && |blocks| > 0 && it.node < |t.nodes| && Anchored(t, blocks)
    ensures Anchored(t, Absorb(t, blocks, it))
  {
    var n := it.node;
    var b := Restart(t, blocks, n);
    assert Anchored(t, b) by {
      forall i, k | 0 <= i < |b| && 0 <= k < |b[i].runs|
        ensures b[i].runs[k].owner < |t.nodes| && HasParent(t, b[i].runs[k].owner, b[i].element)
      {
        assert i < |blocks| && b[i] == blocks[i];
      }
    }
    match t.nodes[n].kind
    case Element(_, _, _) =>
    case Text(text) =>
      assert n != Root;
      assert ListedByParent(t, n);
      var r := Run(Collapse(text), it.ctx, t.nodes[n].parent.value);
      var b' := AppendRun(b, r);
      forall i, k | 0 <= i < |b'| && 0 <= k < |b'[i].runs|
        ensures b'[i].runs[k].owner < |t.nodes| && HasParent(t, b'[i].runs[k].owner, b'[i].element)
      {
        if i < |b| - 1 {
          assert b'[i] == b[i];
        } else if k < |Last(b).runs| {
          assert b'[i].runs[k] == Last(b).runs[k];
        }
      }
  }

  lemma {:induction false} CollectAnchored(t: Tree, blocks: seq<Block>, items: seq<Item>)
    requires WellFormed(t) && |blocks| > 0 && Anchored(t, blocks)
    requires forall k :: 0 <= k < |items| ==> items[k].node < |t.nodes|
    ensures Anchored(t, Collect(t, blocks, items))
    decreases |items|
  {
    if items != [] {
      AbsorbAnchored(t, blocks, items[0]);
      CollectAnchored(t, Absorb(t, blocks, items[0]), items[1..]);
    }
  }

  /** `n` and every element from it up to `body` is shown (none is hidden). */
  predicate ShownBelow(t: Tree, body: nat, n: nat)
    requires ParentsBefore(t) && n < |t.nodes|
    decreases n
  {
    t.nodes[n].kind.Element? && !Hidden(t, n) &&
    (n == body || (t.nodes[n].parent.Some? && ShownBelow(t, body, t.nodes[n].parent.value)))
  }

  lemma {:induction false} ShownBelowIsBelow(t: Tree, body: nat, n: nat)
    requires ParentsBefore(t) && n < |t.nodes| && ShownBelow(t, body, n)
    ensures body <= n
    decreases n
  {
    if n != body {
      ShownBelowIsBelow(t, body, t.nodes[n].parent.value);
    }
  }

  /** Every text entry of the walk from `n` has a parent that is shown all the
      way up to `body`. */
  lemma {:induction false} PreorderShown(t: Tree, body: nat, n: nat, ctx: RenderCtx)
    requires WellFormed(t) && n < |t.nodes|
    requires n == body || (t.nodes[n].parent.Some? && ShownBelow(t, body, t.nodes[n].parent.value))
    requires n == body ==> t.nodes[n].kind.Element?
    ensures forall k :: 0 <= k < |Preorder(t, n, ctx)| && t.nodes[Preorder(t, n, ctx)[k].node].kind.Text? ==>
              var m := Preorder(t, n, ctx)[k].node;
              t.nodes[m].parent.Some? && ShownBelow(t, body, t.nodes[m].parent.value)
    decreases |t.nodes| - n, 1
  {
    match t.nodes[n].kind
    case Text(_) =>
    case Element(_, _, children) =>
      if !Hidden(t, n) {
        forall k | 0 <= k < |children|
          ensures t.nodes[children[k]].parent == Some(n)
        {
          assert PointsBack(t, n, k);
        }
        PreorderListShown(t, body, n, children, Overlay(ctx, StyleOf(t, n)));
      }
  }

  lemma {:induction false} PreorderListShown(t: Tree, body: nat, p: nat, cs: seq<nat>, ctx: RenderCtx)
    requires WellFormed(t) && p < |t.nodes| && ShownBelow(t, body, p)
    requires forall k :: 0 <= k < |cs| ==> p < cs[k] < |t.nodes| && t.nodes[cs[k]].parent == Some(p)
    ensures forall k :: 0 <= k < |PreorderList(t, p, cs, ctx)| && t.nodes[PreorderList(t, p, cs, ctx)[k].node].kind.Text? ==>
              var m := PreorderList(t, p, cs, ctx)[k].node;
              t.nodes[m].parent.Some? && ShownBelow(t, body, t.nodes[m].parent.value)
    decreases |t.nodes| - p, 0, |cs|
  {
    if cs != [] {
      ShownBelowIsBelow(t, body, p);
      PreorderShown(t, body, cs[0], ctx);
      PreorderListShown(t, body, p, cs[1..], ctx);
    }
  }

  lemma {:induction false} TextRunsShown(t: Tree, body: nat, items: seq<Item>)
    requires WellFormed(t)
    requires forall k :: 0 <= k < |items| ==> items[k].node < |t.nodes|
    requires forall k :: 0 <= k < |items| && t.nodes[items[k].node].kind.Text? ==>
               t.nodes[items[k].node].parent.Some? && ShownBelow(t, body, t.nodes[items[k].node].parent.value)
    ensures forall k :: 0 <= k < |TextRuns(t, items)| ==>
              TextRuns(t, items)[k].owner < |t.nodes| && ShownBelow(t, body, TextRuns(t, items)[k].owner)
  {
    if items != [] {
      TextRunsShown(t, body, items[1..]);
    }
  }

  /** The blocks of the walk from `body`: read in order they hold the
      collapsed text of the shown text nodes in document order; each run sits
      in a block of its owner or of an ancestor; and no run comes from below
      a hidden element (`display: none`, such as `title`). */
  lemma RawBlocksFacts(t: Tree, body: nat)
    requires WellFormed(t) && IsElement(t, body)
    ensures var raw := Collect(t, [Block(body, StyleOf(t, body), [])], Preorder(t, body, EmptyCtx));
            && RunsOf(raw) == TextRuns(t, Preorder(t, body, EmptyCtx))
            && Anchored(t, raw)
            && forall k :: 0 <= k < |RunsOf(raw)| ==>
                 RunsOf(raw)[k].owner < |t.nodes| && ShownBelow(t, body, RunsOf(raw)[k].owner)
  {
    var init := [Block(body, StyleOf(t, body), [])];
    var items := Preorder(t, body, EmptyCtx);
    CollectRuns(t, init, items);
    assert RunsOf(init) == [] by {
      assert init[..0] == [];
    }
    CollectAnchored(t, init, items);
    PreorderShown(t, body, body, EmptyCtx);
    TextRunsShown(t, body, items);
  }
}

/** The tree builder `parse` (parser.ts:497-584): it folds the token sequence
    into a document tree, moving an insertion point (the source's `node`)
    through the tree as tags open and close. */
module TreeBuilder {
  import opened Wrappers
  import opened Sequences
  import opened CharClasses
  import opened Tokenizer
  import opened TokenizerProofs
  import opened Dom

  /** Elements that never take children (`voidTags`). */
  const VoidTags: set<string> :=
    {"area", "base", "br", "col", "embed", "hr", "img", "input", "link", "meta", "param",
     "source", "track", "wbr"}

  /** Elements whose end tag an opening of a list-like element implies. */
  const ImpliedEndTags: set<string> :=
    {"dd", "dt", "li", "optgroup", "option", "p", "rb", "rp", "rt", "rtc"}

  /** The opening tags that first close the nearest implied-end element. */
  const GenerateImpliedEndTags: set<string> := ImpliedEndTags + {"dl"}

  /** A void element never has children. */
  predicate VoidChildless(t: Tree) {
    forall i :: 0 <= i < |t.nodes| && t.nodes[i].kind.Element? && t.nodes[i].kind.tag in VoidTags ==>
      t.nodes[i].kind.children == []
  }

  /** Every element but the root carries a non-empty lower-case tag. */
  predicate TagsLower(t: Tree) {
    forall i :: 0 < i < |t.nodes| && t.nodes[i].kind.Element? ==>
      t.nodes[i].kind.tag != "" && IsLowerString(t.nodes[i].kind.tag)
  }

  /** The tree under construction and the insertion point. */
  datatype Builder = Builder(tree: Tree, ip: nat)

  predicate Valid(b: Builder) {
    && WellFormed(b.tree) && VoidChildless(b.tree) && TagsLower(b.tree)
    && IsElement(b.tree, b.ip) && TagOf(b.tree, b.ip) !in VoidTags
  }

  function Empty(): (b: Builder)
    ensures Valid(b)
  {
    Builder(Tree([Node(None, Element("", [], []))]), Root)
  }

  /** Append a node as the last child of element `p`; nothing else changes. */
  function AddChild(t: Tree, p: nat, kind: Kind): (r: Tree)
    requires WellFormed(t) && IsElement(t, p)
    requires kind.Element? ==> kind.children == []
    ensures WellFormed(r)
    ensures |r.nodes| == |t.nodes| + 1
    ensures r.nodes[|t.nodes|] == Node(Some(p), kind)
    ensures forall i :: 0 <= i < |t.nodes| && i != p ==> r.nodes[i] == t.nodes[i]
    ensures r.nodes[p] == t.nodes[p].(kind := t.nodes[p].kind.(children := t.nodes[p].kind.children + [|t.nodes|]))
  {
    var r := Tree(Appended(t, p, kind));
    AppendedKeepsShape(t, p, kind);
    r
  }

  function Appended(t: Tree, p: nat, kind: Kind): (r: seq<Node>)
    requires p < |t.nodes| && t.nodes[p].kind.Element?
    ensures |r| == |t.nodes| + 1
    ensures r[|t.nodes|] == Node(Some(p), kind)
    ensures forall i :: 0 <= i < |t.nodes| && i != p ==> r[i] == t.nodes[i]
    ensures r[p] == t.nodes[p].(kind := t.nodes[p].kind.(children := t.nodes[p].kind.children + [|t.nodes|]))
  {
    var pn := t.nodes[p];
    t.nodes[p := pn.(kind := pn.kind.(children := pn.kind.children + [|t.nodes|]))] + [Node(Some(p), kind)]
  }

  lemma AppendedKeepsShape(t: Tree, p: nat, kind: Kind)
    requires WellFormed(t) && IsElement(t, p)
    requires kind.Element? ==> kind.children == []
    ensures WellFormed(Tree(Appended(t, p, kind)))
  {
    AppendedChildrenAfter(t, p, kind);
    AppendedParentsList(t, p, kind);
    AppendedChildrenPointBack(t, p, kind);
  }

  lemma AppendedChildrenAfter(t: Tree, p: nat, kind: Kind)
    requires WellFormed(t) && IsElement(t, p)
    requires kind.Element? ==> kind.children == []
    ensures ChildrenAfter(Tree(Appended(t, p, kind)))
  {
    var r := Appended(t, p, kind);
    forall i, k | 0 <= i < |r| && r[i].kind.Element? && 0 <= k < |r[i].kind.children|
      ensures i < r[i].kind.children[k] < |r|
    {
      if i == p && k == |t.nodes[p].kind.children| {
      } else {
        assert r[i].kind.children[k] == t.nodes[i].kind.children[k];
      }
    }
  }

  lemma AppendedParentsList(t: Tree, p: nat, kind: Kind)
    requires WellFormed(t) && IsElement(t, p)
    ensures forall i :: 0 < i < |t.nodes| + 1 ==> ListedByParent(Tree(Appended(t, p, kind)), i)
  {
    var n := |t.nodes|;
    var r := Tree(Appended(t, p, kind));
    forall i | 0 < i < n + 1
      ensures ListedByParent(r, i)
    {
      if i < n {
        assert ListedByParent(t, i);
        var q := t.nodes[i].parent.value;
        if q == p {
          assert r.nodes[q].kind.children == t.nodes[q].kind.children + [n];
        } else {
          assert r.nodes[q] == t.nodes[q];
        }
      }
    }
  }

  lemma AppendedChildrenPointBack(t: Tree, p: nat, kind: Kind)
    requires WellFormed(t) && IsElement(t, p)
    requires kind.Element? ==> kind.children == []
    ensures var r := Tree(Appended(t, p, kind));
            forall i, k :: 0 <= i < |r.nodes| && r.nodes[i].kind.Element? && 0 <= k < |r.nodes[i].kind.children| ==>
              PointsBack(r, i, k)
  {
    var n := |t.nodes|;
    var r := Tree(Appended(t, p, kind));
    forall i, k | 0 <= i < |r.nodes| && r.nodes[i].kind.Element? && 0 <= k < |r.nodes[i].kind.children|
      ensures PointsBack(r, i, k)
    {
      if i == p && k == |t.nodes[p].kind.children| {
      } else {
        assert PointsBack(t, i, k);
        var c := t.nodes[i].kind.children[k];
        assert r.nodes[i].kind.children[k] == c;
        assert c != n;
      }
    }
  }

  /** The nearest element, starting at `i` and walking up through parents,
      whose tag is in `tags`. */
  function Nearest(t: Tree, i: nat, tags: set<string>): (r: Option<nat>)
    requires ParentsBefore(t) && i < |t.nodes|
    ensures IsNearest(t, Ancestry(t, i), tags, r)
    decreases i
  {
    var a := Ancestry(t, i);
    if TagOf(t, i) in tags then
      NearestHere(t, a, tags);
      Some(i)
    else
      match t.nodes[i].parent
      case None => None
      case Some(p) =>
        var r := Nearest(t, p, tags);
        assert a == [i] + Ancestry(t, p);
        NearestAbove(t, i, Ancestry(t, p), tags, r);
        r
  }

  /** Position `j` of the walk `a` is the first whose tag is in `tags`. */
  predicate FirstTagged(t: Tree, a: seq<nat>, j: nat, tags: set<string>)
    requires j < |a| && forall k :: 0 <= k < |a| ==> a[k] < |t.nodes|
  {
    TagOf(t, a[j]) in tags && forall k :: 0 <= k < j ==> TagOf(t, a[k]) !in tags
  }

  /** `r` is the first node of the walk `a` whose tag is in `tags`, if any. */
  predicate IsNearest(t: Tree, a: seq<nat>, tags: set<string>, r: Option<nat>)
    requires forall k :: 0 <= k < |a| ==> a[k] < |t.nodes|
  {
    && (r.None? <==> forall k :: 0 <= k < |a| ==> TagOf(t, a[k]) !in tags)
    && (r.Some? ==> exists j :: 0 <= j < |a| && a[j] == r.value && FirstTagged(t, a, j, tags))
  }

  lemma NearestHere(t: Tree, a: seq<nat>, tags: set<string>)
    requires a != [] && forall k :: 0 <= k < |a| ==> a[k] < |t.nodes|
    requires TagOf(t, a[0]) in tags
    ensures IsNearest(t, a, tags, Some(a[0]))
  {
    assert FirstTagged(t, a, 0, tags);
  }

  lemma NearestAbove(t: Tree, i: nat, a: seq<nat>, tags: set<string>, r: Option<nat>)
    requires i < |t.nodes| && TagOf(t, i) !in tags
    requires forall k :: 0 <= k < |a| ==> a[k] < |t.nodes|
    requires IsNearest(t, a, tags, r)
    ensures IsNearest(t, [i] + a, tags, r)
  {
    var b := [i] + a;
    assert forall k :: 0 <= k < |a| ==> b[k + 1] == a[k];
    if r.Some? {
      var j :| 0 <= j < |a| && a[j] == r.value && FirstTagged(t, a, j, tags);
      assert FirstTagged(t, b, j + 1, tags);
    }
  }

  /** Under a well-formed tree without children on void elements, the parent
      of any node is a non-void element. */
  lemma ParentIsOpenable(t: Tree, i: nat)
    requires WellFormed(t) && VoidChildless(t) && 0 < i < |t.nodes|
    ensures t.nodes[i].parent.Some?
    ensures IsElement(t, t.nodes[i].parent.value)
    ensures TagOf(t, t.nodes[i].parent.value) !in VoidTags
  {
    assert ListedByParent(t, i);
  }

  /** The insertion point after a tag named `name` was looked for among the
      ancestors-or-self and, when found at `a`, closed: the parent of `a`. */
  function CloseNearest(b: Builder, tags: set<string>): (r: nat)
    requires Valid(b) && "" !in tags
    ensures IsElement(b.tree, r) && TagOf(b.tree, r) !in VoidTags
    ensures match Nearest(b.tree, b.ip, tags)
              case Some(a) => a != Root && b.tree.nodes[a].parent == Some(r)
              case None => r == b.ip
  {
    match Nearest(b.tree, b.ip, tags)
    case None => b.ip
    case Some(a) =>
      ParentIsOpenable(b.tree, a);
      b.tree.nodes[a].parent.value
  }

  /** An end tag: the insertion point moves to the parent of the nearest
      ancestor-or-self with the same tag, or stays where it is when there is
      none. The tree itself does not change. */
  function CloseTag(b: Builder, name: string): (r: Builder)
    requires Valid(b) && name != ""
    ensures Valid(r) && r.tree == b.tree
    ensures match Nearest(b.tree, b.ip, {name})
              case Some(a) => b.tree.nodes[a].parent == Some(r.ip)
              case None => r.ip == b.ip
  {
    b.(ip := CloseNearest(b, {name}))
  }

  /** Before a tag in `GenerateImpliedEndTags` opens, the nearest open element
      whose end tag is implied is closed; any other tag leaves the insertion
      point alone. */
  function ImpliedClose(b: Builder, name: string): (r: nat)
    requires Valid(b)
    ensures IsElement(b.tree, r) && TagOf(b.tree, r) !in VoidTags
    ensures name !in GenerateImpliedEndTags ==> r == b.ip
    ensures name in GenerateImpliedEndTags ==>
              match Nearest(b.tree, b.ip, ImpliedEndTags)
              case Some(a) => b.tree.nodes[a].parent == Some(r)
              case None => r == b.ip
  {
    if name in GenerateImpliedEndTags then CloseNearest(b, ImpliedEndTags) else b.ip
  }

  /** A start tag: after the implied closing, a new element with the tag's
      attribute record is appended as the last child of the insertion point,
      and becomes the insertion point unless it is void. */
  function OpenTag(b: Builder, tag: TagToken): (r: Builder)
    requires Valid(b) && tag.name != "" && IsLowerString(tag.name)
    ensures Valid(r)
    ensures var p := ImpliedClose(b, tag.name);
            var n := |b.tree.nodes|;
            && |r.tree.nodes| == n + 1
            && r.tree.nodes[n].parent == Some(p)
            && r.tree.nodes[p].kind.Element?
            && r.tree.nodes[p].kind.children == b.tree.nodes[p].kind.children + [n]
            && r.tree.nodes[n].kind.Element? && r.tree.nodes[n].kind.tag == tag.name
            && r.tree.nodes[n].kind.children == []
            && (forall k :: Lookup(r.tree.nodes[n].kind.attributes, k) == LastValue(tag.attributes, k))
            && (tag.name in VoidTags ==> r.ip == p)
            && (tag.name !in VoidTags ==> r.ip == n)
  {
    var p := ImpliedClose(b, tag.name);
    var n := |b.tree.nodes|;
    var tree := AddChild(b.tree, p, Element(tag.name, FromEntries(tag.attributes), []));
    AddedKeepsValid(b.tree, p, Element(tag.name, FromEntries(tag.attributes), []));
    forall k
      ensures Lookup(FromEntries(tag.attributes), k) == LastValue(tag.attributes, k)
    {
      FromEntriesLaterWins(tag.attributes, k);
    }
    Builder(tree, if tag.name in VoidTags then p else n)
  }

  /** Appending a childless node under a non-void element keeps void
      elements childless and tags lower-case. */
  lemma AddedKeepsValid(t: Tree, p: nat, kind: Kind)
    requires WellFormed(t) && VoidChildless(t) && TagsLower(t)
    requires IsElement(t, p) && TagOf(t, p) !in VoidTags
    requires kind.Element? ==> kind.children == [] && kind.tag != "" && IsLowerString(kind.tag)
    ensures VoidChildless(AddChild(t, p, kind)) && TagsLower(AddChild(t, p, kind))
  {
    var r := AddChild(t, p, kind);
    forall i | 0 <= i < |r.nodes| && r.nodes[i].kind.Element? && r.nodes[i].kind.tag in VoidTags
      ensures r.nodes[i].kind.children == []
    {
      if i < |t.nodes| && i != p {
        assert r.nodes[i] == t.nodes[i];
      }
    }
    forall i | 0 < i < |r.nodes| && r.nodes[i].kind.Element?
      ensures r.nodes[i].kind.tag != "" && IsLowerString(r.nodes[i].kind.tag)
    {
      if i < |t.nodes| && i != p {
        assert r.nodes[i] == t.nodes[i];
      }
    }
  }

  /** A text node appended as the last child of the insertion point, which
      stays where it is. */
  function AppendText(b: Builder, text: string): (r: Builder)
    requires Valid(b)
    ensures Valid(r) && r.ip == b.ip
    ensures var n := |b.tree.nodes|;
            && |r.tree.nodes| == n + 1
            && r.tree.nodes[n] == Node(Some(b.ip), Text(text))
            && r.tree.nodes[b.ip].kind.children == b.tree.nodes[b.ip].kind.children + [n]
  {
    AddedKeepsValid(b.tree, b.ip, Text(text));
    Builder(AddChild(b.tree, b.ip, Text(text)), b.ip)
  }

  /** The end of the maximal run of Character tokens starting at `i`. */
  function RunEnd(tokens: seq<Token>, i: nat): (j: nat)
    requires i <= |tokens|
    ensures i <= j <= |tokens|
    ensures forall k :: i <= k < j ==> tokens[k].Character?
    ensures j == |tokens| || !tokens[j].Character?
    decreases |tokens| - i
  {
    if i < |tokens| && tokens[i].Character? then RunEnd(tokens, i + 1) else i
  }

  /** The characters carried by the Character tokens among `tokens`, in order. */
  function TextOf(tokens: seq<Token>): string {
    if tokens == [] then ""
    else (if tokens[0].Character? then [tokens[0].character] else "") + TextOf(tokens[1..])
  }

  lemma {:induction false} TextOfAppend(a: seq<Token>, b: seq<Token>)
    ensures TextOf(a + b) == TextOf(a) + TextOf(b)
  {
    if a == [] {
      assert a + b == b;
    } else {
      TextOfAppend(a[1..], b);
      assert (a + b)[0] == a[0];
      assert (a + b)[1..] == a[1..] + b;
      var h: string := if a[0].Character? then [a[0].character] else "";
      assert TextOf(a + b) == h + (TextOf(a[1..]) + TextOf(b));
      assert TextOf(a) == h + TextOf(a[1..]);
    }
  }

  /** One iteration of the token loop, from token `i`: doctypes are ignored,
      tags open or close, and a maximal run of Character tokens becomes one
      text node holding their characters. Returns the next token index. */
  function Feed(b: Builder, tokens: seq<Token>, i: nat): (r: (Builder, nat))
    requires Valid(b) && i < |tokens| && TokenOk(tokens[i])
    ensures Valid(r.0) && i < r.1 <= |tokens|
    ensures tokens[i].Character? ==>
              && r.1 == RunEnd(tokens, i)
              && r.0 == AppendText(b, TextOf(tokens[i..r.1]))
    ensures !tokens[i].Character? ==> r.1 == i + 1
  {
    match tokens[i]
    case DoctypeToken(_) => (b, i + 1)
    case Tag(t) => if t.closing then (CloseTag(b, t.name), i + 1) else (OpenTag(b, t), i + 1)
    case Character(_) =>
      var j := RunEnd(tokens, i);
      (AppendText(b, TextOf(tokens[i..j])), j)
  }

  /** The token loop from token `i` on. */
  function BuildFrom(b: Builder, tokens: seq<Token>, i: nat): (r: Builder)
    requires Valid(b) && i <= |tokens|
    requires forall k :: 0 <= k < |tokens| ==> TokenOk(tokens[k])
    ensures Valid(r)
    ensures |b.tree.nodes| <= |r.tree.nodes|
    decreases |tokens| - i
  {
    if i == |tokens| then b
    else
      var f := Feed(b, tokens, i);
      BuildFrom(f.0, tokens, f.1)
  }

  /** `parse` on an already tokenized input. */
  function Build(tokens: seq<Token>): (r: Tree)
    requires forall k :: 0 <= k < |tokens| ==> TokenOk(tokens[k])
    ensures WellFormed(r) && VoidChildless(r) && TagsLower(r)
  {
    BuildFrom(Empty(), tokens, 0).tree
  }

  /** `parse(input)`. The source never returns when the tokenizer stalls at
      `<!`; the model returns None exactly then. */
  function Parse(input: string): (r: Option<Tree>)
    ensures r.Some? <==> Tokenize(input).Done?
    ensures r.Some? ==> WellFormed(r.value) && VoidChildless(r.value) && TagsLower(r.value)
  {
    TokenizeTokensOk(input);
    match Tokenize(input)
    case Done(tokens) => Some(Build(tokens))
    case Stalls(_) => None
  }

  /** The text of all text nodes, in the order they were created. */
  function AllText(nodes: seq<Node>): string {
    if nodes == [] then ""
    else
      var last := nodes[|nodes| - 1];
      AllText(nodes[..|nodes| - 1]) + (if last.kind.Text? then last.kind.text else "")
  }

  /** Changing an element's children leaves the text alone. */
  lemma {:induction false} AllTextIgnoresElements(a: seq<Node>, b: seq<Node>)
    requires |a| == |b|
    requires forall i :: 0 <= i < |a| ==> a[i].kind.Text? == b[i].kind.Text?
    requires forall i :: 0 <= i < |a| && a[i].kind.Text? ==> a[i].kind.text == b[i].kind.text
    ensures AllText(a) == AllText(b)
  {
    if a != [] {
      AllTextIgnoresElements(a[..|a| - 1], b[..|b| - 1]);
    }
  }

  lemma AllTextAddChild(t: Tree, p: nat, kind: Kind)
    requires WellFormed(t) && IsElement(t, p)
    requires kind.Element? ==> kind.children == []
    ensures AllText(AddChild(t, p, kind).nodes) == AllText(t.nodes) + (if kind.Text? then kind.text else "")
  {
    var r := AddChild(t, p, kind).nodes;
    AllTextIgnoresElements(r[..|t.nodes|], t.nodes);
    assert r[..|r| - 1] == r[..|t.nodes|];
  }

  /** One iteration adds exactly the characters of the tokens it consumed. */
  lemma FeedKeepsText(b: Builder, tokens: seq<Token>, i: nat)
    requires Valid(b) && i < |tokens| && TokenOk(tokens[i])
    ensures AllText(Feed(b, tokens, i).0.tree.nodes) == AllText(b.tree.nodes) + TextOf(tokens[i..Feed(b, tokens, i).1])
  {
    var j := Feed(b, tokens, i).1;
    match tokens[i]
    case Character(_) =>
      AllTextAddChild(b.tree, b.ip, Text(TextOf(tokens[i..j])));
    case DoctypeToken(_) =>
      assert tokens[i..j] == [tokens[i]];
    case Tag(t) =>
      assert tokens[i..j] == [tokens[i]];
      if !t.closing {
        var p := ImpliedClose(b, t.name);
        AllTextAddChild(b.tree, p, Element(t.name, FromEntries(t.attributes), []));
      }
  }

  /** Every character the tokens carry ends up, in order, in the text nodes:
      nothing is dropped, duplicated or reordered. */
  lemma {:induction false} BuildKeepsText(b: Builder, tokens: seq<Token>, i: nat)
    requires Valid(b) && i <= |tokens|
    requires forall k :: 0 <= k < |tokens| ==> TokenOk(tokens[k])
    ensures AllText(BuildFrom(b, tokens, i).tree.nodes) == AllText(b.tree.nodes) + TextOf(tokens[i..])
    decreases |tokens| - i
  {
    if i == |tokens| {
      assert tokens[i..] == [];
    } else {
      var f := Feed(b, tokens, i);
      var j := f.1;
      var x, y := TextOf(tokens[i..j]), TextOf(tokens[j..]);
      var whole := AllText(BuildFrom(f.0, tokens, j).tree.nodes);
      assert BuildFrom(b, tokens, i) == BuildFrom(f.0, tokens, j);
      assert whole == AllText(f.0.tree.nodes) + y by {
        BuildKeepsText(f.0, tokens, j);
      }
      assert AllText(f.0.tree.nodes) == AllText(b.tree.nodes) + x by {
        FeedKeepsText(b, tokens, i);
      }
      assert TextOf(tokens[i..]) == x + y by {
        SliceSplit(tokens, i, j);
        TextOfAppend(tokens[i..j], tokens[j..]);
      }
      Associate(AllText(b.tree.nodes), x, y);
    }
  }

  /** The tree's text is exactly the text the tokenizer yielded. */
  lemma ParseKeepsText(input: string)
    requires Tokenize(input).Done?
    ensures AllText(Parse(input).value.nodes) == TextOf(Tokenize(input).tokens)
  {
    TokenizeTokensOk(input);
    var tokens := Tokenize(input).tokens;
    BuildKeepsText(Empty(), tokens, 0);
    assert tokens[0..] == tokens;
  }

  lemma {:induction false} TextOfCharacters(s: string)
    ensures TextOf(Characters(s)) == s
  {
    if s != [] {
      TextOfCharacters(s[1..]);
      assert Characters(s)[1..] == Characters(s[1..]);
    }
  }

  /** Input without markup parses to a tree whose text is the input. */
  lemma PlainTextParses(input: string)
    requires forall k :: 0 <= k < |input| ==> input[k] != '<'
    ensures Parse(input).Some? && AllText(Parse(input).value.nodes) == input
  {
    TextWithoutMarkupIsVerbatim(input);
    ParseKeepsText(input);
    TextOfCharacters(input);
  }
}

/** The document tree (`Node` and `TextNode`, parser.ts:389-483) as an arena:
    nodes live in one sequence, refer to their parent and children by index,
    and node 0 is the synthetic root with the empty tag. A node is appended
    after its parent, so parents have smaller indices than their children. */
module Dom {
  import opened Wrappers
  import opened CharClasses
  import opened Whitespace
  import opened Tokenizer

  datatype Kind =
    | Element(tag: string, attributes: seq<Attribute>, children: seq<nat>)
    | Text(text: string)

  datatype Node = Node(parent: Option<nat>, kind: Kind)

  datatype Tree = Tree(nodes: seq<Node>)

  const Root: nat := 0

  /** The tag of a node; a text node has none. */
  function TagOf(t: Tree, i: nat): string
    requires i < |t.nodes|
  {
    match t.nodes[i].kind
    case Element(tag, _, _) => tag
    case Text(_) => ""
  }

  predicate IsElement(t: Tree, i: nat) {
    i < |t.nodes| && t.nodes[i].kind.Element?
  }

  predicate ParentsBefore(t: Tree) {
    forall i :: 0 <= i < |t.nodes| && t.nodes[i].parent.Some? ==> t.nodes[i].parent.value < i
  }

  predicate ChildrenAfter(t: Tree) {
    forall i, k :: 0 <= i < |t.nodes| && t.nodes[i].kind.Element? && 0 <= k < |t.nodes[i].kind.children| ==>
      i < t.nodes[i].kind.children[k] < |t.nodes|
  }

  /** The shape every tree the builder produces has: a root with the empty tag
      and no parent; every other node has an element parent that lists it
      among its children; every listed child points back to its parent. */
  predicate WellFormed(t: Tree) {
    && |t.nodes| > 0
    && t.nodes[Root].parent.None? && t.nodes[Root].kind.Element? && t.nodes[Root].kind.tag == ""
    && ParentsBefore(t)
    && ChildrenAfter(t)
    && (forall i :: 0 < i < |t.nodes| ==> ListedByParent(t, i))
    && (forall i, k :: 0 <= i < |t.nodes| && t.nodes[i].kind.Element? && 0 <= k < |t.nodes[i].kind.children| ==>
          PointsBack(t, i, k))
  }

  /** Node `i` has an element parent that lists it among its children. */
  predicate ListedByParent(t: Tree, i: nat)
    requires i < |t.nodes|
  {
    && t.nodes[i].parent.Some?
    && var q := t.nodes[i].parent.value;
    && q < |t.nodes| && t.nodes[q].kind.Element? && i in t.nodes[q].kind.children
  }

  /** The `k`-th child of element `i` names `i` as its parent. */
  predicate PointsBack(t: Tree, i: nat, k: nat)
    requires i < |t.nodes| && t.nodes[i].kind.Element? && k < |t.nodes[i].kind.children|
  {
    var c := t.nodes[i].kind.children[k];
    c < |t.nodes| && t.nodes[c].parent == Some(i)
  }

  /** An element's attribute record, `Object.fromEntries(token.attributes)`:
      one entry per distinct name, kept in the order names first appear. */
  predicate DistinctNames(rec: seq<Attribute>) {
    forall i, j :: 0 <= i < j < |rec| ==> rec[i].name != rec[j].name
  }

  /** Property lookup in a record. */
  function Lookup(rec: seq<Attribute>, k: string): (r: Option<string>)
    ensures r.None? <==> forall i :: 0 <= i < |rec| ==> rec[i].name != k
    ensures r.Some? ==> exists i :: 0 <= i < |rec| && rec[i] == Attribute(k, r.value)
  {
    if rec == [] then None
    else if rec[0].name == k then Some(rec[0].value)
    else Lookup(rec[1..], k)
  }

  /** The value of the last pair with the given name, the value that a
      sequence of property writes leaves behind. */
  function LastValue(pairs: seq<Attribute>, k: string): Option<string> {
    if pairs == [] then None
    else if pairs[|pairs| - 1].name == k then Some(pairs[|pairs| - 1].value)
    else LastValue(pairs[..|pairs| - 1], k)
  }

  /** In a record with distinct names, looking up the name of an entry finds
      that entry's value. */
  lemma {:induction false} LookupAt(rec: seq<Attribute>, i: nat)
    requires DistinctNames(rec) && i < |rec|
    ensures Lookup(rec, rec[i].name) == Some(rec[i].value)
  {
    if i > 0 {
      assert DistinctNames(rec[1..]) by {
        forall p, q | 0 <= p < q < |rec| - 1
          ensures rec[1..][p].name != rec[1..][q].name
        {
          assert rec[1..][p] == rec[p + 1] && rec[1..][q] == rec[q + 1];
        }
      }
      assert rec[0].name != rec[i].name;
      LookupAt(rec[1..], i - 1);
      assert rec[1..][i - 1] == rec[i];
    }
  }

  /** One property write: an existing entry keeps its place and takes the new
      value; a new name is appended. */
  function SetEntry(rec: seq<Attribute>, k: string, v: string): (r: seq<Attribute>)
    requires DistinctNames(rec)
    ensures DistinctNames(r)
    ensures Lookup(r, k) == Some(v)
    ensures forall k' :: k' != k ==> Lookup(r, k') == Lookup(rec, k')
    ensures |rec| <= |r| <= |rec| + 1
    ensures forall i :: 0 <= i < |rec| ==> r[i].name == rec[i].name
  {
    if Lookup(rec, k).None? then
      AppendEntryLookups(rec, k, v);
      rec + [Attribute(k, v)]
    else
      ReplaceEntryLookups(rec, k, v);
      ReplaceEntry(rec, k, v)
  }

  /** The record with the value of the entry named `k` replaced by `v`. */
  function ReplaceEntry(rec: seq<Attribute>, k: string, v: string): (r: seq<Attribute>)
    ensures |r| == |rec|
    ensures forall i :: 0 <= i < |rec| ==> r[i] == if rec[i].name == k then Attribute(k, v) else rec[i]
  {
    seq(|rec|, i requires 0 <= i < |rec| => if rec[i].name == k then Attribute(k, v) else rec[i])
  }

  lemma AppendEntryLookups(rec: seq<Attribute>, k: string, v: string)
    requires DistinctNames(rec) && Lookup(rec, k).None?
    ensures DistinctNames(rec + [Attribute(k, v)])
    ensures Lookup(rec + [Attribute(k, v)], k) == Some(v)
    ensures forall k' :: k' != k ==> Lookup(rec + [Attribute(k, v)], k') == Lookup(rec, k')
  {
    var r := rec + [Attribute(k, v)];
    assert forall i :: 0 <= i < |rec| ==> r[i] == rec[i];
    assert DistinctNames(r);
    LookupAt(r, |rec|);
    forall k' | k' != k
      ensures Lookup(r, k') == Lookup(rec, k')
    {
      LookupOfEntries(rec, k');
      LookupOfEntries(r, k');
    }
  }

  lemma ReplaceEntryLookups(rec: seq<Attribute>, k: string, v: string)
    requires DistinctNames(rec) && Lookup(rec, k).Some?
    ensures DistinctNames(ReplaceEntry(rec, k, v))
    ensures Lookup(ReplaceEntry(rec, k, v), k) == Some(v)
    ensures forall k' :: k' != k ==> Lookup(ReplaceEntry(rec, k, v), k') == Lookup(rec, k')
  {
    var r := ReplaceEntry(rec, k, v);
    assert forall i :: 0 <= i < |r| ==> r[i].name == rec[i].name;
    assert DistinctNames(r);
    var j :| 0 <= j < |rec| && rec[j] == Attribute(k, Lookup(rec, k).value);
    LookupAt(r, j);
    forall k' | k' != k
      ensures Lookup(r, k') == Lookup(rec, k')
    {
      ReplaceKeepsOther(rec, k, v, k');
    }
  }

  lemma ReplaceKeepsOther(rec: seq<Attribute>, k: string, v: string, k': string)
    requires DistinctNames(rec) && DistinctNames(ReplaceEntry(rec, k, v)) && k' != k
    ensures Lookup(ReplaceEntry(rec, k, v), k') == Lookup(rec, k')
  {
    var r := ReplaceEntry(rec, k, v);
    LookupOfEntries(rec, k');
    LookupOfEntries(r, k');
    assert forall i :: 0 <= i < |r| && r[i].name == k' ==> r[i] == rec[i];
  }

  /** In a record with distinct names, a lookup finds the value of the entry
      with that name, if there is one. */
  lemma LookupOfEntries(rec: seq<Attribute>, k: string)
    requires DistinctNames(rec)
    ensures forall i :: 0 <= i < |rec| && rec[i].name == k ==> Lookup(rec, k) == Some(rec[i].value)
  {
    forall i | 0 <= i < |rec| && rec[i].name == k
      ensures Lookup(rec, k) == Some(rec[i].value)
    {
      LookupAt(rec, i);
    }
  }

  /** `Object.fromEntries(pairs)`: the pairs written in order. */
  function FromEntries(pairs: seq<Attribute>): (r: seq<Attribute>)
    ensures DistinctNames(r)
    ensures |r| <= |pairs|
  {
    if pairs == [] then []
    else
      var last := pairs[|pairs| - 1];
      SetEntry(FromEntries(pairs[..|pairs| - 1]), last.name, last.value)
  }

  /** Among duplicate names the later value wins, and every name given is
      present. */
  lemma {:induction false} FromEntriesLaterWins(pairs: seq<Attribute>, k: string)
    ensures Lookup(FromEntries(pairs), k) == LastValue(pairs, k)
  {
    if pairs != [] {
      FromEntriesLaterWins(pairs[..|pairs| - 1], k);
    }
  }

  /** `hasParent(a)`: `a` is the node itself or one of its ancestors. For a
      text node the walk starts at its parent, as `TextNode.hasParent` does. */
  function HasParent(t: Tree, n: nat, a: nat): bool
    requires ParentsBefore(t) && n < |t.nodes|
    decreases n
  {
    var up := match t.nodes[n].parent
      case Some(p) => HasParent(t, p, a)
      case None => false;
    match t.nodes[n].kind
    case Text(_) => up
    case Element(_, _, _) => n == a || up
  }

  /** The node followed by its ancestors, ending at a node without a parent. */
  function Ancestry(t: Tree, n: nat): (r: seq<nat>)
    requires ParentsBefore(t) && n < |t.nodes|
    ensures |r| >= 1 && r[0] == n
    ensures forall k :: 0 <= k < |r| ==> r[k] <= n
    ensures forall k :: 0 <= k < |r| - 1 ==> t.nodes[r[k]].parent == Some(r[k + 1])
    ensures t.nodes[r[|r| - 1]].parent.None?
    decreases n
  {
    match t.nodes[n].parent
    case Some(p) => [n] + Ancestry(t, p)
    case None => [n]
  }

  /** `hasParent(a)` holds exactly when `a` is an element on the ancestry. */
  lemma {:induction false} HasParentIsAncestry(t: Tree, n: nat, a: nat)
    requires ParentsBefore(t) && n < |t.nodes|
    ensures HasParent(t, n, a) <==> a in Ancestry(t, n) && t.nodes[a].kind.Element?
    decreases n
  {
    match t.nodes[n].parent
    case Some(p) =>
      HasParentIsAncestry(t, p, a);
      assert Ancestry(t, n) == [n] + Ancestry(t, p);
      assert HasParent(t, n, a) == (if t.nodes[n].kind.Text? then HasParent(t, p, a) else n == a || HasParent(t, p, a));
      if a == n {
        assert a !in Ancestry(t, p);
      }
    case None =>
  }

  /** Ancestors of ancestors are ancestors. */
  lemma {:induction false} HasParentTransitive(t: Tree, x: nat, y: nat, z: nat)
    requires ParentsBefore(t) && x < |t.nodes| && y < |t.nodes|
    requires t.nodes[y].kind.Element?
    requires HasParent(t, x, y) && HasParent(t, y, z)
    ensures HasParent(t, x, z)
    decreases x
  {
    if x != y || t.nodes[x].kind.Text? {
      match t.nodes[x].parent
      case Some(p) => HasParentTransitive(t, p, y, z);
      case None =>
    }
  }

  /** `visit()`: the proper descendants of an element, in document order
      (each child, then that child's own descendants). */
  function Visit(t: Tree, n: nat): (r: seq<nat>)
    requires ChildrenAfter(t) && IsElement(t, n)
    ensures forall k :: 0 <= k < |r| ==> n < r[k] < |t.nodes|
    decreases |t.nodes| - n, 1
  {
    VisitChildren(t, n, t.nodes[n].kind.children)
  }

  function VisitChildren(t: Tree, p: nat, cs: seq<nat>): (r: seq<nat>)
    requires ChildrenAfter(t) && p < |t.nodes|
    requires forall k :: 0 <= k < |cs| ==> p < cs[k] < |t.nodes|
    ensures forall k :: 0 <= k < |r| ==> p < r[k] < |t.nodes|
    decreases |t.nodes| - p, 0, |cs|
  {
    if cs == [] then []
    else
      var c := cs[0];
      var below := if t.nodes[c].kind.Element? then Visit(t, c) else [];
      [c] + below + VisitChildren(t, p, cs[1..])
  }

  /** Everything `visit()` yields lies below the element it started from. */
  lemma {:induction false} VisitIsBelow(t: Tree, n: nat)
    requires WellFormed(t) && IsElement(t, n)
    ensures forall v :: v in Visit(t, n) ==> v != n && HasParent(t, v, n)
    decreases |t.nodes| - n, 1
  {
    forall k | 0 <= k < |t.nodes[n].kind.children|
      ensures t.nodes[t.nodes[n].kind.children[k]].parent == Some(n)
    {
      assert PointsBack(t, n, k);
    }
    VisitChildrenIsBelow(t, n, t.nodes[n].kind.children);
  }

  lemma {:induction false} VisitChildrenIsBelow(t: Tree, p: nat, cs: seq<nat>)
    requires WellFormed(t) && IsElement(t, p)
    requires forall k :: 0 <= k < |cs| ==> p < cs[k] < |t.nodes| && t.nodes[cs[k]].parent == Some(p)
    ensures forall v :: v in VisitChildren(t, p, cs) ==> v != p && HasParent(t, v, p)
    decreases |t.nodes| - p, 0, |cs|
  {
    if cs != [] {
      var c := cs[0];
      assert HasParent(t, c, p);
      if t.nodes[c].kind.Element? {
        VisitIsBelow(t, c);
        forall v | v in Visit(t, c)
          ensures HasParent(t, v, p)
        {
          HasParentTransitive(t, v, c, p);
        }
      }
      VisitChildrenIsBelow(t, p, cs[1..]);
    }
  }

  /** The children of an element are among the nodes it visits. */
  lemma {:induction false} ChildrenAreVisited(t: Tree, p: nat, cs: seq<nat>, c: nat)
    requires ChildrenAfter(t) && p < |t.nodes|
    requires forall k :: 0 <= k < |cs| ==> p < cs[k] < |t.nodes|
    requires c in cs
    ensures c in VisitChildren(t, p, cs)
    decreases |cs|
  {
    if cs[0] != c {
      ChildrenAreVisited(t, p, cs[1..], c);
    }
  }

  /** What an element visits, an element it visits also visits... and no more. */
  lemma {:induction false} VisitNested(t: Tree, n: nat, v: nat)
    requires ChildrenAfter(t) && IsElement(t, n) && IsElement(t, v)
    requires v in Visit(t, n)
    ensures forall x :: x in Visit(t, v) ==> x in Visit(t, n)
    decreases |t.nodes| - n, 1
  {
    VisitChildrenNested(t, n, t.nodes[n].kind.children, v);
  }

  lemma {:induction false} VisitChildrenNested(t: Tree, p: nat, cs: seq<nat>, v: nat)
    requires ChildrenAfter(t) && p < |t.nodes| && IsElement(t, v)
    requires forall k :: 0 <= k < |cs| ==> p < cs[k] < |t.nodes|
    requires v in VisitChildren(t, p, cs)
    ensures forall x :: x in Visit(t, v) ==> x in VisitChildren(t, p, cs)
    decreases |t.nodes| - p, 0, |cs|
  {
    var c := cs[0];
    var below := if t.nodes[c].kind.Element? then Visit(t, c) else [];
    assert VisitChildren(t, p, cs) == [c] + below + VisitChildren(t, p, cs[1..]);
    if v == c {
    } else if v in below {
      VisitNested(t, c, v);
    } else {
      VisitChildrenNested(t, p, cs[1..], v);
    }
  }

  /** Every proper descendant of an element is visited. */
  lemma {:induction false} VisitIsComplete(t: Tree, n: nat, m: nat)
    requires WellFormed(t) && IsElement(t, n) && m < |t.nodes|
    requires m != n && HasParent(t, m, n)
    ensures m in Visit(t, n)
    decreases m
  {
    assert ListedByParent(t, m);
    var p := t.nodes[m].parent.value;
    assert HasParent(t, p, n);
    var cs := t.nodes[p].kind.children;
    if p == n {
      ChildrenAreVisited(t, n, cs, m);
    } else {
      VisitIsComplete(t, n, p);
      ChildrenAreVisited(t, p, cs, m);
      VisitNested(t, n, p);
    }
  }

  /** The visited nodes that are elements with the given tag, in visit order. */
  function ElementsTagged(t: Tree, vs: seq<nat>, tagname: string): (r: seq<nat>)
    requires forall k :: 0 <= k < |vs| ==> vs[k] < |t.nodes|
    ensures forall e :: e in r <==> e in vs && t.nodes[e].kind.Element? && t.nodes[e].kind.tag == tagname
    ensures |r| <= |vs|
  {
    if vs == [] then []
    else
      var keep := t.nodes[vs[0]].kind.Element? && t.nodes[vs[0]].kind.tag == tagname;
      (if keep then [vs[0]] else []) + ElementsTagged(t, vs[1..], tagname)
  }

  /** `getElementsByTagname(tag)`. */
  function GetElementsByTagname(t: Tree, n: nat, tagname: string): seq<nat>
    requires ChildrenAfter(t) && IsElement(t, n)
  {
    ElementsTagged(t, Visit(t, n), tagname)
  }

  /** `getElementsByTagname` finds exactly the proper descendants that are
      elements with that tag. */
  lemma ElementsByTagnameAreDescendants(t: Tree, n: nat, tagname: string, e: nat)
    requires WellFormed(t) && IsElement(t, n) && e < |t.nodes|
    ensures e in GetElementsByTagname(t, n, tagname) <==>
              e != n && HasParent(t, e, n) && t.nodes[e].kind.Element? && t.nodes[e].kind.tag == tagname
  {
    VisitIsBelow(t, n);
    if e != n && HasParent(t, e, n) {
      VisitIsComplete(t, n, e);
    }
  }

  function Spaces(n: nat): (r: string)
    ensures |r| == n && forall k :: 0 <= k < n ==> r[k] == ' '
  {
    seq(n, _ => ' ')
  }

  /** ` key="value"` for every entry, in record order. */
  function AttributesHtml(rec: seq<Attribute>): string {
    if rec == [] then ""
    else " " + rec[0].name + "=\"" + rec[0].value + "\"" + AttributesHtml(rec[1..])
  }

  /** `html(indent)`: a text node is its collapsed text after the indent; an
      element is its open tag, its children one level deeper joined by line
      breaks, and its close tag; the root contributes only its children, at
      the same indent. */
  function Html(t: Tree, n: nat, indent: nat): (r: string)
    requires ChildrenAfter(t) && n < |t.nodes|
    ensures t.nodes[n].kind.Element? && t.nodes[n].kind.tag != "" ==>
              var tag := t.nodes[n].kind.tag;
              var open := Spaces(indent) + "<" + tag + AttributesHtml(t.nodes[n].kind.attributes) + ">\n";
              var close := "\n" + Spaces(indent) + "</" + tag + ">";
              && |r| >= |open| + |close| && r[..|open|] == open && r[|r| - |close|..] == close
    decreases |t.nodes| - n, 1
  {
    match t.nodes[n].kind
    case Text(text) => Spaces(indent) + Collapse(text)
    case Element(tag, attributes, children) =>
      var inner := if tag == "" then indent else indent + 2;
      var body := HtmlChildren(t, n, children, inner);
      if tag == "" then body
      else
        var open := Spaces(indent) + "<" + tag + AttributesHtml(attributes) + ">\n";
        var close := "\n" + Spaces(indent) + "</" + tag + ">";
        var r := open + body + close;
        assert r[..|open|] == open;
        assert r[|r| - |close|..] == close;
        r
  }

  /** The children's html joined by line breaks. */
  function HtmlChildren(t: Tree, p: nat, cs: seq<nat>, indent: nat): string
    requires ChildrenAfter(t) && p < |t.nodes|
    requires forall k :: 0 <= k < |cs| ==> p < cs[k] < |t.nodes|
    decreases |t.nodes| - p, 0, |cs|
  {
    if cs == [] then ""
    else if |cs| == 1 then Html(t, cs[0], indent)
    else Html(t, cs[0], indent) + "\n" + HtmlChildren(t, p, cs[1..], indent)
  }

  /** A text node prints on one line: collapsing leaves no line break. */
  lemma TextHtmlIsOneLine(t: Tree, n: nat, indent: nat)
    requires ChildrenAfter(t) && n < |t.nodes| && t.nodes[n].kind.Text?
    ensures '\n' !in Html(t, n, indent)
  {
    CollapsedHasNoLineBreak(t.nodes[n].kind.text);
  }
}

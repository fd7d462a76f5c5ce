/** The regular-expression whitespace passes over text: `TextNode.textContext`
    (`replace(/\s+/g, " ")`, parser.ts:395-397) and the two trims of the layout
    post-pass (`replace(/^\s+/, "")` and `replace(/\s+$/, "")`,
    renderer.ts:184 and 196). All of them use JavaScript's `\s`. */
module Whitespace {
  import opened CharClasses

  /** `replace(/^\s+/, "")`: drop the leading whitespace. */
  function TrimStart(s: string): (r: string)
    ensures |r| <= |s| && r == s[|s| - |r|..]
    ensures r == [] || !IsJsWhitespace(r[0])
    ensures forall k :: 0 <= k < |s| - |r| ==> IsJsWhitespace(s[k])
    decreases |s|
  {
    if |s| > 0 && IsJsWhitespace(s[0]) then TrimStart(s[1..]) else s
  }

  /** `replace(/\s+$/, "")`: drop the trailing whitespace. */
  function TrimEnd(s: string): (r: string)
    ensures |r| <= |s| && r == s[..|r|]
    ensures r == [] || !IsJsWhitespace(r[|r| - 1])
    ensures forall k :: |r| <= k < |s| ==> IsJsWhitespace(s[k])
    decreases |s|
  {
    if |s| > 0 && IsJsWhitespace(s[|s| - 1]) then TrimEnd(s[..|s| - 1]) else s
  }

  /** The text with every whitespace character removed. */
  function Strip(s: string): (r: string)
    ensures forall k :: 0 <= k < |r| ==> !IsJsWhitespace(r[k])
    decreases |s|
  {
    if |s| == 0 then []
    else if IsJsWhitespace(s[0]) then Strip(s[1..])
    else [s[0]] + Strip(s[1..])
  }

  /** The only whitespace left is single spaces. */
  predicate IsCollapsed(r: string) {
    && (forall k :: 0 <= k < |r| && IsJsWhitespace(r[k]) ==> r[k] == ' ')
    && (forall k :: 0 <= k < |r| - 1 ==> !(r[k] == ' ' && r[k + 1] == ' '))
  }

  /** The text with every whitespace character replaced by a space. */
  function Spaced(s: string): (r: string)
    ensures |r| == |s|
    ensures forall k :: 0 <= k < |s| ==> r[k] == if IsJsWhitespace(s[k]) then ' ' else s[k]
  {
    seq(|s|, k requires 0 <= k < |s| => if IsJsWhitespace(s[k]) then ' ' else s[k])
  }

  /** The text with every space that another space follows removed: each run
      of spaces is left as one. */
  function Squeeze(s: string): string
    decreases |s|
  {
    if |s| == 0 then []
    else if s[0] == ' ' && |s| > 1 && s[1] == ' ' then Squeeze(s[1..])
    else [s[0]] + Squeeze(s[1..])
  }

  lemma SpacedTail(s: string)
    requires |s| > 0
    ensures Spaced(s)[1..] == Spaced(s[1..])
  {
  }

  /** A text starting with a character other than whitespace keeps it. */
  lemma SqueezeSolid(s: string)
    requires |s| > 0 && !IsJsWhitespace(s[0])
    ensures Squeeze(Spaced(s)) == [s[0]] + Squeeze(Spaced(s[1..]))
  {
    SpacedTail(s);
  }

  /** A text starting with whitespace gives one space, and the rest of the
      reference goes on after the whole whitespace run. */
  lemma {:induction false} SqueezeSpaces(s: string)
    requires |s| > 0 && IsJsWhitespace(s[0])
    ensures Squeeze(Spaced(s)) == [' '] + Squeeze(Spaced(TrimStart(s[1..])))
    decreases |s|
  {
    var u := s[1..];
    SpacedTail(s);
    if |u| > 0 && IsJsWhitespace(u[0]) {
      SqueezeSpaces(u);
      assert TrimStart(u) == TrimStart(u[1..]);
    } else {
      assert TrimStart(u) == u;
    }
  }

  /** `textContext`: every maximal run of whitespace becomes one space, which
      is the reference: whitespace made spaces, then runs of spaces squeezed. */
  function Collapse(s: string): (r: string)
    ensures r == Squeeze(Spaced(s))
    ensures IsCollapsed(r)
    ensures |r| == 0 <==> |s| == 0
    ensures |s| > 0 && IsJsWhitespace(s[0]) ==> r[0] == ' '
    ensures |s| > 0 && !IsJsWhitespace(s[0]) ==> r[0] == s[0]
    decreases |s|
  {
    if |s| == 0 then []
    else if IsJsWhitespace(s[0]) then
      var rest := TrimStart(s[1..]);
      var t := Collapse(rest);
      CollapsedCons(' ', t);
      SqueezeSpaces(s);
      [' '] + t
    else
      var t := Collapse(s[1..]);
      CollapsedCons(s[0], t);
      SqueezeSolid(s);
      [s[0]] + t
  }

  /** The collapsed text ends in a space exactly when the text ends in
      whitespace. */
  lemma {:induction false} CollapseEnds(s: string)
    requires |s| > 0
    ensures var r := Collapse(s); r[|r| - 1] == ' ' <==> IsJsWhitespace(s[|s| - 1])
    decreases |s|
  {
    var r := Collapse(s);
    if IsJsWhitespace(s[0]) {
      var rest := TrimStart(s[1..]);
      var t := Collapse(rest);
      assert r == [' '] + t;
      if rest != [] {
        CollapseEnds(rest);
        assert rest[|rest| - 1] == s[|s| - 1];
        assert r[|r| - 1] == t[|t| - 1];
      } else {
        assert t == [];
        assert IsJsWhitespace(s[|s| - 1]);
      }
    } else {
      var t := Collapse(s[1..]);
      assert r == [s[0]] + t;
      if |s| > 1 {
        CollapseEnds(s[1..]);
        assert r[|r| - 1] == t[|t| - 1];
      } else {
        assert t == [];
      }
    }
  }

  /** One more character in front of collapsed text keeps it collapsed, unless
      it is whitespace other than a space or a second space in a row. */
  lemma CollapsedCons(c: char, t: string)
    requires IsCollapsed(t)
    requires IsJsWhitespace(c) ==> c == ' '
    requires c == ' ' && t != [] ==> t[0] != ' '
    ensures IsCollapsed([c] + t)
  {
    var r := [c] + t;
    forall k | 0 <= k < |r| && IsJsWhitespace(r[k])
      ensures r[k] == ' '
    {
      if k > 0 { assert r[k] == t[k - 1]; }
    }
    forall k | 0 <= k < |r| - 1
      ensures !(r[k] == ' ' && r[k + 1] == ' ')
    {
      if k > 0 { assert r[k] == t[k - 1] && r[k + 1] == t[k]; }
    }
  }

  /** Removing whitespace first or after trimming the front gives the same text. */
  lemma {:induction false} StripTrimStart(s: string)
    ensures Strip(TrimStart(s)) == Strip(s)
    decreases |s|
  {
    if |s| > 0 && IsJsWhitespace(s[0]) {
      StripTrimStart(s[1..]);
    }
  }

  /** Collapsing keeps every non-whitespace character, in order. */
  lemma {:induction false} CollapseKeepsText(s: string)
    ensures Strip(Collapse(s)) == Strip(s)
    decreases |s|
  {
    if |s| == 0 {
    } else if IsJsWhitespace(s[0]) {
      var rest := TrimStart(s[1..]);
      CollapseKeepsText(rest);
      StripTrimStart(s[1..]);
      assert Strip([' '] + Collapse(rest)) == Strip(Collapse(rest));
    } else {
      CollapseKeepsText(s[1..]);
      assert Strip([s[0]] + Collapse(s[1..])) == [s[0]] + Strip(Collapse(s[1..]));
    }
  }

  /** Collapsed text is left as it is, so collapsing twice is collapsing once. */
  lemma {:induction false} CollapseFixesCollapsed(s: string)
    requires IsCollapsed(s)
    ensures Collapse(s) == s
    decreases |s|
  {
    if |s| > 0 {
      assert IsCollapsed(s[1..]);
      CollapseFixesCollapsed(s[1..]);
      if IsJsWhitespace(s[0]) {
        assert s[0] == ' ';
        if |s| > 1 {
          assert !IsJsWhitespace(s[1]);
        }
        assert TrimStart(s[1..]) == s[1..];
      }
    }
  }

  lemma CollapseIdempotent(s: string)
    ensures Collapse(Collapse(s)) == Collapse(s)
  {
    CollapseFixesCollapsed(Collapse(s));
  }

  /** In collapsed text `\s` and the tokenizer's narrower space class agree. */
  lemma CollapsedSpaceClasses(r: string, k: int)
    requires IsCollapsed(r) && 0 <= k < |r|
    ensures IsJsWhitespace(r[k]) <==> IsCharSpace(r[k])
    ensures IsJsWhitespace(r[k]) <==> r[k] == ' '
  {
  }

  /** A line break never survives collapsing. */
  lemma CollapsedHasNoLineBreak(s: string)
    ensures '\n' !in Collapse(s)
  {
  }
}

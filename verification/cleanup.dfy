/** The second half of `generateBlocks` (renderer.ts:175-213): whitespace at
    the edges of each block is trimmed, then empty runs and empty blocks are
    dropped. Both trimming passes only rewrite the texts of a block's runs, so
    they are stated on the sequence of texts. */
module Cleanup {
  import opened Wrappers
  import opened Sequences
  import opened CharClasses
  import opened Whitespace
  import opened Dom
  import opened Layout

  /** The text ends in one of the four HTML spaces. */
  predicate EndsInSpace(s: string) {
    |s| > 0 && IsCharSpace(s[|s| - 1])
  }

  /** The text starts with a character that is not whitespace. */
  predicate StartsSolid(s: string) {
    |s| > 0 && !IsJsWhitespace(s[0])
  }

  /** The text ends with a character that is not whitespace. */
  predicate EndsSolid(s: string) {
    |s| > 0 && !IsJsWhitespace(s[|s| - 1])
  }

  /** The index of the last text before `k` that is not empty. */
  function LastNonEmpty(texts: seq<string>, k: nat): Option<nat>
    requires k <= |texts|
  {
    if k == 0 then None
    else if texts[k - 1] != "" then Some(k - 1)
    else LastNonEmpty(texts, k - 1)
  }

  lemma {:induction false} LastNonEmptySpec(texts: seq<string>, k: nat)
    requires k <= |texts|
    ensures var r := LastNonEmpty(texts, k);
            && (r.None? <==> forall i :: 0 <= i < k ==> texts[i] == "")
            && (r.Some? ==> r.value < k && texts[r.value] != "" && forall i :: r.value < i < k ==> texts[i] == "")
  {
    if k > 0 && texts[k - 1] == "" {
      LastNonEmptySpec(texts, k - 1);
    }
  }

  /** Whether text `k` of the result is left-trimmed: when no earlier text
      kept anything, as the flag starts out; otherwise when the last earlier
      text with something in it ends in a space. */
  predicate LeadFlag(start: bool, texts: seq<string>, k: nat)
    requires k <= |texts|
  {
    match LastNonEmpty(texts, k)
    case None => start
    case Some(j) => j < |texts| && EndsInSpace(texts[j])
  }

  /** The forward pass with the `shouldRemoveLeading` flag. */
  function TrimLeading(texts: seq<string>, remove: bool): (r: seq<string>)
    ensures |r| == |texts|
  {
    if texts == [] then []
    else
      var first := if remove then TrimStart(texts[0]) else texts[0];
      var remove' := if first == "" then remove else EndsInSpace(first);
      [first] + TrimLeading(texts[1..], remove')
  }

  lemma {:induction false} LastNonEmptyShift(r: seq<string>, k: nat)
    requires |r| > 0 && k < |r|
    ensures LastNonEmpty(r, k + 1) ==
              match LastNonEmpty(r[1..], k)
              case Some(j) => Some(j + 1)
              case None => if r[0] != "" then Some(0) else None
  {
    if k > 0 {
      assert r[k] == r[1..][k - 1];
      if r[k] == "" {
        LastNonEmptyShift(r, k - 1);
      }
    }
  }

  /** The flag seen by text `k + 1` is the flag the rest of the pass sees at
      text `k`, started from the flag after the first text. */
  lemma LeadFlagShift(remove: bool, r: seq<string>, k: nat, remove': bool, rest: seq<string>)
    requires |r| > 0 && k < |r|
    requires remove' == (if r[0] == "" then remove else EndsInSpace(r[0])) && rest == r[1..]
    ensures LeadFlag(remove, r, k + 1) == LeadFlag(remove', rest, k)
  {
    LastNonEmptyShift(r, k);
    LastNonEmptySpec(r[1..], k);
    match LastNonEmpty(r[1..], k)
    case Some(j) =>
      assert r[j + 1] == r[1..][j];
    case None =>
  }

  /** A text is left-trimmed exactly when no earlier text kept anything, or
      the last earlier text that kept something ends in a space; otherwise it
      is unchanged. */
  lemma {:induction false} TrimLeadingSpec(texts: seq<string>, remove: bool, k: nat)
    requires k < |texts|
    ensures var r := TrimLeading(texts, remove);
            r[k] == (if LeadFlag(remove, r, k) then TrimStart(texts[k]) else texts[k])
    decreases k
  {
    var r := TrimLeading(texts, remove);
    var first := if remove then TrimStart(texts[0]) else texts[0];
    var remove' := if first == "" then remove else EndsInSpace(first);
    var rest := TrimLeading(texts[1..], remove');
    if k == 0 {
      TrimLeadingCons(texts, remove, r, first, rest, k);
      TrimLeadingFirst(texts, remove, r, first);
    } else {
      TrimLeadingSpec(texts[1..], remove', k - 1);
      TrimLeadingCons(texts, remove, r, first, rest, k);
      TrimLeadingLater(texts, remove, k, r, first, remove', rest);
    }
  }

  /** The first text sees the flag the pass starts with. */
  lemma TrimLeadingFirst(texts: seq<string>, remove: bool, r: seq<string>, first: string)
    requires 0 < |texts| == |r| && r[0] == first
    requires first == (if remove then TrimStart(texts[0]) else texts[0])
    ensures r[0] == (if LeadFlag(remove, r, 0) then TrimStart(texts[0]) else texts[0])
  {
    assert LeadFlag(remove, r, 0) == remove;
  }

  /** Text `k > 0` of the forward pass is text `k - 1` of the pass over the
      remaining texts, and sees the same flag. */
  lemma TrimLeadingLater(texts: seq<string>, remove: bool, k: nat, r: seq<string>, first: string, remove': bool, rest: seq<string>)
    requires 0 < k < |texts| && |r| == |texts|
    requires r[0] == first && r[1..] == rest && r[k] == rest[k - 1]
    requires remove' == (if first == "" then remove else EndsInSpace(first))
    requires rest[k - 1] == (if LeadFlag(remove', rest, k - 1) then TrimStart(texts[1..][k - 1]) else texts[1..][k - 1])
    ensures r[k] == (if LeadFlag(remove, r, k) then TrimStart(texts[k]) else texts[k])
  {
    LeadFlagShift(remove, r, k - 1, remove', rest);
    assert texts[k] == texts[1..][k - 1];
  }

  /** The forward pass trims the first text as the flag says, then carries on
      with the flag that text leaves behind. */
  lemma TrimLeadingCons(texts: seq<string>, remove: bool, r: seq<string>, first: string, rest: seq<string>, k: nat)
    requires k < |texts| && r == TrimLeading(texts, remove)
    requires first == if remove then TrimStart(texts[0]) else texts[0]
    requires rest == TrimLeading(texts[1..], if first == "" then remove else EndsInSpace(first))
    ensures r[0] == first && r[1..] == rest && (k > 0 ==> r[k] == rest[k - 1])
  {
  }

  /** The index of the last text that is not all whitespace. */
  function LastKept(texts: seq<string>): (r: Option<nat>)
    ensures r.Some? ==> r.value < |texts|
  {
    if texts == [] then None
    else if TrimEnd(texts[|texts| - 1]) != "" then Some(|texts| - 1)
    else LastKept(texts[..|texts| - 1])
  }

  lemma {:induction false} LastKeptSpec(texts: seq<string>)
    ensures var r := LastKept(texts);
            && (r.Some? ==> TrimEnd(texts[r.value]) != "")
            && forall k :: (if r.Some? then r.value + 1 else 0) <= k < |texts| ==> TrimEnd(texts[k]) == ""
  {
    if texts != [] {
      var front := texts[..|texts| - 1];
      if TrimEnd(texts[|texts| - 1]) == "" {
        LastKeptSpec(front);
        assert LastKept(texts) == LastKept(front);
        assert forall k :: 0 <= k < |front| ==> front[k] == texts[k];
      }
    }
  }

  /** Where the backward pass stops: the last text that keeps something, or
      the start when none does. */
  function Cut(texts: seq<string>): nat {
    match LastKept(texts)
    case Some(c) => c
    case None => 0
  }

  /** The backward pass: right-trim texts from the end until one keeps
      something; the texts before it are untouched. */
  function TrimTrailing(texts: seq<string>): (r: seq<string>)
    ensures |r| == |texts|
  {
    if texts == [] then []
    else
      var n := |texts|;
      var last := TrimEnd(texts[n - 1]);
      if last != "" then texts[..n - 1] + [last]
      else TrimTrailing(texts[..n - 1]) + [last]
  }

  /** A text is right-trimmed exactly when it is the last one that keeps
      something, or comes after it; the texts before it are untouched. */
  lemma {:induction false} TrimTrailingSpec(texts: seq<string>, k: nat)
    requires k < |texts|
    ensures TrimTrailing(texts)[k] == (if Cut(texts) <= k then TrimEnd(texts[k]) else texts[k])
    decreases |texts|
  {
    var n := |texts|;
    var front := texts[..n - 1];
    var last := TrimEnd(texts[n - 1]);
    var r := TrimTrailing(texts);
    TrimTrailingSnoc(texts, r, front, last);
    if k < n - 1 && last == "" {
      assert LastKept(texts) == LastKept(front);
      assert front[k] == texts[k];
      TrimTrailingSpec(front, k);
    }
  }

  /** The backward pass right-trims the last text, and carries on leftwards
      only when nothing is left of it. */
  lemma TrimTrailingSnoc(texts: seq<string>, r: seq<string>, front: seq<string>, last: string)
    requires texts != [] && r == TrimTrailing(texts)
    requires front == texts[..|texts| - 1] && last == TrimEnd(texts[|texts| - 1])
    ensures r[|texts| - 1] == last
    ensures forall i :: 0 <= i < |texts| - 1 ==> r[i] == if last != "" then front[i] else TrimTrailing(front)[i]
  {
  }

  function Texts(runs: seq<Run>): (r: seq<string>)
    ensures |r| == |runs| && forall k :: 0 <= k < |runs| ==> r[k] == runs[k].text
  {
    seq(|runs|, k requires 0 <= k < |runs| => runs[k].text)
  }

  /** The runs with their texts replaced, context and owner kept. */
  function WithTexts(runs: seq<Run>, texts: seq<string>): (r: seq<Run>)
    requires |texts| == |runs|
    ensures |r| == |runs| && forall k :: 0 <= k < |runs| ==> r[k] == runs[k].(text := texts[k])
  {
    seq(|runs|, k requires 0 <= k < |runs| => runs[k].(text := texts[k]))
  }

  /** `elements.filter((element) => element.text)`. */
  function NonEmptyRuns(runs: seq<Run>): (r: seq<Run>)
    ensures forall k :: 0 <= k < |r| ==> r[k].text != ""
    ensures |r| <= |runs|
  {
    if runs == [] then []
    else (if runs[0].text != "" then [runs[0]] else []) + NonEmptyRuns(runs[1..])
  }

  /** The filter keeps order: it distributes over concatenation. */
  lemma {:induction false} NonEmptyRunsAppend(a: seq<Run>, b: seq<Run>)
    ensures NonEmptyRuns(a + b) == NonEmptyRuns(a) + NonEmptyRuns(b)
  {
    if a == [] {
      assert a + b == b;
    } else {
      var h := if a[0].text != "" then [a[0]] else [];
      assert (a + b)[0] == a[0];
      assert (a + b)[1..] == a[1..] + b;
      assert NonEmptyRuns(a + b) == h + NonEmptyRuns(a[1..] + b);
      NonEmptyRunsAppend(a[1..], b);
      Associate(h, NonEmptyRuns(a[1..]), NonEmptyRuns(b));
    }
  }

  /** Every run the filter keeps comes from its input. */
  lemma {:induction false} NonEmptyRunsFrom(runs: seq<Run>)
    ensures forall k :: 0 <= k < |NonEmptyRuns(runs)| ==> NonEmptyRuns(runs)[k] in runs
  {
    if runs != [] {
      NonEmptyRunsFrom(runs[1..]);
    }
  }

  lemma {:induction false} NonEmptyRunsOfEmpties(runs: seq<Run>)
    requires forall k :: 0 <= k < |runs| ==> runs[k].text == ""
    ensures NonEmptyRuns(runs) == []
  {
    if runs != [] {
      NonEmptyRunsOfEmpties(runs[1..]);
    }
  }

  /** The first run the filter keeps is the first run with text. */
  lemma {:induction false} NonEmptyRunsFirst(runs: seq<Run>, i: nat)
    requires i < |runs| && runs[i].text != ""
    requires forall j :: 0 <= j < i ==> runs[j].text == ""
    ensures |NonEmptyRuns(runs)| > 0 && NonEmptyRuns(runs)[0] == runs[i]
    decreases i
  {
    if i > 0 {
      NonEmptyRunsFirst(runs[1..], i - 1);
    }
  }

  /** The last run the filter keeps is the last run with text. */
  lemma NonEmptyRunsLast(runs: seq<Run>, m: nat)
    requires m < |runs| && runs[m].text != ""
    requires forall k :: m < k < |runs| ==> runs[k].text == ""
    ensures |NonEmptyRuns(runs)| > 0 && NonEmptyRuns(runs)[|NonEmptyRuns(runs)| - 1] == runs[m]
  {
    var front, back := runs[..m], runs[m + 1..];
    assert runs == front + ([runs[m]] + back);
    NonEmptyRunsAppend(front, [runs[m]] + back);
    NonEmptyRunsAppend([runs[m]], back);
    NonEmptyRunsOfEmpties(back);
    assert NonEmptyRuns([runs[m]]) == [runs[m]] by {
      assert [runs[m]][1..] == [];
    }
  }

  /** The index of the first run with text. */
  function FirstWithText(runs: seq<Run>): (i: nat)
    requires exists k :: 0 <= k < |runs| && runs[k].text != ""
    ensures i < |runs| && runs[i].text != "" && forall j :: 0 <= j < i ==> runs[j].text == ""
  {
    if runs[0].text != "" then 0
    else
      assert exists k :: 0 <= k < |runs[1..]| && runs[1..][k].text != "" by {
        var k :| 0 <= k < |runs| && runs[k].text != "";
        assert runs[1..][k - 1] == runs[k];
      }
      1 + FirstWithText(runs[1..])
  }

  /** Both passes over one block's runs. */
  function Trimmed(runs: seq<Run>): (r: seq<Run>)
    ensures |r| == |runs|
  {
    WithTexts(runs, TrimTrailing(TrimLeading(Texts(runs), true)))
  }

  /** Before the first text of the trimmed block that keeps something, every
      text of the forward pass is already empty. */
  lemma EmptyBeforeFirstKept(L: seq<string>, i: nat)
    requires i < |L| && TrimTrailing(L)[i] != ""
    requires forall j :: 0 <= j < i ==> TrimTrailing(L)[j] == ""
    ensures LastKept(L).Some? && i <= LastKept(L).value
    ensures forall j :: 0 <= j < i ==> L[j] == ""
  {
    var T := TrimTrailing(L);
    LastKeptSpec(L);
    TrimTrailingSpec(L, i);
    if LastKept(L).None? || LastKept(L).value < i {
      assert false;
    }
    forall j | 0 <= j < i
      ensures L[j] == ""
    {
      TrimTrailingSpec(L, j);
    }
  }

  /** After the filter, the first run starts with a non-whitespace
      character. */
  lemma FirstRunTrimmed(runs: seq<Run>)
    ensures |NonEmptyRuns(Trimmed(runs))| > 0 ==> StartsSolid(NonEmptyRuns(Trimmed(runs))[0].text)
  {
    if |NonEmptyRuns(Trimmed(runs))| > 0 {
      FirstRunTrimmedIn(runs);
    }
  }

  lemma FirstRunTrimmedIn(runs: seq<Run>)
    requires |NonEmptyRuns(Trimmed(runs))| > 0
    ensures StartsSolid(NonEmptyRuns(Trimmed(runs))[0].text)
  {
    var L := TrimLeading(Texts(runs), true);
    var T := Trimmed(runs);
    if forall k :: 0 <= k < |T| ==> T[k].text == "" {
      NonEmptyRunsOfEmpties(T);
      assert false;
    }
    var i := FirstWithText(T);
    NonEmptyRunsFirst(T, i);
    EmptyBeforeFirstKept(L, i);
    LastNonEmptySpec(L, i);
    TrimLeadingSpec(Texts(runs), true, i);
    TrimTrailingSpec(L, i);
    assert L[i] == TrimStart(runs[i].text);
    assert T[i].text[0] == L[i][0];
  }

  /** After the filter, the last run ends with a non-whitespace character. */
  lemma LastRunTrimmed(runs: seq<Run>)
    ensures var F := NonEmptyRuns(Trimmed(runs)); |F| > 0 ==> EndsSolid(F[|F| - 1].text)
  {
    if |NonEmptyRuns(Trimmed(runs))| > 0 {
      LastRunTrimmedIn(runs);
    }
  }

  lemma LastRunTrimmedIn(runs: seq<Run>)
    requires |NonEmptyRuns(Trimmed(runs))| > 0
    ensures var F := NonEmptyRuns(Trimmed(runs)); EndsSolid(F[|F| - 1].text)
  {
    var L := TrimLeading(Texts(runs), true);
    var T := Trimmed(runs);
    LastKeptSpec(L);
    if LastKept(L).None? {
      forall k | 0 <= k < |T|
        ensures T[k].text == ""
      {
        TrimTrailingSpec(L, k);
      }
      NonEmptyRunsOfEmpties(T);
      assert false;
    }
    var c := LastKept(L).value;
    TrimTrailingSpec(L, c);
    forall k | c < k < |T|
      ensures T[k].text == ""
    {
      TrimTrailingSpec(L, k);
    }
    NonEmptyRunsLast(T, c);
  }

  /** Every run left after the passes and the filter keeps the context and
      owner of a collected run. */
  lemma TrimmedKeepsOrigins(runs: seq<Run>)
    ensures var F := NonEmptyRuns(Trimmed(runs));
            forall k :: 0 <= k < |F| ==> exists j :: 0 <= j < |runs| && F[k] == runs[j].(text := F[k].text)
  {
    var texts := TrimTrailing(TrimLeading(Texts(runs), true));
    var T := Trimmed(runs);
    assert T == WithTexts(runs, texts);
    NonEmptyRunsFrom(T);
    RetextedOrigins(runs, texts, T, NonEmptyRuns(T));
  }

  /** Runs drawn from a re-texted copy of `runs` are runs of `runs` with
      another text. */
  lemma RetextedOrigins(runs: seq<Run>, texts: seq<string>, T: seq<Run>, F: seq<Run>)
    requires |texts| == |runs| && T == WithTexts(runs, texts)
    requires forall k :: 0 <= k < |F| ==> F[k] in T
    ensures forall k :: 0 <= k < |F| ==> Retexted(runs, F[k])
  {
    forall k | 0 <= k < |F|
      ensures Retexted(runs, F[k])
    {
      var j :| 0 <= j < |T| && T[j] == F[k];
      assert F[k] == runs[j].(text := F[k].text);
    }
  }

  /** The run is one of `runs` with its text replaced. */
  predicate Retexted(runs: seq<Run>, x: Run) {
    exists j :: 0 <= j < |runs| && x == runs[j].(text := x.text)
  }

  /** One block after the post-pass. */
  function Normalize(b: Block): Block {
    b.(runs := NonEmptyRuns(Trimmed(b.runs)))
  }

  /** Blocks left without runs are removed. */
  function NonEmptyBlocks(blocks: seq<Block>): (r: seq<Block>)
    ensures forall k :: 0 <= k < |r| ==> r[k].runs != []
    ensures |r| <= |blocks|
  {
    if blocks == [] then []
    else (if blocks[0].runs != [] then [blocks[0]] else []) + NonEmptyBlocks(blocks[1..])
  }

  /** Every block the filter keeps comes from its input. */
  lemma {:induction false} NonEmptyBlocksFrom(blocks: seq<Block>)
    ensures forall k :: 0 <= k < |NonEmptyBlocks(blocks)| ==> NonEmptyBlocks(blocks)[k] in blocks
  {
    if blocks != [] {
      NonEmptyBlocksFrom(blocks[1..]);
    }
  }

  lemma {:induction false} NonEmptyBlocksAppend(a: seq<Block>, b: seq<Block>)
    ensures NonEmptyBlocks(a + b) == NonEmptyBlocks(a) + NonEmptyBlocks(b)
  {
    if a == [] {
      assert a + b == b;
    } else {
      assert (a + b)[0] == a[0];
      assert (a + b)[1..] == a[1..] + b;
      NonEmptyBlocksAppend(a[1..], b);
    }
  }


  /** Each block of the sequence after the post-pass, in the same order. */
  function NormalizeAll(blocks: seq<Block>): (r: seq<Block>)
    ensures |r| == |blocks| && forall i :: 0 <= i < |blocks| ==> r[i] == Normalize(blocks[i])
  {
    if blocks == [] then [] else NormalizeAll(blocks[..|blocks| - 1]) + [Normalize(blocks[|blocks| - 1])]
  }

  /** A block as the post-pass leaves it: it has runs, none of them is empty,
      the first starts and the last ends with a non-whitespace character. */
  predicate Tidy(b: Block) {
    && b.runs != []
    && (forall k :: 0 <= k < |b.runs| ==> b.runs[k].text != "")
    && StartsSolid(b.runs[0].text)
    && EndsSolid(b.runs[|b.runs| - 1].text)
  }

  /** The run sits in a block of its owner or of an ancestor of its owner,
      and its owner and every element from it up to `body` is shown. */
  predicate RunUnder(t: Tree, body: nat, element: nat, r: Run)
    requires ParentsBefore(t)
  {
    r.owner < |t.nodes| && HasParent(t, r.owner, element) && ShownBelow(t, body, r.owner)
  }

  predicate BlockUnder(t: Tree, body: nat, b: Block)
    requires ParentsBefore(t)
  {
    forall k :: 0 <= k < |b.runs| ==> RunUnder(t, body, b.element, b.runs[k])
  }

  lemma NormalizeTidy(b: Block)
    requires Normalize(b).runs != []
    ensures Tidy(Normalize(b))
  {
    var F := Normalize(b).runs;
    TrimmedEdges(b.runs, F);
    TidyRuns(b, F);
  }

  lemma TrimmedEdges(runs: seq<Run>, F: seq<Run>)
    requires F == NonEmptyRuns(Trimmed(runs)) && F != []
    ensures StartsSolid(F[0].text) && EndsSolid(F[|F| - 1].text)
    ensures forall k :: 0 <= k < |F| ==> F[k].text != ""
  {
    FirstRunTrimmed(runs);
    LastRunTrimmed(runs);
  }

  lemma TidyRuns(b: Block, F: seq<Run>)
    requires F != [] && StartsSolid(F[0].text) && EndsSolid(F[|F| - 1].text)
    requires forall k :: 0 <= k < |F| ==> F[k].text != ""
    ensures Tidy(b.(runs := F))
  {
  }

  /** The post-pass keeps each surviving run's owner, so the block's runs
      stay where they were anchored. */
  lemma NormalizeKeepsOwners(t: Tree, body: nat, b: Block)
    requires ParentsBefore(t) && BlockUnder(t, body, b)
    ensures BlockUnder(t, body, Normalize(b))
  {
    var nb := Normalize(b);
    assert nb.element == b.element && nb.runs == NonEmptyRuns(Trimmed(b.runs));
    TrimmedKeepsOrigins(b.runs);
    OwnersKept(t, body, b.element, b.runs, nb.runs);
  }

  /** Runs that are runs of a block with new texts sit where those did. */
  lemma OwnersKept(t: Tree, body: nat, element: nat, runs: seq<Run>, F: seq<Run>)
    requires ParentsBefore(t)
    requires forall k :: 0 <= k < |runs| ==> RunUnder(t, body, element, runs[k])
    requires forall k :: 0 <= k < |F| ==> exists j :: 0 <= j < |runs| && F[k] == runs[j].(text := F[k].text)
    ensures forall k :: 0 <= k < |F| ==> RunUnder(t, body, element, F[k])
  {
    forall k | 0 <= k < |F|
      ensures RunUnder(t, body, element, F[k])
    {
      var j :| 0 <= j < |runs| && F[k] == runs[j].(text := F[k].text);
      RunUnderAnyText(t, body, element, runs[j], F[k]);
    }
  }

  /** Whether a run sits under an element depends on its owner only. */
  lemma RunUnderAnyText(t: Tree, body: nat, element: nat, r: Run, r': Run)
    requires ParentsBefore(t) && RunUnder(t, body, element, r)
    requires r' == r.(text := r'.text)
    ensures RunUnder(t, body, element, r')
  {
  }

  lemma {:induction false} RunInRunsOf(blocks: seq<Block>, i: nat, k: nat)
    requires i < |blocks| && k < |blocks[i].runs|
    ensures blocks[i].runs[k] in RunsOf(blocks)
    decreases |blocks|
  {
    if i < |blocks| - 1 {
      var front := blocks[..|blocks| - 1];
      assert front[i] == blocks[i];
      RunInRunsOf(front, i, k);
    } else {
      assert RunsOf(blocks)[|RunsOf(blocks[..|blocks| - 1])| + k] == blocks[i].runs[k];
    }
  }

  /** Every block of the walk from `body` has its runs anchored and shown. */
  lemma RawBlocksUnder(t: Tree, body: nat)
    requires WellFormed(t) && IsElement(t, body)
    ensures var raw := Collect(t, [Block(body, StyleOf(t, body), [])], Preorder(t, body, EmptyCtx));
            forall i :: 0 <= i < |raw| ==> BlockUnder(t, body, raw[i])
  {
    var raw := Collect(t, [Block(body, StyleOf(t, body), [])], Preorder(t, body, EmptyCtx));
    RawBlocksFacts(t, body);
    forall i, k | 0 <= i < |raw| && 0 <= k < |raw[i].runs|
      ensures RunUnder(t, body, raw[i].element, raw[i].runs[k])
    {
      RunInRunsOf(raw, i, k);
      var m :| 0 <= m < |RunsOf(raw)| && RunsOf(raw)[m] == raw[i].runs[k];
    }
  }

  /** One more block through the post-pass and the filter: it is appended
      exactly when runs are left in it, and then it is tidy. */
  lemma NormalizeStep(done: seq<Block>, b: Block)
    ensures NonEmptyBlocks(NormalizeAll(done + [b])) ==
              NonEmptyBlocks(NormalizeAll(done)) + (if Normalize(b).runs != [] then [Normalize(b)] else [])
    ensures Normalize(b).runs != [] ==> Tidy(Normalize(b))
  {
    var n := Normalize(b);
    assert (done + [b])[..|done|] == done;
    NonEmptyBlocksAppend(NormalizeAll(done), [n]);
    assert [n][1..] == [];
    if n.runs != [] {
      NormalizeTidy(b);
    }
  }

  /** The post-pass loops of `generateBlocks` (renderer.ts:178-211), fused
      into one pass over the blocks: each block is trimmed and filtered, and
      kept when runs are left in it. */
  method PostPass(raw: seq<Block>) returns (blocks: seq<Block>)
    ensures blocks == NonEmptyBlocks(NormalizeAll(raw))
    ensures forall j :: 0 <= j < |blocks| ==> Tidy(blocks[j])
  {
    blocks := [];
    var i := 0;
    assert raw[..0] == [];
    while i < |raw|
      invariant 0 <= i <= |raw|
      invariant PostPassInv(raw, i, blocks)
    {
      var b := Normalize(raw[i]);
      var next := if b.runs != [] then blocks + [b] else blocks;
      PostPassStep(raw, i, blocks, b);
      blocks := next;
      i := i + 1;
    }
    assert raw[..i] == raw;
  }

  /** The post-pass loop's invariant: the blocks so far are the first `i` raw
      blocks trimmed and filtered, and each of them is tidy. */
  predicate PostPassInv(raw: seq<Block>, i: nat, blocks: seq<Block>) {
    && i <= |raw|
    && blocks == NonEmptyBlocks(NormalizeAll(raw[..i]))
    && forall j :: 0 <= j < |blocks| ==> Tidy(blocks[j])
  }

  /** One turn of the post-pass loop keeps its invariant. */
  lemma PostPassStep(raw: seq<Block>, i: nat, blocks: seq<Block>, b: Block)
    requires i < |raw|
    ensures PostPassInv(raw, i, blocks) && b == Normalize(raw[i]) ==>
            PostPassInv(raw, i + 1, if b.runs != [] then blocks + [b] else blocks)
  {
    if PostPassInv(raw, i, blocks) && b == Normalize(raw[i]) {
      Snoc(raw, i);
      NormalizeStep(raw[..i], raw[i]);
      TidySnoc(blocks, b);
    }
  }

  lemma TidySnoc(blocks: seq<Block>, b: Block)
    requires forall j :: 0 <= j < |blocks| ==> Tidy(blocks[j])
    requires b.runs != [] ==> Tidy(b)
    ensures var next := if b.runs != [] then blocks + [b] else blocks;
            forall j :: 0 <= j < |next| ==> Tidy(next[j])
  {
  }

  /** The blocks the post-pass returns keep their runs where the walk
      anchored them. */
  lemma PostPassKeepsOwners(t: Tree, body: nat, raw: seq<Block>)
    requires ParentsBefore(t)
    requires forall i :: 0 <= i < |raw| ==> BlockUnder(t, body, raw[i])
    ensures forall j :: 0 <= j < |NonEmptyBlocks(NormalizeAll(raw))| ==> BlockUnder(t, body, NonEmptyBlocks(NormalizeAll(raw))[j])
  {
    var N := NormalizeAll(raw);
    forall i | 0 <= i < |N|
      ensures BlockUnder(t, body, N[i])
    {
      NormalizeKeepsOwners(t, body, raw[i]);
    }
    NonEmptyBlocksFrom(N);
  }

  /** `generateBlocks`: the walk, then the post-pass over every block, then
      the removal of empty runs and empty blocks. Every returned block is
      tidy; every run still sits in a block of its owner or an ancestor of
      it, and none comes from below a hidden element. */
  method GenerateBlocks(t: Tree, body: nat) returns (blocks: seq<Block>)
    requires WellFormed(t) && IsElement(t, body)
    ensures blocks == NonEmptyBlocks(NormalizeAll(Collect(t, [Block(body, StyleOf(t, body), [])], Preorder(t, body, EmptyCtx))))
    ensures forall i :: 0 <= i < |blocks| ==> Tidy(blocks[i]) && BlockUnder(t, body, blocks[i])
  {
    var raw := GenerateRawBlocks(t, body);
    RawBlocksUnder(t, body);
    blocks := PostPass(raw);
    PostPassKeepsOwners(t, body, raw);
  }
}

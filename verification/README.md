# mbkv HTML-to-text-run pipeline, modelled in Dafny

mbkv is a small toy browser. Its core turns an HTML string into blocks of
styled text runs, in four stages:

1. A cursor over the input string (`TokenizerContext`), plus character-class
   predicates.
2. A reduced HTML tokenizer: a 20-state machine that yields `Character`, `Tag`
   and `Doctype` tokens.
3. A tree builder (`parse`). It folds the tokens into a node tree and handles:
   - closing of end tags against the nearest matching ancestor;
   - implied end tags;
   - void elements;
   - merging of character runs into text nodes.
4. The layout pass (`generateBlocks`). It:
   - walks the tree depth-first with an explicit stack;
   - overlays inherited style properties;
   - groups text into blocks;
   - trims the whitespace at block edges;
   - drops empty runs and empty blocks.

   The margin arithmetic of `render` is modelled on top of it.

Modules, one per component:

| module | models |
|---|---|
| `Wrappers` | `Option` |
| `Sequences` | no source counterpart: shared facts about sequence slices and concatenation that the proofs use |
| `CharClasses` | `isCharSpace`, `isCharDigit`, `isCharAlpha`, `isCharHex`, `isCharBase64`; ASCII lower-casing; the `\s` class of JavaScript regular expressions |
| `Scanner` | `TokenizerContext` as an immutable record; each operation returns the updated context |
| `Tokenizer` | the tokenizer as a step function over a machine (context, tag under construction, doctype under construction) |
| `TokenizerProofs` | the invariant of that machine, and the properties of whole runs |
| `Whitespace` | the `replace(/^\s+/, "")`, `replace(/\s+$/, "")` and `replace(/\s+/g, " ")` passes |
| `Dom` | `Node`/`TextNode` as an arena tree |
| `TreeBuilder` | `parse`, over a builder that pairs a tree with its insertion point |
| `Styles` | `defaultStyles` and `getStylesForTag` |
| `Layout` | the walk of `generateBlocks` |
| `Cleanup` | its post-pass, and the complete `generateBlocks` |
| `Paint` | the placement arithmetic of `render` |

Design choices:

- **Tokenizer.** One `Step` is one iteration of the current state's handler. The
  source's outer `while (!s.eof())` loop and the handlers' `for … of s` loops
  both test for the end of input before every read, so running the handlers
  character by character is the same machine.
- **The stall at `<!`.** `markupDeclarationOpen` makes no progress when `<!` is
  followed by neither `doctype` nor `--`, and the source loops there forever.
  `Run` returns `Stalls(tokens)` at that point. `Parse` then returns `None`.
  `TokenizerProofs.StallIsFixpoint` proves that the step changes nothing there.
- **The tree.** It is a sequence of nodes. Node 0 is the root, tag `""`. Each
  node records its parent index and, for an element, its child indices.
  `Dom.WellFormed` states the link invariants: parents come before children,
  and the two directions of every link agree.
- **Layout.** The walk is specified as a preorder of (node, context) items folded
  by `Layout.Absorb`. The explicit-stack method `Layout.GenerateRawBlocks` is
  proved to compute exactly that fold.
- **Post-pass.** The two trimming loops rewrite only texts, so they are stated
  on the sequence of a block's texts. The three post-pass loops
  (renderer.ts:178-211) are fused into one pass per block. This is equivalent,
  because each block is processed independently and in order.

## Model

| member | source | states |
|---|---|---|
| `CharClasses.SpaceIsExactlyFour` | mbkv/src/tokenizer.ts:1-3 | `isCharSpace` holds for space, line feed, tab and form feed, and for nothing else |
| `CharClasses.SpaceNarrowerThanJsWhitespace` | mbkv/src/tokenizer.ts:1-3 | every tokenizer space is `\s` whitespace; carriage return and no-break space are `\s` but not tokenizer spaces |
| `CharClasses.AlphaIsExactlyTheLetters` | mbkv/src/tokenizer.ts:13-21 | the code-range test accepts exactly the 52 ASCII letters |
| `CharClasses.DigitIsExactlyTheDigits` | mbkv/src/tokenizer.ts:5-11 | the code-range test accepts exactly `0`-`9` |
| `CharClasses.HexIsDigitOrHexLetter` | mbkv/src/tokenizer.ts:23-35 | a hex character is a digit or one of `a`-`f`, `A`-`F`; every digit is hex; every hex character is a digit or a letter |
| `CharClasses.Base64Classes` | mbkv/src/tokenizer.ts:37-44 | base64 is exactly letters, digits, `_` and `-`; hex implies base64; base64 characters are never spaces; no character is both a letter and a digit |
| `CharClasses.ToLowerAscii` | mbkv/src/parser.ts:142 | the lowered character is never upper-case; an upper-case letter moves up by 32; every other character is unchanged; letters stay letters |
| `CharClasses.LowerString` | mbkv/src/parser.ts:307 | the lowered string has the same length, no upper-case letter, and each character lowered in place |
| `CharClasses.LowerStringIdempotent` | mbkv/src/parser.ts:307 | lowering fixes lower-case strings and is idempotent |
| `Scanner.Start` | mbkv/src/tokenizer.ts:46-53 | a new context starts at index 0 with no return states |
| `Scanner.Peek` | mbkv/src/tokenizer.ts:59-61 | `peek(n)` returns `min(n, remaining)` characters, each equal to the input at the read position plus its offset; past the end it returns nothing |
| `Scanner.StartsWithIsPrefix` | mbkv/src/tokenizer.ts:63-65 | `startsWith(s)` holds exactly when `s` fits in the rest of the input and equals the slice at the read position |
| `Scanner.Skip` | mbkv/src/tokenizer.ts:67-69 | `skip(n)` advances the index by `n` and changes nothing else |
| `Scanner.Consume` | mbkv/src/tokenizer.ts:71-75 | `consume` advances by one and yields a character exactly when not at the end, namely `input[index]`; at the end it yields `undefined` |
| `Scanner.Reconsume` | mbkv/src/tokenizer.ts:81-83 | `reconsume` steps back by one and changes nothing else |
| `Scanner.ConsumeThenReconsume` | mbkv/src/tokenizer.ts:71-83 | consume followed by reconsume restores the context exactly |
| `Scanner.SetState` | mbkv/src/tokenizer.ts:85-90 | `setState` switches state, and pushes the return state only when one is given |
| `Scanner.PopReturnState` | mbkv/src/tokenizer.ts:92-94 | `popReturnState` resumes the most recently pushed state and removes it; on an empty stack the state becomes undefined (`None`) |
| `Scanner.ReturnStatesAreLifo` | mbkv/src/tokenizer.ts:85-94 | two pushes come back last in, first out, and restore the original stack |
| `Scanner.Drain` | mbkv/src/tokenizer.ts:96-100 | iterating the context yields `input[index..]` in order and leaves `eof()` true |
| `Tokenizer.EmptyTag` | mbkv/src/parser.ts:59-67 | a fresh tag token has an empty name, no attributes, is not self-closing, and has the given `closing` flag |
| `Tokenizer.Initial` | mbkv/src/parser.ts:79-83 | the tokenizer starts in the data state at index 0 of the input |
| `Tokenizer.StartAttribute` | mbkv/src/parser.ts:158-159 | a new attribute pair `["", ""]` is appended to the tag's list; the rest of the tag is unchanged |
| `Tokenizer.AppendToAttributeName` | mbkv/src/parser.ts:177 | a write through the `attribute` alias edits only the last pair's name, lower-cased; earlier pairs and the tag are unchanged |
| `Tokenizer.AppendToAttributeValue` | mbkv/src/parser.ts:234 | a write through the `attribute` alias appends the raw character to the last pair's value only |
| `Tokenizer.Step` | mbkv/src/parser.ts:85-383 | one handler iteration: never moves back or past the end; yields at most one token; leaves the machine unchanged exactly at the `<!` stall; in the data state emits every character but `<`, verbatim; only the data state emits characters; a yielded tag is the tag under construction |
| `Tokenizer.StepProgresses` | mbkv/src/parser.ts:85-383 | every step that is not the stall either consumes input or lowers the reconsume rank, so the loop terminates |
| `TokenizerProofs.StepKeepsInv` | mbkv/src/parser.ts:147-260 | one step keeps the machine invariant; in particular every write through the `attribute` alias finds a pair to edit |
| `TokenizerProofs.RunTokensOk` | mbkv/src/parser.ts:285-290 | every token a run yields has lower-case tag, attribute and doctype names and a non-empty tag name, and no yielded tag is marked self-closing (the flag set on `/` or `/>` never appears on a yielded tag) |
| `TokenizerProofs.TokenizeTokensOk` | mbkv/src/parser.ts:78-384 | the same holds for every token of `tokenizer(input)` |
| `TokenizerProofs.Characters` | mbkv/src/parser.ts:52-57 | the character tokens of a text: one per character, in order |
| `TokenizerProofs.DataRunIsVerbatim` | mbkv/src/parser.ts:88-98 | in the data state a stretch without `<` is yielded as one Character token per character, verbatim and in order, and the run continues after it |
| `TokenizerProofs.TextWithoutMarkupIsVerbatim` | mbkv/src/parser.ts:88-98 | input without `<` tokenizes to exactly its characters |
| `TokenizerProofs.QuotedValueIsRaw` | mbkv/src/parser.ts:228-248 | inside quotes, everything up to the closing quote is appended to the last attribute's value as written |
| `TokenizerProofs.StallIsFixpoint` | mbkv/src/parser.ts:305-315 | at `<!` followed by neither `doctype` nor `--` the step changes nothing, so the source never terminates there |
| `Whitespace.TrimStart` | mbkv/src/renderer.ts:184 | the result is a suffix of the input that does not start with whitespace, and everything removed was whitespace |
| `Whitespace.TrimEnd` | mbkv/src/renderer.ts:196 | the result is a prefix of the input that does not end with whitespace, and everything removed was whitespace |
| `Whitespace.Collapse` | mbkv/src/parser.ts:395-397 | `textContext` equals the reference that turns every `\s` character into a space and then keeps one space of each run of spaces, so every maximal whitespace run becomes exactly one space and nothing else changes; hence no two whitespace characters in a row and none other than a space, and it is empty iff the text is |
| `Whitespace.SqueezeSpaces` | mbkv/src/parser.ts:395-397 | in the reference, a text starting with whitespace gives one space followed by the reference of what comes after the whole whitespace run |
| `Whitespace.CollapseEnds` | mbkv/src/parser.ts:395-397 | the collapsed text ends in a space exactly when the text ends in whitespace |
| `Whitespace.CollapseKeepsText` | mbkv/src/parser.ts:395-397 | collapsing keeps every non-whitespace character, in order |
| `Whitespace.CollapseIdempotent` | mbkv/src/parser.ts:395-397 | collapsing twice is collapsing once |
| `Whitespace.CollapsedSpaceClasses` | mbkv/src/parser.ts:395-397 | in collapsed text, `\s` whitespace, a tokenizer space and the space character are the same thing |
| `Whitespace.CollapsedHasNoLineBreak` | mbkv/src/parser.ts:407-409 | a text node's rendered text contains no line feed |
| `Dom.Lookup` | mbkv/src/parser.ts:422 | reading an attribute record gives nothing iff the name is absent, and otherwise a value stored under that name |
| `Dom.SetEntry` | mbkv/src/parser.ts:561 | setting a key keeps names distinct, makes the key read back the new value, leaves every other key unchanged, and keeps existing entries in place |
| `Dom.FromEntries` | mbkv/src/parser.ts:561 | `Object.fromEntries` yields distinct names and at most one entry per pair |
| `Dom.FromEntriesLaterWins` | mbkv/src/parser.ts:561 | among duplicate attribute names, the value of the last pair wins |
| `Dom.Ancestry` | mbkv/src/parser.ts:426-436 | the parent chain starts at the node, follows parent links, and ends at a node without a parent |
| `Dom.HasParentIsAncestry` | mbkv/src/parser.ts:426-436 | `hasParent(a)` holds exactly when `a` is an element on the node's parent chain (itself included) |
| `Dom.HasParentTransitive` | mbkv/src/parser.ts:426-436 | `hasParent` is transitive |
| `Dom.Visit` | mbkv/src/parser.ts:438-449 | `visit` yields only nodes with larger indices than the starting node |
| `Dom.VisitIsBelow` | mbkv/src/parser.ts:438-449 | everything `visit` yields is a proper descendant of the node |
| `Dom.VisitIsComplete` | mbkv/src/parser.ts:438-449 | every proper descendant of the node is yielded by `visit` |
| `Dom.ChildrenAreVisited` | mbkv/src/parser.ts:439-441 | every child is yielded |
| `Dom.VisitNested` | mbkv/src/parser.ts:443-447 | the visit of a yielded element is contained in the outer visit |
| `Dom.ElementsTagged` | mbkv/src/parser.ts:451-457 | the filter keeps exactly the visited elements that carry the tag |
| `Dom.ElementsByTagnameAreDescendants` | mbkv/src/parser.ts:451-457 | `getElementsByTagname` yields exactly the proper descendants that are elements with that tag |
| `Dom.Html` | mbkv/src/parser.ts:467-482 | a non-root element's html starts with the indent, `<`, the tag, every attribute as ` key="value"` in record order, `>` and a line break, and ends with a line break, the same indent and `</tag>` |
| `Dom.TextHtmlIsOneLine` | mbkv/src/parser.ts:407-409 | a text node's html is a single line |
| `TreeBuilder.Empty` | mbkv/src/parser.ts:525-526 | the initial builder (the root, with the insertion point on it) is valid |
| `TreeBuilder.AddChild` | mbkv/src/parser.ts:564 | appending a node keeps the tree well formed; the new node's parent is the insertion point; it is that node's last child; nothing else changes |
| `TreeBuilder.Nearest` | mbkv/src/parser.ts:538-546 | the upward search returns the first node on the parent chain whose tag is in the set, or nothing iff no such node exists |
| `TreeBuilder.ParentIsOpenable` | mbkv/src/parser.ts:541-542 | every non-root node has a parent, which is a non-void element, so `current.parent!` never fails |
| `TreeBuilder.CloseNearest` | mbkv/src/parser.ts:550-557 | the new insertion point is the parent of the nearest matching ancestor-or-self; with no match it is unchanged |
| `TreeBuilder.CloseTag` | mbkv/src/parser.ts:536-546 | a closing tag moves the insertion point to the parent of the nearest ancestor-or-self with that tag; with none it leaves it unchanged; the tree is untouched |
| `TreeBuilder.ImpliedClose` | mbkv/src/parser.ts:548-558 | for a tag in the generate list, the insertion point moves to the parent of the nearest ancestor-or-self with an implied end tag, if one exists; for other tags it stays |
| `TreeBuilder.OpenTag` | mbkv/src/parser.ts:559-568 | a new element with the token's name gets the implied-close insertion point as its parent and becomes its last child; its attributes read back the last value of each name; a void tag never becomes the insertion point, any other tag does |
| `TreeBuilder.AddedKeepsValid` | mbkv/src/parser.ts:565-568 | adding a node keeps void elements childless and tag names lower-case and non-empty |
| `TreeBuilder.AppendText` | mbkv/src/parser.ts:573-578 | a text node with the given text is appended to the insertion point, which does not move |
| `TreeBuilder.RunEnd` | mbkv/src/parser.ts:574-577 | the inner loop stops at the end of the maximal run of Character tokens |
| `TreeBuilder.Feed` | mbkv/src/parser.ts:528-581 | one iteration of the outer loop keeps the builder valid and moves forward; a character run is consumed whole; any other token is consumed alone |
| `TreeBuilder.BuildFrom` | mbkv/src/parser.ts:528-582 | folding the remaining tokens keeps the builder valid and never removes nodes |
| `TreeBuilder.Build` | mbkv/src/parser.ts:524-584 | the built tree is well formed, with childless void elements and lower-case tags |
| `TreeBuilder.Parse` | mbkv/src/parser.ts:524-584 | `parse` returns a tree exactly when the tokenizer finishes; that tree is well formed |
| `TreeBuilder.FeedKeepsText` | mbkv/src/parser.ts:572-580 | one iteration adds to the tree's text exactly the characters of the tokens it consumed |
| `TreeBuilder.BuildKeepsText` | mbkv/src/parser.ts:528-582 | the tree's text nodes, in creation order, hold exactly the characters of the remaining tokens |
| `TreeBuilder.ParseKeepsText` | mbkv/src/parser.ts:524-584 | the text nodes of the parsed tree hold exactly the characters the tokenizer yielded, in order |
| `TreeBuilder.PlainTextParses` | mbkv/src/parser.ts:572-580 | input without `<` parses, and its text nodes hold exactly the input |
| `Styles.StyleForTagDisplays` | mbkv/src/renderer.ts:108-110 | every tag gets a display; an unlisted tag gets the wildcard's bare block; only `title` is hidden and only `a` is inline |
| `Styles.AsWrittenDiffersOnPrototypeKeys` | mbkv/src/renderer.ts:108-110 | the lookup as written differs from the intended one exactly on the names of `Object.prototype` |
| `Styles.ConstructorLosesBlockDisplay` | mbkv/src/renderer.ts:108-110 | as written, a `constructor` element has no display; as intended, it is a block |
| `Layout.Contains` | mbkv/src/renderer.ts:157 | `includes(sub)` holds exactly when `sub` occurs at some position |
| `Layout.Overlay` | mbkv/src/renderer.ts:147-161 | the child context is the parent's with only font-size, color and font-weight replaced when present; underline is set, when `text-decoration` is present, to whether it contains `underline` |
| `Layout.OverlayLaws` | mbkv/src/renderer.ts:147-161 | a style without those properties leaves the context unchanged, and overlaying twice is overlaying once |
| `Layout.TableOverlays` | mbkv/src/renderer.ts:147-161 | `a` sets color blue and underline; every tag other than `a`, `h1` and `h2` leaves the context unchanged |
| `Layout.Preorder` | mbkv/src/renderer.ts:163-165 | the walk from a node starts with that node and visits only it and later nodes |
| `Layout.Restart` | mbkv/src/renderer.ts:128-135 | the blocks are unchanged exactly when the node is below the current block's element (or is the root); otherwise one new empty block for the node's parent, with the parent's style, is appended; either way a node other than the root ends up below the current block's element |
| `Layout.AppendRun` | mbkv/src/renderer.ts:167-171 | a run is added to the end of the current block only |
| `Layout.PushedChildrenPopInOrder` | mbkv/src/renderer.ts:163-165 | pushing the children in reverse makes their walks pop in document order, ahead of the rest of the stack |
| `Layout.PushChildren` | mbkv/src/renderer.ts:163-165 | the push loop appends the children last-to-first, all under the new context |
| `Layout.PopEntry` | mbkv/src/renderer.ts:126-172 | a text node's run (collapsed text, inherited context, parent as owner) ends the last block, whose element is the parent or an ancestor of it, and the earlier blocks are kept; a block-level element ends the blocks with an empty block of its own; any other element changes them only as `Restart` does; a shown element's children go on top of the rest of the stack, last child first, under the overlaid context; otherwise only the rest of the stack remains |
| `Layout.WalkStep` | mbkv/src/renderer.ts:125-172 | each turn of the loop keeps the blocks still to come unchanged and strictly shrinks the walk still pending, so the loop ends |
| `Layout.StyleOfAsWritten` | mbkv/src/renderer.ts:108-110 | the walk's style lookup equals the lookup as written on every element whose tag is not an `Object.prototype` member; on such an element it gives a block, where the lookup as written gives no display |
| `Layout.GenerateRawBlocks` | mbkv/src/renderer.ts:112-173 | the explicit-stack loop computes exactly the fold of the preorder walk, starting with one block for the body |
| `Layout.CollectRuns` | mbkv/src/renderer.ts:126-172 | read block after block, the runs are the collapsed texts of the walked text nodes, in walk order |
| `Layout.CollectAnchored` | mbkv/src/renderer.ts:128-135 | every run sits in a block whose element is its owner or an ancestor of its owner |
| `Layout.PreorderShown` | mbkv/src/renderer.ts:140-145 | every text node the walk reaches has its parent, and every element from there up to the body, shown |
| `Layout.RawBlocksFacts` | mbkv/src/renderer.ts:112-173 | the walk's blocks hold the collapsed texts of the shown text nodes in document order; each run is anchored; no run comes from below a `display: none` element |
| `Cleanup.TrimLeadingSpec` | mbkv/src/renderer.ts:178-191 | a text is left-trimmed exactly when no earlier text kept anything, or the last earlier text that kept something ends in a space; otherwise it is unchanged |
| `Cleanup.TrimTrailingSpec` | mbkv/src/renderer.ts:194-200 | texts from the last one that keeps something to the end are right-trimmed; the texts before it are untouched |
| `Cleanup.NonEmptyRuns` | mbkv/src/renderer.ts:206 | the filter leaves no empty run and never adds runs |
| `Cleanup.NonEmptyRunsAppend` | mbkv/src/renderer.ts:206 | the filter distributes over concatenation, so survivors keep their relative order |
| `Cleanup.NonEmptyRunsFrom` | mbkv/src/renderer.ts:206 | every surviving run comes from the input |
| `Cleanup.FirstRunTrimmed` | mbkv/src/renderer.ts:178-200 | after the post-pass, the first run of a block starts with a non-whitespace character |
| `Cleanup.LastRunTrimmed` | mbkv/src/renderer.ts:194-200 | after the post-pass, the last run of a block ends with a non-whitespace character |
| `Cleanup.TrimmedKeepsOrigins` | mbkv/src/renderer.ts:178-211 | every surviving run keeps the context and owner of a collected run |
| `Cleanup.NonEmptyBlocks` | mbkv/src/renderer.ts:204-211 | no surviving block is empty, and there are no more survivors than input blocks |
| `Cleanup.NonEmptyBlocksFrom` | mbkv/src/renderer.ts:204-211 | every surviving block is one of the input blocks |
| `Cleanup.NonEmptyBlocksAppend` | mbkv/src/renderer.ts:204-211 | the block filter distributes over concatenation, so survivors keep their relative order |
| `Cleanup.NormalizeTidy` | mbkv/src/renderer.ts:178-211 | a block with runs left after the post-pass has no empty run and no whitespace at either edge |
| `Cleanup.NormalizeKeepsOwners` | mbkv/src/renderer.ts:178-211 | the post-pass keeps every surviving run anchored and shown |
| `Cleanup.PostPass` | mbkv/src/renderer.ts:178-211 | the post-pass loops compute the trimmed, filtered blocks, and every returned block is tidy |
| `Cleanup.GenerateBlocks` | mbkv/src/renderer.ts:112-214 | every returned block is non-empty, with no empty run and no whitespace at its edges; each run sits in a block of its owner or an ancestor, and never comes from below a hidden element |
| `Paint.Render` | mbkv/src/renderer.ts:268-290 | block `i` is drawn at the bottom of block `i-1` plus the scaled collapsed gap, and at the scaled indent |
| `Paint.GapCollapses` | mbkv/src/renderer.ts:283 | the gap above a block is the larger of its top margin and the previous bottom margin (8 above the first), and it equals one of them: never their sum |
| `Paint.ParagraphThenHeading` | mbkv/src/renderer.ts:274-283 | a first `p` sits 16 below the top (not 24), and an `h1` after a `p` sits 22 below it (not 38) |
| `Paint.TableIsUnsigned` | mbkv/src/renderer.ts:17-58 | every margin in the style table is non-negative |
| `Paint.BlocksDoNotOverlap` | mbkv/src/renderer.ts:283-288 | with non-negative margins, each block starts at or below the bottom of the previous one, and at least the scaled page margin below the top |
| `Paint.IndentOfTags` | mbkv/src/renderer.ts:285 | the left offset is 8 plus `margin-left`: 48 for `dd`, 8 for every other tag |

## Left out

- mbkv/src/index.ts, mbkv/bin/proxy.ts and mbkv/public/index.js: fetching, the proxy server, DOM and canvas wiring, and the generated bundle. These are I/O and UI, not pipeline logic.
- `drawText` and the canvas calls of `render`: word wrapping against `measureText`, `fillText` and strokes. In `Paint.Render` the height each block's text takes is a parameter.
- Paint.Render: the device pixel ratio is a floating-point number in the source; here it is an integer scale factor, so fractional ratios are not modelled.
- `Node.debug`, `TextNode.debug` and the `console.assert` in `parse`: debug output only.
- `TokenizerContext.getRest`, `clone` and `set`: the tokenizer never calls them.
- Full Unicode lower-casing (`toLowerCase`): lower-casing is ASCII only. It is exact for the `doctype` comparison, because no non-ASCII character lowers to one of its letters.
- JavaScript strings are sequences of UTF-16 code units; here they are sequences of Unicode scalar values. This differs only for characters outside the Basic Multilingual Plane.
- Scanner.Reconsume: it requires a positive index. Every reconsume in the tokenizer follows a consume, so the source never steps below 0.
- Tokenizer.Run: the source loops forever at the `<!` stall; the model stops there and reports `Stalls`.
- TreeBuilder.Parse: when the tokenizer stalls, `parse` never returns; the model returns `None`.
- `Object.fromEntries` orders integer-like keys first; `Dom.FromEntries` keeps first-insertion order for every key. This affects only the order in which `Node.html` prints attributes.
- Layout.Restart: it leaves the blocks alone when the root is popped outside the current block, where the source would read a missing parent. The walk reaches the root only as the body itself, so that case never arises.
- Layout.Absorb: the owner of a run is the text node's parent, which always exists in a well-formed tree. The model falls back to the root for a parentless text node, which does not occur.
- Layout.StyleOf: it uses the corrected `getStylesForTag` of the Findings table, not the lookup as written. Tags named after `Object.prototype` members, such as `constructor`, are therefore blocks, while the source treats them as inline. `Layout.StyleOfAsWritten` states that this is the only difference.
- Layout.GenerateRawBlocks: its blocks follow the corrected lookup. For `<p>a<constructor>b</constructor>c</p>` the model gives three blocks (`a`, `b`, `c`), where the source gives one `p` block. Trees without such tags give the same blocks as the source.
- Cleanup.GenerateBlocks: it inherits the difference of `Layout.GenerateRawBlocks` for tags named after `Object.prototype` members, and agrees with the source elsewhere.

## Findings

| source | as written | input that shows it | evidently intended | confidence | as-written member | corrected member |
|---|---|---|---|---|---|---|
| mbkv/src/renderer.ts:108-110 | `defaultStyles[tag] ?? defaultStyles["*"]` indexes a plain object literal. This also finds the members it inherits from `Object.prototype`, which are not nullish, so the wildcard fallback is skipped. | The element `<constructor>` (a valid lower-case tag name) gets `Object.prototype.constructor`, a function with no `display`. It is treated as inline instead of as a block. | Unlisted tags, including `constructor`, get the wildcard's `display: "block"`. | not executed | `Styles.StyleForTagAsWritten` / `Styles.ConstructorLosesBlockDisplay` | `Styles.StyleForTag` / `Styles.StyleForTagDisplays` |

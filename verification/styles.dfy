/** The static style table of the renderer (`defaultStyles`,
    renderer.ts:4-58) and its lookup `getStylesForTag` (renderer.ts:108-110). */
module Styles {
  import opened Wrappers

  datatype Display = DisplayNone | DisplayInline | DisplayBlock

  /** A style record; every property is optional, as in the source. */
  datatype Style = Style(
    display: Option<Display>,
    color: Option<string>,
    fontSize: Option<int>,
    marginLeft: Option<int>,
    marginTop: Option<int>,
    marginBottom: Option<int>,
    fontWeight: Option<string>,
    textDecoration: Option<string>)

  /** The record with no properties at all. */
  const NoStyle := Style(None, None, None, None, None, None, None, None)

  function Shows(d: Display): Style {
    NoStyle.(display := Some(d))
  }

  /** The key of the entry for tags the table does not list. */
  const Wildcard := "*"

  const DefaultStyles: map<string, Style> := map[
    Wildcard := Shows(DisplayBlock),
    "title" := Shows(DisplayNone),
    "h1" := Shows(DisplayBlock).(fontSize := Some(32), marginTop := Some(22), marginBottom := Some(22),
                                 fontWeight := Some("bold")),
    "h2" := Shows(DisplayBlock).(fontSize := Some(24), marginTop := Some(20), marginBottom := Some(20),
                                 fontWeight := Some("bold")),
    "a" := Shows(DisplayInline).(color := Some("blue"), textDecoration := Some("underline")),
    "p" := Shows(DisplayBlock).(marginTop := Some(16), marginBottom := Some(16)),
    "dl" := Shows(DisplayBlock).(marginTop := Some(16), marginBottom := Some(16)),
    "dt" := Shows(DisplayBlock),
    "dd" := Shows(DisplayBlock).(marginLeft := Some(40))
  ]

  /** `getStylesForTag`: the table entry of a listed tag, else the wildcard
      entry. */
  function StyleForTag(tag: string): Style {
    if tag in DefaultStyles then DefaultStyles[tag] else DefaultStyles[Wildcard]
  }

  /** Every tag gets a display, and a tag the table does not list is a
      block with no other property; only `title` is hidden and only `a` is
      inline. */
  lemma StyleForTagDisplays(tag: string)
    ensures StyleForTag(tag).display.Some?
    ensures tag !in DefaultStyles ==> StyleForTag(tag) == Shows(DisplayBlock)
    ensures StyleForTag(tag).display == Some(DisplayNone) <==> tag == "title"
    ensures StyleForTag(tag).display == Some(DisplayInline) <==> tag == "a"
  {
  }

  /** The properties of `Object.prototype`, which a plain object literal
      inherits and an indexing expression finds. */
  const PrototypeKeys: set<string> := {
    "constructor", "__proto__", "hasOwnProperty", "isPrototypeOf", "propertyIsEnumerable",
    "toLocaleString", "toString", "valueOf", "__defineGetter__", "__defineSetter__",
    "__lookupGetter__", "__lookupSetter__"}

  /** `getStylesForTag` as written: indexing the table literal also finds the
      inherited prototype members, which are not nullish, so the `??` fallback
      is skipped and the result is an object (a function, for `constructor`)
      with none of the style properties. */
  function StyleForTagAsWritten(tag: string): Style {
    if tag in DefaultStyles then DefaultStyles[tag]
    else if tag in PrototypeKeys then NoStyle
    else DefaultStyles[Wildcard]
  }

  /** The two lookups differ exactly on the inherited names. */
  lemma AsWrittenDiffersOnPrototypeKeys(tag: string)
    ensures StyleForTagAsWritten(tag) != StyleForTag(tag) <==> tag in PrototypeKeys
  {
    assert forall k :: k in PrototypeKeys ==> k !in DefaultStyles;
  }

  /** An element named `constructor`, a name the tokenizer produces from
      `<constructor>`, loses the wildcard's block display as written, while
      the evidently intended lookup makes it a block like any unlisted tag. */
  lemma ConstructorLosesBlockDisplay()
    ensures StyleForTagAsWritten("constructor").display.None?
    ensures StyleForTag("constructor").display == Some(DisplayBlock)
  {
    assert "constructor" !in DefaultStyles;
  }
}

/** The tokenizer state machine (parser.ts:78-384): a heavily reduced form of
    the tokenization stage of the WHATWG HTML Living Standard (section 13.2.5).

    The source runs one handler per state inside `while (!s.eof())`, and most
    handlers loop `for (const char of s)`. Both loops test for the end of input
    before every read, so one `Step` here is one iteration of such an inner
    loop: it reads one character (or, in `MarkupDeclarationOpen`, peeks) and
    acts on it. */
module Tokenizer {
  import opened Wrappers
  import opened CharClasses
  import opened Scanner

  datatype State =
    | Data
    | TagOpen
    | EndTagOpen
    | TagName
    | BeforeAttributeName
    | AttributeName
    | AfterAttributeName
    | BeforeAttributeValue
    | AttributeValueDoubleQuoted
    | AttributeValueSingleQuoted
    | AttributeValueUnquoted
    | AfterAttributeValueQuoted
    | SelfClosingStartTag
    | BogusComment
    | MarkupDeclarationOpen
    | Comment
    | Doctype
    | BeforeDoctypeName
    | DoctypeName
    | AfterDoctypeName

  /** One `[name, value]` pair of a tag token. */
  datatype Attribute = Attribute(name: string, value: string)

  datatype TagToken = TagToken(name: string, closing: bool, attributes: seq<Attribute>, selfClosing: bool)

  datatype Token =
    | Character(character: char)
    | Tag(tag: TagToken)
    | DoctypeToken(doctype: string)

  /** `generateEmptyTagToken(closing)`. */
  function EmptyTag(closing: bool): (r: TagToken)
    ensures r.name == [] && r.attributes == [] && !r.selfClosing && r.closing == closing
  {
    TagToken("", closing, [], false)
  }

  /** The tokenizer's locals: the scanner context, the tag under construction
      (`tagToken`) and the doctype under construction (`doctypeToken`). The
      source's `attribute` local is always an alias of the last pair of
      `tagToken.attributes`, so it is not kept separately: writes through it
      edit that last pair. */
  datatype Machine = Machine(ctx: Context<State>, tag: TagToken, doctype: string)

  function Initial(input: string): (m: Machine)
    ensures m.ctx.input == input && m.ctx.index == 0 && m.ctx.state == Data
  {
    Machine(Start(input, Data), EmptyTag(false), "")
  }

  /** `attribute = ["", ""]; tagToken.attributes.push(attribute)`. */
  function StartAttribute(t: TagToken): (r: TagToken)
    ensures r.attributes == t.attributes + [Attribute("", "")]
    ensures r.name == t.name && r.closing == t.closing && r.selfClosing == t.selfClosing
  {
    t.(attributes := t.attributes + [Attribute("", "")])
  }

  /** `attribute[0] += c`: extend the name of the last pair. */
  function AppendToAttributeName(t: TagToken, c: char): (r: TagToken)
    ensures |r.attributes| == |t.attributes|
    ensures r.name == t.name && r.closing == t.closing && r.selfClosing == t.selfClosing
    ensures forall k :: 0 <= k < |t.attributes| - 1 ==> r.attributes[k] == t.attributes[k]
    ensures t.attributes != [] ==>
      var n := |t.attributes| - 1;
      r.attributes[n] == Attribute(t.attributes[n].name + [c], t.attributes[n].value)
  {
    if t.attributes == [] then t
    else
      var n := |t.attributes| - 1;
      var last := t.attributes[n];
      t.(attributes := t.attributes[n := last.(name := last.name + [c])])
  }

  /** `attribute[1] += c`: extend the value of the last pair, verbatim. */
  function AppendToAttributeValue(t: TagToken, c: char): (r: TagToken)
    ensures |r.attributes| == |t.attributes|
    ensures r.name == t.name && r.closing == t.closing && r.selfClosing == t.selfClosing
    ensures forall k :: 0 <= k < |t.attributes| - 1 ==> r.attributes[k] == t.attributes[k]
    ensures t.attributes != [] ==>
      var n := |t.attributes| - 1;
      r.attributes[n] == Attribute(t.attributes[n].name, t.attributes[n].value + [c])
  {
    if t.attributes == [] then t
    else
      var n := |t.attributes| - 1;
      var last := t.attributes[n];
      t.(attributes := t.attributes[n := last.(value := last.value + [c])])
  }

  /** `s.setState(st)` applied to the context `ctx`. */
  function Go(m: Machine, ctx: Context<State>, st: State): Machine {
    m.(ctx := SetState(ctx, st, None))
  }

  const DoctypeKeyword: string := "doctype"

  /** The `<!` that the source can never leave: neither `doctype` (in any case)
      nor `--` follows, so `markupDeclarationOpen` neither reads nor switches. */
  predicate Stalled(m: Machine) {
    && m.ctx.state == MarkupDeclarationOpen
    && LowerString(Peek(m.ctx, |DoctypeKeyword|)) != DoctypeKeyword
    && Peek(m.ctx, 2) != "--"
  }

  // The handlers, one per state, each applied to the character `c` just read.

  function OnData(m: Machine, c: char): (Machine, seq<Token>) {
    var next := Consume(m.ctx).1;
    if c == '<' then (Go(m, next, TagOpen), [])
    else (m.(ctx := next), [Character(c)])
  }

  function OnTagOpen(m: Machine, c: char): (Machine, seq<Token>) {
    var next := Consume(m.ctx).1;
    if c == '!' then (Go(m, next, MarkupDeclarationOpen), [])
    else if c == '/' then (Go(m, next, EndTagOpen), [])
    else if IsCharAlpha(c) then (Go(m.(tag := EmptyTag(false)), Reconsume(next), TagName), [])
    else (Go(m, Reconsume(next), Data), [])
  }

  function OnEndTagOpen(m: Machine, c: char): (Machine, seq<Token>) {
    var next := Consume(m.ctx).1;
    if IsCharAlpha(c) then (Go(m.(tag := EmptyTag(true)), Reconsume(next), TagName), [])
    else (Go(m, Reconsume(next), BogusComment), [])
  }

  function OnTagName(m: Machine, c: char): (Machine, seq<Token>) {
    var next := Consume(m.ctx).1;
    if IsCharSpace(c) then (Go(m, next, BeforeAttributeName), [])
    else if c == '/' then (Go(m.(tag := m.tag.(selfClosing := true)), next, SelfClosingStartTag), [])
    else if c == '>' then (Go(m, next, Data), [Tag(m.tag)])
    else (m.(ctx := next, tag := m.tag.(name := m.tag.name + [ToLowerAscii(c)])), [])
  }

  function OnBeforeAttributeName(m: Machine, c: char): (Machine, seq<Token>) {
    var next := Consume(m.ctx).1;
    if IsCharSpace(c) then (m.(ctx := next), [])
    else if c == '/' || c == '>' then (Go(m, Reconsume(next), AfterAttributeName), [])
    else if c == '=' then (m.(ctx := next), [])
    else (Go(m.(tag := StartAttribute(m.tag)), Reconsume(next), AttributeName), [])
  }

  function OnAttributeName(m: Machine, c: char): (Machine, seq<Token>) {
    var next := Consume(m.ctx).1;
    if IsCharSpace(c) || c == '/' || c == '>' then (Go(m, Reconsume(next), AfterAttributeName), [])
    else if c == '=' then (Go(m, next, BeforeAttributeValue), [])
    else (m.(ctx := next, tag := AppendToAttributeName(m.tag, ToLowerAscii(c))), [])
  }

  function OnAfterAttributeName(m: Machine, c: char): (Machine, seq<Token>) {
    var next := Consume(m.ctx).1;
    if IsCharSpace(c) then (m.(ctx := next), [])
    else if c == '/' then (Go(m, next, SelfClosingStartTag), [])
    else if c == '=' then (Go(m, next, BeforeAttributeValue), [])
    else if c == '>' then (Go(m, next, Data), [Tag(m.tag)])
    else (Go(m.(tag := StartAttribute(m.tag)), Reconsume(next), AttributeName), [])
  }

  function OnBeforeAttributeValue(m: Machine, c: char): (Machine, seq<Token>) {
    var next := Consume(m.ctx).1;
    if IsCharSpace(c) then
      if Eof(next) then
        // the space-skipping loop ran dry: the handler consumes past the end,
        // reads `undefined`, reconsumes it and switches to the unquoted state
        var (_, past) := Consume(next);
        (Go(m, Reconsume(past), AttributeValueUnquoted), [])
      else (m.(ctx := next), [])
    else if c == '"' then (Go(m, next, AttributeValueDoubleQuoted), [])
    else if c == '\'' then (Go(m, next, AttributeValueSingleQuoted), [])
    else if c == '>' then (Go(m, next, Data), [Tag(m.tag)])
    else (Go(m, Reconsume(next), AttributeValueUnquoted), [])
  }

  function OnAttributeValueDoubleQuoted(m: Machine, c: char): (Machine, seq<Token>) {
    var next := Consume(m.ctx).1;
    if c == '"' then (Go(m, next, AfterAttributeValueQuoted), [])
    else (m.(ctx := next, tag := AppendToAttributeValue(m.tag, c)), [])
  }

  function OnAttributeValueSingleQuoted(m: Machine, c: char): (Machine, seq<Token>) {
    var next := Consume(m.ctx).1;
    if c == '\'' then (Go(m, next, AfterAttributeValueQuoted), [])
    else (m.(ctx := next, tag := AppendToAttributeValue(m.tag, c)), [])
  }

  function OnAttributeValueUnquoted(m: Machine, c: char): (Machine, seq<Token>) {
    var next := Consume(m.ctx).1;
    if IsCharSpace(c) then (Go(m, next, BeforeAttributeName), [])
    else if c == '>' then (Go(m, next, Data), [Tag(m.tag)])
    else (m.(ctx := next, tag := AppendToAttributeValue(m.tag, c)), [])
  }

  function OnAfterAttributeValueQuoted(m: Machine, c: char): (Machine, seq<Token>) {
    var next := Consume(m.ctx).1;
    if IsCharSpace(c) then (Go(m, next, BeforeAttributeName), [])
    else if c == '/' then (Go(m, next, SelfClosingStartTag), [])
    else if c == '>' then (Go(m, next, Data), [Tag(m.tag)])
    else (Go(m, Reconsume(next), BeforeAttributeName), [])
  }

  function OnSelfClosingStartTag(m: Machine, c: char): (Machine, seq<Token>) {
    var next := Consume(m.ctx).1;
    // the tag is marked self-closing but not yielded; any other character
    // falls through to the doctype-name states, as in the source
    if c == '>' then (Go(m.(tag := m.tag.(selfClosing := true)), next, Data), [])
    else (Go(m, Reconsume(next), BeforeDoctypeName), [])
  }

  function OnBogusComment(m: Machine, c: char): (Machine, seq<Token>) {
    var next := Consume(m.ctx).1;
    if c == '>' then (Go(m, next, Data), [])
    else (m.(ctx := next), [])
  }

  function OnMarkupDeclarationOpen(m: Machine, c: char): (Machine, seq<Token>) {
    var next := Consume(m.ctx).1;
    if LowerString(Peek(m.ctx, |DoctypeKeyword|)) == DoctypeKeyword then
      (Go(m, Skip(m.ctx, |DoctypeKeyword|), Doctype), [])
    else if Peek(m.ctx, 2) == "--" then (Go(m, Skip(m.ctx, 2), Comment), [])
    else (m, [])
  }

  function OnComment(m: Machine, c: char): (Machine, seq<Token>) {
    var next := Consume(m.ctx).1;
    if c == '-' && Peek(next, 2) == "->" then (Go(m, Skip(next, 2), Data), [])
    else (m.(ctx := next), [])
  }

  function OnDoctype(m: Machine, c: char): (Machine, seq<Token>) {
    var next := Consume(m.ctx).1;
    if IsCharSpace(c) then (Go(m, next, BeforeDoctypeName), [])
    else (Go(m, Reconsume(next), BeforeDoctypeName), [])
  }

  function OnBeforeDoctypeName(m: Machine, c: char): (Machine, seq<Token>) {
    var next := Consume(m.ctx).1;
    if IsCharSpace(c) then (m.(ctx := next), [])
    else (Go(m.(doctype := ""), Reconsume(next), DoctypeName), [])
  }

  function OnDoctypeName(m: Machine, c: char): (Machine, seq<Token>) {
    var next := Consume(m.ctx).1;
    if IsCharSpace(c) then (Go(m, next, AfterDoctypeName), [])
    else if c == '>' then (Go(m, next, Data), [DoctypeToken(m.doctype)])
    else (m.(ctx := next, doctype := m.doctype + [ToLowerAscii(c)]), [])
  }

  function OnAfterDoctypeName(m: Machine, c: char): (Machine, seq<Token>) {
    var next := Consume(m.ctx).1;
    if IsCharSpace(c) then (m.(ctx := next), [])
    else if c == '>' then (Go(m, next, Data), [DoctypeToken(m.doctype)])
    else (m.(ctx := next), [])
  }

  /** One iteration of the handler for the current state. The result is the
      machine afterwards and the tokens yielded (none or one). */
  function Step(m: Machine): (r: (Machine, seq<Token>))
    requires !Eof(m.ctx)
    ensures r.0.ctx.input == m.ctx.input && r.0.ctx.returnStates == m.ctx.returnStates
    ensures m.ctx.index <= r.0.ctx.index <= |m.ctx.input|
    ensures |r.1| <= 1
    ensures r.0 == m <==> Stalled(m)
    // data state: every character but `<` is emitted verbatim (parser.ts:88-98)
    ensures m.ctx.state == Data ==>
      var c := m.ctx.input[m.ctx.index];
      && r.0.ctx.index == m.ctx.index + 1
      && r.1 == (if c == '<' then [] else [Character(c)])
      && r.0.ctx.state == (if c == '<' then TagOpen else Data)
    // only the data state emits characters, and a tag token is the tag under construction
    ensures forall k :: 0 <= k < |r.1| && r.1[k].Character? ==> m.ctx.state == Data
    ensures forall k :: 0 <= k < |r.1| && r.1[k].Tag? ==> r.1[k].tag == m.tag
  {
    var c := Consume(m.ctx).0.value;
    match m.ctx.state
    case Data => OnData(m, c)
    case TagOpen => OnTagOpen(m, c)
    case EndTagOpen => OnEndTagOpen(m, c)
    case TagName => OnTagName(m, c)
    case BeforeAttributeName => OnBeforeAttributeName(m, c)
    case AttributeName => OnAttributeName(m, c)
    case AfterAttributeName => OnAfterAttributeName(m, c)
    case BeforeAttributeValue => OnBeforeAttributeValue(m, c)
    case AttributeValueDoubleQuoted => OnAttributeValueDoubleQuoted(m, c)
    case AttributeValueSingleQuoted => OnAttributeValueSingleQuoted(m, c)
    case AttributeValueUnquoted => OnAttributeValueUnquoted(m, c)
    case AfterAttributeValueQuoted => OnAfterAttributeValueQuoted(m, c)
    case SelfClosingStartTag => OnSelfClosingStartTag(m, c)
    case BogusComment => OnBogusComment(m, c)
    case MarkupDeclarationOpen => OnMarkupDeclarationOpen(m, c)
    case Comment => OnComment(m, c)
    case Doctype => OnDoctype(m, c)
    case BeforeDoctypeName => OnBeforeDoctypeName(m, c)
    case DoctypeName => OnDoctypeName(m, c)
    case AfterDoctypeName => OnAfterDoctypeName(m, c)
  }

  /** How many steps, reading the next character, the machine takes before it
      moves past that character: the steps that reconsume are ranked above the
      state they hand the character to. */
  function Rank(m: Machine): nat {
    if Eof(m.ctx) then 0
    else
      var c := m.ctx.input[m.ctx.index];
      match m.ctx.state
      case TagOpen => if c == '!' || c == '/' then 0 else 1
      case EndTagOpen => 1
      case BeforeAttributeName => if IsCharSpace(c) || c == '=' then 0 else 1
      case AttributeName => if IsCharSpace(c) || c == '/' || c == '>' then 1 else 0
      case AfterAttributeName => if IsCharSpace(c) || c == '/' || c == '=' || c == '>' then 0 else 1
      case BeforeAttributeValue => if IsCharSpace(c) || c == '"' || c == '\'' || c == '>' then 0 else 1
      case AfterAttributeValueQuoted => if IsCharSpace(c) || c == '/' || c == '>' then 0 else 2
      case SelfClosingStartTag => if c == '>' then 0 else 2
      case Doctype => if IsCharSpace(c) then 0 else 2
      case BeforeDoctypeName => if IsCharSpace(c) then 0 else 1
      case _ => 0
  }

  /** Every step that is not the stall moves forward or lowers the rank. */
  lemma StepProgresses(m: Machine)
    requires !Eof(m.ctx) && !Stalled(m)
    ensures var m' := Step(m).0;
            m'.ctx.index > m.ctx.index || (m'.ctx.index == m.ctx.index && Rank(m') < Rank(m))
  {
  }

  /** What the tokenizer yields: every token, or the tokens yielded before the
      machine stalled at `<!` (where the source loops forever). */
  datatype Outcome = Done(tokens: seq<Token>) | Stalls(tokens: seq<Token>)

  function Prepend(ts: seq<Token>, o: Outcome): (r: Outcome)
    ensures r.tokens == ts + o.tokens && r.Done? == o.Done?
  {
    match o
    case Done(rest) => Done(ts + rest)
    case Stalls(rest) => Stalls(ts + rest)
  }

  /** The `while (!s.eof())` loop, run from machine `m`. */
  function Run(m: Machine): (r: Outcome)
    requires m.ctx.index <= |m.ctx.input|
    decreases |m.ctx.input| - m.ctx.index, Rank(m)
  {
    if Eof(m.ctx) then Done([])
    else if Stalled(m) then Stalls([])
    else
      var (m', out) := Step(m);
      StepProgresses(m);
      Prepend(out, Run(m'))
  }

  /** `[...tokenizer(input)]`. */
  function Tokenize(input: string): Outcome {
    Run(Initial(input))
  }
}

/** Properties of the tokenizer over whole runs: what every yielded token looks
    like, and how text passes through the data and quoted-value states. */
module TokenizerProofs {
  import opened Wrappers
  import opened Sequences
  import opened CharClasses
  import opened Scanner
  import opened Tokenizer

  /** The states that build a start or end tag and can yield it. */
  predicate InTag(s: State) {
    match s
    case TagName | BeforeAttributeName | AttributeName | AfterAttributeName | BeforeAttributeValue
       | AttributeValueDoubleQuoted | AttributeValueSingleQuoted | AttributeValueUnquoted
       | AfterAttributeValueQuoted => true
    case _ => false
  }

  /** The states whose handlers write through the `attribute` alias, or lead
      to one that does without starting a new pair. */
  predicate UsesAttribute(s: State) {
    match s
    case AttributeName | BeforeAttributeValue | AttributeValueDoubleQuoted
       | AttributeValueSingleQuoted | AttributeValueUnquoted | AfterAttributeValueQuoted => true
    case _ => false
  }

  predicate LowerNames(t: TagToken) {
    IsLowerString(t.name) && forall k :: 0 <= k < |t.attributes| ==> IsLowerString(t.attributes[k].name)
  }

  /** What a yielded token always satisfies. */
  predicate TokenOk(tok: Token) {
    match tok
    case Character(_) => true
    case Tag(t) => t.name != [] && LowerNames(t) && !t.selfClosing
    case DoctypeToken(d) => IsLowerString(d)
  }

  /** The invariant of every machine the tokenizer reaches from its start. */
  predicate Inv(m: Machine) {
    var st := m.ctx.state;
    var ctx := m.ctx;
    && ctx.index <= |ctx.input|
    && LowerNames(m.tag) && IsLowerString(m.doctype)
    && (InTag(st) ==> !m.tag.selfClosing)
    && (st == TagName && m.tag.name == [] ==> !Eof(ctx) && IsCharAlpha(ctx.input[ctx.index]))
    && (InTag(st) && st != TagName ==> m.tag.name != [])
    && (UsesAttribute(st) ==> m.tag.attributes != [])
    && (st == AfterAttributeName && m.tag.attributes == [] ==>
          !Eof(ctx) && (ctx.input[ctx.index] == '/' || ctx.input[ctx.index] == '>'))
  }

  lemma InitialInv(input: string)
    ensures Inv(Initial(input))
  {
  }

  /** One step keeps the invariant. In particular the writes through the
      `attribute` alias always find a pair to edit, so the model's "edit the
      last pair" never meets an empty list. */
  lemma StepKeepsInv(m: Machine)
    requires Inv(m) && !Eof(m.ctx)
    ensures Inv(Step(m).0)
  {
    match m.ctx.state
    case Data | TagOpen | EndTagOpen => KeepsInvOpening(m);
    case TagName => KeepsInvTagName(m);
    case BeforeAttributeName | AttributeName | AfterAttributeName | BeforeAttributeValue => KeepsInvAttributes(m);
    case AttributeValueDoubleQuoted | AttributeValueSingleQuoted | AttributeValueUnquoted
       | AfterAttributeValueQuoted | SelfClosingStartTag => KeepsInvValues(m);
    case BogusComment | MarkupDeclarationOpen | Comment => KeepsInvComments(m);
    case _ => KeepsInvDeclarations(m);
  }

  lemma KeepsInvOpening(m: Machine)
    requires Inv(m) && !Eof(m.ctx)
    requires m.ctx.state in {Data, TagOpen, EndTagOpen}
    ensures Inv(Step(m).0)
  {
  }

  lemma KeepsInvTagName(m: Machine)
    requires Inv(m) && !Eof(m.ctx) && m.ctx.state == TagName
    ensures Inv(Step(m).0)
  {
    var c := m.ctx.input[m.ctx.index];
    assert IsLowerString(m.tag.name + [ToLowerAscii(c)]);
  }

  lemma KeepsInvComments(m: Machine)
    requires Inv(m) && !Eof(m.ctx)
    requires m.ctx.state in {BogusComment, MarkupDeclarationOpen, Comment}
    ensures Inv(Step(m).0)
  {
  }

  lemma KeepsInvAttributes(m: Machine)
    requires Inv(m) && !Eof(m.ctx)
    requires m.ctx.state in {BeforeAttributeName, AttributeName, AfterAttributeName, BeforeAttributeValue}
    ensures Inv(Step(m).0)
  {
    var c := m.ctx.input[m.ctx.index];
    assert LowerNames(StartAttribute(m.tag));
    if m.ctx.state == AttributeName && !(IsCharSpace(c) || c == '/' || c == '>' || c == '=') {
      var t' := AppendToAttributeName(m.tag, ToLowerAscii(c));
      assert IsLowerString(t'.attributes[|m.tag.attributes| - 1].name);
    }
  }

  lemma KeepsInvValues(m: Machine)
    requires Inv(m) && !Eof(m.ctx)
    requires m.ctx.state in {AttributeValueDoubleQuoted, AttributeValueSingleQuoted, AttributeValueUnquoted,
                             AfterAttributeValueQuoted, SelfClosingStartTag}
    ensures Inv(Step(m).0)
  {
  }

  lemma KeepsInvDeclarations(m: Machine)
    requires Inv(m) && !Eof(m.ctx)
    requires m.ctx.state in {Doctype, BeforeDoctypeName, DoctypeName, AfterDoctypeName}
    ensures Inv(Step(m).0)
  {
    var c := m.ctx.input[m.ctx.index];
    if m.ctx.state == DoctypeName {
      assert IsLowerString(m.doctype + [ToLowerAscii(c)]);
    }
  }

  /** A machine satisfying the invariant yields only well-formed tokens. */
  lemma StepTokensOk(m: Machine)
    requires Inv(m) && !Eof(m.ctx)
    ensures forall k :: 0 <= k < |Step(m).1| ==> TokenOk(Step(m).1[k])
  {
  }

  /** Every token a run yields is well formed: tag, attribute and doctype names
      are lower-case, tag names are never empty, and no yielded tag is marked
      self-closing: the tag states yield only tags whose flag is still unset. */
  lemma {:induction false} RunTokensOk(m: Machine)
    requires Inv(m)
    ensures forall k :: 0 <= k < |Run(m).tokens| ==> TokenOk(Run(m).tokens[k])
    decreases |m.ctx.input| - m.ctx.index, Rank(m)
  {
    if !Eof(m.ctx) && !Stalled(m) {
      var (m', out) := Step(m);
      StepKeepsInv(m);
      StepTokensOk(m);
      StepProgresses(m);
      RunTokensOk(m');
      assert Run(m).tokens == out + Run(m').tokens;
    }
  }

  lemma TokenizeTokensOk(input: string)
    ensures forall k :: 0 <= k < |Tokenize(input).tokens| ==> TokenOk(Tokenize(input).tokens[k])
  {
    InitialInv(input);
    RunTokensOk(Initial(input));
  }

  /** The Character tokens for a piece of text, one per character, in order. */
  function Characters(s: string): (r: seq<Token>)
    ensures |r| == |s|
    ensures forall k :: 0 <= k < |s| ==> r[k] == Character(s[k])
  {
    seq(|s|, k requires 0 <= k < |s| => Character(s[k]))
  }

  /** One turn of the run loop: the step's tokens, then the rest of the run. */
  lemma RunUnfold(m: Machine)
    requires m.ctx.index < |m.ctx.input| && !Stalled(m)
    ensures Run(m) == Prepend(Step(m).1, Run(Step(m).0))
  {
  }

  /** The data state emits a character other than `<` and moves past it. */
  lemma DataStep(m: Machine)
    requires m.ctx.state == Data && m.ctx.index < |m.ctx.input| && m.ctx.input[m.ctx.index] != '<'
    ensures Run(m) == Prepend([Character(m.ctx.input[m.ctx.index])], Run(MoveTo(m, m.ctx.index + 1)))
  {
    assert Step(m) == (MoveTo(m, m.ctx.index + 1), [Character(m.ctx.input[m.ctx.index])]);
    RunUnfold(m);
  }

  /** The machine with its read position moved to `j`. */
  function MoveTo(m: Machine, j: nat): Machine {
    m.(ctx := m.ctx.(index := j))
  }

  /** A quoted value takes any character but its closing quote as it is. */
  lemma QuotedStep(m: Machine)
    requires m.ctx.state == AttributeValueDoubleQuoted || m.ctx.state == AttributeValueSingleQuoted
    requires m.ctx.index < |m.ctx.input| && m.ctx.input[m.ctx.index] != QuoteOf(m.ctx.state)
    ensures Run(m) == Run(m.(ctx := m.ctx.(index := m.ctx.index + 1),
                             tag := AppendToAttributeValue(m.tag, m.ctx.input[m.ctx.index])))
  {
    var c := m.ctx.input[m.ctx.index];
    assert Consume(m.ctx).1 == m.ctx.(index := m.ctx.index + 1);
    if m.ctx.state == AttributeValueDoubleQuoted {
      assert Step(m) == OnAttributeValueDoubleQuoted(m, c);
    } else {
      assert Step(m) == OnAttributeValueSingleQuoted(m, c);
    }
    assert Step(m) == (m.(ctx := m.ctx.(index := m.ctx.index + 1), tag := AppendToAttributeValue(m.tag, c)), []);
    RunUnfold(m);
  }

  /** One more character in front of a stretch of text. */
  lemma PrependCharacter(input: string, i: nat, j: nat, o: Outcome)
    requires i < j <= |input|
    ensures Prepend([Character(input[i])], Prepend(Characters(input[i + 1..j]), o)) == Prepend(Characters(input[i..j]), o)
  {
    PrependTwice([Character(input[i])], Characters(input[i + 1..j]), o);
    assert [Character(input[i])] + Characters(input[i + 1..j]) == Characters(input[i..j]);
  }

  lemma PrependTwice(a: seq<Token>, b: seq<Token>, o: Outcome)
    ensures Prepend(a, Prepend(b, o)) == Prepend(a + b, o)
  {
    Associate(a, b, o.tokens);
  }

  /** In the data state a stretch of text without `<` comes out as one
      Character token per character, verbatim and in order, after which the
      run continues from the end of the stretch. */
  lemma {:induction false} DataRunIsVerbatim(m: Machine, j: nat)
    requires m.ctx.state == Data && m.ctx.index <= j <= |m.ctx.input|
    requires forall k :: m.ctx.index <= k < j ==> m.ctx.input[k] != '<'
    ensures Run(m) == Prepend(Characters(m.ctx.input[m.ctx.index..j]), Run(MoveTo(m, j)))
    decreases j - m.ctx.index
  {
    var i := m.ctx.index;
    if i == j {
      assert MoveTo(m, j) == m;
      assert Characters(m.ctx.input[i..j]) == [];
    } else {
      var c := m.ctx.input[i];
      var m1 := MoveTo(m, i + 1);
      DataStep(m);
      DataRunIsVerbatim(m1, j);
      assert MoveTo(m1, j) == MoveTo(m, j);
      PrependCharacter(m.ctx.input, i, j, Run(MoveTo(m, j)));
    }
  }

  /** Input without `<` is yielded entirely as Character tokens, verbatim. */
  lemma TextWithoutMarkupIsVerbatim(input: string)
    requires forall k :: 0 <= k < |input| ==> input[k] != '<'
    ensures Tokenize(input) == Done(Characters(input))
  {
    var m := Initial(input);
    DataRunIsVerbatim(m, |input|);
    assert input[0..|input|] == input;
    assert Run(MoveTo(m, |input|)) == Done([]);
  }

  /** The closing quote of a quoted attribute value in state `st`. */
  function QuoteOf(st: State): char
    requires st == AttributeValueDoubleQuoted || st == AttributeValueSingleQuoted
  {
    if st == AttributeValueDoubleQuoted then '"' else '\''
  }

  /** The tag with `s` appended to the value of its last attribute. */
  function WithValueSuffix(t: TagToken, s: string): TagToken
    requires t.attributes != []
  {
    var n := |t.attributes| - 1;
    t.(attributes := t.attributes[n := t.attributes[n].(value := t.attributes[n].value + s)])
  }

  /** The machine after the quoted characters from the read position up to
      `j` have been taken into the last attribute's value. */
  function TakeQuoted(m: Machine, j: nat): Machine
    requires m.tag.attributes != [] && m.ctx.index <= j <= |m.ctx.input|
  {
    m.(ctx := m.ctx.(index := j), tag := WithValueSuffix(m.tag, m.ctx.input[m.ctx.index..j]))
  }

  /** Inside quotes, everything up to the closing quote is appended to the last
      attribute's value exactly as written: no lower-casing, no decoding. */
  lemma {:induction false} QuotedValueIsRaw(m: Machine, j: nat)
    requires m.ctx.state == AttributeValueDoubleQuoted || m.ctx.state == AttributeValueSingleQuoted
    requires m.tag.attributes != []
    requires m.ctx.index <= j <= |m.ctx.input|
    requires forall k :: m.ctx.index <= k < j ==> m.ctx.input[k] != QuoteOf(m.ctx.state)
    ensures Run(m) == Run(TakeQuoted(m, j))
    decreases j - m.ctx.index
  {
    var i := m.ctx.index;
    if i == j {
      TakeNothing(m);
    } else {
      var c := m.ctx.input[i];
      var m1 := m.(ctx := m.ctx.(index := i + 1), tag := AppendToAttributeValue(m.tag, c));
      QuotedStep(m);
      QuotedValueIsRaw(m1, j);
      TakeOneMore(m, j);
    }
  }

  lemma TakeNothing(m: Machine)
    requires m.tag.attributes != [] && m.ctx.index <= |m.ctx.input|
    ensures TakeQuoted(m, m.ctx.index) == m
  {
    SuffixEmpty(m.tag);
    assert m.ctx.input[m.ctx.index..m.ctx.index] == [];
  }

  lemma TakeOneMore(m: Machine, j: nat)
    requires m.tag.attributes != [] && m.ctx.index < j <= |m.ctx.input|
    ensures var c := m.ctx.input[m.ctx.index];
            TakeQuoted(m.(ctx := m.ctx.(index := m.ctx.index + 1), tag := AppendToAttributeValue(m.tag, c)), j)
              == TakeQuoted(m, j)
  {
    var i := m.ctx.index;
    assert m.ctx.input[i..j] == [m.ctx.input[i]] + m.ctx.input[i + 1..j];
    SuffixStep(m.tag, m.ctx.input[i], m.ctx.input[i + 1..j]);
  }

  lemma SuffixEmpty(t: TagToken)
    requires t.attributes != []
    ensures WithValueSuffix(t, []) == t
  {
    var n := |t.attributes| - 1;
    assert t.attributes[n].value + [] == t.attributes[n].value;
    assert t.attributes[n := t.attributes[n]] == t.attributes;
  }

  /** Appending one character and then a suffix is appending both at once. */
  lemma SuffixStep(t: TagToken, c: char, rest: string)
    requires t.attributes != []
    ensures WithValueSuffix(AppendToAttributeValue(t, c), rest) == WithValueSuffix(t, [c] + rest)
  {
    var n := |t.attributes| - 1;
    assert t.attributes[n].value + [c] + rest == t.attributes[n].value + ([c] + rest);
  }

  /** At a stalled `<!` the step changes nothing, so the source's loop spins
      forever there; the model reports it instead. */
  lemma StallIsFixpoint(m: Machine)
    requires !Eof(m.ctx) && Stalled(m)
    ensures Step(m) == (m, [])
    ensures Run(m) == Stalls([])
  {
  }
}

/** The cursor the tokenizer runs on (`TokenizerContext`): an input string, a
    read position, the current state, and a stack of return states. The class
    mutates itself; here every operation returns the updated context. */
module Scanner {
  import opened Wrappers

  datatype Context<S> = Context(input: string, index: nat, state: S, returnStates: seq<S>)

  function Min(a: int, b: int): int {
    if a <= b then a else b
  }

  /** A fresh context: nothing consumed, no return states. */
  function Start<S>(input: string, state: S): (r: Context<S>)
    ensures r.index == 0 && r.returnStates == []
  {
    Context(input, 0, state, [])
  }

  /** `peek(n)`: up to `n` characters from the read position, cut short at the
      end of the input; the read position does not move. */
  function Peek<S>(s: Context<S>, n: nat): (r: string)
    ensures s.index <= |s.input| ==> |r| == Min(n, |s.input| - s.index)
    ensures s.index >= |s.input| ==> r == []
    ensures forall k :: 0 <= k < |r| ==> s.index + k < |s.input| && r[k] == s.input[s.index + k]
  {
    var from := Min(s.index, |s.input|);
    s.input[from..Min(s.index + n, |s.input|)]
  }

  /** `startsWith(str)`: the next `|str|` characters are exactly `str`. */
  predicate StartsWith<S>(s: Context<S>, str: string) {
    Peek(s, |str|) == str
  }

  /** `skip(n)`: advance without looking. */
  function Skip<S>(s: Context<S>, n: nat): (r: Context<S>)
    ensures r.index == s.index + n
    ensures r.input == s.input && r.state == s.state && r.returnStates == s.returnStates
  {
    s.(index := s.index + n)
  }

  /** `eof()`. */
  predicate Eof<S>(s: Context<S>) {
    s.index >= |s.input|
  }

  /** `consume()`: the character at the read position (`None` standing for the
      `undefined` read past the end) and the context advanced by one. */
  function Consume<S>(s: Context<S>): (r: (Option<char>, Context<S>))
    ensures r.1.index == s.index + 1
    ensures r.1.input == s.input && r.1.state == s.state && r.1.returnStates == s.returnStates
    ensures !Eof(s) <==> r.0.Some?
    ensures !Eof(s) ==> r.0.value == s.input[s.index]
  {
    var c := if s.index < |s.input| then Some(s.input[s.index]) else None;
    (c, s.(index := s.index + 1))
  }

  /** `reconsume()`: step back over the character just consumed. */
  function Reconsume<S>(s: Context<S>): (r: Context<S>)
    requires s.index > 0
    ensures r.index + 1 == s.index
    ensures r.input == s.input && r.state == s.state && r.returnStates == s.returnStates
  {
    s.(index := s.index - 1)
  }

  /** `setState(state, returnState?)`: switch state, pushing the return state
      only when one is given. */
  function SetState<S>(s: Context<S>, state: S, returnState: Option<S>): (r: Context<S>)
    ensures r.state == state && r.input == s.input && r.index == s.index
    ensures returnState.None? ==> r.returnStates == s.returnStates
    ensures returnState.Some? ==> r.returnStates == s.returnStates + [returnState.value]
  {
    var stack := match returnState
      case Some(rs) => s.returnStates + [rs]
      case None => s.returnStates;
    s.(state := state, returnStates := stack)
  }

  /** `popReturnState()`: resume the most recently pushed return state. On an
      empty stack the source's state becomes `undefined`, which is `None` here. */
  function PopReturnState<S>(s: Context<S>): (r: Option<Context<S>>)
    ensures r.None? <==> s.returnStates == []
    ensures r.Some? ==> r.value.state == s.returnStates[|s.returnStates| - 1]
    ensures r.Some? ==> r.value.returnStates == s.returnStates[..|s.returnStates| - 1]
    ensures r.Some? ==> r.value.input == s.input && r.value.index == s.index
  {
    if s.returnStates == [] then None
    else
      var n := |s.returnStates|;
      Some(s.(state := s.returnStates[n - 1], returnStates := s.returnStates[..n - 1]))
  }

  /** Iterating the context (`[Symbol.iterator]`): yields every remaining
      character in order and leaves the context at its end. */
  method Drain<S>(s: Context<S>) returns (chars: string, rest: Context<S>)
    ensures s.index <= |s.input| ==> chars == s.input[s.index..]
    ensures s.index > |s.input| ==> chars == []
    ensures Eof(rest)
    ensures rest.index == if s.index <= |s.input| then |s.input| else s.index
    ensures rest.input == s.input && rest.state == s.state && rest.returnStates == s.returnStates
  {
    chars := [];
    rest := s;
    while !Eof(rest)
      invariant rest.input == s.input && rest.state == s.state && rest.returnStates == s.returnStates
      invariant s.index <= rest.index <= |s.input| || rest == s
      invariant rest.index <= |s.input| ==> chars == s.input[s.index..rest.index]
      invariant rest.index > |s.input| ==> chars == [] && rest == s
      decreases |s.input| - rest.index
    {
      var (c, next) := Consume(rest);
      chars := chars + [c.value];
      rest := next;
    }
  }

  /** Consuming and then reconsuming leaves the context as it was. */
  lemma ConsumeThenReconsume<S>(s: Context<S>)
    ensures Reconsume(Consume(s).1) == s
  {
  }

  /** `startsWith(str)` holds exactly when `str` is the text at the read position. */
  lemma {:induction false} StartsWithIsPrefix<S>(s: Context<S>, str: string)
    requires s.index <= |s.input|
    ensures StartsWith(s, str) <==> s.index + |str| <= |s.input| && s.input[s.index..s.index + |str|] == str
  {
    if s.index + |str| <= |s.input| {
      assert Peek(s, |str|) == s.input[s.index..s.index + |str|];
    }
  }

  /** Return states come back last in, first out. */
  lemma ReturnStatesAreLifo<S>(s: Context<S>, a: S, b: S, x: S, y: S)
    ensures var pushed := SetState(SetState(s, x, Some(a)), y, Some(b));
            && PopReturnState(pushed).Some?
            && PopReturnState(pushed).value.state == b
            && PopReturnState(PopReturnState(pushed).value).Some?
            && PopReturnState(PopReturnState(pushed).value).value == s.(state := a)
  {
    var once := SetState(s, x, Some(a));
    assert (once.returnStates + [b])[..|once.returnStates|] == once.returnStates;
    assert (s.returnStates + [a])[..|s.returnStates|] == s.returnStates;
  }
}

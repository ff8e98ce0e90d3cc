/** helpers/parsing/parser.py: the one-token-lookahead builder of a `Sequence` of
    `Command`s, driven by the token-list lexer of helpers/parsing/parser_test.py. */
module Parsing {
  import opened Results
  import opened Lexing

  /** `Command`: the values of its tokens, in order. */
  datatype Command = Command(arguments: seq<Option<string>>)

  /** `Sequence`: the commands, in order. */
  datatype Sequence = Sequence(commands: seq<Command>)

  /** `ParserError(error, token)`. */
  datatype ParserError = ParserError(error: string, token: Token)

  // ---------------------------------------------------------------------------
  // The token-list lexer, as functions of the list and the selected index

  /** `MockedLexer.current()`: END once the list is exhausted. */
  function CurrentAt(tokens: seq<Token>, i: nat): (t: Token)
    requires i <= |tokens|
    ensures i == |tokens| ==> t == EndToken
    ensures i < |tokens| ==> t == tokens[i]
  {
    if i == |tokens| then EndToken else tokens[i]
  }

  /** `MockedLexer.eat()`: the selected index after it, which stays put at the end. */
  function EatAt(tokens: seq<Token>, i: nat): (j: nat)
    requires i <= |tokens|
    ensures j <= |tokens| && (i < |tokens| ==> j == i + 1) && (i == |tokens| ==> j == i)
  {
    if i == |tokens| then i else i + 1
  }

  // ---------------------------------------------------------------------------
  // The parser, as functions of the list and the selected index

  /** The loop of `parse_command` from index `i`, with the arguments appended so far;
      it returns the command and the index after the final `eat`. */
  function CommandLoop(tokens: seq<Token>, i: nat, args: seq<Option<string>>): (r: (Command, nat))
    requires i <= |tokens|
    ensures i <= r.1 <= |tokens| && |args| <= |r.0.arguments| && r.0.arguments[..|args|] == args
    decreases |tokens| - i
  {
    var t := CurrentAt(tokens, i);
    if t.kind != SEPARATOR && t.kind != END then CommandLoop(tokens, EatAt(tokens, i), args + [t.value])
    else (Command(args), EatAt(tokens, i))
  }

  /** `parse_command` at index `i`: the current token's value, then every value up to a
      separator or END, which is eaten too. */
  function ParseCommandSpec(tokens: seq<Token>, i: nat): (r: (Command, nat))
    requires i <= |tokens|
    ensures |r.0.arguments| >= 1 && r.0.arguments[0] == CurrentAt(tokens, i).value
    ensures i < |tokens| ==> i < r.1
    ensures r.1 <= |tokens|
  {
    CommandLoop(tokens, EatAt(tokens, i), [CurrentAt(tokens, i).value])
  }

  /** `parse_sequence_element` at index `i`. */
  function ParseElementSpec(tokens: seq<Token>, i: nat): (r: Result<(Command, nat), ParserError>)
    requires i <= |tokens|
    ensures r.Ok? <==> CurrentAt(tokens, i).kind == WORD
    ensures r.Err? ==> r.error == ParserError("unexpected token", CurrentAt(tokens, i))
  {
    if CurrentAt(tokens, i).kind == WORD then Ok(ParseCommandSpec(tokens, i))
    else Err(ParserError("unexpected token", CurrentAt(tokens, i)))
  }

  /** The loop of `parse_sequence` from index `i`, with the commands collected so far. */
  function SequenceLoop(tokens: seq<Token>, i: nat, commands: seq<Command>): (r: Result<(Sequence, nat), ParserError>)
    requires i <= |tokens|
    ensures r.Ok? ==> i <= r.value.1 <= |tokens| && CurrentAt(tokens, r.value.1).kind == END
    decreases |tokens| - i
  {
    var t := CurrentAt(tokens, i);
    if t.kind == END then Ok((Sequence(commands), i))
    else if t.kind == WORD then
      var (c, j) := ParseCommandSpec(tokens, i);
      SequenceLoop(tokens, j, commands + [c])
    else if t.kind == SEPARATOR then SequenceLoop(tokens, EatAt(tokens, i), commands)
    else Err(ParserError("unexpected token", t))
  }

  /** `parse()` / `parse_sequence()` over a fresh token-list lexer. */
  function ParseSpec(tokens: seq<Token>): Result<(Sequence, nat), ParserError> {
    SequenceLoop(tokens, 0, [])
  }

  // ---------------------------------------------------------------------------
  // The objects

  /** `MockedLexer`: a token list and the selected index. */
  class MockLexer {
    const tokens: seq<Token>
    var selected: nat

    ghost predicate Valid()
      reads this
    {
      selected <= |tokens|
    }

    constructor (tokens: seq<Token>)
      ensures this.tokens == tokens && selected == 0 && Valid()
    {
      this.tokens := tokens;
      selected := 0;
    }

    /** `current()`. */
    function Current(): (t: Token)
      requires Valid()
      reads this
      ensures selected == |tokens| ==> t == EndToken
      ensures selected < |tokens| ==> t == tokens[selected]
    {
      CurrentAt(tokens, selected)
    }

    /** `eat()`. */
    method Eat() returns (t: Token)
      requires Valid()
      modifies this
      ensures Valid() && selected == EatAt(tokens, old(selected)) && t == CurrentAt(tokens, selected)
    {
      if selected == |tokens| {
        return EndToken;
      }
      selected := selected + 1;
      t := Current();
    }
  }

  class Parser {
    const lexer: MockLexer

    constructor (lexer: MockLexer)
      ensures this.lexer == lexer
    {
      this.lexer := lexer;
    }

    /** `parse_command`. */
    method ParseCommand() returns (c: Command)
      requires lexer.Valid()
      modifies lexer
      ensures lexer.Valid() && (c, lexer.selected) == ParseCommandSpec(lexer.tokens, old(lexer.selected))
    {
      var args := [lexer.Current().value];
      var _ := lexer.Eat();
      while lexer.Current().kind != SEPARATOR && lexer.Current().kind != END
        invariant lexer.Valid()
        invariant CommandLoop(lexer.tokens, lexer.selected, args) == ParseCommandSpec(lexer.tokens, old(lexer.selected))
        decreases |lexer.tokens| - lexer.selected
      {
        args := args + [lexer.Current().value];
        var _ := lexer.Eat();
      }
      var _ := lexer.Eat();
      return Command(args);
    }

    /** `parse_sequence_element`. */
    method ParseSequenceElement() returns (r: Result<Command, ParserError>)
      requires lexer.Valid()
      modifies lexer
      ensures lexer.Valid()
      ensures var s := ParseElementSpec(lexer.tokens, old(lexer.selected));
              (r.Ok? <==> s.Ok?) && (s.Ok? ==> (r.value, lexer.selected) == s.value) &&
              (s.Err? ==> r.error == s.error)
    {
      if lexer.Current().kind == WORD {
        var c := ParseCommand();
        return Ok(c);
      }
      return Err(ParserError("unexpected token", lexer.Current()));
    }

    /** `parse_sequence`. */
    method ParseSequence() returns (r: Result<Sequence, ParserError>)
      requires lexer.Valid()
      modifies lexer
      ensures lexer.Valid()
      ensures var s := SequenceLoop(lexer.tokens, old(lexer.selected), []);
              (r.Ok? <==> s.Ok?) && (s.Ok? ==> (r.value, lexer.selected) == s.value) &&
              (s.Err? ==> r.error == s.error)
    {
      var commands: seq<Command> := [];
      while lexer.Current().kind != END
        invariant lexer.Valid()
        invariant SequenceLoop(lexer.tokens, lexer.selected, commands) == SequenceLoop(lexer.tokens, old(lexer.selected), [])
        decreases |lexer.tokens| - lexer.selected
      {
        if lexer.Current().kind == WORD {
          var element := ParseSequenceElement();
          commands := commands + [element.value];
        } else if lexer.Current().kind == SEPARATOR {
          var _ := lexer.Eat();
        } else {
          return Err(ParserError("unexpected token", lexer.Current()));
        }
      }
      return Ok(Sequence(commands));
    }

    /** `parse()`. */
    method Parse() returns (r: Result<Sequence, ParserError>)
      requires lexer.Valid()
      modifies lexer
      ensures lexer.Valid()
      ensures var s := SequenceLoop(lexer.tokens, old(lexer.selected), []);
              (r.Ok? <==> s.Ok?) && (s.Ok? ==> (r.value, lexer.selected) == s.value) &&
              (s.Err? ==> r.error == s.error)
    {
      r := ParseSequence();
    }
  }
}

/** What `parse_sequence` builds from a token list, against a reference definition:
    one command per maximal run of WORD tokens. */
module ParserProperties {
  import opened Results
  import opened Lexing
  import opened Parsing

  /** A stream of the two token kinds a sequence is made of. */
  predicate WordsAndSeparators(tokens: seq<Token>) {
    forall k :: 0 <= k < |tokens| ==> tokens[k].kind == WORD || tokens[k].kind == SEPARATOR
  }

  /** The end of the run of WORD tokens that starts at `i`. */
  function RunEnd(tokens: seq<Token>, i: nat): (e: nat)
    requires i <= |tokens|
    ensures i <= e <= |tokens| && (e < |tokens| ==> tokens[e].kind != WORD)
    ensures forall k :: i <= k < e ==> tokens[k].kind == WORD
    decreases |tokens| - i
  {
    if i < |tokens| && tokens[i].kind == WORD then RunEnd(tokens, i + 1) else i
  }

  /** The values of the tokens from `i` up to `e`, in order. */
  function ValuesBetween(tokens: seq<Token>, i: nat, e: nat): (vs: seq<Option<string>>)
    requires i <= e <= |tokens|
    ensures |vs| == e - i
    decreases e - i
  {
    if i == e then [] else [tokens[i].value] + ValuesBetween(tokens, i + 1, e)
  }

  /** Reference definition: one command for each maximal run of WORD tokens from
      index `i`, holding the run's values; separators only delimit runs. */
  function CommandsFrom(tokens: seq<Token>, i: nat): seq<Command>
    requires i <= |tokens|
    decreases |tokens| - i
  {
    if i == |tokens| then []
    else if tokens[i].kind != WORD then CommandsFrom(tokens, i + 1)
    else
      var e := RunEnd(tokens, i);
      [Command(ValuesBetween(tokens, i, e))] + CommandsFrom(tokens, e)
  }

  /** The values of the WORD tokens from index `i`, in order. */
  function WordValues(tokens: seq<Token>, i: nat): seq<Option<string>>
    requires i <= |tokens|
    decreases |tokens| - i
  {
    if i == |tokens| then []
    else if tokens[i].kind == WORD then [tokens[i].value] + WordValues(tokens, i + 1)
    else WordValues(tokens, i + 1)
  }

  /** All the commands' arguments, concatenated. */
  function Arguments(commands: seq<Command>): seq<Option<string>> {
    if commands == [] then [] else commands[0].arguments + Arguments(commands[1..])
  }

  // ---------------------------------------------------------------------------
  // The parser builds the reference

  /** The loop of `parse_command`, inside a run of WORD tokens, appends the rest of the
      run and eats the separator (or END) that ends it. */
  lemma {:induction false} CommandLoopRun(tokens: seq<Token>, i: nat, args: seq<Option<string>>)
    requires WordsAndSeparators(tokens) && i <= |tokens|
    ensures CommandLoop(tokens, i, args) ==
            (Command(args + ValuesBetween(tokens, i, RunEnd(tokens, i))), EatAt(tokens, RunEnd(tokens, i)))
    decreases |tokens| - i
  {
    if i < |tokens| && tokens[i].kind == WORD {
      CommandLoopRun(tokens, i + 1, args + [tokens[i].value]);
      assert args + [tokens[i].value] + ValuesBetween(tokens, i + 1, RunEnd(tokens, i)) ==
             args + ValuesBetween(tokens, i, RunEnd(tokens, i));
    } else {
      assert ValuesBetween(tokens, i, i) == [];
      assert args + [] == args;
    }
  }

  /** `parse_command` at the start of a run reads exactly the run. */
  lemma ParseCommandRun(tokens: seq<Token>, i: nat)
    requires WordsAndSeparators(tokens) && i < |tokens| && tokens[i].kind == WORD
    ensures ParseCommandSpec(tokens, i) ==
            (Command(ValuesBetween(tokens, i, RunEnd(tokens, i))), EatAt(tokens, RunEnd(tokens, i)))
  {
    CommandLoopRun(tokens, i + 1, [tokens[i].value]);
  }

  /** From any index, the loop of `parse_sequence` appends the reference's commands
      and stops at the end of the list. */
  lemma {:induction false} SequenceLoopCommands(tokens: seq<Token>, i: nat, commands: seq<Command>)
    requires WordsAndSeparators(tokens) && i <= |tokens|
    ensures SequenceLoop(tokens, i, commands) == Ok((Sequence(commands + CommandsFrom(tokens, i)), |tokens|))
    decreases |tokens| - i
  {
    if i == |tokens| {
      assert commands + [] == commands;
    } else if tokens[i].kind == WORD {
      ParseCommandRun(tokens, i);
      var e := RunEnd(tokens, i);
      var c := Command(ValuesBetween(tokens, i, e));
      SequenceLoopCommands(tokens, EatAt(tokens, e), commands + [c]);
      if e < |tokens| {
        assert CommandsFrom(tokens, e) == CommandsFrom(tokens, e + 1);
      }
      assert commands + [c] + CommandsFrom(tokens, e) == commands + ([c] + CommandsFrom(tokens, e));
    } else {
      SequenceLoopCommands(tokens, i + 1, commands);
    }
  }

  /** `parse()` over words and separators builds exactly one command per maximal run
      of WORD tokens, and consumes the whole list. */
  lemma ParseBuildsRuns(tokens: seq<Token>)
    requires WordsAndSeparators(tokens)
    ensures ParseSpec(tokens) == Ok((Sequence(CommandsFrom(tokens, 0)), |tokens|))
  {
    SequenceLoopCommands(tokens, 0, []);
    assert [] + CommandsFrom(tokens, 0) == CommandsFrom(tokens, 0);
  }

  // ---------------------------------------------------------------------------
  // What the reference promises

  lemma ArgumentsAppend(a: seq<Command>, b: seq<Command>)
    ensures Arguments(a + b) == Arguments(a) + Arguments(b)
  {
    if a != [] {
      assert (a + b)[1..] == a[1..] + b;
      ArgumentsAppend(a[1..], b);
    } else {
      assert a + b == b;
    }
  }

  /** The values of a run are the WORD values up to its end. */
  lemma {:induction false} RunValues(tokens: seq<Token>, i: nat)
    requires i <= |tokens|
    ensures ValuesBetween(tokens, i, RunEnd(tokens, i)) + WordValues(tokens, RunEnd(tokens, i)) ==
            WordValues(tokens, i)
    decreases |tokens| - i
  {
    if i < |tokens| && tokens[i].kind == WORD {
      RunValues(tokens, i + 1);
    }
  }

  /** Arguments appear in token order: the commands' arguments, concatenated, are the
      values of the WORD tokens. */
  lemma {:induction false} ArgumentsAreWordValues(tokens: seq<Token>, i: nat)
    requires i <= |tokens|
    ensures Arguments(CommandsFrom(tokens, i)) == WordValues(tokens, i)
    decreases |tokens| - i
  {
    if i < |tokens| {
      if tokens[i].kind != WORD {
        ArgumentsAreWordValues(tokens, i + 1);
      } else {
        var e := RunEnd(tokens, i);
        var c := Command(ValuesBetween(tokens, i, e));
        ArgumentsAreWordValues(tokens, e);
        ArgumentsAppend([c], CommandsFrom(tokens, e));
        assert Arguments([c]) == c.arguments;
        RunValues(tokens, i);
      }
    }
  }

  /** Every command of the reference is non-empty, and its first argument is the value
      of a WORD token. */
  lemma {:induction false} CommandsStartWithWord(tokens: seq<Token>, i: nat)
    requires i <= |tokens|
    ensures forall c :: c in CommandsFrom(tokens, i) ==>
              |c.arguments| >= 1 && exists k :: i <= k < |tokens| && tokens[k].kind == WORD && c.arguments[0] == tokens[k].value
    decreases |tokens| - i
  {
    if i < |tokens| {
      if tokens[i].kind != WORD {
        CommandsStartWithWord(tokens, i + 1);
      } else {
        CommandsStartWithWord(tokens, RunEnd(tokens, i));
      }
    }
  }

  /** A list that is empty or holds only separators parses to an empty sequence. */
  lemma {:induction false} SeparatorsOnly(tokens: seq<Token>, i: nat)
    requires i <= |tokens|
    requires forall k :: i <= k < |tokens| ==> tokens[k].kind == SEPARATOR
    ensures CommandsFrom(tokens, i) == []
    decreases |tokens| - i
  {
    if i < |tokens| {
      SeparatorsOnly(tokens, i + 1);
    }
  }

  /** The same, for `parse()`. */
  lemma SeparatorsParseEmpty(tokens: seq<Token>)
    requires forall k :: 0 <= k < |tokens| ==> tokens[k].kind == SEPARATOR
    ensures ParseSpec(tokens) == Ok((Sequence([]), |tokens|))
  {
    SeparatorsOnly(tokens, 0);
    ParseBuildsRuns(tokens);
  }

  /** `parse()` over words and separators succeeds, consumes the list, and the commands
      it builds are non-empty, start with a WORD value, and hold between them exactly
      the WORD values in token order. */
  lemma ParsedCommands(tokens: seq<Token>)
    requires WordsAndSeparators(tokens)
    ensures ParseSpec(tokens).Ok? && ParseSpec(tokens).value.1 == |tokens|
    ensures var commands := ParseSpec(tokens).value.0.commands;
            Arguments(commands) == WordValues(tokens, 0) &&
            forall c :: c in commands ==>
              |c.arguments| >= 1 && exists k :: 0 <= k < |tokens| && tokens[k].kind == WORD && c.arguments[0] == tokens[k].value
  {
    ParseBuildsRuns(tokens);
    ArgumentsAreWordValues(tokens, 0);
    CommandsStartWithWord(tokens, 0);
  }

  // ---------------------------------------------------------------------------
  // Errors

  /** A NONE token where a command may start raises `ParserError("unexpected token")`
      with that token, however many separators precede it. */
  lemma {:induction false} NoneTokenRaises(tokens: seq<Token>, i: nat, commands: seq<Command>, k: nat)
    requires i <= k < |tokens| && tokens[k].kind == NONE
    requires forall j :: i <= j < k ==> tokens[j].kind == SEPARATOR
    ensures SequenceLoop(tokens, i, commands) == Err(ParserError("unexpected token", tokens[k]))
    decreases k - i
  {
    if i < k {
      NoneTokenRaises(tokens, i + 1, commands, k);
    }
  }

  /** Inside a command, the loop of `parse_command` stops only at a separator or END:
      a NONE token there becomes an argument holding its (absent) value. */
  lemma NoneInsideCommand(tokens: seq<Token>, i: nat)
    requires i + 1 < |tokens| && tokens[i].kind == WORD && tokens[i + 1].kind == NONE
    ensures var (c, _) := ParseCommandSpec(tokens, i);
            |c.arguments| >= 2 && c.arguments[..2] == [tokens[i].value, tokens[i + 1].value]
  {
    var a, b := tokens[i].value, tokens[i + 1].value;
    assert CurrentAt(tokens, i + 1) == tokens[i + 1];
    assert CommandLoop(tokens, i + 1, [a]) == CommandLoop(tokens, i + 2, [a] + [b]);
    assert [a] + [b] == [a, b];
  }

  // ---------------------------------------------------------------------------
  // The rows of helpers/parsing/parser_test.py

  lemma SeparatorRows()
    ensures ParseSpec([]) == Ok((Sequence([]), 0))
    ensures ParseSpec([SeparatorToken]) == Ok((Sequence([]), 1))
    ensures ParseSpec([SeparatorToken, SeparatorToken, SeparatorToken]) == Ok((Sequence([]), 3))
  {
    SeparatorsParseEmpty([]);
    SeparatorsParseEmpty([SeparatorToken]);
    SeparatorsParseEmpty([SeparatorToken, SeparatorToken, SeparatorToken]);
  }

  lemma OneWordRow()
    ensures ParseSpec([WordToken("my word")]) == Ok((Sequence([Command([Some("my word")])]), 1))
  {
    var ts := [WordToken("my word")];
    ParseBuildsRuns(ts);
    assert RunEnd(ts, 0) == 1;
    assert ValuesBetween(ts, 0, 1) == [Some("my word")];
    assert CommandsFrom(ts, 0) == [Command([Some("my word")])] + CommandsFrom(ts, 1);
    assert CommandsFrom(ts, 1) == [];
    assert CommandsFrom(ts, 0) == [Command([Some("my word")])];
  }

  lemma SeveralWordsRow()
    ensures ParseSpec([WordToken("first"), WordToken("second"), WordToken("third")]) ==
            Ok((Sequence([Command([Some("first"), Some("second"), Some("third")])]), 3))
  {
    var ts := [WordToken("first"), WordToken("second"), WordToken("third")];
    ParseBuildsRuns(ts);
    assert RunEnd(ts, 0) == 3;
    assert ValuesBetween(ts, 2, 3) == [Some("third")];
    assert ValuesBetween(ts, 1, 3) == [Some("second"), Some("third")];
    assert ValuesBetween(ts, 0, 3) == [Some("first"), Some("second"), Some("third")];
    assert CommandsFrom(ts, 0) == [Command(ValuesBetween(ts, 0, 3))] + CommandsFrom(ts, 3);
    assert CommandsFrom(ts, 3) == [];
    assert CommandsFrom(ts, 0) == [Command([Some("first"), Some("second"), Some("third")])];
  }

  lemma SeveralCommandsRow()
    ensures ParseSpec([WordToken("first"), SeparatorToken, WordToken("second")]) ==
            Ok((Sequence([Command([Some("first")]), Command([Some("second")])]), 3))
  {
    var ts := [WordToken("first"), SeparatorToken, WordToken("second")];
    ParseBuildsRuns(ts);
    assert RunEnd(ts, 0) == 1 && RunEnd(ts, 2) == 3;
    assert ValuesBetween(ts, 0, 1) == [Some("first")];
    assert ValuesBetween(ts, 2, 3) == [Some("second")];
    assert CommandsFrom(ts, 2) == [Command([Some("second")])] + CommandsFrom(ts, 3);
    assert CommandsFrom(ts, 0) == [Command([Some("first")])] + CommandsFrom(ts, 1);
    assert CommandsFrom(ts, 3) == [];
    assert CommandsFrom(ts, 1) == CommandsFrom(ts, 2);
    assert CommandsFrom(ts, 0) == [Command([Some("first")]), Command([Some("second")])];
  }
}

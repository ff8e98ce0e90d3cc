/** What `eat_once` does at each kind of line position: blank input, line ends,
    separators, comments, words, and the END guard. */
module LexerProperties {
  import opened Results
  import opened Characters
  import opened Words
  import opened Lexing
  import WordTests

  /** The strings a real `readline` returns before the end of the file: never empty. */
  predicate IsFile(input: seq<string>) {
    forall k :: 0 <= k < |input| ==> input[k] != ""
  }

  /** Nothing but spaces from `pos` on, or spaces and then a comment. */
  predicate BlankFrom(line: string, pos: nat)
    requires pos <= |line|
  {
    var p := SkipSpaces(line, pos);
    p == |line| || line[p] == '#'
  }

  /** Every line from the `next`-th on is blank once its newline is dropped. */
  predicate BlankLines(input: seq<string>, next: nat) {
    forall k :: next <= k < |input| && input[k] != "" ==> BlankFrom(StripNewline(input[k]), 0)
  }

  /** A token after which the line end reads the next line instead of emitting a
      separator. */
  predicate ReadsOnLineEnd(t: Token) {
    t.kind == SEPARATOR || t.kind == NONE
  }

  /** From a blank rest of line, after a separator or at the start, with only blank
      lines left in the file, `eat_once` reads to the end of the file and yields END. */
  lemma {:induction false} BlankRestEnds(input: seq<string>, s: State)
    requires IsFile(input) && Fits(input, s) && ReadsOnLineEnd(s.token)
    requires BlankFrom(s.line, s.pos) && BlankLines(input, s.next)
    ensures EatOnceSpec(input, s) == Ok(State("", 0, EndToken, |input|))
    decreases |input| - s.next, |s.line| - s.pos
  {
    var p := SkipSpaces(s.line, s.pos);
    if p < |s.line| {
      var t := State(s.line, |s.line|, s.token, s.next);
      assert EatOnceSpec(input, s) == EatOnceSpec(input, t);
      BlankRestEnds(input, t);
    } else if s.next < |input| {
      var t := State(StripNewline(input[s.next]), 0, s.token, s.next + 1);
      assert EatOnceSpec(input, s) == EatOnceSpec(input, t);
      BlankRestEnds(input, t);
    }
  }

  /** Empty input, a lone newline and comment-only input give END as the first
      current token. */
  lemma BlankInputEnds(input: seq<string>)
    requires IsFile(input) && BlankLines(input, 0)
    ensures OpenSpec(input) == Ok(State("", 0, EndToken, |input|))
  {
    BlankRestEnds(input, Initial());
  }

  /** The blank rows of the lexer's table: nothing, a newline, one comment, and two
      comments on two lines. */
  lemma BlankInputRows()
    ensures OpenSpec([]) == Ok(State("", 0, EndToken, 0))
    ensures OpenSpec(["\n"]) == Ok(State("", 0, EndToken, 1))
    ensures OpenSpec(["# This is a test"]) == Ok(State("", 0, EndToken, 1))
    ensures OpenSpec(["# This is a test\n", "# This is a second test"]) == Ok(State("", 0, EndToken, 2))
  {
    BlankInputEnds([]);
    BlankInputEnds(["\n"]);
    CommentRows();
  }

  lemma CommentRows()
    ensures OpenSpec(["# This is a test"]) == Ok(State("", 0, EndToken, 1))
    ensures OpenSpec(["# This is a test\n", "# This is a second test"]) == Ok(State("", 0, EndToken, 2))
  {
    BlankInputEnds(["# This is a test"]);
    var two := ["# This is a test\n", "# This is a second test"];
    assert StripNewline(two[0]) == "# This is a test";
    BlankInputEnds(two);
  }

  /** After a WORD token, a blank rest of line (a comment included) yields exactly one
      separator, without reading the next line. */
  lemma WordThenSeparator(input: seq<string>, s: State)
    requires Fits(input, s) && s.token.kind == WORD && BlankFrom(s.line, s.pos)
    ensures EatOnceSpec(input, s) == Ok(State(s.line, |s.line|, SeparatorToken, s.next))
  {
    var p := SkipSpaces(s.line, s.pos);
    if p < |s.line| {
      var t := State(s.line, |s.line|, s.token, s.next);
      assert EatOnceSpec(input, s) == EatOnceSpec(input, t);
      assert SkipSpaces(s.line, |s.line|) == |s.line|;
    }
  }

  /** After a separator (or before the first token), the line end reads the next line
      and lexes on from its start: no second separator is emitted. */
  lemma SeparatorReadsNextLine(input: seq<string>, s: State)
    requires Fits(input, s) && ReadsOnLineEnd(s.token) && SkipSpaces(s.line, s.pos) == |s.line|
    requires s.next < |input| && input[s.next] != ""
    ensures EatOnceSpec(input, s) ==
            EatOnceSpec(input, State(StripNewline(input[s.next]), 0, s.token, s.next + 1))
  {
  }

  /** A `;` at a token start is consumed alone and yields a separator, whatever the
      current token and whatever spaces precede it. */
  lemma SemicolonSeparator(input: seq<string>, s: State)
    requires Fits(input, s)
    requires SkipSpaces(s.line, s.pos) < |s.line| && s.line[SkipSpaces(s.line, s.pos)] == ';'
    ensures EatOnceSpec(input, s) ==
            Ok(State(s.line, SkipSpaces(s.line, s.pos) + 1, SeparatorToken, s.next))
  {
  }

  /** A `#` at a token start discards the rest of the line. */
  lemma CommentSkipsLine(input: seq<string>, s: State)
    requires Fits(input, s)
    requires SkipSpaces(s.line, s.pos) < |s.line| && s.line[SkipSpaces(s.line, s.pos)] == '#'
    ensures EatOnceSpec(input, s) == EatOnceSpec(input, State(s.line, |s.line|, s.token, s.next))
  {
  }

  /** Any other character at a token start begins a WORD token: its value is the slice
      of the line that `Word.parse` reads from there, and the lexer fails exactly when
      `Word.parse` fails, with its error. */
  lemma WordTokenAt(input: seq<string>, s: State)
    requires Fits(input, s)
    requires SkipSpaces(s.line, s.pos) < |s.line|
    requires s.line[SkipSpaces(s.line, s.pos)] != '#' && s.line[SkipSpaces(s.line, s.pos)] != ';'
    ensures var p := SkipSpaces(s.line, s.pos);
            match WordAt(s.line, p)
            case Ok((j, _)) => EatOnceSpec(input, s) == Ok(State(s.line, j, WordToken(s.line[p..j]), s.next))
            case Err(e) => EatOnceSpec(input, s) == Err(e)
  {
    StrSpanAgrees(s.line, SkipSpaces(s.line, s.pos));
  }

  /** The END guard never fires: on END, at the end of its (empty) line, `eat` yields a
      separator, and the next `eat` reads the exhausted file and yields END again. */
  lemma EndGuardNeverFires(input: seq<string>)
    ensures var atEnd := State("", 0, EndToken, |input|);
            var after := State("", 0, SeparatorToken, |input|);
            EatOnceSpec(input, atEnd) == Ok(after) && EatOnceSpec(input, after) == Ok(atEnd)
  {
  }

  /** The only END state `eat` reaches in a file: an empty line, the cursor at 0, and
      every line read. */
  lemma EndOnlyAtEof(input: seq<string>, s: State)
    requires IsFile(input) && Fits(input, s)
    ensures var r := EatOnceSpec(input, s);
            r.Ok? && r.value.token.kind == END ==> r.value == State("", 0, EndToken, |input|)
  {
    var r := EatOnceSpec(input, s);
    if r.Ok? && 0 < r.value.next <= |input| {
      assert input[r.value.next - 1] != "";
    }
  }

  /** The constructor reads the first line and lexes its first token. */
  lemma OpenFirstToken(input: seq<string>)
    requires |input| > 0 && input[0] != ""
    ensures OpenSpec(input) == EatOnceSpec(input, State(StripNewline(input[0]), 0, NoneToken, 1))
  {
  }

  /** The failing rows of the lexer's table: an error on the first line surfaces from
      construction, with the word grammar's message. */
  lemma ConstructorErrorRows()
    ensures OpenSpec(["\""]) == Err(LexError("missing quote end", "\""))
    ensures OpenSpec(["$"]) == Err(LexError("missing variable start", "$"))
    ensures OpenSpec(["${"]) == Err(LexError("missing variable end", "${"))
    ensures OpenSpec(["\\"]) == Err(LexError("missing escaped character", "\\"))
    ensures OpenSpec(["\\z"]) == Err(LexError("invalid escaped character", "\\z"))
  {
    WordTests.ErrorRows();
    OpenFirstToken(["\""]);
    WordTokenAt(["\""], State("\"", 0, NoneToken, 1));
    OpenFirstToken(["$"]);
    WordTokenAt(["$"], State("$", 0, NoneToken, 1));
    OpenFirstToken(["${"]);
    WordTokenAt(["${"], State("${", 0, NoneToken, 1));
    OpenFirstToken(["\\"]);
    WordTokenAt(["\\"], State("\\", 0, NoneToken, 1));
    OpenFirstToken(["\\z"]);
    WordTokenAt(["\\z"], State("\\z", 0, NoneToken, 1));
  }

  /** The row `first second;` then `third`: a `;` at the end of a line is the only
      separator before the next line is read, and the last word of the file is still
      followed by one. */
  lemma SeparatorAtLineEndRow()
    ensures var input := RowInput();
            OpenSpec(input) == Ok(RowState(0)) && EatOnceSpec(input, RowState(0)) == Ok(RowState(1)) &&
            EatOnceSpec(input, RowState(1)) == Ok(RowState(2)) && EatOnceSpec(input, RowState(2)) == Ok(RowState(3)) &&
            EatOnceSpec(input, RowState(3)) == Ok(RowState(4)) && EatOnceSpec(input, RowState(4)) == Ok(RowState(5))
  {
    RowFirst();
    RowSecond();
    RowSemicolon();
    RowThird();
    RowLastSeparator();
  }

  function RowInput(): seq<string> {
    ["first second;\n", "third\n"]
  }

  /** The states after each `eat` of the row: two words and `;` on the first line, a
      word and the line-end separator on the second, then END. */
  function RowState(k: nat): State {
    if k == 0 then State("first second;", 5, WordToken("first"), 1)
    else if k == 1 then State("first second;", 12, WordToken("second"), 1)
    else if k == 2 then State("first second;", 13, SeparatorToken, 1)
    else if k == 3 then State("third", 5, WordToken("third"), 2)
    else if k == 4 then State("third", 5, SeparatorToken, 2)
    else State("", 0, EndToken, 2)
  }

  lemma RowFirst()
    ensures OpenSpec(RowInput()) == Ok(RowState(0))
  {
    var l0 := "first second;";
    assert StripNewline(RowInput()[0]) == l0;
    WordTests.BareAt(l0, 0, "first");
    OpenFirstToken(RowInput());
    WordTokenAt(RowInput(), State(l0, 0, NoneToken, 1));
  }

  lemma RowSecond()
    ensures EatOnceSpec(RowInput(), RowState(0)) == Ok(RowState(1))
  {
    var l0 := "first second;";
    WordTests.BareAt(l0, 6, "second");
    assert SkipSpaces(l0, 5) == 6;
    WordTokenAt(RowInput(), RowState(0));
  }

  lemma RowSemicolon()
    ensures EatOnceSpec(RowInput(), RowState(1)) == Ok(RowState(2))
  {
    SemicolonSeparator(RowInput(), RowState(1));
  }

  lemma RowThird()
    ensures EatOnceSpec(RowInput(), RowState(2)) == Ok(RowState(3))
  {
    assert StripNewline(RowInput()[1]) == "third";
    SeparatorReadsNextLine(RowInput(), RowState(2));
    WordTests.BareAt("third", 0, "third");
    WordTokenAt(RowInput(), State("third", 0, SeparatorToken, 2));
  }

  lemma RowLastSeparator()
    ensures EatOnceSpec(RowInput(), RowState(3)) == Ok(RowState(4))
    ensures EatOnceSpec(RowInput(), RowState(4)) == Ok(RowState(5))
  {
    WordThenSeparator(RowInput(), RowState(3));
  }
}

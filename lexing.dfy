/** helpers/parsing/lexer.py: the pull-model lexer. The file behind it is a sequence
    of the strings `readline` returns, with a read index. */
module Lexing {
  import opened Results
  import opened Characters
  import opened Words

  // ---------------------------------------------------------------------------
  // Tokens

  /** The `TOKEN` enumeration. */
  datatype TokenType = NONE | END | SEPARATOR | WORD

  /** `Token(type, value)`; only WORD tokens carry a value. */
  datatype Token = Token(kind: TokenType, value: Option<string>)

  const NoneToken := Token(NONE, None)
  const EndToken := Token(END, None)
  const SeparatorToken := Token(SEPARATOR, None)

  function WordToken(value: string): Token {
    Token(WORD, Some(value))
  }

  /** The right-hand side of a `==` on a token: another token, or a member of the
      `TOKEN` enumeration itself. */
  datatype Operand = TokenOperand(other: Token) | EnumOperand(member: TokenType)

  /** `Token.__eq__`: equal exactly to a token with the same type and value; anything
      that is not a token, an enumeration member included, is unequal. */
  function TokenEquals(t: Token, operand: Operand): (b: bool)
    ensures b <==> operand.TokenOperand? && operand.other == t
  {
    match operand
    case TokenOperand(o) => t.kind == o.kind && t.value == o.value
    case EnumOperand(_) => false
  }

  // ---------------------------------------------------------------------------
  // The cursor advances of `eat_escaped`, `eat_variable`, `eat_quoted`, `eat_str`

  /** The list `eat_escaped` checks the escaped character against. */
  const EscapeLetters: seq<char> := ['n', 't', '$', '\\', '"', 'a', 'b', 'f', 'r', 'v']

  /** The lexer's list holds exactly the letters the word grammar decodes. */
  lemma EscapeLettersAgree(c: char)
    ensures c in EscapeLetters <==> IsEscapeLetter(c)
  {
    if IsEscapeLetter(c) {
      assert c == 'n' || c == 't' || c == '$' || c == '\\' || c == '"' ||
             c == 'a' || c == 'b' || c == 'f' || c == 'r' || c == 'v';
      if c == 'n' { assert EscapeLetters[0] == c; }
      else if c == 't' { assert EscapeLetters[1] == c; }
      else if c == '$' { assert EscapeLetters[2] == c; }
      else if c == '\\' { assert EscapeLetters[3] == c; }
      else if c == '"' { assert EscapeLetters[4] == c; }
      else if c == 'a' { assert EscapeLetters[5] == c; }
      else if c == 'b' { assert EscapeLetters[6] == c; }
      else if c == 'f' { assert EscapeLetters[7] == c; }
      else if c == 'r' { assert EscapeLetters[8] == c; }
      else { assert EscapeLetters[9] == c; }
    }
  }

  /** Where `eat_escaped` leaves the cursor, from the backslash at `pos`. */
  function EscapedSpan(line: string, pos: nat): (r: Result<nat, LexError>)
    requires pos < |line|
    ensures r.Ok? ==> r.value == pos + 2 <= |line|
  {
    if pos + 1 == |line| then Err(LexError("missing escaped character", line))
    else if line[pos + 1] !in EscapeLetters then Err(LexError("invalid escaped character", line))
    else Ok(pos + 2)
  }

  /** Where `eat_variable` leaves the cursor, from the `$` at `pos`. */
  function VariableSpan(line: string, pos: nat): (r: Result<nat, LexError>)
    requires pos < |line|
    ensures r.Ok? ==> pos + 3 <= r.value <= |line|
  {
    if pos + 1 == |line| || line[pos + 1] != '{' then Err(LexError("missing variable start", line))
    else
      var k := IndexOf(line, pos + 2, '}');
      if k == |line| then Err(LexError("missing variable end", line)) else Ok(k + 1)
  }

  /** The loop of `eat_quoted` from cursor `pos`: the index after the closing quote. */
  function QuotedSpanLoop(line: string, pos: nat): (r: Result<nat, LexError>)
    requires pos <= |line|
    ensures r.Ok? ==> pos < r.value <= |line|
    decreases |line| - pos
  {
    if pos == |line| then Err(LexError("missing quote end", line))
    else if line[pos] == '"' then Ok(pos + 1)
    else if line[pos] == '$' then
      match VariableSpan(line, pos)
      case Err(e) => Err(e)
      case Ok(j) => QuotedSpanLoop(line, j)
    else if line[pos] == '\\' then
      match EscapedSpan(line, pos)
      case Err(e) => Err(e)
      case Ok(j) => QuotedSpanLoop(line, j)
    else QuotedSpanLoop(line, pos + 1)
  }

  /** Where `eat_quoted` leaves the cursor, from the opening quote at `pos`. */
  function QuotedSpan(line: string, pos: nat): (r: Result<nat, LexError>)
    requires pos < |line|
    ensures r.Ok? ==> pos + 2 <= r.value <= |line|
  {
    QuotedSpanLoop(line, pos + 1)
  }

  /** Where `eat_str` leaves the cursor, from `pos`. */
  function StrSpan(line: string, pos: nat): (r: Result<nat, LexError>)
    requires pos <= |line|
    ensures r.Ok? ==> pos <= r.value <= |line|
    decreases |line| - pos
  {
    if pos == |line| || IsWhitespace(line[pos]) || IsSpecial(line[pos]) then Ok(pos)
    else if line[pos] == '"' then
      match QuotedSpan(line, pos)
      case Err(e) => Err(e)
      case Ok(j) => StrSpan(line, j)
    else if line[pos] == '$' then
      match VariableSpan(line, pos)
      case Err(e) => Err(e)
      case Ok(j) => StrSpan(line, j)
    else if line[pos] == '\\' then
      match EscapedSpan(line, pos)
      case Err(e) => Err(e)
      case Ok(j) => StrSpan(line, j)
    else StrSpan(line, pos + 1)
  }

  // ---------------------------------------------------------------------------
  // The cursor advances agree with the word grammar

  /** The index a scan of the word grammar returns, or its error. */
  function Span<T>(r: Result<(nat, T), LexError>): Result<nat, LexError> {
    match r
    case Ok((j, _)) => Ok(j)
    case Err(e) => Err(e)
  }

  /** `eat_escaped` moves past exactly what `parse_escaped` reads, and fails with the
      same error. */
  lemma EscapedSpanAgrees(line: string, pos: nat)
    requires pos < |line|
    ensures EscapedSpan(line, pos) == Span(EscapedAt(line, pos))
  {
    if pos + 1 < |line| {
      EscapeLettersAgree(line[pos + 1]);
    }
  }

  /** `eat_variable` moves past exactly what `Variable.parse` reads, and fails with the
      same error. */
  lemma VariableSpanAgrees(line: string, pos: nat)
    requires pos < |line|
    ensures VariableSpan(line, pos) == Span(VariableAt(line, pos))
  {
  }

  /** The loop of `eat_quoted` ends where the loop of `Quoted.parse` ends, whatever
      segments the latter has collected, and fails with the same error. */
  lemma {:induction false} QuotedSpanLoopAgrees(line: string, pos: nat, segs: seq<Segment>, cur: string)
    requires pos <= |line|
    ensures QuotedSpanLoop(line, pos) == Span(QuotedLoop(line, pos, segs, cur))
    decreases |line| - pos
  {
    if pos < |line| && line[pos] != '"' {
      if line[pos] == '$' {
        VariableSpanAgrees(line, pos);
        match VariableAt(line, pos)
        case Err(_) =>
        case Ok((j, v)) => QuotedSpanLoopAgrees(line, j, Flush(segs, cur) + [v], "");
      } else if line[pos] == '\\' {
        EscapedSpanAgrees(line, pos);
        match EscapedAt(line, pos)
        case Err(_) =>
        case Ok((j, c)) => QuotedSpanLoopAgrees(line, j, segs, cur + [c]);
      } else {
        QuotedSpanLoopAgrees(line, pos + 1, segs, cur + [line[pos]]);
      }
    }
  }

  /** `eat_quoted` moves past exactly what `Quoted.parse` reads. */
  lemma QuotedSpanAgrees(line: string, pos: nat)
    requires pos < |line|
    ensures QuotedSpan(line, pos) == Span(QuotedAt(line, pos))
  {
    QuotedSpanLoopAgrees(line, pos + 1, [], "");
  }

  /** The loop of `eat_str` ends where the loop of `Word.parse` ends, and fails with the
      same error. */
  lemma {:induction false} StrSpanLoopAgrees(line: string, pos: nat, segs: seq<Segment>, cur: string)
    requires pos <= |line|
    ensures StrSpan(line, pos) == Span(WordLoop(line, pos, segs, cur))
    decreases |line| - pos
  {
    if pos < |line| && !IsWhitespace(line[pos]) && !IsSpecial(line[pos]) {
      if line[pos] == '"' {
        QuotedSpanAgrees(line, pos);
        match QuotedAt(line, pos)
        case Err(_) =>
        case Ok((j, q)) => StrSpanLoopAgrees(line, j, Flush(segs, cur) + [q], "");
      } else if line[pos] == '$' {
        VariableSpanAgrees(line, pos);
        match VariableAt(line, pos)
        case Err(_) =>
        case Ok((j, v)) => StrSpanLoopAgrees(line, j, Flush(segs, cur) + [v], "");
      } else if line[pos] == '\\' {
        EscapedSpanAgrees(line, pos);
        match EscapedAt(line, pos)
        case Err(_) =>
        case Ok((j, c)) => StrSpanLoopAgrees(line, j, segs, cur + [c]);
      } else {
        StrSpanLoopAgrees(line, pos + 1, segs, cur + [line[pos]]);
      }
    }
  }

  /** `eat_str` advances the cursor to exactly the index `Word.parse` returns on the
      same line, and raises exactly when `Word.parse` raises, with the same error. */
  lemma StrSpanAgrees(line: string, pos: nat)
    requires pos <= |line|
    ensures StrSpan(line, pos) == Span(WordAt(line, pos))
  {
    StrSpanLoopAgrees(line, pos, [], "");
  }

  // ---------------------------------------------------------------------------
  // The state machine of `eat_once`, as a function of the fields

  /** The fields of a `Lexer`: its line, cursor and current token, and how many
      lines have been read from the file. */
  datatype State = State(line: string, pos: nat, token: Token, next: nat)

  /** `file.readline()`: the next line, or `""` once the file is exhausted. */
  function ReadLineAt(input: seq<string>, next: nat): (l: string)
    ensures l != "" ==> next < |input|
  {
    if next < |input| then input[next] else ""
  }

  /** The read index after a `readline`. */
  function NextAfterRead(input: seq<string>, next: nat): nat {
    if next < |input| then next + 1 else next
  }

  /** The line as read, without its final newline when it has one. */
  function StripNewline(l: string): (r: string)
    requires l != ""
    ensures l[|l| - 1] == '\n' ==> r == l[..|l| - 1]
    ensures l[|l| - 1] != '\n' ==> r == l
  {
    if l[|l| - 1] == '\n' then l[..|l| - 1] else l
  }

  /** The whitespace loop of `eat_once`: the first index at or after `pos` that is not
      a space. */
  function SkipSpaces(line: string, pos: nat): (p: nat)
    requires pos <= |line|
    ensures pos <= p <= |line| && (p == |line| || !IsWhitespace(line[p]))
    ensures forall k :: pos <= k < p ==> IsWhitespace(line[k])
    decreases |line| - pos
  {
    if pos < |line| && IsWhitespace(line[pos]) then SkipSpaces(line, pos + 1) else pos
  }

  /** The state a lexer can be in: cursor within the line, reads within the file. */
  predicate Fits(input: seq<string>, s: State) {
    s.pos <= |s.line| && s.next <= |input|
  }

  /** `eat_once` from state `s`: the state after the next token, or the `LexerError`
      it raises. The guard against END compares the token to the enumeration member,
      as the source does. */
  function EatOnceSpec(input: seq<string>, s: State): (r: Result<State, LexError>)
    requires Fits(input, s)
    ensures r.Ok? ==> Fits(input, r.value) && s.next <= r.value.next
    ensures r.Ok? ==> r.value.token.kind != NONE
    ensures r.Ok? && r.value.token.kind == END ==>
              r.value.token == EndToken && r.value.line == "" && r.value.pos == 0 &&
              (r.value.next == |input| || (0 < r.value.next && input[r.value.next - 1] == ""))
    decreases |input| - s.next, |s.line| - s.pos
  {
    if TokenEquals(s.token, EnumOperand(END)) then Ok(s)
    else
      var p := SkipSpaces(s.line, s.pos);
      if p == |s.line| then
        if s.token.kind == SEPARATOR || s.token.kind == NONE then
          var l := ReadLineAt(input, s.next);
          var next := NextAfterRead(input, s.next);
          if l == "" then Ok(State(l, 0, EndToken, next))
          else EatOnceSpec(input, State(StripNewline(l), 0, s.token, next))
        else Ok(State(s.line, p, SeparatorToken, s.next))
      else if s.line[p] == '#' then EatOnceSpec(input, State(s.line, |s.line|, s.token, s.next))
      else if s.line[p] == ';' then Ok(State(s.line, p + 1, SeparatorToken, s.next))
      else
        match StrSpan(s.line, p)
        case Err(e) => Err(e)
        case Ok(q) => Ok(State(s.line, q, WordToken(s.line[p..q]), s.next))
  }

  /** The fields `Lexer.__init__` sets before its one `eat`. */
  function Initial(): State {
    State("", 0, NoneToken, 0)
  }

  /** `Lexer(file)`: the first token is read by the constructor, so a lexing error on
      the first line surfaces from construction. */
  function OpenSpec(input: seq<string>): (r: Result<State, LexError>)
    ensures r.Ok? ==> Fits(input, r.value) && r.value.token.kind != NONE
    ensures r.Ok? && r.value.token.kind == END ==> r.value.line == "" && r.value.pos == 0
  {
    EatOnceSpec(input, Initial())
  }

  // ---------------------------------------------------------------------------
  // The lexer object

  class Lexer {
    const input: seq<string>
    var next: nat
    var line: string
    var pos: nat
    var token: Token

    ghost predicate Valid()
      reads this
    {
      pos <= |line| && next <= |input|
    }

    /** The fields, as a value. */
    function Fields(): State
      reads this
    {
      State(line, pos, token, next)
    }

    /** `current()`. */
    function Current(): (t: Token)
      reads this
      ensures t == Fields().token
    {
      token
    }

    /** The assignments of `__init__` before its `eat`. */
    constructor Init(input: seq<string>)
      ensures this.input == input && Fields() == Initial() && Valid()
    {
      this.input := input;
      next := 0;
      line := "";
      pos := 0;
      token := NoneToken;
    }

    /** `Lexer(file)`: construction followed by one `eat`, whose error is raised from
        the constructor. */
    static method Open(input: seq<string>) returns (r: Result<Lexer, LexError>)
      ensures r.Ok? <==> OpenSpec(input).Ok?
      ensures r.Ok? ==> fresh(r.value) && r.value.Valid() && r.value.input == input &&
                        r.value.Fields() == OpenSpec(input).value
      ensures r.Err? ==> r.error == OpenSpec(input).error
    {
      var lexer := new Lexer.Init(input);
      var t := lexer.EatOnce();
      if t.Err? {
        return Err(t.error);
      }
      return Ok(lexer);
    }

    /** `file.readline()`. */
    method ReadLine() returns (l: string)
      requires Valid()
      modifies this
      ensures l == ReadLineAt(input, old(next)) && next == NextAfterRead(input, old(next))
      ensures line == old(line) && pos == old(pos) && token == old(token) && Valid()
    {
      if next < |input| {
        l := input[next];
        next := next + 1;
      } else {
        l := "";
      }
    }

    /** `eat_escaped`. */
    method EatEscaped() returns (o: Outcome<LexError>)
      requires Valid() && pos < |line|
      modifies this
      ensures Valid() && line == old(line) && token == old(token) && next == old(next)
      ensures o.Pass? <==> EscapedSpan(line, old(pos)).Ok?
      ensures o.Pass? ==> pos == EscapedSpan(line, old(pos)).value
      ensures o.Fail? ==> o.error == EscapedSpan(line, old(pos)).error
    {
      pos := pos + 1;
      if pos == |line| {
        return Fail(LexError("missing escaped character", line));
      }
      if line[pos] !in EscapeLetters {
        return Fail(LexError("invalid escaped character", line));
      }
      pos := pos + 1;
      return Pass;
    }

    /** `eat_variable`. */
    method EatVariable() returns (o: Outcome<LexError>)
      requires Valid() && pos < |line|
      modifies this
      ensures Valid() && line == old(line) && token == old(token) && next == old(next)
      ensures o.Pass? <==> VariableSpan(line, old(pos)).Ok?
      ensures o.Pass? ==> pos == VariableSpan(line, old(pos)).value
      ensures o.Fail? ==> o.error == VariableSpan(line, old(pos)).error
    {
      pos := pos + 1;
      if pos == |line| || line[pos] != '{' {
        return Fail(LexError("missing variable start", line));
      }
      pos := pos + 1;
      while pos < |line| && line[pos] != '}'
        invariant old(pos) + 2 <= pos <= |line|
        invariant line == old(line) && token == old(token) && next == old(next)
        invariant IndexOf(line, pos, '}') == IndexOf(line, old(pos) + 2, '}')
      {
        pos := pos + 1;
      }
      if pos == |line| {
        return Fail(LexError("missing variable end", line));
      }
      pos := pos + 1;
      return Pass;
    }

    /** `eat_quoted`. */
    method EatQuoted() returns (o: Outcome<LexError>)
      requires Valid() && pos < |line|
      modifies this
      ensures Valid() && line == old(line) && token == old(token) && next == old(next)
      ensures o.Pass? <==> QuotedSpan(line, old(pos)).Ok?
      ensures o.Pass? ==> pos == QuotedSpan(line, old(pos)).value
      ensures o.Fail? ==> o.error == QuotedSpan(line, old(pos)).error
    {
      pos := pos + 1;
      while pos < |line| && line[pos] != '"'
        invariant Valid() && line == old(line) && token == old(token) && next == old(next)
        invariant QuotedSpanLoop(line, pos) == QuotedSpan(line, old(pos))
        decreases |line| - pos
      {
        if line[pos] == '$' {
          o := EatVariable();
          if o.Fail? {
            return;
          }
        } else if line[pos] == '\\' {
          o := EatEscaped();
          if o.Fail? {
            return;
          }
        } else {
          pos := pos + 1;
        }
      }
      if pos == |line| {
        return Fail(LexError("missing quote end", line));
      }
      pos := pos + 1;
      return Pass;
    }

    /** `eat_str`. */
    method EatStr() returns (o: Outcome<LexError>)
      requires Valid()
      modifies this
      ensures Valid() && line == old(line) && token == old(token) && next == old(next)
      ensures o.Pass? <==> StrSpan(line, old(pos)).Ok?
      ensures o.Pass? ==> pos == StrSpan(line, old(pos)).value
      ensures o.Fail? ==> o.error == StrSpan(line, old(pos)).error
    {
      o := Pass;
      while pos < |line| && !IsWhitespace(line[pos]) && !IsSpecial(line[pos])
        invariant Valid() && line == old(line) && token == old(token) && next == old(next)
        invariant StrSpan(line, pos) == StrSpan(line, old(pos)) && o.Pass?
        decreases |line| - pos
      {
        if line[pos] == '"' {
          o := EatQuoted();
        } else if line[pos] == '$' {
          o := EatVariable();
        } else if line[pos] == '\\' {
          o := EatEscaped();
        } else {
          pos := pos + 1;
        }
        if o.Fail? {
          return;
        }
      }
    }

    /** `eat_once`. It re-enters itself after reading a line and after a comment. */
    method EatOnce() returns (r: Result<Token, LexError>)
      requires Valid()
      modifies this
      ensures Valid()
      ensures r.Ok? <==> EatOnceSpec(input, old(Fields())).Ok?
      ensures r.Ok? ==> Fields() == EatOnceSpec(input, old(Fields())).value && r.value == token
      ensures r.Err? ==> r.error == EatOnceSpec(input, old(Fields())).error
      decreases |input| - next, |line| - pos
    {
      if TokenEquals(token, EnumOperand(END)) {
        return Ok(token);
      }
      ghost var s := Fields();
      while pos < |line| && IsWhitespace(line[pos])
        invariant s.pos <= pos <= |line| && line == s.line && token == s.token && next == s.next
        invariant SkipSpaces(line, pos) == SkipSpaces(line, s.pos)
      {
        pos := pos + 1;
      }
      if pos == |line| {
        if token.kind == SEPARATOR || token.kind == NONE {
          pos := 0;
          line := ReadLine();
          if line == "" {
            token := EndToken;
            return Ok(token);
          }
          if line[|line| - 1] == '\n' {
            line := line[..|line| - 1];
          }
          r := EatOnce();
          return;
        }
        token := SeparatorToken;
        return Ok(token);
      }
      if line[pos] == '#' {
        pos := |line|;
        r := EatOnce();
        return;
      } else if line[pos] == ';' {
        pos := pos + 1;
        token := SeparatorToken;
        return Ok(token);
      }
      var start := pos;
      var o := EatStr();
      if o.Fail? {
        return Err(o.error);
      }
      token := WordToken(line[start..pos]);
      return Ok(token);
    }

    /** `eat()`: one `eat_once`. */
    method Eat() returns (r: Result<Token, LexError>)
      requires Valid()
      modifies this
      ensures Valid()
      ensures r.Ok? <==> EatOnceSpec(input, old(Fields())).Ok?
      ensures r.Ok? ==> Fields() == EatOnceSpec(input, old(Fields())).value && r.value == token
      ensures r.Err? ==> r.error == EatOnceSpec(input, old(Fields())).error
    {
      r := EatOnce();
    }
  }
}

/** helpers/parser.py: the older string-level tokenizer. It splits a command at spaces
    only, decodes escapes, and substitutes `${NAME}` references through a callback
    while it scans. */
module LegacyParser {
  import opened Results
  import opened Words
  import opened Texts

  /** The `variables` callback: the value of a name, or the error it raises. */
  type Env = string -> Result<string, PyError>

  /** What a scan returns or raises, with the names handed to the callback on the
      way, in call order. */
  datatype Run<T> = Run(result: Result<T, PyError>, lookups: seq<string>)

  /** What iterating the generator `parse` gives: the tokens yielded, whether the
      iteration ended normally or raised, and the names looked up. */
  datatype Yield = Yield(tokens: seq<string>, stop: Outcome<PyError>, lookups: seq<string>)

  // ---------------------------------------------------------------------------
  // The scanners, as functions of the command and the cursor

  /** `get_escaped(command, i)` with the backslash at `i`: the same ten escapes as the
      word grammar, with this module's own messages. */
  function GetEscaped(command: string, i: nat): (r: Result<(nat, char), PyError>)
    requires i < |command|
    ensures r.Ok? <==> i + 1 < |command| && IsEscapeLetter(command[i + 1])
    ensures r.Ok? ==> r.value == (i + 2, Unescape(command[i + 1]))
    ensures r.Err? ==> r.error == ValueError(if i + 1 == |command| then "missing character after \\"
                                              else "invalid character after \\")
  {
    if i + 1 == |command| then Err(ValueError("missing character after \\"))
    else if IsEscapeLetter(command[i + 1]) then Ok((i + 2, Unescape(command[i + 1])))
    else Err(ValueError("invalid character after \\"))
  }

  /** The name loop of `get_variable` from index `i`, with the name read so far: a
      backslash takes the next character verbatim. It returns the index of the
      closing `}` and the name. */
  function NameLoop(command: string, i: nat, name: string): (r: Result<(nat, string), PyError>)
    requires i <= |command|
    ensures r.Ok? ==> i <= r.value.0 < |command| && command[r.value.0] == '}' && |name| <= |r.value.1|
    ensures r.Err? ==> r.error == ValueError("missing closing }") || r.error == ValueError("missing character after \\")
    decreases |command| - i
  {
    if i == |command| then Err(ValueError("missing closing }"))
    else if command[i] == '}' then Ok((i, name))
    else if command[i] == '\\' then
      if i + 1 == |command| then Err(ValueError("missing character after \\"))
      else NameLoop(command, i + 2, name + [command[i + 1]])
    else NameLoop(command, i + 1, name + [command[i]])
  }

  /** `get_variable(command, i, variables)` with the `$` at `i`. A `$` that ends the
      command makes `command[i]` raise `IndexError`; the callback is called once, and
      only once the whole reference has been read. */
  function VariableSpec(command: string, i: nat, env: Env): (r: Run<(nat, string)>)
    requires i < |command|
    ensures r.result.Ok? ==> i + 3 <= r.result.value.0 <= |command|
    ensures i + 1 == |command| ==> r == Run(Err(IndexError), [])
    ensures i + 1 < |command| && command[i + 1] != '{' ==> r == Run(Err(ValueError("invalid character after $")), [])
    ensures |r.lookups| <= 1
  {
    if i + 1 == |command| then Run(Err(IndexError), [])
    else if command[i + 1] != '{' then Run(Err(ValueError("invalid character after $")), [])
    else
      match NameLoop(command, i + 2, "")
      case Err(e) => Run(Err(e), [])
      case Ok((j, name)) =>
        match env(name)
        case Ok(v) => Run(Ok((j + 1, v)), [name])
        case Err(e) => Run(Err(e), [name])
  }

  /** One piece of quoted text at `i`: an escape, a reference, or a character as
      itself. */
  function QuotePiece(command: string, i: nat, env: Env): (r: Run<(nat, string)>)
    requires i < |command|
    ensures r.result.Ok? ==> i < r.result.value.0 <= |command|
  {
    if command[i] == '\\' then
      match GetEscaped(command, i)
      case Err(e) => Run(Err(e), [])
      case Ok((j, c)) => Run(Ok((j, [c])), [])
    else if command[i] == '$' then VariableSpec(command, i, env)
    else Run(Ok((i + 1, [command[i]])), [])
  }

  /** The loop of `get_token_quoted` from index `i`, with the text and the lookups so
      far. It returns the index after the closing quote and the decoded text. */
  function QuoteLoop(command: string, i: nat, env: Env, token: string, lookups: seq<string>): (r: Run<(nat, string)>)
    requires i <= |command|
    ensures r.result.Ok? ==> i < r.result.value.0 <= |command|
    decreases |command| - i
  {
    if i == |command| then Run(Err(ValueError("missing closing \"")), lookups)
    else if command[i] == '"' then Run(Ok((i + 1, token)), lookups)
    else
      var p := QuotePiece(command, i, env);
      match p.result
      case Err(e) => Run(Err(e), lookups + p.lookups)
      case Ok((j, s)) => QuoteLoop(command, j, env, token + s, lookups + p.lookups)
  }

  /** `get_token_quoted(command, i, variables)` with the opening quote at `i`. */
  function QuotedSpec(command: string, i: nat, env: Env): (r: Run<(nat, string)>)
    requires i < |command|
    ensures r.result.Ok? ==> i + 2 <= r.result.value.0 <= |command| && command[r.result.value.0 - 1] == '"'
  {
    QuoteLoopEnds(command, i + 1, env, "", []);
    QuoteLoop(command, i + 1, env, "", [])
  }

  /** A successful quoted scan stops just after a double quote. */
  lemma {:induction false} QuoteLoopEnds(command: string, i: nat, env: Env, token: string, lookups: seq<string>)
    requires i <= |command|
    ensures var r := QuoteLoop(command, i, env, token, lookups);
            r.result.Ok? ==> command[r.result.value.0 - 1] == '"'
    decreases |command| - i
  {
    if i < |command| && command[i] != '"' {
      var p := QuotePiece(command, i, env);
      if p.result.Ok? {
        QuoteLoopEnds(command, p.result.value.0, env, token + p.result.value.1, lookups + p.lookups);
      }
    }
  }

  /** One piece of a token at `i`: a quoted group or a piece as in quoted text. */
  function TokenPiece(command: string, i: nat, env: Env): (r: Run<(nat, string)>)
    requires i < |command|
    ensures r.result.Ok? ==> i < r.result.value.0 <= |command|
  {
    if command[i] == '"' then QuotedSpec(command, i, env) else QuotePiece(command, i, env)
  }

  /** The loop of `get_token` from index `i`, with the token and the lookups so far.
      It returns the token and the index of the space (or the end) where it stopped. */
  function TokenLoop(command: string, i: nat, env: Env, token: string, lookups: seq<string>): (r: Run<(string, nat)>)
    requires i <= |command|
    ensures r.result.Ok? ==> i <= r.result.value.1 <= |command|
    ensures r.result.Ok? ==> r.result.value.1 == |command| || command[r.result.value.1] == ' '
    decreases |command| - i
  {
    if i == |command| || command[i] == ' ' then Run(Ok((token, i)), lookups)
    else
      var p := TokenPiece(command, i, env);
      match p.result
      case Err(e) => Run(Err(e), lookups + p.lookups)
      case Ok((j, s)) => TokenLoop(command, j, env, token + s, lookups + p.lookups)
  }

  /** `get_token(command, variables)`: the token and the rest of the command after the
      stopping space, with its leading spaces removed. That remainder is strictly
      shorter than a non-empty command and never starts with a space. */
  function TokenSpec(command: string, env: Env): (r: Run<(string, string)>)
    ensures r.result.Ok? ==> |r.result.value.1| <= |command|
    ensures r.result.Ok? && command != [] ==> |r.result.value.1| < |command|
    ensures r.result.Ok? ==> r.result.value.1 == [] || r.result.value.1[0] != ' '
  {
    var r := TokenLoop(command, 0, env, "", []);
    match r.result
    case Err(e) => Run(Err(e), r.lookups)
    case Ok((token, k)) =>
      var rest := LStrip(command[k..]);
      assert k == 0 && command != [] ==> command[k..] == command && LStrip(command) == LStrip(command[1..]);
      Run(Ok((token, rest)), r.lookups)
  }

  /** The loop of `parse` over what is left of the command, with the tokens yielded and
      the lookups so far. A yielded token is never taken back. */
  function ParseLoop(command: string, env: Env, tokens: seq<string>, lookups: seq<string>): (y: Yield)
    ensures |tokens| <= |y.tokens| && y.tokens[..|tokens|] == tokens
    ensures |lookups| <= |y.lookups| && y.lookups[..|lookups|] == lookups
    ensures |y.tokens| <= |tokens| + |command|
    decreases |command|
  {
    if command == [] then Yield(tokens, Pass, lookups)
    else
      var r := TokenSpec(command, env);
      match r.result
      case Err(e) => Yield(tokens, Fail(e), lookups + r.lookups)
      case Ok((t, rest)) =>
        var y := ParseLoop(rest, env, tokens + [t], lookups + r.lookups);
        PrefixExtend(y.tokens, tokens, [t]);
        PrefixExtend(y.lookups, lookups, r.lookups);
        y
  }

  /** A sequence that starts with `a + b` starts with `a`. */
  lemma PrefixExtend<T>(y: seq<T>, a: seq<T>, b: seq<T>)
    requires |a + b| <= |y| && y[..|a + b|] == a + b
    ensures |a| <= |y| && y[..|a|] == a
  {
    assert y[..|a|] == y[..|a + b|][..|a|];
    assert (a + b)[..|a|] == a;
  }

  /** `parse(command, variables)`: the command stripped of leading and trailing
      spaces, then cut into tokens one `get_token` at a time. */
  function ParseSpec(command: string, env: Env): (y: Yield)
    ensures |y.tokens| <= |command|
  {
    ParseLoop(RStrip(LStrip(command)), env, [], [])
  }

  // ---------------------------------------------------------------------------
  // The scanners as the source writes them: loops over a cursor

  /** `get_variable`. */
  method GetVariable(command: string, i: nat, env: Env) returns (r: Run<(nat, string)>)
    requires i < |command|
    ensures r == VariableSpec(command, i, env)
  {
    if i + 1 == |command| {
      return Run(Err(IndexError), []);
    }
    if command[i + 1] != '{' {
      return Run(Err(ValueError("invalid character after $")), []);
    }
    var j := i + 2;
    var name := "";
    while j < |command| && command[j] != '}'
      invariant i + 2 <= j <= |command|
      invariant NameLoop(command, j, name) == NameLoop(command, i + 2, "")
      decreases |command| - j
    {
      if command[j] == '\\' {
        j := j + 1;
        if j == |command| {
          return Run(Err(ValueError("missing character after \\")), []);
        }
      }
      name := name + [command[j]];
      j := j + 1;
    }
    if j == |command| {
      return Run(Err(ValueError("missing closing }")), []);
    }
    j := j + 1;
    match env(name)
    case Ok(v) =>
      return Run(Ok((j, v)), [name]);
    case Err(e) =>
      return Run(Err(e), [name]);
  }

  /** `get_token_quoted`. */
  method GetTokenQuoted(command: string, i: nat, env: Env) returns (r: Run<(nat, string)>)
    requires i < |command|
    ensures r == QuotedSpec(command, i, env)
  {
    var token := "";
    var lookups: seq<string> := [];
    var j := i + 1;
    while j < |command| && command[j] != '"'
      invariant i + 1 <= j <= |command|
      invariant QuoteLoop(command, j, env, token, lookups) == QuoteLoop(command, i + 1, env, "", [])
      decreases |command| - j
    {
      assert lookups + [] == lookups;
      if command[j] == '\\' {
        var e := GetEscaped(command, j);
        if e.Err? {
          return Run(Err(e.error), lookups);
        }
        j := e.value.0;
        token := token + [e.value.1];
      } else if command[j] == '$' {
        var v := GetVariable(command, j, env);
        lookups := lookups + v.lookups;
        if v.result.Err? {
          return Run(Err(v.result.error), lookups);
        }
        j := v.result.value.0;
        token := token + v.result.value.1;
      } else {
        token := token + [command[j]];
        j := j + 1;
      }
    }
    if j == |command| {
      return Run(Err(ValueError("missing closing \"")), lookups);
    }
    return Run(Ok((j + 1, token)), lookups);
  }

  /** `get_token`. */
  method GetToken(command: string, env: Env) returns (r: Run<(string, string)>)
    ensures r == TokenSpec(command, env)
  {
    var token := "";
    var lookups: seq<string> := [];
    var i := 0;
    while i < |command| && command[i] != ' '
      invariant i <= |command|
      invariant TokenLoop(command, i, env, token, lookups) == TokenLoop(command, 0, env, "", [])
      decreases |command| - i
    {
      assert lookups + [] == lookups;
      if command[i] == '"' {
        var q := GetTokenQuoted(command, i, env);
        lookups := lookups + q.lookups;
        if q.result.Err? {
          return Run(Err(q.result.error), lookups);
        }
        i := q.result.value.0;
        token := token + q.result.value.1;
      } else if command[i] == '$' {
        var v := GetVariable(command, i, env);
        lookups := lookups + v.lookups;
        if v.result.Err? {
          return Run(Err(v.result.error), lookups);
        }
        i := v.result.value.0;
        token := token + v.result.value.1;
      } else if command[i] == '\\' {
        var e := GetEscaped(command, i);
        if e.Err? {
          return Run(Err(e.error), lookups);
        }
        i := e.value.0;
        token := token + [e.value.1];
      } else {
        token := token + [command[i]];
        i := i + 1;
      }
    }
    return Run(Ok((token, LStrip(command[i..]))), lookups);
  }

  /** `list(parse(command, variables))`, keeping what was yielded before a raise. */
  method Parse(command: string, env: Env) returns (y: Yield)
    ensures y == ParseSpec(command, env)
  {
    var rest := RStrip(LStrip(command));
    var tokens: seq<string> := [];
    var lookups: seq<string> := [];
    while rest != []
      invariant ParseLoop(rest, env, tokens, lookups) == ParseSpec(command, env)
      decreases |rest|
    {
      var r := GetToken(rest, env);
      lookups := lookups + r.lookups;
      if r.result.Err? {
        return Yield(tokens, Fail(r.result.error), lookups);
      }
      tokens := tokens + [r.result.value.0];
      rest := r.result.value.1;
    }
    return Yield(tokens, Pass, lookups);
  }
}

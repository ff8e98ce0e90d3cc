/** What the string-level tokenizer of helpers/parser.py promises: its escapes agree
    with the word grammar's, it reads back what the serialisers write, a command
    without special characters splits into its space-separated fields, and the
    callback sees the references left to right. */
module LegacyProperties {
  import opened Results
  import opened Words
  import opened Texts
  import opened LegacyParser

  // ---------------------------------------------------------------------------
  // Escapes

  /** `get_escaped` accepts and decodes exactly what the word grammar's
      `parse_escaped` does; only the messages differ. */
  lemma EscapesAgree(command: string, i: nat)
    requires i < |command|
    ensures GetEscaped(command, i).Ok? <==> EscapedAt(command, i).Ok?
    ensures GetEscaped(command, i).Ok? ==> GetEscaped(command, i).value == EscapedAt(command, i).value
    ensures GetEscaped(command, i) == Err(ValueError("missing character after \\")) <==>
            EscapedAt(command, i) == Err(LexError("missing escaped character", command))
    ensures GetEscaped(command, i) == Err(ValueError("invalid character after \\")) <==>
            EscapedAt(command, i) == Err(LexError("invalid escaped character", command))
  {
  }

  // ---------------------------------------------------------------------------
  // Sequence algebra, kept apart from the scanners so that each fact is proved in a
  // small context

  lemma AppendHead<T>(a: seq<T>, b: seq<T>)
    requires b != []
    ensures a + [b[0]] + b[1..] == a + b
  {
    assert b == [b[0]] + b[1..];
  }

  /** `x` is written in `command` from index `j` on. */
  predicate At(command: string, j: nat, x: string)
    decreases x
  {
    if x == [] then j <= |command| else j < |command| && command[j] == x[0] && At(command, j + 1, x[1..])
  }

  lemma {:induction false} AtLength(command: string, j: nat, x: string)
    requires At(command, j, x)
    ensures j + |x| <= |command|
    decreases x
  {
    if x != [] {
      AtLength(command, j + 1, x[1..]);
    }
  }

  /** A written concatenation is its first part, then its second. */
  lemma {:induction false} AtConcat(command: string, j: nat, a: string, b: string)
    ensures At(command, j, a + b) <==> At(command, j, a) && At(command, j + |a|, b)
    decreases a
  {
    if a != [] {
      assert (a + b)[1..] == a[1..] + b;
      AtConcat(command, j + 1, a[1..], b);
    } else {
      assert a + b == b;
    }
  }

  /** The middle part of a concatenation is written where the first part ends. */
  lemma {:induction false} AtMiddle(p: string, a: string, b: string)
    ensures At(p + a + b, |p|, a)
    decreases a
  {
    if a != [] {
      assert p + a + b == (p + [a[0]]) + a[1..] + b;
      AtMiddle(p + [a[0]], a[1..], b);
    }
  }

  /** A command is written from its start. */
  lemma AtStart(a: string, b: string)
    ensures At(a + b, 0, a)
  {
    AtMiddle([], a, b);
    assert [] + a + b == a + b;
  }

  // ---------------------------------------------------------------------------
  // Single steps of the loops

  /** `get_token`'s loop takes an ordinary character as itself. */
  lemma TokenChar(command: string, j: nat, env: Env, token: string, lookups: seq<string>)
    requires j < |command| && command[j] != ' ' && Plain(command[j])
    ensures TokenLoop(command, j, env, token, lookups) == TokenLoop(command, j + 1, env, token + [command[j]], lookups)
  {
    assert lookups + [] == lookups;
  }

  /** `get_token`'s loop decodes an escape. */
  lemma TokenEscape(command: string, j: nat, env: Env, token: string, lookups: seq<string>)
    requires j + 1 < |command| && command[j] == '\\' && IsEscapeLetter(command[j + 1])
    ensures TokenLoop(command, j, env, token, lookups) == TokenLoop(command, j + 2, env, token + [Unescape(command[j + 1])], lookups)
  {
    assert lookups + [] == lookups;
  }

  /** `get_token`'s loop substitutes a reference whose lookup succeeded. */
  lemma TokenRefOk(command: string, j: nat, env: Env, token: string, lookups: seq<string>, k: nat, v: string, n: string)
    requires j < |command| && command[j] == '$' && VariableSpec(command, j, env) == Run(Ok((k, v)), [n])
    ensures k <= |command| && TokenLoop(command, j, env, token, lookups) == TokenLoop(command, k, env, token + v, lookups + [n])
  {
  }

  /** `get_token`'s loop stops with what a failed lookup raised. */
  lemma TokenRefErr(command: string, j: nat, env: Env, token: string, lookups: seq<string>, e: PyError, ls: seq<string>)
    requires j < |command| && command[j] == '$' && VariableSpec(command, j, env) == Run(Err(e), ls)
    ensures TokenLoop(command, j, env, token, lookups) == Run(Err(e), lookups + ls)
  {
  }

  /** `get_token`'s loop takes a quoted group that needed no lookup. */
  lemma TokenQuoted(command: string, j: nat, env: Env, token: string, lookups: seq<string>, e: nat, s: string)
    requires j < |command| && command[j] == '"' && QuotedSpec(command, j, env) == Run(Ok((e, s)), [])
    ensures e <= |command| && TokenLoop(command, j, env, token, lookups) == TokenLoop(command, e, env, token + s, lookups)
  {
    assert lookups + [] == lookups;
  }

  /** `get_token`'s loop ends at a space or at the end of the command. */
  lemma TokenEnd(command: string, j: nat, env: Env, token: string, lookups: seq<string>)
    requires j <= |command| && (j == |command| || command[j] == ' ')
    ensures TokenLoop(command, j, env, token, lookups) == Run(Ok((token, j)), lookups)
  {
  }

  /** The quoted loop takes an ordinary character as itself. */
  lemma QuoteChar(command: string, j: nat, env: Env, token: string, lookups: seq<string>)
    requires j < |command| && Plain(command[j])
    ensures QuoteLoop(command, j, env, token, lookups) == QuoteLoop(command, j + 1, env, token + [command[j]], lookups)
  {
    assert lookups + [] == lookups;
  }

  /** The quoted loop decodes an escape. */
  lemma QuoteEscape(command: string, j: nat, env: Env, token: string, lookups: seq<string>)
    requires j + 1 < |command| && command[j] == '\\' && IsEscapeLetter(command[j + 1])
    ensures QuoteLoop(command, j, env, token, lookups) == QuoteLoop(command, j + 2, env, token + [Unescape(command[j + 1])], lookups)
  {
    assert lookups + [] == lookups;
  }

  /** The quoted loop ends at the closing quote. */
  lemma QuoteEnd(command: string, j: nat, env: Env, token: string, lookups: seq<string>)
    requires j < |command| && command[j] == '"'
    ensures QuoteLoop(command, j, env, token, lookups) == Run(Ok((j + 1, token)), lookups)
  {
  }

  /** The name loop takes a backslash and the character after it. */
  lemma NameEscape(command: string, j: nat, name: string)
    requires j + 1 < |command| && command[j] == '\\'
    ensures NameLoop(command, j, name) == NameLoop(command, j + 2, name + [command[j + 1]])
  {
  }

  /** The name loop takes any other character but `}` as itself. */
  lemma NameOther(command: string, j: nat, name: string)
    requires j < |command| && command[j] != '\\' && command[j] != '}'
    ensures NameLoop(command, j, name) == NameLoop(command, j + 1, name + [command[j]])
  {
  }

  // ---------------------------------------------------------------------------
  // Variable references

  /** One character of a name as written inside `${...}`: `}` and `\` behind a
      backslash, anything else as itself. */
  function NameChar(c: char): string {
    if c == '}' || c == '\\' then ['\\', c] else [c]
  }

  /** A name as written inside `${...}`. */
  function NameText(n: string): string {
    if n == [] then [] else NameChar(n[0]) + NameText(n[1..])
  }

  /** `${NAME}` with the name written so that the scan reads it back. */
  function Ref(n: string): (t: string)
    ensures |t| >= 3 && t[0] == '$' && t == "${" + (NameText(n) + "}")
  {
    "${" + NameText(n) + "}"
  }

  /** The name loop reads a written name back, up to the closing brace. */
  lemma {:induction false} NameLoopReads(command: string, j: nat, name: string, n: string)
    requires At(command, j, NameText(n) + "}")
    ensures NameLoop(command, j, name) == Ok((j + |NameText(n)|, name + n))
    decreases n
  {
    if n == [] {
      assert NameText(n) == [];
      assert NameText(n) + "}" == "}";
      assert command[j] == '}' && name + n == name;
    } else {
      NameReadsStep(command, j, name, n, "}");
      NameLoopReads(command, j + |NameChar(n[0])|, name + [n[0]], n[1..]);
      AppendHead(name, n);
    }
  }

  /** One written character of a name, and where the rest of the name and what follows
      it start. */
  lemma NameReadsStep(command: string, j: nat, name: string, n: string, tail: string)
    requires n != [] && At(command, j, NameText(n) + tail)
    ensures var k := |NameChar(n[0])|;
            At(command, j + k, NameText(n[1..]) + tail) && |NameText(n)| == k + |NameText(n[1..])| &&
            NameLoop(command, j, name) == NameLoop(command, j + k, name + [n[0]])
  {
    var c := n[0];
    assert NameText(n) + tail == NameChar(c) + (NameText(n[1..]) + tail);
    AtConcat(command, j, NameChar(c), NameText(n[1..]) + tail);
    AtLength(command, j + |NameChar(c)|, NameText(n[1..]) + tail);
    if c == '}' || c == '\\' {
      assert command[j] == '\\' && command[j + 1] == c;
      NameEscape(command, j, name);
    } else {
      assert command[j] == c;
      NameOther(command, j, name);
    }
  }

  /** A written name that runs to the end of the command is missing its brace. */
  lemma {:induction false} NameLoopUnclosed(command: string, j: nat, name: string, n: string)
    requires At(command, j, NameText(n) + []) && j + |NameText(n)| == |command|
    ensures NameLoop(command, j, name) == Err(ValueError("missing closing }"))
    decreases n
  {
    if n == [] {
      assert NameText(n) == [];
    } else {
      NameReadsStep(command, j, name, n, []);
      NameLoopUnclosed(command, j + |NameChar(n[0])|, name + [n[0]], n[1..]);
    }
  }

  /** A written name followed by a backslash that ends the command. */
  lemma {:induction false} NameLoopDangling(command: string, j: nat, name: string, n: string)
    requires At(command, j, NameText(n) + "\\") && j + |NameText(n)| + 1 == |command|
    ensures NameLoop(command, j, name) == Err(ValueError("missing character after \\"))
    decreases n
  {
    if n == [] {
      assert NameText(n) == [];
      assert NameText(n) + "\\" == "\\";
      assert command[j] == '\\';
    } else {
      NameReadsStep(command, j, name, n, "\\");
      NameLoopDangling(command, j + |NameChar(n[0])|, name + [n[0]], n[1..]);
    }
  }

  /** `get_variable` reads a written reference back: it calls the callback once, with
      exactly the name, and returns its result and the index after the `}`. */
  lemma VariableReads(command: string, i: nat, env: Env, n: string)
    requires At(command, i, Ref(n))
    ensures i + |Ref(n)| <= |command|
    ensures env(n).Ok? ==> VariableSpec(command, i, env) == Run(Ok((i + |Ref(n)|, env(n).value)), [n])
    ensures env(n).Err? ==> VariableSpec(command, i, env) == Run(Err(env(n).error), [n])
  {
    AtLength(command, i, Ref(n));
    AtConcat(command, i, "${", NameText(n) + "}");
    assert command[i] == '$' && command[i + 1] == '{';
    NameLoopReads(command, i + 2, "", n);
    assert [] + n == n;
  }

  /** A reference that the command ends inside is missing its brace, and the callback
      is not called. */
  lemma VariableUnclosed(command: string, i: nat, env: Env, n: string)
    requires At(command, i, "${" + NameText(n)) && i + 2 + |NameText(n)| == |command|
    ensures VariableSpec(command, i, env) == Run(Err(ValueError("missing closing }")), [])
  {
    AtConcat(command, i, "${", NameText(n));
    assert command[i] == '$' && command[i + 1] == '{';
    assert NameText(n) + [] == NameText(n);
    NameLoopUnclosed(command, i + 2, "", n);
  }

  /** A reference whose name ends in a backslash that ends the command, and the
      callback is not called. */
  lemma VariableDangling(command: string, i: nat, env: Env, n: string)
    requires At(command, i, "${" + NameText(n) + "\\") && i + 3 + |NameText(n)| == |command|
    ensures VariableSpec(command, i, env) == Run(Err(ValueError("missing character after \\")), [])
  {
    assert "${" + NameText(n) + "\\" == "${" + (NameText(n) + "\\");
    AtConcat(command, i, "${", NameText(n) + "\\");
    assert command[i] == '$' && command[i + 1] == '{';
    NameLoopDangling(command, i + 2, "", n);
  }

  // ---------------------------------------------------------------------------
  // Round trips through the serialiser of `Raw`

  /** The first character of a text and its serialised form. */
  lemma EscapeCons(s: string)
    requires s != []
    ensures Escape(s) == EscapeChar(s[0]) + Escape(s[1..])
    ensures NeedsEscape(s[0]) ==> EscapeChar(s[0]) == ['\\', EscapeLetterOf(s[0])] &&
                                  IsEscapeLetter(EscapeLetterOf(s[0])) && Unescape(EscapeLetterOf(s[0])) == s[0]
    ensures !NeedsEscape(s[0]) ==> EscapeChar(s[0]) == [s[0]] && Plain(s[0])
  {
    EscapeTablesMirror(s[0]);
  }

  /** Inside quotes, the scan decodes what `Raw.__str__` writes, up to the closing
      quote, without calling the callback. */
  lemma {:induction false} QuoteLoopReads(command: string, j: nat, env: Env, token: string, lookups: seq<string>, s: string)
    requires At(command, j, Escape(s) + "\"")
    ensures QuoteLoop(command, j, env, token, lookups) == Run(Ok((j + |Escape(s)| + 1, token + s)), lookups)
    decreases s
  {
    if s == [] {
      assert Escape(s) == [];
      assert Escape(s) + "\"" == "\"";
      assert command[j] == '"' && token + s == token;
      QuoteEnd(command, j, env, token, lookups);
    } else {
      QuoteReadsStep(command, j, env, token, lookups, s, "\"");
      QuoteLoopReads(command, j + |EscapeChar(s[0])|, env, token + [s[0]], lookups, s[1..]);
      AppendHead(token, s);
    }
  }

  /** One serialised character inside quotes, and where the rest and what follows it
      start. */
  lemma QuoteReadsStep(command: string, j: nat, env: Env, token: string, lookups: seq<string>, s: string, tail: string)
    requires s != [] && At(command, j, Escape(s) + tail)
    ensures var k := |EscapeChar(s[0])|;
            At(command, j + k, Escape(s[1..]) + tail) && |Escape(s)| == k + |Escape(s[1..])| &&
            QuoteLoop(command, j, env, token, lookups) == QuoteLoop(command, j + k, env, token + [s[0]], lookups)
  {
    var c := s[0];
    EscapeCons(s);
    assert Escape(s) + tail == EscapeChar(c) + (Escape(s[1..]) + tail);
    AtConcat(command, j, EscapeChar(c), Escape(s[1..]) + tail);
    AtLength(command, j + |EscapeChar(c)|, Escape(s[1..]) + tail);
    if NeedsEscape(c) {
      assert command[j] == '\\' && command[j + 1] == EscapeLetterOf(c);
      QuoteEscape(command, j, env, token, lookups);
    } else {
      assert command[j] == c;
      QuoteChar(command, j, env, token, lookups);
    }
  }

  /** Quoted text that runs to the end of the command is missing its closing quote;
      the callback is not called. */
  lemma {:induction false} QuoteLoopUnclosed(command: string, j: nat, env: Env, token: string, lookups: seq<string>, s: string)
    requires At(command, j, Escape(s) + []) && j + |Escape(s)| == |command|
    ensures QuoteLoop(command, j, env, token, lookups) == Run(Err(ValueError("missing closing \"")), lookups)
    decreases s
  {
    if s == [] {
      assert Escape(s) == [];
    } else {
      QuoteReadsStep(command, j, env, token, lookups, s, []);
      QuoteLoopUnclosed(command, j + |EscapeChar(s[0])|, env, token + [s[0]], lookups, s[1..]);
    }
  }

  /** `get_token_quoted` returns the text `Raw.__str__` serialised between the quotes,
      spaces and `;` included. */
  lemma QuotedReads(command: string, i: nat, env: Env, s: string)
    requires At(command, i, "\"" + Escape(s) + "\"")
    ensures QuotedSpec(command, i, env) == Run(Ok((i + |Escape(s)| + 2, s)), [])
  {
    var e := Escape(s);
    assert "\"" + e + "\"" == "\"" + (e + "\"");
    AtConcat(command, i, "\"", e + "\"");
    QuoteLoopReads(command, i + 1, env, "", [], s);
    assert [] + s == s;
  }

  /** A text without spaces. */
  predicate NoSpace(s: string) {
    forall k :: 0 <= k < |s| ==> s[k] != ' '
  }

  /** Outside quotes, the scan decodes what `Raw.__str__` writes when that holds no
      space, up to the space or the end that follows. */
  lemma {:induction false} TokenLoopReads(command: string, j: nat, env: Env, token: string, lookups: seq<string>, s: string, e: nat)
    requires NoSpace(s) && At(command, j, Escape(s)) && e == j + |Escape(s)| && e <= |command|
    requires e == |command| || command[e] == ' '
    ensures TokenLoop(command, j, env, token, lookups) == Run(Ok((token + s, e)), lookups)
    decreases s
  {
    if s == [] {
      assert Escape(s) == [];
      assert e == j && token + s == token;
      TokenEnd(command, j, env, token, lookups);
    } else {
      TokenReadsStep(command, j, env, token, lookups, s);
      TokenLoopReads(command, j + |EscapeChar(s[0])|, env, token + [s[0]], lookups, s[1..], e);
      AppendHead(token, s);
    }
  }

  /** One serialised character of a token, and where the rest starts. */
  lemma TokenReadsStep(command: string, j: nat, env: Env, token: string, lookups: seq<string>, s: string)
    requires s != [] && NoSpace(s) && At(command, j, Escape(s))
    ensures var k := |EscapeChar(s[0])|;
            NoSpace(s[1..]) && At(command, j + k, Escape(s[1..])) && |Escape(s)| == k + |Escape(s[1..])| &&
            TokenLoop(command, j, env, token, lookups) == TokenLoop(command, j + k, env, token + [s[0]], lookups)
  {
    var c := s[0];
    EscapeCons(s);
    AtConcat(command, j, EscapeChar(c), Escape(s[1..]));
    if NeedsEscape(c) {
      assert command[j] == '\\' && command[j + 1] == EscapeLetterOf(c);
      TokenEscape(command, j, env, token, lookups);
    } else {
      assert command[j] == c;
      TokenChar(command, j, env, token, lookups);
    }
    assert forall m :: 0 <= m < |s| - 1 ==> s[1..][m] == s[m + 1];
  }

  /** `get_token` on a serialised text without spaces gives the text back, and the rest
      of the command without its leading spaces. */
  lemma TokenReads(s: string, rest: string, env: Env)
    requires NoSpace(s) && (rest == [] || rest[0] == ' ')
    ensures TokenSpec(Escape(s) + rest, env) == Run(Ok((s, LStrip(rest))), [])
  {
    var command := Escape(s) + rest;
    assert (Escape(s) + rest)[0..|Escape(s)|] == Escape(s) && (Escape(s) + rest)[|Escape(s)|..] == rest;
    AtStart(Escape(s), rest);
    assert [] + s == s;
    TokenLoopReads(command, 0, env, "", [], s, |Escape(s)|);
  }

  /** `get_token` on a quoted serialised text gives the text back whatever it holds:
      spaces inside quotes do not end the token. */
  lemma QuotedTokenReads(s: string, rest: string, env: Env)
    requires rest == [] || rest[0] == ' '
    ensures TokenSpec("\"" + Escape(s) + "\"" + rest, env) == Run(Ok((s, LStrip(rest))), [])
  {
    var q := "\"" + Escape(s) + "\"";
    var command := q + rest;
    assert (q + rest)[0..|q|] == q && (q + rest)[|q|..] == rest;
    AtStart(q, rest);
    QuotedReads(command, 0, env, s);
    TokenQuoted(command, 0, env, "", [], |q|, s);
    assert [] + s == s;
    TokenEnd(command, |q|, env, s, []);
  }

  /** `get_token`'s loop stops with what a quoted group raised. */
  lemma TokenQuotedErr(command: string, j: nat, env: Env, token: string, lookups: seq<string>, e: PyError, ls: seq<string>)
    requires j < |command| && command[j] == '"' && QuotedSpec(command, j, env) == Run(Err(e), ls)
    ensures TokenLoop(command, j, env, token, lookups) == Run(Err(e), lookups + ls)
  {
  }

  /** `get_token` on an opening quote and serialised text that never closes raises
      `missing closing "`, without calling the callback. */
  lemma TokenUnclosedQuote(s: string, env: Env)
    ensures TokenSpec("\"" + Escape(s), env) == Run(Err(ValueError("missing closing \"")), [])
  {
    var command := "\"" + Escape(s);
    AtMiddle("\"", Escape(s), []);
    assert command + [] == command;
    assert Escape(s) + [] == Escape(s);
    QuoteLoopUnclosed(command, 1, env, "", [], s);
    TokenQuotedErr(command, 0, env, "", [], ValueError("missing closing \""), []);
  }

  /** `get_token` on a reference that never closes raises `missing closing }`, without
      calling the callback. */
  lemma TokenUnclosedRef(n: string, env: Env)
    ensures TokenSpec("${" + NameText(n), env) == Run(Err(ValueError("missing closing }")), [])
  {
    var command := "${" + NameText(n);
    AtStart(command, []);
    assert command + [] == command;
    VariableUnclosed(command, 0, env, n);
    TokenRefErr(command, 0, env, "", [], ValueError("missing closing }"), []);
  }

  // ---------------------------------------------------------------------------
  // Plain commands split into their fields

  /** A character with no meaning to the scanner. */
  predicate Plain(c: char) {
    c != '"' && c != '$' && c != '\\'
  }

  predicate AllPlain(s: string) {
    forall k :: 0 <= k < |s| ==> Plain(s[k])
  }

  /** The leading run of non-space characters. */
  function Field(s: string): (f: string)
    ensures |f| <= |s| && f == s[..|f|] && ' ' !in f
    ensures |f| == |s| || s[|f|] == ' '
  {
    if s == [] || s[0] == ' ' then [] else [s[0]] + Field(s[1..])
  }

  /** The maximal runs of non-space characters, in order: the reference for what
      `parse` yields from a command without `"`, `$` or `\`. */
  function Fields(s: string): (fs: seq<string>)
    ensures forall k :: 0 <= k < |fs| ==> fs[k] != [] && ' ' !in fs[k]
    decreases |s|
  {
    if s == [] then []
    else if s[0] == ' ' then Fields(s[1..])
    else [Field(s)] + Fields(s[|Field(s)|..])
  }

  /** The leading field from `i` ends at the first space from `i`. */
  lemma {:induction false} FieldAt(command: string, i: nat)
    requires i <= |command|
    ensures Field(command[i..]) == command[i..IndexOf(command, i, ' ')]
    decreases |command| - i
  {
    if i < |command| && command[i] != ' ' {
      FieldAt(command, i + 1);
      assert command[i..][1..] == command[i + 1..];
      assert command[i..IndexOf(command, i, ' ')] == [command[i]] + command[i + 1..IndexOf(command, i, ' ')];
    }
  }

  /** `get_token`'s loop on plain characters runs to the next space. */
  lemma {:induction false} TokenLoopPlain(command: string, i: nat, env: Env, token: string, lookups: seq<string>)
    requires i <= |command| && forall k :: i <= k < |command| ==> Plain(command[k])
    ensures var k := IndexOf(command, i, ' ');
            TokenLoop(command, i, env, token, lookups) == TokenLoop(command, k, env, token + command[i..k], lookups)
    decreases |command| - i
  {
    if i < |command| && command[i] != ' ' {
      var k := IndexOf(command, i + 1, ' ');
      assert IndexOf(command, i, ' ') == k;
      TokenChar(command, i, env, token, lookups);
      TokenLoopPlain(command, i + 1, env, token + [command[i]], lookups);
      assert command[i..k] == [command[i]] + command[i + 1..k];
      assert token + [command[i]] + command[i + 1..k] == token + command[i..k];
    } else {
      assert token + command[i..i] == token;
    }
  }

  /** The field `get_token` reads from a plain command. */
  lemma FieldPrefix(command: string)
    ensures Field(command) == "" + command[0..IndexOf(command, 0, ' ')]
  {
    FieldAt(command, 0);
    assert command[0..] == command;
  }

  /** `get_token` on a plain command reads its leading field without lookups. */
  lemma TokenPlain(command: string, env: Env)
    requires AllPlain(command)
    ensures TokenSpec(command, env) == Run(Ok((Field(command), LStrip(command[|Field(command)|..]))), [])
  {
    var k := IndexOf(command, 0, ' ');
    IndexOfFirst(command, 0, ' ');
    TokenLoopPlain(command, 0, env, "", []);
    FieldPrefix(command);
    TokenEnd(command, k, env, "" + command[0..k], []);
  }

  /** Leading spaces do not change the fields. */
  lemma {:induction false} FieldsLStrip(s: string)
    ensures Fields(LStrip(s)) == Fields(s)
    decreases |s|
  {
    if s != [] && s[0] == ' ' {
      FieldsLStrip(s[1..]);
    }
  }

  /** Trailing spaces do not change the leading field. */
  lemma {:induction false} FieldSpaces(a: string, b: string)
    requires forall k :: 0 <= k < |b| ==> b[k] == ' '
    ensures Field(a + b) == Field(a)
    decreases |a|
  {
    if a == [] {
      assert a + b == b;
    } else if a[0] != ' ' {
      assert (a + b)[1..] == a[1..] + b;
      FieldSpaces(a[1..], b);
    }
  }

  /** Trailing spaces do not change the fields. */
  lemma {:induction false} FieldsSpaces(a: string, b: string)
    requires forall k :: 0 <= k < |b| ==> b[k] == ' '
    ensures Fields(a + b) == Fields(a)
    decreases |a| + |b|
  {
    if a == [] {
      assert a + b == b;
      if b != [] {
        FieldsSpaces([], b[1..]);
        assert [] + b[1..] == b[1..];
      }
    } else if a[0] == ' ' {
      assert (a + b)[1..] == a[1..] + b;
      FieldsSpaces(a[1..], b);
    } else {
      FieldSpaces(a, b);
      var f := Field(a);
      assert (a + b)[|f|..] == a[|f|..] + b;
      FieldsSpaces(a[|f|..], b);
    }
  }

  lemma FieldsRStrip(s: string)
    ensures Fields(RStrip(s)) == Fields(s)
  {
    var r := RStrip(s);
    assert s == r + s[|r|..];
    FieldsSpaces(r, s[|r|..]);
  }

  /** A suffix of a plain text is plain. */
  lemma AllPlainSuffix(s: string, m: nat)
    requires m <= |s| && AllPlain(s)
    ensures AllPlain(s[m..])
  {
    assert forall k :: 0 <= k < |s| - m ==> s[m..][k] == s[m + k];
  }

  /** One turn of `parse`'s loop on a token read without lookups. */
  lemma ParseStep(command: string, env: Env, tokens: seq<string>, lookups: seq<string>, t: string, rest: string)
    requires command != [] && TokenSpec(command, env) == Run(Ok((t, rest)), [])
    ensures ParseLoop(command, env, tokens, lookups) == ParseLoop(rest, env, tokens + [t], lookups)
  {
  }

  /** `parse`'s loop on a plain command that does not start with a space yields its
      fields and never calls the callback. */
  lemma {:induction false} ParseLoopPlain(command: string, env: Env, tokens: seq<string>, lookups: seq<string>)
    requires AllPlain(command) && (command == [] || command[0] != ' ')
    ensures ParseLoop(command, env, tokens, lookups) == Yield(tokens + Fields(command), Pass, lookups)
    decreases |command|
  {
    if command == [] {
      assert tokens + [] == tokens;
    } else {
      var f := Field(command);
      var after := command[|f|..];
      assert tokens + [f] + Fields(after) == tokens + Fields(command);
      var rest := LStrip(after);
      TokenPlain(command, env);
      ParseStep(command, env, tokens, lookups, f, rest);
      AllPlainSuffix(command, |f|);
      AllPlainSuffix(after, |after| - |rest|);
      ParseLoopPlain(rest, env, tokens + [f], lookups);
      FieldsLStrip(after);
    }
  }

  /** What is left of a command after `parse` strips it. */
  lemma StrippedPlain(command: string)
    requires AllPlain(command)
    ensures var c := RStrip(LStrip(command));
            AllPlain(c) && (c == [] || c[0] != ' ') && Fields(c) == Fields(command)
  {
    var l := LStrip(command);
    var c := RStrip(l);
    AllPlainSuffix(command, |command| - |l|);
    assert AllPlain(c) by {
      assert forall k :: 0 <= k < |c| ==> c[k] == l[k];
    }
    assert c == [] || c[0] == l[0];
    FieldsRStrip(l);
    FieldsLStrip(command);
  }

  /** `parse` on a command without `"`, `$` or `\` yields exactly its maximal runs of
      non-space characters, in order; `;` and tabs are ordinary characters. */
  lemma ParsePlain(command: string, env: Env)
    requires AllPlain(command)
    ensures ParseSpec(command, env) == Yield(Fields(command), Pass, [])
  {
    StrippedPlain(command);
    ParseLoopPlain(RStrip(LStrip(command)), env, [], []);
  }

  /** A non-empty text without spaces, then a space, is read as one field. */
  lemma {:induction false} FieldOf(t: string, rest: string)
    requires ' ' !in t && (rest == [] || rest[0] == ' ')
    ensures Field(t + rest) == t
    decreases |t|
  {
    if t == [] {
      assert t + rest == rest;
    } else {
      assert (t + rest)[1..] == t[1..] + rest;
      assert t[0] != ' ';
      FieldOf(t[1..], rest);
    }
  }

  /** The fields of space-joined field texts are those texts. */
  lemma {:induction false} FieldsJoin(ts: seq<string>)
    requires |ts| >= 1 && forall k :: 0 <= k < |ts| ==> ts[k] != [] && ' ' !in ts[k]
    ensures Fields(Join(ts, ' ')) == ts
    decreases |ts|
  {
    if |ts| == 1 {
      FieldOf(ts[0], []);
      assert ts[0] + [] == ts[0];
    } else {
      var j := Join(ts, ' ');
      var rest := Join(ts[1..], ' ');
      assert j == ts[0] + ([' '] + rest);
      FieldOf(ts[0], [' '] + rest);
      assert j[|ts[0]|..] == [' '] + rest;
      assert ([' '] + rest)[1..] == rest;
      FieldsJoin(ts[1..]);
      assert [ts[0]] + ts[1..] == ts;
    }
  }

  // ---------------------------------------------------------------------------
  // The callback is called once per reference, left to right

  /** References to each name, one after another. */
  function Refs(ns: seq<string>): string {
    if ns == [] then [] else Ref(ns[0]) + Refs(ns[1..])
  }

  /** Every name has a value. */
  predicate AllBound(env: Env, ns: seq<string>) {
    forall k :: 0 <= k < |ns| ==> env(ns[k]).Ok?
  }

  /** The values of the names, concatenated. */
  function Substituted(env: Env, ns: seq<string>): string
    requires AllBound(env, ns)
  {
    if ns == [] then [] else env(ns[0]).value + Substituted(env, ns[1..])
  }

  /** The index of the first name without a value, or the number of names. */
  function FirstUnbound(env: Env, ns: seq<string>): (k: nat)
    ensures k <= |ns| && AllBound(env, ns[..k]) && (k < |ns| ==> env(ns[k]).Err?)
    ensures k == |ns| <==> AllBound(env, ns)
  {
    if ns == [] then 0
    else if env(ns[0]).Err? then 0
    else
      var k := FirstUnbound(env, ns[1..]);
      assert forall m :: 0 <= m < k ==> ns[..k + 1][m + 1] == ns[1..][..k][m];
      1 + k
  }

  /** The substituted values of a list whose head has a value. */
  lemma BoundHeadValues(env: Env, ns: seq<string>, token: string)
    requires ns != [] && AllBound(env, ns)
    ensures AllBound(env, ns[1..])
    ensures token + env(ns[0]).value + Substituted(env, ns[1..]) == token + Substituted(env, ns)
  {
    assert forall m :: 0 <= m < |ns| - 1 ==> ns[1..][m] == ns[m + 1];
    assert token + env(ns[0]).value + Substituted(env, ns[1..]) == token + (env(ns[0]).value + Substituted(env, ns[1..]));
  }

  /** The names looked up up to and including the `k`-th of the tail. */
  lemma LookedUpPrefix(ns: seq<string>, lookups: seq<string>, k: nat)
    requires k + 1 < |ns|
    ensures ns[1..][k] == ns[k + 1]
    ensures lookups + [ns[0]] + ns[1..][..k + 1] == lookups + ns[..k + 2]
  {
    assert ns[..k + 2] == [ns[0]] + ns[1..][..k + 1];
    assert lookups + [ns[0]] + ns[1..][..k + 1] == lookups + ([ns[0]] + ns[1..][..k + 1]);
  }

  /** A run of references: the first one, then the rest of the run. */
  lemma RefsSplit(command: string, j: nat, ns: seq<string>)
    requires ns != [] && At(command, j, Refs(ns))
    ensures At(command, j, Ref(ns[0])) && At(command, j + |Ref(ns[0])|, Refs(ns[1..]))
    ensures |Refs(ns)| == |Ref(ns[0])| + |Refs(ns[1..])|
  {
    assert Refs(ns) == Ref(ns[0]) + Refs(ns[1..]);
    AtConcat(command, j, Ref(ns[0]), Refs(ns[1..]));
  }

  /** One written reference: the callback is asked for its name, and the scan goes on
      after it with the value, or stops with what the callback raised. */
  lemma RefVisit(command: string, j: nat, env: Env, token: string, lookups: seq<string>, n: string)
    requires At(command, j, Ref(n))
    ensures env(n).Ok? ==> j + |Ref(n)| <= |command| &&
                           TokenLoop(command, j, env, token, lookups) == TokenLoop(command, j + |Ref(n)|, env, token + env(n).value, lookups + [n])
    ensures env(n).Err? ==> TokenLoop(command, j, env, token, lookups) == Run(Err(env(n).error), lookups + [n])
  {
    VariableReads(command, j, env, n);
    assert command[j] == '$';
    if env(n).Ok? {
      TokenRefOk(command, j, env, token, lookups, j + |Ref(n)|, env(n).value, n);
    } else {
      TokenRefErr(command, j, env, token, lookups, env(n).error, [n]);
    }
  }

  /** `get_token`'s loop over a run of references whose names all have values: it looks
      every name up, in order, and substitutes the values. */
  lemma {:induction false} TokenRefsBound(command: string, j: nat, env: Env, token: string, lookups: seq<string>, ns: seq<string>, e: nat)
    requires AllBound(env, ns) && At(command, j, Refs(ns)) && e == j + |Refs(ns)| && e <= |command|
    requires e == |command| || command[e] == ' '
    ensures TokenLoop(command, j, env, token, lookups) == Run(Ok((token + Substituted(env, ns), e)), lookups + ns)
    decreases ns
  {
    if ns == [] {
      TokenRefsNone(command, j, env, token, lookups);
    } else {
      BoundRefStep(command, j, env, token, lookups, ns);
      TokenRefsBound(command, j + |Ref(ns[0])|, env, token + env(ns[0]).value, lookups + [ns[0]], ns[1..], e);
      BoundHeadValues(env, ns, token);
      AppendHead(lookups, ns);
    }
  }

  /** The first of a run of references whose names all have values: the loop
      substitutes its value, and the rest of the run follows it. */
  lemma BoundRefStep(command: string, j: nat, env: Env, token: string, lookups: seq<string>, ns: seq<string>)
    requires ns != [] && AllBound(env, ns) && At(command, j, Refs(ns))
    ensures At(command, j + |Ref(ns[0])|, Refs(ns[1..])) && |Refs(ns)| == |Ref(ns[0])| + |Refs(ns[1..])|
    ensures AllBound(env, ns[1..])
    ensures TokenLoop(command, j, env, token, lookups) ==
            TokenLoop(command, j + |Ref(ns[0])|, env, token + env(ns[0]).value, lookups + [ns[0]])
  {
    RefsSplit(command, j, ns);
    RefVisit(command, j, env, token, lookups, ns[0]);
    BoundHeadValues(env, ns, token);
  }

  /** `get_token`'s loop over an empty run of references stops at once, with nothing
      substituted and nothing looked up. */
  lemma TokenRefsNone(command: string, j: nat, env: Env, token: string, lookups: seq<string>)
    requires j <= |command| && (j == |command| || command[j] == ' ')
    ensures TokenLoop(command, j, env, token, lookups) == Run(Ok((token + Substituted(env, []), j + |Refs([])|)), lookups + [])
  {
    TokenEnd(command, j, env, token, lookups);
    assert token + [] == token && lookups + [] == lookups;
  }

  /** `get_token`'s loop over a run of references with a name that has no value: it
      looks the names up in order and stops at the first such name. */
  lemma {:induction false} TokenRefsUnbound(command: string, j: nat, env: Env, token: string, lookups: seq<string>, ns: seq<string>)
    requires FirstUnbound(env, ns) < |ns| && At(command, j, Refs(ns))
    ensures var k := FirstUnbound(env, ns);
            TokenLoop(command, j, env, token, lookups) == Run(Err(env(ns[k]).error), lookups + ns[..k + 1])
    decreases ns
  {
    RefsSplit(command, j, ns);
    RefVisit(command, j, env, token, lookups, ns[0]);
    if env(ns[0]).Err? {
      assert FirstUnbound(env, ns) == 0;
      assert ns[..1] == [ns[0]];
    } else {
      assert FirstUnbound(env, ns) == 1 + FirstUnbound(env, ns[1..]);
      var k := FirstUnbound(env, ns[1..]);
      LookedUpPrefix(ns, lookups, k);
      TokenRefsUnbound(command, j + |Ref(ns[0])|, env, token + env(ns[0]).value, lookups + [ns[0]], ns[1..]);
    }
  }

  /** `get_token` on `${n1}${n2}...`: the callback is called once per reference, left to
      right. When every name has a value the token is their concatenation and every
      name was looked up; otherwise the first failure is raised and no later name is
      looked up. */
  lemma CallbackOrder(ns: seq<string>, env: Env)
    ensures var r := TokenSpec(Refs(ns), env);
            var k := FirstUnbound(env, ns);
            (k == |ns| ==> r == Run(Ok((Substituted(env, ns), "")), ns)) &&
            (k < |ns| ==> r == Run(Err(env(ns[k]).error), ns[..k + 1]))
  {
    var command := Refs(ns);
    AtStart(command, []);
    assert command + [] == command;
    assert [] + ns == ns;
    var k := FirstUnbound(env, ns);
    if k == |ns| {
      assert "" + Substituted(env, ns) == Substituted(env, ns);
      TokenRefsBound(command, 0, env, "", [], ns, |command|);
      assert command[|command|..] == [];
    } else {
      TokenRefsUnbound(command, 0, env, "", [], ns);
      assert [] + ns[..k + 1] == ns[..k + 1];
    }
  }
}

/** The cases of helpers/parsing/word_test.py. Each shape of the table is proved for
    all values first, from the round trip and the error paths of the scanners; the
    rows themselves are instances. */
module WordTests {
  import opened Results
  import opened Characters
  import opened Words
  import opened WordProperties

  /** No character of `v` is written as a backslash pair. */
  predicate Plain(v: string) {
    forall j :: 0 <= j < |v| ==> !NeedsEscape(v[j])
  }

  /** A value that can stand as a bare Raw: plain, non-empty, no separator in it. */
  predicate Bare(v: string) {
    v != "" && Plain(v) && RawFits(v)
  }

  /** A plain value is written as itself. */
  lemma {:induction false} EscapePlain(v: string)
    requires Plain(v)
    ensures Escape(v) == v
  {
    if v != [] {
      assert Plain(v[1..]) by {
        forall j | 0 <= j < |v[1..]|
          ensures !NeedsEscape(v[1..][j])
        {
          assert v[1..][j] == v[j + 1];
        }
      }
      EscapePlain(v[1..]);
    }
  }

  lemma SegmentsTextOne(a: Segment)
    ensures SegmentsText([a]) == SegmentText(a)
  {
    assert [a][1..] == [];
  }

  lemma SegmentsTextTwo(a: Segment, b: Segment)
    ensures SegmentsText([a, b]) == SegmentText(a) + SegmentText(b)
  {
    assert [a, b][1..] == [b];
    SegmentsTextOne(b);
  }

  /** A whole-input parse of the text of a printable word returns that word and the
      length of the input. */
  lemma ParsesWhole(input: string, w: Word)
    requires WellFormed(w) && Printable(w) && WordText(w) == input
    ensures WordAt(input, 0) == Ok((|input|, w))
  {
    WordRoundTrip(w);
  }

  // ---------------------------------------------------------------------------
  // The shapes of the table, for all values

  /** `test`: a bare word is one Raw. */
  lemma BareRaw(a: string)
    requires Bare(a)
    ensures WordAt(a, 0) == Ok((|a|, Word([Raw(a)])))
  {
    EscapePlain(a);
    SegmentsTextOne(Raw(a));
    ParsesWhole(a, Word([Raw(a)]));
  }

  /** `"test"`: a quoted word is one Quoted group holding one Raw. */
  lemma QuotedRaw(b: string)
    requires b != "" && Plain(b)
    ensures WordAt("\"" + b + "\"", 0) == Ok((|b| + 2, Word([Quoted([Raw(b)])])))
  {
    EscapePlain(b);
    SegmentsTextOne(Raw(b));
    SegmentsTextOne(Quoted([Raw(b)]));
    ParsesWhole("\"" + b + "\"", Word([Quoted([Raw(b)])]));
  }

  /** `${test}`: a variable reference. */
  lemma BareVariable(n: string)
    requires NameFits(n)
    ensures WordAt("${" + n + "}", 0) == Ok((|n| + 3, Word([Variable(n)])))
  {
    SegmentsTextOne(Variable(n));
    ParsesWhole("${" + n + "}", Word([Variable(n)]));
  }

  /** `"${test}"`: a variable inside quotes. */
  lemma QuotedVariable(n: string)
    requires NameFits(n)
    ensures WordAt("\"${" + n + "}\"", 0) == Ok((|n| + 5, Word([Quoted([Variable(n)])])))
  {
    SegmentsTextOne(Variable(n));
    SegmentsTextOne(Quoted([Variable(n)]));
    assert "\"" + ("${" + n + "}") + "\"" == "\"${" + n + "}\"";
    ParsesWhole("\"${" + n + "}\"", Word([Quoted([Variable(n)])]));
  }

  /** `first"second"`: a Raw followed by a Quoted group. */
  lemma RawThenQuoted(a: string, b: string)
    requires Bare(a) && b != "" && Plain(b)
    ensures WordAt(a + "\"" + b + "\"", 0) == Ok((|a| + |b| + 2, Word([Raw(a), Quoted([Raw(b)])])))
  {
    EscapePlain(a);
    EscapePlain(b);
    SegmentsTextOne(Raw(b));
    SegmentsTextTwo(Raw(a), Quoted([Raw(b)]));
    assert a + ("\"" + b + "\"") == a + "\"" + b + "\"";
    ParsesWhole(a + "\"" + b + "\"", Word([Raw(a), Quoted([Raw(b)])]));
  }

  /** `"first"second`: a Quoted group followed by a Raw. */
  lemma QuotedThenRaw(a: string, b: string)
    requires a != "" && Plain(a) && Bare(b)
    ensures WordAt("\"" + a + "\"" + b, 0) == Ok((|a| + |b| + 2, Word([Quoted([Raw(a)]), Raw(b)])))
  {
    EscapePlain(a);
    EscapePlain(b);
    SegmentsTextOne(Raw(a));
    SegmentsTextTwo(Quoted([Raw(a)]), Raw(b));
    ParsesWhole("\"" + a + "\"" + b, Word([Quoted([Raw(a)]), Raw(b)]));
  }

  /** `first${second}`: a Raw followed by a variable. */
  lemma RawThenVariable(a: string, n: string)
    requires Bare(a) && NameFits(n)
    ensures WordAt(a + "${" + n + "}", 0) == Ok((|a| + |n| + 3, Word([Raw(a), Variable(n)])))
  {
    EscapePlain(a);
    SegmentsTextTwo(Raw(a), Variable(n));
    assert a + ("${" + n + "}") == a + "${" + n + "}";
    ParsesWhole(a + "${" + n + "}", Word([Raw(a), Variable(n)]));
  }

  /** `${first}second`: a variable followed by a Raw. */
  lemma VariableThenRaw(n: string, b: string)
    requires NameFits(n) && Bare(b)
    ensures WordAt("${" + n + "}" + b, 0) == Ok((|n| + |b| + 3, Word([Variable(n), Raw(b)])))
  {
    EscapePlain(b);
    SegmentsTextTwo(Variable(n), Raw(b));
    ParsesWhole("${" + n + "}" + b, Word([Variable(n), Raw(b)]));
  }

  /** A bare value at index `i` of a line, followed by the end of the line, a space or
      a `;`, is read as one Raw ending right after it. */
  lemma BareAt(line: string, i: nat, a: string)
    requires Bare(a) && i + |a| <= |line| && line[i..i + |a|] == a
    requires i + |a| == |line| || IsWhitespace(line[i + |a|]) || IsSpecial(line[i + |a|])
    ensures WordAt(line, i) == Ok((i + |a|, Word([Raw(a)])))
  {
    EscapePlain(a);
    SegmentsTextOne(Raw(a));
    var rest := line[i + |a|..];
    assert line[i..] == a + rest;
    WordParsesBack(line, i, Word([Raw(a)]), rest);
  }

  /** The escape rows: a backslash followed by any of the ten escape letters is one
      Raw holding the character the letter stands for, and the parse ends at index 2. */
  lemma EscapeRow(c: char)
    requires IsEscapeLetter(c)
    ensures WordAt(['\\', c], 0) == Ok((2, Word([Raw([Unescape(c)])])))
  {
    EscapeTablesMirror(c);
    var u := Unescape(c);
    assert [u][1..] == [];
    assert Escape([u]) == ['\\', c];
    SegmentsTextOne(Raw([u]));
    ParsesWhole(['\\', c], Word([Raw([u])]));
  }

  /** `first second`: whitespace after a bare word ends it. */
  lemma BareStops(a: string, rest: string)
    requires Bare(a) && rest != "" && IsWhitespace(rest[0])
    ensures WordAt(a + rest, 0) == Ok((|a|, Word([Raw(a)])))
  {
    EscapePlain(a);
    SegmentsTextOne(Raw(a));
    var line := a + rest;
    assert line[0..] == WordText(Word([Raw(a)])) + rest;
    WordParsesBack(line, 0, Word([Raw(a)]), rest);
  }

  /** `"first second" third`: whitespace inside quotes belongs to the word; the
      whitespace after the closing quote ends it. */
  lemma QuotedStops(b: string, rest: string)
    requires b != "" && Plain(b) && rest != "" && IsWhitespace(rest[0])
    ensures WordAt("\"" + b + "\"" + rest, 0) == Ok((|b| + 2, Word([Quoted([Raw(b)])])))
  {
    EscapePlain(b);
    SegmentsTextOne(Raw(b));
    SegmentsTextOne(Quoted([Raw(b)]));
    var line := "\"" + b + "\"" + rest;
    assert line[0..] == WordText(Word([Quoted([Raw(b)])])) + rest;
    WordParsesBack(line, 0, Word([Quoted([Raw(b)])]), rest);
  }

  // ---------------------------------------------------------------------------
  // The rows

  /** The successful rows and the rows that stop early, one lemma each. */
  lemma RowTest()
    ensures WordAt("test", 0) == Ok((4, Word([Raw("test")])))
  {
    assert Bare("test");
    BareRaw("test");
  }

  lemma RowQuotedTest()
    ensures WordAt("\"test\"", 0) == Ok((6, Word([Quoted([Raw("test")])])))
  {
    assert Plain("test");
    QuotedRaw("test");
    assert "\"" + "test" + "\"" == "\"test\"";
  }

  lemma RowVariableTest()
    ensures WordAt("${test}", 0) == Ok((7, Word([Variable("test")])))
  {
    BareVariable("test");
    assert "${" + "test" + "}" == "${test}";
  }

  lemma RowQuotedVariableTest()
    ensures WordAt("\"${test}\"", 0) == Ok((9, Word([Quoted([Variable("test")])])))
  {
    QuotedVariable("test");
    assert "\"${" + "test" + "}\"" == "\"${test}\"";
  }

  lemma RowFirstQuotedSecond()
    ensures WordAt("first\"second\"", 0) == Ok((13, Word([Raw("first"), Quoted([Raw("second")])])))
  {
    assert Bare("first") && Plain("second");
    RawThenQuoted("first", "second");
    assert "first" + "\"" + "second" + "\"" == "first\"second\"";
  }

  lemma RowQuotedFirstSecond()
    ensures WordAt("\"first\"second", 0) == Ok((13, Word([Quoted([Raw("first")]), Raw("second")])))
  {
    assert Plain("first") && Bare("second");
    QuotedThenRaw("first", "second");
    assert "\"" + "first" + "\"" + "second" == "\"first\"second";
  }

  lemma RowFirstVariableSecond()
    ensures WordAt("first${second}", 0) == Ok((14, Word([Raw("first"), Variable("second")])))
  {
    assert Bare("first");
    RawThenVariable("first", "second");
    assert "first" + "${" + "second" + "}" == "first${second}";
  }

  lemma RowVariableFirstSecond()
    ensures WordAt("${first}second", 0) == Ok((14, Word([Variable("first"), Raw("second")])))
  {
    assert Bare("second");
    VariableThenRaw("first", "second");
    assert "${" + "first" + "}" + "second" == "${first}second";
  }

  lemma RowFirstSpaceSecond()
    ensures WordAt("first second", 0) == Ok((5, Word([Raw("first")])))
  {
    assert Bare("first");
    BareStops("first", " second");
    assert "first" + " second" == "first second";
  }

  lemma RowQuotedSpaceThird()
    ensures WordAt("\"first second\" third", 0) == Ok((14, Word([Quoted([Raw("first second")])])))
  {
    assert Plain("first second");
    QuotedStops("first second", " third");
    assert "\"" + "first second" + "\"" + " third" == "\"first second\" third";
  }

  /** The failing rows: each input raises `LexerError` with the message of its row. */
  lemma ErrorRows()
    ensures WordAt("\"", 0) == Err(LexError("missing quote end", "\""))
    ensures WordAt("$", 0) == Err(LexError("missing variable start", "$"))
    ensures WordAt("${", 0) == Err(LexError("missing variable end", "${"))
    ensures WordAt("\\", 0) == Err(LexError("missing escaped character", "\\"))
    ensures WordAt("\\z", 0) == Err(LexError("invalid escaped character", "\\z"))
  {
    assert QuotedAt("\"", 0) == Err(LexError("missing quote end", "\""));
    assert IndexOf("${", 2, '}') == 2;
    assert VariableAt("${", 0) == Err(LexError("missing variable end", "${"));
    assert !IsEscapeLetter('z');
  }
}

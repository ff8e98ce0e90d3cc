/** The word grammar of the setup-script language (helpers/parsing/word.py):
    escapes, `${NAME}` references, `"..."` groups and bare words, their
    serialisers, and the round trip between the two. */
module Words {
  import opened Results
  import opened Characters

  /** A piece of a word. `Quoted` groups produced by the parser only ever hold
      `Raw` and `Variable` pieces; see `QuotedWellFormed`. */
  datatype Segment = Raw(value: string) | Variable(name: string) | Quoted(segments: seq<Segment>)

  /** One shell-like argument. */
  datatype Word = Word(segments: seq<Segment>)

  /** `LexerError(error, line)`: the message and the line being scanned. */
  datatype LexError = LexError(error: string, line: string)

  // ---------------------------------------------------------------------------
  // The two escape tables

  /** The letters `parse_escaped` accepts after a backslash. */
  predicate IsEscapeLetter(c: char) {
    c == 'n' || c == 't' || c == '$' || c == '\\' || c == '"' ||
    c == 'a' || c == 'b' || c == 'f' || c == 'r' || c == 'v'
  }

  /** The character an escape letter stands for. */
  function Unescape(c: char): char
    requires IsEscapeLetter(c)
  {
    match c
    case 'n' => '\n'
    case 't' => '\t'
    case 'a' => '\U{0007}'
    case 'b' => '\U{0008}'
    case 'f' => '\U{000C}'
    case 'r' => '\r'
    case 'v' => '\U{000B}'
    case _ => c
  }

  /** The characters `Raw.__str__` writes as a backslash pair. */
  predicate NeedsEscape(c: char) {
    c == '\n' || c == '\t' || c == '$' || c == '\\' || c == '"' ||
    c == '\U{0007}' || c == '\U{0008}' || c == '\U{000C}' || c == '\r' || c == '\U{000B}'
  }

  /** The letter `Raw.__str__` writes after the backslash. */
  function EscapeLetterOf(c: char): char
    requires NeedsEscape(c)
  {
    match c
    case '\n' => 'n'
    case '\t' => 't'
    case '\U{0007}' => 'a'
    case '\U{0008}' => 'b'
    case '\U{000C}' => 'f'
    case '\r' => 'r'
    case '\U{000B}' => 'v'
    case _ => c
  }

  /** The serialiser's table is exactly the inverse of the parser's table:
      they cover the same ten characters and undo each other. */
  lemma EscapeTablesMirror(c: char)
    ensures IsEscapeLetter(c) ==> NeedsEscape(Unescape(c)) && EscapeLetterOf(Unescape(c)) == c
    ensures NeedsEscape(c) ==> IsEscapeLetter(EscapeLetterOf(c)) && Unescape(EscapeLetterOf(c)) == c
  {
  }

  // ---------------------------------------------------------------------------
  // Serialisers (the `__str__` methods)

  /** One character of a Raw as `Raw.__str__` writes it. */
  function EscapeChar(c: char): string {
    if NeedsEscape(c) then ['\\', EscapeLetterOf(c)] else [c]
  }

  /** `Raw.__str__`. */
  function Escape(v: string): (r: string) {
    if v == [] then [] else EscapeChar(v[0]) + Escape(v[1..])
  }

  /** Every character is written as itself or as a backslash and a letter. */
  lemma {:induction false} EscapeLength(v: string)
    ensures |v| <= |Escape(v)| <= 2 * |v|
  {
    if v != [] {
      EscapeLength(v[1..]);
    }
  }

  /** `str(segment)` for every kind of segment. */
  function SegmentText(s: Segment): string
    decreases s
  {
    match s
    case Raw(v) => Escape(v)
    case Variable(n) => "${" + n + "}"
    case Quoted(ss) => "\"" + SegmentsText(ss) + "\""
  }

  /** The segments' texts, concatenated. */
  function SegmentsText(ss: seq<Segment>): string
    decreases ss
  {
    if ss == [] then "" else SegmentText(ss[0]) + SegmentsText(ss[1..])
  }

  /** `Word.__str__`. */
  function WordText(w: Word): string {
    SegmentsText(w.segments)
  }

  /** `Raw.__str__`: one table lookup per character. */
  method RawToString(value: string) returns (s: string)
    ensures s == Escape(value)
  {
    s := "";
    var k := 0;
    while k < |value|
      invariant 0 <= k <= |value|
      invariant s + Escape(value[k..]) == Escape(value)
    {
      assert value[k..] == [value[k]] + value[k + 1..];
      if NeedsEscape(value[k]) {
        s := s + ['\\', EscapeLetterOf(value[k])];
      } else {
        s := s + [value[k]];
      }
      k := k + 1;
    }
  }

  /** `str(segment)`, dispatching on the segment kind. */
  method SegmentToString(segment: Segment) returns (s: string)
    ensures s == SegmentText(segment)
    decreases segment, 1
  {
    match segment
    case Raw(v) =>
      s := RawToString(v);
    case Variable(n) =>
      s := "${" + n + "}";
    case Quoted(ss) =>
      s := QuotedToString(ss);
  }

  /** `Quoted.__str__`: the segments between a pair of double quotes. */
  method QuotedToString(segments: seq<Segment>) returns (s: string)
    ensures s == "\"" + SegmentsText(segments) + "\""
    decreases Quoted(segments), 0
  {
    var body := "";
    var k := 0;
    while k < |segments|
      invariant 0 <= k <= |segments|
      invariant body + SegmentsText(segments[k..]) == SegmentsText(segments)
    {
      assert segments[k..][1..] == segments[k + 1..];
      var t := SegmentToString(segments[k]);
      body := body + t;
      k := k + 1;
    }
    s := "\"" + body + "\"";
  }

  /** `Word.__str__`: the segments' texts joined together. */
  method WordToString(w: Word) returns (s: string)
    ensures s == WordText(w)
  {
    s := "";
    var k := 0;
    while k < |w.segments|
      invariant 0 <= k <= |w.segments|
      invariant s + SegmentsText(w.segments[k..]) == WordText(w)
    {
      assert w.segments[k..][1..] == w.segments[k + 1..];
      var t := SegmentToString(w.segments[k]);
      s := s + t;
      k := k + 1;
    }
  }

  // ---------------------------------------------------------------------------
  // Shape invariants of parsed words

  /** No Raw segment is empty and no two Raw segments are adjacent. */
  predicate Coalesced(ss: seq<Segment>) {
    (forall k :: 0 <= k < |ss| && ss[k].Raw? ==> ss[k].value != "") &&
    (forall k :: 0 <= k < |ss| - 1 && ss[k].Raw? ==> !ss[k + 1].Raw?)
  }

  /** No segment is a Quoted group. */
  predicate Flat(ss: seq<Segment>) {
    forall k :: 0 <= k < |ss| ==> !ss[k].Quoted?
  }

  /** The shape `Quoted.parse` produces. */
  predicate QuotedWellFormed(ss: seq<Segment>) {
    Coalesced(ss) && Flat(ss)
  }

  /** The shape `Word.parse` produces: coalesced, and every Quoted group well formed. */
  predicate WellFormed(w: Word) {
    Coalesced(w.segments) &&
    forall k :: 0 <= k < |w.segments| && w.segments[k].Quoted? ==> QuotedWellFormed(w.segments[k].segments)
  }

  /** Scanner state between two steps: the segments flushed so far are coalesced and
      do not end in a Raw (a Raw is only flushed before a Quoted/Variable or at the end). */
  predicate Pending(ss: seq<Segment>) {
    Coalesced(ss) && (|ss| > 0 ==> !ss[|ss| - 1].Raw?)
  }

  /** `if current_token: tokens.append(Raw(current_token))`. */
  function Flush(ss: seq<Segment>, cur: string): seq<Segment> {
    if cur == "" then ss else ss + [Raw(cur)]
  }

  lemma FlushCoalesced(ss: seq<Segment>, cur: string)
    requires Pending(ss)
    ensures Coalesced(Flush(ss, cur))
  {
  }

  lemma FlushThenPending(ss: seq<Segment>, cur: string, s: Segment)
    requires Pending(ss) && !s.Raw?
    ensures Pending(Flush(ss, cur) + [s])
  {
    var f := Flush(ss, cur);
    FlushCoalesced(ss, cur);
    assert forall k :: 0 <= k < |f| ==> (f + [s])[k] == f[k];
  }

  lemma FlushFlat(ss: seq<Segment>, cur: string, s: Segment)
    requires Flat(ss) && !s.Quoted?
    ensures Flat(Flush(ss, cur)) && Flat(Flush(ss, cur) + [s])
  {
  }

  // ---------------------------------------------------------------------------
  // The scanners, as functions of the line and the cursor

  /** `parse_escaped(line, i)` with the backslash at `i`. */
  function EscapedAt(line: string, i: nat): (r: Result<(nat, char), LexError>)
    requires i < |line|
    ensures r.Ok? <==> i + 1 < |line| && IsEscapeLetter(line[i + 1])
    ensures r.Ok? ==> r.value == (i + 2, Unescape(line[i + 1]))
    ensures r.Err? ==> r.error == LexError(if i + 1 == |line| then "missing escaped character"
                                           else "invalid escaped character", line)
  {
    if i + 1 == |line| then Err(LexError("missing escaped character", line))
    else if IsEscapeLetter(line[i + 1]) then Ok((i + 2, Unescape(line[i + 1])))
    else Err(LexError("invalid escaped character", line))
  }

  /** The first index at or after `i` that holds `c`, or `|line|` if there is none. */
  function IndexOf(line: string, i: nat, c: char): (k: nat)
    requires i <= |line|
    ensures i <= k <= |line|
    decreases |line| - i
  {
    if i == |line| || line[i] == c then i else IndexOf(line, i + 1, c)
  }

  /** `IndexOf` finds the first occurrence: nothing before it is `c`, and it is `c`
      unless the search ran off the end. */
  lemma {:induction false} IndexOfFirst(line: string, i: nat, c: char)
    requires i <= |line|
    ensures forall j :: i <= j < IndexOf(line, i, c) ==> line[j] != c
    ensures IndexOf(line, i, c) < |line| ==> line[IndexOf(line, i, c)] == c
    decreases |line| - i
  {
    if i < |line| && line[i] != c {
      IndexOfFirst(line, i + 1, c);
    }
  }

  /** `Variable.parse(line, i)` with the `$` at `i`. The name is every character
      between `${` and the first `}`, spaces included. */
  function VariableAt(line: string, i: nat): (r: Result<(nat, Segment), LexError>)
    requires i < |line|
    ensures r.Ok? ==> i + 3 <= r.value.0 <= |line| && r.value.1.Variable?
    ensures r.Err? ==> r.error.line == line
  {
    if i + 1 == |line| || line[i + 1] != '{' then Err(LexError("missing variable start", line))
    else
      var k := IndexOf(line, i + 2, '}');
      if k == |line| then Err(LexError("missing variable end", line))
      else Ok((k + 1, Variable(line[i + 2..k])))
  }

  /** What `Variable.parse` accepts and rejects: a missing `{` and a missing `}` are the
      two errors; otherwise the name runs up to the first `}`, which is consumed. */
  lemma VariableAtCases(line: string, i: nat)
    requires i < |line|
    ensures var r := VariableAt(line, i);
            (r.Err? && r.error.error == "missing variable start" <==> i + 1 == |line| || line[i + 1] != '{') &&
            (r.Err? && r.error.error == "missing variable end" <==>
               i + 1 < |line| && line[i + 1] == '{' && '}' !in line[i + 2..]) &&
            (r.Ok? ==> var (j, v) := r.value;
               line[i + 1] == '{' && line[j - 1] == '}' && v == Variable(line[i + 2..j - 1]) && '}' !in v.name)
  {
    if i + 1 < |line| && line[i + 1] == '{' {
      var k := IndexOf(line, i + 2, '}');
      IndexOfFirst(line, i + 2, '}');
      if k == |line| {
        var rest := line[i + 2..];
        forall j | 0 <= j < |rest| ensures rest[j] != '}' {
          assert rest[j] == line[i + 2 + j];
        }
      } else {
        assert line[i + 2..][k - (i + 2)] == '}';
        var name := line[i + 2..k];
        forall j | 0 <= j < |name| ensures name[j] != '}' {
          assert name[j] == line[i + 2 + j];
        }
      }
    }
  }

  /** The loop of `Quoted.parse` from cursor `i`, with the segments flushed so far and
      the pending raw text; it returns the index after the closing quote. */
  function QuotedLoop(line: string, i: nat, segs: seq<Segment>, cur: string): (r: Result<(nat, Segment), LexError>)
    requires i <= |line|
    ensures r.Ok? ==> i < r.value.0 <= |line| && r.value.1.Quoted?
    ensures r.Err? ==> r.error.line == line
    decreases |line| - i, 1
  {
    if i == |line| then Err(LexError("missing quote end", line))
    else if line[i] == '"' then Ok((i + 1, Quoted(Flush(segs, cur))))
    else QuotedStep(line, i, segs, cur)
  }

  /** One iteration of the loop of `Quoted.parse` at a character that is not the closing
      quote (a variable, an escape, or a character taken as it is), then the rest of the loop. */
  function QuotedStep(line: string, i: nat, segs: seq<Segment>, cur: string): (r: Result<(nat, Segment), LexError>)
    requires i < |line| && line[i] != '"'
    ensures r.Ok? ==> i < r.value.0 <= |line| && r.value.1.Quoted?
    ensures r.Err? ==> r.error.line == line
    decreases |line| - i, 0
  {
    if line[i] == '$' then
      match VariableAt(line, i)
      case Err(e) => Err(e)
      case Ok((j, v)) => QuotedLoop(line, j, Flush(segs, cur) + [v], "")
    else if line[i] == '\\' then
      match EscapedAt(line, i)
      case Err(e) => Err(e)
      case Ok((j, c)) => QuotedLoop(line, j, segs, cur + [c])
    else
      QuotedLoop(line, i + 1, segs, cur + [line[i]])
  }

  /** From a well-formed scanner state, `Quoted.parse` produces a well-formed group. */
  lemma {:induction false} QuotedLoopShape(line: string, i: nat, segs: seq<Segment>, cur: string)
    requires i <= |line| && Pending(segs) && Flat(segs)
    ensures var r := QuotedLoop(line, i, segs, cur);
            r.Ok? ==> QuotedWellFormed(r.value.1.segments)
    decreases |line| - i, 1
  {
    if i < |line| && line[i] != '"' {
      QuotedStepShape(line, i, segs, cur);
    } else if i < |line| {
      FlushCoalesced(segs, cur);
      FlushFlat(segs, cur, Raw(""));
    }
  }

  lemma {:induction false} QuotedStepShape(line: string, i: nat, segs: seq<Segment>, cur: string)
    requires i < |line| && line[i] != '"' && Pending(segs) && Flat(segs)
    ensures var r := QuotedStep(line, i, segs, cur);
            r.Ok? ==> QuotedWellFormed(r.value.1.segments)
    decreases |line| - i, 0
  {
    if line[i] == '$' {
      match VariableAt(line, i)
      case Err(_) =>
      case Ok((j, v)) =>
        FlushThenPending(segs, cur, v);
        FlushFlat(segs, cur, v);
        QuotedLoopShape(line, j, Flush(segs, cur) + [v], "");
    } else if line[i] == '\\' {
      match EscapedAt(line, i)
      case Err(_) =>
      case Ok((j, c)) => QuotedLoopShape(line, j, segs, cur + [c]);
    } else {
      QuotedLoopShape(line, i + 1, segs, cur + [line[i]]);
    }
  }

  /** `Quoted.parse(line, i)` with the opening quote at `i`. */
  function QuotedAt(line: string, i: nat): (r: Result<(nat, Segment), LexError>)
    requires i < |line|
    ensures r.Ok? ==> i + 2 <= r.value.0 <= |line| && r.value.1.Quoted?
    ensures r.Err? ==> r.error.line == line
  {
    QuotedLoop(line, i + 1, [], "")
  }

  /** The loop of `Quoted.parse` succeeds only by consuming a closing `"`. */
  lemma {:induction false} QuotedLoopCloses(line: string, i: nat, segs: seq<Segment>, cur: string)
    requires i <= |line|
    ensures var r := QuotedLoop(line, i, segs, cur);
            r.Ok? ==> line[r.value.0 - 1] == '"'
    decreases |line| - i
  {
    if i < |line| && line[i] != '"' {
      if line[i] == '$' {
        match VariableAt(line, i)
        case Err(_) =>
        case Ok((j, v)) => QuotedLoopCloses(line, j, Flush(segs, cur) + [v], "");
      } else if line[i] == '\\' {
        match EscapedAt(line, i)
        case Err(_) =>
        case Ok((j, c)) => QuotedLoopCloses(line, j, segs, cur + [c]);
      } else {
        QuotedLoopCloses(line, i + 1, segs, cur + [line[i]]);
      }
    }
  }

  /** The loop of `Quoted.parse` fails when no `"` lies ahead of the cursor, and with
      "missing quote end" when nothing ahead is a `$` or a backslash either. */
  lemma {:induction false} QuotedLoopUnclosed(line: string, i: nat, segs: seq<Segment>, cur: string)
    requires i <= |line|
    requires forall k :: i <= k < |line| ==> line[k] != '"'
    ensures QuotedLoop(line, i, segs, cur).Err?
    ensures (forall k :: i <= k < |line| ==> line[k] != '$' && line[k] != '\\') ==>
              QuotedLoop(line, i, segs, cur) == Err(LexError("missing quote end", line))
    decreases |line| - i
  {
    if i < |line| {
      if line[i] == '$' {
        match VariableAt(line, i)
        case Err(_) =>
        case Ok((j, v)) => QuotedLoopUnclosed(line, j, Flush(segs, cur) + [v], "");
      } else if line[i] == '\\' {
        match EscapedAt(line, i)
        case Err(_) =>
        case Ok((j, c)) => QuotedLoopUnclosed(line, j, segs, cur + [c]);
      } else {
        QuotedLoopUnclosed(line, i + 1, segs, cur + [line[i]]);
      }
    }
  }

  /** `Quoted.parse` fails when no closing `"` follows the opener, and with "missing
      quote end" when no variable or escape comes first to fail on its own. */
  lemma QuotedAtUnclosed(line: string, i: nat)
    requires i < |line| && '"' !in line[i + 1..]
    ensures QuotedAt(line, i).Err?
    ensures '$' !in line[i + 1..] && '\\' !in line[i + 1..] ==>
              QuotedAt(line, i) == Err(LexError("missing quote end", line))
  {
    forall k | i + 1 <= k < |line| ensures line[k] == line[i + 1..][k - (i + 1)] { }
    QuotedLoopUnclosed(line, i + 1, [], "");
  }

  /** A successful `Quoted.parse` ends just after the closing `"`. */
  lemma QuotedAtCloses(line: string, i: nat)
    requires i < |line|
    ensures QuotedAt(line, i).Ok? ==> line[QuotedAt(line, i).value.0 - 1] == '"'
  {
    QuotedLoopCloses(line, i + 1, [], "");
  }

  /** `Quoted.parse` produces a well-formed group. */
  lemma QuotedAtShape(line: string, i: nat)
    requires i < |line|
    ensures QuotedAt(line, i).Ok? ==> QuotedWellFormed(QuotedAt(line, i).value.1.segments)
  {
    QuotedLoopShape(line, i + 1, [], "");
  }

  /** The loop of `Word.parse` from cursor `i`. */
  function WordLoop(line: string, i: nat, segs: seq<Segment>, cur: string): (r: Result<(nat, Word), LexError>)
    requires i <= |line|
    ensures r.Ok? ==> i <= r.value.0 <= |line|
    ensures r.Err? ==> r.error.line == line
    decreases |line| - i, 1
  {
    if i == |line| || IsWhitespace(line[i]) || IsSpecial(line[i]) then Ok((i, Word(Flush(segs, cur))))
    else WordStep(line, i, segs, cur)
  }

  /** One iteration of the loop of `Word.parse` at a character that does not end the word
      (a quoted group, a variable, an escape, or a character taken as it is), then the
      rest of the loop. */
  function WordStep(line: string, i: nat, segs: seq<Segment>, cur: string): (r: Result<(nat, Word), LexError>)
    requires i < |line|
    ensures r.Ok? ==> i <= r.value.0 <= |line|
    ensures r.Err? ==> r.error.line == line
    decreases |line| - i, 0
  {
    if line[i] == '"' then
      match QuotedAt(line, i)
      case Err(e) => Err(e)
      case Ok((j, q)) => WordLoop(line, j, Flush(segs, cur) + [q], "")
    else if line[i] == '$' then
      match VariableAt(line, i)
      case Err(e) => Err(e)
      case Ok((j, v)) => WordLoop(line, j, Flush(segs, cur) + [v], "")
    else if line[i] == '\\' then
      match EscapedAt(line, i)
      case Err(e) => Err(e)
      case Ok((j, c)) => WordLoop(line, j, segs, cur + [c])
    else
      WordLoop(line, i + 1, segs, cur + [line[i]])
  }

  /** Every Quoted group among the segments is well formed. */
  predicate GroupsWellFormed(ss: seq<Segment>) {
    forall k :: 0 <= k < |ss| && ss[k].Quoted? ==> QuotedWellFormed(ss[k].segments)
  }

  lemma FlushGroups(ss: seq<Segment>, cur: string, s: Segment)
    requires GroupsWellFormed(ss) && (s.Quoted? ==> QuotedWellFormed(s.segments))
    ensures GroupsWellFormed(Flush(ss, cur)) && GroupsWellFormed(Flush(ss, cur) + [s])
  {
  }

  /** From a well-formed scanner state, `Word.parse` produces a well-formed word. */
  lemma {:induction false} WordLoopShape(line: string, i: nat, segs: seq<Segment>, cur: string)
    requires i <= |line| && Pending(segs) && GroupsWellFormed(segs)
    ensures var r := WordLoop(line, i, segs, cur);
            r.Ok? ==> WellFormed(r.value.1)
    decreases |line| - i, 1
  {
    if i < |line| && !IsWhitespace(line[i]) && !IsSpecial(line[i]) {
      WordStepShape(line, i, segs, cur);
    } else {
      FlushCoalesced(segs, cur);
      FlushGroups(segs, cur, Raw(""));
    }
  }

  lemma {:induction false} WordStepShape(line: string, i: nat, segs: seq<Segment>, cur: string)
    requires i < |line| && Pending(segs) && GroupsWellFormed(segs)
    ensures var r := WordStep(line, i, segs, cur);
            r.Ok? ==> WellFormed(r.value.1)
    decreases |line| - i, 0
  {
    if line[i] == '"' {
      match QuotedAt(line, i)
      case Err(_) =>
      case Ok((j, q)) =>
        QuotedAtShape(line, i);
        FlushThenPending(segs, cur, q);
        FlushGroups(segs, cur, q);
        WordLoopShape(line, j, Flush(segs, cur) + [q], "");
    } else if line[i] == '$' {
      match VariableAt(line, i)
      case Err(_) =>
      case Ok((j, v)) =>
        FlushThenPending(segs, cur, v);
        FlushGroups(segs, cur, v);
        WordLoopShape(line, j, Flush(segs, cur) + [v], "");
    } else if line[i] == '\\' {
      match EscapedAt(line, i)
      case Err(_) =>
      case Ok((j, c)) => WordLoopShape(line, j, segs, cur + [c]);
    } else {
      WordLoopShape(line, i + 1, segs, cur + [line[i]]);
    }
  }

  /** `Word.parse(line, i)`: a bare word ends at a space, a `;` or the end of the line. */
  function WordAt(line: string, i: nat): (r: Result<(nat, Word), LexError>)
    requires i <= |line|
    ensures r.Ok? ==> i <= r.value.0 <= |line|
    ensures r.Err? ==> r.error.line == line
  {
    WordLoop(line, i, [], "")
  }

  /** The loop of `Word.parse` stops only at the end of the line, a space or a `;`. */
  lemma {:induction false} WordLoopEnds(line: string, i: nat, segs: seq<Segment>, cur: string)
    requires i <= |line|
    ensures var r := WordLoop(line, i, segs, cur);
            r.Ok? ==> var j := r.value.0; j == |line| || IsWhitespace(line[j]) || IsSpecial(line[j])
    decreases |line| - i, 1
  {
    if i < |line| && !IsWhitespace(line[i]) && !IsSpecial(line[i]) {
      WordStepEnds(line, i, segs, cur);
    }
  }

  lemma {:induction false} WordStepEnds(line: string, i: nat, segs: seq<Segment>, cur: string)
    requires i < |line|
    ensures var r := WordStep(line, i, segs, cur);
            r.Ok? ==> var j := r.value.0; j == |line| || IsWhitespace(line[j]) || IsSpecial(line[j])
    decreases |line| - i, 0
  {
    if line[i] == '"' {
      match QuotedAt(line, i)
      case Err(_) =>
      case Ok((j, q)) => WordLoopEnds(line, j, Flush(segs, cur) + [q], "");
    } else if line[i] == '$' {
      match VariableAt(line, i)
      case Err(_) =>
      case Ok((j, v)) => WordLoopEnds(line, j, Flush(segs, cur) + [v], "");
    } else if line[i] == '\\' {
      match EscapedAt(line, i)
      case Err(_) =>
      case Ok((j, c)) => WordLoopEnds(line, j, segs, cur + [c]);
    } else {
      WordLoopEnds(line, i + 1, segs, cur + [line[i]]);
    }
  }

  /** Bounds of `Word.parse`: on success the returned index `j` is within the line, and
      either the line ends at `j` or `line[j]` is a space or a `;`. */
  lemma WordAtEnds(line: string, i: nat)
    requires i <= |line|
    ensures var r := WordAt(line, i);
            r.Ok? ==> var j := r.value.0;
              i <= j <= |line| && (j == |line| || IsWhitespace(line[j]) || IsSpecial(line[j]))
  {
    WordLoopEnds(line, i, [], "");
  }

  /** `Word.parse` produces a well-formed word. */
  lemma WordAtShape(line: string, i: nat)
    requires i <= |line|
    ensures WordAt(line, i).Ok? ==> WellFormed(WordAt(line, i).value.1)
  {
    WordLoopShape(line, i, [], "");
  }

  // ---------------------------------------------------------------------------
  // The scanners as the source writes them: loops over a cursor

  /** `Variable.parse`: accumulate the name up to the first `}`. */
  method ParseVariable(line: string, i0: nat) returns (r: Result<(nat, Segment), LexError>)
    requires i0 < |line|
    ensures r == VariableAt(line, i0)
  {
    var i := i0 + 1;
    if i == |line| || line[i] != '{' {
      return Err(LexError("missing variable start", line));
    }
    i := i + 1;
    var name := "";
    while i < |line| && line[i] != '}'
      invariant i0 + 2 <= i <= |line|
      invariant name == line[i0 + 2..i]
      invariant IndexOf(line, i, '}') == IndexOf(line, i0 + 2, '}')
    {
      name := name + [line[i]];
      i := i + 1;
    }
    if i == |line| {
      return Err(LexError("missing variable end", line));
    }
    i := i + 1;
    return Ok((i, Variable(name)));
  }

  /** `Quoted.parse`: segments up to the closing quote. */
  method ParseQuoted(line: string, i0: nat) returns (r: Result<(nat, Segment), LexError>)
    requires i0 < |line|
    ensures r == QuotedAt(line, i0)
  {
    var tokens: seq<Segment> := [];
    var current := "";
    var i := i0 + 1;
    while i < |line| && line[i] != '"'
      invariant i <= |line|
      invariant QuotedLoop(line, i, tokens, current) == QuotedAt(line, i0)
      decreases |line| - i
    {
      if line[i] == '$' {
        if current != "" {
          tokens := tokens + [Raw(current)];
          current := "";
        }
        var v := ParseVariable(line, i);
        if v.Err? {
          return Err(v.error);
        }
        i, tokens := v.value.0, tokens + [v.value.1];
      } else if line[i] == '\\' {
        var e := EscapedAt(line, i);
        if e.Err? {
          return Err(e.error);
        }
        i, current := e.value.0, current + [e.value.1];
      } else {
        current := current + [line[i]];
        i := i + 1;
      }
    }
    if i == |line| {
      return Err(LexError("missing quote end", line));
    }
    assert QuotedLoop(line, i, tokens, current) == Ok((i + 1, Quoted(Flush(tokens, current))));
    i := i + 1;
    if current != "" {
      tokens := tokens + [Raw(current)];
    }
    return Ok((i, Quoted(tokens)));
  }

  /** `Word.parse`: segments up to a space, a `;` or the end of the line. */
  method ParseWord(line: string, i0: nat) returns (r: Result<(nat, Word), LexError>)
    requires i0 <= |line|
    ensures r == WordAt(line, i0)
  {
    var tokens: seq<Segment> := [];
    var current := "";
    var i := i0;
    while i < |line| && !IsWhitespace(line[i]) && !IsSpecial(line[i])
      invariant i <= |line|
      invariant WordLoop(line, i, tokens, current) == WordAt(line, i0)
      decreases |line| - i
    {
      if line[i] == '"' {
        if current != "" {
          tokens := tokens + [Raw(current)];
          current := "";
        }
        var q := ParseQuoted(line, i);
        if q.Err? {
          return Err(q.error);
        }
        i, tokens := q.value.0, tokens + [q.value.1];
      } else if line[i] == '$' {
        if current != "" {
          tokens := tokens + [Raw(current)];
          current := "";
        }
        var v := ParseVariable(line, i);
        if v.Err? {
          return Err(v.error);
        }
        i, tokens := v.value.0, tokens + [v.value.1];
      } else if line[i] == '\\' {
        var e := EscapedAt(line, i);
        if e.Err? {
          return Err(e.error);
        }
        i, current := e.value.0, current + [e.value.1];
      } else {
        current := current + [line[i]];
        i := i + 1;
      }
    }
    if current != "" {
      tokens := tokens + [Raw(current)];
    }
    return Ok((i, Word(tokens)));
  }
}

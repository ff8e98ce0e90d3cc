/** Properties of the word grammar: the serialiser and the parser are inverse on the
    words the serialiser can express, and the test table of helpers/parsing/word_test.py. */
module WordProperties {
  import opened Results
  import opened Characters
  import opened Words

  /** A top-level Raw is written back unquoted, so it must not hold a word terminator. */
  predicate RawFits(v: string) {
    forall j :: 0 <= j < |v| ==> !IsWhitespace(v[j]) && !IsSpecial(v[j])
  }

  /** A variable name ends at the first `}`, so it must not hold one. */
  predicate NameFits(n: string) {
    '}' !in n
  }

  /** Every variable inside a Quoted group has a name that fits. */
  predicate QuotedFits(qs: seq<Segment>) {
    forall k :: 0 <= k < |qs| && qs[k].Variable? ==> NameFits(qs[k].name)
  }

  /** A top-level segment the serialiser writes back faithfully. */
  predicate SegmentFits(s: Segment) {
    match s
    case Raw(v) => RawFits(v)
    case Variable(n) => NameFits(n)
    case Quoted(qs) => QuotedFits(qs)
  }

  /** The words whose text `Word.parse` reads back as the same word. */
  predicate Printable(w: Word) {
    forall k :: 0 <= k < |w.segments| ==> SegmentFits(w.segments[k])
  }

  /** `t` occurs in `line` at index `i`. Stated recursively, so the verifier unfolds it
      one character at a time instead of reasoning about slices of `line`. */
  predicate PrefixAt(line: string, i: nat, t: string)
    decreases |t|
  {
    i + |t| <= |line| && (t == [] || (line[i] == t[0] && PrefixAt(line, i + 1, t[1..])))
  }

  /** `a + b` occurs at `i` exactly when `a` does and `b` follows it. */
  lemma {:induction false} PrefixAtAppend(line: string, i: nat, a: string, b: string)
    ensures PrefixAt(line, i, a + b) <==> PrefixAt(line, i, a) && PrefixAt(line, i + |a|, b)
    decreases |a|
  {
    if a == [] {
      assert a + b == b;
    } else {
      assert (a + b)[0] == a[0] && (a + b)[1..] == a[1..] + b;
      PrefixAtAppend(line, i + 1, a[1..], b);
    }
  }

  /** The first two characters of an occurrence. */
  lemma PrefixAtHead(line: string, i: nat, t: string)
    requires PrefixAt(line, i, t)
    ensures |t| >= 1 ==> line[i] == t[0]
    ensures |t| >= 2 ==> line[i + 1] == t[1]
  {
    if |t| >= 2 {
      assert PrefixAt(line, i + 1, t[1..]);
      assert t[1..][0] == t[1];
    }
  }

  /** `PrefixAt` agrees with slicing. */
  lemma {:induction false} PrefixAtSlice(line: string, i: nat, t: string)
    ensures PrefixAt(line, i, t) <==> i + |t| <= |line| && line[i..i + |t|] == t
    decreases |t|
  {
    if t != [] && i + |t| <= |line| {
      PrefixAtSlice(line, i + 1, t[1..]);
      var s := line[i..i + |t|];
      assert s[0] == line[i] && s[1..] == line[i + 1..i + |t|];
      if s == t {
        assert t[0] == line[i] && t[1..] == line[i + 1..i + 1 + |t[1..]|];
      }
      if line[i] == t[0] && line[i + 1..i + 1 + |t[1..]|] == t[1..] {
        assert s == [s[0]] + s[1..] && t == [t[0]] + t[1..];
      }
    }
  }

  /** `"` + `t` + `"` at `i`: the two quotes around `t`. */
  lemma PrefixAtQuoted(line: string, i: nat, t: string)
    requires PrefixAt(line, i, "\"" + t + "\"")
    ensures i + |t| + 2 <= |line| && line[i] == '"' && line[i + 1 + |t|] == '"'
    ensures PrefixAt(line, i + 1, t)
  {
    assert ("\"" + t + "\"")[1..] == t + "\"";
    PrefixAtAppend(line, i + 1, t, "\"");
  }

  /** A word ends at index `j`: the end of the line, a space or a `;`. */
  predicate EndsWordAt(line: string, j: nat) {
    j <= |line| && (j == |line| || IsWhitespace(line[j]) || IsSpecial(line[j]))
  }

  lemma EmptyConcat(v: string)
    ensures "" + v == v
  {
  }

  /** Moving the first character of `v` onto `cur`. */
  lemma ConsSplit(cur: string, v: string)
    requires v != []
    ensures cur + [v[0]] + v[1..] == cur + v
  {
    assert v == [v[0]] + v[1..];
  }

  /** The escaped text of a non-empty `v` starts with the escaped first character. */
  lemma EscapeHead(line: string, i: nat, v: string)
    requires v != [] && PrefixAt(line, i, Escape(v))
    ensures var e := EscapeChar(v[0]);
      PrefixAt(line, i + |e|, Escape(v[1..])) && |Escape(v)| == |e| + |Escape(v[1..])| &&
      1 <= |e| <= 2 && line[i] == e[0] && (|e| == 2 ==> line[i + 1] == e[1])
  {
    PrefixAtAppend(line, i, EscapeChar(v[0]), Escape(v[1..]));
    PrefixAtHead(line, i, EscapeChar(v[0]));
  }

  /** The text of a non-empty sequence of segments starts with the first segment's text. */
  lemma SegmentsHead(line: string, i: nat, ws: seq<Segment>)
    requires ws != [] && PrefixAt(line, i, SegmentsText(ws))
    ensures PrefixAt(line, i, SegmentText(ws[0]))
    ensures PrefixAt(line, i + |SegmentText(ws[0])|, SegmentsText(ws[1..]))
    ensures |SegmentsText(ws)| == |SegmentText(ws[0])| + |SegmentsText(ws[1..])|
  {
    PrefixAtAppend(line, i, SegmentText(ws[0]), SegmentsText(ws[1..]));
  }

  /** The search for `c` passes over an occurrence of a text without `c`. */
  lemma {:induction false} IndexOfPast(line: string, j: nat, n: string, c: char)
    requires PrefixAt(line, j, n) && c !in n
    ensures j + |n| <= |line| && IndexOf(line, j, c) == IndexOf(line, j + |n|, c)
    decreases |n|
  {
    if n != [] {
      assert n == [n[0]] + n[1..];
      IndexOfPast(line, j + 1, n[1..], c);
      assert j + 1 + |n[1..]| == j + |n|;
    }
  }

  /** `${n}` at `i` is read back as `Variable(n)`. */
  lemma VariableAtText(line: string, i: nat, n: string)
    requires NameFits(n) && PrefixAt(line, i, "${" + n + "}")
    ensures i + |n| + 3 <= |line|
    ensures VariableAt(line, i) == Ok((i + |n| + 3, Variable(n)))
  {
    var e := i + 2 + |n|;
    PrefixAtAppend(line, i, "${" + n, "}");
    PrefixAtAppend(line, i, "${", n);
    PrefixAtHead(line, i, "${");
    PrefixAtHead(line, e, "}");
    IndexOfPast(line, i + 2, n, '}');
    PrefixAtSlice(line, i + 2, n);
    assert IndexOf(line, e, '}') == e;
    VariableAtEnd(line, i, e);
    VariableResult(VariableAt(line, i), i, e, n, line[i + 2..e]);
  }

  /** `Variable.parse` when the first `}` after `${` is at `e`. */
  lemma VariableAtEnd(line: string, i: nat, e: nat)
    requires i + 2 <= e < |line| && line[i + 1] == '{' && IndexOf(line, i + 2, '}') == e
    ensures VariableAt(line, i) == Ok((e + 1, Variable(line[i + 2..e])))
  {
  }

  lemma VariableResult(r: Result<(nat, Segment), LexError>, i: nat, e: nat, n: string, s: string)
    requires r == Ok((e + 1, Variable(s))) && s == n && e == i + 2 + |n|
    ensures r == Ok((i + |n| + 3, Variable(n)))
  {
  }

  /** One step of `Quoted.parse` over a character that is read as itself or as an escape. */
  lemma QuotedStepChar(line: string, i: nat, segs: seq<Segment>, cur: string, c: char)
    requires i < |line| && line[i] == c && c != '"' && c != '$' && c != '\\'
    ensures QuotedLoop(line, i, segs, cur) == QuotedLoop(line, i + 1, segs, cur + [c])
  {
  }

  lemma QuotedStepEscape(line: string, i: nat, segs: seq<Segment>, cur: string, c: char)
    requires i + 1 < |line| && NeedsEscape(c) && line[i] == '\\' && line[i + 1] == EscapeLetterOf(c)
    ensures QuotedLoop(line, i, segs, cur) == QuotedLoop(line, i + 2, segs, cur + [c])
  {
    EscapeTablesMirror(c);
    assert EscapedAt(line, i) == Ok((i + 2, c));
  }

  /** Inside quotes, one step reads the escaped first character of `v`. */
  lemma QuotedReadsFirst(line: string, i: nat, segs: seq<Segment>, cur: string, v: string)
    requires v != [] && PrefixAt(line, i, Escape(v))
    ensures PrefixAt(line, i + |EscapeChar(v[0])|, Escape(v[1..]))
    ensures |Escape(v)| == |EscapeChar(v[0])| + |Escape(v[1..])|
    ensures QuotedLoop(line, i, segs, cur) == QuotedLoop(line, i + |EscapeChar(v[0])|, segs, cur + [v[0]])
  {
    EscapeHead(line, i, v);
    if NeedsEscape(v[0]) {
      QuotedStepEscape(line, i, segs, cur, v[0]);
      assert i + |EscapeChar(v[0])| == i + 2;
    } else {
      QuotedStepChar(line, i, segs, cur, v[0]);
      assert i + |EscapeChar(v[0])| == i + 1;
    }
  }

  /** The loop from equal states gives equal results. */
  lemma QuotedLoopSame(line: string, j: nat, k: nat, segs: seq<Segment>, a: string, b: string)
    requires j == k <= |line| && a == b
    ensures QuotedLoop(line, j, segs, a) == QuotedLoop(line, k, segs, b)
  {
  }

  /** Inside quotes, the escaped text of `v` adds `v` to the pending raw text. */
  lemma {:induction false} QuotedReadsRaw(line: string, i: nat, segs: seq<Segment>, cur: string, v: string)
    requires PrefixAt(line, i, Escape(v))
    ensures i + |Escape(v)| <= |line|
    ensures QuotedLoop(line, i, segs, cur) == QuotedLoop(line, i + |Escape(v)|, segs, cur + v)
    decreases |v|
  {
    if v == [] {
      assert cur + v == cur && i + |Escape(v)| == i;
    } else {
      QuotedReadsFirst(line, i, segs, cur, v);
      QuotedReadsRaw(line, i + |EscapeChar(v[0])|, segs, cur + [v[0]], v[1..]);
      ConsSplit(cur, v);
      QuotedLoopSame(line, i + |EscapeChar(v[0])| + |Escape(v[1..])|, i + |Escape(v)|, segs,
                     cur + [v[0]] + v[1..], cur + v);
    }
  }

  /** A `${n}` inside quotes flushes the pending raw text and adds `Variable(n)`. */
  lemma QuotedStepVariable(line: string, i: nat, segs: seq<Segment>, cur: string, v: Segment)
    requires v.Variable? && NameFits(v.name) && PrefixAt(line, i, "${" + v.name + "}")
    ensures i + |v.name| + 3 <= |line|
    ensures QuotedLoop(line, i, segs, cur) == QuotedLoop(line, i + |v.name| + 3, Flush(segs, cur) + [v], "")
  {
    VariableAtText(line, i, v.name);
    PrefixAtHead(line, i, "${" + v.name + "}");
  }

  /** Flushing the first raw segment of `qs` and appending the rest gives `segs + qs`. */
  lemma FlushSplit(segs: seq<Segment>, qs: seq<Segment>)
    requires qs != [] && qs[0].Raw? && qs[0].value != ""
    ensures Flush(segs, qs[0].value) + qs[1..] == segs + qs
  {
    assert qs == [qs[0]] + qs[1..];
  }

  /** Appending the first segment of `qs`, then the rest, gives `segs + qs`. */
  lemma AppendSplit(segs: seq<Segment>, qs: seq<Segment>)
    requires qs != []
    ensures Flush(segs + [qs[0]], "") + qs[1..] == segs + qs
  {
    assert qs == [qs[0]] + qs[1..];
  }

  /** The text of quoted segments, then the closing quote, occurs at `i`, and
      `Quoted.parse` reads it back segment by segment: each segment is a non-empty Raw
      not followed by another Raw, or a variable whose name fits. Recursive, so the
      proofs below unfold it one segment at a time. */
  predicate QuotedTextAt(line: string, i: nat, qs: seq<Segment>)
    decreases |qs|
  {
    if qs == [] then i < |line| && line[i] == '"'
    else if qs[0].Raw? then
      qs[0].value != "" && (|qs| > 1 ==> !qs[1].Raw?) &&
      PrefixAt(line, i, Escape(qs[0].value)) && QuotedTextAt(line, i + |Escape(qs[0].value)|, qs[1..])
    else
      qs[0].Variable? && NameFits(qs[0].name) &&
      PrefixAt(line, i, "${" + qs[0].name + "}") && QuotedTextAt(line, i + |qs[0].name| + 3, qs[1..])
  }

  /** The tail of a well-formed, fitting group is well formed and fits. */
  lemma QuotedTail(qs: seq<Segment>)
    requires qs != [] && QuotedWellFormed(qs) && QuotedFits(qs)
    ensures QuotedWellFormed(qs[1..]) && QuotedFits(qs[1..])
    ensures qs[0].Raw? ==> qs[0].value != "" && (|qs| > 1 ==> !qs[1].Raw?)
    ensures !qs[0].Raw? ==> qs[0].Variable? && NameFits(qs[0].name)
  {
    assert forall k :: 0 <= k < |qs[1..]| ==> qs[1..][k] == qs[k + 1];
  }

  /** The text of a well-formed, fitting group followed by `"` reads back segment by segment. */
  lemma {:induction false} QuotedTextAtFrom(line: string, i: nat, qs: seq<Segment>)
    requires QuotedWellFormed(qs) && QuotedFits(qs) && PrefixAt(line, i, SegmentsText(qs))
    requires i + |SegmentsText(qs)| < |line| && line[i + |SegmentsText(qs)|] == '"'
    ensures QuotedTextAt(line, i, qs)
    decreases |qs|
  {
    if qs != [] {
      QuotedTail(qs);
      SegmentsHead(line, i, qs);
      QuotedTextAtFrom(line, i + |SegmentText(qs[0])|, qs[1..]);
    }
  }

  /** Splitting off a leading Raw segment inside quotes. */
  lemma QuotedRawStart(line: string, i: nat, qs: seq<Segment>)
    requires QuotedTextAt(line, i, qs) && qs != [] && qs[0].Raw?
    ensures qs[0].value != "" && PrefixAt(line, i, Escape(qs[0].value))
    ensures QuotedTextAt(line, i + |Escape(qs[0].value)|, qs[1..])
    ensures qs[1..] != [] ==> !qs[1..][0].Raw?
  {
  }

  /** Splitting off a leading variable inside quotes. */
  lemma QuotedVariableStart(line: string, i: nat, qs: seq<Segment>)
    requires QuotedTextAt(line, i, qs) && qs != [] && !qs[0].Raw?
    ensures qs[0] == Variable(qs[0].name) && NameFits(qs[0].name)
    ensures PrefixAt(line, i, "${" + qs[0].name + "}")
    ensures QuotedTextAt(line, i + |qs[0].name| + 3, qs[1..])
  {
  }

  /** The result of reading a leading Raw segment and then the rest, restated in terms
      of the whole sequence of segments. */
  lemma QuotedRawEnd(r: Result<(nat, Segment), LexError>, i: nat, segs: seq<Segment>, qs: seq<Segment>)
    requires qs != [] && qs[0].Raw? && qs[0].value != ""
    requires r == Ok((i + |Escape(qs[0].value)| + |SegmentsText(qs[1..])| + 1, Quoted(Flush(segs, qs[0].value) + qs[1..])))
    ensures r == Ok((i + |SegmentsText(qs)| + 1, Quoted(segs + qs)))
  {
    FlushSplit(segs, qs);
  }

  /** The result of reading a leading variable and then the rest, restated in terms of
      the whole sequence of segments. */
  lemma QuotedAppendEnd(r: Result<(nat, Segment), LexError>, i: nat, pre: seq<Segment>, qs: seq<Segment>)
    requires qs != [] && qs[0].Variable?
    requires r == Ok((i + |qs[0].name| + 3 + |SegmentsText(qs[1..])| + 1, Quoted(Flush(pre + [qs[0]], "") + qs[1..])))
    ensures r == Ok((i + |SegmentsText(qs)| + 1, Quoted(pre + qs)))
  {
    AppendSplit(pre, qs);
  }

  /** Inside quotes, a fresh raw text is read back whole. */
  lemma QuotedReadsRawFresh(line: string, i: nat, segs: seq<Segment>, v: string)
    requires PrefixAt(line, i, Escape(v))
    ensures QuotedLoop(line, i, segs, "") == QuotedLoop(line, i + |Escape(v)|, segs, v)
  {
    QuotedReadsRaw(line, i, segs, "", v);
    EmptyConcat(v);
  }

  /** Inside quotes, the text of readable segments followed by `"` is read back as
      those segments. */
  lemma {:induction false} QuotedReadsSegments(line: string, i: nat, segs: seq<Segment>, cur: string,
                                              qs: seq<Segment>)
    requires QuotedTextAt(line, i, qs) && (qs != [] && qs[0].Raw? ==> cur == "")
    ensures QuotedLoop(line, i, segs, cur) == Ok((i + |SegmentsText(qs)| + 1, Quoted(Flush(segs, cur) + qs)))
    decreases |qs|, 1
  {
    if qs == [] {
      assert Flush(segs, cur) + qs == Flush(segs, cur);
    } else if qs[0].Raw? {
      QuotedReadsRawFirst(line, i, segs, qs);
    } else {
      QuotedReadsVariableFirst(line, i, segs, cur, qs);
    }
  }

  /** `QuotedReadsSegments` when the first segment is raw text. */
  lemma {:induction false} QuotedReadsRawFirst(line: string, i: nat, segs: seq<Segment>, qs: seq<Segment>)
    requires QuotedTextAt(line, i, qs) && qs != [] && qs[0].Raw?
    ensures QuotedLoop(line, i, segs, "") == Ok((i + |SegmentsText(qs)| + 1, Quoted(segs + qs)))
    decreases |qs|, 0
  {
    QuotedRawStart(line, i, qs);
    QuotedReadsSegments(line, i + |Escape(qs[0].value)|, segs, qs[0].value, qs[1..]);
    QuotedRawJoin(line, i, segs, qs);
  }

  /** A leading Raw segment read whole, joined with the rest of the group read back. */
  lemma QuotedRawJoin(line: string, i: nat, segs: seq<Segment>, qs: seq<Segment>)
    requires qs != [] && qs[0].Raw? && qs[0].value != "" && PrefixAt(line, i, Escape(qs[0].value))
    requires QuotedLoop(line, i + |Escape(qs[0].value)|, segs, qs[0].value) ==
             Ok((i + |Escape(qs[0].value)| + |SegmentsText(qs[1..])| + 1, Quoted(Flush(segs, qs[0].value) + qs[1..])))
    ensures QuotedLoop(line, i, segs, "") == Ok((i + |SegmentsText(qs)| + 1, Quoted(segs + qs)))
  {
    QuotedReadsRawFresh(line, i, segs, qs[0].value);
    QuotedRawEnd(QuotedLoop(line, i, segs, ""), i, segs, qs);
  }

  /** `QuotedReadsSegments` when the first segment is a variable. */
  lemma {:induction false} QuotedReadsVariableFirst(line: string, i: nat, segs: seq<Segment>, cur: string,
                                                   qs: seq<Segment>)
    requires QuotedTextAt(line, i, qs) && qs != [] && !qs[0].Raw?
    ensures QuotedLoop(line, i, segs, cur) == Ok((i + |SegmentsText(qs)| + 1, Quoted(Flush(segs, cur) + qs)))
    decreases |qs|, 0
  {
    QuotedVariableStart(line, i, qs);
    QuotedReadsSegments(line, i + |qs[0].name| + 3, Flush(segs, cur) + [qs[0]], "", qs[1..]);
    QuotedVariableJoin(line, i, segs, cur, qs);
  }

  /** A leading variable read, joined with the rest of the group read back. */
  lemma QuotedVariableJoin(line: string, i: nat, segs: seq<Segment>, cur: string, qs: seq<Segment>)
    requires qs != [] && qs[0].Variable? && NameFits(qs[0].name) && PrefixAt(line, i, "${" + qs[0].name + "}")
    requires QuotedLoop(line, i + |qs[0].name| + 3, Flush(segs, cur) + [qs[0]], "") ==
             Ok((i + |qs[0].name| + 3 + |SegmentsText(qs[1..])| + 1, Quoted(Flush(Flush(segs, cur) + [qs[0]], "") + qs[1..])))
    ensures QuotedLoop(line, i, segs, cur) == Ok((i + |SegmentsText(qs)| + 1, Quoted(Flush(segs, cur) + qs)))
  {
    QuotedStepVariable(line, i, segs, cur, qs[0]);
    QuotedAppendEnd(QuotedLoop(line, i, segs, cur), i, Flush(segs, cur), qs);
  }

  /** `"` + text of well-formed segments + `"` is read back as one Quoted group. */
  lemma QuotedAtText(line: string, i: nat, qs: seq<Segment>)
    requires QuotedWellFormed(qs) && QuotedFits(qs)
    requires PrefixAt(line, i, "\"" + SegmentsText(qs) + "\"")
    ensures i + |SegmentsText(qs)| + 2 <= |line| && line[i] == '"'
    ensures QuotedAt(line, i) == Ok((i + |SegmentsText(qs)| + 2, Quoted(qs)))
  {
    PrefixAtQuoted(line, i, SegmentsText(qs));
    QuotedTextAtFrom(line, i + 1, qs);
    QuotedAtOf(line, i, Quoted(qs));
  }

  /** A quoted group whose text reads back segment by segment is read as that group. */
  lemma QuotedAtOf(line: string, i: nat, q: Segment)
    requires q.Quoted? && i < |line| && line[i] == '"' && QuotedTextAt(line, i + 1, q.segments)
    ensures i + |SegmentsText(q.segments)| + 2 <= |line|
    ensures QuotedAt(line, i) == Ok((i + |SegmentsText(q.segments)| + 2, q))
  {
    QuotedReadsSegments(line, i + 1, [], "", q.segments);
    QuotedStartEnd(QuotedLoop(line, i + 1, [], ""), i, q);
  }

  /** The result of reading a quoted group from a fresh state, restated in terms of the group. */
  lemma QuotedStartEnd(r: Result<(nat, Segment), LexError>, i: nat, q: Segment)
    requires q.Quoted?
    requires r == Ok((i + 1 + |SegmentsText(q.segments)| + 1, Quoted(Flush([], "") + q.segments)))
    ensures r == Ok((i + |SegmentsText(q.segments)| + 2, q))
  {
    assert Flush([], "") + q.segments == q.segments;
  }

  /** One step of `Word.parse` over a character that is read as itself or as an escape. */
  lemma WordStepChar(line: string, i: nat, segs: seq<Segment>, cur: string, c: char)
    requires i < |line| && line[i] == c
    requires c != '"' && c != '$' && c != '\\' && !IsWhitespace(c) && !IsSpecial(c)
    ensures WordLoop(line, i, segs, cur) == WordLoop(line, i + 1, segs, cur + [c])
  {
  }

  lemma WordStepEscape(line: string, i: nat, segs: seq<Segment>, cur: string, c: char)
    requires i + 1 < |line| && NeedsEscape(c) && line[i] == '\\' && line[i + 1] == EscapeLetterOf(c)
    ensures WordLoop(line, i, segs, cur) == WordLoop(line, i + 2, segs, cur + [c])
  {
    EscapeTablesMirror(c);
    assert EscapedAt(line, i) == Ok((i + 2, c));
  }

  /** Outside quotes, one step reads the escaped first character of `v`. */
  lemma WordReadsFirst(line: string, i: nat, segs: seq<Segment>, cur: string, v: string)
    requires v != [] && RawFits(v) && PrefixAt(line, i, Escape(v))
    ensures PrefixAt(line, i + |EscapeChar(v[0])|, Escape(v[1..]))
    ensures |Escape(v)| == |EscapeChar(v[0])| + |Escape(v[1..])|
    ensures WordLoop(line, i, segs, cur) == WordLoop(line, i + |EscapeChar(v[0])|, segs, cur + [v[0]])
  {
    EscapeHead(line, i, v);
    if NeedsEscape(v[0]) {
      WordStepEscape(line, i, segs, cur, v[0]);
      assert i + |EscapeChar(v[0])| == i + 2;
    } else {
      assert !IsWhitespace(v[0]) && !IsSpecial(v[0]);
      WordStepChar(line, i, segs, cur, v[0]);
      assert i + |EscapeChar(v[0])| == i + 1;
    }
  }

  /** The loop from equal states gives equal results. */
  lemma WordLoopSame(line: string, j: nat, k: nat, segs: seq<Segment>, a: string, b: string)
    requires j == k <= |line| && a == b
    ensures WordLoop(line, j, segs, a) == WordLoop(line, k, segs, b)
  {
  }

  /** Outside quotes, the escaped text of a Raw without terminators adds it to the pending raw text. */
  lemma {:induction false} WordReadsRaw(line: string, i: nat, segs: seq<Segment>, cur: string, v: string)
    requires RawFits(v) && PrefixAt(line, i, Escape(v))
    ensures i + |Escape(v)| <= |line|
    ensures WordLoop(line, i, segs, cur) == WordLoop(line, i + |Escape(v)|, segs, cur + v)
    decreases |v|
  {
    if v == [] {
      assert cur + v == cur && i + |Escape(v)| == i;
    } else {
      WordReadsFirst(line, i, segs, cur, v);
      assert RawFits(v[1..]) by {
        assert forall j :: 0 <= j < |v[1..]| ==> v[1..][j] == v[j + 1];
      }
      WordReadsRaw(line, i + |EscapeChar(v[0])|, segs, cur + [v[0]], v[1..]);
      ConsSplit(cur, v);
      WordLoopSame(line, i + |EscapeChar(v[0])| + |Escape(v[1..])|, i + |Escape(v)|, segs,
                   cur + [v[0]] + v[1..], cur + v);
    }
  }

  /** A `${n}` outside quotes flushes the pending raw text and adds `Variable(n)`. */
  lemma WordStepVariable(line: string, i: nat, segs: seq<Segment>, cur: string, v: Segment)
    requires v.Variable? && NameFits(v.name) && PrefixAt(line, i, "${" + v.name + "}")
    ensures i + |v.name| + 3 <= |line|
    ensures WordLoop(line, i, segs, cur) == WordLoop(line, i + |v.name| + 3, Flush(segs, cur) + [v], "")
  {
    VariableAtText(line, i, v.name);
    PrefixAtHead(line, i, "${" + v.name + "}");
  }

  /** A quoted group outside quotes flushes the pending raw text and is added whole. */
  lemma WordStepQuoted(line: string, i: nat, segs: seq<Segment>, cur: string, q: Segment)
    requires q.Quoted? && i < |line| && line[i] == '"' && QuotedTextAt(line, i + 1, q.segments)
    ensures i + |SegmentsText(q.segments)| + 2 <= |line|
    ensures WordLoop(line, i, segs, cur) ==
            WordLoop(line, i + |SegmentsText(q.segments)| + 2, Flush(segs, cur) + [q], "")
  {
    QuotedAtOf(line, i, q);
  }

  /** The text of word segments, then a word terminator, occurs at `i`, and `Word.parse`
      reads it back segment by segment: a non-empty Raw without terminators and not
      followed by another Raw, a variable whose name fits, or a quoted group that reads
      back. */
  predicate WordTextAt(line: string, i: nat, ws: seq<Segment>)
    decreases |ws|
  {
    if ws == [] then EndsWordAt(line, i)
    else if ws[0].Raw? then
      ws[0].value != "" && RawFits(ws[0].value) && (|ws| > 1 ==> !ws[1].Raw?) &&
      PrefixAt(line, i, Escape(ws[0].value)) && WordTextAt(line, i + |Escape(ws[0].value)|, ws[1..])
    else if ws[0].Variable? then
      NameFits(ws[0].name) &&
      PrefixAt(line, i, "${" + ws[0].name + "}") && WordTextAt(line, i + |ws[0].name| + 3, ws[1..])
    else
      i < |line| && line[i] == '"' && QuotedTextAt(line, i + 1, ws[0].segments) &&
      WordTextAt(line, i + |SegmentsText(ws[0].segments)| + 2, ws[1..])
  }

  /** The tail of a well-formed, printable word is well formed and printable. */
  lemma WordTail(ws: seq<Segment>)
    requires ws != [] && WellFormed(Word(ws)) && Printable(Word(ws))
    ensures WellFormed(Word(ws[1..])) && Printable(Word(ws[1..]))
    ensures ws[0].Raw? ==> ws[0].value != "" && RawFits(ws[0].value) && (|ws| > 1 ==> !ws[1].Raw?)
    ensures ws[0].Variable? ==> NameFits(ws[0].name)
    ensures ws[0].Quoted? ==> QuotedWellFormed(ws[0].segments) && QuotedFits(ws[0].segments)
  {
    assert forall k :: 0 <= k < |ws[1..]| ==> ws[1..][k] == ws[k + 1];
    assert SegmentFits(ws[0]);
  }

  /** The text of a well-formed, printable word followed by a terminator reads back
      segment by segment. */
  lemma {:induction false} WordTextAtFrom(line: string, i: nat, ws: seq<Segment>)
    requires WellFormed(Word(ws)) && Printable(Word(ws)) && PrefixAt(line, i, SegmentsText(ws))
    requires EndsWordAt(line, i + |SegmentsText(ws)|)
    ensures WordTextAt(line, i, ws)
    decreases |ws|
  {
    if ws != [] {
      WordTail(ws);
      SegmentsHead(line, i, ws);
      EndsWordAtMoved(line, i + |SegmentsText(ws)|, i + |SegmentText(ws[0])| + |SegmentsText(ws[1..])|);
      WordTextAtFrom(line, i + |SegmentText(ws[0])|, ws[1..]);
      WordTextAtCons(line, i, ws);
    }
  }

  lemma EndsWordAtMoved(line: string, a: nat, b: nat)
    requires a == b && EndsWordAt(line, a)
    ensures EndsWordAt(line, b)
  {
  }

  /** The text of a fitting first segment, then text that reads back as the rest. */
  lemma WordTextAtCons(line: string, i: nat, ws: seq<Segment>)
    requires ws != [] && PrefixAt(line, i, SegmentText(ws[0]))
    requires ws[0].Raw? ==> ws[0].value != "" && RawFits(ws[0].value) && (|ws| > 1 ==> !ws[1].Raw?)
    requires ws[0].Variable? ==> NameFits(ws[0].name)
    requires ws[0].Quoted? ==> QuotedWellFormed(ws[0].segments) && QuotedFits(ws[0].segments)
    requires WordTextAt(line, i + |SegmentText(ws[0])|, ws[1..])
    ensures WordTextAt(line, i, ws)
  {
    if ws[0].Quoted? {
      WordQuotedFrom(line, i, ws[0].segments);
    }
  }

  /** The text of a well-formed, fitting quoted group reads back as that group. */
  lemma WordQuotedFrom(line: string, i: nat, qs: seq<Segment>)
    requires QuotedWellFormed(qs) && QuotedFits(qs) && PrefixAt(line, i, "\"" + SegmentsText(qs) + "\"")
    ensures i < |line| && line[i] == '"' && QuotedTextAt(line, i + 1, qs)
  {
    PrefixAtQuoted(line, i, SegmentsText(qs));
    QuotedTextAtFrom(line, i + 1, qs);
  }

  /** Outside quotes, a fresh raw text without terminators is read back whole. */
  lemma WordReadsRawFresh(line: string, i: nat, segs: seq<Segment>, v: string)
    requires RawFits(v) && PrefixAt(line, i, Escape(v))
    ensures WordLoop(line, i, segs, "") == WordLoop(line, i + |Escape(v)|, segs, v)
  {
    WordReadsRaw(line, i, segs, "", v);
    EmptyConcat(v);
  }

  /** Outside quotes, the text of readable segments followed by a word terminator is
      read back as those segments. */
  lemma {:induction false} WordReadsSegments(line: string, i: nat, segs: seq<Segment>, cur: string,
                                            ws: seq<Segment>)
    requires WordTextAt(line, i, ws) && (ws != [] && ws[0].Raw? ==> cur == "")
    ensures WordLoop(line, i, segs, cur) == Ok((i + |SegmentsText(ws)|, Word(Flush(segs, cur) + ws)))
    decreases |ws|, 1
  {
    if ws == [] {
      assert Flush(segs, cur) + ws == Flush(segs, cur);
    } else if ws[0].Raw? {
      WordReadsRawFirst(line, i, segs, ws);
    } else if ws[0].Variable? {
      WordReadsVariableFirst(line, i, segs, cur, ws);
    } else {
      WordReadsQuotedFirst(line, i, segs, cur, ws);
    }
  }

  /** The result of reading a leading Raw segment and then the rest of a word. */
  lemma WordRawEnd(r: Result<(nat, Word), LexError>, i: nat, segs: seq<Segment>, ws: seq<Segment>)
    requires ws != [] && ws[0].Raw? && ws[0].value != ""
    requires r == Ok((i + |Escape(ws[0].value)| + |SegmentsText(ws[1..])|, Word(Flush(segs, ws[0].value) + ws[1..])))
    ensures r == Ok((i + |SegmentsText(ws)|, Word(segs + ws)))
  {
    FlushSplit(segs, ws);
  }

  /** The result of reading a leading variable and then the rest of a word. */
  lemma WordVariableEnd(r: Result<(nat, Word), LexError>, i: nat, pre: seq<Segment>, ws: seq<Segment>)
    requires ws != [] && ws[0].Variable?
    requires r == Ok((i + |ws[0].name| + 3 + |SegmentsText(ws[1..])|, Word(Flush(pre + [ws[0]], "") + ws[1..])))
    ensures r == Ok((i + |SegmentsText(ws)|, Word(pre + ws)))
  {
    AppendSplit(pre, ws);
  }

  /** The result of reading a leading quoted group and then the rest of a word. */
  lemma WordQuotedEnd(r: Result<(nat, Word), LexError>, i: nat, pre: seq<Segment>, ws: seq<Segment>)
    requires ws != [] && ws[0].Quoted?
    requires r == Ok((i + |SegmentsText(ws[0].segments)| + 2 + |SegmentsText(ws[1..])|,
                      Word(Flush(pre + [ws[0]], "") + ws[1..])))
    ensures r == Ok((i + |SegmentsText(ws)|, Word(pre + ws)))
  {
    AppendSplit(pre, ws);
  }

  /** Splitting off a leading Raw segment outside quotes. */
  lemma WordRawStart(line: string, i: nat, ws: seq<Segment>)
    requires WordTextAt(line, i, ws) && ws != [] && ws[0].Raw?
    ensures ws[0].value != "" && RawFits(ws[0].value) && PrefixAt(line, i, Escape(ws[0].value))
    ensures WordTextAt(line, i + |Escape(ws[0].value)|, ws[1..])
    ensures ws[1..] != [] ==> !ws[1..][0].Raw?
  {
  }

  /** Splitting off a leading variable outside quotes. */
  lemma WordVariableStart(line: string, i: nat, ws: seq<Segment>)
    requires WordTextAt(line, i, ws) && ws != [] && ws[0].Variable?
    ensures ws[0] == Variable(ws[0].name) && NameFits(ws[0].name)
    ensures PrefixAt(line, i, "${" + ws[0].name + "}")
    ensures WordTextAt(line, i + |ws[0].name| + 3, ws[1..])
  {
  }

  /** Splitting off a leading quoted group outside quotes. */
  lemma WordQuotedStart(line: string, i: nat, ws: seq<Segment>)
    requires WordTextAt(line, i, ws) && ws != [] && ws[0].Quoted?
    ensures ws[0] == Quoted(ws[0].segments)
    ensures i < |line| && line[i] == '"' && QuotedTextAt(line, i + 1, ws[0].segments)
    ensures WordTextAt(line, i + |SegmentsText(ws[0].segments)| + 2, ws[1..])
  {
  }

  /** `WordReadsSegments` when the first segment is raw text. */
  lemma {:induction false} WordReadsRawFirst(line: string, i: nat, segs: seq<Segment>, ws: seq<Segment>)
    requires WordTextAt(line, i, ws) && ws != [] && ws[0].Raw?
    ensures WordLoop(line, i, segs, "") == Ok((i + |SegmentsText(ws)|, Word(segs + ws)))
    decreases |ws|, 0
  {
    WordRawStart(line, i, ws);
    WordReadsSegments(line, i + |Escape(ws[0].value)|, segs, ws[0].value, ws[1..]);
    WordRawJoin(line, i, segs, ws);
  }

  /** A leading Raw segment read whole, joined with the rest of the word read back. */
  lemma WordRawJoin(line: string, i: nat, segs: seq<Segment>, ws: seq<Segment>)
    requires ws != [] && ws[0].Raw? && ws[0].value != "" && RawFits(ws[0].value)
    requires PrefixAt(line, i, Escape(ws[0].value))
    requires WordLoop(line, i + |Escape(ws[0].value)|, segs, ws[0].value) ==
             Ok((i + |Escape(ws[0].value)| + |SegmentsText(ws[1..])|, Word(Flush(segs, ws[0].value) + ws[1..])))
    ensures WordLoop(line, i, segs, "") == Ok((i + |SegmentsText(ws)|, Word(segs + ws)))
  {
    WordReadsRawFresh(line, i, segs, ws[0].value);
    WordRawEnd(WordLoop(line, i, segs, ""), i, segs, ws);
  }

  /** `WordReadsSegments` when the first segment is a variable. */
  lemma {:induction false} WordReadsVariableFirst(line: string, i: nat, segs: seq<Segment>, cur: string,
                                                 ws: seq<Segment>)
    requires WordTextAt(line, i, ws) && ws != [] && ws[0].Variable?
    ensures WordLoop(line, i, segs, cur) == Ok((i + |SegmentsText(ws)|, Word(Flush(segs, cur) + ws)))
    decreases |ws|, 0
  {
    WordVariableStart(line, i, ws);
    WordReadsSegments(line, i + |ws[0].name| + 3, Flush(segs, cur) + [ws[0]], "", ws[1..]);
    WordVariableJoin(line, i, segs, cur, ws);
  }

  /** A leading variable read, joined with the rest of the word read back. */
  lemma WordVariableJoin(line: string, i: nat, segs: seq<Segment>, cur: string, ws: seq<Segment>)
    requires ws != [] && ws[0].Variable? && NameFits(ws[0].name) && PrefixAt(line, i, "${" + ws[0].name + "}")
    requires WordLoop(line, i + |ws[0].name| + 3, Flush(segs, cur) + [ws[0]], "") ==
             Ok((i + |ws[0].name| + 3 + |SegmentsText(ws[1..])|, Word(Flush(Flush(segs, cur) + [ws[0]], "") + ws[1..])))
    ensures WordLoop(line, i, segs, cur) == Ok((i + |SegmentsText(ws)|, Word(Flush(segs, cur) + ws)))
  {
    WordStepVariable(line, i, segs, cur, ws[0]);
    WordVariableEnd(WordLoop(line, i, segs, cur), i, Flush(segs, cur), ws);
  }

  /** `WordReadsSegments` when the first segment is a quoted group. */
  lemma {:induction false} WordReadsQuotedFirst(line: string, i: nat, segs: seq<Segment>, cur: string,
                                               ws: seq<Segment>)
    requires WordTextAt(line, i, ws) && ws != [] && ws[0].Quoted?
    ensures WordLoop(line, i, segs, cur) == Ok((i + |SegmentsText(ws)|, Word(Flush(segs, cur) + ws)))
    decreases |ws|, 0
  {
    WordQuotedStart(line, i, ws);
    WordReadsSegments(line, i + |SegmentsText(ws[0].segments)| + 2, Flush(segs, cur) + [ws[0]], "", ws[1..]);
    WordQuotedJoin(line, i, segs, cur, ws);
  }

  /** A leading quoted group read, joined with the rest of the word read back. */
  lemma WordQuotedJoin(line: string, i: nat, segs: seq<Segment>, cur: string, ws: seq<Segment>)
    requires ws != [] && ws[0].Quoted? && i < |line| && line[i] == '"' && QuotedTextAt(line, i + 1, ws[0].segments)
    requires i + |SegmentsText(ws[0].segments)| + 2 <= |line|
    requires WordLoop(line, i + |SegmentsText(ws[0].segments)| + 2, Flush(segs, cur) + [ws[0]], "") ==
             Ok((i + |SegmentsText(ws[0].segments)| + 2 + |SegmentsText(ws[1..])|,
                 Word(Flush(Flush(segs, cur) + [ws[0]], "") + ws[1..])))
    ensures WordLoop(line, i, segs, cur) == Ok((i + |SegmentsText(ws)|, Word(Flush(segs, cur) + ws)))
  {
    WordStepQuoted(line, i, segs, cur, ws[0]);
    WordQuotedEnd(WordLoop(line, i, segs, cur), i, Flush(segs, cur), ws);
  }

  /** The result of reading the segments of `w` from a fresh scanner state, restated
      in terms of `w`. */
  lemma WordStartEnd(r: Result<(nat, Word), LexError>, i: nat, w: Word)
    requires r == Ok((i + |SegmentsText(w.segments)|, Word(Flush([], "") + w.segments)))
    ensures r == Ok((i + |WordText(w)|, w))
  {
    assert Flush([], "") + w.segments == w.segments;
  }

  /** Round trip inside a line: the text of a well-formed, printable word, followed by a
      space, a `;` or the end of the line, is parsed back as that word, ending just after it. */
  lemma WordParsesBack(line: string, i: nat, w: Word, rest: string)
    requires i <= |line| && WellFormed(w) && Printable(w)
    requires line[i..] == WordText(w) + rest
    requires rest == "" || IsWhitespace(rest[0]) || IsSpecial(rest[0])
    ensures WordAt(line, i) == Ok((i + |WordText(w)|, w))
  {
    var t := WordText(w);
    assert |line[i..]| == |line| - i;
    assert line[i..i + |t|] == line[i..][..|t|] == t;
    PrefixAtSlice(line, i, t);
    if rest != [] {
      assert line[i + |t|] == line[i..][|t|] == rest[0];
    }
    WordTextAtFrom(line, i, w.segments);
    WordReadsSegments(line, i, [], "", w.segments);
    WordStartEnd(WordLoop(line, i, [], ""), i, w);
  }

  /** Round trip: `Word.parse(str(w), 0)` returns `(len(str(w)), w)`. */
  lemma WordRoundTrip(w: Word)
    requires WellFormed(w) && Printable(w)
    ensures WordAt(WordText(w), 0) == Ok((|WordText(w)|, w))
  {
    var line := WordText(w);
    assert line[0..] == line + "";
    WordParsesBack(line, 0, w, "");
  }
}

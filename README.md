# A verified model of the setups script front end

`setups` runs small setup scripts: lines of shell-like commands with `${NAME}`
references, `"..."` groups, backslash escapes, `;` separators and `#` comments.
This project models, in Dafny, the parts of it that turn text into commands and
resolve variables:

- the word grammar (helpers/parsing/word.py): escapes, `${NAME}` references,
  quoted groups and bare words, their parsers and their `__str__` serialisers;
- the pull-model lexer (helpers/parsing/lexer.py) that turns a file into WORD,
  SEPARATOR and END tokens;
- the parser (helpers/parsing/parser.py) that groups tokens into a `Sequence`
  of `Command`s;
- the older string-level tokenizer (helpers/parser.py) that splits one command
  string into tokens, decoding escapes and substituting variables through a
  callback;
- the runner (helpers/runner.py): its variable environment, the synthetic
  `RESET`, `COLOR:n` and `COLOR:r:g:b` variables, and command dispatch;
- the ANSI colour builders (helpers/colors.py).

Files and modules:

| file | module | models |
|---|---|---|
| results.dfy | Results, Characters | `Result`, `Outcome`, `Option`, the Python exceptions; `is_whitespace`, `is_special` |
| words.dfy | Words | word.py: segments, serialisers and parsers, with their loop methods |
| word_properties.dfy | WordProperties | the round trip: `Word.parse(str(w))` gives `w` back |
| word_tests.dfy | WordTests | the cases of word_test.py, in general form and as rows |
| lexing.dfy | Lexing | lexer.py: tokens and the `Lexer` class |
| lexer_properties.dfy | LexerProperties | what `eat_once` does at each kind of position, lexer_test.py rows |
| parsing.dfy | Parsing | parsing/parser.py over the token-list lexer of parser_test.py |
| parser_properties.dfy | ParserProperties | `parse` against a reference definition of the commands |
| legacy_parser.dfy | LegacyParser | helpers/parser.py, with its loop methods |
| legacy_properties.dfy | LegacyProperties | escapes, references, quotes, tokens, fields and callback order |
| texts.dfy | Texts | `startswith`, `lstrip`, `rstrip`, `split`, `join` |
| decimal.dfy | Decimal | `int()` on the texts the runner hands it, and `f'{n}'` |
| colors.dfy | Colors | colors.py |
| runtime.dfy | Runtime | runner.py |

Each scanner in the source is a loop that moves a cursor. It is modelled
twice:

- a method with the same `while` loop, proved equal to a specification
  function;
- that function, which follows the loop one step per recursive call.

The lemmas state the properties of the specification functions. Examples are
round trips between a serialiser and a parser, where a scan stops, which
errors it raises, and the order in which the variables callback is called.

Where the source code and its own tests or documentation disagree, the model
follows the code:

- `Lexer.eat_once` begins with `if self.token == TOKEN.END`. A `Token`
  compared with an enumeration member is never equal, so this guard never
  fires. The model keeps it, and `LexerProperties.EndGuardNeverFires` proves
  what `eat` then does at the end of the file: it yields a SEPARATOR, then END
  again. `LexerProperties.EndOnlyAtEof` shows that this END state is the only
  one the lexer reaches in a file.
- A lexer WORD token carries the raw slice of the line (lexer.py:161-163).
  It does not carry the parsed `Word` that lexer_test.py compares against.
  The model's tokens carry the slice. `Lexing.StrSpanAgrees` proves that
  the slice ends exactly where `Word.parse` stops.
- In `Runner.get_variable`, an out-of-range `COLOR:` index or component, and
  a `COLOR:` name that does not parse, fall through to "variable … not found".
  This happens even when the environment binds that name.
  `Runtime.ColorResolves` states exactly which `COLOR:` names resolve.
- `Runner.__call__` calls `parse(self, command)`, but `parse` takes
  `(command, variables)`. Dispatch is therefore modelled over an argument list
  that has already been parsed.

## Model

| member | source | states |
|---|---|---|
| Words.EscapeTablesMirror | helpers/parsing/word.py:18-20 | the parser's escape table and `Raw.__str__`'s table cover the same ten characters and undo each other |
| Words.Escape | helpers/parsing/word.py:69-88 | `Raw.__str__`'s escaping: each character written as itself or as a backslash and its letter (no contract of its own; EscapeLength and EscapeTablesMirror state it) |
| Words.EscapeLength | helpers/parsing/word.py:69-88 | `Raw.__str__` writes each character as itself or as a backslash and a letter, so the text is between one and two times as long as the value |
| Words.RawToString | helpers/parsing/word.py:69-88 | the loop writes each character of the value, escaping the ten special ones, giving `Escape(value)` |
| Words.SegmentToString | helpers/parsing/word.py:33-34 | `str(segment)` for a Raw, a Variable (`${name}`) or a Quoted group |
| Words.QuotedToString | helpers/parsing/word.py:108-113 | a Quoted group is its segments' texts between two double quotes |
| Words.WordToString | helpers/parsing/word.py:158-159 | a word's text is its segments' texts joined |
| Words.EscapedAt | helpers/parsing/word.py:14-24 | `parse_escaped` succeeds iff a valid escape letter follows the backslash; it returns the index after it and the decoded character, and otherwise raises "missing escaped character" or "invalid escaped character" |
| Words.VariableAt | helpers/parsing/word.py:47-60 | a parsed reference ends at least three characters on and within the line, and an error carries the line |
| Words.IndexOfFirst | helpers/parsing/word.py:54-56 | the name scan stops at the first `}`: nothing before it is `}` |
| Words.VariableAtCases | helpers/parsing/word.py:47-60 | `Variable.parse` fails with "missing variable start" without a `{` and with "missing variable end" without a `}`; otherwise it returns the text up to the first `}` and the index after it |
| Words.QuotedAt | helpers/parsing/word.py:126-149 | a parsed group ends at least two characters on and within the line, and an error carries the line |
| Words.QuotedLoopUnclosed | helpers/parsing/word.py:131-145 | the loop fails when no `"` lies ahead of the cursor, and raises "missing quote end" when nothing ahead is a `$` or a backslash either |
| Words.QuotedAtUnclosed | helpers/parsing/word.py:126-149 | `Quoted.parse` fails when no `"` follows the opener, with "missing quote end" and the line when no variable or escape fails first |
| Words.QuotedLoopCloses | helpers/parsing/word.py:131-146 | the loop succeeds only by consuming a `"` |
| Words.QuotedAtCloses | helpers/parsing/word.py:126-149 | a successful `Quoted.parse` returns the index just after the closing `"` |
| Words.QuotedAtShape | helpers/parsing/word.py:126-149 | `Quoted.parse` builds a group with no empty Raw, no two adjacent Raws and no nested group |
| Words.WordAt | helpers/parsing/word.py:172-198 | a parsed word ends within the line, and an error carries the line |
| Words.WordAtEnds | helpers/parsing/word.py:172-198 | `Word.parse` stops only at the end of the line, a space or a `;`, within the line |
| Words.WordAtShape | helpers/parsing/word.py:172-198 | `Word.parse` builds a coalesced word whose groups are well formed |
| Words.ParseVariable | helpers/parsing/word.py:47-60 | the loop of `Variable.parse` computes `VariableAt` |
| Words.ParseQuoted | helpers/parsing/word.py:126-149 | the loop of `Quoted.parse` computes `QuotedAt` |
| Words.ParseWord | helpers/parsing/word.py:172-198 | the loop of `Word.parse` computes `WordAt` |
| WordProperties.QuotedReadsSegments | helpers/parsing/word.py:126-149 | inside quotes, the scan reads back the text of any flat, coalesced segments whose names hold no `}` |
| WordProperties.WordReadsSegments | helpers/parsing/word.py:172-198 | the word scan reads back the text of any printable segments, ending just after them |
| WordProperties.WordParsesBack | helpers/parsing/word.py:158-198 | inside a line, the text of a well-formed printable word followed by a space, a `;` or the end of the line parses back as that word |
| WordProperties.WordRoundTrip | helpers/parsing/word.py:158-198 | `Word.parse(str(w), 0)` returns `(len(str(w)), w)` for every well-formed printable word |
| WordTests.EscapePlain | helpers/parsing/word.py:83-88 | a value without special characters is written as itself |
| WordTests.ParsesWhole | helpers/parsing/word_test.py:18-21 | a whole-input parse of a printable word's text returns the word and the input length |
| WordTests.BareRaw | helpers/parsing/word_test.py:8 | any bare value parses as one Raw |
| WordTests.QuotedRaw | helpers/parsing/word_test.py:9 | any plain quoted value parses as one Quoted group holding one Raw |
| WordTests.BareVariable | helpers/parsing/word_test.py:10 | any `${name}` without `}` in the name parses as one Variable |
| WordTests.QuotedVariable | helpers/parsing/word_test.py:11 | a quoted reference parses as a Quoted group holding the Variable |
| WordTests.RawThenQuoted | helpers/parsing/word_test.py:13 | a Raw then a Quoted group |
| WordTests.QuotedThenRaw | helpers/parsing/word_test.py:14 | a Quoted group then a Raw |
| WordTests.RawThenVariable | helpers/parsing/word_test.py:15 | a Raw then a Variable |
| WordTests.VariableThenRaw | helpers/parsing/word_test.py:16 | a Variable then a Raw |
| WordTests.BareAt | helpers/parsing/word.py:172-198 | a bare value at any index, followed by a terminator, is read as one Raw ending at the terminator |
| WordTests.EscapeRow | helpers/parsing/word_test.py:24-40 | a backslash and any of the ten escape letters parse as one Raw of the decoded character, ending at index 2 |
| WordTests.BareStops | helpers/parsing/word_test.py:44 | a space after a bare word ends it |
| WordTests.QuotedStops | helpers/parsing/word_test.py:45-46 | a space inside quotes belongs to the word; the one after the group ends it |
| WordTests.RowTest | helpers/parsing/word_test.py:8 | the row `test` |
| WordTests.RowQuotedTest | helpers/parsing/word_test.py:9 | the row `"test"` |
| WordTests.RowVariableTest | helpers/parsing/word_test.py:10 | the row `${test}` |
| WordTests.RowQuotedVariableTest | helpers/parsing/word_test.py:11 | the row `"${test}"` |
| WordTests.RowFirstQuotedSecond | helpers/parsing/word_test.py:13 | the row `first"second"` |
| WordTests.RowQuotedFirstSecond | helpers/parsing/word_test.py:14 | the row `"first"second` |
| WordTests.RowFirstVariableSecond | helpers/parsing/word_test.py:15 | the row `first${second}` |
| WordTests.RowVariableFirstSecond | helpers/parsing/word_test.py:16 | the row `${first}second` |
| WordTests.RowFirstSpaceSecond | helpers/parsing/word_test.py:44 | the row `first second` stops after `first` |
| WordTests.RowQuotedSpaceThird | helpers/parsing/word_test.py:45-46 | the row `"first second" third` stops after the group |
| WordTests.ErrorRows | helpers/parsing/word_test.py:54-64 | each failing row raises `LexerError` with its message and line |
| Lexing.TokenEquals | helpers/parsing/lexer.py:50-53 | a token equals exactly a token of the same type and value, and never an enumeration member |
| Characters.IsWhitespace | helpers/parsing/lexer.py:5-6 | only the space character is whitespace (no contract of its own; `Characters.CharacterClasses` states it) |
| Characters.IsSpecial | helpers/parsing/lexer.py:9-10 | the list of special characters holds only `;` (no contract of its own; `Characters.CharacterClasses` states it) |
| Characters.CharacterClasses | helpers/parsing/lexer.py:5-10 | whitespace is exactly `' '` and the special characters are exactly `;`; no character is both, and neither opens an escape, a reference, a group or a comment |
| Lexing.EscapeLettersAgree | helpers/parsing/lexer.py:93 | the lexer's escape list is exactly the word grammar's escape letters |
| Lexing.EscapedSpanAgrees | helpers/parsing/lexer.py:89-95 | `eat_escaped` moves past exactly what `parse_escaped` reads and raises the same errors |
| Lexing.VariableSpanAgrees | helpers/parsing/lexer.py:110-119 | `eat_variable` moves past exactly what `Variable.parse` reads and raises the same errors |
| Lexing.QuotedSpanAgrees | helpers/parsing/lexer.py:97-108 | `eat_quoted` moves past exactly what `Quoted.parse` reads and raises the same errors |
| Lexing.StrSpanAgrees | helpers/parsing/lexer.py:121-131 | `eat_str` stops exactly where `Word.parse` stops and raises the same errors |
| Lexing.StrSpan | helpers/parsing/lexer.py:121-131 | `eat_str` leaves the cursor at or after where it started and within the line |
| Lexing.SkipSpaces | helpers/parsing/lexer.py:137-138 | the whitespace loop stops at the first non-space at or after the cursor, or at the end of the line |
| Lexing.StripNewline | helpers/parsing/lexer.py:147-148 | the final newline is dropped exactly when the line ends in one, and the line is kept as it is otherwise |
| Lexing.EatOnceSpec | helpers/parsing/lexer.py:133-164 | a token keeps the cursor within the line and the reads within the file; the new token is never NONE; an END token comes only with an empty line and the cursor at 0, after an exhausted or empty `readline` |
| Lexing.OpenSpec | helpers/parsing/lexer.py:78-84 | after construction the current token is never NONE, and the cursor is within the line |
| Lexing.Lexer.Init | helpers/parsing/lexer.py:78-82 | a fresh lexer has an empty line, cursor 0 and a NONE token |
| Lexing.Lexer.Current | helpers/parsing/lexer.py:86-87 | `current()` returns the token field and changes nothing |
| Lexing.Lexer.Open | helpers/parsing/lexer.py:78-84 | construction succeeds iff the first `eat` does, with its state; otherwise it raises that `eat`'s error |
| Lexing.Lexer.ReadLine | helpers/parsing/lexer.py:143 | `readline` gives the next line, or `""` once the file is exhausted, and changes nothing else |
| Lexing.Lexer.EatEscaped | helpers/parsing/lexer.py:89-95 | the method moves the cursor to `EscapedSpan`, or fails with its error |
| Lexing.Lexer.EatVariable | helpers/parsing/lexer.py:110-119 | the method moves the cursor to `VariableSpan`, or fails with its error |
| Lexing.Lexer.EatQuoted | helpers/parsing/lexer.py:97-108 | the method moves the cursor to `QuotedSpan`, or fails with its error |
| Lexing.Lexer.EatStr | helpers/parsing/lexer.py:121-131 | the method moves the cursor to `StrSpan`, or fails with its error |
| Lexing.Lexer.EatOnce | helpers/parsing/lexer.py:133-164 | the recursive method moves the state to `EatOnceSpec` and returns the new token, or raises its error |
| Lexing.Lexer.Eat | helpers/parsing/lexer.py:166-167 | `eat` is one `eat_once` |
| LexerProperties.BlankRestEnds | helpers/parsing/lexer.py:137-146 | after a separator or at the start, blank text to the end of the file gives END |
| LexerProperties.BlankInputEnds | helpers/parsing/lexer.py:78-84 | a file of blank or comment-only lines gives END as its first token |
| LexerProperties.BlankInputRows | helpers/parsing/lexer_test.py:42-48 | the rows with a newline and with no input, and the two comment rows at lines 81-86, give END at once |
| LexerProperties.WordThenSeparator | helpers/parsing/lexer.py:140-152 | after a WORD, a blank rest of line (a comment included) gives one SEPARATOR |
| LexerProperties.SeparatorReadsNextLine | helpers/parsing/lexer.py:140-149 | after a separator, the end of the line reads the next line, drops its newline and lexes again |
| LexerProperties.SemicolonSeparator | helpers/parsing/lexer.py:156-159 | a `;` at a token start is consumed alone and gives a SEPARATOR |
| LexerProperties.CommentSkipsLine | helpers/parsing/lexer.py:153-155 | a `#` at a token start discards the rest of the line |
| LexerProperties.WordTokenAt | helpers/parsing/lexer.py:160-164 | any other character starts a WORD whose value is the slice up to where `Word.parse` stops, or raises its error |
| LexerProperties.EndGuardNeverFires | helpers/parsing/lexer.py:134-135 | at END, `eat` gives a SEPARATOR and then END again |
| LexerProperties.EndOnlyAtEof | helpers/parsing/lexer.py:140-146 | in a file, the only END state `eat_once` reaches is an empty line, the cursor at 0 and every line read |
| LexerProperties.OpenFirstToken | helpers/parsing/lexer.py:78-84 | the constructor reads the first line and lexes its first token |
| LexerProperties.ConstructorErrorRows | helpers/parsing/lexer_test.py:100-121 | each failing row raises from the constructor with its message |
| LexerProperties.SeparatorAtLineEndRow | helpers/parsing/lexer_test.py:59-62 | `first second;` then `third` gives two WORDs, one SEPARATOR, a WORD, a SEPARATOR, then END |
| Parsing.CurrentAt | helpers/parsing/parser_test.py:17-20 | the mocked `current()` gives END once the list is exhausted |
| Parsing.EatAt | helpers/parsing/parser_test.py:22-26 | the mocked `eat()` advances by one and stays at the end |
| Parsing.CommandLoop | helpers/parsing/parser.py:75-77 | the loop only appends arguments, and stops within the list |
| Parsing.ParseCommandSpec | helpers/parsing/parser.py:71-79 | a command starts with the current token's value and always advances past a token |
| Parsing.ParseElementSpec | helpers/parsing/parser.py:81-85 | an element is parsed iff the current token is a WORD; otherwise "unexpected token" is raised with that token |
| Parsing.SequenceLoop | helpers/parsing/parser.py:87-97 | a successful parse stops at END |
| Parsing.MockLexer.constructor | helpers/parsing/parser_test.py:13-15 | the mocked lexer starts at the first token |
| Parsing.MockLexer.Eat | helpers/parsing/parser_test.py:22-26 | `eat` moves the index to `EatAt` and returns the new current token |
| Parsing.MockLexer.Current | helpers/parsing/parser_test.py:17-20 | the mock's `current()` is END once the list is exhausted, and the selected token before that |
| Parsing.Parser.constructor | helpers/parsing/parser.py:68-69 | the parser holds its lexer |
| Parsing.Parser.ParseCommand | helpers/parsing/parser.py:71-79 | the loop produces `ParseCommandSpec`'s command and index |
| Parsing.Parser.ParseSequenceElement | helpers/parsing/parser.py:81-85 | the method follows `ParseElementSpec` |
| Parsing.Parser.ParseSequence | helpers/parsing/parser.py:87-97 | the loop follows `SequenceLoop` from an empty sequence |
| Parsing.Parser.Parse | helpers/parsing/parser.py:99-100 | `parse` is `parse_sequence` |
| ParserProperties.CommandLoopRun | helpers/parsing/parser.py:75-78 | inside a run of WORDs, the command loop appends the rest of the run and eats the token after it |
| ParserProperties.ParseCommandRun | helpers/parsing/parser.py:71-79 | at the start of a run, `parse_command` reads exactly that run |
| ParserProperties.SequenceLoopCommands | helpers/parsing/parser.py:87-97 | over WORDs and SEPARATORs, the sequence loop appends one command per maximal run of WORDs |
| ParserProperties.ParseBuildsRuns | helpers/parsing/parser.py:87-100 | `parse()` builds exactly the reference commands and consumes the whole list |
| ParserProperties.ArgumentsAreWordValues | helpers/parsing/parser.py:71-97 | the commands' arguments, concatenated, are the WORD values in order |
| ParserProperties.CommandsStartWithWord | helpers/parsing/parser.py:71-79 | every command is non-empty and built from a WORD's value |
| ParserProperties.SeparatorsParseEmpty | helpers/parsing/parser_test.py:30-32 | a list of separators only, or an empty list, parses to an empty sequence |
| ParserProperties.ParsedCommands | helpers/parsing/parser.py:87-100 | over WORDs and SEPARATORs, `parse()` succeeds, and its commands are non-empty lists of WORD values in token order |
| ParserProperties.NoneTokenRaises | helpers/parsing/parser.py:95-96 | a NONE token where a command may start raises "unexpected token" with that token |
| ParserProperties.NoneInsideCommand | helpers/parsing/parser.py:75-77 | a NONE token inside a command is appended as a missing value |
| ParserProperties.SeparatorRows | helpers/parsing/parser_test.py:30-32 | the rows with nothing or separators only |
| ParserProperties.OneWordRow | helpers/parsing/parser_test.py:34 | the row with one word |
| ParserProperties.SeveralWordsRow | helpers/parsing/parser_test.py:35-37 | the row with three words in one command |
| ParserProperties.SeveralCommandsRow | helpers/parsing/parser_test.py:38-40 | the row with two commands |
| LegacyParser.GetEscaped | helpers/parser.py:30-55 | an escape succeeds iff a valid letter follows the backslash; it returns the index after it and the decoded character, and otherwise raises "missing character after \\" or "invalid character after \\" |
| LegacyParser.NameLoop | helpers/parser.py:17-25 | the name scan stops at a `}`, or raises "missing closing }" or "missing character after \\" |
| LegacyParser.VariableSpec | helpers/parser.py:4-27 | a `$` that ends the command raises `IndexError`; a `$` without `{` raises "invalid character after $"; the callback is called at most once |
| LegacyParser.QuotedSpec | helpers/parser.py:58-81 | a successful quoted scan ends just after a double quote |
| LegacyParser.QuoteLoop | helpers/parser.py:68-81 | the loop of `get_token_quoted` ends, when it succeeds, after the cursor and within the command |
| LegacyParser.TokenLoop | helpers/parser.py:93-105 | the token loop stops at a space or the end of the command |
| LegacyParser.TokenSpec | helpers/parser.py:84-106 | the rest `get_token` returns is shorter than a non-empty command and has no leading space |
| LegacyParser.ParseLoop | helpers/parser.py:116-118 | the generator only appends tokens and lookups, and yields at most one token per character left |
| LegacyParser.ParseSpec | helpers/parser.py:109-118 | `parse` yields at most one token per character of the command |
| LegacyParser.GetVariable | helpers/parser.py:4-27 | the loop computes `VariableSpec` |
| LegacyParser.GetTokenQuoted | helpers/parser.py:58-81 | the loop computes `QuotedSpec` |
| LegacyParser.GetToken | helpers/parser.py:84-106 | the loop computes `TokenSpec` |
| LegacyParser.Parse | helpers/parser.py:109-118 | the generator's loop computes `ParseSpec`, keeping what was yielded before a raise |
| LegacyProperties.EscapesAgree | helpers/parser.py:30-55 | `get_escaped` accepts and decodes exactly what `parse_escaped` does, with errors in the same cases |
| LegacyProperties.NameLoopReads | helpers/parser.py:17-23 | the name scan reads back a name written with `}` and `\` behind a backslash |
| LegacyProperties.NameLoopUnclosed | helpers/parser.py:24-25 | a written name that runs to the end of the command raises "missing closing }" |
| LegacyProperties.NameLoopDangling | helpers/parser.py:18-21 | a written name followed by a final backslash raises "missing character after \\" |
| LegacyProperties.VariableReads | helpers/parser.py:4-27 | a written reference calls the callback once with its name and returns its value or raises its error |
| LegacyProperties.VariableUnclosed | helpers/parser.py:24-25 | an unclosed reference raises "missing closing }" without calling the callback |
| LegacyProperties.VariableDangling | helpers/parser.py:18-21 | a reference ending in a dangling backslash raises without calling the callback |
| LegacyProperties.QuoteLoopReads | helpers/parser.py:68-81 | inside quotes, the scan decodes what `Raw.__str__` writes, up to the closing quote |
| LegacyProperties.QuoteLoopUnclosed | helpers/parser.py:78-79 | quoted text that runs to the end raises `missing closing "` |
| LegacyProperties.QuotedReads | helpers/parser.py:58-81 | `get_token_quoted` returns the text serialised between the quotes, without lookups |
| LegacyProperties.TokenLoopReads | helpers/parser.py:93-105 | outside quotes, the scan decodes serialised text without spaces |
| LegacyProperties.TokenReads | helpers/parser.py:84-106 | `get_token` on serialised text without spaces gives the text back and the rest with leading spaces stripped |
| LegacyProperties.QuotedTokenReads | helpers/parser.py:84-106 | `get_token` on a quoted serialised text gives the text back, whatever it holds |
| LegacyProperties.TokenUnclosedQuote | helpers/parser.py:78-79 | an unclosed quote in a token raises `missing closing "` |
| LegacyProperties.TokenUnclosedRef | helpers/parser.py:24-25 | an unclosed reference in a token raises "missing closing }" without a lookup |
| LegacyProperties.Field | helpers/parser.py:93-105 | the leading field is the longest space-free prefix |
| LegacyProperties.Fields | helpers/parser.py:109-118 | the reference fields are non-empty and space-free |
| LegacyProperties.TokenPlain | helpers/parser.py:84-106 | on a command without `"`, `$` or `\`, `get_token` reads the leading field without lookups |
| LegacyProperties.FieldsLStrip | helpers/parser.py:115 | leading spaces do not change the fields |
| LegacyProperties.FieldsRStrip | helpers/parser.py:115 | trailing spaces do not change the fields |
| LegacyProperties.ParseLoopPlain | helpers/parser.py:116-118 | the generator's loop yields the fields of a plain command |
| LegacyProperties.ParsePlain | helpers/parser.py:109-118 | `parse` on a plain command yields exactly its maximal runs of non-spaces, without lookups and without error |
| LegacyProperties.FieldsJoin | helpers/parser.py:109-118 | fields joined by spaces are read back as those fields |
| LegacyProperties.FirstUnbound | helpers/parser.py:27 | the first name without a value: all names before it have values |
| LegacyProperties.TokenRefsBound | helpers/parser.py:97-99 | over bound references, the token loop substitutes each value and looks up each name, in order |
| LegacyProperties.TokenRefsUnbound | helpers/parser.py:97-99 | over references with an unbound name, the loop raises its error after looking up exactly the names up to it |
| LegacyProperties.CallbackOrder | helpers/parser.py:84-106 | on `${n1}${n2}...` the callback is called once per name, left to right; the token is the values' concatenation, or the first failure is raised and no later name is looked up |
| Texts.LStrip | helpers/parser.py:106 | `lstrip(' ')` removes exactly the leading spaces |
| Texts.RStrip | helpers/parser.py:115 | `rstrip(' ')` removes exactly the trailing spaces |
| Texts.SplitPiecesFree | helpers/runner.py:77 | no piece of `split(':')` holds the separator |
| Texts.JoinSplit | helpers/runner.py:77 | joining the pieces of a split gives the text back |
| Texts.SplitJoin | helpers/runner.py:77 | splitting separator-free pieces joined by the separator gives the pieces back |
| Texts.SplitThree | helpers/runner.py:77-78 | three separator-free pieces joined by the separator split into exactly those three |
| Decimal.NatText | helpers/colors.py:12 | the decimal text of a natural is non-empty digits |
| Decimal.ParseInt | helpers/runner.py:73 | `int()` raises only `ValueError` |
| Decimal.ParseDec | helpers/colors.py:12-18 | `int()` reads back the decimal text of any integer |
| Decimal.DecCharacters | helpers/colors.py:12 | the decimal text holds only digits and a leading minus |
| Colors.Reset | helpers/colors.py:1-2 | `reset()` is ESC `[39m` |
| Colors.Number | helpers/colors.py:15-18 | `number(n)` succeeds iff 0 ≤ n ≤ 255, with ESC `[38;5;n m`; otherwise it raises "invalid color number" |
| Colors.Rgb | helpers/colors.py:5-12 | `rgb` succeeds iff all three components are in range; the error names the first component out of range, checking red, then green, then blue |
| Colors.NumberReadsBack | helpers/colors.py:15-18 | the palette index can be read back from the text of `number(n)` |
| Colors.NumberInjective | helpers/colors.py:15-18 | distinct palette indexes give distinct strings |
| Colors.RgbReadsBack | helpers/colors.py:5-12 | the three components can be read back from the text of `rgb(r, g, b)` |
| Runtime.Resolve | helpers/runner.py:65-87 | `get_variable` raises only "variable … not found"; `RESET` is `reset()` for any environment; an ordinary name succeeds iff bound, with its value |
| Runtime.Dispatch | helpers/runner.py:42-46 | no arguments raises `IndexError`; the first argument selects a command iff it is registered; otherwise "invalid command …" is raised |
| Runtime.RegistryContents | helpers/runner.py:26-34 | the table holds exactly `ask`, `command`, `echo`, `file` and `set`, with no two sharing a name |
| Runtime.DispatchRegistered | helpers/runner.py:43-44 | every registered name dispatches to its command, whatever arguments follow |
| Runtime.Runner.constructor | helpers/runner.py:19-25 | a new runner has no variables |
| Runtime.Runner.SetVariable | helpers/runner.py:57-63 | the binding is added or replaced, and an ordinary name then reads back as the value |
| Runtime.Runner.GetVariable | helpers/runner.py:65-87 | the method returns `Resolve` of the current bindings and changes nothing |
| Runtime.ResolveAfterSet | helpers/runner.py:57-87 | after `set_variable(n, v)`, an ordinary `n` reads as `v`, and every other name reads as before |
| Runtime.ColorIgnoresBindings | helpers/runner.py:71-87 | what a `COLOR:` name yields does not depend on the environment |
| Runtime.ParsedNoColon | helpers/runner.py:73 | a text `int()` accepts holds no `:` |
| Runtime.ColonNotParsed | helpers/runner.py:73-77 | a text holding `:` is rejected by `int()`, so the three-component form is tried |
| Runtime.ColorNumber | helpers/runner.py:71-75 | `COLOR:` and a text `int()` reads as 0..255 gives `number(n)` |
| Runtime.ColorNumberDec | helpers/runner.py:71-75 | the name `COLOR:{n}` gives `number(n)` |
| Runtime.ColorRgb | helpers/runner.py:77-81 | `COLOR:r:g:b`, with three texts `int()` reads as in-range components, gives `rgb(r, g, b)` |
| Runtime.ColorRgbDec | helpers/runner.py:77-81 | the name `COLOR:{r}:{g}:{b}` gives `rgb(r, g, b)` |
| Runtime.ResolvedColorText | helpers/runner.py:71-87 | a `COLOR:` name that resolves has a palette index or three in-range components as its payload |
| Runtime.ComponentsResolve | helpers/runner.py:77-81 | a payload cut by two `:` into three in-range components resolves |
| Runtime.ColorResolves | helpers/runner.py:71-87 | `COLOR:t` resolves iff `t` is a palette index in range or three `:`-separated components in range; every other `COLOR:` name is "variable … not found" |
| Runtime.ColorNameNotFound | helpers/runner.py:71-87 | a `COLOR:` name whose payload is neither form is not found, even when the environment binds that very name |
| Runtime.ColorNameRows | helpers/runner.py:71-87 | `COLOR:red`, `COLOR:-1`, `COLOR:1:2:300` and `COLOR:1:2` are not found |
| Runtime.ColorOutOfRange | helpers/runner.py:72-75 | an index above 255 is reported as not found, not as a colour error |

## Left out

- `Node.apply` (word.py:7-11, parsing/parser.py:7-11) looks methods up by class name through reflection. The model matches on the datatypes instead.
- The `__repr__` and `__ne__` methods, and `LexerError.__str__`, only format or negate. `__eq__` is Dafny's structural equality on the datatypes, except `Token.__eq__`, which is modelled.
- helpers/parsing/characters.py is not part of this model. `is_whitespace` and `is_special` are taken from their copies at lexer.py:5-10.
- The lexer's file is modelled as the list of strings that `readline` returns. The lemmas that run to the end of the file require, through `LexerProperties.IsFile`, that none of them is empty, because a real `readline` returns `""` only at the end of the file.
- The parser is modelled over the token-list lexer of parser_test.py. Nothing here connects it to the real `Lexer`.
- `Words.ParseVariable`, `Words.ParseQuoted`, `LegacyParser.GetVariable` and `LegacyParser.GetTokenQuoted`, with their specification functions, require the cursor to be on the opening character. Every caller in the source calls them only there.
- Decimal.ParseInt: Python's `int()` also accepts surrounding whitespace, underscores between digits and non-ASCII digits. The model accepts an optional sign followed by ASCII digits only.
- The `ValueError` message of `int()` is a placeholder. The runner never shows it, because it only catches it.
- Runtime.Dispatch: only the lookup of `__call__` is modelled. The argument parsing with argparse and the call of the command are not, and neither are the command bodies in helpers/commands/*.py (input, subprocesses and file copies). The `set` command's body is one `set_variable` call, which `Runtime.Runner.SetVariable` covers.
- `Runner.get_directory` returns the `directory` given to the constructor. The model keeps that field and has no member for the getter.
- helpers/commands.py, helpers/setups.py, helpers/argparse.py, script.py and commands/*.py are command-line plumbing and are outside the model.
- The variables callback of helpers/parser.py is modelled as a pure function from a name to a value or an error, and only `ValueError` and `IndexError` are modelled. A Python callable may keep state between calls or raise any exception; the model records only the order of the calls, in the lookups log.
- Lexing.EatOnceSpec: the source's `eat_once` calls itself once for each blank or comment-only line it skips (lexer.py:149), so Python raises `RecursionError` after about a thousand such lines in a row. The model has no recursion limit, and `EatOnceSpec` and `LexerProperties.BlankRestEnds` skip any number of them.
- LegacyProperties.CallbackOrder covers references written outside quotes. The same order inside quotes follows the same step lemmas, but it is not stated as a lemma.
- LegacyProperties.ParsePlain covers commands without `"`, `$` or `\`. For other commands, the token-level lemmas (`TokenReads`, `QuotedTokenReads`, `CallbackOrder`) say what each `get_token` call returns.

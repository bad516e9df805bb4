# A verified model of the schedule reader and writers of `inf_lab_4`

The program converts a weekly timetable between text formats. A
**schedule** holds a list of **days**. Each day has a name and a list of
**lessons**. Each lesson has six string fields: time, subject, teacher,
room, building and type.

This project models three pieces of the program as pure Dafny functions and
proves their properties.

1. **The reader of the RON-like notation** (`ParseRON`). It has three stages:
   - a byte-level **tokenizer**. It skips whitespace, `//` comments and
     `/* */` comments. It reads double-quoted strings with backslash
     escapes, identifiers, and the six punctuation bytes `( ) [ ] : ,`.
   - a recursive-descent **parser** over the tokens. Its grammar is
     `Value := String | Ident '(' Fields? ')' | '[' Values? ']'`, and both
     lists allow one trailing comma.
   - a **materializer**. It turns each record into a `Schedule`, `Day` or
     `Lesson` as soon as the record's `)` is read.
2. **The TOML writer**: `escapeTomlString` and `WriteTOML`.
3. **The XML writer**: `escapeXML` and `WriteXML`.

Bytes are `char`s whose codes stand for byte values, so literals such as
`"Schedule"` read naturally. Byte strings are `seq<char>`. Every stage
returns a `Result` whose error variant carries the data of the Go program's
error message.

Files:
- `bytes.dfy`, `results.dfy`, `schedule.dfy`, `values.dfy`: the data model.
- `lexer.dfy`: the tokenizer.
- `lexspec.dfy`: reference definitions of a string literal's decoding and
  of the trivia between tokens, with the proofs that the tokenizer agrees.
- `lexshift.dfy`, `lextrivia.dfy`, `lexfacts.dfy`: facts about the tokenizer.
- `parser.dfy`, `materializer.dfy`, `reader.dfy`: the parser, the
  materializer and the entry point.
- `parsefacts.dfy`: facts about the parser.
- `rondoc.dfy`, `ronschedule.dfy`, `ronfacts.dfy`: documents as trees, and
  what the parser computes for their token streams.
- `ronread.dfy`: the converse: every token stream the parser accepts
  spells a document, and the parser's value is that document's meaning.
- `rontext.dfy`: a reference writer for the notation, and the end-to-end
  round trip.
- `text.dfy`, `toml.dfy`, `xml.dfy`: `strings.ReplaceAll`, the line view of
  `Fprintln` output, and the two writers.

How each stage is checked:
- **The RON reader.** It is checked against a reference writer. A document
  tree (`RonDocs.Doc`) has
  - a token stream (`RonDocs.Emit`), and
  - a meaning (`RonDocs.Eval`): the value the parser must build, or the
    first error in reading order.

  The parser computes that meaning on every token stream that spells the
  document. Conversely, every stream the parser accepts spells a document
  whose meaning is the value built. A schedule written out as text (`RonText.RonText`) reads back
  as that schedule.
- **Each escape function** is proved equal to a per-byte reference map. The
  XML escape is also inverted by an entity decoder. The TOML escape is
  inverted by the RON string lexer.
- **Each writer** is related to the line structure of its output.

## Model

| member | source | states |
|---|---|---|
| Lexer.PunctKind | inf_lab_4/internal/parserRON/parserRON.go:207-223 | Each of `( ) [ ] : ,` is punctuation of its own kind: `(` is LParen, `)` RParen, `[` LBrack, `]` RBrack, `:` Colon and `,` Comma. No other byte is punctuation, and no punctuation kind is EOF, identifier or string. |
| Lexer.SkipWhitespace | inf_lab_4/internal/parserRON/parserRON.go:84-93 | Skips exactly a run of space, tab, LF and CR, and stops at the end or at the first other byte. |
| Lexer.SkipLineComment | inf_lab_4/internal/parserRON/parserRON.go:103-107 | A `//` comment runs up to the next newline, which it does not consume, or to the end of input. |
| Lexer.SkipBlockBody | inf_lab_4/internal/parserRON/parserRON.go:110-119 | A block comment ends just after its first `*/`. Without a terminator it stops one byte before the end of input, because the loop runs only while two bytes remain. When the opener is the input's last two bytes, it stops at the end. |
| Lexer.CommentEnd | inf_lab_4/internal/parserRON/parserRON.go:103-122 | The cursor moves forward exactly when a `//` or `/*` opens at it. |
| Lexer.SkipTrivia | inf_lab_4/internal/parserRON/parserRON.go:95-124 | Stops inside the input, at or after the cursor, where neither whitespace nor a comment starts. What it skips is stated by `LexSpec.SkipTriviaSpan`. |
| Lexer.ReadStringBody | inf_lab_4/internal/parserRON/parserRON.go:134-168 | A success ends just past a closing quote, with decoded text shorter than the span it read. The only errors are "end after backslash" and an unclosed string reported at the input's length. The decoded text is stated by `LexSpec.ReadBodyMeaning`. |
| Lexer.ReadString | inf_lab_4/internal/parserRON/parserRON.go:126-169 | A success spans from an opening quote to a closing quote. An unclosed string is reported at the input's length, not at its start. The "expected quote" error happens exactly when no quote is under the cursor. |
| Lexer.ReadIdent | inf_lab_4/internal/parserRON/parserRON.go:171-182 | Reads the maximal run of letter, digit and `_` bytes. |
| Lexer.UnescapeByte | inf_lab_4/internal/parserRON/parserRON.go:143-156 | After a backslash, `n`, `t` and `r` stand for LF, TAB and CR. Every other byte, the quote and the backslash among them, stands for itself. |
| Lexer.TokenAt | inf_lab_4/internal/parserRON/parserRON.go:187-222 | The token that starts exactly at an offset with no trivia before it. An EOF token sits at the end of input. Any other token sits at that offset and ends inside the input; a non-string token's text is the input slice it spans, and an identifier is a maximal run that starts with a letter or `_`. An "unexpected character" error names the byte at that same offset, which starts no token. |
| Lexer.TokenAtMeaning | inf_lab_4/internal/parserRON/parserRON.go:187-222 | At the end of input, and only there, the token is EOF at that offset. Otherwise the byte at the offset fixes the kind: the token is a string exactly when the byte is `"`, and then it holds the decoded body and ends where the body reader stops; it is an identifier exactly when the byte can start one; otherwise it is the one-byte token of that punctuation byte's own kind. An error is either the string body's own error after a quote or an "unexpected character". |
| Lexer.NextToken | inf_lab_4/internal/parserRON/parserRON.go:184-224 | Skips trivia, then reads the token at the first offset that is not trivia. An EOF token sits at the input's length. Any other token lies at or after the cursor and inside the input; a non-string token's text is the input slice it spans, and an identifier is a maximal run that starts with a letter or `_`. An "unexpected character" error names, at its own offset, a byte that starts no token. |
| Lexer.NextTokenMeaning | inf_lab_4/internal/parserRON/parserRON.go:184-224 | The result is EOF at the input's length exactly when only trivia remains. Otherwise the token sits at the first offset after the trivia, and the byte there fixes its kind: `"` gives a string holding the decoded body, an identifier start an identifier, and a punctuation byte its own one-byte kind. An error is the string body's error or an "unexpected character" at that offset. |
| Lexer.TokenizeIsWellLexed | inf_lab_4/internal/parserRON/parserRON.go:226-239 | A successful tokenization of the whole input is well lexed: no EOF token, strictly increasing offsets inside the input, and every identifier or punctuation token equal to the input slice at its offset. |
| LexSpec.ReadBodyMeaning | inf_lab_4/internal/parserRON/parserRON.go:134-168 | Reading a string body from an offset returns `s` and stops at `next` exactly when the byte before `next` is a quote and the bytes between spell `s` as raw bytes other than quote and backslash, and backslash pairs that decode through `UnescapeByte`. |
| LexSpec.ReadPieces | inf_lab_4/internal/parserRON/parserRON.go:134-168 | A body spelled by such pieces and closed by a quote is read as the pieces' decoded bytes, and reading stops just past the quote. |
| LexSpec.PiecesOfRead | inf_lab_4/internal/parserRON/parserRON.go:134-168 | Every body the tokenizer reads successfully is, up to its closing quote, spelled by such pieces, and the text it returns is their decoding. |
| LexSpec.SkipTriviaSpan | inf_lab_4/internal/parserRON/parserRON.go:95-124 | The bytes skipped before a token are whitespace and whole comments, one after another: line comments up to a newline or the end, block comments up to their first `*/`, and an unterminated block comment up to one byte before the end, or up to the end when its opener is the input's last two bytes. Where the skipping stops, neither whitespace nor a comment starts. |
| Lexer.TokenizeWellLexed | inf_lab_4/internal/parserRON/parserRON.go:226-239 | A successful tokenization holds no EOF token. Its offsets strictly increase and lie inside the input, and every identifier or punctuation token equals the input slice at its offset. |
| LexShift.TokenizeFromShift | inf_lab_4/internal/parserRON/parserRON.go:184-239 | Tokenizing a text placed at offset `d` of a larger input gives the same tokens, or the same error, with every offset moved by `d`. |
| LexTrivia.TriviaInsertion | inf_lab_4/internal/parserRON/parserRON.go:95-124 | Inserts whitespace, a closed block comment, or a newline-terminated line comment where the tokenizer resumes. The tokens before that point are unchanged. The tokens, or the error, after it are the same, shifted by the inserted length. |
| LexTrivia.TriviaInsertionLexemes | inf_lab_4/internal/parserRON/parserRON.go:95-124 | Under the same insertion, tokenizing succeeds exactly when it did before, with the same token kinds and values. |
| LexFacts.UnclosedAtEnd | inf_lab_4/internal/parserRON/parserRON.go:168 | Wherever it occurs, an unclosed string is reported at the input's length. |
| LexFacts.Unclosed | inf_lab_4/internal/parserRON/parserRON.go:134-168 | A string body with neither a quote nor a backslash is an unclosed-string error at the input's length. |
| LexFacts.BackslashAtEnd | inf_lab_4/internal/parserRON/parserRON.go:137-141 | The "end after backslash" error happens only when the input's last byte is a backslash. |
| LexFacts.EndsInBackslash | inf_lab_4/internal/parserRON/parserRON.go:137-141 | A string body of plain bytes that ends in a lone backslash gives the "end after backslash" error. |
| LexFacts.Unexpected | inf_lab_4/internal/parserRON/parserRON.go:207-222 | A byte that is not a quote, not an identifier start and not punctuation is an "unexpected character" error at its offset. This is the converse of the NextToken contract. |
| LexFacts.DigitStart | inf_lab_4/internal/parserRON/parserRON.go:202-222 | A token cannot start with a digit: it is an "unexpected character" error at that offset. |
| LexFacts.UnexpectedCharAt | inf_lab_4/internal/parserRON/parserRON.go:184-239 | Every "unexpected character" error of a whole tokenization names a byte at its own offset. That byte is not whitespace and starts no token. |
| LexFacts.UnterminatedComment | inf_lab_4/internal/parserRON/parserRON.go:110-119 | An unterminated `/*` at the start of the input, with at least one byte after it, leaves the last input byte to be lexed. When that byte can start an identifier, the result is that one-byte identifier. |
| LexFacts.CommentThenX | inf_lab_4/internal/parserRON/parserRON.go:110-119 | An instance of `UnterminatedComment`: the input `/* x` tokenizes to the single identifier `x` at offset 3. |
| Parser.Peek | inf_lab_4/internal/parserRON/parserRON.go:253-258 | Past the last token, the parser sees an EOF token at offset 0. |
| Parser.Expect | inf_lab_4/internal/parserRON/parserRON.go:269-275 | Succeeds exactly when the token under the cursor has the wanted kind, and then advances by one. Otherwise it reports the wanted kind, the kind found and its offset. |
| Parser.ParseValue | inf_lab_4/internal/parserRON/parserRON.go:277-308 | A successful value consumes at least one token and stays inside the tokens. |
| Parser.ParseArray | inf_lab_4/internal/parserRON/parserRON.go:310-349 | A successful array consumes at least one token and yields an array value. |
| Parser.ParseElements | inf_lab_4/internal/parserRON/parserRON.go:323-348 | The element loop keeps the elements read so far as a prefix and adds at least one. |
| Parser.CloseArray | inf_lab_4/internal/parserRON/parserRON.go:343-348 | The final `]` is required, and the array holds the elements read. |
| Parser.ParseFields | inf_lab_4/internal/parserRON/parserRON.go:351-356 | A successful field list stops in front of a `)`, which is left for the caller. |
| Parser.ParseFieldList | inf_lab_4/internal/parserRON/parserRON.go:358-389 | The field loop keeps every key read so far and stops in front of a `)`. |
| Parser.Parse | inf_lab_4/internal/parserRON/parserRON.go:450-462 | Succeeds exactly when the root value is a Schedule. A root of another kind is rejected with that kind, and a failed root keeps its error. |
| Reader.ParseRon | inf_lab_4/internal/parserRON/parserRON.go:464-478 | A tokenizer error wins. Otherwise the result is the parser's result, each error wrapped by its stage. |
| Values.TagOf | inf_lab_4/internal/parserRON/parserRON.go:401 | The reported kind of a value names exactly its variant. |
| Materializer.FirstNonDay | inf_lab_4/internal/parserRON/parserRON.go:397-403 | Gives the first element that is not a Day, or the length when every element is a Day. |
| Materializer.CollectDays | inf_lab_4/internal/parserRON/parserRON.go:396-404 | Succeeds exactly when every element is a Day, and keeps them in order. Otherwise it reports the kind of the first non-Day. |
| Materializer.FirstNonLesson | inf_lab_4/internal/parserRON/parserRON.go:413-419 | Gives the first element that is not a Lesson, or the length when every element is a Lesson. |
| Materializer.CollectLessons | inf_lab_4/internal/parserRON/parserRON.go:412-420 | Succeeds exactly when every element is a Lesson, and keeps them in order. Otherwise it reports the kind of the first non-Lesson. |
| Materializer.Materialize | inf_lab_4/internal/parserRON/parserRON.go:392-448 | Names other than Schedule, Day and Lesson are errors. A Lesson never fails, and each field is the string given, or empty when absent or not a string. A Schedule or Day fails exactly when its array holds an element of the wrong kind; an absent or non-array field means no elements. |
| RonDocs.ParseEmitted | inf_lab_4/internal/parserRON/parserRON.go:277-390 | On any token stream that spells a document, the parser returns that document's meaning and stops just past it, whatever the offsets and whatever follows. |
| RonDocs.ElementsEmitted | inf_lab_4/internal/parserRON/parserRON.go:323-348 | The element loop reads the elements of a spelled array, with or without a trailing comma, in order. |
| RonDocs.FieldsEmitted | inf_lab_4/internal/parserRON/parserRON.go:358-389 | The field loop applies the fields of a spelled record left to right, with or without a trailing comma. |
| RonRead.ParseValueMeaning | inf_lab_4/internal/parserRON/parserRON.go:277-390 | The converse of `ParseEmitted`, for tokens whose punctuation carries its own text. The parser succeeds at an offset exactly when the tokens there spell a document whose meaning is defined. On success, some such document means the value built and ends where the parser stopped. |
| RonRead.ValueDoc | inf_lab_4/internal/parserRON/parserRON.go:277-308 | A successful parse of a value read the tokens of some document. The lemma builds that document by following the parser's branches. |
| RonRead.ElementsDoc | inf_lab_4/internal/parserRON/parserRON.go:323-348 | A successful element loop read one or more element documents with commas between them, an optional trailing comma, and the closing `]`. |
| RonRead.FieldListDoc | inf_lab_4/internal/parserRON/parserRON.go:358-389 | A successful field loop read one or more `name : document` fields with commas between them, and an optional trailing comma. It stopped in front of the `)`. |
| RonRead.TokenizeIsPunctText | inf_lab_4/internal/parserRON/parserRON.go:208-221 | Every punctuation token the tokenizer produces carries its own one-byte text. |
| RonRead.ScheduleMeaning | inf_lab_4/internal/parserRON/parserRON.go:450-462 | The parser's entry point returns a schedule exactly when the tokens start with the spelling of a document that means that schedule. |
| RonRead.ReaderAccepts | inf_lab_4/internal/parserRON/parserRON.go:464-478 | `ParseRON` returns a schedule exactly when the text tokenizes and its tokens start with the spelling of a document that means that schedule. |
| RonRead.RecordNeedsParen | inf_lab_4/internal/parserRON/parserRON.go:285-290 | A record name not followed by `(` fails with "expected `(`", giving the kind and offset of the token found instead. |
| RonRead.FieldNeedsColon | inf_lab_4/internal/parserRON/parserRON.go:363-368 | In any field of a record, a field name not followed by `:` fails with "expected `:`", giving the kind and offset of the token found. |
| RonRead.FirstFieldNeedsColon | inf_lab_4/internal/parserRON/parserRON.go:285-292 | The same, for the first field, seen from the record's value: `T(a` followed by anything but `:` fails with "expected `:`". |
| RonRead.ValueStart | inf_lab_4/internal/parserRON/parserRON.go:278-307 | A value that starts with anything but a string, an identifier or `[` fails with "unexpected token", giving that token's kind and offset. The end of the stream counts as an EOF token. |
| RonSchedule.EvalLessonDoc | inf_lab_4/internal/parserRON/parserRON.go:423-443 | A Lesson record with the six string fields means that lesson. |
| RonSchedule.EvalDayDoc | inf_lab_4/internal/parserRON/parserRON.go:407-421 | A Day record with a name and an array of lesson records means that day. |
| RonSchedule.EvalScheduleDoc | inf_lab_4/internal/parserRON/parserRON.go:394-405 | A Schedule record with an array of day records means that schedule. |
| RonSchedule.ParseScheduleTokens | inf_lab_4/internal/parserRON/parserRON.go:450-462 | Any token stream that spells a schedule's document parses to that schedule. |
| RonText.FirstToken | inf_lab_4/internal/parserRON/parserRON.go:184-224 | A quoted TOML-escaped string, an identifier or a punctuation byte, followed by a space, is read back as that one token. |
| RonText.TokenizeRender | inf_lab_4/internal/parserRON/parserRON.go:226-239 | Tokenizing writable lexemes, each followed by a space, and then any text gives the lexemes at their offsets, then that text's own tokens or error, shifted. |
| RonText.ParseRonTextThen | inf_lab_4/internal/parserRON/parserRON.go:464-478 | A schedule written in the notation, followed by any text that tokenizes, reads back as that schedule. |
| RonText.ParseRonText | inf_lab_4/internal/parserRON/parserRON.go:464-478 | A schedule written in the notation reads back as that schedule, with or without trailing commas. |
| ParseFacts.ValueEof | inf_lab_4/internal/parserRON/parserRON.go:253-258 | On tokens without EOF tokens, every parse error that met the end of input reports offset 0. |
| ParseFacts.ParseRonEof | inf_lab_4/internal/parserRON/parserRON.go:253-258 | For any input, a parsing error that met the end of input reports offset 0, not the input's length. |
| ParseFacts.ValueStable | inf_lab_4/internal/parserRON/parserRON.go:277-390 | A successfully read value depends only on the tokens it spans. |
| ParseFacts.TrailingIgnored | inf_lab_4/internal/parserRON/parserRON.go:450-462 | Tokens after the root value are never looked at. Replacing them leaves the result unchanged. |
| RonFacts.UnknownFails | inf_lab_4/internal/parserRON/parserRON.go:295-300 | A record with an unknown type name anywhere in a document fails the whole document. |
| RonFacts.ParseUnknownFails | inf_lab_4/internal/parserRON/parserRON.go:285-300 | On tokens: parsing a document that holds an unknown record fails. |
| RonFacts.IgnoredFieldStillFails | inf_lab_4/internal/parserRON/parserRON.go:423-446 | An instance: the record `Lesson(note: Note())` fails with "unknown type Note", although a Lesson ignores the field `note`. |
| RonFacts.DuplicateLastWins | inf_lab_4/internal/parserRON/parserRON.go:374 | Two fields with the same key in a row, after any fields: the record keeps the second value, and every other key keeps the value it had. |
| RonFacts.LaterDuplicateWins | inf_lab_4/internal/parserRON/parserRON.go:358-389 | A key given twice, with any fields before, between and after the two, keeps the second value, as long as no later field has the same key. |
| RonFacts.KeyKept | inf_lab_4/internal/parserRON/parserRON.go:358-389 | Fields with other keys leave a key's value as it was. |
| RonFacts.LeadingComma | inf_lab_4/internal/parserRON/parserRON.go:318-326 | `[` followed directly by `,` is an "unexpected token" error at the comma. |
| RonFacts.LeadingCommaInRecord | inf_lab_4/internal/parserRON/parserRON.go:354-362 | `T(` followed directly by `,` is an "expected field name" error at the comma. |
| RonFacts.DoubleComma | inf_lab_4/internal/parserRON/parserRON.go:329-335 | Only one trailing comma is allowed: `[v,,` fails at the second comma. |
| RonFacts.MissingSeparator | inf_lab_4/internal/parserRON/parserRON.go:336-340 | Two elements with no comma between them give an "expected ',' or ']'" error at the second element. |
| RonFacts.ElementThenOther | inf_lab_4/internal/parserRON/parserRON.go:336-340 | After an array's first element, any token other than a comma or `]`, whatever follows it, gives an "expected ',' or ']'" error naming that token's kind at its offset. |
| RonFacts.MissingFieldSeparator | inf_lab_4/internal/parserRON/parserRON.go:382-386 | Two fields with no comma between them give an "expected ',' or ')'" error at the second field name. |
| RonFacts.RootMustBeSchedule | inf_lab_4/internal/parserRON/parserRON.go:456-459 | A root string, array, Day or Lesson is rejected with its kind. |
| Text.ReplaceAll | inf_lab_4/internal/serializerTOML/serializerTOML.go:12-16 | Replacing a byte that does not occur changes nothing, and a non-empty replacement never shortens the text. |
| Text.ReplaceAllAppend | inf_lab_4/internal/serializerTOML/serializerTOML.go:12-16 | Replacement distributes over concatenation. |
| TomlWriter.EscapeByte | inf_lab_4/internal/serializerTOML/serializerTOML.go:11-18 | Each of the five special bytes becomes a backslash pair that the RON string lexer decodes back to it. Every other byte stays as it is. |
| TomlWriter.EscapeToml | inf_lab_4/internal/serializerTOML/serializerTOML.go:11-18 | `escapeTomlString` equals the per-byte map. Its output is never shorter than its input, and text without any of the five special bytes comes out unchanged. |
| TomlWriter.EscapeShape | inf_lab_4/internal/serializerTOML/serializerTOML.go:11-18 | The escaped text is well formed: every backslash starts one of the five two-byte escapes, and there is no raw quote, LF, CR or TAB. |
| TomlWriter.EscapeOneByte | inf_lab_4/internal/serializerTOML/serializerTOML.go:11-18 | The chain of five replacements applied to one byte gives that byte's escape, with no double escaping. |
| Text.ReplaceEachAppend | inf_lab_4/internal/serializerTOML/serializerTOML.go:11-18 | A chain of `ReplaceAll` calls, as both escape functions are written, distributes over concatenation. Each writer's chain is this one with its five pairs, by `TomlWriter.ChainIsEach` and `XmlWriter.ChainIsEach`. |
| TomlWriter.EscapeIsByteMap | inf_lab_4/internal/serializerTOML/serializerTOML.go:11-18 | The chain of `ReplaceAll` calls, backslash first, equals the per-byte map. |
| TomlWriter.EscapeReadRoundTrip | inf_lab_4/internal/serializerTOML/serializerTOML.go:11-18 | Lexing a quote, the escaped text and a quote gives back the original text and consumes exactly that span. |
| TomlWriter.WriteToml | inf_lab_4/internal/serializerTOML/serializerTOML.go:20-53 | A schedule with no days is written as the empty text. |
| TomlWriter.WriteTomlAppend | inf_lab_4/internal/serializerTOML/serializerTOML.go:21-51 | The output is the in-order concatenation of one block per day. |
| TomlWriter.KeyValue | inf_lab_4/internal/serializerTOML/serializerTOML.go:43 | A `key = "value"` line is the key, then ` = `, then a string literal that the RON tokenizer's string reader reads back as exactly the value, ending just before the final newline. The day's `name` line, at line 25, is written the same way. |
| TomlWriter.KeyValuesAsLines | inf_lab_4/internal/serializerTOML/serializerTOML.go:42-46 | The loop over the key-value pairs writes one `key = "value"` line per pair, in order, each followed by a newline. |
| TomlWriter.LessonTableAsLines | inf_lab_4/internal/serializerTOML/serializerTOML.go:29-46 | `LessonTable`, the text written for one lesson, is as a blank line, `[[days.lessons]]`, then six `key = "value"` lines in the order time, subject, teacher, room, building, type. |
| TomlWriter.DayBlockAsLines | inf_lab_4/internal/serializerTOML/serializerTOML.go:22-50 | `DayBlock`, the text written for one day, is as `[[days]]`, its `name` line, its lessons' lines and a final blank line. |
| TomlWriter.KeyValueLineSingle | inf_lab_4/internal/serializerTOML/serializerTOML.go:43 | A `key = "value"` line never holds a newline, because the escape removes them. |
| TomlWriter.WriteTomlLines | inf_lab_4/internal/serializerTOML/serializerTOML.go:20-53 | Split at newlines, the output is exactly the template's lines, day by day, for every schedule. |
| TomlWriter.WriteTomlHeaderCounts | inf_lab_4/internal/serializerTOML/serializerTOML.go:22-29 | There are as many `[[days]]` lines as days, and as many `[[days.lessons]]` lines as lessons in total. |
| XmlWriter.EscapeXmlByte | inf_lab_4/internal/serializerXML/serializerXML.go:11-18 | Each of the five markup characters becomes an entity from `&` to `;`. Every other character stays as it is. |
| XmlWriter.EscapeOneByte | inf_lab_4/internal/serializerXML/serializerXML.go:11-18 | The chain of five replacements applied to one character gives its escape, with no double escaping. |
| XmlWriter.EscapeAmp | inf_lab_4/internal/serializerXML/serializerXML.go:12 | `&` becomes `&amp;`. |
| XmlWriter.EscapeLt | inf_lab_4/internal/serializerXML/serializerXML.go:13 | `<` becomes `&lt;`, and its `&` is not escaped again. |
| XmlWriter.EscapeGt | inf_lab_4/internal/serializerXML/serializerXML.go:14 | `>` becomes `&gt;`, and its `&` is not escaped again. |
| XmlWriter.EscapeQuot | inf_lab_4/internal/serializerXML/serializerXML.go:15 | `"` becomes `&quot;`, and its `&` is not escaped again. |
| XmlWriter.EscapeApos | inf_lab_4/internal/serializerXML/serializerXML.go:16 | `'` becomes `&apos;`, and its `&` is not escaped again. |
| XmlWriter.EscapeIsByteMap | inf_lab_4/internal/serializerXML/serializerXML.go:11-18 | The chain of `ReplaceAll` calls, ampersand first, equals the per-character map. |
| XmlWriter.EscapeXml | inf_lab_4/internal/serializerXML/serializerXML.go:11-18 | `escapeXML` equals the per-character map, and decoding the five entities recovers the input exactly. The output holds no `<`, `>`, `"` or `'`, every `&` in it starts one of the five entities, and it holds a newline only where the input did. Text free of the five markup characters is left unchanged. |
| XmlWriter.DocumentLines | inf_lab_4/internal/serializerXML/serializerXML.go:20-71 | The printed lines start with the declaration and `<schedule>` and end with `</schedule>`. With no days, those three lines are all of them. |
| XmlWriter.WriteXml | inf_lab_4/internal/serializerXML/serializerXML.go:20-71 | The output starts with the declaration line and `<schedule>`, and ends with `</schedule>`. With no days, it is exactly those three lines. |
| XmlWriter.DaysLinesAppend | inf_lab_4/internal/serializerXML/serializerXML.go:28-65 | The days are printed one after another, in order. |
| XmlWriter.WriteXmlLines | inf_lab_4/internal/serializerXML/serializerXML.go:20-71 | When no field holds a newline, the output split at newlines is exactly the template's lines, including the six-space `</lesson>` under the four-space `<lesson>`. |
| XmlWriter.WriteXmlElementCounts | inf_lab_4/internal/serializerXML/serializerXML.go:28-58 | When no field holds a newline, there are as many `<day>` lines as days and as many `<lesson>` lines as lessons in total. |

## Left out

- I/O. `WriteTOML` and `WriteXML` are modelled as functions that return the
  text they write, so the propagation of `io.Writer` errors is not modelled.
- Other files:
  - `cmd/main.go` (file handling, `panic` paths and benchmarking) is not
    part of this model.
  - The two library wrappers, `parserJSONWithLib.go` and
    `serializerTOMLWithLib.go`, are not part of this model: they only call
    `encoding/json` and an outside TOML encoder.
  - `PrintSchedule` only writes to the console, and `TokenType.String` only
    formats messages.
- Error messages. They are modelled as one variant per message, carrying
  the message's data. A `%T` type name is a five-way tag, and the text
  itself is not modelled.
- Pointers. The Go program's `*Schedule`, `*Day` and `*Lesson` pointers are
  plain values here. No code compares them by identity.
- The tokenizer's `peek` and `advance`. Their "0 past the end" answer is
  folded into explicit bounds checks at each use.
- Non-byte characters. A byte is a `char` whose code is the byte's value. A
  character above 255, which no Go byte string holds, is allowed by the
  type and is classified as neither a letter nor a digit.
- Text.ReplaceAll: only a one-byte needle is modelled, since every call in
  the two escape functions uses one.
- Lexer.TokenizeFrom: the function has no contract of its own. Its promise
  is the lemma `Lexer.TokenizeWellLexed`.
- Lexer.Tokenize: the function has no contract of its own. Its promise is
  the lemma `Lexer.TokenizeIsWellLexed`, and its meaning on written text is
  `RonText.TokenizeRender`.
- Parser.ParseValue: its own contract gives only bounds. What it computes
  is stated by `RonDocs.ParseEmitted` and, conversely, by
  `RonRead.ParseValueMeaning`.
- RonRead.ParseValueMeaning: it covers token streams whose punctuation
  tokens carry their own one-byte text (`RonRead.PunctText`). The tokenizer
  produces only such streams (`RonRead.TokenizeIsPunctText`). A hand-built
  stream holding, say, an LParen token with other text parses the same way
  but spells no document.
- Lexer.SkipTrivia: its own contract gives only where skipping stops. What
  it skips is the lemma `LexSpec.SkipTriviaSpan`.
- Lexer.ReadStringBody: its own contract gives bounds and the error cases.
  The decoded text is the lemma `LexSpec.ReadBodyMeaning`.
- Lexer.ReadString: its own contract gives bounds and the error cases. The
  decoded text is `LexSpec.ReadBodyMeaning`, applied one byte past the
  opening quote.
- LexTrivia.TriviaInsertion: one piece of trivia at a time, and only at an
  offset before the end of input.
- XmlWriter.WriteXmlLines and XmlWriter.WriteXmlElementCounts: both require
  that no field holds a newline. The XML escape keeps newlines, so otherwise
  one field can span several lines. The exact byte layout for every
  schedule is `XmlWriter.WriteXml`, defined as the printed lines joined
  with newlines.
- The reference writer for the notation (`RonDocs.Emit`, `RonText.Render`,
  `RonText.RonText`). It is not a function of the program. It exists only to
  state the round trip, and it writes every lexeme followed by one space.

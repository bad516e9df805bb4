/** The hand-written TOML writer: an escape function for basic strings and a
    fixed template that writes one `[[days]]` table per day and one
    `[[days.lessons]]` table per lesson. The writer is a pure function from a
    schedule to the text it writes. */
module TomlWriter {
  import opened Bytes
  import opened Schedules
  import opened Text
  import Lexer
  import opened Results

  /** `escapeTomlString`: the per-byte escape, never shorter than the
      input, and equal to the input when no special byte occurs. */
  function EscapeToml(s: Bytes): (r: Bytes)
    ensures r == EscapeMap(s)
    ensures |r| >= |s|
    ensures (forall k :: 0 <= k < |s| ==> !IsSpecial(s[k])) ==> r == s
  {
    EscapeIsByteMap(s);
    EscapeMapShape(s);
    EscapeMapIdentity(s);
    ReplaceChain(s)
  }

  /** The body of `escapeTomlString`: five `ReplaceAll` calls, backslash
      first. */
  function ReplaceChain(s: Bytes): Bytes
  {
    var s1 := ReplaceAll(s, '\\', "\\\\");
    var s2 := ReplaceAll(s1, '"', "\\\"");
    var s3 := ReplaceAll(s2, '\n', "\\n");
    var s4 := ReplaceAll(s3, '\r', "\\r");
    ReplaceAll(s4, '\t', "\\t")
  }

  /** The five bytes the escape rewrites. */
  predicate IsSpecial(c: Byte) {
    c == '\\' || c == '"' || c == '\n' || c == '\r' || c == '\t'
  }

  /** The escape of one byte: a backslash pair for the five special bytes,
      the byte itself otherwise. */
  function EscapeByte(c: Byte): (r: Bytes)
    ensures IsSpecial(c) ==> |r| == 2 && r[0] == '\\' && Lexer.UnescapeByte(r[1]) == c
    ensures !IsSpecial(c) ==> r == [c]
  {
    match c
    case '\\' => "\\\\"
    case '"' => "\\\""
    case '\n' => "\\n"
    case '\r' => "\\r"
    case '\t' => "\\t"
    case _ => [c]
  }

  /** The per-byte reference definition of the escape. */
  function EscapeMap(s: Bytes): Bytes
  {
    if s == [] then [] else EscapeByte(s[0]) + EscapeMap(s[1..])
  }

  /** The chain of replacements applied to a single byte. */
  lemma EscapeOneByte(c: Byte)
    ensures ReplaceChain([c]) == EscapeByte(c)
  {
    var s1 := ReplaceAll([c], '\\', "\\\\");
    var s2 := ReplaceAll(s1, '"', "\\\"");
    var s3 := ReplaceAll(s2, '\n', "\\n");
    var s4 := ReplaceAll(s3, '\r', "\\r");
    assert [c][1..] == [];
    if c == '\\' {
      assert s1 == ['\\', '\\'];
      assert s1[1..] == ['\\'] && s1[1..][1..] == [];
      assert s2 == s1;
      assert s3 == s2;
      assert s4 == s3;
    } else if c == '"' {
      assert s1 == [c];
      assert s2 == ['\\', '"'];
      assert s2[1..] == ['"'] && s2[1..][1..] == [];
      assert s3 == s2;
      assert s4 == s3;
    } else if c == '\n' {
      assert s1 == [c] && s2 == [c];
      assert s3 == ['\\', 'n'];
      assert s3[1..] == ['n'] && s3[1..][1..] == [];
      assert s4 == s3;
    } else if c == '\r' {
      assert s1 == [c] && s2 == [c] && s3 == [c];
      assert s4 == ['\\', 'r'];
      assert s4[1..] == ['r'] && s4[1..][1..] == [];
    } else if c == '\t' {
      assert s1 == [c] && s2 == [c] && s3 == [c] && s4 == [c];
    } else {
      assert s1 == [c] && s2 == [c] && s3 == [c] && s4 == [c];
    }
  }

  /** The chain as a list of (needle, replacement) pairs. */
  const Replacements: seq<(Byte, Bytes)> := [('\\', "\\\\"), ('"', "\\\""), ('\n', "\\n"), ('\r', "\\r"), ('\t', "\\t")]

  lemma ChainIsEach(s: Bytes)
    ensures ReplaceChain(s) == ReplaceEach(s, Replacements)
  {
  }

  /** `escapeTomlString` equals the per-byte map: backslash first means no
      byte a replacement inserts is rewritten again. */
  lemma {:induction false} EscapeIsByteMap(s: Bytes)
    ensures ReplaceChain(s) == EscapeMap(s)
  {
    if s == [] {
    } else {
      assert s == [s[0]] + s[1..];
      ChainIsEach(s);
      ChainIsEach([s[0]]);
      ChainIsEach(s[1..]);
      ReplaceEachAppend([s[0]], s[1..], Replacements);
      EscapeOneByte(s[0]);
      EscapeIsByteMap(s[1..]);
    }
  }

  /** The shape of escaped text: a backslash always starts one of the five
      two-byte escapes, and no special byte appears on its own. */
  predicate WellEscaped(e: Bytes)
    decreases |e|
  {
    if e == [] then true
    else if e[0] == '\\' then
      |e| >= 2 && e[1] in {'\\', '"', 'n', 'r', 't'} && WellEscaped(e[2..])
    else !IsSpecial(e[0]) && WellEscaped(e[1..])
  }

  /** The escaped text is well formed and holds no raw newline, carriage
      return or tab. */
  lemma EscapeShape(s: Bytes)
    ensures WellEscaped(EscapeToml(s))
    ensures forall k :: 0 <= k < |EscapeToml(s)| ==> EscapeToml(s)[k] !in {'\n', '\r', '\t'}
  {
    EscapeMapShape(s);
  }

  lemma {:induction false} EscapeMapShape(s: Bytes)
    ensures WellEscaped(EscapeMap(s))
    ensures forall k :: 0 <= k < |EscapeMap(s)| ==> EscapeMap(s)[k] !in {'\n', '\r', '\t'}
    ensures |EscapeMap(s)| >= |s|
  {
    if s != [] {
      EscapeMapShape(s[1..]);
      var e := EscapeMap(s);
      var rest := EscapeMap(s[1..]);
      if IsSpecial(s[0]) {
        assert e[2..] == rest;
      } else {
        assert e[1..] == rest;
      }
    }
  }

  lemma {:induction false} EscapeMapIdentity(s: Bytes)
    ensures (forall k :: 0 <= k < |s| ==> !IsSpecial(s[k])) ==> EscapeMap(s) == s
  {
    if s != [] {
      EscapeMapIdentity(s[1..]);
    }
  }

  /** The tokenizer's string reader inverts the escape: reading from the
      first byte of `esc(s)` decodes `s` and stops just past the quote that
      follows. */
  lemma {:induction false} ReadEscapedBody(input: Bytes, pos: nat, s: Bytes)
    requires pos + |EscapeMap(s)| < |input|
    requires input[pos..pos + |EscapeMap(s)|] == EscapeMap(s)
    requires input[pos + |EscapeMap(s)|] == '"'
    ensures Lexer.ReadStringBody(input, pos) == Ok((s, pos + |EscapeMap(s)| + 1))
    decreases |s|
  {
    if s != [] {
      EscapedTail(input, pos, s);
      ReadEscapedBody(input, pos + |EscapeByte(s[0])|, s[1..]);
      ReadEscapedStep(input, pos, s, pos + |EscapeMap(s)| + 1);
    }
  }

  /** Where the escape of `s` is held, the escape of its first byte is held
      first and the escape of the rest right after. */
  lemma EscapedTail(input: Bytes, pos: nat, s: Bytes)
    requires s != [] && pos + |EscapeMap(s)| <= |input|
    requires input[pos..pos + |EscapeMap(s)|] == EscapeMap(s)
    ensures var q := pos + |EscapeByte(s[0])|;
      && q + |EscapeMap(s[1..])| == pos + |EscapeMap(s)|
      && input[q..q + |EscapeMap(s[1..])|] == EscapeMap(s[1..])
    ensures input[pos..pos + |EscapeByte(s[0])|] == EscapeByte(s[0])
  {
    EscapeMapCons(s);
    SliceSplit(input, pos, EscapeMap(s), EscapeByte(s[0]), EscapeMap(s[1..]));
  }

  lemma EscapeMapCons(s: Bytes)
    requires s != []
    ensures EscapeMap(s) == EscapeByte(s[0]) + EscapeMap(s[1..])
  {
  }

  /** One byte of the escape read back, given the rest read back. */
  lemma ReadEscapedStep(input: Bytes, pos: nat, s: Bytes, next: nat)
    requires s != [] && pos + |EscapeByte(s[0])| <= |input|
    requires input[pos..pos + |EscapeByte(s[0])|] == EscapeByte(s[0])
    requires Lexer.ReadStringBody(input, pos + |EscapeByte(s[0])|) == Ok((s[1..], next))
    ensures Lexer.ReadStringBody(input, pos) == Ok((s, next))
  {
    var c, head := s[0], EscapeByte(s[0]);
    assert input[pos] == input[pos..pos + |head|][0] == head[0];
    if IsSpecial(c) {
      assert input[pos + 1] == input[pos..pos + |head|][1] == head[1];
      ReadBodyEscaped(input, pos, c, s[1..], next);
    } else {
      ReadBodyPlain(input, pos, c, s[1..], next);
    }
    assert [c] + s[1..] == s;
  }

  /** One escaped byte, then the rest of the string body. */
  lemma ReadBodyEscaped(input: Bytes, pos: nat, c: Byte, rest: Bytes, next: nat)
    requires IsSpecial(c) && pos + 2 <= |input|
    requires input[pos] == '\\' && input[pos + 1] == EscapeByte(c)[1]
    requires Lexer.ReadStringBody(input, pos + 2) == Ok((rest, next))
    ensures Lexer.ReadStringBody(input, pos) == Ok(([c] + rest, next))
  {
  }

  /** One plain byte, then the rest of the string body. */
  lemma ReadBodyPlain(input: Bytes, pos: nat, c: Byte, rest: Bytes, next: nat)
    requires !IsSpecial(c) && pos + 1 <= |input| && input[pos] == c
    requires Lexer.ReadStringBody(input, pos + 1) == Ok((rest, next))
    ensures Lexer.ReadStringBody(input, pos) == Ok(([c] + rest, next))
  {
  }

  /** Round trip with the tokenizer: a double-quoted escaped string is read
      back as one string literal holding exactly `s`, spanning exactly the
      quoted text. */
  lemma EscapeReadRoundTrip(input: Bytes, pos: nat, s: Bytes)
    requires pos + |EscapeToml(s)| + 2 <= |input|
    requires input[pos..pos + |EscapeToml(s)| + 2] == "\"" + EscapeToml(s) + "\""
    ensures Lexer.ReadString(input, pos) == Ok((s, pos + |EscapeToml(s)| + 2))
  {
    var e := EscapeToml(s);
    QuotedAt(input, pos, e);
    EscapedBodyRead(input, pos + 1, s);
  }

  lemma EscapedBodyRead(input: Bytes, p: nat, s: Bytes)
    requires p + |EscapeToml(s)| < |input|
    requires input[p..p + |EscapeToml(s)|] == EscapeToml(s) && input[p + |EscapeToml(s)|] == '"'
    ensures Lexer.ReadStringBody(input, p) == Ok((s, p + |EscapeToml(s)| + 1))
  {
    ReadEscapedBody(input, p, s);
  }

  /** Where `input` holds `e` in double quotes: the two quotes and `e`
      between them. */
  lemma QuotedAt(input: Bytes, pos: nat, e: Bytes)
    requires pos + |e| + 2 <= |input|
    requires input[pos..pos + |e| + 2] == "\"" + e + "\""
    ensures input[pos] == '"' && input[pos + 1 + |e|] == '"'
    ensures input[pos + 1..pos + 1 + |e|] == e
  {
    var lit := input[pos..pos + |e| + 2];
    assert lit[0] == input[pos];
    assert lit[1 + |e|] == input[pos + 1 + |e|];
    forall k | 0 <= k < |e|
      ensures input[pos + 1..pos + 1 + |e|][k] == e[k]
    {
      assert lit[1 + k] == input[pos + 1 + k];
    }
  }

  /** One `key = "value"` line: the key, ` = `, then a basic string that
      reads back as the value, then a newline. */
  function KeyValue(key: Bytes, value: Bytes): (r: Bytes)
    ensures |r| > |key| + 3 && r[..|key| + 3] == key + " = " && r[|r| - 1] == '\n'
    ensures Lexer.ReadString(r, |key| + 3) == Ok((value, |r| - 1))
  {
    var e := EscapeToml(value);
    var r := key + " = \"" + e + "\"\n";
    assert r[..|key| + 3] == key + " = ";
    assert r[|key| + 3..|key| + 3 + |e| + 2] == "\"" + e + "\"";
    EscapeReadRoundTrip(r, |key| + 3, value);
    r
  }

  /** The lines written by the loop over a list of key-value pairs. */
  function KeyValues(kvs: seq<(Bytes, Bytes)>): Bytes
  {
    if kvs == [] then [] else KeyValue(kvs[0].0, kvs[0].1) + KeyValues(kvs[1..])
  }

  /** The table written for one lesson: a blank line, the header, then the
      six fields. */
  function LessonTable(l: Lesson): Bytes
  {
    "\n[[days.lessons]]\n" + KeyValues(LessonFields(l))
  }

  function LessonTables(ls: seq<Lesson>): Bytes
  {
    if ls == [] then [] else LessonTable(ls[0]) + LessonTables(ls[1..])
  }

  /** The block written for one day: header, name, its lessons' tables, and
      a final blank line. */
  function DayBlock(d: Day): Bytes
  {
    // the name line `name = "<esc(name)>"` has the key-value shape
    "[[days]]\n" + KeyValue("name", d.name) + LessonTables(d.lessons) + "\n"
  }

  function DayBlocks(days: seq<Day>): Bytes
  {
    if days == [] then [] else DayBlock(days[0]) + DayBlocks(days[1..])
  }

  /** `WriteTOML`: the day blocks, in order, and nothing else. */
  function WriteToml(sch: Schedule): (r: Bytes)
    ensures sch.days == [] ==> r == []
  {
    DayBlocks(sch.days)
  }

  /** A day list written in two parts is the concatenation of the parts'
      texts. */
  lemma {:induction false} WriteTomlAppend(a: seq<Day>, b: seq<Day>)
    ensures WriteToml(Schedule(a + b)) == WriteToml(Schedule(a)) + WriteToml(Schedule(b))
    decreases |a|
  {
    if a == [] {
      assert a + b == b;
    } else {
      assert (a + b)[1..] == a[1..] + b;
      WriteTomlAppend(a[1..], b);
    }
  }

  // The same text seen as lines; each line below is written followed by a newline.

  /** A `key = "value"` line without its newline. */
  function KeyValueLine(key: Bytes, value: Bytes): Bytes
  {
    key + " = \"" + EscapeToml(value) + "\""
  }

  function KeyValueLines(kvs: seq<(Bytes, Bytes)>): seq<Bytes>
  {
    if kvs == [] then [] else [KeyValueLine(kvs[0].0, kvs[0].1)] + KeyValueLines(kvs[1..])
  }

  function LessonLines(l: Lesson): seq<Bytes>
  {
    ["", "[[days.lessons]]"] + KeyValueLines(LessonFields(l))
  }

  function LessonsLines(ls: seq<Lesson>): seq<Bytes>
  {
    if ls == [] then [] else LessonLines(ls[0]) + LessonsLines(ls[1..])
  }

  function DayLines(d: Day): seq<Bytes>
  {
    ["[[days]]", KeyValueLine("name", d.name)] + LessonsLines(d.lessons) + [""]
  }

  function DaysLines(days: seq<Day>): seq<Bytes>
  {
    if days == [] then [] else DayLines(days[0]) + DaysLines(days[1..])
  }

  lemma {:induction false} KeyValuesAsLines(kvs: seq<(Bytes, Bytes)>)
    ensures KeyValues(kvs) == Unlines(KeyValueLines(kvs))
  {
    if kvs != [] {
      KeyValuesAsLines(kvs[1..]);
      var line := KeyValueLine(kvs[0].0, kvs[0].1);
      assert KeyValue(kvs[0].0, kvs[0].1) == line + "\n";
      assert ([line] + KeyValueLines(kvs[1..]))[1..] == KeyValueLines(kvs[1..]);
    }
  }

  lemma TwoLines(a: Bytes, b: Bytes)
    ensures Unlines([a, b]) == (a + "\n") + (b + "\n")
  {
    assert [a, b][1..] == [b];
    OneLine(b);
  }

  lemma LessonTableAsLines(l: Lesson)
    ensures LessonTable(l) == Unlines(LessonLines(l))
  {
    TwoLines("", "[[days.lessons]]");
    assert ("" + "\n") + ("[[days.lessons]]" + "\n") == "\n[[days.lessons]]\n";
    KeyValuesAsLines(LessonFields(l));
    UnlinesAppend(["", "[[days.lessons]]"], KeyValueLines(LessonFields(l)));
  }

  lemma {:induction false} LessonTablesAsLines(ls: seq<Lesson>)
    ensures LessonTables(ls) == Unlines(LessonsLines(ls))
  {
    if ls != [] {
      LessonTableAsLines(ls[0]);
      LessonTablesAsLines(ls[1..]);
      UnlinesAppend(LessonLines(ls[0]), LessonsLines(ls[1..]));
    }
  }

  lemma DayBlockAsLines(d: Day)
    ensures DayBlock(d) == Unlines(DayLines(d))
  {
    var nameLine := KeyValueLine("name", d.name);
    var head: seq<Bytes> := ["[[days]]", nameLine];
    var body := LessonsLines(d.lessons);
    UnlinesAppend(head + body, [""]);
    UnlinesAppend(head, body);
    TwoLines("[[days]]", nameLine);
    assert "[[days]]" + "\n" == "[[days]]\n";
    assert nameLine + "\n" == KeyValue("name", d.name);
    OneLine("");
    LessonTablesAsLines(d.lessons);
  }

  lemma {:induction false} DayBlocksAsLines(days: seq<Day>)
    ensures DayBlocks(days) == Unlines(DaysLines(days))
  {
    if days != [] {
      DayBlockAsLines(days[0]);
      DayBlocksAsLines(days[1..]);
      UnlinesAppend(DayLines(days[0]), DaysLines(days[1..]));
    }
  }

  lemma KeyValueLineSingle(key: Bytes, value: Bytes)
    requires '\n' !in key
    ensures '\n' !in KeyValueLine(key, value)
  {
    EscapeShape(value);
    var e := EscapeToml(value);
    var line := KeyValueLine(key, value);
    forall k | 0 <= k < |line|
      ensures line[k] != '\n'
    {
      if k < |key| {
        assert line[k] == key[k];
      } else if k < |key| + 4 {
      } else if k < |key| + 4 + |e| {
        assert line[k] == e[k - |key| - 4];
      }
    }
  }

  /** Keys of the fields the writers emit: no newline, no leading `[`. */
  predicate PlainKeys(kvs: seq<(Bytes, Bytes)>) {
    forall k :: 0 <= k < |kvs| ==> |kvs[k].0| > 0 && kvs[k].0[0] != '[' && '\n' !in kvs[k].0
  }

  lemma LessonKeysPlain(l: Lesson)
    ensures PlainKeys(LessonFields(l))
  {
    var kvs := LessonFields(l);
    forall k | 0 <= k < |kvs|
      ensures |kvs[k].0| > 0 && kvs[k].0[0] != '[' && '\n' !in kvs[k].0
    {
    }
  }

  lemma {:induction false} KeyValueLinesSingle(kvs: seq<(Bytes, Bytes)>)
    requires PlainKeys(kvs)
    ensures SingleLines(KeyValueLines(kvs))
  {
    if kvs != [] {
      KeyValueLinesSingle(kvs[1..]);
      KeyValueLineSingle(kvs[0].0, kvs[0].1);
      SingleLinesAppend([KeyValueLine(kvs[0].0, kvs[0].1)], KeyValueLines(kvs[1..]));
    }
  }

  lemma LessonLinesSingle(l: Lesson)
    ensures SingleLines(LessonLines(l))
  {
    LessonKeysPlain(l);
    KeyValueLinesSingle(LessonFields(l));
    SingleLinesAppend(["", "[[days.lessons]]"], KeyValueLines(LessonFields(l)));
  }

  lemma {:induction false} LessonsLinesSingle(ls: seq<Lesson>)
    ensures SingleLines(LessonsLines(ls))
  {
    if ls != [] {
      LessonsLinesSingle(ls[1..]);
      LessonLinesSingle(ls[0]);
      SingleLinesAppend(LessonLines(ls[0]), LessonsLines(ls[1..]));
    }
  }

  lemma DayLinesSingle(d: Day)
    ensures SingleLines(DayLines(d))
  {
    LessonsLinesSingle(d.lessons);
    KeyValueLineSingle("name", d.name);
    var head: seq<Bytes> := ["[[days]]", KeyValueLine("name", d.name)];
    SingleLinesAppend(head, LessonsLines(d.lessons));
    SingleLinesAppend(head + LessonsLines(d.lessons), [""]);
  }

  lemma {:induction false} DaysLinesSingle(days: seq<Day>)
    ensures SingleLines(DaysLines(days))
  {
    if days != [] {
      DaysLinesSingle(days[1..]);
      DayLinesSingle(days[0]);
      SingleLinesAppend(DayLines(days[0]), DaysLines(days[1..]));
    }
  }

  /** The written text, split at its newlines, is exactly the template's
      lines: no escaped value can break a line. */
  lemma WriteTomlLines(sch: Schedule)
    ensures Lines(WriteToml(sch)) == DaysLines(sch.days)
  {
    DayBlocksAsLines(sch.days);
    DaysLinesSingle(sch.days);
    LinesOfUnlines(DaysLines(sch.days));
  }

  /** A line holding a key-value pair is never one of the two table headers. */
  lemma KeyValueLineNotHeader(key: Bytes, value: Bytes)
    requires |key| > 0 && key[0] != '['
    ensures KeyValueLine(key, value) != "[[days]]"
    ensures KeyValueLine(key, value) != "[[days.lessons]]"
  {
    assert KeyValueLine(key, value)[0] == key[0];
  }

  lemma {:induction false} KeyValueLinesCount(kvs: seq<(Bytes, Bytes)>)
    requires PlainKeys(kvs)
    ensures multiset(KeyValueLines(kvs))["[[days]]"] == 0
    ensures multiset(KeyValueLines(kvs))["[[days.lessons]]"] == 0
  {
    if kvs != [] {
      KeyValueLinesCount(kvs[1..]);
      KeyValueLineNotHeader(kvs[0].0, kvs[0].1);
    }
  }

  lemma {:induction false} LessonsLinesCount(ls: seq<Lesson>)
    ensures multiset(LessonsLines(ls))["[[days]]"] == 0
    ensures multiset(LessonsLines(ls))["[[days.lessons]]"] == |ls|
  {
    if ls != [] {
      LessonsLinesCount(ls[1..]);
      var fields := KeyValueLines(LessonFields(ls[0]));
      LessonKeysPlain(ls[0]);
      KeyValueLinesCount(LessonFields(ls[0]));
      var opening: seq<Bytes> := ["", "[[days.lessons]]"];
      assert "" != "[[days]]" && "" != "[[days.lessons]]";
      assert |"[[days.lessons]]"| != |"[[days]]"|;
      assert multiset(opening)["[[days]]"] == 0;
      assert multiset(opening)["[[days.lessons]]"] == 1;
      assert LessonsLines(ls) == opening + fields + LessonsLines(ls[1..]);
    }
  }

  lemma {:induction false} DaysLinesCount(days: seq<Day>)
    ensures multiset(DaysLines(days))["[[days]]"] == |days|
    ensures multiset(DaysLines(days))["[[days.lessons]]"] == TotalLessons(days)
  {
    if days != [] {
      DaysLinesCount(days[1..]);
      LessonsLinesCount(days[0].lessons);
      KeyValueLineNotHeader("name", days[0].name);
    }
  }

  /** The output has one `[[days]]` header line per day and one
      `[[days.lessons]]` header line per lesson, whatever the field values. */
  lemma WriteTomlHeaderCounts(sch: Schedule)
    ensures multiset(Lines(WriteToml(sch)))["[[days]]"] == |sch.days|
    ensures multiset(Lines(WriteToml(sch)))["[[days.lessons]]"] == TotalLessons(sch.days)
  {
    WriteTomlLines(sch);
    DaysLinesCount(sch.days);
  }
}

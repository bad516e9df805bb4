/** The hand-written XML writer: an escape function for the five markup
    characters and a fixed template with one `<day>` element per day and one
    `<lesson>` element per lesson. The writer is a pure function from a
    schedule to the text it writes. */
module XmlWriter {
  import opened Bytes
  import opened Schedules
  import opened Text

  /** `escapeXML`: the per-character escape, so the output decodes back
      to the input, is well formed, holds no `<`, `>`, `"` or `'`, holds a
      newline only where the input did, and equals the input when no
      markup character occurs. */
  function EscapeXml(s: Bytes): (r: Bytes)
    ensures r == EscapeXmlMap(s)
    ensures UnescapeXml(r) == s
    ensures WellEscaped(r)
    ensures forall k :: 0 <= k < |r| ==> r[k] !in {'<', '>', '"', '\''}
    ensures '\n' !in s ==> '\n' !in r
    ensures (forall k :: 0 <= k < |s| ==> !IsMarkup(s[k])) ==> r == s
  {
    EscapeIsByteMap(s);
    EscapeMapShape(s);
    UnescapeEscapeMap(s);
    EscapeMapIdentity(s);
    ReplaceChain(s)
  }

  /** The body of `escapeXML`: five `ReplaceAll` calls, ampersand first. */
  function ReplaceChain(s: Bytes): Bytes
  {
    var s1 := ReplaceAll(s, '&', "&amp;");
    var s2 := ReplaceAll(s1, '<', "&lt;");
    var s3 := ReplaceAll(s2, '>', "&gt;");
    var s4 := ReplaceAll(s3, '"', "&quot;");
    ReplaceAll(s4, '\'', "&apos;")
  }

  /** The five characters the escape rewrites. */
  predicate IsMarkup(c: Byte) {
    c == '&' || c == '<' || c == '>' || c == '"' || c == '\''
  }

  /** The escape of one character: its entity for the five markup
      characters, the character itself otherwise. */
  function EscapeXmlByte(c: Byte): (r: Bytes)
    ensures IsMarkup(c) ==> |r| >= 4 && r[0] == '&' && r[|r| - 1] == ';'
    ensures !IsMarkup(c) ==> r == [c]
  {
    match c
    case '&' => "&amp;"
    case '<' => "&lt;"
    case '>' => "&gt;"
    case '"' => "&quot;"
    case '\'' => "&apos;"
    case _ => [c]
  }

  /** The per-character reference definition of the escape. */
  function EscapeXmlMap(s: Bytes): Bytes
  {
    if s == [] then [] else EscapeXmlByte(s[0]) + EscapeXmlMap(s[1..])
  }

  /** The chain of replacements applied to a single character. */
  lemma EscapeOneByte(c: Byte)
    ensures ReplaceChain([c]) == EscapeXmlByte(c)
  {
    if c == '&' {
      EscapeAmp();
    } else if c == '<' {
      EscapeLt();
    } else if c == '>' {
      EscapeGt();
    } else if c == '"' {
      EscapeQuot();
    } else if c == '\'' {
      EscapeApos();
    } else {
      ReplaceOne(c, '&', "&amp;");
      ReplaceOne(c, '<', "&lt;");
      ReplaceOne(c, '>', "&gt;");
      ReplaceOne(c, '"', "&quot;");
      ReplaceOne(c, '\'', "&apos;");
    }
  }

  lemma EscapeAmp()
    ensures ReplaceChain("&") == "&amp;"
  {
    var amp: Bytes := "&amp;";
    ReplaceOne('&', '&', amp);
    assert '<' !in amp && '>' !in amp && '"' !in amp && '\'' !in amp;
    NoneToReplace(amp, '<', "&lt;");
    NoneToReplace(amp, '>', "&gt;");
    NoneToReplace(amp, '"', "&quot;");
    NoneToReplace(amp, '\'', "&apos;");
  }

  lemma EscapeLt()
    ensures ReplaceChain("<") == "&lt;"
  {
    var lt: Bytes := "&lt;";
    ReplaceOne('<', '&', "&amp;");
    ReplaceOne('<', '<', lt);
    assert '>' !in lt && '"' !in lt && '\'' !in lt;
    NoneToReplace(lt, '>', "&gt;");
    NoneToReplace(lt, '"', "&quot;");
    NoneToReplace(lt, '\'', "&apos;");
  }

  lemma EscapeGt()
    ensures ReplaceChain(">") == "&gt;"
  {
    var gt: Bytes := "&gt;";
    ReplaceOne('>', '&', "&amp;");
    ReplaceOne('>', '<', "&lt;");
    ReplaceOne('>', '>', gt);
    assert '"' !in gt && '\'' !in gt;
    NoneToReplace(gt, '"', "&quot;");
    NoneToReplace(gt, '\'', "&apos;");
  }

  lemma EscapeQuot()
    ensures ReplaceChain("\"") == "&quot;"
  {
    var quot: Bytes := "&quot;";
    ReplaceOne('"', '&', "&amp;");
    ReplaceOne('"', '<', "&lt;");
    ReplaceOne('"', '>', "&gt;");
    ReplaceOne('"', '"', quot);
    assert '\'' !in quot;
    NoneToReplace(quot, '\'', "&apos;");
  }

  lemma EscapeApos()
    ensures ReplaceChain("'") == "&apos;"
  {
    ReplaceOne('\'', '&', "&amp;");
    ReplaceOne('\'', '<', "&lt;");
    ReplaceOne('\'', '>', "&gt;");
    ReplaceOne('\'', '"', "&quot;");
    ReplaceOne('\'', '\'', "&apos;");
  }

  /** The chain as a list of (needle, replacement) pairs. */
  const Replacements: seq<(Byte, Bytes)> := [('&', "&amp;"), ('<', "&lt;"), ('>', "&gt;"), ('"', "&quot;"), ('\'', "&apos;")]

  lemma ChainIsEach(s: Bytes)
    ensures ReplaceChain(s) == ReplaceEach(s, Replacements)
  {
  }

  /** `escapeXML` equals the per-character map: ampersand first means no
      entity a later replacement inserts is escaped twice. */
  lemma {:induction false} EscapeIsByteMap(s: Bytes)
    ensures ReplaceChain(s) == EscapeXmlMap(s)
  {
    if s != [] {
      assert s == [s[0]] + s[1..];
      ChainIsEach(s);
      ChainIsEach([s[0]]);
      ChainIsEach(s[1..]);
      ReplaceEachAppend([s[0]], s[1..], Replacements);
      EscapeOneByte(s[0]);
      EscapeIsByteMap(s[1..]);
    }
  }

  /** The entity at the head of `e`: the character it stands for and its
      length, or length 0 when `e` starts with none of the five. */
  function EntityAt(e: Bytes): (r: (Byte, nat))
    ensures r.1 > 0 ==> r.1 <= |e| && e[0] == '&' && IsMarkup(r.0)
  {
    if |e| >= 5 && e[..5] == "&amp;" then ('&', 5)
    else if |e| >= 4 && e[..4] == "&lt;" then ('<', 4)
    else if |e| >= 4 && e[..4] == "&gt;" then ('>', 4)
    else if |e| >= 6 && e[..6] == "&quot;" then ('"', 6)
    else if |e| >= 6 && e[..6] == "&apos;" then ('\'', 6)
    else (' ', 0)
  }

  /** Decodes the five entities the escape produces; any other character,
      including an `&` that starts none of them, stands for itself. */
  function UnescapeXml(e: Bytes): Bytes
    decreases |e|
  {
    if e == [] then []
    else
      var (c, n) := EntityAt(e);
      if n == 0 then [e[0]] + UnescapeXml(e[1..]) else [c] + UnescapeXml(e[n..])
  }

  lemma {:induction false} UnescapeEscapeMap(s: Bytes)
    ensures UnescapeXml(EscapeXmlMap(s)) == s
  {
    if s != [] {
      UnescapeEscapeMap(s[1..]);
      UnescapeHead(s[0], EscapeXmlMap(s[1..]));
      assert [s[0]] + s[1..] == s;
    }
  }

  /** Decoding an escaped character followed by any text. */
  lemma UnescapeHead(c: Byte, rest: Bytes)
    ensures UnescapeXml(EscapeXmlByte(c) + rest) == [c] + UnescapeXml(rest)
  {
    var h := EscapeXmlByte(c);
    var e := h + rest;
    assert e[..|h|] == h;
    assert e[|h|..] == rest;
    if IsMarkup(c) {
      EntityOf(c, rest);
    } else {
      assert e[0] == c;
      assert e[1..] == rest;
    }
  }

  /** The entity the escape writes for a markup character is recognised as
      that character. */
  lemma EntityOf(c: Byte, rest: Bytes)
    requires IsMarkup(c)
    ensures EntityAt(EscapeXmlByte(c) + rest) == (c, |EscapeXmlByte(c)|)
  {
    var h := EscapeXmlByte(c);
    var e := h + rest;
    assert e[..|h|] == h;
    if c == '&' {
      assert e[..5] == "&amp;";
    } else if c == '<' {
      var lt: Bytes := "&lt;";
      assert e[..4] == lt;
      assert e[1] == 'l';
    } else if c == '>' {
      var gt: Bytes := "&gt;";
      assert e[..4] == gt;
      assert e[1] == 'g';
    } else if c == '"' {
      var quot: Bytes := "&quot;";
      assert e[..6] == quot;
      assert e[1] == 'q';
    } else {
      var apos: Bytes := "&apos;";
      assert e[..6] == apos;
      assert e[1] == 'a' && e[2] == 'p';
    }
  }

  /** The escaped text holds none of `<`, `>`, `"`, `'`, and every `&` in it
      begins one of the five entities. */
  predicate WellEscaped(e: Bytes)
    decreases |e|
  {
    if e == [] then true
    else if e[0] == '&' then
      || (|e| >= 5 && e[..5] == "&amp;" && WellEscaped(e[5..]))
      || (|e| >= 4 && e[..4] == "&lt;" && WellEscaped(e[4..]))
      || (|e| >= 4 && e[..4] == "&gt;" && WellEscaped(e[4..]))
      || (|e| >= 6 && e[..6] == "&quot;" && WellEscaped(e[6..]))
      || (|e| >= 6 && e[..6] == "&apos;" && WellEscaped(e[6..]))
    else !IsMarkup(e[0]) && WellEscaped(e[1..])
  }

  lemma EscapeMapShape(s: Bytes)
    ensures WellEscaped(EscapeXmlMap(s))
    ensures forall k :: 0 <= k < |EscapeXmlMap(s)| ==> EscapeXmlMap(s)[k] !in {'<', '>', '"', '\''}
    ensures '\n' !in s ==> '\n' !in EscapeXmlMap(s)
  {
    EscapeMapWell(s);
    EscapeMapChars(s);
  }

  lemma {:induction false} EscapeMapWell(s: Bytes)
    ensures WellEscaped(EscapeXmlMap(s))
  {
    if s != [] {
      EscapeMapWell(s[1..]);
      WellEscapedHead(s[0], EscapeXmlMap(s[1..]));
    }
  }

  lemma {:induction false} EscapeMapChars(s: Bytes)
    ensures forall k :: 0 <= k < |EscapeXmlMap(s)| ==> EscapeXmlMap(s)[k] !in {'<', '>', '"', '\''}
    ensures '\n' !in s ==> '\n' !in EscapeXmlMap(s)
  {
    if s != [] {
      EscapeMapChars(s[1..]);
      var head := EscapeXmlByte(s[0]);
      var rest := EscapeXmlMap(s[1..]);
      HeadChars(s[0]);
      var e := head + rest;
      assert EscapeXmlMap(s) == e;
      forall k | 0 <= k < |e|
        ensures e[k] !in {'<', '>', '"', '\''}
        ensures '\n' !in s ==> e[k] != '\n'
      {
        if k >= |head| {
          assert e[k] == rest[k - |head|];
          assert '\n' !in s ==> '\n' !in s[1..];
        } else {
          assert e[k] == head[k];
        }
      }
    }
  }

  /** An escaped character in front of well-escaped text keeps it well
      escaped. */
  lemma WellEscapedHead(c: Byte, rest: Bytes)
    requires WellEscaped(rest)
    ensures WellEscaped(EscapeXmlByte(c) + rest)
  {
    var h := EscapeXmlByte(c);
    var e := h + rest;
    assert e[|h|..] == rest;
    if IsMarkup(c) {
      EntityOf(c, rest);
      var k := |h|;
      assert e[..k] == h;
    } else {
      assert e[0] == c;
      assert e[1..] == rest;
    }
  }

  /** An escaped character holds none of `<`, `>`, `"`, `'`, and a newline
      only when it is one. */
  lemma HeadChars(c: Byte)
    ensures forall k :: 0 <= k < |EscapeXmlByte(c)| ==> EscapeXmlByte(c)[k] !in {'<', '>', '"', '\'', '\n'} || (k == 0 && c == '\n')
  {
  }

  lemma {:induction false} EscapeMapIdentity(s: Bytes)
    ensures (forall k :: 0 <= k < |s| ==> !IsMarkup(s[k])) ==> EscapeXmlMap(s) == s
  {
    if s != [] {
      EscapeMapIdentity(s[1..]);
    }
  }

  // The fixed lines of the template. Every `Fprintln` / `Fprintf` call of
  // the writer prints one of these lines followed by a newline, except the
  // one call that prints `</lessons>` and `</day>` together, which is two
  // lines here.
  const DeclarationLine: Bytes := "<?xml version=\"1.0\" encoding=\"UTF-8\"?>"
  const ScheduleOpen: Bytes := "<schedule>"
  const ScheduleClose: Bytes := "</schedule>"
  const DayOpen: Bytes := "  <day>"
  const DayClose: Bytes := "  </day>"
  const LessonsOpen: Bytes := "    <lessons>"
  const LessonsClose: Bytes := "    </lessons>"
  const LessonOpen: Bytes := "    <lesson>"
  const LessonClose: Bytes := "      </lesson>"

  /** The `<key>value</key>` line of one lesson field, indented by eight. */
  function ElementLine(key: Bytes, value: Bytes): Bytes
  {
    "        <" + key + ">" + EscapeXml(value) + "</" + key + ">"
  }

  /** The lines printed by the loop over a list of key-value pairs. */
  function ElementLines(kvs: seq<(Bytes, Bytes)>): seq<Bytes>
  {
    if kvs == [] then [] else [ElementLine(kvs[0].0, kvs[0].1)] + ElementLines(kvs[1..])
  }

  /** The `<name>` line of a day. */
  function NameLine(name: Bytes): Bytes
  {
    "    <name>" + EscapeXml(name) + "</name>"
  }

  /** The lines of one lesson; the closing tag is indented by six spaces,
      the opening one by four. */
  function LessonLines(l: Lesson): seq<Bytes>
  {
    [LessonOpen] + ElementLines(LessonFields(l)) + [LessonClose]
  }

  function LessonsLines(ls: seq<Lesson>): seq<Bytes>
  {
    if ls == [] then [] else LessonLines(ls[0]) + LessonsLines(ls[1..])
  }

  /** The lines of one day. */
  function DayLines(d: Day): seq<Bytes>
  {
    [DayOpen, NameLine(d.name), LessonsOpen] + LessonsLines(d.lessons) + [LessonsClose, DayClose]
  }

  function DaysLines(days: seq<Day>): seq<Bytes>
  {
    if days == [] then [] else DayLines(days[0]) + DaysLines(days[1..])
  }

  /** All lines printed for a document: declaration, `<schedule>`, the days
      in order, `</schedule>`. */
  function DocumentLines(sch: Schedule): (ls: seq<Bytes>)
    ensures |ls| >= 3 && ls[..2] == [DeclarationLine, ScheduleOpen] && ls[|ls| - 1] == ScheduleClose
    ensures sch.days == [] ==> ls == [DeclarationLine, ScheduleOpen, ScheduleClose]
  {
    [DeclarationLine, ScheduleOpen] + DaysLines(sch.days) + [ScheduleClose]
  }

  /** `WriteXML`: the printed lines, each followed by a newline. The output
      opens with the declaration and `<schedule>` lines and closes with
      `</schedule>`; with no days, those three lines are all of it. */
  function WriteXml(sch: Schedule): (r: Bytes)
    ensures var prefix := DeclarationLine + "\n" + ScheduleOpen + "\n";
      |r| >= |prefix| && r[..|prefix|] == prefix
    ensures var suffix := ScheduleClose + "\n";
      |r| >= |suffix| && r[|r| - |suffix|..] == suffix
    ensures sch.days == [] ==> r == DeclarationLine + "\n" + ScheduleOpen + "\n" + ScheduleClose + "\n"
  {
    UnlinesFrame(DocumentLines(sch));
    Unlines(DocumentLines(sch))
  }

  /** A day list printed in two parts is the concatenation of the parts'
      lines. */
  lemma {:induction false} DaysLinesAppend(a: seq<Day>, b: seq<Day>)
    ensures DaysLines(a + b) == DaysLines(a) + DaysLines(b)
    decreases |a|
  {
    if a == [] {
      assert a + b == b;
    } else {
      assert (a + b)[1..] == a[1..] + b;
      DaysLinesAppend(a[1..], b);
    }
  }

  /** No field of the schedule holds a newline. Unlike the TOML escape, the
      XML escape leaves newlines as they are, so only then does every line of
      the output come from one line of the template. */
  predicate NoNewlines(sch: Schedule) {
    forall d :: d in sch.days ==>
      && '\n' !in d.name
      && forall l :: l in d.lessons ==> forall kv :: kv in LessonFields(l) ==> '\n' !in kv.1
  }

  /** What tells the fixed lines apart: no newline in any of them, and the
      columns where the `<day>` and `<lesson>` lines differ from the others. */
  lemma FixedLines()
    ensures '\n' !in DeclarationLine && '\n' !in ScheduleOpen && '\n' !in ScheduleClose
    ensures '\n' !in DayOpen && '\n' !in DayClose && '\n' !in LessonsOpen && '\n' !in LessonsClose
    ensures '\n' !in LessonOpen && '\n' !in LessonClose
    ensures DeclarationLine[0] == '<' && ScheduleOpen[0] == '<' && ScheduleClose[0] == '<'
    ensures |DayOpen| == 7 && DayOpen[0] == ' ' && DayOpen[2] == '<' && DayOpen[3] == 'd'
    ensures |LessonOpen| == 12 && LessonOpen[0] == ' ' && LessonOpen[4] == '<' && LessonOpen[5] == 'l'
    ensures |DayClose| == 8 && |LessonsOpen| == 13 && |LessonsClose| == 14 && |LessonClose| == 15
  {
  }

  lemma ElementLineSingle(key: Bytes, value: Bytes)
    requires '\n' !in key && '\n' !in value
    ensures '\n' !in ElementLine(key, value)
  {
  }

  lemma {:induction false} ElementLinesSingle(kvs: seq<(Bytes, Bytes)>)
    requires forall k :: 0 <= k < |kvs| ==> '\n' !in kvs[k].0 && '\n' !in kvs[k].1
    ensures SingleLines(ElementLines(kvs))
  {
    if kvs != [] {
      ElementLinesSingle(kvs[1..]);
      ElementLineSingle(kvs[0].0, kvs[0].1);
      SingleLinesAppend([ElementLine(kvs[0].0, kvs[0].1)], ElementLines(kvs[1..]));
    }
  }

  lemma LessonLinesSingle(l: Lesson)
    requires forall kv :: kv in LessonFields(l) ==> '\n' !in kv.1
    ensures SingleLines(LessonLines(l))
  {
    var kvs := LessonFields(l);
    forall k | 0 <= k < |kvs|
      ensures '\n' !in kvs[k].0 && '\n' !in kvs[k].1
    {
      assert kvs[k] in kvs;
    }
    ElementLinesSingle(kvs);
    FixedLines();
    SingleLinesAppend([LessonOpen], ElementLines(kvs));
    SingleLinesAppend([LessonOpen] + ElementLines(kvs), [LessonClose]);
  }

  lemma {:induction false} LessonsLinesSingle(ls: seq<Lesson>)
    requires forall l :: l in ls ==> forall kv :: kv in LessonFields(l) ==> '\n' !in kv.1
    ensures SingleLines(LessonsLines(ls))
  {
    if ls != [] {
      assert ls[0] in ls;
      LessonsLinesSingle(ls[1..]);
      LessonLinesSingle(ls[0]);
      SingleLinesAppend(LessonLines(ls[0]), LessonsLines(ls[1..]));
    }
  }

  lemma DayLinesSingle(d: Day)
    requires '\n' !in d.name
    requires forall l :: l in d.lessons ==> forall kv :: kv in LessonFields(l) ==> '\n' !in kv.1
    ensures SingleLines(DayLines(d))
  {
    LessonsLinesSingle(d.lessons);
    FixedLines();
    var head: seq<Bytes> := [DayOpen, NameLine(d.name), LessonsOpen];
    DayHeadSingle(d.name);
    SingleLinesAppend(head, LessonsLines(d.lessons));
    SingleLinesAppend(head + LessonsLines(d.lessons), [LessonsClose, DayClose]);
  }

  /** The opening lines of a day, its name line among them. */
  lemma DayHeadSingle(name: Bytes)
    requires '\n' !in name
    ensures SingleLines([DayOpen, NameLine(name), LessonsOpen])
  {
    FixedLines();
    assert '\n' !in NameLine(name);
  }

  lemma {:induction false} DaysLinesSingle(days: seq<Day>)
    requires NoNewlines(Schedule(days))
    ensures SingleLines(DaysLines(days))
  {
    if days != [] {
      assert NoNewlines(Schedule(days[1..])) by {
        forall d | d in days[1..] ensures d in days { }
      }
      DaysLinesSingle(days[1..]);
      assert days[0] in days;
      DayLinesSingle(days[0]);
      SingleLinesAppend(DayLines(days[0]), DaysLines(days[1..]));
    }
  }

  /** When no value holds a newline, the written text split at its newlines
      is exactly the printed lines. */
  lemma WriteXmlLines(sch: Schedule)
    requires NoNewlines(sch)
    ensures Lines(WriteXml(sch)) == DocumentLines(sch)
  {
    DaysLinesSingle(sch.days);
    FixedLines();
    var head: seq<Bytes> := [DeclarationLine, ScheduleOpen];
    SingleLinesAppend(head, DaysLines(sch.days));
    SingleLinesAppend(head + DaysLines(sch.days), [ScheduleClose]);
    LinesOfUnlines(DocumentLines(sch));
  }

  lemma {:induction false} ElementLinesCount(kvs: seq<(Bytes, Bytes)>)
    ensures multiset(ElementLines(kvs))[DayOpen] == 0
    ensures multiset(ElementLines(kvs))[LessonOpen] == 0
  {
    if kvs != [] {
      ElementLinesCount(kvs[1..]);
      FixedLines();
      var line := ElementLine(kvs[0].0, kvs[0].1);
      assert line[2] == ' ' && line[4] == ' ';
    }
  }

  lemma {:induction false} LessonsLinesCount(ls: seq<Lesson>)
    ensures multiset(LessonsLines(ls))[DayOpen] == 0
    ensures multiset(LessonsLines(ls))[LessonOpen] == |ls|
  {
    if ls != [] {
      LessonsLinesCount(ls[1..]);
      var fields := ElementLines(LessonFields(ls[0]));
      ElementLinesCount(LessonFields(ls[0]));
      FixedLines();
      var open: seq<Bytes> := [LessonOpen];
      var close: seq<Bytes> := [LessonClose];
      assert multiset(open)[DayOpen] == 0 && multiset(open)[LessonOpen] == 1;
      assert multiset(close)[DayOpen] == 0 && multiset(close)[LessonOpen] == 0;
      assert LessonsLines(ls) == open + fields + close + LessonsLines(ls[1..]);
    }
  }

  lemma DayFrameCount(name: Bytes)
    ensures multiset([DayOpen, NameLine(name), LessonsOpen])[DayOpen] == 1
    ensures multiset([DayOpen, NameLine(name), LessonsOpen])[LessonOpen] == 0
    ensures multiset([LessonsClose, DayClose])[DayOpen] == 0
    ensures multiset([LessonsClose, DayClose])[LessonOpen] == 0
  {
    FixedLines();
    var n := NameLine(name);
    assert n[2] == ' ' && n[5] == 'n';
  }

  lemma {:induction false} DaysLinesCount(days: seq<Day>)
    ensures multiset(DaysLines(days))[DayOpen] == |days|
    ensures multiset(DaysLines(days))[LessonOpen] == TotalLessons(days)
  {
    if days != [] {
      DaysLinesCount(days[1..]);
      LessonsLinesCount(days[0].lessons);
      DayFrameCount(days[0].name);
    }
  }

  /** When no value holds a newline, the output has one `<day>` line per day
      and one `<lesson>` line per lesson. */
  lemma WriteXmlElementCounts(sch: Schedule)
    requires NoNewlines(sch)
    ensures multiset(Lines(WriteXml(sch)))[DayOpen] == |sch.days|
    ensures multiset(Lines(WriteXml(sch)))[LessonOpen] == TotalLessons(sch.days)
  {
    WriteXmlLines(sch);
    DaysLinesCount(sch.days);
    FixedLines();
    var head: seq<Bytes> := [DeclarationLine, ScheduleOpen];
    var tail: seq<Bytes> := [ScheduleClose];
    var ls := DocumentLines(sch);
    assert ls == head + DaysLines(sch.days) + tail;
    assert Lines(WriteXml(sch)) == ls;
    assert multiset(ls) == multiset(head) + multiset(DaysLines(sch.days)) + multiset(tail);
    assert multiset(head)[DayOpen] == 0 && multiset(head)[LessonOpen] == 0;
    assert multiset(tail)[DayOpen] == 0 && multiset(tail)[LessonOpen] == 0;
  }
}

/** The document a schedule is written as in the notation: one `Schedule`
    record with a `days` array of `Day` records, each with its `name` and a
    `lessons` array of `Lesson` records carrying the six string fields. The
    parser reads the tokens of that document back to the schedule. */
module RonSchedule {
  import opened Bytes
  import opened Results
  import opened Schedules
  import opened Lexer
  import opened Values
  import opened Materializer
  import opened Parser
  import opened RonDocs

  /** String fields under the given names, in order. */
  function StringFieldDocs(kvs: seq<(Bytes, Bytes)>): (fs: seq<Field>)
    ensures |fs| == |kvs|
    ensures forall k :: 0 <= k < |kvs| ==> fs[k] == Field(kvs[k].0, DStr(kvs[k].1))
  {
    if kvs == [] then [] else [Field(kvs[0].0, DStr(kvs[0].1))] + StringFieldDocs(kvs[1..])
  }

  // The documents below spell every list with a trailing comma when `trail`
  // holds, and without one otherwise.

  function LessonDoc(l: Lesson, trail: bool): Doc
  {
    DRec("Lesson", StringFieldDocs(LessonFields(l)), trail)
  }

  function LessonDocs(ls: seq<Lesson>, trail: bool): (ds: seq<Doc>)
    ensures |ds| == |ls|
    ensures forall k :: 0 <= k < |ls| ==> ds[k] == LessonDoc(ls[k], trail)
  {
    if ls == [] then [] else [LessonDoc(ls[0], trail)] + LessonDocs(ls[1..], trail)
  }

  function DayDoc(d: Day, trail: bool): Doc
  {
    DRec("Day", [Field("name", DStr(d.name)), Field("lessons", DArr(LessonDocs(d.lessons, trail), trail))], trail)
  }

  function DayDocs(days: seq<Day>, trail: bool): (ds: seq<Doc>)
    ensures |ds| == |days|
    ensures forall k :: 0 <= k < |days| ==> ds[k] == DayDoc(days[k], trail)
  {
    if days == [] then [] else [DayDoc(days[0], trail)] + DayDocs(days[1..], trail)
  }

  function ScheduleDoc(sch: Schedule, trail: bool): Doc
  {
    DRec("Schedule", [Field("days", DArr(DayDocs(sch.days, trail), trail))], trail)
  }

  /** One step of reading fields whose value means `v`. */
  lemma EvalFieldStep(fs: seq<Field>, acc: Fields, i: nat, v: Value)
    requires i < |fs| && Eval(fs[i].doc) == Ok(v)
    ensures EvalFields(fs[i..], acc) == EvalFields(fs[i + 1..], acc[fs[i].key := v])
  {
    assert fs[i..][0] == fs[i];
    assert fs[i..][1..] == fs[i + 1..];
  }

  /** A lesson's document means the lesson. */
  lemma EvalLessonDoc(l: Lesson, trail: bool)
    ensures Eval(LessonDoc(l, trail)) == Ok(VLesson(l))
  {
    var fs := StringFieldDocs(LessonFields(l));
    var m0: Fields := map[];
    var m1 := m0["time" := VStr(l.time)];
    var m2 := m1["subject" := VStr(l.subject)];
    var m3 := m2["teacher" := VStr(l.teacher)];
    var m4 := m3["room" := VStr(l.room)];
    var m5 := m4["building" := VStr(l.building)];
    var m6 := m5["type" := VStr(l.lessonType)];
    assert fs[6..] == [];
    EvalFieldStep(fs, m5, 5, VStr(l.lessonType));
    EvalFieldStep(fs, m4, 4, VStr(l.building));
    EvalFieldStep(fs, m3, 3, VStr(l.room));
    EvalFieldStep(fs, m2, 2, VStr(l.teacher));
    EvalFieldStep(fs, m1, 1, VStr(l.subject));
    EvalFieldStep(fs, m0, 0, VStr(l.time));
    assert fs[0..] == fs;
    assert EvalFields(fs, map[]) == Ok(m6);
    LessonOfFields(l, m6);
  }

  lemma LessonOfFields(l: Lesson, m: Fields)
    requires m == map["time" := VStr(l.time), "subject" := VStr(l.subject), "teacher" := VStr(l.teacher),
                      "room" := VStr(l.room), "building" := VStr(l.building), "type" := VStr(l.lessonType)]
    ensures Materialize("Lesson", m) == Ok(VLesson(l))
  {
  }

  function LessonValues(ls: seq<Lesson>): (vs: seq<Value>)
    ensures |vs| == |ls|
    ensures forall k :: 0 <= k < |ls| ==> vs[k] == VLesson(ls[k])
  {
    if ls == [] then [] else [VLesson(ls[0])] + LessonValues(ls[1..])
  }

  function DayValues(days: seq<Day>): (vs: seq<Value>)
    ensures |vs| == |days|
    ensures forall k :: 0 <= k < |days| ==> vs[k] == VDay(days[k])
  {
    if days == [] then [] else [VDay(days[0])] + DayValues(days[1..])
  }

  lemma {:induction false} EvalLessonDocs(ls: seq<Lesson>, trail: bool)
    ensures EvalElems(LessonDocs(ls, trail)) == Ok(LessonValues(ls))
  {
    if ls != [] {
      var ds := LessonDocs(ls, trail);
      assert ds[0] == LessonDoc(ls[0], trail);
      assert ds[1..] == LessonDocs(ls[1..], trail);
      EvalLessonDoc(ls[0], trail);
      EvalLessonDocs(ls[1..], trail);
    }
  }

  /** A day's document means the day. */
  lemma EvalDayDoc(d: Day, trail: bool)
    ensures Eval(DayDoc(d, trail)) == Ok(VDay(d))
  {
    var fs := [Field("name", DStr(d.name)), Field("lessons", DArr(LessonDocs(d.lessons, trail), trail))];
    EvalLessonDocs(d.lessons, trail);
    var vs := LessonValues(d.lessons);
    var m0: Fields := map[];
    var m1 := m0["name" := VStr(d.name)];
    var m2 := m1["lessons" := VArr(vs)];
    assert fs[2..] == [];
    EvalFieldStep(fs, m1, 1, VArr(vs));
    EvalFieldStep(fs, m0, 0, VStr(d.name));
    assert fs[0..] == fs;
    DayOfFields(d, m2);
  }

  lemma DayOfFields(d: Day, m: Fields)
    requires m == map["name" := VStr(d.name), "lessons" := VArr(LessonValues(d.lessons))]
    ensures Materialize("Day", m) == Ok(VDay(d))
  {
    var vs := LessonValues(d.lessons);
    assert ArrayField(m, "lessons") == vs;
    assert CollectLessons(vs).value == d.lessons;
  }

  lemma {:induction false} EvalDayDocs(days: seq<Day>, trail: bool)
    ensures EvalElems(DayDocs(days, trail)) == Ok(DayValues(days))
  {
    if days != [] {
      var ds := DayDocs(days, trail);
      assert ds[0] == DayDoc(days[0], trail);
      assert ds[1..] == DayDocs(days[1..], trail);
      EvalDayDoc(days[0], trail);
      EvalDayDocs(days[1..], trail);
    }
  }

  /** A schedule's document means the schedule. */
  lemma EvalScheduleDoc(sch: Schedule, trail: bool)
    ensures Eval(ScheduleDoc(sch, trail)) == Ok(VSchedule(sch))
  {
    var fs := [Field("days", DArr(DayDocs(sch.days, trail), trail))];
    EvalDayDocs(sch.days, trail);
    var vs := DayValues(sch.days);
    var m: Fields := map["days" := VArr(vs)];
    assert fs[1..] == [];
    assert EvalFields(fs, map[]) == Ok(m);
    assert ArrayField(m, "days") == vs;
    assert CollectDays(vs).value == sch.days;
  }

  /** Round trip through the parser: any token stream that spells a
      schedule's document, with or without trailing commas and followed by
      anything at all, parses to that schedule. */
  lemma ParseScheduleTokens(toks: seq<Token>, sch: Schedule, trail: bool)
    requires Spells(toks, 0, Emit(ScheduleDoc(sch, trail)))
    ensures Parse(toks) == Ok(sch)
  {
    ParseEmitted(toks, 0, ScheduleDoc(sch, trail));
    EvalScheduleDoc(sch, trail);
  }
}

/** Turns a closed record, its type name and its parsed fields, into one of
    the three document kinds. Scalar fields and the `days` / `lessons`
    containers are lenient (absent or mistyped gives the empty value), but
    every element inside a container must already be a record of the right
    kind. */
module Materializer {
  import opened Bytes
  import opened Results
  import opened Schedules
  import opened Values

  /** The string stored under `key`, or the empty string when the field is
      absent or holds anything else. */
  function StringField(fields: Fields, key: Bytes): Bytes
  {
    if key in fields && fields[key].VStr? then fields[key].s else []
  }

  /** The elements of the array stored under `key`, or none when the field
      is absent or holds anything else. */
  function ArrayField(fields: Fields, key: Bytes): seq<Value>
  {
    if key in fields && fields[key].VArr? then fields[key].elems else []
  }

  /** Index of the first element that is not a Day (|elems| if none). */
  function FirstNonDay(elems: seq<Value>): (k: nat)
    ensures k <= |elems|
    ensures forall j :: 0 <= j < k ==> elems[j].VDay?
    ensures k < |elems| ==> !elems[k].VDay?
  {
    if elems == [] || !elems[0].VDay? then 0 else 1 + FirstNonDay(elems[1..])
  }

  /** Index of the first element that is not a Lesson (|elems| if none). */
  function FirstNonLesson(elems: seq<Value>): (k: nat)
    ensures k <= |elems|
    ensures forall j :: 0 <= j < k ==> elems[j].VLesson?
    ensures k < |elems| ==> !elems[k].VLesson?
  {
    if elems == [] || !elems[0].VLesson? then 0 else 1 + FirstNonLesson(elems[1..])
  }

  /** The Days held by `elems`, in order; the first element that is not a Day
      is reported with its dynamic type. */
  function CollectDays(elems: seq<Value>): (r: Result<seq<Day>, ParseError>)
    ensures r.Ok? <==> forall k :: 0 <= k < |elems| ==> elems[k].VDay?
    ensures r.Ok? ==>
      && |r.value| == |elems|
      && forall k :: 0 <= k < |elems| ==> r.value[k] == elems[k].day
    ensures r.Err? ==>
      var k := FirstNonDay(elems);
      k < |elems| && r.error == DayExpected(TagOf(elems[k]))
  {
    if elems == [] then Ok([])
    else if !elems[0].VDay? then Err(DayExpected(TagOf(elems[0])))
    else
      match CollectDays(elems[1..])
      case Err(e) => Err(e)
      case Ok(rest) => Ok([elems[0].day] + rest)
  }

  /** The Lessons held by `elems`, in order; the first element that is not a
      Lesson is reported with its dynamic type. */
  function CollectLessons(elems: seq<Value>): (r: Result<seq<Lesson>, ParseError>)
    ensures r.Ok? <==> forall k :: 0 <= k < |elems| ==> elems[k].VLesson?
    ensures r.Ok? ==>
      && |r.value| == |elems|
      && forall k :: 0 <= k < |elems| ==> r.value[k] == elems[k].lesson
    ensures r.Err? ==>
      var k := FirstNonLesson(elems);
      k < |elems| && r.error == LessonExpected(TagOf(elems[k]))
  {
    if elems == [] then Ok([])
    else if !elems[0].VLesson? then Err(LessonExpected(TagOf(elems[0])))
    else
      match CollectLessons(elems[1..])
      case Err(e) => Err(e)
      case Ok(rest) => Ok([elems[0].lesson] + rest)
  }

  /** Dispatch on the record's type name over the closed set of three kinds. */
  function Materialize(name: Bytes, fields: Fields): (r: Result<Value, ParseError>)
    ensures name !in {"Schedule", "Day", "Lesson"} <==> r == Err(UnknownType(name))
    ensures r.Ok? ==>
      && (name == "Schedule" ==> r.value.VSchedule?)
      && (name == "Day" ==> r.value.VDay?)
      && (name == "Lesson" ==> r.value.VLesson?)
    // a Lesson never fails: each of its six fields is the string given, or empty
    ensures name == "Lesson" ==>
      && r.Ok?
      && var l := r.value.lesson;
      && (forall key :: key in {"time", "subject", "teacher", "room", "building", "type"} ==>
            key !in fields || !fields[key].VStr? ==> LessonField(l, key) == [])
      && (forall key :: key in {"time", "subject", "teacher", "room", "building", "type"} ==>
            key in fields && fields[key].VStr? ==> LessonField(l, key) == fields[key].s)
    // a Schedule fails exactly when its `days` array holds a non-Day
    ensures name == "Schedule" ==>
      var elems := ArrayField(fields, "days");
      && (r.Ok? <==> forall k :: 0 <= k < |elems| ==> elems[k].VDay?)
      && (r.Ok? ==>
            && |r.value.schedule.days| == |elems|
            && forall k :: 0 <= k < |elems| ==> r.value.schedule.days[k] == elems[k].day)
      && (r.Err? ==> r.error.DayExpected?)
    // a Day fails exactly when its `lessons` array holds a non-Lesson
    ensures name == "Day" ==>
      var elems := ArrayField(fields, "lessons");
      && (r.Ok? <==> forall k :: 0 <= k < |elems| ==> elems[k].VLesson?)
      && (r.Ok? ==>
            && r.value.day.name == StringField(fields, "name")
            && |r.value.day.lessons| == |elems|
            && forall k :: 0 <= k < |elems| ==> r.value.day.lessons[k] == elems[k].lesson)
      && (r.Err? ==> r.error.LessonExpected?)
  {
    if name == "Schedule" then
      match CollectDays(ArrayField(fields, "days"))
      case Err(e) => Err(e)
      case Ok(days) => Ok(VSchedule(Schedule(days)))
    else if name == "Day" then
      match CollectLessons(ArrayField(fields, "lessons"))
      case Err(e) => Err(e)
      case Ok(lessons) => Ok(VDay(Day(StringField(fields, "name"), lessons)))
    else if name == "Lesson" then
      Ok(VLesson(Lesson(
        StringField(fields, "time"),
        StringField(fields, "subject"),
        StringField(fields, "teacher"),
        StringField(fields, "room"),
        StringField(fields, "building"),
        StringField(fields, "type"))))
    else Err(UnknownType(name))
  }

  /** A lesson's field by its name in the textual forms. */
  function LessonField(l: Lesson, key: Bytes): Bytes
  {
    match key
    case "time" => l.time
    case "subject" => l.subject
    case "teacher" => l.teacher
    case "room" => l.room
    case "building" => l.building
    case "type" => l.lessonType
    case _ => []
  }
}

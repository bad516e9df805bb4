/** The values the parser builds and the errors it reports. Records never
    survive generically: a closed record is materialized at once into one of
    the three document kinds, so a value is a string, an array, or one of
    those. */
module Values {
  import opened Bytes
  import opened Schedules
  import Lexer

  datatype Value =
    | VStr(s: Bytes)
    | VArr(elems: seq<Value>)
    | VSchedule(schedule: Schedule)
    | VDay(day: Day)
    | VLesson(lesson: Lesson)

  /** The dynamic type the Go program's messages print with `%T`. */
  datatype Tag = TString | TArray | TSchedule | TDay | TLesson

  function TagOf(v: Value): (t: Tag)
    ensures t == TString <==> v.VStr?
    ensures t == TArray <==> v.VArr?
    ensures t == TSchedule <==> v.VSchedule?
    ensures t == TDay <==> v.VDay?
    ensures t == TLesson <==> v.VLesson?
  {
    match v
    case VStr(_) => TString
    case VArr(_) => TArray
    case VSchedule(_) => TSchedule
    case VDay(_) => TDay
    case VLesson(_) => TLesson
  }

  /** Field names to values; a later field of the same name replaces an
      earlier one. */
  type Fields = map<Bytes, Value>

  /** One variant per error the parser and the materializer report, with
      the data the message carries. */
  datatype ParseError =
      // `expect` met another kind of token
    | Expected(want: Lexer.Kind, got: Lexer.Kind, pos: nat)
      // a value cannot start with this token
    | UnexpectedToken(got: Lexer.Kind, pos: nat)
      // after an element or a field, neither `,` nor the closer
    | ExpectedSeparator(closer: Lexer.Kind, got: Lexer.Kind, pos: nat)
      // a field list entry does not start with an identifier
    | ExpectedFieldName(got: Lexer.Kind, pos: nat)
      // an element of `days` is not a Day
    | DayExpected(found: Tag)
      // an element of `lessons` is not a Lesson
    | LessonExpected(found: Tag)
      // a record of a type other than Schedule, Day, Lesson
    | UnknownType(name: Bytes)
      // the root value is not a Schedule
    | RootNotSchedule(found: Tag)
}

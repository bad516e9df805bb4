/** The three record kinds of a schedule document. */
module Schedules {
  import opened Bytes

  /** One lesson; `lessonType` is the Go struct's `Type` field (`type` in every
      textual form). */
  datatype Lesson = Lesson(
    time: Bytes,
    subject: Bytes,
    teacher: Bytes,
    room: Bytes,
    building: Bytes,
    lessonType: Bytes)

  datatype Day = Day(name: Bytes, lessons: seq<Lesson>)

  datatype Schedule = Schedule(days: seq<Day>)

  /** Number of lessons over all the given days. */
  function TotalLessons(days: seq<Day>): nat
  {
    if days == [] then 0 else |days[0].lessons| + TotalLessons(days[1..])
  }

  /** A lesson's six fields under their textual names, in the fixed order
      both writers use. */
  function LessonFields(l: Lesson): seq<(Bytes, Bytes)>
  {
    [ ("time", l.time),
      ("subject", l.subject),
      ("teacher", l.teacher),
      ("room", l.room),
      ("building", l.building),
      ("type", l.lessonType) ]
  }
}

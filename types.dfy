/** Record shapes of the scheduler (teacher-scheduler-app/src/types.ts). */
module Types {

  datatype Option<+T> = None | Some(value: T)

  /** A class time as it reaches the scheduler: a native Date, or the ISO-8601
      text that a persisted snapshot carries. Either way it denotes one instant,
      in milliseconds since the epoch. */
  datatype Stamp = DateValue(ms: int) | IsoString(ms: int)

  /** The instant a stamp denotes (`new Date(x)` on either form). */
  function Instant(s: Stamp): int
  {
    match s
    case DateValue(ms) => ms
    case IsoString(ms) => ms
  }

  datatype Teacher = Teacher(id: string, name: string)

  datatype Group = Group(id: string, name: string, teacherId: string, studentIds: seq<string>)

  datatype Student = Student(id: string, name: string, crmProfileLink: string)

  /** A one-hour class; `groupId` is set for a group class, `studentId` for an
      individual one. */
  datatype ScheduledClass = ScheduledClass(
    id: string,
    groupId: Option<string>,
    studentId: Option<string>,
    teacherId: string,
    startTime: Stamp,
    endTime: Stamp)

  /** Start instant of a class. */
  function Start(c: ScheduledClass): int
  {
    Instant(c.startTime)
  }

  /** A full snapshot of the store, as imported or exported. */
  datatype AppData = AppData(
    teachers: seq<Teacher>,
    groups: seq<Group>,
    students: seq<Student>,
    scheduledClasses: seq<ScheduledClass>,
    version: string,
    lastModified: string)
}

/** The entities the course grade factory works with. */
module GradeTypes {
  import opened Wrappers

  type UserId = int
  type CourseKey = string
  type Hash = string
  type Timestamp = int

  /** Primary key of a persisted course grade: (user_id, course_id). */
  datatype Key = Key(userId: UserId, courseId: CourseKey)

  /** The identity and versioning of one course, as CourseData exposes it.
      courseEnd is the course's end date, sent as the deadline of a grade change. */
  datatype CourseData = CourseData(
    courseKey: CourseKey,
    version: Option<string>,
    editedOn: Option<Timestamp>,
    gradingPolicyHash: Hash,
    courseEnd: Option<Timestamp>)

  /** One row of the PersistentCourseGrade table. `passed` stands for
      "passed_timestamp is set"; the timestamp's value is never read here. */
  datatype PersistentCourseGrade = PersistentCourseGrade(
    courseVersion: Option<string>,
    courseEditedTimestamp: Option<Timestamp>,
    gradingPolicyHash: Hash,
    percentGrade: real,
    letterGrade: string,
    passed: bool)

  /** What the grade calculator (CourseGrade.update) produces for a learner. */
  datatype Breakdown = Breakdown(percent: real, letterGrade: Option<string>, passed: bool, attempted: bool)

  /** How a CourseGrade object came to be: a ZeroCourseGrade, a CourseGrade
      built from a stored row, or a CourseGrade freshly computed. */
  datatype GradeOrigin = Zero | Stored | Computed(attempted: bool)

  datatype CourseGrade = CourseGrade(
    user: UserId,
    courseKey: CourseKey,
    percent: real,
    letterGrade: Option<string>,
    passed: bool,
    origin: GradeOrigin)

  /** An exception raised while grading one learner. */
  datatype Exception = Exception(message: string)

  /** The grade calculator: a total function that either yields a breakdown or raises. */
  type Calculator = (UserId, CourseData) -> Result<Breakdown, Exception>

  /** The configuration the factory consults: assume_zero_if_absent and
      should_persist_grades per course, and the WRITE_ONLY_IF_ENGAGED switch. */
  datatype Config = Config(
    assumeZeroIfAbsent: CourseKey -> bool,
    shouldPersistGrades: CourseKey -> bool,
    writeOnlyIfEngaged: bool)

  /** The signals the factory sends. */
  datatype Signal =
    | CourseGradeChanged(user: UserId, courseGrade: CourseGrade, courseKey: CourseKey, deadline: Option<Timestamp>)
    | CourseGradeNowPassed(user: UserId, courseKey: CourseKey)

  /** GradeResult(student, course_grade, error), one per learner of a batch. */
  datatype GradeResult = GradeResult(student: UserId, courseGrade: Option<CourseGrade>, error: Option<Exception>)

  /** The state the factory reads and changes: the grade table and the signals sent so far. */
  datatype Snapshot = Snapshot(store: map<Key, PersistentCourseGrade>, signals: seq<Signal>)
}

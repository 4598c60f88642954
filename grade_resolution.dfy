/** The grade resolution protocol of CourseGradeFactory, as functions of a
    state snapshot, the configuration and the grade calculator. */
module GradeResolution {
  import opened Wrappers
  import opened GradeTypes

  function KeyOf(user: UserId, cd: CourseData): (k: Key) {
    Key(user, cd.courseKey)
  }

  /** A stored grade is visible only when grades of the course are persisted. */
  predicate HasStoredGrade(cfg: Config, store: map<Key, PersistentCourseGrade>, user: UserId, cd: CourseData) {
    cfg.shouldPersistGrades(cd.courseKey) && KeyOf(user, cd) in store
  }

  /** _create_zero: the ZeroCourseGrade of a learner. */
  function ZeroGrade(user: UserId, cd: CourseData): (g: CourseGrade)
    ensures g.user == user && g.courseKey == cd.courseKey
    ensures g.percent == 0.0 && g.letterGrade == None && !g.passed && g.origin == Zero
  {
    CourseGrade(user, cd.courseKey, 0.0, None, false, Zero)
  }

  /** The CourseGrade built from a stored row. */
  function StoredGrade(user: UserId, cd: CourseData, row: PersistentCourseGrade): (g: CourseGrade) {
    CourseGrade(user, cd.courseKey, row.percentGrade, Some(row.letterGrade), row.passed, Stored)
  }

  /** _read: the stored grade and the policy hash it was computed under;
      None stands for PersistentCourseGrade.DoesNotExist. */
  function ReadPersisted(cfg: Config, store: map<Key, PersistentCourseGrade>, user: UserId, cd: CourseData)
    : (r: Option<(CourseGrade, Hash)>)
    ensures r.Some? <==> HasStoredGrade(cfg, store, user, cd)
    ensures r.Some? ==>
      var row := store[KeyOf(user, cd)];
      && r.value.1 == row.gradingPolicyHash
      && r.value.0.user == user && r.value.0.courseKey == cd.courseKey
      && r.value.0.percent == row.percentGrade
      && r.value.0.letterGrade == Some(row.letterGrade)
      && (r.value.0.passed <==> row.passed)
  {
    if !cfg.shouldPersistGrades(cd.courseKey) then None
    else if KeyOf(user, cd) !in store then None
    else
      var row := store[KeyOf(user, cd)];
      Some((StoredGrade(user, cd, row), row.gradingPolicyHash))
  }

  /** The ways create can go before any recomputation. */
  datatype Decision = FastReturn(grade: CourseGrade) | ZeroReturn(grade: CourseGrade) | Recompute(readOnly: bool)

  /** The try/except of create: return the stored grade when its policy hash is
      current, a zero grade when absent and assumed zero, else recompute; a
      recompute persists only when a row existed (the stale-policy case). */
  function Decide(cfg: Config, store: map<Key, PersistentCourseGrade>, user: UserId, cd: CourseData): (d: Decision)
    ensures d.FastReturn? <==>
      HasStoredGrade(cfg, store, user, cd) && store[KeyOf(user, cd)].gradingPolicyHash == cd.gradingPolicyHash
    ensures d.FastReturn? ==> d.grade == StoredGrade(user, cd, store[KeyOf(user, cd)])
    ensures d.ZeroReturn? <==> !HasStoredGrade(cfg, store, user, cd) && cfg.assumeZeroIfAbsent(cd.courseKey)
    ensures d.ZeroReturn? ==> d.grade == ZeroGrade(user, cd)
    ensures d == Recompute(false) <==>
      HasStoredGrade(cfg, store, user, cd) && store[KeyOf(user, cd)].gradingPolicyHash != cd.gradingPolicyHash
    ensures d == Recompute(true) <==> !HasStoredGrade(cfg, store, user, cd) && !cfg.assumeZeroIfAbsent(cd.courseKey)
  {
    match ReadPersisted(cfg, store, user, cd)
    case Some((grade, hash)) =>
      if hash == cd.gradingPolicyHash then FastReturn(grade) else Recompute(false)
    case None =>
      if cfg.assumeZeroIfAbsent(cd.courseKey) then ZeroReturn(ZeroGrade(user, cd)) else Recompute(true)
  }

  /** CourseGrade(user, course_data).update(): the freshly computed grade, or the exception raised. */
  function ComputeGrade(grader: Calculator, user: UserId, cd: CourseData): (r: Result<CourseGrade, Exception>)
  {
    match grader(user, cd)
    case Success(b) => Success(CourseGrade(user, cd.courseKey, b.percent, b.letterGrade, b.passed, Computed(b.attempted)))
    case Failure(e) => Failure(e)
  }

  /** The persistence gate of _update. */
  predicate ShouldPersist(cfg: Config, cd: CourseData, readOnly: bool, b: Breakdown) {
    !readOnly && cfg.shouldPersistGrades(cd.courseKey) && (!cfg.writeOnlyIfEngaged || b.attempted)
  }

  /** Python's `letter_grade or ""`. */
  function LetterOrEmpty(letter: Option<string>): (l: string) {
    match letter
    case Some(l) => l
    case None => ""
  }

  /** The row update_or_create stores for a computed breakdown. */
  function PersistedRow(cd: CourseData, b: Breakdown): (row: PersistentCourseGrade) {
    PersistentCourseGrade(cd.version, cd.editedOn, cd.gradingPolicyHash, b.percent, LetterOrEmpty(b.letterGrade), b.passed)
  }

  /** The signals _update sends for a grade, in order. */
  function GradeSignals(user: UserId, cd: CourseData, grade: CourseGrade): (signals: seq<Signal>) {
    [CourseGradeChanged(user, grade, cd.courseKey, cd.courseEnd)]
      + (if grade.passed then [CourseGradeNowPassed(user, cd.courseKey)] else [])
  }

  /** The result of one resolution and the state after it. */
  datatype Step = Step(result: Result<CourseGrade, Exception>, after: Snapshot)

  /** _update: recompute; upsert exactly the learner's row when the gate allows;
      send COURSE_GRADE_CHANGED and, only for a passing grade, COURSE_GRADE_NOW_PASSED.
      An exception from the calculator propagates before anything is written or sent. */
  function UpdateSpec(cfg: Config, grader: Calculator, w: Snapshot, user: UserId, cd: CourseData, readOnly: bool)
    : (s: Step)
    ensures s.result == ComputeGrade(grader, user, cd)
    ensures grader(user, cd).Failure? ==> s.after == w
    ensures grader(user, cd).Success? ==>
      var b := grader(user, cd).value;
      && s.after.store == (if ShouldPersist(cfg, cd, readOnly, b)
                           then w.store[KeyOf(user, cd) := PersistedRow(cd, b)]
                           else w.store)
      && s.after.signals == w.signals + [CourseGradeChanged(user, s.result.value, cd.courseKey, cd.courseEnd)]
                            + (if b.passed then [CourseGradeNowPassed(user, cd.courseKey)] else [])
  {
    match ComputeGrade(grader, user, cd)
    case Failure(e) => Step(Failure(e), w)
    case Success(grade) =>
      var b := grader(user, cd).value;
      var store' := if ShouldPersist(cfg, cd, readOnly, b) then w.store[KeyOf(user, cd) := PersistedRow(cd, b)] else w.store;
      Step(Success(grade), Snapshot(store', w.signals + GradeSignals(user, cd, grade)))
  }

  /** create: the decision of Decide, then _update for a recompute. */
  function CreateSpec(cfg: Config, grader: Calculator, w: Snapshot, user: UserId, cd: CourseData): (s: Step)
    // fast path: the stored grade, nothing computed, written or sent
    ensures HasStoredGrade(cfg, w.store, user, cd) && w.store[KeyOf(user, cd)].gradingPolicyHash == cd.gradingPolicyHash
      ==> s == Step(Success(StoredGrade(user, cd, w.store[KeyOf(user, cd)])), w)
    // absent and assumed zero: a zero grade, nothing written or sent
    ensures !HasStoredGrade(cfg, w.store, user, cd) && cfg.assumeZeroIfAbsent(cd.courseKey) ==>
      s == Step(Success(ZeroGrade(user, cd)), w)
    // absent, not assumed zero: recomputed read-only, so never stored, yet still signalled
    ensures !HasStoredGrade(cfg, w.store, user, cd) && !cfg.assumeZeroIfAbsent(cd.courseKey) ==>
      && s == UpdateSpec(cfg, grader, w, user, cd, true)
      && s.after.store == w.store
      && (grader(user, cd).Success? ==> |s.after.signals| > |w.signals| && s.after.signals[|w.signals|].CourseGradeChanged?)
    // stored under another policy: recomputed and persisted under the usual gate
    ensures HasStoredGrade(cfg, w.store, user, cd) && w.store[KeyOf(user, cd)].gradingPolicyHash != cd.gradingPolicyHash
      ==> s == UpdateSpec(cfg, grader, w, user, cd, false)
    ensures w.signals <= s.after.signals
  {
    match Decide(cfg, w.store, user, cd)
    case FastReturn(grade) => Step(Success(grade), w)
    case ZeroReturn(grade) => Step(Success(grade), w)
    case Recompute(readOnly) => UpdateSpec(cfg, grader, w, user, cd, readOnly)
  }

  /** The choice _iter_grade_result makes between update and create. */
  function ResolveSpec(cfg: Config, grader: Calculator, w: Snapshot, user: UserId, cd: CourseData, forceUpdate: bool)
    : (s: Step)
    // force_update: recomputed whatever the table holds; an exception changes nothing
    ensures forceUpdate ==> s.result == ComputeGrade(grader, user, cd)
    ensures forceUpdate && grader(user, cd).Failure? ==> s.after == w
    // otherwise a current stored grade is returned as it is, with nothing changed
    ensures !forceUpdate && Decide(cfg, w.store, user, cd).FastReturn? ==>
      s.after == w && s.result == Success(Decide(cfg, w.store, user, cd).grade)
    // and a first-time grade is recomputed but never stored
    ensures !forceUpdate && Decide(cfg, w.store, user, cd) == Recompute(true) ==>
      s.result == ComputeGrade(grader, user, cd) && s.after.store == w.store
  {
    if forceUpdate then UpdateSpec(cfg, grader, w, user, cd, false) else CreateSpec(cfg, grader, w, user, cd)
  }

  /** The GradeResult for a learner: (user, grade, None) on success, (user, None, exc) on failure. */
  function ToGradeResult(user: UserId, r: Result<CourseGrade, Exception>): (g: GradeResult)
    ensures g.student == user
    ensures g.courseGrade.Some? <==> g.error.None?
    ensures r.Success? ==> g.courseGrade == Some(r.value)
    ensures r.Failure? ==> g.error == Some(r.error)
  {
    match r
    case Success(grade) => GradeResult(user, Some(grade), None)
    case Failure(e) => GradeResult(user, None, Some(e))
  }

  /** The results of a batch and the state after it. */
  datatype Batch = Batch(results: seq<GradeResult>, after: Snapshot)

  /** iter: one resolution per learner, in input order, all against the same course data,
      each learner's state change seen by the next; a failure becomes that learner's result. */
  function IterSpec(cfg: Config, grader: Calculator, w: Snapshot, users: seq<UserId>, cd: CourseData, forceUpdate: bool)
    : (b: Batch)
    ensures |b.results| == |users|
    decreases |users|
  {
    if users == [] then Batch([], w)
    else
      var step := ResolveSpec(cfg, grader, w, users[0], cd, forceUpdate);
      var rest := IterSpec(cfg, grader, step.after, users[1..], cd, forceUpdate);
      Batch([ToGradeResult(users[0], step.result)] + rest.results, rest.after)
  }

  /** A batch yields exactly one result per learner, in input order, each with
      exactly one of grade and error, and only appends to the signals. */
  lemma {:induction false} IterResultsFollowLearners(
    cfg: Config, grader: Calculator, w: Snapshot, users: seq<UserId>, cd: CourseData, forceUpdate: bool)
    ensures
      var b := IterSpec(cfg, grader, w, users, cd, forceUpdate);
      && |b.results| == |users|
      && (forall i :: 0 <= i < |users| ==> b.results[i].student == users[i])
      && (forall i :: 0 <= i < |users| ==> (b.results[i].courseGrade.Some? <==> b.results[i].error.None?))
      && w.signals <= b.after.signals
    decreases |users|
  {
    if users != [] {
      var step := ResolveSpec(cfg, grader, w, users[0], cd, forceUpdate);
      IterResultsFollowLearners(cfg, grader, step.after, users[1..], cd, forceUpdate);
      var rest := IterSpec(cfg, grader, step.after, users[1..], cd, forceUpdate);
      var b := IterSpec(cfg, grader, w, users, cd, forceUpdate);
      forall i | 0 <= i < |users|
        ensures b.results[i].student == users[i]
        ensures b.results[i].courseGrade.Some? <==> b.results[i].error.None?
      {
        if i > 0 {
          assert b.results[i] == rest.results[i - 1];
          assert users[i] == users[1..][i - 1];
        }
      }
    }
  }

  /** One more learner of a batch done: if the results so far followed by the
      batch of the remaining learners make up the whole batch, that still holds
      after resolving the next learner. */
  lemma IterSpecAdvance(cfg: Config, grader: Calculator, users: seq<UserId>, cd: CourseData, forceUpdate: bool,
                        i: nat, results: seq<GradeResult>, before: Snapshot, after: Snapshot, g: GradeResult, total: Batch)
    requires i < |users|
    requires results + IterSpec(cfg, grader, before, users[i..], cd, forceUpdate).results == total.results
    requires IterSpec(cfg, grader, before, users[i..], cd, forceUpdate).after == total.after
    requires ResolveSpec(cfg, grader, before, users[i], cd, forceUpdate).after == after
    requires g == ToGradeResult(users[i], ResolveSpec(cfg, grader, before, users[i], cd, forceUpdate).result)
    ensures (results + [g]) + IterSpec(cfg, grader, after, users[i + 1..], cd, forceUpdate).results == total.results
    ensures IterSpec(cfg, grader, after, users[i + 1..], cd, forceUpdate).after == total.after
  {
  }
}

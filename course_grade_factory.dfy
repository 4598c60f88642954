/** CourseGradeFactory with the grade table, the signal log and the
    VisibleBlocks cache clears as state it changes. */
module GradeFactory {
  import opened Wrappers
  import opened GradeTypes
  import opened GradeResolution

  class CourseGradeFactory {
    /** PersistentCourseGrade rows, keyed by (user_id, course_id). */
    var store: map<Key, PersistentCourseGrade>
    /** Signals sent, oldest first. */
    var signals: seq<Signal>
    /** Courses whose VisibleBlocks cache was cleared, in order. */
    var clearedCaches: seq<CourseKey>

    constructor (rows: map<Key, PersistentCourseGrade>)
      ensures store == rows && signals == [] && clearedCaches == []
    {
      store := rows;
      signals := [];
      clearedCaches := [];
    }

    function State(): (w: Snapshot)
      reads this
    {
      Snapshot(store, signals)
    }

    /** read: the stored grade whatever its policy hash; else a zero grade when
        assumed zero, else None. Nothing is computed, written or sent. */
    function Read(cfg: Config, user: UserId, cd: CourseData): (r: Option<CourseGrade>)
      reads this
      ensures HasStoredGrade(cfg, store, user, cd) ==>
        var row := store[KeyOf(user, cd)];
        && r == Some(StoredGrade(user, cd, row))
        && r.value.percent == row.percentGrade && r.value.letterGrade == Some(row.letterGrade)
        && (r.value.passed <==> row.passed)
      ensures !HasStoredGrade(cfg, store, user, cd) && cfg.assumeZeroIfAbsent(cd.courseKey) ==>
        r == Some(ZeroGrade(user, cd))
      ensures !HasStoredGrade(cfg, store, user, cd) && !cfg.assumeZeroIfAbsent(cd.courseKey) ==> r.None?
    {
      match ReadPersisted(cfg, store, user, cd)
      case Some((grade, _)) => Some(grade)
      case None => if cfg.assumeZeroIfAbsent(cd.courseKey) then Some(ZeroGrade(user, cd)) else None
    }

    /** _update. */
    method UpdateGrade(cfg: Config, grader: Calculator, user: UserId, cd: CourseData, readOnly: bool)
      returns (r: Result<CourseGrade, Exception>)
      modifies this
      ensures var s := UpdateSpec(cfg, grader, old(State()), user, cd, readOnly); r == s.result && State() == s.after
      ensures clearedCaches == old(clearedCaches)
    {
      var computed := grader(user, cd);
      if computed.Failure? {
        return Failure(computed.error);
      }
      var b := computed.value;
      var grade := CourseGrade(user, cd.courseKey, b.percent, b.letterGrade, b.passed, Computed(b.attempted));
      var shouldPersist := !readOnly && cfg.shouldPersistGrades(cd.courseKey) && (!cfg.writeOnlyIfEngaged || b.attempted);
      if shouldPersist {
        store := store[KeyOf(user, cd) := PersistedRow(cd, b)];
      }
      signals := signals + [CourseGradeChanged(user, grade, cd.courseKey, cd.courseEnd)];
      if grade.passed {
        signals := signals + [CourseGradeNowPassed(user, cd.courseKey)];
      }
      r := Success(grade);
    }

    /** create. */
    method Create(cfg: Config, grader: Calculator, user: UserId, cd: CourseData)
      returns (r: Result<CourseGrade, Exception>)
      modifies this
      ensures var s := CreateSpec(cfg, grader, old(State()), user, cd); r == s.result && State() == s.after
      ensures clearedCaches == old(clearedCaches)
    {
      var readOnly: bool;
      var read := ReadPersisted(cfg, store, user, cd);
      if read.Some? {
        var (grade, readPolicyHash) := read.value;
        if readPolicyHash == cd.gradingPolicyHash {
          return Success(grade);
        }
        readOnly := false;
      } else {
        if cfg.assumeZeroIfAbsent(cd.courseKey) {
          return Success(ZeroGrade(user, cd));
        }
        readOnly := true;
      }
      r := UpdateGrade(cfg, grader, user, cd, readOnly);
    }

    /** update: always recompute, never read-only. */
    method Update(cfg: Config, grader: Calculator, user: UserId, cd: CourseData)
      returns (r: Result<CourseGrade, Exception>)
      modifies this
      ensures var s := UpdateSpec(cfg, grader, old(State()), user, cd, false); r == s.result && State() == s.after
      ensures clearedCaches == old(clearedCaches)
    {
      r := UpdateGrade(cfg, grader, user, cd, false);
    }

    /** _iter_grade_result: update or create, with an exception turned into the result. */
    method IterGradeResult(cfg: Config, grader: Calculator, user: UserId, cd: CourseData, forceUpdate: bool)
      returns (g: GradeResult)
      modifies this
      ensures var s := ResolveSpec(cfg, grader, old(State()), user, cd, forceUpdate);
        g == ToGradeResult(user, s.result) && State() == s.after
      ensures clearedCaches == old(clearedCaches)
    {
      var r;
      if forceUpdate {
        r := Update(cfg, grader, user, cd);
      } else {
        r := Create(cfg, grader, user, cd);
      }
      match r
      case Success(grade) => g := GradeResult(user, Some(grade), None);
      case Failure(e) => g := GradeResult(user, None, Some(e));
    }

    /** The exit of _course_transaction: clear the course's VisibleBlocks cache. */
    method EndCourseTransaction(courseKey: CourseKey)
      modifies this
      ensures clearedCaches == old(clearedCaches) + [courseKey]
      ensures State() == old(State())
    {
      clearedCaches := clearedCaches + [courseKey];
    }

    /** iter: one GradeResult per learner, in order, against one course data;
        the course cache is cleared once, after the last learner. */
    method Iter(cfg: Config, grader: Calculator, users: seq<UserId>, cd: CourseData, forceUpdate: bool)
      returns (results: seq<GradeResult>)
      modifies this
      ensures var b := IterSpec(cfg, grader, old(State()), users, cd, forceUpdate);
        results == b.results && State() == b.after
      ensures clearedCaches == old(clearedCaches) + [cd.courseKey]
    {
      ghost var total := IterSpec(cfg, grader, State(), users, cd, forceUpdate);
      results := [];
      var i := 0;
      while i < |users|
        invariant 0 <= i <= |users|
        invariant clearedCaches == old(clearedCaches)
        invariant results + IterSpec(cfg, grader, State(), users[i..], cd, forceUpdate).results == total.results
        invariant IterSpec(cfg, grader, State(), users[i..], cd, forceUpdate).after == total.after
      {
        ghost var before := State();
        var g := IterGradeResult(cfg, grader, users[i], cd, forceUpdate);
        IterSpecAdvance(cfg, grader, users, cd, forceUpdate, i, results, before, State(), g, total);
        results := results + [g];
        i := i + 1;
      }
      assert users[i..] == [];
      EndCourseTransaction(cd.courseKey);
    }
  }
}

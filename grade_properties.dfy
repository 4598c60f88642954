/** Properties of the resolution protocol that relate several calls. */
module GradeProperties {
  import opened Wrappers
  import opened GradeTypes
  import opened GradeResolution

  /** A grade persisted by _update is what the next create returns, without
      recomputing, writing or signalling; only the letter comes back as `letter or ""`. */
  lemma StoredGradeIsReused(cfg: Config, grader: Calculator, w: Snapshot, user: UserId, cd: CourseData, readOnly: bool)
    requires grader(user, cd).Success?
    requires ShouldPersist(cfg, cd, readOnly, grader(user, cd).value)
    ensures
      var b := grader(user, cd).value;
      var first := UpdateSpec(cfg, grader, w, user, cd, readOnly);
      var second := CreateSpec(cfg, grader, first.after, user, cd);
      && second.after == first.after
      && second.result == Success(CourseGrade(user, cd.courseKey, b.percent, Some(LetterOrEmpty(b.letterGrade)), b.passed, Stored))
  {
  }

  /** Two creates after the grading policy changed: the first recomputes and
      (under the gate) persists, the second takes the fast path. */
  lemma StaleGradeIsRecomputedOnce(cfg: Config, grader: Calculator, w: Snapshot, user: UserId, cd: CourseData)
    requires HasStoredGrade(cfg, w.store, user, cd)
    requires w.store[KeyOf(user, cd)].gradingPolicyHash != cd.gradingPolicyHash
    requires grader(user, cd).Success?
    requires !cfg.writeOnlyIfEngaged || grader(user, cd).value.attempted
    ensures
      var first := CreateSpec(cfg, grader, w, user, cd);
      var second := CreateSpec(cfg, grader, first.after, user, cd);
      && first.after.store[KeyOf(user, cd)].gradingPolicyHash == cd.gradingPolicyHash
      && second.after == first.after
      && var b := grader(user, cd).value;
         second.result == Success(CourseGrade(user, cd.courseKey, b.percent, Some(LetterOrEmpty(b.letterGrade)), b.passed, Stored))
  {
  }

  /** A first-time grade stays un-persisted: every create recomputes it again
      and signals again, and the table never changes. */
  lemma FirstTimeGradeIsRecomputedEachTime(cfg: Config, grader: Calculator, w: Snapshot, user: UserId, cd: CourseData)
    requires !HasStoredGrade(cfg, w.store, user, cd)
    requires !cfg.assumeZeroIfAbsent(cd.courseKey)
    ensures
      var first := CreateSpec(cfg, grader, w, user, cd);
      var second := CreateSpec(cfg, grader, first.after, user, cd);
      && first.after.store == w.store && second.after.store == w.store
      && Decide(cfg, first.after.store, user, cd) == Recompute(true)
      && second.result == first.result
      && second.after.signals == first.after.signals + first.after.signals[|w.signals|..]
  {
  }

  /** update twice in a row with nothing else changing: equal grades, the same
      table, and the same signals sent a second time. */
  lemma UpdateTwiceAgrees(cfg: Config, grader: Calculator, w: Snapshot, user: UserId, cd: CourseData)
    ensures
      var first := UpdateSpec(cfg, grader, w, user, cd, false);
      var second := UpdateSpec(cfg, grader, first.after, user, cd, false);
      && second.result == first.result
      && second.after.store == first.after.store
      && second.after.signals == first.after.signals + first.after.signals[|w.signals|..]
  {
  }

  /** With persistence off for the course no stored grade is seen and nothing is written. */
  lemma PersistenceOffStoresNothing(cfg: Config, grader: Calculator, w: Snapshot, user: UserId, cd: CourseData, readOnly: bool)
    requires !cfg.shouldPersistGrades(cd.courseKey)
    ensures !Decide(cfg, w.store, user, cd).FastReturn?
    ensures UpdateSpec(cfg, grader, w, user, cd, readOnly).after.store == w.store
    ensures CreateSpec(cfg, grader, w, user, cd).after.store == w.store
  {
  }

  /** An error result in a batch is exactly the exception the calculator raised for that learner. */
  lemma {:induction false} IterErrorsComeFromGrader(
    cfg: Config, grader: Calculator, w: Snapshot, users: seq<UserId>, cd: CourseData, forceUpdate: bool)
    ensures
      var b := IterSpec(cfg, grader, w, users, cd, forceUpdate);
      forall i :: 0 <= i < |users| && b.results[i].error.Some? ==>
        grader(users[i], cd) == Failure(b.results[i].error.value)
    decreases |users|
  {
    if users != [] {
      var step := ResolveSpec(cfg, grader, w, users[0], cd, forceUpdate);
      IterErrorsComeFromGrader(cfg, grader, step.after, users[1..], cd, forceUpdate);
      var b := IterSpec(cfg, grader, w, users, cd, forceUpdate);
      var rest := IterSpec(cfg, grader, step.after, users[1..], cd, forceUpdate);
      assert b.results == [ToGradeResult(users[0], step.result)] + rest.results;
      forall i | 0 <= i < |users| && b.results[i].error.Some?
        ensures grader(users[i], cd) == Failure(b.results[i].error.value)
      {
        if i > 0 {
          assert b.results[i] == rest.results[i - 1];
          assert users[i] == users[1..][i - 1];
        }
      }
    }
  }

  /** With force_update every learner's result depends only on the calculator
      for that learner: a failure for one learner leaves every other result as it would be. */
  lemma {:induction false} IterForceUpdateIsolatesLearners(
    cfg: Config, grader: Calculator, w: Snapshot, users: seq<UserId>, cd: CourseData)
    ensures
      var b := IterSpec(cfg, grader, w, users, cd, true);
      forall i :: 0 <= i < |users| ==> b.results[i] == ToGradeResult(users[i], ComputeGrade(grader, users[i], cd))
    decreases |users|
  {
    if users != [] {
      var step := ResolveSpec(cfg, grader, w, users[0], cd, true);
      IterForceUpdateIsolatesLearners(cfg, grader, step.after, users[1..], cd);
      var b := IterSpec(cfg, grader, w, users, cd, true);
      var rest := IterSpec(cfg, grader, step.after, users[1..], cd, true);
      forall i | 0 <= i < |users|
        ensures b.results[i] == ToGradeResult(users[i], ComputeGrade(grader, users[i], cd))
      {
        if i > 0 {
          assert b.results[i] == rest.results[i - 1];
          assert users[i] == users[1..][i - 1];
        }
      }
    }
  }

  /** The two maps agree at k. */
  ghost predicate SameAt(m: map<Key, PersistentCourseGrade>, m': map<Key, PersistentCourseGrade>, k: Key) {
    (k in m <==> k in m') && (k in m ==> m[k] == m'[k])
  }

  /** A batch writes only the rows of its own learners in its own course. */
  lemma {:induction false} IterTouchesOnlyItsLearners(
    cfg: Config, grader: Calculator, w: Snapshot, users: seq<UserId>, cd: CourseData, forceUpdate: bool)
    ensures
      var b := IterSpec(cfg, grader, w, users, cd, forceUpdate);
      forall k: Key :: (k.courseId != cd.courseKey || k.userId !in users) ==> SameAt(w.store, b.after.store, k)
    decreases |users|
  {
    if users != [] {
      var step := ResolveSpec(cfg, grader, w, users[0], cd, forceUpdate);
      IterTouchesOnlyItsLearners(cfg, grader, step.after, users[1..], cd, forceUpdate);
      var b := IterSpec(cfg, grader, w, users, cd, forceUpdate);
      forall k: Key | k.courseId != cd.courseKey || k.userId !in users
        ensures SameAt(w.store, b.after.store, k)
      {
        assert k.userId !in users ==> k.userId !in users[1..];
        assert SameAt(w.store, step.after.store, k);
      }
    }
  }

  /** With persistence off for the course a batch leaves the table as it was. */
  lemma {:induction false} IterPersistenceOffStoresNothing(
    cfg: Config, grader: Calculator, w: Snapshot, users: seq<UserId>, cd: CourseData, forceUpdate: bool)
    requires !cfg.shouldPersistGrades(cd.courseKey)
    ensures IterSpec(cfg, grader, w, users, cd, forceUpdate).after.store == w.store
    decreases |users|
  {
    if users != [] {
      var step := ResolveSpec(cfg, grader, w, users[0], cd, forceUpdate);
      PersistenceOffStoresNothing(cfg, grader, w, users[0], cd, false);
      IterPersistenceOffStoresNothing(cfg, grader, step.after, users[1..], cd, forceUpdate);
    }
  }

  /** What create returns depends on the table only at the learner's own key. */
  lemma CreateResultIsLocal(cfg: Config, grader: Calculator, w: Snapshot, w': Snapshot, user: UserId, cd: CourseData)
    requires SameAt(w.store, w'.store, KeyOf(user, cd))
    ensures CreateSpec(cfg, grader, w, user, cd).result == CreateSpec(cfg, grader, w', user, cd).result
  {
  }

  /** create changes no row but the learner's own. */
  lemma CreateWritesOnlyItsKey(cfg: Config, grader: Calculator, w: Snapshot, user: UserId, cd: CourseData, k: Key)
    requires k != KeyOf(user, cd)
    ensures SameAt(w.store, CreateSpec(cfg, grader, w, user, cd).after.store, k)
  {
  }

  /** Without force_update, for distinct learners, each result is what create
      would give that learner on the table as the batch found it: earlier
      learners, and their failures, do not affect it. */
  lemma {:induction false} IterCreateIsolatesLearners(
    cfg: Config, grader: Calculator, w: Snapshot, users: seq<UserId>, cd: CourseData)
    requires forall i, j :: 0 <= i < j < |users| ==> users[i] != users[j]
    ensures
      var b := IterSpec(cfg, grader, w, users, cd, false);
      forall i :: 0 <= i < |users| ==> b.results[i] == ToGradeResult(users[i], CreateSpec(cfg, grader, w, users[i], cd).result)
    decreases |users|
  {
    if users != [] {
      var step := ResolveSpec(cfg, grader, w, users[0], cd, false);
      IterCreateIsolatesLearners(cfg, grader, step.after, users[1..], cd);
      var b := IterSpec(cfg, grader, w, users, cd, false);
      var rest := IterSpec(cfg, grader, step.after, users[1..], cd, false);
      forall i | 0 <= i < |users|
        ensures b.results[i] == ToGradeResult(users[i], CreateSpec(cfg, grader, w, users[i], cd).result)
      {
        if i > 0 {
          assert b.results[i] == rest.results[i - 1];
          assert users[i] == users[1..][i - 1];
          CreateWritesOnlyItsKey(cfg, grader, w, users[0], cd, KeyOf(users[i], cd));
          CreateResultIsLocal(cfg, grader, step.after, w, users[i], cd);
        }
      }
    }
  }
}

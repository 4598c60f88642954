# Course grade resolution, modelled in Dafny

This project models the grade-resolution protocol of `CourseGradeFactory`, the LMS component that returns a learner's course grade. For one (learner, course) it decides whether to return the stored grade, return a zero grade, return nothing, or recompute. After a recompute it decides whether to persist the result and which signals to send. A batch operation applies that decision to a sequence of learners and turns each learner's failure into that learner's result.

Files:

- `wrappers.dfy`: `Option` and `Result`.
- `grade_types.dfy`: the entities.
  - Course data: course key, version, edit time, grading-policy hash, course end.
  - The persisted grade row.
  - The calculator's breakdown.
  - The in-memory course grade, signals and batch results.
  - The configuration flags.
  - A state snapshot: the grade table plus the signals sent.
- `grade_resolution.dfy`: the protocol as functions of a snapshot.
  - `ReadPersisted` is `_read`.
  - `Decide` is the try/except part of `create`.
  - `UpdateSpec` is `_update`.
  - `CreateSpec` is `create`.
  - `ZeroGrade` is `_create_zero`.
  - `ResolveSpec` and `ToGradeResult` are `_iter_grade_result`.
  - `IterSpec` is `iter`.
- `course_grade_factory.dfy`: class `CourseGradeFactory`.
  - Its fields are the grade table `store`, the signal log `signals` and the list `clearedCaches` of course caches cleared.
  - Its methods follow the source step by step.
  - Each method except `EndCourseTransaction` ties its result and new state to the matching function of `grade_resolution.dfy`.
  - `Read` is a function, because `read` changes nothing.
- `grade_properties.dfy`: lemmas relating several calls.
  - A persisted grade is reused.
  - A first-time grade is recomputed every time.
  - `update` twice gives the same result.
  - Turning persistence off stops all writes.
  - Per-learner error isolation and write locality in a batch.

Modelling choices:

- The grade calculator (`CourseGrade.update()`) is a total function value, `Calculator`. It maps a learner and course data to a breakdown (percent, letter, passed, attempted) or to an exception.
- The configuration is a `Config` value with three parts:
  - `assume_zero_if_absent` and `should_persist_grades` are functions of the course key.
  - `WRITE_ONLY_IF_ENGAGED` is a boolean.
- Learners are identified by their id.
- Percentages are Dafny `real` numbers standing in for Python floats. The code only stores them and reads them back, and the model has no float rounding, so the percent equality in `StoredGradeIsReused` holds exactly.
- The `passed` field of a stored row stands for "`passed_timestamp` is not None". The timestamp's value is never read by this code.
- `CourseGrade.origin` records how a grade object was built: as a `ZeroCourseGrade`, from a stored row, or computed (with its `attempted` flag).
- `passed` is a boolean, so the source's test `passed is True` becomes `passed`.

Where a docstring and the code disagree, or the code promises less than a reader might expect, the model follows the code:

- `create`'s docstring (course_grade_factory.py:29-30) says a grade that is not in storage is computed and returned. It does not say that such a grade is not stored. The code at line 44 sets `read_only=True`, so a first-time grade (no row, assume-zero off) is never persisted, even when persistence is enabled (`CreateSpec`, `FirstTimeGradeIsRecomputedEachTime`).
- `_course_transaction` (course_grade_factory.py:80-86) clears the cache after its `yield`, with no try/finally. So the course cache is cleared only after the loop completes normally: once, after the last learner (`Iter`).
- `iter`'s docstring (course_grade_factory.py:102-103) says the error of a successful result is an empty string. Line 125 passes `None`, and the model follows line 125 (`ToGradeResult`).

## Model

| member | source | states |
|---|---|---|
| GradeResolution.ReadPersisted | lms/djangoapps/grades/new/course_grade_factory.py:145-164 | A stored grade is seen exactly when the course persists grades and a row exists for (user, course). The grade has the row's percent and letter. It is passed if and only if the row is passed. The row's policy hash is returned beside it. |
| GradeResolution.Decide | lms/djangoapps/grades/new/course_grade_factory.py:36-44 | There are four outcomes, each with an if-and-only-if condition. A visible row with the current hash gives the fast path with the stored grade. No visible row with assume-zero gives a zero grade (percent 0, not passed). A visible row with a different hash gives a recompute with read_only false. No visible row without assume-zero gives a recompute with read_only true. |
| GradeResolution.UpdateSpec | lms/djangoapps/grades/new/course_grade_factory.py:166-214 | The result is the freshly computed grade, or the calculator's exception; an exception leaves everything unchanged. If not read-only, persistence is on and (the engaged gate is off or the grade was attempted), the method upserts exactly key (user, course). The row holds the current hash, version, edit time, percent, `letter or ""` and passed; every other key is unchanged. COURSE_GRADE_CHANGED is always appended, followed by COURSE_GRADE_NOW_PASSED exactly when passed. |
| GradeResolution.CreateSpec | lms/djangoapps/grades/new/course_grade_factory.py:24-46 | Fast path: returns the stored grade and changes nothing. Absent plus assume-zero: returns the learner's zero grade and changes nothing. Absent without assume-zero: recomputes read-only, never changes the store, and still signals a grade change. Stale hash: behaves exactly like `_update` with read_only false. Signals are only ever appended. |
| GradeResolution.ToGradeResult | lms/djangoapps/grades/new/course_grade_factory.py:119-135 | The result names the learner. Exactly one of grade and error is present: `(user, grade, None)` on success and `(user, None, exc)` on an exception. |
| GradeResolution.IterSpec | lms/djangoapps/grades/new/course_grade_factory.py:88-117 | The batch has exactly as many results as input learners. By construction every learner is resolved against the one course data value, and each sees the state the previous learner left. |
| GradeResolution.IterResultsFollowLearners | lms/djangoapps/grades/new/course_grade_factory.py:115-125 | Result i names learner i, for every position. Each result has exactly one of grade and error. The batch only appends signals. |
| GradeResolution.ZeroGrade | lms/djangoapps/grades/new/course_grade_factory.py:137-143 | The zero grade names the learner and the course. Its percent is 0, it has no letter, and it is not passed. It is a ZeroCourseGrade, so not attempted. |
| GradeResolution.ResolveSpec | lms/djangoapps/grades/new/course_grade_factory.py:121-124 | With force_update the result is the fresh computation, whatever the table holds, and an exception changes nothing. Without it, a stored grade under the current policy is returned as it is with nothing changed, and a first-time grade is recomputed but never stored. |
| GradeFactory.CourseGradeFactory.Read | lms/djangoapps/grades/new/course_grade_factory.py:48-67 | Returns the stored grade for this learner and course (percent, letter, passed as the row has them) without checking the policy hash. Otherwise it returns the learner's zero grade when assume-zero is set, and None if not. It reads the state and changes nothing. |
| GradeFactory.CourseGradeFactory.UpdateGrade | lms/djangoapps/grades/new/course_grade_factory.py:166-214 | The result and the new table and signal log are those `UpdateSpec` gives for the old state. The cache list is unchanged. |
| GradeFactory.CourseGradeFactory.Create | lms/djangoapps/grades/new/course_grade_factory.py:24-46 | The result and the new table and signal log are those `CreateSpec` gives for the old state. |
| GradeFactory.CourseGradeFactory.Update | lms/djangoapps/grades/new/course_grade_factory.py:69-78 | Always recomputes: the result and the new state are those of `UpdateSpec` with read_only false, even when the stored hash is current. |
| GradeFactory.CourseGradeFactory.IterGradeResult | lms/djangoapps/grades/new/course_grade_factory.py:119-135 | Calls update when force_update is set, else create. The outcome, including an exception, becomes the learner's GradeResult. |
| GradeFactory.CourseGradeFactory.EndCourseTransaction | lms/djangoapps/grades/new/course_grade_factory.py:80-86 | Appends the course to the cleared-cache list and leaves the table and signals unchanged. |
| GradeFactory.CourseGradeFactory.Iter | lms/djangoapps/grades/new/course_grade_factory.py:88-117 | The results and the final table and signal log are those of `IterSpec`. This holds by a loop invariant over the learners still to process. The course cache is cleared exactly once, after the loop. |
| GradeProperties.StoredGradeIsReused | lms/djangoapps/grades/new/course_grade_factory.py:36-39 | After `_update` persists a grade, the next create takes the fast path. It changes nothing and returns the persisted percent, passed and `letter or ""`. |
| GradeProperties.StaleGradeIsRecomputedOnce | lms/djangoapps/grades/new/course_grade_factory.py:40 | A stale-policy create that passes the gate stores the current hash. A second create then hits the fast path: it changes nothing and returns the computed percent, passed and `letter or ""` as a stored grade. |
| GradeProperties.FirstTimeGradeIsRecomputedEachTime | lms/djangoapps/grades/new/course_grade_factory.py:44 | A first-time grade (no row, assume-zero off) is never stored. A second create recomputes again read-only, gives the same result, and sends the same signals again. |
| GradeProperties.UpdateTwiceAgrees | lms/djangoapps/grades/new/course_grade_factory.py:69-78 | Two updates in a row return equal grades and leave the same table. The second update sends the same signals as the first. |
| GradeProperties.PersistenceOffStoresNothing | lms/djangoapps/grades/new/course_grade_factory.py:151-152 | With should_persist_grades false, create never takes the fast path. Neither create nor `_update` changes the table. |
| GradeProperties.IterErrorsComeFromGrader | lms/djangoapps/grades/new/course_grade_factory.py:126-135 | An error result at position i is exactly the exception the calculator raised for learner i. |
| GradeProperties.IterForceUpdateIsolatesLearners | lms/djangoapps/grades/new/course_grade_factory.py:119-125 | With force_update, result i depends only on the calculator's outcome for learner i. A failure at one position leaves every other position unaffected. |
| GradeProperties.IterTouchesOnlyItsLearners | lms/djangoapps/grades/new/course_grade_factory.py:184-193 | A batch changes no row outside its own course, and none belonging to a learner outside the batch. |
| GradeProperties.IterCreateIsolatesLearners | lms/djangoapps/grades/new/course_grade_factory.py:115-135 | Without force_update, and for distinct learners, result i is what create gives learner i on the table as the batch found it. So earlier learners, and their failures, do not change it. |
| GradeProperties.IterPersistenceOffStoresNothing | lms/djangoapps/grades/new/course_grade_factory.py:179 | With should_persist_grades false, a whole batch leaves the table unchanged. |

## Left out

- `CourseData` construction and the grading-policy hash are not modelled: course data is given as a value. So the error `CourseData` raises when none of course, block structure, course structure or course key is given is not modelled either. course_data.py is not part of this model.
- The grade computation itself (`CourseGrade.update()`, the subsection grades, `bulk_create_unsaved`) is an uninterpreted calculator. The `attempted` flag of a grade read from a row is not modelled; course_grade.py is not part of this model.
- `PersistentCourseGrade.read` and `update_or_create` are a map lookup and a map upsert. The row keeps only whether `passed_timestamp` is set, not its value. The model assumes that the upsert makes the row's `passed` equal the latest upsert's `passed`: a later failing recompute clears it. The real store may keep `passed_timestamp` once it is set, so the `passed` clause of `StoredGradeIsReused` and `StaleGradeIsRecomputedOnce` rests on this simplification. models.py, where `update_or_create` is defined, is not part of this model, so this cannot be checked against it. Failures of the store are not modelled.
- The configuration switches (`waffle`, config models) are plain values, fixed for the duration of a call.
- Logging, the `dog_stats_api` timer and the `sender` argument of signals are not modelled. The error swallowing of `send_robust` is not modelled either, because listeners are outside the model.
- `iter` is a lazy generator; the model computes all results at once, in order. The cache clear is promised only after the loop completes, because that is all the source guarantees.
- `iter` creates a fresh factory and rebuilds course data from the batch's course data for each learner. The model passes the same course data value to every learner.
- Exceptions other than the calculator's (database errors, a missing course) are not modelled.
- Races between concurrent writers are not modelled: every call is sequential.
- `lms/djangoapps/user_api/views.py` and `urls.py` are not modelled. They are web-view and URL-routing glue, and the view returns a fixed page.

# Result computation of a school management system, in Dafny

This project models the result engine of a Django school-management
application: how a subject result is graded from its marks, how one
student's subject results in an examination are rolled up into an overall
result (counts, summed marks, percentage, CGPA, overall grade, promotion),
how the save/delete triggers keep that overall result in step with the
subject results, how the marks-entry form validates and writes marks, and
how the live pass/fail check classifies marks as they are typed. It also
models the access decorators, the sliding-window rate limiter, and the
exam-routine pages, which turn (date, class, subject) items into a sorted
date × class grid.

Modules, one file each:

- `Wrappers` (wrappers.dfy): `Option` and `Result`.
- `Grading` (grading.dfy): the examination configuration, and the subject
  calculator (`calculate_result`, `calculate_grade_and_gpa`).
- `Aggregation` (aggregation.dfy): the overall aggregator
  (`calculate_overall_result`, `get_overall_grade`).
- `ResultStore` (result_store.dfy): the subject-result table, the overall
  results, and the `post_save`/`post_delete` triggers.
- `MarksEntry` (marks_entry.dfy): the POST branch of `enter_marks` and
  `check_marks_status`.
- `Access` (access.dfy): `admin_required`, `subject_teacher_required`,
  `class_teacher_required`, and the views' own permission checks.
- `RateLimit` (rate_limit.dfy): the `rate_limit` decorator.
- `TextOrder` (text_order.dfy): Python's string order and `sorted(set(...))`.
- `Routine` (routine.dfy): `create_routine`, `routine_detail`,
  `routine_preview`, the table of `routine_pdf`, and `edit_routine`.

Representation choices:

- Marks and percentages are exact `real`s.
- Grade points and CGPA are integers in hundredths (4.00 is 400).
- CGPA's `quantize(Decimal('0.01'), ROUND_HALF_UP)` is integer half-up
  division of the summed points by the number of graded rows.
- The database becomes values. Subject results are a sequence with unique
  (examination, student, subject) keys. Overall results are a map keyed by
  (examination, student).
- The triggers are functions of that state. A `Fault` parameter says
  whether the trigger's lookup or its aggregation raises; the trigger
  swallows either error.
- A stored percentage is read from the two figures it is computed from
  (`Outcome.Percent()`, `OverallResult.OverallPercentage()`). The grade
  bands compare `total * 100 >= threshold * full`. A lemma shows this is
  the same as comparing the percentage with the threshold.
- Time, request headers, form fields and database lookups are parameters.
- Form strings arrive already classified: blank, unparseable, or a number
  (or a date).
- Routine dates are ISO `YYYY-MM-DD` texts. With four-digit years, their
  text order is calendar order.

Behaviours of the code worth knowing:

- A missing configuration makes a save fail (`SaveResult` returns
  `ConfigurationMissing`). It does not silently skip the calculation. In
  the code, the foreign key cannot be null, so
  ResultManagement/models.py:72-73 never returns early for a saved row.
- The live status treats a blank theory mark as pass, although the stored
  result counts it as 0 (`MarksEntry.BlankTheoryDiverges`).
- `routine_detail` keeps the last item of a (date, class) cell it reads,
  while `routine_preview` and `routine_pdf` keep the first they read. The
  schema allows two items in a cell (`unique_together = ()`), and then the
  pages can show different subjects for it.
- `edit_routine` does not check the name and stores blank texts as `""`.
  `create_routine` rejects a blank name and stores blank texts as NULL.

## Model

| member | source | states |
|---|---|---|
| Grading.PointOf | ResultManagement/models.py:103-118 | Grade points are 0..4.00, and 0.00 belongs to F alone |
| Grading.BandLookup | ResultManagement/models.py:105-118 | A band lookup returns the default below every threshold, and otherwise the default or the grade of some band whose threshold is reached |
| Grading.BandLookupFirstReached | ResultManagement/models.py:105-118 | Once some threshold is reached, the lookup gives the grade of the first band (highest first) whose threshold is reached |
| Grading.Percentage | ResultManagement/models.py:81-85 | Percentage is 0 when the full marks are not positive |
| Grading.PercentageMeaning | ResultManagement/models.py:82-83 | With positive full marks, percentage × full = total × 100, and marks within the full marks give 0..100 |
| Grading.GradeAndPoint | ResultManagement/models.py:99-118 | A failed subject is F/0.00 whatever its percentage; a passed one is never F and gets 2.00..4.00; the point always matches the grade |
| Grading.ReachesIsPercentageComparison | ResultManagement/models.py:101-116 | Comparing total × 100 with threshold × full is comparing the percentage with the threshold, including the zero-full-marks case |
| Grading.GradeAndPointOf | ResultManagement/models.py:99-118 | Banding on total and full marks: failed gives F/0.00, passed gives a non-F grade with 2.00..4.00 |
| Grading.GradeAndPointOfIsOnPercentage | ResultManagement/models.py:97-118 | Banding the two figures equals `calculate_grade_and_gpa` on their percentage |
| Grading.Calculate | ResultManagement/models.py:70-97 | Total = (theory or 0) + (practical or 0); the full marks include the practical full mark even without a practical; theory passed iff theory ≥ pass mark; practical passed iff no practical or practical ≥ its pass mark; passed iff both; failed gives F/0.00; passed gives 2.00..4.00 |
| Grading.CalculatedGradeIsBandedPercentage | ResultManagement/models.py:83-97 | The stored grade and point are the percentage bands applied to the stored pass flag and percentage |
| Grading.PassedGradeIsSubjectBand | ResultManagement/models.py:105-118 | A passed subject's grade is the band lookup over 90/80/70/60/50/40, with D below |
| Grading.GradePointMonotone | ResultManagement/models.py:105-118 | For passed subjects, a higher percentage never gives a lower grade point |
| Grading.FailIsFlatAndLowest | ResultManagement/models.py:103-104 | A failed subject's grade does not depend on the percentage and is below every passed subject's |
| Grading.CalculatedPercentage | ResultManagement/models.py:80-85 | The calculated percentage is total × 100 / full, or 0 without positive full marks |
| Grading.PercentageInRange | ResultManagement/models.py:80-85 | Marks within a well-formed scheme give a percentage in [0, 100] |
| Grading.ExampleTheoryOnly | ResultManagement/models.py:70-118 | Full 100, pass 40, theory 45 gives 45%, passed, C/2.30 |
| Grading.ExampleFailedDespitePercentage | ResultManagement/models.py:88-104 | Theory 35 of pass 40 fails the subject (F/0.00) although the percentage is 40 |
| Aggregation.Tally | ResultManagement/models.py:169-189 | The running sums count every row, passed and graded rows are at most that many, and no graded rows means no points |
| Aggregation.RoundHalfUp | ResultManagement/models.py:190-191 | The rounded quotient is within half a unit of s/n, and ties go away from zero |
| Aggregation.OverallGrade | ResultManagement/models.py:203-219 | The overall grade is never D, and is F exactly below 2.00 |
| Aggregation.Aggregate | ResultManagement/models.py:162-201 | Subjects = rows; passed + failed = subjects; promoted iff none failed; summed marks and full marks; percentage set; with graded rows, CGPA = `RoundHalfUp` of the summed points over the graded count (the nearest hundredth, ties up), else 0.00 with total points left unchanged; overall grade from CGPA; extracurricular fields untouched |
| Aggregation.PassedCountIsCardinality | ResultManagement/models.py:170 | The passed count is the number of rows marked passed |
| Aggregation.AllPassedIffNoneFailed | ResultManagement/models.py:170-171 | Every row passed iff the passed count equals the row count |
| Aggregation.PromotedIffAllPassed | ResultManagement/models.py:169-199 | Promoted iff every subject passed (so no rows means promoted); failed = rows − passed |
| Aggregation.OverallPercentageMeaning | ResultManagement/models.py:180-184 | Overall percentage × total full marks = marks obtained × 100, or 0 without full marks |
| Aggregation.AggregateIdempotent | ResultManagement/models.py:162-201 | Recomputing over unchanged rows gives the same overall result |
| Aggregation.TallyPermutation | ResultManagement/models.py:169-189 | The sums do not depend on the order of the rows |
| Aggregation.AggregateOrderIndependent | ResultManagement/models.py:162-201 | The overall result does not depend on the order the query returns rows in |
| Aggregation.OverallGradeIsOverallBand | ResultManagement/models.py:203-219 | The overall grade is the band lookup over 3.8/3.5/3.0/2.7/2.3/2.0, F below |
| Aggregation.ExampleCgpa | ResultManagement/models.py:187-199 | Points 3.70 and 2.30 give CGPA 3.00, total 6.00, grade B+, promoted |
| Aggregation.ExampleOneFailed | ResultManagement/models.py:169-199 | Two passed and one failed subject give one failure and no promotion |
| ResultStore.Find | ResultManagement/models.py:63-64 | A key finds the row holding it, or nothing when no row has it |
| ResultStore.Upsert | ResultManagement/views.py:238-248 | After `update_or_create` the key finds the new row, every other key finds what it found, and keys stay unique |
| ResultStore.Remove | ResultManagement/signals.py:19-20 | After deletion the key finds nothing, other keys are unaffected, and keys stay unique |
| ResultStore.RowsOf | ResultManagement/models.py:164-167 | The filter holds exactly the rows of the (examination, student) pair |
| ResultStore.Recompute | ResultManagement/signals.py:10-14 | `get_or_create` + recompute: the pair's overall result exists and agrees with its rows, other pairs are unchanged, extracurricular fields kept |
| ResultStore.OnSave | ResultManagement/signals.py:6-17 | The save trigger changes only the saved row's pair and never the rows |
| ResultStore.OnDelete | ResultManagement/signals.py:19-42 | The delete trigger changes only the deleted row's pair, and does nothing when that pair had no overall result |
| ResultStore.SaveResult | ResultManagement/models.py:66-68 | A save without a configuration fails; otherwise the row holds the marks and its calculated fields, other keys are unchanged, other pairs' overall results are unchanged, and with a healthy trigger the pair's overall result agrees with its rows |
| ResultStore.DeleteResult | ResultManagement/signals.py:19-42 | After a delete: no row with that key; overall result recomputed from the remaining rows when some remain, deleted when none remain, never created; a failing trigger leaves overall results alone |
| ResultStore.SaveResultAsWritten | ResultManagement/views.py:238-248 | Re-entering marks for an existing row stores the new marks and configuration but keeps the row's old derived figures; a first entry stores the calculated ones; no other key or pair changes |
| ResultStore.SaveAsWrittenAgreesUnlessStale | ResultManagement/views.py:238-248 | The save as written and the intended save give the same database exactly when the row is new or already holds the figures of its new marks |
| ResultStore.ReenteredMarkKeepsStaleGrade | ResultManagement/views.py:238-248 | Theory 35 of 100 (F), re-entered as 45, stays F as written and becomes C as intended |
| ResultStore.TriggerFailureKeepsWrite | ResultManagement/signals.py:15-42 | A trigger failure raised outside the database and outside the overall result's own save never undoes the save or delete that fired it |
| ResultStore.SaveKeepsSync | ResultManagement/signals.py:6-17 | A save keeps every other pair in sync, and with a healthy trigger its own pair too |
| ResultStore.DeleteKeepsSync | ResultManagement/signals.py:19-42 | A delete keeps every other pair in sync, and with a healthy trigger its own pair too |
| ResultStore.RecomputeRepairs | ResultManagement/views.py:255-260 | Recomputing a pair brings it back in sync and leaves the other pairs as they were |
| ResultStore.DeleteLastRowRemovesOverall | ResultManagement/signals.py:35-39 | Deleting a pair's last row removes its overall result |
| MarksEntry.Validate | ResultManagement/views.py:210-236 | An out-of-range theory or (with practical) practical mark skips the student; otherwise the row stores the numbers in range, blank as NULL, and no practical without a practical component |
| MarksEntry.ValidateAsWritten | ResultManagement/views.py:215-233 | The request aborts exactly when the theory mark is unparseable, or it is in range and a practical mark is unparseable |
| MarksEntry.AsWrittenAgreesOnNumbers | ResultManagement/views.py:215-235 | Without unparseable marks the code as written and the corrected validation agree |
| MarksEntry.UnparseableMarkAborts | ResultManagement/views.py:216-222 | A theory mark "abc" aborts as written and stores NULL as intended |
| MarksEntry.WrittenPercentageInRange | ResultManagement/views.py:218-229 | A written row of a well-formed scheme has a percentage in [0, 100] |
| MarksEntry.EnterMarks | ResultManagement/views.py:207-260 | The saved count is the number of students whose row was written; each of those rows holds its marks; other rows are unchanged; nothing changes when none was written; otherwise every active student's overall result agrees with their rows; sync is kept |
| MarksEntry.WriteMarks | ResultManagement/views.py:210-249 | After the first loop, the written rows hold their marks, nothing else in the table changed, and only those students' pairs can be stale |
| MarksEntry.SaveOne | ResultManagement/views.py:238-248 | One save writes the student's row with the figures calculated from its new marks, changes no other key, and can leave only that student's pair stale |
| MarksEntry.RecomputeClass | ResultManagement/views.py:255-260 | The second loop leaves the rows alone and brings every listed student's overall result in sync |
| MarksEntry.MarkStatus | ResultManagement/views.py:431-447 | A mark is `fail` iff it is a number below the pass mark, `invalid` iff unparseable, and a blank mark is `pass` |
| MarksEntry.CheckMarksStatus | ResultManagement/views.py:411-457 | Not a POST gives the method error; an unknown configuration gives the configuration error; the practical status is `pass` without a practical; the overall status is the worse of the two, with fail above invalid above pass |
| MarksEntry.LiveStatusMatchesCalculator | ResultManagement/views.py:431-453 | For numeric marks the live overall status is `pass` iff the calculator would pass the subject |
| MarksEntry.BlankTheoryDiverges | ResultManagement/views.py:431 | A blank theory mark shows `pass` live but fails the stored subject when the pass mark is positive |
| Access.AdminRequired | ResultManagement/decorators.py:9-21 | Anonymous users go to login; only superusers proceed; others are refused to the marks dashboard |
| Access.SubjectTeacherRequired | ResultManagement/decorators.py:23-62 | Anonymous users go to login; superusers proceed; others proceed iff they have a Teacher record and, with a truthy config id, the configuration exists and they teach its subject in its class; refusals go to the marks dashboard |
| Access.ClassTeacherRequired | ResultManagement/decorators.py:64-96 | Anonymous users go to login; superusers proceed; others proceed iff they have a Teacher record and, with a truthy class id, the class exists and they are its class teacher; refusals go to the extracurricular dashboard |
| Access.EnterMarksAccess | ResultManagement/views.py:177-199 | Anonymous users and non-teachers go to login, an unknown configuration is 404, and only superusers and the subject's teacher in that class proceed; the 403 branch is unreachable |
| Access.ExtracurricularAccess | ResultManagement/views.py:303-315 | Anonymous users go to login, an unknown examination or class is 404, and only superusers and the class teacher proceed |
| Access.SubjectTeacherGateMatchesEnterMarks | ResultManagement/decorators.py:40-56 | For an existing configuration, the decorator and the marks-entry view admit the same users |
| Access.ClassTeacherGateMatchesExtracurricular | ResultManagement/decorators.py:81-90 | For an existing class, the decorator and the extracurricular view take the same decision |
| Access.AdminPassesEveryGuard | ResultManagement/decorators.py:30-72 | A user admitted as admin passes the teacher guards too |
| Access.AssignmentsOnlyGrantAccess | ResultManagement/decorators.py:47-55 | Adding ClassSubject rows never revokes access |
| Access.NoConfigIdAdmitsAnyTeacher | ResultManagement/decorators.py:41-61 | Without a truthy config id any teacher passes |
| Access.ClassWithoutTeacherIsAdminOnly | ResultManagement/decorators.py:86-89 | A class without a class teacher admits superusers only |
| RateLimit.ClientKey | ResultManagement/decorators.py:108 | The key is the forwarded-for header when present (even empty), else the remote address, else "" |
| RateLimit.PruneKeepsRecent | ResultManagement/decorators.py:112-115 | Pruning keeps exactly the times younger than the window |
| RateLimit.Step | ResultManagement/decorators.py:112-124 | Refused iff the pruned list already holds the maximum; a refusal stores the pruned list; an acceptance stores it plus now and stays within the maximum |
| RateLimit.Limit | ResultManagement/decorators.py:104-126 | One request prunes and stores the client's list even when refused, appends now only when accepted, and leaves every other client's list alone |
| RateLimit.LimitKeepsBound | ResultManagement/decorators.py:117-124 | No client's list ever exceeds the maximum |
| RateLimit.Replay | ResultManagement/decorators.py:112-124 | After any run of requests a client's list is within the maximum |
| RateLimit.ReplayIsWindowOfAccepted | ResultManagement/decorators.py:112-124 | For requests in time order, the stored list is exactly the accepted requests still inside the window |
| RateLimit.AcceptedWithinWindowAreBounded | ResultManagement/decorators.py:117-119 | At any request, at most the maximum accepted requests lie within the window |
| RateLimit.ZeroLimitRefusesAll | ResultManagement/decorators.py:118-119 | A maximum of 0 refuses every request |
| RateLimit.ExampleSlidingWindow | ResultManagement/decorators.py:112-124 | With 2 per 10 units, requests at 0, 1, 2, 10 are accepted, accepted, refused, accepted |
| RateLimit.ExampleStepRefused | ResultManagement/decorators.py:117-119 | A third request inside the window is refused and the list stays [0, 1] |
| RateLimit.ExampleStepAfterWindow | ResultManagement/decorators.py:112-124 | At 10 the request at 0 has left the window, so a request is let through and the list becomes [1, 10] |
| TextOrder.LessTransitive | ExamManagement/views.py:85-86 | The string order used for sorting is transitive |
| TextOrder.LessTotal | ExamManagement/views.py:85-86 | Any two different strings are ordered one way |
| TextOrder.SortedSet | ExamManagement/views.py:85-86 | `sorted(set(xs))` is strictly increasing and holds exactly the elements of xs |
| TextOrder.IncreasingIsCanonical | ExamManagement/views.py:105-106 | Two strictly increasing lists with the same elements are equal, so the sorted names and dates do not depend on item order |
| TextOrder.ExampleOrder | ExamManagement/views.py:85 | "Ten" sorts before "ten", a prefix first, and repeats collapse |
| Routine.CellItemsProvenance | ExamManagement/views.py:60-73 | Every item from a row has the row's date, one of the submitted class names, and a subject from the table |
| Routine.RowItemsProvenance | ExamManagement/views.py:52-73 | Every item of a row carries that row's date, which must therefore be usable; a blank or unparseable date yields nothing |
| Routine.BuildItemsProvenance | ExamManagement/views.py:52-73 | Every built item has a usable submitted date, a submitted class name and an existing subject |
| Routine.RowItemsOtherDate | ExamManagement/views.py:52-73 | A row yields no item for any date other than its own |
| Routine.BuildItemsShowCell | ExamManagement/views.py:52-73 | With a date row unique and a class column unique, the first built item for that cell holds the subject its form cell names, and there is none when it names none or the row is not yet built |
| Routine.CreateRoutine | ExamManagement/views.py:38-73 | Blank name, then no date rows, then no class columns are rejected in that order; otherwise the routine keeps the name, stores blank optional texts as NULL, every item comes from the form, and every resolved cell of a row with a usable date yields its item, whether or not dates and class names repeat |
| Routine.BuildItemsComplete | ExamManagement/views.py:52-73 | Every resolved cell of every row with a usable date yields an item with that date, class name and subject |
| Routine.DetailGrid | ExamManagement/views.py:88-90 | The detail grid has a cell exactly for each (date, class) some item fills |
| Routine.DetailGridLastWins | ExamManagement/views.py:88-90 | A cell holds the subject of the last item that fills it |
| Routine.FirstMatchNoneIff | ExamManagement/views.py:112-115 | The lookup is None iff no item fills (date, class) |
| Routine.FirstMatchIsFirst | ExamManagement/views.py:112-115 | A found subject is that of an item filling (date, class) with no earlier item filling it |
| Routine.PreviewCellIsFirstMatch | ExamManagement/views.py:109-116 | Each preview cell is the first-match lookup for its date and class |
| Routine.PreviewShowsFirstMatch | ExamManagement/views.py:100-116 | A (date, class) some item fills appears in the preview, and its cell holds the subject of the first such item |
| Routine.Preview | ExamManagement/views.py:100-116 | Dates and class names are sorted, distinct and exactly those of the items; each date has a cell per class |
| Routine.PreviewCellEmptyIff | ExamManagement/views.py:109-116 | A preview cell is empty iff no item fills its date and class |
| Routine.PdfTable | ExamManagement/views.py:126-139 | The table has a header "Date" + class names and a row per date, each with the date and one cell per class |
| Routine.PdfCellIsPreviewCell | ExamManagement/views.py:134-139 | Each PDF cell is the preview's cell, with "" for an empty one |
| Routine.DetailKeyInPreview | ExamManagement/views.py:88-90 | Every cell of the detail grid has its date and class among the preview's dates and class names |
| Routine.DetailCellIsFirstMatch | ExamManagement/views.py:88-90 | Without two items per cell, the detail grid has a cell iff the first-match lookup finds one, with the same subject |
| Routine.DetailMatchesPreviewWithoutDuplicates | ExamManagement/views.py:82-116 | Without two items per cell, the detail and preview grids show the same subjects in the same cells |
| Routine.DuplicateCellDetailShowsLast | ExamManagement/views.py:89-90 | Two items for a cell: the detail page shows the later one |
| Routine.DuplicateCellPreviewShowsFirst | ExamManagement/views.py:109-116 | Two items for a cell: the preview shows the earlier one |
| Routine.CreatedRoutinePreviewsAsEntered | ExamManagement/views.py:52-73 | With distinct dates and class names, the preview of a created routine shows in each usable row and column the subject its form cell names, and nothing when it names none |
| Routine.CreatedItemsShowCell | ExamManagement/views.py:52-73 | With distinct dates and class names, the first created item for a usable row and a column carries the subject its form cell names, and there is none when it names none |
| Routine.EditCellsAsWritten | ExamManagement/views.py:288-301 | One row of the rebuild fails exactly when its date is unusable and a cell names a subject; otherwise it builds what creation builds |
| Routine.EditRowsAsWritten | ExamManagement/views.py:287-301 | When the rebuild does not fail it builds what creation builds |
| Routine.EditCellsFailIffBrokenRow | ExamManagement/views.py:288-301 | The rebuild of one row fails exactly when that row has an unusable date and a cell naming a subject |
| Routine.EditRowsFailIffBrokenRow | ExamManagement/views.py:287-301 | The rebuild fails exactly when some row has an unusable date and a resolved subject |
| Routine.EditRoutineAsWritten | ExamManagement/views.py:266-303 | The name, exam time and both notes are saved as submitted, blanks as empty texts; without failure the items are exactly the rebuilt ones, whatever the old items were |
| Routine.EditRowsStopAtFirstBrokenRow | ExamManagement/views.py:287-301 | A failed rebuild stops at the first row that breaks it, holding the items of the rows before it and none of its own |
| Routine.EditAsWrittenCrashKeepsRowsBeforeBreak | ExamManagement/views.py:284-301 | After a crash the routine holds exactly the items of the rows before the first breaking row: the old items are gone and later rows are never built |
| Routine.EditAsWrittenCrashesIffBrokenRow | ExamManagement/views.py:284-301 | The edit as written ends in an error exactly when a row with an unusable date has a subject |
| Routine.EditRoutine | ExamManagement/views.py:266-301 | The corrected edit saves the header as submitted and replaces the items with exactly those creation would build from the same form |
| Routine.EditAsWrittenAgreesOnUsableDates | ExamManagement/views.py:284-301 | With no such row, the edit as written and the corrected edit store the same routine |
| Routine.BlankDateEditLosesItems | ExamManagement/views.py:284-301 | A blank date with a subject makes the edit as written fail with no items left, where the corrected edit keeps the next row's item |

## Left out

- PDF, ZIP and HTML rendering, reportlab layout, templates and messages:
  they are presentation with no computation of their own.
- Django ORM persistence is replaced by values. This includes querysets,
  `get_or_create`, `update_or_create`, signal registration in
  ResultManagement/apps.py, and `DecimalField` rounding to two places on
  save. DecimalField rounding is left out because the model stores exact
  reals.
- `float()` conversions before band comparisons and in the live check are
  left out: the model uses exact reals, so boundary rounding artefacts are
  absent.
- The `Decimal` 28-digit context is left out for the same reason.
- Parsing of form text (`Decimal`, `float`, `strptime`, `int`) is left
  out. Marks, dates and subject ids arrive classified. `NaN` and
  `Infinity` mark texts are not modelled, and neither is a non-numeric
  subject id, which raises in both routine views.
- The JSON body parse of `check_marks_status` is left out; its input
  arrives already decoded.
- The extracurricular entry loop (ResultManagement/views.py:322-) is left
  out. Only its permission check is modelled; the aggregator leaves its
  fields untouched.
- Thread safety of the limiter's shared dictionary, and `time.time()`,
  are left out. Time is a parameter, and requests are applied one at a
  time.
- `secure_headers` is left out: it sets constant response headers.
- The trigger's `print` logging is left out. A swallowed error is
  modelled as the state it leaves behind.
- Transactions are left out. Each save is applied on its own, as in
  Django's default autocommit, so a request that fails midway keeps the
  writes it already made. The project settings are not part of this
  model.
- ResultStore.TriggerFailureKeepsWrite: a `Fault` stands only for an error
  raised outside the database and outside the overall result's own
  `save()`. The save trigger runs inside the `atomic` block of
  `update_or_create`, and the delete trigger inside that of `delete()`. An
  error in the overall result's `save()` marks that block for rollback, so
  the trigger swallows it while the row write is undone, and marks entry
  still counts the student as saved. That case is not modelled.
- MarksEntry.RecomputeClass: an aggregation failure in the second loop of
  marks entry (ResultManagement/views.py:255-260) is not modelled. That
  loop has no `try`, so such a failure ends the request with the first
  loop's writes kept and the remaining students not re-aggregated; the
  model's loop always completes.
- Aggregation.Aggregate: full marks come from the copy of the
  configuration each result row holds (`RowFull`), while the source reads
  the configuration live through the row's foreign key. Configurations are
  assumed unchanged once result rows reference them. Re-saving one, for
  example through `update_or_create` in `exam_configuration_create`, changes
  the full marks the next recompute sums in the source but not in the model.
- The detail page, the preview and the PDF are assumed to read a cell's
  tied items in one order. Each runs its own query, and the database
  orders items only by date and class, so two items of one cell may come
  back in different orders.
- The two routine views parse dates differently: `create_routine` uses
  `strptime('%Y-%m-%d')` and `edit_routine` leaves the text to the
  DateField. They are modelled as one classification (`DateInput`), so
  texts that one parser accepts and the other rejects are not modelled.
  `Routine.EditAsWrittenAgreesOnUsableDates` relies on that.
- Grading.Percentage: states only the zero-full-marks case. The
  relation to total and full marks is in `Grading.PercentageMeaning`,
  kept apart because nonlinear real arithmetic in a function contract
  slows every proof that mentions a percentage.
- RateLimit.ReplayIsWindowOfAccepted: holds for a positive window only.
  With a window of 0 or less, a request does not count itself, and the
  stored list is not a window of the accepted requests.
- Routine.CreatedRoutinePreviewsAsEntered: stated for forms whose usable
  dates and class names are distinct. With repeats, the first matching
  cell wins, as `DuplicateCellPreviewShowsFirst` shows.

## Findings

| source | as written | input that shows it | evidently intended | confidence | as-written member | corrected member |
|---|---|---|---|---|---|---|
| ResultManagement/views.py:215-233 | `Decimal(text)` of a non-number raises `decimal.InvalidOperation`. That is not a `ValueError` or `TypeError`, so the `except` clause misses it. The request ends in a server error after the earlier students' rows were written, and the class is not re-aggregated | theory mark "abc" for any student (or practical "abc" when the theory mark is in range) | the unparseable mark is stored as NULL, which is what the `except` branch does | high, not executed | MarksEntry.ValidateAsWritten, MarksEntry.UnparseableMarkAborts | MarksEntry.Validate, MarksEntry.EnterMarks |
| ExamManagement/views.py:287-301 | The submitted date text goes to the DateField unchecked. A blank or unparseable date in a row whose cell names a subject raises a validation error. By then every old item was deleted, and the rows after it are never built | dates ["", "2025-01-06"], one class "Ten", both cells naming subject 7 | rows without a usable date are skipped, as `create_routine` does at lines 53-58 | medium (the loss assumes no request-wide transaction), not executed | Routine.EditRoutineAsWritten, Routine.EditAsWrittenCrashKeepsRowsBeforeBreak, Routine.BlankDateEditLosesItems | Routine.EditRoutine, Routine.EditAsWrittenAgreesOnUsableDates |
| ResultManagement/views.py:238-248 | `update_or_create` saves an existing row with `update_fields` limited to the four `defaults` columns and the timestamps (Django 4.2 and later). `save()` still runs `calculate_result()`, but total, percentage, grade, grade point and the pass flags are not written. A re-entered row keeps the first entry's figures, and both the save trigger and the second loop aggregate them | theory 35 of 100 with pass mark 40 (stored F / 0.00), re-entered as 45 | the row's figures follow its new marks (C / 2.30) | medium (depends on the Django version, which the repository does not pin), not executed | ResultStore.SaveResultAsWritten, ResultStore.ReenteredMarkKeepsStaleGrade | ResultStore.SaveResult, MarksEntry.SaveOne |

/** The access decisions of ResultManagement/decorators.py (`admin_required`,
    `subject_teacher_required`, `class_teacher_required`) and the checks the
    marks-entry and extracurricular-entry views make themselves. The
    database lookups become parameters: the configurations by id, the
    class-subject assignments, and each class's class teacher. */
module Access {
  import opened Wrappers
  import opened Grading
  import opened Aggregation

  /** The requesting user: logged in or not, a superuser or not, and the
      Teacher record linked to the account, if any. */
  datatype User = User(authenticated: bool, superuser: bool, teacher: Option<TeacherId>)

  /** A ClassSubject row: `teacher` teaches `subject` in `classroom`. */
  datatype ClassSubject = ClassSubject(classroom: ClassId, subject: SubjectId, teacher: TeacherId)

  /** Where a refused request is sent. */
  datatype Landing = MarksEntryDashboard | ExtracurricularDashboard

  /** What a guard does with the request: hand it to the view, send the
      user to the login page, refuse with an error message and a redirect,
      answer 403, or answer 404 (an id that resolves to nothing). */
  datatype Decision = Proceed | ToLogin | Denied(landing: Landing) | Forbidden | NotFound

  /** A URL keyword argument as the decorators see it: absent, or an
      integer that is acted on only when it is truthy (non-zero). */
  predicate Given(id: Option<int>) {
    id.Some? && id.value != 0
  }

  /** Whether teacher `t` teaches the configuration's subject in its class. */
  predicate Teaches(assignments: set<ClassSubject>, cfg: ExamConfig, t: TeacherId) {
    ClassSubject(cfg.classroom, cfg.subject, t) in assignments
  }

  /** `admin_required`. */
  function AdminRequired(u: User): (d: Decision)
    ensures d == ToLogin <==> !u.authenticated
    ensures d == Proceed <==> u.authenticated && u.superuser
    ensures d != Proceed && d != ToLogin ==> d == Denied(MarksEntryDashboard)
  {
    if !u.authenticated then ToLogin
    else if !u.superuser then Denied(MarksEntryDashboard)
    else Proceed
  }

  /** `subject_teacher_required` with the configuration table `configs`
      (by id) and the ClassSubject rows `assignments`. */
  function SubjectTeacherRequired(u: User, configId: Option<int>, configs: map<int, ExamConfig>,
                                  assignments: set<ClassSubject>): (d: Decision)
    ensures d == ToLogin <==> !u.authenticated
    ensures d == Proceed <==>
              u.authenticated
              && (u.superuser
                  || (u.teacher.Some?
                      && (Given(configId) ==>
                            configId.value in configs && Teaches(assignments, configs[configId.value], u.teacher.value))))
    ensures d != Proceed && d != ToLogin ==> d == Denied(MarksEntryDashboard)
  {
    if !u.authenticated then ToLogin
    else if u.superuser then Proceed
    else if u.teacher.None? then Denied(MarksEntryDashboard)
    else if !Given(configId) then Proceed
    else if configId.value !in configs then Denied(MarksEntryDashboard)
    else if !Teaches(assignments, configs[configId.value], u.teacher.value) then Denied(MarksEntryDashboard)
    else Proceed
  }

  /** `class_teacher_required` with each class's class teacher (a class
      may have none) in `classTeacher`, by class id. */
  function ClassTeacherRequired(u: User, classId: Option<int>, classTeacher: map<int, Option<TeacherId>>): (d: Decision)
    ensures d == ToLogin <==> !u.authenticated
    ensures d == Proceed <==>
              u.authenticated
              && (u.superuser
                  || (u.teacher.Some?
                      && (Given(classId) ==>
                            classId.value in classTeacher && classTeacher[classId.value] == u.teacher)))
    ensures d != Proceed && d != ToLogin ==> d == Denied(ExtracurricularDashboard)
  {
    if !u.authenticated then ToLogin
    else if u.superuser then Proceed
    else if u.teacher.None? then Denied(ExtracurricularDashboard)
    else if !Given(classId) then Proceed
    else if classId.value !in classTeacher then Denied(ExtracurricularDashboard)
    else if classTeacher[classId.value] != u.teacher then Denied(ExtracurricularDashboard)
    else Proceed
  }

  /** `enter_marks` up to its first use of the configuration: the
      `login_required` and `user_passes_test(is_admin_or_teacher)` wrappers
      (both send a failing user to the login page), the 404 for an unknown
      configuration, then the view's own subject-teacher check. */
  function EnterMarksAccess(u: User, configId: int, configs: map<int, ExamConfig>,
                            assignments: set<ClassSubject>): (d: Decision)
    ensures d == ToLogin <==> !u.authenticated || (!u.superuser && u.teacher.None?)
    ensures d == NotFound <==> d != ToLogin && configId !in configs
    ensures d == Proceed <==>
              u.authenticated && configId in configs
              && (u.superuser || (u.teacher.Some? && Teaches(assignments, configs[configId], u.teacher.value)))
    ensures d != Forbidden
  {
    if !u.authenticated then ToLogin
    else if !(u.superuser || u.teacher.Some?) then ToLogin
    else if configId !in configs then NotFound
    else if !u.superuser && u.teacher.None? then Forbidden
    else if !u.superuser && !Teaches(assignments, configs[configId], u.teacher.value) then Denied(MarksEntryDashboard)
    else Proceed
  }

  /** `enter_extracurricular_grades` up to its use of the class: the
      `login_required` wrapper, the 404s for an unknown examination or
      class, then the view's own class-teacher check. */
  function ExtracurricularAccess(u: User, examExists: bool, classId: int,
                                 classTeacher: map<int, Option<TeacherId>>): (d: Decision)
    ensures d == ToLogin <==> !u.authenticated
    ensures d == NotFound <==> u.authenticated && (!examExists || classId !in classTeacher)
    ensures d == Proceed <==>
              u.authenticated && examExists && classId in classTeacher
              && (u.superuser || (u.teacher.Some? && classTeacher[classId] == u.teacher))
  {
    if !u.authenticated then ToLogin
    else if !examExists || classId !in classTeacher then NotFound
    else if !u.superuser && (u.teacher.None? || classTeacher[classId] != u.teacher) then Denied(ExtracurricularDashboard)
    else Proceed
  }

  /** The decorator and the marks-entry view agree on who may enter marks
      for an existing configuration. */
  lemma SubjectTeacherGateMatchesEnterMarks(u: User, configId: int, configs: map<int, ExamConfig>,
                                            assignments: set<ClassSubject>)
    requires configId != 0 && configId in configs
    ensures SubjectTeacherRequired(u, Some(configId), configs, assignments) == Proceed
            <==> EnterMarksAccess(u, configId, configs, assignments) == Proceed
  {
  }

  /** The decorator and the extracurricular view take the same decision,
      refusal landing included, for an existing examination and class. */
  lemma ClassTeacherGateMatchesExtracurricular(u: User, classId: int, classTeacher: map<int, Option<TeacherId>>)
    requires classId != 0 && classId in classTeacher
    ensures ClassTeacherRequired(u, Some(classId), classTeacher) == ExtracurricularAccess(u, true, classId, classTeacher)
  {
  }

  /** Whoever passes `admin_required` passes every other guard. */
  lemma AdminPassesEveryGuard(u: User, configId: Option<int>, configs: map<int, ExamConfig>,
                              assignments: set<ClassSubject>, classId: Option<int>,
                              classTeacher: map<int, Option<TeacherId>>)
    requires AdminRequired(u) == Proceed
    ensures SubjectTeacherRequired(u, configId, configs, assignments) == Proceed
    ensures ClassTeacherRequired(u, classId, classTeacher) == Proceed
  {
  }

  /** More ClassSubject rows never take access away. */
  lemma AssignmentsOnlyGrantAccess(u: User, configId: Option<int>, configs: map<int, ExamConfig>,
                                   assignments: set<ClassSubject>, more: set<ClassSubject>)
    requires assignments <= more
    requires SubjectTeacherRequired(u, configId, configs, assignments) == Proceed
    ensures SubjectTeacherRequired(u, configId, configs, more) == Proceed
  {
  }

  /** Without a truthy config id, `subject_teacher_required` only asks for
      a Teacher record: any teacher passes, whatever they teach. */
  lemma NoConfigIdAdmitsAnyTeacher(u: User, configId: Option<int>, configs: map<int, ExamConfig>,
                                   assignments: set<ClassSubject>)
    requires u.authenticated && u.teacher.Some? && !Given(configId)
    ensures SubjectTeacherRequired(u, configId, configs, assignments) == Proceed
  {
  }

  /** A class with no class teacher is closed to every non-superuser. */
  lemma ClassWithoutTeacherIsAdminOnly(u: User, classId: int, classTeacher: map<int, Option<TeacherId>>)
    requires classId != 0 && classId in classTeacher && classTeacher[classId].None?
    ensures ClassTeacherRequired(u, Some(classId), classTeacher) == Proceed <==> u.authenticated && u.superuser
  {
  }
}

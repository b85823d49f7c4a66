/** The subject result calculator: from one student's raw theory/practical
    marks and the examination's marks scheme, the total, the percentage, the
    pass flags, the letter grade and the grade point (ResultManagement/models.py,
    `StudentResult.calculate_result` and `calculate_grade_and_gpa`).

    Marks and percentages are exact reals (the source's `Decimal`, whose
    `float()` conversion before the band comparisons is not modelled); grade
    points are integers in hundredths, so 3.70 is 370. */
module Grading {
  import opened Wrappers

  type ExamId = nat
  type ClassId = nat
  type SubjectId = nat

  /** The marks scheme of one (examination, class, subject). */
  datatype ExamConfig = ExamConfig(
    exam: ExamId,
    classroom: ClassId,
    subject: SubjectId,
    fullTheory: real,
    passTheory: real,
    hasPractical: bool,
    fullPractical: real,
    passPractical: real)

  /** A well-formed scheme: every mark non-negative and every pass mark
      within its full mark. The calculator does not need it; it is the
      hypothesis of the range lemmas. */
  predicate WellFormed(cfg: ExamConfig) {
    && 0.0 <= cfg.passTheory <= cfg.fullTheory
    && 0.0 <= cfg.passPractical <= cfg.fullPractical
  }

  /** The letter grades of both the subject and the overall bands. */
  datatype Grade = APlus | A | BPlus | B | CPlus | C | D | F

  /** A student's raw marks for one subject; `None` is a blank mark. */
  datatype Marks = Marks(theory: Option<real>, practical: Option<real>)

  /** The fields `calculate_result` derives from the marks. The percentage
      is kept as the two figures it is computed from and read through
      `Percent()`, so that proofs not about percentages never see a
      division. */
  datatype Outcome = Outcome(
    totalMarks: real,
    fullMarks: real,
    theoryPassed: bool,
    practicalPassed: bool,
    passed: bool,
    grade: Grade,
    gradePoint: int)
  {
    /** The stored `percentage`. */
    function Percent(): real {
      Percentage(totalMarks, fullMarks)
    }
  }

  /** One row of a band table: scores at or above `threshold` earn `grade`. */
  datatype Band = Band(threshold: real, grade: Grade)

  /** The grade point, in hundredths, that each grade carries. */
  function PointOf(g: Grade): (p: int)
    ensures 0 <= p <= 400
    ensures p == 0 <==> g == F
  {
    match g
    case APlus => 400
    case A => 370
    case BPlus => 330
    case B => 300
    case CPlus => 270
    case C => 230
    case D => 200
    case F => 0
  }

  /** The subject bands on percentage, highest first; below the last band a
      passed subject gets D. */
  const SubjectBands: seq<Band> :=
    [Band(90.0, APlus), Band(80.0, A), Band(70.0, BPlus),
     Band(60.0, B), Band(50.0, CPlus), Band(40.0, C)]

  /** The overall bands on CGPA in hundredths, highest first; below the last
      band the overall grade is F. */
  const OverallBands: seq<Band> :=
    [Band(380.0, APlus), Band(350.0, A), Band(300.0, BPlus),
     Band(270.0, B), Band(230.0, CPlus), Band(200.0, C)]

  /** Reference reading of a band table: the grade of the first band whose
      threshold `x` reaches, or `otherwise`. */
  function BandLookup(bands: seq<Band>, x: real, otherwise: Grade): (g: Grade)
    ensures g == otherwise || exists i :: 0 <= i < |bands| && bands[i].grade == g && bands[i].threshold <= x
    ensures (forall i :: 0 <= i < |bands| ==> x < bands[i].threshold) ==> g == otherwise
  {
    if |bands| == 0 then otherwise
    else if x >= bands[0].threshold then bands[0].grade
    else BandLookup(bands[1..], x, otherwise)
  }

  /** Once some threshold is reached, the lookup gives the grade of the
      first band whose threshold `x` reaches. */
  lemma {:induction false} BandLookupFirstReached(bands: seq<Band>, x: real, otherwise: Grade)
    requires exists i :: 0 <= i < |bands| && bands[i].threshold <= x
    ensures exists i :: 0 <= i < |bands| && bands[i].threshold <= x
                        && BandLookup(bands, x, otherwise) == bands[i].grade
                        && forall j :: 0 <= j < i ==> x < bands[j].threshold
    decreases |bands|
  {
    if x < bands[0].threshold {
      var k :| 0 <= k < |bands| && bands[k].threshold <= x;
      assert bands[1..][k - 1] == bands[k];
      BandLookupFirstReached(bands[1..], x, otherwise);
      var i :| 0 <= i < |bands| - 1 && bands[1..][i].threshold <= x
               && BandLookup(bands[1..], x, otherwise) == bands[1..][i].grade
               && forall j :: 0 <= j < i ==> x < bands[1..][j].threshold;
      assert forall j :: 0 <= j < i + 1 ==> x < bands[j].threshold by {
        forall j | 0 <= j < i + 1 ensures x < bands[j].threshold {
          if j > 0 {
            assert bands[j] == bands[1..][j - 1];
          }
        }
      }
      assert bands[i + 1] == bands[1..][i];
    } else {
      assert bands[0].threshold <= x && BandLookup(bands, x, otherwise) == bands[0].grade;
    }
  }

  /** `x or 0` on a nullable mark. */
  function OrZero(m: Option<real>): real {
    m.GetOr(0.0)
  }

  /** The denominator of the percentage: the practical full mark is included
      even when the subject has no practical. */
  function FullMarks(cfg: ExamConfig): real {
    cfg.fullTheory + cfg.fullPractical
  }

  /** `total / full * 100`, or 0 when `full` is not positive. */
  function Percentage(total: real, full: real): (p: real)
    ensures full <= 0.0 ==> p == 0.0
  {
    if full > 0.0 then total / full * 100.0 else 0.0
  }

  /** What a percentage means: `p` per hundred of `full` is `total`, and
      marks within the full marks give a percentage within [0, 100]. (Kept
      out of the function's contract: the nonlinear facts would weigh on
      every proof that mentions a percentage.) */
  lemma PercentageMeaning(total: real, full: real)
    requires full > 0.0
    ensures Percentage(total, full) * full == total * 100.0
    ensures 0.0 <= total <= full ==> 0.0 <= Percentage(total, full) <= 100.0
  {
  }

  /** `calculate_grade_and_gpa`: a failed subject is F / 0.00 whatever its
      percentage; a passed one is banded on the percentage. */
  function GradeAndPoint(passed: bool, percentage: real): (r: (Grade, int))
    ensures !passed ==> r == (F, 0)
    ensures passed ==> r.0 != F && 200 <= r.1 <= 400
    ensures r.1 == PointOf(r.0)
  {
    if !passed then (F, 0)
    else if percentage >= 90.0 then (APlus, 400)
    else if percentage >= 80.0 then (A, 370)
    else if percentage >= 70.0 then (BPlus, 330)
    else if percentage >= 60.0 then (B, 300)
    else if percentage >= 50.0 then (CPlus, 270)
    else if percentage >= 40.0 then (C, 230)
    else (D, 200)
  }

  /** `Percentage(total, full) >= threshold`, decided without dividing. */
  predicate Reaches(total: real, full: real, threshold: real) {
    if full > 0.0 then total * 100.0 >= threshold * full else 0.0 >= threshold
  }

  /** `Reaches` is the comparison of the percentage with the threshold. */
  lemma ReachesIsPercentageComparison(total: real, full: real, threshold: real)
    ensures Reaches(total, full, threshold) <==> Percentage(total, full) >= threshold
  {
    if full > 0.0 {
      PercentageMeaning(total, full);
      var p := Percentage(total, full);
      assert p * full == total * 100.0;
      if p >= threshold {
        assert p * full >= threshold * full;
      } else {
        assert p * full < threshold * full;
      }
    }
  }

  /** The same banding as `GradeAndPoint`, on the figures the percentage is
      computed from. */
  function GradeAndPointOf(passed: bool, total: real, full: real): (r: (Grade, int))
    ensures !passed ==> r == (F, 0)
    ensures passed ==> r.0 != F && 200 <= r.1 <= 400
    ensures r.1 == PointOf(r.0)
  {
    if !passed then (F, 0)
    else if Reaches(total, full, 90.0) then (APlus, 400)
    else if Reaches(total, full, 80.0) then (A, 370)
    else if Reaches(total, full, 70.0) then (BPlus, 330)
    else if Reaches(total, full, 60.0) then (B, 300)
    else if Reaches(total, full, 50.0) then (CPlus, 270)
    else if Reaches(total, full, 40.0) then (C, 230)
    else (D, 200)
  }

  /** Banding the figures is banding their percentage. */
  lemma GradeAndPointOfIsOnPercentage(passed: bool, total: real, full: real)
    ensures GradeAndPointOf(passed, total, full) == GradeAndPoint(passed, Percentage(total, full))
  {
    ReachesIsPercentageComparison(total, full, 90.0);
    ReachesIsPercentageComparison(total, full, 80.0);
    ReachesIsPercentageComparison(total, full, 70.0);
    ReachesIsPercentageComparison(total, full, 60.0);
    ReachesIsPercentageComparison(total, full, 50.0);
    ReachesIsPercentageComparison(total, full, 40.0);
  }

  /** `calculate_result`: every derived field of a subject result. */
  function Calculate(cfg: ExamConfig, m: Marks): (o: Outcome)
    ensures o.totalMarks == OrZero(m.theory) + OrZero(m.practical)
    ensures o.fullMarks == cfg.fullTheory + cfg.fullPractical
    ensures o.theoryPassed <==> OrZero(m.theory) >= cfg.passTheory
    ensures o.practicalPassed <==> !cfg.hasPractical || OrZero(m.practical) >= cfg.passPractical
    ensures o.passed <==> o.theoryPassed && o.practicalPassed
    ensures !o.passed ==> o.grade == F && o.gradePoint == 0
    ensures o.passed ==> o.grade != F && 200 <= o.gradePoint <= 400
    ensures o.gradePoint == PointOf(o.grade)
  {
    var theory := OrZero(m.theory);
    var practical := OrZero(m.practical);
    var total := theory + practical;
    var full := FullMarks(cfg);
    var theoryPassed := theory >= cfg.passTheory;
    var practicalPassed := if cfg.hasPractical then practical >= cfg.passPractical else true;
    var passed := theoryPassed && practicalPassed;
    var (grade, point) := GradeAndPointOf(passed, total, full);
    Outcome(total, full, theoryPassed, practicalPassed, passed, grade, point)
  }

  /** The calculated grade and grade point are `calculate_grade_and_gpa` of
      the pass flag and the stored percentage. */
  lemma CalculatedGradeIsBandedPercentage(cfg: ExamConfig, m: Marks)
    ensures var o := Calculate(cfg, m);
            (o.grade, o.gradePoint) == GradeAndPoint(o.passed, o.Percent())
  {
    var o := Calculate(cfg, m);
    GradeAndPointOfIsOnPercentage(o.passed, o.totalMarks, o.fullMarks);
  }

  /** The if-chain of `calculate_grade_and_gpa` is exactly a lookup in the
      subject band table, with D below the lowest band. */
  lemma {:induction false} PassedGradeIsSubjectBand(percentage: real)
    ensures GradeAndPoint(true, percentage).0 == BandLookup(SubjectBands, percentage, D)
  {
    var b0 := SubjectBands;
    var b1 := [Band(80.0, A), Band(70.0, BPlus), Band(60.0, B), Band(50.0, CPlus), Band(40.0, C)];
    var b2 := [Band(70.0, BPlus), Band(60.0, B), Band(50.0, CPlus), Band(40.0, C)];
    var b3 := [Band(60.0, B), Band(50.0, CPlus), Band(40.0, C)];
    var b4 := [Band(50.0, CPlus), Band(40.0, C)];
    var b5 := [Band(40.0, C)];
    assert b0[1..] == b1 && b1[1..] == b2 && b2[1..] == b3 && b3[1..] == b4 && b4[1..] == b5;
    assert BandLookup(b5, percentage, D) == if percentage >= 40.0 then C else D;
    assert BandLookup(b4, percentage, D) == if percentage >= 50.0 then CPlus else BandLookup(b5, percentage, D);
    assert BandLookup(b3, percentage, D) == if percentage >= 60.0 then B else BandLookup(b4, percentage, D);
    assert BandLookup(b2, percentage, D) == if percentage >= 70.0 then BPlus else BandLookup(b3, percentage, D);
    assert BandLookup(b1, percentage, D) == if percentage >= 80.0 then A else BandLookup(b2, percentage, D);
    assert BandLookup(b0, percentage, D) == if percentage >= 90.0 then APlus else BandLookup(b1, percentage, D);
  }

  /** A passed subject's grade point never decreases as its percentage grows. */
  lemma GradePointMonotone(p1: real, p2: real)
    requires p1 <= p2
    ensures GradeAndPoint(true, p1).1 <= GradeAndPoint(true, p2).1
  {
  }

  /** Passing never earns less than failing, and a failed subject earns the
      same 0.00 at every percentage. */
  lemma FailIsFlatAndLowest(p1: real, p2: real)
    ensures GradeAndPoint(false, p1) == GradeAndPoint(false, p2)
    ensures GradeAndPoint(false, p1).1 < GradeAndPoint(true, p2).1
  {
  }

  /** The calculated percentage is the total per hundred of the full marks,
      practical full marks included even without a practical. */
  lemma CalculatedPercentage(cfg: ExamConfig, m: Marks)
    ensures FullMarks(cfg) > 0.0 ==>
              Calculate(cfg, m).Percent() * (cfg.fullTheory + cfg.fullPractical)
              == (OrZero(m.theory) + OrZero(m.practical)) * 100.0
    ensures FullMarks(cfg) <= 0.0 ==> Calculate(cfg, m).Percent() == 0.0
  {
    if FullMarks(cfg) > 0.0 {
      PercentageMeaning(OrZero(m.theory) + OrZero(m.practical), FullMarks(cfg));
    }
  }

  /** Validated marks under a well-formed scheme give a percentage in [0, 100]. */
  lemma PercentageInRange(cfg: ExamConfig, m: Marks)
    requires WellFormed(cfg) && FullMarks(cfg) > 0.0
    requires m.theory.Some? ==> 0.0 <= m.theory.value <= cfg.fullTheory
    requires m.practical.Some? ==> 0.0 <= m.practical.value <= cfg.fullPractical
    ensures 0.0 <= Calculate(cfg, m).Percent() <= 100.0
  {
    PercentageMeaning(Calculate(cfg, m).totalMarks, FullMarks(cfg));
  }

  /** Full 100, pass 40, no practical, theory 45: C with 2.30. */
  lemma ExampleTheoryOnly()
    ensures Calculate(ExamConfig(1, 1, 1, 100.0, 40.0, false, 0.0, 0.0), Marks(Some(45.0), None))
            == Outcome(45.0, 100.0, true, true, true, C, 230)
    ensures Calculate(ExamConfig(1, 1, 1, 100.0, 40.0, false, 0.0, 0.0), Marks(Some(45.0), None)).Percent() == 45.0
  {
  }

  /** Theory 35 of 100 (pass 40) with practical 25 of 50 (pass 20) fails on
      theory and is F / 0.00 even though the percentage is 40. */
  lemma ExampleFailedDespitePercentage()
    ensures Calculate(ExamConfig(1, 1, 1, 100.0, 40.0, true, 50.0, 20.0), Marks(Some(35.0), Some(25.0)))
            == Outcome(60.0, 150.0, false, true, false, F, 0)
    ensures Calculate(ExamConfig(1, 1, 1, 100.0, 40.0, true, 50.0, 20.0), Marks(Some(35.0), Some(25.0))).Percent() == 40.0
  {
  }
}

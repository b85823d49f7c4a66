/** The overall result aggregator: one student's subject results in one
    examination reduced to counts, summed marks, overall percentage, CGPA,
    overall grade and promotion (ResultManagement/models.py,
    `StudentOverallResult.calculate_overall_result` and `get_overall_grade`).

    The rows the source reads with a queryset are a sequence here; the
    aggregate depends on them only through their `Tally`, which is the same
    for every ordering of the same rows. */
module Aggregation {
  import opened Wrappers
  import opened Grading

  type StudentId = nat
  type TeacherId = nat

  /** The unique key of a StudentResult row. */
  datatype ResultKey = ResultKey(exam: ExamId, student: StudentId, subject: SubjectId)

  /** The unique key of an overall result. */
  datatype PairKey = PairKey(exam: ExamId, student: StudentId)

  function PairOf(k: ResultKey): PairKey {
    PairKey(k.exam, k.student)
  }

  /** A StudentResult row. `derived` is None while `calculate_result` has
      never run on it: total marks and grade point are NULL and `is_passed`
      keeps its default False. `config` is the row's own ExamConfiguration. */
  datatype StudentResult = StudentResult(
    key: ResultKey,
    config: ExamConfig,
    marks: Marks,
    derived: Option<Outcome>,
    enteredBy: Option<TeacherId>)

  /** A StudentOverallResult row. `cgpa`, `overallGrade` (blank) and the
      overall percentage are unset until first computed. The extracurricular
      fields are entered by the class teacher and never derived. */
  datatype OverallResult = OverallResult(
    totalSubjects: int,
    subjectsPassed: int,
    subjectsFailed: int,
    totalGradePoints: int,
    cgpa: Option<int>,
    overallGrade: Option<Grade>,
    totalMarksObtained: real,
    totalFullMarks: real,
    percentageSet: bool,
    isPromoted: bool,
    extracurricularGrade: string,
    extracurricularRemarks: string,
    extracurricularEnteredBy: Option<TeacherId>)
  {
    /** The stored `overall_percentage`: NULL until first computed, then the
        summed marks per hundred of the summed full marks. It is read from the
        two sums it is computed from, so that proofs not about percentages
        never see a division. */
    function OverallPercentage(): Option<real> {
      if percentageSet then Some(Percentage(totalMarksObtained, totalFullMarks)) else None
    }
  }

  /** The row `get_or_create` makes: every field at its model default. */
  const FreshOverall: OverallResult :=
    OverallResult(0, 0, 0, 0, None, None, 0.0, 0.0, false, false, "", "", None)

  /** `is_passed` of a row (False while never calculated). */
  predicate RowPassed(r: StudentResult) {
    r.derived.Some? && r.derived.value.passed
  }

  /** The row's grade point is not NULL. */
  predicate RowGraded(r: StudentResult) {
    r.derived.Some?
  }

  /** `total_marks or 0`. */
  function RowMarks(r: StudentResult): real {
    if r.derived.Some? then r.derived.value.totalMarks else 0.0
  }

  /** `grade_point or 0`. */
  function RowPoints(r: StudentResult): int {
    if r.derived.Some? then r.derived.value.gradePoint else 0
  }

  /** Full marks of the row's own configuration. */
  function RowFull(r: StudentResult): real {
    FullMarks(r.config)
  }

  /** The running sums one pass over the rows collects. */
  datatype Totals = Totals(count: int, passed: int, graded: int, points: int, marks: real, full: real) {
    function Plus(o: Totals): Totals {
      Totals(count + o.count, passed + o.passed, graded + o.graded,
             points + o.points, marks + o.marks, full + o.full)
    }
  }

  const NoTotals: Totals := Totals(0, 0, 0, 0, 0.0, 0.0)

  /** What one row adds to the sums. */
  function Contribution(r: StudentResult): Totals {
    Totals(1,
           if RowPassed(r) then 1 else 0,
           if RowGraded(r) then 1 else 0,
           RowPoints(r), RowMarks(r), RowFull(r))
  }

  /** The sums over all rows, accumulated from the last row backwards. */
  function Tally(rows: seq<StudentResult>): (t: Totals)
    ensures t.count == |rows|
    ensures 0 <= t.passed <= t.count
    ensures 0 <= t.graded <= t.count
    ensures t.graded == 0 ==> t.points == 0
    decreases |rows|
  {
    if |rows| == 0 then NoTotals
    else Tally(rows[..|rows| - 1]).Plus(Contribution(rows[|rows| - 1]))
  }

  /** Decimal `quantize(Decimal('0.01'), ROUND_HALF_UP)` of `s / n` where
      `s` is in hundredths: the nearest hundredth, ties away from zero. */
  function RoundHalfUp(s: int, n: int): (c: int)
    requires n > 0
    ensures 2 * n * c - n <= 2 * s <= 2 * n * c + n
    ensures s >= 0 ==> 2 * s < 2 * n * c + n
    ensures s < 0 ==> 2 * n * c - n < 2 * s
  {
    if s >= 0 then DivFloor(2 * s + n, 2 * n)
    else -DivFloor(-2 * s + n, 2 * n)
  }

  /** Floor division of a non-negative numerator, with the bounds it keeps. */
  function DivFloor(a: int, b: int): (q: int)
    requires a >= 0 && b > 0
    ensures b * q <= a < b * q + b
  {
    var q := a / b;
    assert a == b * q + a % b;
    q
  }

  /** `get_overall_grade`, on the CGPA in hundredths. */
  function OverallGrade(cgpa: int): (g: Grade)
    ensures g != D
    ensures g == F <==> cgpa < 200
  {
    if cgpa >= 380 then APlus
    else if cgpa >= 350 then A
    else if cgpa >= 300 then BPlus
    else if cgpa >= 270 then B
    else if cgpa >= 230 then CPlus
    else if cgpa >= 200 then C
    else F
  }

  /** `calculate_overall_result` over `rows`, the current subject results of
      one (examination, student), starting from the stored `prior`. */
  function Aggregate(rows: seq<StudentResult>, prior: OverallResult): (o: OverallResult)
    ensures o.totalSubjects == |rows|
    ensures 0 <= o.subjectsPassed && 0 <= o.subjectsFailed
    ensures o.subjectsPassed + o.subjectsFailed == o.totalSubjects
    ensures o.isPromoted <==> o.subjectsFailed == 0
    ensures o.totalMarksObtained == Tally(rows).marks && o.totalFullMarks == Tally(rows).full
    ensures o.percentageSet
    ensures o.cgpa.Some? && o.overallGrade == Some(OverallGrade(o.cgpa.value))
    ensures Tally(rows).graded == 0 ==> o.cgpa == Some(0) && o.totalGradePoints == prior.totalGradePoints
    ensures Tally(rows).graded > 0 ==>
              var n, c := Tally(rows).graded, o.cgpa.value;
              o.totalGradePoints == Tally(rows).points &&
              2 * n * c - n <= 2 * o.totalGradePoints <= 2 * n * c + n
    ensures Tally(rows).graded > 0 ==> o.cgpa == Some(RoundHalfUp(Tally(rows).points, Tally(rows).graded))
    ensures o.extracurricularGrade == prior.extracurricularGrade
    ensures o.extracurricularRemarks == prior.extracurricularRemarks
    ensures o.extracurricularEnteredBy == prior.extracurricularEnteredBy
  {
    var t := Tally(rows);
    var failed := t.count - t.passed;
    var points := if t.graded > 0 then t.points else prior.totalGradePoints;
    var cgpa := if t.graded > 0 then RoundHalfUp(t.points, t.graded) else 0;
    prior.(totalSubjects := t.count,
           subjectsPassed := t.passed,
           subjectsFailed := failed,
           totalMarksObtained := t.marks,
           totalFullMarks := t.full,
           percentageSet := true,
           totalGradePoints := points,
           cgpa := Some(cgpa),
           overallGrade := Some(OverallGrade(cgpa)),
           isPromoted := failed == 0)
  }

  /** An overall result agrees with its rows: recomputing it changes nothing. */
  predicate Synced(o: OverallResult, rows: seq<StudentResult>) {
    Aggregate(rows, o) == o
  }

  // ---- Properties ----

  /** The indices of the passed rows. */
  function PassedIndices(rows: seq<StudentResult>): set<int> {
    set i | 0 <= i < |rows| && RowPassed(rows[i])
  }

  /** The passed count is the number of passed rows. */
  lemma {:induction false} PassedCountIsCardinality(rows: seq<StudentResult>)
    ensures Tally(rows).passed == |PassedIndices(rows)|
    decreases |rows|
  {
    if |rows| > 0 {
      var n := |rows| - 1;
      var init := rows[..n];
      PassedCountIsCardinality(init);
      assert forall i :: 0 <= i < n ==> rows[i] == init[i];
      if RowPassed(rows[n]) {
        assert PassedIndices(rows) == PassedIndices(init) + {n};
      } else {
        assert PassedIndices(rows) == PassedIndices(init);
      }
    }
  }

  /** No row failed exactly when every row passed. */
  lemma {:induction false} AllPassedIffNoneFailed(rows: seq<StudentResult>)
    ensures Tally(rows).passed == |rows| <==> forall i :: 0 <= i < |rows| ==> RowPassed(rows[i])
    decreases |rows|
  {
    if |rows| > 0 {
      var n := |rows| - 1;
      var init := rows[..n];
      AllPassedIffNoneFailed(init);
      assert forall i :: 0 <= i < n ==> rows[i] == init[i];
    }
  }

  /** A student is promoted exactly when every subject result is passed; in
      particular a student with no rows at all is promoted. */
  lemma PromotedIffAllPassed(rows: seq<StudentResult>, prior: OverallResult)
    ensures Aggregate(rows, prior).isPromoted <==> forall i :: 0 <= i < |rows| ==> RowPassed(rows[i])
    ensures Aggregate(rows, prior).subjectsFailed == |rows| - |PassedIndices(rows)|
  {
    AllPassedIffNoneFailed(rows);
    PassedCountIsCardinality(rows);
  }

  /** The overall percentage is the summed marks per hundred of the summed
      full marks, or 0 when those are not positive. */
  lemma OverallPercentageMeaning(rows: seq<StudentResult>, prior: OverallResult)
    ensures var o := Aggregate(rows, prior);
            (o.totalFullMarks > 0.0 ==> o.OverallPercentage().value * o.totalFullMarks == o.totalMarksObtained * 100.0)
            && (o.totalFullMarks <= 0.0 ==> o.OverallPercentage() == Some(0.0))
  {
    var o := Aggregate(rows, prior);
    if o.totalFullMarks > 0.0 {
      PercentageMeaning(o.totalMarksObtained, o.totalFullMarks);
    }
  }

  /** Recomputation is idempotent: an aggregate is synced with its rows. */
  lemma AggregateIdempotent(rows: seq<StudentResult>, prior: OverallResult)
    ensures Synced(Aggregate(rows, prior), rows)
  {
  }

  /** The sums of a concatenation are the sums of its parts. */
  lemma {:induction false} TallyConcat(u: seq<StudentResult>, v: seq<StudentResult>)
    ensures Tally(u + v) == Tally(u).Plus(Tally(v))
    decreases |v|
  {
    if |v| == 0 {
      assert u + v == u;
    } else {
      var n := |v| - 1;
      var init, x := v[..n], v[n];
      TallyConcat(u, init);
      SplitLast(u, v);
      TallySnoc(u + init, x);
      TallySnoc(init, x);
      PlusAssociative(Tally(u), Tally(init), Contribution(x));
    }
  }

  /** Appending one row adds its contribution. */
  lemma TallySnoc(s: seq<StudentResult>, x: StudentResult)
    ensures Tally(s + [x]) == Tally(s).Plus(Contribution(x))
  {
    assert (s + [x])[..|s|] == s;
  }

  lemma PlusAssociative(x: Totals, y: Totals, z: Totals)
    ensures x.Plus(y).Plus(z) == x.Plus(y.Plus(z))
  {
  }

  /** The sums do not depend on the order of the rows. */
  lemma {:induction false} TallyPermutation(a: seq<StudentResult>, b: seq<StudentResult>)
    requires multiset(a) == multiset(b)
    ensures Tally(a) == Tally(b)
    decreases |a|
  {
    if |a| == 0 {
      assert |b| == |multiset(b)| == 0;
    } else {
      var n := |a| - 1;
      var x := a[n];
      assert x in multiset(b);
      var i :| 0 <= i < |b| && b[i] == x;
      var rest := b[..i] + b[i + 1..];
      RemoveMatching(a, b, i);
      TallyPermutation(a[..n], rest);
      TallyRemove(b, i);
      assert a == a[..n] + [x];
      TallySnoc(a[..n], x);
    }
  }

  /** Taking the last row off `a` and the same row off `b` keeps the two
      multisets equal. */
  lemma RemoveMatching(a: seq<StudentResult>, b: seq<StudentResult>, i: int)
    requires multiset(a) == multiset(b) && |a| > 0
    requires 0 <= i < |b| && b[i] == a[|a| - 1]
    ensures multiset(a[..|a| - 1]) == multiset(b[..i] + b[i + 1..])
  {
    var n, x := |a| - 1, a[|a| - 1];
    assert b == b[..i] + [x] + b[i + 1..];
    assert a == a[..n] + [x];
    assert multiset(b[..i] + b[i + 1..]) == multiset(b[..i]) + multiset(b[i + 1..]);
    assert multiset(a[..n]) == multiset(a) - multiset{x};
    assert multiset(b[..i] + b[i + 1..]) == multiset(b) - multiset{x};
  }

  /** The sums of `b` are the sums without row `i` plus that row. */
  lemma TallyRemove(b: seq<StudentResult>, i: int)
    requires 0 <= i < |b|
    ensures Tally(b) == Tally(b[..i] + b[i + 1..]).Plus(Contribution(b[i]))
  {
    var pre, x, post := b[..i], b[i], b[i + 1..];
    var tp, cx, tq := Tally(pre), Contribution(x), Tally(post);
    assert Tally(b) == Tally(pre + [x]).Plus(tq) by {
      SplitAt(b, i);
      TallyConcat(pre + [x], post);
    }
    assert Tally(pre + [x]) == tp.Plus(cx) by {
      TallySnoc(pre, x);
    }
    assert Tally(pre + post) == tp.Plus(tq) by {
      TallyConcat(pre, post);
    }
    PlusSwap(tp, cx, tq);
  }

  lemma SplitLast(u: seq<StudentResult>, v: seq<StudentResult>)
    requires |v| > 0
    ensures v == v[..|v| - 1] + [v[|v| - 1]]
    ensures u + v == (u + v[..|v| - 1]) + [v[|v| - 1]]
  {
  }

  lemma SplitAt(b: seq<StudentResult>, i: int)
    requires 0 <= i < |b|
    ensures b == (b[..i] + [b[i]]) + b[i + 1..]
  {
  }

  lemma PlusSwap(x: Totals, y: Totals, z: Totals)
    ensures x.Plus(y).Plus(z) == x.Plus(z).Plus(y)
  {
  }

  /** The aggregate is a function of the set of rows, not of the order the
      database returns them in. */
  lemma AggregateOrderIndependent(a: seq<StudentResult>, b: seq<StudentResult>, prior: OverallResult)
    requires multiset(a) == multiset(b)
    ensures Aggregate(a, prior) == Aggregate(b, prior)
  {
    TallyPermutation(a, b);
  }

  /** `get_overall_grade` is a lookup in the overall band table, with F below
      the lowest band. */
  lemma OverallGradeIsOverallBand(cgpa: int)
    ensures OverallGrade(cgpa) == BandLookup(OverallBands, cgpa as real, F)
  {
    var x := cgpa as real;
    var b0 := OverallBands;
    var b1 := [Band(350.0, A), Band(300.0, BPlus), Band(270.0, B), Band(230.0, CPlus), Band(200.0, C)];
    var b2 := [Band(300.0, BPlus), Band(270.0, B), Band(230.0, CPlus), Band(200.0, C)];
    var b3 := [Band(270.0, B), Band(230.0, CPlus), Band(200.0, C)];
    var b4 := [Band(230.0, CPlus), Band(200.0, C)];
    var b5 := [Band(200.0, C)];
    assert b0[1..] == b1 && b1[1..] == b2 && b2[1..] == b3 && b3[1..] == b4 && b4[1..] == b5;
    assert BandLookup(b5, x, F) == if x >= 200.0 then C else F;
    assert BandLookup(b4, x, F) == if x >= 230.0 then CPlus else BandLookup(b5, x, F);
    assert BandLookup(b3, x, F) == if x >= 270.0 then B else BandLookup(b4, x, F);
    assert BandLookup(b2, x, F) == if x >= 300.0 then BPlus else BandLookup(b3, x, F);
    assert BandLookup(b1, x, F) == if x >= 350.0 then A else BandLookup(b2, x, F);
    assert BandLookup(b0, x, F) == if x >= 380.0 then APlus else BandLookup(b1, x, F);
    assert (x >= 380.0 <==> cgpa >= 380) && (x >= 350.0 <==> cgpa >= 350) && (x >= 300.0 <==> cgpa >= 300);
    assert (x >= 270.0 <==> cgpa >= 270) && (x >= 230.0 <==> cgpa >= 230) && (x >= 200.0 <==> cgpa >= 200);
  }

  /** Grade points 3.70 and 2.30 give CGPA 3.00 and overall grade B+. */
  lemma ExampleCgpa(cfg: ExamConfig, k1: ResultKey, k2: ResultKey)
    ensures var r1 := StudentResult(k1, cfg, Marks(None, None), Some(Outcome(85.0, 100.0, true, true, true, A, 370)), None);
            var r2 := StudentResult(k2, cfg, Marks(None, None), Some(Outcome(45.0, 100.0, true, true, true, C, 230)), None);
            var o := Aggregate([r1, r2], FreshOverall);
            o.cgpa == Some(300) && o.overallGrade == Some(BPlus) && o.totalGradePoints == 600 && o.isPromoted
  {
    var r1 := StudentResult(k1, cfg, Marks(None, None), Some(Outcome(85.0, 100.0, true, true, true, A, 370)), None);
    var r2 := StudentResult(k2, cfg, Marks(None, None), Some(Outcome(45.0, 100.0, true, true, true, C, 230)), None);
    assert [r1, r2][..1] == [r1];
    assert [r1][..0] == [];
    assert Tally([r1]) == NoTotals.Plus(Contribution(r1));
    var t := Tally([r1, r2]);
    assert t == Tally([r1]).Plus(Contribution(r2));
    assert t.graded == 2 && t.points == 600 && t.passed == 2;
    assert RoundHalfUp(600, 2) == 300;
  }

  /** One failed subject out of three: not promoted. */
  lemma ExampleOneFailed(a: StudentResult, b: StudentResult, c: StudentResult, prior: OverallResult)
    requires RowPassed(a) && RowPassed(b) && !RowPassed(c)
    ensures Aggregate([a, b, c], prior).subjectsFailed == 1
    ensures !Aggregate([a, b, c], prior).isPromoted
  {
    assert [a, b, c][..2] == [a, b];
    assert [a, b][..1] == [a];
    assert [a][..0] == [];
    assert Tally([a]).passed == 1;
    assert Tally([a, b]).passed == 2;
    assert Tally([a, b, c]).passed == 2;
  }
}

/** Marks entry (ResultManagement/views.py, `enter_marks`) and the live
    pass/fail check (`check_marks_status`). Form strings arrive already
    classified as blank, unparseable or a number. */
module MarksEntry {
  import opened Wrappers
  import opened Grading
  import opened Aggregation
  import opened ResultStore

  /** A submitted mark: missing or empty, not a number, or a number. */
  datatype RawMark = Blank | Unparseable | Number(value: real)

  /** What marks entry does with one student's submission: write the row,
      skip the student (out-of-range mark), or abort the whole request (an
      exception nobody catches). */
  datatype Verdict = Write(marks: Marks) | Skip | Abort

  /** A supplied mark outside [0, full]. */
  predicate OutOfRange(m: RawMark, full: real) {
    m.Number? && (m.value < 0.0 || m.value > full)
  }

  /** The stored value of an accepted mark: blank and unparseable are NULL. */
  function Stored(m: RawMark): Option<real> {
    if m.Number? then Some(m.value) else None
  }

  /** The per-student validation of marks entry, with an unparseable mark
      stored as NULL as the handler's `except` clause intends. */
  function Validate(cfg: ExamConfig, theory: RawMark, practical: RawMark): (v: Verdict)
    ensures v != Abort
    ensures v == Skip <==> OutOfRange(theory, cfg.fullTheory) || (cfg.hasPractical && OutOfRange(practical, cfg.fullPractical))
    ensures v.Write? ==> v.marks.theory == Stored(theory)
    ensures v.Write? ==> v.marks.practical == (if cfg.hasPractical then Stored(practical) else None)
    ensures v.Write? && v.marks.theory.Some? ==> 0.0 <= v.marks.theory.value <= cfg.fullTheory
    ensures v.Write? && v.marks.practical.Some? ==> 0.0 <= v.marks.practical.value <= cfg.fullPractical
  {
    if OutOfRange(theory, cfg.fullTheory) then Skip
    else if cfg.hasPractical && OutOfRange(practical, cfg.fullPractical) then Skip
    else Write(Marks(Stored(theory), if cfg.hasPractical then Stored(practical) else None))
  }

  /** The same validation as the source writes it: `Decimal()` of a string
      that is not a number raises `decimal.InvalidOperation`, which the
      `except (ValueError, TypeError)` clause does not catch, so the request
      aborts instead of storing NULL. */
  function ValidateAsWritten(cfg: ExamConfig, theory: RawMark, practical: RawMark): (v: Verdict)
    ensures v == Abort <==> theory.Unparseable? || (!OutOfRange(theory, cfg.fullTheory) && cfg.hasPractical && practical.Unparseable?)
  {
    if theory.Unparseable? then Abort
    else if OutOfRange(theory, cfg.fullTheory) then Skip
    else if cfg.hasPractical && practical.Unparseable? then Abort
    else if cfg.hasPractical && OutOfRange(practical, cfg.fullPractical) then Skip
    else Write(Marks(Stored(theory), if cfg.hasPractical then Stored(practical) else None))
  }

  /** The two validations agree on every submission without an unparseable
      mark, so the corrected one is the source's behaviour everywhere else. */
  lemma AsWrittenAgreesOnNumbers(cfg: ExamConfig, theory: RawMark, practical: RawMark)
    requires !theory.Unparseable? && !practical.Unparseable?
    ensures ValidateAsWritten(cfg, theory, practical) == Validate(cfg, theory, practical)
  {
  }

  /** A theory mark of "abc" aborts the request as written, where a NULL
      theory mark was meant. */
  lemma UnparseableMarkAborts(cfg: ExamConfig)
    ensures ValidateAsWritten(cfg, Unparseable, Blank) == Abort
    ensures Validate(cfg, Unparseable, Blank) == Write(Marks(None, None))
  {
  }

  /** A written row of a well-formed scheme has a percentage in [0, 100]. */
  lemma WrittenPercentageInRange(cfg: ExamConfig, theory: RawMark, practical: RawMark)
    requires WellFormed(cfg) && FullMarks(cfg) > 0.0
    requires Validate(cfg, theory, practical).Write?
    ensures 0.0 <= Calculate(cfg, Validate(cfg, theory, practical).marks).Percent() <= 100.0
  {
    PercentageInRange(cfg, Validate(cfg, theory, practical).marks);
  }

  /** `request.POST.get(...)`: a field that was not submitted is blank. */
  function Field(form: map<StudentId, RawMark>, s: StudentId): RawMark {
    if s in form then form[s] else Blank
  }

  function VerdictOf(cfg: ExamConfig, theoryIn: map<StudentId, RawMark>, practicalIn: map<StudentId, RawMark>,
                     s: StudentId): Verdict {
    Validate(cfg, Field(theoryIn, s), Field(practicalIn, s))
  }

  function KeyOf(cfg: ExamConfig, s: StudentId): ResultKey {
    ResultKey(cfg.exam, s, cfg.subject)
  }

  /** The positions among the first `n` students whose row is written. */
  ghost function Written(cfg: ExamConfig, students: seq<StudentId>, theoryIn: map<StudentId, RawMark>,
                         practicalIn: map<StudentId, RawMark>, n: int): set<int>
  {
    set j | 0 <= j < n && j < |students| && VerdictOf(cfg, theoryIn, practicalIn, students[j]).Write?
  }

  /** The keys of the rows written for the first `n` students. */
  ghost function WrittenKeys(cfg: ExamConfig, students: seq<StudentId>, theoryIn: map<StudentId, RawMark>,
                             practicalIn: map<StudentId, RawMark>, n: int): set<ResultKey>
  {
    set j | 0 <= j < n && j < |students| && VerdictOf(cfg, theoryIn, practicalIn, students[j]).Write?
      :: KeyOf(cfg, students[j])
  }

  /** The overall results of the first `n` students. */
  ghost function PairsOf(cfg: ExamConfig, students: seq<StudentId>, n: int): set<PairKey> {
    set j | 0 <= j < n && j < |students| :: PairKey(cfg.exam, students[j])
  }

  /** The row marks entry writes for student `s` with marks `m`. */
  function RowFor(cfg: ExamConfig, s: StudentId, m: Marks, teacher: Option<TeacherId>): StudentResult {
    StudentResult(KeyOf(cfg, s), cfg, m, Some(Calculate(cfg, m)), teacher)
  }

  function FaultOf(faults: map<StudentId, Fault>, s: StudentId): Fault {
    if s in faults then faults[s] else Healthy
  }

  /** The POST branch of `enter_marks` for one configuration: validate and
      write each active student's marks in roll-number order (each save
      firing its trigger, whose failure `faults` may inject), then, when at
      least one row was written, re-aggregate the overall result of every
      student of the class. */
  method EnterMarks(db: Db, cfg: ExamConfig, students: seq<StudentId>,
                    theoryIn: map<StudentId, RawMark>, practicalIn: map<StudentId, RawMark>,
                    teacher: Option<TeacherId>, faults: map<StudentId, Fault>)
    returns (db': Db, saved: nat)
    ensures saved == |Written(cfg, students, theoryIn, practicalIn, |students|)|
    ensures forall i :: 0 <= i < |students| && VerdictOf(cfg, theoryIn, practicalIn, students[i]).Write? ==>
              Find(db'.results, KeyOf(cfg, students[i]))
              == Some(RowFor(cfg, students[i], VerdictOf(cfg, theoryIn, practicalIn, students[i]).marks, teacher))
    ensures forall k :: k !in WrittenKeys(cfg, students, theoryIn, practicalIn, |students|) ==>
              Find(db'.results, k) == Find(db.results, k)
    ensures saved == 0 ==> db' == db
    ensures saved > 0 ==> forall i :: 0 <= i < |students| ==>
              var p := PairKey(cfg.exam, students[i]);
              p in db'.overall && Synced(db'.overall[p], RowsOf(db'.results, p))
    ensures InSync(db) ==> InSync(db')
  {
    db', saved := WriteMarks(db, cfg, students, theoryIn, practicalIn, teacher, faults);
    if saved > 0 {
      db' := RecomputeClass(db', cfg, students);
    }
  }

  /** The first loop of marks entry: every student whose verdict is a write
      gets its row saved; `saved` counts them. Only the pairs of these
      students can be left stale by a failing trigger. */
  method WriteMarks(db: Db, cfg: ExamConfig, students: seq<StudentId>,
                    theoryIn: map<StudentId, RawMark>, practicalIn: map<StudentId, RawMark>,
                    teacher: Option<TeacherId>, faults: map<StudentId, Fault>)
    returns (cur: Db, saved: nat)
    ensures saved == |Written(cfg, students, theoryIn, practicalIn, |students|)|
    ensures forall j :: 0 <= j < |students| && VerdictOf(cfg, theoryIn, practicalIn, students[j]).Write? ==>
              Find(cur.results, KeyOf(cfg, students[j]))
              == Some(RowFor(cfg, students[j], VerdictOf(cfg, theoryIn, practicalIn, students[j]).marks, teacher))
    ensures forall k :: k !in WrittenKeys(cfg, students, theoryIn, practicalIn, |students|) ==>
              Find(cur.results, k) == Find(db.results, k)
    ensures saved == 0 ==> cur == db
    ensures InSync(db) ==> UniqueKeys(cur.results) && SyncedOutside(cur, PairsOf(cfg, students, |students|))
  {
    cur := db;
    saved := 0;
    var i := 0;
    assert PairsOf(cfg, students, 0) == {};
    while i < |students|
      invariant 0 <= i <= |students|
      invariant Progress(db, cur, saved, cfg, students, theoryIn, practicalIn, teacher, i)
    {
      var s := students[i];
      var v := VerdictOf(cfg, theoryIn, practicalIn, s);
      if v.Write? {
        var next := SaveOne(cur, PairsOf(cfg, students, i), cfg, s, v.marks, teacher, FaultOf(faults, s));
        ProgressOnWrite(db, cur, next, saved, cfg, students, theoryIn, practicalIn, teacher, i);
        cur := next;
        saved := saved + 1;
      } else {
        ProgressOnSkip(db, cur, saved, cfg, students, theoryIn, practicalIn, teacher, i);
      }
      i := i + 1;
    }
  }

  /** What the first loop has established after `i` students. */
  ghost predicate Progress(db: Db, cur: Db, saved: nat, cfg: ExamConfig, students: seq<StudentId>,
                           theoryIn: map<StudentId, RawMark>, practicalIn: map<StudentId, RawMark>,
                           teacher: Option<TeacherId>, i: int)
    requires 0 <= i <= |students|
  {
    && saved == |Written(cfg, students, theoryIn, practicalIn, i)|
    && RowsWritten(db, cur, cfg, students, theoryIn, practicalIn, teacher, i)
    && (saved == 0 ==> cur == db)
    && (InSync(db) ==> UniqueKeys(cur.results) && SyncedOutside(cur, PairsOf(cfg, students, i)))
  }

  /** Writing student `i`'s row advances the first loop. */
  lemma ProgressOnWrite(db: Db, cur: Db, next: Db, saved: nat, cfg: ExamConfig, students: seq<StudentId>,
                        theoryIn: map<StudentId, RawMark>, practicalIn: map<StudentId, RawMark>,
                        teacher: Option<TeacherId>, i: int)
    requires 0 <= i < |students|
    requires Progress(db, cur, saved, cfg, students, theoryIn, practicalIn, teacher, i)
    requires VerdictOf(cfg, theoryIn, practicalIn, students[i]).Write?
    requires Find(next.results, KeyOf(cfg, students[i]))
             == Some(RowFor(cfg, students[i], VerdictOf(cfg, theoryIn, practicalIn, students[i]).marks, teacher))
    requires forall k :: k != KeyOf(cfg, students[i]) ==> Find(next.results, k) == Find(cur.results, k)
    requires UniqueKeys(cur.results) && SyncedOutside(cur, PairsOf(cfg, students, i)) ==>
               UniqueKeys(next.results) && SyncedOutside(next, PairsOf(cfg, students, i) + {PairKey(cfg.exam, students[i])})
    ensures Progress(db, next, saved + 1, cfg, students, theoryIn, practicalIn, teacher, i + 1)
  {
    WriteStep(cfg, students, theoryIn, practicalIn, i, true);
    RowsWrittenStep(db, cur, next, cfg, students, theoryIn, practicalIn, teacher, i);
  }

  /** Skipping student `i` advances the first loop. */
  lemma ProgressOnSkip(db: Db, cur: Db, saved: nat, cfg: ExamConfig, students: seq<StudentId>,
                       theoryIn: map<StudentId, RawMark>, practicalIn: map<StudentId, RawMark>,
                       teacher: Option<TeacherId>, i: int)
    requires 0 <= i < |students|
    requires Progress(db, cur, saved, cfg, students, theoryIn, practicalIn, teacher, i)
    requires !VerdictOf(cfg, theoryIn, practicalIn, students[i]).Write?
    ensures Progress(db, cur, saved, cfg, students, theoryIn, practicalIn, teacher, i + 1)
  {
    WriteStep(cfg, students, theoryIn, practicalIn, i, false);
  }

  /** One save of marks entry: `SaveResult` for student `s`, seen from the
      loop — the row is written, nothing else in the table changes, and only
      the student's own overall result can be left stale. */
  method SaveOne(cur: Db, ghost stale: set<PairKey>, cfg: ExamConfig, s: StudentId, m: Marks,
                 teacher: Option<TeacherId>, fault: Fault)
    returns (next: Db)
    ensures Find(next.results, KeyOf(cfg, s)) == Some(RowFor(cfg, s, m, teacher))
    ensures forall k :: k != KeyOf(cfg, s) ==> Find(next.results, k) == Find(cur.results, k)
    ensures UniqueKeys(cur.results) && SyncedOutside(cur, stale) ==>
              UniqueKeys(next.results) && SyncedOutside(next, stale + {PairKey(cfg.exam, s)})
  {
    next := SaveResult(cur, KeyOf(cfg, s), Some(cfg), m, teacher, fault).value;
    if UniqueKeys(cur.results) && SyncedOutside(cur, stale) {
      SaveKeepsSync(cur, stale, KeyOf(cfg, s), cfg, m, teacher, fault);
    }
  }

  /** After `i` students: each written student's row holds its marks, and
      every other key still finds what it found before. */
  ghost predicate RowsWritten(db: Db, cur: Db, cfg: ExamConfig, students: seq<StudentId>,
                              theoryIn: map<StudentId, RawMark>, practicalIn: map<StudentId, RawMark>,
                              teacher: Option<TeacherId>, i: int)
    requires 0 <= i <= |students|
  {
    && RowsHold(cur, cfg, students, theoryIn, practicalIn, teacher, i)
    && (forall k :: k !in WrittenKeys(cfg, students, theoryIn, practicalIn, i) ==>
          Find(cur.results, k) == Find(db.results, k))
  }

  /** Each of the first `i` students whose marks validate has its row. */
  ghost predicate RowsHold(cur: Db, cfg: ExamConfig, students: seq<StudentId>,
                           theoryIn: map<StudentId, RawMark>, practicalIn: map<StudentId, RawMark>,
                           teacher: Option<TeacherId>, i: int)
    requires 0 <= i <= |students|
  {
    forall j :: 0 <= j < i && VerdictOf(cfg, theoryIn, practicalIn, students[j]).Write? ==>
      Find(cur.results, KeyOf(cfg, students[j]))
      == Some(RowFor(cfg, students[j], VerdictOf(cfg, theoryIn, practicalIn, students[j]).marks, teacher))
  }

  /** Writing student `i`'s row keeps `RowsWritten`. */
  lemma RowsWrittenStep(db: Db, cur: Db, next: Db, cfg: ExamConfig, students: seq<StudentId>,
                        theoryIn: map<StudentId, RawMark>, practicalIn: map<StudentId, RawMark>,
                        teacher: Option<TeacherId>, i: int)
    requires 0 <= i < |students|
    requires RowsWritten(db, cur, cfg, students, theoryIn, practicalIn, teacher, i)
    requires VerdictOf(cfg, theoryIn, practicalIn, students[i]).Write?
    requires Find(next.results, KeyOf(cfg, students[i]))
             == Some(RowFor(cfg, students[i], VerdictOf(cfg, theoryIn, practicalIn, students[i]).marks, teacher))
    requires forall k :: k != KeyOf(cfg, students[i]) ==> Find(next.results, k) == Find(cur.results, k)
    ensures RowsWritten(db, next, cfg, students, theoryIn, practicalIn, teacher, i + 1)
  {
    RowsHoldStep(cur, next, cfg, students, theoryIn, practicalIn, teacher, i);
    WriteStep(cfg, students, theoryIn, practicalIn, i, true);
  }

  /** Writing student `i`'s row keeps `RowsHold`. */
  lemma RowsHoldStep(cur: Db, next: Db, cfg: ExamConfig, students: seq<StudentId>,
                     theoryIn: map<StudentId, RawMark>, practicalIn: map<StudentId, RawMark>,
                     teacher: Option<TeacherId>, i: int)
    requires 0 <= i < |students|
    requires RowsHold(cur, cfg, students, theoryIn, practicalIn, teacher, i)
    requires VerdictOf(cfg, theoryIn, practicalIn, students[i]).Write?
    requires Find(next.results, KeyOf(cfg, students[i]))
             == Some(RowFor(cfg, students[i], VerdictOf(cfg, theoryIn, practicalIn, students[i]).marks, teacher))
    requires forall k :: k != KeyOf(cfg, students[i]) ==> Find(next.results, k) == Find(cur.results, k)
    ensures RowsHold(next, cfg, students, theoryIn, practicalIn, teacher, i + 1)
  {
    forall j | 0 <= j < i + 1 && VerdictOf(cfg, theoryIn, practicalIn, students[j]).Write?
      ensures Find(next.results, KeyOf(cfg, students[j]))
              == Some(RowFor(cfg, students[j], VerdictOf(cfg, theoryIn, practicalIn, students[j]).marks, teacher))
    {
      if students[j] != students[i] {
        assert KeyOf(cfg, students[j]) != KeyOf(cfg, students[i]);
      }
    }
  }

  /** How the written positions, keys and pairs grow by one student. */
  lemma WriteStep(cfg: ExamConfig, students: seq<StudentId>, theoryIn: map<StudentId, RawMark>,
                  practicalIn: map<StudentId, RawMark>, i: int, writes: bool)
    requires 0 <= i < |students|
    requires writes <==> VerdictOf(cfg, theoryIn, practicalIn, students[i]).Write?
    ensures writes ==> Written(cfg, students, theoryIn, practicalIn, i + 1) == Written(cfg, students, theoryIn, practicalIn, i) + {i}
    ensures writes ==> WrittenKeys(cfg, students, theoryIn, practicalIn, i + 1)
                       == WrittenKeys(cfg, students, theoryIn, practicalIn, i) + {KeyOf(cfg, students[i])}
    ensures !writes ==> Written(cfg, students, theoryIn, practicalIn, i + 1) == Written(cfg, students, theoryIn, practicalIn, i)
    ensures !writes ==> WrittenKeys(cfg, students, theoryIn, practicalIn, i + 1) == WrittenKeys(cfg, students, theoryIn, practicalIn, i)
    ensures PairsOf(cfg, students, i + 1) == PairsOf(cfg, students, i) + {PairKey(cfg.exam, students[i])}
    ensures i !in Written(cfg, students, theoryIn, practicalIn, i)
    ensures writes ==> |Written(cfg, students, theoryIn, practicalIn, i + 1)| == |Written(cfg, students, theoryIn, practicalIn, i)| + 1
  {
    WrittenGrows(cfg, students, theoryIn, practicalIn, i, writes);
    WrittenKeysGrow(cfg, students, theoryIn, practicalIn, i, writes);
    PairsGrow(cfg, students, i);
  }

  lemma WrittenGrows(cfg: ExamConfig, students: seq<StudentId>, theoryIn: map<StudentId, RawMark>,
                     practicalIn: map<StudentId, RawMark>, i: int, writes: bool)
    requires 0 <= i < |students|
    requires writes <==> VerdictOf(cfg, theoryIn, practicalIn, students[i]).Write?
    ensures writes ==> Written(cfg, students, theoryIn, practicalIn, i + 1) == Written(cfg, students, theoryIn, practicalIn, i) + {i}
    ensures !writes ==> Written(cfg, students, theoryIn, practicalIn, i + 1) == Written(cfg, students, theoryIn, practicalIn, i)
    ensures i !in Written(cfg, students, theoryIn, practicalIn, i)
  {
  }

  lemma WrittenKeysGrow(cfg: ExamConfig, students: seq<StudentId>, theoryIn: map<StudentId, RawMark>,
                        practicalIn: map<StudentId, RawMark>, i: int, writes: bool)
    requires 0 <= i < |students|
    requires writes <==> VerdictOf(cfg, theoryIn, practicalIn, students[i]).Write?
    ensures writes ==> WrittenKeys(cfg, students, theoryIn, practicalIn, i + 1)
                       == WrittenKeys(cfg, students, theoryIn, practicalIn, i) + {KeyOf(cfg, students[i])}
    ensures !writes ==> WrittenKeys(cfg, students, theoryIn, practicalIn, i + 1) == WrittenKeys(cfg, students, theoryIn, practicalIn, i)
  {
  }

  lemma PairsGrow(cfg: ExamConfig, students: seq<StudentId>, i: int)
    requires 0 <= i < |students|
    ensures PairsOf(cfg, students, i + 1) == PairsOf(cfg, students, i) + {PairKey(cfg.exam, students[i])}
  {
  }

  /** The second loop of marks entry: re-aggregate every student's overall
      result, which repairs any pair a failing trigger left stale. The loop
      is taken to succeed for every student. */
  method RecomputeClass(db: Db, cfg: ExamConfig, students: seq<StudentId>) returns (cur: Db)
    ensures cur.results == db.results
    ensures forall j :: 0 <= j < |students| ==>
              var p := PairKey(cfg.exam, students[j]);
              p in cur.overall && Synced(cur.overall[p], RowsOf(cur.results, p))
    ensures UniqueKeys(db.results) && SyncedOutside(db, PairsOf(cfg, students, |students|)) ==> InSync(cur)
  {
    cur := db;
    var i := 0;
    while i < |students|
      invariant 0 <= i <= |students|
      invariant cur.results == db.results
      invariant forall j :: 0 <= j < i ==>
                  var p := PairKey(cfg.exam, students[j]);
                  p in cur.overall && Synced(cur.overall[p], RowsOf(db.results, p))
      invariant SyncedOutside(db, PairsOf(cfg, students, |students|)) ==>
                  SyncedOutside(cur, PairsOf(cfg, students, |students|) - PairsOf(cfg, students, i))
    {
      var p := PairKey(cfg.exam, students[i]);
      if SyncedOutside(db, PairsOf(cfg, students, |students|)) {
        RecomputeRepairs(cur, PairsOf(cfg, students, |students|) - PairsOf(cfg, students, i), p);
      }
      assert PairsOf(cfg, students, i + 1) == PairsOf(cfg, students, i) + {p};
      cur := Recompute(cur, p);
      i := i + 1;
    }
  }

  // ---- Live status ----

  /** The three values a live status takes. */
  datatype Status = Pass | Fail | Invalid

  datatype StatusReport = StatusReport(theory: Status, practical: Status, overall: Status)

  datatype StatusError = InvalidRequestMethod | InvalidConfiguration

  /** Pass < Invalid < Fail: the overall status is the most severe one. */
  function Severity(s: Status): nat {
    match s
    case Pass => 0
    case Invalid => 1
    case Fail => 2
  }

  /** The status of one supplied mark against its pass mark; a blank mark
      leaves the status at pass. */
  function MarkStatus(m: RawMark, passMark: real): (s: Status)
    ensures s == Fail <==> m.Number? && m.value < passMark
    ensures s == Invalid <==> m.Unparseable?
  {
    match m
    case Blank => Pass
    case Unparseable => Invalid
    case Number(x) => if x < passMark then Fail else Pass
  }

  /** `check_marks_status`: the theory, practical and overall status of
      marks typed so far, for the configuration looked up by id. */
  function CheckMarksStatus(isPost: bool, cfg: Option<ExamConfig>, theory: RawMark, practical: RawMark)
    : (r: Result<StatusReport, StatusError>)
    ensures !isPost ==> r == Failure(InvalidRequestMethod)
    ensures isPost && cfg.None? ==> r == Failure(InvalidConfiguration)
    ensures r.Success? <==> isPost && cfg.Some?
    ensures r.Success? ==> r.value.theory == MarkStatus(theory, cfg.value.passTheory)
    ensures r.Success? ==> r.value.practical == (if cfg.value.hasPractical then MarkStatus(practical, cfg.value.passPractical) else Pass)
    ensures r.Success? ==>
              Severity(r.value.overall) == if Severity(r.value.theory) >= Severity(r.value.practical)
                                           then Severity(r.value.theory) else Severity(r.value.practical)
  {
    if !isPost then Failure(InvalidRequestMethod)
    else if cfg.None? then Failure(InvalidConfiguration)
    else
      var c := cfg.value;
      var t := MarkStatus(theory, c.passTheory);
      var p := if c.hasPractical then MarkStatus(practical, c.passPractical) else Pass;
      var overall :=
        if t == Fail || p == Fail then Fail
        else if t == Invalid || p == Invalid then Invalid
        else Pass;
      Success(StatusReport(t, p, overall))
  }

  /** For numeric marks the live overall status is pass exactly when the
      calculator would mark the stored subject passed. */
  lemma LiveStatusMatchesCalculator(cfg: ExamConfig, t: real, practical: RawMark)
    requires cfg.hasPractical ==> practical.Number?
    ensures var r := CheckMarksStatus(true, Some(cfg), Number(t), practical);
            r.Success? && (r.value.overall == Pass <==> Calculate(cfg, Marks(Some(t), Stored(practical))).passed)
  {
  }

  /** A blank theory mark shows as pass live, while the stored result counts
      it as 0 and fails the subject whenever the pass mark is positive. */
  lemma BlankTheoryDiverges(cfg: ExamConfig)
    requires !cfg.hasPractical && cfg.passTheory > 0.0
    ensures CheckMarksStatus(true, Some(cfg), Blank, Blank).value.overall == Pass
    ensures !Calculate(cfg, Marks(None, None)).passed
  {
  }
}

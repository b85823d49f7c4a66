/** The stored rows and the recompute trigger (ResultManagement/signals.py):
    every save of a StudentResult re-aggregates its (examination, student)
    overall result, creating it on first use; every delete re-aggregates it
    from the remaining rows or removes it when none remain. The database is
    an in-memory table of rows plus a map from (examination, student) to the
    one overall result of that pair. */
module ResultStore {
  import opened Wrappers
  import opened Grading
  import opened Aggregation

  /** StudentResult rows and StudentOverallResult rows. */
  datatype Db = Db(results: seq<StudentResult>, overall: map<PairKey, OverallResult>)

  /** Where an aggregation failure surfaces, if it does: in the lookup of the
      overall result, or in `calculate_overall_result` after `get_or_create`
      has already made the row. Either is swallowed by the trigger. Only
      errors raised outside the database and outside the overall result's
      own `save()` are meant: those leave the enclosing `atomic` block of
      `update_or_create` or `delete()` to commit. */
  datatype Fault = Healthy | FailsOnLookup | FailsOnAggregate

  datatype SaveError = ConfigurationMissing

  /** The table's unique_together on (examination, student, subject). */
  predicate UniqueKeys(t: seq<StudentResult>) {
    forall i, j :: 0 <= i < j < |t| ==> t[i].key != t[j].key
  }

  /** The row with key `k`. */
  function Find(t: seq<StudentResult>, k: ResultKey): (r: Option<StudentResult>)
    ensures r.Some? ==> r.value in t && r.value.key == k
    ensures r.None? <==> forall i :: 0 <= i < |t| ==> t[i].key != k
  {
    if |t| == 0 then None
    else if t[0].key == k then Some(t[0])
    else Find(t[1..], k)
  }

  /** `update_or_create` of one row: replace the row with that key in place,
      or append it. */
  function Upsert(t: seq<StudentResult>, row: StudentResult): (t': seq<StudentResult>)
    ensures Find(t', row.key) == Some(row)
    ensures forall k :: k != row.key ==> Find(t', k) == Find(t, k)
    ensures forall x :: x in t' ==> x == row || x in t
    ensures UniqueKeys(t) ==> UniqueKeys(t')
  {
    if |t| == 0 then [row]
    else if t[0].key == row.key then
      FindCons(row, t[1..]);
      FindCons(t[0], t[1..]);
      assert t == [t[0]] + t[1..];
      assert UniqueKeys(t) ==> UniqueKeys([row] + t[1..]) by {
        if UniqueKeys(t) {
          UniqueTail(t);
          UniqueCons(row, t[1..]);
        }
      }
      [row] + t[1..]
    else
      var rest := Upsert(t[1..], row);
      FindCons(t[0], rest);
      FindCons(t[0], t[1..]);
      assert t == [t[0]] + t[1..];
      assert UniqueKeys(t) ==> UniqueKeys([t[0]] + rest) by {
        if UniqueKeys(t) {
          UniqueTail(t);
          forall j | 0 <= j < |rest| ensures rest[j].key != t[0].key {
            assert rest[j] in rest;
            if rest[j] != row {
              var i :| 0 <= i < |t[1..]| && t[1..][i] == rest[j];
              assert t[i + 1] == rest[j];
            }
          }
          UniqueCons(t[0], rest);
        }
      }
      [t[0]] + rest
  }

  /** Looking a key up in `[x] + rest`. */
  lemma FindCons(x: StudentResult, rest: seq<StudentResult>)
    ensures forall k :: Find([x] + rest, k) == if x.key == k then Some(x) else Find(rest, k)
  {
    assert ([x] + rest)[1..] == rest;
  }

  lemma UniqueTail(t: seq<StudentResult>)
    requires |t| > 0 && UniqueKeys(t)
    ensures UniqueKeys(t[1..])
  {
    forall i, j | 0 <= i < j < |t| - 1 ensures t[1..][i].key != t[1..][j].key {
      assert t[1..][i] == t[i + 1] && t[1..][j] == t[j + 1];
    }
  }

  lemma UniqueCons(x: StudentResult, rest: seq<StudentResult>)
    requires UniqueKeys(rest) && forall j :: 0 <= j < |rest| ==> rest[j].key != x.key
    ensures UniqueKeys([x] + rest)
  {
    forall i, j | 0 <= i < j < |rest| + 1 ensures ([x] + rest)[i].key != ([x] + rest)[j].key {
      if i > 0 {
        assert ([x] + rest)[i] == rest[i - 1];
      }
      assert ([x] + rest)[j] == rest[j - 1];
    }
  }

  /** Deleting the row with key `k`. */
  function Remove(t: seq<StudentResult>, k: ResultKey): (t': seq<StudentResult>)
    ensures Find(t', k) == None
    ensures forall k' :: k' != k ==> Find(t', k') == Find(t, k')
    ensures forall x :: x in t' <==> x in t && x.key != k
    ensures UniqueKeys(t) ==> UniqueKeys(t')
  {
    if |t| == 0 then []
    else if t[0].key == k then Remove(t[1..], k)
    else [t[0]] + Remove(t[1..], k)
  }

  /** The queryset `filter(examination=…, student=…)`: the rows of pair `p`. */
  function RowsOf(t: seq<StudentResult>, p: PairKey): (r: seq<StudentResult>)
    ensures forall x :: x in r <==> x in t && PairOf(x.key) == p
  {
    if |t| == 0 then []
    else if PairOf(t[0].key) == p then [t[0]] + RowsOf(t[1..], p)
    else RowsOf(t[1..], p)
  }

  /** The stored overall result of `p`, or the one `get_or_create` makes. */
  function OverallOrFresh(db: Db, p: PairKey): OverallResult {
    if p in db.overall then db.overall[p] else FreshOverall
  }

  /** The overall map is the same everywhere except possibly at `p`. */
  ghost predicate SameElsewhere(o: map<PairKey, OverallResult>, o': map<PairKey, OverallResult>, p: PairKey) {
    forall q :: q != p ==> (q in o <==> q in o') && (q in o ==> o[q] == o'[q])
  }

  /** Every pair that has rows, outside `stale`, has an overall result that
      agrees with those rows. */
  ghost predicate SyncedOutside(db: Db, stale: set<PairKey>) {
    forall q :: q !in stale && RowsOf(db.results, q) != [] ==>
      q in db.overall && Synced(db.overall[q], RowsOf(db.results, q))
  }

  /** The invariant the trigger maintains. */
  ghost predicate InSync(db: Db) {
    UniqueKeys(db.results) && SyncedOutside(db, {})
  }

  /** `get_or_create` then `calculate_overall_result` for pair `p`: the
      manual re-aggregation that also repairs a stale pair. */
  function Recompute(db: Db, p: PairKey): (db': Db)
    ensures db'.results == db.results
    ensures p in db'.overall && Synced(db'.overall[p], RowsOf(db.results, p))
    ensures SameElsewhere(db.overall, db'.overall, p)
    ensures p in db.overall ==>
              db'.overall[p].extracurricularGrade == db.overall[p].extracurricularGrade &&
              db'.overall[p].extracurricularRemarks == db.overall[p].extracurricularRemarks &&
              db'.overall[p].extracurricularEnteredBy == db.overall[p].extracurricularEnteredBy
  {
    var o := Aggregate(RowsOf(db.results, p), OverallOrFresh(db, p));
    AggregateIdempotent(RowsOf(db.results, p), OverallOrFresh(db, p));
    db.(overall := db.overall[p := o])
  }

  /** `update_overall_result_on_save` for a row of pair `p`; a failure is
      swallowed and leaves the overall result as it was or freshly created. */
  function OnSave(db: Db, p: PairKey, fault: Fault): (db': Db)
    ensures db'.results == db.results
    ensures SameElsewhere(db.overall, db'.overall, p)
  {
    match fault
    case Healthy => Recompute(db, p)
    case FailsOnLookup => db
    case FailsOnAggregate => db.(overall := db.overall[p := OverallOrFresh(db, p)])
  }

  /** `update_overall_result_on_delete` for a row of pair `p`, called after
      the row is gone; a failure is swallowed and changes nothing. */
  function OnDelete(db: Db, p: PairKey, fault: Fault): (db': Db)
    ensures db'.results == db.results
    ensures SameElsewhere(db.overall, db'.overall, p)
    ensures p !in db.overall ==> db' == db
  {
    if fault != Healthy || p !in db.overall then db
    else if RowsOf(db.results, p) != [] then Recompute(db, p)
    else db.(overall := db.overall - {p})
  }

  /** `StudentResult.save()`: derive the fields from the marks and the
      configuration, write the row, then run the save trigger. */
  function SaveResult(db: Db, key: ResultKey, cfg: Option<ExamConfig>, marks: Marks,
                      enteredBy: Option<TeacherId>, fault: Fault): (r: Result<Db, SaveError>)
    ensures cfg.None? <==> r.Failure?
    ensures r.Success? ==>
              && Find(r.value.results, key) == Some(StudentResult(key, cfg.value, marks, Some(Calculate(cfg.value, marks)), enteredBy))
              && (forall k :: k != key ==> Find(r.value.results, k) == Find(db.results, k))
              && SameElsewhere(db.overall, r.value.overall, PairOf(key))
              && (UniqueKeys(db.results) ==> UniqueKeys(r.value.results))
    ensures r.Success? && fault == Healthy ==>
              var p := PairOf(key);
              p in r.value.overall && Synced(r.value.overall[p], RowsOf(r.value.results, p))
  {
    if cfg.None? then Failure(ConfigurationMissing)
    else
      var row := StudentResult(key, cfg.value, marks, Some(Calculate(cfg.value, marks)), enteredBy);
      Success(OnSave(db.(results := Upsert(db.results, row)), PairOf(key), fault))
  }

  /** The row `update_or_create` leaves for `key` on Django 4.2 and later.
      A new row is inserted whole. An existing row is saved with
      `update_fields` set to the submitted columns (and the timestamps), so
      the figures `calculate_result` recomputes in memory are never written
      and the row keeps the ones it had. */
  function StoredRowAsWritten(t: seq<StudentResult>, key: ResultKey, cfg: ExamConfig, marks: Marks,
                              enteredBy: Option<TeacherId>): StudentResult
  {
    match Find(t, key)
    case Some(prior) => StudentResult(key, cfg, marks, prior.derived, enteredBy)
    case None => StudentResult(key, cfg, marks, Some(Calculate(cfg, marks)), enteredBy)
  }

  /** `StudentResult.save()` reached through `update_or_create` as written:
      like `SaveResult`, except that re-entering marks for an existing row
      leaves its total, percentage, grade, grade point and pass flags as
      they were. */
  function SaveResultAsWritten(db: Db, key: ResultKey, cfg: Option<ExamConfig>, marks: Marks,
                               enteredBy: Option<TeacherId>, fault: Fault): (r: Result<Db, SaveError>)
    ensures cfg.None? <==> r.Failure?
    ensures r.Success? && Find(db.results, key).Some? ==>
              Find(r.value.results, key) == Some(StudentResult(key, cfg.value, marks, Find(db.results, key).value.derived, enteredBy))
    ensures r.Success? && Find(db.results, key).None? ==>
              Find(r.value.results, key) == Some(StudentResult(key, cfg.value, marks, Some(Calculate(cfg.value, marks)), enteredBy))
    ensures r.Success? ==>
              && (forall k :: k != key ==> Find(r.value.results, k) == Find(db.results, k))
              && SameElsewhere(db.overall, r.value.overall, PairOf(key))
  {
    if cfg.None? then Failure(ConfigurationMissing)
    else
      var row := StoredRowAsWritten(db.results, key, cfg.value, marks, enteredBy);
      Success(OnSave(db.(results := Upsert(db.results, row)), PairOf(key), fault))
  }

  /** `StudentResult.delete()`: remove the row, then run the delete trigger. */
  function DeleteResult(db: Db, key: ResultKey, fault: Fault): (db': Db)
    ensures Find(db'.results, key) == None
    ensures forall k :: k != key ==> Find(db'.results, k) == Find(db.results, k)
    ensures SameElsewhere(db.overall, db'.overall, PairOf(key))
    ensures PairOf(key) !in db.overall ==> PairOf(key) !in db'.overall
    ensures fault != Healthy ==> db'.overall == db.overall
    ensures fault == Healthy && PairOf(key) in db.overall ==>
              var p, rest := PairOf(key), RowsOf(db'.results, PairOf(key));
              if rest != [] then p in db'.overall && db'.overall[p] == Aggregate(rest, db.overall[p])
              else p !in db'.overall
  {
    OnDelete(db.(results := Remove(db.results, key)), PairOf(key), fault)
  }

  // ---- Properties ----

  /** Writing a row of one pair leaves every other pair's rows alone. */
  lemma {:induction false} UpsertOtherPair(t: seq<StudentResult>, row: StudentResult, q: PairKey)
    requires PairOf(row.key) != q
    ensures RowsOf(Upsert(t, row), q) == RowsOf(t, q)
    decreases |t|
  {
    if |t| > 0 && t[0].key != row.key {
      UpsertOtherPair(t[1..], row, q);
      assert ([t[0]] + Upsert(t[1..], row))[1..] == Upsert(t[1..], row);
    } else if |t| > 0 {
      assert ([row] + t[1..])[1..] == t[1..];
    }
  }

  /** Deleting a row of one pair leaves every other pair's rows alone. */
  lemma {:induction false} RemoveOtherPair(t: seq<StudentResult>, k: ResultKey, q: PairKey)
    requires PairOf(k) != q
    ensures RowsOf(Remove(t, k), q) == RowsOf(t, q)
    decreases |t|
  {
    if |t| > 0 {
      RemoveOtherPair(t[1..], k, q);
      if t[0].key != k {
        assert ([t[0]] + Remove(t[1..], k))[1..] == Remove(t[1..], k);
      }
    }
  }

  /** The save as written differs from `SaveResult` only in a re-entered
      row whose stored figures are not those of its new marks: a first
      entry, or a re-entry of figures the row already holds, saves the
      same database either way. */
  lemma SaveAsWrittenAgreesUnlessStale(db: Db, key: ResultKey, cfg: ExamConfig, marks: Marks,
                                       enteredBy: Option<TeacherId>, fault: Fault)
    ensures (Find(db.results, key).None? || Find(db.results, key).value.derived == Some(Calculate(cfg, marks)))
            <==> SaveResultAsWritten(db, key, Some(cfg), marks, enteredBy, fault)
                 == SaveResult(db, key, Some(cfg), marks, enteredBy, fault)
  {
    var asWritten := SaveResultAsWritten(db, key, Some(cfg), marks, enteredBy, fault);
    var intended := SaveResult(db, key, Some(cfg), marks, enteredBy, fault);
    if asWritten == intended && Find(db.results, key).Some? {
      assert Find(asWritten.value.results, key) == Find(intended.value.results, key);
    }
  }

  /** Theory 35 of 100 (pass 40) is stored as F / 0.00. Re-entered as 45,
      the save as written stores the 45 and keeps F / 0.00, where the
      intended save stores C / 2.30. */
  lemma ReenteredMarkKeepsStaleGrade()
    ensures var cfg := ExamConfig(1, 1, 1, 100.0, 40.0, false, 0.0, 0.0);
            var key := ResultKey(1, 1, 1);
            var first := Marks(Some(35.0), None);
            var again := Marks(Some(45.0), None);
            var db := Db([StudentResult(key, cfg, first, Some(Calculate(cfg, first)), None)], map[]);
            && Find(SaveResultAsWritten(db, key, Some(cfg), again, None, Healthy).value.results, key).value.derived.value.grade == F
            && Find(SaveResult(db, key, Some(cfg), again, None, Healthy).value.results, key).value.derived.value.grade == C
  {
    var cfg := ExamConfig(1, 1, 1, 100.0, 40.0, false, 0.0, 0.0);
    var first := Marks(Some(35.0), None);
    assert Calculate(cfg, first).grade == F;
    ExampleTheoryOnly();
  }

  /** A trigger failure of the kind `Fault` stands for never undoes the
      write that fired it: the rows after a save or delete are the same
      whatever the trigger does. */
  lemma TriggerFailureKeepsWrite(db: Db, key: ResultKey, cfg: ExamConfig, marks: Marks,
                                 enteredBy: Option<TeacherId>, fault: Fault)
    ensures SaveResult(db, key, Some(cfg), marks, enteredBy, fault).value.results
            == SaveResult(db, key, Some(cfg), marks, enteredBy, Healthy).value.results
    ensures DeleteResult(db, key, fault).results == DeleteResult(db, key, Healthy).results
  {
  }

  /** A save keeps in sync every pair that was in sync except the saved
      row's own, and with a healthy trigger that one too. */
  lemma SaveKeepsSync(db: Db, stale: set<PairKey>, key: ResultKey, cfg: ExamConfig, marks: Marks,
                      enteredBy: Option<TeacherId>, fault: Fault)
    requires UniqueKeys(db.results) && SyncedOutside(db, stale)
    ensures var db' := SaveResult(db, key, Some(cfg), marks, enteredBy, fault).value;
            UniqueKeys(db'.results) && SyncedOutside(db', stale + {PairOf(key)})
    ensures fault == Healthy ==> SyncedOutside(SaveResult(db, key, Some(cfg), marks, enteredBy, fault).value, stale)
  {
    var db' := SaveResult(db, key, Some(cfg), marks, enteredBy, fault).value;
    var row := StudentResult(key, cfg, marks, Some(Calculate(cfg, marks)), enteredBy);
    assert db'.results == Upsert(db.results, row);
    forall q | q != PairOf(key) && q !in stale && RowsOf(db'.results, q) != []
      ensures q in db'.overall && Synced(db'.overall[q], RowsOf(db'.results, q))
    {
      UpsertOtherPair(db.results, row, q);
    }
  }

  /** A delete keeps in sync every pair that was in sync except the deleted
      row's own, and with a healthy trigger that one too. */
  lemma DeleteKeepsSync(db: Db, stale: set<PairKey>, key: ResultKey, fault: Fault)
    requires UniqueKeys(db.results) && SyncedOutside(db, stale)
    ensures var db' := DeleteResult(db, key, fault);
            UniqueKeys(db'.results) && SyncedOutside(db', stale + {PairOf(key)})
    ensures fault == Healthy ==> SyncedOutside(DeleteResult(db, key, fault), stale)
  {
    var db' := DeleteResult(db, key, fault);
    var p := PairOf(key);
    assert db'.results == Remove(db.results, key);
    forall q | q != p && q !in stale && RowsOf(db'.results, q) != []
      ensures q in db'.overall && Synced(db'.overall[q], RowsOf(db'.results, q))
    {
      RemoveOtherPair(db.results, key, q);
    }
    if fault == Healthy && p !in stale && RowsOf(db'.results, p) != [] {
      var x := RowsOf(db'.results, p)[0];
      assert x in db.results && PairOf(x.key) == p;
      assert RowsOf(db.results, p) != [];
      AggregateIdempotent(RowsOf(db'.results, p), db.overall[p]);
    }
  }

  /** Re-aggregating a pair takes it off the stale set. */
  lemma RecomputeRepairs(db: Db, stale: set<PairKey>, p: PairKey)
    requires SyncedOutside(db, stale)
    ensures SyncedOutside(Recompute(db, p), stale - {p})
  {
  }

  /** Deleting the last row of a pair removes its overall result. */
  lemma DeleteLastRowRemovesOverall(db: Db, key: ResultKey)
    requires PairOf(key) in db.overall
    requires forall x :: x in db.results && PairOf(x.key) == PairOf(key) ==> x.key == key
    ensures PairOf(key) !in DeleteResult(db, key, Healthy).overall
  {
  }
}

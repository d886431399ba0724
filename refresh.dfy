/** The `update-metadata` command (cmd/updatemetadata.go): every selected row of the index is
    compared with the metadata its file yields now, changed rows are rewritten (or only counted,
    in a dry run), and each row lands in exactly one of the counters updated, unchanged or errors. */
module Refresh {
  import opened Wrappers
  import opened Times
  import opened Paths
  import opened Records
  import opened Store
  import opened Metadata

  /** The six columns `compareMetadata` looks at, in the order it reports them. */
  datatype Field = DateTime | Location | CameraModel | CameraMake | CameraType | ResolutionField

  const CompareOrder: seq<Field> := [DateTime, Location, CameraModel, CameraMake, CameraType, ResolutionField]

  /** The label a change line starts with. */
  function Label(f: Field): string {
    match f
    case DateTime => "Date/Time"
    case Location => "Location"
    case CameraModel => "Camera Model"
    case CameraMake => "Camera Make"
    case CameraType => "Camera Type"
    case ResolutionField => "Resolution"
  }

  /** The position of a field in the report. */
  function Rank(f: Field): nat {
    match f
    case DateTime => 0
    case Location => 1
    case CameraModel => 2
    case CameraMake => 3
    case CameraType => 4
    case ResolutionField => 5
  }

  /** Whether the two metadata values differ in one field; dates differ only when their instants
      do (`time.Time.Equal`). */
  predicate Differs(f: Field, a: MediaMetadata, b: MediaMetadata) {
    match f
    case DateTime => !Equal(a.dateTime, b.dateTime)
    case Location => a.location != b.location
    case CameraModel => a.cameraModel != b.cameraModel
    case CameraMake => a.cameraMake != b.cameraMake
    case CameraType => a.cameraType != b.cameraType
    case ResolutionField => a.resolution != b.resolution
  }

  predicate RankIncreasing(fields: seq<Field>) {
    forall i, j :: 0 <= i < j < |fields| ==> Rank(fields[i]) < Rank(fields[j])
  }

  /** The fields of `fields` in which `a` and `b` differ, in the same order. */
  function Changes(fields: seq<Field>, a: MediaMetadata, b: MediaMetadata): (r: seq<Field>)
    ensures forall f :: f in r <==> f in fields && Differs(f, a, b)
    ensures |r| <= |fields|
    ensures RankIncreasing(fields) ==> RankIncreasing(r)
  {
    if fields == [] then []
    else
      var rest := Changes(fields[1..], a, b);
      assert RankIncreasing(fields) ==> forall f :: f in rest ==> Rank(fields[0]) < Rank(f);
      if Differs(fields[0], a, b) then [fields[0]] + rest else rest
  }

  /** `compareMetadata`: one entry per differing field, at most six, in the fixed report order;
      the file type is never compared. */
  function CompareMetadata(a: MediaMetadata, b: MediaMetadata): (r: seq<Field>)
    ensures forall f :: f in r <==> Differs(f, a, b)
    ensures RankIncreasing(r) && |r| <= 6
  {
    Changes(CompareOrder, a, b)
  }

  /** No changes exactly when the six compared fields agree. */
  lemma CompareEmptyIff(a: MediaMetadata, b: MediaMetadata)
    ensures CompareMetadata(a, b) == [] <==>
      Equal(a.dateTime, b.dateTime) && a.location == b.location && a.cameraModel == b.cameraModel &&
      a.cameraMake == b.cameraMake && a.cameraType == b.cameraType && a.resolution == b.resolution
  {
    var r := CompareMetadata(a, b);
    if r != [] {
      assert r[0] in r;
    } else {
      assert !Differs(DateTime, a, b) && !Differs(Location, a, b) && !Differs(CameraModel, a, b);
      assert !Differs(CameraMake, a, b) && !Differs(CameraType, a, b) && !Differs(ResolutionField, a, b);
    }
  }

  /** Metadata compared with itself shows no change. */
  lemma CompareSelf(m: MediaMetadata)
    ensures CompareMetadata(m, m) == []
  {
    CompareEmptyIff(m, m);
  }

  /** The file type plays no part in the comparison. */
  lemma CompareIgnoresFileType(a: MediaMetadata, b: MediaMetadata, typeA: string, typeB: string)
    ensures CompareMetadata(a.(fileType := typeA), b.(fileType := typeB)) == CompareMetadata(a, b)
  {
    ChangesIgnoreFileType(CompareOrder, a, b, typeA, typeB);
  }

  lemma {:induction false} ChangesIgnoreFileType(fields: seq<Field>, a: MediaMetadata, b: MediaMetadata, typeA: string, typeB: string)
    ensures Changes(fields, a.(fileType := typeA), b.(fileType := typeB)) == Changes(fields, a, b)
  {
    if fields != [] {
      ChangesIgnoreFileType(fields[1..], a, b, typeA, typeB);
      assert Differs(fields[0], a.(fileType := typeA), b.(fileType := typeB)) == Differs(fields[0], a, b);
    }
  }

  /** Two dates at the same instant are no change, whatever their calendar fields say. */
  lemma SameInstantNoDateChange(a: MediaMetadata, b: MediaMetadata)
    requires a.dateTime.instant == b.dateTime.instant
    ensures DateTime !in CompareMetadata(a, b)
  {
  }

  /** What the environment decides about one run: whether it is a dry run, and which rows fail to
      scan or to update. */
  datatype RefreshRun = RefreshRun(dryRun: bool, scanFails: set<int>, updateFails: set<int>)

  /** What happens to one row. */
  datatype RowOutcome = Failed | Unchanged | Updated(metadata: MediaMetadata)

  /** The loop body for row `id` holding `rec`: a scan error, a missing file or unreadable
      metadata is an error; no change leaves it unchanged; a change is an update, which fails only
      when the record is written (not in a dry run) and the write fails. */
  function Outcome(id: int, rec: MediaRecord, files: map<Path, FileEntry>, env: Env, run: RefreshRun): (o: RowOutcome)
    ensures o.Updated? ==>
      MediaMetadataOf(files, env, rec.newPath) == Ok(o.metadata) && CompareMetadata(rec.metadata, o.metadata) != []
    ensures o.Unchanged? ==>
      id !in run.scanFails && MediaMetadataOf(files, env, rec.newPath).Ok? &&
      CompareMetadata(rec.metadata, MediaMetadataOf(files, env, rec.newPath).value) == []
    ensures rec.newPath !in files || id in run.scanFails ==> o.Failed?
  {
    if id in run.scanFails || rec.newPath !in files then Failed
    else
      match MediaMetadataOf(files, env, rec.newPath)
      case Err(_) => Failed
      case Ok(m) =>
        if CompareMetadata(rec.metadata, m) == [] then Unchanged
        else if !run.dryRun && id in run.updateFails then Failed
        else Updated(m)
  }

  /** The three counters. */
  datatype Counts = Counts(updatedCount: nat, unchangedCount: nat, errorCount: nat) {
    function Total(): nat {
      updatedCount + unchangedCount + errorCount
    }

    function Add(o: RowOutcome): (c: Counts)
      ensures c.Total() == Total() + 1
    {
      match o
      case Failed => this.(errorCount := errorCount + 1)
      case Unchanged => this.(unchangedCount := unchangedCount + 1)
      case Updated(_) => this.(updatedCount := updatedCount + 1)
    }
  }

  /** One row of the SELECT's result: its id and the columns the loop scans. */
  datatype QueryRow = QueryRow(id: int, record: MediaRecord)

  /** The query's filter: every row, or the rows of one file type. */
  predicate Selected(rec: MediaRecord, updateType: string) {
    updateType == "all" || rec.metadata.fileType == updateType
  }

  /** `result` is what the SELECT returns from `rows`: each selected row once, read as stored, in
      some order (the query has no ORDER BY). */
  ghost predicate IsQueryResult(rows: map<int, MediaRecord>, updateType: string, result: seq<QueryRow>) {
    (forall i, j :: 0 <= i < j < |result| ==> result[i].id != result[j].id) &&
    (forall k :: 0 <= k < |result| ==> result[k].id in rows && result[k].record == rows[result[k].id]) &&
    (forall k :: 0 <= k < |result| ==> Selected(result[k].record, updateType)) &&
    (forall id :: id in rows && Selected(rows[id], updateType) ==> exists k :: 0 <= k < |result| && result[k].id == id)
  }

  /** The outcome of every row of the result, in order. */
  function Outcomes(result: seq<QueryRow>, files: map<Path, FileEntry>, env: Env, run: RefreshRun): (outs: seq<RowOutcome>)
    ensures |outs| == |result|
    ensures forall k :: 0 <= k < |result| ==> outs[k] == Outcome(result[k].id, result[k].record, files, env, run)
  {
    seq(|result|, k requires 0 <= k < |result| => Outcome(result[k].id, result[k].record, files, env, run))
  }

  /** The counters after the first `n` outcomes. */
  function Tally(outs: seq<RowOutcome>, n: nat): Counts
    requires n <= |outs|
  {
    if n == 0 then Counts(0, 0, 0) else Tally(outs, n - 1).Add(outs[n - 1])
  }

  /** Every row lands in exactly one counter. */
  lemma {:induction false} TallyTotal(outs: seq<RowOutcome>, n: nat)
    requires n <= |outs|
    ensures Tally(outs, n).Total() == n
  {
    if n > 0 {
      TallyTotal(outs, n - 1);
    }
  }

  /** A row as an outcome leaves it: an update rewrites its metadata columns. */
  function Written(rec: MediaRecord, o: RowOutcome): (r: MediaRecord)
    ensures r.hash == rec.hash
    ensures o.Updated? ==> r == Refreshed(rec, o.metadata)
    ensures !o.Updated? ==> r == rec
  {
    match o
    case Updated(m) => Refreshed(rec, m)
    case _ => rec
  }

  /** The rows after a real run over the first `n` rows of the result, with their outcomes `outs`:
      an updated row gets its new metadata columns, written with `UPDATE ... WHERE id = ?`. */
  function Applied(rows: map<int, MediaRecord>, result: seq<QueryRow>, outs: seq<RowOutcome>, n: nat): (r: map<int, MediaRecord>)
    requires n <= |result| && n <= |outs|
    ensures r.Keys == rows.Keys
  {
    if n == 0 then rows
    else
      var before := Applied(rows, result, outs, n - 1);
      var id := result[n - 1].id;
      match outs[n - 1]
      case Updated(m) => if id in before then before[id := Refreshed(before[id], m)] else before
      case _ => before
  }

  /** A row the run has not reached yet is as it was. */
  lemma {:induction false} AppliedUnvisited(rows: map<int, MediaRecord>, result: seq<QueryRow>, outs: seq<RowOutcome>, n: nat, id: int)
    requires n <= |result| && n <= |outs| && id in rows
    requires forall k :: 0 <= k < n ==> result[k].id != id
    ensures Applied(rows, result, outs, n)[id] == rows[id]
  {
    if n > 0 {
      AppliedUnvisited(rows, result, outs, n - 1, id);
    }
  }

  /** A visited row holds its new metadata exactly when its outcome was an update, and is as it
      was otherwise; ids in the result are distinct, as primary keys are. */
  lemma {:induction false} AppliedVisited(rows: map<int, MediaRecord>, result: seq<QueryRow>, outs: seq<RowOutcome>, n: nat, k: nat)
    requires k < n <= |result| && n <= |outs| && result[k].id in rows
    requires forall i, j :: 0 <= i < j < |result| ==> result[i].id != result[j].id
    ensures Applied(rows, result, outs, n)[result[k].id] == Written(rows[result[k].id], outs[k])
  {
    var id := result[k].id;
    if k < n - 1 {
      AppliedVisited(rows, result, outs, n - 1, k);
      assert result[n - 1].id != id;
    } else {
      AppliedUnvisited(rows, result, outs, k, id);
    }
  }

  /** A real run rewrites metadata only: every row keeps its hash, so the UNIQUE constraint on
      `hash` still holds. */
  lemma {:induction false} AppliedKeepsHashes(rows: map<int, MediaRecord>, result: seq<QueryRow>, outs: seq<RowOutcome>, n: nat)
    requires n <= |result| && n <= |outs|
    ensures var r := Applied(rows, result, outs, n);
      (forall id :: id in rows ==> r[id].hash == rows[id].hash) && (UniqueHashes(rows) ==> UniqueHashes(r))
  {
    if n > 0 {
      AppliedKeepsHashes(rows, result, outs, n - 1);
    }
  }

  /** One pass of the row loop on a scanned row: stats the file, re-reads its metadata, compares,
      and rewrites the row unless this is a dry run. */
  method RefreshRow(db: MediaIndex, fs: FileSystem, env: Env, run: RefreshRun, row: QueryRow) returns (outcome: RowOutcome)
    modifies db
    ensures db.nextId == old(db.nextId)
    ensures outcome == Outcome(row.id, row.record, fs.files, env, run)
    ensures db.rows == if outcome.Updated? && !run.dryRun && row.id in old(db.rows)
                       then old(db.rows)[row.id := Refreshed(old(db.rows)[row.id], outcome.metadata)]
                       else old(db.rows)
  {
    var rec := row.record;
    if row.id in run.scanFails || rec.newPath !in fs.files {
      return Failed;
    }
    var newMetadata := GetMediaMetadata(fs, env, rec.newPath);
    if newMetadata.Err? {
      return Failed;
    }
    var changes := CompareMetadata(rec.metadata, newMetadata.value);
    if |changes| == 0 {
      return Unchanged;
    }
    if !run.dryRun {
      var ok := db.UpdateMediaRecord(row.id, newMetadata.value, row.id in run.updateFails);
      if !ok {
        return Failed;
      }
    }
    outcome := Updated(newMetadata.value);
  }

  /** `updateDatabaseMetadata`'s row loop over the query's result. The counters are the tally of
      the outcomes; a dry run writes nothing, a real run writes exactly the updated rows. */
  method UpdateDatabaseMetadata(db: MediaIndex, fs: FileSystem, env: Env, run: RefreshRun, result: seq<QueryRow>)
    returns (updated: nat, unchangedRows: nat, errors: nat)
    requires db.Valid()
    modifies db
    ensures db.Valid() && db.nextId == old(db.nextId)
    ensures var outs := Outcomes(result, fs.files, env, run);
      Counts(updated, unchangedRows, errors) == Tally(outs, |outs|)
    ensures updated + unchangedRows + errors == |result|
    ensures run.dryRun ==> db.rows == old(db.rows)
    ensures !run.dryRun ==> db.rows == Applied(old(db.rows), result, Outcomes(result, fs.files, env, run), |result|)
  {
    ghost var rows0 := db.rows;
    ghost var outs := Outcomes(result, fs.files, env, run);
    var counts := Counts(0, 0, 0);
    var i := 0;
    while i < |result|
      invariant 0 <= i <= |result|
      invariant db.nextId == old(db.nextId)
      invariant counts == Tally(outs, i)
      invariant run.dryRun ==> db.rows == rows0
      invariant !run.dryRun ==> db.rows == Applied(rows0, result, outs, i)
    {
      var outcome := RefreshRow(db, fs, env, run, result[i]);
      counts := counts.Add(outcome);
      i := i + 1;
    }
    TallyTotal(outs, |result|);
    AppliedKeepsHashes(rows0, result, outs, |result|);
    updated, unchangedRows, errors := counts.updatedCount, counts.unchangedCount, counts.errorCount;
  }

  /** Over the query's result, a real run leaves every row outside the filter as it was and gives
      every returned row the write its outcome calls for. */
  lemma RealRunWritesSelectedRows(rows: map<int, MediaRecord>, updateType: string, result: seq<QueryRow>,
                                  files: map<Path, FileEntry>, env: Env, run: RefreshRun)
    requires IsQueryResult(rows, updateType, result)
    ensures var r := Applied(rows, result, Outcomes(result, files, env, run), |result|);
      forall id :: id in rows && !Selected(rows[id], updateType) ==> r[id] == rows[id]
    ensures var r := Applied(rows, result, Outcomes(result, files, env, run), |result|);
      forall k :: 0 <= k < |result| ==>
        r[result[k].id] == Written(rows[result[k].id], Outcome(result[k].id, rows[result[k].id], files, env, run))
  {
    var outs := Outcomes(result, files, env, run);
    forall id | id in rows && !Selected(rows[id], updateType)
      ensures Applied(rows, result, outs, |result|)[id] == rows[id]
    {
      AppliedUnvisited(rows, result, outs, |result|, id);
    }
    forall k | 0 <= k < |result|
      ensures Applied(rows, result, outs, |result|)[result[k].id] ==
        Written(rows[result[k].id], Outcome(result[k].id, rows[result[k].id], files, env, run))
    {
      AppliedVisited(rows, result, outs, |result|, k);
    }
  }

  /** Without update failures, a row's outcome is the same in a dry run and a real run. */
  lemma DryRunOutcomeAlike(id: int, rec: MediaRecord, files: map<Path, FileEntry>, env: Env,
                           scanFails: set<int>, updateFails: set<int>)
    requires id !in updateFails
    ensures Outcome(id, rec, files, env, RefreshRun(true, scanFails, updateFails)) ==
            Outcome(id, rec, files, env, RefreshRun(false, scanFails, updateFails))
  {
  }

  /** Without update failures, a dry run counts exactly what a real run does. */
  lemma {:induction false} DryRunCountsAlike(result: seq<QueryRow>, n: nat, files: map<Path, FileEntry>, env: Env,
                                             scanFails: set<int>, updateFails: set<int>)
    requires n <= |result|
    requires forall k :: 0 <= k < |result| ==> result[k].id !in updateFails
    ensures Tally(Outcomes(result, files, env, RefreshRun(true, scanFails, updateFails)), n) ==
            Tally(Outcomes(result, files, env, RefreshRun(false, scanFails, updateFails)), n)
  {
    if n > 0 {
      DryRunCountsAlike(result, n - 1, files, env, scanFails, updateFails);
      DryRunOutcomeAlike(result[n - 1].id, result[n - 1].record, files, env, scanFails, updateFails);
    }
  }

  /** A row a real run has just rewritten is unchanged on the next run, as long as its file is. */
  lemma RefreshIdempotent(id: int, rec: MediaRecord, files: map<Path, FileEntry>, env: Env, run: RefreshRun, next: RefreshRun)
    requires Outcome(id, rec, files, env, run).Updated?
    requires id !in next.scanFails
    ensures Outcome(id, Refreshed(rec, Outcome(id, rec, files, env, run).metadata), files, env, next) == Unchanged
  {
    var m := Outcome(id, rec, files, env, run).metadata;
    var rec' := Refreshed(rec, m);
    CompareIgnoresFileType(m, m, rec.metadata.fileType, m.fileType);
    CompareSelf(m);
    assert rec'.metadata == m.(fileType := rec.metadata.fileType);
    assert CompareMetadata(rec'.metadata, m) == [];
  }
}

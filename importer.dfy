/** The per-file import decision of cmd/import.go (`processAndMoveMedia`) and the counters the
    import command keeps (`updateStats`, `processFile`). A file is classified, its metadata read,
    images are size-filtered, the bytes are hashed and looked up in the index, the planned path is
    checked for a collision, and only then is the file copied and the row inserted. */
module Importer {
  import opened Wrappers
  import opened Times
  import opened Paths
  import opened Records
  import opened Classify
  import opened Resolution
  import opened Store
  import opened Metadata
  import opened Planner

  const Imported: string := "imported"
  const SkippedInDb: string := "skipped_in_db"
  const SkippedNotInDb: string := "skipped_not_in_db"
  const SkippedSmall: string := "skipped_small"
  const Error: string := "error"

  /** The statuses `updateStats` knows. */
  const Statuses: set<string> := {Imported, SkippedInDb, SkippedNotInDb, SkippedSmall, Error}

  /** `ImportResult`, without its human-readable message. */
  datatype ImportResult = ImportResult(status: string, originalPath: Path, newPath: Path, inDatabase: bool)

  /** The database and file-system errors the model cannot derive from its state: the duplicate
      query, the copy and the insert failing. */
  datatype Faults = Faults(lookupFails: bool, copyFails: bool, insertFails: bool)

  /** What the checks before the index lookup decide about a file. */
  datatype Admission =
    | Rejected(status: string)
    | Admitted(kind: MediaType, metadata: MediaMetadata, hash: U64)

  /** The size filter: only for `image` files, only when a minimum is set; an unparseable
      resolution is an error, and a file is too small when both sides are below the minimum. */
  function SizeCheck(kind: MediaType, resolution: string, minDimension: Int64): Option<string> {
    if kind == Image && minDimension > 0 then
      match ParseResolution(resolution)
      case None => Some(Error)
      case Some((width, height)) => if width < minDimension && height < minDimension then Some(SkippedSmall) else None
    else None
  }

  /** Classification, metadata, the size filter and the hash, in the order `processAndMoveMedia`
      runs them. */
  function Admit(files: map<Path, FileEntry>, env: Env, minDimension: Int64, src: Path): (r: Admission)
    ensures r.Rejected? ==> r.status == Error || r.status == SkippedSmall
    ensures r.Admitted? ==>
      src in files && IsMediaFile(src) == Some(r.kind) &&
      MediaMetadataOf(files, env, src) == Ok(r.metadata) &&
      r.hash == env.hash(files[src].content)
  {
    match IsMediaFile(src)
    case None => Rejected(Error)
    case Some(kind) =>
      match MediaMetadataOf(files, env, src)
      case Err(_) => Rejected(Error)
      case Ok(metadata) =>
        match SizeCheck(kind, metadata.resolution, minDimension)
        case Some(status) => Rejected(status)
        case None => Admitted(kind, metadata, env.hash(files[src].content))
  }

  /** Where `processAndMoveMedia` is heading once the index has been asked. */
  datatype Step =
    | Reject(status: string)
    | InIndex
    | Identical(planned: Path)
    | Place(planned: Path, hash: U64, metadata: MediaMetadata)

  /** The decision up to the copy: rejections, a failed or positive lookup, an identical file at
      the planned path, or a copy to the planned path (renamed when something else is there). */
  function Decide(files: map<Path, FileEntry>, rows: map<int, MediaRecord>, env: Env, minDimension: Int64,
                  src: Path, destDir: Path, lookupFails: bool): (r: Step)
    ensures r.Reject? ==> r.status == Error || r.status == SkippedSmall
    ensures r.InIndex? ==> src in files && Indexed(rows, env.hash(files[src].content))
    ensures r.Identical? ==>
      src in files && r.planned in files && env.hash(files[r.planned].content) == env.hash(files[src].content) &&
      !Indexed(rows, env.hash(files[src].content))
    ensures r.Place? ==>
      src in files && r.hash == env.hash(files[src].content) && !Indexed(rows, r.hash) &&
      r.planned == GenerateNewPath(src, r.metadata.dateTime, destDir, r.metadata.fileType) &&
      (r.planned in files ==> env.hash(files[r.planned].content) != r.hash)
  {
    Route(Admit(files, env, minDimension, src), files, rows, env, src, destDir, lookupFails)
  }

  /** The steps after admission: the lookup, then the planned path. */
  function Route(a: Admission, files: map<Path, FileEntry>, rows: map<int, MediaRecord>, env: Env,
                 src: Path, destDir: Path, lookupFails: bool): (r: Step)
    ensures a.Rejected? ==> r == Reject(a.status)
    ensures a.Admitted? && !lookupFails && Indexed(rows, a.hash) ==> r == InIndex
    ensures r.Place? ==> a.Admitted? && r.hash == a.hash && r.metadata == a.metadata && !Indexed(rows, a.hash)
    ensures r.Place? ==> r.planned == GenerateNewPath(src, a.metadata.dateTime, destDir, a.kind.Name())
    ensures r.Place? && r.planned in files ==> env.hash(files[r.planned].content) != r.hash
    ensures r.Identical? ==>
      a.Admitted? && r.planned in files && env.hash(files[r.planned].content) == a.hash && !Indexed(rows, a.hash)
    ensures r.InIndex? ==> a.Admitted? && Indexed(rows, a.hash)
  {
    match a
    case Rejected(status) => Reject(status)
    case Admitted(kind, metadata, hash) =>
      if lookupFails then Reject(Error)
      else if Indexed(rows, hash) then InIndex
      else
        var planned := GenerateNewPath(src, metadata.dateTime, destDir, kind.Name());
        if planned in files && env.hash(files[planned].content) == hash then Identical(planned)
        else Place(planned, hash, metadata)
  }

  /** The size filter rejects exactly the images, under a set minimum, whose resolution does not
      parse (an error) or whose sides are both below the minimum (too small). */
  lemma SizeFilter(files: map<Path, FileEntry>, env: Env, minDimension: Int64, src: Path)
    requires IsMediaFile(src).Some? && MediaMetadataOf(files, env, src).Ok?
    ensures var md := MediaMetadataOf(files, env, src).value;
      var parsed := ParseResolution(md.resolution);
      (Admit(files, env, minDimension, src) == Rejected(SkippedSmall) <==>
        IsMediaFile(src) == Some(Image) && minDimension > 0 && parsed.Some? &&
        parsed.value.0 < minDimension && parsed.value.1 < minDimension) &&
      (Admit(files, env, minDimension, src) == Rejected(Error) <==>
        IsMediaFile(src) == Some(Image) && minDimension > 0 && parsed.None?)
  {
  }

  /** Raw images and videos, and every file when no minimum is set, pass the size filter. */
  lemma SizeFilterOnlyImages(files: map<Path, FileEntry>, env: Env, minDimension: Int64, src: Path)
    requires IsMediaFile(src) != Some(Image) || minDimension <= 0
    ensures Admit(files, env, minDimension, src).Admitted? <==> MediaMetadataOf(files, env, src).Ok?
  {
    MetadataErrors(files, env, src);
  }

  /** An image whose resolution is "unknown" is an error under a minimum, never a small file. */
  lemma UnknownResolutionIsError(files: map<Path, FileEntry>, env: Env, minDimension: Int64, src: Path)
    requires IsMediaFile(src) == Some(Image) && minDimension > 0
    requires MediaMetadataOf(files, env, src).Ok? && MediaMetadataOf(files, env, src).value.resolution == "unknown"
    ensures Admit(files, env, minDimension, src) == Rejected(Error)
  {
    UnknownDoesNotParse();
  }

  /** The checks before hashing neither look at the index nor depend on the lookup: a rejected file
      is rejected whatever the index holds. */
  lemma RejectedBeforeLookup(files: map<Path, FileEntry>, rows: map<int, MediaRecord>, env: Env, minDimension: Int64,
                             src: Path, destDir: Path, lookupFails: bool)
    requires Admit(files, env, minDimension, src).Rejected?
    ensures Decide(files, rows, env, minDimension, src, destDir, lookupFails) ==
            Decide(files, map[], env, minDimension, src, destDir, false)
  {
  }

  /** The admission of a file depends on the file system only through the file's own entry. */
  lemma AdmitOwnEntry(files: map<Path, FileEntry>, other: map<Path, FileEntry>, env: Env, minDimension: Int64, src: Path)
    requires src in files && src in other && files[src] == other[src]
    ensures Admit(files, env, minDimension, src) == Admit(other, env, minDimension, src)
  {
    MetadataOfOwnEntry(files, other, env, src);
  }

  /** An admitted file whose hash is indexed is skipped as a duplicate. */
  lemma IndexedIsInIndex(files: map<Path, FileEntry>, rows: map<int, MediaRecord>, env: Env, minDimension: Int64,
                         src: Path, destDir: Path)
    requires Admit(files, env, minDimension, src).Admitted?
    requires Indexed(rows, Admit(files, env, minDimension, src).hash)
    ensures Decide(files, rows, env, minDimension, src, destDir, false) == InIndex
  {
  }

  /** A file heading for a copy passed the admission checks, and is hashed as admitted. */
  lemma PlaceIsAdmitted(files: map<Path, FileEntry>, rows: map<int, MediaRecord>, env: Env, minDimension: Int64,
                        src: Path, destDir: Path)
    requires Decide(files, rows, env, minDimension, src, destDir, false).Place?
    ensures Admit(files, env, minDimension, src).Admitted?
    ensures Admit(files, env, minDimension, src).hash == Decide(files, rows, env, minDimension, src, destDir, false).hash
    ensures Admit(files, env, minDimension, src).metadata == Decide(files, rows, env, minDimension, src, destDir, false).metadata
  {
  }

  /** Importing a file again, once its bytes are unchanged and a row holds its hash, finds it in
      the index: after an import, the source is never imported twice. */
  lemma ReimportIsInIndex(files: map<Path, FileEntry>, rows: map<int, MediaRecord>,
                          files': map<Path, FileEntry>, rows': map<int, MediaRecord>,
                          env: Env, minDimension: Int64, src: Path, destDir: Path)
    requires Decide(files, rows, env, minDimension, src, destDir, false).Place?
    requires src in files && src in files' && files'[src] == files[src]
    requires Indexed(rows', Decide(files, rows, env, minDimension, src, destDir, false).hash)
    ensures Decide(files', rows', env, minDimension, src, destDir, false) == InIndex
  {
    PlaceIsAdmitted(files, rows, env, minDimension, src, destDir);
    AdmitOwnEntry(files, files', env, minDimension, src);
    IndexedIsInIndex(files', rows', env, minDimension, src, destDir);
  }

  /** The first steps of `processAndMoveMedia`, up to the hash. */
  method AdmitFile(fs: FileSystem, env: Env, minDimension: Int64, sourcePath: Path) returns (a: Admission)
    ensures a == Admit(fs.files, env, minDimension, sourcePath)
  {
    var fileType := IsMediaFile(sourcePath);
    if fileType.None? {
      return Rejected(Error);
    }
    var kind := fileType.value;

    var metadataResult := GetMediaMetadata(fs, env, sourcePath);
    if metadataResult.Err? {
      return Rejected(Error);
    }
    var metadata := metadataResult.value;

    if kind == Image && minDimension > 0 {
      var parsed := ParseResolution(metadata.resolution);
      if parsed.None? {
        return Rejected(Error);
      }
      var (width, height) := parsed.value;
      if width < minDimension && height < minDimension {
        return Rejected(SkippedSmall);
      }
    }

    var hash := env.hash(fs.files[sourcePath].content);
    a := Admitted(kind, metadata, hash);
  }

  /** The status `processAndMoveMedia` reports for a step: a rejection's own status, a duplicate,
      an identical file already in place, or, for a copy, an error when the copy or the insert
      fails and "imported" otherwise. */
  function StatusOf(step: Step, faults: Faults): string {
    match step
    case Reject(status) => status
    case InIndex => SkippedInDb
    case Identical(_) => SkippedNotInDb
    case Place(_, _, _) => if faults.copyFails || faults.insertFails then Error else Imported
  }

  /** What `processAndMoveMedia` does to the files (`files0` to `files1`) and the index rows and next
      id, and what it reports, once the checks have chosen `step`: every step but a copy changes
      nothing. A copy goes to a path that was free: the planned one, or the least free numbered
      name when something else is there. A failed copy changes nothing; after a good copy, a
      failed insert keeps the copy, and a good insert adds exactly one row under the next id. */
  ghost predicate ImportEffect(files0: map<Path, FileEntry>, rows0: map<int, MediaRecord>, nextId0: int,
                               files1: map<Path, FileEntry>, rows1: map<int, MediaRecord>, nextId1: int,
                               step: Step, faults: Faults, src: Path, res: ImportResult, dest: Path)
  {
    (!step.Place? ==> files1 == files0 && rows1 == rows0 && nextId1 == nextId0) &&
    (step.Reject? ==> res == ImportResult(step.status, src, "", false)) &&
    (step.InIndex? ==> res == ImportResult(SkippedInDb, src, "", true)) &&
    (step.Identical? ==> res == ImportResult(SkippedNotInDb, src, step.planned, false)) &&
    (step.Place? ==>
      dest !in files0 && dest != src &&
      (step.planned !in files0 ==> dest == step.planned) &&
      (step.planned in files0 ==> LeastFree(files0.Keys, step.planned, dest)) &&
      (faults.copyFails ==>
        res == ImportResult(Error, src, "", false) &&
        files1 == files0 && rows1 == rows0 && nextId1 == nextId0) &&
      (!faults.copyFails ==> src in files0 && files1 == files0[dest := files0[src]]) &&
      (!faults.copyFails && faults.insertFails ==>
        res == ImportResult(Error, src, dest, false) && rows1 == rows0 && nextId1 == nextId0) &&
      (!faults.copyFails && !faults.insertFails ==>
        res == ImportResult(Imported, src, dest, false) &&
        rows1 == rows0[nextId0 := MediaRecord(step.hash, src, dest, step.metadata)] &&
        nextId1 == nextId0 + 1))
  }

  /** `processAndMoveMedia`, step by step. `dest` is where the copy goes when it gets that far. */
  method ProcessAndMoveMedia(fs: FileSystem, db: MediaIndex, env: Env, faults: Faults, minDimension: Int64,
                             sourcePath: Path, destDir: Path) returns (res: ImportResult, ghost dest: Path)
    requires db.Valid()
    modifies fs, db
    ensures db.Valid()
    ensures res.originalPath == sourcePath && res.status in Statuses
    ensures var step := Route(Admit(old(fs.files), env, minDimension, sourcePath), old(fs.files), old(db.rows), env, sourcePath, destDir, faults.lookupFails);
      ImportEffect(old(fs.files), old(db.rows), old(db.nextId), fs.files, db.rows, db.nextId, step, faults, sourcePath, res, dest) &&
      res.status == StatusOf(step, faults)
  {
    dest := "";
    var admission := AdmitFile(fs, env, minDimension, sourcePath);
    if admission.Rejected? {
      return ImportResult(admission.status, sourcePath, "", false), dest;
    }
    var kind, metadata, hash := admission.kind, admission.metadata, admission.hash;

    var isDuplicate, existingPath, failed := db.CheckDuplicate(hash, faults.lookupFails);
    if failed {
      return ImportResult(Error, sourcePath, "", false), dest;
    }
    if isDuplicate {
      return ImportResult(SkippedInDb, sourcePath, "", true), dest;
    }

    var newPath := GenerateNewPath(sourcePath, metadata.dateTime, destDir, kind.Name());
    res, dest := MoveIntoArchive(fs, db, env, faults, sourcePath, newPath, hash, metadata);
  }

  /** The rest of `processAndMoveMedia` once the file is admitted and its hash is not indexed:
      an identical file at the planned path is a skip; a different one sends the copy to the first
      free numbered name; then the copy, then the insert. */
  method MoveIntoArchive(fs: FileSystem, db: MediaIndex, env: Env, faults: Faults, sourcePath: Path,
                         planned: Path, hash: U64, metadata: MediaMetadata) returns (res: ImportResult, ghost dest: Path)
    requires db.Valid() && sourcePath in fs.files && !Indexed(db.rows, hash)
    modifies fs, db
    ensures db.Valid() && res.originalPath == sourcePath
    ensures planned in old(fs.files) && env.hash(old(fs.files)[planned].content) == hash ==>
      res == ImportResult(SkippedNotInDb, sourcePath, planned, false) &&
      fs.files == old(fs.files) && db.rows == old(db.rows) && db.nextId == old(db.nextId)
    ensures !(planned in old(fs.files) && env.hash(old(fs.files)[planned].content) == hash) ==>
      dest !in old(fs.files) && dest != sourcePath &&
      (planned !in old(fs.files) ==> dest == planned) &&
      (planned in old(fs.files) ==> LeastFree(old(fs.files).Keys, planned, dest)) &&
      (faults.copyFails ==>
        res == ImportResult(Error, sourcePath, "", false) &&
        fs.files == old(fs.files) && db.rows == old(db.rows) && db.nextId == old(db.nextId)) &&
      (!faults.copyFails ==> fs.files == old(fs.files)[dest := old(fs.files)[sourcePath]]) &&
      (!faults.copyFails && faults.insertFails ==>
        res == ImportResult(Error, sourcePath, dest, false) && db.rows == old(db.rows) && db.nextId == old(db.nextId)) &&
      (!faults.copyFails && !faults.insertFails ==>
        res == ImportResult(Imported, sourcePath, dest, false) &&
        db.rows == old(db.rows)[old(db.nextId) := MediaRecord(hash, sourcePath, dest, metadata)] &&
        db.nextId == old(db.nextId) + 1)
  {
    var identical, newPath := ResolveCollision(fs, env, planned, hash);
    if identical {
      return ImportResult(SkippedNotInDb, sourcePath, newPath, false), newPath;
    }
    dest := newPath;
    res := CopyAndStore(fs, db, faults, sourcePath, newPath, hash, metadata);
  }

  /** The collision check on the planned path: a file with the same hash there means the copy is
      already in place; a different file sends the copy to the first free numbered name. */
  method ResolveCollision(fs: FileSystem, env: Env, planned: Path, hash: U64) returns (identical: bool, newPath: Path)
    ensures identical <==> planned in fs.files && env.hash(fs.files[planned].content) == hash
    ensures identical ==> newPath == planned
    ensures !identical ==> LeastFree(fs.files.Keys, planned, newPath)
  {
    identical, newPath := false, planned;
    if planned in fs.files {
      var existingHash := env.hash(fs.files[planned].content);
      if hash != existingHash {
        newPath := GenerateUniqueFilename(fs, planned);
      } else {
        identical := true;
      }
    }
  }

  /** The copy and then the insert: a failed copy leaves everything as it was; a failed insert
      leaves the copy in place and the index as it was. */
  method CopyAndStore(fs: FileSystem, db: MediaIndex, faults: Faults, sourcePath: Path, newPath: Path,
                      hash: U64, metadata: MediaMetadata) returns (res: ImportResult)
    requires db.Valid() && sourcePath in fs.files && !Indexed(db.rows, hash)
    modifies fs, db
    ensures db.Valid()
    ensures faults.copyFails ==>
      res == ImportResult(Error, sourcePath, "", false) &&
      fs.files == old(fs.files) && db.rows == old(db.rows) && db.nextId == old(db.nextId)
    ensures !faults.copyFails ==> fs.files == old(fs.files)[newPath := old(fs.files)[sourcePath]]
    ensures !faults.copyFails && faults.insertFails ==>
      res == ImportResult(Error, sourcePath, newPath, false) && db.rows == old(db.rows) && db.nextId == old(db.nextId)
    ensures !faults.copyFails && !faults.insertFails ==>
      res == ImportResult(Imported, sourcePath, newPath, false) &&
      db.rows == old(db.rows)[old(db.nextId) := MediaRecord(hash, sourcePath, newPath, metadata)] &&
      db.nextId == old(db.nextId) + 1
  {
    var copied := fs.CopyFile(sourcePath, newPath, faults.copyFails);
    if !copied {
      return ImportResult(Error, sourcePath, "", false);
    }
    var stored := db.StoreInDb(hash, sourcePath, newPath, metadata, faults.insertFails);
    if !stored {
      return ImportResult(Error, sourcePath, newPath, false);
    }
    res := ImportResult(Imported, sourcePath, newPath, false);
  }

  /** The five counters of the import summary, as values. */
  datatype Summary = Summary(imported: nat, skippedInDb: nat, skippedNotInDb: nat, skippedSmall: nat, errors: nat) {
    function Total(): nat {
      imported + skippedInDb + skippedNotInDb + skippedSmall + errors
    }
  }

  /** The counters after one file with `status`: the counter of a known status goes up by one,
      the other four stay; an unknown status changes nothing. */
  function Counted(c: Summary, status: string): (r: Summary)
    ensures r.imported == c.imported + (if status == Imported then 1 else 0)
    ensures r.skippedInDb == c.skippedInDb + (if status == SkippedInDb then 1 else 0)
    ensures r.skippedNotInDb == c.skippedNotInDb + (if status == SkippedNotInDb then 1 else 0)
    ensures r.skippedSmall == c.skippedSmall + (if status == SkippedSmall then 1 else 0)
    ensures r.errors == c.errors + (if status == Error then 1 else 0)
    ensures r.Total() == c.Total() + (if status in Statuses then 1 else 0)
  {
    if status == Imported then c.(imported := c.imported + 1)
    else if status == SkippedInDb then c.(skippedInDb := c.skippedInDb + 1)
    else if status == SkippedNotInDb then c.(skippedNotInDb := c.skippedNotInDb + 1)
    else if status == SkippedSmall then c.(skippedSmall := c.skippedSmall + 1)
    else if status == Error then c.(errors := c.errors + 1)
    else c
  }

  /** The five counters of the import summary. */
  class ImportStats {
    var imported: nat
    var skippedInDb: nat
    var skippedNotInDb: nat
    var skippedSmall: nat
    var errors: nat

    constructor()
      ensures Counters() == Summary(0, 0, 0, 0, 0)
    {
      imported, skippedInDb, skippedNotInDb, skippedSmall, errors := 0, 0, 0, 0, 0;
    }

    function Counters(): Summary
      reads this
    {
      Summary(imported, skippedInDb, skippedNotInDb, skippedSmall, errors)
    }

    /** `updateStats`: the counter of a known status goes up by one, the other four stay; an
        unknown status changes nothing. */
    method UpdateStats(status: string)
      modifies this
      ensures Counters() == Counted(old(Counters()), status)
    {
      if status == Imported {
        imported := imported + 1;
      } else if status == SkippedInDb {
        skippedInDb := skippedInDb + 1;
      } else if status == SkippedNotInDb {
        skippedNotInDb := skippedNotInDb + 1;
      } else if status == SkippedSmall {
        skippedSmall := skippedSmall + 1;
      } else if status == Error {
        errors := errors + 1;
      }
    }
  }

  /** `processFile`: a non-media path is passed over without touching anything; any other path goes
      through `processAndMoveMedia`, whose status raises exactly its own counter. `result` and `dest`
      are what that call reported and where its copy went. */
  method ProcessFile(fs: FileSystem, db: MediaIndex, stats: ImportStats, env: Env, faults: Faults,
                     minDimension: Int64, path: Path, destDir: Path) returns (ghost result: ImportResult, ghost dest: Path)
    requires db.Valid()
    modifies fs, db, stats
    ensures db.Valid()
    ensures IsMediaFile(path).None? ==>
      fs.files == old(fs.files) && db.rows == old(db.rows) && db.nextId == old(db.nextId) &&
      stats.Counters() == old(stats.Counters())
    ensures IsMediaFile(path).Some? ==>
      var step := Route(Admit(old(fs.files), env, minDimension, path), old(fs.files), old(db.rows), env, path, destDir, faults.lookupFails);
      ImportEffect(old(fs.files), old(db.rows), old(db.nextId), fs.files, db.rows, db.nextId, step, faults, path, result, dest) &&
      result.status == StatusOf(step, faults) &&
      stats.Counters() == Counted(old(stats.Counters()), result.status)
    ensures IsMediaFile(path).Some? ==> stats.Counters().Total() == old(stats.Counters().Total()) + 1
  {
    result, dest := ImportResult(Error, path, "", false), "";
    if IsMediaFile(path).Some? {
      ghost var counters := stats.Counters();
      var res;
      res, dest := ProcessAndMoveMedia(fs, db, env, faults, minDimension, path, destDir);
      result := res;
      assert stats.Counters() == counters;
      ghost var files, rows, nextId := fs.files, db.rows, db.nextId;
      stats.UpdateStats(res.status);
      assert fs.files == files && db.rows == rows && db.nextId == nextId;
      assert res.status in Statuses;
    }
  }
}

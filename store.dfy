/** The two pieces of state the importer changes: the file system (regular files by path, each with
    its bytes and modification time) and the `media` table of the SQLite index, whose `hash` column
    is UNIQUE and whose ids are handed out by AUTOINCREMENT. */
module Store {
  import opened Times
  import opened Paths
  import opened Records

  class FileSystem {
    var files: map<Path, FileEntry>

    constructor(files: map<Path, FileEntry>)
      ensures this.files == files
    {
      this.files := files;
    }

    /** `copyFile`: the destination gets the source's bytes and modification time (`Chtimes`),
        the source stays where it is. It fails when the source does not exist or the write fails
        (`fails`), and then nothing changes. */
    method CopyFile(src: Path, dst: Path, fails: bool) returns (ok: bool)
      modifies this
      ensures ok <==> src in old(files) && !fails
      ensures ok ==> files == old(files)[dst := old(files)[src]]
      ensures !ok ==> files == old(files)
    {
      if src !in files || fails {
        return false;
      }
      files := files[dst := files[src]];
      return true;
    }
  }

  /** One row of `media`; the metadata columns hold the `MediaMetadata` fields. */
  datatype MediaRecord = MediaRecord(hash: U64, originalPath: Path, newPath: Path, metadata: MediaMetadata)

  /** The row after `updateMediaRecord`: the six metadata columns are rewritten, `hash`,
      `original_path`, `new_path` and `file_type` are kept. */
  function Refreshed(rec: MediaRecord, m: MediaMetadata): (r: MediaRecord)
    ensures r.hash == rec.hash && r.originalPath == rec.originalPath && r.newPath == rec.newPath
    ensures r.metadata.fileType == rec.metadata.fileType
    ensures r.metadata.(fileType := m.fileType) == m
  {
    rec.(metadata := m.(fileType := rec.metadata.fileType))
  }

  /** Some row has this hash. */
  predicate Indexed(rows: map<int, MediaRecord>, hash: U64) {
    exists id :: id in rows && rows[id].hash == hash
  }

  /** No two rows share a hash. */
  ghost predicate UniqueHashes(rows: map<int, MediaRecord>) {
    forall a, b :: a in rows && b in rows && rows[a].hash == rows[b].hash ==> a == b
  }

  class MediaIndex {
    var rows: map<int, MediaRecord>
    var nextId: int

    /** Ids are below the next one to be handed out, and the UNIQUE constraint on `hash` holds. */
    ghost predicate Valid()
      reads this
    {
      nextId >= 1 && (forall id :: id in rows ==> 1 <= id < nextId) && UniqueHashes(rows)
    }

    /** A freshly created, empty table. */
    constructor()
      ensures rows == map[] && nextId == 1 && Valid()
    {
      rows := map[];
      nextId := 1;
    }

    predicate HasHash(hash: U64)
      reads this
    {
      Indexed(rows, hash)
    }

    /** `checkDuplicate`: whether a row has this hash, and that row's `new_path`. `queryFails` is
        a query error other than "no rows". */
    method CheckDuplicate(hash: U64, queryFails: bool) returns (isDuplicate: bool, existingPath: Path, failed: bool)
      ensures failed == queryFails
      ensures !failed ==> (isDuplicate <==> HasHash(hash))
      ensures failed ==> !isDuplicate
      ensures isDuplicate ==> exists id :: id in rows && rows[id].hash == hash && rows[id].newPath == existingPath
      ensures !isDuplicate ==> existingPath == ""
    {
      if queryFails {
        return false, "", true;
      }
      if id :| id in rows && rows[id].hash == hash {
        return true, rows[id].newPath, false;
      }
      return false, "", false;
    }

    /** `storeInDB`: inserts one row under the next id. The insert fails when `fails` (a database
        error) or when the hash is already present (the UNIQUE constraint); then nothing changes. */
    method StoreInDb(hash: U64, originalPath: Path, newPath: Path, metadata: MediaMetadata, fails: bool) returns (ok: bool)
      requires Valid()
      modifies this
      ensures Valid()
      ensures ok <==> !fails && !old(HasHash(hash))
      ensures ok ==> rows == old(rows)[old(nextId) := MediaRecord(hash, originalPath, newPath, metadata)]
      ensures ok ==> nextId == old(nextId) + 1
      ensures !ok ==> rows == old(rows) && nextId == old(nextId)
    {
      if fails || HasHash(hash) {
        return false;
      }
      rows := rows[nextId := MediaRecord(hash, originalPath, newPath, metadata)];
      nextId := nextId + 1;
      return true;
    }

    /** `updateMediaRecord`: rewrites the metadata columns of row `id`. An id with no row updates
        nothing and is no error; `fails` is a database error, which changes nothing. */
    method UpdateMediaRecord(id: int, metadata: MediaMetadata, fails: bool) returns (ok: bool)
      modifies this
      ensures ok == !fails
      ensures nextId == old(nextId)
      ensures ok && id in old(rows) ==> rows == old(rows)[id := Refreshed(old(rows)[id], metadata)]
      ensures !ok || id !in old(rows) ==> rows == old(rows)
    {
      if fails {
        return false;
      }
      if id in rows {
        rows := rows[id := Refreshed(rows[id], metadata)];
      }
      return true;
    }
  }
}

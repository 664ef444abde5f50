/**
 * The `resumeFiles` table and the mutations of convex/uploadResume.js: `addFile`, which records
 * an uploaded resume, and `updateFileName`, which renames the first record of a stored file.
 */
module UploadResume {
  import opened Wrappers

  const ADDED := "File added successfully"
  const NOT_FOUND := "File not found for the given storageId."
  const RENAMED := "File name updated successfully."

  /** A row of the `resumeFiles` table without its system fields. */
  datatype ResumeFile = ResumeFile(
    fileId: string,
    storageId: string,
    fileName: string,
    fileURL: string,
    createdBy: string)

  datatype FileRow = FileRow(id: nat, file: ResumeFile)

  /** `{ success, message }` */
  datatype Reply = Reply(success: bool, message: string)

  /** The `by_storageId` index lookup with `.first()`: the earliest row for that stored file. */
  function FindByStorageId(rows: seq<FileRow>, storageId: string): (r: Option<nat>)
    ensures r.Some? ==> r.value < |rows| && rows[r.value].file.storageId == storageId
    ensures r.Some? ==> forall j :: 0 <= j < r.value ==> rows[j].file.storageId != storageId
    ensures r.None? ==> forall j :: 0 <= j < |rows| ==> rows[j].file.storageId != storageId
  {
    if rows == [] then None
    else if rows[0].file.storageId == storageId then Some(0)
    else match FindByStorageId(rows[1..], storageId)
      case None => None
      case Some(i) => Some(i + 1)
  }

  /** The rows after the row at `i` has been patched with a new file name. */
  function Rename(rows: seq<FileRow>, i: nat, newName: string): seq<FileRow>
    requires i < |rows|
  {
    rows[i := rows[i].(file := rows[i].file.(fileName := newName))]
  }

  class ResumeFilesTable {
    var rows: seq<FileRow>
    var nextId: nat

    ghost predicate Valid()
      reads this
    {
      forall i :: 0 <= i < |rows| ==> rows[i].id < nextId
    }

    constructor ()
      ensures Valid() && rows == []
    {
      rows, nextId := [], 0;
    }

    /** `addFile` */
    method AddFile(file: ResumeFile) returns (message: string)
      requires Valid()
      modifies this
      ensures Valid()
      ensures rows == old(rows) + [FileRow(old(nextId), file)]
      ensures message == ADDED
    {
      rows := rows + [FileRow(nextId, file)];
      nextId := nextId + 1;
      message := ADDED;
    }

    /** `updateFileName`: an unknown storage id is an error and changes nothing. */
    method UpdateFileName(storageId: string, newName: string) returns (r: Result<Reply, string>)
      requires Valid()
      modifies this
      ensures Valid()
      ensures FindByStorageId(old(rows), storageId).None? ==> r == Failure(NOT_FOUND) && rows == old(rows)
      ensures FindByStorageId(old(rows), storageId).Some? ==>
        r == Success(Reply(true, RENAMED)) && rows == Rename(old(rows), FindByStorageId(old(rows), storageId).value, newName)
    {
      match FindByStorageId(rows, storageId)
      case None =>
        r := Failure(NOT_FOUND);
      case Some(i) =>
        rows := Rename(rows, i, newName);
        r := Success(Reply(true, RENAMED));
    }
  }

  // ---------------------------------------------------------------------------------
  // Proofs

  lemma {:induction false} FindByStorageIdSameIds(rows: seq<FileRow>, rows': seq<FileRow>, storageId: string)
    requires |rows| == |rows'|
    requires forall j :: 0 <= j < |rows| ==> rows[j].file.storageId == rows'[j].file.storageId
    ensures FindByStorageId(rows', storageId) == FindByStorageId(rows, storageId)
  {
    if rows != [] {
      FindByStorageIdSameIds(rows[1..], rows'[1..], storageId);
    }
  }

  /**
   * Renaming changes the name of that one record and nothing else: every row keeps its id,
   * stored file, URL and owner, and a later lookup by storage id finds the renamed record.
   */
  lemma RenameOnlyName(rows: seq<FileRow>, storageId: string, newName: string)
    requires FindByStorageId(rows, storageId).Some?
    ensures var i := FindByStorageId(rows, storageId).value;
            var rows' := Rename(rows, i, newName);
            |rows'| == |rows|
            && (forall j :: 0 <= j < |rows| && j != i ==> rows'[j] == rows[j])
            && rows'[i].file == rows[i].file.(fileName := newName)
            && FindByStorageId(rows', storageId) == Some(i)
            && rows'[i].file.fileName == newName
  {
    var i := FindByStorageId(rows, storageId).value;
    FindByStorageIdSameIds(rows, Rename(rows, i, newName), storageId);
  }

  lemma {:induction false} FindByStorageIdSnoc(rows: seq<FileRow>, row: FileRow, storageId: string)
    ensures FindByStorageId(rows + [row], storageId) ==
      if FindByStorageId(rows, storageId).Some? then FindByStorageId(rows, storageId)
      else if row.file.storageId == storageId then Some(|rows|) else None
  {
    if rows != [] {
      assert (rows + [row])[1..] == rows[1..] + [row];
      FindByStorageIdSnoc(rows[1..], row, storageId);
    }
  }

  /** A file added under a new storage id is the one a later rename of that id reaches. */
  lemma AddedFileFound(rows: seq<FileRow>, id: nat, file: ResumeFile)
    requires FindByStorageId(rows, file.storageId).None?
    ensures FindByStorageId(rows + [FileRow(id, file)], file.storageId) == Some(|rows|)
  {
    FindByStorageIdSnoc(rows, FileRow(id, file), file.storageId);
  }
}

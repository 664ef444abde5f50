/**
 * `deleteById` (convex/resumeDelete.js): deletes a stored resume and the first `resumeFiles`
 * record that points at it.
 */
module ResumeDelete {
  import opened Wrappers
  import opened UploadResume

  const DELETED := "File deleted successfully."
  const DELETE_FAILED := "Failed to delete file from Convex storage."

  /** The file storage: the ids of the blobs it holds. */
  class FileStorage {
    var blobs: set<string>

    constructor ()
      ensures blobs == {}
    {
      blobs := {};
    }
  }

  /** The sequence without its element at `i`. */
  function RemoveAt<T>(s: seq<T>, i: nat): (r: seq<T>)
    requires i < |s|
    ensures |r| == |s| - 1
    ensures forall j :: 0 <= j < i ==> r[j] == s[j]
    ensures forall j :: i <= j < |r| ==> r[j] == s[j + 1]
  {
    s[..i] + s[i + 1..]
  }

  /** The number of records that point at a stored file. */
  function CountFor(rows: seq<FileRow>, storageId: string): nat {
    if rows == [] then 0
    else (if rows[0].file.storageId == storageId then 1 else 0) + CountFor(rows[1..], storageId)
  }

  /**
   * `deleteById`. `storageFails` stands for the storage or the database throwing: the mutation
   * then fails with its own message and, being a transaction, changes nothing. Otherwise the blob
   * is gone, the first record for it (if any) is removed, and the call succeeds whether or not
   * there was a record.
   */
  method DeleteById(storage: FileStorage, files: ResumeFilesTable, storageId: string, storageFails: bool)
    returns (r: Result<Reply, string>)
    requires files.Valid()
    modifies storage, files
    ensures files.Valid()
    ensures storageFails ==>
      r == Failure(DELETE_FAILED) && storage.blobs == old(storage.blobs) && files.rows == old(files.rows)
    ensures !storageFails ==> r == Success(Reply(true, DELETED)) && storage.blobs == old(storage.blobs) - {storageId}
    ensures !storageFails && FindByStorageId(old(files.rows), storageId).None? ==> files.rows == old(files.rows)
    ensures !storageFails && FindByStorageId(old(files.rows), storageId).Some? ==>
      files.rows == RemoveAt(old(files.rows), FindByStorageId(old(files.rows), storageId).value)
  {
    if storageFails {
      return Failure(DELETE_FAILED);
    }
    storage.blobs := storage.blobs - {storageId};
    match FindByStorageId(files.rows, storageId) {
      case None =>
      case Some(i) =>
        files.rows := RemoveAt(files.rows, i);
    }
    r := Success(Reply(true, DELETED));
  }

  // ---------------------------------------------------------------------------------
  // Proofs

  lemma {:induction false} CountForSplit(a: seq<FileRow>, b: seq<FileRow>, storageId: string)
    ensures CountFor(a + b, storageId) == CountFor(a, storageId) + CountFor(b, storageId)
  {
    if a != [] {
      assert (a + b)[1..] == a[1..] + b;
      CountForSplit(a[1..], b, storageId);
    } else {
      assert a + b == b;
    }
  }

  /**
   * Removing the first record for a stored file takes exactly one record for it away and leaves
   * the count for every other stored file alone; so a file recorded once has no record left.
   */
  lemma RemoveFirstCounts(rows: seq<FileRow>, storageId: string, other: string)
    requires FindByStorageId(rows, storageId).Some?
    ensures var rows' := RemoveAt(rows, FindByStorageId(rows, storageId).value);
            CountFor(rows', storageId) == CountFor(rows, storageId) - 1
            && (other != storageId ==> CountFor(rows', other) == CountFor(rows, other))
  {
    var i := FindByStorageId(rows, storageId).value;
    assert rows == rows[..i] + [rows[i]] + rows[i + 1..];
    CountForSplit(rows[..i] + [rows[i]], rows[i + 1..], storageId);
    CountForSplit(rows[..i], [rows[i]], storageId);
    CountForSplit(rows[..i], rows[i + 1..], storageId);
    CountForSplit(rows[..i] + [rows[i]], rows[i + 1..], other);
    CountForSplit(rows[..i], [rows[i]], other);
    CountForSplit(rows[..i], rows[i + 1..], other);
    assert CountFor([rows[i]], storageId) == 1 && CountFor(rows[..i], storageId) == 0 by {
      CountForNone(rows[..i], storageId);
    }
  }

  lemma {:induction false} CountForNone(rows: seq<FileRow>, storageId: string)
    requires forall j :: 0 <= j < |rows| ==> rows[j].file.storageId != storageId
    ensures CountFor(rows, storageId) == 0
  {
    if rows != [] {
      CountForNone(rows[1..], storageId);
    }
  }

  /** Every other record is still there after the removal. */
  lemma RemoveAtKeepsOthers<T>(s: seq<T>, i: nat, x: T)
    requires i < |s|
    requires x in s && x != s[i]
    ensures x in RemoveAt(s, i)
  {
    var k :| 0 <= k < |s| && s[k] == x;
    if k > i {
      assert RemoveAt(s, i)[k - 1] == x;
    } else {
      assert RemoveAt(s, i)[k] == x;
    }
  }
}

/**
 * The resume picker (components/FileUpload.jsx): PDF type and size validation, the state after
 * an upload, renaming the uploaded file, and removing it. The parent's `onFileSelect` callback
 * is recorded as the sequence of values it has been called with.
 */
module FileUpload {
  import opened Wrappers
  import opened Text

  const PDF_TYPE := "application/pdf"
  const TYPE_ERROR := "Please upload a PDF file"
  const UPLOAD_ERROR := "Error uploading file. Try again."
  const RENAME_ERROR := "Failed to update file name."
  /** The default of the `maxSize` prop, in megabytes. */
  const DEFAULT_MAX_SIZE: nat := 5
  const MEGABYTE: nat := 1024 * 1024

  /** A file the user picked: its name, MIME type and size in bytes. */
  datatype PickedFile = PickedFile(name: string, mimeType: string, size: nat)

  /** What a successful upload returns. */
  datatype Upload = Upload(storageId: string, fileURL: string)

  /** The file's data together with where it was stored, as `{ ...selectedFile, ...result }` is meant to build it. */
  datatype FileData = FileData(name: string, mimeType: string, size: nat, storageId: string, fileURL: string)

  /** The intended merge: the picked file's name, type and size with the upload's storage id and URL. */
  function Merge(f: PickedFile, u: Upload): FileData {
    FileData(f.name, f.mimeType, f.size, u.storageId, u.fileURL)
  }

  /** A plain JavaScript object with the five fields of FileData; None stands for a property that is absent. */
  datatype SpreadObject = SpreadObject(name: Option<string>, mimeType: Option<string>, size: Option<nat>,
                                       storageId: Option<string>, fileURL: Option<string>)

  /** The object a FileData stands for: every property present. */
  function AsObject(d: FileData): SpreadObject {
    SpreadObject(Some(d.name), Some(d.mimeType), Some(d.size), Some(d.storageId), Some(d.fileURL))
  }

  /**
   * `{ ...selectedFile, ...result }` as written. An object spread copies only own enumerable
   * properties; a browser File keeps `name`, `type` and `size` as getters on its prototype, so
   * none of them is copied and only the upload's two fields arrive.
   */
  function SpreadAsWritten(f: PickedFile, u: Upload): SpreadObject {
    SpreadObject(None, None, None, Some(u.storageId), Some(u.fileURL))
  }

  /** `(file.size / 1024 / 1024).toFixed(2)`: the size shown in megabytes, or None for `NaN`. */
  function SizeShown(o: SpreadObject): Option<real> {
    if o.size.Some? then Some(o.size.value as real / MEGABYTE as real) else None
  }

  const SIZE_ERROR_PREFIX := "File size should be less than "
  const SIZE_ERROR_SUFFIX := "MB"

  function SizeError(maxSize: nat): string {
    SIZE_ERROR_PREFIX + NatToString(maxSize) + SIZE_ERROR_SUFFIX
  }

  /** The error `validateFile` sets: the type is checked first, then the size; None when the file passes. */
  function FileCheck(f: PickedFile, maxSize: nat): Option<string> {
    if !Contains(f.mimeType, PDF_TYPE) then Some(TYPE_ERROR)
    else if f.size > maxSize * MEGABYTE then Some(SizeError(maxSize))
    else None
  }

  class Uploader {
    /** The `maxSize` prop. */
    const maxSize: nat
    var file: Option<FileData>
    var error: Option<string>
    var isEditing: bool
    var editedName: string
    var savingName: bool
    /** The arguments of every call to `onFileSelect` so far; None stands for `null`. */
    var selections: seq<Option<FileData>>

    constructor (maxSize: nat)
      ensures this.maxSize == maxSize
      ensures file.None? && error.None? && !isEditing && editedName == "" && !savingName && selections == []
    {
      this.maxSize := maxSize;
      file, error, isEditing, editedName, savingName, selections := None, None, false, "", false, [];
    }

    /** `validateFile`: sets or clears the error and says whether the file passed. */
    method ValidateFile(f: PickedFile) returns (ok: bool)
      modifies this
      ensures error == FileCheck(f, maxSize) && ok == error.None?
      ensures file == old(file) && isEditing == old(isEditing) && editedName == old(editedName)
      ensures savingName == old(savingName) && selections == old(selections)
    {
      error := FileCheck(f, maxSize);
      ok := error.None?;
    }

    /**
     * `handleFile` with the outcome of the upload (None when it failed): only a valid file that
     * was uploaded becomes the current file and is passed to `onFileSelect`.
     */
    method HandleFile(f: PickedFile, upload: Option<Upload>)
      modifies this
      ensures FileCheck(f, maxSize).Some? ==>
        error == FileCheck(f, maxSize) && file == old(file) && editedName == old(editedName) && selections == old(selections)
      ensures FileCheck(f, maxSize).None? && upload.None? ==>
        error == Some(UPLOAD_ERROR) && file == old(file) && editedName == old(editedName) && selections == old(selections)
      ensures FileCheck(f, maxSize).None? && upload.Some? ==>
        error.None? && file == Some(Merge(f, upload.value)) && editedName == f.name
        && selections == old(selections) + [Some(Merge(f, upload.value))]
      ensures isEditing == old(isEditing) && savingName == old(savingName)
    {
      var ok := ValidateFile(f);
      if ok {
        match upload {
          case None =>
            error := Some(UPLOAD_ERROR);
          case Some(u) =>
            var data := Merge(f, u);
            file := Some(data);
            editedName := f.name;
            selections := selections + [Some(data)];
        }
      }
    }

    /**
     * `removeFile`: returns the storage id it asks to delete, if the file has one. Whether or not
     * the deletion fails, the file and the error are cleared and the parent is told `null`.
     */
    method RemoveFile() returns (deleteRequest: Option<string>)
      modifies this
      ensures deleteRequest == if old(file).Some? && old(file).value.storageId != "" then Some(old(file).value.storageId) else None
      ensures file.None? && error.None? && selections == old(selections) + [None]
      ensures isEditing == old(isEditing) && editedName == old(editedName) && savingName == old(savingName)
    {
      deleteRequest := if file.Some? && file.value.storageId != "" then Some(file.value.storageId) else None;
      file, error := None, None;
      selections := selections + [None];
    }

    /**
     * `saveNewName` with the outcome of `updateFileName`; returns the rename it asks for. Without a
     * stored file or with a blank name nothing happens. Otherwise the trimmed name is sent; on
     * success it becomes the file's name and editing ends, on failure the error is shown.
     */
    method SaveNewName(renameOk: bool) returns (renameRequest: Option<(string, string)>)
      modifies this
      ensures var name := Trim(old(editedName));
              if old(file).None? || old(file).value.storageId == "" || name == "" then
                renameRequest.None? && file == old(file) && error == old(error)
                && isEditing == old(isEditing) && savingName == old(savingName)
              else
                renameRequest == Some((old(file).value.storageId, name)) && !savingName
                && if renameOk then file == Some(old(file).value.(name := name)) && !isEditing && error == old(error)
                   else file == old(file) && error == Some(RENAME_ERROR) && isEditing == old(isEditing)
      ensures editedName == old(editedName) && selections == old(selections)
    {
      var name := Trim(editedName);
      if file.None? || file.value.storageId == "" || name == "" {
        return None;
      }
      renameRequest := Some((file.value.storageId, name));
      savingName := true;
      if renameOk {
        file := Some(file.value.(name := name));
        isEditing := false;
      } else {
        error := Some(RENAME_ERROR);
      }
      savingName := false;
    }
  }

  // ---------------------------------------------------------------------------------
  // Proofs

  /** A file passes exactly when its type mentions `application/pdf` and it is at most `maxSize` megabytes. */
  lemma FileCheckPasses(f: PickedFile, maxSize: nat)
    ensures FileCheck(f, maxSize).None? <==> Contains(f.mimeType, PDF_TYPE) && f.size <= maxSize * MEGABYTE
  {
  }

  /** A file of another type is refused for its type, however large it is. */
  lemma TypeCheckedFirst(f: PickedFile, maxSize: nat)
    requires !Contains(f.mimeType, PDF_TYPE)
    ensures FileCheck(f, maxSize) == Some(TYPE_ERROR)
    ensures FileCheck(f.(size := f.size + maxSize * MEGABYTE + 1), maxSize) == Some(TYPE_ERROR)
  {
  }

  /** With the default limit a PDF of exactly five megabytes passes and one byte more is refused. */
  lemma DefaultLimitBoundary(name: string)
    ensures FileCheck(PickedFile(name, PDF_TYPE, 5242880), DEFAULT_MAX_SIZE).None?
    ensures FileCheck(PickedFile(name, PDF_TYPE, 5242881), DEFAULT_MAX_SIZE) == Some(SizeError(DEFAULT_MAX_SIZE))
  {
    ContainsMiddle("", PDF_TYPE, "");
    assert "" + PDF_TYPE + "" == PDF_TYPE;
  }

  /**
   * The data the component stores and passes to `onFileSelect`, as written, never carries the
   * picked file's name, type or size, so it differs from the intended merge for every file; the
   * size it shows is `NaN`.
   */
  lemma SpreadLosesPickedFile(f: PickedFile, u: Upload)
    ensures var o := SpreadAsWritten(f, u);
            o.name != Some(f.name) && o.mimeType != Some(f.mimeType) && o.size != Some(f.size)
            && o.storageId == Some(u.storageId) && o.fileURL == Some(u.fileURL)
            && o != AsObject(Merge(f, u)) && SizeShown(o).None?
  {
  }

  /**
   * The intended merge keeps everything the user picked and everything the upload returned, and
   * the size it shows is the picked size in megabytes.
   */
  lemma MergeKeepsPickedFile(f: PickedFile, u: Upload)
    ensures var o := AsObject(Merge(f, u));
            o.name == Some(f.name) && o.mimeType == Some(f.mimeType) && o.size == Some(f.size)
            && o.storageId == Some(u.storageId) && o.fileURL == Some(u.fileURL)
            && SizeShown(o) == Some(f.size as real / MEGABYTE as real)
  {
  }

  /** The size error states the limit: the digits between its prefix and `MB` read back as `maxSize`. */
  lemma SizeErrorStatesLimit(maxSize: nat)
    ensures var m := SizeError(maxSize);
            var digits := m[|SIZE_ERROR_PREFIX|..|m| - |SIZE_ERROR_SUFFIX|];
            m[..|SIZE_ERROR_PREFIX|] == SIZE_ERROR_PREFIX
            && (forall i :: 0 <= i < |digits| ==> '0' <= digits[i] <= '9')
            && DigitsValue(digits) == maxSize
  {
    var m := SizeError(maxSize);
    assert m[|SIZE_ERROR_PREFIX|..|m| - |SIZE_ERROR_SUFFIX|] == NatToString(maxSize);
    NatToStringValue(maxSize);
  }
}

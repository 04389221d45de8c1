/** The résumé upload page (app/upload-resume/page.tsx): a PDF is chosen,
    stored under `resumes/<user>-<time>.<ext>`, then handed to the
    `parse_resume` function. The ghost log records every awaited request
    with its outcome and the two progress flags shown while it was
    awaited. */
module UploadResumePage {
  import opened Remote
  import opened ResumeFiles

  const SelectPdfError := "Please select a PDF file"
  const NotLoggedInError := "You must be logged in to upload a resume"
  const UploadFallback := "An error occurred"
  const StorageFolder := "resumes/"

  /** The parse function's answer, kept as received. */
  type Json = string

  datatype Await = Await(request: Request, ok: bool, uploading: bool, parsing: bool)

  /** The storage path of an upload: the folder, then the stored file name. */
  function UploadPath(userId: string, now: nat, name: string): (path: string)
    ensures StorageFolder <= path
    ensures path[|StorageFolder|..] == StoredFileName(userId, now, name)
  {
    StorageFolder + StoredFileName(userId, now, name)
  }

  /** The page's discipline: the two progress flags are never shown
      together, and the parse function is called only right after a
      successful storage upload. */
  ghost predicate WellLogged(log: seq<Await>) {
    forall k :: 0 <= k < |log| ==>
      && !(log[k].uploading && log[k].parsing)
      && (log[k].request.InvokeParseResume? ==>
            k > 0 && log[k - 1].ok && log[k - 1].request.StorageUpload?)
  }

  lemma Extend(log: seq<Await>, e: Await)
    requires WellLogged(log) && !(e.uploading && e.parsing)
    requires e.request.InvokeParseResume? ==>
      |log| > 0 && log[|log| - 1].ok && log[|log| - 1].request.StorageUpload?
    ensures WellLogged(log + [e])
  {
    var log' := log + [e];
    forall k | 0 <= k < |log'|
      ensures && !(log'[k].uploading && log'[k].parsing)
              && (log'[k].request.InvokeParseResume? ==>
                    k > 0 && log'[k - 1].ok && log'[k - 1].request.StorageUpload?)
    {
      if k < |log| {
        assert log'[k] == log[k];
        if k > 0 {
          assert log'[k - 1] == log[k - 1];
        }
      } else {
        assert log'[k] == e;
        if k > 0 {
          assert log'[k - 1] == log[|log| - 1];
        }
      }
    }
    assert WellLogged(log');
  }

  class UploadResumePanel {
    var file: Option<FileInfo>
    var uploading: bool
    var parsing: bool
    var parsedData: Option<Json>
    /** The error shown, "" for none. */
    var error: string
    ghost var log: seq<Await>

    ghost predicate Valid()
      reads this
    {
      !(uploading && parsing) && WellLogged(log)
    }

    constructor ()
      ensures Valid()
      ensures file.None? && !uploading && !parsing && parsedData.None? && error == "" && log == []
    {
      file := None;
      uploading := false;
      parsing := false;
      parsedData := None;
      error := "";
      log := [];
    }

    /** `handleFileChange`: only the MIME type is checked (no size limit);
        anything but a PDF sets the error and drops the selection. */
    method HandleFileChange(selected: Option<FileInfo>)
      modifies this`file, this`error
      ensures selected.None? ==> file == old(file) && error == old(error)
      ensures selected.Some? && selected.value.mimeType == PdfType ==>
        file == selected && error == ""
      ensures selected.Some? && selected.value.mimeType != PdfType ==>
        file.None? && error == SelectPdfError
    {
      if selected.None? {
        return;
      }
      if selected.value.mimeType == PdfType {
        file := selected;
        error := "";
      } else {
        error := SelectPdfError;
        file := None;
      }
    }

    /** The "Remove" button next to the chosen file. */
    method RemoveFile()
      modifies this`file
      ensures file.None?
    {
      file := None;
    }

    /** `handleUpload`: the user, then the storage upload, then the parse
        call. Without a user the error is set and `uploading` stays on. */
    method HandleUpload(user: Option<string>, now: nat, uploaded: Reply<()>,
                        publicUrl: string, parsed: Reply<Option<Json>>)
      requires Valid() && !uploading && !parsing
      modifies this`uploading, this`parsing, this`parsedData, this`error, this`log
      ensures Valid()
      ensures old(file).None? ==>
        && !uploading && !parsing && parsedData == old(parsedData)
        && error == old(error) && log == old(log)
      ensures old(file).Some? && user.None? ==>
        && uploading && !parsing && parsedData == old(parsedData)
        && error == NotLoggedInError
        && log == old(log) + [Await(GetUser, false, true, false)]
      ensures old(file).Some? && user.Some? ==>
        var path := UploadPath(user.value, now, old(file).value.name);
        && !uploading && !parsing
        && log == old(log) + [Await(GetUser, true, true, false)] + [Await(StorageUpload(path), uploaded.Ok?, true, false)]
                  + (if uploaded.Ok? then [Await(InvokeParseResume(publicUrl, user.value), parsed.Ok?, false, true)] else [])
        && parsedData == (if uploaded.Ok? && parsed.Ok? then parsed.value else old(parsedData))
        && error == (if uploaded.Failed? then ErrorText(uploaded.message, UploadFallback)
                     else if parsed.Failed? then ErrorText(parsed.message, UploadFallback)
                     else "")
    {
      if file.None? {
        return;
      }
      uploading := true;
      error := "";

      Extend(log, Await(GetUser, user.Some?, uploading, parsing));
      log := log + [Await(GetUser, user.Some?, uploading, parsing)];
      if user.None? {
        error := NotLoggedInError;
        return;
      }
      Send(UploadPath(user.value, now, file.value.name), user.value, uploaded, publicUrl, parsed);
    }

    /** The upload and parse stages of `handleUpload`, from the point where
        the user is known and `uploading` is shown. */
    method Send(path: string, userId: string, uploaded: Reply<()>,
                publicUrl: string, parsed: Reply<Option<Json>>)
      requires Valid() && uploading && !parsing
      modifies this`uploading, this`parsing, this`parsedData, this`error, this`log
      ensures Valid() && !uploading && !parsing
      ensures log == old(log) + [Await(StorageUpload(path), uploaded.Ok?, true, false)]
                + (if uploaded.Ok? then [Await(InvokeParseResume(publicUrl, userId), parsed.Ok?, false, true)] else [])
      ensures parsedData == (if uploaded.Ok? && parsed.Ok? then parsed.value else old(parsedData))
      ensures error == (if uploaded.Failed? then ErrorText(uploaded.message, UploadFallback)
                        else if parsed.Failed? then ErrorText(parsed.message, UploadFallback)
                        else old(error))
    {
      Extend(log, Await(StorageUpload(path), uploaded.Ok?, uploading, parsing));
      log := log + [Await(StorageUpload(path), uploaded.Ok?, uploading, parsing)];
      if uploaded.Failed? {
        error := ErrorText(uploaded.message, UploadFallback);
        uploading := false;
        parsing := false;
        return;
      }

      uploading := false;
      parsing := true;

      Extend(log, Await(InvokeParseResume(publicUrl, userId), parsed.Ok?, uploading, parsing));
      log := log + [Await(InvokeParseResume(publicUrl, userId), parsed.Ok?, uploading, parsing)];
      if parsed.Failed? {
        error := ErrorText(parsed.message, UploadFallback);
        uploading := false;
        parsing := false;
        return;
      }

      parsedData := parsed.value;
      parsing := false;
    }
  }
}

/** The résumé upload component (components/ResumeUpload.tsx): choosing a
    file, uploading it (replacing the previous résumé) and deleting the
    current résumé. Each handler runs to completion with the backend's
    answers given as parameters; the ghost log records every awaited request
    in order, whether it succeeded, and whether "uploading" was shown while
    it was awaited. */
module ResumeUpload {
  import opened Remote
  import opened ResumeFiles

  const NoFileError := "Please select a file first"
  const UploadFallback := "Failed to upload resume. Please try again."
  const DeleteFallback := "Failed to delete resume. Please try again."
  const InvalidUrlError := "Invalid resume URL"

  datatype Await = Await(request: Request, ok: bool, uploading: bool)

  /** The profile's `resume_url` is written only right after the storage step
      it records succeeded: an upload for a new URL, a removal for null. */
  ghost predicate ProfileFollowsStorage(log: seq<Await>) {
    forall k :: 0 <= k < |log| && log[k].request.SetResumeUrl? ==>
      k > 0 && log[k - 1].ok &&
      (if log[k].request.url.Some? then log[k - 1].request.StorageUpload?
       else log[k - 1].request.StorageRemove?)
  }

  /** Every request of the log was awaited with "uploading" shown, and the
      profile follows storage. */
  ghost predicate WellLogged(log: seq<Await>) {
    ProfileFollowsStorage(log) && forall k :: 0 <= k < |log| ==> log[k].uploading
  }

  /** A request may be appended to a well-kept log when it is awaited with
      "uploading" shown and, for a profile update, right after the storage
      step it records succeeded. */
  lemma Extend(log: seq<Await>, e: Await)
    requires WellLogged(log) && e.uploading
    requires e.request.SetResumeUrl? ==>
      |log| > 0 && log[|log| - 1].ok &&
      (if e.request.url.Some? then log[|log| - 1].request.StorageUpload?
       else log[|log| - 1].request.StorageRemove?)
    ensures WellLogged(log + [e])
  {
    var log' := log + [e];
    forall k | 0 <= k < |log'| && log'[k].request.SetResumeUrl?
      ensures k > 0 && log'[k - 1].ok &&
        (if log'[k].request.url.Some? then log'[k - 1].request.StorageUpload?
         else log'[k - 1].request.StorageRemove?)
    {
      if k < |log| {
        assert log'[k] == log[k];
        assert log'[k - 1] == log[k - 1];
      }
    }
  }

  /** The key of the résumé to replace: found only in a truthy URL that
      holds "/resumes/". */
  function OldKey(currentResumeUrl: Option<string>): (key: Option<string>)
    ensures key.Some? <==> Truthy(currentResumeUrl) && StorageKey(currentResumeUrl.value).Some?
    ensures key.Some? ==> key == StorageKey(currentResumeUrl.value)
  {
    if Truthy(currentResumeUrl) then StorageKey(currentResumeUrl.value) else None
  }

  /** The removal of the replaced file, when there is a key to remove. */
  function Removal(oldKey: Option<string>, removed: Reply<()>): seq<Await> {
    if oldKey.Some? then [Await(StorageRemove(oldKey.value), removed.Ok?, true)] else []
  }

  class ResumeUploadPanel {
    var file: Option<FileInfo>
    var uploading: bool
    /** The error shown, "" for none. */
    var error: string
    var success: bool
    ghost var log: seq<Await>
    /** The profile's `resume_url` as the store holds it. */
    ghost var storedUrl: Option<string>

    ghost predicate Valid()
      reads this
    {
      !uploading && WellLogged(log)
    }

    constructor (stored: Option<string>)
      ensures Valid()
      ensures file.None? && error == "" && !success && log == [] && storedUrl == stored
    {
      file := None;
      uploading := false;
      error := "";
      success := false;
      log := [];
      storedUrl := stored;
    }

    /** `handleFileChange`: a non-PDF or a file over 5 MiB only sets the
        error; an accepted file replaces the selection, clears the error and
        the success notice. */
    method HandleFileChange(selected: Option<FileInfo>)
      requires Valid()
      modifies this`file, this`error, this`success
      ensures Valid()
      ensures selected.None? ==> file == old(file) && error == old(error) && success == old(success)
      ensures selected.Some? && CheckResumeFile(selected.value).Rejected? ==>
        && error == CheckResumeFile(selected.value).message
        && file == old(file) && success == old(success)
      ensures selected.Some? && CheckResumeFile(selected.value).Accepted? ==>
        error == "" && file == selected && !success
    {
      if selected.None? {
        return;
      }
      var verdict := CheckResumeFile(selected.value);
      if verdict.Rejected? {
        error := verdict.message;
        return;
      }
      error := "";
      file := selected;
      success := false;
    }

    /** `handleUpload`: removes the old résumé (best effort: its outcome is
        ignored), uploads the file under its stored name, then points the
        profile at the new public URL. Any failure of the upload or of the
        profile update ends the action with the error shown. */
    method HandleUpload(userId: string, currentResumeUrl: Option<string>, now: nat,
                        removed: Reply<()>, uploaded: Reply<()>, publicUrl: string, updated: Reply<()>)
      requires Valid()
      modifies this`file, this`uploading, this`error, this`success, this`log, this`storedUrl
      ensures Valid()
      ensures old(file).None? ==>
        && error == NoFileError
        && file == old(file) && success == old(success)
        && log == old(log) && storedUrl == old(storedUrl)
      ensures old(file).Some? ==>
        var name := StoredFileName(userId, now, old(file).value.name);
        && log == old(log) + Removal(OldKey(currentResumeUrl), removed)
                  + [Await(StorageUpload(name), uploaded.Ok?, true)]
                  + (if uploaded.Ok? then [Await(SetResumeUrl(Some(publicUrl)), updated.Ok?, true)] else [])
        && success == (uploaded.Ok? && updated.Ok?)
        && file == (if success then None else old(file))
        && storedUrl == (if success then Some(publicUrl) else old(storedUrl))
        && error == (if uploaded.Failed? then ErrorText(uploaded.message, UploadFallback)
                     else if updated.Failed? then ErrorText(updated.message, UploadFallback)
                     else "")
    {
      if file.None? {
        error := NoFileError;
        return;
      }
      Store(StoredFileName(userId, now, file.value.name), OldKey(currentResumeUrl), removed, uploaded, publicUrl, updated);
    }

    /** The body of `handleUpload` once a file is selected, with the
        storage file name already built. */
    method Store(fileName: string, oldKey: Option<string>,
                 removed: Reply<()>, uploaded: Reply<()>, publicUrl: string, updated: Reply<()>)
      requires Valid() && file.Some?
      modifies this`file, this`uploading, this`error, this`success, this`log, this`storedUrl
      ensures Valid()
      ensures log == old(log) + Removal(oldKey, removed)
                + [Await(StorageUpload(fileName), uploaded.Ok?, true)]
                + (if uploaded.Ok? then [Await(SetResumeUrl(Some(publicUrl)), updated.Ok?, true)] else [])
      ensures success == (uploaded.Ok? && updated.Ok?)
      ensures file == (if success then None else old(file))
      ensures storedUrl == (if success then Some(publicUrl) else old(storedUrl))
      ensures error == (if uploaded.Failed? then ErrorText(uploaded.message, UploadFallback)
                        else if updated.Failed? then ErrorText(updated.message, UploadFallback)
                        else "")
    {
      uploading := true;
      error := "";
      success := false;

      if oldKey.Some? {
        Extend(log, Await(StorageRemove(oldKey.value), removed.Ok?, uploading));
        log := log + [Await(StorageRemove(oldKey.value), removed.Ok?, uploading)];
      }
      Publish(fileName, uploaded, publicUrl, updated);
    }

    /** The upload of the new file and the profile update that follows it,
        with "uploading" shown. */
    method Publish(fileName: string, uploaded: Reply<()>, publicUrl: string, updated: Reply<()>)
      requires WellLogged(log) && uploading && file.Some? && error == "" && !success
      modifies this`file, this`uploading, this`error, this`success, this`log, this`storedUrl
      ensures Valid()
      ensures log == old(log) + [Await(StorageUpload(fileName), uploaded.Ok?, true)]
                + (if uploaded.Ok? then [Await(SetResumeUrl(Some(publicUrl)), updated.Ok?, true)] else [])
      ensures success == (uploaded.Ok? && updated.Ok?)
      ensures file == (if success then None else old(file))
      ensures storedUrl == (if success then Some(publicUrl) else old(storedUrl))
      ensures error == (if uploaded.Failed? then ErrorText(uploaded.message, UploadFallback)
                        else if updated.Failed? then ErrorText(updated.message, UploadFallback)
                        else "")
    {
      Extend(log, Await(StorageUpload(fileName), uploaded.Ok?, uploading));
      log := log + [Await(StorageUpload(fileName), uploaded.Ok?, uploading)];
      if uploaded.Failed? {
        error := ErrorText(uploaded.message, UploadFallback);
        uploading := false;
        return;
      }

      Extend(log, Await(SetResumeUrl(Some(publicUrl)), updated.Ok?, uploading));
      log := log + [Await(SetResumeUrl(Some(publicUrl)), updated.Ok?, uploading)];
      if updated.Failed? {
        error := ErrorText(updated.message, UploadFallback);
        uploading := false;
        return;
      }
      storedUrl := Some(publicUrl);

      success := true;
      file := None;
      uploading := false;
    }

    /** `handleDelete`: with a truthy current URL, removes the stored file
        and then clears the profile's `resume_url`. A URL without
        "/resumes/" fails before any request; a failed removal leaves the
        profile untouched. */
    method HandleDelete(currentResumeUrl: Option<string>, removed: Reply<()>, updated: Reply<()>)
      requires Valid()
      modifies this`uploading, this`error, this`success, this`log, this`storedUrl
      ensures Valid()
      ensures !Truthy(currentResumeUrl) ==>
        error == old(error) && success == old(success) && log == old(log) && storedUrl == old(storedUrl)
      ensures Truthy(currentResumeUrl) && StorageKey(currentResumeUrl.value).None? ==>
        && error == InvalidUrlError
        && success == old(success) && log == old(log) && storedUrl == old(storedUrl)
      ensures Truthy(currentResumeUrl) && StorageKey(currentResumeUrl.value).Some? ==>
        var done := removed.Ok? && updated.Ok?;
        && log == old(log) + [Await(StorageRemove(StorageKey(currentResumeUrl.value).value), removed.Ok?, true)]
                  + (if removed.Ok? then [Await(SetResumeUrl(None), updated.Ok?, true)] else [])
        && success == (done || old(success))
        && storedUrl == (if done then None else old(storedUrl))
        && error == (if removed.Failed? then ErrorText(removed.message, DeleteFallback)
                     else if updated.Failed? then ErrorText(updated.message, DeleteFallback)
                     else "")
    {
      if !Truthy(currentResumeUrl) {
        return;
      }
      uploading := true;
      error := "";

      var key := StorageKey(currentResumeUrl.value);
      if key.None? {
        error := InvalidUrlError;
        uploading := false;
        return;
      }

      Extend(log, Await(StorageRemove(key.value), removed.Ok?, uploading));
      log := log + [Await(StorageRemove(key.value), removed.Ok?, uploading)];
      if removed.Failed? {
        error := ErrorText(removed.message, DeleteFallback);
        uploading := false;
        return;
      }

      Extend(log, Await(SetResumeUrl(None), updated.Ok?, uploading));
      log := log + [Await(SetResumeUrl(None), updated.Ok?, uploading)];
      if updated.Failed? {
        error := ErrorText(updated.message, DeleteFallback);
        uploading := false;
        return;
      }
      storedUrl := None;

      success := true;
      uploading := false;
    }
  }
}

/** What the pages exchange with the hosted backend (authentication,
    storage, tables and edge functions). The backend itself is not modelled:
    every answer it gives is a parameter of the operation that awaits it. */
module Remote {

  datatype Option<+T> = None | Some(value: T)

  /** The answer to one awaited call: a value, or a failure carrying the
      error's `message` ("" when the error has none). */
  datatype Reply<+T> = Ok(value: T) | Failed(message: string)

  /** The requests the pages send, in the terms of the backend client. */
  datatype Request =
    | GetUser
    | StorageRemove(key: string)
    | StorageUpload(path: string)
    | SetResumeUrl(url: Option<string>)
    | InvokeParseResume(resumeUrl: string, userId: string)
    | InvokeDiscoverJobs(userId: string, query: Option<string>)
    | InvokeInterviewGenerator(userId: string, company: string, role: string, techStack: seq<string>)
    | SelectJobMatches(userId: string)
    | SelectInterviewHistory(userId: string, limit: nat)

  /** `err.message || fallback`: the failure's own message when it has a
      non-empty one, else the page's fallback text. */
  function ErrorText(message: string, fallback: string): (r: string)
    ensures message != "" ==> r == message
    ensures message == "" ==> r == fallback
  {
    if message != "" then message else fallback
  }

  /** JavaScript truthiness of an optional string (`null`, `undefined` and
      "" are falsy). */
  predicate Truthy(s: Option<string>) {
    s.Some? && s.value != ""
  }
}

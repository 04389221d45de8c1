/** The job discovery page (app/jobs/page.tsx): loading the saved job
    matches, running a discovery and then reloading, and the score tier
    classes. */
module JobsPage {
  import opened Remote

  const NotLoggedInError := "You must be logged in"
  const DiscoverFallback := "Failed to discover jobs"

  datatype JobMatch = JobMatch(id: string, title: string, company: string, link: string,
                               score: real, reasons: string, requirements: seq<string>,
                               dateFound: string, location: Option<string>, salary: Option<string>)

  // ----- Score tiers -----

  /** The tier of a score, from 0 (below 40) to 3 (80 and above). */
  function Tier(score: real): (t: nat)
    ensures t < 4
    ensures t == 3 <==> score >= 80.0
    ensures t == 2 <==> 60.0 <= score < 80.0
    ensures t == 1 <==> 40.0 <= score < 60.0
    ensures t == 0 <==> score < 40.0
  {
    if score >= 80.0 then 3 else if score >= 60.0 then 2 else if score >= 40.0 then 1 else 0
  }

  /** Gradient and badge classes, lowest tier first. */
  const Gradients := ["from-red-500 to-pink-500", "from-yellow-500 to-orange-500",
                      "from-blue-500 to-cyan-500", "from-green-500 to-emerald-500"]
  const Badges := ["bg-red-100 text-red-800 border-red-300", "bg-yellow-100 text-yellow-800 border-yellow-300",
                   "bg-blue-100 text-blue-800 border-blue-300", "bg-green-100 text-green-800 border-green-300"]

  /** `getScoreColor`. */
  function ScoreColor(score: real): (cls: string)
    ensures cls == Gradients[Tier(score)]
  {
    if score >= 80.0 then "from-green-500 to-emerald-500"
    else if score >= 60.0 then "from-blue-500 to-cyan-500"
    else if score >= 40.0 then "from-yellow-500 to-orange-500"
    else "from-red-500 to-pink-500"
  }

  /** `getScoreBadgeColor`. */
  function ScoreBadgeColor(score: real): (cls: string)
    ensures cls == Badges[Tier(score)]
  {
    if score >= 80.0 then "bg-green-100 text-green-800 border-green-300"
    else if score >= 60.0 then "bg-blue-100 text-blue-800 border-blue-300"
    else if score >= 40.0 then "bg-yellow-100 text-yellow-800 border-yellow-300"
    else "bg-red-100 text-red-800 border-red-300"
  }

  /** A higher score never lands in a lower tier. */
  lemma TierMonotone(a: real, b: real)
    requires a <= b
    ensures Tier(a) <= Tier(b)
  {
  }

  /** The two classifiers tell the same scores apart: equal gradients
      exactly when equal badges, both exactly when equal tiers. */
  lemma ClassifiersAgree(a: real, b: real)
    ensures ScoreColor(a) == ScoreColor(b) <==> Tier(a) == Tier(b)
    ensures ScoreBadgeColor(a) == ScoreBadgeColor(b) <==> Tier(a) == Tier(b)
  {
  }

  // ----- The page -----

  /** `searchQuery || undefined`: an empty query is not sent. */
  function QueryParam(searchQuery: string): (q: Option<string>)
    ensures q.Some? <==> searchQuery != ""
    ensures q.Some? ==> q.value == searchQuery
  {
    if searchQuery != "" then Some(searchQuery) else None
  }

  datatype Await = Await(request: Request, ok: bool, loading: bool, discovering: bool)

  /** Job matches are fetched with `loading` shown, discovery runs with
      `discovering` shown. */
  ghost predicate WellLogged(log: seq<Await>) {
    forall k :: 0 <= k < |log| ==>
      && (log[k].request.SelectJobMatches? ==> log[k].loading)
      && (log[k].request.InvokeDiscoverJobs? ==> log[k].discovering)
  }

  lemma Extend(log: seq<Await>, e: Await)
    requires WellLogged(log)
    requires e.request.SelectJobMatches? ==> e.loading
    requires e.request.InvokeDiscoverJobs? ==> e.discovering
    ensures WellLogged(log + [e])
  {
    var log' := log + [e];
    forall k | 0 <= k < |log'|
      ensures && (log'[k].request.SelectJobMatches? ==> log'[k].loading)
              && (log'[k].request.InvokeDiscoverJobs? ==> log'[k].discovering)
    {
      if k < |log| {
        assert log'[k] == log[k];
      }
    }
    assert WellLogged(log');
  }

  /** The requests `loadJobs` awaits, all with `loading` shown. */
  function JobRequests(user: Option<string>, rows: Reply<Option<seq<JobMatch>>>, discovering: bool): seq<Await> {
    [Await(GetUser, user.Some?, true, discovering)]
    + if user.Some? then [Await(SelectJobMatches(user.value), rows.Ok?, true, discovering)] else []
  }

  /** The list after `loadJobs`: replaced wholesale by the fetched rows
      (null read as none) when there is a user and the fetch succeeds. */
  function Reloaded(jobs: seq<JobMatch>, user: Option<string>, rows: Reply<Option<seq<JobMatch>>>): seq<JobMatch> {
    if user.Some? && rows.Ok? then (if rows.value.Some? then rows.value.value else []) else jobs
  }

  /** The error after `loadJobs`: the failure's message as it is, kept
      otherwise. */
  function LoadError(error: string, user: Option<string>, rows: Reply<Option<seq<JobMatch>>>): string {
    if user.Some? && rows.Failed? then rows.message else error
  }

  class JobsPanel {
    var jobs: seq<JobMatch>
    var loading: bool
    var discovering: bool
    /** The error shown, "" for none. */
    var error: string
    var searchQuery: string
    ghost var log: seq<Await>

    ghost predicate Valid()
      reads this
    {
      !loading && !discovering && WellLogged(log)
    }

    constructor ()
      ensures Valid()
      ensures jobs == [] && error == "" && searchQuery == "" && log == []
    {
      jobs := [];
      loading := false;
      discovering := false;
      error := "";
      searchQuery := "";
      log := [];
    }

    /** The search box's change handler. */
    method SetSearchQuery(q: string)
      modifies this`searchQuery
      ensures searchQuery == q
    {
      searchQuery := q;
    }

    /** `loadJobs`: `loading` is on while the user and the matches are
        fetched and off on every exit. */
    method LoadJobs(user: Option<string>, rows: Reply<Option<seq<JobMatch>>>)
      requires WellLogged(log) && !loading
      modifies this`loading, this`jobs, this`error, this`log
      ensures WellLogged(log) && !loading
      ensures log == old(log) + JobRequests(user, rows, discovering)
      ensures jobs == Reloaded(old(jobs), user, rows)
      ensures error == LoadError(old(error), user, rows)
    {
      loading := true;
      Extend(log, Await(GetUser, user.Some?, loading, discovering));
      log := log + [Await(GetUser, user.Some?, loading, discovering)];
      if user.None? {
        loading := false;
        return;
      }
      Extend(log, Await(SelectJobMatches(user.value), rows.Ok?, loading, discovering));
      log := log + [Await(SelectJobMatches(user.value), rows.Ok?, loading, discovering)];
      if rows.Failed? {
        error := rows.message;
        loading := false;
        return;
      }
      jobs := if rows.value.Some? then rows.value.value else [];
      loading := false;
    }

    /** `discoverJobs`: the error is cleared, `discovering` is on until
        every exit, and a successful discovery reloads the list. */
    method DiscoverJobs(user: Option<string>, discovered: Reply<()>,
                        reloadUser: Option<string>, reloadRows: Reply<Option<seq<JobMatch>>>)
      requires Valid()
      modifies this`loading, this`discovering, this`jobs, this`error, this`log
      ensures Valid()
      ensures user.None? ==>
        && error == NotLoggedInError && jobs == old(jobs)
        && log == old(log) + [Await(GetUser, false, false, true)]
      ensures user.Some? ==>
        && log == old(log) + [Await(GetUser, true, false, true)]
                  + [Await(InvokeDiscoverJobs(user.value, QueryParam(searchQuery)), discovered.Ok?, false, true)]
                  + (if discovered.Ok? then JobRequests(reloadUser, reloadRows, true) else [])
        && jobs == (if discovered.Ok? then Reloaded(old(jobs), reloadUser, reloadRows) else old(jobs))
        && error == (if discovered.Failed? then ErrorText(discovered.message, DiscoverFallback)
                     else LoadError("", reloadUser, reloadRows))
    {
      discovering := true;
      error := "";

      Extend(log, Await(GetUser, user.Some?, loading, discovering));
      log := log + [Await(GetUser, user.Some?, loading, discovering)];
      if user.None? {
        error := NotLoggedInError;
        discovering := false;
        return;
      }

      var call := Await(InvokeDiscoverJobs(user.value, QueryParam(searchQuery)), discovered.Ok?, loading, discovering);
      Extend(log, call);
      log := log + [call];
      if discovered.Failed? {
        error := ErrorText(discovered.message, DiscoverFallback);
        discovering := false;
        return;
      }

      LoadJobs(reloadUser, reloadRows);
      discovering := false;
    }
  }
}

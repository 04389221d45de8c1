/** The interview preparation page (app/interview/page.tsx): the
    tech-stack field parsed into a list, the generate action with its
    `generating` flag, the history reload, the expanded-question set and
    the badge classifiers. */
module InterviewPage {
  import opened Remote
  import opened Text

  const MissingFieldsError := "Please fill in company and role"
  const NotLoggedInError := "You must be logged in"
  const GenerateFallback := "Failed to generate interview questions"
  /** At most this many past interviews are loaded. */
  const HistoryLimit: nat := 10

  datatype Question = Question(question: string, kind: string, difficulty: string,
                               answer: Option<string>, explanation: Option<string>)

  datatype InterviewEntry = InterviewEntry(id: string, company: string, role: string,
                                           techStack: seq<string>, date: string, questions: seq<Question>)

  // ----- Tech-stack parsing -----

  /** A parsed tech-stack entry: not empty, no surrounding white space, no comma. */
  predicate IsStackEntry(t: string) {
    t != "" && !IsSpace(t[0]) && !IsSpace(t[|t| - 1]) && ',' !in t
  }

  /** Every entry of a stack is a parsed entry. */
  predicate CleanStack(stack: seq<string>) {
    forall k :: 0 <= k < |stack| ==> IsStackEntry(stack[k])
  }

  /** The comma-separated pieces of the field, each trimmed. */
  function TrimmedPieces(s: string): (pieces: seq<string>)
    ensures |pieces| == multiset(s)[','] + 1
    ensures forall k :: 0 <= k < |pieces| ==> pieces[k] == "" || IsStackEntry(pieces[k])
  {
    var parts := Split(s, ",");
    SplitCharCount(s, ',');
    SplitPiecesFree(s, ",");
    TrimmedFree(parts);
    seq(|parts|, k requires 0 <= k < |parts| => Trim(parts[k]))
  }

  lemma TrimmedFree(parts: seq<string>)
    requires forall k :: 0 <= k < |parts| ==> !Contains(parts[k], ",")
    ensures forall k :: 0 <= k < |parts| ==> ',' !in Trim(parts[k])
  {
    forall k | 0 <= k < |parts|
      ensures ',' !in Trim(parts[k])
    {
      var t := Trim(parts[k]);
      TrimShrinks(parts[k]);
      if ',' in t {
        assert multiset(t)[','] > 0;
        assert ',' in multiset(parts[k]);
        CharOccurrence(parts[k], ',');
        assert false;
      }
    }
  }

  /** The non-empty strings of `xs`, in order. */
  function DropEmpty(xs: seq<string>): (ys: seq<string>)
    ensures |ys| <= |xs|
    ensures forall k :: 0 <= k < |ys| ==> ys[k] != "" && ys[k] in xs
  {
    if xs == [] then []
    else if xs[0] == "" then DropEmpty(xs[1..])
    else [xs[0]] + DropEmpty(xs[1..])
  }

  /** `techStack.split(',').map(t => t.trim()).filter(t => t.length > 0)`. */
  function ParseTechStack(s: string): (stack: seq<string>)
    ensures CleanStack(stack)
    ensures |stack| <= multiset(s)[','] + 1
  {
    DropEmpty(TrimmedPieces(s))
  }

  /** `xs` appears in `ys` in the same order, possibly with gaps. */
  predicate IsSubsequence<T(==)>(xs: seq<T>, ys: seq<T>)
    decreases |ys|
  {
    if xs == [] then true
    else if ys == [] then false
    else if xs[0] == ys[0] then IsSubsequence(xs[1..], ys[1..])
    else IsSubsequence(xs, ys[1..])
  }

  lemma {:induction false} DropEmptyKeepsOrder(xs: seq<string>)
    ensures IsSubsequence(DropEmpty(xs), xs)
    ensures forall t :: t in xs && t != "" ==> t in DropEmpty(xs)
    ensures multiset(DropEmpty(xs)) == multiset(xs)["" := 0]
  {
    if xs != [] {
      DropEmptyKeepsOrder(xs[1..]);
      var rest := DropEmpty(xs[1..]);
      assert xs == [xs[0]] + xs[1..];
      if xs[0] != "" {
        assert DropEmpty(xs) == [xs[0]] + rest;
        assert DropEmpty(xs)[1..] == rest;
      } else if rest != [] {
        assert rest[0] != "";
      }
      forall t | t in xs && t != ""
        ensures t in DropEmpty(xs)
      {
        if t != xs[0] {
          assert t in xs[1..];
        }
      }
    }
  }

  /** The parsed stack is the trimmed pieces in their input order, with
      exactly the empty ones dropped. */
  lemma TechStackKeepsEntries(s: string)
    ensures IsSubsequence(ParseTechStack(s), TrimmedPieces(s))
    ensures forall t :: t in TrimmedPieces(s) && t != "" ==> t in ParseTechStack(s)
    ensures forall t :: t in ParseTechStack(s) ==> t in TrimmedPieces(s)
    ensures multiset(ParseTechStack(s)) == multiset(TrimmedPieces(s))["" := 0]
  {
    DropEmptyKeepsOrder(TrimmedPieces(s));
  }

  // ----- Expanded questions -----

  /** `toggleQuestion`'s new set: `i` flipped, every other index kept. */
  function Toggled(expanded: set<nat>, i: nat): (r: set<nat>)
    ensures i in r <==> i !in expanded
    ensures forall j :: j != i ==> (j in r <==> j in expanded)
  {
    if i in expanded then expanded - {i} else expanded + {i}
  }

  lemma ToggleTwice(expanded: set<nat>, i: nat)
    ensures Toggled(Toggled(expanded, i), i) == expanded
  {
    var once := Toggled(expanded, i);
    var twice := Toggled(once, i);
    forall j
      ensures j in twice <==> j in expanded
    {
      if j == i {
        assert i in twice <==> i !in once;
      }
    }
  }

  // ----- Badge classes -----

  const EasyClass := "bg-green-100 text-green-800 border-green-300"
  const MediumClass := "bg-yellow-100 text-yellow-800 border-yellow-300"
  const HardClass := "bg-red-100 text-red-800 border-red-300"
  const OtherDifficultyClass := "bg-gray-100 text-gray-800 border-gray-300"

  /** `getDifficultyColor`: three distinct classes and a gray default. */
  function DifficultyColor(difficulty: string): (cls: string)
    ensures difficulty == "easy" <==> cls == EasyClass
    ensures difficulty == "medium" <==> cls == MediumClass
    ensures difficulty == "hard" <==> cls == HardClass
    ensures cls in {EasyClass, MediumClass, HardClass, OtherDifficultyClass}
  {
    match difficulty
    case "easy" => EasyClass
    case "medium" => MediumClass
    case "hard" => HardClass
    case _ => OtherDifficultyClass
  }

  const TechnicalClass := "from-blue-500 to-cyan-500"
  const BehavioralClass := "from-purple-500 to-pink-500"
  const SystemDesignClass := "from-orange-500 to-red-500"
  const OtherTypeClass := "from-gray-500 to-gray-600"

  /** `getTypeColor`: three distinct gradients and a gray default. */
  function TypeColor(kind: string): (cls: string)
    ensures kind == "technical" <==> cls == TechnicalClass
    ensures kind == "behavioral" <==> cls == BehavioralClass
    ensures kind == "system_design" <==> cls == SystemDesignClass
    ensures cls in {TechnicalClass, BehavioralClass, SystemDesignClass, OtherTypeClass}
  {
    match kind
    case "technical" => TechnicalClass
    case "behavioral" => BehavioralClass
    case "system_design" => SystemDesignClass
    case _ => OtherTypeClass
  }

  // ----- The page -----

  datatype Await = Await(request: Request, ok: bool, generating: bool)

  /** The generator is only ever called with `generating` shown, with a
      non-empty company and role, and with a parsed stack. */
  ghost predicate WellLogged(log: seq<Await>) {
    forall k :: 0 <= k < |log| && log[k].request.InvokeInterviewGenerator? ==>
      && log[k].generating
      && log[k].request.company != "" && log[k].request.role != ""
      && CleanStack(log[k].request.techStack)
  }

  lemma Extend(log: seq<Await>, e: Await)
    requires WellLogged(log)
    requires e.request.InvokeInterviewGenerator? ==>
      && e.generating && e.request.company != "" && e.request.role != ""
      && CleanStack(e.request.techStack)
    ensures WellLogged(log + [e])
  {
    var log' := log + [e];
    forall k | 0 <= k < |log'| && log'[k].request.InvokeInterviewGenerator?
      ensures && log'[k].generating
              && log'[k].request.company != "" && log'[k].request.role != ""
              && CleanStack(log'[k].request.techStack)
    {
      if k < |log| {
        assert log'[k] == log[k];
      }
    }
    assert WellLogged(log');
  }

  /** The requests `loadHistory` awaits. */
  function HistoryRequests(user: Option<string>, rows: Reply<Option<seq<InterviewEntry>>>, generating: bool): seq<Await> {
    [Await(GetUser, user.Some?, generating)]
    + if user.Some? then [Await(SelectInterviewHistory(user.value, HistoryLimit), rows.Ok?, generating)] else []
  }

  /** The history after `loadHistory`: the fetched rows (null read as
      none) when there is a user and the fetch succeeds, else unchanged. */
  function Reloaded(history: seq<InterviewEntry>, user: Option<string>,
                    rows: Reply<Option<seq<InterviewEntry>>>): seq<InterviewEntry> {
    if user.Some? && rows.Ok? then OrEmpty(rows.value) else history
  }

  function OrEmpty<T>(xs: Option<seq<T>>): seq<T> {
    if xs.Some? then xs.value else []
  }

  class InterviewPanel {
    var company: string
    var role: string
    var techStack: string
    var generating: bool
    var questions: seq<Question>
    var history: seq<InterviewEntry>
    /** The error shown, "" for none. */
    var error: string
    var expanded: set<nat>
    ghost var log: seq<Await>

    ghost predicate Valid()
      reads this
    {
      !generating && WellLogged(log)
    }

    constructor ()
      ensures Valid()
      ensures company == "" && role == "" && techStack == ""
      ensures questions == [] && history == [] && error == "" && expanded == {} && log == []
    {
      company := "";
      role := "";
      techStack := "";
      generating := false;
      questions := [];
      history := [];
      error := "";
      expanded := {};
      log := [];
    }

    /** The three input fields' change handlers. */
    method Edit(newCompany: string, newRole: string, newTechStack: string)
      modifies this`company, this`role, this`techStack
      ensures company == newCompany && role == newRole && techStack == newTechStack
    {
      company := newCompany;
      role := newRole;
      techStack := newTechStack;
    }

    /** `loadHistory`: the latest interviews of the signed-in user. A
        failed fetch is only logged to the console. */
    method LoadHistory(user: Option<string>, rows: Reply<Option<seq<InterviewEntry>>>)
      requires WellLogged(log)
      modifies this`history, this`log
      ensures WellLogged(log)
      ensures log == old(log) + HistoryRequests(user, rows, generating)
      ensures history == Reloaded(old(history), user, rows)
    {
      Extend(log, Await(GetUser, user.Some?, generating));
      log := log + [Await(GetUser, user.Some?, generating)];
      if user.None? {
        return;
      }
      Extend(log, Await(SelectInterviewHistory(user.value, HistoryLimit), rows.Ok?, generating));
      log := log + [Await(SelectInterviewHistory(user.value, HistoryLimit), rows.Ok?, generating)];
      if rows.Ok? {
        history := OrEmpty(rows.value);
      }
    }

    /** `generateInterview`: the required-field check, the user, the
        generator call, then a history reload; `generating` is cleared on
        every exit. */
    method GenerateInterview(user: Option<string>, generated: Reply<Option<seq<Question>>>,
                             reloadUser: Option<string>, reloadRows: Reply<Option<seq<InterviewEntry>>>)
      requires Valid()
      modifies this`generating, this`error, this`questions, this`history, this`log
      ensures Valid()
      ensures company == "" || role == "" ==>
        && error == MissingFieldsError
        && log == old(log) && questions == old(questions) && history == old(history)
      ensures company != "" && role != "" && user.None? ==>
        && error == NotLoggedInError
        && log == old(log) + [Await(GetUser, false, true)]
        && questions == old(questions) && history == old(history)
      ensures company != "" && role != "" && user.Some? ==>
        && log == old(log) + [Await(GetUser, true, true)]
                  + [Await(InvokeInterviewGenerator(user.value, company, role, ParseTechStack(old(techStack))), generated.Ok?, true)]
                  + (if generated.Ok? then HistoryRequests(reloadUser, reloadRows, true) else [])
        && questions == (if generated.Ok? then OrEmpty(generated.value) else old(questions))
        && history == (if generated.Ok? then Reloaded(old(history), reloadUser, reloadRows) else old(history))
        && error == (if generated.Failed? then ErrorText(generated.message, GenerateFallback) else "")
    {
      if company == "" || role == "" {
        error := MissingFieldsError;
        return;
      }
      generating := true;
      error := "";
      Run(user, ParseTechStack(techStack), generated, reloadUser, reloadRows);
      generating := false;
    }

    /** `generateInterview` from the point where `generating` is shown:
        the user, then the generator call and the reload. */
    method Run(user: Option<string>, stack: seq<string>, generated: Reply<Option<seq<Question>>>,
               reloadUser: Option<string>, reloadRows: Reply<Option<seq<InterviewEntry>>>)
      requires WellLogged(log) && generating && company != "" && role != "" && error == ""
      requires CleanStack(stack)
      modifies this`error, this`questions, this`history, this`log
      ensures WellLogged(log)
      ensures user.None? ==>
        && error == NotLoggedInError
        && log == old(log) + [Await(GetUser, false, true)]
        && questions == old(questions) && history == old(history)
      ensures user.Some? ==>
        && log == old(log) + [Await(GetUser, true, true)]
                  + [Await(InvokeInterviewGenerator(user.value, company, role, stack), generated.Ok?, true)]
                  + (if generated.Ok? then HistoryRequests(reloadUser, reloadRows, true) else [])
        && questions == (if generated.Ok? then OrEmpty(generated.value) else old(questions))
        && history == (if generated.Ok? then Reloaded(old(history), reloadUser, reloadRows) else old(history))
        && error == (if generated.Failed? then ErrorText(generated.message, GenerateFallback) else "")
    {
      Extend(log, Await(GetUser, user.Some?, generating));
      log := log + [Await(GetUser, user.Some?, generating)];
      if user.None? {
        error := NotLoggedInError;
        return;
      }
      Generate(user.value, stack, generated, reloadUser, reloadRows);
    }

    /** The generator call and the reload that follows it, with
        `generating` shown. */
    method Generate(userId: string, stack: seq<string>, generated: Reply<Option<seq<Question>>>,
                    reloadUser: Option<string>, reloadRows: Reply<Option<seq<InterviewEntry>>>)
      requires WellLogged(log) && generating && company != "" && role != ""
      requires CleanStack(stack)
      modifies this`error, this`questions, this`history, this`log
      ensures WellLogged(log)
      ensures log == old(log) + [Await(InvokeInterviewGenerator(userId, company, role, stack), generated.Ok?, true)]
                + (if generated.Ok? then HistoryRequests(reloadUser, reloadRows, true) else [])
      ensures questions == (if generated.Ok? then OrEmpty(generated.value) else old(questions))
      ensures history == (if generated.Ok? then Reloaded(old(history), reloadUser, reloadRows) else old(history))
      ensures error == (if generated.Failed? then ErrorText(generated.message, GenerateFallback) else old(error))
    {
      var call := Await(InvokeInterviewGenerator(userId, company, role, stack), generated.Ok?, generating);
      Extend(log, call);
      log := log + [call];
      if generated.Failed? {
        error := ErrorText(generated.message, GenerateFallback);
        return;
      }
      questions := OrEmpty(generated.value);
      LoadHistory(reloadUser, reloadRows);
    }

    /** `toggleQuestion`. */
    method ToggleQuestion(i: nat)
      modifies this`expanded
      ensures expanded == Toggled(old(expanded), i)
    {
      if i in expanded {
        expanded := expanded - {i};
      } else {
        expanded := expanded + {i};
      }
    }
  }
}

/** The dashboard's view derivations (app/dashboard/page.tsx): chart data,
    stat values, recent-list slices and pie colours, computed from the
    loaded profile, job matches and interview history. */
module Dashboard {
  import opened Remote
  import opened Text

  datatype Profile = Profile(id: string, name: Option<string>, avatarUrl: Option<string>,
                             resumeUrl: Option<string>, skills: Option<seq<string>>)

  datatype JobMatch = JobMatch(id: string, title: string, company: string, score: real, dateFound: string)

  /** An interview row; each question is kept as its raw JSON text. */
  datatype Interview = Interview(id: string, company: string, role: string, date: string,
                                 questions: Option<seq<string>>)

  datatype SkillSlice = SkillSlice(name: string, value: nat)
  datatype JobScore = JobScore(name: string, score: real, title: string)
  datatype TimelinePoint = TimelinePoint(questions: nat, company: string)
  datatype Stats = Stats(resumeUploaded: string, jobMatches: nat, interviewsPrepped: nat, skills: nat)

  const MaxSkillSlices: nat := 6
  const MaxJobBars: nat := 5
  const MaxCompanyName: nat := 15
  const RecentCount: nat := 3
  const Palette := ["#6366f1", "#8b5cf6", "#ec4899", "#f59e0b", "#10b981", "#3b82f6"]

  function Min(a: nat, b: nat): nat {
    if a <= b then a else b
  }

  /** `profile?.skills`, with a missing profile or skills list read as none. */
  function Skills(profile: Option<Profile>): Option<seq<string>> {
    if profile.Some? then profile.value.skills else None
  }

  /** `skillsData`: the first six skills in order, each worth 1; no slices
      without a skills list. */
  function SkillsData(profile: Option<Profile>): (slices: seq<SkillSlice>)
    ensures Skills(profile).None? ==> slices == []
    ensures Skills(profile).Some? ==>
      var skills := Skills(profile).value;
      && |slices| == Min(MaxSkillSlices, |skills|)
      && forall k :: 0 <= k < |slices| ==> slices[k] == SkillSlice(skills[k], 1)
  {
    match Skills(profile)
    case None => []
    case Some(skills) => SlicesOf(skills[..Min(MaxSkillSlices, |skills|)])
  }

  function SlicesOf(skills: seq<string>): (slices: seq<SkillSlice>)
    ensures |slices| == |skills|
    ensures forall k :: 0 <= k < |slices| ==> slices[k] == SkillSlice(skills[k], 1)
  {
    if skills == [] then [] else [SkillSlice(skills[0], 1)] + SlicesOf(skills[1..])
  }

  /** `jobScoresData`: the first five matches in order, named by at most
      the first 15 characters of the company, score and title as they are. */
  function JobScoresData(jobs: seq<JobMatch>): (bars: seq<JobScore>)
    ensures |bars| == Min(MaxJobBars, |jobs|)
    ensures forall k :: 0 <= k < |bars| ==>
      && bars[k].name <= jobs[k].company
      && |bars[k].name| == Min(MaxCompanyName, |jobs[k].company|)
      && bars[k].score == jobs[k].score && bars[k].title == jobs[k].title
  {
    BarsOf(jobs[..Min(MaxJobBars, |jobs|)])
  }

  function BarsOf(jobs: seq<JobMatch>): (bars: seq<JobScore>)
    ensures |bars| == |jobs|
    ensures forall k :: 0 <= k < |bars| ==>
      bars[k] == JobScore(Prefix(jobs[k].company, MaxCompanyName), jobs[k].score, jobs[k].title)
  {
    if jobs == [] then []
    else [JobScore(Prefix(jobs[0].company, MaxCompanyName), jobs[0].score, jobs[0].title)] + BarsOf(jobs[1..])
  }

  /** `questions?.length || 0`. */
  function QuestionCount(interview: Interview): nat {
    if interview.questions.Some? then |interview.questions.value| else 0
  }

  /** `interviewTimelineData`: one point per interview, in order. */
  function Timeline(interviews: seq<Interview>): (points: seq<TimelinePoint>)
    ensures |points| == |interviews|
    ensures forall k :: 0 <= k < |points| ==>
      && points[k].company == interviews[k].company
      && points[k].questions == QuestionCount(interviews[k])
      && (interviews[k].questions.None? ==> points[k].questions == 0)
  {
    if interviews == [] then []
    else [TimelinePoint(QuestionCount(interviews[0]), interviews[0].company)] + Timeline(interviews[1..])
  }

  /** The four stat cards. */
  function DashboardStats(profile: Option<Profile>, jobs: seq<JobMatch>, interviews: seq<Interview>): (s: Stats)
    ensures s.resumeUploaded == "Yes" <==> profile.Some? && Truthy(profile.value.resumeUrl)
    ensures s.resumeUploaded == "No" <==> !(profile.Some? && Truthy(profile.value.resumeUrl))
    ensures s.jobMatches == |jobs| && s.interviewsPrepped == |interviews|
    ensures Skills(profile).None? ==> s.skills == 0
    ensures Skills(profile).Some? ==> s.skills == |Skills(profile).value|
  {
    var skills := Skills(profile);
    Stats(if profile.Some? && Truthy(profile.value.resumeUrl) then "Yes" else "No",
          |jobs|, |interviews|,
          if skills.Some? then |skills.value| else 0)
  }

  /** The pie cell colour of the slice at `index`. */
  function CellColor(index: nat): (colour: string)
    ensures colour in Palette
    ensures index < |Palette| ==> colour == Palette[index]
  {
    Palette[index % |Palette|]
  }

  /** The colours repeat every six slices. */
  lemma CellColorCycles(index: nat)
    ensures CellColor(index + |Palette|) == CellColor(index)
  {
  }

  /** The first `RecentCount` items, in loaded order. */
  function Recent<T>(items: seq<T>): (shown: seq<T>)
    ensures |shown| == Min(RecentCount, |items|)
    ensures shown <= items
  {
    items[..Min(RecentCount, |items|)]
  }

  /** With at most six slices, no two slices of the skills pie share a colour. */
  lemma SkillColoursDistinct(profile: Option<Profile>, i: nat, j: nat)
    requires i < j < |SkillsData(profile)|
    ensures CellColor(i) != CellColor(j)
  {
    assert j < |Palette|;
    PaletteDistinct(i, j);
  }

  /** The six colours already differ in their first hex digit. */
  lemma PaletteDistinct(i: nat, j: nat)
    requires i < j < |Palette|
    ensures Palette[i] != Palette[j]
  {
    assert Palette[i][1] != Palette[j][1];
  }

  /** The skills chart never shows more slices than the skills stat counts,
      and shows them all up to six. */
  lemma SkillsChartMatchesStat(profile: Option<Profile>, jobs: seq<JobMatch>, interviews: seq<Interview>)
    ensures |SkillsData(profile)| == Min(MaxSkillSlices, DashboardStats(profile, jobs, interviews).skills)
  {
  }

  /** The recent-matches panel lists the same jobs, in the same order, as
      the first bars of the score chart. */
  lemma RecentJobsMatchBars(jobs: seq<JobMatch>, k: nat)
    requires k < |Recent(jobs)|
    ensures k < |JobScoresData(jobs)|
    ensures JobScoresData(jobs)[k].title == Recent(jobs)[k].title
    ensures JobScoresData(jobs)[k].score == Recent(jobs)[k].score
    ensures JobScoresData(jobs)[k].name <= Recent(jobs)[k].company
  {
  }

  /** With nothing loaded every chart is empty and every stat is zero. */
  lemma EmptyDashboard()
    ensures SkillsData(None) == [] && JobScoresData([]) == [] && Timeline([]) == []
    ensures DashboardStats(None, [], []) == Stats("No", 0, 0, 0)
  {
  }
}

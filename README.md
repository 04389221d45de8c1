# Résumé, interview and job pages: a Dafny model

This project models the client-side logic of a job-search web app built on
Next.js and Supabase. Candidates upload a PDF résumé, generate interview
questions, discover matching jobs and see a dashboard. The model covers
five files:

- the résumé upload component, which validates, replaces and deletes the résumé;
- the upload-and-parse page;
- the interview preparation page;
- the job discovery page;
- the dashboard's view derivations.

Each page whose handlers change state step by step is a class. Its fields
are the page's React state: `file`, `uploading`, `parsing`, `error`,
`success`, `generating`, `loading`, `discovering` and the loaded lists.
Each handler is a method. Remote calls are replaced by outcome parameters:
`Reply.Ok(value)`, or `Reply.Failed(message)`, where `""` stands for an
error object without a message. The displayed error is a string with `""`
for none.

Each class keeps a ghost `log` of the requests it awaited. An entry records
the request, whether it succeeded, and the progress flags shown while it was
awaited. The class invariant `Valid()` states the page's discipline over
that log. For example, the profile's `resume_url` is written only right
after the storage step it records succeeded, and the parse function is
called only right after a successful upload.

The string built-ins the pages rely on are written out in module `Text`:

- `split` with a string separator, with its round trip through `join` proved;
- `pop` of the pieces;
- `trim`, using the ECMAScript white-space and line-terminator set;
- `substring(0, n)`;
- decimal rendering of the upload time, proved injective.

Modules:

- `Remote`: outcomes, requests and `err.message || fallback`;
- `Text`: the string built-ins above;
- `ResumeFiles`: the PDF/size check, the stored name and the storage key;
- `ResumeUpload`, `UploadResumePage`, `InterviewPage`, `JobsPage`: the four pages with handlers;
- `Dashboard`: the dashboard derivations.

## Model

| member | source | states |
|---|---|---|
| Remote.ErrorText | components/ResumeUpload.tsx:111 | the shown error is the failure's message when it has one, otherwise the handler's fallback text |
| Text.JoinSplit | components/ResumeUpload.tsx:61 | `split` loses nothing: joining its pieces with the separator gives back the input |
| Text.SplitIsSingle | components/ResumeUpload.tsx:61-62 | `split` yields more than one piece exactly when the separator occurs in the input |
| Text.SplitPiecesFree | app/interview/page.tsx:79 | no piece produced by `split` contains the separator |
| Text.FirstPiece | components/ResumeUpload.tsx:63 | the first piece is a prefix of the input: the whole input when there is one piece, otherwise followed by the separator |
| Text.FirstPieceEndsAtFirst | components/ResumeUpload.tsx:61-62 | no occurrence of the separator starts inside the first piece |
| Text.SecondPiece | components/ResumeUpload.tsx:61-63 | the second piece is the first piece of what follows the first separator |
| Text.LastPiece | components/ResumeUpload.tsx:55 | the popped last piece is a suffix of the input |
| Text.SplitStep | components/ResumeUpload.tsx:55 | past the first separator the split goes on with what follows it: one piece fewer, the same last piece |
| Text.LastPieceAfter | components/ResumeUpload.tsx:55 | the last piece of `u + c + t` split at `c`, with `t` free of `c`, is exactly `t` |
| Text.SplitCharCount | app/interview/page.tsx:79 | splitting at a character gives one more piece than there are occurrences of it |
| Text.Trim | app/interview/page.tsx:80 | the result has no white space at either end |
| Text.TrimShrinks | app/interview/page.tsx:80 | trimming takes no character that is not in the input |
| Text.TrimKeeps | app/interview/page.tsx:80 | trimming keeps every character that is not white space |
| Text.Prefix | app/dashboard/page.tsx:133 | `substring(0, n)` is a prefix of at most `n` characters, exactly `n` when the input is longer, the whole input otherwise |
| Text.Decimal | components/ResumeUpload.tsx:56 | the rendered time stamp is a non-empty string of digits without a leading zero |
| Text.DecimalRoundTrip | components/ResumeUpload.tsx:56 | reading the rendered digits back gives the original number |
| Text.DecimalInjective | components/ResumeUpload.tsx:56 | different time stamps render differently |
| ResumeFiles.CheckResumeFile | components/ResumeUpload.tsx:26-36 | a file is accepted exactly when its type is `application/pdf` and its size is at most 5 MiB; the type error wins over the size error |
| ResumeFiles.Extension | components/ResumeUpload.tsx:55 | the extension is the text after the last `.`, contains no `.`, and is the whole name when there is no `.` |
| ResumeFiles.ExtensionKept | components/ResumeUpload.tsx:55-56 | the stored name keeps the original file's extension |
| ResumeFiles.StoredNameUnique | components/ResumeUpload.tsx:56 | for one user and one file, two upload times give the same stored name only when they are equal |
| ResumeFiles.StorageKey | components/ResumeUpload.tsx:61-63 | a key is found exactly when the URL contains `/resumes/`; it is the text after the first `/resumes/` up to the first `?`, the end or the first `/resumes/` that follows |
| ResumeFiles.KeyAfterFirstSegmentUnique | components/ResumeUpload.tsx:61-63 | that description of the key admits a single string |
| ResumeFiles.StorageKeyOfPublicUrl | components/ResumeUpload.tsx:125-130 | for a public URL `base/resumes/key?query` the recovered key is `key`, with or without a query |
| ResumeUpload.ResumeUploadPanel.constructor | components/ResumeUpload.tsx:13-16 | no file, no error, no success notice, nothing awaited |
| ResumeUpload.ResumeUploadPanel.HandleFileChange | components/ResumeUpload.tsx:21-41 | no selection changes nothing; a rejected file only sets the matching error; an accepted file is stored, clears the error and resets `success` |
| ResumeUpload.ResumeUploadPanel.HandleUpload | components/ResumeUpload.tsx:43-115 | without a file only the error is set; otherwise the old file is removed when a key is found, whatever the outcome; then the upload runs, then the profile update only if the upload succeeded; success clears the file; `uploading` is off on every exit |
| ResumeUpload.OldKey | components/ResumeUpload.tsx:59-63 | a key to remove exists exactly when the current URL is truthy and holds `/resumes/`, and it is the storage key of that URL |
| ResumeUpload.ResumeUploadPanel.Store | components/ResumeUpload.tsx:49-114 | `uploading` on, error and notice cleared, the old file removed when there is a key whatever the outcome, then the upload and the profile update; the log and the final state |
| ResumeUpload.ResumeUploadPanel.Publish | components/ResumeUpload.tsx:74-114 | the profile is pointed at the new public URL only after the upload succeeded; success clears the file; a failure shows its message or the fallback; `uploading` is off on every exit |
| ResumeUpload.ResumeUploadPanel.HandleDelete | components/ResumeUpload.tsx:117-155 | a falsy URL changes nothing; a URL without `/resumes/` fails with "Invalid resume URL" before any request; the profile is cleared only after the removal succeeded; `uploading` is off on every exit |
| UploadResumePage.UploadPath | app/upload-resume/page.tsx:49-51 | the upload path is `resumes/` followed by the stored file name |
| UploadResumePage.UploadResumePanel.constructor | app/upload-resume/page.tsx:9-13 | no file, both flags off, no parse result, no error |
| UploadResumePage.UploadResumePanel.HandleFileChange | app/upload-resume/page.tsx:21-32 | a PDF is stored and clears the error; any other type sets "Please select a PDF file" and drops the file; no size check |
| UploadResumePage.UploadResumePanel.RemoveFile | app/upload-resume/page.tsx:131-136 | the Remove button drops the file |
| UploadResumePage.UploadResumePanel.HandleUpload | app/upload-resume/page.tsx:34-85 | with no file nothing changes; with no user the error is set and `uploading` stays on; otherwise upload, then parse only after a successful upload; the two flags are never on together |
| UploadResumePage.UploadResumePanel.Send | app/upload-resume/page.tsx:53-84 | any failure sets its message or "An error occurred" and clears both flags; success stores the parse result with `parsing` off |
| InterviewPage.ParseTechStack | app/interview/page.tsx:78-81 | every entry is non-empty, has no surrounding white space and no comma; there are at most as many entries as commas plus one |
| InterviewPage.DropEmpty | app/interview/page.tsx:81 | the result holds only non-empty strings taken from the input, never more of them |
| InterviewPage.TrimmedPieces | app/interview/page.tsx:79-80 | one trimmed piece per comma plus one, each empty or a clean entry |
| InterviewPage.DropEmptyKeepsOrder | app/interview/page.tsx:81 | filtering keeps input order and keeps every non-empty string as often as it occurs: the result's multiset is the input's with the empty string removed |
| InterviewPage.TechStackKeepsEntries | app/interview/page.tsx:78-81 | the parsed stack is the trimmed pieces in input order, with exactly the empty ones dropped and repeated entries kept |
| InterviewPage.Toggled | app/interview/page.tsx:105-113 | toggling flips membership of the index and of no other |
| InterviewPage.ToggleTwice | app/interview/page.tsx:105-113 | toggling the same index twice restores the set |
| InterviewPage.DifficultyColor | app/interview/page.tsx:115-122 | `easy`, `medium` and `hard` each get their own class and nothing else gets it; every other value gets the gray default |
| InterviewPage.TypeColor | app/interview/page.tsx:133-140 | `technical`, `behavioral` and `system_design` each get their own gradient; every other value gets the gray default |
| InterviewPage.InterviewPanel.constructor | app/interview/page.tsx:25-32 | empty fields, lists and set, not generating |
| InterviewPage.InterviewPanel.Edit | app/interview/page.tsx:25-27 | the three input fields take the typed values |
| InterviewPage.InterviewPanel.LoadHistory | app/interview/page.tsx:43-60 | with a user, the latest 10 interviews replace the history, null read as none; a failure leaves the history and the error as they were |
| InterviewPage.InterviewPanel.GenerateInterview | app/interview/page.tsx:62-103 | an empty company or role sets its error with no request and no `generating`; a missing user sets "You must be logged in"; the generator receives the parsed stack; success sets the questions and reloads the history; `generating` is off on every exit |
| InterviewPage.InterviewPanel.Run | app/interview/page.tsx:71-99 | without a user "You must be logged in" and no generator call; with one, the generator is called once with the parsed stack and the reload follows only its success |
| InterviewPage.InterviewPanel.Generate | app/interview/page.tsx:84-99 | a failure shows its message or "Failed to generate interview questions"; success stores the questions (none if absent) and reloads |
| InterviewPage.InterviewPanel.ToggleQuestion | app/interview/page.tsx:105-113 | the expanded set becomes the toggled set |
| JobsPage.Tier | app/jobs/page.tsx:89-94 | every score falls in exactly one of four tiers: 80 and above, [60,80), [40,60), below 40 |
| JobsPage.ScoreColor | app/jobs/page.tsx:89-94 | the gradient is the one of the score's tier |
| JobsPage.ScoreBadgeColor | app/jobs/page.tsx:96-101 | the badge is the one of the score's tier |
| JobsPage.TierMonotone | app/jobs/page.tsx:90-92 | a higher score never gets a lower tier |
| JobsPage.ClassifiersAgree | app/jobs/page.tsx:89-101 | the two classifiers give two scores the same class exactly when the scores share a tier |
| JobsPage.QueryParam | app/jobs/page.tsx:73 | an empty search query is not sent, any other is sent as typed |
| JobsPage.JobsPanel.constructor | app/jobs/page.tsx:21-25 | no jobs, no flags, no error, empty query |
| JobsPage.JobsPanel.SetSearchQuery | app/jobs/page.tsx:25 | the query takes the typed value |
| JobsPage.JobsPanel.LoadJobs | app/jobs/page.tsx:37-56 | with a user, the fetched matches replace the list wholesale, null read as none; a failure stores its message as it is; `loading` is off on every exit |
| JobsPage.JobsPanel.DiscoverJobs | app/jobs/page.tsx:58-87 | the error is cleared first; with no user "You must be logged in" and no discovery request; a failure shows its message or "Failed to discover jobs"; success reloads the jobs; `discovering` is off on every exit |
| Dashboard.SkillsData | app/dashboard/page.tsx:127-130 | the first min(6, n) skills in order, each worth 1; none when the profile or its skills are missing |
| Dashboard.SlicesOf | app/dashboard/page.tsx:127-130 | one slice per skill, in order |
| Dashboard.JobScoresData | app/dashboard/page.tsx:132-136 | the first min(5, n) matches in order; each name is the first min(15, length) characters of the company; score and title are copied |
| Dashboard.BarsOf | app/dashboard/page.tsx:132-136 | one bar per match, in order |
| Dashboard.Timeline | app/dashboard/page.tsx:138-142 | one point per interview in order, with the company and the question count, 0 when questions are missing |
| Dashboard.DashboardStats | app/dashboard/page.tsx:146-175 | "Yes" exactly when the profile's résumé URL is truthy, else "No"; the job and interview counts are the list lengths; the skills count is 0 without skills |
| Dashboard.CellColor | app/dashboard/page.tsx:144 | every slice colour comes from the six-colour palette, the first six in palette order |
| Dashboard.CellColorCycles | app/dashboard/page.tsx:290 | colours repeat every six slices |
| Dashboard.SkillColoursDistinct | app/dashboard/page.tsx:127-130 | no two slices of the skills pie share a colour |
| Dashboard.PaletteDistinct | app/dashboard/page.tsx:144 | the six palette colours are pairwise different |
| Dashboard.Recent | app/dashboard/page.tsx:360 | the recent panels show the first min(3, n) items in loaded order |
| Dashboard.SkillsChartMatchesStat | app/dashboard/page.tsx:127-130 | the skills pie shows min(6, skills stat) slices |
| Dashboard.RecentJobsMatchBars | app/dashboard/page.tsx:132-136 | the recent-matches panel and the first bars of the score chart show the same jobs in the same order |
| Dashboard.EmptyDashboard | app/dashboard/page.tsx:127-175 | with nothing loaded every chart is empty and the stats read No, 0, 0, 0 |

## Left out

- All Supabase calls are outcome parameters: authentication, storage upload, removal and public URLs, table reads and updates, and function invocations. `getPublicUrl` is a parameter too.
- `Date.now()` is the parameter `now`. Date formatting with `toLocaleDateString` is not modelled, so timeline points carry no date. `(size / 1024 / 1024).toFixed(2)` is not modelled.
- `router.refresh()`, the delayed refresh in components/ResumeUpload.tsx:106-108, redirects and the cleared file input are navigation or DOM effects.
- Each handler runs to completion. React's interleaving of handlers while a request is awaited is not modelled. Neither is the first `loadJobs` or `loadHistory` overlapping a user's action.
- `loadDashboardData` in app/dashboard/page.tsx:79-124 is I/O. The dashboard's derivations take the loaded profile and lists as inputs.
- Strings are sequences of code points. JavaScript's `substring` and `length` count UTF-16 units, so they differ for characters outside the Basic Multilingual Plane.
- Scores are `real`. NaN scores, which fail every threshold and land in the lowest tier, are not modelled.
- Dashboard.CellColor: stated for indices below six and through CellColorCycles, not as one closed formula.
- InterviewPage.InterviewPanel.GenerateInterview: a successful invocation that returns `null` data throws in `data.questions`. It is modelled as data present, with its questions present or missing.
- UploadResumePage.UploadResumePanel.HandleUpload: a successful parse stores its data (possibly null) as it is. The shape of the parse result is not modelled.
- The `console.error` calls in the catch blocks (components/ResumeUpload.tsx:69, 110 and 150, app/interview/page.tsx:58, app/dashboard/page.tsx:120) are logging only and are not modelled.
- `getTypeIcon` and all other JSX, chart components and Tailwind class strings other than the classifier results are UI.
- components/Navigation.tsx and components/LoadingSkeleton.tsx are static markup.
- lib/api/index.ts holds one-call wrappers over the Supabase client and is left out. Its file-name construction duplicates app/upload-resume/page.tsx:49-51, which is modelled.
- supabase/functions/parse_resume/index.ts is a server-side handler that returns a fixed stub, so it is left out.

# SmartCourse: publishing, chunking, enrolment and ordering

SmartCourse is a course platform. Publishing a course cuts its lessons into chunks in a background
workflow that survives crashes; students enrol under capacity limits and prerequisites; instructors
edit, reorder and republish while all of that goes on. This project models the parts where those
activities meet and proves what they guarantee.

- `Text.dfy`, `Splitting.dfy`: Python's `split` and `strip`, and the two regular expressions of the
  chunker as explicit scanners.
- `Chunking.dfy`: the chunker, as functions and as the loops that compute them.
  `ChunkingParts.dfy`, `ChunkingLaws.dfy`: what every chunk list satisfies. `ChunkingCuts.dfy`,
  `ChunkingOverlap.dfy`: what parts and chunks are, told without the loops, and that this determines
  the chunks.
- `ChunkStore.dfy`: the chunk table and the hash-keyed reconciliation of one lesson.
- `Publishing.dfy`, `PublishEndpoint.dfy`: the publishing service, the repository, the chunking
  transaction and the request that starts a run.
- `PublishWorkflow.dfy`: the workflow as a function of its recorded history, and its code.
- `PublishProtocol.dfy`: one course with its runs, crashes, retries, edits and requests, and other
  courses writing to the same table. `ReadingOrder.dfy` lists a course's lessons, and
  `Activities.dfy` shows that the code of each activity takes the protocol's step.
  `PublishRuns.dfy` has the guarantees over whole runs, `PublishRepeats.dfy` what holds when no text
  repeats a piece, `PublishBlocked.dfy` exactly when a commit is refused and what follows,
  `PublishOutcome.dfy` exactly when a publish succeeds, `PublishFailures.dfy` what one that fails
  leaves behind, `PublishAttempts.dfy` how often a lesson is tried, `PublishRescue.dfy` that no
  course is lost for good, and `PublishRecords.dfy` what histories, requests and the chunks of
  removed lessons keep to.
- `ChunkingRepeats.dfy`: texts that are cut into equal chunks.
- `Enrollment.dfy`: enrolling and leaving, as code and as transactions interleaved statement by
  statement under read committed with row locks. `EnrollmentRecords.dfy`: what enrolling asks of a
  student's record, and what becomes of the record.
- `Ordering.dfy`: reordering, and appending by MAX+1 under the parent's lock.
- `Prerequisites.dfy`: the prerequisite graph and its checks. `PrerequisiteLoops.dfy`: which loops
  the checks let through, and what a loop costs.
- `Options.dfy`: an option type and two facts about sequences.

Where code and documentation disagree, the model follows the code:

- The chunker's docstring says token estimates are "rounded up"; the code rounds to nearest, halves
  to even. `RoundedUpIff` says for which word counts the two agree.
- `chunk_one_lesson` is documented as idempotent because a second run finds every hash and changes
  nothing, and `mark_failed` keeps chunks so that the next attempt reuses them. A commit is refused
  exactly when the lesson holds two rows of one digest that its text still wants, the first at a
  place the text still fills (`AcceptedIffNoStray`, `RefusedIff`); over a committed result, running
  again is harmless exactly for exact rows and pairwise distinct pieces (`RerunLaw`). So a course
  that failed, or lost one report, after a lesson that repeats a piece was committed cannot be
  published until that lesson's text resolves the clash (`LaterFailureBlocks`, `LostCommitBlocks`,
  `StuckUntilResolved`), and every setting of the chunker has such lessons (`EverySettingCanBlock`).
  Trying again does succeed, given a worker that stays up, exactly when no lesson of the course has
  such rows (`PublishSucceedsIff`).
- `mark_failed` and the workflow's handler document that a republish that fails leaves the course
  exactly as it was, with the chunks from last time. Lessons committed before the failure keep their
  new chunks (`FailureStopsAt`, `FailedRepublishChanges`). Every failure leaves the rows as found
  exactly when each lesson the run gets to commit was exact already for a text that repeats no piece
  (`LeavesIff`).
- Reconciliation is documented to leave what a rebuild would. It does exactly when no two stored
  rows share a digest that is still wanted (`ReconcileIsExactIff`, `LeftoverExample`).
- `_reposition` says an order must list every id "exactly once" but compares sets, so an order that
  repeats ids is accepted (`AcceptedOrder`, `OvertakenIff`, `OvertakenBeforeInsertIff`,
  `RepeatedOrderCollides`).
- `docs/SCHEMA.md` (lines 147-160) promises that circular prerequisites of any length are rejected by
  a walk of the graph. The service looks one step back, as its own comment, the repository's README
  and its requirements say. A list closes a loop exactly when that walk would find one
  (`AcyclicIff`); the loops let through are those of three courses or more, all of them
  (`LoopsAreLong`, `LongerLoopsAccepted`), and of two when calls overlap (`RacingCallsIff`).

## Model

| member | source | states |
|---|---|---|
| Text.WordsJoined | src/smartcourse/services/chunking.py:49 | `str.split()` adds up: text joined by any non-empty whitespace has the words of its two halves, in order |
| Text.StripKeepsWords | src/smartcourse/services/chunking.py:76 | Stripping a text keeps its words |
| Splitting.BreakIsLongestMatch | src/smartcourse/services/chunking.py:31 | The hand-written scanner finds a paragraph break exactly where the expression `\n\s*\n` matches, and takes the longest match |
| Splitting.ParagraphsKeepWords | src/smartcourse/services/chunking.py:93-96 | Splitting into paragraphs loses, adds and reorders no word |
| Splitting.ParagraphsAreCutAtBreaks | src/smartcourse/services/chunking.py:93 | Splitting at the paragraph expression: putting the gaps back gives the text, and the gaps are its successive longest matches, none before or between or after them |
| Splitting.OnlyOneParagraphSplit | src/smartcourse/services/chunking.py:30-31 | Those laws determine the split: no other pieces and gaps of the same text meet them |
| Splitting.SentencesKeepWords | src/smartcourse/services/chunking.py:109-112 | Splitting into sentences loses, adds and reorders no word |
| Splitting.SentencesAreCutAtEnds | src/smartcourse/services/chunking.py:33-36 | Splitting at the sentence expression: putting the gaps back gives the text, every gap is a whole run of whitespace right after `.`, `!` or `?`, and no piece holds another such place |
| Splitting.OnlyOneSplit | src/smartcourse/services/chunking.py:33-36 | Those laws determine the split: no other pieces and gaps of the same text meet them |
| Splitting.SentencesAreUncut | src/smartcourse/services/chunking.py:109-112 | No sentence, stripped, holds an end mark followed by whitespace |
| Splitting.SentencesAreTrimmedSlices | src/smartcourse/services/chunking.py:110-111 | Every sentence is trimmed and a verbatim stretch of the text |
| Splitting.ParagraphsAreUnbroken | src/smartcourse/services/chunking.py:93-96 | Every paragraph is trimmed and holds no break |
| Splitting.ParagraphsRoundTrip | src/smartcourse/services/chunking.py:87-96 | A text whose only breaks are single blank lines is the join of its paragraphs, character for character |
| Chunking.SplitToFit | src/smartcourse/services/chunking.py:80-121 | The loop over paragraphs computes the parts function, for every text and ceiling |
| Chunking.PiecesOfParagraph | src/smartcourse/services/chunking.py:108-116 | The loop over sentences keeps the ones that fit and word-cuts the others |
| Chunking.LabelPieces | src/smartcourse/services/chunking.py:118-119 | The first piece of a paragraph opens a paragraph, every later one continues it |
| Chunking.StartNext | src/smartcourse/services/chunking.py:177-215 | The backward loop with its two breaks computes the opening of the next chunk |
| Chunking.Assemble | src/smartcourse/services/chunking.py:137-174 | The greedy loop computes the packing function |
| Chunking.ChunkText | src/smartcourse/services/chunking.py:53-77 | Missing and blank texts give no chunks, all others are stripped, split and packed |
| ChunkingParts.EstimateIsNearest | src/smartcourse/services/chunking.py:45-50 | The estimate is the integer nearest to 1.3 times the number of words, ties to even, and at least one |
| ChunkingParts.RoundTenthsIsNearestEven | src/smartcourse/services/chunking.py:50 | The integer form of `round` is within half a unit and sends halves to the even neighbour |
| ChunkingParts.RoundedUpIff | src/smartcourse/services/chunking.py:45-50 | The estimate is rounded up, as documented, if and only if the number of words modulo 20 is one of eleven residues |
| ChunkingParts.TokensMonotone | src/smartcourse/services/chunking.py:49-50 | More words never cost fewer tokens |
| ChunkingParts.PerChunkFits | src/smartcourse/services/chunking.py:131 | A word cut of `int(max_tokens / 1.3)` words meets every ceiling of at least one token, in spite of the rounding |
| ChunkingParts.SplitToFitLaw | src/smartcourse/services/chunking.py:80-134 | Every part meets the ceiling (or is one word, if no text could), and the parts carry exactly the words of the text |
| ChunkingLaws.CeilingHolds | src/smartcourse/services/chunking.py:53-77 | For every text, ceiling and overlap: all chunks meet the ceiling if and only if it is at least one token or the text is blank |
| ChunkingCuts.PartsAreCut | src/smartcourse/services/chunking.py:80-134 | The parts are those of the paragraphs in turn: one that meets the ceiling is one part, any other is cut into its sentences, and a sentence that does not meet it into blocks of as many words as may; only the first part of a paragraph has a blank line before it |
| ChunkingOverlap.ChunksAreChunked | src/smartcourse/services/chunking.py:137-215 | Every chunk holds the next parts in order; each but the first opens, verbatim, with the most closing sentences of the chunk before that meet the overlap budget and, with the part that follows, the ceiling (none with the overlap off); and no chunk is closed while the next part would still fit |
| ChunkingOverlap.OnlyOneChunking | src/smartcourse/services/chunking.py:137-215 | Those laws leave no choice: two lists of chunks that obey them over the same parts are equal, part by part |
| ChunkingOverlap.ChunksDecompose | src/smartcourse/services/chunking.py:137-215 | The words of each chunk are those of the repeated sentences, a strict suffix of the previous chunk's words, and then a non-empty run of new words; the runs together are the words of the text; only a blank text gives no chunk |
| ChunkingLaws.NoOverlapNoRepeat | src/smartcourse/services/chunking.py:204-215 | With the overlap off the chunks' words are the text's words, none repeated |
| ChunkingLaws.NeverCutsWhatFits | src/smartcourse/services/chunking.py:93-121 | A paragraph that fits, and a fitting sentence of one that does not, occurs verbatim in some chunk |
| ChunkingLaws.ChunksAreFixedPoints | src/smartcourse/services/chunking.py:53-174 | Chunking any chunk again with the same ceiling and any overlap returns exactly that chunk |
| ChunkingLaws.PackingIsOptimal | src/smartcourse/services/chunking.py:137-174 | With the overlap off, no split of the same parts into contiguous groups that fit has fewer groups than the chunker makes, and the chunks are such a split |
| ChunkingRepeats.EveryCeilingRepeats | src/smartcourse/services/chunking.py:124-174 | Under every ceiling and every overlap some text is cut into two equal chunks: a plain word said twice as often as the word cut takes at once |
| ChunkingRepeats.ChunksAreWordsIff | src/smartcourse/services/chunking.py:49-50 | The chunks of every text are its words if and only if the ceiling is below three tokens, whatever the overlap |
| ChunkStore.ReconcileIsExactIff | src/smartcourse/services/publishing.py:228-273 | Reconciling leaves exactly what deleting everything and inserting afresh would (positions 0..n-1 once each, the pieces in order, nothing else) if and only if no two stored rows share a digest the new pieces want |
| ChunkStore.AcceptedIffNoStray | src/smartcourse/infra/db/models/content.py:139-157 | For every stored state and every list of pieces, the position constraint accepts the reconciled rows if and only if no row that is still wanted, but is not the last of its digest, stands at a place the pieces fill |
| ChunkStore.RebuiltCovers | src/smartcourse/services/publishing.py:243-264 | Whatever was stored, every piece ends up with a row at its place |
| ChunkStore.RebuiltRows | src/smartcourse/services/publishing.py:243-268 | Every row left carries the digest of its own text, belongs to the lesson and is wanted |
| ChunkStore.ReuseIsMaximal | src/smartcourse/services/publishing.py:240-268 | The stored rows that keep their id are exactly those still wanted, changed in position alone; inserts number the pieces less the shared digests |
| ChunkStore.RerunLaw | src/smartcourse/workflows/activities.py:95-97 | Re-execution over a committed result is accepted by the position constraint if and only if the rows are exact and the pieces pairwise distinct, and when accepted it changes nothing |
| ChunkStore.RebuiltLeavesIff | src/smartcourse/services/publishing.py:228-273 | A reconciliation leaves a lesson's rows as it found them if and only if they were exact already and the pieces are pairwise distinct |
| ChunkStore.SettledCount | src/smartcourse/services/publishing.py:228-273 | A committed lesson holds at least as many rows as the number returned, and as many exactly when its rows are exact |
| PublishRuns.HeldIsCount | src/smartcourse/infra/db/repositories/chunk.py:52-60 | The count for a whole course is the sum over its lessons of the rows each holds |
| ChunkStore.AfterChunkingFrame | src/smartcourse/services/publishing.py:228-273 | Other lessons' rows are untouched, and the table stays valid exactly when this lesson's positions are distinct |
| ChunkStore.CountsStayTrue | src/smartcourse/services/publishing.py:252-262 | `token_count` stays the estimate of the row's own text |
| ChunkStore.LeftoverExample | src/smartcourse/services/publishing.py:240-266 | The rows B, A, A re-chunked to the single piece A keep one A too many, in a commit the database accepts |
| Publishing.ExactReadsBack | src/smartcourse/infra/db/repositories/chunk.py:21-32 | Exact rows read in position order are the pieces, one each |
| Publishing.ChunkRepository.ExistingForLesson | src/smartcourse/infra/db/repositories/chunk.py:21-32 | Lists every row of the lesson once, by position |
| Publishing.ChunkRepository.DeleteMany | src/smartcourse/infra/db/repositories/chunk.py:37-39 | The loop deletes the listed rows and no other |
| Publishing.IndexByHash | src/smartcourse/services/publishing.py:240 | Of the stored rows sharing a digest, the index keeps the last in position order |
| Publishing.PlacePieces | src/smartcourse/services/publishing.py:243-264 | The loop takes over the indexed row the first time a digest is seen and inserts a row otherwise |
| Publishing.StaleRows | src/smartcourse/services/publishing.py:266 | The rows to delete are those of the lesson whose text is no longer wanted |
| Publishing.ChunkLesson | src/smartcourse/services/publishing.py:203-273 | The whole loop with its early exit leaves the reconciled table and returns the number of pieces |
| Publishing.Database.ChunkOneLesson | src/smartcourse/workflows/activities.py:85-117 | One transaction: a missing lesson is nothing to do, a commit that breaks the position constraint leaves no trace, any other commits the reconciled table |
| Publishing.AssertCanPublish | src/smartcourse/services/publishing.py:67-125 | Goes on exactly for a caller who may publish a course not being published; which refusal is given, exactly, so that unseen courses are reported absent |
| Publishing.BeginPublish | src/smartcourse/services/publishing.py:146-178 | Answers whether the course was not ready, and leaves a ready course as it is |
| Publishing.BeginIsRepeatable | src/smartcourse/services/publishing.py:175-178 | Retried after its own commit, `begin_publish` gives the answer it gave and changes nothing more |
| PublishEndpoint.PublishCourse | src/smartcourse/api/routers/courses.py:230-251 | Accepted exactly when the checks pass and no run of this course is live; each refusal is the one the checks give, and busy exactly when they pass and a run is live; acceptance starts one run of this course alone, refusal starts none |
| ReadingOrder.IdsForCourse | src/smartcourse/infra/db/repositories/course.py:346-365 | Lists every lesson of the course once: of any two, the one whose module stands first comes first, and within a module the one that stands first |
| ReadingOrder.OrderIsModuleByModule | src/smartcourse/infra/db/repositories/course.py:359-364 | Such a list is the modules' own lists, each with exactly the module's lessons by rising position, one behind the other by the modules' rising positions |
| ReadingOrder.OnlyOneOrder | src/smartcourse/infra/db/repositories/course.py:359-364 | With positions distinct there is only one such list |
| Activities.Store.Perform | src/smartcourse/workflows/activities.py:46-172 | Each activity, run to its commit on the real rows, raises exactly when the protocol says, reports the protocol's result and leaves the protocol's next state |
| Activities.AttemptsArePerformable | src/smartcourse/workflows/publishing.py:72-128 | Every attempt that can be made in any run of the system finds what that needs: a pending lesson the course has had, a valid table, a run not over |
| PublishWorkflow.Run | src/smartcourse/workflows/publishing.py:50-128 | The sequential code, its loop and its handler, executed over any recorded history, stands where the replay function says |
| PublishWorkflow.ReplayAfterCrash | src/smartcourse/workflows/publishing.py:7-12 | Re-running any prefix from the top and continuing is the same as never having crashed |
| PublishWorkflow.ReadyOnlyAfterEverything | src/smartcourse/workflows/publishing.py:81-103 | A run waits for `mark_ready` if and only if its history is a first publish in which every listed lesson succeeded, and its total is the sum recorded |
| PublishWorkflow.TotalIsReturned | src/smartcourse/workflows/publishing.py:99-103 | The total summed up before `mark_ready` is the total the run returns |
| PublishWorkflow.NeverBothEndings | src/smartcourse/workflows/publishing.py:99-128 | No history of this code holds both `mark_ready` and `mark_failed` |
| PublishWorkflow.WorkflowIdsDiffer | src/smartcourse/workflows/publishing.py:32-44 | Different courses never share a workflow id |
| PublishRuns.NeverStranded | src/smartcourse/workflows/publishing.py:72-128 | In every reachable state `publishing` means one live run that took it for a first publish, the date is set exactly when ready, and a run that ends leaves ready or failed according to its kind, stale status checks included |
| PublishAttempts.FailsAfterThree | src/smartcourse/workflows/publishing.py:84-97 | Whenever a lesson's failure is recorded, in any interleaving, exactly three attempts were made since the result before it was, for the same lesson, and none of them reported |
| PublishAttempts.RetriedTwice | src/smartcourse/workflows/publishing.py:84-97 | After one or two attempts that report nothing the run waits for the same lesson with nothing recorded; after a third the failure is |
| PublishAttempts.SurvivesTwoCrashes | src/smartcourse/workflows/publishing.py:84-97 | From a newly created course, for every lesson: two attempts die before their commit and the course still becomes ready |
| PublishRecords.HistoryOnlyGrows | src/smartcourse/workflows/publishing.py:32-44 | Until a live run has ended it stays the live one, whatever is requested, and its history is only added to |
| PublishRecords.RequestsBalance | src/smartcourse/api/routers/courses.py:230-251 | Every request that passed its check starts or goes away, at most once, and none passes while the course is on `publishing` |
| PublishRecords.RemovedLessonsHaveNone | src/smartcourse/infra/db/models/content.py:103-107 | In every reachable state a lesson that was removed has no chunks, even if a run still had it to chunk |
| PublishRuns.RunsFinish | src/smartcourse/workflows/publishing.py:105-128 | From every sound state with a live run, whatever crashes and refusals came before, a worker that stays up ends the run in finitely many attempts and leaves the course ready or failed |
| PublishRuns.ReadyIsAbsorbing | src/smartcourse/services/publishing.py:175-200 | Once ready, nothing moves the status; once past `mark_ready`, nothing alters the date |
| PublishRuns.EndToEnd | src/smartcourse/workflows/publishing.py:72-103 | When a course becomes ready, in any interleaving: no lesson changed since the publish began, every lesson has its chunks, each lesson is exact if and only if the rows found at the start were reconcilable, and the total is at most the rows held, with equality if and only if every lesson is exact |
| PublishRuns.UneditedRun | src/smartcourse/workflows/publishing.py:72-103 | A run of either kind, republish included, during which nobody edits leaves every lesson of the course published, with the same laws for exactness and for the total it returns |
| PublishRuns.StepKeepsTrack | src/smartcourse/services/course.py:145-150 | While a run is live, failing ones included, no step of anybody but an edit changes the lessons or undoes a chunked one |
| PublishRuns.PublishingKeepsTrack | src/smartcourse/services/course.py:145-150 | While the course is on `publishing`, no step at all does |
| PublishRuns.NothingIsUndone | src/smartcourse/workflows/activities.py:153-158 | From any state on, until somebody edits: the lessons stay, each has the rows it had or those of a commit for its text, and a commit is never undone; across crashes, failures, ends of runs and any number of further runs |
| PublishRuns.CommitLeavesIff | src/smartcourse/workflows/activities.py:95-97 | A committed lesson has the rows it had before if and only if those were exact already and its pieces are pairwise distinct |
| PublishRuns.CommitDoes | src/smartcourse/workflows/activities.py:85-117 | A first commit for a lesson reconciles it, a repeated one changes nothing |
| PublishRuns.BeganAt | src/smartcourse/services/publishing.py:174-178 | Every stretch of `publishing` was opened by one `begin_publish`; from there no lesson has changed, each is chunked or as it was, and the run's count and list add up to the course, or the run is failing |
| PublishRepeats.ExactPublish | src/smartcourse/workflows/publishing.py:81-103 | If no text is ever cut into repeating pieces, a course that becomes ready has exactly the pieces of every lesson, in order, and the total returned is the number of rows it holds |
| PublishBlocked.RefusedIff | src/smartcourse/workflows/activities.py:95-97 | In every state, an attempt to chunk a lesson raises if and only if the lesson holds two rows of one digest that its text still wants, the first at a place the text still fills |
| PublishBlocked.LostCommitBlocks | src/smartcourse/workflows/activities.py:95-97 | A worker that dies between the commit of a lesson that repeats a piece and its report leaves the course blocked |
| PublishBlocked.LaterFailureBlocks | src/smartcourse/workflows/activities.py:153-158 | Once a lesson that repeats a piece was committed at some point, the course is blocked at any later point, no edit in between, at which it is not ready and no run is past the lesson: the publish failed, is failing or is being tried again |
| PublishBlocked.StuckUntilResolved | src/smartcourse/workflows/activities.py:153-158 | From a blocked course, in any interleaving and however often it is published, becoming ready takes first that the lesson is removed, or given a text that no longer wants the digest or no longer reaches the first row's place; no other edit helps |
| PublishOutcome.SucceedsIff | src/smartcourse/workflows/publishing.py:72-128 | From every sound state with a live run a worker that stays up ends the run, and it returns if and only if it is not failing already and every lesson it still has to chunk would be accepted as the rows stand now |
| PublishOutcome.ChunkableIff | src/smartcourse/infra/db/models/content.py:139-157 | A chunking attempt gets through if and only if, for a lesson that exists, no row still wanted but not the last of its digest stands at a place the text fills; a condition on the lesson's stored rows and text alone |
| PublishOutcome.PublishSucceedsIff | src/smartcourse/workflows/publishing.py:72-128 | A publish started now under such a worker returns if and only if that holds of every lesson of the course; the course is then ready if so or if it was ready before, and failed otherwise |
| PublishOutcome.ReturnedMeansChunkable | src/smartcourse/workflows/publishing.py:81-103 | In any interleaving, an unedited run of either kind that returns found every lesson so |
| PublishRepeats.NeverRefused | src/smartcourse/workflows/activities.py:95-97 | If no text is ever cut into repeating pieces, no chunking attempt in any reachable state is refused |
| PublishOutcome.RunsReturn | src/smartcourse/workflows/publishing.py:72-103 | Under that condition a worker that stays up makes every run return that is not failing already, from every reachable state |
| PublishRescue.CanAlwaysBeReady | src/smartcourse/workflows/activities.py:153-158 | From every sound state there is a way to ready with all the lessons: let a live run end, leave empty the texts of the lessons that would be refused, if any, and publish again |
| PublishFailures.FailureStopsAt | src/smartcourse/workflows/publishing.py:82-97 | A run that fails, of either kind and in any interleaving, stopped at one lesson: those before it are chunked for their texts, those after it have the rows the run found, the lesson itself either |
| PublishFailures.LeavesIff | src/smartcourse/workflows/activities.py:164-166 | Every way a run can fail leaves all the rows it found if and only if each lesson it gets to commit was exact already for a text that repeats no piece; a lesson is got to when it and all before it are accepted |
| PublishFailures.FailedRepublishChanges | src/smartcourse/workflows/publishing.py:116-120 | A run from a newly created course to a failed republish that left the lesson with rows it did not find, for every lesson with something to chunk |
| PublishBlocked.BlockedIsReached | src/smartcourse/workflows/publishing.py:72-97 | From a newly created course, any lesson that repeats a piece and one lost report lead to a blocked course |
| PublishBlocked.EverySettingCanBlock | src/smartcourse/config.py:63-68 | Under every ceiling and overlap there is a lesson for which that happens |
| Enrollment.EnrollmentService.Enroll | src/smartcourse/services/enrollment.py:27-91 | Accepted exactly when every rule holds, adding one active row; each refusal identifies its rule and that the cheaper ones held, and the prerequisites reported missing are exactly those without a completed row of the student's |
| EnrollmentRecords.MayEnrollIff | src/smartcourse/services/enrollment.py:41-91 | The rules, from the rows themselves: a published course, a student, no active row of theirs in it, a completed row of theirs in each prerequisite, and fewer active rows than the capacity |
| EnrollmentRecords.OnlyTheQualified | src/smartcourse/services/enrollment.py:160-187 | In every schedule, a transaction past the prerequisite check, up to its commit, belongs to a student with a completed row, still there, in each prerequisite; a commit adds one active row under an unused id |
| EnrollmentRecords.HistoryIsKept | src/smartcourse/services/enrollment.py:94-113 | No schedule removes an enrolment or gives it to another student or course, and one completed or withdrawn stays so |
| EnrollmentRecords.StepOnRow | src/smartcourse/services/enrollment.py:94-113 | Exactly which step changes an existing enrolment and how: its completion, and a withdrawal of it that finds it not completed meanwhile |
| EnrollmentRecords.LeavingAlone | src/smartcourse/services/enrollment.py:94-113 | The statements of a withdrawal that meets nobody amount to `withdraw` |
| Enrollment.EnrollmentService.Withdraw | src/smartcourse/services/enrollment.py:94-113 | The one active row becomes withdrawn and stays; without one, not found |
| Enrollment.EnrollmentService.GetActive | src/smartcourse/infra/db/repositories/enrollment.py:73-87 | Finds the active row exactly when there is one |
| Enrollment.AloneIsEnroll | src/smartcourse/services/enrollment.py:41-81 | The statements of a transaction that meets nobody amount to `enroll` |
| EnrollmentRecords.RaceForOneSeat | src/smartcourse/services/enrollment.py:190-223 | A schedule in which two students pass every check for one seat before either writes: the first to lock the course gets it, the other counts it taken and is turned away |
| Enrollment.CapacityHolds | src/smartcourse/services/enrollment.py:190-223 | In every schedule committed active enrolments and uncommitted inserts never exceed the capacity, and whoever is turned away finds every seat taken by a committed enrolment |
| Enrollment.CommitKeepsCapacity | src/smartcourse/services/enrollment.py:202-209 | A commit fills a seat counted as free that no other transaction counted on |
| Enrollment.OneActiveEnrolment | src/smartcourse/services/enrollment.py:59-81 | No schedule gives a student two active enrolments in a course, committed or waiting to commit |
| Enrollment.NobodyEverGetsIn | src/smartcourse/services/enrollment.py:160-187 | If every course of a set requires another of it and nobody is in or through one, no schedule ever enrols anybody in any of them |
| Ordering.Reposition | src/smartcourse/services/course.py:174-195 | Accepted exactly when the order names the items and nothing else; then each item stands where it is listed last; refused, nothing moves |
| Ordering.AcceptedOrder | src/smartcourse/services/course.py:174-195 | Any accepted order leaves distinct positions, and exactly 0..n-1 in the given order if and only if nothing is listed twice |
| Ordering.AppendsNeverCollide | src/smartcourse/infra/db/repositories/course.py:291-317 | With appends interleaved statement by statement and reorders and deletions in between, positions stay distinct and no append is refused, if every order lists each id once |
| Ordering.CommitAppends | src/smartcourse/infra/db/repositories/course.py:291-317 | In every such schedule a commit puts its item beyond every other, and every other stays where it stood |
| Ordering.AppendAlone | src/smartcourse/infra/db/repositories/course.py:291-317 | The statements of an append that meets nobody leave its item at MAX+1 and the rest as it was |
| Ordering.ItemsAdd | src/smartcourse/infra/db/repositories/course.py:291-317 | The items are as many as at the start, one more for each commit and one fewer for each deletion |
| Ordering.AlwaysDistinct | src/smartcourse/infra/db/models/course.py:280-287 | Whatever the orders list, positions stay distinct: a commit that would break that is refused and moves nothing |
| Ordering.SomeNext | src/smartcourse/infra/db/repositories/course.py:314-317 | MAX+1, or zero for none, always exists and lies beyond every position |
| Ordering.DenseNext | src/smartcourse/infra/db/repositories/course.py:314-317 | Where the positions are 0..n-1 the next one is n and nothing else, and they stay so when an item is put there |
| Ordering.OvertakenIff | src/smartcourse/services/course.py:194-195 | Exactly which orders put an item where an append waiting to commit has inserted |
| Ordering.OvertakenBeforeInsertIff | src/smartcourse/infra/db/repositories/course.py:291-317 | The same orders, and no others, are in the way of an append that has read MAX and not inserted yet |
| Ordering.RepeatedOrderCollides | src/smartcourse/services/course.py:188-195 | A concrete run: an order listing one item twice is accepted and makes an innocent append fail |
| Prerequisites.PrerequisiteTable.SetPrerequisites | src/smartcourse/services/course.py:448-490 | Accepted exactly when the three checks pass, replacing this course's list and no other; each refusal says what was wrong |
| Prerequisites.PrerequisiteTable.ReplacePrerequisites | src/smartcourse/infra/db/repositories/course.py:91-116 | Delete-then-insert leaves exactly the listed prerequisites, a repeated id once |
| Prerequisites.ReplacedReads | src/smartcourse/infra/db/repositories/course.py:96-104 | The list reads back, other courses keep theirs, and running it twice is running it once |
| Prerequisites.AcceptedIffSafe | src/smartcourse/services/course.py:455-488 | On a graph free of self-edges and two-course loops, existing courses are accepted if and only if the resulting graph is free of them |
| Prerequisites.CallsStaySafe | src/smartcourse/services/course.py:448-490 | Every sequence of calls keeps the graph free of both |
| PrerequisiteLoops.AcyclicIff | docs/SCHEMA.md:147-160 | Replacing a list on a graph without loops of any length leaves one without loops if and only if no wanted course leads back, by a walk of the graph, to the course being changed |
| PrerequisiteLoops.SameWayBack | src/smartcourse/infra/db/repositories/course.py:105-116 | That walk finds the same before and after the course's old list is deleted |
| PrerequisiteLoops.CallsStayAcyclicIff | src/smartcourse/services/course.py:470-490 | Over any sequence of calls, every graph passed through is without loops if and only if no accepted call led back |
| PrerequisiteLoops.LoopsAreLong | src/smartcourse/services/course.py:470-479 | The one-hop check leaves only loops of three courses or more |
| PrerequisiteLoops.LongerLoopsAccepted | src/smartcourse/services/course.py:476-479 | Any three or more different courses can be made a loop by accepted calls |
| PrerequisiteLoops.RacingCallsIff | src/smartcourse/services/course.py:480-490 | Two calls for different courses checked against the same table leave a safe graph if and only if they do not name each other's course |
| PrerequisiteLoops.RacingForOneCourse | src/smartcourse/infra/db/repositories/course.py:105-116 | Two calls for one course checked against the same table leave a safe graph, whichever list or both end up stored |
| PrerequisiteLoops.LoopShutsOut | src/smartcourse/services/course.py:472-474 | Courses that require one another, in a loop of any length, can never be entered in any schedule unless somebody is in or through one already; withdrawn histories do not matter |

## Left out

- Floating point: `words * 1.3` and `max_tokens / 1.3` are exact integer arithmetic here. The two
  agree for all counts below 2^48.
- sha256 is taken to be collision-free, so a digest is known by its preimage; random row ids are
  drawn from a counter, so a new id is never one in use.
- Temporal: a run's history, at most one live run per workflow id, three attempts for chunking and
  unlimited ones elsewhere are assumptions of the protocol. A timed-out attempt never commits later,
  nobody cancels a run, and timeouts and backoff are not modelled.
- Requests: the editable check takes no lock, so an edit is one atomic step and a publish request is
  two, its check and its start.
- Other courses appear in the protocol as arbitrary valid changes to their own chunk rows, not as
  runs of their own.
- Deleting a course: `delete_course` has no editable check; the protocol keeps the course, so the
  activities' not-found errors do not occur there.
- PublishRuns.UneditedRun: a ready course may be edited while it is republished, and then only each
  commit's own law, ChunkStore.ReconcileIsExactIff, is left.
- PublishRepeats.ExactPublish: for texts whose pieces never repeat; without that the guarantee is the
  exact condition in PublishRuns.EndToEnd.
- Enrollment.CapacityHolds: the capacity does not change during a schedule, because the service loads
  the course before locking it and what a concurrent capacity edit then looks like depends on the
  session's cache.
- Enrollment.NobodyEverGetsIn: publication, roles and prerequisites do not change during a schedule.
- Row locks other than the ones the code takes (foreign keys, unique index waits beyond blocking) and
  deadlock detection: an abort that may happen at any time.
- Ordering.AppendsNeverCollide: reorders and deletions are single steps, and every order is
  repeat-free; Ordering.OvertakenIff and Ordering.OvertakenBeforeInsertIff say which orders break it.
- Prerequisites.CallsStaySafe: each call is one step. PrerequisiteLoops.RacingCallsIff and
  PrerequisiteLoops.RacingForOneCourse are the laws for two calls that overlap.
- The order of a course's lessons in the protocol is any list of them; that it is the reading order
  is shown where the activity reads it (`Activities.dfy`), and moving lessons is an edit.
- Assets: `chunks.asset_id` is always null in this code and is not part of the row.
- Edits beyond their effect on the lessons, listing, search, gating of lesson content, and the
  403/404 choice for edits: short case analyses.
- Authentication, lesson progress, failed events, migrations, settings and seeding: wrappers over
  libraries, or tables without behaviour.
- Setters and row operations without a law of their own (`SetStatus`, `CompletePublish`,
  `ChunkRepository.Add`, `DeleteForLesson`, `StartWorkflow`) have contracts but no row above.

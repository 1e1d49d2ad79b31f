# Models of the exam bot

Dafny models of the parts of the bot whose correctness depends on whole runs, with proofs of what those runs keep.
`dafny verify dfyconfig.toml` checks everything. Each file is one module.

| files | what they model |
|---|---|
| `AttemptTables`, `AttemptProtocol`, `AttemptSteps`, `AttemptRuns`, `AttemptScores`, `AttemptExact`, `AttemptEnds`, `AttemptJobs`, `AttemptBoot`, `AttemptService`, `AttemptCalls` | attempts and answers: the guarded statements; sessions whose statements interleave, commit, roll back and crash; what final scores and statuses mean over such runs; the service, its timer jobs, the minute sweep and boot reconciliation over the scheduler's job store, with other sessions and the scheduler at work in between; the calls as runs of the protocol |
| `Scoring`, `Sections` | section scores, result marks, and the fixed 35/10/5 layout of 50 positions |
| `Broadcast`, `BroadcastRuns` | the resumable announcement loop, one call at a time and over crashes and changes of the users table |
| `TokenBucket` | the send-rate limiter, over real numbers |
| `MarkerPairs`, `Markup`, `MarkupStyles` | `**bold**` and `__italic__`: the two lazy-regex passes, the length function, the validator; what the message shows in which style |
| `Questions`, `ExcelParser`, `TestForm` | the question contract, the Excel rows and the web form |
| `Authoring`, `AuthoringRuns`, `Publishing`, `AuthoringRaces` | drafts, images and publishing, one transaction at a time and with interleaved transactions; saves that overlap a publish |
| `Hamming`, `Funnel`, `FunnelRuns`, `ReceiptRaces` | image hashes, the receipt queue and the user funnel; submissions that overlap |
| `SettingsCache`, `AutoAdvance` | the read-through settings cache; where the screen goes after an answer |
| `Common`, `Text` | option and result types, string helpers |

Reading conventions. Tables are finite maps; a guarded UPDATE or DELETE is a function that returns the table unchanged when its
guard fails. Times are integers, or reals in the bucket. A step that is not enabled in a run waits, that is, leaves the
state as it is, so a theorem about `Run(state, steps)` speaks about every schedule. A call that raises changes no table,
which is what the services document: the caller's transaction rolls back. The two calls whose callers catch the error,
`publish` and `approve`, are modelled both ways. The attempt models take the questions of published tests as constant, which
`AuthoringRuns.RunKeeps` proves of the authoring calls one at a time; where they overlap, `AuthoringRaces.AnsweredStays` proves it
of every test with an answer.

In `AttemptProtocol`, `Read` stands for the moment that fixes what a transaction's plain SELECTs see, its first one under the
database's default isolation (repeatable read); guarded updates always see the latest committed rows.

Where the code and its documentation differ, the models follow the code, and the exact condition is proved:

- `publish` says a raise rolls its archiving back, but both publish handlers catch the error and return, and the transaction
  then commits (`app/bot/handlers/admin/tests.py:364-375`, `app/web/handlers/tests.py:160-167`,
  `app/bot/middlewares/db_session.py:31-45`). The active test is lost exactly when something that is not a draft and misses no
  image is published while another test is active (`AuthoringRuns.StaysActiveIff`; with transactions interleaved,
  `Publishing.RaiseLosesActiveIff`).
- `approve` says a banned user's receipt stays pending, but the callback catches the error
  (`app/bot/handlers/admin/receipts.py:120-124`) and the acceptance commits: `FunnelRuns.BannedReceiptWaits`, and over runs
  `FunnelRuns.PaidForIff`.
- `finish` reads the answers before its guarded update, so an answer can be stored and not scored
  (`AttemptScores.AnswerCanSlipIn`); the stored score is right exactly if the answers scored the same at both moments
  (`AttemptScores.FinalScoreExactIff`).
- Boot reconciliation reads the clock twice for each attempt; without trouble an attempt is left open and without its job exactly
  if it had none and the clock stepped back across its expiry (`AttemptBoot.SlipsIff`), and with any trouble exactly under
  `AttemptBoot.DroppedIff`.
- `finish` re-reads "for the canonical scores" when its update hits no row, but under repeatable read a plain SELECT then still
  sees the snapshot, in which the attempt is open: a tap that loses the race against the expire job shows zeros
  (`AttemptCalls.LosingTapShowsZeros`, `AttemptCalls.LosingTapIsWrong`). What it returns is stored exactly under the conditions
  of `AttemptService.AttemptStore.Finish`.
- A timer job that is late by more than the grace time is dropped from the store without running; which attempts a boot then
  leaves with neither job nor coroutine is exact in `AttemptBoot.LostIff`. They are left to the sweep.
- A save checks for draft status and a publish for missing images in their snapshots, and not again: a published test can change,
  or miss an image, exactly if they overlap as in `AuthoringRaces.FrozenIff` and `AuthoringRaces.ImagesIff`.
- The lock around receipt submissions is released before they commit: the cap and the duplicate check fail exactly as in
  `ReceiptRaces.QueueOkIff` (`ReceiptRaces.TwiceQueued` is such a run), and a ban in between is overwritten exactly for users who
  still had to pay (`ReceiptRaces.BanLost`).
- Answers are accepted until an attempt is final, not until `expires_at`.
- The validator accepts `****` (`Markup.FourStarsSlipThrough`); a stray marker is left exactly if a group of its pass or the text
  after the last match holds one (`Markup.StrayMarkersIff`). Deleting bold markers can create italic ones
  (`Markup.LengthsCanDiffer`); the two lengths agree exactly under `Markup.LengthsAgreeIff`.
- The limiter is meant to keep 30 messages a second; 25 a second with a burst of 25 allows 50 (`TokenBucket.TwiceTheRate`). The
  limits that are kept are exactly those of `TokenBucket.SecondKeptIff`, and for other windows and capacities
  `TokenBucket.CountKeptIff`.
- The settings service says an edit shows immediately; it can stay hidden for the lifetime of a cache entry
  (`SettingsCache.EditCanStayHidden`). It shows at once exactly if at its commit neither a live entry nor a pending reader holds
  another value (`SettingsCache.EditShowsAtOnceIff`).
- The cursor column says every approved user up to it was processed; one who is approved late is not
  (`BroadcastRuns.LateApprovalMissed`). Exactly those were processed who were eligible when the batch that went past them began
  (`BroadcastRuns.ServedIffEligible`), so the description is right exactly under `BroadcastRuns.CursorMeaningIff`.
- The next-question search runs to 50 whatever the test holds: only a test with all fifty positions never leads to a missing
  question (`AutoAdvance.OffersOnlyQuestionsIff`).

## Model

| member | source | states |
|---|---|---|
| AttemptRuns.RunSafety | app/repositories/attempt_repository.py:115-178 | in every interleaving with commits, rollbacks and crashes, an attempt is finalized by at most one committed call and a warning slot claimed at most once; a row that has left `in_progress`, its stamps and its answers never change again; identity columns never change |
| AttemptRuns.InitialInv | app/models/attempt.py:81-115 | every table content that meets the constraints is where some history has led: there are counts of finalizations and claims with which the invariant of the runs holds |
| AttemptRuns.RunEndsLater | app/services/attempt_service.py:146-158 | in every run whose starts expire at or after a moment, every attempt that appears expires at or after it |
| AttemptScores.FinalizedOnce | app/services/attempt_service.py:413-447 | an attempt that is final has exactly one owner of its finalization, whatever runs later, and keeps its row and its answers |
| AttemptScores.CommitFinalizes | app/services/attempt_service.py:413-438 | when a session whose finalizing update ran commits, the attempt is final, whether its own update or an earlier one flipped the row |
| AttemptScores.FinalScoreExactIff | app/services/attempt_service.py:404-447 | whatever other sessions do between the read, the update and the commit of a call that finalizes, and in every continuation: the stored score is the score of the stored answers if and only if the answers scored at the update what they scored at the read |
| AttemptScores.AtomicFinishIsClean | app/services/attempt_service.py:404-419 | an update right after the read computes the score of the locked answers |
| AttemptScores.QuietFinishIsClean | app/services/attempt_service.py:404-419 | so does one after any schedule of other sessions that commits no answer of the attempt |
| AttemptScores.ScoresMatchAnswers | app/services/attempt_service.py:404-447 | in every run in which no answer of an attempt is committed between the read and the update of the call that finalizes it, a condition on the schedule alone, each final attempt scores exactly its stored answers; calls that lose the race may have read anything |
| AttemptScores.StoredScoreFacts | app/services/attempt_service.py:275-295 | in such runs a final score is the sum of its sections, within 35, 10, 5 and 50, and equals the number of questions the result screen marks as correct |
| AttemptExact.AllScoresExactIff | app/services/attempt_service.py:404-447 | over every run, with any number of attempts: every final attempt scores its stored answers if and only if nowhere a session commits a finalizing update whose read score was not that of the answers at the update |
| AttemptEnds.EndsAsIff | app/services/attempt_service.py:414-447 | over every run, an attempt that was not final before ends as submitted if and only if somewhere in the run a finish by the user flipped its row and was committed, and as expired if and only if one by a timer was |
| AttemptEnds.EndsAs | app/services/attempt_service.py:414-447 | the same from every reachable state, with the flips that open sessions have already made |
| AttemptScores.AnswerCanSlipIn | app/services/attempt_service.py:404-419 | a run ends with a final score of 0 over stored answers that score 1 |
| AttemptTables.EvolvesTransitive | app/repositories/attempt_repository.py:115-178 | the way tables may change composes over any number of commits |
| AttemptTables.FrozenScore | app/repositories/answer_repository.py:39-58 | a final attempt keeps its answers, so what they score stays the same |
| AttemptTables.CurrentScoreFacts | app/models/answer.py:62-70 | on sound tables the score of the stored answers obeys the bounds and equals the number of true marks |
| AttemptService.AttemptStore.ScheduleAttemptJobs | app/jobs/registry.py:72-93 | exactly the slots still ahead get a job, 10, 5 and 1 minutes before the expiry and at it, replacing older ones; no other job changes |
| AttemptService.AttemptStore.CancelAttemptJobs | app/jobs/registry.py:96-106 | exactly this attempt's jobs go |
| AttemptService.AttemptStore.GetInProgressForUser | app/repositories/attempt_repository.py:71-86 | the newest open attempt of the user, on any test, or none if there is none |
| AttemptService.AttemptStore.Start | app/services/attempt_service.py:124-177 | with other sessions between its checks and its insert: refused with the attempt found for an open attempt or one on this test, without one where the unique index rejects; otherwise the row expires after the duration and has exactly its jobs still ahead |
| AttemptService.AttemptStore.SubmitAnswer | app/services/attempt_service.py:329-365 | which error when; a late tap is ignored; otherwise the answer to the question at that position is stored, flagged right exactly if it is the key |
| AttemptService.AttemptStore.SetCurrentPosition | app/services/attempt_service.py:367-380 | moves the cursor of the caller's own open attempt within 1 to 50 and nothing else |
| AttemptService.AttemptStore.Finish | app/services/attempt_service.py:384-447 | with other sessions between its snapshot and its update: if the attempt is still open then, the row becomes submitted for the user and expired for a timer, with the time and the score of the answers it read, and the call owns the finalization; it owns it exactly then, and cancels exactly the attempt's jobs; the row it returns is the stored one if and only if it owned the finalization or found the attempt final, the scores under the same condition or if both are the same; a final attempt is left alone |
| AttemptService.AttemptStore.ClaimWarningSlot | app/services/attempt_service.py:451-476 | claimed exactly if the attempt is open and the slot unstamped; stamps that slot with the time and changes nothing else |
| AttemptService.AttemptStore.FinalizeInProgressForUser | app/services/attempt_service.py:194-206 | exactly the user's open attempts become expired with the score of their answers, exactly their jobs go, and they are counted |
| AttemptService.AttemptStore.RunExpireJob | app/jobs/attempt_timer.py:127-185 | without trouble the attempt is final afterwards; the user is written to exactly if this call finalized it and the user is there and not banned; where the user is missing or the call raises late, the tables roll back and the attempt's jobs are gone all the same; no other job goes |
| AttemptService.AttemptStore.RunWarningJob | app/jobs/attempt_timer.py:71-121 | writes to the user exactly if it claimed the slot and the user is there and not banned; without a user the claim rolls back |
| AttemptService.AttemptStore.OtherSessions | app/repositories/attempt_repository.py:115-178 | what happens between two statements of a call: any run of the attempt protocol, which keeps the constraints, changes rows only as allowed, and brings only attempts that end when its starts say |
| AttemptService.AttemptStore.Sweep | app/jobs/attempt_timer.py:209-240 | whatever runs of the protocol come between its items and whatever the job store holds, only attempts that were overdue and ran into trouble can stay overdue; if nothing else runs, exactly the others expired with their scores and exactly those remain overdue; counts the items that did not raise |
| AttemptService.AttemptStore.TimersFire | app/core/scheduler.py:41-50 | for any sequence of jobs fired or missed, expire and warning jobs ending later, with or without trouble: an attempt without trouble that stays open has exactly the cover, a job in the store or a coroutine on its way, that the events leave it |
| AttemptService.AttemptStore.Reconcile | app/jobs/startup_reconciliation.py:39-68 | whatever the scheduler does in between, missed jobs included: an attempt without trouble that stays open is left with neither job nor coroutine if and only if it is lost as `LostIff` says; if nothing happens, exactly the late attempts without trouble expired, an attempt is left open without a job exactly if the condition for being dropped holds, and all jobs, warnings included, stand as rescheduled or are cancelled; both counters are exact |
| AttemptBoot.KeptOne | app/jobs/startup_reconciliation.py:53-62 | the skip test and the overdue test, reading the clock one after the other, leave no attempt between them |
| AttemptBoot.SlipsIff | app/jobs/startup_reconciliation.py:87-89 | without trouble, an open attempt is left open without its job if and only if it had none and the first read was at or past its expiry and the second before it |
| AttemptBoot.DroppedIff | app/jobs/startup_reconciliation.py:53-84 | the same with any trouble: also if its finalization rolled back after the jobs were cancelled |
| AttemptBoot.LostIff | app/jobs/startup_reconciliation.py:53-62 | an attempt that stays open through a boot ends with neither job nor coroutine if and only if neither was on its way before its turn, and: its first clock read was before the expiry and the job set then was missed afterwards, or that read was past it and the job it had, if any, was missed at some time |
| AttemptJobs.FirstDecides | app/core/scheduler.py:41-50 | only the first event that takes an attempt's expire job matters: fired, it is on its way; missed, it is gone |
| AttemptService.AttemptStore.DieAndBoot | app/jobs/startup_reconciliation.py:39-68 | after a crash at any of four points and the next boot: an open attempt without trouble is covered exactly unless it is lost with the job that survived the crash; in a quiet boot exactly the attempts dropped with what survived are left without a job |
| AttemptService.AttemptStore.OrphanJobsFire | app/jobs/attempt_timer.py:141-147 | the jobs of a start that never committed fire without writing to anybody or changing a table |
| AttemptJobs.StillOverdue | app/repositories/attempt_repository.py:193-199 | attempts that start during a sweep are not overdue for it, so what stays overdue was overdue before and ran into trouble |
| AttemptJobs.Selections | app/repositories/attempt_repository.py:180-200 | what the ban cleanup, the sweep and reconciliation are about, row by row, and what the sweep counts |
| AttemptCalls.FinishIsARun | app/services/attempt_service.py:404-447 | an uninterrupted `finish` of an open attempt is the run begin, read, update, commit: the row with the current score and one more owner |
| AttemptCalls.SubmitIsARun | app/repositories/answer_repository.py:39-58 | `submit_answer` is the run begin, guarded insert, commit |
| AttemptCalls.StartIsARun | app/repositories/attempt_repository.py:88-113 | `start` is the run begin, insert, commit |
| AttemptCalls.MoveIsARun | app/repositories/attempt_repository.py:115-129 | `set_current_position` is the run begin, guarded update, commit |
| AttemptCalls.WarnIsARun | app/repositories/attempt_repository.py:154-178 | a warning claim is the run begin, guarded stamp, commit, with one more claim exactly if the slot was free |
| AttemptCalls.LosingTapShowsZeros | app/services/attempt_service.py:424-435 | when the expire job finalizes between a tap's snapshot and its update, what the tap returns from its snapshot is zeros, whatever the answers score |
| AttemptCalls.LosingTapIsWrong | app/services/attempt_service.py:424-435 | that happens over a stored score of 1 |
| Scoring.Compute | app/services/scoring_service.py:47-84 | the counting loop counts the answered keys of each section |
| Scoring.ComputeCountsHits | app/services/scoring_service.py:47-84 | in whatever order the rows come, the count is the number of questions of the section answered with their key |
| Scoring.ScoreBounds | app/models/question.py:73-91 | no section scores more than it has positions, so 35, 10, 5 and 50 |
| Scoring.TotalIsTrueMarks | app/services/attempt_service.py:275-295 | the total equals the number of positions marked true |
| Sections.RangesTile | app/services/question_validation.py:88-93 | a position has exactly the section whose range holds it; the ranges cover 1 to 50 |
| Sections.Pigeonhole | app/services/question_validation.py:23-33 | fifty different positions in 1 to 50 are all of them and fill each section exactly |
| Broadcast.Runner.CopyMessage | app/services/notification_service.py:159-204 | sent, blocked or an error exactly as the first reply that is not a deferral is a delivery, a refusal or another error, an error if there is none; flags the user exactly after a refusal and changes nothing else |
| Broadcast.OutcomeMeans | app/services/notification_service.py:177-204 | the same for the outcome alone, in both directions: the first reply that is not a deferral decides, three deferrals are an error |
| Broadcast.ListApprovedAfter | app/repositories/user_repository.py:167-190 | the lowest ids beyond the cursor of users who are approved and have not blocked the bot, in order, and all of them if fewer than the limit |
| Broadcast.Runner.RunOneBatch | app/jobs/broadcast_runner.py:95-147 | completes exactly if nobody is left, otherwise counts each recipient of one batch under the reply that settled the send, moves the cursor to the last and flags exactly those who refused |
| Broadcast.AheadAfter | app/jobs/broadcast_runner.py:107-147 | a recorded batch leaves ahead of the cursor exactly those it did not serve |
| Broadcast.Runner.RunBroadcast | app/jobs/broadcast_runner.py:74-92 | without a crash it ends after one call for each started batch of 25 and one more, whatever Telegram answers, counts every eligible user once under the reply that settled the send, and flags exactly those who refused |
| Broadcast.BroadcastNewTest | app/services/notification_service.py:81-157 | sent, blocked and errors are the numbers of recipients whose send was settled by a delivery, by a refusal, or by another error or not at all; exactly those who refused are flagged; the three add up to the recipients |
| Broadcast.FlaggedExactly | app/services/notification_service.py:133-139 | exactly the recipients whose first reply that is not a deferral is a refusal are flagged, and nothing else changes |
| Broadcast.CountIsSettling | app/services/notification_service.py:141-147 | what a batch counts is the number of its places by the reply that settled them |
| BroadcastRuns.DeliverySafety | app/jobs/broadcast_runner.py:95-147 | over any crashes and user changes: the counters equal the users of committed batches, each once, in order up to the cursor; nobody gets more than one copy and one for each crash; repeats are at most 25 for each crash |
| BroadcastRuns.ProgressIsKept | app/repositories/broadcast_repository.py:46-77 | the cursor never goes back, committed recipients stay, a completed broadcast changes no more |
| BroadcastRuns.NobodyMissed | app/jobs/broadcast_runner.py:95-147 | at completion every user who could be delivered to all along is in a committed batch and had a copy attempted |
| BroadcastRuns.LateApprovalMissed | app/models/broadcast.py:63-67 | a user approved after the cursor went past is never tried |
| BroadcastRuns.ServedIffEligible | app/jobs/broadcast_runner.py:95-147 | over every run, each user id up to the cursor was crossed by exactly one committed batch, and the user was processed if and only if eligible when that batch began |
| BroadcastRuns.CursorMeaningIff | app/models/broadcast.py:63-67 | after a run the column means what its description says if and only if every user approved by then was eligible when the cursor went past |
| BroadcastRuns.BatchIsARun | app/jobs/broadcast_runner.py:95-147 | one uninterrupted batch call is a run of the fine steps, with the same row and flags |
| TokenBucket.NewBucket | app/utils/rate_limiter.py:26-36 | which arguments are refused; a missing capacity is the rate; the bucket starts full |
| TokenBucket.Bucket.Check | app/utils/rate_limiter.py:44-54 | grants exactly if the refilled balance suffices, takes exactly the amount, and otherwise asks to sleep until it would |
| TokenBucket.Bucket.AcquireAlone | app/utils/rate_limiter.py:38-55 | a caller without competition gets its tokens at once or at its second check; which arguments are refused |
| TokenBucket.BalanceInRange | app/utils/rate_limiter.py:34-55 | after any trace of concurrent calls the balance is between nothing and the capacity |
| TokenBucket.WindowBound | app/utils/rate_limiter.py:38-55 | no window of any trace is handed more than the capacity and rate times its length |
| TokenBucket.BoundIsReached | app/utils/rate_limiter.py:34-55 | for every window length some trace is handed the capacity and rate times the length |
| TokenBucket.LimitKeptIff | app/utils/rate_limiter.py:38-55 | for every window length, a token limit is kept by all traces if and only if it is at least the capacity and rate times the length |
| TokenBucket.CountKeptIff | app/utils/rate_limiter.py:38-55 | with calls of one token and a capacity of n, the limit that is kept is exactly n and the whole tokens that flow in |
| TokenBucket.BurstPasses | app/utils/rate_limiter.py:34-35 | calls that together want no more than the balance all pass without waiting |
| TokenBucket.TwiceTheRate | app/services/notification_service.py:3-7 | with capacity equal to the rate, one second can see twice the rate |
| TokenBucket.SecondKeptIff | app/services/notification_service.py:3-7 | n per second with the default capacity keeps a limit for one second if and only if it is at least 2n |
| MarkerPairs.ReplaceFlatMap | app/utils/markup.py:57-66 | a marker pass commutes with any rewriting of the other characters |
| MarkerPairs.LeftoverPairs | app/utils/markup.py:57-66 | without four markers in a row, a pass leaves exactly the odd pair |
| MarkerPairs.PairsLeftIff | app/utils/markup.py:57-66 | for every text, a pass leaves a pair behind if and only if a group or the text after the last match holds one |
| Markup.ValidateMarkup | app/utils/markup.py:40-54 | each error exactly when its rule is broken, in order, a pair being empty if there is only white space between its markers; none exactly for accepted text |
| Markup.EscapeIsCharwise | app/utils/text.py:14-22 | the three replacements in a row escape each character on its own |
| Markup.BoldCommutesWithEscape | app/utils/markup.py:57-66 | for every text, escaping before or after the bold pass gives the same |
| Markup.RendererAndLengthAgree | app/utils/markup.py:57-77 | if deleting the bold tags joins no underscores, what the reader sees is the raw text without its markers, and `visible_length` is its length |
| Markup.LengthsAgreeIff | app/utils/markup.py:57-77 | for every text, the two lengths agree exactly if the italic pass finds as many pairs among the tags as with the bold markers deleted |
| Markup.LengthsCanDiffer | app/utils/markup.py:69-77 | a text with `visible_length` 1 shows 5 characters |
| Markup.LeftoverMarkers | app/utils/markup.py:57-66 | without four equal markers in a row, the output keeps the odd pair of each kind and no other |
| Markup.StrayMarkersIff | app/utils/markup.py:57-66 | for every text, a `**` is left in the output if and only if a bold group or the text after the last one holds one, and a `__` if and only if an italic group, among characters and bold tags, or the text after the last one does |
| Markup.AcceptedRendersClean | app/utils/markup.py:40-66 | accepted text without such runs renders with no `**` and no `__` |
| Markup.FourStarsSlipThrough | app/utils/markup.py:40-54 | four stars are accepted and stay in the output |
| Markup.TagsBalance | app/utils/markup.py:57-66 | for every text each `<` of the output starts one of the four tags, and each pass opens and closes once for each match |
| MarkupStyles.StylesAsGrouped | app/utils/markup.py:57-66 | for every text, the message is read without a tag that opens what is open, closes what is not, or is left open, and shows each character bold or italic exactly if it stands in a group of that pass |
| MarkupStyles.BoldIsGroups | app/utils/markup.py:57-66 | the bold characters, in order, are the groups of the bold pass |
| MarkupStyles.ItalicIsGroups | app/utils/markup.py:57-66 | what is italic, in order, are the groups of the italic pass over the characters and the places of the bold tags |
| MarkupStyles.ReadEmit | app/utils/markup.py:57-66 | a message is read as the characters and tags it was written from |
| Questions.ValidateQuestionFields | app/services/question_validation.py:122-225 | the report holds every deserved error and no other, in the order of the checks, with the limits 1 to 50, 1000, 300 and 850 in numbers; it is empty exactly for a question that meets the contract |
| Questions.BudgetIsShownLength | app/services/question_validation.py:96-116 | the caption block is exactly as long as the question body that the student sees, for stripped texts in which deleting bold markers joins no underscores |
| Questions.BodyShown | app/bot/views/test_screen.py:103-116 | what the student reads: the question, then each option behind its own letter, all without their markers |
| Questions.CaptionFits | app/services/question_validation.py:37-48 | such an image question fits a caption of 1024 with any header of up to 172 |
| Questions.OkFitsSection | app/services/question_validation.py:146-168 | a question without errors sits in the section of its position |
| Questions.ValidateTestCompleteness | app/services/question_validation.py:231-256 | each error exactly when it is due; none exactly for fifty questions, each position once, 35 + 10 + 5 |
| Questions.CompleteIff | app/services/question_validation.py:231-256 | when every question is in the section of its position, fifty different positions are enough |
| ExcelParser.ValidateRow | app/services/excel_parser.py:214-262 | the errors of a row are exactly those it deserves; none exactly for a good row |
| ExcelParser.Parse | app/services/excel_parser.py:145-208 | returns these questions if and only if the file is fifty rows that say them, each within the contract and no position twice; otherwise every deserved error, with its row, and no other |
| ExcelParser.ReadIff | app/services/excel_parser.py:265-304 | a row is good and read as a question if and only if it says it: section, position, text, options in order, key of either case and image token in any case, each with blanks around it or not |
| ExcelParser.FileSaysIff | app/services/excel_parser.py:145-208 | the same for files |
| ExcelParser.RoundTrip | app/services/excel_parser.py:265-283 | fifty trimmed questions of the contract, written down row by row in any order, are read back as they were |
| ExcelParser.SaysImageIff | app/services/excel_parser.py:286-304 | a cell says that there is an image exactly if it holds one of the words for yes, in any case, or a true value |
| ExcelParser.DecimalStandsFor | app/services/excel_parser.py:274-282 | an integer in a text column is read as its decimal digits without leading zero |
| Text.StripIff | app/services/excel_parser.py:274-282 | stripping finds the one text that the string holds between white space |
| Text.LowerIff | app/services/excel_parser.py:298-302 | lower-casing gives exactly the word that the text spells |
| ExcelParser.OkFileIsComplete | app/services/excel_parser.py:189-204 | fifty good rows without a repeated position never fail the section counts |
| ExcelParser.ParsedTestIsComplete | app/services/excel_parser.py:206-208 | a parsed test has positions 1 to 50, each once, every section in its place, and passes the completeness check |
| TestForm.ParseTestForm | app/web/forms.py:50-133 | the drafts are exactly the questions that the form holds under the keys of their position and that meet the contract, by position; a card has messages exactly if something was typed and no draft came of it, and for exactly the fields that deserve one; title errors exactly outside 1 to 200 characters |
| TestForm.AsksIff | app/web/forms.py:65-125 | a card is good and becomes this draft if and only if the form holds the question: each part typed under its own key, the section from the position |
| TestForm.FaultyIff | app/web/forms.py:80-111 | a card is faulty exactly if something but the image box was filled in and no question of the contract came of it |
| TestForm.FiftyDraftsComplete | app/web/forms.py:91-125 | whatever is posted, the drafts meet the contract in their sections; with fifty the test is complete |
| TestForm.CompleteIffNoneEmpty | app/web/forms.py:65-125 | an error-free form is a complete test exactly if no card was left empty |
| Authoring.TestStore.BulkCreate | app/repositories/question_repository.py:48-69 | inserts all drafts, each under its test and position with its content, or, on a constraint, none; a text question never gets an image |
| Authoring.TestStore.CreateDraftCall | app/services/test_service.py:61-108 | creates the draft with its title and its questions or leaves both tables alone |
| Authoring.TestStore.ReplaceDraftQuestions | app/services/test_service.py:144-178 | only a draft is replaced, wholly, if the new questions are storable and no position occurs twice, or nothing happens |
| Authoring.SaveKeepsImages | app/services/test_service.py:159-172 | after a save the image at a position is kept exactly if the new draft still has one and one was attached |
| Authoring.SaveReplacesAll | app/services/test_service.py:159-172 | after a save the draft has exactly the new positions, and no other test changed |
| Authoring.TestStore.DuplicateToDraft | app/services/test_service.py:191-236 | creates the copy, its title marked and cut to 200 characters, or changes nothing |
| Authoring.DuplicateIsACopy | app/services/test_service.py:204-229 | the copy has exactly the source's questions and images; the source is untouched |
| Authoring.DuplicateSucceeds | app/services/test_service.py:191-236 | duplicating an existing test never runs into a constraint |
| Authoring.TestStore.UpdateTitleCall | app/services/test_service.py:132-142 | renames drafts only, to 1 to 200 characters |
| Authoring.TestStore.AttachQuestionImage | app/services/test_service.py:252-269 | attaches exactly to an image question |
| Authoring.TestStore.CancelDraftCall | app/services/test_service.py:110-113 | removes exactly a draft with its questions |
| Authoring.TestStore.ValidateForPublish | app/services/test_service.py:180-189 | no blockers exactly for a test with a question at each of the fifty positions; the positions whose image question has no image |
| Authoring.TestStore.PublishCall | app/services/test_service.py:303-362 | which error when; otherwise the draft is active, the test that was active is archived and nothing else changes; where it raises it changes nothing if the error passes, and leaves what was archived if the error is caught |
| AuthoringRuns.RunKeeps | app/services/test_service.py:144-172 | over every run: text questions carry no image, published tests miss none, at most one test is active, and title and questions of a published test never change |
| AuthoringRuns.PublishKeeps | app/services/test_service.py:323-350 | a successful publish makes the draft the one active test and keeps the invariant |
| AuthoringRuns.StaysActiveIff | app/services/test_service.py:303-362 | once a test is active, some test is after a further call if and only if that call does not publish, with its error caught, something that is no draft and misses no image while another test is active |
| AuthoringRuns.RunStaysActive | app/services/test_service.py:303-362 | so over every run without such a call |
| AuthoringRuns.Perform | app/services/test_service.py:61-362 | with at most one active test, each step of a run is the service's call |
| Publishing.PublishSafety | app/services/test_service.py:303-362 | over every interleaving of publishing, cancelling and creating transactions, raised ones committed or rolled back: at most one active test, status only from draft to active to archived, only drafts vanish; where no raise after an archiving is committed, once a test is active every later committed state has exactly one |
| Publishing.SecondPublishRaises | app/models/test.py:77-86 | with another test active, an activation raises whatever the transaction had read |
| Publishing.CommittedRaise | app/bot/handlers/admin/tests.py:364-375 | a commit leaves an active test, if there was one, exactly if it is not that of a publish that raised after it archived |
| Publishing.RaiseLosesActiveIff | app/services/test_service.py:328-350 | whatever others do between the archiving and the activation: the publish raises if and only if its test is no draft by then, the index rejecting nothing, and if it then commits a test is active if and only if it did not raise |
| Publishing.RaiseAfterArchiving | app/services/test_service.py:328-350 | a publish can raise after it archived the active test |
| AuthoringRaces.FrozenIff | app/services/test_service.py:155-174 | over every run of saves, publishes and the other calls: no step changes a question of a published test if and only if no save, overtaken by a publish of its test between its read and its write, writes other questions |
| AuthoringRaces.AnsweredStays | app/models/answer.py:44-48 | over every run, once a question of a test has an answer, no question of the test changes any more and the test stays published |
| AuthoringRaces.ImagesIff | app/services/test_service.py:323-350 | over every run: no published test ever misses an image if and only if no publish succeeds over an image that went missing after its check, by a save or creation in between, and no overtaken save leaves one missing |
| AuthoringRaces.OvertakenSave | app/services/test_service.py:155-174 | a save of other questions that a publish overtakes changes the published test |
| AuthoringRaces.SaveAlone | app/services/test_service.py:144-178 | a save that nothing overlaps is the atomic one |
| AuthoringRaces.PublishAlone | app/services/test_service.py:303-362 | and a publish likewise, its error caught or not |
| Hamming.DistanceCounts | app/services/image_hasher.py:74-75 | the distance is the number of places where the hashes differ |
| Hamming.Symmetric | app/services/image_hasher.py:60-75 | the distance is symmetric |
| Hamming.Triangle | app/services/image_hasher.py:60-75 | the distance obeys the triangle inequality |
| Hamming.ZeroIffSameBits | app/services/image_hasher.py:60-75 | distance zero means the same 64 bits |
| Hamming.SignedKeepsBits | app/services/image_hasher.py:78-82 | the stored form fits a signed column and has the same 64 bits |
| Hamming.SignedInjective | app/services/image_hasher.py:78-82 | different hashes are stored differently |
| Hamming.SimilarInAnyForm | app/services/image_hasher.py:66-75 | `is_similar` is the same for signed and unsigned arguments |
| Hamming.StoredDistance | app/services/image_hasher.py:56-58 | stored hashes are as far apart as the computed ones |
| Hamming.SimilarCounts | app/services/image_hasher.py:60-75 | similar exactly if at most the threshold of 64 places differ; a negative threshold is refused |
| Funnel.PhoneForms | app/utils/text.py:35-49 | the stored phone is a fixed point, and a plus sign makes no difference |
| Funnel.DigitsMean | app/utils/text.py:35-49 | of what was typed exactly the digits count, in their order |
| Funnel.CountryCode | app/utils/text.py:35-49 | nor does the country code of a nine-digit number |
| Funnel.FunnelStore.StartOnboardingCall | app/services/user_service.py:72-91 | moves exactly a new user to the phone step |
| Funnel.FunnelStore.SetPhoneCall | app/services/user_service.py:93-120 | stores the digits, nine of them behind 998, only before the name step and only if there are any, and advances |
| Funnel.FunnelStore.SetNameCall | app/services/user_service.py:122-150 | refuses an invalid name first; writes only in the name step |
| Funnel.FunnelStore.AttachCodeCall | app/services/user_service.py:152-173 | attaches a code nobody else has before the payment steps, and advances |
| Funnel.FunnelStore.MarkApprovedRow | app/repositories/user_repository.py:61-82 | approves all but banned users and keeps the first approval time, under either row-count reading |
| Funnel.FunnelStore.UnbanCall | app/services/user_service.py:218-239 | restores exactly banned users who were approved before |
| Funnel.FunnelStore.ScanForWarnings | app/services/receipt_service.py:148-191 | the warnings are exactly those whose condition holds, in enumeration order |
| Funnel.FunnelStore.SubmitCall | app/services/receipt_service.py:93-146 | which error when, in order; otherwise one pending receipt more with that hash, and a user who had to pay is moved on |
| Funnel.FunnelStore.ApproveCall | app/services/receipt_service.py:195-236 | accepts a pending receipt, noting who decided, and approves the user, with the first approval time; for a banned user it raises, and changes nothing if the error passes, or leaves the receipt accepted if the error is caught |
| Funnel.FunnelStore.RejectCall | app/services/receipt_service.py:238-274 | declines a pending receipt with a non-blank reason, stripped, and sends the user back to pay; a banned user stays banned |
| Funnel.FunnelStore.MarkRejectedRow | app/repositories/user_repository.py:84-97 | the status becomes rejected, unless the user is banned |
| Funnel.FunnelStore.BanCall | app/services/user_service.py:214-216 | any user becomes banned and keeps all else |
| Funnel.SubmitRefuses | app/services/receipt_service.py:108-126 | the first reason that holds decides: the cap, no image, a negative threshold, a picture that waits already |
| FunnelRuns.Perform | app/services/user_service.py:45-239 | each step of a run is the service's call |
| FunnelRuns.RunKeeps | app/services/user_service.py:72-239 | over every run onboarding never goes back, phone, name and code are frozen once their step is passed, the approval time is written once, resolved receipts never change |
| FunnelRuns.QueueSafety | app/services/receipt_service.py:110-146 | after any run each user has at most the cap of pending receipts, any two with a hash are farther apart than the threshold, each receipt was resolved at most once, and approved users have an approval time |
| FunnelRuns.BanWins | app/repositories/user_repository.py:61-97 | no call changes a banned user's row but `unban`, which restores to approved and only who has an approval time |
| FunnelRuns.BannedStays | app/services/user_service.py:214-239 | over every run a banned user who is not unbanned, or was never approved, keeps the row |
| FunnelRuns.BannedReceiptWaits | app/bot/handlers/admin/receipts.py:120-124 | approving a banned user's receipt raises; rolled back it leaves the receipt pending, caught it leaves it accepted and the user banned as before |
| FunnelRuns.PaidForIff | app/services/receipt_service.py:217-228 | over every run, each accepted receipt belongs to someone who was approved if and only if nowhere in the run a caught error accepted the receipt of a banned user who never was |
| FunnelRuns.ResendIsRefused | app/services/receipt_service.py:119-126 | a picture within the threshold of one just queued is not queued again |
| ReceiptRaces.QueueOkIff | app/services/receipt_service.py:110-137 | over every run of overlapping submissions and the other calls: the cap and the distance between waiting pictures hold throughout if and only if no submission, during which the same user's queue got another receipt, is written when there is no room for it any more |
| ReceiptRaces.TwiceQueued | app/bot/handlers/payment.py:135-190 | two submissions of one picture that both read before either writes are both queued |
| ReceiptRaces.SubmitAlone | app/services/receipt_service.py:93-146 | a submission that nothing overlaps is the atomic one |
| ReceiptRaces.BanLost | app/services/user_service.py:176-190 | a ban between a submission's read and its write is overwritten exactly if the user still had to pay at the read |
| SettingsCache.SettingsService.Get | app/services/settings_service.py:33-46 | in sequential use `get` always returns the table's value |
| SettingsCache.SettingsService.Set | app/services/settings_service.py:63-66 | writes the row and clears the entry, committed or not |
| SettingsCache.ReturnedWasCommitted | app/services/settings_service.py:33-46 | in every interleaving, a value returned at t was committed at some time no earlier than t - 60 less the delay from its read to its caching |
| SettingsCache.FreshOnceQuiet | app/services/settings_service.py:19-19 | 60 seconds and the slowest read after the last commit, every returned value is current |
| SettingsCache.EditCanStayHidden | app/services/settings_service.py:63-66 | clearing before the commit lets the old value be cached and returned after it |
| SettingsCache.EditShowsAtOnceIff | app/services/settings_service.py:33-66 | from every state: until the next commit all values returned after the commit of an edit are the new one if and only if at that commit the live entry, if any, and every pending reader already hold it |
| SettingsCache.QuietEditShows | app/services/settings_service.py:63-66 | an edit that no other read overlaps shows at once |
| AutoAdvance.PickNextPosition | app/bot/handlers/test_taking.py:478-503 | if a position other than the tapped one holds no answered question, the result is such a position and none lies before it on the way from the tapped one to 50 and on from 1; otherwise the screen stays |
| AutoAdvance.NextUnique | app/bot/handlers/test_taking.py:478-498 | there is only one such position |
| AutoAdvance.NextIsNext | app/bot/handlers/test_taking.py:478-498 | the function that the tap sequence uses computes it |
| AutoAdvance.FollowGrows | app/bot/handlers/test_taking.py:193-220 | every offered question, once answered, adds one answer and loses none |
| AutoAdvance.CoversTheTest | app/bot/handlers/test_taking.py:193-220 | from any answered set and first tap, the test is complete after exactly as many further taps as were missing |
| AutoAdvance.CoversTheQuestions | app/bot/handlers/test_taking.py:178-220 | from any stored answers and first tap on a test of fifty questions, every question has an answer after exactly as many further taps as were left open |
| AutoAdvance.StaysWhenDone | app/bot/handlers/test_taking.py:497-498 | with everything answered the screen stays |
| AutoAdvance.OffersOnlyQuestionsIff | app/bot/handlers/test_taking.py:487-498 | the search never offers a position without a question exactly if all fifty exist |

## Left out

- AttemptService.AttemptStore.Finish: the others run between its reads and its update only; where they come in at any statement is `AttemptProtocol`.
- AttemptService.AttemptStore.OtherSessions: its sessions begin and end between two statements of the call; sessions that stay open across several are in `AttemptProtocol`.
- AttemptService.AttemptStore.Sweep: says nothing about attempts that run into trouble but that they alone can stay overdue; they stay for the next sweep.
- AttemptService.AttemptStore.Reconcile: with timers firing in between, an attempt whose finalization runs into trouble may be left without a job, for the sweep to find.
- AttemptScores.ScoresMatchAnswers: one way; the exact conditions are `AttemptScores.FinalScoreExactIff` and `AttemptExact.AllScoresExactIff`.
- AttemptBoot.LostIff: for attempts that run into no trouble; with trouble the exact condition is `AttemptBoot.DroppedIff`, for one turn.
- BroadcastRuns.DeliverySafety: assumes one runner for each broadcast at a time, as a process that resumes only at startup has.
- Publishing.PublishSafety: the status column only; what saves do to the questions and images of a test that is being published is in `AuthoringRaces`.
- AuthoringRaces.FrozenIff: the writes of a transaction are one step, since it holds the lock of the test's row from the first of them on.
- Authoring.TestStore.PublishCall: the unique index cannot reject in one transaction alone; `Publishing` has it.
- Funnel.FunnelStore.SetNameCall: the verdict of the name test is a parameter.
- FunnelRuns.QueueSafety: submissions are one transaction each; overlapping ones are in `ReceiptRaces`.
- ReceiptRaces.QueueOkIff: the lock around submissions is not modelled, since it is released before the commit (`app/bot/handlers/payment.py:189-190`) and the snapshot may be older than it; approvals and bans are one step each.
- SettingsCache.ReturnedWasCommitted: one key, and readers that have not themselves written it in the same transaction.
- Text.Upper: letters of other alphabets are left alone; options are compared with A to D only.
- Text.Lower: Latin and Cyrillic letters only, which covers the image tokens.
- Telegram calls, keyboards, screens, pages, FSM storage and the web session layer: input and output; a send is reduced to its outcome.
- MySQL and Redis internals: maps, guarded statements, row locks, unique keys, commit and rollback instead; no deadlocks and no lock timeouts.
- Reading workbooks and images: the parser starts at the row list, hashing at the integer.
- Floating-point rounding in the bucket.
- The panel's ban, which does not finalize open attempts, and the bot's publish, which does not check completeness: no claim is made that a banned user has no open attempt or that an active test has fifty questions.
- The character test for names (Unicode categories and normalization): its verdict is a parameter.
- Digits of other scripts in phone numbers.
- Reminders, throttling, reference-code draws, leaderboards, statistics, history, seeding, configuration and logging.

# ResearchOS core, modelled in Dafny

ResearchOS is a small research-planning tool. A workspace holds ideas, and each idea
holds tasks, deliverables and update logs. Its FastAPI backend scopes every record
to the caller's workspace, computes dashboards, progress, risks and next actions,
summarises Markdown reports and imports a seed file. Its Next.js client keeps a
session, retries fetches, draws a Gantt chart with draggable month ranges, and lists
tasks, deliverables and update logs.

This project models that core functionally:
- Records are immutable datatypes.
- Database tables are sequences in row order, so a "first match" is what `db.scalar` returns.
- Handlers and page logic are pure functions from state and inputs to a new state and an answer.
- The clock (`now`) is a parameter.
- Everything the code hands to something invisible becomes a function parameter. That covers PBKDF2, the JWT codec, server calls and fetch outcomes.

Modules:
- `Common`: option and result types, order-preserving filter, first index, insertion sort.
- `Text`: splitting, joining, stripping, decimal and hex text, lexicographic order.
- `Enums`: the status vocabularies of `backend/app/enums.py`.
- `Schemas`: request validation of `backend/app/schemas.py`.
- `Records`: the row shapes of `backend/app/models.py` and the store.
- `Services`, `Risks`, `NextActions`, `Summarize`, `Seed`: the domain rules of `backend/app/services.py`.
- `Security`: the password-hash record and the access token of `backend/app/security.py`.
- `Api`: the request handlers of `backend/app/main.py`.
- `Gantt`: month arithmetic, dragging and range saving of `frontend/src/app/page.tsx`.
- `Session`: the auth provider of `frontend/src/app/lib/auth-context.tsx`.
- `Retry`: `fetchRetry` of `frontend/src/lib/api.ts`.
- `StatusView`: `frontend/src/app/lib/status.ts` and the project page's own lookups.
- `ProjectPage`: filters, loading and edit drafts of `frontend/src/app/project/page.tsx`.
- `ReportsPage`: the pagination of `frontend/src/app/reports/page.tsx`.

Behaviours of the code worth noting:
- `reorder_tasks` reports `len(task_ids)` even for ids it did not find.
- `delete_idea` also removes the idea's tasks, through the ORM relationship's cascade (`backend/app/models.py:58`). Its deliverables and logs stay.
- `list_all_tasks` titles a task from an idea map built over all ideas with a listed id. The last such idea wins.
- `verify_password` does not catch what `pbkdf2_hmac` raises. A stored iteration count of 0, a negative one, or one above 2147483647 (C `INT_MAX`) makes login fail with a server error instead of a refusal.

## Model

| member | source | states |
|---|---|---|
| Enums.ItemStatusValuesInOrder | backend/app/enums.py:10-17 | the value list is the six item statuses in declaration order |
| Enums.ParseItemStatus | backend/app/enums.py:10-17 | parsing a string yields the status whose value it is, and fails exactly when no status has that value |
| Enums.ParseDeliverableStatus | backend/app/enums.py:19-22 | the same for the three deliverable statuses |
| Enums.ItemStatusRoundTrip | backend/app/enums.py:10-17 | parsing a status's value gives back that status |
| Enums.DeliverableStatusRoundTrip | backend/app/enums.py:19-22 | parsing a deliverable status's value gives back that status |
| Enums.DeliverableValuesArePrefix | backend/app/enums.py:10-22 | the deliverable values are the first three item-status values |
| Enums.ItemStatusValuesDistinct | backend/app/enums.py:10-17 | no two item statuses share a value |
| Schemas.ScoreField | backend/app/schemas.py:8-12 | a score is accepted iff present and within 1..5, and is kept as given |
| Schemas.ValidatePriority | backend/app/schemas.py:8-12 | priority inputs validate iff all four scores are present and in 1..5; the result is valid and equals the input |
| Schemas.StatusField | backend/app/schemas.py:15-22 | a missing status defaults to planned; a given one is accepted iff it names an item status |
| Schemas.OptionalStatusField | backend/app/schemas.py:36-43 | a missing status stays absent; a given one is accepted iff it names an item status |
| Schemas.Required | backend/app/schemas.py:15-22 | a required field validates iff present, keeping its value |
| Schemas.ValidateIdea | backend/app/schemas.py:15-22 | an idea validates iff its required fields are present, the priority is valid and the status is known; defaults fill the rest and the priority scores are carried over as given |
| Schemas.IdeaDefaults | backend/app/schemas.py:15-22 | a minimal idea gets description "", status planned and main-topic flag false |
| Schemas.IdeaRoundTrip | backend/app/schemas.py:15-22 | a valid idea body survives being sent in full and validated again |
| Schemas.ValidateIdeaUpdate | backend/app/schemas.py:36-43 | an idea update validates iff its status (when present) is known and its priority (when present) is valid; absent fields stay absent |
| Schemas.ValidateTask | backend/app/schemas.py:46-53 | a task validates iff its required fields are present, the importance is in 1..5 and the status is known |
| Schemas.TaskDefaults | backend/app/schemas.py:46-53 | a minimal task gets importance 3, status planned and no dependencies |
| Schemas.TaskRoundTrip | backend/app/schemas.py:46-53 | a valid task body survives being sent in full and validated again |
| Schemas.ValidateTaskUpdate | backend/app/schemas.py:72-78 | a task update validates iff the status (when present) is known and the importance (when present) is in 1..5 |
| Schemas.EmptyTaskUpdateValid | backend/app/schemas.py:72-78 | the empty task update is valid |
| Schemas.ValidateDeliverable | backend/app/schemas.py:81-85 | a deliverable validates iff its fields are present and its status (default planned) is a deliverable status |
| Schemas.DeliverableRejectsTaskOnlyStatuses | backend/app/schemas.py:81-85 | on_hold, stopped and discarded are refused for deliverables |
| Schemas.ValidateUpdateLogCreate | backend/app/schemas.py:105-109 | a log body validates iff title and body are present; source defaults to "manual" and idea id to "" |
| Schemas.MakeLoginResponse | backend/app/schemas.py:145-147 | the login answer carries the token with token type "bearer" |
| Services.DelayPersists | backend/app/services.py:151-152 | a task delayed at one month stays delayed at every later month, and is not completed |
| Services.NotDelayedWhenDueNowOrLater | backend/app/services.py:151-152 | a task due this month or later is not delayed |
| Services.LowActivityTaskCount | backend/app/services.py:155-173 | the count is the number of in-progress tasks of the workspace whose idea has no log of the workspace created in the fourteen days before now, and at most the number of active tasks |
| Services.RecentIffNotQuiet | backend/app/services.py:165-171 | an idea is in the recent set exactly when some log of the workspace for it is at or after the cutoff |
| Services.LowActivityIsStaleCount | backend/app/services.py:155-173 | counting the active tasks whose idea is not recent equals counting stale tasks over all tasks |
| Services.LowActivityAddLog | backend/app/services.py:155-173 | adding any log never raises the count |
| Services.LowActivityIgnoresOldLog | backend/app/services.py:155-173 | a log of another workspace or older than fourteen days leaves the count unchanged |
| Services.LowActivityRecentLog | backend/app/services.py:155-173 | a recent log of the workspace lowers the count by exactly the stale in-progress tasks of its idea |
| Services.LowActivityZeroWhenAllRecent | backend/app/services.py:155-173 | when every active task's idea has a recent log the count is 0 |
| Services.LowActivityAllWhenNoRecentLog | backend/app/services.py:155-173 | when no log of the workspace is recent every active task counts |
| Services.SumStatusCountsIsKnownCount | backend/app/services.py:305-320 | summing the per-status counts counts each idea with a known status exactly once |
| Services.DashboardCounts | backend/app/services.py:305-320 | all six status keys are reported, each with the number of the workspace ideas of that status; the total is the sum of those counts, i.e. the ideas with a known status; delayed counts the workspace tasks late at the month; low activity is the low-activity count |
| Services.DashboardAddIdea | backend/app/services.py:305-320 | a new idea of the workspace raises its own status count by one and the total by one iff its status is known; the task figures do not move |
| Services.DashboardIgnoresOtherWorkspace | backend/app/services.py:305-320 | an idea of another workspace leaves the dashboard unchanged |
| Services.DashboardTotalCountsAllValidIdeas | backend/app/services.py:305-320 | with only known statuses the total is the number of the workspace's ideas |
| Services.Ratio | backend/app/services.py:331-334 | a completion ratio lies in [0,1], is 0 for an empty pool, 1 when all are complete, and times the pool size gives the completed count |
| Services.CompletedTaskCount | backend/app/services.py:323-337 | completed tasks are counted within the pool that excludes discarded tasks |
| Services.CompletedDeliverableCount | backend/app/services.py:323-337 | completed deliverables never exceed the deliverables |
| Services.IdeaProgress | backend/app/services.py:323-337 | task progress is the completed share of the non-discarded tasks of the idea, deliverable progress the completed share of its deliverables, each 0 on an empty pool; overall is 0.7 times the first plus 0.3 times the second; all lie in [0,1] |
| Services.ProgressOf | backend/app/services.py:329-336 | the same ratios and 70/30 weighting for an already scoped set of tasks and deliverables |
| Services.TaskProgressZeroWhenAllDiscarded | backend/app/services.py:329-336 | an idea whose tasks are all discarded has task progress 0, so overall is 0.3 times deliverable progress |
| Services.DeliverableProgressZeroWhenNone | backend/app/services.py:333-336 | an idea without deliverables has deliverable progress 0, so overall is 0.7 times task progress |
| Services.ProgressIgnoresDiscarded | backend/app/services.py:329-336 | adding a discarded task changes no progress figure |
| Services.ProgressIsScoped | backend/app/services.py:323-328 | records of another idea change no progress figure |
| Services.ProgressFullWhenAllCompleted | backend/app/services.py:329-336 | with every counted task and deliverable completed, overall progress is 1 |
| Services.ProgressZeroWhenEmpty | backend/app/services.py:329-336 | an idea with no tasks and no deliverables has progress 0 |
| Risks.KeyTextInjective | backend/app/services.py:395-400 | the "code:related_id" text identifies the (code, related id) pair |
| Risks.Insert | backend/app/services.py:395-400 | storing an item under its key keeps keys unique, overwrites in place, and appends only a new key |
| Risks.Dedup | backend/app/services.py:395-400 | the result has unique keys, the same key set as the input, the last item for each key, placed where its key first appeared |
| Risks.TaskRisks | backend/app/services.py:345-355 | one risk per task, carrying its title and id |
| Risks.StatusOf | backend/app/services.py:379-393 | a dependency's status is found iff a task of the idea has that id |
| Risks.LatestLogAt | backend/app/services.py:357-377 | the latest log time is the maximum creation time |
| Risks.TaskRisksMembers | backend/app/services.py:345-393 | a per-task risk list holds exactly one risk per listed task, about that task |
| Risks.DelayedRisks | backend/app/services.py:345-355 | one DELAYED risk, high severity, per task that is due before the month and not completed, and no other risk |
| Risks.ActivityRisks | backend/app/services.py:357-377 | NO_LOG when there is no log; LOW_ACTIVITY when every log is older than 14 days; otherwise nothing |
| Risks.DependencyRisks | backend/app/services.py:379-393 | one DEPENDENCY_VIOLATION risk per in-progress task with a non-empty, not completed dependency status, and no other risk |
| Risks.RawRiskKeys | backend/app/services.py:340-393 | which (code, id) keys the raw risk list contains, per rule |
| Risks.DedupRawRisks | backend/app/services.py:340-400 | the de-duplicated raw risks are well formed and keep the keys of the raw list |
| Risks.DetectRisks | backend/app/services.py:340-400 | unique keys; NO_LOG iff the idea has no log; LOW_ACTIVITY iff it has logs and all are stale; DELAYED exactly for delayed tasks; DEPENDENCY_VIOLATION exactly for in-progress tasks with an unfinished dependency among the idea's tasks |
| NextActions.NearestIndex | backend/app/services.py:420-427 | the chosen deliverable has the earliest due month, and is the first in input order among ties |
| NextActions.SomesSorted | backend/app/services.py:410-429 | the filled slots, in order, are sorted by rank |
| NextActions.SomesHasRank | backend/app/services.py:410-429 | a rank appears among the actions iff its slot is filled |
| NextActions.FirstTaskTitleSpec | backend/app/services.py:410-419 | a title is found iff some task qualifies, and it is the first qualifying one |
| NextActions.DeliverableAction | backend/app/services.py:420-427 | a deliverable action is offered iff a deliverable is pending, naming the nearest one |
| NextActions.DelayedPresence | backend/app/services.py:410-413 | the delayed slot is filled iff some task is delayed |
| NextActions.StatusPresence | backend/app/services.py:414-419 | the in-progress and planned slots are filled iff such a task exists |
| NextActions.PendingPresence | backend/app/services.py:420-427 | the deliverable slot is filled iff a deliverable is pending |
| NextActions.FinishSpec | backend/app/services.py:428-429 | the fallback message appears alone exactly when there is no other action |
| NextActions.Recommend | backend/app/services.py:403-429 | 1 to 4 actions in the order delayed, in progress, planned, deliverable; each kind present iff its condition holds; the lone fallback iff none holds |
| NextActions.TextKind | backend/app/services.py:414-427 | each kind of message opens with its own character, so the kind can be read back from the text |
| NextActions.TextRank | backend/app/services.py:414-427 | a message opens with the words of a rank iff its action has that rank |
| NextActions.Rendered | backend/app/services.py:414-429 | the rendered list opens with the delayed-task words iff a delayed action is listed; it mentions the other three kinds iff they are listed; it is the lone fallback message iff the only action is the fallback |
| NextActions.RecommendNextActions | backend/app/services.py:403-429 | 1 to 4 entries; the first starts "Resolve delayed task first: " iff a task of the idea is delayed; an entry starts with the in-progress, planned or deliverable words iff such a task or pending deliverable exists; the lone fallback iff none of these holds |
| Summarize.StripTrims | backend/app/services.py:19 | a stripped line has no leading or trailing whitespace |
| Summarize.ContentLines | backend/app/services.py:19 | the kept lines are stripped, non-empty and contain no line break |
| Summarize.ContentLinesMembers | backend/app/services.py:19 | a line is kept iff it is the non-empty strip of a line of the body |
| Summarize.DoneAndOpenDisjoint | backend/app/services.py:24-32 | a line is never both a done and an open checkbox |
| Summarize.Items | backend/app/services.py:24-32 | one item per qualifying line |
| Summarize.ItemsMembers | backend/app/services.py:24-32 | the items are exactly the texts of the qualifying lines |
| Summarize.CompletedItemsSpec | backend/app/services.py:24-28 | completed items are the "- [x]" lines with at least two words or more than 20 characters |
| Summarize.InProgressItemsSpec | backend/app/services.py:29-32 | in-progress items are the "- [ ]" lines with the same size rule |
| Summarize.TagIf | backend/app/services.py:48-60 | a tag is emitted iff the lowered text contains it |
| Summarize.Tags | backend/app/services.py:48-60 | tags are exactly the known words the lowered body contains, in the fixed order, without repeats |
| Summarize.SummarizeMarkdown | backend/app/services.py:18-60 | the summary is the full text cut to at most 1200 characters (a prefix of it), and the tags are as above, at most five |
| Summarize.CompletedCountShown | backend/app/services.py:34-40 | with completed items the summary opens with the count of all of them and quotes at most four |
| Summarize.InProgressOnly | backend/app/services.py:41-44 | with only in-progress items the summary starts with "In progress: " |
| Summarize.BothParts | backend/app/services.py:34-46 | with both kinds the completed part comes first |
| Summarize.FallbackLines | backend/app/services.py:45-46 | without qualifying items the summary uses the first five "- " lines, else the first five lines |
| Summarize.NoNewlineIn | backend/app/services.py:19-46 | quoted lines never carry a line break |
| Summarize.BlankNote | backend/app/services.py:18-46 | a body with no content lines gives an empty summary |
| Summarize.TagsIgnoreCase | backend/app/services.py:48-60 | tags do not depend on letter case |
| Summarize.TagsGrow | backend/app/services.py:48-60 | appending text never removes a tag |
| Seed.IdeaIdFor | backend/app/services.py:184-206 | an idea id is found iff the workspace has an idea with that title |
| Seed.MappedIdea | backend/app/services.py:208-231 | a slug resolves iff it is mapped to a non-empty id |
| Seed.IdeasPass | backend/app/services.py:184-206 | ideas are only appended, one per item whose title is new, and afterwards every item's title exists |
| Seed.IdeasPassSlugs | backend/app/services.py:184-206 | every mapped slug names an idea of the workspace |
| Seed.IdeasPassResolved | backend/app/services.py:184-206 | when every title already exists nothing is added and the slugs map to the existing ideas |
| Seed.TasksPass | backend/app/services.py:208-231 | tasks are only appended, each for a mapped slug and a new (idea, title) pair |
| Seed.TasksPassResolved | backend/app/services.py:208-231 | when every mapped task already exists nothing is added |
| Seed.DeliverablesPass | backend/app/services.py:233-257 | deliverables are only appended, each for a mapped slug and a new (idea, title) pair |
| Seed.DeliverablesPassResolved | backend/app/services.py:233-257 | when every mapped deliverable already exists nothing is added |
| Seed.ImportSeed | backend/app/services.py:176-260 | import only appends ideas, tasks and deliverables, leaves other tables alone, and reports how many rows it added |
| Seed.ImportSeedIdempotent | backend/app/services.py:176-260 | importing the same seed again adds nothing and reports (0, 0, 0) |
| Seed.ImportedRecordsReferToIdeas | backend/app/services.py:208-257 | every imported task and deliverable belongs to an idea of the workspace |
| Security.IterationsText | backend/app/security.py:11-15 | the iteration field is written "600000" |
| Security.HashPassword | backend/app/security.py:11-15 | a new record splits on "$" into "pbkdf2_sha256", "600000", the salt in hex and the digest in hex |
| Security.RecordSplits | backend/app/security.py:15-20 | a record written in the stored layout, with any iteration count, splits back into its four fields |
| Security.HashPasswordFormat | backend/app/security.py:11-15 | a hash record is "pbkdf2_sha256$600000$" plus 32 hex digits of salt, "$", 64 hex digits of digest |
| Security.HashSplits | backend/app/security.py:11-22 | a hash record splits on "$" into exactly its four fields |
| Security.ParseInt | backend/app/security.py:27 | a stripped field of ASCII digits with an optional sign parses to its signed decimal value; an empty field does not parse |
| Security.VerifyPassword | backend/app/security.py:18-31 | false unless there are four fields and the algorithm matches; true only when the count is in 1..2147483647 and the recomputed digest equals the stored one; a well-formed record whose count is outside 1..2147483647 raises |
| Security.Pbkdf2Check | backend/app/security.py:30-31 | PBKDF2 answers iff the count is in 1..2147483647, and then says whether the digests match; a count above 2147483647 but within a C long raises "iteration value is too great." |
| Security.VerifyParsed | backend/app/security.py:18-31 | once the four fields parse, verification is the PBKDF2 step on the parsed count, salt and digest |
| Security.RecordVerifies | backend/app/security.py:18-31 | a record in the stored layout verifies as the PBKDF2 step on the count, salt and digest it was written from |
| Security.IterationsTooGreatRaise | backend/app/security.py:27-30 | a stored record whose count is above 2147483647 but within a C long raises, as pbkdf2_hmac does, instead of answering |
| Security.VerifyHashed | backend/app/security.py:11-31 | against a record made by hashing, a candidate verifies iff its digest equals the password's |
| Security.VerifyRoundTrip | backend/app/security.py:11-31 | a password verifies against its own hash |
| Security.NonNumericIterationsRaise | backend/app/security.py:27-29 | a non-numeric iteration field raises instead of answering false |
| Security.DecodeAccessToken | backend/app/security.py:40-46 | a subject is returned only for a token that decodes, is unexpired and has a non-empty subject |
| Security.CreateAccessToken | backend/app/security.py:34-37 | the token encodes claims naming the subject and expiring 24 hours after now |
| Security.TokenRoundTrip | backend/app/security.py:34-46 | with an inverse codec, a created token decodes to its subject until it expires |
| Api.GetCurrentUser | backend/app/main.py:135-153 | missing credentials, a bad token and an unknown user are refused; a user without membership is forbidden; otherwise the user and the first membership's workspace |
| Api.AuthRefusalCodes | backend/app/main.py:135-153 | every refusal is a 401 except the missing membership, which is a 403 |
| Api.Login | backend/app/main.py:180-186 | an unknown e-mail or a failed password check gives "Invalid credentials"; success issues a token for the first user with that e-mail, whose record verifies the password |
| Api.OwnerUser | backend/app/services.py:119-128 | afterwards the first user with the owner address exists and verifies the owner password; an existing verifying owner is left as is; other users keep their rows; a raising record fails with a server error |
| Api.AppendOwnerReady | backend/app/services.py:121-124 | a created owner row is the first with its address and verifies the owner password |
| Api.RehashOwnerReady | backend/app/services.py:125-128 | a rewritten hash keeps the owner first and verifies the owner password |
| Api.EnsureMembership | backend/app/services.py:136-147 | afterwards the owner has a membership of the owner workspace; an existing one leaves the store unchanged, otherwise one "owner" row is appended |
| Api.EnsureOwner | backend/app/services.py:119-147 | the owner user is ready and a member of the owner workspace; ideas, tasks, deliverables and logs are untouched; users other than the owner keep their rows |
| Api.LoginRequest | backend/app/main.py:178-186 | login first runs the owner setup, whose writes stay even when the login is refused; a raising setup fails the request with the store unchanged |
| Api.OwnerCanLogIn | backend/app/main.py:178-186 | once the setup succeeds the owner logs in with the configured password |
| Api.EnsureOwnerIdempotent | backend/app/services.py:119-147 | a second run of the owner setup changes nothing |
| Api.LoginWithHashedRecord | backend/app/main.py:178-186 | a user stored with a hash of the password logs in with it |
| Api.LoginThenAuthenticate | backend/app/main.py:135-186 | the token login issues authenticates the same user until it expires |
| Api.Me | backend/app/main.py:189-196 | the profile carries the caller's id, e-mail and workspace, and the membership role or "viewer" |
| Api.MeAfterAuthentication | backend/app/main.py:135-196 | after authentication the role is that of the user's first membership |
| Api.PatchIdea | backend/app/main.py:260-267 | present fields replace, absent fields keep, updated_at becomes now, identity fields never change |
| Api.PatchIdeaLaws | backend/app/main.py:260-267 | an empty patch only touches updated_at, and patching twice equals patching once |
| Api.UpdateIdea | backend/app/main.py:248-271 | 404 iff no idea has that id in the caller's workspace; otherwise the first such idea is patched and nothing else changes |
| Api.UpdateIdeaScoped | backend/app/main.py:256-258 | no idea outside the caller's workspace changes |
| Api.PatchTask | backend/app/main.py:480-485 | present fields replace, absent ones keep, updated_at becomes now, dependencies and sort order untouched |
| Api.PatchTaskLaws | backend/app/main.py:480-485 | an empty patch only touches updated_at, and patching twice equals patching once |
| Api.UpdateTask | backend/app/main.py:468-489 | 404 iff no task has that id in the caller's workspace; otherwise only the first such task changes |
| Api.UpdateTaskScoped | backend/app/main.py:476-478 | no task outside the caller's workspace changes |
| Api.PatchDeliverable | backend/app/main.py:522-526 | present fields replace, absent ones keep; there is no timestamp |
| Api.PatchDeliverableLaws | backend/app/main.py:522-526 | an empty patch changes nothing, and patching twice equals patching once |
| Api.UpdateDeliverable | backend/app/main.py:508-530 | 404 iff no deliverable has that id in the caller's workspace; otherwise only the first such one changes |
| Api.UpdateDeliverableScoped | backend/app/main.py:516-520 | no deliverable outside the caller's workspace changes |
| Api.DeleteIdea | backend/app/main.py:274-286 | 404 iff the idea is not in the caller's workspace; otherwise that idea and its tasks go (the relationship cascades to tasks only), and other tables stay |
| Api.DeleteTask | backend/app/main.py:334-346 | 404 iff the task is not in the caller's workspace; otherwise exactly the first such row is removed |
| Api.DeleteTaskOnce | backend/app/main.py:334-346 | with unique ids a second delete is a 404, and other workspaces' tasks remain |
| Api.DeleteDeliverable | backend/app/main.py:406-420 | 404 iff the deliverable is not in the caller's workspace; otherwise exactly that row is removed |
| Api.DeleteUpdateLog | backend/app/main.py:423-435 | 404 iff the log is not in the caller's workspace; otherwise exactly that row is removed |
| Api.LastIndexOf | backend/app/main.py:499-505 | the position a repeated id ends with is its last occurrence |
| Api.ReorderAll | backend/app/main.py:499-505 | only sort orders change; the first workspace task with a listed id takes the last list index of that id |
| Api.ReorderTasks | backend/app/main.py:492-505 | the answer is the length of the list, and only task sort orders change |
| Api.ReorderDistinct | backend/app/main.py:499-505 | with distinct ids each named workspace task gets its list index, and tasks outside the workspace or the list stay as they were |
| Api.IdeaTitleFor | backend/app/main.py:311-317 | a task's idea title is "" when no idea has its id, else the title of the last idea with that id |
| Api.WorkspaceTasks | backend/app/main.py:302-310 | exactly the workspace's tasks, ordered by sort order then update time |
| Api.ListAllTasks | backend/app/main.py:302-318 | the workspace's tasks in that order, each with its idea's title |
| Api.ListAllTasksComplete | backend/app/main.py:302-318 | every task of the workspace is listed |
| Api.ClampLimit | backend/app/main.py:401 | the limit is max(1, min(limit, 100)) |
| Api.LogsNewestFirst | backend/app/main.py:389-403 | the idea's logs of the workspace, as a permutation, newest first |
| Api.ListUpdateLogs | backend/app/main.py:389-403 | as many logs as the clamped limit allows, all of that idea and workspace, newest first |
| Api.ListUpdateLogsNewest | backend/app/main.py:389-403 | every log left out is no newer than any log listed |
| Api.IngestSource | backend/app/main.py:754 | an empty source becomes "direct_ingest" |
| Api.IngestDirectReport | backend/app/main.py:728-764 | 404 unless the idea is in the workspace; an existing log with that title is returned and nothing is added; otherwise exactly one log is appended |
| Api.IngestIdempotent | backend/app/main.py:740-748 | ingesting the same report twice adds one log at most |
| Gantt.Clamp | frontend/src/app/page.tsx:123 | the value is clamped into the bounds and unchanged inside them |
| Gantt.MonthToIndex | frontend/src/app/page.tsx:119-124 | the month index always lies in 1..12 |
| Gantt.MonthToIndexFallback | frontend/src/app/page.tsx:119-122 | a month part that is missing or not a number gives 1 |
| Gantt.IndexToMonthFormat | frontend/src/app/page.tsx:126-128 | the text is "2026-" plus a two-digit month 01..12 |
| Gantt.IndexToMonth | frontend/src/app/page.tsx:126-128 | the text is "2026-" followed by two digits whose value is the index clamped to 1..12 |
| Gantt.MonthRoundTrip | frontend/src/app/page.tsx:119-128 | reading back a written month gives the index clamped to 1..12 |
| Gantt.DragRange | frontend/src/app/page.tsx:482-499 | moving keeps the length and keeps a bar inside 1..12 when it started there; resizing from the left keeps the end and the start at or below it (and at least 1 when the end is); resizing from the right keeps the start and keeps the end between the start and 12 |
| Gantt.MoveKeepsLength | frontend/src/app/page.tsx:482-492 | moving a valid range keeps it inside 1..12 with its length |
| Gantt.ResizeStartBounds | frontend/src/app/page.tsx:493-495 | resizing the start keeps the end and puts the start in 1..end |
| Gantt.ResizeEndBounds | frontend/src/app/page.tsx:496-499 | resizing the end keeps the start and puts the end in start..12 |
| Gantt.DragZero | frontend/src/app/page.tsx:482-499 | a drag of zero months leaves a valid range as it is |
| Gantt.DragStep | frontend/src/app/page.tsx:476-503 | a drag step changes only the dragged task's entry and marks it dirty |
| Gantt.DragStepsDoNotAccumulate | frontend/src/app/page.tsx:476-503 | each step starts from the drag's initial range, so only the last delta counts |
| Gantt.FindTask | frontend/src/app/page.tsx:524 | a task is found iff one has that id |
| Gantt.SaveRequest | frontend/src/app/page.tsx:522-532 | a save is sent iff there is an entry, the task and a token; it sends due month equal to end month |
| Gantt.SaveTaskRange | frontend/src/app/page.tsx:522-549 | a thrown fetch or a missing entry changes nothing; a failed save changes no task and shows the status; a successful one updates that task's months and clears its dirty flag |
| Gantt.MouseUp | frontend/src/app/page.tsx:507-511 | releasing saves iff the dragged entry is dirty |
| Gantt.SaveThenReload | frontend/src/app/page.tsx:522-549 | after a successful save the task's months read back as the saved range |
| Gantt.FreshEdits | frontend/src/app/page.tsx:308-315 | one clean entry per loaded task |
| Gantt.FreshEditsLastRow | frontend/src/app/page.tsx:308-315 | a task's entry comes from its last row |
| Gantt.LoadTasks | frontend/src/app/page.tsx:300-317 | loading rebuilds every entry as clean, for exactly the loaded tasks |
| Gantt.MissingEdits | frontend/src/app/page.tsx:335-340 | new entries are made, clean, only for tasks that have none |
| Gantt.MissingEditsLastRow | frontend/src/app/page.tsx:336-339 | a new entry holds the month indices of the last row with its id, clean |
| Gantt.LoadAllTasks | frontend/src/app/page.tsx:329-344 | existing entries are never overwritten; new ones are clean |
| Gantt.LoadAllTasksNewEntry | frontend/src/app/page.tsx:335-343 | a task without an entry gets one from its row's start and end months |
| Gantt.ReloadsAndDirtyEntries | frontend/src/app/page.tsx:300-344 | a dirty entry survives a load of all tasks but not a reload of one idea |
| Session.Headers | frontend/src/app/lib/auth-context.tsx:32-35 | the headers always hold Content-Type and "Bearer " followed by the token, even an empty one |
| Session.StoredOr | frontend/src/app/lib/auth-context.tsx:106-107 | a missing or empty saved value gives the default |
| Session.Login | frontend/src/app/lib/auth-context.tsx:66-79 | true iff a non-empty token and a profile arrive; failure changes nothing; success sets the session and saves token, e-mail and password |
| Session.Logout | frontend/src/app/lib/auth-context.tsx:81-87 | signs out and removes only the saved token |
| Session.Boot | frontend/src/app/lib/auth-context.tsx:89-121 | loading always ends, and the session is either signed in or as it started |
| Session.BootWithSavedToken | frontend/src/app/lib/auth-context.tsx:93-103 | a saved token whose profile loads is adopted with no login call |
| Session.AutoLogin | frontend/src/app/lib/auth-context.tsx:105-120 | one login call with the saved or default credentials, then at most profile calls; the token is stored and the session signed in iff the login gives a non-empty token whose profile loads; otherwise storage and session are untouched apart from loading ending |
| Session.BootAutoLogin | frontend/src/app/lib/auth-context.tsx:105-120 | otherwise one login with saved or default credentials; the token is saved only when both calls succeed |
| Session.LogoutThenBoot | frontend/src/app/lib/auth-context.tsx:66-121 | after signing out, the next boot signs in again with the credentials of the last login |
| Session.ProviderValue | frontend/src/app/lib/auth-context.tsx:37 | isAuthenticated holds iff the token is non-empty and a profile is present |
| Session.UseAuth | frontend/src/app/lib/auth-context.tsx:21-25 | outside a provider the hook throws its message |
| Retry.Loop | frontend/src/lib/api.ts:10-23 | calls and delays per iteration: at most the remaining attempts, waits of delayMs times (i+1), a returned response is the last attempt and every earlier one failed or answered 503; a throw or a returned 503 uses every remaining attempt, and a throw means the last attempt was a network error |
| Retry.FetchRetry | frontend/src/lib/api.ts:4-24 | no call and the exhausted error when retries is not positive; otherwise 1 to `retries` calls, the wait after attempt i is delayMs times (i+1), a returned response is the last call's, a throw is the network message after all `retries` calls, and a returned 503 also comes after all of them |
| Retry.NoRetries | frontend/src/lib/api.ts:10-23 | with no retries there is no call, and it throws "fetchRetry exhausted" |
| Retry.FirstAnswerReturned | frontend/src/lib/api.ts:12-17 | a non-503 response is returned on the attempt it arrives |
| Retry.LastAttempt | frontend/src/lib/api.ts:10-23 | when every attempt before the last fails or answers 503, the run makes `retries` calls, waits delayMs, 2 delayMs, ..., and settles as the last attempt dictates |
| Retry.LastSettled | frontend/src/lib/api.ts:13-19 | the last attempt's response is returned even when it is a 503; its network error throws the retry message |
| Retry.ReachesLastAttempt | frontend/src/lib/api.ts:10-23 | from any iteration, a run whose attempts before the last all fail or answer 503 makes every remaining call and settles by the last |
| Retry.ThreeUnavailable | frontend/src/lib/api.ts:7-17 | three 503s with the default count return the third after waits of d and 2d |
| Retry.AllNetworkErrors | frontend/src/lib/api.ts:10-21 | only network errors: `retries` calls, then the network message is thrown |
| Retry.NeverExhausted | frontend/src/lib/api.ts:10-23 | with at least one attempt it never reaches the final throw |
| StatusView.ValuesMatchServer | frontend/src/app/lib/status.ts:1-11 | the client's value lists and option values are the server's vocabularies in order |
| StatusView.StatusClass | frontend/src/app/lib/status.ts:13-30 | every class starts with "chip", and it is just "chip" iff the status is unknown |
| StatusView.StatusLabel | frontend/src/app/lib/status.ts:32-49 | an unknown status is shown as it is, and a known one never is |
| StatusView.LabelsMatchOptions | frontend/src/app/lib/status.ts:4-49 | each option's caption is the label of its value |
| StatusView.BadgesDistinct | frontend/src/app/lib/status.ts:13-49 | different statuses never share a class or a label |
| StatusView.PageStatusLabel | frontend/src/app/project/page.tsx:14-21 | on any string that is not an inherited property name, the page's label is the shared helper's label |
| StatusView.PageStatusClass | frontend/src/app/project/page.tsx:14-21 | on any string that is not an inherited property name, the page's class is the shared helper's class |
| StatusView.PageLookupAgrees | frontend/src/app/project/page.tsx:14-21 | the page's own lookups agree with the shared helpers on every string that is not an inherited property name |
| StatusView.PageLookupInheritedName | frontend/src/app/project/page.tsx:14-21 | for every inherited method name (such as "toString") the page's lookups return the method, and for "__proto__" the prototype object, not the fallback |
| StatusView.OwnLookupIsSwitch | frontend/src/app/project/page.tsx:14-21 | an own-property lookup equals the shared helpers on every input |
| ProjectPage.FilteredTasks | frontend/src/app/project/page.tsx:107 | an empty filter keeps all tasks, otherwise exactly those of that idea |
| ProjectPage.FilteredDeliverables | frontend/src/app/project/page.tsx:108 | the same for deliverables |
| ProjectPage.FilteredKeepsOrder | frontend/src/app/project/page.tsx:107-108 | filtering commutes with concatenation, so input order is kept |
| ProjectPage.FilterOneIdea | frontend/src/app/project/page.tsx:107 | filtering by the idea keeps its list and by another idea empties it |
| ProjectPage.OkBodies | frontend/src/app/project/page.tsx:73-76 | only ok bodies are collected, their lengths adding up |
| ProjectPage.LoadAllDeliverables | frontend/src/app/project/page.tsx:69-78 | the table is left as it was exactly when there is no token or one of the awaited calls threw; otherwise it holds as many rows as the ok answers carry |
| ProjectPage.Answers | frontend/src/app/project/page.tsx:73-76 | the answers in id order, one per id, or none at all iff some call threw |
| ProjectPage.AnswersConcat | frontend/src/app/project/page.tsx:73-76 | the answers for two runs of ids are those of each run, in order |
| ProjectPage.LoadAllDeliverablesOrder | frontend/src/app/project/page.tsx:69-78 | loading two runs of ideas yields the first run's rows then the second's, so an idea's rows precede those of any later idea |
| ProjectPage.OkBodiesConcat | frontend/src/app/project/page.tsx:73-76 | the collected bodies of two runs concatenate |
| ProjectPage.StartEdit | frontend/src/app/project/page.tsx:92 | editing starts on that row with the initial draft |
| ProjectPage.CancelEdit | frontend/src/app/project/page.tsx:93 | cancelling clears the row and the draft |
| ProjectPage.DraftPayload | frontend/src/app/project/page.tsx:165 | the idea and deliverable saves send every draft field as a JSON string, and nothing else |
| ProjectPage.TaskPayloadVersusDraft | frontend/src/app/project/page.tsx:165-202 | the task save's payload equals the plain draft payload iff the draft has no non-empty importance |
| ProjectPage.TaskDraft | frontend/src/app/project/page.tsx:192 | a task's draft holds its six fields with importance as text |
| ProjectPage.EditField | frontend/src/app/project/page.tsx:193-198 | an edit sets one field and keeps the others |
| ProjectPage.EditEndMonth | frontend/src/app/project/page.tsx:197 | editing the end month sets the due month to the same value |
| ProjectPage.DueFollowsEnd | frontend/src/app/project/page.tsx:193-198 | later edits of other fields keep due month equal to end month |
| ProjectPage.TaskPayload | frontend/src/app/project/page.tsx:202 | a non-empty importance is sent as a number and every other field as its text |
| ProjectPage.EditTaskRow | frontend/src/app/project/page.tsx:192-202 | a task saved after an end-month edit sends that month as end and due month |
| ProjectPage.PatchAndReload | frontend/src/app/project/page.tsx:95-99 | a thrown call changes nothing; a failed save keeps the edit and shows its status; success clears the edit, says "Saved" and reloads |
| ProjectPage.SaveRetry | frontend/src/app/project/page.tsx:95-99 | a failed or thrown save keeps the row and draft, so saving again then ends as a first successful save would |
| ReportsPage.RequestFor | frontend/src/app/reports/page.tsx:56-57 | the query has limit 30 and the offset, and an idea id iff the filter is set |
| ReportsPage.LoadLogs | frontend/src/app/reports/page.tsx:53-71 | an ok answer replaces or appends, sets hasMore iff the page is full and advances the offset; otherwise only loading ends |
| ReportsPage.Reset | frontend/src/app/reports/page.tsx:37-44 | with a token the list restarts from offset 0 in replace mode |
| ReportsPage.LoadMore | frontend/src/app/reports/page.tsx:73-75 | the next page is loaded from the current offset and appended |
| ReportsPage.StepKeepsOffset | frontend/src/app/reports/page.tsx:37-75 | every event keeps the offset equal to the number of logs shown |
| ReportsPage.RunKeepsOffset | frontend/src/app/reports/page.tsx:37-75 | from a fresh page, any run asks next for exactly the logs after those shown |
| ReportsPage.TwoPages | frontend/src/app/reports/page.tsx:61-67 | two loads append their pages in order and add up the offset |
| ReportsPage.ShortPageEnds | frontend/src/app/reports/page.tsx:29-66 | a page shorter than 30 ends the list |

## Left out

- `ensure_owner_context`: the owner workspace row itself is not modelled, since the store has no workspace table. Its id is an input to `Api.EnsureOwner`. The rest of startup bootstrapping (table creation) is left out too.
- The OpenAI summariser and its key check: these are foreign network calls. Ingestion uses the local summariser, as the code does with no key configured.
- Rounding progress to 4 decimals: the model uses exact reals.
- `loadIdeas` and `loadAllTasks` of the project page, and the other fetches of the pages: a thrown call is modelled only for `ProjectPage.LoadAllDeliverables`, `ProjectPage.PatchAndReload` and `Gantt.SaveTaskRange`.
- SQLAlchemy sessions, commits and autoflush: the store is a set of row sequences. The one cascade, from an idea to its tasks, is written out in `Api.DeleteIdea`.
- Reading seed files and decoding JSON: the decoded seed is an input. Missing keys in the seed, which raise in the code, are not modelled.
- Bulk report ingestion, uploads and date parsing: this is file I/O.
- PBKDF2, constant-time comparison and JWT signing: these are function parameters. Non-hex salt or digest text is modelled as the raise it is in the code.
- `Security.ParseInt`: only the stripped form of Python's `int()` with an optional sign and ASCII digits is modelled. Underscores and non-ASCII digits count as non-numeric.
- `Text.JsNumber`: only digits with an optional sign are modelled. JavaScript's decimal, exponent, hex and Infinity forms of `Number()` count as non-numeric.
- `Summarize.Tags`: lowering is ASCII only. No non-ASCII character lowers into one of the tag words.
- `Summarize.StripTrims`: Python's whitespace set is used for both Python's `strip` and JavaScript's `trim`.
- The route order of `PATCH /tasks/{task_id}` (main.py:468) and `PATCH /tasks/reorder` (main.py:492): in registration order the first would take "reorder" as a task id. `Api.ReorderTasks` models the handler itself, not the routing.
- Server rendering without a window is modelled only as the no-window branch of `Session.Boot`.
- Real waiting: `Retry` returns the list of delays instead of sleeping. Timers, the 60-second auto-sync and `Promise.all` concurrency are also left out.
- Pixel-to-month rounding while dragging: the month delta is an integer input.
- `deleteAndReload`, `loadIdeas` and rendering: these are UI glue with no state rule beyond a message.
- `app/lib/api`, the module the session and report pages import `fetchRetry` from, is not part of this model. Only `frontend/src/lib/api.ts` is modelled. The session's calls are oracles.
- Ideas, tasks and deliverables creation handlers and their listing routes other than those above are not modelled: they hold no rule beyond validation, which `Schemas` covers.

## Findings

| source | as written | input that shows it | evidently intended | confidence | as-written member | corrected member |
|---|---|---|---|---|---|---|
| frontend/src/app/project/page.tsx:14-21 | `map[s] \|\| s` and `map[s] \|\| "chip"` read an object literal, so inherited `Object.prototype` names are found | a task whose status is "toString" (or "__proto__" for the class) | only the six own keys are looked up, as the switch in `lib/status.ts` does | not executed | StatusView.PageLookupInheritedName | StatusView.OwnLookupIsSwitch |

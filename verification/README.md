# DevTrack, modelled and proved

DevTrack is an issue tracker: a FastAPI backend over PostgreSQL, with Redis for a dashboard
cache, rate limits and dead letters, Celery workers for CSV exports, and WebSockets for live
notifications. These files model the parts whose correctness depends on state, order and time,
and prove what the code promises about them, over every input, every run and every interleaving.

| file | what it models |
|---|---|
| `Options.dfy`, `Sets.dfy` | optional values, errors, finite sets |
| `Store.dfy` | seven tables, their foreign keys and relationships |
| `Cascade.dfy` | what a delete takes with it and what it leaves |
| `Dashboard.dfy` | the summary and what it depends on |
| `Services.dfy` | what each request does to the database and answers |
| `Tracker.dfy` | whole runs of requests: integrity, ids |
| `Effects.dfy` | what every request does and answers, told by the columns alone |
| `Coherence.dfy` | the dashboard cache over whole runs |
| `Workflow.dfy` | the issue workflow over whole runs |
| `Rules.dfy` | what holds of every request: refusals, rights, who is notified |
| `Server.dfy` | the services as methods that change database and cache step by step |
| `Staleness.dfy` | the cache when queries, commits, stores and deletes interleave and Redis fails |
| `Registry.dfy` | the socket registry under coroutines that interleave at each await |
| `Realtime.dfy` | committing threads against the event loop: no notification is lost |
| `ExportJobs.dfy` | the export row, the backoff, the file, the sweep |
| `ExportRuns.dfy` | API, broker, worker, reaper and clock as interleaved steps; timing |
| `ExportLifecycle.dfy` | what every run keeps, and what holds of jobs no reaper read too late |
| `ExportOutcomes.dfy` | how task chains end, in every run; where the grace period falls short |
| `ExportWorker.dfy` | request, attempt, exception handler and sweep as methods refining those steps |
| `RateLimit.dfy` | the fixed-window limiter against a log of requests |
| `DeadLetter.dfy` | the capped, expiring list against a history of pushes |
| `Keys.dfy` | how Redis keys are printed and why they never collide |
| `ImageRef.dfy` | the image-reference parser and its canonical print |
| `ImageDigest.dfy` | the same for references with a digest |

## How the parts fit

Each request is a function from a database to a database and an answer (`Services`). Runs are
sequences of requests (`Tracker`), and the methods in `Server` are proved to take exactly those
steps, so the theorems about runs hold of them. `Effects` says, table by table and column by column
and without those functions, what every request leaves and answers; the laws of `Coherence`,
`Workflow` and `Rules` are derived from it. `Realtime` likewise reads its states off the steps alone.

The same split is used for exports: `ExportRuns` gives the steps, `ExportLifecycle` and
`ExportOutcomes` prove what runs keep, and every method of `ExportWorker.Exports` extends a record
that is proved to be such a run, with others' steps falling between its own.

The keys of the cache, the limiter and the dead-letter list share one Redis database in the
original. The model keeps three typed maps; `Keys.KeyFamiliesDisjoint` is why that loses nothing.

Assumptions: ids are never reused; a Redis pipeline is one atomic step; a publish that raises
published nothing and a message is delivered at most once; a task is killed 300 seconds after it
starts; a backlog query sees what was committed before it; a commit that breaks a NOT NULL,
UNIQUE or foreign-key rule is refused as a whole; the random jitter is any factor in [0.5, 1.5].

## Where the code and its documentation part ways

The model follows the code.

- `docs/db/EXPLAIN_OUTPUT.md:123` says comments drop the cached summary. They do not, and need
  not: no comment enters the summary (`Coherence.UncountedFrame`).
- `backend/app/tasks/export_tasks.py:48-51` says a slow export is never mistaken for a dead one.
  Three attempts at full length with their backoffs take 909 s against a grace of 900 s, measured
  from the request: `ExportOutcomes.ReaperCanFailALiveJob` is such a run. Reapers keep to dead
  chains, and clients never see a live job failed, exactly if no scan reads it past its grace
  (`ExportLifecycle.ReapersHoldOnlyTheDead`, `ExportLifecycle.NeverSeenFailedExactly`), and the
  theorems about terminal states hold of every job so spared; attempts, completed files and
  downloads need no such condition.
- `backend/app/tasks/export_tasks.py:129-131` clears the error message on completion. A row loaded
  without one has nothing to clear, so a message a sweep wrote in between stays on the completed row;
  `ExportLifecycle.FieldsAlwaysMatch` promises none for jobs no scan caught alive.
- A cached summary is not always one snapshot (`Staleness.SummaryCanBeTorn`); it is exactly when
  nothing is committed between its queries (`Staleness.OneVersionExactly`). And invalidation does not
  always make the cache right (`Staleness.FillCanOutliveInvalidation`); it does exactly when all that
  is under way is right by the database (`Staleness.InvalidationWorksExactly`), for which it is enough
  that it holds no older reading (`Staleness.FreshIsHarmless`).
- `peek_dead_letters(0)` shows one entry: `DeadLetter.PeekRespectsPositiveLimits`.
- A limiter request delayed between its clock reading and its pipeline can find the counter
  already expired: `RateLimit.LateRequestSlipsThrough`. `RateLimit.AllowedIsFirstLimit` says exactly
  when the limiter counts right.
- `parse_ref` keeps the tag in the repository of a reference that has both tag and digest, and the
  canonical print of a quoted reference with inner white space does not parse back:
  `ImageDigest.DigestReadsBack`, `ImageRef.ReparseExactly`; without white space it always does
  (`ImageRef.PlainReferencesReparse`). With a digest the print reads back only in
  the cases `ImageDigest.PrintedReferenceParsesExactly` gives.

## Model

| member | source | states |
|---|---|---|
| `Store.IntegrityByColumns` | backend/app/database/models.py:86-217 | every foreign key resolves if and only if owners, projects, assignees, authors, users of records, recipients, issues of notifications and requesters all exist |
| `Cascade.Closure` | backend/app/database/models.py:59-77 | following cascading relationships from the deleted rows stops at a set that holds them and that no relationship leads out of |
| `Cascade.ClosureExact` | backend/app/database/models.py:59-96 | a delete collects exactly the rows joined to the deleted row by a chain of `all, delete-orphan` relationships |
| `Cascade.DeleteRemovesExactlyReachable` | backend/app/database/models.py:126-135 | in every one of the seven tables a row is gone after the delete if and only if it was reachable |
| `Cascade.DeleteKeepsIntegrity` | backend/app/database/models.py:121-122 | if every foreign key resolved before a delete of any row, every foreign key resolves after it |
| `Cascade.DeleteChangesOnlyAssignees` | backend/app/database/models.py:127-129 | a surviving row is unchanged, except that an issue assigned to a deleted user loses its assignee |
| `Cascade.DeleteIsMinimal` | backend/app/database/models.py:90-96 | any set of rows that holds the deleted row and is closed under cascading holds every row the delete takes |
| `Cascade.CascadeNeverReachesUsers` | backend/app/api/users.py:45-49 | no delete takes a user other than the one it was asked for |
| `Cascade.ProjectTaken` | backend/app/services/project_service.py:65-71 | a delete takes a project if and only if it was asked for that project or for its owner |
| `Cascade.IssueTaken` | backend/app/services/issue_service.py:104-110 | a delete takes an issue if and only if it was asked for that issue or takes its project |
| `Cascade.CommentTaken` | backend/app/database/models.py:145-146 | a delete takes a comment if and only if it was asked for that comment or for its author, or takes its issue |
| `Cascade.LogTaken` | backend/app/database/models.py:158 | a delete takes an activity record if and only if it was asked for that record or for its user |
| `Cascade.NotificationTaken` | backend/app/database/models.py:180-186 | a delete takes a notification if and only if it was asked for that notification or for its recipient, or takes its issue |
| `Cascade.JobTaken` | backend/app/database/models.py:216-217 | a delete takes an export job if and only if it was asked for that job or for its requester, or takes its project |
| `Dashboard.SummaryByColumns` | backend/app/services/dashboard_service.py:41-74 | for any database and user the parts of the summary are the numbers of projects the user owns, of issues in them, of those done, of those todo or in progress, and of those with high priority |
| `Dashboard.CompletedAndPendingPartition` | backend/app/services/dashboard_service.py:41-74 | for any database and user, total issues = completed + pending, and high-priority issues are at most the total |
| `Dashboard.SummaryFrame` | backend/app/services/dashboard_service.py:41-74 | the summary depends only on which projects the user owns and on project, status and priority of their issues |
| `Effects.AnswersExactly` | backend/app/services/issue_service.py:29-151 | every request of every kind is answered as the columns call for, the first that applies: maker unknown, right missing (owner of the project or administrator; author or administrator; recipient; administrator), row or assignee absent, status skipped, address taken, NOT NULL, UNIQUE or foreign key broken, else the id made or named |
| `Effects.RefusedExactly` | backend/app/services/issue_service.py:35-172 | a refused request leaves the database exactly as it was, but for the id lost with an issue the commit refused |
| `Effects.UsersExactly` | backend/app/api/users.py:22-50 | after any granted request: which users there are, and their columns; only a registration makes one, only its own edit changes name and address, nothing changes a role |
| `Effects.ProjectsExactly` | backend/app/services/project_service.py:14-73 | after any granted request: a new project has the title and description asked for and its maker as owner; an edit sets exactly the columns it gives; a project goes with itself or its owner |
| `Effects.IssuesExactly` | backend/app/services/issue_service.py:35-172 | after any granted request, each column of each issue: an edit sets what it gives, an assignment sets the assignee asked for, a status change the status asked for, a deleted user is unassigned, a new issue is as asked for and todo; all else is as it was |
| `Effects.CommentsExactly` | backend/app/services/comment_service.py:21-59 | after any granted request: a new comment has its issue, author and text; a comment goes with itself, its author or its issue; none is edited |
| `Effects.LogsExactly` | backend/app/services/issue_service.py:52-160 | after any granted request: exactly registering, account activity, creating, assigning and moving leave a record, of the maker and what was done; a record goes with its user |
| `Effects.NotificationsExactly` | backend/app/services/notification_service.py:19-78 | after any granted request: an assignment tells the assignee asked for, a status change or comment the assignee, never the maker, in one unread notification naming author, title and issue; reading marks the row read or all of the caller; a notification goes with its recipient or issue |
| `Effects.JobsExactly` | backend/app/services/export_service.py:19-29 | after any granted request: an export request leaves one pending job of the project and caller; a job goes with its requester or project |
| `Effects.SequencesExactly` | backend/app/database/models.py:83 | a granted request moves each id sequence by the rows it makes |
| `Effects.CacheExactly` | backend/app/services/dashboard_service.py:17-38 | a granted write drops from the cache exactly the summary of the project's owner, for a new, edited, moved or deleted issue and a new or deleted project, and nothing else; nothing when Redis is down |
| `Tracker.RunKeepsIntegrity` | backend/app/services/issue_service.py:35-172 | over every sequence of requests every foreign key resolves, and every row's id lies below its table's sequence, refused commits included |
| `Tracker.IdsAreHandedOutOnce` | backend/app/database/models.py:83 | in no run and no table does a sequence go back or an id come back once its row is gone |
| `Coherence.ServeFrame` | backend/app/services/dashboard_service.py:17-38 | a request that does not drop a user's cached summary leaves everything that user's summary is computed from unchanged |
| `Coherence.UncountedFrame` | backend/app/services/issue_service.py:115-141 | assigning an issue, commenting, deleting a comment and reading move no user's summary, which is why they drop no cache entry |
| `Coherence.DeletingAUserKeepsOtherSummaries` | backend/app/api/users.py:38-50 | deleting a user, which drops no cache entry, leaves every other user's summary as it was |
| `Coherence.StepCoherent` | backend/app/services/dashboard_service.py:77-89 | one request, with Redis up, keeps every existing user's cached summary equal to the computed one, and leaves no entry waiting for a user yet to come |
| `Coherence.RunCoherent` | backend/app/utils/cache.py:34-62 | every sequence of requests, waits and recoveries without a Redis outage keeps every existing user's cached summary equal to the computed one |
| `Coherence.ServedSummaryIsCurrent` | backend/app/services/dashboard_service.py:77-89 | after every such run the dashboard answers with what the database holds |
| `Coherence.ServedWithinLifetime` | backend/app/utils/cache.py:34-44 | over every run, Redis outages included, from an empty cache, the dashboard shows what the database said at an instant of the run less than 60 s before |
| `Coherence.StoreThenRead` | backend/app/utils/cache.py:47-53 | a stored value is read at any time until its lifetime ends and missed from then on; other keys read as before |
| `Coherence.DropThenRead` | backend/app/utils/cache.py:56-62 | a dropped key is a miss at any later time; other keys read as before |
| `Coherence.ComputedOncePerMinute` | backend/app/services/dashboard_service.py:77-89 | a summary computed on a miss is served again for sixty seconds whatever becomes of the database, if nothing drops it; a hit changes nothing |
| `Coherence.RunClock` | backend/app/utils/cache.py:47-53 | over every run the clock that entries expire by moves by what the requests wait, and never back |
| `Staleness.InvariantKept` | backend/app/services/dashboard_service.py:41-89 | every interleaving of separate count queries, stores, commits, deletes and lost Redis writes keeps each reading true of a version current since its fill began |
| `Staleness.ServedSummariesAreRecent` | backend/app/utils/cache.py:34-62 | whatever interleaves and whatever Redis drops, every part of every served summary was true at an instant later than t - 60 s - d, d bounding the time from first query to store |
| `Staleness.BoundIsSharp` | backend/app/services/dashboard_service.py:77-89 | the bound of 60 s + d cannot be improved: as shortly before it as you like a run serves what no database has said since the fill began |
| `Staleness.OneVersionExactly` | backend/app/services/dashboard_service.py:41-74 | the summary a fill stores is of one version if and only if nothing was committed between its first query and its last |
| `Staleness.UndisturbedFillIsOneVersion` | backend/app/services/dashboard_service.py:41-89 | when nothing is committed between a fill's first and last query, its summary, served at once or from the cache, is the whole summary of one database current later than t - 60 s - d |
| `Staleness.SummaryCanBeTorn` | backend/app/services/dashboard_service.py:41-74 | such a commit can make a served summary whose total is not completed + pending |
| `Staleness.TornOnlyByACommit` | backend/app/services/dashboard_service.py:41-74 | a fill's total differs from completed + pending only if something was committed between its queries |
| `Staleness.FillCanOutliveInvalidation` | backend/app/services/dashboard_service.py:84-89 | a fill that read before a commit can store after the invalidation, leaving a wrong live entry although no delete was lost |
| `Staleness.CacheExactAfterInvalidation` | backend/app/services/dashboard_service.py:17-38 | after a delete that was not lost, until the next commit, whatever is cached is what the database says, if every fill and summary under way was right by the database at the delete |
| `Staleness.FreshIsHarmless` | backend/app/services/dashboard_service.py:17-38 | it is enough that nothing under way holds a reading older than the latest commit |
| `Staleness.InvalidationWorksExactly` | backend/app/services/dashboard_service.py:17-38 | a delete that was not lost leaves the cache right until the next commit or lost write, however the run goes on, if and only if every fill and summary under way is right by the database |
| `Staleness.HarmCanBeDone` | backend/app/services/dashboard_service.py:84-89 | otherwise some continuation without a commit or a lost write leaves a live entry that is not what the database says |
| `Workflow.StepStatus` | backend/app/services/issue_service.py:144-156 | no request but a successful status change alters an issue's status, and that takes it up exactly one rung; a new issue starts at todo |
| `Workflow.StatusIsItsMoves` | backend/app/services/issue_service.py:15-19 | over every run the successful moves of an issue created in it are exactly todo to in_progress to done, cut off at its present status |
| `Workflow.DoneMeansBothMoves` | backend/app/schemas/issue.py:22-27 | an issue is done if and only if exactly the two moves to in_progress and to done were made; updates cannot set a status |
| `Rules.RefusedChangesNothing` | backend/app/services/issue_service.py:35-172 | a refused request leaves every row and the whole cache as they were; an issue id is lost exactly when the commit refuses a new issue |
| `Rules.IssuesChangeByRight` | backend/app/services/issue_service.py:29-32 | over all requests, an existing issue changes or goes only by a granted request of its project's owner or an administrator |
| `Rules.ProjectsChangeByRight` | backend/app/services/project_service.py:45-47 | over all requests, an existing project changes or goes only by a granted request of its owner or an administrator |
| `Rules.AssigneeIsToldExactly` | backend/app/services/issue_service.py:131-171 | a granted assignment, status change or comment adds a notification exactly when it leaves the issue with an assignee other than its maker, to that assignee; user zero is told of assignments only |
| `Rules.NotificationsChangeByRecipient` | backend/app/services/notification_service.py:57-78 | over all requests, a notification changes only by its recipient reading it, and a new one takes a new id |
| `Rules.ReadStaysRead` | backend/app/services/notification_service.py:57-78 | over every run a notification keeps recipient, kind, text and issue, and once read stays read |
| `Rules.MarkAllReadExactly` | backend/app/services/notification_service.py:71-78 | leaves the caller nothing unread, answers how much there was, and touches no other user's notifications |
| `Rules.RunKeepsEmailsUnique` | backend/app/services/auth_service.py:27-45 | no run lets two users share an e-mail address |
| `Server.AssignIssueFields` | backend/app/services/issue_service.py:92-94 | the attribute loop makes of an issue what the collected update says, later items winning, nulls kept until the commit |
| `Server.AssignProjectFields` | backend/app/services/project_service.py:54-56 | the attribute loop makes of a project what the collected update says, later items winning |
| `Server.AssignUserFields` | backend/app/api/users.py:29-31 | the attribute loop makes of a profile what the collected update says, later items winning |
| `Server.LastItemDecides` | backend/app/services/issue_service.py:92-94 | of several items for one attribute of an issue the last decides, nulls included |
| `Server.UnsetStaysOut` | backend/app/services/issue_service.py:92-94 | an attribute without an item is not part of the update |
| `Server.LastProjectItemDecides` | backend/app/services/project_service.py:54-56 | the same for the attributes of a project |
| `Server.LastUserItemDecides` | backend/app/api/users.py:29-31 | the same for the attributes of a profile |
| `Server.ReadRows` | backend/app/services/notification_service.py:74-76 | the bulk-read loop, in any order, marks exactly the given rows and leaves every other row as it was |
| `Server.Backend.InvalidateForProject` | backend/app/services/dashboard_service.py:34-38 | drops the summary of the project's owner, of nobody if the project is gone |
| `Server.Backend.GetDashboardSummary` | backend/app/services/dashboard_service.py:77-89 | answer and new cache are those of the one-step view, whose summary `Dashboard.SummaryByColumns` counts |
| `Server.Backend.NotifyUser` | backend/app/services/realtime.py:42-81 | the notification row is committed first, and its push handed over exactly when the captured loop takes it: not before capture, not on a closed loop, not when scheduling raises |
| `Server.Backend.CreateProject` | backend/app/services/project_service.py:14-24 | new state and answer are those of the one-step request the runs are built from; the database stays sound |
| `Server.Backend.UpdateProject` | backend/app/services/project_service.py:50-62 | new state and answer are those of the one-step request the runs are built from, though attributes are set one by one; a null title is refused; who may is `Effects.AnswersExactly` |
| `Server.Backend.DeleteProject` | backend/app/services/project_service.py:65-73 | new state and answer are those of the one-step request the runs are built from, the owner being read before the row goes; who may is `Effects.AnswersExactly` |
| `Server.Backend.CreateIssue` | backend/app/services/issue_service.py:35-54 | new state and answer are those of the one-step request the runs are built from; a missing project is not found, a missing assignee is refused at commit |
| `Server.Backend.GetForChange` | backend/app/services/issue_service.py:29-32 | no such user, no such issue, neither owner of its project nor administrator, or the row, each exactly when the columns say so |
| `Server.Backend.UpdateIssue` | backend/app/services/issue_service.py:88-101 | new state and answer are those of the one-step request the runs are built from, though attributes are set one by one; nulls and a missing assignee are refused |
| `Server.Backend.DeleteIssue` | backend/app/services/issue_service.py:104-112 | new state and answer are those of the one-step request the runs are built from, the project being read before the row goes |
| `Server.Backend.AssignIssue` | backend/app/services/issue_service.py:115-141 | new state and answer are those of the one-step request, which gives the issue to the assignee asked for (`Effects.IssuesExactly`) and tells them (`Effects.NotificationsExactly`); the notification committed is the one pushed |
| `Server.Backend.CheckMove` | backend/app/services/issue_service.py:144-151 | refuses exactly what the status change refuses, with its error |
| `Server.Backend.ChangeIssueStatus` | backend/app/services/issue_service.py:144-172 | new state and answer are those of the one-step request the runs are built from, in the order row, record, cache, notification; the notification committed is the one pushed |
| `Server.Backend.AddComment` | backend/app/services/comment_service.py:21-39 | new state and answer are those of the one-step request the runs are built from; no cache entry is dropped |
| `Server.Backend.MarkNotificationRead` | backend/app/services/notification_service.py:57-68 | new state and answer are those of the one-step request the runs are built from; only the recipient may mark a notification read |
| `Server.Backend.MarkAllRead` | backend/app/services/notification_service.py:71-78 | marks exactly the caller's unread notifications and answers their number |
| `Server.Backend.UpdateMyProfile` | backend/app/api/users.py:22-35 | new state and answer are those of the one-step request the runs are built from, though attributes are set one by one; a null or taken e-mail address is refused |
| `Server.Backend.DeleteUser` | backend/app/api/users.py:38-50 | the cascade from a user, for administrators only, with no cache entry dropped |
| `Registry.EventTouchesOneSocket` | backend/app/core/ws_manager.py:40-47 | connecting or disconnecting one socket changes no other socket's registration, even if the user's set was removed and made again, and leaves no empty set |
| `Registry.ReplayExact` | backend/app/core/ws_manager.py:35-47 | after any history a socket is registered if and only if it was connected and not disconnected or dropped since; no user maps to an empty set |
| `Registry.FailedSendIsDropped` | backend/app/core/ws_manager.py:60-66 | a socket whose send failed is unregistered whatever other coroutines did while the push went on, unless one connects it again |
| `Registry.ConnectionManager.Connect` | backend/app/core/ws_manager.py:35-38 | adds one connect to the registry's history |
| `Registry.ConnectionManager.Disconnect` | backend/app/core/ws_manager.py:40-47 | adds one disconnect, removing the user when no socket is left |
| `Registry.ConnectionManager.PushToUser` | backend/app/core/ws_manager.py:49-67 | every socket of the snapshot is tried once; delivered + dropped is the snapshot's size; the history grows by what others did at each await and one disconnect per failure |
| `Registry.ConnectionManager.ConnectionCount` | backend/app/core/ws_manager.py:69-70 | the number of registered sockets of the user |
| `Realtime.InvariantKept` | backend/app/api/ws.py:59-101 | every interleaved step of committing threads and event loop keeps the registry exact and every committed notification received or pending for each socket that has read its backlog |
| `Realtime.BacklogFromSteps` | backend/app/services/notification_service.py:40-45 | for every run a backlog holds a notification if and only if an earlier step committed it for the socket's user and no earlier step marked it read or removed it |
| `Realtime.NotesFromSteps` | backend/app/services/notification_service.py:19-37 | along every run who a notification is for, and whether it is read or gone, is what the steps say |
| `Realtime.SocketsFromSteps` | backend/app/api/ws.py:59-111 | along every run whose a socket is, whether it is live and what has been pushed to it is what the steps say |
| `Realtime.PushesFromSteps` | backend/app/services/realtime.py:56-81 | along every run a push is unscheduled until its thread has looked for the loop, then skipped or scheduled, and runs from its start, each socket of it until sent to |
| `Realtime.NoLostNotification` | backend/app/services/realtime.py:56-81 | for every interleaving and every socket still connected by its steps, each notification that earlier steps committed for its user and neither read nor removed before the backlog query, and each committed since, was in the backlog, has been sent by a step, or has a push pending |
| `Realtime.QuietMeansDelivered` | backend/app/api/ws.py:69-101 | once no push is outstanding a connected socket has had in its backlog, or been sent by a step, everything it is owed |
| `Realtime.EverythingOwedCanArrive` | backend/app/services/realtime.py:56-81 | at any point of any run all that is owed to a connected socket can still arrive, by pushes alone, nobody else acting |
| `Realtime.SkippedPushPrecedesEveryRead` | backend/app/services/realtime.py:60-62 | a push skipped because no loop was set was committed by a step before any backlog query |
| `Realtime.NothingSentToStrangers` | backend/app/core/ws_manager.py:49-64 | whatever a socket got in its backlog or by a push, a step committed for its user first |
| `Realtime.OneLife` | backend/app/api/ws.py:59-111 | a run in which one notification reaches a socket by its backlog and the next by a push, and the socket goes |
| `ExportJobs.CountdownBounds` | backend/app/tasks/export_tasks.py:60-70 | delays lie between 1 and 90 s, the first retry in 1..3 s and the second in 2..6 s |
| `ExportJobs.BackoffDoubles` | backend/app/tasks/export_tasks.py:60-71 | without jitter the delay is 2 s and doubles up to 60 s; jitter leaves the average as it is |
| `ExportJobs.PathsDistinct` | backend/app/tasks/export_tasks.py:55-57 | different jobs write different files |
| `ExportJobs.QueryResultUnique` | backend/app/tasks/export_tasks.py:102 | project filter and id order leave the query exactly one result |
| `ExportJobs.QueryResultExists` | backend/app/tasks/export_tasks.py:102 | and there always is one, with a row for each issue of the project |
| `ExportJobs.WriteCsv` | backend/app/tasks/export_tasks.py:105-124 | the file is the eight headings and one line per issue of the query, in its order, with the issue's own column under each heading: nothing for an absent description, date or assignee, the assignee's address, priority and status by name |
| `ExportJobs.JobTable.RecoverStranded` | backend/app/tasks/export_tasks.py:214-239 | exactly the pending or running rows older than the cutoff become failed, with the status they were found in and the grace in the message and the time set, every other column kept; their number is returned, every other row is untouched |
| `ExportJobs.SweptByColumns` | backend/app/tasks/export_tasks.py:214-239 | the same of the sweep as a function, column by column |
| `ExportJobs.SweepIdempotent` | backend/app/tasks/export_tasks.py:214-239 | a second sweep with the same cutoff finds and changes nothing |
| `ExportRuns.OnTimeKept` | backend/app/core/celery_app.py:43 | every step keeps each chain within its waits, its attempts at the 300 s limit and its backoffs |
| `ExportRuns.AgeBound` | backend/app/tasks/export_tasks.py:44-52 | a job whose chain may still write is no older than waits + 300 s per attempt + 3 s and 6 s of backoff |
| `ExportLifecycle.ScanTakesLiveJobsExactlyWhenOld` | backend/app/tasks/export_tasks.py:214-222 | a reaper takes a job whose chain may still write if and only if it is older than 900 s; otherwise it takes only jobs whose chain was lost |
| `ExportLifecycle.ReapersHoldOnlyTheDead` | backend/app/main.py:124-135 | along every run reapers hold a job only once its chain is dead, if and only if no scan read it alive past its grace |
| `ExportLifecycle.NeverSeenFailedExactly` | backend/app/tasks/export_tasks.py:143-155 | along every run, and after any sweep under way, a job is never seen failed while its chain may write, if and only if no scan read it alive past its grace |
| `ExportLifecycle.RejectedMeansFailed` | backend/app/services/export_service.py:40-65 | in every run a job the broker refused stays failed with attempts 0 |
| `ExportLifecycle.AttemptsOnlyGrow` | backend/app/tasks/export_tasks.py:97-101 | in every run the recorded attempts never decrease and never exceed 3 |
| `ExportLifecycle.RowsByColumns` | backend/app/tasks/export_tasks.py:97-168 | every step of every run, each column of each row: status, attempts, error text cut to 2000 characters, path, count and time as exactly the step named writes them, otherwise as they were; rows come by requests and go by removals |
| `ExportLifecycle.RetriesAreCounted` | backend/app/tasks/export_tasks.py:137-156 | in every run a chain carries as many retries as its steps made, at most two, and gives up only after two |
| `ExportLifecycle.StatusOnlyClimbs` | backend/app/tasks/export_tasks.py:97-168 | the status of a job no scan caught alive past its grace climbs pending, running, terminal; terminal is final; a completed row never changes again |
| `ExportLifecycle.FieldsAlwaysMatch` | backend/app/tasks/export_tasks.py:126-135 | for such a job, in every state, completed means path, count and time set and no error, failed means error and time set and no file, otherwise none is set |
| `ExportLifecycle.NotFailedBetweenAttempts` | backend/app/tasks/export_tasks.py:143-155 | nobody sees such a job failed while an attempt is running, waiting or about to be retried |
| `ExportLifecycle.WithinBudgetIsSpared` | backend/app/tasks/export_tasks.py:44-52 | if at every scan a live job's waits, attempts begun and backoffs fit 900 s, no scan catches it alive and no reaper holds it before its chain is dead |
| `ExportLifecycle.BudgetByRetries` | backend/app/tasks/export_tasks.py:39-52 | one attempt leaves room for 600 s of waiting, two for 297 s, three at full length for none |
| `ExportLifecycle.CompletedMeansFile` | backend/app/tasks/export_tasks.py:102-132 | in every run a completed row names its own file, which an earlier step wrote for this job: the header and `row_count` lines, one per issue its query of the project returned, by increasing id |
| `ExportOutcomes.ChainsAreFinite` | backend/app/tasks/export_tasks.py:74-77 | however a run interleaves, one job's chain takes at most 17 steps, so it ends |
| `ExportOutcomes.OneLetterPerDeadChain` | backend/app/tasks/export_tasks.py:169-184 | a chain pushes one dead letter if it ends dead-lettered and none if it completes, is rejected or is lost |
| `ExportOutcomes.RetryableExactly` | backend/app/tasks/export_tasks.py:80-95 | `retryable` is false only if a lookup at an attempt's start answered that there is no row, and such an attempt ends that way unless its process dies; a lookup that raises is retried like any failure |
| `ExportOutcomes.DownloadExactlyWhenCompleted` | backend/app/services/export_service.py:81-98 | in every run a download is not found if and only if there is no such job, refused if and only if the caller is neither requester nor project owner nor administrator, and else succeeds if and only if the job is completed, serving that job's own export |
| `ExportOutcomes.ReaperCanFailALiveJob` | backend/app/tasks/export_tasks.py:44-52 | a job that never waits but takes three long attempts can be reaped as failed and complete afterwards |
| `ExportOutcomes.OnlyALateScanReopensAJob` | backend/app/tasks/export_tasks.py:214-222 | a job seen failed completes later only if a scan caught it alive past its grace |
| `ExportWorker.Exports.RequestExport` | backend/app/services/export_service.py:31-65 | a missing project is refused; else the row is committed pending before publishing, and a broker failure leaves it failed with attempts 0 unless it has gone, and the caller told; all of it steps of the state machine |
| `ExportWorker.Exports.Handle` | backend/app/tasks/export_tasks.py:137-186 | the exception handler takes exactly the steps of a retry, or of failing the row and pushing one retryable letter, or ends without either if it raises itself, whatever others do meanwhile |
| `ExportWorker.Exports.Conclude` | backend/app/tasks/export_tasks.py:126-132 | the last commit completes the row; if it fails or the row is gone the handler runs |
| `ExportWorker.AttemptEndsExactly` | backend/app/tasks/export_tasks.py:78-186 | whatever goes wrong, an attempt ends in a retry, after two retries in a failed row and a letter, in its own or its handler's death, in a letter for a missing row, or completed, each exactly when its faults say so |
| `ExportWorker.Exports.GenerateProjectExport` | backend/app/tasks/export_tasks.py:78-186 | one delivery, whatever raises in it, its lookup and its handler included, wherever its process dies, and whatever others do between its steps, takes exactly the state-machine steps that calls for; its answer fixes row and file |
| `ExportWorker.Exports.RecoverStranded` | backend/app/tasks/export_tasks.py:189-239 | a sweep is a scan step and a sweep step of the state machine, and equals the sweep of the table as it stands |
| `RateLimit.RetryLandsLater` | backend/app/utils/rate_limit.py:72-75 | although the clock is read twice, the wait lies in 1..window and always ends in a strictly later window |
| `RateLimit.CounterOfBucket` | backend/app/utils/rate_limit.py:59-67 | over any log, a window's counter exists once the window had a request, never exceeds their number, and equals it if and only if no gap let it expire |
| `RateLimit.AnswerIsRank` | backend/app/utils/rate_limit.py:63-72 | a request is answered with its rank in its window if and only if no earlier gap let the counter expire |
| `RateLimit.PromptLeavesNoGap` | backend/app/utils/rate_limit.py:65-66 | a key's requests that run in the window their clock reading fell into never let a counter expire inside its window |
| `RateLimit.AllowedIsFirstLimit` | backend/app/utils/rate_limit.py:72-77 | whatever the limit, a request is allowed exactly when it is among the first `limit` of its key and window: if and only if that window saw no gap |
| `RateLimit.AtMostTwiceTheLimit` | backend/app/utils/rate_limit.py:59-77 | any interval of one window length admits at most 2 * limit requests of a key, if the two windows it meets saw no gap; other keys do not matter |
| `RateLimit.PromptIsFirstLimit` | backend/app/utils/rate_limit.py:72-77 | in particular for a key whose requests are prompt |
| `RateLimit.PromptAtMostTwiceTheLimit` | backend/app/utils/rate_limit.py:59-77 | in particular for a key whose requests are prompt, at most 2 * limit pass in any window length |
| `RateLimit.LateRequestSlipsThrough` | backend/app/utils/rate_limit.py:59-67 | a request whose pipeline runs long after its clock reading can find the counter expired and be counted as the first |
| `RateLimit.LateRequestsBreakAnyBound` | backend/app/utils/rate_limit.py:59-67 | without that there is no bound: any number of late requests of one window pass a limit of one |
| `RateLimit.Limiter.Pipeline` | backend/app/utils/rate_limit.py:64-67 | one atomic increment and expiry answers with the count the log gives |
| `RateLimit.Limiter.IsAllowed` | backend/app/utils/rate_limit.py:52-77 | allowed exactly for the first `limit` of the window; open when Redis is down, nothing counted; a denial's wait lands in a later window |
| `Keys.DecimalInjective` | backend/app/services/dashboard_service.py:13-14 | different ids print differently and without a colon |
| `Keys.LimiterKeysDistinct` | backend/app/core/rate_limit_dep.py:26 | for colon-free actions, counter keys are equal if and only if action, scope, subject and window are, colons in an address included |
| `Keys.ColonInActionCollides` | backend/app/core/rate_limit_dep.py:41 | a colon in an action lets two different limits share a counter, for any action and addresses |
| `Keys.DashboardKeysDistinct` | backend/app/services/dashboard_service.py:14 | two users share a dashboard key only if they are the same user |
| `Keys.KeyFamiliesDisjoint` | backend/app/utils/dead_letter.py:46 | limiter, dashboard and dead-letter keys never collide |
| `DeadLetter.SinceIsLongestRun` | backend/app/utils/dead_letter.py:46-50 | what is still listed is the longest run of pushes up to now without a clear and without seven quiet days |
| `DeadLetter.KeptIsLongestRun` | backend/app/utils/dead_letter.py:46-50 | the list is as long as that run, up to 500 |
| `DeadLetter.NewestFirstUnique` | backend/app/utils/dead_letter.py:83-86 | the history determines the list: the newest at most 500 pushes, newest first |
| `DeadLetter.ExpiresOnlyAfterSevenQuietDays` | backend/app/utils/dead_letter.py:47-49 | the list loses nothing to expiry before seven days after the last push and is empty from then on |
| `DeadLetter.PeekRespectsPositiveLimits` | backend/app/utils/dead_letter.py:103 | what a peek shows is at most `limit` if and only if the limit is positive or the list is empty |
| `DeadLetter.DeadLetterList.ListIsHistory` | backend/app/utils/dead_letter.py:76-97 | the stored list is at all times the newest at most 500 successful pushes since the last clear or expiry, newest first |
| `DeadLetter.DeadLetterList.Push` | backend/app/utils/dead_letter.py:70-97 | a successful push extends the history by that entry, a failed one changes nothing |
| `DeadLetter.DeadLetterList.Peek` | backend/app/utils/dead_letter.py:100-113 | the newest entries in order, `limit` of them or all there are, one for a limit below one; one that is no entry is marked and cut to 500 characters; nothing when Redis is down |
| `DeadLetter.DeadLetterList.Count` | backend/app/utils/dead_letter.py:116-127 | the number of entries, -1 when Redis is down |
| `DeadLetter.DeadLetterList.Clear` | backend/app/utils/dead_letter.py:130-142 | empties the list and says whether there was one; nothing when Redis is down |
| `ImageRef.PathByText` | scripts/check_images.py:111-121 | the registry of `host/path` is `host` if that has a dot or a colon or is localhost, else all of it is a Docker Hub path; a short Docker Hub path gets `library/` |
| `ImageRef.RegistryTagged` | scripts/check_images.py:111-126 | what `host/repo:tag` means for every such registry host, repository and tag |
| `ImageRef.RegistryUntagged` | scripts/check_images.py:111-127 | what `host/repo` means: the tag is `latest` |
| `ImageRef.HubReference` | scripts/check_images.py:111-127 | what `first/rest` and `first/rest:tag` mean when `first` is no registry |
| `ImageRef.ShortTagged` | scripts/check_images.py:117-126 | what `name:tag` means: the Docker Hub library's |
| `ImageRef.ShortUntagged` | scripts/check_images.py:117-127 | what `name` alone means |
| `ImageRef.PaddingIgnored` | scripts/check_images.py:106 | white space around a reference, and quotes inside it, make no difference to what it means |
| `ImageRef.PrintParses` | scripts/check_images.py:104-127 | parsing the canonical print of well-formed digest-free parts gives exactly those parts |
| `ImageRef.ParsedIsSeparable` | scripts/check_images.py:111-127 | whatever a digest-free name parses to is well formed |
| `ImageRef.CleanPrint` | scripts/check_images.py:106 | cleaning a print shortens its registry from the left and its tag from the right, and nothing else |
| `ImageRef.PrintParsesExactly` | scripts/check_images.py:179 | the print of well-formed parts reads back as them if and only if cleaning leaves registry and tag whole |
| `ImageRef.ReparseExactly` | scripts/check_images.py:104-127 | re-parsing the print of any digest-free reference gives the same triple if and only if no quoted white space is exposed at its registry or tag |
| `ImageRef.PlainReferencesReparse` | scripts/check_images.py:104-127 | the print of every digest-free reference without white space, quoted or not, reads back |
| `ImageRef.QuotedPaddingDoesNotReparse` | scripts/check_images.py:106 | a reference with white space inside its quotes whose print does not read back |
| `ImageDigest.DigestReadsBack` | scripts/check_images.py:108-127 | for every text with an `@`: registry and digest come back, the repository is the bare name's if and only if the name has no tag, and an empty digest counts as none |
| `ImageDigest.ShortNameWithDigest` | scripts/check_images.py:115-123 | a short name with a digest is the Docker Hub library's |
| `ImageDigest.DigestFormParsesExactly` | scripts/check_images.py:108-123 | `registry/repository@digest` reads back if and only if cleaning leaves registry and digest whole |
| `ImageDigest.DigestReparseExactly` | scripts/check_images.py:104-127 | for every reference with a digest, tagged or not, that form of what it parses to parses to the same if and only if no white space is exposed |
| `ImageDigest.PlainDigestsReparse` | scripts/check_images.py:104-127 | and so does that form of every reference with a digest and without white space |
| `ImageDigest.PrintedReferenceParsesExactly` | scripts/check_images.py:179 | for every reference with a digest, the form the checker prints parses to the same if and only if the digest is free of `:` and `@` and no white space is exposed |

## Left out

- ExportLifecycle.StatusOnlyClimbs: holds of jobs no scan caught alive past their grace, because a reaper that takes a live job lets it complete after it failed; `ExportOutcomes.ReaperCanFailALiveJob` is that run.
- Staleness.UndisturbedFillIsOneVersion: needs nothing to be committed between the queries of a fill, because such a commit can tear the summary.
- RateLimit.AtMostTwiceTheLimit: needs the two windows to have seen no gap, because late requests break any bound (`RateLimit.LateRequestsBreakAnyBound`).
- RateLimit.Limiter.IsAllowed: takes the clock readings as parameters of one non-decreasing clock; a clock that steps back is not modelled.
- HTTP routing, Pydantic length and format limits, logging, migrations: no invariant beyond what the services keep.
- Passwords, JWT signing, token types and CORS: library calls; a caller is an id that either names a user or does not.
- Listing and search queries: filters and orders without state.
- Texts of activity records, notifications and reaper messages: kept as structured values that name everything the text interpolates.
- CSV quoting, file-system errors and half-written files: a file is a sequence of lines of cells; a failed write leaves the previous file in the model and a partial one in reality, until the next attempt overwrites it.
- Assignee addresses in an export: read from the same snapshot as the issues, while the original loads them row by row.
- Celery, Redis and SQLAlchemy internals: taken as the steps named under the assumptions.
- A failed dead-letter push: the export machine records that a push was attempted; whether it was stored is `DeadLetter.DeadLetterList.Push`.
- Concurrent status changes: the check and the write are not locked in the original, so the workflow theorems are about requests served one after another.
- A thread that dies between committing a notification and scheduling its push, and in `Realtime` a loop that closes: the notification stays in the table and reaches the next backlog.
- `token_scope_granted`, `find_refs` and the registry calls of `scripts/check_images.py`: network and file access around simple checks.

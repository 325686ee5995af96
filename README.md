# termbenchbot job lifecycle, in Dafny

termbenchbot coordinates terminal benchmarks. A poller reads GitHub
notifications. When a pull request comment mentions `@perfbot`, the poller
stages a benchmark job in a SQLite table. Worker processes list the pending
jobs over HTTP, mark one as running, and post its results back. The bot
then publishes the results as a comment on the pull request.

A job has three states:

- **pending**: `started_at` is NULL;
- **running**: `started_at` holds the time it was marked;
- **terminated**: the row has been deleted.

This project models that lifecycle and proves what each step does to the
table.

- `clock.dfy` (`Clock`): timestamps are whole seconds. The caller always
  passes the current time.
- `github.dfy` (`GitHub`): the order of `UserAssociation` and the records the
  poller reads. It also models the subject-type guard of
  `Notification::pull_request`; the HTTP request behind the guard is a
  function parameter.
- `model.dfy` (`Model`): the database is a class, `Model.Database`.
  - The `job` table is a sequence of rows in scan order, with ascending ids.
  - The `master_build` log is also a sequence.
  - For each SQL statement, a function says what it does to a table. The
    class's methods apply these functions in place.
  - `Find` is `from_id`. The frame lemmas state through `Find` which rows
    change and which do not.
  - A new row gets the largest id in use plus one, or 1 in an empty table.
- `main.dfy` (`Poller`): the trigger test of `process_notification`, the
  staging of a job and one cycle of `watch_notifications`.
  - The fetched notifications are inputs, and so are the answers to the
    pull request and comments requests.
  - A cycle processes every notification, then reclaims stale jobs once.
- `webserver.dfy` (`Webserver`): the three worker handlers. Publishing a
  comment is a parameter `publish(target, text)` that answers whether it
  worked.

Where the code does less than the bot is meant to do, the model follows the
code:

- The author-association check is commented out, so a comment from any
  association triggers a job.
- No repository whitelist exists, and notifications are never marked read or
  unsubscribed.
- No code ingests commits from a tracked branch. `MasterBuild` is only stored
  and read.
- `submit_results` answers 200 even when publishing fails. `PATCH /jobs/<id>`
  succeeds for an unknown id and leaves the table unchanged.
- `process_notification` calls `NewJob::new(comments_url, repository, hash)`
  against the parameter order `(repository, comments_url, hash)`. The model
  keeps this swap:
  - a staged row's `repository` holds the pull request's comments URL;
  - its `comments_url` holds the repository's full name;
  - `submit_results` publishes to that field.

## Model

| member | source | states |
|---|---|---|
| GitHub.PartialCmp | src/github.rs:179-184 | `partial_cmp` always answers `Some`. It answers `Equal` exactly for the same variant, and `Less` or `Greater` exactly as the declaration indices compare |
| GitHub.DeclarationOrder | src/github.rs:171-177 | NONE < CONTRIBUTOR < COLLABORATOR < MEMBER < OWNER. NONE is the least association and OWNER the greatest |
| GitHub.PartialCmpTotal | src/github.rs:181-183 | `partial_cmp` never answers `None`. Swapping its arguments swaps `Less` and `Greater` and keeps `Equal` |
| GitHub.LeTotalOrder | src/github.rs:179-184 | the derived `<=` is reflexive, antisymmetric, transitive and total. `<` is `<=` between different variants |
| GitHub.PullRequestOf | src/github.rs:61-67 | a subject that is not a pull request gives the error "subscription is not a pull request". Otherwise the answer is the GET request on the subject URL |
| GitHub.GuardPrecedesRequest | src/github.rs:61-64 | for a subject that is not a pull request, the result does not depend on what the request would answer: no request is made |
| Model.Find | src/model.rs:32-34 | `from_id` returns a row carrying that id, or nothing exactly when no row has it |
| Model.FindRow | src/model.rs:32-34 | in a table in id order, `from_id` of a row's id returns that row |
| Model.Without | src/model.rs:37-42 | the rows kept by `delete` are exactly the rows with another id. Their id order is kept |
| Model.DeleteFrame | src/model.rs:37-42 | after `delete`, the id is not found and the table is one row shorter if the id existed. Every other id finds the same row as before |
| Model.WithStartedAt | src/model.rs:45-58 | updating `started_at` keeps the number of rows and every row's id |
| Model.StartedAtFrame | src/model.rs:45-58 | `mark_pending` or `mark_started` changes only `started_at`, and only on the row with that id. Every other row is unchanged |
| Model.StartedAtUnknownId | src/model.rs:53-58 | `mark_started` on an id no row has leaves the table unchanged |
| Model.StartedAtLastWriterWins | src/model.rs:53-58 | marking the same id twice equals marking it once with the second timestamp: the last writer wins and no row is added |
| Model.StaleLimit | src/model.rs:11-12 | a job is stale at the cutoff for `now` exactly when it has been running for more than `MAX_BENCH_MINUTES` = 120 minutes |
| Model.Reclaimed | src/model.rs:61-67 | `update_stale` clears `started_at` on exactly the rows whose `started_at` is set and strictly before the cutoff. It touches no other field and no other row, and afterwards no row is stale |
| Model.ReclaimIdempotent | src/model.rs:61-67 | running `update_stale` twice with the same cutoff is the same as running it once |
| Model.NextJobId | src/model.rs:89-92 | the id a new row gets is larger than every id in use |
| Model.Insert | src/model.rs:72-92 | `NewJob::insert` appends one pending row with a fresh id and the given `repository`, `comments_url` and `hash`. Earlier rows are unchanged |
| Model.InsertFrame | src/model.rs:89-92 | after an insert, the new id finds the new row and every other id finds what it found before |
| Model.LatestOf | src/model.rs:103-108 | `latest` returns nothing exactly for an empty log. Otherwise it returns an entry whose id is the largest in the log |
| Model.NextBuildId | src/model.rs:124-127 | a new master build gets an id larger than every id in the log |
| Model.AppendBuild | src/model.rs:117-127 | `NewMasterBuild::insert` appends one entry with the given hash. Every earlier entry is kept |
| Model.LatestAfterAppend | src/model.rs:103-127 | after an insert, `latest` returns the hash just inserted |
| Model.Database.All | src/model.rs:27-29 | `all` returns every row of the table, in id order |
| Model.Database.FromId | src/model.rs:32-34 | `from_id` finds a row exactly when a row has that id, and the row it returns has that id |
| Model.Database.Delete | src/model.rs:37-42 | the job table becomes `Without` the job's id, and the master-build log is untouched |
| Model.Database.MarkPending | src/model.rs:45-50 | the job table becomes the old one with that job's `started_at` cleared. The log is untouched |
| Model.Database.MarkStarted | src/model.rs:53-58 | the job table becomes the old one with that id's `started_at` set to now. The log is untouched |
| Model.Database.UpdateStale | src/model.rs:61-67 | the job table becomes the old one reclaimed at the cutoff `now - 120 minutes` |
| Model.Database.InsertJob | src/model.rs:89-92 | the job table becomes the old one with one new pending row appended |
| Model.Database.Latest | src/model.rs:103-108 | the result is nothing exactly for an empty log; otherwise it is the entry with the largest id |
| Model.Database.InsertMasterBuild | src/model.rs:124-127 | the log gains one entry at the end, and the job table is untouched |
| Poller.Contains | src/main.rs:74 | `str::contains` is true exactly when the pattern occurs at some position of the text |
| Poller.AnyRequest | src/main.rs:67-75 | the newest-first `any` holds exactly when some comment is newer than `last_read_at` (or `last_read_at` is unset) and mentions `@perfbot` |
| Poller.AnyRequestIgnoresOrder | src/main.rs:67 | any reordering of the comments (the `.rev()` included) gives the same outcome |
| Poller.AnyRequestIgnoresAssociation | src/main.rs:68-69 | comments that differ only in their author's association give the same outcome: association is not consulted |
| Poller.UnassociatedMentionIsRequest | src/main.rs:67-77 | a NONE-association comment newer than the last read that says "@perfbot run" triggers a job. The same text no newer than the last read does not, even from an OWNER. "@perf bot run" does not |
| Poller.Staged | src/main.rs:54-83 | a notification that is not about a pull request stages nothing. A job is staged exactly when the pull request was fetched and one of its comments is a request. The staged row has `repository` = the comments URL, `comments_url` = the repository name and `hash` = the merge commit SHA |
| Poller.StageInto | src/main.rs:83 | staging a job adds one row after the existing rows, which are unchanged. The new row is pending and carries the staged job's values. Staging nothing leaves the table as it was |
| Poller.ProcessNotification | src/main.rs:54-84 | the job table becomes the old one with the notification's staged job, if any, appended. The log is untouched |
| Poller.StagedJobs | src/main.rs:40-42 | the jobs a batch stages are exactly the staged jobs of its notifications, at most one per notification |
| Poller.StagedJobsAppend | src/main.rs:40-42 | the jobs staged by two batches processed in turn are the first batch's jobs followed by the second's |
| Poller.StageAll | src/main.rs:40-42 | processing a batch keeps the existing rows and appends exactly one pending row per staged job, in notification order, carrying that job's `repository`, `comments_url` and `hash` |
| Poller.PollCycle | src/main.rs:38-48 | one loop iteration stages every notification in turn and then calls `update_stale` once |
| Poller.CycleOutcome | src/main.rs:38-48 | after a cycle, the rows that were there are unchanged except that stale ones are pending again. They are followed by exactly the jobs the cycle staged, in notification order, each pending with its staged values |
| Webserver.PendingJobs | src/webserver.rs:17-21 | the listed jobs are exactly the rows with no `started_at`, kept in their table order |
| Webserver.Jobs | src/webserver.rs:17-21 | `GET /jobs` returns the pending rows of the current table, in order |
| Webserver.MarkStarted | src/webserver.rs:24-27 | `PATCH /jobs/<id>` delegates to `mark_started` with no check that the job exists |
| Webserver.SubmitOutcome | src/webserver.rs:31-46 | an unknown id gives NotFound and a pending job gives BadRequest, both leaving the table alone. For a running job the answer is Ok: the row is deleted if publishing worked and returned to pending otherwise. No other row changes |
| Webserver.SubmitResults | src/webserver.rs:31-46 | `POST /jobs/<id>` answers, and leaves the table, as `SubmitOutcome` says |
| Webserver.SubmitOkIgnoresPublish | src/webserver.rs:40-45 | for a running job the status is Ok whatever the publish outcome |
| Webserver.ClaimThenSubmit | src/webserver.rs:24-46 | a worker claims an existing job and then submits. The answer is Ok. The job is gone if the results were published, and pending with its other fields intact if not. Every other row is as before |

## Left out

- HTTP plumbing is not modelled (`json_request`, `request`, `Notification::all`, `PullRequest::comments`, `Comment::new`).
  - The fetched notifications are an input.
  - The pull request and comments requests are functions from URL to answer.
  - Publishing a comment is a function from target and text to success.
- Failed requests are only modelled where the code can see them. A failed comments request yields the empty list that `unwrap_or_default` produces, and that is just another input.
- The authorization, user-agent and accept header constants are configuration and I/O.
- `Reason`, `Subscription` and the unread fields of `Repository`, `Subject`, `PullRequest` and `Comment` only feed serde.
- Rocket routing and launch are not modelled, nor JSON encoding of `Job` and `BenchmarkResults`.
- `db_connection`, which reads `DATABASE_URL` and may panic, is not modelled. Every handler's fresh connection is the one shared `Database`.
- Storage errors are not modelled. `trace_error!` logs and swallows write errors, so every write is modelled as succeeding. Read failures (`unwrap_or_default`, `.ok()`) are not modelled either.
- Logging is not modelled.
- Threads, tokio, the 30-second sleep and concurrent handlers are left out. One loop iteration is a sequential step.
- The mark-read and unsubscribe calls are commented out in the code, so they are not modelled.
- The commented-out association check is not modelled. The ordering it would use is modelled in `GitHub`.
- New ids are assumed to follow SQLite's rule for a rowid key without AUTOINCREMENT: the largest id in use plus one, or 1 in an empty table. The migration that creates the table is not part of this model. Under this rule a deleted last row's id can be reused. The contracts rely only on a new id being larger than every id in use.
- `id` is an `i32` in the code. The model uses unbounded integers, so id overflow is not modelled.
- Timestamps are whole seconds. Chrono's sub-second precision is not modelled.
- Commit-driven ingestion does not exist in this code. `MasterBuild` is modelled only as the log with `latest` and `insert`.
- `src/schema.rs` only fixes the row shapes. `repository` is text; `hash`, `comments_url` and `started_at` are nullable.

/**
 * The worker-facing HTTP handlers (src/webserver.rs): list the pending jobs,
 * mark a job as running, and accept a job's results. Publishing the results
 * as a GitHub comment is a parameter `publish(target, text)` that answers
 * whether the comment was created.
 */
module Webserver {
  import opened Wrappers
  import opened Clock
  import opened Model

  /** The HTTP statuses the handlers answer with. */
  datatype Status = Ok | BadRequest | NotFound

  /** A handler's `(Status, &str)` answer. */
  datatype Response = Response(status: Status, body: string)

  const NotRunningMessage: string := "job must be marked as running first"

  /** `a` is `b` with some elements left out, the rest in the same order. */
  predicate IsSubsequence(a: seq<Job>, b: seq<Job>)
    decreases |b|
  {
    if a == [] then true
    else if b == [] then false
    else
      || (a[|a| - 1] == b[|b| - 1] && IsSubsequence(a[..|a| - 1], b[..|b| - 1]))
      || IsSubsequence(a, b[..|b| - 1])
  }

  /** `jobs.retain(|job| job.started_at.is_none())`, as a value. */
  function PendingJobs(rows: seq<Job>): (r: seq<Job>)
    ensures forall j :: j in r <==> j in rows && j.Pending()
    ensures IsSubsequence(r, rows)
    ensures JobsOrdered(rows) ==> JobsOrdered(r)
  {
    if rows == [] then []
    else
      var earlier := rows[..|rows| - 1];
      var last := rows[|rows| - 1];
      var kept := PendingJobs(earlier);
      assert rows == earlier + [last];
      if last.Pending() then
        var r := kept + [last];
        assert r[..|r| - 1] == kept;
        assert JobsOrdered(rows) ==> JobsOrdered(r) by {
          if JobsOrdered(rows) {
            forall i | 0 <= i < |kept| ensures kept[i].id < last.id {
              assert kept[i] in earlier;
            }
          }
        }
        r
      else
        kept
  }

  /** GET /jobs: every pending job, in table order. */
  method Jobs(db: Database) returns (jobs: seq<Job>)
    requires db.Valid()
    ensures jobs == PendingJobs(db.jobs)
  {
    var all := db.All();
    jobs := [];
    for i := 0 to |all|
      invariant jobs == PendingJobs(all[..i])
    {
      assert all[..i + 1][..i] == all[..i];
      if all[i].startedAt.None? {
        jobs := jobs + [all[i]];
      }
    }
    assert all[..|all|] == all;
  }

  /** PATCH /jobs/<id>: mark the job as running, with no check that it exists. */
  method MarkStarted(db: Database, id: int, now: Timestamp)
    requires db.Valid()
    modifies db
    ensures db.Valid()
    ensures db.jobs == WithStartedAt(old(db.jobs), id, Some(now))
    ensures db.masterBuilds == old(db.masterBuilds)
  {
    db.MarkStarted(id, now);
  }

  /**
   * The answer to POST /jobs/<id> and the job table afterwards: NotFound
   * or BadRequest leave the table alone; for a running job the answer is
   * Ok whether or not the results could be published, and the job is
   * deleted if they were and returned to pending if not.
   */
  function SubmitOutcome(t: seq<Job>, id: int, result: string,
                         publish: (Option<string>, string) -> bool): (r: (Response, seq<Job>))
    requires JobsOrdered(t)
    ensures JobsOrdered(r.1)
    ensures Find(t, id).None? ==> r == (Response(NotFound, ""), t)
    ensures Find(t, id).Some? && Find(t, id).value.Pending() ==> r == (Response(BadRequest, NotRunningMessage), t)
    ensures Find(t, id).Some? && !Find(t, id).value.Pending() ==>
      var job := Find(t, id).value;
      && r.0 == Response(Ok, "")
      && (publish(job.commentsUrl, result) ==> Find(r.1, id).None? && |r.1| == |t| - 1)
      && (!publish(job.commentsUrl, result) ==> Find(r.1, id) == Some(job.(startedAt := None)) && |r.1| == |t|)
    ensures forall k :: k != id ==> Find(r.1, k) == Find(t, k)
  {
    match Find(t, id)
    case None => (Response(NotFound, ""), t)
    case Some(job) =>
      if job.startedAt.None? then (Response(BadRequest, NotRunningMessage), t)
      else if publish(job.commentsUrl, result) then
        DeleteFrame(t, job.id);
        (Response(Ok, ""), Without(t, job.id))
      else
        StartedAtFrame(t, job.id, None);
        (Response(Ok, ""), WithStartedAt(t, job.id, None))
  }

  /** POST /jobs/<id>: submit a job's benchmark results. */
  method SubmitResults(db: Database, id: int, result: string,
                       publish: (Option<string>, string) -> bool) returns (response: Response)
    requires db.Valid()
    modifies db
    ensures db.Valid()
    ensures (response, db.jobs) == SubmitOutcome(old(db.jobs), id, result, publish)
    ensures db.masterBuilds == old(db.masterBuilds)
  {
    var found := db.FromId(id);
    var job;
    match found {
      case Some(j) =>
        if j.startedAt.None? {
          return Response(BadRequest, NotRunningMessage);
        }
        job := j;
      case None =>
        return Response(NotFound, "");
    }
    FindRow(db.jobs, job);
    if publish(job.commentsUrl, result) {
      db.Delete(job);
    } else {
      db.MarkPending(job);
    }
    response := Response(Ok, "");
  }

  /** Whenever the job exists and is running, the status is Ok whatever the publish outcome. */
  lemma SubmitOkIgnoresPublish(t: seq<Job>, id: int, result: string,
                               p: (Option<string>, string) -> bool, q: (Option<string>, string) -> bool)
    requires JobsOrdered(t)
    requires Find(t, id).Some? && !Find(t, id).value.Pending()
    ensures SubmitOutcome(t, id, result, p).0 == SubmitOutcome(t, id, result, q).0 == Response(Ok, "")
  {
  }

  /** The round trip of a worker: claiming a pending job and then submitting ends with the job gone if the results were published, and pending again with its fields intact if not. */
  lemma ClaimThenSubmit(t: seq<Job>, id: int, now: Timestamp, result: string,
                        publish: (Option<string>, string) -> bool)
    requires JobsOrdered(t) && Find(t, id).Some?
    ensures var claimed := WithStartedAt(t, id, Some(now));
      var (response, after) := SubmitOutcome(claimed, id, result, publish);
      && response == Response(Ok, "")
      && (publish(Find(t, id).value.commentsUrl, result) ==> Find(after, id).None?)
      && (!publish(Find(t, id).value.commentsUrl, result) ==> Find(after, id) == Some(Find(t, id).value.(startedAt := None)))
      && forall k :: k != id ==> Find(after, k) == Find(t, k)
  {
    StartedAtFrame(t, id, Some(now));
  }
}

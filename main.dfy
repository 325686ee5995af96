/**
 * The notification poller (src/main.rs): which GitHub notifications stage a
 * benchmark job, how a job is staged, and one cycle of the polling loop.
 * The notification list, the pull request request and the comments request
 * are inputs; marking notifications read is not done by the code.
 */
module Poller {
  import opened Wrappers
  import opened Clock
  import opened GitHub
  import opened Model

  /** Text identifying that the bot has been mentioned. */
  const BotMention: string := "@perfbot"

  /** `pat` occurs in `s` starting at index `i`. */
  predicate OccursAt(s: string, pat: string, i: int)
  {
    0 <= i && i + |pat| <= |s| && s[i..i + |pat|] == pat
  }

  /** `str::contains`: whether `pat` occurs anywhere in `s`. */
  function Contains(s: string, pat: string): (r: bool)
    ensures r <==> exists i :: OccursAt(s, pat, i)
    decreases |s|
  {
    if |pat| <= |s| && s[..|pat|] == pat then
      assert OccursAt(s, pat, 0);
      true
    else if s == [] then
      false
    else
      var rest := Contains(s[1..], pat);
      assert forall i :: OccursAt(s[1..], pat, i) ==> OccursAt(s, pat, i + 1) by {
        forall i | OccursAt(s[1..], pat, i) ensures OccursAt(s, pat, i + 1) {
          assert s[i + 1..i + 1 + |pat|] == s[1..][i..i + |pat|];
        }
      }
      assert forall i :: OccursAt(s, pat, i) ==> OccursAt(s[1..], pat, i - 1) by {
        forall i | OccursAt(s, pat, i) ensures OccursAt(s[1..], pat, i - 1) {
          assert i != 0;
          assert s[1..][i - 1..i - 1 + |pat|] == s[i..i + |pat|];
        }
      }
      rest
  }

  /**
   * The closure given to `any`: the comment is newer than the
   * notification's `last_read_at` (any comment is, if it was never read)
   * and mentions the bot. The author's association is not consulted.
   */
  predicate IsRequest(c: Comment, lastReadAt: Option<Timestamp>)
  {
    (lastReadAt.None? || c.createdAt > lastReadAt.value) && Contains(c.body, BotMention)
  }

  /** `comments.iter().rev().any(..)`: look at the newest comment first. */
  function AnyRequest(cs: seq<Comment>, lastReadAt: Option<Timestamp>): (r: bool)
    ensures r <==> exists i :: 0 <= i < |cs| && IsRequest(cs[i], lastReadAt)
  {
    if cs == [] then false
    else
      var earlier := cs[..|cs| - 1];
      assert forall i :: 0 <= i < |earlier| ==> earlier[i] == cs[i];
      IsRequest(cs[|cs| - 1], lastReadAt) || AnyRequest(earlier, lastReadAt)
  }

  /** The order in which the comments are looked at does not affect the outcome. */
  lemma AnyRequestIgnoresOrder(cs: seq<Comment>, ds: seq<Comment>, lastReadAt: Option<Timestamp>)
    requires multiset(cs) == multiset(ds)
    ensures AnyRequest(cs, lastReadAt) == AnyRequest(ds, lastReadAt)
  {
    if AnyRequest(cs, lastReadAt) {
      var i :| 0 <= i < |cs| && IsRequest(cs[i], lastReadAt);
      assert cs[i] in multiset(ds);
      var j :| 0 <= j < |ds| && ds[j] == cs[i];
    }
    if AnyRequest(ds, lastReadAt) {
      var j :| 0 <= j < |ds| && IsRequest(ds[j], lastReadAt);
      assert ds[j] in multiset(cs);
      var i :| 0 <= i < |cs| && cs[i] == ds[j];
    }
  }

  /** Comments that differ only in their authors' association give the same outcome. */
  lemma AnyRequestIgnoresAssociation(cs: seq<Comment>, ds: seq<Comment>, lastReadAt: Option<Timestamp>)
    requires |cs| == |ds|
    requires forall i :: 0 <= i < |cs| ==> cs[i].createdAt == ds[i].createdAt && cs[i].body == ds[i].body
    ensures AnyRequest(cs, lastReadAt) == AnyRequest(ds, lastReadAt)
  {
    if AnyRequest(cs, lastReadAt) {
      var i :| 0 <= i < |cs| && IsRequest(cs[i], lastReadAt);
      assert IsRequest(ds[i], lastReadAt);
    }
    if AnyRequest(ds, lastReadAt) {
      var i :| 0 <= i < |ds| && IsRequest(ds[i], lastReadAt);
      assert IsRequest(cs[i], lastReadAt);
    }
  }

  /** A comment by a user with no association at all, newer than the last read, that mentions the bot is a request. */
  lemma UnassociatedMentionIsRequest(t: Timestamp, lastRead: Timestamp)
    requires t > lastRead
    ensures AnyRequest([Comment(t, NONE, "@perfbot run")], Some(lastRead))
    ensures !AnyRequest([Comment(lastRead, OWNER, "@perfbot run")], Some(lastRead))
    ensures !AnyRequest([Comment(t, OWNER, "@perf bot run")], Some(lastRead))
  {
    assert OccursAt("@perfbot run", BotMention, 0);
    assert IsRequest(Comment(t, NONE, "@perfbot run"), Some(lastRead));
    var miss := "@perf bot run";
    forall i | 0 <= i
      ensures !OccursAt(miss, BotMention, i)
    {
      if i + |BotMention| <= |miss| {
        var k := if i == 0 then 5 else 0;
        assert miss[i..i + |BotMention|][k] != BotMention[k];
      }
    }
  }

  /**
   * The job `process_notification` stages for a notification, if any.
   * `fetchPr` answers the pull request request and `fetchComments` the
   * comments request. `NewJob::new` is called with the comments URL first
   * and the repository name second, the reverse of its parameter order
   * (repository, comments_url, hash), so the row's `repository` is the
   * comments URL and its `comments_url` the repository name.
   */
  function Staged(n: Notification, fetchPr: string -> Result<PullRequestInfo, string>,
                  fetchComments: string -> seq<Comment>): (r: Option<NewJob>)
    ensures n.subject.kind != PullRequest ==> r.None?
    ensures r.Some? <==>
      PullRequestOf(n, fetchPr).Success? &&
      exists i :: 0 <= i < |fetchComments(PullRequestOf(n, fetchPr).value.commentsUrl)| &&
        IsRequest(fetchComments(PullRequestOf(n, fetchPr).value.commentsUrl)[i], n.lastReadAt)
    ensures r.Some? ==>
      var pr := PullRequestOf(n, fetchPr).value;
      && r.value.repository == pr.commentsUrl
      && r.value.commentsUrl == Some(n.repository.fullName)
      && r.value.hash == Some(pr.mergeCommitSha)
  {
    match PullRequestOf(n, fetchPr)
    case Failure(_) => None
    case Success(pr) =>
      if !AnyRequest(fetchComments(pr.commentsUrl), n.lastReadAt) then None
      else Some(NewJob(pr.commentsUrl, Some(n.repository.fullName), Some(pr.mergeCommitSha)))
  }

  /** The job table after staging `s`, if there is anything to stage. */
  function StageInto(t: seq<Job>, s: Option<NewJob>): (r: seq<Job>)
    requires JobsOrdered(t)
    ensures JobsOrdered(r)
    ensures |r| == |t| + (if s.Some? then 1 else 0)
    ensures r[..|t|] == t
    ensures s.Some? ==> RowFor(r[|t|], s.value)
  {
    if s.Some? then Insert(t, s.value) else t
  }

  /** `process_notification`: stage at most one job for the notification. */
  method ProcessNotification(db: Database, n: Notification,
                             fetchPr: string -> Result<PullRequestInfo, string>,
                             fetchComments: string -> seq<Comment>)
    requires db.Valid()
    modifies db
    ensures db.Valid()
    ensures db.jobs == StageInto(old(db.jobs), Staged(n, fetchPr, fetchComments))
    ensures db.masterBuilds == old(db.masterBuilds)
  {
    var pullRequest := PullRequestOf(n, fetchPr);
    if pullRequest.Failure? {
      return;
    }
    var pr := pullRequest.value;
    if !AnyRequest(fetchComments(pr.commentsUrl), n.lastReadAt) {
      return;
    }
    var repository := n.repository.fullName;
    var commentsUrl := pr.commentsUrl;
    var hash := pr.mergeCommitSha;
    db.InsertJob(NewJob(commentsUrl, Some(repository), Some(hash)));
  }

  /**
   * The jobs a batch of notifications stages, in notification order: one
   * for each notification that stages a job, and nothing else.
   */
  function StagedJobs(ns: seq<Notification>,
                      fetchPr: string -> Result<PullRequestInfo, string>,
                      fetchComments: string -> seq<Comment>): (r: seq<NewJob>)
    ensures |r| <= |ns|
    ensures forall i :: 0 <= i < |ns| && Staged(ns[i], fetchPr, fetchComments).Some? ==>
      Staged(ns[i], fetchPr, fetchComments).value in r
    ensures forall nj :: nj in r ==> exists i :: 0 <= i < |ns| && Staged(ns[i], fetchPr, fetchComments) == Some(nj)
  {
    if ns == [] then []
    else
      var earlier := ns[..|ns| - 1];
      var s := Staged(ns[|ns| - 1], fetchPr, fetchComments);
      assert forall i :: 0 <= i < |earlier| ==> earlier[i] == ns[i];
      StagedJobs(earlier, fetchPr, fetchComments) + (if s.Some? then [s.value] else [])
  }

  /** Staging two batches one after the other stages the first batch's jobs, then the second's. */
  lemma {:induction false} StagedJobsAppend(ns: seq<Notification>, ms: seq<Notification>,
                                            fetchPr: string -> Result<PullRequestInfo, string>,
                                            fetchComments: string -> seq<Comment>)
    ensures StagedJobs(ns + ms, fetchPr, fetchComments) == StagedJobs(ns, fetchPr, fetchComments) + StagedJobs(ms, fetchPr, fetchComments)
  {
    if ms == [] {
      assert ns + ms == ns;
    } else {
      var earlier := ms[..|ms| - 1];
      assert (ns + ms)[..|ns + ms| - 1] == ns + earlier;
      assert (ns + ms)[|ns + ms| - 1] == ms[|ms| - 1];
      StagedJobsAppend(ns, earlier, fetchPr, fetchComments);
    }
  }

  /**
   * The job table after processing the notifications one after another:
   * the old rows, then one pending row per staged job, in notification order.
   */
  function StageAll(t: seq<Job>, ns: seq<Notification>,
                    fetchPr: string -> Result<PullRequestInfo, string>,
                    fetchComments: string -> seq<Comment>): (r: seq<Job>)
    requires JobsOrdered(t)
    ensures JobsOrdered(r)
    ensures |r| == |t| + |StagedJobs(ns, fetchPr, fetchComments)|
    ensures r[..|t|] == t
    ensures forall k :: 0 <= k < |StagedJobs(ns, fetchPr, fetchComments)| ==>
      RowFor(r[|t| + k], StagedJobs(ns, fetchPr, fetchComments)[k])
  {
    if ns == [] then t
    else
      var before := StageAll(t, ns[..|ns| - 1], fetchPr, fetchComments);
      var r := StageInto(before, Staged(ns[|ns| - 1], fetchPr, fetchComments));
      assert forall i :: 0 <= i < |before| ==> r[i] == r[..|before|][i] == before[i];
      r
  }

  /**
   * One iteration of `watch_notifications`: process every fetched
   * notification, then reclaim stale jobs once, at time `now`.
   */
  method PollCycle(db: Database, ns: seq<Notification>,
                   fetchPr: string -> Result<PullRequestInfo, string>,
                   fetchComments: string -> seq<Comment>, now: Timestamp)
    requires db.Valid()
    modifies db
    ensures db.Valid()
    ensures db.jobs == Reclaimed(StageAll(old(db.jobs), ns, fetchPr, fetchComments), StaleLimit(now))
    ensures db.masterBuilds == old(db.masterBuilds)
  {
    for i := 0 to |ns|
      invariant db.Valid()
      invariant db.jobs == StageAll(old(db.jobs), ns[..i], fetchPr, fetchComments)
      invariant db.masterBuilds == old(db.masterBuilds)
    {
      assert ns[..i + 1][..i] == ns[..i];
      ProcessNotification(db, ns[i], fetchPr, fetchComments);
    }
    assert ns[..|ns|] == ns;
    db.UpdateStale(now);
  }

  /**
   * After a cycle, the rows that were there keep their order and contents
   * except that stale ones are pending again, and they are followed by
   * exactly the jobs the cycle staged, each pending: reclaim never touches
   * a job that was just staged.
   */
  lemma CycleOutcome(t: seq<Job>, ns: seq<Notification>,
                     fetchPr: string -> Result<PullRequestInfo, string>,
                     fetchComments: string -> seq<Comment>, now: Timestamp)
    requires JobsOrdered(t)
    ensures var r := Reclaimed(StageAll(t, ns, fetchPr, fetchComments), StaleLimit(now));
      var staged := StagedJobs(ns, fetchPr, fetchComments);
      && |r| == |t| + |staged|
      && (forall i :: 0 <= i < |t| ==> r[i] == if Stale(t[i], StaleLimit(now)) then t[i].(startedAt := None) else t[i])
      && (forall k :: 0 <= k < |staged| ==> RowFor(r[|t| + k], staged[k]))
  {
    var s := StageAll(t, ns, fetchPr, fetchComments);
    var r := Reclaimed(s, StaleLimit(now));
    forall i | 0 <= i < |t|
      ensures r[i] == if Stale(t[i], StaleLimit(now)) then t[i].(startedAt := None) else t[i]
    {
      assert s[i] == s[..|t|][i] == t[i];
    }
  }
}

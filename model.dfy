/**
 * The job store (src/model.rs). The SQLite database is one `Database`
 * object holding the two tables as sequences of rows in the order a table
 * scan returns them (ascending id). The functions below say what each
 * statement does to a table; the class's methods apply them in place.
 */
module Model {
  import opened Wrappers
  import opened Clock

  /** Maximum minutes before a benchmark is considered to be dead. */
  const MaxBenchMinutes: int := 120

  /** The same bound in seconds, the unit of `Timestamp`. */
  const MaxBenchSeconds: int := MaxBenchMinutes * SecondsPerMinute

  /** A row of the `job` table. `startedAt == None` means pending, `Some(t)` running since `t`. */
  datatype Job = Job(
    id: int,
    repository: string,
    hash: Option<string>,
    commentsUrl: Option<string>,
    startedAt: Option<Timestamp>)
  {
    predicate Pending() { startedAt.None? }
  }

  /** The values of a row to insert; the store chooses the id and leaves `started_at` NULL. */
  datatype NewJob = NewJob(repository: string, commentsUrl: Option<string>, hash: Option<string>)

  /** A row of the `master_build` table. */
  datatype MasterBuild = MasterBuild(id: int, hash: string)

  /** The value of a master build row to insert. */
  datatype NewMasterBuild = NewMasterBuild(hash: string)

  /** Rows in scan order: ids strictly ascending, so no two rows share an id. */
  predicate JobsOrdered(t: seq<Job>)
  {
    forall i, j :: 0 <= i < j < |t| ==> t[i].id < t[j].id
  }

  predicate BuildsOrdered(log: seq<MasterBuild>)
  {
    forall i, j :: 0 <= i < j < |log| ==> log[i].id < log[j].id
  }

  /* ---------------- lookup ---------------- */

  /** `Job::from_id`: the first row whose id is `id`, if any. */
  function Find(t: seq<Job>, id: int): (r: Option<Job>)
    ensures r.Some? ==> r.value in t && r.value.id == id
    ensures r.None? <==> forall j :: j in t ==> j.id != id
  {
    if t == [] then None
    else if t[0].id == id then Some(t[0])
    else Find(t[1..], id)
  }

  /** In an ordered table every row is the one `from_id` returns for its id. */
  lemma {:induction false} FindRow(t: seq<Job>, j: Job)
    requires JobsOrdered(t) && j in t
    ensures Find(t, j.id) == Some(j)
  {
    if t[0] != j {
      assert j in t[1..];
      assert t[0].id < j.id by {
        var k :| 0 <= k < |t| && t[k] == j;
      }
      FindRow(t[1..], j);
    }
  }

  /** In ordered tables, `from_id` agrees everywhere exactly when the two tables hold the same rows. */
  lemma FindAgrees(t: seq<Job>, u: seq<Job>, k: int)
    requires JobsOrdered(t) && JobsOrdered(u)
    requires forall j: Job :: j.id == k ==> (j in t <==> j in u)
    ensures Find(t, k) == Find(u, k)
  {
    if Find(t, k).Some? {
      FindRow(u, Find(t, k).value);
    }
  }

  /* ---------------- delete ---------------- */

  /** `Job::delete`: the table without the row(s) whose id is `id`. */
  function Without(t: seq<Job>, id: int): (r: seq<Job>)
    ensures forall j :: j in r <==> j in t && j.id != id
    ensures |r| <= |t|
    ensures JobsOrdered(t) ==> JobsOrdered(r)
  {
    if t == [] then []
    else if t[0].id == id then Without(t[1..], id)
    else [t[0]] + Without(t[1..], id)
  }

  /** Deleting removes exactly the row with that id; every other id finds the same row as before. */
  lemma DeleteFrame(t: seq<Job>, id: int)
    requires JobsOrdered(t)
    ensures Find(Without(t, id), id).None?
    ensures forall k :: k != id ==> Find(Without(t, id), k) == Find(t, k)
    ensures Find(t, id).Some? ==> |Without(t, id)| == |t| - 1
  {
    forall k | k != id
      ensures Find(Without(t, id), k) == Find(t, k)
    {
      FindAgrees(Without(t, id), t, k);
    }
    if Find(t, id).Some? {
      DeleteOneRow(t, id);
    }
  }

  lemma {:induction false} DeleteOneRow(t: seq<Job>, id: int)
    requires JobsOrdered(t) && Find(t, id).Some?
    ensures |Without(t, id)| == |t| - 1
  {
    if t[0].id != id {
      DeleteOneRow(t[1..], id);
    } else {
      var rest := t[1..];
      assert forall i :: 0 <= i < |rest| ==> rest[i].id != id by {
        forall i | 0 <= i < |rest| ensures rest[i].id != id {
          assert rest[i] == t[i + 1];
        }
      }
      NothingToDelete(rest, id);
    }
  }

  lemma {:induction false} NothingToDelete(t: seq<Job>, id: int)
    requires forall i :: 0 <= i < |t| ==> t[i].id != id
    ensures Without(t, id) == t
  {
    if t != [] {
      var rest := t[1..];
      assert forall i :: 0 <= i < |rest| ==> rest[i] == t[i + 1];
      NothingToDelete(rest, id);
      assert t == [t[0]] + rest;
    }
  }

  /* ---------------- update started_at ---------------- */

  /** `UPDATE job SET started_at = v WHERE id = id`. */
  function WithStartedAt(t: seq<Job>, id: int, v: Option<Timestamp>): (r: seq<Job>)
    ensures |r| == |t|
    ensures forall i :: 0 <= i < |t| ==> r[i].id == t[i].id
    ensures JobsOrdered(t) ==> JobsOrdered(r)
  {
    seq(|t|, i requires 0 <= i < |t| => if t[i].id == id then t[i].(startedAt := v) else t[i])
  }

  /**
   * Setting `started_at` changes only that field of the row with that id;
   * every other row, and every other field, is as before.
   */
  lemma StartedAtFrame(t: seq<Job>, id: int, v: Option<Timestamp>)
    requires JobsOrdered(t)
    ensures Find(t, id).None? ==> Find(WithStartedAt(t, id, v), id).None?
    ensures Find(t, id).Some? ==> Find(WithStartedAt(t, id, v), id) == Some(Find(t, id).value.(startedAt := v))
    ensures forall k :: k != id ==> Find(WithStartedAt(t, id, v), k) == Find(t, k)
  {
    var r := WithStartedAt(t, id, v);
    forall k | k != id
      ensures Find(r, k) == Find(t, k)
    {
      forall j: Job | j.id == k
        ensures j in r <==> j in t
      {
        if j in r {
          var i :| 0 <= i < |r| && r[i] == j;
          assert t[i] == j;
        }
        if j in t {
          var i :| 0 <= i < |t| && t[i] == j;
          assert r[i] == j;
        }
      }
      FindAgrees(r, t, k);
    }
    if Find(t, id).Some? {
      var j := Find(t, id).value;
      var i :| 0 <= i < |t| && t[i] == j;
      assert r[i] == j.(startedAt := v);
      FindRow(r, r[i]);
    } else {
      assert forall j :: j in r ==> j.id != id by {
        forall j | j in r ensures j.id != id {
          var i :| 0 <= i < |r| && r[i] == j;
          assert t[i] in t;
        }
      }
    }
  }

  /** Marking an unknown id changes nothing. */
  lemma StartedAtUnknownId(t: seq<Job>, id: int, v: Option<Timestamp>)
    requires Find(t, id).None?
    ensures WithStartedAt(t, id, v) == t
  {
    var r := WithStartedAt(t, id, v);
    forall i | 0 <= i < |t| ensures r[i] == t[i] {
      assert t[i] in t;
    }
  }

  /** A second update of the same row simply overwrites the first: the last writer wins. */
  lemma StartedAtLastWriterWins(t: seq<Job>, id: int, a: Option<Timestamp>, b: Option<Timestamp>)
    ensures WithStartedAt(WithStartedAt(t, id, a), id, b) == WithStartedAt(t, id, b)
  {
    var r, s := WithStartedAt(WithStartedAt(t, id, a), id, b), WithStartedAt(t, id, b);
    assert forall i :: 0 <= i < |t| ==> r[i] == s[i];
  }

  /* ---------------- stale reclaim ---------------- */

  /** The SQL filter `started_at < limit`; a NULL `started_at` never passes it. */
  predicate Stale(j: Job, limit: Timestamp)
  {
    j.startedAt.Some? && j.startedAt.value < limit
  }

  /**
   * The cutoff `now - MAX_BENCH_MINUTES`: a job is stale at this cutoff
   * exactly when it has been running for more than 120 minutes at `now`.
   */
  function StaleLimit(now: Timestamp): (limit: Timestamp)
    ensures forall j: Job :: Stale(j, limit) <==> j.startedAt.Some? && now - j.startedAt.value > MaxBenchSeconds
  {
    now - MaxBenchSeconds
  }

  /** `UPDATE job SET started_at = NULL WHERE started_at < limit`. */
  function Reclaimed(t: seq<Job>, limit: Timestamp): (r: seq<Job>)
    ensures |r| == |t|
    ensures forall i :: 0 <= i < |t| ==> r[i].(startedAt := t[i].startedAt) == t[i]
    ensures forall i :: 0 <= i < |t| ==> (r[i].startedAt == t[i].startedAt <==> !Stale(t[i], limit))
    ensures forall i :: 0 <= i < |t| ==> (r[i].Pending() <==> t[i].Pending() || Stale(t[i], limit))
    ensures forall i :: 0 <= i < |t| ==> !Stale(r[i], limit)
    ensures JobsOrdered(t) ==> JobsOrdered(r)
  {
    seq(|t|, i requires 0 <= i < |t| => if Stale(t[i], limit) then t[i].(startedAt := None) else t[i])
  }

  /** Reclaiming twice with the same cutoff is the same as reclaiming once. */
  lemma ReclaimIdempotent(t: seq<Job>, limit: Timestamp)
    ensures Reclaimed(Reclaimed(t, limit), limit) == Reclaimed(t, limit)
  {
    var r := Reclaimed(t, limit);
    var rr := Reclaimed(r, limit);
    forall i | 0 <= i < |t| ensures rr[i] == r[i] {
      assert rr[i].startedAt == r[i].startedAt;
    }
  }

  /* ---------------- insert ---------------- */

  /** The id SQLite gives a new row: one more than the largest id in use, or 1 in an empty table. */
  function NextJobId(t: seq<Job>): (id: int)
    requires JobsOrdered(t)
    ensures forall j :: j in t ==> j.id < id
  {
    if t == [] then 1 else t[|t| - 1].id + 1
  }

  /** `j` is the pending row that inserting `nj` creates: its values, `started_at` NULL. */
  predicate RowFor(j: Job, nj: NewJob)
  {
    j.Pending() && j.repository == nj.repository && j.commentsUrl == nj.commentsUrl && j.hash == nj.hash
  }

  /** `NewJob::insert`: one new pending row, with a fresh id, after all existing rows. */
  function Insert(t: seq<Job>, nj: NewJob): (r: seq<Job>)
    requires JobsOrdered(t)
    ensures JobsOrdered(r)
    ensures |r| == |t| + 1 && r[..|t|] == t
    ensures Find(t, r[|t|].id).None?
    ensures RowFor(r[|t|], nj)
  {
    t + [Job(NextJobId(t), nj.repository, nj.hash, nj.commentsUrl, None)]
  }

  /** After an insert, `from_id` finds the new row under its id and every other id as before. */
  lemma InsertFrame(t: seq<Job>, nj: NewJob)
    requires JobsOrdered(t)
    ensures Find(Insert(t, nj), NextJobId(t)) == Some(Insert(t, nj)[|t|])
    ensures forall k :: k != NextJobId(t) ==> Find(Insert(t, nj), k) == Find(t, k)
  {
    var r := Insert(t, nj);
    FindRow(r, r[|t|]);
    forall k | k != NextJobId(t)
      ensures Find(r, k) == Find(t, k)
    {
      FindAgrees(r, t, k);
    }
  }

  /* ---------------- master builds ---------------- */

  /** `MasterBuild::latest`: the entry with the largest id (`ORDER BY id DESC` first), or none. */
  function LatestOf(log: seq<MasterBuild>): (r: Option<MasterBuild>)
    ensures r.None? <==> log == []
    ensures r.Some? ==> r.value in log && forall b :: b in log ==> b.id <= r.value.id
  {
    if log == [] then None
    else
      var last := log[|log| - 1];
      var earlier := LatestOf(log[..|log| - 1]);
      assert log == log[..|log| - 1] + [last];
      if earlier.None? || earlier.value.id < last.id then Some(last) else earlier
  }

  /** The id SQLite gives a new master build row. */
  function NextBuildId(log: seq<MasterBuild>): (id: int)
    requires BuildsOrdered(log)
    ensures forall b :: b in log ==> b.id < id
  {
    if log == [] then 1 else log[|log| - 1].id + 1
  }

  /** `NewMasterBuild::insert`: append one entry; earlier entries stay. */
  function AppendBuild(log: seq<MasterBuild>, nb: NewMasterBuild): (r: seq<MasterBuild>)
    requires BuildsOrdered(log)
    ensures BuildsOrdered(r)
    ensures |r| == |log| + 1 && r[..|log|] == log && r[|log|].hash == nb.hash
  {
    log + [MasterBuild(NextBuildId(log), nb.hash)]
  }

  /** After an insert, the latest master build is the hash just inserted. */
  lemma LatestAfterAppend(log: seq<MasterBuild>, nb: NewMasterBuild)
    requires BuildsOrdered(log)
    ensures LatestOf(AppendBuild(log, nb)).Some?
    ensures LatestOf(AppendBuild(log, nb)).value.hash == nb.hash
  {
    var r := AppendBuild(log, nb);
    assert r[..|r| - 1] == log;
  }

  /* ---------------- the database ---------------- */

  /** The shared SQLite database: the `job` table and the `master_build` log. */
  class Database {
    var jobs: seq<Job>
    var masterBuilds: seq<MasterBuild>

    ghost predicate Valid()
      reads this
    {
      JobsOrdered(jobs) && BuildsOrdered(masterBuilds)
    }

    constructor ()
      ensures Valid() && jobs == [] && masterBuilds == []
    {
      jobs := [];
      masterBuilds := [];
    }

    /** `Job::all`: every row, in scan order. */
    method All() returns (rows: seq<Job>)
      requires Valid()
      ensures rows == jobs && JobsOrdered(rows)
    {
      rows := jobs;
    }

    /** `Job::from_id`. */
    method FromId(id: int) returns (r: Option<Job>)
      requires Valid()
      ensures r.Some? <==> exists j :: j in jobs && j.id == id
      ensures r.Some? ==> r.value in jobs && r.value.id == id
    {
      r := Find(jobs, id);
    }

    /** `Job::delete`: remove the row with the job's id. */
    method Delete(job: Job)
      requires Valid()
      modifies this
      ensures Valid()
      ensures jobs == Without(old(jobs), job.id)
      ensures masterBuilds == old(masterBuilds)
    {
      jobs := Without(jobs, job.id);
    }

    /** `Job::mark_pending`: clear the job's `started_at`. */
    method MarkPending(job: Job)
      requires Valid()
      modifies this
      ensures Valid()
      ensures jobs == WithStartedAt(old(jobs), job.id, None)
      ensures masterBuilds == old(masterBuilds)
    {
      jobs := WithStartedAt(jobs, job.id, None);
    }

    /** `Job::mark_started`: set `started_at` to now for the row with that id, if there is one. */
    method MarkStarted(id: int, now: Timestamp)
      requires Valid()
      modifies this
      ensures Valid()
      ensures jobs == WithStartedAt(old(jobs), id, Some(now))
      ensures masterBuilds == old(masterBuilds)
    {
      jobs := WithStartedAt(jobs, id, Some(now));
    }

    /** `Job::update_stale`: return every job running since before `now - 120 minutes` to pending. */
    method UpdateStale(now: Timestamp)
      requires Valid()
      modifies this
      ensures Valid()
      ensures jobs == Reclaimed(old(jobs), StaleLimit(now))
      ensures masterBuilds == old(masterBuilds)
    {
      jobs := Reclaimed(jobs, StaleLimit(now));
    }

    /** `NewJob::insert`. */
    method InsertJob(nj: NewJob)
      requires Valid()
      modifies this
      ensures Valid()
      ensures jobs == Insert(old(jobs), nj)
      ensures masterBuilds == old(masterBuilds)
    {
      jobs := Insert(jobs, nj);
    }

    /** `MasterBuild::latest`. */
    method Latest() returns (r: Option<MasterBuild>)
      requires Valid()
      ensures r.None? <==> masterBuilds == []
      ensures r.Some? ==> r.value in masterBuilds && forall b :: b in masterBuilds ==> b.id <= r.value.id
    {
      r := LatestOf(masterBuilds);
    }

    /** `NewMasterBuild::insert`. */
    method InsertMasterBuild(nb: NewMasterBuild)
      requires Valid()
      modifies this
      ensures Valid()
      ensures masterBuilds == AppendBuild(old(masterBuilds), nb)
      ensures jobs == old(jobs)
    {
      masterBuilds := AppendBuild(masterBuilds, nb);
    }
  }
}

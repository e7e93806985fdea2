/** The queue as it runs: a table changed in place by the statements of each call. */
module JobQueueState {
  import opened Collections
  import opened JobQueue
  import opened JobQueueTheorems

  ghost predicate Sorted(ids: seq<nat>) {
    forall i, k | 0 <= i < k < |ids| :: ids[i] < ids[k]
  }

  /** An ascending listing of a set of ids is the only one. */
  lemma {:induction false} AscendingIsUnique(ids: set<nat>, a: seq<nat>, b: seq<nat>)
    requires Sorted(a) && Sorted(b)
    requires forall x :: x in a <==> x in ids
    requires forall x :: x in b <==> x in ids
    ensures a == b
    decreases |a|
  {
    assert a != [] ==> a[0] in a;
    assert b != [] ==> b[0] in b;
    if a != [] {
      assert b[0] in b && a[0] in b && b[0] in a;
      assert a[0] == b[0];
      forall x ensures x in a[1..] <==> x in ids - {a[0]} {
        if x in a[1..] { var i :| 0 <= i < |a[1..]| && a[1..][i] == x; assert a[i + 1] == x; }
        if x in ids && x != a[0] { var i :| 0 <= i < |a| && a[i] == x; assert a[1..][i - 1] == x; }
      }
      forall x ensures x in b[1..] <==> x in ids - {a[0]} {
        if x in b[1..] { var i :| 0 <= i < |b[1..]| && b[1..][i] == x; assert b[i + 1] == x; }
        if x in ids && x != b[0] { var i :| 0 <= i < |b| && b[i] == x; assert b[1..][i - 1] == x; }
      }
      AscendingIsUnique(ids - {a[0]}, a[1..], b[1..]);
    }
  }

  class Queues {
    var queues: map<string, Config>
    var jobs: Jobs
    var nextId: nat

    ghost function Snapshot(): Store
      reads this
    {
      Store(queues, jobs, nextId)
    }

    constructor ()
      ensures Snapshot() == EmptyStore
    {
      queues, jobs, nextId := map[], map[], 0;
    }

    method EnqueueJob(queue: string, payload: string, maxOverride: int, now: int) returns (r: Reply)
      modifies this`jobs, this`nextId
      ensures (Snapshot(), r) == Enqueue(old(Snapshot()), queue, payload, maxOverride, now)
    {
      if queue !in queues { return Error; }
      var max := if maxOverride > 0 then maxOverride else queues[queue].maxAttempts;
      if max < 1 { return Error; }
      var id := nextId;
      nextId := nextId + 1;
      jobs := jobs[id := Job(queue, payload, Pending, 0, max, now, 0, None)];
      return Enqueued(id);
    }

    method RecoverExpiredJobs(queue: string, t1: int, t2: int, t3: int)
      modifies this`jobs
      ensures jobs == Recover(old(jobs), queue, t1, t2, t3)
    {
      RecoverIsThreeSweeps(jobs, queue, t1, t2, t3);
      jobs := SweepPending(jobs, queue, t1);
      jobs := SweepRunning(jobs, queue, t2);
      jobs := SweepExpired(jobs, queue, t3);
    }

    /** The ids that the UPDATE returns, in no particular order. */
    method ClaimPendingJobs(queue: string, lease: int, count: nat, now: int) returns (ids: set<nat>)
      modifies this`jobs
      ensures ids <= jobs.Keys
      ensures ids == set i | 0 <= i < |Lowest(ClaimableIds(old(jobs), queue, now), count)| ::
                           Lowest(ClaimableIds(old(jobs), queue, now), count)[i]
      ensures jobs == Claim(old(jobs), ids, lease, now)
    {
      var low := Lowest(ClaimableIds(jobs, queue, now), count);
      LowestCorrect(ClaimableIds(jobs, queue, now), count);
      ids := set i | 0 <= i < |low| :: low[i];
      jobs := Claim(jobs, ids, lease, now);
    }

    /** Sorts the returned ids. */
    static method SortIds(ids: set<nat>) returns (sorted: seq<nat>)
      ensures Sorted(sorted) && forall x :: x in sorted <==> x in ids
    {
      sorted := [];
      var left := ids;
      while left != {}
        invariant left <= ids && Sorted(sorted) && forall x :: x in sorted <==> x in ids - left
        decreases left
      {
        var id :| id in left;
        sorted := Insert(sorted, id);
        left := left - {id};
      }
    }

    static method Insert(sorted: seq<nat>, id: nat) returns (more: seq<nat>)
      requires Sorted(sorted) && id !in sorted
      ensures Sorted(more) && forall x :: x in more <==> x == id || x in sorted
    {
      var at := 0;
      while at < |sorted| && sorted[at] < id
        invariant at <= |sorted| && forall i | 0 <= i < at :: sorted[i] < id
      {
        at := at + 1;
      }
      assert forall i | at <= i < |sorted| :: id < sorted[i];
      more := sorted[..at] + [id] + sorted[at..];
      assert sorted == sorted[..at] + sorted[at..];
    }

    /** The claimed ids in the order in which the rows are returned. */
    method ClaimSorted(queue: string, lease: int, count: nat, now: int) returns (sorted: seq<nat>)
      modifies this`jobs
      ensures sorted == Lowest(ClaimableIds(old(jobs), queue, now), count)
      ensures forall i | 0 <= i < |sorted| :: sorted[i] in jobs
      ensures jobs == Claim(old(jobs), set i | 0 <= i < |sorted| :: sorted[i], lease, now)
    {
      ghost var low := Lowest(ClaimableIds(jobs, queue, now), count);
      LowestCorrect(ClaimableIds(jobs, queue, now), count);
      var ids := ClaimPendingJobs(queue, lease, count, now);
      sorted := SortIds(ids);
      AscendingIsUnique(ids, sorted, low);
    }

    method ReadRows(ids: seq<nat>) returns (rows: seq<Row>)
      requires forall i | 0 <= i < |ids| :: ids[i] in jobs
      ensures |rows| == |ids| && forall i | 0 <= i < |ids| :: rows[i] == Row(ids[i], jobs[ids[i]])
    {
      rows := [];
      for i := 0 to |ids|
        invariant |rows| == i && forall k | 0 <= k < i :: rows[k] == Row(ids[k], jobs[ids[k]])
      {
        rows := rows + [Row(ids[i], jobs[ids[i]])];
      }
    }

    method DequeueJobs(queue: string, n: int, t1: int, t2: int, t3: int, t4: int) returns (r: Reply)
      modifies this`jobs
      ensures (Snapshot(), r) == Dequeue(old(Snapshot()), queue, n, t1, t2, t3, t4)
    {
      if n < 1 || n > 1000 || queue !in queues { return Error; }
      RecoverExpiredJobs(queue, t1, t2, t3);
      var ids := ClaimSorted(queue, queues[queue].leaseSeconds, n, t4);
      var rows := ReadRows(ids);
      assert rows == Dequeue(old(Snapshot()), queue, n, t1, t2, t3, t4).1.rows;
      return Rows(rows);
    }

    method AckJob(queue: string, id: nat, generation: nat, now: int) returns (r: Reply)
      modifies this`jobs
      ensures (Snapshot(), r) == Ack(old(Snapshot()), queue, id, generation, now)
    {
      if queue !in queues { return Error; }
      if !Owns(jobs, queue, id, generation, now) { return Flag(false); }
      jobs := jobs[id := jobs[id].(status := Done)];
      return Flag(true);
    }

    method NackJob(queue: string, id: nat, generation: nat, requeue: bool, error: string, t1: int, t2: int) returns (r: Reply)
      modifies this`jobs
      ensures (Snapshot(), r) == Nack(old(Snapshot()), queue, id, generation, requeue, error, t1, t2)
    {
      if queue !in queues { return Error; }
      if !Owns(jobs, queue, id, generation, t1) { return Nacked("stale"); }
      var attempts, max := jobs[id].attempts, jobs[id].maxAttempts;
      var toDead := !requeue || attempts >= max;
      var backoff := if toDead then 0 else Backoff(queues[queue].backoffBase, attempts);
      if !Owns(jobs, queue, id, generation, t2) { return Nacked("stale"); }
      var j := jobs[id].(lastError := Some(if error == "" then "nack" else error));
      if toDead {
        jobs := jobs[id := j.(status := Dead, visibleAt := t2)];
        return Nacked("dead");
      }
      jobs := jobs[id := j.(status := Pending, visibleAt := t2 + Seconds(backoff))];
      return Nacked("pending");
    }

    method RenewJob(queue: string, id: nat, generation: nat, now: int) returns (r: Reply)
      modifies this`jobs
      ensures (Snapshot(), r) == Renew(old(Snapshot()), queue, id, generation, now)
    {
      if queue !in queues { return Error; }
      if !Owns(jobs, queue, id, generation, now) { return Flag(false); }
      jobs := jobs[id := jobs[id].(visibleAt := now + Seconds(queues[queue].leaseSeconds))];
      return Flag(true);
    }
  }
}

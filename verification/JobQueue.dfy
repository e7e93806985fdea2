/** The durable job queue: each operation as the SQL statements it runs. */
module JobQueue {
  import opened Collections

  datatype Status = Pending | Running | Done | Dead

  datatype Job = Job(queue: string, payload: string, status: Status, attempts: nat, maxAttempts: int,
                     visibleAt: int, generation: nat, lastError: Option<string>)

  /** The table by primary key. Times are microseconds. */
  type Jobs = map<nat, Job>

  /** What CREATE QUEUE accepts: 1 to 1000 attempts, a lease of at least a second, a backoff base of 0 to 3600. */
  datatype Config = Config(maxAttempts: int, leaseSeconds: int, backoffBase: int)

  predicate ValidConfig(c: Config) {
    1 <= c.maxAttempts <= 1000 && 1 <= c.leaseSeconds && 0 <= c.backoffBase <= 3600
  }

  datatype Store = Store(queues: map<string, Config>, jobs: Jobs, nextId: nat)

  const EmptyStore := Store(map[], map[], 0)

  datatype Row = Row(id: nat, job: Job)

  datatype Reply = Error | Enqueued(id: nat) | Rows(rows: seq<Row>) | Flag(done: bool) | Nacked(status: string)

  function Seconds(n: int): int {
    n * 1_000_000
  }

  // ---------------------------------------------------------------- one statement, one row

  function ExhaustPending(j: Job, queue: string, now: int): Job {
    if j.queue == queue && j.status.Pending? && j.attempts >= j.maxAttempts then
      j.(status := Dead, visibleAt := now,
         lastError := if j.lastError.Some? then j.lastError else Some("attempt limit reached before delivery"))
    else j
  }

  function ExhaustRunning(j: Job, queue: string, now: int): Job {
    if j.queue == queue && j.status.Running? && j.visibleAt <= now && j.attempts >= j.maxAttempts then
      j.(status := Dead, visibleAt := now, lastError := Some("visibility lease expired after maximum attempts"))
    else j
  }

  function RetryExpired(j: Job, queue: string, now: int): Job {
    if j.queue == queue && j.status.Running? && j.visibleAt <= now && j.attempts < j.maxAttempts then
      j.(status := Pending, visibleAt := now)
    else j
  }

  function ClaimJob(j: Job, lease: int, now: int): Job {
    j.(status := Running, attempts := j.attempts + 1, generation := j.generation + 1,
       visibleAt := now + Seconds(lease))
  }

  // ---------------------------------------------------------------- one statement, the whole table

  function SweepPending(jobs: Jobs, queue: string, now: int): Jobs {
    map id | id in jobs :: ExhaustPending(jobs[id], queue, now)
  }

  function SweepRunning(jobs: Jobs, queue: string, now: int): Jobs {
    map id | id in jobs :: ExhaustRunning(jobs[id], queue, now)
  }

  function SweepExpired(jobs: Jobs, queue: string, now: int): Jobs {
    map id | id in jobs :: RetryExpired(jobs[id], queue, now)
  }

  /** The three sweeps of a recovery on one row. */
  function Recovered(j: Job, queue: string, t1: int, t2: int, t3: int): Job {
    RetryExpired(ExhaustRunning(ExhaustPending(j, queue, t1), queue, t2), queue, t3)
  }

  function Recover(jobs: Jobs, queue: string, t1: int, t2: int, t3: int): Jobs {
    map id | id in jobs :: Recovered(jobs[id], queue, t1, t2, t3)
  }

  /** Recovery is the three statements one after the other. */
  lemma RecoverIsThreeSweeps(jobs: Jobs, queue: string, t1: int, t2: int, t3: int)
    ensures Recover(jobs, queue, t1, t2, t3)
         == SweepExpired(SweepRunning(SweepPending(jobs, queue, t1), queue, t2), queue, t3)
  {
  }

  predicate Claimable(j: Job, queue: string, now: int) {
    j.queue == queue && j.status.Pending? && j.attempts < j.maxAttempts && j.visibleAt <= now
  }

  function ClaimableIds(jobs: Jobs, queue: string, now: int): set<nat> {
    set id | id in jobs && Claimable(jobs[id], queue, now)
  }

  function Claim(jobs: Jobs, ids: set<nat>, lease: int, now: int): Jobs {
    map id | id in jobs :: if id in ids then ClaimJob(jobs[id], lease, now) else jobs[id]
  }

  /** The delivery that a worker names is the one the job is leased to. */
  predicate Owns(jobs: Jobs, queue: string, id: nat, generation: nat, now: int) {
    && id in jobs && jobs[id].queue == queue && jobs[id].status.Running?
    && jobs[id].generation == generation && jobs[id].visibleAt > now
  }

  // ---------------------------------------------------------------- ORDER BY id LIMIT n

  lemma MinExists(ids: set<nat>)
    requires ids != {}
    ensures exists m :: m in ids && forall x | x in ids :: m <= x
  {
    var m :| m in ids;
    var rest := ids - {m};
    if rest == {} {
      assert ids == {m};
    } else {
      MinExists(rest);
      var k :| k in rest && forall x | x in rest :: k <= x;
      assert forall x | x in ids :: x == m || x in rest;
      var least := if k < m then k else m;
      assert least in ids && forall x | x in ids :: least <= x;
    }
  }

  function Min(ids: set<nat>): (m: nat)
    requires ids != {}
    ensures m in ids && forall x | x in ids :: m <= x
  {
    MinExists(ids);
    var m :| m in ids && forall x | x in ids :: m <= x;
    m
  }

  function Ascending(ids: set<nat>): seq<nat> {
    if ids == {} then [] else var m := Min(ids); [m] + Ascending(ids - {m})
  }

  function Lowest(ids: set<nat>, n: nat): seq<nat> {
    var all := Ascending(ids);
    if |all| <= n then all else all[..n]
  }

  // ---------------------------------------------------------------- the operations

  function Power(base: nat, exponent: nat): nat {
    if exponent == 0 then 1 else base * Power(base, exponent - 1)
  }

  /** base^min(attempts, 6) seconds, at most an hour; a base of zero retries at once. */
  function Backoff(base: int, attempts: nat): nat {
    if base <= 0 then 0
    else
      var secs := Power(base, if attempts > 6 then 6 else attempts);
      if secs > 3600 then 3600 else secs
  }

  function Enqueue(s: Store, queue: string, payload: string, maxOverride: int, now: int): (Store, Reply) {
    if queue !in s.queues then (s, Error)
    else
      var max := if maxOverride > 0 then maxOverride else s.queues[queue].maxAttempts;
      if max < 1 then (s, Error)
      else (s.(jobs := s.jobs[s.nextId := Job(queue, payload, Pending, 0, max, now, 0, None)], nextId := s.nextId + 1),
            Enqueued(s.nextId))
  }

  function Dequeue(s: Store, queue: string, n: int, t1: int, t2: int, t3: int, t4: int): (Store, Reply) {
    if n < 1 || n > 1000 || queue !in s.queues then (s, Error)
    else
      var recovered := Recover(s.jobs, queue, t1, t2, t3);
      var ids := Lowest(ClaimableIds(recovered, queue, t4), n);
      LowestCorrect(ClaimableIds(recovered, queue, t4), n);
      var claimed := Claim(recovered, set i | 0 <= i < |ids| :: ids[i], s.queues[queue].leaseSeconds, t4);
      (s.(jobs := claimed), Rows(seq(|ids|, i requires 0 <= i < |ids| => Row(ids[i], claimed[ids[i]]))))
  }

  function Ack(s: Store, queue: string, id: nat, generation: nat, now: int): (Store, Reply) {
    if queue !in s.queues then (s, Error)
    else if !Owns(s.jobs, queue, id, generation, now) then (s, Flag(false))
    else (s.(jobs := s.jobs[id := s.jobs[id].(status := Done)]), Flag(true))
  }

  /** Two statements: a read that decides, then a guarded update. */
  function Nack(s: Store, queue: string, id: nat, generation: nat, requeue: bool, error: string, t1: int, t2: int)
    : (Store, Reply)
  {
    if queue !in s.queues then (s, Error)
    else if !Owns(s.jobs, queue, id, generation, t1) || !Owns(s.jobs, queue, id, generation, t2) then (s, Nacked("stale"))
    else
      var j := s.jobs[id].(lastError := Some(if error == "" then "nack" else error));
      if !requeue || j.attempts >= j.maxAttempts then
        (s.(jobs := s.jobs[id := j.(status := Dead, visibleAt := t2)]), Nacked("dead"))
      else
        var delay := Backoff(s.queues[queue].backoffBase, j.attempts);
        (s.(jobs := s.jobs[id := j.(status := Pending, visibleAt := t2 + Seconds(delay))]), Nacked("pending"))
  }

  function Renew(s: Store, queue: string, id: nat, generation: nat, now: int): (Store, Reply) {
    if queue !in s.queues then (s, Error)
    else if !Owns(s.jobs, queue, id, generation, now) then (s, Flag(false))
    else (s.(jobs := s.jobs[id := s.jobs[id].(visibleAt := now + Seconds(s.queues[queue].leaseSeconds))]), Flag(true))
  }

  function CreateQueue(s: Store, queue: string, c: Config, orReplace: bool): (Store, Reply) {
    if queue in s.queues && !orReplace then (s, Error)
    else (s.(queues := s.queues[queue := c]), Flag(true))
  }

  function DropQueue(s: Store, queue: string): (Store, Reply) {
    if queue in s.queues then (s.(queues := s.queues - {queue}), Flag(true)) else (s, Error)
  }

  // ---------------------------------------------------------------- the order of a claim

  lemma {:induction false} AscendingCorrect(ids: set<nat>)
    ensures |Ascending(ids)| == |ids|
    ensures forall i | 0 <= i < |Ascending(ids)| :: Ascending(ids)[i] in ids
    ensures forall x | x in ids :: x in Ascending(ids)
    ensures forall i, j | 0 <= i < j < |Ascending(ids)| :: Ascending(ids)[i] < Ascending(ids)[j]
  {
    if ids != {} {
      AscendingCorrect(ids - {Min(ids)});
    }
  }

  /** The result is ascending, holds min(n, |ids|) of the ids, and every id left out is larger than all of them. */
  lemma LowestCorrect(ids: set<nat>, n: nat)
    ensures var low := Lowest(ids, n);
      && |low| == (if |ids| <= n then |ids| else n)
      && (forall i | 0 <= i < |low| :: low[i] in ids)
      && (forall i, j | 0 <= i < j < |low| :: low[i] < low[j])
      && (forall x | x in ids && x !in low :: forall i | 0 <= i < |low| :: low[i] < x)
  {
    AscendingCorrect(ids);
    var all, low := Ascending(ids), Lowest(ids, n);
    forall x | x in ids && x !in low ensures forall i | 0 <= i < |low| :: low[i] < x {
      var k :| 0 <= k < |all| && all[k] == x;
      assert forall i | 0 <= i < |low| :: low[i] == all[i];
    }
  }
}

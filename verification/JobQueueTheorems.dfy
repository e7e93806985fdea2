/** Fenced delivery, absorption, isolation, conservation and exact claims, over every run. */
module JobQueueTheorems {
  import opened Collections
  import opened JobQueue
  import opened JobQueueRuns

  // ---------------------------------------------------------------- at most one completion per delivery

  ghost predicate Completes(s: System, op: Op, id: nat, generation: nat) {
    (op.AckOp? || op.NackOp?) && op.id == id && op.generation == generation && Accepted(Apply(s.store, op).1)
  }

  /** The delivery is over: the job is not leased to it, and no later claim can bring it back. */
  ghost predicate Over(s: System, id: nat, generation: nat) {
    && id in s.store.jobs
    && (s.store.jobs[id].generation == generation ==> !s.store.jobs[id].status.Running?)
    && generation <= s.store.jobs[id].generation
  }

  /** What may become of a row: it keeps its identity, its generation never falls, it is leased again only
      under a higher generation, and once done or dead it does not change at all. */
  ghost predicate RowMoves(j: Job, k: Job) {
    && j.generation <= k.generation && k.queue == j.queue && k.payload == j.payload && k.maxAttempts == j.maxAttempts
    && (!j.status.Running? && k.status.Running? ==> j.generation < k.generation)
    && (j.status.Done? || j.status.Dead? ==> k == j)
  }

  lemma RecoverMoves(j: Job, queue: string, lease: int, t1: int, t2: int, t3: int, t4: int)
    ensures var k := Recovered(j, queue, t1, t2, t3);
      RowMoves(j, k) && (Claimable(k, queue, t4) ==> RowMoves(j, ClaimJob(k, lease, t4)))
  {
  }

  lemma DequeueMoves(s: Store, op: Op, id: nat)
    requires op.DequeueOp? && id in s.jobs
    ensures id in Apply(s, op).0.jobs && RowMoves(s.jobs[id], Apply(s, op).0.jobs[id])
  {
    if 1 <= op.n <= 1000 && op.queue in s.queues {
      DequeuePointwise(s, op, id);
      RecoverMoves(s.jobs[id], op.queue, s.queues[op.queue].leaseSeconds, op.t1, op.t2, op.t3, op.t4);
    }
  }

  lemma JobStep(s: System, op: Op, id: nat)
    requires Good(s) && ClockKept(op, s.clock) && id in s.store.jobs
    ensures id in Step(s, op).store.jobs && RowMoves(s.store.jobs[id], Step(s, op).store.jobs[id])
  {
    match op
    case DequeueOp(_, _, _, _, _, _) => DequeueMoves(s.store, op, id);
    case EnqueueOp(_, _, _, _) =>
    case CreateQueueOp(_, _, _) =>
    case DropQueueOp(_) =>
    case _ => WorkerEffect(s.store, op);
  }

  lemma {:induction false} OverForever(states: seq<System>, ops: seq<Op>, i: nat, k: nat, id: nat, generation: nat)
    requires Run(states, ops) && i <= k < |states| && Over(states[i], id, generation)
    ensures Over(states[k], id, generation)
    decreases k
  {
    if i < k {
      OverForever(states, ops, i, k - 1, id, generation);
      RunIsGood(states, ops, k - 1);
      JobStep(states[k - 1], ops[k - 1], id);
    }
  }

  lemma CompletionEndsDelivery(s: System, op: Op, id: nat, generation: nat)
    requires Good(s) && ClockKept(op, s.clock) && Completes(s, op, id, generation)
    ensures !Over(s, id, generation) && Over(Step(s, op), id, generation)
  {
    WorkerEffect(s.store, op);
  }

  /** For each job and generation at most one ack or nack is ever accepted. */
  lemma AtMostOneCompletion(states: seq<System>, ops: seq<Op>, i: nat, k: nat, id: nat, generation: nat)
    requires Run(states, ops) && i < k < |ops|
    requires Completes(states[i], ops[i], id, generation)
    ensures !Completes(states[k], ops[k], id, generation)
  {
    RunIsGood(states, ops, i);
    CompletionEndsDelivery(states[i], ops[i], id, generation);
    OverForever(states, ops, i + 1, k, id, generation);
    RunIsGood(states, ops, k);
    if Completes(states[k], ops[k], id, generation) { CompletionEndsDelivery(states[k], ops[k], id, generation); }
  }

  // ---------------------------------------------------------------- done and dead are absorbing

  lemma {:induction false} FinishedForever(states: seq<System>, ops: seq<Op>, i: nat, k: nat, id: nat)
    requires Run(states, ops) && i <= k < |states| && id in states[i].store.jobs
    requires states[i].store.jobs[id].status.Done? || states[i].store.jobs[id].status.Dead?
    ensures id in states[k].store.jobs && states[k].store.jobs[id] == states[i].store.jobs[id]
    decreases k
  {
    if i < k {
      FinishedForever(states, ops, i, k - 1, id);
      RunIsGood(states, ops, k - 1);
      JobStep(states[k - 1], ops[k - 1], id);
    }
  }

  // ---------------------------------------------------------------- leases in time

  /** An accepted operation happens within the lease of the delivery it names, and that delivery is the
      latest one of the job. */
  lemma AcceptedWithinLease(s: System, op: Op)
    requires Good(s) && ClockKept(op, s.clock) && WorkerOp(op) && Accepted(Apply(s.store, op).1)
    ensures var ls := History(s, op.id);
      && op.generation == |ls| > 0
      && ls[|ls| - 1].start <= ClockAfter(op, s.clock) < ls[|ls| - 1].end
  {
    WorkerEffect(s.store, op);
    assert GoodHistory(s.store.jobs[op.id], History(s, op.id), s.clock) && GoodJob(s.store.jobs[op.id]);
  }

  /** In every reachable state the leases of one job's deliveries are intervals in order, one per generation,
      none overlapping another. */
  lemma LeasesNeverOverlap(states: seq<System>, ops: seq<Op>, i: nat, id: nat, g: nat, h: nat)
    requires Run(states, ops) && i < |states| && id in states[i].store.jobs
    requires g < h < |History(states[i], id)|
    ensures |History(states[i], id)| == states[i].store.jobs[id].generation
    ensures var ls := History(states[i], id);
      ls[g].start <= ls[g].end <= ls[h].start <= ls[h].end
  {
    RunIsGood(states, ops, i);
    assert GoodHistory(states[i].store.jobs[id], History(states[i], id), states[i].clock);
  }

  // ---------------------------------------------------------------- queues do not touch each other

  lemma DequeueIsIsolated(s: Store, op: Op, id: nat)
    requires GoodStore(s) && op.DequeueOp? && id in Apply(s, op).0.jobs && Apply(s, op).0.jobs[id].queue != op.queue
    ensures id in s.jobs && Apply(s, op).0.jobs[id] == s.jobs[id]
  {
    if 1 <= op.n <= 1000 && op.queue in s.queues {
      DequeueKeepsStore(s, op);
      DequeuePointwise(s, op, id);
    }
  }

  lemma QueuesAreIsolated(s: System, op: Op, id: nat)
    requires Good(s) && ClockKept(op, s.clock) && id in Step(s, op).store.jobs
    requires Step(s, op).store.jobs[id].queue != op.queue
    ensures id in s.store.jobs && Step(s, op).store.jobs[id] == s.store.jobs[id]
  {
    if op.DequeueOp? {
      DequeueIsIsolated(s.store, op, id);
    } else if WorkerOp(op) {
      WorkerEffect(s.store, op);
    }
  }

  // ---------------------------------------------------------------- attempts are conserved

  function Attempts(jobs: Jobs, n: nat): nat {
    if n == 0 then 0 else Attempts(jobs, n - 1) + if n - 1 in jobs then jobs[n - 1].attempts else 0
  }

  /** sum(max_attempts - attempts) over the jobs with ids below n. */
  function Remaining(jobs: Jobs, n: nat): int {
    if n == 0 then 0
    else Remaining(jobs, n - 1) + if n - 1 in jobs then jobs[n - 1].maxAttempts - jobs[n - 1].attempts else 0
  }

  function Below(ids: set<nat>, n: nat): set<nat> {
    set id | id in ids && id < n
  }

  lemma {:induction false} ClaimSums(jobs: Jobs, jobs': Jobs, ids: set<nat>, n: nat)
    requires jobs.Keys == jobs'.Keys && ids <= jobs.Keys
    requires forall id | id in jobs :: jobs'[id].maxAttempts == jobs[id].maxAttempts
    requires forall id | id in jobs :: jobs'[id].attempts == jobs[id].attempts + (if id in ids then 1 else 0)
    ensures Attempts(jobs', n) == Attempts(jobs, n) + |Below(ids, n)|
    ensures Remaining(jobs', n) == Remaining(jobs, n) - |Below(ids, n)|
    decreases n
  {
    if n == 0 {
      assert Below(ids, n) == {};
    } else {
      ClaimSums(jobs, jobs', ids, n - 1);
      assert Below(ids, n) == Below(ids, n - 1) + (if n - 1 in ids then {n - 1} else {});
    }
  }

  lemma {:induction false} SumsIgnoreTail(jobs: Jobs, jobs': Jobs, n: nat)
    requires forall id | id < n :: (id in jobs <==> id in jobs') && (id in jobs ==> jobs[id] == jobs'[id])
    ensures Attempts(jobs, n) == Attempts(jobs', n) && Remaining(jobs, n) == Remaining(jobs', n)
    decreases n
  {
    if n > 0 { SumsIgnoreTail(jobs, jobs', n - 1); }
  }

  /** Every delivery is an attempt, and deliveries plus attempts left are the attempts ever allowed. */
  ghost predicate Conserved(s: System) {
    var jobs, n := s.store.jobs, s.store.nextId;
    s.delivered == Attempts(jobs, n) && s.delivered + Remaining(jobs, n) == s.allowed
  }

  lemma ClaimedRows(s: Store, op: Op)
    requires GoodStore(s) && op.DequeueOp? && 1 <= op.n <= 1000 && op.queue in s.queues
    ensures var rows := Apply(s, op).1.rows; |rows| == |Claimed(s, op)| && Claimed(s, op) <= s.jobs.Keys
    ensures Below(Claimed(s, op), s.nextId) == Claimed(s, op)
  {
    var recovered := Recover(s.jobs, op.queue, op.t1, op.t2, op.t3);
    var eligible := ClaimableIds(recovered, op.queue, op.t4);
    LowestCorrect(eligible, op.n);
    SetOfSeq(Lowest(eligible, op.n));
  }

  lemma {:induction false} SetOfSeq(ids: seq<nat>)
    requires forall i, k | 0 <= i < k < |ids| :: ids[i] < ids[k]
    ensures |set i | 0 <= i < |ids| :: ids[i]| == |ids|
  {
    if ids != [] {
      var init, last := ids[..|ids| - 1], ids[|ids| - 1];
      SetOfSeq(init);
      var all, some := set i | 0 <= i < |ids| :: ids[i], set i | 0 <= i < |init| :: init[i];
      forall x | x in all ensures x in some + {last} {
        var i :| 0 <= i < |ids| && x == ids[i];
        if i < |init| { assert init[i] == x; }
      }
      forall x | x in some ensures x in all && x != last {
        var i :| 0 <= i < |init| && x == init[i];
        assert ids[i] == x;
      }
      assert all == some + {last};
    }
  }

  /** A dequeue spends one attempt per row. */
  lemma DequeueSums(s: Store, op: Op)
    requires GoodStore(s) && op.DequeueOp?
    ensures var s' := Apply(s, op).0;
      && Attempts(s'.jobs, s.nextId) == Attempts(s.jobs, s.nextId) + |Claimed(s, op)|
      && Remaining(s'.jobs, s.nextId) == Remaining(s.jobs, s.nextId) - |Claimed(s, op)|
  {
    var jobs' := Apply(s, op).0.jobs;
    if 1 <= op.n <= 1000 && op.queue in s.queues {
      assert jobs'.Keys == s.jobs.Keys by { DequeueKeepsStore(s, op); }
      forall id | id in s.jobs
        ensures jobs'[id].maxAttempts == s.jobs[id].maxAttempts
        ensures jobs'[id].attempts == s.jobs[id].attempts + (if id in Claimed(s, op) then 1 else 0)
      {
        DequeuePointwise(s, op, id);
      }
      ClaimedRows(s, op);
      ClaimSums(s.jobs, jobs', Claimed(s, op), s.nextId);
    }
  }

  lemma DequeueConserves(s: System, op: Op)
    requires Good(s) && op.DequeueOp? && Conserved(s)
    ensures Conserved(Step(s, op)) && Step(s, op).delivered == s.delivered + |Claimed(s.store, op)|
  {
    DequeueSums(s.store, op);
    if 1 <= op.n <= 1000 && op.queue in s.store.queues { ClaimedRows(s.store, op); }
  }

  lemma WorkerSums(s: Store, op: Op)
    requires WorkerOp(op) && (op.NackOp? ==> op.t1 <= op.t2)
    ensures var s' := Apply(s, op).0;
      && s'.nextId == s.nextId
      && Attempts(s'.jobs, s.nextId) == Attempts(s.jobs, s.nextId)
      && Remaining(s'.jobs, s.nextId) == Remaining(s.jobs, s.nextId)
  {
    WorkerEffect(s, op);
    var jobs' := Apply(s, op).0.jobs;
    forall id | id in s.jobs
      ensures jobs'[id].maxAttempts == s.jobs[id].maxAttempts && jobs'[id].attempts == s.jobs[id].attempts
    {
    }
    assert Below({}, s.nextId) == {};
    ClaimSums(s.jobs, jobs', {}, s.nextId);
  }

  lemma WorkerConserves(s: System, op: Op)
    requires WorkerOp(op) && ClockKept(op, s.clock) && Conserved(s)
    ensures Conserved(Step(s, op)) && Step(s, op).delivered == s.delivered
  {
    WorkerSums(s.store, op);
  }

  lemma EnqueueConserves(s: System, op: Op)
    requires Good(s) && op.EnqueueOp? && Conserved(s)
    ensures Conserved(Step(s, op)) && Step(s, op).delivered == s.delivered
  {
    SumsIgnoreTail(s.store.jobs, Step(s, op).store.jobs, s.store.nextId);
  }

  lemma StepConserves(s: System, op: Op)
    requires Good(s) && ClockKept(op, s.clock) && Conserved(s)
    ensures Conserved(Step(s, op))
    ensures Step(s, op).delivered - s.delivered == if op.DequeueOp? then |Claimed(s.store, op)| else 0
  {
    match op
    case DequeueOp(_, _, _, _, _, _) => DequeueConserves(s, op);
    case EnqueueOp(_, _, _, _) => EnqueueConserves(s, op);
    case CreateQueueOp(_, _, _) =>
    case DropQueueOp(_) =>
    case _ => WorkerConserves(s, op);
  }

  /** Over every run: the rows ever delivered are the attempts ever made, and with the attempts left they are
      the attempts allowed at enqueue. So claims are bounded by what was enqueued. */
  lemma {:induction false} DeliveriesConserved(states: seq<System>, ops: seq<Op>, i: nat)
    requires Run(states, ops) && i < |states|
    ensures Conserved(states[i]) && 0 <= Remaining(states[i].store.jobs, states[i].store.nextId)
    ensures states[i].delivered <= states[i].allowed
  {
    RunIsGood(states, ops, i);
    if i > 0 {
      DeliveriesConserved(states, ops, i - 1);
      RunIsGood(states, ops, i - 1);
      StepConserves(states[i - 1], ops[i - 1]);
    }
    RemainingNonNegative(states[i].store, states[i].store.nextId);
  }

  lemma {:induction false} RemainingNonNegative(s: Store, n: nat)
    requires GoodStore(s)
    ensures 0 <= Remaining(s.jobs, n)
    decreases n
  {
    if n > 0 { RemainingNonNegative(s, n - 1); }
  }

  // ---------------------------------------------------------------- what a dequeue returns

  /** Claimable by this dequeue: waiting and due, or leased to a delivery whose lease is over by t3. */
  predicate Eligible(j: Job, queue: string, t3: int, t4: int) {
    && j.queue == queue && j.attempts < j.maxAttempts
    && ((j.status.Pending? && j.visibleAt <= t4) || (j.status.Running? && j.visibleAt <= t3))
  }

  function EligibleIds(jobs: Jobs, queue: string, t3: int, t4: int): set<nat> {
    set id | id in jobs && Eligible(jobs[id], queue, t3, t4)
  }

  lemma EligibleIsClaimable(jobs: Jobs, queue: string, t1: int, t2: int, t3: int, t4: int)
    requires t1 <= t2 <= t3 <= t4
    ensures ClaimableIds(Recover(jobs, queue, t1, t2, t3), queue, t4) == EligibleIds(jobs, queue, t3, t4)
  {
    forall id | id in jobs
      ensures Claimable(Recovered(jobs[id], queue, t1, t2, t3), queue, t4) <==> Eligible(jobs[id], queue, t3, t4)
    {
    }
  }

  /** The rows are the lowest-id eligible jobs, as many as asked for and there are, in ascending order. */
  lemma DequeueIsExact(s: Store, op: Op)
    requires op.DequeueOp? && 1 <= op.n <= 1000 && op.queue in s.queues && op.t1 <= op.t2 <= op.t3 <= op.t4
    ensures var r := Apply(s, op).1;
      var eligible := EligibleIds(s.jobs, op.queue, op.t3, op.t4);
      && r.Rows?
      && |r.rows| == (if |eligible| <= op.n then |eligible| else op.n)
      && (forall i, k | 0 <= i < k < |r.rows| :: r.rows[i].id < r.rows[k].id)
      && (forall i | 0 <= i < |r.rows| :: r.rows[i].id in eligible && r.rows[i].id in Claimed(s, op))
      && (forall id | id in eligible && id !in Claimed(s, op) :: forall i | 0 <= i < |r.rows| :: r.rows[i].id < id)
  {
    RowsAre(s, op);
    LowestCorrect(EligibleIds(s.jobs, op.queue, op.t3, op.t4), op.n);
  }

  /** The rows have the lowest eligible ids, and so have the claimed jobs. */
  lemma RowsAre(s: Store, op: Op)
    requires op.DequeueOp? && 1 <= op.n <= 1000 && op.queue in s.queues && op.t1 <= op.t2 <= op.t3 <= op.t4
    ensures var r := Apply(s, op).1; var low := Lowest(EligibleIds(s.jobs, op.queue, op.t3, op.t4), op.n);
      && r.Rows? && |r.rows| == |low| && (forall i | 0 <= i < |low| :: r.rows[i].id == low[i])
      && Claimed(s, op) == set i | 0 <= i < |low| :: low[i]
  {
    EligibleIsClaimable(s.jobs, op.queue, op.t1, op.t2, op.t3, op.t4);
  }

  /** Each returned row is the stored job, leased to a new generation until t4 plus the lease; every other
      job of the table is only recovered. */
  lemma DequeueEffect(s: Store, op: Op, id: nat)
    requires op.DequeueOp? && 1 <= op.n <= 1000 && op.queue in s.queues && op.t1 <= op.t2 <= op.t3 <= op.t4
    requires id in s.jobs
    ensures var (s', r) := Apply(s, op);
      && id in s'.jobs
      && var j, k := s.jobs[id], s'.jobs[id];
      && (id !in Claimed(s, op) ==> k == Recovered(j, op.queue, op.t1, op.t2, op.t3))
      && (id in Claimed(s, op) ==>
            && k.status.Running? && k.generation == j.generation + 1 && k.attempts == j.attempts + 1
            && k.visibleAt == op.t4 + Seconds(s.queues[op.queue].leaseSeconds)
            && k.payload == j.payload && k.maxAttempts == j.maxAttempts && k.queue == j.queue && k.lastError == j.lastError
            && Row(id, k) in r.rows)
  {
    DequeuePointwise(s, op, id);
    if id in Claimed(s, op) {
      var low := Lowest(ClaimableIds(Recover(s.jobs, op.queue, op.t1, op.t2, op.t3), op.queue, op.t4), op.n);
      var i :| 0 <= i < |low| && low[i] == id;
      assert Apply(s, op).1.rows[i] == Row(id, Apply(s, op).0.jobs[id]);
    }
  }

  /** A job with attempts left whose lease is over by t3 is delivered again, whatever else is leased, unless the dequeue
      is filled by n eligible jobs with lower ids. */
  lemma ExpiredIsDelivered(s: Store, op: Op, id: nat)
    requires GoodStore(s) && op.DequeueOp? && 1 <= op.n <= 1000 && op.queue in s.queues && op.t1 <= op.t2 <= op.t3 <= op.t4
    requires id in s.jobs && s.jobs[id].queue == op.queue && s.jobs[id].status.Running?
    requires s.jobs[id].attempts < s.jobs[id].maxAttempts && s.jobs[id].visibleAt <= op.t3
    ensures id in Claimed(s, op) ==>
      exists r | r in Apply(s, op).1.rows :: r.id == id && r.job.generation == s.jobs[id].generation + 1
    ensures id !in Claimed(s, op) ==>
      |Claimed(s, op)| == op.n && forall x | x in Claimed(s, op) :: x < id
  {
    DequeueIsExact(s, op);
    DequeueEffect(s, op, id);
    ClaimedRows(s, op);
    if id in Claimed(s, op) {
      assert Row(id, Apply(s, op).0.jobs[id]) in Apply(s, op).1.rows;
    } else {
      assert id in EligibleIds(s.jobs, op.queue, op.t3, op.t4);
      ClaimedAreRows(s, op);
    }
  }

  /** The claimed ids are those of the returned rows. */
  lemma ClaimedAreRows(s: Store, op: Op)
    requires op.DequeueOp? && 1 <= op.n <= 1000 && op.queue in s.queues && op.t1 <= op.t2 <= op.t3 <= op.t4
    ensures forall x | x in Claimed(s, op) :: exists i | 0 <= i < |Apply(s, op).1.rows| :: Apply(s, op).1.rows[i].id == x
    ensures |EligibleIds(s.jobs, op.queue, op.t3, op.t4)| <= op.n ==> EligibleIds(s.jobs, op.queue, op.t3, op.t4) <= Claimed(s, op)
  {
    RowsAre(s, op);
    var ids := EligibleIds(s.jobs, op.queue, op.t3, op.t4);
    AscendingCorrect(ids);
    var low := Lowest(ids, op.n);
    if |ids| <= op.n {
      forall x | x in ids ensures x in Claimed(s, op) {
        assert x in low;
        var i :| 0 <= i < |low| && low[i] == x;
      }
    }
  }

  /** A dequeue is refused exactly for a count outside 1 to 1000 or an unknown queue, and then does nothing. */
  lemma DequeueRefusedIff(s: Store, op: Op)
    requires op.DequeueOp?
    ensures Apply(s, op).1 == Error <==> op.n < 1 || op.n > 1000 || op.queue !in s.queues
    ensures Apply(s, op).1 == Error ==> Apply(s, op).0 == s
  {
  }

  // ---------------------------------------------------------------- what recovery does to a job

  const LeaseExpired := "visibility lease expired after maximum attempts"
  const LimitReached := "attempt limit reached before delivery"

  /** What a dequeue that does not claim a job leaves of it. */
  predicate RecoveredTo(j: Job, k: Job, queue: string, t1: int, t2: int, t3: int) {
    if j.queue != queue || j.status.Done? || j.status.Dead? then k == j
    else if j.attempts >= j.maxAttempts then
      if j.status.Pending? then
        k.status.Dead? && k.visibleAt == t1 && k == j.(status := k.status, visibleAt := k.visibleAt, lastError := k.lastError)
        && k.lastError == if j.lastError.None? then Some(LimitReached) else j.lastError
      else if j.visibleAt <= t2 then
        k.status.Dead? && k.visibleAt == t2 && k.lastError == Some(LeaseExpired)
        && k == j.(status := k.status, visibleAt := k.visibleAt, lastError := k.lastError)
      else k == j
    else
      if j.status.Running? && j.visibleAt <= t3 then
        k.status.Pending? && k.visibleAt == t3 && k == j.(status := k.status, visibleAt := k.visibleAt)
      else k == j
  }

  /** A delivery that timed out is dead if it was the last attempt and waits again if not; what is leased, finished or of
      another queue is left alone. */
  lemma RecoveryByFields(s: Store, op: Op, id: nat)
    requires op.DequeueOp? && 1 <= op.n <= 1000 && op.queue in s.queues && op.t1 <= op.t2 <= op.t3 <= op.t4
    requires id in s.jobs && id !in Claimed(s, op)
    ensures id in Apply(s, op).0.jobs
    ensures RecoveredTo(s.jobs[id], Apply(s, op).0.jobs[id], op.queue, op.t1, op.t2, op.t3)
  {
    DequeueEffect(s, op, id);
  }

  /** After any dequeue of a queue, no job of it is running with its lease over and its attempts used up. */
  lemma UsedUpIsDead(states: seq<System>, ops: seq<Op>, i: nat, id: nat)
    requires Run(states, ops) && i < |ops| && ops[i].DequeueOp? && 1 <= ops[i].n <= 1000
    requires ops[i].queue in states[i].store.queues && id in states[i + 1].store.jobs
    ensures var j := states[i + 1].store.jobs[id];
      !(j.queue == ops[i].queue && j.status.Running? && j.visibleAt <= ops[i].t2 && j.attempts >= j.maxAttempts)
  {
    RunIsGood(states, ops, i);
    var s, op := states[i].store, ops[i];
    DequeueKeepsStore(s, op);
    DequeueEffect(s, op, id);
    if id !in Claimed(s, op) { RecoveryByFields(s, op, id); }
  }

  // ---------------------------------------------------------------- what the other operations do to a job

  /** An enqueue that is accepted adds one waiting job, which is eligible from its reading on; it is refused exactly for
      an unknown queue, or one without attempts to give. */
  lemma EnqueueAdds(s: Store, op: Op, t3: int, t4: int)
    requires GoodStore(s) && op.EnqueueOp?
    ensures var (s', r) := Apply(s, op);
      && (r.Enqueued? <==> op.queue in s.queues)
      && (!r.Enqueued? ==> r == Error && s' == s)
      && (r.Enqueued? ==>
            && r.id !in s.jobs && s'.jobs.Keys == s.jobs.Keys + {r.id} && s'.queues == s.queues
            && (forall id | id in s.jobs :: s'.jobs[id] == s.jobs[id])
            && var j := s'.jobs[r.id];
            && j.queue == op.queue && j.payload == op.payload && j.status.Pending? && j.attempts == 0 && j.generation == 0
            && j.lastError == None && j.visibleAt == op.t
            && (op.maxOverride > 0 ==> j.maxAttempts == op.maxOverride)
            && (op.maxOverride <= 0 ==> j.maxAttempts == s.queues[op.queue].maxAttempts)
            && (r.id in EligibleIds(s'.jobs, op.queue, t3, t4) <==> op.t <= t4))
  {
  }

  /** Registering and dropping queues changes no job: jobs of a dropped queue stay, and wait for one of that name. */
  lemma QueueDdlKeepsJobs(s: Store, op: Op)
    requires op.CreateQueueOp? || op.DropQueueOp?
    ensures var (s', r) := Apply(s, op);
      && s'.jobs == s.jobs && s'.nextId == s.nextId && (r == Error ==> s' == s) && (r != Error ==> r == Flag(true))
      && (op.CreateQueueOp? ==>
            && (r == Error <==> op.queue in s.queues && !op.orReplace)
            && (r != Error ==> op.queue in s'.queues && s'.queues[op.queue] == op.config
                               && forall q | q != op.queue :: q in s'.queues <==> q in s.queues))
      && (op.DropQueueOp? ==>
            && (r == Error <==> op.queue !in s.queues) && op.queue !in s'.queues
            && forall q | q != op.queue :: q in s'.queues <==> q in s.queues)
      && forall q | q != op.queue && q in s.queues :: s'.queues[q] == s.queues[q]
  {
  }

  /** An ack, nack or renewal is accepted exactly when it names the latest delivery of a running job of its queue, and
      both its readings fall before the end of that delivery's lease. */
  lemma AcceptedIff(s: System, op: Op)
    requires Good(s) && ClockKept(op, s.clock) && WorkerOp(op)
    ensures Accepted(Apply(s.store, op).1) <==>
      && op.queue in s.store.queues && op.id in s.store.jobs && s.store.jobs[op.id].queue == op.queue
      && s.store.jobs[op.id].status.Running?
      && var ls := History(s, op.id);
      && op.generation == |ls| && 0 < |ls| && ClockAfter(op, s.clock) < ls[|ls| - 1].end
  {
    WorkerEffect(s.store, op);
    if op.id in s.store.jobs {
      assert GoodHistory(s.store.jobs[op.id], History(s, op.id), s.clock) && GoodJob(s.store.jobs[op.id]);
    }
  }

  /** What an accepted operation leaves of the job, field by field. */
  lemma AcceptedByFields(s: Store, op: Op)
    requires WorkerOp(op) && (op.NackOp? ==> op.t1 <= op.t2) && Accepted(Apply(s, op).1)
    ensures op.id in s.jobs && op.queue in s.queues && op.id in Apply(s, op).0.jobs
    ensures var j, k := s.jobs[op.id], Apply(s, op).0.jobs[op.id];
      && k == j.(status := k.status, visibleAt := k.visibleAt, lastError := k.lastError)
      && (op.AckOp? ==> k.status.Done? && k.visibleAt == j.visibleAt && k.lastError == j.lastError)
      && (op.RenewOp? ==>
            k.status.Running? && k.lastError == j.lastError
            && k.visibleAt == op.t + s.queues[op.queue].leaseSeconds * 1_000_000)
      && (op.NackOp? ==>
            && (op.error != "" ==> k.lastError == Some(op.error)) && (op.error == "" ==> k.lastError == Some("nack"))
            && (k.status.Pending? <==> op.requeue && j.attempts < j.maxAttempts) && (k.status.Pending? || k.status.Dead?)
            && (k.status.Dead? ==> k.visibleAt == op.t2 && Apply(s, op).1 == Nacked("dead"))
            && (k.status.Pending? ==>
                  && k.visibleAt == op.t2 + Backoff(s.queues[op.queue].backoffBase, j.attempts) * 1_000_000
                  && Apply(s, op).1 == Nacked("pending")))
  {
  }

  // ---------------------------------------------------------------- backoff

  /** One second after no attempt; each further attempt, up to the sixth, waits `base` times as long, up to an hour. */
  lemma BackoffIs(base: int, attempts: nat)
    requires 0 < base
    ensures Backoff(base, 0) == 1
    ensures attempts < 6 ==>
      Backoff(base, attempts + 1) == if base * Backoff(base, attempts) > 3600 then 3600 else base * Backoff(base, attempts)
    ensures attempts >= 6 ==> Backoff(base, attempts + 1) == Backoff(base, attempts)
  {
    if attempts < 6 { CapTwice(base, Power(base, attempts)); }
  }

  /** Capping before a multiplication changes nothing once the product is capped. */
  lemma CapTwice(base: int, p: nat)
    requires 0 < base
    ensures var q := if p > 3600 then 3600 else p;
      (if base * p > 3600 then 3600 else base * p) == if base * q > 3600 then 3600 else base * q
  {
    if p > 3600 {
      Grows(base, p);
      Grows(base, 3600);
    }
  }

  lemma Grows(base: int, p: nat)
    requires 0 < base
    ensures base * p >= p
  {
  }

  lemma {:induction false} PowerGrows(base: nat, a: nat, b: nat)
    requires 1 <= base && a <= b
    ensures 1 <= Power(base, a) <= Power(base, b)
    decreases b
  {
    if a == b {
      if a > 0 { PowerGrows(base, a - 1, a - 1); }
    } else {
      PowerGrows(base, a, b - 1);
      assert Power(base, b - 1) <= base * Power(base, b - 1);
    }
  }

  /** Later failures wait at least as long, and never longer than an hour; a base of zero does not wait. */
  lemma BackoffGrows(base: int, a: nat, b: nat)
    requires a <= b
    ensures Backoff(base, a) <= Backoff(base, b) <= 3600
    ensures Backoff(base, a) == 0 <==> base <= 0
  {
    if base > 0 { PowerGrows(base, if a > 6 then 6 else a, if b > 6 then 6 else b); }
  }

  /** A job given back for another attempt is eligible again exactly when its backoff is over. */
  lemma NackedWaitsItsBackoff(s: Store, op: Op, t3: int, t4: int)
    requires op.NackOp? && op.t1 <= op.t2 && Apply(s, op).1 == Nacked("pending")
    ensures op.id in s.jobs && op.id in Apply(s, op).0.jobs
    ensures op.id in EligibleIds(Apply(s, op).0.jobs, op.queue, t3, t4) <==>
      op.t2 + Seconds(Backoff(s.queues[op.queue].backoffBase, s.jobs[op.id].attempts)) <= t4
    ensures Apply(s, op).0.jobs[op.id].visibleAt <= op.t2 + Seconds(3600)
    ensures Apply(s, op).0.jobs[op.id].lastError == Some(if op.error == "" then "nack" else op.error)
  {
    BackoffGrows(s.queues[op.queue].backoffBase, s.jobs[op.id].attempts, s.jobs[op.id].attempts);
  }

  // ---------------------------------------------------------------- quackapi_queues()

  function Of(jobs: Jobs, queue: string): set<nat> {
    set id | id in jobs && jobs[id].queue == queue
  }

  function Depth(jobs: Jobs, queue: string, now: int): set<nat> {
    set id | id in jobs && jobs[id].queue == queue &&
      (jobs[id].status.Pending? || (jobs[id].status.Running? && jobs[id].visibleAt <= now))
  }

  function InFlight(jobs: Jobs, queue: string, now: int): set<nat> {
    set id | id in jobs && jobs[id].queue == queue && jobs[id].status.Running? && jobs[id].visibleAt > now
  }

  function InStatus(jobs: Jobs, queue: string, status: Status): set<nat> {
    set id | id in jobs && jobs[id].queue == queue && jobs[id].status == status
  }

  /** A job is in flight exactly while its delivery could still be renewed; it counts as depth exactly when it is neither
      that nor finished. */
  lemma CountsMean(s: Store, queue: string, now: int, id: nat)
    requires queue in s.queues && id in s.jobs && s.jobs[id].queue == queue
    ensures id in InFlight(s.jobs, queue, now) <==> Accepted(Apply(s, RenewOp(queue, id, s.jobs[id].generation, now)).1)
    ensures id in Depth(s.jobs, queue, now) <==>
      id !in InFlight(s.jobs, queue, now) && !s.jobs[id].status.Done? && !s.jobs[id].status.Dead?
    ensures id in InStatus(s.jobs, queue, Dead) <==> s.jobs[id].status.Dead?
    ensures id in InStatus(s.jobs, queue, Done) <==> s.jobs[id].status.Done?
  {
  }

  lemma CountsPartition(jobs: Jobs, queue: string, now: int)
    ensures |Depth(jobs, queue, now)| + |InFlight(jobs, queue, now)|
          + |InStatus(jobs, queue, Dead)| + |InStatus(jobs, queue, Done)| == |Of(jobs, queue)|
  {
    var a, b := Depth(jobs, queue, now), InFlight(jobs, queue, now);
    var c, d := InStatus(jobs, queue, Dead), InStatus(jobs, queue, Done);
    assert Of(jobs, queue) == a + b + c + d;
    assert a !! b && (a + b) !! c && (a + b + c) !! d;
  }
}

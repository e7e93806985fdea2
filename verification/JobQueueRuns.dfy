/** What holds over every run of the queue, from an empty jobs table, while the clock does not go back. */
module JobQueueRuns {
  import opened JobQueue

  datatype Op =
    | CreateQueueOp(queue: string, config: Config, orReplace: bool)
    | DropQueueOp(queue: string)
    | EnqueueOp(queue: string, payload: string, maxOverride: int, t: int)
    | DequeueOp(queue: string, n: int, t1: int, t2: int, t3: int, t4: int)
    | AckOp(queue: string, id: nat, generation: nat, t: int)
    | NackOp(queue: string, id: nat, generation: nat, requeue: bool, error: string, t1: int, t2: int)
    | RenewOp(queue: string, id: nat, generation: nat, t: int)

  function Apply(s: Store, op: Op): (Store, Reply) {
    match op
    case CreateQueueOp(queue, c, orReplace) => CreateQueue(s, queue, c, orReplace)
    case DropQueueOp(queue) => DropQueue(s, queue)
    case EnqueueOp(queue, payload, max, t) => Enqueue(s, queue, payload, max, t)
    case DequeueOp(queue, n, t1, t2, t3, t4) => Dequeue(s, queue, n, t1, t2, t3, t4)
    case AckOp(queue, id, g, t) => Ack(s, queue, id, g, t)
    case NackOp(queue, id, g, requeue, error, t1, t2) => Nack(s, queue, id, g, requeue, error, t1, t2)
    case RenewOp(queue, id, g, t) => Renew(s, queue, id, g, t)
  }

  /** The clock after an operation that is read from `clock` on. An enqueue takes no lock: its reading may lie on either
      side of the clock, and does not move it. */
  function ClockAfter(op: Op, clock: int): int {
    match op
    case DequeueOp(_, _, _, _, _, t4) => t4
    case AckOp(_, _, _, t) => t
    case NackOp(_, _, _, _, _, _, t2) => t2
    case RenewOp(_, _, _, t) => t
    case _ => clock
  }

  predicate ClockKept(op: Op, clock: int) {
    match op
    case CreateQueueOp(_, c, _) => ValidConfig(c)
    case DequeueOp(_, _, t1, t2, t3, t4) => clock <= t1 <= t2 <= t3 <= t4
    case AckOp(_, _, _, t) => clock <= t
    case NackOp(_, _, _, _, _, t1, t2) => clock <= t1 <= t2
    case RenewOp(_, _, _, t) => clock <= t
    case _ => true
  }

  /** The time for which one delivery of one job was leased: up to its expiry, its last renewal, or the
      moment its worker gave it back. */
  datatype Lease = Lease(start: int, end: int)

  /** The store with its history: per job the leases of its deliveries in order, the rows ever delivered,
      and the attempts ever allowed. */
  datatype System = System(store: Store, clock: int, leases: map<nat, seq<Lease>>, delivered: nat, allowed: int)

  function Initial(clock: int): System {
    System(EmptyStore, clock, map[], 0, 0)
  }

  predicate Accepted(r: Reply) {
    r == Flag(true) || r == Nacked("dead") || r == Nacked("pending")
  }

  /** The jobs that a dequeue claims. */
  function Claimed(s: Store, op: Op): set<nat>
    requires op.DequeueOp?
  {
    if op.n < 1 || op.n > 1000 || op.queue !in s.queues then {}
    else
      var ids := Lowest(ClaimableIds(Recover(s.jobs, op.queue, op.t1, op.t2, op.t3), op.queue, op.t4), op.n);
      set i | 0 <= i < |ids| :: ids[i]
  }

  /** A worker's accepted ack, nack or renewal sets the end of the latest lease. */
  function SetEnd(ls: seq<Lease>, end: int): seq<Lease> {
    if ls == [] then ls else ls[|ls| - 1 := ls[|ls| - 1].(end := end)]
  }

  function History(s: System, id: nat): seq<Lease> {
    if id in s.leases then s.leases[id] else []
  }

  /** The leases of one job after an operation whose result is `r`. */
  function HistoryAfter(s: System, op: Op, r: (Store, Reply), id: nat): seq<Lease>
    requires id in r.0.jobs
  {
    var ls := History(s, id);
    match op
    case DequeueOp(_, _, _, _, _, t4) =>
      if id in Claimed(s.store, op) then ls + [Lease(t4, r.0.jobs[id].visibleAt)] else ls
    case AckOp(_, i, _, t) => if i == id && Accepted(r.1) then SetEnd(ls, t) else ls
    case NackOp(_, i, _, _, _, _, t2) => if i == id && Accepted(r.1) then SetEnd(ls, t2) else ls
    case RenewOp(_, i, _, _) => if i == id && Accepted(r.1) then SetEnd(ls, r.0.jobs[id].visibleAt) else ls
    case _ => ls
  }

  function Step(s: System, op: Op): System {
    var r := Apply(s.store, op);
    System(r.0, ClockAfter(op, s.clock), map id | id in r.0.jobs :: HistoryAfter(s, op, r, id),
           s.delivered + (if r.1.Rows? then |r.1.rows| else 0),
           s.allowed + (if r.1.Enqueued? && r.1.id in r.0.jobs then r.0.jobs[r.1.id].maxAttempts else 0))
  }

  /** A run: the states before and after each operation. */
  ghost predicate Run(states: seq<System>, ops: seq<Op>) {
    && |states| == |ops| + 1
    && states[0] == Initial(states[0].clock)
    && forall i | 0 <= i < |ops| :: ClockKept(ops[i], states[i].clock) && states[i + 1] == Step(states[i], ops[i])
  }

  // ---------------------------------------------------------------- the invariant

  predicate GoodJob(j: Job) {
    && j.attempts == j.generation <= j.maxAttempts
    && (j.status.Pending? ==> j.attempts < j.maxAttempts)
    && (j.status.Running? ==> 0 < j.attempts)
  }

  ghost predicate GoodStore(s: Store) {
    && (forall q | q in s.queues :: ValidConfig(s.queues[q]))
    && (forall id | id in s.jobs :: id < s.nextId && GoodJob(s.jobs[id]))
  }

  /** The current delivery's lease ends at the row's visible_at, or is over. */
  predicate LeaseTracks(j: Job, l: Lease, clock: int) {
    if j.status.Running? then l.end == j.visibleAt else l.end <= clock
  }

  /** One lease per generation, each over before the next begins. */
  ghost predicate GoodHistory(j: Job, ls: seq<Lease>, clock: int) {
    && |ls| == j.generation
    && (forall i | 0 <= i < |ls| :: ls[i].start <= ls[i].end && ls[i].start <= clock)
    && (forall i, k | 0 <= i < k < |ls| :: ls[i].end <= ls[k].start)
    && (ls != [] ==> LeaseTracks(j, ls[|ls| - 1], clock))
  }

  ghost predicate GoodLeases(s: System) {
    forall id | id in s.store.jobs :: GoodHistory(s.store.jobs[id], History(s, id), s.clock)
  }

  ghost predicate Good(s: System) {
    GoodStore(s.store) && s.leases.Keys == s.store.jobs.Keys && GoodLeases(s)
  }

  // ---------------------------------------------------------------- one job through one operation

  /** A dequeue row by row. */
  lemma DequeuePointwise(s: Store, op: Op, id: nat)
    requires op.DequeueOp? && 1 <= op.n <= 1000 && op.queue in s.queues && id in s.jobs
    ensures var s' := Apply(s, op).0;
      && s'.jobs.Keys == s.jobs.Keys && s'.queues == s.queues && s'.nextId == s.nextId
      && var j := Recovered(s.jobs[id], op.queue, op.t1, op.t2, op.t3);
         s'.jobs[id] == if id in Claimed(s, op) then ClaimJob(j, s.queues[op.queue].leaseSeconds, op.t4) else j
    ensures id in Claimed(s, op) ==> Claimable(Recovered(s.jobs[id], op.queue, op.t1, op.t2, op.t3), op.queue, op.t4)
  {
    LowestCorrect(ClaimableIds(Recover(s.jobs, op.queue, op.t1, op.t2, op.t3), op.queue, op.t4), op.n);
  }

  lemma DequeueKeepsStore(s: Store, op: Op)
    requires GoodStore(s) && op.DequeueOp?
    ensures GoodStore(Apply(s, op).0) && Apply(s, op).0.jobs.Keys == s.jobs.Keys
  {
    if 1 <= op.n <= 1000 && op.queue in s.queues {
      var s' := Apply(s, op).0;
      assert s'.jobs.Keys == s.jobs.Keys;
      forall id | id in s'.jobs ensures id < s'.nextId && GoodJob(s'.jobs[id]) {
        DequeuePointwise(s, op, id);
      }
    }
  }

  lemma StoreKept(s: Store, op: Op, clock: int)
    requires GoodStore(s) && ClockKept(op, clock)
    ensures GoodStore(Apply(s, op).0) && s.jobs.Keys <= Apply(s, op).0.jobs.Keys
  {
    match op
    case DequeueOp(_, _, _, _, _, _) => DequeueKeepsStore(s, op);
    case _ =>
  }

  lemma RecoveredHistory(j: Job, ls: seq<Lease>, clock: int, queue: string, t1: int, t2: int, t3: int)
    requires GoodJob(j) && clock <= t1 <= t2 <= t3 && GoodHistory(j, ls, clock)
    ensures var k := Recovered(j, queue, t1, t2, t3); GoodJob(k) && GoodHistory(k, ls, t3)
  {
  }

  /** A claim starts after every earlier lease of the job is over. */
  lemma ClaimedHistory(j: Job, ls: seq<Lease>, queue: string, lease: int, t3: int, t4: int)
    requires GoodJob(j) && t3 <= t4 && GoodHistory(j, ls, t3) && Claimable(j, queue, t4) && 1 <= lease
    ensures var k := ClaimJob(j, lease, t4); GoodHistory(k, ls + [Lease(t4, k.visibleAt)], t4)
  {
  }

  /** The holder's ack, nack or renewal moves the end of the latest lease. */
  lemma SetEndHistory(j: Job, k: Job, ls: seq<Lease>, end: int, clock: int, now: int)
    requires GoodJob(j) && j.status.Running? && GoodHistory(j, ls, clock) && clock <= now <= end
    requires k.generation == j.generation && LeaseTracks(k, Lease(now, end), now)
    ensures GoodHistory(k, SetEnd(ls, end), now)
  {
  }

  lemma DequeueHistory(s: System, op: Op, id: nat)
    requires Good(s) && op.DequeueOp? && ClockKept(op, s.clock) && id in s.store.jobs && id in Apply(s.store, op).0.jobs
    ensures GoodHistory(Apply(s.store, op).0.jobs[id], HistoryAfter(s, op, Apply(s.store, op), id), op.t4)
  {
    var j, ls := s.store.jobs[id], History(s, id);
    assert GoodHistory(j, ls, s.clock);
    if 1 <= op.n <= 1000 && op.queue in s.store.queues {
      DequeuePointwise(s.store, op, id);
      RecoveredHistory(j, ls, s.clock, op.queue, op.t1, op.t2, op.t3);
      if id in Claimed(s.store, op) {
        ClaimedHistory(Recovered(j, op.queue, op.t1, op.t2, op.t3), ls, op.queue,
                       s.store.queues[op.queue].leaseSeconds, op.t3, op.t4);
      }
    }
  }

  predicate WorkerOp(op: Op) {
    op.AckOp? || op.NackOp? || op.RenewOp?
  }

  /** The fence: an ack, nack or renewal takes effect exactly when the named delivery holds the job's lease at
      every clock reading of the operation; otherwise nothing changes. It never touches another job, and an
      accepted ack or nack ends the delivery. */
  ghost predicate Fenced(s: Store, op: Op, r: (Store, Reply))
    requires WorkerOp(op)
  {
    && (Accepted(r.1) <==> op.queue in s.queues && Owns(s.jobs, op.queue, op.id, op.generation, ClockAfter(op, 0)))
    && (!Accepted(r.1) ==> r.0 == s)
    && r.0.jobs.Keys == s.jobs.Keys && r.0.queues == s.queues && r.0.nextId == s.nextId
    && (forall id | id in s.jobs && id != op.id :: r.0.jobs[id] == s.jobs[id])
    && (Accepted(r.1) ==>
          var j, k := s.jobs[op.id], r.0.jobs[op.id];
          && k.queue == j.queue && k.payload == j.payload && k.generation == j.generation
          && k.attempts == j.attempts && k.maxAttempts == j.maxAttempts
          && (op.AckOp? ==> k.status.Done?)
          && (op.NackOp? ==> k.status == if op.requeue && j.attempts < j.maxAttempts then Pending else Dead)
          && (op.RenewOp? ==> k == j.(visibleAt := op.t + Seconds(s.queues[op.queue].leaseSeconds))))
  }

  lemma WorkerEffect(s: Store, op: Op)
    requires WorkerOp(op) && (op.NackOp? ==> op.t1 <= op.t2)
    ensures Fenced(s, op, Apply(s, op))
  {
    match op
    case AckOp(_, _, _, _) =>
    case NackOp(_, _, _, _, _, _, _) =>
    case RenewOp(_, _, _, _) =>
  }

  lemma WorkerHistory(s: System, op: Op, r: (Store, Reply), id: nat)
    requires Good(s) && WorkerOp(op) && ClockKept(op, s.clock) && id in s.store.jobs && Fenced(s.store, op, r)
    ensures GoodHistory(r.0.jobs[id], HistoryAfter(s, op, r, id), ClockAfter(op, s.clock))
  {
    var j, ls, now := s.store.jobs[id], History(s, id), ClockAfter(op, s.clock);
    assert GoodHistory(j, ls, s.clock) && GoodJob(j);
    if op.id == id && Accepted(r.1) {
      SetEndHistory(j, r.0.jobs[id], ls, if op.RenewOp? then r.0.jobs[id].visibleAt else now, s.clock, now);
    }
  }

  lemma HistoryKept(s: System, op: Op, id: nat)
    requires Good(s) && ClockKept(op, s.clock) && id in s.store.jobs && id in Apply(s.store, op).0.jobs
    ensures GoodHistory(Apply(s.store, op).0.jobs[id], HistoryAfter(s, op, Apply(s.store, op), id), ClockAfter(op, s.clock))
  {
    assert GoodHistory(s.store.jobs[id], History(s, id), s.clock);
    if op.DequeueOp? {
      DequeueHistory(s, op, id);
    } else if WorkerOp(op) {
      WorkerEffect(s.store, op);
      WorkerHistory(s, op, Apply(s.store, op), id);
    }
  }

  /** A job that an operation adds has not been delivered. */
  lemma AddedHistory(s: System, op: Op, id: nat)
    requires Good(s) && id !in s.store.jobs && id in Apply(s.store, op).0.jobs
    ensures GoodHistory(Apply(s.store, op).0.jobs[id], HistoryAfter(s, op, Apply(s.store, op), id), ClockAfter(op, s.clock))
  {
    if op.DequeueOp? {
      DequeueKeepsStore(s.store, op);
    } else if WorkerOp(op) {
      WorkerKeys(s.store, op);
    }
  }

  lemma WorkerKeys(s: Store, op: Op)
    requires WorkerOp(op)
    ensures Apply(s, op).0.jobs.Keys == s.jobs.Keys
  {
    match op
    case AckOp(_, _, _, _) =>
    case NackOp(_, _, _, _, _, _, _) =>
    case RenewOp(_, _, _, _) =>
  }

  /** Every operation keeps the invariant. */
  lemma StepKeepsGood(s: System, op: Op)
    requires Good(s) && ClockKept(op, s.clock)
    ensures Good(Step(s, op)) && s.clock <= Step(s, op).clock
  {
    StoreKept(s.store, op, s.clock);
    forall id | id in Apply(s.store, op).0.jobs
      ensures GoodHistory(Apply(s.store, op).0.jobs[id], HistoryAfter(s, op, Apply(s.store, op), id), ClockAfter(op, s.clock))
    {
      if id in s.store.jobs { HistoryKept(s, op, id); } else { AddedHistory(s, op, id); }
    }
    GoodFromParts(s, op, Apply(s.store, op), Step(s, op));
  }

  lemma GoodFromParts(s: System, op: Op, r: (Store, Reply), s': System)
    requires ClockKept(op, s.clock) && GoodStore(r.0)
    requires s'.store == r.0 && s'.clock == ClockAfter(op, s.clock)
    requires s'.leases == map id | id in r.0.jobs :: HistoryAfter(s, op, r, id)
    requires forall id | id in r.0.jobs :: GoodHistory(r.0.jobs[id], HistoryAfter(s, op, r, id), ClockAfter(op, s.clock))
    ensures Good(s') && s.clock <= s'.clock
  {
  }

  lemma {:induction false} RunIsGood(states: seq<System>, ops: seq<Op>, i: nat)
    requires Run(states, ops) && i < |states|
    ensures Good(states[i])
  {
    if i > 0 {
      RunIsGood(states, ops, i - 1);
      StepKeepsGood(states[i - 1], ops[i - 1]);
    }
  }
}

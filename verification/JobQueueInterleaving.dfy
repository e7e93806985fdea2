/** Enqueues take no lock, so they can come between the statements of a dequeue or a nack. */
module JobQueueInterleaving {
  import opened Collections
  import opened JobQueue
  import opened JobQueueRuns

  predicate Enqueues(es: seq<Op>) {
    forall i | 0 <= i < |es| :: es[i].EnqueueOp?
  }

  /** The store and the replies after a list of enqueues. */
  function EnqueueAll(s: Store, es: seq<Op>): (Store, seq<Reply>)
    decreases |es|
  {
    if es == [] then (s, [])
    else
      var r := Apply(s, es[0]);
      var (t, replies) := EnqueueAll(r.0, es[1..]);
      (t, [r.1] + replies)
  }

  // ---------------------------------------------------------------- the operations, statement by statement

  datatype Sweep = Exhausted | Expired | Retried

  /** One of the three statements of a recovery. */
  function SweepBy(w: Sweep, jobs: Jobs, queue: string, now: int): Jobs {
    match w
    case Exhausted => SweepPending(jobs, queue, now)
    case Expired => SweepRunning(jobs, queue, now)
    case Retried => SweepExpired(jobs, queue, now)
  }

  function SweepStore(w: Sweep, s: Store, queue: string, now: int): Store {
    s.(jobs := SweepBy(w, s.jobs, queue, now))
  }

  /** The claim statement, for a dequeue that has found its queue. */
  function ClaimStore(s: Store, c: Config, op: Op): (Store, Reply)
    requires op.DequeueOp? && 1 <= op.n
  {
    var ids := Lowest(ClaimableIds(s.jobs, op.queue, op.t4), op.n);
    LowestCorrect(ClaimableIds(s.jobs, op.queue, op.t4), op.n);
    var claimed := Claim(s.jobs, set i | 0 <= i < |ids| :: ids[i], c.leaseSeconds, op.t4);
    (s.(jobs := claimed), Rows(seq(|ids|, i requires 0 <= i < |ids| => Row(ids[i], claimed[ids[i]]))))
  }

  /** A dequeue whose four statements have the enqueues `e1`, `e2` and `e3` between them. */
  function InterleavedDequeue(s: Store, op: Op, e1: seq<Op>, e2: seq<Op>, e3: seq<Op>): (Store, Reply, seq<Reply>)
    requires op.DequeueOp? && 1 <= op.n <= 1000 && op.queue in s.queues
  {
    var (s1, r1) := EnqueueAll(SweepStore(Exhausted, s, op.queue, op.t1), e1);
    var (s2, r2) := EnqueueAll(SweepStore(Expired, s1, op.queue, op.t2), e2);
    var (s3, r3) := EnqueueAll(SweepStore(Retried, s2, op.queue, op.t3), e3);
    var (t, rows) := ClaimStore(s3, s.queues[op.queue], op);
    (t, rows, r1 + r2 + r3)
  }

  /** A nack with enqueues between its read and its update. What is to become of the job is decided by the read. */
  function InterleavedNack(s: Store, op: Op, es: seq<Op>): (Store, Reply, seq<Reply>)
    requires op.NackOp? && op.queue in s.queues
  {
    var (t, replies) := EnqueueAll(s, es);
    if !Owns(s.jobs, op.queue, op.id, op.generation, op.t1) then (t, Nacked("stale"), replies)
    else
      var read := s.jobs[op.id];
      var dead := !op.requeue || read.attempts >= read.maxAttempts;
      var delay := Backoff(s.queues[op.queue].backoffBase, read.attempts);
      if !Owns(t.jobs, op.queue, op.id, op.generation, op.t2) then (t, Nacked("stale"), replies)
      else
        var j := t.jobs[op.id].(lastError := Some(if op.error == "" then "nack" else op.error));
        if dead then (t.(jobs := t.jobs[op.id := j.(status := Dead, visibleAt := op.t2)]), Nacked("dead"), replies)
        else (t.(jobs := t.jobs[op.id := j.(status := Pending, visibleAt := op.t2 + Seconds(delay))]), Nacked("pending"), replies)
  }

  // ---------------------------------------------------------------- enqueues move to the front

  /** Ids are handed out in order. */
  predicate FreshIds(s: Store) {
    forall id | id in s.jobs :: id < s.nextId
  }

  /** A job that has just been inserted is left alone by every sweep. */
  lemma SweepSparesNew(w: Sweep, jobs: Jobs, id: nat, j: Job, queue: string, now: int)
    requires id !in jobs && j.status.Pending? && j.attempts < j.maxAttempts
    ensures SweepBy(w, jobs[id := j], queue, now) == SweepBy(w, jobs, queue, now)[id := j]
  {
  }

  lemma EnqueueAfterSweep(w: Sweep, s: Store, e: Op, queue: string, now: int)
    requires FreshIds(s) && e.EnqueueOp?
    ensures Apply(SweepStore(w, s, queue, now), e) == (SweepStore(w, Apply(s, e).0, queue, now), Apply(s, e).1)
    ensures FreshIds(Apply(s, e).0)
  {
    var r := Apply(s, e);
    if r.1.Enqueued? {
      SweepSparesNew(w, s.jobs, s.nextId, r.0.jobs[s.nextId], queue, now);
    }
  }

  lemma {:induction false} EnqueuesAfterSweep(w: Sweep, s: Store, es: seq<Op>, queue: string, now: int)
    requires FreshIds(s) && Enqueues(es)
    ensures var (t, replies) := EnqueueAll(s, es);
      && FreshIds(t) && t.queues == s.queues
      && EnqueueAll(SweepStore(w, s, queue, now), es) == (SweepStore(w, t, queue, now), replies)
    decreases |es|
  {
    if es != [] {
      EnqueueAfterSweep(w, s, es[0], queue, now);
      EnqueuesAfterSweep(w, Apply(s, es[0]).0, es[1..], queue, now);
    }
  }

  lemma {:induction false} EnqueueAllAppend(s: Store, a: seq<Op>, b: seq<Op>)
    ensures var (t, ra) := EnqueueAll(s, a); var (u, rb) := EnqueueAll(t, b);
      EnqueueAll(s, a + b) == (u, ra + rb)
    decreases |a|
  {
    if a == [] {
      assert a + b == b;
      var (u, rb) := EnqueueAll(s, b);
      assert [] + rb == rb;
    } else {
      assert (a + b)[1..] == a[1..] + b;
      EnqueueAllAppend(Apply(s, a[0]).0, a[1..], b);
      var (t, ra) := EnqueueAll(Apply(s, a[0]).0, a[1..]);
      Assoc([Apply(s, a[0]).1], ra, EnqueueAll(t, b).1);
    }
  }

  /** A dequeue with enqueues between its statements is those enqueues followed by the dequeue: the same table, the same
      rows, and the same ids for the callers that enqueued. */
  lemma DequeueAbsorbsEnqueues(s: Store, op: Op, e1: seq<Op>, e2: seq<Op>, e3: seq<Op>)
    requires op.DequeueOp? && 1 <= op.n <= 1000 && op.queue in s.queues && FreshIds(s)
    requires Enqueues(e1) && Enqueues(e2) && Enqueues(e3)
    ensures var (t, replies) := EnqueueAll(s, (e1 + e2) + e3);
      InterleavedDequeue(s, op, e1, e2, e3) == (Apply(t, op).0, Apply(t, op).1, replies)
  {
    var q := op.queue;
    EnqueuesAfterSweep(Exhausted, s, e1, q, op.t1);
    var (a, ra) := EnqueueAll(s, e1);
    var a1 := SweepStore(Exhausted, a, q, op.t1);
    EnqueuesAfterSweep(Expired, a1, e2, q, op.t2);
    EnqueuesAfterSweep(Exhausted, a, e2, q, op.t1);
    EnqueueAllAppend(s, e1, e2);
    var (b, rb) := EnqueueAll(a, e2);
    var b1 := SweepStore(Expired, SweepStore(Exhausted, b, q, op.t1), q, op.t2);
    EnqueuesAfterSweep(Retried, b1, e3, q, op.t3);
    EnqueuesAfterSweep(Expired, SweepStore(Exhausted, b, q, op.t1), e3, q, op.t2);
    EnqueuesAfterSweep(Exhausted, b, e3, q, op.t1);
    EnqueueAllAppend(s, e1 + e2, e3);
    var (c, rc) := EnqueueAll(b, e3);
    RecoverIsThreeSweeps(c.jobs, q, op.t1, op.t2, op.t3);
  }

  /** A nack likewise. */
  lemma NackAbsorbsEnqueues(s: Store, op: Op, es: seq<Op>)
    requires op.NackOp? && op.queue in s.queues && FreshIds(s) && Enqueues(es)
    ensures var (t, replies) := EnqueueAll(s, es);
      InterleavedNack(s, op, es) == (Apply(t, op).0, Apply(t, op).1, replies)
  {
    EnqueuesKeepJobs(s, es, op.id);
  }

  /** Enqueues change no job that is there, and those they add are pending. */
  lemma {:induction false} EnqueuesKeepJobs(s: Store, es: seq<Op>, id: nat)
    requires FreshIds(s) && Enqueues(es)
    ensures var t := EnqueueAll(s, es).0;
      && t.queues == s.queues
      && (id in s.jobs ==> id in t.jobs && t.jobs[id] == s.jobs[id])
      && (id !in s.jobs && id in t.jobs ==> t.jobs[id].status.Pending?)
    decreases |es|
  {
    if es != [] {
      var next := Apply(s, es[0]).0;
      EnqueuesKeepJobs(next, es[1..], id);
    }
  }

  // ---------------------------------------------------------------- so it is a run

  lemma {:induction false} RunEnqueues(states: seq<System>, ops: seq<Op>, es: seq<Op>) returns (more: seq<System>)
    requires Run(states, ops) && Enqueues(es)
    ensures Run(more, ops + es) && more[..|states|] == states
    ensures more[|more| - 1].store == EnqueueAll(states[|ops|].store, es).0 && more[|more| - 1].clock == states[|ops|].clock
    decreases |es|
  {
    if es == [] {
      assert ops + es == ops;
      more := states;
    } else {
      var longer := states + [Step(states[|ops|], es[0])];
      assert Run(longer, ops + [es[0]]);
      more := RunEnqueues(longer, ops + [es[0]], es[1..]);
      assert (ops + [es[0]]) + es[1..] == ops + es;
      assert more[..|states|] == longer[..|states|] == states;
    }
  }

  /** Whatever enqueues come between the statements of a dequeue or a nack, the outcome is that of a run: all that is
      proved of runs holds of it. */
  lemma InterleavingIsARun(states: seq<System>, ops: seq<Op>, op: Op, e1: seq<Op>, e2: seq<Op>, e3: seq<Op>)
    returns (more: seq<System>)
    requires Run(states, ops) && ClockKept(op, states[|ops|].clock) && op.queue in states[|ops|].store.queues
    requires Enqueues(e1) && Enqueues(e2) && Enqueues(e3)
    requires (op.DequeueOp? && 1 <= op.n <= 1000) || (op.NackOp? && e2 == [] && e3 == [])
    ensures Run(more, ops + ((e1 + e2) + e3) + [op]) && more[..|states|] == states
    ensures var s := states[|ops|].store; var before, last := more[|more| - 2].store, more[|more| - 1].store;
      && FreshIds(s)
      && (op.DequeueOp? ==> InterleavedDequeue(s, op, e1, e2, e3) == (last, Apply(before, op).1, EnqueueAll(s, (e1 + e2) + e3).1))
      && (op.NackOp? ==> InterleavedNack(s, op, e1) == (last, Apply(before, op).1, EnqueueAll(s, e1).1))
  {
    var s, es := states[|ops|].store, (e1 + e2) + e3;
    RunIsGood(states, ops, |ops|);
    var mid := RunEnqueues(states, ops, es);
    more := mid + [Step(mid[|mid| - 1], op)];
    assert Run(more, ops + es + [op]);
    assert more[..|states|] == mid[..|states|];
    if op.DequeueOp? {
      DequeueAbsorbsEnqueues(s, op, e1, e2, e3);
    } else {
      assert es == e1;
      NackAbsorbsEnqueues(s, op, e1);
    }
  }
}

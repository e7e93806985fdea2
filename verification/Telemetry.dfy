/** The table telemetry sink: requests enqueue records, one worker writes them in batches, and callers can
    wait for a flush. Each step is one critical section of the sink's mutex. */
module Telemetry {

  type Record = string

  const Capacity: nat := 10000

  datatype Worker = Starting | Top | Holding | Handled | Exited

  /** What became of a record that the worker took: in the table, or on stderr. */
  datatype Fate = Exported(record: Record) | Printed(record: Record)

  /** The sink's fields, the worker's position and its batch, and history: every record ever queued, every
      record the worker has dealt with, the callers waiting in `FlushPending` with how many records were queued
      when they called, and how many were queued when the sink was told to stop. */
  datatype Sink = Sink(
    pending: seq<Record>, stopping: bool, flushRequested: bool, flushing: bool, failed: bool, overflow: nat,
    worker: Worker, batch: seq<Record>, queued: seq<Record>, fates: seq<Fate>, exportedTotal: nat,
    waiting: map<nat, nat>, stopMark: nat)

  const NewSink := Sink([], false, false, false, false, 0, Starting, [], [], [], 0, map[], 0)

  function Records(fates: seq<Fate>): seq<Record> {
    seq(|fates|, i requires 0 <= i < |fates| => fates[i].record)
  }

  function Mark(batch: seq<Record>, exported: bool): seq<Fate> {
    seq(|batch|, i requires 0 <= i < |batch| => if exported then Exported(batch[i]) else Printed(batch[i]))
  }

  // ---------------------------------------------------------------- the critical sections

  /** `retryLater` is `now < retry_at`. A record that is not queued is printed by its own request. */
  function Enqueue(s: Sink, r: Record, retryLater: bool): Sink {
    if s.failed && retryLater then s
    else if |s.pending| >= Capacity then s.(overflow := s.overflow + 1)
    else s.(pending := s.pending + [r], queued := s.queued + [r])
  }

  /** Nothing to wait for, or nobody to wait for. */
  predicate FlushReturnsAtOnce(s: Sink) {
    s.stopping || (s.pending == [] && !s.flushing)
  }

  function FlushBegin(s: Sink, caller: nat): Sink {
    if FlushReturnsAtOnce(s) then s else s.(flushRequested := true, waiting := s.waiting[caller := |s.queued|])
  }

  predicate FlushCanReturn(s: Sink) {
    !s.flushRequested && !s.flushing
  }

  function FlushReturn(s: Sink, caller: nat): Sink {
    s.(waiting := s.waiting - {caller})
  }

  /** The worker splits the table's name before its first batch; a name that cannot be split counts as a failure. */
  function Start(s: Sink, badName: bool): Sink {
    s.(worker := Top, failed := s.failed || badName)
  }

  /** The worker wakes, by notification or after a second, and takes everything pending. */
  function Take(s: Sink): Sink {
    if s.pending != [] then s.(batch := s.pending, pending := [], flushing := true, worker := Holding)
    else s.(flushRequested := false, worker := if s.stopping then Exited else Top)
  }

  /** How a batch is dealt with: straight to stderr while a retry is not due, into the table, or into the table
      and then to stderr because that failed. */
  datatype Delivery = Skipped | Written | WriteFailed

  function Deliver(s: Sink, d: Delivery): Sink {
    s.(worker := Handled, fates := s.fates + Mark(s.batch, d.Written?),
       exportedTotal := s.exportedTotal + (if d.Written? then |s.batch| else 0),
       failed := if d.Skipped? then s.failed else d.WriteFailed?)
  }

  function Finish(s: Sink): Sink {
    s.(worker := Top, batch := [], flushing := false,
       flushRequested := s.flushRequested && s.pending != [])
  }

  function Stop(s: Sink): Sink {
    s.(stopping := true, stopMark := if s.stopping then s.stopMark else |s.queued|)
  }

  // ---------------------------------------------------------------- steps and runs

  datatype Step =
    | EnqueueStep(record: Record, retryLater: bool)
    | FlushBeginStep(caller: nat)
    | FlushReturnStep(caller: nat)
    | StartStep(badName: bool)
    | TakeStep
    | DeliverStep(delivery: Delivery)
    | FinishStep
    | StopStep

  predicate Enabled(s: Sink, a: Step) {
    match a
    case FlushBeginStep(caller) => caller !in s.waiting
    case FlushReturnStep(caller) => caller in s.waiting && FlushCanReturn(s)
    case StartStep(_) => s.worker.Starting?
    case TakeStep => s.worker.Top?
    case DeliverStep(d) => s.worker.Holding? && (d.Skipped? ==> s.failed)
    case FinishStep => s.worker.Handled?
    case _ => true
  }

  function Apply(s: Sink, a: Step): Sink {
    match a
    case EnqueueStep(r, retryLater) => Enqueue(s, r, retryLater)
    case FlushBeginStep(caller) => FlushBegin(s, caller)
    case FlushReturnStep(caller) => FlushReturn(s, caller)
    case StartStep(badName) => Start(s, badName)
    case TakeStep => Take(s)
    case DeliverStep(d) => Deliver(s, d)
    case FinishStep => Finish(s)
    case StopStep => Stop(s)
  }

  ghost predicate Run(states: seq<Sink>, steps: seq<Step>) {
    && |states| == |steps| + 1 && states[0] == NewSink
    && forall i | 0 <= i < |steps| :: Enabled(states[i], steps[i]) && states[i + 1] == Apply(states[i], steps[i])
  }

  // ---------------------------------------------------------------- the invariant

  /** The batch that is in the worker's hands and not yet dealt with. */
  function InHand(s: Sink): seq<Record> {
    if s.worker.Holding? then s.batch else []
  }

  function ExportedCount(fates: seq<Fate>): nat {
    if fates == [] then 0 else ExportedCount(fates[..|fates| - 1]) + if fates[|fates| - 1].Exported? then 1 else 0
  }

  ghost predicate Good(s: Sink) {
    // every record queued is dealt with, in hand or pending, in the order of arrival
    && s.queued == Records(s.fates) + InHand(s) + s.pending
    && s.exportedTotal == ExportedCount(s.fates)
    && |s.pending| <= Capacity
    && (s.flushing <==> s.worker.Holding? || s.worker.Handled?)
    // a caller that waits has either its request still standing or its records dealt with
    && (forall c | c in s.waiting :: s.waiting[c] <= |s.queued| && (s.flushRequested || s.waiting[c] <= |s.fates|))
    && (s.stopping ==> s.stopMark <= |s.queued|)
    && (s.worker.Exited? ==> s.stopping && !s.flushRequested && s.stopMark <= |s.fates|)
  }

  lemma {:induction false} ExportedCountAppend(fates: seq<Fate>, batch: seq<Record>, exported: bool)
    ensures ExportedCount(fates + Mark(batch, exported)) == ExportedCount(fates) + if exported then |batch| else 0
    decreases |batch|
  {
    var all := fates + Mark(batch, exported);
    if batch == [] {
      assert all == fates;
    } else {
      var init := batch[..|batch| - 1];
      ExportedCountAppend(fates, init, exported);
      assert all[..|all| - 1] == fates + Mark(init, exported);
    }
  }

  lemma DeliverKeepsGood(s: Sink, d: Delivery)
    requires Good(s) && Enabled(s, DeliverStep(d))
    ensures Good(Deliver(s, d))
  {
    ExportedCountAppend(s.fates, s.batch, d.Written?);
    var t := Deliver(s, d);
    assert Records(t.fates) == Records(s.fates) + s.batch;
  }

  lemma EnqueueKeepsGood(s: Sink, r: Record, retryLater: bool)
    requires Good(s)
    ensures Good(Enqueue(s, r, retryLater))
  {
    var front := Records(s.fates) + InHand(s);
    assert front + s.pending + [r] == front + (s.pending + [r]);
  }

  lemma TakeKeepsGood(s: Sink)
    requires Good(s) && s.worker.Top?
    ensures Good(Take(s))
  {
    if s.pending == [] {
      assert s.queued == Records(s.fates);
    } else {
      assert Take(s).queued == Records(s.fates) + s.pending + [];
    }
  }

  lemma FinishKeepsGood(s: Sink)
    requires Good(s) && s.worker.Handled?
    ensures Good(Finish(s))
  {
    if s.pending == [] { assert s.queued == Records(s.fates); }
  }

  lemma StepKeepsGood(s: Sink, a: Step)
    requires Good(s) && Enabled(s, a)
    ensures Good(Apply(s, a))
  {
    match a
    case EnqueueStep(r, retryLater) => EnqueueKeepsGood(s, r, retryLater);
    case TakeStep => TakeKeepsGood(s);
    case DeliverStep(d) => DeliverKeepsGood(s, d);
    case FinishStep => FinishKeepsGood(s);
    case _ =>
  }

  lemma {:induction false} RunIsGood(states: seq<Sink>, steps: seq<Step>, i: nat)
    requires Run(states, steps) && i < |states|
    ensures Good(states[i])
  {
    if i > 0 {
      RunIsGood(states, steps, i - 1);
      StepKeepsGood(states[i - 1], steps[i - 1]);
    }
  }

  // ---------------------------------------------------------------- flush safety

  /** A caller waits from its call until it returns, and records are only ever added. */
  lemma {:induction false} WaitsSince(states: seq<Sink>, steps: seq<Step>, j: nat, i: nat, caller: nat)
    requires Run(states, steps) && j < i < |states|
    requires steps[j] == FlushBeginStep(caller) && !FlushReturnsAtOnce(states[j])
    requires forall k | j < k < i :: steps[k] != FlushReturnStep(caller)
    ensures caller in states[i].waiting && states[i].waiting[caller] == |states[j].queued|
    ensures states[j].queued <= states[i].queued
    decreases i
  {
    if i > j + 1 { WaitsSince(states, steps, j, i - 1, caller); }
  }

  /** Under every interleaving of requests, other flushers and the worker: when a caller that waited in
      `FlushPending` returns, every record queued before its call is in the table or on stderr. */
  lemma FlushIsSafe(states: seq<Sink>, steps: seq<Step>, j: nat, i: nat, caller: nat)
    requires Run(states, steps) && j < i < |steps|
    requires steps[j] == FlushBeginStep(caller) && !FlushReturnsAtOnce(states[j])
    requires forall k | j < k < i :: steps[k] != FlushReturnStep(caller)
    requires steps[i] == FlushReturnStep(caller)
    ensures states[j].queued <= Records(states[i].fates)
  {
    WaitsSince(states, steps, j, i, caller);
    RunIsGood(states, steps, i);
    var s := states[i];
    assert Records(s.fates) == s.queued[..|s.fates|];
  }

  /** A caller that does not wait has nothing to wait for, unless the sink is stopping. */
  lemma ImmediateFlushIsSafe(s: Sink)
    requires Good(s) && FlushReturnsAtOnce(s) && !s.stopping
    ensures Records(s.fates) == s.queued
  {
  }

  /** Nobody is left waiting for a worker that has gone: its last step clears the request. */
  lemma NoWaiterIsStranded(states: seq<Sink>, steps: seq<Step>, i: nat)
    requires Run(states, steps) && i < |states| && states[i].worker.Exited?
    ensures FlushCanReturn(states[i])
  {
    RunIsGood(states, steps, i);
  }

  /** The worker's next step, with `d` for how a batch in hand turns out. */
  function WorkerStep(s: Sink, d: Delivery): Sink {
    match s.worker
    case Starting => Start(s, d.WriteFailed?)
    case Top => Take(s)
    case Holding => Deliver(s, d)
    case Handled => Finish(s)
    case Exited => s
  }

  function WorkerSteps(s: Sink, ds: seq<Delivery>): Sink
    decreases |ds|
  {
    if ds == [] then s else WorkerSteps(WorkerStep(s, ds[0]), ds[1..])
  }

  /** Steps that let every waiting caller return, if nothing arrives. */
  function StepsToReturn(s: Sink): nat {
    match s.worker
    case Starting => if s.pending == [] then 2 else 4
    case Top => if s.pending == [] then 1 else 3
    case Holding => if s.pending == [] then 2 else 5
    case Handled => if s.pending == [] then 1 else 4
    case Exited => 0
  }

  lemma {:induction false} StepsSuffice(s: Sink, ds: seq<Delivery>)
    requires (s.flushing <==> s.worker.Holding? || s.worker.Handled?) && (s.worker.Exited? ==> !s.flushRequested)
    requires |ds| == StepsToReturn(s)
    ensures FlushCanReturn(WorkerSteps(s, ds))
    decreases |ds|
  {
    if |ds| > 1 {
      StepsSuffice(WorkerStep(s, ds[0]), ds[1..]);
    } else if |ds| == 1 {
      assert WorkerSteps(s, ds) == WorkerSteps(WorkerStep(s, ds[0]), []);
    }
  }

  /** Whatever the writes do, if no record arrives then within five steps of the worker every waiting caller can
      return. */
  lemma FlushCompletes(s: Sink, ds: seq<Delivery>)
    requires Good(s) && |ds| == 5
    ensures exists n :: 0 <= n <= 5 && FlushCanReturn(WorkerSteps(s, ds[..n]))
  {
    StepsSuffice(s, ds[..StepsToReturn(s)]);
  }

  /** The condition is needed: a record that arrives while a batch is in hand keeps the request standing, and every
      caller waiting, when that batch is done. */
  lemma ArrivalProlongsFlush(s: Sink, r: Record, d: Delivery)
    requires s.worker.Holding? && s.flushRequested && |s.pending| < Capacity
    ensures !FlushCanReturn(Finish(Deliver(Enqueue(s, r, false), d)))
  {
  }

  // ---------------------------------------------------------------- conservation and shutdown

  /** In all states: the records queued are the exported, the printed by the worker, the batch in hand and the
      pending ones, in order; and no more than 10000 are pending. */
  lemma RecordsConserved(states: seq<Sink>, steps: seq<Step>, i: nat)
    requires Run(states, steps) && i < |states|
    ensures var s := states[i];
      && s.queued == Records(s.fates) + InHand(s) + s.pending
      && s.exportedTotal == ExportedCount(s.fates) <= |s.fates|
      && |s.pending| <= 10000
  {
    RunIsGood(states, steps, i);
    ExportedAtMostAll(states[i].fates);
  }

  lemma {:induction false} ExportedAtMostAll(fates: seq<Fate>)
    ensures ExportedCount(fates) <= |fates|
    decreases |fates|
  {
    if fates != [] { ExportedAtMostAll(fates[..|fates| - 1]); }
  }

  /** When the worker is gone, everything queued before the sink was told to stop has been dealt with; and what
      it has dealt with never changes again, so what was queued after it left stays pending. */
  lemma ShutdownLosesNothing(states: seq<Sink>, steps: seq<Step>, j: nat, i: nat)
    requires Run(states, steps) && j < i < |states|
    requires steps[j] == StopStep && !states[j].stopping && states[i].worker.Exited?
    ensures states[j].queued <= Records(states[i].fates)
  {
    StopMarkKept(states, steps, j, i);
    RunIsGood(states, steps, i);
    var s := states[i];
    assert Records(s.fates) == s.queued[..|s.fates|];
  }

  lemma {:induction false} StopMarkKept(states: seq<Sink>, steps: seq<Step>, j: nat, i: nat)
    requires Run(states, steps) && j < i < |states| && steps[j] == StopStep && !states[j].stopping
    ensures states[i].stopping && states[i].stopMark == |states[j].queued| && states[j].queued <= states[i].queued
    decreases i
  {
    if i > j + 1 { StopMarkKept(states, steps, j, i - 1); }
  }

  lemma {:induction false} ExitedForever(states: seq<Sink>, steps: seq<Step>, i: nat, k: nat)
    requires Run(states, steps) && i <= k < |states| && states[i].worker.Exited?
    ensures states[k].worker.Exited? && states[k].fates == states[i].fates
    decreases k
  {
    if i < k { ExitedForever(states, steps, i, k - 1); }
  }

  /** Requests and the stop are never held up, nor is the worker until it leaves. */
  lemma NeverHeldUp(s: Sink, r: Record, retryLater: bool, d: Delivery)
    ensures Enabled(s, EnqueueStep(r, retryLater)) && Enabled(s, StopStep)
    ensures s.worker.Starting? ==> Enabled(s, StartStep(false)) && Enabled(s, StartStep(true))
    ensures s.worker.Top? ==> Enabled(s, TakeStep)
    ensures s.worker.Holding? && (s.failed || !d.Skipped?) ==> Enabled(s, DeliverStep(d))
    ensures s.worker.Handled? ==> Enabled(s, FinishStep)
  {
  }

  // ---------------------------------------------------------------- who is queued

  /** A record is queued exactly when the sink has not failed, or a retry is due, and fewer than 10000 are pending. It then
      stands last; otherwise nothing changes but the overflow count, and that only when the queue is full. */
  lemma QueuedIff(s: Sink, r: Record, retryLater: bool)
    ensures var t := Enqueue(s, r, retryLater); var queue := !(s.failed && retryLater) && |s.pending| < 10000;
      && (queue ==> t.pending == s.pending + [r] && t.queued == s.queued + [r] && t.overflow == s.overflow)
      && (!queue ==> t.pending == s.pending && t.queued == s.queued)
      && (!queue ==> t.overflow == s.overflow + if s.failed && retryLater then 0 else 1)
      && t.(pending := s.pending, queued := s.queued, overflow := s.overflow) == s
  {
  }

  /** A record is printed for overflow only if 10000 were pending at some time. */
  lemma {:induction false} OverflowNeedsFullQueue(states: seq<Sink>, steps: seq<Step>, i: nat)
    requires Run(states, steps) && i < |states| && states[i].overflow > 0
    ensures exists j | 0 <= j < i :: |states[j].pending| >= 10000
  {
    if i > 0 {
      var s, t := states[i - 1], states[i];
      if s.overflow > 0 {
        OverflowNeedsFullQueue(states, steps, i - 1);
      } else {
        assert |s.pending| >= 10000;
      }
    }
  }

  /** Without failures and overflow every record that arrives is queued. */
  lemma {:induction false} HealthySinkQueuesAll(states: seq<Sink>, steps: seq<Step>, i: nat)
    requires Run(states, steps) && i < |states|
    requires forall j | 0 <= j <= i :: !states[j].failed && |states[j].pending| < 10000
    ensures states[i].queued == Arrived(steps[..i])
  {
    if i > 0 {
      HealthySinkQueuesAll(states, steps, i - 1);
      assert steps[..i][..i - 1] == steps[..i - 1];
    }
  }

  /** The records of the requests among some steps, in order. */
  function Arrived(steps: seq<Step>): seq<Record> {
    if steps == [] then []
    else
      var before, last := Arrived(steps[..|steps| - 1]), steps[|steps| - 1];
      if last.EnqueueStep? then before + [last.record] else before
  }

  // ---------------------------------------------------------------- the sink object

  class TableSink {
    var pending: seq<Record>
    var stopping: bool
    var flushRequested: bool
    var flushing: bool
    var failed: bool
    var overflow: nat
    var worker: Worker
    var batch: seq<Record>
    var exportedTotal: nat
    ghost var queued: seq<Record>
    ghost var fates: seq<Fate>
    ghost var waiting: map<nat, nat>
    ghost var stopMark: nat

    ghost function View(): Sink
      reads this
    {
      Sink(pending, stopping, flushRequested, flushing, failed, overflow, worker, batch, queued, fates, exportedTotal,
           waiting, stopMark)
    }

    constructor ()
      ensures View() == NewSink
    {
      pending, stopping, flushRequested, flushing, failed, overflow := [], false, false, false, false, 0;
      worker, batch, exportedTotal := Starting, [], 0;
      queued, fates, waiting, stopMark := [], [], map[], 0;
    }

    /** True when the request has to print its record itself. */
    method EnqueueRecord(r: Record, retryLater: bool) returns (print_: bool)
      modifies this`pending, this`overflow, this`queued
      ensures View() == Enqueue(old(View()), r, retryLater)
      ensures print_ <==> (old(failed) && retryLater) || |old(pending)| >= 10000
      ensures !print_ ==> pending == old(pending) + [r] && queued == old(queued) + [r] && overflow == old(overflow)
      ensures print_ ==> pending == old(pending) && queued == old(queued)
      ensures print_ ==> overflow == old(overflow) + if old(failed) && retryLater then 0 else 1
    {
      if failed && retryLater { return true; }
      if |pending| >= Capacity {
        overflow := overflow + 1;
        return true;
      }
      pending, queued := pending + [r], queued + [r];
      assert queued[|queued| - 1] == r && |queued| == |old(queued)| + 1;
      return false;
    }

    method RequestFlush(ghost caller: nat) returns (wait: bool)
      modifies this`flushRequested, this`waiting
      ensures View() == FlushBegin(old(View()), caller) && wait == !FlushReturnsAtOnce(old(View()))
      ensures wait <==> !stopping && (pending != [] || flushing)
      ensures flushRequested <==> old(flushRequested) || wait
    {
      if stopping || (pending == [] && !flushing) { return false; }
      flushRequested, waiting := true, waiting[caller := |queued|];
      return true;
    }

    method BeginWork(badName: bool)
      requires worker.Starting?
      modifies this
      ensures View() == Start(old(View()), badName)
      ensures worker.Top? && (failed <==> old(failed) || badName) && pending == old(pending)
    {
      if badName { failed := true; }
      worker := Top;
    }

    method TakeBatch()
      requires worker.Top?
      modifies this
      ensures View() == Take(old(View()))
      ensures pending == [] && failed == old(failed) && stopping == old(stopping)
      ensures old(pending) != [] ==>
        batch == old(pending) && flushing && worker.Holding? && flushRequested == old(flushRequested)
      ensures old(pending) == [] ==>
        batch == old(batch) && !flushRequested && flushing == old(flushing) && worker == if stopping then Exited else Top
    {
      var taken := pending;
      pending := [];
      if taken == [] && flushRequested { flushRequested := false; }
      if taken == [] && stopping {
        worker := Exited;
        return;
      }
      if taken != [] { flushing, batch, worker := true, taken, Holding; }
    }

    /** `retryLater` is read under the mutex; `wrote` is how the append went if it was tried. */
    method WriteBatch(retryLater: bool, wrote: bool)
      requires worker.Holding?
      modifies this
      ensures View() == Deliver(old(View()), if old(failed) && retryLater then Skipped else if wrote then Written else WriteFailed)
      ensures worker.Handled? && pending == old(pending) && flushing == old(flushing)
      ensures var skip := old(failed) && retryLater;
        && |fates| == |old(fates)| + |old(batch)| && old(fates) <= fates
        && (forall i | 0 <= i < |old(batch)| ::
              fates[|old(fates)| + i] == if wrote && !skip then Exported(old(batch)[i]) else Printed(old(batch)[i]))
        && exportedTotal == old(exportedTotal) + (if wrote && !skip then |old(batch)| else 0)
        && (failed <==> skip || !wrote)
    {
      var useStderr := failed && retryLater;
      if !useStderr {
        if wrote {
          exportedTotal := exportedTotal + |batch|;
          if failed { failed := false; }
        } else {
          failed := true;
          useStderr := true;
        }
      }
      fates := fates + Mark(batch, !useStderr);
      worker := Handled;
    }

    method FinishBatch()
      requires worker.Handled?
      modifies this
      ensures View() == Finish(old(View()))
      ensures worker.Top? && batch == [] && !flushing && pending == old(pending)
      ensures flushRequested <==> old(flushRequested) && pending != []
    {
      flushing := false;
      if flushRequested && pending == [] { flushRequested := false; }
      worker, batch := Top, [];
    }

    method RequestStop()
      modifies this`stopping, this`stopMark
      ensures View() == Stop(old(View()))
      ensures stopping && stopMark == if old(stopping) then old(stopMark) else |queued|
    {
      if !stopping { stopMark := |queued|; }
      stopping := true;
    }
  }
}

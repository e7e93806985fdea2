/** One quackapi_selfdispatch call and the native tasks it starts, as atomic steps. */
module SelfDispatch {
  import opened Collections

  /** The answer to one row: the outcome of its own SQL, or the timeout that stands in for it. */
  datatype Receipt = Own(outcome: string) | TimedOut

  /** `row` is the operation a scheduler task holds between two of its steps. */
  datatype Task = Task(began: bool, settled: bool, row: Option<nat>)

  const FreshTask := Task(false, false, None)

  datatype Phase =
    | Reserving(seen: int)
    | Submitting
    | Waiting
    | Finishing(next: nat)
    | Inline(next: nat)
    | Collecting
    | Returned(result: seq<Option<Receipt>>)
    | Thrown

  /** `answers` is, per row, what running its SQL gives: a row runs once at most, so there is one answer, whenever and
      wherever that is. `unsubmitted` are the reserved units that are not yet a task. `started` counts, per row, how often its
      SQL was begun. */
  datatype Call = Call(
    skip: seq<bool>, answers: seq<string>, started: seq<nat>, done: seq<bool>, out: seq<Receipt>, cursor: nat, cancelled: bool,
    tasks: seq<Task>, tasksDone: nat, wanted: nat, unsubmitted: nat, phase: Phase)

  const MaxFanout: nat := 32

  /** What the scheduler, the workers and the caller can do to a call. */
  datatype Action =
    | Load                                        // read the counter
    | SwapFails                                   // the compare-exchange fails and reloads
    | Swap                                        // the compare-exchange goes through
    | RunInline                                   // nested, single-threaded or nothing to do: no reservation
    | SetupFails                                  // the executor cannot be made
    | Submit                                      // a task is made and scheduled
    | MakeFails                                   // a task cannot be made
    | ScheduleFails                               // a task is made, refused by the scheduler and retired
    | EndSubmit
    | TaskStep(task: nat, finishes: bool)         // a task runs its row one step further, or to its end
    | Retire(task: nat)                           // a task is cancelled or destroyed
    | AllDone                                     // the caller sees every task settled
    | DeadlinePassed                              // the caller stops waiting
    | Interrupted                                 // the caller stops waiting and throws
    | NextRow                                     // the caller handles its next row
    | EndRows
    | Collect

  // ---------------------------------------------------------------- tasks

  /** The first row at or after `i` that is not NULL, or the row count. */
  function FirstActive(skip: seq<bool>, i: nat): (k: nat)
    requires i <= |skip|
    ensures i <= k <= |skip|
    decreases |skip| - i
  {
    if i < |skip| && skip[i] then FirstActive(skip, i + 1) else i
  }

  function SetTask(c: Call, k: nat, t: Task): Call
    requires k < |c.tasks|
  {
    c.(tasks := c.tasks[k := t])
  }

  /** Settling gives the unit back and counts its holder, once. */
  function Settle(c: Call, k: nat): (Call, int)
    requires k < |c.tasks|
  {
    if c.tasks[k].settled then (c, 0)
    else (SetTask(c, k, c.tasks[k].(settled := true, row := None)).(tasksDone := c.tasksDone + 1), -1)
  }

  function Answer(c: Call, row: nat): Call
    requires row < |c.done| && row < |c.out| && row < |c.answers|
  {
    c.(out := c.out[row := Own(c.answers[row])], done := c.done[row := true])
  }

  /** One `ExecuteTaskStep`: take a row if none is held, run it one step, and answer it if that was its last. */
  function StepTask(c: Call, k: nat, finishes: bool): (Call, int)
    requires Shaped(c) && k < |c.tasks|
  {
    var c1 := SetTask(c, k, c.tasks[k].(began := true));
    if c.cancelled then Settle(c1, k)
    else
      var t := c1.tasks[k];
      if t.row.Some? then
        if !finishes || t.row.value >= |c.done| then (c1, 0)
        else (Answer(SetTask(c1, k, t.(row := None)), t.row.value), 0)
      else
        var i := if c.cursor >= |c.skip| then |c.skip| else FirstActive(c.skip, c.cursor);
        if i >= |c.skip| then Settle(c1.(cursor := (if c.cursor > |c.skip| then c.cursor else |c.skip|) + 1), k)
        else
          var c2 := c1.(cursor := i + 1, started := c.started[i := c.started[i] + 1]);
          if !finishes then (SetTask(c2, k, t.(row := Some(i))), 0)
          else (Answer(c2, i), 0)
  }

  // ---------------------------------------------------------------- the call

  predicate Shaped(c: Call) {
    |c.started| == |c.done| == |c.out| == |c.answers| == |c.skip|
  }

  function Active(skip: seq<bool>): nat {
    if skip == [] then 0 else Active(skip[1..]) + if skip[0] then 0 else 1
  }

  function NewCall(skip: seq<bool>, answers: seq<string>): Call {
    var n := |skip|;
    Call(skip, answers, seq(n, i => 0), seq(n, i => false), seq(n, i => TimedOut), 0, false, [], 0,
         if Active(skip) < MaxFanout then Active(skip) else MaxFanout, 0, Reserving(0))
  }

  /** The row the caller runs itself, if it has to. */
  function RunRow(c: Call, i: nat): Call
    requires Shaped(c) && i < |c.skip|
  {
    if c.skip[i] || c.done[i] then c else Answer(c.(started := c.started[i := c.started[i] + 1]), i)
  }

  function Results(c: Call): seq<Option<Receipt>>
    requires Shaped(c)
  {
    seq(|c.skip|, i requires 0 <= i < |c.skip| =>
      if c.skip[i] then None else if c.done[i] then Some(c.out[i]) else Some(TimedOut))
  }

  /** When an action can happen. A task is retired either before it ever ran or after the call was given up. */
  predicate Enabled(c: Call, a: Action, counter: int) {
    match a
    case Load => c.phase.Reserving?
    case SwapFails => c.phase.Reserving?
    case Swap => c.phase.Reserving? && c.phase.seen == counter
    case RunInline => c.phase.Reserving?
    case SetupFails => c.phase.Submitting? && c.tasks == [] && c.unsubmitted > 0
    case Submit => c.phase.Submitting? && c.unsubmitted > 0
    case MakeFails => c.phase.Submitting? && c.unsubmitted > 0
    case ScheduleFails => c.phase.Submitting? && c.unsubmitted > 0
    case EndSubmit => c.phase.Submitting? && c.unsubmitted == 0
    case TaskStep(k, _) => k < |c.tasks| && !c.tasks[k].settled
    case Retire(k) => k < |c.tasks| && (c.tasks[k].settled || !c.tasks[k].began || c.cancelled)
    case AllDone => c.phase.Waiting? && c.tasksDone >= |c.tasks|
    case DeadlinePassed => c.phase.Waiting? && c.tasksDone < |c.tasks|
    case Interrupted =>
      (c.phase.Waiting? && c.tasksDone < |c.tasks|) || c.phase.Inline? || c.phase.Collecting?
    case NextRow => (c.phase.Finishing? || c.phase.Inline?) && c.phase.next < |c.skip|
    case EndRows => (c.phase.Finishing? || c.phase.Inline?) && c.phase.next >= |c.skip|
    case Collect => c.phase.Collecting?
  }

  /** The call after an action, and what the action adds to the shared counter of running tasks. */
  function Act(c: Call, a: Action, counter: int, cap: int): (Call, int)
    requires Shaped(c) && Enabled(c, a, counter)
  {
    match a
    case Load => (c.(phase := Reserving(counter)), 0)
    case SwapFails => (c.(phase := Reserving(counter)), 0)
    case Swap =>
      var room := cap - c.phase.seen;
      var take: int := if room <= 0 then 0 else if room < c.wanted then room else c.wanted;
      (c.(phase := Submitting, unsubmitted := take), take)
    case RunInline => (c.(phase := Submitting, unsubmitted := 0), 0)
    case SetupFails => (c.(phase := Thrown, unsubmitted := 0), 0 - c.unsubmitted)
    case Submit => (c.(tasks := c.tasks + [FreshTask], unsubmitted := c.unsubmitted - 1), 0)
    case MakeFails => (AfterSubmit(c.(unsubmitted := 0)), 0 - c.unsubmitted)
    case ScheduleFails =>
      var c1 := c.(tasks := c.tasks + [FreshTask], unsubmitted := 0);
      var r := Settle(c1, |c.tasks|);
      (AfterSubmit(r.0), r.1 - (c.unsubmitted - 1))
    case EndSubmit => (AfterSubmit(c), 0)
    case TaskStep(k, finishes) => StepTask(c, k, finishes)
    case Retire(k) => Settle(c, k)
    case AllDone => (c.(phase := if c.cancelled then Collecting else Finishing(0)), 0)
    case DeadlinePassed => (c.(cancelled := true, phase := Collecting), 0)
    case Interrupted => (c.(cancelled := c.cancelled || c.phase.Waiting?, phase := Thrown), 0)
    case NextRow =>
      var c1 := RunRow(c, c.phase.next);
      (c1.(phase := if c.phase.Inline? then Inline(c.phase.next + 1) else Finishing(c.phase.next + 1)), 0)
    case EndRows => (c.(phase := Collecting), 0)
    case Collect => (c.(phase := Returned(Results(c))), 0)
  }

  function AfterSubmit(c: Call): Call {
    c.(phase := if c.tasks == [] then Inline(0) else Waiting)
  }
}

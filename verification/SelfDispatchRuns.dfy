/** Every interleaving of callers and tasks: no row is started twice, every row of a call that returns has
    exactly one receipt at its own index, and reserved units are given back exactly once. */
module SelfDispatchRuns {
  import opened Collections
  import opened SelfDispatch

  // ---------------------------------------------------------------- one call

  function Rows(tasks: seq<Task>): set<nat> {
    set k | 0 <= k < |tasks| && tasks[k].row.Some? :: tasks[k].row.value
  }

  function Unsettled(tasks: seq<Task>): nat {
    if tasks == [] then 0 else Unsettled(tasks[1..]) + if tasks[0].settled then 0 else 1
  }

  /** Units of the shared counter that this call still holds. */
  function Outstanding(c: Call): nat {
    c.unsubmitted + Unsettled(c.tasks)
  }

  /** A row is started at most once; it is answered only after it was started, with its own outcome; a NULL row is
      never started. */
  ghost predicate GoodRow(c: Call, i: nat)
    requires Shaped(c) && i < |c.skip|
  {
    && c.started[i] <= 1
    && (c.skip[i] ==> c.started[i] == 0)
    && (c.done[i] ==> c.started[i] == 1 && c.out[i] == Own(c.answers[i]))
    && (c.started[i] == 1 && !c.done[i] && !c.cancelled ==> i in Rows(c.tasks))
  }

  /** A task holds at most one row, claimed through the cursor, and nobody else holds it. */
  ghost predicate GoodTask(c: Call, k: nat)
    requires Shaped(c) && k < |c.tasks|
  {
    var t := c.tasks[k];
    && (t.row.Some? ==>
          && t.began && !t.settled && t.row.value < c.cursor && t.row.value < |c.skip|
          && c.started[t.row.value] == 1 && !c.done[t.row.value]
          && forall m | 0 <= m < |c.tasks| && m != k :: c.tasks[m].row != t.row)
  }

  ghost predicate Untouched(c: Call, from: nat)
    requires Shaped(c)
  {
    forall i | from <= i < |c.skip| :: c.started[i] == 0
  }

  ghost predicate Answered(c: Call, to: nat)
    requires Shaped(c)
  {
    to <= |c.skip| && forall i | 0 <= i < to :: c.skip[i] || c.done[i]
  }

  /** Tasks take rows only while the caller submits or waits; the caller runs rows itself only when no task can. */
  ghost predicate GoodPhase(c: Call)
    requires Shaped(c)
  {
    match c.phase
    case Reserving(_) => c.tasks == [] && c.unsubmitted == 0 && !c.cancelled && Untouched(c, 0)
    case Submitting => !c.cancelled && Untouched(c, c.cursor) && (c.tasks == [] ==> Untouched(c, 0))
    case Waiting => !c.cancelled && c.unsubmitted == 0 && Untouched(c, c.cursor)
    case Finishing(next) => !c.cancelled && c.unsubmitted == 0 && Unsettled(c.tasks) == 0 && Answered(c, next)
    case Inline(next) => !c.cancelled && c.unsubmitted == 0 && c.tasks == [] && Answered(c, next) && Untouched(c, next)
    case Collecting =>
      c.unsubmitted == 0 && (c.cancelled || (Unsettled(c.tasks) == 0 && Answered(c, |c.skip|)))
    case Returned(result) =>
      c.unsubmitted == 0 && (c.cancelled || Unsettled(c.tasks) == 0) && |result| == |c.skip|
      && forall i | 0 <= i < |result| :: GoodResult(c, i, result[i])
    case Thrown => c.unsubmitted == 0 && (c.cancelled || Unsettled(c.tasks) == 0)
  }

  /** What the caller hands back for row i. */
  ghost predicate GoodResult(c: Call, i: nat, r: Option<Receipt>)
    requires Shaped(c) && i < |c.skip|
  {
    if c.skip[i] then r == None
    else
      && r.Some?
      && (r.value.Own? ==> c.done[i] && r.value == Own(c.answers[i]))
      && (r.value.TimedOut? ==> c.cancelled)
  }

  ghost predicate Good(c: Call) {
    && Shaped(c) && c.wanted <= MaxFanout
    && (forall i | 0 <= i < |c.skip| :: GoodRow(c, i))
    && (forall k | 0 <= k < |c.tasks| :: GoodTask(c, k))
    && c.tasksDone + Unsettled(c.tasks) == |c.tasks|
    && GoodPhase(c)
  }

  // ---------------------------------------------------------------- counting tasks

  lemma {:induction false} UnsettledUpdate(tasks: seq<Task>, k: nat, t: Task)
    requires k < |tasks|
    ensures Unsettled(tasks[k := t]) + (if tasks[k].settled then 0 else 1) == Unsettled(tasks) + (if t.settled then 0 else 1)
  {
    if k > 0 {
      assert tasks[k := t][1..] == tasks[1..][k - 1 := t];
      UnsettledUpdate(tasks[1..], k - 1, t);
    } else {
      assert tasks[k := t][1..] == tasks[1..];
    }
  }

  lemma {:induction false} UnsettledAppend(tasks: seq<Task>, t: Task)
    ensures Unsettled(tasks + [t]) == Unsettled(tasks) + (if t.settled then 0 else 1)
  {
    if tasks != [] {
      assert (tasks + [t])[1..] == tasks[1..] + [t];
      UnsettledAppend(tasks[1..], t);
    }
  }

  lemma {:induction false} NoneUnsettled(tasks: seq<Task>, k: nat)
    requires k < |tasks| && !tasks[k].settled
    ensures Unsettled(tasks) > 0
  {
    if k > 0 { NoneUnsettled(tasks[1..], k - 1); }
  }

  // ---------------------------------------------------------------- steps of a task

  /** Settling a task drops the row it holds, which only happens once the call is cancelled. */
  lemma SettleKeeps(c: Call, k: nat)
    requires Good(c) && k < |c.tasks| && (c.tasks[k].row.Some? ==> c.cancelled)
    ensures Good(Settle(c, k).0) && Settle(c, k).1 == Outstanding(Settle(c, k).0) - Outstanding(c)
  {
    if !c.tasks[k].settled {
      var t := c.tasks[k].(settled := true, row := None);
      UnsettledUpdate(c.tasks, k, t);
      NoneUnsettled(c.tasks, k);
      var d := Settle(c, k).0;
      forall i | 0 <= i < |d.skip| ensures GoodRow(d, i) {
        assert GoodRow(c, i);
        if i in Rows(c.tasks) && !c.cancelled {
          var m :| 0 <= m < |c.tasks| && c.tasks[m].row == Some(i);
          assert d.tasks[m].row == Some(i);
        }
      }
      forall m | 0 <= m < |d.tasks| ensures GoodTask(d, m) {
        assert GoodTask(c, m);
      }
    }
  }

  lemma BeganKeeps(c: Call, k: nat)
    requires Good(c) && k < |c.tasks|
    ensures var d := SetTask(c, k, c.tasks[k].(began := true)); Good(d) && Outstanding(d) == Outstanding(c)
  {
    var d := SetTask(c, k, c.tasks[k].(began := true));
    UnsettledUpdate(c.tasks, k, d.tasks[k]);
    forall i | 0 <= i < |d.skip| ensures GoodRow(d, i) {
      assert GoodRow(c, i);
      if i in Rows(c.tasks) {
        var m :| 0 <= m < |c.tasks| && c.tasks[m].row == Some(i);
        assert d.tasks[m].row == Some(i);
      }
    }
    forall m | 0 <= m < |d.tasks| ensures GoodTask(d, m) {
      assert GoodTask(c, m);
    }
  }

  /** A scheduler task answers the row it holds. */
  lemma AnswerKeeps(c: Call, k: nat)
    requires Good(c) && k < |c.tasks| && c.tasks[k].row.Some? && !c.cancelled
    ensures c.tasks[k].row.value < |c.done|
    ensures var d := Answer(SetTask(c, k, c.tasks[k].(row := None)), c.tasks[k].row.value);
      Good(d) && Outstanding(d) == Outstanding(c)
  {
    assert GoodTask(c, k);
    var i := c.tasks[k].row.value;
    var d := Answer(SetTask(c, k, c.tasks[k].(row := None)), i);
    UnsettledUpdate(c.tasks, k, d.tasks[k]);
    NoneUnsettled(c.tasks, k);
    forall j | 0 <= j < |d.skip| ensures GoodRow(d, j) {
      assert GoodRow(c, j);
      if j != i && j in Rows(c.tasks) {
        var m :| 0 <= m < |c.tasks| && c.tasks[m].row == Some(j);
        assert d.tasks[m].row == Some(j);
      }
    }
    forall m | 0 <= m < |d.tasks| ensures GoodTask(d, m) {
      assert GoodTask(c, m);
    }
  }

  /** A scheduler task takes the row under the cursor. No one has started it, because rows are started in cursor order. */
  lemma TakeKeeps(c: Call, k: nat, i: nat)
    requires Good(c) && k < |c.tasks| && c.tasks[k].row.None? && c.tasks[k].began && !c.tasks[k].settled && !c.cancelled
    requires c.cursor <= i < |c.skip| && !c.skip[i]
    ensures c.started[i] == 0 && !c.done[i]
    ensures var d := SetTask(c.(cursor := i + 1, started := c.started[i := c.started[i] + 1]), k, c.tasks[k].(row := Some(i)));
      Good(d) && Outstanding(d) == Outstanding(c)
  {
    NoneUnsettled(c.tasks, k);
    assert c.phase.Submitting? || c.phase.Waiting?;
    assert GoodRow(c, i);
    var d := SetTask(c.(cursor := i + 1, started := c.started[i := c.started[i] + 1]), k, c.tasks[k].(row := Some(i)));
    UnsettledUpdate(c.tasks, k, d.tasks[k]);
    assert d.tasks[k].row == Some(i);
    forall m | 0 <= m < |c.tasks| ensures c.tasks[m].row != Some(i) {
      assert GoodTask(c, m);
    }
    forall j | 0 <= j < |d.skip| ensures GoodRow(d, j) {
      assert GoodRow(c, j);
      if j != i && j in Rows(c.tasks) {
        var m :| 0 <= m < |c.tasks| && c.tasks[m].row == Some(j);
        assert d.tasks[m].row == Some(j);
      }
    }
    forall m | 0 <= m < |d.tasks| ensures GoodTask(d, m) {
      assert GoodTask(c, m);
    }
  }

  lemma CursorKeeps(c: Call, cursor: nat)
    requires Good(c) && c.cursor <= cursor
    ensures Good(c.(cursor := cursor))
  {
    var d := c.(cursor := cursor);
    forall i | 0 <= i < |d.skip| ensures GoodRow(d, i) { assert GoodRow(c, i); }
    forall m | 0 <= m < |d.tasks| ensures GoodTask(d, m) { assert GoodTask(c, m); }
  }

  lemma FirstActiveFinds(skip: seq<bool>, i: nat)
    requires i <= |skip|
    ensures FirstActive(skip, i) < |skip| ==> !skip[FirstActive(skip, i)]
    decreases |skip| - i
  {
    if i < |skip| && skip[i] { FirstActiveFinds(skip, i + 1); }
  }

  /** A row that is answered in the step that takes it. */
  lemma TakeAndAnswerKeeps(c: Call, k: nat, i: nat)
    requires Good(c) && k < |c.tasks| && c.tasks[k].row.None? && c.tasks[k].began && !c.tasks[k].settled && !c.cancelled
    requires c.cursor <= i < |c.skip| && !c.skip[i]
    ensures var d := Answer(c.(cursor := i + 1, started := c.started[i := c.started[i] + 1]), i);
      Good(d) && Outstanding(d) == Outstanding(c)
  {
    TakeKeeps(c, k, i);
    var c2 := c.(cursor := i + 1, started := c.started[i := c.started[i] + 1]);
    var held := SetTask(c2, k, c.tasks[k].(row := Some(i)));
    AnswerKeeps(held, k);
    assert SetTask(held, k, held.tasks[k].(row := None)).tasks == c2.tasks;
  }

  /** A task without a row claims the next one, or finds none left and settles. */
  lemma ClaimKeeps(c: Call, k: nat, finishes: bool)
    requires Good(c) && k < |c.tasks| && !c.tasks[k].settled && !c.cancelled && c.tasks[k].row.None?
    ensures Good(StepTask(c, k, finishes).0)
    ensures StepTask(c, k, finishes).1 == Outstanding(StepTask(c, k, finishes).0) - Outstanding(c)
  {
    var c1 := SetTask(c, k, c.tasks[k].(began := true));
    BeganKeeps(c, k);
    var i := if c.cursor >= |c.skip| then |c.skip| else FirstActive(c.skip, c.cursor);
    if i >= |c.skip| {
      var past := (if c.cursor > |c.skip| then c.cursor else |c.skip|) + 1;
      CursorKeeps(c1, past);
      SettleKeeps(c1.(cursor := past), k);
    } else {
      FirstActiveFinds(c.skip, c.cursor);
      TakeKeeps(c1, k, i);
      if finishes { TakeAndAnswerKeeps(c1, k, i); }
    }
  }

  lemma StepTaskKeeps(c: Call, k: nat, finishes: bool)
    requires Good(c) && k < |c.tasks| && !c.tasks[k].settled
    ensures Good(StepTask(c, k, finishes).0)
    ensures StepTask(c, k, finishes).1 == Outstanding(StepTask(c, k, finishes).0) - Outstanding(c)
  {
    var c1 := SetTask(c, k, c.tasks[k].(began := true));
    BeganKeeps(c, k);
    if c.cancelled {
      SettleKeeps(c1, k);
    } else if c.tasks[k].row.None? {
      ClaimKeeps(c, k, finishes);
    } else {
      assert GoodTask(c1, k);
      if finishes { AnswerKeeps(c1, k); }
    }
  }

  // ---------------------------------------------------------------- steps of the caller

  /** Nothing about rows or tasks changes, so only the phase is left to check. */
  lemma PhaseKeeps(c: Call, d: Call)
    requires Good(c) && d == c.(phase := d.phase, unsubmitted := d.unsubmitted, cancelled := d.cancelled)
    requires (c.cancelled ==> d.cancelled) && GoodPhase(d)
    ensures Good(d)
  {
    forall i | 0 <= i < |d.skip| ensures GoodRow(d, i) { assert GoodRow(c, i); }
    forall m | 0 <= m < |d.tasks| ensures GoodTask(d, m) { assert GoodTask(c, m); }
  }

  lemma AppendKeeps(c: Call)
    requires Good(c) && c.phase.Submitting?
    ensures var d := c.(tasks := c.tasks + [FreshTask]); Good(d) && Outstanding(d) == Outstanding(c) + 1
  {
    var d := c.(tasks := c.tasks + [FreshTask]);
    UnsettledAppend(c.tasks, FreshTask);
    forall i | 0 <= i < |d.skip| ensures GoodRow(d, i) {
      assert GoodRow(c, i);
      if i in Rows(c.tasks) {
        var m :| 0 <= m < |c.tasks| && c.tasks[m].row == Some(i);
        assert d.tasks[m].row == Some(i);
      }
    }
    forall m | 0 <= m < |d.tasks| ensures GoodTask(d, m) {
      if m < |c.tasks| { assert GoodTask(c, m); }
    }
  }

  /** With every task settled no row is in flight, so a row without an answer was never started. */
  lemma UnansweredIsUnstarted(c: Call, i: nat)
    requires Good(c) && !c.cancelled && Unsettled(c.tasks) == 0 && i < |c.skip| && !c.done[i]
    ensures c.started[i] == 0
  {
    assert GoodRow(c, i);
    if c.started[i] == 1 {
      var m :| 0 <= m < |c.tasks| && c.tasks[m].row == Some(i);
      assert GoodTask(c, m);
      NoneUnsettled(c.tasks, m);
    }
  }

  lemma RunRowKeeps(c: Call)
    requires Good(c) && (c.phase.Finishing? || c.phase.Inline?) && c.phase.next < |c.skip|
    ensures var d := Act(c, NextRow, 0, 0).0; Good(d) && Outstanding(d) == Outstanding(c)
  {
    var i, d := c.phase.next, Act(c, NextRow, 0, 0).0;
    assert GoodRow(c, i);
    assert Unsettled(c.tasks) == 0;
    if !c.skip[i] && !c.done[i] { UnansweredIsUnstarted(c, i); }
    forall j | 0 <= j < |d.skip| ensures GoodRow(d, j) { assert GoodRow(c, j); }
    forall m | 0 <= m < |d.tasks| ensures GoodTask(d, m) {
      assert GoodTask(c, m);
      if !d.tasks[m].settled { NoneUnsettled(c.tasks, m); }
    }
  }

  lemma CollectKeeps(c: Call)
    requires Good(c) && c.phase.Collecting?
    ensures Good(c.(phase := Returned(Results(c))))
  {
    var d := c.(phase := Returned(Results(c)));
    forall i | 0 <= i < |c.skip| ensures GoodResult(d, i, Results(c)[i]) { assert GoodRow(c, i); }
    PhaseKeeps(c, d);
  }

  /** Every action of every thread keeps a call good, and changes the counter by exactly the units it takes or
      gives back. */
  lemma ActKeeps(c: Call, a: Action, counter: int, cap: int)
    requires Good(c) && Enabled(c, a, counter)
    ensures var (d, delta) := Act(c, a, counter, cap); Good(d) && delta == Outstanding(d) - Outstanding(c)
  {
    var d := Act(c, a, counter, cap).0;
    match a
    case TaskStep(k, finishes) => StepTaskKeeps(c, k, finishes);
    case Retire(k) =>
      assert GoodTask(c, k);
      SettleKeeps(c, k);
    case Submit =>
      AppendKeeps(c);
      PhaseKeeps(c.(tasks := c.tasks + [FreshTask]), d);
    case ScheduleFails => ScheduleFailsKeeps(c, counter, cap);
    case NextRow => RunRowKeeps(c);
    case Collect => CollectKeeps(c);
    case _ => PhaseActionKeeps(c, a, counter, cap);
  }

  /** Actions that leave rows and tasks as they are. */
  predicate PhaseAction(a: Action) {
    !a.TaskStep? && !a.Retire? && !a.Submit? && !a.ScheduleFails? && !a.NextRow? && !a.Collect?
  }

  lemma PhaseActionKeeps(c: Call, a: Action, counter: int, cap: int)
    requires Good(c) && Enabled(c, a, counter) && PhaseAction(a)
    ensures var (d, delta) := Act(c, a, counter, cap); Good(d) && delta == Outstanding(d) - Outstanding(c)
  {
    PhaseKeeps(c, Act(c, a, counter, cap).0);
  }

  lemma ScheduleFailsKeeps(c: Call, counter: int, cap: int)
    requires Good(c) && c.phase.Submitting? && c.unsubmitted > 0
    ensures var (d, delta) := Act(c, ScheduleFails, counter, cap); Good(d) && delta == Outstanding(d) - Outstanding(c)
  {
    AppendKeeps(c);
    var more := c.(tasks := c.tasks + [FreshTask]);
    var c1 := more.(unsubmitted := 0);
    PhaseKeeps(more, c1);
    SettleKeeps(c1, |c.tasks|);
    var settled := Settle(c1, |c.tasks|).0;
    PhaseKeeps(settled, AfterSubmit(settled));
  }

  // ---------------------------------------------------------------- all calls together

  /** All the calls of the process and the counter they share. */
  datatype System = System(calls: seq<Call>, counter: int)

  datatype Event = Arrive(skip: seq<bool>, answers: seq<string>) | On(call: nat, action: Action)

  predicate CanHappen(s: System, e: Event) {
    match e
    case Arrive(skip, answers) => |answers| == |skip|
    case On(k, a) => k < |s.calls| && Shaped(s.calls[k]) && Enabled(s.calls[k], a, s.counter)
  }

  function Next(s: System, e: Event, cap: int): System
    requires CanHappen(s, e)
  {
    match e
    case Arrive(skip, answers) => s.(calls := s.calls + [NewCall(skip, answers)])
    case On(k, a) =>
      var r := Act(s.calls[k], a, s.counter, cap);
      System(s.calls[k := r.0], s.counter + r.1)
  }

  ghost predicate Run(states: seq<System>, events: seq<Event>, cap: int) {
    && |states| == |events| + 1 && states[0] == System([], 0)
    && forall i | 0 <= i < |events| :: CanHappen(states[i], events[i]) && states[i + 1] == Next(states[i], events[i], cap)
  }

  function TotalOutstanding(calls: seq<Call>): nat {
    if calls == [] then 0 else Outstanding(calls[0]) + TotalOutstanding(calls[1..])
  }

  ghost predicate GoodSystem(s: System, cap: int) {
    && (forall k | 0 <= k < |s.calls| :: Good(s.calls[k]))
    && s.counter == TotalOutstanding(s.calls) <= cap
  }

  lemma {:induction false} TotalUpdate(calls: seq<Call>, k: nat, c: Call)
    requires k < |calls|
    ensures TotalOutstanding(calls[k := c]) == TotalOutstanding(calls) - Outstanding(calls[k]) + Outstanding(c)
  {
    if k > 0 {
      assert calls[k := c][1..] == calls[1..][k - 1 := c];
      TotalUpdate(calls[1..], k - 1, c);
    } else {
      assert calls[k := c][1..] == calls[1..];
    }
  }

  lemma {:induction false} TotalAppend(calls: seq<Call>, c: Call)
    ensures TotalOutstanding(calls + [c]) == TotalOutstanding(calls) + Outstanding(c)
  {
    if calls == [] {
      assert calls + [c] == [c];
      assert TotalOutstanding([c]) == Outstanding(c) + TotalOutstanding([]);
    } else {
      assert (calls + [c])[1..] == calls[1..] + [c];
      TotalAppend(calls[1..], c);
    }
  }

  lemma NewCallIsGood(skip: seq<bool>, answers: seq<string>)
    requires |answers| == |skip|
    ensures Good(NewCall(skip, answers)) && Outstanding(NewCall(skip, answers)) == 0
  {
    var c := NewCall(skip, answers);
    forall i | 0 <= i < |c.skip| ensures GoodRow(c, i) { }
  }

  lemma NextKeeps(s: System, e: Event, cap: int)
    requires GoodSystem(s, cap) && CanHappen(s, e)
    ensures GoodSystem(Next(s, e, cap), cap)
  {
    match e
    case Arrive(skip, answers) =>
      NewCallIsGood(skip, answers);
      TotalAppend(s.calls, NewCall(skip, answers));
    case On(k, a) =>
      var r := Act(s.calls[k], a, s.counter, cap);
      ActKeeps(s.calls[k], a, s.counter, cap);
      TotalUpdate(s.calls, k, r.0);
      if a.Swap? {
        assert r.1 <= 0 || r.1 <= cap - s.counter;
      } else {
        OnlySwapTakes(s.calls[k], a, s.counter, cap);
      }
  }

  lemma OnlySwapTakes(c: Call, a: Action, counter: int, cap: int)
    requires Good(c) && Enabled(c, a, counter) && !a.Swap?
    ensures Act(c, a, counter, cap).1 <= 0
  {
  }

  lemma {:induction false} RunIsGood(states: seq<System>, events: seq<Event>, cap: int, i: nat)
    requires Run(states, events, cap) && 0 <= cap && i < |states|
    ensures GoodSystem(states[i], cap)
  {
    if i > 0 {
      RunIsGood(states, events, cap, i - 1);
      NextKeeps(states[i - 1], events[i - 1], cap);
    }
  }

  // ---------------------------------------------------------------- the theorems

  /** The counter is at every moment the units reserved and not yet given back, and never passes the cap. */
  lemma ReservationsConserved(states: seq<System>, events: seq<Event>, cap: int, i: nat)
    requires Run(states, events, cap) && 0 <= cap && i < |states|
    ensures 0 <= states[i].counter == TotalOutstanding(states[i].calls) <= cap
  {
    RunIsGood(states, events, cap, i);
  }

  lemma {:induction false} NothingOutstanding(calls: seq<Call>)
    requires forall k | 0 <= k < |calls| :: Good(calls[k]) && (calls[k].phase.Returned? || calls[k].phase.Thrown?)
    requires forall k | 0 <= k < |calls| :: Unsettled(calls[k].tasks) == 0
    ensures TotalOutstanding(calls) == 0
  {
    if calls != [] {
      assert Good(calls[0]);
      NothingOutstanding(calls[1..]);
    }
  }

  lemma {:induction false} AllSettled(tasks: seq<Task>)
    requires forall k | 0 <= k < |tasks| :: tasks[k].settled
    ensures Unsettled(tasks) == 0
  {
    if tasks != [] { AllSettled(tasks[1..]); }
  }

  /** In every run: when all calls have returned or thrown and their tasks are settled, the counter is back at zero. A
      call that returned without being given up has no task left to settle. */
  lemma NothingLeaks(states: seq<System>, events: seq<Event>, cap: int, i: nat)
    requires Run(states, events, cap) && 0 <= cap && i < |states|
    requires forall c | c in states[i].calls :: c.phase.Returned? || c.phase.Thrown?
    requires forall c | c in states[i].calls && c.cancelled :: forall k | 0 <= k < |c.tasks| :: c.tasks[k].settled
    ensures states[i].counter == 0
  {
    RunIsGood(states, events, cap, i);
    var calls := states[i].calls;
    forall k | 0 <= k < |calls| ensures Unsettled(calls[k].tasks) == 0 {
      assert calls[k] in calls && Good(calls[k]);
      if calls[k].cancelled { AllSettled(calls[k].tasks); }
    }
    NothingOutstanding(calls);
  }

  lemma NoRowStartsTwice(states: seq<System>, events: seq<Event>, cap: int, i: nat, k: nat, row: nat)
    requires Run(states, events, cap) && 0 <= cap && i < |states|
    requires k < |states[i].calls| && row < |states[i].calls[k].started|
    ensures states[i].calls[k].started[row] <= 1
  {
    RunIsGood(states, events, cap, i);
    assert GoodRow(states[i].calls[k], row);
  }

  /** No action changes the rows of a call. */
  lemma RowsFixed(c: Call, a: Action, counter: int, cap: int)
    requires Good(c) && Enabled(c, a, counter)
    ensures var d := Act(c, a, counter, cap).0; d.skip == c.skip && d.answers == c.answers
  {
  }

  lemma {:induction false} CallFixed(states: seq<System>, events: seq<Event>, cap: int, i: nat, j: nat, k: nat)
    requires Run(states, events, cap) && 0 <= cap && i <= j < |states| && k < |states[i].calls|
    ensures k < |states[j].calls|
    ensures states[j].calls[k].skip == states[i].calls[k].skip && states[j].calls[k].answers == states[i].calls[k].answers
    decreases j
  {
    if i < j {
      CallFixed(states, events, cap, i, j - 1, k);
      RunIsGood(states, events, cap, j - 1);
      var s, e := states[j - 1], events[j - 1];
      if e.On? { RowsFixed(s.calls[e.call], e.action, s.counter, cap); }
    }
  }

  /** A call that arrived with these rows, and has returned, gives every row one receipt at its own index: nothing for a
      NULL row, what its own SQL gave, or, only if the call was abandoned, a timeout. */
  lemma OneReceiptPerRow(states: seq<System>, events: seq<Event>, cap: int, arrived: nat, i: nat, row: nat)
    requires Run(states, events, cap) && 0 <= cap && arrived < i < |states| && events[arrived].Arrive?
    requires var k := |states[arrived].calls|;
      k < |states[i].calls| && states[i].calls[k].phase.Returned? && row < |events[arrived].skip|
    ensures var c := states[i].calls[|states[arrived].calls|]; var e := events[arrived];
      && |c.phase.result| == |e.skip| == |c.started|
      && (e.skip[row] ==> c.phase.result[row] == None && c.started[row] == 0)
      && (!e.skip[row] ==> c.phase.result[row] == Some(Own(e.answers[row])) || c.phase.result[row] == Some(TimedOut))
      && (!e.skip[row] && !c.cancelled ==> c.phase.result[row] == Some(Own(e.answers[row])) && c.started[row] == 1)
  {
    RunIsGood(states, events, cap, i);
    var k := |states[arrived].calls|;
    CallFixed(states, events, cap, arrived + 1, i, k);
    var c := states[i].calls[k];
    assert Good(c) && GoodRow(c, row) && GoodResult(c, row, c.phase.result[row]);
  }

  /** When a call collects its results, a row that has been answered gets its own answer, whether the call was abandoned or
      not, and only a row that has not is a timeout. */
  lemma CollectGivesAnswers(states: seq<System>, events: seq<Event>, cap: int, i: nat, k: nat, row: nat)
    requires Run(states, events, cap) && 0 <= cap && i < |events| && events[i] == On(k, Collect)
    requires k < |states[i].calls| && row < |states[i].calls[k].skip|
    ensures var c := states[i].calls[k];
      && |c.done| == |c.answers| == |c.skip| && k < |states[i + 1].calls| && states[i + 1].calls[k].phase.Returned?
      && var result := states[i + 1].calls[k].phase.result;
      && |result| == |c.skip| && (result[row] == None <==> c.skip[row])
      && (!c.skip[row] ==>
            && (result[row] == Some(Own(c.answers[row])) <==> c.done[row])
            && (result[row] == Some(TimedOut) <==> !c.done[row]))
  {
    RunIsGood(states, events, cap, i);
    var c := states[i].calls[k];
    assert GoodRow(c, row);
  }

  lemma DoneKept(c: Call, a: Action, counter: int, cap: int, row: nat)
    requires Good(c) && Enabled(c, a, counter) && row < |c.done| && c.done[row]
    ensures var d := Act(c, a, counter, cap).0; row < |d.done| && d.done[row]
  {
    ActKeeps(c, a, counter, cap);
  }

  predicate IsDone(s: System, k: nat, row: nat) {
    k < |s.calls| && row < |s.calls[k].done| && s.calls[k].done[row]
  }

  lemma NextKeepsDone(s: System, e: Event, cap: int, k: nat, row: nat)
    requires GoodSystem(s, cap) && CanHappen(s, e) && IsDone(s, k, row)
    ensures IsDone(Next(s, e, cap), k, row)
  {
    if e.On? && e.call == k { DoneKept(s.calls[k], e.action, s.counter, cap, row); }
  }

  lemma {:induction false} DoneForever(states: seq<System>, events: seq<Event>, cap: int, i: nat, j: nat, k: nat, row: nat)
    requires Run(states, events, cap) && 0 <= cap && i <= j < |states| && IsDone(states[i], k, row)
    ensures IsDone(states[j], k, row)
    decreases j
  {
    if i < j {
      DoneForever(states, events, cap, i, j - 1, k, row);
      RunIsGood(states, events, cap, j - 1);
      NextKeepsDone(states[j - 1], events[j - 1], cap, k, row);
    }
  }

  /** So a row that any earlier step answered is never a timeout. */
  lemma AnsweredNeverTimesOut(states: seq<System>, events: seq<Event>, cap: int, i: nat, j: nat, k: nat, row: nat)
    requires Run(states, events, cap) && 0 <= cap && i <= j < |events| && events[j] == On(k, Collect)
    requires IsDone(states[i], k, row)
    ensures k < |states[j + 1].calls| && states[j + 1].calls[k].phase.Returned?
    ensures var c := states[j + 1].calls[k];
      row < |c.phase.result| && row < |c.answers| && c.phase.result[row] == Some(Own(c.answers[row]))
  {
    DoneForever(states, events, cap, i, j, k, row);
    RunIsGood(states, events, cap, j);
    assert GoodRow(states[j].calls[k], row);
    CollectGivesAnswers(states, events, cap, j, k, row);
    RowsFixed(states[j].calls[k], Collect, states[j].counter, cap);
  }

  // ---------------------------------------------------------------- what single steps do

  lemma {:induction false} FirstActiveIsFirst(skip: seq<bool>, i: nat)
    requires i <= |skip|
    ensures forall j | i <= j < FirstActive(skip, i) :: skip[j]
    decreases |skip| - i
  {
    if i < |skip| && skip[i] { FirstActiveIsFirst(skip, i + 1); }
  }

  /** A scheduler task that holds a row answers it in the step that finishes it, and otherwise goes on holding it. One
      that holds none takes the first row that is not NULL at or after the cursor, and settles if there is none. */
  lemma TaskStepDoes(c: Call, k: nat, finishes: bool)
    requires Good(c) && k < |c.tasks| && !c.tasks[k].settled && !c.cancelled
    ensures var d := StepTask(c, k, finishes).0;
      && Shaped(d) && |d.tasks| == |c.tasks| && d.tasks[k].began
      && (c.tasks[k].row.Some? ==>
            var r := c.tasks[k].row.value;
            && r < |c.done| && d.started == c.started && d.cursor == c.cursor
            && (finishes ==> d.done == c.done[r := true] && d.out == c.out[r := Own(c.answers[r])] && d.tasks[k].row == None)
            && (!finishes ==> d.done == c.done && d.out == c.out && d.tasks[k].row == Some(r)))
      && (c.tasks[k].row.None? && (forall j | c.cursor <= j < |c.skip| :: c.skip[j]) ==>
            d.tasks[k].settled && d.done == c.done && d.started == c.started)
      && (forall r | c.tasks[k].row.None? && c.cursor <= r < |c.skip| && !c.skip[r] && (forall j | c.cursor <= j < r :: c.skip[j]) ::
            && d.cursor == r + 1 && d.started == c.started[r := c.started[r] + 1]
            && (finishes ==> d.done == c.done[r := true] && d.out == c.out[r := Own(c.answers[r])] && d.tasks[k].row == None)
            && (!finishes ==> d.done == c.done && d.tasks[k].row == Some(r)))
  {
    assert GoodTask(c, k);
    if c.tasks[k].row.None? && c.cursor <= |c.skip| {
      FirstActiveFinds(c.skip, c.cursor);
      FirstActiveIsFirst(c.skip, c.cursor);
    }
    var d := StepTask(c, k, finishes).0;
    if c.tasks[k].row.None? && c.cursor <= |c.skip| && FirstActive(c.skip, c.cursor) < |c.skip| {
      var r := FirstActive(c.skip, c.cursor);
      assert d.cursor == r + 1;
    }
  }

  /** Once a call is given up, the next step of a task only settles it. */
  lemma CancelledTaskSettles(c: Call, k: nat, finishes: bool)
    requires Good(c) && k < |c.tasks| && !c.tasks[k].settled && c.cancelled
    ensures var (d, released) := StepTask(c, k, finishes);
      released == -1 && d.tasks[k].settled && d.done == c.done && d.out == c.out && d.started == c.started
  {
  }

  /** The caller goes through the rows one by one, and leaves none behind that is neither NULL nor answered. */
  lemma NextRowAdvances(c: Call, counter: int, cap: int)
    requires Good(c) && Enabled(c, NextRow, counter)
    ensures var d := Act(c, NextRow, counter, cap).0; var i := c.phase.next;
      && (c.phase.Inline? ==> d.phase == Inline(i + 1)) && (c.phase.Finishing? ==> d.phase == Finishing(i + 1))
      && (c.skip[i] || c.done[i] ==> d.done == c.done && d.out == c.out && d.started == c.started)
      && (!c.skip[i] && !c.done[i] ==>
            d.done == c.done[i := true] && d.out == c.out[i := Own(c.answers[i])] && d.started == c.started[i := c.started[i] + 1])
  {
  }

  /** A successful swap takes all that is wanted and the cap has room for: at most one unit per row, and at most 32. */
  lemma SwapTakes(c: Call, counter: int, cap: int)
    requires Good(c) && Enabled(c, Swap, counter)
    ensures var (d, taken) := Act(c, Swap, counter, cap);
      && taken == d.unsubmitted && (counter >= cap ==> taken == 0)
      && (counter < cap ==> taken == if cap - counter < c.wanted then cap - counter else c.wanted)
  {
  }

  lemma {:induction false} ActiveAppend(skip: seq<bool>, last: bool)
    ensures Active(skip + [last]) == Active(skip) + if last then 0 else 1
  {
    if skip == [] {
      assert skip + [last] == [last] && [last][1..] == [];
    } else {
      assert (skip + [last])[1..] == skip[1..] + [last];
      ActiveAppend(skip[1..], last);
    }
  }

  lemma {:induction false} ActiveCounts(skip: seq<bool>)
    ensures Active(skip) == |set i | 0 <= i < |skip| && !skip[i]|
    decreases |skip|
  {
    if skip != [] {
      var n := |skip| - 1;
      var init := skip[..n];
      ActiveCounts(init);
      assert skip == init + [skip[n]];
      ActiveAppend(init, skip[n]);
      var all, some := set i | 0 <= i < |skip| && !skip[i], set i | 0 <= i < |init| && !init[i];
      assert all == if skip[n] then some else some + {n};
    }
  }

  /** A new call wants a unit for every row that is not NULL, up to 32; no row is started, and none answered. */
  lemma NewCallWants(skip: seq<bool>, answers: seq<string>)
    ensures var c := NewCall(skip, answers); var rows := |set i | 0 <= i < |skip| && !skip[i]|;
      && c.skip == skip && c.answers == answers && c.wanted == (if rows < 32 then rows else 32)
      && c.cursor == 0 && c.tasks == [] && !c.cancelled && forall i | 0 <= i < |skip| :: c.started[i] == 0 && !c.done[i]
  {
    ActiveCounts(skip);
  }

  lemma {:induction false} SomeUnsettled(tasks: seq<Task>) returns (k: nat)
    requires Unsettled(tasks) > 0
    ensures k < |tasks| && !tasks[k].settled
  {
    if !tasks[0].settled {
      k := 0;
    } else {
      var m := SomeUnsettled(tasks[1..]);
      k := m + 1;
    }
  }

  /** No call is ever stuck: until it has returned or thrown, its own thread can go on, or one of its tasks can. */
  lemma NeverStuck(c: Call, counter: int) returns (a: Action)
    requires Good(c) && !c.phase.Returned? && !c.phase.Thrown?
    ensures Enabled(c, a, counter) && !a.DeadlinePassed? && !a.Interrupted? && !a.Retire?
  {
    match c.phase
    case Reserving(_) => a := Load;
    case Submitting => a := if c.unsubmitted > 0 then Submit else EndSubmit;
    case Waiting =>
      if c.tasksDone >= |c.tasks| {
        a := AllDone;
      } else {
        var k := SomeUnsettled(c.tasks);
        a := TaskStep(k, true);
      }
    case Finishing(next) => a := if next < |c.skip| then NextRow else EndRows;
    case Inline(next) => a := if next < |c.skip| then NextRow else EndRows;
    case Collecting => a := Collect;
  }
}

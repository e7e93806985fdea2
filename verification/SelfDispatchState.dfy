/** The call object as its methods change it under its mutex. */
module SelfDispatchState {
  import opened Collections
  import opened SelfDispatch

  /** Rows from i on run by the calling thread, one after the other. */
  function RunRows(c: Call, i: nat): Call
    requires Shaped(c) && i <= |c.skip|
    decreases |c.skip| - i
  {
    if i == |c.skip| then c else RunRows(RunRow(c, i), i + 1)
  }

  class ExecCall {
    var skip: seq<bool>
    var answers: seq<string>
    var started: seq<nat>
    var done: seq<bool>
    var out: seq<Receipt>
    var cursor: nat
    var cancelled: bool
    var tasks: seq<Task>
    var tasksDone: nat
    var wanted: nat
    var unsubmitted: nat
    var phase: Phase

    ghost function Snapshot(): Call
      reads this
    {
      Call(skip, answers, started, done, out, cursor, cancelled, tasks, tasksDone, wanted, unsubmitted, phase)
    }

    constructor (skip: seq<bool>, answers: seq<string>)
      ensures Snapshot() == NewCall(skip, answers)
    {
      var n := |skip|;
      this.answers := answers;
      this.skip, started, done, out := skip, seq(n, i => 0), seq(n, i => false), seq(n, i => TimedOut);
      cursor, cancelled, tasks, tasksDone := 0, false, [], 0;
      wanted := if Active(skip) < MaxFanout then Active(skip) else MaxFanout;
      unsubmitted, phase := 0, Reserving(0);
    }

    /** The shared cursor hands out row indexes; NULL rows are taken and dropped. */
    method TakeRow() returns (i: nat)
      modifies this`cursor
      ensures i < |skip| ==> old(cursor) <= |skip| && i == FirstActive(skip, old(cursor)) && cursor == i + 1
      ensures i >= |skip| ==> i == |skip| && (old(cursor) <= |skip| ==> FirstActive(skip, old(cursor)) == |skip|)
      ensures i >= |skip| ==> cursor == (if old(cursor) > |skip| then old(cursor) else |skip|) + 1
    {
      i := cursor;
      cursor := cursor + 1;
      while i < |skip| && skip[i]
        invariant cursor == i + 1 && old(cursor) <= i
        invariant old(cursor) <= |skip| ==> i <= |skip| && FirstActive(skip, old(cursor)) == FirstActive(skip, i)
        invariant old(cursor) > |skip| ==> i == old(cursor)
        decreases |skip| - i
      {
        i := cursor;
        cursor := cursor + 1;
      }
      if i >= |skip| { i := |skip|; }
    }

    method SettleTask(k: nat) returns (released: int)
      requires k < |tasks|
      modifies this`tasks, this`tasksDone
      ensures (Snapshot(), released) == Settle(old(Snapshot()), k)
    {
      if tasks[k].settled { return 0; }
      tasks := tasks[k := tasks[k].(settled := true, row := None)];
      tasksDone := tasksDone + 1;
      return -1;
    }

    /** The row's operation has finished, with the answer its SQL gave. */
    method AnswerRow(row: nat)
      requires Shaped(Snapshot()) && row < |done|
      modifies this`out, this`done
      ensures Snapshot() == Answer(old(Snapshot()), row)
    {
      out := out[row := Own(answers[row])];
      done := done[row := true];
    }

    /** `finishes` is what the operation's step reports. */
    method ExecuteTaskStep(k: nat, finishes: bool) returns (released: int)
      requires Shaped(Snapshot()) && k < |tasks|
      modifies this
      ensures (Snapshot(), released) == StepTask(old(Snapshot()), k, finishes)
    {
      tasks := tasks[k := tasks[k].(began := true)];
      if cancelled {
        released := SettleTask(k);
        return;
      }
      var row := tasks[k].row;
      if row.Some? {
        if !finishes || row.value >= |done| { return 0; }
        tasks := tasks[k := tasks[k].(row := None)];
        AnswerRow(row.value);
        return 0;
      }
      var i := TakeRow();
      if i >= |skip| {
        released := SettleTask(k);
        return;
      }
      started := started[i := started[i] + 1];
      if !finishes {
        tasks := tasks[k := tasks[k].(row := Some(i))];
      } else {
        AnswerRow(i);
      }
      return 0;
    }

    /** The caller runs the rows that no task has answered. */
    method RunUnanswered()
      requires Shaped(Snapshot())
      modifies this`started, this`out, this`done
      ensures Snapshot() == RunRows(old(Snapshot()), 0)
    {
      for i := 0 to |skip|
        invariant Shaped(Snapshot()) && Snapshot() == old(Snapshot()).(started := started, out := out, done := done)
        invariant RunRows(Snapshot(), i) == RunRows(old(Snapshot()), 0)
      {
        if !skip[i] && !done[i] {
          started := started[i := started[i] + 1];
          AnswerRow(i);
        }
      }
    }

    /** Under the mutex, so that no late answer is seen half way. */
    method CollectResults() returns (result: seq<Option<Receipt>>)
      requires Shaped(Snapshot())
      ensures result == Results(Snapshot())
    {
      result := [];
      for i := 0 to |skip|
        invariant result == Results(Snapshot())[..i]
      {
        if skip[i] {
          result := result + [None];
        } else if done[i] {
          result := result + [Some(out[i])];
        } else {
          result := result + [Some(TimedOut)];
        }
      }
    }
  }
}

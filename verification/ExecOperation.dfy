/** The resumable form of one SQL row against the loop it stands for. */
module ExecOperation {
  import opened Collections
  import opened Decimals

  /** What the engine makes of one statement: how many tasks it takes, and its result or error. */
  datatype Statement = Statement(tasks: nat, outcome: Outcome)
  datatype Outcome = Result(rows: string) | Failure(message: string)

  /** The SQL text as the engine's statement splitter sees it. */
  datatype Script = HasNul | Unparsable(message: string) | Statements(list: seq<Statement>)

  datatype Response = Response(status: nat, body: string)

  /** What the encoding of a result comes to: a response, or too many bytes of typed rows. */
  datatype Encoded = Encoded(response: Response) | TypedRowsTooLarge

  /** The formatting that both forms share: of a result and of an error message; and the limit on the bytes of a
      response. */
  datatype Format = Format(encode: string -> Encoded, error: string -> string, maxBytes: nat)

  const NulMessage := "SQL text must not contain null bytes"
  const EmptyMessage := "No statement to execute"

  function ErrorResponse(f: Format, message: string): Response {
    Response(422, f.error(message))
  }

  const TooLarge := Response(507, "{\"detail\":\"Response exceeds configured byte limit\"}")
  const RowsTooLarge := Response(507, "{\"detail\":\"Native typed rows exceed configured byte limit\"}")

  /** `QuackapiExecResult`: it checks the limit itself, except for the answer to typed rows over it. */
  function ResultResponse(f: Format, rows: string): Response {
    match f.encode(rows)
    case TypedRowsTooLarge => RowsTooLarge
    case Encoded(r) => if |r.body| > f.maxBytes then TooLarge else r
  }

  function FailureMessage(i: nat, n: nat, message: string): string {
    if n > 1 then "Statement " + Decimal(i + 1) + " of " + Decimal(n) + " failed: " + message else message
  }

  // ---------------------------------------------------------------- the synchronous form

  /** The statements run, and the last result or the first error. */
  datatype LoopResult = LoopResult(ran: seq<Outcome>, outcome: Outcome)

  /** The loop of `ExecuteRequestSql` from statement i on, after `ran`. */
  function RunFrom(f: Format, list: seq<Statement>, i: nat, ran: seq<Outcome>): LoopResult
    requires i < |list|
    decreases |list| - i
  {
    var o := list[i].outcome;
    var now := ran + [o];
    if o.Failure? then LoopResult(now, Failure(FailureMessage(i, |list|, o.message)))
    else if i + 1 < |list| then RunFrom(f, list, i + 1, now)
    else LoopResult(now, o)
  }

  function SyncRan(f: Format, s: Script): seq<Outcome> {
    if s.Statements? && s.list != [] then RunFrom(f, s.list, 0, []).ran else []
  }

  /** The response before the caller's last size check. */
  function SyncResponse(f: Format, s: Script): Response {
    match s
    case HasNul => ErrorResponse(f, NulMessage)
    case Unparsable(message) => ErrorResponse(f, message)
    case Statements(list) =>
      if list == [] then ErrorResponse(f, EmptyMessage)
      else
        var r := RunFrom(f, list, 0, []).outcome;
        if r.Failure? then ErrorResponse(f, r.message) else ResultResponse(f, r.rows)
  }

  /** `QuackapiExecSql`: any body over the limit is replaced. */
  function ExecSql(f: Format, s: Script): Response {
    var r := SyncResponse(f, s);
    if |r.body| > f.maxBytes then TooLarge else r
  }

  // ---------------------------------------------------------------- the resumable form

  /** `left` is the engine tasks that the statement in hand still needs, if one is in hand. */
  datatype State = State(connected: bool, statement: nat, left: Option<nat>, ran: seq<Outcome>, answer: Option<Response>)

  const Start := State(false, 0, None, [], None)

  predicate Finished(s: State) {
    s.answer.Some?
  }

  /** One `Step` without cancellation or expiry: at most one engine task. */
  function StepState(f: Format, script: Script, s: State): State
    requires Valid(script, s)
  {
    if Finished(s) then s
    else if !s.connected && !(script.Statements? && script.list != []) then
      s.(connected := true, answer := Some(SyncResponse(f, script)))
    else
      var list, i := script.list, s.statement;
      var left := if s.left.Some? then s.left.value else list[i].tasks;
      if left > 1 then s.(connected := true, left := Some(left - 1))
      else
        var o := list[i].outcome;
        var next := s.(connected := true, ran := s.ran + [o]);
        if o.Failure? then
          next.(left := None, answer := Some(ErrorResponse(f, FailureMessage(i, |list|, o.message))))
        else if i + 1 < |list| then next.(statement := i + 1, left := None)
        else next.(left := None, statement := i + 1, answer := Some(ResultResponse(f, o.rows)))
  }

  /** An operation in progress has a statement to work on, and its history is a prefix of the loop's. */
  ghost predicate Valid(script: Script, s: State) {
    && (!s.connected && !Finished(s) ==> s == Start)
    && (s.connected && !Finished(s) ==> script.Statements? && s.statement < |script.list| && |s.ran| == s.statement)
    && (s.left.Some? ==> s.left.value > 0)
  }

  /** (statements left, tasks left). */
  function StatementsLeft(script: Script, s: State): nat {
    if Finished(s) || !script.Statements? then 0
    else if s.statement < |script.list| then |script.list| - s.statement else 0
  }

  function TasksLeft(script: Script, s: State): nat {
    if s.left.Some? then s.left.value
    else if script.Statements? && s.statement < |script.list| then script.list[s.statement].tasks + 1 else 0
  }

  /** What the loop would still do from here is what it does from the beginning. */
  ghost predicate OnTrack(f: Format, script: Script, s: State) {
    && Valid(script, s)
    && (Finished(s) ==> s.answer.value == SyncResponse(f, script) && s.ran == SyncRan(f, script))
    && (s.connected && !Finished(s) ==>
          RunFrom(f, script.list, s.statement, s.ran) == RunFrom(f, script.list, 0, []))
  }

  lemma StepStaysOnTrack(f: Format, script: Script, s: State)
    requires OnTrack(f, script, s)
    ensures OnTrack(f, script, StepState(f, script, s))
  {
  }

  /** Every step that does not finish lowers the pair (statements left, tasks left). */
  lemma StepMakesProgress(f: Format, script: Script, s: State)
    requires Valid(script, s) && !Finished(s)
    ensures var t := StepState(f, script, s);
      || Finished(t)
      || StatementsLeft(script, t) < StatementsLeft(script, s)
      || (StatementsLeft(script, t) == StatementsLeft(script, s) && TasksLeft(script, t) < TasksLeft(script, s))
  {
  }

  // ---------------------------------------------------------------- the operation object

  class Operation {
    const f: Format
    const script: Script
    var connected: bool
    var statement: nat
    var left: Option<nat>
    var answer: Option<Response>
    ghost var ran: seq<Outcome>

    ghost function View(): State
      reads this
    {
      State(connected, statement, left, ran, answer)
    }

    constructor (f: Format, script: Script)
      ensures this.f == f && this.script == script && View() == Start
    {
      this.f, this.script := f, script;
      connected, statement, left, answer, ran := false, 0, None, None, [];
    }

    method Finish(response: Response) returns (finished: bool)
      modifies this`answer
      ensures finished && answer == Some(response)
    {
      answer := Some(response);
      return true;
    }

    method Step() returns (finished: bool)
      requires Valid(script, View())
      modifies this
      ensures View() == StepState(f, script, old(View())) && finished == Finished(View())
    {
      if answer.Some? { return true; }
      if !connected {
        connected := true;
        if script.HasNul? {
          finished := Finish(ErrorResponse(f, NulMessage));
          return;
        }
        if script.Unparsable? {
          finished := Finish(ErrorResponse(f, script.message));
          return;
        }
        if script.list == [] {
          finished := Finish(ErrorResponse(f, EmptyMessage));
          return;
        }
      }
      var tasks := if left.Some? then left.value else script.list[statement].tasks;
      if tasks > 1 {
        left := Some(tasks - 1);
        return false;
      }
      var o := script.list[statement].outcome;
      ran := ran + [o];
      left := None;
      if o.Failure? {
        finished := Finish(ErrorResponse(f, FailureMessage(statement, |script.list|, o.message)));
        return;
      }
      statement := statement + 1;
      if statement < |script.list| { return false; }
      finished := Finish(ResultResponse(f, o.rows));
    }

    /** The scheduler's part: step until the operation says it is finished. */
    method Drive() returns (response: Response)
      requires View() == Start
      modifies this
      ensures Finished(View()) && answer == Some(response)
      ensures response == SyncResponse(f, script) && ran == SyncRan(f, script)
    {
      var finished := false;
      while !finished
        invariant OnTrack(f, script, View()) && finished == Finished(View())
        decreases !finished, StatementsLeft(script, View()), TasksLeft(script, View())
      {
        StepStaysOnTrack(f, script, View());
        StepMakesProgress(f, script, View());
        finished := Step();
      }
      response := answer.value;
    }
  }

  // ---------------------------------------------------------------- the two forms compared

  /** Statement i is the first that fails. */
  predicate FailsFirstAt(list: seq<Statement>, i: int) {
    0 <= i < |list| && list[i].outcome.Failure? && forall k | 0 <= k < i :: list[k].outcome.Result?
  }

  predicate ErrorFits(f: Format, message: string) {
    |f.error(message)| <= f.maxBytes
  }

  /** The error that a script ends in, if it does, fits the limit once formatted; and if it ends in typed rows over the
      limit, the limit has room for saying so. */
  ghost predicate AnswerFits(f: Format, s: Script) {
    match s
    case HasNul => ErrorFits(f, NulMessage)
    case Unparsable(message) => ErrorFits(f, message)
    case Statements(list) =>
      && (list == [] ==> ErrorFits(f, EmptyMessage))
      && (forall i | FailsFirstAt(list, i) :: ErrorFits(f, FailureMessage(i, |list|, list[i].outcome.message)))
      && (list != [] && (forall i | 0 <= i < |list| :: list[i].outcome.Result?) ==>
            f.encode(list[|list| - 1].outcome.rows).TypedRowsTooLarge? ==> |RowsTooLarge.body| <= f.maxBytes)
  }

  /** The loop's outcome by index: the first failure, or the last result. */
  lemma OutcomeIs(f: Format, list: seq<Statement>)
    requires list != []
    ensures var o := RunFrom(f, list, 0, []).outcome;
      && (o.Result? <==> forall i | 0 <= i < |list| :: list[i].outcome.Result?)
      && (o.Result? ==> o == list[|list| - 1].outcome)
      && (forall i | FailsFirstAt(list, i) :: o == Failure(FailureMessage(i, |list|, list[i].outcome.message)))
      && (o.Failure? ==> exists i :: FailsFirstAt(list, i))
  {
    LoopStopsAtFirstFailure(f, list, 0, []);
    var r := RunFrom(f, list, 0, []);
    var last := |r.ran| - 1;
    assert r.outcome.Failure? ==> FailsFirstAt(list, last);
    forall i | FailsFirstAt(list, i) ensures r.outcome.Failure? && i == last {
    }
  }

  /** The answer in so many words: a 422 with the message of what went wrong, in which a statement is counted from one if
      there are several; the encoded result; or a 507. */
  lemma ResponseIs(f: Format, s: Script)
    ensures var r := SyncResponse(f, s);
      && (s.HasNul? ==> r == Response(422, f.error("SQL text must not contain null bytes")))
      && (s.Unparsable? ==> r == Response(422, f.error(s.message)))
      && (s.Statements? && s.list == [] ==> r == Response(422, f.error("No statement to execute")))
      && (s.Statements? ==> forall i | FailsFirstAt(s.list, i) ::
            r == Response(422, f.error(
              if |s.list| == 1 then s.list[i].outcome.message
              else "Statement " + Decimal(i + 1) + " of " + Decimal(|s.list|) + " failed: " + s.list[i].outcome.message)))
      && (s.Statements? && s.list != [] && (forall i | 0 <= i < |s.list| :: s.list[i].outcome.Result?) ==>
            match f.encode(s.list[|s.list| - 1].outcome.rows)
            case TypedRowsTooLarge => r == Response(507, "{\"detail\":\"Native typed rows exceed configured byte limit\"}")
            case Encoded(e) =>
              && (|e.body| <= f.maxBytes ==> r == e)
              && (|e.body| > f.maxBytes ==> r == Response(507, "{\"detail\":\"Response exceeds configured byte limit\"}")))
  {
    if s.Statements? && s.list != [] { OutcomeIs(f, s.list); }
  }

  /** A task's answer, which has no size check after the formatter, is the inline answer exactly when what the script
      comes to fits. */
  lemma SameResponseIff(f: Format, s: Script)
    ensures SyncResponse(f, s) == ExecSql(f, s) <==> AnswerFits(f, s)
  {
    if s.Statements? && s.list != [] {
      OutcomeIs(f, s.list);
      var r := RunFrom(f, s.list, 0, []).outcome;
      if r.Failure? {
        var i :| FailsFirstAt(s.list, i);
        assert SyncResponse(f, s) == ErrorResponse(f, FailureMessage(i, |s.list|, s.list[i].outcome.message));
      }
    }
  }

  /** With a limit of ten bytes, an empty script is a 422 from a task and a 507 inline; and a script that succeeds with
      typed rows over the limit is told so by a task only. */
  lemma LongErrorDiffers(f: Format, rows: string)
    requires |f.error(EmptyMessage)| > 10 && f.maxBytes == 10 && f.encode(rows).TypedRowsTooLarge?
    ensures SyncResponse(f, Statements([])).status == 422 && ExecSql(f, Statements([])).status == 507
    ensures var s := Statements([Statement(1, Result(rows))]);
      SyncResponse(f, s) == RowsTooLarge && ExecSql(f, s) == TooLarge && RowsTooLarge != TooLarge
  {
    assert |RowsTooLarge.body| > 10;
    assert |RowsTooLarge.body| != |TooLarge.body|;
  }

  /** The loop runs the statements in order and stops after the first failure: what ran is a prefix of the
      outcomes, all but its last are results, and the reported message names the failing statement. */
  lemma {:induction false} LoopStopsAtFirstFailure(f: Format, list: seq<Statement>, i: nat, ran: seq<Outcome>)
    requires i < |list| && |ran| == i
    requires forall k | 0 <= k < i :: ran[k] == list[k].outcome && ran[k].Result?
    ensures var r := RunFrom(f, list, i, ran);
      && i < |r.ran| <= |list|
      && (forall k | 0 <= k < |r.ran| :: r.ran[k] == list[k].outcome)
      && (forall k | 0 <= k < |r.ran| - 1 :: r.ran[k].Result?)
      && (r.outcome.Result? ==> |r.ran| == |list| && r.outcome == list[|list| - 1].outcome)
      && (r.outcome.Failure? ==>
            var last := list[|r.ran| - 1].outcome;
            last.Failure? && r.outcome.message == FailureMessage(|r.ran| - 1, |list|, last.message))
    decreases |list| - i
  {
    var o := list[i].outcome;
    if o.Result? && i + 1 < |list| {
      LoopStopsAtFirstFailure(f, list, i + 1, ran + [o]);
    }
  }
}

/**
 * The action's entry point `run()`: input validation, the choice between the
 * single-check, dispatch-only and full modes, the poll loop, and the outputs.
 * The HTTP calls, the clock and the CI host are oracles (see module Host).
 */
module Main {
  import opened Wrappers
  import opened JsText
  import opened Models
  import opened Host
  import opened Dispatch

  const UsernameRequired := "Username is required"
  const TokenRequired := "Token is required"
  const DispatchFailed := "Error dispatching workflow"

  /** The inputs of the action, as `core.getInput` hands them over. */
  datatype Inputs = Inputs(username: string, token: string, dispatch_only: string, single_check: string)

  /** How an API call came back to its caller: with the parsed body, or by throwing. */
  datatype Reply = Parsed(body: Body) | Raised(reason: string)

  /** What an API call recorded, and how it came back. */
  datatype Call = Call(events: seq<Event>, reply: Reply)

  /**
   * `CallApi`: one request; an error envelope is reported as a failure but the
   * call still returns the envelope, cast to a snapshot; an exception propagates.
   */
  function CallApi(action: string, payload: Option<DispatchRequest>, token: string, outcome: Outcome): Call {
    var request := [Request(action, token, payload)];
    match outcome
    case Throw(reason) => Call(request, Raised(reason))
    case Envelope(message) => Call(request + [Failed("Failed to call API " + action + ": " + message)], Parsed(ErrorBody(message)))
    case Ok(snapshot) => Call(request, Parsed(Snapshot(snapshot)))
  }

  /** The failure `CallApi` records for `action` when the answer is an error envelope. */
  function EnvelopeFailures(action: string, outcome: Outcome): seq<string> {
    if outcome.Envelope? then ["Failed to call API " + action + ": " + outcome.message] else []
  }

  /**
   * Every call sends exactly its one request and sets no output; it throws
   * exactly when the transport throws, and otherwise hands back the body; only
   * an error envelope records a failure, which names the action and the message.
   */
  lemma CallApiRecords(action: string, payload: Option<DispatchRequest>, token: string, outcome: Outcome)
    ensures var c := CallApi(action, payload, token, outcome);
            && Requests(c.events) == [Request(action, token, payload)]
            && NoOutputs(c.events)
            && (c.reply.Raised? <==> outcome.Throw?)
            && (outcome.Throw? ==> c.reply.reason == outcome.reason)
            && (!outcome.Throw? ==> c.reply == Parsed(BodyOf(outcome)))
            && Failures(c.events) == EnvelopeFailures(action, outcome)
  {
    var c := CallApi(action, payload, token, outcome);
    assert Requests(c.events[1..]) == [];
    assert Failures(c.events[..1]) == [];
  }

  /** `DispatchWorkflow`: the start request for the ref name, sent to `dispatch/<username>`. */
  function DispatchWorkflow(username: string, token: string, refName: string, timestamp: string, outcome: Outcome): Call
  {
    CallApi(DispatchAction(username), Some(StartRequest(refName, timestamp)), token, outcome)
  }

  /** `CheckWorkflow`: a bodiless request to `check/<username>/<id>`. */
  function CheckWorkflow(username: string, token: string, id: string, outcome: Outcome): Call
  {
    CallApi(CheckAction(username, id), None, token, outcome)
  }

  /** The `signed_artifacts` output of a completed job: set only when it has at least one asset. */
  function SignedArtifacts(b: Body): Option<Value> {
    var assets := ReleaseAssets(b);
    if assets.Some? && |assets.value| > 0 then Some(AssetsJson(assets.value)) else None
  }

  /** The outputs set once a job is seen completed. */
  function CompletionOutputs(b: Body): seq<Event> {
    var signed := SignedArtifacts(b);
    (if signed.Some? then [Output("signed_artifacts", signed.value)] else []) + [Output("finished", Flag(true))]
  }

  /**
   * A completed job sets `finished` to true and `signed_artifacts` to its
   * assets exactly when it has some, and sends nothing, fails nothing.
   */
  lemma CompletionOutputsSet(b: Body)
    ensures var r := CompletionOutputs(b);
            && Requests(r) == [] && Failures(r) == []
            && LastOutput(r, "finished") == Some(Flag(true))
            && LastOutput(r, "signed_artifacts") == SignedArtifacts(b)
            && LastOutput(r, "workflow_id") == None
  {
    var r := CompletionOutputs(b);
    var finished := Output("finished", Flag(true));
    if SignedArtifacts(b).Some? {
      var signed := Output("signed_artifacts", SignedArtifacts(b).value);
      assert r == [signed, finished];
      assert r[1..] == [finished] && [finished][1..] == [];
      assert r[..1] == [signed] && [signed][..0] == [];
      assert LastOutput(r, "signed_artifacts") == LastOutput([signed], "signed_artifacts");
    } else {
      assert r == [finished];
      assert r[1..] == [] && r[..0] == [];
    }
  }

  /**
   * The status note of one poll: only when `last_status` differs from the
   * remembered string. A missing status never equals it, not even the "" it
   * is remembered as, so it is noted on every pass.
   */
  function StatusChange(lastStatus: string, b: Body): seq<Event> {
    if Some(lastStatus) != LastStatus(b) then [StatusNote(LastStatus(b))] else []
  }

  /** `last_status || ""`, the status remembered for the next poll. */
  function NextLastStatus(b: Body): string {
    LastStatus(b).GetOr("")
  }

  /**
   * A status seen again is not noted again, except a missing status: it is
   * remembered as "", which never equals `undefined`, so it is noted every time.
   */
  lemma RepeatedStatusNotedOnlyWhenMissing(b: Body)
    ensures StatusChange(NextLastStatus(b), b) == [] <==> LastStatus(b).Some?
  {
  }

  /**
   * One pass of the poll loop's body: sleep, check the job `data` names, and
   * note the status if it changed. A check that throws ends the pass there.
   */
  function PollRound(username: string, token: string, data: Body, lastStatus: string, outcome: Outcome): Call {
    var call := CheckWorkflow(username, token, IdText(data), outcome);
    var noted := if call.reply.Parsed? then StatusChange(lastStatus, call.reply.body) else [];
    Call([Sleep(PollInterval)] + call.events + noted, call.reply)
  }

  /**
   * The poll loop from the state (`data`, `lastStatus`), the deadline guard
   * reading `clock[j]` and the check being answered by `replies[j]`.
   */
  function PollSpec(username: string, token: string, data: Body, lastStatus: string,
                    start: int, clock: seq<int>, replies: seq<Outcome>, j: nat): Trace
    requires j < |clock| && Deadline(start, clock) && |replies| + 1 >= |clock|
    decreases |clock| - j
  {
    if clock[j] - start >= Timeout then Trace([Failed(TimeoutMessage)], Returned(None))
    else
      var round := PollRound(username, token, data, lastStatus, replies[j]);
      match round.reply
      case Raised(reason) => Trace(round.events, Rejected(reason))
      case Parsed(b) =>
        if Completed(b) then Trace(round.events + CompletionOutputs(b), Returned(Some(true)))
        else Prepend(round.events, PollSpec(username, token, b, NextLastStatus(b), start, clock, replies, j + 1))
  }

  /** A pass of the poll loop whose check throws ends the trace that is still to come. */
  lemma PollRaises(events: seq<Event>, username: string, token: string, data: Body, lastStatus: string,
                   start: int, clock: seq<int>, replies: seq<Outcome>, j: nat, step: seq<Event>, reason: string)
    requires j < |clock| && Deadline(start, clock) && |replies| + 1 >= |clock|
    requires clock[j] - start < Timeout
    requires Call(step, Raised(reason)) == PollRound(username, token, data, lastStatus, replies[j])
    ensures Prepend(events, PollSpec(username, token, data, lastStatus, start, clock, replies, j))
         == Trace(events + step, Rejected(reason))
  {
  }

  /** A pass of the poll loop that sees the job completed leaves only the completion outputs to come. */
  lemma PollCompletes(events: seq<Event>, username: string, token: string, data: Body, lastStatus: string,
                      start: int, clock: seq<int>, replies: seq<Outcome>, j: nat, step: seq<Event>, b: Body)
    requires j < |clock| && Deadline(start, clock) && |replies| + 1 >= |clock|
    requires clock[j] - start < Timeout
    requires Call(step, Parsed(b)) == PollRound(username, token, data, lastStatus, replies[j]) && Completed(b)
    ensures Prepend(events, PollSpec(username, token, data, lastStatus, start, clock, replies, j))
         == Trace(events + step + CompletionOutputs(b), Returned(Some(true)))
  {
    assert events + (step + CompletionOutputs(b)) == events + step + CompletionOutputs(b);
  }

  /** Any other pass of the poll loop hands on to the next guard reading, from the new answer. */
  lemma PollContinues(events: seq<Event>, username: string, token: string, data: Body, lastStatus: string,
                      start: int, clock: seq<int>, replies: seq<Outcome>, j: nat, step: seq<Event>, b: Body)
    requires j < |clock| && Deadline(start, clock) && |replies| + 1 >= |clock|
    requires clock[j] - start < Timeout
    requires Call(step, Parsed(b)) == PollRound(username, token, data, lastStatus, replies[j]) && !Completed(b)
    ensures j + 1 < |clock|
    ensures Prepend(events, PollSpec(username, token, data, lastStatus, start, clock, replies, j))
         == Prepend(events + step, PollSpec(username, token, b, NextLastStatus(b), start, clock, replies, j + 1))
  {
    assert j != |clock| - 1;
    PrependPrepend(events, step, PollSpec(username, token, b, NextLastStatus(b), start, clock, replies, j + 1));
  }

  /** Once the deadline has passed, only the timeout failure is left to come. */
  lemma PollTimesOut(events: seq<Event>, username: string, token: string, data: Body, lastStatus: string,
                     start: int, clock: seq<int>, replies: seq<Outcome>, j: nat)
    requires j < |clock| && Deadline(start, clock) && |replies| + 1 >= |clock|
    requires clock[j] - start >= Timeout
    ensures Prepend(events, PollSpec(username, token, data, lastStatus, start, clock, replies, j))
         == Trace(events + [Failed(TimeoutMessage)], Returned(None))
  {
  }

  /** The outputs single-check mode sets for a job that has not finished. */
  const PendingOutputs := [Output("signed_artifacts", Text("")), Output("finished", Flag(false))]

  /** Single-check mode: one check of the given id, then the outputs. */
  function SingleCheckSpec(username: string, token: string, id: string, outcome: Outcome): Trace {
    var call := CheckWorkflow(username, token, id, outcome);
    match call.reply
    case Raised(reason) => Trace(call.events, Rejected(reason))
    case Parsed(b) =>
      if Completed(b) then Trace(call.events + CompletionOutputs(b), Returned(Some(true)))
      else Trace(call.events + PendingOutputs, Returned(Some(false)))
  }

  /** `core.getInput("dispatch_only").toLowerCase() === "true"` */
  predicate DispatchOnlyFlag(s: string) {
    LowerCase(s) == "true"
  }

  /**
   * What `run()` does, given the inputs, `github.context.ref` (`None` when it
   * is undefined), the ISO timestamp, the clock readings and the API answers.
   */
  function RunSpec(inputs: Inputs, ref: Option<string>, timestamp: string, clock: seq<int>, replies: seq<Outcome>): Trace
    requires Env(clock, replies)
  {
    var username := inputs.username;
    var token := inputs.token;
    if IsBlank(username) then Trace([Failed(UsernameRequired)], Returned(None))
    else if IsBlank(token) then Trace([Failed(TokenRequired)], Returned(None))
    else if !IsBlank(inputs.single_check) then SingleCheckSpec(username, token, inputs.single_check, replies[0])
    else DispatchSpec(username, token, DispatchOnlyFlag(inputs.dispatch_only), ref, timestamp, clock, replies)
  }

  /**
   * The dispatching modes of `run()`: resolve the ref and start a job, then
   * either report it (dispatch-only) or poll it until it completes.
   */
  function DispatchSpec(username: string, token: string, dispatchOnly: bool, ref: Option<string>,
                        timestamp: string, clock: seq<int>, replies: seq<Outcome>): Trace
    requires Env(clock, replies)
  {
    if ref.None? then Trace([Failed(DispatchFailed)], Returned(None))
    else
      var dispatch := DispatchWorkflow(username, token, ResolveRefName(ref.value), timestamp, replies[0]);
      match dispatch.reply
      case Raised(_) => Trace(dispatch.events + [Failed(DispatchFailed)], Returned(None))
      case Parsed(data) =>
        if dispatchOnly then
          Trace(dispatch.events + DispatchOnlyOutputs(data), Returned(None))
        else Prepend(dispatch.events, PollSpec(username, token, data, "", clock[0], clock, replies, 1))
  }

  /** The outputs dispatch-only mode sets for the job it started. */
  function DispatchOnlyOutputs(data: Body): seq<Event> {
    [Output("signed_artifacts", Text("")), Output("workflow_id", IdValue(data)), Output("finished", Flag(false))]
  }

  /** `${verifiedResponseData.id}` handed to `setOutput`: undefined for an envelope. */
  function IdValue(b: Body): (v: Value)
    ensures v.Text? <==> b.Snapshot?
    ensures b.Snapshot? ==> v == Text(b.status.id)
  {
    if b.Snapshot? then Text(b.status.id) else Undefined
  }

  /** `run()`, step by step. */
  method Run(inputs: Inputs, ref: Option<string>, timestamp: string, clock: seq<int>, replies: seq<Outcome>)
    returns (events: seq<Event>, result: Completion)
    requires Env(clock, replies)
    ensures Trace(events, result) == RunSpec(inputs, ref, timestamp, clock, replies)
  {
    var username := inputs.username;
    var token := inputs.token;
    var dispatchOnly := DispatchOnlyFlag(inputs.dispatch_only);
    var singleCheck := inputs.single_check;

    if IsBlank(username) {
      events, result := [Failed(UsernameRequired)], Returned(None);
      return;
    }
    if IsBlank(token) {
      events, result := [Failed(TokenRequired)], Returned(None);
      return;
    }

    if !IsBlank(singleCheck) {
      events, result := SingleCheck(username, token, singleCheck, replies[0]);
      return;
    }

    events, result := DispatchAndPoll(username, token, dispatchOnly, ref, timestamp, clock, replies);
  }

  /** The dispatching modes of `run()`, from the ref on. */
  method DispatchAndPoll(username: string, token: string, dispatchOnly: bool, ref: Option<string>,
                         timestamp: string, clock: seq<int>, replies: seq<Outcome>)
    returns (events: seq<Event>, result: Completion)
    requires Env(clock, replies)
    ensures Trace(events, result) == DispatchSpec(username, token, dispatchOnly, ref, timestamp, clock, replies)
  {
    if ref.None? {
      events, result := [Failed(DispatchFailed)], Returned(None);
      return;
    }
    var dispatch := DispatchWorkflow(username, token, ResolveRefName(ref.value), timestamp, replies[0]);
    events := dispatch.events;
    if dispatch.reply.Raised? {
      events, result := events + [Failed(DispatchFailed)], Returned(None);
      return;
    }
    var data := dispatch.reply.body;

    if dispatchOnly {
      events := events + DispatchOnlyOutputs(data);
      result := Returned(None);
      return;
    }

    var pollEvents;
    pollEvents, result := PollLoop(username, token, data, clock, replies);
    events := events + pollEvents;
  }

  /** The single-check branch of `run()`. */
  method SingleCheck(username: string, token: string, id: string, outcome: Outcome)
    returns (events: seq<Event>, result: Completion)
    ensures Trace(events, result) == SingleCheckSpec(username, token, id, outcome)
  {
    var call := CheckWorkflow(username, token, id, outcome);
    events := call.events;
    if call.reply.Raised? {
      result := Rejected(call.reply.reason);
      return;
    }
    var data := call.reply.body;
    if Completed(data) {
      events := events + CompletionOutputs(data);
      result := Returned(Some(true));
      return;
    }
    events := events + PendingOutputs;
    result := Returned(Some(false));
  }

  /** The body of the poll loop, as `PollRound` describes it. */
  method PollOnce(username: string, token: string, data: Body, lastStatus: string, outcome: Outcome)
    returns (events: seq<Event>, reply: Reply)
    ensures Call(events, reply) == PollRound(username, token, data, lastStatus, outcome)
  {
    events := [Sleep(PollInterval)];
    var call := CheckWorkflow(username, token, IdText(data), outcome);
    events := events + call.events;
    reply := call.reply;
    if reply.Parsed? && Some(lastStatus) != LastStatus(reply.body) {
      events := events + [StatusNote(LastStatus(reply.body))];
    }
  }

  /**
   * The poll loop of `run()` and what follows it, from the dispatched snapshot
   * on; `clock[0]` is the start time.
   */
  method PollLoop(username: string, token: string, dispatched: Body, clock: seq<int>, replies: seq<Outcome>)
    returns (events: seq<Event>, result: Completion)
    requires Env(clock, replies)
    ensures Trace(events, result) == PollSpec(username, token, dispatched, "", clock[0], clock, replies, 1)
  {
    var startTime := clock[0];
    var data := dispatched;
    var completed := false;
    var lastStatus := "";
    var j := 1;  // the guard reads clock[j]; check j is answered by replies[j]
    events := [];
    ghost var target := PollSpec(username, token, data, lastStatus, startTime, clock, replies, j);
    while !completed && clock[j] - startTime < Timeout
      invariant 1 <= j < |clock|
      invariant !completed
      invariant target == Prepend(events, PollSpec(username, token, data, lastStatus, startTime, clock, replies, j))
      decreases |clock| - j
    {
      var step, reply := PollOnce(username, token, data, lastStatus, replies[j]);
      if reply.Raised? {
        PollRaises(events, username, token, data, lastStatus, startTime, clock, replies, j, step, reply.reason);
        events := events + step;
        result := Rejected(reply.reason);
        return;
      }
      ghost var before, held, heldStatus := events, data, lastStatus;
      events := events + step;
      data := reply.body;
      lastStatus := NextLastStatus(data);
      completed := Completed(data);
      if completed {
        PollCompletes(before, username, token, held, heldStatus, startTime, clock, replies, j, step, data);
        break;
      }
      PollContinues(before, username, token, held, heldStatus, startTime, clock, replies, j, step, data);
      j := j + 1;
    }

    if !completed {
      PollTimesOut(events, username, token, data, lastStatus, startTime, clock, replies, j);
      events := events + [Failed(TimeoutMessage)];
      result := Returned(None);
    } else {
      events := events + CompletionOutputs(data);
      result := Returned(Some(true));
    }
  }
}

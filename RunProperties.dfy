/**
 * What `run()` is proved to do: per pass of the poll loop, over the whole
 * loop (against reference definitions computed from the clock and the
 * answers alone), and per mode of the action.
 */
module RunProperties {
  import opened Wrappers
  import opened JsText
  import opened Models
  import opened Host
  import opened Dispatch
  import opened Main
  import opened Polling

  /** A status note is neither a request, nor a failure, nor an output. */
  lemma StatusChangeRecords(lastStatus: string, b: Body)
    ensures var noted := StatusChange(lastStatus, b);
            Requests(noted) == [] && Failures(noted) == [] && NoOutputs(noted)
  {
    var noted := StatusChange(lastStatus, b);
    if noted != [] {
      assert noted[1..] == [];
    }
  }

  /**
   * One pass of the poll loop sleeps once, first, then sends exactly one
   * check, for the job `data` names, and sets no output.
   */
  lemma PollRoundRequests(username: string, token: string, data: Body, lastStatus: string, outcome: Outcome)
    ensures var round := PollRound(username, token, data, lastStatus, outcome);
            && round.events[0] == Sleep(PollInterval)
            && (forall i :: 0 < i < |round.events| ==> !round.events[i].Sleep?)
            && Requests(round.events) == [Request(CheckAction(username, IdText(data)), token, None)]
            && NoOutputs(round.events)
  {
    var call := CheckWorkflow(username, token, IdText(data), outcome);
    var sleep := [Sleep(PollInterval)];
    var noted := if call.reply.Parsed? then StatusChange(lastStatus, call.reply.body) else [];
    CallApiRecords(CheckAction(username, IdText(data)), None, token, outcome);
    if call.reply.Parsed? {
      StatusChangeRecords(lastStatus, call.reply.body);
    }
    assert Requests(sleep) == [] by {
      assert sleep[1..] == [];
    }
    RequestsAppend(sleep, call.events);
    RequestsAppend(sleep + call.events, noted);
    NoOutputsAppend(sleep, call.events);
    NoOutputsAppend(sleep + call.events, noted);
  }

  /**
   * One pass of the poll loop throws exactly when its check throws, and
   * otherwise hands on the parsed answer.
   */
  lemma PollRoundReply(username: string, token: string, data: Body, lastStatus: string, outcome: Outcome)
    ensures var round := PollRound(username, token, data, lastStatus, outcome);
            && (round.reply.Raised? <==> outcome.Throw?)
            && (outcome.Throw? ==> round.reply.reason == outcome.reason)
            && (!outcome.Throw? ==> round.reply == Parsed(BodyOf(outcome)))
  {
  }

  /** One pass of the poll loop records a failure only for an error envelope: the one `CallApi` reports. */
  lemma PollRoundFailures(username: string, token: string, data: Body, lastStatus: string, outcome: Outcome)
    ensures Failures(PollRound(username, token, data, lastStatus, outcome).events) == EnvelopeFailures(CheckAction(username, IdText(data)), outcome)
  {
    var call := CheckWorkflow(username, token, IdText(data), outcome);
    var sleep := [Sleep(PollInterval)];
    var noted := if call.reply.Parsed? then StatusChange(lastStatus, call.reply.body) else [];
    CallApiRecords(CheckAction(username, IdText(data)), None, token, outcome);
    if call.reply.Parsed? {
      StatusChangeRecords(lastStatus, call.reply.body);
    }
    assert Failures(sleep) == [] by {
      assert sleep[1..] == [];
    }
    FailuresAppend(sleep, call.events);
    FailuresAppend(sleep + call.events, noted);
  }

  /** How a poll loop stopped by `a` ends: true on a finished job, the reason on a throw, nothing on a timeout. */
  function Verdict(a: Option<Outcome>): (c: Completion)
    ensures c != Returned(Some(false))
  {
    match a
    case None => Returned(None)
    case Some(o) => if o.Throw? then Rejected(o.reason) else Returned(Some(true))
  }

  /** The poll loop ends as its stopping answer says. */
  lemma {:induction false} PollEnds(username: string, token: string, data: Body, lastStatus: string,
                                    start: int, clock: seq<int>, replies: seq<Outcome>, j: nat)
    requires j < |clock| && Deadline(start, clock) && |replies| + 1 >= |clock|
    ensures PollSpec(username, token, data, lastStatus, start, clock, replies, j).result
         == Verdict(FinalAnswer(start, clock, replies, j))
    decreases |clock| - j
  {
    if clock[j] - start < Timeout {
      PollRoundReply(username, token, data, lastStatus, replies[j]);
      if !replies[j].Throw? {
        CompletedIffFinishes(replies[j]);
        if Continues(replies[j]) {
          var b := BodyOf(replies[j]);
          PollEnds(username, token, b, NextLastStatus(b), start, clock, replies, j + 1);
        }
      }
    }
  }

  /**
   * The checks the poll loop is expected to send, from the clock and the
   * answers alone: while the guard lets it, one check for the job the
   * previous answer named, until an answer throws or reports a finished job.
   */
  function ExpectedChecks(username: string, token: string, data: Body, start: int, clock: seq<int>,
                          replies: seq<Outcome>, j: nat): seq<Event>
    requires j < |clock| && Deadline(start, clock) && |replies| + 1 >= |clock|
    decreases |clock| - j
  {
    if clock[j] - start >= Timeout then []
    else
      [Request(CheckAction(username, IdText(data)), token, None)]
      + if Continues(replies[j]) then ExpectedChecks(username, token, BodyOf(replies[j]), start, clock, replies, j + 1) else []
  }

  /** The poll loop sends exactly the expected checks, and nothing else. */
  lemma {:induction false} PollChecks(username: string, token: string, data: Body, lastStatus: string,
                                      start: int, clock: seq<int>, replies: seq<Outcome>, j: nat)
    requires j < |clock| && Deadline(start, clock) && |replies| + 1 >= |clock|
    ensures Requests(PollSpec(username, token, data, lastStatus, start, clock, replies, j).events)
         == ExpectedChecks(username, token, data, start, clock, replies, j)
    decreases |clock| - j
  {
    var r := PollSpec(username, token, data, lastStatus, start, clock, replies, j);
    if clock[j] - start >= Timeout {
      assert r.events == [Failed(TimeoutMessage)];
      assert r.events[1..] == [];
    } else {
      var round := PollRound(username, token, data, lastStatus, replies[j]);
      PollRoundRequests(username, token, data, lastStatus, replies[j]);
      PollRoundReply(username, token, data, lastStatus, replies[j]);
      if !replies[j].Throw? {
        var b := BodyOf(replies[j]);
        CompletedIffFinishes(replies[j]);
        if Continues(replies[j]) {
          var rest := PollSpec(username, token, b, NextLastStatus(b), start, clock, replies, j + 1);
          PollChecks(username, token, b, NextLastStatus(b), start, clock, replies, j + 1);
          assert r.events == round.events + rest.events;
          RequestsAppend(round.events, rest.events);
        } else {
          CompletionOutputsSet(b);
          assert r.events == round.events + CompletionOutputs(b);
          RequestsAppend(round.events, CompletionOutputs(b));
        }
      }
    }
  }

  /** One expected check per counted check, the first for the job the loop started from. */
  lemma {:induction false} ExpectedChecksCount(username: string, token: string, data: Body, start: int,
                                               clock: seq<int>, replies: seq<Outcome>, j: nat)
    requires j < |clock| && Deadline(start, clock) && |replies| + 1 >= |clock|
    ensures var q := ExpectedChecks(username, token, data, start, clock, replies, j);
            && |q| == ChecksFrom(start, clock, replies, j)
            && (|q| > 0 ==> q[0] == Request(CheckAction(username, IdText(data)), token, None))
    decreases |clock| - j
  {
    if clock[j] - start < Timeout && Continues(replies[j]) {
      ExpectedChecksCount(username, token, BodyOf(replies[j]), start, clock, replies, j + 1);
    }
  }

  /** More than one expected check: the first answer passed the guard and let the loop go on. */
  lemma ExpectedChecksSplit(username: string, token: string, data: Body, start: int,
                            clock: seq<int>, replies: seq<Outcome>, j: nat)
    requires j < |clock| && Deadline(start, clock) && |replies| + 1 >= |clock|
    requires 1 < |ExpectedChecks(username, token, data, start, clock, replies, j)|
    ensures clock[j] - start < Timeout && Continues(replies[j])
    ensures ExpectedChecks(username, token, data, start, clock, replies, j)
         == [Request(CheckAction(username, IdText(data)), token, None)]
            + ExpectedChecks(username, token, BodyOf(replies[j]), start, clock, replies, j + 1)
  {
  }

  /** The second expected check is for the id the first answer carried. */
  lemma ExpectedSecondCheck(username: string, token: string, data: Body, start: int,
                            clock: seq<int>, replies: seq<Outcome>, j: nat)
    requires j < |clock| && Deadline(start, clock) && |replies| + 1 >= |clock|
    requires 1 < |ExpectedChecks(username, token, data, start, clock, replies, j)|
    ensures j < |replies| && Continues(replies[j])
    ensures ExpectedChecks(username, token, data, start, clock, replies, j)[1]
         == Request(CheckAction(username, IdText(BodyOf(replies[j]))), token, None)
  {
    ExpectedChecksSplit(username, token, data, start, clock, replies, j);
    ExpectedChecksCount(username, token, BodyOf(replies[j]), start, clock, replies, j + 1);
  }

  /**
   * Expected check `k`, after the first, is for the id that answer `k - 1`
   * carried ("undefined" after an error envelope), and that answer neither
   * threw nor reported a finished job.
   */
  lemma {:induction false} ExpectedCheckAt(username: string, token: string, data: Body, start: int,
                                           clock: seq<int>, replies: seq<Outcome>, j: nat, k: nat)
    requires j < |clock| && Deadline(start, clock) && |replies| + 1 >= |clock|
    requires 0 < k < |ExpectedChecks(username, token, data, start, clock, replies, j)|
    ensures j + k - 1 < |replies| && Continues(replies[j + k - 1])
    ensures ExpectedChecks(username, token, data, start, clock, replies, j)[k]
         == Request(CheckAction(username, IdText(BodyOf(replies[j + k - 1]))), token, None)
    decreases k
  {
    if k == 1 {
      ExpectedSecondCheck(username, token, data, start, clock, replies, j);
    } else {
      ExpectedChecksSplit(username, token, data, start, clock, replies, j);
      var b := BodyOf(replies[j]);
      var later := ExpectedChecks(username, token, b, start, clock, replies, j + 1);
      assert ExpectedChecks(username, token, data, start, clock, replies, j)[k] == later[k - 1];
      ExpectedCheckAt(username, token, b, start, clock, replies, j + 1, k - 1);
      assert j + 1 + (k - 1) - 1 == j + k - 1;
    }
  }

  /**
   * All expected checks at once: one per counted check; the answers to all
   * but the last neither threw nor reported a finished job; and every check
   * after the first is for the id the answer before it carried.
   */
  lemma ExpectedChecksChain(username: string, token: string, data: Body, start: int,
                            clock: seq<int>, replies: seq<Outcome>, j: nat)
    requires j < |clock| && Deadline(start, clock) && |replies| + 1 >= |clock|
    ensures |ExpectedChecks(username, token, data, start, clock, replies, j)| == ChecksFrom(start, clock, replies, j)
    ensures var n := ChecksFrom(start, clock, replies, j);
            forall i :: j <= i < j + n - 1 ==> Continues(replies[i])
    ensures var q := ExpectedChecks(username, token, data, start, clock, replies, j);
            forall k :: 0 < k < |q| ==> q[k] == Request(CheckAction(username, IdText(BodyOf(replies[j + k - 1]))), token, None)
  {
    ExpectedChecksCount(username, token, data, start, clock, replies, j);
    var q := ExpectedChecks(username, token, data, start, clock, replies, j);
    forall i | j <= i < j + |q| - 1
      ensures Continues(replies[i])
    {
      ExpectedCheckAt(username, token, data, start, clock, replies, j, i - j + 1);
    }
    forall k | 0 < k < |q|
      ensures q[k] == Request(CheckAction(username, IdText(BodyOf(replies[j + k - 1]))), token, None)
    {
      ExpectedCheckAt(username, token, data, start, clock, replies, j, k);
    }
  }

  /**
   * The outputs the poll loop sets: those of a completed job when an answer
   * reports one, and none when it ends by a throw or by the deadline.
   */
  function StopOutputs(a: Option<Outcome>): seq<Event> {
    if a.Some? && Finishes(a.value) then CompletionOutputs(BodyOf(a.value)) else []
  }

  /** Every output the poll loop leaves set is one its stopping answer accounts for. */
  lemma {:induction false} PollOutputs(username: string, token: string, data: Body, lastStatus: string,
                                       start: int, clock: seq<int>, replies: seq<Outcome>, j: nat, name: string)
    requires j < |clock| && Deadline(start, clock) && |replies| + 1 >= |clock|
    ensures LastOutput(PollSpec(username, token, data, lastStatus, start, clock, replies, j).events, name)
         == LastOutput(StopOutputs(FinalAnswer(start, clock, replies, j)), name)
    decreases |clock| - j
  {
    var r := PollSpec(username, token, data, lastStatus, start, clock, replies, j);
    if clock[j] - start >= Timeout {
      assert NoOutputs(r.events);
    } else {
      var round := PollRound(username, token, data, lastStatus, replies[j]);
      PollRoundRequests(username, token, data, lastStatus, replies[j]);
      PollRoundReply(username, token, data, lastStatus, replies[j]);
      if !replies[j].Throw? {
        var b := BodyOf(replies[j]);
        CompletedIffFinishes(replies[j]);
        if Continues(replies[j]) {
          var rest := PollSpec(username, token, b, NextLastStatus(b), start, clock, replies, j + 1);
          PollOutputs(username, token, b, NextLastStatus(b), start, clock, replies, j + 1, name);
          assert r.events == round.events + rest.events;
          LastOutputAppend(round.events, rest.events, name);
        } else {
          assert r.events == round.events + CompletionOutputs(b);
          LastOutputAppend(round.events, CompletionOutputs(b), name);
        }
      }
    }
  }

  /**
   * The failures the poll loop is expected to record: one per error envelope
   * among the answers it reads, and the timeout message when the deadline
   * stops it.
   */
  function ExpectedFailures(username: string, data: Body, start: int, clock: seq<int>,
                            replies: seq<Outcome>, j: nat): seq<string>
    requires j < |clock| && Deadline(start, clock) && |replies| + 1 >= |clock|
    decreases |clock| - j
  {
    if clock[j] - start >= Timeout then [TimeoutMessage]
    else
      EnvelopeFailures(CheckAction(username, IdText(data)), replies[j])
      + if Continues(replies[j]) then ExpectedFailures(username, BodyOf(replies[j]), start, clock, replies, j + 1) else []
  }

  /** The poll loop records exactly the expected failures. */
  lemma {:induction false} PollFailures(username: string, token: string, data: Body, lastStatus: string,
                                        start: int, clock: seq<int>, replies: seq<Outcome>, j: nat)
    requires j < |clock| && Deadline(start, clock) && |replies| + 1 >= |clock|
    ensures Failures(PollSpec(username, token, data, lastStatus, start, clock, replies, j).events)
         == ExpectedFailures(username, data, start, clock, replies, j)
    decreases |clock| - j
  {
    var r := PollSpec(username, token, data, lastStatus, start, clock, replies, j);
    if clock[j] - start >= Timeout {
      assert r.events == [Failed(TimeoutMessage)];
      assert r.events[1..] == [];
    } else {
      var round := PollRound(username, token, data, lastStatus, replies[j]);
      PollRoundFailures(username, token, data, lastStatus, replies[j]);
      PollRoundReply(username, token, data, lastStatus, replies[j]);
      if !replies[j].Throw? {
        var b := BodyOf(replies[j]);
        CompletedIffFinishes(replies[j]);
        if Continues(replies[j]) {
          var rest := PollSpec(username, token, b, NextLastStatus(b), start, clock, replies, j + 1);
          PollFailures(username, token, b, NextLastStatus(b), start, clock, replies, j + 1);
          assert r.events == round.events + rest.events;
          FailuresAppend(round.events, rest.events);
        } else {
          CompletionOutputsSet(b);
          assert r.events == round.events + CompletionOutputs(b);
          FailuresAppend(round.events, CompletionOutputs(b));
        }
      }
    }
  }

  /** An envelope's failure never reads as the timeout message. */
  lemma CheckFailureIsNotTimeout(username: string, data: Body, outcome: Outcome)
    ensures TimeoutMessage !in EnvelopeFailures(CheckAction(username, IdText(data)), outcome)
  {
    if outcome.Envelope? {
      var prefix := "Failed to call API ";
      var m := prefix + CheckAction(username, IdText(data)) + ": " + outcome.message;
      assert EnvelopeFailures(CheckAction(username, IdText(data)), outcome) == [m];
      assert m[0] == prefix[0] == 'F';
      assert TimeoutMessage == "Workflow did not complete " + "within the timeout period.";
      assert TimeoutMessage[0] == 'W';
    }
  }

  /** The timeout message is recorded exactly when no answer stopped the loop before the deadline. */
  lemma {:induction false} TimeoutReportedIffNoStop(username: string, data: Body, start: int, clock: seq<int>,
                                                    replies: seq<Outcome>, j: nat)
    requires j < |clock| && Deadline(start, clock) && |replies| + 1 >= |clock|
    ensures TimeoutMessage in ExpectedFailures(username, data, start, clock, replies, j)
        <==> FinalAnswer(start, clock, replies, j).None?
    decreases |clock| - j
  {
    if clock[j] - start < Timeout {
      CheckFailureIsNotTimeout(username, data, replies[j]);
      if Continues(replies[j]) {
        TimeoutReportedIffNoStop(username, BodyOf(replies[j]), start, clock, replies, j + 1);
      }
    }
  }

  /** A pending job in single-check mode: `finished` false, `signed_artifacts` empty, nothing sent or failed. */
  lemma PendingOutputsSet()
    ensures && Requests(PendingOutputs) == [] && Failures(PendingOutputs) == []
            && LastOutput(PendingOutputs, "finished") == Some(Flag(false))
            && LastOutput(PendingOutputs, "signed_artifacts") == Some(Text(""))
            && LastOutput(PendingOutputs, "workflow_id") == None
  {
    var signed := Output("signed_artifacts", Text(""));
    var finished := Output("finished", Flag(false));
    assert PendingOutputs[1..] == [finished] && [finished][1..] == [];
    assert PendingOutputs[..1] == [signed] && [signed][..0] == [];
  }

  /** Dispatch-only mode reports the job's id, `finished` false and empty `signed_artifacts`, and sends nothing more. */
  lemma DispatchOnlyOutputsSet(data: Body)
    ensures var r := DispatchOnlyOutputs(data);
            && Requests(r) == [] && Failures(r) == []
            && LastOutput(r, "finished") == Some(Flag(false))
            && LastOutput(r, "signed_artifacts") == Some(Text(""))
            && LastOutput(r, "workflow_id") == Some(IdValue(data))
  {
    var r := DispatchOnlyOutputs(data);
    var signed := Output("signed_artifacts", Text(""));
    var id := Output("workflow_id", IdValue(data));
    var finished := Output("finished", Flag(false));
    var idThenFinished := [id, finished];
    var signedThenId := [signed, id];
    assert r[1..] == idThenFinished && idThenFinished[1..] == [finished] && [finished][1..] == [];
    assert r[..2] == signedThenId && signedThenId[..1] == [signed] && [signed][..0] == [];
    assert Requests(idThenFinished) == [] && Failures(idThenFinished) == [];
    assert LastOutput(signedThenId, "signed_artifacts") == Some(Text(""));
  }

  /** The single check: its one request, its failure, how it ends, and the outputs it leaves. */
  lemma SingleCheckOutcome(username: string, token: string, id: string, o: Outcome)
    ensures var r := SingleCheckSpec(username, token, id, o);
            && Requests(r.events) == [Request(CheckAction(username, id), token, None)]
            && Failures(r.events) == EnvelopeFailures(CheckAction(username, id), o)
            && r.result == (if o.Throw? then Rejected(o.reason) else Returned(Some(Finishes(o))))
            && LastOutput(r.events, "finished") == (if o.Throw? then None else Some(Flag(Finishes(o))))
            && LastOutput(r.events, "signed_artifacts")
               == (if o.Throw? then None else if Finishes(o) then SignedArtifacts(BodyOf(o)) else Some(Text("")))
            && LastOutput(r.events, "workflow_id") == None
  {
    var call := CheckWorkflow(username, token, id, o);
    CallApiRecords(CheckAction(username, id), None, token, o);
    if !o.Throw? {
      CompletedIffFinishes(o);
      var tail := if Finishes(o) then CompletionOutputs(BodyOf(o)) else PendingOutputs;
      if Finishes(o) {
        CompletionOutputsSet(BodyOf(o));
      } else {
        PendingOutputsSet();
      }
      RequestsAppend(call.events, tail);
      FailuresAppend(call.events, tail);
      LastOutputAppend(call.events, tail, "finished");
      LastOutputAppend(call.events, tail, "signed_artifacts");
      LastOutputAppend(call.events, tail, "workflow_id");
    }
  }

  /** A blank username: `run()` records that it is required, and does nothing else. */
  lemma UsernameRequiredFirst(inputs: Inputs, ref: Option<string>, timestamp: string, clock: seq<int>, replies: seq<Outcome>)
    requires Env(clock, replies)
    requires IsBlank(inputs.username)
    ensures var r := RunSpec(inputs, ref, timestamp, clock, replies);
            && Requests(r.events) == [] && NoOutputs(r.events)
            && Failures(r.events) == [UsernameRequired]
            && r.result == Returned(None)
  {
    var failed := [Failed(UsernameRequired)];
    assert RunSpec(inputs, ref, timestamp, clock, replies) == Trace(failed, Returned(None));
    assert failed[1..] == [];
  }

  /** A username but a blank token: `run()` records that the token is required, and does nothing else. */
  lemma TokenRequiredNext(inputs: Inputs, ref: Option<string>, timestamp: string, clock: seq<int>, replies: seq<Outcome>)
    requires Env(clock, replies)
    requires !IsBlank(inputs.username) && IsBlank(inputs.token)
    ensures var r := RunSpec(inputs, ref, timestamp, clock, replies);
            && Requests(r.events) == [] && NoOutputs(r.events)
            && Failures(r.events) == [TokenRequired]
            && r.result == Returned(None)
  {
    var failed := [Failed(TokenRequired)];
    assert RunSpec(inputs, ref, timestamp, clock, replies) == Trace(failed, Returned(None));
    assert failed[1..] == [];
  }

  /**
   * Single-check mode, when both credentials are given: one check of the
   * given id, answered by the first reply.
   */
  lemma SingleCheckMode(inputs: Inputs, ref: Option<string>, timestamp: string, clock: seq<int>, replies: seq<Outcome>)
    requires Env(clock, replies)
    requires !IsBlank(inputs.username) && !IsBlank(inputs.token) && !IsBlank(inputs.single_check)
    ensures var r := RunSpec(inputs, ref, timestamp, clock, replies);
            var o := replies[0];
            && Requests(r.events) == [Request(CheckAction(inputs.username, inputs.single_check), inputs.token, None)]
            && Failures(r.events) == EnvelopeFailures(CheckAction(inputs.username, inputs.single_check), o)
            && r.result == (if o.Throw? then Rejected(o.reason) else Returned(Some(Finishes(o))))
            && LastOutput(r.events, "finished") == (if o.Throw? then None else Some(Flag(Finishes(o))))
            && LastOutput(r.events, "signed_artifacts")
               == (if o.Throw? then None else if Finishes(o) then SignedArtifacts(BodyOf(o)) else Some(Text("")))
            && LastOutput(r.events, "workflow_id") == None
  {
    SingleCheckOutcome(inputs.username, inputs.token, inputs.single_check, replies[0]);
  }

  /**
   * `single_check` wins over `dispatch_only`, and single-check mode reads
   * neither the ref, nor the timestamp, nor the clock, nor any reply but the first.
   */
  lemma SingleCheckIgnoresTheRest(inputs: Inputs, ref: Option<string>, timestamp: string, clock: seq<int>, replies: seq<Outcome>,
                                  dispatchOnly: string, ref': Option<string>, timestamp': string, clock': seq<int>, replies': seq<Outcome>)
    requires Env(clock, replies) && Env(clock', replies')
    requires !IsBlank(inputs.single_check) && replies'[0] == replies[0]
    ensures RunSpec(inputs, ref, timestamp, clock, replies)
         == RunSpec(inputs.(dispatch_only := dispatchOnly), ref', timestamp', clock', replies')
  {
  }

  /** A dispatch that cannot start: no ref, or a dispatch call that throws. */
  lemma DispatchSpecFailure(username: string, token: string, dispatchOnly: bool, ref: Option<string>,
                            timestamp: string, clock: seq<int>, replies: seq<Outcome>)
    requires Env(clock, replies)
    requires ref.None? || replies[0].Throw?
    ensures var r := DispatchSpec(username, token, dispatchOnly, ref, timestamp, clock, replies);
            && Requests(r.events)
               == (if ref.None? then [] else [Request(DispatchAction(username), token, Some(StartRequest(ResolveRefName(ref.value), timestamp)))])
            && Failures(r.events) == [DispatchFailed]
            && NoOutputs(r.events)
            && r.result == Returned(None)
  {
    var r := DispatchSpec(username, token, dispatchOnly, ref, timestamp, clock, replies);
    var failed := [Failed(DispatchFailed)];
    assert failed[1..] == [];
    if ref.Some? {
      var dispatch := DispatchWorkflow(username, token, ResolveRefName(ref.value), timestamp, replies[0]);
      CallApiRecords(DispatchAction(username), Some(StartRequest(ResolveRefName(ref.value), timestamp)), token, replies[0]);
      assert r.events == dispatch.events + failed;
      RequestsAppend(dispatch.events, failed);
      FailuresAppend(dispatch.events, failed);
      NoOutputsAppend(dispatch.events, failed);
    }
  }

  /** No ref, or a dispatch that throws: "Error dispatching workflow", no outputs, no check. */
  lemma DispatchFailure(inputs: Inputs, ref: Option<string>, timestamp: string, clock: seq<int>, replies: seq<Outcome>)
    requires Env(clock, replies)
    requires !IsBlank(inputs.username) && !IsBlank(inputs.token) && IsBlank(inputs.single_check)
    requires ref.None? || replies[0].Throw?
    ensures var r := RunSpec(inputs, ref, timestamp, clock, replies);
            && Requests(r.events)
               == (if ref.None? then []
                   else [Request(DispatchAction(inputs.username), inputs.token, Some(StartRequest(ResolveRefName(ref.value), timestamp)))])
            && Failures(r.events) == [DispatchFailed]
            && NoOutputs(r.events)
            && r.result == Returned(None)
  {
    DispatchSpecFailure(inputs.username, inputs.token, DispatchOnlyFlag(inputs.dispatch_only), ref, timestamp, clock, replies);
  }

  /**
   * `dispatch_only` selects dispatch-only mode exactly when it spells "true"
   * in any mix of upper and lower case.
   */
  lemma DispatchOnlyFlagIff(s: string)
    ensures DispatchOnlyFlag(s) <==> |s| == 4 && forall i :: 0 <= i < 4 ==> s[i] == "true"[i] || s[i] == "TRUE"[i]
  {
    var lower := LowerCase(s);
    if |s| == 4 && forall i :: 0 <= i < 4 ==> s[i] == "true"[i] || s[i] == "TRUE"[i] {
      forall i | 0 <= i < 4 ensures lower[i] == "true"[i] {
        assert s[i] == "true"[i] || s[i] == "TRUE"[i];
      }
      assert lower == "true";
    }
    if DispatchOnlyFlag(s) {
      forall i | 0 <= i < 4 ensures s[i] == "true"[i] || s[i] == "TRUE"[i] {
        assert AsciiLower(s[i]) == "true"[i];
      }
    }
  }

  /** Dispatch-only mode: one dispatch of the resolved ref, then the job's id, and no check. */
  lemma DispatchOnlyMode(inputs: Inputs, ref: Option<string>, timestamp: string, clock: seq<int>, replies: seq<Outcome>)
    requires Env(clock, replies)
    requires !IsBlank(inputs.username) && !IsBlank(inputs.token) && IsBlank(inputs.single_check)
    requires DispatchOnlyFlag(inputs.dispatch_only) && ref.Some? && !replies[0].Throw?
    ensures var r := RunSpec(inputs, ref, timestamp, clock, replies);
            && Requests(r.events)
               == [Request(DispatchAction(inputs.username), inputs.token, Some(StartRequest(ResolveRefName(ref.value), timestamp)))]
            && Failures(r.events) == EnvelopeFailures(DispatchAction(inputs.username), replies[0])
            && LastOutput(r.events, "workflow_id") == Some(if replies[0].Ok? then Text(replies[0].snapshot.id) else Undefined)
            && LastOutput(r.events, "finished") == Some(Flag(false))
            && LastOutput(r.events, "signed_artifacts") == Some(Text(""))
            && r.result == Returned(None)
  {
    var dispatch := DispatchWorkflow(inputs.username, inputs.token, ResolveRefName(ref.value), timestamp, replies[0]);
    CallApiRecords(DispatchAction(inputs.username), Some(StartRequest(ResolveRefName(ref.value), timestamp)), inputs.token, replies[0]);
    var tail := DispatchOnlyOutputs(BodyOf(replies[0]));
    DispatchOnlyOutputsSet(BodyOf(replies[0]));
    RequestsAppend(dispatch.events, tail);
    FailuresAppend(dispatch.events, tail);
    LastOutputAppend(dispatch.events, tail, "workflow_id");
    LastOutputAppend(dispatch.events, tail, "finished");
    LastOutputAppend(dispatch.events, tail, "signed_artifacts");
  }

  /** The trace of full mode: the dispatch, then the poll loop from the dispatched job. */
  lemma FullModeTrace(inputs: Inputs, ref: Option<string>, timestamp: string, clock: seq<int>, replies: seq<Outcome>)
    requires Env(clock, replies)
    requires !IsBlank(inputs.username) && !IsBlank(inputs.token) && IsBlank(inputs.single_check)
    requires !DispatchOnlyFlag(inputs.dispatch_only) && ref.Some? && !replies[0].Throw?
    ensures var r := RunSpec(inputs, ref, timestamp, clock, replies);
            var dispatch := DispatchWorkflow(inputs.username, inputs.token, ResolveRefName(ref.value), timestamp, replies[0]);
            var poll := PollSpec(inputs.username, inputs.token, BodyOf(replies[0]), "", clock[0], clock, replies, 1);
            r.events == dispatch.events + poll.events && r.result == poll.result
  {
  }

  /**
   * Full mode sends the dispatch of the resolved ref and then exactly the
   * expected checks, the first for the dispatched job's id.
   */
  lemma FullModeRequests(inputs: Inputs, ref: Option<string>, timestamp: string, clock: seq<int>, replies: seq<Outcome>)
    requires Env(clock, replies)
    requires !IsBlank(inputs.username) && !IsBlank(inputs.token) && IsBlank(inputs.single_check)
    requires !DispatchOnlyFlag(inputs.dispatch_only) && ref.Some? && !replies[0].Throw?
    ensures Requests(RunSpec(inputs, ref, timestamp, clock, replies).events)
         == [Request(DispatchAction(inputs.username), inputs.token, Some(StartRequest(ResolveRefName(ref.value), timestamp)))]
            + ExpectedChecks(inputs.username, inputs.token, BodyOf(replies[0]), clock[0], clock, replies, 1)
  {
    var dispatch := DispatchWorkflow(inputs.username, inputs.token, ResolveRefName(ref.value), timestamp, replies[0]);
    var poll := PollSpec(inputs.username, inputs.token, BodyOf(replies[0]), "", clock[0], clock, replies, 1);
    FullModeTrace(inputs, ref, timestamp, clock, replies);
    CallApiRecords(DispatchAction(inputs.username), Some(StartRequest(ResolveRefName(ref.value), timestamp)), inputs.token, replies[0]);
    PollChecks(inputs.username, inputs.token, BodyOf(replies[0]), "", clock[0], clock, replies, 1);
    RequestsAppend(dispatch.events, poll.events);
  }

  /** Full mode records a dispatch envelope's failure, then exactly the poll loop's expected failures. */
  lemma FullModeFailures(inputs: Inputs, ref: Option<string>, timestamp: string, clock: seq<int>, replies: seq<Outcome>)
    requires Env(clock, replies)
    requires !IsBlank(inputs.username) && !IsBlank(inputs.token) && IsBlank(inputs.single_check)
    requires !DispatchOnlyFlag(inputs.dispatch_only) && ref.Some? && !replies[0].Throw?
    ensures Failures(RunSpec(inputs, ref, timestamp, clock, replies).events)
         == EnvelopeFailures(DispatchAction(inputs.username), replies[0])
            + ExpectedFailures(inputs.username, BodyOf(replies[0]), clock[0], clock, replies, 1)
  {
    var dispatch := DispatchWorkflow(inputs.username, inputs.token, ResolveRefName(ref.value), timestamp, replies[0]);
    var poll := PollSpec(inputs.username, inputs.token, BodyOf(replies[0]), "", clock[0], clock, replies, 1);
    FullModeTrace(inputs, ref, timestamp, clock, replies);
    CallApiRecords(DispatchAction(inputs.username), Some(StartRequest(ResolveRefName(ref.value), timestamp)), inputs.token, replies[0]);
    PollFailures(inputs.username, inputs.token, BodyOf(replies[0]), "", clock[0], clock, replies, 1);
    FailuresAppend(dispatch.events, poll.events);
  }

  /**
   * How full mode ends: true with the completed job's outputs when an answer
   * reports it finished, the reason when a call throws, and nothing (and no
   * output) when the deadline passes first.
   */
  lemma FullModeEnds(inputs: Inputs, ref: Option<string>, timestamp: string, clock: seq<int>, replies: seq<Outcome>, name: string)
    requires Env(clock, replies)
    requires !IsBlank(inputs.username) && !IsBlank(inputs.token) && IsBlank(inputs.single_check)
    requires !DispatchOnlyFlag(inputs.dispatch_only) && ref.Some? && !replies[0].Throw?
    ensures var r := RunSpec(inputs, ref, timestamp, clock, replies);
            var stop := FinalAnswer(clock[0], clock, replies, 1);
            && r.result == Verdict(stop)
            && LastOutput(r.events, name) == LastOutput(StopOutputs(stop), name)
  {
    var dispatch := DispatchWorkflow(inputs.username, inputs.token, ResolveRefName(ref.value), timestamp, replies[0]);
    var poll := PollSpec(inputs.username, inputs.token, BodyOf(replies[0]), "", clock[0], clock, replies, 1);
    FullModeTrace(inputs, ref, timestamp, clock, replies);
    CallApiRecords(DispatchAction(inputs.username), Some(StartRequest(ResolveRefName(ref.value), timestamp)), inputs.token, replies[0]);
    PollEnds(inputs.username, inputs.token, BodyOf(replies[0]), "", clock[0], clock, replies, 1);
    PollOutputs(inputs.username, inputs.token, BodyOf(replies[0]), "", clock[0], clock, replies, 1, name);
    LastOutputAppend(dispatch.events, poll.events, name);
  }
}

/**
 * What the index.ts script is proved to do: per pass of its status loop,
 * over the whole loop (against reference definitions computed from the
 * clock and the answers alone), and over the whole script.
 */
module IndexProperties {
  import opened Wrappers
  import opened Models
  import opened Host
  import opened Dispatch
  import opened Index
  import opened Polling

  /** `n` copies of `e`. */
  function Repeat(e: Event, n: nat): (r: seq<Event>)
    ensures |r| == n
    ensures forall i :: 0 <= i < n ==> r[i] == e
  {
    if n == 0 then [] else [e] + Repeat(e, n - 1)
  }

  /** The sleep and the request that open a pass: one request, no failure, no output. */
  lemma StatusPollRecords(username: string, token: string, id: string)
    ensures var p := StatusPoll(username, token, id);
            && Requests(p) == [Request(StatusAction(username, id), token, None)]
            && Failures(p) == [] && NoOutputs(p)
  {
    var p := StatusPoll(username, token, id);
    var request := Request(StatusAction(username, id), token, None);
    assert p[1..] == [request] && [request][1..] == [];
  }

  /** An envelope failure, when there is one, is the only thing recorded. */
  lemma EnvelopeEventsRecords(prefix: string, o: Outcome)
    ensures var e := EnvelopeEvents(prefix, o);
            && Requests(e) == [] && NoOutputs(e)
            && Failures(e) == if o.Envelope? then [prefix + o.message] else []
  {
    var e := EnvelopeEvents(prefix, o);
    if o.Envelope? {
      assert e[1..] == [];
    }
  }

  /** The failure a pass records for its answer: the envelope's message; nothing for a snapshot. */
  function PassFailures(o: Outcome): seq<string> {
    if o.Envelope? then [StatusFailed + o.message] else []
  }

  /**
   * A pass whose answer parsed: one sleep, first; one status request; the
   * envelope's failure; a last note of the answer's status, "" when it has
   * none; and no output.
   */
  lemma PassRecords(username: string, token: string, id: string, o: Outcome)
    requires !o.Throw?
    ensures var pass := StatusPoll(username, token, id) + EnvelopeEvents(StatusFailed, o) + [StatusLine(o)];
            && pass[0] == Sleep(PollInterval)
            && (forall i :: 0 < i < |pass| ==> !pass[i].Sleep?)
            && pass[|pass| - 1] == StatusNote(Some(if o.Ok? && o.snapshot.last_status.Some? then o.snapshot.last_status.value else ""))
            && Requests(pass) == [Request(StatusAction(username, id), token, None)]
            && Failures(pass) == PassFailures(o)
            && NoOutputs(pass)
  {
    var poll := StatusPoll(username, token, id);
    var envelope := EnvelopeEvents(StatusFailed, o);
    var note := [StatusLine(o)];
    StatusPollRecords(username, token, id);
    EnvelopeEventsRecords(StatusFailed, o);
    assert note[1..] == [];
    RequestsAppend(poll, envelope);
    RequestsAppend(poll + envelope, note);
    FailuresAppend(poll, envelope);
    FailuresAppend(poll + envelope, note);
    NoOutputsAppend(poll, envelope);
    NoOutputsAppend(poll + envelope, note);
  }

  /** The events after the loop: a failure or an output, never a request. */
  lemma TailRecords(last: Option<Body>, reason: string)
    ensures Requests([Failed(TimeoutMessage), Output("artifacts", ArtifactsValue(last))]) == []
    ensures Failures([Failed(TimeoutMessage), Output("artifacts", ArtifactsValue(last))]) == [TimeoutMessage]
    ensures LastOutput([Failed(TimeoutMessage), Output("artifacts", ArtifactsValue(last))], "artifacts") == Some(ArtifactsValue(last))
    ensures Requests([Output("artifacts", ArtifactsValue(last))]) == [] && Failures([Output("artifacts", ArtifactsValue(last))]) == []
    ensures Requests([Failed(reason)]) == [] && Failures([Failed(reason)]) == [reason] && NoOutputs([Failed(reason)])
  {
    var output := Output("artifacts", ArtifactsValue(last));
    var tail := [Failed(TimeoutMessage), output];
    assert tail[1..] == [output] && [output][1..] == [] && [Failed(reason)][1..] == [];
  }

  /**
   * The status loop sends one request per counted check, and every one of
   * them is for the same job: the id the dispatch answered with.
   */
  lemma {:induction false} WatchRequests(username: string, token: string, id: string, last: Option<Body>,
                                         start: int, clock: seq<int>, replies: seq<Outcome>, j: nat)
    requires j < |clock| && Deadline(start, clock) && |replies| + 1 >= |clock|
    ensures Requests(WatchSpec(username, token, id, last, start, clock, replies, j))
         == Repeat(Request(StatusAction(username, id), token, None), ChecksFrom(start, clock, replies, j))
    decreases |clock| - j
  {
    var w := WatchSpec(username, token, id, last, start, clock, replies, j);
    var request := Request(StatusAction(username, id), token, None);
    var poll := StatusPoll(username, token, id);
    if clock[j] - start >= Timeout {
      TailRecords(last, "");
    } else {
      var o := replies[j];
      if o.Throw? {
        TailRecords(last, o.reason);
        StatusPollRecords(username, token, id);
        RequestsAppend(poll, [Failed(o.reason)]);
      } else {
        var b := BodyOf(o);
        var pass := poll + EnvelopeEvents(StatusFailed, o) + [StatusLine(o)];
        PassRecords(username, token, id, o);
        CompletedIffFinishes(o);
        if Completed(b) {
          TailRecords(Some(b), "");
          RequestsAppend(pass, [Output("artifacts", ArtifactsValue(Some(b)))]);
        } else {
          var rest := WatchSpec(username, token, id, Some(b), start, clock, replies, j + 1);
          WatchRequests(username, token, id, Some(b), start, clock, replies, j + 1);
          RequestsAppend(pass, rest);
        }
      }
    }
  }

  /**
   * The failures the status loop is expected to record: one per error
   * envelope among the answers it reads, the error of an answer that
   * throws, and the timeout message when the deadline stops it.
   */
  function StatusFailuresFrom(start: int, clock: seq<int>, replies: seq<Outcome>, j: nat): seq<string>
    requires j < |clock| && Deadline(start, clock) && |replies| + 1 >= |clock|
    decreases |clock| - j
  {
    if clock[j] - start >= Timeout then [TimeoutMessage]
    else if replies[j].Throw? then [replies[j].reason]
    else PassFailures(replies[j]) + if Continues(replies[j]) then StatusFailuresFrom(start, clock, replies, j + 1) else []
  }

  /** The status loop records exactly the expected failures. */
  lemma {:induction false} WatchFailures(username: string, token: string, id: string, last: Option<Body>,
                                         start: int, clock: seq<int>, replies: seq<Outcome>, j: nat)
    requires j < |clock| && Deadline(start, clock) && |replies| + 1 >= |clock|
    ensures Failures(WatchSpec(username, token, id, last, start, clock, replies, j))
         == StatusFailuresFrom(start, clock, replies, j)
    decreases |clock| - j
  {
    var poll := StatusPoll(username, token, id);
    if clock[j] - start >= Timeout {
      TailRecords(last, "");
    } else {
      var o := replies[j];
      if o.Throw? {
        TailRecords(last, o.reason);
        StatusPollRecords(username, token, id);
        FailuresAppend(poll, [Failed(o.reason)]);
      } else {
        var b := BodyOf(o);
        var pass := poll + EnvelopeEvents(StatusFailed, o) + [StatusLine(o)];
        PassRecords(username, token, id, o);
        CompletedIffFinishes(o);
        if Completed(b) {
          TailRecords(Some(b), "");
          FailuresAppend(pass, [Output("artifacts", ArtifactsValue(Some(b)))]);
        } else {
          var rest := WatchSpec(username, token, id, Some(b), start, clock, replies, j + 1);
          WatchFailures(username, token, id, Some(b), start, clock, replies, j + 1);
          FailuresAppend(pass, rest);
        }
      }
    }
  }

  /** The output of a pass whose answer reports completion. */
  lemma PassCompletesOutputs(username: string, token: string, id: string, o: Outcome, name: string)
    requires !o.Throw?
    ensures LastOutput(StatusPoll(username, token, id) + EnvelopeEvents(StatusFailed, o) + [StatusLine(o)]
                       + [Output("artifacts", ArtifactsValue(Some(BodyOf(o))))], name)
         == if name == "artifacts" then Some(ArtifactsValue(Some(BodyOf(o)))) else None
  {
    var pass := StatusPoll(username, token, id) + EnvelopeEvents(StatusFailed, o) + [StatusLine(o)];
    var output := Output("artifacts", ArtifactsValue(Some(BodyOf(o))));
    PassRecords(username, token, id, o);
    assert [output][..0] == [];
    LastOutputAppend(pass, [output], name);
  }

  /** The outputs after the deadline: only `artifacts`, for the last answer read. */
  lemma TimeoutOutputs(last: Option<Body>, name: string)
    ensures LastOutput([Failed(TimeoutMessage)] + [Output("artifacts", ArtifactsValue(last))], name)
         == if name == "artifacts" then Some(ArtifactsValue(last)) else None
  {
    var output := Output("artifacts", ArtifactsValue(last));
    assert [output][..0] == [];
    LastOutputAppend([Failed(TimeoutMessage)], [output], name);
  }

  /** A pass whose request throws sets no output. */
  lemma ThrowOutputs(username: string, token: string, id: string, reason: string)
    ensures NoOutputs(StatusPoll(username, token, id) + [Failed(reason)])
  {
    StatusPollRecords(username, token, id);
    TailRecords(None, reason);
    NoOutputsAppend(StatusPoll(username, token, id), [Failed(reason)]);
  }

  /**
   * The `artifacts` value the status loop ends with, from the clock and the
   * answers alone: none when a request throws; otherwise the assets of the
   * last answer read, at completion or at the deadline.
   */
  function ArtifactsFrom(last: Option<Body>, start: int, clock: seq<int>, replies: seq<Outcome>, j: nat): Option<Value>
    requires j < |clock| && Deadline(start, clock) && |replies| + 1 >= |clock|
    decreases |clock| - j
  {
    if clock[j] - start >= Timeout then Some(ArtifactsValue(last))
    else if replies[j].Throw? then None
    else if Completed(BodyOf(replies[j])) then Some(ArtifactsValue(Some(BodyOf(replies[j]))))
    else ArtifactsFrom(Some(BodyOf(replies[j])), start, clock, replies, j + 1)
  }

  /** The only output of the status loop is `artifacts`, with the expected value. */
  lemma {:induction false} WatchOutputs(username: string, token: string, id: string, last: Option<Body>,
                                        start: int, clock: seq<int>, replies: seq<Outcome>, j: nat, name: string)
    requires j < |clock| && Deadline(start, clock) && |replies| + 1 >= |clock|
    ensures LastOutput(WatchSpec(username, token, id, last, start, clock, replies, j), name)
         == if name == "artifacts" then ArtifactsFrom(last, start, clock, replies, j) else None
    decreases |clock| - j
  {
    if clock[j] - start >= Timeout {
      WatchTimesOut(username, token, id, last, start, clock, replies, j);
      TimeoutOutputs(last, name);
    } else if replies[j].Throw? {
      WatchThrows(username, token, id, last, start, clock, replies, j);
      ThrowOutputs(username, token, id, replies[j].reason);
    } else if Completed(BodyOf(replies[j])) {
      WatchCompletes(username, token, id, last, start, clock, replies, j);
      PassCompletesOutputs(username, token, id, replies[j], name);
    } else {
      var o := replies[j];
      var pass := StatusPoll(username, token, id) + EnvelopeEvents(StatusFailed, o) + [StatusLine(o)];
      WatchContinues(username, token, id, last, start, clock, replies, j);
      PassRecords(username, token, id, o);
      WatchOutputs(username, token, id, Some(BodyOf(o)), start, clock, replies, j + 1, name);
      LastOutputAppend(pass, WatchSpec(username, token, id, Some(BodyOf(o)), start, clock, replies, j + 1), name);
    }
  }

  /**
   * The `artifacts` value is that of the answer to the last counted check,
   * or of the answer read before them when there is none; there is no value
   * when that last check throws.
   */
  lemma {:induction false} ArtifactsFromLastCheck(last: Option<Body>, start: int, clock: seq<int>, replies: seq<Outcome>, j: nat)
    requires j < |clock| && Deadline(start, clock) && |replies| + 1 >= |clock|
    ensures var n := ChecksFrom(start, clock, replies, j);
            ArtifactsFrom(last, start, clock, replies, j)
            == if n > 0 && replies[j + n - 1].Throw? then None
               else Some(ArtifactsValue(if n > 0 then Some(BodyOf(replies[j + n - 1])) else last))
    decreases |clock| - j
  {
    if clock[j] - start < Timeout && !replies[j].Throw? {
      CompletedIffFinishes(replies[j]);
      if Continues(replies[j]) {
        ArtifactsFromLastCheck(Some(BodyOf(replies[j])), start, clock, replies, j + 1);
        var n' := ChecksFrom(start, clock, replies, j + 1);
        assert n' > 0 ==> j + 1 + n' - 1 == j + (1 + n') - 1;
      }
    }
  }

  /** The failure the dispatch step records: the error of a throw, or the envelope's message after its prefix. */
  function DispatchFailures(o: Outcome): seq<string> {
    if o.Throw? then [o.reason] else if o.Envelope? then [DispatchTriggerFailed + o.message] else []
  }

  /** The events after the dispatch request: its failure, and no request or output. */
  lemma AfterDispatchRecords(o: Outcome)
    ensures var after := if o.Throw? then [Failed(o.reason)] else EnvelopeEvents(DispatchTriggerFailed, o);
            && Requests(after) == [] && Failures(after) == DispatchFailures(o) && NoOutputs(after)
  {
    if o.Throw? {
      TailRecords(None, o.reason);
    } else {
      EnvelopeEventsRecords(DispatchTriggerFailed, o);
    }
  }

  /** The ref failure and the dispatch request: one request, the ref's failure, and no output. */
  lemma DispatchRequestRecords(username: string, token: string, ref: Option<string>, timestamp: string)
    ensures var start := (if ref.Some? then [] else [Failed(RefNameFailed)])
                         + [Request(DispatchAction(username), token, Some(StartRequest(RefName(ref), timestamp)))];
            && Requests(start) == [Request(DispatchAction(username), token, Some(StartRequest(RefName(ref), timestamp)))]
            && Failures(start) == (if ref.Some? then [] else [RefNameFailed])
            && NoOutputs(start)
  {
    var refFailure := if ref.Some? then [] else [Failed(RefNameFailed)];
    var dispatch := [Request(DispatchAction(username), token, Some(StartRequest(RefName(ref), timestamp)))];
    assert dispatch[1..] == [];
    if ref.None? {
      assert refFailure[1..] == [];
    }
    RequestsAppend(refFailure, dispatch);
    FailuresAppend(refFailure, dispatch);
    NoOutputsAppend(refFailure, dispatch);
  }

  /** The events before the status loop: the dispatch request, and the ref, dispatch and envelope failures. */
  lemma PreludeRecords(username: string, token: string, ref: Option<string>, timestamp: string, o: Outcome)
    ensures var p := Prelude(username, token, ref, timestamp, o);
            && Requests(p) == [Request(DispatchAction(username), token, Some(StartRequest(RefName(ref), timestamp)))]
            && Failures(p) == (if ref.Some? then [] else [RefNameFailed]) + DispatchFailures(o)
            && NoOutputs(p)
  {
    var start := (if ref.Some? then [] else [Failed(RefNameFailed)])
                 + [Request(DispatchAction(username), token, Some(StartRequest(RefName(ref), timestamp)))];
    var after := if o.Throw? then [Failed(o.reason)] else EnvelopeEvents(DispatchTriggerFailed, o);
    DispatchRequestRecords(username, token, ref, timestamp);
    AfterDispatchRecords(o);
    RequestsAppend(start, after);
    FailuresAppend(start, after);
    NoOutputsAppend(start, after);
  }

  /**
   * The script dispatches the resolved ref ("" when the ref cannot be read),
   * then, unless the dispatch throws, polls the dispatched id once per
   * counted check.
   */
  lemma ScriptRequests(username: string, token: string, ref: Option<string>, timestamp: string,
                       clock: seq<int>, replies: seq<Outcome>)
    requires Env(clock, replies)
    ensures Requests(ScriptSpec(username, token, ref, timestamp, clock, replies))
         == [Request(DispatchAction(username), token, Some(StartRequest(RefName(ref), timestamp)))]
            + if replies[0].Throw? then []
              else Repeat(Request(StatusAction(username, IdText(BodyOf(replies[0]))), token, None), ChecksFrom(clock[0], clock, replies, 1))
  {
    var o := replies[0];
    var p := Prelude(username, token, ref, timestamp, o);
    PreludeRecords(username, token, ref, timestamp, o);
    if o.Throw? {
      assert ScriptSpec(username, token, ref, timestamp, clock, replies) == p + [];
      RequestsAppend(p, []);
    } else {
      var w := WatchSpec(username, token, IdText(BodyOf(o)), None, clock[0], clock, replies, 1);
      WatchRequests(username, token, IdText(BodyOf(o)), None, clock[0], clock, replies, 1);
      RequestsAppend(p, w);
    }
  }

  /**
   * The script records which step failed: a missing ref, a throwing or
   * enveloped dispatch, and then, unless the dispatch threw, the status
   * loop's expected failures.
   */
  lemma ScriptFailures(username: string, token: string, ref: Option<string>, timestamp: string,
                       clock: seq<int>, replies: seq<Outcome>)
    requires Env(clock, replies)
    ensures Failures(ScriptSpec(username, token, ref, timestamp, clock, replies))
         == (if ref.Some? then [] else [RefNameFailed]) + DispatchFailures(replies[0])
            + if replies[0].Throw? then [] else StatusFailuresFrom(clock[0], clock, replies, 1)
  {
    var o := replies[0];
    var p := Prelude(username, token, ref, timestamp, o);
    PreludeRecords(username, token, ref, timestamp, o);
    if o.Throw? {
      assert ScriptSpec(username, token, ref, timestamp, clock, replies) == p + [];
      FailuresAppend(p, []);
    } else {
      var w := WatchSpec(username, token, IdText(BodyOf(o)), None, clock[0], clock, replies, 1);
      WatchFailures(username, token, IdText(BodyOf(o)), None, clock[0], clock, replies, 1);
      FailuresAppend(p, w);
    }
  }

  /**
   * The script's one output is `artifacts`: none when the dispatch throws,
   * otherwise the status loop's (see `ArtifactsFromLastCheck`).
   */
  lemma ScriptArtifacts(username: string, token: string, ref: Option<string>, timestamp: string,
                        clock: seq<int>, replies: seq<Outcome>, name: string)
    requires Env(clock, replies)
    ensures LastOutput(ScriptSpec(username, token, ref, timestamp, clock, replies), name)
         == if name != "artifacts" || replies[0].Throw? then None else ArtifactsFrom(None, clock[0], clock, replies, 1)
  {
    var o := replies[0];
    var p := Prelude(username, token, ref, timestamp, o);
    PreludeRecords(username, token, ref, timestamp, o);
    if o.Throw? {
      assert ScriptSpec(username, token, ref, timestamp, clock, replies) == p;
    } else {
      var w := WatchSpec(username, token, IdText(BodyOf(o)), None, clock[0], clock, replies, 1);
      WatchOutputs(username, token, IdText(BodyOf(o)), None, clock[0], clock, replies, 1, name);
      LastOutputAppend(p, w, name);
    }
  }
}

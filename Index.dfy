/**
 * The older top-level script (index.ts): it resolves the ref, dispatches a
 * job, then polls the status of the dispatched job (always under the id the
 * dispatch answered with) until it completes or the deadline passes, and
 * ends by setting the `artifacts` output. A failure to read the ref is caught
 * on its own and the script goes on with ""; an exception after the ref is
 * read ends the script in its outer `catch`, which records the error's message.
 */
module Index {
  import opened Wrappers
  import opened Models
  import opened Host
  import opened Dispatch

  const RefNameFailed := "Error retrieving ref name"
  const DispatchTriggerFailed := "Failed to trigger workflow dispatch: "
  const StatusFailed := "Failed to get workflow status: "

  /** The failure an error envelope makes the script record, after the given prefix. */
  function EnvelopeEvents(prefix: string, o: Outcome): seq<Event> {
    if o.Envelope? then [Failed(prefix + o.message)] else []
  }

  /**
   * The `artifacts` output: the assets of the last status answer when it has
   * a `release_assets` field (an empty array is truthy), "[]" otherwise,
   * and also when no status answer was read.
   */
  function ArtifactsValue(last: Option<Body>): Value {
    if last.Some? && ReleaseAssets(last.value).Some? then AssetsJson(ReleaseAssets(last.value).value) else Text("[]")
  }

  /** The two events that open every pass of the status loop: the sleep and the status request. */
  function StatusPoll(username: string, token: string, id: string): seq<Event> {
    [Sleep(PollInterval), Request(StatusAction(username, id), token, None)]
  }

  /** The status note of a pass: `last_status || ""`. */
  function StatusLine(o: Outcome): Event
    requires !o.Throw?
  {
    StatusNote(Some(LastStatus(BodyOf(o)).GetOr("")))
  }

  /**
   * The status loop and what follows it, from guard reading `j` on, with
   * `last` the status answer read so far (`None` for `null`).
   */
  function WatchSpec(username: string, token: string, id: string, last: Option<Body>,
                     start: int, clock: seq<int>, replies: seq<Outcome>, j: nat): seq<Event>
    requires j < |clock| && Deadline(start, clock) && |replies| + 1 >= |clock|
    decreases |clock| - j
  {
    if clock[j] - start >= Timeout then [Failed(TimeoutMessage), Output("artifacts", ArtifactsValue(last))]
    else
      var o := replies[j];
      if o.Throw? then StatusPoll(username, token, id) + [Failed(o.reason)]
      else
        var b := BodyOf(o);
        var pass := StatusPoll(username, token, id) + EnvelopeEvents(StatusFailed, o) + [StatusLine(o)];
        if Completed(b) then pass + [Output("artifacts", ArtifactsValue(Some(b)))]
        else pass + WatchSpec(username, token, id, Some(b), start, clock, replies, j + 1)
  }

  /** The ref name the script dispatches: "" when reading the ref fails. */
  function RefName(ref: Option<string>): string {
    if ref.Some? then ResolveRefName(ref.value) else ""
  }

  /**
   * What the script records before its status loop: the ref failure, the
   * dispatch request, and then the error of a dispatch that throws or the
   * failure of an error envelope.
   */
  function Prelude(username: string, token: string, ref: Option<string>, timestamp: string, o: Outcome): seq<Event> {
    var refFailure := if ref.Some? then [] else [Failed(RefNameFailed)];
    var dispatch := [Request(DispatchAction(username), token, Some(StartRequest(RefName(ref), timestamp)))];
    refFailure + dispatch + if o.Throw? then [Failed(o.reason)] else EnvelopeEvents(DispatchTriggerFailed, o)
  }

  /**
   * The whole script, given `github.context.ref` (`None` when it is
   * undefined), the ISO timestamp, the clock readings and the API answers:
   * the status loop runs on the dispatched id unless the dispatch threw.
   */
  function ScriptSpec(username: string, token: string, ref: Option<string>, timestamp: string,
                      clock: seq<int>, replies: seq<Outcome>): seq<Event>
    requires Env(clock, replies)
  {
    var o := replies[0];
    Prelude(username, token, ref, timestamp, o)
    + if o.Throw? then [] else WatchSpec(username, token, IdText(BodyOf(o)), None, clock[0], clock, replies, 1)
  }

  /** A pass whose request throws ends the script in its `catch`. */
  lemma WatchThrows(username: string, token: string, id: string, last: Option<Body>,
                    start: int, clock: seq<int>, replies: seq<Outcome>, j: nat)
    requires j < |clock| && Deadline(start, clock) && |replies| + 1 >= |clock|
    requires clock[j] - start < Timeout && replies[j].Throw?
    ensures WatchSpec(username, token, id, last, start, clock, replies, j)
         == StatusPoll(username, token, id) + [Failed(replies[j].reason)]
  {
  }

  /** A pass that reads a completed job leaves only the `artifacts` output to come. */
  lemma WatchCompletes(username: string, token: string, id: string, last: Option<Body>,
                       start: int, clock: seq<int>, replies: seq<Outcome>, j: nat)
    requires j < |clock| && Deadline(start, clock) && |replies| + 1 >= |clock|
    requires clock[j] - start < Timeout && !replies[j].Throw? && Completed(BodyOf(replies[j]))
    ensures WatchSpec(username, token, id, last, start, clock, replies, j)
         == StatusPoll(username, token, id) + EnvelopeEvents(StatusFailed, replies[j]) + [StatusLine(replies[j])]
            + [Output("artifacts", ArtifactsValue(Some(BodyOf(replies[j]))))]
  {
  }

  /** Any other pass hands on to the next guard reading, with its answer as the last one read. */
  lemma WatchContinues(username: string, token: string, id: string, last: Option<Body>,
                       start: int, clock: seq<int>, replies: seq<Outcome>, j: nat)
    requires j < |clock| && Deadline(start, clock) && |replies| + 1 >= |clock|
    requires clock[j] - start < Timeout && !replies[j].Throw? && !Completed(BodyOf(replies[j]))
    ensures j + 1 < |clock|
    ensures WatchSpec(username, token, id, last, start, clock, replies, j)
         == StatusPoll(username, token, id) + EnvelopeEvents(StatusFailed, replies[j]) + [StatusLine(replies[j])]
            + WatchSpec(username, token, id, Some(BodyOf(replies[j])), start, clock, replies, j + 1)
  {
    assert j != |clock| - 1;
  }

  /** Once the deadline has passed, only the timeout failure and the `artifacts` output are left to come. */
  lemma WatchTimesOut(username: string, token: string, id: string, last: Option<Body>,
                      start: int, clock: seq<int>, replies: seq<Outcome>, j: nat)
    requires j < |clock| && Deadline(start, clock) && |replies| + 1 >= |clock|
    requires clock[j] - start >= Timeout
    ensures WatchSpec(username, token, id, last, start, clock, replies, j)
         == [Failed(TimeoutMessage)] + [Output("artifacts", ArtifactsValue(last))]
  {
  }

  /** `index.ts`, step by step. */
  method Script(username: string, token: string, ref: Option<string>, timestamp: string,
                clock: seq<int>, replies: seq<Outcome>)
    returns (events: seq<Event>)
    requires Env(clock, replies)
    ensures events == ScriptSpec(username, token, ref, timestamp, clock, replies)
  {
    var refName := "";
    events := [];
    if ref.Some? {
      refName := ResolveRefName(ref.value);
    } else {
      events := events + [Failed(RefNameFailed)];
    }

    events := events + [Request(DispatchAction(username), token, Some(StartRequest(refName, timestamp)))];
    var response := replies[0];
    if response.Throw? {
      events := events + [Failed(response.reason)];
      return;
    }
    if response.Envelope? {
      events := events + [Failed(DispatchTriggerFailed + response.message)];
    }
    assert events == Prelude(username, token, ref, timestamp, response);
    var dispatched := BodyOf(response);

    var watched := Watch(username, token, IdText(dispatched), clock, replies);
    events := events + watched;
  }

  /**
   * The status loop of the script and the `artifacts` output after it; the
   * job polled is always `id`, the one the dispatch answered with.
   */
  method Watch(username: string, token: string, id: string, clock: seq<int>, replies: seq<Outcome>)
    returns (events: seq<Event>)
    requires Env(clock, replies)
    ensures events == WatchSpec(username, token, id, None, clock[0], clock, replies, 1)
  {
    var startTime := clock[0];
    var completed := false;
    var lastStatus := "";
    var statusData: Option<Body> := None;
    var j := 1;  // the guard reads clock[j]; pass j is answered by replies[j]
    events := [];
    ghost var target := WatchSpec(username, token, id, statusData, startTime, clock, replies, j);
    while !completed && clock[j] - startTime < Timeout
      invariant 1 <= j <= |clock|
      invariant !completed ==> j < |clock| && target == events + WatchSpec(username, token, id, statusData, startTime, clock, replies, j)
      invariant completed ==> target == events + [Output("artifacts", ArtifactsValue(statusData))]
      decreases |clock| - j
    {
      ghost var before := events;
      events := events + StatusPoll(username, token, id);
      var response := replies[j];
      if response.Throw? {
        WatchThrows(username, token, id, statusData, startTime, clock, replies, j);
        events := events + [Failed(response.reason)];
        return;
      }
      events := events + EnvelopeEvents(StatusFailed, response);
      var data := BodyOf(response);
      if Completed(data) {
        WatchCompletes(username, token, id, statusData, startTime, clock, replies, j);
      } else {
        WatchContinues(username, token, id, statusData, startTime, clock, replies, j);
      }
      statusData := Some(data);
      completed := Completed(data);
      lastStatus := LastStatus(data).GetOr("");
      events := events + [StatusNote(Some(lastStatus))];
      j := j + 1;
    }

    if !completed {
      WatchTimesOut(username, token, id, statusData, startTime, clock, replies, j);
      events := events + [Failed(TimeoutMessage)];
    }
    events := events + [Output("artifacts", ArtifactsValue(statusData))];
  }
}

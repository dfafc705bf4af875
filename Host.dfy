/**
 * The CI host as the workflow step sees it: what the step records through the
 * host (API requests, sleeps, status notes, failures, outputs), the clock
 * readings it is given, and the two polling constants both scripts use.
 */
module Host {
  import opened Wrappers
  import opened Models

  /** Milliseconds slept before each status check. */
  const PollInterval: nat := 15000

  /** Milliseconds after which polling gives up: 24 hours. */
  const Timeout: nat := 86400000  // 1000 * 60 * 60 * 24

  /** The failure recorded when the deadline passes: "Workflow did not complete within the timeout period." */
  const TimeoutMessage := "Workflow did not complete " + "within the timeout period."

  /** A value handed to `core.setOutput`. */
  datatype Value =
    | Text(text: string)
    | Flag(flag: bool)
    | AssetsJson(assets: seq<Asset>)  // `JSON.stringify(assets)`; the serialisation is not modelled
    | Undefined

  /** One observable thing the step does, in order. */
  datatype Event =
    | Request(action: string, token: string, payload: Option<DispatchRequest>)  // POST .../api/v1/<action>
    | Sleep(ms: nat)
    | StatusNote(status: Option<string>)  // `core.info` of a job status
    | Failed(message: string)             // `core.setFailed`, which does not stop the step
    | Output(name: string, value: Value)  // `core.setOutput`

  /** How an async function ended: returned (maybe `undefined`) or rejected with an error. */
  datatype Completion = Returned(value: Option<bool>) | Rejected(reason: string)

  /** What a run recorded and how it ended. */
  datatype Trace = Trace(events: seq<Event>, result: Completion)

  /** `t` with `pre` recorded before its events. */
  function Prepend(pre: seq<Event>, t: Trace): Trace {
    Trace(pre + t.events, t.result)
  }

  lemma PrependPrepend(a: seq<Event>, b: seq<Event>, t: Trace)
    ensures Prepend(a, Prepend(b, t)) == Prepend(a + b, t)
  {
    assert a + (b + t.events) == (a + b) + t.events;
  }

  /**
   * The clock the loop reads: `clock[0]` is the start time, and the last
   * reading is past the deadline, so every loop that checks the deadline stops.
   */
  predicate Deadline(start: int, clock: seq<int>) {
    |clock| > 0 && clock[|clock| - 1] - start >= Timeout
  }

  /**
   * The clock does not go back between the start time and the first guard,
   * and the guard readings after it are one sleep, so at least one poll
   * interval, apart.
   */
  predicate Spaced(clock: seq<int>) {
    && (|clock| > 1 ==> clock[0] <= clock[1])
    && forall j :: 1 <= j < |clock| - 1 ==> clock[j] + PollInterval <= clock[j + 1]
  }

  /** Guard reading `i` is at least `i - 1` poll intervals after the start. */
  lemma {:induction false} SpacedGrowth(clock: seq<int>, i: nat)
    requires Spaced(clock) && 1 <= i < |clock|
    ensures clock[0] + (i - 1) * PollInterval <= clock[i]
  {
    if i > 1 {
      SpacedGrowth(clock, i - 1);
    }
  }

  /**
   * Enough environment for a whole run: `clock[0]` is the start time, at least
   * one guard reading follows it and the last one is past the deadline; one
   * answer for the first call and one for each further reading.
   */
  predicate Env(clock: seq<int>, replies: seq<Outcome>) {
    |clock| > 1 && Deadline(clock[0], clock) && |replies| + 1 >= |clock|
  }

  /** The API requests among the events, in order. */
  function Requests(events: seq<Event>): (r: seq<Event>)
    ensures |r| <= |events|
  {
    if events == [] then []
    else (if events[0].Request? then [events[0]] else []) + Requests(events[1..])
  }

  lemma {:induction false} RequestsAppend(a: seq<Event>, b: seq<Event>)
    ensures Requests(a + b) == Requests(a) + Requests(b)
  {
    if a == [] {
      assert a + b == b;
    } else {
      assert (a + b)[0] == a[0] && (a + b)[1..] == a[1..] + b;
      RequestsAppend(a[1..], b);
      var h := if a[0].Request? then [a[0]] else [];
      assert Requests(a + b) == h + Requests(a[1..] + b);
      assert Requests(a) == h + Requests(a[1..]);
    }
  }

  /** The messages passed to `core.setFailed`, in order. */
  function Failures(events: seq<Event>): (r: seq<string>)
    ensures |r| <= |events|
  {
    if events == [] then []
    else (if events[0].Failed? then [events[0].message] else []) + Failures(events[1..])
  }

  lemma {:induction false} FailuresAppend(a: seq<Event>, b: seq<Event>)
    ensures Failures(a + b) == Failures(a) + Failures(b)
  {
    if a == [] {
      assert a + b == b;
    } else {
      assert (a + b)[0] == a[0] && (a + b)[1..] == a[1..] + b;
      FailuresAppend(a[1..], b);
      var h := if a[0].Failed? then [a[0].message] else [];
      assert Failures(a + b) == h + Failures(a[1..] + b);
      assert Failures(a) == h + Failures(a[1..]);
    }
  }

  /** Nothing in `events` sets an output. */
  predicate NoOutputs(events: seq<Event>) {
    forall i :: 0 <= i < |events| ==> !events[i].Output?
  }

  lemma NoOutputsAppend(a: seq<Event>, b: seq<Event>)
    requires NoOutputs(a) && NoOutputs(b)
    ensures NoOutputs(a + b)
  {
    forall i | 0 <= i < |a + b| ensures !(a + b)[i].Output? {
      if i >= |a| {
        assert (a + b)[i] == b[i - |a|];
      }
    }
  }

  /** The value an output ends up with: the last one set, `None` if it is never set. */
  function LastOutput(events: seq<Event>, name: string): (v: Option<Value>)
    ensures v.Some? ==> Output(name, v.value) in events
    ensures NoOutputs(events) ==> v == None
  {
    if events == [] then None
    else
      var e := events[|events| - 1];
      assert events == events[..|events| - 1] + [e];
      if e.Output? && e.name == name then Some(e.value) else LastOutput(events[..|events| - 1], name)
  }

  lemma {:induction false} LastOutputAppend(a: seq<Event>, b: seq<Event>, name: string)
    ensures LastOutput(a + b, name) == if LastOutput(b, name).Some? then LastOutput(b, name) else LastOutput(a, name)
    decreases |b|
  {
    if b == [] {
      assert a + b == a;
    } else {
      assert (a + b)[..|a + b| - 1] == a + b[..|b| - 1];
      LastOutputAppend(a, b[..|b| - 1], name);
    }
  }
}

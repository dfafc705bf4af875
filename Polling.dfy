/**
 * Where a poll loop stops, from the clock and the answers alone. Both scripts
 * share the stopping rule: the guard lets a pass run while the deadline has
 * not passed, and a pass ends the loop when its check throws or reports a
 * finished job.
 */
module Polling {
  import opened Wrappers
  import opened Models
  import opened Host

  /**
   * The number of checks a poll loop makes from guard reading `j` on,
   * computed from the clock and the answers alone: none once the deadline has
   * passed; otherwise this check, and the ones after it unless this one
   * throws or reports a finished job.
   */
  function ChecksFrom(start: int, clock: seq<int>, replies: seq<Outcome>, j: nat): (n: nat)
    requires j < |clock| && Deadline(start, clock) && |replies| + 1 >= |clock|
    ensures j + n < |clock|
    decreases |clock| - j
  {
    if clock[j] - start >= Timeout then 0
    else if !Continues(replies[j]) then 1
    else 1 + ChecksFrom(start, clock, replies, j + 1)
  }

  /**
   * `ChecksFrom` counts up to the first check that stops the loop: every
   * check it counts passed the deadline guard, every one but the last lets
   * the loop go on, and if the last one does too (or there is none) the next
   * guard reading is past the deadline.
   */
  lemma {:induction false} ChecksFromScan(start: int, clock: seq<int>, replies: seq<Outcome>, j: nat)
    requires j < |clock| && Deadline(start, clock) && |replies| + 1 >= |clock|
    ensures var n := ChecksFrom(start, clock, replies, j);
            && (forall k :: j <= k < j + n ==> clock[k] - start < Timeout)
            && (forall k :: j <= k < j + n - 1 ==> Continues(replies[k]))
            && (n == 0 || Continues(replies[j + n - 1]) ==> clock[j + n] - start >= Timeout)
    decreases |clock| - j
  {
    if clock[j] - start < Timeout && Continues(replies[j]) {
      ChecksFromScan(start, clock, replies, j + 1);
    }
  }

  /**
   * The answer that stopped the poll loop from guard reading `j` on: the
   * first one that throws or reports a finished job, or `None` when the
   * deadline came first.
   */
  function FinalAnswer(start: int, clock: seq<int>, replies: seq<Outcome>, j: nat): Option<Outcome>
    requires j < |clock| && Deadline(start, clock) && |replies| + 1 >= |clock|
    decreases |clock| - j
  {
    if clock[j] - start >= Timeout then None
    else if !Continues(replies[j]) then Some(replies[j])
    else FinalAnswer(start, clock, replies, j + 1)
  }

  /** The stopping answer is the answer to the last counted check; there is none after a timeout. */
  lemma {:induction false} FinalAnswerIsLastCheck(start: int, clock: seq<int>, replies: seq<Outcome>, j: nat)
    requires j < |clock| && Deadline(start, clock) && |replies| + 1 >= |clock|
    ensures var n := ChecksFrom(start, clock, replies, j);
            FinalAnswer(start, clock, replies, j)
              == if n > 0 && !Continues(replies[j + n - 1]) then Some(replies[j + n - 1]) else None
    decreases |clock| - j
  {
    if clock[j] - start < Timeout && Continues(replies[j]) {
      FinalAnswerIsLastCheck(start, clock, replies, j + 1);
    }
  }

  /**
   * With the guard readings at least one sleep apart, the loop makes at most
   * one check per 15 seconds of the 24 hour window: 5760.
   */
  lemma PollBound(clock: seq<int>, replies: seq<Outcome>)
    requires Env(clock, replies) && Spaced(clock)
    ensures ChecksFrom(clock[0], clock, replies, 1) <= Timeout / PollInterval
  {
    var n := ChecksFrom(clock[0], clock, replies, 1);
    ChecksFromScan(clock[0], clock, replies, 1);
    if n > 0 {
      assert clock[n] - clock[0] < Timeout;
      SpacedGrowth(clock, n);
    }
  }
}

/** The bounded wait of Backend.enableDiodelaser: after switching the diode
    laser on, the controller polls the driver's status until the status text
    equals the "emitting" sentinel or a counter reaches its limit.

    The driver's status replies are given as a sequence: replies[0] is the
    text returned by the poll made before the loop, replies[k] (k >= 1) the
    text returned by the k-th poll made inside the loop. Only the second
    component of each status pair is modelled; the first is never inspected. */
module EmissionWait {

  /** Status text with which the driver says that radiation can be emitted. */
  const EmittingText: string := "Laser system is active, radiation can be emitted"

  /** Value of the loop counter at which the wait gives up. */
  const GiveUpCount: nat := 12

  /** Most status polls one wait can make: the one before the loop and
      thirteen inside it. */
  const MaxPolls: nat := 14

  /** Index of the first reply among replies[..n] that is the sentinel,
      or n when there is none. */
  function FirstEmitting(replies: seq<string>, n: nat): (j: nat)
    requires n <= |replies|
    ensures j <= n
    ensures j < n ==> replies[j] == EmittingText
    ensures forall k :: 0 <= k < j ==> replies[k] != EmittingText
    decreases n
  {
    if n == 0 then 0
    else
      var j := FirstEmitting(replies, n - 1);
      if j < n - 1 then j
      else if replies[n - 1] == EmittingText then n - 1
      else n
  }

  /** Value of the counter `i` when the loop is left. */
  function ExitCounter(replies: seq<string>): (i: nat)
    requires |replies| >= MaxPolls
    ensures i <= GiveUpCount
    ensures i < GiveUpCount ==> replies[i] == EmittingText
    ensures forall k :: 0 <= k < i ==> replies[k] != EmittingText
  {
    var j := FirstEmitting(replies, GiveUpCount + 1);
    if j <= GiveUpCount then j else GiveUpCount
  }

  /** Number of status polls the wait makes, the one before the loop included. */
  function PollCount(replies: seq<string>): (p: nat)
    requires |replies| >= MaxPolls
    ensures 1 <= p <= MaxPolls
    ensures p < MaxPolls ==> replies[p - 1] == EmittingText
    ensures forall k :: 0 <= k < p - 1 ==> replies[k] != EmittingText
  {
    var j := FirstEmitting(replies, GiveUpCount + 1);
    if j <= GiveUpCount then j + 1 else MaxPolls
  }

  /** The controller reports emission (sends a True signal) exactly when the
      counter is below its limit at loop exit. */
  predicate Succeeds(replies: seq<string>)
    requires |replies| >= MaxPolls
  {
    ExitCounter(replies) < GiveUpCount
  }

  /** The poll loop of enableDiodelaser, run against the given replies.
      Returns the counter at exit and the number of polls made. */
  method WaitForEmission(replies: seq<string>) returns (i: nat, polls: nat)
    requires |replies| >= MaxPolls
    ensures i == ExitCounter(replies) && polls == PollCount(replies)
    ensures i <= GiveUpCount && 1 <= polls <= MaxPolls
    ensures i < GiveUpCount <==> exists k :: 0 <= k < GiveUpCount && replies[k] == EmittingText
  {
    var status := replies[0];
    polls := 1;
    i := 0;
    while status != EmittingText
      invariant i <= GiveUpCount
      invariant polls == i + 1
      invariant status == replies[i]
      invariant forall k :: 0 <= k < i ==> replies[k] != EmittingText
      decreases GiveUpCount - i
    {
      status := replies[polls];
      polls := polls + 1;
      if i >= GiveUpCount {
        break;
      }
      i := i + 1;
    }
  }

  /** Enabling succeeds exactly when the sentinel is the initial reply or one
      of the replies to the first eleven polls inside the loop. */
  lemma SucceedsIff(replies: seq<string>)
    requires |replies| >= MaxPolls
    ensures Succeeds(replies) <==> exists k :: 0 <= k < GiveUpCount && replies[k] == EmittingText
  {
  }

  /** A sentinel that first appears at in-loop poll 12 or 13 is still
      reported as a failure; the counter ends at its limit either way. */
  lemma LateEmittingFails(replies: seq<string>, j: nat)
    requires |replies| >= MaxPolls
    requires j == GiveUpCount || j == GiveUpCount + 1
    requires replies[j] == EmittingText
    requires forall k :: 0 <= k < j ==> replies[k] != EmittingText
    ensures !Succeeds(replies)
    ensures ExitCounter(replies) == GiveUpCount
    ensures PollCount(replies) == j + 1
  {
  }

  /** A device that never reports the sentinel is polled the maximum number
      of times and the wait fails. */
  lemma NeverEmittingFails(replies: seq<string>)
    requires |replies| >= MaxPolls
    requires forall k :: 0 <= k < MaxPolls ==> replies[k] != EmittingText
    ensures !Succeeds(replies)
    ensures PollCount(replies) == MaxPolls
  {
  }

  /** On success, the status text read last is the sentinel and the wait
      made at most twelve polls. */
  lemma SuccessEndsOnEmitting(replies: seq<string>)
    requires |replies| >= MaxPolls
    requires Succeeds(replies)
    ensures PollCount(replies) <= GiveUpCount
    ensures replies[PollCount(replies) - 1] == EmittingText
  {
  }

  /** The reply to the fourteenth poll is read but never inspected: two
      devices whose first thirteen replies agree give the same counter and
      the same number of polls, whatever they answer afterwards. */
  lemma OutcomeIgnoresLateReplies(a: seq<string>, b: seq<string>)
    requires |a| >= MaxPolls && |b| >= MaxPolls
    requires a[..GiveUpCount + 1] == b[..GiveUpCount + 1]
    ensures ExitCounter(a) == ExitCounter(b)
    ensures PollCount(a) == PollCount(b)
  {
  }

  /** FirstEmitting only looks at the first n replies. */
  lemma {:induction false} FirstEmittingPrefix(replies: seq<string>, more: seq<string>, n: nat)
    requires n <= |replies|
    ensures FirstEmitting(replies + more, n) == FirstEmitting(replies, n)
    decreases n
  {
    if n > 0 {
      FirstEmittingPrefix(replies, more, n - 1);
      assert (replies + more)[n - 1] == replies[n - 1];
    }
  }
}

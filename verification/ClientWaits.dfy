/**
 The client's single response buffer. Responses carry nothing that tells which request they answer;
 the client sends one request at a time and takes what the buffer holds when the event is signalled.
 An answer that comes after its request gave up is taken by a later one.
 */
module ClientWaits {
  import opened Common
  import opened Sequences

  /** How the wait of a request ended; `answer` says whose answer was taken. */
  datatype Outcome = TimedOut | Got(answer: nat)

  /** The event has been seen and is reset, but the buffer has not been read yet. */
  datatype Phase = Idle | Waiting | Woken

  /**
   The buffer holds the answer to request `buf`, the event tells that it is new. Requests are numbered
   as they are sent; `outcomes` lists those that are over, `arrived` those whose answer has come.
   */
  datatype Client = Client(phase: Phase, buf: nat, signalled: bool, outcomes: seq<Outcome>, arrived: set<nat>)

  datatype Step =
    | Send
    | Arrive(req: nat) // the listener accepts the answer to a request that was sent, at any time, but once
    | Wake
    | Take
    | GiveUp

  const START := Client(Idle, 0, false, [], {})

  /** The number of requests sent. */
  function Sent(cl: Client): nat { |cl.outcomes| + if cl.phase.Idle? then 0 else 1 }

  predicate Enabled(cl: Client, step: Step) {
    match step
    case Send => cl.phase.Idle?
    case Arrive(q) => q < Sent(cl) && q !in cl.arrived
    case Wake => cl.phase.Waiting? && cl.signalled
    case Take => cl.phase.Woken?
    case GiveUp => cl.phase.Waiting? && !cl.signalled
  }

  function Apply(cl: Client, step: Step): Client {
    if !Enabled(cl, step) then cl else
    match step
    case Send => cl.(phase := Waiting)
    case Arrive(q) => cl.(buf := q, signalled := true, arrived := cl.arrived + {q})
    case Wake => cl.(phase := Woken, signalled := false)
    case Take => cl.(phase := Idle, signalled := false, outcomes := cl.outcomes + [Got(cl.buf)])
    case GiveUp => cl.(phase := Idle, outcomes := cl.outcomes + [TimedOut])
  }

  function Run(steps: seq<Step>): Client {
    if |steps| == 0 then START else Apply(Run(steps[..|steps| - 1]), steps[|steps| - 1])
  }

  /** Which waits returned something, in order. */
  function Returned(outcomes: seq<Outcome>): (r: seq<bool>)
    ensures |r| == |outcomes|
  {
    seq(|outcomes|, i requires 0 <= i < |outcomes| => outcomes[i].Got?)
  }

  predicate AllReturned(outcomes: seq<Outcome>, n: nat)
    requires n <= |outcomes|
  {
    forall i :: 0 <= i < n ==> outcomes[i].Got?
  }

  /** Every wait that returned has returned the answer to its own request. */
  ghost predicate OnlyOwn(outcomes: seq<Outcome>) {
    forall i :: 0 <= i < |outcomes| && outcomes[i].Got? ==> outcomes[i].answer == i
  }

  /**
   Up to the first request that gave up, answers go where they belong, and while none has given up the
   only answer that can be new is that of the request being waited for.
   */
  ghost predicate Inv(cl: Client) {
    match cl
    case Client(phase, buf, signalled, outcomes, arrived) =>
      && (forall n :: 0 <= n < |outcomes| && AllReturned(outcomes, n + 1) ==> outcomes[n].answer == n)
      && (AllReturned(outcomes, |outcomes|) ==>
        && (forall n :: 0 <= n < |outcomes| ==> n in arrived)
        && (forall n :: n in arrived ==> n < Sent(cl))
        && (signalled || phase.Woken? ==> buf == |outcomes| && |outcomes| in arrived && !phase.Idle?))
  }

  lemma EndKeepsInv(cl: Client, step: Step)
    requires Inv(cl) && Enabled(cl, step) && (step.Take? || step.GiveUp?)
    ensures Inv(Apply(cl, step))
  {
    var next := Apply(cl, step);
    var k := |cl.outcomes|;
    forall n | 0 <= n <= k && AllReturned(next.outcomes, n + 1) ensures next.outcomes[n].answer == n {
      assert forall i :: 0 <= i <= n ==> next.outcomes[i].Got?;
      assert forall i :: 0 <= i < k ==> next.outcomes[i] == cl.outcomes[i];
      if n < k {
        assert AllReturned(cl.outcomes, n + 1);
      } else {
        assert AllReturned(cl.outcomes, k);
      }
    }
    if AllReturned(next.outcomes, k + 1) {
      assert next.outcomes[k].Got?;
      assert forall i :: 0 <= i < k ==> next.outcomes[i] == cl.outcomes[i];
      assert AllReturned(cl.outcomes, k);
    }
  }

  lemma StepKeepsInv(cl: Client, step: Step)
    requires Inv(cl)
    ensures Inv(Apply(cl, step))
  {
    if Enabled(cl, step) && (step.Take? || step.GiveUp?) { EndKeepsInv(cl, step); }
  }

  lemma {:induction false} RunKeepsInv(steps: seq<Step>)
    ensures Inv(Run(steps))
  {
    if |steps| > 0 {
      RunKeepsInv(steps[..|steps| - 1]);
      StepKeepsInv(Run(steps[..|steps| - 1]), steps[|steps| - 1]);
    }
  }

  /** No wait returns once an earlier one has timed out. */
  ghost predicate NoneAfterTimeout(returned: seq<bool>) {
    forall i, j :: 0 <= i < j < |returned| && returned[j] ==> returned[i]
  }

  lemma OwnWithoutTimeouts(steps: seq<Step>)
    requires NoneAfterTimeout(Returned(Run(steps).outcomes))
    ensures OnlyOwn(Run(steps).outcomes)
  {
    RunKeepsInv(steps);
    var outcomes := Run(steps).outcomes;
    forall n | 0 <= n < |outcomes| && outcomes[n].Got? ensures outcomes[n].answer == n {
      assert Returned(outcomes)[n];
      forall i | 0 <= i <= n ensures outcomes[i].Got? { assert Returned(outcomes)[i]; }
      assert AllReturned(outcomes, n + 1);
    }
  }

  // ---------------------------------------------------------------- after a timeout

  /** One request: nothing comes in time, or its own answer does, or the late one. */
  function RequestSteps(got: bool, answer: nat): seq<Step> {
    if got then [Send, Arrive(answer), Wake, Take] else [Send, GiveUp]
  }

  /** All requests, of which number `late` is sent when the answer to number `lost` comes at last. */
  function Story(returned: seq<bool>, lost: nat, late: nat): seq<Step> {
    if |returned| == 0 then []
    else
      var n := |returned| - 1;
      Story(returned[..n], lost, late) + RequestSteps(returned[n], if n == late then lost else n)
  }

  function Ends(returned: seq<bool>, lost: nat, late: nat): (outcomes: seq<Outcome>)
    ensures |outcomes| == |returned|
  {
    seq(|returned|,
        i requires 0 <= i < |returned| => if returned[i] then Got(if i == late then lost else i) else TimedOut)
  }

  lemma {:induction false} RunBoth(a: seq<Step>, step: Step)
    ensures Run(a + [step]) == Apply(Run(a), step)
  {
    assert (a + [step])[..|a|] == a;
  }

  /** Between two requests, only answers to earlier requests that returned have come, and perhaps the lost one. */
  ghost predicate Between(cl: Client, outcomes: seq<Outcome>, lost: nat, late: nat) {
    && cl.phase.Idle? && !cl.signalled && cl.outcomes == outcomes
    && (forall n :: n in cl.arrived ==> n < |outcomes|)
    && (lost in cl.arrived ==> |outcomes| > late)
  }

  lemma RequestRuns(a: seq<Step>, outcomes: seq<Outcome>, got: bool, answer: nat, lost: nat, late: nat)
    requires Between(Run(a), outcomes, lost, late) && lost < late
    requires answer == if |outcomes| == late then lost else |outcomes|
    requires |outcomes| == lost ==> !got
    ensures Between(Run(a + RequestSteps(got, answer)), outcomes + [if got then Got(answer) else TimedOut], lost, late)
  {
    RunBoth(a, Send);
    if got {
      RunBoth(a + [Send], Arrive(answer));
      RunBoth(a + [Send] + [Arrive(answer)], Wake);
      RunBoth(a + [Send] + [Arrive(answer)] + [Wake], Take);
      assert a + RequestSteps(true, answer) == a + [Send] + [Arrive(answer)] + [Wake] + [Take];
    } else {
      RunBoth(a + [Send], GiveUp);
      assert a + RequestSteps(false, answer) == a + [Send] + [GiveUp];
    }
  }

  lemma {:induction false} StoryRuns(returned: seq<bool>, lost: nat, late: nat)
    requires lost < late && (lost < |returned| ==> !returned[lost])
    ensures Between(Run(Story(returned, lost, late)), Ends(returned, lost, late), lost, late)
  {
    if |returned| > 0 {
      var n := |returned| - 1;
      StoryRuns(returned[..n], lost, late);
      RequestRuns(Story(returned[..n], lost, late), Ends(returned[..n], lost, late), returned[n],
                  if n == late then lost else n, lost, late);
      assert Ends(returned, lost, late)
           == Ends(returned[..n], lost, late) + [if returned[n] then Got(if n == late then lost else n) else TimedOut];
    } else {
      assert Ends([], lost, late) == [];
    }
  }

  /** If the waits of the run ended in this way, those that returned have returned own answers. */
  ghost predicate Harmless(steps: seq<Step>, returned: seq<bool>) {
    Returned(Run(steps).outcomes) == returned ==> OnlyOwn(Run(steps).outcomes)
  }

  /**
   Knowing only which waits returned and which timed out, the client can rely on every answer being
   that to its own request if and only if no wait has returned after one that timed out.
   */
  lemma OwnAnswersIff(returned: seq<bool>)
    ensures (forall steps :: Harmless(steps, returned)) <==> NoneAfterTimeout(returned)
  {
    if NoneAfterTimeout(returned) {
      forall steps ensures Harmless(steps, returned) {
        if Returned(Run(steps).outcomes) == returned { OwnWithoutTimeouts(steps); }
      }
    } else {
      var lost, late :| 0 <= lost < late < |returned| && returned[late] && !returned[lost];
      LateAnswerIsTaken(returned, lost, late);
      assert !Harmless(Story(returned, lost, late), returned);
    }
  }

  /** Otherwise a later request can be handed the answer to one that gave up. */
  lemma LateAnswerIsTaken(returned: seq<bool>, lost: nat, late: nat)
    requires lost < late < |returned| && returned[late] && !returned[lost]
    ensures var outcomes := Run(Story(returned, lost, late)).outcomes;
      && Returned(outcomes) == returned && |outcomes| == |returned| && outcomes[late] == Got(lost) && !OnlyOwn(outcomes)
  {
    StoryRuns(returned, lost, late);
    var outcomes := Run(Story(returned, lost, late)).outcomes;
    assert outcomes == Ends(returned, lost, late);
    assert Returned(outcomes) == returned;
    assert outcomes[late] == Got(lost);
  }
}

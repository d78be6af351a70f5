/**
 The Sender's response slots: each has its own mailbox; a request takes a free slot, stamps it with
 a two-byte nonce, and accepts only an answer that echoes this nonce. A request that gives up
 releases its slot while its answer may still be on the way.
 */
module SenderSlots {
  import opened Common
  import opened Bytes
  import opened Crypto
  import opened Sequences

  const SLOT_NONCE_BYTES := 2
  const MAX_ANSWER := MAX_INNER_PAYLOAD - SLOT_NONCE_BYTES // the gateway leaves room for the nonce

  type Nonce = n: Octets | |n| == SLOT_NONCE_BYTES witness Zeros(SLOT_NONCE_BYTES)

  /** A slot of the pool; box is what its listener last accepted and nobody has read yet, without the flags byte. */
  datatype Slot = Slot(inUse: bool, nonce: Nonce, box: Option<Octets>)

  /** What the gateway sends back: the request's nonce before the cache server's answer. */
  function Echoed(nonce: Nonce, answer: Octets): (r: Octets)
    ensures |r| == SLOT_NONCE_BYTES + |answer|
  {
    nonce + answer
  }

  /** The answer in a response, if the response echoes this nonce; cut to the caller's buffer. */
  function Accepted(nonce: Nonce, response: Octets): (r: Option<Octets>)
    ensures r.Some? ==> |r.value| <= MAX_INNER_PAYLOAD
  {
    if |response| < SLOT_NONCE_BYTES || response[..SLOT_NONCE_BYTES] != nonce then None
    else
      var answer := response[SLOT_NONCE_BYTES..];
      Some(if |answer| > MAX_INNER_PAYLOAD then answer[..MAX_INNER_PAYLOAD] else answer)
  }

  lemma AcceptsIff(mine: Nonce, theirs: Nonce, answer: Octets)
    ensures Accepted(mine, Echoed(theirs, answer)).Some? <==> mine == theirs
    ensures |answer| <= MAX_INNER_PAYLOAD ==> Accepted(mine, Echoed(mine, answer)) == Some(answer)
  {
  }

  ghost predicate IsFirstEcho(nonce: Nonce, queue: seq<Octets>, i: nat, answer: Option<Octets>)
    requires i < |queue|
  {
    answer == Accepted(nonce, queue[i]) && forall j :: 0 <= j < i ==> Accepted(nonce, queue[j]).None?
  }

  predicate IsFree(s: Slot) { !s.inUse }

  /** Scan k is the first to find a free slot, and the first one it finds is `slot`. */
  ghost predicate IsFirstChance(polls: nat -> seq<Slot>, k: nat, slot: nat) {
    && FirstWhere(IsFree, polls(k), 0) == Some(slot)
    && (forall j: nat :: j < k ==> FirstWhere(IsFree, polls(j), 0).None?)
  }

  class SlotPool {
    var slots: seq<Slot>

    constructor ()
      ensures slots == seq(SENDER_RESPONSE_PORT_COUNT, _ => Slot(false, Zeros(SLOT_NONCE_BYTES), None))
    {
      slots := seq(SENDER_RESPONSE_PORT_COUNT, _ => Slot(false, Zeros(SLOT_NONCE_BYTES), None));
    }

    /** One scan under the pool lock. */
    method TryAcquire() returns (taken: Option<nat>)
      modifies this
      ensures taken == FirstWhere(IsFree, old(slots), 0)
      ensures slots
           == if taken.None? then old(slots) else old(slots)[taken.value := old(slots)[taken.value].(inUse := true)]
    {
      for i := 0 to |slots|
        invariant slots == old(slots) && FirstWhere(IsFree, slots, 0) == FirstWhere(IsFree, slots, i)
      {
        if !slots[i].inUse {
          slots := slots[i := slots[i].(inUse := true)];
          return Some(i);
        }
      }
      taken := None;
    }

    /**
     Scans, sleeps and scans again until a slot is free; polls(k) is the pool as other threads have
     left it when scan k begins. It returns because some scan, number `when` at the latest, finds a free slot.
     */
    method AcquireSlot(polls: nat -> seq<Slot>, ghost when: nat) returns (slot: nat)
      requires slots == polls(0) && FirstWhere(IsFree, polls(when), 0).Some?
      modifies this
      ensures exists k: nat ::
        k <= when && IsFirstChance(polls, k, slot) && slots == polls(k)[slot := polls(k)[slot].(inUse := true)]
    {
      var k: nat := 0;
      while true
        invariant k <= when && slots == polls(k)
        invariant forall j: nat :: j < k ==> FirstWhere(IsFree, polls(j), 0).None?
        decreases when - k
      {
        var taken := TryAcquire();
        if taken.Some? {
          assert IsFirstChance(polls, k, taken.value);
          return taken.value;
        }
        k := k + 1;
        slots := polls(k);
      }
    }

    method ReleaseSlot(slot: nat)
      requires slot < |slots|
      modifies this
      ensures slots == old(slots)[slot := old(slots)[slot].(inUse := false)]
    {
      slots := slots[slot := slots[slot].(inUse := false)];
    }

    /**
     Reads the mailbox until a response echoes this slot's nonce or the time is up; `arrivals` is
     what the listener puts into the mailbox while the caller waits.
     */
    method SenderWaitResponse(slot: nat, arrivals: seq<Octets>) returns (answer: Option<Octets>)
      requires slot < |slots|
      modifies this
      ensures var queue := (if old(slots)[slot].box.Some? then [old(slots)[slot].box.value] else []) + arrivals;
        && (answer.None? <==> forall i :: 0 <= i < |queue| ==> Accepted(old(slots)[slot].nonce, queue[i]).None?)
        && (answer.Some? ==> exists i :: 0 <= i < |queue| && IsFirstEcho(old(slots)[slot].nonce, queue, i, answer))
      ensures |slots| == |old(slots)| && slots == old(slots)[slot := old(slots)[slot].(box := None)]
    {
      var queue := (if slots[slot].box.Some? then [slots[slot].box.value] else []) + arrivals;
      for n := 0 to |queue|
        invariant |slots| == |old(slots)| && slots == old(slots)[slot := slots[slot]]
        invariant slots[slot].nonce == old(slots)[slot].nonce
        invariant slots[slot] == old(slots)[slot] || slots[slot] == old(slots)[slot].(box := None)
        invariant n == |queue| > 0 ==> slots[slot].box.None?
        invariant forall j :: 0 <= j < n ==> Accepted(slots[slot].nonce, queue[j]).None?
      {
        slots := slots[slot := slots[slot].(box := None)];
        answer := Accepted(slots[slot].nonce, queue[n]);
        if answer.Some? {
          assert IsFirstEcho(old(slots)[slot].nonce, queue, n, answer);
          return;
        }
      }
      answer := None;
      assert queue == [] ==> slots[slot] == old(slots)[slot].(box := None);
    }
  }

  // ---------------------------------------------------------------- every interleaving

  /** A thread holding a slot, and the request it has sent from it. */
  datatype Thread = Idle | Holding(slot: nat, req: Option<nat>)

  /** The slot and nonce of a request that was sent. */
  datatype Request = Request(slot: nat, nonce: Nonce)

  /** What a response really answers. Recorded for the statements only. */
  datatype Origin = AnswerTo(req: nat, answer: Octets)

  datatype Result = Result(req: nat, answer: Octets, origin: Origin)

  datatype System = System(
    slots: seq<Slot>, threads: seq<Thread>, requests: seq<Request>,
    origins: seq<Option<Origin>>, // of what is in each slot's box
    results: seq<Result>)         // what waits have returned

  datatype Step =
    | Acquire(t: nat, slot: nat)
    | Send(t: nat, nonce: Nonce)
    | Arrive(req: nat, answer: Octets) // at any time, also after the requester gave up
    | Wait(t: nat)
    | Release(t: nat)                  // done or timed out

  function Start(slots: nat, threads: nat): System {
    System(seq(slots, _ => Slot(false, Zeros(SLOT_NONCE_BYTES), None)), seq(threads, _ => Idle), [],
           seq(slots, _ => None), [])
  }

  ghost predicate Shaped(sys: System) {
    && |sys.origins| == |sys.slots|
    && (forall t :: 0 <= t < |sys.threads| && sys.threads[t].Holding? ==>
      sys.threads[t].slot < |sys.slots| && (sys.threads[t].req.Some? ==> sys.threads[t].req.value < |sys.requests|))
    && (forall q :: 0 <= q < |sys.requests| ==> sys.requests[q].slot < |sys.slots|)
  }

  ghost predicate Holds(sys: System, t: nat) {
    t < |sys.threads| && sys.threads[t].Holding? && sys.threads[t].slot < |sys.slots|
  }

  ghost predicate Enabled(sys: System, step: Step) {
    match step
    case Acquire(t, i) => t < |sys.threads| && sys.threads[t].Idle? && FirstWhere(IsFree, sys.slots, 0) == Some(i)
    case Send(t, _) => Holds(sys, t) && sys.threads[t].req.None?
    case Arrive(q, answer) =>
      |answer| <= MAX_ANSWER && q < |sys.requests| && sys.requests[q].slot < |sys.slots| == |sys.origins|
    case Wait(t) => Holds(sys, t) && sys.threads[t].req.Some? && sys.slots[sys.threads[t].slot].box.Some?
      && |sys.slots| == |sys.origins| && sys.origins[sys.threads[t].slot].Some?
    case Release(t) => Holds(sys, t)
  }

  ghost function Apply(sys: System, step: Step): System {
    if !Enabled(sys, step) then sys else
    match step
    case Acquire(t, i) =>
      sys.(slots := sys.slots[i := sys.slots[i].(inUse := true)], threads := sys.threads[t := Holding(i, None)])
    case Send(t, nonce) =>
      var i := sys.threads[t].slot;
      sys.(slots := sys.slots[i := sys.slots[i].(nonce := nonce)], requests := sys.requests + [Request(i, nonce)],
           threads := sys.threads[t := Holding(i, Some(|sys.requests|))])
    case Arrive(q, answer) =>
      var i := sys.requests[q].slot;
      sys.(slots := sys.slots[i := sys.slots[i].(box := Some(Echoed(sys.requests[q].nonce, answer)))],
           origins := sys.origins[i := Some(AnswerTo(q, answer))])
    case Wait(t) =>
      var th := sys.threads[t];
      var s := sys.slots[th.slot];
      var got := Accepted(s.nonce, s.box.value);
      sys.(slots := sys.slots[th.slot := s.(box := None)],
           results := sys.results
           + if got.Some? then [Result(th.req.value, got.value, sys.origins[th.slot].value)] else [])
    case Release(t) =>
      var i := sys.threads[t].slot;
      sys.(slots := sys.slots[i := sys.slots[i].(inUse := false)], threads := sys.threads[t := Idle])
  }

  // ---------------------------------------------------------------- invariant

  /** A slot is in use exactly while one thread holds it. */
  ghost predicate OneHolder(sys: System) {
    && (forall t :: 0 <= t < |sys.threads| && sys.threads[t].Holding? ==>
      sys.threads[t].slot < |sys.slots| && sys.slots[sys.threads[t].slot].inUse)
    && (forall t, u :: 0 <= t < u < |sys.threads| && sys.threads[t].Holding? && sys.threads[u].Holding? ==>
      sys.threads[t].slot != sys.threads[u].slot)
  }

  /** The slot a thread waits on is stamped with its own request's nonce. */
  ghost predicate Stamped(sys: System, th: Thread) {
    th.Holding? && th.req.Some? ==>
      && th.slot < |sys.slots| && th.req.value < |sys.requests|
      && sys.requests[th.req.value] == Request(th.slot, sys.slots[th.slot].nonce)
  }

  /** A full box holds what its recorded origin says. */
  ghost predicate Boxed(sys: System, i: nat) {
    && Shaped(sys) && i < |sys.slots|
    && (sys.slots[i].box.Some? ==>
      && sys.origins[i].Some?
      && var AnswerTo(q, answer) := sys.origins[i].value;
        && q < |sys.requests| && sys.requests[q].slot == i && |answer| <= MAX_ANSWER
        && sys.slots[i].box.value == Echoed(sys.requests[q].nonce, answer))
  }

  /**
   A returned answer came from a response that carried the nonce of the request it was returned to, on the
   same slot.
   */
  ghost predicate Matched(sys: System, r: Result) {
    && r.req < |sys.requests| && r.origin.req < |sys.requests|
    && sys.requests[r.origin.req] == sys.requests[r.req] && r.answer == r.origin.answer
  }

  ghost predicate Inv(sys: System) {
    && Shaped(sys) && OneHolder(sys)
    && (forall t :: 0 <= t < |sys.threads| ==> Stamped(sys, sys.threads[t]))
    && (forall i :: 0 <= i < |sys.slots| ==> Boxed(sys, i))
    && (forall n :: 0 <= n < |sys.results| ==> Matched(sys, sys.results[n]))
  }

  lemma WaitMatches(sys: System, t: nat)
    requires Inv(sys) && Enabled(sys, Wait(t))
    ensures forall n :: 0 <= n < |Apply(sys, Wait(t)).results| ==> Matched(sys, Apply(sys, Wait(t)).results[n])
  {
    var th := sys.threads[t];
    var s := sys.slots[th.slot];
    var got := Accepted(s.nonce, s.box.value);
    assert Stamped(sys, th) && Boxed(sys, th.slot);
    if got.Some? {
      var o := sys.origins[th.slot].value;
      AcceptsIff(s.nonce, sys.requests[o.req].nonce, o.answer);
      assert Echoed(sys.requests[o.req].nonce, o.answer)[SLOT_NONCE_BYTES..] == o.answer;
    }
  }

  lemma HolderStepKeepsInv(sys: System, step: Step)
    requires Inv(sys) && Enabled(sys, step) && (step.Acquire? || step.Release?)
    ensures Inv(Apply(sys, step))
  {
    var next := Apply(sys, step);
    forall i | 0 <= i < |next.slots| ensures Boxed(next, i) { assert Boxed(sys, i); }
    forall t | 0 <= t < |next.threads| ensures Stamped(next, next.threads[t]) { assert Stamped(sys, sys.threads[t]); }
    forall n | 0 <= n < |next.results| ensures Matched(next, next.results[n]) { assert Matched(sys, sys.results[n]); }
  }

  lemma SendKeepsInv(sys: System, t: nat, nonce: Nonce)
    requires Inv(sys) && Enabled(sys, Send(t, nonce))
    ensures Inv(Apply(sys, Send(t, nonce)))
  {
    var next := Apply(sys, Send(t, nonce));
    forall i | 0 <= i < |next.slots| ensures Boxed(next, i) { assert Boxed(sys, i); }
    forall u | 0 <= u < |next.threads| ensures Stamped(next, next.threads[u]) { assert Stamped(sys, sys.threads[u]); }
    forall n | 0 <= n < |next.results| ensures Matched(next, next.results[n]) { assert Matched(sys, sys.results[n]); }
  }

  lemma ArriveKeepsInv(sys: System, step: Step)
    requires Inv(sys) && Enabled(sys, step) && step.Arrive?
    ensures Inv(Apply(sys, step))
  {
    var next := Apply(sys, step);
    forall i | 0 <= i < |next.slots| ensures Boxed(next, i) { assert Boxed(sys, i); }
    forall t | 0 <= t < |next.threads| ensures Stamped(next, next.threads[t]) { assert Stamped(sys, sys.threads[t]); }
    forall n | 0 <= n < |next.results| ensures Matched(next, next.results[n]) { assert Matched(sys, sys.results[n]); }
  }

  lemma WaitKeepsInv(sys: System, t: nat)
    requires Inv(sys) && Enabled(sys, Wait(t))
    ensures Inv(Apply(sys, Wait(t)))
  {
    var next := Apply(sys, Wait(t));
    WaitMatches(sys, t);
    forall i | 0 <= i < |next.slots| ensures Boxed(next, i) { assert Boxed(sys, i); }
    forall u | 0 <= u < |next.threads| ensures Stamped(next, next.threads[u]) { assert Stamped(sys, sys.threads[u]); }
    forall n | 0 <= n < |next.results| ensures Matched(next, next.results[n]) { assert Matched(sys, next.results[n]); }
  }

  lemma StepKeepsInv(sys: System, step: Step)
    requires Inv(sys)
    ensures Inv(Apply(sys, step))
  {
    if Enabled(sys, step) {
      match step
      case Acquire(_, _) => HolderStepKeepsInv(sys, step);
      case Release(_) => HolderStepKeepsInv(sys, step);
      case Send(t, nonce) => SendKeepsInv(sys, t, nonce);
      case Arrive(_, _) => ArriveKeepsInv(sys, step);
      case Wait(t) => WaitKeepsInv(sys, t);
    }
  }

  /** The steps from a given state on. */
  ghost function After(sys: System, steps: seq<Step>): System {
    if |steps| == 0 then sys else Apply(After(sys, steps[..|steps| - 1]), steps[|steps| - 1])
  }

  ghost function Run(slots: nat, threads: nat, steps: seq<Step>): System { After(Start(slots, threads), steps) }

  lemma {:induction false} AfterKeepsInv(sys: System, steps: seq<Step>)
    requires Inv(sys)
    ensures Inv(After(sys, steps))
  {
    if |steps| > 0 {
      AfterKeepsInv(sys, steps[..|steps| - 1]);
      StepKeepsInv(After(sys, steps[..|steps| - 1]), steps[|steps| - 1]);
    }
  }

  lemma RunKeepsInv(slots: nat, threads: nat, steps: seq<Step>)
    ensures Inv(Run(slots, threads, steps))
  {
    AfterKeepsInv(Start(slots, threads), steps);
  }

  /** At most one thread holds a slot, and a held slot is in use. */
  lemma AtMostOneHolder(slots: nat, threads: nat, steps: seq<Step>, t: nat, u: nat)
    requires var sys := Run(slots, threads, steps);
      t < |sys.threads| && u < |sys.threads| && t != u && sys.threads[t].Holding? && sys.threads[u].Holding?
    ensures var sys := Run(slots, threads, steps);
      && sys.threads[t].slot != sys.threads[u].slot
      && sys.threads[t].slot < |sys.slots| && sys.slots[sys.threads[t].slot].inUse
  {
    RunKeepsInv(slots, threads, steps);
  }

  /** No two requests of a slot share a nonce. */
  ghost predicate FreshNonces(requests: seq<Request>) { Distinct(requests) }

  /** Every wait has returned the answer to its own request, as it was sent. */
  ghost predicate OnlyOwnAnswers(sys: System) {
    forall n :: 0 <= n < |sys.results| ==>
      sys.results[n].origin.req == sys.results[n].req && sys.results[n].answer == sys.results[n].origin.answer
  }

  /** With fresh nonces a wait returns the answer to its own request and to no other. */
  lemma AnswersNeverCross(slots: nat, threads: nat, steps: seq<Step>)
    requires FreshNonces(Run(slots, threads, steps).requests)
    ensures OnlyOwnAnswers(Run(slots, threads, steps))
  {
    RunKeepsInv(slots, threads, steps);
    var sys := Run(slots, threads, steps);
    forall n | 0 <= n < |sys.results| ensures sys.results[n].origin.req == sys.results[n].req {
      assert Matched(sys, sys.results[n]);
    }
  }

  // ---------------------------------------------------------------- without fresh nonces

  lemma {:induction false} AfterBoth(sys: System, a: seq<Step>, b: seq<Step>)
    ensures After(sys, a + b) == After(After(sys, a), b)
  {
    if |b| == 0 {
      assert a + b == a;
    } else {
      AfterBoth(sys, a, b[..|b| - 1]);
      assert (a + b)[..|a + b| - 1] == a + b[..|b| - 1];
    }
  }

  lemma AfterOne(sys: System, step: Step)
    ensures After(sys, [step]) == Apply(sys, step)
  {
    assert [step][..0] == [];
  }

  /** Threads 0..m-1 hold the slots of the same numbers; everybody else is idle. */
  ghost predicate Busy(sys: System, n: nat, m: nat, requests: seq<Request>, results: seq<Result>) {
    match sys
    case System(slots, threads, sent, origins, returned) =>
      && m <= n == |slots| == |threads| == |origins| && sent == requests && returned == results
      && (forall i :: 0 <= i < n ==> slots[i].inUse == (i < m))
      && (forall i :: 0 <= i < n ==> if i < m then threads[i].Holding? && threads[i].slot == i else threads[i] == Idle)
  }

  /** The first free slot is always the next one. */
  function Acquires(m: nat): seq<Step> {
    if m == 0 then [] else Acquires(m - 1) + [Acquire(m - 1, m - 1)]
  }

  function Releases(m: nat): seq<Step> {
    if m == 0 then [] else [Release(m - 1)] + Releases(m - 1)
  }

  lemma AcquireNext(sys: System, n: nat, m: nat, requests: seq<Request>, results: seq<Result>)
    requires Busy(sys, n, m, requests, results) && m < n
    ensures Busy(Apply(sys, Acquire(m, m)), n, m + 1, requests, results)
    ensures Apply(sys, Acquire(m, m)).threads[m] == Holding(m, None)
  {
    assert IsFree(sys.slots[m]) && forall i :: 0 <= i < m ==> !IsFree(sys.slots[i]);
  }

  lemma {:induction false} AcquireMany(sys: System, n: nat, m: nat, requests: seq<Request>, results: seq<Result>)
    requires Busy(sys, n, 0, requests, results) && m <= n
    ensures Busy(After(sys, Acquires(m)), n, m, requests, results)
    ensures m > 0 ==>
      |After(sys, Acquires(m)).threads| == n && After(sys, Acquires(m)).threads[m - 1] == Holding(m - 1, None)
  {
    if m > 0 {
      AcquireMany(sys, n, m - 1, requests, results);
      AfterBoth(sys, Acquires(m - 1), [Acquire(m - 1, m - 1)]);
      AfterOne(After(sys, Acquires(m - 1)), Acquire(m - 1, m - 1));
      AcquireNext(After(sys, Acquires(m - 1)), n, m - 1, requests, results);
    }
  }

  lemma ReleaseLast(sys: System, n: nat, m: nat, requests: seq<Request>, results: seq<Result>)
    requires Busy(sys, n, m, requests, results) && m > 0
    ensures Busy(Apply(sys, Release(m - 1)), n, m - 1, requests, results)
  {
  }

  lemma {:induction false} ReleaseMany(sys: System, n: nat, m: nat, requests: seq<Request>, results: seq<Result>)
    requires Busy(sys, n, m, requests, results)
    ensures Busy(After(sys, Releases(m)), n, 0, requests, results)
    decreases m
  {
    if m > 0 {
      AfterBoth(sys, [Release(m - 1)], Releases(m - 1));
      AfterOne(sys, Release(m - 1));
      ReleaseLast(sys, n, m, requests, results);
      ReleaseMany(Apply(sys, Release(m - 1)), n, m - 1, requests, results);
    }
  }

  /**
   All slots up to the one wanted are taken, the request is sent from it, something else happens, and all
   are released.
   */
  function Round(r: Request, middle: seq<Step>): seq<Step> {
    Acquires(r.slot + 1) + ([Send(r.slot, r.nonce)] + (middle + Releases(r.slot + 1)))
  }

  lemma SendFrom(sys: System, n: nat, r: Request, requests: seq<Request>, results: seq<Result>)
    requires Busy(sys, n, r.slot + 1, requests, results) && r.slot < n && sys.threads[r.slot] == Holding(r.slot, None)
    ensures var next := Apply(sys, Send(r.slot, r.nonce));
      && Busy(next, n, r.slot + 1, requests + [r], results)
      && next.threads[r.slot] == Holding(r.slot, Some(|requests|)) && next.slots[r.slot].nonce == r.nonce
  {
  }

  /** The state in which the request has been sent. */
  lemma UpToSend(sys: System, n: nat, r: Request, middle: seq<Step>, requests: seq<Request>,
                 results: seq<Result>) returns (sent: System)
    requires Busy(sys, n, 0, requests, results) && r.slot < n
    ensures After(sys, Round(r, middle)) == After(After(sent, middle), Releases(r.slot + 1))
    ensures Busy(sent, n, r.slot + 1, requests + [r], results)
    ensures |sent.threads| == |sent.slots| == n
    ensures sent.threads[r.slot] == Holding(r.slot, Some(|requests|)) && sent.slots[r.slot].nonce == r.nonce
  {
    var acquired := After(sys, Acquires(r.slot + 1));
    AcquireMany(sys, n, r.slot + 1, requests, results);
    AfterBoth(sys, Acquires(r.slot + 1), [Send(r.slot, r.nonce)] + (middle + Releases(r.slot + 1)));
    AfterBoth(acquired, [Send(r.slot, r.nonce)], middle + Releases(r.slot + 1));
    AfterOne(acquired, Send(r.slot, r.nonce));
    SendFrom(acquired, n, r, requests, results);
    sent := Apply(acquired, Send(r.slot, r.nonce));
    AfterBoth(sent, middle, Releases(r.slot + 1));
  }

  /** A request that gives up at once. */
  lemma PlainRound(sys: System, n: nat, r: Request, requests: seq<Request>, results: seq<Result>)
    requires Busy(sys, n, 0, requests, results) && r.slot < n
    ensures Busy(After(sys, Round(r, [])), n, 0, requests + [r], results)
  {
    var sent := UpToSend(sys, n, r, [], requests, results);
    ReleaseMany(sent, n, r.slot + 1, requests + [r], results);
  }

  /** What a request is handed when the answer to an earlier one with its slot and nonce arrives. */
  lemma TakesLateAnswer(sent: System, n: nat, r: Request, q: nat, answer: Octets, requests: seq<Request>,
                        results: seq<Result>)
    requires Busy(sent, n, r.slot + 1, requests + [r], results) && r.slot < n == |sent.slots| == |sent.threads|
    requires sent.threads[r.slot] == Holding(r.slot, Some(|requests|)) && sent.slots[r.slot].nonce == r.nonce
    requires q < |requests| && requests[q] == r && |answer| <= MAX_ANSWER
    ensures Busy(Apply(Apply(sent, Arrive(q, answer)), Wait(r.slot)), n, r.slot + 1, requests + [r],
                 results + [Result(|requests|, answer, AnswerTo(q, answer))])
  {
    AcceptsIff(r.nonce, r.nonce, answer);
    assert (requests + [r])[q] == r;
  }

  lemma CrossingRound(sys: System, n: nat, r: Request, q: nat, answer: Octets, requests: seq<Request>,
                      results: seq<Result>)
    requires Busy(sys, n, 0, requests, results) && r.slot < n && q < |requests| && requests[q] == r
    requires |answer| <= MAX_ANSWER
    ensures Busy(After(sys, Round(r, [Arrive(q, answer), Wait(r.slot)])), n, 0, requests + [r],
                 results + [Result(|requests|, answer, AnswerTo(q, answer))])
  {
    var middle := [Arrive(q, answer), Wait(r.slot)];
    var sent := UpToSend(sys, n, r, middle, requests, results);
    AfterBoth(sent, [Arrive(q, answer)], [Wait(r.slot)]);
    AfterOne(sent, Arrive(q, answer));
    AfterOne(Apply(sent, Arrive(q, answer)), Wait(r.slot));
    assert middle == [Arrive(q, answer)] + [Wait(r.slot)];
    TakesLateAnswer(sent, n, r, q, answer, requests, results);
    ReleaseMany(After(sent, middle), n, r.slot + 1, requests + [r],
                results + [Result(|requests|, answer, AnswerTo(q, answer))]);
  }

  /** What happens between sending request n and giving up its slot. */
  function Middle(r: Request, n: nat, q: nat, late: nat, answer: Octets): seq<Step> {
    if n == late then [Arrive(q, answer), Wait(r.slot)] else []
  }

  /** What waits have returned after n requests. */
  function Returned(n: nat, q: nat, late: nat, answer: Octets): seq<Result> {
    if late < n then [Result(late, answer, AnswerTo(q, answer))] else []
  }

  /** Every request of the list is sent in turn; number `late` finds the answer to number `q` in its box. */
  function Rounds(requests: seq<Request>, q: nat, late: nat, answer: Octets): seq<Step> {
    if |requests| == 0 then []
    else
      var n := |requests| - 1;
      Rounds(requests[..n], q, late, answer) + Round(requests[n], Middle(requests[n], n, q, late, answer))
  }

  lemma NextRound(sys: System, slots: nat, init: seq<Request>, r: Request, q: nat, late: nat, answer: Octets)
    requires Busy(sys, slots, 0, init, Returned(|init|, q, late, answer)) && r.slot < slots && |answer| <= MAX_ANSWER
    requires q < late && (late == |init| ==> init[q] == r)
    ensures Busy(After(sys, Round(r, Middle(r, |init|, q, late, answer))), slots, 0, init + [r],
                 Returned(|init| + 1, q, late, answer))
  {
    if |init| == late {
      CrossingRound(sys, slots, r, q, answer, init, []);
      assert [] + [Result(late, answer, AnswerTo(q, answer))] == [Result(late, answer, AnswerTo(q, answer))];
    } else {
      PlainRound(sys, slots, r, init, Returned(|init|, q, late, answer));
    }
  }

  lemma {:induction false} RoundsRun(slots: nat, requests: seq<Request>, q: nat, late: nat, answer: Octets)
    requires forall i :: 0 <= i < |requests| ==> requests[i].slot < slots
    requires q < late && (late < |requests| ==> requests[q] == requests[late]) && |answer| <= MAX_ANSWER
    ensures Busy(Run(slots, slots, Rounds(requests, q, late, answer)), slots, 0, requests,
                 Returned(|requests|, q, late, answer))
  {
    if |requests| > 0 {
      var n := |requests| - 1;
      var init, r := requests[..n], requests[n];
      var before := Rounds(init, q, late, answer);
      RoundsRun(slots, init, q, late, answer);
      AfterBoth(Start(slots, slots), before, Round(r, Middle(r, n, q, late, answer)));
      NextRound(Run(slots, slots, before), slots, init, r, q, late, answer);
      assert requests == init + [r];
    }
  }

  /** If the run sends exactly these requests, its waits return only own answers. */
  ghost predicate Harmless(slots: nat, threads: nat, steps: seq<Step>, requests: seq<Request>) {
    Run(slots, threads, steps).requests == requests ==> OnlyOwnAnswers(Run(slots, threads, steps))
  }

  /**
   For every pool: all runs that send these requests return only own answers if and only if no two of a slot
   share a nonce.
   */
  lemma NeverCrossIff(slots: nat, requests: seq<Request>)
    requires forall i :: 0 <= i < |requests| ==> requests[i].slot < slots
    ensures (forall threads: nat, steps: seq<Step> :: Harmless(slots, threads, steps, requests)) <==>
      FreshNonces(requests)
  {
    if FreshNonces(requests) {
      forall threads: nat, steps: seq<Step> ensures Harmless(slots, threads, steps, requests) {
        if Run(slots, threads, steps).requests == requests { AnswersNeverCross(slots, threads, steps); }
      }
    } else {
      var q, late :| 0 <= q < late < |requests| && requests[q] == requests[late];
      SameNonceCrosses(slots, requests, q, late, []);
      assert !Harmless(slots, slots, Rounds(requests, q, late, []), requests);
    }
  }

  /** Where two do, the later request can be handed the answer to the earlier one, whatever it says. */
  lemma SameNonceCrosses(slots: nat, requests: seq<Request>, q: nat, late: nat, answer: Octets)
    requires forall i :: 0 <= i < |requests| ==> requests[i].slot < slots
    requires q < late < |requests| && requests[q] == requests[late] && |answer| <= MAX_ANSWER
    ensures var sys := Run(slots, slots, Rounds(requests, q, late, answer));
      && sys.requests == requests && sys.results == [Result(late, answer, AnswerTo(q, answer))]
      && !OnlyOwnAnswers(sys)
  {
    RoundsRun(slots, requests, q, late, answer);
    var sys := Run(slots, slots, Rounds(requests, q, late, answer));
    assert sys.results[0] == Result(late, answer, AnswerTo(q, answer));
  }
}

/**
 The gateway's response mailbox: a ring of 32 entries per session, filled by request threads and
 drained by two others, the cover dispatch (any age) and the flush thread (old entries only).
 */
module Mailbox {
  import opened Common
  import opened Bytes
  import opened Crypto
  import opened Sequences

  const PENDING_RESP_QUEUE := 32
  const PENDING_RESPONSE_MAX_WAIT_MS := 400

  /** A queued response with the return header of its own request; since is the time it was queued. */
  datatype Entry = Entry(resp: Octets, hdr: Octets, since: nat)

  function Push<T>(q: seq<T>, e: T): (r: seq<T>)
    ensures |q| <= PENDING_RESP_QUEUE ==> |r| <= PENDING_RESP_QUEUE
    ensures |r| > 0 && r[|r| - 1] == e
  {
    (if |q| == PENDING_RESP_QUEUE then q[1..] else q) + [e]
  }

  /** Whether the head may be taken by a drain that asks for a minimum age (0: any). */
  predicate Due(q: seq<Entry>, maxAge: nat, now: nat) {
    |q| > 0 && Ripe(q[0], maxAge, now)
  }

  predicate Ripe(e: Entry, maxAge: nat, now: nat) { maxAge == 0 || Age(now, e.since) >= maxAge }

  class Ring {
    const pending: array<Entry>
    var head: nat
    var count: nat

    ghost predicate Valid()
      reads this, pending
    {
      pending.Length == PENDING_RESP_QUEUE && head < PENDING_RESP_QUEUE && count <= PENDING_RESP_QUEUE
    }

    /** The queue the ring stands for, oldest first. */
    ghost function Contents(): (q: seq<Entry>)
      requires Valid()
      reads this, pending
      ensures |q| == count
    {
      seq(count, i requires 0 <= i < count && Valid() reads this, pending => pending[(head + i) % PENDING_RESP_QUEUE])
    }

    constructor ()
      ensures Valid() && fresh(pending) && Contents() == []
    {
      pending := new Entry[PENDING_RESP_QUEUE](_ => Entry([], [], 0));
      head, count := 0, 0;
    }

    method Advance()
      requires Valid() && count > 0
      modifies this
      ensures Valid() && count == old(count) - 1 && Contents() == old(Contents())[1..]
    {
      head := (head + 1) % PENDING_RESP_QUEUE;
      count := count - 1;
      assert Contents() == old(Contents())[1..] by {
        forall i | 0 <= i < count ensures Contents()[i] == old(Contents())[1..][i] {
          NextPlace(old(head), i);
        }
      }
    }

    method Append(e: Entry)
      requires Valid() && count < PENDING_RESP_QUEUE
      modifies this, pending
      ensures Valid() && Contents() == old(Contents()) + [e]
    {
      pending[(head + count) % PENDING_RESP_QUEUE] := e;
      count := count + 1;
      forall i | 0 <= i < count ensures Contents()[i] == (old(Contents()) + [e])[i] {
        if i < count - 1 { OtherPlace(head, i, count - 1); }
      }
    }

    /** Queues a response; a full ring drops its oldest entry first. */
    method SendResponse(resp: Octets, hdr: Octets, now: nat) returns (rc: int)
      requires Valid()
      modifies this, pending
      ensures Valid()
      ensures rc == if |resp| > MAX_INNER_PAYLOAD then -1 else 0
      ensures Contents() == if rc == 0 then Push(old(Contents()), Entry(resp, hdr, now)) else old(Contents())
    {
      if |resp| > MAX_INNER_PAYLOAD { return -1; }
      if count == PENDING_RESP_QUEUE { Advance(); }
      Append(Entry(resp, hdr, now));
      rc := 0;
    }

    method PendingPop(maxAge: nat, now: nat) returns (taken: Option<Entry>)
      requires Valid()
      modifies this
      ensures Valid()
      ensures if Due(old(Contents()), maxAge, now)
              then taken == Some(old(Contents())[0]) && Contents() == old(Contents())[1..]
              else taken == None && Contents() == old(Contents())
      ensures taken.None? <==>
        old(count) == 0 || (maxAge > 0 && (now - old(Contents())[0].since) % TICKS < maxAge)
    {
      if count == 0 { return None; }
      var e := pending[head];
      assert e == Contents()[0];
      if maxAge != 0 && Age(now, e.since) < maxAge { return None; }
      Advance();
      taken := Some(e);
    }
  }

  /** Places on the ring. */
  lemma NextPlace(head: nat, i: nat)
    requires head < PENDING_RESP_QUEUE && i < PENDING_RESP_QUEUE
    ensures ((head + 1) % PENDING_RESP_QUEUE + i) % PENDING_RESP_QUEUE == (head + (i + 1)) % PENDING_RESP_QUEUE
  {
  }

  lemma OtherPlace(head: nat, i: nat, j: nat)
    requires head < PENDING_RESP_QUEUE && i < j < PENDING_RESP_QUEUE
    ensures (head + i) % PENDING_RESP_QUEUE != (head + j) % PENDING_RESP_QUEUE
  {
  }

  // ---------------------------------------------------------------- every run

  /** Why an entry left the queue. */
  datatype Gone = Popped(entry: Entry) | Dropped(entry: Entry)

  datatype System = System(queue: seq<Entry>, clock: nat, pushed: seq<Entry>, gone: seq<Gone>)

  datatype Step =
    | Tick(ms: nat)
    | Enqueue(resp: Octets, hdr: Octets)
    | CoverPop // the cover dispatch
    | FlushPop // the flush thread

  function MaxAge(step: Step): nat { if step.FlushPop? then PENDING_RESPONSE_MAX_WAIT_MS else 0 }

  function Apply(sys: System, step: Step): System {
    match step
    case Tick(ms) => sys.(clock := sys.clock + ms)
    case Enqueue(resp, hdr) =>
      if |resp| > MAX_INNER_PAYLOAD then sys else
      var e := Entry(resp, hdr, sys.clock);
      sys.(queue := Push(sys.queue, e), pushed := sys.pushed + [e],
           gone := sys.gone + if |sys.queue| == PENDING_RESP_QUEUE then [Dropped(sys.queue[0])] else [])
    case _ =>
      if Due(sys.queue, MaxAge(step), sys.clock)
      then sys.(queue := sys.queue[1..], gone := sys.gone + [Popped(sys.queue[0])])
      else sys
  }

  function Run(steps: seq<Step>): System {
    if |steps| == 0 then System([], 0, [], []) else Apply(Run(steps[..|steps| - 1]), steps[|steps| - 1])
  }

  function EntryOf(g: Gone): Entry { g.entry }

  function EntriesOf(gone: seq<Gone>): seq<Entry> { Map(EntryOf, gone) }

  predicate IsPopped(g: Gone) { g.Popped? }

  predicate IsDropped(g: Gone) { g.Dropped? }

  function Delivered(gone: seq<Gone>): (r: seq<Entry>)
    ensures |r| <= |gone|
  {
    EntriesOf(Filter(IsPopped, gone))
  }

  function Lost(gone: seq<Gone>): (r: seq<Entry>)
    ensures |r| <= |gone|
  {
    EntriesOf(Filter(IsDropped, gone))
  }

  ghost predicate Inv(sys: System) {
    && |sys.queue| <= PENDING_RESP_QUEUE
    && EntriesOf(sys.gone) + sys.queue == sys.pushed
    && (forall i :: 0 <= i < |sys.queue| ==> sys.queue[i].since <= sys.clock)
    && (forall i, j :: 0 <= i < j < |sys.queue| ==> sys.queue[i].since <= sys.queue[j].since)
  }

  lemma LeaveFront(sys: System, g: Gone)
    requires EntriesOf(sys.gone) + sys.queue == sys.pushed && |sys.queue| > 0 && g.entry == sys.queue[0]
    ensures EntriesOf(sys.gone + [g]) + sys.queue[1..] == sys.pushed
  {
    MapSnoc(EntryOf, sys.gone, g);
    MoveOne(EntriesOf(sys.gone), sys.queue);
  }

  lemma StepKeepsInv(sys: System, step: Step)
    requires Inv(sys)
    ensures Inv(Apply(sys, step))
  {
    if |sys.queue| > 0 {
      LeaveFront(sys, Popped(sys.queue[0]));
      LeaveFront(sys, Dropped(sys.queue[0]));
    }
    if step.Enqueue? && |step.resp| <= MAX_INNER_PAYLOAD {
      var e := Entry(step.resp, step.hdr, sys.clock);
      if |sys.queue| == PENDING_RESP_QUEUE {
        var gone := sys.gone + [Dropped(sys.queue[0])];
        assert EntriesOf(gone) + (sys.queue[1..] + [e]) == (EntriesOf(gone) + sys.queue[1..]) + [e];
      } else {
        assert sys.gone + [] == sys.gone;
        assert EntriesOf(sys.gone) + (sys.queue + [e]) == (EntriesOf(sys.gone) + sys.queue) + [e];
      }
    }
  }

  lemma {:induction false} RunInv(steps: seq<Step>)
    ensures Inv(Run(steps))
  {
    if |steps| > 0 {
      RunInv(steps[..|steps| - 1]);
      StepKeepsInv(Run(steps[..|steps| - 1]), steps[|steps| - 1]);
    }
  }

  lemma GoneSnoc(gone: seq<Gone>, g: Gone)
    ensures EntriesOf(gone + [g]) == EntriesOf(gone) + [g.entry]
    ensures g.Popped? ==> Delivered(gone + [g]) == Delivered(gone) + [g.entry] && Lost(gone + [g]) == Lost(gone)
    ensures g.Dropped? ==> Lost(gone + [g]) == Lost(gone) + [g.entry] && Delivered(gone + [g]) == Delivered(gone)
  {
    MapSnoc(EntryOf, gone, g);
    MapSnoc(EntryOf, Filter(IsPopped, gone), g);
    MapSnoc(EntryOf, Filter(IsDropped, gone), g);
    FilterSnoc(IsPopped, gone, g);
    FilterSnoc(IsDropped, gone, g);
  }

  lemma {:induction false} DeliveredInOrder(gone: seq<Gone>)
    ensures IsSubsequence(Delivered(gone), EntriesOf(gone))
  {
    if |gone| > 0 {
      var init, last := gone[..|gone| - 1], gone[|gone| - 1];
      DeliveredInOrder(init);
      GoneSnoc(init, last);
      assert gone == init + [last];
      SubsequenceSnoc(Delivered(init), EntriesOf(init), last.entry);
    }
  }

  lemma AddOne(whole: seq<Entry>, part: seq<Entry>, other: seq<Entry>, e: Entry)
    requires multiset(part) + multiset(other) == multiset(whole)
    ensures multiset(part + [e]) + multiset(other) == multiset(whole + [e])
    ensures multiset(part) + multiset(other + [e]) == multiset(whole + [e])
  {
  }

  lemma SplitsSnoc(gone: seq<Gone>, g: Gone)
    requires multiset(Delivered(gone)) + multiset(Lost(gone)) == multiset(EntriesOf(gone))
    ensures multiset(Delivered(gone + [g])) + multiset(Lost(gone + [g])) == multiset(EntriesOf(gone + [g]))
  {
    GoneSnoc(gone, g);
    AddOne(EntriesOf(gone), Delivered(gone), Lost(gone), g.entry);
  }

  lemma {:induction false} GoneSplits(gone: seq<Gone>)
    ensures multiset(Delivered(gone)) + multiset(Lost(gone)) == multiset(EntriesOf(gone))
  {
    if |gone| > 0 {
      GoneSplits(gone[..|gone| - 1]);
      SplitsSnoc(gone[..|gone| - 1], gone[|gone| - 1]);
      assert gone == gone[..|gone| - 1] + [gone[|gone| - 1]];
    }
  }

  /**
   Whatever the interleaving: every accepted response is exactly one of sent, dropped and queued;
   those sent are popped in the order they were queued, each with the header of its own request.
   */
  lemma MailboxConserves(steps: seq<Step>)
    ensures var sys := Run(steps);
      && multiset(sys.pushed) == multiset(Delivered(sys.gone)) + multiset(Lost(sys.gone)) + multiset(sys.queue)
      && IsSubsequence(Delivered(sys.gone), sys.pushed)
      && |sys.queue| <= PENDING_RESP_QUEUE && |sys.gone| <= |sys.pushed| && sys.queue == sys.pushed[|sys.gone|..]
  {
    RunInv(steps);
    var sys := Run(steps);
    GoneSplits(sys.gone);
    DeliveredInOrder(sys.gone);
    SubsequenceExtend(Delivered(sys.gone), EntriesOf(sys.gone), sys.queue);
  }

  /** The cover dispatch takes the oldest response whatever its age, the flush thread only from 400 ms on. */
  lemma PopsTakeTheOldest(steps: seq<Step>)
    ensures var sys := Run(steps); var cover, flush := Apply(sys, CoverPop), Apply(sys, FlushPop);
      && (|sys.queue| == 0 ==> cover == flush == sys)
      && (|sys.queue| > 0 ==>
        && cover.gone == sys.gone + [Popped(sys.queue[0])]
        && flush.gone
           == sys.gone + if (sys.clock - sys.queue[0].since) % TICKS >= 400 then [Popped(sys.queue[0])] else [])
  {
  }

  /**
   When the flush thread turns away from a queue, nothing in it is due, not only the head
   (provided the head has not waited a full turn of the tick counter).
   */
  lemma NothingDueIsLeftBehind(steps: seq<Step>, i: nat)
    ensures var sys := Run(steps);
      (i < |sys.queue| && sys.clock - sys.queue[0].since < TICKS
       && !Due(sys.queue, PENDING_RESPONSE_MAX_WAIT_MS, sys.clock)) ==>
      sys.clock - sys.queue[i].since < PENDING_RESPONSE_MAX_WAIT_MS
  {
    RunInv(steps);
  }
}

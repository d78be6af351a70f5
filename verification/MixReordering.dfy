/**
 How much reordering a hint window forgives. One session is followed through any run of the
 table: its data packets come out of order, several of them may be in the hands of workers
 between lookup and confirmation, and all other sessions take their steps in between.
 */
module MixReordering {
  import opened Common
  import opened Bytes
  import opened Crypto
  import opened Sequences
  import opened MixSessions
  import opened MixSessionRuns

  // ---------------------------------------------------------------- what is followed

  /** A packet between lookup and confirmation: its handle, its counter and the mark it was looked up under. */
  datatype Ticket = Ticket(handle: nat, counter: nat, markThen: int)

  /** The counters of a session's data packets in the order they came, and those not yet confirmed. */
  datatype Trail = Trail(arrivals: seq<nat>, waiting: seq<Ticket>)

  /** The high-water mark as a number, one below the first counter while nothing has matched. */
  function MarkOf(high: HighWater): int {
    if high.NothingMatched? then -1 else high.counter
  }

  /** Packets come at most r places from where their counters put them, none of them twice. */
  ghost predicate NearlyInOrder(arrivals: seq<nat>, r: nat) {
    && Distinct(arrivals)
    && (forall i :: 0 <= i < |arrivals| ==> i - r <= arrivals[i] <= i + r)
  }

  /** How far the mark can run ahead when k packets at a time are displaced by at most r. */
  function Slack(r: nat, k: nat): nat
    requires k > 0
  {
    r + (k - 1) * (r + k)
  }

  /** Displacement r and k packets between lookup and confirmation fit the safety margin together. */
  predicate Tolerable(r: nat, k: nat) {
    k > 0 && r + Slack(r, k) <= HINT_SAFETY_MARGIN
  }

  // ---------------------------------------------------------------- the accounts

  function Excess(t: Ticket): nat { Max(0, t.counter - t.markThen) }

  function TotalExcess(w: seq<Ticket>): nat {
    if |w| == 0 then 0 else TotalExcess(w[..|w| - 1]) + Excess(w[|w| - 1])
  }

  function Without(w: seq<Ticket>, p: nat): seq<Ticket>
    requires p < |w|
  {
    w[..p] + w[p + 1..]
  }

  lemma TotalExcessSnoc(w: seq<Ticket>, t: Ticket)
    ensures TotalExcess(w + [t]) == TotalExcess(w) + Excess(t)
  {
    assert (w + [t])[..|w|] == w;
  }

  lemma {:induction false} TotalExcessWithout(w: seq<Ticket>, p: nat)
    requires p < |w|
    ensures TotalExcess(Without(w, p)) == TotalExcess(w) - Excess(w[p])
  {
    var n := |w| - 1;
    if p == n {
      assert Without(w, p) == w[..n];
    } else {
      TotalExcessWithout(w[..n], p);
      assert Without(w, p) == Without(w[..n], p) + [w[n]];
      TotalExcessSnoc(Without(w[..n], p), w[n]);
    }
  }

  lemma {:induction false} TotalExcessAtMost(w: seq<Ticket>, x: nat)
    requires forall p :: 0 <= p < |w| ==> Excess(w[p]) <= x
    ensures TotalExcess(w) <= |w| * x
  {
    if |w| > 0 { TotalExcessAtMost(w[..|w| - 1], x); }
  }

  predicate IsWaiting(w: seq<Ticket>, c: nat) { exists p :: 0 <= p < |w| && w[p].counter == c }

  /**
   The mark plus all that the waiting packets may still add to it stays near the number of
   packets that came, and what came is waiting or covered by the mark.
   */
  ghost predicate Bounded(tr: Trail, mark: int, r: nat, k: nat) {
    && k > 0 && mark >= -1 && |tr.waiting| <= k && NearlyInOrder(tr.arrivals, r)
    && (forall p :: 0 <= p < |tr.waiting| ==> tr.waiting[p].markThen <= mark && Excess(tr.waiting[p]) <= r + k)
    && (forall j :: 0 <= j < |tr.arrivals| ==> tr.arrivals[j] <= mark || IsWaiting(tr.waiting, tr.arrivals[j]))
    && mark + TotalExcess(tr.waiting) <= if tr.arrivals == [] then -1 else |tr.arrivals| - 1 + Slack(r, k)
  }

  lemma {:induction false} CountersAtMost(w: seq<Ticket>)
    ensures |set p: int | 0 <= p < |w| :: w[p].counter| <= |w|
  {
    if |w| > 0 {
      var init := w[..|w| - 1];
      CountersAtMost(init);
      assert (set p: int | 0 <= p < |w| :: w[p].counter)
           == (set p: int | 0 <= p < |init| :: init[p].counter) + {w[|w| - 1].counter};
    }
  }

  /** Pigeonhole: the mark covers all packets that came but those waiting. */
  lemma MarkKeepsUp(tr: Trail, mark: int, r: nat, k: nat)
    requires Bounded(tr, mark, r, k)
    ensures mark >= |tr.arrivals| - |tr.waiting| - 1
  {
    var came: set<int> := set j: int | 0 <= j < |tr.arrivals| :: tr.arrivals[j];
    var held: set<int> := set p: int | 0 <= p < |tr.waiting| :: tr.waiting[p].counter;
    var wide: seq<int> := tr.arrivals;
    DistinctCard(wide);
    assert came == set x | x in wide;
    var held': set<nat> := set p: int | 0 <= p < |tr.waiting| :: tr.waiting[p].counter;
    CountersAtMost(tr.waiting);
    SubsetCard(held, held');
    forall x | x in came ensures x in Below(mark + 1) + held {
      var j :| 0 <= j < |tr.arrivals| && x == tr.arrivals[j];
    }
    SubsetCard(came, Below(mark + 1) + held);
  }

  /** The next packet lies in the window that goes with the mark. */
  lemma NextIsInWindow(tr: Trail, mark: int, r: nat, k: nat, c: nat)
    requires Bounded(tr, mark, r, k) && Tolerable(r, k) && |tr.waiting| < k
    requires NearlyInOrder(tr.arrivals + [c], r)
    ensures Max(0, mark - 31) <= c < Max(0, mark - 31) + HINT_WINDOW
    ensures c - mark <= r + k
  {
    MarkKeepsUp(tr, mark, r, k);
    ComesNear(tr.arrivals, c, r);
    SlackCovers(r, k);
  }

  lemma SlackCovers(r: nat, k: nat)
    requires Tolerable(r, k)
    ensures r + k <= HINT_SAFETY_MARGIN
  {
    if k > 1 { assert (k - 1) * (r + k) >= r + k; }
  }

  lemma ComesNear(arrivals: seq<nat>, c: nat, r: nat)
    requires NearlyInOrder(arrivals + [c], r)
    ensures |arrivals| - r <= c <= |arrivals| + r && NearlyInOrder(arrivals, r)
  {
    var all := arrivals + [c];
    assert all[|arrivals|] == c;
    forall i | 0 <= i < |arrivals| ensures arrivals[i] == all[i] {}
  }

  lemma ArrivalKeepsBounded(tr: Trail, mark: int, r: nat, k: nat, c: nat, handle: nat)
    requires Bounded(tr, mark, r, k) && Tolerable(r, k) && |tr.waiting| < k
    requires NearlyInOrder(tr.arrivals + [c], r)
    ensures Bounded(Trail(tr.arrivals + [c], tr.waiting + [Ticket(handle, c, mark)]), mark, r, k)
  {
    var t := Ticket(handle, c, mark);
    var tr' := Trail(tr.arrivals + [c], tr.waiting + [t]);
    NextIsInWindow(tr, mark, r, k, c);
    ComesNear(tr.arrivals, c, r);
    TotalExcessSnoc(tr.waiting, t);
    TotalExcessAtMost(tr.waiting, r + k);
    MoreWaiting(tr.waiting, t);
    SlackGrows(|tr.waiting|, r, k);
  }

  lemma SlackGrows(n: nat, r: nat, k: nat)
    requires n < k
    ensures r + n * (r + k) <= Slack(r, k)
  {
    assert n * (r + k) <= (k - 1) * (r + k);
  }

  lemma MoreWaiting(w: seq<Ticket>, t: Ticket)
    ensures IsWaiting(w + [t], t.counter)
    ensures forall c :: IsWaiting(w, c) ==> IsWaiting(w + [t], c)
  {
    assert (w + [t])[|w|] == t;
    forall c | IsWaiting(w, c) ensures IsWaiting(w + [t], c) {
      var p :| 0 <= p < |w| && w[p].counter == c;
      assert (w + [t])[p] == w[p];
    }
  }

  lemma FewerWaiting(w: seq<Ticket>, p: nat)
    requires p < |w|
    ensures forall c :: IsWaiting(w, c) && c != w[p].counter ==> IsWaiting(Without(w, p), c)
    ensures forall q :: 0 <= q < |w| - 1 ==> Without(w, p)[q] in w
  {
    forall c | IsWaiting(w, c) && c != w[p].counter ensures IsWaiting(Without(w, p), c) {
      var q :| 0 <= q < |w| && w[q].counter == c;
      assert Without(w, p)[if q < p then q else q - 1] == w[q];
    }
  }

  /** A confirmation moves the mark by no more than its packet was charged for. */
  lemma SettlingKeepsBounded(tr: Trail, mark: int, r: nat, k: nat, p: nat, mark': int)
    requires Bounded(tr, mark, r, k) && p < |tr.waiting|
    requires Max(mark, tr.waiting[p].counter) <= mark' <= mark + Excess(tr.waiting[p])
    ensures Bounded(tr.(waiting := Without(tr.waiting, p)), mark', r, k)
  {
    TotalExcessWithout(tr.waiting, p);
    FewerWaiting(tr.waiting, p);
  }

  // ---------------------------------------------------------------- a session in a run

  /** The step looks up a data packet with this seed. */
  ghost predicate IsPacket(derive: Derive, seed: Key, step: Step) {
    step.Find? && exists c: nat :: c < HINT_COVER_COUNTER_BASE && step.hint == derive(seed, c)
  }

  ghost function CounterOf(derive: Derive, seed: Key, step: Step): (c: nat)
    requires IsPacket(derive, seed, step)
    ensures c < HINT_COVER_COUNTER_BASE && step.hint == derive(seed, c)
  {
    var c: nat :| c < HINT_COVER_COUNTER_BASE && step.hint == derive(seed, c);
    c
  }

  function PlaceOf(w: seq<Ticket>, handle: nat): Option<nat> {
    FirstWhere((t: Ticket) => t.handle == handle, w, 0)
  }

  ghost function Follow(derive: Derive, sys: System, i: nat, seed: Key, tr: Trail, step: Step): Trail
    requires Shaped(sys) && i < |sys.table|
  {
    if IsPacket(derive, seed, step) then
      var c := CounterOf(derive, seed, step);
      Trail(tr.arrivals + [c],
            if Enabled(sys, step) && |sys.table[i].windows| == 2
            then tr.waiting + [Ticket(|sys.handles|, c, MarkOf(sys.table[i].windows[0].high))] else tr.waiting)
    else if step.Confirm? && PlaceOf(tr.waiting, step.handle).Some? then
      tr.(waiting := Without(tr.waiting, PlaceOf(tr.waiting, step.handle).value))
    else tr
  }

  /** The session allocated in slot i by step `birth`, followed through the steps after it. */
  ghost function TrailOf(derive: Derive, slots: nat, steps: seq<Step>, birth: nat, i: nat): Trail
    requires i < slots && birth < |steps| && steps[birth].Alloc?
  {
    if |steps| == birth + 1 then Trail([], [])
    else
      var init := steps[..|steps| - 1];
      Follow(derive, Run(derive, slots, init), i, steps[birth].seed, TrailOf(derive, slots, init, birth, i),
             steps[|steps| - 1])
  }

  /**
   What is asked of a step: the slot keeps its session, the seeds in use differ, a lookup reports
   what it finds, fewer than k packets wait when one comes, and none is confirmed twice.
   */
  ghost predicate Orderly(derive: Derive, sys: System, i: nat, seed: Key, tr: Trail, step: Step, k: nat)
    requires Shaped(sys) && i < |sys.table|
  {
    match tr
    case Trail(arrivals, waiting) =>
      && !(step.Alloc? && step.slot == i)
      && HintsDistinguish(derive, sys.table)
      && (IsPacket(derive, seed, step) ==>
        && |waiting| < k
        && (IsFound(sys.table, step.hint, step.found) || IsMissing(sys.table, step.hint)))
      && (step.Confirm? && step.handle < |sys.handles| && OfSession(sys, i, sys.handles[step.handle]) ==>
        PlaceOf(waiting, step.handle).Some?)
  }

  /** A handle for a data packet of the session that slot i holds now. */
  ghost predicate OfSession(sys: System, i: nat, h: Handle) {
    h.idx == i && h.domain == 0 && IsCurrent(sys, h)
  }

  /** Slot i gets a new session at step `birth`, and every step after that is orderly. */
  ghost predicate Watched(derive: Derive, slots: nat, steps: seq<Step>, birth: nat, i: nat, k: nat) {
    && i < slots && birth < |steps| && steps[birth].Alloc? && steps[birth].slot == i
    && var init, last := steps[..|steps| - 1], steps[|steps| - 1];
      if |init| == birth then Enabled(Run(derive, slots, init), last)
      else
        && Watched(derive, slots, init, birth, i, k)
        && Orderly(derive, Run(derive, slots, init), i, steps[birth].seed, TrailOf(derive, slots, init, birth, i), last,
                   k)
  }

  /** And the session's packets come nearly in order. */
  ghost predicate Followed(derive: Derive, slots: nat, steps: seq<Step>, birth: nat, i: nat, r: nat, k: nat) {
    Watched(derive, slots, steps, birth, i, k) && NearlyInOrder(TrailOf(derive, slots, steps, birth, i).arrivals, r)
  }

  lemma FollowedBefore(derive: Derive, slots: nat, steps: seq<Step>, birth: nat, i: nat, r: nat, k: nat)
    requires Followed(derive, slots, steps, birth, i, r, k) && birth + 1 < |steps|
    ensures Followed(derive, slots, steps[..|steps| - 1], birth, i, r, k)
  {
    var before := TrailOf(derive, slots, steps[..|steps| - 1], birth, i).arrivals;
    var after := TrailOf(derive, slots, steps, birth, i).arrivals;
    if after != before { ComesNear(before, after[|before|], r); }
  }

  /** A waiting packet's handle names the session, and its place stands for the packet's counter. */
  ghost predicate TicketInv(sys: System, i: nat, t: Ticket) {
    && t.handle < |sys.handles| && t.markThen >= -1
    && OfSession(sys, i, sys.handles[t.handle])
    && sys.handles[t.handle].foundBase == Max(0, t.markThen - 31)
    && t.counter == sys.handles[t.handle].foundBase + sys.handles[t.handle].windowIdx
  }

  ghost predicate TrailInv(sys: System, i: nat, seed: Key, tr: Trail, r: nat, k: nat) {
    && i < |sys.table| && sys.table[i].inUse && sys.table[i].seed == seed && |sys.table[i].windows| == 2
    && Bounded(tr, MarkOf(sys.table[i].windows[0].high), r, k)
    && (forall p :: 0 <= p < |tr.waiting| ==> TicketInv(sys, i, tr.waiting[p]))
  }

  lemma PacketIsFound(derive: Derive, sys: System, i: nat, seed: Key, tr: Trail, step: Step, r: nat, k: nat)
    requires Inv(derive, sys) && TrailInv(sys, i, seed, tr, r, k) && Orderly(derive, sys, i, seed, tr, step, k)
    requires Tolerable(r, k) && IsPacket(derive, seed, step)
    requires NearlyInOrder(tr.arrivals + [CounterOf(derive, seed, step)], r)
    ensures var c, win := CounterOf(derive, seed, step), sys.table[i].windows[0];
      && win.base == Max(0, MarkOf(win.high) - 31) && InWindow(win, c)
      && IsFound(sys.table, step.hint, Match(i, sys.table[i].generation, 0, c - win.base, sys.table[i].keys))
      && step.found == Match(i, sys.table[i].generation, 0, c - win.base, sys.table[i].keys)
      && sys.table[i].generation == sys.allocs[i]
  {
    var c, s := CounterOf(derive, seed, step), sys.table[i];
    assert SlotInv(derive, s, sys.allocs[i], sys.accepted[i], sys.matched[i]);
    assert Coherent(derive, s.seed, 0, s.windows[0]);
    NextIsInWindow(tr, MarkOf(s.windows[0].high), r, k, c);
    FoundAtPlace(derive, sys.table, i, c);
    var m := Match(i, s.generation, 0, c - s.windows[0].base, s.keys);
    assert Shows(sys.table[m.idx], m.domain, m.windowIdx, step.hint) && Earlier(m.domain, m.windowIdx, 2, 0);
    FoundIsUnique(sys.table, step.hint, m, step.found);
  }

  lemma PacketKeepsTrail(derive: Derive, sys: System, i: nat, seed: Key, tr: Trail, step: Step, r: nat, k: nat)
    requires Inv(derive, sys) && TrailInv(sys, i, seed, tr, r, k) && Orderly(derive, sys, i, seed, tr, step, k)
    requires Tolerable(r, k) && IsPacket(derive, seed, step)
    requires NearlyInOrder(tr.arrivals + [CounterOf(derive, seed, step)], r)
    ensures TrailInv(Apply(derive, sys, step), i, seed, Follow(derive, sys, i, seed, tr, step), r, k)
  {
    PacketIsFound(derive, sys, i, seed, tr, step, r, k);
    ArrivalKeepsBounded(tr, MarkOf(sys.table[i].windows[0].high), r, k, CounterOf(derive, seed, step), |sys.handles|);
    var sys', tr' := Apply(derive, sys, step), Follow(derive, sys, i, seed, tr, step);
    forall p | 0 <= p < |tr'.waiting| ensures TicketInv(sys', i, tr'.waiting[p]) {
      if p < |tr.waiting| { assert TicketInv(sys, i, tr.waiting[p]); }
    }
  }

  /** Confirming a waiting packet moves the mark as if no time had passed since its lookup, or less. */
  lemma ConfirmKeepsTrail(derive: Derive, sys: System, i: nat, seed: Key, tr: Trail, h: nat, r: nat, k: nat)
    requires Inv(derive, sys) && TrailInv(sys, i, seed, tr, r, k) && PlaceOf(tr.waiting, h).Some?
    ensures TrailInv(Apply(derive, sys, Confirm(h)), i, seed, Follow(derive, sys, i, seed, tr, Confirm(h)), r, k)
  {
    var p := PlaceOf(tr.waiting, h).value;
    var t, win := tr.waiting[p], sys.table[i].windows[0];
    assert t.handle == h && TicketInv(sys, i, t);
    assert SlotInv(derive, sys.table[i], sys.allocs[i], sys.accepted[i], sys.matched[i]);
    var sys', tr' := Apply(derive, sys, Confirm(h)), Follow(derive, sys, i, seed, tr, Confirm(h));
    ConfirmRecords(derive, sys, h);
    SettlingKeepsBounded(tr, MarkOf(win.high), r, k, p, MarkOf(sys'.table[i].windows[0].high));
    FewerWaiting(tr.waiting, p);
    TicketsStay(derive, sys, sys', i, tr'.waiting);
  }

  /** A step that keeps the session and the handles keeps what the tickets say. */
  lemma TicketsStay(derive: Derive, sys: System, sys': System, i: nat, w: seq<Ticket>)
    requires i < |sys.table| == |sys'.table| && sys.handles <= sys'.handles
    requires sys'.table[i].inUse && sys'.table[i].generation == sys.table[i].generation
    requires forall p :: 0 <= p < |w| ==> TicketInv(sys, i, w[p])
    ensures forall p :: 0 <= p < |w| ==> TicketInv(sys', i, w[p])
  {
  }

  /** All other steps leave the session's first window alone. */
  lemma OtherKeepsWindow(derive: Derive, sys: System, i: nat, step: Step)
    requires Inv(derive, sys) && i < |sys.table| && sys.table[i].inUse && !(step.Alloc? && step.slot == i)
    requires step.Confirm? && step.handle < |sys.handles| ==> !OfSession(sys, i, sys.handles[step.handle])
    ensures var s, s' := sys.table[i], Apply(derive, sys, step).table[i];
      && s'.inUse && s'.generation == s.generation && s'.seed == s.seed && |s'.windows| == 2
      && s'.windows[0] == s.windows[0]
  {
    assert SlotInv(derive, sys.table[i], sys.allocs[i], sys.accepted[i], sys.matched[i]);
    if step.Confirm? && Enabled(sys, step) {
      var h := sys.handles[step.handle];
      if IsCurrent(sys, h) && h.idx == i { ConfirmRecords(derive, sys, step.handle); }
    }
  }

  lemma OtherKeepsTrail(derive: Derive, sys: System, i: nat, seed: Key, tr: Trail, step: Step, r: nat, k: nat)
    requires Inv(derive, sys) && TrailInv(sys, i, seed, tr, r, k) && Orderly(derive, sys, i, seed, tr, step, k)
    requires !IsPacket(derive, seed, step) && !(step.Confirm? && PlaceOf(tr.waiting, step.handle).Some?)
    ensures TrailInv(Apply(derive, sys, step), i, seed, Follow(derive, sys, i, seed, tr, step), r, k)
  {
    OtherKeepsWindow(derive, sys, i, step);
    HistoryGrows(derive, sys, step, i);
    ApplyKeepsShape(derive, sys, step);
    TicketsStay(derive, sys, Apply(derive, sys, step), i, tr.waiting);
  }

  lemma FollowKeepsTrail(derive: Derive, sys: System, i: nat, seed: Key, tr: Trail, step: Step, r: nat, k: nat)
    requires Inv(derive, sys) && TrailInv(sys, i, seed, tr, r, k) && Orderly(derive, sys, i, seed, tr, step, k)
    requires Tolerable(r, k) && NearlyInOrder(Follow(derive, sys, i, seed, tr, step).arrivals, r)
    ensures TrailInv(Apply(derive, sys, step), i, seed, Follow(derive, sys, i, seed, tr, step), r, k)
  {
    if IsPacket(derive, seed, step) {
      PacketKeepsTrail(derive, sys, i, seed, tr, step, r, k);
    } else if step.Confirm? && PlaceOf(tr.waiting, step.handle).Some? {
      ConfirmKeepsTrail(derive, sys, i, seed, tr, step.handle, r, k);
    } else {
      OtherKeepsTrail(derive, sys, i, seed, tr, step, r, k);
    }
  }

  lemma {:induction false} TrailHolds(derive: Derive, slots: nat, steps: seq<Step>, birth: nat, i: nat, r: nat, k: nat)
    requires Followed(derive, slots, steps, birth, i, r, k) && Tolerable(r, k)
    ensures TrailInv(Run(derive, slots, steps), i, steps[birth].seed, TrailOf(derive, slots, steps, birth, i), r, k)
  {
    var init, last := steps[..|steps| - 1], steps[|steps| - 1];
    var sys := Run(derive, slots, init);
    if |init| > birth {
      FollowedBefore(derive, slots, steps, birth, i, r, k);
      TrailHolds(derive, slots, init, birth, i, r, k);
      RunKeepsInv(derive, slots, init);
      FollowKeepsTrail(derive, sys, i, steps[birth].seed, TrailOf(derive, slots, init, birth, i), last, r, k);
    }
  }

  /** The run's last step finds its packet at the session of slot i, at the place that stands for its counter. */
  ghost predicate LastInPlace(derive: Derive, slots: nat, steps: seq<Step>, birth: nat, i: nat)
    requires i < slots && birth + 1 < |steps| && steps[birth].Alloc? && steps[|steps| - 1].Find?
  {
    var sys, packet := Run(derive, slots, steps[..|steps| - 1]), steps[|steps| - 1];
    && IsFound(sys.table, packet.hint, packet.found)
    && packet.found.idx == i && packet.found.generation == sys.allocs[i] && packet.found.domain == 0
    && sys.table[i].seed == steps[birth].seed && |sys.table[i].windows| == 2
    && packet.hint == derive(sys.table[i].seed, sys.table[i].windows[0].base + packet.found.windowIdx)
  }

  /**
   In any run of the table, a session whose data packets are displaced by at most r, with at most
   k of them between lookup and confirmation, has every packet found at its own place, if
   2r + (k - 1)(r + k) is at most 32.
   */
  lemma ReorderingTolerated(derive: Derive, slots: nat, steps: seq<Step>, birth: nat, i: nat, r: nat, k: nat)
    requires Followed(derive, slots, steps, birth, i, r, k) && 2 * r + (k - 1) * (r + k) <= 32 && k > 0
    requires birth + 1 < |steps| && IsPacket(derive, steps[birth].seed, steps[|steps| - 1])
    ensures LastInPlace(derive, slots, steps, birth, i)
  {
    var init, last := steps[..|steps| - 1], steps[|steps| - 1];
    FollowedBefore(derive, slots, steps, birth, i, r, k);
    TrailHolds(derive, slots, init, birth, i, r, k);
    RunKeepsInv(derive, slots, init);
    PacketIsFound(derive, Run(derive, slots, init), i, steps[birth].seed, TrailOf(derive, slots, init, birth, i), last,
                  r, k);
  }
}

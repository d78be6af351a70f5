/**
 Every interleaving of allocations, lookups, confirmations and replay checks on the session
 table. A lookup and the confirmation it leads to are two separately locked steps.
 */
module MixSessionRuns {
  import opened Common
  import opened Bytes
  import opened Crypto
  import opened Sequences
  import opened MixSessions

  /**
   What a lookup hands to the thread that called it. The base of the window at lookup time and
   the slot's allocation count are recorded for the statements only; no step reads them.
   */
  datatype Handle = Handle(idx: nat, generation: nat, domain: nat, windowIdx: nat, foundBase: nat, epoch: nat)

  /**
   The table and its history: the handles given out, how often each slot was allocated and, for
   each slot's present session, the nonces accepted and the counters confirmed in each domain.
   */
  datatype System = System(
    table: seq<Session>, handles: seq<Handle>, allocs: seq<nat>,
    accepted: seq<Direction -> seq<Nonce>>, matched: seq<seq<seq<nat>>>)

  datatype Step =
    | Alloc(slot: nat, now: nat, role: int, keys: Keys, seed: Key)
    | Find(hint: Hint, now: nat, found: Match)
    | Confirm(handle: nat)
    | Check(handle: nat, dir: Direction, nonce: Nonce)

  function Start(slots: nat): System {
    System(seq(slots, _ => NoSession()), [], seq(slots, _ => 0), seq(slots, _ => (_ => [])), seq(slots, _ => [[], []]))
  }

  ghost predicate Enabled(sys: System, step: Step) {
    Shaped(sys) &&
    match step
    case Alloc(slot, now, _, _, _) => slot < |sys.table| && IsAllocChoice(sys.table, now, Some(slot))
    case Find(hint, _, m) => IsFound(sys.table, hint, m)
    case Confirm(h) => h < |sys.handles|
    case Check(h, _, _) => h < |sys.handles|
  }

  ghost predicate Shaped(sys: System) {
    && |sys.allocs| == |sys.accepted| == |sys.matched| == |sys.table|
    && (forall i :: 0 <= i < |sys.table| ==> |sys.matched[i]| == 2)
    && (forall h :: 0 <= h < |sys.handles| ==> sys.handles[h].idx < |sys.table| && sys.handles[h].domain < 2)
  }

  ghost predicate IsCurrent(sys: System, h: Handle) { Current(sys.table, h.idx, h.generation) }

  /** Whether the replay check refuses: the handle is stale, or the ring holds the nonce. */
  ghost predicate Drops(sys: System, h: Handle, dir: Direction, nonce: Nonce) {
    !IsCurrent(sys, h) || !RingValid(RingOf(sys.table[h.idx], dir)) || nonce in Recent(RingOf(sys.table[h.idx], dir))
  }

  function Extended(accepted: Direction -> seq<Nonce>, dir: Direction, nonce: Nonce): Direction -> seq<Nonce> {
    d => if d == dir then accepted(d) + [nonce] else accepted(d)
  }

  function WithCounter(matched: seq<seq<nat>>, d: nat, counter: nat): seq<seq<nat>>
    requires d < |matched|
  {
    matched[d := matched[d] + [counter]]
  }

  ghost function Apply(derive: Derive, sys: System, step: Step): System {
    if !Enabled(sys, step) then sys else
    match step
    case Alloc(slot, now, role, keys, seed) =>
      sys.(table := sys.table[slot := NewSession(derive, sys.table[slot].generation + 1, now, role, keys, seed)],
           allocs := sys.allocs[slot := sys.allocs[slot] + 1],
           accepted := sys.accepted[slot := _ => []],
           matched := sys.matched[slot := [[], []]])
    case Find(hint, now, m) =>
      sys.(table := sys.table[m.idx := sys.table[m.idx].(lastActive := now)],
           handles := sys.handles + [Handle(m.idx, m.generation, m.domain, m.windowIdx,
                                            sys.table[m.idx].windows[m.domain].base, sys.allocs[m.idx])])
    case Confirm(k) =>
      var h := sys.handles[k];
      if IsCurrent(sys, h) then
        sys.(table := Confirmed(derive, sys.table, h.idx, h.generation, h.domain, h.windowIdx),
             matched := sys.matched[h.idx := WithCounter(sys.matched[h.idx], h.domain, h.foundBase + h.windowIdx)])
      else sys
    case Check(k, dir, nonce) =>
      var h := sys.handles[k];
      if Drops(sys, h, dir, nonce) then sys
      else
        sys.(table := sys.table[h.idx := WithRing(sys.table[h.idx], dir, Push(RingOf(sys.table[h.idx], dir), nonce))],
             accepted := sys.accepted[h.idx := Extended(sys.accepted[h.idx], dir, nonce)])
  }

  /** The highest counter really confirmed in a domain stays at or below the recorded mark. */
  ghost predicate Covers(high: HighWater, counters: seq<nat>) {
    && (high.NothingMatched? <==> counters == [])
    && (forall i :: 0 <= i < |counters| ==> high.Highest? && counters[i] <= high.counter)
  }

  ghost predicate SlotInv(derive: Derive, s: Session, allocs: nat, accepted: Direction -> seq<Nonce>,
                          matched: seq<seq<nat>>) {
    && SessionValid(derive, s)
    && s.generation == allocs && (s.inUse <==> allocs > 0)
    && |matched| == 2
    && (s.inUse ==> forall d :: 0 <= d < 2 ==> Covers(s.windows[d].high, matched[d]))
    && (s.inUse ==> forall dir :: Recent(RingOf(s, dir)) == Last(accepted(dir), REPLAY_WINDOW)
                               && Distinct(Recent(RingOf(s, dir))))
  }

  ghost predicate HandleInv(table: seq<Session>, allocs: seq<nat>, h: Handle)
    requires |table| == |allocs|
  {
    && h.idx < |table| && h.domain < 2 && h.windowIdx < HINT_WINDOW
    && 0 < h.generation == h.epoch <= allocs[h.idx]
    && InitialBase(h.domain) <= h.foundBase
    && (Current(table, h.idx, h.generation) ==>
      h.domain < |table[h.idx].windows| && h.foundBase <= table[h.idx].windows[h.domain].base)
  }

  ghost predicate Inv(derive: Derive, sys: System) {
    && Shaped(sys)
    && (forall i ::
      0 <= i < |sys.table| ==> SlotInv(derive, sys.table[i], sys.allocs[i], sys.accepted[i], sys.matched[i]))
    && (forall k :: 0 <= k < |sys.handles| ==> HandleInv(sys.table, sys.allocs, sys.handles[k]))
  }

  lemma AllocKeepsInv(derive: Derive, sys: System, step: Step)
    requires Inv(derive, sys) && step.Alloc? && Enabled(sys, step)
    ensures Inv(derive, Apply(derive, sys, step))
  {
  }

  lemma FindKeepsInv(derive: Derive, sys: System, step: Step)
    requires Inv(derive, sys) && step.Find? && Enabled(sys, step)
    ensures Inv(derive, Apply(derive, sys, step))
  {
  }

  /**
   What a confirmation records: the counter really matched, plus however far the window slid
   between lookup and confirmation.
   */
  lemma ConfirmRecords(derive: Derive, sys: System, k: nat)
    requires Inv(derive, sys) && k < |sys.handles| && IsCurrent(sys, sys.handles[k])
    ensures var h := sys.handles[k];
      var before := sys.table[h.idx].windows[h.domain];
      var after := Apply(derive, sys, Confirm(k)).table[h.idx].windows[h.domain];
      && h.foundBase <= before.base
      && after.high == Raise(before.high, h.foundBase + h.windowIdx + (before.base - h.foundBase))
      && after.base == BaseFor(h.domain, after.high)
    ensures var h := sys.handles[k];
      Apply(derive, sys, Confirm(k)).table[h.idx].windows[1 - h.domain] == sys.table[h.idx].windows[1 - h.domain]
  {
  }

  /** A confirmation raises the mark to cover the counter it stands for. */
  lemma ConfirmKeepsSlot(derive: Derive, s: Session, allocs: nat, accepted: Direction -> seq<Nonce>,
                         matched: seq<seq<nat>>,
                         d: nat, w: nat, counter: nat)
    requires SlotInv(derive, s, allocs, accepted, matched) && s.inUse && d < 2 && counter <= s.windows[d].base + w
    ensures SlotInv(derive, s.(windows := s.windows[d := Advance(derive, s.seed, d, s.windows[d], w)]), allocs,
                    accepted,
                    matched[d := matched[d] + [counter]])
  {
    var s' := s.(windows := s.windows[d := Advance(derive, s.seed, d, s.windows[d], w)]);
    forall dir ensures RingOf(s', dir) == RingOf(s, dir) {}
  }

  lemma {:induction false} ConfirmKeepsInv(derive: Derive, sys: System, k: nat)
    requires Inv(derive, sys) && k < |sys.handles|
    ensures Inv(derive, Apply(derive, sys, Confirm(k)))
  {
    var h := sys.handles[k];
    if IsCurrent(sys, h) {
      var s, sys' := sys.table[h.idx], Apply(derive, sys, Confirm(k));
      ConfirmKeepsSlot(derive, s, sys.allocs[h.idx], sys.accepted[h.idx], sys.matched[h.idx], h.domain, h.windowIdx,
                       h.foundBase + h.windowIdx);
      AdvanceMonotone(derive, s.seed, h.domain, s.windows[h.domain], h.windowIdx);
      forall n | 0 <= n < |sys'.handles| ensures HandleInv(sys'.table, sys'.allocs, sys'.handles[n]) {
        assert HandleInv(sys.table, sys.allocs, sys.handles[n]);
      }
    }
  }

  lemma LastOfLast(s: seq<Nonce>, x: Nonce)
    ensures Last(Last(s, REPLAY_WINDOW) + [x], REPLAY_WINDOW) == Last(s + [x], REPLAY_WINDOW)
  {
  }

  lemma DistinctLast(s: seq<Nonce>, x: Nonce)
    requires Distinct(s) && x !in s
    ensures Distinct(Last(s + [x], REPLAY_WINDOW))
  {
  }

  /** A nonce that is let through keeps the slot's ring equal to the end of what was accepted. */
  lemma CheckKeepsSlot(derive: Derive, s: Session, allocs: nat, accepted: Direction -> seq<Nonce>,
                       matched: seq<seq<nat>>,
                       dir: Direction, nonce: Nonce)
    requires SlotInv(derive, s, allocs, accepted, matched) && s.inUse
    requires RingValid(RingOf(s, dir)) && nonce !in Recent(RingOf(s, dir))
    ensures SlotInv(derive, WithRing(s, dir, Push(RingOf(s, dir), nonce)), allocs,
                    Extended(accepted, dir, nonce), matched)
  {
    PushKeepsLast(RingOf(s, dir), nonce);
    LastOfLast(accepted(dir), nonce);
    DistinctLast(Recent(RingOf(s, dir)), nonce);
  }

  lemma {:induction false} CheckKeepsInv(derive: Derive, sys: System, k: nat, dir: Direction, nonce: Nonce)
    requires Inv(derive, sys) && k < |sys.handles|
    ensures Inv(derive, Apply(derive, sys, Check(k, dir, nonce)))
  {
    var h := sys.handles[k];
    if !Drops(sys, h, dir, nonce) {
      var next := Apply(derive, sys, Check(k, dir, nonce));
      CheckKeepsSlot(derive, sys.table[h.idx], sys.allocs[h.idx], sys.accepted[h.idx], sys.matched[h.idx], dir, nonce);
      forall i | 0 <= i < |next.table| ensures SlotInv(derive, next.table[i], next.allocs[i], next.accepted[i],
                                                       next.matched[i]) {
        assert SlotInv(derive, sys.table[i], sys.allocs[i], sys.accepted[i], sys.matched[i]);
      }
      forall n | 0 <= n < |next.handles| ensures HandleInv(next.table, next.allocs, next.handles[n]) {
        assert HandleInv(sys.table, sys.allocs, sys.handles[n]);
      }
    }
  }

  lemma StepKeepsInv(derive: Derive, sys: System, step: Step)
    requires Inv(derive, sys)
    ensures Inv(derive, Apply(derive, sys, step))
  {
    if Enabled(sys, step) {
      match step
      case Alloc(_, _, _, _, _) => AllocKeepsInv(derive, sys, step);
      case Find(_, _, _) => FindKeepsInv(derive, sys, step);
      case Confirm(k) => ConfirmKeepsInv(derive, sys, k);
      case Check(k, dir, nonce) => CheckKeepsInv(derive, sys, k, dir, nonce);
    }
  }

  lemma ApplyKeepsShape(derive: Derive, sys: System, step: Step)
    requires Shaped(sys)
    ensures Shaped(Apply(derive, sys, step)) && |Apply(derive, sys, step).table| == |sys.table|
  {
  }

  /** The state after any sequence of steps, starting from an empty table. */
  ghost function Run(derive: Derive, slots: nat, steps: seq<Step>): (sys: System)
    ensures Shaped(sys) && |sys.table| == slots
  {
    if |steps| == 0 then Start(slots)
    else
      var sys := Run(derive, slots, steps[..|steps| - 1]);
      ApplyKeepsShape(derive, sys, steps[|steps| - 1]);
      Apply(derive, sys, steps[|steps| - 1])
  }

  lemma {:induction false} RunKeepsInv(derive: Derive, slots: nat, steps: seq<Step>)
    ensures Inv(derive, Run(derive, slots, steps))
  {
    if |steps| > 0 {
      RunKeepsInv(derive, slots, steps[..|steps| - 1]);
      StepKeepsInv(derive, Run(derive, slots, steps[..|steps| - 1]), steps[|steps| - 1]);
    }
  }

  // ---------------------------------------------------------------- the high-water mark

  lemma CoherentShows(derive: Derive, seed: Key, d: nat, win: Window, w: nat)
    requires Coherent(derive, seed, d, win) && w < HINT_WINDOW
    ensures |win.hints| == HINT_WINDOW && win.hints[w] == derive(seed, win.base + w)
    ensures win.base == if win.high.NothingMatched? then InitialBase(d) else Max(InitialBase(d), win.high.counter - 31)
  {
  }

  /** In every run, a session's windows show the hints after a base that follows the high-water mark. */
  lemma WindowsAlwaysCoherent(derive: Derive, slots: nat, steps: seq<Step>, sys: System, i: nat, d: nat, w: nat)
    requires sys == Run(derive, slots, steps) && i < slots && d < 2 && w < HINT_WINDOW && sys.table[i].inUse
    ensures |sys.table[i].windows| == 2 && |sys.table[i].windows[d].hints| == HINT_WINDOW
    ensures sys.table[i].windows[d].hints[w] == derive(sys.table[i].seed, sys.table[i].windows[d].base + w)
    ensures sys.table[i].windows[d].base == if sys.table[i].windows[d].high.NothingMatched? then InitialBase(d)
      else Max(InitialBase(d), sys.table[i].windows[d].high.counter - 31)
  {
    RunKeepsInv(derive, slots, steps);
    assert SlotInv(derive, sys.table[i], sys.allocs[i], sys.accepted[i], sys.matched[i]);
    CoherentShows(derive, sys.table[i].seed, d, sys.table[i].windows[d], w);
  }

  /** While a slot keeps its session, no step moves a base or a high-water mark back. */
  lemma NeverMovesBack(derive: Derive, sys: System, step: Step, i: nat, d: nat)
    requires Inv(derive, sys) && i < |sys.table| && sys.table[i].inUse && d < 2
    requires Apply(derive, sys, step).table[i].generation == sys.table[i].generation
    ensures var before, after := sys.table[i].windows[d], Apply(derive, sys, step).table[i].windows[d];
      && before.base <= after.base
      && (before.high.Highest? ==> after.high.Highest? && before.high.counter <= after.high.counter)
  {
  }

  /**
   Exactly when a confirmation records no more than the counter really matched: the window has
   not slid since the lookup, or the matched place lies in the lower half of the window.
   */
  lemma ConfirmIsExactIff(derive: Derive, sys: System, k: nat)
    requires Inv(derive, sys) && k < |sys.handles| && IsCurrent(sys, sys.handles[k])
    ensures var h := sys.handles[k];
      var before := sys.table[h.idx].windows[h.domain];
      var after := Apply(derive, sys, Confirm(k)).table[h.idx].windows[h.domain];
      (after.high == Raise(before.high, h.foundBase + h.windowIdx)) <==>
        (before.base == h.foundBase || h.windowIdx < HINT_SAFETY_MARGIN)
  {
  }

  function HighestOf(counters: seq<nat>): HighWater {
    if |counters| == 0 then NothingMatched else Raise(HighestOf(counters[..|counters| - 1]), counters[|counters| - 1])
  }

  /**
   No confirmation among the steps records more than was matched: none of a place in the upper
   half of its window comes after a slide of that window.
   */
  ghost predicate NoSlides(derive: Derive, slots: nat, steps: seq<Step>) {
    forall n :: 0 <= n < |steps| ==> NoSlide(Run(derive, slots, steps[..n]), steps[n])
  }

  ghost predicate NoSlide(sys: System, step: Step) {
    step.Confirm? && step.handle < |sys.handles| && IsCurrent(sys, sys.handles[step.handle]) ==>
      var h := sys.handles[step.handle];
      || h.windowIdx < HINT_SAFETY_MARGIN
      || (h.domain < |sys.table[h.idx].windows| && sys.table[h.idx].windows[h.domain].base == h.foundBase)
  }

  ghost predicate Exact(sys: System, i: nat, d: nat)
    requires Shaped(sys) && i < |sys.table| && d < 2
  {
    sys.table[i].inUse ==> |sys.table[i].windows| == 2 && sys.table[i].windows[d].high == HighestOf(sys.matched[i][d])
  }

  lemma ExactStep(derive: Derive, sys: System, step: Step, i: nat, d: nat)
    requires Inv(derive, sys) && i < |sys.table| && d < 2 && Exact(sys, i, d) && NoSlide(sys, step)
    ensures Shaped(Apply(derive, sys, step)) && Exact(Apply(derive, sys, step), i, d)
  {
    ApplyKeepsShape(derive, sys, step);
    if step.Confirm? && Enabled(sys, step) && IsCurrent(sys, sys.handles[step.handle]) {
      ExactConfirm(derive, sys, step.handle, i, d);
    } else if Enabled(sys, step) {
      assert SlotInv(derive, sys.table[i], sys.allocs[i], sys.accepted[i], sys.matched[i]);
    }
  }

  lemma HighestOfMore(counters: seq<nat>, c: nat)
    ensures HighestOf(counters + [c]) == Raise(HighestOf(counters), c)
  {
    assert (counters + [c])[..|counters|] == counters;
  }

  lemma ExactConfirm(derive: Derive, sys: System, k: nat, i: nat, d: nat)
    requires Inv(derive, sys) && i < |sys.table| && d < 2 && Exact(sys, i, d)
    requires k < |sys.handles| && IsCurrent(sys, sys.handles[k]) && NoSlide(sys, Confirm(k))
    ensures Shaped(Apply(derive, sys, Confirm(k))) && Exact(Apply(derive, sys, Confirm(k)), i, d)
  {
    var h := sys.handles[k];
    assert SlotInv(derive, sys.table[h.idx], sys.allocs[h.idx], sys.accepted[h.idx], sys.matched[h.idx]);
    ConfirmIsExactIff(derive, sys, k);
    ConfirmRecords(derive, sys, k);
    HighestOfMore(sys.matched[h.idx][h.domain], h.foundBase + h.windowIdx);
    ApplyKeepsShape(derive, sys, Confirm(k));
  }

  lemma NoSlidesBefore(derive: Derive, slots: nat, steps: seq<Step>)
    requires NoSlides(derive, slots, steps) && |steps| > 0
    ensures NoSlides(derive, slots, steps[..|steps| - 1])
    ensures NoSlide(Run(derive, slots, steps[..|steps| - 1]), steps[|steps| - 1])
  {
    var init := steps[..|steps| - 1];
    forall n | 0 <= n < |init| ensures NoSlide(Run(derive, slots, init[..n]), init[n]) {
      assert init[..n] == steps[..n];
    }
  }

  /** A confirmation after such a slide pushes the mark above every counter matched. */
  lemma SlideOvershoots(derive: Derive, sys: System, step: Step)
    requires Inv(derive, sys) && !NoSlide(sys, step)
    requires Exact(sys, sys.handles[step.handle].idx, sys.handles[step.handle].domain)
    ensures var h := sys.handles[step.handle];
      Shaped(Apply(derive, sys, step)) && !Exact(Apply(derive, sys, step), h.idx, h.domain)
  {
    var h := sys.handles[step.handle];
    assert SlotInv(derive, sys.table[h.idx], sys.allocs[h.idx], sys.accepted[h.idx], sys.matched[h.idx]);
    ConfirmIsExactIff(derive, sys, step.handle);
    HighestOfMore(sys.matched[h.idx][h.domain], h.foundBase + h.windowIdx);
    ApplyKeepsShape(derive, sys, step);
  }

  ghost predicate AllExact(sys: System)
    requires Shaped(sys)
  {
    forall i: nat, d: nat :: i < |sys.table| && d < 2 ==> Exact(sys, i, d)
  }

  lemma {:induction false} NoSlidesGiveExact(derive: Derive, slots: nat, steps: seq<Step>)
    requires NoSlides(derive, slots, steps)
    ensures AllExact(Run(derive, slots, steps))
  {
    if |steps| > 0 {
      var init, step := steps[..|steps| - 1], steps[|steps| - 1];
      NoSlidesBefore(derive, slots, steps);
      NoSlidesGiveExact(derive, slots, init);
      RunKeepsInv(derive, slots, init);
      forall i: nat, d: nat | i < slots && d < 2 ensures Exact(Run(derive, slots, steps), i, d) {
        ExactStep(derive, Run(derive, slots, init), step, i, d);
      }
    }
  }

  lemma NoSlidesOfPrefix(derive: Derive, slots: nat, steps: seq<Step>, n: nat)
    requires NoSlides(derive, slots, steps) && n <= |steps|
    ensures NoSlides(derive, slots, steps[..n])
  {
    forall m | 0 <= m < n ensures NoSlide(Run(derive, slots, steps[..n][..m]), steps[..n][m]) {
      assert steps[..n][..m] == steps[..m];
    }
  }

  lemma RunSnoc(derive: Derive, slots: nat, steps: seq<Step>, n: nat)
    requires n < |steps|
    ensures Run(derive, slots, steps[..n + 1]) == Apply(derive, Run(derive, slots, steps[..n]), steps[n])
  {
    assert steps[..n + 1][..n] == steps[..n];
  }

  lemma SlideSpoils(derive: Derive, slots: nat, steps: seq<Step>, n: nat)
    requires n < |steps| && !NoSlide(Run(derive, slots, steps[..n]), steps[n])
    requires AllExact(Run(derive, slots, steps[..n]))
    ensures !AllExact(Run(derive, slots, steps[..n + 1]))
  {
    var sys := Run(derive, slots, steps[..n]);
    var h := sys.handles[steps[n].handle];
    RunKeepsInv(derive, slots, steps[..n]);
    assert Exact(sys, h.idx, h.domain);
    SlideOvershoots(derive, sys, steps[n]);
    RunSnoc(derive, slots, steps, n);
  }

  /**
   Every high-water mark is, all through a run, exactly the highest counter matched, iff no
   confirmation in the run comes after a slide that its place does not allow for.
   */
  lemma HighWaterExact(derive: Derive, slots: nat, steps: seq<Step>)
    ensures (forall n: nat :: n <= |steps| ==> AllExact(Run(derive, slots, steps[..n]))) <==>
      NoSlides(derive, slots, steps)
  {
    if NoSlides(derive, slots, steps) {
      forall n: nat | n <= |steps| ensures AllExact(Run(derive, slots, steps[..n])) {
        NoSlidesOfPrefix(derive, slots, steps, n);
        NoSlidesGiveExact(derive, slots, steps[..n]);
      }
    } else {
      var n :| 0 <= n < |steps| && !NoSlide(Run(derive, slots, steps[..n]), steps[n]);
      if AllExact(Run(derive, slots, steps[..n])) { SlideSpoils(derive, slots, steps, n); }
    }
  }

  // ---------------------------------------------------------------- replays and stale handles

  /**
   In every run: a packet is refused iff its handle belongs to an earlier session of the slot,
   or its nonce is among the last 1024 accepted in this session and direction.
   */
  lemma DropsIff(derive: Derive, slots: nat, steps: seq<Step>, k: nat, dir: Direction, nonce: Nonce)
    requires k < |Run(derive, slots, steps).handles|
    ensures var sys := Run(derive, slots, steps);
      var h := sys.handles[k];
      Drops(sys, h, dir, nonce) <==>
        h.epoch != sys.allocs[h.idx] || nonce in Last(sys.accepted[h.idx](dir), REPLAY_WINDOW)
  {
    RunKeepsInv(derive, slots, steps);
    var sys := Run(derive, slots, steps);
    var h := sys.handles[k];
    assert HandleInv(sys.table, sys.allocs, h);
    assert SlotInv(derive, sys.table[h.idx], sys.allocs[h.idx], sys.accepted[h.idx], sys.matched[h.idx]);
  }

  /** The nonces held for a session are pairwise different. */
  lemma HeldNoncesDistinct(derive: Derive, slots: nat, steps: seq<Step>, i: nat, dir: Direction)
    requires i < slots && Run(derive, slots, steps).table[i].inUse
    ensures Distinct(Last(Run(derive, slots, steps).accepted[i](dir), REPLAY_WINDOW))
  {
    RunKeepsInv(derive, slots, steps);
    var sys := Run(derive, slots, steps);
    assert SlotInv(derive, sys.table[i], sys.allocs[i], sys.accepted[i], sys.matched[i]);
  }

  lemma HistoryGrows(derive: Derive, sys: System, step: Step, i: nat)
    requires Inv(derive, sys) && i < |sys.table|
    ensures |Apply(derive, sys, step).allocs| == |sys.allocs| && sys.allocs[i] <= Apply(derive, sys, step).allocs[i]
    ensures sys.handles <= Apply(derive, sys, step).handles
  {
  }

  lemma RunMore(derive: Derive, slots: nat, steps: seq<Step>, more: seq<Step>)
    requires |more| > 0
    ensures Run(derive, slots, steps + more)
         == Apply(derive, Run(derive, slots, steps + more[..|more| - 1]), more[|more| - 1])
  {
    assert (steps + more)[..|steps + more| - 1] == steps + more[..|more| - 1];
  }

  lemma {:induction false} AllocationsCount(derive: Derive, slots: nat, steps: seq<Step>, more: seq<Step>, i: nat)
    requires i < slots
    ensures Run(derive, slots, steps).allocs[i] <= Run(derive, slots, steps + more).allocs[i]
    ensures Run(derive, slots, steps).handles <= Run(derive, slots, steps + more).handles
  {
    if |more| == 0 {
      assert steps + more == steps;
    } else {
      var init, last := more[..|more| - 1], more[|more| - 1];
      AllocationsCount(derive, slots, steps, init, i);
      RunMore(derive, slots, steps, more);
      RunKeepsInv(derive, slots, steps + init);
      HistoryGrows(derive, Run(derive, slots, steps + init), last, i);
    }
  }

  /** A handle that is stale once stays stale, and neither confirming nor checking it changes anything. */
  lemma StaleForever(derive: Derive, slots: nat, steps: seq<Step>, more: seq<Step>, k: nat, dir: Direction,
                     nonce: Nonce)
    requires k < |Run(derive, slots, steps).handles|
    requires !IsCurrent(Run(derive, slots, steps), Run(derive, slots, steps).handles[k])
    ensures var sys := Run(derive, slots, steps + more);
      && k < |sys.handles| && sys.handles[k] == Run(derive, slots, steps).handles[k]
      && Drops(sys, sys.handles[k], dir, nonce)
      && Apply(derive, sys, Confirm(k)) == sys
      && Apply(derive, sys, Check(k, dir, nonce)) == sys
  {
    RunKeepsInv(derive, slots, steps);
    RunKeepsInv(derive, slots, steps + more);
    var sys := Run(derive, slots, steps);
    var h := sys.handles[k];
    assert HandleInv(sys.table, sys.allocs, h);
    assert SlotInv(derive, sys.table[h.idx], sys.allocs[h.idx], sys.accepted[h.idx], sys.matched[h.idx]);
    AllocationsCount(derive, slots, steps, more, h.idx);
    DropsIff(derive, slots, steps + more, k, dir, nonce);
    var later := Run(derive, slots, steps + more);
    assert SlotInv(derive, later.table[h.idx], later.allocs[h.idx], later.accepted[h.idx], later.matched[h.idx]);
  }

  // ---------------------------------------------------------------- which counters are found

  /** No counter of either domain gets this far: 64-bit counters do not wrap. */
  const COUNTER_LIMIT := 0x8000_0000_0000_0000

  /** Hints of these seeds differ, for different seeds or counters. */
  ghost predicate HintsDiffer(derive: Derive, seeds: iset<Key>) {
    forall s: Key, c: nat, s': Key, c': nat ::
      s in seeds && s' in seeds && c < COUNTER_LIMIT && c' < COUNTER_LIMIT && derive(s, c) == derive(s', c') ==>
        s == s' && c == c'
  }

  /** The seeds of the sessions in use. */
  ghost function SeedsOf(t: seq<Session>): iset<Key> {
    iset i: nat | i < |t| && t[i].inUse :: t[i].seed
  }

  /** The sessions in use have different seeds with different hints, and counters in range. */
  ghost predicate HintsDistinguish(derive: Derive, t: seq<Session>) {
    && HintsDiffer(derive, SeedsOf(t))
    && (forall i, j :: 0 <= i < j < |t| && t[i].inUse && t[j].inUse ==> t[i].seed != t[j].seed)
    && (forall i, d :: 0 <= i < |t| && t[i].inUse && 0 <= d < |t[i].windows| ==> InRange(t[i].windows[d]))
  }

  predicate InRange(win: Window) { win.base + HINT_WINDOW <= COUNTER_LIMIT }

  predicate InWindow(win: Window, c: nat) { win.base <= c < win.base + HINT_WINDOW }

  lemma ShowsOnlyItsCounters(derive: Derive, t: seq<Session>, i: nat, j: nat, d: nat, w: nat, c: nat)
    requires TableValid(derive, t) && HintsDistinguish(derive, t) && i < |t| && j < |t| && t[i].inUse && t[j].inUse
    requires d < 2 && w < HINT_WINDOW && c < COUNTER_LIMIT
    ensures Shows(t[j], d, w, derive(t[i].seed, c)) <==> i == j && c == t[j].windows[d].base + w
  {
    assert SessionValid(derive, t[j]) && Coherent(derive, t[j].seed, d, t[j].windows[d]) && InRange(t[j].windows[d]);
    assert t[i].seed in SeedsOf(t) && t[j].seed in SeedsOf(t);
  }

  /**
   A packet with counter c of the session in slot i is found at that slot, at the place that
   stands for c; it is found iff c lies in one of the session's two windows.
   */
  lemma FoundIffInWindow(derive: Derive, t: seq<Session>, i: nat, c: nat)
    requires TableValid(derive, t) && HintsDistinguish(derive, t) && i < |t| && t[i].inUse && c < COUNTER_LIMIT
    ensures |t[i].windows| == 2
    ensures forall m :: IsFound(t, derive(t[i].seed, c), m) ==>
      m.idx == i && c == t[i].windows[m.domain].base + m.windowIdx
    ensures IsMissing(t, derive(t[i].seed, c)) <==> !InWindow(t[i].windows[0], c) && !InWindow(t[i].windows[1], c)
  {
    var hint := derive(t[i].seed, c);
    assert SessionValid(derive, t[i]);
    forall j: nat, d: nat, w: nat | j < |t| && t[j].inUse && d < 2 && w < HINT_WINDOW
      ensures Shows(t[j], d, w, hint) <==> i == j && c == t[j].windows[d].base + w
    {
      ShowsOnlyItsCounters(derive, t, i, j, d, w, c);
    }
    forall d: nat | d < 2 && InWindow(t[i].windows[d], c) ensures ShownBefore(t[i], hint, 2, 0) {
      var w := c - t[i].windows[d].base;
      assert Earlier(d, w, 2, 0) && Shows(t[i], d, w, hint);
    }
  }

  /** The place that stands for c is the one a lookup finds. */
  lemma FoundAtPlace(derive: Derive, t: seq<Session>, i: nat, c: nat)
    requires TableValid(derive, t) && HintsDistinguish(derive, t) && i < |t| && t[i].inUse
    requires |t[i].windows| == 2 && InWindow(t[i].windows[0], c)
    ensures IsFound(t, derive(t[i].seed, c), Match(i, t[i].generation, 0, c - t[i].windows[0].base, t[i].keys))
  {
    var w := c - t[i].windows[0].base;
    assert InRange(t[i].windows[0]);
    forall j: nat, d: nat, v: nat | j < |t| && t[j].inUse && d < 2 && v < HINT_WINDOW
      ensures Shows(t[j], d, v, derive(t[i].seed, c)) <==> i == j && c == t[j].windows[d].base + v
    {
      ShowsOnlyItsCounters(derive, t, i, j, d, v, c);
    }
  }
}

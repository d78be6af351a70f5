/**
 Which packets a session finds, exactly, when it has one packet in hand at a time: those that lie at
 most 31 below and 32 above the highest counter it has seen. Losses do not count against it, but a gap
 of more than 32 ends the session: nothing it is sent from then on is found again.
 */
module MixReach {
  import opened Common
  import opened Bytes
  import opened Crypto
  import opened Sequences
  import opened MixSessions
  import opened MixSessionRuns
  import opened MixReordering

  function BaseOf(mark: int): nat { Max(0, mark - (HINT_SAFETY_MARGIN - 1)) }

  /** Counter c can be found while the highest counter seen is `mark` (or none has been, -1). */
  predicate InReach(mark: int, c: nat) { BaseOf(mark) <= c < BaseOf(mark) + HINT_WINDOW }

  /** The highest counter that came, or -1. */
  function Highmost(arrivals: seq<nat>): int {
    if |arrivals| == 0 then -1 else Max(Highmost(arrivals[..|arrivals| - 1]), arrivals[|arrivals| - 1])
  }

  /** Every packet is within reach of those that came before it. */
  predicate AllInReach(arrivals: seq<nat>) {
    |arrivals| == 0 ||
    (var init := arrivals[..|arrivals| - 1]; AllInReach(init) && InReach(Highmost(init), arrivals[|arrivals| - 1]))
  }

  ghost predicate Increasing(arrivals: seq<nat>) {
    forall i, j :: 0 <= i < j < |arrivals| ==> arrivals[i] < arrivals[j]
  }

  lemma {:induction false} HighmostOfIncreasing(arrivals: seq<nat>)
    requires Increasing(arrivals)
    ensures Highmost(arrivals) == if |arrivals| == 0 then -1 else arrivals[|arrivals| - 1]
  {
    if |arrivals| > 0 { HighmostOfIncreasing(arrivals[..|arrivals| - 1]); }
  }

  function Before(arrivals: seq<nat>, n: nat): int
    requires n <= |arrivals|
  {
    if n == 0 then -1 else arrivals[n - 1]
  }

  /** Packet n leaves out at most 31 counters after the one before it; until 31 has been seen it may be any up to 63. */
  predicate SmallGap(arrivals: seq<nat>, n: nat)
    requires n < |arrivals|
  {
    arrivals[n] <= Max(31, Before(arrivals, n)) + 32
  }

  /** Without reordering, that is all there is to it. */
  lemma {:induction false} InOrderInReach(arrivals: seq<nat>)
    requires Increasing(arrivals)
    ensures AllInReach(arrivals) <==> forall n :: 0 <= n < |arrivals| ==> SmallGap(arrivals, n)
  {
    if |arrivals| > 0 {
      var n := |arrivals| - 1;
      var init := arrivals[..n];
      InOrderInReach(init);
      HighmostOfIncreasing(init);
      assert forall j :: 0 <= j < n ==> SmallGap(init, j) == SmallGap(arrivals, j);
      assert InReach(Highmost(init), arrivals[n]) <==> SmallGap(arrivals, n);
    }
  }

  // ---------------------------------------------------------------- one packet in hand at a time

  /** All packets of the followed session that were looked up so far were found. */
  ghost predicate AllFound(derive: Derive, slots: nat, steps: seq<Step>, birth: nat)
    requires birth < |steps| && steps[birth].Alloc?
  {
    |steps| == birth + 1 ||
    (var init, last := steps[..|steps| - 1], steps[|steps| - 1];
     && AllFound(derive, slots, init, birth)
     && (IsPacket(derive, steps[birth].seed, last) ==> !IsMissing(Run(derive, slots, init).table, last.hint)))
  }

  /** The mark is the highest counter that came, but for the packet in hand. */
  ghost predicate ReachInv(sys: System, i: nat, seed: Key, tr: Trail) {
    match sys
    case System(table, handles, _, _, _) =>
      && i < |table| && table[i].inUse && table[i].seed == seed && |table[i].windows| == 2
      && var mark, n := MarkOf(table[i].windows[0].high), |tr.arrivals|;
        match |tr.waiting|
        case 0 => mark == Highmost(tr.arrivals)
        case 1 =>
          && n > 0 && tr.waiting[0].counter == tr.arrivals[n - 1]
          && tr.waiting[0].markThen == mark == Highmost(tr.arrivals[..n - 1]) && TicketInv(sys, i, tr.waiting[0])
        case _ => false
  }

  lemma WindowOf(derive: Derive, sys: System, i: nat)
    requires Inv(derive, sys) && i < |sys.table| && sys.table[i].inUse
    ensures var s := sys.table[i]; |s.windows| == 2 && s.windows[0].base == BaseOf(MarkOf(s.windows[0].high))
    ensures sys.table[i].windows[1].base >= HINT_COVER_COUNTER_BASE && SessionValid(derive, sys.table[i])
  {
    assert SlotInv(derive, sys.table[i], sys.allocs[i], sys.accepted[i], sys.matched[i]);
    assert Coherent(derive, sys.table[i].seed, 0, sys.table[i].windows[0]);
    assert Coherent(derive, sys.table[i].seed, 1, sys.table[i].windows[1]);
  }

  lemma TableIsValid(derive: Derive, sys: System)
    requires Inv(derive, sys)
    ensures TableValid(derive, sys.table)
  {
    forall i | 0 <= i < |sys.table| ensures SessionValid(derive, sys.table[i]) {
      assert SlotInv(derive, sys.table[i], sys.allocs[i], sys.accepted[i], sys.matched[i]);
    }
  }

  /** A data packet is missing exactly when it is out of reach of the session's mark. */
  lemma MissingIffOutOfReach(derive: Derive, sys: System, i: nat, step: Step)
    requires Inv(derive, sys) && HintsDistinguish(derive, sys.table) && i < |sys.table| && sys.table[i].inUse
    requires IsPacket(derive, sys.table[i].seed, step)
    ensures |sys.table[i].windows| == 2
    ensures IsMissing(sys.table, step.hint) <==>
      !InReach(MarkOf(sys.table[i].windows[0].high), CounterOf(derive, sys.table[i].seed, step))
  {
    var c := CounterOf(derive, sys.table[i].seed, step);
    WindowOf(derive, sys, i);
    TableIsValid(derive, sys);
    FoundIffInWindow(derive, sys.table, i, c);
  }

  lemma FoundKeepsReach(derive: Derive, sys: System, i: nat, seed: Key, tr: Trail, step: Step)
    requires Inv(derive, sys) && ReachInv(sys, i, seed, tr) && Orderly(derive, sys, i, seed, tr, step, 1)
    requires IsPacket(derive, seed, step) && !IsMissing(sys.table, step.hint)
    ensures ReachInv(Apply(derive, sys, step), i, seed, Follow(derive, sys, i, seed, tr, step))
  {
    var c, s := CounterOf(derive, seed, step), sys.table[i];
    WindowOf(derive, sys, i);
    MissingIffOutOfReach(derive, sys, i, step);
    TableIsValid(derive, sys);
    FoundAtPlace(derive, sys.table, i, c);
    FoundIsUnique(sys.table, step.hint, Match(i, s.generation, 0, c - s.windows[0].base, s.keys), step.found);
    var tr' := Follow(derive, sys, i, seed, tr, step);
    assert tr'.waiting == [Ticket(|sys.handles|, c, MarkOf(s.windows[0].high))];
    assert tr'.arrivals[..|tr.arrivals|] == tr.arrivals;
    assert TicketInv(Apply(derive, sys, step), i, tr'.waiting[0]);
  }

  lemma ConfirmKeepsReach(derive: Derive, sys: System, i: nat, seed: Key, tr: Trail, h: nat)
    requires Inv(derive, sys) && ReachInv(sys, i, seed, tr) && PlaceOf(tr.waiting, h).Some?
    ensures ReachInv(Apply(derive, sys, Confirm(h)), i, seed, Follow(derive, sys, i, seed, tr, Confirm(h)))
  {
    var t := tr.waiting[0];
    assert PlaceOf(tr.waiting, h).value == 0 && t.handle == h && TicketInv(sys, i, t);
    WindowOf(derive, sys, i);
    ConfirmRecords(derive, sys, h);
    assert Without(tr.waiting, 0) == [];
  }

  lemma OtherKeepsReach(derive: Derive, sys: System, i: nat, seed: Key, tr: Trail, step: Step)
    requires Inv(derive, sys) && ReachInv(sys, i, seed, tr) && Orderly(derive, sys, i, seed, tr, step, 1)
    requires !IsPacket(derive, seed, step) && !(step.Confirm? && PlaceOf(tr.waiting, step.handle).Some?)
    ensures ReachInv(Apply(derive, sys, step), i, seed, Follow(derive, sys, i, seed, tr, step))
  {
    OtherKeepsWindow(derive, sys, i, step);
    HistoryGrows(derive, sys, step, i);
    ApplyKeepsShape(derive, sys, step);
    if |tr.waiting| == 1 { TicketsStay(derive, sys, Apply(derive, sys, step), i, tr.waiting); }
  }

  /** As long as all packets were found, they were in reach, and the mark is the highest of them. */
  lemma {:induction false} ReachHolds(derive: Derive, slots: nat, steps: seq<Step>, birth: nat, i: nat)
    requires Watched(derive, slots, steps, birth, i, 1) && AllFound(derive, slots, steps, birth)
    ensures ReachInv(Run(derive, slots, steps), i, steps[birth].seed, TrailOf(derive, slots, steps, birth, i))
    ensures AllInReach(TrailOf(derive, slots, steps, birth, i).arrivals)
  {
    var init, last := steps[..|steps| - 1], steps[|steps| - 1];
    if |init| > birth {
      ReachHolds(derive, slots, init, birth, i);
      RunKeepsInv(derive, slots, init);
      NextInReach(derive, Run(derive, slots, init), i, steps[birth].seed, TrailOf(derive, slots, init, birth, i), last);
    }
  }

  lemma NextInReach(derive: Derive, sys: System, i: nat, seed: Key, tr: Trail, step: Step)
    requires Inv(derive, sys) && ReachInv(sys, i, seed, tr) && Orderly(derive, sys, i, seed, tr, step, 1)
    requires AllInReach(tr.arrivals) && (IsPacket(derive, seed, step) ==> !IsMissing(sys.table, step.hint))
    ensures ReachInv(Apply(derive, sys, step), i, seed, Follow(derive, sys, i, seed, tr, step))
    ensures AllInReach(Follow(derive, sys, i, seed, tr, step).arrivals)
  {
    if IsPacket(derive, seed, step) {
      MissingIffOutOfReach(derive, sys, i, step);
      FoundKeepsReach(derive, sys, i, seed, tr, step);
      assert (tr.arrivals + [CounterOf(derive, seed, step)])[..|tr.arrivals|] == tr.arrivals;
    } else if step.Confirm? && PlaceOf(tr.waiting, step.handle).Some? {
      ConfirmKeepsReach(derive, sys, i, seed, tr, step.handle);
    } else {
      OtherKeepsReach(derive, sys, i, seed, tr, step);
    }
  }

  /**
   In every run of the table, whatever other sessions do: all packets of a session that handles one
   at a time are found if and only if each was within reach of those before it.
   */
  lemma {:induction false} AllFoundIffInReach(derive: Derive, slots: nat, steps: seq<Step>, birth: nat, i: nat)
    requires Watched(derive, slots, steps, birth, i, 1)
    ensures AllFound(derive, slots, steps, birth) <==> AllInReach(TrailOf(derive, slots, steps, birth, i).arrivals)
  {
    var init, last := steps[..|steps| - 1], steps[|steps| - 1];
    if AllFound(derive, slots, steps, birth) {
      ReachHolds(derive, slots, steps, birth, i);
    } else {
      AllFoundIffInReach(derive, slots, init, birth, i);
      if AllFound(derive, slots, init, birth) {
        ReachHolds(derive, slots, init, birth, i);
        RunKeepsInv(derive, slots, init);
        FirstMissing(derive, Run(derive, slots, init), i, steps[birth].seed, TrailOf(derive, slots, init, birth, i),
                     last);
      } else if IsPacket(derive, steps[birth].seed, last) {
        ShorterInReach(TrailOf(derive, slots, init, birth, i).arrivals, CounterOf(derive, steps[birth].seed, last));
      }
    }
  }

  lemma ShorterInReach(arrivals: seq<nat>, c: nat)
    ensures AllInReach(arrivals + [c]) <==> AllInReach(arrivals) && InReach(Highmost(arrivals), c)
  {
    assert (arrivals + [c])[..|arrivals|] == arrivals;
  }

  lemma FirstMissing(derive: Derive, sys: System, i: nat, seed: Key, tr: Trail, step: Step)
    requires Inv(derive, sys) && ReachInv(sys, i, seed, tr) && Orderly(derive, sys, i, seed, tr, step, 1)
    requires IsPacket(derive, seed, step) && IsMissing(sys.table, step.hint)
    ensures !AllInReach(Follow(derive, sys, i, seed, tr, step).arrivals)
  {
    MissingIffOutOfReach(derive, sys, i, step);
    ShorterInReach(tr.arrivals, CounterOf(derive, seed, step));
  }

  // ---------------------------------------------------------------- a gap too wide

  /** Slot i still holds the session with this seed, with this first window. */
  ghost predicate Stuck(sys: System, i: nat, seed: Key, win: Window) {
    match sys
    case System(table, _, _, _, _) =>
      i < |table| && table[i].inUse && table[i].seed == seed && |table[i].windows| == 2 && table[i].windows[0] == win
  }

  /** From step n on, all packets of the session lie more than 32 above this mark, and above 63. */
  ghost predicate Beyond(derive: Derive, seed: Key, steps: seq<Step>, n: nat, mark: int) {
    forall m ::
      n <= m < |steps| ==> (IsPacket(derive, seed, steps[m]) ==> CounterOf(derive, seed, steps[m]) > Max(31, mark) + 32)
  }

  lemma StuckStep(derive: Derive, sys: System, i: nat, seed: Key, tr: Trail, step: Step, k: nat, win: Window)
    requires Inv(derive, sys) && Stuck(sys, i, seed, win) && tr.waiting == []
    requires Orderly(derive, sys, i, seed, tr, step, k)
    requires IsPacket(derive, seed, step) ==> CounterOf(derive, seed, step) > Max(31, MarkOf(win.high)) + 32
    ensures Stuck(Apply(derive, sys, step), i, seed, win) && Follow(derive, sys, i, seed, tr, step).waiting == []
    ensures IsPacket(derive, seed, step) ==> IsMissing(sys.table, step.hint)
  {
    if IsPacket(derive, seed, step) {
      MissingIffOutOfReach(derive, sys, i, step);
      if Enabled(sys, step) { assert Earlier(step.found.domain, step.found.windowIdx, 2, 0); }
    } else {
      OtherKeepsWindow(derive, sys, i, step);
    }
    ApplyKeepsShape(derive, sys, step);
  }

  /**
   Once nothing is in hand and all that still comes lies more than 32 above the mark, nothing is ever
   found again, however many packets come and whatever the other sessions do: the window stays where it is.
   */
  lemma {:induction false} GapIsFatal(derive: Derive, slots: nat, steps: seq<Step>, birth: nat, i: nat, k: nat, n: nat,
                                      win: Window)
    requires Watched(derive, slots, steps, birth, i, k) && birth < n <= |steps|
    requires Stuck(Run(derive, slots, steps[..n]), i, steps[birth].seed, win)
    requires TrailOf(derive, slots, steps[..n], birth, i).waiting == []
    requires Beyond(derive, steps[birth].seed, steps, n, MarkOf(win.high))
    ensures Stuck(Run(derive, slots, steps), i, steps[birth].seed, win)
    ensures TrailOf(derive, slots, steps, birth, i).waiting == []
    ensures n < |steps| && IsPacket(derive, steps[birth].seed, steps[|steps| - 1]) ==>
      IsMissing(Run(derive, slots, steps[..|steps| - 1]).table, steps[|steps| - 1].hint)
  {
    if n == |steps| {
      assert steps[..n] == steps;
    } else {
      var init, last := steps[..|steps| - 1], steps[|steps| - 1];
      assert init[..n] == steps[..n] && init[birth] == steps[birth];
      assert Beyond(derive, steps[birth].seed, init, n, MarkOf(win.high)) by {
        forall m | n <= m < |init| ensures init[m] == steps[m] {}
      }
      GapIsFatal(derive, slots, init, birth, i, k, n, win);
      RunKeepsInv(derive, slots, init);
      StuckStep(derive, Run(derive, slots, init), i, steps[birth].seed, TrailOf(derive, slots, init, birth, i), last, k,
                win);
    }
  }
}

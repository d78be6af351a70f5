/**
 What handling a packet does to the session table, in either direction: which fields of which session
 change, and how. From that, how long the table remembers the nonce of a packet that was sent on.
 */
module MixHandling {
  import opened Common
  import opened Crypto
  import opened Sequences
  import opened MixSessions
  import MixSessionRuns

  /** Still the same session, in the same slot, under the same keys. */
  ghost predicate SameSession(s: Session, s': Session) {
    && s'.inUse == s.inUse && s'.generation == s.generation && s'.role == s.role && s'.keys == s.keys
    && s'.seed == s.seed
  }

  /** The packet at offset w of window d has been counted; the other window is as it was. */
  ghost predicate Counted(derive: Derive, s: Session, s': Session, d: nat, w: nat) {
    && |s.windows| == |s'.windows| == 2 && d < 2 && s'.windows[1 - d] == s.windows[1 - d]
    && (var was, next, counter := s.windows[d], s'.windows[d], s.windows[d].base + w;
        && next.high == Highest(if was.high.Highest? && was.high.counter > counter then was.high.counter else counter)
        && next.base == Max(InitialBase(d), next.high.counter - 31)
        && |next.hints| == 64 && forall v :: 0 <= v < 64 ==> next.hints[v] == derive(s.seed, next.base + v))
  }

  /** The nonce is new to the ring and now its newest; at most the 1024 latest are kept. */
  ghost predicate Recorded(r: Ring, r': Ring, nonce: Nonce) {
    && RingValid(r) && RingValid(r') && nonce !in Recent(r)
    && Recent(r') == if |Recent(r)| < 1024 then Recent(r) + [nonce] else Recent(r)[1..] + [nonce]
  }

  function Other(dir: Direction): Direction { if dir.Forward? then Return else Forward }

  /**
   What a node does to its table on a packet that it found at m: every other session stays as it is. If the
   MAC is wrong, windows and rings stay; if it is right, the packet is counted, and its nonce recorded
   unless the ring of this direction holds it.
   */
  ghost predicate Handled(derive: Derive, dir: Direction, t: seq<Session>, u: seq<Session>, m: Match, now: nat,
                          genuine: bool, nonce: Nonce) {
    |u| == |t| && m.idx < |t| && (forall j :: 0 <= j < |t| && j != m.idx ==> u[j] == t[j])
    && SlotHandled(derive, dir, t[m.idx], u[m.idx], m, now, genuine, nonce)
  }

  ghost predicate SlotHandled(derive: Derive, dir: Direction, s: Session, s': Session, m: Match, now: nat,
                              genuine: bool, nonce: Nonce) {
    match m
    case Match(_, _, domain, windowIdx, _) =>
      && SameSession(s, s') && s'.lastActive == now && RingOf(s', Other(dir)) == RingOf(s, Other(dir))
      && if !genuine then s'.windows == s.windows && RingOf(s', dir) == RingOf(s, dir)
         else
           && Counted(derive, s, s', domain, windowIdx) && RingValid(RingOf(s, dir))
           && if nonce in Recent(RingOf(s, dir)) then RingOf(s', dir) == RingOf(s, dir)
              else Recorded(RingOf(s, dir), RingOf(s', dir), nonce)
  }

  /** The locked operations of a handler, one after the other. */
  function AfterHandling(derive: Derive, dir: Direction, t: seq<Session>, m: Match, now: nat, genuine: bool,
                         seen: bool, nonce: Nonce): (u: seq<Session>)
    requires m.idx < |t| && RingOf(t[m.idx], dir).next < |RingOf(t[m.idx], dir).buf|
    ensures |u| == |t|
  {
    var active := t[m.idx := t[m.idx].(lastActive := now)];
    if !genuine then active
    else
      var confirmed := Confirmed(derive, active, m.idx, m.generation, m.domain, m.windowIdx);
      if seen then confirmed
      else confirmed[m.idx := WithRing(confirmed[m.idx], dir, Push(RingOf(t[m.idx], dir), nonce))]
  }

  lemma {:induction false} ConfirmCounts(derive: Derive, s: Session, d: nat, w: nat)
    requires SessionValid(derive, s) && s.inUse && d < 2
    ensures |s.windows| == 2
    ensures Counted(derive, s, s.(windows := s.windows[d := Advance(derive, s.seed, d, s.windows[d], w)]), d, w)
  {
    var win := Advance(derive, s.seed, d, s.windows[d], w);
    assert win.hints == HintsFrom(derive, s.seed, win.base);
  }

  lemma {:induction false} PushRecords(r: Ring, nonce: Nonce)
    requires RingValid(r) && nonce !in Recent(r)
    ensures Recorded(r, Push(r, nonce), nonce)
  {
    PushKeepsLast(r, nonce);
    if |Recent(r)| == REPLAY_WINDOW { assert (Recent(r) + [nonce])[1..] == Recent(r)[1..] + [nonce]; }
  }

  lemma {:induction false} HandledAsStated(derive: Derive, dir: Direction, t: seq<Session>, hint: Hint, m: Match,
                                           now: nat, genuine: bool, nonce: Nonce)
    requires TableValid(derive, t) && IsFound(t, hint, m)
    ensures RingValid(RingOf(t[m.idx], dir))
    ensures var u := AfterHandling(derive, dir, t, m, now, genuine, nonce in Recent(RingOf(t[m.idx], dir)), nonce);
      Handled(derive, dir, t, u, m, now, genuine, nonce) && TableValid(derive, u)
  {
    var s, r := t[m.idx], RingOf(t[m.idx], dir);
    assert SessionValid(derive, s);
    var counted := AfterConfirm(derive, s, now, m.domain, m.windowIdx);
    var s' := if !genuine then s.(lastActive := now) else if nonce in Recent(r) then counted
              else WithRing(counted, dir, Push(r, nonce));
    var u := AfterHandling(derive, dir, t, m, now, genuine, nonce in Recent(r), nonce);
    assert u == t[m.idx := s'];
    SlotOutcome(derive, dir, s, m, now, genuine, nonce);
    SlotReplaced(derive, dir, t, u, m, now, genuine, nonce, s');
  }

  /** The session once it is active and has counted a packet. */
  function AfterConfirm(derive: Derive, s: Session, now: nat, d: nat, w: nat): Session
    requires d < |s.windows|
  {
    s.(lastActive := now, windows := s.windows[d := Advance(derive, s.seed, d, s.windows[d], w)])
  }

  lemma {:induction false} SlotCounted(derive: Derive, s: Session, now: nat, d: nat, w: nat)
    requires SessionValid(derive, s) && s.inUse && d < 2
    ensures |s.windows| == 2
    ensures var counted := AfterConfirm(derive, s, now, d, w);
      Counted(derive, s, counted, d, w) && SessionValid(derive, counted) && SameSession(s, counted)
  {
    ConfirmCounts(derive, s, d, w);
  }

  lemma {:induction false} SlotOutcome(derive: Derive, dir: Direction, s: Session, m: Match, now: nat, genuine: bool,
                                       nonce: Nonce)
    requires SessionValid(derive, s) && s.inUse && m.domain < 2
    ensures |s.windows| == 2 && RingValid(RingOf(s, dir))
    ensures var counted := AfterConfirm(derive, s, now, m.domain, m.windowIdx);
      var s' := if !genuine then s.(lastActive := now) else if nonce in Recent(RingOf(s, dir)) then counted
                else WithRing(counted, dir, Push(RingOf(s, dir), nonce));
      SlotHandled(derive, dir, s, s', m, now, genuine, nonce) && SessionValid(derive, s')
  {
    SlotCounted(derive, s, now, m.domain, m.windowIdx);
    if genuine && nonce !in Recent(RingOf(s, dir)) {
      PushRecords(RingOf(s, dir), nonce);
      RingChanges(derive, dir, s, AfterConfirm(derive, s, now, m.domain, m.windowIdx), m.domain, m.windowIdx, nonce);
    }
  }

  lemma {:induction false} SlotReplaced(derive: Derive, dir: Direction, t: seq<Session>, u: seq<Session>, m: Match,
                                        now: nat, genuine: bool, nonce: Nonce, s': Session)
    requires TableValid(derive, t) && m.idx < |t| && u == t[m.idx := s'] && SessionValid(derive, s')
    requires SlotHandled(derive, dir, t[m.idx], s', m, now, genuine, nonce)
    ensures Handled(derive, dir, t, u, m, now, genuine, nonce) && TableValid(derive, u)
  {
    OneSlotValid(derive, t, m.idx, s');
  }

  lemma {:induction false} OneSlotValid(derive: Derive, t: seq<Session>, i: nat, s: Session)
    requires TableValid(derive, t) && i < |t| && SessionValid(derive, s)
    ensures TableValid(derive, t[i := s])
  {
  }

  lemma {:induction false} RingChanges(derive: Derive, dir: Direction, s: Session, counted: Session, d: nat, w: nat,
                                       nonce: Nonce)
    requires SessionValid(derive, counted) && Counted(derive, s, counted, d, w) && RingValid(RingOf(counted, dir))
    ensures var s' := WithRing(counted, dir, Push(RingOf(counted, dir), nonce));
      && Counted(derive, s, s', d, w) && RingOf(s', Other(dir)) == RingOf(counted, Other(dir))
      && SessionValid(derive, s')
  {
    PushKeepsLast(RingOf(counted, dir), nonce);
  }

  // ---------------------------------------------------------------- memory

  /** From t to u the session in slot i stays, and its ring takes at most one nonce. */
  ghost predicate Carries(derive: Derive, dir: Direction, t: seq<Session>, u: seq<Session>, i: nat) {
    && i < |t| == |u| && TableValid(derive, u) && u[i].inUse && u[i].seed == t[i].seed && u[i].keys == t[i].keys
    && (RingOf(u[i], dir) == RingOf(t[i], dir) || OnePushed(RingOf(t[i], dir), RingOf(u[i], dir)))
  }

  ghost predicate OnePushed(r: Ring, r': Ring) { r.next < |r.buf| && exists nonce :: r' == Push(r, nonce) }

  /** Whatever else happens to it, a table whose session in slot i stays, from one moment to the next. */
  ghost predicate History(derive: Derive, dir: Direction, tables: seq<seq<Session>>, i: nat) {
    |tables| > 0 && forall n :: 0 < n < |tables| ==> Carries(derive, dir, tables[n - 1], tables[n], i)
  }

  /** How many nonces the session in slot i has taken in that time. */
  ghost function Taken(dir: Direction, tables: seq<seq<Session>>, i: nat): nat {
    if |tables| <= 1 then 0
    else
      var last, before := tables[|tables| - 1], tables[|tables| - 2];
      Taken(dir, tables[..|tables| - 1], i) +
      if i < |last| == |before| && RingOf(last[i], dir) != RingOf(before[i], dir) then 1 else 0
  }

  /** The session in slot i is this one and its ring holds the nonce among its last `age`. */
  ghost predicate Remembers(derive: Derive, dir: Direction, t: seq<Session>, i: nat, seed: Key, keys: Keys,
                            nonce: Nonce, age: nat) {
    && i < |t| && TableValid(derive, t) && t[i].inUse && t[i].seed == seed && t[i].keys == keys
    && RingValid(RingOf(t[i], dir)) && InLast(RingOf(t[i], dir), nonce, age)
  }

  lemma {:induction false} StillRemembers(derive: Derive, dir: Direction, t: seq<Session>, u: seq<Session>, i: nat,
                                          seed: Key, keys: Keys, nonce: Nonce, age: nat)
    requires Remembers(derive, dir, t, i, seed, keys, nonce, age) && Carries(derive, dir, t, u, i)
    requires age < REPLAY_WINDOW || RingOf(u[i], dir) == RingOf(t[i], dir)
    ensures Remembers(derive, dir, u, i, seed, keys, nonce,
                      age + if RingOf(u[i], dir) == RingOf(t[i], dir) then 0 else 1)
  {
    if RingOf(u[i], dir) != RingOf(t[i], dir) {
      var other :| RingOf(u[i], dir) == Push(RingOf(t[i], dir), other);
      PushAges(RingOf(t[i], dir), nonce, age, other);
    }
  }

  /** A nonce is remembered until 1024 others have been taken. */
  lemma {:induction false} MemoryLasts(derive: Derive, dir: Direction, tables: seq<seq<Session>>, i: nat, seed: Key,
                                       keys: Keys, nonce: Nonce)
    requires History(derive, dir, tables, i) && Taken(dir, tables, i) < REPLAY_WINDOW
    requires Remembers(derive, dir, tables[0], i, seed, keys, nonce, 1)
    ensures Remembers(derive, dir, tables[|tables| - 1], i, seed, keys, nonce, 1 + Taken(dir, tables, i))
  {
    if |tables| > 1 {
      var init := tables[..|tables| - 1];
      forall n | 0 < n < |init| ensures Carries(derive, dir, init[n - 1], init[n], i) {
        assert Carries(derive, dir, tables[n - 1], tables[n], i);
      }
      MemoryLasts(derive, dir, init, i, seed, keys, nonce);
      assert Carries(derive, dir, tables[|tables| - 2], tables[|tables| - 1], i);
      StillRemembers(derive, dir, tables[|tables| - 2], tables[|tables| - 1], i, seed, keys, nonce,
                     1 + Taken(dir, init, i));
    }
  }

  /** A hint of the session in slot i is found there or not at all. */
  lemma {:induction false} FoundAtHome(derive: Derive, t: seq<Session>, i: nat, counter: nat, hint: Hint)
    requires TableValid(derive, t) && MixSessionRuns.HintsDistinguish(derive, t) && i < |t| && t[i].inUse
    requires hint == derive(t[i].seed, counter) && counter < MixSessionRuns.COUNTER_LIMIT
    ensures FoundBy(t, hint).Some? ==> FoundBy(t, hint).value.idx == i && FoundBy(t, hint).value.keys == t[i].keys
  {
    var m := FoundBy(t, hint);
    if m.Some? {
      MixSessionRuns.ShowsOnlyItsCounters(derive, t, i, m.value.idx, m.value.domain, m.value.windowIdx, counter);
    }
  }

  /** What was found shows a hint of its own session. */
  lemma {:induction false} FoundShows(derive: Derive, t: seq<Session>, hint: Hint, m: Match) returns (counter: nat)
    requires TableValid(derive, t) && MixSessionRuns.HintsDistinguish(derive, t) && IsFound(t, hint, m)
    ensures hint == derive(t[m.idx].seed, counter) && counter < MixSessionRuns.COUNTER_LIMIT
  {
    var win := t[m.idx].windows[m.domain];
    assert SessionValid(derive, t[m.idx]) && Coherent(derive, t[m.idx].seed, m.domain, win);
    assert MixSessionRuns.InRange(win);
    counter := win.base + m.windowIdx;
  }

  /** The nonce of a packet that was taken is still held when its hint is found again. */
  lemma {:induction false} StillHeld(derive: Derive, dir: Direction, t: seq<Session>, hint: Hint, m: Match, now: nat,
                                     nonce: Nonce, between: seq<seq<Session>>)
    requires TableValid(derive, t) && MixSessionRuns.HintsDistinguish(derive, t) && IsFound(t, hint, m)
    requires RingValid(RingOf(t[m.idx], dir)) && nonce !in Recent(RingOf(t[m.idx], dir))
    requires History(derive, dir, between, m.idx) && Taken(dir, between, m.idx) < REPLAY_WINDOW
    requires Handled(derive, dir, t, between[0], m, now, true, nonce) && TableValid(derive, between[0])
    requires MixSessionRuns.HintsDistinguish(derive, between[|between| - 1])
    ensures var u := between[|between| - 1];
      FoundBy(u, hint).Some? ==>
        var again := FoundBy(u, hint).value;
        && again.keys == m.keys && again.idx < |u| && RingValid(RingOf(u[again.idx], dir))
        && nonce in Recent(RingOf(u[again.idx], dir))
  {
    var u := between[|between| - 1];
    NewestIsLast(RingOf(t[m.idx], dir), RingOf(between[0][m.idx], dir), nonce);
    MemoryLasts(derive, dir, between, m.idx, t[m.idx].seed, m.keys, nonce);
    var counter := FoundShows(derive, t, hint, m);
    FoundAtHome(derive, u, m.idx, counter, hint);
  }

  lemma NewestIsLast(r: Ring, r': Ring, nonce: Nonce)
    requires Recorded(r, r', nonce)
    ensures InLast(r', nonce, 1)
  {
    assert Recent(r')[|Recent(r')| - 1] == nonce;
  }

  // ---------------------------------------------------------------- what carries a session

  /** Every step of another thread carries every session but the one whose slot it allocates. */
  lemma {:induction false} StepCarries(derive: Derive, sys: MixSessionRuns.System, step: MixSessionRuns.Step, i: nat,
                                       dir: Direction)
    requires MixSessionRuns.Inv(derive, sys) && i < |sys.table| && sys.table[i].inUse
    requires step.Alloc? ==> step.slot != i
    ensures Carries(derive, dir, sys.table, MixSessionRuns.Apply(derive, sys, step).table, i)
  {
    InvKeepsTable(derive, sys);
    MixSessionRuns.StepKeepsInv(derive, sys, step);
    InvKeepsTable(derive, MixSessionRuns.Apply(derive, sys, step));
    StepPushesOne(derive, sys, step, i, dir);
  }

  lemma {:induction false} InvKeepsTable(derive: Derive, sys: MixSessionRuns.System)
    requires MixSessionRuns.Inv(derive, sys)
    ensures TableValid(derive, sys.table)
  {
    forall j | 0 <= j < |sys.table| ensures SessionValid(derive, sys.table[j]) {
      assert MixSessionRuns.SlotInv(derive, sys.table[j], sys.allocs[j], sys.accepted[j], sys.matched[j]);
    }
  }

  lemma {:induction false} StepPushesOne(derive: Derive, sys: MixSessionRuns.System, step: MixSessionRuns.Step, i: nat,
                                         dir: Direction)
    requires TableValid(derive, sys.table) && i < |sys.table| && sys.table[i].inUse
    requires step.Alloc? ==> step.slot != i
    ensures var t, u := sys.table, MixSessionRuns.Apply(derive, sys, step).table;
      && |t| == |u| && u[i].inUse && u[i].seed == t[i].seed && u[i].keys == t[i].keys
      && (RingOf(u[i], dir) == RingOf(t[i], dir) || OnePushed(RingOf(t[i], dir), RingOf(u[i], dir)))
  {
    assert SessionValid(derive, sys.table[i]);
  }
}

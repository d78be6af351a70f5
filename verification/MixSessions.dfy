/**
 The mix node's session table: a rotating window of expected packet hints per session and
 counter domain, a replay ring per direction, and slots reused under generation counters.
 */
module MixSessions {
  import opened Common
  import opened Bytes
  import opened Crypto
  import opened Sequences

  const REPLAY_WINDOW := 1024
  const HINT_WINDOW := 64
  const HINT_SAFETY_MARGIN := 32
  const HINT_COVER_COUNTER_BASE := 0x4000_0000_0000_0000

  type Hint = Octets
  type Nonce = Octets

  /** The keyed function that turns a hint seed and a packet counter into a hint. */
  type Derive = (Key, nat) -> Hint

  // ---------------------------------------------------------------- the hint window

  datatype HighWater = NothingMatched | Highest(counter: nat)

  /** One counter domain of a session: the lowest counter still expected and the hints from there on. */
  datatype Window = Window(base: nat, hints: seq<Hint>, high: HighWater)

  /** Domain 0 numbers real packets from 0, domain 1 numbers cover packets from their own base. */
  function InitialBase(d: nat): nat {
    if d == 0 then 0 else HINT_COVER_COUNTER_BASE
  }

  function HintsFrom(derive: Derive, seed: Key, base: nat): (r: seq<Hint>)
    ensures |r| == HINT_WINDOW
  {
    seq(HINT_WINDOW, w requires 0 <= w => derive(seed, base + w))
  }

  method ComputeHints(derive: Derive, seed: Key, base: nat) returns (hints: seq<Hint>)
    ensures hints == HintsFrom(derive, seed, base)
  {
    hints := [];
    for w := 0 to HINT_WINDOW
      invariant |hints| == w && forall v :: 0 <= v < w ==> hints[v] == derive(seed, base + v)
    {
      hints := hints + [derive(seed, base + w)];
    }
  }

  function InitialWindow(derive: Derive, seed: Key, d: nat): Window {
    Window(InitialBase(d), HintsFrom(derive, seed, InitialBase(d)), NothingMatched)
  }

  function Max(a: int, b: int): int { if a > b then a else b }

  function Raise(high: HighWater, counter: nat): HighWater {
    match high
    case NothingMatched => Highest(counter)
    case Highest(c) => Highest(Max(c, counter))
  }

  /** The window that belongs to a high-water mark: as far forward as the safety margin allows. */
  function BaseFor(d: nat, high: HighWater): nat {
    match high
    case NothingMatched => InitialBase(d)
    case Highest(c) => Max(InitialBase(d), c - (HINT_SAFETY_MARGIN - 1))
  }

  /** The window always shows the hints that follow its base, and its base follows the high-water mark. */
  ghost predicate Coherent(derive: Derive, seed: Key, d: nat, win: Window) {
    && win.hints == HintsFrom(derive, seed, win.base)
    && win.base == BaseFor(d, win.high)
  }

  /** A match at offset `through` is confirmed: the high-water mark rises, and the base follows it if it must. */
  method AdvanceHintWindow(derive: Derive, seed: Key, ghost d: nat, win: Window, through: nat) returns (win': Window)
    requires Coherent(derive, seed, d, win)
    ensures win'.high == Raise(win.high, win.base + through)
    ensures Coherent(derive, seed, d, win')
  {
    var matched := win.base + through;
    var high := win.high;
    if high == NothingMatched || matched > high.counter {
      high := Highest(matched);
    }
    var desired := if high.counter >= HINT_SAFETY_MARGIN then high.counter - HINT_SAFETY_MARGIN + 1 else 0;
    if desired <= win.base {
      win' := win.(high := high);
    } else {
      var hints := ComputeHints(derive, seed, desired);
      win' := Window(desired, hints, high);
    }
  }

  /** The same step as a value: the only coherent window with the raised mark. */
  function Advance(derive: Derive, seed: Key, d: nat, win: Window, through: nat): (win': Window)
    ensures Coherent(derive, seed, d, win')
  {
    var high := Raise(win.high, win.base + through);
    Window(BaseFor(d, high), HintsFrom(derive, seed, BaseFor(d, high)), high)
  }

  lemma AdvanceIsUnique(derive: Derive, seed: Key, d: nat, win: Window, through: nat, win': Window)
    requires Coherent(derive, seed, d, win') && win'.high == Raise(win.high, win.base + through)
    ensures win' == Advance(derive, seed, d, win, through)
  {
  }

  /** Neither the base nor the high-water mark ever goes back. */
  lemma AdvanceMonotone(derive: Derive, seed: Key, d: nat, win: Window, through: nat)
    requires Coherent(derive, seed, d, win)
    ensures Advance(derive, seed, d, win, through).base >= win.base
    ensures win.high.Highest? ==> Advance(derive, seed, d, win, through).high.counter >= win.high.counter
  {
  }

  // ---------------------------------------------------------------- the replay ring

  /** A ring of the last nonces: `count` of them, the next one to be written at `next`. */
  datatype Ring = Ring(buf: seq<Nonce>, count: nat, next: nat)

  function EmptyRing(): Ring { Ring(seq(REPLAY_WINDOW, _ => []), 0, 0) }

  ghost predicate RingValid(r: Ring) {
    && |r.buf| == REPLAY_WINDOW && r.count <= REPLAY_WINDOW && r.next < REPLAY_WINDOW
    && (r.count < REPLAY_WINDOW ==> r.next == r.count)
  }

  /** The nonces the ring holds, oldest first. */
  ghost function Recent(r: Ring): seq<Nonce>
    requires RingValid(r)
  {
    if r.count < REPLAY_WINDOW then r.buf[..r.count] else From(r.buf, r.next)
  }

  function From(buf: seq<Nonce>, k: nat): (r: seq<Nonce>)
    requires k <= |buf|
  {
    buf[k..] + buf[..k]
  }

  function Last<T>(s: seq<T>, n: nat): (r: seq<T>)
    ensures |r| <= n
  {
    if |s| <= n then s else s[|s| - n..]
  }

  function Push(r: Ring, nonce: Nonce): Ring
    requires r.next < |r.buf|
  {
    Ring(r.buf[r.next := nonce], if r.count < REPLAY_WINDOW then r.count + 1 else r.count, (r.next + 1) % REPLAY_WINDOW)
  }

  lemma PushFilling(r: Ring, nonce: Nonce)
    requires RingValid(r) && r.count < REPLAY_WINDOW
    ensures RingValid(Push(r, nonce)) && Recent(Push(r, nonce)) == Recent(r) + [nonce]
  {
  }

  lemma RotateAfter(buf: seq<Nonce>, k: nat, nonce: Nonce)
    requires k < |buf|
    ensures buf[k := nonce][k + 1..] == buf[k + 1..]
    ensures buf[k := nonce][..k + 1] == buf[..k] + [nonce]
    ensures From(buf, k)[1..] == buf[k + 1..] + buf[..k]
  {
  }

  /** Writing over the oldest of a full ring makes it the newest. */
  lemma RotateOne(buf: seq<Nonce>, k: nat, nonce: Nonce)
    requires k < |buf|
    ensures From(buf[k := nonce], if k + 1 == |buf| then 0 else k + 1) == From(buf, k)[1..] + [nonce]
  {
    RotateAfter(buf, k, nonce);
    Regroup(buf[k + 1..], buf[..k], [nonce]);
    if k + 1 == |buf| { FromStart(buf[k := nonce]); }
  }

  lemma FromStart(buf: seq<Nonce>)
    ensures From(buf, 0) == From(buf, |buf|)
  {
  }

  lemma PushFull(r: Ring, nonce: Nonce)
    requires RingValid(r) && r.count == REPLAY_WINDOW
    ensures RingValid(Push(r, nonce)) && Recent(Push(r, nonce)) == Recent(r)[1..] + [nonce]
  {
    var r' := Push(r, nonce);
    NextInRing(r.next);
    RotateOne(r.buf, r.next, nonce);
    assert Recent(r') == From(r'.buf, r'.next);
  }

  lemma NextInRing(k: nat)
    requires k < REPLAY_WINDOW
    ensures (k + 1) % REPLAY_WINDOW == if k + 1 == REPLAY_WINDOW then 0 else k + 1
  {
  }

  lemma PushKeepsLast(r: Ring, nonce: Nonce)
    requires RingValid(r)
    ensures RingValid(Push(r, nonce))
    ensures Recent(Push(r, nonce)) == Last(Recent(r) + [nonce], REPLAY_WINDOW)
  {
    if r.count < REPLAY_WINDOW {
      PushFilling(r, nonce);
    } else {
      PushFull(r, nonce);
      assert (Recent(r) + [nonce])[1..] == Recent(r)[1..] + [nonce];
    }
  }

  /** The nonce is among the last `age` that the ring holds. */
  ghost predicate InLast(r: Ring, nonce: Nonce, age: nat)
    requires RingValid(r)
  {
    exists p :: 0 <= p < |Recent(r)| && Recent(r)[p] == nonce && |Recent(r)| - p <= age
  }

  /** Another push makes it one older, and as long as it is not too old it stays. */
  lemma PushAges(r: Ring, nonce: Nonce, age: nat, other: Nonce)
    requires RingValid(r) && InLast(r, nonce, age) && age < REPLAY_WINDOW
    ensures RingValid(Push(r, other)) && InLast(Push(r, other), nonce, age + 1)
  {
    PushKeepsLast(r, other);
    var p :| 0 <= p < |Recent(r)| && Recent(r)[p] == nonce && |Recent(r)| - p <= age;
    var all := Recent(r) + [other];
    var kept := Last(all, REPLAY_WINDOW);
    assert all[p] == nonce && kept[p - (|all| - |kept|)] == nonce;
  }

  lemma InRecent(r: Ring, nonce: Nonce)
    requires RingValid(r)
    ensures nonce in Recent(r) <==> nonce in r.buf[..r.count]
  {
  }

  method HoldsNonce(buf: seq<Nonce>, count: nat, nonce: Nonce) returns (held: bool)
    requires count <= |buf|
    ensures held <==> nonce in buf[..count]
  {
    for i := 0 to count
      invariant nonce !in buf[..i]
    {
      if buf[i] == nonce { return true; }
    }
    return false;
  }

  /** Reports a nonce the ring holds; otherwise records it over the oldest. */
  method SeenNonce(r: Ring, nonce: Nonce) returns (seen: bool, r': Ring)
    requires RingValid(r)
    ensures RingValid(r')
    ensures seen <==> nonce in Recent(r)
    ensures Recent(r') == if seen then Recent(r) else Last(Recent(r) + [nonce], REPLAY_WINDOW)
    ensures r' == if seen then r else Push(r, nonce)
  {
    InRecent(r, nonce);
    var held := HoldsNonce(r.buf, r.count, nonce);
    if held { return true, r; }
    PushKeepsLast(r, nonce);
    seen, r' := false, r.(buf := r.buf[r.next := nonce], next := (r.next + 1) % REPLAY_WINDOW);
    if r.count < REPLAY_WINDOW { r' := r'.(count := r.count + 1); }
  }

  // ---------------------------------------------------------------- sessions

  datatype Keys = Keys(headerEnc: Key, headerMac: Key, returnBlind: Key)

  datatype Session = Session(
    inUse: bool, generation: nat, lastActive: nat, role: int, keys: Keys,
    seed: Key, windows: seq<Window>, seen: Ring, seenReturn: Ring)

  /** A zeroed slot. */
  function NoSession(): Session { Session(false, 0, 0, 0, Keys(ZERO_KEY, ZERO_KEY, ZERO_KEY), ZERO_KEY, [], EmptyRing(),
                                          EmptyRing()) }

  /** A freshly populated slot: its generation is one more than that of the slot's previous session. */
  function NewSession(derive: Derive, generation: nat, now: nat, role: int, keys: Keys, seed: Key): Session {
    Session(true, generation, now, role, keys, seed,
            [InitialWindow(derive, seed, 0), InitialWindow(derive, seed, 1)], EmptyRing(), EmptyRing())
  }

  ghost predicate SessionValid(derive: Derive, s: Session) {
    s.inUse ==>
      && |s.windows| == 2
      && (forall d :: 0 <= d < 2 ==> Coherent(derive, s.seed, d, s.windows[d]))
      && RingValid(s.seen) && RingValid(s.seenReturn)
  }

  ghost predicate TableValid(derive: Derive, t: seq<Session>) {
    forall i :: 0 <= i < |t| ==> SessionValid(derive, t[i])
  }

  lemma NewSessionValid(derive: Derive, generation: nat, now: nat, role: int, keys: Keys, seed: Key)
    ensures SessionValid(derive, NewSession(derive, generation, now, role, keys, seed))
  {
  }

  /** A session at its beginning: active now, under these keys and this seed, nothing matched and nothing seen. */
  ghost predicate Begins(derive: Derive, s: Session, previous: nat, now: nat, role: int, keys: Keys, seed: Key) {
    && s.inUse && s.generation > previous && s.lastActive == now && s.role == role && s.keys == keys && s.seed == seed
    && |s.windows| == 2 && s.windows[0].base == 0 && s.windows[1].base == HINT_COVER_COUNTER_BASE
    && (forall d :: 0 <= d < 2 ==> s.windows[d].high.NothingMatched? && |s.windows[d].hints| == HINT_WINDOW)
    && (forall d, w :: 0 <= d < 2 && 0 <= w < HINT_WINDOW ==>
      s.windows[d].hints[w] == derive(seed, s.windows[d].base + w))
    && RingValid(s.seen) && RingValid(s.seenReturn) && Recent(s.seen) == Recent(s.seenReturn) == []
  }

  lemma NewSessionBegins(derive: Derive, previous: nat, now: nat, role: int, keys: Keys, seed: Key)
    ensures Begins(derive, NewSession(derive, previous + 1, now, role, keys, seed), previous, now, role, keys, seed)
  {
  }

  /**
   The slot an allocation takes: the first free one; in a full table the oldest session
   past its time to live (the last one of equal age); none if no session is that old.
   */
  ghost predicate IsAllocChoice(t: seq<Session>, now: nat, choice: Option<nat>) {
    if choice.Some? then
      choice.value < |t| && (IsFirstFree(t, choice.value) || IsOldestExpired(t, now, choice.value))
    else
      forall j :: 0 <= j < |t| ==> t[j].inUse && Age(now, t[j].lastActive) < SESSION_TTL_MS
  }

  ghost predicate IsFirstFree(t: seq<Session>, i: nat)
    requires i < |t|
  {
    !t[i].inUse && forall j :: 0 <= j < i ==> t[j].inUse
  }

  ghost predicate IsOldestExpired(t: seq<Session>, now: nat, i: nat)
    requires i < |t|
  {
    && (forall j :: 0 <= j < |t| ==> t[j].inUse)
    && Age(now, t[i].lastActive) >= SESSION_TTL_MS
    && (forall j :: 0 <= j < |t| ==> Age(now, t[j].lastActive) <= Age(now, t[i].lastActive))
    && (forall j :: i < j < |t| ==> Age(now, t[j].lastActive) < Age(now, t[i].lastActive))
  }

  datatype Match = Match(idx: nat, generation: nat, domain: nat, windowIdx: nat, keys: Keys)

  predicate Shows(s: Session, d: nat, w: nat, hint: Hint) {
    d < |s.windows| && w < |s.windows[d].hints| && s.windows[d].hints[w] == hint
  }

  /** (d, w) comes before (e, v) in the order the two windows are scanned. */
  predicate Earlier(d: nat, w: nat, e: nat, v: nat) { d < e || (d == e && w < v) }

  ghost predicate ShownBefore(s: Session, hint: Hint, e: nat, v: nat) {
    exists d: nat, w: nat :: d < 2 && w < HINT_WINDOW && Earlier(d, w, e, v) && Shows(s, d, w, hint)
  }

  /** The session, domain and offset a lookup reports: the first in scan order that shows the hint. */
  ghost predicate IsFound(t: seq<Session>, hint: Hint, m: Match) {
    && m.idx < |t| && t[m.idx].inUse && m.domain < 2 && m.windowIdx < HINT_WINDOW
    && Shows(t[m.idx], m.domain, m.windowIdx, hint)
    && m.generation == t[m.idx].generation && m.keys == t[m.idx].keys
    && !ShownBefore(t[m.idx], hint, m.domain, m.windowIdx)
    && (forall j :: 0 <= j < m.idx && t[j].inUse ==> !ShownBefore(t[j], hint, 2, 0))
  }

  ghost predicate IsMissing(t: seq<Session>, hint: Hint) {
    forall j :: 0 <= j < |t| && t[j].inUse ==> !ShownBefore(t[j], hint, 2, 0)
  }

  /** Two lookups of one hint in one table report the same match. */
  lemma FoundIsUnique(t: seq<Session>, hint: Hint, m: Match, m': Match)
    requires IsFound(t, hint, m) && IsFound(t, hint, m')
    ensures m == m'
  {
    if m.idx < m'.idx { assert Earlier(m.domain, m.windowIdx, 2, 0); }
    if m'.idx < m.idx { assert Earlier(m'.domain, m'.windowIdx, 2, 0); }
  }

  /** What a lookup reports. */
  ghost function FoundBy(t: seq<Session>, hint: Hint): Option<Match> {
    if exists n :: IsFound(t, hint, n) then
      var n :| IsFound(t, hint, n);
      Some(n)
    else None
  }

  /** Any correct report is this one. */
  lemma ReportIsFoundBy(t: seq<Session>, hint: Hint, m: Option<Match>)
    requires if m.Some? then IsFound(t, hint, m.value) else IsMissing(t, hint)
    ensures m == FoundBy(t, hint)
  {
    if m.Some? {
      FoundIsUnique(t, hint, m.value, FoundBy(t, hint).value);
    } else {
      assert forall n :: IsFound(t, hint, n) ==> Earlier(n.domain, n.windowIdx, 2, 0);
    }
  }

  /** A handle from an earlier lookup still names the same session. */
  predicate Current(t: seq<Session>, idx: nat, generation: nat) {
    idx < |t| && t[idx].inUse && t[idx].generation == generation
  }

  function Confirmed(derive: Derive, t: seq<Session>, idx: nat, generation: nat, d: nat, w: nat): (t': seq<Session>)
    ensures |t'| == |t|
  {
    if Current(t, idx, generation) && d < |t[idx].windows| then
      var s := t[idx];
      t[idx := s.(windows := s.windows[d := Advance(derive, s.seed, d, s.windows[d], w)])]
    else t
  }

  /** A handle that is no longer current confirms nothing. */
  lemma StaleConfirmsNothing(derive: Derive, t: seq<Session>, idx: nat, generation: nat, d: nat, w: nat)
    requires idx < |t| && (!t[idx].inUse || t[idx].generation != generation)
    ensures Confirmed(derive, t, idx, generation, d, w) == t
  {
  }

  datatype Direction = Forward | Return

  function RingOf(s: Session, dir: Direction): Ring {
    if dir.Forward? then s.seen else s.seenReturn
  }

  function WithRing(s: Session, dir: Direction, r: Ring): Session {
    if dir.Forward? then s.(seen := r) else s.(seenReturn := r)
  }

  /** The table behind its lock. */
  class SessionTable {
    const derive: Derive
    const sessions: array<Session>

    ghost predicate Valid()
      reads this, sessions
    {
      sessions.Length == MAX_SESSIONS && TableValid(derive, sessions[..])
    }

    constructor (derive: Derive)
      ensures Valid() && this.derive == derive
      ensures forall i :: 0 <= i < MAX_SESSIONS ==> sessions[i] == NoSession()
    {
      this.derive := derive;
      sessions := new Session[MAX_SESSIONS](_ => NoSession());
    }

    method ChooseSlot(now: nat) returns (choice: Option<nat>)
      requires Valid()
      ensures IsAllocChoice(sessions[..], now, choice)
    {
      for i := 0 to MAX_SESSIONS
        invariant forall j :: 0 <= j < i ==> sessions[j].inUse
      {
        if !sessions[i].inUse { return Some(i); }
      }
      choice := None;
      var oldestAge: nat := 0;
      for i := 0 to MAX_SESSIONS
        invariant choice.None? ==> oldestAge == 0 && forall j :: 0 <= j < i ==>
          Age(now, sessions[j].lastActive) < SESSION_TTL_MS
        invariant choice.Some? ==>
          && choice.value < i && oldestAge == Age(now, sessions[choice.value].lastActive) >= SESSION_TTL_MS
          && (forall j :: 0 <= j < i ==> Age(now, sessions[j].lastActive) <= oldestAge)
          && (forall j :: choice.value < j < i ==> Age(now, sessions[j].lastActive) < oldestAge)
      {
        var age := Age(now, sessions[i].lastActive);
        if age >= SESSION_TTL_MS && age >= oldestAge {
          oldestAge := age;
          choice := Some(i);
        }
      }
    }

    /** Takes a slot and populates it in one step, as no other thread may see it half filled. */
    method SessionAlloc(now: nat, role: int, keys: Keys, seed: Key) returns (choice: Option<nat>)
      requires Valid()
      modifies sessions
      ensures Valid()
      ensures IsAllocChoice(old(sessions[..]), now, choice)
      ensures sessions[..] == match choice
        case None => old(sessions[..])
        case Some(i) =>
          old(sessions[..])[i := NewSession(derive, old(sessions[..])[i].generation + 1, now, role, keys, seed)]
      ensures choice.Some? && old(sessions[choice.value]).inUse ==>
        (now - old(sessions[choice.value]).lastActive) % TICKS >= 300_000
      ensures choice.Some? ==>
        Begins(derive, sessions[choice.value], old(sessions[..])[choice.value].generation, now, role, keys, seed)
    {
      choice := ChooseSlot(now);
      if choice.Some? {
        var data := ComputeHints(derive, seed, InitialBase(0));
        var cover := ComputeHints(derive, seed, InitialBase(1));
        NewSessionValid(derive, sessions[choice.value].generation + 1, now, role, keys, seed);
        NewSessionBegins(derive, sessions[choice.value].generation, now, role, keys, seed);
        sessions[choice.value] := Session(
          true, sessions[choice.value].generation + 1, now, role, keys, seed,
          [Window(InitialBase(0), data, NothingMatched), Window(InitialBase(1), cover, NothingMatched)],
          EmptyRing(), EmptyRing());
      }
    }

    /** The first place in the session's windows that shows the hint. */
    method ScanWindows(i: nat, hint: Hint) returns (place: Option<(nat, nat)>)
      requires Valid() && i < MAX_SESSIONS && sessions[i].inUse
      ensures place.None? ==> !ShownBefore(sessions[i], hint, 2, 0)
      ensures place.Some? ==>
        && place.value.0 < 2 && place.value.1 < HINT_WINDOW
        && Shows(sessions[i], place.value.0, place.value.1, hint)
        && !ShownBefore(sessions[i], hint, place.value.0, place.value.1)
    {
      for d := 0 to 2
        invariant !ShownBefore(sessions[i], hint, d, 0)
      {
        assert Coherent(derive, sessions[i].seed, d, sessions[i].windows[d]);
        for w := 0 to HINT_WINDOW
          invariant !ShownBefore(sessions[i], hint, d, w)
        {
          if sessions[i].windows[d].hints[w] == hint { return Some((d, w)); }
        }
      }
      return None;
    }

    /** Looks the hint up in every session and marks the one found as active. */
    method SessionFind(hint: Hint, now: nat) returns (m: Option<Match>)
      requires Valid()
      modifies sessions
      ensures Valid()
      ensures m.Some? ==> IsFound(old(sessions[..]), hint, m.value)
      ensures m.None? ==> IsMissing(old(sessions[..]), hint)
      ensures sessions[..] == if m.None? then old(sessions[..])
        else old(sessions[..])[m.value.idx := old(sessions[..])[m.value.idx].(lastActive := now)]
    {
      for i := 0 to MAX_SESSIONS
        invariant sessions[..] == old(sessions[..])
        invariant forall j :: 0 <= j < i && sessions[j].inUse ==> !ShownBefore(sessions[j], hint, 2, 0)
      {
        if sessions[i].inUse {
          var place := ScanWindows(i, hint);
          if place.Some? {
            m := Some(Match(i, sessions[i].generation, place.value.0, place.value.1, sessions[i].keys));
            sessions[i] := sessions[i].(lastActive := now);
            return;
          }
        }
      }
      m := None;
    }

    /** Consumes the matched place once the packet's MAC is verified; a stale handle changes nothing. */
    method SessionConfirmHintMatch(idx: nat, generation: nat, d: nat, w: nat)
      requires Valid() && idx < MAX_SESSIONS && d < 2 && w < HINT_WINDOW
      modifies sessions
      ensures Valid()
      ensures sessions[..] == Confirmed(derive, old(sessions[..]), idx, generation, d, w)
      ensures !Current(old(sessions[..]), idx, generation) ==> sessions[..] == old(sessions[..])
      ensures Current(old(sessions[..]), idx, generation) ==>
        var win := old(sessions[idx]).windows[d]; sessions[idx].windows[d].high == Raise(win.high, win.base + w)
    {
      if sessions[idx].inUse && sessions[idx].generation == generation {
        var s := sessions[idx];
        var win := AdvanceHintWindow(derive, s.seed, d, s.windows[d], w);
        AdvanceIsUnique(derive, s.seed, d, s.windows[d], w, win);
        sessions[idx] := s.(windows := s.windows[d := win]);
      }
    }

    /** True if the packet must be dropped: a replayed nonce, or a handle that is no longer current. */
    method SessionCheckNonceByIdx(idx: nat, generation: nat, dir: Direction, nonce: Nonce) returns (drop: bool)
      requires Valid() && idx < MAX_SESSIONS
      modifies sessions
      ensures Valid()
      ensures drop <==> !Current(old(sessions[..]), idx, generation) || nonce in Recent(RingOf(old(sessions[idx]), dir))
      ensures sessions[..] == if drop then old(sessions[..])
        else old(sessions[..])[idx := WithRing(old(sessions[idx]), dir, Push(RingOf(old(sessions[idx]), dir), nonce))]
    {
      drop := true;
      if sessions[idx].inUse && sessions[idx].generation == generation {
        var r;
        drop, r := SeenNonce(RingOf(sessions[idx], dir), nonce);
        sessions[idx] := WithRing(sessions[idx], dir, r);
      }
    }
  }
}

/**
 Every interleaving of the gateway's connection threads and its flush thread on the session table.
 Each step is one lock section; the raw slot pointers that threads keep between steps are indices.
 */
module GatewayRuns {
  import opened Common
  import opened Bytes
  import opened Crypto
  import opened Sequences
  import opened Gateway
  import Mailbox

  /**
   Where a thread stands. `life` counts the allocations of a slot: it is recorded for the
   statements only, no step reads it.
   */
  datatype Thread =
    | Idle
    | Snapped(idx: nat, key: Key)
    | HasA(a: nat, aLife: nat, aKey: Key, setup: bool) // setup: this thread has stored a SETUP's fields
    | Missed(a: nat, aLife: nat, aKey: Key, setup: bool)
    | HasBoth(a: nat, aLife: nat, aKey: Key, setup: bool, b: nat, bLife: nat, matched: Option<Octets>)

  /** A slot's present binding: which allocation of the partner it was verified against, and by what tag. */
  datatype Bond = Unbound | Bond(life: nat, tag: Octets)

  datatype Issue = Issue(idx: nat, life: nat, key: Key)

  /** A queued response, with the session whose request it answers. */
  datatype Pending = Pending(entry: Mailbox.Entry, owner: Issue)

  /** A response taken from a queue to be sent for session `to`. */
  datatype Delivery = Delivery(to: Issue, what: Pending)

  datatype System = System(
    slots: seq<Slot>, threads: seq<Thread>,
    lives: seq<nat>,           // allocations of each slot
    bonds: seq<Bond>,          // of each slot's present session
    shown: seq<set<Octets>>,   // tags that SETUP packets presented to each slot's present session
    issued: seq<Issue>,        // every session ever allocated
    queues: seq<seq<Pending>>, // the pending responses of each slot
    popped: seq<Delivery>)

  datatype Step =
    | Extend(slot: nat, now: nat, role: byte, key: Key)
    | Snapshot(t: nat, slot: nat)
    | Confirm(t: nat, now: nat, admitted: bool)
    | PopAged(t: nat, slot: nat, now: nat)                // the flush thread takes a due response and pins its session
    | Store(t: nat, fields: Setup)                         // SETUP, first lock section
    | Refresh(t: nat, addr: Addr, hdr: Octets)            // a request updates address and header
    | Reply(t: nat, resp: Octets, hdr: Octets, now: nat)  // a request queues its response
    | CoverPop(t: nat)                                    // a cover packet takes a queued response of any age
    | FindB(t: nat)
    | NoPartner(t: nat)
    | Compare(t: nat)
    | Commit(t: nat)
    | UnpinB(t: nat)
    | Finish(t: nat)

  function Start(n: nat, threads: nat): System {
    System(seq(n, _ => NoSlot()), seq(threads, _ => Idle), seq(n, _ => 0), seq(n, _ => Unbound), seq(n, _ => {}), [],
           seq(n, _ => []), [])
  }

  ghost predicate Shaped(sys: System) {
    var n := |sys.slots|;
    && |sys.lives| == |sys.bonds| == |sys.shown| == |sys.queues| == n
    && (forall t :: 0 <= t < |sys.threads| ==> ThreadShaped(sys, sys.threads[t]))
  }

  ghost predicate ThreadShaped(sys: System, th: Thread) {
    match th
    case Idle => true
    case Snapped(i, _) => i < |sys.slots|
    case HasA(a, _, _, _) => a < |sys.slots|
    case Missed(a, _, _, _) => a < |sys.slots|
    case HasBoth(a, _, _, _, b, _, _) => a < |sys.slots| && b < |sys.slots|
  }

  predicate Holding(th: Thread) { th.HasA? || th.Missed? || th.HasBoth? }

  ghost predicate Enabled(sys: System, step: Step) {
    Shaped(sys) &&
    match step
    case Extend(i, now, _, _) => i < |sys.slots| && IsAllocChoice(sys.slots, now, Some(i))
    case Snapshot(t, i) =>
      t < |sys.threads| && sys.threads[t].Idle? && i < |sys.slots| && sys.slots[i].inUse && sys.slots[i].role == ROLE_A
    case Confirm(t, _, _) => t < |sys.threads| && sys.threads[t].Snapped?
    case PopAged(t, i, now) =>
      && t < |sys.threads| && sys.threads[t].Idle? && i < |sys.slots| && sys.slots[i].inUse
      && sys.slots[i].role == ROLE_A
      && |sys.queues[i]| > 0 && Mailbox.Ripe(sys.queues[i][0].entry, Mailbox.PENDING_RESPONSE_MAX_WAIT_MS, now)
    case Store(t, _) => t < |sys.threads| && sys.threads[t].HasA?
    case Refresh(t, _, _) => t < |sys.threads| && sys.threads[t].HasBoth? && !sys.threads[t].setup
    case Reply(t, _, _, _) => t < |sys.threads| && sys.threads[t].HasBoth? && !sys.threads[t].setup
    case CoverPop(t) =>
      t < |sys.threads| && sys.threads[t].HasBoth? && !sys.threads[t].setup && |sys.queues[sys.threads[t].a]| > 0
    case FindB(t) => t < |sys.threads| && sys.threads[t].HasA?
    case NoPartner(t) => t < |sys.threads| && sys.threads[t].Missed? && sys.threads[t].setup
    case Compare(t) => t < |sys.threads| && sys.threads[t].HasBoth? && sys.threads[t].setup
    case Commit(t) => t < |sys.threads| && sys.threads[t].HasBoth? && sys.threads[t].matched.Some?
    case UnpinB(t) => t < |sys.threads| && sys.threads[t].HasBoth?
    case Finish(t) => t < |sys.threads| && Holding(sys.threads[t])
  }

  ghost function WithSlot(sys: System, i: nat, s: Slot): System
    requires i < |sys.slots|
  {
    sys.(slots := sys.slots[i := s])
  }

  ghost function WithThread(sys: System, t: nat, th: Thread): System
    requires t < |sys.threads|
  {
    sys.(threads := sys.threads[t := th])
  }

  ghost function Pin(sys: System, t: nat, i: nat, s: Slot): System
    requires i < |sys.slots| == |sys.lives| && t < |sys.threads|
  {
    WithThread(WithSlot(sys, i, Pinned(s)), t, HasA(i, sys.lives[i], s.key, false))
  }

  /** The oldest response queued in slot i leaves, for the session that the slot holds. */
  ghost function TakeFirst(sys: System, i: nat): System
    requires i < |sys.slots| == |sys.lives| == |sys.queues| && |sys.queues[i]| > 0
  {
    sys.(queues := sys.queues[i := sys.queues[i][1..]],
         popped := sys.popped + [Delivery(Issue(i, sys.lives[i], sys.slots[i].key), sys.queues[i][0])])
  }

  /** The thread's pins are given back. */
  ghost function Released(sys: System, th: Thread): System
    requires ThreadShaped(sys, th) && Holding(th)
  {
    var rest := if th.HasBoth? then WithSlot(sys, th.b, Unpinned(sys.slots[th.b])) else sys;
    WithSlot(rest, th.a, Unpinned(rest.slots[th.a]))
  }

  ghost function Apply(c: Suite, sys: System, step: Step): System
  {
    if !Enabled(sys, step) then sys else
    match step
    case Extend(i, now, role, key) =>
      var life := sys.lives[i] + 1;
      sys.(slots := sys.slots[i := NewSlot(c, now, role, key)], lives := sys.lives[i := life],
           bonds := sys.bonds[i := Unbound], shown := sys.shown[i := {}], issued := sys.issued + [Issue(i, life, key)],
           queues := sys.queues[i := []])
    case Snapshot(t, i) => WithThread(sys, t, Snapped(i, sys.slots[i].key))
    case Confirm(t, now, admitted) =>
      var th := sys.threads[t];
      var s := sys.slots[th.idx];
      if admitted && s.inUse && s.key == th.key then Pin(sys, t, th.idx, s.(lastActive := now))
      else WithThread(sys, t, Idle)
    case PopAged(t, i, _) => TakeFirst(Pin(sys, t, i, sys.slots[i]), i)
    case Store(t, f) =>
      var th := sys.threads[t];
      WithThread(WithSlot(sys, th.a, WithSetup(sys.slots[th.a], f)), t, HasA(th.a, th.aLife, th.aKey, true))
      .(shown := sys.shown[th.a := sys.shown[th.a] + {f.tag}])
    case Refresh(t, addr, hdr) =>
      var a := sys.threads[t].a;
      WithSlot(sys, a, sys.slots[a].(mncAddr := addr, returnHdr := hdr))
    case Reply(t, resp, hdr, now) =>
      if |resp| > MAX_INNER_PAYLOAD then sys
      else
        var th := sys.threads[t];
        var x := Pending(Mailbox.Entry(resp, hdr, now), Issue(th.a, th.aLife, th.aKey));
        sys.(queues := sys.queues[th.a := Mailbox.Push(sys.queues[th.a], x)])
    case CoverPop(t) => TakeFirst(sys, sys.threads[t].a)
    case FindB(t) =>
      var th := sys.threads[t];
      (match PartnerOf(c, sys.slots, th.a)
       case None => WithThread(sys, t, Missed(th.a, th.aLife, th.aKey, th.setup))
       case Some(b) =>
         WithThread(WithSlot(sys, b, Pinned(sys.slots[b])), t,
                    HasBoth(th.a, th.aLife, th.aKey, th.setup, b, sys.lives[b], None)))
    case NoPartner(t) =>
      var th := sys.threads[t];
      WithThread(WithSlot(sys, th.a, sys.slots[th.a].(setupDone := false)), t, HasA(th.a, th.aLife, th.aKey, th.setup))
    case Compare(t) =>
      var th := sys.threads[t];
      var tag := BindingTag(c, sys.slots[th.a].key, sys.slots[th.b].key);
      WithThread(sys, t, th.(matched := if tag == sys.slots[th.a].tag then Some(tag) else None))
    case Commit(t) =>
      var th := sys.threads[t];
      WithSlot(sys, th.a, BoundTo(sys.slots[th.a], th.b, sys.slots[th.b].key))
      .(bonds := sys.bonds[th.a := Bond(sys.lives[th.b], th.matched.value)])
    case UnpinB(t) =>
      var th := sys.threads[t];
      WithThread(WithSlot(sys, th.b, Unpinned(sys.slots[th.b])), t, HasA(th.a, th.aLife, th.aKey, th.setup))
    case Finish(t) => WithThread(Released(sys, sys.threads[t]), t, Idle)
  }

  /** The first response of a slot's queue has gone out, for the session that the slot holds. */
  ghost predicate FirstTaken(sys: System, next: System, i: nat) {
    && i < |sys.slots| == |sys.queues| == |sys.lives| == |next.queues| && |sys.queues[i]| > 0
    && next.queues[i] == sys.queues[i][1..]
    && next.popped == sys.popped + [Delivery(Issue(i, sys.lives[i], sys.slots[i].key), sys.queues[i][0])]
  }

  /** What a thread's step on its pinned session does for the session. */
  ghost predicate TakesEffect(sys: System, next: System, step: Step, a: nat) {
    && a < |sys.slots| == |next.slots| == |sys.queues| == |next.queues|
    && match step
      case Store(_, f) =>
        var s := next.slots[a];
        && s.recvBlind == f.blind && s.tag == f.tag && s.mncPub == f.mncPub && s.mncAddr == f.mncAddr
        && s.returnHdr == f.returnHdr
      case Refresh(_, addr, hdr) => next.slots[a].mncAddr == addr && next.slots[a].returnHdr == hdr
      case Reply(t, resp, hdr, now) =>
        && t < |sys.threads| && sys.threads[t].HasBoth?
        && (|resp| <= MAX_INNER_PAYLOAD ==>
          && |next.queues[a]| > 0
          && next.queues[a][|next.queues[a]| - 1]
             == Pending(Mailbox.Entry(resp, hdr, now), Issue(a, sys.threads[t].aLife, sys.threads[t].aKey)))
      case CoverPop(_) => FirstTaken(sys, next, a)
      case NoPartner(_) => !next.slots[a].setupDone
      case _ => true
  }

  /** A SETUP's fields, a request's address and header, its response, and a response taken out: none is lost. */
  lemma {:induction false} StepTakesEffect(c: Suite, sys: System, step: Step, t: nat)
    requires Enabled(sys, step) && t < |sys.threads| && Holding(sys.threads[t])
    requires step.Store? || step.Refresh? || step.Reply? || step.CoverPop? || step.NoPartner?
    requires step.t == t
    ensures TakesEffect(sys, Apply(c, sys, step), step, sys.threads[t].a)
  {
  }

  /** The flush thread takes the first response of the queue it found due, and holds the session meanwhile. */
  lemma {:induction false} AgedPopTakesFirst(c: Suite, sys: System, t: nat, i: nat, now: nat)
    requires Enabled(sys, PopAged(t, i, now))
    ensures var next := Apply(c, sys, PopAged(t, i, now));
      && FirstTaken(sys, next, i) && t < |next.threads|
      && next.threads[t] == HasA(i, sys.lives[i], sys.slots[i].key, false)
      && (now - sys.queues[i][0].entry.since) % TICKS >= 400
  {
  }

  // ---------------------------------------------------------------- who holds a slot

  function Holds(th: Thread, i: nat): nat {
    match th
    case Idle => 0
    case Snapped(_, _) => 0
    case HasA(a, _, _, _) => if a == i then 1 else 0
    case Missed(a, _, _, _) => if a == i then 1 else 0
    case HasBoth(a, _, _, _, b, _, _) => (if a == i then 1 else 0) + (if b == i then 1 else 0)
  }

  /** How many pointers to slot i threads hold between a successful find and its unpin. */
  function Holders(threads: seq<Thread>, i: nat): nat {
    if |threads| == 0 then 0 else Holders(threads[..|threads| - 1], i) + Holds(threads[|threads| - 1], i)
  }

  lemma {:induction false} HoldersUpdate(threads: seq<Thread>, t: nat, th: Thread, i: nat)
    requires t < |threads|
    ensures Holders(threads[t := th], i) == Holders(threads, i) - Holds(threads[t], i) + Holds(th, i)
  {
    var init := threads[..|threads| - 1];
    if t == |threads| - 1 {
      assert threads[t := th][..t] == init;
    } else {
      assert threads[t := th][..|threads| - 1] == init[t := th];
      HoldersUpdate(init, t, th, i);
    }
  }

  lemma {:induction false} HolderCounts(threads: seq<Thread>, t: nat, i: nat)
    requires t < |threads|
    ensures Holders(threads, i) >= Holds(threads[t], i)
  {
    if t < |threads| - 1 { HolderCounts(threads[..|threads| - 1], t, i); }
  }

  lemma {:induction false} NoHolders(n: nat, i: nat)
    ensures Holders(seq(n, _ => Idle), i) == 0
  {
    if n > 0 {
      assert seq(n, _ => Idle)[..n - 1] == seq(n - 1, _ => Idle);
      NoHolders(n - 1, i);
    }
  }

  // ---------------------------------------------------------------- invariant

  /** Slot i still is the session allocated as its `life`-th, with this key. */
  ghost predicate IsStill(sys: System, i: nat, life: nat, key: Key) {
    i < |sys.slots| == |sys.lives| && sys.slots[i].inUse && sys.lives[i] == life && sys.slots[i].key == key
  }

  /** The session a thread holds is the one it pinned; after a SETUP its tag is one that was presented. */
  ghost predicate HoldsA(sys: System, a: nat, life: nat, key: Key, setup: bool) {
    Shaped(sys) &&
    IsStill(sys, a, life, key) && (setup ==> sys.slots[a].tag in sys.shown[a])
  }

  ghost predicate ThreadInv(c: Suite, sys: System, th: Thread) {
    Shaped(sys) &&
    match th
    case Idle => true
    case Snapped(i, _) => i < |sys.slots|
    case HasA(a, life, key, setup) => HoldsA(sys, a, life, key, setup)
    case Missed(a, life, key, setup) => HoldsA(sys, a, life, key, setup)
    case HasBoth(a, life, key, setup, b, bLife, matched) =>
      && HoldsA(sys, a, life, key, setup) && b < |sys.slots| && IsStill(sys, b, bLife, sys.slots[b].key)
      && sys.slots[b].role == ROLE_B
      && (matched.Some? ==> matched.value == BindingTag(c, key, sys.slots[b].key) && matched.value in sys.shown[a])
  }

  /**
   The key stored with the binding is the partner's own key as long as the partner's slot has not
   been allocated again, and the tag that was compared is the tag of these two keys.
   */
  ghost predicate BondInv(c: Suite, sys: System, a: nat) {
    Shaped(sys) && a < |sys.slots| &&
    var s := sys.slots[a];
    && (s.setupDone ==> sys.bonds[a].Bond?)
    && match sys.bonds[a]
      case Unbound => !s.inUse || s.boundB == -1
      case Bond(life, tag) =>
        && s.inUse && 0 <= s.boundB < |sys.slots|
        && tag == BindingTag(c, s.key, s.bKey) && tag in sys.shown[a]
        && Issue(s.boundB, life, s.bKey) in sys.issued
        && (life == sys.lives[s.boundB] ==> IsStill(sys, s.boundB, life, s.bKey) && sys.slots[s.boundB].role == ROLE_B)
  }

  ghost predicate SlotInv(sys: System, i: nat) {
    && Shaped(sys) && i < |sys.slots|
    && (sys.slots[i].inUse <==> sys.lives[i] > 0)
    && (sys.slots[i].inUse ==> Issue(i, sys.lives[i], sys.slots[i].key) in sys.issued)
    && sys.slots[i].inFlight == Holders(sys.threads, i)
  }

  ghost predicate Inv(c: Suite, sys: System) {
    && Shaped(sys)
    && (forall i :: 0 <= i < |sys.slots| ==> SlotInv(sys, i))
    && (forall i :: 0 <= i < |sys.slots| ==> BondInv(c, sys, i))
    && (forall t :: 0 <= t < |sys.threads| ==> ThreadInv(c, sys, sys.threads[t]))
    && (forall k :: 0 <= k < |sys.issued| ==> IssueInv(sys, sys.issued[k]))
  }

  ghost predicate IssueInv(sys: System, x: Issue) {
    x.idx < |sys.lives| && 0 < x.life <= sys.lives[x.idx]
  }

  /** What a step may do to slots it does not allocate: everything but identity and occupancy. */
  predicate SameIdentity(s: Slot, u: Slot) {
    s.inUse == u.inUse && s.role == u.role && s.key == u.key
  }

  /** Pins, threads and bindings changed; no slot was allocated. */
  ghost predicate NoAllocation(sys: System, next: System) {
    && |next.slots| == |sys.slots| && next.lives == sys.lives && next.issued == sys.issued
    && |next.shown| == |sys.shown| == |next.bonds| == |sys.bonds| == |sys.slots|
    && (forall i :: 0 <= i < |sys.slots| ==> SameIdentity(sys.slots[i], next.slots[i]))
    && (forall i :: 0 <= i < |sys.slots| ==> sys.shown[i] <= next.shown[i])
    && (forall i :: 0 <= i < |sys.slots| ==> sys.slots[i].tag in sys.shown[i] ==> next.slots[i].tag in next.shown[i])
  }

  ghost predicate BondSame(sys: System, next: System, a: nat)
    requires a < |sys.slots| == |next.slots| == |sys.bonds| == |next.bonds|
  {
    && next.bonds[a] == sys.bonds[a]
    && next.slots[a].boundB == sys.slots[a].boundB && next.slots[a].bKey == sys.slots[a].bKey
    && (next.slots[a].setupDone ==> sys.slots[a].setupDone)
  }

  lemma ThreadKept(c: Suite, sys: System, next: System, th: Thread)
    requires Shaped(sys) && Shaped(next) && NoAllocation(sys, next) && ThreadInv(c, sys, th)
    ensures ThreadInv(c, next, th)
  {
  }

  lemma BondKept(c: Suite, sys: System, next: System, a: nat)
    requires Shaped(sys) && Shaped(next) && NoAllocation(sys, next)
    requires a < |sys.slots| && BondInv(c, sys, a) && BondSame(sys, next, a)
    ensures BondInv(c, next, a)
  {
  }

  /** A step by thread t that allocates nothing, binds nothing and accounts for its pins. */
  ghost predicate PinsBy(sys: System, next: System, t: nat, th: Thread)
    requires Shaped(sys)
  {
    && t < |sys.threads| && next.threads == sys.threads[t := th]
    && NoAllocation(sys, next)
    && (forall i :: 0 <= i < |sys.slots| ==>
      next.slots[i].inFlight == sys.slots[i].inFlight - Holds(sys.threads[t], i) + Holds(th, i))
  }

  lemma ThreadStepKeepsInv(c: Suite, sys: System, next: System, t: nat, th: Thread)
    requires Inv(c, sys) && PinsBy(sys, next, t, th) && Shaped(next) && ThreadInv(c, next, th)
    requires forall a :: 0 <= a < |sys.slots| ==> BondSame(sys, next, a) || BondInv(c, next, a)
    ensures Inv(c, next)
  {
    forall i | 0 <= i < |next.slots| ensures SlotInv(next, i) && BondInv(c, next, i) {
      assert SlotInv(sys, i) && BondInv(c, sys, i);
      HoldersUpdate(sys.threads, t, th, i);
      if BondSame(sys, next, i) { BondKept(c, sys, next, i); }
    }
    forall u | 0 <= u < |next.threads| ensures ThreadInv(c, next, next.threads[u]) {
      if u != t { ThreadKept(c, sys, next, sys.threads[u]); }
    }
    forall k | 0 <= k < |next.issued| ensures IssueInv(next, next.issued[k]) {
      assert IssueInv(sys, sys.issued[k]);
    }
  }

  // ---------------------------------------------------------------- every step

  /** The chosen slot of an allocation is held by nobody. */
  lemma ChosenIsFree(c: Suite, sys: System, step: Step, t: nat)
    requires Inv(c, sys) && step.Extend? && Enabled(sys, step) && t < |sys.threads|
    ensures Holds(sys.threads[t], step.slot) == 0
  {
    assert SlotInv(sys, step.slot) && ThreadInv(c, sys, sys.threads[t]);
    if sys.slots[step.slot].inUse { HolderCounts(sys.threads, t, step.slot); }
  }

  lemma {:induction false} HoldersOfFree(c: Suite, sys: System, step: Step)
    requires Inv(c, sys) && step.Extend? && Enabled(sys, step)
    ensures Holders(sys.threads, step.slot) == 0
  {
    forall t | 0 <= t < |sys.threads| ensures Holds(sys.threads[t], step.slot) == 0 { ChosenIsFree(c, sys, step, t); }
    NobodyHolds(sys.threads, step.slot);
  }

  lemma {:induction false} NobodyHolds(threads: seq<Thread>, i: nat)
    requires forall t :: 0 <= t < |threads| ==> Holds(threads[t], i) == 0
    ensures Holders(threads, i) == 0
  {
    if |threads| > 0 { NobodyHolds(threads[..|threads| - 1], i); }
  }

  lemma ExtendKeepsBond(c: Suite, sys: System, step: Step, a: nat)
    requires Inv(c, sys) && step.Extend? && Enabled(sys, step) && a < |sys.slots|
    ensures BondInv(c, Apply(c, sys, step), a)
  {
    assert BondInv(c, sys, a);
    if a != step.slot && sys.bonds[a].Bond? {
      var k :| 0 <= k < |sys.issued|
        && sys.issued[k] == Issue(sys.slots[a].boundB, sys.bonds[a].life, sys.slots[a].bKey);
      assert IssueInv(sys, sys.issued[k]);
    }
  }

  lemma ExtendKeepsThread(c: Suite, sys: System, step: Step, t: nat)
    requires Inv(c, sys) && step.Extend? && Enabled(sys, step) && t < |sys.threads|
    ensures ThreadInv(c, Apply(c, sys, step), sys.threads[t])
  {
    assert ThreadInv(c, sys, sys.threads[t]);
    ChosenIsFree(c, sys, step, t);
  }

  lemma ExtendKeepsInv(c: Suite, sys: System, step: Step)
    requires Inv(c, sys) && step.Extend? && Enabled(sys, step)
    ensures Inv(c, Apply(c, sys, step))
  {
    var next := Apply(c, sys, step);
    HoldersOfFree(c, sys, step);
    forall i | 0 <= i < |next.slots| ensures SlotInv(next, i) && BondInv(c, next, i) {
      assert SlotInv(sys, i);
      assert next.issued[|sys.issued|] == Issue(step.slot, next.lives[step.slot], step.key);
      ExtendKeepsBond(c, sys, step, i);
    }
    forall t | 0 <= t < |next.threads| ensures ThreadInv(c, next, next.threads[t]) {
      ExtendKeepsThread(c, sys, step, t);
    }
    forall k | 0 <= k < |next.issued| ensures IssueInv(next, next.issued[k]) {
      if k < |sys.issued| { assert IssueInv(sys, sys.issued[k]); }
    }
  }

  lemma PinKeepsInv(c: Suite, sys: System, t: nat, i: nat, s: Slot)
    requires Inv(c, sys) && t < |sys.threads| && i < |sys.slots| && !Holding(sys.threads[t]) && sys.slots[i].inUse
    requires s == sys.slots[i].(lastActive := s.lastActive)
    ensures Inv(c, Pin(sys, t, i, s))
  {
    ThreadStepKeepsInv(c, sys, Pin(sys, t, i, s), t, HasA(i, sys.lives[i], s.key, false));
  }

  lemma SnapshotKeepsInv(c: Suite, sys: System, t: nat, th: Thread)
    requires Inv(c, sys) && t < |sys.threads| && !Holding(sys.threads[t])
    requires th.Idle? || (th.Snapped? && th.idx < |sys.slots|)
    ensures Inv(c, WithThread(sys, t, th))
  {
    ThreadStepKeepsInv(c, sys, WithThread(sys, t, th), t, th);
  }

  lemma MissKeepsInv(c: Suite, sys: System, t: nat, th: Thread)
    requires Inv(c, sys) && t < |sys.threads| && sys.threads[t].HasA? && th.Missed?
    requires HasA(th.a, th.aLife, th.aKey, th.setup) == sys.threads[t]
    ensures Inv(c, WithThread(sys, t, th))
  {
    assert ThreadInv(c, sys, sys.threads[t]);
    ThreadStepKeepsInv(c, sys, WithThread(sys, t, th), t, th);
  }

  lemma PinBKeepsInv(c: Suite, sys: System, t: nat, th: Thread)
    requires Inv(c, sys) && t < |sys.threads| && sys.threads[t].HasA? && th.HasBoth? && th.matched.None?
    requires HasA(th.a, th.aLife, th.aKey, th.setup) == sys.threads[t]
    requires th.b < |sys.slots| && th.bLife == sys.lives[th.b] && sys.slots[th.b].inUse
    requires sys.slots[th.b].role == ROLE_B
    ensures Inv(c, WithThread(WithSlot(sys, th.b, Pinned(sys.slots[th.b])), t, th))
  {
    assert ThreadInv(c, sys, sys.threads[t]);
    var next := WithThread(WithSlot(sys, th.b, Pinned(sys.slots[th.b])), t, th);
    assert ThreadInv(c, next, th);
    ThreadStepKeepsInv(c, sys, next, t, th);
  }

  lemma FindBKeepsInv(c: Suite, sys: System, step: Step)
    requires Inv(c, sys) && Enabled(sys, step) && step.FindB?
    ensures Inv(c, Apply(c, sys, step))
  {
    var th := sys.threads[step.t];
    assert ThreadInv(c, sys, th);
    match PartnerOf(c, sys.slots, th.a)
    case None => MissKeepsInv(c, sys, step.t, Missed(th.a, th.aLife, th.aKey, th.setup));
    case Some(b) => PinBKeepsInv(c, sys, step.t, HasBoth(th.a, th.aLife, th.aKey, th.setup, b, sys.lives[b], None));
  }

  /** A step that touches nothing but queues. */
  lemma QueueStepKeepsInv(c: Suite, sys: System, next: System, t: nat)
    requires Inv(c, sys) && t < |sys.threads| && |next.queues| == |sys.queues|
    requires next == sys.(queues := next.queues, popped := next.popped)
    ensures Inv(c, next)
  {
    ThreadStepKeepsInv(c, sys, next, t, sys.threads[t]);
  }

  /** Everything that pins. */
  lemma PinningKeepsInv(c: Suite, sys: System, step: Step)
    requires Inv(c, sys) && Enabled(sys, step)
    requires step.Snapshot? || step.Confirm? || step.PopAged?
    ensures Inv(c, Apply(c, sys, step))
  {
    match step
    case Snapshot(t, i) => SnapshotKeepsInv(c, sys, t, Snapped(i, sys.slots[i].key));
    case PopAged(t, i, _) =>
      PinKeepsInv(c, sys, t, i, sys.slots[i]);
      QueueStepKeepsInv(c, Pin(sys, t, i, sys.slots[i]), TakeFirst(Pin(sys, t, i, sys.slots[i]), i), t);
    case Confirm(t, now, admitted) =>
      var th := sys.threads[t];
      var s := sys.slots[th.idx];
      if admitted && s.inUse && s.key == th.key {
        PinKeepsInv(c, sys, t, th.idx, s.(lastActive := now));
      } else {
        SnapshotKeepsInv(c, sys, t, Idle);
      }
  }

  lemma {:induction false} UnpinBKeepsInv(c: Suite, sys: System, step: Step)
    requires Inv(c, sys) && Enabled(sys, step) && step.UnpinB?
    ensures Inv(c, Apply(c, sys, step))
  {
    var next := Apply(c, sys, step);
    assert ThreadInv(c, sys, sys.threads[step.t]);
    ThreadStepKeepsInv(c, sys, next, step.t, next.threads[step.t]);
  }

  /** A thread gives back as many pins of each slot as it holds. */
  lemma ReleasedPins(sys: System, th: Thread, i: nat)
    requires ThreadShaped(sys, th) && Holding(th) && i < |sys.slots|
    ensures |Released(sys, th).slots| == |sys.slots|
    ensures Released(sys, th).slots[i] == sys.slots[i].(inFlight := sys.slots[i].inFlight - Holds(th, i))
    ensures Released(sys, th) == sys.(slots := Released(sys, th).slots)
  {
  }

  lemma FinishKeepsInv(c: Suite, sys: System, t: nat)
    requires Inv(c, sys) && t < |sys.threads| && Holding(sys.threads[t])
    ensures Inv(c, WithThread(Released(sys, sys.threads[t]), t, Idle))
  {
    var th := sys.threads[t];
    var released := Released(sys, th);
    assert ThreadInv(c, sys, th);
    forall i | 0 <= i < |sys.slots|
      ensures released.slots[i] == sys.slots[i].(inFlight := sys.slots[i].inFlight - Holds(th, i))
      ensures |released.slots| == |sys.slots| && released == sys.(slots := released.slots)
    {
      ReleasedPins(sys, th, i);
    }
    ReleasedPins(sys, th, th.a);
    ThreadStepKeepsInv(c, sys, WithThread(released, t, Idle), t, Idle);
  }

  /** A SETUP stores its fields in the session that its thread has pinned. */
  lemma StoreKeepsInv(c: Suite, sys: System, step: Step)
    requires Inv(c, sys) && Enabled(sys, step) && step.Store?
    ensures Inv(c, Apply(c, sys, step))
  {
    var next := Apply(c, sys, step);
    assert ThreadInv(c, sys, sys.threads[step.t]);
    ThreadStepKeepsInv(c, sys, next, step.t, next.threads[step.t]);
  }

  /** A request updates the address and header of the session that its thread has pinned. */
  lemma RefreshKeepsInv(c: Suite, sys: System, step: Step)
    requires Inv(c, sys) && Enabled(sys, step) && step.Refresh?
    ensures Inv(c, Apply(c, sys, step))
  {
    var next := Apply(c, sys, step);
    assert ThreadInv(c, sys, sys.threads[step.t]);
    ThreadStepKeepsInv(c, sys, next, step.t, next.threads[step.t]);
  }

  lemma NoPartnerKeepsInv(c: Suite, sys: System, step: Step)
    requires Inv(c, sys) && Enabled(sys, step) && step.NoPartner?
    ensures Inv(c, Apply(c, sys, step))
  {
    var next := Apply(c, sys, step);
    assert ThreadInv(c, sys, sys.threads[step.t]);
    ThreadStepKeepsInv(c, sys, next, step.t, next.threads[step.t]);
  }

  lemma CompareKeepsInv(c: Suite, sys: System, step: Step)
    requires Inv(c, sys) && Enabled(sys, step) && step.Compare?
    ensures Inv(c, Apply(c, sys, step))
  {
    var next := Apply(c, sys, step);
    assert ThreadInv(c, sys, sys.threads[step.t]);
    ThreadStepKeepsInv(c, sys, next, step.t, next.threads[step.t]);
  }

  lemma CommitKeepsInv(c: Suite, sys: System, step: Step)
    requires Inv(c, sys) && Enabled(sys, step) && step.Commit?
    ensures Inv(c, Apply(c, sys, step))
  {
    var next, th := Apply(c, sys, step), sys.threads[step.t];
    assert ThreadInv(c, sys, th) && SlotInv(sys, th.b);
    assert BondInv(c, next, th.a);
    ThreadStepKeepsInv(c, sys, next, step.t, next.threads[step.t]);
  }

  lemma StepKeepsInv(c: Suite, sys: System, step: Step)
    requires Inv(c, sys)
    ensures Inv(c, Apply(c, sys, step))
  {
    if Enabled(sys, step) {
      match step
      case Extend(_, _, _, _) => ExtendKeepsInv(c, sys, step);
      case Snapshot(_, _) => PinningKeepsInv(c, sys, step);
      case Confirm(_, _, _) => PinningKeepsInv(c, sys, step);
      case PopAged(_, _, _) => PinningKeepsInv(c, sys, step);
      case Reply(t, _, _, _) => QueueStepKeepsInv(c, sys, Apply(c, sys, step), t);
      case CoverPop(t) => QueueStepKeepsInv(c, sys, Apply(c, sys, step), t);
      case FindB(_) => FindBKeepsInv(c, sys, step);
      case Store(_, _) => StoreKeepsInv(c, sys, step);
      case Refresh(_, _, _) => RefreshKeepsInv(c, sys, step);
      case NoPartner(_) => NoPartnerKeepsInv(c, sys, step);
      case Compare(_) => CompareKeepsInv(c, sys, step);
      case Commit(_) => CommitKeepsInv(c, sys, step);
      case UnpinB(_) => UnpinBKeepsInv(c, sys, step);
      case Finish(t) => FinishKeepsInv(c, sys, t);
    }
  }

  // ---------------------------------------------------------------- every run

  lemma StartInv(c: Suite, n: nat, threads: nat)
    ensures Inv(c, Start(n, threads))
  {
    forall i | 0 <= i < n ensures SlotInv(Start(n, threads), i) { NoHolders(threads, i); }
  }

  /** The state after a sequence of steps, from an empty table of n slots. */
  ghost function Run(c: Suite, n: nat, threads: nat, steps: seq<Step>): System
  {
    if |steps| == 0 then Start(n, threads) else Apply(c, Run(c, n, threads, steps[..|steps| - 1]), steps[|steps| - 1])
  }

  lemma {:induction false} RunKeepsInv(c: Suite, n: nat, threads: nat, steps: seq<Step>)
    ensures Inv(c, Run(c, n, threads, steps))
  {
    if |steps| == 0 {
      StartInv(c, n, threads);
    } else {
      RunKeepsInv(c, n, threads, steps[..|steps| - 1]);
      StepKeepsInv(c, Run(c, n, threads, steps[..|steps| - 1]), steps[|steps| - 1]);
    }
  }

  /** A slot's reference count is the number of pointers to it that threads still hold. */
  lemma PinsAreHolders(c: Suite, n: nat, threads: nat, steps: seq<Step>, i: nat)
    requires i < |Run(c, n, threads, steps).slots|
    ensures var sys := Run(c, n, threads, steps); sys.slots[i].inFlight == Holders(sys.threads, i)
  {
    RunKeepsInv(c, n, threads, steps);
    assert SlotInv(Run(c, n, threads, steps), i);
  }

  /** Between its find and its unpin a thread's session is never reclaimed or re-keyed, whatever the others do. */
  lemma PinnedStays(c: Suite, n: nat, threads: nat, steps: seq<Step>, t: nat)
    requires t < |Run(c, n, threads, steps).threads|
    ensures var sys := Run(c, n, threads, steps); var th := sys.threads[t];
      && (Holding(th) ==> IsStill(sys, th.a, th.aLife, th.aKey))
      && (th.HasBoth? ==>
        th.b < |sys.slots| && IsStill(sys, th.b, th.bLife, sys.slots[th.b].key) && sys.slots[th.b].role == ROLE_B)
  {
    RunKeepsInv(c, n, threads, steps);
    var sys := Run(c, n, threads, steps);
    assert ThreadInv(c, sys, sys.threads[t]);
  }

  lemma {:induction false} PinningKeepsIdentity(c: Suite, sys: System, step: Step, i: nat)
    requires Enabled(sys, step) && i < |sys.slots| && (step.Confirm? || step.PopAged?)
    ensures var next := Apply(c, sys, step);
      && |next.slots| == |sys.slots| && next.lives == sys.lives && SameIdentity(sys.slots[i], next.slots[i])
  {
  }

  lemma {:induction false} FindBKeepsIdentity(c: Suite, sys: System, step: Step, i: nat)
    requires Enabled(sys, step) && i < |sys.slots| && step.FindB?
    ensures var next := Apply(c, sys, step);
      && |next.slots| == |sys.slots| && next.lives == sys.lives && SameIdentity(sys.slots[i], next.slots[i])
  {
  }

  lemma {:induction false} UnpinningKeepsIdentity(c: Suite, sys: System, step: Step, i: nat)
    requires Enabled(sys, step) && i < |sys.slots| && (step.UnpinB? || step.Finish?)
    ensures var next := Apply(c, sys, step);
      && |next.slots| == |sys.slots| && next.lives == sys.lives && SameIdentity(sys.slots[i], next.slots[i])
  {
    if step.Finish? { ReleasedPins(sys, sys.threads[step.t], i); }
  }

  /** Only an allocation changes which session a slot holds. */
  lemma OnlyExtendAllocates(c: Suite, sys: System, step: Step, i: nat)
    requires Shaped(sys) && i < |sys.slots| && (step.Extend? ==> step.slot != i)
    ensures var next := Apply(c, sys, step);
      && |next.slots| == |sys.slots| == |next.lives| && next.lives[i] == sys.lives[i]
      && SameIdentity(sys.slots[i], next.slots[i])
  {
    if Enabled(sys, step) {
      if step.Confirm? || step.PopAged? {
        PinningKeepsIdentity(c, sys, step, i);
      } else if step.FindB? {
        FindBKeepsIdentity(c, sys, step, i);
      } else if step.UnpinB? || step.Finish? {
        UnpinningKeepsIdentity(c, sys, step, i);
      }
    }
  }

  /** One step: a slot with a pin keeps its session, its key and its role. */
  lemma PinnedNotReclaimed(c: Suite, sys: System, step: Step, i: nat)
    requires Inv(c, sys) && i < |sys.slots| && sys.slots[i].inFlight > 0
    ensures var next := Apply(c, sys, step);
      && i < |next.slots| && next.lives[i] == sys.lives[i] && SameIdentity(sys.slots[i], next.slots[i])
  {
    if step.Extend? && step.slot == i {
      assert SlotInv(sys, i);
      if Enabled(sys, step) { HoldersOfFree(c, sys, step); }
    } else {
      OnlyExtendAllocates(c, sys, step, i);
    }
  }

  // ---------------------------------------------------------------- queued responses

  /** All that is queued in a slot answers requests of the session it holds now. */
  ghost predicate QueueInv(sys: System, i: nat)
    requires i < |sys.slots| == |sys.lives| == |sys.queues|
  {
    && |sys.queues[i]| <= Mailbox.PENDING_RESP_QUEUE
    && (forall j :: 0 <= j < |sys.queues[i]| ==> sys.queues[i][j].owner == Issue(i, sys.lives[i], sys.slots[i].key))
  }

  ghost predicate QueuesInv(sys: System) {
    && Shaped(sys)
    && (forall i :: 0 <= i < |sys.slots| ==> QueueInv(sys, i))
    && (forall k :: 0 <= k < |sys.popped| ==> sys.popped[k].to == sys.popped[k].what.owner)
  }

  lemma TakeFirstKeepsQueues(sys: System, i: nat)
    requires QueuesInv(sys) && i < |sys.slots| && |sys.queues[i]| > 0
    ensures QueuesInv(TakeFirst(sys, i))
  {
    var next := TakeFirst(sys, i);
    forall t | 0 <= t < |next.threads| ensures ThreadShaped(next, next.threads[t]) {
      assert ThreadShaped(sys, sys.threads[t]);
    }
    forall j | 0 <= j < |sys.slots| ensures QueueInv(next, j) { assert QueueInv(sys, j); }
    assert QueueInv(sys, i);
  }

  /** A request's thread still holds the session that the response is queued for. */
  lemma ReplyKeepsQueues(c: Suite, sys: System, step: Step)
    requires Inv(c, sys) && QueuesInv(sys) && step.Reply? && Enabled(sys, step)
    ensures QueuesInv(Apply(c, sys, step))
  {
    var next := Apply(c, sys, step);
    assert ThreadInv(c, sys, sys.threads[step.t]);
    forall j | 0 <= j < |sys.slots| ensures QueueInv(next, j) {
      assert QueueInv(sys, j);
    }
  }

  /** Nothing but allocation, requests and the two drains touches a queue. */
  lemma OthersKeepQueues(c: Suite, sys: System, step: Step)
    requires Inv(c, sys) && QueuesInv(sys) && !step.Extend? && !step.Reply? && !step.CoverPop? && !step.PopAged?
    ensures QueuesInv(Apply(c, sys, step))
  {
    var next := Apply(c, sys, step);
    StepKeepsInv(c, sys, step);
    SameQueues(c, sys, step);
    forall j | 0 <= j < |sys.slots| ensures QueueInv(next, j) {
      OnlyExtendAllocates(c, sys, step, j);
      assert QueueInv(sys, j);
    }
  }

  lemma SameQueues(c: Suite, sys: System, step: Step)
    requires Shaped(sys) && !step.Extend? && !step.Reply? && !step.CoverPop? && !step.PopAged?
    ensures Apply(c, sys, step).queues == sys.queues && Apply(c, sys, step).popped == sys.popped
    ensures |Apply(c, sys, step).slots| == |sys.slots|
  {
  }

  lemma PinKeepsQueues(sys: System, t: nat, i: nat)
    requires QueuesInv(sys) && t < |sys.threads| && i < |sys.slots|
    ensures QueuesInv(Pin(sys, t, i, sys.slots[i]))
  {
    var next := Pin(sys, t, i, sys.slots[i]);
    forall j | 0 <= j < |sys.slots| ensures QueueInv(next, j) { assert QueueInv(sys, j); }
  }

  /** An allocation empties the slot's queue. */
  lemma ExtendKeepsQueues(c: Suite, sys: System, step: Step)
    requires Inv(c, sys) && QueuesInv(sys) && step.Extend? && Enabled(sys, step)
    ensures QueuesInv(Apply(c, sys, step))
  {
    var next := Apply(c, sys, step);
    StepKeepsInv(c, sys, step);
    forall j | 0 <= j < |sys.slots| ensures QueueInv(next, j) { assert QueueInv(sys, j); }
  }

  lemma StepKeepsQueues(c: Suite, sys: System, step: Step)
    requires Inv(c, sys) && QueuesInv(sys)
    ensures QueuesInv(Apply(c, sys, step))
  {
    if Enabled(sys, step) {
      match step
      case Extend(_, _, _, _) => ExtendKeepsQueues(c, sys, step);
      case Reply(_, _, _, _) => ReplyKeepsQueues(c, sys, step);
      case CoverPop(t) => TakeFirstKeepsQueues(sys, sys.threads[t].a);
      case PopAged(t, i, _) =>
        PinKeepsQueues(sys, t, i);
        TakeFirstKeepsQueues(Pin(sys, t, i, sys.slots[i]), i);
      case _ => OthersKeepQueues(c, sys, step);
    }
  }

  lemma {:induction false} RunKeepsQueues(c: Suite, n: nat, threads: nat, steps: seq<Step>)
    ensures QueuesInv(Run(c, n, threads, steps))
  {
    if |steps| > 0 {
      RunKeepsInv(c, n, threads, steps[..|steps| - 1]);
      RunKeepsQueues(c, n, threads, steps[..|steps| - 1]);
      StepKeepsQueues(c, Run(c, n, threads, steps[..|steps| - 1]), steps[|steps| - 1]);
    }
  }

  /**
   In every run a response leaves its queue only for the session whose request it answers, the same
   allocation of the slot with the same key, although slots are reclaimed while responses wait.
   */
  lemma ResponsesStayInSession(c: Suite, n: nat, threads: nat, steps: seq<Step>, k: nat)
    requires k < |Run(c, n, threads, steps).popped|
    ensures Run(c, n, threads, steps).popped[k].to == Run(c, n, threads, steps).popped[k].what.owner
  {
    RunKeepsQueues(c, n, threads, steps);
  }

  // ---------------------------------------------------------------- the bound partner

  /** Session keys are never agreed twice. */
  ghost predicate FreshKeys(sys: System) {
    forall x: Issue, y: Issue :: x in sys.issued && y in sys.issued && x.key == y.key ==> x == y
  }

  /** The session's answers go to the partner whose key was stored when the binding was verified. */
  ghost predicate AnswersVerifiedPartner(c: Suite, sys: System, a: nat)
    requires a < |sys.slots|
  {
    PartnerOf(c, sys.slots, a).Some? && sys.slots[PartnerOf(c, sys.slots, a).value].key == sys.slots[a].bKey
  }

  /**
   In every reachable state an active session was bound by a tag that a SETUP of its own presented and
   that is the tag of its key and its partner's; and its answers go to that partner if and only if
   the partner's slot has not been allocated again since.
   */
  lemma PartnerIffNotReallocated(c: Suite, n: nat, threads: nat, steps: seq<Step>, a: nat)
    requires var sys := Run(c, n, threads, steps); FreshKeys(sys) && a < |sys.slots| && sys.slots[a].setupDone
    ensures var sys := Run(c, n, threads, steps);
      && |sys.lives| == |sys.bonds| == |sys.shown| == |sys.slots|
      && sys.bonds[a].Bond? && 0 <= sys.slots[a].boundB < |sys.slots|
      && sys.bonds[a].tag == BindingTag(c, sys.slots[a].key, sys.slots[a].bKey) && sys.bonds[a].tag in sys.shown[a]
      && (AnswersVerifiedPartner(c, sys, a) <==> sys.lives[sys.slots[a].boundB] == sys.bonds[a].life)
  {
    RunKeepsInv(c, n, threads, steps);
    var sys := Run(c, n, threads, steps);
    var partner := PartnerOf(c, sys.slots, a);
    assert BondInv(c, sys, a);
    if partner.Some? { assert SlotInv(sys, partner.value); }
  }

  // ---------------------------------------------------------------- a stale binding

  /** A gateway with n slots, a client with two sessions, and the sessions that other clients open later. */
  datatype Story = Story(n: nat, aKey: Key, bKey: Key, other: Key, others: nat -> Key)

  function Fields(c: Suite, y: Story): Setup {
    Setup([ZERO_KEY, ZERO_KEY, ZERO_KEY], BindingTag(c, y.aKey, y.bKey), Zeros(EC_PUBKEY_LEN), ZERO_ADDR,
          Zeros(RETURN_HEADER_SIZE))
  }

  /** Just before a session opened at time 0 may be reclaimed. */
  const LATER := SESSION_TTL_MS - 1

  /**
   The client's two sessions are opened and bound at time 0, and a later packet keeps the first one
   active; then the others fill the table, and one more takes the second slot.
   */
  function StepAt(c: Suite, y: Story, k: nat): Step
  {
    if k == 0 then Extend(0, 0, ROLE_A, y.aKey)
    else if k == 1 then Extend(1, 0, ROLE_B, y.bKey)
    else if k == 2 then Snapshot(0, 0)
    else if k == 3 then Confirm(0, 0, true)
    else if k == 4 then Store(0, Fields(c, y))
    else if k == 5 then FindB(0)
    else if k == 6 then Compare(0)
    else if k == 7 then Commit(0)
    else if k == 8 then Finish(0)
    else if k == 9 then Snapshot(0, 0)
    else if k == 10 then Confirm(0, LATER, true)
    else if k == 11 then FindB(0)
    else if k == 12 then Finish(0)
    else if k < y.n + 11 then Extend(k - 11, SESSION_TTL_MS, ROLE_B, y.others(k - 11))
    else Extend(1, SESSION_TTL_MS, ROLE_B, y.other)
  }

  function Steps(c: Suite, y: Story, k: nat): (steps: seq<Step>)
    ensures |steps| == k
  {
    if k == 0 then [] else Steps(c, y, k - 1) + [StepAt(c, y, k - 1)]
  }

  /** The state after one more of these steps. */
  lemma OneMoreStep(c: Suite, y: Story, k: nat, sys: System)
    requires k > 0 && sys == Run(c, y.n, 1, Steps(c, y, k - 1))
    ensures Apply(c, sys, StepAt(c, y, k - 1)) == Run(c, y.n, 1, Steps(c, y, k)) && Shaped(sys)
  {
    DropLast(Steps(c, y, k - 1), StepAt(c, y, k - 1));
    RunKeepsInv(c, y.n, 1, Steps(c, y, k - 1));
  }

  /** A table that begins with these two slots, filled by the others up to slot m. */
  function Table(c: Suite, y: Story, a: Slot, b: Slot, m: nat): (t: seq<Slot>)
    ensures |t| == y.n
    ensures y.n > 0 ==> t[0] == a
    ensures y.n > 1 ==> t[1] == b
    ensures forall j :: 2 <= j < y.n ==>
      t[j] == if j < m then NewSlot(c, SESSION_TTL_MS, ROLE_B, y.others(j)) else NoSlot()
  {
    seq(y.n, j requires 0 <= j < y.n =>
      if j == 0 then a else if j == 1 then b
      else if j < m then NewSlot(c, SESSION_TTL_MS, ROLE_B, y.others(j)) else NoSlot())
  }

  lemma TableNext(c: Suite, y: Story, a: Slot, b: Slot, m: nat, s: Slot)
    requires y.n >= 2
    ensures Table(c, y, a, b, m)[0 := s] == Table(c, y, s, b, m)
    ensures Table(c, y, a, b, m)[1 := s] == Table(c, y, a, s, m)
    ensures 2 <= m < y.n ==>
      Table(c, y, a, b, m)[m := NewSlot(c, SESSION_TTL_MS, ROLE_B, y.others(m))] == Table(c, y, a, b, m + 1)
  {
  }

  /** The A session once the SETUP packet is stored. */
  function StoredA(c: Suite, y: Story): Slot
  {
    WithSetup(Pinned(NewSlot(c, 0, ROLE_A, y.aKey)), Fields(c, y))
  }

  /** The A session once it is bound, when it was last active at this time. */
  function BoundA(c: Suite, y: Story, active: nat): Slot
  {
    Unpinned(BoundTo(StoredA(c, y), 1, y.bKey)).(lastActive := active)
  }

  /** In such a table the partner of the first session is the second. */
  lemma PartnerIsSecond(c: Suite, y: Story, a: Slot, b: Slot)
    requires y.n >= 2 && a.role == ROLE_A && a.boundB == -1 && b.inUse && b.role == ROLE_B
    requires a.tag == BindingTag(c, a.key, b.key)
    ensures PartnerOf(c, Table(c, y, a, b, 2), 0) == Some(1)
  {
    var t := Table(c, y, a, b, 2);
    assert !Verifies(c, t, a.key, a.tag, 0, 0) && Verifies(c, t, a.key, a.tag, 0, 1);
  }

  /** What matters of a state: the slots, the only thread, and how often the first two slots were allocated. */
  datatype Sketch = Sketch(slots: seq<Slot>, thread: Option<Thread>, life0: nat, life1: nat)

  function SketchOf(sys: System): Sketch {
    Sketch(sys.slots, if |sys.threads| == 1 then Some(sys.threads[0]) else None,
           if |sys.lives| > 0 then sys.lives[0] else 0, if |sys.lives| > 1 then sys.lives[1] else 0)
  }

  /** The state after the first k steps. */
  function Expected(c: Suite, y: Story, k: nat): Sketch {
    var a, b, tag := NewSlot(c, 0, ROLE_A, y.aKey), NewSlot(c, 0, ROLE_B, y.bKey), BindingTag(c, y.aKey, y.bKey);
    var stored := StoredA(c, y);
    var pinned, bound, later := Pinned(a), BoundTo(stored, 1, y.bKey), BoundA(c, y, LATER);
    if k == 0 then Sketch(Table(c, y, NoSlot(), NoSlot(), 2), Some(Idle), 0, 0)
    else if k == 1 then Sketch(Table(c, y, a, NoSlot(), 2), Some(Idle), 1, 0)
    else if k == 2 then Sketch(Table(c, y, a, b, 2), Some(Idle), 1, 1)
    else if k == 3 then Sketch(Table(c, y, a, b, 2), Some(Snapped(0, y.aKey)), 1, 1)
    else if k == 4 then Sketch(Table(c, y, pinned, b, 2), Some(HasA(0, 1, y.aKey, false)), 1, 1)
    else if k == 5 then Sketch(Table(c, y, stored, b, 2), Some(HasA(0, 1, y.aKey, true)), 1, 1)
    else if k == 6 then Sketch(Table(c, y, stored, Pinned(b), 2), Some(HasBoth(0, 1, y.aKey, true, 1, 1, None)), 1, 1)
    else if k == 7 then Sketch(Table(c, y, stored, Pinned(b), 2), Some(HasBoth(0, 1, y.aKey, true, 1, 1, Some(tag))), 1,
                               1)
    else if k == 8 then Sketch(Table(c, y, bound, Pinned(b), 2), Some(HasBoth(0, 1, y.aKey, true, 1, 1, Some(tag))), 1,
                               1)
    else if k == 9 then Sketch(Table(c, y, BoundA(c, y, 0), b, 2), Some(Idle), 1, 1)
    else if k == 10 then Sketch(Table(c, y, BoundA(c, y, 0), b, 2), Some(Snapped(0, y.aKey)), 1, 1)
    else if k == 11 then Sketch(Table(c, y, Pinned(later), b, 2), Some(HasA(0, 1, y.aKey, false)), 1, 1)
    else if k == 12 then Sketch(Table(c, y, Pinned(later), Pinned(b), 2),
                                Some(HasBoth(0, 1, y.aKey, false, 1, 1, None)), 1, 1)
    else if k < y.n + 12 then Sketch(Table(c, y, later, b, k - 11), Some(Idle), 1, 1)
    else Sketch(Table(c, y, later, NewSlot(c, SESSION_TTL_MS, ROLE_B, y.other), y.n), Some(Idle), 1, 2)
  }

  lemma FirstSteps(c: Suite, y: Story, k: nat, sys: System)
    requires 0 < k <= 4 && y.n >= 2 && Shaped(sys) && SketchOf(sys) == Expected(c, y, k - 1)
    ensures SketchOf(Apply(c, sys, StepAt(c, y, k - 1))) == Expected(c, y, k)
  {
    var a, b := NewSlot(c, 0, ROLE_A, y.aKey), NewSlot(c, 0, ROLE_B, y.bKey);
    TableNext(c, y, NoSlot(), NoSlot(), 2, a);
    TableNext(c, y, a, NoSlot(), 2, b);
    TableNext(c, y, a, b, 2, Pinned(a));
  }

  lemma MiddleSteps(c: Suite, y: Story, k: nat, sys: System)
    requires 4 < k <= 6 && y.n >= 2 && Shaped(sys) && SketchOf(sys) == Expected(c, y, k - 1)
    ensures SketchOf(Apply(c, sys, StepAt(c, y, k - 1))) == Expected(c, y, k)
  {
    var a, b := NewSlot(c, 0, ROLE_A, y.aKey), NewSlot(c, 0, ROLE_B, y.bKey);
    TableNext(c, y, Pinned(a), b, 2, StoredA(c, y));
    TableNext(c, y, StoredA(c, y), b, 2, Pinned(b));
    PartnerIsSecond(c, y, StoredA(c, y), b);
  }

  lemma {:induction false} LastSteps(c: Suite, y: Story, k: nat, sys: System)
    requires 6 < k <= 9 && y.n >= 2 && Shaped(sys) && SketchOf(sys) == Expected(c, y, k - 1)
    ensures SketchOf(Apply(c, sys, StepAt(c, y, k - 1))) == Expected(c, y, k)
  {
    var b, bound := NewSlot(c, 0, ROLE_B, y.bKey), BoundTo(StoredA(c, y), 1, y.bKey);
    TableNext(c, y, StoredA(c, y), Pinned(b), 2, bound);
    TableNext(c, y, bound, Pinned(b), 2, b);
    TableNext(c, y, bound, b, 2, BoundA(c, y, 0));
  }

  /** A packet of the first session comes .. */
  lemma {:induction false} ComingSteps(c: Suite, y: Story, k: nat, sys: System)
    requires 9 < k <= 11 && y.n >= 2 && Shaped(sys) && SketchOf(sys) == Expected(c, y, k - 1)
    ensures SketchOf(Apply(c, sys, StepAt(c, y, k - 1))) == Expected(c, y, k)
  {
    TableNext(c, y, BoundA(c, y, 0), NewSlot(c, 0, ROLE_B, y.bKey), 2, Pinned(BoundA(c, y, LATER)));
  }

  /** .. and goes. */
  lemma {:induction false} GoingSteps(c: Suite, y: Story, k: nat, sys: System)
    requires 11 < k <= 13 && y.n >= 2 && Shaped(sys) && SketchOf(sys) == Expected(c, y, k - 1)
    ensures SketchOf(Apply(c, sys, StepAt(c, y, k - 1))) == Expected(c, y, k)
  {
    var b, later := NewSlot(c, 0, ROLE_B, y.bKey), BoundA(c, y, LATER);
    TableNext(c, y, Pinned(later), b, 2, Pinned(b));
    TableNext(c, y, Pinned(later), Pinned(b), 2, b);
    TableNext(c, y, Pinned(later), b, 2, later);
  }

  lemma NextIsFree(c: Suite, y: Story, a: Slot, b: Slot, m: nat)
    requires 2 <= m < y.n && a.inUse && b.inUse
    ensures IsFirstFree(Table(c, y, a, b, m), m)
  {
  }

  /** Another client's session takes the next free slot. */
  lemma FillingStep(c: Suite, y: Story, k: nat, sys: System)
    requires 13 < k <= y.n + 11 && y.n >= 2 && Shaped(sys) && SketchOf(sys) == Expected(c, y, k - 1)
    ensures SketchOf(Apply(c, sys, StepAt(c, y, k - 1))) == Expected(c, y, k)
  {
    var b, later := NewSlot(c, 0, ROLE_B, y.bKey), BoundA(c, y, LATER);
    TableNext(c, y, later, b, k - 12, b);
    NextIsFree(c, y, later, b, k - 12);
  }

  lemma NothingYet(c: Suite, y: Story)
    requires 2 <= y.n
    ensures Start(y.n, 1) == Run(c, y.n, 1, Steps(c, y, 0)) && SketchOf(Start(y.n, 1)) == Expected(c, y, 0)
  {
    assert Start(y.n, 1).slots == Table(c, y, NoSlot(), NoSlot(), 2);
  }

  /** In the full table only the second session may be reclaimed. */
  lemma OnlySecondIsOld(c: Suite, y: Story, t: seq<Slot>)
    requires y.n >= 2
    requires t == Table(c, y, BoundA(c, y, LATER), NewSlot(c, 0, ROLE_B, y.bKey), y.n)
    ensures IsOldestReclaimable(t, SESSION_TTL_MS, 1)
  {
    forall j | 0 <= j < y.n ensures t[j].inUse && (j != 1 ==> Age(SESSION_TTL_MS, t[j].lastActive) <= 1) {}
  }

  /** Another client's receiving session takes the place of the client's own. */
  lemma ReclaimStep(c: Suite, y: Story, sys: System)
    requires y.n >= 2 && Shaped(sys) && SketchOf(sys) == Expected(c, y, y.n + 11)
    ensures SketchOf(Apply(c, sys, StepAt(c, y, y.n + 11))) == Expected(c, y, y.n + 12)
  {
    var b, later := NewSlot(c, 0, ROLE_B, y.bKey), BoundA(c, y, LATER);
    TableNext(c, y, later, b, y.n, NewSlot(c, SESSION_TTL_MS, ROLE_B, y.other));
    OnlySecondIsOld(c, y, sys.slots);
  }

  lemma {:induction false} NextIsExpected(c: Suite, y: Story, k: nat, sys: System, next: System)
    requires 0 < k <= y.n + 12 && y.n >= 2 && Shaped(sys) && SketchOf(sys) == Expected(c, y, k - 1)
    requires next == Apply(c, sys, StepAt(c, y, k - 1))
    ensures SketchOf(next) == Expected(c, y, k)
  {
    if k <= 4 {
      FirstSteps(c, y, k, sys);
    } else if k <= 6 {
      MiddleSteps(c, y, k, sys);
    } else if k <= 9 {
      LastSteps(c, y, k, sys);
    } else if k <= 11 {
      ComingSteps(c, y, k, sys);
    } else if k <= 13 {
      GoingSteps(c, y, k, sys);
    } else if k <= y.n + 11 {
      FillingStep(c, y, k, sys);
    } else {
      ReclaimStep(c, y, sys);
    }
  }

  /** The state after the first k steps is the one expected. */
  ghost predicate AsExpected(c: Suite, y: Story, k: nat, sys: System) {
    match y
    case Story(n, _, _, _, _) => n >= 2 && sys == Run(c, n, 1, Steps(c, y, k)) && SketchOf(sys) == Expected(c, y, k)
  }

  lemma {:induction false} BindingStep(c: Suite, y: Story, k: nat, before: System)
    requires 0 < k <= y.n + 12 && AsExpected(c, y, k - 1, before)
    ensures AsExpected(c, y, k, Apply(c, before, StepAt(c, y, k - 1)))
  {
    OneMoreStep(c, y, k, before);
    NextIsExpected(c, y, k, before, Apply(c, before, StepAt(c, y, k - 1)));
  }

  lemma {:induction false} BindingRun(c: Suite, y: Story, k: nat) returns (sys: System)
    requires 2 <= y.n && k <= y.n + 12
    ensures AsExpected(c, y, k, sys)
  {
    if k == 0 {
      NothingYet(c, y);
      sys := Start(y.n, 1);
    } else {
      var before := BindingRun(c, y, k - 1);
      BindingStep(c, y, k, before);
      sys := Apply(c, before, StepAt(c, y, k - 1));
    }
  }

  /** The first session is active and bound by the second one's key, but answers to whoever holds the slot now. */
  ghost predicate AnswersGoAstray(c: Suite, y: Story, t: seq<Slot>) {
    && |t| == y.n >= 2 && t[0].inUse && t[0].setupDone && t[0].bKey == y.bKey
    && PartnerOf(c, t, 0) == Some(1) && t[1].key == y.other != y.bKey
  }

  /**
   Receiving sessions are never refreshed, so one can expire under an active sending session. If its
   slot is then allocated to another client's receiving session, the first client's answers go there.
   Such a run exists for every size of the table.
   */
  lemma {:induction false} StalePartnerExample(c: Suite, y: Story)
    requires y.n >= 2 && y.other != y.bKey
    ensures AnswersGoAstray(c, y, Run(c, y.n, 1, Steps(c, y, y.n + 12)).slots)
  {
    var sys := BindingRun(c, y, y.n + 12);
  }
}

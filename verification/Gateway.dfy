/**
 The service gateway's session table: allocation that spares pinned slots, the two-phase search for
 the sending session of a packet, and the binding of a sending session (role A) to the receiving
 session (role B) of the same client.
 */
module Gateway {
  import opened Common
  import opened Bytes
  import opened Crypto
  import opened Sequences
  import Sphinx

  const ROLE_A: byte := 0x01
  const ROLE_B: byte := 0x02
  const ENVELOPE_BYTES := 245  // public key, address, return header
  const BINDING_TAG_AT := 97   // type byte and three blinding keys

  const TYPE_SETUP: byte := 0x00
  const EC_POINT: byte := 0x04

  type Addr = a: Octets | |a| == ADDR_BYTES witness Zeros(ADDR_BYTES)

  const ZERO_ADDR: Addr := Zeros(ADDR_BYTES)

  const N_PATH_HOPS := 3
  const SETUP_BYTES := BINDING_TAG_AT + MAC_BYTES + EC_PUBKEY_LEN + ADDR_BYTES + RETURN_HEADER_SIZE

  /** What a SETUP packet carries: blinding keys, binding tag, and where and how to answer. */
  datatype Setup = Setup(blind: seq<Key>, tag: Octets, mncPub: PubKey, mncAddr: Addr, returnHdr: Octets)

  datatype Slot = Slot(
    inUse: bool, role: byte, key: Key, sgHint: Octets, recvBlind: seq<Key>, tag: Octets,
    mncPub: PubKey, mncAddr: Addr, returnHdr: Octets,
    bKey: Key, setupDone: bool, boundB: int, lastActive: nat, inFlight: int)

  function NoSlot(): Slot {
    Slot(false, 0, ZERO_KEY, Zeros(MAC_BYTES), seq(N_PATH_HOPS, _ => ZERO_KEY), Zeros(MAC_BYTES),
         Zeros(EC_PUBKEY_LEN), ZERO_ADDR, Zeros(RETURN_HEADER_SIZE), ZERO_KEY, false, 0, 0, 0)
  }

  /** "ansn-sghint-v1" */
  function LabelSgHint(): Octets {
    [97, 110, 115, 110, 45, 115, 103, 104, 105, 110, 116, 45, 118, 49]
  }

  /** "binding" */
  function LabelBinding(): Octets {
    [98, 105, 110, 100, 105, 110, 103]
  }

  function SgHint(c: Suite, master: Key): (r: Octets)
    ensures |r| == MAC_BYTES
  {
    Mac(c, master, LabelSgHint())
  }

  /** The tag that proves both sessions were established by the same client. */
  function BindingTag(c: Suite, aKey: Key, bKey: Key): (r: Octets)
    ensures |r| == MAC_BYTES
  {
    Mac(c, c.hmac(aKey, bKey), LabelBinding())
  }

  function NewSlot(c: Suite, now: nat, role: byte, key: Key): Slot
  {
    NoSlot().(inUse := true, role := role, key := key, sgHint := SgHint(c, key), boundB := -1, lastActive := now)
  }

  // ---------------------------------------------------------------- allocation

  /** A session at its beginning: active now, under this key, held by nobody, set up and bound to nothing. */
  predicate Begins(s: Slot, now: nat, role: byte, key: Key) {
    && s.inUse && s.role == role && s.key == key && s.lastActive == now && s.inFlight == 0
    && !s.setupDone && s.boundB < 0
  }

  /** Old enough to be reclaimed, and no request holds it. */
  predicate Reclaimable(s: Slot, now: nat) {
    s.inFlight <= 0 && Age(now, s.lastActive) >= SESSION_TTL_MS
  }

  /**
   The slot an allocation takes: the first free one; in a full table the oldest reclaimable one
   (the last one of equal age); none if nothing is free or reclaimable.
   */
  ghost predicate IsAllocChoice(t: seq<Slot>, now: nat, choice: Option<nat>) {
    match choice
    case None => forall j :: 0 <= j < |t| ==> t[j].inUse && !Reclaimable(t[j], now)
    case Some(i) =>
      i < |t| && (IsFirstFree(t, i) || IsOldestReclaimable(t, now, i))
  }

  ghost predicate IsFirstFree(t: seq<Slot>, i: nat)
    requires i < |t|
  {
    !t[i].inUse && forall j :: 0 <= j < i ==> t[j].inUse
  }

  ghost predicate IsOldestReclaimable(t: seq<Slot>, now: nat, i: nat)
    requires i < |t|
  {
    && (forall j :: 0 <= j < |t| ==> t[j].inUse)
    && Reclaimable(t[i], now)
    && (forall j :: 0 <= j < |t| && Reclaimable(t[j], now) ==> Age(now, t[j].lastActive) <= Age(now, t[i].lastActive))
    && (forall j :: i < j < |t| && Reclaimable(t[j], now) ==> Age(now, t[j].lastActive) < Age(now, t[i].lastActive))
  }

  // ---------------------------------------------------------------- binding

  /** Slot j is a receiving session whose key completes this tag. */
  predicate Verifies(c: Suite, t: seq<Slot>, aKey: Key, want: Octets, skip: nat, j: nat)
    requires j < |t|
  {
    t[j].inUse && t[j].role == ROLE_B && j != skip && BindingTag(c, aKey, t[j].key) == want
  }

  /** The first slot at or after i that verifies. */
  function FirstVerified(c: Suite, t: seq<Slot>, aKey: Key, want: Octets, skip: nat, i: nat): (r: Option<nat>)
    requires i <= |t|
    ensures r.Some? ==> i <= r.value < |t| && Verifies(c, t, aKey, want, skip, r.value)
    ensures r.Some? ==> forall j :: i <= j < r.value ==> !Verifies(c, t, aKey, want, skip, j)
    ensures r.None? ==> forall j :: i <= j < |t| ==> !Verifies(c, t, aKey, want, skip, j)
    decreases |t| - i
  {
    if i == |t| then None
    else if Verifies(c, t, aKey, want, skip, i) then Some(i)
    else FirstVerified(c, t, aKey, want, skip, i + 1)
  }

  /** The receiving session that a sending session's answers go to. */
  function PartnerOf(c: Suite, t: seq<Slot>, a: nat): (r: Option<nat>)
    requires a < |t|
    ensures r.Some? ==> r.value < |t| && t[r.value].inUse && t[r.value].role == ROLE_B
  {
    var b := t[a].boundB;
    if 0 <= b < |t| && t[b].inUse && t[b].role == ROLE_B then Some(b)
    else FirstVerified(c, t, t[a].key, t[a].tag, a, 0)
  }

  function Pinned(s: Slot): Slot { s.(inFlight := s.inFlight + 1) }

  function Unpinned(s: Slot): Slot { s.(inFlight := s.inFlight - 1) }

  /** What a SETUP packet stores before it is verified. */
  function WithSetup(s: Slot, f: Setup): Slot {
    s.(recvBlind := f.blind, tag := f.tag, mncPub := f.mncPub, mncAddr := f.mncAddr, returnHdr := f.returnHdr)
  }

  /** A response that is dispatched at once: for which receiving session, under which header, and its bytes. */
  datatype Ack = Ack(b: nat, hdr: Octets, resp: Octets)

  /** "SETUP_OK" */
  function SetupOk(): Octets { [83, 69, 84, 85, 80, 95, 79, 75] }

  /** What a verified SETUP commits. */
  function BoundTo(s: Slot, b: nat, bKey: Key): Slot { s.(bKey := bKey, setupDone := true, boundB := b) }

  ghost predicate SetupShaped(f: Setup) {
    |f.blind| == N_PATH_HOPS && |f.tag| == MAC_BYTES && |f.returnHdr| == RETURN_HEADER_SIZE
  }

  /** The payload as the client builds it. */
  function SetupPayload(f: Setup): (r: Octets)
    requires |f.blind| == N_PATH_HOPS
  {
    [TYPE_SETUP] + f.blind[0] + f.blind[1] + f.blind[2] + f.tag + f.mncPub + f.mncAddr + f.returnHdr
  }

  /** The payload as the gateway takes it apart; one that is too short is refused. */
  function SetupOf(plain: Octets): Option<Setup> {
    if |plain| < SETUP_BYTES then None
    else
      var rest := plain[BINDING_TAG_AT + MAC_BYTES..];
      var at := EC_PUBKEY_LEN + ADDR_BYTES;
      Some(Setup([plain[1..33], plain[33..65], plain[65..97]], plain[BINDING_TAG_AT..BINDING_TAG_AT + MAC_BYTES],
                 rest[..EC_PUBKEY_LEN], rest[EC_PUBKEY_LEN..at], rest[at..at + RETURN_HEADER_SIZE]))
  }

  /** The gateway reads the fields that the client wrote, from a payload of the minimum length. */
  lemma SetupRoundTrip(f: Setup)
    requires SetupShaped(f)
    ensures |SetupPayload(f)| == SETUP_BYTES == 358 && SetupOf(SetupPayload(f)) == Some(f)
  {
    var front := [TYPE_SETUP] + f.blind[0] + f.blind[1] + f.blind[2];
    var back := f.mncPub + f.mncAddr + f.returnHdr;
    var plain := SetupPayload(f);
    assert plain == front + f.tag + back;
    assert plain[1..33] == f.blind[0] && plain[33..65] == f.blind[1] && plain[65..97] == f.blind[2];
    assert plain[BINDING_TAG_AT..BINDING_TAG_AT + MAC_BYTES] == f.tag;
    assert plain[BINDING_TAG_AT + MAC_BYTES..] == back;
    BackFields(f);
    assert f.blind == [f.blind[0], f.blind[1], f.blind[2]];
  }

  lemma BackFields(f: Setup)
    requires SetupShaped(f)
    ensures var back, at := f.mncPub + f.mncAddr + f.returnHdr, EC_PUBKEY_LEN + ADDR_BYTES;
      back[..EC_PUBKEY_LEN] == f.mncPub && back[EC_PUBKEY_LEN..at] == f.mncAddr && back[at..at + RETURN_HEADER_SIZE]
           == f.returnHdr
  {
  }

  // ---------------------------------------------------------------- which session sent a packet

  predicate IsDummy(flags: byte) { flags % 2 == 1 }

  /** SETUP, or one of the six application types behind the public key, address and return header. */
  function PacketType(plain: Octets): (r: Option<byte>)
    ensures r.Some? ==> |plain| > 0 && (r.value == TYPE_SETUP || |plain| > ENVELOPE_BYTES)
  {
    if |plain| < 1 then None
    else if plain[0] == TYPE_SETUP then Some(TYPE_SETUP)
    else if plain[0]
         == EC_POINT && |plain| > ENVELOPE_BYTES && 1 <= plain[ENVELOPE_BYTES] <= 6 then Some(plain[ENVELOPE_BYTES])
    else None
  }

  /** What is checked of a decrypted payload before the table is locked again. */
  predicate Plausible(flags: byte, plain: Octets) {
    if IsDummy(flags) then |plain| >= RETURN_HEADER_SIZE else PacketType(plain).Some?
  }

  /** What is checked under the lock, once the slot is known to be the same session still. */
  predicate Admits(c: Suite, t: seq<Slot>, i: nat, flags: byte, plain: Octets)
    requires i < |t| && Plausible(flags, plain)
  {
    IsDummy(flags) ||
    (if PacketType(plain).value == TYPE_SETUP then
       |plain| >= BINDING_TAG_AT + MAC_BYTES &&
       FirstVerified(c, t, t[i].key, plain[BINDING_TAG_AT..BINDING_TAG_AT + MAC_BYTES], i, 0).Some?
     else
       plain[EC_PUBKEY_LEN] == 127 && t[i].setupDone &&
       FromBe16(plain[EC_PUBKEY_LEN + 4], plain[EC_PUBKEY_LEN + 5]) == FromBe16(t[i].mncAddr[4], t[i].mncAddr[5]))
  }

  datatype Candidate = Candidate(idx: nat, key: Key)

  /** The role-A slots from i on that carry the packet's hint, with the keys they have at that moment. */
  function CandidatesFrom(t: seq<Slot>, hint: Octets, i: nat): (r: seq<Candidate>)
    requires i <= |t|
    ensures forall n :: 0 <= n < |r| ==> r[n].idx < |t|
    decreases |t| - i
  {
    if i == |t| then []
    else if t[i].inUse && t[i].role == ROLE_A && t[i].sgHint
         == hint then [Candidate(i, t[i].key)] + CandidatesFrom(t, hint, i + 1)
    else CandidatesFrom(t, hint, i + 1)
  }

  lemma TakeCandidate(t: seq<Slot>, hint: Octets, i: nat, cands: seq<Candidate>)
    requires i < |t| && t[i].inUse && t[i].role == ROLE_A && t[i].sgHint == hint
    ensures cands + CandidatesFrom(t, hint, i) == (cands + [Candidate(i, t[i].key)]) + CandidatesFrom(t, hint, i + 1)
  {
    Regroup(cands, [Candidate(i, t[i].key)], CandidatesFrom(t, hint, i + 1));
  }

  /** What other threads make of the table while the lock is released before a candidate is confirmed. */
  type Others = (seq<Candidate>, seq<Slot>) -> seq<Slot>

  ghost predicate KeepsLength(env: Others) {
    forall k: seq<Candidate>, t: seq<Slot> :: |env(k, t)| == |t|
  }

  datatype Found = NotFound | Found(idx: nat, flags: byte, payload: Octets)

  /**
   Decrypts for each candidate in turn, unlocked, and confirms the first plausible one that is still the
   same session.
   */
  function Search(c: Suite, env: Others, cands: seq<Candidate>, t: seq<Slot>, section: Octets,
                  now: nat): (r: (Found, seq<Slot>))
    requires KeepsLength(env) && |section| == Sphinx.PAYLOAD_SECTION_SIZE
    requires forall n :: 0 <= n < |cands| ==> cands[n].idx < |t|
    ensures |r.1| == |t|
    ensures r.0.Found? ==> r.0.idx < |t|
    decreases |cands|
  {
    if |cands| == 0 then (NotFound, t)
    else
      var k := cands[0];
      match Sphinx.Unwrap(c, section, k.key)
      case None => Search(c, env, cands[1..], t, section, now)
      case Some((flags, plain)) =>
        if !Plausible(flags, plain) then Search(c, env, cands[1..], t, section, now)
        else
          var t' := env(cands, t);
          if t'[k.idx].inUse && t'[k.idx].key == k.key && Admits(c, t', k.idx, flags, plain) then
            (Found(k.idx, flags, plain), t'[k.idx := Pinned(t'[k.idx].(lastActive := now))])
          else Search(c, env, cands[1..], t', section, now)
  }

  /** The search without the hint: tries every role-A slot from i on, with nobody interfering. */
  function SlowSearch(c: Suite, t: seq<Slot>, section: Octets, i: nat): (r: Found)
    requires |section| == Sphinx.PAYLOAD_SECTION_SIZE && i <= |t|
    decreases |t| - i
  {
    if i == |t| then NotFound
    else if !t[i].inUse || t[i].role != ROLE_A then SlowSearch(c, t, section, i + 1)
    else
      match Sphinx.Unwrap(c, section, t[i].key)
      case None => SlowSearch(c, t, section, i + 1)
      case Some((flags, plain)) =>
        if Plausible(flags, plain) && Admits(c, t, i, flags, plain) then Found(i, flags, plain)
        else SlowSearch(c, t, section, i + 1)
  }

  /** The gateway's hint of a fully peeled packet: the last bytes of its payload section. */
  function HintOf(section: Octets): Octets
    requires |section| == Sphinx.PAYLOAD_SECTION_SIZE
  {
    section[Sphinx.PAYLOAD_SECTION_SIZE - Sphinx.SG_HINT_BYTES..]
  }

  /** Every session in use stores the hint of its own key. */
  ghost predicate HintsOk(c: Suite, t: seq<Slot>) {
    forall i :: 0 <= i < |t| && t[i].inUse ==> t[i].sgHint == SgHint(c, t[i].key)
  }

  /** The section carries the hint of `key` and opens under the key of no other session of the table. */
  ghost predicate MadeFor(c: Suite, section: Octets, key: Key, t: seq<Slot>) {
    && |section| == Sphinx.PAYLOAD_SECTION_SIZE && HintOf(section) == SgHint(c, key)
    && forall i :: 0 <= i < |t| && t[i].inUse && t[i].key != key ==> Sphinx.Unwrap(c, section, t[i].key) == None
  }

  ghost function KeysOf(t: seq<Slot>): iset<Key> {
    iset i: nat | i < |t| && t[i].inUse :: t[i].key
  }

  /** A session that decides this packet's fate: the sender's own, or any receiving session. */
  predicate Matters(s: Slot, key: Key) {
    s.inUse && (s.role == ROLE_B || s.key == key)
  }

  /** Equal but for activity time, pins, routing headers and binding. */
  predicate SameSession(s: Slot, u: Slot) {
    s.inUse == u.inUse && s.role == u.role && s.key == u.key && s.setupDone == u.setupDone && s.mncAddr == u.mncAddr
  }

  ghost predicate SameWhereItMatters(t: seq<Slot>, u: seq<Slot>, key: Key) {
    |t| == |u| && forall i :: 0 <= i < |t| && (Matters(t[i], key) || Matters(u[i], key)) ==> SameSession(t[i], u[i])
  }

  ghost predicate LeavesAlone(env: Others, key: Key) {
    forall k: seq<Candidate>, t: seq<Slot> :: SameWhereItMatters(t, env(k, t), key)
  }

  // ---------------------------------------------------------------- the table behind its lock

  class SessionStore {
    const c: Suite
    var slots: seq<Slot>

    ghost predicate Valid()
      reads this
    {
      |slots| == MAX_SESSIONS && HintsOk(c, slots)
    }

    constructor (c: Suite)
        ensures Valid() && this.c == c && slots == seq(MAX_SESSIONS, _ => NoSlot())
    {
      this.c := c;
      slots := seq(MAX_SESSIONS, _ => NoSlot());
    }

    method ChooseSlot(now: nat) returns (choice: Option<nat>)
      requires Valid()
      ensures IsAllocChoice(slots, now, choice)
    {
      for i := 0 to MAX_SESSIONS
        invariant forall j :: 0 <= j < i ==> slots[j].inUse
      {
        if !slots[i].inUse { return Some(i); }
      }
      choice := None;
      var oldestAge: nat := 0;
      for i := 0 to MAX_SESSIONS
        invariant choice.None? ==> oldestAge == 0 && forall j :: 0 <= j < i ==> !Reclaimable(slots[j], now)
        invariant choice.Some? ==>
          && choice.value < i && Reclaimable(slots[choice.value], now)
          && oldestAge == Age(now, slots[choice.value].lastActive)
          && (forall j :: 0 <= j < i && Reclaimable(slots[j], now) ==> Age(now, slots[j].lastActive) <= oldestAge)
          && (forall j ::
            choice.value < j < i && Reclaimable(slots[j], now) ==> Age(now, slots[j].lastActive) < oldestAge)
      {
        if slots[i].inFlight <= 0 {
          var age := Age(now, slots[i].lastActive);
          if age >= SESSION_TTL_MS && age >= oldestAge {
            oldestAge := age;
            choice := Some(i);
          }
        }
      }
    }

    /** Takes and populates a slot while the lock is held. */
    method SessAlloc(now: nat, role: byte, key: Key) returns (choice: Option<nat>)
      requires Valid()
      modifies this
      ensures Valid()
      ensures IsAllocChoice(old(slots), now, choice)
      ensures slots == if choice.None? then old(slots) else old(slots)[choice.value := NewSlot(c, now, role, key)]
      ensures choice.Some? && old(slots)[choice.value].inUse ==>
        old(slots)[choice.value].inFlight <= 0 && (now - old(slots)[choice.value].lastActive) % TICKS >= 300_000
      ensures choice.Some? ==> Begins(slots[choice.value], now, role, key)
    {
      choice := ChooseSlot(now);
      if choice.Some? {
        slots := slots[choice.value := NewSlot(c, now, role, key)];
      }
    }

    method FindVerifiedB(aKey: Key, want: Octets, skip: nat) returns (r: Option<nat>)
      requires Valid()
      ensures r == FirstVerified(c, slots, aKey, want, skip, 0)
    {
      for j := 0 to |slots|
        invariant FirstVerified(c, slots, aKey, want, skip, 0) == FirstVerified(c, slots, aKey, want, skip, j)
      {
        if slots[j].inUse && slots[j].role == ROLE_B && j != skip {
          if BindingTag(c, aKey, slots[j].key) == want { return Some(j); }
        }
      }
      r := None;
    }

    method Snapshot(hint: Octets) returns (cands: seq<Candidate>)
      requires Valid()
      ensures cands == CandidatesFrom(slots, hint, 0)
    {
      cands := [];
      ghost var all := CandidatesFrom(slots, hint, 0);
      for i := 0 to |slots|
        invariant cands + CandidatesFrom(slots, hint, i) == all
      {
        var s := slots[i];
        if s.inUse && s.role == ROLE_A && s.sgHint == hint {
          TakeCandidate(slots, hint, i, cands);
          cands := cands + [Candidate(i, s.key)];
        }
      }
    }

    /** Decrypts unlocked, then locks again and confirms; `env` is what other threads did in between. */
    method TryCandidate(cands: seq<Candidate>, section: Octets, now: nat, env: Others) returns (found: Found)
      requires Valid() && |section| == Sphinx.PAYLOAD_SECTION_SIZE && KeepsLength(env)
      requires |cands| > 0 && forall n :: 0 <= n < |cands| ==> cands[n].idx < |slots|
      requires forall k: seq<Candidate>, t: seq<Slot> :: HintsOk(c, t) ==> HintsOk(c, env(k, t))
      modifies this
      ensures Valid()
      ensures if found.Found? then (found, slots) == Search(c, env, cands, old(slots), section, now)
              else Search(c, env, cands[1..], slots, section, now) == Search(c, env, cands, old(slots), section, now)
    {
      var k := cands[0];
      var plain := Sphinx.Unwrap(c, section, k.key);
      if plain.None? || !Plausible(plain.value.0, plain.value.1) { return NotFound; }
      slots := env(cands, slots);
      var s := slots[k.idx];
      if !s.inUse || s.key != k.key { return NotFound; }
      var admitted := Check(k.idx, plain.value.0, plain.value.1);
      if !admitted { return NotFound; }
      slots := slots[k.idx := Pinned(s.(lastActive := now))];
      found := Found(k.idx, plain.value.0, plain.value.1);
    }

    method FindASession(section: Octets, now: nat, env: Others) returns (found: Found)
      requires Valid() && |section| == Sphinx.PAYLOAD_SECTION_SIZE && KeepsLength(env)
      requires forall k: seq<Candidate>, t: seq<Slot> :: HintsOk(c, t) ==> HintsOk(c, env(k, t))
      modifies this
      ensures Valid()
      ensures (found, slots) == Search(c, env, CandidatesFrom(old(slots), HintOf(section), 0), old(slots), section, now)
    {
      var cands := Snapshot(HintOf(section));
      ghost var outcome := Search(c, env, cands, slots, section, now);
      assert cands[0..] == cands;
      for n := 0 to |cands|
        invariant Valid()
        invariant Search(c, env, cands[n..], slots, section, now) == outcome
      {
        assert cands[n..][1..] == cands[n + 1..];
        found := TryCandidate(cands[n..], section, now, env);
        if found.Found? { return; }
      }
      found := NotFound;
    }

    method Check(i: nat, flags: byte, plain: Octets) returns (ok: bool)
      requires Valid() && i < |slots| && Plausible(flags, plain)
      ensures ok <==> Admits(c, slots, i, flags, plain)
    {
      if IsDummy(flags) { return true; }
      if PacketType(plain).value != TYPE_SETUP {
        var s := slots[i];
        return plain[EC_PUBKEY_LEN] == 127 && s.setupDone &&
          FromBe16(plain[EC_PUBKEY_LEN + 4], plain[EC_PUBKEY_LEN + 5]) == FromBe16(s.mncAddr[4], s.mncAddr[5]);
      }
      if |plain| < BINDING_TAG_AT + MAC_BYTES { return false; }
      var b := FindVerifiedB(slots[i].key, plain[BINDING_TAG_AT..BINDING_TAG_AT + MAC_BYTES], i);
      ok := b.Some?;
    }

    /** Finds and pins the receiving session. */
    method FindBForA(a: nat) returns (b: Option<nat>)
      requires Valid() && a < |slots|
      modifies this
      ensures Valid()
      ensures b == PartnerOf(c, old(slots), a)
      ensures slots == if b.None? then old(slots) else old(slots)[b.value := Pinned(old(slots)[b.value])]
    {
      var bound := slots[a].boundB;
      if 0 <= bound < |slots| && slots[bound].inUse && slots[bound].role == ROLE_B {
        b := Some(bound);
      } else {
        b := FindVerifiedB(slots[a].key, slots[a].tag, a);
      }
      if b.Some? { slots := slots[b.value := Pinned(slots[b.value])]; }
    }

    /**
     The SETUP handler on a pinned session: store, find the partner, verify, commit, acknowledge.
     The acknowledgement goes to the partner under the header that this SETUP brought.
     */
    method HandleSetup(a: nat, plain: Octets) returns (b: Option<nat>, ack: Option<Ack>)
      requires Valid() && a < |slots|
      modifies this
      ensures Valid()
      ensures |plain| < SETUP_BYTES ==> b.None? && ack.None? && slots == old(slots)
      ensures |plain| >= SETUP_BYTES ==>
        var f := SetupOf(plain).value;
        var t := old(slots)[a := WithSetup(old(slots)[a], f)];
        && b == PartnerOf(c, t, a)
        && ack == (if b.Some? && BindingTag(c, t[a].key, t[b.value].key)
             == f.tag then Some(Ack(b.value, f.returnHdr, SetupOk())) else None)
        && slots == match b
          case None => t[a := t[a].(setupDone := false)]
          case Some(j) =>
            var u := t[j := Pinned(t[j])];
            if ack.Some? then u[a := BoundTo(u[a], j, t[j].key)] else u
      ensures |plain| >= SETUP_BYTES ==>
        var f, s := SetupOf(plain).value, slots[a];
        && s.recvBlind == f.blind && s.tag == f.tag && s.mncPub == f.mncPub && s.mncAddr == f.mncAddr
        && s.returnHdr == f.returnHdr && s.key == old(slots)[a].key
        && (ack.Some? ==> s.setupDone && s.boundB == b.value && s.bKey == old(slots)[b.value].key)
        && (ack.None? ==> s.bKey == old(slots)[a].bKey && s.boundB == old(slots)[a].boundB
                          && (s.setupDone ==> old(slots)[a].setupDone && b.Some?))
    {
      b, ack := None, None;
      if |plain| < SETUP_BYTES { return; }
      var f := SetupOf(plain).value;
      slots := slots[a := WithSetup(slots[a], f)];
      b := FindBForA(a);
      if b.None? {
        slots := slots[a := slots[a].(setupDone := false)];
      } else if BindingTag(c, slots[a].key, slots[b.value].key) == slots[a].tag {
        slots := slots[a := BoundTo(slots[a], b.value, slots[b.value].key)];
        ack := Some(Ack(b.value, f.returnHdr, SetupOk()));
      }
    }
  }

  // ---------------------------------------------------------------- what the search guarantees

  /** A session that is found holds, at that moment, a key from the snapshot that opens the packet. */
  lemma {:induction false} FoundIsCurrent(c: Suite, env: Others, cands: seq<Candidate>, t: seq<Slot>, section: Octets,
                                          now: nat)
    requires KeepsLength(env) && |section| == Sphinx.PAYLOAD_SECTION_SIZE
    requires forall n :: 0 <= n < |cands| ==> cands[n].idx < |t|
    ensures var (found, u) := Search(c, env, cands, t, section, now);
      found.Found? ==>
        && u[found.idx].inUse && Candidate(found.idx, u[found.idx].key) in cands
        && Sphinx.Unwrap(c, section, u[found.idx].key) == Some((found.flags, found.payload))
        && u[found.idx].lastActive == now
    decreases |cands|
  {
    if |cands| > 0 {
      var k := cands[0];
      match Sphinx.Unwrap(c, section, k.key)
      case None => FoundIsCurrent(c, env, cands[1..], t, section, now);
      case Some((flags, plain)) =>
        if !Plausible(flags, plain) {
          FoundIsCurrent(c, env, cands[1..], t, section, now);
        } else {
          var t' := env(cands, t);
          if !(t'[k.idx].inUse && t'[k.idx].key == k.key && Admits(c, t', k.idx, flags, plain)) {
            FoundIsCurrent(c, env, cands[1..], t', section, now);
          }
        }
    }
  }

  /** Reclaimed for another key between snapshot and confirmation: the slot is not what the search returns. */
  lemma ReclaimedIsSkipped(c: Suite, env: Others, t: seq<Slot>, section: Octets, now: nat, key: Key)
    requires KeepsLength(env) && MadeFor(c, section, key, t)
    ensures var (found, u) := Search(c, env, CandidatesFrom(t, HintOf(section), 0), t, section, now);
      found.Found? ==> u[found.idx].inUse && u[found.idx].key == key
  {
    var cands := CandidatesFrom(t, HintOf(section), 0);
    var (found, u) := Search(c, env, cands, t, section, now);
    FoundIsCurrent(c, env, cands, t, section, now);
    if found.Found? {
      var n: nat :| n < |cands| && cands[n] == Candidate(found.idx, u[found.idx].key);
      CandidateFromTable(t, HintOf(section), 0, n);
    }
  }

  lemma {:induction false} CandidateFromTable(t: seq<Slot>, hint: Octets, i: nat, n: nat)
    requires i <= |t| && n < |CandidatesFrom(t, hint, i)|
    ensures var k := CandidatesFrom(t, hint, i)[n];
      k.idx < |t| && t[k.idx].inUse && t[k.idx].role == ROLE_A && t[k.idx].key == k.key && t[k.idx].sgHint == hint
    decreases |t| - i
  {
    var rest := CandidatesFrom(t, hint, i + 1);
    if t[i].inUse && t[i].role == ROLE_A && t[i].sgHint == hint {
      if n > 0 { CandidateFromTable(t, hint, i + 1, n - 1); }
    } else {
      assert CandidatesFrom(t, hint, i) == rest;
      CandidateFromTable(t, hint, i + 1, n);
    }
  }

  lemma {:induction false} SameVerified(c: Suite, t: seq<Slot>, u: seq<Slot>, key: Key, aKey: Key, want: Octets,
                                        skip: nat, i: nat)
    requires SameWhereItMatters(t, u, key) && i <= |t|
    ensures FirstVerified(c, t, aKey, want, skip, i) == FirstVerified(c, u, aKey, want, skip, i)
    decreases |t| - i
  {
    if i < |t| {
      assert Verifies(c, t, aKey, want, skip, i) == Verifies(c, u, aKey, want, skip, i);
      SameVerified(c, t, u, key, aKey, want, skip, i + 1);
    }
  }

  lemma {:induction false} SameAdmits(c: Suite, t: seq<Slot>, u: seq<Slot>, key: Key, i: nat, flags: byte,
                                      plain: Octets)
    requires SameWhereItMatters(t, u, key) && i < |t| && Plausible(flags, plain) && SameSession(t[i], u[i])
    ensures Admits(c, t, i, flags, plain) == Admits(c, u, i, flags, plain)
  {
    if !IsDummy(flags) && PacketType(plain).value == TYPE_SETUP && |plain| >= BINDING_TAG_AT + MAC_BYTES {
      SameVerified(c, t, u, key, t[i].key, plain[BINDING_TAG_AT..BINDING_TAG_AT + MAC_BYTES], i, 0);
    }
  }

  lemma {:induction false} OthersLeaveIt(env: Others, cands: seq<Candidate>, t: seq<Slot>, u: seq<Slot>, key: Key)
    requires KeepsLength(env) && LeavesAlone(env, key) && SameWhereItMatters(t, u, key)
    ensures |env(cands, u)| == |t| && SameWhereItMatters(t, env(cands, u), key)
  {
    assert SameWhereItMatters(u, env(cands, u), key);
  }

  /** A candidate is confirmed exactly when the slow search takes its slot. */
  lemma {:induction false} CandidateAgrees(c: Suite, env: Others, cands: seq<Candidate>, t: seq<Slot>, u: seq<Slot>,
                                           section: Octets, key: Key, now: nat, i: nat)
    requires KeepsLength(env) && LeavesAlone(env, key) && MadeFor(c, section, key, t) && SameWhereItMatters(t, u, key)
    requires i < |t| && t[i].inUse && t[i].role == ROLE_A && |cands| > 0 && cands[0] == Candidate(i, t[i].key)
    requires forall n :: 0 <= n < |cands| ==> cands[n].idx < |t|
    requires Search(c, env, cands[1..], u, section, now).0 == SlowSearch(c, t, section, i + 1)
    requires Search(c, env, cands[1..], env(cands, u), section, now).0 == SlowSearch(c, t, section, i + 1)
    ensures Search(c, env, cands, u, section, now).0 == SlowSearch(c, t, section, i)
  {
    var plain := Sphinx.Unwrap(c, section, t[i].key);
    if plain.Some? && Plausible(plain.value.0, plain.value.1) {
      assert t[i].key == key;
      OthersLeaveIt(env, cands, t, u, key);
      SameAdmits(c, t, env(cands, u), key, i, plain.value.0, plain.value.1);
    }
  }

  /** Slots without the packet's hint could not have decrypted it. */
  lemma {:induction false} FilteredScanFrom(c: Suite, env: Others, t: seq<Slot>, u: seq<Slot>, section: Octets,
                                            key: Key, now: nat, i: nat)
    requires KeepsLength(env) && LeavesAlone(env, key) && HintsOk(c, t) && MadeFor(c, section, key, t)
    requires SameWhereItMatters(t, u, key) && i <= |t|
    ensures Search(c, env, CandidatesFrom(t, HintOf(section), i), u, section, now).0 == SlowSearch(c, t, section, i)
    decreases |t| - i
  {
    if i < |t| {
      var cands, rest := CandidatesFrom(t, HintOf(section), i), CandidatesFrom(t, HintOf(section), i + 1);
      FilteredScanFrom(c, env, t, u, section, key, now, i + 1);
      if t[i].inUse && t[i].role == ROLE_A && t[i].sgHint == HintOf(section) {
        assert cands[1..] == rest;
        OthersLeaveIt(env, cands, t, u, key);
        FilteredScanFrom(c, env, t, env(cands, u), section, key, now, i + 1);
        CandidateAgrees(c, env, cands, t, u, section, key, now, i);
      } else {
        assert cands == rest;
      }
    }
  }

  /** The hint changes what is tried, never what is found. */
  lemma PrefilterAgrees(c: Suite, env: Others, t: seq<Slot>, section: Octets, key: Key, now: nat)
    requires KeepsLength(env) && LeavesAlone(env, key) && HintsOk(c, t) && MadeFor(c, section, key, t)
    ensures Search(c, env, CandidatesFrom(t, HintOf(section), 0), t, section, now).0 == SlowSearch(c, t, section, 0)
  {
    FilteredScanFrom(c, env, t, t, section, key, now, 0);
  }

  /** Packets built by an honest client or sender are made for their own end-to-end key. */
  lemma BuiltIsMadeFor(c: Suite, t: seq<Slot>, path: Sphinx.Path, flags: byte, payload: Octets, gcmNonce: Octets)
    requires Lawful(c) && OpensOnlyUnder(c, path.e2e, KeysOf(t)) && path.Valid() && |payload| <= MAX_INNER_PAYLOAD
    requires path.sgHint == SgHint(c, path.e2e)
    ensures MadeFor(c, Sphinx.E2eSection(c, path, flags, payload, gcmNonce), path.e2e, t)
  {
    var inner := Sphinx.InnerPayload(flags, payload);
    var ct := c.seal(path.e2e, gcmNonce, inner);
    var section := Sphinx.E2eSection(c, path, flags, payload, gcmNonce);
    Sphinx.UnwrapSection(c, path, flags, payload, gcmNonce);
    Be16RoundTrip(|ct|);
    assert section[2..2 + |ct|] == ct;
    forall i | 0 <= i < |t| && t[i].inUse && t[i].key != path.e2e ensures Sphinx.Unwrap(c, section, t[i].key) == None {
      assert t[i].key in KeysOf(t);
    }
  }
}

/**
 Every interleaving of Receivers, Senders' workers and the cache server's table. A worker answers a
 request it saw in some earlier heartbeat, at any later time; Receivers' wire keys may collide.
 */
module ContentKeyRuns {
  import opened Common
  import opened Bytes
  import opened Crypto
  import opened Sequences
  import opened CacheServer
  import opened ContentKey

  datatype Phase = Asking | Polling | Done(k: Key) | Failed

  datatype Receiver = Receiver(key: Text, priv: Priv, pin: Option<PubKey>, phase: Phase)

  /** A pending entry that a Sender has heard of, and the answer it has prepared. */
  datatype Worker = Worker(sender: nat, wire: WireKey, rPub: PubKey, data: Option<Octets>)

  datatype System = System(
    table: seq<Pending>, receivers: seq<Receiver>, registries: seq<seq<Owned>>, workers: seq<Worker>,
    registered: set<(Octets, Key)>, // every content key and K_content that any Sender ever registered
    draws: set<Draw>)               // what went into the answers that were prepared

  datatype Step =
    | Register(s: nat, key: Octets, k: Key)
    | Init(r: nat, now: nat)
    | Hear(s: nat, i: nat)
    | Prepare(w: nat, d: Draw)
    | Deliver(w: nat)
    | Poll(r: nat, lost: bool)

  function WireOf(e: Exchange, r: Receiver): Octets { WireKeyOf(r.key, e.pub(r.priv)) }

  /** The request path refuses keys over 63 bytes. */
  predicate Sendable(wire: Octets) { |wire| <= MAX_TEXT }

  ghost predicate Enabled(e: Exchange, sys: System, step: Step) {
    match step
    case Register(s, _, _) => s < |sys.registries|
    case Init(r, _) => r < |sys.receivers| && sys.receivers[r].phase.Asking?
    case Hear(s, i) => s < |sys.registries| && i < |sys.table| && sys.table[i].inUse && !sys.table[i].ready
    case Prepare(w, _) => w < |sys.workers| && sys.workers[w].sender < |sys.registries|
    case Deliver(w) =>
      w < |sys.workers| && sys.workers[w].data.Some? && AnswerFits(sys.workers[w].wire, sys.workers[w].data.value)
    case Poll(r, _) => r < |sys.receivers| && sys.receivers[r].phase.Polling? && Sendable(WireOf(e, sys.receivers[r]))
  }

  ghost function Apply(c: Suite, e: Exchange, sys: System, step: Step): System
    requires Lawful(c)
  {
    if !Enabled(e, sys, step) then sys else
    match step
    case Register(s, key, k) =>
      sys.(registries := sys.registries[s := Remembered(sys.registries[s], key, k)],
           registered := sys.registered + {(key, k)})
    case Init(i, now) =>
      var r := sys.receivers[i];
      if !Sendable(WireOf(e, r)) || InitSlot(sys.table, WireOf(e, r), now).None? then
        sys.(receivers := sys.receivers[i := r.(phase := Failed)])
      else
        sys.(table := AfterInit(sys.table, WireOf(e, r), e.pub(r.priv), now),
             receivers := sys.receivers[i := r.(phase := Polling)])
    case Hear(s, i) => sys.(workers := sys.workers + [Worker(s, sys.table[i].key, sys.table[i].rPub, None)])
    case Prepare(i, d) =>
      var w := sys.workers[i];
      (match LookupOwned(sys.registries[w.sender], Cut(w.wire))
       case None => sys
       case Some(k) =>
         sys.(workers := sys.workers[i := w.(data := Some(AnswerData(c, e, w.rPub, k, d)))], draws := sys.draws + {d}))
    case Deliver(i) => sys.(table := AfterRespond(sys.table, sys.workers[i].wire, sys.workers[i].data.value))
    case Poll(i, lost) =>
      var r := sys.receivers[i];
      var wire: WireKey := WireOf(e, r);
      (match Answer(sys.table, wire)
       case None => sys
       case Some(data) =>
         var after := sys.(table := AfterPoll(sys.table, wire));
         if lost then after
         else
           var phase := match Finish(c, e, r.priv, r.pin, data) case None => Failed case Some(k) => Done(k);
           after.(receivers := sys.receivers[i := r.(phase := phase)]))
  }

  function Start(slots: nat, receivers: seq<Receiver>, senders: nat, owned: nat): System {
    System(seq(slots, _ => NoPending()), receivers,
           seq(senders, _ => seq(owned, _ => Owned(false, [], Zeros(AES_KEY_LEN)))), [], {}, {})
  }

  ghost function Run(c: Suite, e: Exchange, start: System, steps: seq<Step>): System
    requires Lawful(c)
  {
    if |steps| == 0 then start else Apply(c, e, Run(c, e, start, steps[..|steps| - 1]), steps[|steps| - 1])
  }

  // ---------------------------------------------------------------- invariant

  /** Some Receiver asks under this wire key with this public key. */
  ghost predicate Asked(e: Exchange, sys: System, wire: Octets, rPub: PubKey) {
    exists r :: 0 <= r < |sys.receivers| && WireOf(e, sys.receivers[r]) == wire && e.pub(sys.receivers[r].priv) == rPub
  }

  /**
   The answer seals, for a Receiver that asks under this wire key, a K_content registered under the key in
   front of the separator.
   */
  ghost predicate IsAnswer(c: Suite, e: Exchange, sys: System, wire: Octets, data: Octets, rPub: PubKey, k: Key,
                           d: Draw)
    requires Lawful(c)
  {
    Asked(e, sys, wire, rPub) && (Cut(wire), k) in sys.registered && d in sys.draws && data
         == AnswerData(c, e, rPub, k, d)
  }

  ghost predicate MadeFor(c: Suite, e: Exchange, sys: System, wire: Octets, data: Octets)
    requires Lawful(c)
  {
    exists rPub: PubKey, k: Key, d: Draw :: IsAnswer(c, e, sys, wire, data, rPub, k, d)
  }

  /** What a Receiver that is done has accepted. */
  ghost predicate Accepted(c: Suite, e: Exchange, sys: System, r: Receiver, data: Octets)
    requires Lawful(c) && r.phase.Done?
  {
    && Sendable(WireOf(e, r)) && MadeFor(c, e, sys, WireOf(e, r), data) && AnswerFits(WireOf(e, r), data)
    && Finish(c, e, r.priv, r.pin, data) == Some(r.phase.k)
  }

  ghost predicate RegistryInv(sys: System, s: nat)
    requires s < |sys.registries|
  {
    forall i :: 0 <= i < |sys.registries[s]| && sys.registries[s][i].inUse ==>
      (sys.registries[s][i].key, sys.registries[s][i].kContent) in sys.registered
  }

  ghost predicate WorkerInv(c: Suite, e: Exchange, sys: System, w: Worker)
    requires Lawful(c)
  {
    Asked(e, sys, w.wire, w.rPub) && (w.data.Some? ==> MadeFor(c, e, sys, w.wire, w.data.value))
  }

  ghost predicate EntryInv(c: Suite, e: Exchange, sys: System, p: Pending)
    requires Lawful(c)
  {
    p.inUse ==>
      && Asked(e, sys, p.key, p.rPub)
      && (p.ready ==> MadeFor(c, e, sys, p.key, p.resp) && AnswerFits(p.key, p.resp))
  }

  ghost predicate ReceiverInv(c: Suite, e: Exchange, sys: System, r: Receiver)
    requires Lawful(c)
  {
    r.phase.Done? ==> exists data :: Accepted(c, e, sys, r, data)
  }

  ghost predicate Inv(c: Suite, e: Exchange, sys: System)
    requires Lawful(c)
  {
    && (forall s :: 0 <= s < |sys.registries| ==> RegistryInv(sys, s))
    && (forall w :: 0 <= w < |sys.workers| ==> WorkerInv(c, e, sys, sys.workers[w]))
    && (forall i :: 0 <= i < |sys.table| ==> EntryInv(c, e, sys, sys.table[i]))
    && (forall r :: 0 <= r < |sys.receivers| ==> ReceiverInv(c, e, sys, sys.receivers[r]))
  }

  /** Receivers keep their keys, and what was registered and drawn stays so. */
  ghost predicate Grows(sys: System, next: System) {
    && |next.receivers| == |sys.receivers| && sys.registered <= next.registered && sys.draws <= next.draws
    && (forall r :: 0 <= r < |sys.receivers| ==>
      next.receivers[r].key == sys.receivers[r].key && next.receivers[r].priv == sys.receivers[r].priv)
  }

  lemma AskedStays(e: Exchange, sys: System, next: System, wire: Octets, rPub: PubKey)
    requires Grows(sys, next) && Asked(e, sys, wire, rPub)
    ensures Asked(e, next, wire, rPub)
  {
    var r :| 0 <= r < |sys.receivers| && WireOf(e, sys.receivers[r]) == wire && e.pub(sys.receivers[r].priv) == rPub;
    assert WireOf(e, next.receivers[r]) == wire;
  }

  lemma MadeForStays(c: Suite, e: Exchange, sys: System, next: System, wire: Octets, data: Octets)
    requires Lawful(c) && Grows(sys, next) && MadeFor(c, e, sys, wire, data)
    ensures MadeFor(c, e, next, wire, data)
  {
    var rPub: PubKey, k: Key, d: Draw :| IsAnswer(c, e, sys, wire, data, rPub, k, d);
    AskedStays(e, sys, next, wire, rPub);
    assert IsAnswer(c, e, next, wire, data, rPub, k, d);
  }

  lemma WorkerStays(c: Suite, e: Exchange, sys: System, next: System, w: Worker)
    requires Lawful(c) && Grows(sys, next) && WorkerInv(c, e, sys, w)
    ensures WorkerInv(c, e, next, w)
  {
    AskedStays(e, sys, next, w.wire, w.rPub);
    if w.data.Some? { MadeForStays(c, e, sys, next, w.wire, w.data.value); }
  }

  lemma EntryStays(c: Suite, e: Exchange, sys: System, next: System, p: Pending)
    requires Lawful(c) && Grows(sys, next) && EntryInv(c, e, sys, p)
    ensures EntryInv(c, e, next, p)
  {
    if p.inUse {
      AskedStays(e, sys, next, p.key, p.rPub);
      if p.ready { MadeForStays(c, e, sys, next, p.key, p.resp); }
    }
  }

  lemma ReceiverStays(c: Suite, e: Exchange, sys: System, next: System, r: Receiver)
    requires Lawful(c) && Grows(sys, next) && ReceiverInv(c, e, sys, r)
    ensures ReceiverInv(c, e, next, r)
  {
    if r.phase.Done? {
      var data :| Accepted(c, e, sys, r, data);
      MadeForStays(c, e, sys, next, WireOf(e, r), data);
      assert Accepted(c, e, next, r, data);
    }
  }

  /** A step keeps the invariant if it grows and what it puts in place is right. */
  lemma {:induction false} GrowthKeepsInv(c: Suite, e: Exchange, sys: System, next: System)
    requires Lawful(c) && Inv(c, e, sys) && Grows(sys, next)
    requires forall s :: 0 <= s < |next.registries| ==> RegistryInv(next, s)
    requires forall w :: 0 <= w < |next.workers| ==>
      next.workers[w] in sys.workers || WorkerInv(c, e, next, next.workers[w])
    requires forall i :: 0 <= i < |next.table| ==> next.table[i] in sys.table || EntryInv(c, e, next, next.table[i])
    requires forall r :: 0 <= r < |next.receivers| ==>
      next.receivers[r] in sys.receivers || ReceiverInv(c, e, next, next.receivers[r])
    ensures Inv(c, e, next)
  {
    forall w | 0 <= w < |next.workers| ensures WorkerInv(c, e, next, next.workers[w]) {
      if next.workers[w] in sys.workers { WorkerStays(c, e, sys, next, next.workers[w]); }
    }
    forall i | 0 <= i < |next.table| ensures EntryInv(c, e, next, next.table[i]) {
      if next.table[i] in sys.table { EntryStays(c, e, sys, next, next.table[i]); }
    }
    forall r | 0 <= r < |next.receivers| ensures ReceiverInv(c, e, next, next.receivers[r]) {
      if next.receivers[r] in sys.receivers { ReceiverStays(c, e, sys, next, next.receivers[r]); }
    }
  }

  lemma {:induction false} RegisterKeepsInv(c: Suite, e: Exchange, sys: System, s: nat, key: Octets, k: Key)
    requires Lawful(c) && Inv(c, e, sys) && s < |sys.registries|
    ensures Inv(c, e, Apply(c, e, sys, Register(s, key, k)))
  {
    var next := Apply(c, e, sys, Register(s, key, k));
    forall i | 0 <= i < |next.registries| ensures RegistryInv(next, i) { assert RegistryInv(sys, i); }
    GrowthKeepsInv(c, e, sys, next);
  }

  lemma {:induction false} InitKeepsInv(c: Suite, e: Exchange, sys: System, i: nat, now: nat)
    requires Lawful(c) && Inv(c, e, sys) && Enabled(e, sys, Init(i, now))
    ensures Inv(c, e, Apply(c, e, sys, Init(i, now)))
  {
    var r, next := sys.receivers[i], Apply(c, e, sys, Init(i, now));
    assert Asked(e, sys, WireOf(e, r), e.pub(r.priv));
    AskedStays(e, sys, next, WireOf(e, r), e.pub(r.priv));
    forall s | 0 <= s < |next.registries| ensures RegistryInv(next, s) { assert RegistryInv(sys, s); }
    GrowthKeepsInv(c, e, sys, next);
  }

  lemma {:induction false} HearKeepsInv(c: Suite, e: Exchange, sys: System, s: nat, i: nat)
    requires Lawful(c) && Inv(c, e, sys) && Enabled(e, sys, Hear(s, i))
    ensures Inv(c, e, Apply(c, e, sys, Hear(s, i)))
  {
    var next := Apply(c, e, sys, Hear(s, i));
    assert EntryInv(c, e, sys, sys.table[i]);
    AskedStays(e, sys, next, sys.table[i].key, sys.table[i].rPub);
    forall n | 0 <= n < |next.registries| ensures RegistryInv(next, n) { assert RegistryInv(sys, n); }
    GrowthKeepsInv(c, e, sys, next);
  }

  lemma {:induction false} PrepareKeepsInv(c: Suite, e: Exchange, sys: System, i: nat, d: Draw)
    requires Lawful(c) && Inv(c, e, sys) && Enabled(e, sys, Prepare(i, d))
    ensures Inv(c, e, Apply(c, e, sys, Prepare(i, d)))
  {
    var w, next := sys.workers[i], Apply(c, e, sys, Prepare(i, d));
    var k := LookupOwned(sys.registries[w.sender], Cut(w.wire));
    if k.Some? {
      assert RegistryInv(sys, w.sender) && WorkerInv(c, e, sys, w);
      AskedStays(e, sys, next, w.wire, w.rPub);
      assert IsAnswer(c, e, next, w.wire, AnswerData(c, e, w.rPub, k.value, d), w.rPub, k.value, d);
      forall n | 0 <= n < |next.registries| ensures RegistryInv(next, n) { assert RegistryInv(sys, n); }
      GrowthKeepsInv(c, e, sys, next);
    }
  }

  lemma {:induction false} DeliverKeepsInv(c: Suite, e: Exchange, sys: System, i: nat)
    requires Lawful(c) && Inv(c, e, sys) && Enabled(e, sys, Deliver(i))
    ensures Inv(c, e, Apply(c, e, sys, Deliver(i)))
  {
    var w, next := sys.workers[i], Apply(c, e, sys, Deliver(i));
    assert WorkerInv(c, e, sys, w);
    MadeForStays(c, e, sys, next, w.wire, w.data.value);
    var at := Find(sys.table, w.wire);
    if at.Some? {
      assert EntryInv(c, e, sys, sys.table[at.value]);
      AskedStays(e, sys, next, sys.table[at.value].key, sys.table[at.value].rPub);
    }
    forall n | 0 <= n < |next.registries| ensures RegistryInv(next, n) { assert RegistryInv(sys, n); }
    GrowthKeepsInv(c, e, sys, next);
  }

  /** A Receiver that is done after a poll has accepted what the poll returned. */
  lemma {:induction false} PolledIsAccepted(c: Suite, e: Exchange, sys: System, next: System, r: Receiver,
                                            after: Receiver,
                                            wire: WireKey, data: Octets)
    requires Lawful(c) && Grows(sys, next) && MadeFor(c, e, sys, wire, data) && AnswerFits(wire, data)
    requires wire == WireOf(e, r)
    requires Sendable(wire) && after == r.(phase := after.phase)
    requires after.phase.Done? ==> Finish(c, e, r.priv, r.pin, data) == Some(after.phase.k)
    ensures ReceiverInv(c, e, next, after)
  {
    MadeForStays(c, e, sys, next, wire, data);
    if after.phase.Done? { assert Accepted(c, e, next, after, data); }
  }

  lemma {:induction false} PollKeepsInv(c: Suite, e: Exchange, sys: System, i: nat, lost: bool)
    requires Lawful(c) && Inv(c, e, sys) && Enabled(e, sys, Poll(i, lost))
    ensures Inv(c, e, Apply(c, e, sys, Poll(i, lost)))
  {
    var r, next := sys.receivers[i], Apply(c, e, sys, Poll(i, lost));
    var wire: WireKey := WireOf(e, r);
    var data := Answer(sys.table, wire);
    StepGrows(c, e, sys, Poll(i, lost));
    if data.Some? && lost {
      forall n | 0 <= n < |next.registries| ensures RegistryInv(next, n) { assert RegistryInv(sys, n); }
      GrowthKeepsInv(c, e, sys, next);
    } else if data.Some? {
      var at := Find(sys.table, wire).value;
      assert EntryInv(c, e, sys, sys.table[at]);
      PolledIsAccepted(c, e, sys, next, r, next.receivers[i], wire, data.value);
      forall n | 0 <= n < |next.registries| ensures RegistryInv(next, n) { assert RegistryInv(sys, n); }
      GrowthKeepsInv(c, e, sys, next);
    }
  }

  lemma StepKeepsInv(c: Suite, e: Exchange, sys: System, step: Step)
    requires Lawful(c) && Inv(c, e, sys)
    ensures Inv(c, e, Apply(c, e, sys, step))
  {
    if Enabled(e, sys, step) {
      match step
      case Register(s, key, k) => RegisterKeepsInv(c, e, sys, s, key, k);
      case Init(i, now) => InitKeepsInv(c, e, sys, i, now);
      case Hear(s, i) => HearKeepsInv(c, e, sys, s, i);
      case Prepare(i, d) => PrepareKeepsInv(c, e, sys, i, d);
      case Deliver(i) => DeliverKeepsInv(c, e, sys, i);
      case Poll(i, lost) => PollKeepsInv(c, e, sys, i, lost);
    }
  }

  ghost predicate Beginning(start: System) {
    && start.workers == [] && start.registered == {}
    && (forall i :: 0 <= i < |start.table| ==> !start.table[i].inUse)
    && (forall s, i :: 0 <= s < |start.registries| && 0 <= i < |start.registries[s]| ==> !start.registries[s][i].inUse)
    && (forall r :: 0 <= r < |start.receivers| ==> start.receivers[r].phase == Asking)
  }

  lemma {:induction false} RunKeepsInv(c: Suite, e: Exchange, start: System, steps: seq<Step>)
    requires Lawful(c) && Beginning(start)
    ensures Inv(c, e, Run(c, e, start, steps))
  {
    if |steps| > 0 {
      RunKeepsInv(c, e, start, steps[..|steps| - 1]);
      StepKeepsInv(c, e, Run(c, e, start, steps[..|steps| - 1]), steps[|steps| - 1]);
    }
  }

  /**
   The session keys that can come up in a run: each Receiver's with each ephemeral key drawn, as either side
   derives them.
   */
  ghost function KeysOf(e: Exchange, sys: System): iset<Key> {
    (iset r: nat, d: Draw | r < |sys.receivers| && d in sys.draws ::
      DerivePlain(e, sys.receivers[r].priv, e.pub(d.ephemeral))) +
    (iset r: nat, d: Draw | r < |sys.receivers| && d in sys.draws ::
      DerivePlain(e, d.ephemeral, e.pub(sys.receivers[r].priv)))
  }

  /**
   Agreement: a Receiver whose handshake succeeds holds a K_content that some Sender registered for
   its content key, whoever else used the same wire key, if that key has no separator in it.
   */
  lemma ReceiverHoldsRegisteredKey(c: Suite, e: Exchange, start: System, steps: seq<Step>, r: nat)
    requires Lawful(c) && Beginning(start) && KeysCommit(c, KeysOf(e, Run(c, e, start, steps)))
    requires var sys := Run(c, e, start, steps);
      r < |sys.receivers| && sys.receivers[r].phase.Done? && SEPARATOR !in sys.receivers[r].key
    ensures var sys := Run(c, e, start, steps); (sys.receivers[r].key, sys.receivers[r].phase.k) in sys.registered
  {
    RunKeepsInv(c, e, start, steps);
    var sys := Run(c, e, start, steps);
    var receiver := sys.receivers[r];
    assert ReceiverInv(c, e, sys, receiver);
    CutRecoversIff(receiver.key, e.pub(receiver.priv));
    var data :| Accepted(c, e, sys, receiver, data);
    var rPub: PubKey, k: Key, d: Draw :| IsAnswer(c, e, sys, WireOf(e, receiver), data, rPub, k, d);
    FinishGivesWhatWasSealed(c, e, receiver.priv, receiver.pin, rPub, k, d, KeysOf(e, sys));
  }

  /**
   A Receiver that held a pinned identity and succeeded was given an answer, made for its wire key, whose
   signature verifies under that identity.
   */
  lemma DoneUnderPin(c: Suite, e: Exchange, start: System, steps: seq<Step>, r: nat)
    returns (rPub: PubKey, k: Key, d: Draw)
    requires Lawful(c) && Beginning(start)
    requires var sys := Run(c, e, start, steps);
      r < |sys.receivers| && sys.receivers[r].phase.Done? && sys.receivers[r].pin.Some?
    ensures var sys := Run(c, e, start, steps);
      && Asked(e, sys, WireOf(e, sys.receivers[r]), rPub) && d in sys.draws
      && (Cut(WireOf(e, sys.receivers[r])), k) in sys.registered
      && var signed := SignedPart(c, e, rPub, k, d);
        e.verify(sys.receivers[r].pin.value, signed, e.sign(d.identity, signed))
  {
    RunKeepsInv(c, e, start, steps);
    var sys := Run(c, e, start, steps);
    var receiver := sys.receivers[r];
    assert ReceiverInv(c, e, sys, receiver);
    var data :| Accepted(c, e, sys, receiver, data);
    rPub, k, d :| IsAnswer(c, e, sys, WireOf(e, receiver), data, rPub, k, d);
    ReadAnswer(c, e, rPub, k, d);
    ReadSignature(c, e, rPub, k, d);
    PinnedMustVerify(c, e, receiver.priv, receiver.pin.value, data);
  }

  // ---------------------------------------------------------------- answers that are too long

  /**
   Every Receiver that succeeds was given an answer whose signature, together with the content key,
   takes at most 79 bytes. Where all signatures are longer, no Receiver of that key is ever answered.
   */
  lemma AnsweredOnlyIfItFits(c: Suite, e: Exchange, start: System, steps: seq<Step>, r: nat)
    returns (rPub: PubKey, k: Key, d: Draw)
    requires Lawful(c) && Beginning(start)
    requires r < |Run(c, e, start, steps).receivers| && Run(c, e, start, steps).receivers[r].phase.Done?
    ensures var sys := Run(c, e, start, steps);
      && Asked(e, sys, WireOf(e, sys.receivers[r]), rPub) && d in sys.draws
      && |sys.receivers[r].key| + 5 <= MAX_TEXT && |sys.receivers[r].key| + |SignatureOf(c, e, rPub, k, d)| <= 79
  {
    RunKeepsInv(c, e, start, steps);
    var sys := Run(c, e, start, steps);
    var receiver := sys.receivers[r];
    assert ReceiverInv(c, e, sys, receiver);
    var data :| Accepted(c, e, sys, receiver, data);
    rPub, k, d :| IsAnswer(c, e, sys, WireOf(e, receiver), data, rPub, k, d);
    AnswerFitsIff(c, e, receiver.key, e.pub(receiver.priv), rPub, k, d);
  }

  // ---------------------------------------------------------------- what a Receiver can get

  lemma {:induction false} CutOfLonger(key: Octets, rest: Octets)
    requires SEPARATOR in key
    ensures Cut(key + rest) == Cut(key) != key
  {
    if key[0] != SEPARATOR {
      assert (key + rest)[1..] == key[1..] + rest;
      CutOfLonger(key[1..], rest);
    }
  }

  lemma {:induction false} CutOfWhole(key: Octets)
    requires SEPARATOR !in key
    ensures Cut(key) == key
  {
    if |key| > 0 { CutOfWhole(key[1..]); }
  }

  /** The Sender takes a wire key for the part of the content key before its first separator. */
  lemma CutOfWire(key: Text, ephemeral: PubKey)
    ensures Cut(WireKeyOf(key, ephemeral)) == Cut(key)
    ensures Cut(key) == key <==> SEPARATOR !in key
  {
    var rest := [SEPARATOR] + Hex(ephemeral[1]) + Hex(ephemeral[2]);
    assert WireKeyOf(key, ephemeral) == key + rest;
    if SEPARATOR in key {
      CutOfLonger(key, rest);
    } else {
      CutOfWhole(key);
      CutRecoversIff(key, ephemeral);
    }
  }

  /** One Sender registers the part before the separator; one Receiver asks for the whole key. */
  function StepAt(key: Text, k: Key, d: Draw, n: nat): Step {
    if n == 0 then Register(0, Cut(key), k)
    else if n == 1 then Init(0, 0)
    else if n == 2 then Hear(0, 0)
    else if n == 3 then Prepare(0, d)
    else if n == 4 then Deliver(0)
    else Poll(0, false)
  }

  function Steps(key: Text, k: Key, d: Draw, n: nat): (steps: seq<Step>)
    ensures |steps| == n
  {
    if n == 0 then [] else Steps(key, k, d, n - 1) + [StepAt(key, k, d, n - 1)]
  }

  function Alone(key: Text, priv: Priv): System { Start(1, [Receiver(key, priv, None, Asking)], 1, 1) }

  ghost function At(c: Suite, e: Exchange, key: Text, priv: Priv, k: Key, d: Draw, n: nat): System
    requires Lawful(c)
  {
    if n == 0 then Alone(key, priv) else Apply(c, e, At(c, e, key, priv, k, d, n - 1), StepAt(key, k, d, n - 1))
  }

  lemma {:induction false} AtIsRun(c: Suite, e: Exchange, key: Text, priv: Priv, k: Key, d: Draw, n: nat)
    requires Lawful(c)
    ensures At(c, e, key, priv, k, d, n) == Run(c, e, Alone(key, priv), Steps(key, k, d, n))
  {
    if n > 0 {
      AtIsRun(c, e, key, priv, k, d, n - 1);
      DropLast(Steps(key, k, d, n - 1), StepAt(key, k, d, n - 1));
    }
  }

  /** The key can be asked for, and the answer to it with these fresh values can be sent. */
  ghost predicate CanBeAnswered(c: Suite, e: Exchange, key: Text, priv: Priv, k: Key, d: Draw)
    requires Lawful(c)
  {
    |key| + 5 <= MAX_TEXT && |key| + |SignatureOf(c, e, e.pub(priv), k, d)| <= 79
  }

  /** The state after the first n steps, n up to 5. */
  ghost function Expected(c: Suite, e: Exchange, key: Text, priv: Priv, k: Key, d: Draw, n: nat): System
    requires Lawful(c) && |key| + 5 <= MAX_TEXT
  {
    var wire, rPub := WireKeyOf(key, e.pub(priv)), e.pub(priv);
    var answer := AnswerData(c, e, rPub, k, d);
    if n == 0 then Alone(key, priv)
    else
      System([if n < 2 then NoPending() else Pending(true, wire, rPub, n == 5, if n == 5 then answer else [], 0)],
             [Receiver(key, priv, None, if n < 2 then Asking else Polling)],
             [[Owned(true, Cut(key), k)]],
             if n < 3 then [] else [Worker(0, wire, rPub, if n < 4 then None else Some(answer))],
             {(Cut(key), k)}, if n < 4 then {} else {d})
  }

  lemma FirstSteps(c: Suite, e: Exchange, key: Text, priv: Priv, k: Key, d: Draw, n: nat)
    requires Lawful(c) && |key| + 5 <= MAX_TEXT && n < 2
    ensures Apply(c, e, Expected(c, e, key, priv, k, d, n), StepAt(key, k, d, n))
         == Expected(c, e, key, priv, k, d, n + 1)
  {
    var none, wire: WireKey := Owned(false, [], Zeros(AES_KEY_LEN)), WireKeyOf(key, e.pub(priv));
    assert Alone(key, priv).table == [NoPending()];
    assert Alone(key, priv).registries[0] == [none];
    assert Remembered([none], Cut(key), k) == [Owned(true, Cut(key), k)];
    assert {} + {(Cut(key), k)} == {(Cut(key), k)};
    assert Find([NoPending()], wire) == None && FirstWhere(CanReuse(0), [NoPending()], 0) == Some(0);
  }

  lemma {:induction false} NextSteps(c: Suite, e: Exchange, key: Text, priv: Priv, k: Key, d: Draw, n: nat)
    requires Lawful(c) && CanBeAnswered(c, e, key, priv, k, d) && 2 <= n < 5
    ensures Apply(c, e, Expected(c, e, key, priv, k, d, n), StepAt(key, k, d, n))
         == Expected(c, e, key, priv, k, d, n + 1)
  {
    CutOfWire(key, e.pub(priv));
    AnswerFitsIff(c, e, key, e.pub(priv), e.pub(priv), k, d);
    assert FindOwned([Owned(true, Cut(key), k)], Cut(key)) == Some(0);
    var sys, wire: WireKey := Expected(c, e, key, priv, k, d, n), WireKeyOf(key, e.pub(priv));
    assert Find(sys.table, wire) == Some(0);
    assert {} + {d} == {d};
  }

  lemma {:induction false} ThenAnswered(c: Suite, e: Exchange, key: Text, priv: Priv, k: Key, d: Draw, n: nat)
    requires Lawful(c) && CanBeAnswered(c, e, key, priv, k, d) && n <= 5
    ensures At(c, e, key, priv, k, d, n) == Expected(c, e, key, priv, k, d, n)
  {
    if n > 0 {
      ThenAnswered(c, e, key, priv, k, d, n - 1);
      if n <= 2 { FirstSteps(c, e, key, priv, k, d, n - 1); } else { NextSteps(c, e, key, priv, k, d, n - 1); }
    }
  }

  /** A poll that is answered acceptably completes the handshake. */
  lemma PollCompletes(c: Suite, e: Exchange, sys: System, r: Receiver, wire: WireKey, data: Octets, k: Key)
    requires Lawful(c) && sys.receivers == [r] && r.phase.Polling? && wire == WireOf(e, r) && Sendable(wire)
    requires Answer(sys.table, wire) == Some(data) && Finish(c, e, r.priv, r.pin, data) == Some(k)
    ensures Apply(c, e, sys, Poll(0, false)).receivers == [r.(phase := Done(k))]
    ensures Apply(c, e, sys, Poll(0, false)).registered == sys.registered
  {
  }

  /**
   Whatever fits is delivered: a run in which the Receiver gets the K_content of the part before the first
   separator.
   */
  lemma WhatFitsIsDelivered(c: Suite, e: Exchange, key: Text, priv: Priv, k: Key, d: Draw)
    requires Lawful(c) && LawfulExchange(e) && CanBeAnswered(c, e, key, priv, k, d)
    ensures var sys := Run(c, e, Alone(key, priv), Steps(key, k, d, 6));
      && sys.receivers == [Receiver(key, priv, None, Done(k))] && sys.registered == {(Cut(key), k)}
  {
    ThenAnswered(c, e, key, priv, k, d, 5);
    AtIsRun(c, e, key, priv, k, d, 6);
    FinishAcceptsOwn(c, e, priv, None, k, d);
    var sys, wire: WireKey := Expected(c, e, key, priv, k, d, 5), WireKeyOf(key, e.pub(priv));
    assert Find(sys.table, wire) == Some(0);
    PollCompletes(c, e, sys, Receiver(key, priv, None, Polling), wire, AnswerData(c, e, e.pub(priv), k, d), k);
  }

  /**
   Without that condition agreement fails: for every content key with a separator in it, if its
   answer can be sent, there is a run in which its Receiver succeeds with the K_content of the part
   before the separator, and nothing was ever registered under the key itself.
   */
  lemma SeparatorMisleads(c: Suite, e: Exchange, key: Text, priv: Priv, k: Key, d: Draw)
    requires Lawful(c) && LawfulExchange(e) && CanBeAnswered(c, e, key, priv, k, d) && SEPARATOR in key
    ensures var sys := Run(c, e, Alone(key, priv), Steps(key, k, d, 6));
      && sys.receivers == [Receiver(key, priv, None, Done(k))]
      && sys.registered == {(Cut(key), k)} && Cut(key) != key
  {
    WhatFitsIsDelivered(c, e, key, priv, k, d);
    CutOfWire(key, e.pub(priv));
  }

  lemma StepGrows(c: Suite, e: Exchange, sys: System, step: Step)
    requires Lawful(c)
    ensures Grows(sys, Apply(c, e, sys, step))
  {
  }

  lemma {:induction false} RunGrows(c: Suite, e: Exchange, start: System, steps: seq<Step>)
    requires Lawful(c)
    ensures Grows(start, Run(c, e, start, steps))
  {
    if |steps| > 0 {
      RunGrows(c, e, start, steps[..|steps| - 1]);
      StepGrows(c, e, Run(c, e, start, steps[..|steps| - 1]), steps[|steps| - 1]);
    }
  }

  ghost predicate Succeeds(c: Suite, e: Exchange, key: Text, priv: Priv, steps: seq<Step>)
    requires Lawful(c)
  {
    var sys := Run(c, e, Alone(key, priv), steps); |sys.receivers| == 1 && sys.receivers[0].phase.Done?
  }

  /** A Receiver can succeed if and only if its key can be asked for and some answer to it can be sent. */
  lemma AnsweredIff(c: Suite, e: Exchange, key: Text, priv: Priv)
    requires Lawful(c) && LawfulExchange(e)
    ensures (exists steps :: Succeeds(c, e, key, priv, steps)) <==>
      (exists k: Key, d: Draw :: CanBeAnswered(c, e, key, priv, k, d))
  {
    if steps :| Succeeds(c, e, key, priv, steps) {
      var rPub, k, d := AnsweredOnlyIfItFits(c, e, Alone(key, priv), steps, 0);
      RunGrows(c, e, Alone(key, priv), steps);
      assert CanBeAnswered(c, e, key, priv, k, d);
    }
    if k: Key, d: Draw :| CanBeAnswered(c, e, key, priv, k, d) {
      WhatFitsIsDelivered(c, e, key, priv, k, d);
      assert Succeeds(c, e, key, priv, Steps(key, k, d, 6));
    }
  }
}

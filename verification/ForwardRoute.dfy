/**
 The way of a forward packet through the session tables of the mix nodes to the session that the
 gateway finds for it. A node finds the session by the packet's hint, peels, confirms, checks for
 replays, absorbs what is marked to end there, and sends the rest on to the port it was told.
 */
module ForwardRoute {
  import opened Common
  import opened Bytes
  import opened Crypto
  import opened Sequences
  import opened MixSessions
  import MixSessionRuns
  import MixHandling
  import opened Sphinx
  import ReturnPath
  import Gateway

  /** The tick count and the random filler that a node uses on a packet. */
  datatype Visit = Visit(now: nat, fill: Filler)

  type Filler = f: Octets | |f| == HEADER_BLOCK_SIZE witness Zeros(HEADER_BLOCK_SIZE)

  datatype Outcome = Dropped | Absorbed | SentOn(port: Port, pkt: Octets)

  predicate FitsHops(hops: nat, pkt: Octets) { hops > 0 && |pkt| == hops * HEADER_BLOCK_SIZE + PAYLOAD_SECTION_SIZE }

  predicate IsAllowedPort(port: Port) { ReturnPath.IsNodePort(port) || ReturnPath.IsResponsePort(port) }

  /** Where a packet goes once it is peeled and its nonce is accepted; only decoy builds look at the flag. */
  function Onward(decoys: bool, info: HopInfo, out: Octets): Outcome {
    if decoys && info.flag == HOP_DROP_MARKER then Absorbed
    else if !IsAllowedPort(info.port) then Dropped
    else SentOn(info.port, out)
  }

  /** handle_data on a packet of `hops` blocks, with the node's session table and what becomes of it. */
  ghost function HandleData(c: Suite, derive: Derive, decoys: bool, hops: nat, t: seq<Session>, pkt: Octets,
                            visit: Visit)
    : (r: (Outcome, seq<Session>))
    requires FitsHops(hops, pkt)
    ensures r.0.SentOn? ==> |r.0.pkt| == |pkt|
  {
    match FoundBy(t, OuterHint(pkt))
    case None => (Dropped, t)
    case Some(m) =>
      var active := t[m.idx := t[m.idx].(lastActive := visit.now)];
      match Peel(c, hops, pkt, m.keys.headerEnc, m.keys.headerMac, visit.fill)
      case None => (Dropped, active)
      case Some((info, out)) =>
        var confirmed := Confirmed(derive, active, m.idx, m.generation, m.domain, m.windowIdx);
        var ring := confirmed[m.idx].seen;
        if !RingValid(ring) || info.nonce in Recent(ring) then (Dropped, confirmed)
        else (Onward(decoys, info, out), confirmed[m.idx := confirmed[m.idx].(seen := Push(ring, info.nonce))])
  }

  /** The handler itself, one locked operation of the table after the other. */
  method Handle(c: Suite, decoys: bool, hops: nat, table: SessionTable, pkt: Octets, now: nat,
                random: Octets) returns (outcome: Outcome)
    requires table.Valid() && FitsHops(hops, pkt) && |random| == |pkt|
    modifies table.sessions
    ensures table.Valid()
    ensures var fill := random[(hops - 1) * HEADER_BLOCK_SIZE..hops * HEADER_BLOCK_SIZE];
      (outcome, table.sessions[..]) == HandleData(c, table.derive, decoys, hops, old(table.sessions[..]), pkt,
                                                  Visit(now, fill))
  {
    var hint := OuterHint(pkt);
    var m := table.SessionFind(hint, now);
    ReportIsFoundBy(old(table.sessions[..]), hint, m);
    if m.None? { return Dropped; }
    var Match(idx, generation, domain, windowIdx, keys) := m.value;
    var peeled := PeelOff(c, hops, pkt, keys, random);
    if peeled.None? { return Dropped; }
    var (info, out) := peeled.value;
    table.SessionConfirmHintMatch(idx, generation, domain, windowIdx);
    var drop := table.SessionCheckNonceByIdx(idx, generation, Forward, info.nonce);
    if drop { return Dropped; }
    outcome := Onward(decoys, info, out);
  }

  method PeelOff(c: Suite, hops: nat, pkt: Octets, keys: Keys,
                 random: Octets) returns (peeled: Option<(HopInfo, Octets)>)
    requires FitsHops(hops, pkt) && |random| == |pkt|
    ensures peeled
         == Peel(c, hops, pkt, keys.headerEnc, keys.headerMac,
                 random[(hops - 1) * HEADER_BLOCK_SIZE..hops * HEADER_BLOCK_SIZE])
  {
    var buffer, out := new byte[|pkt|](_ => 0), new byte[|pkt|](_ => 0);
    Copy(buffer, 0, pkt);
    assert buffer[..] == pkt;
    var info := PacketSphinxPeel(c, hops, buffer, keys.headerEnc, keys.headerMac, random, out);
    peeled := if info.None? then None else Some((info.value, out[..]));
  }

  // ---------------------------------------------------------------- what a node makes of any packet

  /** Whether the MAC of the outermost block is right under the keys found, and what that block carries. */
  predicate Genuine(c: Suite, pkt: Octets, keys: Keys)
    requires |pkt| >= HEADER_BLOCK_SIZE
  {
    c.hmac(keys.headerMac, pkt[..47])[..16] == pkt[47..63]
  }

  function NonceIn(c: Suite, pkt: Octets, keys: Keys): Octets
    requires |pkt| >= HEADER_BLOCK_SIZE
  {
    CtrXor(c, keys.headerEnc, ZERO_IV, pkt[39..47])
  }

  function RoutingIn(c: Suite, pkt: Octets, keys: Keys): (r: Octets)
    requires |pkt| >= HEADER_BLOCK_SIZE
    ensures |r| == 39
  {
    CtrXor(c, keys.headerEnc, DeriveIv(c, pkt[39..47]), pkt[..39])
  }

  /** The ports of mix nodes, gateways and response listeners. */
  predicate IsOnAllowlist(port: nat) {
    9004 <= port <= 9010 || port == 9012 || 9020 <= port <= 9061 || 9100 <= port <= 9199
  }

  lemma PeelsBlock(c: Suite, hops: nat, pkt: Octets, keys: Keys, fill: Filler)
    requires FitsHops(hops, pkt)
    ensures var r := Peel(c, hops, pkt, keys.headerEnc, keys.headerMac, fill);
      && (r.Some? <==> Genuine(c, pkt, keys))
      && (r.Some? ==>
        && r.value.0.nonce == NonceIn(c, pkt, keys)
        && var rest := RoutingIn(c, pkt, keys);
          && r.value.0.port == 256 * rest[4] as int + rest[5] as int && r.value.0.flag == rest[38]
          && r.value.1 == pkt[95..hops * 95] + fill
                          + CtrXor(c, rest[6..38], DeriveIv(c, pkt[39..47]), pkt[hops * 95..]))
  {
    PeelIff(c, hops, pkt, keys.headerEnc, keys.headerMac, fill);
    if Genuine(c, pkt, keys) { PeeledNonce(c, hops, pkt, keys.headerEnc, keys.headerMac, fill); }
    assert pkt[..MACED_BYTES][REST_BYTES..] == pkt[39..47] && pkt[..MACED_BYTES][..REST_BYTES] == pkt[..39];
  }

  /**
   Unless its MAC is right and its nonce new, a packet is dropped. Otherwise a decoy build absorbs it if it
   carries the drop marker; else it goes on, a block shorter and a layer off, if its port is on the allowlist.
   */
  predicate Treated(c: Suite, decoys: bool, hops: nat, pkt: Octets, keys: Keys, seen: bool, fill: Filler,
                    outcome: Outcome)
    requires FitsHops(hops, pkt)
  {
    match keys
    case Keys(_, _, _) =>
      var rest := RoutingIn(c, pkt, keys);
      var port := 256 * rest[4] as int + rest[5] as int;
      if !Genuine(c, pkt, keys) || seen then outcome.Dropped?
      else if decoys && rest[38] == 0xC3 then outcome.Absorbed?
      else if !IsOnAllowlist(port) then outcome.Dropped?
      else
        outcome == SentOn(port, pkt[95..hops * 95] + fill
                                + CtrXor(c, rest[6..38], DeriveIv(c, pkt[39..47]), pkt[hops * 95..]))
  }

  lemma {:induction false} PeeledIsTreated(c: Suite, decoys: bool, hops: nat, pkt: Octets, keys: Keys, fill: Filler)
    requires FitsHops(hops, pkt)
    ensures var r := Peel(c, hops, pkt, keys.headerEnc, keys.headerMac, fill);
      if r.None? then !Genuine(c, pkt, keys)
      else
        && Genuine(c, pkt, keys) && r.value.0.nonce == NonceIn(c, pkt, keys)
        && Treated(c, decoys, hops, pkt, keys, false, fill, Onward(decoys, r.value.0, r.value.1))
  {
    PeelsBlock(c, hops, pkt, keys, fill);
  }

  /**
   What becomes of a packet and of the table, whatever packet it is: see Treated for the packet. Nothing
   happens to the table if no session is found. A packet with a wrong MAC leaves windows and rings alone; any
   other is counted in its window, and a new nonce recorded.
   */
  lemma {:induction false} WhatHandlingDoes(c: Suite, derive: Derive, decoys: bool, hops: nat, t: seq<Session>,
                                            pkt: Octets, visit: Visit)
    requires FitsHops(hops, pkt) && TableValid(derive, t)
    ensures var (outcome, u) := HandleData(c, derive, decoys, hops, t, pkt, visit);
      match FoundBy(t, OuterHint(pkt))
      case None => outcome.Dropped? && u == t
      case Some(m) =>
        && IsFound(t, OuterHint(pkt), m) && RingValid(t[m.idx].seen) && TableValid(derive, u)
        && MixHandling.Handled(derive, Forward, t, u, m, visit.now, Genuine(c, pkt, m.keys), NonceIn(c, pkt, m.keys))
        && Treated(c, decoys, hops, pkt, m.keys, NonceIn(c, pkt, m.keys) in Recent(t[m.idx].seen), visit.fill, outcome)
  {
    match FoundBy(t, OuterHint(pkt))
    case None =>
    case Some(m) =>
      PeeledIsTreated(c, decoys, hops, pkt, m.keys, visit.fill);
      MixHandling.HandledAsStated(derive, Forward, t, OuterHint(pkt), m, visit.now, Genuine(c, pkt, m.keys),
                                  NonceIn(c, pkt, m.keys));
  }

  /** Handling any packet carries every session in use, in both directions. */
  lemma {:induction false} HandlingCarries(c: Suite, derive: Derive, decoys: bool, hops: nat, t: seq<Session>,
                                           pkt: Octets, visit: Visit, i: nat, dir: Direction)
    requires FitsHops(hops, pkt) && TableValid(derive, t) && i < |t| && t[i].inUse
    ensures MixHandling.Carries(derive, dir, t, HandleData(c, derive, decoys, hops, t, pkt, visit).1, i)
  {
    HandlingPushesOne(c, derive, decoys, hops, t, pkt, visit, i, dir);
    WhatHandlingDoes(c, derive, decoys, hops, t, pkt, visit);
  }

  lemma {:induction false} HandlingPushesOne(c: Suite, derive: Derive, decoys: bool, hops: nat, t: seq<Session>,
                                             pkt: Octets, visit: Visit, i: nat, dir: Direction)
    requires FitsHops(hops, pkt) && TableValid(derive, t) && i < |t| && t[i].inUse
    ensures var u := HandleData(c, derive, decoys, hops, t, pkt, visit).1;
      |u| == |t| &&
      (RingOf(u[i], dir) == RingOf(t[i], dir) || MixHandling.OnePushed(RingOf(t[i], dir), RingOf(u[i], dir)))
  {
    assert SessionValid(derive, t[i]);
  }

  /**
   A node that has sent on or absorbed a packet drops the same bytes whenever they come again, whatever
   happens to its table in between, as long as the session stays and takes fewer than 1024 other nonces.
   */
  lemma {:induction false} ReplayIsDropped(c: Suite, derive: Derive, decoys: bool, hops: nat, t: seq<Session>,
                                           pkt: Octets, visit: Visit, between: seq<seq<Session>>, again: Visit)
    requires FitsHops(hops, pkt) && TableValid(derive, t) && MixSessionRuns.HintsDistinguish(derive, t)
    requires !HandleData(c, derive, decoys, hops, t, pkt, visit).0.Dropped?
    requires var i := FoundBy(t, OuterHint(pkt)).value.idx;
      && MixHandling.History(derive, Forward, between, i) && MixHandling.Taken(Forward, between, i) < REPLAY_WINDOW
      && between[0] == HandleData(c, derive, decoys, hops, t, pkt, visit).1
      && MixSessionRuns.HintsDistinguish(derive, between[|between| - 1])
    ensures HandleData(c, derive, decoys, hops, between[|between| - 1], pkt, again).0 == Dropped
  {
    var m := FoundBy(t, OuterHint(pkt)).value;
    WhatHandlingDoes(c, derive, decoys, hops, t, pkt, visit);
    WhatHandlingDoes(c, derive, decoys, hops, between[|between| - 1], pkt, again);
    MixHandling.StillHeld(derive, Forward, t, OuterHint(pkt), m, visit.now, NonceIn(c, pkt, m.keys), between);
  }

  // ---------------------------------------------------------------- along the path

  type Network = map<Port, seq<Session>>

  /** Where a packet ends: absorbed at a node, or handed to a port that is no mix node's. */
  datatype End = AbsorbedAt(port: Port) | HandedTo(port: Port, pkt: Octets)

  /** Follows the packet from the node at `at`, one visit per node; None if it is lost. */
  ghost function Route(c: Suite, derive: Derive, decoys: bool, hops: nat, nodes: Network, at: Port, pkt: Octets,
                       visits: seq<Visit>): Option<End>
    requires FitsHops(hops, pkt)
    decreases |visits|
  {
    if at !in nodes then Some(HandedTo(at, pkt))
    else if |visits| == 0 then None
    else
      var (outcome, t) := HandleData(c, derive, decoys, hops, nodes[at], pkt, visits[0]);
      match outcome
      case Dropped => None
      case Absorbed => Some(AbsorbedAt(at))
      case SentOn(to, out) => Route(c, derive, decoys, hops, nodes[at := t], to, out, visits[1..])
  }

  /** The table finds the session of hop i for this packet counter, and its ring does not hold the nonce. */
  ghost predicate Serves(c: Suite, derive: Derive, t: seq<Session>, hop: Hop, counter: nat, nonce: Octets) {
    match hop
    case Hop(headerEnc, headerMac, _, hintSeed) =>
      && TableValid(derive, t) && FoundBy(t, HopHint(c, hintSeed, counter)).Some?
      && var m := FoundBy(t, HopHint(c, hintSeed, counter)).value;
        m.keys.headerEnc == headerEnc && m.keys.headerMac == headerMac && nonce !in Recent(t[m.idx].seen)
  }

  /** Hints are those that packets carry. */
  function PacketHints(c: Suite): Derive { (seed: Key, counter: nat) => HopHint(c, seed, counter) }

  /** A hop whose packet counter lies in its session's window is served, among any number of other sessions. */
  lemma ServedInWindow(c: Suite, t: seq<Session>, i: nat, hop: Hop, counter: nat, nonce: Octets)
    requires TableValid(PacketHints(c), t) && MixSessionRuns.HintsDistinguish(PacketHints(c), t) && i < |t|
    requires t[i].inUse
    requires |t[i].windows| == 2 && MixSessionRuns.InWindow(t[i].windows[0], counter)
    requires t[i].seed == hop.hintSeed && t[i].keys.headerEnc == hop.headerEnc && t[i].keys.headerMac == hop.headerMac
    requires nonce !in Recent(t[i].seen)
    ensures Serves(c, PacketHints(c), t, hop, counter, nonce)
  {
    MixSessionRuns.FoundAtPlace(PacketHints(c), t, i, counter);
    ReportIsFoundBy(t, HopHint(c, hop.hintSeed, counter),
                    Some(Match(i, t[i].generation, 0, counter - t[i].windows[0].base, t[i].keys)));
  }

  /** A packet and the path it was built for. */
  datatype Journey = Journey(path: Path, nonces: seq<Octets>, section: Octets, counter: nat, dropAt: int)

  /** The packet at hop i, and the tables of the nodes. */
  datatype Trip = Trip(nodes: Network, i: nat, pkt: Octets, visits: seq<Visit>)

  function PortAt(path: Path, i: nat): Port
    requires path.Valid() && i <= |path.hops|
  {
    if i == 0 then path.ports[0] else NextPort(path, i - 1)
  }

  ghost predicate JourneyOk(j: Journey) {
    match j
    case Journey(path, nonces, section, _, _) =>
      && path.Valid() && NoncesFor(path, nonces) && |section| == PAYLOAD_SECTION_SIZE
      && (forall i, k :: 0 <= i < k <= |path.hops| ==> PortAt(path, i) != PortAt(path, k))
      && (forall i :: 0 < i <= |path.hops| ==> IsAllowedPort(PortAt(path, i)))
  }

  /** Hops i, i+1, .. are served by the nodes at their ports, and the port behind the last is no node's. */
  ghost predicate PathUp(c: Suite, derive: Derive, nodes: Network, j: Journey, i: nat)
    requires JourneyOk(j) && i <= |j.path.hops|
  {
    && (forall k :: i <= k < |j.path.hops| ==> NodeServes(c, derive, nodes, j, k))
    && PortAt(j.path, |j.path.hops|) !in nodes
  }

  ghost predicate NodeServes(c: Suite, derive: Derive, nodes: Network, j: Journey, k: nat)
    requires JourneyOk(j) && k < |j.path.hops|
  {
    match j
    case Journey(path, nonces, _, counter, _) =>
      PortAt(path, k) in nodes && Serves(c, derive, nodes[PortAt(path, k)], path.hops[k], counter, nonces[k])
  }

  ghost predicate Underway(c: Suite, derive: Derive, j: Journey, trip: Trip) {
    match trip
    case Trip(nodes, i, pkt, visits) =>
      && JourneyOk(j) && i <= |j.path.hops| && PathUp(c, derive, nodes, j, i) && |visits| >= |j.path.hops| - i
      && Arriving(c, j.path, j.nonces, j.section, j.counter, j.dropAt, i, pkt)
  }

  /**
   One node of the path absorbs the packet if it is marked for it, or sends it on with its block and its
   layer removed.
   */
  lemma {:induction false} HandleOne(c: Suite, derive: Derive, decoys: bool, j: Journey, i: nat, t: seq<Session>,
                                     pkt: Octets, visit: Visit)
    returns (out: Octets)
    requires JourneyOk(j) && i < |j.path.hops| && Serves(c, derive, t, j.path.hops[i], j.counter, j.nonces[i])
    requires Arriving(c, j.path, j.nonces, j.section, j.counter, j.dropAt, i, pkt)
    ensures FitsHops(|j.path.hops|, pkt) && Arriving(c, j.path, j.nonces, j.section, j.counter, j.dropAt, i + 1, out)
    ensures HandleData(c, derive, decoys, |j.path.hops|, t, pkt, visit).0
         == if decoys && i == j.dropAt then Absorbed else SentOn(PortAt(j.path, i + 1), out)
  {
    var hop := j.path.hops[i];
    PeelOne(c, j.path, j.nonces, j.section, j.counter, j.dropAt, i, pkt, visit.fill);
    out := Peel(c, |j.path.hops|, pkt, hop.headerEnc, hop.headerMac, visit.fill).value.1;
    assert IsAllowedPort(PortAt(j.path, i + 1));
  }

  /** The same packet with its MAC field changed is dropped, and no window or ring notices it. */
  lemma {:induction false} ForgedIsDropped(c: Suite, derive: Derive, decoys: bool, j: Journey, i: nat, t: seq<Session>,
                                           pkt: Octets, mac: Octets, visit: Visit)
    requires JourneyOk(j) && i < |j.path.hops| && Serves(c, derive, t, j.path.hops[i], j.counter, j.nonces[i])
    requires Arriving(c, j.path, j.nonces, j.section, j.counter, j.dropAt, i, pkt)
    requires |mac| == MAC_BYTES && WithMac(pkt, mac) != pkt
    ensures FitsHops(|j.path.hops|, WithMac(pkt, mac))
    ensures var (outcome, u) := HandleData(c, derive, decoys, |j.path.hops|, t, WithMac(pkt, mac), visit);
      && outcome.Dropped? && |u| == |t|
      && forall k :: 0 <= k < |t| ==>
        u[k].windows == t[k].windows && u[k].seen == t[k].seen && u[k].seenReturn == t[k].seenReturn
  {
    ChangedMacIsRefused(c, j.path, j.nonces, j.section, j.counter, j.dropAt, i, pkt, mac, visit.fill);
  }

  /** Where a trip ends. */
  ghost function RouteOf(c: Suite, derive: Derive, decoys: bool, j: Journey, trip: Trip): Option<End> {
    match trip
    case Trip(nodes, i, pkt, visits) =>
      if j.path.Valid() && i <= |j.path.hops| && FitsHops(|j.path.hops|, pkt)
      then Route(c, derive, decoys, |j.path.hops|, nodes, PortAt(j.path, i), pkt, visits)
      else None
  }

  /** Once a node has handled it, it is under way on the rest of the path. */
  lemma {:induction false} RestIsUnderway(c: Suite, derive: Derive, j: Journey, trip: Trip, out: Octets,
                                          t: seq<Session>)
    requires Underway(c, derive, j, trip) && trip.i < |j.path.hops|
    requires Arriving(c, j.path, j.nonces, j.section, j.counter, j.dropAt, trip.i + 1, out)
    ensures Underway(c, derive, j, Trip(trip.nodes[PortAt(j.path, trip.i) := t], trip.i + 1, out, trip.visits[1..]))
  {
    var at := PortAt(j.path, trip.i);
    var nodes := trip.nodes[at := t];
    forall k | trip.i + 1 <= k < |j.path.hops| ensures NodeServes(c, derive, nodes, j, k) {
      assert NodeServes(c, derive, trip.nodes, j, k) && PortAt(j.path, k) != at;
    }
    assert PortAt(j.path, |j.path.hops|) != at;
  }

  /** One step of the way. */
  lemma {:induction false} RouteStep(c: Suite, derive: Derive, decoys: bool, hops: nat, nodes: Network, at: Port,
                                     pkt: Octets, visits: seq<Visit>, to: Port, out: Octets)
    requires FitsHops(hops, pkt) && at in nodes && |visits| > 0
    requires HandleData(c, derive, decoys, hops, nodes[at], pkt, visits[0]).0 == SentOn(to, out)
    ensures |out| == |pkt|
    ensures var t := HandleData(c, derive, decoys, hops, nodes[at], pkt, visits[0]).1;
      Route(c, derive, decoys, hops, nodes, at, pkt, visits)
      == Route(c, derive, decoys, hops, nodes[at := t], to, out, visits[1..])
  {
  }

  lemma {:induction false} SentOnward(c: Suite, derive: Derive, decoys: bool, j: Journey, i: nat, nodes: Network,
                                      pkt: Octets, visits: seq<Visit>)
    returns (out: Octets, t: seq<Session>)
    requires JourneyOk(j) && i < |j.path.hops| && !(decoys && i == j.dropAt) && |visits| > 0
    requires NodeServes(c, derive, nodes, j, i)
    requires Arriving(c, j.path, j.nonces, j.section, j.counter, j.dropAt, i, pkt)
    ensures FitsHops(|j.path.hops|, pkt) && |out| == |pkt|
    ensures Arriving(c, j.path, j.nonces, j.section, j.counter, j.dropAt, i + 1, out)
    ensures Route(c, derive, decoys, |j.path.hops|, nodes, PortAt(j.path, i), pkt, visits)
         == Route(c, derive, decoys, |j.path.hops|, nodes[PortAt(j.path, i) := t], PortAt(j.path, i + 1), out,
                  visits[1..])
  {
    var at := PortAt(j.path, i);
    out := HandleOne(c, derive, decoys, j, i, nodes[at], pkt, visits[0]);
    t := HandleData(c, derive, decoys, |j.path.hops|, nodes[at], pkt, visits[0]).1;
    RouteStep(c, derive, decoys, |j.path.hops|, nodes, at, pkt, visits, PortAt(j.path, i + 1), out);
  }

  lemma {:induction false} TripGoesOn(c: Suite, derive: Derive, decoys: bool, j: Journey, trip: Trip, out: Octets,
                                      t: seq<Session>)
    requires j.path.Valid() && trip.i < |j.path.hops| && |trip.visits| > 0
    requires FitsHops(|j.path.hops|, trip.pkt) && |out| == |trip.pkt|
    requires Route(c, derive, decoys, |j.path.hops|, trip.nodes, PortAt(j.path, trip.i), trip.pkt, trip.visits)
          == Route(c, derive, decoys, |j.path.hops|, trip.nodes[PortAt(j.path, trip.i) := t],
                   PortAt(j.path, trip.i + 1), out, trip.visits[1..])
    ensures RouteOf(c, derive, decoys, j, trip)
         == RouteOf(c, derive, decoys, j,
                    Trip(trip.nodes[PortAt(j.path, trip.i) := t], trip.i + 1, out, trip.visits[1..]))
  {
  }

  lemma {:induction false} StopPassed(c: Suite, derive: Derive, decoys: bool, j: Journey, trip: Trip)
    returns (out: Octets, t: seq<Session>)
    requires JourneyOk(j) && trip.i < |j.path.hops| && !(decoys && trip.i == j.dropAt) && |trip.visits| > 0
    requires NodeServes(c, derive, trip.nodes, j, trip.i)
    requires Arriving(c, j.path, j.nonces, j.section, j.counter, j.dropAt, trip.i, trip.pkt)
    ensures Arriving(c, j.path, j.nonces, j.section, j.counter, j.dropAt, trip.i + 1, out)
    ensures RouteOf(c, derive, decoys, j, trip)
         == RouteOf(c, derive, decoys, j,
                    Trip(trip.nodes[PortAt(j.path, trip.i) := t], trip.i + 1, out, trip.visits[1..]))
  {
    out, t := SentOnward(c, derive, decoys, j, trip.i, trip.nodes, trip.pkt, trip.visits);
    TripGoesOn(c, derive, decoys, j, trip, out, t);
  }

  /** What the next node sees of it. */
  lemma {:induction false} NodeIsUp(c: Suite, derive: Derive, j: Journey, trip: Trip)
    requires Underway(c, derive, j, trip) && trip.i < |j.path.hops|
    ensures |trip.visits| > 0 && NodeServes(c, derive, trip.nodes, j, trip.i)
    ensures Arriving(c, j.path, j.nonces, j.section, j.counter, j.dropAt, trip.i, trip.pkt)
  {
  }

  /** A node that is not the packet's end sends it on. */
  lemma {:induction false} NextStop(c: Suite, derive: Derive, decoys: bool, j: Journey, trip: Trip) returns (next: Trip)
    requires Underway(c, derive, j, trip) && trip.i < |j.path.hops| && !(decoys && trip.i == j.dropAt)
    ensures Underway(c, derive, j, next) && next.i == trip.i + 1
    ensures RouteOf(c, derive, decoys, j, trip) == RouteOf(c, derive, decoys, j, next)
  {
    NodeIsUp(c, derive, j, trip);
    var out, t := StopPassed(c, derive, decoys, j, trip);
    next := Trip(trip.nodes[PortAt(j.path, trip.i) := t], trip.i + 1, out, trip.visits[1..]);
    RestIsUnderway(c, derive, j, trip, out, t);
  }

  /** The node it is marked for absorbs it. */
  lemma {:induction false} DropStop(c: Suite, derive: Derive, j: Journey, trip: Trip)
    requires Underway(c, derive, j, trip) && trip.i == j.dropAt < |j.path.hops|
    ensures FitsHops(|j.path.hops|, trip.pkt)
    ensures RouteOf(c, derive, true, j, trip) == Some(AbsorbedAt(PortAt(j.path, trip.i)))
  {
    var at := PortAt(j.path, trip.i);
    assert NodeServes(c, derive, trip.nodes, j, trip.i);
    var out := HandleOne(c, derive, true, j, trip.i, trip.nodes[at], trip.pkt, trip.visits[0]);
  }

  /** Behind the last node it is handed over with all layers off. */
  lemma {:induction false} LastStop(c: Suite, derive: Derive, decoys: bool, j: Journey, trip: Trip)
    requires Underway(c, derive, j, trip) && trip.i == |j.path.hops|
    ensures FitsHops(|j.path.hops|, trip.pkt)
    ensures RouteOf(c, derive, decoys, j, trip) == Some(HandedTo(PortAt(j.path, |j.path.hops|), trip.pkt))
    ensures trip.pkt[|j.path.hops| * HEADER_BLOCK_SIZE..] == j.section
  {
  }

  /**
   Through all nodes' tables: absorbed where it is marked to end, or handed to the gateway's port with its
   section bare.
   */
  lemma {:induction false} RouteDelivers(c: Suite, derive: Derive, decoys: bool, j: Journey,
                                         trip: Trip) returns (end: Octets)
    requires Underway(c, derive, j, trip)
    ensures FitsHops(|j.path.hops|, trip.pkt)
    ensures RouteOf(c, derive, decoys, j, trip)
         == Some(if decoys && trip.i <= j.dropAt < |j.path.hops| then AbsorbedAt(PortAt(j.path, j.dropAt))
                 else HandedTo(PortAt(j.path, |j.path.hops|), end))
    ensures FitsHops(|j.path.hops|, end) && end[|j.path.hops| * HEADER_BLOCK_SIZE..] == j.section
    decreases |j.path.hops| - trip.i
  {
    if trip.i == |j.path.hops| {
      LastStop(c, derive, decoys, j, trip);
      end := trip.pkt;
    } else if decoys && trip.i == j.dropAt {
      DropStop(c, derive, j, trip);
      end := Zeros(|j.path.hops| * HEADER_BLOCK_SIZE) + j.section;
    } else {
      var next := NextStop(c, derive, decoys, j, trip);
      end := RouteDelivers(c, derive, decoys, j, next);
    }
  }

  // ---------------------------------------------------------------- at the gateway

  /** The gateway's table holds the sender's session, once, in slot a, and would admit what it sends. */
  ghost predicate GatewayReady(c: Suite, t: seq<Gateway.Slot>, a: nat, key: Key, flags: byte, payload: Octets) {
    && a < |t| && t[a].inUse && t[a].role == Gateway.ROLE_A && t[a].key == key && Gateway.HintsOk(c, t)
    && (forall i :: 0 <= i < |t| && i != a && t[i].inUse ==> t[i].key != key)
    && Gateway.Plausible(flags, payload) && Gateway.Admits(c, t, a, flags, payload)
  }

  /** Trying every session finds this one. */
  lemma {:induction false} SlowSearchFinds(c: Suite, t: seq<Gateway.Slot>, section: Octets, a: nat, key: Key,
                                           flags: byte, payload: Octets, i: nat)
    requires GatewayReady(c, t, a, key, flags, payload) && Gateway.MadeFor(c, section, key, t) && i <= a
    requires Unwrap(c, section, key) == Some((flags, payload))
    ensures Gateway.SlowSearch(c, t, section, i) == Gateway.Found(a, flags, payload)
    decreases a - i
  {
    if i < a { SlowSearchFinds(c, t, section, a, key, flags, payload, i + 1); }
  }

  /** The packet as its sender builds it. */
  function JourneyOf(c: Suite, path: Path, payload: Octets, flags: byte, counter: nat, dropAt: int, nonces: seq<Octets>,
                     gcmNonce: Octets)
    : Journey
    requires Lawful(c) && path.Valid() && |payload| <= MAX_INNER_PAYLOAD
  {
    Journey(path, nonces, E2eSection(c, path, flags, payload, gcmNonce), counter, dropAt)
  }

  lemma {:induction false} SentIsUnderway(c: Suite, derive: Derive, path: Path, payload: Octets, flags: byte,
                                          counter: nat, dropAt: int,
                                          nonces: seq<Octets>, gcmNonce: Octets, nodes: Network, visits: seq<Visit>)
    requires Lawful(c) && path.Valid() && NoncesFor(path, nonces) && |payload| <= MAX_INNER_PAYLOAD
    requires |visits| >= |path.hops|
    requires var j := JourneyOf(c, path, payload, flags, counter, dropAt, nonces, gcmNonce);
      JourneyOk(j) && PathUp(c, derive, nodes, j, 0)
    ensures Underway(c, derive, JourneyOf(c, path, payload, flags, counter, dropAt, nonces, gcmNonce),
                     Trip(nodes, 0, WirePacket(c, path, payload, flags, counter, dropAt, nonces, gcmNonce), visits))
  {
    Departs(c, path, nonces, E2eSection(c, path, flags, payload, gcmNonce), counter, dropAt,
            WirePacket(c, path, payload, flags, counter, dropAt, nonces, gcmNonce));
  }

  /**
   The way forward as a whole. What a sender builds is absorbed at the node it is marked for, if any, in
   a decoy build; otherwise it is handed to the gateway's port, and the two-phase search, whatever other
   threads do meanwhile to other sessions, finds the sender's session with flags and payload intact.
   */
  lemma {:induction false} ForwardRoundTrip(c: Suite, derive: Derive, decoys: bool, path: Path, payload: Octets,
                                            flags: byte, counter: nat,
                                            dropAt: int, nonces: seq<Octets>, gcmNonce: Octets, nodes: Network,
                                            visits: seq<Visit>,
                                            env: Gateway.Others, t: seq<Gateway.Slot>, a: nat, now: nat)
    returns (end: Octets)
    requires Lawful(c) && path.Valid() && NoncesFor(path, nonces) && |payload| <= MAX_INNER_PAYLOAD
    requires |visits| >= |path.hops|
    requires var j := JourneyOf(c, path, payload, flags, counter, dropAt, nonces, gcmNonce);
      JourneyOk(j) && PathUp(c, derive, nodes, j, 0)
    requires GatewayReady(c, t, a, path.e2e, flags, payload) && path.sgHint == Gateway.SgHint(c, path.e2e)
    requires OpensOnlyUnder(c, path.e2e, Gateway.KeysOf(t)) && Gateway.KeepsLength(env)
    requires Gateway.LeavesAlone(env, path.e2e)
    ensures FitsHops(|path.hops|, end)
    ensures var wire := WirePacket(c, path, payload, flags, counter, dropAt, nonces, gcmNonce);
      var arrived := Route(c, derive, decoys, |path.hops|, nodes, path.ports[0], wire, visits);
      if decoys && 0 <= dropAt < |path.hops| then arrived == Some(AbsorbedAt(path.ports[dropAt]))
      else
        && arrived == Some(HandedTo(LastPort(path), end))
        && var section := end[|path.hops| * HEADER_BLOCK_SIZE..];
          Gateway.Search(c, env, Gateway.CandidatesFrom(t, Gateway.HintOf(section), 0), t, section, now).0
          == Gateway.Found(a, flags, payload)
  {
    var j := JourneyOf(c, path, payload, flags, counter, dropAt, nonces, gcmNonce);
    var wire := WirePacket(c, path, payload, flags, counter, dropAt, nonces, gcmNonce);
    SentIsUnderway(c, derive, path, payload, flags, counter, dropAt, nonces, gcmNonce, nodes, visits);
    end := RouteDelivers(c, derive, decoys, j, Trip(nodes, 0, wire, visits));
    FoundAtGateway(c, path, payload, flags, gcmNonce, env, t, a, now);
  }

  lemma {:induction false} FoundAtGateway(c: Suite, path: Path, payload: Octets, flags: byte, gcmNonce: Octets,
                                          env: Gateway.Others, t: seq<Gateway.Slot>, a: nat, now: nat)
    requires Lawful(c) && path.Valid() && |payload| <= MAX_INNER_PAYLOAD
    requires GatewayReady(c, t, a, path.e2e, flags, payload) && path.sgHint == Gateway.SgHint(c, path.e2e)
    requires OpensOnlyUnder(c, path.e2e, Gateway.KeysOf(t)) && Gateway.KeepsLength(env)
    requires Gateway.LeavesAlone(env, path.e2e)
    ensures var section := E2eSection(c, path, flags, payload, gcmNonce);
      Gateway.Search(c, env, Gateway.CandidatesFrom(t, Gateway.HintOf(section), 0), t, section, now).0
           == Gateway.Found(a, flags, payload)
  {
    var section := E2eSection(c, path, flags, payload, gcmNonce);
    Gateway.BuiltIsMadeFor(c, t, path, flags, payload, gcmNonce);
    Gateway.PrefilterAgrees(c, env, t, section, path.e2e, now);
    UnwrapSection(c, path, flags, payload, gcmNonce);
    SlowSearchFinds(c, t, section, a, path.e2e, flags, payload, 0);
  }
}

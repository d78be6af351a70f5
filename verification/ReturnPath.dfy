/**
 The way back: a response is sealed by the gateway, blinded once per hop, and carried by a return
 header that the client built in advance. Every mix node peels one 58-byte block, cancels one layer
 and decides from the peeled address whether to forward or to deliver; the client's listener
 filters what arrives and its waiting request reads the answer.
 The number of hops is the length of the path; the deployed value is three.
 */
module ReturnPath {
  import opened Common
  import opened Bytes
  import opened Crypto
  import opened Sequences
  import opened MixSessions
  import MixSessionRuns
  import MixHandling

  const RETURN_NONCE_BYTES := 4
  const MACED := 10 // enc_addr and enc_nonce
  const RETURN_BLOCK_SIZE := 58
  const RETURN_PAYLOAD_SIZE := 850
  const LISTENER_MAX := 512
  const PKT_REAL: byte := 0x00

  /** Longest response that the gateway agrees to send, and longest that the listener lets in. */
  const MAX_RESPONSE := 819 // RETURN_PAYLOAD_SIZE - 2 - GCM_OVERHEAD - 1
  const MAX_HEARD := 483    // LISTENER_MAX - GCM_OVERHEAD - 1

  /** What the client knows about one hop of its receiving path; addr is what the hop is told. */
  datatype ReturnHop = ReturnHop(enc: Key, mac: Key, blind: Key, hint: Octets, addr: Octets)

  predicate HopsOk(hops: seq<ReturnHop>) {
    forall i :: 0 <= i < |hops| ==> |hops[i].hint| == HINT_BYTES && |hops[i].addr| == ADDR_BYTES
  }

  predicate NoncesOk(nonces: seq<Octets>) {
    forall i :: 0 <= i < |nonces| ==> |nonces[i]| == RETURN_NONCE_BYTES
  }

  // ---------------------------------------------------------------- the return header

  function EncNonce(c: Suite, enc: Key, nonce: Octets): (r: Octets)
    ensures |r| == |nonce|
  {
    CtrXor(c, enc, ZERO_IV, nonce)
  }

  function Block(c: Suite, hop: ReturnHop, nonce: Octets): (r: Octets)
    requires |nonce| == RETURN_NONCE_BYTES && |hop.hint| == HINT_BYTES && |hop.addr| == ADDR_BYTES
    ensures |r| == RETURN_BLOCK_SIZE
  {
    var e := EncNonce(c, hop.enc, nonce);
    var maced := CtrXor(c, hop.enc, DeriveIv(c, e), hop.addr) + e;
    maced + Mac(c, hop.mac, maced) + hop.hint
  }

  /** The blocks of all hops in order. */
  function HeaderOf(c: Suite, hops: seq<ReturnHop>, nonces: seq<Octets>): (r: Octets)
    requires HopsOk(hops) && NoncesOk(nonces) && |hops| == |nonces|
    ensures |r| == |hops| * RETURN_BLOCK_SIZE
  {
    if |hops| == 0 then [] else Block(c, hops[0], nonces[0]) + HeaderOf(c, hops[1..], nonces[1..])
  }

  /** One block, in the two passes of the source: nonce first, then the address under the nonce's IV. */
  method BuildBlock(c: Suite, hop: ReturnHop, nonce: Octets) returns (block: Octets)
    requires |nonce| == RETURN_NONCE_BYTES && |hop.hint| == HINT_BYTES && |hop.addr| == ADDR_BYTES
    ensures block == Block(c, hop, nonce)
  {
    var encNonce := CtrXor(c, hop.enc, ZERO_IV, nonce);
    var encAddr := CtrXor(c, hop.enc, DeriveIv(c, encNonce), hop.addr);
    var mac := Mac(c, hop.mac, encAddr + encNonce);
    block := encAddr + encNonce + mac + hop.hint;
  }

  lemma HeaderSplit(c: Suite, hops: seq<ReturnHop>, nonces: seq<Octets>, i: nat)
    requires HopsOk(hops) && NoncesOk(nonces) && i < |hops| == |nonces|
    ensures HeaderOf(c, hops[i..], nonces[i..])
         == Block(c, hops[i], nonces[i]) + HeaderOf(c, hops[i + 1..], nonces[i + 1..])
  {
    assert hops[i..][1..] == hops[i + 1..] && nonces[i..][1..] == nonces[i + 1..];
  }

  /** The client's return header; `nonces` are the fresh random values. */
  method PacketBuildReturnHeader(c: Suite, hops: seq<ReturnHop>, nonces: seq<Octets>) returns (header: Octets)
    requires HopsOk(hops) && NoncesOk(nonces) && |hops| == |nonces|
    ensures header == HeaderOf(c, hops, nonces)
  {
    header := [];
    ghost var whole := HeaderOf(c, hops, nonces);
    assert hops[0..] == hops && nonces[0..] == nonces;
    for i := 0 to |hops|
      invariant header + HeaderOf(c, hops[i..], nonces[i..]) == whole
    {
      var block := BuildBlock(c, hops[i], nonces[i]);
      HeaderSplit(c, hops, nonces, i);
      ghost var rest := HeaderOf(c, hops[i + 1..], nonces[i + 1..]);
      assert header + (block + rest) == (header + block) + rest;
      header := header + block;
    }
  }

  datatype Peeled = Peeled(addr: Octets, nonce: Octets, header: Octets)

  /** Peeling one block; `fill` is the random filler of the freed tail block. */
  function PeelHeader(c: Suite, header: Octets, enc: Key, mac: Key, fill: Octets): (r: Option<Peeled>)
    requires |header| >= RETURN_BLOCK_SIZE && |fill| == RETURN_BLOCK_SIZE
    ensures r.Some? ==> |r.value.header| == |header| && |r.value.addr| == ADDR_BYTES
  {
    var maced := header[..MACED];
    if Mac(c, mac, maced) != header[MACED..MACED + MAC_BYTES] then None
    else
      var e := maced[ADDR_BYTES..];
      Some(Peeled(CtrXor(c, enc, DeriveIv(c, e), maced[..ADDR_BYTES]), EncNonce(c, enc, e),
                  header[RETURN_BLOCK_SIZE..] + fill))
  }

  /** A header is peeled if and only if bytes 10 to 25 are the MAC of what comes before. */
  lemma PeelHeaderIff(c: Suite, header: Octets, enc: Key, mac: Key, fill: Octets)
    requires |header| >= RETURN_BLOCK_SIZE && |fill| == RETURN_BLOCK_SIZE
    ensures var r := PeelHeader(c, header, enc, mac, fill);
      && (r.None? <==> c.hmac(mac, header[..10])[..16] != header[10..26])
      && (r.Some? ==> r.value.nonce == CtrXor(c, enc, ZERO_IV, header[6..10]))
  {
    assert header[..MACED][ADDR_BYTES..] == header[6..10];
  }

  /** Random bytes everywhere in `out`, then block by block the header shifted left by one. */
  method PacketPeelReturnHeader(c: Suite, hops: nat, header: array<byte>, enc: Key, mac: Key, random: Octets,
                                out: array<byte>)
    returns (next: Option<(Octets, Octets)>)
    requires hops > 0 && header != out && header.Length == out.Length == |random| == hops * RETURN_BLOCK_SIZE
    modifies out
    ensures var r := PeelHeader(c, header[..], enc, mac, random[(hops - 1) * RETURN_BLOCK_SIZE..]);
      && (next.Some? <==> r.Some?)
      && (next.Some? ==> next.value == (r.value.addr, r.value.nonce) && out[..] == r.value.header)
      && (next.None? ==> out[..] == old(out[..]))
    ensures next.None? <==> c.hmac(mac, header[..10])[..16] != header[10..26]
  {
    var maced := header[..MACED];
    if Mac(c, mac, maced) != header[MACED..MACED + MAC_BYTES] { return None; }
    var encNonce := maced[ADDR_BYTES..];
    var nonce := CtrXor(c, enc, ZERO_IV, encNonce);
    var addr := CtrXor(c, enc, DeriveIv(c, encNonce), maced[..ADDR_BYTES]);
    ShiftBlocks(hops, header, random, out);
    next := Some((addr, nonce));
  }

  method ShiftBlocks(hops: nat, header: array<byte>, random: Octets, out: array<byte>)
    requires hops > 0 && header != out && header.Length == out.Length == |random| == hops * RETURN_BLOCK_SIZE
    modifies out
    ensures out[..] == header[RETURN_BLOCK_SIZE..] + random[(hops - 1) * RETURN_BLOCK_SIZE..]
  {
    Copy(out, 0, random);
    ghost var at: nat := 0;
    for i := 1 to hops
      invariant at == (i - 1) * RETURN_BLOCK_SIZE
      invariant out[..at] == header[RETURN_BLOCK_SIZE..at + RETURN_BLOCK_SIZE] && out[at..] == random[at..]
    {
      ShiftOne(header, random, out, (i - 1) * RETURN_BLOCK_SIZE);
      at := at + RETURN_BLOCK_SIZE;
    }
    TwoParts(out[..], header[..], random, at);
  }

  lemma TwoParts(out: Octets, header: Octets, random: Octets, at: nat)
    requires |out| == |header| == |random| == at + RETURN_BLOCK_SIZE
    requires out[..at] == header[RETURN_BLOCK_SIZE..at + RETURN_BLOCK_SIZE] && out[at..] == random[at..]
    ensures out == header[RETURN_BLOCK_SIZE..] + random[at..]
  {
    assert out == out[..at] + out[at..];
  }

  method ShiftOne(header: array<byte>, random: Octets, out: array<byte>, at: nat)
    requires header != out && header.Length == out.Length == |random| && at + 2 * RETURN_BLOCK_SIZE <= |random|
    requires out[..at] == header[RETURN_BLOCK_SIZE..at + RETURN_BLOCK_SIZE] && out[at..] == random[at..]
    modifies out
    ensures out[..at + RETURN_BLOCK_SIZE] == header[RETURN_BLOCK_SIZE..at + 2 * RETURN_BLOCK_SIZE]
    ensures out[at + RETURN_BLOCK_SIZE..] == random[at + RETURN_BLOCK_SIZE..]
  {
    ghost var tail := out[at + RETURN_BLOCK_SIZE..];
    assert tail == out[at..][RETURN_BLOCK_SIZE..] == random[at..][RETURN_BLOCK_SIZE..];
    Copy(out, at, header[at + RETURN_BLOCK_SIZE..at + 2 * RETURN_BLOCK_SIZE]);
  }

  // ---------------------------------------------------------------- sending a response

  /** The 850-byte region of a response before blinding: length, ciphertext, zeros. */
  function Region(ct: Octets): (r: Octets)
    requires |ct| <= RETURN_PAYLOAD_SIZE - 2
    ensures |r| == RETURN_PAYLOAD_SIZE
  {
    Be16(|ct|) + ct + Zeros(RETURN_PAYLOAD_SIZE - 2 - |ct|)
  }

  /** A region with one layer per hop, the first hop's outermost. */
  function BlindedBy(c: Suite, blinds: seq<Key>, region: Octets): (r: Octets)
    ensures |r| == |region|
  {
    if |blinds| == 0 then region else CtrXor(c, blinds[0], ZERO_IV, BlindedBy(c, blinds[1..], region))
  }

  datatype Sent = TooLarge | To(first: Octets, wire: Octets)

  /** Length and ciphertext in front of a zeroed buffer. */
  method FillRegion(region: array<byte>, ct: Octets)
    requires region.Length == RETURN_PAYLOAD_SIZE && |ct| <= RETURN_PAYLOAD_SIZE - 2
    requires region[..] == Zeros(RETURN_PAYLOAD_SIZE)
    modifies region
    ensures region[..] == Region(ct)
  {
    Copy(region, 0, Be16(|ct|));
    Copy(region, 2, ct);
    assert region[..2] == Be16(|ct|) && region[2..2 + |ct|] == ct;
    assert region[2 + |ct|..] == Zeros(RETURN_PAYLOAD_SIZE - 2 - |ct|);
  }

  /** Copies the whole region back after each layer, the last hop's layer first. */
  method SendResponse(c: Suite, e2e: Key, blinds: seq<Key>, first: Octets, header: Octets, flags: byte, resp: Octets,
                      gcmNonce: Octets)
    returns (sent: Sent)
    requires Lawful(c)
    ensures sent == if |resp| > MAX_RESPONSE then TooLarge
                    else To(first, header + BlindedBy(c, blinds, Region(c.seal(e2e, gcmNonce, [flags] + resp))))
  {
    if |resp| > RETURN_PAYLOAD_SIZE - 2 - GCM_OVERHEAD - 1 { return TooLarge; }
    var enc := c.seal(e2e, gcmNonce, [flags] + resp);
    var region := new byte[RETURN_PAYLOAD_SIZE](_ => 0);
    FillRegion(region, enc);
    for hop := |blinds| downto 0
      invariant region[..] == BlindedBy(c, blinds[hop..], Region(enc))
    {
      assert blinds[hop..][1..] == blinds[hop + 1..];
      var tmp := CtrXor(c, blinds[hop], ZERO_IV, region[..]);
      Copy(region, 0, tmp);
    }
    assert blinds[0..] == blinds;
    sent := To(first, header + region[..]);
  }

  // ---------------------------------------------------------------- a mix node on the way back

  datatype Outcome = Dropped | Forwarded(to: Octets, wire: Octets) | Delivered(to: Octets, wire: Octets)

  predicate IsResponsePort(port: nat) {
    CLIENT_RESPONSE_PORT <= port < CLIENT_RESPONSE_PORT + CLIENT_RESPONSE_PORT_COUNT ||
    SENDER_RESPONSE_PORT <= port < SENDER_RESPONSE_PORT + SENDER_RESPONSE_PORT_COUNT
  }

  /** The two gateways, the twelve fixed mix ports and the pool: 9004..9010, 9012, 9040..9045, 9100..9199. */
  predicate IsNodePort(port: nat) {
    port == 9010 || port == 9012 || 9004 <= port <= 9009 || 9040 <= port <= 9045 ||
    POOL_PORT_BASE <= port < POOL_PORT_BASE + POOL_SIZE
  }

  function PortOf(addr: Octets): nat
    requires |addr| == ADDR_BYTES
  {
    FromBe16(addr[4], addr[5])
  }

  predicate IsAllowedNextHop(addr: Octets)
    requires |addr| == ADDR_BYTES
  {
    addr[..4] == [127, 0, 0, 1] && (IsNodePort(PortOf(addr)) || IsResponsePort(PortOf(addr)))
  }

  function FirstHint(wire: Octets): Octets
    requires |wire| >= RETURN_BLOCK_SIZE
  {
    wire[MACED + MAC_BYTES..RETURN_BLOCK_SIZE]
  }

  /** Where a packet goes once its header is peeled and its nonce is accepted. */
  function Onward(c: Suite, hops: nat, blind: Key, wire: Octets, peeled: Peeled): (r: Outcome)
    requires |wire| == hops * RETURN_BLOCK_SIZE + RETURN_PAYLOAD_SIZE
    requires |peeled.header| == hops * RETURN_BLOCK_SIZE && |peeled.addr| == ADDR_BYTES
    ensures !r.Dropped? ==> |r.wire| == |wire|
  {
    if !IsAllowedNextHop(peeled.addr) then Dropped
    else
      var out := peeled.header + CtrXor(c, blind, ZERO_IV, wire[hops * RETURN_BLOCK_SIZE..]);
      if IsResponsePort(PortOf(peeled.addr)) then Delivered(peeled.addr, out) else Forwarded(peeled.addr, out)
  }

  /**
   handle_return on a packet of `hops` blocks, with the node's session table: the lookup, the window
   advance once the MAC is verified, the replay ring, and the table they leave behind.
   */
  ghost function HandleReturn(c: Suite, derive: Derive, hops: nat, t: seq<Session>, wire: Octets,
                              visit: Visit): (r: (Outcome, seq<Session>))
    requires hops > 0 && |wire| == hops * RETURN_BLOCK_SIZE + RETURN_PAYLOAD_SIZE
    ensures !r.0.Dropped? ==> |r.0.wire| == |wire|
  {
    match FoundBy(t, FirstHint(wire))
    case None => (Dropped, t)
    case Some(m) =>
      var active := t[m.idx := t[m.idx].(lastActive := visit.now)];
      match PeelHeader(c, wire[..hops * RETURN_BLOCK_SIZE], m.keys.headerEnc, m.keys.headerMac, visit.fill)
      case None => (Dropped, active)
      case Some(peeled) =>
        var confirmed := Confirmed(derive, active, m.idx, m.generation, m.domain, m.windowIdx);
        var ring := confirmed[m.idx].seenReturn;
        if !RingValid(ring) || peeled.nonce in Recent(ring) then (Dropped, confirmed)
        else
          (Onward(c, hops, m.keys.returnBlind, wire, peeled),
           confirmed[m.idx := confirmed[m.idx].(seenReturn := Push(ring, peeled.nonce))])
  }

  /** The tick count and the random filler that a node uses on a packet. */
  datatype Visit = Visit(now: nat, fill: Filler)

  type Filler = f: Octets | |f| == RETURN_BLOCK_SIZE witness Zeros(RETURN_BLOCK_SIZE)

  /** The handler itself, one locked operation of the table after the other. */
  method Handle(c: Suite, hops: nat, table: SessionTable, wire: Octets, now: nat, random: Octets) returns (out: Outcome)
    requires table.Valid() && hops > 0 && |wire| == hops * RETURN_BLOCK_SIZE + RETURN_PAYLOAD_SIZE
    requires |random| == hops * RETURN_BLOCK_SIZE
    modifies table.sessions
    ensures table.Valid()
    ensures (out, table.sessions[..])
         == HandleReturn(c, table.derive, hops, old(table.sessions[..]), wire,
                         Visit(now, random[(hops - 1) * RETURN_BLOCK_SIZE..]))
  {
    var hint := FirstHint(wire);
    var m := table.SessionFind(hint, now);
    ReportIsFoundBy(old(table.sessions[..]), hint, m);
    if m.None? { return Dropped; }
    var Match(idx, generation, domain, windowIdx, keys) := m.value;
    var peeled := PeelFront(c, hops, wire, keys, random);
    if peeled.None? { return Dropped; }
    table.SessionConfirmHintMatch(idx, generation, domain, windowIdx);
    var drop := table.SessionCheckNonceByIdx(idx, generation, Return, peeled.value.nonce);
    if drop { return Dropped; }
    out := Onward(c, hops, keys.returnBlind, wire, peeled.value);
  }

  method PeelFront(c: Suite, hops: nat, wire: Octets, keys: Keys, random: Octets) returns (peeled: Option<Peeled>)
    requires hops > 0 && |wire| == hops * RETURN_BLOCK_SIZE + RETURN_PAYLOAD_SIZE
    requires |random| == hops * RETURN_BLOCK_SIZE
    ensures peeled == PeelHeader(c, wire[..hops * RETURN_BLOCK_SIZE], keys.headerEnc, keys.headerMac,
                                 random[(hops - 1) * RETURN_BLOCK_SIZE..])
  {
    var n := hops * RETURN_BLOCK_SIZE;
    var header, shifted := new byte[n](_ => 0), new byte[n](_ => 0);
    Copy(header, 0, wire[..n]);
    assert header[..] == wire[..n];
    var next := PacketPeelReturnHeader(c, hops, header, keys.headerEnc, keys.headerMac, random, shifted);
    peeled := if next.None? then None else Some(Peeled(next.value.0, next.value.1, shifted[..]));
  }

  datatype Arrival = Arrival(visited: seq<Octets>, client: Octets, wire: Octets)

  type Network = map<Octets, seq<Session>>

  /** Follows the packet from the node at `at`, one visit per node, until it is delivered or lost. */
  ghost function Route(c: Suite, derive: Derive, hops: nat, nodes: Network, at: Octets, wire: Octets,
                       visits: seq<Visit>): (r: (Option<Arrival>, Network))
    requires hops > 0 && |wire| == hops * RETURN_BLOCK_SIZE + RETURN_PAYLOAD_SIZE
    ensures r.0.Some? ==> |r.0.value.wire| == |wire|
    decreases |visits|
  {
    if |visits| == 0 || at !in nodes then (None, nodes)
    else
      var (outcome, t) := HandleReturn(c, derive, hops, nodes[at], wire, visits[0]);
      var after := nodes[at := t];
      match outcome
      case Dropped => (None, after)
      case Delivered(to, out) => (Some(Arrival([at], to, out)), after)
      case Forwarded(to, out) =>
        var (r, end) := Route(c, derive, hops, after, to, out, visits[1..]);
        (Via(at, r), end)
  }

  function Via(at: Octets, r: Option<Arrival>): Option<Arrival> {
    match r case None => None case Some(a) => Some(Arrival([at] + a.visited, a.client, a.wire))
  }

  // ---------------------------------------------------------------- a hop does its part

  function Blinds(hops: seq<ReturnHop>): (r: seq<Key>)
    ensures |r| == |hops|
  {
    seq<Key>(|hops|, i requires 0 <= i < |hops| => hops[i].blind)
  }

  lemma BlindsTail(hops: seq<ReturnHop>)
    requires |hops| > 0
    ensures Blinds(hops)[0] == hops[0].blind && Blinds(hops)[1..] == Blinds(hops[1..])
  {
  }

  /** The packet as it reaches the first of the remaining hops. */
  ghost predicate Arriving(c: Suite, total: nat, hops: seq<ReturnHop>, nonces: seq<Octets>, region: Octets,
                           wire: Octets)
    requires HopsOk(hops) && NoncesOk(nonces) && |hops| == |nonces|
  {
    && |hops| <= total && |region| == RETURN_PAYLOAD_SIZE && |wire| == total * RETURN_BLOCK_SIZE + RETURN_PAYLOAD_SIZE
    && wire[..|hops| * RETURN_BLOCK_SIZE] == HeaderOf(c, hops, nonces)
    && wire[total * RETURN_BLOCK_SIZE..] == BlindedBy(c, Blinds(hops), region)
  }

  /** The table finds the session this hop was built for, and its ring does not hold the nonce. */
  ghost predicate Serves(derive: Derive, t: seq<Session>, hop: ReturnHop, nonce: Octets) {
    && TableValid(derive, t) && FoundBy(t, hop.hint).Some?
    && var m := FoundBy(t, hop.hint).value;
      m.keys == Keys(hop.enc, hop.mac, hop.blind) && nonce !in Recent(t[m.idx].seenReturn)
  }

  /** A hop whose counter lies in its session's window is served, among any number of other sessions. */
  lemma ServedInWindow(derive: Derive, t: seq<Session>, i: nat, counter: nat, hop: ReturnHop, nonce: Octets)
    requires TableValid(derive, t) && MixSessionRuns.HintsDistinguish(derive, t) && i < |t| && t[i].inUse
    requires |t[i].windows| == 2 && MixSessionRuns.InWindow(t[i].windows[0], counter)
    requires hop.hint == derive(t[i].seed, counter) && t[i].keys == Keys(hop.enc, hop.mac, hop.blind)
    requires nonce !in Recent(t[i].seenReturn)
    ensures Serves(derive, t, hop, nonce)
  {
    MixSessionRuns.FoundAtPlace(derive, t, i, counter);
    ReportIsFoundBy(t, hop.hint, Some(Match(i, t[i].generation, 0, counter - t[i].windows[0].base, t[i].keys)));
  }

  lemma OpenBlock(c: Suite, hop: ReturnHop, nonce: Octets, block: Octets)
    requires |nonce| == RETURN_NONCE_BYTES && |hop.hint| == HINT_BYTES && |hop.addr| == ADDR_BYTES
    requires block == Block(c, hop, nonce)
    ensures block[MACED + MAC_BYTES..] == hop.hint
    ensures Mac(c, hop.mac, block[..MACED]) == block[MACED..MACED + MAC_BYTES]
    ensures EncNonce(c, hop.enc, block[ADDR_BYTES..MACED]) == nonce
    ensures CtrXor(c, hop.enc, DeriveIv(c, block[ADDR_BYTES..MACED]), block[..ADDR_BYTES]) == hop.addr
  {
    var e := EncNonce(c, hop.enc, nonce);
    var a := CtrXor(c, hop.enc, DeriveIv(c, e), hop.addr);
    assert block[..MACED] == a + e;
    assert block[..ADDR_BYTES] == a && block[ADDR_BYTES..MACED] == e;
    CtrCancels(c, hop.enc, ZERO_IV, nonce);
    CtrCancels(c, hop.enc, DeriveIv(c, e), hop.addr);
  }

  /** Peeling a header whose first block was built under these keys. */
  lemma PeelBuilt(c: Suite, hop: ReturnHop, nonce: Octets, header: Octets, fill: Octets)
    requires |nonce| == RETURN_NONCE_BYTES && |hop.hint| == HINT_BYTES && |hop.addr| == ADDR_BYTES
    requires |header| >= RETURN_BLOCK_SIZE && header[..RETURN_BLOCK_SIZE] == Block(c, hop, nonce)
    requires |fill| == RETURN_BLOCK_SIZE
    ensures PeelHeader(c, header, hop.enc, hop.mac, fill)
         == Some(Peeled(hop.addr, nonce, header[RETURN_BLOCK_SIZE..] + fill))
    ensures FirstHint(header) == hop.hint
  {
    var block := Block(c, hop, nonce);
    OpenBlock(c, hop, nonce, block);
    assert header[..MACED] == block[..MACED];
    assert header[MACED..MACED + MAC_BYTES] == block[MACED..MACED + MAC_BYTES];
    assert header[..MACED][ADDR_BYTES..] == block[ADDR_BYTES..MACED];
    assert header[..MACED][..ADDR_BYTES] == block[..ADDR_BYTES];
    assert FirstHint(header) == block[MACED + MAC_BYTES..];
  }

  lemma ShiftedHeader(wire: Octets, total: nat, blocks: nat, block: Octets, rest: Octets, fill: Octets, payload: Octets)
    requires 0 < blocks <= total && |wire| == total * RETURN_BLOCK_SIZE + RETURN_PAYLOAD_SIZE
    requires |block| == |fill| == RETURN_BLOCK_SIZE && |payload| == RETURN_PAYLOAD_SIZE
    requires wire[..blocks * RETURN_BLOCK_SIZE] == block + rest
    ensures var header := wire[..total * RETURN_BLOCK_SIZE];
      && header[..RETURN_BLOCK_SIZE] == block
      && FirstHint(wire) == FirstHint(header)
      && (header[RETURN_BLOCK_SIZE..] + fill + payload)[..(blocks - 1) * RETURN_BLOCK_SIZE] == rest
      && (header[RETURN_BLOCK_SIZE..] + fill + payload)[total * RETURN_BLOCK_SIZE..] == payload
  {
    var header := wire[..total * RETURN_BLOCK_SIZE];
    assert wire[..blocks * RETURN_BLOCK_SIZE][..RETURN_BLOCK_SIZE] == block;
    assert wire[..blocks * RETURN_BLOCK_SIZE][RETURN_BLOCK_SIZE..] == rest;
    assert header[RETURN_BLOCK_SIZE..blocks * RETURN_BLOCK_SIZE] == rest;
    assert FirstHint(wire) == FirstHint(header);
  }

  /** One hop forwards or delivers to the address it was told, with its block and its layer removed. */
  lemma HandleOne(c: Suite, total: nat, hops: seq<ReturnHop>, nonces: seq<Octets>, region: Octets,
                  derive: Derive, t: seq<Session>, wire: Octets, visit: Visit)
    returns (out: Octets)
    requires HopsOk(hops) && NoncesOk(nonces) && |hops| == |nonces| && total > 0
    requires |hops| > 0 && Serves(derive, t, hops[0], nonces[0]) && IsAllowedNextHop(hops[0].addr)
    requires Arriving(c, total, hops, nonces, region, wire)
    ensures Arriving(c, total, hops[1..], nonces[1..], region, out)
    ensures HandleReturn(c, derive, total, t, wire, visit).0
         == if IsResponsePort(PortOf(hops[0].addr)) then Delivered(hops[0].addr, out) else Forwarded(hops[0].addr, out)
  {
    var hop, header := hops[0], wire[..total * RETURN_BLOCK_SIZE];
    var rest := HeaderOf(c, hops[1..], nonces[1..]);
    var inside := BlindedBy(c, Blinds(hops[1..]), region);
    ShiftedHeader(wire, total, |hops|, Block(c, hop, nonces[0]), rest, visit.fill, inside);
    PeelBuilt(c, hop, nonces[0], header, visit.fill);
    BlindsTail(hops);
    CtrCancels(c, hop.blind, ZERO_IV, inside);
    out := header[RETURN_BLOCK_SIZE..] + visit.fill + inside;
  }

  // ---------------------------------------------------------------- along the whole path

  /** Addresses of the nodes visited from `at` on, when every hop goes where it is told. */
  function Stops(at: Octets, hops: seq<ReturnHop>): (r: seq<Octets>)
    requires |hops| > 0
    ensures |r| == |hops| && r[0] == at
    decreases |hops|
  {
    [at] + if |hops| == 1 then [] else Stops(hops[0].addr, hops[1..])
  }

  /** The path as built by the client: node by node to a response port, through live sessions. */
  ghost predicate PathUp(derive: Derive, nodes: Network, at: Octets, hops: seq<ReturnHop>, nonces: seq<Octets>)
    requires |hops| == |nonces| && HopsOk(hops)
    decreases |hops|
  {
    && |hops| > 0 && at in nodes && Serves(derive, nodes[at], hops[0], nonces[0]) && IsAllowedNextHop(hops[0].addr)
    && (IsResponsePort(PortOf(hops[0].addr)) <==> |hops| == 1)
    && (|hops| > 1 ==> PathUp(derive, nodes, hops[0].addr, hops[1..], nonces[1..]))
  }

  /** What happens at a node that is not on the path does not matter to it. */
  lemma {:induction false} PathUpElsewhere(derive: Derive, nodes: Network, at: Octets, hops: seq<ReturnHop>,
                                           nonces: seq<Octets>,
                                           other: Octets, t: seq<Session>)
    requires |hops| == |nonces| && HopsOk(hops) && PathUp(derive, nodes, at, hops, nonces) && other !in Stops(at, hops)
    ensures PathUp(derive, nodes[other := t], at, hops, nonces)
    decreases |hops|
  {
    if |hops| > 1 { PathUpElsewhere(derive, nodes, hops[0].addr, hops[1..], nonces[1..], other, t); }
  }

  /** A packet at node `at`, with the hops that remain to it and their nonces. */
  datatype Trip = Trip(nodes: Network, at: Octets, hops: seq<ReturnHop>, nonces: seq<Octets>, wire: Octets,
                       visits: seq<Visit>)

  /** The rest of the path is live and no node comes on it twice. */
  ghost predicate Underway(c: Suite, derive: Derive, total: nat, region: Octets, trip: Trip) {
    match trip
    case Trip(nodes, at, hops, nonces, wire, visits) =>
      && HopsOk(hops) && NoncesOk(nonces) && |hops| == |nonces| && total > 0
      && |hops| > 0 && PathUp(derive, nodes, at, hops, nonces) && |visits| >= |hops|
      && Distinct(Stops(at, hops)) && Arriving(c, total, hops, nonces, region, wire)
  }

  /** Once the first node has handled it, it is under way on the rest of the path. */
  lemma RestIsUnderway(c: Suite, derive: Derive, total: nat, region: Octets, trip: Trip, out: Octets, t: seq<Session>)
    requires Underway(c, derive, total, region, trip) && |trip.hops| > 1
    requires Arriving(c, total, trip.hops[1..], trip.nonces[1..], region, out)
    ensures Underway(c, derive, total, region,
                     Trip(trip.nodes[trip.at := t], trip.hops[0].addr, trip.hops[1..], trip.nonces[1..], out,
                          trip.visits[1..]))
  {
    StopsTail(trip.at, trip.hops);
    PathUpElsewhere(derive, trip.nodes, trip.hops[0].addr, trip.hops[1..], trip.nonces[1..], trip.at, t);
  }

  ghost function RouteOf(c: Suite, derive: Derive, total: nat, trip: Trip): Option<Arrival>
    requires total > 0 && |trip.wire| == total * RETURN_BLOCK_SIZE + RETURN_PAYLOAD_SIZE
  {
    Route(c, derive, total, trip.nodes, trip.at, trip.wire, trip.visits).0
  }

  /** The first node delivers it, if it is the last one. */
  lemma LastStop(c: Suite, derive: Derive, total: nat, region: Octets, trip: Trip) returns (out: Octets)
    requires Underway(c, derive, total, region, trip) && |trip.hops| == 1
    ensures RouteOf(c, derive, total, trip) == Some(Arrival(Stops(trip.at, trip.hops), trip.hops[0].addr, out))
    ensures |out| == |trip.wire| && out[total * RETURN_BLOCK_SIZE..] == region
  {
    out := HandleOne(c, total, trip.hops, trip.nonces, region, derive, trip.nodes[trip.at], trip.wire, trip.visits[0]);
    assert Blinds(trip.hops[1..]) == [] && Stops(trip.at, trip.hops) == [trip.at];
  }

  /** Otherwise it sends it on. */
  lemma NextStop(c: Suite, derive: Derive, total: nat, region: Octets, trip: Trip) returns (next: Trip)
    requires Underway(c, derive, total, region, trip) && |trip.hops| > 1
    ensures Underway(c, derive, total, region, next) && |next.wire| == |trip.wire|
    ensures next.at == trip.hops[0].addr && next.hops == trip.hops[1..]
    ensures RouteOf(c, derive, total, trip) == Via(trip.at, RouteOf(c, derive, total, next))
  {
    var out := HandleOne(c, total, trip.hops, trip.nonces, region, derive, trip.nodes[trip.at], trip.wire,
                         trip.visits[0]);
    var t := HandleReturn(c, derive, total, trip.nodes[trip.at], trip.wire, trip.visits[0]).1;
    next := Trip(trip.nodes[trip.at := t], trip.hops[0].addr, trip.hops[1..], trip.nonces[1..], out, trip.visits[1..]);
    RestIsUnderway(c, derive, total, region, trip, out, t);
  }

  /** It visits the path's nodes in order and is delivered with all layers off the region. */
  lemma {:induction false} RouteDelivers(c: Suite, derive: Derive, total: nat, region: Octets,
                                         trip: Trip) returns (end: Octets)
    requires Underway(c, derive, total, region, trip)
    ensures RouteOf(c, derive, total, trip)
         == Some(Arrival(Stops(trip.at, trip.hops), trip.hops[|trip.hops| - 1].addr, end))
    ensures |end| == |trip.wire| && end[total * RETURN_BLOCK_SIZE..] == region
    decreases |trip.hops|
  {
    if |trip.hops| == 1 {
      end := LastStop(c, derive, total, region, trip);
    } else {
      var next := NextStop(c, derive, total, region, trip);
      end := RouteDelivers(c, derive, total, region, next);
      StopsTail(trip.at, trip.hops);
    }
  }

  lemma StopsTail(at: Octets, hops: seq<ReturnHop>)
    requires |hops| > 1 && Distinct(Stops(at, hops))
    ensures at !in Stops(hops[0].addr, hops[1..]) && Distinct(Stops(hops[0].addr, hops[1..]))
    ensures Stops(at, hops) == [at] + Stops(hops[0].addr, hops[1..])
  {
    assert Stops(at, hops)[1..] == Stops(hops[0].addr, hops[1..]);
  }

  // ---------------------------------------------------------------- what a node makes of any packet

  predicate FitsHops(hops: nat, wire: Octets) { hops > 0 && |wire| == hops * RETURN_BLOCK_SIZE + RETURN_PAYLOAD_SIZE }

  /** 127.0.0.1 and a port of a mix node, a gateway or a response listener. */
  predicate IsOnAllowlist(addr: Octets)
    requires |addr| == ADDR_BYTES
  {
    var port := 256 * addr[4] as int + addr[5] as int;
    && addr[0] == 127 && addr[1] == 0 && addr[2] == 0 && addr[3] == 1
    && (9004 <= port <= 9010 || port == 9012 || 9020 <= port <= 9061 || 9100 <= port <= 9199)
  }

  predicate IsListenerPort(addr: Octets)
    requires |addr| == ADDR_BYTES
  {
    var port := 256 * addr[4] as int + addr[5] as int; 9020 <= port <= 9039 || 9046 <= port <= 9061
  }

  /** Whether the header's MAC is right under the keys found, and the nonce behind it. */
  predicate Genuine(c: Suite, wire: Octets, keys: Keys)
    requires |wire| >= RETURN_BLOCK_SIZE
  {
    c.hmac(keys.headerMac, wire[..10])[..16] == wire[10..26]
  }

  function NonceIn(c: Suite, wire: Octets, keys: Keys): Octets
    requires |wire| >= RETURN_BLOCK_SIZE
  {
    CtrXor(c, keys.headerEnc, ZERO_IV, wire[6..10])
  }

  lemma PeelsFront(c: Suite, hops: nat, wire: Octets, keys: Keys, fill: Filler)
    requires FitsHops(hops, wire)
    ensures var peeled := PeelHeader(c, wire[..hops * RETURN_BLOCK_SIZE], keys.headerEnc, keys.headerMac, fill);
      && (peeled.Some? <==> Genuine(c, wire, keys))
      && (peeled.Some? ==> peeled.value.nonce == NonceIn(c, wire, keys))
  {
    var header := wire[..hops * RETURN_BLOCK_SIZE];
    PeelHeaderIff(c, header, keys.headerEnc, keys.headerMac, fill);
    assert header[..10] == wire[..10] && header[10..26] == wire[10..26] && header[6..10] == wire[6..10];
  }

  /**
   A return packet goes on, a block shorter and a layer off, if and only if its MAC is right, its nonce new and
   the address it carries on the allowlist; to a response listener or to another node.
   */
  predicate Treated(c: Suite, hops: nat, wire: Octets, keys: Keys, seen: bool, fill: Filler, outcome: Outcome)
    requires FitsHops(hops, wire)
  {
    match keys
    case Keys(headerEnc, _, returnBlind) =>
      var addr := CtrXor(c, headerEnc, DeriveIv(c, wire[6..10]), wire[..6]);
      if !Genuine(c, wire, keys) || seen || !IsOnAllowlist(addr) then outcome.Dropped?
      else
        var out := wire[58..hops * 58] + fill + CtrXor(c, returnBlind, ZERO_IV, wire[hops * 58..]);
        outcome == if IsListenerPort(addr) then Delivered(addr, out) else Forwarded(addr, out)
  }

  lemma {:induction false} PeeledIsTreated(c: Suite, hops: nat, wire: Octets, keys: Keys, fill: Filler)
    requires FitsHops(hops, wire)
    ensures var r := PeelHeader(c, wire[..hops * RETURN_BLOCK_SIZE], keys.headerEnc, keys.headerMac, fill);
      if r.None? then !Genuine(c, wire, keys)
      else
        && Genuine(c, wire, keys) && r.value.nonce == NonceIn(c, wire, keys)
        && Treated(c, hops, wire, keys, false, fill, Onward(c, hops, keys.returnBlind, wire, r.value))
  {
    PeelsFront(c, hops, wire, keys, fill);
    var header := wire[..hops * RETURN_BLOCK_SIZE];
    assert header[..MACED][..ADDR_BYTES] == wire[..6] && header[..MACED][ADDR_BYTES..] == wire[6..10];
    assert header[RETURN_BLOCK_SIZE..] == wire[58..hops * 58];
    AllowlistSpelled(CtrXor(c, keys.headerEnc, DeriveIv(c, wire[6..10]), wire[..6]));
  }

  /**
   What becomes of a return packet and of the table, whatever packet it is: see Treated for the packet. Nothing
   happens to the table if no session is found. A packet with a wrong MAC leaves windows and rings alone; any
   other is counted in its window, and a new nonce recorded.
   */
  lemma {:induction false} WhatHandlingDoes(c: Suite, derive: Derive, hops: nat, t: seq<Session>, wire: Octets,
                                            visit: Visit)
    requires FitsHops(hops, wire) && TableValid(derive, t)
    ensures var (outcome, u) := HandleReturn(c, derive, hops, t, wire, visit);
      match FoundBy(t, FirstHint(wire))
      case None => outcome.Dropped? && u == t
      case Some(m) =>
        && IsFound(t, FirstHint(wire), m) && RingValid(t[m.idx].seenReturn) && TableValid(derive, u)
        && MixHandling.Handled(derive, Return, t, u, m, visit.now, Genuine(c, wire, m.keys), NonceIn(c, wire, m.keys))
        && Treated(c, hops, wire, m.keys, NonceIn(c, wire, m.keys) in Recent(t[m.idx].seenReturn), visit.fill, outcome)
  {
    match FoundBy(t, FirstHint(wire))
    case None =>
    case Some(m) =>
      PeeledIsTreated(c, hops, wire, m.keys, visit.fill);
      MixHandling.HandledAsStated(derive, Return, t, FirstHint(wire), m, visit.now, Genuine(c, wire, m.keys),
                                  NonceIn(c, wire, m.keys));
  }

  lemma AllowlistSpelled(addr: Octets)
    requires |addr| == ADDR_BYTES
    ensures IsAllowedNextHop(addr) <==> IsOnAllowlist(addr)
    ensures IsResponsePort(PortOf(addr)) <==> IsListenerPort(addr)
  {
    assert addr[..4] == [addr[0], addr[1], addr[2], addr[3]];
  }

  /** Handling any return packet carries every session in use, in both directions. */
  lemma {:induction false} HandlingCarries(c: Suite, derive: Derive, hops: nat, t: seq<Session>, wire: Octets,
                                           visit: Visit, i: nat, dir: Direction)
    requires FitsHops(hops, wire) && TableValid(derive, t) && i < |t| && t[i].inUse
    ensures MixHandling.Carries(derive, dir, t, HandleReturn(c, derive, hops, t, wire, visit).1, i)
  {
    HandlingPushesOne(c, derive, hops, t, wire, visit, i, dir);
    WhatHandlingDoes(c, derive, hops, t, wire, visit);
  }

  lemma {:induction false} HandlingPushesOne(c: Suite, derive: Derive, hops: nat, t: seq<Session>, wire: Octets,
                                             visit: Visit, i: nat, dir: Direction)
    requires FitsHops(hops, wire) && TableValid(derive, t) && i < |t| && t[i].inUse
    ensures var u := HandleReturn(c, derive, hops, t, wire, visit).1;
      |u| == |t| &&
      (RingOf(u[i], dir) == RingOf(t[i], dir) || MixHandling.OnePushed(RingOf(t[i], dir), RingOf(u[i], dir)))
  {
    assert SessionValid(derive, t[i]);
  }

  /**
   A node that has sent a packet on drops the same bytes whenever they come again, whatever happens to its
   table in between, as long as the session stays and takes fewer than 1024 other nonces.
   */
  lemma {:induction false} ReplayIsDropped(c: Suite, derive: Derive, hops: nat, t: seq<Session>, wire: Octets,
                                           visit: Visit, between: seq<seq<Session>>, again: Visit)
    requires FitsHops(hops, wire) && TableValid(derive, t) && MixSessionRuns.HintsDistinguish(derive, t)
    requires !HandleReturn(c, derive, hops, t, wire, visit).0.Dropped?
    requires var i := FoundBy(t, FirstHint(wire)).value.idx;
      && MixHandling.History(derive, Return, between, i) && MixHandling.Taken(Return, between, i) < REPLAY_WINDOW
      && between[0] == HandleReturn(c, derive, hops, t, wire, visit).1
      && MixSessionRuns.HintsDistinguish(derive, between[|between| - 1])
    ensures HandleReturn(c, derive, hops, between[|between| - 1], wire, again).0 == Dropped
  {
    var m := FoundBy(t, FirstHint(wire)).value;
    WhatHandlingDoes(c, derive, hops, t, wire, visit);
    WhatHandlingDoes(c, derive, hops, between[|between| - 1], wire, again);
    MixHandling.StillHeld(derive, Return, t, FirstHint(wire), m, visit.now, NonceIn(c, wire, m.keys), between);
  }

  // ---------------------------------------------------------------- the client's end

  /** The ciphertext announced by a packet's length field, when that field is within limits. */
  function Announced(region: Octets, limit: nat): (r: Option<Octets>)
    requires |region| == RETURN_PAYLOAD_SIZE && limit <= RETURN_PAYLOAD_SIZE - 2
    ensures r.Some? ==> |r.value| <= limit
  {
    var n := FromBe16(region[0], region[1]);
    if GCM_OVERHEAD <= n <= limit then Some(region[2..2 + n]) else None
  }

  /** response_listener: what is signalled to the waiting request. */
  predicate Accepts(c: Suite, e2e: Key, region: Octets)
    requires |region| == RETURN_PAYLOAD_SIZE
  {
    match Announced(region, LISTENER_MAX)
    case None => false
    case Some(ct) =>
      match c.unseal(e2e, ct)
      case None => false
      case Some(plain) => |plain| >= 1 && plain[0] == PKT_REAL
  }

  /** wait_response on a signalled packet. */
  function Read(c: Suite, e2e: Key, region: Octets): (r: Option<Octets>)
    requires |region| == RETURN_PAYLOAD_SIZE
    ensures r.Some? ==> |r.value| <= MAX_INNER_PAYLOAD
  {
    match Announced(region, RETURN_PAYLOAD_SIZE - 2)
    case None => None
    case Some(ct) =>
      match c.unseal(e2e, ct)
      case None => None
      case Some(plain) =>
        if |plain| < 1 then None
        else if |plain| - 1 > MAX_INNER_PAYLOAD then Some(plain[1..1 + MAX_INNER_PAYLOAD])
        else Some(plain[1..])
  }

  /** The single response buffer that the listener fills and a waiting request empties. */
  class ResponseBox {
    const c: Suite
    const e2e: Key
    const hops: nat
    var buf: Octets
    var ready: bool

    ghost predicate Valid() reads this {
      && |buf| == hops * RETURN_BLOCK_SIZE + RETURN_PAYLOAD_SIZE
      && (ready ==> Accepts(c, e2e, buf[hops * RETURN_BLOCK_SIZE..]))
    }

    constructor (c: Suite, e2e: Key, hops: nat)
      ensures Valid() && !ready && this.c == c && this.e2e == e2e && this.hops == hops
    {
      this.c, this.e2e, this.hops := c, e2e, hops;
      buf := Zeros(hops * RETURN_BLOCK_SIZE + RETURN_PAYLOAD_SIZE);
      ready := false;
    }

    /** The listener: anything that does not decrypt to a real response is discarded. */
    method ResponseListener(wire: Octets)
      requires Valid() && |wire| == hops * RETURN_BLOCK_SIZE + RETURN_PAYLOAD_SIZE
      modifies this
      ensures Valid()
      ensures if Accepts(c, e2e, wire[hops * RETURN_BLOCK_SIZE..]) then ready && buf == wire
              else ready == old(ready) && buf == old(buf)
    {
      var at := hops * RETURN_BLOCK_SIZE;
      var encLen := FromBe16(wire[at], wire[at + 1]);
      assert wire[at..][..2] == wire[at..at + 2];
      if encLen >= GCM_OVERHEAD && encLen <= LISTENER_MAX {
        assert wire[at..][2..2 + encLen] == wire[at + 2..at + 2 + encLen];
        var plain := c.unseal(e2e, wire[at + 2..at + 2 + encLen]);
        if plain.Some? && |plain.value| >= 1 && plain.value[0] == PKT_REAL {
          buf, ready := wire, true;
        }
      }
    }

    /** A waiting request: None on timeout; otherwise the buffered response, which is consumed. */
    method WaitResponse() returns (resp: Option<Octets>)
      requires Valid()
      modifies this
      ensures Valid() && !ready && buf == old(buf)
      ensures resp == if old(ready) then Read(c, e2e, buf[hops * RETURN_BLOCK_SIZE..]) else None
      ensures old(ready) ==> resp.Some?
    {
      if !ready { return None; }
      ready := false;
      resp := Read(c, e2e, buf[hops * RETURN_BLOCK_SIZE..]);
    }
  }

  /** Whatever is signalled can be read, and what is read follows a flags byte that says real. */
  lemma AcceptedIsReal(c: Suite, e2e: Key, region: Octets)
    requires |region| == RETURN_PAYLOAD_SIZE && Accepts(c, e2e, region)
    ensures var plain := c.unseal(e2e, region[2..2 + FromBe16(region[0], region[1])]);
      && plain.Some? && |plain.value| >= 1 && plain.value[0] == PKT_REAL
      && Read(c, e2e, region).Some? && Read(c, e2e, region).value <= plain.value[1..]
  {
  }

  /** What the client makes of a response of any length and any flags that reached its port. */
  lemma HeardIff(c: Suite, e2e: Key, flags: byte, resp: Octets, gcmNonce: Octets)
    requires Lawful(c) && |resp| <= MAX_RESPONSE
    ensures var region := Region(c.seal(e2e, gcmNonce, [flags] + resp));
      && (Accepts(c, e2e, region) <==> flags == PKT_REAL && |resp| <= MAX_HEARD)
      && Read(c, e2e, region) == Some(if |resp| <= MAX_INNER_PAYLOAD then resp else resp[..MAX_INNER_PAYLOAD])
  {
    var plain := [flags] + resp;
    var ct := c.seal(e2e, gcmNonce, plain);
    var region := Region(ct);
    Be16RoundTrip(|ct|);
    assert region[2..2 + |ct|] == ct;
    assert plain[1..] == resp;
    assert |resp| > MAX_INNER_PAYLOAD ==> plain[1..1 + MAX_INNER_PAYLOAD] == resp[..MAX_INNER_PAYLOAD];
  }

  /** A packet as the gateway sends it is under way at the first node of a live path. */
  lemma {:induction false} SentIsUnderway(c: Suite, derive: Derive, region: Octets, trip: Trip)
    requires HopsOk(trip.hops) && NoncesOk(trip.nonces) && |trip.hops| == |trip.nonces| && |trip.hops| > 0
    requires PathUp(derive, trip.nodes, trip.at, trip.hops, trip.nonces) && |trip.visits| >= |trip.hops|
    requires Distinct(Stops(trip.at, trip.hops)) && |region| == RETURN_PAYLOAD_SIZE
    requires trip.wire == HeaderOf(c, trip.hops, trip.nonces) + BlindedBy(c, Blinds(trip.hops), region)
    ensures Underway(c, derive, |trip.hops|, region, trip)
    ensures |trip.wire| == |trip.hops| * RETURN_BLOCK_SIZE + RETURN_PAYLOAD_SIZE
  {
  }

  /** Whatever region is sent arrives behind the last hop. */
  lemma {:induction false} SentArrives(c: Suite, derive: Derive, nodes: Network, first: Octets, hops: seq<ReturnHop>,
                                       nonces: seq<Octets>, region: Octets, visits: seq<Visit>)
    returns (end: Octets)
    requires HopsOk(hops) && NoncesOk(nonces) && |hops| == |nonces|
    requires |hops| > 0 && PathUp(derive, nodes, first, hops, nonces) && |visits| >= |hops|
    requires Distinct(Stops(first, hops)) && |region| == RETURN_PAYLOAD_SIZE
    ensures var wire := HeaderOf(c, hops, nonces) + BlindedBy(c, Blinds(hops), region);
      && Route(c, derive, |hops|, nodes, first, wire, visits).0
         == Some(Arrival(Stops(first, hops), hops[|hops| - 1].addr, end))
      && |end| == |wire| && end[|hops| * RETURN_BLOCK_SIZE..] == region
  {
    var wire := HeaderOf(c, hops, nonces) + BlindedBy(c, Blinds(hops), region);
    var trip := Trip(nodes, first, hops, nonces, wire, visits);
    SentIsUnderway(c, derive, region, trip);
    end := RouteDelivers(c, derive, |hops|, region, trip);
  }

  /**
   The way back as a whole. A response that the gateway sends visits exactly the addresses of the
   path in order and is handed to the client's port with all layers off. The waiting request then
   reads the response byte for byte if and only if it was flagged real and has at most 463 bytes.
   Longer ones arrive cut (up to 483 bytes) or not at all, and cover never arrives.
   */
  lemma {:induction false} ReturnPathRoundTrip(c: Suite, derive: Derive, nodes: Network, first: Octets,
                                               hops: seq<ReturnHop>,
                                               nonces: seq<Octets>, e2e: Key, flags: byte, resp: Octets,
                                               gcmNonce: Octets,
                                               visits: seq<Visit>)
    requires Lawful(c) && HopsOk(hops) && NoncesOk(nonces) && |hops| == |nonces|
    requires |hops| > 0 && PathUp(derive, nodes, first, hops, nonces) && |visits| >= |hops|
    requires Distinct(Stops(first, hops)) && |resp| <= MAX_RESPONSE
    ensures var wire := HeaderOf(c, hops, nonces) + BlindedBy(c, Blinds(hops),
                                 Region(c.seal(e2e, gcmNonce, [flags] + resp)));
      var r := Route(c, derive, |hops|, nodes, first, wire, visits).0;
      && r.Some? && r.value.visited == Stops(first, hops) && r.value.client == hops[|hops| - 1].addr
      && var region := r.value.wire[|hops| * RETURN_BLOCK_SIZE..];
      && (Accepts(c, e2e, region) <==> flags == PKT_REAL && |resp| <= MAX_HEARD)
      && (Accepts(c, e2e, region) && Read(c, e2e, region) == Some(resp) <==>
        flags == PKT_REAL && |resp| <= MAX_INNER_PAYLOAD)
  {
    var region := Region(c.seal(e2e, gcmNonce, [flags] + resp));
    var end := SentArrives(c, derive, nodes, first, hops, nonces, region, visits);
    HeardIff(c, e2e, flags, resp, gcmNonce);
  }
}

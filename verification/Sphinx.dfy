/**
 The forward packet: the sender nests one header block per hop and blinds the payload once per
 hop; each hop peels its block and cancels its layer; the gateway unwraps what is left.
 The number of hops is the length of the path; the deployed value is three.
 */
module Sphinx {
  import opened Common
  import opened Bytes
  import opened Crypto

  const BLIND_KEY_BYTES := 32
  const NONCE_BYTES := 8
  const HEADER_BLOCK_SIZE := 95
  const PAYLOAD_SECTION_SIZE := 739
  const INNER_HDR_BYTES := 3
  const SG_HINT_BYTES := 16
  const HOP_FLAG_FORWARD: byte := 0x00
  const HOP_DROP_MARKER: byte := 0xC3

  /** Offsets inside a header block: what the MAC covers ends where the MAC begins. */
  const REST_BYTES := 39 // enc_addr, enc_bkey, enc_flags
  const MACED_BYTES := 47 // the same and enc_nonce

  datatype Hop = Hop(headerEnc: Key, headerMac: Key, blind: Key, hintSeed: Key)

  datatype Path = Path(hops: seq<Hop>, ports: seq<Port>, sgPort: Port, e2e: Key, sgHint: Octets) {
    ghost predicate Valid() {
      0 < |hops| == |ports| && |sgHint| == SG_HINT_BYTES
    }
  }

  /** The gateway's port behind the last hop. */
  function LastPort(path: Path): Port { if path.sgPort == 0 then PORT_SERVICE_GW else path.sgPort }

  /** The port the node at hop i is told to forward to; the gateway's default port if none is set. */
  function NextPort(path: Path, i: nat): Port
    requires path.Valid() && i < |path.hops|
  {
    if i + 1 < |path.hops| then path.ports[i + 1] else if path.sgPort != 0 then path.sgPort else PORT_SERVICE_GW
  }

  /** The eight big-endian bytes of a packet counter. */
  function Be64(v: nat): (r: Octets)
    ensures |r| == 8
  {
    [v / 0x100_0000_0000_0000 % 256, v / 0x1_0000_0000_0000 % 256, v / 0x100_0000_0000 % 256, v / 0x1_0000_0000 % 256,
     v / 0x100_0000 % 256, v / 0x1_0000 % 256, v / 0x100 % 256, v % 256]
  }

  function HopHint(c: Suite, seed: Key, counter: nat): (r: Octets)
    ensures |r| == HINT_BYTES
  {
    c.hmac(seed, Be64(counter))
  }

  // ---------------------------------------------------------------- what is built

  function EncNonce(c: Suite, hop: Hop, nonce: Octets): (r: Octets)
    ensures |r| == |nonce|
  {
    CtrXor(c, hop.headerEnc, ZERO_IV, nonce)
  }

  function HopIv(c: Suite, hop: Hop, nonce: Octets): Octets
  {
    DeriveIv(c, EncNonce(c, hop, nonce))
  }

  /** A hop's routing information in the clear: next address, blinding key, flag. */
  function RoutingInfo(port: Port, blind: Key, flag: byte): (r: Octets)
    ensures |r| == REST_BYTES
  {
    [127, 0, 0, 1] + Be16(port) + blind + [flag]
  }

  function HeaderBlock(c: Suite, hop: Hop, port: Port, flag: byte, nonce: Octets, counter: nat): (r: Octets)
    requires |nonce| == NONCE_BYTES
    ensures |r| == HEADER_BLOCK_SIZE
  {
    var maced := CtrXor(c, hop.headerEnc, HopIv(c, hop, nonce), RoutingInfo(port, hop.blind, flag)) + EncNonce(c, hop,
                        nonce);
    maced + Mac(c, hop.headerMac, maced) + HopHint(c, hop.hintSeed, counter)
  }

  function FlagAt(dropAt: int, i: nat): byte {
    if i == dropAt then HOP_DROP_MARKER else HOP_FLAG_FORWARD
  }

  predicate NoncesFor(path: Path, nonces: seq<Octets>) {
    |nonces| == |path.hops| && forall i :: 0 <= i < |nonces| ==> |nonces[i]| == NONCE_BYTES
  }

  /** The blocks of hops i, i+1, .. in order. */
  function HeaderFrom(c: Suite, path: Path, nonces: seq<Octets>, counter: nat, dropAt: int, i: nat): (r: Octets)
    requires path.Valid() && NoncesFor(path, nonces) && i <= |path.hops|
    ensures |r| == (|path.hops| - i) * HEADER_BLOCK_SIZE
    decreases |path.hops| - i
  {
    if i == |path.hops| then [] else
    HeaderBlock(c, path.hops[i], NextPort(path, i), FlagAt(dropAt, i), nonces[i], counter)
    + HeaderFrom(c, path, nonces, counter, dropAt, i + 1)
  }

  /** The plaintext of the end-to-end layer. */
  function InnerPayload(flags: byte, payload: Octets): (r: Octets)
    requires |payload| <= MAX_INNER_PAYLOAD
    ensures |r| == INNER_HDR_BYTES + |payload|
  {
    [flags] + Be16(|payload|) + payload
  }

  /** The payload section the gateway must end up with: length, ciphertext, zeros, gateway hint. */
  function E2eSection(c: Suite, path: Path, flags: byte, payload: Octets, gcmNonce: Octets): (r: Octets)
    requires Lawful(c) && path.Valid() && |payload| <= MAX_INNER_PAYLOAD
    ensures |r| == PAYLOAD_SECTION_SIZE
  {
    var ct := c.seal(path.e2e, gcmNonce, InnerPayload(flags, payload));
    Be16(|ct|) + ct + Zeros(PAYLOAD_SECTION_SIZE - 2 - |ct| - SG_HINT_BYTES) + path.sgHint
  }

  /** The payload section as hop i receives it: the layers of hops i, i+1, .. are still on. */
  function BlindedFrom(c: Suite, path: Path, nonces: seq<Octets>, section: Octets, i: nat): (r: Octets)
    requires NoncesFor(path, nonces) && i <= |path.hops|
    ensures |r| == |section|
    decreases |path.hops| - i
  {
    if i == |path.hops| then section
    else CtrXor(c, path.hops[i].blind, HopIv(c, path.hops[i], nonces[i]), BlindedFrom(c, path, nonces, section, i + 1))
  }

  /** The packet as it leaves the sender. */
  function WirePacket(c: Suite, path: Path, payload: Octets, flags: byte, counter: nat, dropAt: int,
                      nonces: seq<Octets>, gcmNonce: Octets): (r: Octets)
    requires Lawful(c) && path.Valid() && NoncesFor(path, nonces) && |payload| <= MAX_INNER_PAYLOAD
    ensures |r| == |path.hops| * HEADER_BLOCK_SIZE + PAYLOAD_SECTION_SIZE
  {
    HeaderFrom(c, path, nonces, counter, dropAt, 0)
    + BlindedFrom(c, path, nonces, E2eSection(c, path, flags, payload, gcmNonce), 0)
  }

  /** Every hop's encrypted nonce and the IV that comes from it. */
  method PrepareNonces(c: Suite, path: Path, nonces: seq<Octets>) returns (encNonces: seq<Octets>, ivs: seq<Octets>)
    requires NoncesFor(path, nonces)
    ensures |encNonces| == |ivs| == |path.hops|
    ensures forall i :: 0 <= i < |path.hops| ==> encNonces[i] == EncNonce(c, path.hops[i], nonces[i])
    ensures forall i :: 0 <= i < |path.hops| ==> ivs[i] == HopIv(c, path.hops[i], nonces[i])
  {
    encNonces, ivs := [], [];
    for hop := 0 to |path.hops|
      invariant |encNonces| == |ivs| == hop
      invariant forall i :: 0 <= i < hop ==> encNonces[i] == EncNonce(c, path.hops[i], nonces[i])
      invariant forall i :: 0 <= i < hop ==> ivs[i] == HopIv(c, path.hops[i], nonces[i])
    {
      encNonces := encNonces + [CtrXor(c, path.hops[hop].headerEnc, ZERO_IV, nonces[hop])];
      ivs := ivs + [DeriveIv(c, encNonces[hop])];
    }
  }

  /** Blinds the section once per hop, the last hop's layer first. */
  method ApplyBlinding(c: Suite, path: Path, ghost nonces: seq<Octets>, ivs: seq<Octets>,
                       section: Octets) returns (blinded: Octets)
    requires NoncesFor(path, nonces) && |ivs| == |path.hops|
    requires forall i :: 0 <= i < |path.hops| ==> ivs[i] == HopIv(c, path.hops[i], nonces[i])
    ensures blinded == BlindedFrom(c, path, nonces, section, 0)
  {
    blinded := section;
    for hop := |path.hops| downto 0
      invariant blinded == BlindedFrom(c, path, nonces, section, hop)
    {
      blinded := CtrXor(c, path.hops[hop].blind, ivs[hop], blinded);
    }
  }

  /** One block, from values prepared earlier. */
  method BuildBlock(c: Suite, hop: Hop, port: Port, flag: byte, ghost nonce: Octets, encNonce: Octets, iv: Octets,
                    counter: nat)
    returns (block: Octets)
    requires |nonce| == NONCE_BYTES && encNonce == EncNonce(c, hop, nonce) && iv == HopIv(c, hop, nonce)
    ensures block == HeaderBlock(c, hop, port, flag, nonce, counter)
  {
    var maced := CtrXor(c, hop.headerEnc, iv, RoutingInfo(port, hop.blind, flag)) + encNonce;
    block := maced + Mac(c, hop.headerMac, maced) + HopHint(c, hop.hintSeed, counter);
  }

  lemma HeaderStep(header: Octets, block: Octets, rest: Octets, whole: Octets)
    requires header + (block + rest) == whole
    ensures (header + block) + rest == whole
  {
  }

  /** Writes every hop's block, the first hop's first. */
  method BuildHeader(c: Suite, path: Path, ghost nonces: seq<Octets>, encNonces: seq<Octets>, ivs: seq<Octets>,
                     counter: nat, dropAt: int)
    returns (header: Octets)
    requires path.Valid() && NoncesFor(path, nonces) && |ivs| == |encNonces| == |path.hops|
    requires forall i :: 0 <= i < |path.hops| ==> encNonces[i] == EncNonce(c, path.hops[i], nonces[i])
    requires forall i :: 0 <= i < |path.hops| ==> ivs[i] == HopIv(c, path.hops[i], nonces[i])
    ensures header == HeaderFrom(c, path, nonces, counter, dropAt, 0)
  {
    header := [];
    ghost var whole := HeaderFrom(c, path, nonces, counter, dropAt, 0);
    for i := 0 to |path.hops|
      invariant header + HeaderFrom(c, path, nonces, counter, dropAt, i) == whole
    {
      var flag: byte := if i == dropAt then HOP_DROP_MARKER else HOP_FLAG_FORWARD;
      var block := BuildBlock(c, path.hops[i], NextPort(path, i), flag, nonces[i], encNonces[i], ivs[i], counter);
      HeaderStep(header, block, HeaderFrom(c, path, nonces, counter, dropAt, i + 1), whole);
      header := header + block;
    }
  }

  /** The two parts of the packet, one after the other. */
  method Assemble(out: array<byte>, header: Octets, payload: Octets)
    requires out.Length == |header| + |payload|
    modifies out
    ensures out[..] == header + payload
  {
    Copy(out, 0, header);
    Copy(out, |header|, payload);
  }

  /**
   Builds the packet into `out`; `nonces` and `gcmNonce` are the fresh random values.
   Refuses a drop hop outside the path and a payload over the limit, leaving `out` alone.
   */
  method PacketSphinxBuildEx(c: Suite, path: Path, payload: Octets, flags: byte, counter: nat, dropAt: int,
                             nonces: seq<Octets>, gcmNonce: Octets, out: array<byte>) returns (rc: int)
    requires Lawful(c) && path.Valid() && NoncesFor(path, nonces)
    requires out.Length == |path.hops| * HEADER_BLOCK_SIZE + PAYLOAD_SECTION_SIZE
    modifies out
    ensures rc == if -1 <= dropAt < |path.hops| && |payload| <= MAX_INNER_PAYLOAD then 0 else -1
    ensures rc == 0 ==> out[..] == WirePacket(c, path, payload, flags, counter, dropAt, nonces, gcmNonce)
    ensures rc != 0 ==> out[..] == old(out[..])
  {
    if dropAt < -1 || dropAt >= |path.hops| { return -1; }
    if |payload| > MAX_INNER_PAYLOAD { return -1; }
    var inner := [flags] + Be16(|payload|) + payload;
    var ct := c.seal(path.e2e, gcmNonce, inner);
    var section := Be16(|ct|) + ct + Zeros(PAYLOAD_SECTION_SIZE - 2 - |ct| - SG_HINT_BYTES) + path.sgHint;
    var encNonces, ivs := PrepareNonces(c, path, nonces);
    var blinded := ApplyBlinding(c, path, nonces, ivs, section);
    var header := BuildHeader(c, path, nonces, encNonces, ivs, counter, dropAt);
    Assemble(out, header, blinded);
    rc := 0;
  }

  // ---------------------------------------------------------------- what a hop does

  datatype HopInfo = HopInfo(ip: Octets, port: Port, blind: Key, flag: byte, nonce: Octets)

  /** The hint field of the outermost block, by which a hop finds its session before peeling. */
  function OuterHint(pkt: Octets): Octets
    requires |pkt| >= HEADER_BLOCK_SIZE
  {
    pkt[MACED_BYTES + MAC_BYTES..HEADER_BLOCK_SIZE]
  }

  /** Peeling, as a value: None when the MAC does not verify. `fill` is the random filler of the freed block. */
  function Peel(c: Suite, hops: nat, pkt: Octets, headerEnc: Key, headerMac: Key,
                fill: Octets): (r: Option<(HopInfo, Octets)>)
    requires hops > 0 && |pkt| == hops * HEADER_BLOCK_SIZE + PAYLOAD_SECTION_SIZE && |fill| == HEADER_BLOCK_SIZE
    ensures r.Some? ==> |r.value.1| == |pkt|
  {
    var maced := pkt[..MACED_BYTES];
    if Mac(c, headerMac, maced) != pkt[MACED_BYTES..MACED_BYTES + MAC_BYTES] then None
    else
      var encNonce := maced[REST_BYTES..];
      var iv := DeriveIv(c, encNonce);
      var rest := CtrXor(c, headerEnc, iv, maced[..REST_BYTES]);
      var info := HopInfo(rest[..4], FromBe16(rest[4], rest[5]), rest[ADDR_BYTES..ADDR_BYTES + BLIND_KEY_BYTES],
                          rest[ADDR_BYTES + BLIND_KEY_BYTES], CtrXor(c, headerEnc, ZERO_IV, encNonce));
      Some((info, pkt[HEADER_BLOCK_SIZE..hops * HEADER_BLOCK_SIZE] + fill
                  + CtrXor(c, info.blind, iv, pkt[hops * HEADER_BLOCK_SIZE..])))
  }

  /** A packet is peeled if and only if bytes 47 to 62 are the MAC of what comes before. */
  lemma {:induction false} PeelIff(c: Suite, hops: nat, pkt: Octets, headerEnc: Key, headerMac: Key, fill: Octets)
    requires hops > 0 && |pkt| == hops * HEADER_BLOCK_SIZE + PAYLOAD_SECTION_SIZE && |fill| == HEADER_BLOCK_SIZE
    ensures Peel(c, hops, pkt, headerEnc, headerMac, fill).None? <==>
      c.hmac(headerMac, pkt[..47])[..16] != pkt[47..63]
  {
  }

  /** Its nonce lies in bytes 39 to 46, encrypted under a zero IV. */
  lemma {:induction false} PeeledNonce(c: Suite, hops: nat, pkt: Octets, headerEnc: Key, headerMac: Key, fill: Octets)
    requires hops > 0 && |pkt| == hops * HEADER_BLOCK_SIZE + PAYLOAD_SECTION_SIZE && |fill| == HEADER_BLOCK_SIZE
    requires Peel(c, hops, pkt, headerEnc, headerMac, fill).Some?
    ensures Peel(c, hops, pkt, headerEnc, headerMac, fill).value.0.nonce == CtrXor(c, headerEnc, ZERO_IV, pkt[39..47])
  {
    assert pkt[..MACED_BYTES][REST_BYTES..] == pkt[39..47];
  }

  /** Random bytes everywhere, then the shifted header over the front and the payload over the end. */
  method WritePeeled(out: array<byte>, random: Octets, header: Octets, payload: Octets)
    requires out.Length == |random| == |header| + HEADER_BLOCK_SIZE + |payload|
    modifies out
    ensures out[..] == header + random[|header|..|header| + HEADER_BLOCK_SIZE] + payload
  {
    Copy(out, 0, random);
    Copy(out, 0, header);
    Copy(out, |header| + HEADER_BLOCK_SIZE, payload);
  }

  /**
   Peels `pkt` into `out`: shifts the header left by one block, random-fills the freed block, unblinds the
   payload.
   */
  method PacketSphinxPeel(c: Suite, hops: nat, pkt: array<byte>, headerEnc: Key, headerMac: Key, random: Octets,
                          out: array<byte>)
    returns (info: Option<HopInfo>)
    requires hops > 0 && pkt != out
    requires pkt.Length == out.Length == |random| == hops * HEADER_BLOCK_SIZE + PAYLOAD_SECTION_SIZE
    modifies out
    ensures var r := Peel(c, hops, pkt[..], headerEnc, headerMac,
                          random[(hops - 1) * HEADER_BLOCK_SIZE..hops * HEADER_BLOCK_SIZE]);
      && (info.None? <==> r.None?)
      && (info.Some? ==> info.value == r.value.0 && out[..] == r.value.1)
      && (info.None? ==> out[..] == old(out[..]))
    ensures info.None? <==> c.hmac(headerMac, pkt[..47])[..16] != pkt[47..63]
  {
    var maced := pkt[..MACED_BYTES];
    if Mac(c, headerMac, maced) != pkt[MACED_BYTES..MACED_BYTES + MAC_BYTES] { return None; }
    var encNonce := pkt[REST_BYTES..MACED_BYTES];
    assert encNonce == maced[REST_BYTES..] && pkt[..REST_BYTES] == maced[..REST_BYTES];
    var nonce := CtrXor(c, headerEnc, ZERO_IV, encNonce);
    var iv := DeriveIv(c, encNonce);
    var rest := CtrXor(c, headerEnc, iv, pkt[..REST_BYTES]);
    var blind: Key := rest[ADDR_BYTES..ADDR_BYTES + BLIND_KEY_BYTES];
    info := Some(HopInfo(rest[..4], FromBe16(rest[4], rest[5]), blind, rest[ADDR_BYTES + BLIND_KEY_BYTES], nonce));

    var header := hops * HEADER_BLOCK_SIZE;
    var payload := CtrXor(c, blind, iv, pkt[header..]);
    assert pkt[..][HEADER_BLOCK_SIZE..header] == pkt[HEADER_BLOCK_SIZE..header] && pkt[..][header..] == pkt[header..];
    WritePeeled(out, random, pkt[HEADER_BLOCK_SIZE..header], payload);
  }

  // ---------------------------------------------------------------- what the gateway does

  /** Unwrapping the payload section: None on an implausible length or failed authentication. */
  function Unwrap(c: Suite, section: Octets, e2e: Key): (r: Option<(byte, Octets)>)
    requires |section| == PAYLOAD_SECTION_SIZE
    ensures r.Some? ==> |r.value.1| <= MAX_INNER_PAYLOAD
  {
    var encLen := FromBe16(section[0], section[1]);
    if encLen < GCM_OVERHEAD + INNER_HDR_BYTES || encLen > PAYLOAD_SECTION_SIZE - 2 then None
    else
      match c.unseal(e2e, section[2..2 + encLen])
      case None => None
      case Some(plain) =>
        if |plain| < INNER_HDR_BYTES then None
        else
          var len := FromBe16(plain[1], plain[2]);
          if len > |plain| - INNER_HDR_BYTES || len > MAX_INNER_PAYLOAD then None
          else Some((plain[0], plain[INNER_HDR_BYTES..INNER_HDR_BYTES + len]))
  }

  // ---------------------------------------------------------------- round trip

  /** The packet as hop i receives it: blocks i, i+1, .. in front (whatever fills the rest), layers i, i+1, .. on. */
  ghost predicate Arriving(c: Suite, path: Path, nonces: seq<Octets>, section: Octets, counter: nat, dropAt: int,
                           i: nat, pkt: Octets)
    requires path.Valid() && NoncesFor(path, nonces) && |section| == PAYLOAD_SECTION_SIZE
  {
    var n := |path.hops|;
    && i <= n && |pkt| == n * HEADER_BLOCK_SIZE + PAYLOAD_SECTION_SIZE
    && pkt[..(n - i) * HEADER_BLOCK_SIZE] == HeaderFrom(c, path, nonces, counter, dropAt, i)
    && pkt[n * HEADER_BLOCK_SIZE..] == BlindedFrom(c, path, nonces, section, i)
  }

  /** A packet with another MAC in its outermost block. */
  function WithMac(pkt: Octets, mac: Octets): (r: Octets)
    requires |pkt| >= HEADER_BLOCK_SIZE && |mac| == MAC_BYTES
    ensures |r| == |pkt|
  {
    pkt[..MACED_BYTES] + mac + pkt[MACED_BYTES + MAC_BYTES..]
  }

  /** A packet on its way whose MAC field has been changed, in whatever way, is refused by the next hop. */
  lemma ChangedMacIsRefused(c: Suite, path: Path, nonces: seq<Octets>, section: Octets, counter: nat, dropAt: int,
                            i: nat, pkt: Octets, mac: Octets, fill: Octets)
    requires path.Valid() && NoncesFor(path, nonces) && |section| == PAYLOAD_SECTION_SIZE
    requires i < |path.hops| && |fill| == HEADER_BLOCK_SIZE && |mac| == MAC_BYTES
    requires Arriving(c, path, nonces, section, counter, dropAt, i, pkt)
    requires |pkt| >= HEADER_BLOCK_SIZE && WithMac(pkt, mac) != pkt
    ensures OuterHint(WithMac(pkt, mac)) == HopHint(c, path.hops[i].hintSeed, counter)
    ensures Peel(c, |path.hops|, WithMac(pkt, mac), path.hops[i].headerEnc, path.hops[i].headerMac, fill).None?
  {
    var forged := WithMac(pkt, mac);
    PeelOne(c, path, nonces, section, counter, dropAt, i, pkt, fill);
    PeelIff(c, |path.hops|, pkt, path.hops[i].headerEnc, path.hops[i].headerMac, fill);
    PeelIff(c, |path.hops|, forged, path.hops[i].headerEnc, path.hops[i].headerMac, fill);
    assert forged[..47] == pkt[..47] && forged[47..63] == mac && forged[63..] == pkt[63..];
    assert pkt == pkt[..47] + pkt[47..63] + pkt[63..];
    assert OuterHint(forged) == OuterHint(pkt);
  }

  /** A block read back under the keys it was built with. */
  lemma OpenBlock(c: Suite, hop: Hop, port: Port, flag: byte, nonce: Octets, counter: nat, block: Octets)
    requires |nonce| == NONCE_BYTES && block == HeaderBlock(c, hop, port, flag, nonce, counter)
    ensures Mac(c, hop.headerMac, block[..MACED_BYTES]) == block[MACED_BYTES..MACED_BYTES + MAC_BYTES]
    ensures block[REST_BYTES..MACED_BYTES] == EncNonce(c, hop, nonce)
    ensures CtrXor(c, hop.headerEnc, HopIv(c, hop, nonce), block[..REST_BYTES]) == RoutingInfo(port, hop.blind, flag)
    ensures CtrXor(c, hop.headerEnc, ZERO_IV, block[REST_BYTES..MACED_BYTES]) == nonce
    ensures block[MACED_BYTES + MAC_BYTES..] == HopHint(c, hop.hintSeed, counter)
  {
    var rest := CtrXor(c, hop.headerEnc, HopIv(c, hop, nonce), RoutingInfo(port, hop.blind, flag));
    assert block[..MACED_BYTES] == rest + EncNonce(c, hop, nonce);
    assert block[..REST_BYTES] == rest;
    CtrCancels(c, hop.headerEnc, HopIv(c, hop, nonce), RoutingInfo(port, hop.blind, flag));
    CtrCancels(c, hop.headerEnc, ZERO_IV, nonce);
  }

  lemma ReadRoutingInfo(port: Port, blind: Key, flag: byte)
    ensures var r := RoutingInfo(port, blind, flag);
      && r[..4] == [127, 0, 0, 1] && FromBe16(r[4], r[5]) == port
      && r[ADDR_BYTES..ADDR_BYTES + BLIND_KEY_BYTES] == blind && r[ADDR_BYTES + BLIND_KEY_BYTES] == flag
  {
  }

  /**
   One hop: the outermost block carries this hop's hint, the MAC verifies, the hop learns its next
   port, flag and nonce, and what it sends on is what the next hop must receive.
   */
  lemma PeelOne(c: Suite, path: Path, nonces: seq<Octets>, section: Octets, counter: nat, dropAt: int, i: nat,
                pkt: Octets, fill: Octets)
    requires path.Valid() && NoncesFor(path, nonces) && |section| == PAYLOAD_SECTION_SIZE
    requires i < |path.hops| && |fill| == HEADER_BLOCK_SIZE
    requires Arriving(c, path, nonces, section, counter, dropAt, i, pkt)
    ensures OuterHint(pkt) == HopHint(c, path.hops[i].hintSeed, counter)
    ensures var r := Peel(c, |path.hops|, pkt, path.hops[i].headerEnc, path.hops[i].headerMac, fill);
      && r.Some?
      && r.value.0 == InfoAt(path, nonces, dropAt, i)
      && Arriving(c, path, nonces, section, counter, dropAt, i + 1, r.value.1)
  {
    var n, hop := |path.hops|, path.hops[i];
    var block := HeaderBlock(c, hop, NextPort(path, i), FlagAt(dropAt, i), nonces[i], counter);
    var rest := HeaderFrom(c, path, nonces, counter, dropAt, i + 1);
    assert pkt[..(n - i) * HEADER_BLOCK_SIZE] == block + rest;
    assert pkt[..HEADER_BLOCK_SIZE] == block;
    assert pkt[HEADER_BLOCK_SIZE..(n - i) * HEADER_BLOCK_SIZE] == rest;
    OpenBlock(c, hop, NextPort(path, i), FlagAt(dropAt, i), nonces[i], counter, block);
    ReadRoutingInfo(NextPort(path, i), hop.blind, FlagAt(dropAt, i));
    assert pkt[..MACED_BYTES] == block[..MACED_BYTES];
    assert pkt[..MACED_BYTES][REST_BYTES..] == block[REST_BYTES..MACED_BYTES];
    assert pkt[..MACED_BYTES][..REST_BYTES] == block[..REST_BYTES];
    var inside := BlindedFrom(c, path, nonces, section, i + 1);
    CtrCancels(c, hop.blind, HopIv(c, hop, nonces[i]), inside);
    var out := pkt[HEADER_BLOCK_SIZE..n * HEADER_BLOCK_SIZE] + fill + inside;
    assert out[..(n - i - 1) * HEADER_BLOCK_SIZE] == rest;
    assert out[n * HEADER_BLOCK_SIZE..] == inside;
  }

  /** The packet travels from hop i to the end; every hop peels with its own keys and its own filler. */
  function Travel(c: Suite, path: Path, i: nat, pkt: Octets, fills: seq<Octets>): (r: Option<(seq<HopInfo>, Octets)>)
    requires path.Valid() && i <= |path.hops| == |fills|
    requires forall j :: 0 <= j < |fills| ==> |fills[j]| == HEADER_BLOCK_SIZE
    requires |pkt| == |path.hops| * HEADER_BLOCK_SIZE + PAYLOAD_SECTION_SIZE
    ensures r.Some? ==> |r.value.1| == |pkt|
    decreases |path.hops| - i
  {
    if i == |path.hops| then Some(([], pkt)) else
    match Peel(c, |path.hops|, pkt, path.hops[i].headerEnc, path.hops[i].headerMac, fills[i])
    case None => None
    case Some((info, next)) =>
      match Travel(c, path, i + 1, next, fills)
      case None => None
      case Some((infos, last)) => Some(([info] + infos, last))
  }

  function InfoAt(path: Path, nonces: seq<Octets>, dropAt: int, i: nat): HopInfo
    requires path.Valid() && NoncesFor(path, nonces) && i < |path.hops|
  {
    HopInfo([127, 0, 0, 1], NextPort(path, i), path.hops[i].blind, FlagAt(dropAt, i), nonces[i])
  }

  /** What the hops i, i+1, .. are meant to learn. */
  function InfosFrom(path: Path, nonces: seq<Octets>, dropAt: int, i: nat): (r: seq<HopInfo>)
    requires path.Valid() && NoncesFor(path, nonces) && i <= |path.hops|
    ensures |r| == |path.hops| - i
    ensures forall j :: 0 <= j < |r| ==> r[j] == InfoAt(path, nonces, dropAt, i + j)
    decreases |path.hops| - i
  {
    if i == |path.hops| then [] else [InfoAt(path, nonces, dropAt, i)] + InfosFrom(path, nonces, dropAt, i + 1)
  }

  lemma {:induction false} TravelDelivers(c: Suite, path: Path, nonces: seq<Octets>, section: Octets, counter: nat,
                                          dropAt: int,
                                          i: nat, pkt: Octets, fills: seq<Octets>)
    requires path.Valid() && NoncesFor(path, nonces) && |section| == PAYLOAD_SECTION_SIZE
    requires i <= |path.hops| == |fills| && forall j :: 0 <= j < |fills| ==> |fills[j]| == HEADER_BLOCK_SIZE
    requires Arriving(c, path, nonces, section, counter, dropAt, i, pkt)
    ensures var r := Travel(c, path, i, pkt, fills);
      r.Some? && r.value.0 == InfosFrom(path, nonces, dropAt, i) && r.value.1[|path.hops| * HEADER_BLOCK_SIZE..]
           == section
    decreases |path.hops| - i
  {
    if i < |path.hops| {
      PeelOne(c, path, nonces, section, counter, dropAt, i, pkt, fills[i]);
      var next := Peel(c, |path.hops|, pkt, path.hops[i].headerEnc, path.hops[i].headerMac, fills[i]).value.1;
      TravelDelivers(c, path, nonces, section, counter, dropAt, i + 1, next, fills);
    }
  }

  /** The gateway reads back the flags and the payload, and the gateway hint sits in the last bytes. */
  lemma UnwrapSection(c: Suite, path: Path, flags: byte, payload: Octets, gcmNonce: Octets)
    requires Lawful(c) && path.Valid() && |payload| <= MAX_INNER_PAYLOAD
    ensures Unwrap(c, E2eSection(c, path, flags, payload, gcmNonce), path.e2e) == Some((flags, payload))
    ensures E2eSection(c, path, flags, payload, gcmNonce)[PAYLOAD_SECTION_SIZE - SG_HINT_BYTES..] == path.sgHint
  {
    var inner := InnerPayload(flags, payload);
    var ct := c.seal(path.e2e, gcmNonce, inner);
    var section := E2eSection(c, path, flags, payload, gcmNonce);
    Be16RoundTrip(|ct|);
    Be16RoundTrip(|payload|);
    assert section[2..2 + |ct|] == ct;
    assert inner[INNER_HDR_BYTES..INNER_HDR_BYTES + |payload|] == payload;
  }

  lemma Departs(c: Suite, path: Path, nonces: seq<Octets>, section: Octets, counter: nat, dropAt: int, pkt: Octets)
    requires path.Valid() && NoncesFor(path, nonces) && |section| == PAYLOAD_SECTION_SIZE
    requires pkt == HeaderFrom(c, path, nonces, counter, dropAt, 0) + BlindedFrom(c, path, nonces, section, 0)
    ensures Arriving(c, path, nonces, section, counter, dropAt, 0, pkt)
  {
  }

  lemma HintIsLast(pkt: Octets, header: nat, section: Octets)
    requires header <= |pkt| && section == pkt[header..] && |section| == PAYLOAD_SECTION_SIZE
    ensures pkt[|pkt| - SG_HINT_BYTES..] == section[PAYLOAD_SECTION_SIZE - SG_HINT_BYTES..]
  {
  }

  /** What every hop learns on the way, and what is left at the end. */
  lemma TravelFromStart(c: Suite, path: Path, nonces: seq<Octets>, section: Octets, counter: nat, dropAt: int,
                        pkt: Octets, fills: seq<Octets>)
    requires path.Valid() && NoncesFor(path, nonces) && |section| == PAYLOAD_SECTION_SIZE
    requires |fills| == |path.hops| && forall j :: 0 <= j < |fills| ==> |fills[j]| == HEADER_BLOCK_SIZE
    requires pkt == HeaderFrom(c, path, nonces, counter, dropAt, 0) + BlindedFrom(c, path, nonces, section, 0)
    ensures var r := Travel(c, path, 0, pkt, fills);
      && r.Some? && |r.value.0| == |path.hops| && r.value.1[|path.hops| * HEADER_BLOCK_SIZE..] == section
      && forall j :: 0 <= j < |path.hops| ==>
        && r.value.0[j].port == (if j + 1 < |path.hops| then path.ports[j + 1] else LastPort(path))
        && r.value.0[j].ip == [127, 0, 0, 1] && r.value.0[j].nonce == nonces[j]
        && (r.value.0[j].flag == HOP_DROP_MARKER <==> j == dropAt)
  {
    Departs(c, path, nonces, section, counter, dropAt, pkt);
    TravelDelivers(c, path, nonces, section, counter, dropAt, 0, pkt, fills);
    var infos := InfosFrom(path, nonces, dropAt, 0);
    forall j | 0 <= j < |path.hops|
      ensures infos[j].port == (if j + 1 < |path.hops| then path.ports[j + 1] else LastPort(path))
      ensures infos[j].ip == [127, 0, 0, 1] && infos[j].nonce == nonces[j]
      ensures infos[j].flag == HOP_DROP_MARKER <==> j == dropAt
    {
      assert infos[j] == InfoAt(path, nonces, dropAt, 0 + j);
    }
  }

  /**
   The round trip over a path of any length: every hop accepts the packet, learns its next port and
   its own nonce, the drop marker shows at the chosen hop and nowhere else, and the gateway gets the
   flags and the payload back.
   */
  lemma SphinxRoundTrip(c: Suite, path: Path, payload: Octets, flags: byte, counter: nat, dropAt: int,
                        nonces: seq<Octets>, gcmNonce: Octets, fills: seq<Octets>)
    requires Lawful(c) && path.Valid() && NoncesFor(path, nonces) && |payload| <= MAX_INNER_PAYLOAD
    requires |fills| == |path.hops| && forall j :: 0 <= j < |fills| ==> |fills[j]| == HEADER_BLOCK_SIZE
    ensures var r := Travel(c, path, 0, WirePacket(c, path, payload, flags, counter, dropAt, nonces, gcmNonce), fills);
      && r.Some? && |r.value.0| == |path.hops|
      && (forall j :: 0 <= j < |path.hops| ==>
        && r.value.0[j].port == (if j + 1 < |path.hops| then path.ports[j + 1] else LastPort(path))
        && r.value.0[j].ip == [127, 0, 0, 1] && r.value.0[j].nonce == nonces[j]
        && (r.value.0[j].flag == HOP_DROP_MARKER <==> j == dropAt))
      && Unwrap(c, r.value.1[|path.hops| * HEADER_BLOCK_SIZE..], path.e2e) == Some((flags, payload))
      && r.value.1[|r.value.1| - SG_HINT_BYTES..] == path.sgHint
  {
    var section := E2eSection(c, path, flags, payload, gcmNonce);
    var pkt := WirePacket(c, path, payload, flags, counter, dropAt, nonces, gcmNonce);
    TravelFromStart(c, path, nonces, section, counter, dropAt, pkt, fills);
    UnwrapSection(c, path, flags, payload, gcmNonce);
    HintIsLast(Travel(c, path, 0, pkt, fills).value.1, |path.hops| * HEADER_BLOCK_SIZE, section);
  }
}

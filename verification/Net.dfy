/**
 The channel layer: send and receive loops over an operating system that moves bytes in chunks of
 its own choosing, and control messages padded to the size of a data packet.
 */
module Net {
  import opened Common
  import opened Bytes
  import opened Crypto

  const PADDED_FRAME_LEN_BYTES := 2
  const MAX_FRAME_PAYLOAD := 1022

  /** The bytes on their way between two sockets, in order. */
  class Stream {
    var bytes: Octets

    constructor ()
      ensures bytes == []
    {
      bytes := [];
    }
  }

  /** How many bytes call number k moves when asked for at most n; zero or less is a failure or a closed peer. */
  type Chunks = (nat, nat) -> int

  ghost predicate AtMostAsked(os: Chunks) {
    forall k, n :: os(k, n) <= n
  }

  /** No call fails or finds the peer gone. */
  ghost predicate KeepsMoving(os: Chunks) {
    forall k: nat, n: nat :: n > 0 ==> os(k, n) > 0
  }

  method NetSendAll(s: Stream, buf: Octets, os: Chunks) returns (rc: int)
    requires AtMostAsked(os)
    modifies s
    ensures rc == 0 || rc == -1
    ensures rc == 0 ==> s.bytes == old(s.bytes) + buf
    ensures rc == -1 ==> exists p :: 0 <= p < |buf| && s.bytes == old(s.bytes) + buf[..p]
    ensures KeepsMoving(os) ==> rc == 0
  {
    var sent, call: nat := 0, 0;
    assert buf[..0] == [];
    while sent < |buf|
      invariant sent <= |buf| && s.bytes == old(s.bytes) + buf[..sent]
    {
      var n := os(call, |buf| - sent);
      if n <= 0 { return -1; }
      s.bytes := s.bytes + buf[sent..sent + n];
      assert buf[..sent + n] == buf[..sent] + buf[sent..sent + n];
      sent, call := sent + n, call + 1;
    }
    assert buf[..sent] == buf;
    rc := 0;
  }

  /** Fills the whole of `buf` or fails; a chunk is never more than what has arrived. */
  method NetRecvAll(s: Stream, buf: array<byte>, os: Chunks) returns (rc: int)
    requires AtMostAsked(os)
    modifies s, buf
    ensures rc == 0 || rc == -1
    ensures rc == 0 ==> old(s.bytes) == buf[..] + s.bytes
    ensures |old(s.bytes)| < buf.Length ==> rc == -1
    ensures KeepsMoving(os) && |old(s.bytes)| >= buf.Length ==> rc == 0
  {
    var recvd, call: nat := 0, 0;
    while recvd < buf.Length
      invariant recvd <= buf.Length && old(s.bytes) == buf[..recvd] + s.bytes
    {
      var n := os(call, buf.Length - recvd);
      if n > |s.bytes| { n := |s.bytes|; }
      if n <= 0 { return -1; }
      Take(s, buf, recvd, n);
      recvd, call := recvd + n, call + 1;
    }
    assert buf[..recvd] == buf[..];
    rc := 0;
  }

  method Take(s: Stream, buf: array<byte>, at: nat, n: nat)
    requires n <= |s.bytes| && at + n <= buf.Length
    modifies s, buf
    ensures buf[..at + n] + s.bytes == old(buf[..at] + s.bytes)
  {
    ghost var chunk, rest, front := s.bytes[..n], s.bytes[n..], buf[..at];
    Copy(buf, at, s.bytes[..n]);
    s.bytes := s.bytes[n..];
    assert buf[..at + n] == front + chunk;
    assert (front + chunk) + rest == front + (chunk + rest);
  }

  // ---------------------------------------------------------------- padded frames

  type Pad = p: Octets | |p| == WIRE_PACKET_SIZE witness Zeros(WIRE_PACKET_SIZE)

  /** Length, payload, random bytes up to the size of a data packet. */
  function Frame(payload: Octets, random: Pad): (r: Octets)
    requires |payload| <= MAX_FRAME_PAYLOAD
    ensures |r| == WIRE_PACKET_SIZE
  {
    Be16(|payload|) + payload + random[PADDED_FRAME_LEN_BYTES + |payload|..]
  }

  function Unframe(buf: Octets, maxLen: nat): (r: Option<Octets>)
    requires |buf| == WIRE_PACKET_SIZE
    ensures r.Some? ==> |r.value| <= maxLen
  {
    var len := FromBe16(buf[0], buf[1]);
    if len > maxLen || len > MAX_FRAME_PAYLOAD then None
    else Some(buf[PADDED_FRAME_LEN_BYTES..PADDED_FRAME_LEN_BYTES + len])
  }

  lemma FrameRoundTrip(payload: Octets, random: Pad, maxLen: nat)
    requires |payload| <= MAX_FRAME_PAYLOAD
    ensures Unframe(Frame(payload, random), maxLen) == if |payload| <= maxLen then Some(payload) else None
  {
  }

  method NetSendPaddedFrame(s: Stream, payload: Octets, random: Pad, os: Chunks) returns (rc: int)
    requires AtMostAsked(os)
    modifies s
    ensures rc == 0 || rc == -1
    ensures |payload| > MAX_FRAME_PAYLOAD ==> rc == -1 && s.bytes == old(s.bytes)
    ensures rc == 0 ==> |payload| <= MAX_FRAME_PAYLOAD && s.bytes == old(s.bytes) + Frame(payload, random)
    ensures KeepsMoving(os) && |payload| <= MAX_FRAME_PAYLOAD ==> rc == 0
  {
    if |payload| > WIRE_PACKET_SIZE - PADDED_FRAME_LEN_BYTES { return -1; }
    var buf := new byte[WIRE_PACKET_SIZE](i requires 0 <= i < WIRE_PACKET_SIZE => random[i]);
    Copy(buf, 0, Be16(|payload|));
    Copy(buf, PADDED_FRAME_LEN_BYTES, payload);
    assert buf[..] == Frame(payload, random);
    rc := NetSendAll(s, buf[..], os);
  }

  /** Consumes exactly one frame; refuses a length beyond the caller's buffer. */
  method NetRecvPaddedFrame(s: Stream, maxLen: nat, os: Chunks) returns (payload: Option<Octets>)
    requires AtMostAsked(os)
    modifies s
    ensures payload.Some? ==>
      && |old(s.bytes)| >= WIRE_PACKET_SIZE && s.bytes == old(s.bytes)[WIRE_PACKET_SIZE..]
      && payload == Unframe(old(s.bytes)[..WIRE_PACKET_SIZE], maxLen)
    ensures KeepsMoving(os) && |old(s.bytes)| >= WIRE_PACKET_SIZE ==>
      payload == Unframe(old(s.bytes)[..WIRE_PACKET_SIZE], maxLen)
  {
    var buf := new byte[WIRE_PACKET_SIZE](_ => 0);
    var rc := NetRecvAll(s, buf, os);
    if rc != 0 { return None; }
    assert buf[..] == old(s.bytes)[..WIRE_PACKET_SIZE] && s.bytes == old(s.bytes)[WIRE_PACKET_SIZE..];
    payload := Unframe(buf[..], maxLen);
  }

  /** Sent frames are received whole and in order, however the two sides' bytes are chunked. */
  method SendThenReceive(s: Stream, payload: Octets, random: Pad, sending: Chunks, receiving: Chunks, maxLen: nat)
    returns (rc: int, received: Option<Octets>)
    requires AtMostAsked(sending) && AtMostAsked(receiving) && s.bytes == []
    modifies s
    ensures rc == 0 && received.Some? ==> received == Some(payload) && s.bytes == []
    ensures KeepsMoving(sending) && KeepsMoving(receiving) && |payload| <= MAX_FRAME_PAYLOAD ==>
      rc == 0 && (received.Some? <==> |payload| <= maxLen)
  {
    rc := NetSendPaddedFrame(s, payload, random, sending);
    if rc != 0 { return rc, None; }
    assert [] + Frame(payload, random) == Frame(payload, random);
    received := NetRecvPaddedFrame(s, maxLen, receiving);
    FrameRoundTrip(payload, random, maxLen);
    assert Frame(payload, random)[..WIRE_PACKET_SIZE] == Frame(payload, random);
  }
}

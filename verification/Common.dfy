/** What several components share: sizes and limits, ports, and the tick clock. */
module Common {
  const WIRE_PACKET_SIZE := 1024
  const MAX_INNER_PAYLOAD := 463
  const RETURN_HEADER_SIZE := 174
  const ADDR_BYTES := 6
  const HINT_BYTES := 32
  const EC_PUBKEY_LEN := 65
  const SIGNATURE_MAX_LEN := 80
  const MAX_SESSIONS := 1024
  const SESSION_TTL_MS := 300_000

  const PORT_SERVICE_GW := 9010
  const CLIENT_RESPONSE_PORT := 9020
  const CLIENT_RESPONSE_PORT_COUNT := 20
  const SENDER_RESPONSE_PORT := 9046
  const SENDER_RESPONSE_PORT_COUNT := 16
  const POOL_PORT_BASE := 9100
  const POOL_SIZE := 100

  type Port = p: nat | p < 0x1_0000

  datatype Option<+T> = None | Some(value: T)

  const TICKS := 0x1_0000_0000

  /** Milliseconds since `last` on a 32-bit tick counter that wraps. */
  function Age(now: nat, last: nat): (age: nat)
    ensures age < TICKS
    ensures 0 <= now - last < TICKS ==> age == now - last
  {
    (now - last) % TICKS
  }

  lemma AtLeastOnce(p: nat, d: nat)
    requires d > 0
    ensures p * d >= p
  {
  }
}

/**
 The cryptographic primitives as functions about which only their laws are known: a keystream that
 depends on key, IV and position, an HMAC, a hash, a key expansion, and authenticated encryption.
 */
module Crypto {
  import opened Common
  import opened Bytes

  const AES_KEY_LEN := 32
  const DIGEST_BYTES := 32
  const MAC_BYTES := 16
  const GCM_OVERHEAD := 28
  const IV_LEN := 16

  type Octets = seq<byte>
  type Key = k: Octets | |k| == AES_KEY_LEN witness Zeros(AES_KEY_LEN)

  type Digest = d: Octets | |d| == DIGEST_BYTES witness Zeros(DIGEST_BYTES)
  type Signature = s: Octets | 1 <= |s| <= SIGNATURE_MAX_LEN witness Zeros(1)
  type PubKey = p: Octets | |p| == EC_PUBKEY_LEN witness Zeros(EC_PUBKEY_LEN)

  /** A private key; nothing is known of it but what the functions of an exchange make of it. */
  type Priv = int

  datatype Suite = Suite(
    keystream: (Key, Octets, nat) -> byte,   // key, IV, position
    hmac: (Key, Octets) -> Digest,           // full HMAC-SHA256
    digest: Octets -> Digest,                // SHA-256
    seal: (Key, Octets, Octets) -> Octets,   // AES-GCM: key, random nonce, plaintext
    unseal: (Key, Octets) -> Option<Octets>) // None when authentication fails

  ghost predicate Lawful(c: Suite) {
    && (forall k: Key, r: Octets, m: Octets :: |c.seal(k, r, m)| == |m| + GCM_OVERHEAD)
    && (forall k: Key, r: Octets, m: Octets :: c.unseal(k, c.seal(k, r, m)) == Some(m))
    && (forall k: Key, b: Octets :: c.unseal(k, b).Some? ==> |c.unseal(k, b).value| + GCM_OVERHEAD == |b|)
  }

  /** XOR with the keystream of (key, iv), section 6.5 of NIST SP 800-38A. */
  function CtrXor(c: Suite, key: Key, iv: Octets, data: Octets): (r: Octets)
    ensures |r| == |data|
  {
    seq<byte>(|data|, i requires 0 <= i < |data| => Xor(data[i], c.keystream(key, iv, i)))
  }

  lemma CtrCancels(c: Suite, key: Key, iv: Octets, data: Octets)
    ensures CtrXor(c, key, iv, CtrXor(c, key, iv, data)) == data
  {
    forall i | 0 <= i < |data| ensures CtrXor(c, key, iv, CtrXor(c, key, iv, data))[i] == data[i] {
      XorCancels(data[i], c.keystream(key, iv, i));
    }
  }

  /** Every byte is masked by the keystream: what comes out of zeros is the keystream itself. */
  lemma CtrOfZeros(c: Suite, key: Key, iv: Octets, n: nat, i: nat)
    requires i < n
    ensures CtrXor(c, key, iv, Zeros(n))[i] == c.keystream(key, iv, i)
  {
    var k := c.keystream(key, iv, i);
    Pow2Of8();
    XorBitsOfZero(k, 8);
  }

  const ZERO_KEY: Key := Zeros(AES_KEY_LEN)
  const ZERO_IV: Octets := [0, 0, 0, 0, 0, 0, 0, 0, 0, 0, 0, 0, 0, 0, 0, 0]

  /** HMAC truncated to the width of a MAC field. */
  function Mac(c: Suite, key: Key, data: Octets): (r: Octets)
    ensures |r| == MAC_BYTES
  {
    c.hmac(key, data)[..MAC_BYTES]
  }

  /** The per-packet IV derived from an encrypted nonce. */
  function DeriveIv(c: Suite, encNonce: Octets): (r: Octets)
    ensures |r| == IV_LEN
  {
    c.digest(encNonce)[..IV_LEN]
  }

  /** What is sealed under this key does not open under any other of the keys in use. */
  ghost predicate OpensOnlyUnder(c: Suite, key: Key, inUse: iset<Key>) {
    forall other: Key, r: Octets, m: Octets ::
      other in inUse && other != key ==> c.unseal(other, c.seal(key, r, m)) == None
  }

  // ---------------------------------------------------------------- key agreement and signatures

  datatype Exchange = Exchange(
    pub: Priv -> PubKey,
    shared: (Priv, PubKey) -> Octets,                       // ECDH
    plainKey: Octets -> Key,                                // key of a shared secret
    boundKey: (Octets, PubKey, PubKey, Port, byte) -> Key,  // shared secret, client key, node key, port, role
    sign: (Priv, Octets) -> Signature,
    verify: (PubKey, Octets, Octets) -> bool)

  ghost predicate LawfulExchange(e: Exchange) {
    && (forall a: Priv, b: Priv :: e.shared(a, e.pub(b)) == e.shared(b, e.pub(a)))
    && (forall k: Priv, m: Octets :: e.verify(e.pub(k), m, e.sign(k, m)))
  }

  function DerivePlain(e: Exchange, mine: Priv, theirs: PubKey): Key { e.plainKey(e.shared(mine, theirs)) }

  /** The key is bound to both public keys, the node's port and the role. */
  function DeriveBound(e: Exchange, mine: Priv, theirs: PubKey, clientPub: PubKey, nodePub: PubKey, port: Port,
                       role: byte): Key {
    e.boundKey(e.shared(mine, theirs), clientPub, nodePub, port, role)
  }

  /** These keys commit: what is sealed under one of them does not open under another. */
  ghost predicate KeysCommit(c: Suite, keys: iset<Key>) {
    forall key :: key in keys ==> OpensOnlyUnder(c, key, keys)
  }
}

/**
 Handing a content key from a Sender to a Receiver: the Receiver registers a handshake under a wire
 key (the content key, a separator and four digits of its ephemeral public key), the Sender finds
 the content key in front of the separator, encrypts the matching K_content for the Receiver's
 ephemeral key, and the cache server relays the answer by wire key.
 */
module ContentKey {
  import opened Common
  import opened Bytes
  import opened Crypto
  import opened Sequences
  import opened CacheServer

  const MAX_OWNED_KEYS := 64
  const SEPARATOR: byte := 0x23 // '#'
  const MAX_TEXT := 63
  const ENC_KEY_BYTES := 60 // AES_KEY_LEN + GCM_OVERHEAD
  const ENC_AT := 67        // public key and length

  /** A C string, without its terminator. */
  type Text = t: Octets | 0 !in t

  // ---------------------------------------------------------------- wire keys

  function HexDigit(n: nat): byte
    requires n < 16
  {
    if n < 10 then 0x30 + n else 0x61 + (n - 10)
  }

  function Hex(b: byte): (r: Octets)
    ensures |r| == 2
  {
    [HexDigit(b / 16), HexDigit(b % 16)]
  }

  /** The content key, "#", and the second and third bytes of the ephemeral public key in hexadecimal. */
  function WireKeyOf(key: Text, ephemeral: PubKey): (r: Octets)
    ensures |r| == |key| + 5
  {
    key + [SEPARATOR] + Hex(ephemeral[1]) + Hex(ephemeral[2])
  }

  /** What the Sender takes for the content key: everything before the first separator. */
  function Cut(wire: Octets): (r: Octets)
    ensures r <= wire && SEPARATOR !in r
    ensures |r| < |wire| ==> wire[|r|] == SEPARATOR
  {
    if |wire| == 0 || wire[0] == SEPARATOR then [] else [wire[0]] + Cut(wire[1..])
  }

  lemma {:induction false} CutAt(front: Octets, rest: Octets)
    requires SEPARATOR !in front
    ensures Cut(front + [SEPARATOR] + rest) == front
  {
    if |front| > 0 {
      CutAt(front[1..], rest);
      assert (front + [SEPARATOR] + rest)[1..] == front[1..] + [SEPARATOR] + rest;
    }
  }

  /** The Sender recovers the content key from a wire key if and only if the content key has no separator in it. */
  lemma CutRecoversIff(key: Text, ephemeral: PubKey)
    ensures Cut(WireKeyOf(key, ephemeral)) == key <==> SEPARATOR !in key
  {
    if SEPARATOR !in key {
      var tail := Hex(ephemeral[1]) + Hex(ephemeral[2]);
      CutAt(key, tail);
      assert WireKeyOf(key, ephemeral) == key + [SEPARATOR] + tail;
    }
  }

  /** The wire keys of one content key differ exactly when the ephemeral keys do in one of these two bytes. */
  lemma WireKeysDifferIff(key: Text, p: PubKey, q: PubKey)
    ensures WireKeyOf(key, p) == WireKeyOf(key, q) <==> p[1] == q[1] && p[2] == q[2]
  {
    var n := |key|;
    var a, b := WireKeyOf(key, p), WireKeyOf(key, q);
    assert a == key + ([SEPARATOR] + Hex(p[1]) + Hex(p[2])) && b == key + ([SEPARATOR] + Hex(q[1]) + Hex(q[2]));
    assert a[n + 1] == Hex(p[1])[0] && a[n + 2] == Hex(p[1])[1] && a[n + 3] == Hex(p[2])[0] && a[n + 4] == Hex(p[2])[1];
    assert b[n + 1] == Hex(q[1])[0] && b[n + 2] == Hex(q[1])[1] && b[n + 3] == Hex(q[2])[0] && b[n + 4] == Hex(q[2])[1];
    HexDiffers(p[1], q[1]);
    HexDiffers(p[2], q[2]);
  }

  lemma HexDiffers(a: byte, b: byte)
    ensures Hex(a) == Hex(b) <==> a == b
  {
    if Hex(a) == Hex(b) {
      assert Hex(a)[0] == Hex(b)[0] && Hex(a)[1] == Hex(b)[1];
    }
  }

  // ---------------------------------------------------------------- the Sender's registry

  datatype Owned = Owned(inUse: bool, key: Octets, kContent: Key)

  function OwnedAs(key: Octets): Owned -> bool { (o: Owned) => o.inUse && o.key == key }

  function FindOwned(t: seq<Owned>, key: Octets): Option<nat> { FirstWhere(OwnedAs(key), t, 0) }

  predicate IsUnused(o: Owned) { !o.inUse }

  function LookupOwned(t: seq<Owned>, key: Octets): Option<Key> {
    match FindOwned(t, key)
    case None => None
    case Some(i) => Some(t[i].kContent)
  }

  /** The slot a registration fills: the key's own, or the first unused one. */
  function OwnedSlot(t: seq<Owned>, key: Octets): (r: Option<nat>)
    ensures r.Some? ==> r.value < |t|
  {
    match FindOwned(t, key)
    case Some(i) => Some(i)
    case None => FirstWhere(IsUnused, t, 0)
  }

  function Remembered(t: seq<Owned>, key: Octets, k: Key): (r: seq<Owned>)
    ensures |r| == |t|
  {
    match OwnedSlot(t, key)
    case None => t
    case Some(i) => t[i := Owned(true, key, k)]
  }

  /** A registration replaces the key's K_content, unless the registry is full; other keys keep theirs. */
  lemma RememberedLookup(t: seq<Owned>, key: Octets, k: Key, other: Octets)
    ensures LookupOwned(Remembered(t, key, k), other)
         == if other == key && OwnedSlot(t, key).Some? then Some(k) else LookupOwned(t, other)
  {
    var u := Remembered(t, key, k);
    if OwnedSlot(t, key).Some? {
      var i := OwnedSlot(t, key).value;
      if other == key {
        assert OwnedAs(key)(u[i]) && forall j :: 0 <= j < i ==> !OwnedAs(key)(u[j]);
      } else {
        FirstWhereSame(OwnedAs(other), t, u);
      }
    }
  }

  class OwnedKeys {
    const slots: array<Owned>

    ghost predicate Valid()
      reads this
    {
      slots.Length == MAX_OWNED_KEYS
    }

    constructor ()
      ensures Valid() && fresh(slots) && forall key :: LookupOwned(slots[..], key) == None
    {
      slots := new Owned[MAX_OWNED_KEYS](_ => Owned(false, [], Zeros(AES_KEY_LEN)));
    }

    method RememberOwnedKey(key: Octets, k: Key)
      requires Valid()
      modifies slots
      ensures slots[..] == Remembered(old(slots[..]), key, k)
    {
      for i := 0 to MAX_OWNED_KEYS
        invariant slots[..] == old(slots[..]) && FindOwned(slots[..], key) == FirstWhere(OwnedAs(key), slots[..], i)
      {
        if slots[i].inUse && slots[i].key == key {
          slots[i] := Owned(true, key, k);
          return;
        }
      }
      for i := 0 to MAX_OWNED_KEYS
        invariant slots[..] == old(slots[..])
        invariant FirstWhere(IsUnused, slots[..], 0) == FirstWhere(IsUnused, slots[..], i)
      {
        if !slots[i].inUse {
          slots[i] := Owned(true, key, k);
          return;
        }
      }
    }

    method LookupOwnedKey(key: Octets) returns (k: Option<Key>)
      requires Valid()
      ensures k == LookupOwned(slots[..], key)
    {
      for i := 0 to MAX_OWNED_KEYS
        invariant FindOwned(slots[..], key) == FirstWhere(OwnedAs(key), slots[..], i)
      {
        if slots[i].inUse && slots[i].key == key { return Some(slots[i].kContent); }
      }
      k := None;
    }
  }

  // ---------------------------------------------------------------- the answer

  /** The Sender's fresh values for one answer, and its identity. */
  datatype Draw = Draw(ephemeral: Priv, gcmNonce: Octets, identity: Priv)

  /** The part of an answer that is signed: ephemeral public key, length, K_content under the session key. */
  function SignedPart(c: Suite, e: Exchange, rPub: PubKey, k: Key, d: Draw): (r: Octets)
    requires Lawful(c)
    ensures |r| == ENC_AT + ENC_KEY_BYTES
  {
    e.pub(d.ephemeral) + Be16(ENC_KEY_BYTES) + c.seal(DerivePlain(e, d.ephemeral, rPub), d.gcmNonce, k)
  }

  function AnswerData(c: Suite, e: Exchange, rPub: PubKey, k: Key, d: Draw): (r: Octets)
    requires Lawful(c)
    ensures MIN_RESP_DATA <= |r| <= MAX_RESP_DATA
  {
    var signed := SignedPart(c, e, rPub, k, d);
    signed + [|e.sign(d.identity, signed)|] + e.sign(d.identity, signed)
  }

  /** What a Receiver makes of an answer; `pin` is the identity it already holds for the key, if any. */
  function Finish(c: Suite, e: Exchange, priv: Priv, pin: Option<PubKey>, data: Octets): Option<Key> {
    if |data| < ENC_AT then None
    else
      var encLen := FromBe16(data[EC_PUBKEY_LEN], data[EC_PUBKEY_LEN + 1]);
      var sigAt := ENC_AT + encLen;
      if sigAt + 1 > |data| then None
      else if data[sigAt] == 0 || data[sigAt] > SIGNATURE_MAX_LEN || sigAt + 1 + data[sigAt] > |data| then None
      else if pin.Some? && !e.verify(pin.value, data[..sigAt], data[sigAt + 1..sigAt + 1 + data[sigAt]]) then None
      else
        match c.unseal(DerivePlain(e, priv, data[..EC_PUBKEY_LEN]), data[ENC_AT..sigAt])
        case None => None
        case Some(k) => if |k| != AES_KEY_LEN then None else Some(k)
  }

  lemma ReadAnswer(c: Suite, e: Exchange, rPub: PubKey, k: Key, d: Draw)
    requires Lawful(c)
    ensures var data := AnswerData(c, e, rPub, k, d);
      && |data| > ENC_AT + ENC_KEY_BYTES && data[..EC_PUBKEY_LEN] == e.pub(d.ephemeral)
      && FromBe16(data[EC_PUBKEY_LEN], data[EC_PUBKEY_LEN + 1]) == ENC_KEY_BYTES
      && data[ENC_AT..ENC_AT + ENC_KEY_BYTES] == c.seal(DerivePlain(e, d.ephemeral, rPub), d.gcmNonce, k)
  {
  }

  lemma ReadSignature(c: Suite, e: Exchange, rPub: PubKey, k: Key, d: Draw)
    requires Lawful(c)
    ensures var data := AnswerData(c, e, rPub, k, d); var signed := SignedPart(c, e, rPub, k, d);
      var at := ENC_AT + ENC_KEY_BYTES;
      && 1 <= data[at] <= SIGNATURE_MAX_LEN && at + 1 + data[at] == |data|
      && data[..at] == signed && data[at + 1..at + 1 + data[at]] == e.sign(d.identity, signed)
  {
  }

  /** The bytes of a Sender's request before its key and data: envelope, type, nonce and two length fields. */
  const REQUEST_OVERHEAD := 251

  /** The Sender's request path refuses an answer that does not fit one packet. */
  predicate AnswerFits(wire: Octets, data: Octets) { REQUEST_OVERHEAD + |wire| + |data| <= MAX_INNER_PAYLOAD }

  function SignatureOf(c: Suite, e: Exchange, rPub: PubKey, k: Key, d: Draw): Signature
    requires Lawful(c)
  {
    e.sign(d.identity, SignedPart(c, e, rPub, k, d))
  }

  /** It fits if and only if content key and signature together take at most 79 bytes. */
  lemma AnswerFitsIff(c: Suite, e: Exchange, key: Text, ephemeral: PubKey, rPub: PubKey, k: Key, d: Draw)
    requires Lawful(c)
    ensures AnswerFits(WireKeyOf(key, ephemeral), AnswerData(c, e, rPub, k, d)) <==>
      |key| + |SignatureOf(c, e, rPub, k, d)| <= 79
  {
  }

  /** A Receiver that accepts an answer, whoever it was meant for, gets the K_content that was put in. */
  lemma FinishGivesWhatWasSealed(c: Suite, e: Exchange, priv: Priv, pin: Option<PubKey>, rPub: PubKey, k: Key, d: Draw,
                                 keys: iset<Key>)
    requires Lawful(c) && KeysCommit(c, keys)
    requires DerivePlain(e, d.ephemeral, rPub) in keys && DerivePlain(e, priv, e.pub(d.ephemeral)) in keys
    requires Finish(c, e, priv, pin, AnswerData(c, e, rPub, k, d)).Some?
    ensures Finish(c, e, priv, pin, AnswerData(c, e, rPub, k, d)).value == k
  {
    ReadAnswer(c, e, rPub, k, d);
    var sealing, opening := DerivePlain(e, d.ephemeral, rPub), DerivePlain(e, priv, e.pub(d.ephemeral));
    assert OpensOnlyUnder(c, sealing, keys);
    assert sealing != opening ==> c.unseal(opening, c.seal(sealing, d.gcmNonce, k)) == None;
  }

  /** A Receiver that holds a pinned identity accepts nothing that does not verify under it. */
  lemma PinnedMustVerify(c: Suite, e: Exchange, priv: Priv, pin: PubKey, data: Octets)
    requires Finish(c, e, priv, Some(pin), data).Some?
    ensures |data| >= 67
    ensures var at := 67 + 256 * data[65] as int + data[66] as int;
      at < |data| && at + 1 + data[at] <= |data| && e.verify(pin, data[..at], data[at + 1..at + 1 + data[at]])
  {
  }

  /** The Receiver it was meant for accepts an answer if and only if it verifies under the pin, if there is one. */
  lemma FinishAcceptsOwn(c: Suite, e: Exchange, priv: Priv, pin: Option<PubKey>, k: Key, d: Draw)
    requires Lawful(c) && LawfulExchange(e)
    ensures var rPub := e.pub(priv);
      Finish(c, e, priv, pin, AnswerData(c, e, rPub, k, d))
      == if pin.None? || e.verify(pin.value, SignedPart(c, e, rPub, k, d), SignatureOf(c, e, rPub, k, d)) then Some(k)
         else None
  {
    ReadAnswer(c, e, e.pub(priv), k, d);
    ReadSignature(c, e, e.pub(priv), k, d);
  }

  /** An answer that is cut short anywhere is refused, with or without a pin. */
  lemma CutShortIsRefused(c: Suite, e: Exchange, priv: Priv, pin: Option<PubKey>, rPub: PubKey, k: Key, d: Draw, n: nat)
    requires Lawful(c) && n < |AnswerData(c, e, rPub, k, d)|
    ensures Finish(c, e, priv, pin, AnswerData(c, e, rPub, k, d)[..n]) == None
  {
    var data, cut := AnswerData(c, e, rPub, k, d), AnswerData(c, e, rPub, k, d)[..n];
    ReadAnswer(c, e, rPub, k, d);
    ReadSignature(c, e, rPub, k, d);
    if n >= ENC_AT {
      assert cut[EC_PUBKEY_LEN] == data[EC_PUBKEY_LEN] && cut[EC_PUBKEY_LEN + 1] == data[EC_PUBKEY_LEN + 1];
    }
  }
}

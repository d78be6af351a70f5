/** The laws assumed of the cryptographic primitives are consistent: here are primitives that meet them all. */
module Assumptions {
  import opened Common
  import opened Bytes
  import opened Crypto
  import MixSessions
  import MixSessionRuns
  import Sphinx

  /** A key that is zero but for its first byte. */
  function ShortKey(b: byte): (k: Key)
    ensures k[0] == b
  {
    [b] + Zeros(AES_KEY_LEN - 1)
  }

  /** Sealing writes the front of the key before the message; opening compares it. */
  function Plain(): Suite {
    Suite((k: Key, iv: Octets, i: nat) => 0,
          (k: Key, m: Octets) => k[..DIGEST_BYTES - 8] + if |m| == 8 then m else Zeros(8),
          (m: Octets) => Zeros(32),
          (k: Key, r: Octets, m: Octets) => k[..GCM_OVERHEAD] + m,
          (k: Key, b: Octets) => if |b| >= GCM_OVERHEAD && b[..GCM_OVERHEAD]
               == k[..GCM_OVERHEAD] then Some(b[GCM_OVERHEAD..]) else None)
  }

  /** Private keys are numbers; the shared secret is the sum of two of them, modulo 256. */
  function Sums(): Exchange {
    Exchange((a: Priv) => [a % 256] + Zeros(EC_PUBKEY_LEN - 1),
             (a: Priv, p: PubKey) => [(a + p[0]) % 256],
             (s: Octets) => ShortKey(if |s| > 0 then s[0] else 0),
             (s: Octets, cp: PubKey, np: PubKey, port: Port, role: byte) => ShortKey(if |s| > 0 then s[0] else 0),
             (k: Priv, m: Octets) => Zeros(1),
             (p: PubKey, m: Octets, sig: Octets) => true)
  }

  lemma PlainIsLawful()
    ensures Lawful(Plain())
  {
  }

  lemma SumsAreLawful()
    ensures LawfulExchange(Sums())
  {
    forall a: Priv, b: Priv ensures Sums().shared(a, Sums().pub(b)) == Sums().shared(b, Sums().pub(a)) {
      SumModulo(a, b);
    }
  }

  lemma SumModulo(a: int, b: int)
    ensures (a + b % 256) % 256 == (b + a % 256) % 256
  {
  }

  lemma ShortKeysCommit(key: Key, other: Key, r: Octets, m: Octets, x: byte, y: byte)
    requires key == ShortKey(x) && other == ShortKey(y) && other != key
    ensures Plain().unseal(other, Plain().seal(key, r, m)) == None
  {
  }

  /** Lawful primitives, and two different session keys that commit. */
  lemma AssumptionsCanBeMet()
    ensures Lawful(Plain()) && LawfulExchange(Sums())
    ensures KeysCommit(Plain(), iset x: byte :: ShortKey(x))
    ensures DerivePlain(Sums(), 0, Sums().pub(0)) == ShortKey(0) != ShortKey(1) == DerivePlain(Sums(), 1, Sums().pub(0))
  {
    var c, keys := Plain(), iset x: byte :: ShortKey(x);
    PlainIsLawful();
    SumsAreLawful();
    forall key: Key, other: Key, r: Octets, m: Octets | key in keys && other in keys && other != key
      ensures c.unseal(other, c.seal(key, r, m)) == None
    {
      ShortKeysCommit(key, other, r, m, key[0], other[0]);
    }
    assert ShortKey(0)[0] != ShortKey(1)[0];
  }

  /** A packet's hint as the packets carry it. */
  function Hints(c: Suite): MixSessions.Derive {
    (seed: Key, counter: nat) => Sphinx.HopHint(c, seed, counter)
  }

  /** The number that big-endian bytes stand for. */
  function Value(b: Octets): (v: nat) {
    if |b| == 0 then 0 else Value(b[..|b| - 1]) * 0x100 + b[|b| - 1]
  }

  /** The last n bytes of a number below 256 to the n. */
  function Tail(v: nat, n: nat): (b: Octets)
    ensures |b| == n
  {
    if n == 0 then [] else Tail(v / 0x100, n - 1) + [v % 0x100]
  }

  function Limit(n: nat): nat { if n == 0 then 1 else 0x100 * Limit(n - 1) }

  lemma {:induction false} ValueOfTail(v: nat, n: nat)
    requires v < Limit(n)
    ensures Value(Tail(v, n)) == v
  {
    if n > 0 {
      ValueOfTail(v / 0x100, n - 1);
      assert Tail(v, n)[..n - 1] == Tail(v / 0x100, n - 1);
    }
  }

  lemma LastTwo(v: nat, n: nat)
    requires n >= 2
    ensures Tail(v, n) == Tail(v / 0x1_0000, n - 2) + [v / 0x100 % 0x100, v % 0x100]
  {
    assert v / 0x1_0000 == v / 0x100 / 0x100;
    assert Tail(v, n) == Tail(v / 0x100, n - 1) + [v % 0x100];
  }

  lemma Shifts(v: nat)
    ensures v / 0x1_0000 / 0x100 == v / 0x100_0000 && v / 0x1_0000 / 0x1_0000 == v / 0x1_0000_0000
    ensures v / 0x1_0000_0000 / 0x100 == v / 0x100_0000_0000 && v / 0x1_0000_0000 / 0x1_0000 == v / 0x1_0000_0000_0000
    ensures v / 0x1_0000_0000_0000 / 0x100 == v / 0x100_0000_0000_0000
  {
  }

  lemma Be64IsTail(v: nat)
    ensures Sphinx.Be64(v) == Tail(v, 8)
  {
    Shifts(v);
    LastTwo(v, 8);
    LastTwo(v / 0x1_0000, 6);
    LastTwo(v / 0x1_0000_0000, 4);
    LastTwo(v / 0x1_0000_0000_0000, 2);
  }

  lemma Be64Differs(v: nat, w: nat)
    requires Sphinx.Be64(v) == Sphinx.Be64(w) && v < MixSessionRuns.COUNTER_LIMIT && w < MixSessionRuns.COUNTER_LIMIT
    ensures v == w
  {
    Be64IsTail(v);
    Be64IsTail(w);
    assert Limit(8) == 0x1_0000_0000_0000_0000;
    ValueOfTail(v, 8);
    ValueOfTail(w, 8);
  }

  /** Hints made with these primitives differ, for all of these seeds. */
  lemma HintsCanDiffer()
    ensures MixSessionRuns.HintsDiffer(Hints(Plain()), iset x: byte :: ShortKey(x))
  {
    var seeds := iset x: byte :: ShortKey(x);
    forall s: Key, c: nat, s': Key, c': nat
      | s in seeds && s' in seeds && c < MixSessionRuns.COUNTER_LIMIT && c' < MixSessionRuns.COUNTER_LIMIT
        && Hints(Plain())(s, c) == Hints(Plain())(s', c')
      ensures s == s' && c == c'
    {
      HintsOfShortKeys(s, c, s', c', s[0], s'[0]);
    }
  }

  lemma HintsOfShortKeys(s: Key, c: nat, s': Key, c': nat, x: byte, y: byte)
    requires s == ShortKey(x) && s' == ShortKey(y) && Hints(Plain())(s, c) == Hints(Plain())(s', c')
    requires c < MixSessionRuns.COUNTER_LIMIT && c' < MixSessionRuns.COUNTER_LIMIT
    ensures s == s' && c == c'
  {
    var h, h' := Hints(Plain())(s, c), Hints(Plain())(s', c');
    assert h == s[..DIGEST_BYTES - 8] + Sphinx.Be64(c) && h' == s'[..DIGEST_BYTES - 8] + Sphinx.Be64(c');
    assert h[0] == x && h'[0] == y;
    assert h[DIGEST_BYTES - 8..] == Sphinx.Be64(c) && h'[DIGEST_BYTES - 8..] == Sphinx.Be64(c');
    Be64Differs(c, c');
  }
}

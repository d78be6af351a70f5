/**
 A heartbeat's reply on its way from the cache server through the gateway, which puts the request's
 nonce in front of it, to the Sender, which checks the nonce and reads the pending requests.
 */
module Heartbeat {
  import opened Common
  import opened Bytes
  import opened Crypto
  import CacheRuns
  import CacheServer
  import ContentKey
  import SenderSlots

  /** What the gateway makes of the reply: refused when it does not leave room for the nonce. */
  function Relayed(nonce: SenderSlots.Nonce, reply: Octets): (r: Option<Octets>)
    ensures r.Some? ==> |r.value| <= MAX_INNER_PAYLOAD
  {
    if |reply| > MAX_INNER_PAYLOAD - SenderSlots.SLOT_NONCE_BYTES then None else Some(SenderSlots.Echoed(nonce, reply))
  }

  /** Bytes that listing these requests takes. */
  function Needs(rs: seq<CacheServer.Request>): nat {
    if |rs| == 0 then 0 else CacheServer.NeedOf(rs[0].key) + Needs(rs[1..])
  }

  lemma {:induction false} NeedsIsLength(rs: seq<CacheServer.Request>)
    ensures Needs(rs) == |CacheServer.EncodeAll(rs)|
  {
    if |rs| > 0 { NeedsIsLength(rs[1..]); }
  }

  /**
   The Sender learns exactly the requests that the cache server listed if these take at most 460
   bytes; with 461 or 462, which the cache server does allow itself, it learns none of them.
   */
  lemma SenderLearnsIff(t: seq<CacheServer.Pending>, nonce: SenderSlots.Nonce)
    requires |t| == CacheServer.MAX_PENDING
    ensures var listed := CacheServer.Listed(t, 0, 1); var relayed := Relayed(nonce, CacheServer.HeartbeatReply(t));
      && (relayed.Some? <==> Needs(listed) <= 460)
      && (relayed.Some? ==>
        var reply := SenderSlots.Accepted(nonce, relayed.value);
        && reply == Some(CacheServer.HeartbeatReply(t))
        && CacheServer.ParseRecords(reply.value[1..], reply.value[0]) == listed)
  {
    NeedsIsLength(CacheServer.Listed(t, 0, 1));
    SenderSlots.AcceptsIff(nonce, nonce, CacheServer.HeartbeatReply(t));
    CacheServer.HeartbeatRoundTrip(t);
  }

  // ---------------------------------------------------------------- listings that are never relayed

  /** Receivers' INITs, one after the other at the same time. */
  function Inits(rs: seq<CacheServer.Request>, now: nat): (steps: seq<CacheRuns.Step>)
    ensures |steps| == |rs|
  {
    if |rs| == 0 then [] else Inits(rs[..|rs| - 1], now) + [CacheRuns.Init(rs[|rs| - 1].key, rs[|rs| - 1].rPub, now)]
  }

  ghost predicate KeysDiffer(rs: seq<CacheServer.Request>) {
    forall i, j :: 0 <= i < j < |rs| ==> rs[i].key != rs[j].key
  }

  /** The first slots hold these requests, all waiting; the others are free. */
  ghost predicate Holds(t: seq<CacheServer.Pending>, rs: seq<CacheServer.Request>, now: nat) {
    && |rs| <= |t| == CacheServer.MAX_PENDING
    && (forall i :: 0 <= i < |rs| ==>
      t[i].inUse && !t[i].ready && CacheServer.Request(t[i].key, t[i].rPub) == rs[i] && t[i].created == now)
    && (forall i :: |rs| <= i < |t| ==> !t[i].inUse)
  }

  lemma OneMoreInit(t: seq<CacheServer.Pending>, rs: seq<CacheServer.Request>, r: CacheServer.Request, now: nat)
    requires Holds(t, rs, now) && KeysDiffer(rs + [r]) && |rs| < CacheServer.MAX_PENDING
    ensures Holds(CacheServer.AfterInit(t, r.key, r.rPub, now), rs + [r], now)
  {
    forall i | 0 <= i < |t| ensures !CacheServer.ForKey(r.key)(t[i]) {
      if i < |rs| { assert (rs + [r])[i].key != (rs + [r])[|rs|].key; }
    }
    assert CacheServer.CanReuse(now)(t[|rs|]);
  }

  lemma {:induction false} InitsFill(rs: seq<CacheServer.Request>, now: nat)
    requires KeysDiffer(rs) && |rs| <= CacheServer.MAX_PENDING
    ensures Holds(CacheRuns.Run(Inits(rs, now)).table, rs, now)
  {
    if |rs| > 0 {
      var init, last := rs[..|rs| - 1], rs[|rs| - 1];
      InitsFill(init, now);
      CacheRuns.RunSnoc(Inits(init, now), CacheRuns.Init(last.key, last.rPub, now));
      assert rs == init + [last];
      OneMoreInit(CacheRuns.Run(Inits(init, now)).table, init, last, now);
    }
  }

  /** If all waiting requests fit, all are listed. */
  lemma {:induction false} AllListed(t: seq<CacheServer.Pending>, rs: seq<CacheServer.Request>, now: nat, i: nat,
                                     used: nat)
    requires Holds(t, rs, now) && i <= |t| && used <= CacheServer.MAX_REPLY
    requires i <= |rs| ==> used + Needs(rs[i..]) <= CacheServer.MAX_REPLY
    ensures CacheServer.Listed(t, i, used) == if i <= |rs| then rs[i..] else []
    decreases |t| - i
  {
    if i < |rs| {
      assert rs[i..][1..] == rs[i + 1..];
      AllListed(t, rs, now, i + 1, used + CacheServer.NeedOf(t[i].key));
      assert rs[i..] == [rs[i]] + rs[i + 1..];
    } else if i < |t| {
      AllListed(t, rs, now, i + 1, used);
    }
  }

  /**
   Any Receivers whose requests together take 461 or 462 bytes, and nobody else waiting: the reply that
   lists them is refused, at this heartbeat and at every later one until an entry changes.
   */
  lemma WaitingInVain(rs: seq<CacheServer.Request>, now: nat, nonce: SenderSlots.Nonce)
    requires KeysDiffer(rs) && |rs| <= CacheServer.MAX_PENDING && 461 <= Needs(rs) <= 462
    ensures |CacheRuns.Run(Inits(rs, now)).table| == CacheServer.MAX_PENDING
    ensures Relayed(nonce, CacheServer.HeartbeatReply(CacheRuns.Run(Inits(rs, now)).table)) == None
  {
    InitsFill(rs, now);
    var t := CacheRuns.Run(Inits(rs, now)).table;
    assert rs[0..] == rs;
    AllListed(t, rs, now, 0, 1);
    SenderLearnsIff(t, nonce);
  }

  /** The INIT of a Receiver for a content key, under an ephemeral public key. */
  function RequestOf(content: ContentKey.Text, ephemeral: PubKey): CacheServer.Request
    requires |content| <= 58
  {
    CacheServer.Request(ContentKey.WireKeyOf(content, ephemeral), ephemeral)
  }

  lemma NeedsOfFour(rs: seq<CacheServer.Request>)
    requires |rs| == 4
    ensures Needs(rs) == CacheServer.NeedOf(rs[0].key) + CacheServer.NeedOf(rs[1].key) + CacheServer.NeedOf(rs[2].key)
      + CacheServer.NeedOf(rs[3].key)
  {
    assert rs[1..][1..] == rs[2..] && rs[2..][1..] == rs[3..] && rs[3..] == [rs[3]];
    assert Needs(rs[3..]) == CacheServer.NeedOf(rs[3].key);
    assert Needs(rs[2..]) == CacheServer.NeedOf(rs[2].key) + Needs(rs[3..]);
  }

  lemma DifferentWireKeys(a: ContentKey.Text, b: ContentKey.Text, p: PubKey, q: PubKey)
    requires a != b && ContentKey.SEPARATOR !in a && ContentKey.SEPARATOR !in b
    ensures ContentKey.WireKeyOf(a, p) != ContentKey.WireKeyOf(b, q)
  {
    ContentKey.CutRecoversIff(a, p);
    ContentKey.CutRecoversIff(b, q);
  }

  /** Four Receivers of different content keys of 45, 45, 44 and 44 bytes wait in vain, whatever their public keys. */
  lemma RefusedExample(a: ContentKey.Text, b: ContentKey.Text, c: ContentKey.Text, d: ContentKey.Text, p: seq<PubKey>,
                       now: nat,
                       nonce: SenderSlots.Nonce)
    requires |a| == |b| == 45 && |c| == |d| == 44 && a != b && c != d && |p| == 4
    requires ContentKey.SEPARATOR !in a && ContentKey.SEPARATOR !in b && ContentKey.SEPARATOR !in c
    requires ContentKey.SEPARATOR !in d
    ensures var sys := CacheRuns.Run(Inits([RequestOf(a, p[0]), RequestOf(b, p[1]), RequestOf(c, p[2]),
                                            RequestOf(d, p[3])], now));
      |sys.table| == CacheServer.MAX_PENDING && Relayed(nonce, CacheServer.HeartbeatReply(sys.table)) == None
  {
    var rs := [RequestOf(a, p[0]), RequestOf(b, p[1]), RequestOf(c, p[2]), RequestOf(d, p[3])];
    DifferentWireKeys(a, b, p[0], p[1]);
    DifferentWireKeys(c, d, p[2], p[3]);
    NeedsOfFour(rs);
    WaitingInVain(rs, now, nonce);
  }
}

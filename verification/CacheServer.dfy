/**
 The cache server: a bounded key-value store, and beside it a bounded table of pending handshakes
 between Receivers and Senders. Both are searched linearly. Keys are C strings: what a request
 carries up to its first zero byte.
 */
module CacheServer {
  import opened Common
  import opened Bytes
  import opened Crypto
  import opened Sequences

  const MAX_ENTRIES := 256
  const MAX_PENDING := 64
  const MAX_RESP_DATA := 256
  const MIN_RESP_DATA := 67 // public key and a length
  const PENDING_TTL_MS := 30000
  const MAX_REPLY := 463

  // ---------------------------------------------------------------- the content store

  datatype Entry = Entry(key: Octets, content: Octets)

  ghost predicate KeysDiffer(s: seq<Entry>) {
    forall i, j :: 0 <= i < j < |s| ==> s[i].key != s[j].key
  }

  /** What a list of entries with different keys holds for a key. */
  function ContentOf(s: seq<Entry>, key: Octets): (r: Option<Octets>)
    ensures r.None? <==> forall i :: 0 <= i < |s| ==> s[i].key != key
  {
    if |s| == 0 then None
    else if s[|s| - 1].key == key then Some(s[|s| - 1].content)
    else ContentOf(s[..|s| - 1], key)
  }

  lemma {:induction false} ContentAt(s: seq<Entry>, i: nat)
    requires KeysDiffer(s) && i < |s|
    ensures ContentOf(s, s[i].key) == Some(s[i].content)
  {
    if i < |s| - 1 { ContentAt(s[..|s| - 1], i); }
  }

  lemma {:induction false} ContentElsewhere(s: seq<Entry>, i: nat, e: Entry, key: Octets)
    requires i < |s| && s[i].key == e.key != key
    ensures ContentOf(s[i := e], key) == ContentOf(s, key)
  {
    var u := s[i := e];
    if i < |s| - 1 {
      assert u[..|s| - 1] == s[..|s| - 1][i := e];
      ContentElsewhere(s[..|s| - 1], i, e, key);
    } else {
      assert u[..|s| - 1] == s[..|s| - 1];
    }
  }

  /** After the content of one key was set, every other key holds what it held. */
  ghost predicate PutOf(s: seq<Entry>, u: seq<Entry>, key: Octets, content: Octets) {
    forall k :: ContentOf(u, k) == if k == key then Some(content) else ContentOf(s, k)
  }

  lemma StoreUpdate(s: seq<Entry>, i: nat, e: Entry)
    requires KeysDiffer(s) && i < |s| && s[i].key == e.key
    ensures KeysDiffer(s[i := e]) && PutOf(s, s[i := e], e.key, e.content)
  {
    ContentAt(s[i := e], i);
    forall k | k != e.key ensures ContentOf(s[i := e], k) == ContentOf(s, k) { ContentElsewhere(s, i, e, k); }
  }

  lemma StoreAppend(s: seq<Entry>, e: Entry)
    requires KeysDiffer(s) && ContentOf(s, e.key).None?
    ensures KeysDiffer(s + [e]) && PutOf(s, s + [e], e.key, e.content)
  {
  }

  class ContentStore {
    const entries: array<Entry>
    var count: nat

    ghost predicate Valid()
      reads this, entries
    {
      entries.Length == MAX_ENTRIES && count <= MAX_ENTRIES && KeysDiffer(entries[..count])
    }

    constructor ()
      ensures Valid() && fresh(entries) && count == 0
    {
      entries := new Entry[MAX_ENTRIES](_ => Entry([], []));
      count := 0;
    }

    method StoreFind(key: Octets) returns (at: Option<nat>)
      requires Valid()
      ensures at.None? <==> ContentOf(entries[..count], key).None?
      ensures at.Some? ==> at.value < count && entries[at.value].key == key
    {
      for i := 0 to count
        invariant forall j :: 0 <= j < i ==> entries[j].key != key
      {
        if entries[i].key == key {
          assert entries[..count][i] == entries[i];
          return Some(i);
        }
      }
      at := None;
    }

    method Get(key: Octets) returns (content: Option<Octets>)
      requires Valid()
      ensures content == ContentOf(entries[..count], key)
    {
      var at := StoreFind(key);
      if at.None? { return None; }
      ContentAt(entries[..count], at.value);
      content := Some(entries[at.value].content);
    }

    /** Replaces the content of a known key; a new key is refused when the store is full. */
    method StorePut(key: Octets, content: Octets) returns (rc: int)
      requires Valid()
      modifies this, entries
      ensures Valid()
      ensures var known := ContentOf(old(entries[..count]), key).Some?;
        && rc == (if known || old(count) < MAX_ENTRIES then 0 else -1)
        && count == (if rc != 0 || known then old(count) else old(count) + 1)
      ensures if rc == 0 then PutOf(old(entries[..count]), entries[..count], key, content)
              else entries[..count] == old(entries[..count])
    {
      ghost var was := entries[..count];
      var at := StoreFind(key);
      if at.Some? {
        StoreUpdate(was, at.value, Entry(key, content));
        entries[at.value] := Entry(key, content);
        assert entries[..count] == was[at.value := Entry(key, content)];
        return 0;
      }
      if count >= MAX_ENTRIES { return -1; }
      StoreAppend(was, Entry(key, content));
      entries[count] := Entry(key, content);
      count := count + 1;
      assert entries[..count] == was + [Entry(key, content)];
      rc := 0;
    }
  }

  // ---------------------------------------------------------------- pending handshakes

  const MAX_KEY_LEN := 64

  type WireKey = k: Octets | |k| <= MAX_KEY_LEN

  datatype Pending = Pending(inUse: bool, key: WireKey, rPub: PubKey, ready: bool, resp: Octets, created: nat)

  function NoPending(): Pending { Pending(false, [], Zeros(EC_PUBKEY_LEN), false, [], 0) }

  predicate IsFor(p: Pending, key: WireKey) { p.inUse && p.key == key }

  /** Free, or abandoned for longer than the time to live. */
  predicate Reusable(p: Pending, now: nat) { !p.inUse || Age(now, p.created) > PENDING_TTL_MS }

  ghost predicate UniqueKeys(t: seq<Pending>) {
    forall i, j :: 0 <= i < j < |t| && t[i].inUse && t[j].inUse ==> t[i].key != t[j].key
  }

  /** A pending handshake as its two parties see it. */
  datatype Info = Info(rPub: PubKey, resp: Option<Octets>)

  function InfoOf(p: Pending): Info { Info(p.rPub, if p.ready then Some(p.resp) else None) }

  function ForKey(key: WireKey): Pending -> bool { p => IsFor(p, key) }

  function CanReuse(now: nat): Pending -> bool { p => Reusable(p, now) }

  /** The slot of a key. */
  function Find(t: seq<Pending>, key: WireKey): Option<nat> { FirstWhere(ForKey(key), t, 0) }

  /** What the table holds for a wire key. */
  function Lookup(t: seq<Pending>, key: WireKey): (r: Option<Info>)
    ensures r.None? <==> forall j :: 0 <= j < |t| ==> !IsFor(t[j], key)
  {
    match Find(t, key)
    case None => None
    case Some(i) => Some(InfoOf(t[i]))
  }

  /** The slot that an INIT fills: the key's own, or the first free or abandoned one. */
  function InitSlot(t: seq<Pending>, key: WireKey, now: nat): (r: Option<nat>)
    ensures r.Some? ==> r.value < |t|
  {
    match Find(t, key)
    case Some(i) => Some(i)
    case None => FirstWhere(CanReuse(now), t, 0)
  }

  function Registered(p: Pending, key: WireKey, rPub: PubKey, now: nat): Pending {
    p.(inUse := true, key := key, rPub := rPub, ready := false, created := now)
  }

  /** What a POLL returns: the answer, if one is waiting. */
  function Answer(t: seq<Pending>, key: WireKey): Option<Octets> {
    match Lookup(t, key)
    case None => None
    case Some(info) => info.resp
  }

  function AfterInit(t: seq<Pending>, key: WireKey, rPub: PubKey, now: nat): (u: seq<Pending>)
    ensures |u| == |t|
  {
    match InitSlot(t, key, now)
    case None => t
    case Some(i) => t[i := Registered(t[i], key, rPub, now)]
  }

  function AfterPoll(t: seq<Pending>, key: WireKey): (u: seq<Pending>)
    ensures |u| == |t|
  {
    match Find(t, key)
    case None => t
    case Some(i) => if t[i].ready then t[i := t[i].(inUse := false)] else t
  }

  function AfterRespond(t: seq<Pending>, key: WireKey, data: Octets): (u: seq<Pending>)
    ensures |u| == |t|
  {
    match Find(t, key)
    case None => t
    case Some(i) => if MIN_RESP_DATA <= |data| <= MAX_RESP_DATA then t[i := t[i].(resp := data, ready := true)] else t
  }

  class PendingTable {
    const slots: array<Pending>

    ghost predicate Valid()
      reads this, slots
    {
      slots.Length == MAX_PENDING && UniqueKeys(slots[..])
    }

    constructor ()
      ensures Valid() && fresh(slots) && forall key: WireKey :: Lookup(slots[..], key) == None
    {
      slots := new Pending[MAX_PENDING](_ => NoPending());
    }

    method PendingFind(key: WireKey) returns (r: Option<nat>)
      requires Valid()
      ensures r == Find(slots[..], key)
    {
      for i := 0 to MAX_PENDING
        invariant FirstWhere(ForKey(key), slots[..], 0) == FirstWhere(ForKey(key), slots[..], i)
      {
        if slots[i].inUse && slots[i].key == key { return Some(i); }
      }
      r := None;
    }

    /** R registers, or refreshes, the handshake for a wire key. */
    method HandshakeInit(key: WireKey, data: Octets, now: nat) returns (ok: bool)
      requires Valid()
      modifies slots
      ensures Valid()
      ensures ok <==> |data| == EC_PUBKEY_LEN && InitSlot(old(slots[..]), key, now).Some?
      ensures slots[..] == if |data| == EC_PUBKEY_LEN then AfterInit(old(slots[..]), key, data, now) else old(slots[..])
    {
      if |data| != EC_PUBKEY_LEN { return false; }
      var at := PendingFind(key);
      if at.None? {
        for i := 0 to MAX_PENDING
          invariant FirstWhere(CanReuse(now), slots[..], 0) == FirstWhere(CanReuse(now), slots[..], i)
          invariant at.None? && slots[..] == old(slots[..])
        {
          if !slots[i].inUse || Age(now, slots[i].created) > PENDING_TTL_MS {
            at := Some(i);
            break;
          }
        }
      }
      if at.None? { return false; }
      RegisteredKeepsUnique(slots[..], at.value, key, data, now);
      slots[at.value] := Registered(slots[at.value], key, data, now);
      ok := true;
    }

    /** R asks for the answer; a ready one is handed over and its slot freed. */
    method HandshakePoll(key: WireKey) returns (resp: Option<Octets>)
      requires Valid()
      modifies slots
      ensures Valid()
      ensures resp == Answer(old(slots[..]), key)
      ensures slots[..] == AfterPoll(old(slots[..]), key)
    {
      var at := PendingFind(key);
      if at.None? || !slots[at.value].ready { return None; }
      resp := Some(slots[at.value].resp);
      slots[at.value] := slots[at.value].(inUse := false);
    }

    /** S delivers its answer, replacing an earlier one that was not fetched. */
    method HandshakeRespond(key: WireKey, data: Octets) returns (ok: bool)
      requires Valid()
      modifies slots
      ensures Valid()
      ensures ok <==> MIN_RESP_DATA <= |data| <= MAX_RESP_DATA && Lookup(old(slots[..]), key).Some?
      ensures slots[..] == AfterRespond(old(slots[..]), key, data)
    {
      if |data| < MIN_RESP_DATA || |data| > MAX_RESP_DATA { return false; }
      var at := PendingFind(key);
      if at.None? { return false; }
      slots[at.value] := slots[at.value].(resp := data, ready := true);
      ok := true;
    }

    /** The keys and public keys that still wait for a Sender, as many as fit in one reply. */
    method Heartbeat() returns (reply: Octets)
      requires Valid()
      ensures reply == HeartbeatReply(slots[..])
    {
      var body: Octets, count: nat := [], 0;
      ghost var t, all := slots[..], Listed(slots[..], 0, 1);
      ListStarted(t);
      for i := 0 to MAX_PENDING
        invariant count <= i && |slots[..]| == MAX_PENDING && slots[..] == t
        invariant Progress(t, all, i, 1 + |body|, body, count)
      {
        var p := slots[i];
        if p.inUse && !p.ready {
          var r := Request(p.key, p.rPub);
          if 1 + |body| + NeedOf(p.key) > MAX_REPLY {
            ListEnded(t, all, i, 1 + |body|, body, count);
            return Counted(count, body);
          }
          ListAppended(t, all, i, 1 + |body|, body, count, r);
          body, count := body + Encode(r), count + 1;
        } else {
          ListSkipped(t, all, i, 1 + |body|, body, count);
        }
      }
      ListEnded(t, all, MAX_PENDING, 1 + |body|, body, count);
      reply := Counted(count, body);
    }
  }

  // ---------------------------------------------------------------- what the operations do to a key

  lemma RegisteredKeepsUnique(t: seq<Pending>, i: nat, key: WireKey, rPub: PubKey, now: nat)
    requires UniqueKeys(t) && InitSlot(t, key, now) == Some(i)
    ensures UniqueKeys(t[i := Registered(t[i], key, rPub, now)])
  {
  }

  /** The key that an INIT for `key` pushes out, if any. */
  function Evicted(t: seq<Pending>, key: WireKey, now: nat): (r: Option<WireKey>) {
    match InitSlot(t, key, now)
    case None => None
    case Some(i) => if t[i].inUse && t[i].key != key then Some(t[i].key) else None
  }

  /**
   INIT: the key is registered afresh, every other key keeps its entry but at most one, which was
   abandoned for longer than the time to live; INIT is refused only when the key is new and every
   slot is taken by an entry that is not.
   */
  lemma InitOnKeys(t: seq<Pending>, key: WireKey, rPub: PubKey, now: nat, other: WireKey)
    requires UniqueKeys(t)
    ensures UniqueKeys(AfterInit(t, key, rPub, now))
    ensures if InitSlot(t, key, now).Some? then
        Lookup(AfterInit(t, key, rPub, now), other)
        == if other == key then Some(Info(rPub, None)) else if Evicted(t, key, now)
             == Some(other) then None else Lookup(t, other)
      else
        && AfterInit(t, key, rPub, now) == t && Lookup(t, key) == None
        && forall i :: 0 <= i < |t| ==> t[i].inUse && Age(now, t[i].created) <= PENDING_TTL_MS
    ensures Evicted(t, key, now).Some? ==>
      Lookup(t, key).None? && exists i ::
        0 <= i < |t| && IsFor(t[i], Evicted(t, key, now).value) && Age(now, t[i].created) > PENDING_TTL_MS
  {
  }

  /** When the key's handshake was last registered. */
  function CreatedOf(t: seq<Pending>, key: WireKey): Option<nat> {
    match Find(t, key)
    case None => None
    case Some(i) => Some(t[i].created)
  }

  lemma FindIs(t: seq<Pending>, key: WireKey, i: nat)
    requires UniqueKeys(t) && i < |t| && IsFor(t[i], key)
    ensures Find(t, key) == Some(i)
  {
  }

  /** INIT sets the time of its key, new or not, and leaves the others alone. */
  lemma {:induction false} InitRenews(t: seq<Pending>, key: WireKey, rPub: PubKey, now: nat, other: WireKey)
    requires UniqueKeys(t) && InitSlot(t, key, now).Some?
    ensures CreatedOf(AfterInit(t, key, rPub, now), other)
         == if other == key then Some(now) else if Evicted(t, key, now) == Some(other) then None
            else CreatedOf(t, other)
  {
    var i := InitSlot(t, key, now).value;
    var u := AfterInit(t, key, rPub, now);
    InitOnKeys(t, key, rPub, now, other);
    if other == key { FindIs(u, key, i); } else if Find(t, other).Some? && Find(t, other).value != i {
      FindIs(u, other, Find(t, other).value);
    }
  }

  lemma {:induction false} PollRenewsNothing(t: seq<Pending>, key: WireKey, other: WireKey)
    requires UniqueKeys(t)
    ensures CreatedOf(AfterPoll(t, key), other)
         == if other == key && Answer(t, key).Some? then None else CreatedOf(t, other)
  {
    PollOnKeys(t, key, other);
    if other != key && Find(t, other).Some? { FindIs(AfterPoll(t, key), other, Find(t, other).value); }
  }

  lemma {:induction false} RespondRenewsNothing(t: seq<Pending>, key: WireKey, data: Octets, other: WireKey)
    requires UniqueKeys(t)
    ensures CreatedOf(AfterRespond(t, key, data), other) == CreatedOf(t, other)
  {
    RespondOnKeys(t, key, data, other);
    if Find(t, other).Some? { FindIs(AfterRespond(t, key, data), other, Find(t, other).value); }
  }

  lemma {:induction false} EvictedIsOld(t: seq<Pending>, key: WireKey, now: nat, other: WireKey)
    requires UniqueKeys(t) && Evicted(t, key, now) == Some(other)
    ensures CreatedOf(t, other).Some? && Age(now, CreatedOf(t, other).value) > PENDING_TTL_MS
  {
    FindIs(t, other, InitSlot(t, key, now).value);
  }

  /** POLL: an answer that is returned is consumed with its entry; nothing else changes. */
  lemma PollOnKeys(t: seq<Pending>, key: WireKey, other: WireKey)
    requires UniqueKeys(t)
    ensures UniqueKeys(AfterPoll(t, key))
    ensures Lookup(AfterPoll(t, key), other) == if other == key && Answer(t, key).Some? then None else Lookup(t, other)
  {
  }

  /** RESPOND: the answer of a pending key is set or replaced; nothing else changes. */
  lemma RespondOnKeys(t: seq<Pending>, key: WireKey, data: Octets, other: WireKey)
    requires UniqueKeys(t)
    ensures UniqueKeys(AfterRespond(t, key, data))
    ensures Lookup(AfterRespond(t, key, data), other)
         == if other == key && Lookup(t, key).Some? && MIN_RESP_DATA <= |data| <= MAX_RESP_DATA
            then Some(Lookup(t, key).value.(resp := Some(data))) else Lookup(t, other)
  {
  }

  // ---------------------------------------------------------------- the heartbeat listing

  datatype Request = Request(key: WireKey, rPub: PubKey)

  function NeedOf(key: WireKey): nat { 1 + |key| + EC_PUBKEY_LEN }

  function Encode(r: Request): (b: Octets)
    ensures |b| == NeedOf(r.key)
  {
    [|r.key|] + r.key + r.rPub
  }

  function EncodeAll(rs: seq<Request>): Octets {
    if |rs| == 0 then [] else Encode(rs[0]) + EncodeAll(rs[1..])
  }

  /** `count` records are in `body`; with those still to be listed they are all. */
  ghost predicate Progress(t: seq<Pending>, all: seq<Request>, i: nat, used: nat, body: Octets, count: nat) {
    && i <= |t| && used == 1 + |body| <= MAX_REPLY
    && body + EncodeAll(Listed(t, i, used)) == EncodeAll(all) && count + |Listed(t, i, used)| == |all|
  }

  lemma ListStarted(t: seq<Pending>)
    ensures Progress(t, Listed(t, 0, 1), 0, 1, [], 0)
  {
    assert [] + EncodeAll(Listed(t, 0, 1)) == EncodeAll(Listed(t, 0, 1));
  }

  lemma ListSkipped(t: seq<Pending>, all: seq<Request>, i: nat, used: nat, body: Octets, count: nat)
    requires i < |t| && Progress(t, all, i, used, body, count) && (!t[i].inUse || t[i].ready)
    ensures Progress(t, all, i + 1, used, body, count)
  {
  }

  lemma ListEnded(t: seq<Pending>, all: seq<Request>, i: nat, used: nat, body: Octets, count: nat)
    requires Progress(t, all, i, used, body, count)
    requires i < |t| ==> t[i].inUse && !t[i].ready && used + NeedOf(t[i].key) > MAX_REPLY
    ensures body == EncodeAll(all) && count == |all|
  {
  }

  lemma ListAppended(t: seq<Pending>, all: seq<Request>, i: nat, used: nat, body: Octets, count: nat, r: Request)
    requires i < |t| && Progress(t, all, i, used, body, count)
    requires t[i].inUse && !t[i].ready && used + NeedOf(t[i].key) <= MAX_REPLY && r == Request(t[i].key, t[i].rPub)
    ensures Progress(t, all, i + 1, used + NeedOf(r.key), body + Encode(r), count + 1)
  {
  }

  /** The waiting requests from slot i on, up to the first that no longer fits behind `used` bytes. */
  function Listed(t: seq<Pending>, i: nat, used: nat): (rs: seq<Request>)
    requires i <= |t| && used <= MAX_REPLY
    ensures |rs| <= |t| - i
    ensures used + |EncodeAll(rs)| <= MAX_REPLY
    decreases |t| - i
  {
    if i == |t| then []
    else if !t[i].inUse || t[i].ready then Listed(t, i + 1, used)
    else if used + NeedOf(t[i].key) > MAX_REPLY then []
    else
      var rest := Listed(t, i + 1, used + NeedOf(t[i].key));
      assert ([Request(t[i].key, t[i].rPub)] + rest)[1..] == rest;
      [Request(t[i].key, t[i].rPub)] + rest
  }

  /** The count in front of its records. */
  function Counted(count: nat, body: Octets): Octets
    requires count <= MAX_PENDING
  {
    [count] + body
  }

  function HeartbeatReply(t: seq<Pending>): (r: Octets)
    requires |t| == MAX_PENDING
    ensures 1 <= |r| <= MAX_REPLY
  {
    var rs := Listed(t, 0, 1);
    Counted(|rs|, EncodeAll(rs))
  }

  /** The Sender's reading of `count` records; it stops at the first that is cut short or has too long a key. */
  function ParseRecords(b: Octets, count: nat): (rs: seq<Request>) {
    if count == 0 || |b| < 1 || b[0] > MAX_KEY_LEN || 1 + b[0] + EC_PUBKEY_LEN > |b| then []
    else
      [Request(b[1..1 + b[0]], b[1 + b[0]..1 + b[0] + EC_PUBKEY_LEN])]
      + ParseRecords(b[1 + b[0] + EC_PUBKEY_LEN..], count - 1)
  }

  lemma ReadRecord(r: Request, tail: Octets)
    ensures var b := Encode(r) + tail; var k := |r.key|;
      && |b| == NeedOf(r.key) + |tail| && b[0] == k && b[1..1 + k] == r.key
      && b[1 + k..1 + k + EC_PUBKEY_LEN] == r.rPub && b[1 + k + EC_PUBKEY_LEN..] == tail
  {
  }

  lemma {:induction false} ParseEncoded(rs: seq<Request>)
    ensures ParseRecords(EncodeAll(rs), |rs|) == rs
  {
    if |rs| > 0 {
      ReadRecord(rs[0], EncodeAll(rs[1..]));
      ParseEncoded(rs[1..]);
      assert rs == [rs[0]] + rs[1..];
    }
  }

  predicate IsWaiting(p: Pending) { p.inUse && !p.ready }

  function RequestIn(p: Pending): Request { Request(p.key, p.rPub) }

  /** The requests that wait for a Sender, in slot order. */
  function Waiting(t: seq<Pending>): seq<Request> { Map(RequestIn, Filter(IsWaiting, t)) }

  lemma WaitingFirst(t: seq<Pending>, i: nat)
    requires i < |t|
    ensures Waiting(t[i..]) == (if IsWaiting(t[i]) then [RequestIn(t[i])] else []) + Waiting(t[i + 1..])
  {
    assert t[i..] == [t[i]] + t[i + 1..] && [] + [t[i]] == [t[i]];
    FilterAppend(IsWaiting, [t[i]], t[i + 1..]);
    FilterSnoc(IsWaiting, [], t[i]);
  }

  /** The listing is the first of the waiting requests, up to the first that does not fit behind those before it. */
  lemma {:induction false} ListsTheWaiting(t: seq<Pending>, i: nat, used: nat)
    requires i <= |t| && used <= MAX_REPLY
    ensures var rs, all := Listed(t, i, used), Waiting(t[i..]);
      rs <= all && (rs == all || used + |EncodeAll(rs)| + NeedOf(all[|rs|].key) > MAX_REPLY)
    decreases |t| - i
  {
    if i < |t| {
      WaitingFirst(t, i);
      if !IsWaiting(t[i]) {
        ListsTheWaiting(t, i + 1, used);
      } else if used + NeedOf(t[i].key) <= MAX_REPLY {
        ListsTheWaiting(t, i + 1, used + NeedOf(t[i].key));
        var rest, all := Listed(t, i + 1, used + NeedOf(t[i].key)), Waiting(t[i..]);
        assert Listed(t, i, used) == [RequestIn(t[i])] + rest;
        assert rest != Waiting(t[i + 1..]) ==> all[1 + |rest|] == Waiting(t[i + 1..])[|rest|];
      }
    }
  }

  /** What the Sender reads from a heartbeat reply is what the cache server listed. */
  lemma HeartbeatRoundTrip(t: seq<Pending>)
    requires |t| == MAX_PENDING
    ensures var reply := HeartbeatReply(t); ParseRecords(reply[1..], reply[0]) == Listed(t, 0, 1)
  {
    ParseEncoded(Listed(t, 0, 1));
    assert HeartbeatReply(t)[1..] == EncodeAll(Listed(t, 0, 1));
  }
}

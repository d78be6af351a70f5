/**
 Pool mixing at a mix node: packets wait in a pool, a flush takes the whole pool, shuffles it
 across sessions, splits it over worker threads by session, and the workers send it on.
 */
module PoolMix {
  import opened Common
  import opened Sequences

  const POOL_MIX_MAX_BATCH := 8192
  const POOL_MIX_MAX_WORKERS := 64
  const POOL_MIX_CONNECT_RETRIES := 3

  type int32 = x: int | -0x8000_0000 <= x < 0x8000_0000

  /** A peeled packet waiting to be released; `sess` is the mix node's session index. */
  datatype Entry = Entry(pkt: seq<int>, nextPort: nat, sess: int32)

  function OfSession(s: int32): Entry -> bool { (e: Entry) => e.sess == s }

  /** The list a session index selects in the shuffle; an index out of range falls to list 0. */
  function ListOf(s: int32): nat
    ensures ListOf(s) < MAX_SESSIONS
  {
    if s < 0 || s >= MAX_SESSIONS then 0 else s
  }

  function InList(l: nat): Entry -> bool { (e: Entry) => ListOf(e.sess) == l }

  /** The worker a session is routed to: its index as an unsigned 32-bit number, modulo the workers. */
  function WorkerOf(s: int32, workers: nat): (w: nat)
    requires workers > 0
    ensures w < workers
  {
    (if s < 0 then s + 0x1_0000_0000 else s) % workers
  }

  /** Neighbouring sessions go to different workers: each of the first ones to its own. */
  lemma WorkersSpread(s: int32, t: int32, workers: nat)
    requires 0 <= s < t < s + workers
    ensures WorkerOf(s, workers) != WorkerOf(t, workers)
    ensures s < workers ==> WorkerOf(s, workers) == s
  {
    Remainders(s, t, workers);
    if s < workers { SmallRemainder(s, workers); }
  }

  lemma SmallRemainder(s: nat, n: nat)
    requires s < n
    ensures s % n == s
  {
  }

  lemma Remainders(s: nat, t: nat, n: nat)
    requires n > 0 && s < t < s + n
    ensures s % n != t % n
  {
    var a, b := s / n, t / n;
    assert s == n * a + s % n && t == n * b + t % n;
    if s % n == t % n {
      Factored(n, a, b);
      if a != b { AtLeastOnce(n, if a < b then b - a else a - b); }
    }
  }

  lemma Factored(n: nat, a: nat, b: nat)
    ensures n * b - n * a == n * (b - a)
  {
  }

  function ForWorker(w: nat, workers: nat): Entry -> bool
    requires workers > 0
  {
    (e: Entry) => WorkerOf(e.sess, workers) == w
  }

  // ---------------------------------------------------------------- what a flush must keep

  /** `out` releases exactly the packets of `batch`, each session's in the order of `batch`. */
  ghost predicate Restratified(batch: seq<Entry>, out: seq<Entry>) {
    forall s: int32 :: Filter(OfSession(s), out) == Filter(OfSession(s), batch)
  }

  lemma RestratifiedIsPermutation(batch: seq<Entry>, out: seq<Entry>)
    requires Restratified(batch, out)
    ensures multiset(out) == multiset(batch)
  {
    forall e: Entry ensures multiset(out)[e] == multiset(batch)[e] {
      FilterCount(OfSession(e.sess), out, e);
      FilterCount(OfSession(e.sess), batch, e);
    }
  }

  /** Keeping every list of the shuffle in order keeps every session in order. */
  lemma ListsInOrder(batch: seq<Entry>, out: seq<Entry>)
    requires forall l: nat :: l < MAX_SESSIONS ==> Filter(InList(l), out) == Filter(InList(l), batch)
    ensures Restratified(batch, out)
  {
    forall s: int32 ensures Filter(OfSession(s), out) == Filter(OfSession(s), batch) {
      FilterFilter(OfSession(s), InList(ListOf(s)), out);
      FilterFilter(OfSession(s), InList(ListOf(s)), batch);
    }
  }

  // ---------------------------------------------------------------- the stratified shuffle

  function Lists(batch: seq<Entry>): (r: seq<nat>)
    ensures |r| == |batch|
    ensures forall i :: 0 <= i < |r| ==> r[i] == ListOf(batch[i].sess) < MAX_SESSIONS
  {
    seq(|batch|, i requires 0 <= i < |batch| => ListOf(batch[i].sess))
  }

  /** The lists in order of their first packet. */
  function FirstSeen(lists: seq<nat>): (r: seq<nat>) {
    if |lists| == 0 then []
    else
      var r, last := FirstSeen(lists[..|lists| - 1]), lists[|lists| - 1];
      if last in r then r else r + [last]
  }

  /** What the shuffle draws from: every list's packets, lists in order of first arrival. */
  function QueuesOf(batch: seq<Entry>): (queues: seq<seq<Entry>>)
    ensures NoneEmpty(queues)
  {
    var lists := FirstSeen(Lists(batch));
    assert forall i :: 0 <= i < |lists| ==> |Filter(InList(lists[i]), batch)| > 0 by {
      forall i | 0 <= i < |lists| ensures |Filter(InList(lists[i]), batch)| > 0 { SeenIsNotEmpty(batch, lists[i]); }
    }
    seq(|lists|, i requires 0 <= i < |lists| => Filter(InList(lists[i]), batch))
  }

  predicate NoneEmpty(queues: seq<seq<Entry>>) { forall i :: 0 <= i < |queues| ==> |queues[i]| > 0 }

  /** Takes a packet off queue p; the last queue takes the place of one that is used up. */
  function Rest(queues: seq<seq<Entry>>, p: nat): (r: seq<seq<Entry>>)
    requires NoneEmpty(queues) && p < |queues|
    ensures NoneEmpty(r)
  {
    if |queues[p]| == 1 then queues[p := queues[|queues| - 1]][..|queues| - 1] else queues[p := queues[p][1..]]
  }

  type Draw = d: nat | d < 0x1_0000_0000

  /** One turn: the draw, as a fraction of 2^32, chooses the queue whose first packet goes out. */
  function Turned(out: seq<Entry>, queues: seq<seq<Entry>>, draw: Draw): (r: (seq<Entry>, seq<seq<Entry>>))
    requires NoneEmpty(queues) && |queues| > 0
    ensures NoneEmpty(r.1)
  {
    PlaceFits(draw, |queues|);
    var p := draw * |queues| / 0x1_0000_0000;
    (out + [queues[p][0]], Rest(queues, p))
  }

  /** What is out, and what is still queued, after n turns. */
  function AfterTurns(queues: seq<seq<Entry>>, draws: nat -> Draw, n: nat): (r: (seq<Entry>, seq<seq<Entry>>))
    requires NoneEmpty(queues)
    ensures NoneEmpty(r.1)
  {
    if n == 0 then ([], queues)
    else
      var (out, left) := AfterTurns(queues, draws, n - 1);
      if |left| == 0 then (out, left) else Turned(out, left, draws(n - 1))
  }

  /** The order in which a stream of draws releases a batch. */
  function Shuffled(batch: seq<Entry>, draws: nat -> Draw): seq<Entry> {
    AfterTurns(QueuesOf(batch), draws, |batch|).0
  }

  /** This is what is out and what is queued after so many turns. */
  ghost predicate InStep(batch: seq<Entry>, draws: nat -> Draw, out: seq<Entry>, queues: seq<seq<Entry>>) {
    match AfterTurns(QueuesOf(batch), draws, |out|)
    case (released, left) => out == released && queues == left
  }

  lemma {:induction false} StaysInStep(batch: seq<Entry>, draws: nat -> Draw, out: seq<Entry>, queues: seq<seq<Entry>>)
    requires InStep(batch, draws, out, queues) && |queues| > 0 && NoneEmpty(queues)
    ensures var (more, left) := Turned(out, queues, draws(|out|)); InStep(batch, draws, more, left)
  {
  }

  lemma {:induction false} SeenIffPresent(lists: seq<nat>, l: nat)
    ensures l in FirstSeen(lists) <==> l in lists
  {
    if |lists| > 0 {
      SeenIffPresent(lists[..|lists| - 1], l);
      assert lists == lists[..|lists| - 1] + [lists[|lists| - 1]];
    }
  }

  lemma SeenIsNotEmpty(batch: seq<Entry>, l: nat)
    requires l in FirstSeen(Lists(batch))
    ensures |Filter(InList(l), batch)| > 0
  {
    SeenIffPresent(Lists(batch), l);
    var j :| 0 <= j < |batch| && Lists(batch)[j] == l;
    FilterCount(InList(l), batch, batch[j]);
  }

  ghost predicate Absent(l: nat, lists: seq<nat>, lo: int, hi: int)
    requires 0 <= lo && hi <= |lists|
  {
    forall j :: lo <= j < hi ==> lists[j] != l
  }

  /** `h` is the first position before k that holds list l, or -1. */
  ghost predicate IsHead(lists: seq<nat>, k: nat, l: nat, h: int)
    requires k <= |lists|
  {
    if h == -1 then Absent(l, lists, 0, k)
    else 0 <= h < k && lists[h] == l && Absent(l, lists, 0, h)
  }

  /** `t` is the last position before k that holds list l, or -1. */
  ghost predicate IsTail(lists: seq<nat>, k: nat, l: nat, t: int)
    requires k <= |lists|
  {
    if t == -1 then Absent(l, lists, 0, k)
    else 0 <= t < k && lists[t] == l && Absent(l, lists, t + 1, k)
  }

  /** `x` is the next position after i and before k of the same list, or -1. */
  ghost predicate IsNext(lists: seq<nat>, k: nat, i: nat, x: int)
    requires i < k <= |lists|
  {
    if x == -1 then Absent(lists[i], lists, i + 1, k)
    else i < x < k && lists[x] == lists[i] && Absent(lists[i], lists, i + 1, x)
  }

  /** `active` holds, once each, the lists that have an element. */
  ghost predicate IsActive(active: seq<int>, head: seq<int>) {
    && |head| == MAX_SESSIONS
    && Distinct(active)
    && (forall i :: 0 <= i < |active| ==> 0 <= active[i] < MAX_SESSIONS && head[active[i]] != -1)
    && (forall l :: 0 <= l < MAX_SESSIONS && head[l] != -1 ==> l in active)
  }

  /** After k packets: every list's first and last element, and each element's successor. */
  ghost predicate Linked(lists: seq<nat>, k: nat, head: seq<int>, tail: seq<int>, next: seq<int>) {
    && k <= |lists| && k <= |next| && |head| == |tail| == MAX_SESSIONS
    && (forall l :: 0 <= l < MAX_SESSIONS ==> IsHead(lists, k, l, head[l]) && IsTail(lists, k, l, tail[l]))
    && (forall i :: 0 <= i < k ==> IsNext(lists, k, i, next[i]))
  }

  function HeadAfter(head: seq<int>, l: nat, k: nat): seq<int>
    requires l < |head|
  {
    if head[l] == -1 then head[l := k] else head
  }

  function NextAfter(head: seq<int>, tail: seq<int>, next: seq<int>, l: nat, k: nat): seq<int>
    requires l < |head| == |tail| && k < |next| && (head[l] != -1 ==> 0 <= tail[l] < |next|)
  {
    if head[l] == -1 then next[k := -1] else next[k := -1][tail[l] := k]
  }

  lemma {:induction false} LinkHeads(lists: seq<nat>, k: nat, head: seq<int>, tail: seq<int>)
    requires |head| == |tail| == MAX_SESSIONS && k < |lists| && lists[k] < MAX_SESSIONS
    requires forall l :: 0 <= l < MAX_SESSIONS ==> IsHead(lists, k, l, head[l]) && IsTail(lists, k, l, tail[l])
    ensures forall l :: 0 <= l < MAX_SESSIONS ==>
      IsHead(lists, k + 1, l, HeadAfter(head, lists[k], k)[l]) && IsTail(lists, k + 1, l, tail[lists[k] := k][l])
  {
  }

  lemma {:induction false} LinkNexts(lists: seq<nat>, k: nat, head: seq<int>, tail: seq<int>, next: seq<int>)
    requires |head| == |tail| == MAX_SESSIONS && k < |lists| && k < |next| && lists[k] < MAX_SESSIONS
    requires IsHead(lists, k, lists[k], head[lists[k]]) && IsTail(lists, k, lists[k], tail[lists[k]])
    requires head[lists[k]] != -1 ==> 0 <= tail[lists[k]]
    requires forall i :: 0 <= i < k ==> IsNext(lists, k, i, next[i])
    ensures forall i :: 0 <= i < k + 1 ==> IsNext(lists, k + 1, i, NextAfter(head, tail, next, lists[k], k)[i])
  {
  }

  /** Appending packet k to its list. */
  lemma {:induction false} LinkOne(lists: seq<nat>, k: nat, head: seq<int>, tail: seq<int>, next: seq<int>)
    requires Linked(lists, k, head, tail, next) && k < |lists| && k < |next| && lists[k] < MAX_SESSIONS
    ensures tail[lists[k]] < k && (head[lists[k]] != -1 ==> 0 <= tail[lists[k]])
    ensures Linked(lists, k + 1, HeadAfter(head, lists[k], k), tail[lists[k] := k],
                   NextAfter(head, tail, next, lists[k], k))
  {
    var l := lists[k];
    assert IsHead(lists, k, l, head[l]) && IsTail(lists, k, l, tail[l]);
    LinkHeads(lists, k, head, tail);
    LinkNexts(lists, k, head, tail, next);
  }

  lemma ActivateOne(active: seq<int>, head: seq<int>, l: nat, k: nat)
    requires IsActive(active, head) && l < MAX_SESSIONS && head[l] == -1
    ensures IsActive(active + [l], head[l := k])
    ensures |active| < MAX_SESSIONS
  {
    DistinctBounded(active + [l], MAX_SESSIONS);
  }

  lemma SeenNext(lists: seq<nat>, i: nat)
    requires i < |lists|
    ensures FirstSeen(lists[..i + 1])
         == FirstSeen(lists[..i]) + if lists[i] in FirstSeen(lists[..i]) then [] else [lists[i]]
  {
    assert lists[..i + 1][..i] == lists[..i];
  }

  method ClearHeads(head: array<int>)
    requires head.Length == MAX_SESSIONS
    modifies head
    ensures forall j :: 0 <= j < MAX_SESSIONS ==> head[j] == -1
  {
    for l := 0 to MAX_SESSIONS
      invariant forall j :: 0 <= j < l ==> head[j] == -1
    {
      head[l] := -1;
    }
  }

  /** Appends element i to list l, which becomes active if it was empty. */
  method Append(i: nat, l: nat, head: array<int>, tail: array<int>, next: array<int>, active: array<int>, nActive: nat)
    returns (nActive': nat)
    requires head.Length == tail.Length == active.Length == MAX_SESSIONS && l < MAX_SESSIONS && i < next.Length
    requires head != next && head != active && next != active && tail != head && tail != next && tail != active
    requires head[l] != -1 ==> 0 <= tail[l] < i
    requires nActive <= MAX_SESSIONS && IsActive(active[..nActive], head[..])
    modifies head, tail, next, active
    ensures tail[..] == old(tail[..])[l := i]
    ensures head[..] == HeadAfter(old(head[..]), l, i)
    ensures next[..] == NextAfter(old(head[..]), old(tail[..]), old(next[..]), l, i)
    ensures nActive' <= MAX_SESSIONS && IsActive(active[..nActive'], head[..])
    ensures active[..nActive'] == old(active[..nActive]) + if old(head[l]) == -1 then [l] else []
  {
    nActive' := nActive;
    next[i] := -1;
    if head[l] == -1 {
      ActivateOne(active[..nActive], head[..], l, i);
      head[l] := i;
      active[nActive] := l;
      nActive' := nActive + 1;
      assert active[..nActive'] == old(active[..nActive]) + [l as int];
    } else {
      next[tail[l]] := i;
    }
    tail[l] := i;
  }

  /** Threads the batch into one forward list per session, over the arrays head, tail and next. */
  method LinkSessions(batch: array<Entry>, n: nat, head: array<int>, next: array<int>, active: array<int>)
    returns (nActive: nat, ghost tails: seq<int>)
    requires n <= batch.Length <= next.Length && head.Length == active.Length == MAX_SESSIONS
    requires head != next && head != active && next != active
    modifies head, next, active
    ensures Linked(Lists(batch[..n]), n, head[..], tails, next[..])
    ensures nActive <= MAX_SESSIONS && IsActive(active[..nActive], head[..])
    ensures active[..nActive] == FirstSeen(Lists(batch[..n]))
  {
    var tail := new int[MAX_SESSIONS](_ => -1);
    ghost var lists := Lists(batch[..n]);
    ClearHeads(head);
    nActive := 0;
    for i := 0 to n
      modifies head, next, active, tail
      invariant Linked(lists, i, head[..], tail[..], next[..])
      invariant nActive <= MAX_SESSIONS && IsActive(active[..nActive], head[..])
      invariant active[..nActive] == FirstSeen(lists[..i])
    {
      var l := ListOf(batch[i].sess);
      assert lists[i] == l;
      SeenNext(lists, i);
      ghost var heads, tails', links := head[..], tail[..], next[..];
      LinkOne(lists, i, heads, tails', links);
      nActive := Append(i, l, head, tail, next, active, nActive);
    }
    tails := tail[..];
    assert lists[..n] == lists;
  }

  /** What the emitting loop has released: of each list l, the elements before position pos[l]. */
  ghost predicate Released(batch: seq<Entry>, pos: seq<nat>, out: seq<Entry>)
    requires |pos| == MAX_SESSIONS
  {
    forall l: nat ::
      l < MAX_SESSIONS && pos[l] <= |batch| ==> Filter(InList(l), out) == Filter(InList(l), batch[..pos[l]])
  }

  /** List l between idx and nxt holds only the element at idx. */
  lemma NothingInGap(batch: seq<Entry>, l: nat, idx: nat, nxt: nat)
    requires idx < nxt <= |batch| && ListOf(batch[idx].sess) == l && Absent(l, Lists(batch), idx + 1, nxt)
    ensures Filter(InList(l), batch[..nxt]) == Filter(InList(l), batch[..idx]) + [batch[idx]]
  {
    var gap := batch[idx + 1..nxt];
    assert batch[..nxt] == batch[..idx] + [batch[idx]] + gap;
    FilterSnoc(InList(l), batch[..idx], batch[idx]);
    FilterAppend(InList(l), batch[..idx] + [batch[idx]], gap);
    forall i | 0 <= i < |gap| ensures !InList(l)(gap[i]) {
      assert Lists(batch)[idx + 1 + i] != l;
    }
    FilterNone(InList(l), gap);
  }

  /** Releasing the element at `idx`, whose successor in its list is `nxt`, moves its list to `nxt`. */
  lemma ReleaseNext(batch: seq<Entry>, pos: seq<nat>, out: seq<Entry>, idx: nat, nxt: nat)
    requires |pos| == MAX_SESSIONS && idx < nxt <= |batch|
    requires forall l :: 0 <= l < MAX_SESSIONS ==> pos[l] <= |batch|
    requires Released(batch, pos, out) && pos[ListOf(batch[idx].sess)] == idx
    requires Absent(ListOf(batch[idx].sess), Lists(batch), idx + 1, nxt)
    ensures Released(batch, pos[ListOf(batch[idx].sess) := nxt], out + [batch[idx]])
  {
    var l := ListOf(batch[idx].sess);
    NothingInGap(batch, l, idx, nxt);
    forall k: nat | k < MAX_SESSIONS
      ensures Filter(InList(k), out + [batch[idx]]) == Filter(InList(k), batch[..pos[l := nxt][k]])
    {
      FilterSnoc(InList(k), out, batch[idx]);
    }
  }

  /** The positions already released: those before their list's current position. */
  ghost function Done(lists: seq<nat>, pos: seq<nat>): (r: set<int>)
    requires |pos| == MAX_SESSIONS && forall i :: 0 <= i < |lists| ==> lists[i] < MAX_SESSIONS
    ensures |r| <= |lists|
    ensures |r| == |lists| ==> r == Below(|lists|)
  {
    var r := set i | i in Below(|lists|) && i < pos[lists[i]];
    SubsetCard(r, Below(|lists|));
    r
  }

  lemma DoneGrows(lists: seq<nat>, pos: seq<nat>, idx: nat, nxt: nat)
    requires |pos| == MAX_SESSIONS && forall i :: 0 <= i < |lists| ==> lists[i] < MAX_SESSIONS
    requires idx < nxt <= |lists| && pos[lists[idx]] == idx && Absent(lists[idx], lists, idx + 1, nxt)
    ensures Done(lists, pos[lists[idx] := nxt]) == Done(lists, pos) + {idx}
    ensures |Done(lists, pos[lists[idx] := nxt])| == |Done(lists, pos)| + 1
  {
  }

  lemma PlaceFits(draw: Draw, n: nat)
    requires n > 0
    ensures draw * n / 0x1_0000_0000 < n
  {
    assert draw * n < 0x1_0000_0000 * n;
  }

  /** The list of the loop's next pick, from a 32-bit draw. */
  function Pick(draw: Draw, nActive: nat): (p: nat)
    requires nActive > 0
    ensures p < nActive
  {
    var pick := draw * nActive / 0x1_0000_0000;
    if pick >= nActive then nActive - 1 else pick
  }

  /** The guard against a pick behind the last list never acts. */
  lemma PickIsPlace(draw: Draw, nActive: nat)
    requires nActive > 0
    ensures Pick(draw, nActive) == draw * nActive / 0x1_0000_0000
  {
    PlaceFits(draw, nActive);
  }

  /** Where the emitting loop stands: `cur` of every active list is its position, other lists are finished. */
  ghost predicate Emitting(lists: seq<nat>, pos: seq<nat>, active: seq<int>, cur: seq<int>) {
    && |pos| == |cur| == MAX_SESSIONS
    && Distinct(active)
    && (forall i :: 0 <= i < |active| ==>
      && 0 <= active[i] < MAX_SESSIONS
      && 0 <= cur[active[i]] == pos[active[i]] < |lists|
      && lists[pos[active[i]]] == active[i])
    && (forall l: nat :: l < MAX_SESSIONS && l !in active ==> pos[l] == |lists|)
    && (forall l: nat :: l < MAX_SESSIONS ==> pos[l] <= |lists|)
  }

  /** The emitting loop's invariant, over the contents of its arrays. */
  ghost predicate Midway(batch: seq<Entry>, pos: seq<nat>, active: seq<int>, cur: seq<int>, out: seq<Entry>) {
    && Emitting(Lists(batch), pos, active, cur)
    && Released(batch, pos, out)
    && |Done(Lists(batch), pos)| == |out|
  }

  /** Swapping out the finished list leaves the other lists where they were. */
  lemma FinishList(lists: seq<nat>, pos: seq<nat>, active: seq<int>, cur: seq<int>, pick: nat, rest: seq<int>)
    requires Emitting(lists, pos, active, cur) && pick < |active|
    requires rest == active[pick := active[|active| - 1]][..|active| - 1]
    ensures Emitting(lists, pos[active[pick] := |lists|], rest, cur)
  {
    forall k | k in active && k != active[pick] ensures k in rest {
      var i :| 0 <= i < |active| && active[i] == k;
      assert rest[if i == |active| - 1 then pick else i] == k;
    }
  }

  lemma AdvanceList(lists: seq<nat>, pos: seq<nat>, active: seq<int>, cur: seq<int>, pick: nat, nxt: nat)
    requires Emitting(lists, pos, active, cur) && pick < |active|
    requires nxt < |lists| && lists[nxt] == active[pick]
    ensures Emitting(lists, pos[active[pick] := nxt], active, cur[active[pick] := nxt])
  {
  }

  /** A list that is still active has a packet left, so the output is not full yet. */
  lemma TurnInBounds(batch: seq<Entry>, pos: seq<nat>, active: seq<int>, cur: seq<int>, out: seq<Entry>, pick: nat)
    requires Midway(batch, pos, active, cur, out) && pick < |active|
    ensures |out| < |batch| && 0 <= active[pick] < |cur| && 0 <= cur[active[pick]] < |batch|
  {
    var idx := cur[active[pick]];
    assert idx !in Done(Lists(batch), pos) && idx in Below(|batch|);
  }

  /** Releases the packet at the cursor of the picked list and looks up its successor. */
  method EmitPicked(batch: array<Entry>, next: array<int>, active: array<int>, nActive: nat, cur: array<int>,
                    pick: nat, out: array<Entry>, outCount: nat,
                    ghost b: seq<Entry>, ghost heads: seq<int>, ghost tails: seq<int>, ghost pos: seq<nat>)
    returns (nxt: int)
    requires pick < nActive <= active.Length && batch != out && outCount <= |b|
    requires |b| <= batch.Length && |b| <= out.Length && b == batch[..|b|]
    requires Linked(Lists(b), |b|, heads, tails, next[..])
    requires Midway(b, pos, active[..nActive], cur[..], out[..outCount])
    modifies out
    ensures outCount < |b| && 0 <= active[pick] < cur.Length && 0 <= cur[active[pick]] < |b| && |b| <= next.Length
    ensures nxt == next[cur[active[pick]]] && out[..outCount + 1] == old(out[..outCount]) + [b[cur[active[pick]]]]
    ensures out[|b|..] == old(out[|b|..])
  {
    ghost var was := active[..nActive];
    assert active[pick] == was[pick];
    TurnInBounds(b, pos, was, cur[..], out[..outCount], pick);
    var idx := cur[active[pick]];
    PutNext(out, outCount, |b|, batch[idx]);
    nxt := next[idx];
  }

  /** One turn of the emitting loop: the picked list's current packet goes out and the list moves on. */
  lemma EmitOne(batch: seq<Entry>, head: seq<int>, tail: seq<int>, next: seq<int>,
                pos: seq<nat>, active: seq<int>, cur: seq<int>, out: seq<Entry>,
                pick: nat, nxt: int, rest: seq<int>, cur': seq<int>) returns (pos': seq<nat>)
    requires Midway(batch, pos, active, cur, out) && pick < |active|
    requires Linked(Lists(batch), |batch|, head, tail, next) && nxt == next[pos[active[pick]]]
    requires rest == if nxt == -1 then active[pick := active[|active| - 1]][..|active| - 1] else active
    requires cur' == if nxt == -1 then cur else cur[active[pick] := nxt]
    ensures 0 <= cur[active[pick]] < |batch|
    ensures Midway(batch, pos', rest, cur', out + [batch[cur[active[pick]]]])
    ensures pos' == pos[active[pick] := if nxt == -1 then |batch| else nxt]
  {
    var lists := Lists(batch);
    var l := active[pick];
    var follow: nat := if nxt == -1 then |batch| else nxt;
    DoneGrows(lists, pos, cur[l], follow);
    ReleaseNext(batch, pos, out, cur[l], follow);
    pos' := pos[l := follow];
    if nxt == -1 {
      FinishList(lists, pos, active, cur, pick, rest);
    } else {
      AdvanceList(lists, pos, active, cur, pick, nxt);
    }
  }

  /** What is left of list l from its position on. */
  function LeftOf(batch: seq<Entry>, pos: seq<nat>, l: int): seq<Entry> {
    if 0 <= l < |pos| && pos[l] <= |batch| then Filter(InList(l), batch[pos[l]..]) else []
  }

  /** The queues that the cursors stand for. */
  function Queues(batch: seq<Entry>, pos: seq<nat>, active: seq<int>): (r: seq<seq<Entry>>)
    ensures |r| == |active|
  {
    seq(|active|, i requires 0 <= i < |active| => LeftOf(batch, pos, active[i]))
  }

  /** A list's next packet and what follows it. */
  lemma {:induction false} LeftSplits(batch: seq<Entry>, l: nat, idx: nat, nxt: nat)
    requires idx < nxt <= |batch| && ListOf(batch[idx].sess) == l && Absent(l, Lists(batch), idx + 1, nxt)
    ensures Filter(InList(l), batch[idx..]) == [batch[idx]] + Filter(InList(l), batch[nxt..])
  {
    NothingInGap(batch, l, idx, nxt);
    FilterPrefix(InList(l), batch, idx);
    FilterPrefix(InList(l), batch, nxt);
    Regroup(Filter(InList(l), batch[..idx]), [batch[idx]], Filter(InList(l), batch[nxt..]));
    CancelPrefix(Filter(InList(l), batch[..idx]), Filter(InList(l), batch[idx..]),
                 [batch[idx]] + Filter(InList(l), batch[nxt..]));
  }

  lemma LeftNotEmpty(batch: seq<Entry>, l: nat, idx: nat)
    requires idx < |batch| && ListOf(batch[idx].sess) == l
    ensures |Filter(InList(l), batch[idx..])| > 0
  {
    assert batch[idx..][0] == batch[idx];
    FilterCount(InList(l), batch[idx..], batch[idx]);
  }

  lemma QueuesLeft(batch: seq<Entry>, pos: seq<nat>, active: seq<int>, cur: seq<int>)
    requires Emitting(Lists(batch), pos, active, cur)
    ensures NoneEmpty(Queues(batch, pos, active))
  {
    forall i | 0 <= i < |active| ensures |LeftOf(batch, pos, active[i])| > 0 {
      LeftNotEmpty(batch, active[i], pos[active[i]]);
    }
  }

  /** The list that is used up gives its place to the last one. */
  lemma {:induction false} QueueDropped(batch: seq<Entry>, pos: seq<nat>, active: seq<int>, pick: nat)
    requires Distinct(active) && pick < |active| && 0 <= active[pick] < |pos|
    requires NoneEmpty(Queues(batch, pos, active)) && |Queues(batch, pos, active)[pick]| == 1
    ensures Queues(batch, pos[active[pick] := |batch|], active[pick := active[|active| - 1]][..|active| - 1])
         == Rest(Queues(batch, pos, active), pick)
  {
    var l, rest := active[pick], active[pick := active[|active| - 1]][..|active| - 1];
    var pos' := pos[l := |batch|];
    DropBySwap(active, pick);
    forall i | 0 <= i < |rest| ensures LeftOf(batch, pos', rest[i]) == LeftOf(batch, pos, rest[i]) {
      assert rest[i] != l;
    }
  }

  lemma {:induction false} QueueAdvanced(batch: seq<Entry>, pos: seq<nat>, active: seq<int>, pick: nat, nxt: nat)
    requires Distinct(active) && pick < |active| && 0 <= active[pick] < |pos|
    requires NoneEmpty(Queues(batch, pos, active)) && |Queues(batch, pos, active)[pick]| > 1
    requires nxt <= |batch| && Queues(batch, pos, active)[pick][1..] == Filter(InList(active[pick]), batch[nxt..])
    ensures Queues(batch, pos[active[pick] := nxt], active) == Rest(Queues(batch, pos, active), pick)
  {
    var pos' := pos[active[pick] := nxt];
    forall i | 0 <= i < |active| ensures LeftOf(batch, pos', active[i]) == Rest(Queues(batch, pos, active), pick)[i] {
      assert i != pick ==> active[i] != active[pick];
    }
  }

  /** What a turn of the loop does to its cursors is what a turn does to the queues. */
  lemma {:induction false} TurnIsTurned(batch: seq<Entry>, pos: seq<nat>, active: seq<int>, cur: seq<int>, pick: nat,
                                        nxt: int)
    requires Emitting(Lists(batch), pos, active, cur) && pick < |active|
    requires IsNext(Lists(batch), |batch|, pos[active[pick]], nxt)
    ensures NoneEmpty(Queues(batch, pos, active))
    ensures Queues(batch, pos, active)[pick][0] == batch[pos[active[pick]]]
    ensures var rest := if nxt == -1 then active[pick := active[|active| - 1]][..|active| - 1] else active;
      var pos' := pos[active[pick] := if nxt == -1 then |batch| else nxt];
      Queues(batch, pos', rest) == Rest(Queues(batch, pos, active), pick)
  {
    var l := active[pick];
    QueuesLeft(batch, pos, active, cur);
    LeftSplits(batch, l, pos[l], if nxt == -1 then |batch| else nxt);
    if nxt == -1 {
      assert batch[|batch|..] == [];
      QueueDropped(batch, pos, active, pick);
    } else {
      LeftNotEmpty(batch, l, nxt);
      QueueAdvanced(batch, pos, active, pick, nxt);
    }
  }

  /** When no list is left, everything was released. */
  lemma AllEmitted(batch: seq<Entry>, pos: seq<nat>, cur: seq<int>, out: seq<Entry>)
    requires Midway(batch, pos, [], cur, out)
    ensures |out| == |batch| && Restratified(batch, out)
  {
    forall l: nat | l < MAX_SESSIONS
      ensures Filter(InList(l), out) == Filter(InList(l), batch)
    {
      assert pos[l] == |batch| && batch[..pos[l]] == batch;
    }
    assert Done(Lists(batch), pos) == Below(|batch|);
    ListsInOrder(batch, out);
  }

  lemma StartEmitting(batch: seq<Entry>, head: seq<int>, tail: seq<int>, next: seq<int>, active: seq<int>,
                      cur: seq<int>)
    returns (pos: seq<nat>)
    requires IsActive(active, head) && |cur| == MAX_SESSIONS
    requires Linked(Lists(batch), |batch|, head, tail, next)
    requires forall i :: 0 <= i < |active| ==> cur[active[i]] == head[active[i]]
    ensures Midway(batch, pos, active, cur, [])
  {
    var lists := Lists(batch);
    pos := seq(MAX_SESSIONS, l requires 0 <= l < MAX_SESSIONS => if head[l] < 0 then |batch| else head[l]);
    forall l: nat | l < MAX_SESSIONS ensures Filter(InList(l), batch[..pos[l]]) == [] {
      forall i | 0 <= i < pos[l] ensures !InList(l)(batch[i]) {
        assert lists[i] != l;
      }
      FilterNone(InList(l), batch[..pos[l]]);
    }
    forall i | 0 <= i < |batch| ensures !(i < pos[lists[i]]) {
      assert IsHead(lists, |batch|, lists[i], head[lists[i]]);
    }
  }

  lemma {:induction false} NothingBefore(batch: seq<Entry>, l: nat, h: nat)
    requires h <= |batch| && Absent(l, Lists(batch), 0, h)
    ensures Filter(InList(l), batch[h..]) == Filter(InList(l), batch)
  {
    forall j | 0 <= j < h ensures !InList(l)(batch[j]) { assert Lists(batch)[j] != l; }
    FilterNone(InList(l), batch[..h]);
    FilterPrefix(InList(l), batch, h);
  }

  /** The cursors start with whole lists. */
  lemma {:induction false} StartQueues(batch: seq<Entry>, head: seq<int>, tail: seq<int>, next: seq<int>,
                                       active: seq<int>, pos: seq<nat>)
    requires IsActive(active, head) && active == FirstSeen(Lists(batch)) && |pos| == MAX_SESSIONS
    requires Linked(Lists(batch), |batch|, head, tail, next)
    requires forall i :: 0 <= i < |active| ==> pos[active[i]] == head[active[i]]
    ensures Queues(batch, pos, active) == QueuesOf(batch)
  {
    forall i | 0 <= i < |active| ensures LeftOf(batch, pos, active[i]) == Filter(InList(active[i]), batch) {
      var l: nat := active[i];
      assert IsHead(Lists(batch), |batch|, l, head[l]);
      NothingBefore(batch, l, pos[l]);
    }
  }

  lemma CutSwapped(a: seq<int>, k: nat, pick: nat)
    requires pick <= k < |a|
    ensures a[pick := a[k]][..k] == a[..k + 1][pick := a[..k + 1][k]][..k]
  {
  }

  method PutNext(out: array<Entry>, k: nat, ghost n: nat, e: Entry)
    requires k < n <= out.Length
    modifies out
    ensures out[..k + 1] == old(out[..k]) + [e]
    ensures out[n..] == old(out[n..])
  {
    out[k] := e;
  }

  /** The picked list moves to its next element, or gives its place to the last active list. */
  method AdvanceOrDrop(active: array<int>, nActive: nat, cur: array<int>, pick: nat, nxt: int) returns (left: nat)
    requires pick < nActive <= active.Length && active != cur && 0 <= active[pick] < cur.Length
    modifies active, cur
    ensures left == if nxt == -1 then nActive - 1 else nActive
    ensures nxt == -1 ==> cur[..] == old(cur[..])
    ensures nxt == -1 ==>
      active[..left] == old(active[..nActive])[pick := old(active[..nActive])[nActive - 1]][..nActive - 1]
    ensures nxt != -1 ==> active[..left] == old(active[..nActive]) && cur[..] == old(cur[..][active[pick] := nxt])
  {
    ghost var before := active[..];
    if nxt == -1 {
      active[pick] := active[nActive - 1];
      left := nActive - 1;
      assert active[..] == before[pick := before[left]];
      CutSwapped(before, left, pick);
    } else {
      cur[active[pick]] := nxt;
      left := nActive;
    }
  }

  /** One turn of the emitting loop: draws a list, releases its next packet and moves the list on. */
  method EmitTurn(batch: array<Entry>, next: array<int>, active: array<int>, nActive: nat, cur: array<int>,
                  draw: Draw, out: array<Entry>, outCount: nat,
                  ghost b: seq<Entry>, ghost heads: seq<int>, ghost tails: seq<int>, ghost pos: seq<nat>)
    returns (left: nat, ghost pos': seq<nat>)
    requires 0 < nActive <= active.Length && active != cur && next != active && next != cur
    requires |b| <= batch.Length && |b| <= out.Length && b == batch[..|b|] && batch != out && outCount <= |b|
    requires Linked(Lists(b), |b|, heads, tails, next[..])
    requires Midway(b, pos, active[..nActive], cur[..], out[..outCount])
    modifies active, cur, out
    ensures outCount < |b| && left <= nActive
    ensures Midway(b, pos', active[..left], cur[..], out[..outCount + 1])
    ensures NoneEmpty(Queues(b, pos, old(active[..nActive])))
    ensures (out[..outCount + 1], Queues(b, pos', active[..left]))
         == Turned(old(out[..outCount]), Queues(b, pos, old(active[..nActive])), draw)
    ensures out[|b|..] == old(out[|b|..])
  {
    ghost var was, wasCur, released := active[..nActive], cur[..], out[..outCount];
    var pick := Pick(draw, nActive);
    var nxt := EmitPicked(batch, next, active, nActive, cur, pick, out, outCount, b, heads, tails, pos);
    left := AdvanceOrDrop(active, nActive, cur, pick, nxt);
    pos' := EmitOne(b, heads, tails, next[..], pos, was, wasCur, released, pick, nxt, active[..left], cur[..]);
    TurnIsTurned(b, pos, was, wasCur, pick, nxt);
    PickIsPlace(draw, |was|);
  }

  /** The starting position of every list: its head. */
  method StartCursors(ghost b: seq<Entry>, head: array<int>, ghost tails: seq<int>, ghost links: seq<int>,
                      active: array<int>, nLists: nat)
    returns (cur: array<int>, ghost pos: seq<nat>)
    requires nLists <= active.Length
    requires Linked(Lists(b), |b|, head[..], tails, links) && IsActive(active[..nLists], head[..])
    requires active[..nLists] == FirstSeen(Lists(b))
    ensures fresh(cur) && Midway(b, pos, active[..nLists], cur[..], [])
    ensures Queues(b, pos, active[..nLists]) == QueuesOf(b)
  {
    ghost var heads, lists := head[..], active[..nLists];
    cur := new int[MAX_SESSIONS];
    for i := 0 to nLists
      invariant forall j :: 0 <= j < i ==> cur[lists[j]] == heads[lists[j]]
    {
      cur[active[i]] := head[active[i]];
    }
    pos := StartEmitting(b, heads, tails, links, lists, cur[..]);
    StartQueues(b, heads, tails, links, lists, pos);
  }

  /** Draws a list at random and releases its next packet, until every list is exhausted. */
  method EmitAll(batch: array<Entry>, next: array<int>, active: array<int>, nLists: nat, cur: array<int>,
                 draws: nat -> Draw, out: array<Entry>,
                 ghost b: seq<Entry>, ghost heads: seq<int>, ghost tails: seq<int>, ghost startPos: seq<nat>)
    requires nLists <= active.Length && active != cur && next != active && next != cur && batch != out
    requires |b| <= batch.Length && |b| <= out.Length && b == batch[..|b|]
    requires Linked(Lists(b), |b|, heads, tails, next[..])
    requires Midway(b, startPos, active[..nLists], cur[..], [])
    requires Queues(b, startPos, active[..nLists]) == QueuesOf(b)
    modifies active, cur, out
    ensures Restratified(b, out[..|b|])
    ensures out[..|b|] == Shuffled(b, draws)
    ensures out[|b|..] == old(out[|b|..])
  {
    var nActive: nat, outCount: nat := nLists, 0;
    ghost var pos := startPos;
    assert out[..0] == [];
    while nActive > 0
      invariant nActive <= active.Length && outCount <= |b|
      invariant Midway(b, pos, active[..nActive], cur[..], out[..outCount])
      invariant InStep(b, draws, out[..outCount], Queues(b, pos, active[..nActive]))
      invariant out[|b|..] == old(out[|b|..])
      decreases |b| - outCount
    {
      ghost var queues, released := Queues(b, pos, active[..nActive]), out[..outCount];
      nActive, pos := EmitTurn(batch, next, active, nActive, cur, draws(outCount), out, outCount, b, heads, tails, pos);
      StaysInStep(b, draws, released, queues);
      outCount := outCount + 1;
    }
    assert active[..nActive] == [];
    AllEmitted(b, pos, cur[..], out[..outCount]);
    assert Queues(b, pos, []) == [];
  }

  method InterleaveLists(batch: array<Entry>, n: nat, head: array<int>, next: array<int>, ghost tails: seq<int>,
                         active: array<int>, nLists: nat, draws: nat -> Draw, out: array<Entry>)
    requires n <= batch.Length && n <= out.Length && batch != out && nLists <= active.Length
    requires head != active && next != active
    requires Linked(Lists(batch[..n]), n, head[..], tails, next[..]) && IsActive(active[..nLists], head[..])
    requires active[..nLists] == FirstSeen(Lists(batch[..n]))
    modifies active, out
    ensures Restratified(batch[..n], out[..n]) && out[..n] == Shuffled(batch[..n], draws)
    ensures out[n..] == old(out[n..])
  {
    ghost var b := batch[..n];
    var cur;
    ghost var pos;
    cur, pos := StartCursors(b, head, tails, next[..], active, nLists);
    EmitAll(batch, next, active, nLists, cur, draws, out, b, head[..], tails, pos);
  }

  /**
   Releases the batch with sessions interleaved at random and every session in order,
   for every source of draws.
   */
  method PoolMixShuffleStratified(batch: array<Entry>, n: nat, draws: nat -> Draw, out: array<Entry>)
    requires n <= batch.Length && n <= out.Length && batch != out
    modifies out
    ensures Restratified(batch[..n], out[..n]) && out[..n] == Shuffled(batch[..n], draws)
    ensures multiset(out[..n]) == multiset(batch[..n])
    ensures out[n..] == old(out[n..])
  {
    var head, active := new int[MAX_SESSIONS], new int[MAX_SESSIONS];
    var next := new int[batch.Length];
    ghost var tails;
    var nActive;
    nActive, tails := LinkSessions(batch, n, head, next, active);
    InterleaveLists(batch, n, head, next, tails, active, nActive, draws, out);
    RestratifiedIsPermutation(batch[..n], out[..n]);
  }

  // ---------------------------------------------------------------- splitting over the workers

  /** The entries of s that go to worker w, in their order in s. */
  function Share(s: seq<Entry>, w: nat, workers: nat): seq<Entry>
    requires workers > 0
  {
    Filter(ForWorker(w, workers), s)
  }

  /** How many entries every worker gets. */
  method CountBuckets(shuffled: array<Entry>, n: nat, workers: nat) returns (counts: seq<nat>)
    requires n <= shuffled.Length && workers > 0
    ensures |counts| == workers && SumTo(counts, workers) == n
    ensures forall w :: 0 <= w < workers ==> counts[w] == |Share(shuffled[..n], w, workers)|
  {
    counts := seq(workers, _ => 0);
    SumZero(counts, workers);
    assert shuffled[..0] == [];
    for i := 0 to n
      invariant |counts| == workers && SumTo(counts, workers) == i
      invariant forall w :: 0 <= w < workers ==> counts[w] == |Share(shuffled[..i], w, workers)|
    {
      var w := WorkerOf(shuffled[i].sess, workers);
      SumBump(counts, w, workers);
      counts := counts[w := counts[w] + 1];
      assert shuffled[..i + 1] == shuffled[..i] + [shuffled[i]];
      forall v | 0 <= v < workers ensures counts[v] == |Share(shuffled[..i + 1], v, workers)| {
        FilterSnoc(ForWorker(v, workers), shuffled[..i], shuffled[i]);
      }
    }
  }

  /** Every worker's range starts where the previous one ends. */
  ghost predicate Adjacent(start: seq<nat>, counts: seq<nat>, n: nat) {
    && |start| == |counts| > 0
    && (forall w :: 0 <= w < |start| ==> start[w] == SumTo(counts, w))
    && SumTo(counts, |counts|) == n
  }

  /** Two workers' ranges do not overlap. */
  lemma RangesApart(start: seq<nat>, counts: seq<nat>, n: nat, v: nat, w: nat)
    requires Adjacent(start, counts, n) && v < w < |start|
    ensures start[v] + counts[v] <= start[w]
  {
    assert SumTo(counts, v + 1) == SumTo(counts, v) + counts[v];
    SumMonotone(counts, v + 1, w);
  }

  lemma RangeFits(start: seq<nat>, counts: seq<nat>, n: nat, w: nat)
    requires Adjacent(start, counts, n) && w < |start|
    ensures start[w] + counts[w] <= n
  {
    assert SumTo(counts, w + 1) == SumTo(counts, w) + counts[w];
    SumMonotone(counts, w + 1, |counts|);
  }

  /** The part of worker w's range that has been written: its share of `done`. */
  ghost predicate FilledAt(bucketed: seq<Entry>, lo: nat, len: nat, w: nat, workers: nat, done: seq<Entry>)
    requires workers > 0
  {
    lo + len <= |bucketed| && bucketed[lo..lo + len] == Share(done, w, workers)
  }

  ghost predicate Filled(bucketed: seq<Entry>, start: seq<nat>, fill: seq<nat>, done: seq<Entry>) {
    && |start| == |fill| > 0
    && (forall w :: 0 <= w < |start| ==> FilledAt(bucketed, start[w], fill[w], w, |start|, done))
  }

  lemma ShareGrows(all: seq<Entry>, i: nat, w: nat, workers: nat)
    requires i < |all| && workers > 0
    ensures Share(all[..i + 1], w, workers)
         == Share(all[..i], w, workers) + if WorkerOf(all[i].sess, workers) == w then [all[i]] else []
    ensures |Share(all[..i + 1], w, workers)| <= |Share(all, w, workers)|
  {
    assert all[..i + 1] == all[..i] + [all[i]];
    FilterSnoc(ForWorker(w, workers), all[..i], all[i]);
    FilterPrefix(ForWorker(w, workers), all, i + 1);
  }

  /** Filling worker w's next place leaves another worker's range alone. */
  lemma FillOther(bucketed: seq<Entry>, start: seq<nat>, fill: seq<nat>, counts: seq<nat>, all: seq<Entry>, i: nat,
                  w: nat, v: nat)
    requires i < |all| <= |bucketed| && Adjacent(start, counts, |all|) && |fill| == |start|
    requires v < |start| && v != w < |start| && w == WorkerOf(all[i].sess, |start|)
    requires FilledAt(bucketed, start[v], fill[v], v, |start|, all[..i])
    requires fill[v] <= counts[v] && fill[w] < counts[w] && start[w] + fill[w] < |all|
    ensures FilledAt(bucketed[start[w] + fill[w] := all[i]], start[v], fill[v], v, |start|, all[..i + 1])
  {
    var p := start[w] + fill[w];
    ShareGrows(all, i, v, |start|);
    if v < w { RangesApart(start, counts, |all|, v, w); } else { RangesApart(start, counts, |all|, w, v); }
    assert bucketed[p := all[i]][start[v]..start[v] + fill[v]] == bucketed[start[v]..start[v] + fill[v]];
  }

  /** Filling worker w's next place extends its share by the entry put there. */
  lemma FillOwn(bucketed: seq<Entry>, lo: nat, len: nat, all: seq<Entry>, i: nat, workers: nat)
    requires i < |all| && workers > 0 && lo + len < |bucketed|
    requires FilledAt(bucketed, lo, len, WorkerOf(all[i].sess, workers), workers, all[..i])
    ensures FilledAt(bucketed[lo + len := all[i]], lo, len + 1, WorkerOf(all[i].sess, workers), workers, all[..i + 1])
  {
    ShareGrows(all, i, WorkerOf(all[i].sess, workers), workers);
    assert bucketed[lo + len := all[i]][lo..lo + len + 1] == bucketed[lo..lo + len] + [all[i]];
  }

  /** The same for any other worker, from what holds of all of them. */
  lemma FillRest(bucketed: seq<Entry>, start: seq<nat>, fill: seq<nat>, counts: seq<nat>, all: seq<Entry>, i: nat,
                 w: nat, v: nat)
    requires i < |all| <= |bucketed| && Adjacent(start, counts, |all|) && Filled(bucketed, start, fill, all[..i])
    requires forall u :: 0 <= u < |start| ==> counts[u] == |Share(all, u, |start|)|
    requires v < |start| && v != w < |start| && w == WorkerOf(all[i].sess, |start|)
    requires fill[w] < counts[w] && start[w] + fill[w] < |all|
    ensures FilledAt(bucketed[start[w] + fill[w] := all[i]], start[v], fill[v], v, |start|, all[..i + 1])
  {
    assert FilledAt(bucketed, start[v], fill[v], v, |start|, all[..i]);
    FilterPrefix(ForWorker(v, |start|), all, i);
    FillOther(bucketed, start, fill, counts, all, i, w, v);
  }

  /** There is room in worker w's range for its next entry. */
  lemma RoomFor(bucketed: seq<Entry>, start: seq<nat>, fill: seq<nat>, counts: seq<nat>, all: seq<Entry>, i: nat,
                w: nat)
    requires i < |all| <= |bucketed| && Adjacent(start, counts, |all|) && Filled(bucketed, start, fill, all[..i])
    requires forall u :: 0 <= u < |start| ==> counts[u] == |Share(all, u, |start|)|
    requires w == WorkerOf(all[i].sess, |start|)
    ensures fill[w] < counts[w] && start[w] + fill[w] < |all|
  {
    RangeFits(start, counts, |all|, w);
    assert FilledAt(bucketed, start[w], fill[w], w, |start|, all[..i]);
    ShareGrows(all, i, w, |start|);
  }

  lemma FillOne(bucketed: seq<Entry>, start: seq<nat>, fill: seq<nat>, counts: seq<nat>, all: seq<Entry>, i: nat,
                w: nat)
    requires i < |all| <= |bucketed| && Adjacent(start, counts, |all|)
    requires Filled(bucketed, start, fill, all[..i])
    requires forall v :: 0 <= v < |start| ==> counts[v] == |Share(all, v, |start|)|
    requires w == WorkerOf(all[i].sess, |start|)
    ensures start[w] + fill[w] < |all|
    ensures Filled(bucketed[start[w] + fill[w] := all[i]], start, fill[w := fill[w] + 1], all[..i + 1])
  {
    RoomFor(bucketed, start, fill, counts, all, i, w);
    FillOwn(bucketed, start[w], fill[w], all, i, |start|);
    forall v: nat | v < |start| && v != w
      ensures FilledAt(bucketed[start[w] + fill[w] := all[i]], start[v], fill[v], v, |start|, all[..i + 1])
    {
      FillRest(bucketed, start, fill, counts, all, i, w, v);
    }
  }

  lemma NothingFilled(bucketed: seq<Entry>, start: seq<nat>, counts: seq<nat>, n: nat)
    requires Adjacent(start, counts, n) && n <= |bucketed|
    ensures Filled(bucketed, start, seq(|start|, _ => 0), [])
  {
    forall w: nat | w < |start| ensures start[w] <= n { RangeFits(start, counts, n, w); }
  }

  /** The start of every worker's range: the sum of the counts before it. */
  method BucketStarts(counts: seq<nat>) returns (start: seq<nat>)
    requires |counts| > 0
    ensures Adjacent(start, counts, SumTo(counts, |counts|))
  {
    start := [];
    var running: nat := 0;
    for w := 0 to |counts|
      invariant |start| == w && running == SumTo(counts, w)
      invariant forall v :: 0 <= v < w ==> start[v] == SumTo(counts, v)
    {
      start := start + [running];
      running := running + counts[w];
    }
  }

  /** The queues a bucketed batch stands for: worker w owns counts[w] entries from start[w]. */
  function Ranges(bucketed: seq<Entry>, start: seq<nat>, counts: seq<nat>): (queues: seq<seq<Entry>>)
    requires |start| == |counts| && forall w :: 0 <= w < |start| ==> start[w] + counts[w] <= |bucketed|
    ensures |queues| == |start|
  {
    seq(|start|, w requires 0 <= w < |start| => bucketed[start[w]..start[w] + counts[w]])
  }

  /** All workers' shares of s. */
  function Shares(s: seq<Entry>, workers: nat): (queues: seq<seq<Entry>>)
    requires workers > 0
    ensures |queues| == workers
  {
    seq(workers, w requires 0 <= w < workers => Share(s, w, workers))
  }

  lemma FilledRanges(bucketed: seq<Entry>, start: seq<nat>, counts: seq<nat>, all: seq<Entry>)
    requires Filled(bucketed, start, counts, all)
    ensures forall w :: 0 <= w < |start| ==> start[w] + counts[w] <= |bucketed|
    ensures Ranges(bucketed, start, counts) == Shares(all, |start|)
  {
  }

  /** Puts every entry at the next free place of its worker's range. */
  method PlaceEntries(shuffled: array<Entry>, n: nat, bucketed: array<Entry>, start: seq<nat>, counts: seq<nat>)
    requires n <= shuffled.Length && n <= bucketed.Length && shuffled != bucketed && Adjacent(start, counts, n)
    requires forall w :: 0 <= w < |start| ==> counts[w] == |Share(shuffled[..n], w, |start|)|
    modifies bucketed
    ensures Filled(bucketed[..], start, counts, shuffled[..n])
  {
    ghost var all := shuffled[..n];
    var fill: seq<nat> := seq(|start|, _ => 0);
    assert all[..0] == [];
    NothingFilled(bucketed[..], start, counts, n);
    for i := 0 to n
      invariant |fill| == |start| && Filled(bucketed[..], start, fill, all[..i])
    {
      var w := WorkerOf(shuffled[i].sess, |start|);
      FillOne(bucketed[..], start, fill, counts, all, i, w);
      ghost var before := bucketed[..];
      bucketed[start[w] + fill[w]] := shuffled[i];
      assert bucketed[..] == before[start[w] + fill[w] := all[i]];
      fill := fill[w := fill[w] + 1];
    }
    assert all[..n] == all;
    assert forall w :: 0 <= w < |start| ==> FilledAt(bucketed[..], start[w], fill[w], w, |start|, all);
    assert fill == counts;
  }

  /** The stable counting sort that gives every worker one contiguous range of `bucketed`. */
  method BucketByWorker(shuffled: array<Entry>, n: nat, workers: nat, bucketed: array<Entry>)
    returns (start: seq<nat>, counts: seq<nat>)
    requires n <= shuffled.Length && n <= bucketed.Length && workers > 0 && shuffled != bucketed
    modifies bucketed
    ensures |start| == |counts| == workers && Adjacent(start, counts, n)
    ensures forall w :: 0 <= w < workers ==> start[w] + counts[w] <= bucketed.Length
    ensures Ranges(bucketed[..], start, counts) == Shares(shuffled[..n], workers)
  {
    counts := CountBuckets(shuffled, n, workers);
    start := BucketStarts(counts);
    PlaceEntries(shuffled, n, bucketed, start, counts);
    FilledRanges(bucketed[..], start, counts, shuffled[..n]);
  }

  // ---------------------------------------------------------------- one flush

  /** What the workers are handed: per worker a queue, holding its sessions' packets in batch order. */
  ghost predicate IsPlan(batch: seq<Entry>, queues: seq<seq<Entry>>) {
    && 0 < |queues| == (if |batch| < POOL_MIX_MAX_WORKERS then |batch| else POOL_MIX_MAX_WORKERS)
    && forall s: int32, w :: 0 <= w < |queues| ==>
      Filter(OfSession(s), queues[w]) == if w == WorkerOf(s, |queues|) then Filter(OfSession(s), batch) else []
  }

  lemma SharesArePlan(batch: seq<Entry>, shuffled: seq<Entry>, workers: nat)
    requires Restratified(batch, shuffled)
    requires 0 < workers == if |batch| < POOL_MIX_MAX_WORKERS then |batch| else POOL_MIX_MAX_WORKERS
    ensures IsPlan(batch, Shares(shuffled, workers))
  {
    forall s: int32, w | 0 <= w < workers
      ensures Filter(OfSession(s), Share(shuffled, w, workers))
           == if w == WorkerOf(s, workers) then Filter(OfSession(s), batch) else []
    {
      if w == WorkerOf(s, workers) {
        FilterFilter(OfSession(s), ForWorker(w, workers), shuffled);
      } else {
        FilterDisjoint(OfSession(s), ForWorker(w, workers), shuffled);
      }
    }
  }

  /** The flush thread's work on a non-empty batch: shuffle it, then split it over the workers. */
  method PlanRelease(batch: array<Entry>, n: nat, draws: nat -> Draw)
    returns (bucketed: array<Entry>, start: seq<nat>, counts: seq<nat>)
    requires 0 < n <= batch.Length
    ensures |start| == |counts| && forall w :: 0 <= w < |start| ==> start[w] + counts[w] <= bucketed.Length
    ensures IsPlan(batch[..n], Ranges(bucketed[..], start, counts))
    ensures Ranges(bucketed[..], start, counts) == Shares(Shuffled(batch[..n], draws), |start|)
  {
    var workers := if n < POOL_MIX_MAX_WORKERS then n else POOL_MIX_MAX_WORKERS;
    var shuffled := new Entry[n](_ => Entry([], 0, 0));
    bucketed := new Entry[n](_ => Entry([], 0, 0));
    PoolMixShuffleStratified(batch, n, draws, shuffled);
    start, counts := BucketByWorker(shuffled, n, workers, bucketed);
    SharesArePlan(batch[..n], shuffled[..n], workers);
  }

  /** A packet a worker handled: sent on, or given up after its connects failed. */
  datatype Attempt = Attempt(entry: Entry, sent: bool)

  /** One of the first `attempts` connects for entry i succeeds. */
  predicate AnyConnect(connects: (nat, nat) -> bool, i: nat, attempts: nat) {
    attempts > 0 && (AnyConnect(connects, i, attempts - 1) || connects(i, attempts - 1))
  }

  lemma {:induction false} AnyConnectGrows(connects: (nat, nat) -> bool, i: nat, few: nat, many: nat)
    requires few <= many
    ensures AnyConnect(connects, i, few) ==> AnyConnect(connects, i, many)
  {
    if few < many { AnyConnectGrows(connects, i, few, many - 1); }
  }

  lemma OneOfThree(connects: (nat, nat) -> bool, i: nat)
    ensures AnyConnect(connects, i, 3) <==> connects(i, 0) || connects(i, 1) || connects(i, 2)
  {
    assert AnyConnect(connects, i, 2) <==> AnyConnect(connects, i, 1) || connects(i, 1);
    assert AnyConnect(connects, i, 1) <==> AnyConnect(connects, i, 0) || connects(i, 0);
  }

  /** One worker: each entry of its range in turn, with a bounded number of connects. */
  method PoolMixWorker(batch: array<Entry>, start: nat, end: nat, connects: (nat, nat) -> bool)
    returns (tried: seq<Attempt>)
    requires start <= end <= batch.Length
    ensures |tried| == end - start
    ensures forall k :: 0 <= k < |tried| ==>
      tried[k] == Attempt(batch[start + k], AnyConnect(connects, start + k, POOL_MIX_CONNECT_RETRIES))
    ensures forall k :: 0 <= k < |tried| ==>
      (tried[k].sent <==> connects(start + k, 0) || connects(start + k, 1) || connects(start + k, 2))
  {
    tried := [];
    for i := start to end
      invariant |tried| == i - start
      invariant forall k :: 0 <= k < |tried| ==>
        tried[k] == Attempt(batch[start + k], AnyConnect(connects, start + k, POOL_MIX_CONNECT_RETRIES))
      invariant forall k :: 0 <= k < |tried| ==>
        (tried[k].sent <==> connects(start + k, 0) || connects(start + k, 1) || connects(start + k, 2))
    {
      var connected := false;
      var attempt: nat := 0;
      while attempt < POOL_MIX_CONNECT_RETRIES && !connected
        invariant attempt <= POOL_MIX_CONNECT_RETRIES
        invariant connected == AnyConnect(connects, i, attempt)
        decreases POOL_MIX_CONNECT_RETRIES - attempt
      {
        connected := connects(i, attempt);
        attempt := attempt + 1;
      }
      AnyConnectGrows(connects, i, attempt, POOL_MIX_CONNECT_RETRIES);
      OneOfThree(connects, i);
      tried := tried + [Attempt(batch[i], connected)];
    }
  }

  /** The pool itself: a fixed array filled from the front. */
  class Mixer {
    const pool: array<Entry>
    var count: nat

    ghost predicate Valid()
      reads this
    {
      pool.Length == POOL_MIX_MAX_BATCH && count <= pool.Length
    }

    ghost function Contents(): seq<Entry>
      requires Valid()
      reads this, pool
    {
      pool[..count]
    }

    constructor ()
      ensures Valid() && Contents() == [] && fresh(pool)
    {
      pool := new Entry[POOL_MIX_MAX_BATCH](_ => Entry([], 0, 0));
      count := 0;
    }

    /** Queues a packet in arrival order, or refuses it when the pool is full. */
    method PoolMixEnqueue(e: Entry) returns (rc: int)
      requires Valid()
      modifies this`count, pool
      ensures Valid()
      ensures rc == if |old(Contents())| < POOL_MIX_MAX_BATCH then 0 else -1
      ensures Contents() == old(Contents()) + if rc == 0 then [e] else []
    {
      if count < POOL_MIX_MAX_BATCH {
        pool[count] := e;
        count := count + 1;
        return 0;
      }
      return -1;
    }

    /** The flush thread's snapshot: the whole pool moves to `batch` and the pool is empty again. */
    method TakeBatch(batch: array<Entry>) returns (n: nat)
      requires Valid() && batch != pool && batch.Length == POOL_MIX_MAX_BATCH
      modifies this`count, batch
      ensures Valid() && Contents() == []
      ensures n <= batch.Length && batch[..n] == old(Contents())
    {
      n := count;
      forall i | 0 <= i < n {
        batch[i] := pool[i];
      }
      count := 0;
    }
  }

  // ---------------------------------------------------------------- whole runs

  /**
   A mix node's pool over time. `accepted` and `tried` are histories: every packet the pool took,
   and every packet a worker has handled, each in the order it happened.
   */
  datatype State = State(pool: seq<Entry>, queues: seq<seq<Entry>>, accepted: seq<Entry>, tried: seq<Attempt>)

  /** One atomic step: a connection enqueues, the flush thread hands out a plan, a worker handles its next packet. */
  datatype Step = Arrive(e: Entry) | Flush(plan: seq<seq<Entry>>) | Handle(w: nat, sent: bool)

  const EMPTY_STATE := State([], [], [], [])

  ghost predicate Enabled(st: State, step: Step) {
    match step
    case Arrive(_) => true
    case Flush(plan) =>
      (forall w :: 0 <= w < |st.queues| ==> st.queues[w] == []) && |st.pool| > 0 && IsPlan(st.pool, plan)
    case Handle(w, _) => w < |st.queues| && |st.queues[w]| > 0
  }

  /** Steps that cannot happen leave the state as it is. The flush waits until every worker is done. */
  ghost function Apply(st: State, step: Step): State {
    if !Enabled(st, step) then st else
    match step
    case Arrive(e) =>
      if |st.pool| < POOL_MIX_MAX_BATCH then st.(pool := st.pool + [e], accepted := st.accepted + [e]) else st
    case Flush(plan) => st.(pool := [], queues := plan)
    case Handle(w, sent) =>
      st.(queues := st.queues[w := st.queues[w][1..]], tried := st.tried + [Attempt(st.queues[w][0], sent)])
  }

  ghost function Run(steps: seq<Step>): State {
    if |steps| == 0 then EMPTY_STATE else Apply(Run(steps[..|steps| - 1]), steps[|steps| - 1])
  }

  function EntryOf(a: Attempt): Entry { a.entry }

  function Entries(tried: seq<Attempt>): seq<Entry> { Map(EntryOf, tried) }

  /** The packets that really left the node, in the order they left. */
  function Sent(tried: seq<Attempt>): seq<Entry> {
    if |tried| == 0 then []
    else Sent(tried[..|tried| - 1]) + if tried[|tried| - 1].sent then [tried[|tried| - 1].entry] else []
  }

  /** The packets of session s that wait at a worker. */
  function AtWorker(queues: seq<seq<Entry>>, s: int32): seq<Entry> {
    if |queues| == 0 then [] else Filter(OfSession(s), queues[WorkerOf(s, |queues|)])
  }

  /** Handled, then waiting at the worker, then waiting in the pool: together the accepted packets, in order. */
  ghost predicate Ordered(st: State) {
    && (forall s: int32 ::
      Filter(OfSession(s), Entries(st.tried)) + AtWorker(st.queues, s) + Filter(OfSession(s), st.pool)
      == Filter(OfSession(s), st.accepted))
    && (forall s: int32, w :: 0 <= w < |st.queues| && w != WorkerOf(s, |st.queues|) ==>
      Filter(OfSession(s), st.queues[w]) == [])
  }

  lemma FilterHead(s: int32, q: seq<Entry>)
    requires |q| > 0
    ensures Filter(OfSession(s), q) == (if q[0].sess == s then [q[0]] else []) + Filter(OfSession(s), q[1..])
  {
    assert q == [q[0]] + q[1..];
    FilterAppend(OfSession(s), [q[0]], q[1..]);
    FilterSnoc(OfSession(s), [], q[0]);
    assert [] + [q[0]] == [q[0]];
  }

  /** Handling moves a packet from the front of what waits to the end of what is handled. */
  lemma HandleMovesHead(handled: seq<Entry>, q: seq<Entry>, s: int32)
    requires |q| > 0
    ensures Filter(OfSession(s), handled + [q[0]]) + Filter(OfSession(s), q[1..])
         == Filter(OfSession(s), handled) + Filter(OfSession(s), q)
  {
    FilterSnoc(OfSession(s), handled, q[0]);
    FilterHead(s, q);
    Regroup(Filter(OfSession(s), handled), if q[0].sess == s then [q[0]] else [], Filter(OfSession(s), q[1..]));
  }

  /** Sessions of other workers see nothing of it. */
  lemma HandleLeavesOthers(handled: seq<Entry>, q: seq<Entry>, s: int32)
    requires |q| > 0 && Filter(OfSession(s), q) == []
    ensures Filter(OfSession(s), handled + [q[0]]) == Filter(OfSession(s), handled)
    ensures Filter(OfSession(s), q[1..]) == []
  {
    FilterSnoc(OfSession(s), handled, q[0]);
    FilterHead(s, q);
  }

  lemma HandleKeepsSession(st: State, w: nat, sent: bool, s: int32)
    requires Ordered(st) && Enabled(st, Handle(w, sent))
    ensures var st' := Apply(st, Handle(w, sent));
      && Filter(OfSession(s), Entries(st'.tried)) + AtWorker(st'.queues, s)
           == Filter(OfSession(s), Entries(st.tried)) + AtWorker(st.queues, s)
      && forall v :: 0 <= v < |st.queues| && v != WorkerOf(s, |st.queues|) ==> Filter(OfSession(s), st'.queues[v]) == []
  {
    var st' := Apply(st, Handle(w, sent));
    MapSnoc(EntryOf, st.tried, Attempt(st.queues[w][0], sent));
    if w == WorkerOf(s, |st.queues|) {
      HandleMovesHead(Entries(st.tried), st.queues[w], s);
    } else {
      HandleLeavesOthers(Entries(st.tried), st.queues[w], s);
    }
  }

  lemma HandleKeepsOrder(st: State, w: nat, sent: bool)
    requires Ordered(st) && Enabled(st, Handle(w, sent))
    ensures Ordered(Apply(st, Handle(w, sent)))
  {
    forall s: int32 { HandleKeepsSession(st, w, sent, s); }
  }

  lemma ArriveKeepsOrder(st: State, e: Entry)
    requires Ordered(st)
    ensures Ordered(Apply(st, Arrive(e)))
  {
    forall s: int32
      ensures Filter(OfSession(s), st.pool + [e]) == Filter(OfSession(s), st.pool) + if e.sess == s then [e] else []
      ensures Filter(OfSession(s), st.accepted + [e]) == Filter(OfSession(s), st.accepted) + if e.sess
           == s then [e] else []
    {
      FilterSnoc(OfSession(s), st.pool, e);
      FilterSnoc(OfSession(s), st.accepted, e);
    }
  }

  lemma PlanMovesPool(pool: seq<Entry>, queues: seq<seq<Entry>>, plan: seq<seq<Entry>>, s: int32)
    requires forall w :: 0 <= w < |queues| ==> queues[w] == []
    requires IsPlan(pool, plan)
    ensures AtWorker(queues, s) == [] && AtWorker(plan, s) == Filter(OfSession(s), pool)
  {
    if |queues| > 0 { assert queues[WorkerOf(s, |queues|)] == []; }
    assert AtWorker(plan, s) == Filter(OfSession(s), plan[WorkerOf(s, |plan|)]);
  }

  lemma EmptyParts(a: seq<Entry>, b: seq<Entry>)
    ensures a + [] + b == a + b + []
  {
  }

  lemma FlushKeepsOrder(st: State, plan: seq<seq<Entry>>)
    requires Ordered(st) && Enabled(st, Flush(plan))
    ensures Ordered(Apply(st, Flush(plan)))
  {
    forall s: int32
      ensures Filter(OfSession(s), Entries(st.tried)) + AtWorker(plan, s) + Filter(OfSession(s), [])
           == Filter(OfSession(s), st.accepted)
    {
      PlanMovesPool(st.pool, st.queues, plan, s);
      EmptyParts(Filter(OfSession(s), Entries(st.tried)), Filter(OfSession(s), st.pool));
    }
  }

  lemma {:induction false} RunIsOrdered(steps: seq<Step>)
    ensures Ordered(Run(steps))
  {
    if |steps| > 0 {
      var st, step := Run(steps[..|steps| - 1]), steps[|steps| - 1];
      RunIsOrdered(steps[..|steps| - 1]);
      if Enabled(st, step) {
        match step
        case Arrive(e) => ArriveKeepsOrder(st, e);
        case Flush(plan) => FlushKeepsOrder(st, plan);
        case Handle(w, sent) => HandleKeepsOrder(st, w, sent);
      }
    }
  }

  lemma OneMoreAttempt(s: int32, tried: seq<Attempt>, a: Attempt)
    ensures Filter(OfSession(s), Entries(tried + [a]))
         == Filter(OfSession(s), Entries(tried)) + if a.entry.sess == s then [a.entry] else []
    ensures Filter(OfSession(s), Sent(tried + [a]))
         == Filter(OfSession(s), Sent(tried)) + if a.sent && a.entry.sess == s then [a.entry] else []
  {
    assert (tried + [a])[..|tried|] == tried;
    MapSnoc(EntryOf, tried, a);
    FilterSnoc(OfSession(s), Entries(tried), a.entry);
    FilterSnoc(OfSession(s), Sent(tried), a.entry);
    if !a.sent { assert Sent(tried + [a]) == Sent(tried); }
  }

  lemma {:induction false} SentIsSubsequence(s: int32, tried: seq<Attempt>)
    ensures IsSubsequence(Filter(OfSession(s), Sent(tried)), Filter(OfSession(s), Entries(tried)))
  {
    if |tried| > 0 {
      var init, last := tried[..|tried| - 1], tried[|tried| - 1];
      var sub, all := Filter(OfSession(s), Sent(init)), Filter(OfSession(s), Entries(init));
      SentIsSubsequence(s, init);
      assert tried == init + [last];
      OneMoreAttempt(s, init, last);
      if last.entry.sess == s {
        SubsequenceSnoc(sub, all, last.entry);
        assert Filter(OfSession(s), Entries(tried)) == all + [last.entry];
        assert Filter(OfSession(s), Sent(tried)) == if last.sent then sub + [last.entry] else sub;
      } else {
        assert Filter(OfSession(s), Entries(tried)) == all && Filter(OfSession(s), Sent(tried)) == sub;
      }
    }
  }

  lemma {:induction false} AllSent(tried: seq<Attempt>)
    requires forall i :: 0 <= i < |tried| ==> tried[i].sent
    ensures Sent(tried) == Entries(tried)
  {
    if |tried| > 0 {
      AllSent(tried[..|tried| - 1]);
      MapSnoc(EntryOf, tried[..|tried| - 1], tried[|tried| - 1]);
      assert tried == tried[..|tried| - 1] + [tried[|tried| - 1]];
    }
  }

  lemma ExtendTwice(sub: seq<Entry>, a: seq<Entry>, b: seq<Entry>, c: seq<Entry>)
    requires IsSubsequence(sub, a)
    ensures IsSubsequence(sub, a + b + c)
  {
    SubsequenceExtend(sub, a, b);
    SubsequenceExtend(sub, a + b, c);
  }

  /** Over every run, what a session has sent is a subsequence of what the pool accepted for it. */
  lemma SessionOrderPreserved(steps: seq<Step>, s: int32)
    ensures IsSubsequence(Filter(OfSession(s), Sent(Run(steps).tried)), Filter(OfSession(s), Run(steps).accepted))
  {
    var st := Run(steps);
    RunIsOrdered(steps);
    SentIsSubsequence(s, st.tried);
    ExtendTwice(Filter(OfSession(s), Sent(st.tried)), Filter(OfSession(s), Entries(st.tried)),
                AtWorker(st.queues, s), Filter(OfSession(s), st.pool));
  }

  /** As long as no send has failed, what a session has sent is exactly the beginning of what was accepted for it. */
  lemma SessionPrefixPreserved(steps: seq<Step>, s: int32)
    requires forall i :: 0 <= i < |Run(steps).tried| ==> Run(steps).tried[i].sent
    ensures Filter(OfSession(s), Sent(Run(steps).tried)) <= Filter(OfSession(s), Run(steps).accepted)
  {
    RunIsOrdered(steps);
    AllSent(Run(steps).tried);
  }

  /** No packet is lost or duplicated: handled and waiting packets are the accepted ones, each as often. */
  lemma NothingLostOrDuplicated(steps: seq<Step>, e: Entry)
    ensures var st := Run(steps);
      multiset(Entries(st.tried))[e] + multiset(AtWorker(st.queues, e.sess))[e] + multiset(st.pool)[e]
      == multiset(st.accepted)[e]
    ensures var st := Run(steps);
      (forall i :: 0 <= i < |st.tried| ==> st.tried[i].sent) && st.pool == [] && AtWorker(st.queues, e.sess) == [] ==>
        multiset(Sent(st.tried))[e] == multiset(st.accepted)[e]
  {
    var st := Run(steps);
    RunIsOrdered(steps);
    var keep := OfSession(e.sess);
    FilterCount(keep, Entries(st.tried), e);
    FilterCount(keep, st.pool, e);
    FilterCount(keep, st.accepted, e);
    if forall i :: 0 <= i < |st.tried| ==> st.tried[i].sent { AllSent(st.tried); }
  }
}

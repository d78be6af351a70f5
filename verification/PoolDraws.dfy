/**
 What the draws of the shuffle decide: every order of a batch that keeps each list in order comes out for
 some stream of draws, and nothing else does; the first packet out is the first one of the list that the
 first draw points at.
 */
module PoolDraws {
  import opened Common
  import opened Sequences
  import opened PoolMix

  /** The order has each list's packets, in the order of the batch. */
  ghost predicate KeepsLists(batch: seq<Entry>, order: seq<Entry>) {
    forall l: nat :: l < MAX_SESSIONS ==> Filter(InList(l), order) == Filter(InList(l), batch)
  }

  // ---------------------------------------------------------------- what is still to come

  /** Every list's packets in s. */
  function ByList(s: seq<Entry>): (r: seq<seq<Entry>>)
    ensures |r| == MAX_SESSIONS
  {
    seq(MAX_SESSIONS, l requires 0 <= l < MAX_SESSIONS => Filter(InList(l), s))
  }

  /** The queues are the lists with packets still to come, in the order given by `ids`. */
  ghost predicate Awaits(queues: seq<seq<Entry>>, ids: seq<nat>, want: seq<seq<Entry>>) {
    && |want| == MAX_SESSIONS && |ids| == |queues| && Distinct(ids)
    && (forall i :: 0 <= i < |ids| ==> ids[i] < MAX_SESSIONS && queues[i] == want[ids[i]] && |queues[i]| > 0)
    && (forall l :: 0 <= l < MAX_SESSIONS && l !in ids ==> want[l] == [])
  }

  lemma StartAwaits(batch: seq<Entry>)
    ensures Awaits(QueuesOf(batch), FirstSeen(Lists(batch)), ByList(batch))
  {
    var ids := FirstSeen(Lists(batch));
    SeenOnce(Lists(batch));
    forall l: nat | l < MAX_SESSIONS && l !in ids ensures Filter(InList(l), batch) == [] {
      SeenIffPresent(Lists(batch), l);
      forall j | 0 <= j < |batch| ensures !InList(l)(batch[j]) { assert Lists(batch)[j] in Lists(batch); }
      FilterNone(InList(l), batch);
    }
    forall i | 0 <= i < |ids| ensures ids[i] < MAX_SESSIONS { SeenIffPresent(Lists(batch), ids[i]); }
  }

  lemma {:induction false} SeenOnce(lists: seq<nat>)
    ensures Distinct(FirstSeen(lists))
  {
    if |lists| > 0 { SeenOnce(lists[..|lists| - 1]); }
  }

  /** Taking a packet off queue p. */
  lemma {:induction false} RestAwaits(queues: seq<seq<Entry>>, ids: seq<nat>, want: seq<seq<Entry>>, p: nat)
    returns (ids': seq<nat>)
    requires Awaits(queues, ids, want) && p < |queues|
    ensures Awaits(Rest(queues, p), ids', want[ids[p] := want[ids[p]][1..]])
  {
    var n := |ids| - 1;
    if |queues[p]| == 1 {
      ids' := ids[p := ids[n]][..n];
      forall i | 0 <= i < n ensures ids'[i] == ids[if i == p then n else i] {}
      forall i | 0 <= i <= n && i != p ensures ids[i] in ids' { assert ids'[if i == n then p else i] == ids[i]; }
    } else {
      ids' := ids;
    }
  }

  // ---------------------------------------------------------------- every order

  /** A draw that points at place p of n. */
  function DrawFor(p: nat, n: nat): (draw: Draw)
    requires p < n <= MAX_SESSIONS
    ensures draw * n / 0x1_0000_0000 == p
  {
    DrawFits(p, n, (p * 0x1_0000_0000 + n - 1) / n);
    (p * 0x1_0000_0000 + n - 1) / n
  }

  lemma DrawFits(p: nat, n: nat, draw: nat)
    requires p < n <= MAX_SESSIONS && draw == (p * 0x1_0000_0000 + n - 1) / n
    ensures draw < 0x1_0000_0000 && draw * n / 0x1_0000_0000 == p
  {
    RoundedUp(p * 0x1_0000_0000, n);
    var rest := draw * n - p * 0x1_0000_0000;
    Scaled(rest, p);
    assert draw * n == p * 0x1_0000_0000 + rest;
    SmallerFactor(draw, 0x1_0000_0000, n);
  }

  lemma SmallerFactor(a: nat, b: nat, n: nat)
    requires a * n < b * n
    ensures a < b
  {
  }

  lemma RoundedUp(a: nat, n: nat)
    requires n > 0
    ensures a <= (a + n - 1) / n * n < a + n
  {
  }

  lemma Scaled(rest: nat, p: nat)
    requires rest < 0x1_0000_0000
    ensures (p * 0x1_0000_0000 + rest) / 0x1_0000_0000 == p
  {
  }

  /** Later draws do not matter. */
  lemma {:induction false} OnlyEarlierDraws(queues: seq<seq<Entry>>, draws: nat -> Draw, others: nat -> Draw, n: nat)
    requires NoneEmpty(queues) && forall i :: 0 <= i < n ==> draws(i) == others(i)
    ensures AfterTurns(queues, draws, n) == AfterTurns(queues, others, n)
  {
    if n > 0 { OnlyEarlierDraws(queues, draws, others, n - 1); }
  }

  lemma FilterFirst(l: nat, s: seq<Entry>)
    requires |s| > 0
    ensures Filter(InList(l), s) == (if ListOf(s[0].sess) == l then [s[0]] else []) + Filter(InList(l), s[1..])
  {
    assert s == [s[0]] + s[1..] && [] + [s[0]] == [s[0]];
    FilterAppend(InList(l), [s[0]], s[1..]);
    FilterSnoc(InList(l), [], s[0]);
  }

  lemma ByListNext(s: seq<Entry>)
    requires |s| > 0
    ensures var l := ListOf(s[0].sess);
      ByList(s)[l] == [s[0]] + ByList(s[1..])[l] && ByList(s[1..]) == ByList(s)[l := ByList(s)[l][1..]]
  {
    var l := ListOf(s[0].sess);
    FilterFirst(l, s);
    forall k: nat | k < MAX_SESSIONS ensures ByList(s[1..])[k] == ByList(s)[l := ByList(s)[l][1..]][k] {
      FilterFirst(k, s);
    }
  }

  /** One turn more, by a draw that points at place p. */
  lemma {:induction false} OneTurn(queues: seq<seq<Entry>>, draws: nat -> Draw, n: nat, p: nat)
    requires NoneEmpty(queues) && p < |AfterTurns(queues, draws, n).1|
    requires p == draws(n) * |AfterTurns(queues, draws, n).1| / 0x1_0000_0000
    ensures var (out, left) := AfterTurns(queues, draws, n);
      AfterTurns(queues, draws, n + 1) == (out + [left[p][0]], Rest(left, p))
  {
  }

  lemma {:induction false} PlaceOf(queues: seq<seq<Entry>>, ids: seq<nat>, todo: seq<Entry>) returns (p: nat)
    requires Awaits(queues, ids, ByList(todo)) && |todo| > 0
    ensures p < |queues| <= MAX_SESSIONS && ids[p] == ListOf(todo[0].sess) && queues[p][0] == todo[0]
  {
    ByListNext(todo);
    p :| 0 <= p < |ids| && ids[p] == ListOf(todo[0].sess);
    DistinctBounded(ids, MAX_SESSIONS);
  }

  /** The packets of this order before n are out, those from n on are queued. */
  ghost predicate Reached(batch: seq<Entry>, order: seq<Entry>, draws: nat -> Draw, n: nat, ids: seq<nat>)
    requires n <= |order|
  {
    match AfterTurns(QueuesOf(batch), draws, n)
    case (out, left) => out == order[..n] && Awaits(left, ids, ByList(order[n..]))
  }

  lemma {:induction false} NextReached(batch: seq<Entry>, order: seq<Entry>, before: nat -> Draw, n: nat, ids: seq<nat>)
    returns (draws: nat -> Draw, ids': seq<nat>)
    requires 0 < n <= |order| && Reached(batch, order, before, n - 1, ids)
    ensures Reached(batch, order, draws, n, ids')
  {
    var queues, todo := QueuesOf(batch), order[n - 1..];
    var left := AfterTurns(queues, before, n - 1).1;
    var p := PlaceOf(left, ids, todo);
    var draw := DrawFor(p, |left|);
    draws := i => if i == n - 1 then draw else before(i);
    OnlyEarlierDraws(queues, draws, before, n - 1);
    OneTurn(queues, draws, n - 1, p);
    ByListNext(todo);
    ids' := RestAwaits(left, ids, ByList(todo), p);
    assert todo[1..] == order[n..] && order[..n - 1] + [todo[0]] == order[..n];
  }

  lemma {:induction false} NothingOut(batch: seq<Entry>, order: seq<Entry>, draws: nat -> Draw)
    requires KeepsLists(batch, order)
    ensures Reached(batch, order, draws, 0, FirstSeen(Lists(batch)))
  {
    StartAwaits(batch);
    assert order[0..] == order && ByList(order) == ByList(batch);
  }

  /** Draws that release the first n packets of this order. */
  lemma {:induction false} DrawsFor(batch: seq<Entry>, order: seq<Entry>, n: nat)
    returns (draws: nat -> Draw, ids: seq<nat>)
    requires KeepsLists(batch, order) && n <= |order|
    ensures Reached(batch, order, draws, n, ids)
  {
    if n == 0 {
      draws, ids := _ => 0, FirstSeen(Lists(batch));
      NothingOut(batch, order, draws);
    } else {
      var before, ids0 := DrawsFor(batch, order, n - 1);
      draws, ids := NextReached(batch, order, before, n, ids0);
    }
  }

  // ---------------------------------------------------------------- no other order

  /** Of each list, what is out and what is still to come make up the list. */
  ghost predicate Splits(batch: seq<Entry>, out: seq<Entry>, want: seq<seq<Entry>>) {
    && |want| == MAX_SESSIONS
    && forall l: nat :: l < MAX_SESSIONS ==> Filter(InList(l), out) + want[l] == Filter(InList(l), batch)
  }

  lemma {:induction false} FilterAll(l: nat, s: seq<Entry>, i: nat)
    requires i < |Filter(InList(l), s)|
    ensures ListOf(Filter(InList(l), s)[i].sess) == l
  {
    if i < |Filter(InList(l), s[..|s| - 1])| { FilterAll(l, s[..|s| - 1], i); }
  }

  lemma {:induction false} NextTaken(batch: seq<Entry>, out: seq<Entry>, q: seq<Entry>, l: nat)
    requires |q| > 0 && Filter(InList(l), out) + q == Filter(InList(l), batch)
    ensures ListOf(q[0].sess) == l && Filter(InList(l), out + [q[0]]) + q[1..] == Filter(InList(l), batch)
  {
    assert Filter(InList(l), batch)[|Filter(InList(l), out)|] == q[0];
    FilterAll(l, batch, |Filter(InList(l), out)|);
    FilterSnoc(InList(l), out, q[0]);
    MoveOne(Filter(InList(l), out), q);
  }

  lemma {:induction false} TakenSplits(batch: seq<Entry>, out: seq<Entry>, want: seq<seq<Entry>>, l: nat)
    requires Splits(batch, out, want) && l < MAX_SESSIONS && |want[l]| > 0
    ensures Splits(batch, out + [want[l][0]], want[l := want[l][1..]])
  {
    NextTaken(batch, out, want[l], l);
    forall k: nat | k < MAX_SESSIONS && k != l
      ensures Filter(InList(k), out + [want[l][0]]) == Filter(InList(k), out)
    {
      FilterSnoc(InList(k), out, want[l][0]);
    }
  }

  /** After n turns the lists are split so. */
  ghost predicate Parted(batch: seq<Entry>, draws: nat -> Draw, n: nat, ids: seq<nat>, want: seq<seq<Entry>>) {
    match AfterTurns(QueuesOf(batch), draws, n)
    case (out, left) => Awaits(left, ids, want) && Splits(batch, out, want) && (|left| > 0 ==> |out| == n)
  }

  lemma {:induction false} NextParted(batch: seq<Entry>, draws: nat -> Draw, n: nat, ids: seq<nat>,
                                      want: seq<seq<Entry>>)
    returns (ids': seq<nat>, want': seq<seq<Entry>>)
    requires Parted(batch, draws, n, ids, want)
    ensures Parted(batch, draws, n + 1, ids', want')
  {
    var (out, left) := AfterTurns(QueuesOf(batch), draws, n);
    ids', want' := ids, want;
    if |left| > 0 {
      PlaceFits(draws(n), |left|);
      var p := draws(n) * |left| / 0x1_0000_0000;
      OneTurn(QueuesOf(batch), draws, n, p);
      TakenSplits(batch, out, want, ids[p]);
      want' := want[ids[p] := want[ids[p]][1..]];
      ids' := RestAwaits(left, ids, want, p);
    }
  }

  /** Whatever the draws, the turns take the packets off their lists. */
  lemma {:induction false} TurnsPart(batch: seq<Entry>, draws: nat -> Draw, n: nat)
    returns (ids: seq<nat>, want: seq<seq<Entry>>)
    ensures Parted(batch, draws, n, ids, want)
  {
    if n == 0 {
      ids, want := FirstSeen(Lists(batch)), ByList(batch);
      StartAwaits(batch);
    } else {
      ids, want := TurnsPart(batch, draws, n - 1);
      ids, want := NextParted(batch, draws, n - 1, ids, want);
    }
  }

  lemma {:induction false} FewerOut(batch: seq<Entry>, out: seq<Entry>, want: seq<seq<Entry>>, l: nat)
    requires Splits(batch, out, want) && l < MAX_SESSIONS && |want[l]| > 0
    ensures |out| < |batch|
  {
    forall x: Entry ensures multiset(out)[x] <= multiset(batch)[x] { NoMoreOut(batch, out, want, x); }
    var e := want[l][0];
    assert Filter(InList(l), batch)[|Filter(InList(l), out)|] == e;
    FilterAll(l, batch, |Filter(InList(l), out)|);
    NoMoreOut(batch, out, want, e);
    SmallerBag(multiset(out), multiset(batch), e);
  }

  lemma {:induction false} NoMoreOut(batch: seq<Entry>, out: seq<Entry>, want: seq<seq<Entry>>, x: Entry)
    requires Splits(batch, out, want)
    ensures multiset(out)[x] + multiset(want[ListOf(x.sess)])[x] == multiset(batch)[x]
  {
    var l := ListOf(x.sess);
    FilterCount(InList(l), out, x);
    FilterCount(InList(l), batch, x);
    assert Filter(InList(l), out) + want[l] == Filter(InList(l), batch);
  }

  lemma SmallerBag(a: multiset<Entry>, b: multiset<Entry>, e: Entry)
    requires (forall x :: a[x] <= b[x]) && a[e] < b[e]
    ensures |a| < |b|
  {
    assert b == a + (b - a) && (b - a)[e] > 0;
  }

  /**
   The draws decide everything that may differ: an order comes out for some stream of draws if and only if it
   keeps every list in order.
   */
  lemma {:induction false} EveryOrderComesOut(batch: seq<Entry>, order: seq<Entry>)
    ensures (exists draws: nat -> Draw :: Shuffled(batch, draws) == order) <==> KeepsLists(batch, order)
  {
    if draws: nat -> Draw :| Shuffled(batch, draws) == order { AnyStreamKeepsLists(batch, draws); }
    if KeepsLists(batch, order) { var draws := StreamFor(batch, order); }
  }

  lemma {:induction false} AnyStreamKeepsLists(batch: seq<Entry>, draws: nat -> Draw)
    ensures KeepsLists(batch, Shuffled(batch, draws))
  {
    var ids, want := TurnsPart(batch, draws, |batch|);
    var (out, left) := AfterTurns(QueuesOf(batch), draws, |batch|);
    if |left| > 0 { FewerOut(batch, out, want, ids[0]); }
    forall l: nat | l < MAX_SESSIONS ensures Filter(InList(l), out) == Filter(InList(l), batch) {
      assert want[l] == [];
    }
  }

  lemma {:induction false} StreamFor(batch: seq<Entry>, order: seq<Entry>) returns (draws: nat -> Draw)
    requires KeepsLists(batch, order)
    ensures Shuffled(batch, draws) == order
  {
    ListsInOrder(batch, order);
    RestratifiedIsPermutation(batch, order);
    assert |multiset(order)| == |multiset(batch)|;
    var ids;
    draws, ids := DrawsFor(batch, order, |batch|);
    assert order[..|batch|] == order;
  }

  // ---------------------------------------------------------------- the first packet

  /** The lists that occur. */
  function Occurring(lists: seq<nat>): set<nat> { set l | l in lists }

  lemma {:induction false} SeenCard(lists: seq<nat>)
    ensures |FirstSeen(lists)| == |Occurring(lists)|
  {
    if |lists| > 0 {
      var init, last := lists[..|lists| - 1], lists[|lists| - 1];
      SeenCard(init);
      SeenIffPresent(init, last);
      assert lists == init + [last];
      assert Occurring(lists) == Occurring(init) + {last};
    }
  }

  /** A list that starts at position h comes after those that start before it. */
  lemma {:induction false} SeenAt(lists: seq<nat>, n: nat, h: nat)
    requires h < n <= |lists| && lists[h] !in lists[..h]
    ensures var p := |FirstSeen(lists[..h])|; p < |FirstSeen(lists[..n])| && FirstSeen(lists[..n])[p] == lists[h]
  {
    SeenNext(lists, n - 1);
    if h == n - 1 { SeenIffPresent(lists[..h], lists[h]); } else { SeenAt(lists, n - 1, h); }
  }

  lemma {:induction false} HeadOfList(batch: seq<Entry>, h: nat)
    requires h < |batch| && Lists(batch)[h] !in Lists(batch)[..h]
    ensures var q := Filter(InList(Lists(batch)[h]), batch); |q| > 0 && q[0] == batch[h]
  {
    var l := Lists(batch)[h];
    forall j | 0 <= j < h ensures !InList(l)(batch[j]) { assert Lists(batch)[..h][j] != l; }
    FilterNone(InList(l), batch[..h]);
    FilterPrefix(InList(l), batch, h);
    assert batch[h..][0] == batch[h] && batch[h..][1..] == batch[h + 1..];
    FilterFirst(l, batch[h..]);
  }

  /**
   The first packet out is the one at position h that is the first of its list, and before which
   floor(draw * lists / 2^32) other lists have started.
   */
  lemma {:induction false} FirstOut(batch: seq<Entry>, draws: nat -> Draw, h: nat)
    requires h < |batch| && Lists(batch)[h] !in Lists(batch)[..h]
    requires |Occurring(Lists(batch)[..h])| == draws(0) * |Occurring(Lists(batch))| / 0x1_0000_0000
    ensures |Shuffled(batch, draws)| > 0 && Shuffled(batch, draws)[0] == batch[h]
  {
    var lists, queues := Lists(batch), QueuesOf(batch);
    SeenCard(lists);
    SeenCard(lists[..h]);
    assert lists[..|lists|] == lists;
    SeenAt(lists, |lists|, h);
    HeadOfList(batch, h);
    var p := |FirstSeen(lists[..h])|;
    OneTurn(queues, draws, 0, p);
    assert AfterTurns(queues, draws, 1).0 == [batch[h]];
    StaysOut(queues, draws, 1, |batch|);
  }

  /** What is out stays out. */
  lemma {:induction false} StaysOut(queues: seq<seq<Entry>>, draws: nat -> Draw, n: nat, more: nat)
    requires NoneEmpty(queues) && n <= more
    ensures AfterTurns(queues, draws, n).0 <= AfterTurns(queues, draws, more).0
  {
    if n < more { StaysOut(queues, draws, n, more - 1); }
  }
}

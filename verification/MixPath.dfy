/**
 A session's packets along a path of mix nodes. At every node they are looked up in the hint table,
 handed to the pool and sent on, together with those of all other sessions; between the nodes and
 between the lookup and the pool, connections overtake each other.
 */
module MixPath {
  import opened Common
  import opened Sequences
  import opened MixSessions
  import PoolMix
  import Table = MixSessionRuns
  import opened MixReordering

  /** Every element of `after` stands at most r places from where it stands in `before`. */
  ghost predicate Shifted(before: seq<nat>, after: seq<nat>, r: nat) {
    Distinct(after) && forall i :: 0 <= i < |after| ==> Nearby(before, after[i], i, r)
  }

  ghost predicate Nearby(before: seq<nat>, x: nat, i: nat, r: nat) {
    exists p :: 0 <= p < |before| && i - r <= p <= i + r && before[p] == x
  }

  lemma OrderShifts(b: seq<nat>, c: seq<nat>, r: nat, q: nat)
    requires NearlyInOrder(b, r) && Shifted(b, c, q)
    ensures NearlyInOrder(c, r + q)
  {
    forall i | 0 <= i < |c| ensures i - (r + q) <= c[i] <= i + r + q {
      assert Nearby(b, c[i], i, q);
    }
  }

  /** What came first of something near order is near order. */
  lemma PrefixInOrder(b: seq<nat>, c: seq<nat>, r: nat)
    requires NearlyInOrder(b, r) && c <= b
    ensures NearlyInOrder(c, r)
  {
    forall i | 0 <= i < |c| ensures c[i] == b[i] {}
  }

  /**
   One node: the history of its table and of its pool, the session's slot in the one and its number in
   the other, the counters of its packets in the order in which the table was asked for them, and
   the counter that each packet in the pool carries. `link` says how far packets may be displaced on
   their way to the node, `inside` between lookup and pool.
   */
  datatype Node = Node(
    slots: nat, steps: seq<Table.Step>, birth: nat, slot: nat, lookedUp: seq<nat>,
    pool: seq<PoolMix.Step>, session: PoolMix.int32, counter: PoolMix.Entry -> nat,
    link: nat, inside: nat)

  ghost function Pooled(v: Node): seq<nat> {
    Map(v.counter, Filter(PoolMix.OfSession(v.session), PoolMix.Run(v.pool).accepted))
  }

  ghost function SentOn(v: Node): seq<nat> {
    Map(v.counter, Filter(PoolMix.OfSession(v.session), PoolMix.Sent(PoolMix.Run(v.pool).tried)))
  }

  /** The node's table holds the session, with at most k packets between lookup and confirmation. */
  ghost predicate Watches(derive: Derive, v: Node, k: nat) {
    && Watched(derive, v.slots, v.steps, v.birth, v.slot, k)
    && v.lookedUp == TrailOf(derive, v.slots, v.steps, v.birth, v.slot).arrivals
  }

  /** No send of the node has failed, and its own threads displace the session's packets by at most `inside`. */
  ghost predicate Carries(v: Node) {
    && (forall a :: 0 <= a < |PoolMix.Run(v.pool).tried| ==> PoolMix.Run(v.pool).tried[a].sent)
    && Shifted(v.lookedUp, Pooled(v), v.inside)
  }

  /** The link to node j takes what the node before it sent on. */
  ghost predicate Linked(path: seq<Node>, j: nat)
    requires 0 < j < |path|
  {
    Shifted(SentOn(path[j - 1]), path[j].lookedUp, path[j].link)
  }

  /** The client numbers its packets in order, and every node passes them on. */
  ghost predicate Connected(path: seq<Node>) {
    && (|path| > 0 ==> NearlyInOrder(path[0].lookedUp, path[0].link))
    && (forall j :: 0 <= j < |path| ==> Carries(path[j]))
    && (forall j :: 0 < j < |path| ==> Linked(path, j))
  }

  /** The node's last lookup, if it is for a packet of the session, finds it in its place. */
  ghost predicate Finds(derive: Derive, v: Node) {
    v.slot < v.slots && v.birth + 1 < |v.steps| && v.steps[v.birth].Alloc?
    && IsPacket(derive, v.steps[v.birth].seed, v.steps[|v.steps| - 1]) ==>
      LastInPlace(derive, v.slots, v.steps, v.birth, v.slot)
  }

  /** How far the links and threads up to node j may displace a packet together. */
  function Drift(path: seq<Node>, j: nat): nat
    requires j < |path|
  {
    path[j].link + if j == 0 then 0 else Drift(path, j - 1) + path[j - 1].inside
  }

  /** The pool adds nothing: it sends a session's packets on in the order it took them. */
  lemma PoolKeepsPlaces(v: Node)
    requires forall a :: 0 <= a < |PoolMix.Run(v.pool).tried| ==> PoolMix.Run(v.pool).tried[a].sent
    ensures SentOn(v) <= Pooled(v)
  {
    PoolMix.SessionPrefixPreserved(v.pool, v.session);
  }

  lemma {:induction false} OneHop(path: seq<Node>, j: nat, r: nat)
    requires Connected(path) && 0 < j < |path| && NearlyInOrder(path[j - 1].lookedUp, r)
    ensures NearlyInOrder(path[j].lookedUp, r + path[j - 1].inside + path[j].link)
  {
    var v := path[j - 1];
    assert Carries(v) && Linked(path, j);
    OrderShifts(v.lookedUp, Pooled(v), r, v.inside);
    PoolKeepsPlaces(v);
    PrefixInOrder(Pooled(v), SentOn(v), r + v.inside);
    OrderShifts(SentOn(v), path[j].lookedUp, r + v.inside, path[j].link);
  }

  lemma {:induction false} DriftAddsUp(path: seq<Node>, j: nat)
    requires Connected(path) && j < |path|
    ensures NearlyInOrder(path[j].lookedUp, Drift(path, j))
  {
    if j > 0 {
      DriftAddsUp(path, j - 1);
      OneHop(path, j, Drift(path, j - 1));
    }
  }

  lemma {:induction false} NodeFinds(derive: Derive, v: Node, r: nat, k: nat)
    requires Watches(derive, v, k) && NearlyInOrder(v.lookedUp, r) && Tolerable(r, k)
    ensures Finds(derive, v)
  {
    if v.birth + 1 < |v.steps| && IsPacket(derive, v.steps[v.birth].seed, v.steps[|v.steps| - 1]) {
      ReorderingTolerated(derive, v.slots, v.steps, v.birth, v.slot, r, k);
    }
  }

  /**
   Pooled, reordered traffic is found: whatever the other sessions do at every node, and however the
   pools shuffle them, each packet of the session is found in the table of every node of the path
   whose drift R and number k of packets in hand satisfy 2R + (k - 1)(R + k) <= 32.
   */
  lemma {:induction false} PooledPacketsAreFound(derive: Derive, path: seq<Node>, k: nat, j: nat)
    requires Connected(path) && j < |path| && Watches(derive, path[j], k) && Tolerable(Drift(path, j), k)
    ensures Finds(derive, path[j])
  {
    DriftAddsUp(path, j);
    NodeFinds(derive, path[j], Drift(path, j), k);
  }

  /** Three nodes, one packet in hand at a time: every link and node may displace packets by three. */
  lemma ThreeHops(path: seq<Node>)
    requires |path| == 3 && forall j :: 0 <= j < 3 ==> path[j].link <= 3 && path[j].inside <= 3
    ensures forall j :: 0 <= j < 3 ==> Tolerable(Drift(path, j), 1)
  {
    assert Drift(path, 0) <= 3 && Drift(path, 1) <= 9 && Drift(path, 2) <= 15;
  }
}

/**
 Choosing the nodes of a session: bandwidth-weighted draws without replacement, persisted guard
 sets, the two three-node paths of a session, their swap by round-trip time, and extra striping legs.
 Weights and random numbers are exact reals.
 */
module Paths {
  import opened Common
  import opened Crypto
  import opened Sequences

  const GUARD_SET_SIZE := 3
  const DRAW_ATTEMPTS := 10000
  const PATH_ATTEMPTS := 500

  type Weight = w: real | w >= 0.0
  type Unit = u: real | 0.0 <= u < 1.0 witness 0.0

  /** Node i of the consensus has weight weights[i]. */
  type Consensus = seq<Weight>

  /** A source of random numbers, given by the stream it will produce. */
  class Rng {
    const stream: nat -> Unit
    var pos: nat

    constructor (stream: nat -> Unit)
      ensures this.stream == stream && pos == 0
    {
      this.stream, pos := stream, 0;
    }

    method Uniform01() returns (u: Unit)
      modifies this
      ensures u == stream(old(pos)) && pos == old(pos) + 1
    {
      u := stream(pos);
      pos := pos + 1;
    }
  }

  // ---------------------------------------------------------------- the weighted draw

  /** A random number stretched over [0, total). */
  function Scale(u: Unit, total: real): (r: real)
    requires total > 0.0
    ensures 0.0 <= r < total
  {
    u * total
  }

  /** Total weight of the nodes below n that are not excluded. */
  function CumTo(c: Consensus, excl: seq<int>, n: nat): (r: real)
    requires n <= |c|
    ensures r >= 0.0
  {
    if n == 0 then 0.0 else CumTo(c, excl, n - 1) + if n - 1 in excl then 0.0 else c[n - 1]
  }

  function Total(c: Consensus, excl: seq<int>): (r: real)
    ensures r >= 0.0
  {
    CumTo(c, excl, |c|)
  }

  /** The first node from i on that is not excluded and whose cumulative weight reaches the target. */
  function FirstReaching(c: Consensus, excl: seq<int>, target: real, i: nat): (r: Option<nat>)
    requires i <= |c|
    ensures r.Some? ==> i <= r.value < |c| && r.value !in excl && target <= CumTo(c, excl, r.value + 1)
    ensures r.Some? ==> forall j :: i <= j < r.value && j !in excl ==> target > CumTo(c, excl, j + 1)
    ensures r.None? ==> forall j :: i <= j < |c| && j !in excl ==> target > CumTo(c, excl, j + 1)
    decreases |c| - i
  {
    if i == |c| then None
    else if i !in excl && target <= CumTo(c, excl, i + 1) then Some(i)
    else FirstReaching(c, excl, target, i + 1)
  }

  /** The draw as a function of one random number; None when no allowed node has weight. */
  function Drawn(c: Consensus, excl: seq<int>, u: Unit): (r: Option<nat>)
    ensures r.Some? ==> r.value < |c| && r.value !in excl
  {
    if Total(c, excl) <= 0.0 then None else FirstReaching(c, excl, Scale(u, Total(c, excl)), 0)
  }

  lemma {:induction false} CumMonotone(c: Consensus, excl: seq<int>, i: nat, j: nat)
    requires i <= j <= |c|
    ensures CumTo(c, excl, i) <= CumTo(c, excl, j)
  {
    if i < j { CumMonotone(c, excl, i, j - 1); }
  }

  /** The last allowed node carries the cumulative weight to the total. */
  lemma {:induction false} SomeNodeReaches(c: Consensus, excl: seq<int>, n: nat)
    requires n <= |c| && CumTo(c, excl, n) > 0.0
    ensures exists i :: 0 <= i < n && i !in excl && CumTo(c, excl, i + 1) == CumTo(c, excl, n)
  {
    if n - 1 in excl {
      SomeNodeReaches(c, excl, n - 1);
      var i :| 0 <= i < n - 1 && i !in excl && CumTo(c, excl, i + 1) == CumTo(c, excl, n - 1);
      assert CumTo(c, excl, i + 1) == CumTo(c, excl, n);
    } else {
      assert CumTo(c, excl, (n - 1) + 1) == CumTo(c, excl, n);
    }
  }

  lemma {:induction false} TotalPositive(c: Consensus, excl: seq<int>, n: nat, i: nat)
    requires i < n <= |c| && i !in excl && c[i] > 0.0
    ensures CumTo(c, excl, n) > 0.0
  {
    if i < n - 1 { TotalPositive(c, excl, n - 1, i); }
  }

  /** Over exact reals the draw succeeds, at its first attempt, as soon as an allowed node has positive weight. */
  lemma DrawSucceeds(c: Consensus, excl: seq<int>, u: Unit, i: nat)
    requires i < |c| && i !in excl && c[i] > 0.0
    ensures Drawn(c, excl, u).Some?
  {
    TotalPositive(c, excl, |c|, i);
    SomeNodeReaches(c, excl, |c|);
    var k :| 0 <= k < |c| && k !in excl && CumTo(c, excl, k + 1) == Total(c, excl);
    assert Scale(u, Total(c, excl)) <= CumTo(c, excl, k + 1);
  }

  lemma {:induction false} NoWeight(c: Consensus, excl: seq<int>, n: nat)
    requires n <= |c| && CumTo(c, excl, n) > 0.0
    ensures exists i :: 0 <= i < n && i !in excl && c[i] > 0.0
  {
    if n - 1 in excl || c[n - 1] == 0.0 { NoWeight(c, excl, n - 1); }
  }

  lemma DrawSucceedsIff(c: Consensus, excl: seq<int>, u: Unit)
    ensures Drawn(c, excl, u).Some? <==> exists i :: 0 <= i < |c| && i !in excl && c[i] > 0.0
  {
    if i: nat :| i < |c| && i !in excl && c[i] > 0.0 { DrawSucceeds(c, excl, u, i); }
    if Drawn(c, excl, u).Some? { NoWeight(c, excl, |c|); }
  }

  lemma {:induction false} NothingBefore(c: Consensus, excl: seq<int>, i: nat)
    requires i <= |c| && forall j :: 0 <= j < i ==> j in excl
    ensures CumTo(c, excl, i) == 0.0
  {
    if i > 0 { NothingBefore(c, excl, i - 1); }
  }

  lemma {:induction false} LastBefore(c: Consensus, excl: seq<int>, i: nat, j: nat)
    requires j < i <= |c| && j !in excl
    ensures exists k :: j <= k < i && k !in excl && CumTo(c, excl, k + 1) == CumTo(c, excl, i)
  {
    if i - 1 in excl {
      LastBefore(c, excl, i - 1, j);
      var k :| j <= k < i - 1 && k !in excl && CumTo(c, excl, k + 1) == CumTo(c, excl, i - 1);
      assert CumTo(c, excl, k + 1) == CumTo(c, excl, i);
    } else {
      assert CumTo(c, excl, (i - 1) + 1) == CumTo(c, excl, i);
    }
  }

  /**
   A node is reached exactly when the target falls in its own stretch of the cumulative weight: above
   what the allowed nodes before it add up to, and at most that plus its own weight. The first
   allowed node also takes the target zero. The draw's target is a random share of the total.
   */
  lemma ReachedOnOwnInterval(c: Consensus, excl: seq<int>, target: real, i: nat)
    requires i < |c| && target >= 0.0
    ensures FirstReaching(c, excl, target, 0) == Some(i) <==>
      && i !in excl
      && (CumTo(c, excl, i) < target || forall j :: 0 <= j < i ==> j in excl)
      && target <= CumTo(c, excl, i) + c[i]
  {
    if i !in excl {
      if target <= CumTo(c, excl, i) {
        if j: nat :| j < i && j !in excl {
          LastBefore(c, excl, i, j);
          var k :| j <= k < i && k !in excl && CumTo(c, excl, k + 1) == CumTo(c, excl, i);
          assert FirstReaching(c, excl, target, 0) != Some(i);
        } else {
          NothingBefore(c, excl, i);
        }
      } else {
        forall j | 0 <= j < i && j !in excl ensures target > CumTo(c, excl, j + 1) { CumMonotone(c, excl, j + 1, i); }
      }
    }
  }

  /** weighted_draw_excluding: sums the allowed weights, then walks them until the target is reached. */
  method WeightedDrawExcluding(c: Consensus, rng: Rng, excl1: seq<int>, excl2: seq<int>) returns (picked: Option<nat>)
    modifies rng
    ensures picked == Drawn(c, excl1 + excl2, rng.stream(old(rng.pos)))
    ensures rng.pos >= old(rng.pos) && (picked.Some? ==> rng.pos == old(rng.pos) + 1)
  {
    ghost var excl, start := excl1 + excl2, rng.pos;
    var total := SumAllowed(c, excl1, excl2);
    if total <= 0.0 { return None; }
    for attempt := 0 to DRAW_ATTEMPTS
      invariant rng.pos == start && attempt == 0
    {
      var u := rng.Uniform01();
      picked := Walk(c, Scale(u, total), excl1, excl2);
      if picked.Some? { return; }
      NoSecondAttempt(c, excl, u);
      assert false;
    }
    picked := None;
  }

  method SumAllowed(c: Consensus, excl1: seq<int>, excl2: seq<int>) returns (total: real)
    ensures total == Total(c, excl1 + excl2)
  {
    total := 0.0;
    for i := 0 to |c|
      invariant total == CumTo(c, excl1 + excl2, i)
    {
      if i !in excl1 && i !in excl2 { total := total + c[i]; }
    }
  }

  method Walk(c: Consensus, target: real, excl1: seq<int>, excl2: seq<int>) returns (reached: Option<nat>)
    ensures reached == FirstReaching(c, excl1 + excl2, target, 0)
  {
    var cum := 0.0;
    for i := 0 to |c|
      invariant cum == CumTo(c, excl1 + excl2, i)
      invariant FirstReaching(c, excl1 + excl2, target, 0) == FirstReaching(c, excl1 + excl2, target, i)
    {
      if i !in excl1 && i !in excl2 {
        cum := cum + c[i];
        if target <= cum { return Some(i); }
      }
    }
    reached := None;
  }

  /** Retrying after a walk that reaches nothing is for rounding only: exactly, every walk reaches a node. */
  lemma NoSecondAttempt(c: Consensus, excl: seq<int>, u: Unit)
    requires Total(c, excl) > 0.0
    ensures Drawn(c, excl, u).Some?
  {
    NoWeight(c, excl, |c|);
    var i: nat :| i < |c| && i !in excl && c[i] > 0.0;
    DrawSucceeds(c, excl, u, i);
  }

  // ---------------------------------------------------------------- guard sets

  ghost predicate InRange(c: Consensus, ids: seq<int>) {
    forall i :: 0 <= i < |ids| ==> 0 <= ids[i] < |c|
  }

  ghost predicate Disjoint(a: seq<int>, b: seq<int>) {
    forall x :: x in a ==> x !in b
  }

  /** The numbers written to a guard file: how many ids, then the ids. */
  function SavedGuards(ids: seq<int>): seq<int> { [|ids|] + ids }

  /** What is read from a guard file: one to three ids, checked for range only. */
  function LoadedGuards(c: Consensus, file: Option<seq<int>>): Option<seq<int>> {
    if file.None? || |file.value| == 0 then None
    else
      var numbers := file.value;
      var count := numbers[0];
      if 0 < count <= GUARD_SET_SIZE && |numbers| > count && forall i :: 1 <= i <= count ==> 0 <= numbers[i] < |c|
      then Some(numbers[1..count + 1]) else None
  }

  /** Guards drawn one by one, each outside `exclude` and those drawn before, from the stream from `pos` on. */
  function DrawnGuards(c: Consensus, exclude: seq<int>, ids: seq<int>, size: nat, stream: nat -> Unit,
                       pos: nat): Option<seq<int>>
    decreases size - |ids|
  {
    if |ids| >= size then Some(ids)
    else
      match Drawn(c, exclude + ids, stream(pos))
      case None => None
      case Some(k) => DrawnGuards(c, exclude, ids + [k], size, stream, pos + 1)
  }

  function GuardCount(guardSize: int): (n: nat)
    ensures n <= GUARD_SET_SIZE
  {
    if guardSize < 0 then 0 else if guardSize > GUARD_SET_SIZE then GUARD_SET_SIZE else guardSize
  }

  /**
   The guard set in the file if there is one; otherwise a fresh one, which is then saved. The result
   is None if a draw finds no node or the file cannot be written.
   */
  method GuardSetLoadOrCreate(c: Consensus, file: Option<seq<int>>, guardSize: int, exclude: seq<int>, rng: Rng,
                              canSave: bool)
    returns (guards: Option<seq<int>>, file': Option<seq<int>>)
    modifies rng
    ensures LoadedGuards(c, file).Some? ==> guards == LoadedGuards(c, file) && file' == file && rng.pos == old(rng.pos)
    ensures LoadedGuards(c, file).None? ==>
      var drawn := DrawnGuards(c, exclude, [], GuardCount(guardSize), rng.stream, old(rng.pos));
      && guards == (if canSave then drawn else None)
      && file' == if guards.Some? then Some(SavedGuards(guards.value)) else file
    ensures LoadedGuards(c, file).None? && guards.Some? ==>
      && |guards.value| == (if guardSize < 0 then 0 else if guardSize > 3 then 3 else guardSize)
      && InRange(c, guards.value) && Distinct(guards.value) && Disjoint(guards.value, exclude)
  {
    DrawnGuardsDiffer(c, exclude, [], GuardCount(guardSize), rng.stream, rng.pos);
    guards, file' := LoadedGuards(c, file), file;
    if guards.Some? { return; }
    var size := if guardSize > GUARD_SET_SIZE then GUARD_SET_SIZE else guardSize;
    var ids: seq<int> := [];
    var k := 0;
    while k < size
      invariant 0 <= k && (k <= size || k == 0) && |ids| == k
      invariant DrawnGuards(c, exclude, ids, GuardCount(guardSize), rng.stream, rng.pos)
             == DrawnGuards(c, exclude, [], GuardCount(guardSize), rng.stream, old(rng.pos))
    {
      var picked := WeightedDrawExcluding(c, rng, exclude, ids);
      if picked.None? { return; }
      ids := ids + [picked.value];
      k := k + 1;
    }
    if canSave { guards, file' := Some(ids), Some(SavedGuards(ids)); }
  }

  /** Drawn guards are distinct nodes outside `exclude`, as many as asked for. */
  lemma {:induction false} DrawnGuardsDiffer(c: Consensus, exclude: seq<int>, ids: seq<int>, size: nat,
                                             stream: nat -> Unit, pos: nat)
    requires |ids| <= size && InRange(c, ids) && Distinct(ids) && Disjoint(ids, exclude)
    ensures var r := DrawnGuards(c, exclude, ids, size, stream, pos);
      r.Some? ==> |r.value| == size && InRange(c, r.value) && Distinct(r.value) && Disjoint(r.value, exclude)
    decreases size - |ids|
  {
    if |ids| < size {
      match Drawn(c, exclude + ids, stream(pos))
      case None =>
      case Some(k) => DrawnGuardsDiffer(c, exclude, ids + [k], size, stream, pos + 1);
    }
  }

  lemma SavedIsLoaded(c: Consensus, ids: seq<int>)
    requires 1 <= |ids| <= GUARD_SET_SIZE && InRange(c, ids)
    ensures LoadedGuards(c, Some(SavedGuards(ids))) == Some(ids)
  {
    var numbers := SavedGuards(ids);
    assert numbers[1..|ids| + 1] == ids;
    forall i | 1 <= i <= |ids| ensures 0 <= numbers[i] < |c| { assert numbers[i] == ids[i - 1]; }
  }

  /** A file gives these guards if and only if it begins with their number, one to three, and then them, in range. */
  lemma LoadedIff(c: Consensus, file: Option<seq<int>>, ids: seq<int>)
    ensures LoadedGuards(c, file) == Some(ids) <==>
      file.Some? && 1 <= |ids| <= 3 && InRange(c, ids) && [|ids|] + ids <= file.value
  {
    if file.Some? && |file.value| > 0 && 0 < file.value[0] <= GUARD_SET_SIZE && |file.value| > file.value[0] {
      var read := file.value[1..file.value[0] + 1];
      assert forall i :: 0 <= i < |read| ==> read[i] == file.value[i + 1];
      assert [|read|] + read <= file.value;
      if [|ids|] + ids <= file.value {
        assert file.value[0] == ([|ids|] + ids)[0];
        assert forall i :: 0 <= i < |ids| ==> ids[i] == ([|ids|] + ids)[i + 1];
        assert read == ids;
      }
    } else if file.Some? && [|ids|] + ids <= file.value {
      assert file.value[0] == ([|ids|] + ids)[0];
    }
  }

  /** A set that was drawn and saved is the set of every later start. */
  lemma PersistedIsKept(c: Consensus, exclude: seq<int>, guardSize: int, stream: nat -> Unit, pos: nat)
    requires guardSize > 0
    ensures var drawn := DrawnGuards(c, exclude, [], GuardCount(guardSize), stream, pos);
      drawn.Some? ==> LoadedGuards(c, Some(SavedGuards(drawn.value))) == drawn
  {
    DrawnGuardsDiffer(c, exclude, [], GuardCount(guardSize), stream, pos);
    var drawn := DrawnGuards(c, exclude, [], GuardCount(guardSize), stream, pos);
    if drawn.Some? { SavedIsLoaded(c, drawn.value); }
  }

  /** The nodes outside `used` that have weight. */
  function FreeNodes(c: Consensus, used: seq<int>): set<int> {
    set i | 0 <= i < |c| && i !in used && c[i] > 0.0
  }

  /** A random number above zero picks a node that has weight. */
  lemma DrawnHasWeight(c: Consensus, excl: seq<int>, u: Unit, k: nat)
    requires u > 0.0 && Drawn(c, excl, u) == Some(k)
    ensures k in FreeNodes(c, excl)
  {
    assert Scale(u, Total(c, excl)) > 0.0;
    ReachedOnOwnInterval(c, excl, Scale(u, Total(c, excl)), k);
    if forall j :: 0 <= j < k ==> j in excl { NothingBefore(c, excl, k); }
  }

  lemma OneFewer(c: Consensus, exclude: seq<int>, ids: seq<int>, k: nat)
    ensures FreeNodes(c, exclude + (ids + [k])) == FreeNodes(c, exclude + ids) - {k as int}
  {
  }

  /** On a stream without zeros, guards are found exactly when enough nodes with weight are left. */
  lemma {:induction false} GuardsDrawnIff(c: Consensus, exclude: seq<int>, ids: seq<int>, size: nat,
                                          stream: nat -> Unit, pos: nat)
    requires |ids| <= size
    ensures |ids| + |FreeNodes(c, exclude + ids)| >= size ==> DrawnGuards(c, exclude, ids, size, stream, pos).Some?
    ensures (forall p :: p >= pos ==> stream(p) > 0.0) && DrawnGuards(c, exclude, ids, size, stream, pos).Some? ==>
      |ids| + |FreeNodes(c, exclude + ids)| >= size
    decreases size - |ids|
  {
    if |ids| < size {
      DrawSucceedsIff(c, exclude + ids, stream(pos));
      if i :| i in FreeNodes(c, exclude + ids) { assert i !in exclude + ids; }
      match Drawn(c, exclude + ids, stream(pos))
      case None =>
        assert FreeNodes(c, exclude + ids) == {};
      case Some(k) =>
        OneFewer(c, exclude, ids, k);
        GuardsDrawnIff(c, exclude, ids + [k], size, stream, pos + 1);
        if stream(pos) > 0.0 { DrawnHasWeight(c, exclude + ids, stream(pos), k); }
    }
  }

  // ---------------------------------------------------------------- a session's six nodes

  datatype Triple = Triple(entry: int, mid: int, last: int) {
    function Nodes(): (r: seq<int>)
      ensures |r| == 3
    {
      [entry, mid, last]
    }
  }

  datatype SessionPath = SessionPath(a: Triple, b: Triple) {
    function Nodes(): (r: seq<int>)
      ensures |r| == 6
    {
      a.Nodes() + b.Nodes()
    }

    function Swapped(): SessionPath { SessionPath(b, a) }
  }

  /** The index below n that a random number picks. */
  function IndexOf(n: nat, u: Unit): (i: nat)
    requires n > 0
    ensures i < n
  {
    Scale(u, n as real).Floor
  }

  /** The guard a random number picks. */
  function EntryOf(guards: seq<int>, u: Unit): (r: int)
    requires |guards| > 0
    ensures r in guards
  {
    guards[IndexOf(|guards|, u)]
  }

  /** Some node outside `used` has positive weight. */
  predicate HasFree(c: Consensus, used: seq<int>) {
    exists i :: 0 <= i < |c| && i !in used && c[i] > 0.0
  }

  /** The path that a stream gives from a position on: two numbers choose the entries, four draw the other nodes. */
  function PathAt(c: Consensus, guardA: seq<int>, guardB: seq<int>, stream: nat -> Unit,
                  pos: nat): Option<SessionPath> {
    if |guardA| == 0 || |guardB| == 0 then None
    else
      var a, b := EntryOf(guardA, stream(pos)), EntryOf(guardB, stream(pos + 1));
      match Drawn(c, [a, b], stream(pos + 2))
      case None => None
      case Some(midA) =>
        match Drawn(c, [a, b, midA], stream(pos + 3))
        case None => None
        case Some(lastA) =>
          match Drawn(c, [a, b, midA, lastA], stream(pos + 4))
          case None => None
          case Some(midB) =>
            match Drawn(c, [a, b, midA, lastA, midB], stream(pos + 5))
            case None => None
            case Some(lastB) => Some(SessionPath(Triple(a, midA, lastA), Triple(b, midB, lastB)))
  }

  method BuildSessionPath(c: Consensus, guardA: seq<int>, guardB: seq<int>, rng: Rng) returns (out: Option<SessionPath>)
    modifies rng
    ensures out == PathAt(c, guardA, guardB, rng.stream, old(rng.pos)) && (out.Some? ==> rng.pos == old(rng.pos) + 6)
    ensures rng.pos >= old(rng.pos)
    ensures out.None? && |guardA| > 0 && |guardB| > 0 ==> exists used: seq<int> :: 2 <= |used| <= 5 && !HasFree(c, used)
    ensures |guardA| == 0 || |guardB| == 0 ==> out.None?
    ensures out.Some? && |guardA| > 0 && |guardB| > 0 ==>
      && out.value.a.entry == EntryOf(guardA, rng.stream(old(rng.pos)))
      && out.value.b.entry == EntryOf(guardB, rng.stream(old(rng.pos) + 1))
    ensures out.Some? ==> GoodPath(c, guardA, guardB, out.value)
  {
    if |guardA| < 1 || |guardB| < 1 { return None; }
    var ua := rng.Uniform01();
    var ub := rng.Uniform01();
    var entryA, entryB := EntryOf(guardA, ua), EntryOf(guardB, ub);
    var midA := DrawUnused(c, rng, [entryA, entryB]);
    if midA.None? { return None; }
    var lastA := DrawUnused(c, rng, [entryA, entryB, midA.value]);
    if lastA.None? { return None; }
    var midB := DrawUnused(c, rng, [entryA, entryB, midA.value, lastA.value]);
    if midB.None? { return None; }
    var lastB := DrawUnused(c, rng, [entryA, entryB, midA.value, lastA.value, midB.value]);
    if lastB.None? { return None; }
    out := Some(SessionPath(Triple(entryA, midA.value, lastA.value), Triple(entryB, midB.value, lastB.value)));
  }

  method DrawUnused(c: Consensus, rng: Rng, used: seq<int>) returns (picked: Option<nat>)
    modifies rng
    ensures picked == Drawn(c, used, rng.stream(old(rng.pos)))
    ensures rng.pos >= old(rng.pos) && (picked.Some? ==> rng.pos == old(rng.pos) + 1)
    ensures picked.None? <==> !HasFree(c, used)
    ensures picked.Some? ==> picked.value < |c| && picked.value !in used
  {
    ghost var u := rng.stream(rng.pos);
    picked := WeightedDrawExcluding(c, rng, used, []);
    assert used + [] == used;
    DrawSucceedsIff(c, used, u);
  }

  /** Entries from their guard sets; all six nodes different, but for the two entries if the guard sets overlap. */
  ghost predicate GoodPath(c: Consensus, guardA: seq<int>, guardB: seq<int>, p: SessionPath) {
    match p
    case SessionPath(a, b) =>
      && a.entry in guardA && b.entry in guardB
      && 0 <= a.mid < |c| && 0 <= a.last < |c| && 0 <= b.mid < |c| && 0 <= b.last < |c|
      && Distinct(a.Nodes()) && Distinct(b.Nodes())
      && (a.entry != b.entry ==> Distinct(p.Nodes()))
  }

  lemma DisjointGuardsGiveDistinctNodes(c: Consensus, guardA: seq<int>, guardB: seq<int>, p: SessionPath)
    requires Disjoint(guardA, guardB) && GoodPath(c, guardA, guardB, p)
    ensures Distinct(p.Nodes()) && Distinct(p.Swapped().Nodes())
  {
    SwapDistinct(p.a.Nodes(), p.b.Nodes());
  }

  /** A random number that picks the guard at a given index. */
  lemma IndexReachable(n: nat, idx: nat) returns (u: Unit)
    requires idx < n
    ensures IndexOf(n, u) == idx
  {
    u := idx as real / n as real;
  }

  lemma SharedGuardCollides(guardA: seq<int>, guardB: seq<int>, i: nat, j: nat) returns (u: Unit, v: Unit)
    requires i < |guardA| && j < |guardB| && guardA[i] == guardB[j]
    ensures EntryOf(guardA, u) == EntryOf(guardB, v)
  {
    u := IndexReachable(|guardA|, i);
    v := IndexReachable(|guardB|, j);
  }

  /** The two entries differ for every pair of random numbers if and only if the guard sets are disjoint. */
  lemma EntriesDifferIff(guardA: seq<int>, guardB: seq<int>)
    requires |guardA| > 0 && |guardB| > 0
    ensures (forall u: Unit, v: Unit :: EntryOf(guardA, u) != EntryOf(guardB, v)) <==> Disjoint(guardA, guardB)
  {
    if !Disjoint(guardA, guardB) {
      var x :| x in guardA && x in guardB;
      var i: nat :| i < |guardA| && guardA[i] == x;
      var j: nat :| j < |guardB| && guardB[j] == x;
      var u, v := SharedGuardCollides(guardA, guardB, i, j);
    }
  }

  /** A pool with six nodes of positive weight always has a free one while at most five are in use. */
  lemma SixSuffice(c: Consensus, used: seq<int>, six: seq<int>)
    requires |used| <= 5 && |six| == 6 && Distinct(six) && forall i :: 0 <= i < 6 ==>
      0 <= six[i] < |c| && c[six[i]] > 0.0
    ensures HasFree(c, used)
  {
    if forall i :: 0 <= i < 6 ==> six[i] in used {
      DistinctCard(six);
      var a, b := (set x | x in six), (set x | x in used);
      SubsetCard(a, b);
      SetOfSeq(used);
    } else {
      var i :| 0 <= i < 6 && six[i] !in used;
    }
  }

  lemma {:induction false} SetOfSeq(s: seq<int>)
    ensures |set x | x in s| <= |s|
  {
    if |s| == 0 {
      assert (set x | x in s) == {};
    } else {
      SetOfSeq(s[..|s| - 1]);
      var init := s[..|s| - 1];
      assert (set x | x in s) == (set x | x in init) + {s[|s| - 1]};
    }
  }

  // ---------------------------------------------------------------- the session and its striping legs

  /** A node other than path A's entry is one of guard set A. */
  predicate UsesOtherGuardA(p: SessionPath, guardA: seq<int>) {
    p.a.mid in guardA || p.a.last in guardA || p.b.entry in guardA || p.b.mid in guardA || p.b.last in guardA
  }

  method PathUsesOtherGuardA(p: SessionPath, guardA: seq<int>) returns (uses: bool)
    ensures uses <==> UsesOtherGuardA(p, guardA)
  {
    var hops := [p.a.mid, p.a.last, p.b.entry, p.b.mid, p.b.last];
    for g := 0 to |guardA|
      invariant forall i :: 0 <= i < g ==> guardA[i] !in hops
    {
      for h := 0 to 5
        invariant guardA[g] !in hops[..h]
      {
        if hops[h] == guardA[g] { return true; }
        assert hops[..h + 1] == hops[..h] + [hops[h]];
      }
      assert hops[..5] == hops;
    }
    uses := false;
  }

  /** Without striping any path will do; with it, one that leaves guard set A to the extra legs. */
  predicate Clear(legs: nat, guardA: seq<int>, p: SessionPath) { legs > 1 ==> !UsesOtherGuardA(p, guardA) }

  /** The paths that a stream gives one after the other from a position on; each takes six numbers. */
  type PathStream = nat -> Option<SessionPath>

  function PathNo(c: Consensus, guardA: seq<int>, guardB: seq<int>, stream: nat -> Unit, pos: nat,
                  n: nat): Option<SessionPath> {
    PathAt(c, guardA, guardB, stream, pos + 6 * n)
  }

  function PathsFrom(c: Consensus, guardA: seq<int>, guardB: seq<int>, stream: nat -> Unit, pos: nat): PathStream {
    (n: nat) => PathNo(c, guardA, guardB, stream, pos, n)
  }

  ghost predicate Gives(paths: PathStream, c: Consensus, guardA: seq<int>, guardB: seq<int>, stream: nat -> Unit,
                        pos: nat) {
    forall n: nat {:trigger PathNo(c, guardA, guardB, stream, pos, n)} ::
      paths(n) == PathNo(c, guardA, guardB, stream, pos, n)
  }

  /** Path n is the first one that suits; those before it could be drawn, but did not. */
  ghost predicate IsFirst(paths: PathStream, suits: SessionPath -> bool, n: nat) {
    AllMiss(paths, suits, n) && paths(n).Some? && suits(paths(n).value)
  }

  ghost predicate AllMiss(paths: PathStream, suits: SessionPath -> bool, n: nat) {
    forall j: nat :: j < n ==> paths(j).Some? && !suits(paths(j).value)
  }

  /** None of the first `limit` paths is a first one that suits. */
  ghost predicate NoneSuits(paths: PathStream, suits: SessionPath -> bool, limit: nat) {
    forall n: nat :: n < limit ==> !IsFirst(paths, suits, n)
  }

  lemma GivesUp(paths: PathStream, suits: SessionPath -> bool, n: nat, limit: nat)
    requires AllMiss(paths, suits, n) && (n >= limit || paths(n).None?)
    ensures NoneSuits(paths, suits, limit)
  {
  }

  lemma {:induction false} IsNumber(paths: PathStream, c: Consensus, guardA: seq<int>, guardB: seq<int>,
                                    stream: nat -> Unit, pos: nat, n: nat, at: nat)
    requires Gives(paths, c, guardA, guardB, stream, pos) && at == pos + 6 * n
    ensures paths(n) == PathAt(c, guardA, guardB, stream, at)
  {
    assert paths(n) == PathNo(c, guardA, guardB, stream, pos, n);
  }

  /** Draws path number n. */
  method NextPath(c: Consensus, guardA: seq<int>, guardB: seq<int>, rng: Rng, ghost paths: PathStream, ghost pos: nat,
                  ghost n: nat)
    returns (out: Option<SessionPath>)
    requires Gives(paths, c, guardA, guardB, rng.stream, pos) && rng.pos == pos + 6 * n
    modifies rng
    ensures out == paths(n) && (out.Some? ==> rng.pos == pos + 6 * (n + 1) && GoodPath(c, guardA, guardB, out.value))
    ensures rng.pos >= old(rng.pos)
  {
    IsNumber(paths, c, guardA, guardB, rng.stream, pos, n, rng.pos);
    out := BuildSessionPath(c, guardA, guardB, rng);
  }

  function IsClear(legs: nat, guardA: seq<int>): SessionPath -> bool { (p: SessionPath) => Clear(legs, guardA, p) }

  /** Draws until a path suits, with a limit on the tries. */
  method DrawPath(c: Consensus, guardA: seq<int>, guardB: seq<int>, legs: nat, rng: Rng, ghost paths: PathStream)
    returns (drawn: Option<SessionPath>)
    requires Gives(paths, c, guardA, guardB, rng.stream, rng.pos)
    modifies rng
    ensures if drawn.None? then NoneSuits(paths, IsClear(legs, guardA), PATH_ATTEMPTS + 1)
      else
        && GoodPath(c, guardA, guardB, drawn.value)
        && exists n: nat :: n <= PATH_ATTEMPTS && IsFirst(paths, IsClear(legs, guardA), n) && paths(n) == drawn
  {
    ghost var pos, suits := rng.pos, IsClear(legs, guardA);
    drawn := NextPath(c, guardA, guardB, rng, paths, pos, 0);
    if drawn.None? {
      GivesUp(paths, suits, 0, PATH_ATTEMPTS + 1);
      return;
    }
    var tries: nat := 0;
    var again := PathUsesOtherGuardA(drawn.value, guardA);
    while legs > 1 && again
      invariant tries <= PATH_ATTEMPTS && rng.pos == pos + 6 * (tries + 1)
      invariant AllMiss(paths, suits, tries) && drawn == paths(tries)
      invariant drawn.Some? && GoodPath(c, guardA, guardB, drawn.value) && again == UsesOtherGuardA(drawn.value, guardA)
      decreases PATH_ATTEMPTS - tries
    {
      assert AllMiss(paths, suits, tries + 1);
      if tries == PATH_ATTEMPTS {
        GivesUp(paths, suits, tries + 1, PATH_ATTEMPTS + 1);
        return None;
      }
      tries := tries + 1;
      drawn := NextPath(c, guardA, guardB, rng, paths, pos, tries);
      if drawn.None? {
        GivesUp(paths, suits, tries, PATH_ATTEMPTS + 1);
        return;
      }
      again := PathUsesOtherGuardA(drawn.value, guardA);
    }
    assert IsFirst(paths, suits, tries);
  }

  /** The paths of a session: redrawn until guard set A is left to the extra legs, then swapped if B answers faster. */
  method BuildPaths(c: Consensus, guardA: seq<int>, guardB: seq<int>, legs: nat, rttA: int, rttB: int, rng: Rng)
    returns (sp: Option<SessionPath>)
    modifies rng
    ensures sp.Some? ==>
      var swap := rttA < 0 || (rttB >= 0 && rttB < rttA);
      var drawn := if swap then sp.value.Swapped() else sp.value;
      var paths := PathsFrom(c, guardA, guardB, rng.stream, old(rng.pos));
      && GoodPath(c, guardA, guardB, drawn)
      && (legs > 1 ==> forall g :: g in guardA ==> g !in drawn.Nodes()[1..])
      && (legs > 1 || Disjoint(guardA, guardB) ==> Distinct(sp.value.Nodes()))
      && exists n: nat ::
        && n <= PATH_ATTEMPTS && IsFirst(paths, IsClear(legs, guardA), n) && paths(n) == Some(drawn)
        && sp.value.a == (if swap then paths(n).value.b else paths(n).value.a)
        && sp.value.b == (if swap then paths(n).value.a else paths(n).value.b)
    ensures sp.None? ==>
      NoneSuits(PathsFrom(c, guardA, guardB, rng.stream, old(rng.pos)), IsClear(legs, guardA), PATH_ATTEMPTS + 1)
  {
    ghost var paths := PathsFrom(c, guardA, guardB, rng.stream, rng.pos);
    var drawn := DrawPath(c, guardA, guardB, legs, rng, paths);
    if drawn.None? { return None; }
    if legs > 1 || Disjoint(guardA, guardB) { SwapDistinct(drawn.value.a.Nodes(), drawn.value.b.Nodes()); }
    sp := if rttA < 0 || (rttB >= 0 && rttB < rttA) then Some(drawn.value.Swapped()) else drawn;
  }

  function LegNodes(legs: seq<Triple>): (r: seq<int>)
    ensures |r| == 3 * |legs|
  {
    if |legs| == 0 then [] else LegNodes(legs[..|legs| - 1]) + legs[|legs| - 1].Nodes()
  }

  ghost predicate GoodLeg(guardA: seq<int>, leg: Triple) {
    leg.entry in guardA && leg.mid !in guardA && leg.last !in guardA
  }

  /** The leg keeps off all nodes in use, and leaves guard set A to later legs. */
  predicate LegFits(used: seq<int>, guardA: seq<int>, t: Triple) {
    t.entry !in used && t.mid !in used && t.last !in used && t.mid !in guardA && t.last !in guardA
  }

  function IsFitting(used: seq<int>, guardA: seq<int>): SessionPath -> bool {
    (p: SessionPath) => LegFits(used, guardA, p.a)
  }

  /** One extra leg: session paths are drawn until the A half avoids every node in use and all of guard set A. */
  method BuildExtraLeg(c: Consensus, guardA: seq<int>, guardB: seq<int>, used: seq<int>, rng: Rng,
                       ghost paths: PathStream)
    returns (leg: Option<Triple>)
    requires Gives(paths, c, guardA, guardB, rng.stream, rng.pos)
    modifies rng
    ensures leg.Some? ==> GoodLeg(guardA, leg.value) && Distinct(leg.value.Nodes()) && Disjoint(leg.value.Nodes(), used)
    ensures if leg.None? then NoneSuits(paths, IsFitting(used, guardA), PATH_ATTEMPTS)
      else
        exists n: nat ::
          n < PATH_ATTEMPTS && IsFirst(paths, IsFitting(used, guardA), n) && paths(n).value.a == leg.value
    ensures rng.pos >= old(rng.pos)
  {
    ghost var pos, suits := rng.pos, IsFitting(used, guardA);
    for attempt := 0 to PATH_ATTEMPTS
      invariant rng.pos == pos + 6 * attempt && AllMiss(paths, suits, attempt)
    {
      var cand := NextPath(c, guardA, guardB, rng, paths, pos, attempt);
      if cand.None? {
        GivesUp(paths, suits, attempt, PATH_ATTEMPTS);
        return None;
      }
      var t := cand.value.a;
      if t.entry !in used && t.mid !in used && t.last !in used && t.mid !in guardA && t.last !in guardA {
        assert IsFirst(paths, suits, attempt);
        return Some(t);
      }
    }
    GivesUp(paths, suits, PATH_ATTEMPTS, PATH_ATTEMPTS);
    leg := None;
  }

  lemma AppendDistinct(used: seq<int>, nodes: seq<int>)
    requires Distinct(used) && Distinct(nodes) && Disjoint(nodes, used)
    ensures Distinct(used + nodes)
  {
    var s := used + nodes;
    forall i, j | 0 <= i < j < |s| ensures s[i] != s[j] {
      if i < |used| <= j { assert s[i] in used && s[j] in nodes; }
    }
  }

  /** Legs 1, 2, ..: with the session's six nodes all nodes of all legs are pairwise different. */
  method BuildExtraLegs(c: Consensus, guardA: seq<int>, guardB: seq<int>, sp: SessionPath, count: nat, rng: Rng)
    returns (legs: Option<seq<Triple>>)
    requires Distinct(sp.Nodes())
    modifies rng
    ensures legs.Some? && count > 0 ==> |legs.value| == count - 1
    ensures legs.Some? ==> Distinct(sp.Nodes() + LegNodes(legs.value))
    ensures legs.Some? ==> forall i :: 0 <= i < |legs.value| ==> GoodLeg(guardA, legs.value[i])
    ensures legs.None? ==> exists used: seq<int>, pos: nat ::
      && sp.Nodes() <= used && pos >= old(rng.pos)
      && NoneSuits(PathsFrom(c, guardA, guardB, rng.stream, pos), IsFitting(used, guardA), PATH_ATTEMPTS)
  {
    var done: seq<Triple>, used := [], sp.Nodes();
    assert sp.Nodes() + LegNodes([]) == sp.Nodes();
    for n := 1 to if count > 0 then count else 1
      invariant |done| == n - 1 && used == sp.Nodes() + LegNodes(done) && Distinct(used) && rng.pos >= old(rng.pos)
      invariant forall i :: 0 <= i < |done| ==> GoodLeg(guardA, done[i])
    {
      ghost var paths := PathsFrom(c, guardA, guardB, rng.stream, rng.pos);
      var leg := BuildExtraLeg(c, guardA, guardB, used, rng, paths);
      if leg.None? { return None; }
      AppendDistinct(used, leg.value.Nodes());
      assert (done + [leg.value])[..|done|] == done;
      assert sp.Nodes() + (LegNodes(done) + leg.value.Nodes()) == used + leg.value.Nodes();
      done, used := done + [leg.value], used + leg.value.Nodes();
    }
    legs := Some(done);
  }
}

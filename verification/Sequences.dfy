/** Facts about sequences that several components share. */
module Sequences {
  import opened Common

  /** The first position from i on whose element qualifies. */
  function FirstWhere<T>(ok: T -> bool, s: seq<T>, i: nat): (r: Option<nat>)
    requires i <= |s|
    ensures r.Some? ==> i <= r.value < |s| && ok(s[r.value]) && forall j :: i <= j < r.value ==> !ok(s[j])
    ensures r.None? ==> forall j :: i <= j < |s| ==> !ok(s[j])
    decreases |s| - i
  {
    if i == |s| then None else if ok(s[i]) then Some(i) else FirstWhere(ok, s, i + 1)
  }

  lemma FirstWhereSame<T>(ok: T -> bool, s: seq<T>, t: seq<T>)
    requires |s| == |t| && forall j :: 0 <= j < |s| ==> ok(s[j]) == ok(t[j])
    ensures FirstWhere(ok, s, 0) == FirstWhere(ok, t, 0)
  {
    var a, b := FirstWhere(ok, s, 0), FirstWhere(ok, t, 0);
    if a.Some? && b.Some? { assert a.value <= b.value <= a.value; }
  }

  /** f of every element. */
  function Map<T, U>(f: T -> U, s: seq<T>): (r: seq<U>)
    ensures |r| == |s|
  {
    seq(|s|, i requires 0 <= i < |s| => f(s[i]))
  }

  lemma MapSnoc<T, U>(f: T -> U, s: seq<T>, x: T)
    ensures Map(f, s + [x]) == Map(f, s) + [f(x)]
  {
    assert forall i :: 0 <= i < |s| ==> Map(f, s + [x])[i] == Map(f, s)[i];
  }

  /** The elements of s that satisfy keep, in their order in s. */
  function Filter<T>(keep: T -> bool, s: seq<T>): (r: seq<T>)
    ensures |r| <= |s|
  {
    if |s| == 0 then []
    else Filter(keep, s[..|s| - 1]) + if keep(s[|s| - 1]) then [s[|s| - 1]] else []
  }

  lemma FilterSnoc<T>(keep: T -> bool, s: seq<T>, x: T)
    ensures Filter(keep, s + [x]) == Filter(keep, s) + if keep(x) then [x] else []
  {
  }

  lemma {:induction false} FilterAppend<T>(keep: T -> bool, a: seq<T>, b: seq<T>)
    ensures Filter(keep, a + b) == Filter(keep, a) + Filter(keep, b)
  {
    if |b| == 0 {
      assert a + b == a;
    } else {
      var init, last := b[..|b| - 1], b[|b| - 1];
      assert a + b == (a + init) + [last];
      FilterAppend(keep, a, init);
      FilterSnoc(keep, a + init, last);
    }
  }

  /** Filtering a prefix gives a prefix of the filtered sequence. */
  lemma FilterPrefix<T>(keep: T -> bool, s: seq<T>, i: nat)
    requires i <= |s|
    ensures Filter(keep, s) == Filter(keep, s[..i]) + Filter(keep, s[i..])
    ensures |Filter(keep, s[..i])| <= |Filter(keep, s)|
  {
    assert s == s[..i] + s[i..];
    FilterAppend(keep, s[..i], s[i..]);
  }

  lemma {:induction false} FilterNone<T>(keep: T -> bool, s: seq<T>)
    requires forall i :: 0 <= i < |s| ==> !keep(s[i])
    ensures Filter(keep, s) == []
  {
    if |s| > 0 { FilterNone(keep, s[..|s| - 1]); }
  }

  /** A narrower filter does not notice that a wider one ran first. */
  lemma {:induction false} FilterFilter<T>(narrow: T -> bool, wide: T -> bool, s: seq<T>)
    requires forall x :: narrow(x) ==> wide(x)
    ensures Filter(narrow, Filter(wide, s)) == Filter(narrow, s)
  {
    if |s| > 0 {
      var init, last := s[..|s| - 1], s[|s| - 1];
      FilterFilter(narrow, wide, init);
      if wide(last) {
        FilterSnoc(narrow, Filter(wide, init), last);
      } else {
        assert Filter(wide, s) == Filter(wide, init);
      }
    }
  }

  lemma {:induction false} FilterDisjoint<T>(p: T -> bool, q: T -> bool, s: seq<T>)
    requires forall x :: p(x) ==> !q(x)
    ensures Filter(p, Filter(q, s)) == []
  {
    if |s| > 0 {
      var init, last := s[..|s| - 1], s[|s| - 1];
      FilterDisjoint(p, q, init);
      if q(last) {
        FilterSnoc(p, Filter(q, init), last);
      } else {
        assert Filter(q, s) == Filter(q, init);
      }
    }
  }

  lemma {:induction false} FilterCount<T>(keep: T -> bool, s: seq<T>, x: T)
    requires keep(x)
    ensures multiset(Filter(keep, s))[x] == multiset(s)[x]
  {
    if |s| > 0 {
      assert s == s[..|s| - 1] + [s[|s| - 1]];
      FilterCount(keep, s[..|s| - 1], x);
    }
  }

  /** sub can be obtained from s by deleting elements. */
  ghost predicate IsSubsequence<T>(sub: seq<T>, s: seq<T>) {
    if |sub| == 0 then true
    else if |s| == 0 then false
    else if sub[|sub| - 1] == s[|s| - 1] && IsSubsequence(sub[..|sub| - 1], s[..|s| - 1]) then true
    else IsSubsequence(sub, s[..|s| - 1])
  }

  lemma SubsequenceSnoc<T>(sub: seq<T>, s: seq<T>, x: T)
    requires IsSubsequence(sub, s)
    ensures IsSubsequence(sub, s + [x])
    ensures IsSubsequence(sub + [x], s + [x])
  {
  }

  lemma {:induction false} SubsequenceExtend<T>(sub: seq<T>, s: seq<T>, tail: seq<T>)
    requires IsSubsequence(sub, s)
    ensures IsSubsequence(sub, s + tail)
  {
    if |tail| == 0 {
      assert s + tail == s;
    } else {
      var init := tail[..|tail| - 1];
      SubsequenceExtend(sub, s, init);
      SubsequenceSnoc(sub, s + init, tail[|tail| - 1]);
      assert s + tail == (s + init) + [tail[|tail| - 1]];
    }
  }

  lemma Regroup<T>(a: seq<T>, b: seq<T>, c: seq<T>)
    ensures a + (b + c) == (a + b) + c
  {
  }

  lemma CancelPrefix<T>(a: seq<T>, b: seq<T>, c: seq<T>)
    requires a + b == a + c
    ensures b == c
  {
    assert b == (a + b)[|a|..] && c == (a + c)[|a|..];
  }

  lemma DropLast<T>(s: seq<T>, x: T)
    ensures (s + [x])[..|s|] == s
  {
  }

  lemma MoveOne<T>(a: seq<T>, b: seq<T>)
    requires |b| > 0
    ensures a + b == (a + [b[0]]) + b[1..]
  {
  }

  ghost predicate Distinct<T>(s: seq<T>) {
    forall i, j :: 0 <= i < j < |s| ==> s[i] != s[j]
  }

  /** Dropping an element of a sequence without repetitions, the last one taking its place. */
  lemma {:induction false} DropBySwap<T>(s: seq<T>, p: nat)
    requires Distinct(s) && p < |s|
    ensures var rest := s[p := s[|s| - 1]][..|s| - 1];
      forall i :: 0 <= i < |rest| ==> rest[i] == s[if i == p then |s| - 1 else i] && rest[i] != s[p]
  {
  }

  lemma SwapDistinct<T>(a: seq<T>, b: seq<T>)
    requires Distinct(a + b)
    ensures Distinct(b + a)
  {
    var s, t := a + b, b + a;
    forall i, j | 0 <= i < j < |t| ensures t[i] != t[j] {
      assert t[i] == if i < |b| then s[|a| + i] else s[i - |b|];
      assert t[j] == if j < |b| then s[|a| + j] else s[j - |b|];
    }
  }

  /** The elements of a sequence without repetitions are as many as its positions. */
  lemma {:induction false} DistinctCard<T>(s: seq<T>)
    requires Distinct(s)
    ensures |set x | x in s| == |s|
  {
    if |s| == 0 {
      assert (set x | x in s) == {};
    } else {
      var init, last := s[..|s| - 1], s[|s| - 1];
      DistinctCard(init);
      assert (set x | x in s) == (set x | x in init) + {last};
    }
  }

  /** The numbers below n. */
  function Below(n: nat): (r: set<int>)
    ensures forall i :: i in r <==> 0 <= i < n
    ensures |r| == n
  {
    if n == 0 then {} else Below(n - 1) + {n - 1}
  }

  lemma SubsetCard<T>(a: set<T>, b: set<T>)
    requires a <= b
    ensures |a| <= |b|
    ensures |a| == |b| ==> a == b
  {
    assert b == a + (b - a);
  }

  /** Pigeonhole: distinct numbers below n are at most n many. */
  lemma DistinctBounded(s: seq<int>, n: nat)
    requires Distinct(s)
    requires forall i :: 0 <= i < |s| ==> 0 <= s[i] < n
    ensures |s| <= n
  {
    DistinctCard(s);
    SubsetCard((set x | x in s), Below(n));
  }

  /** The sum of the first n numbers. */
  function SumTo(counts: seq<nat>, w: nat): nat
    requires w <= |counts|
  {
    if w == 0 then 0 else SumTo(counts, w - 1) + counts[w - 1]
  }

  lemma {:induction false} SumBump(counts: seq<nat>, w: nat, k: nat)
    requires w < |counts| && k <= |counts|
    ensures SumTo(counts[w := counts[w] + 1], k) == SumTo(counts, k) + if w < k then 1 else 0
  {
    if k > 0 { SumBump(counts, w, k - 1); }
  }

  lemma {:induction false} SumMonotone(counts: seq<nat>, v: nat, w: nat)
    requires v <= w <= |counts|
    ensures SumTo(counts, v) <= SumTo(counts, w)
  {
    if v < w { SumMonotone(counts, v, w - 1); }
  }

  lemma {:induction false} SumZero(counts: seq<nat>, w: nat)
    requires w <= |counts| && forall v :: 0 <= v < |counts| ==> counts[v] == 0
    ensures SumTo(counts, w) == 0
  {
    if w > 0 { SumZero(counts, w - 1); }
  }

  /** What is left of s after these steps. */
  function Fold<S, T>(f: (S, T) -> S, s: S, steps: seq<T>): S {
    if |steps| == 0 then s else f(Fold(f, s, steps[..|steps| - 1]), steps[|steps| - 1])
  }

  lemma {:induction false} FoldFirst<S, T>(f: (S, T) -> S, s: S, first: T, steps: seq<T>)
    ensures Fold(f, s, [first] + steps) == Fold(f, f(s, first), steps)
  {
    var all := [first] + steps;
    if |steps| == 0 {
      assert all[..0] == [] && Fold(f, s, all[..0]) == s;
    } else {
      FoldFirst(f, s, first, steps[..|steps| - 1]);
      assert all[..|steps|] == [first] + steps[..|steps| - 1];
    }
  }

  lemma FoldAround<S, T>(f: (S, T) -> S, s: S, first: T, steps: seq<T>, last: T)
    ensures Fold(f, s, [first] + steps + [last]) == f(Fold(f, f(s, first), steps), last)
  {
    FoldFirst(f, s, first, steps);
    assert ([first] + steps + [last])[..|steps| + 1] == [first] + steps;
  }
}

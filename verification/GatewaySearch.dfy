/**
 What the gateway's search leaves behind: the table as the other threads made it, but for the one slot it
 found, which is pinned once more. A search is one snapshot and one confirmation of the threads' steps, with
 the steps of other threads in between.
 */
module GatewaySearch {
  import opened Common
  import opened Bytes
  import opened Crypto
  import opened Sequences
  import opened Gateway
  import GatewayRuns
  import Sphinx

  // ---------------------------------------------------------------- the table after a search

  /** u is what the other threads can have made of t, at some of the moments when the lock was free. */
  ghost predicate LeftByOthers(env: Others, cands: seq<Candidate>, t: seq<Slot>, u: seq<Slot>)
    decreases |cands|
  {
    u == t ||
    (|cands| > 0 && (LeftByOthers(env, cands[1..], t, u) || LeftByOthers(env, cands[1..], env(cands, t), u)))
  }

  /**
   Session i of the table may send this: cover with a return header, a SETUP that a partner's key completes, or
   a request of a session that is set up, from the session's own address.
   */
  ghost predicate MaySend(c: Suite, t: seq<Slot>, i: nat, flags: byte, plain: Octets)
    requires i < |t|
  {
    if flags % 2 == 1 then |plain| >= 174
    else if |plain| > 0 && plain[0] == 0 then
      |plain| >= 113 && exists b: nat :: b < |t| && b != i && IsPartner(c, t[b], t[i].key, plain[97..113])
    else
      && |plain| > 245 && plain[0] == 4 && 1 <= plain[245] <= 6
      && t[i].setupDone && plain[65] == 127 && plain[69] == t[i].mncAddr[4] && plain[70] == t[i].mncAddr[5]
  }

  /** A receiving session whose key completes the tag: HMAC under the hash of both keys over "binding". */
  ghost predicate IsPartner(c: Suite, b: Slot, aKey: Key, tag: Octets) {
    b.inUse && b.role == ROLE_B && c.hmac(c.hmac(aKey, b.key), [98, 105, 110, 100, 105, 110, 103])[..16] == tag
  }

  /** The checks of the search, before and under the lock, amount to that. */
  lemma {:induction false} ChecksMeanMaySend(c: Suite, t: seq<Slot>, i: nat, flags: byte, plain: Octets)
    requires i < |t|
    ensures Plausible(flags, plain) && Admits(c, t, i, flags, plain) <==> MaySend(c, t, i, flags, plain)
  {
    if !IsDummy(flags) && |plain| >= 113 && plain[0] == 0 {
      var want := plain[97..113];
      var b := FirstVerified(c, t, t[i].key, want, i, 0);
      forall j | 0 <= j < |t|
        ensures Verifies(c, t, t[i].key, want, i, j) <==> j != i && IsPartner(c, t[j], t[i].key, want)
      {}
      if b.Some? { assert IsPartner(c, t[b.value], t[i].key, want); }
    }
  }

  /** What a search may leave: nothing of its own if nothing was found, else one slot active and pinned once more. */
  ghost predicate Leaves(c: Suite, section: Octets, cands: seq<Candidate>, found: Found, left: seq<Slot>,
                         u: seq<Slot>, now: nat) {
    match found
    case NotFound => u == left
    case Found(i, flags, payload) =>
      && i < |left| && u == left[i := left[i].(lastActive := now, inFlight := left[i].inFlight + 1)]
      && left[i].inUse && Candidate(i, left[i].key) in cands && MaySend(c, left, i, flags, payload)
      && |section| == Sphinx.PAYLOAD_SECTION_SIZE
      && Sphinx.Unwrap(c, section, left[i].key) == Some((flags, payload))
  }

  /**
   A search changes nothing of the table that the others left but the slot it found: that one is in use under
   a key from the snapshot that opens the packet, may send it as things stand, and is now active and pinned
   once more than before.
   */
  lemma {:induction false} FindPinsOnce(c: Suite, env: Others, cands: seq<Candidate>, t: seq<Slot>, section: Octets,
                                        now: nat)
    returns (left: seq<Slot>)
    requires KeepsLength(env) && |section| == Sphinx.PAYLOAD_SECTION_SIZE
    requires forall n :: 0 <= n < |cands| ==> cands[n].idx < |t|
    ensures LeftByOthers(env, cands, t, left)
    ensures var (found, u) := Search(c, env, cands, t, section, now); Leaves(c, section, cands, found, left, u, now)
    decreases |cands|
  {
    if |cands| == 0 {
      left := t;
    } else {
      var k, plain := cands[0], Sphinx.Unwrap(c, section, cands[0].key);
      if plain.None? || !Plausible(plain.value.0, plain.value.1) {
        left := FindPinsOnce(c, env, cands[1..], t, section, now);
      } else {
        var t' := env(cands, t);
        if t'[k.idx].inUse && t'[k.idx].key == k.key && Admits(c, t', k.idx, plain.value.0, plain.value.1) {
          left := t';
          ChecksMeanMaySend(c, t', k.idx, plain.value.0, plain.value.1);
          assert LeftByOthers(env, cands[1..], t', t');
        } else {
          left := FindPinsOnce(c, env, cands[1..], t', section, now);
        }
      }
    }
  }

  // ---------------------------------------------------------------- as steps of the threads

  /** The thread that takes a step; allocations belong to none of them. */
  function ThreadOf(step: GatewayRuns.Step): Option<nat> {
    match step
    case Extend(_, _, _, _) => None
    case Snapshot(t, _) => Some(t)
    case Confirm(t, _, _) => Some(t)
    case PopAged(t, _, _) => Some(t)
    case Store(t, _) => Some(t)
    case Refresh(t, _, _) => Some(t)
    case Reply(t, _, _, _) => Some(t)
    case CoverPop(t) => Some(t)
    case FindB(t) => Some(t)
    case NoPartner(t) => Some(t)
    case Compare(t) => Some(t)
    case Commit(t) => Some(t)
    case UnpinB(t) => Some(t)
    case Finish(t) => Some(t)
  }

  ghost function Stepper(c: Suite): (GatewayRuns.System, GatewayRuns.Step) -> GatewayRuns.System {
    (sys, step) => GatewayRuns.Apply(c, sys, step)
  }

  ghost function After(c: Suite, sys: GatewayRuns.System, steps: seq<GatewayRuns.Step>): GatewayRuns.System {
    Fold(Stepper(c), sys, steps)
  }

  ghost predicate ByOthers(steps: seq<GatewayRuns.Step>, th: nat) {
    forall n :: 0 <= n < |steps| ==> ThreadOf(steps[n]) != Some(th)
  }

  lemma {:induction false} StepLeavesThread(c: Suite, sys: GatewayRuns.System, step: GatewayRuns.Step, th: nat)
    requires GatewayRuns.Inv(c, sys) && th < |sys.threads| && ThreadOf(step) != Some(th)
    ensures var next := GatewayRuns.Apply(c, sys, step);
      GatewayRuns.Inv(c, next) && |next.threads| == |sys.threads| && next.threads[th] == sys.threads[th]
      && |next.slots| == |sys.slots|
  {
    GatewayRuns.StepKeepsInv(c, sys, step);
  }

  lemma {:induction false} OthersLeaveThread(c: Suite, sys: GatewayRuns.System, steps: seq<GatewayRuns.Step>, th: nat)
    requires GatewayRuns.Inv(c, sys) && th < |sys.threads| && ByOthers(steps, th)
    ensures var next := After(c, sys, steps);
      GatewayRuns.Inv(c, next) && |next.threads| == |sys.threads| && next.threads[th] == sys.threads[th]
      && |next.slots| == |sys.slots|
  {
    if |steps| > 0 {
      OthersLeaveThread(c, sys, steps[..|steps| - 1], th);
      StepLeavesThread(c, After(c, sys, steps[..|steps| - 1]), steps[|steps| - 1], th);
    }
  }

  lemma {:induction false} FromSnapshot(t: seq<Slot>, hint: Octets, k: Candidate)
    requires k in CandidatesFrom(t, hint, 0)
    ensures k.idx < |t| && t[k.idx].inUse && t[k.idx].role == ROLE_A && t[k.idx].key == k.key
  {
    var n: nat :| n < |CandidatesFrom(t, hint, 0)| && CandidatesFrom(t, hint, 0)[n] == k;
    CandidateFromTable(t, hint, 0, n);
  }

  /**
   A search that finds a session is a run of the threads' steps: the snapshot of that session, whatever the
   other threads did, and a confirmation. If their steps made the table what the search found it to be under
   the lock, the run ends with the search's table and with the searching thread holding the session.
   */
  lemma {:induction false} FindIsSnapshotAndConfirm(c: Suite, env: Others, sys: GatewayRuns.System, th: nat,
                                                    section: Octets, now: nat, left: seq<Slot>,
                                                    mid: seq<GatewayRuns.Step>)
    requires GatewayRuns.Inv(c, sys) && th < |sys.threads| && sys.threads[th].Idle?
    requires KeepsLength(env) && |section| == Sphinx.PAYLOAD_SECTION_SIZE && ByOthers(mid, th)
    requires var cands := CandidatesFrom(sys.slots, HintOf(section), 0);
      var (found, u) := Search(c, env, cands, sys.slots, section, now);
      && found.Found? && Leaves(c, section, cands, found, left, u, now)
      && After(c, GatewayRuns.Apply(c, sys, GatewayRuns.Snapshot(th, found.idx)), mid).slots == left
    ensures var (found, u) := Search(c, env, CandidatesFrom(sys.slots, HintOf(section), 0), sys.slots, section, now);
      var end := After(c, sys, [GatewayRuns.Snapshot(th, found.idx)] + mid + [GatewayRuns.Confirm(th, now, true)]);
      && end.slots == u && th < |end.threads| && end.threads[th].HasA?
      && end.threads[th].a == found.idx && end.threads[th].aKey == u[found.idx].key
  {
    var cands := CandidatesFrom(sys.slots, HintOf(section), 0);
    var (found, u) := Search(c, env, cands, sys.slots, section, now);
    FromSnapshot(sys.slots, HintOf(section), Candidate(found.idx, left[found.idx].key));
    RunPins(c, sys, th, found.idx, mid, now);
  }

  lemma {:induction false} RunPins(c: Suite, sys: GatewayRuns.System, th: nat, i: nat, mid: seq<GatewayRuns.Step>,
                                   now: nat)
    requires GatewayRuns.Inv(c, sys) && th < |sys.threads| && sys.threads[th].Idle? && ByOthers(mid, th)
    requires i < |sys.slots| && sys.slots[i].inUse && sys.slots[i].role == ROLE_A
    requires var left := After(c, GatewayRuns.Apply(c, sys, GatewayRuns.Snapshot(th, i)), mid).slots;
      i < |left| && left[i].inUse && left[i].key == sys.slots[i].key
    ensures var left := After(c, GatewayRuns.Apply(c, sys, GatewayRuns.Snapshot(th, i)), mid).slots;
      var end := After(c, sys, [GatewayRuns.Snapshot(th, i)] + mid + [GatewayRuns.Confirm(th, now, true)]);
      && end.slots == left[i := left[i].(lastActive := now, inFlight := left[i].inFlight + 1)]
      && th < |end.threads| && end.threads[th].HasA? && end.threads[th].a == i
      && end.threads[th].aKey == sys.slots[i].key
  {
    var snap := GatewayRuns.Apply(c, sys, GatewayRuns.Snapshot(th, i));
    assert snap.threads[th] == GatewayRuns.Snapped(i, sys.slots[i].key);
    GatewayRuns.StepKeepsInv(c, sys, GatewayRuns.Snapshot(th, i));
    OthersLeaveThread(c, snap, mid, th);
    FoldAround(Stepper(c), sys, GatewayRuns.Snapshot(th, i), mid, GatewayRuns.Confirm(th, now, true));
    ConfirmPins(c, After(c, snap, mid), th, i, now);
  }

  lemma {:induction false} ConfirmPins(c: Suite, sys: GatewayRuns.System, th: nat, i: nat, now: nat)
    requires GatewayRuns.Inv(c, sys) && th < |sys.threads| && i < |sys.slots| && sys.slots[i].inUse
    requires sys.threads[th] == GatewayRuns.Snapped(i, sys.slots[i].key)
    ensures var end := GatewayRuns.Apply(c, sys, GatewayRuns.Confirm(th, now, true));
      && end.slots == sys.slots[i := sys.slots[i].(lastActive := now, inFlight := sys.slots[i].inFlight + 1)]
      && |end.threads| == |sys.threads| && end.threads[th].HasA? && end.threads[th].a == i
      && end.threads[th].aKey == sys.slots[i].key
  {
  }
}

/**
 Runs that lose a packet: they show that the tolerance for reordering is exact for up to four packets
 in hand, and that the mark can end at a counter that no packet had. All are runs of the whole table
 with a single session, in its first slot.
 */
module MixLimits {
  import opened Common
  import opened Bytes
  import opened Crypto
  import opened Sequences
  import opened MixSessions
  import opened MixSessionRuns
  import opened MixReordering
  import opened MixReach

  /** Where it happens: the hints, the size of the table, and the session's keys and seed. */
  datatype World = World(derive: Derive, slots: nat, keys: Keys, seed: Key)

  ghost predicate Possible(w: World) { w.slots > 0 && HintsDiffer(w.derive, iset{w.seed}) }

  /** The session in numbers: its packets, its mark, and how many handles there are. */
  datatype Num = Num(tr: Trail, mark: int, handles: nat)

  datatype Op = Look(counter: nat) | Settle(place: nat)

  const FRESH := Num(Trail([], []), -1, 0)

  /** The table holds the session as these numbers say. */
  ghost predicate Working(w: World, sys: System, num: Num) {
    match num
    case Num(tr, mark, handles) =>
      && Inv(w.derive, sys) && |sys.table| == w.slots > 0 && |sys.handles| == handles
      && (forall j :: 0 < j < |sys.table| ==> !sys.table[j].inUse) && mark < HINT_COVER_COUNTER_BASE
      && (var s := sys.table[0];
          && s.inUse && s.generation == 1 && s.keys == w.keys && s.seed == w.seed && |s.windows| == 2
          && MarkOf(s.windows[0].high) == mark && s.windows[1].base == HINT_COVER_COUNTER_BASE)
      && (forall p :: 0 <= p < |tr.waiting| ==> TicketInv(sys, 0, tr.waiting[p]))
  }

  /** The mark that a confirmation leaves. */
  function MarkAfter(mark: int, t: Ticket): int {
    Max(mark, BaseOf(mark) + t.counter - BaseOf(t.markThen))
  }

  function NumAfter(num: Num, op: Op): Num {
    match op
    case Look(c) =>
      Num(Trail(num.tr.arrivals + [c], num.tr.waiting + [Ticket(num.handles, c, num.mark)]), num.mark, num.handles + 1)
    case Settle(p) =>
      if p < |num.tr.waiting| then
        Num(num.tr.(waiting := Without(num.tr.waiting, p)), MarkAfter(num.mark, num.tr.waiting[p]), num.handles)
      else num
  }

  /** A lookup that finds, with a hand free for it; a confirmation of the packet at that place. */
  predicate CanDo(num: Num, op: Op, k: nat) {
    match op
    case Look(c) => |num.tr.waiting| < k && InReach(num.mark, c) && c < HINT_COVER_COUNTER_BASE
    case Settle(p) =>
      && p < |num.tr.waiting| && PlaceOf(num.tr.waiting, num.tr.waiting[p].handle) == Some(p)
      && MarkAfter(num.mark, num.tr.waiting[p]) < HINT_COVER_COUNTER_BASE
  }

  function StepFor(w: World, num: Num, op: Op): Step {
    match op
    case Look(c) => Find(w.derive(w.seed, c), 0, Match(0, 1, 0, Max(0, c - BaseOf(num.mark)), w.keys))
    case Settle(p) => Confirm(if p < |num.tr.waiting| then num.tr.waiting[p].handle else 0)
  }

  lemma WorkingDistinguishes(w: World, sys: System, num: Num)
    requires Possible(w) && Working(w, sys, num)
    ensures TableValid(w.derive, sys.table) && HintsDistinguish(w.derive, sys.table)
    ensures sys.table[0].windows[0].base == BaseOf(num.mark)
  {
    TableIsValid(w.derive, sys);
    WindowOf(w.derive, sys, 0);
    assert SeedsOf(sys.table) <= iset{w.seed};
  }

  lemma {:induction false} LookWorks(w: World, sys: System, num: Num, c: nat, k: nat)
    requires Possible(w) && Working(w, sys, num) && CanDo(num, Look(c), k)
    ensures var step := StepFor(w, num, Look(c));
      && Working(w, Apply(w.derive, sys, step), NumAfter(num, Look(c)))
      && Orderly(w.derive, sys, 0, w.seed, num.tr, step, k)
      && Follow(w.derive, sys, 0, w.seed, num.tr, step) == NumAfter(num, Look(c)).tr
  {
    var step, num' := StepFor(w, num, Look(c)), NumAfter(num, Look(c));
    WorkingDistinguishes(w, sys, num);
    FoundAtPlace(w.derive, sys.table, 0, c);
    assert w.seed in SeedsOf(sys.table);
    assert IsPacket(w.derive, w.seed, step) && CounterOf(w.derive, w.seed, step) == c;
    StepKeepsInv(w.derive, sys, step);
    var sys' := Apply(w.derive, sys, step);
    forall p | 0 <= p < |num'.tr.waiting| ensures TicketInv(sys', 0, num'.tr.waiting[p]) {
      if p < |num.tr.waiting| { assert TicketInv(sys, 0, num.tr.waiting[p]); }
    }
  }

  lemma {:induction false} SettleWorks(w: World, sys: System, num: Num, p: nat, k: nat)
    requires Possible(w) && Working(w, sys, num) && CanDo(num, Settle(p), k)
    ensures var step := StepFor(w, num, Settle(p));
      && Working(w, Apply(w.derive, sys, step), NumAfter(num, Settle(p)))
      && Orderly(w.derive, sys, 0, w.seed, num.tr, step, k)
      && Follow(w.derive, sys, 0, w.seed, num.tr, step) == NumAfter(num, Settle(p)).tr
  {
    var step, t, num' := StepFor(w, num, Settle(p)), num.tr.waiting[p], NumAfter(num, Settle(p));
    assert TicketInv(sys, 0, t);
    WorkingDistinguishes(w, sys, num);
    ConfirmRecords(w.derive, sys, t.handle);
    StepKeepsInv(w.derive, sys, step);
    FewerWaiting(num.tr.waiting, p);
    TicketsStay(w.derive, sys, Apply(w.derive, sys, step), 0, num'.tr.waiting);
  }

  /** A run in which the session comes to these numbers, with at most k packets in hand at any time. */
  ghost predicate Plays(w: World, steps: seq<Step>, num: Num, k: nat) {
    match num
    case Num(tr, _, _) =>
      && w.slots > 0 && |steps| > 0 && steps[0] == Alloc(0, 0, 0, w.keys, w.seed)
      && Watched(w.derive, w.slots, steps, 0, 0, k)
      && TrailOf(w.derive, w.slots, steps, 0, 0) == tr && Working(w, Run(w.derive, w.slots, steps), num)
  }

  ghost predicate Playable(w: World, num: Num, k: nat) { exists steps :: Plays(w, steps, num, k) }

  lemma WatchedOn(w: World, steps: seq<Step>, step: Step, k: nat)
    requires |steps| > 0 && steps[0].Alloc? && Watched(w.derive, w.slots, steps, 0, 0, k)
    requires Orderly(w.derive, Run(w.derive, w.slots, steps), 0, steps[0].seed, TrailOf(w.derive, w.slots, steps, 0, 0),
                     step, k)
    ensures Watched(w.derive, w.slots, steps + [step], 0, 0, k)
    ensures TrailOf(w.derive, w.slots, steps + [step], 0, 0)
         == Follow(w.derive, Run(w.derive, w.slots, steps), 0, steps[0].seed, TrailOf(w.derive, w.slots, steps, 0, 0),
                   step)
    ensures Run(w.derive, w.slots, steps + [step]) == Apply(w.derive, Run(w.derive, w.slots, steps), step)
  {
    assert (steps + [step])[..|steps|] == steps;
  }

  lemma {:induction false} OpWorks(w: World, sys: System, num: Num, op: Op, k: nat)
    requires Possible(w) && Working(w, sys, num) && CanDo(num, op, k)
    ensures Working(w, Apply(w.derive, sys, StepFor(w, num, op)), NumAfter(num, op))
    ensures Orderly(w.derive, sys, 0, w.seed, num.tr, StepFor(w, num, op), k)
    ensures Follow(w.derive, sys, 0, w.seed, num.tr, StepFor(w, num, op)) == NumAfter(num, op).tr
  {
    match op {
      case Look(c) => LookWorks(w, sys, num, c, k);
      case Settle(p) => SettleWorks(w, sys, num, p, k);
    }
  }

  lemma {:induction false} PlaysOn(w: World, steps: seq<Step>, num: Num, op: Op, k: nat)
    requires Possible(w) && Plays(w, steps, num, k) && CanDo(num, op, k)
    ensures Plays(w, steps + [StepFor(w, num, op)], NumAfter(num, op), k)
  {
    OpWorks(w, Run(w.derive, w.slots, steps), num, op, k);
    WatchedOn(w, steps, StepFor(w, num, op), k);
  }

  lemma {:induction false} OnePlays(w: World, num: Num, op: Op, k: nat)
    requires Possible(w) && Playable(w, num, k) && CanDo(num, op, k)
    ensures Playable(w, NumAfter(num, op), k)
  {
    var steps :| Plays(w, steps, num, k);
    PlaysOn(w, steps, num, op, k);
  }

  lemma {:induction false} FreshIsPlayable(w: World, k: nat)
    requires Possible(w)
    ensures Playable(w, FRESH, k)
  {
    var steps := [Alloc(0, 0, 0, w.keys, w.seed)];
    RunKeepsInv(w.derive, w.slots, steps);
    assert steps[..0] == [] && Run(w.derive, w.slots, steps[..0]) == Start(w.slots);
    assert IsFirstFree(Start(w.slots).table, 0);
    assert Plays(w, steps, FRESH, k);
  }

  // ---------------------------------------------------------------- the numbers alone

  predicate CanDoAll(ops: seq<Op>, k: nat) {
    |ops| == 0 || (CanDoAll(ops[..|ops| - 1], k) && CanDo(Numbers(ops[..|ops| - 1]), ops[|ops| - 1], k))
  }

  function Numbers(ops: seq<Op>): Num {
    if |ops| == 0 then FRESH else NumAfter(Numbers(ops[..|ops| - 1]), ops[|ops| - 1])
  }

  /** Some lookups and confirmations lead to these numbers. */
  ghost predicate Reaches(num: Num, k: nat) {
    match num case Num(_, _, _) => exists ops: seq<Op> :: CanDoAll(ops, k) && Numbers(ops) == num
  }

  lemma Do(num: Num, op: Op, k: nat)
    requires Reaches(num, k) && CanDo(num, op, k)
    ensures Reaches(NumAfter(num, op), k)
  {
    var ops: seq<Op> :| CanDoAll(ops, k) && Numbers(ops) == num;
    assert (ops + [op])[..|ops|] == ops;
    assert CanDoAll(ops + [op], k) && Numbers(ops + [op]) == NumAfter(num, op);
  }

  lemma FreshReaches(k: nat)
    ensures Reaches(FRESH, k)
  {
    assert CanDoAll([], k) && Numbers([]) == FRESH;
  }

  lemma {:induction false} AllPlay(w: World, ops: seq<Op>, k: nat)
    requires Possible(w) && CanDoAll(ops, k)
    ensures Playable(w, Numbers(ops), k)
  {
    if |ops| == 0 {
      FreshIsPlayable(w, k);
    } else {
      AllPlay(w, ops[..|ops| - 1], k);
      OnePlays(w, Numbers(ops[..|ops| - 1]), ops[|ops| - 1], k);
    }
  }

  /** The counters from c on. */
  function From(c: nat, m: nat): (r: seq<nat>)
    ensures |r| == m
  {
    seq(m, i requires 0 <= i < m => c + i)
  }

  /** After m packets from c on, in order, each confirmed at once while those in hand stay there. */
  function InOrder(num: Num, c: nat, m: nat): Num {
    Num(Trail(num.tr.arrivals + From(c, m), num.tr.waiting), if m == 0 then num.mark else c + m - 1, num.handles + m)
  }

  predicate OldHandles(num: Num) { forall p :: 0 <= p < |num.tr.waiting| ==> num.tr.waiting[p].handle < num.handles }

  /** After one more packet, confirmed at once. */
  function Passed(num: Num, c: nat): Num {
    Num(Trail(num.tr.arrivals + [c], num.tr.waiting), Max(num.mark, c), num.handles + 1)
  }

  lemma PassingWorks(num: Num, c: nat, k: nat)
    requires OldHandles(num) && |num.tr.waiting| < k && InReach(num.mark, c)
    requires Max(num.mark, c) < HINT_COVER_COUNTER_BASE
    ensures CanDo(num, Look(c), k) && CanDo(NumAfter(num, Look(c)), Settle(|num.tr.waiting|), k)
    ensures NumAfter(NumAfter(num, Look(c)), Settle(|num.tr.waiting|)) == Passed(num, c)
  {
    var looked, p := NumAfter(num, Look(c)), |num.tr.waiting|;
    assert looked.tr.waiting[p].handle == num.handles;
    assert Without(looked.tr.waiting, p) == num.tr.waiting;
  }

  lemma Pass(num: Num, c: nat, k: nat)
    requires Reaches(num, k) && OldHandles(num) && |num.tr.waiting| < k
    requires InReach(num.mark, c) && Max(num.mark, c) < HINT_COVER_COUNTER_BASE
    ensures Reaches(Passed(num, c), k) && OldHandles(Passed(num, c))
  {
    PassingWorks(num, c, k);
    Do(num, Look(c), k);
    Do(NumAfter(num, Look(c)), Settle(|num.tr.waiting|), k);
  }

  lemma InOrderAddsUp(num: Num, c: nat, m: nat)
    ensures InOrder(num, c, 0) == num
    ensures m > 0 && num.mark < c ==> Passed(InOrder(num, c, m - 1), c + m - 1) == InOrder(num, c, m)
  {
    assert num.tr.arrivals + From(c, 0) == num.tr.arrivals;
    if m > 0 {
      assert From(c, m) == From(c, m - 1) + [c + m - 1];
      Regroup(num.tr.arrivals, From(c, m - 1), [c + m - 1]);
    }
  }

  lemma {:induction false} ManyInOrder(num: Num, c: nat, m: nat, k: nat)
    requires Reaches(num, k) && OldHandles(num) && |num.tr.waiting| < k
    requires num.mark < c <= Max(31, num.mark) + 32 && c + m < HINT_COVER_COUNTER_BASE
    ensures Reaches(InOrder(num, c, m), k)
  {
    InOrderAddsUp(num, c, m);
    if m > 0 {
      ManyInOrder(num, c, m - 1, k);
      Pass(InOrder(num, c, m - 1), c + m - 1, k);
    }
  }

  // ---------------------------------------------------------------- losing a packet

  /** If the last step looks up a packet of the followed session, it is found. */
  ghost predicate LastIsFound(derive: Derive, slots: nat, steps: seq<Step>, birth: nat) {
    birth + 1 < |steps| && steps[birth].Alloc? && IsPacket(derive, steps[birth].seed, steps[|steps| - 1]) ==>
      !IsMissing(Run(derive, slots, steps[..|steps| - 1]).table, steps[|steps| - 1].hint)
  }

  /** A session with displacements of at most r and at most k packets in hand finds the last one. */
  ghost predicate NotLost(derive: Derive, slots: nat, steps: seq<Step>, birth: nat, i: nat, r: nat, k: nat) {
    Followed(derive, slots, steps, birth, i, r, k) ==> LastIsFound(derive, slots, steps, birth)
  }

  /** Packets that come late by at most r also come late by at most a larger r. */
  lemma WiderOrder(arrivals: seq<nat>, r: nat, wider: nat)
    requires NearlyInOrder(arrivals, r) && r <= wider
    ensures NearlyInOrder(arrivals, wider)
  {
  }

  /** The numbers leave a packet out of reach that may still come, displaced by at most r. */
  ghost predicate Losing(num: Num, late: nat, r: nat, k: nat) {
    match num
    case Num(tr, mark, _) =>
      && Reaches(num, k) && |tr.waiting| < k
      && !InReach(mark, late) && late < HINT_COVER_COUNTER_BASE && NearlyInOrder(tr.arrivals + [late], r)
  }

  /** A run loses it. */
  lemma {:induction false} LosesPacket(w: World, num: Num, late: nat, far: nat, r: nat, k: nat)
    returns (steps: seq<Step>)
    requires Possible(w) && Losing(num, late, far, k) && far <= r
    ensures !NotLost(w.derive, w.slots, steps, 0, 0, r, k)
  {
    WiderOrder(num.tr.arrivals + [late], far, r);
    var ops: seq<Op> :| CanDoAll(ops, k) && Numbers(ops) == num;
    AllPlay(w, ops, k);
    steps := PlayedOut(w, num, late, r, k);
  }

  lemma {:induction false} PlayedOut(w: World, num: Num, late: nat, r: nat, k: nat) returns (steps: seq<Step>)
    requires Possible(w) && Playable(w, num, k) && |num.tr.waiting| < k
    requires !InReach(num.mark, late) && late < HINT_COVER_COUNTER_BASE && NearlyInOrder(num.tr.arrivals + [late], r)
    ensures !NotLost(w.derive, w.slots, steps, 0, 0, r, k)
  {
    var before :| Plays(w, before, num, k);
    var sys := Run(w.derive, w.slots, before);
    var step := Find(w.derive(w.seed, late), 0, Match(0, 1, 0, 0, w.keys));
    WorkingDistinguishes(w, sys, num);
    assert w.seed in SeedsOf(sys.table);
    assert IsPacket(w.derive, w.seed, step) && CounterOf(w.derive, w.seed, step) == late;
    MissingIffOutOfReach(w.derive, sys, 0, step);
    WatchedOn(w, before, step, k);
    steps := before + [step];
    assert steps[..|steps| - 1] == before;
  }

  /** One packet more in hand. */
  function Taken(num: Num, c: nat): Num {
    Num(Trail(num.tr.arrivals + [c], num.tr.waiting + [Ticket(num.handles, c, num.mark)]), num.mark, num.handles + 1)
  }

  lemma Take(num: Num, c: nat, k: nat)
    requires Reaches(num, k) && OldHandles(num) && |num.tr.waiting| < k && InReach(num.mark, c)
    requires c < HINT_COVER_COUNTER_BASE
    ensures Reaches(Taken(num, c), k) && OldHandles(Taken(num, c))
  {
    Do(num, Look(c), k);
  }

  /** The packet that has been in hand for longest is confirmed. */
  function Dropped(num: Num): Num
    requires |num.tr.waiting| > 0
  {
    Num(Trail(num.tr.arrivals, num.tr.waiting[1..]), MarkAfter(num.mark, num.tr.waiting[0]), num.handles)
  }

  lemma Drop(num: Num, k: nat)
    requires Reaches(num, k) && OldHandles(num) && |num.tr.waiting| > 0
    requires MarkAfter(num.mark, num.tr.waiting[0]) < HINT_COVER_COUNTER_BASE
    ensures Reaches(Dropped(num), k) && OldHandles(Dropped(num))
  {
    assert Without(num.tr.waiting, 0) == num.tr.waiting[1..];
    Do(num, Settle(0), k);
  }

  /** The oldest packet in hand is confirmed, and another is looked up. */
  lemma Swap(num: Num, c: nat, k: nat) returns (next: Num)
    requires Reaches(num, k) && OldHandles(num) && 0 < |num.tr.waiting| <= k
    requires var mark := MarkAfter(num.mark, num.tr.waiting[0]); mark < HINT_COVER_COUNTER_BASE && InReach(mark, c)
    requires c < HINT_COVER_COUNTER_BASE
    ensures Reaches(next, k) && OldHandles(next)
    ensures var mark := MarkAfter(num.mark, num.tr.waiting[0]);
      next == Num(Trail(num.tr.arrivals + [c], num.tr.waiting[1..] + [Ticket(num.handles, c, mark)]), mark,
                  num.handles + 1)
  {
    Drop(num, k);
    Take(Dropped(num), c, k);
    next := Taken(Dropped(num), c);
  }

  // ---------------------------------------------------------------- one packet in hand

  /** 1, 2, .., 16, 33: then 0 comes 17 places late. */
  lemma OneInHand() returns (num: Num)
    ensures Losing(num, 0, 17, 1)
  {
    FreshReaches(1);
    ManyInOrder(FRESH, 1, 16, 1);
    num := InOrder(FRESH, 1, 16);
    assert num.tr.arrivals == From(1, 16);
    Pass(num, 33, 1);
    num := Passed(num, 33);
    OneInHandOrder(num.tr.arrivals + [0]);
  }

  lemma OneInHandOrder(arrivals: seq<nat>)
    requires arrivals == From(1, 16) + [33] + [0]
    ensures NearlyInOrder(arrivals, 17)
  {
    forall i | 0 <= i < 18 ensures arrivals[i] == if i < 16 then i + 1 else if i == 16 then 33 else 0 {}
  }

  // ---------------------------------------------------------------- more packets in hand

  /** 0, 1, .., 31, each confirmed at once. */
  lemma Filled(k: nat) returns (num: Num)
    requires k > 0
    ensures Reaches(num, k) && OldHandles(num) && num == Num(Trail(From(0, 32), []), 31, 32)
  {
    FreshReaches(k);
    ManyInOrder(FRESH, 0, 32, k);
    num := InOrder(FRESH, 0, 32);
    assert num.tr.arrivals == From(0, 32);
  }

  /** 32 is in hand when 44 is looked up; 32 is confirmed, 44 stays in hand. */
  lemma TwoStart() returns (num: Num)
    ensures Reaches(num, 2) && OldHandles(num)
    ensures num == Num(Trail(From(0, 32) + [32] + [44], [Ticket(33, 44, 31)]), 32, 34)
  {
    num := Filled(2);
    Take(num, 32, 2);
    num := Taken(num, 32);
    Take(num, 44, 2);
    num := Taken(num, 44);
    Drop(num, 2);
    num := Dropped(num);
  }

  /** Then 34, .., 42 and 54 pass, and 44 is confirmed: 33 has not come yet. */
  lemma TwoInHand() returns (num: Num)
    ensures Reaches(num, 2) && num.tr.waiting == [] && num.mark == 67
    ensures num.tr.arrivals == From(0, 32) + [32] + [44] + From(34, 9) + [54]
  {
    num := TwoStart();
    ManyInOrder(num, 34, 9, 2);
    num := InOrder(num, 34, 9);
    Pass(num, 54, 2);
    num := Passed(num, 54);
    Drop(num, 2);
    num := Dropped(num);
  }

  lemma TwoInHandOrder(arrivals: seq<nat>)
    requires arrivals == From(0, 32) + [32] + [44] + From(34, 9) + [54]
    ensures NearlyInOrder(arrivals + [33], 11)
  {
    forall i | 0 <= i < 45
      ensures (arrivals + [33])[i]
           == if i < 33 then i else if i == 33 then 44 else if i < 43 then i else if i == 43 then 54 else 33
    {}
  }

  lemma TwoLosing() returns (num: Num)
    ensures Losing(num, 33, 11, 2)
  {
    num := TwoInHand();
    TwoInHandOrder(num.tr.arrivals);
  }

  lemma TwoTaken(k: nat) returns (num: Num)
    requires k >= 2
    ensures Reaches(num, k) && OldHandles(num)
    ensures num == Num(Trail(From(0, 32) + [32] + [33], [Ticket(32, 32, 31), Ticket(33, 33, 31)]), 31, 34)
  {
    num := Filled(k);
    Take(num, 32, k);
    num := Taken(num, 32);
    Take(num, 33, k);
    num := Taken(num, 33);
  }

  lemma ThreeTaken(c: nat, k: nat) returns (num: Num)
    requires k >= 3 && c < HINT_WINDOW
    ensures Reaches(num, k) && OldHandles(num)
    ensures num == Num(Trail(From(0, 32) + [32] + [33] + [c],
                             [Ticket(32, 32, 31), Ticket(33, 33, 31), Ticket(34, c, 31)]), 31, 35)
  {
    num := TwoTaken(k);
    Take(num, c, k);
    num := Taken(num, c);
  }

  /** 32 and 33 are in hand when 41 and then 42 are looked up, and are confirmed in between. */
  lemma ThreeStart() returns (num: Num)
    ensures Reaches(num, 3) && OldHandles(num)
    ensures num == Num(Trail(From(0, 32) + [32] + [33] + [41] + [42], [Ticket(34, 41, 31), Ticket(35, 42, 32)]), 34, 36)
  {
    num := ThreeTaken(41, 3);
    num := Swap(num, 42, 3);
    assert num.tr.waiting == [Ticket(33, 33, 31), Ticket(34, 41, 31), Ticket(35, 42, 32)];
    Drop(num, 3);
    num := Dropped(num);
  }

  /** Then 35, .., 38 and 47 pass, and 41 and 42 are confirmed: 34 has not come yet. */
  lemma ThreeInHand() returns (num: Num)
    ensures Reaches(num, 3) && num.tr.waiting == [] && num.mark == 67
    ensures num.tr.arrivals == From(0, 32) + [32] + [33] + [41] + [42] + From(35, 4) + [47]
  {
    num := ThreeStart();
    ManyInOrder(num, 35, 4, 3);
    num := InOrder(num, 35, 4);
    Pass(num, 47, 3);
    num := Passed(num, 47);
    Drop(num, 3);
    num := Dropped(num);
    Drop(num, 3);
    num := Dropped(num);
  }

  lemma ThreeInHandOrder(arrivals: seq<nat>)
    requires arrivals == From(0, 32) + [32] + [33] + [41] + [42] + From(35, 4) + [47]
    ensures NearlyInOrder(arrivals + [34], 7)
  {
    forall i | 0 <= i < 42
      ensures (arrivals + [34])[i]
           == if i < 34 then i else if i < 36 then i + 7 else if i < 40 then i - 1 else if i == 40 then 47 else 34
    {}
  }

  lemma ThreeLosing() returns (num: Num)
    ensures Losing(num, 34, 7, 3)
  {
    num := ThreeInHand();
    ThreeInHandOrder(num.tr.arrivals);
  }

  lemma FourTaken() returns (num: Num)
    ensures Reaches(num, 4) && OldHandles(num)
    ensures num == Num(Trail(From(0, 32) + [32] + [33] + [34] + [40],
                             [Ticket(32, 32, 31), Ticket(33, 33, 31), Ticket(34, 34, 31), Ticket(35, 40, 31)]), 31, 36)
  {
    num := ThreeTaken(34, 4);
    Take(num, 40, 4);
    num := Taken(num, 40);
  }

  /** 32, 33 and 34 are in hand when 40, 41 and 42 are looked up, and are confirmed in between. */
  lemma FourStart() returns (num: Num)
    ensures Reaches(num, 4) && OldHandles(num)
    ensures num == Num(Trail(From(0, 32) + [32] + [33] + [34] + [40] + [41] + [42],
                             [Ticket(35, 40, 31), Ticket(36, 41, 32), Ticket(37, 42, 34)]), 37, 38)
  {
    num := FourTaken();
    num := Swap(num, 41, 4);
    assert num.tr.waiting == [Ticket(33, 33, 31), Ticket(34, 34, 31), Ticket(35, 40, 31), Ticket(36, 41, 32)];
    num := Swap(num, 42, 4);
    assert num.tr.waiting == [Ticket(34, 34, 31), Ticket(35, 40, 31), Ticket(36, 41, 32), Ticket(37, 42, 34)];
    Drop(num, 4);
    num := Dropped(num);
  }

  /** Then 36 and 44 pass, and 40, 41 and 42 are confirmed: 35 has not come yet. */
  lemma FourInHand() returns (num: Num)
    ensures Reaches(num, 4) && num.tr.waiting == [] && num.mark == 70
    ensures num.tr.arrivals == From(0, 32) + [32] + [33] + [34] + [40] + [41] + [42] + [36] + [44]
  {
    num := FourStart();
    Pass(num, 36, 4);
    num := Passed(num, 36);
    Pass(num, 44, 4);
    num := Passed(num, 44);
    Drop(num, 4);
    num := Dropped(num);
    Drop(num, 4);
    num := Dropped(num);
    Drop(num, 4);
    num := Dropped(num);
  }

  lemma FourInHandOrder(arrivals: seq<nat>)
    requires arrivals == From(0, 32) + [32] + [33] + [34] + [40] + [41] + [42] + [36] + [44]
    ensures NearlyInOrder(arrivals + [35], 5)
  {
    forall i | 0 <= i < 41
      ensures (arrivals + [35])[i]
           == if i < 35 then i else if i < 38 then i + 5 else if i == 38 then 36 else if i == 39 then 44 else 35
    {}
  }

  lemma FourLosing() returns (num: Num)
    ensures Losing(num, 35, 5, 4)
  {
    num := FourInHand();
    FourInHandOrder(num.tr.arrivals);
  }

  // ---------------------------------------------------------------- the exact limits

  /** Beyond what is tolerable, a run loses a packet, for up to four packets in hand. */
  lemma {:induction false} TooMuchLoses(w: World, r: nat, k: nat) returns (steps: seq<Step>)
    requires Possible(w) && 1 <= k <= 4 && !Tolerable(r, k)
    ensures !NotLost(w.derive, w.slots, steps, 0, 0, r, k)
  {
    WhatIsTolerable(r);
    if k == 1 {
      var num := OneInHand();
      steps := LosesPacket(w, num, 0, 17, r, 1);
    } else if k == 2 {
      var num := TwoLosing();
      steps := LosesPacket(w, num, 33, 11, r, 2);
    } else if k == 3 {
      var num := ThreeLosing();
      steps := LosesPacket(w, num, 34, 7, r, 3);
    } else {
      var num := FourLosing();
      steps := LosesPacket(w, num, 35, 5, r, 4);
    }
  }

  /** What the tolerance allows: 16 places with one packet in hand, then 10, 6 and 4. */
  lemma WhatIsTolerable(r: nat)
    ensures Tolerable(r, 1) <==> r <= 16
    ensures Tolerable(r, 2) <==> r <= 10
    ensures Tolerable(r, 3) <==> r <= 6
    ensures Tolerable(r, 4) <==> r <= 4
  {
  }

  lemma FollowedIsFound(derive: Derive, slots: nat, steps: seq<Step>, birth: nat, i: nat, r: nat, k: nat)
    requires Tolerable(r, k)
    ensures NotLost(derive, slots, steps, birth, i, r, k)
  {
    if Followed(derive, slots, steps, birth, i, r, k) && birth + 1 < |steps|
       && IsPacket(derive, steps[birth].seed, steps[|steps| - 1])
    {
      ReorderingTolerated(derive, slots, steps, birth, i, r, k);
      var sys, m := Run(derive, slots, steps[..|steps| - 1]), steps[|steps| - 1].found;
      assert Earlier(m.domain, m.windowIdx, 2, 0);
    }
  }

  /**
   With up to four packets in hand the tolerance is exact: displacements of r lose no packet in any run
   of the table if and only if 2r + (k - 1)(r + k) is at most 32.
   */
  lemma ToleranceIsExact(w: World, r: nat, k: nat)
    requires Possible(w) && 1 <= k <= 4
    ensures (forall steps: seq<Step>, birth: nat, i: nat :: NotLost(w.derive, w.slots, steps, birth, i, r, k))
       <==> 2 * r + (k - 1) * (r + k) <= 32
  {
    if Tolerable(r, k) {
      forall steps: seq<Step>, birth: nat, i: nat ensures NotLost(w.derive, w.slots, steps, birth, i, r, k) {
        FollowedIsFound(w.derive, w.slots, steps, birth, i, r, k);
      }
    } else {
      var steps := TooMuchLoses(w, r, k);
      assert !NotLost(w.derive, w.slots, steps, 0, 0, r, k);
    }
  }

  // ---------------------------------------------------------------- a mark too high

  /** 63 and 60 are found together. */
  lemma BothTaken() returns (num: Num)
    ensures Reaches(num, 2) && OldHandles(num)
    ensures num == Num(Trail([63, 60], [Ticket(0, 63, -1), Ticket(1, 60, -1)]), -1, 2)
  {
    FreshReaches(2);
    num := FRESH;
    Take(num, 63, 2);
    num := Taken(num, 63);
    Take(num, 60, 2);
    num := Taken(num, 60);
  }

  /** They are confirmed in that order: 60 is recorded as 92. */
  lemma BothConfirmed() returns (num: Num)
    ensures Reaches(num, 2) && num == Num(Trail([63, 60], []), 92, 2)
  {
    num := BothTaken();
    Drop(num, 2);
    num := Dropped(num);
    assert num == Num(Trail([63, 60], [Ticket(1, 60, -1)]), 63, 2);
    Drop(num, 2);
    num := Dropped(num);
  }

  /** In that run the mark ends at a counter no packet had. */
  lemma {:induction false} OvershootExample(w: World) returns (steps: seq<Step>)
    requires Possible(w)
    ensures Plays(w, steps, Num(Trail([63, 60], []), 92, 2), 2)
  {
    var num := BothConfirmed();
    var ops: seq<Op> :| CanDoAll(ops, 2) && Numbers(ops) == num;
    AllPlay(w, ops, 2);
    steps :| Plays(w, steps, num, 2);
  }
}

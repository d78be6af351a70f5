/** Every interleaving of INIT, POLL and RESPOND requests on the pending-handshake table. */
module CacheRuns {
  import opened Common
  import opened Crypto
  import opened Sequences
  import opened CacheServer

  datatype Step =
    | Init(key: WireKey, rPub: PubKey, now: nat)
    | Poll(key: WireKey)
    | Respond(key: WireKey, data: Octets)

  /** What happened, key by key; Gone is an answer fetched or an entry evicted. */
  datatype Event =
    | Inited(key: WireKey, rPub: PubKey)
    | Answered(key: WireKey, data: Octets)
    | Gone(key: WireKey)

  datatype System = System(table: seq<Pending>, log: seq<Event>)

  function Events(t: seq<Pending>, step: Step): seq<Event> {
    match step
    case Init(key, rPub, now) =>
      if InitSlot(t, key, now).None? then []
      else (if Evicted(t, key, now).Some? then [Gone(Evicted(t, key, now).value)] else []) + [Inited(key, rPub)]
    case Poll(key) => if Answer(t, key).Some? then [Gone(key)] else []
    case Respond(key, data) =>
      if Lookup(t, key).Some? && MIN_RESP_DATA <= |data| <= MAX_RESP_DATA then [Answered(key, data)] else []
  }

  function Next(t: seq<Pending>, step: Step): seq<Pending> {
    match step
    case Init(key, rPub, now) => AfterInit(t, key, rPub, now)
    case Poll(key) => AfterPoll(t, key)
    case Respond(key, data) => AfterRespond(t, key, data)
  }

  function Run(steps: seq<Step>): System {
    if |steps| == 0 then System(seq(MAX_PENDING, _ => NoPending()), [])
    else
      var before := Run(steps[..|steps| - 1]);
      System(Next(before.table, steps[|steps| - 1]), before.log + Events(before.table, steps[|steps| - 1]))
  }

  /** What the events alone say about a key: no table, no slots, no other keys. */
  function Status(log: seq<Event>, key: WireKey): Option<Info> {
    if |log| == 0 then None
    else
      var before := Status(log[..|log| - 1], key);
      if log[|log| - 1].key != key then before
      else
        match log[|log| - 1]
        case Inited(_, rPub) => Some(Info(rPub, None))
        case Answered(_, data) => if before.Some? then Some(before.value.(resp := Some(data))) else None
        case Gone(_) => None
  }

  lemma StatusSnoc(log: seq<Event>, e: Event, key: WireKey)
    ensures Status(log + [e], key)
         == if e.key != key then Status(log, key)
            else match e
              case Inited(_, rPub) => Some(Info(rPub, None))
              case Answered(_, data) =>
                if Status(log, key).Some? then Some(Status(log, key).value.(resp := Some(data))) else None
              case Gone(_) => None
  {
  }

  ghost predicate Agrees(sys: System) {
    UniqueKeys(sys.table) && forall key: WireKey :: Lookup(sys.table, key) == Status(sys.log, key)
  }

  lemma {:induction false} StepAgrees(sys: System, step: Step, key: WireKey)
    requires Agrees(sys)
    ensures UniqueKeys(Next(sys.table, step))
    ensures Lookup(Next(sys.table, step), key) == Status(sys.log + Events(sys.table, step), key)
  {
    match step
    case Init(k, rPub, now) =>
      InitOnKeys(sys.table, k, rPub, now, key);
      if InitSlot(sys.table, k, now).Some? {
        var evicted := Evicted(sys.table, k, now);
        if evicted.Some? {
          StatusSnoc(sys.log, Gone(evicted.value), key);
          StatusSnoc(sys.log + [Gone(evicted.value)], Inited(k, rPub), key);
          assert sys.log + ([Gone(evicted.value)] + [Inited(k, rPub)])
               == (sys.log + [Gone(evicted.value)]) + [Inited(k, rPub)];
        } else {
          StatusSnoc(sys.log, Inited(k, rPub), key);
          assert [] + [Inited(k, rPub)] == [Inited(k, rPub)];
        }
      } else {
        assert sys.log + [] == sys.log;
      }
    case Poll(k) =>
      PollOnKeys(sys.table, k, key);
      StatusSnoc(sys.log, Gone(k), key);
      assert sys.log + [] == sys.log;
    case Respond(k, data) =>
      RespondOnKeys(sys.table, k, data, key);
      StatusSnoc(sys.log, Answered(k, data), key);
      assert sys.log + [] == sys.log;
  }

  lemma StepKeepsAgrees(sys: System, step: Step)
    requires Agrees(sys)
    ensures Agrees(System(Next(sys.table, step), sys.log + Events(sys.table, step)))
  {
    var next := System(Next(sys.table, step), sys.log + Events(sys.table, step));
    forall key: WireKey ensures UniqueKeys(next.table) && Lookup(next.table, key) == Status(next.log, key) {
      StepAgrees(sys, step, key);
    }
  }

  /** The table refines the per-key status, whatever the interleaving. */
  lemma {:induction false} TableIsStatus(steps: seq<Step>)
    ensures Agrees(Run(steps))
  {
    if |steps| > 0 {
      TableIsStatus(steps[..|steps| - 1]);
      StepKeepsAgrees(Run(steps[..|steps| - 1]), steps[|steps| - 1]);
    } else {
      forall key: WireKey ensures Lookup(Run(steps).table, key) == None { }
    }
  }

  /** Nothing about the key happened after position i but answers, and none after position j. */
  ghost predicate LatestAnswer(log: seq<Event>, key: WireKey, info: Info, i: int, j: int) {
    && 0 <= i < j < |log| && log[i] == Inited(key, info.rPub) && info.resp.Some?
    && log[j] == Answered(key, info.resp.value)
    && (forall n :: i < n < |log| && log[n].key == key ==> log[n].Answered?)
    && (forall n :: j < n < |log| ==> log[n].key != key)
  }

  ghost predicate LatestInit(log: seq<Event>, key: WireKey, info: Info, i: int) {
    0 <= i < |log| && log[i] == Inited(key, info.rPub) && (forall n ::
      i < n < |log| && log[n].key == key ==> log[n].Answered?)
  }

  lemma {:induction false} StatusMeaning(log: seq<Event>, key: WireKey)
    requires Status(log, key).Some?
    ensures exists i :: LatestInit(log, key, Status(log, key).value, i)
    ensures Status(log, key).value.resp.Some? ==> exists i, j :: LatestAnswer(log, key, Status(log, key).value, i, j)
  {
    var init, last, info := log[..|log| - 1], log[|log| - 1], Status(log, key).value;
    if last.key != key {
      StatusMeaning(init, key);
      var i :| LatestInit(init, key, info, i);
      assert LatestInit(log, key, info, i);
      if info.resp.Some? {
        var m, j :| LatestAnswer(init, key, info, m, j);
        assert LatestAnswer(log, key, info, m, j);
      }
    } else if last.Inited? {
      assert LatestInit(log, key, info, |log| - 1);
    } else {
      StatusMeaning(init, key);
      var before := Status(init, key).value;
      var i :| LatestInit(init, key, before, i);
      assert LatestInit(log, key, info, i);
      assert LatestAnswer(log, key, info, i, |log| - 1);
    }
  }

  /** A ready POLL returns the latest RESPOND made since the latest INIT for that key. */
  lemma PollReturnsLatest(steps: seq<Step>, key: WireKey)
    requires Answer(Run(steps).table, key).Some?
    ensures var log := Run(steps).log;
      exists info, i, j :: LatestAnswer(log, key, info, i, j) && info.resp == Answer(Run(steps).table, key)
  {
    TableIsStatus(steps);
    StatusMeaning(Run(steps).log, key);
    var info := Status(Run(steps).log, key).value;
    var i, j :| LatestAnswer(Run(steps).log, key, info, i, j);
  }

  // ---------------------------------------------------------------- how long a handshake is kept

  /** Nothing registers or fetches the key, and no INIT comes when it is older than the time to live. */
  ghost predicate WhileYoung(later: seq<Step>, key: WireKey, since: nat) {
    forall n :: 0 <= n < |later| ==>
      match later[n]
      case Init(k, _, now) => k != key && Age(now, since) <= PENDING_TTL_MS
      case Poll(k) => k != key
      case Respond(_, _) => true
  }

  lemma YoungIsKept(t: seq<Pending>, step: Step, key: WireKey, since: nat)
    requires UniqueKeys(t) && CreatedOf(t, key) == Some(since) && WhileYoung([step], key, since)
    ensures CreatedOf(Next(t, step), key) == Some(since)
  {
    assert [step][0] == step;
    match step
    case Init(k, rPub, now) =>
      if InitSlot(t, k, now).Some? { InitRenews(t, k, rPub, now, key); }
      if Evicted(t, k, now) == Some(key) { EvictedIsOld(t, k, now, key); }
    case Poll(k) => PollRenewsNothing(t, k, key);
    case Respond(k, data) => RespondRenewsNothing(t, k, data, key);
  }

  lemma {:induction false} YoungStaysKept(steps: seq<Step>, later: seq<Step>, key: WireKey, since: nat)
    requires CreatedOf(Run(steps).table, key) == Some(since) && WhileYoung(later, key, since)
    ensures CreatedOf(Run(steps + later).table, key) == Some(since)
    decreases |later|
  {
    if |later| == 0 {
      assert steps + later == steps;
    } else {
      TableIsStatus(steps);
      assert [later[0]][0] == later[0];
      YoungIsKept(Run(steps).table, later[0], key, since);
      RunSnoc(steps, later[0]);
      YoungStaysKept(steps + [later[0]], later[1..], key, since);
      MoveOne(steps, later);
    }
  }

  /**
   An INIT that is accepted, also one that repeats an earlier one, secures its key for the time to live:
   whatever others register until then, the handshake is still in the table.
   */
  lemma KeptWhileYoung(steps: seq<Step>, key: WireKey, rPub: PubKey, now: nat, later: seq<Step>)
    requires InitSlot(Run(steps).table, key, now).Some? && WhileYoung(later, key, now)
    ensures Lookup(Run(steps + [Init(key, rPub, now)] + later).table, key).Some?
  {
    TableIsStatus(steps);
    InitRenews(Run(steps).table, key, rPub, now, key);
    RunSnoc(steps, Init(key, rPub, now));
    YoungStaysKept(steps + [Init(key, rPub, now)], later, key, now);
  }

  ghost predicate NeverRegisters(steps: seq<Step>, key: WireKey) {
    forall n :: 0 <= n < |steps| ==> !(steps[n].Init? && steps[n].key == key)
  }

  lemma AbsentStep(t: seq<Pending>, step: Step, key: WireKey)
    requires UniqueKeys(t) && Lookup(t, key) == None && !(step.Init? && step.key == key)
    ensures Lookup(Next(t, step), key) == None
  {
  }

  lemma RunSnoc(steps: seq<Step>, step: Step)
    ensures Run(steps + [step]).table == Next(Run(steps).table, step)
  {
  }

  /** A key that is absent stays absent until it is registered. */
  lemma {:induction false} StaysAbsent(steps: seq<Step>, later: seq<Step>, key: WireKey)
    requires Lookup(Run(steps).table, key) == None
    requires NeverRegisters(later, key)
    ensures Lookup(Run(steps + later).table, key) == None
    decreases |later|
  {
    if |later| == 0 {
      assert steps + later == steps;
    } else {
      TableIsStatus(steps);
      AbsentStep(Run(steps).table, later[0], key);
      RunSnoc(steps, later[0]);
      StaysAbsent(steps + [later[0]], later[1..], key);
      MoveOne(steps, later);
    }
  }

  /** Once fetched, an answer is gone until the key is registered again. */
  lemma DeliveredOnce(steps: seq<Step>, key: WireKey, later: seq<Step>)
    requires Answer(Run(steps).table, key).Some?
    requires NeverRegisters(later, key)
    ensures Lookup(Run(steps + [Poll(key)] + later).table, key) == None
  {
    TableIsStatus(steps);
    RunSnoc(steps, Poll(key));
    PollOnKeys(Run(steps).table, key, key);
    StaysAbsent(steps + [Poll(key)], later, key);
  }
}

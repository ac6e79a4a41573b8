/**
  The two locks never block each other for good: from every state of every run each call can
  still return, by steps of threads alone.
*/
module AdmissionProgress {
  import opened Wrappers
  import opened Admission
  import opened AdmissionProtocol

  /** A nested append always has a record to write. */
  ghost predicate NestedHasRecord(s: State) {
    forall t: Thread {:trigger PcOf(s, t)} :: PcOf(s, t).Nested? ==> PcOf(s, t).todo != []
  }

  ghost predicate LiveInv(s: State) {
    Inv(s) && NestedHasRecord(s)
  }

  lemma ActKeepsNested(s: State, t: Thread)
    requires PcOf(s, t).Nested? ==> PcOf(s, t).todo != []
    ensures PcOf(Advance(s, t), t).Nested? ==> PcOf(Advance(s, t), t).todo != []
  {
    match PcOf(s, t)
    case Appending(_) =>
    case Nested(_) =>
    case Holding(_) =>
    case _ =>
  }

  lemma StepKeepsNested(s: State, e: Event, u: Thread)
    requires PcOf(s, u).Nested? ==> PcOf(s, u).todo != []
    ensures PcOf(Step(s, e), u).Nested? ==> PcOf(Step(s, e), u).todo != []
  {
    match e
    case Act(t) =>
      if u == t {
        ActKeepsNested(s, t);
      } else {
        AdvanceKeepsOthers(s, t, u);
      }
    case Crash(p) => assert PcOf(Step(s, e), u) == if u.pid == p then Idle else PcOf(s, u);
    case Call(t, job) =>
  }

  lemma StepKeepsLiveInv(s: State, e: Event)
    requires LiveInv(s)
    ensures LiveInv(Step(s, e))
  {
    StepKeepsInv(s, e);
    forall u: Thread
      ensures PcOf(Step(s, e), u).Nested? ==> PcOf(Step(s, e), u).todo != []
    {
      StepKeepsNested(s, e, u);
    }
  }

  lemma {:induction false} RunKeepsLiveInv(s: State, events: seq<Event>)
    requires LiveInv(s)
    ensures LiveInv(Run(s, events))
    decreases |events|
  {
    if events != [] {
      StepKeepsLiveInv(s, events[0]);
      RunKeepsLiveInv(Step(s, events[0]), events[1..]);
    }
  }

  lemma InitialLiveInv()
    ensures LiveInv(INITIAL)
  {
    InitialInv();
    forall t: Thread
      ensures PcOf(INITIAL, t) == Idle
    {
    }
  }

  lemma {:induction false} ActsKeepOthers(s: State, t: Thread, n: nat, u: Thread)
    requires u != t
    ensures PcOf(Run(s, Acts(t, n)), u) == PcOf(s, u)
    decreases n
  {
    if n > 0 {
      ActOnce(s, t, n);
      AdvanceKeepsOthers(s, t, u);
      ActsKeepOthers(Advance(s, t), t, n - 1, u);
    }
  }

  lemma InsideIs(s: State, t: Thread)
    requires LockInv(s) && Depth(PcOf(s, t)) == 1
    ensures Inside(s, t, PcOf(s, t))
  {
    OwnerCounters(s, t);
  }

  // ---------------------------------------------------------------- finishing what is begun

  lemma LeavingFinishes(s: State, t: Thread, k: nat)
    requires Inside(Run(s, Acts(t, k)), t, Leaving)
    ensures Outside(Run(s, Acts(t, k + 2)), t)
  {
    SoloLeaves(Run(s, Acts(t, k)), t);
    ActsInTwo(s, t, k, 2);
  }

  lemma AppendingFinishes(s: State, t: Thread, todo: Log) returns (n: nat)
    requires Inside(s, t, Appending(todo)) && s.sessions != []
    ensures Outside(Run(s, Acts(t, n)), t)
  {
    var k := 3 * |todo|;
    SoloFinishes(s, t, todo);
    LeavingFinishes(s, t, k + 1);
    n := k + 1 + 2;
  }

  lemma HoldingFinishes(s: State, t: Thread, job: Job) returns (n: nat)
    requires Inside(s, t, Holding(job))
    ensures Outside(Run(s, Acts(t, n)), t)
  {
    match job
    case AdmitJob(batch) =>
      var k := SoloBody(s, t, batch);
      LeavingFinishes(s, t, k);
      n := k + 2;
    case CompactJob =>
      ActOnce(s, t, 2);
      ActOnce(Advance(s, t), t, 1);
      LeavingFinishes(s, t, 2);
      n := 4;
  }

  lemma WrittenReturns(s: State, t: Thread, todo: Log)
    requires LockInv(s) && PcOf(s, t) == Written(todo) && s.sessions != []
    ensures var r := Run(s, Acts(t, 1)); Inside(r, t, Appending(todo)) && r.sessions != []
  {
    OwnerCounters(s, t);
    ActOnce(s, t, 1);
  }

  /** Two steps bring a nested append back to depth one. */
  lemma NestedReturns(s: State, t: Thread, todo: Log)
    requires LiveInv(s) && PcOf(s, t) == Nested(todo)
    ensures var r := Run(s, Acts(t, 2)); todo != [] && Inside(r, t, Appending(todo[1..])) && r.sessions != []
  {
    assert ThreadOwes(s, t);
    WriteIs(s, t, todo);
    StepKeepsInv(s, Act(t));
    ActOnce(s, t, 2);
    WrittenReturns(Advance(s, t), t, todo[1..]);
  }

  /** A thread inside its transaction gets out of it by itself. */
  lemma InsideFinishes(s: State, t: Thread) returns (n: nat)
    requires LiveInv(s) && Depth(PcOf(s, t)) > 0
    ensures Outside(Run(s, Acts(t, n)), t)
  {
    match PcOf(s, t)
    case Holding(job) =>
      InsideIs(s, t);
      n := HoldingFinishes(s, t, job);
    case Appending(todo) =>
      InsideIs(s, t);
      assert ThreadOwes(s, t);
      n := AppendingFinishes(s, t, todo);
    case Nested(todo) =>
      NestedReturns(s, t, todo);
      var k := AppendingFinishes(Run(s, Acts(t, 2)), t, todo[1..]);
      ActsInTwo(s, t, 2, k);
      n := 2 + k;
    case Written(todo) =>
      assert ThreadOwes(s, t);
      WrittenReturns(s, t, todo);
      var k := AppendingFinishes(Run(s, Acts(t, 1)), t, todo);
      ActsInTwo(s, t, 1, k);
      n := 1 + k;
    case Rewriting(records) =>
      InsideIs(s, t);
      ActOnce(s, t, 1);
      LeavingFinishes(s, t, 1);
      n := 3;
    case Leaving =>
      InsideIs(s, t);
      SoloLeaves(s, t);
      n := 2;
  }

  /** With the file lock free, the owner of a thread lock finishes by itself. */
  lemma OwnerFinishes(s: State, t: Thread) returns (n: nat)
    requires LiveInv(s) && s.flock == None && OwnsThreadLock(PcOf(s, t))
    ensures Outside(Run(s, Acts(t, n)), t)
  {
    OwnerCounters(s, t);
    match PcOf(s, t)
    case Unlocked =>
      ActOnce(s, t, 1);
      n := 1;
    case Locked(job) =>
      ActOnce(s, t, 1);
      var k := HoldingFinishes(Advance(s, t), t, job);
      ActsInTwo(s, t, 1, k);
      n := 1 + k;
    case _ => assert false;
  }

  lemma WaitingFinishes(s: State, t: Thread, job: Job) returns (n: nat)
    requires PcOf(s, t) == Waiting(job) && s.flock == None && ProcessOf(s, t.pid) == Process(None, 0, 0)
    ensures Outside(Run(s, Acts(t, n)), t)
  {
    ActOnce(s, t, 2);
    ActOnce(Advance(s, t), t, 1);
    var k := HoldingFinishes(Run(s, Acts(t, 2)), t, job);
    ActsInTwo(s, t, 2, k);
    n := 2 + k;
  }

  // ---------------------------------------------------------------- every call can return

  ghost predicate OnlyActs(events: seq<Event>) {
    forall e | e in events :: e.Act?
  }

  /** Whoever holds the file lock gives it up without help. */
  lemma FileLockIsFreed(s: State, t: Thread) returns (events: seq<Event>)
    requires LiveInv(s)
    ensures OnlyActs(events) && LiveInv(Run(s, events)) && Run(s, events).flock == None
    ensures PcOf(Run(s, events), t) in {PcOf(s, t), Idle}
  {
    events := [];
    if s.flock.Some? {
      OwnerIsInside(s, s.flock.value);
      var holder := ProcessOf(s, s.flock.value).owner.value;
      var n := InsideFinishes(s, holder);
      events := Acts(holder, n);
      if holder != t {
        ActsKeepOthers(s, holder, n, t);
      }
    }
    RunKeepsLiveInv(s, events);
  }

  /** With the file lock free, whoever owns t's thread lock gives it up without help. */
  lemma ThreadLockIsFreed(s: State, t: Thread) returns (events: seq<Event>)
    requires LiveInv(s) && s.flock == None
    ensures OnlyActs(events) && LiveInv(Run(s, events)) && Run(s, events).flock == None
    ensures ProcessOf(Run(s, events), t.pid) == Process(None, 0, 0)
    ensures PcOf(Run(s, events), t) in {PcOf(s, t), Idle}
  {
    events := [];
    assert ProcessConsistent(s, t.pid);
    if ProcessOf(s, t.pid).owner.Some? {
      var owner := ProcessOf(s, t.pid).owner.value;
      assert OwnsThreadLock(PcOf(s, owner)) <==> ProcessOf(s, owner.pid).owner == Some(owner);
      var n := OwnerFinishes(s, owner);
      events := Acts(owner, n);
      if owner != t {
        ActsKeepOthers(s, owner, n, t);
      }
    }
    RunKeepsLiveInv(s, events);
  }

  /** From any such state a call can return by steps of threads alone. */
  lemma CallCanReturn(s: State, t: Thread) returns (events: seq<Event>)
    requires LiveInv(s)
    ensures OnlyActs(events) && PcOf(Run(s, events), t).Idle?
  {
    var first := FileLockIsFreed(s, t);
    var s1 := Run(s, first);
    var second := ThreadLockIsFreed(s1, t);
    var s2 := Run(s1, second);
    RunInTwo(s, first, second);
    events := first + second;
    OwnerCounters(s2, t);
    if PcOf(s2, t).Waiting? {
      var n := WaitingFinishes(s2, t, PcOf(s2, t).job);
      RunInTwo(s, events, Acts(t, n));
      events := events + Acts(t, n);
    }
  }

  /**
    No run ever gets stuck: whatever has happened, crashes included, every call that is still
    under way can be brought to return without another call, crash or restart.
  */
  lemma EveryCallCanReturn(before: seq<Event>, t: Thread) returns (after: seq<Event>)
    ensures OnlyActs(after) && PcOf(Run(INITIAL, before + after), t).Idle?
  {
    InitialLiveInv();
    RunKeepsLiveInv(INITIAL, before);
    after := CallCanReturn(Run(INITIAL, before), t);
    RunInTwo(INITIAL, before, after);
  }

  lemma {:induction false} StuckStays(s: State, events: seq<Event>)
    requires OnlyActs(events) && forall u: Thread :: Advance(s, u) == s
    ensures Run(s, events) == s
    decreases |events|
  {
    if events != [] {
      assert events[0] in events && forall e | e in events[1..] :: e in events;
      assert Step(s, events[0]) == Advance(s, events[0].t) == s;
      StuckStays(s, events[1..]);
    }
  }

  /** No deadlock: as long as a call is under way, some thread has a step to take. */
  lemma NoDeadlock(before: seq<Event>, t: Thread) returns (u: Thread)
    requires var s := Run(INITIAL, before); !PcOf(s, t).Idle?
    ensures var s := Run(INITIAL, before); Advance(s, u) != s
  {
    var s := Run(INITIAL, before);
    var after := EveryCallCanReturn(before, t);
    RunInTwo(INITIAL, before, after);
    if forall v: Thread :: Advance(s, v) == s {
      StuckStays(s, after);
      assert false;
    }
    u :| Advance(s, u) != s;
  }
}

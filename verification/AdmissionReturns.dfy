/**
  From the caller's side: a call that returned, in whatever interleaving, has its session in the
  history, and no call is ever stuck.
*/
module AdmissionReturns {
  import opened Wrappers
  import opened Observations
  import opened Admission
  import opened AdmissionProtocol

  // ---------------------------------------------------------------- a call and its session

  /** A settled session of this batch, at index `from` or later. */
  ghost predicate SettledFrom(sessions: seq<Session>, from: nat, batch: Log) {
    exists k | from <= k < |sessions| :: sessions[k].batch == batch && Settled(sessions[k])
  }

  predicate WorksOn(s: State, t: Thread, from: nat, batch: Log) {
    Working(PcOf(s, t)) && |s.sessions| > from && s.sessions[|s.sessions| - 1].batch == batch
  }

  /** The call is before its check, at work on its own session, or has settled it. */
  ghost predicate Tracks(s: State, t: Thread, from: nat, batch: Log) {
    && |s.sessions| >= from
    && (|| Carries(PcOf(s, t)) == Some(batch)
        || WorksOn(s, t, from, batch)
        || SettledFrom(s.sessions, from, batch))
  }

  lemma WorkerHasOpenSession(s: State, t: Thread)
    requires Inv(s) && Working(PcOf(s, t))
    ensures LastIsOpen(s.sessions)
  {
    assert ThreadOwes(s, t);
  }

  lemma ActKeepsSettled(s: State, t: Thread, k: nat)
    requires k < |s.sessions| && Settled(s.sessions[k])
    requires Working(PcOf(s, t)) ==> LastIsOpen(s.sessions)
    ensures |Advance(s, t).sessions| >= |s.sessions| && Advance(s, t).sessions[k] == s.sessions[k]
  {
    match PcOf(s, t)
    case Holding(_) =>
    case Appending(_) =>
    case Nested(_) =>
    case Written(_) =>
    case Waiting(_) =>
    case Locked(_) =>
    case _ =>
  }

  /** Only an open session is ever touched again. */
  lemma SettledStays(s: State, e: Event, k: nat)
    requires Inv(s) && k < |s.sessions| && Settled(s.sessions[k])
    ensures |Step(s, e).sessions| >= |s.sessions| && Step(s, e).sessions[k] == s.sessions[k]
  {
    match e
    case Act(t) =>
      if Working(PcOf(s, t)) {
        WorkerHasOpenSession(s, t);
      }
      ActKeepsSettled(s, t, k);
    case Crash(_) =>
    case Call(_, _) =>
  }

  lemma SessionsOnlyGrow(s: State, e: Event)
    ensures |Step(s, e).sessions| >= |s.sessions|
  {
  }

  lemma SettledStaysFrom(s: State, e: Event, from: nat, batch: Log)
    requires Inv(s) && SettledFrom(s.sessions, from, batch)
    ensures SettledFrom(Step(s, e).sessions, from, batch)
  {
    var k :| from <= k < |s.sessions| && s.sessions[k].batch == batch && Settled(s.sessions[k]);
    SettledStays(s, e, k);
  }

  lemma CarrierSteps(s: State, t: Thread, from: nat, batch: Log)
    requires Carries(PcOf(s, t)) == Some(batch) && |s.sessions| >= from
    ensures Tracks(Advance(s, t), t, from, batch)
  {
    var r := Advance(s, t);
    if PcOf(s, t).Holding? {
      var k := |s.sessions|;
      CheckIs(s, t, batch);
      assert r.sessions[k] == Opened(s.log, batch);
      assert Admissible(s.log, batch) || Settled(r.sessions[k]);
    }
  }

  lemma WriterStillWorks(s: State, t: Thread, todo: Log, from: nat, batch: Log)
    requires PcOf(s, t) == Nested(todo) && WorksOn(s, t, from, batch)
    ensures Tracks(Advance(s, t), t, from, batch)
  {
    if todo != [] {
      WriteIs(s, t, todo);
    }
  }

  lemma AppenderStillWorks(s: State, t: Thread, todo: Log, from: nat, batch: Log)
    requires PcOf(s, t) == Appending(todo) && WorksOn(s, t, from, batch)
    ensures Tracks(Advance(s, t), t, from, batch)
  {
    if todo == [] {
      FinishIs(s, t);
      assert Settled(Advance(s, t).sessions[|s.sessions| - 1]);
    }
  }

  lemma WorkerSteps(s: State, t: Thread, from: nat, batch: Log)
    requires WorksOn(s, t, from, batch)
    ensures Tracks(Advance(s, t), t, from, batch)
  {
    match PcOf(s, t)
    case Appending(todo) => AppenderStillWorks(s, t, todo, from, batch);
    case Nested(todo) => WriterStillWorks(s, t, todo, from, batch);
    case Written(todo) =>
  }

  /** While a thread is at work, no other thread touches the sessions. */
  lemma OthersLeaveSessions(s: State, t: Thread, u: Thread)
    requires Inv(s) && Working(PcOf(s, t)) && u != t
    ensures Advance(s, u).sessions == s.sessions
  {
    if Depth(PcOf(s, u)) > 0 {
      MutualExclusion(s, t, u);
    }
    match PcOf(s, u)
    case Idle =>
    case Waiting(_) =>
    case Locked(_) =>
    case Unlocked =>
    case _ =>
  }

  lemma CrashLeavesSessions(s: State, t: Thread, p: nat)
    requires Inv(s) && Working(PcOf(s, t)) && p != t.pid
    ensures AfterCrash(s, p).sessions == s.sessions
  {
    OwnerCounters(s, t);
  }

  /** Only its own action, its own call and a crash of its process move a thread. */
  lemma StaysPut(s: State, e: Event, t: Thread)
    requires e != Crash(t.pid) && e != Act(t) && !PcOf(s, t).Idle?
    ensures PcOf(Step(s, e), t) == PcOf(s, t)
  {
    match e
    case Act(u) => AdvanceKeepsOthers(s, u, t);
    case Crash(p) =>
    case Call(u, job) =>
  }

  lemma OthersLeaveWork(s: State, e: Event, t: Thread)
    requires Inv(s) && Working(PcOf(s, t)) && e != Crash(t.pid) && e != Act(t)
    ensures Step(s, e).sessions == s.sessions
  {
    match e
    case Act(u) => OthersLeaveSessions(s, t, u);
    case Crash(p) => CrashLeavesSessions(s, t, p);
    case Call(_, _) =>
  }

  lemma OthersKeepTrack(s: State, e: Event, t: Thread, from: nat, batch: Log)
    requires Inv(s) && Tracks(s, t, from, batch) && e != Crash(t.pid) && e != Act(t)
    ensures Tracks(Step(s, e), t, from, batch)
  {
    SessionsOnlyGrow(s, e);
    if SettledFrom(s.sessions, from, batch) {
      SettledStaysFrom(s, e, from, batch);
    } else {
      StaysPut(s, e, t);
      if WorksOn(s, t, from, batch) {
        OthersLeaveWork(s, e, t);
      }
    }
  }

  lemma StepKeepsTrack(s: State, e: Event, t: Thread, from: nat, batch: Log)
    requires Inv(s) && Tracks(s, t, from, batch) && e != Crash(t.pid)
    ensures Tracks(Step(s, e), t, from, batch)
  {
    if e != Act(t) {
      OthersKeepTrack(s, e, t, from, batch);
    } else if SettledFrom(s.sessions, from, batch) {
      SessionsOnlyGrow(s, e);
      SettledStaysFrom(s, e, from, batch);
    } else if WorksOn(s, t, from, batch) {
      WorkerSteps(s, t, from, batch);
    } else {
      CarrierSteps(s, t, from, batch);
    }
  }

  lemma {:induction false} RunKeepsTrack(s: State, events: seq<Event>, t: Thread, from: nat, batch: Log)
    requires Inv(s) && Tracks(s, t, from, batch) && Crash(t.pid) !in events
    ensures Inv(Run(s, events)) && Tracks(Run(s, events), t, from, batch)
    decreases |events|
  {
    if events != [] {
      assert events[0] in events && forall e | e in events[1..] :: e in events;
      StepKeepsTrack(s, events[0], t, from, batch);
      StepKeepsInv(s, events[0]);
      RunKeepsTrack(Step(s, events[0]), events[1..], t, from, batch);
    }
  }

  /** A run in which t calls for the batch and is idle again, its process never having crashed. */
  ghost predicate Returned(before: seq<Event>, t: Thread, batch: Log, during: seq<Event>) {
    && PcOf(Run(INITIAL, before), t).Idle?
    && Crash(t.pid) !in during
    && PcOf(Run(INITIAL, before + [Call(t, AdmitJob(batch))] + during), t).Idle?
  }

  /**
    A call that returned is among the replayed sessions, after every session that was there when
    it was made: its batch was admitted whole or refused, and refused only for a conflict.
  */
  lemma ReturnedCallHasSession(before: seq<Event>, t: Thread, batch: Log, during: seq<Event>) returns (k: nat)
    requires Returned(before, t, batch, during)
    ensures var s, r := Run(INITIAL, before), Run(INITIAL, before + [Call(t, AdmitJob(batch))] + during);
      && |s.sessions| <= k < |r.sessions|
      && r.sessions[k].batch == batch && Settled(r.sessions[k])
      && (r.sessions[k].status.Done? <==> Admissible(Replay(r.sessions[..k]), batch))
  {
    var s, call := Run(INITIAL, before), Call(t, AdmitJob(batch));
    InitialInv();
    RunKeepsInv(INITIAL, before);
    StepKeepsInv(s, call);
    RunInTwo(INITIAL, before, [call]);
    RunInTwo(INITIAL, before + [call], during);
    assert [call][1..] == [];
    RunKeepsTrack(Step(s, call), during, t, |s.sessions|, batch);
    var r := Run(Step(s, call), during);
    k :| |s.sessions| <= k < |r.sessions| && r.sessions[k].batch == batch && Settled(r.sessions[k]);
    assert SessionSane(r.sessions, k);
  }

  /**
    What a caller may rely on: when the call returned without a refusal, every record of the batch
    is held, with its content, in every continuation of the run.
  */
  lemma ReturnedCallIsHeldForever(
      before: seq<Event>, t: Thread, batch: Log, during: seq<Event>, after: seq<Event>) returns (k: nat)
    requires Returned(before, t, batch, during)
    ensures var run := before + [Call(t, AdmitJob(batch))] + during;
      var sessions, index := Run(INITIAL, run).sessions, Index(Run(INITIAL, run + after).log);
      && |Run(INITIAL, before).sessions| <= k < |sessions| && sessions[k].batch == batch
      && (if Admissible(Replay(sessions[..k]), batch)
          then forall b | b in batch :: b.id in index && ContentOf(index[b.id]) == ContentOf(b)
          else sessions[k].status.Refused?)
  {
    var run := before + [Call(t, AdmitJob(batch))] + during;
    k := ReturnedCallHasSession(before, t, batch, during);
    if Run(INITIAL, run).sessions[k].status.Done? {
      forall b | b in batch
        ensures b.id in Index(Run(INITIAL, run + after).log)
                && ContentOf(Index(Run(INITIAL, run + after).log)[b.id]) == ContentOf(b)
      {
        DoneForever(run, after, k, b);
      }
    }
  }
}

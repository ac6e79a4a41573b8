/**
  What a crash can do to one admission. A batch is all or nothing for conflicts; for crashes it
  is so exactly when it brings at most one new record.
*/
module AdmissionCrashes {
  import opened Observations
  import opened Admission
  import opened AdmissionProtocol

  /** None of what the session had to add to the log is there, or all of it is. */
  predicate WholeOrNothing(base: Log, session: Session) {
    session.written == 0 || session.written == |Fresh(base, session.batch)|
  }

  /** Session k offered this batch to this log, and is over: done, refused or cut. */
  predicate Ended(sessions: seq<Session>, k: nat, log: Log, batch: Log) {
    && k < |sessions|
    && Replay(sessions[..k]) == log && sessions[k].batch == batch
    && !sessions[k].status.Open?
  }

  /** Every session that offered this batch to this log ended whole or with nothing. */
  ghost predicate AllOrNothing(s: State, log: Log, batch: Log) {
    forall k: nat | Ended(s.sessions, k, log, batch) :: WholeOrNothing(log, s.sessions[k])
  }

  lemma AtMostOneIsWhole(sessions: seq<Session>, k: nat)
    requires Sane(sessions) && k < |sessions| && |Fresh(Replay(sessions[..k]), sessions[k].batch)| <= 1
    ensures WholeOrNothing(Replay(sessions[..k]), sessions[k])
  {
    assert SessionSane(sessions, k);
  }

  lemma SoloChecks(s: State, t: Thread, batch: Log)
    requires Inside(s, t, Holding(AdmitJob(batch))) && Admissible(s.log, batch)
    ensures var r := Run(s, Acts(t, 1));
      && Inside(r, t, Appending(Fresh(s.log, batch))) && r.log == s.log
      && r.sessions == s.sessions + [Session(batch, 0, Open)]
  {
    ActOnce(s, t, 1);
  }

  lemma CallThenActs(s: State, t: Thread, job: Job, n: nat)
    ensures Run(s, [Call(t, job)] + Acts(t, n)) == Run(Step(s, Call(t, job)), Acts(t, n))
  {
    assert ([Call(t, job)] + Acts(t, n))[1..] == Acts(t, n);
  }

  lemma OneMoreOfNew(sessions: seq<Session>, batch: Log)
    ensures WithOneMore(sessions + [Session(batch, 0, Open)]) == sessions + [Session(batch, 1, Open)]
  {
  }

  /** The step before the crash: the first record of the batch is in the log, the others are not. */
  lemma OneIsWritten(s: State, t: Thread, batch: Log)
    requires Outside(s, t) && Admissible(s.log, batch) && Fresh(s.log, batch) != []
    ensures var added := Fresh(s.log, batch);
      var r := Run(s, [Call(t, AdmitJob(batch))] + Acts(t, 6));
      && Inside(r, t, Appending(added[1..])) && r.log == s.log + [added[0]]
      && r.sessions == s.sessions + [Session(batch, 1, Open)]
  {
    var called := Step(s, Call(t, AdmitJob(batch)));
    SoloEnters(s, t, AdmitJob(batch));
    var holding := Run(called, Acts(t, 2));
    SoloChecks(holding, t, batch);
    SoloAppend(Run(holding, Acts(t, 1)), t, Fresh(s.log, batch));
    ActsInTwo(called, t, 2, 1);
    ActsInTwo(called, t, 3, 3);
    CallThenActs(s, t, AdmitJob(batch), 6);
    OneMoreOfNew(s.sessions, batch);
  }

  lemma CrashCuts(s: State, t: Thread, todo: Log, sessions: seq<Session>, session: Session)
    requires Inside(s, t, Appending(todo)) && s.sessions == sessions + [session] && session.status.Open?
    ensures var r := Step(s, Crash(t.pid));
      Outside(r, t) && r.log == s.log && r.sessions == sessions + [session.(status := Cut)]
  {
  }

  /**
    Half a batch stays in the log: the process crashes after the first of two or more new
    records. What remains is neither the old log nor the admitted one.
  */
  lemma CrashLeavesAPart(s: State, t: Thread, batch: Log) returns (events: seq<Event>)
    requires Outside(s, t) && Admissible(s.log, batch) && |Fresh(s.log, batch)| >= 2
    ensures events == [Call(t, AdmitJob(batch))] + Acts(t, 6) + [Crash(t.pid)]
    ensures var r := Run(s, events);
      && Outside(r, t)
      && r.log == s.log + [Fresh(s.log, batch)[0]]
      && r.log != s.log && r.log != Admit(s.log, batch)
      && r.sessions == s.sessions + [Session(batch, 1, Cut)]
  {
    var calling := [Call(t, AdmitJob(batch))] + Acts(t, 6);
    events := calling + [Crash(t.pid)];
    OneIsWritten(s, t, batch);
    var written := Run(s, calling);
    CrashCuts(written, t, Fresh(s.log, batch)[1..], s.sessions, Session(batch, 1, Open));
    RunInTwo(s, calling, [Crash(t.pid)]);
    assert [Crash(t.pid)][1..] == [];
    AfterAppendsFresh(s.log, batch);
  }

  /** In every run a session that brings at most one new record is whole or nothing. */
  lemma AtMostOneIsAtomic(events: seq<Event>, log: Log, batch: Log)
    requires |Fresh(log, batch)| <= 1
    ensures AllOrNothing(Run(INITIAL, events), log, batch)
  {
    InitialInv();
    RunKeepsInv(INITIAL, events);
    var sessions := Run(INITIAL, events).sessions;
    forall k: nat | Ended(sessions, k, log, batch)
      ensures WholeOrNothing(log, sessions[k])
    {
      AtMostOneIsWhole(sessions, k);
    }
  }

  /**
    Crash atomicity, exactly. Wherever a run has got to, an admissible batch about to be admitted
    is all or nothing in every continuation, crashes and other threads included, if and only if
    it brings at most one id that the log does not hold.
  */
  lemma CrashAtomicIff(before: seq<Event>, t: Thread, batch: Log)
    requires var s := Run(INITIAL, before); Outside(s, t) && Admissible(s.log, batch)
    ensures var log := Run(INITIAL, before).log;
      (forall after: seq<Event> :: AllOrNothing(Run(INITIAL, before + after), log, batch))
      <==> |Fresh(log, batch)| <= 1
  {
    var s := Run(INITIAL, before);
    if |Fresh(s.log, batch)| <= 1 {
      forall after: seq<Event>
        ensures AllOrNothing(Run(INITIAL, before + after), s.log, batch)
      {
        AtMostOneIsAtomic(before + after, s.log, batch);
      }
    } else {
      InitialInv();
      RunKeepsInv(INITIAL, before);
      var after := CrashLeavesAPart(s, t, batch);
      RunInTwo(INITIAL, before, after);
      var r := Run(INITIAL, before + after);
      var k := |s.sessions|;
      assert r.sessions[..k] == s.sessions;
      assert Ended(r.sessions, k, s.log, batch) && !WholeOrNothing(s.log, r.sessions[k]);
      assert !AllOrNothing(r, s.log, batch);
    }
  }

  lemma {:induction false} AddsNoMore(log: Log, batch: Log)
    ensures |Fresh(log, batch)| <= |batch|
    decreases |batch|
  {
    if batch != [] {
      if batch[0].id in Index(log) {
        AddsNoMore(log, batch[1..]);
      } else {
        AddsNoMore(log + [batch[0]], batch[1..]);
      }
    }
  }

  /** A single posted observation is crash-atomic over every log. */
  lemma OneRecordIsAtomic(events: seq<Event>, log: Log, o: Observation)
    ensures AllOrNothing(Run(INITIAL, events), log, [o])
  {
    AddsNoMore(log, [o]);
    AtMostOneIsAtomic(events, log, [o]);
  }

  lemma TwoNewRecords(a: Observation, b: Observation)
    requires a.id != b.id
    ensures Admissible([], [a, b]) && Fresh([], [a, b]) == [a, b] && Admit([], [a, b]) == [a, b]
  {
    var rest := [a, b][1..];
    assert rest == [b] && rest[1..] == [];
    IndexPush([], a);
    assert [] + [a] == [a] && b.id !in Index([a]);
    assert Fresh([a], rest) == [b] + Fresh([a] + [b], []);
    assert Admissible([a], rest);
    AfterAppendsFresh([], [a, b]);
  }

  /** Two records with different ids, an empty log, one crash: the first is there alone. */
  lemma HalfABatchRemains(a: Observation, b: Observation) returns (events: seq<Event>)
    requires a.id != b.id
    ensures Admissible([], [a, b]) && Admit([], [a, b]) == [a, b]
    ensures Run(INITIAL, events).log == [a]
  {
    var t := Thread(0, 0);
    TwoNewRecords(a, b);
    assert Outside(INITIAL, t);
    events := CrashLeavesAPart(INITIAL, t, [a, b]);
  }

  lemma OneIsAdmitted(log: Log, batch: Log)
    requires Admissible(log, batch) && Fresh(log, batch) != []
    ensures log + [Fresh(log, batch)[0]] == AdmitUpTo(log, batch, 1)
  {
    assert Fresh(log, batch)[..1] == [Fresh(log, batch)[0]];
  }

  /** After the crash, one undisturbed admission of the same batch leaves what it should have left. */
  lemma RepeatRepairs(s: State, t: Thread, batch: Log) returns (cut: seq<Event>, again: seq<Event>)
    requires Outside(s, t) && DistinctIds(s.log) && Admissible(s.log, batch) && |Fresh(s.log, batch)| >= 2
    ensures Run(s, cut).log != Admit(s.log, batch)
    ensures Run(s, cut + again).log == Admit(s.log, batch)
  {
    cut := CrashLeavesAPart(s, t, batch);
    again := SoloAdmission(Run(s, cut), t, batch);
    RunInTwo(s, cut, again);
    OneIsAdmitted(s.log, batch);
    SameBatchIsRepaired(s.log, batch, 1);
  }
}

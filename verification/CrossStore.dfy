/**
  The two stores together, as the API drives them: sources are retained by the write-once
  protocol, the retention check of a posted observation runs outside the admission lock, and
  admission runs under it. All of it interleaves.
*/
module CrossStore {
  import opened Wrappers
  import opened Observations
  import opened Admission
  import opened Pipeline
  import A = AdmissionProtocol
  import P = RawStoreProtocol

  datatype Service = Service(
    store: P.Config,
    decode: Bytes -> Option<seq<Observation>>,
    uuid5: string -> Uuid)

  /** A posted observation on its way through the handler. */
  datatype Post =
    | Pending(o: Observation)  // before the existence check
    | Found(o: Observation)    // the source exists, before it is read back
    | Checked(o: Observation)  // read back, not yet submitted
    | Closed                   // refused or submitted

  datatype State = State(raw: P.State, admission: A.State, posts: map<nat, Post>)

  const INITIAL := State(P.INITIAL, A.INITIAL, map[])

  datatype Event =
    | Raw(raw: P.Event)
    | AdmissionAct(t: A.Thread)
    | Compact(t: A.Thread)
    | CrashProcess(p: nat)
    | BeginPost(id: nat, o: Observation)
    | CheckPost(id: nat)
    | SubmitPost(id: nat, t: A.Thread)
    | SubmitIngest(c: nat, t: A.Thread)
    | PowerFailure(kept: set<P.Name>, garbage: map<nat, Bytes>)

  /** What an ingest handler submits once its record is retained, if anything. */
  function IngestedBatch(service: Service, payload: Bytes): Option<Log> {
    IngestBatch(service.uuid5, service.store.hash(payload), service.decode(payload))
  }

  function AfterCheck(service: Service, s: State, id: nat): State
    requires id in s.posts
  {
    match s.posts[id]
    case Pending(o) =>
      if o.disposition == Reject || P.Digest(o.provenance.digest) !in s.raw.directory
      then s.(posts := s.posts[id := Closed])
      else s.(posts := s.posts[id := Found(o)])
    case Found(o) =>
      if P.ReadBack(service.store, s.raw, o.provenance.digest) == Some(P.Returned(o.provenance.digest))
      then s.(posts := s.posts[id := Checked(o)])
      else s.(posts := s.posts[id := Closed])
    case _ => s
  }

  function Call(s: State, t: A.Thread, job: A.Job): State {
    s.(admission := A.Step(s.admission, A.Call(t, job)))
  }

  /**
    A power failure ends every thread and process. The log is taken at its longest: what a failure
    takes from it is a tail, and every record of a shorter log is one of these.
  */
  function AfterFailure(service: Service, s: State, kept: set<P.Name>, garbage: map<nat, Bytes>): State {
    State(
      P.AfterPowerLoss(service.store, s.raw, kept, garbage),
      s.admission.(
        threads := map[], processes := map[], flock := None,
        sessions := if A.LastIsOpen(s.admission.sessions)
                    then
                      var last := s.admission.sessions[|s.admission.sessions| - 1];
                      A.LastSession(s.admission, last.(status := A.Cut)).sessions
                    else s.admission.sessions),
      map[])
  }

  function Step(service: Service, s: State, e: Event): State {
    match e
    case Raw(raw) => if raw.PowerLoss? then s else s.(raw := P.Step(service.store, s.raw, raw))
    case AdmissionAct(t) => s.(admission := A.Step(s.admission, A.Act(t)))
    case Compact(t) => Call(s, t, A.CompactJob)
    case CrashProcess(p) => s.(admission := A.Step(s.admission, A.Crash(p)))
    case BeginPost(id, o) => if id in s.posts then s else s.(posts := s.posts[id := Pending(o)])
    case CheckPost(id) => if id in s.posts then AfterCheck(service, s, id) else s
    case SubmitPost(id, t) =>
      if id in s.posts && s.posts[id].Checked? && A.PcOf(s.admission, t).Idle? then
        Call(s.(posts := s.posts[id := Closed]), t, A.AdmitJob([WithPlatformVerification(s.posts[id].o)]))
      else s
    case SubmitIngest(c, t) =>
      if c in s.raw.calls && s.raw.calls[c].pc.Finished? && s.raw.calls[c].pc.o.Returned?
         && IngestedBatch(service, s.raw.calls[c].payload).Some?
      then Call(s, t, A.AdmitJob(IngestedBatch(service, s.raw.calls[c].payload).value))
      else s
    case PowerFailure(kept, garbage) => AfterFailure(service, s, kept, garbage)
  }

  function Run(service: Service, s: State, events: seq<Event>): State
    decreases |events|
  {
    if events == [] then s else Run(service, Step(service, s, events[0]), events[1..])
  }

  // ---------------------------------------------------------------- the invariant

  ghost predicate Sourced(raw: P.State, o: Observation) {
    P.Digest(o.provenance.digest) in raw.directory
  }

  /** What every record in, or on its way to, the log satisfies. */
  ghost predicate Canonical(raw: P.State, o: Observation) {
    Sourced(raw, o) && o.disposition != Reject && o.provenance.verification == Platform
  }

  ghost predicate AllCanonical(raw: P.State, log: Log) {
    forall o | o in log :: Canonical(raw, o)
  }

  /** The records a thread still carries. */
  function Carried(pc: A.Pc): Log {
    match pc
    case Waiting(AdmitJob(batch)) => batch
    case Locked(AdmitJob(batch)) => batch
    case Holding(AdmitJob(batch)) => batch
    case Appending(todo) => todo
    case Nested(todo) => todo
    case Written(todo) => todo
    case _ => []
  }

  ghost predicate PostGood(raw: P.State, post: Post) {
    post.Found? || post.Checked? ==> Sourced(raw, post.o) && post.o.disposition != Reject
  }

  ghost predicate CrossInv(s: State) {
    && AllCanonical(s.raw, s.admission.log)
    && (forall t: A.Thread {:trigger A.PcOf(s.admission, t)} ::
          AllCanonical(s.raw, Carried(A.PcOf(s.admission, t))))
    && (forall id | id in s.posts :: PostGood(s.raw, s.posts[id]))
  }

  ghost predicate Inv(service: Service, s: State) {
    && P.Inv(service.store, s.raw)
    && P.ReturnedAreRetained(s.raw)
    && A.Inv(s.admission)
    && CrossInv(s)
  }

  lemma RawStepKeepsCross(service: Service, s: State, e: P.Event)
    requires Inv(service, s) && !e.PowerLoss?
    ensures CrossInv(s.(raw := P.Step(service.store, s.raw, e)))
  {
    P.StepKeepsEntries(service.store, s.raw, e);
    var raw := P.Step(service.store, s.raw, e);
    forall o | Sourced(s.raw, o)
      ensures Sourced(raw, o)
    {
    }
  }

  lemma CallKeepsCross(s: State, t: A.Thread, job: A.Job)
    requires CrossInv(s)
    requires job.AdmitJob? ==> AllCanonical(s.raw, job.batch)
    ensures CrossInv(Call(s, t, job))
  {
    var r := Call(s, t, job);
    forall u: A.Thread
      ensures AllCanonical(r.raw, Carried(A.PcOf(r.admission, u)))
    {
      assert AllCanonical(s.raw, Carried(A.PcOf(s.admission, u)));
    }
  }

  lemma CarriedAfterAct(a: A.State, t: A.Thread, o: Observation)
    requires o in Carried(A.PcOf(A.Advance(a, t), t))
    ensures o in Carried(A.PcOf(a, t))
  {
    match A.PcOf(a, t)
    case Holding(AdmitJob(batch)) =>
      if Admissible(a.log, batch) {
        FreshComesFromBatch(a.log, batch, o);
      }
    case _ =>
  }

  lemma LoggedAfterAct(a: A.State, t: A.Thread, o: Observation)
    requires A.Inv(a) && o in A.Advance(a, t).log
    ensures o in a.log || o in Carried(A.PcOf(a, t))
  {
    assert A.ThreadOwes(a, t);
  }

  lemma ActKeepsLogCanonical(s: State, t: A.Thread)
    requires CrossInv(s) && A.Inv(s.admission)
    ensures AllCanonical(s.raw, A.Advance(s.admission, t).log)
    ensures AllCanonical(s.raw, Carried(A.PcOf(A.Advance(s.admission, t), t)))
  {
    assert AllCanonical(s.raw, Carried(A.PcOf(s.admission, t)));
    forall o | o in A.Advance(s.admission, t).log
      ensures Canonical(s.raw, o)
    {
      LoggedAfterAct(s.admission, t, o);
    }
    forall o | o in Carried(A.PcOf(A.Advance(s.admission, t), t))
      ensures Canonical(s.raw, o)
    {
      CarriedAfterAct(s.admission, t, o);
    }
  }

  lemma ActKeepsCross(s: State, t: A.Thread)
    requires CrossInv(s)
    requires var a := A.Advance(s.admission, t);
      AllCanonical(s.raw, a.log) && AllCanonical(s.raw, Carried(A.PcOf(a, t)))
    ensures CrossInv(s.(admission := A.Advance(s.admission, t)))
  {
    var a := A.Advance(s.admission, t);
    forall u: A.Thread
      ensures AllCanonical(s.raw, Carried(A.PcOf(a, u)))
    {
      if u != t {
        A.AdvanceKeepsOthers(s.admission, t, u);
        assert AllCanonical(s.raw, Carried(A.PcOf(s.admission, u)));
      }
    }
  }

  lemma CrashKeepsCross(s: State, p: nat)
    requires CrossInv(s)
    ensures CrossInv(s.(admission := A.AfterCrash(s.admission, p)))
  {
    var a := A.AfterCrash(s.admission, p);
    forall u: A.Thread
      ensures AllCanonical(s.raw, Carried(A.PcOf(a, u)))
    {
      assert A.PcOf(a, u) == if u.pid == p then A.Idle else A.PcOf(s.admission, u);
      assert AllCanonical(s.raw, Carried(A.PcOf(s.admission, u)));
    }
  }

  lemma IngestBatchIsCanonical(service: Service, raw: P.State, payload: Bytes)
    requires IngestedBatch(service, payload).Some?
    requires P.Digest(service.store.hash(payload)) in raw.directory
    ensures AllCanonical(raw, IngestedBatch(service, payload).value)
  {
    var digest, decoded := service.store.hash(payload), service.decode(payload).value;
    var identified := Identify(service.uuid5, digest, decoded).value;
    forall o | o in Platformed(identified)
      ensures Canonical(raw, o)
    {
      var k :| 0 <= k < |identified| && Platformed(identified)[k] == o;
      assert identified[k] in identified;
      assert decoded[k].provenance.digest == digest;
    }
  }

  lemma RawStepKeepsInv(service: Service, s: State, e: P.Event)
    requires Inv(service, s) && !e.PowerLoss?
    ensures Inv(service, s.(raw := P.Step(service.store, s.raw, e)))
  {
    P.StepKeepsInv(service.store, s.raw, e);
    P.StepKeepsReturned(service.store, s.raw, e);
    RawStepKeepsCross(service, s, e);
  }

  lemma SubmitPostKeepsInv(service: Service, s: State, id: nat, t: A.Thread)
    requires Inv(service, s)
    ensures Inv(service, Step(service, s, SubmitPost(id, t)))
  {
    if id in s.posts && s.posts[id].Checked? {
      var o := WithPlatformVerification(s.posts[id].o);
      assert PostGood(s.raw, s.posts[id]);
      A.StepKeepsInv(s.admission, A.Call(t, A.AdmitJob([o])));
      CallKeepsCross(s.(posts := s.posts[id := Closed]), t, A.AdmitJob([o]));
    }
  }

  lemma SubmitIngestKeepsInv(service: Service, s: State, c: nat, t: A.Thread)
    requires Inv(service, s)
    ensures Inv(service, Step(service, s, SubmitIngest(c, t)))
  {
    if Step(service, s, SubmitIngest(c, t)) != s {
      assert P.CallGood(service.store, s.raw, c);
      IngestBatchIsCanonical(service, s.raw, s.raw.calls[c].payload);
      var batch := IngestedBatch(service, s.raw.calls[c].payload).value;
      A.StepKeepsInv(s.admission, A.Call(t, A.AdmitJob(batch)));
      CallKeepsCross(s, t, A.AdmitJob(batch));
    }
  }

  lemma AdmissionActKeepsInv(service: Service, s: State, t: A.Thread)
    requires Inv(service, s)
    ensures Inv(service, s.(admission := A.Advance(s.admission, t)))
  {
    A.StepKeepsInv(s.admission, A.Act(t));
    ActKeepsLogCanonical(s, t);
    ActKeepsCross(s, t);
  }

  lemma CompactKeepsInv(service: Service, s: State, t: A.Thread)
    requires Inv(service, s)
    ensures Inv(service, Call(s, t, A.CompactJob))
  {
    A.StepKeepsInv(s.admission, A.Call(t, A.CompactJob));
    CallKeepsCross(s, t, A.CompactJob);
  }

  lemma CrashProcessKeepsInv(service: Service, s: State, p: nat)
    requires Inv(service, s)
    ensures Inv(service, s.(admission := A.AfterCrash(s.admission, p)))
  {
    A.StepKeepsInv(s.admission, A.Crash(p));
    CrashKeepsCross(s, p);
  }

  lemma PostStepKeepsInv(service: Service, s: State, id: nat, post: Post)
    requires Inv(service, s) && PostGood(s.raw, post)
    ensures Inv(service, s.(posts := s.posts[id := post]))
  {
  }

  lemma CheckPostKeepsInv(service: Service, s: State, id: nat)
    requires Inv(service, s) && id in s.posts
    ensures Inv(service, AfterCheck(service, s, id))
  {
    var r := AfterCheck(service, s, id);
    assert PostGood(s.raw, s.posts[id]);
    PostStepKeepsInv(service, s, id, r.posts[id]);
    if r == s {
      assert s.posts[id := s.posts[id]] == s.posts;
    }
  }

  lemma StepKeepsInv(service: Service, s: State, e: Event)
    requires Inv(service, s) && !e.PowerFailure?
    ensures Inv(service, Step(service, s, e))
  {
    match e
    case Raw(raw) => if !raw.PowerLoss? { RawStepKeepsInv(service, s, raw); }
    case AdmissionAct(t) => AdmissionActKeepsInv(service, s, t);
    case Compact(t) => CompactKeepsInv(service, s, t);
    case CrashProcess(p) => CrashProcessKeepsInv(service, s, p);
    case BeginPost(id, o) => if id !in s.posts { PostStepKeepsInv(service, s, id, Pending(o)); }
    case CheckPost(id) => if id in s.posts { CheckPostKeepsInv(service, s, id); }
    case SubmitPost(id, t) => SubmitPostKeepsInv(service, s, id, t);
    case SubmitIngest(c, t) => SubmitIngestKeepsInv(service, s, c, t);
  }

  lemma InitialInv(service: Service)
    ensures Inv(service, INITIAL)
  {
    P.InitialInv(service.store);
    A.InitialInv();
    forall t: A.Thread
      ensures Carried(A.PcOf(INITIAL.admission, t)) == []
    {
      assert A.PcOf(A.INITIAL, t) == A.Idle;
    }
  }

  predicate PowerStaysOn(events: seq<Event>) {
    forall k | 0 <= k < |events| :: !events[k].PowerFailure?
  }

  lemma {:induction false} RunKeepsInv(service: Service, s: State, events: seq<Event>)
    requires Inv(service, s) && PowerStaysOn(events)
    ensures Inv(service, Run(service, s, events))
    decreases |events|
  {
    if events != [] {
      assert !events[0].PowerFailure?;
      StepKeepsInv(service, s, events[0]);
      assert forall k | 0 <= k < |events[1..]| :: events[1..][k] == events[k + 1];
      RunKeepsInv(service, Step(service, s, events[0]), events[1..]);
    }
  }

  /** The record's source can be read back, and its bytes hash to the digest it names. */
  ghost predicate SourceRetrievable(service: Service, s: State, o: Observation) {
    P.Retrievable(service.store, s.raw, o.provenance.digest)
  }

  /**
    In every run without a power failure, every logged observation has its source retained and
    retrievable, was not rejected, and is marked platform-verified; ids are pairwise distinct.
    The retention check needs no lock for this: a linked entry never goes away.
  */
  lemma EveryLoggedRecordHasItsSource(service: Service, events: seq<Event>)
    requires PowerStaysOn(events)
    ensures var s := Run(service, INITIAL, events);
      && DistinctIds(s.admission.log)
      && forall o | o in s.admission.log ::
           SourceRetrievable(service, s, o) && o.disposition != Reject && o.provenance.verification == Platform
  {
    InitialInv(service);
    RunKeepsInv(service, INITIAL, events);
    var s := Run(service, INITIAL, events);
    forall o | o in s.admission.log
      ensures SourceRetrievable(service, s, o) && o.disposition != Reject && o.provenance.verification == Platform
    {
      assert Canonical(s.raw, o);
      P.EntryIsRetrievable(service.store, s.raw, o.provenance.digest);
    }
  }

  // ---------------------------------------------------------------- power failures

  ghost predicate AllRetrievable(service: Service, s: State) {
    forall o | o in s.admission.log :: SourceRetrievable(service, s, o)
  }

  lemma DurableSurvivesFailure(service: Service, s: State)
    requires P.Inv(service.store, s.raw)
    ensures (forall kept: set<P.Name>, garbage: map<nat, Bytes> ::
              AllRetrievable(service, AfterFailure(service, s, kept, garbage)))
            <==> (forall o | o in s.admission.log :: P.Digest(o.provenance.digest) in s.raw.durable)
  {
    if forall o | o in s.admission.log :: P.Digest(o.provenance.digest) in s.raw.durable {
      forall kept: set<P.Name>, garbage: map<nat, Bytes>
        ensures AllRetrievable(service, AfterFailure(service, s, kept, garbage))
      {
        DurableLogSurvives(service, s, kept, garbage);
      }
    } else {
      var o :| o in s.admission.log && P.Digest(o.provenance.digest) !in s.raw.durable;
      P.DurableSurvives(service.store, s.raw, o.provenance.digest);
      var kept: set<P.Name>, garbage: map<nat, Bytes> :|
        !P.Retrievable(service.store, P.AfterPowerLoss(service.store, s.raw, kept, garbage), o.provenance.digest);
      var r := AfterFailure(service, s, kept, garbage);
      assert o in r.admission.log && !SourceRetrievable(service, r, o);
    }
  }

  lemma DurableLogSurvives(service: Service, s: State, kept: set<P.Name>, garbage: map<nat, Bytes>)
    requires P.Inv(service.store, s.raw)
    requires forall o | o in s.admission.log :: P.Digest(o.provenance.digest) in s.raw.durable
    ensures AllRetrievable(service, AfterFailure(service, s, kept, garbage))
  {
    forall o | o in s.admission.log
      ensures P.Retrievable(service.store, P.AfterPowerLoss(service.store, s.raw, kept, garbage), o.provenance.digest)
    {
      P.DurableSurvives(service.store, s.raw, o.provenance.digest);
    }
  }

  lemma {:induction false} RunInTwo(service: Service, s: State, a: seq<Event>, b: seq<Event>)
    ensures Run(service, s, a + b) == Run(service, Run(service, s, a), b)
    decreases |a|
  {
    if a == [] {
      assert a + b == b;
    } else {
      assert (a + b)[1..] == a[1..] + b;
      RunInTwo(service, Step(service, s, a[0]), a[1..], b);
    }
  }

  /** The state a run is in before its event n. */
  function At(service: Service, events: seq<Event>, n: nat): State
    requires n <= |events|
  {
    Run(service, INITIAL, events[..n])
  }

  lemma AtNext(service: Service, events: seq<Event>, n: nat)
    requires n < |events|
    ensures At(service, events, n + 1) == Step(service, At(service, events, n), events[n])
  {
    assert events[..n + 1] == events[..n] + [events[n]];
    RunInTwo(service, INITIAL, events[..n], [events[n]]);
    assert [events[n]][1..] == [];
  }

  lemma StepKeepsRawInv(service: Service, s: State, e: Event)
    requires P.Inv(service.store, s.raw)
    ensures P.Inv(service.store, Step(service, s, e).raw)
  {
    match e
    case Raw(raw) => P.StepKeepsInv(service.store, s.raw, raw);
    case PowerFailure(kept, garbage) => P.PowerLossKeepsInv(service.store, s.raw, kept, garbage);
    case _ =>
  }

  /** The write-once store keeps its invariant in every run, power failures included. */
  lemma {:induction false} AtInv(service: Service, events: seq<Event>, n: nat)
    requires n <= |events|
    ensures P.Inv(service.store, At(service, events, n).raw)
    decreases n
  {
    if n == 0 {
      assert events[..0] == [];
      P.InitialInv(service.store);
    } else {
      AtInv(service, events, n - 1);
      AtNext(service, events, n - 1);
      StepKeepsRawInv(service, At(service, events, n - 1), events[n - 1]);
    }
  }

  /** A directory sync with the digest linked, or a power failure that the link came through. */
  ghost predicate Settles(service: Service, s: State, e: Event, digest: string) {
    || (e.Raw? && P.SyncsLinked(s.raw, e.raw, digest))
    || (e.PowerFailure? && P.Digest(digest) in Step(service, s, e).raw.directory)
  }

  /** At some point of the run the link was synced or came through a power failure. */
  ghost predicate SettledInRun(service: Service, events: seq<Event>, n: nat, digest: string)
    requires n <= |events|
  {
    exists k | 0 <= k < n :: Settles(service, At(service, events, k), events[k], digest)
  }

  lemma DurableStep(service: Service, s: State, e: Event, digest: string)
    requires P.Inv(service.store, s.raw)
    ensures P.Digest(digest) in Step(service, s, e).raw.durable <==>
      P.Digest(digest) in s.raw.durable || Settles(service, s, e, digest)
  {
    match e
    case Raw(raw) => if !raw.PowerLoss? { P.DurableStep(service.store, s.raw, raw, digest); }
    case PowerFailure(kept, garbage) => P.DurableStep(service.store, s.raw, P.PowerLoss(kept, garbage), digest);
    case _ =>
  }

  lemma {:induction false} DurableIffSettled(service: Service, events: seq<Event>, n: nat, digest: string)
    requires n <= |events|
    ensures P.Digest(digest) in At(service, events, n).raw.durable <==> SettledInRun(service, events, n, digest)
    decreases n
  {
    if n == 0 {
      assert events[..0] == [];
    } else {
      DurableIffSettled(service, events, n - 1, digest);
      AtNext(service, events, n - 1);
      AtInv(service, events, n - 1);
      DurableStep(service, At(service, events, n - 1), events[n - 1], digest);
    }
  }

  /**
    After any run, power failures included, every logged record's source outlives a further power
    failure exactly when each was settled: after it was linked, some publisher synced the
    directory or an earlier power failure left the link in place.
  */
  lemma SurvivesPowerFailureIff(service: Service, events: seq<Event>)
    ensures (forall kept: set<P.Name>, garbage: map<nat, Bytes> ::
              AllRetrievable(service, AfterFailure(service, Run(service, INITIAL, events), kept, garbage)))
            <==> (forall o | o in Run(service, INITIAL, events).admission.log ::
                    SettledInRun(service, events, |events|, o.provenance.digest))
  {
    var s := Run(service, INITIAL, events);
    assert events[..|events|] == events;
    AtInv(service, events, |events|);
    forall o | o in s.admission.log
      ensures P.Digest(o.provenance.digest) in s.raw.durable <==>
        SettledInRun(service, events, |events|, o.provenance.digest)
    {
      DurableIffSettled(service, events, |events|, o.provenance.digest);
    }
    DurableSurvivesFailure(service, s);
  }

  function Lifted(events: seq<P.Event>): (r: seq<Event>)
    ensures |r| == |events|
  {
    seq(|events|, k requires 0 <= k < |events| => Raw(events[k]))
  }

  lemma {:induction false} LiftedRun(service: Service, s: State, events: seq<P.Event>)
    requires P.PowerStaysOn(events)
    ensures Run(service, s, Lifted(events)) == s.(raw := P.Run(service.store, s.raw, events))
    decreases |events|
  {
    if events != [] {
      assert !events[0].PowerLoss?;
      assert Lifted(events)[1..] == Lifted(events[1..]);
      assert forall k | 0 <= k < |events[1..]| :: events[1..][k] == events[k + 1];
      LiftedRun(service, Step(service, s, Raw(events[0])), events[1..]);
    }
  }

  function Acts(t: A.Thread, n: nat): (r: seq<Event>)
    ensures |r| == n
  {
    seq(n, _ => AdmissionAct(t))
  }

  lemma {:induction false} ActsRun(service: Service, s: State, t: A.Thread, n: nat)
    ensures Run(service, s, Acts(t, n)) == s.(admission := A.Run(s.admission, A.Acts(t, n)))
    decreases n
  {
    if n > 0 {
      assert Acts(t, n)[1..] == Acts(t, n - 1);
      A.ActOnce(s.admission, t, n);
      ActsRun(service, Step(service, s, AdmissionAct(t)), t, n - 1);
    }
  }

  /**
    An acceptable post that nobody disturbs, over any log: its record is admitted, and when
    nothing conflicts its id is held with its content.
  */
  lemma PostIsLogged(service: Service, s: State, id: nat, o: Observation, t: A.Thread) returns (events: seq<Event>)
    requires P.Retrievable(service.store, s.raw, o.provenance.digest) && o.disposition != Reject
    requires id !in s.posts && A.Outside(s.admission, t)
    ensures PowerStaysOn(events)
    ensures var log, r := s.admission.log, Run(service, s, events);
      && r.raw == s.raw
      && r.admission.log == Admit(log, [WithPlatformVerification(o)])
      && (DistinctIds(log) && Admissible(log, [WithPlatformVerification(o)]) ==>
            o.id in Index(r.admission.log) && ContentOf(Index(r.admission.log)[o.id]) == ContentOf(o))
  {
    var platformed := WithPlatformVerification(o);
    var s1 := Step(service, s, BeginPost(id, o));
    var s2 := Step(service, s1, CheckPost(id));
    var s3 := Step(service, s2, CheckPost(id));
    assert s3.admission == s.admission && s3.raw == s.raw && s3.posts[id] == Checked(o);
    var rest := SubmittedIsLogged(service, s3, id, o, t);
    events := [BeginPost(id, o)] + ([CheckPost(id)] + ([CheckPost(id)] + rest));
    RunOnce(service, s, BeginPost(id, o), [CheckPost(id)] + ([CheckPost(id)] + rest));
    RunOnce(service, s1, CheckPost(id), [CheckPost(id)] + rest);
    RunOnce(service, s2, CheckPost(id), rest);
    if DistinctIds(s.admission.log) && Admissible(s.admission.log, [platformed]) {
      AdmittedContentIsHeld(s.admission.log, [platformed], platformed);
    }
  }

  /** So is a record that is ingested, as one batch, over any stores: its source is on record and retrievable. */
  lemma IngestIsLogged(service: Service, s: State, c: nat, payload: Bytes, t: A.Thread) returns (events: seq<Event>)
    requires P.Inv(service.store, s.raw)
    requires c !in s.raw.calls && c !in s.raw.inodes && P.Temporary(c) !in s.raw.directory
    requires |payload| <= service.store.maximum && IngestedBatch(service, payload).Some?
    requires A.Outside(s.admission, t)
    ensures PowerStaysOn(events)
    ensures var r := Run(service, s, events);
      && r.admission.log == Admit(s.admission.log, IngestedBatch(service, payload).value)
      && P.Retrievable(service.store, r.raw, service.store.hash(payload))
  {
    var solo := P.SoloStore(service.store, s.raw, c, payload);
    var stored := s.(raw := P.Run(service.store, s.raw, solo));
    P.RunKeepsInv(service.store, s.raw, solo);
    P.EntryIsRetrievable(service.store, stored.raw, service.store.hash(payload));
    P.PayloadStays(service.store, P.Step(service.store, s.raw, solo[0]), solo[1..], c);
    LiftedRun(service, s, solo);
    var rest := IngestedIsLogged(service, stored, c, t, IngestedBatch(service, payload).value);
    events := Lifted(solo) + rest;
    RunInTwo(service, s, Lifted(solo), rest);
    assert forall k | 0 <= k < |events| :: !events[k].PowerFailure?;
  }

  lemma SubmittedBatch(service: Service, s: State, c: nat, t: A.Thread, batch: Log)
    requires c in s.raw.calls && s.raw.calls[c].pc.Finished? && s.raw.calls[c].pc.o.Returned?
    requires IngestedBatch(service, s.raw.calls[c].payload) == Some(batch)
    ensures Step(service, s, SubmitIngest(c, t)) == Call(s, t, A.AdmitJob(batch))
  {
  }

  lemma IngestedIsLogged(service: Service, s: State, c: nat, t: A.Thread, batch: Log) returns (events: seq<Event>)
    requires c in s.raw.calls && s.raw.calls[c].pc.Finished? && s.raw.calls[c].pc.o.Returned?
    requires IngestedBatch(service, s.raw.calls[c].payload) == Some(batch) && A.Outside(s.admission, t)
    ensures PowerStaysOn(events)
    ensures var r := Run(service, s, events);
      r.raw == s.raw && r.admission.log == Admit(s.admission.log, batch)
  {
    var solo := A.SoloAdmission(s.admission, t, batch);
    var n := |solo| - 1;
    assert solo[1..] == A.Acts(t, n);
    var submitted := Call(s, t, A.AdmitJob(batch));
    SubmittedBatch(service, s, c, t, batch);
    events := [SubmitIngest(c, t)] + Acts(t, n);
    RunOnce(service, s, SubmitIngest(c, t), Acts(t, n));
    ActsRun(service, submitted, t, n);
    assert solo == [solo[0]] + A.Acts(t, n);
  }

  /** From the submission of a checked post to its record being admitted. */
  lemma SubmittedIsLogged(service: Service, s: State, id: nat, o: Observation, t: A.Thread)
    returns (events: seq<Event>)
    requires id in s.posts && s.posts[id] == Checked(o) && A.Outside(s.admission, t)
    ensures PowerStaysOn(events)
    ensures var r := Run(service, s, events);
      r.raw == s.raw && r.admission.log == Admit(s.admission.log, [WithPlatformVerification(o)])
  {
    var solo := A.SoloAdmission(s.admission, t, [WithPlatformVerification(o)]);
    var n := |solo| - 1;
    assert solo[1..] == A.Acts(t, n);
    var submitted := Step(service, s, SubmitPost(id, t));
    assert submitted.admission == A.Step(s.admission, solo[0]);
    events := [SubmitPost(id, t)] + Acts(t, n);
    RunOnce(service, s, SubmitPost(id, t), Acts(t, n));
    ActsRun(service, submitted, t, n);
    assert solo == [solo[0]] + A.Acts(t, n);
  }

  lemma RunOnce(service: Service, s: State, e: Event, rest: seq<Event>)
    ensures Run(service, s, [e] + rest) == Run(service, Step(service, s, e), rest)
  {
    assert ([e] + rest)[1..] == rest;
  }

  /**
    The exception happens. One call has linked a record and not yet synced the directory; a
    second call finds it and returns; an observation that names it is posted and logged; the
    power fails. The log now names a source that is gone.
  */
  lemma LogCanOutliveItsSource(service: Service, payload: Bytes, o: Observation)
    returns (events: seq<Event>, failure: Event)
    requires |payload| <= service.store.maximum
    requires o.provenance.digest == service.store.hash(payload) && o.disposition != Reject
    ensures PowerStaysOn(events) && failure.PowerFailure?
    ensures var s := Step(service, Run(service, INITIAL, events), failure);
      exists logged :: logged in s.admission.log && !SourceRetrievable(service, s, logged)
  {
    var before, loss := P.UnsyncedReturnCanBeLost(service.store, payload);
    LiftedRun(service, INITIAL, before);
    var s := Run(service, INITIAL, Lifted(before));
    assert s == INITIAL.(raw := P.Run(service.store, P.INITIAL, before));
    assert Admissible([], [WithPlatformVerification(o)]) by {
      assert [WithPlatformVerification(o)][1..] == [];
    }
    var posting := PostIsLogged(service, s, 1, o, A.Thread(0, 0));
    events := Lifted(before) + posting;
    RunInTwo(service, INITIAL, Lifted(before), posting);
    failure := PowerFailure(loss.kept, loss.garbage);
    SourceIsGone(service, Run(service, INITIAL, events), loss, o);
    assert forall k | 0 <= k < |events| :: !events[k].PowerFailure?;
  }

  lemma SourceIsGone(service: Service, s: State, loss: P.Event, o: Observation)
    requires loss.PowerLoss? && o.id in Index(s.admission.log)
    requires ContentOf(Index(s.admission.log)[o.id]) == ContentOf(o)
    requires !P.Retrievable(service.store, P.Step(service.store, s.raw, loss), o.provenance.digest)
    ensures var r := Step(service, s, PowerFailure(loss.kept, loss.garbage));
      exists logged :: logged in r.admission.log && !SourceRetrievable(service, r, logged)
  {
    var r := Step(service, s, PowerFailure(loss.kept, loss.garbage));
    var logged := Index(s.admission.log)[o.id];
    IndexHolds(s.admission.log, o.id);
    assert logged.provenance.digest == ContentOf(logged).digest == ContentOf(o).digest == o.provenance.digest;
    assert logged in r.admission.log && !SourceRetrievable(service, r, logged);
  }
}

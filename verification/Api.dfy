/** The two ways a record enters the log through the API, over the two stores. */
module Api {
  import opened Wrappers
  import opened Observations
  import opened Admission
  import opened JsonlStore
  import opened Pipeline
  import opened RawStore

  datatype ApiError =
    | RejectedObservation
    | SourceNotRetained
    | SourceFault(error: StoreError)
    | IngestFault(cause: PipelineError)
    | NotAdmitted(refusal: AdmissionError)

  /** Absence is the client's error; anything wrong with an entry that is there is a fault. */
  method RequireRetainedSource(raw: RawSourceStore, digest: string) returns (r: Result<(), ApiError>)
    ensures r.Ok? <==> PassesPattern(digest) && raw.Holds(digest)
    ensures r == Err(SourceNotRetained) <==> PassesPattern(digest) && digest !in raw.entries
    ensures r.Err? ==> r.error.SourceNotRetained? || r.error.SourceFault?
  {
    var present := raw.Exists(digest);
    if present.Err? {
      return Err(SourceFault(present.error));
    }
    if !present.value {
      return Err(SourceNotRetained);
    }
    var retrieved := raw.Retrieve(digest);
    if retrieved.Err? {
      return Err(SourceFault(retrieved.error));
    }
    r := Ok(());
  }

  /** Each logged record has its source on record, was not rejected and is platform-verified. */
  ghost predicate CanonicalLog(raw: RawSourceStore, log: Log)
    reads raw
  {
    forall o | o in log ::
      raw.Holds(o.provenance.digest) && o.disposition != Reject && o.provenance.verification == Platform
  }

  ghost predicate Canonical(raw: RawSourceStore, store: JsonlObservationStore)
    reads raw, store
  {
    Parse(store.Lines()).Ok? ==> CanonicalLog(raw, Parse(store.Lines()).value)
  }

  lemma AdmittedComesFrom(log: Log, batch: Log, o: Observation)
    requires o in Admit(log, batch)
    ensures o in log || o in batch
  {
    AfterAppendsFresh(log, batch);
    if o !in log && Admissible(log, batch) {
      FreshComesFromBatch(log, batch, o);
    }
  }

  /** Admits a batch that is fit for the log; the log stays fit. */
  method AdmitFit(raw: RawSourceStore, store: JsonlObservationStore, batch: Log)
    returns (r: Result<(), AdmissionError>)
    requires store.Valid() && CanonicalLog(raw, batch)
    modifies store
    ensures store.LockRestored()
    ensures r.Ok? <==> old(Parse(store.Lines())).Ok? && Admissible(old(Parse(store.Lines())).value, batch)
    ensures r.Ok? ==> Parse(store.Lines()) == Ok(Admit(old(Parse(store.Lines())).value, batch))
    ensures r.Err? ==> store.file == old(store.file)
    ensures old(Canonical(raw, store)) ==> Canonical(raw, store)
  {
    r := AdmitObservations(store, batch);
    if r.Ok? {
      forall p | p in Parse(store.Lines()).value
        ensures p in old(Parse(store.Lines())).value || p in batch
      {
        AdmittedComesFrom(old(Parse(store.Lines())).value, batch, p);
      }
    }
  }

  /** Whether a posted observation is accepted, given what the stores hold. */
  ghost predicate Accepts(raw: RawSourceStore, before: Result<Log, nat>, o: Observation)
    reads raw
  {
    && o.disposition != Reject
    && PassesPattern(o.provenance.digest)
    && raw.Holds(o.provenance.digest)
    && before.Ok?
    && Admissible(before.value, [WithPlatformVerification(o)])
  }

  method CreateObservation(raw: RawSourceStore, store: JsonlObservationStore, o: Observation)
    returns (r: Result<Uuid, ApiError>)
    requires store.Valid()
    modifies store
    ensures store.LockRestored()
    ensures r.Ok? <==> Accepts(raw, old(Parse(store.Lines())), o)
    ensures r.Ok? ==>
      && r.value == o.id
      && Parse(store.Lines()) == Ok(Admit(old(Parse(store.Lines())).value, [WithPlatformVerification(o)]))
    ensures r.Err? ==> store.file == old(store.file)
    ensures o.disposition == Reject ==> r == Err(RejectedObservation)
    ensures old(Canonical(raw, store)) ==> Canonical(raw, store)
  {
    if o.disposition == Reject {
      return Err(RejectedObservation);
    }
    var source := RequireRetainedSource(raw, o.provenance.digest);
    if source.Err? {
      return Err(source.error);
    }
    var admitted := AdmitFit(raw, store, [WithPlatformVerification(o)]);
    if admitted.Err? {
      return Err(NotAdmitted(admitted.error));
    }
    r := Ok(o.id);
  }

  function IdsOf(observations: seq<Observation>): seq<Uuid> {
    seq(|observations|, k requires 0 <= k < |observations| => observations[k].id)
  }

  lemma BatchIsFit(raw: RawSourceStore, uuid5: string -> Uuid, decoded: Option<seq<Observation>>, payload: Bytes)
    requires raw.OnRecord(payload) && IngestBatch(uuid5, raw.hash(payload), decoded).Some?
    ensures CanonicalLog(raw, IngestBatch(uuid5, raw.hash(payload), decoded).value)
  {
    var digest := raw.hash(payload);
    var identified := Identify(uuid5, digest, decoded.value).value;
    forall o | o in Platformed(identified)
      ensures o.provenance.digest == digest && o.disposition != Reject && o.provenance.verification == Platform
    {
      var k :| 0 <= k < |identified| && Platformed(identified)[k] == o;
      assert identified[k] in identified && decoded.value[k].provenance.digest == digest;
    }
  }

  predicate IsStorageFault(r: Result<(string, seq<Uuid>), ApiError>) {
    r.Err? && r.error.IngestFault? && r.error.cause.Storage?
  }

  /** A source record: retained, decoded, identified, and its observations admitted as one batch. */
  method IngestAndStore(
      payload: Bytes, adapter: ObservationAdapter, uuid5: string -> Uuid,
      raw: RawSourceStore, rival: Option<Entry>, store: JsonlObservationStore)
    returns (r: Result<(string, seq<Uuid>), ApiError>)
    requires store.Valid()
    modifies raw, raw.journal, store
    ensures store.LockRestored()
    ensures forall e | e in old(raw.entries) :: e in raw.entries && raw.entries[e] == old(raw.entries)[e]
    ensures !IsStorageFault(r) ==> raw.Holds(raw.hash(payload))
    ensures r.Ok? <==>
      && !IsStorageFault(r)
      && IngestBatch(uuid5, raw.hash(payload), adapter.decode(payload)).Some?
      && old(Parse(store.Lines())).Ok?
      && Admissible(old(Parse(store.Lines())).value,
                    IngestBatch(uuid5, raw.hash(payload), adapter.decode(payload)).value)
    ensures r.Ok? ==>
      var batch := IngestBatch(uuid5, raw.hash(payload), adapter.decode(payload)).value;
      && Parse(store.Lines()) == Ok(Admit(old(Parse(store.Lines())).value, batch))
      && r.value == (raw.hash(payload), IdsOf(batch))
    ensures r == Err(RejectedObservation) <==>
      && !IsStorageFault(r) && adapter.decode(payload).Some?
      && (forall o | o in adapter.decode(payload).value :: o.provenance.digest == raw.hash(payload))
      && exists o | o in adapter.decode(payload).value :: o.disposition == Reject
    ensures r.Err? ==> store.file == old(store.file)
    ensures old(Canonical(raw, store)) ==> Canonical(raw, store)
  {
    var ingested := IngestSourceRecord(payload, adapter, uuid5, raw, rival);
    if ingested.Err? {
      return Err(IngestFault(ingested.error));
    }
    var observations := ingested.value.observations;
    RejectionIsKept(uuid5, raw.hash(payload), adapter.decode(payload).value, observations);
    if exists o | o in observations :: o.disposition == Reject {
      return Err(RejectedObservation);
    }
    BatchIsFit(raw, uuid5, adapter.decode(payload), payload);
    var admitted := AdmitFit(raw, store, Platformed(observations));
    if admitted.Err? {
      return Err(NotAdmitted(admitted.error));
    }
    r := Ok((ingested.value.digest, IdsOf(Platformed(observations))));
  }
}

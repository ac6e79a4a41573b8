/** Decoding a retained source record into identified observations. */
module Pipeline {
  import opened Journal
  import opened Observations
  import opened RawStore
  import opened Text
  import opened Wrappers

  /** The text whose name-based UUID is the observation's id. */
  function IdentityName(digest: string, decoder: string, index: nat): string {
    digest + "|" + decoder + "|" + Decimal(index)
  }

  function DeriveObservationId(uuid5: string -> Uuid, digest: string, decoder: string, index: nat): Uuid {
    uuid5(IdentityName(digest, decoder, index))
  }

  /** The name splits into the digest, the pieces of the decoder version, and the index. */
  lemma IdentityNameSplit(digest: string, decoder: string, index: nat)
    requires '|' !in digest
    ensures Split(IdentityName(digest, decoder, index), '|')
            == [digest] + Split(decoder, '|') + [Decimal(index)]
  {
    var tail := decoder + "|" + Decimal(index);
    assert IdentityName(digest, decoder, index) == digest + ['|'] + tail;
    SplitAppend(digest, tail, '|');
    SplitWithout(digest, '|');
    SplitAppend(decoder, Decimal(index), '|');
    SplitWithout(Decimal(index), '|');
  }

  /** Rendering is injective, even when decoder versions contain the separator. */
  lemma IdentityNameIsInjective(d1: string, v1: string, i1: nat, d2: string, v2: string, i2: nat)
    requires IsDigest(d1) && IsDigest(d2)
    requires IdentityName(d1, v1, i1) == IdentityName(d2, v2, i2)
    ensures d1 == d2 && v1 == v2 && i1 == i2
  {
    IdentityNameSplit(d1, v1, i1);
    IdentityNameSplit(d2, v2, i2);
    var parts := Split(IdentityName(d1, v1, i1), '|');
    var n := |parts| - 1;
    assert parts[0] == d1 == d2;
    assert parts[n] == Decimal(i1) == Decimal(i2);
    DecimalRoundTrip(i1);
    DecimalRoundTrip(i2);
    assert parts[1..n] == Split(v1, '|') == Split(v2, '|');
    JoinSplit(v1, '|');
    JoinSplit(v2, '|');
  }

  datatype PipelineError = Storage(error: StoreError) | Undecodable(digest: string) | ForeignSource

  datatype IngestResult = IngestResult(digest: string, observations: seq<Observation>)

  /** The observations a record yields, with ids derived from it, or nothing if one is foreign. */
  function Identify(uuid5: string -> Uuid, digest: string, decoded: seq<Observation>): Option<seq<Observation>> {
    if exists k | 0 <= k < |decoded| :: decoded[k].provenance.digest != digest then None
    else Some(seq(|decoded|, k requires 0 <= k < |decoded| => Identified(uuid5, digest, decoded[k], k)))
  }

  function Identified(uuid5: string -> Uuid, digest: string, o: Observation, index: nat): Observation {
    o.(id := DeriveObservationId(uuid5, digest, o.provenance.decoderVersion, index))
  }

  lemma IdentifiedAll(uuid5: string -> Uuid, digest: string, decoded: seq<Observation>, all: seq<Observation>)
    requires |all| == |decoded|
    requires forall k | 0 <= k < |decoded| ::
      decoded[k].provenance.digest == digest && all[k] == Identified(uuid5, digest, decoded[k], k)
    ensures Identify(uuid5, digest, decoded) == Some(all)
  {
    assert all == seq(|decoded|, k requires 0 <= k < |decoded| => Identified(uuid5, digest, decoded[k], k));
  }

  /** The injected decoder; each use goes into the journal. */
  class ObservationAdapter {
    const decode: Bytes -> Option<seq<Observation>>

    constructor (decode: Bytes -> Option<seq<Observation>>)
      ensures this.decode == decode
    {
      this.decode := decode;
    }

    method Decode(payload: Bytes, raw: RawSourceStore) returns (r: Option<seq<Observation>>)
      modifies raw.journal
      ensures r == decode(payload)
      ensures raw.journal.events == old(raw.journal.events) + [Action.Decode(payload, raw.OnRecord(payload))]
    {
      raw.journal.Append(Action.Decode(payload, raw.OnRecord(payload)));
      r := decode(payload);
    }
  }

  /**
    Retention first, so that a record that cannot be decoded is still there to review: the
    journal shows the decoder at work on bytes already on record.
  */
  method IngestSourceRecord(payload: Bytes, adapter: ObservationAdapter,
                            uuid5: string -> Uuid, raw: RawSourceStore, rival: Option<Entry>)
    returns (r: Result<IngestResult, PipelineError>)
    modifies raw, raw.journal
    ensures raw.journal.events == old(raw.journal.events) +
              if r.Err? && r.error.Storage? then [] else [Retain(payload), Action.Decode(payload, true)]
    ensures raw.temporaries == old(raw.temporaries)
    ensures forall e | e in old(raw.entries) :: e in raw.entries && raw.entries[e] == old(raw.entries)[e]
    ensures !(r.Err? && r.error.Storage?) ==>
      Retained(raw.entries, raw.hash(payload), raw.maximum, raw.hash)
    ensures r == Err(Undecodable(raw.hash(payload))) <==> !(r.Err? && r.error.Storage?) && adapter.decode(payload).None?
    ensures r.Ok? <==> !(r.Err? && r.error.Storage?) && adapter.decode(payload).Some?
                       && Identify(uuid5, raw.hash(payload), adapter.decode(payload).value).Some?
    ensures r.Ok? ==>
      && r.value.digest == raw.hash(payload)
      && Identify(uuid5, raw.hash(payload), adapter.decode(payload).value) == Some(r.value.observations)
    ensures r == Err(ForeignSource) <==>
      && !(r.Err? && r.error.Storage?) && adapter.decode(payload).Some?
      && exists o | o in adapter.decode(payload).value :: o.provenance.digest != raw.hash(payload)
    ensures r.Ok? ==>
      var decoded := adapter.decode(payload).value;
      && |r.value.observations| == |decoded|
      && forall k | 0 <= k < |decoded| :: r.value.observations[k] == decoded[k].(
           id := uuid5(raw.hash(payload) + "|" + decoded[k].provenance.decoderVersion + "|" + Decimal(k)))
  {
    var stored := raw.Store(payload, rival);
    if stored.Err? {
      return Err(Storage(stored.error));
    }
    var digest := stored.value;
    var decoded := adapter.Decode(payload, raw);
    if decoded.None? {
      return Err(Undecodable(digest));
    }
    var identified: seq<Observation> := [];
    for index := 0 to |decoded.value|
      invariant |identified| == index
      invariant forall k | 0 <= k < index ::
        decoded.value[k].provenance.digest == digest
        && identified[k] == Identified(uuid5, digest, decoded.value[k], k)
    {
      if decoded.value[index].provenance.digest != digest {
        return Err(ForeignSource);
      }
      identified := identified + [Identified(uuid5, digest, decoded.value[index], index)];
    }
    IdentifiedAll(uuid5, digest, decoded.value, identified);
    return Ok(IngestResult(digest, identified));
  }

  lemma RejectionIsKept(uuid5: string -> Uuid, digest: string, decoded: seq<Observation>, all: seq<Observation>)
    requires Identify(uuid5, digest, decoded) == Some(all)
    ensures (exists o | o in all :: o.disposition == Reject) <==> exists o | o in decoded :: o.disposition == Reject
    ensures forall o | o in decoded :: o.provenance.digest == digest
  {
    assert forall k | 0 <= k < |decoded| ::
      all[k].disposition == decoded[k].disposition && all[k] in all && decoded[k] in decoded;
  }

  /** The batch that an ingested record brings to admission, if it may. */
  function IngestBatch(
      uuid5: string -> Uuid, digest: string, decoded: Option<seq<Observation>>): Option<seq<Observation>>
  {
    if decoded.None? then None
    else
      var identified := Identify(uuid5, digest, decoded.value);
      if identified.None? || (exists o | o in identified.value :: o.disposition == Reject) then None
      else Some(Platformed(identified.value))
  }

  /** A batch is brought exactly by a record that decodes to its own, unrejected observations; these are they. */
  lemma IngestBatchIff(uuid5: string -> Uuid, digest: string, decoded: Option<seq<Observation>>)
    ensures IngestBatch(uuid5, digest, decoded).Some? <==>
      decoded.Some? && forall o | o in decoded.value :: o.provenance.digest == digest && o.disposition != Reject
    ensures IngestBatch(uuid5, digest, decoded).Some? ==>
      var batch := IngestBatch(uuid5, digest, decoded).value;
      && |batch| == |decoded.value|
      && forall k | 0 <= k < |batch| ::
           var o := decoded.value[k];
           batch[k] == o.(id := uuid5(digest + "|" + o.provenance.decoderVersion + "|" + Decimal(k)),
                          provenance := o.provenance.(verification := Platform))
  {
    if decoded.Some? && Identify(uuid5, digest, decoded.value).Some? {
      var identified := Identify(uuid5, digest, decoded.value).value;
      assert forall k | 0 <= k < |identified| ::
        identified[k].disposition == decoded.value[k].disposition && identified[k] in identified;
    }
  }

  /** One ingest result has pairwise distinct ids, if the UUID hash separates its names. */
  lemma IngestedIdsAreDistinct(uuid5: string -> Uuid, digest: string, decoded: seq<Observation>, i: nat, j: nat)
    requires IsDigest(digest)
    requires Identify(uuid5, digest, decoded).Some? && i < j < |decoded|
    requires var a := IdentityName(digest, decoded[i].provenance.decoderVersion, i);
             var b := IdentityName(digest, decoded[j].provenance.decoderVersion, j);
             uuid5(a) == uuid5(b) ==> a == b
    ensures var observations := Identify(uuid5, digest, decoded).value;
      observations[i].id != observations[j].id
  {
    if Identify(uuid5, digest, decoded).value[i].id == Identify(uuid5, digest, decoded).value[j].id {
      IdentityNameIsInjective(digest, decoded[i].provenance.decoderVersion, i,
                              digest, decoded[j].provenance.decoderVersion, j);
    }
  }

  /** Records decoded from different sources, or by different decoder versions, never share an id. */
  lemma DistinctSourcesDistinctIds(uuid5: string -> Uuid, d1: string, v1: string, i1: nat,
                                   d2: string, v2: string, i2: nat)
    requires IsDigest(d1) && IsDigest(d2)
    requires uuid5(IdentityName(d1, v1, i1)) == uuid5(IdentityName(d2, v2, i2))
             ==> IdentityName(d1, v1, i1) == IdentityName(d2, v2, i2)
    ensures DeriveObservationId(uuid5, d1, v1, i1) == DeriveObservationId(uuid5, d2, v2, i2)
            <==> d1 == d2 && v1 == v2 && i1 == i2
  {
    if DeriveObservationId(uuid5, d1, v1, i1) == DeriveObservationId(uuid5, d2, v2, i2) {
      IdentityNameIsInjective(d1, v1, i1, d2, v2, i2);
    }
  }
}

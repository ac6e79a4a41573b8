/** The canonical observation record and the part of it that counts as content. */
module Observations {
  import opened Wrappers

  /** A UUID, as the number its 128 bits spell. */
  type Uuid = nat

  datatype Disposition = Accept | AcceptWithFlags | Quarantine | Reject

  datatype Verification = Upstream | Platform

  datatype Provenance = Provenance(
    sourceId: string,
    sourceUri: Option<string>,
    publishedAt: Option<int>,
    digest: string,
    verification: Verification,
    receivedAt: Option<int>,
    ingestedAt: int,
    decoderVersion: string,
    license: Option<string>)

  /** `body` stands for phenomenon, value, unit, geometry and the other measured fields. */
  datatype Observation = Observation(
    id: Uuid,
    body: string,
    observationTime: int,
    ingestionTime: int,
    disposition: Disposition,
    provenance: Provenance)

  datatype Content = Content(
    id: Uuid,
    body: string,
    observationTime: int,
    disposition: Disposition,
    sourceId: string,
    publishedAt: Option<int>,
    digest: string,
    decoderVersion: string,
    license: Option<string>)

  /** Everything but acquisition metadata: receipt times, transport URL and trust state. */
  function ContentOf(o: Observation): Content {
    Content(o.id, o.body, o.observationTime, o.disposition,
            o.provenance.sourceId, o.provenance.publishedAt, o.provenance.digest,
            o.provenance.decoderVersion, o.provenance.license)
  }

  /** The record with the acquisition metadata of another: all that may differ under one id. */
  function WithAcquisitionOf(o: Observation, other: Observation): Observation {
    o.(ingestionTime := other.ingestionTime,
       provenance := o.provenance.(
         sourceUri := other.provenance.sourceUri,
         receivedAt := other.provenance.receivedAt,
         ingestedAt := other.provenance.ingestedAt,
         verification := other.provenance.verification))
  }

  /** Content is everything else: two records agree in it exactly when acquisition alone tells them apart. */
  lemma ContentMeans(a: Observation, b: Observation)
    ensures ContentOf(a) == ContentOf(b) <==> WithAcquisitionOf(b, a) == a
  {
  }

  /** Only the trust state is set. */
  function WithPlatformVerification(o: Observation): (r: Observation)
    ensures r.provenance.verification == Platform
    ensures r.(provenance := r.provenance.(verification := o.provenance.verification)) == o
  {
    o.(provenance := o.provenance.(verification := Platform))
  }

  function Platformed(observations: seq<Observation>): (r: seq<Observation>)
    ensures |r| == |observations|
    ensures forall k | 0 <= k < |r| :: r[k] == WithPlatformVerification(observations[k])
  {
    seq(|observations|, k requires 0 <= k < |observations| => WithPlatformVerification(observations[k]))
  }
}

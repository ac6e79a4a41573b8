/** The manifest of one retained byte range of a provider object. Times are integers. */
module SourceManifests {
  import opened Wrappers

  datatype ByteSelection = ByteSelection(byteStart: int, byteEnd: int)

  predicate ValidSelection(s: ByteSelection) {
    0 <= s.byteStart <= s.byteEnd
  }

  function SelectionLength(s: ByteSelection): int {
    s.byteEnd - s.byteStart + 1
  }

  datatype Upstream = Upstream(bucket: string, key: string, contentLength: int)

  datatype Labels = Labels(provider: string, dataset: string, product: string, cycle: int, forecastHour: int)

  datatype Times = Times(discovered: int, started: int, received: int, retained: int)

  datatype Manifest = Manifest(
    labels: Labels,
    upstream: Upstream,
    selection: ByteSelection,
    indexDigest: string,
    payloadDigest: string,
    transportVerified: bool,
    times: Times)

  datatype ManifestError =
    | InvalidSelection
    | NoIndexBytes
    | PayloadLengthDiffers
    | InvalidField
    | RangeExceedsObject
    | TimesNotMonotonic

  predicate ValidLabels(l: Labels) {
    l.provider != "" && l.dataset != "" && l.product != "" && l.forecastHour >= 0
  }

  predicate ValidUpstream(u: Upstream) {
    u.bucket != "" && u.key != "" && u.contentLength > 0
  }

  predicate Monotonic(t: Times) {
    t.discovered <= t.started <= t.received <= t.retained
  }

  function FromRetainedBytes(
      hash: Bytes -> string,
      labels: Labels,
      upstream: Upstream,
      selection: ByteSelection,
      indexBytes: Bytes,
      payload: Bytes,
      transportVerified: bool,
      times: Times): Result<Manifest, ManifestError>
  {
    if !ValidSelection(selection) then Err(InvalidSelection)
    else if !ValidUpstream(upstream) then Err(InvalidField)
    else if indexBytes == [] then Err(NoIndexBytes)
    else if |payload| != SelectionLength(selection) then Err(PayloadLengthDiffers)
    else if !ValidLabels(labels) then Err(InvalidField)
    else if selection.byteEnd >= upstream.contentLength then Err(RangeExceedsObject)
    else if !Monotonic(times) then Err(TimesNotMonotonic)
    else Ok(Manifest(labels, upstream, selection, hash(indexBytes), hash(payload), transportVerified, times))
  }

  /** A manifest is made exactly of a range inside its object, its bytes, named parts and ordered times. */
  lemma ManifestIff(
      hash: Bytes -> string, labels: Labels, upstream: Upstream, selection: ByteSelection,
      indexBytes: Bytes, payload: Bytes, transportVerified: bool, times: Times)
    ensures FromRetainedBytes(hash, labels, upstream, selection, indexBytes, payload, transportVerified, times).Ok? <==>
      && 0 <= selection.byteStart <= selection.byteEnd < upstream.contentLength
      && indexBytes != [] && |payload| == selection.byteEnd + 1 - selection.byteStart
      && "" !in [labels.provider, labels.dataset, labels.product, upstream.bucket, upstream.key]
      && labels.forecastHour >= 0
      && times.discovered <= times.started && times.started <= times.received && times.received <= times.retained
    ensures
      var r := FromRetainedBytes(hash, labels, upstream, selection, indexBytes, payload, transportVerified, times);
      r.Ok? ==>
        && r.value.labels == labels && r.value.upstream == upstream && r.value.selection == selection
        && r.value.indexDigest == hash(indexBytes) && r.value.payloadDigest == hash(payload)
        && r.value.transportVerified == transportVerified && r.value.times == times
  {
  }
}

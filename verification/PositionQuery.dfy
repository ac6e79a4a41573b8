/**
  The EDR position query: an indexed prefilter read in batches and re-checked against the
  true distance, and the brute-force collection it has to agree with.
*/
module PositionQuery {
  import opened Observations
  import opened Wrappers
  import opened Sequences
  import opened Trigonometry
  import opened GreatCircle

  /** One stored observation; `body` stands for the fields the query only copies out. */
  datatype Row = Row(
    id: string,
    longitude: real,
    latitude: real,
    phenomenon: string,
    disposition: Disposition,
    observedAt: int,
    body: string)

  /** Intake validation bounds every stored position. */
  predicate LegalRow(row: Row) {
    -180.0 <= row.longitude <= 180.0 && -90.0 <= row.latitude <= 90.0
  }

  /** A parsed request; `readableBounds` says whether the bounds of its time interval could be read. */
  datatype Query = Query(
    longitude: real,
    latitude: real,
    within: real,
    phenomena: Option<seq<string>>,
    includeQuarantined: bool,
    readableBounds: bool,
    start: Option<int>,
    end: Option<int>,
    limit: int)

  datatype RouteError = InvalidDatetime | InvalidPosition | InvalidRadius | InvalidLimit | InvalidParameterName

  predicate IsPhenomenon(name: string) {
    && 0 < |name| <= 80
    && 'a' <= name[0] <= 'z'
    && forall k | 0 <= k < |name| :: 'a' <= name[k] <= 'z' || '0' <= name[k] <= '9' || name[k] == '_'
  }

  /** Both bounds can be read, and the interval does not end before it starts. */
  predicate ValidInterval(q: Query) {
    q.readableBounds && (q.start.Some? && q.end.Some? ==> q.start.value <= q.end.value)
  }

  function Validate(q: Query): Option<RouteError> {
    if !ValidInterval(q) then Some(InvalidDatetime)
    else if !(-180.0 <= q.longitude <= 180.0 && -90.0 <= q.latitude <= 90.0) then Some(InvalidPosition)
    else if !(0.0 < q.within <= 45.0) then Some(InvalidRadius)
    else if !(1 <= q.limit <= 10000) then Some(InvalidLimit)
    else if q.phenomena.Some? && (q.phenomena.value == []
                                  || exists name | name in q.phenomena.value :: !IsPhenomenon(name))
      then Some(InvalidParameterName)
    else None
  }

  /** A query is refused for the first thing that is wrong with it. */
  lemma RefusedFor(q: Query)
    ensures var r := Validate(q);
      var readable := q.readableBounds && (q.start.None? || q.end.None? || q.start.value <= q.end.value);
      var placed := -180.0 <= q.longitude <= 180.0 && -90.0 <= q.latitude <= 90.0;
      var near := q.within > 0.0 && q.within <= 45.0;
      var limited := q.limit >= 1 && q.limit <= 10000;
      var named := q.phenomena.None? || (q.phenomena.value != [] && forall name | name in q.phenomena.value ::
        && 1 <= |name| <= 80 && 'a' <= name[0] <= 'z'
        && forall k | 0 <= k < |name| :: 'a' <= name[k] <= 'z' || '0' <= name[k] <= '9' || name[k] == '_');
      && (r == None <==> readable && placed && near && limited && named)
      && (r == Some(InvalidDatetime) <==> !readable)
      && (r == Some(InvalidPosition) <==> readable && !placed)
      && (r == Some(InvalidRadius) <==> readable && placed && !near)
      && (r == Some(InvalidLimit) <==> readable && placed && near && !limited)
      && (r == Some(InvalidParameterName) <==> readable && placed && near && limited && !named)
  {
  }

  // ---------------------------------------------------------------- the indexed conditions

  datatype Condition =
    | PhenomenonIn(names: seq<string>)
    | NotQuarantined
    | ObservedFrom(instant: int)
    | ObservedUntil(instant: int)
    | LatitudeFrom(bound: real)
    | LatitudeUntil(bound: real)
    | LongitudeIn(ranges: seq<(real, real)>)

  predicate Holds(c: Condition, row: Row) {
    match c
    case PhenomenonIn(names) => row.phenomenon in names
    case NotQuarantined => row.disposition != Quarantine
    case ObservedFrom(instant) => row.observedAt >= instant
    case ObservedUntil(instant) => row.observedAt <= instant
    case LatitudeFrom(bound) => row.latitude >= bound
    case LatitudeUntil(bound) => row.latitude <= bound
    case LongitudeIn(ranges) => InRanges(ranges, row.longitude)
  }

  /** The WHERE clause: every condition holds. */
  predicate AllHold(conditions: seq<Condition>, row: Row) {
    forall k | 0 <= k < |conditions| :: Holds(conditions[k], row)
  }

  function Selects(conditions: seq<Condition>): Row -> bool {
    (row: Row) => AllHold(conditions, row)
  }

  predicate IsNear(t: Trig, q: Query, row: Row) {
    AngularDistanceDegrees(t, q.longitude, q.latitude, row.longitude, row.latitude) <= q.within
  }

  function WithinRadius(t: Trig, q: Query): Row -> bool {
    (row: Row) => IsNear(t, q, row)
  }

  /** What the query asks for, apart from the position. */
  predicate Visible(q: Query, row: Row) {
    && (q.phenomena.Some? ==> row.phenomenon in q.phenomena.value)
    && (!q.includeQuarantined ==> row.disposition != Quarantine)
    && (q.start.Some? ==> row.observedAt >= q.start.value)
    && (q.end.Some? ==> row.observedAt <= q.end.value)
  }

  function Matches(t: Trig, q: Query): Row -> bool {
    (row: Row) => Visible(q, row) && IsNear(t, q, row)
  }

  /** The latitude box and the longitude ranges of the index. */
  predicate InBox(q: Query, ranges: seq<(real, real)>, row: Row) {
    && Max(-90.0, q.latitude - q.within) <= row.latitude <= Min(90.0, q.latitude + q.within)
    && InRanges(ranges, row.longitude)
  }

  function RangesOf(t: Trig, q: Query): seq<(real, real)>
    requires Laws(t)
    requires Validate(q) == None
  {
    LongitudeRanges(t, q.longitude, q.latitude, q.within)
  }

  /** What the route returns rows for: in the index, and within the radius after all. */
  function Accepted(t: Trig, q: Query): Row -> bool
    requires Laws(t)
    requires Validate(q) == None
  {
    var ranges := RangesOf(t, q);
    (row: Row) => Visible(q, row) && InBox(q, ranges, row) && IsNear(t, q, row)
  }

  // ---------------------------------------------------------------- the paged route

  /** One SQL page: at most `size` of the selected rows, from `offset` on. */
  function Page(selected: seq<Row>, offset: nat, size: nat): (rows: seq<Row>)
    requires offset <= |selected|
    ensures |rows| <= size && offset + |rows| <= |selected|
    ensures rows == selected[offset..offset + |rows|]
    ensures |rows| < size ==> offset + |rows| == |selected|
  {
    Take(selected[offset..], size)
  }

  const BATCH_SIZE := 1000

  /** The conditions in the order in which the route pushes them. */
  function PhenomenonConditions(q: Query): seq<Condition> {
    if q.phenomena.Some? then [PhenomenonIn(q.phenomena.value)] else []
  }

  function QualityConditions(q: Query): seq<Condition> {
    if q.includeQuarantined then [] else [NotQuarantined]
  }

  function StartConditions(q: Query): seq<Condition> {
    if q.start.Some? then [ObservedFrom(q.start.value)] else []
  }

  function EndConditions(q: Query): seq<Condition> {
    if q.end.Some? then [ObservedUntil(q.end.value)] else []
  }

  function VisibilityConditions(q: Query): seq<Condition> {
    PhenomenonConditions(q) + QualityConditions(q) + StartConditions(q) + EndConditions(q)
  }

  function BoxConditions(q: Query, ranges: seq<(real, real)>): seq<Condition> {
    [LatitudeFrom(Max(-90.0, q.latitude - q.within)), LatitudeUntil(Min(90.0, q.latitude + q.within))]
    + (if ranges == [(-180.0, 180.0)] then [] else [LongitudeIn(ranges)])
  }

  lemma AllHoldAppend(a: seq<Condition>, b: seq<Condition>, row: Row)
    ensures AllHold(a + b, row) <==> AllHold(a, row) && AllHold(b, row)
  {
    var c := a + b;
    assert forall k | 0 <= k < |a| :: c[k] == a[k];
    assert forall k | 0 <= k < |b| :: c[|a| + k] == b[k];
    if AllHold(a, row) && AllHold(b, row) {
      forall k | 0 <= k < |c|
        ensures Holds(c[k], row)
      {
        if k >= |a| {
          assert c[k] == b[k - |a|];
        }
      }
    } else if AllHold(c, row) {
      forall k | 0 <= k < |b|
        ensures Holds(b[k], row)
      {
        assert Holds(c[|a| + k], row);
      }
    }
  }

  lemma SingleHolds(c: Condition, row: Row)
    ensures AllHold([c], row) <==> Holds(c, row)
  {
    assert [c][0] == c;
  }

  lemma VisibilityExact(q: Query, row: Row)
    ensures AllHold(VisibilityConditions(q), row) <==> Visible(q, row)
  {
    var a, b, c, d := PhenomenonConditions(q), QualityConditions(q), StartConditions(q), EndConditions(q);
    AllHoldAppend(a, b, row);
    AllHoldAppend(a + b, c, row);
    AllHoldAppend(a + b + c, d, row);
    if q.phenomena.Some? {
      SingleHolds(PhenomenonIn(q.phenomena.value), row);
    }
    SingleHolds(NotQuarantined, row);
    if q.start.Some? {
      SingleHolds(ObservedFrom(q.start.value), row);
    }
    if q.end.Some? {
      SingleHolds(ObservedUntil(q.end.value), row);
    }
  }

  lemma BoxExact(q: Query, ranges: seq<(real, real)>, row: Row)
    requires LegalRow(row)
    ensures AllHold(BoxConditions(q, ranges), row) <==> InBox(q, ranges, row)
  {
    var box := BoxConditions(q, ranges);
    assert box[0].LatitudeFrom? && box[1].LatitudeUntil?;
    if ranges == [(-180.0, 180.0)] {
      assert ranges[0].0 <= row.longitude <= ranges[0].1;
      assert |box| == 2;
    } else {
      assert |box| == 3 && box[2] == LongitudeIn(ranges);
    }
  }

  lemma ConditionsExact(q: Query, ranges: seq<(real, real)>)
    ensures forall row | LegalRow(row) ::
      AllHold(VisibilityConditions(q) + BoxConditions(q, ranges), row)
      <==> Visible(q, row) && InBox(q, ranges, row)
  {
    forall row | LegalRow(row)
      ensures AllHold(VisibilityConditions(q) + BoxConditions(q, ranges), row)
              <==> Visible(q, row) && InBox(q, ranges, row)
    {
      AllHoldAppend(VisibilityConditions(q), BoxConditions(q, ranges), row);
      VisibilityExact(q, row);
      BoxExact(q, ranges, row);
    }
  }

  /** The conditions that do not depend on the position. */
  method PushVisibility(q: Query) returns (conditions: seq<Condition>)
    ensures conditions == VisibilityConditions(q)
  {
    conditions := [];
    if q.phenomena.Some? {
      conditions := conditions + [PhenomenonIn(q.phenomena.value)];
    }
    assert conditions == PhenomenonConditions(q);
    if !q.includeQuarantined {
      conditions := conditions + [NotQuarantined];
    }
    assert conditions == PhenomenonConditions(q) + QualityConditions(q);
    if q.start.Some? {
      conditions := conditions + [ObservedFrom(q.start.value)];
    }
    assert conditions == PhenomenonConditions(q) + QualityConditions(q) + StartConditions(q);
    if q.end.Some? {
      conditions := conditions + [ObservedUntil(q.end.value)];
    }
  }

  method BuildConditions(t: Trig, q: Query) returns (conditions: seq<Condition>)
    requires Laws(t)
    requires Validate(q) == None
    ensures forall row | LegalRow(row) ::
      AllHold(conditions, row) <==> Visible(q, row) && InBox(q, RangesOf(t, q), row)
  {
    conditions := PushVisibility(q);
    conditions := conditions + [
      LatitudeFrom(Max(-90.0, q.latitude - q.within)),
      LatitudeUntil(Min(90.0, q.latitude + q.within))];
    var ranges := RangesOf(t, q);
    if !(|ranges| == 1 && ranges[0] == (-180.0, 180.0)) {
      conditions := conditions + [LongitudeIn(ranges)];
    }
    assert conditions == VisibilityConditions(q) + BoxConditions(q, ranges);
    ConditionsExact(q, ranges);
  }

  lemma FullPrefix<T>(p: T -> bool, s: seq<T>, n: nat, features: seq<T>, limit: nat)
    requires n <= |s|
    requires features == Filter(p, s[..n]) && |features| == limit
    ensures features == Take(Filter(p, s), limit)
  {
    FilterPrefix(p, s, n);
  }

  lemma PagedIsFiltered(t: Trig, q: Query, table: seq<Row>, conditions: seq<Condition>)
    requires Laws(t)
    requires Validate(q) == None
    requires forall row | row in table :: LegalRow(row)
    requires forall row | LegalRow(row) ::
      AllHold(conditions, row) <==> Visible(q, row) && InBox(q, RangesOf(t, q), row)
    ensures Filter(WithinRadius(t, q), Filter(Selects(conditions), table)) == Filter(Accepted(t, q), table)
  {
    var both := (row: Row) => AllHold(conditions, row) && IsNear(t, q, row);
    FilterTwice(Selects(conditions), WithinRadius(t, q), both, table);
    FilterAgree(both, Accepted(t, q), table);
  }

  /** Re-checks one page and stops at the limit. */
  method ScanPage(t: Trig, q: Query, rows: seq<Row>, found: seq<Row>) returns (features: seq<Row>)
    requires |found| < q.limit
    ensures features == Take(found + Filter(WithinRadius(t, q), rows), q.limit)
  {
    features := found;
    for k := 0 to |rows|
      invariant |features| < q.limit
      invariant features == found + Filter(WithinRadius(t, q), rows[..k])
    {
      FilterStep(WithinRadius(t, q), rows, k);
      if AngularDistanceDegrees(t, q.longitude, q.latitude, rows[k].longitude, rows[k].latitude) > q.within {
        continue;
      }
      features := features + [rows[k]];
      if |features| >= q.limit {
        FilterPrefix(WithinRadius(t, q), rows, k + 1);
        return;
      }
    }
    assert rows[..|rows|] == rows;
  }

  /** What paging has found once it has read the selection up to `offset`. */
  ghost predicate FoundUpTo<T>(p: T -> bool, selected: seq<T>, offset: nat, limit: nat, features: seq<T>) {
    offset <= |selected| && features == Take(Filter(p, selected[..offset]), limit)
  }

  lemma TakeMore<T>(p: T -> bool, selected: seq<T>, offset: nat, end: nat, limit: nat, before: seq<T>)
    requires offset <= end <= |selected|
    requires before == Take(Filter(p, selected[..offset]), limit) && |before| < limit
    ensures Take(before + Filter(p, selected[offset..end]), limit) == Take(Filter(p, selected[..end]), limit)
  {
    SliceSplit(selected, offset, end);
    FilterAppend(p, selected[..offset], selected[offset..end]);
  }

  /** One more page, re-checked and cut at the limit. */
  lemma NextPage<T>(p: T -> bool, selected: seq<T>, offset: nat, end: nat, limit: nat, before: seq<T>, after: seq<T>)
    requires FoundUpTo(p, selected, offset, limit, before) && |before| < limit
    requires offset <= end <= |selected| && after == Take(before + Filter(p, selected[offset..end]), limit)
    ensures FoundUpTo(p, selected, end, limit, after)
  {
    TakeMore(p, selected, offset, end, limit, before);
  }

  lemma TakePrefix<T>(a: seq<T>, b: seq<T>, limit: nat)
    requires a <= b && |Take(a, limit)| >= limit
    ensures Take(a, limit) == Take(b, limit)
  {
  }

  /** Enough features from a prefix, or the whole selection read: the answer is final. */
  lemma TakenPrefix<T>(p: T -> bool, selected: seq<T>, offset: nat, limit: nat, features: seq<T>)
    requires FoundUpTo(p, selected, offset, limit, features) && (|features| >= limit || offset == |selected|)
    ensures features == Take(Filter(p, selected), limit)
  {
    if offset == |selected| {
      assert selected[..offset] == selected;
    } else {
      FilterPrefix(p, selected, offset);
      TakePrefix(Filter(p, selected[..offset]), Filter(p, selected), limit);
    }
  }

  method CollectPages(t: Trig, q: Query, selected: seq<Row>) returns (features: seq<Row>)
    requires q.limit >= 1
    ensures features == Take(Filter(WithinRadius(t, q), selected), q.limit)
  {
    ghost var p := WithinRadius(t, q);
    features := [];
    var offset := 0;
    while |features| < q.limit
      invariant FoundUpTo(p, selected, offset, q.limit, features)
      decreases |selected| - offset, q.limit - |features|
    {
      var rows := Page(selected, offset, BATCH_SIZE);
      var found := ScanPage(t, q, rows, features);
      NextPage(p, selected, offset, offset + |rows|, q.limit, features, found);
      features := found;
      offset := offset + |rows|;
      if |rows| < BATCH_SIZE {
        break;
      }
    }
    TakenPrefix(p, selected, offset, q.limit, features);
  }

  /**
    The route over one fixed table in one fixed row order. Pages are neither skipped nor
    repeated: the answer is a prefix of one plain filter.
  */
  method Get(t: Trig, q: Query, table: seq<Row>) returns (r: Result<seq<Row>, RouteError>)
    requires Laws(t)
    requires forall row | row in table :: LegalRow(row)
    ensures Validate(q).Some? ==> r == Err(Validate(q).value)
    ensures Validate(q).None? ==> r == Ok(Take(Filter(Accepted(t, q), table), q.limit))
  {
    var problem := Validate(q);
    if problem.Some? {
      return Err(problem.value);
    }
    var conditions := BuildConditions(t, q);
    var selected := Filter(Selects(conditions), table);
    PagedIsFiltered(t, q, table, conditions);
    var features := CollectPages(t, q, selected);
    return Ok(features);
  }

  /** What the query asks of a row, field by field. */
  ghost predicate AskedFor(t: Trig, q: Query, row: Row) {
    && (q.phenomena.None? || row.phenomenon in q.phenomena.value)
    && (row.disposition == Quarantine ==> q.includeQuarantined)
    && (q.start.None? || q.start.value <= row.observedAt)
    && (q.end.None? || row.observedAt <= q.end.value)
    && AngularDistanceDegrees(t, q.longitude, q.latitude, row.longitude, row.latitude) <= q.within
  }

  // ---------------------------------------------------------------- the brute-force reference

  /** The rows a reader without an index collects, in the same order: one at least, if any matches. */
  function Reference(t: Trig, q: Query, table: seq<Row>, limit: Option<int>): seq<Row> {
    var matching := Filter(Matches(t, q), table);
    if limit.None? then matching else Take(matching, if limit.value < 1 then 1 else limit.value)
  }

  method PositionFeatureCollection(t: Trig, q: Query, observations: seq<Row>, limit: Option<int>)
    returns (features: seq<Row>)
    ensures features == Reference(t, q, observations, limit)
  {
    features := [];
    for k := 0 to |observations|
      invariant limit.Some? && |features| > 0 ==> |features| < limit.value
      invariant features == Filter(Matches(t, q), observations[..k])
    {
      var observation := observations[k];
      FilterStep(Matches(t, q), observations, k);
      if !q.includeQuarantined && observation.disposition == Quarantine {
        continue;
      }
      if q.phenomena.Some? && observation.phenomenon !in q.phenomena.value {
        continue;
      }
      if (q.start.Some? && observation.observedAt < q.start.value)
         || (q.end.Some? && observation.observedAt > q.end.value) {
        continue;
      }
      if AngularDistanceDegrees(t, q.longitude, q.latitude, observation.longitude, observation.latitude)
         > q.within {
        continue;
      }
      features := features + [observation];
      if limit.Some? && |features| >= limit.value {
        FullPrefix(Matches(t, q), observations, k + 1, features, if limit.value < 1 then 1 else limit.value);
        return;
      }
    }
    assert observations[..|observations|] == observations;
  }

  // ---------------------------------------------------------------- when they agree

  /** The one query shape for which the index may lose a row. */
  predicate LosesABoundary(t: Trig, q: Query)
    requires Laws(t)
    requires Validate(q) == None
  {
    EndsOnAntimeridian(t, q.longitude, q.latitude, q.within)
  }

  /** The one position at which it does: the tangent point in the spelling the range does not know. */
  predicate LostRow(t: Trig, q: Query, row: Row)
    requires Laws(t)
    requires Validate(q) == None
  {
    Lost(t, q.longitude, q.latitude, q.within, row.longitude, row.latitude)
  }

  lemma AcceptedExactly(t: Trig, q: Query, row: Row)
    requires Laws(t)
    requires Validate(q) == None
    requires LegalRow(row)
    ensures Accepted(t, q)(row) <==> Matches(t, q)(row) && !LostRow(t, q, row)
  {
    LossIsExact(t, q.longitude, q.latitude, q.within, row.longitude, row.latitude);
    if IsNear(t, q, row) {
      PrefilterIsSound(t, q.longitude, q.latitude, q.within, row.longitude, row.latitude);
    }
  }

  /** Every returned row is one the query asks for, and with room left each such row is returned but a lost one. */
  lemma ReturnedRows(t: Trig, q: Query, table: seq<Row>, rows: seq<Row>)
    requires Laws(t)
    requires Validate(q) == None
    requires forall row | row in table :: LegalRow(row)
    requires rows == Take(Filter(Accepted(t, q), table), q.limit)
    ensures |rows| <= q.limit && forall row | row in rows :: row in table && AskedFor(t, q, row)
    ensures |rows| < q.limit ==>
      forall row | row in table && AskedFor(t, q, row) && !LostRow(t, q, row) :: row in rows
  {
    var accepted := Accepted(t, q);
    forall row | row in table
      ensures row in Filter(accepted, table) <==> AskedFor(t, q, row) && !LostRow(t, q, row)
    {
      AcceptedExactly(t, q, row);
      FilterMembers(accepted, table, row);
    }
    forall row | row in rows
      ensures row in table
    {
      FilterMembers(accepted, table, row);
    }
  }

  /** A stricter filter gives the same first elements exactly when it keeps them all. */
  lemma SameFirstIff<T>(p: T -> bool, strict: T -> bool, s: seq<T>, limit: nat)
    requires forall x | x in s :: strict(x) ==> p(x)
    ensures Take(Filter(strict, s), limit) == Take(Filter(p, s), limit)
            <==> forall x | x in Take(Filter(p, s), limit) :: strict(x)
  {
    var all := Filter(p, s);
    var first := Take(all, limit);
    FilterAgain(p, strict, s);
    if forall x | x in first :: strict(x) {
      var rest := all[|first|..];
      assert all == first + rest;
      FilterAppend(strict, first, rest);
      FilterKeeps(strict, first);
      TakeFirst(first, Filter(strict, rest), limit, rest);
    } else if Take(Filter(strict, s), limit) == first {
      forall x | x in first
        ensures strict(x)
      {
        assert x in Filter(strict, s);
        FilterMembers(strict, s, x);
      }
    }
  }

  lemma TakeFirst<T>(first: seq<T>, kept: seq<T>, limit: nat, rest: seq<T>)
    requires first == Take(first + rest, limit) && |kept| <= |rest|
    ensures Take(first + kept, limit) == first
  {
  }

  /**
    Table by table: the indexed route gives what the brute-force collection gives exactly when
    none of the rows that the collection returns is at the one lost position.
  */
  lemma RefinesOnTableIff(t: Trig, q: Query, table: seq<Row>)
    requires Laws(t)
    requires Validate(q) == None
    requires forall row | row in table :: LegalRow(row)
    ensures Take(Filter(Accepted(t, q), table), q.limit) == Reference(t, q, table, Some(q.limit))
            <==> forall row | row in Reference(t, q, table, Some(q.limit)) :: !LostRow(t, q, row)
  {
    var matches, accepted := Matches(t, q), Accepted(t, q);
    forall row | row in table
      ensures accepted(row) <==> matches(row) && !LostRow(t, q, row)
    {
      AcceptedExactly(t, q, row);
    }
    SameFirstIff(matches, accepted, table, q.limit);
    forall row | row in Reference(t, q, table, Some(q.limit))
      ensures accepted(row) <==> !LostRow(t, q, row)
    {
      FilterMembers(matches, table, row);
    }
  }

  /** For every query shape: a table with no row at the lost position is answered in full. */
  lemma RefinesWithoutLostRow(t: Trig, q: Query, table: seq<Row>)
    requires Laws(t)
    requires Validate(q) == None
    requires forall row | row in table :: LegalRow(row) && !LostRow(t, q, row)
    ensures Take(Filter(Accepted(t, q), table), q.limit) == Reference(t, q, table, Some(q.limit))
  {
    RefinesOnTableIff(t, q, table);
    forall row | row in Reference(t, q, table, Some(q.limit))
      ensures row in table
    {
      FilterMembers(Matches(t, q), table, row);
    }
  }

  /** A row that the query asks for, at any position. */
  function VisibleRow(q: Query, longitude: real, latitude: real): (row: Row)
    requires Validate(q) == None
    ensures Visible(q, row) && row.longitude == longitude && row.latitude == latitude
  {
    var phenomenon := if q.phenomena.Some? then q.phenomena.value[0] else "wind";
    var observedAt := if q.start.Some? then q.start.value else if q.end.Some? then q.end.value else 0;
    Row("", longitude, latitude, phenomenon, Accept, observedAt, "")
  }

  /**
    The indexed route refines the brute-force collection on every table exactly when no
    unsplit range ends on the antimeridian.
  */
  lemma RouteRefinesReferenceIff(t: Trig, q: Query)
    requires Laws(t)
    requires Validate(q) == None
    ensures (forall table: seq<Row> | (forall row | row in table :: LegalRow(row)) ::
              Take(Filter(Accepted(t, q), table), q.limit) == Reference(t, q, table, Some(q.limit)))
            <==> !LosesABoundary(t, q)
  {
    if LosesABoundary(t, q) {
      var lon, lat := TangentPointIsDropped(t, q.longitude, q.latitude, q.within);
      var row := VisibleRow(q, lon, lat);
      var table := [row];
      assert Matches(t, q)(row) && !Accepted(t, q)(row);
      assert Filter(Accepted(t, q), table) == [];
      assert Filter(Matches(t, q), table) == [row] + Filter(Matches(t, q), table[1..]);
      assert Take(Filter(Accepted(t, q), table), q.limit) != Reference(t, q, table, Some(q.limit));
    } else {
      forall table: seq<Row> | forall row | row in table :: LegalRow(row)
        ensures Take(Filter(Accepted(t, q), table), q.limit) == Reference(t, q, table, Some(q.limit))
      {
        RefinesWithoutLostRow(t, q, table);
      }
    }
  }
}

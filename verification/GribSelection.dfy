/**
  Selecting exactly one message for every required field, and the manifests that selected
  messages go into. `fold` is the case folding of text.
*/
module GribSelection {
  import opened Wrappers
  import opened Collecting
  import opened Sequences
  import opened Text
  import opened GribIndex
  import opened SourceManifests

  datatype FieldRequirement = FieldRequirement(name: string, tokens: seq<string>)

  datatype SelectedMessage = SelectedMessage(
    name: string,
    number: int,
    fields: seq<string>,
    byteStart: int,
    byteEnd: int)

  datatype SelectError =
    | DuplicateRequirement(name: string)
    | MissingRequired(name: string)
    | AmbiguousField(name: string, matches: seq<Entry>)

  // ---------------------------------------------------------------- matching

  predicate HasToken(fold: string -> string, fields: seq<string>, token: string) {
    exists f | f in fields :: fold(f) == fold(Strip(token, IsSpace))
  }

  predicate Matches(fold: string -> string, entry: Entry, requirement: FieldRequirement) {
    forall t | t in requirement.tokens :: HasToken(fold, entry.fields, t)
  }

  function Matcher(fold: string -> string, requirement: FieldRequirement): Entry -> bool {
    (e: Entry) => Matches(fold, e, requirement)
  }

  function Matching(fold: string -> string, entries: seq<Entry>, requirement: FieldRequirement): seq<Entry> {
    Filter(Matcher(fold, requirement), entries)
  }

  function Select(name: string, e: Entry): SelectedMessage {
    SelectedMessage(name, e.number, e.fields, e.byteStart, e.byteEnd)
  }

  function NamesBefore(requirements: seq<FieldRequirement>, i: nat): set<string>
    requires i <= |requirements|
  {
    set j | 0 <= j < i :: requirements[j].name
  }

  /** What requirement i comes to on its own. */
  function SelectOne(
      fold: string -> string, entries: seq<Entry>, requirements: seq<FieldRequirement>, i: nat):
      Result<SelectedMessage, SelectError>
    requires i < |requirements|
  {
    var name, matches := requirements[i].name, Matching(fold, entries, requirements[i]);
    if name in NamesBefore(requirements, i) then Err(DuplicateRequirement(name))
    else if matches == [] then Err(MissingRequired(name))
    else if |matches| > 1 then Err(AmbiguousField(name, matches))
    else Ok(Select(name, matches[0]))
  }

  function Selections(fold: string -> string, entries: seq<Entry>, requirements: seq<FieldRequirement>):
      (r: seq<Result<SelectedMessage, SelectError>>)
    ensures |r| == |requirements|
    ensures forall i | 0 <= i < |r| :: r[i] == SelectOne(fold, entries, requirements, i)
  {
    seq(|requirements|, i requires 0 <= i < |requirements| => SelectOne(fold, entries, requirements, i))
  }

  function Selection(fold: string -> string, entries: seq<Entry>, requirements: seq<FieldRequirement>):
      Result<seq<SelectedMessage>, SelectError>
  {
    Collect(Selections(fold, entries, requirements))
  }

  method SelectGribMessages(
      fold: string -> string, entries: seq<Entry>, requirements: seq<FieldRequirement>)
    returns (r: Result<seq<SelectedMessage>, SelectError>)
    ensures r == Selection(fold, entries, requirements)
  {
    ghost var results := Selections(fold, entries, requirements);
    assert results[0..] == results;
    AfterNothing(Collect(results));
    var selected: seq<SelectedMessage> := [];
    var seenNames: set<string> := {};
    for i := 0 to |requirements|
      invariant seenNames == NamesBefore(requirements, i)
      invariant Collect(results) == After(selected, Collect(results[i..]))
    {
      var requirement := requirements[i];
      CollectStep(results, selected, i);
      if requirement.name in seenNames {
        return Err(DuplicateRequirement(requirement.name));
      }
      seenNames := seenNames + {requirement.name};
      var matches := Matching(fold, entries, requirement);
      if matches == [] {
        return Err(MissingRequired(requirement.name));
      }
      if |matches| > 1 {
        return Err(AmbiguousField(requirement.name, matches));
      }
      selected := selected + [Select(requirement.name, matches[0])];
    }
    assert selected + [] == selected;
    r := Ok(selected);
  }

  // ---------------------------------------------------------------- exactly one

  ghost predicate DistinctNames(requirements: seq<FieldRequirement>) {
    forall i, j | 0 <= i < j < |requirements| :: requirements[i].name != requirements[j].name
  }

  /** Position k holds the only entry that matches. */
  ghost predicate OnlyMatch(
      fold: string -> string, entries: seq<Entry>, requirement: FieldRequirement, k: int)
  {
    && 0 <= k < |entries|
    && Matches(fold, entries[k], requirement)
    && forall l | 0 <= l < |entries| && Matches(fold, entries[l], requirement) :: l == k
  }

  lemma {:induction false} FilterSingle<T>(p: T -> bool, s: seq<T>) returns (k: nat)
    requires |Filter(p, s)| == 1
    ensures k < |s| && p(s[k]) && Filter(p, s) == [s[k]]
    ensures forall l | 0 <= l < |s| && p(s[l]) :: l == k
  {
    if p(s[0]) {
      k := 0;
      forall l | 0 < l < |s|
        ensures !p(s[l])
      {
        FilterMembers(p, s[1..], s[l]);
      }
    } else {
      k := FilterSingle(p, s[1..]);
      k := k + 1;
    }
  }

  lemma {:induction false} FilterNone<T>(p: T -> bool, s: seq<T>)
    requires forall l | 0 <= l < |s| :: !p(s[l])
    ensures Filter(p, s) == []
  {
    if s != [] {
      FilterNone(p, s[1..]);
    }
  }

  lemma {:induction false} SingleFilter<T>(p: T -> bool, s: seq<T>, k: nat)
    requires k < |s| && p(s[k]) && forall l | 0 <= l < |s| && p(s[l]) :: l == k
    ensures Filter(p, s) == [s[k]]
  {
    if k > 0 {
      SingleFilter(p, s[1..], k - 1);
    } else {
      FilterNone(p, s[1..]);
    }
  }

  /** One requirement is met exactly when its name is new and one position alone matches. */
  lemma SelectOneIff(
      fold: string -> string, entries: seq<Entry>, requirements: seq<FieldRequirement>, i: nat, m: SelectedMessage)
    requires i < |requirements|
    ensures SelectOne(fold, entries, requirements, i) == Ok(m) <==>
      && requirements[i].name !in NamesBefore(requirements, i)
      && exists k :: OnlyMatch(fold, entries, requirements[i], k) && m == Select(requirements[i].name, entries[k])
  {
    var requirement := requirements[i];
    var matches := Matching(fold, entries, requirement);
    if |matches| == 1 {
      var k := FilterSingle(Matcher(fold, requirement), entries);
      assert OnlyMatch(fold, entries, requirement, k);
    }
    if k :| OnlyMatch(fold, entries, requirement, k) {
      SingleFilter(Matcher(fold, requirement), entries, k);
    }
  }

  /**
    Selection succeeds exactly when requirement names differ and each requirement matches at one
    position alone; message i is then the entry at that position, under the requirement's name.
  */
  lemma SelectionSucceedsIff(
      fold: string -> string, entries: seq<Entry>, requirements: seq<FieldRequirement>, selected: seq<SelectedMessage>)
    ensures Selection(fold, entries, requirements) == Ok(selected) <==>
      && |selected| == |requirements|
      && DistinctNames(requirements)
      && forall i | 0 <= i < |requirements| ::
           exists k :: OnlyMatch(fold, entries, requirements[i], k)
                       && selected[i] == Select(requirements[i].name, entries[k])
  {
    Collected(Selections(fold, entries, requirements), selected);
    if |selected| == |requirements| {
      forall i | 0 <= i < |requirements|
        ensures SelectOne(fold, entries, requirements, i) == Ok(selected[i]) <==>
          && requirements[i].name !in NamesBefore(requirements, i)
          && exists k :: OnlyMatch(fold, entries, requirements[i], k)
                         && selected[i] == Select(requirements[i].name, entries[k])
      {
        SelectOneIff(fold, entries, requirements, i, selected[i]);
      }
    }
  }

  /** One of the fields is the token, up to surrounding space and case. */
  ghost predicate Carries(fold: string -> string, fields: seq<string>, token: string) {
    exists k :: 0 <= k < |fields| && fold(fields[k]) == fold(Strip(token, IsSpace))
  }

  ghost predicate CarriesEvery(fold: string -> string, fields: seq<string>, tokens: seq<string>) {
    forall k | 0 <= k < |tokens| :: Carries(fold, fields, tokens[k])
  }

  lemma TokenMeans(fold: string -> string, fields: seq<string>, token: string)
    ensures HasToken(fold, fields, token) <==> Carries(fold, fields, token)
  {
    if f :| f in fields && fold(f) == fold(Strip(token, IsSpace)) {
      var k :| 0 <= k < |fields| && fields[k] == f;
    }
  }

  lemma MatchesMeans(fold: string -> string, e: Entry, requirement: FieldRequirement)
    ensures Matches(fold, e, requirement) <==> CarriesEvery(fold, e.fields, requirement.tokens)
  {
    forall t
      ensures HasToken(fold, e.fields, t) <==> Carries(fold, e.fields, t)
    {
      TokenMeans(fold, e.fields, t);
    }
  }

  /** A selected message is its entry's, which alone carries every token. */
  lemma SelectedMeans(
      fold: string -> string, entries: seq<Entry>, requirements: seq<FieldRequirement>,
      selected: seq<SelectedMessage>, i: nat) returns (k: nat)
    requires Selection(fold, entries, requirements) == Ok(selected) && i < |selected|
    ensures |selected| == |requirements| && selected[i].name == requirements[i].name && k < |entries|
    ensures selected[i].number == entries[k].number && selected[i].fields == entries[k].fields
    ensures selected[i].byteStart == entries[k].byteStart && selected[i].byteEnd == entries[k].byteEnd
    ensures CarriesEvery(fold, entries[k].fields, requirements[i].tokens)
    ensures forall l | 0 <= l < |entries| && l != k :: !CarriesEvery(fold, entries[l].fields, requirements[i].tokens)
  {
    SelectionSucceedsIff(fold, entries, requirements, selected);
    var found :| OnlyMatch(fold, entries, requirements[i], found)
                 && selected[i] == Select(requirements[i].name, entries[found]);
    k := found;
    MatchesMeans(fold, entries[k], requirements[i]);
    forall l | 0 <= l < |entries| && l != k
      ensures !CarriesEvery(fold, entries[l].fields, requirements[i].tokens)
    {
      MatchesMeans(fold, entries[l], requirements[i]);
    }
  }

  /** A requirement fails for a name seen before, for no entry that carries its tokens, or for several. */
  lemma SelectOneFails(
      fold: string -> string, entries: seq<Entry>, requirements: seq<FieldRequirement>, i: nat)
    requires i < |requirements|
    ensures var r, name := SelectOne(fold, entries, requirements, i), requirements[i].name;
      var seen := exists j :: 0 <= j < i && requirements[j].name == name;
      var none := forall k | 0 <= k < |entries| :: !CarriesEvery(fold, entries[k].fields, requirements[i].tokens);
      && (r == Err(DuplicateRequirement(name)) <==> seen)
      && (r == Err(MissingRequired(name)) <==> !seen && none)
      && (r.Err? && r.error.AmbiguousField? <==>
            !seen && !none && forall k :: !OnlyMatch(fold, entries, requirements[i], k))
  {
    var requirement := requirements[i];
    var matches := Matching(fold, entries, requirement);
    forall k | 0 <= k < |entries|
      ensures entries[k] in matches <==> CarriesEvery(fold, entries[k].fields, requirement.tokens)
    {
      FilterMembers(Matcher(fold, requirement), entries, entries[k]);
      MatchesMeans(fold, entries[k], requirement);
    }
    if matches != [] {
      FilterMembers(Matcher(fold, requirement), entries, matches[0]);
      var k :| 0 <= k < |entries| && entries[k] == matches[0];
    }
    if |matches| == 1 {
      var k := FilterSingle(Matcher(fold, requirement), entries);
      assert OnlyMatch(fold, entries, requirement, k);
    }
    if k :| OnlyMatch(fold, entries, requirement, k) {
      SingleFilter(Matcher(fold, requirement), entries, k);
    }
  }

  // ---------------------------------------------------------------- order of the entries

  lemma {:induction false} FilterCount<T>(p: T -> bool, s: seq<T>, x: T)
    ensures multiset(Filter(p, s))[x] == if p(x) then multiset(s)[x] else 0
  {
    if s != [] {
      FilterCount(p, s[1..], x);
      assert s == [s[0]] + s[1..];
    }
  }

  lemma FilterPermuted<T(!new)>(p: T -> bool, a: seq<T>, b: seq<T>)
    requires multiset(a) == multiset(b)
    ensures multiset(Filter(p, a)) == multiset(Filter(p, b))
    ensures |Filter(p, a)| == |Filter(p, b)|
  {
    forall x
      ensures multiset(Filter(p, a))[x] == multiset(Filter(p, b))[x]
    {
      FilterCount(p, a, x);
      FilterCount(p, b, x);
    }
    assert multiset(Filter(p, a)) == multiset(Filter(p, b));
    assert |Filter(p, a)| == |multiset(Filter(p, a))|;
    assert |Filter(p, b)| == |multiset(Filter(p, b))|;
  }

  /** The same message or the same error; only the order of ambiguous matches may differ. */
  ghost predicate SameError(a: SelectError, b: SelectError) {
    match a
    case AmbiguousField(name, matches) =>
      b.AmbiguousField? && b.name == name && multiset(b.matches) == multiset(matches)
    case _ => a == b
  }

  ghost predicate SameOutcome<T>(a: Result<T, SelectError>, b: Result<T, SelectError>) {
    match a
    case Ok(_) => a == b
    case Err(e) => b.Err? && SameError(e, b.error)
  }

  lemma SingleEqual<T>(a: seq<T>, b: seq<T>)
    requires multiset(a) == multiset(b) && |a| == |b| == 1
    ensures a[0] == b[0]
  {
    assert a[0] in multiset(a) && a[0] in b;
  }

  lemma SelectOnePermuted(
      fold: string -> string, a: seq<Entry>, b: seq<Entry>, requirements: seq<FieldRequirement>, i: nat)
    requires multiset(a) == multiset(b) && i < |requirements|
    ensures SameOutcome(SelectOne(fold, a, requirements, i), SelectOne(fold, b, requirements, i))
  {
    FilterPermuted(Matcher(fold, requirements[i]), a, b);
    if |Matching(fold, a, requirements[i])| == 1 {
      SingleEqual(Matching(fold, a, requirements[i]), Matching(fold, b, requirements[i]));
    }
  }

  lemma {:induction false} CollectSame<T>(a: seq<Result<T, SelectError>>, b: seq<Result<T, SelectError>>)
    requires |a| == |b| && forall i | 0 <= i < |a| :: SameOutcome(a[i], b[i])
    ensures SameOutcome(Collect(a), Collect(b))
  {
    if a != [] {
      CollectSame(a[1..], b[1..]);
    }
  }

  /** Selection does not depend on the order in which the entries are given. */
  lemma SelectionIgnoresOrder(
      fold: string -> string, a: seq<Entry>, b: seq<Entry>, requirements: seq<FieldRequirement>)
    requires multiset(a) == multiset(b)
    ensures SameOutcome(Selection(fold, a, requirements), Selection(fold, b, requirements))
  {
    forall i | 0 <= i < |requirements|
      ensures SameOutcome(SelectOne(fold, a, requirements, i), SelectOne(fold, b, requirements, i))
    {
      SelectOnePermuted(fold, a, b, requirements, i);
    }
    CollectSame(Selections(fold, a, requirements), Selections(fold, b, requirements));
  }

  // ---------------------------------------------------------------- manifests

  function RangeOf(m: SelectedMessage): ByteSelection {
    ByteSelection(m.byteStart, m.byteEnd)
  }

  lemma SelectedIsEntry(
      fold: string -> string, entries: seq<Entry>, requirements: seq<FieldRequirement>,
      selected: seq<SelectedMessage>, i: nat) returns (k: nat)
    requires Selection(fold, entries, requirements) == Ok(selected) && i < |selected|
    ensures |selected| == |requirements| && k < |entries| && Matches(fold, entries[k], requirements[i])
    ensures selected[i] == Select(requirements[i].name, entries[k])
  {
    SelectionSucceedsIff(fold, entries, requirements, selected);
    var found :| OnlyMatch(fold, entries, requirements[i], found)
                 && selected[i] == Select(requirements[i].name, entries[found]);
    k := found;
  }

  /**
    A message selected from an accepted index always passes the manifest's range checks for that
    object size: what is left to fail is the payload's length and the caller's own metadata.
  */
  lemma SelectedFitsManifest(
      hash: Bytes -> string, fold: string -> string, text: string, requirements: seq<FieldRequirement>,
      entries: seq<Entry>, selected: seq<SelectedMessage>, i: nat,
      labels: Labels, upstream: Upstream, indexBytes: Bytes, payload: Bytes, verified: bool, times: Times)
    requires Index(text, upstream.contentLength) == Ok(entries)
    requires Selection(fold, entries, requirements) == Ok(selected) && i < |selected|
    ensures FromRetainedBytes(hash, labels, upstream, RangeOf(selected[i]), indexBytes, payload, verified, times).Ok?
      <==> (&& |payload| == selected[i].byteEnd - selected[i].byteStart + 1
            && indexBytes != [] && upstream.bucket != "" && upstream.key != ""
            && ValidLabels(labels) && Monotonic(times))
  {
    AcceptedIndexTiles(text, upstream.contentLength, entries);
    var k := SelectedIsEntry(fold, entries, requirements, selected, i);
    assert 0 <= entries[k].byteStart <= entries[k].byteEnd < upstream.contentLength;
  }

  /**
    Fetching a selected message's slice of the object it was indexed for gives a manifest that
    names that range and the digests of the very bytes.
  */
  lemma FetchedSliceMakesManifest(
      hash: Bytes -> string, fold: string -> string, text: string, requirements: seq<FieldRequirement>,
      entries: seq<Entry>, selected: seq<SelectedMessage>, i: nat, source: Bytes,
      labels: Labels, upstream: Upstream, indexBytes: Bytes, verified: bool, times: Times)
    requires |source| == upstream.contentLength && Index(text, |source|) == Ok(entries)
    requires Selection(fold, entries, requirements) == Ok(selected) && i < |selected|
    requires indexBytes != [] && upstream.bucket != "" && upstream.key != ""
    requires ValidLabels(labels) && Monotonic(times)
    ensures 0 <= selected[i].byteStart <= selected[i].byteEnd < |source|
    ensures var slice := source[selected[i].byteStart..selected[i].byteEnd + 1];
      var made := FromRetainedBytes(hash, labels, upstream, RangeOf(selected[i]), indexBytes, slice, verified, times);
      && made.Ok?
      && made.value.selection == RangeOf(selected[i])
      && made.value.indexDigest == hash(indexBytes) && made.value.payloadDigest == hash(slice)
      && made.value.transportVerified == verified
  {
    AcceptedIndexTiles(text, |source|, entries);
    var k := SelectedIsEntry(fold, entries, requirements, selected, i);
    assert 0 <= entries[k].byteStart <= entries[k].byteEnd < |source|;
  }
}

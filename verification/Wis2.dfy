/**
  Consuming a WIS2 notification: the topic and envelope checks, the order of the effects, and
  what a repeated delivery of the same data leaves in the log.
*/
module Wis2 {
  import opened Admission
  import opened Journal
  import opened Observations
  import opened Pipeline
  import opened RawStore
  import opened Text
  import opened Wrappers

  // ---------------------------------------------------------------- topics and centres

  predicate IsLevelChar(c: char) {
    'a' <= c <= 'z' || '0' <= c <= '9'
  }

  /** Dash-separated runs of lower-case letters and digits, none of them empty. */
  predicate IsTopicLevel(s: string) {
    forall k | 0 <= k < |Split(s, '-')| ::
      Split(s, '-')[k] != "" && forall c | c in Split(s, '-')[k] :: IsLevelChar(c)
  }

  /** Only level characters and dashes, no dash last, no two in a row. */
  predicate DashesAreSingle(s: string) {
    && (forall c | c in s :: 'a' <= c <= 'z' || '0' <= c <= '9' || c == '-')
    && (s != "" ==> s[|s| - 1] != '-')
    && forall k | 0 < k < |s| :: s[k - 1] != '-' || s[k] != '-'
  }

  /** A topic level whose first run may be empty. */
  predicate IsLevelTail(s: string) {
    && (forall c | c in Split(s, '-')[0] :: IsLevelChar(c))
    && forall k | 0 < k < |Split(s, '-')| ::
         Split(s, '-')[k] != "" && forall c | c in Split(s, '-')[k] :: IsLevelChar(c)
  }

  lemma TailAfterDash(s: string)
    requires s != "" && s[0] == '-'
    ensures IsLevelTail(s) <==> IsTopicLevel(s[1..])
  {
    var rest := Split(s[1..], '-');
    assert forall k | 0 < k < |Split(s, '-')| :: Split(s, '-')[k] == rest[k - 1];
    if IsLevelTail(s) {
      assert forall k | 0 <= k < |rest| :: rest[k] == Split(s, '-')[k + 1];
    }
  }

  lemma TailAfterChar(s: string)
    requires s != "" && s[0] != '-'
    ensures IsLevelTail(s) <==> IsLevelChar(s[0]) && IsLevelTail(s[1..])
  {
    var parts, rest := Split(s, '-'), Split(s[1..], '-');
    assert |parts| == |rest| && parts[0] == [s[0]] + rest[0];
    assert forall k | 0 < k < |parts| :: parts[k] == rest[k];
    if IsLevelTail(s) {
      assert s[0] in parts[0] && forall c | c in rest[0] :: c in parts[0];
    }
  }

  lemma FirstRun(s: string)
    ensures Split(s, '-')[0] == "" <==> s == "" || s[0] == '-'
  {
  }

  lemma SingleDashesStep(s: string)
    requires s != ""
    ensures DashesAreSingle(s) <==>
      && DashesAreSingle(s[1..]) && (IsLevelChar(s[0]) || s[0] == '-')
      && (s[0] == '-' ==> s[1..] != "" && s[1] != '-')
  {
    var rest := s[1..];
    assert s == [s[0]] + rest;
    if DashesAreSingle(s) {
      assert s[0] in s && (rest != "" ==> s[1 - 1] != '-' || s[1] != '-');
      forall k | 0 < k < |rest|
        ensures rest[k - 1] != '-' || rest[k] != '-'
      {
        assert s[(k + 1) - 1] == rest[k - 1] && s[k + 1] == rest[k];
      }
      assert (forall c | c in rest :: c in s) && (rest != "" ==> rest[|rest| - 1] == s[|s| - 1]);
      assert DashesAreSingle(rest);
    } else if DashesAreSingle(rest) && (s[0] == '-' ==> rest != "" && s[1] != '-') {
      forall k | 0 < k < |s|
        ensures s[k - 1] != '-' || s[k] != '-'
      {
        assert k > 1 ==> rest[(k - 1) - 1] == s[k - 1] && rest[k - 1] == s[k];
      }
    }
  }

  lemma {:induction false} LevelTailIff(s: string)
    ensures IsLevelTail(s) <==> DashesAreSingle(s)
  {
    if s != "" {
      var rest := s[1..];
      SingleDashesStep(s);
      LevelTailIff(rest);
      if s[0] == '-' {
        TailAfterDash(s);
        LevelIsTail(rest);
      } else {
        TailAfterChar(s);
      }
    }
  }

  lemma LevelIsTail(s: string)
    ensures IsTopicLevel(s) <==> IsLevelTail(s) && s != "" && s[0] != '-'
  {
    FirstRun(s);
  }

  /** A topic level in terms of its characters: no dash at either end and no two in a row. */
  lemma TopicLevelIff(s: string)
    ensures IsTopicLevel(s) <==> s != "" && s[0] != '-' && DashesAreSingle(s)
  {
    LevelIsTail(s);
    LevelTailIff(s);
  }

  /** The broad centre shape: letters, digits and dashes, with no dash at either end. */
  predicate IsCentreShape(s: string) {
    && s != ""
    && IsLevelChar(s[0]) && IsLevelChar(s[|s| - 1])
    && forall c | c in s :: IsLevelChar(c) || c == '-'
  }

  lemma CentreShapeIff(s: string)
    ensures IsCentreShape(s) <==>
      && s != "" && s[0] != '-' && s[|s| - 1] != '-'
      && forall k | 0 <= k < |s| :: 'a' <= s[k] <= 'z' || '0' <= s[k] <= '9' || s[k] == '-'
  {
    assert forall k | 0 <= k < |s| :: s[k] in s;
  }

  /** A registered top-level domain, a dash, and a centre name that is a topic level. */
  predicate IsCentreId(tlds: set<string>, id: string) {
    && IsCentreShape(id)
    && exists i | 0 <= i < |id| :: id[i] == '-' && id[..i] in tlds && IsTopicLevel(id[i + 1..])
  }

  /** Each way to cut the list of components is one dash of the text. */
  lemma BoundaryIsDash(id: string, components: seq<string>, boundary: nat) returns (i: nat)
    requires components == Split(id, '-') && 1 <= boundary < |components|
    ensures i < |id| && id[i] == '-'
    ensures id[..i] == Join(components[..boundary], '-') && id[i + 1..] == Join(components[boundary..], '-')
  {
    JoinSplit(id, '-');
    JoinAppend(components[..boundary], components[boundary..], '-');
    assert components == components[..boundary] + components[boundary..];
    i := |Join(components[..boundary], '-')|;
  }

  lemma DashIsBoundary(id: string, i: nat) returns (boundary: nat)
    requires i < |id| && id[i] == '-'
    ensures 1 <= boundary < |Split(id, '-')|
    ensures id[..i] == Join(Split(id, '-')[..boundary], '-')
    ensures id[i + 1..] == Join(Split(id, '-')[boundary..], '-')
  {
    var a, b := id[..i], id[i + 1..];
    assert id == a + ['-'] + b;
    SplitAppend(a, b, '-');
    boundary := |Split(a, '-')|;
    assert Split(id, '-')[..boundary] == Split(a, '-');
    assert Split(id, '-')[boundary..] == Split(b, '-');
    JoinSplit(a, '-');
    JoinSplit(b, '-');
  }

  method IsValidCentreId(tlds: set<string>, id: string) returns (valid: bool)
    ensures valid <==> IsCentreId(tlds, id)
  {
    if !IsCentreShape(id) {
      return false;
    }
    var components := Split(id, '-');
    for boundary := 1 to |components|
      invariant forall b | 1 <= b < boundary ::
        !(Join(components[..b], '-') in tlds && IsTopicLevel(Join(components[b..], '-')))
    {
      var tld := Join(components[..boundary], '-');
      var centreName := Join(components[boundary..], '-');
      if tld in tlds && IsTopicLevel(centreName) {
        var i := BoundaryIsDash(id, components, boundary);
        return true;
      }
    }
    forall i | 0 <= i < |id| && id[i] == '-'
      ensures !(id[..i] in tlds && IsTopicLevel(id[i + 1..]))
    {
      var b := DashIsBoundary(id, i);
    }
    return false;
  }

  const DISCIPLINES: set<string> := {
    "atmospheric-composition", "climate", "cryosphere", "hydrology", "ocean", "space-weather", "weather"}

  predicate IsDataTopic(tlds: set<string>, topic: string) {
    var levels := Split(topic, '/');
    && |levels| >= 8
    && levels[0] in {"origin", "cache"} && levels[1] == "a" && levels[2] == "wis2"
    && IsCentreId(tlds, levels[3])
    && levels[4] == "data" && levels[5] in {"core", "recommended"} && levels[6] in DISCIPLINES
    && forall k | 7 <= k < |levels| :: IsTopicLevel(levels[k])
  }

  /** The levels of a data topic, from the channel to the tail. */
  function Levels(channel: string, centre: string, policy: string, discipline: string, tail: seq<string>): seq<string> {
    [channel, "a", "wis2", centre, "data", policy, discipline] + tail
  }

  /** The text of a topic written out from its parts. */
  function TopicText(channel: string, centre: string, policy: string, discipline: string, tail: seq<string>): string
    requires tail != []
  {
    channel + "/a/wis2/" + centre + "/" + DataText(policy, discipline, tail)
  }

  function DataText(policy: string, discipline: string, tail: seq<string>): string
    requires tail != []
  {
    "data/" + policy + "/" + discipline + "/" + Join(tail, '/')
  }

  predicate AreTopicParts(
      tlds: set<string>, channel: string, centre: string, policy: string, discipline: string, tail: seq<string>)
  {
    && channel in {"origin", "cache"} && IsCentreId(tlds, centre) && policy in {"core", "recommended"}
    && discipline in {
         "atmospheric-composition", "climate", "cryosphere", "hydrology", "ocean", "space-weather", "weather"}
    && tail != [] && forall level | level in tail :: IsTopicLevel(level)
  }

  lemma JoinFirst(level: string, rest: seq<string>)
    requires rest != []
    ensures Join([level] + rest, '/') == level + "/" + Join(rest, '/')
  {
  }

  lemma JoinData(policy: string, discipline: string, tail: seq<string>)
    requires tail != []
    ensures Join(["data", policy, discipline] + tail, '/') == DataText(policy, discipline, tail)
  {
    var scope := [discipline] + tail;
    assert ["data", policy, discipline] + tail == ["data"] + ([policy] + scope);
    JoinFirst(discipline, tail);
    JoinFirst(policy, scope);
    JoinFirst("data", [policy] + scope);
  }

  lemma JoinPlace(channel: string, centre: string, data: seq<string>)
    requires data != []
    ensures Join([channel, "a", "wis2", centre] + data, '/')
            == channel + "/a/wis2/" + centre + "/" + Join(data, '/')
  {
    var place := [centre] + data;
    assert [channel, "a", "wis2", centre] + data == [channel] + (["a"] + (["wis2"] + place));
    JoinFirst(centre, data);
    JoinFirst("wis2", place);
    JoinFirst("a", ["wis2"] + place);
    JoinFirst(channel, ["a"] + (["wis2"] + place));
  }

  lemma JoinLevels(channel: string, centre: string, policy: string, discipline: string, tail: seq<string>)
    requires tail != []
    ensures Join(Levels(channel, centre, policy, discipline, tail), '/')
            == TopicText(channel, centre, policy, discipline, tail)
  {
    var data := ["data", policy, discipline] + tail;
    assert Levels(channel, centre, policy, discipline, tail) == [channel, "a", "wis2", centre] + data;
    JoinData(policy, discipline, tail);
    JoinPlace(channel, centre, data);
  }

  lemma LevelsHaveNoSlash(
      tlds: set<string>, channel: string, centre: string, policy: string, discipline: string, tail: seq<string>)
    requires AreTopicParts(tlds, channel, centre, policy, discipline, tail)
    ensures forall level | level in Levels(channel, centre, policy, discipline, tail) :: '/' !in level
  {
    forall level | level in tail
      ensures '/' !in level
    {
      TopicLevelIff(level);
    }
  }

  /** Data topics are exactly the texts of that shape. */
  lemma DataTopicIff(tlds: set<string>, topic: string)
    ensures IsDataTopic(tlds, topic) <==>
      exists channel, centre, policy, discipline, tail ::
        && AreTopicParts(tlds, channel, centre, policy, discipline, tail)
        && topic == TopicText(channel, centre, policy, discipline, tail)
  {
    if IsDataTopic(tlds, topic) {
      var levels := Split(topic, '/');
      JoinSplit(topic, '/');
      var tail := levels[7..];
      assert levels == Levels(levels[0], levels[3], levels[5], levels[6], tail);
      JoinLevels(levels[0], levels[3], levels[5], levels[6], tail);
      assert AreTopicParts(tlds, levels[0], levels[3], levels[5], levels[6], tail);
    } else if channel, centre, policy, discipline, tail :|
        && AreTopicParts(tlds, channel, centre, policy, discipline, tail)
        && topic == TopicText(channel, centre, policy, discipline, tail) {
      JoinLevels(channel, centre, policy, discipline, tail);
      LevelsHaveNoSlash(tlds, channel, centre, policy, discipline, tail);
      SplitJoin(Levels(channel, centre, policy, discipline, tail), '/');
      assert false;
    }
  }

  // ---------------------------------------------------------------- the envelope

  datatype Instant = Instant(at: int, utc: bool)

  datatype Url = Url(text: string, scheme: string, username: Option<string>, password: Option<string>)

  datatype Link = Link(href: Url, rel: string)

  datatype Claim = Claim(algorithm: string, value: string)

  /** A parsed message. An outer option is presence on the wire; an inner one is a null value. */
  datatype Message = Message(
    conformsTo: Option<Option<seq<string>>>,
    version: Option<Option<string>>,
    links: seq<Link>,
    dataId: string,
    pubtime: Instant,
    observed: Option<Option<Instant>>,
    start: Option<Instant>,
    end: Option<Instant>,
    globalCache: Option<string>,
    integrity: Option<Claim>)

  const CORE_CONFORMANCE := "http://wis.wmo.int/spec/wnm/1/conf/core"
  const LEGACY_VERSION := "v04"
  const MAX_NOTIFICATION_BYTES := 8192

  /** One instant, possibly null, or one complete interval, never both. */
  predicate ValidTimes(m: Message) {
    && m.pubtime.utc
    && match m.observed
       case Some(instant) =>
         m.start.None? && m.end.None? && (instant.Some? ==> instant.value.utc)
       case None =>
         && m.start.Some? && m.end.Some?
         && m.start.value.utc && m.end.value.utc && m.start.value.at <= m.end.value.at
  }

  function Canonicals(links: seq<Link>): seq<Link> {
    if links == [] then []
    else (if links[0].rel == "canonical" then [links[0]] else []) + Canonicals(links[1..])
  }

  lemma {:induction false} CanonicalsMeans(links: seq<Link>, l: Link)
    ensures l in Canonicals(links) <==> l in links && l.rel == "canonical"
  {
    if links != [] {
      CanonicalsMeans(links[1..], l);
    }
  }

  lemma NoCanonical(links: seq<Link>)
    ensures Canonicals(links) == [] <==> forall j | 0 <= j < |links| :: links[j].rel != "canonical"
  {
    if Canonicals(links) == [] {
      forall j | 0 <= j < |links|
        ensures links[j].rel != "canonical"
      {
        CanonicalsMeans(links, links[j]);
      }
    } else {
      CanonicalsMeans(links, Canonicals(links)[0]);
    }
  }

  /** Position i is the only one with a canonical link. */
  predicate OnlyCanonical(links: seq<Link>, i: int) {
    0 <= i < |links| && forall j | 0 <= j < |links| :: links[j].rel == "canonical" <==> j == i
  }

  lemma OnlyFirst(links: seq<Link>)
    requires links != [] && links[0].rel == "canonical"
    ensures (exists i :: OnlyCanonical(links, i)) <==> Canonicals(links[1..]) == []
  {
    var rest := links[1..];
    NoCanonical(rest);
    assert forall j | 0 < j < |links| :: links[j] == rest[j - 1];
    if i :| OnlyCanonical(links, i) {
      assert i == 0;
      assert forall j | 0 <= j < |rest| :: rest[j] == links[j + 1];
    } else if Canonicals(rest) == [] {
      assert OnlyCanonical(links, 0);
    }
  }

  lemma OnlyFurther(links: seq<Link>, i: int)
    requires links != [] && links[0].rel != "canonical"
    ensures OnlyCanonical(links, i) <==> OnlyCanonical(links[1..], i - 1)
  {
    var rest := links[1..];
    assert forall j | 0 <= j < |rest| :: rest[j] == links[j + 1];
    if OnlyCanonical(rest, i - 1) {
      forall j | 0 <= j < |links|
        ensures links[j].rel == "canonical" <==> j == i
      {
        assert j > 0 ==> links[j] == rest[j - 1];
      }
    }
  }

  /** There is one canonical link exactly when one position is marked and no other. */
  lemma {:induction false} OneCanonicalIff(links: seq<Link>)
    ensures |Canonicals(links)| == 1 <==> exists i :: OnlyCanonical(links, i)
  {
    if links != [] {
      if links[0].rel == "canonical" {
        OnlyFirst(links);
      } else {
        OneCanonicalIff(links[1..]);
        if i :| OnlyCanonical(links, i) {
          OnlyFurther(links, i);
        } else if i :| OnlyCanonical(links[1..], i) {
          OnlyFurther(links, i + 1);
        }
      }
    }
  }

  predicate ValidEnvelope(m: Message) {
    && (m.conformsTo.Some? <==> m.version.None?)
    && (m.conformsTo.Some? ==> m.conformsTo.value.Some? && CORE_CONFORMANCE in m.conformsTo.value.value)
    && (m.version.Some? ==> m.version.value == Some(LEGACY_VERSION))
    && |Canonicals(m.links)| == 1
    && (forall l | l in m.links :: l.rel != "update" && l.rel != "deletion")
    && var href := Canonicals(m.links)[0].href;
       href.scheme == "https" && href.username.None? && href.password.None?
  }

  predicate ValidMessage(m: Message) {
    ValidTimes(m) && ValidEnvelope(m)
  }

  function CanonicalUrl(m: Message): string
    requires ValidEnvelope(m)
  {
    Canonicals(m.links)[0].href.text
  }

  lemma OnlyIsTheCanonical(links: seq<Link>, i: int)
    requires OnlyCanonical(links, i)
    ensures Canonicals(links) == [links[i]]
  {
    OneCanonicalIff(links);
    CanonicalsMeans(links, links[i]);
  }

  /** The one link that is fetched: the only canonical one, over https and without credentials. */
  predicate FetchesFrom(m: Message, i: int) {
    && OnlyCanonical(m.links, i)
    && m.links[i].href.scheme == "https"
    && m.links[i].href.username.None? && m.links[i].href.password.None?
  }

  /** The envelope in terms of its fields. */
  lemma EnvelopeIff(m: Message)
    ensures ValidEnvelope(m) <==>
      && (if m.conformsTo.Some? then
            && m.version.None? && m.conformsTo.value.Some?
            && "http://wis.wmo.int/spec/wnm/1/conf/core" in m.conformsTo.value.value
          else m.version == Some(Some("v04")))
      && (exists i :: FetchesFrom(m, i))
      && (forall l | l in m.links :: l.rel !in {"update", "deletion"})
  {
    OneCanonicalIff(m.links);
    if i :| OnlyCanonical(m.links, i) {
      OnlyIsTheCanonical(m.links, i);
      if i' :| FetchesFrom(m, i') {
        assert i' == i;
      } else {
        assert !FetchesFrom(m, i);
      }
    }
  }

  /** Code outside the consumer: wire parsing, download, base64, hashing, decoding, UUIDs. */
  datatype Outside = Outside(
    tlds: set<string>,
    parse: Bytes -> Option<Message>,
    fetch: string -> Option<Bytes>,
    base64: string -> Option<Bytes>,
    claimHash: (string, Bytes) -> Bytes,
    decode: Bytes -> Option<seq<Observation>>,
    uuid5: string -> Uuid)

  datatype Receipt = Receipt(at: int, aware: bool)

  predicate CacheCentreMatches(outside: Outside, topic: string, m: Message) {
    var levels := Split(topic, '/');
    levels[0] == "cache" ==>
      |levels| > 3 && m.globalCache.Some? && IsCentreId(outside.tlds, m.globalCache.value)
      && m.globalCache.value == levels[3]
  }

  /** The message a notification carries, once every check on it has passed. */
  function Accepted(outside: Outside, topic: string, notification: Bytes): (m: Option<Message>)
    ensures m.Some? ==> ValidMessage(m.value)
  {
    if |notification| > MAX_NOTIFICATION_BYTES || outside.parse(notification).None? then None
    else
      var m := outside.parse(notification).value;
      if ValidMessage(m) && CacheCentreMatches(outside, topic, m) then Some(m) else None
  }

  /** One instant, possibly null, and no bound, or an ordered interval and no instant; all in UTC. */
  predicate DescribesTime(m: Message) {
    && m.pubtime.utc
    && if m.observed.Some? then
         && m.start.None? && m.end.None?
         && (m.observed.value == None || m.observed.value.value.utc)
       else
         && m.start.Some? && m.end.Some? && m.start.value.utc && m.end.value.utc
         && m.start.value.at <= m.end.value.at
  }

  /** On the cache channel the message names the topic's centre, which is its fourth level. */
  predicate NamesCentre(outside: Outside, topic: string, m: Message) {
    Split(topic, '/')[0] == "cache" ==>
      && |Split(topic, '/')| > 3 && m.globalCache == Some(Split(topic, '/')[3])
      && IsCentreId(outside.tlds, Split(topic, '/')[3])
  }

  /** What is accepted, in terms of the message's fields. */
  lemma AcceptedIff(outside: Outside, topic: string, notification: Bytes)
    ensures Accepted(outside, topic, notification).Some? <==>
      && |notification| <= 8192 && outside.parse(notification).Some?
      && var m := outside.parse(notification).value;
      && (if m.conformsTo.Some? then
            && m.version.None? && m.conformsTo.value.Some?
            && "http://wis.wmo.int/spec/wnm/1/conf/core" in m.conformsTo.value.value
          else m.version == Some(Some("v04")))
      && (exists i :: FetchesFrom(m, i))
      && (forall l | l in m.links :: l.rel !in {"update", "deletion"})
      && DescribesTime(m) && NamesCentre(outside, topic, m)
    ensures Accepted(outside, topic, notification).Some? ==>
      Accepted(outside, topic, notification) == outside.parse(notification)
  {
    if outside.parse(notification).Some? {
      EnvelopeIff(outside.parse(notification).value);
    }
  }

  /** Everything that has to hold before anything is fetched. */
  predicate ReadyToFetch(outside: Outside, topic: string, notification: Bytes, receipt: Receipt) {
    IsDataTopic(outside.tlds, topic) && receipt.aware && Accepted(outside, topic, notification).Some?
  }

  predicate ClaimHolds(outside: Outside, claim: Claim, payload: Bytes) {
    outside.base64(claim.value) == Some(outside.claimHash(claim.algorithm, payload))
  }

  predicate IntegrityHolds(outside: Outside, m: Message, payload: Bytes) {
    m.integrity.Some? ==> ClaimHolds(outside, m.integrity.value, payload)
  }

  function BindProvenance(o: Observation, m: Message, receipt: Receipt, verified: bool): Observation
    requires ValidEnvelope(m)
  {
    o.(provenance := o.provenance.(
      sourceId := m.dataId,
      sourceUri := Some(CanonicalUrl(m)),
      publishedAt := Some(m.pubtime.at),
      receivedAt := Some(receipt.at),
      verification := if verified then Upstream else Platform))
  }

  function Bound(observations: seq<Observation>, m: Message, receipt: Receipt, verified: bool): (r: seq<Observation>)
    requires ValidEnvelope(m)
    ensures |r| == |observations|
    ensures forall k | 0 <= k < |r| :: r[k] == BindProvenance(observations[k], m, receipt, verified)
  {
    seq(|observations|, k requires 0 <= k < |observations| => BindProvenance(observations[k], m, receipt, verified))
  }

  /** The identified observations a payload decodes to, if it does and they refer to it. */
  function Decoded(outside: Outside, digest: string, payload: Bytes): Option<seq<Observation>> {
    if outside.decode(payload).None? then None
    else Identify(outside.uuid5, digest, outside.decode(payload).value)
  }

  // ---------------------------------------------------------------- processing

  datatype Wis2Error =
    | Unstored(error: StoreError)
    | InvalidTopic
    | NaiveReceipt
    | UnusableNotification(digest: string)
    | FetchFailed
    | IntegrityFailed(digest: string)
    | IngestFailed(cause: PipelineError)

  datatype Wis2IngestResult = Wis2IngestResult(
    notificationDigest: string,
    sourceDigest: string,
    publishedAt: int,
    receivedAt: int,
    verified: bool,
    observations: seq<Observation>)

  /** Why a retained notification leads to no fetch. */
  function Refusal(outside: Outside, topic: string, receipt: Receipt, digest: string): Wis2Error {
    if !IsDataTopic(outside.tlds, topic) then InvalidTopic
    else if !receipt.aware then NaiveReceipt
    else UnusableNotification(digest)
  }

  /** The envelope is read once topic, receipt time and size have passed. */
  predicate IsRead(outside: Outside, topic: string, notification: Bytes, receipt: Receipt) {
    IsDataTopic(outside.tlds, topic) && receipt.aware && |notification| <= MAX_NOTIFICATION_BYTES
  }

  /**
    The effects of one delivery, in the only order in which they may happen. The `true` of an
    effect that reads bytes says that they were on record when it happened.
  */
  function Script(outside: Outside, topic: string, notification: Bytes, receipt: Receipt): seq<Action> {
    Opening(outside, topic, notification, receipt)
    + if !ReadyToFetch(outside, topic, notification, receipt) then []
      else FetchScript(outside, Accepted(outside, topic, notification).value)
  }

  function Opening(outside: Outside, topic: string, notification: Bytes, receipt: Receipt): seq<Action> {
    [Retain(notification)]
    + if IsRead(outside, topic, notification, receipt) then [Interpret(notification, true)] else []
  }

  function FetchScript(outside: Outside, m: Message): seq<Action>
    requires ValidMessage(m)
  {
    [Fetch(CanonicalUrl(m))]
    + if outside.fetch(CanonicalUrl(m)).None? then [] else PayloadScript(m, outside.fetch(CanonicalUrl(m)).value)
  }

  /** Without a claim there is nothing to check. */
  function CheckScript(m: Message, payload: Bytes): seq<Action> {
    if m.integrity.Some? then [Check(payload, true)] else []
  }

  function PayloadScript(m: Message, payload: Bytes): seq<Action> {
    [Retain(payload)] + CheckScript(m, payload) + [Retain(payload), Action.Decode(payload, true)]
  }

  /** The download a valid notification asks for. */
  function Fetched(outside: Outside, topic: string, notification: Bytes): Option<Bytes> {
    var m := Accepted(outside, topic, notification);
    if m.None? then None else outside.fetch(CanonicalUrl(m.value))
  }

  /** The observations that a successful delivery returns. */
  function Returned(outside: Outside, hash: Bytes -> string, topic: string, notification: Bytes, receipt: Receipt):
      Option<seq<Observation>>
  {
    var m, payload := Accepted(outside, topic, notification), Fetched(outside, topic, notification);
    if m.None? || payload.None? || Decoded(outside, hash(payload.value), payload.value).None? then None
    else
      var observations := Decoded(outside, hash(payload.value), payload.value).value;
      Some(Bound(observations, m.value, receipt, m.value.integrity.Some?))
  }

  lemma OpeningFirst(outside: Outside, topic: string, notification: Bytes, receipt: Receipt, more: seq<Action>)
    requires ReadyToFetch(outside, topic, notification, receipt)
    requires more <= FetchScript(outside, Accepted(outside, topic, notification).value)
    ensures Opening(outside, topic, notification, receipt) + more <= Script(outside, topic, notification, receipt)
  {
  }

  /** The effects since an earlier moment. */
  ghost function Since(before: seq<Action>, now: seq<Action>): seq<Action>
    requires before <= now
  {
    now[|before|..]
  }

  lemma Joined(before: seq<Action>, opening: seq<Action>, now: seq<Action>)
    requires before + opening <= now
    ensures before <= now && Since(before, now) == opening + Since(before + opening, now)
  {
  }

  /** The injected download. */
  class Fetcher {
    const answer: string -> Option<Bytes>
    const journal: EffectJournal

    constructor (answer: string -> Option<Bytes>, journal: EffectJournal)
      ensures this.answer == answer && this.journal == journal
    {
      this.answer, this.journal := answer, journal;
    }

    method Download(url: string) returns (r: Option<Bytes>)
      modifies journal
      ensures r == answer(url)
      ensures journal.events == old(journal.events) + [Fetch(url)]
    {
      journal.Append(Fetch(url));
      r := answer(url);
    }
  }

  /** The envelope's wire format; each use goes into the journal. */
  class EnvelopeParser {
    const parse: Bytes -> Option<Message>

    constructor (parse: Bytes -> Option<Message>)
      ensures this.parse == parse
    {
      this.parse := parse;
    }

    method Parse(notification: Bytes, raw: RawSourceStore) returns (r: Option<Message>)
      modifies raw.journal
      ensures r == parse(notification)
      ensures raw.journal.events == old(raw.journal.events) + [Interpret(notification, raw.OnRecord(notification))]
    {
      raw.journal.Append(Interpret(notification, raw.OnRecord(notification)));
      r := parse(notification);
    }
  }

  /** Base64 and the claimed hash; each use goes into the journal. */
  class ClaimVerifier {
    const base64: string -> Option<Bytes>
    const claimHash: (string, Bytes) -> Bytes

    constructor (base64: string -> Option<Bytes>, claimHash: (string, Bytes) -> Bytes)
      ensures this.base64 == base64 && this.claimHash == claimHash
    {
      this.base64, this.claimHash := base64, claimHash;
    }

    method Matches(claim: Claim, payload: Bytes, raw: RawSourceStore) returns (holds: bool)
      modifies raw.journal
      ensures holds <==> base64(claim.value) == Some(claimHash(claim.algorithm, payload))
      ensures raw.journal.events == old(raw.journal.events) + [Check(payload, raw.OnRecord(payload))]
    {
      raw.journal.Append(Check(payload, raw.OnRecord(payload)));
      var claimed := base64(claim.value);
      holds := claimed.Some? && claimed.value == claimHash(claim.algorithm, payload);
    }
  }

  /** The bodies below read and fetch bytes only through the objects that enter it in the journal. */
  class Wis2NotificationConsumer {
    const tlds: set<string>
    const uuid5: string -> Uuid
    const raw: RawSourceStore
    const parser: EnvelopeParser
    const fetcher: Fetcher
    const verifier: ClaimVerifier
    const adapter: ObservationAdapter
    ghost const outside: Outside

    /** One journal records the effects of all the objects. */
    ghost predicate Valid() {
      && outside ==
         Outside(tlds, parser.parse, fetcher.answer, verifier.base64, verifier.claimHash, adapter.decode, uuid5)
      && fetcher.journal == raw.journal
    }

    constructor (
        tlds: set<string>, uuid5: string -> Uuid, raw: RawSourceStore, parser: EnvelopeParser, fetcher: Fetcher,
        verifier: ClaimVerifier, adapter: ObservationAdapter)
      requires fetcher.journal == raw.journal
      ensures Valid()
      ensures this.tlds == tlds && this.uuid5 == uuid5 && this.raw == raw && this.parser == parser
      ensures this.fetcher == fetcher && this.verifier == verifier && this.adapter == adapter
    {
      this.tlds, this.uuid5, this.raw, this.parser := tlds, uuid5, raw, parser;
      this.fetcher, this.verifier, this.adapter := fetcher, verifier, adapter;
      this.outside :=
        Outside(tlds, parser.parse, fetcher.answer, verifier.base64, verifier.claimHash, adapter.decode, uuid5);
    }

    /** Looks at topic and envelope: the checks between retaining a notification and fetching. */
    method AcceptNotification(topic: string, notification: Bytes, receipt: Receipt, digest: string)
      returns (r: Result<Message, Wis2Error>)
      requires Valid()
      modifies raw.journal
      ensures raw.journal.events == old(raw.journal.events)
        + if IsRead(outside, topic, notification, receipt) then [Interpret(notification, raw.OnRecord(notification))]
          else []
      ensures r.Ok? <==> ReadyToFetch(outside, topic, notification, receipt)
      ensures r.Ok? ==> Accepted(outside, topic, notification) == Some(r.value)
      ensures r.Err? ==> r.error == Refusal(outside, topic, receipt, digest)
      ensures r == Err(InvalidTopic) <==> !IsDataTopic(tlds, topic)
      ensures r == Err(NaiveReceipt) <==> IsDataTopic(tlds, topic) && !receipt.aware
      ensures r.Err? && r.error.UnusableNotification? <==>
        IsDataTopic(tlds, topic) && receipt.aware && Accepted(outside, topic, notification).None?
    {
      if !IsDataTopic(tlds, topic) {
        return Err(InvalidTopic);
      }
      if !receipt.aware {
        return Err(NaiveReceipt);
      }
      if |notification| > MAX_NOTIFICATION_BYTES {
        return Err(UnusableNotification(digest));
      }
      var parsed := parser.Parse(notification, raw);
      if parsed.None? || !ValidMessage(parsed.value) {
        return Err(UnusableNotification(digest));
      }
      var m := parsed.value;
      var levels := Split(topic, '/');
      if levels[0] == "cache" {
        var known := false;
        if m.globalCache.Some? {
          known := IsValidCentreId(tlds, m.globalCache.value);
        }
        if !known || m.globalCache.value != levels[3] {
          return Err(UnusableNotification(digest));
        }
      }
      return Ok(m);
    }

    /** Compares the payload with the claim, if there is one; the result is whether there was. */
    method VerifyIntegrity(m: Message, payload: Bytes, digest: string) returns (r: Result<bool, Wis2Error>)
      requires Valid()
      modifies raw.journal
      ensures raw.journal.events == old(raw.journal.events)
        + if m.integrity.Some? then [Check(payload, raw.OnRecord(payload))] else []
      ensures r == if IntegrityHolds(outside, m, payload) then Ok(m.integrity.Some?) else Err(IntegrityFailed(digest))
    {
      if m.integrity.None? {
        return Ok(false);
      }
      var holds := verifier.Matches(m.integrity.value, payload, raw);
      if !holds {
        return Err(IntegrityFailed(digest));
      }
      return Ok(true);
    }

    predicate IsRefusal(r: Result<Wis2IngestResult, Wis2Error>) {
      r.Err? && (r.error.InvalidTopic? || r.error.NaiveReceipt? || r.error.UnusableNotification?)
    }

    predicate IsIntegrityFailure(r: Result<Wis2IngestResult, Wis2Error>) {
      r.Err? && r.error.IntegrityFailed?
    }

    predicate IsUnstored(r: Result<Wis2IngestResult, Wis2Error>) {
      r.Err? && r.error.Unstored?
    }

    /** The record could not be retained a second time, on its way to the decoder. */
    predicate IsUnstoredAgain(r: Result<Wis2IngestResult, Wis2Error>) {
      r.Err? && r.error.IngestFailed? && r.error.cause.Storage?
    }

    /** How a delivery ends that has fetched its payload, given how far it got. */
    ghost predicate EndsAs(m: Message, payload: Bytes, steps: seq<Action>, r: Result<Wis2IngestResult, Wis2Error>)
      requires ValidMessage(m)
    {
      var checked := [Retain(payload)] + CheckScript(m, payload);
      && steps in {[], checked, PayloadScript(m, payload)}
      && (IsUnstored(r) <==> steps == [])
      && (IsIntegrityFailure(r) <==> steps == checked && !IntegrityHolds(outside, m, payload))
      && (IsUnstoredAgain(r) <==> steps == checked && IntegrityHolds(outside, m, payload))
      && (steps == PayloadScript(m, payload) ==> IntegrityHolds(outside, m, payload))
      && (r.Ok? <==> steps == PayloadScript(m, payload) && Decoded(outside, raw.hash(payload), payload).Some?)
      && !IsRefusal(r) && r != Err(FetchFailed)
    }

    lemma EndsUnstored(m: Message, payload: Bytes, r: Result<Wis2IngestResult, Wis2Error>)
      requires ValidMessage(m) && IsUnstored(r)
      ensures EndsAs(m, payload, [], r)
    {
    }

    lemma EndsChecked(m: Message, payload: Bytes, r: Result<Wis2IngestResult, Wis2Error>)
      requires ValidMessage(m)
      requires if IntegrityHolds(outside, m, payload) then IsUnstoredAgain(r) else IsIntegrityFailure(r)
      ensures EndsAs(m, payload, [Retain(payload)] + CheckScript(m, payload), r)
    {
      assert |PayloadScript(m, payload)| == |[Retain(payload)] + CheckScript(m, payload)| + 2;
    }

    lemma EndsDecoded(m: Message, payload: Bytes, r: Result<Wis2IngestResult, Wis2Error>)
      requires ValidMessage(m) && IntegrityHolds(outside, m, payload)
      requires r.Ok? <==> Decoded(outside, raw.hash(payload), payload).Some?
      requires r.Err? ==> r.error.IngestFailed? && !r.error.cause.Storage?
      ensures EndsAs(m, payload, PayloadScript(m, payload), r)
    {
      assert |PayloadScript(m, payload)| == |[Retain(payload)] + CheckScript(m, payload)| + 2;
    }

    lemma FetchThenEnds(m: Message, payload: Bytes, steps: seq<Action>, r: Result<Wis2IngestResult, Wis2Error>)
      requires ValidMessage(m) && outside.fetch(CanonicalUrl(m)) == Some(payload)
      requires EndsAs(m, payload, steps, r) && (steps != [] ==> raw.OnRecord(payload))
      ensures FetchTraced(m, [Fetch(CanonicalUrl(m))] + steps, r)
    {
      var all := [Fetch(CanonicalUrl(m))] + steps;
      assert all[1..] == steps && steps <= PayloadScript(m, payload);
      forall a | a in all && a.Retain?
        ensures raw.OnRecord(a.bytes)
      {
        assert a in PayloadScript(m, payload);
      }
    }

    /** What the journal shows from the download on. */
    ghost predicate FetchTraced(m: Message, steps: seq<Action>, r: Result<Wis2IngestResult, Wis2Error>)
      requires ValidMessage(m)
      reads raw
    {
      var payload := outside.fetch(CanonicalUrl(m));
      && steps != [] && steps[0] == Fetch(CanonicalUrl(m)) && steps <= FetchScript(outside, m)
      && (forall a | a in steps && a.Retain? :: raw.OnRecord(a.bytes))
      && (if payload.None? then r == Err(FetchFailed) else EndsAs(m, payload.value, steps[1..], r))
    }

    /** What it shows of a whole delivery: how far it got, and with that how it ended. */
    ghost predicate Traced(
        topic: string, notification: Bytes, receipt: Receipt, steps: seq<Action>,
        r: Result<Wis2IngestResult, Wis2Error>)
      reads raw
    {
      var opening := Opening(outside, topic, notification, receipt);
      && steps <= Script(outside, topic, notification, receipt)
      && (forall a | a in steps && a.Retain? :: raw.OnRecord(a.bytes))
      && (steps == [] ==> IsUnstored(r))
      && (steps == opening <==> r == Err(Refusal(outside, topic, receipt, raw.hash(notification))))
      && (steps != [] && steps != opening ==>
            && opening < steps && ReadyToFetch(outside, topic, notification, receipt)
            && FetchTraced(Accepted(outside, topic, notification).value, steps[|opening|..], r))
      && (r.Ok? ==> steps == Script(outside, topic, notification, receipt))
    }

    lemma OpeningThenFetch(
        topic: string, notification: Bytes, receipt: Receipt, m: Message, more: seq<Action>,
        r: Result<Wis2IngestResult, Wis2Error>)
      requires ReadyToFetch(outside, topic, notification, receipt) && Accepted(outside, topic, notification) == Some(m)
      requires raw.OnRecord(notification) && FetchTraced(m, more, r)
      ensures Traced(topic, notification, receipt, Opening(outside, topic, notification, receipt) + more, r)
    {
      OpeningFirst(outside, topic, notification, receipt, more);
    }

    /** The result of a delivery whose payload decodes. */
    ghost function Success(m: Message, receipt: Receipt, notificationDigest: string, payload: Bytes): Wis2IngestResult
      requires ValidMessage(m) && Decoded(outside, raw.hash(payload), payload).Some?
    {
      Wis2IngestResult(
        notificationDigest, raw.hash(payload), m.pubtime.at, receipt.at, m.integrity.Some?,
        Bound(Decoded(outside, raw.hash(payload), payload).value, m, receipt, m.integrity.Some?))
    }

    /** A returned observation carries the origin and the trust state that the message gives it. */
    ghost predicate CarriesOrigin(o: Observation, m: Message, canonical: Link, receipt: Receipt) {
      && (o.provenance.verification == Upstream <==> m.integrity.Some?)
      && o.provenance.sourceId == m.dataId
      && o.provenance.sourceUri == Some(canonical.href.text)
      && o.provenance.publishedAt == Some(m.pubtime.at)
      && o.provenance.receivedAt == Some(receipt.at)
    }

    /** It is the decoded record at that index in everything else, under the id derived from the payload. */
    ghost predicate IsDecoded(o: Observation, decoded: Observation, digest: string, index: nat) {
      && o.id == uuid5(digest + "|" + decoded.provenance.decoderVersion + "|" + Decimal(index))
      && o.body == decoded.body
      && o.observationTime == decoded.observationTime
      && o.ingestionTime == decoded.ingestionTime
      && o.disposition == decoded.disposition
      && o.provenance.digest == decoded.provenance.digest == digest
      && o.provenance.ingestedAt == decoded.provenance.ingestedAt
      && o.provenance.decoderVersion == decoded.provenance.decoderVersion
      && o.provenance.license == decoded.provenance.license
    }

    /** The observations are those of the payload, bound to message and link, one for one, and the claim holds. */
    ghost predicate ComesFrom(
        observations: seq<Observation>, payload: Bytes, m: Message, canonical: Link, receipt: Receipt)
    {
      var decoded := adapter.decode(payload);
      && (m.integrity.Some? ==>
            verifier.base64(m.integrity.value.value)
            == Some(verifier.claimHash(m.integrity.value.algorithm, payload)))
      && decoded.Some? && |observations| == |decoded.value|
      && forall k | 0 <= k < |observations| ::
           && CarriesOrigin(observations[k], m, canonical, receipt)
           && IsDecoded(observations[k], decoded.value[k], raw.hash(payload), k)
    }

    lemma BoundComesFrom(payload: Bytes, m: Message, i: nat, receipt: Receipt)
      requires Valid() && ValidMessage(m) && OnlyCanonical(m.links, i)
      requires IntegrityHolds(outside, m, payload) && Decoded(outside, raw.hash(payload), payload).Some?
      ensures
        ComesFrom(Bound(Decoded(outside, raw.hash(payload), payload).value, m, receipt, m.integrity.Some?),
                  payload, m, m.links[i], receipt)
    {
      OnlyIsTheCanonical(m.links, i);
      var decoded := adapter.decode(payload).value;
      var bound := Bound(Decoded(outside, raw.hash(payload), payload).value, m, receipt, m.integrity.Some?);
      assert forall k | 0 <= k < |bound| ::
        bound[k] == BindProvenance(Identified(uuid5, raw.hash(payload), decoded[k], k), m, receipt, m.integrity.Some?);
    }

    lemma SuccessComesFrom(m: Message, receipt: Receipt, notificationDigest: string, payload: Bytes)
      requires Valid() && ValidMessage(m)
      requires IntegrityHolds(outside, m, payload) && Decoded(outside, raw.hash(payload), payload).Some?
      ensures var r := Success(m, receipt, notificationDigest, payload);
        exists i :: OnlyCanonical(m.links, i) && ComesFrom(r.observations, payload, m, m.links[i], receipt)
    {
      OneCanonicalIff(m.links);
      var i :| OnlyCanonical(m.links, i);
      BoundComesFrom(payload, m, i, receipt);
    }

    /** The last phase: the pipeline retains and decodes the payload, and the envelope is bound to the result. */
    method IngestAndBind(payload: Bytes, m: Message, receipt: Receipt, notificationDigest: string, verified: bool,
                         rival: Option<Entry>)
      returns (r: Result<Wis2IngestResult, Wis2Error>)
      requires Valid() && ValidMessage(m) && verified == m.integrity.Some?
      modifies raw, raw.journal
      ensures forall e | e in old(raw.entries) :: e in raw.entries && raw.entries[e] == old(raw.entries)[e]
      ensures raw.journal.events == old(raw.journal.events) +
        if IsUnstoredAgain(r) then [] else [Retain(payload), Action.Decode(payload, true)]
      ensures r.Err? ==> r.error.IngestFailed?
      ensures r.Ok? <==> !IsUnstoredAgain(r) && Decoded(outside, raw.hash(payload), payload).Some?
      ensures r.Ok? ==> r.value == Success(m, receipt, notificationDigest, payload)
    {
      var result := IngestSourceRecord(payload, adapter, uuid5, raw, rival);
      if result.Err? {
        return Err(IngestFailed(result.error));
      }
      return Ok(Wis2IngestResult(notificationDigest, result.value.digest, m.pubtime.at, receipt.at, verified,
                                 Bound(result.value.observations, m, receipt, verified)));
    }

    /** What follows in the journal once the payload is retained. */
    ghost function AfterRetaining(m: Message, payload: Bytes, r: Result<Wis2IngestResult, Wis2Error>): seq<Action> {
      CheckScript(m, payload)
      + if IsIntegrityFailure(r) || IsUnstoredAgain(r) then [] else [Retain(payload), Action.Decode(payload, true)]
    }

    /** What may be returned once the payload is retained. */
    ghost predicate EndsRetained(m: Message, payload: Bytes, r: Result<Wis2IngestResult, Wis2Error>) {
      && (IsIntegrityFailure(r) <==> !IntegrityHolds(outside, m, payload))
      && (r.Err? ==> r.error.IngestFailed? || r.error.IntegrityFailed?)
      && (r.Ok? <==> IntegrityHolds(outside, m, payload) && !IsUnstoredAgain(r)
                     && Decoded(outside, raw.hash(payload), payload).Some?)
    }

    lemma EndsAfterRetaining(m: Message, payload: Bytes, r: Result<Wis2IngestResult, Wis2Error>)
      requires ValidMessage(m) && EndsRetained(m, payload, r)
      ensures EndsAs(m, payload, [Retain(payload)] + AfterRetaining(m, payload, r), r)
    {
      if IsIntegrityFailure(r) || IsUnstoredAgain(r) {
        EndsChecked(m, payload, r);
        assert [Retain(payload)] + AfterRetaining(m, payload, r) == [Retain(payload)] + CheckScript(m, payload);
      } else {
        EndsDecoded(m, payload, r);
        assert [Retain(payload)] + AfterRetaining(m, payload, r) == PayloadScript(m, payload);
      }
    }

    /** Check and decode a payload that is on record. */
    method ProcessRetained(payload: Bytes, m: Message, receipt: Receipt, notificationDigest: string, digest: string,
                           rival: Option<Entry>)
      returns (r: Result<Wis2IngestResult, Wis2Error>)
      requires Valid() && ValidMessage(m) && raw.OnRecord(payload)
      modifies raw, raw.journal
      ensures forall e | e in old(raw.entries) :: e in raw.entries && raw.entries[e] == old(raw.entries)[e]
      ensures raw.journal.events == old(raw.journal.events) + AfterRetaining(m, payload, r)
      ensures EndsRetained(m, payload, r)
      ensures r.Ok? ==> r.value == Success(m, receipt, notificationDigest, payload)
    {
      var verified := VerifyIntegrity(m, payload, digest);
      if verified.Err? {
        return Err(verified.error);
      }
      r := IngestAndBind(payload, m, receipt, notificationDigest, verified.value, rival);
    }

    /** Retain, check, decode: the second half of a delivery. */
    method ProcessPayload(payload: Bytes, m: Message, receipt: Receipt, notificationDigest: string,
                          rivals: nat -> Option<Entry>)
      returns (r: Result<Wis2IngestResult, Wis2Error>)
      requires Valid() && ValidMessage(m)
      modifies raw, raw.journal
      ensures forall e | e in old(raw.entries) :: e in raw.entries && raw.entries[e] == old(raw.entries)[e]
      ensures old(raw.journal.events) <= raw.journal.events
      ensures var steps := Since(old(raw.journal.events), raw.journal.events);
        EndsAs(m, payload, steps, r) && (steps != [] ==> raw.OnRecord(payload))
      ensures r.Ok? ==> r.value == Success(m, receipt, notificationDigest, payload)
      ensures r.Ok? ==>
        exists i :: OnlyCanonical(m.links, i) && ComesFrom(r.value.observations, payload, m, m.links[i], receipt)
    {
      var retained := raw.Store(payload, rivals(1));
      if retained.Err? {
        r := Err(Unstored(retained.error));
        EndsUnstored(m, payload, r);
        assert Since(old(raw.journal.events), raw.journal.events) == [];
        return;
      }
      r := ProcessRetained(payload, m, receipt, notificationDigest, retained.value, rivals(2));
      assert Since(old(raw.journal.events), raw.journal.events) == [Retain(payload)] + AfterRetaining(m, payload, r);
      EndsAfterRetaining(m, payload, r);
      if r.Ok? {
        SuccessComesFrom(m, receipt, notificationDigest, payload);
      }
    }

    /** What an accepted message leads to: one download, and the payload if it arrives. */
    method FetchAndProcess(m: Message, receipt: Receipt, notificationDigest: string, rivals: nat -> Option<Entry>)
      returns (r: Result<Wis2IngestResult, Wis2Error>)
      requires Valid() && ValidMessage(m)
      modifies raw, raw.journal
      ensures forall e | e in old(raw.entries) :: e in raw.entries && raw.entries[e] == old(raw.entries)[e]
      ensures old(raw.journal.events) <= raw.journal.events
      ensures FetchTraced(m, Since(old(raw.journal.events), raw.journal.events), r)
      ensures r.Ok? ==>
        var payload := outside.fetch(CanonicalUrl(m));
        && payload.Some? && IntegrityHolds(outside, m, payload.value)
        && Decoded(outside, raw.hash(payload.value), payload.value).Some?
        && r.value == Success(m, receipt, notificationDigest, payload.value)
    {
      var payload := fetcher.Download(CanonicalUrl(m));
      if payload.None? {
        return Err(FetchFailed);
      }
      ghost var begun := raw.journal.events;
      r := ProcessPayload(payload.value, m, receipt, notificationDigest, rivals);
      ghost var steps := Since(begun, raw.journal.events);
      FetchThenEnds(m, payload.value, steps, r);
      assert Since(old(raw.journal.events), raw.journal.events) == [Fetch(CanonicalUrl(m))] + steps;
    }

    /** The first half of a delivery: the notification is retained and then looked at. */
    method RetainAndAccept(topic: string, notification: Bytes, receipt: Receipt, rival: Option<Entry>)
      returns (r: Result<Message, Wis2Error>, digest: string)
      requires Valid()
      modifies raw, raw.journal
      ensures var unstored := r.Err? && r.error.Unstored?;
        && raw.journal.events
           == old(raw.journal.events) + (if unstored then [] else Opening(outside, topic, notification, receipt))
        && (!unstored ==> raw.OnRecord(notification))
        && (r.Ok? ==> digest == raw.hash(notification))
        && (!unstored && r.Err? <==> r == Err(Refusal(outside, topic, receipt, raw.hash(notification))))
      ensures r.Ok? ==>
        ReadyToFetch(outside, topic, notification, receipt) && Accepted(outside, topic, notification) == Some(r.value)
    {
      digest := "";
      var stored := raw.Store(notification, rival);
      if stored.Err? {
        return Err(Unstored(stored.error)), digest;
      }
      digest := stored.value;
      r := AcceptNotification(topic, notification, receipt, digest);
    }

    /** What a successful delivery returns. */
    ghost predicate Delivered(topic: string, notification: Bytes, receipt: Receipt, r: Wis2IngestResult) {
      && ReadyToFetch(outside, topic, notification, receipt)
      && var m, payload := Accepted(outside, topic, notification).value, Fetched(outside, topic, notification);
      && payload.Some? && IntegrityHolds(outside, m, payload.value)
      && Returned(outside, raw.hash, topic, notification, receipt) == Some(r.observations)
      && r.notificationDigest == raw.hash(notification) && r.sourceDigest == raw.hash(payload.value)
      && r.publishedAt == m.pubtime.at && r.receivedAt == receipt.at
      && r.verified == m.integrity.Some?
    }

    lemma SuccessIsDelivered(topic: string, notification: Bytes, receipt: Receipt, m: Message)
      requires ReadyToFetch(outside, topic, notification, receipt) && Accepted(outside, topic, notification) == Some(m)
      requires var payload := Fetched(outside, topic, notification);
        && payload.Some? && IntegrityHolds(outside, m, payload.value)
        && Decoded(outside, raw.hash(payload.value), payload.value).Some?
      ensures var payload := Fetched(outside, topic, notification).value;
        Delivered(topic, notification, receipt, Success(m, receipt, raw.hash(notification), payload))
    {
    }

    lemma DeliveredComesFrom(topic: string, notification: Bytes, receipt: Receipt, r: Wis2IngestResult)
      returns (i: nat)
      requires Valid() && Delivered(topic, notification, receipt, r)
      ensures parser.parse(notification).Some?
      ensures var m := parser.parse(notification).value;
        OnlyCanonical(m.links, i) && fetcher.answer(m.links[i].href.text).Some?
        && ComesFrom(r.observations, fetcher.answer(m.links[i].href.text).value, m, m.links[i], receipt)
    {
      var m := parser.parse(notification).value;
      AcceptedIff(outside, topic, notification);
      i :| FetchesFrom(m, i);
      OnlyIsTheCanonical(m.links, i);
      BoundComesFrom(fetcher.answer(m.links[i].href.text).value, m, i, receipt);
    }

    lemma RefusalTraced(
        topic: string, notification: Bytes, receipt: Receipt, steps: seq<Action>,
        r: Result<Wis2IngestResult, Wis2Error>)
      requires if IsUnstored(r) then steps == [] else steps == Opening(outside, topic, notification, receipt)
      requires !IsUnstored(r) ==>
        r == Err(Refusal(outside, topic, receipt, raw.hash(notification))) && raw.OnRecord(notification)
      ensures Traced(topic, notification, receipt, steps, r)
    {
    }

    /**
      Trace safety, for every input and outcome. The effects that the journal shows are a prefix
      of the script: the notification is on record before it is interpreted, at most one fetch
      follows and only when every check has passed, and the payload is on record before it is
      checked or decoded. How far the journal gets, whether the claim holds and whether the payload
      decodes fix how the delivery ends: stored or not, refused, not fetched, failed or returned.
      `rivals` are what other processes put into the store meanwhile.
    */
    method Process(topic: string, notification: Bytes, receipt: Receipt, rivals: nat -> Option<Entry>)
      returns (r: Result<Wis2IngestResult, Wis2Error>)
      requires Valid()
      modifies raw, raw.journal
      ensures old(raw.journal.events) <= raw.journal.events
      ensures Traced(topic, notification, receipt, Since(old(raw.journal.events), raw.journal.events), r)
      ensures r.Ok? ==> Delivered(topic, notification, receipt, r.value)
      ensures r.Ok? ==>
        && parser.parse(notification).Some?
        && var m := parser.parse(notification).value;
        && exists i ::
             && OnlyCanonical(m.links, i) && fetcher.answer(m.links[i].href.text).Some?
             && ComesFrom(r.value.observations, fetcher.answer(m.links[i].href.text).value, m, m.links[i], receipt)
    {
      var accepted, digest := RetainAndAccept(topic, notification, receipt, rivals(0));
      if accepted.Err? {
        r := Err(accepted.error);
        RefusalTraced(topic, notification, receipt, Since(old(raw.journal.events), raw.journal.events), r);
        return;
      }
      ghost var begun := raw.journal.events;
      r := FetchAndProcess(accepted.value, receipt, digest, rivals);
      ghost var more := Since(begun, raw.journal.events);
      Joined(old(raw.journal.events), Opening(outside, topic, notification, receipt), raw.journal.events);
      OpeningThenFetch(topic, notification, receipt, accepted.value, more, r);
      if r.Ok? {
        SuccessIsDelivered(topic, notification, receipt, accepted.value);
        var i := DeliveredComesFrom(topic, notification, receipt, r.value);
      }
    }
  }

  // ---------------------------------------------------------------- redelivery

  /** One arrival of a notification: its own topic, envelope, URL, receipt time and claim. */
  datatype Delivery = Delivery(topic: string, notification: Bytes, receipt: Receipt)

  function BatchOf(outside: Outside, hash: Bytes -> string, d: Delivery): Option<Log> {
    Returned(outside, hash, d.topic, d.notification, d.receipt)
  }

  /** Two deliveries of the same published bytes: data id and publication time agree. */
  predicate SameData(outside: Outside, a: Delivery, b: Delivery) {
    var x, y := Accepted(outside, a.topic, a.notification), Accepted(outside, b.topic, b.notification);
    && x.Some? && y.Some?
    && x.value.dataId == y.value.dataId && x.value.pubtime.at == y.value.pubtime.at
    && Fetched(outside, a.topic, a.notification) == Fetched(outside, b.topic, b.notification)
  }

  /** What two deliveries of the same data return agrees in content, record by record. */
  lemma SameDataSameContents(outside: Outside, hash: Bytes -> string, a: Delivery, b: Delivery)
    requires SameData(outside, a, b) && BatchOf(outside, hash, a).Some?
    ensures BatchOf(outside, hash, b).Some?
    ensures SameContents(BatchOf(outside, hash, a).value, BatchOf(outside, hash, b).value)
  {
  }

  /**
    Exactly once: wherever in a history of offered batches, some of them cut short by crashes,
    the same data is delivered again, over whatever URL, at whatever time and with or without a
    claim, the log is as if it had been delivered the first time only. The first delivery must
    have been admitted to its end, or refused.
  */
  lemma RedeliveryIsExactlyOnce(
      outside: Outside, hash: Bytes -> string, a: Delivery, b: Delivery, reach: nat, again: nat,
      log: Log, before: seq<Offer>, between: seq<Offer>, rest: seq<Offer>)
    requires DistinctIds(log) && SameData(outside, a, b) && BatchOf(outside, hash, a).Some?
    requires Completed(OfferAll(log, before), Offer(BatchOf(outside, hash, a).value, reach))
    ensures BatchOf(outside, hash, b).Some?
    ensures var first := Offer(BatchOf(outside, hash, a).value, reach);
      var later := Offer(BatchOf(outside, hash, b).value, again);
      OfferAll(log, before + [first] + between + [later] + rest) == OfferAll(log, before + [first] + between + rest)
  {
    SameDataSameContents(outside, hash, a, b);
    var first := Offer(BatchOf(outside, hash, a).value, reach);
    var later := Offer(BatchOf(outside, hash, b).value, again);
    RepeatsCanBeLeftOut(log, before, first, between, later, rest);
  }

  /** Deliveries of the same data as a, as offers that each got as far as its crash let it. */
  ghost predicate DeliveriesOf(
      outside: Outside, hash: Bytes -> string, a: Delivery, deliveries: seq<Delivery>, offers: seq<Offer>)
  {
    && |offers| == |deliveries|
    && forall k | 0 <= k < |deliveries| ::
         SameData(outside, deliveries[k], a) && BatchOf(outside, hash, deliveries[k]) == Some(offers[k].batch)
  }

  /**
    Recovery: when crashes cut the first deliveries short, one delivery that gets to its end
    leaves, content by content, what a single undisturbed one would have left.
  */
  lemma CrashedDeliveryIsRepaired(
      outside: Outside, hash: Bytes -> string, a: Delivery, deliveries: seq<Delivery>, offers: seq<Offer>, log: Log)
    requires DistinctIds(log) && BatchOf(outside, hash, a).Some?
    requires DeliveriesOf(outside, hash, a, deliveries, offers) && SomeCompleted(log, offers)
    ensures SameContents(OfferAll(log, offers), Admit(log, BatchOf(outside, hash, a).value))
  {
    var first := BatchOf(outside, hash, a).value;
    forall offer | offer in offers
      ensures SameContents(offer.batch, first)
    {
      var k :| 0 <= k < |offers| && offers[k] == offer;
      SameDataSameContents(outside, hash, deliveries[k], a);
    }
    AllOfEach(first, offers);
    CutOffersAreRepaired(log, first, offers);
  }

  /** When its ids are new, what is added is the first delivery, metadata included. */
  lemma {:induction false} FirstDeliveryIsLogged(log: Log, batch: Log)
    requires DistinctIds(batch)
    requires forall k | 0 <= k < |batch| :: batch[k].id !in Index(log)
    ensures Admissible(log, batch) && Fresh(log, batch) == batch
    decreases |batch|
  {
    if batch != [] {
      var o, rest := batch[0], batch[1..];
      IndexPush(log, o);
      assert forall k | 0 <= k < |rest| :: rest[k] == batch[k + 1];
      FirstDeliveryIsLogged(log + [o], rest);
    }
  }

  lemma NewBatchIsAppended(log: Log, batch: Log)
    requires DistinctIds(batch) && forall k | 0 <= k < |batch| :: batch[k].id !in Index(log)
    ensures Admit(log, batch) == log + batch
  {
    FirstDeliveryIsLogged(log, batch);
    AfterAppendsFresh(log, batch);
  }

  lemma RepeatHasSameContents(
      outside: Outside, hash: Bytes -> string, deliveries: seq<Delivery>, offers: seq<Offer>, k: nat)
    requires deliveries != [] && DeliveriesOf(outside, hash, deliveries[0], deliveries, offers) && k < |offers|
    ensures SameContents(offers[0].batch, offers[k].batch)
  {
    SameDataSameContents(outside, hash, deliveries[k], deliveries[0]);
  }

  lemma RepeatsHaveSameContents(
      outside: Outside, hash: Bytes -> string, deliveries: seq<Delivery>, offers: seq<Offer>)
    requires deliveries != [] && DeliveriesOf(outside, hash, deliveries[0], deliveries, offers)
    ensures forall again | again in offers :: SameContents(offers[0].batch, again.batch)
  {
    forall again | again in offers
      ensures SameContents(offers[0].batch, again.batch)
    {
      var k :| 0 <= k < |offers| && offers[k] == again;
      RepeatHasSameContents(outside, hash, deliveries, offers, k);
    }
  }

  /**
    Exactly once, in full: after any number of deliveries of the same data to a log without their
    ids, the first of them completed, the log is the old one and the first delivery's records,
    metadata included.
  */
  lemma DeliveredExactlyOnce(
      outside: Outside, hash: Bytes -> string, deliveries: seq<Delivery>, offers: seq<Offer>, log: Log)
    requires DistinctIds(log) && deliveries != [] && DeliveriesOf(outside, hash, deliveries[0], deliveries, offers)
    requires DistinctIds(offers[0].batch)
    requires forall k | 0 <= k < |offers[0].batch| :: offers[0].batch[k].id !in Index(log)
    requires Completed(log, offers[0])
    ensures BatchOf(outside, hash, deliveries[0]) == Some(offers[0].batch)
    ensures OfferAll(log, offers) == log + offers[0].batch
  {
    RepeatsHaveSameContents(outside, hash, deliveries, offers);
    FirstThenRepeats(log, offers);
    NewBatchIsAppended(log, offers[0].batch);
  }
}

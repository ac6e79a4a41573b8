/**
  Batch admission as a function of the log, and what it guarantees about ids.
  The store class and the locking protocol are both proved against these functions.
*/
module Admission {
  import opened Observations
  import opened Sequences

  type Log = seq<Observation>

  ghost function Ids(log: Log): set<Uuid> {
    set o | o in log :: o.id
  }

  ghost predicate DistinctIds(log: Log) {
    forall i, j | 0 <= i < j < |log| :: log[i].id != log[j].id
  }

  /** The record a dictionary built from the log holds for an id: the last one wins. */
  function Index(log: Log): (index: map<Uuid, Observation>)
    ensures index.Keys == Ids(log)
  {
    if log == [] then map[]
    else
      var last := log[|log| - 1];
      assert log == log[..|log| - 1] + [last];
      Index(log[..|log| - 1])[last.id := last]
  }

  /** No record of the batch contradicts the one that holds its id when it is reached. */
  predicate Admissible(log: Log, batch: Log)
    decreases |batch|
  {
    if batch == [] then true
    else
      var o, index := batch[0], Index(log);
      if o.id in index then
        ContentOf(index[o.id]) == ContentOf(o) && Admissible(log, batch[1..])
      else Admissible(log + [o], batch[1..])
  }

  /** The records an admissible batch adds: those whose id is new when they are reached. */
  function Fresh(log: Log, batch: Log): (added: Log)
    decreases |batch|
  {
    if batch == [] then []
    else if batch[0].id in Index(log) then Fresh(log, batch[1..])
    else [batch[0]] + Fresh(log + [batch[0]], batch[1..])
  }

  /** The log once those records are appended one by one. */
  function After(log: Log, batch: Log): Log
    decreases |batch|
  {
    if batch == [] then log
    else if batch[0].id in Index(log) then After(log, batch[1..])
    else After(log + [batch[0]], batch[1..])
  }

  function Admit(log: Log, batch: Log): Log {
    if Admissible(log, batch) then After(log, batch) else log
  }

  lemma {:induction false} AfterAppendsFresh(log: Log, batch: Log)
    ensures After(log, batch) == log + Fresh(log, batch)
    decreases |batch|
  {
    if batch != [] {
      var o := batch[0];
      if o.id in Index(log) {
        AfterAppendsFresh(log, batch[1..]);
      } else {
        AfterAppendsFresh(log + [o], batch[1..]);
        Associate(log, o, Fresh(log + [o], batch[1..]));
      }
    }
  }

  lemma Associate(log: Log, o: Observation, tail: Log)
    ensures log + [o] + tail == log + ([o] + tail)
  {
  }

  // ---------------------------------------------------------------- indexing

  lemma IndexPush(log: Log, o: Observation)
    ensures Index(log + [o]) == Index(log)[o.id := o]
  {
    assert (log + [o])[..|log|] == log;
  }

  lemma {:induction false} IndexHolds(log: Log, id: Uuid)
    requires id in Index(log)
    ensures Index(log)[id] in log && Index(log)[id].id == id
  {
    var n := |log| - 1;
    if log[n].id != id {
      IndexHolds(log[..n], id);
    }
  }

  lemma {:induction false} IndexUnique(log: Log, k: nat)
    requires DistinctIds(log) && k < |log|
    ensures log[k].id in Index(log) && Index(log)[log[k].id] == log[k]
  {
    var n := |log| - 1;
    if k < n {
      assert log[..n][k] == log[k];
      IndexUnique(log[..n], k);
    }
  }

  lemma HeldIsUnique(log: Log, p: Observation)
    requires DistinctIds(log) && p in log
    ensures p.id in Index(log) && Index(log)[p.id] == p
  {
    var k :| 0 <= k < |log| && log[k] == p;
    IndexUnique(log, k);
  }

  lemma NewId(log: Log, o: Observation)
    requires o.id !in Index(log)
    ensures forall p | p in log :: p.id != o.id
  {
  }

  lemma DistinctPush(log: Log, o: Observation)
    requires DistinctIds(log) && o.id !in Index(log)
    ensures DistinctIds(log + [o])
  {
    NewId(log, o);
    forall i | 0 <= i < |log|
      ensures log[i].id != o.id
    {
      assert log[i] in log;
    }
  }

  // ---------------------------------------------------------------- what admission keeps

  /** Ids stay pairwise distinct, and the log only ever grows at its end. */
  lemma {:induction false} AdmissionKeepsIdsDistinct(log: Log, batch: Log)
    requires DistinctIds(log)
    ensures DistinctIds(After(log, batch)) && log <= After(log, batch)
    decreases |batch|
  {
    if batch != [] {
      if batch[0].id in Index(log) {
        AdmissionKeepsIdsDistinct(log, batch[1..]);
      } else {
        DistinctPush(log, batch[0]);
        AdmissionKeepsIdsDistinct(log + [batch[0]], batch[1..]);
      }
    }
  }

  /** A record of the batch that differs in content from the one held for its id is never passed over. */
  lemma {:induction false} HeldConflictRefuses(log: Log, batch: Log, k: nat)
    requires k < |batch| && batch[k].id in Index(log)
    requires ContentOf(Index(log)[batch[k].id]) != ContentOf(batch[k])
    ensures !Admissible(log, batch)
    decreases |batch|
  {
    if k > 0 {
      var o := batch[0];
      if o.id in Index(log) {
        HeldConflictRefuses(log, batch[1..], k - 1);
      } else {
        IndexPush(log, o);
        HeldConflictRefuses(log + [o], batch[1..], k - 1);
      }
    }
  }

  /** The dictionary holds the last record of an id. */
  lemma {:induction false} LastIsHeld(log: Log, i: nat)
    requires i < |log| && forall j | i < j < |log| :: log[j].id != log[i].id
    ensures log[i].id in Index(log) && Index(log)[log[i].id] == log[i]
  {
    var n := |log| - 1;
    if i < n {
      LastIsHeld(log[..n], i);
    }
  }

  /** Two records of one id that disagree in a field other than acquisition metadata. */
  predicate Contradicts(held: Observation, b: Observation) {
    && held.id == b.id
    && (|| held.body != b.body
        || held.observationTime != b.observationTime
        || held.disposition != b.disposition
        || held.provenance.sourceId != b.provenance.sourceId
        || held.provenance.publishedAt != b.provenance.publishedAt
        || held.provenance.digest != b.provenance.digest
        || held.provenance.decoderVersion != b.provenance.decoderVersion
        || held.provenance.license != b.provenance.license)
  }

  lemma ContradictionRefuses(log: Log, batch: Log, i: nat, k: nat)
    requires i < |log| && (forall j | i < j < |log| :: log[j].id != log[i].id)
    requires k < |batch| && Contradicts(log[i], batch[k])
    ensures !Admissible(log, batch)
  {
    LastIsHeld(log, i);
    HeldConflictRefuses(log, batch, k);
  }

  /** Nor does a batch pass that contradicts itself. */
  lemma {:induction false} SelfContradictionRefuses(log: Log, batch: Log, i: nat, k: nat)
    requires i < k < |batch| && Contradicts(batch[i], batch[k])
    ensures !Admissible(log, batch)
    decreases |batch|
  {
    var o, rest := batch[0], batch[1..];
    if o.id in Index(log) {
      if i > 0 {
        SelfContradictionRefuses(log, rest, i - 1, k - 1);
      } else if ContentOf(Index(log)[o.id]) == ContentOf(o) {
        HeldConflictRefuses(log, rest, k - 1);
      }
    } else if i > 0 {
      SelfContradictionRefuses(log + [o], rest, i - 1, k - 1);
    } else {
      IndexPush(log, o);
      HeldConflictRefuses(log + [o], rest, k - 1);
    }
  }

  /** Only records of the batch are added. */
  lemma {:induction false} FreshComesFromBatch(log: Log, batch: Log, o: Observation)
    requires o in Fresh(log, batch)
    ensures o in batch
    decreases |batch|
  {
    if batch[0].id in Index(log) {
      FreshComesFromBatch(log, batch[1..], o);
    } else if o != batch[0] {
      FreshComesFromBatch(log + [batch[0]], batch[1..], o);
    }
  }

  // ---------------------------------------------------------------- the conflict check

  /** Two records agree when they share content or do not share an id. */
  predicate Agree(a: Observation, b: Observation) {
    a.id == b.id ==> ContentOf(a) == ContentOf(b)
  }

  /** No pair within the batch, nor between log and batch, is in conflict. */
  ghost predicate ConflictFree(log: Log, batch: Log) {
    && (forall o, b | o in log && b in batch :: Agree(o, b))
    && (forall a, b | a in batch && b in batch :: Agree(a, b))
  }

  lemma ConflictFreeHeld(log: Log, o: Observation, rest: Log)
    requires DistinctIds(log) && o.id in Index(log)
    ensures ConflictFree(log, [o] + rest)
            <==> ContentOf(Index(log)[o.id]) == ContentOf(o) && ConflictFree(log, rest)
  {
    var held, batch := Index(log)[o.id], [o] + rest;
    IndexHolds(log, o.id);
    assert o in batch && forall b | b in rest :: b in batch;
    if ContentOf(held) == ContentOf(o) && ConflictFree(log, rest) {
      forall p | p in log
        ensures Agree(p, o)
      {
        HeldIsUnique(log, p);
      }
      forall b | b in rest
        ensures Agree(o, b) && Agree(b, o)
      {
        assert Agree(held, b);
      }
    } else if ConflictFree(log, batch) {
      assert Agree(held, o);
    }
  }

  lemma ConflictFreeNew(log: Log, o: Observation, rest: Log)
    requires o.id !in Index(log)
    ensures ConflictFree(log, [o] + rest) <==> ConflictFree(log + [o], rest)
  {
    var batch, longer := [o] + rest, log + [o];
    NewId(log, o);
    assert o in batch && forall b | b in rest :: b in batch;
    assert o in longer && forall p | p in log :: p in longer;
    if ConflictFree(longer, rest) {
      assert forall b | b in rest :: Agree(o, b) && Agree(b, o);
    }
  }

  /**
    The sequential check is the symmetric one: a batch is admitted exactly when no two of the
    records involved conflict, whether the other record is in the log or in the batch itself.
  */
  lemma {:induction false} AdmissibleIffConflictFree(log: Log, batch: Log)
    requires DistinctIds(log)
    ensures Admissible(log, batch) <==> ConflictFree(log, batch)
    decreases |batch|
  {
    if batch != [] {
      var o, rest := batch[0], batch[1..];
      assert batch == [o] + rest;
      if o.id in Index(log) {
        ConflictFreeHeld(log, o, rest);
        AdmissibleIffConflictFree(log, rest);
      } else {
        ConflictFreeNew(log, o, rest);
        DistinctPush(log, o);
        AdmissibleIffConflictFree(log + [o], rest);
      }
    }
  }

  lemma AgreeMeans(a: Observation, b: Observation)
    ensures Agree(a, b) <==> !Contradicts(a, b)
  {
  }

  /** The check in terms of fields: a batch passes exactly when it contradicts neither the log nor itself. */
  lemma AdmissibleUnlessContradicted(log: Log, batch: Log)
    requires DistinctIds(log)
    ensures Admissible(log, batch)
            <==> (forall a, b | (a in log || a in batch) && b in batch :: !Contradicts(a, b))
  {
    AdmissibleIffConflictFree(log, batch);
    forall a, b
      ensures Agree(a, b) <==> !Contradicts(a, b)
    {
      AgreeMeans(a, b);
    }
    assert ConflictFree(log, batch) <==> forall a, b | (a in log || a in batch) && b in batch :: Agree(a, b);
  }

  // ---------------------------------------------------------------- one batch after another

  /** Admitting two batches in turn is admitting their concatenation. */
  lemma {:induction false} AdmitInTurn(log: Log, a: Log, b: Log)
    ensures Admissible(log, a + b) <==> Admissible(log, a) && Admissible(After(log, a), b)
    ensures After(log, a + b) == After(After(log, a), b)
    decreases |a|
  {
    if a == [] {
      assert a + b == b;
    } else {
      var o, rest := a[0], a[1..];
      assert (a + b)[1..] == rest + b;
      if o.id in Index(log) {
        AdmitInTurn(log, rest, b);
      } else {
        AdmitInTurn(log + [o], rest, b);
      }
    }
  }

  /** A batch whose every record is already held with equal content changes nothing. */
  lemma {:induction false} HeldBatchIsSkipped(log: Log, batch: Log)
    requires forall b | b in batch ::
      b.id in Index(log) && ContentOf(Index(log)[b.id]) == ContentOf(b)
    ensures Admissible(log, batch) && After(log, batch) == log && Fresh(log, batch) == []
  {
    if batch != [] {
      assert batch[0] in batch;
      HeldBatchIsSkipped(log, batch[1..]);
    }
  }

  /** Once held, a record stays the one held for its id: the first admission wins forever. */
  lemma {:induction false} FirstRecordIsKept(log: Log, batch: Log, id: Uuid)
    requires DistinctIds(log) && id in Index(log)
    ensures id in Index(After(log, batch)) && Index(After(log, batch))[id] == Index(log)[id]
    decreases |batch|
  {
    if batch != [] {
      var o := batch[0];
      if o.id in Index(log) {
        FirstRecordIsKept(log, batch[1..], id);
      } else {
        DistinctPush(log, o);
        IndexPush(log, o);
        FirstRecordIsKept(log + [o], batch[1..], id);
      }
    }
  }

  /** After a batch was admitted, the record held for each of its ids has that content. */
  lemma {:induction false} AdmittedContentIsHeld(log: Log, batch: Log, b: Observation)
    requires DistinctIds(log) && Admissible(log, batch) && b in batch
    ensures var index := Index(After(log, batch));
      b.id in index && ContentOf(index[b.id]) == ContentOf(b)
    decreases |batch|
  {
    var o, rest := batch[0], batch[1..];
    if o.id in Index(log) {
      if b == o {
        FirstRecordIsKept(log, batch, b.id);
      } else {
        AdmittedContentIsHeld(log, rest, b);
      }
    } else {
      DistinctPush(log, o);
      IndexPush(log, o);
      if b == o {
        FirstRecordIsKept(log + [o], rest, b.id);
      } else {
        AdmittedContentIsHeld(log + [o], rest, b);
      }
    }
  }

  /** Redelivery: once a batch is in, any batch of the same contents is skipped whole. */
  lemma RedeliveryIsSkipped(log: Log, first: Log, again: Log)
    requires DistinctIds(log) && Admissible(log, first)
    requires |again| == |first|
    requires forall k | 0 <= k < |first| :: ContentOf(again[k]) == ContentOf(first[k])
    ensures Admissible(After(log, first), again) && After(After(log, first), again) == After(log, first)
  {
    forall b | b in again
      ensures b.id in Index(After(log, first))
              && ContentOf(Index(After(log, first))[b.id]) == ContentOf(b)
    {
      var k :| 0 <= k < |again| && again[k] == b;
      AdmittedContentIsHeld(log, first, first[k]);
    }
    HeldBatchIsSkipped(After(log, first), again);
  }

  // ---------------------------------------------------------------- histories of batches

  /** Each batch admitted to the log the previous ones left. */
  function AdmitAll(log: Log, batches: seq<Log>): Log {
    if batches == [] then log
    else Admit(AdmitAll(log, batches[..|batches| - 1]), batches[|batches| - 1])
  }

  /** What a crash leaves of an admission: of an admissible batch, the first n records it adds. */
  function AdmitUpTo(log: Log, batch: Log, n: nat): Log {
    if Admissible(log, batch) then log + Take(Fresh(log, batch), n) else log
  }

  /** A batch offered to the log, and how many of its new records reach it if a crash comes. */
  datatype Offer = Offer(batch: Log, reach: nat)

  function OfferAll(log: Log, offers: seq<Offer>): Log {
    if offers == [] then log
    else
      var last := offers[|offers| - 1];
      AdmitUpTo(OfferAll(log, offers[..|offers| - 1]), last.batch, last.reach)
  }

  /** No crash came, or it came too late to matter. */
  predicate Completed(log: Log, offer: Offer) {
    Admissible(log, offer.batch) ==> |Fresh(log, offer.batch)| <= offer.reach
  }

  lemma CompletedIsAdmitted(log: Log, offer: Offer)
    requires Completed(log, offer)
    ensures AdmitUpTo(log, offer.batch, offer.reach) == Admit(log, offer.batch)
  {
    AfterAppendsFresh(log, offer.batch);
  }

  lemma {:induction false} OfferAllInTwo(log: Log, a: seq<Offer>, b: seq<Offer>)
    ensures OfferAll(log, a + b) == OfferAll(OfferAll(log, a), b)
    decreases |b|
  {
    if b == [] {
      assert a + b == a;
    } else {
      var n := |b| - 1;
      assert (a + b)[..|a + b| - 1] == a + b[..n];
      OfferAllInTwo(log, a, b[..n]);
    }
  }

  lemma OneOffer(log: Log, offer: Offer)
    ensures OfferAll(log, [offer]) == AdmitUpTo(log, offer.batch, offer.reach)
  {
    assert [offer][..0] == [];
  }

  /** However far it gets, an admission keeps ids distinct and only appends. */
  lemma PartialAdmissionIsDistinct(log: Log, batch: Log, n: nat)
    requires DistinctIds(log)
    ensures DistinctIds(log + Take(Fresh(log, batch), n))
  {
    AdmissionKeepsIdsDistinct(log, batch);
    AfterAppendsFresh(log, batch);
    var whole, part := log + Fresh(log, batch), log + Take(Fresh(log, batch), n);
    assert forall i | 0 <= i < |part| :: part[i] == whole[i];
  }

  lemma {:induction false} OfferAllGrows(log: Log, offers: seq<Offer>)
    requires DistinctIds(log)
    ensures DistinctIds(OfferAll(log, offers)) && log <= OfferAll(log, offers)
  {
    if offers != [] {
      var n := |offers| - 1;
      OfferAllGrows(log, offers[..n]);
      PartialAdmissionIsDistinct(OfferAll(log, offers[..n]), offers[n].batch, offers[n].reach);
    }
  }

  ghost predicate SameContents(a: Log, b: Log) {
    |a| == |b| && forall k | 0 <= k < |a| :: ContentOf(a[k]) == ContentOf(b[k])
  }

  /** What is held in a log is held in every log that extends it. */
  lemma HeldInLonger(log: Log, longer: Log, id: Uuid)
    requires DistinctIds(longer) && log <= longer && id in Index(log)
    ensures id in Index(longer) && Index(longer)[id] == Index(log)[id]
  {
    IndexHolds(log, id);
    HeldIsUnique(longer, Index(log)[id]);
  }

  /** A batch that was admitted is skipped by every later log, in any delivery of its contents. */
  lemma AdmittedIsSkippedLater(log: Log, first: Log, again: Log, later: Log)
    requires DistinctIds(log) && Admissible(log, first) && SameContents(first, again)
    requires DistinctIds(later) && After(log, first) <= later
    ensures Admissible(later, again) && Fresh(later, again) == []
  {
    forall b | b in again
      ensures b.id in Index(later) && ContentOf(Index(later)[b.id]) == ContentOf(b)
    {
      var k :| 0 <= k < |again| && again[k] == b;
      assert ContentOf(first[k]).id == ContentOf(b).id;
      AdmittedContentIsHeld(log, first, first[k]);
      HeldInLonger(After(log, first), later, b.id);
    }
    HeldBatchIsSkipped(later, again);
  }

  lemma ConflictsCarryOver(log: Log, first: Log, again: Log, later: Log)
    requires log <= later && SameContents(first, again) && ConflictFree(later, again)
    ensures ConflictFree(log, first)
  {
    forall o, b | o in log && b in first
      ensures Agree(o, b)
    {
      var k :| 0 <= k < |first| && first[k] == b;
      assert o in later && again[k] in again && Agree(o, again[k]);
      assert ContentOf(b).id == b.id && ContentOf(again[k]).id == again[k].id;
    }
    forall x, y | x in first && y in first
      ensures Agree(x, y)
    {
      var i :| 0 <= i < |first| && first[i] == x;
      var j :| 0 <= j < |first| && first[j] == y;
      assert again[i] in again && again[j] in again && Agree(again[i], again[j]);
      assert ContentOf(x) == ContentOf(again[i]) && ContentOf(y) == ContentOf(again[j]);
    }
  }

  /** Whether a batch is admitted depends on its contents only. */
  lemma AdmissibleByContent(log: Log, a: Log, b: Log)
    requires DistinctIds(log) && SameContents(a, b)
    ensures Admissible(log, a) <==> Admissible(log, b)
  {
    AdmissibleIffConflictFree(log, a);
    AdmissibleIffConflictFree(log, b);
    if ConflictFree(log, b) {
      ConflictsCarryOver(log, a, b, log);
    }
    if ConflictFree(log, a) {
      ConflictsCarryOver(log, b, a, log);
    }
  }

  lemma RefusedIsRefusedLater(log: Log, first: Log, again: Log, later: Log)
    requires DistinctIds(log) && DistinctIds(later) && log <= later
    requires !Admissible(log, first) && SameContents(first, again)
    ensures !Admissible(later, again)
  {
    if Admissible(later, again) {
      AdmissibleIffConflictFree(later, again);
      ConflictsCarryOver(log, first, again, later);
      AdmissibleIffConflictFree(log, first);
    }
  }

  lemma RepeatIsIdle(log: Log, first: Log, again: Log, later: Log, reach: nat)
    requires DistinctIds(log) && SameContents(first, again)
    requires DistinctIds(later) && Admit(log, first) <= later
    ensures AdmitUpTo(later, again, reach) == later
  {
    if Admissible(log, first) {
      AdmittedIsSkippedLater(log, first, again, later);
      assert later + [] == later;
    } else {
      RefusedIsRefusedLater(log, first, again, later);
    }
  }

  /**
    A repeated batch changes nothing, however its first offer went and whatever was offered in
    between: if the first was admitted it is skipped, if it was refused it is refused again. Only
    a first offer that a crash cut short is another matter.
  */
  lemma RepeatChangesNothing(log: Log, first: Offer, between: seq<Offer>, again: Offer)
    requires DistinctIds(log) && SameContents(first.batch, again.batch) && Completed(log, first)
    ensures var later := OfferAll(AdmitUpTo(log, first.batch, first.reach), between);
      AdmitUpTo(later, again.batch, again.reach) == later
  {
    CompletedIsAdmitted(log, first);
    AdmissionKeepsIdsDistinct(log, first.batch);
    OfferAllGrows(Admit(log, first.batch), between);
    RepeatIsIdle(log, first.batch, again.batch, OfferAll(Admit(log, first.batch), between), again.reach);
  }

  /** In any history of offers, leaving out a repeat of a completed one gives the same log. */
  lemma RepeatsCanBeLeftOut(
      log: Log, before: seq<Offer>, first: Offer, between: seq<Offer>, again: Offer, rest: seq<Offer>)
    requires DistinctIds(log) && SameContents(first.batch, again.batch) && Completed(OfferAll(log, before), first)
    ensures OfferAll(log, before + [first] + between + [again] + rest)
         == OfferAll(log, before + [first] + between + rest)
  {
    var base := OfferAll(log, before);
    OfferAllGrows(log, before);
    RepeatChangesNothing(base, first, between, again);
    OfferAllInTwo(log, before, [first]);
    OfferAllInTwo(log, before + [first], between);
    OfferAllInTwo(log, before + [first] + between, [again]);
    OfferAllInTwo(log, before + [first] + between + [again], rest);
    OfferAllInTwo(log, before + [first] + between, rest);
    OneOffer(base, first);
    OneOffer(OfferAll(log, before + [first] + between), again);
  }

  /** Once the first offer is completed, any number of repeats in a row leave the log alone. */
  lemma {:induction false} RepeatsInARow(log: Log, first: Offer, repeats: seq<Offer>)
    requires DistinctIds(log) && Completed(log, first)
    requires forall again | again in repeats :: SameContents(first.batch, again.batch)
    ensures OfferAll(Admit(log, first.batch), repeats) == Admit(log, first.batch)
  {
    if repeats != [] {
      var n := |repeats| - 1;
      assert repeats[n] in repeats && forall again | again in repeats[..n] :: again in repeats;
      RepeatsInARow(log, first, repeats[..n]);
      RepeatChangesNothing(log, first, [], repeats[n]);
      CompletedIsAdmitted(log, first);
    }
  }

  lemma FirstThenRepeats(log: Log, offers: seq<Offer>)
    requires DistinctIds(log) && offers != [] && Completed(log, offers[0])
    requires forall again | again in offers :: SameContents(offers[0].batch, again.batch)
    ensures OfferAll(log, offers) == Admit(log, offers[0].batch)
  {
    var first, repeats := offers[0], offers[1..];
    assert offers == [first] + repeats && forall again | again in repeats :: again in offers;
    OfferAllInTwo(log, [first], repeats);
    OneOffer(log, first);
    CompletedIsAdmitted(log, first);
    RepeatsInARow(log, first, repeats);
  }

  // ---------------------------------------------------------------- recovery from a crash

  lemma HeadIsHeld(log: Log, batch: Log)
    requires batch != [] && batch[0].id in Index(log)
    requires ContentOf(Index(log)[batch[0].id]) == ContentOf(batch[0])
    ensures Admissible(log, batch) == Admissible(log, batch[1..]) && Fresh(log, batch) == Fresh(log, batch[1..])
  {
  }

  lemma HeadIsAdded(log: Log, batch: Log)
    requires batch != [] && batch[0].id !in Index(log)
    ensures Admissible(log, batch) == Admissible(log + [batch[0]], batch[1..])
    ensures Fresh(log, batch) == [batch[0]] + Fresh(log + [batch[0]], batch[1..])
  {
  }

  lemma HeadOfAdded(log: Log, o: Observation, added: Log, w: nat)
    requires 0 < w <= |added| + 1
    ensures ([o] + added)[w..] == added[w - 1..]
    ensures log + ([o] + added)[..w] == log + [o] + added[..w - 1]
  {
  }

  /** Once some of its new records are in, the batch is still admissible and owes the others. */
  lemma {:induction false} RestIsOwed(log: Log, batch: Log, w: nat, part: Log)
    requires DistinctIds(log) && Admissible(log, batch) && w <= |Fresh(log, batch)|
    requires part == log + Fresh(log, batch)[..w]
    ensures Admissible(part, batch) && Fresh(part, batch) == Fresh(log, batch)[w..]
    decreases |batch|
  {
    if w == 0 {
      assert part == log;
    } else {
      var o, rest := batch[0], batch[1..];
      PartialAdmissionIsDistinct(log, batch, w);
      if o.id in Index(log) {
        HeadIsHeld(log, batch);
        RestIsOwed(log, rest, w, part);
        HeldInLonger(log, part, o.id);
        HeadIsHeld(part, batch);
      } else {
        HeadIsAdded(log, batch);
        HeadOfAdded(log, o, Fresh(log + [o], rest), w);
        DistinctPush(log, o);
        RestIsOwed(log + [o], rest, w - 1, part);
        assert part[|log|] == o;
        HeldIsUnique(part, o);
        HeadIsHeld(part, batch);
      }
    }
  }

  lemma TakeInTwo(log: Log, added: Log, w: nat, n: nat)
    requires w <= |added|
    ensures log + added[..w] + Take(added[w..], n) == log + Take(added, w + n)
  {
    var rest := added[w..];
    assert added == added[..w] + rest;
    if n <= |rest| {
      assert rest[..n] == added[w..w + n];
      SliceSplit(added, w, w + n);
    }
    assert log + added[..w] + Take(rest, n) == log + (added[..w] + Take(rest, n));
  }

  lemma NothingIsOwed(log: Log, batch: Log, whole: Log)
    requires DistinctIds(log) && Admissible(log, batch) && whole == log + Fresh(log, batch)
    ensures forall n: nat :: AdmitUpTo(whole, batch, n) == whole
  {
    var added := Fresh(log, batch);
    assert added[..|added|] == added && added[|added|..] == [];
    RestIsOwed(log, batch, |added|, whole);
    assert whole + [] == whole;
  }

  /** Offering a batch again goes on where the crash cut it off. */
  lemma OffersAddUp(log: Log, batch: Log, w: nat, n: nat)
    requires DistinctIds(log)
    ensures AdmitUpTo(AdmitUpTo(log, batch, w), batch, n) == AdmitUpTo(log, batch, w + n)
  {
    if Admissible(log, batch) {
      var added, part := Fresh(log, batch), AdmitUpTo(log, batch, w);
      if w <= |added| {
        RestIsOwed(log, batch, w, part);
        TakeInTwo(log, added, w, n);
      } else {
        NothingIsOwed(log, batch, part);
      }
    }
  }

  lemma {:induction false} IndexByContent(a: Log, b: Log, id: Uuid)
    requires SameContents(a, b)
    ensures id in Index(a) <==> id in Index(b)
    ensures id in Index(a) ==> ContentOf(Index(a)[id]) == ContentOf(Index(b)[id])
  {
    if a != [] {
      var n := |a| - 1;
      IndexByContent(a[..n], b[..n], id);
      assert ContentOf(a[n]).id == ContentOf(b[n]).id;
    }
  }

  lemma TailsAgree(x: Log, y: Log)
    requires SameContents(x, y) && x != []
    ensures SameContents(x[1..], y[1..]) && x[0].id == y[0].id
  {
    assert ContentOf(x[0]).id == ContentOf(y[0]).id;
  }

  lemma SameContentsAppend(a: Log, b: Log, x: Log, y: Log)
    requires SameContents(a, b) && SameContents(x, y)
    ensures SameContents(a + x, b + y)
  {
  }

  /** Admission looks at contents only: what it adds agrees in content as well. */
  lemma {:induction false} AddedByContent(a: Log, b: Log, x: Log, y: Log)
    requires SameContents(a, b) && SameContents(x, y)
    ensures Admissible(a, x) <==> Admissible(b, y)
    ensures Admissible(a, x) ==> SameContents(Fresh(a, x), Fresh(b, y))
    decreases |x|
  {
    if x != [] {
      TailsAgree(x, y);
      IndexByContent(a, b, x[0].id);
      if x[0].id !in Index(a) {
        SameContentsAppend(a, b, [x[0]], [y[0]]);
        AddedByContent(a + [x[0]], b + [y[0]], x[1..], y[1..]);
        HeadIsAdded(a, x);
        HeadIsAdded(b, y);
        if Admissible(a, x) {
          SameContentsAppend([x[0]], [y[0]], Fresh(a + [x[0]], x[1..]), Fresh(b + [y[0]], y[1..]));
        }
      } else if ContentOf(Index(a)[x[0].id]) == ContentOf(x[0]) {
        AddedByContent(a, b, x[1..], y[1..]);
        HeadIsHeld(a, x);
        HeadIsHeld(b, y);
      }
    }
  }

  lemma OfferedByContent(a: Log, b: Log, x: Log, y: Log, n: nat)
    requires SameContents(a, b) && SameContents(x, y)
    ensures SameContents(AdmitUpTo(a, x, n), AdmitUpTo(b, y, n))
  {
    AddedByContent(a, b, x, y);
    if Admissible(a, x) {
      SameContentsAppend(a, b, Take(Fresh(a, x), n), Take(Fresh(b, y), n));
    }
  }

  ghost predicate AllOf(first: Log, offers: seq<Offer>) {
    offers == [] ||
    (SameContents(offers[|offers| - 1].batch, first) && AllOf(first, offers[..|offers| - 1]))
  }

  lemma {:induction false} AllOfEach(first: Log, offers: seq<Offer>)
    requires forall offer | offer in offers :: SameContents(offer.batch, first)
    ensures AllOf(first, offers)
  {
    if offers != [] {
      AllOfEach(first, offers[..|offers| - 1]);
    }
  }

  /** One of the offers is completed when its turn comes. */
  predicate SomeCompleted(log: Log, offers: seq<Offer>) {
    offers != [] &&
    var n := |offers| - 1;
    SomeCompleted(log, offers[..n]) || Completed(OfferAll(log, offers[..n]), offers[n])
  }

  /** An offer that is completed after the first w records are in completes the batch. */
  lemma CompletesTheRest(log: Log, first: Log, w: nat, now: Log, offer: Offer)
    requires DistinctIds(log) && SameContents(now, AdmitUpTo(log, first, w)) && SameContents(offer.batch, first)
    requires Completed(now, offer)
    ensures Completed(log, Offer(first, w + offer.reach))
  {
    if Admissible(log, first) && w < |Fresh(log, first)| {
      RestIsOwed(log, first, w, AdmitUpTo(log, first, w));
      AddedByContent(now, AdmitUpTo(log, first, w), offer.batch, first);
    }
  }

  lemma OneOfferMore(log: Log, first: Log, w: nat, now: Log, offer: Offer)
    requires DistinctIds(log) && SameContents(now, AdmitUpTo(log, first, w)) && SameContents(offer.batch, first)
    ensures SameContents(AdmitUpTo(now, offer.batch, offer.reach), AdmitUpTo(log, first, w + offer.reach))
    ensures Completed(now, offer) || Completed(log, Offer(first, w)) ==> Completed(log, Offer(first, w + offer.reach))
  {
    OfferedByContent(now, AdmitUpTo(log, first, w), offer.batch, first, offer.reach);
    OffersAddUp(log, first, w, offer.reach);
    if Completed(now, offer) {
      CompletesTheRest(log, first, w, now, offer);
    }
  }

  /** So far the offers came to one offer of the first batch that got this far. */
  ghost predicate ComesTo(log: Log, first: Log, offers: seq<Offer>, reach: nat) {
    && SameContents(OfferAll(log, offers), AdmitUpTo(log, first, reach))
    && (SomeCompleted(log, offers) ==> Completed(log, Offer(first, reach)))
  }

  lemma NoOffers(log: Log, first: Log)
    ensures ComesTo(log, first, [], 0)
  {
    assert log + [] == log;
  }

  lemma LastOffer(log: Log, first: Log, offers: seq<Offer>, w: nat)
    requires DistinctIds(log) && offers != []
    requires ComesTo(log, first, offers[..|offers| - 1], w)
    requires SameContents(offers[|offers| - 1].batch, first)
    ensures ComesTo(log, first, offers, w + offers[|offers| - 1].reach)
  {
    var n := |offers| - 1;
    OneOfferMore(log, first, w, OfferAll(log, offers[..n]), offers[n]);
  }

  function TotalReach(offers: seq<Offer>): nat {
    if offers == [] then 0 else TotalReach(offers[..|offers| - 1]) + offers[|offers| - 1].reach
  }

  /** Offers of the same contents, each cut anywhere, come to one offer that got as far as all of them. */
  lemma {:induction false} OffersOfSameContents(log: Log, first: Log, offers: seq<Offer>)
    requires DistinctIds(log) && AllOf(first, offers)
    ensures ComesTo(log, first, offers, TotalReach(offers))
  {
    if offers == [] {
      NoOffers(log, first);
    } else {
      var earlier := offers[..|offers| - 1];
      OffersOfSameContents(log, first, earlier);
      LastOffer(log, first, offers, TotalReach(earlier));
    }
  }

  /**
    Recovery: however often the same contents are offered in a row and wherever crashes cut the
    offers short, once one of them is completed the log is, content by content, what a single
    undisturbed admission leaves.
  */
  lemma CutOffersAreRepaired(log: Log, first: Log, offers: seq<Offer>)
    requires DistinctIds(log) && AllOf(first, offers) && SomeCompleted(log, offers)
    ensures SameContents(OfferAll(log, offers), Admit(log, first))
  {
    OffersOfSameContents(log, first, offers);
    CompletedIsAdmitted(log, Offer(first, TotalReach(offers)));
  }

  /** The very same batch again leaves the very same log. */
  lemma SameBatchIsRepaired(log: Log, batch: Log, cut: nat)
    requires DistinctIds(log)
    ensures Admit(AdmitUpTo(log, batch, cut), batch) == Admit(log, batch)
  {
    var n := |Fresh(log, batch)| + |Fresh(AdmitUpTo(log, batch, cut), batch)|;
    OffersAddUp(log, batch, cut, n);
    CompletedIsAdmitted(AdmitUpTo(log, batch, cut), Offer(batch, n));
    CompletedIsAdmitted(log, Offer(batch, cut + n));
  }
}

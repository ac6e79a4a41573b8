/** What becomes of the temporary names of the write-once store: when one can be left behind. */
module TemporaryNames {
  import opened Wrappers
  import opened RawStoreProtocol

  /** The call has made its temporary file and not yet removed the name. */
  predicate IsBetween(pc: Pc) {
    pc.Filling? || pc.Syncing? || pc.Linking? || pc.Rereading? || pc.Unlinking?
  }

  ghost predicate NameGood(s: State, c: nat) {
    var name := Temporary(c);
    && (name in s.directory || name in s.durable ==>
          c in s.calls && !s.calls[c].pc.Started? && !s.calls[c].pc.Creating?)
    && (c in s.calls ==>
          var call := s.calls[c];
          && (IsBetween(call.pc) ==> name in s.directory)
          && (call.pc.Started? ==> !call.published)
          && (call.pc.DirectorySyncing? ==> name !in s.directory)
          && (call.published && call.pc.Finished? ==> name !in s.directory && name !in s.durable))
  }

  /** Holds while the power stays on: a call that returned has removed its name. */
  ghost predicate NameGone(s: State, c: nat) {
    c in s.calls && s.calls[c].pc.Finished? ==> Temporary(c) !in s.directory
  }

  lemma OwnActKeepsName(cfg: Config, s: State, c: nat)
    requires c in s.calls && NameGood(s, c)
    ensures NameGood(Advance(cfg, s, c), c)
    ensures NameGone(s, c) ==> NameGone(Advance(cfg, s, c), c)
  {
    match s.calls[c].pc
    case Started =>
    case Creating =>
    case Filling =>
    case Syncing =>
    case Linking =>
    case Rereading =>
    case Unlinking(_) =>
    case DirectorySyncing =>
    case _ =>
  }

  /** Another call's step leaves this call's name as it is, or makes it as durable as it is linked. */
  lemma OtherActLeavesName(cfg: Config, s: State, a: nat, c: nat)
    requires a in s.calls && a != c
    ensures var r := Advance(cfg, s, a);
      && (c in r.calls <==> c in s.calls) && (c in s.calls ==> r.calls[c] == s.calls[c])
      && (Temporary(c) in r.directory <==> Temporary(c) in s.directory)
      && (Temporary(c) in r.durable ==> Temporary(c) in s.durable || Temporary(c) in s.directory)
  {
    AdvanceIsOwn(cfg, s, a);
    match s.calls[a].pc
    case Creating =>
    case Linking =>
    case Unlinking(_) =>
    case DirectorySyncing =>
    case _ =>
  }

  lemma PowerLossKeepsNameGood(cfg: Config, s: State, kept: set<Name>, garbage: map<nat, Bytes>, c: nat)
    requires NameGood(s, c)
    ensures NameGood(AfterPowerLoss(cfg, s, kept, garbage), c)
  {
    var r := AfterPowerLoss(cfg, s, kept, garbage);
    assert Temporary(c) in r.directory ==> Temporary(c) in s.directory || Temporary(c) in s.durable;
    if c in s.calls {
      assert r.calls[c] == AfterwardsCall(s.calls[c]);
    }
  }

  lemma StepKeepsNameGood(cfg: Config, s: State, e: Event, c: nat)
    requires NameGood(s, c)
    ensures NameGood(Step(cfg, s, e), c)
  {
    match e
    case Act(a) =>
      if a in s.calls && a != c {
        OtherActLeavesName(cfg, s, a, c);
      } else if a in s.calls {
        OwnActKeepsName(cfg, s, c);
      }
    case PowerLoss(kept, garbage) => PowerLossKeepsNameGood(cfg, s, kept, garbage, c);
    case Store(_, _) =>
    case Kill(_) =>
  }

  lemma StepKeepsNameGone(cfg: Config, s: State, e: Event, c: nat)
    requires NameGood(s, c) && NameGone(s, c) && !e.PowerLoss?
    ensures NameGone(Step(cfg, s, e), c)
  {
    match e
    case Act(a) =>
      if a in s.calls && a != c {
        OtherActLeavesName(cfg, s, a, c);
      } else if a in s.calls {
        OwnActKeepsName(cfg, s, c);
      }
    case Store(_, _) =>
    case Kill(_) =>
  }

  lemma {:induction false} RunKeepsName(cfg: Config, s: State, events: seq<Event>, c: nat)
    requires NameGood(s, c)
    ensures NameGood(Run(cfg, s, events), c)
    ensures NameGone(s, c) && PowerStaysOn(events) ==> NameGone(Run(cfg, s, events), c)
    decreases |events|
  {
    if events != [] {
      StepKeepsNameGood(cfg, s, events[0], c);
      if NameGone(s, c) && PowerStaysOn(events) {
        assert !events[0].PowerLoss?;
        StepKeepsNameGone(cfg, s, events[0], c);
        assert forall k | 0 <= k < |events[1..]| :: events[1..][k] == events[k + 1];
      }
      RunKeepsName(cfg, Step(cfg, s, events[0]), events[1..], c);
    }
  }

  /**
    While the power stays on, the temporary name of a call that was not killed is there exactly
    between making the file and removing the name; no call that returned has left one.
  */
  lemma NameIsThereIff(cfg: Config, events: seq<Event>, c: nat)
    requires PowerStaysOn(events)
    requires var s := Run(cfg, INITIAL, events); c !in s.calls || !s.calls[c].pc.Dead?
    ensures var s := Run(cfg, INITIAL, events);
      Temporary(c) in s.directory <==> c in s.calls && IsBetween(s.calls[c].pc)
  {
    RunKeepsName(cfg, INITIAL, events, c);
  }

  /** Over all runs: a name outlives its call's return only after a power failure, and never a publisher's. */
  lemma LeftoverIsOfAFinder(cfg: Config, events: seq<Event>, c: nat)
    requires var s := Run(cfg, INITIAL, events);
      c in s.calls && s.calls[c].pc.Finished? && Temporary(c) in s.directory
    ensures !PowerStaysOn(events) && !Run(cfg, INITIAL, events).calls[c].published
  {
    RunKeepsName(cfg, INITIAL, events, c);
  }

  // ---------------------------------------------------------------- a name that comes back

  /** Call 2, whose link lost, goes on to the end: it returns normally and removes its name. */
  lemma LoserFinishes(cfg: Config, s: State, digest: string)
    requires 2 in s.calls && s.calls[2].pc == Linking && !s.calls[2].published
    requires digest == cfg.hash(s.calls[2].payload) && Retrievable(cfg, s, digest)
    ensures var r := Run(cfg, s, Acts(2, 3));
      && 2 in r.calls && r.calls[2].pc == Finished(Returned(digest))
      && r.directory == s.directory - {Temporary(2)} && r.durable == s.durable
  {
    var s1 := Advance(cfg, s, 2);
    var s2 := Advance(cfg, s1, 2);
    ActOnce(cfg, s, 2, 3);
    ActOnce(cfg, s1, 2, 2);
    ActOnce(cfg, s2, 2, 1);
  }

  /** Call 1 links, removes its name and syncs the directory while the name of call 2 is in it. */
  lemma WinnerSyncs(cfg: Config, s: State, digest: string)
    requires 1 in s.calls && s.calls[1].pc == Linking && 1 in s.inodes
    requires digest == cfg.hash(s.calls[1].payload) && Digest(digest) !in s.directory
    ensures var r := Run(cfg, s, Acts(1, 3));
      && r.calls == s.calls[1 := Call(s.calls[1].payload, Finished(Returned(digest)), true)]
      && r.directory == s.directory[Digest(digest) := 1] - {Temporary(1)} && r.durable == r.directory
      && r.inodes == s.inodes
  {
    var s1 := Advance(cfg, s, 1);
    var s2 := Advance(cfg, s1, 1);
    ActOnce(cfg, s, 1, 3);
    ActOnce(cfg, s1, 1, 2);
    ActOnce(cfg, s2, 1, 1);
  }

  /** Two calls with one payload have both written their files and are about to link. */
  ghost predicate BothLinking(cfg: Config, s: State, payload: Bytes) {
    && 1 in s.calls && s.calls[1] == Call(payload, Linking, false)
    && 2 in s.calls && s.calls[2] == Call(payload, Linking, false)
    && Temporary(2) in s.directory && Digest(cfg.hash(payload)) !in s.directory
    && 1 in s.inodes && s.inodes[1] == Inode(payload, true)
  }

  lemma BothWrite(cfg: Config, payload: Bytes) returns (events: seq<Event>)
    requires |payload| <= cfg.maximum
    ensures PowerStaysOn(events) && BothLinking(cfg, Run(cfg, INITIAL, events), payload)
  {
    var stores := [Store(1, payload), Store(2, payload)];
    var stored := BothStored(cfg, payload);
    var first := SoloWrites(cfg, stored, 1);
    var second := SoloWrites(cfg, first, 2);
    RunInTwo(cfg, INITIAL, stores, Acts(1, 4));
    RunInTwo(cfg, INITIAL, stores + Acts(1, 4), Acts(2, 4));
    events := stores + Acts(1, 4) + Acts(2, 4);
  }

  lemma BothStored(cfg: Config, payload: Bytes) returns (stored: State)
    ensures stored == Run(cfg, INITIAL, [Store(1, payload), Store(2, payload)])
    ensures stored.directory == map[] && stored.inodes == map[]
    ensures 1 in stored.calls && stored.calls[1] == Call(payload, Started, false)
    ensures 2 in stored.calls && stored.calls[2] == Call(payload, Started, false)
  {
    var one := Step(cfg, INITIAL, Store(1, payload));
    stored := Step(cfg, one, Store(2, payload));
    var stores := [Store(1, payload), Store(2, payload)];
    assert stores[1..] == [Store(2, payload)] && stores[1..][1..] == [];
    assert Run(cfg, one, stores[1..]) == Run(cfg, stored, stores[1..][1..]);
  }

  /** From there one call publishes and syncs, and the other finds the record and returns. */
  lemma OneWinsOneFinds(cfg: Config, s: State, payload: Bytes)
    requires BothLinking(cfg, s, payload) && |payload| <= cfg.maximum
    ensures var r := Run(cfg, Run(cfg, s, Acts(1, 3)), Acts(2, 3));
      && 2 in r.calls && r.calls[2].pc == Finished(Returned(cfg.hash(payload)))
      && Temporary(2) !in r.directory && Temporary(2) in r.durable
  {
    var digest := cfg.hash(payload);
    WinnerSyncs(cfg, s, digest);
    var synced := Run(cfg, s, Acts(1, 3));
    assert synced.inodes[1].data == payload && synced.directory[Digest(digest)] == 1;
    assert Retrievable(cfg, synced, digest);
    LoserFinishes(cfg, synced, digest);
  }

  /** What was synced comes back when nothing later was kept. */
  lemma SyncedNameComesBack(cfg: Config, s: State, name: Name, c: nat)
    requires name in s.durable && c in s.calls && s.calls[c].pc.Finished?
    ensures var r := Step(cfg, s, PowerLoss({}, map[]));
      name in r.directory && c in r.calls && r.calls[c] == s.calls[c]
  {
  }

  /**
    The leftover happens: a call returns normally after removing its temporary name, and a power
    failure brings the name back, because another call's sync had made it durable.
  */
  lemma RemovedNameCanComeBack(cfg: Config, payload: Bytes) returns (before: seq<Event>, loss: Event)
    requires |payload| <= cfg.maximum
    ensures PowerStaysOn(before) && loss.PowerLoss?
    ensures var s := Run(cfg, INITIAL, before);
      var r := Step(cfg, s, loss);
      && 2 in s.calls && s.calls[2].pc == Finished(Returned(cfg.hash(payload))) && Temporary(2) !in s.directory
      && Temporary(2) in r.directory && 2 in r.calls && r.calls[2] == s.calls[2]
  {
    var writing := BothWrite(cfg, payload);
    OneWinsOneFinds(cfg, Run(cfg, INITIAL, writing), payload);
    RunInTwo(cfg, INITIAL, writing, Acts(1, 3));
    RunInTwo(cfg, INITIAL, writing + Acts(1, 3), Acts(2, 3));
    before := writing + Acts(1, 3) + Acts(2, 3);
    loss := PowerLoss({}, map[]);
    SyncedNameComesBack(cfg, Run(cfg, INITIAL, before), Temporary(2), 2);
    assert forall k | 0 <= k < |before| :: !before[k].PowerLoss?;
  }
}

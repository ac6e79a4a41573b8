/**
  The write-once publish protocol under concurrency: any number of store calls interleave
  step by step, any of them may be killed between two steps, and the power may fail.
  Names live in a directory whose changes are durable only after a directory sync, and the
  bytes of a file are durable only after a file sync.
*/
module RawStoreProtocol {
  import opened Wrappers

  /** The hash and the size limit every caller shares. */
  datatype Config = Config(hash: Bytes -> string, maximum: nat)

  datatype Name = Digest(digest: string) | Temporary(call: nat)

  /** A file, identified by the call that created it. */
  datatype Inode = Inode(data: Bytes, synced: bool)

  datatype Outcome = Returned(digest: string) | TooLarge | Oversized | Corrupt | Disappeared

  datatype Pc =
    | Started
    | Creating               // nothing was retained: make the temporary file
    | Filling                // write the payload into it
    | Syncing                // sync the file
    | Linking                // link it to the digest name
    | Rereading              // the link lost: look at what won
    | Unlinking(o: Outcome)  // remove the temporary name
    | DirectorySyncing       // published: sync the directory
    | Finished(o: Outcome)
    | Dead

  /** `published` is set by the call's own link and never cleared. */
  datatype Call = Call(payload: Bytes, pc: Pc, published: bool)

  datatype State = State(
    calls: map<nat, Call>,
    directory: map<Name, nat>,
    durable: map<Name, nat>,
    inodes: map<nat, Inode>)

  const INITIAL := State(map[], map[], map[], map[])

  datatype Event =
    | Store(c: nat, payload: Bytes)
    | Act(c: nat)
    | Kill(c: nat)
    | PowerLoss(kept: set<Name>, garbage: map<nat, Bytes>)

  function Put(s: State, c: nat, pc: Pc): State
    requires c in s.calls
  {
    s.(calls := s.calls[c := s.calls[c].(pc := pc)])
  }

  /** Reading the record at a digest name and checking it against the digest. */
  function ReadBack(cfg: Config, s: State, digest: string): Option<Outcome> {
    if Digest(digest) !in s.directory || s.directory[Digest(digest)] !in s.inodes then None
    else
      var data := s.inodes[s.directory[Digest(digest)]].data;
      if |data| > cfg.maximum then Some(Oversized)
      else if cfg.hash(data) != digest then Some(Corrupt)
      else Some(Returned(digest))
  }

  function Advance(cfg: Config, s: State, c: nat): State
    requires c in s.calls
  {
    var call := s.calls[c];
    var digest := cfg.hash(call.payload);
    match call.pc
    case Started =>
      if |call.payload| > cfg.maximum then Put(s, c, Finished(TooLarge))
      else
        var existing := ReadBack(cfg, s, digest);
        if existing.Some? then Put(s, c, Finished(existing.value)) else Put(s, c, Creating)
    case Creating =>
      Put(s, c, Filling).(directory := s.directory[Temporary(c) := c], inodes := s.inodes[c := Inode([], false)])
    case Filling => Put(s, c, Syncing).(inodes := s.inodes[c := Inode(call.payload, false)])
    case Syncing => Put(s, c, Linking).(inodes := s.inodes[c := Inode(call.payload, true)])
    case Linking =>
      if Digest(digest) in s.directory then Put(s, c, Rereading)
      else
        s.(calls := s.calls[c := call.(pc := Unlinking(Returned(digest)), published := true)],
           directory := s.directory[Digest(digest) := c])
    case Rereading =>
      var existing := ReadBack(cfg, s, digest);
      Put(s, c, Unlinking(if existing.Some? then existing.value else Disappeared))
    case Unlinking(o) =>
      Put(s, c, if call.published then DirectorySyncing else Finished(o))
        .(directory := s.directory - {Temporary(c)})
    case DirectorySyncing => Put(s, c, Finished(Returned(digest))).(durable := s.directory)
    case Finished(_) => s
    case Dead => s
  }

  /**
    After a power failure each name is as the last sync left it or as it last was, in any mix;
    unsynced bytes are arbitrary; unfinished calls are gone.
  */
  function AfterPowerLoss(cfg: Config, s: State, kept: set<Name>, garbage: map<nat, Bytes>): State {
    var directory :=
      (map n | n in s.directory && n in kept :: s.directory[n])
      + (map n | n in s.durable && n !in kept :: s.durable[n]);
    State(
      map c | c in s.calls :: AfterwardsCall(s.calls[c]),
      directory,
      directory,
      map i | i in s.inodes ::
        if !s.inodes[i].synced && i in garbage then Inode(garbage[i], false) else s.inodes[i])
  }

  function AfterwardsCall(call: Call): Call {
    if call.pc.Finished? then call else call.(pc := Dead)
  }

  /** One event; an event that is not enabled leaves the state as it is. */
  function Step(cfg: Config, s: State, e: Event): State {
    match e
    case Store(c, payload) =>
      if c in s.calls then s else s.(calls := s.calls[c := Call(payload, Started, false)])
    case Act(c) => if c in s.calls then Advance(cfg, s, c) else s
    case Kill(c) =>
      if c in s.calls && !s.calls[c].pc.Finished? then Put(s, c, Dead) else s
    case PowerLoss(kept, garbage) => AfterPowerLoss(cfg, s, kept, garbage)
  }

  function Run(cfg: Config, s: State, events: seq<Event>): State
    decreases |events|
  {
    if events == [] then s else Run(cfg, Step(cfg, s, events[0]), events[1..])
  }

  // ---------------------------------------------------------------- the invariant

  /** The call is past the point at which its file may still change. */
  predicate PastLink(pc: Pc) {
    pc.Unlinking? || pc.DirectorySyncing? || pc.Finished? || pc.Dead? || pc.Rereading?
  }

  /** A linked file: complete, synced, small enough, and hashing to its name. */
  ghost predicate EntryGood(cfg: Config, s: State, digest: string, i: nat) {
    && i in s.inodes && s.inodes[i].synced
    && cfg.hash(s.inodes[i].data) == digest
    && |s.inodes[i].data| <= cfg.maximum
    && i in s.calls && PastLink(s.calls[i].pc)
  }

  ghost predicate CallGood(cfg: Config, s: State, c: nat)
    requires c in s.calls
  {
    var call := s.calls[c];
    var digest := cfg.hash(call.payload);
    && (!call.pc.Started? && !call.pc.Dead? && call.pc != Finished(TooLarge) ==> |call.payload| <= cfg.maximum)
    && (call.pc.Linking? ==> c in s.inodes && s.inodes[c] == Inode(call.payload, true))
    && (call.pc.Rereading? || call.pc.Unlinking? ==> Digest(digest) in s.directory)
    && (call.pc.Unlinking? ==> call.pc.o == Returned(digest))
    && (call.pc.Finished? ==> call.pc.o in {Returned(digest), TooLarge})
    && (call.pc.DirectorySyncing? ==> call.published)
    && (call.published && !call.pc.Dead? ==> Digest(digest) in s.directory && s.directory[Digest(digest)] == c)
    && (call.published && call.pc.Finished? ==>
          Digest(digest) in s.durable && s.durable[Digest(digest)] == c)
  }

  ghost predicate Inv(cfg: Config, s: State) {
    && (forall d {:trigger Digest(d) in s.directory} | Digest(d) in s.directory ::
          EntryGood(cfg, s, d, s.directory[Digest(d)]))
    && (forall d {:trigger Digest(d) in s.durable} | Digest(d) in s.durable ::
          Digest(d) in s.directory && s.durable[Digest(d)] == s.directory[Digest(d)])
    && (forall c {:trigger c in s.calls} | c in s.calls :: CallGood(cfg, s, c))
  }

  /** A record that can be retrieved: its bytes hash to the digest asked for. */
  ghost predicate Retrievable(cfg: Config, s: State, digest: string) {
    ReadBack(cfg, s, digest) == Some(Returned(digest))
  }

  lemma EntryIsRetrievable(cfg: Config, s: State, digest: string)
    requires Inv(cfg, s)
    ensures Retrievable(cfg, s, digest) <==> Digest(digest) in s.directory
    ensures Digest(digest) in s.directory || ReadBack(cfg, s, digest) == None
  {
  }

  /** Every step but a power failure leaves each linked entry, and its bytes, as they are. */
  ghost predicate EntriesKept(s: State, r: State) {
    forall d {:trigger Digest(d) in r.directory} {:trigger Digest(d) in s.directory} | Digest(d) in s.directory ::
      EntryKept(s, r, d)
  }

  ghost predicate EntryKept(s: State, r: State, d: string)
    requires Digest(d) in s.directory
  {
    var i := s.directory[Digest(d)];
    && Digest(d) in r.directory && r.directory[Digest(d)] == i
    && i in s.inodes && i in r.inodes && r.inodes[i] == s.inodes[i]
  }

  lemma AdvanceKeepsEntry(cfg: Config, s: State, c: nat, d: string)
    requires c in s.calls && Digest(d) in s.directory
    requires EntryGood(cfg, s, d, s.directory[Digest(d)])
    ensures EntryKept(s, Advance(cfg, s, c), d)
  {
    match s.calls[c].pc
    case Creating =>
    case Filling =>
    case Syncing =>
    case Linking =>
    case _ =>
  }

  lemma StepKeepsEntries(cfg: Config, s: State, e: Event)
    requires Inv(cfg, s) && !e.PowerLoss?
    ensures EntriesKept(s, Step(cfg, s, e))
  {
    forall d | Digest(d) in s.directory
      ensures EntryKept(s, Step(cfg, s, e), d)
    {
      assert EntryGood(cfg, s, d, s.directory[Digest(d)]);
      if e.Act? && e.c in s.calls {
        AdvanceKeepsEntry(cfg, s, e.c, d);
      }
    }
  }

  /** Steps that only move one call along. */
  lemma PutKeepsInv(cfg: Config, s: State, c: nat, pc: Pc)
    requires Inv(cfg, s) && c in s.calls
    requires CallGood(cfg, Put(s, c, pc), c)
    requires PastLink(s.calls[c].pc) ==> PastLink(pc)
    ensures Inv(cfg, Put(s, c, pc))
  {
    var r := Put(s, c, pc);
    forall d | d in r.calls
      ensures CallGood(cfg, r, d)
    {
      assert CallGood(cfg, s, d);
    }
  }

  /** Steps on the call's own temporary name and its own unlinked file. */
  lemma PrivateStepKeepsInv(cfg: Config, s: State, r: State, c: nat)
    requires Inv(cfg, s) && c in s.calls
    requires r.calls.Keys == s.calls.Keys
    requires forall d | d in s.calls && d != c :: r.calls[d] == s.calls[d]
    requires r.durable == s.durable
    requires forall d :: Digest(d) in r.directory <==> Digest(d) in s.directory
    requires forall d | Digest(d) in s.directory :: r.directory[Digest(d)] == s.directory[Digest(d)]
    requires forall i | i in s.inodes && i != c :: i in r.inodes && r.inodes[i] == s.inodes[i]
    requires PastLink(s.calls[c].pc) ==> c in s.inodes ==> c in r.inodes && r.inodes[c] == s.inodes[c]
    requires PastLink(s.calls[c].pc) ==> PastLink(r.calls[c].pc)
    requires CallGood(cfg, r, c)
    ensures Inv(cfg, r)
  {
    forall d | d in r.calls
      ensures CallGood(cfg, r, d)
    {
      assert CallGood(cfg, s, d);
    }
  }

  lemma LinkKeepsInv(cfg: Config, s: State, c: nat)
    requires Inv(cfg, s) && c in s.calls && s.calls[c].pc.Linking?
    ensures Inv(cfg, Advance(cfg, s, c))
  {
    var r, digest := Advance(cfg, s, c), cfg.hash(s.calls[c].payload);
    assert CallGood(cfg, s, c);
    if Digest(digest) in s.directory {
      PutKeepsInv(cfg, s, c, Rereading);
    } else {
      forall d | d in r.calls
        ensures CallGood(cfg, r, d)
      {
        assert CallGood(cfg, s, d);
      }
      assert EntryGood(cfg, r, digest, c);
    }
  }

  lemma DirectorySyncKeepsInv(cfg: Config, s: State, c: nat)
    requires Inv(cfg, s) && c in s.calls && s.calls[c].pc.DirectorySyncing?
    ensures Inv(cfg, Advance(cfg, s, c))
  {
    var r := Advance(cfg, s, c);
    forall d | d in r.calls
      ensures CallGood(cfg, r, d)
    {
      assert CallGood(cfg, s, d);
    }
  }

  /** Looking at what is retained, before the temporary file or after losing the link. */
  lemma LookKeepsInv(cfg: Config, s: State, c: nat)
    requires Inv(cfg, s) && c in s.calls && (s.calls[c].pc.Started? || s.calls[c].pc.Rereading?)
    ensures Inv(cfg, Advance(cfg, s, c))
  {
    assert CallGood(cfg, s, c);
    EntryIsRetrievable(cfg, s, cfg.hash(s.calls[c].payload));
    PutKeepsInv(cfg, s, c, Advance(cfg, s, c).calls[c].pc);
  }

  lemma TemporaryStepKeepsInv(cfg: Config, s: State, c: nat)
    requires Inv(cfg, s) && c in s.calls
    requires s.calls[c].pc.Creating? || s.calls[c].pc.Filling? || s.calls[c].pc.Syncing? || s.calls[c].pc.Unlinking?
    ensures Inv(cfg, Advance(cfg, s, c))
  {
    assert CallGood(cfg, s, c);
    PrivateStepKeepsInv(cfg, s, Advance(cfg, s, c), c);
  }

  lemma AdvanceKeepsInv(cfg: Config, s: State, c: nat)
    requires Inv(cfg, s) && c in s.calls
    ensures Inv(cfg, Advance(cfg, s, c))
  {
    match s.calls[c].pc
    case Started => LookKeepsInv(cfg, s, c);
    case Rereading => LookKeepsInv(cfg, s, c);
    case Linking => LinkKeepsInv(cfg, s, c);
    case DirectorySyncing => DirectorySyncKeepsInv(cfg, s, c);
    case Finished(_) =>
    case Dead =>
    case _ => TemporaryStepKeepsInv(cfg, s, c);
  }

  lemma PowerLossKeepsInv(cfg: Config, s: State, kept: set<Name>, garbage: map<nat, Bytes>)
    requires Inv(cfg, s)
    ensures Inv(cfg, AfterPowerLoss(cfg, s, kept, garbage))
  {
    var r := AfterPowerLoss(cfg, s, kept, garbage);
    forall d | Digest(d) in r.directory
      ensures EntryGood(cfg, r, d, r.directory[Digest(d)])
    {
      assert Digest(d) in s.directory;
      assert r.directory[Digest(d)] == s.directory[Digest(d)];
      assert EntryGood(cfg, s, d, s.directory[Digest(d)]);
    }
    forall c | c in r.calls
      ensures CallGood(cfg, r, c)
    {
      assert CallGood(cfg, s, c);
    }
  }

  lemma StepKeepsInv(cfg: Config, s: State, e: Event)
    requires Inv(cfg, s)
    ensures Inv(cfg, Step(cfg, s, e))
  {
    match e
    case Act(c) => if c in s.calls { AdvanceKeepsInv(cfg, s, c); }
    case Kill(c) => if c in s.calls && !s.calls[c].pc.Finished? {
      assert CallGood(cfg, s, c);
      PutKeepsInv(cfg, s, c, Dead);
    }
    case Store(c, payload) =>
      var r := Step(cfg, s, e);
      forall d | d in r.calls
        ensures CallGood(cfg, r, d)
      {
        if d in s.calls {
          assert CallGood(cfg, s, d);
        }
      }
    case PowerLoss(kept, garbage) => PowerLossKeepsInv(cfg, s, kept, garbage);
  }

  lemma {:induction false} RunKeepsInv(cfg: Config, s: State, events: seq<Event>)
    requires Inv(cfg, s)
    ensures Inv(cfg, Run(cfg, s, events))
    decreases |events|
  {
    if events != [] {
      StepKeepsInv(cfg, s, events[0]);
      RunKeepsInv(cfg, Step(cfg, s, events[0]), events[1..]);
    }
  }

  lemma InitialInv(cfg: Config)
    ensures Inv(cfg, INITIAL)
  {
  }

  // ---------------------------------------------------------------- safety of every run

  /**
    In every run, power failures included: what is linked under a digest hashes to it, no call
    ever reports corruption or a vanished record, a returned digest is the payload's own, and
    a publisher returns only once its entry is durable.
  */
  lemma WriteOnceStore(cfg: Config, events: seq<Event>)
    ensures var s := Run(cfg, INITIAL, events);
      && (forall d | Digest(d) in s.directory ::
            s.directory[Digest(d)] in s.inodes && cfg.hash(s.inodes[s.directory[Digest(d)]].data) == d)
      && (forall c | c in s.calls && s.calls[c].pc.Finished? ::
            s.calls[c].pc.o in {Returned(cfg.hash(s.calls[c].payload)), TooLarge})
      && (forall c | c in s.calls && s.calls[c].published && s.calls[c].pc.Finished? ::
            Digest(cfg.hash(s.calls[c].payload)) in s.durable)
  {
    InitialInv(cfg);
    RunKeepsInv(cfg, INITIAL, events);
    var s := Run(cfg, INITIAL, events);
    forall d | Digest(d) in s.directory
      ensures s.directory[Digest(d)] in s.inodes && cfg.hash(s.inodes[s.directory[Digest(d)]].data) == d
    {
      assert EntryGood(cfg, s, d, s.directory[Digest(d)]);
    }
    forall c | c in s.calls
      ensures CallGood(cfg, s, c)
    {
    }
  }

  predicate PowerStaysOn(events: seq<Event>) {
    forall k | 0 <= k < |events| :: !events[k].PowerLoss?
  }

  lemma {:induction false} RunKeepsEntries(cfg: Config, s: State, events: seq<Event>)
    requires Inv(cfg, s) && PowerStaysOn(events)
    ensures EntriesKept(s, Run(cfg, s, events))
    decreases |events|
  {
    if events == [] {
      forall d | Digest(d) in s.directory
        ensures s.directory[Digest(d)] in s.inodes
      {
        assert EntryGood(cfg, s, d, s.directory[Digest(d)]);
      }
    } else {
      var r := Step(cfg, s, events[0]);
      assert !events[0].PowerLoss?;
      StepKeepsEntries(cfg, s, events[0]);
      StepKeepsInv(cfg, s, events[0]);
      assert forall k | 0 <= k < |events[1..]| :: events[1..][k] == events[k + 1];
      RunKeepsEntries(cfg, r, events[1..]);
    }
  }

  /** Every call that returned normally left its record retrievable. */
  ghost predicate ReturnedAreRetained(s: State) {
    forall c | c in s.calls && s.calls[c].pc.Finished? && s.calls[c].pc.o.Returned? ::
      Digest(s.calls[c].pc.o.digest) in s.directory
  }

  ghost predicate IsRetained(s: State, call: Call) {
    call.pc.Finished? && call.pc.o.Returned? ==> Digest(call.pc.o.digest) in s.directory
  }

  /** A call returns only where its record is found or its directory has been synced. */
  lemma ReturningStep(cfg: Config, s: State, c: nat)
    requires c in s.calls && CallGood(cfg, s, c) && IsRetained(s, s.calls[c])
    ensures IsRetained(s, Advance(cfg, s, c).calls[c])
  {
    var call := s.calls[c];
    match call.pc
    case Started =>
      if |call.payload| <= cfg.maximum && ReadBack(cfg, s, cfg.hash(call.payload)).Some? {
        assert IsRetained(s, call.(pc := Finished(ReadBack(cfg, s, cfg.hash(call.payload)).value)));
      }
    case Unlinking(o) =>
    case DirectorySyncing =>
    case _ =>
  }

  lemma AdvanceIsOwn(cfg: Config, s: State, c: nat)
    requires c in s.calls
    ensures c in Advance(cfg, s, c).calls && Advance(cfg, s, c).calls == s.calls[c := Advance(cfg, s, c).calls[c]]
  {
    match s.calls[c].pc
    case Started =>
    case Creating =>
    case Filling =>
    case Syncing =>
    case Linking =>
    case Rereading =>
    case Unlinking(_) =>
    case DirectorySyncing =>
    case _ =>
  }

  lemma StepOfAnother(cfg: Config, s: State, e: Event, c: nat)
    requires e != Act(c) && !e.PowerLoss? && c in Step(cfg, s, e).calls
    ensures Step(cfg, s, e).calls[c].pc.Finished? ==> c in s.calls && s.calls[c] == Step(cfg, s, e).calls[c]
  {
    if e.Act? && e.c in s.calls {
      AdvanceIsOwn(cfg, s, e.c);
    }
  }

  lemma ReturnIsRetained(cfg: Config, s: State, e: Event, c: nat)
    requires Inv(cfg, s) && ReturnedAreRetained(s) && !e.PowerLoss? && c in Step(cfg, s, e).calls
    ensures IsRetained(s, Step(cfg, s, e).calls[c])
  {
    if e != Act(c) {
      StepOfAnother(cfg, s, e, c);
    } else if c in s.calls {
      ReturningStep(cfg, s, c);
    }
  }

  lemma StepKeepsReturned(cfg: Config, s: State, e: Event)
    requires Inv(cfg, s) && ReturnedAreRetained(s) && !e.PowerLoss?
    ensures ReturnedAreRetained(Step(cfg, s, e))
  {
    var r := Step(cfg, s, e);
    forall c | c in r.calls && r.calls[c].pc.Finished? && r.calls[c].pc.o.Returned?
      ensures Digest(r.calls[c].pc.o.digest) in r.directory
    {
      ReturnIsRetained(cfg, s, e, c);
      StepKeepsEntries(cfg, s, e);
    }
  }

  lemma {:induction false} RunKeepsReturned(cfg: Config, s: State, events: seq<Event>)
    requires Inv(cfg, s) && ReturnedAreRetained(s) && PowerStaysOn(events)
    ensures ReturnedAreRetained(Run(cfg, s, events))
    decreases |events|
  {
    if events != [] {
      assert !events[0].PowerLoss?;
      StepKeepsReturned(cfg, s, events[0]);
      StepKeepsInv(cfg, s, events[0]);
      assert forall k | 0 <= k < |events[1..]| :: events[1..][k] == events[k + 1];
      RunKeepsReturned(cfg, Step(cfg, s, events[0]), events[1..]);
    }
  }

  /** Without a power failure every normal return stays retrievable for the rest of the run. */
  lemma EveryReturnIsRetrievable(cfg: Config, events: seq<Event>, c: nat)
    requires PowerStaysOn(events)
    requires var s := Run(cfg, INITIAL, events); c in s.calls && s.calls[c].pc.Finished?
    ensures var s := Run(cfg, INITIAL, events);
      var call := s.calls[c];
      call.pc == Finished(TooLarge) || Retrievable(cfg, s, cfg.hash(call.payload))
  {
    InitialInv(cfg);
    RunKeepsInv(cfg, INITIAL, events);
    RunKeepsReturned(cfg, INITIAL, events);
    var s := Run(cfg, INITIAL, events);
    assert CallGood(cfg, s, c);
    EntryIsRetrievable(cfg, s, cfg.hash(s.calls[c].payload));
  }

  // ---------------------------------------------------------------- who publishes

  lemma {:induction false} RunInTwo(cfg: Config, s: State, a: seq<Event>, b: seq<Event>)
    ensures Run(cfg, s, a + b) == Run(cfg, Run(cfg, s, a), b)
    decreases |a|
  {
    if a == [] {
      assert a + b == b;
    } else {
      assert (a + b)[1..] == a[1..] + b;
      RunInTwo(cfg, Step(cfg, s, a[0]), a[1..], b);
    }
  }

  /** The state a run is in before its event n. */
  function At(cfg: Config, events: seq<Event>, n: nat): State
    requires n <= |events|
  {
    Run(cfg, INITIAL, events[..n])
  }

  lemma AtInv(cfg: Config, events: seq<Event>, n: nat)
    requires n <= |events|
    ensures Inv(cfg, At(cfg, events, n))
  {
    InitialInv(cfg);
    RunKeepsInv(cfg, INITIAL, events[..n]);
  }

  lemma AtNext(cfg: Config, events: seq<Event>, n: nat)
    requires n < |events|
    ensures At(cfg, events, n + 1) == Step(cfg, At(cfg, events, n), events[n])
  {
    assert events[..n + 1] == events[..n] + [events[n]];
    RunInTwo(cfg, INITIAL, events[..n], [events[n]]);
    assert [events[n]][1..] == [];
  }

  ghost predicate Published(s: State, c: nat) {
    c in s.calls && s.calls[c].published
  }

  function NameOf(cfg: Config, call: Call): Name {
    Digest(cfg.hash(call.payload))
  }

  /** The digest name of the call's payload is a link to the call's own file. */
  ghost predicate OwnsEntry(cfg: Config, s: State, c: nat) {
    c in s.calls && NameOf(cfg, s.calls[c]) in s.directory && s.directory[NameOf(cfg, s.calls[c])] == c
  }

  lemma AdvanceKeepsPublished(cfg: Config, s: State, a: nat, c: nat)
    requires a in s.calls && c in s.calls
    ensures var r := Advance(cfg, s, a);
      c in r.calls && r.calls[c].payload == s.calls[c].payload && (s.calls[c].published ==> r.calls[c].published)
  {
    match s.calls[a].pc
    case Linking =>
    case _ =>
  }

  lemma StepKeepsPublished(cfg: Config, s: State, e: Event, c: nat)
    requires c in s.calls
    ensures var r := Step(cfg, s, e);
      c in r.calls && r.calls[c].payload == s.calls[c].payload && (s.calls[c].published ==> r.calls[c].published)
  {
    match e
    case Act(a) => if a in s.calls { AdvanceKeepsPublished(cfg, s, a, c); }
    case PowerLoss(kept, garbage) =>
      assert AfterPowerLoss(cfg, s, kept, garbage).calls[c] == AfterwardsCall(s.calls[c]);
    case _ =>
  }

  /** A step that publishes is the call's own link to a vacant name. */
  lemma PublishingStep(cfg: Config, s: State, e: Event, c: nat)
    requires Published(Step(cfg, s, e), c) && !Published(s, c)
    ensures e == Act(c) && c in s.calls && NameOf(cfg, s.calls[c]) !in s.directory
    ensures OwnsEntry(cfg, Step(cfg, s, e), c)
  {
  }

  /** Only a power failure takes a publisher's entry away, and then the name is vacant. */
  lemma LosingStep(cfg: Config, s: State, e: Event, c: nat)
    requires Inv(cfg, s) && OwnsEntry(cfg, s, c) && !OwnsEntry(cfg, Step(cfg, s, e), c)
    ensures e.PowerLoss? && NameOf(cfg, s.calls[c]) !in Step(cfg, s, e).directory
  {
    StepKeepsPublished(cfg, s, e, c);
    if !e.PowerLoss? {
      StepKeepsEntries(cfg, s, e);
    }
  }

  /** Event k is a power failure that takes away the entry a call had published. */
  ghost predicate TakesEntry(cfg: Config, events: seq<Event>, k: int, c: nat) {
    && 0 <= k < |events|
    && events[k].PowerLoss?
    && Published(At(cfg, events, k), c) && OwnsEntry(cfg, At(cfg, events, k), c)
    && NameOf(cfg, At(cfg, events, k).calls[c]) !in At(cfg, events, k + 1).directory
  }

  /** A publisher that does not own its entry lost it to a power failure. */
  lemma {:induction false} EntryWasTaken(cfg: Config, events: seq<Event>, n: nat, c: nat) returns (k: nat)
    requires n <= |events| && Published(At(cfg, events, n), c) && !OwnsEntry(cfg, At(cfg, events, n), c)
    ensures k < n && TakesEntry(cfg, events, k, c)
    decreases n
  {
    NobodyAtStart(cfg, events, c);
    var m := n - 1;
    AtNext(cfg, events, m);
    AtInv(cfg, events, m);
    var s := At(cfg, events, m);
    if !Published(s, c) {
      PublishingStep(cfg, s, events[m], c);
    }
    if OwnsEntry(cfg, s, c) {
      LosingStep(cfg, s, events[m], c);
      k := m;
    } else {
      k := EntryWasTaken(cfg, events, m, c);
    }
  }

  lemma {:induction false} PublishedStays(cfg: Config, events: seq<Event>, m: nat, n: nat, c: nat)
    requires m <= n <= |events| && Published(At(cfg, events, m), c)
    ensures Published(At(cfg, events, n), c)
    decreases n
  {
    if m < n {
      PublishedStays(cfg, events, m, n - 1, c);
      AtNext(cfg, events, n - 1);
      StepKeepsPublished(cfg, At(cfg, events, n - 1), events[n - 1], c);
    }
  }

  lemma NotYetPublished(cfg: Config, events: seq<Event>, m: nat, n: nat, c: nat)
    requires m <= n <= |events| && !Published(At(cfg, events, n), c)
    ensures !Published(At(cfg, events, m), c)
  {
    if Published(At(cfg, events, m), c) {
      PublishedStays(cfg, events, m, n, c);
    }
  }

  lemma NobodyAtStart(cfg: Config, events: seq<Event>, c: nat)
    ensures !Published(At(cfg, events, 0), c)
  {
    assert events[..0] == [];
  }

  /** Both calls have published, under one digest. */
  ghost predicate BothPublished(cfg: Config, s: State, a: nat, b: nat) {
    Published(s, a) && Published(s, b) && NameOf(cfg, s.calls[a]) == NameOf(cfg, s.calls[b])
  }

  lemma BothEarlier(cfg: Config, s: State, e: Event, a: nat, b: nat)
    requires BothPublished(cfg, Step(cfg, s, e), a, b) && Published(s, a) && Published(s, b)
    ensures BothPublished(cfg, s, a, b)
  {
    StepKeepsPublished(cfg, s, e, a);
    StepKeepsPublished(cfg, s, e, b);
  }

  /** When only one of two publishers had published before, the other's entry was gone by then. */
  lemma LatestPublisher(cfg: Config, s: State, e: Event, a: nat, b: nat) returns (first: nat, second: nat)
    requires a != b && BothPublished(cfg, Step(cfg, s, e), a, b) && !(Published(s, a) && Published(s, b))
    ensures (first == a && second == b) || (first == b && second == a)
    ensures Published(s, first) && !OwnsEntry(cfg, s, first) && !Published(s, second)
  {
    first, second := if Published(s, a) then a else b, if Published(s, a) then b else a;
    PublishingStep(cfg, s, e, second);
    if !Published(s, first) {
      PublishingStep(cfg, s, e, first);
    }
    StepKeepsPublished(cfg, s, e, first);
    StepKeepsPublished(cfg, s, e, second);
  }

  /** The last step made two publishers of what was one: the entry was taken on the way there. */
  lemma SecondPublisher(cfg: Config, events: seq<Event>, m: nat, a: nat, b: nat)
    returns (first: nat, second: nat, k: nat)
    requires m < |events| && a != b && BothPublished(cfg, Step(cfg, At(cfg, events, m), events[m]), a, b)
    requires !(Published(At(cfg, events, m), a) && Published(At(cfg, events, m), b))
    ensures (first == a && second == b) || (first == b && second == a)
    ensures k < m && TakesEntry(cfg, events, k, first) && !Published(At(cfg, events, k + 1), second)
  {
    first, second := LatestPublisher(cfg, At(cfg, events, m), events[m], a, b);
    k := EntryWasTaken(cfg, events, m, first);
    NotYetPublished(cfg, events, k + 1, m, second);
  }

  /**
    Two publishers of one digest: the first published, a power failure then took its entry
    away, and the second published after that.
  */
  lemma {:induction false} TwoPublishers(cfg: Config, events: seq<Event>, n: nat, a: nat, b: nat)
    returns (first: nat, second: nat, k: nat)
    requires n <= |events| && a != b && BothPublished(cfg, At(cfg, events, n), a, b)
    ensures (first == a && second == b) || (first == b && second == a)
    ensures k < n && TakesEntry(cfg, events, k, first) && !Published(At(cfg, events, k + 1), second)
    decreases n
  {
    NobodyAtStart(cfg, events, a);
    var m := n - 1;
    AtNext(cfg, events, m);
    if Published(At(cfg, events, m), a) && Published(At(cfg, events, m), b) {
      BothEarlier(cfg, At(cfg, events, m), events[m], a, b);
      first, second, k := TwoPublishers(cfg, events, m, a, b);
    } else {
      first, second, k := SecondPublisher(cfg, events, m, a, b);
    }
  }

  /** While the power stays on, at most one call publishes a digest. */
  lemma OnePublisher(cfg: Config, events: seq<Event>, a: nat, b: nat)
    requires PowerStaysOn(events) && BothPublished(cfg, Run(cfg, INITIAL, events), a, b)
    ensures a == b
  {
    if a != b {
      assert events[..|events|] == events;
      var _, _, _ := TwoPublishers(cfg, events, |events|, a, b);
    }
  }

  // ---------------------------------------------------------------- what becomes durable

  /** A publisher's directory sync while the digest is linked, whoever linked it. */
  ghost predicate SyncsLinked(s: State, e: Event, digest: string) {
    e.Act? && e.c in s.calls && s.calls[e.c].pc.DirectorySyncing? && Digest(digest) in s.directory
  }

  /** A directory sync with the digest linked, or a power failure that the link came through. */
  ghost predicate Settles(cfg: Config, s: State, e: Event, digest: string) {
    SyncsLinked(s, e, digest) || (e.PowerLoss? && Digest(digest) in Step(cfg, s, e).directory)
  }

  /** At some point of the run the link was synced or came through a power failure. */
  ghost predicate SettledInRun(cfg: Config, events: seq<Event>, n: nat, digest: string)
    requires n <= |events|
  {
    exists k | 0 <= k < n :: Settles(cfg, At(cfg, events, k), events[k], digest)
  }

  lemma PowerLossKeepsDurable(cfg: Config, s: State, kept: set<Name>, garbage: map<nat, Bytes>, digest: string)
    requires Inv(cfg, s) && Digest(digest) in s.durable
    ensures Digest(digest) in AfterPowerLoss(cfg, s, kept, garbage).directory
  {
  }

  lemma DurableStep(cfg: Config, s: State, e: Event, digest: string)
    requires Inv(cfg, s)
    ensures Digest(digest) in Step(cfg, s, e).durable <==>
      Digest(digest) in s.durable || Settles(cfg, s, e, digest)
  {
    match e
    case PowerLoss(kept, garbage) =>
      if Digest(digest) in s.durable {
        PowerLossKeepsDurable(cfg, s, kept, garbage, digest);
      }
    case Act(c) => if c in s.calls { DurableAct(cfg, s, c, digest); }
    case _ =>
  }

  lemma DurableAct(cfg: Config, s: State, c: nat, digest: string)
    requires Inv(cfg, s) && c in s.calls
    ensures Digest(digest) in Advance(cfg, s, c).durable <==>
      Digest(digest) in s.durable || SyncsLinked(s, Act(c), digest)
  {
    match s.calls[c].pc
    case DirectorySyncing =>
    case _ =>
  }

  /** What is durable is exactly what was settled at some event of the run. */
  lemma {:induction false} DurableIffSettled(cfg: Config, events: seq<Event>, n: nat, digest: string)
    requires n <= |events|
    ensures Digest(digest) in At(cfg, events, n).durable <==> SettledInRun(cfg, events, n, digest)
    decreases n
  {
    if n == 0 {
      assert events[..0] == [];
    } else {
      DurableIffSettled(cfg, events, n - 1, digest);
      AtNext(cfg, events, n - 1);
      AtInv(cfg, events, n - 1);
      DurableStep(cfg, At(cfg, events, n - 1), events[n - 1], digest);
    }
  }

  // ---------------------------------------------------------------- power failures

  lemma DurableSurvives(cfg: Config, s: State, digest: string)
    requires Inv(cfg, s)
    ensures (forall kept: set<Name>, garbage: map<nat, Bytes> ::
              Retrievable(cfg, AfterPowerLoss(cfg, s, kept, garbage), digest))
            <==> Digest(digest) in s.durable
  {
    var worst := AfterPowerLoss(cfg, s, {}, map[]);
    PowerLossKeepsInv(cfg, s, {}, map[]);
    EntryIsRetrievable(cfg, worst, digest);
    if Digest(digest) in s.durable {
      forall kept: set<Name>, garbage: map<nat, Bytes>
        ensures Retrievable(cfg, AfterPowerLoss(cfg, s, kept, garbage), digest)
      {
        PowerLossKeepsInv(cfg, s, kept, garbage);
        EntryIsRetrievable(cfg, AfterPowerLoss(cfg, s, kept, garbage), digest);
      }
    } else {
      assert Digest(digest) !in worst.directory;
    }
  }

  /**
    A record outlives every power failure that follows a run exactly when, after it was linked,
    some publisher synced the directory or an earlier power failure left the link in place. The
    publisher may be another digest's: a sync makes every link of the directory durable.
  */
  lemma SurvivesPowerLossIff(cfg: Config, events: seq<Event>, digest: string)
    ensures (forall kept: set<Name>, garbage: map<nat, Bytes> ::
              Retrievable(cfg, AfterPowerLoss(cfg, Run(cfg, INITIAL, events), kept, garbage), digest))
            <==> SettledInRun(cfg, events, |events|, digest)
  {
    assert events[..|events|] == events;
    assert At(cfg, events, |events|) == Run(cfg, INITIAL, events);
    AtInv(cfg, events, |events|);
    DurableIffSettled(cfg, events, |events|, digest);
    DurableSurvives(cfg, Run(cfg, INITIAL, events), digest);
  }

  /** While the power stays on, that is a directory sync by some publisher. */
  lemma SettledBySync(cfg: Config, events: seq<Event>, digest: string)
    requires PowerStaysOn(events)
    ensures SettledInRun(cfg, events, |events|, digest) <==>
      exists k | 0 <= k < |events| :: SyncsLinked(At(cfg, events, k), events[k], digest)
  {
    forall k | 0 <= k < |events|
      ensures Settles(cfg, At(cfg, events, k), events[k], digest)
              <==> SyncsLinked(At(cfg, events, k), events[k], digest)
    {
      assert !events[k].PowerLoss?;
    }
  }

  function Acts(c: nat, n: nat): (events: seq<Event>)
    ensures |events| == n
  {
    seq(n, _ => Act(c))
  }

  lemma ActOnce(cfg: Config, s: State, c: nat, n: nat)
    requires n > 0 && c in s.calls
    ensures Run(cfg, s, Acts(c, n)) == Run(cfg, Advance(cfg, s, c), Acts(c, n - 1))
  {
    assert Acts(c, n)[1..] == Acts(c, n - 1);
  }

  /** The first four actions of an undisturbed call write and sync its temporary file. */
  lemma SoloWrites(cfg: Config, s: State, c: nat) returns (written: State)
    requires c in s.calls && s.calls[c].pc == Started
    requires |s.calls[c].payload| <= cfg.maximum && Digest(cfg.hash(s.calls[c].payload)) !in s.directory
    ensures written == Run(cfg, s, Acts(c, 4))
    ensures written.calls == s.calls[c := s.calls[c].(pc := Linking)]
    ensures written.directory == s.directory[Temporary(c) := c] && written.durable == s.durable
    ensures written.inodes == s.inodes[c := Inode(s.calls[c].payload, true)]
  {
    var s1 := Advance(cfg, s, c);
    var s2 := Advance(cfg, s1, c);
    var s3 := Advance(cfg, s2, c);
    written := Advance(cfg, s3, c);
    ActOnce(cfg, s, c, 4);
    ActOnce(cfg, s1, c, 3);
    ActOnce(cfg, s2, c, 2);
    ActOnce(cfg, s3, c, 1);
  }

  /** The first five actions of an undisturbed call on a vacant digest publish its file. */
  lemma SoloPublishes(cfg: Config, s: State, c: nat)
    requires c in s.calls && s.calls[c].pc == Started
    requires |s.calls[c].payload| <= cfg.maximum && Digest(cfg.hash(s.calls[c].payload)) !in s.directory
    ensures var payload := s.calls[c].payload;
      var name := Digest(cfg.hash(payload));
      var r := Run(cfg, s, Acts(c, 5));
      && r.calls == s.calls[c := Call(payload, Unlinking(Returned(cfg.hash(payload))), true)]
      && r.directory == s.directory[Temporary(c) := c][name := c]
      && r.durable == s.durable
      && r.inodes == s.inodes[c := Inode(payload, true)]
  {
    var written := SoloWrites(cfg, s, c);
    assert Acts(c, 5) == Acts(c, 4) + Acts(c, 1);
    RunInTwo(cfg, s, Acts(c, 4), Acts(c, 1));
    ActOnce(cfg, written, c, 1);
  }

  /** What the sequential store sees: the file behind a digest name, if any. */
  lemma {:induction false} PayloadStays(cfg: Config, s: State, events: seq<Event>, c: nat)
    requires c in s.calls
    ensures c in Run(cfg, s, events).calls && Run(cfg, s, events).calls[c].payload == s.calls[c].payload
    decreases |events|
  {
    if events != [] {
      StepKeepsPublished(cfg, s, events[0], c);
      PayloadStays(cfg, Step(cfg, s, events[0]), events[1..], c);
    }
  }

  function EntryOf(s: State, digest: string): Option<Bytes> {
    if Digest(digest) in s.directory && s.directory[Digest(digest)] in s.inodes
    then Some(s.inodes[s.directory[Digest(digest)]].data)
    else None
  }

  lemma SoloRest(cfg: Config, s: State, c: nat, digest: string)
    requires c in s.calls && s.calls[c].published && s.calls[c].pc == Unlinking(Returned(digest))
    requires cfg.hash(s.calls[c].payload) == digest
    ensures var r := Run(cfg, s, Acts(c, 2));
      && r.calls == s.calls[c := s.calls[c].(pc := Finished(Returned(digest)))]
      && r.directory == s.directory - {Temporary(c)} && r.durable == r.directory && r.inodes == s.inodes
  {
    ActOnce(cfg, s, c, 2);
    ActOnce(cfg, Advance(cfg, s, c), c, 1);
  }

  lemma FinderReturns(cfg: Config, s: State, c: nat, payload: Bytes)
    requires |payload| <= cfg.maximum && c !in s.calls
    requires Retrievable(cfg, s, cfg.hash(payload))
    ensures var r := Run(cfg, s, [Store(c, payload)] + Acts(c, 1));
      && c in r.calls && r.calls[c].pc == Finished(Returned(cfg.hash(payload)))
      && r.directory == s.directory && r.durable == s.durable && r.inodes == s.inodes
  {
    assert ([Store(c, payload)] + Acts(c, 1))[1..] == Acts(c, 1);
    var s1 := Step(cfg, s, Store(c, payload));
    assert ReadBack(cfg, s1, cfg.hash(payload)) == ReadBack(cfg, s, cfg.hash(payload));
    ActOnce(cfg, s1, c, 1);
  }

  lemma SoloVacant(cfg: Config, s: State, c: nat, payload: Bytes)
    requires c !in s.calls && Temporary(c) !in s.directory
    requires |payload| <= cfg.maximum && Digest(cfg.hash(payload)) !in s.directory
    ensures var digest := cfg.hash(payload);
      var r := Run(cfg, s, [Store(c, payload)] + Acts(c, 7));
      && c in r.calls && r.calls[c].pc == Finished(Returned(digest))
      && r.directory == s.directory[Digest(digest) := c] && r.durable == r.directory
      && r.inodes == s.inodes[c := Inode(payload, true)]
  {
    var s0 := Step(cfg, s, Store(c, payload));
    assert ([Store(c, payload)] + Acts(c, 7))[1..] == Acts(c, 7);
    assert Acts(c, 7) == Acts(c, 5) + Acts(c, 2);
    RunInTwo(cfg, s0, Acts(c, 5), Acts(c, 2));
    SoloPublishes(cfg, s0, c);
    SoloRest(cfg, Run(cfg, s0, Acts(c, 5)), c, cfg.hash(payload));
    assert s.directory[Temporary(c) := c][Digest(cfg.hash(payload)) := c] - {Temporary(c)}
        == s.directory[Digest(cfg.hash(payload)) := c];
  }

  /**
    An undisturbed call does what the sequential store does: it returns the digest, adds the
    payload under it when the digest was vacant and changes nothing otherwise, and leaves no
    temporary name.
  */
  lemma SoloStore(cfg: Config, s: State, c: nat, payload: Bytes) returns (events: seq<Event>)
    requires Inv(cfg, s) && c !in s.calls && c !in s.inodes && Temporary(c) !in s.directory
    requires |payload| <= cfg.maximum
    ensures var r, digest := Run(cfg, s, events), cfg.hash(payload);
      && c in r.calls && r.calls[c].pc == Finished(Returned(digest))
      && (forall d :: EntryOf(r, d) ==
            if d == digest && EntryOf(s, d) == None then Some(payload) else EntryOf(s, d))
      && Temporary(c) !in r.directory
      && (EntryOf(s, digest) == None ==> r.durable == r.directory)
    ensures PowerStaysOn(events) && events != [] && events[0] == Store(c, payload)
  {
    EntryIsRetrievable(cfg, s, cfg.hash(payload));
    assert forall d | Digest(d) in s.directory :: EntryGood(cfg, s, d, s.directory[Digest(d)]);
    if Digest(cfg.hash(payload)) in s.directory {
      events := [Store(c, payload)] + Acts(c, 1);
      FinderReturns(cfg, s, c, payload);
    } else {
      events := [Store(c, payload)] + Acts(c, 7);
      SoloVacant(cfg, s, c, payload);
    }
  }

  /**
    A call that found its record already linked returns without syncing the directory, so a
    power failure before the publisher's own sync can still take the record away.
  */
  lemma UnsyncedReturnCanBeLost(cfg: Config, payload: Bytes) returns (before: seq<Event>, loss: Event)
    requires |payload| <= cfg.maximum
    ensures PowerStaysOn(before) && loss.PowerLoss?
    ensures var s := Run(cfg, INITIAL, before);
      && 2 in s.calls && s.calls[2].pc == Finished(Returned(cfg.hash(payload)))
      && Retrievable(cfg, s, cfg.hash(payload))
      && !Retrievable(cfg, Step(cfg, s, loss), cfg.hash(payload))
  {
    var first := [Store(1, payload)] + Acts(1, 5);
    var second := [Store(2, payload)] + Acts(2, 1);
    before := first + second;
    loss := PowerLoss({}, map[]);
    RunInTwo(cfg, INITIAL, first, second);
    assert first[1..] == Acts(1, 5);
    SoloPublishes(cfg, Step(cfg, INITIAL, Store(1, payload)), 1);
    FinderReturns(cfg, Run(cfg, INITIAL, first), 2, payload);
    assert forall k | 0 <= k < |before| :: !before[k].PowerLoss?;
  }
}

/**
  The observation log across power failures. An append syncs the file and a compaction syncs the
  new file, but nothing ever syncs the directory: which file the log's name stands for after a
  power failure is any of those it has stood for since the last one.
*/
module LogFiles {
  import opened Wrappers
  import opened Observations
  import opened Admission
  import A = AdmissionProtocol

  /**
    `links` are the files the log's name has stood for since it was last certain, the current one
    last; None is no file.
  */
  datatype Disk = Disk(files: seq<Log>, links: seq<Option<nat>>)

  const EMPTY := Disk([], [None])

  datatype Event =
    | Append(o: Observation)
    | Compact
    | PowerLoss(link: nat)

  function Contents(d: Disk, link: Option<nat>): Log {
    if link.Some? && link.value < |d.files| then d.files[link.value] else []
  }

  /** The link that is certain to have been written. */
  function Certain(d: Disk): Option<nat> {
    if d.links == [] then None else d.links[0]
  }

  function Current(d: Disk): Option<nat> {
    if d.links == [] then None else d.links[|d.links| - 1]
  }

  function LogOf(d: Disk): Log {
    Contents(d, Current(d))
  }

  /** A new file under the log's name. */
  function Replaced(d: Disk, log: Log): Disk {
    Disk(d.files + [log], d.links + [Some(|d.files|)])
  }

  function Step(d: Disk, e: Event): Disk {
    match e
    case Append(o) =>
      if Current(d).Some? && Current(d).value < |d.files| then
        d.(files := d.files[Current(d).value := LogOf(d) + [o]])
      else Replaced(d, [o])
    case Compact => Replaced(d, LogOf(d))
    case PowerLoss(link) => if link < |d.links| then d.(links := [d.links[link]]) else d
  }

  function Run(d: Disk, events: seq<Event>): Disk {
    if events == [] then d else Step(Run(d, events[..|events| - 1]), events[|events| - 1])
  }

  // ---------------------------------------------------------------- the files are a chain

  ghost predicate LinkGood(d: Disk, k: nat)
    requires k < |d.links|
  {
    && (d.links[k].Some? ==> d.links[k].value < |d.files|)
    && (forall j | 0 <= j < k :: d.links[j] != d.links[k] && Contents(d, d.links[j]) <= Contents(d, d.links[k]))
    && (k > 0 ==> d.links[k].Some?)
  }

  /** Links are valid and different, and each later file extends the earlier ones. */
  ghost predicate Chain(d: Disk) {
    d.links != [] && forall k | 0 <= k < |d.links| :: LinkGood(d, k)
  }

  lemma ReplacedKeepsChain(d: Disk, log: Log)
    requires Chain(d) && LogOf(d) <= log
    ensures Chain(Replaced(d, log)) && LogOf(Replaced(d, log)) == log
  {
    var r, n := Replaced(d, log), |d.links|;
    forall k | 0 <= k < |r.links|
      ensures LinkGood(r, k)
    {
      if k < n {
        assert LinkGood(d, k);
        forall j | 0 <= j <= k
          ensures Contents(r, r.links[j]) == Contents(d, d.links[j])
        {
          assert LinkGood(d, j);
        }
      } else {
        NewLinkIsGood(d, log);
      }
    }
  }

  lemma NewLinkIsGood(d: Disk, log: Log)
    requires Chain(d) && LogOf(d) <= log
    ensures LinkGood(Replaced(d, log), |d.links|)
  {
    var r, n := Replaced(d, log), |d.links|;
    forall j | 0 <= j < n
      ensures r.links[j] != r.links[n] && Contents(r, r.links[j]) <= Contents(r, r.links[n])
    {
      assert LinkGood(d, j) && LinkGood(d, n - 1);
      assert Contents(r, r.links[j]) == Contents(d, d.links[j]);
    }
  }

  lemma AppendKeepsChain(d: Disk, o: Observation)
    requires Chain(d)
    ensures Chain(Step(d, Append(o))) && LogOf(Step(d, Append(o))) == LogOf(d) + [o]
  {
    var r, n := Step(d, Append(o)), |d.links| - 1;
    assert LinkGood(d, n);
    if Current(d).None? {
      ReplacedKeepsChain(d, [o]);
    } else {
      forall k | 0 <= k < |r.links|
        ensures LinkGood(r, k)
      {
        assert LinkGood(d, k);
        forall j | 0 <= j <= k
          ensures Contents(r, r.links[j]) == if j == n then LogOf(d) + [o] else Contents(d, d.links[j])
        {
          assert LinkGood(d, j);
        }
      }
    }
  }

  lemma PowerLossKeepsChain(d: Disk, link: nat)
    requires Chain(d)
    ensures Chain(Step(d, PowerLoss(link)))
  {
    if link < |d.links| {
      assert LinkGood(d, link);
    }
  }

  lemma StepKeepsChain(d: Disk, e: Event)
    requires Chain(d)
    ensures Chain(Step(d, e))
  {
    match e
    case Append(o) => AppendKeepsChain(d, o);
    case Compact => ReplacedKeepsChain(d, LogOf(d));
    case PowerLoss(link) => PowerLossKeepsChain(d, link);
  }

  lemma {:induction false} RunKeepsChain(d: Disk, events: seq<Event>)
    requires Chain(d)
    ensures Chain(Run(d, events))
  {
    if events != [] {
      RunKeepsChain(d, events[..|events| - 1]);
      StepKeepsChain(Run(d, events[..|events| - 1]), events[|events| - 1]);
    }
  }

  /** In every run a power failure takes back no more than a tail of the log. */
  lemma LossLeavesAPrefix(events: seq<Event>, link: nat)
    ensures var d := Run(EMPTY, events); LogOf(Step(d, PowerLoss(link))) <= LogOf(d)
  {
    var d := Run(EMPTY, events);
    RunKeepsChain(EMPTY, events);
    if link < |d.links| {
      assert LinkGood(d, |d.links| - 1);
    }
  }

  // ---------------------------------------------------------------- what survives

  /** The record is in the log after whatever power failure comes next. */
  ghost predicate Survives(d: Disk, o: Observation) {
    forall link: nat | link < |d.links| :: o in LogOf(Step(d, PowerLoss(link)))
  }

  lemma SurvivesIffCertain(d: Disk, o: Observation)
    requires Chain(d)
    ensures Survives(d, o) <==> o in Contents(d, Certain(d))
  {
    if o in Contents(d, d.links[0]) {
      forall link: nat | link < |d.links|
        ensures o in LogOf(Step(d, PowerLoss(link)))
      {
        assert LinkGood(d, link);
        assert Contents(d, d.links[0]) <= Contents(d, d.links[link]);
      }
    } else {
      assert o !in LogOf(Step(d, PowerLoss(0)));
    }
  }

  /** The log's name is certain: it stood for a file when the power last failed, and still does for the same. */
  predicate Settled(events: seq<Event>)
    decreases |events|
  {
    events != [] &&
    var n := |events| - 1;
    match events[n]
    case Append(_) => Settled(events[..n])
    case Compact => false
    case PowerLoss(link) =>
      var d := Run(EMPTY, events[..n]);
      if link < |d.links| then d.links[link].Some? else Settled(events[..n])
  }

  /** Some append of the record came when the name was certain, or a power failure left it in the log. */
  ghost predicate SafelyWritten(events: seq<Event>, o: Observation)
    decreases |events|
  {
    events != [] &&
    var n := |events| - 1;
    match events[n]
    case Append(p) => SafelyWritten(events[..n], o) || (p == o && Settled(events[..n]))
    case Compact => SafelyWritten(events[..n], o)
    case PowerLoss(link) =>
      if link < |Run(EMPTY, events[..n]).links| then o in LogOf(Run(EMPTY, events))
      else SafelyWritten(events[..n], o)
  }

  lemma {:induction false} SettledIff(events: seq<Event>)
    ensures var d := Run(EMPTY, events); Settled(events) <==> |d.links| == 1 && d.links[0].Some?
  {
    if events != [] {
      var n := |events| - 1;
      var d := Run(EMPTY, events[..n]);
      SettledIff(events[..n]);
      RunKeepsChain(EMPTY, events[..n]);
      assert LinkGood(d, |d.links| - 1);
    }
  }

  lemma CertainAfterAppend(d: Disk, o: Observation, p: Observation)
    requires Chain(d)
    ensures var r := Step(d, Append(p));
      o in Contents(r, Certain(r)) <==>
        o in Contents(d, Certain(d)) || (p == o && |d.links| == 1 && d.links[0].Some?)
  {
    var r, n := Step(d, Append(p)), |d.links| - 1;
    assert LinkGood(d, 0) && LinkGood(d, n);
    if Current(d).None? {
      assert n == 0;
    } else if n == 0 {
      assert Contents(r, Certain(r)) == LogOf(d) + [p];
    } else {
      assert Contents(r, Certain(r)) == Contents(d, Certain(d));
    }
  }

  lemma CertainAfterCompact(d: Disk)
    requires Chain(d)
    ensures Contents(Step(d, Compact), Certain(Step(d, Compact))) == Contents(d, Certain(d))
  {
    assert LinkGood(d, 0);
  }

  lemma {:induction false} CertainIffSafelyWritten(events: seq<Event>, o: Observation)
    ensures var d := Run(EMPTY, events); o in Contents(d, Certain(d)) <==> SafelyWritten(events, o)
  {
    if events != [] {
      var n := |events| - 1;
      var d := Run(EMPTY, events[..n]);
      CertainIffSafelyWritten(events[..n], o);
      RunKeepsChain(EMPTY, events[..n]);
      match events[n]
      case Append(p) =>
        SettledIff(events[..n]);
        CertainAfterAppend(d, o, p);
      case Compact => CertainAfterCompact(d);
      case PowerLoss(link) =>
    }
  }

  /**
    After any run, earlier power failures included, a record outlives the next power failure,
    however it goes, exactly when one of its appends went to a file whose name was certain, or a
    power failure has left it in the log before.
  */
  lemma RecordSurvivesIff(events: seq<Event>, o: Observation)
    ensures Survives(Run(EMPTY, events), o) <==> SafelyWritten(events, o)
  {
    RunKeepsChain(EMPTY, events);
    SurvivesIffCertain(Run(EMPTY, events), o);
    CertainIffSafelyWritten(events, o);
  }

  predicate PowerStaysOn(events: seq<Event>) {
    forall e | e in events :: !e.PowerLoss?
  }

  lemma {:induction false} NeverCertain(events: seq<Event>)
    requires PowerStaysOn(events)
    ensures Run(EMPTY, events).links != [] && Certain(Run(EMPTY, events)) == None
  {
    if events != [] {
      var n := |events| - 1;
      assert events[n] in events && forall e | e in events[..n] :: e in events;
      NeverCertain(events[..n]);
    }
  }

  /** Until the power has failed for the first time, one failure can take the whole log. */
  lemma WholeLogCanVanish(events: seq<Event>)
    requires PowerStaysOn(events)
    ensures LogOf(Step(Run(EMPTY, events), PowerLoss(0))) == []
  {
    NeverCertain(events);
  }

  // ---------------------------------------------------------------- the protocol writes these files

  /** What one step of the locking protocol does to the files. */
  function Writes(s: A.State, e: A.Event): seq<Event> {
    match e
    case Act(t) =>
      (match A.PcOf(s, t)
       case Nested(todo) => if todo == [] || s.sessions == [] then [] else [Append(todo[0])]
       case Rewriting(_) => [Compact]
       case _ => [])
    case _ => []
  }

  function AllWrites(s: A.State, events: seq<A.Event>): seq<Event>
    decreases |events|
  {
    if events == [] then [] else Writes(s, events[0]) + AllWrites(A.Step(s, events[0]), events[1..])
  }

  lemma {:induction false} RunInTwo(d: Disk, a: seq<Event>, b: seq<Event>)
    ensures Run(d, a + b) == Run(Run(d, a), b)
    decreases |b|
  {
    if b == [] {
      assert a + b == a;
    } else {
      var n := |b| - 1;
      assert (a + b)[..|a + b| - 1] == a + b[..n];
      RunInTwo(d, a, b[..n]);
    }
  }

  lemma OneStep(d: Disk, e: Event)
    ensures Run(d, [e]) == Step(d, e)
  {
    assert [e][..0] == [];
  }

  lemma StepFollows(d: Disk, s: A.State, e: A.Event)
    requires Chain(d) && A.Inv(s) && LogOf(d) == s.log
    ensures Chain(Run(d, Writes(s, e))) && LogOf(Run(d, Writes(s, e))) == A.Step(s, e).log
  {
    RunKeepsChain(d, Writes(s, e));
    if e.Act? {
      assert A.ThreadOwes(s, e.t);
      match A.PcOf(s, e.t)
      case Nested(todo) =>
        if todo != [] && s.sessions != [] {
          OneStep(d, Append(todo[0]));
          AppendKeepsChain(d, todo[0]);
        }
      case Rewriting(records) =>
        OneStep(d, Compact);
        ReplacedKeepsChain(d, LogOf(d));
      case _ => LogUnlessWriting(s, e.t);
    }
  }

  lemma LogUnlessWriting(s: A.State, t: A.Thread)
    requires !A.PcOf(s, t).Nested? && !A.PcOf(s, t).Rewriting?
    ensures A.Advance(s, t).log == s.log
  {
  }

  /** In every run of threads and crashes the log is what the files say. */
  lemma {:induction false} FilesFollow(d: Disk, s: A.State, events: seq<A.Event>)
    requires Chain(d) && A.Inv(s) && LogOf(d) == s.log
    ensures var r := Run(d, AllWrites(s, events)); Chain(r) && LogOf(r) == A.Run(s, events).log
    decreases |events|
  {
    if events != [] {
      var next := Run(d, Writes(s, events[0]));
      StepFollows(d, s, events[0]);
      A.StepKeepsInv(s, events[0]);
      FilesFollow(next, A.Step(s, events[0]), events[1..]);
      RunInTwo(d, Writes(s, events[0]), AllWrites(A.Step(s, events[0]), events[1..]));
    }
  }

  lemma {:induction false} WritesArePowered(s: A.State, events: seq<A.Event>)
    ensures PowerStaysOn(AllWrites(s, events))
    decreases |events|
  {
    if events != [] {
      WritesArePowered(A.Step(s, events[0]), events[1..]);
    }
  }

  /**
    Every log that the locking protocol can reach on a fresh disk can be lost whole, records of
    calls that returned included: the file's own name was never synced.
  */
  lemma AdmittedLogCanVanish(events: seq<A.Event>)
    ensures var d := Run(EMPTY, AllWrites(A.INITIAL, events));
      LogOf(d) == A.Run(A.INITIAL, events).log && LogOf(Step(d, PowerLoss(0))) == []
  {
    A.InitialInv();
    assert LinkGood(EMPTY, 0);
    FilesFollow(EMPTY, A.INITIAL, events);
    WritesArePowered(A.INITIAL, events);
    WholeLogCanVanish(AllWrites(A.INITIAL, events));
  }
}

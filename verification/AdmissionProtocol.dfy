/**
  Admission and compaction by many threads of many processes, as a transition system: every
  interleaving is a list of events. A thread takes its process's reentrant lock, the
  outermost entry takes the file lock, and each append nests a second transaction. A process
  may crash between any two steps.
*/
module AdmissionProtocol {
  import opened Wrappers
  import opened Observations
  import opened Admission
  import opened Sequences

  datatype Thread = Thread(pid: nat, number: nat)

  datatype Job = AdmitJob(batch: Log) | CompactJob

  /** Where a thread stands; the comment is the transaction depth it has reached. */
  datatype Pc =
    | Idle
    | Waiting(job: Job)        // wants the thread lock
    | Locked(job: Job)         // 0: owns the thread lock, wants the file lock
    | Holding(job: Job)        // 1: about to read the log
    | Appending(todo: Log)     // 1: batch checked, these records remain
    | Nested(todo: Log)        // 2: inside one append, before the write
    | Written(todo: Log)       // 2: inside one append, after the write
    | Rewriting(records: Log)  // 1: compaction has read the log, before the replace
    | Leaving                  // 1: body finished or refused
    | Unlocked                 // 0: file lock released, thread lock not yet

  datatype Process = Process(owner: Option<Thread>, count: nat, depth: nat)

  /** One admission that reached its check: whether it passed, and how much of it has reached the log. */
  datatype Status = Open | Done | Cut | Refused
  datatype Session = Session(batch: Log, written: nat, status: Status)

  datatype State = State(
    threads: map<Thread, Pc>,
    processes: map<nat, Process>,
    flock: Option<nat>,
    log: Log,
    sessions: seq<Session>)

  const INITIAL := State(map[], map[], None, [], [])

  function PcOf(s: State, t: Thread): Pc {
    if t in s.threads then s.threads[t] else Idle
  }

  function ProcessOf(s: State, p: nat): Process {
    if p in s.processes then s.processes[p] else Process(None, 0, 0)
  }

  function Put(s: State, t: Thread, pc: Pc, process: Process): State {
    s.(threads := s.threads[t := pc], processes := s.processes[t.pid := process])
  }

  /** A call starts a job on an idle thread; a thread's next action is fixed by where it stands. */
  datatype Event =
    | Call(t: Thread, job: Job)
    | Act(t: Thread)
    | Crash(p: nat)

  /** Entering a transaction: the file lock is needed at depth zero only. */
  function Deeper(s: State, t: Thread, pc: Pc, process: Process): State {
    if process.depth == 0 && s.flock.Some? then s
    else
      var locked := if process.depth == 0 then s.(flock := Some(t.pid)) else s;
      Put(locked, t, pc, process.(depth := process.depth + 1))
  }

  /** Leaving a transaction: the file lock goes at depth zero only. */
  function Shallower(s: State, t: Thread, pc: Pc, process: Process): State {
    if process.depth == 0 then s
    else
      var unlocked := if process.depth == 1 then s.(flock := None) else s;
      Put(unlocked, t, pc, process.(depth := process.depth - 1))
  }

  function Released(process: Process): Process {
    if process.count <= 1 then Process(None, 0, process.depth)
    else process.(count := process.count - 1)
  }

  function LastSession(s: State, session: Session): State
    requires s.sessions != []
  {
    s.(sessions := s.sessions[|s.sessions| - 1 := session])
  }

  /** One event; an event that is not enabled leaves the state as it is. */
  function Step(s: State, e: Event): State {
    match e
    case Crash(p) => AfterCrash(s, p)
    case Call(t, job) =>
      if PcOf(s, t).Idle? then s.(threads := s.threads[t := Waiting(job)]) else s
    case Act(t) => Advance(s, t)
  }

  function Advance(s: State, t: Thread): State {
    var process := ProcessOf(s, t.pid);
    match PcOf(s, t)
    case Idle => s
    case Waiting(job) =>
      if process.owner.None? then Put(s, t, Locked(job), process.(owner := Some(t), count := 1))
      else s
    case Locked(job) => Deeper(s, t, Holding(job), process)
    case Holding(job) => AfterRead(s, t, job)
    case Appending(todo) =>
      if todo == [] then AfterLastAppend(s, t)
      else Deeper(s, t, Nested(todo), process.(count := process.count + 1))
    case Nested(todo) => AfterWrite(s, t, todo)
    case Written(todo) => Shallower(s, t, Appending(todo), Released(process))
    case Rewriting(records) => Put(s, t, Leaving, process).(log := records)
    case Leaving => Shallower(s, t, Unlocked, process)
    case Unlocked => Put(s, t, Idle, Released(process))
  }

  function AfterWrite(s: State, t: Thread, todo: Log): State {
    if todo == [] || s.sessions == [] then s
    else
      var session := s.sessions[|s.sessions| - 1];
      LastSession(Put(s, t, Written(todo[1..]), ProcessOf(s, t.pid)), session.(written := session.written + 1))
        .(log := s.log + [todo[0]])
  }

  function AfterLastAppend(s: State, t: Thread): State {
    if s.sessions == [] then s
    else
      var session := s.sessions[|s.sessions| - 1];
      LastSession(Put(s, t, Leaving, ProcessOf(s, t.pid)), session.(status := Done))
  }

  function AfterRead(s: State, t: Thread, job: Job): State {
    var process := ProcessOf(s, t.pid);
    match job
    case CompactJob => Put(s, t, Rewriting(s.log), process)
    case AdmitJob(batch) =>
      if Admissible(s.log, batch) then
        Put(s, t, Appending(Fresh(s.log, batch)), process)
          .(sessions := s.sessions + [Session(batch, 0, Open)])
      else
        Put(s, t, Leaving, process)
          .(sessions := s.sessions + [Session(batch, 0, Refused)])
  }

  /** The kernel drops the file lock of a dead process; its threads and locks are gone. */
  function AfterCrash(s: State, p: nat): State {
    var survivors := s.(
      threads := map t | t in s.threads && t.pid != p :: s.threads[t],
      processes := s.processes[p := Process(None, 0, 0)]);
    if s.flock != Some(p) then survivors
    else
      var unlocked := survivors.(flock := None);
      if s.sessions != [] && s.sessions[|s.sessions| - 1].status.Open? then
        LastSession(unlocked, s.sessions[|s.sessions| - 1].(status := Cut))
      else unlocked
  }

  function Run(s: State, events: seq<Event>): State
    decreases |events|
  {
    if events == [] then s else Run(Step(s, events[0]), events[1..])
  }

  // ---------------------------------------------------------------- the two locks

  predicate OwnsThreadLock(pc: Pc) {
    !pc.Idle? && !pc.Waiting?
  }

  function Depth(pc: Pc): nat {
    match pc
    case Idle | Waiting(_) | Locked(_) | Unlocked => 0
    case Nested(_) | Written(_) => 2
    case _ => 1
  }

  function Count(pc: Pc): nat {
    if !OwnsThreadLock(pc) then 0 else if Depth(pc) == 2 then 2 else 1
  }

  ghost predicate ProcessConsistent(s: State, p: nat) {
    var process := ProcessOf(s, p);
    match process.owner
    case None => process.count == 0 && process.depth == 0
    case Some(t) =>
      && t.pid == p
      && process.count == Count(PcOf(s, t))
      && process.depth == Depth(PcOf(s, t))
  }

  ghost predicate LockInv(s: State) {
    && (forall t: Thread {:trigger PcOf(s, t)} ::
          OwnsThreadLock(PcOf(s, t)) <==> ProcessOf(s, t.pid).owner == Some(t))
    && (forall p: nat {:trigger ProcessOf(s, p)} :: ProcessConsistent(s, p))
    && (forall p: nat {:trigger ProcessOf(s, p)} :: s.flock == Some(p) <==> ProcessOf(s, p).depth > 0)
  }

  /** What the new entries of a thread and its process have to satisfy. */
  ghost predicate GoodMove(s: State, t: Thread, pc: Pc, process: Process, flock: Option<nat>) {
    && (OwnsThreadLock(pc) <==> process.owner == Some(t))
    && (process.owner.None? || process.owner == Some(t))
    && ProcessOf(s, t.pid).owner in {None, Some(t)}
    && (process.owner.None? ==> process.count == 0 && process.depth == 0)
    && (process.owner.Some? ==> process.count == Count(pc) && process.depth == Depth(pc))
    && flock == (if process.depth > 0 then Some(t.pid) else if s.flock == Some(t.pid) then None else s.flock)
    && (process.depth > 0 ==> s.flock in {None, Some(t.pid)})
  }

  /** Only t's entry and its process's entry change in a step of t. */
  lemma PutKeepsLockInv(s: State, t: Thread, pc: Pc, process: Process, flock: Option<nat>)
    requires LockInv(s) && GoodMove(s, t, pc, process, flock)
    ensures LockInv(Put(s, t, pc, process).(flock := flock))
  {
    var r := Put(s, t, pc, process).(flock := flock);
    forall u: Thread
      ensures OwnsThreadLock(PcOf(r, u)) <==> ProcessOf(r, u.pid).owner == Some(u)
    {
      assert OwnsThreadLock(PcOf(s, u)) <==> ProcessOf(s, u.pid).owner == Some(u);
    }
    forall p: nat
      ensures ProcessConsistent(r, p) && (r.flock == Some(p) <==> ProcessOf(r, p).depth > 0)
    {
      assert ProcessConsistent(s, p) && (s.flock == Some(p) <==> ProcessOf(s, p).depth > 0);
      if p != t.pid && ProcessOf(s, p).owner.Some? {
        assert PcOf(r, ProcessOf(s, p).owner.value) == PcOf(s, ProcessOf(s, p).owner.value);
      }
    }
  }

  lemma CallKeepsLockInv(s: State, t: Thread, job: Job)
    requires LockInv(s)
    ensures LockInv(Step(s, Call(t, job)))
  {
    var r := Step(s, Call(t, job));
    forall u: Thread
      ensures OwnsThreadLock(PcOf(r, u)) <==> ProcessOf(r, u.pid).owner == Some(u)
    {
      assert OwnsThreadLock(PcOf(s, u)) <==> ProcessOf(s, u.pid).owner == Some(u);
      assert ProcessOf(r, u.pid) == ProcessOf(s, u.pid);
    }
    forall p: nat
      ensures ProcessConsistent(r, p) && (r.flock == Some(p) <==> ProcessOf(r, p).depth > 0)
    {
      assert ProcessOf(r, p) == ProcessOf(s, p) && ProcessConsistent(s, p);
      if ProcessOf(s, p).owner.Some? {
        var o := ProcessOf(s, p).owner.value;
        assert OwnsThreadLock(PcOf(s, o));
        assert PcOf(r, o) == PcOf(s, o);
      }
    }
  }

  lemma CrashKeepsLockInv(s: State, p: nat)
    requires LockInv(s)
    ensures LockInv(AfterCrash(s, p))
  {
    var r := AfterCrash(s, p);
    forall u: Thread
      ensures OwnsThreadLock(PcOf(r, u)) <==> ProcessOf(r, u.pid).owner == Some(u)
    {
      assert OwnsThreadLock(PcOf(s, u)) <==> ProcessOf(s, u.pid).owner == Some(u);
      assert PcOf(r, u) == if u.pid == p then Idle else PcOf(s, u);
    }
    forall q: nat
      ensures ProcessConsistent(r, q) && (r.flock == Some(q) <==> ProcessOf(r, q).depth > 0)
    {
      assert ProcessConsistent(s, q) && (s.flock == Some(q) <==> ProcessOf(s, q).depth > 0);
      if q != p && ProcessOf(s, q).owner.Some? {
        assert PcOf(r, ProcessOf(s, q).owner.value) == PcOf(s, ProcessOf(s, q).owner.value);
      }
    }
  }

  lemma LockInvIgnoresData(s: State, r: State)
    requires LockInv(s)
    requires r.threads == s.threads && r.processes == s.processes && r.flock == s.flock
    ensures LockInv(r)
  {
    forall u: Thread
      ensures OwnsThreadLock(PcOf(r, u)) <==> ProcessOf(r, u.pid).owner == Some(u)
    {
      assert PcOf(r, u) == PcOf(s, u) && ProcessOf(r, u.pid) == ProcessOf(s, u.pid);
    }
    forall p: nat
      ensures ProcessConsistent(r, p) && (r.flock == Some(p) <==> ProcessOf(r, p).depth > 0)
    {
      assert ProcessOf(r, p) == ProcessOf(s, p) && ProcessConsistent(s, p);
      if ProcessOf(s, p).owner.Some? {
        assert PcOf(r, ProcessOf(s, p).owner.value) == PcOf(s, ProcessOf(s, p).owner.value);
      }
    }
  }

  /** What the invariant says about one thread: its process's counters are its own. */
  lemma OwnerCounters(s: State, t: Thread)
    requires LockInv(s)
    ensures OwnsThreadLock(PcOf(s, t)) ==>
      ProcessOf(s, t.pid) == Process(Some(t), Count(PcOf(s, t)), Depth(PcOf(s, t)))
    ensures Depth(PcOf(s, t)) > 0 <==> s.flock == Some(t.pid) && ProcessOf(s, t.pid).owner == Some(t)
    ensures ProcessOf(s, t.pid).owner == None ==> ProcessOf(s, t.pid) == Process(None, 0, 0)
  {
    assert ProcessConsistent(s, t.pid);
    assert s.flock == Some(t.pid) <==> ProcessOf(s, t.pid).depth > 0;
    assert OwnsThreadLock(PcOf(s, t)) <==> ProcessOf(s, t.pid).owner == Some(t);
  }

  lemma AdvanceKeepsOthers(s: State, t: Thread, u: Thread)
    requires u != t
    ensures PcOf(Advance(s, t), u) == PcOf(s, u)
  {
  }

  lemma ActIsGoodMove(s: State, t: Thread)
    requires LockInv(s)
    ensures var r := Advance(s, t);
      var pc, process := PcOf(r, t), ProcessOf(r, t.pid);
      r == s || (&& GoodMove(s, t, pc, process, r.flock)
                 && r.threads == s.threads[t := pc]
                 && r.processes == s.processes[t.pid := process])
  {
    OwnerCounters(s, t);
  }

  lemma ActKeepsLockInv(s: State, t: Thread)
    requires LockInv(s)
    ensures LockInv(Advance(s, t))
  {
    var r := Advance(s, t);
    ActIsGoodMove(s, t);
    if r != s {
      var pc, process := PcOf(r, t), ProcessOf(r, t.pid);
      PutKeepsLockInv(s, t, pc, process, r.flock);
      LockInvIgnoresData(Put(s, t, pc, process).(flock := r.flock), r);
    }
  }

  /** At most one thread, of one process, is inside a transaction. */
  lemma MutualExclusion(s: State, t: Thread, u: Thread)
    requires LockInv(s)
    requires Depth(PcOf(s, t)) > 0 && Depth(PcOf(s, u)) > 0
    ensures t == u
  {
    OwnerCounters(s, t);
    OwnerCounters(s, u);
  }

  // ---------------------------------------------------------------- the log

  /** The log that the sessions produce when replayed one after another, in lock order. */
  function Replay(sessions: seq<Session>): Log {
    if sessions == [] then []
    else
      var last := sessions[|sessions| - 1];
      var base := Replay(sessions[..|sessions| - 1]);
      base + Take(Fresh(base, last.batch), last.written)
  }

  ghost predicate SessionSane(sessions: seq<Session>, k: nat)
    requires k < |sessions|
  {
    var base, session := Replay(sessions[..k]), sessions[k];
    && (session.status.Refused? <==> !Admissible(base, session.batch))
    && (session.status.Refused? ==> session.written == 0)
    && session.written <= |Fresh(base, session.batch)|
    && (session.status.Done? ==> session.written == |Fresh(base, session.batch)|)
    && (session.status.Open? ==> k == |sessions| - 1)
  }

  ghost predicate Sane(sessions: seq<Session>) {
    forall k | 0 <= k < |sessions| :: SessionSane(sessions, k)
  }

  predicate Working(pc: Pc) {
    pc.Appending? || pc.Nested? || pc.Written?
  }

  predicate LastIsOpen(sessions: seq<Session>) {
    sessions != [] && sessions[|sessions| - 1].status.Open?
  }

  /** The records a working thread still has to append are those its session still owes. */
  ghost predicate Owes(sessions: seq<Session>, todo: Log) {
    && LastIsOpen(sessions)
    && var session := sessions[|sessions| - 1];
       var added := Fresh(Replay(sessions[..|sessions| - 1]), session.batch);
       session.written <= |added| && todo == added[session.written..]
  }

  ghost predicate ThreadOwes(s: State, t: Thread) {
    var pc := PcOf(s, t);
    && (Working(pc) ==> Owes(s.sessions, pc.todo))
    && (pc.Rewriting? ==> pc.records == s.log)
  }

  /** The log is what its sessions produced, with no id twice. */
  ghost predicate SessionsInv(log: Log, sessions: seq<Session>) {
    DistinctIds(log) && log == Replay(sessions) && Sane(sessions)
  }

  ghost predicate DataInv(s: State) {
    && SessionsInv(s.log, s.sessions)
    && (forall t: Thread {:trigger PcOf(s, t)} :: ThreadOwes(s, t))
    && (LastIsOpen(s.sessions) ==> exists t: Thread :: Working(PcOf(s, t)))
  }

  ghost predicate Inv(s: State) {
    LockInv(s) && DataInv(s)
  }

  lemma OthersAreOut(s: State, t: Thread)
    requires LockInv(s) && Depth(PcOf(s, t)) > 0
    ensures forall u: Thread | u != t :: !Working(PcOf(s, u)) && !PcOf(s, u).Rewriting?
  {
    forall u: Thread | u != t
      ensures !Working(PcOf(s, u)) && !PcOf(s, u).Rewriting?
    {
      if Depth(PcOf(s, u)) > 0 {
        MutualExclusion(s, t, u);
      }
    }
  }

  /** A session as it enters the history: admissible and open, or refused. */
  function Opened(log: Log, batch: Log): Session {
    Session(batch, 0, if Admissible(log, batch) then Open else Refused)
  }

  /** Nothing of a session that just entered is in the log. */
  lemma ReplayPush(sessions: seq<Session>, session: Session)
    requires session.written == 0
    ensures Replay(sessions + [session]) == Replay(sessions)
  {
    var more := sessions + [session];
    assert more[..|sessions|] == sessions;
    assert Take(Fresh(Replay(sessions), session.batch), 0) == [];
  }

  lemma EarlierStaysSane(sessions: seq<Session>, session: Session, k: nat)
    requires k < |sessions| && SessionSane(sessions, k) && !LastIsOpen(sessions)
    ensures SessionSane(sessions + [session], k)
  {
    assert (sessions + [session])[..k] == sessions[..k];
  }

  lemma LastIsSane(sessions: seq<Session>, session: Session)
    requires session == Opened(Replay(sessions), session.batch)
    ensures SessionSane(sessions + [session], |sessions|)
  {
    assert (sessions + [session])[..|sessions|] == sessions;
  }

  lemma SanePush(sessions: seq<Session>, session: Session)
    requires Sane(sessions) && !LastIsOpen(sessions)
    requires SessionSane(sessions + [session], |sessions|)
    ensures Sane(sessions + [session])
  {
    var more := sessions + [session];
    forall k | 0 <= k < |more|
      ensures SessionSane(more, k)
    {
      if k < |sessions| {
        EarlierStaysSane(sessions, session, k);
      }
    }
  }

  lemma SaneUpdateLast(sessions: seq<Session>, session: Session)
    requires Sane(sessions) && sessions != []
    requires var n := |sessions| - 1;
      && session.batch == sessions[n].batch && !sessions[n].status.Refused? && !session.status.Refused?
      && session.written <= |Fresh(Replay(sessions[..n]), session.batch)|
      && (session.status.Done? ==> session.written == |Fresh(Replay(sessions[..n]), session.batch)|)
    ensures var n := |sessions| - 1;
      && Sane(sessions[n := session])
      && sessions[n := session][..n] == sessions[..n]
      && Replay(sessions[n := session])
         == Replay(sessions[..n]) + Take(Fresh(Replay(sessions[..n]), session.batch), session.written)
  {
    var n := |sessions| - 1;
    var now := sessions[n := session];
    assert now[..n] == sessions[..n];
    assert SessionSane(sessions, n);
    forall k | 0 <= k < |now|
      ensures SessionSane(now, k)
    {
      assert now[..k] == sessions[..k];
      assert SessionSane(sessions, k);
    }
  }

  /** Steps that touch neither log nor sessions, and neither enter nor leave the body of a job. */
  lemma QuietStepKeepsDataInv(s: State, r: State, t: Thread)
    requires DataInv(s)
    requires r.log == s.log && r.sessions == s.sessions
    requires forall u: Thread | u != t :: PcOf(r, u) == PcOf(s, u)
    requires Working(PcOf(r, t)) == Working(PcOf(s, t))
    requires Working(PcOf(r, t)) ==> PcOf(r, t).todo == PcOf(s, t).todo
    requires !PcOf(r, t).Rewriting? || PcOf(r, t) == PcOf(s, t)
    ensures DataInv(r)
  {
    forall u: Thread
      ensures ThreadOwes(r, u)
    {
      assert ThreadOwes(s, u);
    }
    if LastIsOpen(s.sessions) {
      var u: Thread :| Working(PcOf(s, u));
      assert Working(PcOf(r, u));
    }
  }

  /** A step inside the transaction: everybody else is outside, so only t's debts matter. */
  lemma InsideStepKeepsDataInv(s: State, r: State, t: Thread)
    requires Inv(s) && Depth(PcOf(s, t)) > 0
    requires forall u: Thread | u != t :: PcOf(r, u) == PcOf(s, u)
    requires SessionsInv(r.log, r.sessions) && ThreadOwes(r, t)
    requires LastIsOpen(r.sessions) ==> Working(PcOf(r, t))
    ensures DataInv(r)
  {
    OthersAreOut(s, t);
    forall u: Thread
      ensures ThreadOwes(r, u)
    {
      assert u != t ==> PcOf(r, u) == PcOf(s, u);
    }
  }

  lemma NothingOpenBefore(s: State, t: Thread)
    requires Inv(s) && Depth(PcOf(s, t)) > 0 && !Working(PcOf(s, t))
    ensures !LastIsOpen(s.sessions)
  {
    OthersAreOut(s, t);
  }

  lemma ReadKeepsDataInv(s: State, t: Thread)
    requires Inv(s) && PcOf(s, t).Holding?
    ensures DataInv(Advance(s, t))
  {
    NothingOpenBefore(s, t);
    match PcOf(s, t).job
    case CompactJob => InsideStepKeepsDataInv(s, Advance(s, t), t);
    case AdmitJob(batch) => CheckKeepsDataInv(s, t, batch);
  }

  lemma CheckIs(s: State, t: Thread, batch: Log)
    requires PcOf(s, t) == Holding(AdmitJob(batch))
    ensures var r := Advance(s, t);
      && r.log == s.log && r.sessions == s.sessions + [Opened(s.log, batch)]
      && PcOf(r, t) == (if Admissible(s.log, batch) then Appending(Fresh(s.log, batch)) else Leaving)
      && forall u: Thread | u != t :: PcOf(r, u) == PcOf(s, u)
  {
  }

  lemma SessionOpens(log: Log, sessions: seq<Session>, session: Session)
    requires SessionsInv(log, sessions) && !LastIsOpen(sessions) && session == Opened(log, session.batch)
    ensures SessionsInv(log, sessions + [session])
    ensures session.status.Open? ==> Owes(sessions + [session], Fresh(log, session.batch))
  {
    LastIsSane(sessions, session);
    SanePush(sessions, session);
    ReplayPush(sessions, session);
    assert (sessions + [session])[..|sessions|] == sessions;
  }

  /** The check of a batch adds its session, open or refused. */
  lemma CheckKeepsDataInv(s: State, t: Thread, batch: Log)
    requires Inv(s) && PcOf(s, t) == Holding(AdmitJob(batch)) && !LastIsOpen(s.sessions)
    ensures DataInv(Advance(s, t))
  {
    SessionOpens(s.log, s.sessions, Opened(s.log, batch));
    CheckIs(s, t, batch);
    CheckedKeepsDataInv(s, Advance(s, t), t);
  }

  lemma CheckedKeepsDataInv(s: State, r: State, t: Thread)
    requires Inv(s) && PcOf(s, t).Holding? && (PcOf(r, t).Leaving? || PcOf(r, t).Appending?)
    requires forall u: Thread | u != t :: PcOf(r, u) == PcOf(s, u)
    requires SessionsInv(r.log, r.sessions)
    requires LastIsOpen(r.sessions) ==> PcOf(r, t).Appending?
    requires PcOf(r, t).Appending? ==> Owes(r.sessions, PcOf(r, t).todo)
    ensures DataInv(r)
  {
    InsideStepKeepsDataInv(s, r, t);
  }

  /** One owed record reaches the log. */
  lemma SessionWrites(log: Log, sessions: seq<Session>, todo: Log)
    requires SessionsInv(log, sessions) && Owes(sessions, todo) && todo != []
    ensures SessionsInv(log + [todo[0]], WithOneMore(sessions)) && Owes(WithOneMore(sessions), todo[1..])
  {
    var n := |sessions| - 1;
    var session, base := sessions[n], Replay(sessions[..n]);
    var added, w := Fresh(base, session.batch), session.written;
    assert SessionSane(sessions, n);
    SaneUpdateLast(sessions, session.(written := w + 1));
    NextOfSuffix(added, w, todo);
    assert log == base + added[..w];
    LongerPrefix(base, added, w, log, todo[0]);
    PrefixIsDistinct(base, added[..w]);
    PartialAdmissionIsDistinct(base, session.batch, w + 1);
  }

  lemma LongerPrefix(base: Log, added: Log, w: nat, log: Log, o: Observation)
    requires w < |added| && log == base + added[..w] && o == added[w]
    ensures base + added[..w + 1] == log + [o]
  {
  }

  lemma NextOfSuffix(added: Log, w: nat, todo: Log)
    requires w <= |added| && todo == added[w..] && todo != []
    ensures w < |added| && added[w] == todo[0] && todo[1..] == added[w + 1..]
  {
  }

  lemma PrefixIsDistinct(base: Log, tail: Log)
    requires DistinctIds(base + tail)
    ensures DistinctIds(base)
  {
    assert forall i | 0 <= i < |base| :: (base + tail)[i] == base[i];
  }

  /** Nothing is owed any more, or the rest is lost: either way the log is as it was. */
  lemma SessionCloses(log: Log, sessions: seq<Session>, todo: Log, status: Status)
    requires SessionsInv(log, sessions) && Owes(sessions, todo)
    requires status.Cut? || (status.Done? && todo == [])
    ensures var n := |sessions| - 1;
      var now := sessions[n := sessions[n].(status := status)];
      SessionsInv(log, now) && !LastIsOpen(now)
  {
    assert SessionSane(sessions, |sessions| - 1);
    SaneUpdateLast(sessions, sessions[|sessions| - 1].(status := status));
  }

  function WithOneMore(sessions: seq<Session>): seq<Session>
    requires sessions != []
  {
    var n := |sessions| - 1;
    sessions[n := sessions[n].(written := sessions[n].written + 1)]
  }

  lemma WriteIs(s: State, t: Thread, todo: Log)
    requires PcOf(s, t) == Nested(todo) && todo != [] && s.sessions != []
    ensures var r := Advance(s, t);
      && r.log == s.log + [todo[0]]
      && r.sessions == WithOneMore(s.sessions)
      && PcOf(r, t) == Written(todo[1..])
      && forall u: Thread | u != t :: PcOf(r, u) == PcOf(s, u)
  {
  }

  lemma WriteKeepsDataInv(s: State, t: Thread, todo: Log)
    requires Inv(s) && PcOf(s, t) == Nested(todo)
    ensures DataInv(Advance(s, t))
  {
    if todo != [] {
      assert ThreadOwes(s, t);
      SessionWrites(s.log, s.sessions, todo);
      WriteIs(s, t, todo);
      WrittenKeepsDataInv(s, Advance(s, t), t, todo);
    }
  }

  lemma WrittenKeepsDataInv(s: State, r: State, t: Thread, todo: Log)
    requires Inv(s) && PcOf(s, t) == Nested(todo) && PcOf(r, t).Written?
    requires forall u: Thread | u != t :: PcOf(r, u) == PcOf(s, u)
    requires SessionsInv(r.log, r.sessions) && Owes(r.sessions, PcOf(r, t).todo)
    ensures DataInv(r)
  {
    InsideStepKeepsDataInv(s, r, t);
  }

  lemma FinishIs(s: State, t: Thread)
    requires PcOf(s, t) == Appending([]) && s.sessions != []
    ensures var r, n := Advance(s, t), |s.sessions| - 1;
      && r.log == s.log && r.sessions == s.sessions[n := s.sessions[n].(status := Done)]
      && PcOf(r, t) == Leaving
      && forall u: Thread | u != t :: PcOf(r, u) == PcOf(s, u)
  {
  }

  lemma FinishKeepsDataInv(s: State, t: Thread)
    requires Inv(s) && PcOf(s, t) == Appending([])
    ensures DataInv(Advance(s, t))
  {
    assert ThreadOwes(s, t);
    SessionCloses(s.log, s.sessions, [], Done);
    FinishIs(s, t);
    FinishedKeepsDataInv(s, Advance(s, t), t);
  }

  lemma FinishedKeepsDataInv(s: State, r: State, t: Thread)
    requires Inv(s) && PcOf(s, t).Appending? && PcOf(r, t).Leaving?
    requires forall u: Thread | u != t :: PcOf(r, u) == PcOf(s, u)
    requires SessionsInv(r.log, r.sessions) && !LastIsOpen(r.sessions)
    ensures DataInv(r)
  {
    InsideStepKeepsDataInv(s, r, t);
  }

  lemma OtherActKeepsDataInv(s: State, t: Thread)
    requires Inv(s) && !PcOf(s, t).Holding? && !PcOf(s, t).Nested? && PcOf(s, t) != Appending([])
    ensures DataInv(Advance(s, t))
  {
    assert ThreadOwes(s, t);
    forall u: Thread | u != t
      ensures PcOf(Advance(s, t), u) == PcOf(s, u)
    {
      AdvanceKeepsOthers(s, t, u);
    }
    QuietStepKeepsDataInv(s, Advance(s, t), t);
  }

  lemma ActKeepsDataInv(s: State, t: Thread)
    requires Inv(s)
    ensures DataInv(Advance(s, t))
  {
    match PcOf(s, t)
    case Holding(_) => ReadKeepsDataInv(s, t);
    case Nested(todo) => WriteKeepsDataInv(s, t, todo);
    case Appending(todo) =>
      if todo == [] {
        FinishKeepsDataInv(s, t);
      } else {
        OtherActKeepsDataInv(s, t);
      }
    case _ => OtherActKeepsDataInv(s, t);
  }

  /** The process that crashes holds the file lock: nobody is left inside. */
  lemma HolderCrashKeepsDataInv(s: State, p: nat)
    requires Inv(s) && s.flock == Some(p)
    ensures DataInv(AfterCrash(s, p))
  {
    var r := AfterCrash(s, p);
    OwnerIsInside(s, p);
    var t := ProcessOf(s, p).owner.value;
    OthersAreOut(s, t);
    if LastIsOpen(s.sessions) {
      assert ThreadOwes(s, t);
      SessionCloses(s.log, s.sessions, PcOf(s, t).todo, Cut);
    }
    assert !LastIsOpen(r.sessions) && SessionsInv(r.log, r.sessions);
    forall u: Thread
      ensures ThreadOwes(r, u)
    {
      assert PcOf(r, u) == if u.pid == p then Idle else PcOf(s, u);
    }
  }

  lemma OtherCrashKeepsDataInv(s: State, p: nat)
    requires Inv(s) && s.flock != Some(p)
    ensures DataInv(AfterCrash(s, p))
  {
    var r := AfterCrash(s, p);
    forall u: Thread
      ensures ThreadOwes(r, u)
    {
      assert PcOf(r, u) == if u.pid == p then Idle else PcOf(s, u);
      assert ThreadOwes(s, u);
    }
    if LastIsOpen(s.sessions) {
      var u: Thread :| Working(PcOf(s, u));
      OwnerCounters(s, u);
      assert PcOf(r, u) == PcOf(s, u);
    }
  }

  lemma OwnerIsInside(s: State, p: nat)
    requires LockInv(s) && s.flock == Some(p)
    ensures ProcessOf(s, p).owner.Some?
    ensures ProcessOf(s, p).owner.value.pid == p && Depth(PcOf(s, ProcessOf(s, p).owner.value)) > 0
  {
    assert ProcessConsistent(s, p) && ProcessOf(s, p).depth > 0;
  }

  lemma StepKeepsInv(s: State, e: Event)
    requires Inv(s)
    ensures Inv(Step(s, e))
  {
    match e
    case Call(t, job) =>
      CallKeepsLockInv(s, t, job);
      QuietStepKeepsDataInv(s, Step(s, e), t);
    case Act(t) =>
      ActKeepsLockInv(s, t);
      ActKeepsDataInv(s, t);
    case Crash(p) =>
      CrashKeepsLockInv(s, p);
      if s.flock == Some(p) {
        HolderCrashKeepsDataInv(s, p);
      } else {
        OtherCrashKeepsDataInv(s, p);
      }
  }

  // ---------------------------------------------------------------- every run

  lemma {:induction false} RunKeepsInv(s: State, events: seq<Event>)
    requires Inv(s)
    ensures Inv(Run(s, events))
    decreases |events|
  {
    if events != [] {
      StepKeepsInv(s, events[0]);
      RunKeepsInv(Step(s, events[0]), events[1..]);
    }
  }

  /** Nobody has called and nothing is locked. */
  lemma EmptyInv(s: State)
    requires s.threads.Keys == {} && s.processes.Keys == {} && s.flock == None
    requires s.log == [] && s.sessions == []
    ensures Inv(s)
  {
    forall t: Thread
      ensures OwnsThreadLock(PcOf(s, t)) <==> ProcessOf(s, t.pid).owner == Some(t)
      ensures ThreadOwes(s, t)
    {
      assert t !in s.threads.Keys && t.pid !in s.processes.Keys;
      assert PcOf(s, t) == Idle;
    }
    forall p: nat
      ensures ProcessConsistent(s, p) && (s.flock == Some(p) <==> ProcessOf(s, p).depth > 0)
    {
      assert p !in s.processes.Keys;
      assert ProcessOf(s, p) == Process(None, 0, 0);
    }
    assert LockInv(s);
    assert SessionsInv(s.log, s.sessions);
    assert !LastIsOpen(s.sessions);
  }

  lemma InitialInv()
    ensures Inv(INITIAL)
  {
    EmptyInv(INITIAL);
  }

  function BatchesOf(sessions: seq<Session>): (batches: seq<Log>)
    ensures |batches| == |sessions|
  {
    seq(|sessions|, k requires 0 <= k < |sessions| => sessions[k].batch)
  }

  lemma {:induction false} SanePrefix(sessions: seq<Session>, n: nat)
    requires Sane(sessions) && n < |sessions|
    ensures Sane(sessions[..n])
  {
    var front := sessions[..n];
    forall k | 0 <= k < n
      ensures SessionSane(front, k)
    {
      assert front[..k] == sessions[..k];
      assert SessionSane(sessions, k);
    }
  }

  /** The sessions as offers: how far each one got is how many of its records it wrote. */
  function OffersOf(sessions: seq<Session>): (offers: seq<Offer>)
    ensures |offers| == |sessions|
  {
    seq(|sessions|, k requires 0 <= k < |sessions| => Offer(sessions[k].batch, sessions[k].written))
  }

  lemma {:induction false} ReplayIsOfferAll(sessions: seq<Session>)
    requires Sane(sessions)
    ensures Replay(sessions) == OfferAll([], OffersOf(sessions))
  {
    if sessions != [] {
      var n := |sessions| - 1;
      var base := Replay(sessions[..n]);
      SanePrefix(sessions, n);
      ReplayIsOfferAll(sessions[..n]);
      assert OffersOf(sessions)[..n] == OffersOf(sessions[..n]);
      assert SessionSane(sessions, n);
      assert base + Take(Fresh(base, sessions[n].batch), 0) == base;
    }
  }

  /** No crash cut the session short and it is not running any more. */
  predicate Settled(session: Session) {
    session.status.Done? || session.status.Refused?
  }

  /** A settled session did what admitting its batch does, whether it was admitted or refused. */
  lemma SettledIsAdmit(sessions: seq<Session>, n: nat)
    requires Sane(sessions) && n < |sessions| && Settled(sessions[n])
    ensures Replay(sessions[..n + 1]) == Admit(Replay(sessions[..n]), sessions[n].batch)
  {
    assert SessionSane(sessions, n);
    var upto, base := sessions[..n + 1], Replay(sessions[..n]);
    assert upto[..n] == sessions[..n] && upto[n] == sessions[n];
    AfterAppendsFresh(base, sessions[n].batch);
    assert base + [] == base;
  }

  lemma {:induction false} CompletedReplay(sessions: seq<Session>)
    requires Sane(sessions)
    requires forall k | 0 <= k < |sessions| :: Settled(sessions[k])
    ensures Replay(sessions) == AdmitAll([], BatchesOf(sessions))
  {
    if sessions != [] {
      var n := |sessions| - 1;
      SanePrefix(sessions, n);
      CompletedReplay(sessions[..n]);
      SettledIsAdmit(sessions, n);
      assert sessions[..n + 1] == sessions;
      assert BatchesOf(sessions)[..n] == BatchesOf(sessions[..n]);
    }
  }

  // ---------------------------------------------------------------- sessions and the calls made

  /** The batches whose admission was called. */
  function Called(events: seq<Event>): set<Log> {
    set e | e in events && e.Call? && e.job.AdmitJob? :: e.job.batch
  }

  /** The batch a thread is on its way to check, if any. */
  function Carries(pc: Pc): Option<Log> {
    match pc
    case Waiting(AdmitJob(batch)) => Some(batch)
    case Locked(AdmitJob(batch)) => Some(batch)
    case Holding(AdmitJob(batch)) => Some(batch)
    case _ => None
  }

  /** Every session, and every batch on its way to its check, is one of these batches. */
  ghost predicate Attributed(s: State, batches: set<Log>) {
    && (forall k | 0 <= k < |s.sessions| :: s.sessions[k].batch in batches)
    && (forall t: Thread {:trigger PcOf(s, t)} ::
          Carries(PcOf(s, t)).Some? ==> Carries(PcOf(s, t)).value in batches)
  }

  lemma ActKeepsAttributed(s: State, t: Thread, batches: set<Log>)
    requires Attributed(s, batches)
    ensures Attributed(Advance(s, t), batches)
  {
    var r := Advance(s, t);
    assert Carries(PcOf(s, t)).Some? ==> Carries(PcOf(s, t)).value in batches;
    forall u: Thread
      ensures Carries(PcOf(r, u)).Some? ==> Carries(PcOf(r, u)).value in batches
    {
      if u != t {
        AdvanceKeepsOthers(s, t, u);
      }
      assert Carries(PcOf(s, u)).Some? ==> Carries(PcOf(s, u)).value in batches;
    }
  }

  lemma StepKeepsAttributed(s: State, e: Event, batches: set<Log>)
    requires Attributed(s, batches)
    requires e.Call? && e.job.AdmitJob? ==> e.job.batch in batches
    ensures Attributed(Step(s, e), batches)
  {
    var r := Step(s, e);
    match e
    case Act(t) => ActKeepsAttributed(s, t, batches);
    case Call(t, job) =>
      forall u: Thread
        ensures Carries(PcOf(r, u)).Some? ==> Carries(PcOf(r, u)).value in batches
      {
        assert Carries(PcOf(s, u)).Some? ==> Carries(PcOf(s, u)).value in batches;
      }
    case Crash(p) =>
      forall u: Thread
        ensures Carries(PcOf(r, u)).Some? ==> Carries(PcOf(r, u)).value in batches
      {
        assert PcOf(r, u) == if u.pid == p then Idle else PcOf(s, u);
        assert Carries(PcOf(s, u)).Some? ==> Carries(PcOf(s, u)).value in batches;
      }
  }

  lemma {:induction false} RunKeepsAttributed(s: State, events: seq<Event>, batches: set<Log>)
    requires Attributed(s, batches) && Called(events) <= batches
    ensures Attributed(Run(s, events), batches)
    decreases |events|
  {
    if events != [] {
      assert events[0] in events && forall e | e in events[1..] :: e in events;
      StepKeepsAttributed(s, events[0], batches);
      RunKeepsAttributed(Step(s, events[0]), events[1..], batches);
    }
  }

  lemma SessionsWereCalled(events: seq<Event>)
    ensures forall k | 0 <= k < |Run(INITIAL, events).sessions| ::
      Run(INITIAL, events).sessions[k].batch in Called(events)
  {
    forall t: Thread
      ensures Carries(PcOf(INITIAL, t)).None?
    {
      assert PcOf(INITIAL, t) == Idle;
    }
    RunKeepsAttributed(INITIAL, events, Called(events));
  }

  /**
    Admission is serialisable. In every interleaving, crashes included, the log is the replay
    of its sessions in lock order, each of a batch that was called; only a crash can cut one
    short, and when none did, the log is what admitting the same batches one by one, refused
    ones included, would have produced.
  */
  lemma AdmissionIsSerialisable(events: seq<Event>)
    ensures var s := Run(INITIAL, events);
      && DistinctIds(s.log)
      && s.log == Replay(s.sessions) && Sane(s.sessions)
      && s.log == OfferAll([], OffersOf(s.sessions))
      && (forall k | 0 <= k < |s.sessions| :: s.sessions[k].batch in Called(events))
      && ((forall k | 0 <= k < |s.sessions| :: Settled(s.sessions[k]))
          ==> s.log == AdmitAll([], BatchesOf(s.sessions)))
  {
    InitialInv();
    RunKeepsInv(INITIAL, events);
    SessionsWereCalled(events);
    var s := Run(INITIAL, events);
    ReplayIsOfferAll(s.sessions);
    if forall k | 0 <= k < |s.sessions| :: Settled(s.sessions[k]) {
      CompletedReplay(s.sessions);
    }
  }

  /** In every run at most one thread of one process is inside, and it holds the file lock. */
  lemma OneHolderInEveryRun(events: seq<Event>, t: Thread, u: Thread)
    requires Depth(PcOf(Run(INITIAL, events), t)) > 0
    ensures Run(INITIAL, events).flock == Some(t.pid)
    ensures Depth(PcOf(Run(INITIAL, events), u)) > 0 ==> t == u
  {
    InitialInv();
    RunKeepsInv(INITIAL, events);
    var s := Run(INITIAL, events);
    OwnerCounters(s, t);
    if Depth(PcOf(s, u)) > 0 {
      MutualExclusion(s, t, u);
    }
  }

  lemma StepExtendsLog(s: State, e: Event)
    requires Inv(s)
    ensures s.log <= Step(s, e).log
  {
    if e.Act? {
      assert ThreadOwes(s, e.t);
    }
  }

  /** The log only ever grows at its end; compaction, refusals and crashes leave it alone. */
  lemma {:induction false} RunExtendsLog(s: State, events: seq<Event>)
    requires Inv(s)
    ensures s.log <= Run(s, events).log
    decreases |events|
  {
    if events != [] {
      StepExtendsLog(s, events[0]);
      StepKeepsInv(s, events[0]);
      RunExtendsLog(Step(s, events[0]), events[1..]);
    }
  }

  lemma {:induction false} RunInTwo(s: State, a: seq<Event>, b: seq<Event>)
    ensures Run(s, a + b) == Run(Run(s, a), b)
    decreases |a|
  {
    if a == [] {
      assert a + b == b;
    } else {
      assert (a + b)[1..] == a[1..] + b;
      RunInTwo(Step(s, a[0]), a[1..], b);
    }
  }

  /** An id keeps its first-admitted record, whatever happens next. */
  lemma FirstRecordForever(before: seq<Event>, after: seq<Event>, id: Uuid)
    requires id in Index(Run(INITIAL, before).log)
    ensures var log, later := Run(INITIAL, before).log, Run(INITIAL, before + after).log;
      id in Index(later) && Index(later)[id] == Index(log)[id]
  {
    var s := Run(INITIAL, before);
    InitialInv();
    RunKeepsInv(INITIAL, before);
    RunExtendsLog(s, after);
    RunKeepsInv(s, after);
    RunInTwo(INITIAL, before, after);
    IndexHolds(s.log, id);
    HeldIsUnique(Run(s, after).log, Index(s.log)[id]);
  }

  lemma {:induction false} ReplayGrows(sessions: seq<Session>, n: nat)
    requires n <= |sessions|
    ensures Replay(sessions[..n]) <= Replay(sessions)
    decreases |sessions|
  {
    var m := |sessions| - 1;
    if n == |sessions| {
      assert sessions[..n] == sessions;
    } else {
      assert sessions[..m][..n] == sessions[..n];
      ReplayGrows(sessions[..m], n);
    }
  }

  lemma DistinctPrefix(log: Log, longer: Log)
    requires DistinctIds(longer) && log <= longer
    ensures DistinctIds(log)
  {
    assert forall i | 0 <= i < |log| :: log[i] == longer[i];
  }

  /** Once a session is done, every record of its batch is held, with its content, in the log. */
  lemma DoneIsInLog(log: Log, sessions: seq<Session>, k: nat, b: Observation) returns (held: Observation)
    requires SessionsInv(log, sessions) && k < |sessions| && sessions[k].status.Done? && b in sessions[k].batch
    ensures held in log && held.id == b.id && ContentOf(held) == ContentOf(b)
  {
    var base := Replay(sessions[..k]);
    SettledIsAdmit(sessions, k);
    assert SessionSane(sessions, k);
    ReplayGrows(sessions, k);
    ReplayGrows(sessions, k + 1);
    DistinctPrefix(base, log);
    DistinctPrefix(After(base, sessions[k].batch), log);
    AdmittedContentIsHeld(base, sessions[k].batch, b);
    held := Index(After(base, sessions[k].batch))[b.id];
    IndexHolds(After(base, sessions[k].batch), b.id);
  }

  /** What a completed admission put in stays held in every continuation of the run. */
  lemma DoneForever(before: seq<Event>, after: seq<Event>, k: nat, b: Observation)
    requires var s := Run(INITIAL, before);
      k < |s.sessions| && s.sessions[k].status.Done? && b in s.sessions[k].batch
    ensures var index := Index(Run(INITIAL, before + after).log);
      b.id in index && ContentOf(index[b.id]) == ContentOf(b)
  {
    var s := Run(INITIAL, before);
    InitialInv();
    RunKeepsInv(INITIAL, before);
    var held := DoneIsInLog(s.log, s.sessions, k, b);
    RunExtendsLog(s, after);
    RunKeepsInv(s, after);
    RunInTwo(INITIAL, before, after);
    HeldIsUnique(Run(s, after).log, held);
  }

  // ---------------------------------------------------------------- progress

  function Acts(t: Thread, n: nat): (events: seq<Event>)
    ensures |events| == n
  {
    seq(n, _ => Act(t))
  }

  lemma ActOnce(s: State, t: Thread, n: nat)
    requires n > 0
    ensures Run(s, Acts(t, n)) == Run(Advance(s, t), Acts(t, n - 1))
  {
    assert Acts(t, n)[1..] == Acts(t, n - 1);
  }

  ghost predicate Inside(s: State, t: Thread, pc: Pc) {
    && PcOf(s, t) == pc
    && ProcessOf(s, t.pid) == Process(Some(t), 1, 1)
    && s.flock == Some(t.pid)
  }

  ghost predicate Outside(s: State, t: Thread) {
    PcOf(s, t) == Idle && ProcessOf(s, t.pid) == Process(None, 0, 0) && s.flock == None
  }

  lemma SoloAppend(s: State, t: Thread, todo: Log)
    requires Inside(s, t, Appending(todo)) && todo != [] && s.sessions != []
    ensures var r := Run(s, Acts(t, 3));
      Inside(r, t, Appending(todo[1..])) && r.log == s.log + [todo[0]] && r.sessions == WithOneMore(s.sessions)
  {
    ActOnce(s, t, 3);
    ActOnce(Advance(s, t), t, 2);
    ActOnce(Advance(Advance(s, t), t), t, 1);
  }

  lemma ActsInTwo(s: State, t: Thread, m: nat, n: nat)
    ensures Run(s, Acts(t, m + n)) == Run(Run(s, Acts(t, m)), Acts(t, n))
  {
    assert Acts(t, m + n) == Acts(t, m) + Acts(t, n);
    RunInTwo(s, Acts(t, m), Acts(t, n));
  }

  /** Three steps append one record and come back to depth one: the lock is not released. */
  lemma {:induction false} SoloAppends(s: State, t: Thread, todo: Log)
    requires Inside(s, t, Appending(todo)) && s.sessions != []
    ensures var r := Run(s, Acts(t, 3 * |todo|));
      Inside(r, t, Appending([])) && r.log == s.log + todo && r.sessions != []
    decreases |todo|
  {
    if todo == [] {
      assert s.log + todo == s.log;
    } else {
      SoloAppend(s, t, todo);
      ActsInTwo(s, t, 3, 3 * |todo[1..]|);
      SoloAppends(Run(s, Acts(t, 3)), t, todo[1..]);
      assert s.log + todo == s.log + [todo[0]] + todo[1..];
    }
  }

  lemma SoloEnters(s: State, t: Thread, job: Job)
    requires Outside(s, t)
    ensures var r := Run(Step(s, Call(t, job)), Acts(t, 2));
      Inside(r, t, Holding(job)) && r.log == s.log && r.sessions == s.sessions
  {
    var s0 := Step(s, Call(t, job));
    ActOnce(s0, t, 2);
    ActOnce(Advance(s0, t), t, 1);
  }

  lemma SoloLeaves(s: State, t: Thread)
    requires Inside(s, t, Leaving)
    ensures var r := Run(s, Acts(t, 2));
      Outside(r, t) && r.log == s.log
  {
    ActOnce(s, t, 2);
    ActOnce(Advance(s, t), t, 1);
  }

  lemma SoloFinishes(s: State, t: Thread, todo: Log)
    requires Inside(s, t, Appending(todo)) && s.sessions != []
    ensures var r := Run(s, Acts(t, 3 * |todo| + 1));
      Inside(r, t, Leaving) && r.log == s.log + todo
  {
    SoloAppends(s, t, todo);
    ActsInTwo(s, t, 3 * |todo|, 1);
    ActOnce(Run(s, Acts(t, 3 * |todo|)), t, 1);
  }

  /** The body of an admission, from holding the lock to leaving it. */
  lemma SoloBody(s: State, t: Thread, batch: Log) returns (n: nat)
    requires Inside(s, t, Holding(AdmitJob(batch)))
    ensures var r := Run(s, Acts(t, n));
      Inside(r, t, Leaving) && r.log == Admit(s.log, batch)
  {
    ActOnce(s, t, 1);
    if !Admissible(s.log, batch) {
      n := 1;
    } else {
      var owed := Fresh(s.log, batch);
      var s1 := Run(s, Acts(t, 1));
      SoloFinishes(s1, t, owed);
      ActsInTwo(s, t, 1, 3 * |owed| + 1);
      AfterAppendsFresh(s.log, batch);
      n := 1 + (3 * |owed| + 1);
    }
  }

  /**
    A call that nobody disturbs finishes: it leaves both locks free and exactly the log that
    the sequential method leaves.
  */
  lemma SoloAdmission(s: State, t: Thread, batch: Log) returns (events: seq<Event>)
    requires Outside(s, t)
    ensures events != [] && events[0] == Call(t, AdmitJob(batch))
    ensures forall k | 1 <= k < |events| :: events[k] == Act(t)
    ensures Outside(Run(s, events), t) && Run(s, events).log == Admit(s.log, batch)
  {
    var call := Call(t, AdmitJob(batch));
    var s0 := Step(s, call);
    SoloEnters(s, t, AdmitJob(batch));
    var s1 := Run(s0, Acts(t, 2));
    var n := SoloBody(s1, t, batch);
    var s2 := Run(s1, Acts(t, n));
    SoloLeaves(s2, t);
    ActsInTwo(s0, t, 2, n);
    ActsInTwo(s0, t, 2 + n, 2);
    events := [call] + Acts(t, 2 + n + 2);
    assert events[1..] == Acts(t, 2 + n + 2);
  }
}

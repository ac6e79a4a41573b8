/**
  The append-only observation log as one process sees it: a reentrant transaction, appends,
  compaction, and the admission of a batch on top of them.
*/
module JsonlStore {
  import opened Wrappers
  import opened Observations
  import opened Admission
  import opened Sequences

  /** One line of the file: a record, whitespace only, or text that does not validate. */
  datatype Line = Record(o: Observation) | Blank | Malformed(text: string)

  /** The records in file order, or the number of the first line that does not validate. */
  function Parse(lines: seq<Line>): (r: Result<Log, nat>)
  {
    if lines == [] then Ok([])
    else
      var n := |lines| - 1;
      match Parse(lines[..n])
      case Err(at) => Err(at)
      case Ok(log) =>
        match lines[n]
        case Record(o) => Ok(log + [o])
        case Blank => Ok(log)
        case Malformed(_) => Err(n + 1)
  }

  function AsLines(log: Log): (lines: seq<Line>)
    ensures |lines| == |log|
  {
    seq(|log|, k requires 0 <= k < |log| => Record(log[k]))
  }

  lemma ParsePush(lines: seq<Line>, line: Line)
    ensures Parse(lines + [line]) ==
            if Parse(lines).Err? then Parse(lines)
            else if line.Malformed? then Err(|lines| + 1)
            else if line.Blank? then Parse(lines)
            else Ok(Parse(lines).value + [line.o])
  {
    assert (lines + [line])[..|lines|] == lines;
  }

  lemma AsLinesPush(log: Log, o: Observation)
    ensures AsLines(log + [o]) == AsLines(log) + [Record(o)]
  {
  }

  /** Reading back what was written gives the same records. */
  lemma {:induction false} ParseWritten(lines: seq<Line>, log: Log)
    requires Parse(lines).Ok?
    ensures Parse(lines + AsLines(log)) == Ok(Parse(lines).value + log)
  {
    if log == [] {
      assert lines + AsLines(log) == lines;
      assert Parse(lines).value + log == Parse(lines).value;
    } else {
      var n := |log| - 1;
      ParseWritten(lines, log[..n]);
      assert log == log[..n] + [log[n]];
      AsLinesPush(log[..n], log[n]);
      assert lines + AsLines(log) == lines + AsLines(log[..n]) + [Record(log[n])];
      ParsePush(lines + AsLines(log[..n]), Record(log[n]));
      assert Parse(lines).value + log == Parse(lines).value + log[..n] + [log[n]];
    }
  }

  /** An unreadable prefix stays unreadable at the same line. */
  lemma {:induction false} ParseErrorSticks(lines: seq<Line>, n: nat)
    requires n <= |lines| && Parse(lines[..n]).Err?
    ensures Parse(lines) == Parse(lines[..n])
    decreases |lines|
  {
    if n < |lines| {
      var m := |lines| - 1;
      assert lines[..m][..n] == lines[..n];
      ParseErrorSticks(lines[..m], n);
    } else {
      assert lines[..n] == lines;
    }
  }

  /** What reading stops at: the first line that does not validate, counted from 1. */
  lemma {:induction false} ParseFailsAt(lines: seq<Line>, at: nat)
    ensures Parse(lines) == Err(at) <==>
      && 1 <= at <= |lines| && lines[at - 1].Malformed?
      && forall k | 0 <= k < at - 1 :: !lines[k].Malformed?
  {
    if lines != [] {
      var n := |lines| - 1;
      ParseFailsAt(lines[..n], at);
      ParseErrs(lines[..n]);
    }
  }

  lemma {:induction false} ParseErrs(lines: seq<Line>)
    ensures Parse(lines).Err? <==> exists k | 0 <= k < |lines| :: lines[k].Malformed?
  {
    if lines != [] {
      var n := |lines| - 1;
      ParseErrs(lines[..n]);
      if k :| 0 <= k < n && lines[k].Malformed? {
        assert lines[..n][k].Malformed?;
      }
    }
  }

  predicate IsRecord(line: Line) {
    line.Record?
  }

  /** And what it gives otherwise: the record lines, in order. */
  lemma {:induction false} ParseGives(lines: seq<Line>, log: Log)
    requires Parse(lines) == Ok(log)
    ensures AsLines(log) == Filter(IsRecord, lines)
  {
    if lines != [] {
      var n := |lines| - 1;
      assert lines == lines[..n] + [lines[n]];
      ParseGives(lines[..n], Parse(lines[..n]).value);
      FilterAppend(IsRecord, lines[..n], [lines[n]]);
      if lines[n].Record? {
        AsLinesPush(Parse(lines[..n]).value, lines[n].o);
      }
    }
  }

  class JsonlObservationStore {
    var file: Option<seq<Line>>
    var lockDepth: nat
    var lockFd: Option<nat>

    ghost predicate Valid()
      reads this
    {
      lockFd.Some? <==> lockDepth > 0
    }

    function Lines(): seq<Line>
      reads this
    {
      if file.Some? then file.value else []
    }

    /** The transaction's lock state after a balanced enter and exit. */
    twostate predicate LockRestored()
      reads this
    {
      && Valid()
      && lockDepth == old(lockDepth)
      && (lockDepth > 0 ==> lockFd == old(lockFd))
    }

    constructor ()
      ensures Valid() && Lines() == [] && lockDepth == 0
    {
      file, lockDepth, lockFd := None, 0, None;
    }

    /** Only the outermost entry opens and locks the lock file. */
    method Enter()
      requires Valid()
      modifies this`lockDepth, this`lockFd
      ensures Valid() && lockDepth == old(lockDepth) + 1
      ensures old(lockDepth) > 0 ==> lockFd == old(lockFd)
    {
      if lockDepth == 0 {
        var descriptor: nat := *;
        lockFd := Some(descriptor);
      }
      lockDepth := lockDepth + 1;
    }

    /** Only the outermost exit unlocks it. */
    method Exit()
      requires Valid() && lockDepth > 0
      modifies this`lockDepth, this`lockFd
      ensures Valid() && lockDepth == old(lockDepth) - 1
      ensures lockDepth > 0 ==> lockFd == old(lockFd)
    {
      lockDepth := lockDepth - 1;
      if lockDepth == 0 && lockFd.Some? {
        lockFd := None;
      }
    }

    method Append(o: Observation)
      requires Valid()
      modifies this
      ensures Lines() == old(Lines()) + [Record(o)] && file.Some?
      ensures LockRestored()
    {
      Enter();
      file := Some(Lines() + [Record(o)]);
      Exit();
    }

    method ReadObservations() returns (r: Result<Log, nat>)
      ensures r == Parse(Lines())
    {
      if file.None? {
        return Ok([]);
      }
      var lines := file.value;
      var log: Log := [];
      for k := 0 to |lines|
        invariant Parse(lines[..k]) == Ok(log)
      {
        assert lines[..k + 1] == lines[..k] + [lines[k]];
        ParsePush(lines[..k], lines[k]);
        match lines[k] {
          case Blank =>
          case Record(o) => log := log + [o];
          case Malformed(_) =>
            ParseErrorSticks(lines, k + 1);
            return Err(k + 1);
        }
      }
      assert lines[..|lines|] == lines;
      return Ok(log);
    }

    /** Rewrites the file without its blank lines; the record sequence is unchanged. */
    method CompactAtomically() returns (r: Result<(), nat>)
      requires Valid()
      modifies this
      ensures LockRestored()
      ensures old(Parse(Lines())).Ok? ==>
        r.Ok? && file == Some(AsLines(old(Parse(Lines())).value)) && Parse(Lines()) == old(Parse(Lines()))
      ensures old(Parse(Lines())).Err? ==> r == Err(old(Parse(Lines())).error) && file == old(file)
    {
      Enter();
      var records := ReadObservations();
      if records.Err? {
        Exit();
        return Err(records.error);
      }
      var temporary: seq<Line> := [];
      for k := 0 to |records.value|
        invariant file == old(file) && lockDepth == old(lockDepth) + 1 && Valid()
        invariant old(lockDepth) > 0 ==> lockFd == old(lockFd)
        invariant temporary == AsLines(records.value[..k])
      {
        AsLinesPush(records.value[..k], records.value[k]);
        assert records.value[..k + 1] == records.value[..k] + [records.value[k]];
        temporary := temporary + [Record(records.value[k])];
      }
      assert records.value[..|records.value|] == records.value;
      ParseWritten([], records.value);
      assert [] + temporary == temporary;
      assert [] + records.value == records.value;
      file := Some(temporary);
      Exit();
      return Ok(());
    }
  }

  datatype AdmissionError = Unreadable(line: nat) | Conflict(id: Uuid)

  /** The id reported is that of the first record of the batch that conflicts. */
  ghost predicate FirstConflict(log: Log, batch: Log, id: Uuid) {
    exists k | 0 <= k < |batch| ::
      batch[k].id == id && Admissible(log, batch[..k]) && !Admissible(log, batch[..k + 1])
  }

  lemma AdmitNext(log: Log, batch: Log, k: nat)
    requires k < |batch|
    ensures var o, before := batch[k], After(log, batch[..k]);
      && After(log, batch[..k + 1]) == (if o.id in Index(before) then before else before + [o])
      && (Admissible(log, batch[..k + 1])
          <==> Admissible(log, batch[..k])
               && (o.id in Index(before) ==> ContentOf(Index(before)[o.id]) == ContentOf(o)))
  {
    assert batch[..k + 1] == batch[..k] + [batch[k]];
    AdmitInTurn(log, batch[..k], [batch[k]]);
    var before, one := After(log, batch[..k]), [batch[k]];
    assert one[1..] == [];
    assert Admissible(before, one[1..]) && After(before, one[1..]) == before;
    assert After(before + [batch[k]], one[1..]) == before + [batch[k]];
  }

  lemma ConflictPersists(log: Log, batch: Log, k: nat)
    requires k <= |batch| && !Admissible(log, batch[..k])
    ensures !Admissible(log, batch)
  {
    assert batch == batch[..k] + batch[k..];
    AdmitInTurn(log, batch[..k], batch[k..]);
  }

  lemma SameTail(log: Log, a: Log, b: Log)
    requires log + a == log + b
    ensures a == b
  {
    assert (log + a)[|log|..] == a;
    assert (log + b)[|log|..] == b;
  }

  /** One more fresh record, seen by the dictionary and by the records to append. */
  lemma PassGrows(log: Log, batch: Log, k: nat, toAppend: Log)
    requires k < |batch| && After(log, batch[..k]) == log + toAppend
    requires batch[k].id !in Index(log + toAppend) && Admissible(log, batch[..k])
    ensures Admissible(log, batch[..k + 1])
    ensures After(log, batch[..k + 1]) == log + (toAppend + [batch[k]])
    ensures Index(log + (toAppend + [batch[k]])) == Index(log + toAppend)[batch[k].id := batch[k]]
  {
    AdmitNext(log, batch, k);
    IndexPush(log + toAppend, batch[k]);
    assert log + (toAppend + [batch[k]]) == log + toAppend + [batch[k]];
  }

  lemma PassEnds(log: Log, batch: Log, toAppend: Log)
    requires After(log, batch) == log + toAppend
    ensures toAppend == Fresh(log, batch)
  {
    AfterAppendsFresh(log, batch);
    SameTail(log, toAppend, Fresh(log, batch));
  }

  /** The dictionary pass over a batch: what to append, or the id that conflicts. */
  method CheckBatch(log: Log, batch: Log) returns (r: Result<Log, Uuid>)
    ensures r.Ok? <==> Admissible(log, batch)
    ensures r.Ok? ==> r.value == Fresh(log, batch)
    ensures r.Err? ==> FirstConflict(log, batch, r.error)
  {
    var existing := Index(log);
    var toAppend: Log := [];
    assert log + toAppend == log;
    for k := 0 to |batch|
      invariant existing == Index(log + toAppend)
      invariant After(log, batch[..k]) == log + toAppend
      invariant Admissible(log, batch[..k])
    {
      var o := batch[k];
      if o.id !in existing {
        PassGrows(log, batch, k, toAppend);
        existing := existing[o.id := o];
        toAppend := toAppend + [o];
      } else {
        AdmitNext(log, batch, k);
        if ContentOf(existing[o.id]) != ContentOf(o) {
          ConflictPersists(log, batch, k + 1);
          return Err(o.id);
        }
      }
    }
    assert batch[..|batch|] == batch;
    PassEnds(log, batch, toAppend);
    return Ok(toAppend);
  }

  /**
    Check the whole batch, then append what is new, all inside one transaction. Every exit
    leaves the lock as it was found; every refusal leaves the file as it was found.
  */
  method AdmitObservations(store: JsonlObservationStore, batch: Log) returns (r: Result<(), AdmissionError>)
    requires store.Valid()
    modifies store
    ensures store.LockRestored()
    ensures old(Parse(store.Lines())).Err? ==>
      r == Err(Unreadable(old(Parse(store.Lines())).error)) && store.file == old(store.file)
    ensures old(Parse(store.Lines())).Ok? ==>
      var log := old(Parse(store.Lines())).value;
      && (r.Ok? <==> Admissible(log, batch))
      && Parse(store.Lines()) == Ok(Admit(log, batch))
      && (r.Ok? ==> store.Lines() == old(store.Lines()) + AsLines(Fresh(log, batch)))
      && (r.Err? ==> store.file == old(store.file) && r.error.Conflict? && FirstConflict(log, batch, r.error.id))
    ensures old(Parse(store.Lines())).Ok? ==>
      var log := old(Parse(store.Lines())).value;
      forall i, k | 0 <= i < |log| && 0 <= k < |batch| && Contradicts(log[i], batch[k]) &&
                    (forall j | i < j < |log| :: log[j].id != log[i].id) ::
        r.Err? && store.file == old(store.file)
  {
    store.Enter();
    var records := store.ReadObservations();
    if records.Err? {
      store.Exit();
      return Err(Unreadable(records.error));
    }
    var checked := CheckBatch(records.value, batch);
    forall i, k | 0 <= i < |records.value| && 0 <= k < |batch| && Contradicts(records.value[i], batch[k]) &&
                  (forall j | i < j < |records.value| :: records.value[j].id != records.value[i].id)
      ensures !Admissible(records.value, batch)
    {
      ContradictionRefuses(records.value, batch, i, k);
    }
    if checked.Err? {
      store.Exit();
      return Err(Conflict(checked.error));
    }
    AppendAll(store, checked.value);
    ParseWritten(old(store.Lines()), checked.value);
    AfterAppendsFresh(records.value, batch);
    store.Exit();
    return Ok(());
  }

  method AppendAll(store: JsonlObservationStore, toAppend: Log)
    requires store.Valid() && store.lockDepth > 0
    modifies store
    ensures store.LockRestored()
    ensures store.Lines() == old(store.Lines()) + AsLines(toAppend)
  {
    for k := 0 to |toAppend|
      invariant store.LockRestored()
      invariant store.Lines() == old(store.Lines()) + AsLines(toAppend[..k])
    {
      AsLinesPush(toAppend[..k], toAppend[k]);
      assert toAppend[..k + 1] == toAppend[..k] + [toAppend[k]];
      store.Append(toAppend[k]);
    }
    assert toAppend[..|toAppend|] == toAppend;
  }
}

/**
  The provider's GRIB index: one line a message, from which inclusive byte ranges are derived.
  An accepted index tiles its object, and printing its entries and parsing again changes nothing.
*/
module GribIndex {
  import opened Wrappers
  import opened Collecting
  import opened Sequences
  import opened Text

  datatype ParsedLine = ParsedLine(number: int, offset: int, fields: seq<string>, rawDescriptor: string)

  datatype Entry = Entry(
    number: int,
    offset: int,
    fields: seq<string>,
    rawDescriptor: string,
    byteStart: int,
    byteEnd: int)

  datatype IndexError =
    | BadObjectSize
    | NoEntries
    | InvalidEntry(line: nat)
    | NonInteger(line: nat)
    | NonPositiveNumber(line: nat)
    | NegativeOffset(line: nat)
    | NoDescriptor(line: nat)
    | NumbersNotIncreasing(line: nat)
    | NumbersNotConsecutive(line: nat)
    | OffsetsNotIncreasing(line: nat)
    | OffsetOutsideObject(line: nat)
    | EmptyRange(number: int)

  function Length(e: Entry): int {
    e.byteEnd - e.byteStart + 1
  }

  // ---------------------------------------------------------------- one line

  function StrippedParts(parts: seq<string>): (r: seq<string>)
    ensures |r| == |parts|
  {
    if parts == [] then [] else [Strip(parts[0], IsSpace)] + StrippedParts(parts[1..])
  }

  function DropTrailingEmpty(parts: seq<string>): (r: seq<string>)
    ensures r <= parts
    ensures r == [] || r[|r| - 1] != ""
  {
    if parts != [] && parts[|parts| - 1] == "" then DropTrailingEmpty(parts[..|parts| - 1]) else parts
  }

  predicate IsNonEmpty(s: string) {
    s != ""
  }

  /** The entry that the colon-separated parts of line n describe. */
  function PartsEntry(parts: seq<string>, n: nat): Result<ParsedLine, IndexError> {
    if |parts| < 3 then Err(InvalidEntry(n))
    else
      var number, offset := ParseInt(parts[0]), ParseInt(parts[1]);
      if number.None? || offset.None? then Err(NonInteger(n))
      else if number.value <= 0 then Err(NonPositiveNumber(n))
      else if offset.value < 0 then Err(NegativeOffset(n))
      else
        var fields := Filter(IsNonEmpty, parts[2..]);
        if fields == [] then Err(NoDescriptor(n))
        else Ok(ParsedLine(number.value, offset.value, fields, Join(fields, ':')))
  }

  function LineEntry(line: string, n: nat): Result<ParsedLine, IndexError> {
    PartsEntry(DropTrailingEmpty(StrippedParts(Split(line, ':'))), n)
  }

  method ParseLine(line: string, n: nat) returns (r: Result<ParsedLine, IndexError>)
    ensures r == LineEntry(line, n)
  {
    var parts := StrippedParts(Split(line, ':'));
    while parts != [] && parts[|parts| - 1] == ""
      invariant DropTrailingEmpty(parts) == DropTrailingEmpty(StrippedParts(Split(line, ':')))
    {
      parts := parts[..|parts| - 1];
    }
    r := PartsEntry(parts, n);
  }

  // ---------------------------------------------------------------- the whole index

  /** Every line break as the one that lines are split at; blank lines are dropped anyway. */
  function Unbroken(text: string): (r: string)
    ensures |r| == |text|
  {
    seq(|text|, i requires 0 <= i < |text| => if IsLineBreak(text[i]) then '\n' else text[i])
  }

  function SourceLines(text: string): seq<string> {
    Filter(IsNonEmpty, StrippedParts(Split(Unbroken(text), '\n')))
  }

  /** Each line as what it parses to; lines are numbered from 1. */
  function Numbered<S, T>(lines: seq<S>, parse: (S, nat) -> T): (r: seq<T>)
    ensures |r| == |lines|
  {
    seq(|lines|, i requires 0 <= i < |lines| => parse(lines[i], i + 1))
  }

  function ParsedLines(lines: seq<string>): Result<seq<ParsedLine>, IndexError> {
    Collect(Numbered(lines, LineEntry))
  }

  /** The first fault in numbering or offsets at or after item i. */
  function OrderFault(parsed: seq<ParsedLine>, objectSize: int, i: nat): Option<IndexError>
    requires i <= |parsed|
    decreases |parsed| - i
  {
    if i == |parsed| then None
    else if i > 0 && parsed[i].number <= parsed[i - 1].number then Some(NumbersNotIncreasing(i + 1))
    else if i > 0 && parsed[i].number != parsed[i - 1].number + 1 then Some(NumbersNotConsecutive(i + 1))
    else if parsed[i].offset <= if i > 0 then parsed[i - 1].offset else -1 then Some(OffsetsNotIncreasing(i + 1))
    else if parsed[i].offset >= objectSize then Some(OffsetOutsideObject(i + 1))
    else OrderFault(parsed, objectSize, i + 1)
  }

  function NextOffset(parsed: seq<ParsedLine>, objectSize: int, i: nat): int
    requires i < |parsed|
  {
    if i + 1 < |parsed| then parsed[i + 1].offset else objectSize
  }

  function EntryOf(item: ParsedLine, byteEnd: int): Entry {
    Entry(item.number, item.offset, item.fields, item.rawDescriptor, item.offset, byteEnd)
  }

  /** The entries from item i on, each ending where the next begins. */
  function Ranges(parsed: seq<ParsedLine>, objectSize: int, i: nat): Result<seq<Entry>, IndexError>
    requires i <= |parsed|
    decreases |parsed| - i
  {
    if i == |parsed| then Ok([])
    else
      var byteEnd := NextOffset(parsed, objectSize, i) - 1;
      if byteEnd < parsed[i].offset then Err(EmptyRange(parsed[i].number))
      else
        match Ranges(parsed, objectSize, i + 1)
        case Err(e) => Err(e)
        case Ok(rest) => Ok([EntryOf(parsed[i], byteEnd)] + rest)
  }

  function IndexOfLines(lines: seq<string>, objectSize: int): Result<seq<Entry>, IndexError> {
    if lines == [] then Err(NoEntries)
    else
      match ParsedLines(lines)
      case Err(e) => Err(e)
      case Ok(parsed) =>
        match OrderFault(parsed, objectSize, 0)
        case Some(fault) => Err(fault)
        case None => Ranges(parsed, objectSize, 0)
  }

  function Index(text: string, objectSize: int): Result<seq<Entry>, IndexError> {
    if objectSize <= 0 then Err(BadObjectSize) else IndexOfLines(SourceLines(text), objectSize)
  }

  method ParseLines(lines: seq<string>) returns (r: Result<seq<ParsedLine>, IndexError>)
    ensures r == ParsedLines(lines)
  {
    ghost var results := Numbered(lines, LineEntry);
    assert results[0..] == results;
    AfterNothing(Collect(results));
    var parsed: seq<ParsedLine> := [];
    for i := 0 to |lines|
      invariant Collect(results) == After(parsed, Collect(results[i..]))
    {
      var item := ParseLine(lines[i], i + 1);
      CollectStep(results, parsed, i);
      if item.Err? {
        return Err(item.error);
      }
      parsed := parsed + [item.value];
    }
    assert parsed + [] == parsed;
    r := Ok(parsed);
  }

  /** One pass with the previous message and offset in hand. */
  method CheckOrder(parsed: seq<ParsedLine>, objectSize: int) returns (fault: Option<IndexError>)
    ensures fault == OrderFault(parsed, objectSize, 0)
  {
    var previousMessage: Option<int> := None;
    var previousOffset := -1;
    for i := 0 to |parsed|
      invariant previousMessage == if i == 0 then None else Some(parsed[i - 1].number)
      invariant previousOffset == if i == 0 then -1 else parsed[i - 1].offset
      invariant OrderFault(parsed, objectSize, 0) == OrderFault(parsed, objectSize, i)
    {
      var item := parsed[i];
      if previousMessage.Some? {
        if item.number <= previousMessage.value {
          return Some(NumbersNotIncreasing(i + 1));
        }
        if item.number != previousMessage.value + 1 {
          return Some(NumbersNotConsecutive(i + 1));
        }
      }
      if item.offset <= previousOffset {
        return Some(OffsetsNotIncreasing(i + 1));
      }
      if item.offset >= objectSize {
        return Some(OffsetOutsideObject(i + 1));
      }
      previousMessage := Some(item.number);
      previousOffset := item.offset;
    }
    fault := None;
  }

  method DeriveRanges(parsed: seq<ParsedLine>, objectSize: int) returns (r: Result<seq<Entry>, IndexError>)
    ensures r == Ranges(parsed, objectSize, 0)
  {
    var entries: seq<Entry> := [];
    AfterNothing(Ranges(parsed, objectSize, 0));
    for i := 0 to |parsed|
      invariant Ranges(parsed, objectSize, 0) == After(entries, Ranges(parsed, objectSize, i))
    {
      var nextOffset := if i + 1 < |parsed| then parsed[i + 1].offset else objectSize;
      var byteEnd := nextOffset - 1;
      if byteEnd < parsed[i].offset {
        return Err(EmptyRange(parsed[i].number));
      }
      var entry := EntryOf(parsed[i], byteEnd);
      AfterOneMore(entries, entry, Ranges(parsed, objectSize, i + 1));
      entries := entries + [entry];
    }
    assert entries + [] == entries;
    r := Ok(entries);
  }

  method ParseGribIndex(text: string, objectSize: int) returns (r: Result<seq<Entry>, IndexError>)
    ensures r == Index(text, objectSize)
  {
    if objectSize <= 0 {
      return Err(BadObjectSize);
    }
    var lines := SourceLines(text);
    if lines == [] {
      return Err(NoEntries);
    }
    var parsed := ParseLines(lines);
    if parsed.Err? {
      return Err(parsed.error);
    }
    var fault := CheckOrder(parsed.value, objectSize);
    if fault.Some? {
      return Err(fault.value);
    }
    r := DeriveRanges(parsed.value, objectSize);
  }

  // ---------------------------------------------------------------- the ranges tile the object

  /** Item k lies inside the object and continues the one before it. */
  ghost predicate Continues(parsed: seq<ParsedLine>, objectSize: int, k: int)
    requires 0 <= k < |parsed|
  {
    && 0 <= parsed[k].offset < objectSize
    && (k > 0 ==> parsed[k].number == parsed[k - 1].number + 1 && parsed[k - 1].offset < parsed[k].offset)
  }

  ghost predicate InOrder(parsed: seq<ParsedLine>, objectSize: int, i: nat) {
    forall k {:trigger Continues(parsed, objectSize, k)} | i <= k < |parsed| :: Continues(parsed, objectSize, k)
  }

  /** No fault from i on is exactly: consecutive numbers, increasing offsets, all inside the object. */
  lemma {:induction false} NoFaultIffInOrder(parsed: seq<ParsedLine>, objectSize: int, i: nat)
    requires i <= |parsed| && forall k | 0 <= k < |parsed| :: parsed[k].offset >= 0
    ensures OrderFault(parsed, objectSize, i).None? <==> InOrder(parsed, objectSize, i)
    decreases |parsed| - i
  {
    if i < |parsed| {
      NoFaultIffInOrder(parsed, objectSize, i + 1);
      assert InOrder(parsed, objectSize, i) <==>
          Continues(parsed, objectSize, i) && InOrder(parsed, objectSize, i + 1);
    }
  }

  /** What item k of a list in order becomes. */
  ghost predicate EntryFor(parsed: seq<ParsedLine>, objectSize: int, k: int, entry: Entry) {
    0 <= k < |parsed| && entry == EntryOf(parsed[k], NextOffset(parsed, objectSize, k) - 1)
  }

  lemma RangeIsNotEmpty(parsed: seq<ParsedLine>, objectSize: int, k: nat)
    requires k < |parsed| && InOrder(parsed, objectSize, 0)
    ensures 0 <= parsed[k].offset < NextOffset(parsed, objectSize, k) <= objectSize
  {
    assert Continues(parsed, objectSize, k);
    if k + 1 < |parsed| {
      assert Continues(parsed, objectSize, k + 1);
    }
  }

  /** Items in order get one entry each; the check for an empty range is never taken. */
  lemma {:induction false} RangesExist(parsed: seq<ParsedLine>, objectSize: int, i: nat, entries: seq<Entry>)
    requires i <= |parsed| && InOrder(parsed, objectSize, 0)
    ensures Ranges(parsed, objectSize, i).Ok?
    ensures Ranges(parsed, objectSize, i) == Ok(entries) ==>
      |entries| == |parsed| - i && forall j | 0 <= j < |entries| :: EntryFor(parsed, objectSize, i + j, entries[j])
    decreases |parsed| - i
  {
    if i < |parsed| {
      RangeIsNotEmpty(parsed, objectSize, i);
      RangesExist(parsed, objectSize, i + 1, if entries == [] then [] else entries[1..]);
      if Ranges(parsed, objectSize, i) == Ok(entries) {
        forall j | 0 <= j < |entries|
          ensures EntryFor(parsed, objectSize, i + j, entries[j])
        {
          if j > 0 {
            assert EntryFor(parsed, objectSize, (i + 1) + (j - 1), entries[1..][j - 1]);
          }
        }
      }
    }
  }

  /** Line k (counted from 0) reads as this item. */
  ghost predicate ReadsAs(lines: seq<string>, k: int, item: ParsedLine) {
    && 0 <= k < |lines|
    && LineEntry(lines[k], k + 1) == Ok(item)
    && item.number > 0
    && item.offset >= 0
  }

  lemma EntryIsPositive(line: string, n: nat, item: ParsedLine)
    requires LineEntry(line, n) == Ok(item)
    ensures item.number > 0 && item.offset >= 0
  {
  }

  lemma LineRead(lines: seq<string>, parsed: seq<ParsedLine>, k: nat)
    requires ParsedLines(lines) == Ok(parsed) && k < |lines|
    ensures |parsed| == |lines| && ReadsAs(lines, k, parsed[k])
  {
    CollectedAt(Numbered(lines, LineEntry), parsed, k);
    EntryIsPositive(lines[k], k + 1, parsed[k]);
  }

  lemma LinesRead(lines: seq<string>, parsed: seq<ParsedLine>)
    requires ParsedLines(lines) == Ok(parsed)
    ensures |parsed| == |lines| && forall k | 0 <= k < |parsed| :: ReadsAs(lines, k, parsed[k])
  {
    Collected(Numbered(lines, LineEntry), parsed);
    forall k | 0 <= k < |parsed|
      ensures ReadsAs(lines, k, parsed[k])
    {
      LineRead(lines, parsed, k);
    }
  }

  /** An accepted index, seen from its parsed lines. */
  lemma AcceptedForm(text: string, objectSize: int, entries: seq<Entry>)
    returns (lines: seq<string>, parsed: seq<ParsedLine>)
    requires Index(text, objectSize) == Ok(entries)
    ensures lines == SourceLines(text) && lines != [] && |parsed| == |lines| == |entries|
    ensures ParsedLines(lines) == Ok(parsed)
    ensures forall k | 0 <= k < |parsed| :: ReadsAs(lines, k, parsed[k])
    ensures objectSize > 0 && InOrder(parsed, objectSize, 0)
    ensures forall k | 0 <= k < |entries| :: EntryFor(parsed, objectSize, k, entries[k])
  {
    lines := SourceLines(text);
    parsed := ParsedLines(lines).value;
    LinesRead(lines, parsed);
    NoFaultIffInOrder(parsed, objectSize, 0);
    RangesExist(parsed, objectSize, 0, entries);
    forall k | 0 <= k < |entries|
      ensures EntryFor(parsed, objectSize, k, entries[k])
    {
      assert EntryFor(parsed, objectSize, 0 + k, entries[k]);
    }
  }

  /** Entry k starts where the one before it ends and has at least one byte. */
  ghost predicate Abuts(entries: seq<Entry>, k: int)
    requires 0 <= k < |entries|
  {
    && entries[k].byteStart <= entries[k].byteEnd
    && (k > 0 ==> entries[k].byteStart == entries[k - 1].byteEnd + 1)
  }

  /** Ranges that start at `first`, follow one another without gap or overlap, and end before `stop`. */
  ghost predicate Tiles(entries: seq<Entry>, first: int, stop: int) {
    && entries != []
    && entries[0].byteStart == first
    && entries[|entries| - 1].byteEnd == stop - 1
    && forall k {:trigger Abuts(entries, k)} | 0 <= k < |entries| :: Abuts(entries, k)
  }

  lemma {:induction false} NumbersCount(parsed: seq<ParsedLine>, objectSize: int, k: nat)
    requires InOrder(parsed, objectSize, 0) && k < |parsed|
    ensures parsed[k].number == parsed[0].number + k
  {
    if k > 0 {
      NumbersCount(parsed, objectSize, k - 1);
      assert Continues(parsed, objectSize, k);
    }
  }

  /** An accepted index tiles the object from its first offset to the end, numbered consecutively. */
  lemma AcceptedIndexTiles(text: string, objectSize: int, entries: seq<Entry>)
    requires Index(text, objectSize) == Ok(entries)
    ensures entries != [] && Tiles(entries, entries[0].offset, objectSize)
    ensures forall k | 0 <= k < |entries| :: entries[k].number == entries[0].number + k
    ensures forall k | 0 <= k < |entries| :: 0 <= entries[k].byteStart <= entries[k].byteEnd < objectSize
  {
    var lines, parsed := AcceptedForm(text, objectSize, entries);
    forall k | 0 <= k < |entries|
      ensures 0 <= entries[k].byteStart <= entries[k].byteEnd < objectSize
      ensures entries[k].number == entries[0].number + k
      ensures Abuts(entries, k)
    {
      assert EntryFor(parsed, objectSize, k, entries[k]);
      assert EntryFor(parsed, objectSize, 0, entries[0]);
      RangeIsNotEmpty(parsed, objectSize, k);
      NumbersCount(parsed, objectSize, k);
      if k > 0 {
        assert EntryFor(parsed, objectSize, k - 1, entries[k - 1]);
      }
    }
    assert EntryFor(parsed, objectSize, |entries| - 1, entries[|entries| - 1]);
  }

  ghost predicate Covers(e: Entry, byte: int) {
    e.byteStart <= byte <= e.byteEnd
  }

  lemma {:induction false} LaterStartsLater(entries: seq<Entry>, first: int, stop: int, i: nat, j: nat)
    requires Tiles(entries, first, stop) && i < j < |entries|
    ensures entries[i].byteEnd < entries[j].byteStart
    decreases j
  {
    assert Abuts(entries, j) && Abuts(entries, j - 1);
    if i + 1 < j {
      LaterStartsLater(entries, first, stop, i, j - 1);
    }
  }

  lemma {:induction false} CoveringFrom(entries: seq<Entry>, first: int, stop: int, byte: int, k: nat) returns (i: nat)
    requires Tiles(entries, first, stop) && k < |entries| && entries[k].byteStart <= byte < stop
    ensures i < |entries| && Covers(entries[i], byte)
    decreases |entries| - k
  {
    if byte <= entries[k].byteEnd {
      i := k;
    } else {
      if k + 1 < |entries| {
        assert Abuts(entries, k + 1);
      }
      i := CoveringFrom(entries, first, stop, byte, k + 1);
    }
  }

  /** Each byte from the first offset to the end of the object is in exactly one entry. */
  lemma EachByteInOneEntry(entries: seq<Entry>, first: int, stop: int, byte: int) returns (i: nat)
    requires Tiles(entries, first, stop) && first <= byte < stop
    ensures i < |entries| && Covers(entries[i], byte)
    ensures forall j | 0 <= j < |entries| && Covers(entries[j], byte) :: j == i
  {
    i := CoveringFrom(entries, first, stop, byte, 0);
    forall j | 0 <= j < |entries| && Covers(entries[j], byte)
      ensures j == i
    {
      if j < i {
        LaterStartsLater(entries, first, stop, j, i);
      } else if i < j {
        LaterStartsLater(entries, first, stop, i, j);
      }
    }
  }

  function TotalLength(entries: seq<Entry>): int {
    if entries == [] then 0 else Length(entries[0]) + TotalLength(entries[1..])
  }

  /** The bytes of an entry. */
  function Slice(payload: Bytes, e: Entry): Bytes
    requires 0 <= e.byteStart <= e.byteEnd < |payload|
  {
    payload[e.byteStart..e.byteEnd + 1]
  }

  function Slices(payload: Bytes, entries: seq<Entry>): Bytes
    requires forall k | 0 <= k < |entries| :: 0 <= entries[k].byteStart <= entries[k].byteEnd < |payload|
  {
    if entries == [] then [] else Slice(payload, entries[0]) + Slices(payload, entries[1..])
  }

  lemma TilesRest(entries: seq<Entry>, first: int, stop: int)
    requires Tiles(entries, first, stop) && |entries| > 1
    ensures Tiles(entries[1..], entries[0].byteEnd + 1, stop)
  {
    assert Abuts(entries, 1);
    forall k | 0 <= k < |entries[1..]|
      ensures Abuts(entries[1..], k)
    {
      assert Abuts(entries, k + 1);
    }
  }

  lemma {:induction false} LengthsAddUp(entries: seq<Entry>, first: int, stop: int)
    requires Tiles(entries, first, stop)
    ensures TotalLength(entries) == stop - first
  {
    if |entries| > 1 {
      TilesRest(entries, first, stop);
      LengthsAddUp(entries[1..], entries[0].byteEnd + 1, stop);
    } else {
      assert entries[1..] == [];
    }
  }

  lemma TailSplit(payload: Bytes, first: nat, next: nat)
    requires first <= next <= |payload|
    ensures payload[first..] == payload[first..next] + payload[next..]
  {
  }

  /** Fetching every entry's slice and putting them together gives back the object's tail. */
  lemma {:induction false} SlicesReassemble(payload: Bytes, entries: seq<Entry>, first: int)
    requires Tiles(entries, first, |payload|) && first >= 0
    requires forall k | 0 <= k < |entries| :: 0 <= entries[k].byteStart <= entries[k].byteEnd < |payload|
    ensures Slices(payload, entries) == payload[first..]
  {
    if |entries| > 1 {
      var next := entries[0].byteEnd + 1;
      TilesRest(entries, first, |payload|);
      SlicesReassemble(payload, entries[1..], next);
      TailSplit(payload, first, next);
    } else {
      assert entries[1..] == [];
    }
  }

  // ---------------------------------------------------------------- checks that never fail

  /** Once trailing empty parts are gone, a line long enough always has a descriptor. */
  lemma DescriptorAlwaysPresent(line: string, n: nat)
    ensures forall e :: LineEntry(line, n) == Err(e) ==> !e.EmptyRange? && !e.NoDescriptor?
  {
    PartsHaveDescriptor(DropTrailingEmpty(StrippedParts(Split(line, ':'))), n);
  }

  lemma PartsHaveDescriptor(parts: seq<string>, n: nat)
    requires parts == [] || parts[|parts| - 1] != ""
    ensures forall e :: PartsEntry(parts, n) == Err(e) ==> !e.EmptyRange? && !e.NoDescriptor?
  {
    if |parts| >= 3 {
      var tail := parts[2..];
      FilterMembers(IsNonEmpty, tail, tail[|tail| - 1]);
    }
  }

  lemma FirstFault<S, T>(lines: seq<S>, parse: (S, nat) -> Result<T, IndexError>) returns (k: nat)
    requires Collect(Numbered(lines, parse)).Err?
    ensures k < |lines| && parse(lines[k], k + 1) == Err(Collect(Numbered(lines, parse)).error)
  {
    var results := Numbered(lines, parse);
    CollectedError(results);
    k :| 0 <= k < |results| && results[k] == Err(Collect(results).error);
  }

  lemma LineFaults(lines: seq<string>)
    ensures ParsedLines(lines).Err? ==>
      !ParsedLines(lines).error.EmptyRange? && !ParsedLines(lines).error.NoDescriptor?
  {
    if ParsedLines(lines).Err? {
      var k := FirstFault(lines, LineEntry);
      DescriptorAlwaysPresent(lines[k], k + 1);
    }
  }

  lemma {:induction false} OrderFaults(parsed: seq<ParsedLine>, objectSize: int, i: nat)
    requires i <= |parsed|
    ensures var fault := OrderFault(parsed, objectSize, i);
      fault.Some? ==> !fault.value.EmptyRange? && !fault.value.NoDescriptor?
    decreases |parsed| - i
  {
    if i < |parsed| {
      OrderFaults(parsed, objectSize, i + 1);
    }
  }

  /** Neither an empty byte range nor a missing descriptor is ever reported, for any text. */
  lemma UnreachableChecks(text: string, objectSize: int)
    ensures var r := Index(text, objectSize);
      r.Err? ==> !r.error.EmptyRange? && !r.error.NoDescriptor?
  {
    var lines := SourceLines(text);
    LineFaults(lines);
    if ParsedLines(lines).Ok? {
      var parsed := ParsedLines(lines).value;
      LinesRead(lines, parsed);
      OrderFaults(parsed, objectSize, 0);
      NoFaultIffInOrder(parsed, objectSize, 0);
      if OrderFault(parsed, objectSize, 0).None? {
        RangesExist(parsed, objectSize, 0, []);
      }
    }
  }
}

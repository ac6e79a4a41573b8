/**
  A line of the GRIB index in terms of its own pieces: which lines are accepted, as what, and that
  colons and blanks at the end of a line make no difference.
*/
module GribLines {
  import opened GribIndex
  import opened GribReparse
  import opened Sequences
  import opened Text
  import opened Wrappers

  /** The text between colons, stripped. */
  function Pieces(line: string): (r: seq<string>)
    ensures |r| >= 1
  {
    StrippedParts(Split(line, ':'))
  }

  lemma {:induction false} PieceAt(parts: seq<string>, k: nat)
    requires k < |parts|
    ensures StrippedParts(parts)[k] == Strip(parts[k], IsSpace)
  {
    if k > 0 {
      PieceAt(parts[1..], k - 1);
    }
  }

  // ---------------------------------------------------------------- what is dropped

  /** A prefix without an empty end, and nothing but empty parts after it. */
  lemma {:induction false} DroppedAreEmpty(parts: seq<string>)
    ensures var kept := DropTrailingEmpty(parts);
      forall k | |kept| <= k < |parts| :: parts[k] == ""
  {
    if parts != [] && parts[|parts| - 1] == "" {
      DroppedAreEmpty(parts[..|parts| - 1]);
    }
  }

  lemma {:induction false} NoneNonEmpty(parts: seq<string>)
    requires forall k | 0 <= k < |parts| :: parts[k] == ""
    ensures Filter(IsNonEmpty, parts) == []
  {
    if parts != [] {
      NoneNonEmpty(parts[1..]);
    }
  }

  /** Dropping loses no descriptor. */
  lemma FieldsAreKept(parts: seq<string>)
    requires |DropTrailingEmpty(parts)| >= 3
    ensures Filter(IsNonEmpty, DropTrailingEmpty(parts)[2..]) == Filter(IsNonEmpty, parts[2..])
  {
    var kept := DropTrailingEmpty(parts);
    DroppedAreEmpty(parts);
    assert parts[2..] == kept[2..] + parts[|kept|..];
    FilterAppend(IsNonEmpty, kept[2..], parts[|kept|..]);
    NoneNonEmpty(parts[|kept|..]);
  }

  /** The line has something to say: a piece after the first two that is not empty. */
  ghost predicate HasDescriptor(pieces: seq<string>) {
    exists k | 2 <= k < |pieces| :: pieces[k] != ""
  }

  lemma KeptLength(parts: seq<string>)
    ensures |DropTrailingEmpty(parts)| >= 3 <==> HasDescriptor(parts)
  {
    var kept := DropTrailingEmpty(parts);
    DroppedAreEmpty(parts);
    if |kept| >= 3 {
      assert parts[|kept| - 1] == kept[|kept| - 1];
    }
  }

  // ---------------------------------------------------------------- which lines are accepted

  /** A line is refused for the first of these reasons that applies. */
  lemma LineFaultIs(line: string, n: nat)
    ensures var r, pieces := LineEntry(line, n), Pieces(line);
      if !HasDescriptor(pieces) then r == Err(InvalidEntry(n))
      else if ParseInt(pieces[0]).None? || ParseInt(pieces[1]).None? then r == Err(NonInteger(n))
      else if ParseInt(pieces[0]).value <= 0 then r == Err(NonPositiveNumber(n))
      else if ParseInt(pieces[1]).value < 0 then r == Err(NegativeOffset(n))
      else r.Ok?
  {
    var pieces := Pieces(line);
    KeptLength(pieces);
    if HasDescriptor(pieces) {
      var kept := DropTrailingEmpty(pieces);
      assert kept[0] == pieces[0] && kept[1] == pieces[1];
      PartsHaveDescriptor(kept, n);
    }
  }

  /** An accepted line gives its first two pieces as numbers and all its other non-empty pieces, in order. */
  lemma LineFields(line: string, n: nat, item: ParsedLine)
    requires LineEntry(line, n) == Ok(item)
    ensures var pieces := Pieces(line);
      && |pieces| >= 3
      && ParseInt(pieces[0]) == Some(item.number) && ParseInt(pieces[1]) == Some(item.offset)
      && item.fields == Filter(IsNonEmpty, pieces[2..])
      && item.rawDescriptor == Join(item.fields, ':')
  {
    var pieces := Pieces(line);
    var kept := DropTrailingEmpty(pieces);
    LineFaultIs(line, n);
    KeptLength(pieces);
    FieldsAreKept(pieces);
    assert kept[0] == pieces[0] && kept[1] == pieces[1];
  }

  /** Which lines are accepted. */
  lemma LineAcceptedIff(line: string, n: nat)
    ensures LineEntry(line, n).Ok? <==>
      var pieces := Pieces(line);
      && (exists k | 2 <= k < |pieces| :: pieces[k] != "")
      && ParseInt(pieces[0]).Some? && ParseInt(pieces[0]).value > 0
      && ParseInt(pieces[1]).Some? && ParseInt(pieces[1]).value >= 0
  {
    LineFaultIs(line, n);
  }

  // ---------------------------------------------------------------- the end of a line

  /** A colon, or one of the code points that Python strips. */
  predicate IsPadding(c: char) {
    c as int in {
      0x3A, 0x09, 0x0A, 0x0B, 0x0C, 0x0D, 0x1C, 0x1D, 0x1E, 0x1F, 0x20, 0x85, 0xA0, 0x1680, 0x2000, 0x2001, 0x2002,
      0x2003, 0x2004, 0x2005, 0x2006, 0x2007, 0x2008, 0x2009, 0x200A, 0x2028, 0x2029, 0x202F, 0x205F, 0x3000}
  }

  lemma PaddingIff(c: char)
    ensures IsPadding(c) <==> c == ':' || IsSpace(c)
  {
    assert ':' as int == 0x3A;
    assert c == ':' <==> c as int == 0x3A;
  }

  lemma {:induction false} StrippedAppend(a: seq<string>, b: seq<string>)
    ensures StrippedParts(a + b) == StrippedParts(a) + StrippedParts(b)
  {
    if a == [] {
      assert a + b == b;
    } else {
      assert (a + b)[1..] == a[1..] + b;
      StrippedAppend(a[1..], b);
    }
  }

  lemma PiecesWithColon(line: string)
    ensures Pieces(line + ":") == Pieces(line) + [""]
  {
    SplitEndSeparator(line, ':');
    StrippedAppend(Split(line, ':'), [""]);
    assert StrippedParts([""]) == [""];
  }

  lemma PiecesWithSpace(line: string, c: char)
    requires IsSpace(c)
    ensures Pieces(line + [c]) == Pieces(line)
  {
    var parts := Split(line, ':');
    var front, last := parts[..|parts| - 1], parts[|parts| - 1];
    SplitEndCharacter(line, c, ':');
    StripEndCharacter(last, c, IsSpace);
    StrippedAppend(front, [last]);
    StrippedAppend(front, [last + [c]]);
    assert parts == front + [last];
    assert StrippedParts([last + [c]]) == StrippedParts([last]);
  }

  lemma PaddedOnce(line: string, c: char, n: nat)
    requires IsPadding(c)
    ensures LineEntry(line + [c], n) == LineEntry(line, n)
  {
    PaddingIff(c);
    if c == ':' {
      PiecesWithColon(line);
      var pieces := Pieces(line);
      assert (pieces + [""])[..|pieces|] == pieces;
    } else {
      PiecesWithSpace(line, c);
    }
  }

  /** Any colons and blanks at the end of any line leave what it parses to, errors included. */
  lemma {:induction false} PaddingIsIgnored(line: string, tail: string, n: nat)
    requires forall c | c in tail :: IsPadding(c)
    ensures LineEntry(line + tail, n) == LineEntry(line, n)
    decreases |tail|
  {
    if tail == "" {
      assert line + tail == line;
    } else {
      var front, c := tail[..|tail| - 1], tail[|tail| - 1];
      assert line + tail == (line + front) + [c];
      PaddedOnce(line + front, c, n);
      PaddingIsIgnored(line, front, n);
    }
  }

  /** A printed line parses to its item whatever colons and blanks follow it. */
  lemma PaddedLineReparses(item: ParsedLine, tail: string, n: nat)
    requires item.number > 0 && item.offset >= 0 && PlainFields(item.fields)
    requires item.rawDescriptor == Join(item.fields, ':')
    requires forall c | c in tail :: IsPadding(c)
    ensures LineEntry(PrintLine(item.number, item.offset, item.rawDescriptor) + tail, n) == Ok(item)
  {
    PrintedLineReparses(item, n);
    PaddingIsIgnored(PrintLine(item.number, item.offset, item.rawDescriptor), tail, n);
  }

  // ---------------------------------------------------------------- line breaks

  /** A code point at which Python ends a line. */
  predicate EndsLine(c: char) {
    c as int in {0x0A, 0x0B, 0x0C, 0x0D, 0x1C, 0x1D, 0x1E, 0x85, 0x2028, 0x2029}
  }

  /** One text with any line break in the place of any other. */
  predicate SameButBreaks(a: string, b: string) {
    |a| == |b| && forall i | 0 <= i < |a| :: a[i] == b[i] || (EndsLine(a[i]) && EndsLine(b[i]))
  }

  /** Each of them ends a line as well as any other. */
  lemma BreaksAreAlike(a: string, b: string, objectSize: int)
    requires SameButBreaks(a, b)
    ensures Index(a, objectSize) == Index(b, objectSize)
  {
    forall c: char
      ensures EndsLine(c) <==> IsLineBreak(c)
    {
    }
    assert Unbroken(a) == Unbroken(b);
  }

  /** And nothing else does. */
  lemma OnlyTheseEndLines(c: char)
    ensures EndsLine(c) <==> Unbroken([c]) == "\n"
  {
    var kept := Unbroken([c]);
    assert kept[0] == (if IsLineBreak(c) then '\n' else c) && '\n' as int == 0x0A;
    assert kept == "\n" <==> kept[0] == '\n';
    assert c == '\n' <==> c as int == 0x0A;
  }

  // ---------------------------------------------------------------- the whole index

  lemma EntrySays(lines: seq<string>, parsed: seq<ParsedLine>, objectSize: int, k: nat, e: Entry)
    requires k < |lines| == |parsed| && ReadsAs(lines, k, parsed[k]) && EntryFor(parsed, objectSize, k, e)
    ensures var pieces := Pieces(lines[k]);
      && |pieces| >= 3
      && ParseInt(pieces[0]) == Some(e.number) && ParseInt(pieces[1]) == Some(e.offset)
      && e.fields == Filter(IsNonEmpty, pieces[2..])
      && e.fields != [] && e.rawDescriptor == Join(e.fields, ':')
  {
    LineFields(lines[k], k + 1, parsed[k]);
  }

  /** Entry k is what line k says, up to where the next entry starts or the object ends. */
  lemma EntryIsItsLine(text: string, objectSize: int, entries: seq<Entry>, k: nat)
    requires Index(text, objectSize) == Ok(entries) && k < |entries|
    ensures |SourceLines(text)| == |entries|
    ensures var pieces := Pieces(SourceLines(text)[k]);
      && |pieces| >= 3
      && ParseInt(pieces[0]) == Some(entries[k].number) && ParseInt(pieces[1]) == Some(entries[k].offset)
      && entries[k].fields == Filter(IsNonEmpty, pieces[2..])
      && entries[k].fields != [] && entries[k].rawDescriptor == Join(entries[k].fields, ':')
    ensures entries[k].byteStart == entries[k].offset
    ensures entries[k].byteEnd + 1 == if k + 1 < |entries| then entries[k + 1].offset else objectSize
  {
    var lines, parsed := AcceptedForm(text, objectSize, entries);
    EntrySays(lines, parsed, objectSize, k, entries[k]);
    if k + 1 < |entries| {
      assert EntryFor(parsed, objectSize, k + 1, entries[k + 1]);
    }
  }

  /** What the lines of an accepted index say: items in order, inside the object. */
  ghost predicate Orderly(lines: seq<string>, objectSize: int, parsed: seq<ParsedLine>) {
    && |parsed| == |lines|
    && (forall k | 0 <= k < |lines| :: LineEntry(lines[k], k + 1) == Ok(parsed[k]))
    && InOrder(parsed, objectSize, 0)
  }

  lemma OrderlyIsInOrder(lines: seq<string>, objectSize: int, parsed: seq<ParsedLine>)
    requires ParsedLines(lines) == Ok(parsed)
    ensures Orderly(lines, objectSize, parsed) <==> OrderFault(parsed, objectSize, 0).None?
  {
    LinesRead(lines, parsed);
    NoFaultIffInOrder(parsed, objectSize, 0);
  }

  /** An index is accepted exactly when it has lines, every line is, and they are in order inside the object. */
  lemma IndexAcceptedIff(text: string, objectSize: int)
    ensures Index(text, objectSize).Ok? <==>
      objectSize > 0 && SourceLines(text) != [] && exists parsed :: Orderly(SourceLines(text), objectSize, parsed)
  {
    var lines := SourceLines(text);
    if parsed :| Orderly(lines, objectSize, parsed) {
      NumberedOk(lines, LineEntry, parsed);
    }
    if ParsedLines(lines).Ok? {
      var parsed := ParsedLines(lines).value;
      OrderlyIsInOrder(lines, objectSize, parsed);
      LinesRead(lines, parsed);
      NoFaultIffInOrder(parsed, objectSize, 0);
      if InOrder(parsed, objectSize, 0) {
        RangesExist(parsed, objectSize, 0, []);
      }
    }
  }
}

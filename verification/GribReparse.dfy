/** Printing an accepted GRIB index and parsing it again gives the same entries. */
module GribReparse {
  import opened Wrappers
  import opened Collecting
  import opened Sequences
  import opened Text
  import opened GribIndex

  // ---------------------------------------------------------------- what parsing leaves

  predicate Unbreakable(s: string) {
    forall c | c in s :: !IsLineBreak(c)
  }

  predicate Tight(s: string) {
    s != "" && !IsSpace(s[0]) && !IsSpace(s[|s| - 1])
  }

  /** A field that its line prints and splits back unchanged. */
  predicate PlainField(f: string) {
    Tight(f) && ':' !in f && Unbreakable(f)
  }

  predicate PlainFields(fields: seq<string>) {
    fields != [] && forall f | f in fields :: PlainField(f)
  }

  lemma {:induction false} StrippedMember(parts: seq<string>, f: string) returns (p: string)
    requires f in StrippedParts(parts)
    ensures p in parts && f == Strip(p, IsSpace)
  {
    if f == Strip(parts[0], IsSpace) {
      p := parts[0];
    } else {
      p := StrippedMember(parts[1..], f);
    }
  }

  /** A stripped piece of a text has no separator, no outer space and only the text's characters. */
  lemma PieceIsPlain(s: string, c: char, piece: string)
    requires piece in StrippedParts(Split(s, c)) && piece != ""
    ensures Tight(piece) && c !in piece && forall x | x in piece :: x in s
  {
    var p := StrippedMember(Split(s, c), piece);
    SplitParts(s, c, p);
    StripIsTight(p, IsSpace);
  }

  lemma FieldIsPlain(line: string, n: nat, item: ParsedLine, f: string)
    requires LineEntry(line, n) == Ok(item) && Unbreakable(line) && f in item.fields
    ensures PlainField(f)
  {
    var parts := StrippedParts(Split(line, ':'));
    FilterMembers(IsNonEmpty, DropTrailingEmpty(parts)[2..], f);
    assert f in parts;
    PieceIsPlain(line, ':', f);
  }

  lemma FieldsArePlain(line: string, n: nat, item: ParsedLine)
    requires LineEntry(line, n) == Ok(item) && Unbreakable(line)
    ensures PlainFields(item.fields) && item.rawDescriptor == Join(item.fields, ':')
    ensures item.number > 0 && item.offset >= 0
  {
    forall f | f in item.fields
      ensures PlainField(f)
    {
      FieldIsPlain(line, n, item, f);
    }
  }

  lemma SourceLineIsUnbreakable(text: string, line: string)
    requires line in SourceLines(text)
    ensures Unbreakable(line)
  {
    FilterMembers(IsNonEmpty, StrippedParts(Split(Unbroken(text), '\n')), line);
    PieceIsPlain(Unbroken(text), '\n', line);
    forall c | c in line
      ensures !IsLineBreak(c)
    {
      var i :| 0 <= i < |Unbroken(text)| && Unbroken(text)[i] == c;
    }
  }

  // ---------------------------------------------------------------- printing

  function PrintLine(number: nat, offset: nat, descriptor: string): string {
    Decimal(number) + ":" + Decimal(offset) + ":" + descriptor
  }

  predicate Printable(e: Entry) {
    e.number > 0 && e.offset >= 0 && PlainFields(e.fields) && e.rawDescriptor == Join(e.fields, ':')
  }

  predicate AllPrintable(entries: seq<Entry>) {
    forall k | 0 <= k < |entries| :: Printable(entries[k])
  }

  function PrintEntry(e: Entry): string
    requires Printable(e)
  {
    PrintLine(e.number, e.offset, e.rawDescriptor)
  }

  function PrintLines(entries: seq<Entry>): (r: seq<string>)
    requires AllPrintable(entries)
    ensures |r| == |entries| && forall k | 0 <= k < |entries| :: r[k] == PrintEntry(entries[k])
  {
    seq(|entries|, i requires 0 <= i < |entries| => PrintEntry(entries[i]))
  }

  /** One `number:offset:descriptor` a line. */
  function PrintIndex(entries: seq<Entry>): string
    requires entries != [] && AllPrintable(entries)
  {
    Join(PrintLines(entries), '\n')
  }

  // ---------------------------------------------------------------- one line back

  lemma {:induction false} StripKeepsTight(parts: seq<string>)
    requires forall k | 0 <= k < |parts| :: Tight(parts[k])
    ensures StrippedParts(parts) == parts
  {
    if parts != [] {
      assert parts == [parts[0]] + parts[1..];
      StripTight(parts[0], IsSpace);
      StripKeepsTight(parts[1..]);
    }
  }

  lemma DecimalIsPlain(n: nat)
    ensures PlainField(Decimal(n))
  {
    forall c | c in Decimal(n)
      ensures IsDigit(c) && !IsLineBreak(c) && c != ':'
    {
      var i :| 0 <= i < |Decimal(n)| && Decimal(n)[i] == c;
    }
    assert IsDigit(Decimal(n)[0]) && IsDigit(Decimal(n)[|Decimal(n)| - 1]);
  }

  lemma PrintedParts(number: nat, offset: nat, fields: seq<string>)
    requires PlainFields(fields)
    ensures PrintLine(number, offset, Join(fields, ':')) == Join([Decimal(number), Decimal(offset)] + fields, ':')
  {
    var front := [Decimal(number), Decimal(offset)];
    JoinAppend(front, fields, ':');
    assert Join(front[1..], ':') == Decimal(offset);
  }

  lemma SplitPrinted(number: nat, offset: nat, fields: seq<string>)
    requires PlainFields(fields)
    ensures StrippedParts(Split(PrintLine(number, offset, Join(fields, ':')), ':'))
      == [Decimal(number), Decimal(offset)] + fields
  {
    var parts := [Decimal(number), Decimal(offset)] + fields;
    DecimalIsPlain(number);
    DecimalIsPlain(offset);
    forall k | 0 <= k < |parts|
      ensures PlainField(parts[k])
    {
      assert k >= 2 ==> parts[k] in fields;
    }
    PrintedParts(number, offset, fields);
    SplitJoin(parts, ':');
    StripKeepsTight(parts);
  }

  lemma PrintedPartsEntry(item: ParsedLine, n: nat)
    requires item.number > 0 && item.offset >= 0 && PlainFields(item.fields)
    requires item.rawDescriptor == Join(item.fields, ':')
    ensures PartsEntry([Decimal(item.number), Decimal(item.offset)] + item.fields, n) == Ok(item)
  {
    var parts := [Decimal(item.number), Decimal(item.offset)] + item.fields;
    ParseDecimal(item.number);
    ParseDecimal(item.offset);
    assert parts[2..] == item.fields;
    forall k | 0 <= k < |item.fields|
      ensures item.fields[k] != ""
    {
      assert item.fields[k] in item.fields;
    }
    FilterKeeps(IsNonEmpty, item.fields);
  }

  lemma NothingToDrop(front: seq<string>, fields: seq<string>)
    requires PlainFields(fields)
    ensures DropTrailingEmpty(front + fields) == front + fields
  {
    var parts := front + fields;
    assert parts[|parts| - 1] == fields[|fields| - 1];
    assert fields[|fields| - 1] in fields;
  }

  /** A printed line parses to the item it was printed from, whatever its line number. */
  lemma PrintedLineReparses(item: ParsedLine, n: nat)
    requires item.number > 0 && item.offset >= 0 && PlainFields(item.fields)
    requires item.rawDescriptor == Join(item.fields, ':')
    ensures LineEntry(PrintLine(item.number, item.offset, item.rawDescriptor), n) == Ok(item)
  {
    SplitPrinted(item.number, item.offset, item.fields);
    NothingToDrop([Decimal(item.number), Decimal(item.offset)], item.fields);
    PrintedPartsEntry(item, n);
  }

  // ---------------------------------------------------------------- the whole text back

  lemma {:induction false} JoinCharacters(parts: seq<string>, c: char, x: char)
    requires parts != [] && x in Join(parts, c)
    ensures x == c || exists p | p in parts :: x in p
  {
    if |parts| > 1 && x !in parts[0] && x != c {
      JoinCharacters(parts[1..], c, x);
      var p :| p in parts[1..] && x in p;
      assert p in parts;
    }
  }

  lemma UnbrokenJoin(lines: seq<string>)
    requires lines != [] && forall l | l in lines :: Unbreakable(l)
    ensures Unbroken(Join(lines, '\n')) == Join(lines, '\n')
  {
    var text := Join(lines, '\n');
    forall i | 0 <= i < |text|
      ensures Unbroken(text)[i] == text[i]
    {
      JoinCharacters(lines, '\n', text[i]);
    }
  }

  lemma JoinedLinesAreSource(lines: seq<string>)
    requires lines != [] && forall l | l in lines :: Unbreakable(l) && Tight(l)
    ensures SourceLines(Join(lines, '\n')) == lines
  {
    UnbrokenJoin(lines);
    forall l | l in lines
      ensures '\n' !in l
    {
      assert IsLineBreak('\n');
    }
    SplitJoin(lines, '\n');
    StripKeepsTight(lines);
    FilterKeeps(IsNonEmpty, lines);
  }

  lemma {:induction false} JoinIsUnbreakable(parts: seq<string>)
    requires parts != [] && forall p | p in parts :: Unbreakable(p)
    ensures Unbreakable(Join(parts, ':'))
  {
    forall x | x in Join(parts, ':')
      ensures !IsLineBreak(x)
    {
      JoinCharacters(parts, ':', x);
    }
  }

  lemma {:induction false} JoinIsTight(parts: seq<string>, c: char)
    requires parts != [] && forall k | 0 <= k < |parts| :: Tight(parts[k])
    ensures Tight(Join(parts, c))
  {
    if |parts| > 1 {
      JoinIsTight(parts[1..], c);
    }
  }

  /** A printed line has no line break and no outer space. */
  lemma PrintedLineIsClean(e: Entry)
    requires Printable(e)
    ensures Unbreakable(PrintEntry(e)) && Tight(PrintEntry(e))
  {
    var parts := [Decimal(e.number), Decimal(e.offset)] + e.fields;
    forall k | 0 <= k < |parts|
      ensures PlainField(parts[k])
    {
      assert k >= 2 ==> parts[k] in e.fields;
    }
    PrintedParts(e.number, e.offset, e.fields);
    JoinIsUnbreakable(parts);
    JoinIsTight(parts, ':');
  }

  lemma PrintedSource(entries: seq<Entry>)
    requires entries != [] && AllPrintable(entries)
    ensures SourceLines(PrintIndex(entries)) == PrintLines(entries)
  {
    var lines := PrintLines(entries);
    forall l | l in lines
      ensures Unbreakable(l) && Tight(l)
    {
      var i :| 0 <= i < |entries| && l == lines[i];
      PrintedLineIsClean(entries[i]);
    }
    JoinedLinesAreSource(lines);
  }

  /** An accepted entry can be printed, and its printed line parses as its own line did. */
  lemma EntryReparses(lines: seq<string>, parsed: seq<ParsedLine>, objectSize: int, k: nat, e: Entry)
    requires k < |lines| == |parsed| && ReadsAs(lines, k, parsed[k]) && EntryFor(parsed, objectSize, k, e)
    requires Unbreakable(lines[k])
    ensures Printable(e) && LineEntry(PrintEntry(e), k + 1) == Ok(parsed[k])
  {
    FieldsArePlain(lines[k], k + 1, parsed[k]);
    PrintedLineReparses(parsed[k], k + 1);
  }

  lemma AcceptedReparses(text: string, objectSize: int, entries: seq<Entry>) returns (parsed: seq<ParsedLine>)
    requires Index(text, objectSize) == Ok(entries)
    ensures entries != [] && AllPrintable(entries) && |parsed| == |entries|
    ensures ParsedLines(SourceLines(text)) == Ok(parsed)
    ensures forall k | 0 <= k < |entries| :: LineEntry(PrintLines(entries)[k], k + 1) == Ok(parsed[k])
  {
    var lines;
    lines, parsed := AcceptedForm(text, objectSize, entries);
    forall k | 0 <= k < |entries|
      ensures Printable(entries[k]) && LineEntry(PrintEntry(entries[k]), k + 1) == Ok(parsed[k])
    {
      SourceLineIsUnbreakable(text, lines[k]);
      EntryReparses(lines, parsed, objectSize, k, entries[k]);
    }
  }

  lemma NumberedOk<S, T>(lines: seq<S>, parse: (S, nat) -> Result<T, IndexError>, items: seq<T>)
    requires |items| == |lines| && forall k | 0 <= k < |lines| :: parse(lines[k], k + 1) == Ok(items[k])
    ensures Collect(Numbered(lines, parse)) == Ok(items)
  {
    Collected(Numbered(lines, parse), items);
  }

  /**
    Printing and parsing again: every accepted index comes back entry for entry, so the printed
    text is one canonical form of all the texts with the same entries.
  */
  lemma ReparseRoundTrip(text: string, objectSize: int, entries: seq<Entry>)
    requires Index(text, objectSize) == Ok(entries)
    ensures entries != [] && AllPrintable(entries)
    ensures Index(PrintIndex(entries), objectSize) == Ok(entries)
  {
    var parsed := AcceptedReparses(text, objectSize, entries);
    PrintedSource(entries);
    NumberedOk(PrintLines(entries), LineEntry, parsed);
  }
}

/**
 What the configuration readers share: an entry a line, marked by a tag and given by fields between
 '|', and target patterns that may end in '*'.
 */
module RuleText {
  import opened Wrappers
  import opened Text
  import opened Fields

  datatype PatternKind = Exact | Prefix

  function ClassifyTarget(pattern: string): (PatternKind, string) {
    if pattern != "" && pattern[|pattern| - 1] == '*' then (Prefix, pattern[..|pattern| - 1]) else (Exact, pattern)
  }

  function PatternText(kind: PatternKind, stem: string): string {
    if kind.Prefix? then stem + "*" else stem
  }

  predicate HasPatternText(kind: PatternKind, stem: string) {
    kind.Exact? ==> stem == "" || stem[|stem| - 1] != '*'
  }

  /** A pattern is classified as what it was written for, and every pattern was written for something. */
  lemma ClassifiedAsWritten(kind: PatternKind, stem: string, pattern: string)
    ensures HasPatternText(kind, stem) ==> ClassifyTarget(PatternText(kind, stem)) == (kind, stem)
    ensures ClassifyTarget(pattern) == (kind, stem) ==> PatternText(kind, stem) == pattern && HasPatternText(kind, stem)
  {
  }

  /** What the lines contribute, in order, up to the first error. */
  function Gather<T, E>(lines: seq<string>, read: string -> Result<seq<T>, E>): Result<seq<T>, E> {
    if lines == [] then Ok([])
    else match Gather(lines[..|lines| - 1], read)
      case Err(e) => Err(e)
      case Ok(before) =>
        match read(lines[|lines| - 1])
        case Err(e) => Err(e)
        case Ok(more) => Ok(before + more)
  }

  lemma {:induction false} FirstErrorStands<T, E>(lines: seq<string>, more: seq<string>, read: string -> Result<seq<T>, E>)
    requires Gather(lines, read).Err?
    ensures Gather(lines + more, read) == Gather(lines, read)
    decreases |more|
  {
    if more == [] {
      assert lines + more == lines;
    } else {
      assert (lines + more)[..|lines + more| - 1] == lines + more[..|more| - 1];
      FirstErrorStands(lines, more[..|more| - 1], read);
    }
  }

  lemma OneMoreLine<T, E>(lines: seq<string>, line: string, read: string -> Result<seq<T>, E>)
    requires Gather(lines, read).Ok?
    ensures Gather(lines + [line], read) == match read(line)
                                            case Err(e) => Err(e)
                                            case Ok(more) => Ok(Gather(lines, read).value + more)
  {
    assert (lines + [line])[..|lines|] == lines;
  }

  /** What holds of everything a line contributes holds of everything gathered. */
  lemma {:induction false} GatheredHave<T, E>(lines: seq<string>, read: string -> Result<seq<T>, E>, good: T -> bool)
    requires forall line, x :: line in lines && read(line).Ok? && x in read(line).value ==> good(x)
    ensures Gather(lines, read).Ok? ==> forall x :: x in Gather(lines, read).value ==> good(x)
  {
    if lines != [] {
      GatheredHave(lines[..|lines| - 1], read, good);
    }
  }

  /** The loop over the lines of a configuration text, which ends at the first error. */
  method ReadLines<T, E>(text: string, read: string -> Result<seq<T>, E>) returns (result: Result<seq<T>, E>)
    ensures result == Gather(Pieces(text, '\n'), read)
  {
    var parsed: seq<T> := [];
    ghost var lines: seq<string> := [];
    var lineBegin := 0;
    SplitStart(text, '\n');
    while lineBegin <= |text|
      invariant Pending(text, '\n', lineBegin, lines)
      invariant Gather(lines, read) == Ok(parsed)
      decreases |text| - lineBegin
    {
      var newline := FindChar(text, '\n', lineBegin);
      var lineEnd := if newline.Some? then newline.value else |text|;
      var raw := text[lineBegin..lineEnd];
      if newline.Some? {
        SplitMore(text, '\n', lineBegin, lines, lineEnd);
      } else {
        SplitLast(text, '\n', lineBegin, lines);
        assert text[lineBegin..] == raw;
      }
      OneMoreLine(lines, raw, read);
      match read(raw) {
        case Err(e) =>
          if newline.Some? {
            FirstErrorStands(lines + [raw], Pieces(text[lineEnd + 1..], '\n'), read);
          }
          return Err(e);
        case Ok(more) =>
          parsed, lines := parsed + more, lines + [raw];
      }
      if newline.None? {
        break;
      }
      lineBegin := lineEnd + 1;
    }
    return Ok(parsed);
  }

  // ----- Entry lines -----

  predicate IsEntryLine(raw: string, tag: string) {
    var line := Trim(raw, IsSpace);
    line != "" && line[0] != '#' && tag <= line
  }

  function FieldsAfter(raw: string, tag: string): seq<string>
    requires IsEntryLine(raw, tag)
  {
    SplitFields(Trim(raw, IsSpace)[|tag|..], '|')
  }

  /** What one line contributes: the entry of its fields; anything but an entry line is ignored. */
  function LineEntries<T, E>(raw: string, tag: string, of: seq<string> -> Result<T, E>): Result<seq<T>, E> {
    if !IsEntryLine(raw, tag) then Ok([])
    else match of(FieldsAfter(raw, tag))
      case Err(e) => Err(e)
      case Ok(entry) => Ok([entry])
  }

  function LineReader<T, E>(tag: string, of: seq<string> -> Result<T, E>): string -> Result<seq<T>, E> {
    (raw: string) => LineEntries(raw, tag, of)
  }

  function EntriesOf<T, E>(text: string, tag: string, of: seq<string> -> Result<T, E>): Result<seq<T>, E> {
    Gather(Pieces(text, '\n'), LineReader(tag, of))
  }

  ghost function EntryLines(lines: seq<string>, tag: string): nat {
    if lines == [] then 0
    else EntryLines(lines[..|lines| - 1], tag) + if IsEntryLine(lines[|lines| - 1], tag) then 1 else 0
  }

  /** Lines are accepted if and only if every entry line is, and then each of those contributes one entry. */
  lemma {:induction false} LinesAcceptedExactly<T, E>(lines: seq<string>, tag: string, of: seq<string> -> Result<T, E>)
    ensures Gather(lines, LineReader(tag, of)).Ok? <==>
      forall raw :: raw in lines && IsEntryLine(raw, tag) ==> of(FieldsAfter(raw, tag)).Ok?
    ensures Gather(lines, LineReader(tag, of)).Ok? ==>
      |Gather(lines, LineReader(tag, of)).value| == EntryLines(lines, tag)
  {
    if lines != [] {
      LinesAcceptedExactly(lines[..|lines| - 1], tag, of);
      assert lines == lines[..|lines| - 1] + [lines[|lines| - 1]];
    }
  }

  /** So no entry line that its reader refuses is ever ignored. */
  lemma TextAcceptedExactly<T, E>(text: string, tag: string, of: seq<string> -> Result<T, E>)
    ensures EntriesOf(text, tag, of).Ok? <==>
      forall raw :: raw in Pieces(text, '\n') && IsEntryLine(raw, tag) ==> of(FieldsAfter(raw, tag)).Ok?
    ensures EntriesOf(text, tag, of).Ok? ==> |EntriesOf(text, tag, of).value| == EntryLines(Pieces(text, '\n'), tag)
  {
    LinesAcceptedExactly(Pieces(text, '\n'), tag, of);
  }

  // ----- Printing -----

  predicate IsField(s: string) {
    Trimmed(s, IsSpace) && '|' !in s && '\n' !in s
  }

  predicate AreFields(fields: seq<string>) {
    |fields| > 1 && forall i :: 0 <= i < |fields| ==> IsField(fields[i])
  }

  predicate IsTag(tag: string) {
    tag != "" && !IsSpace(tag[0]) && tag[0] != '#' && '\n' !in tag
  }

  lemma SplitOfJoin(fields: seq<string>)
    requires AreFields(fields)
    ensures SplitFields(Join(fields, '|'), '|') == fields
  {
    PiecesOfJoin(fields, '|');
    forall i | 0 <= i < |fields| ensures Trim(fields[i], IsSpace) == fields[i] {
      TrimmedIsFixed(fields[i], IsSpace);
    }
    assert TrimAll(fields) == fields;
  }

  lemma LastChar(head: string, rest: string)
    requires rest != ""
    ensures (head + rest)[|head + rest| - 1] == rest[|rest| - 1]
  {
  }

  /** Fields joined by '|' neither end in a space nor hold another character than theirs. */
  lemma {:induction false} JoinEnds(fields: seq<string>)
    requires AreFields(fields)
    ensures var joined := Join(fields, '|');
      joined != "" && !IsSpace(joined[|joined| - 1]) && '\n' !in joined
  {
    if |fields| == 2 {
      assert Join(fields, '|') == fields[0] + ['|'] + fields[1];
    } else {
      JoinEnds(fields[1..]);
      LastChar(fields[0] + ['|'], Join(fields[1..], '|'));
    }
  }

  function TaggedLine(tag: string, fields: seq<string>): string {
    tag + Join(fields, '|')
  }

  lemma TaggedLineReads(tag: string, fields: seq<string>, left: string, right: string)
    requires IsTag(tag) && AreFields(fields) && forall c :: c in left || c in right ==> IsSpace(c)
    ensures var raw := left + TaggedLine(tag, fields) + right; IsEntryLine(raw, tag) && FieldsAfter(raw, tag) == fields
    ensures '\n' !in TaggedLine(tag, fields)
  {
    var line := TaggedLine(tag, fields);
    JoinEnds(fields);
    LastChar(tag, Join(fields, '|'));
    TrimPadded(left, line, right, IsSpace);
    assert line[|tag|..] == Join(fields, '|');
    SplitOfJoin(fields);
  }

  lemma FieldsAreFields(raw: string, tag: string)
    requires '\n' !in raw && IsEntryLine(raw, tag)
    ensures forall i :: 0 <= i < |FieldsAfter(raw, tag)| ==> IsField(FieldsAfter(raw, tag)[i])
  {
    var s := Trim(raw, IsSpace)[|tag|..];
    CharsOfTrim(raw, '\n');
    var pieces := Pieces(s, '|');
    JoinOfPieces(s, '|');
    CharsOfPieces(s, '|', '\n');
    forall i | 0 <= i < |pieces| ensures IsField(Trim(pieces[i], IsSpace)) {
      var left, right := TrimSplits(pieces[i], IsSpace);
      CharsOfTrim(pieces[i], '|');
      CharsOfTrim(pieces[i], '\n');
    }
  }

  /** A line of a configuration text: an entry between blanks, or anything the reader skips. */
  datatype Line<T> = Printed(left: string, entry: T, right: string) | Skipped(raw: string)

  ghost predicate IsLine<T(!new), E>(
    line: Line<T>, tag: string, fieldsOf: T -> seq<string>, of: seq<string> -> Result<T, E>)
  {
    match line
    case Printed(left, entry, right) =>
      && AreFields(fieldsOf(entry)) && of(fieldsOf(entry)) == Ok(entry)
      && forall c :: c in left || c in right ==> IsSpace(c) && c != '\n'
    case Skipped(raw) => '\n' !in raw && !IsEntryLine(raw, tag)
  }

  function LineText<T>(line: Line<T>, tag: string, fieldsOf: T -> seq<string>): string {
    match line
    case Printed(left, entry, right) => left + TaggedLine(tag, fieldsOf(entry)) + right
    case Skipped(raw) => raw
  }

  function EntryOf<T>(line: Line<T>): seq<T> {
    match line
    case Printed(_, entry, _) => [entry]
    case Skipped(_) => []
  }

  function TextsOf<T>(lines: seq<Line<T>>, tag: string, fieldsOf: T -> seq<string>): seq<string> {
    if lines == [] then []
    else TextsOf(lines[..|lines| - 1], tag, fieldsOf) + [LineText(lines[|lines| - 1], tag, fieldsOf)]
  }

  function EntriesIn<T>(lines: seq<Line<T>>): seq<T> {
    if lines == [] then [] else EntriesIn(lines[..|lines| - 1]) + EntryOf(lines[|lines| - 1])
  }

  /** The text of the lines, separated by newlines. */
  function TextOf<T>(lines: seq<Line<T>>, tag: string, fieldsOf: T -> seq<string>): string {
    Join(TextsOf(lines, tag, fieldsOf), '\n')
  }

  lemma LineReadsBack<T(!new), E>(
    line: Line<T>, tag: string, fieldsOf: T -> seq<string>, of: seq<string> -> Result<T, E>)
    requires IsTag(tag) && IsLine(line, tag, fieldsOf, of)
    ensures LineEntries(LineText(line, tag, fieldsOf), tag, of) == Ok(EntryOf(line))
    ensures '\n' !in LineText(line, tag, fieldsOf)
  {
    match line
    case Printed(left, entry, right) =>
      assert '\n' !in left && '\n' !in right;
      TaggedLineReads(tag, fieldsOf(entry), left, right);
    case Skipped(_) =>
  }

  lemma {:induction false} LinesReadBack<T(!new), E>(
    lines: seq<Line<T>>, tag: string, fieldsOf: T -> seq<string>, of: seq<string> -> Result<T, E>)
    requires IsTag(tag) && forall i :: 0 <= i < |lines| ==> IsLine(lines[i], tag, fieldsOf, of)
    ensures var texts := TextsOf(lines, tag, fieldsOf);
      && Gather(texts, LineReader(tag, of)) == Ok(EntriesIn(lines))
      && |texts| == |lines| && forall i :: 0 <= i < |texts| ==> '\n' !in texts[i]
  {
    if lines != [] {
      var before, last := lines[..|lines| - 1], lines[|lines| - 1];
      LinesReadBack(before, tag, fieldsOf, of);
      LineReadsBack(last, tag, fieldsOf, of);
      OneMoreLine(TextsOf(before, tag, fieldsOf), LineText(last, tag, fieldsOf), LineReader(tag, of));
    }
  }

  lemma GatherOne<T, E>(line: string, read: string -> Result<seq<T>, E>)
    ensures Gather([line], read) == read(line)
  {
    var none: seq<string> := [];
    assert [line][..0] == none;
    if read(line).Ok? {
      assert [] + read(line).value == read(line).value;
    }
  }

  lemma EmptyTextReads<T, E>(tag: string, of: seq<string> -> Result<T, E>)
    ensures EntriesOf("", tag, of) == Ok([])
  {
    assert Pieces("", '\n') == [""];
    assert Trim("", IsSpace) == "";
    assert LineReader(tag, of)("") == Ok([]);
    GatherOne("", LineReader(tag, of));
  }

  /** Whatever lines are skipped between them, and whatever blanks surround them, printed entries are read, in order. */
  lemma PrintedTextReadsBack<T(!new), E>(
    lines: seq<Line<T>>, tag: string, fieldsOf: T -> seq<string>, of: seq<string> -> Result<T, E>)
    requires IsTag(tag) && forall i :: 0 <= i < |lines| ==> IsLine(lines[i], tag, fieldsOf, of)
    ensures EntriesOf(TextOf(lines, tag, fieldsOf), tag, of) == Ok(EntriesIn(lines))
  {
    LinesReadBack(lines, tag, fieldsOf, of);
    if lines == [] {
      EmptyTextReads(tag, of);
    } else {
      PiecesOfJoin(TextsOf(lines, tag, fieldsOf), '\n');
    }
  }

  function PlainLines<T>(entries: seq<T>): (lines: seq<Line<T>>)
    ensures |lines| == |entries| && forall i :: 0 <= i < |entries| ==> lines[i] == Printed("", entries[i], "")
  {
    seq(|entries|, i requires 0 <= i < |entries| => Printed("", entries[i], ""))
  }

  lemma {:induction false} EntriesInPlainLines<T>(entries: seq<T>)
    ensures EntriesIn(PlainLines(entries)) == entries
  {
    if entries != [] {
      var before := entries[..|entries| - 1];
      assert PlainLines(entries)[..|entries| - 1] == PlainLines(before);
      EntriesInPlainLines(before);
    }
  }
}

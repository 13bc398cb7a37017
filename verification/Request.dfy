/** Parsing a request from its header block (sections 3 and 5 of RFC 9112), and printing one back. */
module HttpRequest {
  import opened Wrappers
  import opened Sequences
  import opened Text
  import opened Fields
  import opened Decimal
  import opened Messages
  import Framing

  datatype ParseError = MalformedRequestLine | InvalidMethod | InvalidTarget | InvalidVersion | InvalidHeader

  type Parsed = Result<Request, ParseError>

  /** Origin-form targets only. */
  predicate IsValidTarget(target: string) {
    && target != "" && target[0] == '/'
    && forall i :: 0 <= i < |target| ==>
         ' ' < target[i] < '\U{7f}' && target[i] != '#' && target[i] != '\\'
  }

  predicate IsValidVersion(version: string) {
    version == "HTTP/1.0" || version == "HTTP/1.1"
  }

  predicate IsValueChar(c: char) {
    c == '\t' || !(c < ' ' || c == '\U{7f}')
  }

  predicate IsValidHeaderValue(value: string) {
    forall i :: 0 <= i < |value| ==> IsValueChar(value[i])
  }

  /** The components of a version that has passed the check above. */
  function ParseVersion(version: string): (nat, nat)
    requires IsValidVersion(version)
  {
    (version[5] as int - '0' as int, version[7] as int - '0' as int)
  }

  function ParseHeaderLine(line: string): Option<HeaderField> {
    if line == "" || IsOptionalWhitespace(line[0]) then None
    else match FindChar(line, ':', 0)
      case None => None
      case Some(colon) =>
        if colon == 0 then None
        else
          var name, value := line[..colon], Trim(line[colon + 1..], IsOptionalWhitespace);
          if !IsToken(name) || !IsValidHeaderValue(value) then None else Some(HeaderField(name, value))
  }

  function ParseRequestLine(line: string): Parsed {
    match FindChar(line, ' ', 0)
    case None => Err(MalformedRequestLine)
    case Some(sp1) =>
      match FindChar(line, ' ', sp1 + 1)
      case None => Err(MalformedRequestLine)
      case Some(sp2) =>
        if FindChar(line, ' ', sp2 + 1).Some? then Err(MalformedRequestLine)
        else
          var verb, target, version := line[..sp1], line[sp1 + 1..sp2], line[sp2 + 1..];
          if !IsToken(verb) then Err(InvalidMethod)
          else if !IsValidTarget(target) then Err(InvalidTarget)
          else if !IsValidVersion(version) then Err(InvalidVersion)
          else
            var (major, minor) := ParseVersion(version);
            Ok(Request(major, minor, verb, target, []))
  }

  /** The two ways the header loop fails; both are reported as an invalid header. */
  datatype LoopFailure = MissingLineEnd | BadLine

  /** What the header loop finds at a line start. */
  datatype LineStep = NoLineEnd | EmptyLine | BadField | FieldLine(field: HeaderField, next: nat)

  function NextLine(block: string, begin: nat): (step: LineStep)
    ensures step.FieldLine? ==> begin < step.next <= |block|
  {
    match Find(block, CRLF, begin)
    case None => NoLineEnd
    case Some(end) =>
      FindIsFirst(block, CRLF, begin);
      if end == begin then EmptyLine
      else match ParseHeaderLine(block[begin..end])
        case None => BadField
        case Some(field) => FieldLine(field, end + 2)
  }

  type ParsedFields = Result<(seq<HeaderField>, nat), LoopFailure>

  function Prepend(fields: seq<HeaderField>, rest: ParsedFields): ParsedFields {
    match rest
    case Err(e) => Err(e)
    case Ok((more, stop)) => Ok((fields + more, stop))
  }

  /** The fields from an index on, and where the empty line that ends them begins. */
  function ParseHeaders(block: string, begin: nat): ParsedFields
    decreases |block| - begin
  {
    match NextLine(block, begin)
    case NoLineEnd => Err(MissingLineEnd)
    case EmptyLine => Ok(([], begin))
    case BadField => Err(BadLine)
    case FieldLine(field, next) => Prepend([field], ParseHeaders(block, next))
  }

  lemma PrependNothing(rest: ParsedFields)
    ensures Prepend([], rest) == rest
  {
    if rest.Ok? {
      assert [] + rest.value.0 == rest.value.0;
    }
  }

  lemma PrependEnd(fields: seq<HeaderField>, stop: nat)
    ensures Prepend(fields, Ok(([], stop))) == Ok((fields, stop))
  {
    assert fields + [] == fields;
  }

  lemma PrependTwice(fields: seq<HeaderField>, field: HeaderField, rest: ParsedFields)
    ensures Prepend(fields, Prepend([field], rest)) == Prepend(fields + [field], rest)
  {
    if rest.Ok? {
      assert fields + ([field] + rest.value.0) == fields + [field] + rest.value.0;
    }
  }

  function Parse(block: string): Parsed {
    match Find(block, CRLF, 0)
    case None => Err(MalformedRequestLine)
    case Some(eol) =>
      FindIsFirst(block, CRLF, 0);
      match ParseRequestLine(block[..eol])
      case Err(e) => Err(e)
      case Ok(request) =>
        match ParseHeaders(block, eol + 2)
        case Err(_) => Err(InvalidHeader)
        case Ok((fields, _)) => Ok(request.(headers := fields))
  }

  /** The header loop of request::parse, with its line index and growing field list. */
  method ParseHeadersByIndex(block: string, begin: nat) returns (result: Option<seq<HeaderField>>)
    requires begin <= |block|
    ensures result == match ParseHeaders(block, begin)
                      case Err(_) => None
                      case Ok((fields, _)) => Some(fields)
  {
    var fields: seq<HeaderField> := [];
    var lineBegin := begin;
    PrependNothing(ParseHeaders(block, begin));
    while lineBegin <= |block|
      invariant lineBegin <= |block|
      invariant ParseHeaders(block, begin) == Prepend(fields, ParseHeaders(block, lineBegin))
      decreases |block| - lineBegin
    {
      var step := NextLine(block, lineBegin);
      match step {
        case NoLineEnd => return None;
        case BadField => return None;
        case EmptyLine =>
          PrependEnd(fields, lineBegin);
          return Some(fields);
        case FieldLine(field, next) =>
          PrependTwice(fields, field, ParseHeaders(block, next));
          fields, lineBegin := fields + [field], next;
      }
    }
    return Some(fields);
  }

  /** request::parse. */
  method ParseByIndex(block: string) returns (result: Parsed)
    ensures result == Parse(block)
  {
    var eol := Find(block, CRLF, 0);
    if eol.None? {
      return Err(MalformedRequestLine);
    }
    FindIsFirst(block, CRLF, 0);
    var line := ParseRequestLine(block[..eol.value]);
    if line.Err? {
      return line;
    }
    var fields := ParseHeadersByIndex(block, eol.value + 2);
    return if fields.None? then Err(InvalidHeader) else Ok(line.value.(headers := fields.value));
  }

  // ----- Validity and printing -----

  ghost predicate ValidField(field: HeaderField) {
    IsToken(field.name) && IsValidHeaderValue(field.value) && Trimmed(field.value, IsOptionalWhitespace)
  }

  ghost predicate ValidRequest(r: Request) {
    && r.versionMajor == 1 && r.versionMinor <= 1
    && IsToken(r.verb)
    && IsValidTarget(r.target)
    && forall i :: 0 <= i < |r.headers| ==> ValidField(r.headers[i])
  }

  function VersionString(r: Request): string {
    "HTTP/" + Digits(r.versionMajor) + "." + Digits(r.versionMinor)
  }

  function PrintField(field: HeaderField): string {
    field.name + ": " + field.value
  }

  function FieldLines(fields: seq<HeaderField>): (lines: seq<string>)
    ensures |lines| == |fields| && forall i :: 0 <= i < |fields| ==> lines[i] == PrintField(fields[i])
  {
    seq(|fields|, i requires 0 <= i < |fields| => PrintField(fields[i]))
  }

  function PrintRequestLine(r: Request): string {
    r.verb + " " + r.target + " " + VersionString(r)
  }

  function Print(r: Request): string {
    PrintRequestLine(r) + CRLF + (Unlines(FieldLines(r.headers)) + CRLF)
  }

  // ----- Field lines -----

  ghost predicate AllBlank(s: string) {
    forall c :: c in s ==> IsOptionalWhitespace(c)
  }

  ghost predicate PaddedAs(line: string, field: HeaderField, left: string, right: string) {
    AllBlank(left) && AllBlank(right) && line == field.name + [':'] + (left + field.value + right)
  }

  /** A line that means a field: its name, a colon, and its value between any blanks, or none (section 5 of RFC 9112). */
  ghost predicate SpellsField(line: string, field: HeaderField) {
    ValidField(field) && exists left, right :: PaddedAs(line, field, left, right)
  }

  lemma PaddedLineParses(line: string, field: HeaderField, left: string, right: string)
    requires ValidField(field) && PaddedAs(line, field, left, right)
    ensures ParseHeaderLine(line) == Some(field) && '\r' !in line
  {
    TokenHasNoSeparators(field.name);
    var padded := left + field.value + right;
    ConcatDivides(line, field.name, ':', padded);
    FindAfterFree(line, field.name, ':', padded);
    TrimPadded(left, field.value, right, IsOptionalWhitespace);
    assert line[0] == field.name[0];
  }

  lemma ParsedLineIsPadded(line: string, field: HeaderField) returns (left: string, right: string)
    requires ParseHeaderLine(line) == Some(field)
    ensures ValidField(field) && PaddedAs(line, field, left, right)
  {
    var colon := FindChar(line, ':', 0).value;
    left, right := TrimSplits(line[colon + 1..], IsOptionalWhitespace);
    assert line == line[..colon] + [':'] + line[colon + 1..];
  }

  /** The parser takes a line for a field if and only if the line means that field. */
  lemma FieldLineParsesExactly(line: string, field: HeaderField)
    ensures ParseHeaderLine(line) == Some(field) <==> SpellsField(line, field)
    ensures SpellsField(line, field) ==> line != "" && OneLine(line)
  {
    if SpellsField(line, field) {
      var left, right :| PaddedAs(line, field, left, right);
      PaddedLineParses(line, field, left, right);
      NoReturnIsOneLine(line);
    } else if ParseHeaderLine(line) == Some(field) {
      var left, right := ParsedLineIsPadded(line, field);
      assert false;
    }
  }

  ghost predicate SpellAll(lines: seq<string>, fields: seq<HeaderField>) {
    |lines| == |fields| && forall i :: 0 <= i < |lines| ==> SpellsField(lines[i], fields[i])
  }

  /** Each line parses to its field. */
  ghost predicate ReadAs(lines: seq<string>, fields: seq<HeaderField>) {
    |lines| == |fields| && forall i :: 0 <= i < |lines| ==> ParseHeaderLine(lines[i]) == Some(fields[i])
  }

  lemma ReadAsSpelled(lines: seq<string>, fields: seq<HeaderField>)
    ensures ReadAs(lines, fields) <==> SpellAll(lines, fields)
  {
    if |lines| == |fields| {
      forall i | 0 <= i < |lines| ensures ParseHeaderLine(lines[i]) == Some(fields[i]) <==> SpellsField(lines[i], fields[i]) {
        FieldLineParsesExactly(lines[i], fields[i]);
      }
    }
  }

  lemma ParsedLineIsOneLine(line: string)
    requires ParseHeaderLine(line).Some?
    ensures line != "" && OneLine(line)
  {
    FieldLineParsesExactly(line, ParseHeaderLine(line).value);
  }

  lemma PrintedFieldsSpell(fields: seq<HeaderField>)
    requires forall i :: 0 <= i < |fields| ==> ValidField(fields[i])
    ensures SpellAll(FieldLines(fields), fields)
  {
    forall i | 0 <= i < |fields| ensures SpellsField(PrintField(fields[i]), fields[i]) {
      assert PaddedAs(PrintField(fields[i]), fields[i], " ", "");
    }
  }

  // ----- The lines of a block -----

  /** From an index on, the block holds these lines, then an empty one, then anything. */
  ghost predicate LinesAt(block: string, begin: nat, lines: seq<string>, rest: string)
    decreases |lines|
  {
    begin <= |block| &&
    if lines == [] then block[begin..] == CRLF + rest
    else LineAt(block, begin, lines[0]) && LinesAt(block, begin + |lines[0]| + 2, lines[1..], rest)
  }

  lemma FirstOfLines(lines: seq<string>, rest: string)
    requires lines != []
    ensures StartsWithLine(Unlines(lines) + (CRLF + rest), lines[0], Unlines(lines[1..]) + (CRLF + rest))
  {
    ConcatIsAssociative(lines[0] + CRLF, Unlines(lines[1..]), CRLF + rest);
    ConcatStartsWithLine(Unlines(lines) + (CRLF + rest), lines[0], Unlines(lines[1..]) + (CRLF + rest));
  }

  lemma {:induction false} UnlinesAreAt(block: string, begin: nat, lines: seq<string>, rest: string)
    requires begin <= |block| && block[begin..] == Unlines(lines) + (CRLF + rest)
    ensures LinesAt(block, begin, lines, rest)
    decreases |lines|
  {
    if lines == [] {
      assert "" + (CRLF + rest) == CRLF + rest;
    } else {
      FirstOfLines(lines, rest);
      SuffixStartsWithLine(block, begin, block[begin..], lines[0], Unlines(lines[1..]) + (CRLF + rest));
      UnlinesAreAt(block, begin + |lines[0]| + 2, lines[1..], rest);
    }
  }

  lemma PrependHead(fields: seq<HeaderField>, stop: nat)
    requires fields != []
    ensures Prepend([fields[0]], Ok((fields[1..], stop))) == Ok((fields, stop))
  {
    assert [fields[0]] + fields[1..] == fields;
  }

  lemma NextFieldLine(block: string, begin: nat, line: string, field: HeaderField)
    requires begin + |line| <= |block| && block[begin..begin + |line|] == line && line != ""
    requires Find(block, CRLF, begin) == Some(begin + |line|) && ParseHeaderLine(line) == Some(field)
    ensures NextLine(block, begin) == FieldLine(field, begin + |line| + 2)
  {
  }

  lemma OneFieldRead(block: string, begin: nat, line: string, field: HeaderField)
    requires LineAt(block, begin, line) && ParseHeaderLine(line) == Some(field)
    ensures var next := begin + |line| + 2;
      next <= |block| && ParseHeaders(block, begin) == Prepend([field], ParseHeaders(block, next))
  {
    ParsedLineIsOneLine(line);
    LineEndsNext(block, begin, line);
    NextFieldLine(block, begin, line, field);
  }

  lemma OneMoreField(block: string, begin: nat, line: string, fields: seq<HeaderField>, stop: nat)
    requires fields != [] && ParseHeaderLine(line) == Some(fields[0]) && LineAt(block, begin, line)
    requires var next := begin + |line| + 2;
      next <= |block| && ParseHeaders(block, next) == Ok((fields[1..], stop))
    ensures ParseHeaders(block, begin) == Ok((fields, stop))
  {
    OneFieldRead(block, begin, line, fields[0]);
    PrependHead(fields, stop);
  }

  lemma EmptyLineEndsFields(block: string, begin: nat, rest: string)
    requires begin <= |block| && block[begin..] == CRLF + rest
    ensures ParseHeaders(block, begin) == Ok(([], begin)) && begin == |block| - |rest| - 2
  {
    NoReturnIsOneLine("");
    assert "" + CRLF + rest == CRLF + rest;
    ConcatStartsWithLine(block[begin..], "", rest);
    LineEndsHere(block, begin, block[begin..], "", rest);
  }

  /** Lines that mean fields, anywhere in a block, are read as those fields, up to the empty line after them. */
  lemma {:induction false} FieldsReadBack(block: string, begin: nat, lines: seq<string>, fields: seq<HeaderField>, rest: string)
    requires LinesAt(block, begin, lines, rest) && ReadAs(lines, fields)
    ensures |rest| + 2 <= |block| && ParseHeaders(block, begin) == Ok((fields, |block| - |rest| - 2))
    decreases |lines|
  {
    if lines == [] {
      EmptyLineEndsFields(block, begin, rest);
    } else {
      FieldsReadBack(block, begin + |lines[0]| + 2, lines[1..], fields[1..], rest);
      OneMoreField(block, begin, lines[0], fields, |block| - |rest| - 2);
    }
  }

  lemma LineStepAt(block: string, begin: nat, end: nat)
    requires begin < end && Find(block, CRLF, begin) == Some(end) && MatchAt(block, end, CRLF)
    ensures NextLine(block, begin) ==
            match ParseHeaderLine(block[begin..end])
            case None => BadField
            case Some(field) => FieldLine(field, end + 2)
  {
  }

  lemma HeadersStep(block: string, begin: nat, end: nat)
    requires begin < end && Find(block, CRLF, begin) == Some(end) && MatchAt(block, end, CRLF)
    ensures ParseHeaders(block, begin) ==
            match ParseHeaderLine(block[begin..end])
            case None => Err(BadLine)
            case Some(field) => Prepend([field], ParseHeaders(block, end + 2))
  {
    LineStepAt(block, begin, end);
  }

  lemma LineThenRest(block: string, begin: nat, end: nat)
    requires begin <= end && MatchAt(block, end, CRLF)
    ensures block[begin..] == block[begin..end] + CRLF + block[end + 2..]
  {
    assert block[end..end + 2] == CRLF;
  }

  /** The fields read and where they stopped are those of the block's own lines. */
  ghost predicate ReadFrom(block: string, begin: nat, lines: seq<string>, rest: string, fields: seq<HeaderField>, stop: nat) {
    && begin <= |block| && block[begin..] == Unlines(lines) + (CRLF + rest)
    && ReadAs(lines, fields) && stop + |rest| + 2 == |block|
  }

  lemma OneMoreRead(
    block: string, begin: nat, end: nat, lines: seq<string>, rest: string, fields: seq<HeaderField>, stop: nat, field: HeaderField)
    requires begin <= end && MatchAt(block, end, CRLF) && ReadFrom(block, end + 2, lines, rest, fields, stop)
    requires ParseHeaderLine(block[begin..end]) == Some(field)
    ensures ReadFrom(block, begin, [block[begin..end]] + lines, rest, [field] + fields, stop)
  {
    var line := block[begin..end];
    assert ([line] + lines)[1..] == lines;
    LineThenRest(block, begin, end);
    ConcatIsAssociative(line + CRLF, Unlines(lines), CRLF + rest);
  }

  lemma OneMoreLineRead(block: string, begin: nat, end: nat, lines: seq<string>, rest: string)
    requires begin < end && Find(block, CRLF, begin) == Some(end) && MatchAt(block, end, CRLF)
    requires ParseHeaders(block, begin).Ok? && ParseHeaders(block, end + 2).Ok?
    requires var (fields, stop) := ParseHeaders(block, end + 2).value; ReadFrom(block, end + 2, lines, rest, fields, stop)
    ensures var (fields, stop) := ParseHeaders(block, begin).value;
      ReadFrom(block, begin, [block[begin..end]] + lines, rest, fields, stop)
  {
    HeadersStep(block, begin, end);
    var (fields, stop) := ParseHeaders(block, end + 2).value;
    OneMoreRead(block, begin, end, lines, rest, fields, stop, ParseHeaderLine(block[begin..end]).value);
  }

  /** Whatever the header loop accepts is lines that parse to the fields it returns, and then the empty line. */
  lemma {:induction false} ReadFieldsAreLines(block: string, begin: nat) returns (lines: seq<string>, rest: string)
    requires ParseHeaders(block, begin).Ok?
    ensures var (fields, stop) := ParseHeaders(block, begin).value; ReadFrom(block, begin, lines, rest, fields, stop)
    decreases |block| - begin
  {
    FindIsFirst(block, CRLF, begin);
    var end := Find(block, CRLF, begin).value;
    LineThenRest(block, begin, end);
    if end == begin {
      lines, rest := [], block[end + 2..];
      assert block[begin..begin] == "" && "" + CRLF + rest == "" + (CRLF + rest);
    } else {
      HeadersStep(block, begin, end);
      var more;
      more, rest := ReadFieldsAreLines(block, end + 2);
      lines := [block[begin..end]] + more;
      OneMoreLineRead(block, begin, end, more, rest);
    }
  }

  // ----- Request lines -----

  lemma VersionRoundTrip(r: Request)
    requires r.versionMajor == 1 && r.versionMinor <= 1
    ensures IsValidVersion(VersionString(r)) && ParseVersion(VersionString(r)) == (r.versionMajor, r.versionMinor)
  {
    assert Digits(1) == "1" && Digits(0) == "0";
    assert VersionString(r) == if r.versionMinor == 0 then "HTTP/1.0" else "HTTP/1.1";
  }

  lemma WordsOfSuffix(line: string, begin: nat, tail: string, b: string, c: string)
    requires begin <= |line| && line[begin..] == tail && Divides(tail, b, ' ', c) && ' ' !in c
    requires ' ' !in b
    ensures FindChar(line, ' ', begin) == Some(begin + |b|)
    ensures FindChar(line, ' ', begin + |b| + 1) == None
    ensures begin + |b| < |line| && line[begin..begin + |b|] == b && line[begin + |b| + 1..] == c
  {
    FindAfterFree(tail, b, ' ', c);
    FindCharInSuffix(line, ' ', begin);
    assert line[begin..begin + |b|] == tail[..|b|];
    assert line[begin + |b| + 1..] == tail[|b| + 1..];
    FindCharInSuffix(line, ' ', begin + |b| + 1);
  }

  lemma ThreeWords(line: string, a: string, rest: string, b: string, c: string)
    requires ' ' !in a && ' ' !in b && ' ' !in c
    requires Divides(line, a, ' ', rest) && Divides(rest, b, ' ', c)
    ensures var sp2 := |a| + 1 + |b|;
      && FindChar(line, ' ', 0) == Some(|a|)
      && FindChar(line, ' ', |a| + 1) == Some(sp2)
      && FindChar(line, ' ', sp2 + 1) == None
      && line[..|a|] == a && line[|a| + 1..sp2] == b && line[sp2 + 1..] == c
  {
    FindAfterFree(line, a, ' ', rest);
    WordsOfSuffix(line, |a| + 1, rest, b, c);
  }

  lemma ParseWords(line: string, verb: string, rest: string, target: string, version: string)
    requires Divides(line, verb, ' ', rest) && Divides(rest, target, ' ', version)
    requires ' ' !in verb && ' ' !in target && ' ' !in version
    requires IsToken(verb) && IsValidTarget(target) && IsValidVersion(version)
    ensures ParseRequestLine(line)
         == Ok(Request(ParseVersion(version).0, ParseVersion(version).1, verb, target, []))
  {
    ThreeWords(line, verb, rest, target, version);
  }

  lemma PrintedLineDivides(a: string, b: string, c: string) returns (rest: string)
    ensures Divides(a + " " + b + " " + c, a, ' ', rest) && Divides(rest, b, ' ', c)
  {
    rest := b + [' '] + c;
    assert a + " " + b + " " + c == a + [' '] + rest;
    ConcatDivides(a + " " + b + " " + c, a, ' ', rest);
    ConcatDivides(rest, b, ' ', c);
  }

  lemma NoReturnInThree(a: string, b: string, c: string)
    requires '\r' !in a && '\r' !in b && '\r' !in c
    ensures '\r' !in a + " " + b + " " + c
  {
  }

  lemma LineRoundTrip(verb: string, target: string, version: string)
    requires IsToken(verb) && IsValidTarget(target) && IsValidVersion(version)
    ensures ParseRequestLine(verb + " " + target + " " + version)
         == Ok(Request(ParseVersion(version).0, ParseVersion(version).1, verb, target, []))
    ensures '\r' !in verb + " " + target + " " + version
  {
    TokenHasNoSeparators(verb);
    assert ' ' !in target && '\r' !in target && ' ' !in version && '\r' !in version;
    var rest := PrintedLineDivides(verb, target, version);
    ParseWords(verb + " " + target + " " + version, verb, rest, target, version);
    NoReturnInThree(verb, target, version);
  }

  lemma RequestLineRoundTrip(r: Request)
    requires ValidRequest(r)
    ensures ParseRequestLine(PrintRequestLine(r)) == Ok(r.(headers := []))
    ensures '\r' !in PrintRequestLine(r)
  {
    VersionRoundTrip(r);
    LineRoundTrip(r.verb, r.target, VersionString(r));
  }

  lemma VersionIsPrinted(version: string, r: Request)
    requires IsValidVersion(version) && ParseVersion(version) == (r.versionMajor, r.versionMinor)
    ensures version == VersionString(r) && r.versionMajor == 1 && r.versionMinor <= 1
  {
    assert Digits(1) == "1" && Digits(0) == "0";
  }

  lemma LineOfWords(line: string, sp1: nat, sp2: nat)
    requires sp1 < sp2 < |line| && line[sp1] == ' ' && line[sp2] == ' '
    ensures line == line[..sp1] + " " + line[sp1 + 1..sp2] + " " + line[sp2 + 1..]
  {
  }

  /** A line is taken for a request line if and only if it is the printed line of that request. */
  lemma RequestLineParsesExactly(line: string, r: Request)
    ensures ParseRequestLine(line) == Ok(r) <==> r.headers == [] && ValidRequest(r) && line == PrintRequestLine(r)
  {
    if r.headers == [] && ValidRequest(r) && line == PrintRequestLine(r) {
      RequestLineRoundTrip(r);
    }
    if ParseRequestLine(line) == Ok(r) {
      var sp1 := FindChar(line, ' ', 0).value;
      var sp2 := FindChar(line, ' ', sp1 + 1).value;
      LineOfWords(line, sp1, sp2);
      VersionIsPrinted(line[sp2 + 1..], r);
    }
  }

  // ----- Whole blocks -----

  ghost predicate LaidOutAs(block: string, r: Request, lines: seq<string>, rest: string) {
    SpellAll(lines, r.headers) && block == PrintRequestLine(r) + CRLF + (Unlines(lines) + (CRLF + rest))
  }

  /** A block that means a request: its request line, a line for each field, an empty line, and anything. */
  ghost predicate SpellsRequest(block: string, r: Request) {
    ValidRequest(r) && exists lines, rest :: LaidOutAs(block, r, lines, rest)
  }

  lemma FirstLineFound(block: string, line: string, tail: string)
    requires block == line + CRLF + tail && OneLine(line)
    ensures Find(block, CRLF, 0) == Some(|line|) && |line| + 2 <= |block|
    ensures block[..|line|] == line && block[|line| + 2..] == tail
  {
    assert block[0..] == block;
    ConcatStartsWithLine(block, line, tail);
    LineEndsHere(block, 0, block, line, tail);
  }

  lemma PartsParse(block: string, line: string, r: Request, stop: nat)
    requires |line| + 2 <= |block| && Find(block, CRLF, 0) == Some(|line|) && block[..|line|] == line
    requires ParseRequestLine(line) == Ok(r.(headers := []))
    requires ParseHeaders(block, |line| + 2) == Ok((r.headers, stop))
    ensures Parse(block) == Ok(r)
  {
  }

  lemma LinesParse(block: string, line: string, tail: string, r: Request, lines: seq<string>, rest: string)
    requires block == line + CRLF + tail && tail == Unlines(lines) + (CRLF + rest)
    requires OneLine(line) && ParseRequestLine(line) == Ok(r.(headers := [])) && ReadAs(lines, r.headers)
    ensures Parse(block) == Ok(r)
  {
    FirstLineFound(block, line, tail);
    UnlinesAreAt(block, |line| + 2, lines, rest);
    FieldsReadBack(block, |line| + 2, lines, r.headers, rest);
    PartsParse(block, line, r, |block| - |rest| - 2);
  }

  lemma LaidOutParses(block: string, r: Request, lines: seq<string>, rest: string)
    requires ValidRequest(r) && LaidOutAs(block, r, lines, rest)
    ensures Parse(block) == Ok(r)
  {
    RequestLineRoundTrip(r);
    NoReturnIsOneLine(PrintRequestLine(r));
    ReadAsSpelled(lines, r.headers);
    LinesParse(block, PrintRequestLine(r), Unlines(lines) + (CRLF + rest), r, lines, rest);
  }

  lemma ParsedParts(block: string, eol: nat)
    requires Parse(block).Ok? && Find(block, CRLF, 0) == Some(eol) && eol + 2 <= |block|
    ensures ParseRequestLine(block[..eol]) == Ok(Parse(block).value.(headers := []))
    ensures ParseHeaders(block, eol + 2).Ok? && ParseHeaders(block, eol + 2).value.0 == Parse(block).value.headers
  {
  }

  lemma ParsedIsLaidOut(block: string) returns (lines: seq<string>, rest: string)
    requires Parse(block).Ok?
    ensures ValidRequest(Parse(block).value) && LaidOutAs(block, Parse(block).value, lines, rest)
    ensures ParseHeaders(block, Find(block, CRLF, 0).value + 2).value.1 + |rest| + 2 == |block|
  {
    var r := Parse(block).value;
    FindIsFirst(block, CRLF, 0);
    var eol := Find(block, CRLF, 0).value;
    ParsedParts(block, eol);
    RequestLineParsesExactly(block[..eol], r.(headers := []));
    lines, rest := ReadFieldsAreLines(block, eol + 2);
    ReadAsSpelled(lines, r.headers);
    LineThenRest(block, 0, eol);
    assert block[0..] == block && block[0..eol] == block[..eol];
  }

  /** request::parse returns a request if and only if the block means that request. */
  lemma ParsesExactly(block: string, r: Request)
    ensures Parse(block) == Ok(r) <==> SpellsRequest(block, r)
  {
    if SpellsRequest(block, r) {
      var lines, rest :| LaidOutAs(block, r, lines, rest);
      LaidOutParses(block, r, lines, rest);
    }
    if Parse(block) == Ok(r) {
      var lines, rest := ParsedIsLaidOut(block);
    }
  }

  /** Parsing the canonical printing of a valid request gives it back. */
  lemma ParsePrint(r: Request)
    requires ValidRequest(r)
    ensures Parse(Print(r)) == Ok(r)
  {
    PrintedFieldsSpell(r.headers);
    assert CRLF + "" == CRLF;
    LaidOutParses(Print(r), r, FieldLines(r.headers), "");
  }

  /** Whatever the parser accepts is a valid request. */
  lemma ParsedIsValid(block: string)
    requires Parse(block).Ok?
    ensures ValidRequest(Parse(block).value)
  {
    ParsesExactly(block, Parse(block).value);
  }

  lemma ParsePrintParse(block: string)
    requires Parse(block).Ok?
    ensures Parse(Print(Parse(block).value)) == Parse(block)
  {
    ParsedIsValid(block);
    ParsePrint(Parse(block).value);
  }

  // ----- Agreement with framing -----

  /** A block as read_header_block returns it: its first empty line is its end. */
  ghost predicate Framed(block: string) {
    Framing.FindHeaderEnd(block) == Some(|block|)
  }

  lemma FramedEnds(block: string)
    requires Framed(block)
    ensures |block| >= 4 && MatchAt(block, |block| - 4, CRLF) && MatchAt(block, |block| - 2, CRLF)
  {
    MatchFour(block, |block| - 4, HEADER_END);
    MatchTwo(block, |block| - 4, CRLF);
    MatchTwo(block, |block| - 2, CRLF);
  }

  lemma NoEmptyLineInside(block: string, i: nat)
    requires Framed(block) && i < |block| - 4 && MatchAt(block, i, CRLF)
    ensures !MatchAt(block, i + 2, CRLF)
  {
    FindIsFirst(block, HEADER_END, 0);
    MatchTwo(block, i, CRLF);
    MatchTwo(block, i + 2, CRLF);
    MatchFour(block, i, HEADER_END);
  }

  /** Just after a CRLF, a framed block has a line end ahead, and an empty line only at its very end. */
  lemma FramedLineStart(block: string, begin: nat)
    requires Framed(block) && 2 <= begin <= |block| - 2 && MatchAt(block, begin - 2, CRLF)
    ensures Find(block, CRLF, begin).Some?
    ensures var end := Find(block, CRLF, begin).value;
      begin <= end <= |block| - 2 && (end == begin <==> begin == |block| - 2)
      && (end != begin ==> end + 2 <= |block| - 2 && MatchAt(block, end, CRLF))
  {
    var n := |block|;
    FindIsFirst(block, CRLF, begin);
    FramedEnds(block);
    var end := Find(block, CRLF, begin).value;
    if begin < n - 2 {
      NoEmptyLineInside(block, begin - 2);
      MatchTwo(block, begin - 2, CRLF);
      MatchTwo(block, n - 4, CRLF);
    }
  }

  /**
   On a framed block the header loop always finds its next line end, and if it succeeds it stops at
   the block's last CRLF.
   */
  lemma {:induction false} FramedHeaders(block: string, begin: nat)
    requires Framed(block) && 2 <= begin <= |block| - 2 && MatchAt(block, begin - 2, CRLF)
    ensures ParseHeaders(block, begin) != Err(MissingLineEnd)
    ensures ParseHeaders(block, begin).Ok? ==> ParseHeaders(block, begin).value.1 == |block| - 2
    decreases |block| - begin
  {
    FramedLineStart(block, begin);
    var end := Find(block, CRLF, begin).value;
    if end != begin {
      FramedHeaders(block, end + 2);
      HeadersStep(block, begin, end);
    }
  }

  lemma FirstLineOfFramed(block: string)
    requires Framed(block)
    ensures Find(block, CRLF, 0).Some? && MatchAt(block, Find(block, CRLF, 0).value, CRLF)
    ensures Find(block, CRLF, 0).value + 2 <= |block| - 2
  {
    FindIsFirst(block, CRLF, 0);
    FramedEnds(block);
  }

  lemma FramedStopsAtItsEnd(block: string)
    requires Framed(block) && Parse(block).Ok?
    ensures var begin := Find(block, CRLF, 0).value + 2;
      ParseHeaders(block, begin).Ok? && ParseHeaders(block, begin).value.1 == |block| - 2
  {
    FirstLineOfFramed(block);
    ParsedParts(block, Find(block, CRLF, 0).value);
    FramedHeaders(block, Find(block, CRLF, 0).value + 2);
  }

  lemma NothingAfter(block: string, r: Request, lines: seq<string>)
    requires LaidOutAs(block, r, lines, "")
    ensures block == PrintRequestLine(r) + CRLF + (Unlines(lines) + CRLF)
  {
    assert CRLF + "" == CRLF;
  }

  /**
   Framing and parsing agree: a parsed block is its request's line, one line for each field, spelled
   with any blanks around its value, and the empty line, to the byte.
   */
  lemma FramedBlockIsAccountedFor(block: string) returns (lines: seq<string>)
    requires Framed(block) && Parse(block).Ok?
    ensures SpellAll(lines, Parse(block).value.headers)
    ensures block == PrintRequestLine(Parse(block).value) + CRLF + (Unlines(lines) + CRLF)
  {
    var rest;
    lines, rest := ParsedIsLaidOut(block);
    FramedStopsAtItsEnd(block);
    assert rest == "";
    NothingAfter(block, Parse(block).value, lines);
  }

  /** The missing-CRLF exits of the parser are never taken on a framed block. */
  lemma FramedNeverMissesLineEnd(block: string)
    requires Framed(block)
    ensures Find(block, CRLF, 0).Some?
    ensures ParseHeaders(block, Find(block, CRLF, 0).value + 2) != Err(MissingLineEnd)
  {
    FirstLineOfFramed(block);
    FramedHeaders(block, Find(block, CRLF, 0).value + 2);
  }

  /** What read_header_block returns is framed. */
  lemma ReadBlocksAreFramed(script: seq<Framing.Read>, maxBytes: nat)
    ensures var out := Framing.ReadBlock("", script, maxBytes); out.result.Ok? ==> Framed(out.result.value)
  {
    var out := Framing.ReadBlock("", script, maxBytes);
    var all := Framing.Delivered(script);
    assert "" + all == all;
    Framing.BlockIsPrefix("", script, maxBytes);
    if out.result.Ok? {
      var block := out.result.value;
      assert block == all[..|block|];
      Framing.HeaderEndOfPrefix(all, |block|);
    }
  }

  // ----- Connection reuse (section 9.3 of RFC 9112) -----

  predicate IsTheToken(part: string, token: string) {
    NameEquals(Trim(part, IsOptionalWhitespace), token)
  }

  predicate TokenAmong(parts: seq<string>, token: string) {
    exists i :: 0 <= i < |parts| && IsTheToken(parts[i], token)
  }

  predicate TokenInList(value: string, token: string) {
    TokenAmong(Pieces(value, ','), token)
  }

  predicate ConnectionTokenPresent(r: Request, token: string) {
    var value := HeaderValue(r.headers, "Connection");
    value.Some? && TokenInList(value.value, token)
  }

  predicate KeepAliveRequested(r: Request) {
    if r.versionMajor == 1 && r.versionMinor == 0 then ConnectionTokenPresent(r, "keep-alive")
    else if r.versionMajor == 1 && r.versionMinor == 1 then !ConnectionTokenPresent(r, "close")
    else false
  }

  /** A comma-separated list holds a token if and only if one of its members, less its padding, is that token. */
  lemma TokenInJoinedList(parts: seq<string>, token: string)
    requires parts != [] && forall i :: 0 <= i < |parts| ==> ',' !in parts[i]
    ensures TokenInList(Join(parts, ','), token)
            <==> exists i :: 0 <= i < |parts| && NameEquals(Trim(parts[i], IsOptionalWhitespace), token)
  {
    PiecesOfJoin(parts, ',');
  }

  lemma TokenAmongEither(a: seq<string>, b: seq<string>, token: string)
    ensures TokenAmong(a + b, token) <==> TokenAmong(a, token) || TokenAmong(b, token)
  {
    forall i | 0 <= i < |a| && IsTheToken(a[i], token) ensures TokenAmong(a + b, token) {
      assert (a + b)[i] == a[i];
    }
    forall i | 0 <= i < |b| && IsTheToken(b[i], token) ensures TokenAmong(a + b, token) {
      assert (a + b)[|a| + i] == b[i];
    }
  }

  // ----- Several Connection fields (section 5.3 of RFC 9110) -----

  /** The values of all the fields of a name, in order. */
  function FieldValues(headers: seq<HeaderField>, name: string): seq<string> {
    if headers == [] then []
    else (if NameEquals(headers[0].name, name) then [headers[0].value] else []) + FieldValues(headers[1..], name)
  }

  function ConnectionValues(r: Request): seq<string> {
    FieldValues(r.headers, "Connection")
  }

  /** The standard's reading: the token is in the one list that all the Connection fields make together. */
  predicate ConnectionOptionGiven(r: Request, token: string) {
    ConnectionValues(r) != [] && TokenInList(Join(ConnectionValues(r), ','), token)
  }

  /** The code's: it is in the first of them. */
  lemma {:induction false} FirstFieldIsConsulted(headers: seq<HeaderField>, name: string)
    ensures HeaderValue(headers, name) ==
            if FieldValues(headers, name) == [] then None else Some(FieldValues(headers, name)[0])
  {
    if headers != [] && !NameEquals(headers[0].name, name) {
      FirstFieldIsConsulted(headers[1..], name);
    }
  }

  predicate SomeListHolds(values: seq<string>, token: string) {
    exists k :: 0 <= k < |values| && TokenInList(values[k], token)
  }

  lemma HeldByFirstOrRest(values: seq<string>, token: string)
    requires values != []
    ensures SomeListHolds(values, token) <==> TokenInList(values[0], token) || SomeListHolds(values[1..], token)
  {
    forall k | 0 <= k < |values| - 1 && TokenInList(values[1..][k], token) ensures SomeListHolds(values, token) {
      assert values[k + 1] == values[1..][k];
    }
    forall k | 0 < k < |values| && TokenInList(values[k], token) ensures SomeListHolds(values[1..], token) {
      assert values[1..][k - 1] == values[k];
    }
  }

  /** The combined list holds a token if and only if some field's list does. */
  lemma {:induction false} TokenInCombinedList(values: seq<string>, token: string)
    requires values != []
    ensures TokenInList(Join(values, ','), token) <==> SomeListHolds(values, token)
  {
    if |values| > 1 {
      var rest := Join(values[1..], ',');
      TokenInCombinedList(values[1..], token);
      PiecesOfConcat(values[0], ',', rest);
      TokenAmongEither(Pieces(values[0], ','), Pieces(rest, ','), token);
      HeldByFirstOrRest(values, token);
    }
  }

  predicate FirstHolds(values: seq<string>, token: string) {
    values != [] && TokenInList(values[0], token)
  }

  predicate OnlyLaterHolds(values: seq<string>, token: string) {
    values != [] && !TokenInList(values[0], token) && SomeListHolds(values[1..], token)
  }

  /** What the two readings are, field by field. */
  lemma TwoReadings(r: Request, token: string)
    ensures ConnectionTokenPresent(r, token) <==> FirstHolds(ConnectionValues(r), token)
    ensures ConnectionOptionGiven(r, token) <==> SomeListHolds(ConnectionValues(r), token)
  {
    FirstFieldIsConsulted(r.headers, "Connection");
    if ConnectionValues(r) != [] {
      TokenInCombinedList(ConnectionValues(r), token);
    }
  }

  /** The code finds the token that the standard's list holds, unless only a field after the first holds it. */
  lemma FirstFieldSufficesExactly(r: Request, token: string)
    ensures ConnectionTokenPresent(r, token) == ConnectionOptionGiven(r, token)
            <==> !OnlyLaterHolds(ConnectionValues(r), token)
    ensures |ConnectionValues(r)| <= 1 ==> ConnectionTokenPresent(r, token) == ConnectionOptionGiven(r, token)
  {
    TwoReadings(r, token);
    if ConnectionValues(r) != [] {
      HeldByFirstOrRest(ConnectionValues(r), token);
    }
  }

  /** Whether the connection persists by section 9.3 of RFC 9112, for a server that honours keep-alive in 1.0. */
  predicate Persists(r: Request) {
    !ConnectionOptionGiven(r, "close") && (r.versionMinor == 1 || ConnectionOptionGiven(r, "keep-alive"))
  }

  /**
   The code decides as the standard does exactly if, in version 1.1, `close` is not in later fields
   only; and if, in version 1.0, `close` is in no field when the first holds `keep-alive`, and
   otherwise `keep-alive` is in no later field either or `close` is in some field.
   */
  lemma KeepAliveFollowsStandardExactly(r: Request)
    requires r.versionMajor == 1 && r.versionMinor <= 1
    ensures var values := ConnectionValues(r);
      KeepAliveRequested(r) == Persists(r) <==>
        if r.versionMinor == 1 then !OnlyLaterHolds(values, "close")
        else if FirstHolds(values, "keep-alive") then !SomeListHolds(values, "close")
        else !OnlyLaterHolds(values, "keep-alive") || SomeListHolds(values, "close")
  {
    TwoReadings(r, "close");
    TwoReadings(r, "keep-alive");
    FirstFieldSufficesExactly(r, "close");
    FirstFieldSufficesExactly(r, "keep-alive");
  }

  /** With at most one Connection field, only a version 1.0 request that gives both options is decided otherwise. */
  lemma OneFieldFollowsStandardExactly(r: Request)
    requires r.versionMajor == 1 && r.versionMinor <= 1 && |ConnectionValues(r)| <= 1
    ensures KeepAliveRequested(r) == Persists(r)
            <==> !(r.versionMinor == 0 && ConnectionOptionGiven(r, "keep-alive") && ConnectionOptionGiven(r, "close"))
  {
    KeepAliveFollowsStandardExactly(r);
    TwoReadings(r, "close");
    TwoReadings(r, "keep-alive");
    FirstFieldSufficesExactly(r, "keep-alive");
  }

  const LATE_CLOSE: Request :=
    Request(1, 1, "GET", "/", [HeaderField("Connection", "TE"), HeaderField("Connection", "close")])

  lemma LateCloseIsValid()
    ensures ValidRequest(LATE_CLOSE)
  {
  }

  lemma OneField(a: HeaderField)
    requires NameEquals(a.name, "Connection")
    ensures FieldValues([a], "Connection") == [a.value]
  {
    assert [a][1..] == [];
  }

  lemma TwoFields(a: HeaderField, b: HeaderField)
    requires NameEquals(a.name, "Connection") && NameEquals(b.name, "Connection")
    ensures FieldValues([a, b], "Connection") == [a.value, b.value]
  {
    OneField(b);
    assert [a, b][1..] == [b];
  }

  lemma SingleMember(s: string, token: string)
    requires ',' !in s && Trimmed(s, IsOptionalWhitespace)
    ensures TokenInList(s, token) <==> NameEquals(s, token)
  {
    PiecesOfJoin([s], ',');
    TrimmedIsFixed(s, IsOptionalWhitespace);
    assert [s][0] == s;
  }

  /** A request to close that the code does not see. */
  lemma CloseInSecondFieldIsMissed()
    ensures ValidRequest(LATE_CLOSE) && ConnectionOptionGiven(LATE_CLOSE, "close")
    ensures KeepAliveRequested(LATE_CLOSE) && !Persists(LATE_CLOSE)
  {
    LateCloseIsValid();
    TwoFields(HeaderField("Connection", "TE"), HeaderField("Connection", "close"));
    SingleMember("TE", "close");
    SingleMember("close", "close");
    TwoReadings(LATE_CLOSE, "close");
    HeldByFirstOrRest(["TE", "close"], "close");
    HeldByFirstOrRest(["close"], "close");
  }

  const BOTH_OPTIONS: Request := Request(1, 0, "GET", "/", [HeaderField("Connection", "keep-alive,close")])

  lemma BothOptionsAreValid()
    ensures ValidRequest(BOTH_OPTIONS)
  {
  }

  lemma TwoMembers(s: string, a: string, b: string, token: string)
    requires s == a + [','] + b
    ensures TokenInList(s, token) <==> TokenInList(a, token) || TokenInList(b, token)
  {
    PiecesOfConcat(a, ',', b);
    TokenAmongEither(Pieces(a, ','), Pieces(b, ','), token);
  }

  lemma BothInOneField()
    ensures TokenInList("keep-alive,close", "keep-alive") && TokenInList("keep-alive,close", "close")
  {
    SingleMember("keep-alive", "keep-alive");
    SingleMember("close", "close");
    TwoMembers("keep-alive,close", "keep-alive", "close", "keep-alive");
    TwoMembers("keep-alive,close", "keep-alive", "close", "close");
  }

  /** Version 1.0 and both options in one field: the standard closes, the code does not. */
  lemma CloseBesideKeepAliveIsMissed()
    ensures ValidRequest(BOTH_OPTIONS) && KeepAliveRequested(BOTH_OPTIONS) && !Persists(BOTH_OPTIONS)
  {
    BothOptionsAreValid();
    OneField(HeaderField("Connection", "keep-alive,close"));
    BothInOneField();
    TwoReadings(BOTH_OPTIONS, "close");
    TwoReadings(BOTH_OPTIONS, "keep-alive");
    HeldByFirstOrRest(["keep-alive,close"], "close");
  }

  lemma OneMorePart(parts: seq<string>, part: string, token: string)
    ensures TokenAmong(parts + [part], token) <==> TokenAmong(parts, token) || IsTheToken(part, token)
  {
    if TokenAmong(parts, token) {
      var i :| 0 <= i < |parts| && IsTheToken(parts[i], token);
      assert (parts + [part])[i] == parts[i];
    }
    assert (parts + [part])[|parts|] == part;
  }

  /** The loop over the comma-separated members. */
  method FindToken(value: string, token: string) returns (present: bool)
    ensures present == TokenInList(value, token)
  {
    ghost var seen: seq<string> := [];
    var begin := 0;
    SplitStart(value, ',');
    while begin <= |value|
      invariant Pending(value, ',', begin, seen) && !TokenAmong(seen, token)
      decreases |value| - begin
    {
      var comma := FindChar(value, ',', begin);
      var end := if comma.Some? then comma.value else |value|;
      var piece := value[begin..end];
      if comma.Some? {
        SplitMore(value, ',', begin, seen, end);
      } else {
        SplitLast(value, ',', begin, seen);
        assert value[begin..] == piece;
      }
      assert Pieces(value, ',')[|seen|] == piece;
      OneMorePart(seen, piece, token);
      var part := TrimByIndex(piece, IsOptionalWhitespace);
      if NameEquals(part, token) {
        return true;
      }
      seen := seen + [piece];
      if comma.None? {
        break;
      }
      begin := end + 1;
    }
    return false;
  }

  method FindConnectionToken(r: Request, token: string) returns (present: bool)
    ensures present == ConnectionTokenPresent(r, token)
    ensures present == ConnectionOptionGiven(r, token) <==> !OnlyLaterHolds(ConnectionValues(r), token)
  {
    FirstFieldSufficesExactly(r, token);
    var header := HeaderValue(r.headers, "Connection");
    if header.None? {
      return false;
    }
    present := FindToken(header.value, token);
  }
}

/** Serializing a response, and reading the wire text back. */
module HttpResponse {
  import opened Wrappers
  import opened Sequences
  import opened Text
  import opened Decimal
  import opened Messages

  datatype ConnectionPolicy = CloseConnection | KeepAlive

  predicate ValidHeaderValue(value: string) {
    '\r' !in value && '\n' !in value
  }

  predicate ContentTypeWritten(r: Response) {
    r.contentType != "" && ValidHeaderValue(r.contentType)
  }

  predicate IsReserved(name: string, contentTypeWritten: bool) {
    || NameEquals(name, "Connection")
    || NameEquals(name, "Content-Length")
    || (contentTypeWritten && NameEquals(name, "Content-Type"))
  }

  predicate Written(header: HeaderField, contentTypeWritten: bool) {
    !IsReserved(header.name, contentTypeWritten) && IsToken(header.name) && ValidHeaderValue(header.value)
  }

  function PolicyText(policy: ConnectionPolicy): string {
    if policy.KeepAlive? then "keep-alive" else "close"
  }

  function WireBodySize(r: Response): nat {
    match r.contentLength
    case Some(n) => n
    case None => |r.body|
  }

  function StatusLine(r: Response): string {
    "HTTP/1.1 " + IntText(r.status) + " " + r.reason
  }

  function FieldLine(name: string, value: string): string {
    name + ": " + value
  }

  function CustomLines(headers: seq<HeaderField>, contentTypeWritten: bool): seq<string> {
    if headers == [] then []
    else (if Written(headers[0], contentTypeWritten) then [FieldLine(headers[0].name, headers[0].value)] else [])
         + CustomLines(headers[1..], contentTypeWritten)
  }

  function FixedFields(r: Response, policy: ConnectionPolicy): seq<HeaderField> {
    [HeaderField("Connection", PolicyText(policy)), HeaderField("Content-Length", Digits(WireBodySize(r)))]
    + if ContentTypeWritten(r) then [HeaderField("Content-Type", r.contentType)] else []
  }

  function LinesFor(fields: seq<HeaderField>): (lines: seq<string>)
    ensures |lines| == |fields|
    ensures forall i :: 0 <= i < |fields| ==> lines[i] == FieldLine(fields[i].name, fields[i].value)
  {
    seq(|fields|, i requires 0 <= i < |fields| => FieldLine(fields[i].name, fields[i].value))
  }

  function HeadLines(r: Response, policy: ConnectionPolicy): seq<string> {
    [StatusLine(r)] + LinesFor(FixedFields(r, policy)) + CustomLines(r.headers, ContentTypeWritten(r))
  }

  /** response::serialize. */
  function Serialize(r: Response, policy: ConnectionPolicy): string {
    Unlines(HeadLines(r, policy)) + (CRLF + r.body)
  }

  lemma {:induction false} UnlinesConcat(first: seq<string>, second: seq<string>)
    ensures Unlines(first + second) == Unlines(first) + Unlines(second)
  {
    if first == [] {
      assert first + second == second;
    } else {
      assert (first + second)[1..] == first[1..] + second;
      UnlinesConcat(first[1..], second);
      ConcatIsAssociative(first[0] + CRLF, Unlines(first[1..]), Unlines(second));
    }
  }

  lemma UnlinesOne(line: string)
    ensures Unlines([line]) == line + CRLF
  {
    assert [line][1..] == [];
    assert line + CRLF + "" == line + CRLF;
  }

  lemma AppendLine(lines: seq<string>, line: string)
    ensures Unlines(lines + [line]) == Unlines(lines) + (line + CRLF)
  {
    UnlinesConcat(lines, [line]);
    UnlinesOne(line);
  }

  lemma CustomStep(lines: seq<string>, headers: seq<HeaderField>, i: nat, contentTypeWritten: bool)
    requires i < |headers|
    ensures lines + CustomLines(headers[i..], contentTypeWritten)
         == (if Written(headers[i], contentTypeWritten) then lines + [FieldLine(headers[i].name, headers[i].value)] else lines)
            + CustomLines(headers[i + 1..], contentTypeWritten)
  {
    assert headers[i..][1..] == headers[i + 1..];
    if Written(headers[i], contentTypeWritten) {
      var line, rest := FieldLine(headers[i].name, headers[i].value), CustomLines(headers[i + 1..], contentTypeWritten);
      assert lines + ([line] + rest) == lines + [line] + rest;
    } else {
      assert [] + CustomLines(headers[i + 1..], contentTypeWritten) == CustomLines(headers[i + 1..], contentTypeWritten);
    }
  }

  /** The stream the source writes to, line by line. */
  method SerializeByStream(r: Response, policy: ConnectionPolicy) returns (wire: string)
    ensures wire == Serialize(r, policy)
  {
    var contentTypeWritten := ContentTypeWritten(r);
    ghost var lines := [StatusLine(r)];
    wire := StatusLine(r) + CRLF;
    UnlinesOne(StatusLine(r));

    var fixed := FixedFields(r, policy);
    for i := 0 to |fixed|
      invariant lines == [StatusLine(r)] + LinesFor(fixed)[..i]
      invariant wire == Unlines(lines)
    {
      var line := FieldLine(fixed[i].name, fixed[i].value);
      AppendLine(lines, line);
      lines, wire := lines + [line], wire + (line + CRLF);
    }
    assert LinesFor(fixed)[..|fixed|] == LinesFor(fixed);

    ghost var before := lines;
    assert r.headers[0..] == r.headers;
    for i := 0 to |r.headers|
      invariant lines + CustomLines(r.headers[i..], contentTypeWritten)
             == before + CustomLines(r.headers, contentTypeWritten)
      invariant wire == Unlines(lines)
    {
      var header := r.headers[i];
      CustomStep(lines, r.headers, i, contentTypeWritten);
      if IsReserved(header.name, contentTypeWritten) {
        continue;
      }
      if !IsToken(header.name) || !ValidHeaderValue(header.value) {
        continue;
      }
      var line := FieldLine(header.name, header.value);
      AppendLine(lines, line);
      lines, wire := lines + [line], wire + (line + CRLF);
    }
    assert lines + [] == lines;
    wire := wire + (CRLF + r.body);
  }

  // ----- Reading the wire text back -----

  /** A field line as section 5 of RFC 9112 reads it: a name, a colon, a value less the whitespace around it. */
  function ReadField(line: string): Option<HeaderField> {
    match FindChar(line, ':', 0)
    case None => None
    case Some(colon) => Some(HeaderField(line[..colon], Trim(line[colon + 1..], IsOptionalWhitespace)))
  }

  function ReadFields(lines: seq<string>): Option<seq<HeaderField>> {
    if lines == [] then Some([])
    else match ReadField(lines[0])
      case None => None
      case Some(field) =>
        match ReadFields(lines[1..])
        case None => None
        case Some(rest) => Some([field] + rest)
  }

  datatype Reading = Reading(statusLine: string, fields: seq<HeaderField>, body: string)

  function FirstEmptyLineOf(wire: string): (end: Option<nat>)
    ensures end.Some? ==> end.value + 4 <= |wire|
  {
    FindIsFirst(wire, HEADER_END, 0);
    Find(wire, HEADER_END, 0)
  }

  /** A recipient: the head ends at the first empty line, its first line is the status line. */
  function ReadResponse(wire: string): Option<Reading> {
    match FirstEmptyLineOf(wire)
    case None => None
    case Some(end) =>
      var lines := LinesOf(wire[..end + 2]);
      if lines == [] then None
      else match ReadFields(lines[1..])
        case None => None
        case Some(fields) => Some(Reading(lines[0], fields, wire[end + 4..]))
  }

  function TrimmedField(field: HeaderField): HeaderField {
    field.(value := Trim(field.value, IsOptionalWhitespace))
  }

  function TrimmedFields(fields: seq<HeaderField>): seq<HeaderField> {
    if fields == [] then [] else [TrimmedField(fields[0])] + TrimmedFields(fields[1..])
  }

  /** The custom headers that survive, in their order. */
  function WrittenHeaders(headers: seq<HeaderField>, contentTypeWritten: bool): seq<HeaderField> {
    if headers == [] then []
    else (if Written(headers[0], contentTypeWritten) then [headers[0]] else [])
         + WrittenHeaders(headers[1..], contentTypeWritten)
  }

  function SentFields(r: Response, policy: ConnectionPolicy): seq<HeaderField> {
    FixedFields(r, policy) + WrittenHeaders(r.headers, ContentTypeWritten(r))
  }

  ghost predicate Sendable(field: HeaderField) {
    IsToken(field.name) && ValidHeaderValue(field.value)
  }

  lemma {:induction false} CustomLinesAreWritten(headers: seq<HeaderField>, contentTypeWritten: bool)
    ensures CustomLines(headers, contentTypeWritten) == LinesFor(WrittenHeaders(headers, contentTypeWritten))
    ensures forall i :: 0 <= i < |WrittenHeaders(headers, contentTypeWritten)| ==>
              && WrittenHeaders(headers, contentTypeWritten)[i] in headers
              && Written(WrittenHeaders(headers, contentTypeWritten)[i], contentTypeWritten)
  {
    if headers != [] {
      CustomLinesAreWritten(headers[1..], contentTypeWritten);
    }
  }

  lemma FixedFieldsAreSendable(r: Response, policy: ConnectionPolicy)
    ensures forall i :: 0 <= i < |FixedFields(r, policy)| ==> Sendable(FixedFields(r, policy)[i])
  {
    DigitsAreDigits(WireBodySize(r));
    assert IsToken("Connection") && IsToken("Content-Length") && IsToken("Content-Type");
  }

  lemma LinesForConcat(first: seq<HeaderField>, second: seq<HeaderField>)
    ensures LinesFor(first + second) == LinesFor(first) + LinesFor(second)
  {
  }

  lemma HeadLinesAreSent(r: Response, policy: ConnectionPolicy)
    ensures HeadLines(r, policy) == [StatusLine(r)] + LinesFor(SentFields(r, policy))
    ensures forall i :: 0 <= i < |SentFields(r, policy)| ==> Sendable(SentFields(r, policy)[i])
  {
    var fixed, custom := FixedFields(r, policy), WrittenHeaders(r.headers, ContentTypeWritten(r));
    CustomLinesAreWritten(r.headers, ContentTypeWritten(r));
    FixedFieldsAreSendable(r, policy);
    LinesForConcat(fixed, custom);
    assert [StatusLine(r)] + LinesFor(fixed) + LinesFor(custom) == [StatusLine(r)] + (LinesFor(fixed) + LinesFor(custom));
    forall i | 0 <= i < |fixed + custom| ensures Sendable((fixed + custom)[i]) {
      assert (fixed + custom)[i] == if i < |fixed| then fixed[i] else custom[i - |fixed|];
    }
  }

  lemma FieldLineReadsBack(field: HeaderField)
    requires Sendable(field)
    ensures var line := FieldLine(field.name, field.value);
      line != "" && OneLine(line) && ReadField(line) == Some(TrimmedField(field))
  {
    var line := FieldLine(field.name, field.value);
    TokenHasNoSeparators(field.name);
    assert line == field.name + [':'] + (" " + field.value);
    ConcatDivides(line, field.name, ':', " " + field.value);
    FindAfterFree(line, field.name, ':', " " + field.value);
    assert (" " + field.value)[1..] == field.value;
    NoReturnIsOneLine(line);
  }

  lemma {:induction false} FieldsReadBack(fields: seq<HeaderField>)
    requires forall i :: 0 <= i < |fields| ==> Sendable(fields[i])
    ensures ReadFields(LinesFor(fields)) == Some(TrimmedFields(fields))
  {
    if fields != [] {
      FieldLineReadsBack(fields[0]);
      assert LinesFor(fields)[1..] == LinesFor(fields[1..]);
      FieldsReadBack(fields[1..]);
    }
  }

  lemma PrefixIsOneLine(prefix: string, s: string)
    requires '\r' !in prefix
    ensures OneLine(prefix + s) <==> OneLine(s)
  {
    var line := prefix + s;
    forall k: int ensures MatchAt(line, k, CRLF) <==> MatchAt(s, k - |prefix|, CRLF) {
      MatchTwo(line, k, CRLF);
      MatchTwo(s, k - |prefix|, CRLF);
      if 0 <= k < |prefix| {
        assert line[k] == prefix[k];
      }
    }
    if OneLine(line) {
      forall k: int ensures !MatchAt(s, k, CRLF) {
        assert !MatchAt(line, k + |prefix|, CRLF);
      }
    }
  }

  lemma StatusLineIsOneLine(r: Response)
    ensures OneLine(StatusLine(r)) <==> OneLine(r.reason)
  {
    var prefix := "HTTP/1.1 " + IntText(r.status) + " ";
    IntTextChars(r.status);
    assert StatusLine(r) == prefix + r.reason;
    assert '\r' !in prefix;
    PrefixIsOneLine(prefix, r.reason);
  }

  /** The status code and the reason are read off the status line by its first two spaces. */
  lemma StatusLineReadsBack(r: Response)
    ensures var line := StatusLine(r);
      var sp2 := 9 + |IntText(r.status)|;
      && FindChar(line, ' ', 0) == Some(8) && FindChar(line, ' ', 9) == Some(sp2)
      && line[9..sp2] == IntText(r.status) && line[sp2 + 1..] == r.reason
  {
    var line, code := StatusLine(r), IntText(r.status);
    IntTextChars(r.status);
    assert forall k :: 0 <= k < |code| ==> code[k] in code;
    assert line[0] == 'H' && line[1] == 'T' && line[2] == 'T' && line[3] == 'P' && line[4] == '/';
    assert line[5] == '1' && line[6] == '.' && line[7] == '1' && line[8] == ' ';
    assert forall k :: 9 <= k < 9 + |code| ==> line[k] == code[k - 9];
    assert line[9 + |code|] == ' ';
  }

  lemma HeadLinesAreClean(r: Response, policy: ConnectionPolicy)
    requires OneLine(r.reason)
    ensures var lines := LinesFor(SentFields(r, policy));
      && StatusLine(r) != "" && OneLine(StatusLine(r))
      && forall i :: 0 <= i < |lines| ==> lines[i] != "" && OneLine(lines[i])
  {
    HeadLinesAreSent(r, policy);
    StatusLineIsOneLine(r);
    var sent := SentFields(r, policy);
    forall i | 0 <= i < |sent| ensures LinesFor(sent)[i] != "" && OneLine(LinesFor(sent)[i]) {
      FieldLineReadsBack(sent[i]);
    }
  }

  /** The wire is a head of these lines, the empty line, and the body. */
  ghost predicate HasHead(wire: string, all: seq<string>, body: string) {
    && FirstEmptyLineOf(wire).Some?
    && var end := FirstEmptyLineOf(wire).value;
       LinesOf(wire[..end + 2]) == all && wire[end + 4..] == body
  }

  lemma ReadHead(wire: string, all: seq<string>, body: string)
    requires HasHead(wire, all, body) && all != []
    ensures ReadResponse(wire) == match ReadFields(all[1..])
                                  case None => None
                                  case Some(fields) => Some(Reading(all[0], fields, body))
  {
  }

  lemma HeadBeforeBody(wire: string, head: string, all: seq<string>, body: string)
    requires |head| >= 2 && |wire| >= |head| + 2 && FirstEmptyLineOf(wire) == Some(|head| - 2)
    requires wire[..|head|] == head && wire[|head| + 2..] == body && head == Unlines(all)
    requires forall i :: 0 <= i < |all| ==> OneLine(all[i])
    ensures HasHead(wire, all, body)
  {
    LinesOfUnlines(all);
    assert FirstEmptyLineOf(wire).value + 2 == |head|;
  }

  lemma HeadIsRead(wire: string, all: seq<string>, body: string)
    requires all != [] && wire == Unlines(all) + (CRLF + body)
    requires forall i :: 0 <= i < |all| ==> all[i] != "" && OneLine(all[i])
    ensures HasHead(wire, all, body)
  {
    FirstEmptyLine(wire, all, body);
    HeadBeforeBody(wire, Unlines(all), all, body);
  }

  lemma ReadLines(wire: string, first: string, lines: seq<string>, body: string)
    requires wire == Unlines([first] + lines) + (CRLF + body)
    requires first != "" && OneLine(first)
    requires forall i :: 0 <= i < |lines| ==> lines[i] != "" && OneLine(lines[i])
    ensures ReadResponse(wire) == match ReadFields(lines)
                                  case None => None
                                  case Some(fields) => Some(Reading(first, fields, body))
  {
    var all := [first] + lines;
    HeadIsRead(wire, all, body);
    ReadHead(wire, all, body);
    assert all[1..] == lines && all[0] == first;
  }

  /**
   For a reason without a line end, the wire text reads back exactly: the head ends at the first
   empty line, the body follows it verbatim, and the fields are the fixed ones and then the valid
   custom ones in order, values less the whitespace around them. Header contents are arbitrary.
   */
  lemma SerializedReadsBack(r: Response, policy: ConnectionPolicy)
    requires OneLine(r.reason)
    ensures ReadResponse(Serialize(r, policy))
         == Some(Reading(StatusLine(r), TrimmedFields(SentFields(r, policy)), r.body))
  {
    HeadLinesAreSent(r, policy);
    HeadLinesAreClean(r, policy);
    ReadLines(Serialize(r, policy), StatusLine(r), LinesFor(SentFields(r, policy)), r.body);
    FieldsReadBack(SentFields(r, policy));
  }

  /** The head holds a line end at `cut`, or an earlier one at its own end. */
  lemma MatchInPrefix(wire: string, end: nat, cut: nat)
    requires MatchAt(wire, end, HEADER_END) && MatchAt(wire, cut, CRLF)
    ensures MatchAt(wire[..end + 2], if cut < end then cut else end, CRLF)
  {
    var at := if cut < end then cut else end;
    MatchFour(wire, end, HEADER_END);
    MatchTwo(wire, cut, CRLF);
    MatchTwo(wire[..end + 2], at, CRLF);
  }

  /** A head whose text starts with a line holding a line end has a shorter first line. */
  lemma HeadIsCut(wire: string, line: string)
    requires line <= wire && !OneLine(line)
    ensures FirstEmptyLineOf(wire).Some? ==>
              var head := wire[..FirstEmptyLineOf(wire).value + 2];
              LinesOf(head) != [] && |LinesOf(head)[0]| < |line|
  {
    var cut: int :| MatchAt(line, cut, CRLF);
    assert wire[cut..cut + 2] == line[cut..cut + 2];
    FindIsFirst(wire, HEADER_END, 0);
    if Find(wire, HEADER_END, 0).Some? {
      var end := Find(wire, HEADER_END, 0).value;
      FindIsFirst(wire[..end + 2], CRLF, 0);
      MatchInPrefix(wire, end, cut);
    }
  }

  lemma StatusLineStartsWire(r: Response, policy: ConnectionPolicy)
    ensures StatusLine(r) <= Serialize(r, policy)
  {
    assert HeadLines(r, policy)[0] == StatusLine(r);
  }

  /** A reason that holds a line end never reads back: the status line comes out shorter. */
  lemma ReasonWithLineEndIsCut(r: Response, policy: ConnectionPolicy)
    requires !OneLine(r.reason)
    ensures ReadResponse(Serialize(r, policy)).Some? ==>
              |ReadResponse(Serialize(r, policy)).value.statusLine| < |StatusLine(r)|
  {
    StatusLineIsOneLine(r);
    StatusLineStartsWire(r, policy);
    HeadIsCut(Serialize(r, policy), StatusLine(r));
  }

  /** So the wire text reads back if and only if the reason is free of line ends. */
  lemma ReadsBackIffReasonIsOneLine(r: Response, policy: ConnectionPolicy)
    ensures ReadResponse(Serialize(r, policy))
         == Some(Reading(StatusLine(r), TrimmedFields(SentFields(r, policy)), r.body))
        <==> OneLine(r.reason)
  {
    if OneLine(r.reason) {
      SerializedReadsBack(r, policy);
    } else {
      ReasonWithLineEndIsCut(r, policy);
    }
  }

  /** Whatever the custom headers are, the framing fields are sent once each, and say what the server decided. */
  lemma FramingFieldsAreUnique(r: Response, policy: ConnectionPolicy)
    ensures var sent := SentFields(r, policy);
      && |sent| >= 2
      && sent[0] == HeaderField("Connection", PolicyText(policy))
      && sent[1] == HeaderField("Content-Length", Digits(WireBodySize(r)))
      && (forall i :: 0 <= i < |sent| && NameEquals(sent[i].name, "Connection") ==> i == 0)
      && (forall i :: 0 <= i < |sent| && NameEquals(sent[i].name, "Content-Length") ==> i == 1)
      && (ContentTypeWritten(r) ==>
            && |sent| >= 3 && sent[2] == HeaderField("Content-Type", r.contentType)
            && forall i :: 0 <= i < |sent| && NameEquals(sent[i].name, "Content-Type") ==> i == 2)
  {
    CustomLinesAreWritten(r.headers, ContentTypeWritten(r));
    var fixed := FixedFields(r, policy);
    var custom := WrittenHeaders(r.headers, ContentTypeWritten(r));
    assert |"Connection"| != |"Content-Length"| && |"Content-Type"| != |"Content-Length"| && |"Connection"| != |"Content-Type"|;
    forall i | |fixed| <= i < |fixed + custom| ensures Written((fixed + custom)[i], ContentTypeWritten(r)) {
      assert (fixed + custom)[i] == custom[i - |fixed|];
    }
  }
}

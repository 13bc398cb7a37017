/** Reading the router's routes. A status is taken to fit the source's int. */
module RouterConfig {
  import opened Wrappers
  import opened Text
  import opened Decimal
  import opened Fields
  import opened RuleText
  import opened Messages

  datatype Action = Pass | Respond(response: Response)

  datatype Route = Route(methodPattern: string, targetPattern: string, targetKind: PatternKind, action: Action)

  datatype RouteError =
    | TooFewFields
    | EmptyMethod
    | EmptyTarget
    | UnsupportedAction
    | WrongFieldCount
    | EmptyStatus
    | InvalidStatus
    | StatusOutOfRange

  function StatusOf(s: string): Result<nat, RouteError> {
    if s == "" then Err(EmptyStatus)
    else if !AllDigits(s) then Err(InvalidStatus)
    else if 100 <= Value(s) <= 999 then Ok(Value(s))
    else Err(StatusOutOfRange)
  }

  /** `highest` is the greatest value that the loop computes: for a status, the status itself. */
  method ParseStatusCode(value: string) returns (result: Result<nat, RouteError>, ghost highest: nat)
    ensures result == StatusOf(value)
    ensures result.Ok? ==> highest == result.value
  {
    highest := 0;
    if value == "" {
      return Err(EmptyStatus), highest;
    }
    var status: nat := 0;
    for i := 0 to |value|
      invariant AllDigits(value[..i]) && status == Value(value[..i]) && highest == status
    {
      if !IsDigit(value[i]) {
        return Err(InvalidStatus), highest;
      }
      highest := if highest < status * 10 then status * 10 else highest;
      assert value[..i + 1][..i] == value[..i];
      status := status * 10 + (value[i] as int - '0' as int);
      highest := if highest < status then status else highest;
    }
    assert value[..|value|] == value;
    return if status < 100 || status > 999 then Err(StatusOutOfRange) else Ok(status), highest;
  }

  function ReasonPhrase(status: int): string {
    match status
    case 200 => "OK"
    case 201 => "Created"
    case 202 => "Accepted"
    case 204 => "No Content"
    case 400 => "Bad Request"
    case 401 => "Unauthorized"
    case 403 => "Forbidden"
    case 404 => "Not Found"
    case 405 => "Method Not Allowed"
    case 409 => "Conflict"
    case 429 => "Too Many Requests"
    case 500 => "Internal Server Error"
    case 501 => "Not Implemented"
    case 503 => "Service Unavailable"
    case _ => "OK"
  }

  function RespondWith(status: int, contentType: string, body: string): Action {
    Respond(Response(status, ReasonPhrase(status), contentType, [], body, None))
  }

  function ActionOf(fields: seq<string>): Result<Action, RouteError>
    requires |fields| >= 3
  {
    if fields[2] == "pass" then Ok(Pass)
    else if fields[2] != "respond" then Err(UnsupportedAction)
    else if |fields| != 6 then Err(WrongFieldCount)
    else match StatusOf(fields[3])
      case Err(e) => Err(e)
      case Ok(status) => Ok(RespondWith(status, fields[4], fields[5]))
  }

  function RouteOf(fields: seq<string>): Result<Route, RouteError> {
    if |fields| < 3 then Err(TooFewFields)
    else
      var (kind, target) := ClassifyTarget(fields[1]);
      if fields[0] == "" then Err(EmptyMethod)
      else if target == "" then Err(EmptyTarget)
      else match ActionOf(fields)
        case Err(e) => Err(e)
        case Ok(action) => Ok(Route(fields[0], target, kind, action))
  }

  const ROUTE: string := "route="

  function RoutesOf(text: string): Result<seq<Route>, RouteError> {
    EntriesOf(text, ROUTE, RouteOf)
  }

  method ParseRoutes(text: string) returns (result: Result<seq<Route>, RouteError>)
    ensures result == RoutesOf(text)
  {
    result := ReadLines(text, LineReader(ROUTE, RouteOf));
  }

  // ----- What is accepted -----

  predicate IsStatus(s: string) {
    s != "" && AllDigits(s) && 100 <= Value(s) <= 999
  }

  /** The fields of a route: a method, a target with something before its '*', and pass, or a response with a status. */
  predicate Acceptable(fields: seq<string>) {
    && |fields| >= 3
    && fields[0] != "" && fields[1] != "" && fields[1] != "*"
    && (fields[2] == "pass" || (fields[2] == "respond" && |fields| == 6 && IsStatus(fields[3])))
  }

  /** Fields are taken for a route if and only if they are acceptable, and then for the route that they write down. */
  lemma RouteMeansItsFields(fields: seq<string>)
    ensures RouteOf(fields).Ok? <==> Acceptable(fields)
    ensures RouteOf(fields).Ok? ==> var route := RouteOf(fields).value;
      && route.methodPattern == fields[0]
      && PatternText(route.targetKind, route.targetPattern) == fields[1]
      && match route.action
         case Pass => fields[2] == "pass"
         case Respond(r) =>
           && fields[2] == "respond" && r.status == Value(fields[3])
           && r.contentType == fields[4] && r.body == fields[5] && r.headers == []
  {
    if |fields| >= 3 {
      var (kind, stem) := ClassifyTarget(fields[1]);
      ClassifiedAsWritten(kind, stem, fields[1]);
    }
  }

  /** A text is accepted if and only if the fields of each of its route lines are; each then gives one route. */
  lemma RoutesAcceptedExactly(text: string)
    ensures RoutesOf(text).Ok? <==>
      forall raw :: raw in Pieces(text, '\n') && IsEntryLine(raw, ROUTE) ==> Acceptable(FieldsAfter(raw, ROUTE))
    ensures RoutesOf(text).Ok? ==> |RoutesOf(text).value| == EntryLines(Pieces(text, '\n'), ROUTE)
  {
    TextAcceptedExactly(text, ROUTE, RouteOf);
    forall raw | IsEntryLine(raw, ROUTE)
      ensures RouteOf(FieldsAfter(raw, ROUTE)).Ok? <==> Acceptable(FieldsAfter(raw, ROUTE))
    {
      RouteMeansItsFields(FieldsAfter(raw, ROUTE));
    }
  }

  // ----- Printing -----

  function ActionFields(action: Action): seq<string> {
    match action
    case Pass => ["pass"]
    case Respond(r) => ["respond", IntText(r.status), r.contentType, r.body]
  }

  function RouteFields(route: Route): seq<string> {
    [route.methodPattern, PatternText(route.targetKind, route.targetPattern)] + ActionFields(route.action)
  }

  /** The routes that have a line. */
  predicate IsRoute(route: Route) {
    && route.methodPattern != "" && route.targetPattern != ""
    && IsField(route.methodPattern) && IsField(PatternText(route.targetKind, route.targetPattern))
    && HasPatternText(route.targetKind, route.targetPattern)
    && match route.action
       case Pass => true
       case Respond(r) =>
         && 100 <= r.status <= 999
         && IsField(r.contentType) && IsField(r.body)
         && route.action == RespondWith(r.status, r.contentType, r.body)
  }

  lemma StatusIsField(status: int)
    requires 100 <= status <= 999
    ensures IsField(IntText(status)) && StatusOf(IntText(status)) == Ok(status)
  {
    ValueOfDigits(status);
    DigitsAreDigits(status);
    var text := IntText(status);
    assert forall c :: c in text ==> IsDigit(c);
    assert text[0] in text && text[|text| - 1] in text;
  }

  /** Every such route is the meaning of the fields it prints. */
  lemma RouteOfItsFields(route: Route)
    requires IsRoute(route)
    ensures AreFields(RouteFields(route)) && RouteOf(RouteFields(route)) == Ok(route)
  {
    ClassifiedAsWritten(route.targetKind, route.targetPattern, "");
    if route.action.Respond? {
      StatusIsField(route.action.response.status);
    }
  }

  /** A line of a route file: a route, or anything the reader skips. */
  ghost predicate IsRouteFileLine(line: Line<Route>) {
    match line
    case Printed(left, route, right) => IsRoute(route) && forall c :: c in left || c in right ==> IsSpace(c) && c != '\n'
    case Skipped(raw) => '\n' !in raw && !IsEntryLine(raw, ROUTE)
  }

  /** Whatever lines are skipped between them, and whatever blanks surround them, the printed routes are read, in order. */
  lemma PrintedRoutesReadBack(lines: seq<Line<Route>>)
    requires forall line :: line in lines ==> IsRouteFileLine(line)
    ensures RoutesOf(TextOf(lines, ROUTE, RouteFields)) == Ok(EntriesIn(lines))
  {
    forall i | 0 <= i < |lines| ensures IsLine(lines[i], ROUTE, RouteFields, RouteOf) {
      assert lines[i] in lines;
      if lines[i].Printed? {
        RouteOfItsFields(lines[i].entry);
      }
    }
    PrintedTextReadsBack(lines, ROUTE, RouteFields, RouteOf);
  }

  // ----- Every route read can be printed -----

  lemma RouteOfIsRoute(fields: seq<string>)
    requires forall i :: 0 <= i < |fields| ==> IsField(fields[i])
    ensures RouteOf(fields).Ok? ==> IsRoute(RouteOf(fields).value)
  {
    RouteMeansItsFields(fields);
    if |fields| >= 3 {
      var (kind, stem) := ClassifyTarget(fields[1]);
      ClassifiedAsWritten(kind, stem, fields[1]);
    }
  }

  /** Every route read from a text can be printed: reading never yields a route that no line denotes. */
  lemma ReadRoutesAreRoutes(text: string)
    requires RoutesOf(text).Ok?
    ensures forall route :: route in RoutesOf(text).value ==> IsRoute(route)
  {
    JoinOfPieces(text, '\n');
    forall raw, route | raw in Pieces(text, '\n')
        && LineReader(ROUTE, RouteOf)(raw).Ok? && route in LineReader(ROUTE, RouteOf)(raw).value
      ensures IsRoute(route)
    {
      FieldsAreFields(raw, ROUTE);
      RouteOfIsRoute(FieldsAfter(raw, ROUTE));
    }
    GatheredHave(Pieces(text, '\n'), LineReader(ROUTE, RouteOf), IsRoute);
  }

  /** Printing what was read, and reading it again, changes nothing. */
  lemma ReadPrintRead(text: string)
    requires RoutesOf(text).Ok?
    ensures RoutesOf(TextOf(PlainLines(RoutesOf(text).value), ROUTE, RouteFields)) == RoutesOf(text)
  {
    var routes := RoutesOf(text).value;
    ReadRoutesAreRoutes(text);
    EntriesInPlainLines(routes);
    PrintedRoutesReadBack(PlainLines(routes));
  }

  // ----- Reason phrases -----

  /** The phrases of section 15 of RFC 9110, and those of RFC 6585. */
  function StandardReason(status: int): Option<string> {
    match status
    case 100 => Some("Continue")
    case 101 => Some("Switching Protocols")
    case 200 => Some("OK")
    case 201 => Some("Created")
    case 202 => Some("Accepted")
    case 203 => Some("Non-Authoritative Information")
    case 204 => Some("No Content")
    case 205 => Some("Reset Content")
    case 206 => Some("Partial Content")
    case 300 => Some("Multiple Choices")
    case 301 => Some("Moved Permanently")
    case 302 => Some("Found")
    case 303 => Some("See Other")
    case 304 => Some("Not Modified")
    case 305 => Some("Use Proxy")
    case 307 => Some("Temporary Redirect")
    case 308 => Some("Permanent Redirect")
    case 400 => Some("Bad Request")
    case 401 => Some("Unauthorized")
    case 402 => Some("Payment Required")
    case 403 => Some("Forbidden")
    case 404 => Some("Not Found")
    case 405 => Some("Method Not Allowed")
    case 406 => Some("Not Acceptable")
    case 407 => Some("Proxy Authentication Required")
    case 408 => Some("Request Timeout")
    case 409 => Some("Conflict")
    case 410 => Some("Gone")
    case 411 => Some("Length Required")
    case 412 => Some("Precondition Failed")
    case 413 => Some("Content Too Large")
    case 414 => Some("URI Too Long")
    case 415 => Some("Unsupported Media Type")
    case 416 => Some("Range Not Satisfiable")
    case 417 => Some("Expectation Failed")
    case 421 => Some("Misdirected Request")
    case 422 => Some("Unprocessable Content")
    case 426 => Some("Upgrade Required")
    case 428 => Some("Precondition Required")
    case 429 => Some("Too Many Requests")
    case 431 => Some("Request Header Fields Too Large")
    case 500 => Some("Internal Server Error")
    case 501 => Some("Not Implemented")
    case 502 => Some("Bad Gateway")
    case 503 => Some("Service Unavailable")
    case 504 => Some("Gateway Timeout")
    case 505 => Some("HTTP Version Not Supported")
    case 511 => Some("Network Authentication Required")
    case _ => None
  }

  const NAMED: set<int> := {200, 201, 202, 204, 400, 401, 403, 404, 405, 409, 429, 500, 501, 503}

  /** A response's reason is the standard's phrase exactly for these statuses; any other is sent as "OK". */
  lemma ReasonIsStandardExactly(status: int)
    ensures StandardReason(status) == Some(ReasonPhrase(status)) <==> status in NAMED
    ensures status !in NAMED ==> ReasonPhrase(status) == "OK"
  {
    assert "OK"[0] == 'O' && |"OK"| == 2;
    assert |"Gone"| == 4 && |"Found"| == 5;
  }
}

/** HTTP messages, and the ASCII case-insensitive lookup of their header fields. */
module Messages {
  import opened Wrappers

  datatype HeaderField = HeaderField(name: string, value: string)

  datatype Request = Request(
    versionMajor: nat,
    versionMinor: nat,
    verb: string,
    target: string,
    headers: seq<HeaderField>)

  datatype Response = Response(
    status: int,
    reason: string,
    contentType: string,
    headers: seq<HeaderField>,
    body: string,
    contentLength: Option<nat>)

  /** response::text. */
  function TextResponse(status: int, reason: string, message: string): Response {
    Response(status, reason, "text/plain; charset=utf-8", [], message, None)
  }

  function AsciiLower(c: char): char {
    if 'A' <= c <= 'Z' then c - 'A' + 'a' else c
  }

  predicate NameEquals(left: string, right: string) {
    |left| == |right| && forall i :: 0 <= i < |left| ==> AsciiLower(left[i]) == AsciiLower(right[i])
  }

  /** The first field with the given name. */
  function FindHeader(headers: seq<HeaderField>, name: string): (r: Option<nat>)
    ensures r.Some? ==> r.value < |headers| && NameEquals(headers[r.value].name, name)
    ensures r.Some? ==> forall i :: 0 <= i < r.value ==> !NameEquals(headers[i].name, name)
    ensures r.None? ==> forall i :: 0 <= i < |headers| ==> !NameEquals(headers[i].name, name)
  {
    if headers == [] then None
    else if NameEquals(headers[0].name, name) then Some(0)
    else match FindHeader(headers[1..], name)
      case Some(i) => Some(i + 1)
      case None => None
  }

  function HeaderValue(headers: seq<HeaderField>, name: string): Option<string> {
    match FindHeader(headers, name)
    case Some(i) => Some(headers[i].value)
    case None => None
  }

  /** response::set_header for a valid name and value: replace the first such field, or append one. */
  function SetHeader(headers: seq<HeaderField>, name: string, value: string): seq<HeaderField> {
    match FindHeader(headers, name)
    case Some(i) => headers[i := headers[i].(value := value)]
    case None => headers + [HeaderField(name, value)]
  }

  /** RFC 9110, section 5.6.2. */
  predicate IsTokenChar(c: char) {
    c in "!#$%&'*+-.^_`|~" || 'A' <= c <= 'Z' || 'a' <= c <= 'z' || '0' <= c <= '9'
  }

  predicate IsToken(s: string) {
    s != "" && forall i :: 0 <= i < |s| ==> IsTokenChar(s[i])
  }

  predicate IsOptionalWhitespace(c: char) {
    c == ' ' || c == '\t'
  }

  lemma TokenHasNoSeparators(s: string)
    requires IsToken(s)
    ensures ' ' !in s && '\t' !in s && ':' !in s && '\r' !in s && '\n' !in s
  {
  }
}

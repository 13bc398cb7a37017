/** What a client learns from the wire text of a response, without knowing the response. */
module ResponseReading {
  import opened Wrappers
  import opened Text
  import opened Decimal
  import opened Messages
  import opened HttpResponse
  import HttpRequest

  lemma {:induction false} TrimmedFieldsAre(fields: seq<HeaderField>)
    ensures |TrimmedFields(fields)| == |fields|
    ensures forall i :: 0 <= i < |fields| ==> TrimmedFields(fields)[i] == TrimmedField(fields[i])
  {
    if fields != [] {
      TrimmedFieldsAre(fields[1..]);
    }
  }

  lemma FoundFirst(fields: seq<HeaderField>, name: string, i: nat)
    requires i < |fields| && NameEquals(fields[i].name, name)
    requires forall j :: 0 <= j < i ==> !NameEquals(fields[j].name, name)
    ensures HeaderValue(fields, name) == Some(fields[i].value)
  {
    var found := FindHeader(fields, name);
  }

  lemma PlainValuesStay(policy: ConnectionPolicy, n: nat)
    ensures Trim(PolicyText(policy), IsOptionalWhitespace) == PolicyText(policy)
    ensures Trim(Digits(n), IsOptionalWhitespace) == Digits(n)
  {
    DigitsAreDigits(n);
    TrimmedIsFixed(PolicyText(policy), IsOptionalWhitespace);
    TrimmedIsFixed(Digits(n), IsOptionalWhitespace);
  }

  /** The fields a client reads. */
  function ClientFields(r: Response, policy: ConnectionPolicy): seq<HeaderField> {
    TrimmedFields(SentFields(r, policy))
  }

  predicate SetsContentType(r: Response) {
    r.contentType != "" && '\r' !in r.contentType && '\n' !in r.contentType
  }

  /**
   The client reads that the connection stays or closes as the server decided, and the length of the
   body or the length the response claims; and the content type, if the response sets a usable one.
   */
  lemma ClientReadsFraming(r: Response, policy: ConnectionPolicy)
    ensures var fields := ClientFields(r, policy);
      && HeaderValue(fields, "Connection") == Some(if policy.KeepAlive? then "keep-alive" else "close")
      && HeaderValue(fields, "Content-Length") == Some(Digits(if r.contentLength.Some? then r.contentLength.value else |r.body|))
      && (SetsContentType(r) ==> HeaderValue(fields, "Content-Type") == Some(Trim(r.contentType, IsOptionalWhitespace)))
  {
    var sent, fields := SentFields(r, policy), ClientFields(r, policy);
    TrimmedFieldsAre(sent);
    FramingFieldsAreUnique(r, policy);
    PlainValuesStay(policy, WireBodySize(r));
    assert NameEquals("Connection", "Connection") && NameEquals("Content-Length", "Content-Length");
    FoundFirst(fields, "Connection", 0);
    FoundFirst(fields, "Content-Length", 1);
    if SetsContentType(r) {
      assert NameEquals("Content-Type", "Content-Type");
      FoundFirst(fields, "Content-Type", 2);
    }
  }

  /** By section 9.3 of RFC 9112 the client takes the connection as closing if and only if the server closes it. */
  lemma ClientSeesClose(r: Response, policy: ConnectionPolicy)
    ensures HeaderValue(ClientFields(r, policy), "Connection").Some?
    ensures HttpRequest.TokenInList(HeaderValue(ClientFields(r, policy), "Connection").value, "close")
            <==> policy.CloseConnection?
  {
    ClientReadsFraming(r, policy);
    HttpRequest.SingleMember(if policy.KeepAlive? then "keep-alive" else "close", "close");
  }

  /** Of a response that claims no other length, the client knows where the body ends. */
  lemma ClientKnowsBodyLength(r: Response, policy: ConnectionPolicy)
    requires r.contentLength.None?
    ensures var length := HeaderValue(ClientFields(r, policy), "Content-Length");
      length.Some? && AllDigits(length.value) && Value(length.value) == |r.body|
  {
    ClientReadsFraming(r, policy);
    ValueOfDigits(|r.body|);
  }

  /** A custom header that reaches the client: well-formed, and not one the server writes itself. */
  predicate Reaches(h: HeaderField, r: Response) {
    && IsToken(h.name) && '\r' !in h.value && '\n' !in h.value
    && !NameEquals(h.name, "Connection") && !NameEquals(h.name, "Content-Length")
    && !(NameEquals(h.name, "Content-Type") && SetsContentType(r))
  }

  /** `at` is, in order, where in the headers the chosen ones stand. */
  ghost predicate StandAt(headers: seq<HeaderField>, chosen: seq<HeaderField>, at: seq<nat>) {
    && |at| == |chosen|
    && (forall i :: 0 <= i < |at| ==> at[i] < |headers| && headers[at[i]] == chosen[i])
    && forall i, j :: 0 <= i < j < |at| ==> at[i] < at[j]
  }

  function Shifted(at: seq<nat>): (shifted: seq<nat>)
    ensures |shifted| == |at| && forall i :: 0 <= i < |at| ==> shifted[i] == at[i] + 1
  {
    seq(|at|, i requires 0 <= i < |at| => at[i] + 1)
  }

  lemma ShiftedHolds(at: seq<nat>, k: nat)
    ensures k + 1 in Shifted(at) <==> k in at
    ensures 0 !in Shifted(at)
  {
    if k in at {
      var i :| 0 <= i < |at| && at[i] == k;
      assert Shifted(at)[i] == k + 1;
    }
  }

  lemma StandBehind(headers: seq<HeaderField>, chosen: seq<HeaderField>, at: seq<nat>)
    requires headers != [] && StandAt(headers[1..], chosen, at)
    ensures StandAt(headers, chosen, Shifted(at)) && StandAt(headers, [headers[0]] + chosen, [0] + Shifted(at))
  {
    var shifted := Shifted(at);
    forall i | 0 <= i < |shifted| ensures shifted[i] < |headers| && headers[shifted[i]] == chosen[i] {
      assert headers[1..][at[i]] == headers[at[i] + 1];
    }
  }

  lemma InFront(first: bool, more: seq<nat>, k: nat)
    ensures k in (if first then [0] else []) + Shifted(more) <==> if k == 0 then first else k - 1 in more
  {
    ShiftedHolds(more, if k == 0 then 0 else k - 1);
  }

  lemma {:induction false} WrittenStand(headers: seq<HeaderField>, contentTypeWritten: bool) returns (at: seq<nat>)
    ensures StandAt(headers, WrittenHeaders(headers, contentTypeWritten), at)
    ensures forall k: nat :: k < |headers| ==> (Written(headers[k], contentTypeWritten) <==> k in at)
  {
    if headers == [] {
      at := [];
    } else {
      var more := WrittenStand(headers[1..], contentTypeWritten);
      var first := Written(headers[0], contentTypeWritten);
      at := (if first then [0] else []) + Shifted(more);
      StandBehind(headers, WrittenHeaders(headers[1..], contentTypeWritten), more);
      assert [] + Shifted(more) == Shifted(more);
      assert [] + WrittenHeaders(headers[1..], contentTypeWritten) == WrittenHeaders(headers[1..], contentTypeWritten);
      forall k: nat | k < |headers| ensures Written(headers[k], contentTypeWritten) <==> k in at {
        InFront(first, more, k);
        assert k > 0 ==> headers[1..][k - 1] == headers[k];
      }
    }
  }

  /** After the server's own fields the client reads exactly the custom headers that reach it, in their order. */
  lemma ClientReadsCustomHeaders(r: Response, policy: ConnectionPolicy) returns (own: nat, at: seq<nat>)
    ensures own == if SetsContentType(r) then 3 else 2
    ensures var fields := ClientFields(r, policy);
      && |fields| == own + |at|
      && (forall i :: 0 <= i < |at| ==> at[i] < |r.headers| && fields[own + i] == TrimmedField(r.headers[at[i]]))
    ensures forall i, j :: 0 <= i < j < |at| ==> at[i] < at[j]
    ensures forall k: nat :: k < |r.headers| ==> (Reaches(r.headers[k], r) <==> k in at)
  {
    own := |FixedFields(r, policy)|;
    at := WrittenStand(r.headers, ContentTypeWritten(r));
    TrimmedFieldsAre(SentFields(r, policy));
    forall k: nat | k < |r.headers| ensures Reaches(r.headers[k], r) <==> k in at {
      assert Written(r.headers[k], ContentTypeWritten(r)) <==> Reaches(r.headers[k], r);
    }
  }

  lemma NamesDiffer(a: string, b: string)
    requires !NameEquals(a, b)
    ensures !NameEquals(b, a)
  {
  }

  /** The server's own fields have the names that custom headers must not have. */
  lemma OwnNames(r: Response, policy: ConnectionPolicy, i: nat)
    requires i < |FixedFields(r, policy)|
    ensures FixedFields(r, policy)[i].name in ["Connection", "Content-Length"]
         || (SetsContentType(r) && FixedFields(r, policy)[i].name == "Content-Type")
    ensures i < |ClientFields(r, policy)| && ClientFields(r, policy)[i].name == FixedFields(r, policy)[i].name
  {
    TrimmedFieldsAre(SentFields(r, policy));
    assert SentFields(r, policy)[i] == FixedFields(r, policy)[i];
  }

  /** What a client finds under a name is the first header of that name that reaches it. */
  lemma ClientFindsHeader(r: Response, policy: ConnectionPolicy, k: nat)
    requires k < |r.headers| && Reaches(r.headers[k], r)
    requires forall j :: 0 <= j < k && NameEquals(r.headers[j].name, r.headers[k].name) ==> !Reaches(r.headers[j], r)
    ensures HeaderValue(ClientFields(r, policy), r.headers[k].name) == Some(Trim(r.headers[k].value, IsOptionalWhitespace))
  {
    var fields, name := ClientFields(r, policy), r.headers[k].name;
    var own, at := ClientReadsCustomHeaders(r, policy);
    var i :| 0 <= i < |at| && at[i] == k;
    forall j | 0 <= j < own + i ensures !NameEquals(fields[j].name, name) {
      if j < own {
        OwnNames(r, policy, j);
        NamesDiffer(name, fields[j].name);
      } else {
        assert at[j - own] < at[i] && at[j - own] in at;
      }
    }
    assert NameEquals(name, name);
    FoundFirst(fields, name, own + i);
  }

  /** The status line of every response, and what the wire reads back as. */
  lemma ClientReadsAll(r: Response, policy: ConnectionPolicy)
    requires OneLine(r.reason)
    ensures ReadResponse(Serialize(r, policy))
         == Some(Reading("HTTP/1.1 " + IntText(r.status) + " " + r.reason, ClientFields(r, policy), r.body))
  {
    SerializedReadsBack(r, policy);
  }
}

/**
 One connection: stream set-up, then a loop that reads a header block, parses it, asks the request
 handler for an answer, logs it, sends it, and goes on while the client wants the connection kept
 (section 9.3 of RFC 9112).

 The handler is any function; no answer stands for an exception. What the network does is given
 beforehand: the reads, the outcome of each send, and whether each timeout could be set.
 */
module Connection {
  import opened Wrappers
  import opened Sequences
  import opened Text
  import opened Messages
  import opened Buffers
  import opened Framing
  import opened HttpRequest
  import opened HttpResponse

  datatype IoStatus = IoOk | IoClosed | IoTimeout | IoError

  datatype Setup = Setup(created: bool, timeoutsApplied: bool, handshake: IoStatus)

  datatype Network = Network(script: seq<Read>, sends: seq<IoStatus>, timeouts: seq<bool>)

  type Handler = Request -> Option<Response>

  datatype Event =
    | Logged(request: Option<Request>, status: int, bytes: nat)
    | Sent(response: Response, policy: ConnectionPolicy, wire: string, outcome: IoStatus)
    | Reported(error: string)

  const MAX_HEADER_BYTES: nat := 64 * 1024

  const HSTS: string := "Strict-Transport-Security"

  function NextTimeout(n: Network): bool {
    n.timeouts == [] || n.timeouts[0]
  }

  function AfterTimeout(n: Network): Network {
    n.(timeouts := if n.timeouts == [] then [] else n.timeouts[1..])
  }

  function NextSend(n: Network): IoStatus {
    if n.sends == [] then IoOk else n.sends[0]
  }

  function AfterSend(n: Network): Network {
    n.(sends := if n.sends == [] then [] else n.sends[1..])
  }

  /** A send to a peer that has closed is not an error; the next read will find out. */
  predicate SendTolerated(outcome: IoStatus) {
    outcome.IoOk? || outcome.IoClosed?
  }

  function SendReport(outcome: IoStatus): seq<Event> {
    if SendTolerated(outcome) then [] else [Reported("write-response")]
  }

  function Answer(request: Option<Request>, response: Response, policy: ConnectionPolicy, outcome: IoStatus): seq<Event> {
    var wire := Serialize(response, policy);
    [Logged(request, response.status, |wire|), Sent(response, policy, wire, outcome)] + SendReport(outcome)
  }

  /** The server's own refusals close the connection. */
  function Refusal(status: int, reason: string, message: string, n: Network): seq<Event> {
    Answer(None, TextResponse(status, reason, message), CloseConnection, NextSend(n))
  }

  function Secured(response: Response, https: bool): Response {
    if https && FindHeader(response.headers, HSTS).None?
    then response.(headers := SetHeader(response.headers, HSTS, "max-age=31536000"))
    else response
  }

  function PolicyFor(request: Request): ConnectionPolicy {
    if KeepAliveRequested(request) then KeepAlive else CloseConnection
  }

  lemma {:induction false} RestIsShorter(view: string, script: seq<Read>, maxBytes: nat)
    ensures |ReadBlock(view, script, maxBytes).rest| <= |script|
    decreases |script|
  {
    if script != [] && script[0].Data? {
      RestIsShorter(view + script[0].bytes, script[1..], maxBytes);
    }
  }

  lemma ReadMakesProgress(script: seq<Read>, maxBytes: nat)
    requires maxBytes > 0
    ensures ReadBlock("", script, maxBytes).result.Ok? ==> |ReadBlock("", script, maxBytes).rest| < |script|
  {
    if script != [] && script[0].Data? {
      RestIsShorter("" + script[0].bytes, script[1..], maxBytes);
    }
  }

  /** What one turn of the loop adds to the trace, and whether there is another turn. */
  datatype Turn = Turn(events: seq<Event>, goesOn: bool)

  function AnswerTo(handler: Handler, https: bool, request: Request, n: Network): Turn {
    match handler(request)
    case None => Turn([Reported("connection-handler")], false)
    case Some(response) =>
      var policy := PolicyFor(request);
      Turn(Answer(Some(request), Secured(response, https), policy, NextSend(n)),
           SendTolerated(NextSend(n)) && policy.KeepAlive?)
  }

  function TurnOf(handler: Handler, https: bool, first: bool, header: Block, view: string, n: Network): Turn {
    match header
    case Err(Timeout) => Turn(if !first && view == "" then [] else Refusal(408, "Request Timeout", "request timeout\n", n), false)
    case Err(TooLarge) => Turn(Refusal(431, "Request Header Fields Too Large", "request header too large\n", n), false)
    case Err(Closed) => Turn([], false)
    case Err(IoError) => Turn([Reported("read-header")], false)
    case Ok(block) =>
      match Parse(block)
      case Err(_) => Turn(Refusal(400, "Bad Request", "bad request\n", n), false)
      case Ok(request) => AnswerTo(handler, https, request, n)
  }

  /** The keep-alive loop; its buffer is fresh in every turn. */
  function Session(handler: Handler, https: bool, first: bool, network: Network): seq<Event>
    decreases |network.script|
  {
    if !NextTimeout(network) then [Reported("configure-stream")]
    else
      var n := AfterTimeout(network);
      var out := ReadBlock("", n.script, MAX_HEADER_BYTES);
      ReadMakesProgress(n.script, MAX_HEADER_BYTES);
      var turn := TurnOf(handler, https, first, out.result, out.view, n);
      if turn.goesOn then turn.events + Session(handler, https, false, AfterSend(n.(script := out.rest)))
      else turn.events
  }

  function HandshakeReport(handshake: IoStatus): seq<Event> {
    if handshake.IoTimeout? || handshake.IoError? then [Reported("handshake")] else []
  }

  function Serve(setup: Setup, handler: Handler, https: bool, network: Network): seq<Event> {
    if !setup.created then [Reported("create-stream")]
    else if !setup.timeoutsApplied then [Reported("configure-stream")]
    else if !setup.handshake.IoOk? then HandshakeReport(setup.handshake)
    else Session(handler, https, true, network)
  }

  // ----- The code's loop -----

  class Peer {
    const stream: Stream
    var sends: seq<IoStatus>
    var timeouts: seq<bool>

    constructor (stream: Stream, sends: seq<IoStatus>, timeouts: seq<bool>)
      ensures this.stream == stream && this.sends == sends && this.timeouts == timeouts
    {
      this.stream := stream;
      this.sends := sends;
      this.timeouts := timeouts;
    }

    ghost function View(): Network
      reads this, stream
    {
      Network(stream.script, sends, timeouts)
    }

    method SetReceiveTimeout() returns (applied: bool)
      modifies this`timeouts
      ensures applied == NextTimeout(old(View())) && View() == AfterTimeout(old(View()))
    {
      if timeouts == [] {
        return true;
      }
      applied := timeouts[0];
      timeouts := timeouts[1..];
    }

    method SendAll(wire: string) returns (outcome: IoStatus)
      modifies this`sends
      ensures outcome == NextSend(old(View())) && View() == AfterSend(old(View()))
    {
      if sends == [] {
        return IoOk;
      }
      outcome := sends[0];
      sends := sends[1..];
    }
  }

  class ConnectionHandler {
    const handler: Handler
    const httpsEnabled: bool
    var trace: seq<Event>

    constructor (handler: Handler, httpsEnabled: bool)
      ensures this.handler == handler && this.httpsEnabled == httpsEnabled && trace == []
    {
      this.handler := handler;
      this.httpsEnabled := httpsEnabled;
      this.trace := [];
    }

    /** Log, then send; true if the connection can go on. */
    method SendResponse(peer: Peer, request: Option<Request>, response: Response, policy: ConnectionPolicy)
      returns (alive: bool)
      modifies this`trace, peer`sends
      ensures trace == old(trace) + Answer(request, response, policy, NextSend(old(peer.View())))
      ensures peer.View() == AfterSend(old(peer.View()))
      ensures alive == SendTolerated(NextSend(old(peer.View())))
    {
      var wire := SerializeByStream(response, policy);
      trace := trace + [Logged(request, response.status, |wire|)];
      var outcome := peer.SendAll(wire);
      trace := trace + [Sent(response, policy, wire, outcome)];
      alive := SendTolerated(outcome);
      if !alive {
        trace := trace + [Reported("write-response")];
      }
      assert trace == old(trace) + Answer(request, response, policy, outcome);
    }

    method AnswerRequest(peer: Peer, request: Request, ghost n: Network) returns (proceed: bool)
      requires n.sends == peer.sends
      modifies this`trace, peer`sends
      ensures var turn := AnswerTo(handler, httpsEnabled, request, n);
        && trace == old(trace) + turn.events
        && proceed == turn.goesOn
        && (proceed ==> peer.sends == AfterSend(n).sends)
    {
      var answer := handler(request);
      if answer.None? {
        trace := trace + [Reported("connection-handler")];
        return false;
      }
      var policy := PolicyFor(request);
      var alive := SendResponse(peer, Some(request), Secured(answer.value, httpsEnabled), policy);
      return alive && policy.KeepAlive?;
    }

    method TakeTurn(peer: Peer, firstRequest: bool, header: Block, view: string, ghost n: Network) returns (proceed: bool)
      requires n.sends == peer.sends
      modifies this`trace, peer`sends
      ensures var turn := TurnOf(handler, httpsEnabled, firstRequest, header, view, n);
        && trace == old(trace) + turn.events
        && proceed == turn.goesOn
        && (proceed ==> peer.sends == AfterSend(n).sends)
    {
      match header {
        case Err(Timeout) =>
          if firstRequest || view != "" {
            var _ := SendResponse(peer, None, TextResponse(408, "Request Timeout", "request timeout\n"), CloseConnection);
          }
          return false;
        case Err(TooLarge) =>
          var _ := SendResponse(peer, None, TextResponse(431, "Request Header Fields Too Large", "request header too large\n"), CloseConnection);
          return false;
        case Err(Closed) =>
          return false;
        case Err(IoError) =>
          trace := trace + [Reported("read-header")];
          return false;
        case Ok(block) =>
          var parsed := ParseByIndex(block);
          match parsed {
            case Err(_) =>
              var _ := SendResponse(peer, None, TextResponse(400, "Bad Request", "bad request\n"), CloseConnection);
              return false;
            case Ok(request) =>
              proceed := AnswerRequest(peer, request, n);
          }
      }
    }

    /** One turn of the loop. */
    method ServeOne(peer: Peer, firstRequest: bool) returns (proceed: bool)
      requires ScriptFits(peer.stream.script)
      modifies this`trace, peer`sends, peer`timeouts, peer.stream`script
      ensures ScriptFits(peer.stream.script)
      ensures proceed ==> |peer.stream.script| < |old(peer.stream.script)|
      ensures old(trace) + Session(handler, httpsEnabled, firstRequest, old(peer.View()))
           == trace + if proceed then Session(handler, httpsEnabled, false, peer.View()) else []
    {
      ghost var start := peer.View();
      var applied := peer.SetReceiveTimeout();
      if !applied {
        trace := trace + [Reported("configure-stream")];
        return false;
      }
      var buffer := new Buffer();
      ReadMakesProgress(peer.stream.script, MAX_HEADER_BYTES);
      var header := ReadHeaderBlock(peer.stream, buffer, MAX_HEADER_BYTES);
      ghost var turn := TurnOf(handler, httpsEnabled, firstRequest, header, buffer.View(), AfterTimeout(start));
      proceed := TakeTurn(peer, firstRequest, header, buffer.View(), AfterTimeout(start));
      if proceed {
        ConcatIsAssociative(old(trace), turn.events, Session(handler, httpsEnabled, false, peer.View()));
      }
    }

    method HandleConnection(setup: Setup, peer: Peer)
      requires ScriptFits(peer.stream.script)
      modifies this`trace, peer`sends, peer`timeouts, peer.stream`script
      ensures trace == old(trace) + Serve(setup, handler, httpsEnabled, old(peer.View()))
    {
      if !setup.created {
        trace := trace + [Reported("create-stream")];
        return;
      }
      if !setup.timeoutsApplied {
        trace := trace + [Reported("configure-stream")];
        return;
      }
      if !setup.handshake.IoOk? {
        trace := trace + HandshakeReport(setup.handshake);
        return;
      }
      var firstRequest := true;
      while true
        invariant ScriptFits(peer.stream.script)
        invariant trace + Session(handler, httpsEnabled, firstRequest, peer.View())
               == old(trace) + Session(handler, httpsEnabled, true, old(peer.View()))
        decreases |peer.stream.script|
      {
        var proceed := ServeOne(peer, firstRequest);
        if !proceed {
          return;
        }
        firstRequest := false;
      }
    }
  }

  // ----- What every trace looks like -----

  /** Every response sent, in order. */
  function Responses(trace: seq<Event>): seq<Event> {
    if trace == [] then []
    else (if trace[0].Sent? then [trace[0]] else []) + Responses(trace[1..])
  }

  /** A log record and the response it is about. */
  predicate Records(log: Event, sent: Event) {
    && log.Logged? && sent.Sent?
    && log.status == sent.response.status
    && sent.wire == Serialize(sent.response, sent.policy)
    && log.bytes == |sent.wire|
    && (log.request.None? ==> sent.policy.CloseConnection? && log.status in {400, 408, 431})
    && (log.request.Some? ==> (sent.policy.KeepAlive? <==> KeepAliveRequested(log.request.value)))
  }

  /**
   The shape of a trace: each response is logged exactly once, just before it is sent; only a
   keep-alive response whose send was tolerated is followed by another; errors end the trace.
   */
  predicate WellFormed(trace: seq<Event>)
    decreases |trace|
  {
    || trace == []
    || (|trace| == 1 && trace[0].Reported?)
    || (|trace| >= 2 && Records(trace[0], trace[1])
        && if !SendTolerated(trace[1].outcome) then trace[2..] == [Reported("write-response")]
           else if trace[1].policy.CloseConnection? then trace[2..] == []
           else WellFormed(trace[2..]))
  }

  lemma RefusalIsWellFormed(status: int, reason: string, message: string, n: Network)
    requires status in {400, 408, 431}
    ensures WellFormed(Refusal(status, reason, message, n))
  {
  }

  lemma AnswerContinues(request: Request, response: Response, outcome: IoStatus, rest: seq<Event>)
    ensures var policy := PolicyFor(request);
      var events := Answer(Some(request), response, policy, outcome);
      && (!SendTolerated(outcome) || policy.CloseConnection? ==> WellFormed(events))
      && (SendTolerated(outcome) && policy.KeepAlive? && WellFormed(rest) ==> WellFormed(events + rest))
  {
    var policy := PolicyFor(request);
    var events := Answer(Some(request), response, policy, outcome);
    if SendTolerated(outcome) && policy.KeepAlive? {
      assert (events + rest)[2..] == rest;
    }
  }

  lemma AnswerIsWellFormed(handler: Handler, https: bool, request: Request, n: Network, rest: seq<Event>)
    requires WellFormed(rest)
    ensures var turn := AnswerTo(handler, https, request, n);
      WellFormed(if turn.goesOn then turn.events + rest else turn.events)
  {
    if handler(request).Some? {
      AnswerContinues(request, Secured(handler(request).value, https), NextSend(n), rest);
    }
  }

  lemma TurnIsWellFormed(handler: Handler, https: bool, first: bool, header: Block, view: string, n: Network, rest: seq<Event>)
    requires WellFormed(rest)
    ensures var turn := TurnOf(handler, https, first, header, view, n);
      WellFormed(if turn.goesOn then turn.events + rest else turn.events)
  {
    match header
    case Err(Timeout) => RefusalIsWellFormed(408, "Request Timeout", "request timeout\n", n);
    case Err(TooLarge) => RefusalIsWellFormed(431, "Request Header Fields Too Large", "request header too large\n", n);
    case Err(_) =>
    case Ok(block) =>
      match Parse(block)
      case Err(_) => RefusalIsWellFormed(400, "Bad Request", "bad request\n", n);
      case Ok(request) => AnswerIsWellFormed(handler, https, request, n, rest);
  }

  /** In every session, whatever the network and the handler do. */
  lemma {:induction false} SessionIsWellFormed(handler: Handler, https: bool, first: bool, network: Network)
    ensures WellFormed(Session(handler, https, first, network))
    decreases |network.script|
  {
    if NextTimeout(network) {
      var n := AfterTimeout(network);
      var out := ReadBlock("", n.script, MAX_HEADER_BYTES);
      ReadMakesProgress(n.script, MAX_HEADER_BYTES);
      var rest: seq<Event> := [];
      if TurnOf(handler, https, first, out.result, out.view, n).goesOn {
        var more := AfterSend(n.(script := out.rest));
        SessionIsWellFormed(handler, https, false, more);
        rest := Session(handler, https, false, more);
      }
      TurnIsWellFormed(handler, https, first, out.result, out.view, n, rest);
    }
  }

  lemma ServedIsWellFormed(setup: Setup, handler: Handler, https: bool, network: Network)
    ensures WellFormed(Serve(setup, handler, https, network))
  {
    SessionIsWellFormed(handler, https, true, network);
  }

  lemma ResponsesUnfold(trace: seq<Event>)
    requires |trace| >= 2 && trace[0].Logged? && trace[1].Sent?
    ensures Responses(trace) == [trace[1]] + Responses(trace[2..])
  {
    assert trace[1..][1..] == trace[2..];
    assert Responses(trace) == Responses(trace[1..]);
  }

  /** So every response but the last asks the client to keep the connection, and none follows a close. */
  lemma {:induction false} OnlyTheLastMayClose(trace: seq<Event>)
    requires WellFormed(trace)
    ensures var sent := Responses(trace);
      forall i :: 0 <= i < |sent| - 1 ==> sent[i].Sent? && sent[i].policy.KeepAlive? && SendTolerated(sent[i].outcome)
    decreases |trace|
  {
    if |trace| >= 2 {
      ResponsesUnfold(trace);
      if SendTolerated(trace[1].outcome) && trace[1].policy.KeepAlive? {
        OnlyTheLastMayClose(trace[2..]);
      } else if !SendTolerated(trace[1].outcome) {
        assert Responses([Reported("write-response")]) == [] by {
          assert [Reported("write-response")][1..] == [];
        }
      }
    } else if |trace| == 1 {
      assert trace[1..] == [];
    }
  }

  // ----- A client that waits for each answer -----

  /** Reads that deliver exactly one header block. */
  ghost predicate Delivers(chunks: seq<Read>, block: string) {
    && AllData(chunks)
    && Delivered(chunks) == block
    && Framed(block) && |block| <= MAX_HEADER_BYTES
  }

  lemma WholeBlock(view: string, block: string)
    requires view + "" == block && Framed(block)
    ensures view == block && block[..|block|] == block && FindHeaderEnd(view) == Some(|block|)
  {
    assert view + "" == view;
  }

  lemma ShorterView(view: string, bytes: string, coming: string, block: string)
    requires bytes != "" && view + (bytes + coming) == block
    ensures |view| < |block|
  {
  }

  lemma {:induction false} ReadsExactlyOne(view: string, chunks: seq<Read>, more: seq<Read>, block: string)
    requires AllData(chunks) && view + Delivered(chunks) == block && Framed(block) && |block| <= MAX_HEADER_BYTES
    ensures ReadBlock(view, chunks + more, MAX_HEADER_BYTES) == Outcome(Ok(block), block, more)
    decreases |chunks|
  {
    if chunks == [] {
      WholeBlock(view, block);
      assert view == block && chunks + more == more;
    } else {
      HeadOfConcat(chunks, more);
      ShorterView(view, chunks[0].bytes, Delivered(chunks[1..]), block);
      NotYetThere(view, chunks, block, |block|);
      OneRead(view, chunks + more, MAX_HEADER_BYTES);
      ReadsExactlyOne(view + chunks[0].bytes, chunks[1..], more, block);
    }
  }

  datatype Exchange = Exchange(chunks: seq<Read>, request: Request)

  ghost predicate IsExchange(x: Exchange) {
    Delivers(x.chunks, Delivered(x.chunks)) && Parse(Delivered(x.chunks)) == Ok(x.request)
  }

  function AllReads(exchanges: seq<Exchange>): seq<Read> {
    if exchanges == [] then [] else exchanges[0].chunks + AllReads(exchanges[1..])
  }

  /** The handler's answers, up to the first request that does not keep the connection. */
  function Expected(handler: Handler, https: bool, exchanges: seq<Exchange>): seq<Event>
    requires forall i :: 0 <= i < |exchanges| ==> handler(exchanges[i].request).Some?
  {
    if exchanges == [] then []
    else
      var request := exchanges[0].request;
      var response := Secured(handler(request).value, https);
      var policy := if KeepAliveRequested(request) then KeepAlive else CloseConnection;
      [Sent(response, policy, Serialize(response, policy), IoOk)]
      + if policy.CloseConnection? then [] else Expected(handler, https, exchanges[1..])
  }

  /** Once the block is read, the session depends on nothing but the block and the reads left. */
  lemma SessionAfterBlock(handler: Handler, https: bool, first: bool, script: seq<Read>, block: string, rest: seq<Read>)
    requires var out := ReadBlock("", script, MAX_HEADER_BYTES); out.result == Ok(block) && out.rest == rest
    ensures Session(handler, https, first, Network(script, [], []))
         == var turn := TurnOf(handler, https, false, Ok(block), "", Network([], [], []));
            if turn.goesOn then turn.events + Session(handler, https, false, Network(rest, [], [])) else turn.events
  {
    ReadMakesProgress(script, MAX_HEADER_BYTES);
  }

  lemma OneExchange(handler: Handler, https: bool, first: bool, x: Exchange, more: seq<Read>)
    requires IsExchange(x) && handler(x.request).Some?
    ensures var events := Answer(Some(x.request), Secured(handler(x.request).value, https), PolicyFor(x.request), IoOk);
      Session(handler, https, first, Network(x.chunks + more, [], []))
      == if PolicyFor(x.request).CloseConnection? then events
         else events + Session(handler, https, false, Network(more, [], []))
  {
    var block := Delivered(x.chunks);
    assert "" + block == block;
    ReadsExactlyOne("", x.chunks, more, block);
    SessionAfterBlock(handler, https, first, x.chunks + more, block, more);
  }

  lemma ResponsesOfAnswer(request: Request, response: Response, policy: ConnectionPolicy, rest: seq<Event>)
    ensures Responses(Answer(Some(request), response, policy, IoOk) + rest)
         == [Sent(response, policy, Serialize(response, policy), IoOk)] + Responses(rest)
  {
    var trace := Answer(Some(request), response, policy, IoOk) + rest;
    assert trace[2..] == rest;
    ResponsesUnfold(trace);
  }

  lemma FindNothingInEmpty()
    ensures FindHeaderEnd("").None?
  {
    FindNothing("", HEADER_END, 0);
  }

  /**
   For a client that sends one request at a time, in any chunking, over a network that works: the
   i-th response is the handler's answer to the i-th request, with HSTS added under HTTPS.
   */
  lemma {:induction false} AnswersInOrder(handler: Handler, https: bool, first: bool, exchanges: seq<Exchange>)
    requires forall i :: 0 <= i < |exchanges| ==> IsExchange(exchanges[i]) && handler(exchanges[i].request).Some?
    ensures Responses(Session(handler, https, first, Network(AllReads(exchanges), [], [])))
         == Expected(handler, https, exchanges)
    decreases |exchanges|
  {
    if exchanges == [] {
      FindNothingInEmpty();
    } else {
      var x, more := exchanges[0], AllReads(exchanges[1..]);
      var response, policy := Secured(handler(x.request).value, https), PolicyFor(x.request);
      OneExchange(handler, https, first, x, more);
      if policy.CloseConnection? {
        var events := Answer(Some(x.request), response, policy, IoOk);
        assert events + [] == events;
        ResponsesOfAnswer(x.request, response, policy, []);
      } else {
        AnswersInOrder(handler, https, false, exchanges[1..]);
        ResponsesOfAnswer(x.request, response, policy, Session(handler, https, false, Network(more, [], [])));
      }
    }
  }

  predicate IsAnswerTo(handler: Handler, https: bool, request: Request, sent: Event) {
    && sent.Sent?
    && handler(request).Some?
    && sent.response == Secured(handler(request).value, https)
    && (sent.policy.KeepAlive? <==> KeepAliveRequested(request))
    && sent.wire == Serialize(sent.response, sent.policy)
  }

  /** Each response answers the request at its place. */
  ghost predicate AnswersInTurn(handler: Handler, https: bool, exchanges: seq<Exchange>, sent: seq<Event>) {
    forall i :: 0 <= i < |exchanges| && i < |sent| ==> IsAnswerTo(handler, https, exchanges[i].request, sent[i])
  }

  lemma OneMoreAnswer(handler: Handler, https: bool, exchanges: seq<Exchange>, sent: seq<Event>, rest: seq<Event>)
    requires exchanges != [] && AnswersInTurn(handler, https, exchanges[1..], rest)
    requires sent != [] ==> IsAnswerTo(handler, https, exchanges[0].request, sent[0]) && sent[1..] == rest
    ensures AnswersInTurn(handler, https, exchanges, sent)
  {
    forall i | 0 <= i < |exchanges| && i < |sent| ensures IsAnswerTo(handler, https, exchanges[i].request, sent[i]) {
      if i > 0 {
        assert exchanges[i] == exchanges[1..][i - 1] && sent[i] == rest[i - 1];
      }
    }
  }

  lemma ReadsOfFirst(exchanges: seq<Exchange>, tail: seq<Read>)
    requires exchanges != []
    ensures AllReads(exchanges) + tail == exchanges[0].chunks + (AllReads(exchanges[1..]) + tail)
  {
  }

  lemma FirstTurn(handler: Handler, https: bool, first: bool, x: Exchange, more: seq<Read>, network: Network)
    requires NextTimeout(network) && IsExchange(x) && network.script == x.chunks + more
    ensures var n := AfterTimeout(network);
      var turn := AnswerTo(handler, https, x.request, n);
      Session(handler, https, first, network)
      == if turn.goesOn then turn.events + Session(handler, https, false, AfterSend(n.(script := more))) else turn.events
  {
    var block := Delivered(x.chunks);
    assert "" + block == block;
    ReadsExactlyOne("", x.chunks, more, block);
    ReadMakesProgress(network.script, MAX_HEADER_BYTES);
  }

  lemma NoResponse(error: string)
    ensures Responses([Reported(error)]) == []
  {
    assert [Reported(error)][1..] == [];
  }

  /** A turn sends at most one response, the answer to its request, and sends it first. */
  lemma FirstResponse(handler: Handler, https: bool, request: Request, n: Network, rest: seq<Event>)
    requires !AnswerTo(handler, https, request, n).goesOn ==> rest == []
    ensures var turn := AnswerTo(handler, https, request, n);
      var sent := Responses(turn.events + rest);
      if handler(request).None? then sent == []
      else sent != [] && IsAnswerTo(handler, https, request, sent[0]) && sent[1..] == Responses(rest)
  {
    match handler(request)
    case None =>
      NoResponse("connection-handler");
      assert [Reported("connection-handler")] + rest == [Reported("connection-handler")];
    case Some(response) =>
      var events := AnswerTo(handler, https, request, n).events;
      ResponsesUnfold(events + rest);
      if SendTolerated(NextSend(n)) {
        assert (events + rest)[2..] == rest;
      } else {
        assert (events + rest)[2..] == [Reported("write-response")];
        NoResponse("write-response");
      }
  }

  /** What a session sends after its first answer is what the rest of it sends. */
  lemma RestOfSession(handler: Handler, https: bool, first: bool, x: Exchange, more: seq<Read>, network: Network)
    returns (rest: seq<Event>)
    requires NextTimeout(network) && IsExchange(x) && network.script == x.chunks + more
    ensures rest == [] || rest == Session(handler, https, false, AfterSend(AfterTimeout(network).(script := more)))
    ensures var sent := Responses(Session(handler, https, first, network));
      sent != [] ==> IsAnswerTo(handler, https, x.request, sent[0]) && sent[1..] == Responses(rest)
  {
    var n := AfterTimeout(network);
    FirstTurn(handler, https, first, x, more, network);
    var turn := AnswerTo(handler, https, x.request, n);
    rest := if turn.goesOn then Session(handler, https, false, AfterSend(n.(script := more))) else [];
    assert turn.events + [] == turn.events;
    FirstResponse(handler, https, x.request, n, rest);
  }

  /**
   Whatever the sends, the timeouts, the handler and the reads after the last request do: no response
   answers another request than its own.
   */
  lemma {:induction false} NoAnswerIsMisplaced(
    handler: Handler, https: bool, first: bool, exchanges: seq<Exchange>, tail: seq<Read>, network: Network)
    requires network.script == AllReads(exchanges) + tail
    requires forall x :: x in exchanges ==> IsExchange(x)
    ensures AnswersInTurn(handler, https, exchanges, Responses(Session(handler, https, first, network)))
    decreases |exchanges|
  {
    if !NextTimeout(network) {
      NoResponse("configure-stream");
    } else if exchanges != [] {
      var x, more := exchanges[0], AllReads(exchanges[1..]) + tail;
      ReadsOfFirst(exchanges, tail);
      var left := AfterSend(AfterTimeout(network).(script := more));
      NoAnswerIsMisplaced(handler, https, false, exchanges[1..], tail, left);
      var rest := RestOfSession(handler, https, first, x, more, network);
      OneMoreAnswer(handler, https, exchanges, Responses(Session(handler, https, first, network)), Responses(rest));
    }
  }

  // ----- How a connection is refused -----

  lemma Unfinished(view: string, coming: string)
    requires FindHeaderEnd(view + coming).None?
    ensures FindHeaderEnd(view).None?
  {
    assert (view + coming)[..|view|] == view;
    HeaderEndOfPrefix(view + coming, |view|);
  }

  function FailureOf(r: Read): HeaderReadError
    requires !r.Data?
  {
    match r
    case PeerClosed => Closed
    case TimedOut => Timeout
    case Failed => HeaderReadError.IoError
  }

  /** A header that is not complete, and within the limit, when another outcome than data comes. */
  lemma {:induction false} ReadBreaksOff(view: string, chunks: seq<Read>, r: Read, more: seq<Read>)
    requires AllData(chunks) && !r.Data?
    requires FindHeaderEnd(view + Delivered(chunks)).None? && |view + Delivered(chunks)| < MAX_HEADER_BYTES
    ensures ReadBlock(view, chunks + ([r] + more), MAX_HEADER_BYTES)
         == Outcome(Err(FailureOf(r)), view + Delivered(chunks), more)
    decreases |chunks|
  {
    Unfinished(view, Delivered(chunks));
    if chunks == [] {
      assert chunks + ([r] + more) == [r] + more && ([r] + more)[1..] == more;
      assert view + "" == view;
    } else {
      HeadOfConcat(chunks, [r] + more);
      ConcatIsAssociative(view, chunks[0].bytes, Delivered(chunks[1..]));
      OneRead(view, chunks + ([r] + more), MAX_HEADER_BYTES);
      ReadBreaksOff(view + chunks[0].bytes, chunks[1..], r, more);
    }
  }

  /** A header that is not complete when the limit is reached. */
  lemma {:induction false} ReadGrowsTooLarge(view: string, chunks: seq<Read>, more: seq<Read>)
    requires AllData(chunks)
    requires FindHeaderEnd(view + Delivered(chunks)).None? && |view + Delivered(chunks)| >= MAX_HEADER_BYTES
    ensures ReadBlock(view, chunks + more, MAX_HEADER_BYTES).result == Err(TooLarge)
    decreases |chunks|
  {
    Unfinished(view, Delivered(chunks));
    if |view| < MAX_HEADER_BYTES {
      HeadOfConcat(chunks, more);
      ConcatIsAssociative(view, chunks[0].bytes, Delivered(chunks[1..]));
      OneRead(view, chunks + more, MAX_HEADER_BYTES);
      ReadGrowsTooLarge(view + chunks[0].bytes, chunks[1..], more);
    }
  }

  ghost predicate IsRefusal(sent: Event, status: int) {
    sent.Sent? && sent.response.status == status && sent.policy.CloseConnection?
  }

  lemma RefusalResponses(status: int, reason: string, message: string, n: Network)
    ensures var sent := Responses(Refusal(status, reason, message, n)); |sent| == 1 && IsRefusal(sent[0], status)
  {
    var events := Refusal(status, reason, message, n);
    ResponsesUnfold(events);
    if SendTolerated(NextSend(n)) {
      assert events[2..] == [];
    } else {
      assert events[2..] == [Reported("write-response")];
      NoResponse("write-response");
    }
  }

  /** A request that breaks off: 408 after a timeout, unless a kept connection was just idle; otherwise silence. */
  lemma BrokenOffRequest(handler: Handler, https: bool, first: bool, chunks: seq<Read>, r: Read, more: seq<Read>, n: Network)
    requires AllData(chunks) && !r.Data? && n.script == chunks + ([r] + more) && NextTimeout(n)
    requires FindHeaderEnd(Delivered(chunks)).None? && |Delivered(chunks)| < MAX_HEADER_BYTES
    ensures var sent := Responses(Session(handler, https, first, n));
      if r.TimedOut? && (first || chunks != []) then |sent| == 1 && IsRefusal(sent[0], 408) else sent == []
    ensures !r.TimedOut? ==>
      Session(handler, https, first, n) == if r.Failed? then [Reported("read-header")] else []
  {
    assert "" + Delivered(chunks) == Delivered(chunks);
    ReadBreaksOff("", chunks, r, more);
    assert Delivered(chunks) == "" <==> chunks == [];
    RefusalResponses(408, "Request Timeout", "request timeout\n", AfterTimeout(n));
    NoResponse("read-header");
  }

  /** A header over the limit is answered with 431. */
  lemma OversizedRequest(handler: Handler, https: bool, first: bool, chunks: seq<Read>, more: seq<Read>, n: Network)
    requires AllData(chunks) && n.script == chunks + more && NextTimeout(n)
    requires FindHeaderEnd(Delivered(chunks)).None? && |Delivered(chunks)| >= MAX_HEADER_BYTES
    ensures var sent := Responses(Session(handler, https, first, n)); |sent| == 1 && IsRefusal(sent[0], 431)
  {
    assert "" + Delivered(chunks) == Delivered(chunks);
    ReadGrowsTooLarge("", chunks, more);
    RefusalResponses(431, "Request Header Fields Too Large", "request header too large\n", AfterTimeout(n));
  }

  lemma HeaderFoundEarlier(view: string, coming: string, end: nat)
    requires FindHeaderEnd(view) == Some(end)
    ensures FindHeaderEnd(view + coming) == Some(end) && (view + coming)[..end] == view[..end]
  {
    assert (view + coming)[..|view|] == view;
    HeaderEndOfPrefix(view + coming, |view|);
  }

  lemma {:induction false} DeliveredConcat(chunks: seq<Read>, more: seq<Read>)
    requires AllData(chunks)
    ensures Delivered(chunks + more) == Delivered(chunks) + Delivered(more)
  {
    if chunks == [] {
      assert chunks + more == more && "" + Delivered(more) == Delivered(more);
    } else {
      HeadOfConcat(chunks, more);
      DeliveredConcat(chunks[1..], more);
      ConcatIsAssociative(chunks[0].bytes, Delivered(chunks[1..]), Delivered(more));
    }
  }

  lemma BlockIsRead(chunks: seq<Read>, more: seq<Read>, end: nat)
    requires AllData(chunks) && FindHeaderEnd(Delivered(chunks)) == Some(end) && end <= MAX_HEADER_BYTES
    ensures ReadBlock("", chunks + more, MAX_HEADER_BYTES).result == Ok(Delivered(chunks)[..end])
  {
    DeliveredConcat(chunks, more);
    HeaderFoundEarlier(Delivered(chunks), Delivered(more), end);
    assert "" + Delivered(chunks + more) == Delivered(chunks + more);
    ChunkingDoesNotMatter("", chunks + more, MAX_HEADER_BYTES, end);
  }

  /** A header block within the limit that does not parse is answered with 400, whatever comes after it. */
  lemma MalformedRequest(
    handler: Handler, https: bool, first: bool, chunks: seq<Read>, more: seq<Read>, n: Network, end: nat)
    requires AllData(chunks) && n.script == chunks + more && NextTimeout(n)
    requires FindHeaderEnd(Delivered(chunks)) == Some(end) && end <= MAX_HEADER_BYTES
    requires Parse(Delivered(chunks)[..end]).Err?
    ensures var sent := Responses(Session(handler, https, first, n)); |sent| == 1 && IsRefusal(sent[0], 400)
  {
    BlockIsRead(chunks, more, end);
    RefusalResponses(400, "Bad Request", "bad request\n", AfterTimeout(n));
  }

  /** A handler that throws ends the connection without an answer, and is reported once. */
  lemma FailingHandler(handler: Handler, https: bool, first: bool, x: Exchange, more: seq<Read>, n: Network)
    requires IsExchange(x) && n.script == x.chunks + more && NextTimeout(n) && handler(x.request).None?
    ensures Session(handler, https, first, n) == [Reported("connection-handler")]
  {
    FirstTurn(handler, https, first, x, more, n);
  }

  /** Without a stream, its timeouts and a handshake nothing is read or sent; only a peer that closes goes unreported. */
  lemma FailedSetup(setup: Setup, handler: Handler, https: bool, n: Network)
    requires !setup.created || !setup.timeoutsApplied || !setup.handshake.IoOk?
    ensures var trace := Serve(setup, handler, https, n);
      && Responses(trace) == [] && |trace| <= 1
      && (trace == [] <==> setup.created && setup.timeoutsApplied && setup.handshake.IoClosed?)
  {
    NoResponse("create-stream");
    NoResponse("configure-stream");
    NoResponse("handshake");
  }

  // ----- Strict transport security -----

  lemma {:induction false} FoundAtEnd(headers: seq<HeaderField>, field: HeaderField)
    requires FindHeader(headers, field.name).None?
    ensures FindHeader(headers + [field], field.name) == Some(|headers|)
  {
    if headers == [] {
      assert NameEquals(field.name, field.name);
      assert [] + [field] == [field];
    } else {
      assert !NameEquals(headers[0].name, field.name);
      assert (headers + [field])[1..] == headers[1..] + [field];
      FoundAtEnd(headers[1..], field);
    }
  }

  /** Every answer under HTTPS carries the policy: the handler's own, or a year; nothing else changes. */
  lemma SecuredAnswer(response: Response, https: bool)
    ensures var answer := Secured(response, https);
      && answer == response.(headers := answer.headers)
      && (!https ==> answer == response)
      && (https ==> HeaderValue(answer.headers, HSTS).Some?)
      && (https && HeaderValue(response.headers, HSTS).Some? ==> answer == response)
      && (https && HeaderValue(response.headers, HSTS).None? ==> HeaderValue(answer.headers, HSTS) == Some("max-age=31536000"))
      && response.headers <= answer.headers && |answer.headers| <= |response.headers| + 1
  {
    if https && FindHeader(response.headers, HSTS).None? {
      var field := HeaderField(HSTS, "max-age=31536000");
      FoundAtEnd(response.headers, field);
      assert NameEquals(HSTS, HSTS);
    }
  }

  // ----- A client that does not wait -----

  lemma SessionUnfolds(handler: Handler, https: bool, first: bool, n: Network, script: seq<Read>)
    requires NextTimeout(n)
    ensures var m := AfterTimeout(n.(script := script));
      var out := ReadBlock("", script, MAX_HEADER_BYTES);
      var turn := TurnOf(handler, https, first, out.result, out.view, m);
      Session(handler, https, first, n.(script := script))
      == if turn.goesOn then turn.events + Session(handler, https, false, AfterSend(m.(script := out.rest))) else turn.events
  {
    ReadMakesProgress(script, MAX_HEADER_BYTES);
  }

  lemma OnlyTimeoutsLookAtTheBuffer(
    handler: Handler, https: bool, first: bool, header: Block, view: string, m: Network, other: string, k: Network)
    requires header != Err(Timeout) && m.sends == k.sends
    ensures TurnOf(handler, https, first, header, view, m) == TurnOf(handler, https, first, header, other, k)
    ensures TurnOf(handler, https, first, header, view, m).goesOn ==> header.Ok?
  {
  }

  /** What a session does depends on what it reads first, and on the reads left if that was a block. */
  lemma SessionAfterReading(handler: Handler, https: bool, first: bool, n: Network, a: seq<Read>, b: seq<Read>)
    requires var x, y := ReadBlock("", a, MAX_HEADER_BYTES), ReadBlock("", b, MAX_HEADER_BYTES);
      && x.result == y.result && x.result != Err(Timeout) && (x.result.Ok? ==> x.rest == y.rest)
    ensures Session(handler, https, first, n.(script := a)) == Session(handler, https, first, n.(script := b))
  {
    if !NextTimeout(n) {
      return;
    }
    SessionUnfolds(handler, https, first, n, a);
    SessionUnfolds(handler, https, first, n, b);
    var x, y := ReadBlock("", a, MAX_HEADER_BYTES), ReadBlock("", b, MAX_HEADER_BYTES);
    OnlyTimeoutsLookAtTheBuffer(handler, https, first, x.result, x.view, AfterTimeout(n.(script := a)), y.view, AfterTimeout(n.(script := b)));
  }

  /**
   A client that does not wait loses what it sent early: bytes read along with the end of a block, in
   any chunking and over any network, never influence the session.
   */
  lemma EarlyBytesAreDropped(
    handler: Handler, https: bool, first: bool, chunks: seq<Read>, last: string, early: string, more: seq<Read>, n: Network)
    requires AllData(chunks) && last != "" && Framed(Delivered(chunks) + last)
    ensures Session(handler, https, first, n.(script := chunks + ([Data(last + early)] + more)))
         == Session(handler, https, first, n.(script := chunks + ([Data(last)] + more)))
  {
    var block := Delivered(chunks) + last;
    assert "" + block == block && last + "" == last;
    LastReadDecides("", chunks, last, early, more, MAX_HEADER_BYTES, block);
    LastReadDecides("", chunks, last, "", more, MAX_HEADER_BYTES, block);
    SessionAfterReading(handler, https, first, n, chunks + ([Data(last + early)] + more), chunks + ([Data(last)] + more));
  }

  /** A request whose last read brings more than its end. */
  datatype Hasty = Hasty(chunks: seq<Read>, last: string, early: string, request: Request)

  function InTime(x: Hasty): Exchange {
    Exchange(x.chunks + [Data(x.last)], x.request)
  }

  function AllInTime(xs: seq<Hasty>): (exchanges: seq<Exchange>)
    ensures |exchanges| == |xs| && forall i :: 0 <= i < |xs| ==> exchanges[i] == InTime(xs[i])
  {
    if xs == [] then [] else [InTime(xs[0])] + AllInTime(xs[1..])
  }

  ghost predicate IsHasty(x: Hasty) {
    AllData(x.chunks) && x.last != "" && IsExchange(InTime(x))
  }

  function HastyReads(xs: seq<Hasty>, tail: seq<Read>): seq<Read> {
    if xs == [] then tail else xs[0].chunks + ([Data(xs[0].last + xs[0].early)] + HastyReads(xs[1..], tail))
  }

  lemma HastyIsFramed(x: Hasty)
    requires IsHasty(x)
    ensures Framed(Delivered(x.chunks) + x.last)
  {
    DeliveredConcat(x.chunks, [Data(x.last)]);
    assert [Data(x.last)][1..] == [] && x.last + "" == x.last;
  }

  lemma SameRest(handler: Handler, https: bool, first: bool, x: Exchange, a: seq<Read>, b: seq<Read>, n: Network)
    requires IsExchange(x)
    requires var left := AfterSend(AfterTimeout(n));
      Session(handler, https, false, left.(script := a)) == Session(handler, https, false, left.(script := b))
    ensures Session(handler, https, first, n.(script := x.chunks + a))
         == Session(handler, https, first, n.(script := x.chunks + b))
  {
    if NextTimeout(n) {
      FirstTurn(handler, https, first, x, a, n.(script := x.chunks + a));
      FirstTurn(handler, https, first, x, b, n.(script := x.chunks + b));
    }
  }

  /** One request: its early bytes do not matter, and the rest of the session may be exchanged for an equal one. */
  lemma HastyTurn(handler: Handler, https: bool, first: bool, x: Hasty, a: seq<Read>, b: seq<Read>, n: Network)
    requires IsHasty(x)
    requires var left := AfterSend(AfterTimeout(n));
      Session(handler, https, false, left.(script := a)) == Session(handler, https, false, left.(script := b))
    ensures Session(handler, https, first, n.(script := x.chunks + ([Data(x.last + x.early)] + a)))
         == Session(handler, https, first, n.(script := InTime(x).chunks + b))
  {
    HastyIsFramed(x);
    EarlyBytesAreDropped(handler, https, first, x.chunks, x.last, x.early, a, n);
    ConcatIsAssociative(x.chunks, [Data(x.last)], a);
    SameRest(handler, https, first, InTime(x), a, b, n);
  }

  /** A hasty client has the session it would have had without its early bytes, over any network. */
  lemma {:induction false} HasteChangesNothing(
    handler: Handler, https: bool, first: bool, xs: seq<Hasty>, tail: seq<Read>, n: Network)
    requires forall x :: x in xs ==> IsHasty(x)
    ensures Session(handler, https, first, n.(script := HastyReads(xs, tail)))
         == Session(handler, https, first, n.(script := AllReads(AllInTime(xs)) + tail))
    decreases |xs|
  {
    if xs == [] {
      assert [] + tail == tail;
    } else {
      var left := AfterSend(AfterTimeout(n));
      HasteChangesNothing(handler, https, false, xs[1..], tail, left);
      HastyTurn(handler, https, first, xs[0], HastyReads(xs[1..], tail), AllReads(AllInTime(xs[1..])) + tail, n);
      assert AllInTime(xs)[1..] == AllInTime(xs[1..]);
      ReadsOfFirst(AllInTime(xs), tail);
    }
  }

  lemma InTimeAreExchanges(xs: seq<Hasty>)
    requires forall x :: x in xs ==> IsHasty(x)
    ensures forall x :: x in AllInTime(xs) ==> IsExchange(x)
  {
    forall x | x in AllInTime(xs) ensures IsExchange(x) {
      var i :| 0 <= i < |xs| && AllInTime(xs)[i] == x;
      assert xs[i] in xs;
    }
  }

  /** So over any network none of its answers is misplaced. */
  lemma HastyAnswersInTurn(handler: Handler, https: bool, first: bool, xs: seq<Hasty>, tail: seq<Read>, n: Network)
    requires forall x :: x in xs ==> IsHasty(x)
    ensures AnswersInTurn(handler, https, AllInTime(xs),
                          Responses(Session(handler, https, first, n.(script := HastyReads(xs, tail)))))
  {
    InTimeAreExchanges(xs);
    HasteChangesNothing(handler, https, first, xs, tail, n);
    NoAnswerIsMisplaced(handler, https, first, AllInTime(xs), tail, n.(script := AllReads(AllInTime(xs)) + tail));
  }

  /** And over a network that works it gets the answers to its requests, in order, as if it had waited. */
  lemma HastyAnswersInOrder(handler: Handler, https: bool, first: bool, xs: seq<Hasty>)
    requires forall x :: x in xs ==> IsHasty(x) && handler(x.request).Some?
    ensures Responses(Session(handler, https, first, Network(HastyReads(xs, []), [], [])))
         == Expected(handler, https, AllInTime(xs))
  {
    InTimeAreExchanges(xs);
    HasteChangesNothing(handler, https, first, xs, [], Network([], [], []));
    assert AllReads(AllInTime(xs)) + [] == AllReads(AllInTime(xs));
    AnswersInOrder(handler, https, first, AllInTime(xs));
  }
}

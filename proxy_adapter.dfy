/**
 * The Python end of the relay: the mitmproxy add-on that sends every
 * response to BLeak and applies the reply, and one sequential pass of the
 * loop that carries queued messages over the WebSocket.
 *
 * The WebSocket exchange itself (send, then receive) is a parameter: the
 * reply bytes, or None when no reply arrived.
 */
module ProxyAdapter {
  import opened Bytes
  import opened Wrappers
  import Utf8
  import opened MetadataJson
  import opened WireFrame

  /** `convert_headers_to_bytes`: a two-element list of the UTF-8 name and value. */
  function ConvertHeadersToBytes(h: Header): (r: seq<seq<byte>>)
    ensures |r| == 2
    ensures Utf8.Decode(r[0]) == Some(h.0) && Utf8.Decode(r[1]) == Some(h.1)
  {
    Utf8.DecodeEncode(h.0);
    Utf8.DecodeEncode(h.1);
    [Utf8.Encode(h.0), Utf8.Encode(h.1)]
  }

  /** `map(convert_headers_to_bytes, headers)`: same order, same duplicates. */
  function ConvertHeaderList(hs: seq<Header>): (r: seq<seq<seq<byte>>>)
    ensures |r| == |hs|
    ensures forall i :: 0 <= i < |hs| ==> r[i] == ConvertHeadersToBytes(hs[i])
  {
    if hs == [] then [] else [ConvertHeadersToBytes(hs[0])] + ConvertHeaderList(hs[1..])
  }

  /** `convert_body_to_bytes`: an absent body is sent as empty bytes. */
  function ConvertBodyToBytes(body: Option<seq<byte>>): (r: seq<byte>)
    ensures body.None? ==> r == []
    ensures body.Some? ==> r == body.value
  {
    if body.None? then [] else body.value
  }

  datatype FlowRequest = FlowRequest(httpMethod: string, url: string, headers: seq<Header>, content: Option<seq<byte>>)

  /**
   * A flow's response: the one received from the server (headers as
   * `headers.items(True)` lists them) or one built by `HTTPResponse.make`
   * from a status, a body and [name, value] byte lists.
   */
  datatype FlowResponse =
    | Received(statusCode: int, headers: seq<Header>, content: Option<seq<byte>>)
    | Made(statusCode: int, body: seq<byte>, fields: seq<seq<seq<byte>>>)

  class Flow {
    const request: FlowRequest
    var response: FlowResponse

    constructor (request: FlowRequest, response: FlowResponse)
      ensures this.request == request && this.response == response
    {
      this.request := request;
      this.response := response;
    }
  }

  /** The header list of a response as the add-on reads it. */
  function HeaderItems(r: FlowResponse): seq<Header>
  {
    match r
    case Received(_, hs, _) => hs
    case Made(_, _, fields) =>
      seq(|fields|, i requires 0 <= i < |fields| =>
        if |fields[i]| == 2 then (Utf8.Decode(fields[i][0]).GetOr(""), Utf8.Decode(fields[i][1]).GetOr("")) else ("", ""))
  }

  function ResponseContent(r: FlowResponse): Option<seq<byte>>
  {
    match r
    case Received(_, _, c) => c
    case Made(_, b, _) => Some(b)
  }

  /** The metadata object the add-on sends for a flow. */
  function OutboundMetadata(request: FlowRequest, response: FlowResponse): MessageMetadata
  {
    MessageMetadata(
      RequestMetadata(request.httpMethod, request.url, request.headers),
      ResponseMetadata(response.statusCode, HeaderItems(response)))
  }

  /** The frame `send_message` queues for a flow. */
  function OutboundFrame(request: FlowRequest, response: FlowResponse): Result<seq<byte>, FrameError>
  {
    PackRequestFrame(OutboundMetadata(request, response),
      ConvertBodyToBytes(request.content), ConvertBodyToBytes(ResponseContent(response)))
  }

  /**
   * What a reply does to the flow: no reply leaves it unchanged (Ok(None));
   * a reply that does not unpack raises; otherwise the response is replaced
   * wholesale by the reply's status, body and converted headers.
   */
  function ReplyOutcome(reply: Option<seq<byte>>): (r: Result<Option<FlowResponse>, FrameError>)
    ensures reply.None? ==> r == Ok(None)
    ensures r.Ok? && r.value.Some? ==> r.value.value.Made?
  {
    match reply
    case None => Ok(None)
    case Some(b) =>
      match DecodeReply(b)
      case Err(e) => Err(e)
      case Ok((meta, body)) => Ok(Some(Made(meta.statusCode, body, ConvertHeaderList(meta.headers))))
  }

  /**
   * The `response` hook. `reply` is what the WebSocket exchange produced for
   * the queued frame. The flow changes only when a reply arrives and unpacks.
   */
  method Response(flow: Flow, reply: Option<seq<byte>>) returns (r: Result<(), FrameError>)
    modifies flow
    ensures OutboundFrame(flow.request, old(flow.response)).Err? ==> r == Err(StructError)
    ensures OutboundFrame(flow.request, old(flow.response)).Ok? ==>
      match ReplyOutcome(reply)
      case Err(e) => r == Err(e)
      case Ok(None) => r == Ok(())
      case Ok(Some(made)) => r == Ok(())
    ensures flow.response == (
      if OutboundFrame(flow.request, old(flow.response)).Ok? && ReplyOutcome(reply).Ok? && ReplyOutcome(reply).value.Some?
      then ReplyOutcome(reply).value.value
      else old(flow.response))
  {
    var frame := OutboundFrame(flow.request, flow.response);
    if frame.Err? {
      return Err(StructError);
    }
    var outcome := ReplyOutcome(reply);
    match outcome
    case Err(e) =>
      r := Err(e);
    case Ok(None) =>
      r := Ok(());
    case Ok(Some(made)) =>
      flow.response := made;
      r := Ok(());
  }

  /** A reply packed by Node's `toBuffer` reaches the flow intact: status, body and every header in order. */
  lemma NodeReplyReachesFlow(meta: ResponseMetadata, body: seq<byte>)
    requires EncodeReply(meta, body).Ok?
    ensures var outcome := ReplyOutcome(Some(EncodeReply(meta, body).value));
      outcome.Ok? && outcome.value.Some? &&
      outcome.value.value.statusCode == meta.statusCode &&
      ResponseContent(outcome.value.value) == Some(body) &&
      HeaderItems(outcome.value.value) == meta.headers
  {
    DecodeEncodeReply(meta, body);
    var made := ReplyOutcome(Some(EncodeReply(meta, body).value)).value.value;
    var items := HeaderItems(made);
    assert |items| == |meta.headers|;
    forall i | 0 <= i < |items| ensures items[i] == meta.headers[i] {
      var f := ConvertHeaderList(meta.headers)[i];
      assert f == ConvertHeadersToBytes(meta.headers[i]);
    }
  }

  /** An entry of the add-on's queue: a frame waiting for its reply, or the shutdown marker `None`. */
  datatype QueueEntry = Shutdown | Pending(msg: seq<byte>)

  /** A served entry: the frame and the reply stored in `obj['response']` before the waiter is notified. */
  datatype Exchange = Exchange(msg: seq<byte>, response: Option<seq<byte>>)

  /**
   * One connection's inner loop over the entries it pops, as a function:
   * `Shutdown` ends the connection; a pending entry is always answered
   * (the waiter is notified even when the exchange fails, leaving the reply
   * None), and a failed exchange also ends the connection.
   * `outcomes[i]` is the exchange's result for `queue[i]`.
   */
  function Serve(queue: seq<QueueEntry>, outcomes: seq<Option<seq<byte>>>): (r: (seq<Exchange>, seq<QueueEntry>, seq<Option<seq<byte>>>))
    requires |outcomes| == |queue|
    ensures |r.2| == |r.1| <= |queue|
    ensures |r.0| + |r.1| <= |queue|
    ensures queue != [] ==> |r.1| < |queue|
    ensures r.1 == queue[|queue| - |r.1|..] && r.2 == outcomes[|outcomes| - |r.2|..]
  {
    if queue == [] then ([], [], [])
    else match queue[0]
      case Shutdown => ([], queue[1..], outcomes[1..])
      case Pending(msg) =>
        if outcomes[0].None? then ([Exchange(msg, None)], queue[1..], outcomes[1..])
        else
          var (served, rest, restOutcomes) := Serve(queue[1..], outcomes[1..]);
          ([Exchange(msg, outcomes[0])] + served, rest, restOutcomes)
  }

  /** The inner `while True` loop of one connection, popping entries until shutdown, failure or an empty queue. */
  method ServeConnection(queue: seq<QueueEntry>, outcomes: seq<Option<seq<byte>>>)
    returns (served: seq<Exchange>, rest: seq<QueueEntry>, restOutcomes: seq<Option<seq<byte>>>)
    requires |outcomes| == |queue|
    ensures (served, rest, restOutcomes) == Serve(queue, outcomes)
  {
    served := [];
    var i := 0;
    assert queue[0..] == queue && outcomes[0..] == outcomes;
    assert [] + Serve(queue, outcomes).0 == Serve(queue, outcomes).0;
    while i < |queue|
      invariant 0 <= i <= |queue|
      invariant var t := Serve(queue[i..], outcomes[i..]); Serve(queue, outcomes) == (served + t.0, t.1, t.2)
      decreases |queue| - i
    {
      assert queue[i..][1..] == queue[i + 1..] && outcomes[i..][1..] == outcomes[i + 1..];
      assert queue[i..][0] == queue[i] && outcomes[i..][0] == outcomes[i];
      match queue[i]
      case Shutdown =>
        assert served + [] == served;
        return served, queue[i + 1..], outcomes[i + 1..];
      case Pending(msg) =>
        var t := Serve(queue[i + 1..], outcomes[i + 1..]);
        var before := served;
        served := served + [Exchange(msg, outcomes[i])];
        if outcomes[i].None? {
          assert served + [] == served;
          return served, queue[i + 1..], outcomes[i + 1..];
        }
        assert Serve(queue[i..], outcomes[i..]).0 == [Exchange(msg, outcomes[i])] + t.0;
        assert before + ([Exchange(msg, outcomes[i])] + t.0) == served + t.0;
        i := i + 1;
    }
    assert queue[i..] == [] && outcomes[i..] == [];
    assert served + [] == served;
    rest, restOutcomes := [], [];
  }

  /** The outer loop: reconnect and serve again until the queue is drained. */
  function ServeAll(queue: seq<QueueEntry>, outcomes: seq<Option<seq<byte>>>): (r: seq<Exchange>)
    requires |outcomes| == |queue|
    ensures |r| <= |queue|
    decreases |queue|
  {
    if queue == [] then []
    else
      var (served, rest, restOutcomes) := Serve(queue, outcomes);
      served + ServeAll(rest, restOutcomes)
  }

  /** The frames of the pending entries, in queue order. */
  function PendingMessages(queue: seq<QueueEntry>): seq<seq<byte>>
  {
    if queue == [] then []
    else (if queue[0].Pending? then [queue[0].msg] else []) + PendingMessages(queue[1..])
  }

  function Messages(exchanges: seq<Exchange>): seq<seq<byte>>
  {
    if exchanges == [] then [] else [exchanges[0].msg] + Messages(exchanges[1..])
  }

  lemma {:induction false} MessagesAppend(a: seq<Exchange>, b: seq<Exchange>)
    ensures Messages(a + b) == Messages(a) + Messages(b)
  {
    if a == [] {
      assert a + b == b;
    } else {
      assert (a + b)[1..] == a[1..] + b;
      MessagesAppend(a[1..], b);
    }
  }

  lemma {:induction false} ServeSplits(queue: seq<QueueEntry>, outcomes: seq<Option<seq<byte>>>)
    requires |outcomes| == |queue|
    ensures var (served, rest, _) := Serve(queue, outcomes);
      PendingMessages(queue) == Messages(served) + PendingMessages(rest)
  {
    if queue != [] {
      match queue[0]
      case Shutdown =>
      case Pending(msg) =>
        if outcomes[0].Some? {
          ServeSplits(queue[1..], outcomes[1..]);
        }
    }
  }

  /**
   * Shutdown markers and failed exchanges only end a connection: across
   * reconnections every pending frame is served exactly once, in queue order,
   * and its waiter is notified.
   */
  lemma {:induction false} EveryPendingServedOnce(queue: seq<QueueEntry>, outcomes: seq<Option<seq<byte>>>)
    requires |outcomes| == |queue|
    ensures Messages(ServeAll(queue, outcomes)) == PendingMessages(queue)
    decreases |queue|
  {
    if queue != [] {
      var (served, rest, restOutcomes) := Serve(queue, outcomes);
      ServeSplits(queue, outcomes);
      EveryPendingServedOnce(rest, restOutcomes);
      MessagesAppend(served, ServeAll(rest, restOutcomes));
    }
  }
}

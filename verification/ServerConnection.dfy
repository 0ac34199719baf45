/**
 The loop of a connection thread in src/ipc/ipc_server.cpp over its socket: it reads a request, has it handled and
 writes the response.  Pushes to the same connection are left out here.
 */
module ServerConnection {
  import opened Framing
  import opened Shared

  const HANDLER_FAILED := 306

  datatype Handled = Returned(payload: Payload) | Threw

  /** The response to a request that was handled so; without a handler it is the same as when the handler throws. */
  function ResponseTo(handled: Handled): (response: Frame)
    ensures StatusOf(response.word) == 0 <==> handled.Returned?
    ensures handled.Returned? ==> response.payload == handled.payload
    ensures handled.Threw? ==> StatusOf(response.word) == 306 && response.payload == []
  {
    match handled
    case Returned(payload) => Frame(StatusWord(0), payload)
    case Threw => Frame(StatusWord(HANDLER_FAILED), [])
  }

  /** A request handler may do anything; calls and results record what it was asked and how that ended. */
  class Handler {
    ghost var calls: seq<Frame>
    ghost var results: seq<Handled>

    constructor ()
      ensures calls == [] && results == []
    {
      calls, results := [], [];
    }

    method Handle(request: Frame) returns (handled: Handled)
      modifies this
      ensures calls == old(calls) + [request] && results == old(results) + [handled]
    {
      handled := *;
      calls, results := calls + [request], results + [handled];
    }
  }

  function Responses(results: seq<Handled>): (frames: seq<Frame>)
    ensures |frames| == |results| && forall i | 0 <= i < |results| :: frames[i] == ResponseTo(results[i])
  {
    seq(|results|, i requires 0 <= i < |results| => ResponseTo(results[i]))
  }

  /** How one pass of the loop ended: before a response, with a whole one, or inside one. */
  datatype Round = NoRequest | Answered(handled: Handled) | Cut(handled: Handled, sent: nat)

  /** What a pass gives to the socket. */
  function Given(round: Round): Stream {
    match round
    case NoRequest => []
    case Answered(handled) => Encode(ResponseTo(handled))
    case Cut(handled, sent) =>
      if sent < |Encode(ResponseTo(handled))| then Encode(ResponseTo(handled))[..sent] else []
  }

  /** One pass: a request is taken from the stream, handled and answered, unless something fails. */
  method ServeOne(sock: Socket, handler: Handler, max: uint32, ghost requests: seq<Frame>, ghost torn: Stream)
      returns (more: bool, ghost round: Round)
    requires AllFit(requests, max) && !HoldsFrame(torn, max) && sock.inbox == EncodeAll(requests) + torn
    modifies sock, handler
    ensures more <==> round.Answered?
    ensures sock.outbox == old(sock.outbox) + Given(round)
    ensures round.NoRequest? ==> handler.calls == old(handler.calls) && handler.results == old(handler.results)
    ensures !round.NoRequest? ==>
      && requests != [] && handler.calls == old(handler.calls) + [requests[0]]
      && handler.results == old(handler.results) + [round.handled]
    ensures more ==> sock.inbox == EncodeAll(requests[1..]) + torn
    ensures round.Cut? ==> round.sent < |Encode(ResponseTo(round.handled))|
  {
    hide Encode, EncodeAll, HoldsFrame, ResponseTo;
    RequestAhead(requests, torn, max);
    var request := ReadFrame(sock, max);
    if request.None? {
      return false, NoRequest;
    }
    FrameIsUnique(requests[0], EncodeAll(requests[1..]) + torn, request.value, sock.inbox, max);
    var handled := handler.Handle(request.value);
    var ok, sent := WriteFrame(sock, ResponseTo(handled));
    assert ok ==> Encode(ResponseTo(handled))[..sent] == Encode(ResponseTo(handled));
    return ok, if ok then Answered(handled) else Cut(handled, sent);
  }

  /** A stream that begins with a frame begins with the first request. */
  lemma RequestAhead(requests: seq<Frame>, torn: Stream, max: uint32)
    requires AllFit(requests, max) && !HoldsFrame(torn, max)
    ensures HoldsFrame(EncodeAll(requests) + torn, max) <==> requests != []
    ensures requests != [] ==> EncodeAll(requests) + torn == Encode(requests[0]) + (EncodeAll(requests[1..]) + torn)
  {
    hide Encode, HoldsFrame;
    if requests == [] {
      assert EncodeAll(requests) + torn == torn;
    } else {
      FirstOf(requests, torn, max);
    }
  }

  /**
   Whatever the socket and the handler do, the requests handled are the first ones sent, each once and in order, and
   the connection has been given the responses to them in that order, the last of them whole, in part or not at all.
   */
  method Serve(sock: Socket, handler: Handler, max: uint32, ghost requests: seq<Frame>, ghost torn: Stream)
      returns (ghost answered: nat, ghost last: Round)
    requires AllFit(requests, max) && !HoldsFrame(torn, max) && sock.inbox == EncodeAll(requests) + torn
    requires handler.calls == [] && handler.results == []
    modifies sock, handler
    ensures handler.calls <= requests && |handler.results| == |handler.calls|
    ensures answered <= |handler.results| && !last.Answered?
    ensures sock.outbox == old(sock.outbox) + EncodeAll(Responses(handler.results[..answered])) + Given(last)
    ensures handler.results == handler.results[..answered] + if last.Cut? then [last.handled] else []
  {
    hide Encode, EncodeAll, HoldsFrame, ResponseTo, Given;
    answered, last := 0, NoRequest;
    assert EncodeAll(Responses([])) == [] && Given(NoRequest) == [] by { NothingGiven(); }
    ghost var left := requests;
    var running: bool := *;
    while running
      invariant requests == handler.calls + left && AllFit(left, max) && last.NoRequest?
      invariant |handler.results| == |handler.calls| == answered
      invariant sock.inbox == EncodeAll(left) + torn
      invariant sock.outbox == old(sock.outbox) + EncodeAll(Responses(handler.results))
      decreases |left|
    {
      ghost var before := handler.results;
      var more, round := ServeOne(sock, handler, max, left, torn);
      if !more {
        last := round;
        assert handler.results[..answered] == before;
        return;
      }
      ResponsesAppend(before, round.handled);
      AnsweredGives(round.handled);
      left, answered := left[1..], answered + 1;
      running := *;
    }
    assert handler.results[..answered] == handler.results;
  }

  lemma NothingGiven()
    ensures EncodeAll(Responses([])) == [] && Given(NoRequest) == []
  {
  }

  lemma AnsweredGives(handled: Handled)
    ensures Given(Answered(handled)) == Encode(ResponseTo(handled))
  {
  }

  lemma ResponsesAppend(results: seq<Handled>, handled: Handled)
    ensures EncodeAll(Responses(results + [handled])) == EncodeAll(Responses(results)) + Encode(ResponseTo(handled))
  {
    hide Encode, ResponseTo;
    assert Responses(results + [handled]) == Responses(results) + [ResponseTo(handled)];
    EncodeAllAppend(Responses(results), ResponseTo(handled));
  }

  /**
   The client's end of that stream, however its calls are cut: the i-th response it reads tells what became of the i-th
   request, which is what its matching of responses by place rests on.
   */
  method ReadAnswers(client: Socket, max: uint32, ghost results: seq<Handled>, ghost answered: nat, ghost last: Round)
      returns (responses: seq<Frame>)
    requires answered <= |results| && AllFit(Responses(results), max) && !last.Answered?
    requires last.Cut? ==> results == results[..answered] + [last.handled]
    requires client.inbox == EncodeAll(Responses(results[..answered])) + Given(last)
    modifies client
    ensures |responses| <= answered
    ensures forall i | 0 <= i < |responses| ::
      && (StatusOf(responses[i].word) == 0 <==> results[i].Returned?)
      && (results[i].Returned? ==> responses[i].payload == results[i].payload)
      && (results[i].Threw? ==> StatusOf(responses[i].word) == 306 && responses[i].payload == [])
    ensures Benign(old(client.schedule)) && ReadyCount(old(client.schedule)) >= |old(client.inbox)| ==>
      |responses| == answered
  {
    hide Encode, EncodeAll, HoldsFrame, ResponseTo, Given;
    CutIsTorn(results, answered, last, max);
    ghost var expected := Responses(results[..answered]);
    assert forall i | 0 <= i < answered :: expected[i] == Responses(results)[i];
    responses := ReadFrames(client, max, expected, Given(last));
  }

  /** A response cut off inside cannot be read as a frame. */
  lemma CutIsTorn(results: seq<Handled>, answered: nat, last: Round, max: uint32)
    requires answered <= |results| && AllFit(Responses(results), max) && !last.Answered?
    requires last.Cut? ==> results == results[..answered] + [last.handled]
    ensures !HoldsFrame(Given(last), max)
  {
    hide Encode, EncodeAll, ResponseTo;
    if last.Cut? && last.sent < |Encode(ResponseTo(last.handled))| {
      assert results[answered] == last.handled;
      assert Fits(Responses(results)[answered], max);
      hide HoldsFrame;
      TornFrame(ResponseTo(last.handled), last.sent, max);
    }
  }
}

/**
 A client's connection down to the bytes: the client's socket, the server's socket, the connection thread behind it and
 the bytes on their way.  A response carries no identifier: it is matched by its place in the stream alone.  The model
 tags each request with the call that sent it; neither end ever looks at the tag.
 */
module CallChannel {
  import opened Framing
  import opened Numerals
  import opened ServerConnection

  // What has been sent and read

  datatype Request = Request(call: nat, methodId: uint32, params: Payload)

  /**
   One connection: the requests that were sent whole, how many answers were read, and whether a send or a read broke off
   inside a frame, so that whatever is read from there on is cut at the wrong places.
   */
  datatype Link = Link(received: seq<Request>, read: nat, torn: bool)

  /** Nothing sent on the connection is unanswered, and all of it was sent whole. */
  predicate Settled(link: Link) { link.read == |link.received| && !link.torn }

  /** What the next response read may answer: the oldest unanswered request, or anything on a torn connection. */
  predicate MayAnswer(link: Link, request: Request) {
    link.torn || (link.read < |link.received| && link.received[link.read] == request)
  }

  function Sent(link: Link, request: Request): Link { link.(received := link.received + [request]) }

  /** Why a failed attempt must close: the next response is sure to be the right one exactly on a settled connection. */
  lemma MatchesExactlyWhenSettled(link: Link, request: Request)
    requires link.read <= |link.received| && request !in link.received
    ensures MayAnswer(Sent(link, request), request) || !Settled(link)
    ensures (forall other | MayAnswer(Sent(link, request), other) :: other == request) <==> Settled(link)
  {
    if link.torn {
      assert MayAnswer(Sent(link, request), request.(call := request.call + 1));
    } else if link.read < |link.received| {
      assert link.received[link.read] in link.received;
      assert MayAnswer(Sent(link, request), link.received[link.read]);
    }
  }

  // What is on its way

  function FrameOf(request: Request): Frame { Frame(request.methodId, request.params) }

  function Frames(requests: seq<Request>): (frames: seq<Frame>)
    ensures |frames| == |requests| && forall i | 0 <= i < |requests| :: frames[i] == FrameOf(requests[i])
  {
    seq(|requests|, i requires 0 <= i < |requests| => FrameOf(requests[i]))
  }

  /** Every payload fits its length field. */
  predicate AllShort(frames: seq<Frame>) { forall i | 0 <= i < |frames| :: |frames[i].payload| < TWO_TO_THE_32 }

  /** What a reader finds at the head of frames and a rest that holds none is the first of the frames. */
  lemma NextFrame(s: Stream, f: Frame, rest: Stream, frames: seq<Frame>, tail: Stream, max: uint32)
    requires s == Encode(f) + rest && s == EncodeAll(frames) + tail
    requires Fits(f, max) && AllShort(frames) && !HoldsFrame(tail, max)
    ensures frames != [] && f == frames[0] && rest == EncodeAll(frames[1..]) + tail
  {
    hide Encode, HoldsFrame;
    HoldsFrameIff(f, rest, max);
    assert EncodeAll([]) + tail == tail;
    if frames != [] {
      assert s == Encode(frames[0]) + (EncodeAll(frames[1..]) + tail);
      HoldsFrameIff(frames[0], EncodeAll(frames[1..]) + tail, max);
      FrameIsUnique(f, rest, frames[0], EncodeAll(frames[1..]) + tail, max);
    }
  }

  /** Any stream is some frames that can be read and a rest that holds none. */
  lemma {:induction false} Decompose(s: Stream, max: uint32) returns (frames: seq<Frame>, rest: Stream)
    ensures AllFit(frames, max) && s == EncodeAll(frames) + rest && !HoldsFrame(rest, max)
    decreases |s|
  {
    if !HoldsFrame(s, max) {
      frames, rest := [], s;
      assert EncodeAll([]) + s == s;
    } else {
      var f, more := FirstFrame(s, max);
      hide Encode, HoldsFrame;
      var others;
      others, rest := Decompose(more, max);
      frames := [f] + others;
      assert frames[1..] == others;
      assert EncodeAll(frames) + rest == Encode(f) + (EncodeAll(others) + rest);
    }
  }

  lemma FirstFrame(s: Stream, max: uint32) returns (f: Frame, more: Stream)
    requires HoldsFrame(s, max)
    ensures Fits(f, max) && s == Encode(f) + more && |more| < |s|
  {
    hide Word, WordValue;
    var n := WordValue(s[4..8]);
    f, more := Frame(WordValue(s[..4]), s[8..8 + n]), s[8 + n..];
    HeaderOf(s[..8]);
    assert s[..8][..4] == s[..4] && s[..8][4..] == s[4..8];
    assert s == s[..8] + s[8..8 + n] + s[8 + n..];
  }

  /**
   What holds of a connection on which nothing broke off.  calls and results are the requests handled and how; whole
   counts the responses given whole, and tail is the part of the next one; toServer and toClient are the bytes sent and
   not taken yet.
   */
  datatype Flow = Flow(
    calls: seq<Frame>, results: seq<Handled>, whole: nat, tail: Stream, serving: bool,
    toServer: Stream, toClient: Stream)

  /** The requests handled are the first ones sent, each with its result. */
  ghost predicate Counted(f: Flow, link: Link) {
    && link.read <= f.whole <= |f.results| == |f.calls| <= |link.received|
    && f.calls == Frames(link.received)[..|f.calls|]
    && (f.serving ==> f.whole == |f.results| && f.tail == [])
    && forall max: uint32 :: !HoldsFrame(f.tail, max)
  }

  /** The bytes on their way are the requests not handled yet and the responses not read yet. */
  ghost predicate InOrder(f: Flow, link: Link) {
    && Counted(f, link)
    && (f.serving ==> f.toServer == EncodeAll(Frames(link.received)[|f.calls|..]))
    && f.toClient == EncodeAll(Responses(f.results)[link.read..f.whole]) + f.tail
  }

  lemma NothingHolds()
    ensures forall max: uint32 :: !HoldsFrame([], max)
  {
  }

  lemma StartsInOrder()
    ensures InOrder(Flow([], [], 0, [], true, [], []), Link([], 0, false))
  {
    hide HoldsFrame;
    NothingHolds();
    assert EncodeAll([]) + [] == [];
    assert Frames([])[0..] == [] && Responses([])[0..0] == [];
  }

  lemma OneMoreRequest(received: seq<Request>, handled: nat, request: Request)
    requires handled <= |received|
    ensures Frames(received + [request])[..handled] == Frames(received)[..handled]
    ensures EncodeAll(Frames(received + [request])[handled..]) ==
            EncodeAll(Frames(received)[handled..]) + Encode(FrameOf(request))
  {
    hide Encode, EncodeAll;
    EncodeAllAppend(Frames(received)[handled..], FrameOf(request));
    assert Frames(received + [request])[handled..] == Frames(received)[handled..] + [FrameOf(request)];
  }

  lemma SendKeepsOrder(f: Flow, link: Link, request: Request)
    requires InOrder(f, link)
    ensures InOrder(f.(toServer := f.toServer + Encode(FrameOf(request))), Sent(link, request))
  {
    hide Encode, EncodeAll, HoldsFrame;
    OneMoreRequest(link.received, |f.calls|, request);
  }

  /** The frame that the server takes from what has arrived is the first of the requests on their way. */
  lemma RequestTaken(
      inbox: Stream, coming: Stream, frames: seq<Frame>, rest: Stream, pending: seq<Frame>, max: uint32)
    requires frames != [] && AllFit(frames, max) && inbox == EncodeAll(frames) + rest && AllShort(pending)
    requires inbox + coming == EncodeAll(pending)
    ensures pending != [] && frames[0] == pending[0]
    ensures EncodeAll(frames[1..]) + rest + coming == EncodeAll(pending[1..])
  {
    hide Encode, HoldsFrame;
    NothingHolds();
    var after := EncodeAll(frames[1..]) + rest + coming;
    assert inbox + coming == Encode(frames[0]) + after;
    assert EncodeAll(pending) + [] == EncodeAll(pending);
    NextFrame(inbox + coming, frames[0], after, pending, [], max);
    assert EncodeAll(pending[1..]) + [] == EncodeAll(pending[1..]);
  }

  lemma TakenIsNext(received: seq<Request>, handled: nat)
    requires handled < |received|
    ensures Frames(received)[handled..][0] == Frames(received)[handled]
    ensures Frames(received)[..handled] + [Frames(received)[handled]] == Frames(received)[..handled + 1]
    ensures Frames(received)[handled..][1..] == Frames(received)[handled + 1..]
  {
  }

  /** A pass of the loop that ended so; frame is what was taken from the stream and after what is left of it. */
  function AfterRound(f: Flow, round: Round, frame: Frame, after: Stream): Flow {
    match round
    case NoRequest => f.(serving := false, toServer := after)
    case Answered(handled) =>
      f.(calls := f.calls + [frame], results := f.results + [handled], whole := f.whole + 1,
         toServer := after, toClient := f.toClient + Given(round))
    case Cut(handled, _) =>
      f.(calls := f.calls + [frame], results := f.results + [handled], tail := Given(round), serving := false,
         toServer := after, toClient := f.toClient + Given(round))
  }

  lemma RoundKeepsOrder(f: Flow, link: Link, round: Round, frame: Frame, after: Stream)
    requires InOrder(f, link) && f.serving
    requires !round.NoRequest? ==>
      var pending := Frames(link.received)[|f.calls|..];
      pending != [] && frame == pending[0] && (round.Answered? ==> after == EncodeAll(pending[1..]))
    ensures InOrder(AfterRound(f, round, frame, after), link)
  {
    match round {
      case NoRequest =>
      case Answered(_) => AnswerKeepsOrder(f, link, round, frame, after);
      case Cut(_, _) => CutKeepsOrder(f, link, round, frame, after);
    }
  }

  lemma AnswerKeepsOrder(f: Flow, link: Link, round: Round, frame: Frame, after: Stream)
    requires InOrder(f, link) && f.serving && round.Answered?
    requires var pending := Frames(link.received)[|f.calls|..];
             pending != [] && frame == pending[0] && after == EncodeAll(pending[1..])
    ensures InOrder(AfterRound(f, round, frame, after), link)
  {
    hide Encode, EncodeAll, HoldsFrame, Responses, Given;
    TakenIsNext(link.received, |f.calls|);
    AnswerGiven(f.results, round.handled, link.read);
    assert f.toClient == EncodeAll(Responses(f.results)[link.read..|f.results|]);
  }

  lemma AnswerGiven(results: seq<Handled>, handled: Handled, read: nat)
    requires read <= |results|
    ensures EncodeAll(Responses(results + [handled])[read..|results| + 1]) ==
            EncodeAll(Responses(results)[read..|results|]) + Given(Round.Answered(handled))
  {
    hide Encode, EncodeAll, ResponseTo;
    EncodeAllAppend(Responses(results)[read..|results|], ResponseTo(handled));
    assert Responses(results + [handled])[read..|results| + 1] ==
           Responses(results)[read..|results|] + [ResponseTo(handled)];
    AnsweredGives(handled);
  }

  lemma CutKeepsOrder(f: Flow, link: Link, round: Round, frame: Frame, after: Stream)
    requires InOrder(f, link) && f.serving && round.Cut?
    requires var pending := Frames(link.received)[|f.calls|..]; pending != [] && frame == pending[0]
    ensures InOrder(AfterRound(f, round, frame, after), link)
  {
    hide Encode, EncodeAll, HoldsFrame, Responses, Given;
    TakenIsNext(link.received, |f.calls|);
    AnswerBegun(f.results, round, link.read);
    assert f.toClient == EncodeAll(Responses(f.results)[link.read..|f.results|]);
  }

  lemma AnswerBegun(results: seq<Handled>, round: Round, read: nat)
    requires read <= |results| && round.Cut?
    ensures Responses(results + [round.handled])[read..|results|] == Responses(results)[read..|results|]
    ensures forall max: uint32 :: !HoldsFrame(Given(round), max)
  {
    hide Encode, HoldsFrame, ResponseTo;
    NothingHolds();
    assert |ResponseTo(round.handled).payload| < TWO_TO_THE_32 by { ResponseIsShort(round.handled); }
    if round.sent < |Encode(ResponseTo(round.handled))| {
      forall max: uint32 ensures !HoldsFrame(Given(round), max) {
        TornFrame(ResponseTo(round.handled), round.sent, max);
      }
    }
  }

  lemma ResponseIsShort(handled: Handled)
    ensures |ResponseTo(handled).payload| < TWO_TO_THE_32
  {
  }

  lemma ResponsesAreShort(results: seq<Handled>)
    ensures AllShort(Responses(results))
  {
    forall i | 0 <= i < |results| ensures |Responses(results)[i].payload| < TWO_TO_THE_32 {
      ResponseIsShort(results[i]);
    }
  }

  /** The frame that the client takes from what has arrived is the first response not read. */
  lemma ResponseTaken(
      inbox: Stream, coming: Stream, response: Frame, rest: Stream,
      results: seq<Handled>, read: nat, whole: nat, tail: Stream, max: uint32)
    requires read <= whole <= |results| && Fits(response, max) && inbox == Encode(response) + rest
    requires inbox + coming == EncodeAll(Responses(results)[read..whole]) + tail && !HoldsFrame(tail, max)
    ensures read < whole && response == ResponseTo(results[read])
    ensures rest + coming == EncodeAll(Responses(results)[read + 1..whole]) + tail
  {
    hide Encode, EncodeAll, HoldsFrame, ResponseTo;
    ResponsesAreShort(results);
    var expected := Responses(results)[read..whole];
    assert inbox + coming == Encode(response) + (rest + coming);
    NextFrame(inbox + coming, response, rest + coming, expected, tail, max);
    assert expected[1..] == Responses(results)[read + 1..whole];
  }

  lemma ReadKeepsOrder(f: Flow, link: Link, inbox: Stream, coming: Stream, response: Frame, rest: Stream, max: uint32)
    requires InOrder(f, link) && f.toClient == inbox + coming
    requires Fits(response, max) && inbox == Encode(response) + rest
    ensures link.read < |f.results| && response == ResponseTo(f.results[link.read])
    ensures f.calls[link.read] == FrameOf(link.received[link.read])
    ensures InOrder(f.(toClient := rest + coming), link.(read := link.read + 1))
  {
    hide Encode, EncodeAll, HoldsFrame, ResponseTo;
    ResponseTaken(inbox, coming, response, rest, f.results, link.read, f.whole, f.tail, max);
  }

  class Channel {
    const client: Socket
    const server: Socket
    const handler: Handler
    /** The longest payload that the server reads. */
    const limit: uint32
    /** Whether the connection thread is still in its loop. */
    var serving: bool
    /** What IpcClient sees of the connection. */
    ghost var link: Link
    ghost var whole: nat
    ghost var tail: Stream

    ghost function Parts(): set<object> { {this, client, server, handler} }

    ghost function Flowing(): Flow
      reads this, client, server, handler
    {
      Flow(handler.calls, handler.results, whole, tail, serving,
           server.inbox + client.outbox, client.inbox + server.outbox)
    }

    ghost predicate Valid()
      reads this, client, server, handler
    {
      client != server && (!link.torn ==> InOrder(Flowing(), link))
    }

    constructor (client: Socket, server: Socket, handler: Handler, limit: uint32)
      requires client != server && client.inbox == client.outbox == server.inbox == server.outbox == []
      requires handler.calls == [] && handler.results == []
      ensures Valid() && link == Link([], 0, false)
      ensures this.client == client && this.server == server && this.handler == handler && this.limit == limit
    {
      this.client, this.server, this.handler, this.limit := client, server, handler, limit;
      serving, link, whole, tail := true, Link([], 0, false), 0, [];
      new;
      StartsInOrder();
    }

    method WriteRequest(request: Request) returns (ok: bool)
      requires Valid()
      modifies this`link, client
      ensures Valid() && link == if ok then Sent(old(link), request) else old(link).(torn := true)
    {
      hide Encode, InOrder;
      ghost var sent;
      ok, sent := WriteFrame(client, FrameOf(request));
      if !ok {
        link := link.(torn := true);
        return;
      }
      assert Encode(FrameOf(request))[..sent] == Encode(FrameOf(request));
      if !link.torn {
        SendKeepsOrder(old(Flowing()), link, request);
        assert server.inbox + client.outbox == old(server.inbox + client.outbox) + Encode(FrameOf(request));
      }
      link := Sent(link, request);
    }

    /** Some bytes arrive at the server and its thread makes a pass of its loop. */
    method ServerTurn()
      requires Valid()
      modifies `serving, `whole, `tail, client, server, handler
      ensures Valid() && old(handler.calls) <= handler.calls && old(handler.results) <= handler.results
    {
      hide Encode, EncodeAll, HoldsFrame, InOrder, Given;
      Deliver(client, server);
      if !serving {
        return;
      }
      ghost var f, inbox, coming := old(Flowing()), server.inbox, client.outbox;
      ghost var frames, rest := Decompose(inbox, limit);
      ghost var round;
      serving, round := ServeOne(server, handler, limit, frames, rest);
      ghost var frame := if frames == [] then Frame(0, []) else frames[0];
      if !link.torn {
        if !round.NoRequest? {
          TakenFromFlow(f, link, inbox, coming, frames, rest, limit);
        }
        RoundKeepsOrder(f, link, round, frame, server.inbox + coming);
        NothingGiven();
        assert f.toClient + [] == f.toClient;
        assert client.inbox + server.outbox == f.toClient + Given(round);
      }
      match round {
        case NoRequest =>
        case Answered(_) => whole := whole + 1;
        case Cut(_, _) => tail := Given(round);
      }
    }

    /** The response read on a connection that is not torn answers the oldest request not answered so far. */
    method ReadResponse(max: uint32) returns (ok: bool, response: Frame, ghost answers: Request)
      requires Valid()
      modifies this, client, server, handler
      ensures Valid() && link == if ok then old(link).(read := old(link.read) + 1) else old(link).(torn := true)
      ensures ok ==> MayAnswer(old(link), answers)
      ensures ok && !old(link.torn) ==>
        var n := old(link.read);
        && n < |handler.results| && n < |handler.calls|
        && handler.calls[n] == Frame(answers.methodId, answers.params)
        && (StatusOf(response.word) == 0 <==> handler.results[n].Returned?)
        && (handler.results[n].Returned? ==> response.payload == handler.results[n].payload)
        && (handler.results[n].Threw? ==> StatusOf(response.word) == 306 && response.payload == [])
      ensures old(handler.calls) <= handler.calls && old(handler.results) <= handler.results
    {
      hide Encode, EncodeAll, HoldsFrame, ResponseTo;
      var turns: int := *;
      for i := 0 to if turns < 0 then 0 else turns
        invariant Valid() && link == old(link)
        invariant old(handler.calls) <= handler.calls && old(handler.results) <= handler.results
      {
        ServerTurn();
      }
      ghost var f := Flowing();
      Deliver(server, client);
      ghost var before := client.inbox;
      answers := Request(0, 0, []);
      var frame := ReadFrame(client, max);
      ok, response := frame.Some?, Frame(0, []);
      if !ok {
        link := link.(torn := true);
        return;
      }
      response := frame.value;
      if !link.torn {
        ReadKeepsOrder(f, link, before, server.outbox, response, client.inbox, max);
        answers := link.received[link.read];
      }
      link := link.(read := link.read + 1);
    }

    /** An attempt of a call, end to end: what is returned tells what became of this very request at the server. */
    method Attempt(request: Request, max: uint32) returns (ok: bool, response: Frame, ghost handled: Handled)
      requires Valid() && Settled(link)
      modifies this, client, server, handler
      ensures Valid() && (if ok then Settled(link) else link.torn)
      ensures ok ==>
        var n := |old(link.received)|;
        && link.received == old(link.received) + [request]
        && n < |handler.calls| && handler.calls[n] == Frame(request.methodId, request.params)
        && n < |handler.results| && handler.results[n] == handled
        && (StatusOf(response.word) == 0 <==> handled.Returned?)
        && (handled.Returned? ==> response.payload == handled.payload)
        && (handled.Threw? ==> StatusOf(response.word) == 306 && response.payload == [])
    {
      hide InOrder, StatusOf;
      response, handled := Frame(0, []), Threw;
      ok := WriteRequest(request);
      if !ok {
        return;
      }
      ghost var answers;
      ok, response, answers := ReadResponse(max);
      if ok {
        handled := handler.results[|old(link.received)|];
      }
    }
  }

  /** The same of a flow: what arrived and what is coming are the requests not handled. */
  lemma TakenFromFlow(
      f: Flow, link: Link, inbox: Stream, coming: Stream, frames: seq<Frame>, rest: Stream, max: uint32)
    requires InOrder(f, link) && f.serving && f.toServer == inbox + coming
    requires frames != [] && AllFit(frames, max) && inbox == EncodeAll(frames) + rest
    ensures var pending := Frames(link.received)[|f.calls|..];
            && pending != [] && frames[0] == pending[0]
            && EncodeAll(frames[1..]) + rest + coming == EncodeAll(pending[1..])
  {
    hide Encode, EncodeAll, HoldsFrame;
    RequestTaken(inbox, coming, frames, rest, Frames(link.received)[|f.calls|..], max);
  }

  /** Some bytes, or none, go from one end to the other. */
  method Deliver(sender: Socket, receiver: Socket)
    requires sender != receiver
    modifies sender`outbox, receiver`inbox
    ensures receiver.inbox + sender.outbox == old(receiver.inbox) + old(sender.outbox)
  {
    var n: int := *;
    var k := if n < 0 then 0 else if n > |sender.outbox| then |sender.outbox| else n;
    receiver.inbox := receiver.inbox + sender.outbox[..k];
    sender.outbox := sender.outbox[k..];
  }
}

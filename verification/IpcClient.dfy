/**
 The calls of src/ipc/ipc_client.cpp over connections as CallChannel has them: lazy connect, one retry after a failed
 attempt, and the closing of whatever broke off.
 */
module IpcClient {
  import opened CallChannel
  import opened Framing
  import opened ServerConnection

  /** A request that was answered, and what became of it at the server. */
  datatype Served = Served(request: Request, handled: Handled)

  /** The descriptors this client has open and the connections behind them.  Every system call may fail at any time. */
  class Network {
    var open: set<int>
    var channels: map<int, Channel>
    /** Every request an attempt was begun for, and every one that was answered, in order. */
    ghost var attempts: seq<Request>
    ghost var served: seq<Served>

    constructor ()
      ensures open == {} && channels == map[] && attempts == [] && served == []
    {
      open, channels, attempts, served := {}, map[], [], [];
    }

    /** Any number that is not open, or a failure. */
    method Socket() returns (fd: int)
      modifies `open
      ensures fd >= 0 ==> fd !in old(open) && open == old(open) + {fd}
      ensures fd < 0 ==> fd == -1 && open == old(open)
    {
      fd := *;
      if fd < 0 || fd in open {
        return -1;
      }
      open := open + {fd};
    }

    /** A new connection, to a server with any handler and any limit, over sockets with any schedules. */
    method Connect(fd: int) returns (ok: bool)
      requires fd in open
      modifies `channels
      ensures !ok ==> channels == old(channels)
      ensures ok ==>
        && fd in channels && channels == old(channels)[fd := channels[fd]] && fresh(channels[fd].Parts())
        && channels[fd].Valid() && channels[fd].link == Link([], 0, false)
    {
      ok := *;
      if ok {
        var schedule: seq<Event>, serverSchedule: seq<Event>, limit: uint32 := *, *, *;
        var client := new Framing.Socket([], schedule);
        var server := new Framing.Socket([], serverSchedule);
        var handler := new Handler();
        var channel := new Channel(client, server, handler, limit);
        channels := channels[fd := channel];
      }
    }

    /** Closing a number that is not open, or is another's by now, is what the client must never do. */
    method Close(fd: int)
      requires fd in open
      modifies `open, `channels
      ensures open == old(open) - {fd} && channels == old(channels) - {fd}
    {
      open, channels := open - {fd}, channels - {fd};
    }
  }

  const SOCKET_FAILED := -301
  const TRANSPORT_FAILED := -304

  /** The status code and the body of the response. */
  datatype Result = Result(status: int, body: Stream)

  datatype Outcome = Answered(result: Result) | Transport(code: int)

  class Client {
    const net: Network
    const maxFrame: uint32
    var fd: int
    var connected: bool
    var lastResult: Result
    /** The number of calls made so far, the tag of the next one. */
    var calls: nat

    /** The connection in use, if there is one. */
    ghost function Parts(): set<object>
      reads `fd, `connected, net`channels
    {
      if connected && fd in net.channels then net.channels[fd].Parts() else {}
    }

    /** At most one descriptor is open, exactly when connected. */
    ghost predicate OneOpen()
      reads `fd, `connected, net`open
    {
      if connected then fd >= 0 && net.open == {fd} else fd == -1 && net.open == {}
    }

    /** Between calls: and nothing is unread on it. */
    ghost predicate Valid()
      reads `fd, `connected, net`open, net`channels, Parts()
      ensures Valid() ==> OneOpen()
    {
      && OneOpen()
      && (connected ==>
          fd in net.channels && net.channels[fd].Valid() && Settled(net.channels[fd].link))
    }

    constructor (net: Network, maxFrame: uint32)
      requires net.open == {}
      ensures Valid() && this.net == net && this.maxFrame == maxFrame && calls == 0 && !connected
    {
      this.net, this.maxFrame := net, maxFrame;
      fd, connected, calls := -1, false, 0;
      lastResult := Result(0, []);
    }

    method DoConnect() returns (ok: bool)
      requires Valid() && !connected
      modifies this`fd, this`connected, net`open, net`channels
      ensures Valid() && ok == connected
      ensures connected ==> fresh(Parts()) && net.channels[fd].link == Link([], 0, false)
    {
      fd := net.Socket();
      if fd < 0 {
        return false;
      }
      ok := net.Connect(fd);
      if !ok {
        net.Close(fd);
        fd := -1;
        return false;
      }
      connected := true;
    }

    method Connect() returns (ok: bool)
      requires Valid()
      modifies this`fd, this`connected, net`open, net`channels
      ensures Valid() && ok == connected && fresh(Parts() - old(Parts()))
      ensures old(connected) ==> connected && fd == old(fd) && net.channels == old(net.channels)
    {
      if connected {
        return true;
      }
      ok := DoConnect();
    }

    /** Also what every failed attempt does before anything else. */
    method CloseConnection()
      requires OneOpen()
      modifies this`fd, this`connected, net`open, net`channels
      ensures Valid() && !connected
    {
      if fd >= 0 {
        net.Close(fd);
        fd := -1;
      }
      connected := false;
    }

    method GetFd() returns (f: int)
      ensures f == if connected then fd else -1
    {
      f := if connected then fd else -1;
    }

    /** The last request of the connection in use reached the server's handler, and this is what became of it. */
    ghost predicate AtServer(request: Request, handled: Handled)
      reads this, net, Parts()
    {
      && connected && fd in net.channels
      && var link, handler := net.channels[fd].link, net.channels[fd].handler;
      && |link.received| > 0 && link.received[|link.received| - 1] == request
      && |link.received| <= |handler.calls| && |link.received| <= |handler.results|
      && handler.calls[|link.received| - 1] == Frame(request.methodId, request.params)
      && handler.results[|link.received| - 1] == handled
    }

    /** One attempt; the connection is settled again only if it succeeds. */
    method DoCall(f: int, request: Request) returns (ok: bool, ghost handled: Handled)
      requires Valid() && connected && f == fd
      modifies this`lastResult, net`attempts, net`served, Parts()
      ensures net.attempts == old(net.attempts) + [request]
      ensures net.served == old(net.served) + if ok then [Served(request, handled)] else []
      ensures ok ==>
        && Valid() && AtServer(request, handled)
        && (lastResult.status == 0 <==> handled.Returned?)
        && (handled.Returned? ==> lastResult.body == handled.payload)
        && (handled.Threw? ==> lastResult.status == 306 && lastResult.body == [])
    {
      hide StatusOf;
      net.attempts := net.attempts + [request];
      var response;
      ok, response, handled := net.channels[f].Attempt(request, maxFrame);
      if !ok {
        return;
      }
      lastResult := Result(StatusOf(response.word), response.payload);
      net.served := net.served + [Served(request, handled)];
    }

    /** One attempt, after which the connection is closed unless it succeeded. */
    method AttemptOrClose(request: Request) returns (ok: bool, ghost handled: Handled)
      requires Valid() && connected
      modifies this`fd, this`connected, this`lastResult, net, Parts()
      ensures Valid() && ok == connected && fresh(Parts() - old(Parts()))
      ensures net.attempts == old(net.attempts) + [request]
      ensures net.served == old(net.served) + if ok then [Served(request, handled)] else []
      ensures ok ==>
        && AtServer(request, handled)
        && (lastResult.status == 0 <==> handled.Returned?)
        && (handled.Returned? ==> lastResult.body == handled.payload)
        && (handled.Threw? ==> lastResult.status == 306 && lastResult.body == [])
    {
      hide AtServer, Channel.Valid, Settled;
      var f := GetFd();
      ok, handled := DoCall(f, request);
      if !ok {
        CloseConnection();
      }
    }

    /** The second attempt of a call, over a new connection. */
    method Retry(request: Request) returns (outcome: Outcome, ghost handled: Handled)
      requires Valid() && !connected
      modifies this`fd, this`connected, this`lastResult, net
      ensures Valid() && connected == outcome.Answered? && fresh(Parts())
      ensures outcome.Answered? ==>
        && AtServer(request, handled)
        && (outcome.result.status == 0 <==> handled.Returned?)
        && (handled.Returned? ==> outcome.result.body == handled.payload)
        && (handled.Threw? ==> outcome.result.status == 306 && outcome.result.body == [])
      ensures net.served == old(net.served) + if outcome.Answered? then [Served(request, handled)] else []
      ensures net.attempts == old(net.attempts) || net.attempts == old(net.attempts) + [request]
      ensures outcome.Answered? ==> net.attempts != old(net.attempts)
      ensures outcome.Transport? ==> outcome.code == if net.attempts == old(net.attempts) then -301 else -304
    {
      hide AtServer, Channel.Valid, Settled;
      handled := Threw;
      var ok := DoConnect();
      if !ok {
        return Transport(SOCKET_FAILED), handled;
      }
      ok, handled := AttemptOrClose(request);
      outcome := if ok then Outcome.Answered(lastResult) else Transport(TRANSPORT_FAILED);
    }

    /**
     What a call returns is what became at the server of a request of that same call; at most two are sent, and the
     error code says how far it got.
     */
    method Call(methodId: uint32, params: Payload) returns (outcome: Outcome, ghost handled: Handled)
      requires Valid()
      modifies this, net, Parts()
      ensures Valid() && calls == old(calls) + 1 && fresh(Parts() - old(Parts()))
      ensures outcome.Answered? ==>
        && connected && AtServer(Request(old(calls), methodId, params), handled)
        && (outcome.result.status == 0 <==> handled.Returned?)
        && (handled.Returned? ==> outcome.result.body == handled.payload)
        && (handled.Threw? ==> outcome.result.status == 306 && outcome.result.body == [])
      ensures var mine := Request(old(calls), methodId, params);
              && net.served == old(net.served) + (if outcome.Answered? then [Served(mine, handled)] else [])
              && (net.attempts == old(net.attempts) || net.attempts == old(net.attempts) + [mine]
                  || net.attempts == old(net.attempts) + [mine, mine])
      ensures outcome.Answered? || old(connected) ==> net.attempts != old(net.attempts)
      ensures outcome.Transport? ==>
        !connected && outcome.code == if |net.attempts| == |old(net.attempts)| + 2 then -304 else -301
    {
      hide AtServer, Channel.Valid, Settled;
      handled := Threw;
      var request := Request(calls, methodId, params);
      calls := calls + 1;
      var ok := Connect();
      if !ok {
        return Transport(SOCKET_FAILED), handled;
      }
      ok, handled := AttemptOrClose(request);
      if ok {
        return Outcome.Answered(lastResult), handled;
      }

      outcome, handled := Retry(request);
      assert old(net.attempts) + [request] + [request] == old(net.attempts) + [request, request];
    }

    /** The same with a single attempt and no replay. */
    method CallOnce(methodId: uint32, params: Payload) returns (outcome: Outcome, ghost handled: Handled)
      requires Valid()
      modifies this, net, Parts()
      ensures Valid() && calls == old(calls) + 1 && fresh(Parts() - old(Parts()))
      ensures outcome.Answered? ==>
        && connected && AtServer(Request(old(calls), methodId, params), handled)
        && (outcome.result.status == 0 <==> handled.Returned?)
        && (handled.Returned? ==> outcome.result.body == handled.payload)
        && (handled.Threw? ==> outcome.result.status == 306 && outcome.result.body == [])
      ensures var mine := Request(old(calls), methodId, params);
              && net.served == old(net.served) + (if outcome.Answered? then [Served(mine, handled)] else [])
              && (net.attempts == old(net.attempts) || net.attempts == old(net.attempts) + [mine])
      ensures outcome.Answered? || old(connected) ==> net.attempts != old(net.attempts)
      ensures outcome.Transport? ==>
        !connected && outcome.code == if |net.attempts| == |old(net.attempts)| + 1 then -304 else -301
    {
      hide AtServer, Channel.Valid, Settled;
      handled := Threw;
      var request := Request(calls, methodId, params);
      calls := calls + 1;
      var ok := Connect();
      if !ok {
        return Transport(SOCKET_FAILED), handled;
      }
      ok, handled := AttemptOrClose(request);
      outcome := if ok then Outcome.Answered(lastResult) else Transport(TRANSPORT_FAILED);
    }
  }

  datatype Operation =
    | DoCall(methodId: uint32, params: Payload)
    | DoCallOnce(methodId: uint32, params: Payload)
    | DoConnect
    | DoDisconnect

  method Perform(client: Client, op: Operation) returns (outcome: Outcome)
    requires client.Valid()
    modifies client, client.net, client.Parts()
    ensures client.Valid() && fresh(client.Parts() - old(client.Parts())) && old(client.net.served) <= client.net.served
    ensures outcome.Answered? ==>
      && (op.DoCall? || op.DoCallOnce?) && |client.net.served| == |old(client.net.served)| + 1
      && var Served(request, handled) := client.net.served[|old(client.net.served)|];
      && request.methodId == op.methodId && request.params == op.params
      && (outcome.result.status == 0 <==> handled.Returned?)
      && (handled.Returned? ==> outcome.result.body == handled.payload)
      && (handled.Threw? ==> outcome.result.status == 306 && outcome.result.body == [])
  {
    hide Client.Valid, Client.AtServer;
    outcome := Transport(0);
    ghost var handled;
    match op {
      case DoCall(methodId, params) => outcome, handled := client.Call(methodId, params);
      case DoCallOnce(methodId, params) => outcome, handled := client.CallOnce(methodId, params);
      case DoConnect => var _ := client.Connect();
      case DoDisconnect => client.CloseConnection();
    }
  }

  /**
   Any run of operations on one client against any behaviour of network and server.  What the server answered for
   the operations is in net.served, in order; places says where.
   */
  method RunOperations(client: Client, ops: seq<Operation>) returns (outcomes: seq<Outcome>, ghost places: seq<nat>)
    requires client.Valid()
    modifies client, client.net, client.Parts()
    ensures client.Valid() && |outcomes| == |places| == |ops| && old(client.net.served) <= client.net.served
    ensures forall i | 0 <= i < |ops| && outcomes[i].Answered? ::
      && (ops[i].DoCall? || ops[i].DoCallOnce?) && |old(client.net.served)| <= places[i] < |client.net.served|
      && var Served(request, handled) := client.net.served[places[i]];
      && request.methodId == ops[i].methodId && request.params == ops[i].params
      && (outcomes[i].result.status == 0 <==> handled.Returned?)
      && (handled.Returned? ==> outcomes[i].result.body == handled.payload)
      && (handled.Threw? ==> outcomes[i].result.status == 306 && outcomes[i].result.body == [])
    ensures forall i, j | 0 <= i < j < |ops| && outcomes[i].Answered? && outcomes[j].Answered? :: places[i] < places[j]
  {
    hide Client.Valid, Client.OneOpen;
    outcomes, places := [], [];
    for i := 0 to |ops|
      invariant client.Valid() && |outcomes| == |places| == i && old(client.net.served) <= client.net.served
      invariant fresh(client.Parts() - old(client.Parts()))
      invariant forall k | 0 <= k < i && outcomes[k].Answered? ::
        && (ops[k].DoCall? || ops[k].DoCallOnce?) && |old(client.net.served)| <= places[k] < |client.net.served|
        && var Served(request, handled) := client.net.served[places[k]];
        && request.methodId == ops[k].methodId && request.params == ops[k].params
        && (outcomes[k].result.status == 0 <==> handled.Returned?)
        && (handled.Returned? ==> outcomes[k].result.body == handled.payload)
        && (handled.Threw? ==> outcomes[k].result.status == 306 && outcomes[k].result.body == [])
      invariant forall k, j | 0 <= k < j < i && outcomes[k].Answered? && outcomes[j].Answered? :: places[k] < places[j]
    {
      ghost var place := |client.net.served|;
      var outcome := Perform(client, ops[i]);
      outcomes, places := outcomes + [outcome], places + [place];
    }
  }
}

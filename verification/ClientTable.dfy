/**
 The critical sections of src/ipc/ipc_server.cpp on the table object, each carrying out the step of DescriptorTable
 that it stands for, and the loops of a push.
 */
module ClientTable {
  import opened DescriptorTable
  import opened Framing
  import opened Shared

  class ClientState {
    var subscriptions: set<nat>

    constructor ()
      ensures subscriptions == {}
    {
      subscriptions := {};
    }
  }

  /** The numbers of the connections that hold a subscription. */
  function Subscribers(s: Server, event: nat): set<int> {
    set fd | fd in s.table && event in Subscriptions(s, fd)
  }

  class Table {
    var clients: map<int, ClientState>

    /** Each number has a ClientState of its own, and it agrees with the state of the step system. */
    ghost predicate Matches(s: Server)
      reads this, clients.Values
    {
      && clients.Keys == s.table.Keys
      && (forall a, b | a in clients && b in clients && clients[a] == clients[b] :: a == b)
      && (forall fd | fd in clients :: clients[fd].subscriptions == Subscriptions(s, fd))
    }

    constructor ()
      ensures forall handler :: Matches(Initial(handler))
    {
      clients := map[];
    }

    /** What acceptLoop does for a number it has got. */
    method InsertClient(fd: int, ghost s: Server)
      requires Inv(s) && Matches(s) && Enabled(s, Insert) && s.fds[s.accepting.conn] == fd
      modifies this
      ensures Matches(Apply(s, Insert)) && fd !in old(clients) && fd in clients && fresh(clients[fd])
    {
      ghost var t := Apply(s, Insert);
      InsertIsNew(s);
      hide DescriptorTable.Inv, Apply, Enabled, Subscriptions;
      var state := new ClientState();
      clients := clients[fd := state];
    }

    /** What a connection thread does when it has left its loop. */
    method EraseClient(fd: int, ghost s: Server, ghost c: Conn)
      requires Inv(s) && Matches(s) && Enabled(s, Erase(c)) && s.fds[c] == fd
      modifies this
      ensures Matches(Apply(s, Erase(c))) && fd in old(clients) && clients == old(clients) - {fd}
    {
      EraseIsOwn(s, c);
      hide DescriptorTable.Inv, Apply, Enabled, Subscriptions;
      clients := clients - {fd};
    }

    method AddSubscription(fd: int, event: nat, ghost s: Server) returns (ok: bool)
      requires Inv(s) && Matches(s)
      modifies if fd in clients then {clients[fd]} else {}
      ensures Matches(Apply(s, Subscribe(fd, event))) && (ok <==> fd in s.table)
    {
      SubscriptionStep(s, Subscribe(fd, event), fd);
      hide DescriptorTable.Inv, Apply, Subscriptions;
      if fd !in clients {
        return false;
      }
      clients[fd].subscriptions := clients[fd].subscriptions + {event};
      return true;
    }

    method RemoveSubscription(fd: int, event: nat, ghost s: Server) returns (ok: bool)
      requires Inv(s) && Matches(s)
      modifies if fd in clients then {clients[fd]} else {}
      ensures Matches(Apply(s, Unsubscribe(fd, event))) && (ok <==> fd in s.table)
    {
      SubscriptionStep(s, Unsubscribe(fd, event), fd);
      hide DescriptorTable.Inv, Apply, Subscriptions;
      if fd !in clients {
        return false;
      }
      clients[fd].subscriptions := clients[fd].subscriptions - {event};
      return true;
    }

    /** The first loop of pushEvent: the table is walked in no particular order. */
    method CollectTargets(event: nat, ghost s: Server) returns (targets: seq<int>)
      requires Matches(s)
      ensures forall fd :: fd in targets <==> fd in Subscribers(s, event)
      ensures forall fd | fd in targets :: fd in clients
      ensures forall i, j | 0 <= i < j < |targets| :: targets[i] != targets[j]
    {
      targets := [];
      var left: set<int> := clients.Keys;
      while left != {}
        invariant left <= clients.Keys
        invariant forall fd :: fd in targets <==> fd in Subscribers(s, event) && fd !in left
        invariant forall i, j | 0 <= i < j < |targets| :: targets[i] != targets[j]
        decreases |left|
      {
        HasMember(left);
        var fd :| fd in left;
        left := left - {fd};
        if event in clients[fd].subscriptions {
          targets := targets + [fd];
        }
      }
    }

    /**
     A push while the table is left alone: every subscriber is sent a prefix of the frame, nobody else anything, and
     the answer says whether some subscriber was sent all of it.
     */
    method PushEvent(event: uint32, payload: Stream, sockets: map<int, Socket>, ghost s: Server)
        returns (anySent: bool, ghost sent: map<int, nat>)
      requires Matches(s) && clients.Keys <= sockets.Keys && Separate(sockets)
      modifies sockets.Values
      ensures sent.Keys == Subscribers(s, event)
      ensures forall fd | fd in sockets :: Received(sockets, fd, old(sockets[fd].outbox), Frame(event, payload), sent)
      ensures anySent <==> exists fd :: fd in sent && sent[fd] == |Encode(Frame(event, payload))|
    {
      hide Encode, Subscribers, Matches, Separate;
      var targets := CollectTargets(event, s);
      anySent, sent := false, map[];
      var frame := Frame(event, payload);
      for i := 0 to |targets|
        invariant forall fd :: fd in sent <==> fd in targets[..i]
        invariant forall fd | fd in sockets :: Received(sockets, fd, old(sockets[fd].outbox), frame, sent)
        invariant anySent <==> exists fd :: fd in sent && sent[fd] == |Encode(frame)|
      {
        var fd := targets[i];
        assert fd in targets;
        var ok, n := SendTo(sockets, fd, frame);
        ghost var before := sent;
        sent := sent[fd := n];
        assert fd !in before && sent[fd] == n;
        assert forall other | other in before :: sent[other] == before[other];
        if ok {
          anySent := true;
        }
      }
      assert targets[..|targets|] == targets;
      assert forall fd :: fd in sent.Keys <==> fd in Subscribers(s, event);
    }

    /** A push to one connection goes out only if it is there and subscribed. */
    method PushEventTo(fd: int, event: uint32, payload: Stream, sockets: map<int, Socket>, ghost s: Server)
        returns (ok: bool, ghost sent: nat)
      requires Matches(s) && clients.Keys <= sockets.Keys && Separate(sockets)
      modifies if fd in sockets then {sockets[fd]} else {}
      ensures fd in Subscribers(s, event) ==>
        && fd in sockets && sent <= |Encode(Frame(event, payload))|
        && sockets[fd].outbox == old(sockets[fd].outbox) + Encode(Frame(event, payload))[..sent]
      ensures fd !in Subscribers(s, event) && fd in sockets ==> sockets[fd].outbox == old(sockets[fd].outbox)
      ensures ok <==> fd in Subscribers(s, event) && sent == |Encode(Frame(event, payload))|
    {
      hide Encode, Subscriptions;
      if fd !in clients || event !in clients[fd].subscriptions {
        return false, 0;
      }
      ok, sent := WriteFrame(sockets[fd], Frame(event, payload));
    }
  }

  method SendTo(sockets: map<int, Socket>, fd: int, frame: Frame) returns (ok: bool, ghost n: nat)
    requires fd in sockets && Separate(sockets)
    modifies sockets[fd]
    ensures n <= |Encode(frame)| && sockets[fd].outbox == old(sockets[fd].outbox) + Encode(frame)[..n]
    ensures forall other | other in sockets && other != fd :: sockets[other].outbox == old(sockets[other].outbox)
    ensures ok <==> n == |Encode(frame)|
  {
    hide Encode;
    ok, n := WriteFrame(sockets[fd], frame);
  }

  predicate Separate(sockets: map<int, Socket>) {
    forall a, b | a in sockets && b in sockets && sockets[a] == sockets[b] :: a == b
  }

  /** The outbox grew by the part of the frame that was sent to this number, or not at all. */
  ghost predicate Received(sockets: map<int, Socket>, fd: int, before: Stream, frame: Frame, sent: map<int, nat>)
    requires fd in sockets
    reads sockets[fd]
  {
    if fd in sent then sent[fd] <= |Encode(frame)| && sockets[fd].outbox == before + Encode(frame)[..sent[fd]]
    else sockets[fd].outbox == before
  }

  lemma InsertIsNew(s: Server)
    requires Inv(s) && Enabled(s, Insert)
    ensures var t, fd := Apply(s, Insert), s.fds[s.accepting.conn];
            && fd !in s.table && t.table.Keys == s.table.Keys + {fd} && Subscriptions(t, fd) == {}
            && forall other | other in s.table :: Subscriptions(t, other) == Subscriptions(s, other)
  {
    hide HistoryInv;
    var c := s.accepting.conn;
    assert InPhase(s, c, Accepted) && Live(s, c);
    assert forall fd | fd in s.table :: Listed(s, s.table[fd]) && Live(s, s.table[fd]) && s.table[fd] != c;
  }

  lemma EraseIsOwn(s: Server, c: Conn)
    requires Inv(s) && Enabled(s, Erase(c))
    ensures var t, fd := Apply(s, Erase(c)), s.fds[c];
            && fd in s.table && t.table.Keys == s.table.Keys - {fd}
            && forall other | other in t.table :: Subscriptions(t, other) == Subscriptions(s, other)
  {
    hide HistoryInv;
    assert Listed(s, c);
  }

  /** The step changes the subscriptions of the number it names and of no other. */
  lemma SubscriptionStep(s: Server, step: Step, fd: int)
    requires Inv(s) && (step.Subscribe? || step.Unsubscribe?) && step.fd == fd
    ensures Enabled(s, step)
    ensures var t := Apply(s, step);
            && t.table == s.table
            && forall other | other in s.table :: Subscriptions(t, other) ==
                 if other != fd then Subscriptions(s, other)
                 else if step.Subscribe? then Subscriptions(s, fd) + {step.event}
                 else Subscriptions(s, fd) - {step.event}
  {
    hide HistoryInv;
    assert forall n | n in s.table :: Listed(s, s.table[n]) && s.fds[s.table[n]] == n;
  }
}

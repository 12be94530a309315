/** The server program: one event loop that updates its tables in place. */
module ServerProgram {
  import opened Octets
  import opened Framing
  import opened Secretbox
  import opened ServerState
  import opened Cascades
  import opened ServerRuns
  import opened Delivery

  // An incoming connection: how much its link will take, and whether epoll accepts it.
  datatype Incoming = Incoming(budget: nat, polled: bool)

  // One entry of an epoll batch: the listening socket, or a client with what RecvPacket returns.
  datatype Ready = Listening(pending: seq<Incoming>) | Client(fd: int, packet: Option<Bytes>)

  // Why the event loop is left.
  datatype Halt = Idle | StaleEvent | Fault

  // What reaches the server from outside, whatever descriptors the kernel picks.
  datatype Stimulus = Arrival(incoming: Incoming) | Receipt(fd: int, packet: Option<Bytes>)

  function StimulusOf(ev: Event): Stimulus {
    match ev
    case Accepted(_, budget, polled) => Arrival(Incoming(budget, polled))
    case Readable(fd, packet) => Receipt(fd, packet)
  }

  function Stimuli(events: seq<Event>): seq<Stimulus> {
    seq(|events|, i requires 0 <= i < |events| => StimulusOf(events[i]))
  }

  function OfReady(ready: Ready): seq<Stimulus> {
    match ready
    case Listening(pending) => seq(|pending|, i requires 0 <= i < |pending| => Arrival(pending[i]))
    case Client(fd, packet) => [Receipt(fd, packet)]
  }

  function OfBatch(batch: seq<Ready>): seq<Stimulus> {
    if batch == [] then [] else OfBatch(batch[..|batch| - 1]) + OfReady(batch[|batch| - 1])
  }

  function OfBatches(batches: seq<seq<Ready>>): seq<Stimulus> {
    if batches == [] then [] else OfBatches(batches[..|batches| - 1]) + OfBatch(batches[|batches| - 1])
  }

  // An entry of a batch; for the listening socket, one of its pending connections.
  datatype Position = At(b: nat, i: nat, j: nat)

  predicate Before(p: Position, q: Position) {
    p.b < q.b || (p.b == q.b && (p.i < q.i || (p.i == q.i && p.j < q.j)))
  }

  // There is something to handle at this position.
  predicate Occupied(batches: seq<seq<Ready>>, p: Position) {
    && p.b < |batches| && p.i < |batches[p.b]|
    && (match batches[p.b][p.i]
        case Client(_, _) => p.j == 0
        case Listening(pending) => p.j < |pending|)
  }

  // The event is the handling of what is there.
  predicate Handles(batches: seq<seq<Ready>>, p: Position, ev: Event)
    requires Occupied(batches, p)
  {
    match batches[p.b][p.i]
    case Client(fd, packet) => ev == Readable(fd, packet)
    case Listening(pending) =>
      ev.Accepted? && ev.budget == pending[p.j].budget && ev.polled == pending[p.j].polled
  }

  // The events are the handling of everything in the batches: each entry once, in order.
  ghost predicate HandledInOrder(batches: seq<seq<Ready>>, events: seq<Event>) {
    exists origin: seq<Position> ::
      && |origin| == |events|
      && (forall e :: 0 <= e < |events| ==> Occupied(batches, origin[e]) && Handles(batches, origin[e], events[e]))
      && (forall e, f :: 0 <= e < f < |events| ==> Before(origin[e], origin[f]))
      && (forall p :: Occupied(batches, p) ==> p in origin)
  }

  class Server {
    const k: Context

    var clients: map<int, ClientInfo>
    var usernames: set<Bytes>
    var running: bool

    var links: map<int, Link>  // the kernel's side: the open accepted sockets

    ghost var log: seq<Entry>
    ghost var joins: map<int, nat>
    ghost var closed: seq<Closed>

    ghost function Abs(): State
      reads this
    {
      State(clients, usernames, links, log, joins, closed)
    }

    constructor (k: Context)
      ensures this.k == k && Abs() == INITIAL && running
    {
      this.k := k;
      clients, usernames, running, links := map[], {}, true, map[];
      log, joins, closed := [], map[], [];
    }

    // ---------------------------------------------------------- the kernel

    // accept: some descriptor that is not in use.
    method Accept(budget: nat) returns (fd: int)
      modifies this`links
      ensures fd >= 0 && fd !in old(links) && links == old(links)[fd := FreshLink(budget)]
    {
      fd := 0;
      var todo := links.Keys;
      while todo != {}
        invariant fd >= 0 && links == old(links)
        invariant forall used :: used in links && used !in todo ==> used < fd
        decreases todo
      {
        SomeElement(todo);
        var used :| used in todo;
        todo := todo - {used};
        fd := if used < fd then fd else used + 1;
      }
      links := links[fd := FreshLink(budget)];
    }

    // close: the descriptor must be open.
    method Close(fd: int)
      requires fd in links
      modifies this`links
      ensures links == old(links) - {fd}
    {
      links := links - {fd};
    }

    // ---------------------------------------------------------- sending

    method SendPacket(fd: int, data: Bytes) returns (ok: bool)
      requires fd in clients && clients[fd].session in links
      modifies this`links
      ensures var socket := clients[fd].session;
              && links == old(links)[socket := old(links)[socket].Send(data)]
              && ok == !links[socket].failed
    {
      var socket := clients[fd].session;
      links := links[socket := links[socket].Send(data)];
      ok := !links[socket].failed;
    }

    method SendSecretbox(fd: int, msg: Bytes) returns (ok: bool, ghost payload: Bytes)
      requires k.WellFormed() && fd in clients && clients[fd].session in links
      modifies this`links
      ensures var socket := clients[fd].session;
              && k.Open(payload) == Some(msg) && |payload| == NONCE_BYTES + MAC_BYTES + |msg|
              && links == old(links)[socket := old(links)[socket].Send(payload)]
              && ok == !links[socket].failed
    {
      var nonce: Nonce := *;
      var packet := SealPacket(k.crypto, k.groupKey, nonce, msg);
      SealedOpens(k.crypto, k.groupKey, nonce, msg);
      payload := packet;
      ok := SendPacket(fd, packet);
    }

    // ---------------------------------------------------------- broadcasting and leaving

    /**
     Sends the message to every registered client, in whatever order the table is iterated, and
     disconnects those for whom it fails, which broadcasts again.
     */
    method BroadcastEncrypted(msg: Bytes, ghost e: Entry) returns (ghost removed: seq<int>)
      requires k.WellFormed() && Structure(Abs())
      requires !e.Forward? && msg == Notice(e)
      modifies this`clients, this`usernames, this`links, this`log, this`closed
      ensures Cascade(k, old(Abs()), e, removed, Abs()) && Structure(Abs())
      decreases |clients.Keys|, 1
    {
      ghost var s := Abs();
      var removeList: seq<int> := SendToAll(msg, e);
      ghost var s1 := Abs();
      RoundKeepsStructure(k, s, e, s1);
      removed := [];
      if removeList == [] {
        QuietCascade(k, s, e, s1);
      }
      for i := 0 to |removeList|
        invariant Structure(Abs())
        invariant i == 0 ==> Abs() == s1
        invariant i > 0 || removeList == [] ==> Cascade(k, s, e, removed, Abs())
        invariant i > 0 ==> forall fd :: fd in removeList ==> fd !in clients
      {
        var fd := removeList[i];
        if fd !in clients {
          continue;
        }
        assert i == 0 && Registered(s, fd) && s1.links[fd].failed;
        ghost var rest := DisconnectClient(fd, false);
        NestedCascade(k, s, e, s1, fd, rest, Abs());
        removed := [fd] + rest;
      }
    }

    // The first loop of a broadcast. The result lists the clients for whom the send failed.
    method SendToAll(msg: Bytes, ghost e: Entry) returns (removeList: seq<int>)
      requires k.WellFormed() && Structure(Abs())
      requires !e.Forward? && msg == Notice(e)
      modifies this`links, this`log
      ensures Round(k, old(Abs()), e, Abs())
      ensures forall fd :: fd in removeList <==> Registered(Abs(), fd) && fd in links && links[fd].failed
    {
      ghost var s := Abs();
      removeList := [];
      log := log + [e];
      var todo := clients.Keys;
      while todo != {}
        invariant todo <= clients.Keys
        invariant Abs() == s.(log := s.log + [e], links := links) && links.Keys == s.links.Keys
        invariant forall fd :: fd in s.links ==>
                    if Registered(s, fd) && fd !in todo then Fed(k, s.links[fd], links[fd], [e])
                    else links[fd] == s.links[fd]
        invariant forall fd :: fd in removeList <==> Registered(s, fd) && fd in links && fd !in todo && links[fd].failed
        decreases todo
      {
        SomeElement(todo);
        var fd :| fd in todo;
        todo := todo - {fd};
        if !clients[fd].registered {
          continue;
        }
        assert s.clients[fd].session == fd;
        ghost var before := links[fd];
        var ok, payload := SendSecretbox(fd, msg);
        OnePacket(k, before, payload, e);
        if !ok {
          removeList := removeList + [fd];
        }
      }
    }

    // Takes a client out of the tables, closes its socket and, if it was registered, tells
    // everybody else. A client that is not there is left alone.
    method DisconnectClient(fd: int, ghost refused: bool) returns (ghost removed: seq<int>)
      requires k.WellFormed() && Structure(Abs())
      modifies this`clients, this`usernames, this`links, this`log, this`closed
      ensures Structure(Abs())
      ensures fd !in old(clients) ==> removed == [] && Abs() == old(Abs())
      ensures fd in old(clients) ==> Leave(k, old(Abs()), fd, refused, removed, Abs())
      decreases |clients.Keys|, 0
    {
      removed := [];
      if fd !in clients {
        return;
      }
      ghost var s := Abs();
      DropKeepsStructure(s, fd, refused);
      var client := clients[fd];
      closed := closed + [Closed(client, links[fd], JoinOf(s, fd), |log|, refused)];
      if client.session >= 0 {
        Close(client.session);
      }
      if client.registered {
        usernames := usernames - {client.username};
      }
      clients := clients - {fd};
      assert Abs() == Drop(s, fd, refused);
      assert clients.Keys == s.clients.Keys - {fd};
      if client.registered {
        removed := BroadcastEncrypted(client.username + HAS_DISCONNECTED, Disconnected(client.username));
      }
    }

    // ---------------------------------------------------------- events

    // All pending connections; the last accept finds none.
    method HandleNewConnection(pending: seq<Incoming>)
      returns (ghost states: seq<State>, ghost events: seq<Event>)
      requires Structure(Abs())
      modifies this`clients, this`links
      ensures Structure(Abs())
      ensures Run(k, states, events) && states[0] == old(Abs()) && states[|events|] == Abs()
      ensures Stimuli(events) == if running then OfReady(Listening(pending)) else []
      ensures |events| == if running then |pending| else 0
      ensures forall j :: 0 <= j < |events| ==>
                events[j].Accepted? && events[j].budget == pending[j].budget && events[j].polled == pending[j].polled
    {
      hide Structure;
      states, events := [Abs()], [];
      var i := 0;
      while running && i < |pending|
        invariant i <= |pending| && (!running ==> i == 0)
        invariant Stimuli(events) == OfReady(Listening(pending))[..i]
        invariant Structure(Abs())
        invariant Run(k, states, events) && states[0] == old(Abs()) && states[|events|] == Abs()
      {
        ghost var s := Abs();
        var fd := Accept(pending[i].budget);
        if pending[i].polled {
          clients := clients[fd := NewClient(fd)];
        } else {
          Close(fd);
        }
        AcceptKeepsStructure(s, fd, pending[i].budget, pending[i].polled, Abs());
        ghost var ev := Accepted(fd, pending[i].budget, pending[i].polled);
        Extend(k, states, events, ev, Abs());
        states, events := states + [Abs()], events + [ev];
        i := i + 1;
        assert Stimuli(events) == OfReady(Listening(pending))[..i - 1] + [Arrival(pending[i - 1])];
      }
      PendingHandled(pending, events, running);
    }

    /**
     A client's socket is readable and RecvPacket has returned this. The result tells whether the
     server survives it.
     */
    method HandleClientEvent(fd: int, packet: Option<Bytes>) returns (ok: bool)
      requires k.WellFormed() && Structure(Abs())
      modifies this`clients, this`usernames, this`links, this`log, this`joins, this`closed
      ensures ok <==> !Faults(old(Abs()), Readable(fd, packet))
      ensures fd !in old(clients) || !ok ==> Abs() == old(Abs())
      ensures fd in old(clients) && ok ==> Step(k, old(Abs()), Readable(fd, packet), Abs())
      ensures Structure(Abs())
    {
      ghost var s := Abs();
      if fd !in clients {
        return true;
      }
      var client := clients[fd];
      if !client.keyExchanged {
        if packet.None? || |packet.value| != PUBLIC_KEY_BYTES {
          return true;
        }
        ExchangeKeys(fd, packet.value);
        return true;
      }
      if packet.None? {
        ghost var removed := DisconnectClient(fd, false);
        assert Leave(k, s, fd, false, removed, Abs());
        return true;
      }
      var p := packet.value;
      if !client.registered {
        ok := Register(fd, p);
        return;
      }
      ForwardToAll(p);
      return true;
    }

    method ExchangeKeys(fd: int, clientPk: Bytes)
      requires k.WellFormed() && Structure(Abs()) && fd in clients && !clients[fd].keyExchanged
      modifies this`clients, this`usernames, this`links, this`log, this`closed
      ensures HandshakeStep(k, old(Abs()), fd, clientPk, Abs())
      ensures Structure(Abs())
    {
      ghost var s := Abs();
      assert !Registered(s, fd);
      clients := clients[fd := clients[fd].(clientPk := clientPk)];
      var _ := SendPacket(fd, k.pk);
      SendWire(s.links[fd], k.pk);
      ChangeKeepsStructure(s, fd, Abs());
      var nonce: Nonce := *;
      match k.crypto.shared(clientPk, k.sk)
      case None =>
        ghost var removed := DisconnectClient(fd, false);
      case Some(boxKey) =>
        SendWire(links[fd], KeyPacket(k, boxKey, nonce));
        var _ := SendPacket(fd, KeyPacket(k, boxKey, nonce));
        clients := clients[fd := clients[fd].(keyExchanged := true)];
        ChangeKeepsStructure(s, fd, Abs());
        GreetedState(k, s, fd, clientPk, boxKey, nonce, Abs());
    }

    // The username packet. The plaintext buffer is allocated before the packet is opened.
    method Register(fd: int, p: Bytes) returns (ok: bool)
      requires k.WellFormed() && Structure(Abs())
      requires fd in clients && clients[fd].keyExchanged && !clients[fd].registered
      modifies this`clients, this`usernames, this`links, this`log, this`joins, this`closed
      ensures ok <==> |p| < NONCE_BYTES || PlaintextSize(|p|) <= MAX_ALLOCATION
      ensures if ok then UsernameStep(k, old(Abs()), fd, p, Abs()) else Abs() == old(Abs())
      ensures Structure(Abs())
    {
      hide Cascade, Ideal, Names;
      assert fd >= 0 && fd in links && links[fd].Valid() && clients[fd].fd == fd && clients[fd].session == fd;
      hide Structure;
      ghost var s := Abs();
      ghost var removed;
      if |p| < NONCE_BYTES {
        removed := DisconnectClient(fd, false);
        assert Leave(k, s, fd, false, removed, Abs());
        return true;
      }
      var ctLen: nat := |p| - NONCE_BYTES;
      var ptLen: nat := (ctLen - MAC_BYTES) % SIZE_WRAP;
      if ptLen > MAX_ALLOCATION {
        return false;
      }
      var pt := k.crypto.open(k.groupKey, p[..NONCE_BYTES], p[NONCE_BYTES..]);
      if pt.None? {
        removed := DisconnectClient(fd, false);
        assert Leave(k, s, fd, false, removed, Abs());
        return true;
      }
      var uname := pt.value;
      if uname in usernames {
        var _, payload := SendSecretbox(fd, USERNAME_TAKEN);
        SendWire(s.links[fd], payload);
        assert s.clients[fd := s.clients[fd]] == s.clients;
        ChangeKeepsStructure(s, fd, Abs());
        removed := DisconnectClient(fd, true);
        return true;
      }
      AdmitStructure(s, fd, uname);
      usernames := usernames + {uname};
      clients := clients[fd := clients[fd].(username := uname, registered := true)];
      joins := joins[fd := |log|];
      assert Abs() == Admit(s, fd, uname);
      removed := BroadcastEncrypted(uname + HAS_CONNECTED, Connected(uname));
      return true;
    }

    // The packet goes out unchanged to every registered client; failures are not looked at.
    method ForwardToAll(p: Bytes)
      requires k.WellFormed() && Structure(Abs())
      modifies this`links, this`log
      ensures Round(k, old(Abs()), Forward(p), Abs()) && Structure(Abs())
    {
      ghost var s := Abs();
      ghost var e := Forward(p);
      log := log + [e];
      var todo := clients.Keys;
      while todo != {}
        invariant todo <= clients.Keys
        invariant Abs() == s.(log := s.log + [e], links := links) && links.Keys == s.links.Keys
        invariant forall fd :: fd in s.links ==>
                    if Registered(s, fd) && fd !in todo then Fed(k, s.links[fd], links[fd], [e])
                    else links[fd] == s.links[fd]
        decreases todo
      {
        SomeElement(todo);
        var fd :| fd in todo;
        todo := todo - {fd};
        if !clients[fd].registered {
          continue;
        }
        assert s.clients[fd].session == fd;
        OnePacket(k, links[fd], p, e);
        var _ := SendPacket(fd, p);
      }
      RoundKeepsStructure(k, s, e, Abs());
    }

    // ---------------------------------------------------------- the event loop

    /**
     Handles the batches one by one, every entry in its turn. The loop is left altogether at an
     event for a descriptor that an earlier event of the batch has disconnected. Whatever it did
     was a run.
     */
    method EventLoop(batches: seq<seq<Ready>>)
      returns (halt: Halt, ghost states: seq<State>, ghost events: seq<Event>)
      requires k.WellFormed() && Inv(k, Abs())
      modifies this`clients, this`usernames, this`links, this`log, this`joins, this`closed
      ensures Run(k, states, events) && states[0] == old(Abs()) && states[|events|] == Abs()
      ensures Inv(k, Abs())
      ensures halt == Idle ==> Stimuli(events) == if running then OfBatches(batches) else []
      ensures halt == Idle ==> if running then HandledInOrder(batches, events) else events == []
      ensures halt != Idle ==> exists b, i :: LeftAt(batches, b, i, halt, events)
    {
      hide HandledInOrder, OfBatches, OfBatch, Faults;
      states, events := [Abs()], [];
      var b := 0;
      assert Stimuli(events) == OfBatches(batches[..0]) by { NothingYet(batches); }
      while running && b < |batches|
        invariant 0 <= b <= |batches| && (!running ==> b == 0) && Structure(Abs())
        invariant Run(k, states, events) && states[0] == old(Abs()) && states[|events|] == Abs()
        invariant Stimuli(events) == OfBatches(batches[..b])
        decreases |batches| - b
      {
        NothingYet(batches);
        for i := 0 to |batches[b]|
          invariant Structure(Abs())
          invariant Run(k, states, events) && states[0] == old(Abs()) && states[|events|] == Abs()
          invariant Stimuli(events) == OfBatches(batches[..b]) + OfBatch(batches[b][..i])
        {
          var ready := batches[b][i];
          ghost var before := events;
          if ready.Listening? {
            var states', events' := HandleNewConnection(ready.pending);
            Append(k, states, events, states', events');
            states, events := states + states'[1..], events + events';
            NextReady(batches, b, i, before, events);
            continue;
          }
          if ready.fd !in clients {
            RunsKeepInv(k, states, events, |events|);
            PartHandled(batches, b, i, events);
            assert LeftAt(batches, b, i, StaleEvent, events);
            return StaleEvent, states, events;
          }
          ghost var ev := Readable(ready.fd, ready.packet);
          var ok := HandleClientEvent(ready.fd, ready.packet);
          if !ok {
            RunsKeepInv(k, states, events, |events|);
            PartHandled(batches, b, i, events);
            assert LeftAt(batches, b, i, Fault, events);
            return Fault, states, events;
          }
          Extend(k, states, events, ev, Abs());
          states, events := states + [Abs()], events + [ev];
          NextReady(batches, b, i, before, events);
        }
        NextBatch(batches, b);
        b := b + 1;
      }
      assert batches[..|batches|] == batches;
      RunsKeepInv(k, states, events, |events|);
      if running {
        AllHandled(batches, events);
      }
      halt := Idle;
    }

    // Everything before this entry has been handled, and the entry is why the loop was left.
    ghost predicate LeftAt(batches: seq<seq<Ready>>, b: int, i: int, halt: Halt, events: seq<Event>)
      reads this
    {
      && 0 <= b < |batches| && 0 <= i < |batches[b]| && batches[b][i].Client?
      && Stimuli(events) == OfBatches(batches[..b]) + OfBatch(batches[b][..i])
      && HandledInOrder(batches[..b] + [batches[b][..i]], events)
      && (halt == StaleEvent ==> batches[b][i].fd !in clients)
      && (halt == Fault ==> Faults(Abs(), Readable(batches[b][i].fd, batches[b][i].packet)))
    }

    // Stopping empties both tables, and nothing else: the accepted sockets stay open.
    method Stop()
      modifies this`running, this`clients, this`usernames
      ensures !running
      ensures old(running && Structure(Abs())) ==> (links.Keys == clients.Keys <==> old(clients) == map[])
      ensures Abs() == if old(running) then old(Abs()).(clients := map[], usernames := {}) else old(Abs())
    {
      if !running {
        return;
      }
      if Structure(Abs()) {
        SocketsOutliveStop(Abs());
      }
      running := false;
      clients, usernames := map[], {};
    }
  }

  // ------------------------------------------------------------ lemmas for the methods

  lemma AcceptKeepsStructure(s: State, fd: int, budget: nat, polled: bool, t: State)
    requires Structure(s) && AcceptStep(s, fd, budget, polled, t)
    ensures Structure(t)
  {
    if polled {
      ChangeKeepsStructure(s, fd, t);
    }
  }

  lemma NothingYet(batches: seq<seq<Ready>>)
    ensures OfBatches(batches[..0]) == [] && forall batch: seq<Ready> :: OfBatch(batch[..0]) == []
  {
  }

  lemma NextReady(batches: seq<seq<Ready>>, b: nat, i: nat, before: seq<Event>, events: seq<Event>)
    requires b < |batches| && i < |batches[b]| && before <= events
    requires Stimuli(before) == OfBatches(batches[..b]) + OfBatch(batches[b][..i])
    requires Stimuli(events[|before|..]) == OfReady(batches[b][i])
    ensures Stimuli(events) == OfBatches(batches[..b]) + OfBatch(batches[b][..i + 1])
  {
    assert batches[b][..i + 1][..i] == batches[b][..i];
    assert Stimuli(events) == Stimuli(before) + Stimuli(events[|before|..]);
  }

  // ------------------------------------------------------------ what was handled

  function PositionsIn(ready: Ready, b: nat, i: nat): seq<Position> {
    match ready
    case Listening(pending) => seq(|pending|, j requires 0 <= j < |pending| => At(b, i, j))
    case Client(_, _) => [At(b, i, 0)]
  }

  function PositionsOf(batch: seq<Ready>, b: nat): seq<Position> {
    if batch == [] then []
    else PositionsOf(batch[..|batch| - 1], b) + PositionsIn(batch[|batch| - 1], b, |batch| - 1)
  }

  function Positions(batches: seq<seq<Ready>>): seq<Position> {
    if batches == [] then []
    else Positions(batches[..|batches| - 1]) + PositionsOf(batches[|batches| - 1], |batches| - 1)
  }

  // These positions, in order, are where these stimuli come from.
  predicate Located(batches: seq<seq<Ready>>, origin: seq<Position>, stimuli: seq<Stimulus>) {
    && |origin| == |stimuli|
    && (forall e :: 0 <= e < |origin| ==>
          && Occupied(batches, origin[e])
          && stimuli[e] == match batches[origin[e].b][origin[e].i]
                           case Client(fd, packet) => Receipt(fd, packet)
                           case Listening(pending) => Arrival(pending[origin[e].j]))
    && (forall e, f :: 0 <= e < f < |origin| ==> Before(origin[e], origin[f]))
  }

  lemma {:induction false} BatchLocated(batches: seq<seq<Ready>>, b: nat, i: nat)
    requires b < |batches| && i <= |batches[b]|
    ensures var origin := PositionsOf(batches[b][..i], b);
            && Located(batches, origin, OfBatch(batches[b][..i]))
            && (forall p :: p in origin ==> p.b == b && p.i < i)
            && (forall p :: Occupied(batches, p) && p.b == b && p.i < i ==> p in origin)
    decreases i
  {
    if i > 0 {
      BatchLocated(batches, b, i - 1);
      ReadyLocated(batches, b, i - 1);
      assert batches[b][..i][..i - 1] == batches[b][..i - 1];
      var before, here := PositionsOf(batches[b][..i - 1], b), PositionsIn(batches[b][i - 1], b, i - 1);
      assert PositionsOf(batches[b][..i], b) == before + here;
      hide Located, Occupied, PositionsIn, OfReady;
      LocatedConcat(batches, before, OfBatch(batches[b][..i - 1]), here, OfReady(batches[b][i - 1]));
    }
  }

  lemma ReadyLocated(batches: seq<seq<Ready>>, b: nat, i: nat)
    requires b < |batches| && i < |batches[b]|
    ensures var origin := PositionsIn(batches[b][i], b, i);
            && Located(batches, origin, OfReady(batches[b][i]))
            && (forall p :: p in origin ==> p.b == b && p.i == i)
            && (forall p :: Occupied(batches, p) && p.b == b && p.i == i ==> p in origin)
  {
    var origin := PositionsIn(batches[b][i], b, i);
    forall p | Occupied(batches, p) && p.b == b && p.i == i ensures p in origin {
      assert origin[p.j] == p;
    }
  }

  lemma LocatedConcat(batches: seq<seq<Ready>>, origin1: seq<Position>, stimuli1: seq<Stimulus>,
                      origin2: seq<Position>, stimuli2: seq<Stimulus>)
    requires Located(batches, origin1, stimuli1) && Located(batches, origin2, stimuli2)
    requires forall p, q :: p in origin1 && q in origin2 ==> Before(p, q)
    ensures Located(batches, origin1 + origin2, stimuli1 + stimuli2)
  {
  }

  lemma {:induction false} BatchesLocated(batches: seq<seq<Ready>>, n: nat)
    requires n <= |batches|
    ensures var origin := Positions(batches[..n]);
            && Located(batches, origin, OfBatches(batches[..n]))
            && (forall p :: p in origin ==> p.b < n)
            && (forall p :: Occupied(batches, p) && p.b < n ==> p in origin)
    decreases n
  {
    if n > 0 {
      BatchesLocated(batches, n - 1);
      BatchLocated(batches, n - 1, |batches[n - 1]|);
      assert batches[..n][..n - 1] == batches[..n - 1];
      assert batches[n - 1][..|batches[n - 1]|] == batches[n - 1];
      LocatedConcat(batches, Positions(batches[..n - 1]), OfBatches(batches[..n - 1]),
                    PositionsOf(batches[n - 1], n - 1), OfBatch(batches[n - 1]));
    }
  }

  lemma AllHandled(batches: seq<seq<Ready>>, events: seq<Event>)
    requires Stimuli(events) == OfBatches(batches)
    ensures HandledInOrder(batches, events)
  {
    BatchesLocated(batches, |batches|);
    assert batches[..|batches|] == batches;
    var origin := Positions(batches);
    forall e | 0 <= e < |events| ensures Handles(batches, origin[e], events[e]) {
      assert Stimuli(events)[e] == StimulusOf(events[e]);
    }
  }

  lemma PartHandled(batches: seq<seq<Ready>>, b: nat, i: nat, events: seq<Event>)
    requires b < |batches| && i <= |batches[b]|
    requires Stimuli(events) == OfBatches(batches[..b]) + OfBatch(batches[b][..i])
    ensures HandledInOrder(batches[..b] + [batches[b][..i]], events)
  {
    var part := batches[..b] + [batches[b][..i]];
    assert part[..b] == batches[..b];
    AllHandled(part, events);
  }

  lemma PendingHandled(pending: seq<Incoming>, events: seq<Event>, running: bool)
    requires Stimuli(events) == if running then OfReady(Listening(pending)) else []
    ensures |events| == if running then |pending| else 0
    ensures forall j :: 0 <= j < |events| ==>
              events[j].Accepted? && events[j].budget == pending[j].budget && events[j].polled == pending[j].polled
  {
    forall j | 0 <= j < |events|
      ensures events[j].Accepted? && events[j].budget == pending[j].budget && events[j].polled == pending[j].polled
    {
      assert Stimuli(events)[j] == StimulusOf(events[j]);
    }
  }

  lemma NextBatch(batches: seq<seq<Ready>>, b: nat)
    requires b < |batches|
    ensures OfBatches(batches[..b + 1]) == OfBatches(batches[..b]) + OfBatch(batches[b][..|batches[b]|])
  {
    assert batches[..b + 1][..b] == batches[..b];
    assert batches[b][..|batches[b]|] == batches[b];
  }

  lemma Extend(k: Context, states: seq<State>, events: seq<Event>, ev: Event, t: State)
    requires Run(k, states, events) && Step(k, states[|events|], ev, t)
    ensures Run(k, states + [t], events + [ev])
  {
  }

  lemma Append(k: Context, states: seq<State>, events: seq<Event>, states': seq<State>, events': seq<Event>)
    requires Run(k, states, events) && Run(k, states', events') && states[|events|] == states'[0]
    ensures Run(k, states + states'[1..], events + events')
    ensures (states + states'[1..])[0] == states[0]
    ensures (states + states'[1..])[|events + events'|] == states'[|events'|]
  {
    var all, evs := states + states'[1..], events + events';
    forall i | 0 <= i < |evs| ensures Step(k, all[i], evs[i], all[i + 1]) {
      if i >= |events| {
        assert all[i] == states'[i - |events|];
        assert Step(k, states'[i - |events|], events'[i - |events|], states'[i - |events| + 1]);
      }
    }
  }
}

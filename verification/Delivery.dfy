/** What clients can rely on, in every state the server can reach. */
module Delivery {
  import opened Octets
  import opened Framing
  import opened Secretbox
  import opened ServerState
  import opened Cascades
  import opened ServerRuns

  // ------------------------------------------------------------ total order

  // The plaintext that a delivered entry opens to.
  function Meaning(k: Context, e: Entry): Option<Bytes> {
    if e.Forward? then k.Open(e.raw) else Some(Notice(e))
  }

  // A connection that has been registered, still open or over, and where it joined.
  ghost predicate Member(s: State, info: ClientInfo, l: Link, join: nat) {
    || (exists fd :: Registered(s, fd) && fd in s.links && s.clients[fd] == info && s.links[fd] == l && JoinOf(s, fd) == join)
    || (exists i :: 0 <= i < |s.closed| && s.closed[i].info == info && s.closed[i].info.registered
                    && s.closed[i].link == l && s.closed[i].join == join)
  }

  // What anybody was ever sent after registering is one contiguous slice of the log, starting
  // with its own arrival, every packet meaning what the log says.
  lemma DeliveredIsSlice(k: Context, s: State, info: ClientInfo, l: Link, join: nat)
    requires Inv(k, s) && Member(s, info, l, join)
    ensures var d := Delivered(l);
            && join + |d| <= |s.log|
            && s.log[join] == Connected(info.username)
            && forall i :: 0 <= i < |d| ==> k.Open(d[i]) == Meaning(k, s.log[join + i])
  {
    var d := Delivered(l);
    if fd :| Registered(s, fd) && fd in s.links && s.clients[fd] == info && s.links[fd] == l && JoinOf(s, fd) == join {
      assert OpenInv(k, info, l, s.log, join) && Joined(info, s.log, join);
      SliceMeaning(k, l, s.log, join);
    } else {
      var i :| 0 <= i < |s.closed| && s.closed[i].info == info && s.closed[i].info.registered
               && s.closed[i].link == l && s.closed[i].join == join;
      var c := s.closed[i];
      assert ClosedInv(k, c, s.log);
      SliceMeaning(k, l, s.log[..c.left], join);
      assert s.log[..c.left][join] == s.log[join];
      forall n | 0 <= n < |d| ensures k.Open(d[n]) == Meaning(k, s.log[join + n]) {
        assert s.log[..c.left][join + n] == s.log[join + n];
      }
    }
  }

  lemma SliceMeaning(k: Context, l: Link, log: seq<Entry>, join: nat)
    requires InSync(k, l, log, join)
    ensures var d := Delivered(l);
            join + |d| <= |log| && forall i :: 0 <= i < |d| ==> k.Open(d[i]) == Meaning(k, log[join + i])
  {
    var d := Delivered(l);
    forall i | 0 <= i < |d| ensures k.Open(d[i]) == Meaning(k, log[join + i]) {
      assert log[join..join + |d|][i] == log[join + i];
      assert Carries(k, d[i], log[join..join + |d|][i]);
    }
  }

  /**
   Total order: in every state of every run, whatever two clients have both been sent, they have
   been sent in the same order and without gaps - also across nested disconnections, and also
   when one of them or both are gone by now.
   */
  lemma TotalOrder(
    k: Context, states: seq<State>, events: seq<Event>, n: nat,
    info1: ClientInfo, l1: Link, join1: nat, info2: ClientInfo, l2: Link, join2: nat)
    requires Run(k, states, events) && states[0] == INITIAL && n <= |events|
    requires Member(states[n], info1, l1, join1) && Member(states[n], info2, l2, join2)
    ensures var d1, d2 := Delivered(l1), Delivered(l2);
            forall i, j :: 0 <= i < |d1| && 0 <= j < |d2| && join1 + i == join2 + j ==>
              k.Open(d1[i]) == k.Open(d2[j])
  {
    InitialInv(k);
    RunsKeepInv(k, states, events, n);
    hide Inv, Member, Run, Meaning;
    DeliveredIsSlice(k, states[n], info1, l1, join1);
    DeliveredIsSlice(k, states[n], info2, l2, join2);
  }

  // A registered client on whose link no send has failed has been sent the whole rest of the log.
  lemma NothingIsMissed(k: Context, s: State, fd: int)
    requires Inv(k, s) && Registered(s, fd) && !s.links[fd].failed
    ensures JoinOf(s, fd) + |Delivered(s.links[fd])| == |s.log|
    ensures CarryAll(k, Delivered(s.links[fd]), s.log[JoinOf(s, fd)..])
  {
    assert OpenInv(k, s.clients[fd], s.links[fd], s.log, JoinOf(s, fd));
    assert s.log[JoinOf(s, fd)..|s.log|] == s.log[JoinOf(s, fd)..];
  }

  // ------------------------------------------------------------ the handshake comes first

  // A connection of this state, open or over.
  ghost predicate OnRecord(s: State, info: ClientInfo, l: Link, join: nat, refused: bool) {
    || (exists fd :: fd in s.clients && fd in s.links && s.clients[fd] == info && s.links[fd] == l
                     && JoinOf(s, fd) == join && !refused)
    || (exists i :: 0 <= i < |s.closed| && s.closed[i].info == info && s.closed[i].link == l
                    && s.closed[i].join == join && s.closed[i].refused == refused)
  }

  /**
   The bytes on the wire of a connection: the two handshake packets or a part of them, once and
   first; then, for a client that got into the chat, its slice of the log, for a refused one the
   control message, otherwise nothing; and at the end, only if a send failed, a proper part of
   one more frame: that of the very next packet it was to be sent.
   */
  ghost predicate Shape(k: Context, info: ClientInfo, l: Link, log: seq<Entry>, join: nat, refused: bool) {
    var next := join + |Delivered(l)|;
    && Handshake(k, info.clientPk, l)
    && l.Wire() == FrameAll(l.sent[..Min(2, |l.sent|)]) + FrameAll(Delivered(l)) + l.tail
    && (!l.failed ==> l.tail == [])
    && (info.registered ==>
          && next <= |log| && CarryAll(k, Delivered(l), log[join..next])
          && (l.failed && |l.sent| >= 2 ==> next < |log| && CutAt(k, l.tail, log[next])))
    && (refused ==> RefusedLink(k, l) && !info.registered)
    && (!info.registered && !refused ==> Delivered(l) == [] && (|l.sent| == 2 ==> l.tail == []))
    && exists p :: l.tail < Frame(p)
  }

  lemma WireParts(l: Link)
    ensures l.Wire() == FrameAll(l.sent[..Min(2, |l.sent|)]) + FrameAll(Delivered(l)) + l.tail
  {
    FrameAllSplit(l.sent, Min(2, |l.sent|));
    assert l.sent[Min(2, |l.sent|)..] == Delivered(l);
  }

  lemma OpenShape(k: Context, info: ClientInfo, l: Link, log: seq<Entry>, join: nat)
    requires OpenInv(k, info, l, log, join) && l.Valid()
    ensures Shape(k, info, l, log, join, false)
  {
    WireParts(l);
    assert l.tail == [] ==> l.tail < Frame([]);
  }

  lemma ClosedSlice(k: Context, l: Link, log: seq<Entry>, left: nat, join: nat)
    requires left <= |log| && InSync(k, l, log[..left], join)
    ensures var next := join + |Delivered(l)|;
            && next <= |log| && CarryAll(k, Delivered(l), log[join..next])
            && (l.failed && |l.sent| >= 2 ==> next < |log| && CutAt(k, l.tail, log[next]))
  {
    var next := join + |Delivered(l)|;
    assert log[..left][join..next] == log[join..next];
    assert next < left ==> log[..left][next] == log[next];
  }

  lemma ClosedShape(k: Context, c: Closed, log: seq<Entry>)
    requires ClosedInv(k, c, log)
    ensures Shape(k, c.info, c.link, log, c.join, c.refused)
  {
    hide Carries, CutAt, CarryAll, InSync;
    WireParts(c.link);
    assert c.link.tail == [] ==> c.link.tail < Frame([]);
    PartOfFrame(k, c, log);
    if c.info.registered {
      ClosedSlice(k, c.link, log, c.left, c.join);
    }
  }

  lemma PartOfFrame(k: Context, c: Closed, log: seq<Entry>)
    requires ClosedInv(k, c, log)
    ensures exists p :: c.link.tail < Frame(p)
  {
    assert c.link.tail == [] ==> c.link.tail < Frame([]);
  }

  // Every connection, open or over, has this shape.
  lemma StreamShape(k: Context, s: State, info: ClientInfo, l: Link, join: nat, refused: bool)
    requires Inv(k, s) && OnRecord(s, info, l, join, refused)
    ensures Shape(k, info, l, s.log, join, refused)
  {
    hide Shape, OpenInv, ClosedInv;
    if fd :| fd in s.clients && fd in s.links && s.clients[fd] == info && s.links[fd] == l
             && JoinOf(s, fd) == join && !refused {
      assert OpenInv(k, info, l, s.log, join);
      OpenShape(k, info, l, s.log, join);
    } else {
      var i :| 0 <= i < |s.closed| && s.closed[i].info == info && s.closed[i].link == l
               && s.closed[i].join == join && s.closed[i].refused == refused;
      assert ClosedInv(k, s.closed[i], s.log);
      ClosedShape(k, s.closed[i], s.log);
    }
  }

  // ------------------------------------------------------------ join/leave accounting

  // The arrivals and departures of one name, in order.
  function History(log: seq<Entry>, name: Bytes): seq<bool> {
    if log == [] then []
    else
      var before := History(log[..|log| - 1], name);
      var e := log[|log| - 1];
      if e.Forward? || e.name != name then before else before + [e.Connected?]
  }

  function Arrivals(log: seq<Entry>): nat {
    if log == [] then 0 else Arrivals(log[..|log| - 1]) + if log[|log| - 1].Connected? then 1 else 0
  }

  function Departures(log: seq<Entry>): nat {
    if log == [] then 0 else Departures(log[..|log| - 1]) + if log[|log| - 1].Disconnected? then 1 else 0
  }

  lemma {:induction false} HistoryAlternates(log: seq<Entry>, name: Bytes)
    requires Alternates(log)
    ensures var h := History(log, name);
            && (forall i :: 0 <= i < |h| ==> (h[i] <==> i % 2 == 0))
            && (name in Present(log) <==> |h| % 2 == 1)
  {
    if log != [] {
      HistoryAlternates(log[..|log| - 1], name);
    }
  }

  lemma {:induction false} ArrivalsMinusDepartures(log: seq<Entry>)
    requires Alternates(log)
    ensures Arrivals(log) == Departures(log) + |Present(log)|
  {
    if log != [] {
      ArrivalsMinusDepartures(log[..|log| - 1]);
    }
  }

  // Every name's notices strictly alternate, starting with an arrival; the names that are still
  // in the chat are the server's table; and the totals differ by its size.
  lemma Accounting(k: Context, s: State, name: Bytes)
    requires Inv(k, s)
    ensures var h := History(s.log, name);
            && (forall i :: 0 <= i < |h| ==> (h[i] <==> i % 2 == 0))
            && (name in s.usernames <==> |h| % 2 == 1)
    ensures Arrivals(s.log) - Departures(s.log) == |s.usernames|
  {
    HistoryAlternates(s.log, name);
    ArrivalsMinusDepartures(s.log);
  }

  // ------------------------------------------------------------ the tables agree

  // As many names as registered clients.
  lemma {:induction false} NamesCount(clients: map<int, ClientInfo>, fds: set<int>)
    requires forall fd :: fd in fds <==> fd in clients && clients[fd].registered
    requires forall a, b :: a in fds && b in fds && a != b ==> clients[a].username != clients[b].username
    ensures |Names(clients)| == |fds|
    decreases |fds|
  {
    if fd :| fd in fds {
      NamesWithout(clients, fd);
      NamesCount(clients - {fd}, fds - {fd});
    } else {
      assert fds == {} && Names(clients) == {};
    }
  }

  lemma IndexAgreement(k: Context, s: State)
    requires Inv(k, s)
    ensures forall name :: name in s.usernames <==> exists fd :: Registered(s, fd) && s.clients[fd].username == name
    ensures |s.usernames| == |set fd | fd in s.clients && s.clients[fd].registered|
    ensures s.links.Keys == s.clients.Keys
    ensures forall fd :: fd in s.clients ==> s.clients[fd].fd == fd && s.clients[fd].session == fd
  {
    var fds := set fd | fd in s.clients && s.clients[fd].registered;
    assert forall fd :: fd in fds ==> Registered(s, fd);
    NamesCount(s.clients, fds);
    forall name ensures name in s.usernames <==> exists fd :: Registered(s, fd) && s.clients[fd].username == name {
      if name in s.usernames {
        var fd :| fd in s.clients && s.clients[fd].registered && s.clients[fd].username == name;
        assert Registered(s, fd);
      }
    }
  }

  // Stopping the server empties the tables but closes no accepted socket: the kernel and the
  // tables still agree exactly if nobody was connected.
  lemma SocketsOutliveStop(s: State)
    requires Structure(s)
    ensures var t := s.(clients := map[], usernames := {});
            t.links.Keys == t.clients.Keys <==> s.clients == map[]
  {
    var t := s.(clients := map[], usernames := {});
    assert s.clients.Keys == {} ==> s.clients == map[];
  }

  // Asking for a name that is taken changes nothing for anybody else, and nothing is distributed.
  lemma RefusalIsLocal(k: Context, s: State, fd: int, p: Bytes, t: State)
    requires Inv(k, s) && Step(k, s, Readable(fd, Some(p)), t)
    requires s.clients[fd].keyExchanged && !s.clients[fd].registered
    requires k.Open(p).Some? && k.Open(p).value in s.usernames
    ensures t.usernames == s.usernames && t.log == s.log && t.joins == s.joins
    ensures t.clients == s.clients - {fd} && t.links == s.links - {fd}
    ensures |t.closed| == |s.closed| + 1 && t.closed[|s.closed|].refused
  {
    hide Connections, Explains;
    var q: Bytes :| k.Open(q) == Some(USERNAME_TAKEN)
                    && t == Drop(s.(links := s.links[fd := s.links[fd].Send(q)]), fd, true);
  }

  // ------------------------------------------------------------ from one state to the next

  // A registered client keeps its name and place; what it was sent and the log only grow; and
  // when it goes, the last thing recorded of it is its own.
  lemma StepGrows(k: Context, s: State, ev: Event, t: State, fd: int)
    requires Inv(k, s) && Step(k, s, ev, t) && Registered(s, fd)
    ensures s.log <= t.log && s.closed <= t.closed
    ensures fd in t.clients ==>
              && t.clients[fd] == s.clients[fd] && JoinOf(t, fd) == JoinOf(s, fd)
              && fd in t.links && s.links[fd].sent <= t.links[fd].sent
    ensures fd !in t.clients ==>
              exists i :: |s.closed| <= i < |t.closed|
                          && t.closed[i].info == s.clients[fd] && t.closed[i].join == JoinOf(s, fd)
  {
    hide Connections, Explains, Cascade;
    match ev
    case Accepted(_, _, _) =>
    case Readable(other, packet) =>
      if !s.clients[other].keyExchanged {
        if packet.Some? && |packet.value| == PUBLIC_KEY_BYTES {
          assert other != fd;
        }
      } else if packet.None? || (!s.clients[other].registered && k.Open(packet.value).None?) {
        var removed :| Leave(k, s, other, false, removed, t);
        LeaveGrows(k, s, other, removed, t, fd);
      } else if s.clients[other].registered {
        FedGrows(k, s.links[fd], t.links[fd], [Forward(packet.value)]);
      } else if k.Open(packet.value).value in s.usernames {
        assert other != fd;
      } else {
        AdmissionGrows(k, s, other, k.Open(packet.value).value, t, fd);
      }
  }

  lemma AdmissionGrows(k: Context, s: State, other: int, name: Bytes, t: State, fd: int)
    requires Structure(s) && Registered(s, fd) && other in s.clients && s.clients[other].keyExchanged
    requires !s.clients[other].registered && name !in s.usernames
    requires exists removed :: Cascade(k, Admit(s, other, name), Connected(name), removed, t)
    ensures s.log <= t.log && s.closed <= t.closed
    ensures fd in t.clients ==>
              && t.clients[fd] == s.clients[fd] && JoinOf(t, fd) == JoinOf(s, fd)
              && fd in t.links && s.links[fd].sent <= t.links[fd].sent
    ensures fd !in t.clients ==>
              exists i :: |s.closed| <= i < |t.closed|
                          && t.closed[i].info == s.clients[fd] && t.closed[i].join == JoinOf(s, fd)
  {
    var removed :| Cascade(k, Admit(s, other, name), Connected(name), removed, t);
    AdmitStructure(s, other, name);
    hide Structure, Cascade;
    CascadeGrows(k, Admit(s, other, name), Connected(name), removed, t, fd);
  }

  lemma FedGrows(k: Context, l: Link, m: Link, es: seq<Entry>)
    requires l.Valid() && Fed(k, l, m, es)
    ensures l.sent <= m.sent
  {
    var ps :| CarryAll(k, ps, es) && m == l.SendAll(ps);
    if l.failed {
      FailureIsPermanent(l, ps);
    } else {
      SendAllExactly(l, ps);
    }
  }

  lemma CascadeGrows(k: Context, s: State, e: Entry, removed: seq<int>, t: State, fd: int)
    requires Structure(s) && Cascade(k, s, e, removed, t) && Registered(s, fd)
    ensures s.log <= t.log && s.closed <= t.closed
    ensures fd in t.clients ==>
              && t.clients[fd] == s.clients[fd] && JoinOf(t, fd) == JoinOf(s, fd)
              && fd in t.links && s.links[fd].sent <= t.links[fd].sent
    ensures fd !in t.clients ==>
              exists i :: |s.closed| <= i < |t.closed|
                          && t.closed[i].info == s.clients[fd] && t.closed[i].join == JoinOf(s, fd)
  {
    if fd in t.clients {
      FedGrows(k, s.links[fd], t.links[fd], Distributed(s, e, removed));
    } else {
      assert fd in Elements(removed);
      var i :| 0 <= i < |removed| && removed[i] == fd;
      assert Casualty(k, s, e, removed, i, t);
      assert t.closed[|s.closed| + i].info == s.clients[fd];
    }
  }

  lemma LeaveGrows(k: Context, s: State, other: int, removed: seq<int>, t: State, fd: int)
    requires Structure(s) && other in s.clients && Leave(k, s, other, false, removed, t) && Registered(s, fd)
    ensures s.log <= t.log && s.closed <= t.closed
    ensures fd in t.clients ==>
              && t.clients[fd] == s.clients[fd] && JoinOf(t, fd) == JoinOf(s, fd)
              && fd in t.links && s.links[fd].sent <= t.links[fd].sent
    ensures fd !in t.clients ==>
              exists i :: |s.closed| <= i < |t.closed|
                          && t.closed[i].info == s.clients[fd] && t.closed[i].join == JoinOf(s, fd)
  {
    var dropped := Drop(s, other, false);
    DropKeepsStructure(s, other, false);
    assert dropped.closed[|s.closed|].info == s.clients[other];
    if s.clients[other].registered {
      if fd != other {
        assert Registered(dropped, fd);
        CascadeGrows(k, dropped, Disconnected(s.clients[other].username), removed, t, fd);
      } else {
        assert t.closed[|s.closed|] == dropped.closed[|s.closed|];
        assert fd !in t.clients;
      }
    }
  }

  // ------------------------------------------------------------ connections without a key

  // A connection that ends is taken out of the table and its socket closed exactly when it has
  // exchanged its key; before that, nothing happens at all.
  lemma EndedIsRemovedExactly(k: Context, s: State, fd: int, t: State)
    requires Inv(k, s) && Step(k, s, Readable(fd, None), t)
    ensures fd !in t.clients <==> s.clients[fd].keyExchanged
    ensures fd !in t.links <==> s.clients[fd].keyExchanged
    ensures !s.clients[fd].keyExchanged ==> t == s
  {
    if s.clients[fd].keyExchanged {
      var removed :| Leave(k, s, fd, false, removed, t);
    }
  }

  // Only a key moves a connection on that has not sent one.
  lemma OnlyAKeyMoves(k: Context, s: State, ev: Event, t: State, fd: int)
    requires Structure(s) && Step(k, s, ev, t) && fd in s.clients && !s.clients[fd].keyExchanged
    requires ev.Readable? && ev.fd == fd && ev.packet.Some? ==> |ev.packet.value| != PUBLIC_KEY_BYTES
    ensures fd in t.clients && fd in t.links && t.clients[fd] == s.clients[fd] && t.links[fd] == s.links[fd]
  {
    assert fd in s.links && !Registered(s, fd);
    match ev
    case Accepted(_, _, _) =>
    case Readable(other, packet) =>
      if !s.clients[other].keyExchanged {
      } else if packet.None? || (!s.clients[other].registered && k.Open(packet.value).None?) {
        var removed :| Leave(k, s, other, false, removed, t);
      } else if !s.clients[other].registered && k.Open(packet.value).value !in s.usernames {
        var name := k.Open(packet.value).value;
        var removed :| Cascade(k, Admit(s, other, name), Connected(name), removed, t);
      }
  }

  // So a connection that is over before it has sent a key keeps its entry and its socket, however
  // often and whatever else the server is told of.
  lemma {:induction false} UnkeyedStays(k: Context, states: seq<State>, events: seq<Event>, m: nat, n: nat, fd: int)
    requires Run(k, states, events) && states[0] == INITIAL && m <= n <= |events|
    requires fd in states[m].clients && fd in states[m].links && !states[m].clients[fd].keyExchanged
    requires forall i :: m <= i < n && events[i].Readable? && events[i].fd == fd && events[i].packet.Some? ==>
               |events[i].packet.value| != PUBLIC_KEY_BYTES
    ensures fd in states[n].clients && states[n].clients[fd] == states[m].clients[fd]
    ensures fd in states[n].links && states[n].links[fd] == states[m].links[fd]
    decreases n
  {
    hide Step, Inv, Structure;
    if m < n {
      UnkeyedStays(k, states, events, m, n - 1, fd);
      InitialInv(k);
      RunsKeepInv(k, states, events, n - 1);
      InvStructure(k, states[n - 1]);
      OnlyAKeyMoves(k, states[n - 1], events[n - 1], states[n], fd);
    }
  }

  lemma InvStructure(k: Context, s: State)
    requires Inv(k, s)
    ensures Structure(s)
  {
  }

  // ------------------------------------------------------------ what is forwarded

  // The packets that a log forwards, in order.
  function Forwards(log: seq<Entry>): seq<Bytes> {
    if log == [] then []
    else
      var e := log[|log| - 1];
      Forwards(log[..|log| - 1]) + if e.Forward? then [e.raw] else []
  }

  // The packet that a client in the chat has sent, if the event is one.
  function Received(s: State, ev: Event): seq<Bytes> {
    if ev.Readable? && ev.packet.Some? && Registered(s, ev.fd) then [ev.packet.value] else []
  }

  function AllReceived(states: seq<State>, events: seq<Event>, n: nat): seq<Bytes>
    requires n <= |events| < |states|
  {
    if n == 0 then [] else AllReceived(states, events, n - 1) + Received(states[n - 1], events[n - 1])
  }

  lemma {:induction false} ForwardsConcat(log: seq<Entry>, es: seq<Entry>)
    ensures Forwards(log + es) == Forwards(log) + Forwards(es)
    decreases |es|
  {
    if es == [] {
      assert log + es == log;
    } else {
      assert (log + es)[..|log + es| - 1] == log + es[..|es| - 1];
      ForwardsConcat(log, es[..|es| - 1]);
    }
  }

  lemma {:induction false} NoForwards(es: seq<Entry>)
    requires forall i :: 0 <= i < |es| ==> !es[i].Forward?
    ensures Forwards(es) == []
  {
    if es != [] {
      NoForwards(es[..|es| - 1]);
    }
  }

  lemma CascadeLog(k: Context, s: State, e: Entry, removed: seq<int>, t: State)
    requires Cascade(k, s, e, removed, t)
    ensures t.log == s.log + Distributed(s, e, removed)
  {
    hide Fed, Casualty, Names, Elements, Registered, NoDuplicates, Distributed;
  }

  lemma CascadeForwards(k: Context, s: State, e: Entry, removed: seq<int>, t: State)
    requires Cascade(k, s, e, removed, t) && !e.Forward?
    ensures s.log <= t.log && Forwards(t.log) == Forwards(s.log)
  {
    CascadeLog(k, s, e, removed, t);
    hide Cascade;
    ForwardsConcat(s.log, Distributed(s, e, removed));
    NoForwards(Distributed(s, e, removed));
  }

  // One event forwards the packet that a client in the chat has sent, and nothing else.
  lemma StepForwards(k: Context, s: State, ev: Event, t: State)
    requires Structure(s) && Step(k, s, ev, t)
    ensures s.log <= t.log && Forwards(t.log) == Forwards(s.log) + Received(s, ev)
  {
    hide Cascade, Forwards;
    match ev
    case Accepted(_, _, _) =>
    case Readable(fd, packet) =>
      if !s.clients[fd].keyExchanged {
        assert !Registered(s, fd);
      } else if packet.None? || (!s.clients[fd].registered && k.Open(packet.value).None?) {
        var removed :| Leave(k, s, fd, false, removed, t);
        if s.clients[fd].registered {
          CascadeForwards(k, Drop(s, fd, false), Disconnected(s.clients[fd].username), removed, t);
        }
      } else if s.clients[fd].registered {
        OneForward(s.log, packet.value);
      } else if k.Open(packet.value).value !in s.usernames {
        var name := k.Open(packet.value).value;
        var removed :| Cascade(k, Admit(s, fd, name), Connected(name), removed, t);
        CascadeForwards(k, Admit(s, fd, name), Connected(name), removed, t);
      }
  }

  lemma OneForward(log: seq<Entry>, raw: Bytes)
    ensures Forwards(log + [Forward(raw)]) == Forwards(log) + [raw]
  {
    assert (log + [Forward(raw)])[..|log|] == log;
  }

  /**
   In every run, the packets forwarded are exactly those received from clients that were in the
   chat at that moment: each once, unchanged, in the order in which they were received.
   */
  lemma {:induction false} ForwardedIsReceived(k: Context, states: seq<State>, events: seq<Event>, n: nat)
    requires Run(k, states, events) && states[0] == INITIAL && n <= |events|
    ensures Forwards(states[n].log) == AllReceived(states, events, n)
    decreases n
  {
    hide Step, Inv, Structure, Received;
    if n != 0 {
      ForwardedIsReceived(k, states, events, n - 1);
      InitialInv(k);
      RunsKeepInv(k, states, events, n - 1);
      InvStructure(k, states[n - 1]);
      StepForwards(k, states[n - 1], events[n - 1], states[n]);
    }
  }

  // ------------------------------------------------------------ control messages

  const SEPARATOR: Bytes := Ascii(": ")

  // What a client sends for a line of input.
  function Said(username: Bytes, input: Bytes): Bytes {
    username + SEPARATOR + input
  }

  const SPACE: Byte := 32

  lemma ControlMessageHasNoSpace()
    ensures SPACE !in USERNAME_TAKEN
  {
    assert ' ' !in "SERVER::USERNAME_TAKEN";
  }

  // Neither a notice nor anything said can be taken for the control message.
  lemma ControlMessageIsUnambiguous(e: Entry, username: Bytes, input: Bytes)
    requires !e.Forward?
    ensures Notice(e) != USERNAME_TAKEN
    ensures Said(username, input) != USERNAME_TAKEN
  {
    ControlMessageHasNoSpace();
    assert Notice(e)[|e.name|] == SPACE;
    assert SEPARATOR[1] == SPACE;
    assert Said(username, input)[|username| + 1] == SPACE;
  }

  const MAX_USERNAME_LEN := 24

  // An entry that clients which behave like the client program give rise to.
  ghost predicate Conforming(k: Context, e: Entry) {
    match e
    case Forward(raw) => FromClient(k, true, raw)
    case _ => |e.name| <= MAX_USERNAME_LEN
  }

  ghost predicate AllConforming(k: Context, log: seq<Entry>) {
    forall i :: 0 <= i < |log| ==> Conforming(k, log[i])
  }

  // A packet that the client program sends after its key: first its name, then what is said.
  ghost predicate FromClient(k: Context, registered: bool, p: Bytes) {
    if registered
    then |p| < WRAP && exists name, input :: k.Open(p) == Some(Said(name, input))
    else k.Open(p).Some? ==> |k.Open(p).value| <= MAX_USERNAME_LEN
  }

  ghost predicate ConformingEvent(k: Context, s: State, ev: Event) {
    ev.Readable? && ev.packet.Some? && ev.fd in s.clients && s.clients[ev.fd].keyExchanged ==>
      FromClient(k, s.clients[ev.fd].registered, ev.packet.value)
  }

  // A run of the server in which every client behaves like the client program.
  ghost predicate ConformingRun(k: Context, states: seq<State>, events: seq<Event>) {
    && Run(k, states, events) && states[0] == INITIAL
    && forall i :: 0 <= i < |events| ==> ConformingEvent(k, states[i], events[i])
  }

  // The farewells of a cascade only name clients whose arrival is in the log.
  lemma CascadeConforms(k: Context, s: State, e: Entry, removed: seq<int>, t: State)
    requires Structure(s) && Cascade(k, s, e, removed, t) && AllConforming(k, s.log + [e])
    requires forall fd :: Registered(s, fd) ==> Joined(s.clients[fd], s.log + [e], JoinOf(s, fd))
    ensures AllConforming(k, t.log)
  {
    var log := s.log + [e];
    assert t.log == log + Farewells(s.clients, removed);
    forall i | 0 <= i < |t.log| ensures Conforming(k, t.log[i]) {
      if i < |log| {
        assert Conforming(k, log[i]);
      } else {
        var fd := removed[i - |log|];
        assert Registered(s, fd);
        assert Conforming(k, log[JoinOf(s, fd)]);
      }
    }
  }

  lemma LeaveConforms(k: Context, s: State, fd: int, removed: seq<int>, t: State)
    requires Inv(k, s) && AllConforming(k, s.log) && fd in s.clients && Leave(k, s, fd, false, removed, t)
    ensures AllConforming(k, t.log)
  {
    if s.clients[fd].registered {
      assert Registered(s, fd) && Conforming(k, s.log[JoinOf(s, fd)]);
      var dropped, e := Drop(s, fd, false), Disconnected(s.clients[fd].username);
      DropKeepsStructure(s, fd, false);
      forall a | Registered(dropped, a) ensures Joined(dropped.clients[a], s.log + [e], JoinOf(dropped, a)) {
        assert Registered(s, a) && Joined(s.clients[a], s.log, JoinOf(s, a));
      }
      CascadeConforms(k, dropped, e, removed, t);
    }
  }

  lemma AdmitConforms(k: Context, s: State, fd: int, name: Bytes, removed: seq<int>, t: State)
    requires Inv(k, s) && AllConforming(k, s.log) && |name| <= MAX_USERNAME_LEN
    requires fd in s.clients && s.clients[fd].keyExchanged && !s.clients[fd].registered && name !in s.usernames
    requires Cascade(k, Admit(s, fd, name), Connected(name), removed, t)
    ensures AllConforming(k, t.log)
  {
    var a, e := Admit(s, fd, name), Connected(name);
    AdmitStructure(s, fd, name);
    forall b | Registered(a, b) ensures Joined(a.clients[b], s.log + [e], JoinOf(a, b)) {
      if b != fd {
        assert Registered(s, b) && Joined(s.clients[b], s.log, JoinOf(s, b));
      }
    }
    CascadeConforms(k, a, e, removed, t);
  }

  lemma StepConforms(k: Context, s: State, ev: Event, t: State)
    requires Inv(k, s) && AllConforming(k, s.log) && Step(k, s, ev, t) && ConformingEvent(k, s, ev)
    ensures AllConforming(k, t.log)
  {
    hide Inv, AllConforming;
    if ev.Readable? && s.clients[ev.fd].keyExchanged {
      var fd := ev.fd;
      if ev.packet.None? || (!s.clients[fd].registered && k.Open(ev.packet.value).None?) {
        var removed :| Leave(k, s, fd, false, removed, t);
        LeaveConforms(k, s, fd, removed, t);
      } else if s.clients[fd].registered {
        ForwardConforms(k, s.log, ev.packet.value);
      } else if k.Open(ev.packet.value).value !in s.usernames {
        var name := k.Open(ev.packet.value).value;
        var removed :| Cascade(k, Admit(s, fd, name), Connected(name), removed, t);
        AdmitConforms(k, s, fd, name, removed, t);
      } else {
        RefusalLog(k, s, fd, t);
      }
    }
  }

  lemma ForwardConforms(k: Context, log: seq<Entry>, raw: Bytes)
    requires AllConforming(k, log) && FromClient(k, true, raw)
    ensures AllConforming(k, log + [Forward(raw)])
  {
  }

  lemma RefusalLog(k: Context, s: State, fd: int, t: State)
    requires fd in s.clients && fd in s.links && RefuseStep(k, s, fd, t)
    ensures t.log == s.log
  {
  }

  /**
   What conforming clients send is all that conforming clients are ever sent: in every state of
   such a run the log holds nothing but short names and things said.
   */
  lemma {:induction false} ConformingRuns(k: Context, states: seq<State>, events: seq<Event>, n: nat)
    requires ConformingRun(k, states, events) && n <= |events|
    ensures Inv(k, states[n]) && AllConforming(k, states[n].log)
    decreases n
  {
    hide Inv, Step, ConformingEvent;
    if n == 0 {
      InitialInv(k);
    } else {
      ConformingRuns(k, states, events, n - 1);
      StepKeepsInv(k, states[n - 1], events[n - 1], states[n]);
      StepConforms(k, states[n - 1], events[n - 1], states[n]);
    }
  }

  // A conforming entry is a non-empty text, is not the control message, and can be framed.
  lemma ConformingMeaning(k: Context, p: Bytes, e: Entry)
    requires Conforming(k, e) && Carries(k, p, e)
    ensures k.Open(p).Some? && k.Open(p) == Meaning(k, e)
    ensures k.Open(p).value != [] && k.Open(p).value != USERNAME_TAKEN
    ensures |p| < WRAP
  {
    if e.Forward? {
      var name, input :| k.Open(e.raw) == Some(Said(name, input));
      ControlMessageIsUnambiguous(Connected([]), name, input);
    } else {
      ControlMessageIsUnambiguous(e, [], []);
    }
  }

  lemma SliceTellsNobody(k: Context, log: seq<Entry>, join: nat, d: seq<Bytes>, i: nat)
    requires AllConforming(k, log) && join + |d| <= |log| && CarryAll(k, d, log[join..join + |d|]) && i < |d|
    ensures k.Open(d[i]) != Some(USERNAME_TAKEN)
  {
    var e := log[join + i];
    assert log[join..join + |d|][i] == e && Carries(k, d[i], e);
    ConformingMeaning(k, d[i], e);
  }

  lemma ToldMeansRefused(k: Context, s: State, info: ClientInfo, l: Link, join: nat, refused: bool, i: nat)
    requires Inv(k, s) && AllConforming(k, s.log) && OnRecord(s, info, l, join, refused)
    requires 2 <= i < |l.sent| && k.Open(l.sent[i]) == Some(USERNAME_TAKEN)
    ensures refused && !info.registered && i == 2
  {
    hide Inv, AllConforming, OnRecord, Handshake, CarryAll, CutAt;
    StreamShape(k, s, info, l, join, refused);
    if info.registered {
      SliceTellsNobody(k, s.log, join, Delivered(l), i - 2);
    }
  }

  // In every run of conforming clients, the control message is only ever sent to a client that
  // was refused its own name.
  lemma ControlMessageMeansRefused(
    k: Context, states: seq<State>, events: seq<Event>, n: nat, c: Closed, i: nat)
    requires ConformingRun(k, states, events) && n <= |events| && c in states[n].closed
    requires 2 <= i < |c.link.sent| && k.Open(c.link.sent[i]) == Some(USERNAME_TAKEN)
    ensures c.refused && !c.info.registered && i == 2
  {
    ConformingRuns(k, states, events, n);
    ToldMeansRefused(k, states[n], c.info, c.link, c.join, c.refused, i);
  }

  // And nobody whose connection is open has been sent it.
  lemma NobodyInTheChatIsTold(
    k: Context, states: seq<State>, events: seq<Event>, n: nat, fd: int, i: nat)
    requires ConformingRun(k, states, events) && n <= |events|
    requires fd in states[n].clients && fd in states[n].links && 2 <= i < |states[n].links[fd].sent|
    ensures k.Open(states[n].links[fd].sent[i]) != Some(USERNAME_TAKEN)
  {
    ConformingRuns(k, states, events, n);
    var s := states[n];
    assert OnRecord(s, s.clients[fd], s.links[fd], JoinOf(s, fd), false);
    if k.Open(s.links[fd].sent[i]) == Some(USERNAME_TAKEN) {
      ToldMeansRefused(k, s, s.clients[fd], s.links[fd], JoinOf(s, fd), false, i);
    }
  }
}

/** What each event does to the server, in terms of its tables, its links and its log alone. */
module Effects {
  import opened Octets
  import opened Framing
  import opened Secretbox
  import opened ServerState
  import opened Cascades
  import opened ServerRuns
  import opened Delivery

  lemma NoticesAreLiteral(name: Bytes)
    ensures Notice(Connected(name)) == name + Ascii(" has connected")
    ensures Notice(Disconnected(name)) == name + Ascii(" has disconnected")
    ensures USERNAME_TAKEN == Ascii("SERVER::USERNAME_TAKEN")
    ensures SEPARATOR == Ascii(": ") && MAX_USERNAME_LEN == 24
  {
  }

  // A username packet of 24 to 39 bytes is what the server does not survive, and nothing else is.
  lemma FaultsExactly(s: State, ev: Event)
    requires ev.Readable? && ev.packet.Some? ==> |ev.packet.value| < WRAP
    ensures Faults(s, ev) <==>
            && ev.Readable? && ev.packet.Some? && 24 <= |ev.packet.value| <= 39
            && ev.fd in s.clients && s.clients[ev.fd].keyExchanged && !s.clients[ev.fd].registered
  {
    if ev.Readable? && ev.packet.Some? && |ev.packet.value| >= NONCE_BYTES {
      SizeWrapsExactly(|ev.packet.value|);
    }
  }

  // ------------------------------------------------------------ connecting

  // A connection gets a new descriptor, an entry and an open socket, in every state; if epoll
  // refuses it, it is as if it had never been.
  lemma AcceptedExactly(k: Context, s: State, fd: int, budget: nat, polled: bool, t: State)
    requires Step(k, s, Accepted(fd, budget, polled), t)
    ensures fd >= 0 && fd !in s.links
    ensures polled ==>
              && t.clients == s.clients[fd := ClientInfo([], fd, [], fd, false, false)]
              && t.links == s.links[fd := Link([], [], budget, false)]
    ensures !polled ==> t.clients == s.clients && t.links == s.links
    ensures t.usernames == s.usernames && t.log == s.log && t.joins == s.joins && t.closed == s.closed
  {
  }

  // What is not a key is ignored as long as there is no key.
  lemma NotAKeyIsIgnored(k: Context, s: State, fd: int, packet: Option<Bytes>, t: State)
    requires Step(k, s, Readable(fd, packet), t) && !s.clients[fd].keyExchanged
    requires packet.None? || |packet.value| != 32
    ensures t == s
  {
  }

  // A key is answered by the server's own and by the group key, boxed for its owner.
  lemma KeyIsAnswered(k: Context, s: State, fd: int, clientPk: Bytes, t: State)
    requires k.WellFormed() && Inv(k, s) && Step(k, s, Readable(fd, Some(clientPk)), t)
    requires !s.clients[fd].keyExchanged && |clientPk| == 32 && k.crypto.shared(clientPk, k.sk).Some?
    ensures t == s.(clients := t.clients, links := t.links)
    ensures t.clients == s.clients[fd := s.clients[fd].(clientPk := clientPk, keyExchanged := true)]
    ensures fd in s.links && t.links.Keys == s.links.Keys && forall a :: a in s.links && a != fd ==> t.links[a] == s.links[a]
    ensures s.links[fd].budget >= 112 ==>
              && !t.links[fd].failed && t.links[fd].budget == s.links[fd].budget - 112
              && |t.links[fd].sent| == 2 && t.links[fd].sent[0] == k.pk
              && var p := t.links[fd].sent[1];
                 |p| == 72 && k.crypto.open(k.crypto.shared(clientPk, k.sk).value, p[..24], p[24..]) == Some(k.groupKey)
    ensures s.links[fd].budget < 112 ==> t.links[fd].failed
  {
    assert OpenInv(k, s.clients[fd], s.links[fd], s.log, JoinOf(s, fd));
    hide Inv, Connections, Explains, Structure;
    var boxKey := k.crypto.shared(clientPk, k.sk).value;
    var greeted := s.links[fd].Send(k.pk);
    var nonce: Nonce :|
      t == s.(clients := s.clients[fd := s.clients[fd].(clientPk := clientPk).(keyExchanged := true)],
              links := s.links[fd := greeted.Send(KeyPacket(k, boxKey, nonce))]);
    SealedOpens(k.crypto, boxKey, nonce, k.groupKey);
  }

  // A key with which no box can be made costs the client its connection.
  lemma UnusableKeyIsDropped(k: Context, s: State, fd: int, clientPk: Bytes, t: State)
    requires Inv(k, s) && Step(k, s, Readable(fd, Some(clientPk)), t)
    requires !s.clients[fd].keyExchanged && |clientPk| == 32 && k.crypto.shared(clientPk, k.sk).None?
    ensures t.clients == s.clients - {fd} && t.links == s.links - {fd} && fd in s.links
    ensures t.usernames == s.usernames && t.log == s.log && t.joins == s.joins
    ensures |t.closed| == |s.closed| + 1 && t.closed[..|s.closed|] == s.closed
    ensures t.closed[|s.closed|].link == s.links[fd].Send(k.pk) && !t.closed[|s.closed|].refused
  {
    assert OpenInv(k, s.clients[fd], s.links[fd], s.log, JoinOf(s, fd));
  }

  // ------------------------------------------------------------ registering

  // An unreadable name, and an end before there is one, take the client out, and nobody is told.
  lemma NamelessLeavesSilently(k: Context, s: State, fd: int, packet: Option<Bytes>, t: State)
    requires Inv(k, s) && Step(k, s, Readable(fd, packet), t)
    requires s.clients[fd].keyExchanged && !s.clients[fd].registered
    requires packet.None? || k.Open(packet.value).None?
    ensures t.clients == s.clients - {fd} && t.links == s.links - {fd}
    ensures t.usernames == s.usernames && t.log == s.log && t.joins == s.joins
  {
    hide Connections, Explains, Cascade;
    var removed :| Leave(k, s, fd, false, removed, t);
  }

  // A name that is taken is answered by the control message, and the connection closed.
  lemma TakenNameIsRefused(k: Context, s: State, fd: int, p: Bytes, t: State)
    requires Inv(k, s) && Step(k, s, Readable(fd, Some(p)), t)
    requires s.clients[fd].keyExchanged && !s.clients[fd].registered
    requires k.Open(p).Some? && k.Open(p).value in s.usernames
    ensures t.clients == s.clients - {fd} && t.links == s.links - {fd} && fd in s.links
    ensures t.usernames == s.usernames && t.log == s.log && t.joins == s.joins
    ensures |t.closed| == |s.closed| + 1 && t.closed[..|s.closed|] == s.closed
    ensures t.closed[|s.closed|].refused
    ensures exists q: Bytes :: k.Open(q) == Some(Ascii("SERVER::USERNAME_TAKEN"))
                               && t.closed[|s.closed|].link == s.links[fd].Send(q)
  {
    hide Connections, Explains;
    var q: Bytes :| k.Open(q) == Some(USERNAME_TAKEN)
                    && t == Drop(s.(links := s.links[fd := s.links[fd].Send(q)]), fd, true);
    assert t.closed[|s.closed|].link == s.links[fd].Send(q);
  }

  // The next packet on this link after the state s opens to this text.
  ghost predicate ToldNext(k: Context, s: State, t: State, fd: int, text: Bytes) {
    && fd in s.links && fd in t.links && !t.links[fd].failed
    && |s.links[fd].sent| < |t.links[fd].sent| && s.links[fd].sent <= t.links[fd].sent
    && k.Open(t.links[fd].sent[|s.links[fd].sent|]) == Some(text)
  }

  /**
   A name that is free is given to the client: the arrival is the next thing in the log, it is
   what everybody who is still in the chat is sent next, and the client is in the chat under that
   name from there on - unless its own link is one of those that fail on the way, which then has
   left a record.
   */
  lemma FreeNameIsAdmitted(k: Context, s: State, fd: int, p: Bytes, name: Bytes, t: State)
    requires Inv(k, s) && Step(k, s, Readable(fd, Some(p)), t)
    requires s.clients[fd].keyExchanged && !s.clients[fd].registered
    requires k.Open(p) == Some(name) && name !in s.usernames
    ensures s.log < t.log && t.log[|s.log|] == Connected(name)
    ensures fd in t.clients ==>
              && t.clients[fd] == s.clients[fd].(username := name, registered := true)
              && fd in t.joins && t.joins[fd] == |s.log| && name in t.usernames
    ensures fd !in t.clients ==>
              exists i :: |s.closed| <= i < |t.closed|
                          && t.closed[i].info == s.clients[fd].(username := name, registered := true)
                          && t.closed[i].join == |s.log| && t.closed[i].link.failed
    ensures forall a :: Registered(t, a) ==> ToldNext(k, s, t, a, name + Ascii(" has connected"))
  {
    hide Connections, Explains, Cascade;
    var removed :| Cascade(k, Admit(s, fd, name), Connected(name), removed, t);
    AdmitStructure(s, fd, name);
    AdmittedBy(k, s, fd, name, removed, t);
    hide Structure, Admit;
    forall a | Registered(t, a) ensures ToldNext(k, s, t, a, name + Ascii(" has connected")) {
      AdmissionTold(k, s, fd, name, removed, t, a);
    }
  }

  lemma AdmittedBy(k: Context, s: State, fd: int, name: Bytes, removed: seq<int>, t: State)
    requires fd in s.clients && Cascade(k, Admit(s, fd, name), Connected(name), removed, t)
    ensures s.log < t.log && t.log[|s.log|] == Connected(name)
    ensures fd in t.clients ==>
              && t.clients[fd] == s.clients[fd].(username := name, registered := true)
              && fd in t.joins && t.joins[fd] == |s.log| && name in t.usernames
    ensures fd !in t.clients ==>
              exists i :: |s.closed| <= i < |t.closed|
                          && t.closed[i].info == s.clients[fd].(username := name, registered := true)
                          && t.closed[i].join == |s.log| && t.closed[i].link.failed
  {
    hide Fed;
    var a := Admit(s, fd, name);
    if fd !in t.clients {
      assert fd in Elements(removed);
      var i :| 0 <= i < |removed| && removed[i] == fd;
      assert Casualty(k, a, Connected(name), removed, i, t);
      assert t.closed[|s.closed| + i].info == a.clients[fd];
    }
  }

  lemma AdmissionTold(k: Context, s: State, fd: int, name: Bytes, removed: seq<int>, t: State, a: int)
    requires fd in s.clients && Structure(Admit(s, fd, name)) && Registered(t, a)
    requires Cascade(k, Admit(s, fd, name), Connected(name), removed, t)
    ensures ToldNext(k, s, t, a, name + Ascii(" has connected"))
  {
    var b := Admit(s, fd, name);
    SurvivorsSeeTheSame(k, b, Connected(name), removed, t, a);
    SurvivorLinks(k, b, Connected(name), removed, t, a);
    hide Structure, Cascade, Admit;
    assert t.links[a].sent[|s.links[a].sent|] == t.links[a].sent[|s.links[a].sent|..][0];
  }

  lemma SurvivorLinks(k: Context, s: State, e: Entry, removed: seq<int>, t: State, fd: int)
    requires Structure(s) && Cascade(k, s, e, removed, t) && Registered(t, fd)
    ensures Registered(s, fd) && fd in s.links && fd in t.links && !t.links[fd].failed
  {
    hide Fed, Casualty, NoDuplicates, Distributed;
  }

  // If every link in the chat, and the client's own, has room for the notice, nobody is removed.
  lemma FreeNameGetsIn(k: Context, s: State, fd: int, p: Bytes, name: Bytes, t: State)
    requires Inv(k, s) && Step(k, s, Readable(fd, Some(p)), t)
    requires s.clients[fd].keyExchanged && !s.clients[fd].registered
    requires k.Open(p) == Some(name) && name !in s.usernames
    requires forall a :: a in s.links && (Registered(s, a) || a == fd) ==>
               !s.links[a].failed && s.links[a].budget >= 58 + |name|
    ensures t.clients == s.clients[fd := s.clients[fd].(username := name, registered := true)]
    ensures t.usernames == s.usernames + {name} && t.links.Keys == s.links.Keys
    ensures t.log == s.log + [Connected(name)] && t.closed == s.closed
  {
    hide Connections, Explains, Cascade;
    var removed :| Cascade(k, Admit(s, fd, name), Connected(name), removed, t);
    AdmitStructure(s, fd, name);
    var a, e := Admit(s, fd, name), Connected(name);
    assert forall b :: Registered(a, b) ==> b in s.links && (Registered(s, b) || b == fd);
    NobodyIsRemoved(k, a, e, removed, t);
    AdmitNames(s, fd, name);
  }

  lemma NobodyIsRemoved(k: Context, s: State, e: Entry, removed: seq<int>, t: State)
    requires Structure(s) && Cascade(k, s, e, removed, t)
    requires forall fd :: Registered(s, fd) ==> !s.links[fd].failed && s.links[fd].budget >= Cost(e)
    ensures t.clients == s.clients && t.usernames == Names(s.clients) && t.links.Keys == s.links.Keys
    ensures t.log == s.log + [e] && t.closed == s.closed
  {
    assert FarewellCost(s.clients, []) == 0;
    ExactlyTheBrokenAreRemoved(k, s, e, removed, t, []);
    assert s.clients - Elements([]) == s.clients;
    hide Fed, Casualty, Names;
    assert removed == [] by {
      NoElements(removed);
    }
    assert Distributed(s, e, []) == [e];
  }

  // ------------------------------------------------------------ in the chat

  // What a client in the chat sends goes to everybody in the chat, once and unchanged, and
  // changes nothing else.
  lemma ForwardedExactly(k: Context, s: State, fd: int, p: Bytes, t: State)
    requires Inv(k, s) && Step(k, s, Readable(fd, Some(p)), t) && s.clients[fd].registered
    ensures t == s.(log := s.log + [Forward(p)], links := t.links) && t.links.Keys == s.links.Keys
    ensures forall a :: a in s.links ==> t.links[a] == if Registered(s, a) then s.links[a].Send(p) else s.links[a]
  {
    assert Registered(s, fd);
    hide Connections, Explains;
    forall a | Registered(s, a) ensures t.links[a] == s.links[a].Send(p) {
      OneForwarded(k, s.links[a], t.links[a], p);
    }
  }

  lemma OneForwarded(k: Context, l: Link, m: Link, p: Bytes)
    requires Fed(k, l, m, [Forward(p)])
    ensures m == l.Send(p)
  {
    var ps :| CarryAll(k, ps, [Forward(p)]) && m == l.SendAll(ps);
    assert Carries(k, ps[0], Forward(p)) && ps == [p];
    assert l.SendAll([p]) == l.Send(p).SendAll([]);
  }

  // A client in the chat whose connection ends is taken out and leaves a record; its departure is
  // the next thing in the log and what everybody left in the chat is sent next.
  lemma DepartureIsTold(k: Context, s: State, fd: int, t: State)
    requires Inv(k, s) && Step(k, s, Readable(fd, None), t) && s.clients[fd].registered
    ensures var name := s.clients[fd].username;
            && fd !in t.clients && fd !in t.links && name !in t.usernames && fd in s.links
            && s.log < t.log && t.log[|s.log|] == Disconnected(name)
            && |t.closed| > |s.closed| && t.closed[..|s.closed|] == s.closed
            && t.closed[|s.closed|] == Closed(s.clients[fd], s.links[fd], JoinOf(s, fd), |s.log|, false)
            && forall a :: Registered(t, a) ==> ToldNext(k, s, t, a, name + Ascii(" has disconnected"))
  {
    assert Registered(s, fd);
    hide Connections, Explains, Cascade;
    var removed :| Leave(k, s, fd, false, removed, t);
    var dropped, e := Drop(s, fd, false), Disconnected(s.clients[fd].username);
    DropKeepsStructure(s, fd, false);
    DepartedBy(k, s, fd, removed, t);
    forall a | Registered(t, a) ensures ToldNext(k, s, t, a, s.clients[fd].username + Ascii(" has disconnected")) {
      SurvivorLinks(k, dropped, e, removed, t, a);
      SurvivorsSeeTheSame(k, dropped, e, removed, t, a);
      assert t.links[a].sent[|s.links[a].sent|] == t.links[a].sent[|s.links[a].sent|..][0];
    }
  }

  lemma DepartedBy(k: Context, s: State, fd: int, removed: seq<int>, t: State)
    requires Structure(s) && Registered(s, fd)
    requires Cascade(k, Drop(s, fd, false), Disconnected(s.clients[fd].username), removed, t)
    ensures fd !in t.clients && fd !in t.links && s.clients[fd].username !in t.usernames
    ensures s.log < t.log && t.log[|s.log|] == Disconnected(s.clients[fd].username)
    ensures |t.closed| > |s.closed| && t.closed[..|s.closed|] == s.closed
    ensures t.closed[|s.closed|] == Closed(s.clients[fd], s.links[fd], JoinOf(s, fd), |s.log|, false)
  {
    hide Fed, Casualty;
    var dropped := Drop(s, fd, false);
    assert dropped.closed <= t.closed && dropped.closed[|s.closed|] == t.closed[|s.closed|];
    assert forall a :: Registered(t, a) ==> Registered(s, a) && a != fd;
    forall a | a in t.clients && t.clients[a].registered ensures t.clients[a].username != s.clients[fd].username {
      assert Registered(t, a);
    }
  }

  // ------------------------------------------------------------ somebody gets in

  function SentRound(s: State, e: Entry, p: Bytes): State {
    s.(log := s.log + [e],
       links := map fd | fd in s.links :: if Registered(s, fd) then s.links[fd].Send(p) else s.links[fd])
  }

  lemma RoundIsPossible(k: Context, s: State, e: Entry, p: Bytes)
    requires Carries(k, p, e)
    ensures Round(k, s, e, SentRound(s, e, p))
  {
    forall fd | fd in s.links && Registered(s, fd) ensures Fed(k, s.links[fd], s.links[fd].Send(p), [e]) {
      OnePacket(k, s.links[fd], p, e);
    }
  }

  // One more event of a run.
  lemma Then(k: Context, states: seq<State>, events: seq<Event>, ev: Event, t: State)
    returns (states': seq<State>, events': seq<Event>)
    requires Run(k, states, events) && states[0] == INITIAL && Step(k, states[|events|], ev, t)
    ensures Run(k, states', events') && states' == states + [t] && events' == events + [ev]
    ensures Inv(k, t)
  {
    states', events' := states + [t], events + [ev];
    InitialInv(k);
    RunsKeepInv(k, states', events', |events'|);
  }

  lemma KeyIsPossible(k: Context, s: State, fd: int, clientPk: Bytes) returns (t: State)
    requires fd in s.clients && fd in s.links && !s.clients[fd].keyExchanged
    requires |clientPk| == 32 && k.crypto.shared(clientPk, k.sk).Some?
    ensures Step(k, s, Readable(fd, Some(clientPk)), t)
  {
    var nonce: Nonce := Zeros(NONCE_BYTES);
    var boxKey := k.crypto.shared(clientPk, k.sk).value;
    t := s.(
      clients := s.clients[fd := s.clients[fd].(clientPk := clientPk).(keyExchanged := true)],
      links := s.links[fd := s.links[fd].Send(k.pk).Send(KeyPacket(k, boxKey, nonce))]);
    GreetedState(k, s, fd, clientPk, boxKey, nonce, t);
  }

  // A client that is alone is let in, and its own arrival is the first thing it is sent.
  lemma AdmissionIsPossible(k: Context, s: State, fd: int, p: Bytes, name: Bytes) returns (t: State)
    requires k.WellFormed() && Inv(k, s) && s.clients.Keys == {fd} && fd in s.links && s.log == []
    requires s.clients[fd].keyExchanged && !s.clients[fd].registered && k.Open(p) == Some(name) && |p| < WRAP
    requires !s.links[fd].failed && |s.links[fd].sent| == 2 && s.links[fd].budget >= 58 + |name|
    ensures Step(k, s, Readable(fd, Some(p)), t)
    ensures t.clients == s.clients[fd := s.clients[fd].(username := name, registered := true)]
    ensures t.usernames == {name} && t.log == [Connected(name)] && t.links.Keys == s.links.Keys
    ensures var l := t.links[fd];
            && !l.failed && l.budget == s.links[fd].budget - 58 - |name| && |l.sent| == 3
            && k.Open(l.sent[2]) == Some(name + Ascii(" has connected"))
  {
    NobodyIsNamed(s, fd);
    var nonce: Nonce := Zeros(NONCE_BYTES);
    var q := SealPacket(k.crypto, k.groupKey, nonce, Notice(Connected(name)));
    SealedOpens(k.crypto, k.groupKey, nonce, Notice(Connected(name)));
    hide Inv;
    AdmissionStep(k, s, fd, p, name, q);
    t := SentRound(Admit(s, fd, name), Connected(name), q);
    FreeNameGetsIn(k, s, fd, p, name, t);
  }

  lemma NobodyIsNamed(s: State, fd: int)
    requires Structure(s) && s.clients.Keys == {fd} && !s.clients[fd].registered
    ensures s.usernames == {} && forall a :: a in s.links ==> a == fd
  {
    assert s.usernames == Names(s.clients);
  }

  lemma AdmissionStep(k: Context, s: State, fd: int, p: Bytes, name: Bytes, q: Bytes)
    requires k.WellFormed() && Inv(k, s) && s.clients.Keys == {fd} && fd in s.links
    requires s.clients[fd].keyExchanged && !s.clients[fd].registered
    requires k.Open(p) == Some(name) && |p| < WRAP && name !in s.usernames
    requires Carries(k, q, Connected(name)) && !s.links[fd].failed && s.links[fd].budget >= 4 + |q|
    ensures Step(k, s, Readable(fd, Some(p)), SentRound(Admit(s, fd, name), Connected(name), q))
  {
    QuietAdmission(k, s, fd, name, q);
    OpensExactly(k.crypto, k.groupKey, p, name);
    FaultsExactly(s, Readable(fd, Some(p)));
    hide Inv, Cascade, SentRound, Admit, Faults;
  }

  lemma QuietAdmission(k: Context, s: State, fd: int, name: Bytes, q: Bytes)
    requires Structure(s) && s.clients.Keys == {fd} && fd in s.links
    requires s.clients[fd].keyExchanged && !s.clients[fd].registered && name !in s.usernames
    requires Carries(k, q, Connected(name)) && !s.links[fd].failed && s.links[fd].budget >= 4 + |q|
    ensures Cascade(k, Admit(s, fd, name), Connected(name), [], SentRound(Admit(s, fd, name), Connected(name), q))
  {
    hide Cascade, Carries;
    var a, t := Admit(s, fd, name), SentRound(Admit(s, fd, name), Connected(name), q);
    AdmitStructure(s, fd, name);
    hide Structure;
    RoundIsPossible(k, a, Connected(name), q);
    assert forall b :: Registered(a, b) ==> b == fd && !t.links[b].failed;
    hide Round, SentRound;
    QuietCascade(k, a, Connected(name), t);
  }

  /**
   From the start, for whatever key, name and first message: a client connects, exchanges its key,
   gets into the chat, says something, and is sent both its arrival and what it said.
   */
  lemma SomebodyGetsIn(k: Context, fd: int, budget: nat, clientPk: Bytes, p: Bytes, name: Bytes, said: Bytes)
    returns (states: seq<State>, events: seq<Event>)
    requires k.WellFormed() && fd >= 0 && |clientPk| == 32 && k.crypto.shared(clientPk, k.sk).Some?
    requires k.Open(p) == Some(name) && |p| < WRAP && budget >= 174 + |name| + |said|
    ensures Run(k, states, events) && states[0] == INITIAL && |events| == 4
    ensures Registered(states[4], fd) && states[4].clients[fd].username == name && states[4].usernames == {name}
    ensures states[4].log == [Connected(name), Forward(said)]
    ensures fd in states[4].links && !states[4].links[fd].failed
    ensures var d := Delivered(states[4].links[fd]);
            |d| == 2 && k.Open(d[0]) == Some(name + Ascii(" has connected")) && d[1] == said
  {
    hide Inv, Step, Carries;
    states, events := SomebodyConnects(k, fd, budget);
    InitialInv(k);
    RunsKeepInv(k, states, events, 1);
    var greeted := KeyIsPossible(k, states[1], fd, clientPk);
    KeyIsAnswered(k, states[1], fd, clientPk, greeted);
    states, events := Then(k, states, events, Readable(fd, Some(clientPk)), greeted);
    var admitted := AdmissionIsPossible(k, greeted, fd, p, name);
    states, events := Then(k, states, events, Readable(fd, Some(p)), admitted);
    var spoken := SpeakingIsPossible(k, admitted, fd, said);
    states, events := Then(k, states, events, Readable(fd, Some(said)), spoken);
  }

  lemma SpeakingIsPossible(k: Context, s: State, fd: int, said: Bytes) returns (t: State)
    requires Inv(k, s) && Registered(s, fd) && fd in s.links && |s.links[fd].sent| == 3
    requires !s.links[fd].failed && s.links[fd].budget >= 4 + |said|
    ensures Step(k, s, Readable(fd, Some(said)), t) && t == s.(log := s.log + [Forward(said)], links := t.links)
    ensures fd in t.links && !t.links[fd].failed && t.links[fd].sent == s.links[fd].sent + [said]
  {
    t := SentRound(s, Forward(said), said);
    RoundIsPossible(k, s, Forward(said), said);
  }
}

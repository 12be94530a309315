/** What holds in every state that the server can reach. */
module ServerRuns {
  import opened Octets
  import opened Framing
  import opened Secretbox
  import opened ServerState
  import opened Cascades

  // ------------------------------------------------------------ the invariant

  // The packets sent on a connection after the two of the handshake.
  function Delivered(l: Link): seq<Bytes> {
    if |l.sent| <= 2 then [] else l.sent[2..]
  }

  // The group key, boxed for the owner of this public key.
  ghost predicate IsKeyPacket(k: Context, clientPk: Bytes, p: Bytes) {
    && k.crypto.shared(clientPk, k.sk).Some?
    && exists nonce: Nonce :: p == KeyPacket(k, k.crypto.shared(clientPk, k.sk).value, nonce)
  }

  // A stream starts with the server's public key and the boxed group key, or it stops in them.
  ghost predicate Handshake(k: Context, clientPk: Bytes, l: Link) {
    && (|l.sent| == 0 ==> l.tail < Frame(k.pk))
    && (|l.sent| > 0 ==> l.sent[0] == k.pk)
    && (|l.sent| == 1 && l.tail != [] ==> exists p :: IsKeyPacket(k, clientPk, p) && l.tail < Frame(p))
    && (|l.sent| > 1 ==> IsKeyPacket(k, clientPk, l.sent[1]))
  }

  // The wire ends in a proper part, possibly empty, of a packet that delivers this entry.
  ghost predicate CutAt(k: Context, tail: Bytes, e: Entry) {
    exists p :: Carries(k, p, e) && tail < Frame(p)
  }

  // What was delivered is a contiguous slice of the log from `join` on: all the rest of it,
  // unless a send has failed; then the wire ends within the next entry.
  ghost predicate InSync(k: Context, l: Link, log: seq<Entry>, join: nat) {
    var d := Delivered(l);
    && join + |d| <= |log|
    && CarryAll(k, d, log[join..join + |d|])
    && (!l.failed ==> |l.sent| >= 2 && join + |d| == |log|)
    && (l.failed && |l.sent| >= 2 ==> join + |d| < |log| && CutAt(k, l.tail, log[join + |d|]))
  }

  // The log from `join` on starts with the client's own arrival.
  predicate Joined(info: ClientInfo, log: seq<Entry>, join: nat) {
    join < |log| && log[join] == Connected(info.username)
  }

  ghost predicate OpenInv(k: Context, info: ClientInfo, l: Link, log: seq<Entry>, join: nat) {
    && Handshake(k, info.clientPk, l)
    && (!info.keyExchanged ==> l == FreshLink(l.budget) && !info.registered)
    && (info.keyExchanged && !l.failed ==> |l.sent| >= 2)
    && (!info.registered ==> |l.sent| <= 2 && (|l.sent| == 2 ==> !l.failed))
    && (info.registered ==> InSync(k, l, log, join))
  }

  ghost predicate ClosedInv(k: Context, c: Closed, log: seq<Entry>) {
    && c.left <= |log| && c.link.Valid()
    && Handshake(k, c.info.clientPk, c.link)
    && (c.info.registered ==>
          !c.refused && InSync(k, c.link, log[..c.left], c.join) && Joined(c.info, log[..c.left], c.join))
    && (!c.info.registered && !c.refused ==> |c.link.sent| <= 2 && (|c.link.sent| == 2 ==> !c.link.failed))
    && (c.refused ==> RefusedLink(k, c.link))
  }

  // The control message was the last thing sent, whole or in part, if the handshake was whole.
  ghost predicate RefusedLink(k: Context, l: Link) {
    && |l.sent| <= 3 && (!l.failed <==> |l.sent| == 3)
    && (|l.sent| == 3 ==> k.Open(l.sent[2]) == Some(USERNAME_TAKEN))
    && (|l.sent| == 2 ==> exists p :: k.Open(p) == Some(USERNAME_TAKEN) && l.tail < Frame(p))
  }

  // Who is in the chat according to the notices alone.
  function Present(log: seq<Entry>): set<Bytes> {
    if log == [] then {}
    else
      var before := Present(log[..|log| - 1]);
      match log[|log| - 1]
      case Connected(name) => before + {name}
      case Disconnected(name) => before - {name}
      case Forward(_) => before
  }

  // Nobody arrives who is there, nobody leaves who is not.
  predicate Alternates(log: seq<Entry>) {
    log == [] ||
    var before := log[..|log| - 1];
    && Alternates(before)
    && (match log[|log| - 1]
        case Connected(name) => name !in Present(before)
        case Disconnected(name) => name in Present(before)
        case Forward(_) => true)
  }

  predicate Accounted(log: seq<Entry>, usernames: set<Bytes>) {
    Alternates(log) && Present(log) == usernames
  }

  ghost predicate Connections(k: Context, s: State)
    requires Structure(s)
  {
    && (forall fd :: fd in s.clients ==> OpenInv(k, s.clients[fd], s.links[fd], s.log, JoinOf(s, fd)))
    && (forall i :: 0 <= i < |s.closed| ==> ClosedInv(k, s.closed[i], s.log))
  }

  // The log that is about to exist explains every registered client and every name.
  ghost predicate Explains(s: State, log: seq<Entry>) {
    && Accounted(log, s.usernames)
    && forall fd :: Registered(s, fd) ==> Joined(s.clients[fd], log, JoinOf(s, fd))
  }

  ghost predicate Inv(k: Context, s: State) {
    Structure(s) && Connections(k, s) && Explains(s, s.log)
  }

  const INITIAL := State(map[], {}, map[], [], map[], [])

  lemma InitialInv(k: Context)
    ensures Inv(k, INITIAL)
  {
  }

  // ------------------------------------------------------------ the log

  lemma {:induction false} FarewellsAccounted(log: seq<Entry>, clients: map<int, ClientInfo>, removed: seq<int>)
    requires Accounted(log, Names(clients)) && NoDuplicates(removed)
    requires forall i :: 0 <= i < |removed| ==> removed[i] in clients && clients[removed[i]].registered
    requires forall a, b :: a in clients && b in clients && clients[a].registered && clients[b].registered && a != b ==>
               clients[a].username != clients[b].username
    ensures Accounted(log + Farewells(clients, removed), Names(clients - Elements(removed)))
    decreases |removed|
  {
    hide Accounted, Names;
    if removed == [] {
      assert log + Farewells(clients, removed) == log;
      assert clients - Elements(removed) == clients;
    } else {
      var last := |removed| - 1;
      var fd, init := removed[last], removed[..last];
      FarewellsAccounted(log, clients, init);
      var left := clients - Elements(init);
      assert log + Farewells(clients, removed) == (log + Farewells(clients, init)) + [Disconnected(clients[fd].username)];
      assert clients - Elements(removed) == left - {fd} by {
        assert removed == init + [fd];
      }
      assert fd in left;
      OneFarewell(log + Farewells(clients, init), left, fd);
    }
  }

  lemma OneFarewell(log: seq<Entry>, clients: map<int, ClientInfo>, fd: int)
    requires Accounted(log, Names(clients)) && fd in clients && clients[fd].registered
    requires forall a, b :: a in clients && b in clients && clients[a].registered && clients[b].registered && a != b ==>
               clients[a].username != clients[b].username
    ensures Accounted(log + [Disconnected(clients[fd].username)], Names(clients - {fd}))
  {
    var after := log + [Disconnected(clients[fd].username)];
    assert after[..|after| - 1] == log;
    NamesWithout(clients, fd);
  }

  lemma NamesWithout(clients: map<int, ClientInfo>, fd: int)
    requires fd in clients && clients[fd].registered
    requires forall a, b :: a in clients && b in clients && clients[a].registered && clients[b].registered && a != b ==>
               clients[a].username != clients[b].username
    ensures clients[fd].username in Names(clients)
    ensures Names(clients - {fd}) == Names(clients) - {clients[fd].username}
  {
    var left := clients - {fd};
    forall name | name in Names(clients) && name != clients[fd].username ensures name in Names(left) {
      var a :| a in clients && clients[a].registered && clients[a].username == name;
      assert a in left;
    }
  }

  // ------------------------------------------------------------ connections

  lemma CarryAllConcat(k: Context, ps: seq<Bytes>, es: seq<Entry>, qs: seq<Bytes>, fs: seq<Entry>, n: nat)
    requires CarryAll(k, ps, es) && CarryAll(k, qs, fs) && n <= |qs|
    ensures CarryAll(k, ps + qs[..n], es + fs[..n])
  {
  }

  lemma SliceGrown(log: seq<Entry>, es: seq<Entry>, join: nat, n: nat)
    requires join <= |log| && n <= |es|
    ensures (log + es)[join..|log| + n] == log[join..] + es[..n]
  {
  }

  lemma SyncGrown(k: Context, l: Link, m: Link, log: seq<Entry>, es: seq<Entry>, join: nat, ps: seq<Bytes>, n: nat)
    requires InSync(k, l, log, join) && !l.failed && CarryAll(k, ps, es) && n <= |ps|
    requires m.sent == l.sent + ps[..n] && (m.failed <==> n < |ps|)
    requires n < |ps| ==> m.tail < Frame(ps[n])
    ensures InSync(k, m, log + es, join)
  {
    var d := Delivered(l);
    assert Delivered(m) == d + ps[..n];
    assert log[join..join + |d|] == log[join..];
    SliceGrown(log, es, join, n);
    CarryAllConcat(k, d, log[join..], ps, es, n);
    if n < |ps| {
      assert Carries(k, ps[n], es[n]) && (log + es)[join + |d| + n] == es[n];
    }
  }

  // Being sent what is appended to the log keeps a connection in step with it.
  lemma SyncFed(k: Context, l: Link, m: Link, log: seq<Entry>, es: seq<Entry>, join: nat)
    requires l.Valid() && InSync(k, l, log, join) && Fed(k, l, m, es)
    ensures InSync(k, m, log + es, join)
    ensures l.sent <= m.sent && (l.failed ==> m == l)
  {
    var ps :| CarryAll(k, ps, es) && m == l.SendAll(ps);
    if l.failed {
      FailureIsPermanent(l, ps);
      var n := |Delivered(l)|;
      assert (log + es)[join..join + n] == log[join..join + n];
    } else {
      SendAllExactly(l, ps);
      SyncGrown(k, l, m, log, es, join, ps, Fits(ps, l.budget));
    }
  }

  lemma ClosedStays(k: Context, c: Closed, log: seq<Entry>, more: seq<Entry>)
    requires ClosedInv(k, c, log)
    ensures ClosedInv(k, c, log + more)
  {
    assert (log + more)[..c.left] == log[..c.left];
  }

  lemma RoundKeepsInv(k: Context, s: State, raw: Bytes, t: State)
    requires Inv(k, s) && Round(k, s, Forward(raw), t)
    ensures Inv(k, t)
  {
    RoundKeepsStructure(k, s, Forward(raw), t);
    forall fd | fd in t.clients ensures OpenInv(k, t.clients[fd], t.links[fd], t.log, JoinOf(t, fd)) {
      if Registered(s, fd) {
        SyncFed(k, s.links[fd], t.links[fd], s.log, [Forward(raw)], JoinOf(s, fd));
      }
    }
    forall i | 0 <= i < |t.closed| ensures ClosedInv(k, t.closed[i], t.log) {
      ClosedStays(k, s.closed[i], s.log, [Forward(raw)]);
    }
    assert t.log[..|t.log| - 1] == s.log;
    assert forall fd :: Registered(t, fd) ==> Registered(s, fd);
  }

  lemma DropKeepsConnections(k: Context, s: State, fd: int, refused: bool)
    requires Structure(s) && Connections(k, s) && fd in s.clients
    requires ClosedInv(k, Closed(s.clients[fd], s.links[fd], JoinOf(s, fd), |s.log|, refused), s.log)
    ensures Structure(Drop(s, fd, refused)) && Connections(k, Drop(s, fd, refused))
  {
    DropKeepsStructure(s, fd, refused);
  }

  lemma HandshakeStays(k: Context, clientPk: Bytes, l: Link, m: Link)
    requires Handshake(k, clientPk, l) && l.sent <= m.sent && (m == l || |l.sent| >= 2)
    ensures Handshake(k, clientPk, m)
  {
  }

  lemma CasualtyInv(k: Context, s: State, e: Entry, removed: seq<int>, t: State, i: nat)
    requires Structure(s) && Connections(k, s) && Explains(s, s.log + [e])
    requires Cascade(k, s, e, removed, t) && i < |removed|
    ensures ClosedInv(k, t.closed[|s.closed| + i], t.log)
  {
    hide Fed, Accounted, InSync, Handshake;
    var fd, c := removed[i], t.closed[|s.closed| + i];
    var es := Distributed(s, e, removed);
    assert Registered(s, fd) && Casualty(k, s, e, removed, i, t);
    var before, log := s.links[fd], s.log + es[..i + 1];
    assert OpenInv(k, s.clients[fd], before, s.log, c.join) && before.Valid();
    hide Structure, Connections;
    assert t.log[..c.left] == log;
    FedExactly(k, before, c.link, es[..i + 1]);
    SyncFed(k, before, c.link, s.log, es[..i + 1], c.join);
    HandshakeStays(k, c.info.clientPk, before, c.link);
    assert Joined(c.info, log, c.join) by {
      assert Joined(c.info, s.log + [e], c.join);
      assert (s.log + [e])[c.join] == log[c.join];
    }
  }

  lemma SurvivorInv(k: Context, s: State, e: Entry, removed: seq<int>, t: State, fd: int)
    requires Structure(s) && Connections(k, s) && Cascade(k, s, e, removed, t) && fd in t.clients
    ensures OpenInv(k, t.clients[fd], t.links[fd], t.log, JoinOf(t, fd))
  {
    assert OpenInv(k, s.clients[fd], s.links[fd], s.log, JoinOf(s, fd));
    if Registered(s, fd) {
      SyncFed(k, s.links[fd], t.links[fd], s.log, Distributed(s, e, removed), JoinOf(s, fd));
    }
  }

  lemma CascadeExplained(k: Context, s: State, e: Entry, removed: seq<int>, t: State)
    requires Structure(s) && Explains(s, s.log + [e]) && Cascade(k, s, e, removed, t)
    ensures Explains(t, t.log)
  {
    hide Accounted, Fed, Casualty;
    assert t.log == (s.log + [e]) + Farewells(s.clients, removed);
    assert forall i :: 0 <= i < |removed| ==> Registered(s, removed[i]);
    assert forall fd :: fd in s.clients && s.clients[fd].registered ==> Registered(s, fd);
    FarewellsAccounted(s.log + [e], s.clients, removed);
    forall fd | Registered(t, fd) ensures Joined(t.clients[fd], t.log, JoinOf(t, fd)) {
      assert Registered(s, fd);
      assert t.log[JoinOf(s, fd)] == (s.log + [e])[JoinOf(s, fd)];
    }
  }

  // A broadcast with everything it sets off keeps the invariant, given that the log explains
  // the tables once the broadcast entry is in it.
  lemma CascadeKeepsInv(k: Context, s: State, e: Entry, removed: seq<int>, t: State)
    requires Structure(s) && Connections(k, s) && Explains(s, s.log + [e])
    requires Cascade(k, s, e, removed, t)
    ensures Inv(k, t)
  {
    CascadeKeepsStructure(k, s, e, removed, t);
    CascadeExplained(k, s, e, removed, t);
    forall fd | fd in t.clients ensures OpenInv(k, t.clients[fd], t.links[fd], t.log, JoinOf(t, fd)) {
      SurvivorInv(k, s, e, removed, t, fd);
    }
    forall i | 0 <= i < |t.closed| ensures ClosedInv(k, t.closed[i], t.log) {
      CascadeClosed(k, s, e, removed, t, i);
    }
  }

  lemma CascadeClosed(k: Context, s: State, e: Entry, removed: seq<int>, t: State, i: nat)
    requires Structure(s) && Connections(k, s) && Explains(s, s.log + [e])
    requires Cascade(k, s, e, removed, t) && i < |t.closed|
    ensures ClosedInv(k, t.closed[i], t.log)
  {
    hide Structure, Explains, ClosedInv, OpenInv, Casualty, Fed, Distributed;
    if i < |s.closed| {
      assert t.closed[i] == s.closed[i];
      ClosedStays(k, s.closed[i], s.log, Distributed(s, e, removed));
    } else {
      CasualtyInv(k, s, e, removed, t, i - |s.closed|);
    }
  }

  // ------------------------------------------------------------ one event

  lemma LeaveKeepsInv(k: Context, s: State, fd: int, removed: seq<int>, t: State)
    requires Inv(k, s) && fd in s.clients && Leave(k, s, fd, false, removed, t)
    ensures Inv(k, t)
  {
    hide Handshake, InSync, Cascade;
    assert s.log[..|s.log|] == s.log;
    assert s.clients[fd].registered ==> Registered(s, fd);
    DropKeepsConnections(k, s, fd, false);
    var dropped := Drop(s, fd, false);
    assert forall a :: Registered(dropped, a) ==> Registered(s, a);
    if s.clients[fd].registered {
      var e := Disconnected(s.clients[fd].username);
      assert (s.log + [e])[..|s.log|] == s.log;
      assert s.clients[fd].username in Names(s.clients);
      forall a | Registered(dropped, a) ensures Joined(dropped.clients[a], s.log + [e], JoinOf(dropped, a)) {
        assert Joined(s.clients[a], s.log, JoinOf(s, a));
      }
      CascadeKeepsInv(k, dropped, e, removed, t);
    }
  }

  lemma HandshakeKeepsInv(k: Context, s: State, fd: int, clientPk: Bytes, t: State)
    requires Inv(k, s) && fd in s.clients && !s.clients[fd].keyExchanged && HandshakeStep(k, s, fd, clientPk, t)
    ensures Inv(k, t)
  {
    var info := s.clients[fd].(clientPk := clientPk);
    var greeted := s.links[fd].Send(k.pk);
    match k.crypto.shared(clientPk, k.sk)
    case None =>
      SendWire(s.links[fd], k.pk);
      var mid := s.(clients := s.clients[fd := info], links := s.links[fd := greeted]);
      DropUnregistered(k, s, fd, mid, false, t);
    case Some(boxKey) =>
      var nonce: Nonce :|
        t == s.(clients := s.clients[fd := info.(keyExchanged := true)],
                links := s.links[fd := greeted.Send(KeyPacket(k, boxKey, nonce))]);
      GreetedLink(k, s.links[fd], clientPk, nonce);
      ChangeUnregistered(k, s, fd, t);
  }

  // The two packets of the handshake on a fresh connection.
  lemma GreetedLink(k: Context, l: Link, clientPk: Bytes, nonce: Nonce)
    requires l == FreshLink(l.budget) && k.crypto.shared(clientPk, k.sk).Some?
    ensures var m := l.Send(k.pk).Send(KeyPacket(k, k.crypto.shared(clientPk, k.sk).value, nonce));
            && m.Valid() && Handshake(k, clientPk, m)
            && |m.sent| <= 2 && (!m.failed <==> |m.sent| == 2)
  {
    var p := KeyPacket(k, k.crypto.shared(clientPk, k.sk).value, nonce);
    assert IsKeyPacket(k, clientPk, p);
    hide IsKeyPacket, KeyPacket;
    SendWire(l, k.pk);
    SendWire(l.Send(k.pk), p);
  }

  // One unregistered connection has changed, or is new.
  predicate Changed(s: State, fd: int, t: State) {
    && fd >= 0 && !Registered(s, fd) && fd in t.clients && fd in t.links
    && t == s.(clients := s.clients[fd := t.clients[fd]], links := s.links[fd := t.links[fd]])
    && t.clients[fd].fd == fd && t.clients[fd].session == fd && !t.clients[fd].registered
    && t.links[fd].Valid()
  }

  lemma ChangeKeepsStructure(s: State, fd: int, t: State)
    requires Structure(s) && Changed(s, fd, t)
    ensures Structure(t)
  {
    SameNames(s.clients, t.clients, fd);
    forall a | Registered(t, a) ensures Registered(s, a) && t.clients[a] == s.clients[a] {
      assert a != fd;
    }
  }

  // This does not concern the others.
  lemma ChangeUnregistered(k: Context, s: State, fd: int, t: State)
    requires Inv(k, s) && Changed(s, fd, t)
    requires OpenInv(k, t.clients[fd], t.links[fd], s.log, JoinOf(s, fd))
    ensures Inv(k, t)
  {
    hide OpenInv, ClosedInv, Accounted, Joined, Names;
    assert s.links.Keys == s.clients.Keys;
    hide Structure;
    ChangeKeepsStructure(s, fd, t);
    forall a | Registered(t, a) ensures Registered(s, a) && t.clients[a] == s.clients[a] {
      assert a != fd;
    }
  }

  lemma SameNames(before: map<int, ClientInfo>, after: map<int, ClientInfo>, fd: int)
    requires after.Keys - {fd} == before.Keys - {fd}
    requires forall a :: a in before && a in after && a != fd ==> after[a] == before[a]
    requires fd in before ==> !before[fd].registered
    requires fd in after ==> !after[fd].registered
    ensures Names(after) == Names(before)
  {
    forall name ensures name in Names(after) <==> name in Names(before) {
      if name in Names(after) {
        var a :| a in after && after[a].registered && after[a].username == name;
        assert a in after.Keys - {fd};
        assert a in before && before[a] == after[a];
      }
      if name in Names(before) {
        var a :| a in before && before[a].registered && before[a].username == name;
        assert a in before.Keys - {fd};
        assert a in after && after[a] == before[a];
      }
    }
  }

  // Dropping a client that never registered, whatever was last sent to it.
  lemma DropUnregistered(k: Context, s: State, fd: int, mid: State, refused: bool, t: State)
    requires Inv(k, s) && Changed(s, fd, mid) && t == Drop(mid, fd, refused) && fd in s.clients
    requires ClosedInv(k, Closed(mid.clients[fd], mid.links[fd], JoinOf(s, fd), |s.log|, refused), s.log)
    ensures Inv(k, t)
  {
    hide OpenInv, ClosedInv, Accounted, Joined, Names;
    assert s.links.Keys == s.clients.Keys;
    hide Structure;
    ChangeKeepsStructure(s, fd, mid);
    DropKeepsStructure(mid, fd, refused);
    forall a | a in t.clients ensures a in s.clients && t.clients[a] == s.clients[a] && t.links[a] == s.links[a] {
      assert a != fd;
    }
    forall a | Registered(t, a) ensures Registered(s, a) {
    }
  }

  lemma RefusalSent(k: Context, l: Link, p: Bytes)
    requires l.Valid() && |l.sent| <= 2 && (!l.failed <==> |l.sent| == 2)
    requires k.Open(p) == Some(USERNAME_TAKEN)
    ensures RefusedLink(k, l.Send(p))
  {
    var m := l.Send(p);
    if |l.sent| == 2 && m.failed {
      assert l.tail + Frame(p)[..l.budget] == Frame(p)[..l.budget];
      assert m.tail < Frame(p);
    }
  }

  lemma RefuseKeepsInv(k: Context, s: State, fd: int, t: State)
    requires Inv(k, s) && fd in s.clients && s.clients[fd].keyExchanged && !s.clients[fd].registered
    requires RefuseStep(k, s, fd, t)
    ensures Inv(k, t)
  {
    var p: Bytes :| k.Open(p) == Some(USERNAME_TAKEN)
                    && t == Drop(s.(links := s.links[fd := s.links[fd].Send(p)]), fd, true);
    SendWire(s.links[fd], p);
    RefusalSent(k, s.links[fd], p);
    var mid := s.(links := s.links[fd := s.links[fd].Send(p)]);
    assert s.clients[fd := s.clients[fd]] == s.clients;
    DropUnregistered(k, s, fd, mid, true, t);
  }

  lemma AdmitKeepsInv(k: Context, s: State, fd: int, name: Bytes, removed: seq<int>, t: State)
    requires Inv(k, s) && fd in s.clients && s.clients[fd].keyExchanged && !s.clients[fd].registered
    requires name !in s.usernames
    requires Cascade(k, Admit(s, fd, name), Connected(name), removed, t)
    ensures Inv(k, t)
  {
    AdmitStructure(s, fd, name);
    AdmitConnections(k, s, fd, name);
    AdmitExplained(k, s, fd, name);
    hide Structure, Connections, Explains, Admit, Cascade, Inv;
    CascadeKeepsInv(k, Admit(s, fd, name), Connected(name), removed, t);
  }

  lemma AdmitConnections(k: Context, s: State, fd: int, name: Bytes)
    requires Inv(k, s) && fd in s.clients && s.clients[fd].keyExchanged && !s.clients[fd].registered
    requires Structure(Admit(s, fd, name))
    ensures Connections(k, Admit(s, fd, name))
  {
    assert s.links.Keys == s.clients.Keys;
    hide Structure, Explains, ClosedInv, Handshake;
    var a := Admit(s, fd, name);
    forall b | b in a.clients ensures OpenInv(k, a.clients[b], a.links[b], a.log, JoinOf(a, b)) {
      assert OpenInv(k, s.clients[b], s.links[b], s.log, JoinOf(s, b));
      assert b == fd ==> s.log[|s.log|..|s.log|] == [];
    }
  }

  lemma AdmitExplained(k: Context, s: State, fd: int, name: Bytes)
    requires Inv(k, s) && fd in s.clients && !s.clients[fd].registered && name !in s.usernames
    ensures Explains(Admit(s, fd, name), s.log + [Connected(name)])
  {
    hide Structure, Connections;
    var a, log := Admit(s, fd, name), s.log + [Connected(name)];
    assert log[..|s.log|] == s.log;
    forall b | Registered(a, b) ensures Joined(a.clients[b], log, JoinOf(a, b)) {
      if b != fd {
        assert Registered(s, b) && Joined(s.clients[b], s.log, JoinOf(s, b));
      }
    }
  }

  lemma AdmitNames(s: State, fd: int, name: Bytes)
    requires Structure(s) && fd in s.clients && !s.clients[fd].registered
    ensures Names(Admit(s, fd, name).clients) == s.usernames + {name}
  {
    var a := Admit(s, fd, name);
    assert a.clients[fd].registered && a.clients[fd].username == name;
    forall n | n in s.usernames ensures n in Names(a.clients) {
      var b :| b in s.clients && s.clients[b].registered && s.clients[b].username == n;
      assert b in a.clients && a.clients[b] == s.clients[b];
    }
    forall n | n in Names(a.clients) ensures n in s.usernames + {name} {
      var b :| b in a.clients && a.clients[b].registered && a.clients[b].username == n;
      assert b != fd ==> a.clients[b] == s.clients[b];
    }
  }

  lemma AdmitStructure(s: State, fd: int, name: Bytes)
    requires Structure(s) && fd in s.clients && s.clients[fd].keyExchanged && !s.clients[fd].registered
    requires name !in s.usernames
    ensures Structure(Admit(s, fd, name))
  {
    var a := Admit(s, fd, name);
    AdmitNames(s, fd, name);
    forall b | Registered(a, b) && b != fd ensures Registered(s, b) && a.clients[b].username != name {
      assert s.clients[b].username in Names(s.clients);
    }
  }

  // Every event keeps the invariant.
  lemma StepKeepsInv(k: Context, s: State, ev: Event, t: State)
    requires Inv(k, s) && Step(k, s, ev, t)
    ensures Inv(k, t)
  {
    match ev
    case Accepted(fd, budget, polled) =>
      if polled {
        ChangeUnregistered(k, s, fd, t);
      }
    case Readable(fd, packet) =>
      if !s.clients[fd].keyExchanged {
        if packet.Some? && |packet.value| == PUBLIC_KEY_BYTES {
          HandshakeKeepsInv(k, s, fd, packet.value, t);
        }
      } else if packet.None? {
        LeaveStepKeepsInv(k, s, fd, t);
      } else if s.clients[fd].registered {
        RoundKeepsInv(k, s, packet.value, t);
      } else if k.Open(packet.value).None? {
        LeaveStepKeepsInv(k, s, fd, t);
      } else if k.Open(packet.value).value in s.usernames {
        RefuseKeepsInv(k, s, fd, t);
      } else {
        var name := k.Open(packet.value).value;
        var removed :| Cascade(k, Admit(s, fd, name), Connected(name), removed, t);
        AdmitKeepsInv(k, s, fd, name, removed, t);
      }
  }

  lemma LeaveStepKeepsInv(k: Context, s: State, fd: int, t: State)
    requires Inv(k, s) && fd in s.clients && LeaveStep(k, s, fd, t)
    ensures Inv(k, t)
  {
    var removed :| Leave(k, s, fd, false, removed, t);
    LeaveKeepsInv(k, s, fd, removed, t);
  }

  // ------------------------------------------------------------ runs

  ghost predicate Run(k: Context, states: seq<State>, events: seq<Event>) {
    && |states| == |events| + 1
    && forall i :: 0 <= i < |events| ==> Step(k, states[i], events[i], states[i + 1])
  }

  // Every state of every run of the server, for all clients, packets, failures and orders.
  lemma {:induction false} RunsKeepInv(k: Context, states: seq<State>, events: seq<Event>, n: nat)
    requires Run(k, states, events) && Inv(k, states[0]) && n <= |events|
    ensures Inv(k, states[n])
    decreases n
  {
    if n != 0 {
      RunsKeepInv(k, states, events, n - 1);
      StepKeepsInv(k, states[n - 1], events[n - 1], states[n]);
    }
  }

  // ------------------------------------------------------------ two runs

  lemma GreetedState(k: Context, s: State, fd: int, clientPk: Bytes, boxKey: Bytes, nonce: Nonce, t: State)
    requires fd in s.clients && fd in s.links && k.crypto.shared(clientPk, k.sk) == Some(boxKey)
    requires t == s.(
      clients := s.clients[fd := s.clients[fd].(clientPk := clientPk).(keyExchanged := true)],
      links := s.links[fd := s.links[fd].Send(k.pk).Send(KeyPacket(k, boxKey, nonce))])
    ensures HandshakeStep(k, s, fd, clientPk, t)
  {
  }

  // The server gets to have somebody connected.
  lemma SomebodyConnects(k: Context, fd: int, budget: nat) returns (states: seq<State>, events: seq<Event>)
    requires fd >= 0
    ensures Run(k, states, events) && states[0] == INITIAL && |events| == 1
    ensures states[1] == INITIAL.(clients := map[fd := NewClient(fd)], links := map[fd := FreshLink(budget)])
  {
    events := [Accepted(fd, budget, true)];
    states := [INITIAL, INITIAL.(clients := map[fd := NewClient(fd)], links := map[fd := FreshLink(budget)])];
    assert Step(k, states[0], events[0], states[1]);
  }

  // From the start, a connection, a handshake and then any packet that has room for a nonce but
  // not for an authentication tag bring the server to its fault.
  lemma FaultIsReachable(k: Context, fd: int, budget: nat, clientPk: Bytes, p: Bytes)
    returns (states: seq<State>, events: seq<Event>)
    requires fd >= 0 && |clientPk| == PUBLIC_KEY_BYTES && k.crypto.shared(clientPk, k.sk).Some?
    requires NONCE_BYTES <= |p| < NONCE_BYTES + MAC_BYTES
    ensures Run(k, states, events) && states[0] == INITIAL && |events| == 2
    ensures Faults(states[2], Readable(fd, Some(p)))
  {
    states, events := SomebodyConnects(k, fd, budget);
    var s := states[1];
    var nonce: Nonce := Zeros(NONCE_BYTES);
    var boxKey := k.crypto.shared(clientPk, k.sk).value;
    var t := s.(
      clients := s.clients[fd := s.clients[fd].(clientPk := clientPk).(keyExchanged := true)],
      links := s.links[fd := s.links[fd].Send(k.pk).Send(KeyPacket(k, boxKey, nonce))]);
    GreetedState(k, s, fd, clientPk, boxKey, nonce, t);
    states, events := states + [t], events + [Readable(fd, Some(clientPk))];
    assert Step(k, states[1], events[1], states[2]);
    SizeWrapsExactly(|p|);
  }
}

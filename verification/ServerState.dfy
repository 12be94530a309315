/** The state of the chat server and what its operations may do to it. */
module ServerState {
  import opened Octets
  import opened Framing
  import opened Secretbox

  const PUBLIC_KEY_BYTES := 32

  // What the server is constructed with: the primitives, its key pair and the group key.
  datatype Context = Context(crypto: Crypto, pk: Bytes, sk: Bytes, groupKey: Bytes) {
    ghost predicate WellFormed() {
      && Ideal(crypto)
      && pk == crypto.publicKey(sk)
      && |pk| == PUBLIC_KEY_BYTES
      && |groupKey| == KEY_BYTES
    }

    function Open(p: Bytes): Option<Bytes> {
      OpenPacket(crypto, groupKey, p)
    }
  }

  datatype ClientInfo = ClientInfo(
    username: Bytes, session: int, clientPk: Bytes, fd: int, registered: bool, keyExchanged: bool)

  function NewClient(fd: int): ClientInfo {
    ClientInfo([], fd, [], fd, false, false)
  }

  // What the server distributes to all registered clients: its own two notices and what the
  // clients send.
  datatype Entry = Connected(name: Bytes) | Disconnected(name: Bytes) | Forward(raw: Bytes)

  const USERNAME_TAKEN: Bytes := Ascii("SERVER::USERNAME_TAKEN")
  const HAS_CONNECTED: Bytes := Ascii(" has connected")
  const HAS_DISCONNECTED: Bytes := Ascii(" has disconnected")

  function Notice(e: Entry): Bytes
    requires !e.Forward?
  {
    e.name + if e.Connected? then HAS_CONNECTED else HAS_DISCONNECTED
  }

  // A connection that is over: its last state, and how much had been distributed by then.
  datatype Closed = Closed(info: ClientInfo, link: Link, join: nat, left: nat, refused: bool)

  /**
   `clients` and `usernames` are the server's tables; `links` are the accepted sockets that are
   open in the kernel. The rest is history: everything distributed so far, where in it each
   client joined, and the connections that are over.
   */
  datatype State = State(
    clients: map<int, ClientInfo>,
    usernames: set<Bytes>,
    links: map<int, Link>,
    log: seq<Entry>,
    joins: map<int, nat>,
    closed: seq<Closed>)

  predicate Registered(s: State, fd: int) {
    fd in s.clients && s.clients[fd].registered
  }

  function NameOf(clients: map<int, ClientInfo>, fd: int): Bytes {
    if fd in clients then clients[fd].username else []
  }

  function Names(clients: map<int, ClientInfo>): set<Bytes> {
    set fd | fd in clients && clients[fd].registered :: clients[fd].username
  }

  // The two tables and the kernel agree.
  ghost predicate Structure(s: State) {
    && s.links.Keys == s.clients.Keys
    && s.usernames == Names(s.clients)
    && (forall fd :: fd in s.clients ==>
          && fd >= 0 && s.clients[fd].fd == fd && s.clients[fd].session == fd
          && s.links[fd].Valid())
    && (forall fd :: Registered(s, fd) ==> s.clients[fd].keyExchanged && fd in s.joins)
    && (forall a, b :: Registered(s, a) && Registered(s, b) && a != b ==>
          s.clients[a].username != s.clients[b].username)
  }

  // ------------------------------------------------------------ sending

  // A packet delivers an entry: a notice sealed under the group key, or the very packet forwarded.
  ghost predicate Carries(k: Context, p: Bytes, e: Entry) {
    match e
    case Forward(raw) => p == raw
    case _ => k.Open(p) == Some(Notice(e)) && |p| == NONCE_BYTES + MAC_BYTES + |Notice(e)|
  }

  ghost predicate CarryAll(k: Context, ps: seq<Bytes>, es: seq<Entry>) {
    |ps| == |es| && forall i :: 0 <= i < |ps| ==> Carries(k, ps[i], es[i])
  }

  // m is l after being sent the entries in order, under whatever nonces.
  ghost predicate Fed(k: Context, l: Link, m: Link, es: seq<Entry>) {
    exists ps :: CarryAll(k, ps, es) && m == l.SendAll(ps)
  }

  // One round of sending: every registered client is sent the entry, nobody else anything.
  ghost predicate Round(k: Context, s: State, e: Entry, t: State) {
    && t == s.(log := s.log + [e], links := t.links)
    && t.links.Keys == s.links.Keys
    && (forall fd :: fd in s.links ==>
          if Registered(s, fd) then Fed(k, s.links[fd], t.links[fd], [e]) else t.links[fd] == s.links[fd])
  }

  // ------------------------------------------------------------ leaving

  function JoinOf(s: State, fd: int): nat {
    if fd in s.joins then s.joins[fd] else 0
  }

  // A client is taken out of both tables and its socket is closed.
  function Drop(s: State, fd: int, refused: bool): State
    requires fd in s.clients && fd in s.links
  {
    var info := s.clients[fd];
    s.(clients := s.clients - {fd},
       links := s.links - {fd},
       usernames := if info.registered then s.usernames - {info.username} else s.usernames,
       closed := s.closed + [Closed(info, s.links[fd], JoinOf(s, fd), |s.log|, refused)])
  }

  function Elements(fds: seq<int>): set<int> {
    set fd | fd in fds
  }

  predicate NoDuplicates(fds: seq<int>) {
    forall i, j :: 0 <= i < j < |fds| ==> fds[i] != fds[j]
  }

  // One "has disconnected" notice per removed client, in the order of removal.
  function Farewells(clients: map<int, ClientInfo>, removed: seq<int>): seq<Entry> {
    seq(|removed|, i requires 0 <= i < |removed| => Disconnected(NameOf(clients, removed[i])))
  }

  // Everything a broadcast of e distributes when it removes these clients in this order.
  function Distributed(s: State, e: Entry, removed: seq<int>): seq<Entry> {
    [e] + Farewells(s.clients, removed)
  }

  // The record left of the i-th client that a broadcast removes: it was sent everything up to,
  // but not including, its own farewell, and its link failed on the way.
  ghost predicate Casualty(k: Context, s: State, e: Entry, removed: seq<int>, i: nat, t: State)
    requires i < |removed| && removed[i] in s.clients && removed[i] in s.links
    requires |t.closed| == |s.closed| + |removed|
  {
    var fd, c := removed[i], t.closed[|s.closed| + i];
    && c.info == s.clients[fd] && c.join == JoinOf(s, fd) && !c.refused
    && c.left == |s.log| + i + 1
    && Fed(k, s.links[fd], c.link, Distributed(s, e, removed)[..i + 1])
    && c.link.failed
  }

  /**
   The whole effect of broadcasting e, nested broadcasts included: `removed` are the clients
   disconnected, in order. Every registered client that is left was sent all that was
   distributed and its link still works; nobody else was touched.
   */
  ghost predicate Cascade(k: Context, s: State, e: Entry, removed: seq<int>, t: State) {
    && s.links.Keys == s.clients.Keys
    && NoDuplicates(removed)
    && (forall i :: 0 <= i < |removed| ==> Registered(s, removed[i]))
    && t.clients == s.clients - Elements(removed)
    && t.usernames == Names(t.clients)
    && t.links.Keys == t.clients.Keys
    && t.log == s.log + Distributed(s, e, removed)
    && t.joins == s.joins
    && (forall fd :: fd in t.clients ==>
          if Registered(s, fd)
          then Fed(k, s.links[fd], t.links[fd], Distributed(s, e, removed)) && !t.links[fd].failed
          else t.links[fd] == s.links[fd])
    && |t.closed| == |s.closed| + |removed|
    && s.closed <= t.closed
    && (forall i :: 0 <= i < |removed| ==> Casualty(k, s, e, removed, i, t))
  }

  // A client leaves: dropped, and if it was registered everybody else is told.
  ghost predicate Leave(k: Context, s: State, fd: int, refused: bool, removed: seq<int>, t: State)
    requires fd in s.clients && fd in s.links
  {
    var dropped := Drop(s, fd, refused);
    if s.clients[fd].registered
    then Cascade(k, dropped, Disconnected(s.clients[fd].username), removed, t)
    else removed == [] && t == dropped
  }

  // ------------------------------------------------------------ events

  // What the event loop reacts to. For a readable client, what RecvPacket returned.
  datatype Event =
    | Accepted(newFd: int, budget: nat, polled: bool)
    | Readable(fd: int, packet: Option<Bytes>)

  const SIZE_WRAP := 0x1_0000_0000_0000_0000  // one more than the largest size_t
  const MAX_ALLOCATION := 0x7fff_ffff_ffff_ffff  // the most bytes a vector can be asked for

  // The plaintext size that Register computes from a packet that holds a nonce, in size_t.
  function PlaintextSize(packetSize: nat): (n: nat)
    requires NONCE_BYTES <= packetSize
  {
    (packetSize - NONCE_BYTES - MAC_BYTES) % SIZE_WRAP
  }

  // The buffer for the username cannot be allocated, which throws.
  predicate Faults(s: State, ev: Event) {
    && ev.Readable? && ev.fd in s.clients
    && s.clients[ev.fd].keyExchanged && !s.clients[ev.fd].registered
    && ev.packet.Some? && NONCE_BYTES <= |ev.packet.value|
    && PlaintextSize(|ev.packet.value|) > MAX_ALLOCATION
  }

  // For a packet that RecvPacket can return, the size wraps around to an impossible one exactly
  // when the packet has room for the nonce but not for the authentication tag.
  lemma SizeWrapsExactly(packetSize: nat)
    requires NONCE_BYTES <= packetSize < WRAP
    ensures PlaintextSize(packetSize) > MAX_ALLOCATION <==> packetSize < NONCE_BYTES + MAC_BYTES
    ensures packetSize >= NONCE_BYTES + MAC_BYTES ==> PlaintextSize(packetSize) == packetSize - NONCE_BYTES - MAC_BYTES
  {
    if packetSize < NONCE_BYTES + MAC_BYTES {
      var n := packetSize - NONCE_BYTES - MAC_BYTES;
      assert n % SIZE_WRAP == n + SIZE_WRAP;
    }
  }

  ghost predicate AcceptStep(s: State, fd: int, budget: nat, polled: bool, t: State) {
    && fd >= 0 && fd !in s.links
    && t == if polled
            then s.(clients := s.clients[fd := NewClient(fd)], links := s.links[fd := FreshLink(budget)])
            else s
  }

  // The payload of the second handshake packet.
  function KeyPacket(k: Context, boxKey: Bytes, nonce: Nonce): Bytes {
    SealPacket(k.crypto, boxKey, nonce, k.groupKey)
  }

  ghost predicate HandshakeStep(k: Context, s: State, fd: int, clientPk: Bytes, t: State)
    requires fd in s.clients && fd in s.links
  {
    var info := s.clients[fd].(clientPk := clientPk);
    var greeted := s.links[fd].Send(k.pk);
    match k.crypto.shared(clientPk, k.sk)
    case None =>
      t == Drop(s.(clients := s.clients[fd := info], links := s.links[fd := greeted]), fd, false)
    case Some(boxKey) =>
      exists nonce: Nonce ::
        t == s.(clients := s.clients[fd := info.(keyExchanged := true)],
                links := s.links[fd := greeted.Send(KeyPacket(k, boxKey, nonce))])
  }

  // The state in which the broadcast of a new client's arrival starts.
  function Admit(s: State, fd: int, name: Bytes): State
    requires fd in s.clients
  {
    s.(clients := s.clients[fd := s.clients[fd].(username := name, registered := true)],
       usernames := s.usernames + {name},
       joins := s.joins[fd := |s.log|])
  }

  ghost predicate RefuseStep(k: Context, s: State, fd: int, t: State)
    requires fd in s.clients && fd in s.links
  {
    exists p: Bytes ::
      && k.Open(p) == Some(USERNAME_TAKEN)
      && t == Drop(s.(links := s.links[fd := s.links[fd].Send(p)]), fd, true)
  }

  ghost predicate LeaveStep(k: Context, s: State, fd: int, t: State)
    requires fd in s.clients && fd in s.links
  {
    exists removed :: Leave(k, s, fd, false, removed, t)
  }

  ghost predicate UsernameStep(k: Context, s: State, fd: int, p: Bytes, t: State)
    requires fd in s.clients && fd in s.links
  {
    if k.Open(p).None? then LeaveStep(k, s, fd, t)
    else
      var name := k.Open(p).value;
      if name in s.usernames then RefuseStep(k, s, fd, t)
      else exists removed :: Cascade(k, Admit(s, fd, name), Connected(name), removed, t)
  }

  // One event that does not fault.
  ghost predicate Step(k: Context, s: State, ev: Event, t: State) {
    !Faults(s, ev) &&
    match ev
    case Accepted(fd, budget, polled) => AcceptStep(s, fd, budget, polled, t)
    case Readable(fd, packet) =>
      fd in s.clients && fd in s.links &&
      if !s.clients[fd].keyExchanged then
        if packet.None? || |packet.value| != PUBLIC_KEY_BYTES then t == s
        else HandshakeStep(k, s, fd, packet.value, t)
      else if packet.None? then LeaveStep(k, s, fd, t)
      else if !s.clients[fd].registered then UsernameStep(k, s, fd, packet.value, t)
      else Round(k, s, Forward(packet.value), t)
  }
}

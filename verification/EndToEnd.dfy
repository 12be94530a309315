/** The server, the wire and the client program together. */
module EndToEnd {
  import opened Octets
  import opened Framing
  import opened Secretbox
  import opened ServerState
  import opened Cascades
  import opened ServerRuns
  import opened Delivery
  import opened ClientProgram
  import opened Greeting
  import Shutdown

  // ------------------------------------------------------------ the client's view

  /**
   One client in the chat: how much of its wire it has read, the message it has just decrypted,
   the messages queued for the screen and those printed.
   */
  datatype View = View(consumed: nat, current: seq<Bytes>, queued: seq<Bytes>, printed: seq<Bytes>)

  // All the messages in a stream of whole frames.
  function Packets(bytes: Bytes): seq<Bytes>
    decreases |bytes|
  {
    var read := ReadPacket(Source(bytes, Broken));
    if read.packet.None? then [] else [read.packet.value] + Packets(read.rest.bytes)
  }

  function Messages(k: Context, ps: seq<Bytes>): seq<Bytes> {
    seq(|ps|, i requires 0 <= i < |ps| =>
      match Decrypt(k.crypto, k.groupKey, ps[i])
      case Some(m) => m
      case None => [])
  }

  function Unread(l: Link, v: View): Bytes {
    if v.consumed <= |l.Wire()| then l.Wire()[v.consumed..] else []
  }

  // Everything on its way to the reader or in its hands, oldest first.
  function Seen(k: Context, l: Link, v: View): seq<Bytes> {
    v.printed + v.queued + v.current + Messages(k, Packets(Unread(l, v)))
  }

  // What the log means to its readers.
  function Meanings(k: Context, log: seq<Entry>): seq<Bytes> {
    seq(|log|, i requires 0 <= i < |log| =>
      match Meaning(k, log[i])
      case Some(m) => m
      case None => [])
  }

  // The reader stands at a frame boundary, and has in hand what it has read so far.
  ghost predicate InStep(k: Context, l: Link, v: View, n: nat) {
    && |l.sent| >= 2 && n <= |Delivered(l)|
    && v.consumed == |FrameAll(l.sent[..2 + n])|
    && v.printed + v.queued + v.current == Messages(k, Delivered(l)[..n])
  }

  ghost predicate ViewInv(k: Context, l: Link, v: View) {
    exists n: nat :: InStep(k, l, v, n)
  }

  // The server handles an event; or the receiving thread takes a packet off the wire, or hands
  // the message on; or the screen thread prints what is queued.
  datatype Turn = ServerTurn(ev: Event) | ReceiveTurn | PushTurn | PrintTurn

  ghost predicate Take(k: Context, fd: int, s: State, v: View, turn: Turn, t: State, w: View)
    requires fd in s.links
  {
    match turn
    case ServerTurn(ev) =>
      Step(k, s, ev, t) && w == v
    case ReceiveTurn =>
      var read := ReadPacket(Source(Unread(s.links[fd], v), Broken));
      && t == s && v.current == [] && read.packet.Some?
      && Decrypt(k.crypto, k.groupKey, read.packet.value).Some?
      && w == v.(consumed := |s.links[fd].Wire()| - |read.rest.bytes|,
                 current := [Decrypt(k.crypto, k.groupKey, read.packet.value).value])
    case PushTurn =>
      t == s && w == v.(queued := v.queued + v.current, current := [])
    case PrintTurn =>
      t == s && w == v.(printed := v.printed + v.queued, queued := [])
  }

  // The client is in the chat and its link works.
  predicate Live(s: State, fd: int) {
    Registered(s, fd) && fd in s.links && !s.links[fd].failed
  }

  // And it is in step with a log of conforming entries.
  ghost predicate Attending(k: Context, s: State, fd: int) {
    && Live(s, fd) && AllConforming(k, s.log)
    && s.links[fd].Valid() && InSync(k, s.links[fd], s.log, JoinOf(s, fd))
  }

  lemma LiveAttends(k: Context, s: State, fd: int)
    requires Inv(k, s) && AllConforming(k, s.log) && Live(s, fd)
    ensures Attending(k, s, fd)
  {
    assert OpenInv(k, s.clients[fd], s.links[fd], s.log, JoinOf(s, fd));
  }

  lemma ConformingPacket(k: Context, p: Bytes, e: Entry)
    requires k.WellFormed() && Conforming(k, e) && Carries(k, p, e)
    ensures |p| < WRAP
    ensures Decrypt(k.crypto, k.groupKey, p) == Meaning(k, e)
    ensures Meaning(k, e).Some? && Meaning(k, e).value != USERNAME_TAKEN
  {
    ConformingMeaning(k, p, e);
    OpensExactly(k.crypto, k.groupKey, p, k.Open(p).value);
  }

  // Packets that can be framed and shown.
  ghost predicate Showable(k: Context, ps: seq<Bytes>) {
    && Framable(ps)
    && forall i :: 0 <= i < |ps| ==>
         && Decrypt(k.crypto, k.groupKey, ps[i]).Some?
         && Decrypt(k.crypto, k.groupKey, ps[i]).value != USERNAME_TAKEN
  }

  ghost predicate Readable(k: Context, l: Link) {
    |l.sent| >= 2 && l.tail == [] && Showable(k, Delivered(l))
  }

  lemma SliceShowable(k: Context, d: seq<Bytes>, log: seq<Entry>, join: nat)
    requires k.WellFormed() && AllConforming(k, log)
    requires join + |d| <= |log| && CarryAll(k, d, log[join..join + |d|])
    ensures Showable(k, d) && Messages(k, d) == Meanings(k, log[join..join + |d|])
  {
    var slice := log[join..join + |d|];
    forall i | 0 <= i < |d|
      ensures |d[i]| < WRAP
      ensures Decrypt(k.crypto, k.groupKey, d[i]) == Meaning(k, slice[i])
      ensures Meaning(k, slice[i]).Some? && Meaning(k, slice[i]).value != USERNAME_TAKEN
    {
      assert Carries(k, d[i], slice[i]) && slice[i] == log[join + i];
      ConformingPacket(k, d[i], slice[i]);
    }
  }

  lemma AttendingLink(k: Context, s: State, fd: int)
    requires k.WellFormed() && Attending(k, s, fd)
    ensures var l := s.links[fd];
            Readable(k, l) && Messages(k, Delivered(l)) == Meanings(k, s.log[JoinOf(s, fd)..])
  {
    SliceShowable(k, Delivered(s.links[fd]), s.log, JoinOf(s, fd));
    assert s.log[JoinOf(s, fd)..|s.log|] == s.log[JoinOf(s, fd)..];
  }

  lemma {:induction false} PacketsOfFrames(ps: seq<Bytes>)
    requires Framable(ps)
    ensures Packets(FrameAll(ps)) == ps
  {
    if ps == [] {
      FailsExactly(Source([], Broken));
    } else {
      RoundTripExactly(ps[0], FrameAll(ps[1..]), Broken);
      PacketsOfFrames(ps[1..]);
      assert ps == [ps[0]] + ps[1..];
    }
  }

  // What a reader in step has not read yet.
  lemma UnreadFrames(k: Context, l: Link, v: View, n: nat)
    requires Readable(k, l) && InStep(k, l, v, n)
    ensures Unread(l, v) == FrameAll(Delivered(l)[n..])
    ensures |l.Wire()| == v.consumed + |Unread(l, v)|
  {
    FrameAllSplit(l.sent, 2 + n);
    assert l.sent[2 + n..] == Delivered(l)[n..];
    assert l.Wire() == FrameAll(l.sent[..2 + n]) + FrameAll(l.sent[2 + n..]);
  }

  // The next packet that a reader in step gets, if there is one.
  lemma NextPacket(k: Context, l: Link, v: View, n: nat)
    requires Readable(k, l) && InStep(k, l, v, n)
    ensures var read := ReadPacket(Source(Unread(l, v), Broken));
            if n < |Delivered(l)|
            then read == Read(Some(Delivered(l)[n]), Source(FrameAll(Delivered(l)[n + 1..]), Broken))
            else read.packet.None? && Unread(l, v) == []
  {
    var d := Delivered(l);
    UnreadFrames(k, l, v, n);
    if n < |d| {
      assert d[n..][1..] == d[n + 1..];
      assert FrameAll(d[n..]) == Frame(d[n]) + FrameAll(d[n + 1..]);
      RoundTripExactly(d[n], FrameAll(d[n + 1..]), Broken);
    } else {
      assert d[n..] == [];
      FailsExactly(Source([], Broken));
    }
  }

  lemma SeenIsDelivered(k: Context, l: Link, v: View)
    requires Readable(k, l) && ViewInv(k, l, v)
    ensures Seen(k, l, v) == Messages(k, Delivered(l))
  {
    var n: nat :| InStep(k, l, v, n);
    var d := Delivered(l);
    UnreadFrames(k, l, v, n);
    PacketsOfFrames(d[n..]);
    MessagesSplit(k, d, n);
  }

  lemma MessagesSplit(k: Context, d: seq<Bytes>, n: nat)
    requires n <= |d|
    ensures Messages(k, d) == Messages(k, d[..n]) + Messages(k, d[n..])
  {
  }

  // The client's view is the log from its arrival on.
  lemma SeenIsLog(k: Context, s: State, fd: int, v: View)
    requires k.WellFormed() && Attending(k, s, fd) && ViewInv(k, s.links[fd], v)
    ensures Seen(k, s.links[fd], v) == Meanings(k, s.log[JoinOf(s, fd)..])
  {
    AttendingLink(k, s, fd);
    SeenIsDelivered(k, s.links[fd], v);
  }

  lemma ReceiveSucceeds(k: Context, s: State, fd: int, v: View)
    requires k.WellFormed() && Attending(k, s, fd) && ViewInv(k, s.links[fd], v)
    requires Unread(s.links[fd], v) != []
    ensures var read := ReadPacket(Source(Unread(s.links[fd], v), Broken));
            && read.packet.Some?
            && Decrypt(k.crypto, k.groupKey, read.packet.value).Some?
            && Decrypt(k.crypto, k.groupKey, read.packet.value).value != USERNAME_TAKEN
  {
    var n: nat :| InStep(k, s.links[fd], v, n);
    AttendingLink(k, s, fd);
    NextPacket(k, s.links[fd], v, n);
  }

  lemma ReceiveKeepsStep(k: Context, l: Link, v: View, w: View, n: nat)
    requires Readable(k, l) && InStep(k, l, v, n) && v.current == [] && n < |Delivered(l)|
    requires w.consumed + |FrameAll(Delivered(l)[n + 1..])| == |l.Wire()|
    requires w == v.(consumed := w.consumed, current := [Decrypt(k.crypto, k.groupKey, Delivered(l)[n]).value])
    ensures InStep(k, l, w, n + 1)
  {
    var d := Delivered(l);
    hide Decrypt, Frame;
    FrameAllSplit(l.sent, 2 + n + 1);
    assert d[n + 1..] == l.sent[2 + n + 1..];
    assert Messages(k, d[..n + 1]) == Messages(k, d[..n]) + w.current;
  }

  lemma GrowKeepsStep(k: Context, l: Link, m: Link, v: View, n: nat)
    requires InStep(k, l, v, n) && l.sent <= m.sent
    ensures InStep(k, m, v, n)
  {
    assert m.sent[..2 + n] == l.sent[..2 + n];
    assert Delivered(m)[..n] == Delivered(l)[..n];
  }

  lemma ReceiveKeepsView(k: Context, s: State, fd: int, v: View, w: View)
    requires k.WellFormed() && fd in s.links && Readable(k, s.links[fd])
    requires ViewInv(k, s.links[fd], v) && Take(k, fd, s, v, ReceiveTurn, s, w)
    ensures ViewInv(k, s.links[fd], w)
  {
    var l := s.links[fd];
    var n: nat :| InStep(k, l, v, n);
    NextPacket(k, l, v, n);
    ReceiveKeepsStep(k, l, v, w, n);
  }

  lemma ServerKeepsView(k: Context, s: State, fd: int, v: View, ev: Event, t: State)
    requires Inv(k, s) && Registered(s, fd) && fd in s.links && fd in t.clients && fd in t.links
    requires ViewInv(k, s.links[fd], v) && Step(k, s, ev, t)
    ensures ViewInv(k, t.links[fd], v)
  {
    hide Inv;
    var n: nat :| InStep(k, s.links[fd], v, n);
    StepGrows(k, s, ev, t, fd);
    GrowKeepsStep(k, s.links[fd], t.links[fd], v, n);
  }

  lemma HandOn(k: Context, l: Link, v: View, w: View)
    requires ViewInv(k, l, v) && w.consumed == v.consumed
    requires w.printed + w.queued + w.current == v.printed + v.queued + v.current
    ensures ViewInv(k, l, w)
  {
    var n: nat :| InStep(k, l, v, n);
    assert InStep(k, l, w, n);
  }

  lemma TakeKeepsView(k: Context, s: State, fd: int, v: View, turn: Turn, t: State, w: View)
    requires k.WellFormed() && Inv(k, s) && AllConforming(k, s.log) && Live(s, fd) && Live(t, fd)
    requires ViewInv(k, s.links[fd], v) && Take(k, fd, s, v, turn, t, w)
    requires turn.ServerTurn? ==> ConformingEvent(k, s, turn.ev)
    ensures Inv(k, t) && AllConforming(k, t.log) && ViewInv(k, t.links[fd], w)
  {
    hide Inv, ViewInv, Step, AllConforming, ConformingEvent;
    if turn.ServerTurn? {
      StepKeepsInv(k, s, turn.ev, t);
      StepConforms(k, s, turn.ev, t);
      ServerKeepsView(k, s, fd, v, turn.ev, t);
    } else if turn.ReceiveTurn? {
      LiveAttends(k, s, fd);
      AttendingLink(k, s, fd);
      ReceiveKeepsView(k, s, fd, v, w);
    } else {
      HandOn(k, s.links[fd], v, w);
    }
  }

  // The server's past, a run of conforming clients; and then a run of the server and of the
  // threads of one client, from the moment it is in the chat and has read the handshake.
  ghost predicate Session(k: Context, fd: int, past: seq<State>, pastEvents: seq<Event>,
                          states: seq<State>, views: seq<View>, turns: seq<Turn>) {
    && ConformingRun(k, past, pastEvents)
    && |states| == |views| == |turns| + 1
    && states[0] == past[|pastEvents|] && views[0] == View(HandshakeLength(k), [], [], [])
    && (forall i :: 0 <= i < |states| ==> Live(states[i], fd))
    && (forall i :: 0 <= i < |turns| ==> ConformingTurn(k, fd, states[i], views[i], turns[i], states[i + 1], views[i + 1]))
  }

  ghost predicate ConformingTurn(k: Context, fd: int, s: State, v: View, turn: Turn, t: State, w: View) {
    && fd in s.links && Take(k, fd, s, v, turn, t, w)
    && (turn.ServerTurn? ==> ConformingEvent(k, s, turn.ev))
  }

  lemma {:induction false} SessionsKeepView(
    k: Context, fd: int, past: seq<State>, pastEvents: seq<Event>,
    states: seq<State>, views: seq<View>, turns: seq<Turn>, n: nat)
    requires k.WellFormed() && Session(k, fd, past, pastEvents, states, views, turns) && n <= |turns|
    ensures Inv(k, states[n]) && AllConforming(k, states[n].log)
    ensures Live(states[n], fd) && ViewInv(k, states[n].links[fd], views[n])
    decreases n
  {
    hide Inv, ViewInv, Step, Take, AllConforming, ConformingEvent, ConformingRun;
    assert Live(states[n], fd);
    if n == 0 {
      ConformingRuns(k, past, pastEvents, |pastEvents|);
      ViewStarts(k, states[0], fd, views[0]);
    } else {
      SessionsKeepView(k, fd, past, pastEvents, states, views, turns, n - 1);
      assert ConformingTurn(k, fd, states[n - 1], views[n - 1], turns[n - 1], states[n], views[n]);
      TakeKeepsView(k, states[n - 1], fd, views[n - 1], turns[n - 1], states[n], views[n]);
    }
  }

  /**
   Along every interleaving of the server, serving conforming clients, with the threads of one
   client: what is printed, queued, just decrypted and still on the wire, together, is always the
   server's log from the client's arrival on - nothing lost, doubled or reordered.
   */
  lemma SessionsSeeTheLog(
    k: Context, fd: int, past: seq<State>, pastEvents: seq<Event>,
    states: seq<State>, views: seq<View>, turns: seq<Turn>, n: nat)
    requires k.WellFormed() && Session(k, fd, past, pastEvents, states, views, turns) && n <= |turns|
    ensures fd in states[n].links && JoinOf(states[n], fd) <= |states[n].log|
    ensures Seen(k, states[n].links[fd], views[n]) == Meanings(k, states[n].log[JoinOf(states[n], fd)..])
  {
    hide Inv, ViewInv, AllConforming, ConformingRun, ConformingTurn;
    SessionsKeepView(k, fd, past, pastEvents, states, views, turns, n);
    LiveAttends(k, states[n], fd);
    SeenIsLog(k, states[n], fd, views[n]);
  }

  // And whenever something is unread there, the receiving thread gets a message from it: it
  // neither fails nor takes it for the control message.
  lemma SessionsReceive(
    k: Context, fd: int, past: seq<State>, pastEvents: seq<Event>,
    states: seq<State>, views: seq<View>, turns: seq<Turn>, n: nat)
    requires k.WellFormed() && Session(k, fd, past, pastEvents, states, views, turns) && n <= |turns|
    requires fd in states[n].links && Unread(states[n].links[fd], views[n]) != []
    ensures var read := ReadPacket(Source(Unread(states[n].links[fd], views[n]), Broken));
            && read.packet.Some?
            && Decrypt(k.crypto, k.groupKey, read.packet.value).Some?
            && Decrypt(k.crypto, k.groupKey, read.packet.value).value != USERNAME_TAKEN
  {
    hide Inv, ViewInv, AllConforming, ConformingRun, ConformingTurn, Decrypt, ReadPacket;
    SessionsKeepView(k, fd, past, pastEvents, states, views, turns, n);
    LiveAttends(k, states[n], fd);
    ReceiveSucceeds(k, states[n], fd, views[n]);
  }

  // Turns of the client alone.
  ghost predicate ClientTurns(k: Context, s: State, fd: int, views: seq<View>, turns: seq<Turn>)
    requires fd in s.links
  {
    && |views| == |turns| + 1
    && forall i :: 0 <= i < |turns| ==>
         !turns[i].ServerTurn? && Take(k, fd, s, views[i], turns[i], s, views[i + 1])
  }

  // Whatever is on its way, the threads of the client can bring all of it to the screen.
  lemma {:induction false} StepsToTheScreen(k: Context, s: State, fd: int, v: View, n: nat)
    returns (views: seq<View>, turns: seq<Turn>)
    requires k.WellFormed() && Attending(k, s, fd) && InStep(k, s.links[fd], v, n)
    ensures ClientTurns(k, s, fd, views, turns) && views[0] == v
    ensures var last := views[|turns|];
            && last.queued == [] && last.current == [] && Unread(s.links[fd], last) == []
            && last.printed == Meanings(k, s.log[JoinOf(s, fd)..])
    decreases |Delivered(s.links[fd])| - n, |v.current|
  {
    assert fd in s.links;
    hide InStep, Take, ClientTurns, Attending, Meanings, Unread;
    if v.current != [] {
      var w := CanPush(k, s, fd, v, n);
      views, turns := StepsToTheScreen(k, s, fd, w, n);
      views, turns := OneTurnMore(k, s, fd, v, PushTurn, views, turns);
    } else if n < |Delivered(s.links[fd])| {
      var w := CanReceive(k, s, fd, v, n);
      views, turns := StepsToTheScreen(k, s, fd, w, n + 1);
      views, turns := OneTurnMore(k, s, fd, v, ReceiveTurn, views, turns);
    } else {
      var w := CanPrint(k, s, fd, v, n);
      views, turns := [w], [];
      NoTurns(k, s, fd, w);
      views, turns := OneTurnMore(k, s, fd, v, PrintTurn, views, turns);
    }
  }

  lemma NoTurns(k: Context, s: State, fd: int, v: View)
    requires fd in s.links
    ensures ClientTurns(k, s, fd, [v], [])
  {
  }

  lemma CanPush(k: Context, s: State, fd: int, v: View, n: nat) returns (w: View)
    requires fd in s.links && InStep(k, s.links[fd], v, n)
    ensures Take(k, fd, s, v, PushTurn, s, w) && InStep(k, s.links[fd], w, n) && w.current == []
  {
    hide FrameAll, Messages, Delivered;
    w := v.(queued := v.queued + v.current, current := []);
  }

  lemma CanReceive(k: Context, s: State, fd: int, v: View, n: nat) returns (w: View)
    requires k.WellFormed() && Attending(k, s, fd) && InStep(k, s.links[fd], v, n)
    requires v.current == [] && n < |Delivered(s.links[fd])|
    ensures Take(k, fd, s, v, ReceiveTurn, s, w) && InStep(k, s.links[fd], w, n + 1)
  {
    var l, d := s.links[fd], Delivered(s.links[fd]);
    AttendingLink(k, s, fd);
    NextPacket(k, l, v, n);
    RestFits(l, n);
    hide ReadPacket, FrameAll, Decrypt, InSync, AllConforming;
    w := v.(consumed := |l.Wire()| - |FrameAll(d[n + 1..])|, current := [Decrypt(k.crypto, k.groupKey, d[n]).value]);
    ReceiveKeepsStep(k, l, v, w, n);
  }

  lemma CanPrint(k: Context, s: State, fd: int, v: View, n: nat) returns (w: View)
    requires k.WellFormed() && Attending(k, s, fd) && InStep(k, s.links[fd], v, n)
    requires v.current == [] && n == |Delivered(s.links[fd])|
    ensures Take(k, fd, s, v, PrintTurn, s, w)
    ensures w.queued == [] && w.current == [] && Unread(s.links[fd], w) == []
    ensures w.printed == Meanings(k, s.log[JoinOf(s, fd)..])
  {
    var l, d := s.links[fd], Delivered(s.links[fd]);
    AttendingLink(k, s, fd);
    NextPacket(k, l, v, n);
    hide ReadPacket, FrameAll, Decrypt, InSync, AllConforming, Meanings;
    w := v.(printed := v.printed + v.queued, queued := []);
    assert d[..n] == d;
  }

  lemma RestFits(l: Link, n: nat)
    requires |l.sent| >= 2 && n < |Delivered(l)| && l.tail == []
    ensures |FrameAll(Delivered(l)[n + 1..])| <= |l.Wire()|
  {
    FrameAllSplit(l.sent, 2 + n + 1);
    assert l.sent[2 + n + 1..] == Delivered(l)[n + 1..];
  }

  lemma OneTurnMore(k: Context, s: State, fd: int, v: View, turn: Turn, views: seq<View>, turns: seq<Turn>)
    returns (views': seq<View>, turns': seq<Turn>)
    requires fd in s.links && ClientTurns(k, s, fd, views, turns)
    requires !turn.ServerTurn? && Take(k, fd, s, v, turn, s, views[0])
    ensures views' == [v] + views && turns' == [turn] + turns && ClientTurns(k, s, fd, views', turns')
  {
    hide Take;
    views', turns' := [v] + views, [turn] + turns;
    forall i | 0 <= i < |turns'|
      ensures !turns'[i].ServerTurn? && Take(k, fd, s, views'[i], turns'[i], s, views'[i + 1])
    {
      if i > 0 {
        assert views'[i] == views[i - 1] && views'[i + 1] == views[i] && turns'[i] == turns[i - 1];
        assert Take(k, fd, s, views[i - 1], turns[i - 1], s, views[i - 1 + 1]);
      }
    }
  }

  /**
   In every state of every session the client's own threads can go on until the whole log from its
   arrival on is printed: nothing is left on the wire, in their hands or in the queue.
   */
  lemma SessionsCanCatchUp(
    k: Context, fd: int, past: seq<State>, pastEvents: seq<Event>,
    states: seq<State>, views: seq<View>, turns: seq<Turn>, n: nat)
    returns (later: seq<View>, steps: seq<Turn>)
    requires k.WellFormed() && Session(k, fd, past, pastEvents, states, views, turns) && n <= |turns|
    ensures fd in states[n].links && JoinOf(states[n], fd) <= |states[n].log|
    ensures ClientTurns(k, states[n], fd, later, steps) && later[0] == views[n]
    ensures var last := later[|steps|];
            && last.queued == [] && last.current == [] && Unread(states[n].links[fd], last) == []
            && last.printed == Meanings(k, states[n].log[JoinOf(states[n], fd)..])
  {
    hide Inv, AllConforming, ConformingRun, ConformingTurn, InStep, Unread, ClientTurns;
    SessionsKeepView(k, fd, past, pastEvents, states, views, turns, n);
    LiveAttends(k, states[n], fd);
    var i: nat :| InStep(k, states[n].links[fd], views[n], i);
    later, steps := StepsToTheScreen(k, states[n], fd, views[n], i);
  }

  // What the server has received in these turns from clients in the chat.
  function ReceivedIn(states: seq<State>, turns: seq<Turn>, n: nat): seq<Bytes>
    requires n <= |turns| < |states|
  {
    if n == 0 then []
    else
      var turn := turns[n - 1];
      ReceivedIn(states, turns, n - 1) + if turn.ServerTurn? then Received(states[n - 1], turn.ev) else []
  }

  lemma {:induction false} SessionsForward(
    k: Context, fd: int, past: seq<State>, pastEvents: seq<Event>,
    states: seq<State>, views: seq<View>, turns: seq<Turn>, n: nat)
    requires k.WellFormed() && Session(k, fd, past, pastEvents, states, views, turns) && n <= |turns|
    ensures states[0].log <= states[n].log && JoinOf(states[n], fd) == JoinOf(states[0], fd)
    ensures Forwards(states[n].log) == Forwards(states[0].log) + ReceivedIn(states, turns, n)
    decreases n
  {
    hide Inv, ViewInv, Step, AllConforming, ConformingEvent, ConformingRun, Forwards, Received;
    if n > 0 {
      var s, turn, t := states[n - 1], turns[n - 1], states[n];
      SessionsForward(k, fd, past, pastEvents, states, views, turns, n - 1);
      SessionsKeepView(k, fd, past, pastEvents, states, views, turns, n - 1);
      assert ConformingTurn(k, fd, s, views[n - 1], turn, t, views[n]);
      if turn.ServerTurn? {
        InvStructure(k, s);
        StepForwards(k, s, turn.ev, t);
        StepGrows(k, s, turn.ev, t, fd);
        assert Live(t, fd);
      }
    }
  }

  /**
   From one client's keyboard to another's screen: whatever was in the client's view when the
   session began stays the beginning of it, and what is added is the meaning of a piece of log in
   which the forwarded packets are exactly those that the server has meanwhile received from
   clients in the chat, each once and in order.
   */
  lemma SessionsShowWhatIsReceived(
    k: Context, fd: int, past: seq<State>, pastEvents: seq<Event>,
    states: seq<State>, views: seq<View>, turns: seq<Turn>, n: nat)
    requires k.WellFormed() && Session(k, fd, past, pastEvents, states, views, turns) && n <= |turns|
    ensures fd in states[0].links && fd in states[n].links && states[0].log <= states[n].log
    ensures var es := states[n].log[|states[0].log|..];
            && Seen(k, states[n].links[fd], views[n]) == Seen(k, states[0].links[fd], views[0]) + Meanings(k, es)
            && Forwards(es) == ReceivedIn(states, turns, n)
  {
    hide Inv, ViewInv, AllConforming, ConformingRun, ConformingTurn, Forwards, ReceivedIn, Seen;
    SessionsForward(k, fd, past, pastEvents, states, views, turns, n);
    SessionsSeeTheLog(k, fd, past, pastEvents, states, views, turns, 0);
    SessionsSeeTheLog(k, fd, past, pastEvents, states, views, turns, n);
    hide JoinOf, Session, Meanings;
    LogGrown(k, states[0].log, states[n].log, JoinOf(states[0], fd), ReceivedIn(states, turns, n));
  }

  lemma LogGrown(k: Context, log: seq<Entry>, more: seq<Entry>, join: nat, received: seq<Bytes>)
    requires join <= |log| && log <= more && Forwards(more) == Forwards(log) + received
    ensures var es := more[|log|..];
            Meanings(k, more[join..]) == Meanings(k, log[join..]) + Meanings(k, es) && Forwards(es) == received
  {
    hide Forwards;
    var es := more[|log|..];
    assert more == log + es;
    ForwardsConcat(log, es);
    SameRest(Forwards(log), Forwards(es), received);
    MeaningsGrown(k, log, es, join);
  }

  lemma SameRest(front: seq<Bytes>, a: seq<Bytes>, b: seq<Bytes>)
    requires front + a == front + b
    ensures a == b
  {
    assert a == (front + a)[|front|..] && b == (front + b)[|front|..];
  }

  lemma MeaningsGrown(k: Context, log: seq<Entry>, es: seq<Entry>, join: nat)
    requires join <= |log|
    ensures Meanings(k, (log + es)[join..]) == Meanings(k, log[join..]) + Meanings(k, es)
  {
    hide Meaning;
    assert (log + es)[join..] == log[join..] + es;
  }

  lemma ViewStarts(k: Context, s: State, fd: int, v: View)
    requires k.WellFormed() && Inv(k, s) && Live(s, fd) && v == View(HandshakeLength(k), [], [], [])
    ensures ViewInv(k, s.links[fd], v)
  {
    var l := s.links[fd];
    assert OpenInv(k, s.clients[fd], l, s.log, JoinOf(s, fd));
    BehindHandshake(k, s.clients[fd].clientPk, l);
    assert Messages(k, Delivered(l)[..0]) == [];
    assert InStep(k, l, v, 0);
  }

  // ------------------------------------------------------------ the receiving thread

  // The receiving thread shows every message of a stream of showable packets, then goes on.
  lemma {:induction false} ListenToFrames(k: Context, ps: seq<Bytes>, rest: Bytes, ending: Ending)
    requires Showable(k, ps)
    ensures var more := Listen(k.crypto, k.groupKey, Source(rest, ending));
            Listen(k.crypto, k.groupKey, Source(FrameAll(ps) + rest, ending)) ==
            Heard(Messages(k, ps) + more.shown, more.reason, more.rest)
    decreases |ps|
  {
    hide Listen, Decrypt, Frame;
    if ps == [] {
      assert FrameAll(ps) + rest == rest;
    } else {
      ListenToFrames(k, ps[1..], rest, ending);
      ListenToOne(k, ps[0], FrameAll(ps[1..]) + rest, ending);
      assert FrameAll(ps) + rest == Frame(ps[0]) + (FrameAll(ps[1..]) + rest);
      MessagesSplit(k, ps, 1);
      assert Messages(k, ps[..1]) == [Decrypt(k.crypto, k.groupKey, ps[0]).value];
    }
  }

  lemma ListenToOne(k: Context, p: Bytes, rest: Bytes, ending: Ending)
    requires |p| < WRAP && Decrypt(k.crypto, k.groupKey, p).Some?
    requires Decrypt(k.crypto, k.groupKey, p).value != USERNAME_TAKEN
    ensures var more := Listen(k.crypto, k.groupKey, Source(rest, ending));
            Listen(k.crypto, k.groupKey, Source(Frame(p) + rest, ending)) ==
            Heard([Decrypt(k.crypto, k.groupKey, p).value] + more.shown, more.reason, more.rest)
  {
    RoundTripExactly(p, rest, ending);
  }

  // The message that a clean end of file makes of an unfinished frame, if any.
  function MadeUp(k: Context, tail: Bytes, ending: Ending): Option<Bytes> {
    var packet := ReadPacket(Source(tail, ending)).packet;
    if packet.None? then None else Decrypt(k.crypto, k.groupKey, packet.value)
  }

  // What the receiving thread makes of the end of the wire.
  lemma ListenToTail(k: Context, p: Bytes, tail: Bytes, ending: Ending)
    requires |p| < WRAP && tail < Frame(p)
    ensures ending.Broken? || tail == [] ==> MadeUp(k, tail, ending) == None
    ensures var made := MadeUp(k, tail, ending);
            Listen(k.crypto, k.groupKey, Source(tail, ending)) ==
            if made == Some(USERNAME_TAKEN) then Heard([], Shutdown.NameTaken, Source([], ending))
            else Heard(if made.Some? then [made.value] else [], Shutdown.ServerClosed, Source([], ending))
  {
    NothingBehindUnfinished(p, tail, ending);
    FailsExactly(Source(tail, ending));
    FailsExactly(Source([], ending));
    if ending.Broken? {
      UnfinishedFrameFails(p, tail);
    }
  }

  // The packet that a wire breaks off in, if it does, is a short one.
  lemma TailIsShort(k: Context, info: ClientInfo, l: Link, log: seq<Entry>, join: nat, refused: bool)
    requires k.WellFormed() && AllConforming(k, log) && Shape(k, info, l, log, join, refused) && l.Valid()
    ensures exists p :: |p| < WRAP && l.tail < Frame(p)
  {
    if l.tail == [] {
      assert l.tail < Frame([]);
    } else if |l.sent| == 0 {
      assert l.tail < Frame(k.pk);
    } else if |l.sent| == 1 {
      var p :| IsKeyPacket(k, info.clientPk, p) && l.tail < Frame(p);
      KeyPacketSize(k, info.clientPk, p);
    } else if info.registered {
      var e := log[join + |Delivered(l)|];
      var p :| Carries(k, p, e) && l.tail < Frame(p);
      ConformingPacket(k, p, e);
    } else {
      var p :| k.Open(p) == Some(USERNAME_TAKEN) && l.tail < Frame(p);
      OpensExactly(k.crypto, k.groupKey, p, USERNAME_TAKEN);
    }
  }

  /**
   What the receiving thread of any client that got into the chat makes of its whole wire after
   the handshake, wherever and however that ends: it shows the slice of the log that was
   delivered, and after a clean end of file within a frame possibly one message made up of it.
   */
  lemma ListenerShowsLog(k: Context, states: seq<State>, events: seq<Event>, n: nat,
                         info: ClientInfo, l: Link, join: nat, refused: bool, ending: Ending)
    requires k.WellFormed() && ConformingRun(k, states, events) && n <= |events|
    requires OnRecord(states[n], info, l, join, refused) && info.registered
    ensures ShowsSlice(k, states[n].log, l, join, ending)
  {
    hide AllConforming, Inv, OnRecord, ShowsSlice;
    ConformingRuns(k, states, events, n);
    StreamShape(k, states[n], info, l, join, refused);
    RecordValid(k, states[n], info, l, join, refused);
    ListenerShows(k, states[n].log, info, l, join, refused, ending);
  }

  ghost predicate ShowsSlice(k: Context, log: seq<Entry>, l: Link, join: nat, ending: Ending) {
    var heard := Listen(k.crypto, k.groupKey, Source(FrameAll(Delivered(l)) + l.tail, ending));
    var next, made := join + |Delivered(l)|, MadeUp(k, l.tail, ending);
    && next <= |log|
    && heard.shown == Meanings(k, log[join..next])
                      + (if made.Some? && made.value != USERNAME_TAKEN then [made.value] else [])
    && (heard.reason == Shutdown.NameTaken <==> made == Some(USERNAME_TAKEN))
    && (ending.Broken? || !l.failed ==> made == None)
  }

  lemma ListenerShows(k: Context, log: seq<Entry>, info: ClientInfo, l: Link, join: nat, refused: bool, ending: Ending)
    requires k.WellFormed() && AllConforming(k, log) && Shape(k, info, l, log, join, refused)
    requires l.Valid() && info.registered
    ensures ShowsSlice(k, log, l, join, ending)
  {
    hide AllConforming, Listen, MadeUp, Handshake, RefusedLink, Showable, CarryAll, CutAt, Meanings, Messages, FrameAll;
    TailIsShort(k, info, l, log, join, refused);
    SliceShowable(k, Delivered(l), log, join);
    hide Shape, Delivered;
    var p :| |p| < WRAP && l.tail < Frame(p);
    ListenToTail(k, p, l.tail, ending);
    ListenToFrames(k, Delivered(l), l.tail, ending);
  }

  lemma RecordValid(k: Context, s: State, info: ClientInfo, l: Link, join: nat, refused: bool)
    requires Inv(k, s) && OnRecord(s, info, l, join, refused)
    ensures l.Valid()
  {
    if i :| 0 <= i < |s.closed| && s.closed[i].info == info && s.closed[i].link == l
            && s.closed[i].join == join && s.closed[i].refused == refused {
      assert ClosedInv(k, s.closed[i], s.log);
    }
  }

  // What the receiving thread makes of these bytes: it shows what is known, and then it goes on
  // past the packet exactly when that decrypts, and not to the control message.
  ghost predicate GoesOn(k: Context, known: seq<Bytes>, bytes: Bytes, raw: Bytes, later: Bytes, ending: Ending) {
    var heard := Listen(k.crypto, k.groupKey, Source(bytes + later, ending));
    var more := Listen(k.crypto, k.groupKey, Source(later, ending));
    var m := Decrypt(k.crypto, k.groupKey, raw);
    if m.None? then heard.shown == known && heard.reason == Shutdown.ServerClosed
    else if m.value == USERNAME_TAKEN then heard.shown == known && heard.reason == Shutdown.NameTaken
    else heard.shown == known + [m.value] + more.shown && heard.reason == more.reason
  }

  /**
   With conforming clients so far: whatever one client now makes the server forward, the packet
   ends every client whose link works unless it can be read. `later` is all that they are sent
   afterwards.
   */
  lemma ListenersGoOnExactly(k: Context, states: seq<State>, events: seq<Event>, n: nat,
                             other: int, raw: Bytes, t: State, fd: int, later: Bytes, ending: Ending)
    requires k.WellFormed() && ConformingRun(k, states, events) && n <= |events| && |raw| < WRAP
    requires Registered(states[n], other) && Step(k, states[n], ServerState.Readable(other, Some(raw)), t)
    requires Live(states[n], fd) && Live(t, fd)
    ensures JoinOf(states[n], fd) <= |states[n].log|
    ensures GoesOn(k, Meanings(k, states[n].log[JoinOf(states[n], fd)..]),
                   FrameAll(Delivered(t.links[fd])), raw, later, ending)
  {
    var s := states[n];
    ConformingRuns(k, states, events, n);
    assert Structure(s);
    hide Inv, Structure, AllConforming, ConformingRun, GoesOn, Showable, Meanings, Messages, FrameAll, Frame;
    LiveAttends(k, s, fd);
    AttendingLink(k, s, fd);
    ForwardedLink(k, s, other, raw, t, fd);
    ListenPastFrames(k, Delivered(s.links[fd]), raw, later, ending);
  }

  // So a clean end of file in the header of one client's frame ends every other client: what
  // the server reads and forwards is an empty packet.
  lemma CutHeaderEndsEverybody(k: Context, states: seq<State>, events: seq<Event>, n: nat,
                               other: int, t: State, fd: int, later: Bytes, ending: Ending)
    requires k.WellFormed() && ConformingRun(k, states, events) && n <= |events| && Registered(states[n], other)
    requires Step(k, states[n], ServerState.Readable(other, ReadPacket(Source([0], Eof)).packet), t)
    requires Live(states[n], fd) && Live(t, fd)
    ensures var heard := Listen(k.crypto, k.groupKey, Source(FrameAll(Delivered(t.links[fd])) + later, ending));
            && JoinOf(states[n], fd) <= |states[n].log|
            && heard.shown == Meanings(k, states[n].log[JoinOf(states[n], fd)..])
            && heard.reason == Shutdown.ServerClosed
  {
    hide ConformingRun, Listen, Meanings, Step;
    SmallLength(1);
    assert [0] < Frame([0]);
    UnfinishedFrameIsCompleted([0], [0]);
    ListenersGoOnExactly(k, states, events, n, other, [], t, fd, later, ending);
  }

  lemma ListenPastFrames(k: Context, d: seq<Bytes>, raw: Bytes, later: Bytes, ending: Ending)
    requires Showable(k, d) && |raw| < WRAP
    ensures GoesOn(k, Messages(k, d), FrameAll(d) + Frame(raw), raw, later, ending)
  {
    hide Showable, Messages, FrameAll, Frame, Listen, Decrypt;
    ListenToFrames(k, d, Frame(raw) + later, ending);
    assert FrameAll(d) + Frame(raw) + later == FrameAll(d) + (Frame(raw) + later);
    ListenPast(k, raw, later, ending);
  }

  lemma ListenPast(k: Context, raw: Bytes, later: Bytes, ending: Ending)
    requires |raw| < WRAP
    ensures GoesOn(k, [], Frame(raw), raw, later, ending)
  {
    hide ReadPacket, Frame, Decrypt;
    RoundTripExactly(raw, later, ending);
  }

  lemma ForwardedLink(k: Context, s: State, other: int, raw: Bytes, t: State, fd: int)
    requires Structure(s) && Attending(k, s, fd) && Registered(s, other)
    requires Step(k, s, ServerState.Readable(other, Some(raw)), t) && Live(t, fd)
    ensures FrameAll(Delivered(t.links[fd])) == FrameAll(Delivered(s.links[fd])) + Frame(raw)
  {
    var l, m, d := s.links[fd], t.links[fd], Delivered(s.links[fd]);
    assert Fed(k, l, m, [Forward(raw)]);
    var ps :| CarryAll(k, ps, [Forward(raw)]) && m == l.SendAll(ps);
    SendAllExactly(l, ps);
    assert Carries(k, ps[0], Forward(raw)) && ps == [raw] && ps[..1] == ps;
    assert Delivered(m) == d + [raw];
    FrameAllConcat(d, [raw]);
    assert FrameAll([raw]) == Frame(raw) + FrameAll([]);
  }

  // Why a client ends that reads all this: nothing is noted when its handshake fails.
  function Fate(k: Context, sk: Bytes, oldKey: Bytes, src: Source): Shutdown.ExitReason
    requires |oldKey| == KEY_BYTES
  {
    match Greet(k.crypto, sk, oldKey, src)
    case Ready(_, groupKey, rest) => Listen(k.crypto, groupKey, rest).reason
    case _ => Shutdown.NoReason
  }

  // A client whose handshake pair is not whole never gets to listen to anything.
  lemma FateInHandshake(k: Context, clientPk: Bytes, l: Link, sk: Bytes, oldKey: Bytes, ending: Ending)
    requires k.WellFormed() && |oldKey| == KEY_BYTES && clientPk == k.crypto.publicKey(sk)
    requires Handshake(k, clientPk, l) && |l.sent| < 2
    ensures Fate(k, sk, oldKey, Source(l.Wire(), ending)) != Shutdown.NameTaken
  {
    hide Greet;
    BehindHandshake(k, clientPk, l);
    GreetAnyPart(k, l, sk, oldKey, l.Wire(), ending);
    FailsExactly(Source([], Eof));
  }

  /**
   With conforming clients: a client that reads its whole wire, from the first byte of the
   handshake on, ends because its name is taken exactly when the server refused it that name and
   the control message was sent whole - whatever happened to its link, and also if a cascade
   removed it. Only a clean end of file within a frame could make that message up.
   */
  lemma NameTakenExactly(k: Context, states: seq<State>, events: seq<Event>, n: nat,
                         info: ClientInfo, l: Link, join: nat, refused: bool,
                         sk: Bytes, oldKey: Bytes, ending: Ending)
    requires k.WellFormed() && ConformingRun(k, states, events) && n <= |events|
    requires OnRecord(states[n], info, l, join, refused)
    requires |oldKey| == KEY_BYTES && info.clientPk == k.crypto.publicKey(sk)
    ensures Fate(k, sk, oldKey, Source(l.Wire(), ending)) == Shutdown.NameTaken <==>
            || (refused && |l.sent| == 3)
            || (|l.sent| >= 2 && MadeUp(k, l.tail, ending) == Some(USERNAME_TAKEN))
    ensures ending.Broken? || !l.failed ==> MadeUp(k, l.tail, ending) == None
  {
    hide AllConforming, Inv, OnRecord, Fate, MadeUp, Shape;
    ConformingRuns(k, states, events, n);
    StreamShape(k, states[n], info, l, join, refused);
    RecordValid(k, states[n], info, l, join, refused);
    FateExactly(k, states[n].log, info, l, join, refused, sk, oldKey, ending);
  }

  lemma FateExactly(k: Context, log: seq<Entry>, info: ClientInfo, l: Link, join: nat, refused: bool,
                    sk: Bytes, oldKey: Bytes, ending: Ending)
    requires k.WellFormed() && AllConforming(k, log) && Shape(k, info, l, log, join, refused) && l.Valid()
    requires |oldKey| == KEY_BYTES && info.clientPk == k.crypto.publicKey(sk)
    ensures Fate(k, sk, oldKey, Source(l.Wire(), ending)) == Shutdown.NameTaken <==>
            || (refused && |l.sent| == 3)
            || (|l.sent| >= 2 && MadeUp(k, l.tail, ending) == Some(USERNAME_TAKEN))
    ensures ending.Broken? || !l.failed ==> MadeUp(k, l.tail, ending) == None
  {
    hide AllConforming, Greet, Listen, MadeUp, Handshake, CutOutcome, CarryAll, CutAt;
    HeardAfterHandshake(k, log, info, l, join, refused, ending);
    if |l.sent| < 2 {
      assert refused ==> |l.sent| != 3;
      FateInHandshake(k, info.clientPk, l, sk, oldKey, ending);
    } else {
      BehindHandshake(k, info.clientPk, l);
      GreetAnyPart(k, l, sk, oldKey, l.Wire(), ending);
    }
  }

  // What is listened to behind the handshake.
  lemma HeardAfterHandshake(k: Context, log: seq<Entry>, info: ClientInfo, l: Link, join: nat, refused: bool,
                            ending: Ending)
    requires k.WellFormed() && AllConforming(k, log) && Shape(k, info, l, log, join, refused) && l.Valid()
    ensures Listen(k.crypto, k.groupKey, Source(FrameAll(Delivered(l)) + l.tail, ending)).reason == Shutdown.NameTaken
            <==> (refused && |l.sent| == 3) || MadeUp(k, l.tail, ending) == Some(USERNAME_TAKEN)
    ensures ending.Broken? || !l.failed ==> MadeUp(k, l.tail, ending) == None
  {
    hide AllConforming, Listen, MadeUp, Handshake, Showable, CarryAll, CutAt, FrameAll;
    TailIsShort(k, info, l, log, join, refused);
    if refused && |l.sent| == 3 {
      RefusalHeard(k, l, ending);
    } else {
      DeliveredIsShowable(k, log, info, l, join, refused);
      hide Shape, Delivered, RefusedLink;
      ListenToFrames(k, Delivered(l), l.tail, ending);
    }
    hide Shape, Delivered, RefusedLink;
    var p :| |p| < WRAP && l.tail < Frame(p);
    ListenToTail(k, p, l.tail, ending);
  }

  lemma DeliveredIsShowable(k: Context, log: seq<Entry>, info: ClientInfo, l: Link, join: nat, refused: bool)
    requires k.WellFormed() && AllConforming(k, log) && Shape(k, info, l, log, join, refused)
    requires !(refused && |l.sent| == 3)
    ensures Showable(k, Delivered(l))
  {
    hide AllConforming, Handshake, Showable, CarryAll, CutAt;
    if info.registered {
      SliceShowable(k, Delivered(l), log, join);
    } else {
      NothingIsShowable(k, Delivered(l));
    }
  }

  lemma NothingIsShowable(k: Context, ps: seq<Bytes>)
    requires ps == []
    ensures Showable(k, ps)
  {
  }

  lemma RefusalHeard(k: Context, l: Link, ending: Ending)
    requires k.WellFormed() && RefusedLink(k, l) && |l.sent| == 3 && l.tail == []
    ensures Listen(k.crypto, k.groupKey, Source(FrameAll(Delivered(l)) + l.tail, ending)).reason == Shutdown.NameTaken
  {
    var d := Delivered(l);
    assert d == [l.sent[2]];
    OpensExactly(k.crypto, k.groupKey, d[0], USERNAME_TAKEN);
    assert FrameAll(d) + l.tail == Frame(d[0]) + [];
    RoundTripExactly(d[0], [], ending);
  }

  // ------------------------------------------------------------ from the client to the server

  // Every line, said by whomever and sealed, fits the length field.
  predicate ShortLines(inputs: seq<Option<Bytes>>) {
    forall i :: 0 <= i < |inputs| && inputs[i].Some? ==>
      NONCE_BYTES + MAC_BYTES + MAX_USERNAME_LEN + |SEPARATOR| + |inputs[i].value| < WRAP
  }

  lemma {:induction false} SpokenIsSaid(username: Bytes, inputs: seq<Option<Bytes>>, i: nat)
    requires i < |Spoken(username, inputs)|
    ensures exists j :: 0 <= j < |inputs| && inputs[j].Some?
                        && Spoken(username, inputs)[i] == Said(username, inputs[j].value)
    decreases |inputs|
  {
    var skipped := inputs[0].value == [];
    if !skipped && i == 0 {
      assert Spoken(username, inputs)[i] == Said(username, inputs[0].value);
    } else {
      SpokenIsSaid(username, inputs[1..], if skipped then i else i - 1);
      var j :| 0 <= j < |inputs[1..]| && inputs[1..][j].Some?
               && Spoken(username, inputs)[i] == Said(username, inputs[1..][j].value);
      assert inputs[j + 1] == inputs[1..][j];
    }
  }

  // What the input thread sends is what a registered client of a conforming run sends.
  lemma SayingsConform(k: Context, username: Bytes, inputs: seq<Option<Bytes>>,
                       before: Link, after: Link, packets: seq<Bytes>, whole: bool, i: nat)
    requires k.WellFormed() && |username| <= MAX_USERNAME_LEN && ShortLines(inputs) && i < |packets|
    requires SaidAll(k.crypto, k.groupKey, username, inputs, before, after, packets, whole)
    ensures FromClient(k, true, packets[i])
  {
    var texts := Spoken(username, inputs);
    assert texts[..|packets|][i] == texts[i];
    SpokenIsSaid(username, inputs, i);
    var j :| 0 <= j < |inputs| && inputs[j].Some? && texts[i] == Said(username, inputs[j].value);
    OpensExactly(k.crypto, k.groupKey, packets[i], texts[i]);
  }

  /**
   The client's whole stream - its key, its name and what its input thread sends - is read back by
   the server, packet by packet, as a key and then as packets of a conforming client, up to the
   point at which the link failed.
   */
  lemma ClientStreamConforms(k: Context, sk: Bytes, username: Bytes, named: Bytes, inputs: seq<Option<Bytes>>,
                             budget: nat, l: Link, packets: seq<Bytes>, whole: bool, ending: Ending)
    requires k.WellFormed() && |k.crypto.publicKey(sk)| == PUBLIC_KEY_BYTES
    requires |username| <= MAX_USERNAME_LEN && ShortLines(inputs) && k.Open(named) == Some(username)
    requires SaidAll(k.crypto, k.groupKey, username, inputs,
                     FreshLink(budget).Send(k.crypto.publicKey(sk)).Send(named), l, packets, whole)
    ensures ReadPackets(Source(l.Wire(), ending), |l.sent|) == ReadMany(l.sent, Source(l.tail, ending))
    ensures |l.sent| <= 2 + |packets| && (!l.failed ==> |l.sent| == 2 + |packets|)
    ensures |l.sent| > 0 ==> l.sent[0] == k.crypto.publicKey(sk)
    ensures forall i :: 1 <= i < |l.sent| ==> FromClient(k, i > 1, l.sent[i])
  {
    hide SaidAll, FromClient;
    var all := [k.crypto.publicKey(sk), named] + packets;
    WholeStream(k, sk, username, named, inputs, budget, l, packets, whole);
    SendAllExactly(FreshLink(budget), all);
    assert l.sent == all[..Fits(all, budget)];
    OpensExactly(k.crypto, k.groupKey, named, username);
    forall i | 1 <= i < |all| ensures FromClient(k, i > 1, all[i]) && |all[i]| < WRAP {
      PacketConforms(k, username, named, inputs, budget, sk, l, packets, whole, i);
    }
    assert Framable(l.sent);
    ReaderGetsWhatWasSent(l, ending);
  }

  lemma WholeStream(k: Context, sk: Bytes, username: Bytes, named: Bytes, inputs: seq<Option<Bytes>>,
                    budget: nat, l: Link, packets: seq<Bytes>, whole: bool)
    requires SaidAll(k.crypto, k.groupKey, username, inputs,
                     FreshLink(budget).Send(k.crypto.publicKey(sk)).Send(named), l, packets, whole)
    ensures l == FreshLink(budget).SendAll([k.crypto.publicKey(sk), named] + packets)
  {
    var pk, start := k.crypto.publicKey(sk), FreshLink(budget);
    SendAllConcat(start, [pk, named], packets);
    assert [pk, named][1..] == [named];
    assert start.Send(pk).SendAll([named]) == start.Send(pk).Send(named).SendAll([]);
  }

  lemma PacketConforms(k: Context, username: Bytes, named: Bytes, inputs: seq<Option<Bytes>>,
                       budget: nat, sk: Bytes, l: Link, packets: seq<Bytes>, whole: bool, i: nat)
    requires k.WellFormed() && 1 <= i < 2 + |packets|
    requires |username| <= MAX_USERNAME_LEN && ShortLines(inputs) && k.Open(named) == Some(username)
    requires SaidAll(k.crypto, k.groupKey, username, inputs,
                     FreshLink(budget).Send(k.crypto.publicKey(sk)).Send(named), l, packets, whole)
    ensures var p := if i == 1 then named else packets[i - 2]; FromClient(k, i > 1, p) && |p| < WRAP
  {
    OpensExactly(k.crypto, k.groupKey, named, username);
    if i > 1 {
      SayingsConform(k, username, inputs, FreshLink(budget).Send(k.crypto.publicKey(sk)).Send(named), l,
                     packets, whole, i - 2);
    }
  }
}

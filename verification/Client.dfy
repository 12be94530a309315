/** The client program: handshake, sealed messages and the loops of its threads. */
module ClientProgram {
  import opened Octets
  import opened Framing
  import opened Network
  import opened Secretbox
  import opened ServerState
  import opened Delivery
  import opened MessageQueue
  import Shutdown

  // ------------------------------------------------------------ what the client understands

  /**
   How the handshake ends, given all that the server will send. `Undefined` are the replies on
   which the program reads or writes outside its buffers, because it does not check their size.
   */
  datatype Outcome = Ready(serverPk: Bytes, groupKey: Bytes, rest: Source) | Failed | Undefined

  function Greet(c: Crypto, sk: Bytes, oldKey: Bytes, src: Source): Outcome
    requires |oldKey| == KEY_BYTES
  {
    var first := ReadPacket(src);
    if first.packet.None? then Failed
    else if |first.packet.value| < PUBLIC_KEY_BYTES then Undefined
    else
      var serverPk := first.packet.value[..PUBLIC_KEY_BYTES];
      var second := ReadPacket(first.rest);
      if second.packet.None? then Failed
      else if |second.packet.value| < NONCE_BYTES then Undefined
      else if c.shared(serverPk, sk).None? then Failed
      else
        var plain := OpenPacket(c, c.shared(serverPk, sk).value, second.packet.value);
        if plain.None? then Failed
        else if |plain.value| > KEY_BYTES then Undefined
        else Ready(serverPk, plain.value + oldKey[|plain.value|..], second.rest)
  }

  // What RecvDecrypted makes of a packet; too short, empty and forged ones are all the same.
  function Decrypt(c: Crypto, key: Bytes, p: Bytes): Option<Bytes> {
    if |p| <= NONCE_BYTES + MAC_BYTES then None else OpenPacket(c, key, p)
  }

  // A sealed message is received as it was sent exactly when it is not empty.
  lemma SealedRoundTripExactly(c: Crypto, key: Bytes, nonce: Nonce, m: Bytes)
    requires Ideal(c)
    ensures Decrypt(c, key, SealPacket(c, key, nonce, m)) == Some(m) <==> m != []
    ensures m == [] ==> Decrypt(c, key, SealPacket(c, key, nonce, m)) == None
  {
    SealedOpens(c, key, nonce, m);
  }

  // A packet is received as a text exactly when the text is not empty and the packet is a nonce and
  // the text sealed under it, in this order.
  lemma DecryptsExactly(c: Crypto, key: Bytes, p: Bytes, m: Bytes)
    requires Ideal(c)
    ensures Decrypt(c, key, p) == Some(m) <==> m != [] && |p| >= 24 && p[24..] == c.seal(key, p[..24], m)
  {
    if |p| >= 24 && p[24..] == c.seal(key, p[..24], m) {
      assert |p| == 40 + |m|;
    }
  }

  /**
   The handshake on any two whole frames: the first 32 bytes of one packet are the server's key, the
   other is a nonce of 24 bytes and a box; shorter packets, and boxes around more than a key, are
   not checked for.
   */
  lemma GreetFrames(c: Crypto, sk: Bytes, oldKey: Bytes, a: Bytes, b: Bytes, rest: Bytes, ending: Ending)
    requires |oldKey| == KEY_BYTES && |a| < WRAP && |b| < WRAP
    ensures var outcome := Greet(c, sk, oldKey, Source(Frame(a) + (Frame(b) + rest), ending));
            if |a| < 32 || |b| < 24 then outcome == Undefined
            else if c.shared(a[..32], sk).None? then outcome == Failed
            else
              var m := c.open(c.shared(a[..32], sk).value, b[..24], b[24..]);
              if m.None? then outcome == Failed
              else if |m.value| > 32 then outcome == Undefined
              else outcome == Ready(a[..32], m.value + oldKey[|m.value|..], Source(rest, ending))
  {
    RoundTripExactly(a, Frame(b) + rest, ending);
    RoundTripExactly(b, rest, ending);
  }

  type ExitReason = Shutdown.ExitReason

  // Everything the receiving thread shows before it ends, and why it ends.
  datatype Heard = Heard(shown: seq<Bytes>, reason: ExitReason, rest: Source)

  function Listen(c: Crypto, key: Bytes, src: Source): Heard
    decreases |src.bytes|
  {
    var read := ReadPacket(src);
    if read.packet.None? then Heard([], Shutdown.ServerClosed, read.rest)
    else
      var msg := Decrypt(c, key, read.packet.value);
      if msg.None? then Heard([], Shutdown.ServerClosed, read.rest)
      else if msg.value == USERNAME_TAKEN then Heard([], Shutdown.NameTaken, read.rest)
      else
        var more := Listen(c, key, read.rest);
        Heard([msg.value] + more.shown, more.reason, more.rest)
  }

  // Receiving one message, in terms of what there is to hear.
  lemma ListenOnce(c: Crypto, key: Bytes, src: Source)
    ensures var read, heard := ReadPacket(src), Listen(c, key, src);
            var msg := if read.packet.None? then None else Decrypt(c, key, read.packet.value);
            if msg.None? then heard.shown == [] && heard.reason == Shutdown.ServerClosed
            else if msg.value == USERNAME_TAKEN then heard.shown == [] && heard.reason == Shutdown.NameTaken
            else
              var more := Listen(c, key, read.rest);
              && heard.shown == [msg.value] + more.shown && heard.reason == more.reason
              && |read.rest.bytes| < |src.bytes|
  {
  }

  lemma HearStep(heard: seq<Bytes>, all: seq<Bytes>, rest: seq<Bytes>, got: seq<Bytes>,
                 shown: seq<Bytes>, added: seq<Bytes>)
    requires shown <= all <= heard && (got == [] || (heard == all + rest && got <= rest))
    requires added == [] || (added == got && shown == all)
    ensures shown + added <= all + got <= heard
    ensures heard == all + rest && got <= rest ==> heard == (all + got) + rest[|got|..]
  {
    if got == [] {
      assert all + got == all;
    }
    if heard == all + rest && got <= rest {
      assert rest == got + rest[|got|..];
      assert heard == (all + got) + rest[|got|..];
    }
  }

  const EXIT: Bytes := Ascii("/exit")

  // The end of input, or the exit command.
  predicate Ends(input: Option<Bytes>) {
    input.None? || input.value == EXIT
  }

  // What is said for these lines of input: empty ones are skipped, the first end of input or
  // exit command ends it.
  function Spoken(username: Bytes, inputs: seq<Option<Bytes>>): seq<Bytes> {
    if inputs == [] || Ends(inputs[0]) then []
    else if inputs[0].value == [] then Spoken(username, inputs[1..])
    else [Said(username, inputs[0].value)] + Spoken(username, inputs[1..])
  }

  // These packets open to these texts, one to one.
  ghost predicate Opens(c: Crypto, key: Bytes, packets: seq<Bytes>, texts: seq<Bytes>) {
    |packets| == |texts| &&
    forall i :: 0 <= i < |texts| ==> OpenPacket(c, key, packets[i]) == Some(texts[i])
  }

  // Of the texts, these packets deliver the first ones, or all of them.
  ghost predicate OpensFirst(c: Crypto, key: Bytes, packets: seq<Bytes>, texts: seq<Bytes>, whole: bool) {
    && |packets| <= |texts| && Opens(c, key, packets, texts[..|packets|])
    && (whole ==> |packets| == |texts|)
  }

  // None of the first i lines was the last one, and a beginning of what they say has been sent.
  ghost predicate SaidSoFar(c: Crypto, key: Bytes, username: Bytes, inputs: seq<Option<Bytes>>, i: nat,
                            before: Link, after: Link, packets: seq<Bytes>, whole: bool)
    requires i <= |inputs|
  {
    && after == before.SendAll(packets)
    && (forall j :: 0 <= j < i ==> !Ends(inputs[j]))
    && OpensFirst(c, key, packets, Spoken(username, inputs[..i]), whole)
  }

  // A beginning of everything to be said has been sent, or all of it.
  ghost predicate SaidAll(c: Crypto, key: Bytes, username: Bytes, inputs: seq<Option<Bytes>>,
                          before: Link, after: Link, packets: seq<Bytes>, whole: bool) {
    after == before.SendAll(packets) && OpensFirst(c, key, packets, Spoken(username, inputs), whole)
  }

  lemma NothingSaid(c: Crypto, key: Bytes, username: Bytes, inputs: seq<Option<Bytes>>, l: Link, whole: bool)
    ensures SaidSoFar(c, key, username, inputs, 0, l, l, [], whole)
  {
  }

  // One more line of input, and nothing more once it has ended.
  lemma SayStep(c: Crypto, key: Bytes, username: Bytes, inputs: seq<Option<Bytes>>, i: nat,
                before: Link, l: Link, packets: seq<Bytes>, sent: seq<Bytes>, open: bool, whole: bool)
    requires i < |inputs| && SaidSoFar(c, key, username, inputs, i, before, l, packets, open)
    requires Opens(c, key, sent, Spoken(username, [inputs[i]])) || (sent == [] && !whole)
    requires !open ==> sent == [] && !whole
    ensures !Ends(inputs[i]) ==>
              SaidSoFar(c, key, username, inputs, i + 1, before, l.SendAll(sent), packets + sent, whole)
    ensures Ends(inputs[i]) ==>
              SaidAll(c, key, username, inputs, before, l.SendAll(sent), packets + sent, whole)
  {
    SendAllConcat(before, packets, sent);
    SpokenSplit(username, inputs, i);
    var said, line := Spoken(username, inputs[..i]), Spoken(username, [inputs[i]]);
    if sent == [] {
      assert packets + sent == packets && (said + line)[..|packets|] == said[..|packets|];
    } else {
      assert said[..|packets|] == said && (said + line)[..|packets + sent|] == said + line;
      OpensConcat(c, key, packets, said, sent, line);
    }
  }

  lemma Weaken(c: Crypto, key: Bytes, username: Bytes, inputs: seq<Option<Bytes>>,
               before: Link, after: Link, packets: seq<Bytes>, whole: bool, less: bool)
    requires SaidAll(c, key, username, inputs, before, after, packets, whole) && (less ==> whole)
    ensures SaidAll(c, key, username, inputs, before, after, packets, less)
  {
  }

  lemma AllSaid(c: Crypto, key: Bytes, username: Bytes, inputs: seq<Option<Bytes>>, i: nat,
                before: Link, after: Link, packets: seq<Bytes>, open: bool, whole: bool)
    requires i <= |inputs| && SaidSoFar(c, key, username, inputs, i, before, after, packets, open)
    requires whole ==> open && i == |inputs|
    ensures SaidAll(c, key, username, inputs, before, after, packets, whole)
  {
    SpokenPrefix(username, inputs, i);
    assert inputs[..|inputs|] == inputs;
    var some, all := Spoken(username, inputs[..i]), Spoken(username, inputs);
    assert some[..|packets|] == all[..|packets|];
  }

  lemma {:induction false} SpokenPrefix(username: Bytes, inputs: seq<Option<Bytes>>, i: nat)
    requires i <= |inputs|
    ensures Spoken(username, inputs[..i]) <= Spoken(username, inputs)
    decreases i
  {
    if i > 0 {
      SpokenPrefix(username, inputs[1..], i - 1);
      assert inputs[..i][1..] == inputs[1..][..i - 1];
    }
  }

  lemma {:induction false} SpokenSplit(username: Bytes, inputs: seq<Option<Bytes>>, i: nat)
    requires i < |inputs| && forall j :: 0 <= j < i ==> !Ends(inputs[j])
    ensures Spoken(username, inputs[..i + 1]) == Spoken(username, inputs[..i]) + Spoken(username, [inputs[i]])
    ensures Ends(inputs[i]) ==> Spoken(username, inputs) == Spoken(username, inputs[..i + 1])
    decreases i
  {
    if i == 0 {
      assert inputs[..1] == [inputs[0]];
    } else {
      SpokenSplit(username, inputs[1..], i - 1);
      assert inputs[..i + 1][1..] == inputs[1..][..i] && inputs[..i][1..] == inputs[1..][..i - 1];
    }
  }

  lemma OpensConcat(c: Crypto, key: Bytes, ps: seq<Bytes>, ms: seq<Bytes>, qs: seq<Bytes>, ns: seq<Bytes>)
    requires Opens(c, key, ps, ms) && Opens(c, key, qs, ns)
    ensures Opens(c, key, ps + qs, ms + ns)
  {
  }

  // A line that is to be said: it is not empty, and no end of input and no exit command comes
  // before it or is it.
  predicate ToBeSaid(inputs: seq<Option<Bytes>>, j: nat) {
    && j < |inputs| && inputs[j] != Some([])
    && forall i :: 0 <= i <= j ==> inputs[i].Some? && inputs[i].value != Ascii("/exit")
  }

  // The packets say these lines, in order, and none before the last of them is left out - none at
  // all, if it is the whole.
  ghost predicate SaysLines(c: Crypto, key: Bytes, username: Bytes, inputs: seq<Option<Bytes>>,
                            packets: seq<Bytes>, lines: seq<nat>, whole: bool) {
    && |lines| == |packets|
    && (forall m :: 0 <= m < |lines| ==>
          && ToBeSaid(inputs, lines[m])
          && OpenPacket(c, key, packets[m]) == Some(username + Ascii(": ") + inputs[lines[m]].value))
    && (forall m, n :: 0 <= m < n < |lines| ==> lines[m] < lines[n])
    && (forall j, m :: 0 <= m < |lines| && ToBeSaid(inputs, j) && j < lines[m] ==> j in lines)
    && (whole ==> forall j :: ToBeSaid(inputs, j) ==> j in lines)
  }

  ghost predicate SaysItsLines(c: Crypto, key: Bytes, username: Bytes, inputs: seq<Option<Bytes>>,
                               packets: seq<Bytes>, whole: bool) {
    exists lines :: SaysLines(c, key, username, inputs, packets, lines, whole)
  }

  function Shifted(lines: seq<nat>): seq<nat> {
    seq(|lines|, m requires 0 <= m < |lines| => lines[m] + 1)
  }

  // The lines behind what is spoken.
  function LinesOf(inputs: seq<Option<Bytes>>): seq<nat> {
    if inputs == [] || Ends(inputs[0]) then []
    else if inputs[0].value == [] then Shifted(LinesOf(inputs[1..]))
    else [0] + Shifted(LinesOf(inputs[1..]))
  }

  lemma {:induction false} LinesSpoken(username: Bytes, inputs: seq<Option<Bytes>>)
    ensures |LinesOf(inputs)| == |Spoken(username, inputs)|
    ensures forall m :: 0 <= m < |LinesOf(inputs)| ==>
              && LinesOf(inputs)[m] < |inputs| && inputs[LinesOf(inputs)[m]].Some?
              && Spoken(username, inputs)[m] == username + Ascii(": ") + inputs[LinesOf(inputs)[m]].value
    decreases |inputs|
  {
    if inputs != [] && !Ends(inputs[0]) {
      LinesSpoken(username, inputs[1..]);
    }
  }

  lemma {:induction false} LinesIncrease(inputs: seq<Option<Bytes>>)
    ensures forall m, n :: 0 <= m < n < |LinesOf(inputs)| ==> LinesOf(inputs)[m] < LinesOf(inputs)[n]
    decreases |inputs|
  {
    if inputs != [] && !Ends(inputs[0]) {
      LinesIncrease(inputs[1..]);
    }
  }

  lemma {:induction false} LinesExactly(inputs: seq<Option<Bytes>>, j: nat)
    ensures j in LinesOf(inputs) <==> ToBeSaid(inputs, j)
    decreases |inputs|
  {
    hide ToBeSaid;
    if inputs == [] || Ends(inputs[0]) {
      NoLine(inputs, j);
    } else if j == 0 {
      FirstLine(inputs);
      ShiftedExactly(LinesOf(inputs[1..]), j);
    } else {
      LinesExactly(inputs[1..], j - 1);
      LaterLine(inputs, j - 1);
      ShiftedExactly(LinesOf(inputs[1..]), j);
    }
  }

  lemma NoLine(inputs: seq<Option<Bytes>>, j: nat)
    requires inputs == [] || Ends(inputs[0])
    ensures !ToBeSaid(inputs, j)
  {
    assert inputs != [] ==> Ends(inputs[0]);
  }

  lemma FirstLine(inputs: seq<Option<Bytes>>)
    requires inputs != [] && !Ends(inputs[0])
    ensures ToBeSaid(inputs, 0) <==> inputs[0].value != []
  {
  }

  lemma ShiftedExactly(lines: seq<nat>, j: nat)
    ensures j in Shifted(lines) <==> j > 0 && j - 1 in lines
  {
    if j > 0 && j - 1 in lines {
      var m :| 0 <= m < |lines| && lines[m] == j - 1;
      assert Shifted(lines)[m] == j;
    }
  }

  lemma LaterLine(inputs: seq<Option<Bytes>>, j: nat)
    requires inputs != [] && !Ends(inputs[0])
    ensures ToBeSaid(inputs[1..], j) <==> ToBeSaid(inputs, j + 1)
  {
    if ToBeSaid(inputs[1..], j) {
      forall i | 0 <= i <= j + 1 ensures inputs[i].Some? && inputs[i].value != EXIT {
        assert i > 0 ==> inputs[i] == inputs[1..][i - 1];
      }
    }
    if ToBeSaid(inputs, j + 1) {
      forall i | 0 <= i <= j ensures inputs[1..][i].Some? && inputs[1..][i].value != EXIT {
        assert inputs[1..][i] == inputs[i + 1];
      }
    }
  }

  // Of an increasing list, the first ones leave out none before the last of them.
  lemma FirstLines(inputs: seq<Option<Bytes>>, n: nat)
    requires n <= |LinesOf(inputs)|
    ensures var lines := LinesOf(inputs)[..n];
            && (forall m :: 0 <= m < n ==> ToBeSaid(inputs, lines[m]))
            && (forall j, m :: 0 <= m < n && ToBeSaid(inputs, j) && j < lines[m] ==> j in lines)
            && (n == |LinesOf(inputs)| ==> forall j :: ToBeSaid(inputs, j) ==> j in lines)
  {
    LinesIncrease(inputs);
    var all := LinesOf(inputs);
    hide LinesOf, ToBeSaid;
    forall m | 0 <= m < n ensures ToBeSaid(inputs, all[m]) {
      LinesExactly(inputs, all[m]);
    }
    forall j, m | 0 <= m < n && ToBeSaid(inputs, j) && j < all[m] ensures j in all[..n] {
      LinesExactly(inputs, j);
      var i :| 0 <= i < |all| && all[i] == j;
      assert i < m && all[..n][i] == j;
    }
    forall j | n == |all| && ToBeSaid(inputs, j) ensures j in all[..n] {
      LinesExactly(inputs, j);
    }
  }

  lemma LinesSaid(c: Crypto, key: Bytes, username: Bytes, inputs: seq<Option<Bytes>>,
                  before: Link, after: Link, packets: seq<Bytes>, whole: bool)
    requires SaidAll(c, key, username, inputs, before, after, packets, whole)
    ensures SaysItsLines(c, key, username, inputs, packets, whole)
  {
    LinesSpoken(username, inputs);
    LinesIncrease(inputs);
    FirstLines(inputs, |packets|);
    var all, texts := LinesOf(inputs), Spoken(username, inputs);
    var lines := all[..|packets|];
    assert forall m :: 0 <= m < |packets| ==> texts[..|packets|][m] == texts[m];
    hide LinesOf, Spoken, ToBeSaid;
    assert SaysLines(c, key, username, inputs, packets, lines, whole);
  }

  // ------------------------------------------------------------ the program

  class Client {
    const crypto: Crypto
    const session: NetworkSession
    const ui: Screen

    var secretKey: Bytes
    var serverPk: Bytes
    var groupKey: Bytes
    var username: Bytes

    var running: bool
    var stopping: bool
    var exitReason: ExitReason

    constructor (crypto: Crypto, session: NetworkSession, ui: Screen, secretKey: Bytes)
      ensures this.crypto == crypto && this.session == session && this.ui == ui
      ensures this.secretKey == secretKey && |groupKey| == KEY_BYTES
      ensures !running && !stopping && exitReason == Shutdown.NoReason
    {
      this.crypto, this.session, this.ui, this.secretKey := crypto, session, ui, secretKey;
      serverPk, groupKey, username := [], Zeros(KEY_BYTES), [];
      running, stopping, exitReason := false, false, Shutdown.NoReason;
    }

    // The key exchange at the start: ours goes out, then two packets are read by position.
    method ExchangeKeys() returns (outcome: Outcome)
      requires session.Valid() && |groupKey| == KEY_BYTES
      modifies this`serverPk, this`groupKey
      modifies session`inbox, session`wire, session`budget, session`link
      ensures session.Valid()
      ensures session.socketfd >= 0 ==> session.link == old(session.link).Send(crypto.publicKey(secretKey))
      ensures outcome == Greet(crypto, secretKey, old(groupKey), old(session.Pending()))
      ensures outcome.Ready? ==>
                serverPk == outcome.serverPk && groupKey == outcome.groupKey && session.Pending() == outcome.rest
    {
      hide ReadPacket, NetworkSession.Valid;
      var _ := session.SendPacket(crypto.publicKey(secretKey));
      var srvpkPkt := session.RecvPacket();
      if srvpkPkt.None? {
        return Failed;
      }
      if |srvpkPkt.value| < PUBLIC_KEY_BYTES {
        return Undefined;
      }
      serverPk := srvpkPkt.value[..PUBLIC_KEY_BYTES];
      var grpPkt := session.RecvPacket();
      if grpPkt.None? {
        return Failed;
      }
      if |grpPkt.value| < NONCE_BYTES {
        return Undefined;
      }
      var boxKey := crypto.shared(serverPk, secretKey);
      if boxKey.None? {
        return Failed;
      }
      var key := crypto.open(boxKey.value, grpPkt.value[..NONCE_BYTES], grpPkt.value[NONCE_BYTES..]);
      if key.None? {
        return Failed;
      }
      if |key.value| > KEY_BYTES {
        return Undefined;
      }
      groupKey := key.value + groupKey[|key.value|..];
      outcome := Ready(serverPk, groupKey, session.Pending());
    }

    // The name is sent only if it is neither missing, empty nor too long.
    method SendUsername(name: Option<Bytes>) returns (ok: bool, ghost payload: Bytes)
      requires session.Valid() && session.socketfd >= 0 && Ideal(crypto)
      modifies this`username, this`running, session`wire, session`budget, session`link
      ensures session.Valid()
      ensures name.Some? && 0 < |name.value| <= MAX_USERNAME_LEN ==>
                && OpenPacket(crypto, groupKey, payload) == name
                && session.link == old(session.link).Send(payload) && ok == !session.link.failed
      ensures name.None? || |name.value| == 0 || |name.value| > MAX_USERNAME_LEN ==>
                !ok && session.link == old(session.link)
      ensures ok ==> running && Some(username) == name
      ensures !ok ==> running == old(running) && username == old(username)
    {
      payload := [];
      if name.None? || |name.value| == 0 || |name.value| > MAX_USERNAME_LEN {
        return false, payload;
      }
      ok, payload := SendEncrypted(name.value);
      if !ok {
        return;
      }
      username := name.value;
      running := true;
    }

    method SendEncrypted(plaintext: Bytes) returns (ok: bool, ghost payload: Bytes)
      requires session.Valid() && Ideal(crypto)
      modifies session`wire, session`budget, session`link
      ensures session.Valid()
      ensures OpenPacket(crypto, groupKey, payload) == Some(plaintext)
      ensures session.socketfd >= 0 ==> session.link == old(session.link).Send(payload) && ok == !session.link.failed
      ensures session.socketfd < 0 ==> session.link == old(session.link) && !ok
    {
      var nonce: Nonce := *;
      var packet := nonce + crypto.seal(groupKey, nonce, plaintext);
      assert packet == SealPacket(crypto, groupKey, nonce, plaintext);
      SealedOpens(crypto, groupKey, nonce, plaintext);
      payload := packet;
      ok := session.SendPacket(packet);
    }

    // The plaintext buffer has exactly the size of the plaintext, whenever there is one.
    method RecvDecrypted() returns (msg: Option<Bytes>)
      requires Ideal(crypto)
      modifies session`inbox
      ensures var read := ReadPacket(old(session.Pending()));
              && session.Pending() == read.rest
              && msg == if read.packet.None? then None else Decrypt(crypto, groupKey, read.packet.value)
    {
      var enc := session.RecvPacket();
      if enc.None? {
        return None;
      }
      if |enc.value| < NONCE_BYTES + MAC_BYTES {
        return None;
      }
      var ctLen: nat := |enc.value| - NONCE_BYTES;
      var ptLen: nat := ctLen - MAC_BYTES;
      if ctLen <= MAC_BYTES {
        return None;
      }
      var pt := crypto.open(groupKey, enc.value[..NONCE_BYTES], enc.value[NONCE_BYTES..]);
      if pt.None? {
        return None;
      }
      assert |pt.value| == ptLen by {
        assert crypto.seal(groupKey, enc.value[..NONCE_BYTES], pt.value) == enc.value[NONCE_BYTES..];
      }
      return pt;
    }

    /**
     What the other threads may do while a thread is between two accesses to what they share: print
     what is queued, and execute any part of Stop, in its order - nothing of the latter if the
     thread is left `alone`. It is called before and after the receive and the send, after every
     test of a flag, before a message is queued and after it, and between the statements of Stop;
     never within a receive, a send, PushMessage or CloseSession.
     */
    method OtherThreads(alone: bool)
      modifies this`running, this`stopping, session`socketfd, ui
      ensures old(Orderly()) ==> Orderly()
      ensures (old(stopping) ==> stopping) && (running ==> old(running)) && (ui.running ==> old(ui.running))
      ensures session.socketfd == old(session.socketfd) || session.socketfd < 0
      ensures ui.printed + ui.queue == old(ui.printed + ui.queue)
      ensures alone ==>
                && stopping == old(stopping) && running == old(running) && ui.running == old(ui.running)
                && session.socketfd == old(session.socketfd)
    {
      if * {
        ui.PrintBufferedMessages();
      }
      if alone {
        return;
      }
      if * {
        return;
      }
      stopping := true;
      if * {
        return;
      }
      running := false;
      if * {
        return;
      }
      ui.running := false;
      if * {
        return;
      }
      session.CloseSession();
    }

    // One turn of the receiving loop: a message shown, or the reason to end noted.
    method ReceiveOne(alone: bool) returns (more: bool, ghost got: seq<Bytes>, ghost shown: seq<Bytes>)
      requires Ideal(crypto) && Orderly()
      modifies this`running, this`stopping, this`exitReason, session`inbox, session`socketfd, ui
      ensures Orderly() && (ui.running ==> old(ui.running))
      ensures ui.printed + ui.queue == old(ui.printed + ui.queue) + shown
      ensures shown == [] || (shown == got && old(ui.running))
      ensures ui.running ==> shown == got
      ensures got != [] || session.socketfd >= 0 ==> old(session.socketfd) >= 0
      ensures var before := Listen(crypto, groupKey, old(session.Pending()));
              && got <= before.shown
              && (more && session.socketfd >= 0 ==>
                    var after := Listen(crypto, groupKey, session.Pending());
                    before.shown == got + after.shown && before.reason == after.reason)
              && (more ==> exitReason == old(exitReason))
              && (!more ==> got == [])
              && (exitReason == old(exitReason) || (old(session.socketfd) >= 0 && exitReason == before.reason))
              && (alone && !more && old(Active()) ==> before.shown == [] && exitReason == before.reason)
      ensures more ==> |session.Pending().bytes| < |old(session.Pending()).bytes|
      ensures alone && old(Active()) ==> if more then Active() else stopping ==> Stopped()
    {
      hide Decrypt, Ideal, Listen, ReadPacket;
      got, shown := [], [];
      ListenOnce(crypto, groupKey, session.Pending());
      OtherThreads(alone);
      FailsExactly(Source([], Broken));
      ghost var open := session.socketfd >= 0;
      var msg := RecvDecrypted();
      OtherThreads(alone);
      more := false;
      if msg.None? {
        if !stopping {
          OtherThreads(alone);
          exitReason := Shutdown.ServerClosed;
        }
        return;
      }
      if msg.value == USERNAME_TAKEN {
        exitReason := Shutdown.NameTaken;
        OtherThreads(alone);
        Stop(alone);
        return;
      }
      got := [msg.value];
      shown := if ui.running then got else [];
      ghost var screen := ui.printed + ui.queue;
      ui.PushMessage(msg.value);
      assert ui.printed + ui.queue == screen + shown;
      OtherThreads(alone);
      more := true;
    }

    /**
     The receiving thread, with the other threads at work: what it adds to the screen is always a
     beginning, in order, of what there is to hear, and the reason it notes, if any, is the one
     that Listen gives. Left alone it shows all of it and stops the client.
     */
    method HandleBroadcast(alone: bool) returns (ghost shown: seq<Bytes>)
      requires Ideal(crypto) && Orderly()
      modifies this`running, this`stopping, this`exitReason, session`inbox, session`socketfd, ui
      ensures ui.printed + ui.queue == old(ui.printed + ui.queue) + shown
      ensures stopping
      ensures var heard := Listen(crypto, groupKey, old(session.Pending()));
              && shown <= heard.shown
              && (exitReason == old(exitReason) || exitReason == heard.reason)
              && (alone && old(Active()) ==> shown == heard.shown && exitReason == heard.reason && Stopped())
    {
      hide Listen, Ideal, Orderly, ReadPacket, Frame;
      ghost var heard := Listen(crypto, groupKey, session.Pending());
      ghost var all: seq<Bytes> := [];
      shown := [];
      while running
        invariant Orderly() && exitReason == old(exitReason)
        invariant ui.printed + ui.queue == old(ui.printed + ui.queue) + shown
        invariant shown <= all <= heard.shown && (ui.running ==> shown == all)
        invariant session.socketfd >= 0 ==>
                    var rest := Listen(crypto, groupKey, session.Pending());
                    heard.shown == all + rest.shown && heard.reason == rest.reason
        invariant alone && old(Active()) ==> Active()
        decreases |session.Pending().bytes|
      {
        ghost var before := Listen(crypto, groupKey, session.Pending()).shown;
        var more, got, added := ReceiveOne(alone);
        if !more {
          break;
        }
        HearStep(heard.shown, all, before, got, shown, added);
        all, shown := all + got, shown + added;
      }
      Stop(alone);
    }

    // One result of the prompt: said, skipped or the end.
    method SayOne(input: Option<Bytes>, alone: bool) returns (more: bool, ghost packets: seq<Bytes>)
      requires session.Valid() && Ideal(crypto) && Orderly()
      modifies this`running, this`stopping, ui
      modifies session`socketfd, session`wire, session`budget, session`link
      ensures session.Valid() && Orderly() && session.link == old(session.link).SendAll(packets)
      ensures Opens(crypto, groupKey, packets, Spoken(username, [input])) || (packets == [] && session.socketfd < 0)
      ensures old(session.socketfd) < 0 ==> packets == [] && session.socketfd < 0
      ensures more <==> !Ends(input)
      ensures alone && old(Active()) ==> if more then Active() else stopping ==> Stopped()
      ensures alone && old(Active()) ==> Opens(crypto, groupKey, packets, Spoken(username, [input]))
    {
      packets := [];
      OtherThreads(alone);
      if input.None? {
        return false, packets;
      }
      if input.value == [] {
        return true, packets;
      }
      if input.value == EXIT {
        Stop(alone);
        return false, packets;
      }
      ghost var before := session.link;
      var _, payload := SendEncrypted(username + SEPARATOR + input.value);
      packets := if session.socketfd >= 0 then [payload] else [];
      assert before.SendAll([payload]) == before.Send(payload).SendAll([]);
      assert Spoken(username, [input]) == [Said(username, input.value)] + Spoken(username, []);
      OtherThreads(alone);
      return true, packets;
    }

    // One turn of the input loop, given what has been said so far.
    method SayNext(inputs: seq<Option<Bytes>>, i: nat, alone: bool, ghost link: Link, ghost said: seq<Bytes>)
      returns (more: bool, ghost packets: seq<Bytes>)
      requires session.Valid() && Ideal(crypto) && Orderly() && i < |inputs|
      requires SaidSoFar(crypto, groupKey, username, inputs, i, link, session.link, said, session.socketfd >= 0)
      modifies this`running, this`stopping, ui
      modifies session`socketfd, session`wire, session`budget, session`link
      ensures session.Valid() && Orderly()
      ensures more ==> SaidSoFar(crypto, groupKey, username, inputs, i + 1, link, session.link, packets, session.socketfd >= 0)
      ensures !more ==>
                SaidAll(crypto, groupKey, username, inputs, link, session.link, packets, alone && old(Active()))
      ensures alone && old(Active()) ==> if more then Active() else stopping ==> Stopped()
    {
      hide SaidSoFar, SaidAll, Opens, Spoken, Ends, Ideal, NetworkSession.Valid;
      ghost var before, open, calm := session.link, session.socketfd >= 0, alone && Active();
      ghost var sent;
      more, sent := SayOne(inputs[i], alone);
      ghost var whole := session.socketfd >= 0 || calm;
      SayStep(crypto, groupKey, username, inputs, i, link, before, said, sent, open, whole);
      packets := said + sent;
      if !more {
        Weaken(crypto, groupKey, username, inputs, link, session.link, packets, whole, calm);
      }
    }

    /**
     The input thread on these results of the prompt, with the other threads at work: what it
     sends opens, one to one and in order, to a beginning of what is to be said. Left alone it
     sends all of it and stops the client.
     */
    method ClientLoop(inputs: seq<Option<Bytes>>, alone: bool) returns (ghost packets: seq<Bytes>)
      requires session.Valid() && Ideal(crypto) && Orderly()
      modifies this`running, this`stopping, ui
      modifies session`socketfd, session`wire, session`budget, session`link
      ensures session.Valid() && stopping
      ensures SaidAll(crypto, groupKey, username, inputs, old(session.link), session.link, packets, alone && old(Active()))
      ensures SaysItsLines(crypto, groupKey, username, inputs, packets, alone && old(Active()))
      ensures alone && old(Active()) ==> Stopped()
    {
      packets := [];
      ghost var link, calm, over := session.link, alone && Active(), false;
      var i := 0;
      hide SaidSoFar, SaidAll, SaysItsLines, Ideal, Orderly, NetworkSession.Valid;
      NothingSaid(crypto, groupKey, username, inputs, link, session.socketfd >= 0);
      while i < |inputs| && running
        invariant 0 <= i <= |inputs| && Orderly() && session.Valid()
        invariant SaidSoFar(crypto, groupKey, username, inputs, i, link, session.link, packets, session.socketfd >= 0)
        invariant (calm ==> Active()) && !over
      {
        ghost var active := alone && Active();
        var more;
        more, packets := SayNext(inputs, i, alone, link, packets);
        if !more {
          Weaken(crypto, groupKey, username, inputs, link, session.link, packets, active, calm);
          over := true;
          break;
        }
        i := i + 1;
      }
      if !over {
        AllSaid(crypto, groupKey, username, inputs, i, link, session.link, packets, session.socketfd >= 0, calm);
      }
      LinesSaid(crypto, groupKey, username, inputs, link, session.link, packets, calm);
      Stop(alone);
    }

    // Nothing is cleared before `stopping` is set.
    ghost predicate Orderly()
      reads this, session, ui
    {
      !running || !ui.running || session.socketfd < 0 ==> stopping
    }

    // In the chat, and nobody has asked to stop.
    ghost predicate Active()
      reads this, session, ui
    {
      running && !stopping && ui.running && session.socketfd >= 0
    }

    ghost predicate Stopped()
      reads this, session, ui
    {
      stopping && !running && !ui.running && session.socketfd < 0
    }

    // Past its test, everything is cleared and the session closed, whatever the other threads do
    // meanwhile: they may be in the same statements, since the test and the setting are separate.
    method Stop(alone: bool)
      modifies this`stopping, this`running, session`socketfd, ui
      ensures stopping && (old(Orderly()) ==> Orderly())
      ensures !old(stopping) ==> Stopped()
      ensures old(stopping) ==>
                running == old(running) && ui.running == old(ui.running) && session.socketfd == old(session.socketfd)
      ensures ui.printed + ui.queue == old(ui.printed + ui.queue) && (ui.running ==> old(ui.running))
      ensures session.socketfd == old(session.socketfd) || session.socketfd < 0
    {
      if stopping {
        return;
      }
      OtherThreads(alone);
      stopping := true;
      OtherThreads(alone);
      running := false;
      OtherThreads(alone);
      ui.running := false;
      OtherThreads(alone);
      session.CloseSession();
    }
  }
}

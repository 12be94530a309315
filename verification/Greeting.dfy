/** The handshake as the client sees it, for every part of the wire and every way it can end. */
module Greeting {
  import opened Octets
  import opened Framing
  import opened Secretbox
  import opened ServerState
  import opened ServerRuns
  import opened Delivery
  import opened ClientProgram

  // The bytes of the two packets of the handshake.
  function HandshakeLength(k: Context): nat {
    4 + |k.pk| + 4 + NONCE_BYTES + MAC_BYTES + |k.groupKey|
  }

  lemma KeyPacketSize(k: Context, clientPk: Bytes, p: Bytes)
    requires k.WellFormed() && IsKeyPacket(k, clientPk, p)
    ensures |p| == NONCE_BYTES + MAC_BYTES + KEY_BYTES
    ensures OpenPacket(k.crypto, k.crypto.shared(clientPk, k.sk).value, p) == Some(k.groupKey)
  {
    var boxKey := k.crypto.shared(clientPk, k.sk).value;
    var nonce: Nonce :| p == KeyPacket(k, boxKey, nonce);
    SealedOpens(k.crypto, boxKey, nonce, k.groupKey);
  }

  // Both packets are there: the client gets through and holds the server's group key.
  lemma GreetWhole(k: Context, sk: Bytes, oldKey: Bytes, keyPacket: Bytes, rest: Bytes, ending: Ending)
    requires k.WellFormed() && |oldKey| == KEY_BYTES
    requires IsKeyPacket(k, k.crypto.publicKey(sk), keyPacket)
    ensures Greet(k.crypto, sk, oldKey, Source(Frame(k.pk) + (Frame(keyPacket) + rest), ending)) ==
            Ready(k.pk, k.groupKey, Source(rest, ending))
  {
    RoundTripExactly(k.pk, Frame(keyPacket) + rest, ending);
    KeyPacketSize(k, k.crypto.publicKey(sk), keyPacket);
    RoundTripExactly(keyPacket, rest, ending);
    assert k.pk[..PUBLIC_KEY_BYTES] == k.pk;
    assert k.crypto.shared(k.pk, sk) == k.crypto.shared(k.crypto.publicKey(sk), k.sk);
    assert k.groupKey + oldKey[|k.groupKey|..] == k.groupKey;
  }

  // The bytes of a wire behind its first packets.
  lemma WireSplit(l: Link)
    ensures |l.sent| == 0 ==> l.Wire() == l.tail
    ensures |l.sent| > 0 ==> l.Wire() == Frame(l.sent[0]) + (FrameAll(l.sent[1..]) + l.tail)
  {
    if |l.sent| == 0 {
      assert FrameAll(l.sent) == [];
      assert [] + l.tail == l.tail;
    } else {
      var first, more := Frame(l.sent[0]), FrameAll(l.sent[1..]);
      assert FrameAll(l.sent) == first + more;
      assert (first + more) + l.tail == first + (more + l.tail);
    }
  }

  // A wire either holds both handshake packets or is a part of the frames of such packets.
  lemma HandshakeWire(k: Context, clientPk: Bytes, l: Link)
    requires Handshake(k, clientPk, l)
    ensures || (|l.sent| == 0 && l.Wire() == l.tail && l.tail < Frame(k.pk))
            || l.Wire() == Frame(k.pk)
            || exists p, more: Bytes ::
                 && IsKeyPacket(k, clientPk, p) && l.Wire() == Frame(k.pk) + more
                 && (more < Frame(p) || (|l.sent| >= 2 && l.sent[1] == p && Frame(p) <= more))
  {
    WireSplit(l);
    if |l.sent| == 1 {
      assert FrameAll(l.sent[1..]) + l.tail == l.tail;
      if l.tail == [] {
        assert Frame(k.pk) + [] == Frame(k.pk);
      } else {
        var p :| IsKeyPacket(k, clientPk, p) && l.tail < Frame(p);
      }
    } else if |l.sent| >= 2 {
      var p, more := l.sent[1], FrameAll(l.sent[1..]) + l.tail;
      assert FrameAll(l.sent[1..]) == Frame(p) + FrameAll(l.sent[1..][1..]);
      assert Frame(p) <= more;
      assert l.Wire() == Frame(k.pk) + more;
    }
  }

  // ------------------------------------------------------------ a part of the handshake

  // What the client gets out of a second packet that a clean end of file has cut: the bytes that
  // are missing read as zero.
  function Completed(k: Context, sk: Bytes, bytes: Bytes): Option<Bytes>
    requires |Frame(k.pk)| + 4 < |bytes| < HandshakeLength(k)
  {
    if k.crypto.shared(k.pk, sk).None? then None
    else OpenPacket(k.crypto, k.crypto.shared(k.pk, sk).value,
                    bytes[|Frame(k.pk)| + 4..] + Zeros(HandshakeLength(k) - |bytes|))
  }

  // The outcome on a stream that ends within the handshake.
  function CutOutcome(k: Context, sk: Bytes, bytes: Bytes, ending: Ending): Outcome
    requires |bytes| < HandshakeLength(k)
  {
    if ending.Broken? then Failed
    else if 1 <= |bytes| <= 3 || 37 <= |bytes| <= 39 then Undefined
    else if |bytes| <= |Frame(k.pk)| + 4 || Completed(k, sk, bytes).None? then Failed
    else Ready(k.pk, Completed(k, sk, bytes).value, Source([], Eof))
  }

  lemma GreetCutFirst(k: Context, sk: Bytes, oldKey: Bytes, bytes: Bytes, ending: Ending)
    requires k.WellFormed() && |oldKey| == KEY_BYTES && bytes <= Frame(k.pk)
    ensures Greet(k.crypto, sk, oldKey, Source(bytes, ending)) == CutOutcome(k, sk, bytes, ending)
  {
    FailsExactly(Source([], ending));
    if bytes == Frame(k.pk) {
      assert bytes == Frame(k.pk) + [];
      RoundTripExactly(k.pk, [], ending);
    } else if ending.Broken? {
      UnfinishedFrameFails(k.pk, bytes);
    } else {
      UnfinishedFrameIsCompleted(k.pk, bytes);
      if |bytes| < 4 {
        ShortHeader(k.pk, bytes);
      }
    }
  }

  lemma GreetCutSecond(k: Context, sk: Bytes, oldKey: Bytes, p: Bytes, part: Bytes, ending: Ending)
    requires k.WellFormed() && |oldKey| == KEY_BYTES
    requires IsKeyPacket(k, k.crypto.publicKey(sk), p) && part < Frame(p)
    ensures Greet(k.crypto, sk, oldKey, Source(Frame(k.pk) + part, ending)) ==
            CutOutcome(k, sk, Frame(k.pk) + part, ending)
  {
    var bytes := Frame(k.pk) + part;
    RoundTripExactly(k.pk, part, ending);
    KeyPacketSize(k, k.crypto.publicKey(sk), p);
    assert k.pk[..PUBLIC_KEY_BYTES] == k.pk;
    if ending.Broken? {
      UnfinishedFrameFails(p, part);
    } else {
      UnfinishedFrameIsCompleted(p, part);
      if |part| < 4 {
        ShortHeader(p, part);
      }
      if |part| > 4 {
        assert bytes[|Frame(k.pk)| + 4..] == part[4..];
        if Completed(k, sk, bytes).Some? {
          CompletedSize(k, sk, oldKey, bytes);
        }
      }
    }
  }

  // Whatever opens to a group key has the size of one.
  lemma CompletedSize(k: Context, sk: Bytes, oldKey: Bytes, bytes: Bytes)
    requires k.WellFormed() && |oldKey| == KEY_BYTES && |Frame(k.pk)| + 4 < |bytes| < HandshakeLength(k)
    requires Completed(k, sk, bytes).Some?
    ensures var key := Completed(k, sk, bytes).value; |key| == KEY_BYTES && key + oldKey[|key|..] == key
  {
    var packet := bytes[|Frame(k.pk)| + 4..] + Zeros(HandshakeLength(k) - |bytes|);
    OpensExactly(k.crypto, k.crypto.shared(k.pk, sk).value, packet, Completed(k, sk, bytes).value);
  }

  lemma GreetAnyPart(k: Context, l: Link, sk: Bytes, oldKey: Bytes, bytes: Bytes, ending: Ending)
    requires k.WellFormed() && |oldKey| == KEY_BYTES
    requires Handshake(k, k.crypto.publicKey(sk), l) && bytes <= l.Wire()
    ensures Greet(k.crypto, sk, oldKey, Source(bytes, ending)) ==
            if |bytes| < HandshakeLength(k) then CutOutcome(k, sk, bytes, ending)
            else Ready(k.pk, k.groupKey, Source(bytes[HandshakeLength(k)..], ending))
  {
    hide Greet, CutOutcome, IsKeyPacket;
    var clientPk := k.crypto.publicKey(sk);
    HandshakeWire(k, clientPk, l);
    if |bytes| <= |Frame(k.pk)| || l.Wire() == Frame(k.pk) {
      assert bytes <= Frame(k.pk);
      GreetCutFirst(k, sk, oldKey, bytes, ending);
    } else {
      var p, more: Bytes :|
        && IsKeyPacket(k, clientPk, p) && l.Wire() == Frame(k.pk) + more
        && (more < Frame(p) || (|l.sent| >= 2 && l.sent[1] == p && Frame(p) <= more));
      GreetPartOf(k, sk, oldKey, p, more, bytes, ending);
    }
  }

  lemma GreetPartOf(k: Context, sk: Bytes, oldKey: Bytes, p: Bytes, more: Bytes, bytes: Bytes, ending: Ending)
    requires k.WellFormed() && |oldKey| == KEY_BYTES && IsKeyPacket(k, k.crypto.publicKey(sk), p)
    requires more < Frame(p) || Frame(p) <= more
    requires |Frame(k.pk)| < |bytes| && bytes <= Frame(k.pk) + more
    ensures Greet(k.crypto, sk, oldKey, Source(bytes, ending)) ==
            if |bytes| < HandshakeLength(k) then CutOutcome(k, sk, bytes, ending)
            else Ready(k.pk, k.groupKey, Source(bytes[HandshakeLength(k)..], ending))
  {
    hide Greet, CutOutcome;
    KeyPacketSize(k, k.crypto.publicKey(sk), p);
    var read := bytes[|Frame(k.pk)|..];
    assert read <= more && bytes == Frame(k.pk) + read;
    if |bytes| < HandshakeLength(k) {
      assert read < Frame(p);
      GreetCutSecond(k, sk, oldKey, p, read, ending);
    } else {
      var rest := bytes[HandshakeLength(k)..];
      assert bytes == Frame(k.pk) + (Frame(p) + rest);
      GreetWhole(k, sk, oldKey, p, rest, ending);
    }
  }

  // ------------------------------------------------------------ key agreement

  /**
   Key agreement: take any connection, open or over, on which the server has noted this client's
   public key, and any part of what is on its wire, ending in any way. If both packets are there,
   the client gets through with the server's group key. If not and the stream ends in an error,
   it fails. After a clean end of file it reads outside its buffer exactly when the end cuts one of
   the two headers, and it gets through exactly when a cut second packet, filled up with zeros,
   opens.
   */
  lemma KeyAgreement(k: Context, s: State, info: ClientInfo, l: Link, join: nat, refused: bool,
                     sk: Bytes, oldKey: Bytes, bytes: Bytes, ending: Ending)
    requires k.WellFormed() && Inv(k, s) && OnRecord(s, info, l, join, refused)
    requires |oldKey| == KEY_BYTES && info.clientPk == k.crypto.publicKey(sk) && bytes <= l.Wire()
    ensures var outcome, whole := Greet(k.crypto, sk, oldKey, Source(bytes, ending)), |bytes| >= HandshakeLength(k);
            && (whole ==> outcome == Ready(k.pk, k.groupKey, Source(bytes[HandshakeLength(k)..], ending)))
            && (!whole && ending.Broken? ==> outcome == Failed)
            && (outcome.Undefined? <==> ending.Eof? && (1 <= |bytes| <= 3 || 37 <= |bytes| <= 39))
            && (outcome.Ready? <==> whole || (ending.Eof? && |bytes| > 40 && Completed(k, sk, bytes).Some?))
            && (outcome.Ready? && !whole ==>
                  outcome == Ready(k.pk, Completed(k, sk, bytes).value, Source([], Eof)))
  {
    hide Greet, Inv;
    StreamShape(k, s, info, l, join, refused);
    GreetAnyPart(k, l, sk, oldKey, bytes, ending);
  }

  // Once the nonce of the second packet is whole, a cut one gives the server's key exactly when
  // all the bytes that are missing are zero.
  lemma CutKeyExactly(k: Context, sk: Bytes, p: Bytes, bytes: Bytes)
    requires k.WellFormed() && IsKeyPacket(k, k.crypto.publicKey(sk), p)
    requires bytes < Frame(k.pk) + Frame(p) && |bytes| >= 40 + NONCE_BYTES
    ensures |p| == 72 && 40 < |bytes| < HandshakeLength(k)
    ensures Completed(k, sk, bytes) == Some(k.groupKey) <==> forall i :: |bytes| - 40 <= i < 72 ==> p[i] == 0
  {
    KeyPacketSize(k, k.crypto.publicKey(sk), p);
    var boxKey := k.crypto.shared(k.pk, sk).value;
    var packet := bytes[40..] + Zeros(HandshakeLength(k) - |bytes|);
    assert (Frame(k.pk) + Frame(p))[40..] == p;
    assert bytes[40..] == p[..|bytes| - 40];
    assert packet[..NONCE_BYTES] == p[..NONCE_BYTES];
    if OpenPacket(k.crypto, boxKey, packet) == Some(k.groupKey) {
      assert packet[NONCE_BYTES..] == p[NONCE_BYTES..];
      assert packet == packet[..NONCE_BYTES] + packet[NONCE_BYTES..];
      assert p == p[..NONCE_BYTES] + p[NONCE_BYTES..];
      assert packet == p;
    }
    if forall i :: |bytes| - 40 <= i < 72 ==> p[i] == 0 {
      assert packet == p;
    }
  }

  // The shortest input on which the client reads outside its buffer: one zero byte, as any
  // server sends it first, and then a clean end of file.
  lemma CutHeaderIsUndefined(c: Crypto, sk: Bytes, oldKey: Bytes)
    requires |oldKey| == KEY_BYTES
    ensures Greet(c, sk, oldKey, Source([0], Eof)) == Undefined
  {
    var src := Source([0], Eof);
    var header := src.bytes[..1] + Zeros(3);
    assert forall i :: 0 <= i < 4 ==> header[i] == 0;
    ZeroExactly(header);
  }

  // What the client still has to read once both packets are through.
  lemma BehindHandshake(k: Context, clientPk: Bytes, l: Link)
    requires k.WellFormed() && Handshake(k, clientPk, l)
    ensures |l.Wire()| >= HandshakeLength(k) <==> |l.sent| >= 2
    ensures |l.sent| >= 2 ==>
              && |FrameAll(l.sent[..2])| == HandshakeLength(k)
              && l.Wire()[HandshakeLength(k)..] == FrameAll(Delivered(l)) + l.tail
  {
    if |l.sent| >= 2 {
      KeyPacketSize(k, clientPk, l.sent[1]);
      FramesOfTwo(l.sent[..2]);
      WireParts(l);
      assert l.Wire() == FrameAll(l.sent[..2]) + (FrameAll(Delivered(l)) + l.tail);
    } else {
      WireSplit(l);
      if |l.sent| == 1 {
        assert FrameAll(l.sent[1..]) + l.tail == l.tail;
        if l.tail != [] {
          var p :| IsKeyPacket(k, clientPk, p) && l.tail < Frame(p);
          KeyPacketSize(k, clientPk, p);
        }
      }
    }
  }

  lemma FramesOfTwo(ps: seq<Bytes>)
    requires |ps| == 2
    ensures FrameAll(ps) == Frame(ps[0]) + Frame(ps[1])
  {
    assert FrameAll(ps[1..]) == Frame(ps[1]) + FrameAll(ps[1..][1..]);
    assert Frame(ps[1]) + [] == Frame(ps[1]);
  }
}

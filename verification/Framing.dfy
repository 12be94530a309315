/**
 Length-prefixed packets over a byte stream: what one side puts on the wire, what the other
 side reads back, and what is left when the link fails half way.
 */
module Framing {
  import opened Octets

  const WRAP := 0x1_0000_0000  // one more than the largest uint32_t

  // How many numbers fit so many bytes.
  function Bound(width: nat): nat {
    if width == 0 then 1 else 256 * Bound(width - 1)
  }

  // The most significant byte comes first.
  function BigEndian(n: nat, width: nat): (b: Bytes)
    ensures |b| == width
  {
    if width == 0 then [] else BigEndian(n / 256, width - 1) + [(n % 256) as Byte]
  }

  function FromBigEndian(b: Bytes): (n: nat)
    ensures n < Bound(|b|)
  {
    if b == [] then 0 else 256 * FromBigEndian(b[..|b| - 1]) + b[|b| - 1] as nat
  }

  lemma {:induction false} BigEndianRoundTrip(n: nat, width: nat)
    requires n < Bound(width)
    ensures FromBigEndian(BigEndian(n, width)) == n
    decreases width
  {
    if width > 0 {
      BigEndianRoundTrip(n / 256, width - 1);
      assert BigEndian(n, width)[..width - 1] == BigEndian(n / 256, width - 1);
    }
  }

  lemma {:induction false} BytesRoundTrip(b: Bytes)
    ensures BigEndian(FromBigEndian(b), |b|) == b
  {
    if b != [] {
      BytesRoundTrip(b[..|b| - 1]);
    }
  }

  lemma {:induction false} ZeroExactly(b: Bytes)
    ensures FromBigEndian(b) == 0 <==> forall i :: 0 <= i < |b| ==> b[i] == 0
  {
    if b != [] {
      ZeroExactly(b[..|b| - 1]);
    }
  }

  lemma FourBytes()
    ensures Bound(4) == WRAP
  {
    assert Bound(1) == 256 && Bound(2) == 0x1_0000 && Bound(3) == 0x100_0000;
  }

  // The length field of a frame (htonl followed by a byte copy).
  function EncodeLength(n: nat): (b: Bytes)
    requires n < WRAP
    ensures |b| == 4
  {
    BigEndian(n, 4)
  }

  function DecodeLength(b: Bytes): (n: nat)
    requires |b| == 4
    ensures n < WRAP
  {
    FourBytes();
    FromBigEndian(b)
  }

  // The order of the bytes on the wire, for every length.
  lemma LengthBytes(n: nat)
    requires n < WRAP
    ensures EncodeLength(n) ==
            [(n / 0x100_0000) as Byte, (n / 0x1_0000 % 256) as Byte, (n / 0x100 % 256) as Byte, (n % 256) as Byte]
  {
    var a, b, c := n / 256, n / 256 / 256, n / 256 / 256 / 256;
    assert b == n / 0x1_0000 && c == n / 0x100_0000 && c < 256;
    assert BigEndian(c, 1) == [c as Byte];
    assert BigEndian(b, 2) == [c as Byte, (b % 256) as Byte];
    assert BigEndian(a, 3) == [c as Byte, (b % 256) as Byte, (a % 256) as Byte];
  }

  lemma LengthOfBytes(a: Byte, b: Byte, c: Byte, d: Byte)
    ensures DecodeLength([a, b, c, d]) == 0x100_0000 * a as nat + 0x1_0000 * b as nat + 0x100 * c as nat + d as nat
  {
    assert [a][..0] == [] && FromBigEndian([a]) == a as nat;
    assert [a, b][..1] == [a] && FromBigEndian([a, b]) == 0x100 * a as nat + b as nat;
    assert [a, b, c][..2] == [a, b] && FromBigEndian([a, b, c]) == 0x1_0000 * a as nat + 0x100 * b as nat + c as nat;
    assert [a, b, c, d][..3] == [a, b, c];
  }

  // The bytes SendPacket hands to send_all. The length field is a uint32_t, so it wraps.
  function Frame(p: Bytes): (f: Bytes)
    ensures |f| == 4 + |p|
  {
    EncodeLength(|p| % WRAP) + p
  }

  // What a frame looks like on the wire.
  lemma FrameLayout(p: Bytes)
    ensures var n := |p| % WRAP;
            Frame(p) == [(n / 0x100_0000) as Byte, (n / 0x1_0000 % 256) as Byte, (n / 0x100 % 256) as Byte, (n % 256) as Byte] + p
  {
    LengthBytes(|p| % WRAP);
  }

  function FrameAll(ps: seq<Bytes>): Bytes {
    if ps == [] then [] else Frame(ps[0]) + FrameAll(ps[1..])
  }

  // The packets whose length fits the length field.
  predicate Framable(ps: seq<Bytes>) {
    forall i :: 0 <= i < |ps| ==> |ps[i]| < WRAP
  }

  // ---------------------------------------------------------------- reading

  // How a stream ends after its last byte: the peer closed it, or recv reports an error.
  datatype Ending = Eof | Broken

  // Everything a socket will still deliver.
  datatype Source = Source(bytes: Bytes, ending: Ending) {
    function Drop(n: nat): Source
      requires n <= |bytes|
    {
      Source(bytes[n..], ending)
    }
  }

  datatype Read = Read(packet: Option<Bytes>, rest: Source)

  // What RecvPacket returns and what it leaves unread. Both transfers are accepted as soon as
  // they deliver at least one byte, so bytes missing at end of file read as zero.
  function ReadPacket(src: Source): Read {
    var m := Min(4, |src.bytes|);
    var body := src.Drop(m);
    if m == 0 || (m < 4 && src.ending.Broken?) then
      Read(None, body)
    else
      var len := DecodeLength(src.bytes[..m] + Zeros(4 - m));
      if len == 0 then
        Read(Some([]), body)
      else
        var n := Min(len, |body.bytes|);
        if n == 0 || (n < len && src.ending.Broken?) then
          Read(None, body.Drop(n))
        else
          Read(Some(body.bytes[..n] + Zeros(len - n)), body.Drop(n))
  }

  datatype ReadMany = ReadMany(packets: seq<Bytes>, rest: Source)

  // Repeated RecvPacket, stopping at the first failure.
  function ReadPackets(src: Source, count: nat): ReadMany
    decreases count
  {
    if count == 0 then ReadMany([], src)
    else
      var first := ReadPacket(src);
      if first.packet.None? then ReadMany([], first.rest)
      else
        var more := ReadPackets(first.rest, count - 1);
        ReadMany([first.packet.value] + more.packets, more.rest)
  }

  // A frame at the head of the stream: its length field and its payload.
  lemma FrameHead(p: Bytes, rest: Bytes)
    ensures (Frame(p) + rest)[..4] == EncodeLength(|p| % WRAP)
    ensures (Frame(p) + rest)[4..] == p + rest
    ensures DecodeLength((Frame(p) + rest)[..4]) == |p| % WRAP
  {
    assert (Frame(p) + rest)[4..] == p + rest;
    assert (Frame(p) + rest)[..4] == EncodeLength(|p| % WRAP);
    FourBytes();
    BigEndianRoundTrip(|p| % WRAP, 4);
  }

  // What is read back from any frame, also one whose length field wrapped.
  lemma ReadFrame(p: Bytes, rest: Bytes, ending: Ending)
    ensures var n := |p| % WRAP;
            ReadPacket(Source(Frame(p) + rest, ending)) == Read(Some(p[..n]), Source(p[n..] + rest, ending))
  {
    var src := Source(Frame(p) + rest, ending);
    var n := |p| % WRAP;
    FrameHead(p, rest);
    var header, body := src.bytes[..4], src.Drop(4).bytes;
    assert header + Zeros(0) == header && body == p + rest;
    assert body[..n] == p[..n] && body[n..] == p[n..] + rest;
    assert body[..n] + Zeros(0) == p[..n];
  }

  // One packet makes the round trip exactly when its length fits the 32-bit field.
  lemma RoundTripExactly(p: Bytes, rest: Bytes, ending: Ending)
    ensures ReadPacket(Source(Frame(p) + rest, ending)) == Read(Some(p), Source(rest, ending)) <==> |p| < WRAP
  {
    ReadFrame(p, rest, ending);
    var n := |p| % WRAP;
    if |p| < WRAP {
      assert p[..n] == p && p[n..] + rest == rest;
    } else {
      assert |p[..n]| < |p|;
    }
  }

  lemma {:induction false} FrameAllConcat(ps: seq<Bytes>, qs: seq<Bytes>)
    ensures FrameAll(ps + qs) == FrameAll(ps) + FrameAll(qs)
  {
    if ps == [] {
      assert ps + qs == qs;
    } else {
      assert (ps + qs)[1..] == ps[1..] + qs;
      FrameAllConcat(ps[1..], qs);
    }
  }

  // Any list of packets, then anything: exactly the list is read, exactly the rest is left.
  lemma {:induction false} SequenceRoundTrip(ps: seq<Bytes>, rest: Bytes, ending: Ending)
    requires Framable(ps)
    ensures ReadPackets(Source(FrameAll(ps) + rest, ending), |ps|) == ReadMany(ps, Source(rest, ending))
  {
    if ps == [] {
      assert FrameAll(ps) + rest == rest;
    } else {
      var tail := FrameAll(ps[1..]) + rest;
      assert FrameAll(ps) + rest == Frame(ps[0]) + tail;
      RoundTripExactly(ps[0], tail, ending);
      SequenceRoundTrip(ps[1..], rest, ending);
      assert ReadPackets(Source(FrameAll(ps) + rest, ending), |ps|).packets == [ps[0]] + ps[1..];
      assert [ps[0]] + ps[1..] == ps;
    }
  }

  // No frame is a proper prefix of another one.
  lemma FramesArePrefixFree(p: Bytes, q: Bytes)
    requires |p| < WRAP && |q| < WRAP
    requires Frame(p) <= Frame(q)
    ensures p == q
  {
    var rest := Frame(q)[|Frame(p)|..];
    assert Frame(q) == Frame(p) + rest;
    assert Frame(q) + [] == Frame(q);
    RoundTripExactly(p, rest, Eof);
    RoundTripExactly(q, [], Eof);
  }

  // The framing of a whole list determines the list.
  lemma {:induction false} FramingIsInjective(ps: seq<Bytes>, qs: seq<Bytes>)
    requires Framable(ps) && Framable(qs)
    requires FrameAll(ps) == FrameAll(qs)
    ensures ps == qs
  {
    if ps == [] || qs == [] {
      assert |FrameAll(ps)| == 0;
    } else {
      RoundTripExactly(ps[0], FrameAll(ps[1..]), Eof);
      RoundTripExactly(qs[0], FrameAll(qs[1..]), Eof);
      FramingIsInjective(ps[1..], qs[1..]);
      assert ps == [ps[0]] + ps[1..] && qs == [qs[0]] + qs[1..];
    }
  }

  // When a whole frame is still unread: the only streams on which RecvPacket can be trusted.
  predicate WholeFrame(src: Source) {
    |src.bytes| >= 4 && 4 + DecodeLength(src.bytes[..4]) <= |src.bytes|
  }

  // A packet that RecvPacket returns is one whose frame is at the head of the stream exactly
  // when a whole frame was there; otherwise it was completed with zero bytes.
  lemma GenuineExactly(src: Source)
    requires ReadPacket(src).packet.Some?
    ensures Frame(ReadPacket(src).packet.value) <= src.bytes <==> WholeFrame(src)
  {
    var p := ReadPacket(src).packet.value;
    if |src.bytes| >= 4 {
      assert src.bytes[..4] + Zeros(0) == src.bytes[..4];
      assert |p| == DecodeLength(src.bytes[..4]);
    }
    if WholeFrame(src) {
      var len := DecodeLength(src.bytes[..4]);
      assert p == src.bytes[4..][..len];
      BytesRoundTrip(src.bytes[..4]);
      assert Frame(p) == src.bytes[..4 + len];
    }
  }

  // Two bytes of a header and then end of file: an empty packet nobody sent.
  lemma TruncatedHeaderReadsAsEmptyPacket()
    ensures ReadPacket(Source([0, 0], Eof)).packet == Some([])
    ensures !WholeFrame(Source([0, 0], Eof))
  {
    var src := Source([0, 0], Eof);
    ZeroExactly(src.bytes[..2] + Zeros(2));
  }

  // RecvPacket fails exactly when there is no header byte, no payload byte although the
  // (zero-filled) header announces some, or an error before the frame is complete.
  lemma FailsExactly(src: Source)
    ensures ReadPacket(src).packet.None? <==>
            || src.bytes == []
            || (src.ending.Broken? && !WholeFrame(src))
            || (src.ending.Eof? && |src.bytes| <= 4 && exists i :: 0 <= i < |src.bytes| && src.bytes[i] != 0)
  {
    var m := Min(4, |src.bytes|);
    var header := src.bytes[..m] + Zeros(4 - m);
    if m == 4 {
      assert header == src.bytes[..4];
    }
    ZeroExactly(header);
    assert forall i :: 0 <= i < 4 ==> header[i] == if i < m then src.bytes[i] else 0;
  }

  // ---------------------------------------------------------------- writing

  /**
   The sending half of a connection. `budget` is how many more bytes the kernel will take before
   the link fails for good; `sent` lists the packets it took whole and `tail` is the part it
   took of the packet on which it failed.
   */
  datatype Link = Link(sent: seq<Bytes>, tail: Bytes, budget: nat, failed: bool) {
    predicate Valid() {
      if failed then budget == 0 else tail == []
    }

    function Wire(): Bytes {
      FrameAll(sent) + tail
    }

    // One SendPacket; it reports failure exactly when the result has failed.
    function Send(p: Bytes): Link {
      if !failed && |Frame(p)| <= budget then
        Link(sent + [p], tail, budget - |Frame(p)|, false)
      else
        Link(sent, tail + Frame(p)[..Min(budget, |Frame(p)|)], 0, true)
    }

    function SendAll(ps: seq<Bytes>): Link
      decreases |ps|
    {
      if ps == [] then this else Send(ps[0]).SendAll(ps[1..])
    }
  }

  function FreshLink(budget: nat): Link {
    Link([], [], budget, false)
  }

  // How many of the packets fit the budget whole, one after the other.
  function Fits(ps: seq<Bytes>, budget: nat): (n: nat)
    ensures n <= |ps|
  {
    if ps == [] || |Frame(ps[0])| > budget then 0
    else 1 + Fits(ps[1..], budget - |Frame(ps[0])|)
  }

  lemma {:induction false} FitsPrefix(ps: seq<Bytes>, budget: nat)
    ensures |FrameAll(ps[..Fits(ps, budget)])| <= budget
    ensures Fits(ps, budget) < |ps| ==> budget < |FrameAll(ps[..Fits(ps, budget)])| + |Frame(ps[Fits(ps, budget)])|
  {
    var n := Fits(ps, budget);
    if ps == [] || |Frame(ps[0])| > budget {
      assert ps[..n] == [];
    } else {
      FitsPrefix(ps[1..], budget - |Frame(ps[0])|);
      assert ps[..n][1..] == ps[1..][..n - 1];
    }
  }

  lemma {:induction false} FrameAllSplit(ps: seq<Bytes>, n: nat)
    requires n <= |ps|
    ensures FrameAll(ps) == FrameAll(ps[..n]) + FrameAll(ps[n..])
  {
    assert ps == ps[..n] + ps[n..];
    FrameAllConcat(ps[..n], ps[n..]);
  }

  lemma FitsAllExactly(ps: seq<Bytes>, budget: nat)
    ensures Fits(ps, budget) == |ps| <==> |FrameAll(ps)| <= budget
  {
    var n := Fits(ps, budget);
    FitsPrefix(ps, budget);
    if n == |ps| {
      assert ps[..n] == ps;
    } else {
      FrameAllSplit(ps, n);
      assert FrameAll(ps[n..]) == Frame(ps[n]) + FrameAll(ps[n..][1..]);
    }
  }

  lemma {:induction false} SendAllConcat(l: Link, ps: seq<Bytes>, qs: seq<Bytes>)
    ensures l.SendAll(ps + qs) == l.SendAll(ps).SendAll(qs)
    decreases |ps|
  {
    if ps == [] {
      assert ps + qs == qs;
    } else {
      assert (ps + qs)[1..] == ps[1..] + qs;
      SendAllConcat(l.Send(ps[0]), ps[1..], qs);
    }
  }

  // A failed link takes nothing more, whatever is sent on it.
  lemma {:induction false} FailureIsPermanent(l: Link, ps: seq<Bytes>)
    requires l.Valid() && l.failed
    ensures l.SendAll(ps) == l
    decreases |ps|
  {
    if ps != [] {
      assert l.tail + Frame(ps[0])[..0] == l.tail;
      FailureIsPermanent(l, ps[1..]);
    }
  }

  // The exact state of the link after any list of sends: whole frames first, then at most one
  // proper prefix of the frame on which the link failed.
  lemma {:induction false} SendAllExactly(l: Link, ps: seq<Bytes>)
    requires l.Valid() && !l.failed
    ensures var r := l.SendAll(ps);
            var n := Fits(ps, l.budget);
            && r.Valid()
            && r.sent == l.sent + ps[..n]
            && (r.failed <==> n < |ps|)
            && (!r.failed ==> r.budget == l.budget - |FrameAll(ps)|)
            && (r.failed ==> r.tail < Frame(ps[n]))
    decreases |ps|
  {
    hide Frame;
    if ps == [] {
    } else if |Frame(ps[0])| > l.budget {
      FailureIsPermanent(l.Send(ps[0]), ps[1..]);
      assert l.tail + Frame(ps[0])[..l.budget] == Frame(ps[0])[..l.budget];
    } else {
      var n := Fits(ps, l.budget);
      SendAllExactly(l.Send(ps[0]), ps[1..]);
      assert l.sent + [ps[0]] + ps[1..][..n - 1] == l.sent + ps[..n];
    }
  }

  // One send puts on the wire exactly the part of the frame that the budget covers.
  lemma SendWire(l: Link, p: Bytes)
    requires l.Valid()
    ensures var r := l.Send(p);
            var n := Min(l.budget, |Frame(p)|);
            && r.Valid()
            && r.Wire() == l.Wire() + Frame(p)[..n]
            && r.budget == l.budget - n
            && (r.failed <==> n < |Frame(p)|)
  {
    if |Frame(p)| <= l.budget {
      FrameAllConcat(l.sent, [p]);
      assert FrameAll([p]) == Frame(p) + FrameAll([]);
      assert l.tail == [];
      assert l.Send(p).Wire() == FrameAll(l.sent) + Frame(p);
    } else {
      assert l.Wire() + Frame(p)[..l.budget] == FrameAll(l.sent) + (l.tail + Frame(p)[..l.budget]);
    }
  }

  // Whatever was sent on a link, failed or not, its reader first gets exactly the packets the
  // sender was told were sent, and then only the unfinished frame is left.
  lemma ReaderGetsWhatWasSent(l: Link, ending: Ending)
    requires Framable(l.sent)
    ensures ReadPackets(Source(l.Wire(), ending), |l.sent|) == ReadMany(l.sent, Source(l.tail, ending))
  {
    SequenceRoundTrip(l.sent, l.tail, ending);
  }

  // An unfinished frame never passes for a packet when the stream ends in an error.
  lemma UnfinishedFrameFails(p: Bytes, tail: Bytes)
    requires |p| < WRAP && tail < Frame(p)
    ensures ReadPacket(Source(tail, Broken)).packet.None?
  {
    var src := Source(tail, Broken);
    if |tail| >= 4 {
      FrameHead(p, []);
      assert Frame(p) + [] == Frame(p);
      assert src.bytes[..4] == Frame(p)[..4];
    }
    FailsExactly(src);
  }

  lemma SmallLength(n: nat)
    requires n < 256
    ensures EncodeLength(n) == [0, 0, 0, n as Byte]
  {
    LengthBytes(n);
  }

  predicate AllZero(b: Bytes) {
    forall i :: 0 <= i < |b| ==> b[i] == 0
  }

  // But it does when the stream ends cleanly: a header cut inside its leading zero bytes reads as
  // an empty packet, a cut payload as one of full length.
  lemma UnfinishedFrameIsCompleted(p: Bytes, part: Bytes)
    requires |p| < WRAP && part < Frame(p)
    ensures ReadPacket(Source(part, Eof)) ==
            Read(if |part| == 0 || |part| == 4 then None
                 else if |part| < 4 then if AllZero(part) then Some([]) else None
                 else Some(part[4..] + Zeros(|Frame(p)| - |part|)), Source([], Eof))
  {
    if |part| >= 4 {
      FrameHead(p, []);
      assert Frame(p) + [] == Frame(p);
      assert part[..4] + Zeros(0) == Frame(p)[..4];
      var body := Source(part, Eof).Drop(4).bytes;
      assert body == part[4..] && body[..|body|] == body;
    } else {
      CutHeader(part);
    }
  }

  lemma CutHeader(part: Bytes)
    requires |part| < 4
    ensures ReadPacket(Source(part, Eof)) ==
            Read(if part != [] && AllZero(part) then Some([]) else None, Source([], Eof))
  {
    var header := part[..|part|] + Zeros(4 - |part|);
    ZeroExactly(header);
    assert forall i :: 0 <= i < 4 ==> header[i] == if i < |part| then part[i] else 0;
  }

  // The header of a packet of fewer than 256 bytes starts with three zero bytes.
  lemma ShortHeader(p: Bytes, part: Bytes)
    requires |p| < 256 && part < Frame(p) && |part| < 4
    ensures AllZero(part)
  {
    SmallLength(|p|);
    assert part == EncodeLength(|p|)[..|part|];
  }

  // Behind an unfinished frame there is nothing left to read.
  lemma NothingBehindUnfinished(p: Bytes, part: Bytes, ending: Ending)
    requires |p| < WRAP && part < Frame(p)
    ensures ReadPacket(Source(part, ending)).rest == Source([], ending)
  {
    if |part| >= 4 {
      FrameHead(p, []);
      assert Frame(p) + [] == Frame(p);
      assert part[..4] + Zeros(0) == Frame(p)[..4];
    }
  }
}

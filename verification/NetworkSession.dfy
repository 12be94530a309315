/** The network wrapper: packets sent and received through partial kernel transfers. */
module Network {
  import opened Octets
  import opened Framing

  // A buffer whose first bytes have been replaced by those of a stream.
  function Filled(start: Bytes, stream: Bytes, n: nat): (b: Bytes)
    requires n <= |start| && n <= |stream|
    ensures |b| == |start|
  {
    stream[..n] + start[n..]
  }

  // One more chunk.
  lemma FilledFurther(after: Bytes, start: Bytes, stream: Bytes, total: nat, n: nat)
    requires total + n <= |start| && total + n <= |stream|
    requires var before := Filled(start, stream, total);
             after == before[..total] + stream[total..][..n] + before[total + n..]
    ensures after == Filled(start, stream, total + n)
  {
    var before := Filled(start, stream, total);
    assert stream[..total] + stream[total..][..n] == stream[..total + n];
    assert before[..total] == stream[..total] && before[total + n..] == start[total + n..];
  }

  /**
   A session and the kernel's side of its socket: the bytes that will still arrive (`inbox`,
   then `ending`), the bytes the kernel has taken (`wire`) and how many more it will take
   before the link fails for good (`budget`). How many bytes one call transfers is arbitrary.
   */
  class NetworkSession {
    var socketfd: int
    var inbox: Bytes
    var wire: Bytes
    var budget: nat
    const ending: Ending

    ghost var link: Link  // the packet-level view of what was sent

    ghost predicate Valid()
      reads this`link, this`wire, this`budget
    {
      link.Valid() && wire == link.Wire() && budget == link.budget
    }

    // What recv can still deliver; on a closed descriptor every call is an error.
    function Pending(): Source
      reads this
    {
      if socketfd < 0 then Source([], Broken) else Source(inbox, ending)
    }

    constructor (socketfd: int, inbox: Bytes, ending: Ending, budget: nat)
      ensures Valid() && this.socketfd == socketfd && link == FreshLink(budget)
      ensures this.inbox == inbox && this.ending == ending
    {
      this.socketfd, this.inbox, this.ending := socketfd, inbox, ending;
      this.wire, this.budget, this.link := [], budget, FreshLink(budget);
    }

    // The recv system call on a blocking socket.
    method Recv(buf: array<Byte>, off: nat, size: nat) returns (n: int)
      requires 0 < size && off + size <= buf.Length
      modifies this`inbox, buf
      ensures n > 0 <==> old(Pending()).bytes != []
      ensures n < 0 <==> old(Pending()) == Source([], Broken)
      ensures n <= 0 ==> Pending() == old(Pending()) && buf[..] == old(buf[..])
      ensures n > 0 ==> n <= size && n <= |old(Pending()).bytes| && Pending() == old(Pending()).Drop(n)
      ensures n > 0 ==> buf[..] == old(buf[..])[..off] + old(Pending()).bytes[..n] + old(buf[..])[off + n..]
    {
      if socketfd < 0 || (inbox == [] && ending.Broken?) {
        return -1;
      }
      if inbox == [] {
        return 0;
      }
      var chunk: nat := *;
      n := 1 + chunk % Min(size, |inbox|);
      forall i | 0 <= i < n {
        buf[off + i] := inbox[i];
      }
      inbox := inbox[n..];
    }

    // The send system call on a blocking socket.
    method Send(buf: array<Byte>, off: nat, size: nat) returns (n: int)
      requires 0 < size && off + size <= buf.Length
      modifies this`wire, this`budget
      ensures n > 0 <==> socketfd >= 0 && old(budget) > 0
      ensures n <= 0 ==> wire == old(wire) && budget == old(budget)
      ensures n > 0 ==> n <= size && n <= old(budget) && budget == old(budget) - n
      ensures n > 0 ==> wire == old(wire) + buf[off..off + n]
    {
      if socketfd < 0 || budget == 0 {
        if * {
          return 0;
        }
        return -1;
      }
      var chunk: nat := *;
      n := 1 + chunk % Min(size, budget);
      wire := wire + buf[off..off + n];
      budget := budget - n;
    }

    // Fills the buffer from the stream. Whatever the chunks, what was transferred is exactly
    // the head of the stream and the buffer beyond it is untouched.
    method RecvAll(buf: array<Byte>) returns (received: int)
      modifies this`inbox, buf
      ensures var m := Min(buf.Length, |old(Pending()).bytes|);
              && buf[..] == old(Pending()).bytes[..m] + old(buf[..])[m..]
              && Pending() == old(Pending()).Drop(m)
              && received == if m == buf.Length || old(Pending()).ending.Eof? then m else -1
    {
      ghost var src, start := Pending(), buf[..];
      var total := 0;
      assert Filled(start, src.bytes, 0) == start;
      while total < buf.Length
        invariant 0 <= total <= buf.Length && total <= |src.bytes|
        invariant buf[..] == Filled(start, src.bytes, total)
        invariant Pending() == src.Drop(total)
      {
        hide Filled;
        var bytes := Recv(buf, total, buf.Length - total);
        if bytes == 0 {
          break;
        }
        if bytes < 0 {
          return -1;
        }
        FilledFurther(buf[..], start, src.bytes, total, bytes);
        total := total + bytes;
      }
      return total;
    }

    // Writes the whole buffer, or as much of it as the link takes.
    method SendAll(buf: array<Byte>) returns (sent: int)
      modifies this`wire, this`budget
      ensures var m := if socketfd < 0 then 0 else Min(buf.Length, old(budget));
              && wire == old(wire) + buf[..m]
              && budget == old(budget) - m
              && sent == if m == buf.Length then m else -1
    {
      var total := 0;
      while total < buf.Length
        invariant 0 <= total <= buf.Length && total <= old(budget)
        invariant socketfd < 0 ==> total == 0
        invariant wire == old(wire) + buf[..total] && budget == old(budget) - total
      {
        var bytes := Send(buf, total, buf.Length - total);
        if bytes <= 0 {
          return -1;
        }
        assert buf[..total] + buf[total..total + bytes] == buf[..total + bytes];
        total := total + bytes;
      }
      return total;
    }

    // Sends one packet. On an open socket this is exactly one send on the abstract link.
    method SendPacket(data: Bytes) returns (ok: bool)
      requires Valid()
      modifies this`wire, this`budget, this`link
      ensures Valid()
      ensures socketfd >= 0 ==> link == old(link).Send(data) && ok == !link.failed
      ensures socketfd < 0 ==> link == old(link) && !ok
    {
      var header := EncodeLength(|data| % WRAP);
      var buffer := new Byte[4 + |data|](_ => 0);
      forall i | 0 <= i < 4 {
        buffer[i] := header[i];
      }
      forall i | 0 <= i < |data| {
        buffer[4 + i] := data[i];
      }
      assert buffer[..] == Frame(data);
      SendWire(link, data);
      var sent := SendAll(buffer);
      if socketfd >= 0 {
        link := link.Send(data);
      }
      return sent >= 0;
    }

    // Receives one packet: exactly ReadPacket on the stream, for every chunking.
    method RecvPacket() returns (packet: Option<Bytes>)
      modifies this`inbox
      ensures Read(packet, Pending()) == ReadPacket(old(Pending()))
    {
      ghost var src := Pending();
      var header := new Byte[4](_ => 0);
      assert header[..] == Zeros(4);
      var received := RecvAll(header);
      ghost var m := Min(4, |src.bytes|);
      assert header[..] == src.bytes[..m] + Zeros(4 - m);
      if received == 0 {
        return None;
      }
      if received < 0 {
        return None;
      }
      var len := DecodeLength(header[..]);
      if len == 0 {
        return Some([]);
      }
      ghost var body := Pending();
      var buffer := new Byte[len](_ => 0);
      assert buffer[..] == Zeros(len);
      received := RecvAll(buffer);
      ghost var n := Min(len, |body.bytes|);
      assert buffer[..] == body.bytes[..n] + Zeros(len - n);
      if received <= 0 {
        return None;
      }
      return Some(buffer[..]);
    }

    // Closing twice is the same as closing once.
    method CloseSession()
      modifies this`socketfd
      ensures socketfd == if old(socketfd) >= 0 then -1 else old(socketfd)
    {
      if socketfd >= 0 {
        socketfd := -1;
      }
    }
  }
}

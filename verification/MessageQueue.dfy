/** The message area of the client's screen: a queue filled by one thread and drained by another. */
module MessageQueue {
  import opened Octets

  class Screen {
    var running: bool
    var queue: seq<Bytes>
    var printed: seq<Bytes>

    constructor ()
      ensures running && queue == [] && printed == []
    {
      running, queue, printed := true, [], [];
    }

    method PushMessage(msg: Bytes)
      modifies this`queue
      ensures queue == if running then old(queue) + [msg] else old(queue)
    {
      if !running {
        return;
      }
      queue := queue + [msg];
    }

    // Prints everything that is queued, oldest first.
    method PrintBufferedMessages()
      modifies this`queue, this`printed
      ensures running ==> printed == old(printed) + old(queue) && queue == []
      ensures !running ==> printed == old(printed) && queue == old(queue)
    {
      if !running {
        return;
      }
      while queue != []
        invariant printed + queue == old(printed) + old(queue)
        decreases |queue|
      {
        var msg := queue[0];
        queue := queue[1..];
        printed := printed + [msg];
      }
    }
  }
}

/**
 The byte relay between a client and the daemon's private socket. Polls, reads and sends may come back short,
 interrupted or failed in any combination; the relay may be told to stop before any round.
 */
module SocketRelay {
  import opened Bytes

  const BUFFER_BYTES: nat := 64 * 1024

  /** One connected socket: what its peer will still send, what was read from it, and what was sent to it. */
  class Endpoint {
    var unread: seq<byte>
    var taken: seq<byte>
    var sent: seq<byte>
    /** SHUT_WR was issued: sending is over. */
    var halfClosed: bool
    var closed: bool
    var interrupts: nat
    /** A read on this socket ended with an error instead of end of stream. */
    var readFailed: bool
    /** A send on this socket failed. */
    var sendFailed: bool

    constructor (stream: seq<byte>, interrupts: nat)
      ensures unread == stream && taken == [] && sent == [] && !halfClosed && !closed && !readFailed && !sendFailed
    {
      unread, taken, sent := stream, [], [];
      this.interrupts := interrupts;
      halfClosed, closed, readFailed, sendFailed := false, false, false, false;
    }

    /** read(2) into the front of the buffer; 0 is end of stream, negative an error. */
    method Read(buffer: array<byte>) returns (count: int)
      requires !closed && buffer.Length > 0
      modifies this`unread, this`taken, this`readFailed, buffer
      ensures count <= buffer.Length && count <= |old(unread)|
      ensures count > 0 ==> taken == old(taken) + buffer[..count]
      ensures count <= 0 ==> taken == old(taken) && unread == old(unread)
      ensures taken + unread == old(taken) + old(unread)
      ensures count == 0 ==> unread == []
      ensures readFailed == (old(readFailed) || count < 0)
    {
      var fails: bool := *;
      if fails {
        readFailed := true;
        return -1;
      }
      count := *;
      if !(0 < count <= Min(buffer.Length, |unread|)) {
        count := Min(1, |unread|);
      }
      forall i | 0 <= i < count {
        buffer[i] := unread[i];
      }
      assert buffer[..count] == unread[..count];
      assert taken + unread == (taken + unread[..count]) + unread[count..];
      if count > 0 {
        taken, unread := taken + unread[..count], unread[count..];
      }
    }

    /** send(2): takes some of the bytes, or is interrupted (0), or fails (negative). */
    method Send(data: array<byte>, from: nat, size: nat) returns (count: int)
      requires !halfClosed && !closed
      requires from < size <= data.Length
      modifies this`sent, this`interrupts, this`sendFailed
      ensures count <= size - from
      ensures sendFailed == (old(sendFailed) || count < 0)
      ensures sent == old(sent) + if count > 0 then data[from..from + count] else []
      ensures count == 0 ==> interrupts < old(interrupts)
      ensures interrupts <= old(interrupts)
    {
      var n: nat, fails: bool := *, *;
      if fails {
        sendFailed := true;
        return -1;
      }
      if n == 0 && interrupts > 0 {
        interrupts := interrupts - 1;
        return 0;
      }
      count := if 0 < n <= size - from then n else 1;
      sent := sent + data[from..from + count];
    }

    method ShutdownWrite()
      modifies this`halfClosed
      ensures halfClosed
    {
      halfClosed := true;
    }

    method Close()
      modifies this`closed
      ensures closed
    {
      closed := true;
    }
  }

  /** All bytes, or, on a failure, a prefix of them. */
  method WriteAll(to: Endpoint, data: array<byte>, size: nat) returns (ok: bool, ghost written: nat)
    requires !to.halfClosed && !to.closed && size <= data.Length
    modifies to`sent, to`interrupts, to`sendFailed
    ensures to.sendFailed == (old(to.sendFailed) || !ok)
    ensures written <= size && to.sent == old(to.sent) + data[..written]
    ensures ok <==> written == size
  {
    var done := 0;
    assert data[..0] == [];
    while done < size
      invariant 0 <= done <= size
      invariant to.sent == old(to.sent) + data[..done]
      invariant to.sendFailed == old(to.sendFailed)
      decreases size - done, to.interrupts
    {
      var count := to.Send(data, done, size);
      if count > 0 {
        assert data[..done + count] == data[..done] + data[done..done + count];
        done := done + count;
      } else if count < 0 {
        return false, done;
      }
    }
    return true, done;
  }

  datatype Poll = PollError | PollInterrupted | PollTimeout | Ready(client: bool, target: bool, broken: bool)

  /** poll(2) and the stop flag; the daemon is told to stop after finitely many rounds. */
  class Environment {
    var rounds: nat
    var stopped: bool
    /** poll failed, or reported a broken socket. */
    var broken: bool

    constructor (rounds: nat)
      ensures this.rounds == rounds && !stopped && !broken
    {
      this.rounds, stopped, broken := rounds, false, false;
    }

    method StopRequested() returns (stop: bool)
      modifies this`rounds, this`stopped
      ensures rounds <= old(rounds) && (!stop ==> rounds < old(rounds))
      ensures stopped == (old(stopped) || stop)
    {
      stop := *;
      if stop || rounds == 0 {
        stopped := true;
        return true;
      }
      rounds := rounds - 1;
    }

    method Wait() returns (p: Poll)
      modifies this`broken
      ensures broken == (old(broken) || p.PollError? || (p.Ready? && p.broken))
    {
      p := *;
      broken := broken || p.PollError? || (p.Ready? && p.broken);
    }
  }

  /** In one direction: the sink has been sent exactly what was read from the source. */
  ghost predicate Exact(source: Endpoint, sink: Endpoint)
    reads source, sink
  {
    sink.sent == source.taken
  }

  /** What holds of one direction at any moment, even after a broken send. */
  ghost predicate Faithful(source: Endpoint, sink: Endpoint, stream: seq<byte>)
    reads source, sink
  {
    && source.taken + source.unread == stream
    && sink.sent <= source.taken
    && (sink.halfClosed ==> Exact(source, sink) && (source.unread == [] || source.readFailed))
  }

  /** One direction of one round. */
  method Forward(source: Endpoint, sink: Endpoint, buffer: array<byte>, ghost stream: seq<byte>)
    returns (ok: bool, readable: bool)
    requires source != sink && buffer.Length > 0
    requires !source.closed && !sink.closed && !sink.halfClosed
    requires Exact(source, sink) && Faithful(source, sink, stream)
    modifies source`unread, source`taken, source`readFailed, sink`sent, sink`interrupts, sink`sendFailed,
             sink`halfClosed, buffer
    ensures sink.sendFailed == (old(sink.sendFailed) || !ok)
    ensures if readable then |source.taken| > |old(source.taken)| else source.taken == old(source.taken)
    ensures Faithful(source, sink, stream)
    ensures ok ==> Exact(source, sink)
    ensures readable == !sink.halfClosed
    ensures old(source.readFailed) ==> source.readFailed
  {
    var count := source.Read(buffer);
    if count > 0 {
      ghost var written;
      ok, written := WriteAll(sink, buffer, count);
      readable := true;
      assert buffer[..written] <= buffer[..count];
    } else {
      sink.ShutdownWrite();
      return true, false;
    }
  }

  /** A ready direction moves some bytes or ends; one that is not ready is left alone. */
  predicate Served(ready: bool, still: bool, before: nat, after: nat)
  {
    if ready && still then after > before else after == before
  }

  /** One round after poll: each direction that is still open and ready, then the error flags. */
  method Round(
    client: Endpoint, target: Endpoint, buffer: array<byte>, clientReadable: bool, targetReadable: bool, result: Poll,
    ghost up: seq<byte>, ghost down: seq<byte>)
    returns (go: bool, clientStill: bool, targetStill: bool)
    requires client != target && buffer.Length > 0 && !client.closed && !target.closed
    requires clientReadable == !target.halfClosed && targetReadable == !client.halfClosed
    requires Exact(client, target) && Faithful(client, target, up)
    requires Exact(target, client) && Faithful(target, client, down)
    requires result.Ready?
    modifies client, target, buffer
    ensures !client.closed && !target.closed
    ensures Faithful(client, target, up) && Faithful(target, client, down)
    ensures go ==> Exact(client, target) && Exact(target, client)
    ensures go ==> clientStill == !target.halfClosed && targetStill == !client.halfClosed
    ensures !go ==> result.broken || client.sendFailed || target.sendFailed
    ensures old(client.sendFailed) ==> client.sendFailed
    ensures old(target.sendFailed) ==> target.sendFailed
    ensures go ==> Served(clientReadable && result.client, clientStill, |old(client.taken)|, |client.taken|)
    ensures go ==> Served(targetReadable && result.target, targetStill, |old(target.taken)|, |target.taken|)
  {
    clientStill, targetStill := clientReadable, targetReadable;
    if clientReadable && result.client {
      go, clientStill := Forward(client, target, buffer, up);
      if !go {
        return;
      }
    }
    if targetReadable && result.target {
      go, targetStill := Forward(target, client, buffer, down);
      if !go {
        return;
      }
    }
    go := !result.broken;
  }

  /**
   At the head of every round each side has been sent exactly the bytes read from the other; at the end, which may
   come at any moment, each side has been sent a prefix of them. Once a direction was closed after a clean end of
   stream, the whole stream has arrived. Nothing is sent in a direction after its half-close: Send forbids it. A
   relay that nothing disturbs ends only when both directions are half-closed.
   */
  method Relay(client: Endpoint, target: Endpoint, env: Environment)
    requires client != target
    requires client.taken == [] == client.sent && !client.halfClosed && !client.closed && !client.readFailed
    requires target.taken == [] == target.sent && !target.halfClosed && !target.closed && !target.readFailed
    requires !env.stopped && !env.broken
    modifies client, target, env
    ensures client.closed && target.closed
    ensures Faithful(client, target, old(client.unread)) && Faithful(target, client, old(target.unread))
    ensures target.halfClosed && !client.readFailed ==> target.sent == old(client.unread)
    ensures client.halfClosed && !target.readFailed ==> client.sent == old(target.unread)
    ensures !env.stopped && !env.broken && !client.sendFailed && !target.sendFailed
            ==> client.halfClosed && target.halfClosed
  {
    ghost var up, down := client.unread, target.unread;
    var clientReadable, targetReadable := true, true;
    var buffer := new byte[BUFFER_BYTES](_ => 0);
    assert client.taken + client.unread == up && target.taken + target.unread == down;
    var stop := env.StopRequested();
    var go := true;
    while go && !stop && (clientReadable || targetReadable)
      invariant !client.closed && !target.closed
      invariant Faithful(client, target, up) && Faithful(target, client, down)
      invariant go ==> Exact(client, target) && Exact(target, client)
      invariant go ==> clientReadable == !target.halfClosed && targetReadable == !client.halfClosed
      invariant stop ==> env.stopped
      invariant !go ==> env.broken || client.sendFailed || target.sendFailed
      decreases env.rounds, !stop, go
    {
      var result := env.Wait();
      if result.PollError? {
        go := false;
      } else {
        if result.Ready? {
          go, clientReadable, targetReadable :=
            Round(client, target, buffer, clientReadable, targetReadable, result, up, down);
        }
        stop := env.StopRequested();
      }
    }
    DrainedIsWhole(client, target, up);
    DrainedIsWhole(target, client, down);
    target.Close();
    client.Close();
  }

  lemma DrainedIsWhole(source: Endpoint, sink: Endpoint, stream: seq<byte>)
    requires Faithful(source, sink, stream)
    ensures sink.halfClosed && !source.readFailed ==> sink.sent == stream
  {
  }
}

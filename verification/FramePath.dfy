/**
 The whole way of a frame: the controller's stream, through the proxy's relay, to the daemon's reader. The relay may be
 cut short at any byte, the reader at any byte it was given.
 */
module FramePath {
  import opened Bytes
  import opened FrameWire
  import opened SocketRelay

  /** Whatever part of a controller's stream arrives decodes to the first of its frames. */
  lemma DecodedIsPrefix(frames: seq<Frame>, sent: seq<byte>)
    requires AllSendable(frames) && sent <= VCF2 + EncodeAll(frames)
    ensures Decode(sent) <= frames
  {
    hide Decode, Delivered;
    var stream := VCF2 + EncodeAll(frames);
    assert stream[..|sent|] == sent;
    ConnectionPrefix(frames, |sent|);
    if |sent| >= 4 {
      DeliveredIsPrefix(frames, |sent| - 4);
    }
  }

  lemma PrefixOfPrefix<T>(a: seq<T>, b: seq<T>, c: seq<T>)
    requires a <= b && b <= c
    ensures a <= c
  {
  }

  /**
   The engine gets the first of the frames sent, in order and unaltered; all of them when every frame is within the
   daemon's limit and neither the relay nor the reader was disturbed.
   */
  method Deliver(sender: FramePushClient, client: Endpoint, target: Endpoint, env: Environment, interrupts: nat)
    returns (session: FrameSession)
    requires sender.Valid() && client.unread == sender.output
    requires client != target && !env.stopped && !env.broken
    requires client.taken == [] == client.sent && !client.halfClosed && !client.closed && !client.readFailed
    requires target.taken == [] == target.sent && !target.halfClosed && !target.closed && !target.readFailed
    modifies client, target, env
    ensures fresh(session) && session.frames <= sender.frames
    ensures && !env.stopped && !env.broken && !client.readFailed && !client.sendFailed && !target.sendFailed
            && !session.stopped && !session.failed && !session.inactive
            && (forall f :: f in sender.frames ==> Sendable(f) && WithinLimit(f))
            ==> session.frames == sender.frames
  {
    hide Decode, Sendable, WithinLimit, EncodeAll;
    Relay(client, target, env);
    session := new FrameSession(target.sent, interrupts);
    session.HandleFrameClient();
    var arrived, consumed := target.sent, session.consumed;
    assert consumed <= arrived;
    DecodedIsPrefix(sender.frames, consumed);
    PrefixOfPrefix(session.frames, Decode(consumed), sender.frames);
    if forall f :: f in sender.frames ==> Sendable(f) && WithinLimit(f) {
      ConnectionRoundTrip(sender.frames);
    }
  }
}

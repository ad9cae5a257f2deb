/** The client and the server together: what the page stores for one
    exchange is what the server's agent replied, except when the reply's
    first word is itself the end marker. */
module EndToEnd {
  import opened Protocol
  import opened Chunker
  import opened AgentServer
  import opened ChatSession

  /** The events that deliver a reply's chunks and its end marker. */
  lemma ReplyEvents(chunks: seq<string>)
    ensures [Send] + Deliver(chunks + [EndMarker]) == [Send] + Deliver(chunks) + [Inbound(EndMarker)]
  {
    DeliverAppend(chunks, [EndMarker]);
    assert Deliver([EndMarker]) == [Inbound(EndMarker)];
  }

  /** One admitted send answered by the server: the client transmits the
      input once, the server checkpoints the user and assistant turns, and
      the bot message the client stores is exactly the server's reply. */
  lemma ReplyDeliveredIntact(s: Session, snapshot: Option<Values>, reply: string)
    requires Admits(s)
    requires !CollidesWithMarker(reply)
    ensures var ex := HandleMessage(snapshot, s.input, reply);
      var r := Run(s, [Send] + Deliver(ex.frames));
      && r.sent == [s.input]
      && r.session.messages == s.messages + [Message(User, s.input, None), Message(Bot, reply, None)]
      && !r.session.isStreaming && r.session.buffer == ""
      && ex.stored[MessagesKey] == ExistingMessages(snapshot) + [UserTurn(s.input), AssistantTurn(reply)]
  {
    var chunks := Chunks(reply);
    FirstChunkIsMarker(reply);
    assert AllContent(chunks);
    ChunksConcat(reply);
    ReplyEvents(chunks);
    ReplyAssembled(s, chunks);
  }

  lemma Reassociate(a: seq<Event>, b: seq<Event>, c: seq<Event>, d: seq<Event>)
    ensures a + ((b + c) + d) == (a + b) + (c + d)
  {
  }

  /** A marker right after an admitted send stores the user message and an
      empty bot message. */
  lemma SendThenMarker(s: Session)
    requires Admits(s)
    ensures var r := Run(s, [Send, Inbound(EndMarker)]);
      && r.sent == [s.input]
      && r.session.messages == s.messages + [Message(User, s.input, None), Message(Bot, "", None)]
      && r.session.buffer == ""
  {
    var sent := SendMessage(s);
    assert [Send, Inbound(EndMarker)] == [Send] + [Inbound(EndMarker)];
    RunAppend(s, [Send], [Inbound(EndMarker)]);
    RunSingle(s, Send);
    RunSingle(sent.session, Inbound(EndMarker));
  }

  /** The client's view of a premature end marker: it finalizes the empty
      buffer, then collects the remaining fragments as a second reply. */
  lemma EarlyMarkerRun(s: Session, rest: seq<string>)
    requires Admits(s)
    requires AllContent(rest)
    ensures var r := Run(s, [Send, Inbound(EndMarker)] + (Deliver(rest) + [Inbound(EndMarker)]));
      && r.sent == [s.input]
      && r.session.messages == s.messages
        + [Message(User, s.input, None), Message(Bot, "", None), Message(Bot, Concat(rest), None)]
      && !r.session.isStreaming
  {
    RunAppend(s, [Send, Inbound(EndMarker)], Deliver(rest) + [Inbound(EndMarker)]);
    SendThenMarker(s);
    var early := Run(s, [Send, Inbound(EndMarker)]);
    StreamThenMarker(early.session, rest);
    assert "" + Concat(rest) == Concat(rest);
  }

  /** The chunks of a colliding reply: the marker, then content fragments
      that concatenate to the rest of the reply. */
  lemma CollidingChunks(reply: string)
    requires CollidesWithMarker(reply)
    ensures |reply| >= |EndMarker|
    ensures Chunks(reply) == [EndMarker] + Chunks(reply)[1..]
    ensures AllContent(Chunks(reply)[1..])
    ensures Concat(Chunks(reply)[1..]) == reply[|EndMarker|..]
  {
    var chunks := Chunks(reply);
    FirstChunkIsMarker(reply);
    ChunksConcat(reply);
    assert chunks == [EndMarker] + chunks[1..];
    assert reply == EndMarker + reply[|EndMarker|..];
  }

  /** The events that deliver a marker, content fragments and a final marker. */
  lemma CollidingEvents(rest: seq<string>)
    ensures [Send] + Deliver([EndMarker] + rest + [EndMarker])
      == [Send, Inbound(EndMarker)] + (Deliver(rest) + [Inbound(EndMarker)])
  {
    var marker := [Inbound(EndMarker)];
    assert Deliver([EndMarker]) == marker;
    DeliverAppend([EndMarker] + rest, [EndMarker]);
    DeliverAppend([EndMarker], rest);
    var tail := Deliver(rest);
    assert Deliver([EndMarker] + rest + [EndMarker]) == (marker + tail) + marker;
    assert [Send] + marker == [Send, Inbound(EndMarker)];
    Reassociate([Send], marker, tail, marker);
  }

  /** A reply whose first word is the end marker is finalized early: the
      client stores an empty bot message, then the rest of the reply as a
      second bot message, so the conversation no longer matches the one the
      server checkpointed. */
  lemma MarkerCollisionSplitsReply(s: Session, snapshot: Option<Values>, reply: string)
    requires Admits(s)
    requires CollidesWithMarker(reply)
    ensures |reply| >= |EndMarker|
    ensures var ex := HandleMessage(snapshot, s.input, reply);
      var r := Run(s, [Send] + Deliver(ex.frames));
      && r.sent == [s.input]
      && r.session.messages == s.messages
        + [Message(User, s.input, None), Message(Bot, "", None), Message(Bot, reply[|EndMarker|..], None)]
      && !r.session.isStreaming
  {
    var ex := HandleMessage(snapshot, s.input, reply);
    CollidingChunks(reply);
    CollidingEvents(Chunks(reply)[1..]);
    EarlyMarkerRun(s, Chunks(reply)[1..]);
  }

  /** A whole connection: the server answers every message and the client
      sees exactly one end marker per reply that does not collide with it. */
  lemma {:induction false} StreamEndsEachReply(replies: seq<string>)
    requires forall i :: 0 <= i < |replies| ==> !CollidesWithMarker(replies[i])
    ensures multiset(ReplyStream(replies))[EndMarker] == |replies|
  {
    if replies != [] {
      var chunks := Chunks(replies[0]);
      FirstChunkIsMarker(replies[0]);
      assert EndMarker !in chunks;
      StreamEndsEachReply(replies[1..]);
      assert ReplyStream(replies) == chunks + [EndMarker] + ReplyStream(replies[1..]);
      assert multiset(ReplyStream(replies)) == multiset(chunks) + multiset{EndMarker} + multiset(ReplyStream(replies[1..]));
    }
  }
}

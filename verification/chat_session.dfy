/** The chat page's session logic (web/src/app/page.tsx) with the rendering
    stripped away: a record of the conversation, the pending input, the
    reply being streamed and the connection status, driven by the socket's
    open/message/error/close handlers and by the user's edits and sends.
    The streamed reply is held in one authoritative buffer. */
module ChatSession {
  import opened Protocol

  datatype Sender = User | Bot

  /** One entry of the conversation; the optional streaming flag of the
      page's message type is never set on a stored entry. */
  datatype Message = Message(sender: Sender, text: string, isStreaming: Option<bool>)

  datatype Status = Connecting | Connected | Disconnected

  /** The page's state: `socket` records whether a socket object exists. */
  datatype Session = Session(
    messages: seq<Message>,
    input: string,
    buffer: string,
    isStreaming: bool,
    status: Status,
    socket: bool)

  datatype Event =
    | Open                   // socket.onopen
    | Inbound(data: string)  // socket.onmessage with one text frame
    | SocketError            // socket.onerror
    | SocketClose            // socket.onclose
    | Edit(text: string)     // the input field's onChange
    | Send                   // sendMessage, from the button or the Enter key

  /** A step's new state and the frames it transmitted, in order. */
  datatype Outcome = Outcome(session: Session, sent: seq<string>)

  /** The state right after mounting: the socket has been created and is
      still connecting, and nothing has been said yet. */
  function Init(): (r: Session)
    ensures r.messages == [] && r.input == "" && r.buffer == ""
    ensures !r.isStreaming && r.status == Connecting
    ensures !Admits(r)
  {
    Session([], "", "", false, Connecting, true)
  }

  /** The conversation, pending input and connection are as they were. */
  predicate SameConversation(a: Session, b: Session)
  {
    a.messages == b.messages && a.input == b.input && a.status == b.status && a.socket == b.socket
  }

  /** The send gate: a non-empty input, an existing socket, no reply in
      flight and an open connection. */
  predicate Admits(s: Session)
  {
    s.input != "" && s.socket && !s.isStreaming && s.status == Connected
  }

  function OnOpen(s: Session): (r: Session)
    ensures r.status == Connected
    ensures r.messages == s.messages && r.buffer == s.buffer && r.isStreaming == s.isStreaming
    ensures r.input == s.input && r.socket == s.socket
  {
    s.(status := Connected)
  }

  /** A frame that is not the end marker is a fragment of the reply; the
      end marker stores the buffered reply as a bot message, even when it
      is empty. */
  function OnMessage(s: Session, data: string): (r: Session)
    ensures data != EndMarker ==>
      SameConversation(s, r) && r.buffer == s.buffer + data && r.isStreaming
    ensures data == EndMarker ==>
      && r.messages == s.messages + [Message(Bot, s.buffer, None)]
      && r.buffer == "" && !r.isStreaming
      && r.input == s.input && r.status == s.status && r.socket == s.socket
  {
    if data == EndMarker then
      s.(messages := s.messages + [Message(Bot, s.buffer, None)], buffer := "", isStreaming := false)
    else
      s.(buffer := s.buffer + data, isStreaming := true)
  }

  /** Error and close both mark the connection lost and drop the reply in
      flight without storing it; the buffer itself is left as it was. */
  function OnConnectionLost(s: Session): (r: Session)
    ensures r.status == Disconnected && !r.isStreaming
    ensures r.messages == s.messages && r.buffer == s.buffer && r.input == s.input
    ensures r.socket == s.socket
    ensures !Admits(r)
  {
    s.(status := Disconnected, isStreaming := false)
  }

  function OnEdit(s: Session, text: string): (r: Session)
    ensures r.input == text
    ensures r.messages == s.messages && r.buffer == s.buffer
    ensures r.isStreaming == s.isStreaming && r.status == s.status && r.socket == s.socket
  {
    s.(input := text)
  }

  /** A rejected send changes nothing and transmits nothing; an admitted one
      stores the input as a user message, clears input and buffer, marks a
      reply as outstanding and transmits the input verbatim. */
  function SendMessage(s: Session): (r: Outcome)
    ensures r.sent != [] <==> Admits(s)
    ensures !Admits(s) ==> r.session == s && r.sent == []
    ensures Admits(s) ==>
      && r.sent == [s.input]
      && |r.session.messages| == |s.messages| + 1
      && r.session.messages[..|s.messages|] == s.messages
      && r.session.messages[|s.messages|] == Message(User, s.input, None)
      && r.session.input == "" && r.session.buffer == "" && r.session.isStreaming
      && r.session.status == s.status && r.session.socket == s.socket
  {
    if !Admits(s) then Outcome(s, [])
    else
      Outcome(
        s.(messages := s.messages + [Message(User, s.input, None)], input := "", buffer := "", isStreaming := true),
        [s.input])
  }

  /** The conversation changes in only two ways: an admitted send appends
      the user's input, and the end marker appends the assembled reply;
      every other event leaves `after` equal to the messages of `s`. */
  predicate ConversationStep(s: Session, e: Event, after: seq<Message>)
  {
    if e == Send && Admits(s) then after == s.messages + [Message(User, s.input, None)]
    else if e == Inbound(EndMarker) then after == s.messages + [Message(Bot, s.buffer, None)]
    else after == s.messages
  }

  /** The reaction to one event. Only a send transmits; how the
      conversation changes is `StepMessages`. */
  function Step(s: Session, e: Event): (r: Outcome)
    ensures e != Send ==> r.sent == []
    ensures r.sent == [] || r.sent == [s.input]
  {
    match e
    case Open => Outcome(OnOpen(s), [])
    case Inbound(data) => Outcome(OnMessage(s, data), [])
    case SocketError => Outcome(OnConnectionLost(s), [])
    case SocketClose => Outcome(OnConnectionLost(s), [])
    case Edit(text) => Outcome(OnEdit(s, text), [])
    case Send => SendMessage(s)
  }

  /** Every event changes the conversation as `ConversationStep` allows. */
  lemma StepMessages(s: Session, e: Event)
    ensures ConversationStep(s, e, Step(s, e).session.messages)
  {
  }

  /** The reactions to a sequence of events, in order, with every frame
      transmitted along the way. */
  function Run(s: Session, events: seq<Event>): Outcome
    decreases |events|
  {
    if events == [] then Outcome(s, [])
    else
      var first := Step(s, events[0]);
      var rest := Run(first.session, events[1..]);
      Outcome(rest.session, first.sent + rest.sent)
  }

  /** The inbound events that deliver `frames` in order. */
  function Deliver(frames: seq<string>): seq<Event>
  {
    seq(|frames|, i requires 0 <= i < |frames| => Inbound(frames[i]))
  }

  lemma DeliverAppend(a: seq<string>, b: seq<string>)
    ensures Deliver(a + b) == Deliver(a) + Deliver(b)
  {
  }

  /** Running two event sequences back to back is running their
      concatenation. */
  lemma {:induction false} RunAppend(s: Session, a: seq<Event>, b: seq<Event>)
    ensures Run(s, a + b).session == Run(Run(s, a).session, b).session
    ensures Run(s, a + b).sent == Run(s, a).sent + Run(Run(s, a).session, b).sent
    decreases |a|
  {
    if a == [] {
      assert a + b == b;
    } else {
      ConsAppend(a, b);
      RunUnfold(s, a);
      RunUnfold(s, a + b);
      RunAppend(Step(s, a[0]).session, a[1..], b);
    }
  }

  lemma ConsAppend(a: seq<Event>, b: seq<Event>)
    requires a != []
    ensures (a + b)[0] == a[0] && (a + b)[1..] == a[1..] + b
  {
  }

  /** Running a single event is taking one step. */
  lemma RunSingle(s: Session, e: Event)
    ensures Run(s, [e]) == Step(s, e)
  {
    assert [e][1..] == [];
  }

  /** One step of `Run`, spelled out. */
  lemma RunUnfold(s: Session, events: seq<Event>)
    requires events != []
    ensures Run(s, events).session == Run(Step(s, events[0]).session, events[1..]).session
    ensures Run(s, events).sent == Step(s, events[0]).sent + Run(Step(s, events[0]).session, events[1..]).sent
  {
  }

  /** The conversation is only ever appended to: whatever the events, the
      old entries stay in place and in order, and each event adds at most
      one entry. */
  lemma {:induction false} HistoryAppendOnly(s: Session, events: seq<Event>)
    ensures |s.messages| <= |Run(s, events).session.messages| <= |s.messages| + |events|
    ensures Run(s, events).session.messages[..|s.messages|] == s.messages
    decreases |events|
  {
    if events != [] {
      var next := Step(s, events[0]).session;
      assert next.messages[..|s.messages|] == s.messages;
      HistoryAppendOnly(next, events[1..]);
      var final := Run(s, events).session.messages;
      assert final[..|next.messages|][..|s.messages|] == final[..|s.messages|];
    }
  }

  /** No stored entry carries the optional streaming flag. */
  predicate NoStreamingFlag(s: Session)
  {
    forall i :: 0 <= i < |s.messages| ==> s.messages[i].isStreaming.None?
  }

  lemma {:induction false} CompleteMessagesPreserved(s: Session, events: seq<Event>)
    requires NoStreamingFlag(s)
    ensures NoStreamingFlag(Run(s, events).session)
    decreases |events|
  {
    if events != [] {
      var next := Step(s, events[0]).session;
      assert NoStreamingFlag(next);
      CompleteMessagesPreserved(next, events[1..]);
    }
  }

  /** Content fragments are appended to the buffer verbatim and in arrival
      order; nothing else changes and nothing is transmitted. */
  lemma {:induction false} FragmentsAccumulate(s: Session, frames: seq<string>)
    requires AllContent(frames)
    ensures SameConversation(s, Run(s, Deliver(frames)).session)
    ensures Run(s, Deliver(frames)).session.buffer == s.buffer + Concat(frames)
    ensures Run(s, Deliver(frames)).session.isStreaming == (s.isStreaming || frames != [])
    ensures Run(s, Deliver(frames)).sent == []
    decreases |frames|
  {
    if frames != [] {
      var next := Step(s, Inbound(frames[0])).session;
      assert Deliver(frames)[1..] == Deliver(frames[1..]);
      FragmentsAccumulate(next, frames[1..]);
      assert s.buffer + Concat(frames) == (s.buffer + frames[0]) + Concat(frames[1..]);
    }
  }

  /** Content frames and then the marker store one bot message holding the
      buffer extended by the frames, and end the reply; nothing is
      transmitted. */
  lemma StreamThenMarker(s: Session, frames: seq<string>)
    requires AllContent(frames)
    ensures var r := Run(s, Deliver(frames) + [Inbound(EndMarker)]);
      && r.sent == []
      && r.session.messages == s.messages + [Message(Bot, s.buffer + Concat(frames), None)]
      && r.session.buffer == "" && !r.session.isStreaming
  {
    RunAppend(s, Deliver(frames), [Inbound(EndMarker)]);
    FragmentsAccumulate(s, frames);
    RunSingle(Run(s, Deliver(frames)).session, Inbound(EndMarker));
  }

  /** Sending and then receiving content frames leaves the user's message
      stored, the frames assembled in the buffer and the reply still open. */
  lemma SendThenStream(s: Session, frames: seq<string>)
    requires Admits(s)
    requires AllContent(frames)
    ensures var r := Run(s, [Send] + Deliver(frames));
      && r.session.messages == s.messages + [Message(User, s.input, None)]
      && r.session.buffer == Concat(frames) && r.session.isStreaming
      && r.session.input == "" && r.session.status == Connected
      && r.sent == [s.input]
  {
    var sent := SendMessage(s);
    RunSingle(s, Send);
    RunAppend(s, [Send], Deliver(frames));
    FragmentsAccumulate(sent.session, frames);
  }

  /** After an admitted send, fragments f1..fn followed by the end marker
      leave exactly the user message and the bot message f1+...+fn appended,
      the input transmitted once, and no reply outstanding. */
  lemma ReplyAssembled(s: Session, frames: seq<string>)
    requires Admits(s)
    requires AllContent(frames)
    ensures var r := Run(s, [Send] + Deliver(frames) + [Inbound(EndMarker)]);
      && r.session.messages == s.messages + [Message(User, s.input, None), Message(Bot, Concat(frames), None)]
      && r.session.buffer == "" && !r.session.isStreaming
      && r.session.input == "" && r.session.status == Connected
      && r.sent == [s.input]
  {
    SendThenStream(s, frames);
    var streamed := Run(s, [Send] + Deliver(frames)).session;
    RunAppend(s, [Send] + Deliver(frames), [Inbound(EndMarker)]);
    RunSingle(streamed, Inbound(EndMarker));
    assert (s.messages + [Message(User, s.input, None)]) + [Message(Bot, Concat(frames), None)]
      == s.messages + [Message(User, s.input, None), Message(Bot, Concat(frames), None)];
  }

  /** The events that end an outstanding reply. */
  predicate EndsReply(e: Event)
  {
    e == Inbound(EndMarker) || e == SocketError || e == SocketClose
  }

  /** True when no event of `events` ends an outstanding reply. */
  predicate KeepsReplyOpen(events: seq<Event>)
  {
    forall i :: 0 <= i < |events| ==> !EndsReply(events[i])
  }

  /** While a reply is outstanding, no event short of the end marker, an
      error or a close lets anything be transmitted, and the reply stays
      outstanding. */
  lemma {:induction false} StreamingBlocksSends(s: Session, events: seq<Event>)
    requires s.isStreaming
    requires KeepsReplyOpen(events)
    ensures Run(s, events).sent == []
    ensures Run(s, events).session.isStreaming
    ensures Run(s, events).session.messages == s.messages
    decreases |events|
  {
    if events != [] {
      var next := Step(s, events[0]).session;
      StreamingBlocksSends(next, events[1..]);
    }
  }

  /** At most one reply is ever outstanding: between an admitted send and
      the next end marker, error or close, every further send is rejected,
      so only the first input goes out. */
  lemma OneOutstandingReply(s: Session, events: seq<Event>)
    requires Admits(s)
    requires KeepsReplyOpen(events)
    ensures Run(s, [Send] + events).sent == [s.input]
    ensures Run(s, [Send] + events).session.messages == s.messages + [Message(User, s.input, None)]
  {
    RunAppend(s, [Send], events);
    StreamingBlocksSends(SendMessage(s).session, events);
  }

  /** A connection lost mid-stream stores nothing for that turn: the user
      message stays unanswered, the partial buffer is kept but not stored,
      and every later send is rejected until the socket opens again. */
  lemma LostReplyIsDropped(s: Session, frames: seq<string>, lost: Event)
    requires Admits(s)
    requires AllContent(frames)
    requires lost == SocketError || lost == SocketClose
    ensures var r := Run(s, [Send] + Deliver(frames) + [lost]);
      && r.session.messages == s.messages + [Message(User, s.input, None)]
      && r.session.buffer == Concat(frames)
      && r.session.status == Disconnected && !r.session.isStreaming
      && !Admits(r.session)
  {
    var sent := SendMessage(s);
    RunSingle(s, Send);
    RunAppend(s, [Send], Deliver(frames));
    FragmentsAccumulate(sent.session, frames);
    var streamed := Run(sent.session, Deliver(frames)).session;
    RunAppend(s, [Send] + Deliver(frames), [lost]);
    RunSingle(streamed, lost);
  }

  /** Once disconnected, no send is admitted until an open event arrives. */
  lemma {:induction false} DisconnectedStaysSilent(s: Session, events: seq<Event>)
    requires s.status == Disconnected
    requires forall i :: 0 <= i < |events| ==> events[i] != Open
    ensures Run(s, events).sent == []
    ensures Run(s, events).session.status == Disconnected
    decreases |events|
  {
    if events != [] {
      DisconnectedStaysSilent(Step(s, events[0]).session, events[1..]);
    }
  }

  /** The page's opening exchange: connect, type "hi", send it, receive
      "He", "llo" and the end marker. */
  lemma GreetingScenario()
    ensures Run(Init(), [Open, Edit("hi"), Send] + Deliver(["He", "llo"]) + [Inbound(EndMarker)]).session.messages
      == [Message(User, "hi", None), Message(Bot, "Hello", None)]
  {
    var prefix := [Open, Edit("hi")];
    var exchange := [Send] + Deliver(["He", "llo"]) + [Inbound(EndMarker)];
    var ready := Run(Init(), prefix);
    assert prefix[1..] == [Edit("hi")] && prefix[1..][1..] == [];
    assert ready.session == Session([], "hi", "", false, Connected, true);
    ReplyAssembled(ready.session, ["He", "llo"]);
    assert ["He", "llo"][1..] == ["llo"] && ["llo"][1..] == [];
    assert Concat(["He", "llo"]) == "Hello";
    assert [Open, Edit("hi"), Send] + Deliver(["He", "llo"]) + [Inbound(EndMarker)] == prefix + exchange;
    RunAppend(Init(), prefix, exchange);
  }
}

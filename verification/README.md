# Streaming chat session: a Dafny model

This project models the logic of a small chat system. A web page keeps one
WebSocket open to a server. The user's message goes out as one text frame.
The server answers with the reply's words as separate frames, then the
literal frame `[END]`. The page stores the conversation, reassembles the
streamed reply, and admits a new send only when no reply is outstanding and
the connection is open.

The model has five modules:

- `Protocol` (`protocol.dfy`): the `Option` type, the end marker `"[END]"`,
  and in-order concatenation of frames.
- `Chunker` (`chunker.dfy`): the server's word chunking of a reply. `Split`
  is Python's `str.split(" ")`, `Join` is its inverse, and `Chunks` gives the
  frames: the first word bare, every later word as `" " + word`.
- `AgentServer` (`agent_server.dfy`): how the server handles one user message.
  It extends the stored history with the user turn. The agent node appends
  the assistant turn. The reply frames follow, then the marker. `Serve` is
  the receive loop of one connection.
- `ChatSession` (`chat_session.dfy`): the page's state
  `{messages, input, buffer, isStreaming, status, socket}` and a pure
  `Step(state, event)`. There are six events: socket open, inbound frame,
  socket error, socket close, input edit and send. `Run` folds `Step` over an
  event trace and collects the frames the page transmitted.
- `EndToEnd` (`end_to_end.dfy`): the two sides together. The bot message the
  page stores equals the server's reply text. The exception is a reply whose
  first word is the marker itself. The model proves what happens then: the
  reply is split into an empty bot message and a second one holding the rest.

The streamed reply is held in one authoritative buffer. The end marker
finalizes the buffer's current value.

Three facts about the page's code shape the model:

- The send gate also requires that a socket object exists
  (web/src/app/page.tsx:87).
- Error and close do not clear the buffer (web/src/app/page.tsx:62-63,
  68-69). They only drop the reply's outstanding status, and the partial
  text is never stored.
- The open handler sets the status to `connected` from any state
  (web/src/app/page.tsx:36), so `DisconnectedStaysSilent` is stated for
  traces with no open event.

## Model

| member | source | states |
|---|---|---|
| `Chunker.Split` | server/main.py:97 | The words are never empty as a list, and no word contains a space. |
| `Chunker.JoinSplit` | server/main.py:97 | Rejoining the words of any text with single spaces gives back the text. |
| `Chunker.SplitJoin` | server/main.py:97 | Splitting a join of space-free words gives back exactly those words. This is the other half of the round trip. |
| `Chunker.Chunks` | server/main.py:97-102 | There is at least one chunk. The first chunk has no space. Every later chunk starts with a space, so only the first chunk can equal the end marker. |
| `Chunker.ChunksConcat` | server/main.py:97-102 | Concatenating the chunks of a reply gives back the reply exactly. |
| `Chunker.ChunkCount` | server/main.py:97-98 | A reply with n spaces is sent as n + 1 chunks. An empty reply is sent as the single chunk `""`. |
| `Chunker.FirstChunkIsMarker` | server/main.py:99-100 | The first chunk equals `[END]` exactly when the reply is `[END]` or starts with `[END] `. |
| `AgentServer.RequestHistory` | server/main.py:76-83 | The graph input is the stored conversation with one user turn appended at the end. A missing checkpoint or a missing "messages" entry counts as an empty history. |
| `AgentServer.CallAgent` | server/main.py:39-49 | The agent returns its input unchanged, extended by exactly one assistant turn that carries the reply. |
| `AgentServer.ReplyFrames` | server/main.py:91-105 | The last frame is always `[END]`, and no frame in between is the marker. With no messages, or a last turn that is not the assistant's, the only frame is `[END]`. Otherwise the frames before the marker are the reply's chunks, which concatenate back to the reply. A missing "content" key gives `""`. |
| `AgentServer.HandleMessage` | server/main.py:70-105 | One user message produces the reply's chunks followed by one `[END]`. The checkpoint becomes the old history plus the user turn and the assistant turn. |
| `AgentServer.Serve` | server/main.py:65-105 | Over a connection, the frames sent are each reply's chunks and marker, in order. The stored history grows by one user turn and one assistant turn per message, in order. |
| `ChatSession.Init` | web/src/app/page.tsx:15-19 | The page starts with no messages, an empty input and buffer, no reply outstanding, the status connecting, and no send admitted. |
| `ChatSession.Step` | web/src/app/page.tsx:34-95 | Only a send transmits, and it transmits at most the pending input. |
| `ChatSession.StepMessages` | web/src/app/page.tsx:39-95 | Every event changes the messages in one of three ways. An admitted send appends exactly the user's input. The end marker appends exactly one bot message holding the buffer. Every other event, a rejected send included, leaves the messages unchanged. |
| `ChatSession.OnOpen` | web/src/app/page.tsx:34-37 | Open marks the connection as connected and leaves the conversation and the buffer alone. |
| `ChatSession.OnMessage` | web/src/app/page.tsx:39-58 | A non-marker frame is appended to the buffer verbatim and marks a reply in flight. Nothing else changes. The marker appends one bot message holding the buffer, even an empty one, then clears the buffer and ends streaming. |
| `ChatSession.OnConnectionLost` | web/src/app/page.tsx:60-70 | Error or close sets the status to disconnected and ends streaming. The conversation and the buffer are left unchanged, and no send is admitted afterwards. |
| `ChatSession.OnEdit` | web/src/app/page.tsx:151 | Editing replaces the pending input and nothing else. |
| `ChatSession.SendMessage` | web/src/app/page.tsx:86-95 | A send transmits something exactly when the input is non-empty, a socket exists, no reply is streaming and the status is connected. A rejected send changes nothing and transmits nothing. An admitted send appends one user message, clears the input and the buffer, marks a reply outstanding, and transmits the input verbatim. |
| `ChatSession.HistoryAppendOnly` | web/src/app/page.tsx:47-50 | For any event trace, the old messages stay in place and in order, and each event adds at most one message. |
| `ChatSession.CompleteMessagesPreserved` | web/src/app/page.tsx:8-12 | For any event trace that starts from messages without the optional streaming flag, no stored message ever carries that flag. |
| `ChatSession.FragmentsAccumulate` | web/src/app/page.tsx:53-56 | Content fragments extend the buffer by their concatenation, in arrival order. Nothing else changes and nothing is transmitted. |
| `ChatSession.ReplyAssembled` | web/src/app/page.tsx:42-56 | After an admitted send, fragments f1..fn and then the marker append exactly the user message and the bot message f1+...+fn. No reply is left outstanding, and the input was transmitted once. |
| `ChatSession.StreamingBlocksSends` | web/src/app/page.tsx:87 | While a reply is outstanding, only a marker, an error or a close lets anything be transmitted. Until then the reply stays outstanding and the messages do not change. |
| `ChatSession.OneOutstandingReply` | web/src/app/page.tsx:86-95 | Between an admitted send and the next marker, error or close, every further send is rejected. |
| `ChatSession.LostReplyIsDropped` | web/src/app/page.tsx:60-70 | A connection lost mid-stream leaves only the user message stored, keeps the partial buffer unstored, and disconnects the session. |
| `ChatSession.DisconnectedStaysSilent` | web/src/app/page.tsx:87 | Once disconnected, nothing is transmitted and the status stays disconnected until an open event arrives. |
| `ChatSession.GreetingScenario` | web/src/app/page.tsx:34-56 | Connect, type "hi", send, then receive "He", "llo" and `[END]`: the conversation is a user "hi" followed by a bot "Hello". |
| `EndToEnd.ReplyDeliveredIntact` | server/main.py:96-105 | When the first word is not the marker, the page transmits the input once and stores the server's reply text exactly as a bot message. The server checkpoints the user turn and the assistant turn. |
| `EndToEnd.MarkerCollisionSplitsReply` | web/src/app/page.tsx:42-52 | A reply whose first word is `[END]` is finalized early. The page stores an empty bot message, then the rest of the reply as a second bot message. |
| `EndToEnd.CollidingChunks` | server/main.py:97-102 | When the reply's first word is `[END]`, the chunks are that marker followed by content fragments. Those fragments concatenate to the rest of the reply. |
| `EndToEnd.EarlyMarkerRun` | web/src/app/page.tsx:42-56 | After an admitted send, a marker, then content fragments, then a marker store two bot messages: an empty one, then one holding the fragments' concatenation. |
| `EndToEnd.StreamEndsEachReply` | server/main.py:105 | Over a connection, if no reply collides with the marker, the frame stream holds exactly one `[END]` per reply. |

## Left out

- Rendering is not modelled: JSX, CSS classes, the status badge text, the `disabled` flags of the input and the button, and scroll-into-view (web/src/app/page.tsx:82-84, 97-163). These are presentation only. The input's `onChange` is kept as the `Edit` event because it is the only way the user sets the input.
- The `streamingResponseRef` mirror and React's effect timing (web/src/app/page.tsx:22-27) are not modelled. This is a scheduling artifact; the model keeps one authoritative buffer.
- Socket construction, the URL and teardown `close()` (web/src/app/page.tsx:30-32, 73-79) are not modelled. `Init` is the state right after mounting, with the socket created and connecting.
- Transport I/O is not modelled: FastAPI's accept/receive/send/close (server/main.py:62-67, 113). Frames are abstract event and string sequences.
- The server's exception path (server/main.py:108-114) is not modelled. It closes the socket, and the page sees that as a close event, which `LostReplyIsDropped` covers.
- The language model and LangGraph are not modelled: `llm.invoke`, `init_chat_model`, the `StateGraph` wiring and `MemorySaver` (server/main.py:34-58, 74, 88). The reply text is an input. A graph run is modelled as one `call_agent` call on the extended history, and the checkpoint as its "messages" list. The extra `response_content` key is not modelled.
- Message content in a stored turn is assumed to be text when present. A non-text content would make `split` raise, which is part of the exception path above.
- Pacing and logging are not modelled: `asyncio.sleep`, `print`, `console.log` and traceback dumps (server/main.py:103, 108-112).
- Environment, API-key and CORS setup (server/main.py:12-28) are configuration and are not modelled.
- `thread_id` is not modelled as a key. The server keys the checkpoint by the URL's thread id (server/main.py:60-61, 71), and the page always connects to thread "1" (web/src/app/page.tsx:31), so every open page shares one history.
- AgentServer.Serve: assumes no other connection writes the same thread between this connection's messages. The server re-reads the thread's checkpoint for every message (server/main.py:74). With two pages open, one page's next request would see the other's turns, which `ServedConnection` does not allow for. `RequestHistory` and `HandleMessage` take an arbitrary snapshot and are unaffected.

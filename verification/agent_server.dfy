/** The chat server's per-connection loop (server/main.py `chat_ws`): it
    extends the stored conversation with the user's turn, lets the agent
    node append the assistant's turn, and streams the reply back as word
    chunks followed by the end marker. The language model is not modelled:
    the reply text is an input. */
module AgentServer {
  import opened Protocol
  import opened Chunker

  /** One entry of the LangGraph message list, a dict whose "role" and
      "content" keys may be missing. */
  datatype Turn = Turn(role: Option<string>, content: Option<string>)

  /** The values of a graph state: the channel name "messages" maps to the
      conversation. */
  type Values = map<string, seq<Turn>>

  const MessagesKey: string := "messages"
  const UserRole: string := "user"
  const AssistantRole: string := "assistant"

  function UserTurn(text: string): Turn
  {
    Turn(Some(UserRole), Some(text))
  }

  function AssistantTurn(text: string): Turn
  {
    Turn(Some(AssistantRole), Some(text))
  }

  /** The graph state the checkpointer keeps after a run that ended with
      `messages`. */
  function Checkpoint(messages: seq<Turn>): Values
  {
    map[MessagesKey := messages]
  }

  /** The stored conversation of a checkpoint, or `[]` when there is no
      checkpoint or it holds no "messages" entry. */
  function ExistingMessages(snapshot: Option<Values>): seq<Turn>
  {
    if snapshot.Some? && MessagesKey in snapshot.value then snapshot.value[MessagesKey] else []
  }

  /** The history handed to the graph: the stored conversation with the new
      user turn appended at the end. */
  function RequestHistory(snapshot: Option<Values>, userMessage: string): (history: seq<Turn>)
    ensures |history| >= 1 && history[|history| - 1] == UserTurn(userMessage)
    ensures snapshot.None? ==> history == [UserTurn(userMessage)]
    ensures snapshot.Some? && MessagesKey !in snapshot.value ==> history == [UserTurn(userMessage)]
    ensures snapshot.Some? && MessagesKey in snapshot.value ==>
      history[..|history| - 1] == snapshot.value[MessagesKey]
  {
    ExistingMessages(snapshot) + [UserTurn(userMessage)]
  }

  /** The agent node: the input conversation extended by exactly one
      assistant turn carrying the model's reply. */
  function CallAgent(messages: seq<Turn>, reply: string): (updated: seq<Turn>)
    ensures |updated| == |messages| + 1
    ensures updated[..|messages|] == messages
    ensures updated[|messages|].role == Some(AssistantRole)
    ensures updated[|messages|].content == Some(reply)
  {
    messages + [AssistantTurn(reply)]
  }

  /** True when the graph result ends with an assistant turn, the only case
      in which any reply text is streamed. */
  predicate HasAssistantReply(result: Values)
  {
    && MessagesKey in result
    && |result[MessagesKey]| > 0
    && result[MessagesKey][|result[MessagesKey]| - 1].role == Some(AssistantRole)
  }

  /** The assistant's text, with a missing "content" read as `""`. */
  function ReplyText(result: Values): string
    requires HasAssistantReply(result)
  {
    var last := result[MessagesKey][|result[MessagesKey]| - 1];
    if last.content.Some? then last.content.value else ""
  }

  /** The frames sent for one graph result: the reply's chunks when the
      result ends with an assistant turn, then always the end marker. */
  function ReplyFrames(result: Values): (frames: seq<string>)
    ensures |frames| >= 1 && frames[|frames| - 1] == EndMarker
    ensures forall i :: 1 <= i < |frames| - 1 ==> frames[i] != EndMarker
    ensures !HasAssistantReply(result) ==> frames == [EndMarker]
    ensures HasAssistantReply(result) ==> frames[..|frames| - 1] == Chunks(ReplyText(result))
    ensures HasAssistantReply(result) ==> Concat(frames[..|frames| - 1]) == ReplyText(result)
    ensures HasAssistantReply(result) ==> |frames| == multiset(ReplyText(result))[Space] + 2
  {
    if HasAssistantReply(result) then
      var text := ReplyText(result);
      ChunksConcat(text);
      ChunkCount(text);
      assert (Chunks(text) + [EndMarker])[..|Chunks(text)|] == Chunks(text);
      Chunks(text) + [EndMarker]
    else
      [EndMarker]
  }

  /** What one received user message produces: the frames sent back and the
      graph state the checkpointer keeps for the thread. */
  datatype Exchange = Exchange(frames: seq<string>, stored: Values)

  /** Handling of one user message, with the graph run as its single agent
      node on the extended history and its result checkpointed. */
  function HandleMessage(snapshot: Option<Values>, userMessage: string, reply: string): (ex: Exchange)
    ensures ex.frames == Chunks(reply) + [EndMarker]
    ensures ex.stored == Checkpoint(ExistingMessages(snapshot) + [UserTurn(userMessage), AssistantTurn(reply)])
  {
    var history := RequestHistory(snapshot, userMessage);
    var updated := CallAgent(history, reply);
    assert updated == ExistingMessages(snapshot) + [UserTurn(userMessage), AssistantTurn(reply)];
    var result := Checkpoint(updated);
    assert HasAssistantReply(result) && ReplyText(result) == reply;
    Exchange(ReplyFrames(result), result)
  }

  /** Every frame sent for a run of replies, in order. */
  function ReplyStream(replies: seq<string>): seq<string>
  {
    if replies == [] then [] else Chunks(replies[0]) + [EndMarker] + ReplyStream(replies[1..])
  }

  /** The turns a run of exchanges adds to the conversation: each user turn
      followed by its assistant turn. */
  function Transcript(users: seq<string>, replies: seq<string>): seq<Turn>
    requires |users| == |replies|
  {
    if users == [] then [] else [UserTurn(users[0]), AssistantTurn(replies[0])] + Transcript(users[1..], replies[1..])
  }

  lemma {:induction false} ReplyStreamSnoc(replies: seq<string>, reply: string)
    ensures ReplyStream(replies + [reply]) == ReplyStream(replies) + (Chunks(reply) + [EndMarker])
    decreases |replies|
  {
    if replies == [] {
      assert [] + [reply] == [reply];
      assert [reply][1..] == [];
    } else {
      assert (replies + [reply])[1..] == replies[1..] + [reply];
      ReplyStreamSnoc(replies[1..], reply);
    }
  }

  lemma {:induction false} TranscriptSnoc(users: seq<string>, replies: seq<string>, user: string, reply: string)
    requires |users| == |replies|
    ensures Transcript(users + [user], replies + [reply]) == Transcript(users, replies) + [UserTurn(user), AssistantTurn(reply)]
    decreases |users|
  {
    if users == [] {
      assert users + [user] == [user];
      assert replies + [reply] == [reply];
    } else {
      assert (users + [user])[1..] == users[1..] + [user];
      assert (replies + [reply])[1..] == replies[1..] + [reply];
      TranscriptSnoc(users[1..], replies[1..], user, reply);
    }
  }

  /** One turn of the loop: the frames sent so far are followed by the next
      reply's frames, and the checkpointed conversation grows by the next
      user turn and its assistant turn. */
  lemma ServeStep(
    snapshot: Option<Values>, users: seq<string>, replies: seq<string>, k: nat,
    frames: seq<string>, history: seq<Turn>, stored: Option<Values>)
    requires |users| == |replies| && k < |users|
    requires frames == ReplyStream(replies[..k])
    requires history == ExistingMessages(snapshot) + Transcript(users[..k], replies[..k])
    requires k == 0 ==> stored == snapshot
    requires k > 0 ==> stored == Some(Checkpoint(history))
    ensures var ex := HandleMessage(stored, users[k], replies[k]);
      var pair := [UserTurn(users[k]), AssistantTurn(replies[k])];
      && frames + ex.frames == ReplyStream(replies[..k + 1])
      && history + pair == ExistingMessages(snapshot) + Transcript(users[..k + 1], replies[..k + 1])
      && ex.stored == Checkpoint(history + pair)
  {
    var pair := [UserTurn(users[k]), AssistantTurn(replies[k])];
    assert ExistingMessages(stored) == history by {
      if k == 0 {
        assert users[..k] == [] && replies[..k] == [];
      }
    }
    ReplyStreamSnoc(replies[..k], replies[k]);
    TranscriptSnoc(users[..k], replies[..k], users[k], replies[k]);
    assert users[..k + 1] == users[..k] + [users[k]];
    assert replies[..k + 1] == replies[..k] + [replies[k]];
    assert history + pair == ExistingMessages(snapshot) + (Transcript(users[..k], replies[..k]) + pair);
  }

  /** A connection that received `users` and got `replies` from the model
      sent `frames` and left `stored` checkpointed: every reply's chunks and
      marker in order, and the stored conversation extended by each user
      turn followed by its assistant turn. */
  predicate ServedConnection(
    snapshot: Option<Values>, users: seq<string>, replies: seq<string>,
    frames: seq<string>, stored: Option<Values>)
    requires |users| == |replies|
  {
    && frames == ReplyStream(replies)
    && (users == [] ==> stored == snapshot)
    && (users != [] ==> stored == Some(Checkpoint(ExistingMessages(snapshot) + Transcript(users, replies))))
  }

  /** The `while True` loop over one connection: each received user message
      is answered in full before the next is read. */
  method Serve(snapshot: Option<Values>, users: seq<string>, replies: seq<string>)
      returns (frames: seq<string>, stored: Option<Values>)
    requires |users| == |replies|
    ensures ServedConnection(snapshot, users, replies, frames, stored)
  {
    frames := [];
    stored := snapshot;
    var history := ExistingMessages(snapshot);
    var k := 0;
    while k < |users|
      invariant 0 <= k <= |users|
      invariant frames == ReplyStream(replies[..k])
      invariant history == ExistingMessages(snapshot) + Transcript(users[..k], replies[..k])
      invariant k == 0 ==> stored == snapshot
      invariant k > 0 ==> stored == Some(Checkpoint(history))
    {
      var ex := HandleMessage(stored, users[k], replies[k]);
      ServeStep(snapshot, users, replies, k, frames, history, stored);
      frames := frames + ex.frames;
      history := history + [UserTurn(users[k]), AssistantTurn(replies[k])];
      stored := Some(ex.stored);
      k := k + 1;
    }
    assert replies[..k] == replies;
    assert users[..k] == users;
  }
}

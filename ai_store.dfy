/**
 * The conversation store (`useAIStore`): the chat messages, the agent status
 * and pipeline, the streaming flag and the token counter.
 */
module AIStore {
  import opened Nullable

  datatype Role = User | Assistant | System

  /** A chat message; `id` and `timestamp` come from `Math.random` and `new Date()` and are passed in. */
  datatype AIMessage = AIMessage(id: string, role: Role, content: string, timestamp: int, isStreaming: Option<bool>)

  datatype AgentPhase = Idle | Thinking | Working | Done | Failed

  datatype AgentStatus = AgentStatus(name: string, status: AgentPhase, message: Option<string>)

  /** The data fields of the store. */
  datatype AIState = AIState(
    messages: seq<AIMessage>,
    currentAgent: Option<AgentStatus>,
    agentPipeline: seq<AgentStatus>,
    isStreaming: bool,
    tokensUsed: int)

  /** The state the store is created with, and the one `clearConversation` returns to. */
  const Initial: AIState := AIState([], None, [], false, 0)

  /** `addMessage(message)`: the message, stamped with `id` and `timestamp`, goes last. */
  function WithMessage(s: AIState, role: Role, content: string, isStreaming: Option<bool>, id: string, timestamp: int): (r: AIState)
    ensures |r.messages| == |s.messages| + 1 && r.messages[..|s.messages|] == s.messages
    ensures r.messages[|s.messages|] == AIMessage(id, role, content, timestamp, isStreaming)
    ensures r == s.(messages := r.messages)
  {
    var m := s.messages + [AIMessage(id, role, content, timestamp, isStreaming)];
    assert m[..|s.messages|] == s.messages;
    s.(messages := m)
  }

  /**
   * The message list after `updateLastMessage(content)`: the last message
   * gets the new content and keeps everything else; an empty list stays empty.
   */
  function WithLastContent(messages: seq<AIMessage>, content: string): (r: seq<AIMessage>)
    ensures |r| == |messages|
    ensures messages == [] ==> r == []
    ensures messages != [] ==>
      && r[..|r| - 1] == messages[..|messages| - 1]
      && r[|r| - 1].content == content
      && r[|r| - 1].id == messages[|messages| - 1].id
      && r[|r| - 1].role == messages[|messages| - 1].role
      && r[|r| - 1].timestamp == messages[|messages| - 1].timestamp
      && r[|r| - 1].isStreaming == messages[|messages| - 1].isStreaming
  {
    if messages == [] then []
    else messages[|messages| - 1 := messages[|messages| - 1].(content := content)]
  }

  /** The message list after one `updateLastMessage` call per chunk of a streamed reply. */
  function Streamed(messages: seq<AIMessage>, chunks: seq<string>): seq<AIMessage>
    decreases |chunks|
  {
    if chunks == [] then messages
    else WithLastContent(Streamed(messages, chunks[..|chunks| - 1]), chunks[|chunks| - 1])
  }

  /**
   * Streaming never changes the number of messages nor any message but the
   * last, and the last message ends up with the final chunk as its content.
   */
  lemma {:induction false} StreamingKeepsHistory(messages: seq<AIMessage>, chunks: seq<string>)
    ensures |Streamed(messages, chunks)| == |messages|
    ensures messages != [] ==>
      && Streamed(messages, chunks)[..|messages| - 1] == messages[..|messages| - 1]
      && Streamed(messages, chunks)[|messages| - 1].id == messages[|messages| - 1].id
      && Streamed(messages, chunks)[|messages| - 1].role == messages[|messages| - 1].role
    ensures messages != [] && chunks != [] ==> Streamed(messages, chunks)[|messages| - 1].content == chunks[|chunks| - 1]
    decreases |chunks|
  {
    if chunks != [] {
      StreamingKeepsHistory(messages, chunks[..|chunks| - 1]);
    }
  }

  /** The counter after `addTokensUsed` for each amount in turn. */
  function TokensAfter(tokens: int, amounts: seq<int>): int
    decreases |amounts|
  {
    if amounts == [] then tokens else TokensAfter(tokens, amounts[..|amounts| - 1]) + amounts[|amounts| - 1]
  }

  /** With non-negative amounts the token counter never decreases, at any point of the sequence. */
  lemma {:induction false} TokensNeverDecrease(tokens: int, amounts: seq<int>, k: nat)
    requires forall i :: 0 <= i < |amounts| ==> amounts[i] >= 0
    requires k <= |amounts|
    ensures tokens <= TokensAfter(tokens, amounts[..k]) <= TokensAfter(tokens, amounts)
    decreases |amounts|
  {
    if amounts != [] {
      var init := amounts[..|amounts| - 1];
      if k == |amounts| {
        assert amounts[..k] == amounts;
        TokensNeverDecrease(tokens, init, |init|);
        assert init[..|init|] == init;
      } else {
        assert amounts[..k] == init[..k];
        TokensNeverDecrease(tokens, init, k);
      }
    }
  }

  /** The conversation store: one field per state key. */
  class Store {
    var messages: seq<AIMessage>
    var currentAgent: Option<AgentStatus>
    var agentPipeline: seq<AgentStatus>
    var isStreaming: bool
    var tokensUsed: int

    function State(): AIState
      reads this
    {
      AIState(messages, currentAgent, agentPipeline, isStreaming, tokensUsed)
    }

    constructor()
      ensures State() == Initial
    {
      messages := [];
      currentAgent := None;
      agentPipeline := [];
      isStreaming := false;
      tokensUsed := 0;
    }

    method AddMessage(role: Role, content: string, streaming: Option<bool>, id: string, timestamp: int)
      modifies this
      ensures State() == WithMessage(old(State()), role, content, streaming, id, timestamp)
    {
      messages := messages + [AIMessage(id, role, content, timestamp, streaming)];
    }

    /** Copies the list and replaces its last element, as the source does. */
    method UpdateLastMessage(content: string)
      modifies this
      ensures State() == old(State()).(messages := WithLastContent(old(messages), content))
    {
      var copy := messages;
      if |copy| > 0 {
        copy := copy[|copy| - 1 := copy[|copy| - 1].(content := content)];
      }
      messages := copy;
    }

    method SetStreaming(streaming: bool)
      modifies this
      ensures State() == old(State()).(isStreaming := streaming)
    {
      isStreaming := streaming;
    }

    method SetCurrentAgent(agent: Option<AgentStatus>)
      modifies this
      ensures State() == old(State()).(currentAgent := agent)
    {
      currentAgent := agent;
    }

    method UpdateAgentPipeline(pipeline: seq<AgentStatus>)
      modifies this
      ensures State() == old(State()).(agentPipeline := pipeline)
    {
      agentPipeline := pipeline;
    }

    method AddTokensUsed(tokens: int)
      modifies this
      ensures State() == old(State()).(tokensUsed := old(tokensUsed) + tokens)
    {
      tokensUsed := tokensUsed + tokens;
    }

    method ClearConversation()
      modifies this
      ensures State() == Initial
    {
      messages := [];
      currentAgent := None;
      agentPipeline := [];
      isStreaming := false;
      tokensUsed := 0;
    }
  }

  /**
   * A streamed reply: the user's message, an empty assistant message, then
   * one `updateLastMessage` per chunk. The conversation has two messages and
   * the reply holds the last chunk.
   */
  method StreamReply(question: string, chunks: seq<string>) returns (count: nat, reply: string, asked: string)
    ensures count == 2 && asked == question
    ensures reply == if chunks == [] then "" else chunks[|chunks| - 1]
  {
    var store := new Store();
    store.AddMessage(User, question, None, "q", 0);
    store.AddMessage(Assistant, "", Some(true), "a", 1);
    var i := 0;
    while i < |chunks|
      invariant 0 <= i <= |chunks|
      invariant |store.messages| == 2 && store.messages[0].content == question
      invariant store.messages[1].content == if i == 0 then "" else chunks[i - 1]
    {
      store.UpdateLastMessage(chunks[i]);
      i := i + 1;
    }
    count := |store.messages|;
    reply := store.messages[1].content;
    asked := store.messages[0].content;
  }
}

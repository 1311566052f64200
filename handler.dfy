/**
 * The `messageCreate` handler as a whole. The bot's process-wide state, the
 * `ongoingConversations` map and `lastTokens`, becomes a `Bot` object whose
 * handler method updates it in place. A direct message from someone other
 * than the bot's own account is normalised (links embedded, attachments
 * folded in), then the conversation is summarised, created or extended,
 * the reply completion is requested, the assistant turn committed and the
 * reply sent chunk by chunk. The outcomes of the outside calls (fetches,
 * speech and vision services, completions, sends) are inputs.
 */
module Handler {
  import opened Wrappers
  import opened Strings
  import opened Chat
  import opened Chunker
  import opened LinkScan
  import opened ContentFetcher
  import opened Media
  import opened Attachments
  import opened ConversationStore

  /** The content a message contributes: its links embedded, then its attachments folded in. */
  function NormalizedInput(text: string, fetches: seq<FetchResult>, atts: seq<Attachment>,
                           oracles: seq<MediaOracle>): (r: string)
    requires |fetches| == |Links(text)| && |atts| == |oracles|
    ensures atts == [] && (forall i :: 0 <= i < |fetches| ==> !Accepts(fetches[i])) ==> r == text
  {
    EmbedAllRejected(text, Links(text), fetches);
    AttachmentText(EmbedAll(text, Links(text), fetches), atts, oracles)
  }

  /** An incoming message: whether it came in a direct-message channel, its author, text and attachments. */
  datatype Incoming = Incoming(isDirect: bool, author: UserId, text: string, attachments: seq<Attachment>)

  /** The handler reacts only to direct messages that the bot's own account did not write. */
  predicate Answers(msg: Incoming, selfId: UserId) {
    msg.isDirect && msg.author != selfId
  }

  class Bot {
    const selfId: UserId
    var conversations: map<UserId, seq<Turn>>
    var lastTokens: nat

    function Model(): State
      reads this
    {
      State(conversations, lastTokens)
    }

    predicate Valid()
      reads this
    {
      ValidState(Model())
    }

    /** The bot starts with no conversations and `lastTokens` at 0. */
    constructor(selfId: UserId)
      ensures this.selfId == selfId && conversations == map[] && lastTokens == 0
      ensures Valid()
    {
      this.selfId := selfId;
      conversations := map[];
      lastTokens := 0;
    }

    /**
     * One run of the handler. `status` is `None` when the message is ignored;
     * otherwise the new state and everything sent and requested are those of
     * `Step` on the normalised content, and the conversations stay well formed.
     */
    method OnMessageCreate(msg: Incoming, base: string, fetches: seq<FetchResult>, oracles: seq<MediaOracle>,
                           summary: CompletionResult, reply: CompletionResult, sendFailsAt: Option<nat>)
      returns (status: Option<Status>, sent: seq<string>, summaryPrompt: Option<string>,
               request: Option<seq<Turn>>)
      requires Valid()
      requires |fetches| == |Links(msg.text)| && |oracles| == |msg.attachments|
      modifies this
      ensures Valid()
      ensures !Answers(msg, selfId) ==>
        Model() == old(Model()) && status.None? && sent == [] && summaryPrompt.None? && request.None?
      ensures Answers(msg, selfId) ==>
        var r := Step(old(Model()), msg.author, base, NormalizedInput(msg.text, fetches, msg.attachments, oracles),
                      summary, reply, sendFailsAt);
        Model() == r.state && status == Some(r.status) && sent == r.sent
        && summaryPrompt == r.summaryPrompt && request == r.completionRequest
    {
      if !Answers(msg, selfId) {
        return None, [], None, None;
      }
      var content := EmbedLinks(msg.text, fetches);
      content := AppendAttachments(content, msg.attachments, oracles);
      var st;
      st, sent, summaryPrompt, request := HandleContent(msg.author, base, content, summary, reply, sendFailsAt);
      status := Some(st);
    }

    /** The store update and the reply for the assembled content, as `Step` describes them. */
    method HandleContent(user: UserId, base: string, content: string, summary: CompletionResult,
                          reply: CompletionResult, sendFailsAt: Option<nat>)
      returns (status: Status, sent: seq<string>, summaryPrompt: Option<string>, request: Option<seq<Turn>>)
      requires Valid()
      modifies this
      ensures Valid()
      ensures var r := Step(old(Model()), user, base, content, summary, reply, sendFailsAt);
        Model() == r.state && status == r.status && sent == r.sent
        && summaryPrompt == r.summaryPrompt && request == r.completionRequest
    {
      StepPreservesValid(Model(), user, base, content, summary, reply, sendFailsAt);
      summaryPrompt := None;
      var systemMessage := base;
      var hasConversation := user in conversations;
      if lastTokens > SummaryThreshold {
        if !hasConversation {
          return Rejected, [], None, None;
        }
        var serialized := SerializeConversation(conversations[user]);
        summaryPrompt := Some(SummaryRequest + serialized);
        if summary.CompletionFailed? {
          return Rejected, [], summaryPrompt, None;
        }
        systemMessage := systemMessage + SummaryHeader + summary.content;
        hasConversation := false;
      }
      var conversation: seq<Turn>;
      if !hasConversation {
        conversation := [Turn(System, systemMessage), Turn(User, content)];
      } else {
        conversation := conversations[user] + [Turn(User, content)];
      }
      request := Some(conversation);
      status, sent := Reply(user, conversation, reply, sendFailsAt, summaryPrompt);
    }

    /**
     * The conversation is stored, then the `try` block: the completion, the
     * assistant turn, the chunked send and the new `lastTokens`, or the
     * apology when any of it throws.
     */
    method Reply(user: UserId, conversation: seq<Turn>, reply: CompletionResult, sendFailsAt: Option<nat>,
                 summaryPrompt: Option<string>)
      returns (status: Status, sent: seq<string>)
      modifies this
      ensures var r := Respond(old(Model()), user, conversation, reply, sendFailsAt, summaryPrompt);
        Model() == r.state && status == r.status && sent == r.sent
    {
      conversations := conversations[user := conversation];
      if reply.CompletionFailed? {
        return CompletionError, [Apology];
      }
      conversations := conversations[user := conversation + [Turn(Assistant, reply.content)]];
      var chunks := SplitIntoFixedChunks(reply.content, ChunkSize);
      var delivered;
      delivered, sent := SendChunks(chunks, sendFailsAt);
      if delivered {
        lastTokens := reply.totalTokens;
        status := Replied;
      } else {
        status := SendError;
      }
    }
  }

  /**
   * The send loop inside the handler's `try`: chunks go out in order until a
   * send fails, and then the apology follows; `delivered` says whether every
   * chunk went out.
   */
  method SendChunks(chunks: seq<string>, sendFailsAt: Option<nat>) returns (delivered: bool, sent: seq<string>)
    ensures delivered <==> !(sendFailsAt.Some? && sendFailsAt.value < |chunks|)
    ensures delivered ==> sent == chunks
    ensures !delivered ==> sent == chunks[..sendFailsAt.value] + [Apology]
  {
    sent := [];
    var k := 0;
    while k < |chunks|
      invariant 0 <= k <= |chunks|
      invariant sent == chunks[..k]
      invariant sendFailsAt.Some? ==> sendFailsAt.value >= k
    {
      if sendFailsAt == Some(k) {
        break;
      }
      sent := sent + [chunks[k]];
      k := k + 1;
    }
    delivered := k == |chunks|;
    if delivered {
      assert chunks[..k] == chunks;
    } else {
      sent := sent + [Apology];
    }
  }

  /** A message without links or attachments reaches the conversation verbatim. */
  lemma PlainMessagePassesThrough(text: string, fetches: seq<FetchResult>)
    requires forall q: nat :: !OccursAt(text, "http", q)
    requires |fetches| == |Links(text)|
    ensures NormalizedInput(text, fetches, [], []) == text
  {
    NoHttpNoLinks(text);
  }

  /** A transcribed voice message replaces whatever the text and its links made of the content. */
  lemma VoiceMessageOverridesText(text: string, fetches: seq<FetchResult>, atts: seq<Attachment>,
                                  oracles: seq<MediaOracle>, i: nat)
    requires |fetches| == |Links(text)| && |atts| == |oracles| && i < |atts|
    requires TranscribedVoice(atts[i], oracles[i])
    requires forall j :: 0 <= j < i ==> !TranscribedVoice(atts[j], oracles[j])
    ensures NormalizedInput(text, fetches, atts, oracles) == TranscribeAudio(oracles[i].recognized).value
  {
    VoiceTranscriptReplacesAll(EmbedAll(text, Links(text), fetches), atts, oracles, i);
  }

  /**
   * A first "hello" from a new user with a short reply: the conversation is
   * the base system turn, the user turn and the assistant turn; the reply goes
   * out as one message and `lastTokens` becomes the reported total.
   */
  lemma FirstHello(user: UserId, base: string, summary: CompletionResult, answer: string, tokens: nat)
    requires 1 <= |answer| <= ChunkSize
    ensures NormalizedInput("hello", [], [], []) == "hello"
    ensures var r := Step(State(map[], 0), user, base, "hello", summary, Completed(answer, tokens), None);
      && r.completionRequest == Some([Turn(System, base), Turn(User, "hello")])
      && r.state.conversations == map[user := [Turn(System, base), Turn(User, "hello"), Turn(Assistant, answer)]]
      && r.state.lastTokens == tokens
      && r.sent == [answer]
      && r.status == Replied
  {
    forall q: nat ensures !OccursAt("hello", "http", q) {
      if q + 4 <= 5 {
        assert "hello"[q + 2] == 'l';
      }
    }
    PlainMessagePassesThrough("hello", []);
    var convo := [Turn(System, base), Turn(User, "hello"), Turn(Assistant, answer)];
    assert [Turn(System, base), Turn(User, "hello")] + [Turn(Assistant, answer)] == convo;
    assert map[][user := convo] == map[user := convo];
  }
}

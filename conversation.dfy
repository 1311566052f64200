/**
 * The conversation store of the `messageCreate` handler: a map from user id
 * to that user's turns, and the process-wide `lastTokens`, the total token
 * usage of the last successful completion.
 *
 * `Step` is what one handler run does to that state once the message
 * content has been assembled, with the two completion calls (summary and
 * reply) and the sending of the reply's chunks supplied as inputs. When
 * `lastTokens` exceeds 3700 the user's history is serialised and summarised,
 * and the conversation is rebuilt from a system turn carrying the summary;
 * otherwise the conversation is created or the user turn appended. A
 * successful completion commits an assistant turn and sets `lastTokens`; a
 * failure keeps the user turn and sends one fixed apology.
 */
module ConversationStore {
  import opened Wrappers
  import opened Strings
  import opened Chat
  import opened Chunker

  type UserId = string

  const SummaryThreshold: nat := 3700

  /** The transport's message size the reply is cut to. */
  const ChunkSize: nat := 2000

  const Apology := "`Whoops... There was an error generating a response to that. Sorry!`"

  const SummaryRequest := "Summarize this conversation in as much detail as possible without exceeding 5 paragraphs, including any information the user requested in the last message:\n\n"

  const SummaryHeader := "\n\nThis is a summary of the conversation thus far:\n\n"

  /** One line of the serialised history without its newline: `${role}: ${content}`. */
  function LineText(t: Turn): string {
    RoleName(t.role) + ": " + t.content
  }

  function Line(t: Turn): string {
    LineText(t) + "\n"
  }

  /** The serialised history, built up line by line in order. */
  function Serialize(ts: seq<Turn>): string {
    if ts == [] then "" else Serialize(ts[..|ts| - 1]) + Line(ts[|ts| - 1])
  }

  /** The serialisation loop of the summary branch. */
  method SerializeConversation(conversation: seq<Turn>) returns (serialized: string)
    ensures serialized == Serialize(conversation)
  {
    serialized := "";
    var i := 0;
    while i < |conversation|
      invariant 0 <= i <= |conversation|
      invariant serialized == Serialize(conversation[..i])
    {
      assert conversation[..i + 1][..i] == conversation[..i];
      serialized := serialized + Line(conversation[i]);
      i := i + 1;
    }
    assert conversation[..i] == conversation;
  }

  /** Serialising two histories one after the other is serialising their concatenation. */
  lemma {:induction false} SerializeAppend(a: seq<Turn>, b: seq<Turn>)
    ensures Serialize(a + b) == Serialize(a) + Serialize(b)
    decreases |b|
  {
    if b == [] {
      assert a + b == a;
    } else {
      var n := |b| - 1;
      assert (a + b)[..|a + b| - 1] == a + b[..n];
      SerializeAppend(a, b[..n]);
      AppendAssoc(Serialize(a), Serialize(b[..n]), Line(b[n]));
    }
  }

  /** The serialised history is the first turn's line followed by the rest's. */
  lemma SerializeCons(ts: seq<Turn>)
    requires ts != []
    ensures Serialize(ts) == LineText(ts[0]) + ['\n'] + Serialize(ts[1..])
  {
    assert ts == [ts[0]] + ts[1..];
    SerializeAppend([ts[0]], ts[1..]);
  }

  /** The text of each turn's line, in order. */
  function LineTexts(ts: seq<Turn>): seq<string> {
    if ts == [] then [] else [LineText(ts[0])] + LineTexts(ts[1..])
  }

  lemma LineTextNoNewline(t: Turn)
    requires '\n' !in t.content
    ensures '\n' !in LineText(t)
  {
    assert '\n' !in RoleName(t.role);
  }

  /**
   * When no content holds a newline, the serialised history splits into one
   * `role: content` line per turn, in order, followed by the empty rest after
   * the final newline.
   */
  lemma {:induction false} SerializeLines(ts: seq<Turn>)
    requires forall i :: 0 <= i < |ts| ==> '\n' !in ts[i].content
    ensures Split(Serialize(ts), '\n') == LineTexts(ts) + [""]
  {
    if ts != [] {
      var rest := ts[1..];
      SerializeCons(ts);
      LineTextNoNewline(ts[0]);
      SplitAfterSep(LineText(ts[0]), '\n', Serialize(rest));
      assert forall i :: 0 <= i < |rest| ==> '\n' !in rest[i].content by {
        forall i | 0 <= i < |rest| ensures rest[i] == ts[i + 1] { }
      }
      SerializeLines(rest);
      assert LineTexts(ts) + [""] == [LineText(ts[0])] + (LineTexts(rest) + [""]);
    }
  }

  datatype State = State(conversations: map<UserId, seq<Turn>>, lastTokens: nat)

  /**
   * How a handler run ends: a reply sent, the reply completion failed, a
   * chunk could not be sent, or the run rejected before touching the store
   * (an exception nothing catches).
   */
  datatype Status = Replied | CompletionError | SendError | Rejected

  datatype StepResult = StepResult(
    state: State,
    status: Status,
    sent: seq<string>,
    summaryPrompt: Option<string>,
    completionRequest: Option<seq<Turn>>)

  /** The stored conversation is sent for completion, then the reply is committed, chunked and sent. */
  function Respond(s: State, user: UserId, conversation: seq<Turn>, reply: CompletionResult,
                   sendFailsAt: Option<nat>, summaryPrompt: Option<string>): (r: StepResult)
    ensures r.status != Rejected && r.completionRequest == Some(conversation) && r.summaryPrompt == summaryPrompt
    ensures user in r.state.conversations
    ensures |r.state.conversations[user]| == |conversation| + (if reply.Completed? then 1 else 0)
    ensures r.state.conversations[user][..|conversation|] == conversation
    ensures r.status == Replied <==> reply.Completed? && !(sendFailsAt.Some? && sendFailsAt.value < |r.sent|)
    ensures r.status != Replied ==> r.state.lastTokens == s.lastTokens && |r.sent| >= 1 && r.sent[|r.sent| - 1] == Apology
    ensures r.status == Replied ==> r.state.lastTokens == reply.totalTokens && Concat(r.sent) == reply.content
  {
    match reply
    case CompletionFailed =>
      StepResult(s.(conversations := s.conversations[user := conversation]), CompletionError, [Apology],
                 summaryPrompt, Some(conversation))
    case Completed(text, tokens) =>
      var answered := s.conversations[user := conversation + [Turn(Assistant, text)]];
      var chunks := FixedChunks(text, ChunkSize);
      if sendFailsAt.Some? && sendFailsAt.value < |chunks| then
        StepResult(State(answered, s.lastTokens), SendError, chunks[..sendFailsAt.value] + [Apology],
                   summaryPrompt, Some(conversation))
      else
        FixedChunksJoin(text, ChunkSize);
        StepResult(State(answered, tokens), Replied, chunks, summaryPrompt, Some(conversation))
  }

  /**
   * One handler run for `user` with assembled `content`. `summary` and
   * `reply` are the outcomes of the summary and reply completion calls;
   * `sendFailsAt` is the index of the first chunk whose send fails, if any.
   */
  function Step(s: State, user: UserId, base: string, content: string, summary: CompletionResult,
                reply: CompletionResult, sendFailsAt: Option<nat>): (r: StepResult)
    ensures r.status == Rejected <==> r.completionRequest.None?
    ensures r.status == Rejected ==> r.state == s && r.sent == []
    ensures r.summaryPrompt.Some? <==> s.lastTokens > SummaryThreshold && user in s.conversations
    ensures r.completionRequest.Some? ==>
      var request := r.completionRequest.value;
      && |request| >= 1 && request[|request| - 1] == Turn(User, content)
      && user in r.state.conversations
      && |request| <= |r.state.conversations[user]|
      && r.state.conversations[user][..|request|] == request
  {
    if s.lastTokens > SummaryThreshold then
      if user !in s.conversations then
        StepResult(s, Rejected, [], None, None)
      else
        var prompt := SummaryRequest + Serialize(s.conversations[user]);
        match summary
        case CompletionFailed => StepResult(s, Rejected, [], Some(prompt), None)
        case Completed(text, _) =>
          Respond(s, user, [Turn(System, base + SummaryHeader + text), Turn(User, content)], reply, sendFailsAt, Some(prompt))
    else if user !in s.conversations then
      Respond(s, user, [Turn(System, base), Turn(User, content)], reply, sendFailsAt, None)
    else
      Respond(s, user, s.conversations[user] + [Turn(User, content)], reply, sendFailsAt, None)
  }

  /** A stored conversation opens with its one system turn, followed by the first user turn. */
  predicate ValidConversation(c: seq<Turn>) {
    |c| >= 2 && c[0].role == System && c[1].role == User
    && forall i :: 1 <= i < |c| ==> c[i].role != System
  }

  predicate ValidState(s: State) {
    forall u :: u in s.conversations ==> ValidConversation(s.conversations[u])
  }

  /** Every handler run keeps every stored conversation well formed. */
  lemma StepPreservesValid(s: State, user: UserId, base: string, content: string, summary: CompletionResult,
                           reply: CompletionResult, sendFailsAt: Option<nat>)
    requires ValidState(s)
    ensures ValidState(Step(s, user, base, content, summary, reply, sendFailsAt).state)
  {
    var r := Step(s, user, base, content, summary, reply, sendFailsAt);
    if r.completionRequest.Some? {
      var c := r.completionRequest.value;
      assert ValidConversation(c);
      assert ValidConversation(c + [Turn(Assistant, if reply.Completed? then reply.content else "")]);
    }
  }

  /** Another user's conversation is never touched. */
  lemma StepOtherUsersUnchanged(s: State, user: UserId, base: string, content: string, summary: CompletionResult,
                                reply: CompletionResult, sendFailsAt: Option<nat>, other: UserId)
    requires other != user
    ensures var r := Step(s, user, base, content, summary, reply, sendFailsAt);
      (other in r.state.conversations <==> other in s.conversations)
      && (other in s.conversations ==> r.state.conversations[other] == s.conversations[other])
  {
  }

  /**
   * Above the threshold, a user without history makes the serialisation loop
   * throw, and a failed summary completion throws too: nothing is stored,
   * nothing is sent and no reply completion is requested.
   */
  lemma StepRejected(s: State, user: UserId, base: string, content: string, summary: CompletionResult,
                     reply: CompletionResult, sendFailsAt: Option<nat>)
    requires s.lastTokens > SummaryThreshold
    requires user !in s.conversations || summary.CompletionFailed?
    ensures var r := Step(s, user, base, content, summary, reply, sendFailsAt);
      r.state == s && r.status == Rejected && r.sent == [] && r.completionRequest.None?
  {
  }

  /**
   * Above the threshold, the whole history is serialised into the summary
   * request, and the conversation is replaced by exactly a system turn holding
   * the base message and the summary, and the new user turn; with a reply the
   * conversation then has three turns, however long it was.
   */
  lemma StepSummarizes(s: State, user: UserId, base: string, content: string, summary: CompletionResult,
                       reply: CompletionResult, sendFailsAt: Option<nat>)
    requires s.lastTokens > SummaryThreshold && user in s.conversations && summary.Completed?
    ensures var r := Step(s, user, base, content, summary, reply, sendFailsAt);
      var reset := [Turn(System, base + SummaryHeader + summary.content), Turn(User, content)];
      && r.summaryPrompt == Some(SummaryRequest + Serialize(s.conversations[user]))
      && r.completionRequest == Some(reset)
      && user in r.state.conversations
      && r.state.conversations[user][..2] == reset
      && |r.state.conversations[user]| == (if reply.Completed? then 3 else 2)
  {
  }

  /** At or below the threshold, a first message starts the conversation with the base system turn. */
  lemma StepStartsConversation(s: State, user: UserId, base: string, content: string, summary: CompletionResult,
                               reply: CompletionResult, sendFailsAt: Option<nat>)
    requires s.lastTokens <= SummaryThreshold && user !in s.conversations
    ensures var r := Step(s, user, base, content, summary, reply, sendFailsAt);
      r.summaryPrompt.None? && r.completionRequest == Some([Turn(System, base), Turn(User, content)])
      && user in r.state.conversations && r.state.conversations[user][..2] == [Turn(System, base), Turn(User, content)]
  {
  }

  /** At or below the threshold, a later message appends one user turn and keeps every earlier turn. */
  lemma StepAppendsUserTurn(s: State, user: UserId, base: string, content: string, summary: CompletionResult,
                            reply: CompletionResult, sendFailsAt: Option<nat>)
    requires s.lastTokens <= SummaryThreshold && user in s.conversations
    ensures var r := Step(s, user, base, content, summary, reply, sendFailsAt);
      var old_ := s.conversations[user];
      r.summaryPrompt.None? && r.completionRequest == Some(old_ + [Turn(User, content)])
      && user in r.state.conversations && r.state.conversations[user][..|old_|] == old_
      && r.state.conversations[user][|old_|] == Turn(User, content)
  {
    var r := Step(s, user, base, content, summary, reply, sendFailsAt);
    var old_ := s.conversations[user];
    assert r.state.conversations[user][..|old_| + 1] == old_ + [Turn(User, content)];
  }

  /**
   * A successful completion commits exactly one assistant turn after the
   * requested history. If every chunk is sent, the reply goes out as its
   * chunks and `lastTokens` becomes the call's total; if a chunk fails, the
   * chunks before it and the apology go out and `lastTokens` is kept.
   */
  lemma StepCommitsReply(s: State, user: UserId, base: string, content: string, summary: CompletionResult,
                         reply: CompletionResult, sendFailsAt: Option<nat>)
    requires reply.Completed?
    ensures var r := Step(s, user, base, content, summary, reply, sendFailsAt);
      var chunks := FixedChunks(reply.content, ChunkSize);
      r.completionRequest.Some? ==>
        && user in r.state.conversations
        && r.state.conversations[user] == r.completionRequest.value + [Turn(Assistant, reply.content)]
        && (if sendFailsAt.Some? && sendFailsAt.value < |chunks| then
              r.status == SendError && r.state.lastTokens == s.lastTokens
              && r.sent == chunks[..sendFailsAt.value] + [Apology]
            else
              r.status == Replied && r.state.lastTokens == reply.totalTokens && r.sent == chunks
              && Concat(r.sent) == reply.content)
  {
    FixedChunksJoin(reply.content, ChunkSize);
  }

  /**
   * A reply of at most two strides (4000 characters) goes out exactly as the
   * source's own chunker would cut it.
   */
  lemma StepSendsAsWrittenWhenShort(s: State, user: UserId, base: string, content: string, summary: CompletionResult,
                                    reply: CompletionResult)
    requires reply.Completed? && |reply.content| <= 2 * ChunkSize
    ensures var r := Step(s, user, base, content, summary, reply, None);
      r.completionRequest.Some? ==> r.sent == AsWrittenChunks(reply.content, ChunkSize)
  {
    AsWrittenAgreesWhenShort(reply.content, ChunkSize);
  }

  /**
   * A failed completion keeps the new user turn, adds no assistant turn,
   * keeps `lastTokens` and sends the one fixed apology.
   */
  lemma StepCompletionFails(s: State, user: UserId, base: string, content: string, summary: CompletionResult,
                            sendFailsAt: Option<nat>)
    ensures var r := Step(s, user, base, content, summary, CompletionFailed, sendFailsAt);
      r.completionRequest.Some? ==>
        && r.status == CompletionError
        && user in r.state.conversations
        && r.state.conversations[user] == r.completionRequest.value
        && r.state.conversations[user][|r.state.conversations[user]| - 1] == Turn(User, content)
        && r.state.lastTokens == s.lastTokens
        && r.sent == [Apology]
  {
  }

  /** One message exchange that succeeds: the content sent, the reply text and its token total. */
  datatype Exchange = Exchange(content: string, answer: string, tokens: nat)

  /** The state after a run of successful exchanges of one user, each reply sent in full. */
  function Converse(s: State, user: UserId, base: string, xs: seq<Exchange>): State
    decreases |xs|
  {
    if xs == [] then s
    else
      var next := Step(s, user, base, xs[0].content, CompletionFailed, Completed(xs[0].answer, xs[0].tokens), None).state;
      Converse(next, user, base, xs[1..])
  }

  /** The turn count of a user's conversation, counting a missing one as its future system turn. */
  function TurnCount(s: State, user: UserId): nat {
    if user in s.conversations then |s.conversations[user]| else 1
  }

  /**
   * While `lastTokens` stays at or below the threshold, every successful
   * exchange adds exactly one user and one assistant turn: after N exchanges
   * a new conversation has 1 + 2N turns.
   */
  lemma {:induction false} ConverseGrowth(s: State, user: UserId, base: string, xs: seq<Exchange>)
    requires s.lastTokens <= SummaryThreshold
    requires forall i :: 0 <= i < |xs| ==> xs[i].tokens <= SummaryThreshold
    ensures TurnCount(Converse(s, user, base, xs), user) == TurnCount(s, user) + 2 * |xs|
    ensures xs != [] ==> user in Converse(s, user, base, xs).conversations
    decreases |xs|
  {
    if xs != [] {
      var next := Step(s, user, base, xs[0].content, CompletionFailed, Completed(xs[0].answer, xs[0].tokens), None).state;
      assert next.lastTokens == xs[0].tokens;
      assert user in next.conversations && TurnCount(next, user) == TurnCount(s, user) + 2;
      assert forall i :: 0 <= i < |xs[1..]| ==> xs[1..][i].tokens <= SummaryThreshold by {
        forall i | 0 <= i < |xs[1..]| ensures xs[1..][i] == xs[i + 1] { }
      }
      ConverseGrowth(next, user, base, xs[1..]);
      if xs[1..] == [] {
        assert Converse(s, user, base, xs) == next;
      }
    }
  }
}

# chatgpt-selfbot message handler, modelled in Dafny

The bot is a Discord self-bot that answers direct messages with a chat
completion. This project models its `messageCreate` handler in `index.js`
and proves properties of the model, as follows:

- **Input normalisation.** Links in the message text are scanned with
  `/(gm)?\bhttps?:\S+/g`. Each link is fetched. The first occurrence of a link
  whose response declares an allowed content type is replaced by the response
  body, and a `|SYSTEM|` notice is put in front.
- **Attachment folding.** Attachments are folded in as numbered `File #n`
  blocks. A transcribed voice message replaces the whole content.
- **The helpers it calls.** `getTextFromAudio` joins the top transcript
  alternatives. `summarizeImage` trims the annotation.
- **The conversation store.** `ongoingConversations` and `lastTokens` form a
  small state machine:
  - Above 3700 tokens the history is serialised and summarised, and the
    conversation restarts from a summary system turn.
  - Otherwise a conversation is created, or a user turn is appended.
  - A successful completion commits an assistant turn, sends the reply in
    2000-character chunks and records the token total.
  - A failure sends one fixed apology.
- **The reply chunker** `splitStringIntoChunks`, as written and as evidently
  intended.

The modules follow the program:

| Module | Covers |
|---|---|
| `Strings` | `replace`, `indexOf`, `join`, `split`, number rendering and `JSON.stringify` of strings |
| `Chat` | roles, turns and the completion outcome |
| `Chunker` | the reply chunker |
| `LinkScan` | the link regex |
| `ContentFetcher` | the content-type test and link embedding |
| `Media` | transcription and annotation trimming |
| `Attachments` | the attachment loop |
| `ConversationStore` | serialisation and the state transition `Step` of one handler run |
| `Handler` | the handler as a `Bot` object whose method updates its two fields in place |

Imperative code in the source — the loops over links, content types,
attachments, annotations, history lines, chunks and sends — is imperative
here too. Each such method is proved equal to a specification function, and
the lemmas are about those functions.

Results of outside calls are inputs to the model:

| Outside call | Modelled as |
|---|---|
| HTTP fetch | `FetchResult` |
| Speech recognition | `Option<seq<SpeechResult>>` |
| Vision annotation | `Option<AnnotateImageResponse>` |
| Chat completion | `CompletionResult` |
| Message send | the index of the first send that fails |

## Model

| member | source | states |
|---|---|---|
| Strings.IndexOfFrom | index.js:226 | the result is the first position at or after `from` where the pattern occurs, and None exactly when it occurs nowhere after `from` |
| Strings.ReplaceFirst | index.js:226 | `replace` with a string pattern changes nothing when the pattern does not occur; otherwise only its first occurrence is replaced by the `$`-expanded replacement |
| Strings.Substitute | index.js:226 | the replacement of `replace` with a string pattern: `$$` gives a dollar sign, `$&` the matched link, `` $` `` the text before it, `$'` the text after it, and `$1` stays literal because a string pattern has no groups |
| Strings.SubstituteLiteral | index.js:226 | a replacement without `$` is inserted literally |
| Strings.ConcatSnoc | index.js:260 | appending a block to the concatenation of earlier blocks is the concatenation with that block last |
| Strings.SplitJoin | index.js:141-143 | splitting a newline join gives back the pieces when none holds a newline |
| Strings.NatToString | index.js:260 | the rendered `fileCount` is a non-empty digit string without a leading zero (except 0 itself) |
| Strings.NatToStringValue | index.js:260 | reading the rendered digits back gives the number |
| Strings.JsonQuotePlain | index.js:260 | `JSON.stringify` of a string without quotes, backslashes or control characters is that string in double quotes |
| Chunker.Substring | index.js:181 | JavaScript `substring`: in-range ends give the slice, reversed ends are swapped, an end past the string stops at its end, two non-positive ends give the empty string, and the result is never longer than the string |
| Chunker.SplitIntoChunks | index.js:177-186 | the loop as written yields exactly the closed form `AsWrittenChunks`: ceil(n/c) chunks, chunk k being `substring(k*c, c*(k*c+1))` |
| Chunker.AsWrittenChunkCount | index.js:179 | there are ceil(n/c) chunks, none exactly for the empty string |
| Chunker.AsWrittenChunkSpan | index.js:180 | chunk k starts at k*c, inside the string, and ends at min(n, c*(k*c+1)) |
| Chunker.AsWrittenAgreesWhenShort | index.js:177-186 | up to 2c characters the source's chunks equal fixed-stride chunks |
| Chunker.AsWrittenJoinWhenShort | index.js:177-186 | up to 2c characters the chunks join back to the reply |
| Chunker.AsWrittenSingleChunk | index.js:177-186 | a non-empty reply of at most c characters is one chunk equal to it |
| Chunker.OverlapOnLongReply | index.js:180 | at 2c+1 characters, with c at least 2, the second chunk has c+1 characters and the chunks join to one character more than the reply |
| Chunker.SplitIntoFixedChunks | index.js:177-186 | the corrected loop, ending each chunk one stride after its start, yields `FixedChunks` |
| Chunker.FixedChunksJoin | index.js:177-186 | the corrected chunks join back to the reply exactly |
| Chunker.FixedChunksSizes | index.js:177-186 | every corrected chunk has 1 to c characters, and all but the last have exactly c |
| Chunker.FixedChunksCount | index.js:179 | there are as many corrected chunks as the source loop makes passes |
| LinkScan.RunEnd | index.js:205 | `\S+` stops at the first whitespace character or at the end of the text |
| LinkScan.MatchAt | index.js:205 | a successful attempt at p is a whole match: word boundary, `http:` or `https:` with at least one more character, no whitespace, and maximal |
| LinkScan.MatchAtComplete | index.js:205 | every whole match at p is the one the attempt finds, so the greedy match is unique |
| LinkScan.MatchesFrom | index.js:205-207 | the matches `matchAll` yields are whole matches, in order and non-overlapping |
| LinkScan.LinksAreUrls | index.js:205-209 | every link is the whitespace-free `http:`/`https:` text at its match position |
| LinkScan.NoMatchesIff | index.js:205-207 | the scan finds nothing exactly when no attempt at or after the start succeeds |
| LinkScan.NoHttpNoLinks | index.js:205-207 | a text without "http" has no links |
| ContentFetcher.ContentTypeHeader | index.js:216 | the lower-case header wins unless missing or empty; otherwise the capitalised one; none when both are absent |
| ContentFetcher.IsValidContentType | index.js:214-223 | valid exactly when the type starts with an allowed type |
| ContentFetcher.AllowListExamples | index.js:8-12 | parameters may follow an allowed type; other types, other capitalisations and the empty type are refused |
| ContentFetcher.EmbedOne | index.js:208-229 | a fetch that is not accepted leaves the content unchanged; an accepted one puts the link notice at the head of the content |
| ContentFetcher.EmbedAll | index.js:207-230 | no links leave the content unchanged; when the last link is accepted its notice heads the result |
| ContentFetcher.EmbedLink | index.js:208-229 | one loop pass yields `EmbedOne`: an accepted fetch rewrites the content, and a failed fetch, missing header or refused type leaves it unchanged |
| ContentFetcher.EmbedEach | index.js:207-230 | the loop over the links folds `EmbedOne` over the links and fetches in order |
| ContentFetcher.EmbedLinks | index.js:205-230 | the whole link stage is that fold over the links of the original text |
| ContentFetcher.EmbedAcceptedLink | index.js:225-226 | an accepted link, with a body free of `$`, gives the notice plus the content with its first occurrence of the link replaced by the body |
| ContentFetcher.EmbedAcceptedMissingLink | index.js:225-226 | an accepted link that no longer occurs only adds the notice |
| ContentFetcher.EmbedAllRejected | index.js:227-229 | links that are all refused or fail leave the text unchanged |
| Media.Transcription | index.js:141-143 | the transcript exists exactly when every result has an alternative; no results give the empty transcript |
| Media.TranscriptionSplits | index.js:141-143 | the transcript splits back into the top alternatives, in order |
| Media.TranscribeAudio | index.js:121-148 | a transcript exists exactly when staging and recognition succeed and every result has an alternative; no results give the empty transcript |
| Media.Trimmed | index.js:101-114 | fails exactly when a label or text list is missing; otherwise keeps every label and the first text detection (none for an empty list), each with only its geometry removed, and passes the property and web results through |
| Media.TrimAnnotation | index.js:101-114 | the delete loops and the collapse to one text detection yield `Trimmed` |
| Media.SummarizeImage | index.js:73-119 | the narration is requested exactly when the annotation call succeeds and both the label and the text lists are present; what it narrates is the trimmed annotation, without geometry; the summary exists exactly when the narration also succeeds, and it is the narration |
| Attachments.AttachmentText | index.js:234-262 | no attachments leave the content unchanged; without a transcribed voice message the result starts with the content and the attachment header |
| Attachments.FirstTranscribedVoice | index.js:239-252 | finds the first voice message whose transcription succeeds, and none when there is none |
| Attachments.FoldAttachment | index.js:244-260 | a transcribed voice message stops the loop with its transcript; anything else appends its block, with an undefined summary on failure |
| Attachments.AppendAttachments | index.js:232-262 | the loop with its counter, shared catch and break yields `AttachmentText` |
| Attachments.NoVoiceAppendsBlocks | index.js:234-261 | without a transcribed voice message the result is content, header, then block k+1 for attachment k, in order |
| Attachments.VoiceTranscriptReplacesAll | index.js:247-252 | the first transcribed voice message's transcript is the whole content, whatever came before |
| Attachments.FailedSummaryBlock | index.js:256-260 | a failed summary or transcription still yields its block, with `undefined` as the summary |
| ConversationStore.SerializeConversation | index.js:274-278 | the loop yields `Serialize`, one `role: content` line per turn |
| ConversationStore.SerializeAppend | index.js:274-278 | serialising a concatenation is concatenating the serialisations |
| ConversationStore.SerializeLines | index.js:274-278 | with newline-free contents the serialisation splits into the turns' lines, in order, plus an empty tail |
| ConversationStore.Respond | index.js:299-318 | the conversation is stored and is the completion request; a reply adds exactly one turn after it; `lastTokens` becomes the reply's total exactly when every corrected chunk is sent, and those chunks join to the reply; otherwise the apology is the last message sent and `lastTokens` is kept |
| ConversationStore.Step | index.js:266-318 | a run is rejected exactly when no completion is requested, and then changes and sends nothing; the summary is requested exactly above 3700 tokens with a history; the completion request ends with the new user turn and is what the user's stored conversation starts with |
| ConversationStore.StepPreservesValid | index.js:292-305 | every stored conversation keeps one leading system turn followed by a user turn |
| ConversationStore.StepOtherUsersUnchanged | index.js:292-297 | other users' conversations are neither created, removed nor changed |
| ConversationStore.StepRejected | index.js:269-290 | above 3700 tokens, a user without history or a failed summary ends the run with nothing stored, sent or requested |
| ConversationStore.StepSummarizes | index.js:269-294 | above 3700 tokens the summary request carries the serialised history, and the conversation restarts from the summary system turn and the new user turn (3 turns after a reply) |
| ConversationStore.StepStartsConversation | index.js:292-294 | a first message starts the conversation with the base system turn and the user turn |
| ConversationStore.StepAppendsUserTurn | index.js:295-297 | a later message appends one user turn and keeps every earlier turn |
| ConversationStore.StepCommitsReply | index.js:299-311 | a reply commits one assistant turn. With every chunk sent, the corrected fixed-stride chunks join to the reply and `lastTokens` is the new total; with a failed send, the chunks before it and the apology are sent and `lastTokens` is kept |
| ConversationStore.StepSendsAsWrittenWhenShort | index.js:307-309 | replies of up to 4000 characters are sent exactly as the source's chunker cuts them |
| ConversationStore.StepCompletionFails | index.js:314-317 | a failed completion keeps the user turn, adds no assistant turn, keeps `lastTokens` and sends only the apology |
| ConversationStore.ConverseGrowth | index.js:292-311 | below the threshold every successful exchange adds exactly two turns |
| Handler.NormalizedInput | index.js:203-262 | a message without attachments whose links are all refused or fail reaches the conversation verbatim |
| Handler.Answers | index.js:189 | the handler answers exactly direct messages whose author is not the bot's own account |
| Handler.Bot.constructor | index.js:169-175 | the bot starts with no conversations and `lastTokens` 0 |
| Handler.Bot.OnMessageCreate | index.js:188-320 | only direct messages from others are answered; the new state, sends and requests are those of `Step` on the normalised content, and the store stays well formed |
| Handler.Bot.HandleContent | index.js:266-318 | the in-place summary/create/append updates and the reply yield `Step`'s state |
| Handler.Bot.Reply | index.js:292-318 | the conversation is stored, then the `try` block yields `Respond`'s state and sends |
| Handler.SendChunks | index.js:307-317 | chunks go out in order until a send fails; the apology follows a failure; `delivered` says whether all went out |
| Handler.PlainMessagePassesThrough | index.js:203-234 | a message without "http" and without attachments reaches the conversation verbatim |
| Handler.VoiceMessageOverridesText | index.js:232-252 | a transcribed voice message replaces whatever the text and its links produced |
| Handler.FirstHello | index.js:188-318 | a first "hello" gives three turns, one sent message equal to a short reply, and the reply's token total |

## Left out

- Discord transport: the session, typing indicator, logging and login are left out. The channel kind and the author become fields of `Incoming`, and sends become a failure index.
- Network, filesystem and bucket I/O: `axios`, `downloadFile`, `uploadRemoteFileToBucket` and the temporary files are left out. Their outcomes arrive as inputs.
- Google services: the Speech and Vision clients are inputs. The request shapes (encoding, sample rate, feature list) are not modelled.
- OpenAI client: the request and response shapes, and the model name, are left out. `createChatCompletion` is one `CompletionResult`.
- `JSON.stringify` of arbitrary objects is left out: the user and client JSON, the attachment JSON, the response `data`, and the trimmed annotation sent in the image prompt. Each is an opaque string or is not rendered. Only strings are quoted, in `JsonQuote`.
- Base system message: its wording is a parameter `base`, because it embeds two JSON dumps of Discord objects.
- Unhandled rejections: a run that ends `Rejected` throws outside any `try`, inside an async event listener. Under Node's default behaviour that can end the whole process, and with it every stored conversation. The model instead continues from the unchanged state; the process-level effect is not modelled.
- Concurrency: overlapping handler runs on the shared map and `lastTokens`, and the un-awaited apology send, are left out. Each run is modelled as atomic.
- Strings are sequences of Unicode scalar values, not UTF-16 code units. Lengths, `substring` offsets and the 2000-character chunks count code points, so astral characters count once here and twice in the source.
- Chunker.SplitIntoChunks: requires a chunk size of at least 1, because a chunk size of 0 makes the source loop forever. The handler always passes 2000.
- ConversationStore.Respond: sends the corrected fixed-stride chunks, not the as-written ones (see Findings). For a reply over 4000 characters the source's chunks overlap and do not join to the reply. Chunker.AsWrittenAgreesWhenShort shows the two coincide for replies of up to 4000 characters.
- ConversationStore.Step: sends what ConversationStore.Respond sends, so the same corrected chunks.
- ConversationStore.StepCommitsReply: the join to the reply is proved for the corrected chunks; the source's own chunks of a reply over 4000 characters do not join to it (Chunker.OverlapOnLongReply).
- Handler.Bot.Reply: sends the corrected fixed-stride chunks, as ConversationStore.Respond does.
- Attachments.AppendAttachments: the loop variable `key` is an implicit global in the source. That leak is not modelled.
- Attachments.FirstTranscribedVoice: a failed transcription is caught by the shared `catch` at index.js:256-258. The model follows the code.
- ContentFetcher.EmbedLink: the body that `JSON.stringify(data) || data.toString()` renders is an input string. Any exception while rendering the body counts as a failed fetch.

## Findings

| source | as written | input that shows it | evidently intended | confidence | as-written member | corrected member |
|---|---|---|---|---|---|---|
| index.js:180 | each chunk ends at `chunkSize * (i + 1)`, where `i` is already a character offset, so for replies up to chunkSize·(chunkSize+1) characters every chunk from the second on runs to the end of the reply | a 4001-character reply with chunk size 2000: the second chunk is 2001 characters and the last character is sent twice | each chunk ends at `i + chunkSize` | not executed | Chunker.OverlapOnLongReply | Chunker.FixedChunksJoin |

/**
 * The attachment loop of the `messageCreate` handler. With at least one
 * attachment a `|SYSTEM|` header is appended, then each attachment in
 * iteration order adds a numbered `File #n` block holding its JSON
 * description and the JSON of its summary. A voice message that is
 * transcribed replaces the entire content by the transcript and ends the
 * loop; a failed transcription or image summary is caught by the shared
 * `catch`, and the block is still appended with an undefined summary.
 */
module Attachments {
  import opened Wrappers
  import opened Strings
  import opened Chat
  import opened Media

  /** An attachment: its file name, its URL and `JSON.stringify(attachment.toJSON())`. */
  datatype Attachment = Attachment(name: string, url: string, json: string)

  /** What the services answer for one attachment; only the part its kind asks for is used. */
  datatype MediaOracle = MediaOracle(
    recognized: Option<seq<SpeechResult>>,
    annotation: Option<AnnotateImageResponse>,
    narration: CompletionResult)

  const VoiceMessageName := "voice-message.ogg"

  const AttachmentHeader := "\n\n|SYSTEM|The user has attached files. Information about each of the files is listed below:\n\n"

  /** `JSON.stringify(annotation)` inside a template literal: `undefined` when there is no summary. */
  function SummaryJson(annotation: Option<string>): string {
    match annotation
    case None => "undefined"
    case Some(text) => JsonQuote(text)
  }

  const FileLabel := "File #"
  const DescriptionLead := ": Here is JSON data describing the file: "
  const SummaryLead := ". Here is a summary of the contents of the file: "

  /** The `File #n` block of one attachment. */
  function FileBlock(n: nat, a: Attachment, annotation: Option<string>): string {
    FileLabel + NatToString(n) + DescriptionLead + a.json + SummaryLead + SummaryJson(annotation) + "."
  }

  /** The attachment is a voice message and its transcription succeeds. */
  predicate TranscribedVoice(a: Attachment, o: MediaOracle) {
    a.name == VoiceMessageName && TranscribeAudio(o.recognized).Some?
  }

  /** The value of `annotation` when the block is written: only images set it. */
  function BlockSummary(a: Attachment, o: MediaOracle): Option<string> {
    if a.name == VoiceMessageName then None else SummarizeImage(o.annotation, o.narration).summary
  }

  /** The blocks of all attachments in iteration order: attachment k's block is `File #k+1`. */
  function BlockList(atts: seq<Attachment>, os: seq<MediaOracle>): seq<string>
    requires |atts| == |os|
  {
    seq(|atts|, k requires 0 <= k < |atts| => FileBlock(k + 1, atts[k], BlockSummary(atts[k], os[k])))
  }

  /** The first attachment that is a successfully transcribed voice message. */
  function FirstTranscribedVoice(atts: seq<Attachment>, os: seq<MediaOracle>, from: nat): (r: Option<nat>)
    requires |atts| == |os| && from <= |atts|
    decreases |atts| - from
    ensures r.Some? ==> from <= r.value < |atts| && TranscribedVoice(atts[r.value], os[r.value])
    ensures r.Some? ==> forall j :: from <= j < r.value ==> !TranscribedVoice(atts[j], os[j])
    ensures r.None? ==> forall j :: from <= j < |atts| ==> !TranscribedVoice(atts[j], os[j])
  {
    if from == |atts| then None
    else if TranscribedVoice(atts[from], os[from]) then Some(from)
    else FirstTranscribedVoice(atts, os, from + 1)
  }

  /**
   * The content after the attachment loop: unchanged without attachments,
   * the transcript of the first transcribed voice message if there is one,
   * and otherwise the header followed by one block per attachment.
   */
  function AttachmentText(content: string, atts: seq<Attachment>, os: seq<MediaOracle>): (r: string)
    requires |atts| == |os|
    ensures |atts| == 0 ==> r == content
    ensures |atts| > 0 && FirstTranscribedVoice(atts, os, 0).None? ==>
      var head := content + AttachmentHeader;
      |head| <= |r| && r[..|head|] == head
  {
    if |atts| == 0 then content
    else match FirstTranscribedVoice(atts, os, 0)
      case Some(i) => TranscribeAudio(os[i].recognized).value
      case None => content + AttachmentHeader + Concat(BlockList(atts, os))
  }

  /**
   * One pass of the attachment loop, the `try` block and the block append:
   * a transcribed voice message stops the loop with its transcript as the
   * content; otherwise the file's block is appended.
   */
  method FoldAttachment(content: string, fileCount: nat, attachment: Attachment, oracle: MediaOracle)
    returns (next: string, stop: bool)
    ensures stop <==> TranscribedVoice(attachment, oracle)
    ensures stop ==> next == TranscribeAudio(oracle.recognized).value
    ensures !stop ==> next == content + FileBlock(fileCount, attachment, BlockSummary(attachment, oracle))
  {
    var annotation: Option<string> := None;
    if attachment.name == VoiceMessageName {
      var transcription := TranscribeAudio(oracle.recognized);
      if transcription.Some? {
        return transcription.value, true;
      }
    } else {
      annotation := SummarizeImage(oracle.annotation, oracle.narration).summary;
    }
    next := content + FileBlock(fileCount, attachment, annotation);
    stop := false;
  }

  /** Appending block i to the text of the blocks before it gives the text of the blocks up to i. */
  lemma FoldStep(start: string, blocks: seq<string>, i: nat, before: string, after: string)
    requires i < |blocks| && before == start + Concat(blocks[..i]) && after == before + blocks[i]
    ensures after == start + Concat(blocks[..i + 1])
  {
    assert blocks[..i + 1] == blocks[..i] + [blocks[i]];
    ConcatSnoc(blocks[..i], blocks[i]);
    AppendAssoc(start, Concat(blocks[..i]), blocks[i]);
  }

  /** The attachment loop with its `fileCount`, shared `catch` and `break`. */
  method AppendAttachments(content: string, atts: seq<Attachment>, os: seq<MediaOracle>) returns (r: string)
    requires |os| == |atts|
    ensures r == AttachmentText(content, atts, os)
  {
    r := content;
    if |atts| > 0 {
      r := r + AttachmentHeader;
      ghost var start := r;
      ghost var blocks := BlockList(atts, os);
      var fileCount := 0;
      var i := 0;
      while i < |atts|
        invariant 0 <= i <= |atts| && fileCount == i
        invariant r == start + Concat(blocks[..i])
        invariant FirstTranscribedVoice(atts, os, 0) == FirstTranscribedVoice(atts, os, i)
      {
        fileCount := fileCount + 1;
        ghost var before := r;
        var stop;
        r, stop := FoldAttachment(r, fileCount, atts[i], os[i]);
        if stop {
          assert FirstTranscribedVoice(atts, os, i) == Some(i);
          break;
        }
        FoldStep(start, blocks, i, before, r);
        i := i + 1;
      }
      if i == |atts| {
        assert blocks[..i] == blocks;
      }
    }
  }

  /**
   * Without a transcribed voice message, the old content is kept, the header
   * is appended once, and every attachment contributes its numbered block in
   * iteration order, failed summaries included.
   */
  lemma NoVoiceAppendsBlocks(content: string, atts: seq<Attachment>, os: seq<MediaOracle>)
    requires |atts| == |os| && |atts| > 0
    requires forall j :: 0 <= j < |atts| ==> !TranscribedVoice(atts[j], os[j])
    ensures AttachmentText(content, atts, os) == content + AttachmentHeader + Concat(BlockList(atts, os))
    ensures forall k :: 0 <= k < |atts| ==>
      BlockList(atts, os)[k] == FileBlock(k + 1, atts[k], BlockSummary(atts[k], os[k]))
  {
  }

  /**
   * A transcribed voice message takes exclusive precedence: the content is
   * its transcript and nothing else, whatever came before or after it.
   */
  lemma VoiceTranscriptReplacesAll(content: string, atts: seq<Attachment>, os: seq<MediaOracle>, i: nat)
    requires |atts| == |os| && i < |atts|
    requires TranscribedVoice(atts[i], os[i])
    requires forall j :: 0 <= j < i ==> !TranscribedVoice(atts[j], os[j])
    ensures AttachmentText(content, atts, os) == TranscribeAudio(os[i].recognized).value
  {
    var f := FirstTranscribedVoice(atts, os, 0);
    assert f.Some? && f.value == i;
  }

  /** A failed summary or transcription still yields its block, with `undefined` as the summary. */
  lemma FailedSummaryBlock(a: Attachment, o: MediaOracle, n: nat)
    requires !TranscribedVoice(a, o) && (a.name == VoiceMessageName || SummarizeImage(o.annotation, o.narration).summary.None?)
    ensures FileBlock(n, a, BlockSummary(a, o)) == "File #" + NatToString(n) + ": Here is JSON data describing the file: "
      + a.json + ". Here is a summary of the contents of the file: undefined."
  {
  }
}

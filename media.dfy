/**
 * The two media adapters, with the foreign services' answers as inputs:
 * the transcript of `getTextFromAudio` (the top alternative of every speech
 * result, joined by newlines) and the annotation trimming of
 * `summarizeImage` (crop hints and full-page text dropped, geometry deleted
 * from every label and text detection, text detections collapsed to the
 * first), whose result is then narrated by one completion call.
 */
module Media {
  import opened Wrappers
  import opened Strings
  import opened Chat

  /** One speech recognition result: its alternatives, best first. */
  datatype SpeechResult = SpeechResult(alternatives: seq<string>)

  function TopAlternatives(results: seq<SpeechResult>): seq<string>
    requires forall i :: 0 <= i < |results| ==> |results[i].alternatives| > 0
  {
    seq(|results|, i requires 0 <= i < |results| => results[i].alternatives[0])
  }

  /**
   * `results.map(r => r.alternatives[0].transcript).join('\n')`: a result
   * without alternatives makes `.transcript` throw, and the call fails.
   */
  function Transcription(results: seq<SpeechResult>): (r: Option<string>)
    ensures r.Some? <==> forall i :: 0 <= i < |results| ==> |results[i].alternatives| > 0
    ensures results == [] ==> r == Some("")
  {
    if forall i :: 0 <= i < |results| ==> |results[i].alternatives| > 0 then Some(Join(TopAlternatives(results), '\n'))
    else None
  }

  /** When no transcript segment holds a newline, the joined transcript splits back into the segments, in order. */
  lemma TranscriptionSplits(results: seq<SpeechResult>)
    requires |results| >= 1
    requires forall i :: 0 <= i < |results| ==> |results[i].alternatives| > 0 && '\n' !in results[i].alternatives[0]
    ensures Transcription(results).Some?
    ensures Split(Transcription(results).value, '\n') == TopAlternatives(results)
  {
    SplitJoin(TopAlternatives(results), '\n');
  }

  /** The transcription step as a whole: staging and recognition failures are `None`. */
  function TranscribeAudio(recognized: Option<seq<SpeechResult>>): (r: Option<string>)
    ensures r.Some? <==> recognized.Some? && forall i :: 0 <= i < |recognized.value| ==> |recognized.value[i].alternatives| > 0
    ensures recognized == Some([]) ==> r == Some("")
  {
    match recognized
    case None => None
    case Some(results) => Transcription(results)
  }

  datatype Vertex = Vertex(x: int, y: int)

  /** One label or text detection of the vision service. */
  datatype EntityAnnotation = EntityAnnotation(
    mid: string, locale: string, description: string, score: real, boundingPoly: Option<seq<Vertex>>)

  /**
   * The fields of the vision response that the trimming touches; other
   * feature results travel through as opaque text.
   */
  datatype AnnotateImageResponse = AnnotateImageResponse(
    labelAnnotations: Option<seq<EntityAnnotation>>,
    textAnnotations: Option<seq<EntityAnnotation>>,
    imagePropertiesAnnotation: Option<string>,
    webDetection: Option<string>,
    cropHintsAnnotation: Option<string>,
    fullTextAnnotation: Option<string>)

  /** The object that is serialised into the image-summary prompt. */
  datatype ImageAnnotation = ImageAnnotation(
    labelAnnotations: seq<EntityAnnotation>,
    textAnnotation: Option<EntityAnnotation>,
    imagePropertiesAnnotation: Option<string>,
    webDetection: Option<string>)

  /** `delete label.boundingPoly`. */
  function StripGeometry(e: EntityAnnotation): EntityAnnotation {
    e.(boundingPoly := None)
  }

  /**
   * The trimmed annotation, or `None` when a `for .. of` over a missing
   * label or text list throws. An empty text list is kept as no text
   * detection (`[][0]` is undefined).
   */
  function Trimmed(response: AnnotateImageResponse): (r: Option<ImageAnnotation>)
    ensures r.None? <==> response.labelAnnotations.None? || response.textAnnotations.None?
    ensures r.Some? ==>
      && |r.value.labelAnnotations| == |response.labelAnnotations.value|
      && (forall i :: 0 <= i < |r.value.labelAnnotations| ==>
            r.value.labelAnnotations[i].boundingPoly.None?
            && r.value.labelAnnotations[i].(boundingPoly := response.labelAnnotations.value[i].boundingPoly)
               == response.labelAnnotations.value[i])
      && (r.value.textAnnotation.Some? <==> |response.textAnnotations.value| > 0)
      && (r.value.textAnnotation.Some? ==>
            r.value.textAnnotation.value.boundingPoly.None?
            && r.value.textAnnotation.value.(boundingPoly := response.textAnnotations.value[0].boundingPoly)
               == response.textAnnotations.value[0])
      && r.value.imagePropertiesAnnotation == response.imagePropertiesAnnotation
      && r.value.webDetection == response.webDetection
  {
    match (response.labelAnnotations, response.textAnnotations)
    case (Some(labels), Some(texts)) =>
      Some(ImageAnnotation(
        seq(|labels|, i requires 0 <= i < |labels| => StripGeometry(labels[i])),
        if |texts| > 0 then Some(StripGeometry(texts[0])) else None,
        response.imagePropertiesAnnotation,
        response.webDetection))
    case _ => None
  }

  /** The trimming as the source does it: delete loops over both lists, then the collapse to one text detection. */
  method TrimAnnotation(response: AnnotateImageResponse) returns (r: Option<ImageAnnotation>)
    ensures r == Trimmed(response)
  {
    if response.labelAnnotations.None? {
      return None;
    }
    var labels := response.labelAnnotations.value;
    var i := 0;
    while i < |labels|
      invariant 0 <= i <= |labels| == |response.labelAnnotations.value|
      invariant forall k :: 0 <= k < i ==> labels[k] == StripGeometry(response.labelAnnotations.value[k])
      invariant forall k :: i <= k < |labels| ==> labels[k] == response.labelAnnotations.value[k]
    {
      labels := labels[i := labels[i].(boundingPoly := None)];
      i := i + 1;
    }
    if response.textAnnotations.None? {
      return None;
    }
    var texts := response.textAnnotations.value;
    var j := 0;
    while j < |texts|
      invariant 0 <= j <= |texts| == |response.textAnnotations.value|
      invariant forall k :: 0 <= k < j ==> texts[k] == StripGeometry(response.textAnnotations.value[k])
      invariant forall k :: j <= k < |texts| ==> texts[k] == response.textAnnotations.value[k]
    {
      texts := texts[j := texts[j].(boundingPoly := None)];
      j := j + 1;
    }
    var text := if |texts| > 0 then Some(texts[0]) else None;
    ghost var all := response.labelAnnotations.value;
    assert labels == seq(|all|, k requires 0 <= k < |all| => StripGeometry(all[k]));
    r := Some(ImageAnnotation(labels, text, response.imagePropertiesAnnotation, response.webDetection));
  }

  /**
   * What `summarizeImage` does: the trimmed annotation it asks the
   * completion to narrate (`None` when no narration is requested), and the
   * resulting summary.
   */
  datatype ImageSummary = ImageSummary(subject: Option<ImageAnnotation>, summary: Option<string>)

  /**
   * `summarizeImage`: the annotation call (an input; `None` is a failed call),
   * the trimming, and one completion turning the trimmed annotation into
   * prose. The narration is requested exactly when the annotation call and
   * the trimming succeed, and then for the trimmed annotation, which carries
   * no geometry. The summary exists exactly when, in addition, the narration
   * succeeds, and it is the narration.
   */
  function SummarizeImage(annotation: Option<AnnotateImageResponse>, narration: CompletionResult): (r: ImageSummary)
    ensures r.subject.Some? <==>
      annotation.Some? && annotation.value.labelAnnotations.Some? && annotation.value.textAnnotations.Some?
    ensures r.subject.Some? ==> r.subject == Trimmed(annotation.value)
    ensures r.subject.Some? ==>
      && (forall i :: 0 <= i < |r.subject.value.labelAnnotations| ==> r.subject.value.labelAnnotations[i].boundingPoly.None?)
      && (r.subject.value.textAnnotation.Some? ==> r.subject.value.textAnnotation.value.boundingPoly.None?)
    ensures r.summary.Some? <==>
      annotation.Some? && annotation.value.labelAnnotations.Some? && annotation.value.textAnnotations.Some?
      && narration.Completed?
    ensures r.summary.Some? ==> r.summary.value == narration.content
  {
    var subject := if annotation.Some? then Trimmed(annotation.value) else None;
    ImageSummary(subject, if subject.Some? && narration.Completed? then Some(narration.content) else None)
  }
}

/**
 * The link loop of the `messageCreate` handler: each link found in the
 * original message text is fetched (the fetch is an input here), and when
 * the response declares an allowed content type the link's first
 * occurrence in the growing content is replaced by the serialised body and
 * a `|SYSTEM|` notice is put in front. A failed fetch, a missing
 * content-type header (its `startsWith` throws) or a disallowed type leaves
 * the content as it was.
 */
module ContentFetcher {
  import opened Wrappers
  import opened Strings
  import opened LinkScan

  const ValidContentTypes: seq<string> := ["application/json", "application/xml", "text/plain"]

  /**
   * The outcome of `axios.get(link)`: a failure (network error, or a body
   * `JSON.stringify(data) || data.toString()` cannot serialise), or the
   * response headers with that serialised body.
   */
  datatype FetchResult =
    | FetchFailed
    | Fetched(headers: map<string, string>, body: string)

  /** `headers["content-type"] || headers["Content-Type"]`: an empty string counts as absent. */
  function ContentTypeHeader(headers: map<string, string>): (r: Option<string>)
    ensures r.None? <==> ("content-type" !in headers || headers["content-type"] == "") && "Content-Type" !in headers
    ensures "content-type" in headers && headers["content-type"] != "" ==> r == Some(headers["content-type"])
    ensures ("content-type" !in headers || headers["content-type"] == "") && "Content-Type" in headers ==>
      r == Some(headers["Content-Type"])
  {
    if "content-type" in headers && headers["content-type"] != "" then Some(headers["content-type"])
    else if "Content-Type" in headers then Some(headers["Content-Type"])
    else None
  }

  /** The declared type starts with one of the allowed types (case-sensitive). */
  predicate Allowed(contentType: string) {
    exists t :: t in ValidContentTypes && IsPrefix(t, contentType)
  }

  /** The loop over the allow-list with its early `break`. */
  method IsValidContentType(contentType: string) returns (valid: bool)
    ensures valid <==> Allowed(contentType)
  {
    valid := false;
    var i := 0;
    while i < |ValidContentTypes|
      invariant 0 <= i <= |ValidContentTypes|
      invariant !valid
      invariant forall j :: 0 <= j < i ==> !IsPrefix(ValidContentTypes[j], contentType)
    {
      if IsPrefix(ValidContentTypes[i], contentType) {
        valid := true;
        break;
      }
      i := i + 1;
    }
  }

  /** The allow-list is a prefix match: parameters may follow, other types and other cases are refused. */
  lemma AllowListExamples()
    ensures Allowed("text/plain; charset=utf-8")
    ensures Allowed("application/json")
    ensures !Allowed("text/html; charset=utf-8")
    ensures !Allowed("Text/Plain")
    ensures !Allowed("")
  {
    assert IsPrefix(ValidContentTypes[2], "text/plain; charset=utf-8");
    assert IsPrefix(ValidContentTypes[0], "application/json");
    forall t | t in ValidContentTypes
      ensures !IsPrefix(t, "text/html; charset=utf-8") && !IsPrefix(t, "Text/Plain")
    {
      assert t[0] == 'a' || t[5] == 'p';
      assert "text/html; charset=utf-8"[5] == 'h';
    }
  }

  /** The fetch leads to the link being embedded. */
  predicate Accepts(fetch: FetchResult) {
    fetch.Fetched? && ContentTypeHeader(fetch.headers).Some? && Allowed(ContentTypeHeader(fetch.headers).value)
  }

  function EmbedPrefix(link: string): string {
    "|SYSTEM|The user has embedded a link (url=" + link + "). The content is as follows:\n\n"
  }

  /** What one pass of the link loop does to the content. */
  function EmbedOne(content: string, link: string, fetch: FetchResult): (r: string)
    ensures !Accepts(fetch) ==> r == content
    ensures Accepts(fetch) ==> |EmbedPrefix(link)| <= |r| && r[..|EmbedPrefix(link)|] == EmbedPrefix(link)
  {
    if Accepts(fetch) then EmbedPrefix(link) + ReplaceFirst(content, link, fetch.body) else content
  }

  /** The content after the loop has handled the first |links| links, in order. */
  function EmbedAll(content: string, links: seq<string>, fetches: seq<FetchResult>): (r: string)
    requires |links| == |fetches|
    ensures |links| == 0 ==> r == content
    ensures |links| > 0 && Accepts(fetches[|links| - 1]) ==>
      var notice := EmbedPrefix(links[|links| - 1]);
      |notice| <= |r| && r[..|notice|] == notice
  {
    if |links| == 0 then content
    else EmbedOne(EmbedAll(content, links[..|links| - 1], fetches[..|links| - 1]), links[|links| - 1], fetches[|links| - 1])
  }

  /** One pass of the link loop: the `try` block for one link and its fetch. */
  method EmbedLink(content: string, link: string, fetch: FetchResult) returns (r: string)
    ensures r == EmbedOne(content, link, fetch)
  {
    r := content;
    match fetch {
      case FetchFailed =>
      case Fetched(headers, body) =>
        var contentType := ContentTypeHeader(headers);
        if contentType.Some? {
          var valid := IsValidContentType(contentType.value);
          if valid {
            r := EmbedPrefix(link) + ReplaceFirst(content, link, body);
          }
        }
    }
  }

  /** The link loop over the given links and their fetches, in order. */
  method EmbedEach(text: string, links: seq<string>, fetches: seq<FetchResult>) returns (content: string)
    requires |fetches| == |links|
    ensures content == EmbedAll(text, links, fetches)
  {
    content := text;
    var i := 0;
    while i < |links|
      invariant 0 <= i <= |links|
      invariant content == EmbedAll(text, links[..i], fetches[..i])
    {
      ghost var before := content;
      content := EmbedLink(content, links[i], fetches[i]);
      assert links[..i + 1][..i] == links[..i] && fetches[..i + 1][..i] == fetches[..i];
      assert EmbedAll(text, links[..i + 1], fetches[..i + 1]) == EmbedOne(before, links[i], fetches[i]);
      i := i + 1;
    }
    assert links[..i] == links && fetches[..i] == fetches;
  }

  /** The link loop: one fetch per match of the original text, in order. */
  method EmbedLinks(text: string, fetches: seq<FetchResult>) returns (content: string)
    requires |fetches| == |Links(text)|
    ensures content == EmbedAll(text, Links(text), fetches)
  {
    content := EmbedEach(text, Links(text), fetches);
  }

  /**
   * An accepted link whose body holds no `$`: the new content is the notice,
   * then the old content with its first occurrence of the link replaced by the
   * body.
   */
  lemma EmbedAcceptedLink(content: string, link: string, fetch: FetchResult, p: nat)
    requires Accepts(fetch) && '$' !in fetch.body
    requires FirstOccurrence(content, link, p)
    ensures EmbedOne(content, link, fetch) == EmbedPrefix(link) + content[..p] + fetch.body + content[p + |link|..]
  {
    SubstituteLiteral(fetch.body, link, content[..p], content[p + |link|..]);
  }

  /** An accepted link that no longer occurs in the content only adds the notice. */
  lemma EmbedAcceptedMissingLink(content: string, link: string, fetch: FetchResult)
    requires Accepts(fetch)
    requires forall j :: !OccursAt(content, link, j)
    ensures EmbedOne(content, link, fetch) == EmbedPrefix(link) + content
  {
  }

  /** Links whose fetch fails or whose type is refused leave the text untouched. */
  lemma {:induction false} EmbedAllRejected(content: string, links: seq<string>, fetches: seq<FetchResult>)
    requires |links| == |fetches|
    ensures (forall i :: 0 <= i < |fetches| ==> !Accepts(fetches[i])) ==> EmbedAll(content, links, fetches) == content
  {
    if |links| > 0 {
      var n := |links| - 1;
      EmbedAllRejected(content, links[..n], fetches[..n]);
    }
  }
}

/** The web app's client for the chat API (packages/webapp/src/api.ts): which streamed responses
    `getCompletion` passes on, where it sends the request, and the URL of a cited document. */
module WebApi {
  import opened Wrappers
  import Text

  /** The `delta` of a streamed response, reduced to its text; a missing or empty `content` is
      the empty string. */
  datatype MessageDelta = MessageDelta(content: string)

  /** One response of the completion stream: its `delta`, when it has one, and the
      `context.sessionId` it carries (the empty string when it carries none). */
  datatype CompletionResponse = CompletionResponse(delta: Option<MessageDelta>, sessionId: string)

  /** `getCompletion`'s loop: responses without a `delta` are skipped, the others are passed on
      one for one, in order. */
  function GetCompletion(responses: seq<CompletionResponse>): (r: seq<CompletionResponse>)
    ensures |r| <= |responses|
    ensures forall k :: 0 <= k < |r| ==> r[k].delta.Some?
    ensures forall x :: x in r <==> x in responses && x.delta.Some?
  {
    if responses == [] then []
    else
      var rest := GetCompletion(responses[1..]);
      assert forall x :: x in responses <==> x == responses[0] || x in responses[1..];
      if responses[0].delta.Some? then [responses[0]] + rest else rest
  }

  /** The filter works piece by piece: what is passed on from a stream is what is passed on
      from its first part followed by what is passed on from the rest, so arrival order is kept. */
  lemma {:induction false} GetCompletionAppend(a: seq<CompletionResponse>, b: seq<CompletionResponse>)
    ensures GetCompletion(a + b) == GetCompletion(a) + GetCompletion(b)
  {
    if a == [] {
      assert a + b == b;
    } else {
      assert (a + b)[0] == a[0] && (a + b)[1..] == a[1..] + b;
      GetCompletionAppend(a[1..], b);
    }
  }

  /** A stream in which every response has a delta is passed on unchanged; in particular the
      filter is idempotent. */
  lemma {:induction false} GetCompletionKeepsDeltas(responses: seq<CompletionResponse>)
    requires forall k :: 0 <= k < |responses| ==> responses[k].delta.Some?
    ensures GetCompletion(responses) == responses
  {
    if responses != [] {
      GetCompletionKeepsDeltas(responses[1..]);
    }
  }

  lemma GetCompletionIdempotent(responses: seq<CompletionResponse>)
    ensures GetCompletion(GetCompletion(responses)) == GetCompletion(responses)
  {
    GetCompletionKeepsDeltas(GetCompletion(responses));
  }

  /** `options.apiUrl || apiBaseUrl`. */
  function ApiUrl(optionsApiUrl: string, apiBaseUrl: string): (url: string)
    ensures optionsApiUrl != "" ==> url == optionsApiUrl
    ensures optionsApiUrl == "" ==> url == apiBaseUrl
  {
    if optionsApiUrl != "" then optionsApiUrl else apiBaseUrl
  }

  /** The endpoint the protocol client posts to. */
  function ChatEndpoint(optionsApiUrl: string, apiBaseUrl: string): string
  {
    ApiUrl(optionsApiUrl, apiBaseUrl) + "/api/chat"
  }

  const DocumentsPath := "/api/documents/"

  /** `getCitationUrl`: the citation, unencoded, as the last part of the documents path. */
  function GetCitationUrl(apiBaseUrl: string, citation: string): (url: string)
    ensures |url| == |apiBaseUrl| + |DocumentsPath| + |citation|
    ensures url[..|apiBaseUrl|] == apiBaseUrl && url[|url| - |citation|..] == citation
  {
    apiBaseUrl + DocumentsPath + citation
  }

  /** The citation a documents URL names, read back from the URL. */
  function CitationFromUrl(apiBaseUrl: string, url: string): Option<string>
  {
    Text.StripPrefix(url, apiBaseUrl + DocumentsPath)
  }

  /** A citation URL names exactly its citation, so distinct citations get distinct URLs. */
  lemma CitationUrlRoundTrip(apiBaseUrl: string, citation: string)
    ensures CitationFromUrl(apiBaseUrl, GetCitationUrl(apiBaseUrl, citation)) == Some(citation)
  {
    Text.StripPrefixOf(apiBaseUrl + DocumentsPath, citation);
  }

  lemma CitationUrlInjective(apiBaseUrl: string, c1: string, c2: string)
    requires GetCitationUrl(apiBaseUrl, c1) == GetCitationUrl(apiBaseUrl, c2)
    ensures c1 == c2
  {
    CitationUrlRoundTrip(apiBaseUrl, c1);
    CitationUrlRoundTrip(apiBaseUrl, c2);
  }
}

/** The streaming chat endpoint `POST /api/chats/stream` (packages/api/src/functions/chats-post.ts):
    request validation, the session id, and `createJsonStream`, which turns the model's text
    chunks into newline-delimited JSON records tagged with the session. */
module ChatsPost {
  import opened Wrappers
  import Text
  import JsonText
  import Http
  import opened ChatProtocol

  const InvalidMessages := "Invalid or missing messages in the request body"
  const Unavailable := "Service temporarily unavailable. Please try again later."

  /** The part of an `AIChatCompletionRequest` body the handler reads: the messages (absent when
      the property is missing) and `context.sessionId` (absent when there is no context or no
      session id in it). */
  datatype ChatRequest = ChatRequest(messages: Option<seq<ChatMessage>>, sessionId: Option<string>)

  /** The request names messages and the last one has content. */
  predicate HasLastContent(messages: Option<seq<ChatMessage>>)
  {
    messages.Some? && |messages.value| > 0 && messages.value[|messages.value| - 1].content != ""
  }

  /** `context?.sessionId || uuidv4()`: the client's session id unless it is missing or empty, in
      which case a freshly generated one. */
  function SessionIdFor(requested: Option<string>, freshId: string): (sid: string)
    requires freshId != ""
    ensures sid != ""
    ensures requested.Some? && requested.value != "" ==> sid == requested.value
    ensures requested.None? || requested.value == "" ==> sid == freshId
  {
    if requested.Some? && requested.value != "" then requested.value else freshId
  }

  /** An `AIChatCompletionDelta` as the stream sends it: a delta with the chunk's text and a
      role, and a context carrying the session id. */
  datatype Delta = Delta(content: string, role: Role)
  datatype ResponseChunk = ResponseChunk(delta: Delta, sessionId: string)

  /** The record `createJsonStream` builds for one chunk. */
  function Record(chunk: string, sessionId: string): ResponseChunk
  {
    ResponseChunk(Delta(chunk, Assistant), sessionId)
  }

  const DeltaKey := "{\"delta\":{\"content\":"
  const RoleKey := ",\"role\":"
  const ContextKey := "},\"context\":{\"sessionId\":"
  const Closing := "}}"

  /** A role name is lower-case letters only. */
  lemma RoleNameLetters(role: Role)
    ensures forall i :: 0 <= i < |RoleName(role)| ==> 'a' <= RoleName(role)[i] <= 'z'
  {
    match role
    case User =>
    case Assistant =>
    case System =>
  }

  /** A role as `JSON.stringify` writes it: its name needs no escaping, so it is only quoted
      (`RoleJsonIsQuote`). */
  function RoleJson(role: Role): string
  {
    "\"" + RoleName(role) + "\""
  }

  lemma RoleJsonIsQuote(role: Role)
    ensures RoleJson(role) == JsonText.Quote(RoleName(role))
    ensures '\n' !in RoleJson(role)
  {
    RoleNameLetters(role);
    JsonText.EscapePlain(RoleName(role));
  }

  /** `JSON.stringify(responseChunk)`: the properties in the order the object literal creates
      them. */
  function Serialize(r: ResponseChunk): string
  {
    DeltaKey + (JsonText.Quote(r.delta.content) + (RoleKey + (RoleJson(r.delta.role)
      + (ContextKey + (JsonText.Quote(r.sessionId) + Closing)))))
  }

  function RoleFromName(name: string): (r: Option<Role>)
    ensures r.Some? ==> RoleName(r.value) == name
  {
    if name == "user" then Some(User)
    else if name == "assistant" then Some(Assistant)
    else if name == "system" then Some(System)
    else None
  }

  lemma RoleNameRoundTrip(role: Role)
    ensures RoleFromName(RoleName(role)) == Some(role)
  {
  }

  /** How a client reads one record back (properties in this order, no extra whitespace). */
  function Deserialize(line: string): Option<ResponseChunk>
  {
    var t1 :- Text.StripPrefix(line, DeltaKey);
    var c :- JsonText.ReadString(t1);
    var t2 :- Text.StripPrefix(c.1, RoleKey);
    var rn :- JsonText.ReadString(t2);
    var role :- RoleFromName(rn.0);
    var t3 :- Text.StripPrefix(rn.1, ContextKey);
    var s :- JsonText.ReadString(t3);
    if s.1 == Closing then Some(ResponseChunk(Delta(c.0, role), s.0)) else None
  }

  /** Every record reads back as itself. */
  lemma SerializeRoundTrip(r: ResponseChunk)
    ensures Deserialize(Serialize(r)) == Some(r)
  {
    var rest3 := JsonText.Quote(r.sessionId) + Closing;
    var rest2 := ContextKey + rest3;
    RoleJsonIsQuote(r.delta.role);
    var rest1 := RoleKey + (JsonText.Quote(RoleName(r.delta.role)) + rest2);
    Text.StripPrefixOf(DeltaKey, JsonText.Quote(r.delta.content) + rest1);
    JsonText.ReadQuote(r.delta.content, rest1);
    Text.StripPrefixOf(RoleKey, JsonText.Quote(RoleName(r.delta.role)) + rest2);
    JsonText.ReadQuote(RoleName(r.delta.role), rest2);
    RoleNameRoundTrip(r.delta.role);
    Text.StripPrefixOf(ContextKey, rest3);
    JsonText.ReadQuote(r.sessionId, Closing);
  }

  /** A serialized record is one line: it holds no line break. */
  lemma SerializeIsOneLine(r: ResponseChunk)
    ensures '\n' !in Serialize(r)
  {
    var content := JsonText.Quote(r.delta.content);
    var session := JsonText.Quote(r.sessionId);
    JsonText.QuoteHasNoNewline(r.delta.content);
    RoleJsonIsQuote(r.delta.role);
    JsonText.QuoteHasNoNewline(r.sessionId);
    assert '\n' !in Closing && '\n' !in ContextKey && '\n' !in RoleKey && '\n' !in DeltaKey;
    var rest3 := session + Closing;
    assert '\n' !in rest3;
    var rest2 := ContextKey + rest3;
    assert '\n' !in rest2;
    var rest1 := RoleJson(r.delta.role) + rest2;
    assert '\n' !in rest1;
    var rest0 := content + (RoleKey + rest1);
    assert '\n' !in rest0;
    assert Serialize(r) == DeltaKey + rest0;
  }

  /** The chunks `if (!chunk) continue` lets through: the non-empty ones, in order. */
  function NonEmpty(chunks: seq<string>): (r: seq<string>)
    ensures |r| <= |chunks|
    ensures forall k :: 0 <= k < |r| ==> r[k] != ""
    ensures forall c :: c in r ==> c in chunks
  {
    if chunks == [] then []
    else
      var init, last := chunks[..|chunks| - 1], chunks[|chunks| - 1];
      assert forall c :: c in init ==> c in chunks;
      NonEmpty(init) + (if last != "" then [last] else [])
  }

  /** The filter distributes over concatenation: every non-empty chunk is kept, once, in
      arrival order. */
  lemma {:induction false} NonEmptyAppend(a: seq<string>, b: seq<string>)
    ensures NonEmpty(a + b) == NonEmpty(a) + NonEmpty(b)
    decreases |b|
  {
    if b == [] {
      assert a + b == a;
    } else {
      var init, last := b[..|b| - 1], b[|b| - 1];
      assert (a + b)[..|a + b| - 1] == a + init;
      assert (a + b)[|a + b| - 1] == last;
      NonEmptyAppend(a, init);
    }
  }

  /** Chunks that are all non-empty pass unchanged. */
  lemma {:induction false} NonEmptyKeeps(chunks: seq<string>)
    requires forall k :: 0 <= k < |chunks| ==> chunks[k] != ""
    ensures NonEmpty(chunks) == chunks
  {
    if chunks != [] {
      var init := chunks[..|chunks| - 1];
      NonEmptyKeeps(init);
      assert chunks == init + [chunks[|chunks| - 1]];
    }
  }

  /** Dropping empty chunks does not change the text they spell. */
  lemma {:induction false} NonEmptyConcat(chunks: seq<string>)
    ensures Text.Concat(NonEmpty(chunks)) == Text.Concat(chunks)
  {
    if chunks != [] {
      var init, last := chunks[..|chunks| - 1], chunks[|chunks| - 1];
      NonEmptyConcat(init);
      assert chunks == init + [last];
      Text.ConcatAppend(init, [last]);
      Text.ConcatAppend(NonEmpty(init), if last != "" then [last] else []);
      assert Text.Concat([last]) == last;
    }
  }

  /** One stream line: the record's serialization and a line break. */
  function Line(chunk: string, sessionId: string): string
  {
    Serialize(Record(chunk, sessionId)) + "\n"
  }

  /** `createJsonStream`: one line per non-empty chunk, in arrival order. */
  method CreateJsonStream(chunks: seq<string>, sessionId: string) returns (lines: seq<string>)
    ensures |lines| == |NonEmpty(chunks)|
    ensures forall k :: 0 <= k < |lines| ==> lines[k] == Line(NonEmpty(chunks)[k], sessionId)
  {
    lines := [];
    var i := 0;
    while i < |chunks|
      invariant 0 <= i <= |chunks|
      invariant |lines| == |NonEmpty(chunks[..i])|
      invariant forall k :: 0 <= k < |lines| ==> lines[k] == Line(NonEmpty(chunks[..i])[k], sessionId)
    {
      assert chunks[..i + 1][..i] == chunks[..i];
      if chunks[i] != "" {
        lines := lines + [Line(chunks[i], sessionId)];
      }
      i := i + 1;
    }
    assert chunks[..i] == chunks;
  }

  /** How a client reads the response body: NDJSON lines, each one record. */
  function DecodeStream(body: string): Option<seq<ResponseChunk>>
  {
    var lines :- JsonText.NdjsonLines(body);
    JsonText.DecodeLines(lines, Deserialize)
  }

  /** The records of a list of chunks. */
  function Records(chunks: seq<string>, sessionId: string): (r: seq<ResponseChunk>)
    ensures |r| == |chunks|
    ensures forall k :: 0 <= k < |r| ==> r[k] == Record(chunks[k], sessionId)
  {
    if chunks == [] then [] else [Record(chunks[0], sessionId)] + Records(chunks[1..], sessionId)
  }

  /** The `delta.content` of each record, in order. */
  function Contents(records: seq<ResponseChunk>): (r: seq<string>)
    ensures |r| == |records|
    ensures forall k :: 0 <= k < |r| ==> r[k] == records[k].delta.content
  {
    if records == [] then [] else [records[0].delta.content] + Contents(records[1..])
  }

  lemma {:induction false} DecodeEachLine(chunks: seq<string>, sessionId: string, lines: seq<string>)
    requires |lines| == |chunks|
    requires forall k :: 0 <= k < |lines| ==> lines[k] == Serialize(Record(chunks[k], sessionId))
    ensures JsonText.DecodeLines(lines, Deserialize) == Some(Records(chunks, sessionId))
  {
    if chunks != [] {
      SerializeRoundTrip(Record(chunks[0], sessionId));
      DecodeEachLine(chunks[1..], sessionId, lines[1..]);
    }
  }

  /** What a client receives is exactly the records of the non-empty chunks, all tagged with the
      session and the assistant role, and their contents spell the whole answer. */
  lemma StreamRoundTrip(chunks: seq<string>, sessionId: string, lines: seq<string>)
    requires |lines| == |NonEmpty(chunks)|
    requires forall k :: 0 <= k < |lines| ==> lines[k] == Line(NonEmpty(chunks)[k], sessionId)
    ensures DecodeStream(Text.Concat(lines)) == Some(Records(NonEmpty(chunks), sessionId))
    ensures Text.Concat(Contents(Records(NonEmpty(chunks), sessionId))) == Text.Concat(chunks)
  {
    var kept := NonEmpty(chunks);
    var serialized := seq(|kept|, k requires 0 <= k < |kept| => Serialize(Record(kept[k], sessionId)));
    forall k | 0 <= k < |kept|
      ensures '\n' !in serialized[k]
    {
      SerializeIsOneLine(Record(kept[k], sessionId));
    }
    JsonText.NdjsonRoundTrip(serialized, lines);
    DecodeEachLine(kept, sessionId, serialized);
    NonEmptyConcat(chunks);
    assert Contents(Records(kept, sessionId)) == kept;
  }

  /** What `postChats` returns: a 400 for invalid messages, a 503 when anything it awaits throws
      (reading the body, the model, the retriever, the history store or the title generation),
      and otherwise the NDJSON stream. `answer` stands for all of that: given the question and
      the session id, nothing when something awaited before the reply throws, otherwise the
      chunks the chain yields and whether reading them throws. The stream is read only after the
      reply is returned, so such a late throw does not become a 503: `Readable.from` errors the
      body after the lines sent so far. */
  method PostChats(body: Option<ChatRequest>, freshId: string, answer: (string, string) -> Option<Iteration<string>>)
    returns (reply: Http.Reply)
    requires freshId != ""
    ensures body.None? ==> reply == Http.Respond(Http.ServiceUnavailable(Unavailable))
    ensures body.Some? && !HasLastContent(body.value.messages) ==>
      reply == Http.Respond(Http.BadRequest(InvalidMessages))
    ensures body.Some? && HasLastContent(body.value.messages) ==>
      var messages := body.value.messages.value;
      var sid := SessionIdFor(body.value.sessionId, freshId);
      match answer(messages[|messages| - 1].content, sid)
      case None => reply == Http.Respond(Http.ServiceUnavailable(Unavailable))
      case Some(chunks) =>
        && reply.Stream? && reply.headers == Http.NdjsonHeaders
        && reply.end == (if chunks.throws then Http.Failed else Http.Finished)
        && |reply.lines| == |NonEmpty(chunks.items)|
        && forall k :: 0 <= k < |reply.lines| ==> reply.lines[k] == Line(NonEmpty(chunks.items)[k], sid)
  {
    if body.None? {
      return Http.Respond(Http.ServiceUnavailable(Unavailable));
    }
    var request := body.value;
    if !HasLastContent(request.messages) {
      return Http.Respond(Http.BadRequest(InvalidMessages));
    }
    var sessionId := SessionIdFor(request.sessionId, freshId);
    var messages := request.messages.value;
    var question := messages[|messages| - 1].content;
    var chunks := answer(question, sessionId);
    if chunks.None? {
      return Http.Respond(Http.ServiceUnavailable(Unavailable));
    }
    var lines := CreateJsonStream(chunks.value.items, sessionId);
    reply := Http.Stream(Http.NdjsonHeaders, lines, if chunks.value.throws then Http.Failed else Http.Finished);
  }
}

/** The older chat endpoint `POST /api/chat` (packages/api/src/functions/chat-post.ts): it
    validates the first message and the stream flag, and `createStream` pushes one
    OpenAI-style record per answer chunk into a `Readable` buffer, then the end of the stream.
    The buffer is returned before it is filled, so a chain that throws while its chunks are being
    read leaves the reply a 200 stream that is never ended. */
module ChatPost {
  import opened Wrappers
  import Text
  import JsonText
  import Http
  import opened ChatProtocol
  import ChatsPost

  const StreamNotSupported := "Stream is not supported"

  /** The part of the request body the handler reads: the messages and the `stream` flag (a
      missing or falsy flag is `false`). */
  datatype ChatBody = ChatBody(messages: Option<seq<ChatMessage>>, stream: bool)

  /** The request names messages and the first one has content. */
  predicate HasFirstContent(messages: Option<seq<ChatMessage>>)
  {
    messages.Some? && |messages.value| > 0 && messages.value[0].content != ""
  }

  /** A chunk of the retrieval chain's stream; `answer` is absent in chunks that carry only the
      input or the retrieved context. */
  datatype AnswerChunk = AnswerChunk(answer: Option<string>)

  /** `{choices: [{index: 0, delta: {content: answer, role: 'assistant'}}]}`: the index is
      always 0, so the record is its content and its role. */
  datatype ChoiceChunk = ChoiceChunk(content: Option<string>, role: Role)

  function Choice(chunk: AnswerChunk): ChoiceChunk
  {
    ChoiceChunk(chunk.answer, Assistant)
  }

  const ChoicesKey := "{\"choices\":[{\"index\":0,\"delta\":{"
  const ContentKey := "\"content\":"
  const RoleKey := ",\"role\":"
  const RoleOnlyKey := "\"role\":"
  const Closing := "}}]}"

  /** The role and what closes the record. */
  function RoleTail(role: Role): string
  {
    ChatsPost.RoleJson(role) + Closing
  }

  /** `JSON.stringify(responseChunk)`: an undefined `content` is left out of the object. */
  function Serialize(c: ChoiceChunk): string
  {
    match c.content
    case Some(text) => ChoicesKey + (ContentKey + (JsonText.Quote(text) + (RoleKey + RoleTail(c.role))))
    case None => ChoicesKey + (RoleOnlyKey + RoleTail(c.role))
  }

  /** Reads the role and the end of the record. */
  function ReadRoleTail(t: string): Option<Role>
  {
    var rn :- JsonText.ReadString(t);
    var role :- ChatsPost.RoleFromName(rn.0);
    if rn.1 == Closing then Some(role) else None
  }

  /** How a client reads one record back (properties in this order, no extra whitespace). */
  function Deserialize(line: string): Option<ChoiceChunk>
  {
    var t1 :- Text.StripPrefix(line, ChoicesKey);
    match Text.StripPrefix(t1, ContentKey)
    case Some(t2) =>
      var c :- JsonText.ReadString(t2);
      var t3 :- Text.StripPrefix(c.1, RoleKey);
      var role :- ReadRoleTail(t3);
      Some(ChoiceChunk(Some(c.0), role))
    case None =>
      var t3 :- Text.StripPrefix(t1, RoleOnlyKey);
      var role :- ReadRoleTail(t3);
      Some(ChoiceChunk(None, role))
  }

  lemma RoleTailRoundTrip(role: Role)
    ensures ReadRoleTail(RoleTail(role)) == Some(role)
  {
    ChatsPost.RoleNameRoundTrip(role);
    ChatsPost.RoleJsonIsQuote(role);
    JsonText.ReadQuote(RoleName(role), Closing);
  }

  /** The record of a chunk with an answer reads back as itself. */
  lemma ContentRoundTrip(text: string, role: Role)
    ensures Deserialize(Serialize(ChoiceChunk(Some(text), role))) == Some(ChoiceChunk(Some(text), role))
  {
    var rest := RoleKey + RoleTail(role);
    Text.StripPrefixOf(ChoicesKey, ContentKey + (JsonText.Quote(text) + rest));
    Text.StripPrefixOf(ContentKey, JsonText.Quote(text) + rest);
    JsonText.ReadQuote(text, rest);
    Text.StripPrefixOf(RoleKey, RoleTail(role));
    RoleTailRoundTrip(role);
  }

  /** The record of a chunk without an answer reads back as itself: the content key is not
      mistaken for present. */
  lemma NoContentRoundTrip(role: Role)
    ensures Deserialize(Serialize(ChoiceChunk(None, role))) == Some(ChoiceChunk(None, role))
  {
    var t1 := RoleOnlyKey + RoleTail(role);
    Text.StripPrefixOf(ChoicesKey, t1);
    assert t1[..|ContentKey|] != ContentKey by {
      assert t1[1] == 'r' && ContentKey[1] == 'c';
    }
    Text.StripPrefixOf(RoleOnlyKey, RoleTail(role));
    RoleTailRoundTrip(role);
  }

  /** Every record reads back as itself, with or without content. */
  lemma SerializeRoundTrip(c: ChoiceChunk)
    ensures Deserialize(Serialize(c)) == Some(c)
  {
    if c.content.Some? {
      ContentRoundTrip(c.content.value, c.role);
    } else {
      NoContentRoundTrip(c.role);
    }
  }

  lemma SerializeIsOneLine(c: ChoiceChunk)
    ensures '\n' !in Serialize(c)
  {
    ChatsPost.RoleJsonIsQuote(c.role);
    assert '\n' !in Closing;
    assert '\n' !in ChoicesKey;
    if c.content.Some? {
      JsonText.QuoteHasNoNewline(c.content.value);
      assert '\n' !in ContentKey && '\n' !in RoleKey;
    } else {
      assert '\n' !in RoleOnlyKey;
    }
  }

  /** The string `createStream` pushes for one chunk. */
  function Line(chunk: AnswerChunk): string
  {
    Serialize(Choice(chunk)) + "\n"
  }

  /** A Node.js `Readable` in paused mode, as far as `createStream` uses it: the strings pushed
      so far, and whether the stream has been ended with `push(null)`. */
  class Readable {
    var pushed: seq<string>
    var ended: bool

    constructor ()
      ensures pushed == [] && !ended
    {
      pushed := [];
      ended := false;
    }

    /** `push(item)`, where `None` is `null`; pushing after the end is an error in Node.js, so
        callers do not. */
    method Push(item: Option<string>)
      requires !ended
      modifies this
      ensures item.Some? ==> pushed == old(pushed) + [item.value] && !ended
      ensures item.None? ==> pushed == old(pushed) && ended
    {
      if item.Some? {
        pushed := pushed + [item.value];
      } else {
        ended := true;
      }
    }
  }

  /** The lines of the chunks, in order. */
  function Lines(chunks: seq<AnswerChunk>): (r: seq<string>)
    ensures |r| == |chunks|
  {
    if chunks == [] then [] else Lines(chunks[..|chunks| - 1]) + [Line(chunks[|chunks| - 1])]
  }

  /** Adding a chunk adds its line at the end. */
  lemma LinesSnoc(chunks: seq<AnswerChunk>, i: nat)
    requires i < |chunks|
    ensures Lines(chunks[..i + 1]) == Lines(chunks[..i]) + [Line(chunks[i])]
  {
    assert chunks[..i + 1][..i] == chunks[..i];
  }

  /** One line per chunk: the line at each place is the chunk's record. */
  lemma {:induction false} LinesAt(chunks: seq<AnswerChunk>, k: nat)
    requires k < |chunks|
    ensures Lines(chunks)[k] == Line(chunks[k])
  {
    if k < |chunks| - 1 {
      var init := chunks[..|chunks| - 1];
      LinesAt(init, k);
      assert init[k] == chunks[k];
    }
  }

  /** `createStream`: a fresh buffer that receives one line per chunk the chain yields, none
      skipped, in arrival order. It is ended only when the iteration completes: a throw inside
      the unawaited `stream()` skips `push(null)`. */
  method CreateStream(chunks: Iteration<AnswerChunk>) returns (buffer: Readable)
    ensures fresh(buffer)
    ensures buffer.pushed == Lines(chunks.items)
    ensures buffer.ended <==> !chunks.throws
  {
    buffer := new Readable();
    var items := chunks.items;
    var i := 0;
    while i < |items|
      invariant 0 <= i <= |items|
      invariant buffer.pushed == Lines(items[..i]) && !buffer.ended
      modifies buffer
    {
      LinesSnoc(items, i);
      buffer.Push(Some(Line(items[i])));
      i := i + 1;
    }
    assert items[..i] == items;
    if !chunks.throws {
      buffer.Push(None);
    }
  }

  function Choices(chunks: seq<AnswerChunk>): (r: seq<ChoiceChunk>)
    ensures |r| == |chunks|
    ensures forall k :: 0 <= k < |r| ==> r[k] == Choice(chunks[k])
  {
    if chunks == [] then [] else [Choice(chunks[0])] + Choices(chunks[1..])
  }

  lemma {:induction false} DecodeEachLine(chunks: seq<AnswerChunk>, lines: seq<string>)
    requires |lines| == |chunks|
    requires forall k :: 0 <= k < |lines| ==> lines[k] == Serialize(Choice(chunks[k]))
    ensures JsonText.DecodeLines(lines, Deserialize) == Some(Choices(chunks))
  {
    if chunks != [] {
      SerializeRoundTrip(Choice(chunks[0]));
      DecodeEachLine(chunks[1..], lines[1..]);
    }
  }

  /** A client reading the body as NDJSON gets one record per chunk, each with index 0, the
      assistant role and the chunk's answer (or no content where the answer was absent). */
  lemma StreamRoundTrip(chunks: seq<AnswerChunk>)
    ensures var decoded := JsonText.NdjsonLines(Text.Concat(Lines(chunks)));
            decoded.Some? && JsonText.DecodeLines(decoded.value, Deserialize) == Some(Choices(chunks))
  {
    var lines := Lines(chunks);
    var serialized := seq(|chunks|, k requires 0 <= k < |chunks| => Serialize(Choice(chunks[k])));
    forall k | 0 <= k < |chunks|
      ensures '\n' !in serialized[k] && lines[k] == serialized[k] + "\n"
    {
      SerializeIsOneLine(Choice(chunks[k]));
      LinesAt(chunks, k);
    }
    JsonText.NdjsonRoundTrip(serialized, lines);
    DecodeEachLine(chunks, serialized);
  }

  /** What `chat` returns: a 400 for invalid messages, then a 400 when streaming was not asked
      for, a 503 when anything it awaits before returning throws, and otherwise the stream of
      records. `chain` stands for the retrieval chain: given the question, nothing when starting
      its stream throws, otherwise the chunks it yields and whether reading them throws. Such a
      late throw cannot reach the handler's `catch`: the reply is the 200 stream of the lines
      pushed so far, left open. */
  method Chat(body: Option<ChatBody>, chain: string -> Option<Iteration<AnswerChunk>>) returns (reply: Http.Reply)
    ensures body.None? ==> reply == Http.Respond(Http.ServiceUnavailable(ChatsPost.Unavailable))
    ensures body.Some? && !HasFirstContent(body.value.messages) ==>
      reply == Http.Respond(Http.BadRequest(ChatsPost.InvalidMessages))
    ensures body.Some? && HasFirstContent(body.value.messages) && !body.value.stream ==>
      reply == Http.Respond(Http.BadRequest(StreamNotSupported))
    ensures body.Some? && HasFirstContent(body.value.messages) && body.value.stream ==>
      match chain(body.value.messages.value[0].content)
      case None => reply == Http.Respond(Http.ServiceUnavailable(ChatsPost.Unavailable))
      case Some(chunks) =>
        reply == Http.Stream(Http.NdjsonHeaders, Lines(chunks.items),
                             if chunks.throws then Http.Open else Http.Finished)
  {
    if body.None? {
      return Http.Respond(Http.ServiceUnavailable(ChatsPost.Unavailable));
    }
    var request := body.value;
    if !HasFirstContent(request.messages) {
      return Http.Respond(Http.BadRequest(ChatsPost.InvalidMessages));
    }
    if !request.stream {
      return Http.Respond(Http.BadRequest(StreamNotSupported));
    }
    var chunks := chain(request.messages.value[0].content);
    if chunks.None? {
      return Http.Respond(Http.ServiceUnavailable(ChatsPost.Unavailable));
    }
    var buffer := CreateStream(chunks.value);
    reply := Http.Stream(Http.NdjsonHeaders, buffer.pushed, if buffer.ended then Http.Finished else Http.Open);
  }
}

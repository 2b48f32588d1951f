/** The state of the chat web component (packages/webapp/src/components/chat.ts): the thread of
    messages, the session it belongs to, and the flags the component shows while an answer
    streams in. */
module Chat {
  import opened Wrappers
  import Text
  import opened ChatProtocol
  import WebApi

  /** The text a response adds to the answer (the empty string adds nothing). */
  function Content(r: WebApi.CompletionResponse): string
  {
    if r.delta.Some? then r.delta.value.content else ""
  }

  /** The answer accumulated from the responses, in arrival order. */
  function AnswerText(responses: seq<WebApi.CompletionResponse>): string
  {
    if responses == [] then ""
    else AnswerText(responses[..|responses| - 1]) + Content(responses[|responses| - 1])
  }

  /** Some response carried text. */
  predicate HasContent(responses: seq<WebApi.CompletionResponse>)
  {
    exists k :: 0 <= k < |responses| && Content(responses[k]) != ""
  }

  /** The session id after the responses: the current one when set, otherwise the first one a
      response carries, otherwise still none. */
  function AdoptSessionId(current: string, responses: seq<WebApi.CompletionResponse>): string
  {
    if responses == [] then current
    else
      var before := AdoptSessionId(current, responses[..|responses| - 1]);
      var offered := responses[|responses| - 1].sessionId;
      if before == "" && offered != "" then offered else before
  }

  /** The first session id a response carries, or the empty string. */
  function FirstSessionId(responses: seq<WebApi.CompletionResponse>): (sid: string)
    ensures sid == "" <==> forall k :: 0 <= k < |responses| ==> responses[k].sessionId == ""
    ensures sid != "" ==> exists k :: 0 <= k < |responses| && responses[k].sessionId == sid
  {
    if responses == [] then ""
    else if responses[0].sessionId != "" then responses[0].sessionId
    else
      var sid := FirstSessionId(responses[1..]);
      assert forall k :: 1 <= k < |responses| ==> responses[k] == responses[1..][k - 1];
      sid
  }

  /** A session id, once set, is never overwritten. */
  lemma {:induction false} SessionIdKept(current: string, responses: seq<WebApi.CompletionResponse>)
    requires current != ""
    ensures AdoptSessionId(current, responses) == current
  {
    if responses != [] {
      SessionIdKept(current, responses[..|responses| - 1]);
    }
  }

  /** Without a session id, the component adopts the first one the stream carries. */
  lemma {:induction false} SessionIdAdopted(responses: seq<WebApi.CompletionResponse>)
    ensures AdoptSessionId("", responses) == FirstSessionId(responses)
  {
    if responses != [] {
      var init, last := responses[..|responses| - 1], responses[|responses| - 1];
      SessionIdAdopted(init);
      FirstSessionIdSnoc(init, last);
      assert responses == init + [last];
    }
  }

  lemma {:induction false} FirstSessionIdSnoc(init: seq<WebApi.CompletionResponse>, last: WebApi.CompletionResponse)
    ensures var all := init + [last];
            FirstSessionId(all) == if FirstSessionId(init) != "" then FirstSessionId(init) else last.sessionId
  {
    var all := init + [last];
    if init == [] {
      assert all == [last];
      assert all[1..] == [];
    } else {
      assert all[0] == init[0] && all[1..] == init[1..] + [last];
      FirstSessionIdSnoc(init[1..], last);
    }
  }

  /** The accumulated answer is the responses' texts concatenated in order. */
  lemma {:induction false} AnswerTextConcat(responses: seq<WebApi.CompletionResponse>)
    ensures AnswerText(responses) == Text.Concat(seq(|responses|, k requires 0 <= k < |responses| => Content(responses[k])))
  {
    if responses != [] {
      var init := responses[..|responses| - 1];
      var last := responses[|responses| - 1];
      AnswerTextConcat(init);
      var texts := seq(|responses|, k requires 0 <= k < |responses| => Content(responses[k]));
      var initTexts := seq(|init|, k requires 0 <= k < |init| => Content(init[k]));
      assert texts == initTexts + [Content(last)];
      Text.ConcatAppend(initTexts, [Content(last)]);
      assert Text.Concat([Content(last)]) == Content(last) + "";
    }
  }

  /** The answer has text exactly when some response carried text, so an assistant message
      is shown exactly when there is something to show. */
  lemma {:induction false} AnswerTextNonEmpty(responses: seq<WebApi.CompletionResponse>)
    ensures AnswerText(responses) != "" <==> HasContent(responses)
  {
    if responses != [] {
      var init := responses[..|responses| - 1];
      var last := responses[|responses| - 1];
      AnswerTextNonEmpty(init);
      HasContentSnoc(init, last);
      assert responses == init + [last];
    }
  }

  lemma HasContentSnoc(init: seq<WebApi.CompletionResponse>, last: WebApi.CompletionResponse)
    ensures HasContent(init + [last]) <==> HasContent(init) || Content(last) != ""
  {
    var all := init + [last];
    assert forall k :: 0 <= k < |init| ==> all[k] == init[k];
    assert all[|init|] == last;
  }

  /** One more response: its text extends the answer, and it may offer the session id. */
  lemma ReceiveStep(current: string, received: seq<WebApi.CompletionResponse>, chunk: WebApi.CompletionResponse)
    ensures AnswerText(received + [chunk]) == AnswerText(received) + Content(chunk)
    ensures AdoptSessionId(current, received + [chunk]) ==
      var before := AdoptSessionId(current, received);
      if before == "" && chunk.sessionId != "" then chunk.sessionId else before
  {
    var all := received + [chunk];
    assert all[..|all| - 1] == received && all[|all| - 1] == chunk;
  }

  /** The thread after a stream: the thread as sent, plus one assistant message holding the
      whole answer when the answer has text (by `AnswerTextNonEmpty`, when some response
      carried text). */
  function ThreadAfter(sent: seq<ChatMessage>, responses: seq<WebApi.CompletionResponse>): seq<ChatMessage>
  {
    Shown(sent, AnswerText(responses))
  }

  /** The thread as shown while the answer so far is `answer`. */
  function Shown(sent: seq<ChatMessage>, answer: string): seq<ChatMessage>
  {
    if answer != "" then sent + [ChatMessage(answer, Assistant, None)] else sent
  }

  /** The thread that is sent: the current one, plus the question unless this is a retry. */
  function ThreadSent(messages: seq<ChatMessage>, question: string, isRetry: bool): seq<ChatMessage>
  {
    if isRetry then messages else messages + [ChatMessage(question, User, None)]
  }

  class ChatComponent {
    var question: string
    var messages: seq<ChatMessage>
    var userId: string
    var sessionId: string
    var hasError: bool
    var isLoading: bool
    var isStreaming: bool

    constructor ()
      ensures question == "" && messages == [] && userId == "" && sessionId == ""
      ensures !hasError && !isLoading && !isStreaming
    {
      question := "";
      messages := [];
      userId := "";
      sessionId := "";
      hasError := false;
      isLoading := false;
      isStreaming := false;
    }

    /** `onNewChatClicked`: an empty thread outside any session. */
    method OnNewChatClicked()
      modifies this
      ensures messages == [] && sessionId == ""
      ensures question == old(question) && userId == old(userId)
      ensures hasError == old(hasError) && isLoading == old(isLoading) && isStreaming == old(isStreaming)
    {
      messages := [];
      sessionId := "";
    }

    /** The part of `onSendClicked` before the request: the error is cleared, the question moves
        into the thread unless this is a retry, and the component is loading. */
    method StartSend(isRetry: bool)
      requires !isLoading
      modifies this
      ensures messages == ThreadSent(old(messages), old(question), isRetry)
      ensures !hasError && question == "" && isLoading
      ensures isStreaming == old(isStreaming) && sessionId == old(sessionId) && userId == old(userId)
    {
      hasError := false;
      if !isRetry {
        messages := messages + [ChatMessage(question, User, None)];
      }
      question := "";
      isLoading := true;
    }

    /** The `for await` loop over the responses `getCompletion` passes on: the first response
        with text starts the assistant message and every later one extends it, and the session
        id is adopted once. */
    method Receive(responses: seq<WebApi.CompletionResponse>)
      modifies this
      ensures messages == ThreadAfter(old(messages), responses)
      ensures sessionId == AdoptSessionId(old(sessionId), responses)
      ensures isStreaming == (old(isStreaming) || AnswerText(responses) != "")
      ensures question == old(question) && userId == old(userId)
      ensures hasError == old(hasError) && isLoading == old(isLoading)
    {
      var sent := messages;
      var answer := "";
      var i := 0;
      while i < |responses|
        invariant 0 <= i <= |responses|
        invariant answer == AnswerText(responses[..i])
        invariant messages == Shown(sent, answer)
        invariant sessionId == AdoptSessionId(old(sessionId), responses[..i])
        invariant isStreaming == (old(isStreaming) || answer != "")
        invariant question == old(question) && userId == old(userId)
        invariant hasError == old(hasError) && isLoading == old(isLoading)
      {
        assert responses[..i + 1] == responses[..i] + [responses[i]];
        ReceiveStep(old(sessionId), responses[..i], responses[i]);
        answer := Absorb(sent, answer, responses[i]);
        i := i + 1;
      }
      assert responses[..i] == responses;
    }

    /** The body of the loop for one response: its text, when it has some, marks the component
        as streaming and extends the assistant message, and its session id is adopted when the
        component has none. */
    method Absorb(sent: seq<ChatMessage>, answer: string, chunk: WebApi.CompletionResponse) returns (extended: string)
      requires messages == Shown(sent, answer)
      modifies this
      ensures extended == answer + Content(chunk)
      ensures messages == Shown(sent, extended)
      ensures sessionId == if old(sessionId) == "" && chunk.sessionId != "" then chunk.sessionId else old(sessionId)
      ensures isStreaming == (old(isStreaming) || Content(chunk) != "")
      ensures question == old(question) && userId == old(userId)
      ensures hasError == old(hasError) && isLoading == old(isLoading)
    {
      extended := answer;
      if Content(chunk) != "" {
        isStreaming := true;
        extended := answer + Content(chunk);
        messages := sent + [ChatMessage(extended, Assistant, None)];
      } else {
        assert answer + Content(chunk) == answer;
      }
      if sessionId == "" && chunk.sessionId != "" {
        sessionId := chunk.sessionId;
      }
    }

    /** `onSendClicked`: nothing happens while an answer is loading. Otherwise the thread is
        sent, the answer streams in, and afterwards nothing is loading or streaming; `hasError`
        tells whether the stream failed, in which case the thread keeps the part of the answer
        received before the failure. `server` stands for the API behind `getCompletion`: given
        the thread, the responses it streams back and whether the stream then fails (a failure
        before any response is an empty stream that fails). The user and session ids the
        component puts in the request's `context` are not passed on by `getCompletion`, which
        sends the messages alone, so `server` does not receive them. */
    method OnSendClicked(isRetry: bool, server: seq<ChatMessage> -> Iteration<WebApi.CompletionResponse>)
      modifies this
      ensures old(isLoading) ==>
        && messages == old(messages) && question == old(question)
        && sessionId == old(sessionId) && userId == old(userId)
        && hasError == old(hasError) && isLoading && isStreaming == old(isStreaming)
      ensures !old(isLoading) ==>
        var sent := ThreadSent(old(messages), old(question), isRetry);
        var reply := server(sent);
        var passed := WebApi.GetCompletion(reply.items);
        && messages == ThreadAfter(sent, passed)
        && sessionId == AdoptSessionId(old(sessionId), passed)
        && question == "" && userId == old(userId)
        && hasError == reply.throws && !isLoading && !isStreaming
    {
      if isLoading {
        return;
      }
      StartSend(isRetry);
      var reply := server(messages);
      Receive(WebApi.GetCompletion(reply.items));
      hasError := reply.throws;
      isLoading := false;
      isStreaming := false;
    }
  }
}

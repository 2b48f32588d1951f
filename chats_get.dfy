/** `GET /api/chats/{sessionId?}` (packages/api/src/functions/chats-get.ts): the messages of one
    of the user's sessions, or the list of the user's sessions. */
module ChatsGet {
  import opened Wrappers
  import Http
  import opened ChatProtocol
  import ChatsPost

  const InvalidUserId := "Invalid or missing userId in the request"
  const SessionNotFound := "Session not found"

  /** A message of the stored history: its LangChain type (`getType()`) and its content. */
  datatype StoredMessage = StoredMessage(messageType: string, content: string)

  /** A stored session: its id and the `title` of its context, when it has one. */
  datatype StoredSession = StoredSession(id: string, title: Option<string>)

  /** The role a stored message is shown with: `human` is the user, any other type the assistant. */
  function RoleFor(messageType: string): (role: Role)
    ensures role == User <==> messageType == "human"
    ensures role != System
  {
    if messageType == "human" then User else Assistant
  }

  /** `{role, content}` for one stored message. */
  function MessageJson(m: StoredMessage): Http.Json
  {
    Http.Obj(map["role" := Http.Str(RoleName(RoleFor(m.messageType))), "content" := Http.Str(m.content)])
  }

  /** `messages.map(...)`: one item per stored message, in order. */
  function MessageItems(messages: seq<StoredMessage>): (items: seq<Http.Json>)
    ensures |items| == |messages|
    ensures forall k :: 0 <= k < |items| ==> items[k] == MessageJson(messages[k])
  {
    if messages == [] then [] else [MessageJson(messages[0])] + MessageItems(messages[1..])
  }

  /** `{id, title: session.context?.title}`; a missing title is an undefined property. */
  function SessionJson(s: StoredSession): Http.Json
  {
    Http.Obj(map["id" := Http.Str(s.id), "title" := if s.title.Some? then Http.Str(s.title.value) else Http.Undefined])
  }

  /** `sessions.map(...)`: one item per stored session, in order. */
  function SessionItems(sessions: seq<StoredSession>): (items: seq<Http.Json>)
    ensures |items| == |sessions|
    ensures forall k :: 0 <= k < |items| ==> items[k] == SessionJson(sessions[k])
  {
    if sessions == [] then [] else [SessionJson(sessions[0])] + SessionItems(sessions[1..])
  }

  /** `getChats`: a 400 without a user id, before the history is touched; with a session id the
      session's messages, otherwise the user's sessions; a 404 when reading the history throws.
      `messagesOf` and `sessionsOf` stand for the history store, given the user id and the session
      id: they yield nothing when they throw. An empty id is a missing one. */
  function GetChats(userId: string, sessionId: string,
                    messagesOf: (string, string) -> Option<seq<StoredMessage>>,
                    sessionsOf: (string, string) -> Option<seq<StoredSession>>): (r: Http.HttpResponse)
    ensures userId == "" ==> r == Http.BadRequest(InvalidUserId)
    ensures userId != "" && sessionId != "" ==>
      match messagesOf(userId, sessionId)
      case None => r == Http.NotFound(SessionNotFound)
      case Some(messages) => r == Http.Ok(Http.Arr(MessageItems(messages))) && r.status == 200
    ensures userId != "" && sessionId == "" ==>
      match sessionsOf(userId, sessionId)
      case None => r == Http.NotFound(SessionNotFound)
      case Some(sessions) => r == Http.Ok(Http.Arr(SessionItems(sessions))) && r.status == 200
  {
    if userId == "" then Http.BadRequest(InvalidUserId)
    else if sessionId != "" then
      match messagesOf(userId, sessionId)
      case None => Http.NotFound(SessionNotFound)
      case Some(messages) => Http.Ok(Http.Arr(MessageItems(messages)))
    else
      match sessionsOf(userId, sessionId)
      case None => Http.NotFound(SessionNotFound)
      case Some(sessions) => Http.Ok(Http.Arr(SessionItems(sessions)))
  }

  /** How the web app reads a message item back into its thread. */
  function ReadMessage(item: Http.Json): Option<ChatMessage>
  {
    if item.Obj? && "role" in item.fields && "content" in item.fields
       && item.fields["role"].Str? && item.fields["content"].Str?
    then
      var role :- ChatsPost.RoleFromName(item.fields["role"].s);
      Some(ChatMessage(item.fields["content"].s, role, None))
    else None
  }

  function ReadMessages(items: seq<Http.Json>): (r: Option<seq<ChatMessage>>)
    ensures r.Some? ==> |r.value| == |items|
  {
    if items == [] then Some([])
    else
      var first :- ReadMessage(items[0]);
      var rest :- ReadMessages(items[1..]);
      Some([first] + rest)
  }

  /** The thread a stored history is shown as: its contents in order, human messages as the
      user's and every other message as the assistant's. */
  function Thread(messages: seq<StoredMessage>): (r: seq<ChatMessage>)
    ensures |r| == |messages|
    ensures forall k :: 0 <= k < |r| ==>
      && r[k].content == messages[k].content
      && (r[k].role == User <==> messages[k].messageType == "human")
      && (r[k].role == Assistant <==> messages[k].messageType != "human")
  {
    if messages == [] then []
    else [ChatMessage(messages[0].content, RoleFor(messages[0].messageType), None)] + Thread(messages[1..])
  }

  /** A client reading the body of a session's reply gets back exactly the stored thread. */
  lemma {:induction false} MessageItemsReadBack(messages: seq<StoredMessage>)
    ensures ReadMessages(MessageItems(messages)) == Some(Thread(messages))
  {
    if messages != [] {
      ChatsPost.RoleNameRoundTrip(RoleFor(messages[0].messageType));
      MessageItemsReadBack(messages[1..]);
      assert MessageItems(messages)[1..] == MessageItems(messages[1..]);
    }
  }

  /** The body of a successful session reply is the stored thread, read back. */
  lemma SessionReplyIsThread(userId: string, sessionId: string,
                             messagesOf: (string, string) -> Option<seq<StoredMessage>>,
                             sessionsOf: (string, string) -> Option<seq<StoredSession>>)
    requires userId != "" && sessionId != "" && messagesOf(userId, sessionId).Some?
    ensures var r := GetChats(userId, sessionId, messagesOf, sessionsOf);
            r.status == 200 && ReadMessages(r.jsonBody.items) == Some(Thread(messagesOf(userId, sessionId).value))
  {
    MessageItemsReadBack(messagesOf(userId, sessionId).value);
  }

  /** How the history panel reads a session item back: its id, and its title when the property
      is a string. */
  function ReadSession(item: Http.Json): Option<StoredSession>
  {
    if item.Obj? && "id" in item.fields && item.fields["id"].Str? && "title" in item.fields then
      match item.fields["title"]
      case Str(title) => Some(StoredSession(item.fields["id"].s, Some(title)))
      case Undefined => Some(StoredSession(item.fields["id"].s, None))
      case _ => None
    else None
  }

  function ReadSessions(items: seq<Http.Json>): (r: Option<seq<StoredSession>>)
    ensures r.Some? ==> |r.value| == |items|
  {
    if items == [] then Some([])
    else
      var first :- ReadSession(items[0]);
      var rest :- ReadSessions(items[1..]);
      Some([first] + rest)
  }

  /** A client reading the session list back gets exactly the stored sessions, in order, each
      with its id and its title or the absence of one. */
  lemma {:induction false} SessionItemsReadBack(sessions: seq<StoredSession>)
    ensures ReadSessions(SessionItems(sessions)) == Some(sessions)
  {
    ReadBack(SessionItems(sessions), sessions);
  }

  /** Reading back a list whose every item is the item of the stored session at its place. */
  lemma {:induction false} ReadBack(items: seq<Http.Json>, sessions: seq<StoredSession>)
    requires |items| == |sessions|
    requires forall k :: 0 <= k < |items| ==> items[k] == SessionJson(sessions[k])
    ensures ReadSessions(items) == Some(sessions)
  {
    if items != [] {
      SessionReadBack(sessions[0]);
      ReadBack(items[1..], sessions[1..]);
      assert sessions == [sessions[0]] + sessions[1..];
    }
  }

  /** One stored session survives being written as an item and read back. */
  lemma SessionReadBack(s: StoredSession)
    ensures ReadSession(SessionJson(s)) == Some(s)
  {
    var fields := SessionJson(s).fields;
    assert "id" in fields && fields["id"] == Http.Str(s.id);
    assert "title" in fields;
  }

  /** The body of a successful list reply is the user's sessions, read back. */
  lemma SessionListReply(userId: string,
                         messagesOf: (string, string) -> Option<seq<StoredMessage>>,
                         sessionsOf: (string, string) -> Option<seq<StoredSession>>)
    requires userId != "" && sessionsOf(userId, "").Some?
    ensures var r := GetChats(userId, "", messagesOf, sessionsOf);
            r.status == 200 && r.jsonBody.Arr? && ReadSessions(r.jsonBody.items) == Some(sessionsOf(userId, "").value)
  {
    SessionItemsReadBack(sessionsOf(userId, "").value);
  }
}

/** `DELETE /api/chats/{sessionId}` (packages/api/src/functions/chats-delete.ts): clears one of the
    user's sessions. */
module ChatsDelete {
  import Http
  import ChatsGet

  const InvalidSessionId := "Invalid or missing sessionId in the request"

  /** `deleteChats`: the user id is checked first, then the session id, and only then is the
      history cleared; `ok()` when the clear succeeds and a 404 when it throws. `clear` stands for
      clearing the history of the user id and session id, false when it throws. An empty id is a
      missing one. */
  function DeleteChats(userId: string, sessionId: string, clear: (string, string) -> bool): (r: Http.HttpResponse)
    ensures userId == "" ==> r == Http.BadRequest(ChatsGet.InvalidUserId)
    ensures userId != "" && sessionId == "" ==> r == Http.BadRequest(InvalidSessionId)
    ensures userId != "" && sessionId != "" && clear(userId, sessionId) ==> r == Http.Ok(Http.Undefined)
    ensures userId != "" && sessionId != "" && !clear(userId, sessionId) ==> r == Http.NotFound(ChatsGet.SessionNotFound)
  {
    if userId == "" then Http.BadRequest(ChatsGet.InvalidUserId)
    else if sessionId == "" then Http.BadRequest(InvalidSessionId)
    else if clear(userId, sessionId) then Http.Ok(Http.Undefined)
    else Http.NotFound(ChatsGet.SessionNotFound)
  }

  /** The status tells the outcome: 200 exactly when both ids are given and the clear succeeded,
      400 exactly when an id is missing, and 404 otherwise. */
  lemma DeleteStatus(userId: string, sessionId: string, clear: (string, string) -> bool)
    ensures var r := DeleteChats(userId, sessionId, clear);
            && (r.status == 200 <==> userId != "" && sessionId != "" && clear(userId, sessionId))
            && (r.status == 400 <==> userId == "" || sessionId == "")
            && (r.status == 404 <==> userId != "" && sessionId != "" && !clear(userId, sessionId))
  {
  }
}

/** The chat history side panel of the web app (packages/webapp/src/components/history.ts): the
    user's past sessions, the panel's open state, and the requests it sends to the chats API. */
module History {
  import opened Wrappers
  import Http
  import WebApi

  /** An entry of the panel: a session id and its title. */
  datatype ChatSession = ChatSession(id: string, title: string)

  /** A request the panel sends: the HTTP method and the URL. */
  datatype Request = Request(httpMethod: string, url: string)

  /** The `loadSession` event: the session id and the messages the API returned for it. */
  datatype LoadSession = LoadSession(id: string, messages: Http.Json)

  function ListUrl(apiUrl: string, userId: string): string
  {
    apiUrl + "/api/chats?userId=" + userId
  }

  function SessionUrl(apiUrl: string, sessionId: string, userId: string): string
  {
    apiUrl + "/api/chats/" + sessionId + "/?userId=" + userId
  }

  function DeleteUrl(apiUrl: string, sessionId: string, userId: string): string
  {
    apiUrl + "/api/chats/" + sessionId + "?userId=" + userId
  }

  /** `chats.filter((chat) => chat.id !== sessionId)`. */
  function WithoutSession(chats: seq<ChatSession>, id: string): (r: seq<ChatSession>)
    ensures |r| <= |chats|
    ensures forall c :: c in r <==> c in chats && c.id != id
  {
    if chats == [] then []
    else
      var rest := WithoutSession(chats[1..], id);
      assert forall c :: c in chats <==> c == chats[0] || c in chats[1..];
      if chats[0].id != id then [chats[0]] + rest else rest
  }

  /** The filter keeps the order of what it keeps: filtering a list is filtering its parts. */
  lemma {:induction false} WithoutSessionAppend(a: seq<ChatSession>, b: seq<ChatSession>, id: string)
    ensures WithoutSession(a + b, id) == WithoutSession(a, id) + WithoutSession(b, id)
  {
    if a == [] {
      assert a + b == b;
    } else {
      assert (a + b)[0] == a[0] && (a + b)[1..] == a[1..] + b;
      WithoutSessionAppend(a[1..], b, id);
    }
  }

  /** A list without the session is left as it is; so deleting twice is deleting once. */
  lemma {:induction false} WithoutAbsentSession(chats: seq<ChatSession>, id: string)
    requires forall k :: 0 <= k < |chats| ==> chats[k].id != id
    ensures WithoutSession(chats, id) == chats
  {
    if chats != [] {
      WithoutAbsentSession(chats[1..], id);
    }
  }

  lemma WithoutSessionIdempotent(chats: seq<ChatSession>, id: string)
    ensures WithoutSession(WithoutSession(chats, id), id) == WithoutSession(chats, id)
  {
    WithoutAbsentSession(WithoutSession(chats, id), id);
  }

  class HistoryComponent {
    var open: bool
    var userId: string
    var chats: seq<ChatSession>
    var hasError: bool
    var isLoading: bool
    /** `getApiUrl()`: `options.apiUrl || VITE_API_URL || ''`, where the last fallback changes
        nothing, so it is the same choice as the chat client's. The options are not changed by
        any operation modelled here, so the value is taken once, at construction. */
    var apiUrl: string
    /** The requests sent so far, oldest first. */
    var requests: seq<Request>

    /** A panel that starts open on a large screen, for no user yet. */
    constructor (largeScreen: bool, optionsApiUrl: string, envApiUrl: string)
      ensures open == largeScreen && userId == "" && chats == []
      ensures !hasError && !isLoading && requests == []
      ensures apiUrl == WebApi.ApiUrl(optionsApiUrl, envApiUrl)
    {
      open := largeScreen;
      userId := "";
      chats := [];
      hasError := false;
      isLoading := false;
      apiUrl := WebApi.ApiUrl(optionsApiUrl, envApiUrl);
      requests := [];
    }

    /** `onPanelClicked`: the panel toggles, and nothing else changes. */
    method OnPanelClicked()
      modifies this
      ensures open == !old(open)
      ensures userId == old(userId) && chats == old(chats) && hasError == old(hasError)
      ensures isLoading == old(isLoading) && apiUrl == old(apiUrl) && requests == old(requests)
    {
      open := !open;
    }

    /** `onChatClicked`: asks for the session's messages; when they arrive the session is loaded
        and, on a small screen, the panel closes. Success or not, nothing is loading afterwards.
        `response` stands for what the request yields, nothing when it fails. */
    method OnChatClicked(sessionId: string, response: Option<Http.Json>, largeScreen: bool)
      returns (event: Option<LoadSession>)
      modifies this
      ensures requests == old(requests) + [Request("GET", SessionUrl(apiUrl, sessionId, userId))]
      ensures !isLoading
      ensures response.Some? ==> event == Some(LoadSession(sessionId, response.value))
      ensures response.None? ==> event.None?
      ensures open == (old(open) && (response.None? || largeScreen))
      ensures userId == old(userId) && chats == old(chats) && hasError == old(hasError) && apiUrl == old(apiUrl)
    {
      isLoading := true;
      requests := requests + [Request("GET", SessionUrl(apiUrl, sessionId, userId))];
      event := None;
      if response.Some? {
        event := Some(LoadSession(sessionId, response.value));
        if !largeScreen {
          open := false;
        }
      }
      isLoading := false;
    }

    /** `onDeleteChatClicked`: the session leaves the list before the DELETE request is sent,
        and stays out of it whatever the request's outcome. */
    method OnDeleteChatClicked(sessionId: string)
      modifies this
      ensures chats == WithoutSession(old(chats), sessionId)
      ensures requests == old(requests) + [Request("DELETE", DeleteUrl(apiUrl, sessionId, userId))]
      ensures open == old(open) && userId == old(userId) && hasError == old(hasError)
      ensures isLoading == old(isLoading) && apiUrl == old(apiUrl)
    {
      chats := WithoutSession(chats, sessionId);
      requests := requests + [Request("DELETE", DeleteUrl(apiUrl, sessionId, userId))];
    }

    /** The start of `refresh` for a known user: loading, with the error cleared. */
    method StartRefresh()
      modifies this
      ensures isLoading && !hasError
      ensures open == old(open) && userId == old(userId) && chats == old(chats)
      ensures apiUrl == old(apiUrl) && requests == old(requests)
    {
      isLoading := true;
      hasError := false;
    }

    /** `refresh`: without a user nothing happens and nothing is sent. Otherwise the user's
        sessions are requested; they replace the list when they arrive, and when the request
        fails the list stays as it was and the error shows. `response` stands for what the
        request yields, nothing when it fails. In the component it runs when `userId` is set
        (`requestUpdate`); the model has no operation for that assignment. */
    method Refresh(response: Option<seq<ChatSession>>)
      modifies this
      ensures old(userId) == "" ==>
        && open == old(open) && userId == old(userId) && chats == old(chats) && hasError == old(hasError)
        && isLoading == old(isLoading) && apiUrl == old(apiUrl) && requests == old(requests)
      ensures old(userId) != "" ==>
        && requests == old(requests) + [Request("GET", ListUrl(apiUrl, userId))]
        && !isLoading
        && (response.Some? ==> chats == response.value && !hasError)
        && (response.None? ==> chats == old(chats) && hasError)
        && open == old(open) && userId == old(userId) && apiUrl == old(apiUrl)
    {
      if userId == "" {
        return;
      }
      StartRefresh();
      requests := requests + [Request("GET", ListUrl(apiUrl, userId))];
      if response.Some? {
        chats := response.value;
        isLoading := false;
      } else {
        hasError := true;
        isLoading := false;
      }
    }
  }
}

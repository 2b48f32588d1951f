# serverless-chat-langchainjs — a verified model of the chat pipeline

This project models the parts of the serverless chat application that handle text and state. It covers three areas.

**The API's request handlers.**

- The streaming chat endpoints `POST /api/chats/stream` and the older `POST /api/chat`. Both validate the request and turn the model's answer chunks into a newline-delimited JSON (NDJSON) stream.
- `POST /api/identify-projects`. It holds the "stuff documents" chain: retrieved documents are rendered through a template, and the renderings are joined into the prompt's `{context}`.
- `GET` and `DELETE /api/chats/{sessionId}`.
- `POST /api/article`, which removes forbidden whole words from a draft.
- The HTTP response constructors.
- The lazily created credential.

**The web app's client.**

- `getCompletion` keeps only responses that have a delta.
- `getCitationUrl` builds the URL of a cited document.
- The assistant-message parser pulls out `<<question>>` follow-ups, cuts off an unterminated `<<` and trims. It then splits the text on `[label]` citations and numbers them by first appearance.

**The web app's components.**

- The chat component's state machine (sending, streaming, session adoption).
- The history panel.
- The debug panel's data-point split.

External services are parameters of the model:

- the language model, the vector store and retriever;
- the chat-history stores;
- the web search;
- `fetch`, and the generation of fresh session ids.

Each is a function-typed argument or an `Option` value, where `None` stands for a call that throws. Every handler's `try`/`catch` is therefore a case split on those values.

The files, one per source file, plus shared helpers:

- wrappers.dfy: `Option` and `Result`.
- protocol.dfy: roles and chat messages of the chat protocol.
- text.dfy: concatenation, `join`, `split` on one character, `split(sep)[0]`, ECMAScript `trim`.
- json_text.dfy: how `JSON.stringify` writes a string, a reader that inverts it, and NDJSON framing.
- http_response.dfy, utils_http_response.dfy.
- message_parser.dfy, chats_post.dfy, chat_post.dfy, identify_projects_post.dfy.
- chat_component.dfy, api.dfy, history_component.dfy, debug_component.dfy.
- chats_get.dfy, chats_delete.dfy, article_post.dfy, security.dfy.

Where the code and its documentation disagree, the model follows the code. The identify-projects document template ends in a line break, and the separator is two line breaks. Two rendered documents are therefore separated by three line breaks, not two (`StuffDocuments.TwoDocuments`).

## Model

| member | source | states |
|---|---|---|
| MessageParser.ParseMessageIntoHtml | packages/webapp/src/message-parser.ts:12-67 | A user message comes back verbatim with no citations and no follow-ups. Otherwise the follow-ups are the `<<…>>` captures in order, and the fragments and citations are those of the citation split of the display text. Role and context pass through unchanged. |
| MessageParser.BodyLenRun | packages/webapp/src/message-parser.ts:31 | The greedy `[^c]+` body holds no `c` and stops only at `c` or at the end of the text. |
| MessageParser.MatchShape | packages/webapp/src/message-parser.ts:31 | A match is the opening delimiter, a non-empty capture without the first closing character, the closing delimiter, then the rest of the text. |
| MessageParser.CapturesWellFormed | packages/webapp/src/message-parser.ts:39 | Every capture of the global split is non-empty and free of the first closing character, so an unclosed `[` is never a citation. |
| MessageParser.WeaveParts | packages/webapp/src/message-parser.ts:39-43 | Split with capture is lossless: putting every capture back between its delimiters rebuilds the text. |
| MessageParser.Parts | packages/webapp/src/message-parser.ts:39 | `split` with a capturing group yields an odd number of parts: text, capture, text, …, text. |
| MessageParser.PartsFirstNoMatch | packages/webapp/src/message-parser.ts:31-39 | The first part is a prefix of the text, and no match starts inside it. |
| MessageParser.PartsNextMatch | packages/webapp/src/message-parser.ts:39 | Right after the first part either the text ends (one part, the whole text) or a match starts; its capture is the second part, and the remaining parts split the text after the match. |
| MessageParser.ExtractFollowups | packages/webapp/src/message-parser.ts:30-34 | The `replaceAll` callback collects the captures in order of appearance, and the text keeps exactly the text between the matches. |
| MessageParser.DisplayTextClean | packages/webapp/src/message-parser.ts:35-36 | Of `DisplayText`: the displayed text never contains `<<`, and it neither starts nor ends with whitespace. |
| MessageParser.FirstOccurrencesSpec | packages/webapp/src/message-parser.ts:47-50 | The citation list holds every completed label, nothing else, and no label twice. |
| MessageParser.FirstOccurrencesOrder | packages/webapp/src/message-parser.ts:47-50 | Labels are listed in the order of their first appearance. |
| MessageParser.IndexOf | packages/webapp/src/message-parser.ts:47 | `indexOf`: -1 exactly when absent, otherwise the first index that holds the label. |
| MessageParser.RenderPart | packages/webapp/src/message-parser.ts:40-59 | The callback for one part: a text part is plain, a non-last capture is a reference whose label is added to the list on first sight and numbered by its place in the list, and a last capture renders nothing. |
| MessageParser.RenderParts | packages/webapp/src/message-parser.ts:40-59 | The `map`: even parts are plain text, and a non-last odd part is a reference numbered 1 + its index in the final citation list. A last odd part renders nothing. The list is the first occurrences of the completed labels. |
| MessageParser.ReferenceNumbers | packages/webapp/src/message-parser.ts:45-55 | Every completed citation gets a number between 1 and the list length, and the list holds its label at that number, so repeats reuse the first number. |
| Text.PrefixBefore | packages/webapp/src/message-parser.ts:35 | `split('<<')[0]` is a prefix of the text without `<<`, and it is followed by `<<` whenever it is shorter than the text. |
| Text.TrimIsInfix | packages/webapp/src/message-parser.ts:36 | `Trim`, the model of `trim`, keeps one contiguous piece of the text. |
| Text.TrimStartDrops | packages/webapp/src/message-parser.ts:36 | The leading part that is removed is all whitespace, and what remains does not start with whitespace. |
| Text.TrimEndDrops | packages/webapp/src/message-parser.ts:36 | The trailing part that is removed is all whitespace, and what remains does not end with whitespace. |
| Text.TrimDropsWhitespace | packages/webapp/src/message-parser.ts:36 | Everything `trim` drops before and after that piece is whitespace. |
| Text.TrimEnds | packages/webapp/src/message-parser.ts:36 | What `trim` keeps neither starts nor ends with whitespace. |
| Text.TrimKeepsAbsent | packages/webapp/src/message-parser.ts:35-36 | Trimming cannot create an occurrence of `<<`. |
| Text.SplitOn | packages/webapp/src/components/debug.ts:25 | `split` on one character gives at least one part, and no part holds the separator. |
| Text.JoinSplitOn | packages/webapp/src/components/debug.ts:25-26 | Joining the parts of `split(c)` with `c` gives the text back. |
| Text.JoinAt | packages/api/src/functions/identify-projects-post.ts:176 | In `join`, each part sits at its offset, unchanged. |
| ChatsPost.SessionIdFor | packages/api/src/functions/chats-post.ts:57 | The session id is the client's one when given and non-empty, otherwise the fresh id, so it is never empty. |
| ChatsPost.PostChats | packages/api/src/functions/chats-post.ts:41-166 | 400 when messages are missing or empty or the last one has no content. 503 when anything awaited before the reply throws. Otherwise an NDJSON stream with one line per non-empty chunk, tagged with the session id. The stream finishes when reading the chunks completes and fails after the lines so far when it throws. |
| ChatsPost.NonEmpty | packages/api/src/functions/chats-post.ts:150 | `if (!chunk) continue` keeps only non-empty chunks, all taken from the input. |
| ChatsPost.NonEmptyAppend | packages/api/src/functions/chats-post.ts:149-150 | The filter distributes over concatenation, so every non-empty chunk is kept once and in arrival order. |
| ChatsPost.NonEmptyKeeps | packages/api/src/functions/chats-post.ts:149-150 | Chunks that are all non-empty pass unchanged. |
| ChatsPost.NonEmptyConcat | packages/api/src/functions/chats-post.ts:148-166 | Dropping the empty chunks does not change the text they spell. |
| ChatsPost.CreateJsonStream | packages/api/src/functions/chats-post.ts:148-166 | One line per non-empty chunk, in arrival order: the record's serialization and a line break. |
| ChatsPost.Records | packages/api/src/functions/chats-post.ts:152-160 | Each chunk's record has the chunk as `delta.content`, role `assistant` and the request's session id. |
| ChatsPost.RoleNameRoundTrip | packages/api/src/functions/chats-post.ts:155 | A role name reads back as its role. |
| ChatsPost.RoleJsonIsQuote | packages/api/src/functions/chats-post.ts:155 | A role name needs no escaping in JSON and holds no line break. |
| ChatsPost.SerializeRoundTrip | packages/api/src/functions/chats-post.ts:152-164 | `Serialize`, the model of `JSON.stringify` of a record, reads back as that record; `Line` adds the line break. |
| ChatsPost.RoleFromName | packages/api/src/functions/chats-post.ts:155 | Any name that reads as a role is that role's name. |
| ChatsPost.DecodeEachLine | packages/api/src/functions/chats-post.ts:152-164 | Lines that each serialize a chunk's record decode to exactly those records, in order. |
| ChatsPost.SerializeIsOneLine | packages/api/src/functions/chats-post.ts:164 | A serialized record holds no line break. |
| ChatsPost.StreamRoundTrip | packages/api/src/functions/chats-post.ts:148-166 | A client reading the stream as NDJSON gets exactly the records of the non-empty chunks, in order. Their contents spell the whole answer. |
| JsonText.ReadQuote | packages/api/src/functions/chats-post.ts:164 | What `Quote` (`JSON.stringify` of a string, built on `Escape`) writes, `JSON.parse` reads back, stopping right after it. |
| JsonText.EscapeHasNoControl | packages/api/src/functions/chats-post.ts:164 | `JSON.stringify` never writes a control character inside a string value. |
| JsonText.QuoteHasNoNewline | packages/api/src/functions/chats-post.ts:164 | A string value as `JSON.stringify` writes it holds no line break. |
| JsonText.NdjsonRoundTrip | packages/api/src/functions/chats-post.ts:162-164 | Lines without line breaks, each emitted with one `\n`, are recovered exactly by the NDJSON framing. |
| JsonText.ReadEscapedChar | packages/api/src/functions/chats-post.ts:164 | Each character as `JSON.stringify` escapes it (short escape, `\u00XX` or itself) reads back as that character, in front of whatever the following text reads as. |
| JsonText.ReadUnicodeEscape | packages/api/src/functions/chats-post.ts:164 | A control character without a short escape is written as `\u00XX` and reads back as itself. |
| JsonText.DecodeLines | packages/api/src/functions/chats-post.ts:164 | Decoding NDJSON lines one by one gives one value per line, or fails. |
| JsonText.ReadEscapedBody | packages/api/src/functions/chats-post.ts:164 | An escaped string body followed by a closing quote reads back as the string, with the text after the quote left over. |
| JsonText.EscapePlain | packages/api/src/functions/chats-post.ts:164 | A string without quotes, backslashes or control characters is written as it is. |
| JsonText.SplitOnLine | packages/api/src/functions/chats-post.ts:164 | A line without a line break, followed by `\n`, is the first part when the stream is split on line breaks. |
| ChatPost.Chat | packages/api/src/functions/chat-post.ts:12-86 | 400 for missing or empty messages or an empty first message. Then 400 "Stream is not supported" when `stream` is falsy. 503 when starting the chain throws. Otherwise the stream of the chain's answer to the first message, one line per chunk, finished when reading completes and left open when it throws. |
| ChatPost.Readable.constructor | packages/api/src/functions/chat-post.ts:59-61 | A new buffer has nothing pushed and has not ended. |
| ChatPost.Readable.Push | packages/api/src/functions/chat-post.ts:77-80 | Pushing a string appends it; pushing `null` ends the stream. |
| ChatPost.CreateStream | packages/api/src/functions/chat-post.ts:58-86 | A fresh buffer receives exactly one line per chunk, none skipped, in order. It is ended exactly when the iteration completes without throwing. |
| ChatPost.LinesSnoc | packages/api/src/functions/chat-post.ts:64-78 | One more chunk adds its line at the end. |
| ChatPost.Lines | packages/api/src/functions/chat-post.ts:64-78 | One line per chunk. |
| ChatPost.LinesAt | packages/api/src/functions/chat-post.ts:64-78 | The line at each place is that chunk's record. |
| ChatPost.Choices | packages/api/src/functions/chat-post.ts:65-75 | Each chunk becomes one choice with index 0, its answer as content and role `assistant`. |
| ChatPost.RoleTailRoundTrip | packages/api/src/functions/chat-post.ts:71-75 | The role and the closing of a record read back as the role. |
| ChatPost.ContentRoundTrip | packages/api/src/functions/chat-post.ts:65-77 | The record of a chunk with an answer reads back as itself. |
| ChatPost.NoContentRoundTrip | packages/api/src/functions/chat-post.ts:65-77 | The record of a chunk without an answer (the `content` key left out) reads back as itself. |
| ChatPost.SerializeRoundTrip | packages/api/src/functions/chat-post.ts:65-77 | Every record that `Serialize` writes (the `JSON.stringify` of line 77, which `Line` ends with a line break) reads back as itself. |
| ChatPost.SerializeIsOneLine | packages/api/src/functions/chat-post.ts:77 | A serialized record holds no line break. |
| ChatPost.StreamRoundTrip | packages/api/src/functions/chat-post.ts:58-86 | A client reading the buffer's lines as NDJSON gets one record per chunk, in order. |
| ChatPost.DecodeEachLine | packages/api/src/functions/chat-post.ts:65-77 | Lines that each serialize a chunk's choice decode to exactly those choices, in order. |
| StuffDocuments.InputVariables | packages/api/src/functions/identify-projects-post.ts:131 | Every variable of a template is among its input variables. |
| StuffDocuments.Format | packages/api/src/functions/identify-projects-post.ts:171-173 | Formatting succeeds exactly when every input variable has a value. Otherwise it fails naming a missing variable. |
| StuffDocuments.FormatAppend | packages/api/src/functions/identify-projects-post.ts:171-173 | Formatting two template pieces in sequence formats each in turn. |
| StuffDocuments.Values | packages/api/src/functions/identify-projects-post.ts:173 | The values are the metadata plus `page_content`, which always comes from `pageContent`. |
| StuffDocuments.FormatEach | packages/api/src/functions/identify-projects-post.ts:169-175 | All renderings succeed exactly when every document renders. They come in input order. |
| StuffDocuments.FormatDocuments | packages/api/src/functions/identify-projects-post.ts:154-177 | `formatDocuments` succeeds exactly when there are no documents or every document renders; a failure names a variable of the document template. |
| StuffDocuments.Invoke | packages/api/src/functions/identify-projects-post.ts:135-151 | The chain answers only when its documents format. |
| StuffDocuments.FormatNoDocuments | packages/api/src/functions/identify-projects-post.ts:165-167 | A `null` or empty document list gives the empty context. |
| StuffDocuments.FormatDocumentsJoin | packages/api/src/functions/identify-projects-post.ts:169-176 | Documents that all render give their renderings joined by the separator. |
| StuffDocuments.FormatDocumentsLayout | packages/api/src/functions/identify-projects-post.ts:169-176 | Each rendering sits at its offset in the context, with one separator after every rendering but the last. |
| StuffDocuments.FormatDocumentsFails | packages/api/src/functions/identify-projects-post.ts:169-175 | One document that fails to render makes the whole context fail. |
| StuffDocuments.DefaultRendering | packages/api/src/functions/identify-projects-post.ts:122 | With the default template a document renders as its page content, whatever its metadata. |
| StuffDocuments.SourceRendering | packages/api/src/functions/identify-projects-post.ts:93 | The source template renders `[source]: content` and a line break, and fails without a `source`. |
| StuffDocuments.TwoDocuments | packages/api/src/functions/identify-projects-post.ts:169-176 | Two documents are separated by three line breaks. |
| StuffDocuments.PromptVariables | packages/api/src/functions/identify-projects-post.ts:131 | A chat prompt needs the variables of each of its messages. |
| StuffDocuments.FormatPrompt | packages/api/src/functions/identify-projects-post.ts:147 | Formatting a chat prompt succeeds exactly when every variable has a value, giving one message per prompt message. |
| StuffDocuments.CreateStuffDocumentsChain | packages/api/src/functions/identify-projects-post.ts:119-152 | It throws exactly when the prompt has no `context` variable. Otherwise the chain keeps the prompt and fills in the default template and `\n\n` separator. |
| IdentifyProjects.RagChainBuilds | packages/api/src/functions/identify-projects-post.ts:87-94 | The handler's prompt has a `context` variable, so building its chain succeeds. |
| IdentifyProjects.RagPromptMessages | packages/api/src/functions/identify-projects-post.ts:20-26 | The model receives the instructions followed by the context as the system message, and the question as the human message. |
| IdentifyProjects.Top | packages/api/src/functions/identify-projects-post.ts:97 | `asRetriever(3)` keeps the first three matches, or all of them when there are fewer. |
| IdentifyProjects.PostIdentifyProjects | packages/api/src/functions/identify-projects-post.ts:28-116 | 400 for invalid messages. 503 when anything awaited throws. Otherwise `ok({response})` with the chain's answer to the last message. |
| IdentifyProjects.Answer | packages/api/src/functions/identify-projects-post.ts:96-106 | An answer exists only when the retriever returned, and then every one of the top three documents names its source. |
| IdentifyProjects.ChainNeedsSources | packages/api/src/functions/identify-projects-post.ts:87-106 | The chain answers only when every document names its source. |
| IdentifyProjects.ChainMissingSource | packages/api/src/functions/identify-projects-post.ts:93-106 | A retrieved document without `source` makes the chain fail. |
| IdentifyProjects.ChainWithSources | packages/api/src/functions/identify-projects-post.ts:87-106 | When every document names its source, the model receives the instructions and the joined renderings. |
| Chat.ChatComponent.constructor | packages/webapp/src/components/chat.ts:79-85 | Empty question, thread, user and session; no flag set. |
| Chat.ChatComponent.OnNewChatClicked | packages/webapp/src/components/chat.ts:100-104 | The thread is emptied and the session id reset; nothing else changes. |
| Chat.ChatComponent.StartSend | packages/webapp/src/components/chat.ts:118-130 | The error is cleared and the question appended as a user message unless retrying. The question is emptied and the component is loading. |
| Chat.ChatComponent.Absorb | packages/webapp/src/components/chat.ts:148-157 | A response with text marks streaming and extends the single assistant message. Its session id is adopted only when none is set. |
| Chat.ChatComponent.Receive | packages/webapp/src/components/chat.ts:147-158 | After the loop the thread is the sent thread plus one assistant message holding the whole answer, if it has text. The session id is adopted once. |
| Chat.ChatComponent.OnSendClicked | packages/webapp/src/components/chat.ts:113-169 | Nothing changes while loading. Otherwise the thread, and only the thread, is sent, the filtered responses stream in, and afterwards nothing is loading or streaming; `hasError` tells whether the stream failed. |
| Chat.FirstSessionId | packages/webapp/src/components/chat.ts:154-157 | The first session id the stream carries, empty exactly when none carries one. |
| Chat.SessionIdKept | packages/webapp/src/components/chat.ts:155-157 | A session id, once set, is never overwritten. |
| Chat.FirstSessionIdSnoc | packages/webapp/src/components/chat.ts:154-157 | One more response changes the first session id only if there was none yet. |
| Chat.SessionIdAdopted | packages/webapp/src/components/chat.ts:154-157 | Without a session id, the component adopts the first one the stream carries. |
| Chat.AnswerTextConcat | packages/webapp/src/components/chat.ts:147-152 | The assistant message is the in-order concatenation of the response texts. |
| Chat.AnswerTextNonEmpty | packages/webapp/src/components/chat.ts:148-152 | The answer has text exactly when some response carried text, so the thread is unchanged when none did. |
| Chat.ReceiveStep | packages/webapp/src/components/chat.ts:147-158 | One more response extends the answer by its text and may offer the session id. |
| WebApi.GetCompletion | packages/webapp/src/api.ts:16-26 | Exactly the responses with a delta are passed on. |
| WebApi.GetCompletionAppend | packages/webapp/src/api.ts:16-26 | The filter distributes over concatenation, so arrival order is kept. |
| WebApi.GetCompletionKeepsDeltas | packages/webapp/src/api.ts:17-19 | A stream whose responses all have a delta passes unchanged. |
| WebApi.GetCompletionIdempotent | packages/webapp/src/api.ts:16-26 | Filtering twice is filtering once. |
| WebApi.ApiUrl | packages/webapp/src/api.ts:12 | The options' URL unless empty, otherwise the base URL. The history panel's `getApiUrl` (packages/webapp/src/components/history.ts:158) is the same choice. |
| WebApi.GetCitationUrl | packages/webapp/src/api.ts:29-31 | The URL starts with the base URL, ends with the citation, and is as long as the base, the documents path and the citation together. |
| WebApi.CitationUrlRoundTrip | packages/webapp/src/api.ts:29-31 | The citation can be read back from its URL: the URL is the documents path followed by the citation. |
| WebApi.CitationUrlInjective | packages/webapp/src/api.ts:29-31 | Distinct citations get distinct URLs. |
| History.WithoutSession | packages/webapp/src/components/history.ts:93 | Exactly the entries with another id are kept. |
| History.WithoutSessionAppend | packages/webapp/src/components/history.ts:93 | The filter distributes over concatenation, so the kept entries stay in order. |
| History.WithoutAbsentSession | packages/webapp/src/components/history.ts:93 | Removing an id that is not listed changes nothing. |
| History.WithoutSessionIdempotent | packages/webapp/src/components/history.ts:93 | Removing the same id twice is removing it once. |
| History.HistoryComponent.constructor | packages/webapp/src/components/history.ts:60-64 | Open on a large screen; no user, no chats, no flag set. |
| History.HistoryComponent.OnPanelClicked | packages/webapp/src/components/history.ts:66-68 | `open` is negated; nothing else changes. |
| History.HistoryComponent.OnChatClicked | packages/webapp/src/components/history.ts:70-89 | The session is requested. When the fetch succeeds, the event carries the loaded messages and the panel closes on a small screen. When it fails, no event is sent and the panel stays as it was. `isLoading` is false afterwards, success or not. |
| History.HistoryComponent.OnDeleteChatClicked | packages/webapp/src/components/history.ts:91-101 | The entries with that id are removed before the DELETE request is sent and are not restored. |
| History.HistoryComponent.StartRefresh | packages/webapp/src/components/history.ts:144-145 | Once the user check has passed, `refresh` is loading and the error is cleared; nothing else changes. |
| History.HistoryComponent.Refresh | packages/webapp/src/components/history.ts:139-156 | Nothing changes without a user id. Success replaces the chats; failure keeps them and sets `hasError`. `isLoading` is false afterwards. |
| Debug.SplitDataPoint | packages/webapp/src/components/debug.ts:25-26 | The title holds no colon. |
| Debug.SplitWithoutColon | packages/webapp/src/components/debug.ts:25-26 | Without a colon the title is the whole data point and the extract is empty. |
| Debug.SplitAtFirstColon | packages/webapp/src/components/debug.ts:25-26 | With a colon, title, colon and extract rebuild the data point: the title is what precedes the first colon and the extract all that follows it, later colons included. |
| Debug.DataPointInfos | packages/webapp/src/components/debug.ts:24-27 | One info per data point, in order. |
| ChatsGet.GetChats | packages/api/src/functions/chats-get.ts:9-59 | 400 without a user id, before the history is read. With a session id a 200 whose body is exactly the messages' `{role, content}` items, otherwise a 200 whose body is exactly the sessions' `{id, title}` items. 404 "Session not found" when reading throws. |
| ChatsGet.RoleFor | packages/api/src/functions/chats-get.ts:41 | `human` is the user and any other type the assistant. |
| ChatsGet.MessageItems | packages/api/src/functions/chats-get.ts:40-43 | One `{role, content}` item per stored message, in order. |
| ChatsGet.SessionItems | packages/api/src/functions/chats-get.ts:48-51 | One `{id, title}` item per session, in order. |
| ChatsGet.Thread | packages/api/src/functions/chats-get.ts:40-43 | The thread keeps count, order and content; the role is `user` exactly for `human` messages. |
| ChatsGet.MessageItemsReadBack | packages/api/src/functions/chats-get.ts:38-44 | Reading the items back gives exactly that thread. |
| ChatsGet.ReadSessions | packages/api/src/functions/chats-get.ts:48-51 | A client reading a session list gets one session per item, or fails. |
| ChatsGet.SessionReadBack | packages/api/src/functions/chats-get.ts:48-51 | One session's item reads back as that session, title or no title. |
| ChatsGet.ReadBack | packages/api/src/functions/chats-get.ts:48-51 | Items that are each the item of the session at their place read back as those sessions. |
| ChatsGet.SessionItemsReadBack | packages/api/src/functions/chats-get.ts:47-52 | The session items read back as exactly the stored sessions, in order. |
| ChatsGet.SessionListReply | packages/api/src/functions/chats-get.ts:47-52 | A successful list reply is a 200 whose body reads back as the stored sessions. |
| ChatsGet.SessionReplyIsThread | packages/api/src/functions/chats-get.ts:38-45 | A successful session reply is a 200 whose body reads back as the stored thread. |
| ChatsDelete.DeleteChats | packages/api/src/functions/chats-delete.ts:9-50 | The user id is checked before the session id, and both before the history is cleared. 200 when the clear succeeds, 404 when it throws. |
| ChatsDelete.DeleteStatus | packages/api/src/functions/chats-delete.ts:14-49 | 200, 400 and 404 each happen exactly in their own case. |
| WholeWord.Scan | packages/api/src/functions/article-post.ts:80 | The global replace never lengthens the text. |
| WholeWord.ScanLeavesNoMatch | packages/api/src/functions/article-post.ts:80 | Take a word whose every occurrence is also an occurrence of the removed word. After the scan, no whole-word occurrence of it is left, with or without a word character before the scanned part. |
| WholeWord.RemovesEveryOccurrence | packages/api/src/functions/article-post.ts:80 | After `replace(/\bw\b/gi, '')` no case-insensitive whole-word occurrence of `w` is left. |
| WholeWord.KeepsAbsentWordsAbsent | packages/api/src/functions/article-post.ts:79-81 | Removing one word never creates a whole-word occurrence of another. |
| WholeWord.UnchangedWithoutMatch | packages/api/src/functions/article-post.ts:80 | Text without an occurrence is returned unchanged. |
| WholeWord.ScanKeepsGap | packages/api/src/functions/article-post.ts:80 | Between two positions where no occurrence starts, the scan copies the text unchanged, so only matched text is removed. |
| WholeWord.InsideLongerWord | packages/api/src/functions/article-post.ts:80 | An occurrence inside a longer word (`Examples`) is kept. |
| ArticlePost.Documents | packages/api/src/functions/article-post.ts:59 | One document per search result, in order: its content as page content and its URL as source. |
| ArticlePost.DraftChainBuilds | packages/api/src/functions/article-post.ts:62-69 | The draft prompt has a `context` variable, so building the chain succeeds. |
| ArticlePost.DraftMessages | packages/api/src/functions/article-post.ts:62-74 | The model receives the instructions followed by the sources as the system message, and the topic as the human message. |
| ArticlePost.DraftOfResults | packages/api/src/functions/article-post.ts:59-74 | Every result document names its source, so the draft chain never fails on the documents. |
| ArticlePost.ForbiddenWordsAreWords | packages/api/src/functions/article-post.ts:78 | The forbidden words are made of word characters only. |
| ArticlePost.ReviewAllClean | packages/api/src/functions/article-post.ts:78-81 | Of `ReviewAll`: after all words are processed, in list order, none remains as a whole word. |
| ArticlePost.Review | packages/api/src/functions/article-post.ts:79-81 | The `forEach` removes the words one after the other, in list order. |
| ArticlePost.RewriteMessages | packages/api/src/functions/article-post.ts:78-90 | The model is asked to rewrite the reviewed article, and that article holds none of the forbidden words as a whole word. |
| ArticlePost.WriteArticle | packages/api/src/functions/article-post.ts:56-91 | An article exists only when the search and the draft succeed, and then it is the model's rewrite of the draft with the forbidden words removed. |
| ArticlePost.PostArticle | packages/api/src/functions/article-post.ts:21-99 | 503 when the search key is unset, before the body is read. 400 for a missing topic. 503 when anything awaited throws. Otherwise the rewritten article. |
| Http.BadRequest | packages/api/src/http-response.ts:3-10 | Status 400 with the message as `error`. |
| Http.NotFound | packages/api/src/http-response.ts:12-19 | Status 404 with the message as `error`. |
| Http.ServiceUnavailable | packages/api/src/http-response.ts:21-28 | Status 503 with the message as `error`. |
| Http.InternalServerError | packages/api/src/http-response.ts:30-37 | Status 500 with the message as `error`. |
| Http.Unauthorized | packages/api/src/http-response.ts:39-46 | Status 401 with the message as `error`. |
| Http.NoContent | packages/api/src/http-response.ts:48-52 | Status 204 and no body. |
| Http.Created | packages/api/src/http-response.ts:54-59 | Status 201 with the body passed through. |
| Http.Ok | packages/api/src/http-response.ts:61-66 | Status 200 with the body passed through. |
| HttpFromError.BadRequest | packages/api/src/utils/http-response.ts:3-10 | The same response as `badRequest` of the error's message: 400. |
| HttpFromError.NotFound | packages/api/src/utils/http-response.ts:12-19 | The same response as `notFound` of the error's message: 404. |
| HttpFromError.ServiceUnavailable | packages/api/src/utils/http-response.ts:21-28 | The same response as `serviceUnavailable` of the error's message: 503. |
| HttpFromError.InternalServerError | packages/api/src/utils/http-response.ts:30-37 | The same response as `internalServerError` of the error's message: 500. |
| HttpFromError.Unauthorized | packages/api/src/utils/http-response.ts:39-46 | The same response as `unauthorized` of the error's message: 401. |
| HttpFromError.NoContent | packages/api/src/utils/http-response.ts:48-52 | The same 204 without a body. |
| HttpFromError.Created | packages/api/src/utils/http-response.ts:54-59 | The same 201 with the body passed through. |
| HttpFromError.Ok | packages/api/src/utils/http-response.ts:61-66 | The same 200 with the body passed through. |
| Security.CredentialCache.constructor | packages/api/src/security.ts:3 | Nothing is cached and no credential has been built. |
| Security.CredentialCache.GetCredentials | packages/api/src/security.ts:5-11 | The first call builds a fresh credential and stores it. Later calls return the stored one without building another. The invariant keeps the number built at most one. |

## Left out

- The language models, embeddings, vector stores, web search and chat-history stores are external. Each appears only as a function parameter whose `None` result means the call threw. No behaviour of theirs is modelled.
- Asynchrony: the model runs each handler and each component method as one sequential step. Interleavings of `await`s are not modelled, nor two sends racing, nor `Promise.all` running renderings concurrently (the results are taken in input order, as `Promise.all` returns them).
- The `chunkIntervalMs` delay of `getCompletion`: it is timing only, and just the filter is modelled.
- `getUserId` and `getAzureOpenAiTokenProvider` are imported from security.ts but are not part of this model. The user id arrives as a string, where the empty string means it is missing.
- The `data(...)` helper the handlers import is not among the HTTP constructors shown. A streamed or data reply is modelled as its own `Reply` case carrying the headers and the lines, or the body.
- `uuidv4()` is a parameter `freshId` that is required to be non-empty.
- ChatsPost.PostChats: a failure of `getContext`, of the title call or of the history store (lines 123-133) gives a 503. The model folds it into `answer` returning `None`. What `setContext` stores and the history store's recording of the exchange are not modelled.
- ChatsPost.PostChats, ChatPost.Chat: a stream that fails after the reply is sent is modelled by how it ends (`Failed`, or `Open` for the buffer of `chat`, which nothing ends). What the host sends the client then is not modelled.
- IdentifyProjects.PostIdentifyProjects: the session id and user id are only logged and passed as configuration. The structured output parsing of the model is left to the `llm` parameter.
- StuffDocuments.FormatDocuments: the document list is either `null` (`None`) or a list. An `undefined` list fails the `=== null` test and throws on `.length`; it is not modelled.
- ArticlePost.PostArticle: the web search is taken to resolve to the parsed list of `{content, url}` results that line 59 maps over. The search tool's own result type belongs to the search library, which is not part of this model.
- History.HistoryComponent.Refresh: setting `userId`, which calls `refresh` through `requestUpdate` (packages/webapp/src/components/history.ts:103-108), is not modelled as an operation. The panel's first load is a `Refresh` after the field is set.
- Template parsing: prompt templates are given already parsed into literals and `{name}` variables. f-string brace escaping is not modelled.
- WholeWord.Scan: the regular expression is built from the word without escaping. The forbidden words contain no regular-expression metacharacters, and the model takes the word literally. Case folding is ASCII-only, which matches `\b` and `\w` for these words but does not cover Unicode case mappings outside ASCII.
- JsonText.ReadQuote: `JSON.stringify` escapes lone surrogates as `\uXXXX` since ES2019. Strings here are sequences of characters, so lone surrogates are not modelled.
- A message's content is the empty string where the protocol allows it to be absent.
- Chat.ChatComponent.OnSendClicked: the message object is shared between the loop and the thread, and the thread is reassigned on every chunk. The model states the thread after the loop in terms of the accumulated answer, not the aliasing. The intermediate `isLoading`/`isStreaming` values that the component's observers see during the loop are not modelled either.
- History.HistoryComponent.OnChatClicked: `fetch` is modelled by the request it makes (kept in a request log) and its outcome (the parsed body or `None`). The `loadSession` event is the method's result. `isLargeScreen()` is a parameter.
- History.HistoryComponent.Refresh: the intermediate `isLoading == true` state during the fetch is not observable in the model; `StartRefresh` states it.
- History.HistoryComponent.Refresh: the response is modelled as a list of sessions or a failure. The source assigns any JSON body to `chats` without checking the status, so a 400 or 404 error body replaces the list and leaves `hasError` false. The model's response type cannot carry such a body.
- DOM rendering, events other than `loadSession`, `scrollToLastMessage`, and `window.open` are not modelled.
- packages/api/src/functions/summarise-post.ts and elaborate-post.ts repeat the message validation of `postChats` around one model call. They are not part of this model.

/** The message shapes of the chat protocol shared by the web app and the API
    (`AIChatMessage` and its role). */
module ChatProtocol {
  import opened Wrappers

  datatype Role = User | Assistant | System

  /** The wire name of a role. */
  function RoleName(r: Role): string
  {
    match r
    case User => "user"
    case Assistant => "assistant"
    case System => "system"
  }

  /** An `AIChatMessage`. An absent or empty `content` is the empty string (every check on it in
      the source is a truthiness test); `context` is the optional context object, as string fields. */
  datatype ChatMessage = ChatMessage(content: string, role: Role, context: Option<map<string, string>>)
}

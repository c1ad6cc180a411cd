/**
 The conversation data of the summarizer: a message has a role, a text
 content and an optional timestamp string.
 */
module Messages {

  datatype Option<T> = None | Some(value: T)

  /** `'user' | 'assistant'`. */
  datatype Role = User | Assistant

  datatype Message = Message(role: Role, content: string, timestamp: Option<string>)

  /** The role as the source spells it inside a template literal. */
  function RoleName(r: Role): string
  {
    match r
    case User => "user"
    case Assistant => "assistant"
  }

  /** JavaScript truthiness of an optional string: present and not empty. */
  predicate Present(t: Option<string>)
  {
    t.Some? && t.value != ""
  }
}

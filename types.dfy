/** The records of lib/types.ts that the handlers and the page read and write. The
    message timestamp is not part of this model. */
module Types {

  datatype Option<T> = None | Some(value: T)

  /** The value of an awaited call, or the message of the error it threw. */
  datatype Result<T> = Ok(value: T) | Err(error: string)

  /** `'user' | 'assistant'`. */
  datatype Role = User | Assistant

  /** The optional metadata of a passage; every field may be absent. */
  datatype ContextMetadata = ContextMetadata(title: Option<string>, section: Option<string>, page: Option<int>)

  /** A retrieved passage with its similarity score. */
  datatype RetrievedContext = RetrievedContext(id: string, text: string, score: real, metadata: Option<ContextMetadata>)

  /** One turn of the conversation, with the passages an answer was based on. */
  datatype Message = Message(id: string, role: Role, content: string, sources: Option<seq<RetrievedContext>>)
}

/** The note entity shared by the client and the server, and an optional value. */
module Notes {

  /** A note `{id, title, content}`, as the client holds it and the server returns it. */
  datatype Note = Note(id: int, title: string, content: string)

  /** `null` or a value (the client's selected note, a store call that may not happen). */
  datatype Option<T> = None | Some(value: T)
}

/** The shared record types of the notes application: a stored note and the
    partial records that create and update requests carry. */
module Schema {

  datatype Option<+T> = None | Some(value: T)

  /** A stored note. Timestamps are integers (milliseconds since the epoch). */
  datatype Note = Note(id: int, title: string, content: string, createdAt: int, updatedAt: int)

  /** Body of a create request: both fields may be absent. */
  datatype InsertNote = InsertNote(title: Option<string>, content: Option<string>)

  /** Body of an update request: only the fields that are present are written. */
  datatype UpdateNote = UpdateNote(title: Option<string>, content: Option<string>)

  /** The title a note gets when it is created without one. */
  const DefaultTitle: string := "Untitled Note"
}

/**
 * The records the backend keeps and sends to the front end.
 */
module Notes {

  /** An instant, as milliseconds since the Unix epoch (`DateTime<Utc>` and its
      `timestamp_millis`). */
  type Timestamp = int

  /** A note as the save and update commands build it. */
  datatype Note = Note(
    id: string,
    title: string,
    content: string,
    links: seq<string>,
    createdAt: Timestamp,
    updatedAt: Timestamp)

  /** What the note list shows of a note. */
  datatype NoteMetadata = NoteMetadata(id: string, title: string, createdAt: Timestamp, updatedAt: Timestamp)

  /** The payload of the `clipboard-changed` event. */
  datatype ClipboardContent = ClipboardContent(text: string, fromApp: bool)

  function MetadataOf(n: Note): (m: NoteMetadata)
    ensures m.id == n.id && m.title == n.title
    ensures m.createdAt == n.createdAt && m.updatedAt == n.updatedAt
  {
    NoteMetadata(n.id, n.title, n.createdAt, n.updatedAt)
  }
}

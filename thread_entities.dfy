/**
 * The thread records the use cases and the thread repository exchange. Their
 * constructors' validation is not part of this model: they are plain records.
 */
module ThreadEntities {
  import opened JsValues
  import opened Prelude

  /** A request to start a thread. */
  datatype AddThread = AddThread(title: string, body: string, owner: string)

  /** What starting a thread returns. */
  datatype AddedThread = AddedThread(id: string, title: string, owner: string)

  /** A thread as its detail page shows it; `username` is null when the owner has no user row. */
  datatype Thread = Thread(id: string, title: string, body: string, date: Instant,
                           username: Option<string>)
}

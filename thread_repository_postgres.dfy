/**
 * The threads table and the repository that writes it, held in memory as a
 * sequence of rows. The users table, read through a left join, is a map from
 * user id to username.
 */
module ThreadRepositoryPostgres {
  import opened Prelude
  import opened JsValues
  import opened Errors
  import opened ThreadEntities

  /** A row of `threads`; `date` is the column default, the time of the insert. */
  datatype ThreadRow = ThreadRow(id: string, title: string, body: string, owner: string, date: Instant)

  const ThreadNotFound := Error(NotFound, "Thread tidak ditemukan")

  predicate IdTaken(rows: seq<ThreadRow>, id: string)
  {
    exists i :: 0 <= i < |rows| && rows[i].id == id
  }

  predicate UniqueIds(rows: seq<ThreadRow>)
  {
    forall i, j :: 0 <= i < j < |rows| ==> rows[i].id != rows[j].id
  }

  /** The first row with that id: `WHERE threads.id = $1`. */
  function RowWithId(rows: seq<ThreadRow>, id: string): (r: Option<ThreadRow>)
    ensures r.None? <==> !IdTaken(rows, id)
    ensures r.Some? ==> r.value in rows && r.value.id == id
  {
    if rows == [] then None
    else if rows[0].id == id then Some(rows[0])
    else
      assert forall i :: 1 <= i < |rows| ==> rows[i] == rows[1..][i - 1];
      RowWithId(rows[1..], id)
  }

  /** The thread a row shows, with the owner's username or null when the owner has no user row. */
  function Shown(row: ThreadRow, users: map<string, string>): (t: Thread)
    ensures t.id == row.id && t.title == row.title && t.body == row.body && t.date == row.date
    ensures t.username.Some? <==> row.owner in users
    ensures t.username.Some? ==> t.username.value == users[row.owner]
  {
    Thread(row.id, row.title, row.body, row.date, if row.owner in users then Some(users[row.owner]) else None)
  }

  /** `ThreadRepositoryPostgres`: the threads table behind a connection pool. */
  class ThreadRepositoryPostgres {
    var rows: seq<ThreadRow>

    /** The primary key holds. */
    predicate Valid()
      reads this
    {
      UniqueIds(rows)
    }

    constructor(initial: seq<ThreadRow>)
      requires UniqueIds(initial)
      ensures Valid() && rows == initial
    {
      rows := initial;
    }

    /**
     * `addThread`: insert the thread with id `'thread-' + generated` and
     * return its id, title and owner; a taken id makes the database reject
     * the insert. Once added, the thread is available.
     */
    method AddThread(thread: AddThread, generated: string, now: Instant) returns (r: Result<AddedThread, Error>)
      requires Valid()
      modifies this
      ensures Valid()
      ensures IdTaken(old(rows), "thread-" + generated) ==> rows == old(rows) && r == Failure(DuplicateKey)
      ensures !IdTaken(old(rows), "thread-" + generated) ==>
        && rows == old(rows) + [ThreadRow("thread-" + generated, thread.title, thread.body, thread.owner, now)]
        && r == Success(AddedThread("thread-" + generated, thread.title, thread.owner))
        && VerifyThreadAvailability("thread-" + generated) == Pass
    {
      var id := "thread-" + generated;
      if IdTaken(rows, id) {
        return Failure(DuplicateKey);
      }
      var row := ThreadRow(id, thread.title, thread.body, thread.owner, now);
      rows := rows + [row];
      assert rows[|rows| - 1] == row;
      r := Success(AddedThread(row.id, row.title, row.owner));
    }

    /** `getThreadById`: the thread with that id and its owner's username; nothing when no row has that id. */
    function GetThreadById(threadId: string, users: map<string, string>): (r: Option<Thread>)
      reads this
      ensures r.None? <==> !IdTaken(rows, threadId)
      ensures r.Some? ==> exists row :: row in rows && row.id == threadId && r.value == Shown(row, users)
    {
      match RowWithId(rows, threadId)
      case None => None
      case Some(row) => Some(Shown(row, users))
    }

    /** `verifyThreadAvailability`: passes exactly when some row has that id, and otherwise throws NotFound. */
    function VerifyThreadAvailability(threadId: string): (c: Check)
      reads this
      ensures c == Pass <==> IdTaken(rows, threadId)
      ensures c != Pass ==> c == Fail(ThreadNotFound)
    {
      if RowWithId(rows, threadId).Some? then Pass else Fail(ThreadNotFound)
    }

    /** A thread is available exactly when it can be read, and what is read carries the id asked for. */
    lemma AvailableExactlyWhenReadable(threadId: string, users: map<string, string>)
      ensures VerifyThreadAvailability(threadId) == Pass <==> GetThreadById(threadId, users).Some?
      ensures GetThreadById(threadId, users).Some? ==> GetThreadById(threadId, users).value.id == threadId
    {
    }
  }
}

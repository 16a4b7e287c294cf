/**
 * The comments table and the repository that writes it, held in memory as a
 * sequence of rows in storage order. A comment is never removed: deleting it
 * stamps `deleted_at`, which hides it from the lookup by id and masks its
 * content in the thread listing. The users table, read through a left join,
 * is a map from user id to username.
 */
module CommentRepositoryPostgres {
  import opened Prelude
  import opened JsValues
  import opened Errors
  import opened CommentEntities
  import Repositories

  /** A row of `comments`; `deletedAt` is null until the comment is deleted. */
  datatype CommentRow = CommentRow(id: string, threadId: string, content: string, commentId: Option<string>,
                                   owner: string, date: Instant, deletedAt: Option<Instant>)

  /** What `getCommentById` selects: the row's id, date, content and owner, and the owner's username. */
  datatype CommentById = CommentById(id: string, date: Instant, content: string, owner: string,
                                     username: Option<string>)

  predicate IdTaken(rows: seq<CommentRow>, id: string)
  {
    exists i :: 0 <= i < |rows| && rows[i].id == id
  }

  predicate UniqueIds(rows: seq<CommentRow>)
  {
    forall i, j :: 0 <= i < j < |rows| ==> rows[i].id != rows[j].id
  }

  /** `LEFT JOIN users ON users.id = comments.owner`: null when the owner has no user row. */
  function Username(users: map<string, string>, owner: string): (name: Option<string>)
    ensures name.Some? <==> owner in users
    ensures name.Some? ==> name.value == users[owner]
  {
    if owner in users then Some(users[owner]) else None
  }

  /** The first row with that id that is not deleted: `WHERE deleted_at IS NULL AND id = $1`. */
  function LiveRow(rows: seq<CommentRow>, id: string): (r: Option<CommentRow>)
    ensures r.None? <==> !exists i :: 0 <= i < |rows| && rows[i].id == id && rows[i].deletedAt.None?
    ensures r.Some? ==> r.value in rows && r.value.id == id && r.value.deletedAt.None?
  {
    if rows == [] then None
    else if rows[0].id == id && rows[0].deletedAt.None? then Some(rows[0])
    else
      assert forall i :: 1 <= i < |rows| ==> rows[i] == rows[1..][i - 1];
      LiveRow(rows[1..], id)
  }

  /** The rows of one thread, deleted or not, in storage order. */
  function ThreadRows(rows: seq<CommentRow>, threadId: string): (r: seq<CommentRow>)
    ensures forall row :: row in r <==> row in rows && row.threadId == threadId
    ensures |r| <= |rows|
  {
    if rows == [] then []
    else
      var rest := ThreadRows(rows[1..], threadId);
      assert forall i :: 1 <= i < |rows| ==> rows[i] == rows[1..][i - 1];
      if rows[0].threadId == threadId then [rows[0]] + rest else rest
  }

  /** One line of the listing: `CASE WHEN deleted_at IS NULL THEN content ELSE '**komentar telah dihapus**' END`. */
  function View(row: CommentRow, users: map<string, string>): (v: Repositories.CommentView)
    ensures v.id == row.id && v.date == row.date && v.username == Username(users, row.owner)
    ensures row.deletedAt.None? ==> v.content == row.content
    ensures row.deletedAt.Some? ==> v.content == DeletedCommentContent
  {
    Repositories.CommentView(row.id, Username(users, row.owner), row.date,
                             if row.deletedAt.None? then row.content else DeletedCommentContent)
  }

  /** The table after `UPDATE comments SET deleted_at = NOW() WHERE id = $1`. */
  function SoftDelete(rows: seq<CommentRow>, id: string, now: Instant): (r: seq<CommentRow>)
    ensures |r| == |rows|
    ensures forall i :: 0 <= i < |rows| && rows[i].id == id ==> r[i] == rows[i].(deletedAt := Some(now))
    ensures forall i :: 0 <= i < |rows| && rows[i].id != id ==> r[i] == rows[i]
  {
    if rows == [] then []
    else
      var first := if rows[0].id == id then rows[0].(deletedAt := Some(now)) else rows[0];
      var rest := SoftDelete(rows[1..], id, now);
      assert forall i :: 1 <= i < |rows| ==> rows[i] == rows[1..][i - 1];
      [first] + rest
  }

  /** The object `RETURNING id, content, owner` hands to `new AddedComment({ ...row })`. */
  function ReturnedAsWritten(row: CommentRow): (p: Payload)
    ensures Get(p, "id") == Str(row.id) && Get(p, "content") == Str(row.content)
    ensures Get(p, "owner") == Str(row.owner)
    ensures Get(p, "threadId") == Undef && Get(p, "commentId") == Undef
  {
    map["id" := Str(row.id), "content" := Str(row.content), "owner" := Str(row.owner)]
  }

  /** The object returning all five columns the entity needs would hand it. */
  function ReturnedInFull(row: CommentRow): (p: Payload)
    ensures Get(p, "id") == Str(row.id) && Get(p, "threadId") == Str(row.threadId)
    ensures Get(p, "content") == Str(row.content) && Get(p, "owner") == Str(row.owner)
    ensures Get(p, "commentId") == (if row.commentId.Some? then Str(row.commentId.value) else Null)
  {
    map["id" := Str(row.id), "threadId" := Str(row.threadId), "content" := Str(row.content),
        "commentId" := (if row.commentId.Some? then Str(row.commentId.value) else Null),
        "owner" := Str(row.owner)]
  }

  /** Whatever row was stored, the three returned columns never build an `AddedComment`: `threadId` is missing. */
  lemma AsWrittenReturnRejected(row: CommentRow)
    ensures NewAddedComment(ReturnedAsWritten(row)) == Failure(Raise(AddedCommentMissingProperty))
  {
    assert !Truthy(Get(ReturnedAsWritten(row), "threadId"));
  }

  /** With all five columns returned, a row with filled text fields builds the `AddedComment` that was stored. */
  lemma FullReturnRebuildsComment(row: CommentRow)
    requires row.id != [] && row.threadId != [] && row.content != [] && row.owner != []
    ensures NewAddedComment(ReturnedInFull(row))
            == Success(AddedComment(row.id, row.threadId, row.content, row.commentId, row.owner))
  {
    var r := NewAddedComment(ReturnedInFull(row));
    assert r.Success?;
    assert r.value.commentId == row.commentId;
  }

  /**
   * A deleted comment disappears from the lookup by id but stays in its
   * thread's listing, with its content masked and everything else as it was.
   */
  lemma DeletedHiddenButListed(rows: seq<CommentRow>, id: string, now: Instant, users: map<string, string>)
    ensures LiveRow(SoftDelete(rows, id, now), id).None?
    ensures forall row :: row in rows && row.id == id ==>
      && row.(deletedAt := Some(now)) in ThreadRows(SoftDelete(rows, id, now), row.threadId)
      && View(row.(deletedAt := Some(now)), users)
         == Repositories.CommentView(row.id, Username(users, row.owner), row.date, DeletedCommentContent)
  {
    var deleted := SoftDelete(rows, id, now);
    forall row | row in rows && row.id == id
      ensures row.(deletedAt := Some(now)) in ThreadRows(deleted, row.threadId)
    {
      var i :| 0 <= i < |rows| && rows[i] == row;
      assert deleted[i] == row.(deletedAt := Some(now));
    }
  }

  /** Deleting twice leaves the comment deleted (stamped with the second time) and every other row as it was. */
  lemma DeleteStaysDeleted(rows: seq<CommentRow>, id: string, first: Instant, second: Instant)
    ensures var twice := SoftDelete(SoftDelete(rows, id, first), id, second);
      && |twice| == |rows|
      && forall i :: 0 <= i < |rows| ==>
           if rows[i].id == id then twice[i] == rows[i].(deletedAt := Some(second)) else twice[i] == rows[i]
  {
    var once := SoftDelete(rows, id, first);
    assert forall i :: 0 <= i < |rows| ==> once[i].id == rows[i].id;
  }

  /** `CommentRepositoryPostgres`: the comments table behind a connection pool. */
  class CommentRepositoryPostgres {
    var rows: seq<CommentRow>

    /** The primary key holds. */
    predicate Valid()
      reads this
    {
      UniqueIds(rows)
    }

    constructor(initial: seq<CommentRow>)
      requires UniqueIds(initial)
      ensures Valid() && rows == initial
    {
      rows := initial;
    }

    /** Insert the comment as a live row with id `'comment-' + generated`; a taken id makes the database reject it. */
    method Insert(comment: AddComment, generated: string, now: Instant) returns (r: Result<CommentRow, Error>)
      requires Valid()
      modifies this
      ensures Valid()
      ensures IdTaken(old(rows), "comment-" + generated) ==> rows == old(rows) && r == Failure(DuplicateKey)
      ensures !IdTaken(old(rows), "comment-" + generated) ==>
        && r == Success(CommentRow("comment-" + generated, comment.threadId, comment.content, comment.commentId,
                                   comment.owner, now, None))
        && rows == old(rows) + [r.value]
    {
      var id := "comment-" + generated;
      if IdTaken(rows, id) {
        return Failure(DuplicateKey);
      }
      var row := CommentRow(id, comment.threadId, comment.content, comment.commentId, comment.owner, now, None);
      rows := rows + [row];
      r := Success(row);
    }

    /**
     * `addComment` as written: the insert returns only `id`, `content` and
     * `owner`, so `AddedComment` finds no `threadId` and throws after the row
     * has been stored.
     */
    method AddCommentAsWritten(comment: AddComment, generated: string, now: Instant)
      returns (r: Result<AddedComment, Error>)
      requires Valid()
      modifies this
      ensures Valid()
      ensures !IdTaken(old(rows), "comment-" + generated) ==>
        && rows == old(rows) + [CommentRow("comment-" + generated, comment.threadId, comment.content,
                                           comment.commentId, comment.owner, now, None)]
        && r == Failure(Raise(AddedCommentMissingProperty))
      ensures IdTaken(old(rows), "comment-" + generated) ==> rows == old(rows) && r == Failure(DuplicateKey)
    {
      var inserted := Insert(comment, generated, now);
      match inserted
      case Failure(e) => r := Failure(e);
      case Success(row) =>
        AsWrittenReturnRejected(row);
        r := NewAddedComment(ReturnedAsWritten(row));
    }

    /**
     * `addComment` returning every column `AddedComment` needs: the stored
     * comment comes back field for field.
     */
    method AddComment(comment: AddComment, generated: string, now: Instant)
      returns (r: Result<AddedComment, Error>)
      requires Valid()
      modifies this
      ensures Valid()
      ensures IdTaken(old(rows), "comment-" + generated) ==> rows == old(rows) && r == Failure(DuplicateKey)
      ensures !IdTaken(old(rows), "comment-" + generated) ==>
        && rows == old(rows) + [CommentRow("comment-" + generated, comment.threadId, comment.content,
                                           comment.commentId, comment.owner, now, None)]
        && LiveRow(rows, "comment-" + generated).Some?
        && (comment.threadId != [] && comment.content != [] && comment.owner != [] ==>
              r == Success(CommentEntities.AddedComment("comment-" + generated, comment.threadId, comment.content,
                                                        comment.commentId, comment.owner)))
    {
      var inserted := Insert(comment, generated, now);
      match inserted
      case Failure(e) => r := Failure(e);
      case Success(row) =>
        assert rows[|rows| - 1] == row;
        if row.threadId != [] && row.content != [] && row.owner != [] {
          FullReturnRebuildsComment(row);
        }
        r := NewAddedComment(ReturnedInFull(row));
    }

    /** `getCommentById`: the live comment with that id and its owner's username; nothing when it is missing or deleted. */
    function GetCommentById(id: string, users: map<string, string>): (r: Option<CommentById>)
      reads this
      ensures r.None? <==> !exists i :: 0 <= i < |rows| && rows[i].id == id && rows[i].deletedAt.None?
      ensures r.Some? ==>
        exists row :: row in rows && row.id == id && row.deletedAt.None?
          && r.value == CommentById(id, row.date, row.content, row.owner, Username(users, row.owner))
    {
      match LiveRow(rows, id)
      case None => None
      case Some(row) => Some(CommentById(row.id, row.date, row.content, row.owner, Username(users, row.owner)))
    }

    /** `getCommentsByThread`: every comment of the thread, deleted ones with their content masked. */
    function GetCommentsByThread(threadId: string, users: map<string, string>): (r: seq<Repositories.CommentView>)
      reads this
      ensures |r| == |ThreadRows(rows, threadId)|
      ensures forall i :: 0 <= i < |r| ==> r[i] == View(ThreadRows(rows, threadId)[i], users)
      ensures forall row :: row in rows && row.threadId == threadId ==> View(row, users) in r
      ensures forall v :: v in r ==> exists row :: row in rows && row.threadId == threadId && v == View(row, users)
    {
      var listed := ThreadRows(rows, threadId);
      var r := seq(|listed|, i requires 0 <= i < |listed| => View(listed[i], users));
      assert forall row :: row in listed ==> exists i :: 0 <= i < |listed| && listed[i] == row && r[i] == View(row, users);
      r
    }

    /** `deleteCommentById`: stamp the rows with that id as deleted at `now`; no row is removed. */
    method DeleteCommentById(id: string, now: Instant)
      requires Valid()
      modifies this
      ensures Valid()
      ensures rows == SoftDelete(old(rows), id, now)
      ensures LiveRow(rows, id).None?
    {
      DeletedHiddenButListed(rows, id, now, map[]);
      rows := SoftDelete(rows, id, now);
      assert UniqueIds(old(rows));
    }
  }
}

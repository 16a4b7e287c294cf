/**
 * The replies table and the repository that writes it, held in memory as a
 * sequence of rows. The class is declared under the name
 * `LikeRepositoryPostgres` in its source file and exported as the reply
 * repository; it is called `ReplyRepositoryPostgres` here. It overrides only
 * `addReply` and `findByComment`: the other methods of the reply repository
 * interface keep their inherited bodies, which throw.
 */
module ReplyRepositoryPostgres {
  import opened Prelude
  import opened JsValues
  import opened Errors
  import opened ReplyEntities

  /** A row of `replies`; `createdAt` is the column default and `deletedAt` is null until deleted. */
  datatype ReplyRow = ReplyRow(id: string, content: string, commentId: string, userId: string,
                               createdAt: Instant, deletedAt: Option<Instant>)

  /** What every method the class does not override throws. */
  const NotImplemented := "REPLY_REPOSITORY.METHOD_NOT_IMPLEMENTED"

  predicate IdTaken(rows: seq<ReplyRow>, id: string)
  {
    exists i :: 0 <= i < |rows| && rows[i].id == id
  }

  predicate UniqueIds(rows: seq<ReplyRow>)
  {
    forall i, j :: 0 <= i < j < |rows| ==> rows[i].id != rows[j].id
  }

  /** `WHERE a.comment_id = $1 AND a.user_id = $2`, in storage order. */
  function ByCommentAndUser(rows: seq<ReplyRow>, commentId: string, userId: string): (r: seq<ReplyRow>)
    ensures forall row :: row in r <==> row in rows && row.commentId == commentId && row.userId == userId
    ensures |r| <= |rows|
  {
    if rows == [] then []
    else
      var rest := ByCommentAndUser(rows[1..], commentId, userId);
      assert forall i :: 1 <= i < |rows| ==> rows[i] == rows[1..][i - 1];
      if rows[0].commentId == commentId && rows[0].userId == userId then [rows[0]] + rest else rest
  }

  /** The fields one row hands to `new Reply`: the author's username and whether the reply is deleted. */
  function Listed(row: ReplyRow, users: map<string, string>): (f: ReplyFields)
    ensures f.id == row.id && f.content == row.content && f.date == row.createdAt
    ensures f.isDeleted <==> row.deletedAt.Some?
    ensures f.username.Some? <==> row.userId in users
    ensures f.username.Some? ==> f.username.value == users[row.userId]
  {
    ReplyFields(row.id, row.content, row.createdAt,
                if row.userId in users then Some(users[row.userId]) else None, row.deletedAt.Some?)
  }

  /** `ReplyRepositoryPostgres`: the replies table behind a connection pool. */
  class ReplyRepositoryPostgres {
    var rows: seq<ReplyRow>

    /** The primary key holds. */
    predicate Valid()
      reads this
    {
      UniqueIds(rows)
    }

    constructor(initial: seq<ReplyRow>)
      requires UniqueIds(initial)
      ensures Valid() && rows == initial
    {
      rows := initial;
    }

    /**
     * `addReply`: insert a live reply with id `'reply-' + generated` and
     * return its id, content and author, the author as `owner`; a taken id
     * makes the database reject the insert.
     */
    method AddReply(commentId: string, content: string, userId: string, generated: string, now: Instant)
      returns (r: Result<AddedReply, Error>)
      requires Valid()
      modifies this
      ensures Valid()
      ensures IdTaken(old(rows), "reply-" + generated) ==> rows == old(rows) && r == Failure(DuplicateKey)
      ensures !IdTaken(old(rows), "reply-" + generated) ==>
        && rows == old(rows) + [ReplyRow("reply-" + generated, content, commentId, userId, now, None)]
        && r == Success(AddedReply("reply-" + generated, content, userId))
    {
      var id := "reply-" + generated;
      if IdTaken(rows, id) {
        return Failure(DuplicateKey);
      }
      var row := ReplyRow(id, content, commentId, userId, now, None);
      rows := rows + [row];
      r := Success(AddedReply(row.id, row.content, row.userId));
    }

    /**
     * `findByComment`: one reply per row of that comment written by that
     * user, in storage order, each marked deleted exactly when its row is.
     */
    function FindByComment(commentId: string, userId: string, users: map<string, string>): (r: seq<ReplyFields>)
      reads this
      ensures |r| == |ByCommentAndUser(rows, commentId, userId)|
      ensures forall i :: 0 <= i < |r| ==> r[i] == Listed(ByCommentAndUser(rows, commentId, userId)[i], users)
      ensures forall row :: row in rows && row.commentId == commentId && row.userId == userId ==>
        Listed(row, users) in r
    {
      var found := ByCommentAndUser(rows, commentId, userId);
      var r := seq(|found|, i requires 0 <= i < |found| => Listed(found[i], users));
      assert forall row :: row in found ==> exists i :: 0 <= i < |found| && found[i] == row && r[i] == Listed(row, users);
      r
    }

    /** A reply another user wrote is never listed, and a reply is listed as deleted only if its row is. */
    lemma OnlyOwnRepliesListed(commentId: string, userId: string, users: map<string, string>)
      ensures forall f :: f in FindByComment(commentId, userId, users) ==>
        exists row :: row in rows && row.commentId == commentId && row.userId == userId && f == Listed(row, users)
    {
      var found := ByCommentAndUser(rows, commentId, userId);
      var listed := FindByComment(commentId, userId, users);
      forall f | f in listed
        ensures exists row :: row in rows && row.commentId == commentId && row.userId == userId && f == Listed(row, users)
      {
        var i :| 0 <= i < |listed| && listed[i] == f;
        assert found[i] in found;
      }
    }

    /** `deleteReply` is inherited from the interface and throws. */
    method DeleteReply(payload: Payload) returns (c: Check)
      ensures c == Fail(Raise(NotImplemented))
    {
      c := Fail(Raise(NotImplemented));
    }

    /** `verifyReplyAvailability` is inherited from the interface and throws. */
    method VerifyReplyAvailability(id: JsValue) returns (c: Check)
      ensures c == Fail(Raise(NotImplemented))
    {
      c := Fail(Raise(NotImplemented));
    }

    /** `verifyReplyOwner` is inherited from the interface and throws. */
    method VerifyReplyOwner(payload: Payload) returns (c: Check)
      ensures c == Fail(Raise(NotImplemented))
    {
      c := Fail(Raise(NotImplemented));
    }
  }
}

/**
 * The reply repository wired into the reply-deletion use case: its
 * availability check throws, so a valid deletion request never reaches the
 * delete and always fails with that error.
 */
module ReplyDeletionWiring {
  import opened Prelude
  import opened JsValues
  import opened Errors
  import opened Repositories
  import ReplyRepositoryPostgres
  import DeleteReplyUseCase

  lemma ValidDeletionAlwaysFails(repos: Repositories, p: Payload)
    requires forall id :: repos.verifyReplyAvailability(id) == Fail(Raise(ReplyRepositoryPostgres.NotImplemented))
    requires DeleteReplyUseCase.ValidatePayload(p) == Pass
    ensures Calls(DeleteReplyUseCase.Execute(repos, p).trace) == [VerifyReplyAvailability(Get(p, "id"))]
    ensures DeleteReplyUseCase.Execute(repos, p).result == Failure(Raise(ReplyRepositoryPostgres.NotImplemented))
  {
    var plan := DeleteReplyUseCase.Plan(p);
    assert Answer(repos, plan[0]) == Some(Raise(ReplyRepositoryPostgres.NotImplemented));
    assert PerformInOrder(repos, plan) == [Perform(repos, plan[0])];
  }
}

/**
 * The comment entities: `Comment` (a comment as a thread listing shows it),
 * `AddComment` (a request to post one) and `AddedComment` (what posting
 * returns). Each constructor checks presence first, then types, then copies
 * the fields it knows and nothing else.
 */
module CommentEntities {
  import opened Prelude
  import opened JsValues
  import opened Errors

  /** What a deleted comment shows in place of its content. */
  const DeletedCommentContent := "**komentar telah dihapus**"

  const CommentMissingProperty := "COMMENT.NOT_CONTAIN_NEEDED_PROPERTY"
  const CommentWrongType := "COMMENT.NOT_MEET_DATA_TYPE_SPECIFICATION"
  const AddedCommentMissingProperty := "ADDED_COMMENT.NOT_CONTAIN_NEEDED_PROPERTY"
  const AddedCommentWrongType := "ADDED_COMMENT.NOT_MEET_DATA_TYPE_SPECIFICATION"
  const AddCommentMissingProperty := "ADD_COMMENT.NOT_CONTAIN_NEEDED_PROPERTY"
  const AddCommentWrongType := "ADD_COMMENT.NOT_MEET_DATA_TYPE_SPECIFICATION"

  datatype Comment = Comment(id: string, content: string, date: Instant, username: string,
                             likeCount: int, replies: JsValue)

  /** `commentId` is either `null` (None) or a string. */
  datatype AddedComment = AddedComment(id: string, threadId: string, content: string,
                                       commentId: Option<string>, owner: string)

  datatype AddComment = AddComment(threadId: string, content: string, commentId: Option<string>,
                                   owner: string)

  /** A value that is `null` or a string: the one field allowed to be null. */
  predicate NullOrString(v: JsValue)
  {
    v == Null || v.Str?
  }

  /** The parent reference a `NullOrString` value denotes. */
  function ParentOf(v: JsValue): (r: Option<string>)
    requires NullOrString(v)
    ensures r.None? <==> v == Null
    ensures r.Some? ==> v == Str(r.value)
  {
    if v.Str? then Some(v.s) else None
  }

  // ---------------------------------------------------------------- Comment

  /** The presence test of `Comment`: falsy text or date fields, undefined flag or count. */
  predicate CommentLacksProperty(p: Payload)
  {
    || !Truthy(Get(p, "id")) || !Truthy(Get(p, "content")) || !Truthy(Get(p, "date"))
    || !Truthy(Get(p, "username")) || Get(p, "isDeleted") == Undef || Get(p, "likeCount") == Undef
  }

  /** `new Comment(payload)` */
  function NewComment(p: Payload): (r: Result<Comment, Error>)
    // accepted exactly when every field has its one admissible shape
    ensures r.Success? <==>
      && FilledString(Get(p, "id")) && FilledString(Get(p, "content")) && IsDate(Get(p, "date"))
      && FilledString(Get(p, "username")) && IsBoolean(Get(p, "isDeleted"))
      && IsNumber(Get(p, "likeCount"))
    // a missing property is reported even when some other field has the wrong type
    ensures CommentLacksProperty(p) ==> r == Failure(Raise(CommentMissingProperty))
    ensures r.Failure? && !CommentLacksProperty(p) ==> r.error == Raise(CommentWrongType)
    // a deleted comment is masked; any other keeps its content
    ensures r.Success? ==>
      r.value.content == if Get(p, "isDeleted") == Bool(true) then DeletedCommentContent
                         else Get(p, "content").s
    // the other fields pass through whatever isDeleted is
    ensures r.Success? ==>
      && Get(p, "id") == Str(r.value.id) && Get(p, "date") == DateV(r.value.date)
      && Get(p, "username") == Str(r.value.username) && Get(p, "likeCount") == Num(r.value.likeCount)
    ensures r.Success? ==>
      r.value.replies == if Truthy(Get(p, "replies")) then Get(p, "replies") else Arr([])
  {
    var id, content, date, username := Get(p, "id"), Get(p, "content"), Get(p, "date"), Get(p, "username");
    var isDeleted, likeCount, replies := Get(p, "isDeleted"), Get(p, "likeCount"), Get(p, "replies");
    if !Truthy(id) || !Truthy(content) || !Truthy(date) || !Truthy(username)
       || isDeleted == Undef || likeCount == Undef then
      Failure(Raise(CommentMissingProperty))
    else if !IsString(id) || !IsString(content) || !IsDate(date) || !IsString(username)
            || !IsBoolean(isDeleted) || !IsNumber(likeCount) then
      Failure(Raise(CommentWrongType))
    else
      Success(Comment(id.s, if Truthy(isDeleted) then DeletedCommentContent else content.s,
                      date.t, username.s, likeCount.n, if Truthy(replies) then replies else Arr([])))
  }

  // ----------------------------------------------------------- AddedComment

  /** The presence test of `AddedComment`; `commentId` takes no part in it. */
  predicate AddedCommentLacksProperty(p: Payload)
  {
    !Truthy(Get(p, "id")) || !Truthy(Get(p, "threadId")) || !Truthy(Get(p, "content"))
    || !Truthy(Get(p, "owner"))
  }

  /** `new AddedComment(payload)` */
  function NewAddedComment(p: Payload): (r: Result<AddedComment, Error>)
    // an undefined commentId passes the presence test but not the type test
    ensures r.Success? <==>
      && FilledString(Get(p, "id")) && FilledString(Get(p, "threadId"))
      && FilledString(Get(p, "content")) && FilledString(Get(p, "owner"))
      && NullOrString(Get(p, "commentId"))
    ensures AddedCommentLacksProperty(p) ==> r == Failure(Raise(AddedCommentMissingProperty))
    ensures r.Failure? && !AddedCommentLacksProperty(p) ==> r.error == Raise(AddedCommentWrongType)
    // exactly the five fields, unchanged
    ensures r.Success? ==>
      && Get(p, "id") == Str(r.value.id) && Get(p, "threadId") == Str(r.value.threadId)
      && Get(p, "content") == Str(r.value.content) && Get(p, "owner") == Str(r.value.owner)
      && Get(p, "commentId") == (if r.value.commentId.Some? then Str(r.value.commentId.value) else Null)
  {
    var id, threadId, content := Get(p, "id"), Get(p, "threadId"), Get(p, "content");
    var commentId, owner := Get(p, "commentId"), Get(p, "owner");
    if !Truthy(id) || !Truthy(threadId) || !Truthy(content) || !Truthy(owner) then
      Failure(Raise(AddedCommentMissingProperty))
    else if !IsString(id) || !IsString(threadId) || !IsString(content) || !IsString(owner)
            || (commentId != Null && !IsString(commentId)) then
      Failure(Raise(AddedCommentWrongType))
    else
      Success(AddedComment(id.s, threadId.s, content.s, ParentOf(commentId), owner.s))
  }

  // ------------------------------------------------------------- AddComment

  /** The presence test of `AddComment`: `commentId` must be defined, but may be null. */
  predicate AddCommentLacksProperty(p: Payload)
  {
    !Truthy(Get(p, "threadId")) || !Truthy(Get(p, "content")) || !Truthy(Get(p, "owner"))
    || Get(p, "commentId") == Undef
  }

  /** `new AddComment(payload)` */
  function NewAddComment(p: Payload): (r: Result<AddComment, Error>)
    ensures r.Success? <==>
      && FilledString(Get(p, "threadId")) && FilledString(Get(p, "content"))
      && FilledString(Get(p, "owner")) && NullOrString(Get(p, "commentId"))
    ensures AddCommentLacksProperty(p) ==> r == Failure(Raise(AddCommentMissingProperty))
    ensures r.Failure? && !AddCommentLacksProperty(p) ==> r.error == Raise(AddCommentWrongType)
    // the four known fields, unchanged; anything else in the payload is dropped
    ensures r.Success? ==>
      && Get(p, "threadId") == Str(r.value.threadId) && Get(p, "content") == Str(r.value.content)
      && Get(p, "owner") == Str(r.value.owner)
      && Get(p, "commentId") == (if r.value.commentId.Some? then Str(r.value.commentId.value) else Null)
  {
    var threadId, content := Get(p, "threadId"), Get(p, "content");
    var commentId, owner := Get(p, "commentId"), Get(p, "owner");
    if !Truthy(threadId) || !Truthy(content) || !Truthy(owner) || commentId == Undef then
      Failure(Raise(AddCommentMissingProperty))
    else if !IsString(threadId) || !IsString(content) || !IsString(owner)
            || (commentId != Null && !IsString(commentId)) then
      Failure(Raise(AddCommentWrongType))
    else
      Success(AddComment(threadId.s, content.s, ParentOf(commentId), owner.s))
  }

  /** Keys other than the four `AddComment` reads (an `id`, say) do not affect the entity. */
  lemma AddCommentDropsUnknownFields(p: Payload, key: string, v: JsValue)
    requires key !in {"threadId", "content", "commentId", "owner"}
    ensures NewAddComment(p[key := v]) == NewAddComment(p)
  {
    assert forall k :: k != key ==> Get(p[key := v], k) == Get(p, k);
  }

  /** `isDeleted: false` and `likeCount: 0` are present values although they are falsy. */
  lemma CommentAcceptsFalsyFlagAndCount(p: Payload)
    requires FilledString(Get(p, "id")) && FilledString(Get(p, "content"))
    requires IsDate(Get(p, "date")) && FilledString(Get(p, "username"))
    requires Get(p, "isDeleted") == Bool(false) && Get(p, "likeCount") == Num(0)
    ensures NewComment(p).Success? && NewComment(p).value.content == Get(p, "content").s
    ensures NewComment(p).value.likeCount == 0
  {
  }
}

/**
 * The like entities: `Like` (a like row as the application sees it),
 * `UpdatedLike` (what an update returns) and `UpdateLike` (a request to
 * update one). They differ only in how they test `isLiked` for presence.
 */
module LikeEntities {
  import opened Prelude
  import opened JsValues
  import opened Errors

  const LikeMissingProperty := "LIKE.NOT_CONTAIN_NEEDED_PROPERTY"
  const LikeWrongType := "LIKE.NOT_MEET_DATA_TYPE_SPECIFICATION"
  const UpdatedLikeMissingProperty := "UPDATED_LIKE.NOT_CONTAIN_NEEDED_PROPERTY"
  const UpdatedLikeWrongType := "UPDATED_LIKE.NOT_MEET_DATA_TYPE_SPECIFICATION"
  const UpdateLikeMissingProperty := "UPDATE_LIKE.NOT_CONTAIN_NEEDED_PROPERTY"
  const UpdateLikeWrongType := "UPDATE_LIKE.NOT_MEET_DATA_TYPE_SPECIFICATION"

  datatype Like = Like(id: string, commentId: string, userId: string, isLiked: bool, updatedAt: string)

  datatype UpdatedLike = UpdatedLike(id: string, commentId: string, userId: string, isLiked: bool,
                                     updatedAt: string)

  datatype UpdateLike = UpdateLike(id: string, commentId: string, userId: string, isLiked: bool)

  /** The four text fields of a like row and its flag, all well formed. */
  predicate WellFormedLike(p: Payload)
  {
    && FilledString(Get(p, "id")) && FilledString(Get(p, "commentId"))
    && FilledString(Get(p, "userId")) && FilledString(Get(p, "updatedAt"))
    && IsBoolean(Get(p, "isLiked"))
  }

  // ------------------------------------------------------------------- Like

  /** The presence test of `Like`: `typeof isLiked === 'undefined'`, so `false` is present. */
  predicate LikeLacksProperty(p: Payload)
  {
    || !Truthy(Get(p, "id")) || !Truthy(Get(p, "commentId")) || !Truthy(Get(p, "userId"))
    || !Truthy(Get(p, "updatedAt")) || Get(p, "isLiked") == Undef
  }

  /** `new Like(payload)` */
  function NewLike(p: Payload): (r: Result<Like, Error>)
    ensures r.Success? <==> WellFormedLike(p)
    ensures LikeLacksProperty(p) ==> r == Failure(Raise(LikeMissingProperty))
    ensures r.Failure? && !LikeLacksProperty(p) ==> r.error == Raise(LikeWrongType)
    ensures r.Success? ==>
      && Get(p, "id") == Str(r.value.id) && Get(p, "commentId") == Str(r.value.commentId)
      && Get(p, "userId") == Str(r.value.userId) && Get(p, "isLiked") == Bool(r.value.isLiked)
      && Get(p, "updatedAt") == Str(r.value.updatedAt)
  {
    var id, commentId, userId := Get(p, "id"), Get(p, "commentId"), Get(p, "userId");
    var isLiked, updatedAt := Get(p, "isLiked"), Get(p, "updatedAt");
    if !Truthy(id) || !Truthy(commentId) || !Truthy(userId) || !Truthy(updatedAt) || isLiked == Undef then
      Failure(Raise(LikeMissingProperty))
    else if !IsString(id) || !IsString(commentId) || !IsString(userId) || !IsBoolean(isLiked)
            || !IsString(updatedAt) then
      Failure(Raise(LikeWrongType))
    else
      Success(Like(id.s, commentId.s, userId.s, isLiked.b, updatedAt.s))
  }

  // ------------------------------------------------------------ UpdatedLike

  /** The presence test of `UpdatedLike`: only `isLiked === null` counts as missing. */
  predicate UpdatedLikeLacksProperty(p: Payload)
  {
    || !Truthy(Get(p, "id")) || !Truthy(Get(p, "commentId")) || !Truthy(Get(p, "userId"))
    || !Truthy(Get(p, "updatedAt")) || Get(p, "isLiked") == Null
  }

  /** `new UpdatedLike(payload)` */
  function NewUpdatedLike(p: Payload): (r: Result<UpdatedLike, Error>)
    ensures r.Success? <==> WellFormedLike(p)
    ensures UpdatedLikeLacksProperty(p) ==> r == Failure(Raise(UpdatedLikeMissingProperty))
    ensures r.Failure? && !UpdatedLikeLacksProperty(p) ==> r.error == Raise(UpdatedLikeWrongType)
    ensures r.Success? ==>
      && Get(p, "id") == Str(r.value.id) && Get(p, "commentId") == Str(r.value.commentId)
      && Get(p, "userId") == Str(r.value.userId) && Get(p, "isLiked") == Bool(r.value.isLiked)
      && Get(p, "updatedAt") == Str(r.value.updatedAt)
  {
    var id, commentId, userId := Get(p, "id"), Get(p, "commentId"), Get(p, "userId");
    var isLiked, updatedAt := Get(p, "isLiked"), Get(p, "updatedAt");
    if !Truthy(id) || !Truthy(commentId) || !Truthy(userId) || !Truthy(updatedAt) || isLiked == Null then
      Failure(Raise(UpdatedLikeMissingProperty))
    else if !IsString(id) || !IsString(commentId) || !IsString(userId) || !IsBoolean(isLiked)
            || !IsString(updatedAt) then
      Failure(Raise(UpdatedLikeWrongType))
    else
      Success(UpdatedLike(id.s, commentId.s, userId.s, isLiked.b, updatedAt.s))
  }

  /**
   * With every text field filled, an undefined `isLiked` is a missing property
   * for `Like` but a wrong type for `UpdatedLike`; a null one the other way round.
   */
  lemma IsLikedPresenceDiffers(p: Payload)
    requires FilledString(Get(p, "id")) && FilledString(Get(p, "commentId"))
    requires FilledString(Get(p, "userId")) && FilledString(Get(p, "updatedAt"))
    ensures Get(p, "isLiked") == Undef ==>
      NewLike(p) == Failure(Raise(LikeMissingProperty))
      && NewUpdatedLike(p) == Failure(Raise(UpdatedLikeWrongType))
    ensures Get(p, "isLiked") == Null ==>
      NewLike(p) == Failure(Raise(LikeWrongType))
      && NewUpdatedLike(p) == Failure(Raise(UpdatedLikeMissingProperty))
  {
  }

  // ------------------------------------------------------------- UpdateLike

  /** The presence test of `UpdateLike`: `isLiked === null`, so `false` is present. */
  predicate UpdateLikeLacksProperty(p: Payload)
  {
    !Truthy(Get(p, "id")) || !Truthy(Get(p, "commentId")) || !Truthy(Get(p, "userId"))
    || Get(p, "isLiked") == Null
  }

  /** `new UpdateLike(payload)` */
  function NewUpdateLike(p: Payload): (r: Result<UpdateLike, Error>)
    ensures r.Success? <==>
      && FilledString(Get(p, "id")) && FilledString(Get(p, "commentId"))
      && FilledString(Get(p, "userId")) && IsBoolean(Get(p, "isLiked"))
    ensures UpdateLikeLacksProperty(p) ==> r == Failure(Raise(UpdateLikeMissingProperty))
    ensures r.Failure? && !UpdateLikeLacksProperty(p) ==> r.error == Raise(UpdateLikeWrongType)
    ensures r.Success? ==>
      && Get(p, "id") == Str(r.value.id) && Get(p, "commentId") == Str(r.value.commentId)
      && Get(p, "userId") == Str(r.value.userId) && Get(p, "isLiked") == Bool(r.value.isLiked)
  {
    var id, commentId, userId, isLiked := Get(p, "id"), Get(p, "commentId"), Get(p, "userId"), Get(p, "isLiked");
    if !Truthy(id) || !Truthy(commentId) || !Truthy(userId) || isLiked == Null then
      Failure(Raise(UpdateLikeMissingProperty))
    else if !IsString(id) || !IsString(commentId) || !IsString(userId) || !IsBoolean(isLiked) then
      Failure(Raise(UpdateLikeWrongType))
    else
      Success(UpdateLike(id.s, commentId.s, userId.s, isLiked.b))
  }
}

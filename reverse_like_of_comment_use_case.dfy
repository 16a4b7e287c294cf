/** Toggling a like: validate, check the thread, check the comment, then reverse the like. */
module ReverseLikeOfCommentUseCase {
  import opened Prelude
  import opened JsValues
  import opened Errors
  import opened Repositories
  import LikeEntities

  const MissingProperty := "REVERSE_LIKE_OF_COMMENT_USE_CASE.NOT_CONTAIN_NEEDED_PROPERTY"
  const WrongType := "REVERSE_LIKE_OF_COMMENT_USE_CASE.NOT_MEET_DATA_TYPE_SPECIFICATION"

  predicate LacksProperty(p: Payload)
  {
    !Truthy(Get(p, "threadId")) || !Truthy(Get(p, "commentId")) || !Truthy(Get(p, "userId"))
  }

  /** `_validatePayload` */
  function ValidatePayload(p: Payload): (c: Check)
    ensures c == Pass <==>
      FilledString(Get(p, "threadId")) && FilledString(Get(p, "commentId")) && FilledString(Get(p, "userId"))
    ensures LacksProperty(p) ==> c == Fail(Raise(MissingProperty))
    ensures c.Fail? && !LacksProperty(p) ==> c == Fail(Raise(WrongType))
  {
    var threadId, commentId, userId := Get(p, "threadId"), Get(p, "commentId"), Get(p, "userId");
    if !Truthy(threadId) || !Truthy(commentId) || !Truthy(userId) then Fail(Raise(MissingProperty))
    else if !IsString(threadId) || !IsString(commentId) || !IsString(userId) then Fail(Raise(WrongType))
    else Pass
  }

  function Plan(p: Payload): seq<Call>
  {
    [VerifyThreadAvailability(Get(p, "threadId")), VerifyCommentAvailability(Get(p, "commentId")),
     Reverse(p)]
  }

  /** `execute` */
  function Execute(repos: Repositories, p: Payload): (run: Run<LikeEntities.Like>)
    ensures Disciplined(repos, run)
    ensures Calls(run.trace) <= Plan(p)
    ensures ValidatePayload(p).Fail? ==> run == Run([], Failure(ValidatePayload(p).error))
  {
    match ValidatePayload(p)
    case Fail(e) => Run([], Failure(e))
    case Pass => AwaitAll(repos, Plan(p), repos.reverse(p))
  }

  /** The like is reversed exactly when validation and both checks pass; `reverse` gets the whole payload and its answer is returned unchanged. */
  lemma ReversedExactlyWhenChecksPass(repos: Repositories, p: Payload)
    ensures Reverse(p) in Calls(Execute(repos, p).trace) <==>
      && ValidatePayload(p) == Pass
      && repos.verifyThreadAvailability(Get(p, "threadId")) == Pass
      && repos.verifyCommentAvailability(Get(p, "commentId")) == Pass
    ensures Reverse(p) in Calls(Execute(repos, p).trace) ==> Execute(repos, p).result == repos.reverse(p)
  {
    if ValidatePayload(p) == Pass {
      FinalCallMadeExactlyWhenOthersPassed(repos, Plan(p));
    }
  }
}

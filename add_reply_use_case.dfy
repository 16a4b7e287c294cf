/** Posting a reply: validate, check the thread, check the comment, then add the reply. */
module AddReplyUseCase {
  import opened Prelude
  import opened JsValues
  import opened Errors
  import opened Repositories
  import ReplyEntities

  const MissingProperty := "ADD_REPLY_USE_CASE.NOT_CONTAIN_NEEDED_PROPERTY"
  const WrongType := "ADD_REPLY_USE_CASE.NOT_MEET_DATA_TYPE_SPECIFICATION"

  predicate LacksProperty(p: Payload)
  {
    !Truthy(Get(p, "threadId")) || !Truthy(Get(p, "content")) || !Truthy(Get(p, "userId"))
    || !Truthy(Get(p, "commentId"))
  }

  /** `_validatePayload` */
  function ValidatePayload(p: Payload): (c: Check)
    ensures c == Pass <==>
      && FilledString(Get(p, "threadId")) && FilledString(Get(p, "commentId"))
      && FilledString(Get(p, "content")) && FilledString(Get(p, "userId"))
    ensures LacksProperty(p) ==> c == Fail(Raise(MissingProperty))
    ensures c.Fail? && !LacksProperty(p) ==> c == Fail(Raise(WrongType))
  {
    var threadId, commentId, content, userId := Get(p, "threadId"), Get(p, "commentId"), Get(p, "content"), Get(p, "userId");
    if !Truthy(threadId) || !Truthy(content) || !Truthy(userId) || !Truthy(commentId) then
      Fail(Raise(MissingProperty))
    else if !IsString(threadId) || !IsString(commentId) || !IsString(content) || !IsString(userId) then
      Fail(Raise(WrongType))
    else
      Pass
  }

  /** The repository calls of a valid request, in the order they are awaited. */
  function Plan(p: Payload): seq<Call>
  {
    [VerifyThreadAvailability(Get(p, "threadId")), VerifyCommentAvailability(Get(p, "commentId")),
     AddReply(p)]
  }

  /** `execute` */
  function Execute(repos: Repositories, p: Payload): (run: Run<ReplyEntities.AddedReply>)
    ensures Disciplined(repos, run)
    ensures Calls(run.trace) <= Plan(p)
    // validation fails before any repository call
    ensures ValidatePayload(p).Fail? ==> run == Run([], Failure(ValidatePayload(p).error))
  {
    match ValidatePayload(p)
    case Fail(e) => Run([], Failure(e))
    case Pass => AwaitAll(repos, Plan(p), repos.addReply(p))
  }

  /** The reply is written exactly when validation and both checks pass, and the write's answer is returned unchanged. */
  lemma ReplyAddedExactlyWhenChecksPass(repos: Repositories, p: Payload)
    ensures AddReply(p) in Calls(Execute(repos, p).trace) <==>
      && ValidatePayload(p) == Pass
      && repos.verifyThreadAvailability(Get(p, "threadId")) == Pass
      && repos.verifyCommentAvailability(Get(p, "commentId")) == Pass
    ensures AddReply(p) in Calls(Execute(repos, p).trace) ==> Execute(repos, p).result == repos.addReply(p)
  {
    if ValidatePayload(p) == Pass {
      FinalCallMadeExactlyWhenOthersPassed(repos, Plan(p));
    }
  }
}

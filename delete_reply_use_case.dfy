/** Deleting a reply: validate, check the reply exists, check its owner, then delete it. */
module DeleteReplyUseCase {
  import opened Prelude
  import opened JsValues
  import opened Errors
  import opened Repositories

  const MissingProperty := "DELETE_REPLY_USE_CASE.NOT_CONTAIN_NEEDED_PROPERTY"
  const WrongType := "DELETE_REPLY_USE_CASE.NOT_MEET_DATA_TYPE_SPECIFICATION"

  predicate LacksProperty(p: Payload)
  {
    !Truthy(Get(p, "id")) || !Truthy(Get(p, "userId"))
  }

  /** `_validatePayload` */
  function ValidatePayload(p: Payload): (c: Check)
    ensures c == Pass <==> FilledString(Get(p, "id")) && FilledString(Get(p, "userId"))
    ensures LacksProperty(p) ==> c == Fail(Raise(MissingProperty))
    ensures c.Fail? && !LacksProperty(p) ==> c == Fail(Raise(WrongType))
  {
    var id, userId := Get(p, "id"), Get(p, "userId");
    if !Truthy(id) || !Truthy(userId) then Fail(Raise(MissingProperty))
    else if !IsString(id) || !IsString(userId) then Fail(Raise(WrongType))
    else Pass
  }

  /** Availability by id, ownership with the whole payload, then the delete with the whole payload. */
  function Plan(p: Payload): seq<Call>
  {
    [VerifyReplyAvailability(Get(p, "id")), VerifyReplyOwner(p), DeleteReply(p)]
  }

  /** `execute`; it returns nothing. */
  function Execute(repos: Repositories, p: Payload): (run: Run<()>)
    ensures Disciplined(repos, run)
    ensures Calls(run.trace) <= Plan(p)
    ensures ValidatePayload(p).Fail? ==> run == Run([], Failure(ValidatePayload(p).error))
  {
    match ValidatePayload(p)
    case Fail(e) => Run([], Failure(e))
    case Pass => AwaitAll(repos, Plan(p), Success(()))
  }

  /** The reply is deleted exactly when validation and both checks pass; the run succeeds exactly when that delete does. */
  lemma ReplyDeletedExactlyWhenChecksPass(repos: Repositories, p: Payload)
    ensures DeleteReply(p) in Calls(Execute(repos, p).trace) <==>
      && ValidatePayload(p) == Pass
      && repos.verifyReplyAvailability(Get(p, "id")) == Pass
      && repos.verifyReplyOwner(p) == Pass
    ensures Execute(repos, p).result.Success? <==>
      DeleteReply(p) in Calls(Execute(repos, p).trace) && repos.deleteReply(p) == Pass
  {
    if ValidatePayload(p) == Pass {
      FinalCallMadeExactlyWhenOthersPassed(repos, Plan(p));
    }
  }
}

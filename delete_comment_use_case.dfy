/**
 * Deleting a comment: validate field by field, check the thread, the
 * comment and its owner, then soft-delete the comment.
 */
module DeleteCommentUseCase {
  import opened Prelude
  import opened JsValues
  import opened Errors
  import opened Repositories

  const NotContainAnyProperty := "DELETE_COMMENT_USE_CASE.NOT_CONTAIN_ANY_PROPERTY"
  const NotContainCommentId := "DELETE_COMMENT_USE_CASE.NOT_CONTAIN_COMMENT_ID"
  const NotContainThreadId := "DELETE_COMMENT_USE_CASE.NOT_CONTAIN_THREAD_ID"
  const NotContainOwner := "DELETE_COMMENT_USE_CASE.NOT_CONTAIN_OWNER"
  const WrongType := "DELETE_COMMENT_USE_CASE.PAYLOAD_NOT_MEET_DATA_TYPE_SPECIFICATION"

  /** `_validatePayload`: each missing field has its own code, tested in a fixed order. */
  function ValidatePayload(payload: JsValue): (c: Check)
    ensures c == Pass <==>
      && FilledString(Field(payload, "commentId")) && FilledString(Field(payload, "threadId"))
      && FilledString(Field(payload, "owner"))
    ensures !Truthy(payload) ==> c == Fail(Raise(NotContainAnyProperty))
    ensures Truthy(payload) && !Truthy(Field(payload, "commentId")) ==>
      c == Fail(Raise(NotContainCommentId))
    ensures Truthy(payload) && Truthy(Field(payload, "commentId")) && !Truthy(Field(payload, "threadId")) ==>
      c == Fail(Raise(NotContainThreadId))
    ensures Truthy(payload) && Truthy(Field(payload, "commentId")) && Truthy(Field(payload, "threadId"))
            && !Truthy(Field(payload, "owner")) ==>
      c == Fail(Raise(NotContainOwner))
    // the type test is reached only when all three fields are present
    ensures c == Fail(Raise(WrongType)) <==>
      && Truthy(Field(payload, "commentId")) && Truthy(Field(payload, "threadId"))
      && Truthy(Field(payload, "owner")) && c != Pass
  {
    if !Truthy(payload) then Fail(Raise(NotContainAnyProperty))
    else
      var commentId, threadId, owner := Field(payload, "commentId"), Field(payload, "threadId"), Field(payload, "owner");
      if !Truthy(commentId) then Fail(Raise(NotContainCommentId))
      else if !Truthy(threadId) then Fail(Raise(NotContainThreadId))
      else if !Truthy(owner) then Fail(Raise(NotContainOwner))
      else if !IsString(commentId) || !IsString(threadId) || !IsString(owner) then Fail(Raise(WrongType))
      else Pass
  }

  /** Thread availability, comment availability, ownership, then the delete. */
  function Plan(payload: JsValue): seq<Call>
  {
    var commentId := Field(payload, "commentId");
    [VerifyThreadAvailability(Field(payload, "threadId")), VerifyCommentAvailability(commentId),
     VerifyCommentOwner(commentId, Field(payload, "owner")), DeleteCommentById(commentId)]
  }

  /** `execute`; it returns nothing. */
  function Execute(repos: Repositories, payload: JsValue): (run: Run<()>)
    ensures Disciplined(repos, run)
    ensures Calls(run.trace) <= Plan(payload)
    ensures ValidatePayload(payload).Fail? ==> run == Run([], Failure(ValidatePayload(payload).error))
  {
    match ValidatePayload(payload)
    case Fail(e) => Run([], Failure(e))
    case Pass => AwaitAll(repos, Plan(payload), Success(()))
  }

  /** The comment is deleted exactly when validation and all three checks pass. */
  lemma DeletedExactlyWhenChecksPass(repos: Repositories, payload: JsValue)
    ensures DeleteCommentById(Field(payload, "commentId")) in Calls(Execute(repos, payload).trace) <==>
      && ValidatePayload(payload) == Pass
      && repos.verifyThreadAvailability(Field(payload, "threadId")) == Pass
      && repos.verifyCommentAvailability(Field(payload, "commentId")) == Pass
      && repos.verifyCommentOwner(Field(payload, "commentId"), Field(payload, "owner")) == Pass
  {
    if ValidatePayload(payload) == Pass {
      var plan := Plan(payload);
      FinalCallMadeExactlyWhenOthersPassed(repos, plan);
      assert Answer(repos, plan[2]).None? <==>
        repos.verifyCommentOwner(Field(payload, "commentId"), Field(payload, "owner")) == Pass;
    }
  }

  /** A caller the ownership check rejects gets a failure and nothing is written. */
  lemma NotOwnedChangesNothing(repos: Repositories, payload: JsValue)
    requires repos.verifyCommentOwner(Field(payload, "commentId"), Field(payload, "owner")).Fail?
    ensures Execute(repos, payload).result.Failure?
    ensures ReadOnly(Execute(repos, payload).trace)
  {
    if ValidatePayload(payload) == Pass {
      var plan := Plan(payload);
      ReachedExactlyWhenEarlierPassed(repos, plan, 3);
      assert Answer(repos, plan[2]).Some?;
    }
  }
}

/**
 * Posting a comment: validate the three text fields, check that the thread
 * exists, build the `AddComment` entity, then add it.
 */
module AddCommentUseCase {
  import opened Prelude
  import opened JsValues
  import opened Errors
  import opened Repositories
  import CommentEntities

  const MissingProperty := "ADD_COMMENT_USE_CASE.NOT_CONTAIN_NEEDED_PROPERTY"
  const WrongType := "ADD_COMMENT_USE_CASE.NOT_MEET_DATA_TYPE_SPECIFICATION"

  predicate LacksProperty(p: Payload)
  {
    !Truthy(Get(p, "threadId")) || !Truthy(Get(p, "content")) || !Truthy(Get(p, "owner"))
  }

  /** `_validatePayload`: `commentId` is not looked at. */
  function ValidatePayload(p: Payload): (c: Check)
    ensures c == Pass <==>
      FilledString(Get(p, "threadId")) && FilledString(Get(p, "content")) && FilledString(Get(p, "owner"))
    ensures LacksProperty(p) ==> c == Fail(Raise(MissingProperty))
    ensures c.Fail? && !LacksProperty(p) ==> c == Fail(Raise(WrongType))
  {
    var threadId, content, owner := Get(p, "threadId"), Get(p, "content"), Get(p, "owner");
    if !Truthy(threadId) || !Truthy(content) || !Truthy(owner) then
      Fail(Raise(MissingProperty))
    else if !IsString(threadId) || !IsString(content) || !IsString(owner) then
      Fail(Raise(WrongType))
    else
      Pass
  }

  /** The repository calls of a valid request: the thread check, then the insert of the built entity. */
  function Plan(p: Payload): seq<Call>
  {
    [VerifyThreadAvailability(Get(p, "threadId"))]
    + match CommentEntities.NewAddComment(p)
      case Success(comment) => [AddComment(comment)]
      case Failure(_) => []
  }

  /** `execute` */
  function Execute(repos: Repositories, p: Payload): (run: Run<CommentEntities.AddedComment>)
    ensures Disciplined(repos, run)
    ensures Calls(run.trace) <= Plan(p)
    ensures ValidatePayload(p).Fail? ==> run == Run([], Failure(ValidatePayload(p).error))
    // a valid request always reaches the thread check, with the payload's threadId
    ensures ValidatePayload(p) == Pass ==>
      run.trace != [] && run.trace[0].call == VerifyThreadAvailability(Get(p, "threadId"))
  {
    match ValidatePayload(p)
    case Fail(e) => Run([], Failure(e))
    case Pass =>
      var outcome :=
        match CommentEntities.NewAddComment(p)
        case Failure(e) => Failure(e)
        case Success(comment) => repos.addComment(comment);
      AwaitAll(repos, Plan(p), outcome)
  }

  /**
   * The comment is written exactly when the request is valid, the thread
   * exists and the entity builds; what is written is the entity built from
   * the payload, and the insert's answer is returned unchanged.
   */
  lemma CommentAddedExactlyWhenChecksPass(repos: Repositories, p: Payload)
    ensures (exists i :: 0 <= i < |Execute(repos, p).trace| && Mutates(Execute(repos, p).trace[i].call)) <==>
      && ValidatePayload(p) == Pass
      && repos.verifyThreadAvailability(Get(p, "threadId")) == Pass
      && CommentEntities.NewAddComment(p).Success?
    ensures forall i :: 0 <= i < |Execute(repos, p).trace| && Mutates(Execute(repos, p).trace[i].call) ==>
      && Execute(repos, p).trace[i].call == AddComment(CommentEntities.NewAddComment(p).value)
      && Execute(repos, p).result == repos.addComment(CommentEntities.NewAddComment(p).value)
  {
    var run := Execute(repos, p);
    if ValidatePayload(p) == Pass {
      var plan := Plan(p);
      ReachedExactlyWhenEarlierPassed(repos, plan, 0);
      if CommentEntities.NewAddComment(p).Success? {
        FinalCallMadeExactlyWhenOthersPassed(repos, plan);
        if repos.verifyThreadAvailability(Get(p, "threadId")) == Pass {
          assert run.trace[1].call == plan[1];
        }
      }
    }
  }

  /** An undefined `commentId` passes validation but is caught by the entity, after the thread check. */
  lemma UndefinedCommentIdCaughtByEntity(repos: Repositories, p: Payload)
    requires ValidatePayload(p) == Pass && repos.verifyThreadAvailability(Get(p, "threadId")) == Pass
    requires Get(p, "commentId") == Undef
    ensures Calls(Execute(repos, p).trace) == [VerifyThreadAvailability(Get(p, "threadId"))]
    ensures Execute(repos, p).result == Failure(Raise(CommentEntities.AddCommentMissingProperty))
  {
    FinalCallMadeExactlyWhenOthersPassed(repos, Plan(p));
  }
}

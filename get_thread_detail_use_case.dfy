/** Reading a thread with its comments: validate the id, check the thread, then read. */
module GetThreadDetailUseCase {
  import opened Prelude
  import opened JsValues
  import opened Errors
  import opened Repositories
  import ThreadEntities

  const MissingProperty := "GET_THREAD_DETAIL_USE_CASE.NOT_CONTAIN_NEEDED_PROPERTY"
  const WrongType := "GET_THREAD_DETAIL_USE_CASE.PAYLOAD_NOT_MEET_DATA_TYPE_SPECIFICATION"

  /** `{ ...thread, comments }`: the thread's own fields and its comment listing. */
  datatype ThreadDetail = ThreadDetail(id: string, title: string, body: string, date: Instant,
                                       username: Option<string>, comments: seq<CommentView>)

  /** `_validatePayload`: the payload is the thread id itself. */
  function ValidatePayload(threadId: JsValue): (c: Check)
    ensures c == Pass <==> FilledString(threadId)
    ensures !Truthy(threadId) ==> c == Fail(Raise(MissingProperty))
    ensures Truthy(threadId) && !IsString(threadId) ==> c == Fail(Raise(WrongType))
  {
    if !Truthy(threadId) then Fail(Raise(MissingProperty))
    else if !IsString(threadId) then Fail(Raise(WrongType))
    else Pass
  }

  /** The availability check, then the two reads. */
  function Plan(threadId: JsValue): seq<Call>
  {
    [VerifyThreadAvailability(threadId), GetThreadById(threadId), GetCommentsByThread(threadId)]
  }

  /** `execute` */
  function Execute(repos: Repositories, threadId: JsValue): (run: Run<ThreadDetail>)
    ensures Disciplined(repos, run)
    ensures Calls(run.trace) <= Plan(threadId)
    ensures ValidatePayload(threadId).Fail? ==> run == Run([], Failure(ValidatePayload(threadId).error))
    // nothing is written
    ensures ReadOnly(run.trace)
  {
    match ValidatePayload(threadId)
    case Fail(e) => Run([], Failure(e))
    case Pass =>
      var outcome :=
        match (repos.getThreadById(threadId), repos.getCommentsByThread(threadId))
        case (Success(thread), Success(comments)) =>
          Success(ThreadDetail(thread.id, thread.title, thread.body, thread.date, thread.username, comments))
        case (Failure(e), _) => Failure(e)
        case (_, Failure(e)) => Failure(e);
      AwaitAll(repos, Plan(threadId), outcome)
  }

  /**
   * Neither read happens unless the thread is available, and a detail is the
   * stored thread's own fields merged with the comment listing, both unchanged.
   */
  lemma DetailMergesThreadAndComments(repos: Repositories, threadId: JsValue)
    ensures |Execute(repos, threadId).trace| > 1 ==> repos.verifyThreadAvailability(threadId) == Pass
    ensures Execute(repos, threadId).result.Success? <==>
      && ValidatePayload(threadId) == Pass && repos.verifyThreadAvailability(threadId) == Pass
      && repos.getThreadById(threadId).Success? && repos.getCommentsByThread(threadId).Success?
    ensures Execute(repos, threadId).result.Success? ==>
      var thread := repos.getThreadById(threadId).value;
      Execute(repos, threadId).result.value ==
        ThreadDetail(thread.id, thread.title, thread.body, thread.date, thread.username,
                     repos.getCommentsByThread(threadId).value)
  {
    if ValidatePayload(threadId) == Pass {
      var plan := Plan(threadId);
      var run := Execute(repos, threadId);
      ReachedExactlyWhenEarlierPassed(repos, plan, 2);
      ReachedExactlyWhenEarlierPassed(repos, plan, 1);
      if AllPassed(run.trace) {
        assert run.trace[1].call == plan[1] && run.trace[2].call == plan[2];
      }
    }
  }
}

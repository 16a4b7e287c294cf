/** Starting a thread: reject a falsy payload, build the `AddThread` entity, then add it. */
module AddThreadUseCase {
  import opened Prelude
  import opened JsValues
  import opened Errors
  import opened Repositories
  import ThreadEntities

  const MissingProperty := "ADD_THREAD_USE_CASE.NOT_CONTAIN_NEEDED_PROPERTY"

  /** `_validatePayload`: only the payload as a whole is tested. */
  function ValidatePayload(payload: JsValue): (c: Check)
    ensures c == Pass <==> Truthy(payload)
    ensures c.Fail? ==> c.error == Raise(MissingProperty)
  {
    if !Truthy(payload) then Fail(Raise(MissingProperty)) else Pass
  }

  /**
   * `execute`. The `AddThread` constructor is not part of this model, so it is
   * passed in as `newAddThread`.
   */
  function Execute(repos: Repositories, newAddThread: JsValue -> Result<ThreadEntities.AddThread, Error>,
                   payload: JsValue): (run: Run<ThreadEntities.AddedThread>)
    ensures Disciplined(repos, run)
    // no availability or ownership check: at most the one insert is made
    ensures |run.trace| <= 1
    ensures !Truthy(payload) ==> run == Run([], Failure(Raise(MissingProperty)))
    // the insert gets the built entity, and only when validation and construction succeed
    ensures run.trace != [] <==> Truthy(payload) && newAddThread(payload).Success?
    ensures run.trace != [] ==>
      && run.trace[0].call == AddThread(newAddThread(payload).value)
      && run.result == repos.addThread(newAddThread(payload).value)
    ensures Truthy(payload) && newAddThread(payload).Failure? ==>
      run.result == Failure(newAddThread(payload).error)
  {
    match ValidatePayload(payload)
    case Fail(e) => Run([], Failure(e))
    case Pass =>
      match newAddThread(payload)
      case Failure(e) => Run([], Failure(e))
      case Success(thread) =>
        var run := AwaitAll(repos, [AddThread(thread)], repos.addThread(thread));
        assert Calls(run.trace)[0] == AddThread(thread);
        run
  }
}

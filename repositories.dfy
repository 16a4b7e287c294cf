/**
 * The repository interfaces the use cases depend on, seen from the use-case
 * layer: each repository method is an oracle that answers a call with a value
 * or an error. A use case's run is recorded as the trace of the calls it made,
 * each with the error it got back (if any), together with its result.
 */
module Repositories {
  import opened Prelude
  import opened JsValues
  import opened Errors
  import CommentEntities
  import ReplyEntities
  import LikeEntities
  import ThreadEntities

  /** A comment as a thread listing returns it: content already masked when deleted. */
  datatype CommentView = CommentView(id: string, username: Option<string>, date: Instant, content: string)

  /** The injected repositories, one field per method the use cases call. */
  datatype Repositories = Repositories(
    // ThreadRepository
    addThread: ThreadEntities.AddThread -> Result<ThreadEntities.AddedThread, Error>,
    getThreadById: JsValue -> Result<ThreadEntities.Thread, Error>,
    verifyThreadAvailability: JsValue -> Check,
    // CommentRepository
    addComment: CommentEntities.AddComment -> Result<CommentEntities.AddedComment, Error>,
    getCommentsByThread: JsValue -> Result<seq<CommentView>, Error>,
    verifyCommentAvailability: JsValue -> Check,
    verifyCommentOwner: (JsValue, JsValue) -> Check,
    deleteCommentById: JsValue -> Check,
    // ReplyRepository
    addReply: Payload -> Result<ReplyEntities.AddedReply, Error>,
    verifyReplyAvailability: JsValue -> Check,
    verifyReplyOwner: Payload -> Check,
    deleteReply: Payload -> Check,
    // LikeRepository
    reverse: Payload -> Result<LikeEntities.Like, Error>)

  /** One repository call, with the arguments the use case passed. */
  datatype Call =
    | AddThread(thread: ThreadEntities.AddThread)
    | GetThreadById(threadId: JsValue)
    | VerifyThreadAvailability(threadId: JsValue)
    | AddComment(comment: CommentEntities.AddComment)
    | GetCommentsByThread(threadId: JsValue)
    | VerifyCommentAvailability(commentId: JsValue)
    | VerifyCommentOwner(commentId: JsValue, owner: JsValue)
    | DeleteCommentById(commentId: JsValue)
    | AddReply(payload: Payload)
    | VerifyReplyAvailability(replyId: JsValue)
    | VerifyReplyOwner(payload: Payload)
    | DeleteReply(payload: Payload)
    | Reverse(payload: Payload)

  /** The calls that change stored data. */
  predicate Mutates(call: Call)
  {
    call.AddThread? || call.AddComment? || call.DeleteCommentById? || call.AddReply?
    || call.DeleteReply? || call.Reverse?
  }

  function ErrorOf<T>(r: Result<T, Error>): (e: Option<Error>)
    ensures e.None? <==> r.Success?
    ensures e.Some? ==> r == Failure(e.value)
  {
    match r
    case Success(_) => None
    case Failure(err) => Some(err)
  }

  function CheckError(c: Check): (e: Option<Error>)
    ensures e.None? <==> c == Pass
    ensures e.Some? ==> c == Fail(e.value)
  {
    match c
    case Pass => None
    case Fail(err) => Some(err)
  }

  /** The error, if any, that the repositories answer to a call. */
  function Answer(repos: Repositories, call: Call): Option<Error>
  {
    match call
    case AddThread(t) => ErrorOf(repos.addThread(t))
    case GetThreadById(id) => ErrorOf(repos.getThreadById(id))
    case VerifyThreadAvailability(id) => CheckError(repos.verifyThreadAvailability(id))
    case AddComment(c) => ErrorOf(repos.addComment(c))
    case GetCommentsByThread(id) => ErrorOf(repos.getCommentsByThread(id))
    case VerifyCommentAvailability(id) => CheckError(repos.verifyCommentAvailability(id))
    case VerifyCommentOwner(id, owner) => CheckError(repos.verifyCommentOwner(id, owner))
    case DeleteCommentById(id) => CheckError(repos.deleteCommentById(id))
    case AddReply(p) => ErrorOf(repos.addReply(p))
    case VerifyReplyAvailability(id) => CheckError(repos.verifyReplyAvailability(id))
    case VerifyReplyOwner(p) => CheckError(repos.verifyReplyOwner(p))
    case DeleteReply(p) => CheckError(repos.deleteReply(p))
    case Reverse(p) => ErrorOf(repos.reverse(p))
  }

  /** A call as it happened: `failure` is the error it threw, if it threw. */
  datatype Event = Event(call: Call, failure: Option<Error>)

  /** A use case's run: the calls it made, in order, and what it returned or threw. */
  datatype Run<T> = Run(trace: seq<Event>, result: Result<T, Error>)

  /** Making a call: the event records the repositories' answer. */
  function Perform(repos: Repositories, call: Call): (e: Event)
    ensures e.call == call && e.failure == Answer(repos, call)
  {
    Event(call, Answer(repos, call))
  }

  function Calls(trace: seq<Event>): (calls: seq<Call>)
    ensures |calls| == |trace|
    ensures forall i :: 0 <= i < |trace| ==> calls[i] == trace[i].call
  {
    seq(|trace|, i requires 0 <= i < |trace| => trace[i].call)
  }

  /** Every recorded answer is the one the repositories give. */
  predicate Answered(repos: Repositories, trace: seq<Event>)
  {
    forall i :: 0 <= i < |trace| ==> trace[i].failure == Answer(repos, trace[i].call)
  }

  /** No call is made after one has failed. */
  predicate StopsAtFirstFailure(trace: seq<Event>)
  {
    forall i :: 0 <= i < |trace| - 1 ==> trace[i].failure.None?
  }

  /** A failed call ends the run with its own error, unchanged. */
  predicate Propagates<T>(run: Run<T>)
  {
    |run.trace| > 0 && run.trace[|run.trace| - 1].failure.Some? ==>
      run.result == Failure(run.trace[|run.trace| - 1].failure.value)
  }

  /** The early-exit discipline every use case follows. */
  predicate Disciplined<T>(repos: Repositories, run: Run<T>)
  {
    Answered(repos, run.trace) && StopsAtFirstFailure(run.trace) && Propagates(run)
  }

  /** Every call of the trace succeeded. */
  predicate AllPassed(trace: seq<Event>)
  {
    forall i :: 0 <= i < |trace| ==> trace[i].failure.None?
  }

  /** No call of the trace changes stored data. */
  predicate ReadOnly(trace: seq<Event>)
  {
    forall i :: 0 <= i < |trace| ==> !Mutates(trace[i].call)
  }

  /** The error that ended the trace, if its last call threw. */
  function LastFailure(trace: seq<Event>): Option<Error>
  {
    if trace == [] then None else trace[|trace| - 1].failure
  }

  /**
   * Awaiting the calls of `plan` one after the other: the first call that
   * throws ends the sequence, and no later call is made.
   */
  function PerformInOrder(repos: Repositories, plan: seq<Call>): (trace: seq<Event>)
    ensures |trace| <= |plan|
    ensures plan != [] ==> trace != []
    decreases |plan|
  {
    if plan == [] then []
    else
      var first := Perform(repos, plan[0]);
      if first.failure.Some? then [first] else [first] + PerformInOrder(repos, plan[1..])
  }

  /** Every call of the plan that is made is answered by the repositories. */
  lemma {:induction false} PerformInOrderAnswered(repos: Repositories, plan: seq<Call>)
    ensures Answered(repos, PerformInOrder(repos, plan))
    decreases |plan|
  {
    if plan != [] && Answer(repos, plan[0]).None? {
      var rest := PerformInOrder(repos, plan[1..]);
      PerformInOrderAnswered(repos, plan[1..]);
      assert forall i :: 1 <= i < 1 + |rest| ==> PerformInOrder(repos, plan)[i] == rest[i - 1];
    }
  }

  /** The calls made are the plan's, in the plan's order. */
  lemma {:induction false} PerformInOrderFollowsPlan(repos: Repositories, plan: seq<Call>)
    ensures Calls(PerformInOrder(repos, plan)) <= plan
    decreases |plan|
  {
    if plan != [] && Answer(repos, plan[0]).None? {
      var rest := PerformInOrder(repos, plan[1..]);
      PerformInOrderFollowsPlan(repos, plan[1..]);
      assert Calls(PerformInOrder(repos, plan)) == [plan[0]] + Calls(rest);
    }
  }

  /** No call is made after one has thrown, and the plan is cut short only by a throw. */
  lemma {:induction false} PerformInOrderStops(repos: Repositories, plan: seq<Call>)
    ensures StopsAtFirstFailure(PerformInOrder(repos, plan))
    ensures AllPassed(PerformInOrder(repos, plan)) ==> |PerformInOrder(repos, plan)| == |plan|
    decreases |plan|
  {
    if plan != [] && Answer(repos, plan[0]).None? {
      var rest := PerformInOrder(repos, plan[1..]);
      var trace := PerformInOrder(repos, plan);
      assert trace == [Perform(repos, plan[0])] + rest;
      PerformInOrderStops(repos, plan[1..]);
      assert forall i :: 1 <= i < |trace| ==> trace[i] == rest[i - 1];
      if AllPassed(trace) {
        assert forall i :: 0 <= i < |rest| ==> rest[i] == trace[i + 1];
      }
    } else if plan != [] {
      assert PerformInOrder(repos, plan)[0].failure.Some?;
    }
  }

  /** Once no call runs after a failure, the run ends well exactly when its last call did. */
  lemma LastCallDecides(trace: seq<Event>)
    requires StopsAtFirstFailure(trace)
    ensures LastFailure(trace).None? <==> AllPassed(trace)
  {
  }

  /**
   * The shape every use case shares: await the calls of `plan` in order and,
   * if none of them threw, return `outcome`; otherwise rethrow the error of
   * the call that threw.
   */
  function AwaitAll<T>(repos: Repositories, plan: seq<Call>, outcome: Result<T, Error>): (run: Run<T>)
    ensures run.trace == PerformInOrder(repos, plan)
    ensures Disciplined(repos, run)
    ensures Calls(run.trace) <= plan
    ensures AllPassed(run.trace) ==> Calls(run.trace) == plan && run.result == outcome
    ensures !AllPassed(run.trace) ==> run.result == Failure(LastFailure(run.trace).value)
  {
    var trace := PerformInOrder(repos, plan);
    PerformInOrderAnswered(repos, plan);
    PerformInOrderFollowsPlan(repos, plan);
    PerformInOrderStops(repos, plan);
    LastCallDecides(trace);
    match LastFailure(trace)
    case Some(e) => Run(trace, Failure(e))
    case None => Run(trace, outcome)
  }

  /** The `k`-th call of a plan is made exactly when every call before it succeeded. */
  lemma {:induction false} ReachedExactlyWhenEarlierPassed(repos: Repositories, plan: seq<Call>, k: nat)
    requires k < |plan|
    ensures k < |PerformInOrder(repos, plan)| <==> forall j :: 0 <= j < k ==> Answer(repos, plan[j]).None?
    decreases k
  {
    var trace := PerformInOrder(repos, plan);
    if k > 0 {
      if Answer(repos, plan[0]).None? {
        ReachedExactlyWhenEarlierPassed(repos, plan[1..], k - 1);
        assert forall j :: 1 <= j < k ==> plan[j] == plan[1..][j - 1];
      }
    }
  }

  /**
   * When the last call of a plan differs from every call before it, it is made
   * exactly when every earlier call succeeded, that is exactly when the whole
   * plan was carried out.
   */
  lemma FinalCallMadeExactlyWhenOthersPassed(repos: Repositories, plan: seq<Call>)
    requires |plan| > 0
    requires forall j :: 0 <= j < |plan| - 1 ==> plan[j] != plan[|plan| - 1]
    ensures plan[|plan| - 1] in Calls(PerformInOrder(repos, plan)) <==>
      forall j :: 0 <= j < |plan| - 1 ==> Answer(repos, plan[j]).None?
    ensures plan[|plan| - 1] in Calls(PerformInOrder(repos, plan)) <==>
      |PerformInOrder(repos, plan)| == |plan|
  {
    var trace := PerformInOrder(repos, plan);
    var last := |plan| - 1;
    PerformInOrderFollowsPlan(repos, plan);
    ReachedExactlyWhenEarlierPassed(repos, plan, last);
    if plan[last] in Calls(trace) {
      var i :| 0 <= i < |trace| && Calls(trace)[i] == plan[last];
      assert Calls(trace)[i] == plan[i];
    }
    if |trace| == |plan| {
      assert Calls(trace)[last] == plan[last];
    }
  }

  /** Under the discipline, a call is made only when every earlier call succeeded. */
  lemma EarlierCallsPassed<T>(repos: Repositories, run: Run<T>, i: int)
    requires Disciplined(repos, run)
    requires 0 <= i < |run.trace|
    ensures AllPassed(run.trace[..i])
  {
  }

  /** Under the discipline, a failed run's error is the failing call's own error. */
  lemma FailureComesFromLastCall<T>(repos: Repositories, run: Run<T>, i: int)
    requires Disciplined(repos, run)
    requires 0 <= i < |run.trace| && run.trace[i].failure.Some?
    ensures i == |run.trace| - 1
    ensures run.result == Failure(Answer(repos, run.trace[i].call).value)
  {
  }
}

# forum-api core in Dafny

This project models the domain and application core of a forum API. Users
start threads, comment on them, reply to comments, and like or unlike
comments. The model covers four layers.

- **Entities.** `Comment`, `AddedComment`, `AddComment`, `Like`,
  `UpdatedLike`, `UpdateLike` and `AddReply` validate a JavaScript payload in
  two steps: a presence test, then a type test. Each step raises its own
  error code. The model writes each constructor as a function from a payload
  (`JsValues.Payload`, a map from keys to JavaScript values, where an absent
  key reads as `undefined`) to a `Result`.
- **Use cases.** `AddComment`, `AddReply`, `DeleteComment`, `DeleteReply`,
  `GetThreadDetail`, `ReverseLikeOfComment` and `AddThread` each validate the
  payload, then await repository calls one after the other. The first call
  that throws ends the run. The repositories a use case receives are a record
  of functions (`Repositories.Repositories`) that answer each call with a
  value or an error. A run is the trace of the calls it made, each with the
  answer it got, plus its result. `Repositories.AwaitAll` is the shared
  await-in-order step.
- **Error translation.** `DomainErrorTranslator` maps a domain code to the
  client error (invariant, not found, authorization) that the HTTP layer
  answers with. Any other error passes through unchanged.
- **Postgres repositories.** The likes, comments, threads and replies
  repositories are classes. Each holds its table as a sequence of rows
  (`rows`) and keeps the primary key unique (`Valid`). SQL statements are
  functions on those sequences. Statements that change the table are methods
  that reassign `rows`. The generated id and the database clock are
  parameters, and a taken id is rejected like a duplicate key. Read-only
  queries are functions that read the object.

Every rejection is an `Errors.Error(kind, message)`. A bare `new Error(code)`
is `Raise(code)`.

## Model

| member | source | states |
|---|---|---|
| CommentEntities.NewComment | src/Domains/comments/entities/Comment.js:2-32 | accepted exactly when id, content and username are non-empty strings, date is a Date, isDeleted a boolean and likeCount a number; a missing property (falsy text/date, undefined flag or count) wins over a wrong type; a deleted comment's content is the mask text, other fields pass through, replies default to `[]` |
| CommentEntities.CommentAcceptsFalsyFlagAndCount | src/Domains/comments/entities/Comment.js:20 | `isDeleted: false` and `likeCount: 0` count as present: the comment is built, content unmasked, count 0 |
| CommentEntities.NewAddedComment | src/Domains/comments/entities/AddedComment.js:2-30 | accepted exactly when id, threadId, content, owner are non-empty strings and commentId is null or a string; falsy text fields give NOT_CONTAIN_NEEDED_PROPERTY, every other rejection NOT_MEET_DATA_TYPE_SPECIFICATION; the five fields are copied unchanged |
| CommentEntities.NewAddComment | src/Domains/comments/entities/AddComment.js:2-28 | accepted exactly when threadId, content, owner are non-empty strings and commentId is null or a string; an undefined commentId is a missing property, a null one is accepted; the four fields are copied unchanged |
| CommentEntities.AddCommentDropsUnknownFields | src/Domains/comments/entities/AddComment.js:5-12 | changing any key other than the four read (an `id`, say) does not change the entity built |
| LikeEntities.NewLike | src/Domains/likes/entities/Like.js:2-30 | accepted exactly when the four text fields are non-empty strings and isLiked a boolean; an undefined isLiked is missing, `false` is present; fields copied unchanged |
| LikeEntities.NewUpdatedLike | src/Domains/likes/entities/UpdatedLike.js:2-30 | same acceptance as `Like`, but only a null isLiked counts as missing; fields copied unchanged |
| LikeEntities.IsLikedPresenceDiffers | src/Domains/likes/entities/Like.js:19-28 | with the text fields filled, an undefined isLiked is a missing property for `Like` and a wrong type for `UpdatedLike`, and a null one the other way round |
| LikeEntities.NewUpdateLike | src/Domains/likes/entities/UpdateLike.js:2-28 | accepted exactly when id, commentId, userId are non-empty strings and isLiked a boolean; only a null isLiked is missing; fields copied unchanged |
| ReplyEntities.NewAddReply | src/Domains/replies/entities/AddReply.js:2-28 | accepted exactly when id, commentId, userId and content are non-empty strings; any falsy field (an empty content too) is a missing property, otherwise a wrong type; fields copied unchanged |
| Repositories.PerformInOrderStops | src/Applications/use_case/DeleteCommentUseCase.js:7-15 | awaiting calls in order makes no call after one has thrown, and stops short of the plan only because one threw |
| Repositories.PerformInOrderFollowsPlan | src/Applications/use_case/DeleteCommentUseCase.js:7-15 | the calls made are a prefix of the planned calls, in order |
| Repositories.PerformInOrderAnswered | src/Applications/use_case/DeleteCommentUseCase.js:7-15 | every recorded answer is the one the repositories give to that call |
| Repositories.LastCallDecides | src/Applications/use_case/DeleteCommentUseCase.js:7-15 | when no call follows a failure, the run ended well exactly when every call succeeded |
| Repositories.AwaitAll | src/Applications/use_case/DeleteCommentUseCase.js:7-15 | the shared await chain: answered, stops at the first throw and rethrows its error unchanged; if every call succeeded the whole plan was made and the use case's own outcome is returned |
| Repositories.ReachedExactlyWhenEarlierPassed | src/Applications/use_case/DeleteCommentUseCase.js:7-15 | the k-th planned call is made exactly when every call before it succeeded |
| Repositories.FinalCallMadeExactlyWhenOthersPassed | src/Applications/use_case/DeleteCommentUseCase.js:7-15 | the last (distinct) call of a plan is made exactly when all earlier calls succeeded, i.e. exactly when the whole plan ran |
| Repositories.EarlierCallsPassed | src/Applications/use_case/DeleteCommentUseCase.js:7-15 | every call that was made had only successful calls before it |
| Repositories.FailureComesFromLastCall | src/Applications/use_case/DeleteCommentUseCase.js:7-15 | a call that threw is the last one made, and the run fails with exactly its error |
| AddCommentUseCase.ValidatePayload | src/Applications/use_case/AddCommentUseCase.js:16-28 | passes exactly when threadId, content and owner are non-empty strings; a falsy one gives NOT_CONTAIN_NEEDED_PROPERTY, otherwise NOT_MEET_DATA_TYPE_SPECIFICATION; commentId is not looked at |
| AddCommentUseCase.Execute | src/Applications/use_case/AddCommentUseCase.js:9-14 | a rejected payload makes no repository call and fails with the validation error; a valid one first checks the thread; calls follow the plan and stop at the first throw |
| AddCommentUseCase.CommentAddedExactlyWhenChecksPass | src/Applications/use_case/AddCommentUseCase.js:9-14 | something is written exactly when validation, the thread check and the `AddComment` entity all succeed; what is written is that entity and the insert's answer is returned unchanged |
| AddCommentUseCase.UndefinedCommentIdCaughtByEntity | src/Applications/use_case/AddCommentUseCase.js:11-12 | an undefined commentId passes the use case's validation and the thread check, then fails in the entity with ADD_COMMENT.NOT_CONTAIN_NEEDED_PROPERTY, with nothing written |
| AddReplyUseCase.ValidatePayload | src/Applications/use_case/AddReplyUseCase.js:15-31 | passes exactly when threadId, commentId, content and userId are non-empty strings; falsy gives the missing-property code, otherwise the type code |
| AddReplyUseCase.Execute | src/Applications/use_case/AddReplyUseCase.js:8-13 | a rejected payload makes no call; calls are thread check, comment check, addReply, in that order, stopping at the first throw |
| AddReplyUseCase.ReplyAddedExactlyWhenChecksPass | src/Applications/use_case/AddReplyUseCase.js:8-13 | addReply is called exactly when validation and both checks pass, and its answer is returned unchanged |
| AddThreadUseCase.ValidatePayload | src/Applications/use_case/AddThreadUseCase.js:14-18 | passes exactly when the payload is truthy, otherwise ADD_THREAD_USE_CASE.NOT_CONTAIN_NEEDED_PROPERTY |
| AddThreadUseCase.Execute | src/Applications/use_case/AddThreadUseCase.js:8-12 | at most one call; addThread is called exactly when the payload is truthy and the `AddThread` entity builds, with that entity, and its answer is returned; a construction failure is rethrown |
| DeleteCommentUseCase.ValidatePayload | src/Applications/use_case/DeleteCommentUseCase.js:17-38 | passes exactly when commentId, threadId, owner are non-empty strings; a falsy payload, then a falsy commentId, threadId, owner in that order pick their own code; the type code exactly when all three are present but validation still fails |
| DeleteCommentUseCase.Execute | src/Applications/use_case/DeleteCommentUseCase.js:7-15 | a rejected payload makes no call; thread check, comment check, owner check and delete follow in order and stop at the first throw |
| DeleteCommentUseCase.DeletedExactlyWhenChecksPass | src/Applications/use_case/DeleteCommentUseCase.js:7-15 | the comment is deleted exactly when validation and all three checks pass |
| DeleteCommentUseCase.NotOwnedChangesNothing | src/Applications/use_case/DeleteCommentUseCase.js:11-14 | when the ownership check throws, the run fails and no writing call is made |
| DeleteReplyUseCase.ValidatePayload | src/Applications/use_case/DeleteReplyUseCase.js:13-21 | passes exactly when id and userId are non-empty strings; falsy gives the missing-property code, otherwise the type code |
| DeleteReplyUseCase.Execute | src/Applications/use_case/DeleteReplyUseCase.js:6-11 | a rejected payload makes no call; availability, ownership and delete follow in order and stop at the first throw |
| DeleteReplyUseCase.ReplyDeletedExactlyWhenChecksPass | src/Applications/use_case/DeleteReplyUseCase.js:6-11 | deleteReply is called exactly when validation and both checks pass; the run succeeds exactly when that delete does |
| GetThreadDetailUseCase.ValidatePayload | src/Applications/use_case/GetThreadDetailUseCase.js:17-25 | passes exactly when the thread id is a non-empty string; falsy gives NOT_CONTAIN_NEEDED_PROPERTY, a non-string PAYLOAD_NOT_MEET_DATA_TYPE_SPECIFICATION |
| GetThreadDetailUseCase.Execute | src/Applications/use_case/GetThreadDetailUseCase.js:7-15 | a rejected id makes no call; the calls follow the check-then-two-reads plan and none of them writes |
| GetThreadDetailUseCase.DetailMergesThreadAndComments | src/Applications/use_case/GetThreadDetailUseCase.js:7-15 | no read happens unless the thread check passed; the run succeeds exactly when validation, the check and both reads do; the detail is the thread's fields plus the comment listing, unchanged |
| ReverseLikeOfCommentUseCase.ValidatePayload | src/Applications/use_case/ReverseLikeOfCommentUseCase.js:18-26 | passes exactly when threadId, commentId and userId are non-empty strings; falsy gives the missing-property code, otherwise the type code |
| ReverseLikeOfCommentUseCase.Execute | src/Applications/use_case/ReverseLikeOfCommentUseCase.js:11-16 | a rejected payload makes no call; thread check, comment check and reverse follow in order and stop at the first throw |
| ReverseLikeOfCommentUseCase.ReversedExactlyWhenChecksPass | src/Applications/use_case/ReverseLikeOfCommentUseCase.js:11-16 | reverse is called, with the whole payload, exactly when validation and both checks pass, and its answer is returned unchanged |
| DomainErrorTranslator.Translate | src/Commons/exceptions/DomainErrorTranslator.js:6-8 | an error whose message is not a known code comes back unchanged; a known code becomes an invariant, not-found or authorization error |
| DomainErrorTranslator.CodesEndUpper | src/Commons/exceptions/DomainErrorTranslator.js:11-40 | helper for `TranslatedIsNoCode`, not a promise of the source: every code in the directory is non-empty and ends in an upper-case letter |
| DomainErrorTranslator.MessagesEndLower | src/Commons/exceptions/DomainErrorTranslator.js:11-40 | helper for `TranslatedIsNoCode`, not a promise of the source: every client message in the directory is non-empty and ends in a lower-case letter, so no message is a code |
| DomainErrorTranslator.TranslatedIsNoCode | src/Commons/exceptions/DomainErrorTranslator.js:6-8 | no translated error carries a message that is itself a code |
| DomainErrorTranslator.TranslateIdempotent | src/Commons/exceptions/DomainErrorTranslator.js:6-8 | translating twice is translating once |
| DomainErrorTranslator.TranslatedKinds | src/Commons/exceptions/DomainErrorTranslator.js:11-40 | among known codes, only COMMENT_NOT_OWNED becomes an authorization error, and exactly the three lookup failures become not-found errors |
| TranslatedRejections.CommentRejectionsAreInvariantErrors | src/Commons/exceptions/DomainErrorTranslator.js:22-36 | every payload rejection of AddComment and DeleteComment, the `AddComment` entity's two codes and AddThread's code reach the client as invariant errors |
| TranslatedRejections.AddReplyRejectionsPassThrough | src/Commons/exceptions/DomainErrorTranslator.js:11-40 | the AddReply use case's and entity's codes have no entry and pass through unchanged |
| TranslatedRejections.DeleteReplyRejectionsPassThrough | src/Commons/exceptions/DomainErrorTranslator.js:11-40 | the DeleteReply use case's codes pass through unchanged |
| TranslatedRejections.ReverseLikeRejectionsPassThrough | src/Commons/exceptions/DomainErrorTranslator.js:11-40 | the ReverseLikeOfComment use case's codes pass through unchanged |
| TranslatedRejections.GetThreadDetailRejectionsPassThrough | src/Commons/exceptions/DomainErrorTranslator.js:11-40 | the GetThreadDetail use case's codes pass through unchanged |
| LikeRepositoryPostgres.Matching | src/Infrastructures/repository/LikeRepositoryPostgres.js:61 | the rows `WHERE comment_id = $1 AND user_id = $2` selects: exactly the table's rows of that pair |
| LikeRepositoryPostgres.Flip | src/Infrastructures/repository/LikeRepositoryPostgres.js:92 | the toggling UPDATE: every row of the pair gets the negated flag and the new time, every other row is unchanged |
| LikeRepositoryPostgres.SetById | src/Infrastructures/repository/LikeRepositoryPostgres.js:43 | the id-keyed UPDATE: rows with that id get the new pair, flag and time, others are unchanged |
| LikeRepositoryPostgres.RowPayload | src/Infrastructures/repository/LikeRepositoryPostgres.js:79-85 | the object built from a returned row carries each column under its camel-case key |
| LikeRepositoryPostgres.RowBuildsLike | src/Infrastructures/repository/LikeRepositoryPostgres.js:109-115 | a returned row with filled ids always builds a `Like` with exactly its fields |
| LikeRepositoryPostgres.FlipKeepsKeysAndPairs | src/Infrastructures/repository/LikeRepositoryPostgres.js:92 | the toggle changes no id and no pair, keeps the key unique, and is a no-op when no row matches |
| LikeRepositoryPostgres.SetByIdKeepsKeys | src/Infrastructures/repository/LikeRepositoryPostgres.js:43 | the id-keyed update keeps ids in place and unique, is a no-op on a missing id, and every row with the id is the new row |
| LikeRepositoryPostgres.FlipTwiceRestores | src/Infrastructures/repository/LikeRepositoryPostgres.js:92 | toggling twice restores every row's flag, id and pair |
| LikeRepositoryPostgres.ReverseKeepsOnePerPair | src/Infrastructures/repository/LikeRepositoryPostgres.js:91-102 | with at most one row per pair before, the toggle keeps it, and so does the insert made only when the pair had none |
| LikeRepositoryPostgres.AddLikeCanDuplicatePair | src/Infrastructures/repository/LikeRepositoryPostgres.js:17-20 | addLike on a pair that already has a row leaves two rows for that pair |
| LikeRepositoryPostgres.LikeRepositoryPostgres.constructor | src/Infrastructures/repository/LikeRepositoryPostgres.js:7-11 | a repository over a table whose ids are unique |
| LikeRepositoryPostgres.LikeRepositoryPostgres.AddLike | src/Infrastructures/repository/LikeRepositoryPostgres.js:13-34 | appends one row `'like-'+gen` for the pair with flag true and the current time, without looking for an existing one; a taken id leaves the table unchanged with a duplicate-key error |
| LikeRepositoryPostgres.LikeRepositoryPostgres.UpdateLike | src/Infrastructures/repository/LikeRepositoryPostgres.js:36-57 | the table becomes the id-keyed update; a missing id changes nothing and fails reading the absent row; otherwise the result is the `UpdatedLike` built from the new row |
| LikeRepositoryPostgres.LikeRepositoryPostgres.Exist | src/Infrastructures/repository/LikeRepositoryPostgres.js:59-68 | true exactly when some row has that comment and user |
| LikeRepositoryPostgres.LikeRepositoryPostgres.FindByComment | src/Infrastructures/repository/LikeRepositoryPostgres.js:70-86 | with no row of the pair it fails reading the absent row; otherwise it is the `Like` built from the pair's first row, which is exactly that row's id, pair, flag and time when the ids are filled; any `Like` returned is field for field a row of the pair |
| LikeRepositoryPostgres.LikeRepositoryPostgres.Reverse | src/Infrastructures/repository/LikeRepositoryPostgres.js:88-116 | a matched pair is toggled and nothing inserted, the first toggled row returned; an unmatched pair gets exactly one new liked row, returned; a taken id changes nothing; at most one row per pair is preserved |
| CommentRepositoryPostgres.Username | src/Infrastructures/repository/CommentRepositoryPostgres.js:29 | the left join gives the owner's username, or null when the owner has no user row |
| CommentRepositoryPostgres.LiveRow | src/Infrastructures/repository/CommentRepositoryPostgres.js:29 | `deleted_at IS NULL AND id = $1`: nothing exactly when no live row has the id, otherwise a live row with it |
| CommentRepositoryPostgres.ThreadRows | src/Infrastructures/repository/CommentRepositoryPostgres.js:40 | `thread_id = $1`: exactly the thread's rows, deleted or not |
| CommentRepositoryPostgres.View | src/Infrastructures/repository/CommentRepositoryPostgres.js:40 | a listed row keeps id, date and username; its content is masked exactly when it is deleted |
| CommentRepositoryPostgres.SoftDelete | src/Infrastructures/repository/CommentRepositoryPostgres.js:51 | `SET deleted_at = NOW() WHERE id = $1`: rows with the id get the new stamp, no row is added, removed or otherwise changed |
| CommentRepositoryPostgres.ReturnedAsWritten | src/Infrastructures/repository/CommentRepositoryPostgres.js:18-24 | the object `RETURNING id, content, owner` spreads has those three fields and no threadId or commentId |
| CommentRepositoryPostgres.ReturnedInFull | src/Infrastructures/repository/CommentRepositoryPostgres.js:18-24 | an object carrying all five stored columns |
| CommentRepositoryPostgres.AsWrittenReturnRejected | src/Infrastructures/repository/CommentRepositoryPostgres.js:18-24 | for every stored row, the returned object is rejected by `AddedComment` with its missing-property code |
| CommentRepositoryPostgres.FullReturnRebuildsComment | src/Infrastructures/repository/CommentRepositoryPostgres.js:18-24 | with all five columns returned, a row with filled text builds exactly the stored comment |
| CommentRepositoryPostgres.DeletedHiddenButListed | src/Infrastructures/repository/CommentRepositoryPostgres.js:27-56 | after a delete the id is gone from getCommentById, but each deleted row is still in its thread's rows and listed with masked content and its other fields unchanged |
| CommentRepositoryPostgres.DeleteStaysDeleted | src/Infrastructures/repository/CommentRepositoryPostgres.js:49-56 | deleting twice keeps the row deleted (with the later stamp) and every other row unchanged |
| CommentRepositoryPostgres.CommentRepositoryPostgres.constructor | src/Infrastructures/repository/CommentRepositoryPostgres.js:5-9 | a repository over a table whose ids are unique |
| CommentRepositoryPostgres.CommentRepositoryPostgres.Insert | src/Infrastructures/repository/CommentRepositoryPostgres.js:15-22 | appends one live row `'comment-'+gen` with the entity's threadId, content, commentId and owner; a taken id leaves the table unchanged with a duplicate-key error |
| CommentRepositoryPostgres.CommentRepositoryPostgres.AddCommentAsWritten | src/Infrastructures/repository/CommentRepositoryPostgres.js:11-25 | as written: with a fresh id, exactly the live row `comment-<id>` carrying the comment's thread, content, parent, owner and the insert time is appended, then the call fails with ADDED_COMMENT.NOT_CONTAIN_NEEDED_PROPERTY; a taken id changes nothing and fails with the duplicate-key error |
| CommentRepositoryPostgres.CommentRepositoryPostgres.AddComment | src/Infrastructures/repository/CommentRepositoryPostgres.js:11-25 | corrected: with a fresh id, exactly the live row `comment-<id>` carrying the comment's fields and the insert time is appended, and with filled text fields the stored comment is returned field for field; a taken id changes nothing and fails with the duplicate-key error |
| CommentRepositoryPostgres.CommentRepositoryPostgres.GetCommentById | src/Infrastructures/repository/CommentRepositoryPostgres.js:27-36 | nothing exactly when no live row has the id; otherwise that row's id, date, content, owner and the owner's username |
| CommentRepositoryPostgres.CommentRepositoryPostgres.GetCommentsByThread | src/Infrastructures/repository/CommentRepositoryPostgres.js:38-47 | one entry per row of the thread, deleted or not, in table order, each that row through `View`; every such row is listed and nothing else is |
| CommentRepositoryPostgres.CommentRepositoryPostgres.DeleteCommentById | src/Infrastructures/repository/CommentRepositoryPostgres.js:49-56 | the table becomes the soft delete of the id, the key stays unique, and the id no longer has a live row |
| ThreadRepositoryPostgres.RowWithId | src/Infrastructures/repository/ThreadRepositoryPostgres.js:29 | `WHERE threads.id = $1`: nothing exactly when no row has the id, otherwise a row with it |
| ThreadRepositoryPostgres.Shown | src/Infrastructures/repository/ThreadRepositoryPostgres.js:29-35 | the thread keeps the row's id, title, body and date, with the owner's username or null |
| ThreadRepositoryPostgres.ThreadRepositoryPostgres.constructor | src/Infrastructures/repository/ThreadRepositoryPostgres.js:7-11 | a repository over a table whose ids are unique |
| ThreadRepositoryPostgres.ThreadRepositoryPostgres.AddThread | src/Infrastructures/repository/ThreadRepositoryPostgres.js:13-25 | appends one row `'thread-'+gen` with the title, body and owner, returns its id, title and owner, and the new thread is then available; a taken id changes nothing |
| ThreadRepositoryPostgres.ThreadRepositoryPostgres.GetThreadById | src/Infrastructures/repository/ThreadRepositoryPostgres.js:27-36 | nothing exactly when no row has the id; otherwise that row shown with its owner's username |
| ThreadRepositoryPostgres.ThreadRepositoryPostgres.VerifyThreadAvailability | src/Infrastructures/repository/ThreadRepositoryPostgres.js:38-49 | passes exactly when some row has the id, otherwise fails with NotFound 'Thread tidak ditemukan' |
| ThreadRepositoryPostgres.ThreadRepositoryPostgres.AvailableExactlyWhenReadable | src/Infrastructures/repository/ThreadRepositoryPostgres.js:27-49 | a thread is available exactly when getThreadById finds it, and what is found has the id asked for |
| ReplyRepositoryPostgres.ByCommentAndUser | src/Infrastructures/repository/ReplyRepositoryPostgres.js:35 | `a.comment_id = $1 AND a.user_id = $2`: exactly the rows of that comment by that user |
| ReplyRepositoryPostgres.Listed | src/Infrastructures/repository/ReplyRepositoryPostgres.js:41-47 | a listed reply keeps id, content and creation time, has the author's username or null, and is deleted exactly when `deleted_at` is set |
| ReplyRepositoryPostgres.ReplyRepositoryPostgres.constructor | src/Infrastructures/repository/ReplyRepositoryPostgres.js:6-10 | a repository over a table whose ids are unique |
| ReplyRepositoryPostgres.ReplyRepositoryPostgres.AddReply | src/Infrastructures/repository/ReplyRepositoryPostgres.js:12-31 | appends one live row `'reply-'+gen` and returns its id, content and the author as owner; a taken id changes nothing |
| ReplyRepositoryPostgres.ReplyRepositoryPostgres.FindByComment | src/Infrastructures/repository/ReplyRepositoryPostgres.js:33-48 | one reply per row of that comment and user, in table order, each as `Listed`; every such row is listed |
| ReplyRepositoryPostgres.ReplyRepositoryPostgres.OnlyOwnRepliesListed | src/Infrastructures/repository/ReplyRepositoryPostgres.js:35-46 | everything listed comes from a row of that comment written by that user |
| ReplyRepositoryPostgres.ReplyRepositoryPostgres.DeleteReply | src/Domains/replies/ReplyRepository.js:6-8 | not overridden: throws REPLY_REPOSITORY.METHOD_NOT_IMPLEMENTED |
| ReplyRepositoryPostgres.ReplyRepositoryPostgres.VerifyReplyAvailability | src/Domains/replies/ReplyRepository.js:14-16 | not overridden: throws REPLY_REPOSITORY.METHOD_NOT_IMPLEMENTED |
| ReplyRepositoryPostgres.ReplyRepositoryPostgres.VerifyReplyOwner | src/Domains/replies/ReplyRepository.js:18-20 | not overridden: throws REPLY_REPOSITORY.METHOD_NOT_IMPLEMENTED |
| ReplyDeletionWiring.ValidDeletionAlwaysFails | src/Applications/use_case/DeleteReplyUseCase.js:6-11 | with the inherited availability check, a valid deletion makes only that call and fails with METHOD_NOT_IMPLEMENTED; the delete is never reached |

## Left out

- HTTP routing, authentication, response shaping, migrations, the connection pool and SQL text are not modelled. Tables are sequences of rows, the users table is a map from id to username, and the clock and id generator are parameters.
- Row order of SQL results is modelled as storage order. PostgreSQL does not promise any order without `ORDER BY`, so "first row" means the first in storage order.
- Concurrency is not modelled. The read-then-insert in `reverse` is one sequential step, and no atomicity is claimed.
- JavaScript numbers are integers here. Floats and NaN are not modelled. `toISOString` is the identity on a non-empty time text (`Instant`).
- A null or undefined payload that a use case destructures throws a JavaScript TypeError, not a coded error. The record payload of AddComment, AddReply, DeleteReply and ReverseLikeOfComment is never null here.
- The `AddThread`, `AddedThread`, `Thread`, `AddedReply`, `Reply`, `AddLike` and `AddedLike` constructors are not part of this model. Their records are plain datatypes. `AddThreadUseCase.Execute` takes the `AddThread` constructor as a parameter.
- LikeRepositoryPostgres.LikeRepositoryPostgres.AddLike: returns the inserted row rather than an `AddedLike`, whose constructor is not part of this model.
- ThreadRepositoryPostgres.ThreadRepositoryPostgres.GetThreadById: with no row, the source builds `new Thread({})`, whose behaviour is not part of this model. The model returns nothing.
- Foreign keys are not modelled: `comments.thread_id` and `comments.comment_id`, `likes.comment_id` and `likes.user_id`, and the references of `replies` are not checked. `CommentRepositoryPostgres.CommentRepositoryPostgres.Insert`, `AddComment`, `AddCommentAsWritten`, `LikeRepositoryPostgres.LikeRepositoryPostgres.AddLike`, `UpdateLike`, `Reverse` and `ReplyRepositoryPostgres.ReplyRepositoryPostgres.AddReply` never fail with a foreign-key violation; only the primary key is enforced.
- `CommentRepository.verifyCommentAvailability` and `verifyCommentOwner` have no implementation in the modelled files. The use cases see them only as repository answers.
- `translate` looks codes up in a plain JavaScript object. An inherited key such as `constructor` would also be found there. The model's directory is a map of the 26 listed codes only.
- In three places the documented behaviour and the code disagree, and the model follows the code:
  - Deleting an already-deleted comment stamps `deleted_at` again rather than keeping the first time (`SoftDelete`).
  - `getCommentsByThread` returns no like count and no replies.
  - The reply repository class is declared as `LikeRepositoryPostgres` in its file.
- Wiring of the use cases to the concrete Postgres classes is not modelled, apart from `ReplyDeletionWiring`. The use-case oracles are independent of the class models.

## Findings

| source | as written | input that shows it | evidently intended | confidence | as-written member | corrected member |
|---|---|---|---|---|---|---|
| src/Infrastructures/repository/CommentRepositoryPostgres.js:18-24 | the insert returns only `id, content, owner`, and `new AddedComment` requires `threadId`, so every successful insert ends in ADDED_COMMENT.NOT_CONTAIN_NEEDED_PROPERTY after the row is stored | any valid comment, e.g. threadId `thread-1`, content `hi`, owner `user-1`, commentId null, with a fresh id | return all five columns so the stored comment comes back as an `AddedComment` | not executed | CommentRepositoryPostgres.AsWrittenReturnRejected | CommentRepositoryPostgres.FullReturnRebuildsComment |

/**
 * Translating domain error codes into the client errors the HTTP layer
 * answers with: a lookup of the error's message in a fixed directory, falling
 * back to the error itself.
 */
module DomainErrorTranslator {
  import opened Errors

  /** `_directories`: domain code to client error. */
  const Directories: map<string, Error> := map[
    "REGISTER_USER.NOT_CONTAIN_NEEDED_PROPERTY" :=
      Error(Invariant, "tidak dapat membuat user baru karena properti yang dibutuhkan tidak ada"),
    "REGISTER_USER.NOT_MEET_DATA_TYPE_SPECIFICATION" :=
      Error(Invariant, "tidak dapat membuat user baru karena tipe data tidak sesuai"),
    "REGISTER_USER.USERNAME_LIMIT_CHAR" :=
      Error(Invariant, "tidak dapat membuat user baru karena karakter username melebihi batas limit"),
    "REGISTER_USER.USERNAME_CONTAIN_RESTRICTED_CHARACTER" :=
      Error(Invariant, "tidak dapat membuat user baru karena username mengandung karakter terlarang"),
    "USER_LOGIN.NOT_CONTAIN_NEEDED_PROPERTY" :=
      Error(Invariant, "harus mengirimkan username dan password"),
    "USER_LOGIN.NOT_MEET_DATA_TYPE_SPECIFICATION" :=
      Error(Invariant, "username dan password harus string"),
    "REFRESH_AUTHENTICATION_USE_CASE.NOT_CONTAIN_REFRESH_TOKEN" :=
      Error(Invariant, "harus mengirimkan token refresh"),
    "REFRESH_AUTHENTICATION_USE_CASE.PAYLOAD_NOT_MEET_DATA_TYPE_SPECIFICATION" :=
      Error(Invariant, "refresh token harus string"),
    "DELETE_AUTHENTICATION_USE_CASE.NOT_CONTAIN_REFRESH_TOKEN" :=
      Error(Invariant, "harus mengirimkan token refresh"),
    "DELETE_AUTHENTICATION_USE_CASE.PAYLOAD_NOT_MEET_DATA_TYPE_SPECIFICATION" :=
      Error(Invariant, "refresh token harus string"),
    "ADD_THREAD_USE_CASE.NOT_CONTAIN_NEEDED_PROPERTY" :=
      Error(Invariant, "tidak dapat membuat thread baru karena properti yang dibutuhkan tidak ada"),
    "ADD_THREAD.NOT_CONTAIN_NEEDED_PROPERTY" :=
      Error(Invariant, "tidak dapat membuat thread baru karena properti yang dibutuhkan tidak lengkap"),
    "ADD_THREAD.NOT_MEET_DATA_TYPE_SPECIFICATION" :=
      Error(Invariant, "tidak dapat membuat thread baru karena tipe data tidak sesuai"),
    "ADD_COMMENT.NOT_CONTAIN_NEEDED_PROPERTY" :=
      Error(Invariant, "tidak dapat membuat comment baru karena properti yang dibutuhkan tidak ada"),
    "ADD_COMMENT.NOT_MEET_DATA_TYPE_SPECIFICATION" :=
      Error(Invariant, "tidak dapat membuat comment baru karena tipe data tidak sesuai"),
    "ADD_COMMENT_USE_CASE.NOT_CONTAIN_NEEDED_PROPERTY" :=
      Error(Invariant, "tidak dapat membuat comment baru karena properti yang dibutuhkan tidak ada"),
    "ADD_COMMENT_USE_CASE.NOT_MEET_DATA_TYPE_SPECIFICATION" :=
      Error(Invariant, "tidak dapat membuat comment baru karena tipe data tidak sesuai"),
    "ADD_COMMENT_USE_CASE.THREAD_ID_IS_NOT_FOUND" :=
      Error(NotFound, "tidak dapat membuat comment baru karena threadId tidak ditemukan"),
    "DELETE_COMMENT_USE_CASE.NOT_CONTAIN_ANY_PROPERTY" :=
      Error(Invariant, "tidak dapat menghapus comment karena tidak ada properti yang dikirimkan"),
    "DELETE_COMMENT_USE_CASE.NOT_CONTAIN_COMMENT_ID" :=
      Error(Invariant, "tidak dapat menghapus comment karena tidak ada properti commentId"),
    "DELETE_COMMENT_USE_CASE.NOT_CONTAIN_THREAD_ID" :=
      Error(Invariant, "tidak dapat menghapus comment karena tidak ada properti threadId"),
    "DELETE_COMMENT_USE_CASE.NOT_CONTAIN_OWNER" :=
      Error(Invariant, "tidak dapat menghapus comment karena tidak ada properti owner"),
    "DELETE_COMMENT_USE_CASE.PAYLOAD_NOT_MEET_DATA_TYPE_SPECIFICATION" :=
      Error(Invariant, "tidak dapat menghapus comment karena tipe data tidak sesuai"),
    "DELETE_COMMENT_USE_CASE.THREAD_NOT_FOUND" :=
      Error(NotFound, "tidak dapat menghapus comment karena thread tidak ditemukan"),
    "DELETE_COMMENT_USE_CASE.COMMENT_NOT_OWNED" :=
      Error(Authorization, "tidak dapat menghapus comment karena tidak memiliki akses"),
    "DELETE_COMMENT_USE_CASE.COMMENT_NOT_FOUND" :=
      Error(NotFound, "tidak dapat menghapus comment karena comment tidak ditemukan")
  ]

  /**
   * The directory's keys are upper-case codes and its messages lower-case
   * Indonesian sentences, so the two never meet: each key ends in an
   * upper-case letter, each message in a lower-case one.
   */
  lemma CodesEndUpper()
    ensures forall k :: k in Directories ==> k != [] && 'A' <= k[|k| - 1] <= 'Z'
  {
  }

  lemma MessagesEndLower()
    ensures forall k :: k in Directories ==>
      var m := Directories[k].message; m != [] && 'a' <= m[|m| - 1] <= 'z'
  {
  }

  /** `translate`: the directory's error for a known code, the error itself otherwise. */
  function Translate(e: Error): (r: Error)
    ensures e.message !in Directories ==> r == e
    // a known code always becomes one of the three client error classes
    ensures e.message in Directories ==> r.kind in {Invariant, NotFound, Authorization}
  {
    if e.message in Directories then Directories[e.message] else e
  }

  /** Nothing the translator returns is itself a code it would translate. */
  lemma TranslatedIsNoCode(e: Error)
    ensures Translate(e).message !in Directories
  {
    if e.message in Directories {
      var m := Directories[e.message].message;
      MessagesEndLower();
      CodesEndUpper();
      assert m != [] && 'a' <= m[|m| - 1] <= 'z';
    }
  }

  /** Translating twice is translating once. */
  lemma TranslateIdempotent(e: Error)
    ensures Translate(Translate(e)) == Translate(e)
  {
    TranslatedIsNoCode(e);
  }

  /** Only the ownership rejection becomes an authorization error; only the three lookup failures become not-found errors. */
  lemma TranslatedKinds(code: string)
    requires code in Directories
    ensures Translate(Raise(code)).kind == Authorization <==> code == "DELETE_COMMENT_USE_CASE.COMMENT_NOT_OWNED"
    ensures Translate(Raise(code)).kind == NotFound <==>
      code in {"ADD_COMMENT_USE_CASE.THREAD_ID_IS_NOT_FOUND", "DELETE_COMMENT_USE_CASE.THREAD_NOT_FOUND",
               "DELETE_COMMENT_USE_CASE.COMMENT_NOT_FOUND"}
  {
  }
}

/** What becomes of the use cases' rejections once translated. */
module TranslatedRejections {
  import opened Errors
  import opened DomainErrorTranslator
  import JsValues
  import AddCommentUseCase
  import AddReplyUseCase
  import DeleteCommentUseCase
  import DeleteReplyUseCase
  import GetThreadDetailUseCase
  import ReverseLikeOfCommentUseCase
  import AddThreadUseCase
  import CommentEntities
  import ReplyEntities

  /** Every payload rejection of the comment use cases reaches the client as an invariant error. */
  lemma CommentRejectionsAreInvariantErrors(p: JsValues.Payload, payload: JsValues.JsValue)
    ensures AddCommentUseCase.ValidatePayload(p).Fail? ==>
      Translate(AddCommentUseCase.ValidatePayload(p).error).kind == Invariant
    ensures DeleteCommentUseCase.ValidatePayload(payload).Fail? ==>
      Translate(DeleteCommentUseCase.ValidatePayload(payload).error).kind == Invariant
    ensures Translate(Raise(CommentEntities.AddCommentMissingProperty)).kind == Invariant
    ensures Translate(Raise(CommentEntities.AddCommentWrongType)).kind == Invariant
    ensures Translate(Raise(AddThreadUseCase.MissingProperty)).kind == Invariant
  {
  }

  /** A reply payload rejected by the use case or by the `AddReply` entity has no entry and is passed on as it is. */
  lemma AddReplyRejectionsPassThrough(code: string)
    requires code in {AddReplyUseCase.MissingProperty, AddReplyUseCase.WrongType,
                      ReplyEntities.AddReplyMissingProperty, ReplyEntities.AddReplyWrongType}
    ensures Translate(Raise(code)) == Raise(code)
  {
  }

  /** So is a rejected reply deletion. */
  lemma DeleteReplyRejectionsPassThrough(code: string)
    requires code in {DeleteReplyUseCase.MissingProperty, DeleteReplyUseCase.WrongType}
    ensures Translate(Raise(code)) == Raise(code)
  {
  }

  /** So is a rejected like reversal. */
  lemma ReverseLikeRejectionsPassThrough(code: string)
    requires code in {ReverseLikeOfCommentUseCase.MissingProperty, ReverseLikeOfCommentUseCase.WrongType}
    ensures Translate(Raise(code)) == Raise(code)
  {
  }

  /** So is a rejected thread-detail request. */
  lemma GetThreadDetailRejectionsPassThrough(code: string)
    requires code in {GetThreadDetailUseCase.MissingProperty, GetThreadDetailUseCase.WrongType}
    ensures Translate(Raise(code)) == Raise(code)
  {
  }
}

/**
 * The reply entities. `AddReply` is modelled with its validation; `AddedReply`
 * and the fields handed to `Reply` are plain records, because the source of
 * those two constructors is not part of this model.
 */
module ReplyEntities {
  import opened Prelude
  import opened JsValues
  import opened Errors

  const AddReplyMissingProperty := "ADD_REPLY.NOT_CONTAIN_NEEDED_PROPERTY"
  const AddReplyWrongType := "ADD_REPLY.NOT_MEET_DATA_TYPE_SPECIFICATION"

  datatype AddReply = AddReply(id: string, commentId: string, userId: string, content: string)

  /** What adding a reply returns: its id, its content and its author as `owner`. */
  datatype AddedReply = AddedReply(id: string, content: string, owner: string)

  /** The fields a reply listing hands to the `Reply` constructor. */
  datatype ReplyFields = ReplyFields(id: string, content: string, date: string,
                                     username: Option<string>, isDeleted: bool)

  /** The presence test of `AddReply`: every field, with `!x`, so an empty content is missing. */
  predicate AddReplyLacksProperty(p: Payload)
  {
    !Truthy(Get(p, "id")) || !Truthy(Get(p, "commentId")) || !Truthy(Get(p, "userId"))
    || !Truthy(Get(p, "content"))
  }

  /** `new AddReply(payload)` */
  function NewAddReply(p: Payload): (r: Result<AddReply, Error>)
    ensures r.Success? <==>
      && FilledString(Get(p, "id")) && FilledString(Get(p, "commentId"))
      && FilledString(Get(p, "userId")) && FilledString(Get(p, "content"))
    ensures AddReplyLacksProperty(p) ==> r == Failure(Raise(AddReplyMissingProperty))
    ensures r.Failure? && !AddReplyLacksProperty(p) ==> r.error == Raise(AddReplyWrongType)
    ensures r.Success? ==>
      && Get(p, "id") == Str(r.value.id) && Get(p, "commentId") == Str(r.value.commentId)
      && Get(p, "userId") == Str(r.value.userId) && Get(p, "content") == Str(r.value.content)
  {
    var id, commentId, userId, content := Get(p, "id"), Get(p, "commentId"), Get(p, "userId"), Get(p, "content");
    if !Truthy(id) || !Truthy(commentId) || !Truthy(userId) || !Truthy(content) then
      Failure(Raise(AddReplyMissingProperty))
    else if !IsString(id) || !IsString(commentId) || !IsString(userId) || !IsString(content) then
      Failure(Raise(AddReplyWrongType))
    else
      Success(AddReply(id.s, commentId.s, userId.s, content.s))
  }
}

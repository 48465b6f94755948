/** Identifiers, optional values and the reply kinds shared by every route of the chat backend. */
module Common {

  /** Document ids (Mongo ObjectIds) are opaque; naturals stand for them. */
  type UserId = nat
  type GroupId = nat
  type RequestId = nat
  type EntryId = nat
  type AnnouncementId = nat
  type MessageId = nat
  type ArticleId = nat

  /** Instants from `new Date()` / `Date.now`, as an opaque clock reading. */
  type Time = nat

  datatype Option<+T> = None | Some(value: T)

  /** The HTTP error statuses the handlers answer with: 404, 403, 400, and 500 for a
      thrown exception or a document that fails schema validation on save. */
  datatype Failure = NotFound | Forbidden | BadRequest | ServerError

  /** A handler's reply: a 200 with a payload, or one of the error statuses. */
  datatype Result<+T> = Ok(value: T) | Err(failure: Failure)
}

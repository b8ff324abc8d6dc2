/**
 * What a handler answers. The validator's refusal carries the grouped
 * `errors`; the other answers are a JSON body with a message and data, a
 * JSON body with only a message, and the 500 of the `HTTPException` a
 * handler throws when the database refuses a statement.
 */
module Responses {
  import opened ValidatorHandler
  import opened Paging

  datatype Response<T> =
    | Rejected(errors: Errors)
    | Reply(status: int, message: string, data: T)
    | Refused(status: int, message: string)
    | Internal

  /** A list handler answers the validator's refusal or the `{ page, pages, total, data }` body. */
  datatype ListResponse<T> = ListRejected(errors: Errors) | ListReply(body: Paged<T>)
}

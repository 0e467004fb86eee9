/** The notifications the wishlist components raise once the toggle
    mutation settles: a success toast titled by the server's message, or an
    error toast built from the error payload. */
module Notify {
  import opened Wrappers

  datatype ToastStatus = SuccessToast | ErrorToast

  datatype Toast = Toast(status: ToastStatus, title: Option<string>, description: Option<string>)

  /** `error.data` of a rejected request: `{ message, subMessage }`. */
  datatype ErrorData = ErrorData(message: Option<string>, subMessage: Option<string>)

  /** How `addToWishlist(...).unwrap()` settles: resolved with the
      response's `message` (absent when there is no response or no
      message), or rejected with an error whose `data` may be missing. */
  datatype MutationReply = Resolved(message: Option<string>) | Rejected(data: Option<ErrorData>)

  const Fallback := "Something went wrong"

  /** `response?.message || 'Something went wrong'` */
  function SuccessTitle(message: Option<string>): (t: string)
    ensures t != ""
    ensures Truthy(message) ==> t == message.value
    ensures !Truthy(message) ==> t == Fallback
  {
    if Truthy(message) then message.value else Fallback
  }

  /** The toast raised when the mutation settles. A rejection without
      `data` throws inside the `catch` handler, so no toast appears. */
  function MutationToast(reply: MutationReply): (t: Option<Toast>)
    ensures reply.Resolved? ==> t.Some? && t.value.status == SuccessToast
                                && t.value.title == Some(SuccessTitle(reply.message))
                                && t.value.description.None?
    ensures reply.Rejected? && reply.data.Some? ==>
              t == Some(Toast(ErrorToast, reply.data.value.message, reply.data.value.subMessage))
    ensures reply.Rejected? && reply.data.None? ==> t.None?
  {
    match reply
    case Resolved(message) => Some(Toast(SuccessToast, Some(SuccessTitle(message)), None))
    case Rejected(data) =>
      if data.Some? then Some(Toast(ErrorToast, data.value.message, data.value.subMessage)) else None
  }
}

/**
 * The answers the client pages get back from `fetch`: a reply that arrived
 * (its `ok` flag and the JSON fields the page reads) or a request that was
 * rejected before any reply, with the message of the error it raised.
 */
module Replies {
  import opened Wrappers

  /** `/api/upload`: `publicUrl` on success, `error` otherwise. */
  datatype UploadReply =
    | UploadAnswer(ok: bool, publicUrl: Option<string>, error: Option<string>)
    | UploadRejected(reason: string)

  /** `/api/badges` as the pages read it: `message`, `error`, `requires_registration` and `badge.id`. */
  datatype CreateReply =
    | CreateAnswer(ok: bool, message: Option<string>, error: Option<string>,
                   requiresRegistration: Option<bool>, badgeId: Option<string>)
    | CreateRejected(reason: string)

  /** `/api/send-badge-email`: only whether the reply was ok is ever looked at. */
  datatype MailReply =
    | MailAnswer(ok: bool)
    | MailRejected(reason: string)

  /** What a page shows the administrator: toasts and alerts, in order. */
  datatype Notice =
    | Alert
    | ToastError(text: string)
    | ToastSuccess(text: string)
}

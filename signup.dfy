/**
 * `handleSubmit` of app/auth/signup/page.tsx: the password checks, the
 * sign-up call, and what the page does with its answer.
 */
module SignUp {
  import opened Wrappers
  import opened Passwords

  const TooShort: string := "Password must be at least 6 characters long"

  /** The identity service's answer: whether it returned a session, or the error's message. */
  datatype SignUpReply = Registered(session: bool) | SignUpFailed(message: Option<string>)

  /**
   * What the page ends with: whether the service was called, the error shown,
   * the success and needs-confirmation flags, and the page the router is sent
   * to (after a delay).
   */
  datatype Outcome = Outcome(called: bool, error: string, success: bool, needsConfirmation: bool, redirect: Option<string>)

  function HandleSubmit(password: string, confirm: string, reply: SignUpReply): (o: Outcome)
    ensures Problem(password, confirm, TooShort).Some? ==>
      o == Outcome(false, Problem(password, confirm, TooShort).value, false, false, None)
    ensures o.called <==> Problem(password, confirm, TooShort).None?
    ensures o.called && reply.Registered? ==>
      && o.success && o.error == ""
      && o.needsConfirmation == !reply.session
      && o.redirect == (if reply.session then Some("/dashboard") else None)
    ensures o.called && reply.SignUpFailed? ==>
      o == Outcome(true, OrElse(reply.message, "Failed to create account. Please try again."), false, false, None)
  {
    match Problem(password, confirm, TooShort)
    case Some(message) => Outcome(false, message, false, false, None)
    case None =>
      match reply
      case SignUpFailed(message) =>
        Outcome(true, OrElse(message, "Failed to create account. Please try again."), false, false, None)
      case Registered(session) =>
        Outcome(true, "", true, !session, if session then Some("/dashboard") else None)
  }

  /** A mismatch is reported even when the password is also too short, and the service is not called. */
  lemma MismatchBeforeLength(password: string, confirm: string, reply: SignUpReply)
    requires password != confirm
    ensures HandleSubmit(password, confirm, reply) == Outcome(false, Mismatch, false, false, None)
  {
  }
}

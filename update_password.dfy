/**
 * `handleSubmit` of app/auth/update-password/page.tsx: the same two password
 * checks as sign-up with a shorter message, then the update call.
 */
module UpdatePassword {
  import opened Wrappers
  import opened Passwords
  import SignUp

  const TooShort: string := "Password must be at least 6 characters"

  /** The identity service's answer: success, or the error's message. */
  datatype UpdateReply = Updated | UpdateFailed(message: Option<string>)

  /** The page's end state: whether the service was called, the error, the success flag, the toast and the redirect. */
  datatype Outcome = Outcome(called: bool, error: string, success: bool, toast: Option<string>, redirect: Option<string>)

  function HandleSubmit(password: string, confirm: string, reply: UpdateReply): (o: Outcome)
    ensures Problem(password, confirm, TooShort).Some? ==>
      o == Outcome(false, Problem(password, confirm, TooShort).value, false, None, None)
    ensures o.called <==> Problem(password, confirm, TooShort).None?
    ensures o.called && reply.Updated? ==>
      o == Outcome(true, "", true, Some("Password updated successfully!"), Some("/auth/signin"))
    ensures o.called && reply.UpdateFailed? ==>
      && !o.success && o.redirect.None?
      && o.error == OrElse(reply.message, "Failed to update password")
      && o.toast == Some(o.error)
  {
    match Problem(password, confirm, TooShort)
    case Some(message) => Outcome(false, message, false, None, None)
    case None =>
      match reply
      case UpdateFailed(message) =>
        var text := OrElse(message, "Failed to update password");
        Outcome(true, text, false, Some(text), None)
      case Updated =>
        Outcome(true, "", true, Some("Password updated successfully!"), Some("/auth/signin"))
  }

  /**
   * Both pages accept exactly the same passwords and report a mismatch the
   * same way, but word the short-password error differently.
   */
  lemma SameRulesOtherWording(password: string, confirm: string, r1: SignUp.SignUpReply, r2: UpdateReply)
    ensures SignUp.HandleSubmit(password, confirm, r1).called <==> HandleSubmit(password, confirm, r2).called
    ensures password != confirm ==>
      SignUp.HandleSubmit(password, confirm, r1).error == HandleSubmit(password, confirm, r2).error == Mismatch
    ensures password == confirm && !HandleSubmit(password, confirm, r2).called ==>
      SignUp.HandleSubmit(password, confirm, r1).error != HandleSubmit(password, confirm, r2).error
  {
    assert |SignUp.TooShort| != |TooShort|;
  }
}

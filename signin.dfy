/**
 * The sign-in page, app/auth/signin/page.tsx: where an already signed-in
 * visitor is sent, and what a submitted form leads to.
 */
module SignIn {
  import opened Wrappers
  import opened Strings
  import opened Auth

  /** `checkSession`: the signed-in account's email (None when nobody is signed in or the lookup fails). */
  datatype Visitor = Anonymous | SignedIn(email: Option<string>)

  /**
   * An already signed-in visitor goes to the administrator page if the
   * client-side check admits their email, otherwise to the dashboard; an
   * anonymous one stays (None). The `next` parameter plays no part here.
   */
  function SessionLanding(visitor: Visitor, setting: Option<string>): (dest: Option<string>)
    ensures visitor.Anonymous? <==> dest.None?
    ensures visitor.SignedIn? ==>
      dest == Some(if IsAdmin(visitor.email, setting) then "/admin" else "/dashboard")
  {
    match visitor
    case Anonymous => None
    case SignedIn(email) => Some(if IsAdmin(email, setting) then "/admin" else "/dashboard")
  }

  /** The identity service's answer to the credentials; a failure carries the error's message. */
  datatype SignInReply = SignInOk | SignInFailed(message: Option<string>)

  /** The credentials sent, where the router goes (if anywhere), and the error shown. */
  datatype Submitted = Submitted(email: string, password: string, dest: Option<string>, error: string)

  /**
   * `handleSubmit`: the email is trimmed, the password sent as typed. After
   * a successful sign-in a non-empty `next` wins; otherwise the trimmed
   * email decides between the administrator page and the dashboard. A
   * failure shows its message, or a fallback when it has none.
   */
  function Submit(email: string, password: string, next: Option<string>, reply: SignInReply,
                  setting: Option<string>): (r: Submitted)
    ensures r.email == Trim(email) && r.password == password
    ensures reply.SignInOk? ==> r.error == "" && r.dest.Some?
    ensures reply.SignInOk? && Truthy(next) ==> r.dest == next
    ensures reply.SignInOk? && !Truthy(next) ==>
      r.dest == Some(if IsAdmin(Some(Trim(email)), setting) then "/admin" else "/dashboard")
    ensures reply.SignInFailed? ==>
      r.dest.None? && r.error == OrElse(reply.message, "Failed to sign in. Please check your credentials.")
  {
    var trimmed := Trim(email);
    match reply
    case SignInFailed(message) =>
      Submitted(trimmed, password, None, OrElse(message, "Failed to sign in. Please check your credentials."))
    case SignInOk =>
      var dest := if Truthy(next) then next.value
                  else if IsAdmin(Some(trimmed), setting) then "/admin"
                  else "/dashboard";
      Submitted(trimmed, password, Some(dest), "")
  }

  /**
   * The owner's address typed with surrounding spaces and in any letter case
   * still leads to the administrator page, because the form trims it before
   * the check (the check itself does not trim).
   */
  lemma PaddedOwnerLandsOnAdmin(pad1: string, pad2: string, email: string, password: string, setting: Option<string>)
    requires AllSpace(pad1) && AllSpace(pad2)
    requires Lower(email) == Fallback
    ensures Submit(pad1 + email + pad2, password, None, SignInOk, setting).dest == Some("/admin")
  {
    assert |email| == |Fallback|;
    assert LowerChar(email[0]) == 'b' && LowerChar(email[|email| - 1]) == 'm';
    TrimPadded(pad1, email, pad2);
    FallbackAlwaysAdmin(email, setting);
  }

  /** Trimming `pad1 + s + pad2` gives `s` back when the pads are white space and `s` neither starts nor ends with it. */
  lemma TrimPadded(pad1: string, s: string, pad2: string)
    requires AllSpace(pad1) && AllSpace(pad2)
    requires s != [] && !IsSpace(s[0]) && !IsSpace(s[|s| - 1])
    ensures Trim(pad1 + s + pad2) == s
  {
    var whole := pad1 + s + pad2;
    var k := LeadingSpace(whole);
    assert whole[|pad1|] == s[0];
    assert k == |pad1|;
    var rest := whole[k..];
    assert rest == s + pad2;
    var t := TrailingSpace(rest);
    assert rest[|s| - 1] == s[|s| - 1];
    assert t == |pad2|;
    assert whole[k..|whole| - t] == s;
  }

  /** The redirect after a successful sign-in depends on the email only through its trimmed form. */
  lemma OnlyTrimmedEmailCounts(e1: string, e2: string, password: string, next: Option<string>, setting: Option<string>)
    requires Trim(e1) == Trim(e2)
    ensures Submit(e1, password, next, SignInOk, setting) == Submit(e2, password, next, SignInOk, setting)
  {
  }
}

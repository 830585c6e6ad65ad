/**
 * `POST` of app/api/send-badge-email/route.ts: validates the request, picks
 * the new-user or existing-user wording, link and note, and maps the mail
 * provider's answer to a response.
 */
module SendEmail {
  import opened Wrappers
  import opened Strings

  /** The JSON body; `badge_id` may be sent (the bulk page does) but is never read. */
  datatype EmailBody = EmailBody(
    to_email: Option<string>,
    badge_name: Option<string>,
    event_name: Option<string>,
    badge_link: Option<string>,
    is_new_user: Option<bool>,
    badge_id: Option<string>)

  /** Which of the two message texts is used: the invitation to sign up, or the congratulation. */
  datatype Wording = Invitation | Congratulation

  /** The parts of the message that depend on the request; the fixed texts of each wording are below. */
  datatype Email = Email(
    to: string,
    subject: string,
    wording: Wording,
    badgeName: string,
    eventName: string,
    link: string,
    note: Option<string>)

  function Heading(w: Wording): string {
    if w == Invitation then "Welcome to TechNexus!" else "Congratulations!"
  }

  function Lead(w: Wording): string {
    if w == Invitation
    then "Someone issued an achievement badge to your email. Sign up now to claim your credential and join our community!"
    else "You've earned a new digital badge from the TechNexus Community."
  }

  function Button(w: Wording): string {
    if w == Invitation then "Join & Claim Badge" else "View Your Achievement"
  }

  /** What the route decides before calling the provider. */
  datatype Prepared = Send(email: Email) | Refuse(status: int, error: string)

  /** The provider's answer: HTTP success, status, and the `message` of its JSON body. */
  datatype ProviderReply = ProviderReply(ok: bool, status: int, message: Option<string>)

  /** What the route answers. */
  datatype Response = Sent | Failed(status: int, error: string, message: Option<string>)

  const DefaultAppUrl: string := "https://technexus-badges-live.vercel.app"
  const SenderName: string := "TechNexus Community"
  const SenderEmail: string := "bmsahana14@gmail.com"

  const NewUserSubjectPrefix: string := "\U{1F381} A TechNexus Badge is Waiting for You: "
  const EarnedSubjectPrefix: string := "\U{1F389} You've Earned a TechNexus Community Badge: "

  /** `body.is_new_user === true`: only the boolean `true` counts, not a missing or other value. */
  predicate IsNewUser(body: EmailBody) {
    body.is_new_user == Some(true)
  }

  function SignUpNote(to: string): string {
    "Note: Please use this email address (" + to + ") when signing up to automatically see your badge."
  }

  /** The message for a request that passed validation. */
  function Compose(to: string, badgeName: string, eventName: string, badgeLink: Option<string>,
                   isNew: bool, appUrl: string): Email
  {
    Email(
      to := to,
      subject := (if isNew then NewUserSubjectPrefix else EarnedSubjectPrefix) + badgeName,
      wording := if isNew then Invitation else Congratulation,
      badgeName := badgeName,
      eventName := eventName,
      link := if isNew then appUrl + "/auth/signup" else OrElse(badgeLink, appUrl + "/dashboard"),
      note := if isNew then Some(SignUpNote(to)) else None)
  }

  /** The three fields the route insists on are present and non-empty. */
  predicate HasRequired(body: EmailBody) {
    Truthy(body.to_email) && Truthy(body.badge_name) && Truthy(body.event_name)
  }

  /**
   * Validation (fields first, then the API key), then the message.
   * `apiKey` and `appUrlSetting` are the environment settings.
   */
  function Prepare(body: EmailBody, apiKey: Option<string>, appUrlSetting: Option<string>): (p: Prepared)
    ensures !HasRequired(body) ==> p == Refuse(400, "Missing required fields")
    ensures HasRequired(body) && !Truthy(apiKey) ==> p == Refuse(500, "Email service not configured")
    ensures p.Send? <==> HasRequired(body) && Truthy(apiKey)
    ensures p.Send? ==>
      && p.email.to == body.to_email.value && p.email.badgeName == body.badge_name.value
      && p.email.eventName == body.event_name.value
  {
    if !HasRequired(body) then Refuse(400, "Missing required fields")
    else if !Truthy(apiKey) then Refuse(500, "Email service not configured")
    else
      Send(Compose(body.to_email.value, body.badge_name.value, body.event_name.value, body.badge_link,
                   IsNewUser(body), OrElse(appUrlSetting, DefaultAppUrl)))
  }

  /** The route: the provider is consulted only for a prepared message. */
  function Post(body: EmailBody, apiKey: Option<string>, appUrlSetting: Option<string>, provider: ProviderReply): (r: Response)
    ensures r == Sent <==> Prepare(body, apiKey, appUrlSetting).Send? && provider.ok
    ensures Prepare(body, apiKey, appUrlSetting).Refuse? ==>
      r == Failed(Prepare(body, apiKey, appUrlSetting).status, Prepare(body, apiKey, appUrlSetting).error, None)
  {
    match Prepare(body, apiKey, appUrlSetting)
    case Refuse(status, error) => Failed(status, error, None)
    case Send(_) =>
      if provider.ok then Sent
      else Failed(provider.status, "Failed to send email",
                  Some(OrElse(provider.message, "Check your Brevo API key and sender email.")))
  }

  /** A missing field is reported with 400 even when the API key is missing too. */
  lemma FieldsCheckedBeforeKey(body: EmailBody, appUrlSetting: Option<string>)
    requires !HasRequired(body)
    ensures Prepare(body, None, appUrlSetting) == Refuse(400, "Missing required fields")
  {
  }

  /** Without an API key the answer is 500 and the provider's answer plays no part. */
  lemma MissingKeyNoProviderCall(body: EmailBody, apiKey: Option<string>, appUrlSetting: Option<string>,
                                 p1: ProviderReply, p2: ProviderReply)
    requires HasRequired(body) && !Truthy(apiKey)
    ensures Post(body, apiKey, appUrlSetting, p1) == Post(body, apiKey, appUrlSetting, p2)
         == Failed(500, "Email service not configured", None)
  {
  }

  /**
   * The subject ends with the badge name, and it (like the heading, lead and
   * button texts) is the new-user wording exactly when `is_new_user` is `true`.
   */
  lemma SubjectChoice(body: EmailBody, apiKey: Option<string>, appUrlSetting: Option<string>)
    requires Prepare(body, apiKey, appUrlSetting).Send?
    ensures var e := Prepare(body, apiKey, appUrlSetting).email;
      && |e.subject| >= |body.badge_name.value|
      && e.subject[|e.subject| - |body.badge_name.value|..] == body.badge_name.value
      && (e.subject == NewUserSubjectPrefix + body.badge_name.value <==> IsNewUser(body))
      && (e.subject == EarnedSubjectPrefix + body.badge_name.value <==> !IsNewUser(body))
      && (e.wording == Invitation <==> IsNewUser(body))
  {
    var name := body.badge_name.value;
    var prefix := if IsNewUser(body) then NewUserSubjectPrefix else EarnedSubjectPrefix;
    var e := Prepare(body, apiKey, appUrlSetting).email;
    assert e.subject == prefix + name;
    assert (prefix + name)[|prefix|..] == name;
    SubjectPrefixesDiffer(name);
  }

  /** The two subject wordings never coincide, whatever the badge name. */
  lemma SubjectPrefixesDiffer(name: string)
    ensures NewUserSubjectPrefix + name != EarnedSubjectPrefix + name
  {
    assert NewUserSubjectPrefix[2] == 'A' && EarnedSubjectPrefix[2] == 'Y';
    PrefixesDiffer(NewUserSubjectPrefix, EarnedSubjectPrefix, name, 2);
  }

  /** Two texts that differ at some position inside both stay different with the same ending. */
  lemma PrefixesDiffer(p: string, q: string, name: string, k: nat)
    requires k < |p| && k < |q| && p[k] != q[k]
    ensures p + name != q + name
  {
    assert (p + name)[k] == p[k];
    assert (q + name)[k] == q[k];
  }

  /**
   * The button link: sign-up for a new user whatever `badge_link` says;
   * otherwise `badge_link` if given, else the dashboard of the application URL
   * (the deployed address when unset).
   */
  lemma LinkChoice(body: EmailBody, apiKey: Option<string>, appUrlSetting: Option<string>)
    requires Prepare(body, apiKey, appUrlSetting).Send?
    ensures var link := Prepare(body, apiKey, appUrlSetting).email.link;
      var appUrl := if Truthy(appUrlSetting) then appUrlSetting.value else DefaultAppUrl;
      && (IsNewUser(body) ==> link == appUrl + "/auth/signup")
      && (!IsNewUser(body) && Truthy(body.badge_link) ==> link == body.badge_link.value)
      && (!IsNewUser(body) && !Truthy(body.badge_link) ==> link == appUrl + "/dashboard")
  {
  }

  /** The sign-up note appears only for a new user, and it repeats the recipient's address. */
  lemma {:induction false} NoteOnlyForNewUsers(body: EmailBody, apiKey: Option<string>, appUrlSetting: Option<string>)
    requires Prepare(body, apiKey, appUrlSetting).Send?
    ensures var e := Prepare(body, apiKey, appUrlSetting).email;
      && (e.note.Some? <==> IsNewUser(body))
      && (e.note.Some? ==> Contains(e.note.value, body.to_email.value))
  {
    var e := Prepare(body, apiKey, appUrlSetting).email;
    if e.note.Some? {
      var to := body.to_email.value;
      var pre := "Note: Please use this email address (";
      assert e.note.value == SignUpNote(to);
      assert SignUpNote(to)[|pre|..|pre| + |to|] == to;
      assert OccursAt(e.note.value, to, |pre|);
      ContainsAt(e.note.value, to);
    }
  }

  /** The route never reads `badge_id`. */
  lemma BadgeIdIgnored(body: EmailBody, id: Option<string>, apiKey: Option<string>, appUrlSetting: Option<string>)
    ensures Prepare(body.(badge_id := id), apiKey, appUrlSetting) == Prepare(body, apiKey, appUrlSetting)
  {
    var other := body.(badge_id := id);
    assert other.to_email == body.to_email && other.badge_name == body.badge_name;
    assert other.event_name == body.event_name && other.badge_link == body.badge_link;
    assert IsNewUser(other) == IsNewUser(body);
  }

  /** A provider failure is answered with the provider's status, 'Failed to send email' and its message or a hint. */
  lemma ProviderFailureMapped(body: EmailBody, apiKey: Option<string>, appUrlSetting: Option<string>, provider: ProviderReply)
    requires Prepare(body, apiKey, appUrlSetting).Send? && !provider.ok
    ensures Post(body, apiKey, appUrlSetting, provider).Failed?
    ensures Post(body, apiKey, appUrlSetting, provider).status == provider.status
    ensures Post(body, apiKey, appUrlSetting, provider).error == "Failed to send email"
    ensures Truthy(provider.message) ==> Post(body, apiKey, appUrlSetting, provider).message == provider.message
    ensures !Truthy(provider.message) ==>
      Post(body, apiKey, appUrlSetting, provider).message == Some("Check your Brevo API key and sender email.")
  {
  }
}

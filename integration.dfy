/**
 * How the pages and the routes fit together: what the client pages read from
 * the creation route's answer, and what the bulk and single-badge pages'
 * requests meet on the server side.
 */
module Integration {
  import opened Wrappers
  import opened Replies
  import opened CsvRows
  import opened Strings
  import BadgesApi
  import SendEmail
  import BulkIssue
  import Issue

  /**
   * The creation route's answer as the pages read it: success carries
   * `success`, the badge and a message but never `requires_registration`;
   * a failure carries only `error`.
   */
  function ClientView(resp: BadgesApi.CreateResponse): (reply: CreateReply)
    ensures reply.CreateAnswer? && reply.requiresRegistration.None?
    ensures reply.ok <==> resp.Created?
    ensures resp.Created? ==> reply.message == Some("Badge created successfully") && reply.badgeId == Some(resp.badge.id)
    ensures resp.CreateFailed? ==> reply.message.None? && reply.error == Some(resp.error)
  {
    match resp
    case Created(badge) => CreateAnswer(true, Some("Badge created successfully"), None, None, Some(badge.id))
    case CreateFailed(_, error) => CreateAnswer(false, None, Some(error), None, None)
  }

  /**
   * Against the real creation route a bulk row never becomes 'Pending
   * Registration': a successful row keeps the message it had, and a refused
   * one carries the route's error.
   */
  lemma NeverPendingRegistration(r: BulkRequest, resp: BadgesApi.CreateResponse, mailed: MailReply)
    ensures var s := BulkIssue.Settle(r, ClientView(resp), mailed);
      && (s.status == Success ==> s.message == r.message)
      && (resp.Created? && mailed.MailAnswer? ==> s.status == Success)
      && (resp.CreateFailed? ==> s.status == Error && s.message == Some(resp.error))
  {
  }

  /** Every row the upload handler collects passes the creation route's field check. */
  lemma ParsedRowsPassValidation(text: string, url: Option<string>)
    ensures forall r :: r in ParseText(text) ==> BadgesApi.HasRequired(BulkIssue.CreateBodyOf(r, url))
  {
    RowsComplete(Split(text, '\n')[1..]);
  }

  /**
   * A bulk row for an address no account has, letter case included, ends as
   * an error reading 'User not found', and its email is never requested.
   */
  lemma UnknownRecipientRow(r: BulkRequest, url: Option<string>, accounts: seq<BadgesApi.Account>, now: int, newId: string)
    requires r.email != "" && r.badge_name != "" && r.event_name != ""
    requires forall j :: 0 <= j < |accounts| ==> accounts[j].email != Some(r.email)
    ensures var resp := match BadgesApi.PlanCreate(BulkIssue.CreateBodyOf(r, url), Some(accounts), now, newId)
                        case Insert(b) => BadgesApi.Created(b)
                        case Reject(status, error) => BadgesApi.CreateFailed(status, error);
      && resp == BadgesApi.CreateFailed(404, "User not found")
      && !BulkIssue.Created(ClientView(resp))
      && BulkIssue.Settle(r, ClientView(resp), MailAnswer(false)) == r.(status := Error, message := Some("User not found"))
  {
    BadgesApi.UnknownEmailNotFound(BulkIssue.CreateBodyOf(r, url), accounts, now, newId);
  }

  /**
   * The bulk page's email, fed the real creation route's answer, always uses
   * the existing-member wording and links to the dashboard of the
   * application's address, never to sign-up; the badge id it sends is ignored.
   */
  lemma BulkEmailIsExistingMemberMail(r: BulkRequest, resp: BadgesApi.CreateResponse,
                                      apiKey: Option<string>, appUrlSetting: Option<string>)
    requires r.email != "" && r.badge_name != "" && r.event_name != "" && Truthy(apiKey)
    ensures var body := BulkIssue.MailBodyOf(r, ClientView(resp).requiresRegistration, ClientView(resp).badgeId);
      var p := SendEmail.Prepare(body, apiKey, appUrlSetting);
      && p.Send?
      && p.email.subject == SendEmail.EarnedSubjectPrefix + r.badge_name
      && p.email.link == (if Truthy(appUrlSetting) then appUrlSetting.value else SendEmail.DefaultAppUrl) + "/dashboard"
      && p.email.note.None?
  {
    var body := BulkIssue.MailBodyOf(r, ClientView(resp).requiresRegistration, ClientView(resp).badgeId);
    assert !SendEmail.IsNewUser(body);
    SendEmail.LinkChoice(body, apiKey, appUrlSetting);
  }

  /**
   * The single-badge page's email always uses the existing-member wording and
   * links to the dashboard of the page's own origin, whatever the server's
   * application address is.
   */
  lemma IssueEmailLinksToOrigin(form: Issue.Form, origin: string, apiKey: Option<string>, appUrlSetting: Option<string>)
    requires form.user_email != "" && form.badge_name != "" && form.event_name != "" && Truthy(apiKey)
    ensures var p := SendEmail.Prepare(Issue.MailBodyOf(form, origin), apiKey, appUrlSetting);
      && p.Send?
      && p.email.link == origin + "/dashboard"
      && p.email.subject == SendEmail.EarnedSubjectPrefix + form.badge_name
  {
    var body := Issue.MailBodyOf(form, origin);
    assert |origin + "/dashboard"| > 0;
    SendEmail.LinkChoice(body, apiKey, appUrlSetting);
  }
}

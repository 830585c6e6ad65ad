/**
 * app/api/badges/route.ts: `POST` creates a badge for an existing account
 * found by exact email, `GET` lists one account's badges newest first.
 */
module BadgesApi {
  import opened Wrappers
  import opened Store

  /** The JSON body of a creation request; `credential_id` may be sent but is never read. */
  datatype CreateBody = CreateBody(
    user_email: Option<string>,
    badge_name: Option<string>,
    badge_description: Option<string>,
    event_name: Option<string>,
    badge_image_url: Option<string>,
    credential_id: Option<string>)

  /** An account as the identity service's user listing reports it. */
  datatype Account = Account(id: string, email: Option<string>)

  /** What `POST` decides before touching the table. */
  datatype Plan = Insert(badge: Badge) | Reject(status: int, error: string)

  /** What `POST` answers. */
  datatype CreateResponse = Created(badge: Badge) | CreateFailed(status: int, error: string)

  /** What `GET` answers. */
  datatype ListResponse = Badges(badges: seq<Badge>) | ListFailed(status: int, error: string)

  /** `users.find(u => u.email === email)`: the index of the first account with exactly this email. */
  function FindAccount(accounts: seq<Account>, email: string): (r: Option<nat>)
    ensures r.Some? ==> r.value < |accounts| && accounts[r.value].email == Some(email)
    ensures r.Some? ==> forall j :: 0 <= j < r.value ==> accounts[j].email != Some(email)
    ensures r.None? <==> forall j :: 0 <= j < |accounts| ==> accounts[j].email != Some(email)
  {
    if accounts == [] then None
    else if accounts[0].email == Some(email) then Some(0)
    else
      match FindAccount(accounts[1..], email)
      case None => None
      case Some(i) => Some(i + 1)
  }

  /** The three fields the route insists on are present and non-empty. */
  predicate HasRequired(body: CreateBody) {
    Truthy(body.user_email) && Truthy(body.badge_name) && Truthy(body.event_name)
  }

  /**
   * The decision of `POST`: validation, then the account lookup (`accounts`
   * is None when the listing failed), then the row to insert.
   */
  function PlanCreate(body: CreateBody, accounts: Option<seq<Account>>, now: int, newId: string): (p: Plan)
    ensures !HasRequired(body) ==> p == Reject(400, "Missing required fields")
    ensures HasRequired(body) && accounts.None? ==> p == Reject(500, "Failed to find user")
    ensures HasRequired(body) && accounts.Some? && FindAccount(accounts.value, body.user_email.value).None? ==>
      p == Reject(404, "User not found")
    ensures p.Insert? <==>
      HasRequired(body) && accounts.Some? && FindAccount(accounts.value, body.user_email.value).Some?
    ensures p.Insert? ==>
      var i := FindAccount(accounts.value, body.user_email.value);
      && i.Some?
      && p.badge.user_id == Some(accounts.value[i.value].id)
      && accounts.value[i.value].email == body.user_email
    ensures p.Insert? ==>
      && p.badge.badge_name == body.badge_name.value
      && p.badge.event_name == body.event_name.value
      && p.badge.badge_description == body.badge_description.GetOr("")
      && p.badge.badge_image_url == body.badge_image_url.GetOr("")
      && p.badge.issued_date == now
      && p.badge.recipient_email.None?
      && p.badge.credential_id.None?
  {
    if !HasRequired(body) then Reject(400, "Missing required fields")
    else if accounts.None? then Reject(500, "Failed to find user")
    else
      match FindAccount(accounts.value, body.user_email.value)
      case None => Reject(404, "User not found")
      case Some(i) =>
        Insert(Badge(
          id := newId,
          user_id := Some(accounts.value[i].id),
          recipient_email := None,
          badge_name := body.badge_name.value,
          event_name := body.event_name.value,
          badge_description := OrElse(body.badge_description, ""),
          badge_image_url := OrElse(body.badge_image_url, ""),
          credential_id := None,
          issued_date := now,
          created_at := now))
  }

  /**
   * `POST`: the planned row is appended to the table unless the insert
   * fails (`insertOk` false, the store's answer); every other outcome leaves
   * the table as it was.
   */
  method Post(table: BadgeTable, body: CreateBody, accounts: Option<seq<Account>>, now: int, newId: string, insertOk: bool)
    returns (resp: CreateResponse)
    modifies table
    ensures PlanCreate(body, accounts, now, newId).Insert? && insertOk ==>
      && resp == Created(PlanCreate(body, accounts, now, newId).badge)
      && table.rows == old(table.rows) + [resp.badge]
    ensures PlanCreate(body, accounts, now, newId).Insert? && !insertOk ==>
      resp == CreateFailed(500, "Failed to create badge") && table.rows == old(table.rows)
    ensures PlanCreate(body, accounts, now, newId).Reject? ==>
      && resp == CreateFailed(PlanCreate(body, accounts, now, newId).status, PlanCreate(body, accounts, now, newId).error)
      && table.rows == old(table.rows)
  {
    var plan := PlanCreate(body, accounts, now, newId);
    match plan
    case Reject(status, error) =>
      resp := CreateFailed(status, error);
    case Insert(badge) =>
      if insertOk {
        table.Insert(badge);
        resp := Created(badge);
      } else {
        resp := CreateFailed(500, "Failed to create badge");
      }
  }

  /** A request missing a required field is refused with 400 whatever the account listing holds. */
  lemma MissingFieldBeforeLookup(body: CreateBody, a1: Option<seq<Account>>, a2: Option<seq<Account>>, now: int, newId: string)
    requires !HasRequired(body)
    ensures PlanCreate(body, a1, now, newId) == PlanCreate(body, a2, now, newId) == Reject(400, "Missing required fields")
  {
  }

  /** An email no account has exactly (letter case included) is refused with 404 and nothing is inserted. */
  lemma UnknownEmailNotFound(body: CreateBody, accounts: seq<Account>, now: int, newId: string)
    requires HasRequired(body)
    requires forall j :: 0 <= j < |accounts| ==> accounts[j].email != body.user_email
    ensures PlanCreate(body, Some(accounts), now, newId) == Reject(404, "User not found")
  {
  }

  /** The lookup is case-sensitive: an account registered under another letter case is not found. */
  lemma LookupIsCaseSensitive(id: string)
    ensures FindAccount([Account(id, Some("A@x.io"))], "a@x.io").None?
  {
    assert "A@x.io" != "a@x.io" by { assert "A@x.io"[0] != "a@x.io"[0]; }
  }

  /** The creation route never reads `credential_id`. */
  lemma CredentialIdIgnored(body: CreateBody, c: Option<string>, accounts: Option<seq<Account>>, now: int, newId: string)
    ensures PlanCreate(body.(credential_id := c), accounts, now, newId) == PlanCreate(body, accounts, now, newId)
  {
  }

  /**
   * `GET ?user_id=`: 400 without an id, 500 when the store fails, otherwise
   * exactly that account's badges, newest issue date first.
   */
  function GetForUser(userId: Option<string>, table: seq<Badge>, storeOk: bool): (r: ListResponse)
    ensures !Truthy(userId) ==> r == ListFailed(400, "User ID required")
    ensures Truthy(userId) && !storeOk ==> r == ListFailed(500, "Failed to fetch badges")
    ensures Truthy(userId) && storeOk ==> r.Badges?
    ensures r.Badges? ==>
      && Descending(r.badges, IssuedDate)
      && multiset(r.badges) == multiset(OwnedBy(table, userId.value))
      && forall b :: b in r.badges ==> b in table && b.user_id == userId
  {
    if !Truthy(userId) then ListFailed(400, "User ID required")
    else if !storeOk then ListFailed(500, "Failed to fetch badges")
    else
      var owned := OwnedBy(table, userId.value);
      var sorted := SortDesc(owned, IssuedDate);
      forall b | b in sorted ensures b in table && b.user_id == userId {
        assert b in multiset(sorted);
      }
      Badges(sorted)
  }
}

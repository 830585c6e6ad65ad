/**
 * `GET` of app/api/admin/data/route.ts: the server-side administrator gate in
 * front of the full badge listing. The bearer token is checked, resolved to
 * an account by the identity service, and the account's email is looked up in
 * the allowlist setting, which here has no built-in owner address.
 */
module AdminData {
  import opened Wrappers
  import opened Strings
  import opened Auth
  import opened Store

  /** What the route answers. */
  datatype Response =
    | Unauthorized                                                  // 401
    | Forbidden(userEmail: Option<string>, adminEmails: seq<string>) // 403, with the debug fields
    | Listing(badges: seq<Listed>)                                   // 200
    | ServerError(message: string)                                   // 500

  /** `authHeader?.split(' ')[1]`: the second space-separated piece of the header. */
  function BearerToken(header: Option<string>): (token: Option<string>)
    ensures token.Some? <==> header.Some? && ' ' in header.value
    ensures token.Some? ==> ' ' !in token.value
  {
    match header
    case None => None
    case Some(h) =>
      var parts := Split(h, ' ');
      SplitSingleIff(h, ' ');
      if |parts| >= 2 then Some(parts[1]) else None
  }

  /** Joining three or more pieces starts with the first two. */
  lemma JoinFront(a: string, b: string, more: seq<string>, sep: char)
    requires |more| >= 1
    ensures Join([a, b] + more, sep) == a + [sep] + b + [sep] + Join(more, sep)
  {
    var parts := [a, b] + more;
    assert parts[1..] == [b] + more;
    assert ([b] + more)[1..] == more;
  }

  /** The token of `<scheme> <token>` or `<scheme> <token> <anything>` is `<token>`. */
  lemma {:induction false} BearerTokenOf(scheme: string, token: string, rest: string)
    requires ' ' !in scheme && ' ' !in token
    requires rest == [] || rest[0] == ' '
    ensures BearerToken(Some(scheme + " " + token + rest)) == Some(token)
  {
    if rest == [] {
      SplitJoin([scheme, token], ' ');
      assert scheme + " " + token + rest == scheme + " " + token == Join([scheme, token], ' ');
    } else {
      var more := Split(rest[1..], ' ');
      JoinFront(scheme, token, more, ' ');
      assert rest == " " + rest[1..];
      assert Join([scheme, token] + more, ' ') == scheme + " " + token + rest;
      SplitJoin([scheme, token] + more, ' ');
    }
  }

  /** The allowlist the route builds: the setting, or '' when unset, split and normalised; no owner address. */
  function RouteAdminList(setting: Option<string>): (list: seq<string>)
    ensures |list| >= 1
    ensures forall e :: e in list ==> e == Normalise(e)
    ensures forall e :: e in list <==> e in Entries(OrElse(setting, ""))
  {
    var list := Entries(OrElse(setting, ""));
    forall e | e in list ensures e == Normalise(e) {
      var i :| 0 <= i < |list| && list[i] == e;
      TrimUnpadded(e);
    }
    list
  }

  /** `user.email?.toLowerCase() || ''`. */
  function EmailKey(user: AuthUser): (key: string)
    ensures key == "" <==> !Truthy(user.email)
    ensures Lower(key) == key
  {
    if user.email.Some? then
      LowerIdempotent(user.email.value);
      Lower(user.email.value)
    else ""
  }

  /** The request passes the token check and resolves to `user`. */
  predicate Resolves(header: Option<string>, resolve: string -> Option<AuthUser>, user: AuthUser) {
    && BearerToken(header).Some?
    && BearerToken(header).value != ""
    && BearerToken(header).value != "undefined"
    && resolve(BearerToken(header).value) == Some(user)
  }

  /**
   * The route. `resolve` is the identity service's token lookup (None for an
   * unknown token or an error); `storeError` is the listing query's failure.
   */
  function Get(header: Option<string>, resolve: string -> Option<AuthUser>, setting: Option<string>,
               table: seq<Badge>, profiles: map<string, Profile>, storeError: Option<string>): (r: Response)
    ensures r.Listing? ==>
      && Descending(r.badges, CreatedAt)
      && multiset(r.badges) == multiset(JoinProfiles(table, profiles))
    ensures r.Forbidden? ==> r.adminEmails == RouteAdminList(setting)
  {
    var token := BearerToken(header);
    if token.None? || token.value == "" || token.value == "undefined" then Unauthorized
    else
      match resolve(token.value)
      case None => Unauthorized
      case Some(user) =>
        var list := RouteAdminList(setting);
        if EmailKey(user) !in list then Forbidden(user.email, list)
        else if storeError.Some? then ServerError(storeError.value)
        else Listing(SortDesc(JoinProfiles(table, profiles), CreatedAt))
  }

  /** Without a usable token the answer is 401, whatever the identity service would have said. */
  lemma MissingTokenUnauthorized(header: Option<string>, resolve: string -> Option<AuthUser>, setting: Option<string>,
                                 table: seq<Badge>, profiles: map<string, Profile>, storeError: Option<string>)
    requires header.None? || BearerToken(header) in {None, Some(""), Some("undefined")}
    ensures Get(header, resolve, setting, table, profiles, storeError) == Unauthorized
  {
  }

  /** A token the identity service does not recognise gives 401. */
  lemma UnknownTokenUnauthorized(header: Option<string>, resolve: string -> Option<AuthUser>, setting: Option<string>,
                                 table: seq<Badge>, profiles: map<string, Profile>, storeError: Option<string>)
    requires BearerToken(header).Some? && resolve(BearerToken(header).value).None?
    ensures Get(header, resolve, setting, table, profiles, storeError) == Unauthorized
  {
  }

  /** Access to the listing is granted exactly when the resolved account's email key is listed. */
  lemma GrantedIff(header: Option<string>, resolve: string -> Option<AuthUser>, setting: Option<string>,
                   table: seq<Badge>, profiles: map<string, Profile>, user: AuthUser)
    requires Resolves(header, resolve, user)
    ensures Get(header, resolve, setting, table, profiles, None).Listing? <==> EmailKey(user) in RouteAdminList(setting)
    ensures !Get(header, resolve, setting, table, profiles, None).Listing? ==>
      Get(header, resolve, setting, table, profiles, None) == Forbidden(user.email, RouteAdminList(setting))
  {
  }

  /** With the setting unset the route's allowlist is the single empty entry. */
  lemma UnsetSettingList()
    ensures RouteAdminList(None) == [""]
  {
    SplitNoSeparator("", ',');
    TrimUnpadded("");
  }

  /** With the setting unset, no account with a non-empty email passes the gate. */
  lemma {:induction false} UnsetSettingRejectsEveryAddress(header: Option<string>, resolve: string -> Option<AuthUser>,
                                                table: seq<Badge>, profiles: map<string, Profile>, user: AuthUser)
    requires Resolves(header, resolve, user)
    requires Truthy(user.email)
    ensures Get(header, resolve, None, table, profiles, None).Forbidden?
  {
    assert |EmailKey(user)| == |user.email.value| > 0;
    assert EmailKey(user) !in [""];
    UnsetSettingList();
  }

  /**
   * The two administrator checks disagree: with the setting unset the
   * client-side check admits the owner's address (in any letter case) and
   * this route refuses it.
   */
  lemma {:induction false} ChecksDisagreeWhenUnset(email: string, header: Option<string>, resolve: string -> Option<AuthUser>,
                                                   table: seq<Badge>, profiles: map<string, Profile>)
    requires Lower(email) == Fallback
    requires Resolves(header, resolve, AuthUser(Some(email)))
    ensures IsAdmin(Some(email), None)
    ensures Get(header, resolve, None, table, profiles, None).Forbidden?
  {
    FallbackAlwaysAdmin(email, None);
    assert |email| == |Fallback| > 0;
    UnsetSettingRejectsEveryAddress(header, resolve, table, profiles, AuthUser(Some(email)));
  }

  /**
   * As written, an account without an email gets the key '', which the
   * single empty entry of an unset setting matches: it is granted the listing.
   */
  lemma {:induction false} EmailLessAccountGrantedWhenUnset(header: Option<string>, resolve: string -> Option<AuthUser>,
                                                 table: seq<Badge>, profiles: map<string, Profile>)
    requires Resolves(header, resolve, AuthUser(None))
    ensures Get(header, resolve, None, table, profiles, None).Listing?
  {
    UnsetSettingList();
  }

  /** The gate as evidently intended: an empty email key never matches. */
  function GetStrict(header: Option<string>, resolve: string -> Option<AuthUser>, setting: Option<string>,
                     table: seq<Badge>, profiles: map<string, Profile>, storeError: Option<string>): (r: Response)
    ensures r.Listing? ==>
      && Descending(r.badges, CreatedAt)
      && multiset(r.badges) == multiset(JoinProfiles(table, profiles))
  {
    var token := BearerToken(header);
    if token.None? || token.value == "" || token.value == "undefined" then Unauthorized
    else
      match resolve(token.value)
      case None => Unauthorized
      case Some(user) =>
        var list := RouteAdminList(setting);
        if EmailKey(user) == "" || EmailKey(user) !in list then Forbidden(user.email, list)
        else if storeError.Some? then ServerError(storeError.value)
        else Listing(SortDesc(JoinProfiles(table, profiles), CreatedAt))
  }

  /** The corrected gate grants the listing only to an account with a non-empty, listed email. */
  lemma StrictGrantNeedsListedEmail(header: Option<string>, resolve: string -> Option<AuthUser>, setting: Option<string>,
                                    table: seq<Badge>, profiles: map<string, Profile>, storeError: Option<string>)
    requires GetStrict(header, resolve, setting, table, profiles, storeError).Listing?
    ensures exists user :: Resolves(header, resolve, user) && Truthy(user.email)
                        && Lower(user.email.value) in RouteAdminList(setting)
  {
    var user := resolve(BearerToken(header).value).value;
    assert Resolves(header, resolve, user);
  }

  /** Apart from email-less accounts, the corrected gate answers as the route does. */
  lemma StrictAgreesOnAddresses(header: Option<string>, resolve: string -> Option<AuthUser>, setting: Option<string>,
                                table: seq<Badge>, profiles: map<string, Profile>, storeError: Option<string>, user: AuthUser)
    requires Resolves(header, resolve, user) && Truthy(user.email)
    ensures GetStrict(header, resolve, setting, table, profiles, storeError)
         == Get(header, resolve, setting, table, profiles, storeError)
  {
  }
}

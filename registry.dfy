/**
 * The administrator registry of app/admin/page.tsx: the search over the
 * listed badges, the three counters computed when the listing arrives, and
 * the confirm/delete/reload rule of the revoke button.
 */
module Registry {
  import opened Wrappers
  import opened Strings
  import opened Store
  import opened Replies

  // ---------------------------------------------------------------------
  // Search

  /** `field?.toLowerCase().includes(t)`: an absent field never matches. */
  predicate FieldHas(field: Option<string>, t: string) {
    field.Some? && Contains(Lower(field.value), t)
  }

  /**
   * The search condition: the lower-cased term occurs in the badge name, the
   * event name, the credential id when it is non-empty, the owner's first
   * name, last name or email, or the recipient email.
   */
  predicate Matches(l: Listed, term: string) {
    var t := Lower(term);
    var p := l.profile;
    || Contains(Lower(l.badge.badge_name), t)
    || Contains(Lower(l.badge.event_name), t)
    || (Truthy(l.badge.credential_id) && Contains(Lower(l.badge.credential_id.value), t))
    || (p.Some? && FieldHas(p.value.first_name, t))
    || (p.Some? && FieldHas(p.value.last_name, t))
    || (p.Some? && FieldHas(p.value.email, t))
    || FieldHas(l.badge.recipient_email, t)
  }

  /** `s.filter(keep)`: the elements that pass, in their order. */
  function Filter<T(!new)>(s: seq<T>, keep: T -> bool): (r: seq<T>)
    ensures |r| <= |s|
    ensures forall x :: x in r <==> x in s && keep(x)
  {
    if s == [] then []
    else (if keep(s[0]) then [s[0]] else []) + Filter(s[1..], keep)
  }

  /**
   * Filtering a concatenation filters each part and keeps their order; with
   * the one-element case this pins the filter down as the order-preserving
   * subsequence of the elements that pass.
   */
  lemma {:induction false} FilterAppend<T(!new)>(a: seq<T>, b: seq<T>, keep: T -> bool)
    ensures Filter(a + b, keep) == Filter(a, keep) + Filter(b, keep)
    decreases |a|
  {
    if a == [] {
      assert a + b == b;
    } else {
      assert (a + b)[0] == a[0] && (a + b)[1..] == a[1..] + b;
      FilterAppend(a[1..], b, keep);
    }
  }

  /** One element is kept exactly when it passes. */
  lemma FilterSingle<T(!new)>(x: T, keep: T -> bool)
    ensures Filter([x], keep) == if keep(x) then [x] else []
  {
    assert [x][1..] == [];
  }

  /** Two filters that agree on every element give the same result. */
  lemma {:induction false} FilterSame<T(!new)>(s: seq<T>, k1: T -> bool, k2: T -> bool)
    requires forall x :: x in s ==> k1(x) == k2(x)
    ensures Filter(s, k1) == Filter(s, k2)
    decreases |s|
  {
    if s != [] {
      FilterSame(s[1..], k1, k2);
    }
  }

  /** `filteredBadges`: the listed badges matching the search term, in listing order. */
  function Search(badges: seq<Listed>, term: string): (r: seq<Listed>)
    ensures forall x :: x in r <==> x in badges && Matches(x, term)
  {
    Filter(badges, l => Matches(l, term))
  }

  /** An empty search keeps every badge. */
  lemma EmptyTermKeepsAll(badges: seq<Listed>)
    ensures Search(badges, "") == badges
  {
    forall l | l in badges ensures Matches(l, "") {
      EveryBadgeMatchesEmpty(l);
    }
    KeepAll(badges, l => Matches(l, ""));
  }

  /** A filter every element passes keeps the whole sequence. */
  lemma {:induction false} KeepAll<T(!new)>(s: seq<T>, keep: T -> bool)
    requires forall x :: x in s ==> keep(x)
    ensures Filter(s, keep) == s
    decreases |s|
  {
    if s != [] {
      KeepAll(s[1..], keep);
      assert s == [s[0]] + s[1..];
    }
  }

  /** Every badge matches the empty term, through its badge name. */
  lemma EveryBadgeMatchesEmpty(l: Listed)
    ensures Matches(l, "")
  {
    ContainsEmpty(Lower(l.badge.badge_name));
    assert Lower("") == "";
  }

  /** The search ignores the letter case of the term. */
  lemma SearchIgnoresTermCase(badges: seq<Listed>, term: string)
    ensures Search(badges, Lower(term)) == Search(badges, term)
  {
    LowerIdempotent(term);
    FilterSame(badges, l => Matches(l, Lower(term)), l => Matches(l, term));
  }

  /** An empty credential id is skipped even though every text includes the empty term. */
  lemma EmptyCredentialNeverMatches(l: Listed, term: string)
    requires l.badge.credential_id == Some("")
    requires !Contains(Lower(l.badge.badge_name), Lower(term)) && !Contains(Lower(l.badge.event_name), Lower(term))
    requires l.profile.None? && l.badge.recipient_email.None?
    ensures !Matches(l, term)
  {
  }

  // ---------------------------------------------------------------------
  // Counters

  datatype Stats = Stats(totalBadges: nat, totalUsers: nat, recentIssuance: nat)

  /** The distinct owner ids of the listed badges; every unclaimed badge contributes the same `None`. */
  function Owners(s: seq<Listed>): (ids: set<Option<string>>)
    ensures forall u :: u in ids <==> exists i :: 0 <= i < |s| && s[i].badge.user_id == u
  {
    if s == [] then {}
    else
      var rest := Owners(s[1..]);
      assert forall i :: 1 <= i < |s| ==> s[i] == s[1..][i - 1];
      {s[0].badge.user_id} + rest
  }

  /** There are never more owners than badges, and some owner as soon as there is a badge. */
  lemma {:induction false} OwnersBound(s: seq<Listed>)
    ensures |Owners(s)| <= |s|
    ensures s != [] ==> |Owners(s)| >= 1
    decreases |s|
  {
    if s != [] {
      OwnersBound(s[1..]);
      assert s[0].badge.user_id in Owners(s);
    }
  }

  /** Badges all waiting for a recipient to sign up count as one user. */
  lemma UnclaimedCountOnce(s: seq<Listed>)
    requires s != []
    requires forall i :: 0 <= i < |s| ==> s[i].badge.user_id.None?
    ensures |Owners(s)| == 1
  {
    assert Owners(s) == {None} by {
      assert s[0].badge.user_id == None;
    }
  }

  /** How many badges were created on calendar day `today`; `day` maps an instant to its local day. */
  function IssuedOn(s: seq<Listed>, today: int, day: int -> int): (n: nat)
    ensures n <= |s|
  {
    if s == [] then 0
    else (if day(s[0].badge.created_at) == today then 1 else 0) + IssuedOn(s[1..], today, day)
  }

  /** The count of one listing followed by another is the sum of their counts. */
  lemma {:induction false} IssuedOnAppend(a: seq<Listed>, b: seq<Listed>, today: int, day: int -> int)
    ensures IssuedOn(a + b, today, day) == IssuedOn(a, today, day) + IssuedOn(b, today, day)
    decreases |a|
  {
    if a == [] {
      assert a + b == b;
    } else {
      assert (a + b)[1..] == a[1..] + b;
      IssuedOnAppend(a[1..], b, today, day);
    }
  }

  /** Every badge created today is counted, and no other. */
  lemma {:induction false} IssuedOnExtremes(s: seq<Listed>, today: int, day: int -> int)
    ensures (forall i :: 0 <= i < |s| ==> day(s[i].badge.created_at) == today) ==> IssuedOn(s, today, day) == |s|
    ensures (forall i :: 0 <= i < |s| ==> day(s[i].badge.created_at) != today) ==> IssuedOn(s, today, day) == 0
    decreases |s|
  {
    if s != [] {
      IssuedOnExtremes(s[1..], today, day);
      assert forall i :: 1 <= i < |s| ==> s[1..][i - 1] == s[i];
    }
  }

  /**
   * The counters of a listing (absent when the reply had no `badges`): the
   * number of badges, of distinct owners, and of badges created on the same
   * day as `now`.
   */
  function StatsOf(all: Option<seq<Listed>>, now: int, day: int -> int): (st: Stats)
    ensures all.None? ==> st == Stats(0, 0, 0)
    ensures all.Some? ==>
      && st.totalBadges == |all.value|
      && st.totalUsers == |Owners(all.value)|
      && st.recentIssuance == IssuedOn(all.value, day(now), day)
    ensures st.totalUsers <= st.totalBadges && st.recentIssuance <= st.totalBadges
    ensures st.totalBadges > 0 ==> st.totalUsers > 0
  {
    match all
    case None => Stats(0, 0, 0)
    case Some(s) =>
      OwnersBound(s);
      Stats(|s|, |Owners(s)|, IssuedOn(s, day(now), day))
  }

  // ---------------------------------------------------------------------
  // Loading the listing

  /** The answer of the administrator data route as the page reads it. */
  datatype DataReply =
    | DataAnswer(ok: bool, badges: Option<seq<Listed>>, error: Option<string>)
    | DataRejected(reason: string)

  /** What the page holds. */
  datatype Dashboard = Dashboard(badges: seq<Listed>, stats: Stats)

  /** What `loadData` leaves: the new state, an error toast if any, and where the router was sent. */
  datatype Loaded = Loaded(view: Dashboard, toast: Option<Notice>, redirect: Option<string>)

  /**
   * `loadData`: without an access token the user is sent to sign in; a reply
   * that is not ok or a failed request leaves the page as it was and shows
   * the error; otherwise the listing (or nothing) and its counters replace
   * the old ones.
   */
  function LoadData(prev: Dashboard, token: Option<string>, reply: DataReply, now: int, day: int -> int): (r: Loaded)
    ensures !Truthy(token) ==>
      r == Loaded(prev, Some(ToastError("Session expired. Please sign in.")), Some("/auth/signin"))
    ensures Truthy(token) && reply.DataAnswer? && reply.ok ==>
      && r.view.badges == reply.badges.GetOr([])
      && r.view.stats == StatsOf(reply.badges, now, day)
      && r.toast.None? && r.redirect.None?
    ensures Truthy(token) && reply.DataAnswer? && !reply.ok ==>
      r == Loaded(prev, Some(ToastError(OrElse(reply.error, "Failed to fetch admin data"))), None)
    ensures Truthy(token) && reply.DataRejected? ==>
      r == Loaded(prev, Some(ToastError(OrElse(Some(reply.reason), "Failed to load dashboard data"))), None)
  {
    if !Truthy(token) then Loaded(prev, Some(ToastError("Session expired. Please sign in.")), Some("/auth/signin"))
    else
      match reply
      case DataRejected(reason) => Loaded(prev, Some(ToastError(OrElse(Some(reason), "Failed to load dashboard data"))), None)
      case DataAnswer(ok, badges, error) =>
        if !ok then Loaded(prev, Some(ToastError(OrElse(error, "Failed to fetch admin data"))), None)
        else Loaded(Dashboard(badges.GetOr([]), StatsOf(badges, now, day)), None, None)
  }

  /** The counters shown always agree with the listing shown after a successful load. */
  lemma LoadedStatsAgree(prev: Dashboard, token: Option<string>, reply: DataReply, now: int, day: int -> int)
    requires Truthy(token) && reply.DataAnswer? && reply.ok
    ensures var v := LoadData(prev, token, reply, now, day).view;
      && v.stats.totalBadges == |v.badges|
      && v.stats.totalUsers == |Owners(v.badges)|
      && v.stats.recentIssuance == IssuedOn(v.badges, day(now), day)
  {
  }

  // ---------------------------------------------------------------------
  // Revoking

  /** The answer of the delete route as the page reads it. */
  datatype DeleteReply =
    | DeleteAnswer(ok: bool, error: Option<string>)
    | DeleteRejected(reason: string)

  /** What the revoke button leads to: the token a delete request was sent with, the last toast, and whether the listing is reloaded. */
  datatype Revoke = Revoke(sentWith: Option<string>, toast: Option<Notice>, reload: bool)

  /**
   * `handleDeleteBadge`: nothing at all when the confirmation is declined;
   * otherwise no request without a session, and a reload only after a reply
   * that is ok. `session` is the access token of the current session, if any.
   */
  function HandleDelete(confirmed: bool, session: Option<string>, reply: DeleteReply): (r: Revoke)
    ensures !confirmed ==> r == Revoke(None, None, false)
    ensures confirmed ==> r.toast.Some? && r.sentWith == session
    ensures r.reload <==> confirmed && session.Some? && reply.DeleteAnswer? && reply.ok
    ensures r.reload ==> r.toast == Some(ToastSuccess("Badge revoked successfully"))
    ensures confirmed && session.None? ==> r.toast == Some(ToastError("No active session"))
    ensures confirmed && session.Some? && reply.DeleteAnswer? && !reply.ok ==>
      r.toast == Some(ToastError(OrElse(reply.error, "Failed to delete badge")))
    ensures confirmed && session.Some? && reply.DeleteRejected? ==> r.toast == Some(ToastError(reply.reason))
  {
    if !confirmed then Revoke(None, None, false)
    else if session.None? then Revoke(None, Some(ToastError("No active session")), false)
    else
      match reply
      case DeleteRejected(reason) => Revoke(session, Some(ToastError(reason)), false)
      case DeleteAnswer(ok, error) =>
        if ok then Revoke(session, Some(ToastSuccess("Badge revoked successfully")), true)
        else Revoke(session, Some(ToastError(OrElse(error, "Failed to delete badge"))), false)
  }
}

/**
 * The badges table the routes read and write, the profile rows joined to it,
 * and the `order(..., { ascending: false })` the queries ask the store for.
 * Instants are integers (milliseconds since the epoch).
 */
module Store {
  import opened Wrappers

  /** A row of the badges table (the fields of `Badge` in lib/supabase.ts, plus the columns the admin page reads). */
  datatype Badge = Badge(
    id: string,
    user_id: Option<string>,
    recipient_email: Option<string>,
    badge_name: string,
    event_name: string,
    badge_description: string,
    badge_image_url: string,
    credential_id: Option<string>,
    issued_date: int,
    created_at: int)

  /** The profile columns the administrator listing joins to each badge. */
  datatype Profile = Profile(
    first_name: Option<string>,
    last_name: Option<string>,
    designation: Option<string>,
    email: Option<string>)

  /** One row of the administrator listing: a badge and its owner's profile, if any. */
  datatype Listed = Listed(badge: Badge, profile: Option<Profile>)

  /** The table itself, which the creation route appends to. */
  class BadgeTable {
    var rows: seq<Badge>

    constructor (initial: seq<Badge>)
      ensures rows == initial
    {
      rows := initial;
    }

    /** `insert(...)`: the new row goes after every existing one; nothing else changes. */
    method Insert(b: Badge)
      modifies this
      ensures rows == old(rows) + [b]
    {
      rows := rows + [b];
    }
  }

  function CreatedAt(l: Listed): int { l.badge.created_at }

  function IssuedDate(b: Badge): int { b.issued_date }

  /** Ordered newest first by `key`. */
  ghost predicate Descending<T>(s: seq<T>, key: T -> int) {
    forall i, j :: 0 <= i < j < |s| ==> key(s[i]) >= key(s[j])
  }

  /** `x` placed into a newest-first sequence so that it stays newest first. */
  function InsertDesc<T>(x: T, s: seq<T>, key: T -> int): (r: seq<T>)
    requires Descending(s, key)
    ensures Descending(r, key)
    ensures multiset(r) == multiset(s) + multiset{x}
    ensures r[0] == x || (s != [] && r[0] == s[0])
  {
    if s == [] || key(x) >= key(s[0]) then
      ConsDescending(x, s, key);
      [x] + s
    else
      assert s == [s[0]] + s[1..];
      var rest := InsertDesc(x, s[1..], key);
      assert key(s[0]) >= key(rest[0]);
      ConsDescending(s[0], rest, key);
      [s[0]] + rest
  }

  /** A first element no older than the head of a newest-first sequence keeps it newest first. */
  lemma ConsDescending<T>(h: T, rest: seq<T>, key: T -> int)
    requires Descending(rest, key)
    requires rest != [] ==> key(h) >= key(rest[0])
    ensures Descending([h] + rest, key)
  {
    var r := [h] + rest;
    forall i, j | 0 <= i < j < |r| ensures key(r[i]) >= key(r[j]) {
      assert r[j] == rest[j - 1];
      if i > 0 {
        assert r[i] == rest[i - 1];
      } else if j > 1 {
        assert key(rest[0]) >= key(rest[j - 1]);
      }
    }
  }

  /**
   * The store's ordering: a rearrangement of `s` (same rows, same
   * multiplicities) that is newest first by `key`.
   */
  function SortDesc<T>(s: seq<T>, key: T -> int): (r: seq<T>)
    ensures Descending(r, key)
    ensures multiset(r) == multiset(s)
    ensures |r| == |s|
  {
    if s == [] then []
    else
      assert s == [s[0]] + s[1..];
      InsertDesc(s[0], SortDesc(s[1..], key), key)
  }

  /** Each badge with the profile of its owner, if it has one and the profile exists. */
  function JoinProfiles(table: seq<Badge>, profiles: map<string, Profile>): (r: seq<Listed>)
    ensures |r| == |table|
    ensures forall i :: 0 <= i < |r| ==> r[i].badge == table[i]
    ensures forall i :: 0 <= i < |r| ==>
      (r[i].profile.Some? <==> table[i].user_id.Some? && table[i].user_id.value in profiles)
    ensures forall i :: 0 <= i < |r| && r[i].profile.Some? ==> r[i].profile.value == profiles[table[i].user_id.value]
  {
    seq(|table|, i requires 0 <= i < |table| =>
      var uid := table[i].user_id;
      Listed(table[i], if uid.Some? && uid.value in profiles then Some(profiles[uid.value]) else None))
  }

  /** `eq('user_id', userId)`: the rows owned by one account, in table order. */
  function OwnedBy(table: seq<Badge>, userId: string): (r: seq<Badge>)
    ensures forall b :: b in r <==> b in table && b.user_id == Some(userId)
    ensures multiset(r) <= multiset(table)
  {
    if table == [] then []
    else
      assert table == [table[0]] + table[1..];
      (if table[0].user_id == Some(userId) then [table[0]] else []) + OwnedBy(table[1..], userId)
  }

  /** The owned rows of two stretches of the table are those of each, in order. */
  lemma {:induction false} OwnedByAppend(a: seq<Badge>, b: seq<Badge>, userId: string)
    ensures OwnedBy(a + b, userId) == OwnedBy(a, userId) + OwnedBy(b, userId)
    decreases |a|
  {
    if a == [] {
      assert a + b == b;
    } else {
      assert (a + b)[0] == a[0] && (a + b)[1..] == a[1..] + b;
      OwnedByAppend(a[1..], b, userId);
    }
  }

  /** One row is kept exactly when that account owns it; with `OwnedByAppend` this fixes table order. */
  lemma OwnedBySingle(b: Badge, userId: string)
    ensures OwnedBy([b], userId) == if b.user_id == Some(userId) then [b] else []
  {
    assert [b][1..] == [];
  }
}

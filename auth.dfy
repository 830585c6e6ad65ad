/**
 * `isAdmin` from lib/auth.ts: the client-side administrator check, an
 * allowlist read from a comma-separated setting that always contains the
 * owner's address.
 */
module Auth {
  import opened Wrappers
  import opened Strings

  /** The address that is an administrator whatever the setting says. */
  const Fallback: string := "bmsahana14@gmail.com"

  /** A signed-in account as the identity service reports it. */
  datatype AuthUser = AuthUser(email: Option<string>)

  /** One allowlist entry as both administrator checks read it: trimmed, then lower-cased. */
  function Normalise(entry: string): (r: string)
    ensures r == [] || (!IsSpace(r[0]) && !IsSpace(r[|r| - 1]))
    ensures Lower(r) == r
    ensures exists k :: PaddedAt(Lower(entry), r, k)
  {
    var t := Trim(entry);
    LowerIdempotent(t);
    TrimThenLower(entry);
    Lower(t)
  }

  /** Lower-casing the entry keeps its trimmed part in place between white space. */
  lemma TrimThenLower(entry: string)
    ensures exists k :: PaddedAt(Lower(entry), Lower(Trim(entry)), k)
  {
    var k :| PaddedAt(entry, Trim(entry), k);
    LowerPadded(entry, Trim(entry), k);
  }

  /** The entries of a comma-separated setting, in order, each normalised. */
  function Entries(setting: string): (list: seq<string>)
    ensures |list| == |Split(setting, ',')|
    ensures forall i :: 0 <= i < |list| ==> list[i] == Normalise(Split(setting, ',')[i])
  {
    var parts := Split(setting, ',');
    seq(|parts|, i requires 0 <= i < |parts| => Normalise(parts[i]))
  }

  /**
   * The allowlist `isAdmin` builds: the setting (or the owner's address when
   * the setting is unset or empty) split on commas, plus the owner's address
   * if it is not already there.
   */
  function AdminList(setting: Option<string>): (list: seq<string>)
    ensures Fallback in list
    ensures forall e :: e in list <==> e == Fallback || e in Entries(OrElse(setting, Fallback))
  {
    var base := Entries(OrElse(setting, Fallback));
    if Fallback in base then base else base + [Fallback]
  }

  /** `isAdmin(email)`: a present, non-empty email whose lower-case form is listed. */
  predicate IsAdmin(email: Option<string>, setting: Option<string>)
    ensures IsAdmin(email, setting) <==>
      Truthy(email) && (Lower(email.value) == Fallback || Lower(email.value) in Entries(OrElse(setting, Fallback)))
  {
    Truthy(email) && Lower(email.value) in AdminList(setting)
  }

  /** The owner's address, in any letter case, is always an administrator. */
  lemma FallbackAlwaysAdmin(email: string, setting: Option<string>)
    requires Lower(email) == Fallback
    ensures IsAdmin(Some(email), setting)
  {
  }

  /** An absent or empty email is never an administrator. */
  lemma MissingEmailNeverAdmin(setting: Option<string>)
    ensures !IsAdmin(None, setting) && !IsAdmin(Some(""), setting)
  {
  }

  /** A comma-free address, trimmed and in lower case, is a setting of exactly itself. */
  lemma SingleNormalEntry(s: string)
    requires ',' !in s
    requires s == [] || (!IsSpace(s[0]) && !IsSpace(s[|s| - 1]))
    requires forall i :: 0 <= i < |s| ==> !('A' <= s[i] <= 'Z')
    ensures Entries(s) == [s]
  {
    SplitNoSeparator(s, ',');
    TrimUnpadded(s);
    assert Lower(s) == s;
  }

  /** The owner's address is its own normal form. */
  lemma FallbackNormal()
    ensures Entries(Fallback) == [Fallback]
  {
    SingleNormalEntry(Fallback);
  }

  /** With the setting unset or empty, exactly the owner's address is an administrator. */
  lemma {:induction false} UnsetSettingOnlyFallback(email: string, setting: Option<string>)
    requires !Truthy(setting)
    ensures IsAdmin(Some(email), setting) <==> Lower(email) == Fallback
  {
    FallbackNormal();
    assert AdminList(setting) == [Fallback];
  }

  /** Emails equal after lower-casing get the same answer. */
  lemma CaseInsensitive(a: string, b: string, setting: Option<string>)
    requires Lower(a) == Lower(b)
    ensures IsAdmin(Some(a), setting) == IsAdmin(Some(b), setting)
  {
    assert |a| == |Lower(a)| == |b|;
  }

  /**
   * The candidate is lower-cased but not trimmed, while every entry is
   * trimmed: an email with white space in front is never an administrator.
   */
  lemma {:induction false} PaddedEmailRejected(email: string, setting: Option<string>)
    requires email != [] && IsSpace(email[0])
    ensures !IsAdmin(Some(email), setting)
  {
    var l := Lower(email);
    assert IsSpace(l[0]);
    var entries := Entries(OrElse(setting, Fallback));
    forall e | e in AdminList(setting) ensures e != l {
      if e != Fallback {
        var i :| 0 <= i < |entries| && entries[i] == e;
        assert e == Normalise(Split(OrElse(setting, Fallback), ',')[i]);
      }
    }
  }

  /** A configured entry, matched in any letter case and with any padding in the setting, admits its owner. */
  lemma {:induction false} ConfiguredEntryAdmits(email: string, setting: string, i: int)
    requires setting != "" && 0 <= i < |Split(setting, ',')|
    requires Lower(email) == Normalise(Split(setting, ',')[i])
    requires email != ""
    ensures IsAdmin(Some(email), Some(setting))
  {
    assert Entries(setting)[i] == Lower(email);
  }
}

/**
 * The two password checks that app/auth/signup/page.tsx and
 * app/auth/update-password/page.tsx both make before calling the identity
 * service: the confirmation must match, then the password must be at least
 * six UTF-16 code units long. The pages differ only in the wording of the
 * second message.
 */
module Passwords {
  import opened Wrappers
  import opened Strings

  const MinLength: nat := 6
  const Mismatch: string := "Passwords do not match"

  /** The first check that fails, with the page's own message for a short password; None when both pass. */
  function Problem(password: string, confirm: string, tooShort: string): (p: Option<string>)
    ensures p.None? <==> password == confirm && Utf16Length(password) >= MinLength
    ensures password != confirm ==> p == Some(Mismatch)
    ensures password == confirm && Utf16Length(password) < MinLength ==> p == Some(tooShort)
  {
    if password != confirm then Some(Mismatch)
    else if Utf16Length(password) < MinLength then Some(tooShort)
    else None
  }

  /** Three characters beyond U+FFFF already make six code units, so they pass the length check. */
  lemma ThreeAstralCharactersSuffice(password: string, tooShort: string)
    requires |password| == 3 && forall i :: 0 <= i < 3 ==> password[i] as int > 0xFFFF
    ensures Problem(password, password, tooShort).None?
  {
    var tail := password[1..];
    assert tail[1..] == [password[2]];
    assert Utf16Length([password[2]]) == 2;
    assert Utf16Length(tail) == 4;
    assert Utf16Length(password) == 6;
  }
}

# TechNexus badges: a Dafny model of the issuing core

TechNexus badges is a small web application. Administrators issue digital
badges to community members, one at a time or from a CSV file. The server
stores each badge against the recipient's account and emails the recipient.
The members then see their badges on a dashboard.

This project models the parts of the application that decide something:

- the bulk page's CSV row parser, with its regular-expression tokeniser;
- the bulk page's chunked issuing loop, which writes each outcome into its own row and updates a percentage;
- the two administrator checks: the client-side allowlist and the server-side bearer-token gate;
- the administrator registry's search, its counters, its loading rule and its revoke rule;
- the badge creation and listing route;
- the notification-email route;
- the single-badge issuing form;
- the sign-in page's redirects;
- the password checks of the sign-up and password-update pages.

The identity service, the database, the file storage and the mail provider are not modelled. Each of their answers is a parameter of the operation that receives it:

- an ok flag with the JSON fields the page reads;
- or a rejected request with its error message.

The same goes for the clock and for the settings read from the environment.

The modules follow the source files:

| module | file |
|---|---|
| `CsvRows`, `BulkIssue` | `app/admin/bulk/page.tsx` |
| `Auth` | `lib/auth.ts` |
| `AdminData` | `app/api/admin/data/route.ts` |
| `Registry` | `app/admin/page.tsx` |
| `BadgesApi` | `app/api/badges/route.ts` |
| `SendEmail` | `app/api/send-badge-email/route.ts` |
| `Issue` | `app/admin/issue/page.tsx` |
| `SignIn` | `app/auth/signin/page.tsx` |
| `Passwords`, `SignUp` | `app/auth/signup/page.tsx` |
| `UpdatePassword` | `app/auth/update-password/page.tsx` |

The remaining modules are shared:

- `Wrappers` holds optional values and JavaScript truthiness.
- `Strings` holds `split`, `trim`, `toLowerCase`, `includes` and UTF-16 length.
- `Store` holds the badges table, its profile join and the store's descending order.
- `Replies` holds the answers the pages read.
- `Integration` holds lemmas that connect the pages to the routes they call.

The pages whose state changes step by step are classes:

- `BulkIssue.BulkPage` has the rows, the progress percentage, the busy flag and the chosen image.
- `Issue.IssuePage` has the form, the image and the busy flag.
- `Store.BadgeTable` is the badges table that the creation route appends to.

Their handlers are methods whose contracts state the new state through specification functions:

- `BulkPage`'s `RunChunk` and `RunChunks` loop over the rows with loop invariants. They are proved against `Outcome`, `ChunkUpdates` and `ProgressTrace`. `HandleFileUpload` is proved against `ParseText`, whose reader loop `ReadRows` is a module-level method.
- `IssuePage.HandleSubmit` has no loop. It is proved against `FinalImage`, `CreateBodyOf` and `MailBodyOf`.
- `BadgeTable.Insert` has no loop. It appends one row; the creation route `BadgesApi.Post` calls it with the row that `PlanCreate` plans.

## Model

| member | source | states |
|---|---|---|
| Strings.Trim | lib/auth.ts:58 | `trim` leaves a string that neither starts nor ends with white space, found in the input with only white space before and after it |
| Strings.TrimUnpadded | lib/auth.ts:58 | a string without surrounding white space is its own trim |
| Strings.TrimAllSpace | app/admin/bulk/page.tsx:72-73 | a line made only of white space trims to the empty string, so the loop skips it |
| Strings.TrimIdempotent | app/admin/bulk/page.tsx:78 | trimming twice is trimming once |
| Strings.Lower | lib/auth.ts:65 | `toLowerCase` keeps the length and lower-cases each character |
| Strings.LowerIdempotent | app/admin/page.tsx:163 | lower-casing twice is lower-casing once |
| Strings.Split | lib/auth.ts:58 | `split` on one character gives at least one piece, no piece holds the separator, and joining the pieces gives the input back |
| Strings.SplitJoin | app/admin/bulk/page.tsx:67 | splitting a join of separator-free pieces gives the pieces back |
| Strings.SplitNoSeparator | lib/auth.ts:57-58 | a separator-free string splits into itself alone |
| Strings.SplitSingleIff | app/api/admin/data/route.ts:14 | a string splits into one piece exactly when it holds no separator |
| Strings.ContainsAt | app/admin/page.tsx:163-169 | `includes` holds exactly when the needle occurs at some offset |
| Strings.ContainsEmpty | app/admin/page.tsx:163 | every text includes the empty term |
| Strings.ContainsSelf | app/admin/page.tsx:163 | every text includes itself |
| Strings.Utf16Length | app/auth/signup/page.tsx:31 | `length` counts UTF-16 code units: between one and two per character, exactly one each when none lies beyond U+FFFF |
| Strings.Utf16LengthOne | app/auth/signup/page.tsx:31 | one character counts two code units exactly when it lies beyond U+FFFF, and one otherwise |
| Strings.Utf16LengthAppend | app/auth/signup/page.tsx:31 | the length of two joined strings is the sum of their lengths |
| Auth.Normalise | lib/auth.ts:58 | an allowlist entry becomes the lower-cased entry with its surrounding white space removed: no white space at either end, lower-casing leaves it unchanged, and it is what remains of `Lower(entry)` once that padding is cut |
| Auth.IsAdmin | lib/auth.ts:55-66 | a user is an admin iff the email is set and its lower-cased form is the fallback owner address or an entry of the setting (or of the fallback, when unset) |
| Auth.Entries | lib/auth.ts:58 | one normalised entry per comma-separated piece, in order |
| Auth.AdminList | lib/auth.ts:57-63 | the owner's address is always listed; an address is listed iff it is the owner's or an entry of the setting (the owner's address when the setting is unset or empty) |
| Auth.FallbackAlwaysAdmin | lib/auth.ts:61-65 | the owner's address in any letter case is an administrator, whatever the setting |
| Auth.MissingEmailNeverAdmin | lib/auth.ts:56 | an undefined or empty email is never an administrator |
| Auth.SingleNormalEntry | lib/auth.ts:58 | a comma-free, unpadded, lower-case setting is exactly one entry, itself |
| Auth.FallbackNormal | lib/auth.ts:57 | the default setting is the single entry of the owner's address |
| Auth.UnsetSettingOnlyFallback | lib/auth.ts:57-65 | with the setting unset or empty, an email is an administrator iff it lower-cases to the owner's address |
| Auth.CaseInsensitive | lib/auth.ts:58-65 | emails equal after lower-casing get the same answer |
| Auth.PaddedEmailRejected | lib/auth.ts:65 | the candidate is lower-cased but not trimmed, so an email starting with white space is never an administrator |
| Auth.ConfiguredEntryAdmits | lib/auth.ts:58-65 | a configured entry admits its owner, however the entry is padded or cased in the setting |
| AdminData.BearerTokenOf | app/api/admin/data/route.ts:13-14 | the token of `<scheme> <token>`, followed by nothing or by more space-separated text, is `<token>` |
| AdminData.BearerToken | app/api/admin/data/route.ts:14 | `split(' ')[1]` exists iff the header holds a space, and the token it gives holds none |
| AdminData.EmailKey | app/api/admin/data/route.ts:33 | the key looked up is '' exactly when the email is unset or empty, and it is lower-case |
| AdminData.RouteAdminList | app/api/admin/data/route.ts:27 | the route's allowlist holds exactly the normalised entries of the setting, or of '' when unset: at least one entry, each already normalised, and no owner fallback |
| AdminData.Get | app/api/admin/data/route.ts:10-66 | a listing is a rearrangement of the badges joined to their profiles, newest `created_at` first; a 403 carries the allowlist in its debug fields |
| AdminData.MissingTokenUnauthorized | app/api/admin/data/route.ts:13-18 | a missing header, a missing second piece, '' or 'undefined' gives 401 whatever else holds |
| AdminData.UnknownTokenUnauthorized | app/api/admin/data/route.ts:20-24 | a token that resolves to no account gives 401 |
| AdminData.GrantedIff | app/api/admin/data/route.ts:33-42 | for a resolved account the listing is granted iff its lower-cased email (or '') is listed; otherwise 403 with the email and the list |
| AdminData.UnsetSettingList | app/api/admin/data/route.ts:27 | with the setting unset the allowlist is the single empty entry |
| AdminData.UnsetSettingRejectsEveryAddress | app/api/admin/data/route.ts:27-42 | with the setting unset, every account with a non-empty email is refused with 403 |
| AdminData.ChecksDisagreeWhenUnset | app/api/admin/data/route.ts:27-33 | with the setting unset, the client-side check admits the owner's address and this route refuses it |
| AdminData.EmailLessAccountGrantedWhenUnset | app/api/admin/data/route.ts:27-33 | as written: with the setting unset, an account without an email is granted the full listing |
| AdminData.GetStrict | app/api/admin/data/route.ts:33-42 | corrected gate: an empty email key never matches; a listing is still the sorted rearrangement of the joined badges |
| AdminData.StrictGrantNeedsListedEmail | app/api/admin/data/route.ts:33-42 | the corrected gate grants the listing only to a resolved account with a non-empty, listed email |
| AdminData.StrictAgreesOnAddresses | app/api/admin/data/route.ts:33-42 | for every account that has an email, the corrected gate answers exactly as the route does |
| Store.BadgeTable.Insert | app/api/badges/route.ts:43-54 | `insert` appends the new row after every existing one and changes nothing else |
| Store.InsertDesc | app/api/admin/data/route.ts:56 | inserting into a newest-first sequence keeps it newest first and adds exactly that element |
| Store.SortDesc | app/api/admin/data/route.ts:56 | `order(..., { ascending: false })` gives a rearrangement of the rows (same multiset) that is newest first |
| Store.JoinProfiles | app/api/admin/data/route.ts:45-55 | one listed row per badge, in table order, carrying a profile exactly when the owner id is set and has a profile, and that profile is the owner's |
| Store.OwnedBy | app/api/badges/route.ts:90-93 | `eq('user_id', id)` keeps exactly the rows of that account, a sub-multiset of the table |
| Store.OwnedByAppend | app/api/badges/route.ts:90-93 | the owned rows of two stretches of the table are those of each, in order, so `eq` keeps table order |
| Store.OwnedBySingle | app/api/badges/route.ts:90-93 | a single row is kept exactly when that account owns it |
| BadgesApi.FindAccount | app/api/badges/route.ts:33 | `find` gives the first account whose email equals the address exactly, or none iff no account has it |
| BadgesApi.PlanCreate | app/api/badges/route.ts:16-52 | a missing field gives 400 before the lookup; a failed account listing gives 500 'Failed to find user'; an unknown email gives 404 'User not found'; a row is inserted exactly when the fields are present and the account is found, and it belongs to that account and has its name, event, description and image (defaulting to ''), issue date now, no credential id and no recipient email |
| BadgesApi.Post | app/api/badges/route.ts:4-67 | the planned row is appended and returned when the insert succeeds; every refusal or failed insert leaves the table unchanged, with the planned status and error |
| BadgesApi.MissingFieldBeforeLookup | app/api/badges/route.ts:16-21 | a request missing a required field gets 400 whatever the account listing holds |
| BadgesApi.UnknownEmailNotFound | app/api/badges/route.ts:33-40 | an address no account has exactly gets 404 'User not found' |
| BadgesApi.LookupIsCaseSensitive | app/api/badges/route.ts:33 | an account registered as `A@x.io` is not found for `a@x.io` |
| BadgesApi.CredentialIdIgnored | app/api/badges/route.ts:7-13 | the decision does not depend on the body's `credential_id` |
| BadgesApi.GetForUser | app/api/badges/route.ts:78-103 | no id gives 400 and a store failure 500; otherwise exactly that account's badges, a rearrangement of them, newest issue date first |
| SendEmail.Prepare | app/api/send-badge-email/route.ts:15-33 | a missing field gives 400, checked before the API key (500); a message is prepared iff both checks pass, addressed to `to_email` about `badge_name` at `event_name` |
| SendEmail.Post | app/api/send-badge-email/route.ts:84-103 | the route answers success exactly when the message was prepared and the provider accepted it; a refused request answers the refusal's status and error, with no provider message |
| SendEmail.FieldsCheckedBeforeKey | app/api/send-badge-email/route.ts:16-29 | a missing field is reported with 400 even when the API key is missing too |
| SendEmail.MissingKeyNoProviderCall | app/api/send-badge-email/route.ts:23-29 | without an API key the answer is 500 'Email service not configured', whatever the provider would answer |
| SendEmail.SubjectChoice | app/api/send-badge-email/route.ts:51-53 | the subject ends with the badge name; it and the heading, lead and button texts use the new-user wording iff `is_new_user` is `true` |
| SendEmail.SubjectPrefixesDiffer | app/api/send-badge-email/route.ts:51-53 | the two subjects differ for every badge name |
| SendEmail.LinkChoice | app/api/send-badge-email/route.ts:31-33 | the button link (line 69) goes to sign-up for a new user; otherwise to `badge_link` if given, else to the dashboard of the application address (the deployed address when unset) |
| SendEmail.NoteOnlyForNewUsers | app/api/send-badge-email/route.ts:72-76 | the sign-up note appears iff the recipient is new, and it repeats the recipient's address |
| SendEmail.BadgeIdIgnored | app/api/send-badge-email/route.ts:6-11 | the outcome does not depend on the body's `badge_id` |
| SendEmail.ProviderFailureMapped | app/api/send-badge-email/route.ts:86-95 | a provider failure gives the provider's status, 'Failed to send email', and the provider's message when it has one, 'Check your Brevo API key and sender email.' otherwise |
| CsvRows.PlainRun | app/admin/bulk/page.tsx:77 | the unquoted alternative `[^",\s]+` covers the longest run of plain characters |
| CsvRows.QuoteEnd | app/admin/bulk/page.tsx:77 | the closing quote found is followed by optional white space and then a comma or the end, with no line terminator before it |
| CsvRows.QuoteEndLeast | app/admin/bulk/page.tsx:77 | the lazy `".*?"` stops at the first such quote; when none is found, every quote followed by a field end lies beyond a line terminator |
| CsvRows.MatchLen | app/admin/bulk/page.tsx:77 | a match is non-empty, followed by a field end, and a quoted span or a run of plain characters; it is the shortest such token, and no match means no token is followed by a field end |
| CsvRows.ParseText | app/admin/bulk/page.tsx:67-92 | every collected row comes from a line after the header, there are fewer rows than lines, and each row has its three required fields and is pending with no message |
| CsvRows.Scan | app/admin/bulk/page.tsx:77 | every token of the global match is a quoted span or a run of plain characters |
| CsvRows.Unquote | app/admin/bulk/page.tsx:78 | a leading and a trailing quote are removed; a quote-free token is unchanged |
| CsvRows.CleanAll | app/admin/bulk/page.tsx:78 | one column per token, in order, each unquoted and then trimmed |
| CsvRows.RowOf | app/admin/bulk/page.tsx:80-91 | a row exists iff the first three columns exist and are non-empty; description and credential id default to '', status is pending, no message |
| CsvRows.RowsOfAppend | app/admin/bulk/page.tsx:71-92 | the rows of two stretches of lines are the rows of each, in line order |
| CsvRows.BlankLineSkipped | app/admin/bulk/page.tsx:72-73 | a line that is blank after trimming contributes nothing |
| CsvRows.RowsFromLines | app/admin/bulk/page.tsx:71-92 | there are never more rows than lines, and every row is the row of one of the lines |
| CsvRows.HeaderDiscarded | app/admin/bulk/page.tsx:70-71 | the first line is discarded whatever it holds |
| CsvRows.HeaderOnlyNoRows | app/admin/bulk/page.tsx:67-71 | a one-line text gives no rows |
| CsvRows.RowsComplete | app/admin/bulk/page.tsx:82-90 | every collected row has a non-empty email, badge name and event name, is pending and has no message |
| CsvRows.SkipWord | app/admin/bulk/page.tsx:77 | a word followed by white space and then something other than a comma gives no token |
| CsvRows.TakeWord | app/admin/bulk/page.tsx:77 | a word followed by a comma or the end of the line is a token |
| CsvRows.WordsThen | app/admin/bulk/page.tsx:77 | unquoted words separated by single spaces give only the last word |
| CsvRows.QuotedThen | app/admin/bulk/page.tsx:77 | a quoted text without quotes or line breaks, followed by a comma or the end, is one token, quotes included |
| CsvRows.FieldThen | app/admin/bulk/page.tsx:77 | a well-formed field followed by a comma or the end gives its field tokens: none when empty, the last word, or the quoted span |
| CsvRows.ScanLine | app/admin/bulk/page.tsx:77 | a line of well-formed fields gives the tokens of each field, in order |
| CsvRows.ColumnsOfLine | app/admin/bulk/page.tsx:77-78 | the columns of such a line are the columns of each field: none for an empty field, the last word, or the trimmed quoted text |
| CsvRows.EmptyFieldShiftsLeft | app/admin/bulk/page.tsx:77-91 | `a,,b,c` gives the row (a, b, c) with empty description and credential id: the later columns move one place left |
| CsvRows.FiveFieldRow | app/admin/bulk/page.tsx:77-91 | a line of five unquoted fields gives the row of the first word, the last word of each middle field, and the last field |
| CsvRows.TemplateSampleRow | app/admin/bulk/page.tsx:51 | the template's own sample row reads as badge `Mentor`, event `2026`, description `mentorship` |
| BulkIssue.Percent | app/admin/bulk/page.tsx:208 | the percentage is `100 * done / total` rounded half up: at most 100, and 100 for the whole list |
| BulkIssue.PercentMonotone | app/admin/bulk/page.tsx:208 | more rows done never shows a smaller percentage |
| BulkIssue.ChunkEnd | app/admin/bulk/page.tsx:154-155 | a chunk ends 20 rows after its start, or at the end of the list when that comes first |
| BulkIssue.ProgressTraceShape | app/admin/bulk/page.tsx:208 | the percentages shown after each chunk never decrease, and the last is 100 |
| BulkIssue.ProgressTrace | app/admin/bulk/page.tsx:208 | one percentage per chunk, none above 100, and at least one when there are rows |
| BulkIssue.ProgressOf25 | app/admin/bulk/page.tsx:208 | twenty-five rows show 80 and then 100 |
| BulkIssue.CreateBodyOf | app/admin/bulk/page.tsx:164-171 | a row's badge request carries its email, names, description, credential id and the common image URL |
| BulkIssue.Settle | app/admin/bulk/page.tsx:174-204 | only status and message change. Success iff the badge reply is ok and the email request was answered. 'Pending Registration' only when registration is required, otherwise the message is kept. A failure carries the reply's message or error, or the rejection's message |
| BulkIssue.MailAnswerIgnored | app/admin/bulk/page.tsx:177-196 | the email route's answer is never inspected |
| BulkIssue.ChooseImage | app/admin/bulk/page.tsx:131-150 | without a file the typed URL is used; with one, an ok upload's public URL is used, an upload answer that is not ok fails with 'Failed to upload bulk image', and a rejected upload fails with its own reason |
| BulkIssue.UpdatesPointwise | app/admin/bulk/page.tsx:189-204 | updates of distinct rows apply each to its own row's old value and leave every other row alone |
| BulkIssue.UpdateOrderIrrelevant | app/admin/bulk/page.tsx:157 | the order in which a chunk's concurrent updates land does not change the rows they leave |
| BulkIssue.ChunkUpdates | app/admin/bulk/page.tsx:157-204 | a chunk gives one update per row, each aimed at its own row index, in row order |
| BulkIssue.ChunkUpdatesApplied | app/admin/bulk/page.tsx:157-204 | the chunk's updates, applied in any order, turn each chunk row into its outcome and leave every other row unchanged |
| BulkIssue.RowsOfStep | app/admin/bulk/page.tsx:71-92 | one more line read adds that line's row, if any, at the end |
| BulkIssue.ReadRows | app/admin/bulk/page.tsx:65-92 | the reader's loop collects exactly the rows of every line after the header |
| BulkIssue.BulkPage.HandleFileUpload | app/admin/bulk/page.tsx:60-102 | no parsed row leaves the rows as they were with an error toast; otherwise the parsed rows replace them and the toast counts them; nothing else changes |
| BulkIssue.BulkPage.RunChunk | app/admin/bulk/page.tsx:155-206 | each row of the chunk becomes its outcome at its own index, every other row is unchanged, and one badge request per row is sent in row order; the rows left are those the chunk's updates give, applied in any order |
| BulkIssue.BulkPage.RunChunks | app/admin/bulk/page.tsx:152-209 | every row is settled exactly once, at its own index; one badge request per row; the percentages shown are the progress trace and end at 100 |
| BulkIssue.BulkPage.ProcessBulk | app/admin/bulk/page.tsx:117-216 | no rows, or no image at all, changes nothing (the latter with an alert). A failed upload settles no row. Otherwise every row is settled once with the common image. The busy flag is cleared and 'Bulk processing complete!' shown at the end |
| Registry.Filter | app/admin/page.tsx:162 | `filter` keeps exactly the elements that pass and never lengthens the sequence |
| Registry.FilterAppend | app/admin/page.tsx:162 | filtering a concatenation filters each part and keeps their order |
| Registry.FilterSingle | app/admin/page.tsx:162 | one element is kept exactly when it passes |
| Registry.Search | app/admin/page.tsx:162-170 | a listed badge is kept iff the lower-cased term occurs in one of the searched fields; the credential id is searched only when non-empty |
| Registry.EmptyTermKeepsAll | app/admin/page.tsx:162-163 | an empty search keeps every badge, in order |
| Registry.EveryBadgeMatchesEmpty | app/admin/page.tsx:163 | every badge matches the empty term through its badge name |
| Registry.SearchIgnoresTermCase | app/admin/page.tsx:162-169 | searching for the lower-cased term gives the same result as the term itself |
| Registry.EmptyCredentialNeverMatches | app/admin/page.tsx:165 | an empty credential id is skipped even though every text includes the empty term |
| Registry.Owners | app/admin/page.tsx:111 | the set of owner ids holds exactly the `user_id` of some listed badge (absent counted as one value) |
| Registry.OwnersBound | app/admin/page.tsx:111-115 | there are never more owners than badges, and at least one when there is a badge |
| Registry.UnclaimedCountOnce | app/admin/page.tsx:111 | badges that all lack an owner count as one user |
| Registry.IssuedOn | app/admin/page.tsx:116-120 | the count of badges created today never exceeds the number of badges |
| Registry.IssuedOnAppend | app/admin/page.tsx:116-120 | the count over two listings is the sum of their counts |
| Registry.IssuedOnExtremes | app/admin/page.tsx:116-120 | when every badge was created today all are counted, and when none was none is |
| Registry.StatsOf | app/admin/page.tsx:110-121 | the totals are the number of badges, of distinct owners and of badges created on the day of `now`, all zero without a listing; neither of the others exceeds the total |
| Registry.LoadData | app/admin/page.tsx:80-128 | without a token the router goes to sign-in; a reply that is not ok or a failed request keeps the page and shows the error or the fallback; otherwise the listing and its counters replace the old ones |
| Registry.LoadedStatsAgree | app/admin/page.tsx:107-121 | after a successful load the counters describe the listing shown |
| Registry.HandleDelete | app/admin/page.tsx:130-160 | a declined confirm does nothing; no session gives 'No active session' and no request; the list is reloaded iff the delete reply is ok |
| Issue.FinalImage | app/admin/issue/page.tsx:65-88 | an uploaded file's public URL replaces the typed one; an upload that is not ok aborts with its error or 'Failed to upload image' |
| Issue.CreateBodyOf | app/admin/issue/page.tsx:91-97 | the creation request is the form with the final image URL and no credential id |
| Issue.MailBodyOf | app/admin/issue/page.tsx:105-113 | the email request carries the form's recipient, badge and event and a link to the page origin's dashboard |
| Issue.IssuePage.HandleSubmit | app/admin/issue/page.tsx:60-139 | upload iff a file is chosen. A failed upload stops before the creation request, and a failed creation before the email request. Once the email is answered the form and image are cleared and the toast reports the email's result. Every other ending keeps the form. The busy flag is always cleared |
| SignIn.SessionLanding | app/auth/signin/page.tsx:24-40 | a signed-in visitor goes to /admin if the client check admits their email, else to /dashboard; `next` plays no part; an anonymous visitor stays |
| SignIn.Submit | app/auth/signin/page.tsx:42-64 | the email is trimmed and the password sent as typed. After sign-in a non-empty `next` wins, else the trimmed email picks /admin or /dashboard. A failure shows its message or the fallback |
| SignIn.PaddedOwnerLandsOnAdmin | app/auth/signin/page.tsx:48-55 | the owner's address typed with surrounding spaces in any letter case still lands on /admin |
| SignIn.TrimPadded | app/auth/signin/page.tsx:48 | trimming white-space pads around an unpadded text gives the text back |
| SignIn.OnlyTrimmedEmailCounts | app/auth/signin/page.tsx:48-58 | the result of a successful sign-in depends on the email only through its trimmed form |
| Passwords.Problem | app/auth/signup/page.tsx:25-35 | both checks pass iff the passwords match and have at least six UTF-16 code units; a mismatch is reported first, then the page's short-password message |
| Passwords.ThreeAstralCharactersSuffice | app/auth/signup/page.tsx:31 | three characters beyond U+FFFF already pass the length check |
| SignUp.HandleSubmit | app/auth/signup/page.tsx:19-55 | the service is called iff both checks pass. A session redirects to /dashboard, otherwise confirmation is needed. A failure shows its message or the fallback |
| SignUp.MismatchBeforeLength | app/auth/signup/page.tsx:25-35 | a mismatch is reported even for a short password, and the service is not called |
| UpdatePassword.HandleSubmit | app/auth/update-password/page.tsx:18-53 | the service is called iff both checks pass. Success toasts and redirects to /auth/signin. A failure shows and toasts its message or 'Failed to update password' |
| UpdatePassword.SameRulesOtherWording | app/auth/update-password/page.tsx:29-33 | both pages accept the same passwords and report a mismatch alike, but word the short-password error differently |
| Integration.ClientView | app/api/badges/route.ts:63-75 | what the pages read from the creation route: ok iff created, never `requires_registration`, the badge id on success, only `error` on failure |
| Integration.NeverPendingRegistration | app/admin/bulk/page.tsx:189-196 | against the real creation route a successful bulk row keeps its message, so it never becomes 'Pending Registration'; a refused one carries the route's error |
| Integration.ParsedRowsPassValidation | app/admin/bulk/page.tsx:82-91 | every parsed row passes the creation route's required-field check |
| Integration.UnknownRecipientRow | app/api/badges/route.ts:33-40 | a bulk row for an address no account has ends as an error 'User not found' and sends no email |
| Integration.BulkEmailIsExistingMemberMail | app/admin/bulk/page.tsx:177-187 | the bulk page's email always uses the existing-member subject with no sign-up note, and links to the dashboard of the application address |
| Integration.IssueEmailLinksToOrigin | app/admin/issue/page.tsx:105-114 | the single-badge email links to the dashboard of the page's own origin and uses the existing-member subject |

## Left out

- Network, database, storage and mail calls are not modelled; their answers are parameters. This covers the Supabase clients, `fetch` and the Brevo API. Each reply is an ok flag with the JSON fields read, or a rejected request with its message.
- A reply whose JSON cannot be parsed is not modelled. Neither is a reply that is ok but lacks `badge` (a `TypeError` in the bulk loop). Neither is any other exception with a message the model does not carry.
- Strings.Lower: lower-cases ASCII letters only. JavaScript's full Unicode case mapping is not modelled.
- BulkIssue.Percent: rounds `100 * done / total` half up in integers. It does not claim to match JavaScript's floating-point `Math.round` bit for bit.
- BulkIssue.BulkPage.RunChunk: runs a chunk's concurrent requests sequentially, in row order. Its contract ties the rows it leaves to the chunk's updates applied in any completion order (`ChunkUpdatesApplied`), so completion order cannot change the rows. Interleavings with other user actions during the run are not modelled.
- Shared row objects (`[...prev]` copies the array, not the rows) are modelled as values. Aliasing between old and new row arrays is not modelled.
- Clocks and randomness are parameters. This covers the upload file names (`Date.now`, `Math.random`), the creation instant and "now" in the registry counters.
- Registry.IssuedOn: `toDateString`'s local calendar day is a parameter `day`. Time zones are not modelled.
- BadgesApi.PlanCreate: the store's `created_at` default is taken to be the creation instant. `listUsers` is modelled as one page of accounts.
- Store.SortDesc: the store's order among rows with equal keys is not specified. The model only states newest first and a rearrangement.
- Registry.Filter: order preservation is stated through `FilterAppend` and `FilterSingle`. There is no explicit index map into the input.
- CsvRows.TemplateSampleRow: the sample row is given as its fields (words and separators). It is not given as the string literal of `downloadTemplate`. The download itself (Blob, DOM) is not modelled.
- The HTML email markup is left out. The model keeps what depends on the request: subject, wording (heading, lead and button texts), link and note.
- Toasts, alerts and router pushes are outputs of the operations. The loading toast of the revoke button and the delayed redirects (`setTimeout`) are not modelled, and neither is rendering.
- The admin page's second, server-side `getCurrentUser` check, the page-level `checkAuth` guards and the image-preview handlers are not modelled. They are thin guards around calls that cannot be seen.
- The other pages and routes hold no logic worth modelling: the home page, the layout, the dashboard, forgot-password, the upload and delete routes, and the remaining `lib/auth.ts` wrappers.
- The catch-all 500 answers of the routes (`error.message || 'Internal server error'`) are not modelled.

## Findings

| source | as written | input that shows it | evidently intended | confidence | as-written member | corrected member |
|---|---|---|---|---|---|---|
| app/api/admin/data/route.ts:27-33 | With `NEXT_PUBLIC_ADMIN_EMAILS` unset, the allowlist is `''.split(',')`, which is `['']`. An account without an email gets the key `''`, which is listed, so it is granted the full badge listing | a valid token of an account with no email address, with the setting unset | only an account with a non-empty email that is on the allowlist is an administrator | not executed; the account shape is possible in the identity service (phone sign-in), medium | AdminData.EmailLessAccountGrantedWhenUnset | AdminData.GetStrict |

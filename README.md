# A verified model of the Daarla listings API core

This project models two pieces of the Django REST API behind the Daarla
property site in Dafny, and proves what they promise.

**Listing search.** `PropertyViewSet.get_queryset` narrows the listings by
the query-string parameters, in source order:

- `area` is matched case-insensitively against area, municipality or address.
- `min_rooms`/`max_rooms` and `min_area`/`max_area` are inclusive bounds.
- `type` is compared case-insensitively.
- All of the above are database filters.
- Last comes an in-memory pass over the stored price text (such as
  "24 900 000 kr"), read with `parse_price`.

Supporting modules:

- `PyInt`: Python's `int()` on text written in ASCII digits, including its
  limit of 4300 digits.
- `PyText`: `str.strip`/`lower`/`replace`.
- `SqlText`: SQLite's ASCII-only `LIKE`.
- `Pricing`: `parse_price`.
- `Seqs`: filters and subsequences.
- `Models`: the listing records, their choice fields, and the `SET_NULL` and
  `CASCADE` deletes.
- `Search`: the pipeline. `Search.GetQueryset` runs it step by step and is
  proved equal to `Search.Search`. That function in turn is proved to be
  exactly the filter by `Search.Matches`.

**Accounts, sessions and password reset.** The views cover registration,
two-phase login, the current user, logout, and the password-reset request
and confirmation.

- `Accounts`: the `User` and `Profile` tables and the profile signal
  handlers. Also the session that `login` writes and every request resolves,
  and the reset token.
- `Serializers`: DRF's field validation, `RegisterSerializer`,
  `LoginSerializer` and the partial `UserSerializer`.
- `Base64Url`: the link's `uid`. This is base64url (section 5 of RFC 4648)
  of the key's decimal text, padding stripped. It is decoded with Python's
  lenient `binascii` decoder.
- `AuthViews`: each view as a function from tables, session and request to
  response, new tables, new session and mail.
- `Server.Site`: a class holding the tables and the session. Its methods
  change them step by step, and each is proved to end where a view's
  function says. Two of them follow the corrected views of the Findings
  below rather than the code:
  - `Server.Site.PatchCurrentUser` stores exactly what the view stores, but
    its response shows the phone now stored. The code as written is
    `AuthViews.PatchCurrentUserAsWritten`.
  - `Server.Site.ResetConfirm` stores the new password trimmed, and answers
    400 "All fields are required" when it is blank after trimming. The code
    stores it as sent and accepts a blank one. The code as written is
    `AuthViews.ResetConfirmAsWritten`.
- `AuthInvariants`: proves every view keeps the tables valid.
- `AuthProperties` and `ResetProperties`: prove what the views promise.

The token generator is a parameter `mint` of the values Django hashes:
key, password hash, last login (to the whole second, as
`_make_hash_value` drops the microseconds) and email. Only the properties in
`Accounts.MintInjective` and `Accounts.MintText` are assumed about it. Sending mail is a parameter
saying whether `send_mail` succeeds. The clock is a parameter `now`, counting
microseconds as `timezone.now()` does.

Some behaviour of the code worth knowing, all of it modelled:

- `parse_price` deletes every "kr", wherever it stands, not only a trailing suffix.
- `int()` raises on more than 4300 digits, leading zeros included and
  underscores not counted. A room or area bound that long fails the search
  (500); a price bound or a stored price that long is read as missing or 0.
- A login or reset request for an address that several accounts share ends
  in an uncaught exception (500).
- A reset request with no email answers 400.
- The reset confirmation first checks that every field is present.
- The token also covers last login and email, as Django's does.
- Logout without a session answers 403, not 401.

## Model

| member | source | states |
|---|---|---|
| PyInt.ParseDigits | api/views.py:89 | `int()` reads a non-empty run of at most 4300 ASCII digits as its decimal value |
| PyInt.ParseDigitsTooLong | api/views.py:89 | a run of more than 4300 digits raises `ValueError` |
| PyInt.ParseTooLong | api/views.py:98 | a signed or unsigned number with more than 4300 digits, underscores not counted, raises `ValueError` |
| PyInt.ParseIntToString | api/views.py:98 | `int(str(i)) == i` for every integer of at most 4300 digits |
| PyInt.ParseSigned | api/views.py:98 | a sign followed by at most 4300 digits is accepted: `-` negates the digits' value, `+` keeps it |
| PyInt.ParseBlank | api/views.py:89 | empty or all-whitespace text raises `ValueError` |
| PyInt.ParseUnsigned | api/views.py:89 | at most 4300 digits with single underscores between them read as the digits alone |
| PyInt.ParseMalformed | api/views.py:89 | any other text, trimmed, raises `ValueError` |
| PyInt.ParseSpaced | api/views.py:98 | surrounding whitespace is ignored (" 42\n" is 42) |
| PyInt.ParseSurrounded | api/views.py:98 | adding runs of the blanks `int()` skips before and after a text that neither starts nor ends with one leaves the value read unchanged |
| PyInt.ParseRejectsUnderscores | api/views.py:98 | doubled or leading underscores raise |
| PyInt.ParseRejectsOthers | api/views.py:98 | a sign followed by a space, and a decimal point, raise |
| PyInt.ParseSeparators | api/views.py:89 | a no-break space around the number is skipped, but the ASCII separators U+001C..U+001F make `int()` raise |
| PyText.Strip | api/views.py:265 | `str.strip()`: removes exactly the leading and trailing whitespace and keeps the middle |
| PyText.LowerIdempotent | api/serializers.py:111 | lower-casing the email twice is the same as once |
| PyText.RemoveCharGone | api/views.py:88 | `replace(c, '')` removes every `c` and keeps every other character, in order |
| Pricing.ParsePrice | api/views.py:85-91 | a price text with no digit reads as 0 |
| Pricing.CleanKeepsDigitFree | api/views.py:88 | cleaning adds no digits |
| Pricing.DisplayRoundTrip | api/views.py:85-91 | every price of at most 4300 digits shown as thousands groups separated by space or no-break space plus "kr" in any case reads back as that number |
| Pricing.DisplayTooLong | api/views.py:85-91 | a displayed price of more than 4300 digits makes `int` raise, so it reads as 0 |
| Pricing.ParseDisplayedExample | api/views.py:85-91 | "2 500 000 kr" reads as 2500000 |
| Pricing.ParseStoredExample | api/models.py:32 | the stored "24 900 000 kr" reads as 24900000 |
| Pricing.ParseUnpricedExample | api/views.py:90-91 | a price without digits reads as 0 rather than failing |
| SqlText.LikeEqualsIgnoresCase | api/views.py:154 | texts that differ only in ASCII case match |
| SqlText.LikeKeepsNonAsciiCase | api/views.py:154 | SQLite folds ASCII only: "Å" and "å" do not match |
| SqlText.LikeContainsIgnoresCase | api/views.py:48-52 | changing the ASCII case of the column or of the `area` text never changes whether `__icontains` matches |
| SqlText.LikeContainsNonAscii | api/views.py:48-52 | `area=söder` finds "Södermalm" but `area=SÖDER` does not, as SQLite folds ASCII only |
| Seqs.FilterFilter | api/views.py:48 | narrowing twice equals narrowing once by both conditions |
| Models.TypeLabelRoundTrip | api/models.py:21-27 | each property type's stored label reads back as that type |
| Models.RenovationCodeRoundTrip | api/models.py:41-51 | each renovation level's code reads back, and the default is "none" |
| Models.DetachKeepsListings | api/models.py:57-63 | `SET_NULL` clears only links to the deleted broker and keeps every listing in place |
| Models.DeleteBrokerKeepsIntegrity | api/models.py:57-63 | deleting a broker keeps every foreign key valid |
| Models.DeletePropertyKeepsIntegrity | api/models.py:70-74 | deleting a listing and cascading keeps every foreign key valid |
| Models.CascadeRemovesExactly | api/models.py:82-87 | the cascade removes exactly the deleted listing's images and facts, keeping order |
| Models.Catalog.DeleteBroker | api/models.py:57-63 | the broker row goes, its listings stay with the link cleared, and images and facts are untouched |
| Models.Catalog.DeleteProperty | api/models.py:70-74 | the listing and exactly its images and facts go, and brokers are untouched |
| Search.SearchIsFilter | api/views.py:42-115 | the search fails exactly when a room or area bound is not an integer `int()` reads (sign, digits, single underscores, at most 4300 digits); otherwise it keeps, in order, exactly the listings that match every given criterion |
| Search.StorageStage | api/views.py:43-73 | the database stage keeps exactly the listings matching area, rooms, area bounds and type |
| Search.StoragePlanDefined | api/views.py:54-68 | the database filters can be built exactly when `int()` reads every given room and area bound, so a bound of more than 4300 digits fails |
| Search.StoragePlanMeaning | api/views.py:46-73 | the database filters together hold exactly when the listing matches the non-price criteria |
| Search.AddBoundsMeaning | api/views.py:57-68 | each given numeric bound adds one inclusive comparison; one `int()` refuses, malformed or over 4300 digits, stops the request |
| Search.PricePlanMeaning | api/views.py:94-108 | the price pass keeps a listing exactly when its parsed price is within every price bound `int()` reads; a bound it refuses, malformed or over 4300 digits, is ignored |
| Search.PricePassNarrows | api/views.py:94-108 | the price pass returns a subsequence of the database result whose every listing is within the price bounds |
| Search.NoPriceUnchanged | api/views.py:79 | with no price parameter the database result is returned unchanged |
| Search.StorageIgnoresPrice | api/views.py:76-79 | the price parameters do not affect the database filters |
| Search.InvalidMinPriceIgnored | api/views.py:96-101 | a `min_price` that `int()` refuses, malformed or over 4300 digits, is skipped without error |
| Search.InvalidMaxPriceIgnored | api/views.py:103-108 | a `max_price` that `int()` refuses, malformed or over 4300 digits, is skipped without error |
| Search.BlankQueryKeepsAll | api/views.py:42-115 | with every parameter absent or empty, all listings are returned in order |
| Search.TypeOnly | api/views.py:70-73 | with only `type`, a listing is dropped exactly when its type differs ignoring case |
| Search.MinPriceQueryMatches | api/views.py:96-99 | `?min_price=2600000` keeps exactly the listings priced at least 2600000 |
| Search.TwoVillasScenario | api/views.py:94-113 | of villas at "2 500 000 kr" and "3 000 000 kr", `min_price=2600000` keeps the second |
| Search.KeepByPrice | api/views.py:99 | the list comprehension keeps exactly the listings whose price is on the right side of the bound, in order |
| Search.FilterPrice | api/views.py:96-108 | one price parameter narrows by its bound when `int()` reads it (at most 4300 digits) and changes nothing otherwise |
| Search.FilterBound | api/views.py:57-68 | one numeric `filter` call narrows the rows by its bound when `int()` reads it, and fails otherwise, over 4300 digits included |
| Search.FilterInDatabase | api/views.py:43-73 | the database filters issued one after another give the database stage's result |
| Search.GetQueryset | api/views.py:42-115 | `get_queryset` step by step returns exactly the search result |
| Base64Url.UrlsafeEncodeUnpadded | api/views.py:229 | `urlsafe_base64_encode` is the base64url text with its `=` padding removed |
| Base64Url.DecodeEncode | api/views.py:277 | decoding an encoded byte string gives the bytes back |
| Base64Url.DecodeUidText | api/views.py:229 | the uid of a reset link decodes to the ASCII digits of its key |
| Base64Url.DecodeEncodeUid | api/views.py:277 | the uid of a reset link decodes to the key it was made from, for keys of at most 4300 digits |
| Base64Url.EncodeUidInjective | api/views.py:229 | distinct keys get distinct uids |
| Base64Url.LoneCharacterRejected | api/views.py:277 | a single base64 character is an incomplete quad and fails to decode |
| Base64Url.JunkSkipped | api/views.py:277 | characters outside the alphabet are skipped, as Python's lenient decoder does |
| Accounts.Get | api/views.py:154 | `get()` finds a row exactly when one row matches, and no row exactly when none does |
| Accounts.NotFoundMeansNone | api/views.py:157 | `DoesNotExist` is raised exactly when no row matches |
| Accounts.GetTwo | api/views.py:154 | two matching rows make `get()` raise `MultipleObjectsReturned` |
| Accounts.FindOwnRow | api/views.py:278 | in valid tables a row's key and its username each find that row |
| Accounts.ProfileOf | api/models.py:97 | the profile found belongs to the user; none is found exactly when the user has no profile |
| Accounts.EnsureProfileOnce | api/models.py:104-113 | after `get_or_create` the user has a profile; an existing one is kept; a new one has no phone; repeating it changes nothing |
| Accounts.SetPhoneReads | api/serializers.py:89-92 | after storing a phone, the user's profile holds it |
| Accounts.SetPhoneOthers | api/serializers.py:89-92 | storing one user's phone leaves every other profile as it was |
| Accounts.SaveKeepsValid | api/models.py:109-113 | saving a user rewrites only its row, gives it a profile and keeps the tables valid |
| Accounts.Represent | api/serializers.py:75-81 | the representation carries id, username, email and names, plus the profile's phone, or "" without a profile |
| Accounts.Resolve | api/views.py:189 | a session resolves to the user it names, with the password it was opened with |
| Accounts.ResolveOwnSession | api/views.py:161 | the session `login` opens resolves to that user while the password stays |
| Serializers.CleanMeaning | api/serializers.py:98-99 | a field is accepted exactly when it passes every validator; a required one is never silently absent; the value kept is trimmed |
| Serializers.Errors | api/views.py:137 | the error list is empty exactly when no field failed |
| Serializers.ErrorsListed | api/views.py:137 | every failing field appears in the errors with its messages |
| Serializers.RegisterValidateMeaning | api/serializers.py:97-113 | registration data passes exactly when every field passes and the passwords agree exactly; the account holds the trimmed fields and the email lower-cased |
| Serializers.PasswordsMustMatch | api/serializers.py:105-107 | passwords that differ, even only in case, give exactly "Passwords do not match." |
| Serializers.ShortPasswordRejected | api/serializers.py:98 | a password shorter than 8 characters is rejected with the length message |
| Serializers.TakenUsernameRejected | api/serializers.py:101-103 | a username already taken is rejected with the uniqueness message |
| Serializers.LoginValidate | api/serializers.py:124-126 | the login form accepts only a present, non-blank identifier and password, and trims both |
| Serializers.PatchValidateMeaning | api/serializers.py:67-73 | a PATCH keeps exactly the fields it names, each trimmed (email, first and last name, phone), and never the username |
| AuthInvariants.AuthenticatedIsRow | api/views.py:148 | `authenticate` returns a row with that username whose password is the one given |
| AuthInvariants.LoginUserIsRow | api/views.py:148-156 | either login phase yields a row whose password is the one given |
| AuthInvariants.AcceptedUsernameFree | api/serializers.py:101-103 | an accepted username belongs to no existing user |
| AuthInvariants.CreateKeepsValid | api/serializers.py:115-122 | `create_user` appends the new row with its profile and keeps the tables valid |
| AuthInvariants.RegisterKeepsValid | api/views.py:127-137 | registration keeps the tables valid |
| AuthInvariants.LoginKeepsValid | api/views.py:140-170 | login keeps the tables valid |
| AuthInvariants.UpdateKeepsValid | api/serializers.py:83-95 | `UserSerializer.update` keeps the tables valid |
| AuthInvariants.PatchKeepsValid | api/views.py:193-201 | the PATCH keeps the tables valid |
| AuthInvariants.SetPasswordKeepsValid | api/views.py:290-291 | `set_password` and `save` keep the tables valid |
| AuthInvariants.ConfirmKeepsValid | api/views.py:262-294 | the reset confirmation keeps the tables valid |
| AuthProperties.ResolveMeaning | api/views.py:189 | a session resolves to a user exactly when it names one whose password is unchanged |
| AuthProperties.UsernameLookupNeverMultiple | api/views.py:148 | with distinct usernames the username lookup never raises |
| AuthProperties.EnsureProfileOthers | api/models.py:107 | `get_or_create` for one user leaves every other profile as it was |
| AuthProperties.RegisterOutcome | api/views.py:127-137 | 201 exactly when the data validates. The new user is appended with the next key, the trimmed username, the lower-cased email and the trimmed password. It is signed in, has a profile with no phone, and is shown with a null phone. A 400 changes nothing |
| AuthProperties.SignUp | api/serializers.py:115-122 | creating the account and logging it in appends exactly the new row, gives it a phone-less profile and signs it in |
| AuthProperties.LoginOutcome | api/views.py:140-170 | 200 exactly when the credentials name a user, signing in a row with that password. Every other answer leaves the tables unchanged, and every 401 is the same response |
| AuthProperties.LoginByUsername | api/views.py:148 | a username with its password signs that user in |
| AuthProperties.LoginByEmail | api/views.py:151-156 | an identifier that is no username, matching exactly one email ignoring case, signs that user in with the right password |
| AuthProperties.UnknownUserRefused | api/views.py:166-169 | an unknown identifier gets the 401 "Invalid email or password" |
| AuthProperties.WrongPasswordRefused | api/views.py:166-169 | a wrong password gets the very same 401 |
| AuthProperties.SharedEmailLoginCrashes | api/views.py:152-158 | a login by an address two accounts share, not a username, ends in a 500 and changes nothing |
| AuthProperties.SharedEmailResetCrashes | api/views.py:221-226 | a reset request for an address two accounts share ends in a 500 with no mail |
| AuthProperties.CurrentUserOutcome | api/views.py:188-191 | 200 with the session's user exactly when signed in, else 401 "Not authenticated"; nothing is stored |
| AuthProperties.LogoutOutcome | api/views.py:204-212 | a signed-in session is ended with 200; otherwise 403; the tables never change |
| AuthProperties.PatchNeedsSession | api/views.py:193-195 | a PATCH without a signed-in session is 401 and changes nothing |
| AuthProperties.PatchApplied | api/serializers.py:83-95 | a valid PATCH changes exactly the named fields, never username, key or password. The profile exists afterwards, holding the sent phone or its old one. Other users and profiles are untouched, and the response shows what is stored |
| AuthProperties.StalePhone | api/serializers.py:83-95 | as written, a PATCH sending a new phone answers with the phone from before the request |
| ResetProperties.EmptyUidInvalid | api/views.py:277 | an empty uid decodes to no key |
| ResetProperties.UidNonEmpty | api/views.py:229 | a reset link's uid is never empty |
| ResetProperties.ResetRequestOutcome | api/views.py:215-259 | nothing is stored. A missing email gets 400. An unknown address gets the sent message and no mail. A mail goes out exactly when one account matches and sending works. A failed send is 500 |
| ResetProperties.NoAccountEnumeration | api/views.py:224-226 | an unknown address gets exactly the response of a known one whose mail went out |
| ResetProperties.ResetMailLink | api/views.py:228-252 | the mail goes to the address as typed, with a uid decoding to the user's key (of at most 4300 digits) and a token the user's state accepts |
| ResetProperties.ConfirmOutcome | api/views.py:262-294 | the checks run in order (missing fields, bad link, bad token), and the password changes to the one sent exactly when all pass |
| ResetProperties.ConfirmedRow | api/views.py:290-291 | a successful reset stores the new password under a fresh salt in that row only |
| ResetProperties.TrimmedPasswordsAgree | api/views.py:266 | the view as written and the corrected one agree when the password has no surrounding whitespace |
| ResetProperties.ResetLinkWorks | api/views.py:228-294 | the mailed link resets the matched account's password (for a key of at most 4300 digits) |
| ResetProperties.TokenSingleUse | api/views.py:284-291 | a token that reset a password is refused with "Invalid or expired token" when replayed |
| ResetProperties.ResetEndsSessions | api/views.py:290-291 | a reset signs out the user's old sessions and keeps every other user's |
| Accounts.StampChangesKey | api/views.py:161 | stamping a last login changes the token key exactly when there was none or it falls in another whole second |
| ResetProperties.LoginInvalidatesToken | api/views.py:161 | a login in another second than the last one makes a previously mailed token invalid |
| ResetProperties.SameSecondLoginKeepsToken | api/views.py:161 | a login in the same second as the last one leaves the user's tokens valid |
| ResetProperties.LoginAccepts | api/serializers.py:124-126 | the login form accepts any non-blank identifier and password without NUL characters, trimmed |
| ResetProperties.ResetThenLogin | api/views.py:266 | with the new password trimmed, it signs the user in afterwards by username |
| ResetProperties.AsWrittenLockout | api/views.py:266 | as written, a new password with surrounding whitespace can never sign that user in |
| ResetProperties.LoggedInRow | api/views.py:161 | a successful login stamps only the signed-in row and keeps the tables valid |
| Server.Site.constructor | api/models.py:96-101 | an empty site starts with no users, no profiles and no session |
| Server.Site.ResolveUser | api/views.py:189 | resolving `request.user` flushes a stale session and changes nothing else |
| Server.Site.SaveUser | api/models.py:109-113 | `save()` rewrites the row and gets or creates its profile |
| Server.Site.LogInUser | api/views.py:132 | `login` stores the session and stamps and saves the user |
| Server.Site.Register | api/views.py:127-137 | ends in the response, tables and session of `AuthViews.Register`, tables valid |
| Server.Site.Login | api/views.py:140-170 | ends in the response, tables and session of `AuthViews.Login`, tables valid |
| Server.Site.CurrentUser | api/views.py:188-191 | ends in the response and session of `AuthViews.CurrentUser`; tables unchanged and valid |
| Server.Site.PatchCurrentUser | api/views.py:193-201 | ends in the tables and session the view leaves, with the corrected response that shows the stored phone; tables valid |
| Server.Site.Logout | api/views.py:204-212 | ends in the response and session of `AuthViews.Logout`; tables unchanged and valid |
| Server.Site.ResetRequest | api/views.py:215-259 | ends in the response and mail of `AuthViews.ResetRequest`; tables unchanged and valid |
| Server.Site.ResetConfirm | api/views.py:262-294 | ends in the response and tables of the corrected confirmation, which trims the new password and refuses a blank one; tables valid |

## Left out

- Sending mail, the mail text and the reset URL: only whether `send_mail` returns or raises is modelled.
- Debug `print` calls are left out.
- Django's `PasswordResetTokenGenerator`: the HMAC, the timestamp and `PASSWORD_RESET_TIMEOUT` are left out. A token is `mint` of (key, password hash, last login in whole seconds, email), and expiry is not modelled.
- Password hashing: a stored password is (salt, text), with salts drawn from a counter. The hasher's algorithm is left out.
- `authenticate` is modelled through the model backend only. Other backends, `is_active` and the timing of the checks are left out.
- Session cookies, CSRF (`ensure_csrf_cookie`) and DRF's BasicAuthentication are left out. The session is a user key and the password hash it was opened with.
- DRF parsing of non-string JSON values (numbers, lists, null) is left out. Every request field is absent or a string.
- `EmailValidator`'s regular expression: it is the parameter `validEmail`.
- Serializers.WordChar: exact on ASCII and Latin-1; any character beyond U+00FF is taken as a letter. Python's Unicode letter tables are not modelled.
- Username Unicode normalisation (NFKC) in `create_user` is left out.
- PyText.Lower: lower-cases ASCII and Latin-1 only, because full Unicode case mapping is not modelled.
- SqlText.LikeEquals: SQLite's `LIKE` folds only ASCII letters. Other databases' folding is not modelled.
- Base64Url.DecodeUid: a uid whose bytes are not all ASCII is treated as invalid. Python would accept Unicode digits such as Arabic-Indic ones there.
- `GuestUserView`, `ContactMessageView` and the plain CRUD viewsets for brokers, images and facts are left out. They contain no logic beyond storage.
- Routing, admin, the reseed command and the image checker script are left out.
- Concurrency between requests is left out. Each view runs on the tables as one atomic step.
- `select_related`/`prefetch_related` and queryset laziness only shape queries, so they are not modelled.
- PyInt.IntToString: `str()` of an integer over 4300 digits raises as well; the model's `str()` is total, so `PyInt.ParseIntToString` is stated for at most 4300 digits.
- Base64Url.EncodeUid: `force_bytes(user.pk)` would raise for a key of more than 4300 digits; the model encodes every key. Database keys are 64-bit (at most 19 digits), so `Base64Url.DecodeEncodeUid`, `ResetProperties.ResetMailLink` and `ResetProperties.ResetLinkWorks` are stated for keys of at most 4300 digits.
- Pricing.DisplayRoundTrip: stated for prices of at most 4300 digits; a longer one reads as 0, as `Pricing.DisplayTooLong` states.
- PyInt.ParseInt: reads ASCII digits only. Python's `int()` also reads every Unicode decimal digit ("٥", "５"), so the model refuses `?min_rooms=٥` where Django filters by 5, and reads a price written in such digits as 0 instead of its value.
- Server.Site.PatchCurrentUser: its response follows the corrected view and shows the phone now stored; the code shows the phone from before the request (see Findings). The code as written is `AuthViews.PatchCurrentUserAsWritten`.
- Server.Site.ResetConfirm: follows the corrected view, storing the new password trimmed and refusing one that is blank after trimming; the code stores it as sent and accepts a blank one (see Findings). The code as written is `AuthViews.ResetConfirmAsWritten`.

## Findings

| source | as written | input that shows it | evidently intended | confidence | as-written member | corrected member |
|---|---|---|---|---|---|---|
| api/views.py:266 | `new_password` is stored exactly as sent. The login form trims the password it reads (DRF `CharField` default), so a new password with surrounding whitespace can never be matched again. | a confirmation with a valid link and `new_password` " hunter22" | store the password as the login form will read it: trimmed, with a blank one counted as missing | not executed | ResetProperties.AsWrittenLockout | ResetProperties.ResetThenLogin |
| api/serializers.py:83-95 | after `update`, the response is rendered from the profile the `post_save` handler cached on the user before the phone was set. The phone just stored is not shown. | PATCH `{"phone_number": "0701234567"}` for a user whose profile phone is null | the response shows the phone now stored | not executed | AuthProperties.StalePhone | AuthProperties.PatchApplied |

# fastapi-pg-boilerplate: the authentication core, in Dafny

This project models the authentication and user-management core of the
fastapi-pg-boilerplate service and proves properties of it.

- **Token endpoint.** The password grant runs the login gate chain: lookup
  by email or username, password check, verification, inactive, suspended,
  re-hash write, token issue. The refresh-token grant mints a new pair from
  a refresh token.
- **Access-token dependency.** Tokens are decoded and their header type is
  checked. The "who am I" endpoint and the `identity_required` decorator
  build on it.
- **User endpoints.** They run over an in-memory `users` table: signup,
  verification, soft deletion, partial update, fetch by id, fetch of the
  current user, and the paged listing.
- **Pure helpers.**
  - The response envelope: pagination arithmetic, links and `create_model`.
  - The request schemas and the user schemas, including the password policy
    and the JSON form of a user.
  - The enumerations, the database-error classification, `clean_text`, the
    uptime split, and `Base.to_dict` filtering.

JSON Web Tokens are abstract values. A token has the `ttyp` entry of its
header, its claim map, and a flag for "authentic" (well formed and signed
with the service's key). Time is whole seconds in a single `now`. Argon2 is
abstract too: a stored hash records the secret it was made from, its salt
and its cost parameters, and any other stored text is unrecognised.

The database is a class `UserStore.UserTable`. Its `rows` field maps ids to
rows, and its invariant is the table's unique constraints. Two parameters
stand for database failures: the error a failing query raises and the error
a failing commit raises. Each user endpoint is a method on the table. It is
proved equal to a function from the old table to the reply and the new
table, and the properties are proved about those functions. The update
endpoints and the by-id lookups follow the corrected behaviour of the first
two rows of "## Findings". The as-written update and lookup are modelled
beside them and compared with them.

Module layout follows the source files:

- `Tokens`, `AuthService`: `app/services/auth_service.py`
- `UserService`: `app/services/user_service.py`
- `ResponseSchemas`: `app/schemas/response.py`
- `RequestSchemas`: `app/schemas/request.py`
- `UserSchemas`: `app/schemas/user.py`
- `Enums`: `app/schemas/enums.py`
- `DbErrors`: `app/utils/errors.py`
- `CoreUtils`: `app/utils/core.py`
- `OrmBase`: `app/models/base.py`
- `Passwords`: `app/utils/security.py`
- `Config`: `app/configs/core.py`
- `UserStore`: `app/models/user.py`, plus the query shapes the services use
- `Lifecycle`: properties that span several endpoints

Behaviour of the code worth stating, which the model follows:

- A token that is both forged and past its expiry is answered "Invalid
  token", not "Token has expired.". PyJWT checks the signature before the
  expiry.
- When the commit of a re-hashed password fails, the login returns the
  database error's `success=False` envelope. The failure is not swallowed,
  and no tokens are issued.
- `token_audience` is read from the variable `TOKEN_ISSUER`
  (`app/configs/core.py:43-46`).

Behaviour of the code that the proofs make explicit:

- Every signup is created as an administrator.
- `delete_user` checks no identity, and `verify_user` asks for no token.
- `current_user_update` accepts `status`, so a suspended user can reactivate
  themselves.
- A deleted user's access token still answers the "who am I" endpoint.
- A deleted user's own profile is still served unless the query says
  `is_deleted=false`. The default query sets no deletion filter.
- A deleted user's refresh token keeps minting pairs.
- An identifier that is one user's email and another user's username makes
  every login with it a 400.

## Model

| member | source | states |
|---|---|---|
| Strings.Lower | app/schemas/enums.py:17 | Same length; each ASCII upper-case letter is lowered, every other character kept |
| Strings.ReplaceChar | app/schemas/enums.py:18 | Same length; each occurrence of the character is replaced, every other character kept |
| Strings.Title | app/schemas/enums.py:18 | Same length; what it computes is stated by Strings.TitleIsTitleCased |
| Strings.TitleIsTitleCased | app/schemas/user.py:66 | Title case: non-letters kept; each letter the same letter, upper case where it starts a word and lower case elsewhere |
| Strings.TitleOfWords | app/schemas/enums.py:18 | Any title-cased form of a text (same letters, upper case exactly at word starts, non-letters kept) is `Title` of it |
| Strings.TitleIdempotent | app/schemas/enums.py:18 | Title-casing a titled name changes nothing |
| Strings.NatToStringRoundTrip | app/utils/core.py:38 | Reading the decimal rendering of a natural number gives the number back |
| Strings.IntToStringRoundTrip | app/schemas/response.py:69-78 | `int(str(i)) == i` for every integer, as a page number written into a link and parsed back |
| Strings.IntToStringInjective | app/schemas/response.py:69-78 | Two integers render alike exactly when they are equal |
| Config.IntSetting | app/configs/core.py:31-38 | An unset variable gives the default; a set one is accepted exactly when it parses as an integer, and then gives that integer |
| Config.LoadSettings | app/configs/core.py:8-52 | The algorithm is ES256; loading succeeds exactly when both expiry variables are unset or integers and PUBLIC_KEY and PRIVATE_KEY are both set, and then the keys are those variables' values |
| Config.EmptyEnvironmentRefused | app/configs/core.py:47-52 | An empty environment is refused, since the two keys have no default |
| Config.DefaultsWithOnlyKeys | app/configs/core.py:16-52 | An environment holding only the two keys gives the defaults (1440 and 43200 minutes, an issuer distinct from the audience) with those keys |
| Config.IssuerVariableSetsAudience | app/configs/core.py:39-46 | Setting TOKEN_ISSUER makes the audience equal to the issuer |
| Config.AudienceVariableIgnored | app/configs/core.py:43-46 | A TOKEN_AUDIENCE variable does not change the settings |
| Enums.NameValueDict | app/schemas/enums.py:13 | The keys are exactly the member names |
| Enums.NameValueDictLookup | app/schemas/enums.py:13 | With distinct names, every name maps to its own member's value |
| Enums.Pretty | app/schemas/enums.py:18 | Underscores become spaces and the result is title-cased; Enums.PrettyAccessToken, Enums.PrettyAdmin and Strings.TitleIsTitleCased state its values |
| Enums.PrettyAccessToken | app/schemas/enums.py:18 | ACCESS_TOKEN reads "Access Token" |
| Enums.PrettyAdmin | app/schemas/enums.py:18 | ADMIN reads "Admin" |
| Enums.NameParam | app/schemas/enums.py:17 | The unit when the member has one, else the name, lower-cased: same length and no upper-case letter left |
| Enums.ToDict | app/schemas/enums.py:10-20 | 'python' gives the name-to-value dict; 'json' gives one entry per member in order, with the lower-cased unit or name and the pretty name; any other mode gives None |
| Enums.ToList | app/schemas/enums.py:22-27 | 'python' gives the values in order; 'json' gives the lower-cased names in order; any other mode gives None |
| Enums.UserTypeFromValue | app/schemas/enums.py:42-46 | `UserType(v)` succeeds exactly for 0..2 and gives the member whose value is v |
| Enums.UserStatusFromValue | app/schemas/enums.py:49-53 | `UserStatus(v)` succeeds exactly for 0..2 and gives the member whose value is v |
| Enums.ValueRoundTrips | app/schemas/enums.py:42-53 | Each user type and status is recovered from its value |
| Enums.ValueSetsAreUnique | app/schemas/enums.py:30-53 | The four `@unique` classes have pairwise distinct values and list exactly their members |
| Enums.SkuUnit | app/schemas/enums.py:178-209 | Values 0..25 take the table's unit; any other value falls back to the lower-cased name |
| Enums.SkuUnitsComeFromTable | app/schemas/enums.py:149-209 | 26 members with values 0..25, pairwise distinct, each with its unit from the table |
| DbErrors.HandleDbErrors | app/utils/errors.py:18-42 | DataError gives 422, IntegrityError 409, OperationalError 500, anything else 400, each with its message; `errors` is exactly one {code, details} entry |
| DbErrors.HandledErrorsAreDistinguishable | app/utils/errors.py:18-42 | The status code tells the error class apart, the result determines the error, and every status lies in 400..500 |
| CoreUtils.Substitute | app/utils/core.py:74 | Same length; every character other than an ASCII letter, digit or white space becomes a space |
| CoreUtils.NormalizeToAscii | app/utils/core.py:74-76 | The output holds only ASCII letters, digits and white space |
| CoreUtils.SkipSpaces | app/utils/core.py:78 | The result does not start with white space |
| CoreUtils.DropTrailingSpaces | app/utils/core.py:78 | The result does not end with white space |
| CoreUtils.Strip | app/utils/core.py:78 | Neither end is white space, as SkipSpaces and DropTrailingSpaces state |
| CoreUtils.WordLength | app/utils/core.py:79 | The length of the leading run of non-white-space characters |
| CoreUtils.Words | app/utils/core.py:79 | The maximal runs of non-white-space characters; CoreUtils.WordsAreClean and CoreUtils.WordsOfJoin state what they are |
| CoreUtils.JoinWords | app/utils/core.py:72 | The words with one space between neighbours; CoreUtils.JoinedShape and CoreUtils.WordsOfJoin state its shape and its inverse |
| CoreUtils.CleanWords | app/utils/core.py:73-79 | The words of the substituted, normalised, lower-cased and stripped text; CoreUtils.CleanTextShape states that they are clean |
| CoreUtils.CleanText | app/utils/core.py:71-80 | The cleaned words joined by single spaces; CoreUtils.CleanTextShape, CoreUtils.CleanTextIdempotent, CoreUtils.OneWord and CoreUtils.TwoWords state what it gives |
| CoreUtils.WordsAreClean | app/utils/core.py:77-79 | Splitting lower-case alphanumeric text gives non-empty lower-case alphanumeric words |
| CoreUtils.JoinedShape | app/utils/core.py:72 | Joining clean words with single spaces gives text with no space at either end and no double space |
| CoreUtils.WordsOfJoin | app/utils/core.py:72-79 | Splitting joined clean words gives the words back |
| CoreUtils.CleanTextShape | app/utils/core.py:72-80 | The result is lower-case ASCII words joined by single spaces |
| CoreUtils.NormalizeKeepsAscii | app/utils/core.py:74-76 | Normalisation leaves ASCII text unchanged |
| CoreUtils.CleanIsFixed | app/utils/core.py:74-77 | Substitution, normalisation and lower-casing leave clean text unchanged |
| CoreUtils.CleanStepsFix | app/utils/core.py:74-78 | Every step up to `strip` leaves cleaned output unchanged |
| CoreUtils.CleanTextIdempotent | app/utils/core.py:72-80 | Cleaning twice equals cleaning once |
| CoreUtils.OtherCharactersSeparate | app/utils/core.py:74 | Any character other than an ASCII letter, digit or white space separates words exactly like a space |
| CoreUtils.NormalizeAppend | app/utils/core.py:74-76 | Normalisation distributes over concatenation |
| CoreUtils.OneWord | app/utils/core.py:78-80 | A clean word is left as it is by strip, split and join |
| CoreUtils.TwoWords | app/utils/core.py:72-80 | Two clean words around one ASCII white-space character come out joined by one space |
| CoreUtils.DroppedSeparatorMergesWords | app/utils/core.py:72-80 | As written: a separator with no NFKD decomposition (U+2028 and the like) is dropped, so the words around it merge |
| CoreUtils.NormalizeKeepingSeparators | app/utils/core.py:74-76 | The corrected normalisation still yields only ASCII letters, digits and white space |
| CoreUtils.NormalizeKeepingAppend | app/utils/core.py:74-76 | The corrected normalisation distributes over concatenation |
| CoreUtils.NormalizeKeepingAscii | app/utils/core.py:74-76 | The corrected normalisation leaves ASCII text unchanged |
| CoreUtils.NormalizeDropsSeparator | app/utils/core.py:74-76 | As written: the ASCII encoding drops a separator with no NFKD decomposition that sits between two clean words |
| CoreUtils.NormalizeKeepsSeparator | app/utils/core.py:74-76 | Corrected: that separator survives normalisation as one ASCII white-space character |
| CoreUtils.SeparatorSplitsWords | app/utils/core.py:72-80 | Corrected: any white-space character between two clean words leaves exactly one space |
| CoreUtils.SplitUptime | app/utils/core.py:32-35 | hours < 24, minutes < 60, seconds < 60, and days·86400 + hours·3600 + minutes·60 + seconds = the whole elapsed seconds |
| CoreUtils.SplitArithmetic | app/utils/core.py:32-35 | The four floor-division and modulo expressions recombine to the elapsed seconds |
| CoreUtils.SplitUptimeUnique | app/utils/core.py:32-35 | Any split with those bounds and that sum is the computed one |
| CoreUtils.DigitRunOfPrefix | app/utils/core.py:38 | The digit run of rendered digits followed by text is exactly the digits |
| CoreUtils.DigitPrefixSplit | app/utils/core.py:38 | A digits-then-text string splits in only one way |
| CoreUtils.NatToStringInjective | app/utils/core.py:38 | Distinct numbers render differently |
| CoreUtils.FormatUptime | app/utils/core.py:38 | The four numbers with their units; CoreUtils.FormatUptimeInjective states that the text determines them |
| CoreUtils.FormatUptimeInjective | app/utils/core.py:38 | The rendered uptime text determines the days, hours, minutes and seconds |
| OrmBase.Entries | app/models/base.py:29-36 | Never more entries than columns |
| OrmBase.ToDict | app/models/base.py:18-36 | A truthy non-list include or exclude is a TypeError, with include checked first; otherwise at most one entry per column |
| OrmBase.EntriesMembership | app/models/base.py:29-36 | A column's entry is present exactly when the filters keep the column, and every entry is some kept column's key and value |
| OrmBase.ToDictSelects | app/models/base.py:29-34 | An accepted call returns exactly the columns in a non-empty include and not in a non-empty exclude |
| OrmBase.KeptFrom | app/models/base.py:29-36 | The kept positions from a start on lie in range and strictly increase |
| OrmBase.KeptPositionsComplete | app/models/base.py:29-36 | A position is kept exactly when the filters keep its column |
| OrmBase.EntriesInOrder | app/models/base.py:29-36 | The entries are, one for one and in order, the columns at the kept positions |
| OrmBase.ToDictKeepsOrder | app/models/base.py:29-36 | An accepted call lists the kept columns in the mapper's order: entries of all the columns at strictly increasing positions, a position present exactly when its column is kept |
| OrmBase.AllEntries | app/models/base.py:35-36 | Every column's key and value, in mapper order |
| OrmBase.UnfilteredKeepsAll | app/models/base.py:35-36 | With no filter or empty lists, every column is returned in mapper order |
| OrmBase.IncludeByNameSelectsNothing | app/models/base.py:30-32 | As written: a non-empty include list of column names selects nothing |
| OrmBase.EntriesByKey | app/models/base.py:29-36 | Never more entries than columns |
| OrmBase.ToDictByKey | app/models/base.py:18-36 | The same TypeError conditions as `to_dict`; at most one entry per column |
| OrmBase.ToDictByKeySelects | app/models/base.py:29-34 | Corrected: the entries are exactly the columns whose key is included and not excluded |
| Passwords.HashPassword | app/utils/security.py:14-15 | A fresh argon2 hash with the current parameters |
| Passwords.VerifyPassword | app/utils/security.py:18-24 | An unidentifiable stored value is a ValueError; otherwise verified exactly when the secret matches, with a new hash exactly when verified and the parameters are outdated |
| Passwords.HashThenVerify | app/utils/security.py:14-24 | A fresh hash verifies its own password with no update and rejects every other password |
| Passwords.UpdatedHashIsCurrent | app/utils/security.py:18-24 | A replacement hash needs no further update and verifies the same password |
| Tokens.TimeClaim | app/services/auth_service.py:84-94 | A time claim is accepted exactly when it is an integer; a string is an invalid token |
| Tokens.AudienceAccepted | app/services/auth_service.py:82-92 | An `aud` string equal to the audience, or a list of strings containing it; Tokens.DecodeToken states that only such a claim decodes |
| Tokens.DecodeToken | app/services/auth_service.py:82-117 | Decodes exactly when the token is authentic, has the required claims, iat <= now, nbf <= now < exp, and the issuer, audience and id are right; an expiry is reported only for an authentic token |
| Tokens.ValidateAccessToken | app/services/auth_service.py:263-273 | Accepted exactly when decoding succeeds and the header says access_token; a decoded token of another type is an invalid token |
| Tokens.IssuedToken | app/services/auth_service.py:136-159 | The data plus exp = now + delta minutes, nbf = iat = now, sub = id, iss, aud and jti, with ttyp in the header |
| Tokens.GenerateJwtToken | app/services/auth_service.py:136-159 | Building the claims step by step on a copy gives the issued token |
| Tokens.IssuedPair | app/services/auth_service.py:120-133 | An access token with the access delta and a refresh token with the refresh delta, over the same data |
| Tokens.GenerateTokens | app/services/auth_service.py:120-133 | The method returns the issued pair |
| Tokens.TimeWindow | app/services/auth_service.py:82-92 | The time claims pass exactly when all three are integers with iat <= now and nbf <= now < exp; iat after now is invalid, and an expiry is reported only past exp |
| Tokens.IssuedInFutureRefused | app/services/auth_service.py:84-94 | A token whose iat lies after now is refused as invalid |
| Tokens.IssuedTokenLifetime | app/services/auth_service.py:82-159 | An issued token decodes to its claims exactly while now <= t < now + delta minutes; then it is expired, and before issue it is invalid |
| Tokens.PairKindsAreSeparate | app/services/auth_service.py:263-273 | The headers say access_token and refresh_token, and a refresh token is never accepted as an access token |
| Tokens.DecodeIgnoresHeader | app/services/auth_service.py:82-105 | Tokens that differ only in ttyp decode alike |
| Tokens.ForgedTokenIsInvalid | app/services/auth_service.py:106-117 | A token that is not authentic is an invalid token, never an expired one |
| UserStore.Matching | app/services/user_service.py:61-71 | Exactly the stored ids whose rows meet every condition |
| UserStore.OneOrNone | app/services/auth_service.py:174-176 | A query fault is raised; no match gives nothing; one match gives that row; several raise MultipleResultsFound |
| UserStore.IdLookupIsUnique | app/models/user.py:30-36 | A lookup by the primary key matches at most one row |
| UserStore.OneRowIsStored | app/models/user.py:30-36 | A fetched row is the one stored under its own id |
| UserStore.ReplaceKeepsUnique | app/models/user.py:30-48 | Rewriting a row without changing its id, username or email keeps the unique constraints |
| UserStore.Committed | app/services/user_service.py:334-336 | A commit succeeds exactly when there is no fault and the rows keep the unique constraints |
| UserStore.Inserted | app/services/user_service.py:158-161 | An insert succeeds exactly when there is no fault, the id is unused and the constraints hold; a taken id is a duplicate-key error |
| UserStore.InsertKeepsUnique | app/models/user.py:37-48 | A new row keeps the constraints exactly when its username and email are both unused |
| UserStore.UserTable.constructor | app/models/user.py:27-82 | An empty table that meets its constraints |
| UserStore.UserTable.Scalars | app/services/user_service.py:73-75 | The scan returns exactly the matching ids |
| UserStore.UserTable.ScalarOneOrNone | app/services/user_service.py:73-75 | `scalars(...).one_or_none()` on the table |
| UserStore.OffsetLimit | app/services/user_service.py:214-216 | `offset` then `limit` over the matching ids: max(0, min(limit, matches − offset)) rows, each stored under its id, none twice |
| UserStore.UserTable.Page | app/services/user_service.py:193-216 | max(0, min(limit, matches − offset)) matching rows, each stored under its id, none twice |
| UserStore.UserTable.Insert | app/services/user_service.py:158-161 | The row joins the table exactly when the insert is accepted; otherwise the table is unchanged |
| UserStore.UserTable.Commit | app/services/user_service.py:334-336 | The pending rows become the table exactly when the commit is accepted; otherwise the table is unchanged |
| UserSchemas.LineLength | app/configs/core.py:17 | The first newline's index: a newline-free prefix ending at a newline or at the end |
| UserSchemas.LookaheadWithinLine | app/configs/core.py:17 | Each lookahead holds exactly when its class occurs on the first line |
| UserSchemas.DotsWithinLine | app/configs/core.py:17 | `.{8,}$` holds exactly when the first line has at least 8 characters and is followed by nothing or one final newline |
| UserSchemas.PasswordRegexMeansPolicy | app/configs/core.py:17 | The regex accepts exactly the passwords with 8+ characters on one line and an upper-case letter, lower-case letter, digit and special character |
| UserSchemas.ValidatePassword | app/schemas/user.py:34-42 | Accepted, unchanged, exactly when the regex matches; otherwise the policy message |
| UserSchemas.ValidateUpdatePassword | app/schemas/user.py:95-103 | No password passes; a given one is checked by the same rule |
| UserSchemas.StrongPasswordAccepted | app/schemas/user.py:34-42 | "Passw0rd!" is accepted |
| UserSchemas.PasswordWithoutSpecialRefused | app/schemas/user.py:34-42 | "Passw0rdd" is refused |
| UserSchemas.NewUser | app/schemas/user.py:45-53 | The fresh id, the signup's name and email, the given type and hash, INACTIVE, not deleted, not verified |
| UserSchemas.EnumJson | app/schemas/user.py:62-74 | Exactly {value, mapped}, with mapped the titled name |
| UserSchemas.OutUserJson | app/schemas/user.py:59-79 | The declared fields minus the excluded ones; no password and no current_user_id; is_current_user iff id == current; enums serialised |
| UserSchemas.OutUserEnumsRoundTrip | app/schemas/user.py:62-74 | Status and type are recovered from their JSON, and mapped is the titled name |
| UserSchemas.ValidateUpdateUser | app/schemas/user.py:87-103 | Accepted, unchanged, unless a sent password breaks the policy |
| UserSchemas.UpdateDump | app/services/user_service.py:99-102 | Exactly the sent fields, with null where null was sent |
| UserSchemas.EmptyDumpMeansNothingSet | app/services/user_service.py:99-108 | The dump is empty exactly when nothing was sent |
| RequestSchemas.ValidateLoginRequest | app/schemas/request.py:18-26 | Accepted, unchanged, exactly when the grant's input is present; otherwise the grant's message |
| RequestSchemas.ExtraGrantInputKept | app/schemas/request.py:19-26 | The other grant's field is neither required nor removed |
| RequestSchemas.OthersOf | app/schemas/request.py:29-47 | The declared filters plus every extra field, never a paging field or `is_deleted`; each extra keeps its value |
| RequestSchemas.ParseQueryParams | app/schemas/request.py:29-47 | Defaults created_at, asc, 1, 10 and null filters; sort_order only asc or desc; an accepted query has its declared filters of their declared types; extra fields kept |
| RequestSchemas.QueryAccepted | app/schemas/request.py:29-47 | A query is accepted exactly when sort_by is a string, sort_order asc or desc, page and per_page integers, is_deleted a boolean or null, and each declared filter of its declared type or null, when given |
| RequestSchemas.StatusFilterTyped | app/schemas/request.py:42 | A `status` given as a string is refused, and a list of integers is accepted |
| RequestSchemas.QueryDefaults | app/schemas/request.py:34-47 | An empty query validates to the defaults with every filter null |
| RequestSchemas.Dump | app/schemas/response.py:176-184 | Every extra and filter field, the paging fields and is_deleted, each extra keeping its value |
| RequestSchemas.Filters | app/schemas/response.py:176-184 | Every query field except sort_by, sort_order, page and per_page, with its value |
| ResponseSchemas.Pagination.TotalPages | app/schemas/response.py:35-39 | 0 for no items, otherwise the ceiling of items / per_page |
| ResponseSchemas.Pagination.NextPage | app/schemas/response.py:43-47 | current + 1 exactly when it does not pass the last page |
| ResponseSchemas.Pagination.PreviousPage | app/schemas/response.py:51-55 | current − 1 exactly when current >= 2 |
| ResponseSchemas.TotalPagesIsLeast | app/schemas/response.py:35-39 | Any page count that holds every item is at least total_pages |
| ResponseSchemas.NeighboursStayInRange | app/schemas/response.py:43-55 | Within the range, next and previous stay in the range and are absent exactly at the last and first pages |
| ResponseSchemas.UpdateQueryParams | app/schemas/response.py:69-78 | page and per_page read back as the given values; every other parameter kept |
| ResponseSchemas.Links.First | app/schemas/response.py:82-92 | Present exactly when total_pages >= 1, leading to page 1 |
| ResponseSchemas.Links.Last | app/schemas/response.py:96-106 | Present exactly when total_pages >= 2, leading to page total_pages |
| ResponseSchemas.Links.Next | app/schemas/response.py:110-120 | Present exactly when next_page is, leading to it with the same per_page |
| ResponseSchemas.Links.Previous | app/schemas/response.py:124-134 | Present exactly when previous_page is, leading to it with the same per_page |
| ResponseSchemas.SinglePageLinks | app/schemas/response.py:82-134 | A single page has a first link and no last, next or previous |
| ResponseSchemas.Failure | app/services/user_service.py:76-83 | success=False with the error's status, message and errors |
| ResponseSchemas.Success | app/services/user_service.py:135-142 | success=True with the status, payload and message given |
| ResponseSchemas.CreateModel | app/schemas/response.py:149-196 | Fails exactly for a negative count; otherwise the given status, success, payload, message and errors, pagination and links from the query's page and the count, and meta with the sort and, as filters, every query field other than the four paging ones with its value |
| AuthService.IdentityClaims | app/services/auth_service.py:243-247 | Exactly id, email and identity_type from the row |
| AuthService.TokenResponse | app/services/auth_service.py:249-259 | 200 bearer response, expires_in = access delta; both tokens carry every unregistered claim of the data |
| AuthService.TokenResponseValidates | app/services/auth_service.py:249-273 | The response's access token validates now (for a positive delta) and its refresh token does not |
| AuthService.LoginSpec | app/services/auth_service.py:162-260 | Success exactly when every gate passes; the table changes only by re-hashing the user's password |
| AuthService.LoginFor | app/services/auth_service.py:193-259 | The gates after one user is found; AuthService.LoginRefusals, AuthService.AllowedLoginIssues, AuthService.RehashedLoginIssues and AuthService.CurrentHashLoginIssues state its answers |
| AuthService.LoginRefusals | app/services/auth_service.py:174-241 | A lookup failure is the DB envelope; 401 exactly for no user or a wrong password; 500 for an unrecognised hash; then 403 unverified, 403 inactive, 423 suspended; a failed re-hash commit is the DB envelope with the table unchanged |
| AuthService.LoginTokens | app/services/auth_service.py:243-259 | The access token carries the user's id, email and type, and validates when the delta is positive |
| AuthService.LoginReply | app/services/auth_service.py:186-259 | An allowed login answers the token response over the found user |
| AuthService.IdentityTokens | app/services/auth_service.py:243-249 | The access token carries the identity claims |
| AuthService.AllowedLoginIssues | app/services/auth_service.py:193-259 | After one user is found, passing gates and a committed re-hash give the token response |
| AuthService.RehashedLoginIssues | app/services/auth_service.py:228-259 | With an outdated hash and no commit fault, the re-hash commits and the token response follows |
| AuthService.CurrentHashLoginIssues | app/services/auth_service.py:193-259 | With a current hash, the gates passed give the token response |
| AuthService.Login | app/services/auth_service.py:162-260 | The method's reply and table are the login's specification |
| AuthService.RefreshedClaims | app/services/auth_service.py:292-296 | Exactly id, email and identity_type, copied from the token |
| AuthService.RefreshGrant | app/services/auth_service.py:288-315 | Decode errors pass through; a decoded non-refresh token is 400; a pair exactly for a refresh token with email and identity_type, carrying those claims |
| AuthService.GrantSpec | app/services/auth_service.py:276-315 | The password grant is the login; the refresh grant leaves the table unchanged |
| AuthService.RefreshIgnoresTable | app/services/auth_service.py:288-309 | The refresh grant answers alike whatever the table holds |
| AuthService.GenerateAccessToken | app/services/auth_service.py:276-315 | The method's reply and table are the grant's specification |
| AuthService.VerifyAccessToken | app/services/auth_service.py:318-360 | A query fault is its envelope; a string id with no row is an invalid token; otherwise success with the user serialised without the excluded fields; deletion is not checked |
| AuthService.IdentityOf | app/services/auth_service.py:369 | Some user type exactly when the claim is an integer in 0..2 |
| AuthService.IdentityRequired | app/services/auth_service.py:363-378 | No list lets every caller through; otherwise pass exactly when the type is listed, 403 when not, and an error for a claim that names no type |
| AuthService.LoginIdentityChecks | app/services/auth_service.py:363-378 | A token carrying the user's identity type passes exactly the checks that list that type, and any other check raises 403 |
| UserService.DbFailure | app/services/user_service.py:76-83 | success=False with the classified status |
| UserService.IdReply | app/services/user_service.py:168-178 | The 200 reply carrying the id; UserService.CreateUserSpec and UserService.UpdateUserByIdSpec state when it is given |
| UserService.CallerId | app/services/user_service.py:257 | The caller's id when the `id` claim is a string; UserService.CurrentUserUpdateSpec states that no such claim is an unhandled error |
| UserService.UserReply | app/services/user_service.py:255-264 | The 200 reply with the user serialised for the caller; UserService.FetchUserByIdSpec states when it is given |
| UserService.ByIdConditions | app/services/user_service.py:61-64 | A row matches exactly when its id is the given one and, when a flag is given, its deletion flag equals it |
| UserService.LookupUser | app/services/user_service.py:56-91 | Found exactly when there is no fault and the row exists and passes the filter; 404 otherwise; a fault is its envelope |
| UserService.GetUserById | app/services/user_service.py:56-91 | The method builds the conditions by appending and returns the lookup's specification |
| UserService.GetUserByIdAsWritten | app/services/user_service.py:76-83 | As written: a query fault returns a ResponseModel in the row's place |
| UserService.UseAsRow | app/services/user_service.py:110-118 | A ResponseModel used as a row is an unhandled error |
| UserService.LookupFailureCrashesCallers | app/services/user_service.py:76-91 | As written, a failed lookup crashes the caller where the DB envelope was meant |
| UserService.ApplyUpdate | app/services/user_service.py:116-120 | Sent fields take their values, others are kept, a sent password is stored hashed, and a null is refused by NOT NULL |
| UserService.ApplyUpdateAsWritten | app/services/user_service.py:99-120 | As written, a sent password is stored as plain text |
| UserService.UpdatedPasswordCannotBeVerified | app/services/user_service.py:99-120 | As written, verifying the updated password is a ValueError; hashed, it verifies |
| UserService.UpdateUserByIdSpec | app/services/user_service.py:94-142 | Corrected (password hashed, lookup error answered with the DB envelope): 422 when nothing is sent; 404 for a missing or deleted user; success exactly when every gate passes, changing only that row; no change on failure |
| UserService.UpdateUserById | app/services/user_service.py:94-142 | Corrected: the method's reply and table are the corrected update's specification |
| UserService.UpdateUserByIdAsWritten | app/services/user_service.py:94-142 | As written: 422 when nothing is sent; a lookup error crashes; on success only that row changes, with a sent password stored as its text |
| UserService.UpdateAsWrittenVersusCorrected | app/services/user_service.py:94-142 | Without a lookup error both versions give the same reply; with no password sent they leave the same table; with one sent they differ only in the stored password, text against hash |
| UserService.CreateUserSpec | app/services/user_service.py:145-178 | Success exactly when the id, username and email are unused and the commit is accepted; adds an ADMIN, INACTIVE, unverified user with the hashed password |
| UserService.CreateUser | app/services/user_service.py:145-178 | The method's reply and table are the signup's specification |
| UserService.DeleteUserSpec | app/services/user_service.py:320-350 | Corrected on a lookup error (the DB envelope); success exactly for a stored, undeleted user; sets is_deleted and INACTIVE and nothing else; 404 otherwise |
| UserService.DeleteUser | app/services/user_service.py:320-350 | The method's reply and table are the deletion's specification |
| UserService.VerifyUserSpec | app/services/user_service.py:353-382 | Corrected on a lookup error (the DB envelope); success exactly for a stored, undeleted user; sets is_verified and ACTIVE and nothing else; 404 otherwise |
| UserService.VerifyUser | app/services/user_service.py:353-382 | The method's reply and table are the verification's specification |
| UserService.Denied | app/services/auth_service.py:369-374 | The refusal of identity_required becomes the reply |
| UserService.FetchUserByIdSpec | app/services/user_service.py:240-264 | Corrected on a lookup error (the DB envelope); success exactly for an admin caller and a stored row passing the filter; 403 for any other known type |
| UserService.FetchCurrentUserSpec | app/services/user_service.py:267-289 | Corrected on a lookup error (the DB envelope); success exactly for the caller's own stored row passing the filter, marked as the current user |
| UserService.CurrentUserUpdateSpec | app/services/user_service.py:292-303 | Corrected, as UpdateUserByIdSpec: the update applied to the caller's own id, with no identity check |
| UserService.UpdateUserSpec | app/services/user_service.py:306-317 | Corrected, as UpdateUserByIdSpec: for an admin, the update by id; for anyone else, no success and no change, and 403 with no change for any other known type |
| UserService.UpdateUser | app/services/user_service.py:306-317 | Corrected: the method's reply and table are the admin update's specification; a known non-admin type gets 403 with the table unchanged |
| UserService.CurrentUserUpdate | app/services/user_service.py:292-303 | Corrected: the method's reply and table are the self-update's specification |
| UserService.ListingConditions | app/services/user_service.py:190-200 | A row matches exactly when it passes the deletion filter, if one is given |
| UserService.UserList | app/services/user_service.py:226-229 | One serialised user per row, in order |
| UserService.ListingReply | app/services/user_service.py:181-237 | 403 for a non-admin; an unknown sort column is a ValueError; a query error is the DB envelope; success exactly for an admin, a column to sort by, no error and a usable caller id; it counts every matching row, lists each row of the page serialised for the caller in order, and reports the sort and filters |
| UserService.FetchAllUsers | app/services/user_service.py:181-237 | The reply is the listing's specification; on success the page is offset (page−1)·per_page, limit per_page |
| Lifecycle.NamesOnly | app/services/auth_service.py:166-172 | The identifier is one row's email or username and no other row's; the premise of Lifecycle.SoleMatch |
| Lifecycle.SoleMatch | app/services/auth_service.py:166-176 | An identifier naming exactly one row finds that row |
| Lifecycle.NamesOnlyAfterRewrite | app/services/auth_service.py:166-172 | Rewriting a row without its username or email keeps who an identifier names |
| Lifecycle.SignupNamesNewRow | app/services/user_service.py:145-178 | After a signup the email names exactly the new ADMIN row |
| Lifecycle.SignupLoginRefused | app/services/auth_service.py:207-212 | Logging in right after signup is 403 not verified |
| Lifecycle.VerifiedSignupLogsIn | app/services/user_service.py:353-382 | After verify_user the login passes every gate, as an administrator, and leaves the table as it was |
| Lifecycle.IdentityTokenOpens | app/services/auth_service.py:318-378 | Any token carrying a user's id and identity type opens exactly the endpoints for that type, and who-am-I resolves it while the id is stored |
| Lifecycle.TokenReplyOpens | app/services/auth_service.py:243-260 | The token response over a stored user's claims passes both checks on that table |
| Lifecycle.LoginTokenIdentity | app/services/auth_service.py:243-260 | A login's access token passes both checks on the table the login leaves |
| Lifecycle.DeletedUserKeepsTokenAccess | app/services/user_service.py:320-350 | After deletion, login is 403 inactive for a verified user and 403 unverified otherwise, who-am-I still succeeds, and the profile lookup is 404 with `is_deleted=false` but still serves the deleted row with the default query |
| Lifecycle.AmbiguousIdentifierBlocksLogin | app/services/auth_service.py:174-184 | One user's email equal to another's username makes the login a 400 for any password |
| Lifecycle.PasswordChangeBreaksLogin | app/services/user_service.py:99-120 | As written, logging in with a password set by an update is an unhandled error |
| Lifecycle.PasswordChangeKeepsLogin | app/services/user_service.py:94-142 | Corrected, an active verified user logs in with the new password |
| Lifecycle.SuspendedUserCanReactivate | app/services/user_service.py:292-303 | A suspended user can set their own status to ACTIVE |

## Left out

- Tokens: ES256 signing, base64 key decoding and the JSON header parse are abstracted into the authentic flag and the ttyp field.
- Tokens: the three `datetime.now()` calls are one `now`, and a `jti` is a parameter, not a fresh random value.
- Tokens.DecodeToken: PyJWT 2.6 or later is assumed, which refuses an `iat` in the future. Leeway is 0.
- Tokens: a time claim given as a numeric string is treated as invalid; PyJWT's acceptance of such strings is not modelled.
- Passwords: argon2 and passlib internals are abstract. The cost parameters are one comparable value.
- UserSchemas: an argon2 hash is not checked against the password policy. An update's password is checked before hashing.
- UserService.UpdateUserByIdSpec: models the corrected update. The as-written update is UserService.UpdateUserByIdAsWritten.
- UserService.UpdateUserById: proved equal to the corrected update, UserService.UpdateUserByIdSpec.
- UserService.UpdateUserSpec: built on the corrected update. As written, it differs as UserService.UpdateAsWrittenVersusCorrected states.
- UserService.UpdateUser: built on the corrected update. As written, it differs as UserService.UpdateAsWrittenVersusCorrected states.
- UserService.CurrentUserUpdateSpec: built on the corrected update. As written, it differs as UserService.UpdateAsWrittenVersusCorrected states.
- UserService.CurrentUserUpdate: built on the corrected update. As written, it differs as UserService.UpdateAsWrittenVersusCorrected states.
- UserService.DeleteUserSpec: answers a lookup error with the DB envelope, as the corrected lookup does. As written, that case is a 500 (UserService.LookupFailureCrashesCallers).
- UserService.DeleteUser: answers a lookup error with the DB envelope, as the corrected lookup does. As written, that case is a 500 (UserService.LookupFailureCrashesCallers).
- UserService.VerifyUserSpec: answers a lookup error with the DB envelope, as the corrected lookup does. As written, that case is a 500 (UserService.LookupFailureCrashesCallers).
- UserService.VerifyUser: answers a lookup error with the DB envelope, as the corrected lookup does. As written, that case is a 500 (UserService.LookupFailureCrashesCallers).
- UserService.FetchUserByIdSpec: answers a lookup error with the DB envelope, as the corrected lookup does. As written, that case is a 500 (UserService.LookupFailureCrashesCallers).
- UserService.FetchCurrentUserSpec: answers a lookup error with the DB envelope, as the corrected lookup does. As written, that case is a 500 (UserService.LookupFailureCrashesCallers).
- AuthService.VerifyAccessToken: requires an `id` claim, which `validate_access_token` guarantees. An id claim that is a string but not a UUID is not modelled.
- UserStore.UserTable.Page: the order of rows by `sort_by` and `sort_order` is not modelled. Only which rows, how many and no repeats are stated.
- UserService.FetchAllUsers: requires page >= 1 and per_page >= 1. A negative offset or limit is a database error that the in-memory table does not model.
- UserService.ListingReply: the exact exception for a `sort_by` that names a non-column attribute of the model is not modelled. Only column names are accepted, anything else is a ValueError.
- ResponseSchemas.Pagination.TotalPages: requires per_page > 0, because the source divides by it unchecked. Integer ceiling replaces float `ceil`.
- ResponseSchemas.UpdateQueryParams: URL parsing and encoding are left out; the query is a map from names to value lists. Blank values that `parse_qs` drops are not modelled.
- RequestSchemas.ParseQueryParams: pydantic's coercion of query strings is not modelled. Values arrive already typed and are checked strictly, so `page="2"` or `is_hidden="true"` is refused instead of parsed.
- UserSchemas: `EmailStr` validation and pydantic's type coercion are not modelled. The `created_at` and `updated_at` timestamps are left out.
- ResponseSchemas: the request id (a ContextVar) and the timestamp of each response are left out.
- CoreUtils: the NFKD step of `clean_text` is modelled only for the characters that survive the substitution (ASCII and Python white space), which is all it ever receives; `clean_text` itself takes any text. `get_system_metrics` (psutil) and the database timing (TTLCache) are left out.
- CoreUtils.SplitUptime: works on whole nanoseconds from a clock parameter. `perf_counter_ns` is outside the model.
- UserStore: the SMALLINT ranges of `type` and `status` are represented by the enumerations.
- Enums: `IsoCurrency` is built from pycountry data and is left out. The other enumerations are not used by the core and are left out.
- Routers, middleware, error handlers, the async engine and session lifecycle are framework glue and are not modelled.

## Findings

| source | as written | input that shows it | evidently intended | confidence | as-written member | corrected member |
|---|---|---|---|---|---|---|
| app/services/user_service.py:99-120 | the update dump is written as-is, so a new password is stored as plain text | update with `password="NewPassw0rd!"`, then log in with it: passlib cannot identify the stored value and raises ValueError (500) | the password is hashed before it is stored, as `create_user` does | high, not executed | UserService.UpdatedPasswordCannotBeVerified, UserService.UpdateUserByIdAsWritten, Lifecycle.PasswordChangeBreaksLogin | UserService.ApplyUpdate, UserService.UpdateUserByIdSpec, Lifecycle.PasswordChangeKeepsLogin |
| app/services/user_service.py:76-83 | on a query error `__get_user_by_id` returns a ResponseModel, which every caller then uses as a row | any DB error during the lookup in `delete_user`: `db_user.is_deleted = True` on a ResponseModel raises (500) | the caller returns the DB-error envelope | high, not executed | UserService.LookupFailureCrashesCallers, UserService.UpdateAsWrittenVersusCorrected | UserService.LookupUser |
| app/models/base.py:30-34 | include/exclude membership is tested on the ColumnProperty object | `to_dict(include=['email'])` returns `{}` | membership on `column.key` | medium, not executed | OrmBase.IncludeByNameSelectsNothing | OrmBase.ToDictByKeySelects |
| app/utils/core.py:72-80 | a white-space character that has no NFKD decomposition is kept by the substitution, then dropped by the ASCII encoding | `clean_text("ab\u2028cd")` (U+2028, LINE SEPARATOR) gives `"abcd"` | every white-space character separates words: `"ab cd"` | medium, not executed | CoreUtils.DroppedSeparatorMergesWords | CoreUtils.SeparatorSplitsWords |

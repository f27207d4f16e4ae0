# Repair-shop backend: authentication, invites and client state

This project models the parts of the repair-shop application that carry
invariants, and proves properties about them.

- **The authentication and invite state machine of the backend** (`server.js`).
  - There are two datasets, `mainPool` and `demoPool`. Each has a users table and an in-memory invite token.
  - `getDatabasePool`, `sanitizeInput` (JavaScript `trim`), `validateUser` and `generateUniqueId` are modelled.
  - So are the handlers `/auth/signup`, `/auth/login`, `/auth/validate`, `/generate-invite-link`, `/check-admin` and `/change-password`.
  - The server is the class `Auth.AuthServer`. Its fields are the two tables and the two invite tokens. Every handler is a method with its full contract.
- **The client-side dataset selector** (`src/variables.js`): the class `PoolSetting.DbPoolSetting`. It holds the module variable `dbPool` and its session-storage mirror.
- **The translation lookup `t` and the default language** (`src/LanguageContext.js`): module `Translation`, over the JavaScript values of module `JsValues`.
- **The repair-editing form** (`src/EditRepair.js`), module `RepairForm`:
  - the initial state and the `sanitizedData` defaults loaded from a fetched row;
  - `handleChange` and `handleDateChange`;
  - the end-date rule of the `handleSubmit` payload.

The JavaScript string primitives involved are in module `Strings`:

- `trim`, with the ECMAScript whitespace set;
- `split` on one character, proved against `join`;
- `toLowerCase` on ASCII letters;
- decimal numerals, used by property access on strings.

How the SQL engine is modelled:

- Column comparison is exact string equality.
- Rows are kept in insertion order.
- `LIMIT 1` and "the first matching row" are both the earliest inserted row.
- An `UPDATE`'s affected-row count is the number of rows its `WHERE` clause matches.

How the rest of the environment is modelled:

- Random tokens (`Math.random`, `crypto.randomBytes`) become method parameters.
- A request field that is absent is `None`. The model treats request fields as strings.
- A response is a status and a body.
- `Unanswered` stands for an exception thrown outside a handler's `try`, where no response is written.

Three behaviours of the code are easy to miss; the model follows the code:

- **Invite tokens are not consumed.** No signup clears the pool's invite token, so one invite admits any number of signups until the admin issues a new one. `Auth.AuthServer.Signup` ensures both tokens are unchanged, and `AuthScenario.InviteTokenIsReusable` shows two signups with one token both succeeding.
- **The admin is not exactly one login.** "The first user is the admin" is decided by comparing usernames case-insensitively, so every case variant of the first user's username passes (`Auth.AdminIsEarliestUser`).
- **`/change-password` cannot answer 404.** The handler has a 404 branch, but a validated user always has a row with that username, so in this sequential model the branch is unreachable (`Auth.AuthServer.ChangePassword`).

## Model

| member | source | states |
|---|---|---|
| Strings.TrimSpec | server.js:85-89 | `sanitizeInput` returns the longest infix that neither starts nor ends with whitespace. Only whitespace is dropped, on both sides. The result is empty exactly when the input is all whitespace. |
| Strings.TrimIdempotent | server.js:85-89 | Sanitizing a sanitized value changes nothing. |
| Strings.TrimPadded | server.js:85-89 | Whitespace padding on either side leaves the sanitized value unchanged. |
| Strings.TrimUnique | server.js:85-89 | Any whitespace-framed infix without whitespace at its ends is the trimmed value. |
| Strings.Split | server.js:211 | `split(sep)` yields at least one piece, and no piece contains the separator. Joining the pieces gives back the input. There is a single piece exactly when the separator does not occur. |
| Strings.SplitJoin | server.js:211 | Splitting a join of separator-free pieces returns those pieces. |
| Strings.ToLowerIdempotent | server.js:224 | Lowering twice is lowering once. |
| Strings.ParseNat | src/LanguageContext.js:14 | Reading a property name as a string index succeeds exactly on canonical decimal numerals. |
| Strings.ParseNatToString | src/LanguageContext.js:14 | The numeral of `n` reads back as `n`. |
| Strings.NatToStringParse | src/LanguageContext.js:14 | A canonical numeral is the numeral of the number it reads as. |
| JsValues.StringIndex | src/LanguageContext.js:14 | Indexing a string by the numeral of `i` selects its `i`-th character. |
| Translation.InitialLanguage | src/LanguageContext.js:10 | The stored language when it is non-empty, otherwise `"en"`. It is never empty. |
| Translation.Walk | src/LanguageContext.js:14 | After at least one segment, the reducer holds a truthy value or the key string. |
| Translation.Resolve | src/LanguageContext.js:14 | A value reached through every segment is truthy. |
| Translation.TAsWritten | src/LanguageContext.js:12-15 | `t(key)` as written returns a truthy value or the key. |
| Translation.T | src/LanguageContext.js:12-15 | `t(key)` as intended returns a truthy value or the key. |
| Translation.WalkResolved | src/LanguageContext.js:14 | When every segment resolves, the reducer ends on the resolved value. |
| Translation.TFound | src/LanguageContext.js:12-15 | When the key resolves in the current language's table, both readings of `t` return that translation, and it is truthy. |
| Translation.TMissing | src/LanguageContext.js:12-15 | Once some prefix of the segments misses (a segment absent or falsy), the intended `t` returns the key itself, whatever segments follow. |
| Translation.ResolvePrefixNone | src/LanguageContext.js:14 | A miss on a prefix of the segments is a miss on all of them. |
| Translation.WalkUnresolved | src/LanguageContext.js:14 | After the first miss, the as-written reducer keeps the key string as long as no later segment names a truthy property of it; segments before the miss are unconstrained. |
| Translation.FirstMiss | src/LanguageContext.js:14 | A key that misses has a first missing segment: the segments before it resolve and the one at it does not. |
| Translation.TAsWrittenMissBeforeIndex | src/LanguageContext.js:13-14 | With key `"0.x"` and an empty table, the as-written `t` returns the key, although the missing segment `"0"` indexes the key string. |
| Translation.TAgrees | src/LanguageContext.js:12-15 | The as-written and intended `t` agree on every key none of whose segments names a truthy property of the key string. |
| Translation.TAsWrittenIndexesFallback | src/LanguageContext.js:13-14 | With key `"x.0"` and an empty table, the as-written `t` returns `"x"` while the intended `t` returns `"x.0"`. |
| RepairForm.InitialPayloadHasNoEndDate | src/EditRepair.js:17-33 | A form submitted before any row has loaded sends exactly the fifteen fields, with status `''` and a `null` end date, because `''` is not a closing status. |
| RepairForm.LoadedStatus | src/EditRepair.js:76 | The loaded status is a non-empty string. A missing or `null` status, or one whose `toString()` is empty, loads as `'0'`; any other status loads as its `toString()`, so the numbers 0 and 4 load as `'0'` and `'4'`. |
| RepairForm.LoadForm | src/EditRepair.js:62-78 | `sanitizedData` has exactly the form's fields. Each one is loaded from `repairData[0]`, or from `undefined` when no row came back, with its category's default. Present dates are formatted. |
| RepairForm.LoadEmpty | src/EditRepair.js:62-78 | Loading no row gives status `'0'`, no end date, today's start date, unchecked flags and empty text. |
| RepairForm.HandleChange | src/EditRepair.js:113-120 | The named field becomes `checked` for a checkbox and `value` otherwise. No other field changes, and no other field is added. |
| RepairForm.HandleDateChange | src/EditRepair.js:122-128 | The end date becomes the picked value, and nothing else changes. |
| RepairForm.Payload | src/EditRepair.js:134-140 | Under status `'0'` or `'4'`, the payload's end date is the form's end date, or today's date when the form's is empty. Under any other status it is `null`. Every other field is copied. |
| RepairForm.StatusChangeClearsEndDate | src/EditRepair.js:113-140 | After the status is changed to a non-closing value, the payload carries no end date. |
| RepairForm.PayloadIdempotent | src/EditRepair.js:134-140 | Building the payload of a payload gives the same payload. |
| PoolSetting.InitialPool | src/variables.js:3 | The starting value is never empty: a non-empty stored entry is kept, and anything else falls back to `'mainPool'`. |
| PoolSetting.Toggled | src/variables.js:12-16 | Toggling is defined exactly on the two pool names. It always changes the value, and the result is again one of the two pool names. |
| PoolSetting.ToggleTwice | src/variables.js:12-16 | Toggling a pool name twice gives it back. |
| PoolSetting.DbPoolSetting.constructor | src/variables.js:3 | Loading the module sets `dbPool` from the stored entry and leaves storage unchanged. |
| PoolSetting.DbPoolSetting.GetDbPool | src/variables.js:5 | Returns the current value and changes nothing. |
| PoolSetting.DbPoolSetting.SetDbPool | src/variables.js:7-10 | The variable and the stored entry both become the new value. |
| PoolSetting.DbPoolSetting.ToggleDbPool | src/variables.js:12-18 | It throws exactly when the value is neither pool name, and then nothing changes. Otherwise the variable switches to the other pool, and the stored entry follows it. |
| PoolSetting.ToggleTwiceRestores | src/variables.js:12-18 | Two toggles from a valid value both succeed. They restore the variable and leave storage equal to it. |
| Auth.GetDatabasePool | server.js:75-83 | Exactly `'mainPool'` and `'demoPool'` resolve, each to its own dataset. Every other value throws. |
| Auth.Insert | server.js:164-167 | The insert appends one row with the next auto-increment id, and preserves increasing ids. |
| Auth.FirstIndex | server.js:100-107 | Finds the first matching row, or None exactly when no row matches. |
| Auth.ValidateUser | server.js:91-119 | Status 400 exactly when a value or the pool is missing. Authenticated exactly when a stored row has this username and access token, and then the display name is that of the first such row. Otherwise 401. |
| Auth.Update | server.js:383-396 | `UPDATE ... WHERE username = ?` changes exactly the rows with that username, and keeps the row count. |
| Auth.CountUsername | server.js:383-388 | The affected-row count is positive exactly when some row has the username. |
| Auth.BearerToken | server.js:211 | `split(' ')[1]` is undefined exactly when the header has no space, and is itself space-free. |
| Auth.BearerTokenOfHeader | server.js:321 | For `"Bearer <token>"`, the extracted token is `<token>`. |
| Auth.AuthServer.constructor | server.js:44-47 | The process starts with the stored tables and with both invite tokens null. |
| Auth.AuthServer.RotateCredentials | server.js:383-396 | The two updates rewrite the password and the token of the username's rows in one dataset only. The id invariant is kept. |
| Auth.AuthServer.GenerateUniqueId | server.js:122-141 | Stores the token as the named dataset's invite only, and returns that dataset's link. An invalid pool throws before anything is stored. No table changes. |
| Auth.AuthServer.Signup | server.js:144-197 | 500 when the pool is invalid or the username or password is absent. 400 when the display name is missing or empty, or the username or password is empty after trimming (the display name is not trimmed). 200 exactly when the dataset is empty or the supplied token equals its set invite. Then exactly one row with the trimmed credentials is appended, in that dataset only. Otherwise 401 with the source's two messages. Invite tokens never change. |
| Auth.AuthServer.GenerateInviteLink | server.js:200-236 | 400 on missing input and 500 on an invalid pool or a header without a space. Otherwise the validation status. An issued link and a new invite for that dataset only come exactly when the caller validates and is the admin, and 403 when the caller validates but is not. Tables never change. |
| Auth.AuthServer.Login | server.js:238-275 | 400 on missing input and 500 on an invalid pool. 200 exactly when a row has the trimmed username and password, and the reply is the first such row's id, display name and access token. Otherwise 401. State is unchanged. |
| Auth.AuthServer.AuthValidate | server.js:278-309 | 400 on missing input and 500 on an invalid pool. 200 with the display name exactly when the trimmed credentials match a row. Otherwise `validateUser`'s status and error. |
| Auth.AuthServer.CheckAdmin | server.js:311-358 | 400 on missing input. No response when the header has no space. 500 on an invalid pool. 200 exactly when the caller validates and is the admin, 403 when the caller validates but is not. |
| Auth.AuthServer.ChangePassword | server.js:360-409 | 400 on missing input, 500 on an invalid pool, the validation error when validation fails. Otherwise 200 with the new token, and the password and token of the username's rows in that dataset are rewritten. It never answers 404. |
| Auth.ValidatedUserIsStored | server.js:377-388 | A validated username always has a row for the password update to affect. |
| Auth.UpdatePreservesIds | server.js:383-396 | Updates that keep ids keep the auto-increment invariant. |
| Auth.RotatedRows | server.js:383-396 | Row by row, the username's rows get the new password and token, and all other rows are untouched. |
| Auth.PasswordChangeRotatesToken | server.js:383-401 | After the change, the old access token is refused with 401 and the new one validates. Logging in with the new password returns the new token. |
| Auth.RotatedTokenValidates | server.js:393-396 | After the change, the new token validates the username. |
| Auth.RotatedPasswordLogsIn | server.js:383-396 | After the change, the new password logs in, and the first matching row carries the new token. |
| Auth.LoginTokenValidates | server.js:254-270 | The access token that login returns validates the same username. |
| Auth.SignupThenLogin | server.js:164-168 | A signed-up user can log in with the trimmed credentials, and their access token validates. |
| Auth.AdminIsEarliestUser | server.js:222-224 | The admin test passes exactly for names equal, up to case, to the first row's username. That row has the lowest id, and an empty dataset has no admin. |
| Auth.InviteLinkQuery | server.js:135-138 | The link splits on `?` into the invite URL and a query. `token=<t>` is its only parameter, plus `demo=true` exactly for the demo dataset. |
| Auth.InviteQueryParams | server.js:135-138 | The query string splits on `&` into its parameters. |
| AuthScenario.InviteTokenIsReusable | server.js:170-190 | Two signups presenting the same invite token both succeed, and the token is still set afterwards. |

Some members have no row because their meaning is stated by another member:
`Strings.Trim` is characterised by `Strings.TrimSpec` and `Strings.TrimUnique`,
`Auth.IsAdmin` and `Strings.ToLower` by `Auth.AdminIsEarliestUser` (with the
`Strings.ToLower` line under "## Left out"), `JsValues.Get` by
`JsValues.StringIndex` and the `Translation` lemmas, `JsValues.OptGet` and
`RepairForm.LoadField` by `RepairForm.LoadForm`, `RepairForm.LoadEmpty` and
`RepairForm.LoadedStatus`, `RepairForm.InitialForm` by
`RepairForm.InitialPayloadHasNoEndDate`, `Auth.InviteLink` by
`Auth.InviteLinkQuery`, `Auth.Rotate` by `Auth.RotatedRows`, and the reducer
step `Translation.Step` by the contract of `Translation.Walk`.

## Left out

- HTTP plumbing is not modelled: Express routing, CORS, JSON parsing, headers other than `authorization`, and the creation of the MySQL pools. A pool that failed to be created is not modelled either.
- Random generation is not modelled. `Math.random` (invite tokens) and `crypto.randomBytes` (access tokens) are method parameters, so uniqueness of generated tokens is not claimed.
- Failures of the database are not modelled: rejected queries inside `try` (500), and the `error.response.status` branch of `validateUser`. Every statement is taken to succeed.
- Request fields that are not strings (numbers, objects, arrays) are not modelled. A field is a string or absent.
- `Strings.ToLower`: lowers ASCII letters only, not every letter Unicode maps.
- `JsValues.Get`: own properties only. Inherited properties (a translation key such as `"constructor"`) and non-integer numbers are not modelled. Strings are sequences of Unicode scalar values, not of UTF-16 code units, so for a string holding a character outside the Basic Multilingual Plane `"length"` and index properties differ from JavaScript's (the as-written `t` reaches these after a miss).
- Each handler runs as one atomic step: the model does not interleave requests at their `await`s. Races are therefore not modelled; for example, two concurrent `/auth/signup` calls on an empty dataset can both see no rows and both insert without an invite token.
- `formatDate`, `new Date()` and `toISOString` are not modelled. The date formatter and the formatted current date are parameters of `RepairForm.LoadForm` and `RepairForm.Payload`.
- `navigateToLogin` after a toggle is not modelled, and neither is the session storage's conversion of values to strings.
- The CRUD endpoints (clients, devices, repairs), the React views and the fetching in `EditRepair.js` are not modelled. SQL collation and any uniqueness constraint on usernames are not modelled.
- `Auth.AuthServer.CheckAdmin`: `Unanswered` stands for the exception that `trim` of an undefined token throws outside the `try`. What the process does then is not modelled.
- `Auth.AuthServer.ChangePassword`: the 404 branch is unreachable in this sequential model. Concurrent requests that delete the row between the two statements are not modelled.
- The rendering of an undefined invite URL inside the link template is not modelled. The invite URL is a string constant of the server.

## Findings

| source | as written | input that shows it | evidently intended | confidence | as-written member | corrected member |
|---|---|---|---|---|---|---|
| src/LanguageContext.js:14 | After a missing segment, the reducer holds the key string, and later segments index into that string. | Key `"x.0"` with no `x` in the table: `t` returns `"x"`. | A missing segment returns the whole key. | not executed | Translation.TAsWrittenIndexesFallback | Translation.TMissing |

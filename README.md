# Secure identity portal: a Dafny model

This project models the account, session and audit logic of a small Flask identity
portal. Users register, sign in with an email and password, change or reset the
password, view a dashboard of their recent activity, sign out and delete their
account. Every step writes to an `audit_logs` table in SQLite. The model has three
layers:

- `text.dfy` (module `Text`) holds the Python string builtins the portal relies on,
  on ASCII: `str.strip`, `str.lower`, `str.isspace`, `isalpha` and `isdigit`. It also
  holds the email normalisation `(s or "").strip().lower()` and proves its properties:
  idempotence, no whitespace at either end, and collisions such as `"A@B.com"` and
  `" a@b.com"`.
- `security.dfy` (module `Security`) models the validators of `security.py`:
  - `is_valid_email`, a match of `^[^@\s]+@[^@\s]+\.[^@\s]+$` after normalisation,
    written as an explicit split of the string;
  - `is_strong_password`.

  Both are specified exactly, and the concrete accept and reject cases are proved. The
  werkzeug hash and check functions stay uninterpreted: a `Hasher` of (salt, password)
  and a `Checker` of (hash, password).
- `database.dfy` (module `Database`) models the `users` and `audit_logs` tables from
  `init_db`:
  - the constraints of the schema as predicates;
  - SQL's `ORDER BY created_at DESC LIMIT 5` dashboard query as the function `Recent`,
    which is proved to return at most five rows, all for the asked email, newest first,
    skipping no newer row.
- `app.dfy` (module `App`) models the handlers of `app.py` as methods of the class
  `Portal`:
  - The fields are the `users` table (a map keyed by its UNIQUE email), the audit rows,
    the session email, the two AUTOINCREMENT counters and a logical clock.
  - Each handler returns a `Status`, a `Page` or a `ForgotOutcome` instead of flashing
    and redirecting.
  - Each handler states its whole new state.
  - Each handler keeps `Valid()`: both tables well formed, and a session always naming
    an existing account.
  - Every handler that writes `users` also keeps `EmailsNormalized()`: each stored email
    is its own normal form, so no two accounts differ only in case or spaces.
- `scenarios.dfy` (module `Scenarios`) holds request sequences proved from the handler
  contracts alone, such as register then log in, reset then log in, a double logout, and
  delete then log in.

`request.remote_addr` is an opaque optional string parameter. `datetime('now')` is the
`clock` field, which `AdvanceClock` moves forward. The random salt of
`generate_password_hash` is a parameter of every operation that hashes.

Where the obvious reading of the portal and its code differ, the model follows the code:

- `register` validates nothing (`app.py:77` is a placeholder comment). Weak passwords,
  malformed emails and even a missing email are stored; `Scenarios.EmptyEmailAccount`
  shows the last one.
- `reset_password` takes the submitted email as it is, without trimming or lowering it.
  It logs `PASSWORD_RESET_SUCCESS` even when no row matched (`Scenarios.ResetWrongCase`).
- `forgot_password` sends a known email straight to the reset page rather than mailing
  a link.
- The handlers test `if not current_user_email()`, so a session holding the empty email
  counts as signed out. `profile` tests `'user_email' in session` instead and shows that
  account's page.

## Model

| member | source | states |
|---|---|---|
| Text.Strip | app.py:71-73 | `str.strip()`: leading whitespace dropped, then trailing whitespace; its meaning is proved in `Text.StripSpec` |
| Text.Lower | app.py:72 | `str.lower()` on ASCII: each upper-case letter replaced by its lower-case one, every other character kept; `Text.LowerIdempotent` and `Text.LowerKeepsEdges` are about it |
| Text.NormalizeEmail | app.py:72 | `(email or "").strip().lower()`, the normalisation of register, login (app.py:113), forgot_password (app.py:219) and is_valid_email (security.py:7); `Text.NormalizeIdempotent` and `Text.NormalizedEdges` are about it |
| Text.TrimLeftSpec | app.py:72 | the left half of `strip()` removes exactly the leading whitespace and nothing else |
| Text.TrimRightSpec | app.py:72 | the right half of `strip()` removes exactly the trailing whitespace and nothing else |
| Text.StripSpec | app.py:71-73 | `strip()` leaves the infix of the input between its leading and trailing whitespace, and the result neither starts nor ends with whitespace |
| Text.StripUntrimmed | app.py:71-73 | a string with no whitespace at either end is unchanged by `strip()` |
| Text.LowerIdempotent | app.py:72 | lowering twice equals lowering once |
| Text.NormalizedEdges | security.py:7 | a normalised email has no whitespace at either end |
| Text.NormalizeIdempotent | security.py:7 | normalising an already normalised email changes nothing |
| Text.NormalizeFixed | app.py:72 | a lower-case email with no surrounding whitespace is its own normal form |
| Text.NormalizeCollides | app.py:72 | `"A@B.com"` and `" a@b.com"` both normalise to `"a@b.com"` |
| Security.EmailRegexMatch | security.py:4 | `EMAIL_RE.match`: a whitespace- and `@`-free run, `@`, a run, `.`, a run, where `$` may also stand just before a final newline; `Security.EmailPatternShape` and `Security.RegexMatchUntrimmed` characterise it |
| Security.IsValidEmail | security.py:6-7 | `is_valid_email`: the regex applied to the normalised input; `Security.ValidEmailShape` is its exact characterisation |
| Security.EmailPatternShape | security.py:4 | the regex matches exactly the strings with no whitespace, exactly one `@` at a position after the first, and a `.` in the domain with at least one character on each side |
| Security.RegexMatchUntrimmed | security.py:4 | on a string that does not end in whitespace, the match at a newline before `$` cannot happen, so the regex is the plain pattern |
| Security.ValidEmailIsPattern | security.py:6-7 | `is_valid_email` holds iff the normalised input matches the pattern |
| Security.ValidEmailShape | security.py:4-7 | `is_valid_email` holds iff the normalised input has no whitespace, exactly one `@` with a non-empty local part, and a dot inside the domain with characters on both sides |
| Security.ValidEmailNormalizes | security.py:7 | validating the normalised input gives the same answer as validating the raw input |
| Security.EmailRejectsEmpty | security.py:7 | a missing email and an empty email are both rejected |
| Security.EmailAccepts | security.py:4-7 | `"a@b.co"` is accepted |
| Security.EmailRejectsMissingDot | security.py:4-7 | `"a@b"` is rejected |
| Security.EmailRejectsSpace | security.py:4-7 | `"a b@c.com"` is rejected |
| Security.Any | security.py:13-14 | `any(p(c) for c in s)`, scanning left to right; `Security.AnyExists` proves it means "some character passes" |
| Security.IsStrongPassword | security.py:9-15 | `is_strong_password`: a missing or empty password or one under 8 characters is weak, otherwise it needs a letter and a digit; `Security.StrongPasswordIff` is its exact characterisation |
| Security.AnyExists | security.py:13-14 | the left-to-right `any(...)` scan holds iff some character satisfies the test |
| Security.StrongPasswordIff | security.py:9-15 | a password is strong iff it has at least 8 characters, a letter and a digit; a missing password is never strong |
| Security.StrongPasswordExtends | security.py:9-15 | appending characters to a strong password keeps it strong |
| Security.PasswordAccepts | security.py:10-15 | `"abcd1234"` is strong |
| Security.PasswordRejectsNoDigit | security.py:10-15 | `"abcdefgh"` is weak |
| Security.PasswordRejectsNoLetter | security.py:10-15 | `"12345678"` is weak |
| Security.PasswordRejectsShort | security.py:10-15 | `""` and `"ab1"` are weak |
| Security.HashPassword | security.py:17-18 | `hash_password`: the uninterpreted werkzeug hash applied to the salt it draws and the password |
| Security.VerifyPassword | security.py:20-21 | `verify_password(pw, h)`: the uninterpreted werkzeug check applied as `check(h, pw)`; `Security.VerifyOwnHash` is about it |
| Security.VerifyOwnHash | security.py:17-21 | when the checker accepts every hash for its own password, the wrapper `verify_password(pw, h)` accepts the `hash_password(pw)` result, with the arguments of `check_password_hash` swapped |
| Database.UsersWellFormed | database.py:15-24 | the users table: AUTOINCREMENT ids start at 1, every id was handed out and belongs to one email, created_at and last_login are in the past with last_login not before created_at |
| Database.Chronological | database.py:28-32 | audit rows in insertion order: ids strictly increase and created_at never falls |
| Database.AuditWellFormed | database.py:27-33 | the audit_logs table: ids start at 1 and were handed out, timestamps are in the past, rows are chronological |
| Database.AppendWellFormed | database.py:27-33 | appending a row with the next AUTOINCREMENT id and the current time keeps ids strictly increasing, timestamps non-decreasing and all in the past |
| Database.InsertWellFormed | database.py:15-24 | inserting a row under a new email with the next id and the current time keeps ids unique and handed out, and timestamps in the past |
| Database.Recent | app.py:175 | `SELECT ... WHERE email = ? ORDER BY created_at DESC LIMIT 5`, taken from the newest row backwards; `Database.RecentRows`, `Database.RecentNewestFirst` and `Database.RecentMostRecent` pin down what it returns |
| Database.RecentRows | app.py:175 | the dashboard query returns at most `limit` rows, all rows of the table, all carrying the asked email |
| Database.PrefixChronological | database.py:28-32 | every prefix of an insertion-ordered audit table is insertion-ordered |
| Database.OlderThanLast | database.py:28-32 | every earlier row of an insertion-ordered table has a smaller id and an earlier or equal time than the last row |
| Database.RecentNewestFirst | app.py:175 | the rows come newest first: ids strictly fall and `created_at` never rises |
| Database.RecentMostRecent | app.py:175 | a matching row is left out only when `limit` rows are already listed, all of them newer than it |
| App.Portal.Valid | database.py:15-33 | the invariant every handler keeps: both tables well formed, and a session email always names a stored account |
| App.Portal.EmailsNormalized | app.py:72-88 | every stored email is its own normal form, since register, the only INSERT, stores the normalised email; the constructor establishes it and every handler that writes users keeps it |
| App.NoTwins | database.py:18 | under `EmailsNormalized`, two stored emails that normalise alike are the same account |
| App.Portal.SignedIn | app.py:25-27 | the truthiness test `if not current_user_email()` of login_required and the handlers: a missing or empty session email is nobody |
| App.Portal.constructor | database.py:11-36 | the portal starts with both tables empty, ids starting at 1, no session, and the invariant holding |
| App.Portal.InitDb | database.py:11-36 | running `init_db` on initialised tables changes nothing |
| App.Portal.AdvanceClock | database.py:22 | time moves forward and the tables stay well formed |
| App.Portal.CurrentUserEmail | app.py:22-23 | the session email, which always names a stored account |
| App.Portal.LoginRequired | app.py:25-27 | the request passes iff the session holds a non-empty email, which then names a stored account |
| App.Portal.LogEvent | database.py:38-46 | exactly one row is appended, with the next id, the given event, email and ip and the current time; earlier rows are unchanged |
| App.Portal.InsertUser | database.py:15-24 | the insert succeeds iff the email is not already present; it adds exactly that row with the next id, the current `created_at` and a null `last_login`; otherwise nothing changes |
| App.Portal.Register | app.py:68-108 | the email is stripped and lowered, and the name and phone are stripped. A taken email changes neither table. Otherwise exactly one row is added, with consent 1 iff the form says `"on"`, a hash of the password and a null `last_login`, and one `REGISTER_SUCCESS` row is logged. The session is untouched, nothing is validated, and stored emails stay in normal form |
| App.Portal.Login | app.py:111-139 | success iff the normalised email is stored and its hash verifies the password. On success only that row's `last_login` changes, the session becomes that email and one `LOGIN_SUCCESS` is logged. An unknown email and a wrong password both log one `LOGIN_FAILED` with the normalised email and leave users and session unchanged |
| App.Portal.ResetPassword | app.py:40-64 | a weak password changes nothing. A strong one rehashes only the row whose email equals the raw submitted email, if any, and always logs one `PASSWORD_RESET_SUCCESS` under the raw email. No session is needed and the session is untouched |
| App.Portal.ChangePassword | app.py:142-162 | without a signed-in user nothing changes. A weak password changes nothing. A strong one rehashes only the signed-in user's row. The audit table is never written |
| App.Portal.Dashboard | app.py:142-184 | with nobody signed in it redirects to login. Otherwise it shows the user's name, last login and creation time. It also shows at most five audit rows, all carrying the session email, newest first, as the query selects them |
| App.Portal.Logout | app.py:186-191 | the session always ends empty. `LOGOUT` is logged with the session email iff somebody was signed in. The users table is untouched |
| App.Portal.Profile | app.py:197-214 | reads only. With no session entry it redirects to login. Otherwise it shows the stored name, email and creation time of the session account |
| App.Portal.ForgotPassword | app.py:216-239 | reads only. It goes to the reset page, with the normalised email, iff that email is stored |
| App.Portal.DeleteAccount | app.py:241-268 | with nobody signed in nothing changes. Otherwise one `ACCOUNT_DELETED_BY_USER` row is appended, exactly the session user's row is removed, all other users and all earlier audit rows stay, and the session is cleared |
| Scenarios.RegisterThenLogin | app.py:68-139 | a freshly registered account logs in at once with its password, whatever case and surrounding spaces the typed email has |
| Scenarios.RegisterDuplicateCase | app.py:72-96 | registering `"A@B.com"` and then `" a@b.com"` creates one account; the second attempt is refused and logs nothing |
| Scenarios.ResetThenLogin | app.py:40-139 | after a reset to a strong password, that password logs in |
| Scenarios.ResetWrongCase | app.py:42-55 | `forgot_password` finds `"A@B.com"` as `"a@b.com"`, but a reset submitted as `"A@B.com"` changes no row and is still logged as a success |
| Scenarios.NoCaseTwin | app.py:72 | once stored emails are in normal form and `"a@b.com"` is stored, no separate `"A@B.com"` account exists |
| Scenarios.LogoutTwice | app.py:186-191 | two logouts in a row end in the same state as one |
| Scenarios.DeleteThenLogin | app.py:241-268 | after deleting the account, its email no longer logs in and the dashboard redirects to login; all earlier audit rows remain |
| Scenarios.EmptyEmailAccount | app.py:71-90 | a registration without an email is stored under `""`. It logs in, and then the dashboard treats it as signed out while the profile page shows it |

## Left out

- Flask plumbing is not modelled: routing, the GET branches that only render a template, `flash`, `redirect`, `render_template`, the 403 error handler and the `home` and `privacy` routes. The outcomes are result values instead.
- The cookie and secret-key settings and `app.run` are configuration with no logic.
- `get_conn`, the SQL connections and commits, and the SQL text itself are not modelled. The tables are a map and a sequence, and each statement is the update it performs.
- werkzeug's `generate_password_hash` and `check_password_hash` are uninterpreted functions. The only assumed property is that a hash verifies its own password (`HashesVerify`), and only `Security.VerifyOwnHash` and the scenarios that need it (`Scenarios.RegisterThenLogin`, `Scenarios.ResetThenLogin`, `Scenarios.EmptyEmailAccount`) assume it.
- `datetime('now')` is a logical clock with no calendar or text format.
- `Database.Recent`: rows with equal `created_at` come out in reverse insertion order. SQLite may order such ties differently; only "not increasing in time" is promised either way.
- Exception paths are not modelled: the generic `except Exception` branches of `register` and `delete_account`, which print and flash, and database failures in general. A failed delete that keeps the session is therefore not modelled.
- Character classes and `lower()` are ASCII only. The Unicode whitespace, letters, digits and case mappings of Python's `\s`, `isspace`, `isalpha`, `isdigit` and `lower` are not modelled.
- There is one client session and no concurrency between requests. Under the invariant that the session names a stored account, two branches cannot occur: the 404 of `profile` and the dashboard's read of a missing user row. Neither is modelled as a branch.
- App.Portal.Dashboard: the logs are the full audit rows rather than the selected `event, ip, created_at` columns.

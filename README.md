# shortlink: a Dafny model of the link store and the account store

shortlink is a small URL-shortening web service written with FastAPI. Its
state lives in two independent stores, and this project models both as
sequential state machines and proves their properties.

- The **link store** of `main.py` is the module-level dict `url_storage`,
  mapping a short id to a URL. `POST /shorten` stores a URL under a random
  short id, `GET /{short_id}` redirects to it, and `GET /all` exposes the
  whole dict. It is modelled as the class `App.LinkStore` over a
  `map<string, string>`. The random short id is an argument.
- The **account and session store** is the SQLite schema of `database.py`
  with the `/auth` endpoints of `auth.py` and the cookie lookup of
  `dependencies.py`. The three tables (`users`, `sessions`, `links`) and
  their AUTOINCREMENT counters form the class `Database.Db`. The
  constraints declared by the CREATE TABLE statements form `Db.Valid()`.
  Each INSERT and DELETE statement is a method of `Db`; each SELECT is a
  function over a snapshot of the tables. Register, login and logout are
  methods that change a `Db`. Cookie resolution is a set of pure functions
  over a snapshot of the tables.

Nothing in `main.py` mounts the auth router or touches the database, so the
two halves share no state.

Modelling conventions:
- Time is a whole number of seconds passed in as `now`.
- The password hasher (`hash`), the password checker (`verify`) and the
  drawn session token (`token`) are parameters.
- The auth endpoints' HTTP exceptions are `Err(HttpError(status, detail))`.
  The 404 of `redirect` is `RedirectReply.NotFound`, which also carries the
  `X-Error` header.
- A table is a sequence of rows in rowid order. `fetchone()` on a query
  without ORDER BY yields the first matching row in that order
  (`Database.FirstMatch`).
- Sessions carry no UNIQUE token. If several live rows share a token, the
  first one decides whose user is returned.
- The FOREIGN KEY clauses are not in `Db.Valid()`, because SQLite checks
  them only when the `foreign_keys` pragma is on, and the program never
  sets it. The auth endpoints keep a separate invariant instead
  (`Auth.Consistent`): every session refers to an existing user.

What the code does, as modelled:
- `main.py` stores the raw string in the dict. It does not normalise the URL, and it overwrites an existing entry when a short id is drawn twice.
- The `links` table of `database.py` declares a unique `short_id`, a `click_count` and an owner `user_id`, but no code shown writes to it. `Database.Db.InsertLink` models only what the table does on an insert.
- `/auth/me` answers `{"user": null}` when no one is logged in. It does not answer 401.

## Model

| member | source | states |
|---|---|---|
| Models.NewUser | models.py:4-8 | A `User` built from id and username alone has no email and is active; the record has no password-hash field |
| Models.NewLink | models.py:19-25 | A `Link` built without `user_id` is anonymous (`userId == None`) |
| Database.FirstMatch | dependencies.py:13-16 | `fetchone()`: the index of the first row satisfying the WHERE clause, with no earlier row satisfying it; None exactly when no row does |
| Database.WithoutToken | auth.py:88-91 | `DELETE … WHERE session_token = ?` keeps exactly the rows whose token differs, and no others |
| Database.AppendUserKeepsTable | database.py:19-26 | A row that passes the username and email UNIQUE checks and takes the next AUTOINCREMENT id keeps ids increasing, usernames unique and non-NULL emails unique |
| Database.WithoutTokenKeepsTable | database.py:30-37 | Deleting sessions keeps the surviving ids strictly increasing and at most the counter |
| Database.WithoutTokenIdempotent | auth.py:88-91 | Deleting the rows of a token a second time removes nothing more |
| Database.Db.InitDb | database.py:15-52 | `init_db` on a new file: three empty tables that satisfy every declared constraint |
| Database.Db.InsertUser | database.py:19-26 | The insert fails exactly when the username or a non-NULL email is taken, and then changes nothing; otherwise it appends one row with the next id and `is_active` true |
| Database.Db.InsertSession | database.py:30-37 | Appends one session with the next id; that id was never handed out before, even to a deleted row |
| Database.Db.DeleteSessions | auth.py:88-91 | The sessions table becomes `WithoutToken` of the old one and stays well formed |
| Database.Db.InsertLink | database.py:41-51 | The insert fails exactly when the short id is taken; otherwise it appends one row with `click_count` 0 and the given optional owner |
| Database.UsersTable | database.py:19-26 | In a well-formed `users` table no two rows share a username, and no two rows share a non-NULL email; ids are positive, increasing and at most the AUTOINCREMENT counter |
| Database.SessionsTable | database.py:30-37 | In a well-formed `sessions` table no two rows share an id; ids are positive, increasing and at most the counter; tokens may repeat |
| Database.LinksTable | database.py:41-51 | In a well-formed `links` table no two rows share a short id; ids are positive, increasing and at most the counter; every row keeps `click_count` 0 |
| Database.Db.Valid | database.py:15-52 | All three tables satisfy their declared constraints; the next session id has never been handed out, and the next user and link ids exceed every stored one |
| Dependencies.PublicUser | dependencies.py:21-26 | The selected user carries exactly the row's id, username, email and is_active |
| Dependencies.Live | dependencies.py:13-16 | A session matches only if its token equals the cookie and `expires_at > now`; an expired row never matches |
| Auth.AppendUserKeepsOwned | database.py:36 | Adding a user row leaves every session referring to an existing user |
| App.Missing | main.py:46 | `not original_url` holds exactly for an absent or empty URL |
| Dependencies.GetCurrentUser | dependencies.py:7-26 | No or empty cookie gives None; a returned user is the public view of the user row of a live session carrying the token; with no live session for the token the result is None |
| Dependencies.GetRequiredUser | dependencies.py:28-31 | None becomes 401 "Not authenticated"; a user is returned unchanged |
| Dependencies.PublicUserHidesHash | dependencies.py:21-26 | The public user depends only on id, username, email and is_active, never on the password hash |
| Dependencies.CurrentUserIffLiveSession | dependencies.py:12-26 | When every session has its user, a non-empty token authenticates exactly when some session with that token has `expires_at > now` |
| Auth.UserNamed | auth.py:50-53 | The looked-up row is in the table and carries the username; None exactly when no user has that name |
| Auth.RegisterUser | auth.py:27-45 | Success exactly when neither the username nor a non-NULL email is taken: one row with the given name, email and the password's hash is appended and the reply is the new id and username; otherwise 400 and no row |
| Auth.LoginUser | auth.py:47-81 | Unknown username or non-verifying password gives the same 401 and no session; success appends exactly one session (user id, token, now + 7 days) and keeps all earlier ones; the cookie's max-age is 604800, so the cookie expires exactly when the new session row does |
| Auth.LogoutUser | auth.py:83-95 | With a non-empty cookie exactly the sessions with that token are deleted; without one nothing changes; the message is always "Logged out successfully" |
| Auth.GetCurrentUserInfo | auth.py:97-99 | `/me` wraps the optional current user and never fails; no cookie gives `{"user": None}` |
| Auth.RegisteredUserDefaults | database.py:22-24 | A row inserted without an email has the public view of a `User` with its declared defaults |
| Auth.CookieMatchesSession | auth.py:63-76 | The cookie's max-age equals the 7-day session lifetime, 604800 seconds |
| Auth.FreshLoginSession | auth.py:61-69 | A new session whose token no other row carries authenticates its user exactly while `at < now + 7 days`, and afterwards never, though the row stays |
| Auth.LogoutRevokes | auth.py:85-92 | After the delete, the token resolves to no user at any time |
| Auth.LogoutIdempotent | auth.py:85-92 | A second logout with the same cookie leaves the sessions as the first left them |
| App.Stored | main.py:44-50 | A missing or empty URL leaves the dict unchanged; otherwise the URL is stored verbatim under the short id, overwriting any old entry, and no other key changes |
| App.Resolve | main.py:57-70 | An absent id gives 404 "Short link not found" with the `X-Error` header; a present id gives the stored URL with status 307 |
| App.ReplayKeeps | main.py:49-50 | Shorten calls that do not store under an id leave that id's entry, or its absence, as it was |
| App.ShortenThenRedirect | main.py:49-70 | After shortening `u` under an id, redirecting that id yields `u` with 307 unless a later call stored another URL under the same id |
| App.LinkStore.constructor | main.py:22 | `url_storage` starts empty |
| App.LinkStore.ShortenUrl | main.py:41-55 | The dict becomes `Stored` of the old one; the reply is the error for a missing URL, else the fixed prefix plus the short id and the input echoed |
| App.LinkStore.Redirect | main.py:57-70 | The reply is `Resolve` of the current dict and nothing changes |
| App.LinkStore.ShowAll | main.py:33-38 | Returns the entire dict, unfiltered by any user |

## Left out

- I/O and framework plumbing: the SQL text, connection open and close (database.py:6-13), FastAPI routing, templates, static files and the async handlers. None of them affects the stores' state.
- The HTML pages (`/` and `/about`) and how `all_links.html` renders the dict.
- bcrypt through passlib (auth.py:15-22) and `secrets.token_urlsafe` (auth.py:24-25, main.py:49) are foreign calls. They become the parameters `hash`, `verify`, `token` and `shortId`. The model neither proves that `verify(p, hash(p))` holds nor that tokens are unique.
- Timestamps are integers on one clock. The source writes `datetime.now()` (local time) and compares it, as text, with SQLite's UTC `datetime('now')`. The resulting offset of the expiry by the local UTC offset is not modelled. `created_at` is the `now` argument.
- Cookie flags other than `max_age` (`httponly`, `secure`, `samesite`) and the `delete_cookie` header of logout.
- The `users.created_at` and `links.created_at` defaults are taken from `now`. `CURRENT_TIMESTAMP` text formatting is not modelled.
- Auth.RegisterUser: the except clause names `sqlite3`, which auth.py never imports, so a conflicting insert raises a NameError (a 500) instead of the 400 it intends. The model gives the intended 400.
- Import-time errors are not modelled. The self-import at dependencies.py:5 fails when the module loads. schemas.py:5 uses `Optional` without importing it, so importing schemas.py raises a NameError, and so does importing auth.py, which imports it. The functions are modelled as written.
- Email validation by pydantic `EmailStr` (schemas.py) is not modelled. The model's `email` is the value after that validation, including any normalisation it applies. Which emails collide under `email UNIQUE` is decided on that value.
- App.LinkStore.ShortenUrl: `original_url` is taken as an optional string. Other JSON values that Python treats as false (`0`, `false`, `[]`) and non-string truthy values are not modelled. The model assumes the request body is a JSON object. A body that is not valid JSON, or JSON that is not an object, raises at main.py:43-44 and leaves `url_storage` unchanged.
- App.LinkStore.Redirect: the model stops at the URL passed to `RedirectResponse`. How the framework encodes that URL into the `Location` header is not modelled.
- Database.Db.InsertLink: no code shown calls it. It records only what the `links` table does on insert.
- `init_db` on an existing database file keeps its tables (`IF NOT EXISTS`). The model covers only the first run, on a new file.

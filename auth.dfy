/**
 * auth.py: the `/auth` endpoints over the users and sessions tables.
 *
 * The password hasher, the password checker and the token generator are
 * foreign calls; they enter as parameters (`hash`, `verify`, `token`), and the
 * clock enters as `now`, in seconds.
 */
module Auth {
  import opened Common
  import opened Models
  import opened Database
  import opened Dependencies

  /** `timedelta(days=7)`, in seconds. */
  const SessionLifetime: int := 7 * 24 * 60 * 60

  /** The cookie's `max_age=60*60*24*7`. */
  const CookieMaxAge: int := 60 * 60 * 24 * 7

  /** Body of a successful `/auth/register`. */
  datatype Registered = Registered(id: int, username: string)

  /** Body of a successful `/auth/login`, with the cookie it sets. */
  datatype LoggedIn = LoggedIn(username: string, cookieToken: string, cookieMaxAge: int)

  /** Body of `/auth/me`: `{"user": …}`. */
  datatype Me = Me(user: Option<User>)

  /** The database as the auth endpoints leave it: the table constraints, and every session has its user. */
  ghost predicate Consistent(db: Db)
    reads db
  {
    db.Valid() && SessionsOwned(db.users, db.sessions)
  }

  /** `SELECT * FROM users WHERE username = ?` followed by `fetchone()`. */
  function UserNamed(users: seq<UserRow>, username: string): (r: Option<UserRow>)
    ensures r.Some? ==> r.value in users && r.value.username == username
    ensures r.None? <==> !UsernameTaken(users, username)
  {
    match FirstMatch(users, (u: UserRow) => u.username == username)
    case None => None
    case Some(k) => Some(users[k])
  }

  /** A new user row leaves every existing session with its user. */
  lemma AppendUserKeepsOwned(users: seq<UserRow>, sessions: seq<Session>, row: UserRow)
    requires SessionsOwned(users, sessions)
    ensures SessionsOwned(users + [row], sessions)
  {
    forall i | 0 <= i < |sessions|
      ensures UserExists(users + [row], sessions[i].userId)
    {
      assert UserExists(users, sessions[i].userId);
      var k :| 0 <= k < |users| && users[k].id == sessions[i].userId;
      assert (users + [row])[k] == users[k];
    }
  }

  /**
   * `register_user`: one new row with the given username, email and the
   * password's hash, or a 400 when the username or a non-NULL email is taken.
   */
  method RegisterUser(db: Db, username: string, email: Option<string>, password: string,
                      hash: string -> string, now: int)
    returns (r: Result<Registered, HttpError>)
    requires Consistent(db)
    modifies db`users, db`lastUserId
    ensures Consistent(db)
    ensures r.Ok? <==> !UsernameTaken(old(db.users), username) && !EmailTaken(old(db.users), email)
    ensures r.Ok? ==> r.value == Registered(old(db.lastUserId) + 1, username)
    ensures r.Ok? ==> db.users == old(db.users) + [UserRow(r.value.id, username, email, hash(password), true, now)]
    ensures r.Err? ==> r.error == HttpError(400, "Username or email already exists")
    ensures r.Err? ==> db.users == old(db.users) && db.lastUserId == old(db.lastUserId)
  {
    var hashedPassword := hash(password);
    AppendUserKeepsOwned(db.users, db.sessions, UserRow(db.lastUserId + 1, username, email, hashedPassword, true, now));
    var id := db.InsertUser(username, email, hashedPassword, now);
    match id
    case None =>
      r := Err(HttpError(400, "Username or email already exists"));
    case Some(userId) =>
      r := Ok(Registered(userId, username));
  }

  /**
   * `login_user`: an unknown username and a wrong password get the same 401
   * and add nothing; otherwise one session (user, fresh token, now + 7 days)
   * is appended and every earlier session is kept as it was.
   */
  method LoginUser(db: Db, username: string, password: string,
                   verify: (string, string) -> bool, token: string, now: int)
    returns (r: Result<LoggedIn, HttpError>)
    requires Consistent(db)
    modifies db`sessions, db`lastSessionId, db`issuedSessionIds
    ensures Consistent(db)
    ensures r.Ok? <==> UserNamed(db.users, username).Some?
                       && verify(password, UserNamed(db.users, username).value.hashedPassword)
    ensures r.Err? ==> r.error == HttpError(401, "Incorrect username or password")
    ensures r.Err? ==> db.sessions == old(db.sessions) && db.lastSessionId == old(db.lastSessionId)
    ensures r.Ok? ==>
      var user := UserNamed(db.users, username).value;
      && r.value == LoggedIn(user.username, token, CookieMaxAge)
      && db.sessions == old(db.sessions) + [Session(old(db.lastSessionId) + 1, user.id, token, now + SessionLifetime)]
      && old(db.lastSessionId) + 1 !in old(db.issuedSessionIds)
    ensures r.Ok? ==> db.sessions[|db.sessions| - 1].expiresAt == now + r.value.cookieMaxAge
  {
    var user := UserNamed(db.users, username);
    if user.None? || !verify(password, user.value.hashedPassword) {
      return Err(HttpError(401, "Incorrect username or password"));
    }
    var row := user.value;
    var expiresAt := now + SessionLifetime;
    var _ := db.InsertSession(row.id, token, expiresAt);
    forall i | 0 <= i < |db.sessions|
      ensures UserExists(db.users, db.sessions[i].userId)
    {
      if i == |db.sessions| - 1 {
        var k :| 0 <= k < |db.users| && db.users[k] == row;
      } else {
        assert db.sessions[i] == old(db.sessions)[i];
        assert UserExists(db.users, old(db.sessions)[i].userId);
      }
    }
    r := Ok(LoggedIn(row.username, token, CookieMaxAge));
  }

  /**
   * `logout_user`: with a non-empty cookie every session row carrying that
   * token is deleted and nothing else; without one nothing changes. The reply
   * is the same either way.
   */
  method LogoutUser(db: Db, cookie: Option<string>) returns (message: string)
    requires Consistent(db)
    modifies db`sessions
    ensures Consistent(db)
    ensures message == "Logged out successfully"
    ensures db.sessions == if cookie.Some? && cookie.value != "" then WithoutToken(old(db.sessions), cookie.value)
                           else old(db.sessions)
  {
    if cookie.Some? && cookie.value != "" {
      ghost var before := db.sessions;
      db.DeleteSessions(cookie.value);
      forall i | 0 <= i < |db.sessions|
        ensures UserExists(db.users, db.sessions[i].userId)
      {
        assert db.sessions[i] in before;
        var j :| 0 <= j < |before| && before[j] == db.sessions[i];
        assert UserExists(db.users, before[j].userId);
      }
    }
    message := "Logged out successfully";
  }

  /** The public view of a row registered without an email is a `User` with the declared defaults. */
  lemma RegisteredUserDefaults(id: int, username: string, hashedPassword: string, now: int)
    ensures PublicUser(UserRow(id, username, None, hashedPassword, true, now)) == NewUser(id, username)
  {
  }

  /** `get_current_user_info`: the optional user, never a 401. */
  function GetCurrentUserInfo(users: seq<UserRow>, sessions: seq<Session>, cookie: Option<string>, now: int): (r: Me)
    ensures cookie.None? ==> r == Me(None)
    ensures r.user.Some? ==> GetRequiredUser(r.user) == Ok(r.user.value)
    ensures r.user == GetCurrentUser(users, sessions, cookie, now)
  {
    Me(GetCurrentUser(users, sessions, cookie, now))
  }

  /** The cookie's max-age and the session lifetime are the same number of seconds. */
  lemma CookieMatchesSession()
    ensures CookieMaxAge == SessionLifetime == 604800
  {
  }

  /**
   * A login whose token no stored session carries authenticates its user
   * until, and only until, the seven days have passed.
   */
  lemma FreshLoginSession(users: seq<UserRow>, sessions: seq<Session>, k: nat,
                             id: int, token: string, now: int, at: int)
    requires k < |users|
    requires forall j :: 0 <= j < k ==> users[j].id != users[k].id
    requires token != ""
    requires forall i :: 0 <= i < |sessions| ==> sessions[i].sessionToken != token
    ensures var r := GetCurrentUser(users, sessions + [Session(id, users[k].id, token, now + SessionLifetime)], Some(token), at);
            && (r.Some? <==> at < now + SessionLifetime)
            && (r.Some? ==> r.value == PublicUser(users[k]))
  {
    var s := sessions + [Session(id, users[k].id, token, now + SessionLifetime)];
    var live := (x: Session) => Live(x, token, at);
    forall i | 0 <= i < |sessions| ensures !live(s[i]) {
      assert s[i] == sessions[i];
    }
    if at < now + SessionLifetime {
      assert live(s[|sessions|]);
      var found := FirstMatch(s, live);
      assert found == Some(|sessions|);
      var owner := users[k].id;
      var byId := (u: UserRow) => u.id == owner;
      assert byId(users[k]);
      assert FirstMatch(users, byId) == Some(k);
    } else {
      assert !live(s[|sessions|]);
    }
  }

  /** After logout with a token, that token authenticates no one, at any time. */
  lemma LogoutRevokes(users: seq<UserRow>, sessions: seq<Session>, token: string, now: int)
    ensures GetCurrentUser(users, WithoutToken(sessions, token), Some(token), now) == None
  {
    var left := WithoutToken(sessions, token);
    forall i | 0 <= i < |left| ensures !Live(left[i], token, now) {
      assert left[i] in left;
    }
  }

  /** A second logout with the same cookie leaves the sessions as the first left them. */
  lemma LogoutIdempotent(sessions: seq<Session>, cookie: Option<string>)
    ensures var once := if cookie.Some? && cookie.value != "" then WithoutToken(sessions, cookie.value) else sessions;
            var twice := if cookie.Some? && cookie.value != "" then WithoutToken(once, cookie.value) else once;
            twice == once
  {
    if cookie.Some? && cookie.value != "" {
      WithoutTokenIdempotent(sessions, cookie.value);
    }
  }
}

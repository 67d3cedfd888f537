/**
 * dependencies.py: resolving the `session_token` cookie to the current user.
 * Both functions only read the tables, so they take a snapshot of them.
 */
module Dependencies {
  import opened Common
  import opened Models
  import opened Database

  /** `SELECT id, username, email, is_active FROM users`: the row without its hash. */
  function PublicUser(row: UserRow): (u: User)
    ensures u.id == row.id && u.username == row.username
    ensures u.email == row.email && u.isActive == row.isActive
  {
    User(row.id, row.username, row.email, row.isActive)
  }

  /** The session WHERE clause: the token matches and the expiry is strictly later than now. */
  predicate Live(s: Session, token: string, now: int)
    ensures s.expiresAt <= now ==> !Live(s, token, now)
    ensures s.sessionToken != token ==> !Live(s, token, now)
    ensures s.sessionToken == token && now < s.expiresAt ==> Live(s, token, now)
  {
    s.sessionToken == token && s.expiresAt > now
  }

  /** Some user row has this id. */
  predicate UserExists(users: seq<UserRow>, id: int)
  {
    exists k :: 0 <= k < |users| && users[k].id == id
  }

  /** Every session refers to a user row that exists. */
  ghost predicate SessionsOwned(users: seq<UserRow>, sessions: seq<Session>)
  {
    forall i :: 0 <= i < |sessions| ==> UserExists(users, sessions[i].userId)
  }

  /**
   * `get_current_user`: no cookie (or an empty one) gives None; otherwise the
   * first live session carrying the token, in table order, and then the user
   * row it refers to. Expired sessions stay stored but never authenticate.
   */
  function GetCurrentUser(users: seq<UserRow>, sessions: seq<Session>, cookie: Option<string>, now: int): (r: Option<User>)
    ensures cookie.None? || cookie == Some("") ==> r.None?
    ensures r.Some? ==>
      && cookie.Some?
      && exists i, k :: 0 <= i < |sessions| && 0 <= k < |users|
                       && Live(sessions[i], cookie.value, now)
                       && users[k].id == sessions[i].userId
                       && r.value == PublicUser(users[k])
    ensures cookie.Some? && (forall i :: 0 <= i < |sessions| ==> !Live(sessions[i], cookie.value, now)) ==> r.None?
  {
    if cookie.None? || cookie.value == "" then None
    else
      var token := cookie.value;
      match FirstMatch(sessions, (s: Session) => Live(s, token, now))
      case None => None
      case Some(i) =>
        var owner := sessions[i].userId;
        match FirstMatch(users, (u: UserRow) => u.id == owner)
        case None => None
        case Some(k) => Some(PublicUser(users[k]))
  }

  /** `get_required_user`: None becomes a 401, a user passes through unchanged. */
  function GetRequiredUser(user: Option<User>): (r: Result<User, HttpError>)
    ensures r.Ok? <==> user.Some?
    ensures r.Ok? ==> r.value == user.value
    ensures r.Err? ==> r.error == HttpError(401, "Not authenticated")
  {
    match user
    case None => Err(HttpError(401, "Not authenticated"))
    case Some(u) => Ok(u)
  }

  /** The public view depends on nothing but the four public columns: never on the hash. */
  lemma PublicUserHidesHash(a: UserRow, b: UserRow)
    requires a.id == b.id && a.username == b.username && a.email == b.email && a.isActive == b.isActive
    ensures PublicUser(a) == PublicUser(b)
  {
  }

  /**
   * When every session has its user, a non-empty token authenticates exactly
   * when some session carrying it is still live.
   */
  lemma CurrentUserIffLiveSession(users: seq<UserRow>, sessions: seq<Session>, token: string, now: int)
    requires SessionsOwned(users, sessions)
    requires token != ""
    ensures GetCurrentUser(users, sessions, Some(token), now).Some?
        <==> exists i :: 0 <= i < |sessions| && Live(sessions[i], token, now)
  {
    var live := (s: Session) => Live(s, token, now);
    match FirstMatch(sessions, live)
    case None =>
    case Some(i) =>
      var owner := sessions[i].userId;
      assert UserExists(users, owner);
      var k :| 0 <= k < |users| && users[k].id == owner;
      var byId := (u: UserRow) => u.id == owner;
      assert byId(users[k]);
      assert FirstMatch(users, byId).Some?;
  }
}

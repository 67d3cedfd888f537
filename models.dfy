/**
 * The record shapes of models.py. Timestamps are whole seconds on one clock
 * (the source keeps them as text).
 */
module Models {
  import opened Common

  /** The public view of an account; it has no field for the password hash. */
  datatype User = User(id: int, username: string, email: Option<string>, isActive: bool)

  /** One login: exactly one user id, one token and one expiry. */
  datatype Session = Session(id: int, userId: int, sessionToken: string, expiresAt: int)

  /** A stored link; `userId == None` is an anonymous link. */
  datatype Link = Link(id: int, shortId: string, originalUrl: string, createdAt: int, clickCount: int, userId: Option<int>)

  /** `User(id=…, username=…)`: the other fields take their declared defaults. */
  function NewUser(id: int, username: string): (u: User)
    ensures u.id == id && u.username == username
    ensures u.email == None && u.isActive
  {
    User(id, username, None, true)
  }

  /** `Link(…)` without `user_id`: the declared default makes it anonymous. */
  function NewLink(id: int, shortId: string, originalUrl: string, createdAt: int, clickCount: int): (l: Link)
    ensures l.id == id && l.shortId == shortId && l.originalUrl == originalUrl
    ensures l.createdAt == createdAt && l.clickCount == clickCount
    ensures l.userId == None
  {
    Link(id, shortId, originalUrl, createdAt, clickCount, None)
  }
}

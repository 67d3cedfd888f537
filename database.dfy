/**
 * The SQLite schema of database.py: the three tables, the constraints their
 * CREATE TABLE statements declare, and what each table does on an insert
 * or a delete.
 *
 * A table is a sequence of rows in rowid order. Each AUTOINCREMENT key has a
 * counter (SQLite's `sqlite_sequence`) holding the largest id ever handed out;
 * a new row takes the counter plus one, so ids grow and are never reused.
 * The FOREIGN KEY clauses are not part of the invariant: SQLite checks them
 * only when the `foreign_keys` pragma is on, and the program never sets it.
 */
module Database {
  import opened Common
  import opened Models

  /** A row of `users`: the public fields plus the password hash and creation time. */
  datatype UserRow = UserRow(id: int, username: string, email: Option<string>, hashedPassword: string, isActive: bool, createdAt: int)

  /**
   * The index of the first row satisfying `where`: what `fetchone()` yields for
   * a query without ORDER BY that scans the table in rowid order.
   */
  function FirstMatch<T>(rows: seq<T>, where: T -> bool): (r: Option<nat>)
    ensures r.Some? ==> r.value < |rows| && where(rows[r.value])
    ensures r.Some? ==> forall j :: 0 <= j < r.value ==> !where(rows[j])
    ensures r.None? <==> forall j :: 0 <= j < |rows| ==> !where(rows[j])
  {
    if |rows| == 0 then None
    else if where(rows[0]) then Some(0)
    else match FirstMatch(rows[1..], where)
      case None => None
      case Some(k) => Some(k + 1)
  }

  predicate UsernameTaken(users: seq<UserRow>, username: string)
  {
    exists i :: 0 <= i < |users| && users[i].username == username
  }

  /** UNIQUE on a nullable column: NULL never collides, not even with NULL. */
  predicate EmailTaken(users: seq<UserRow>, email: Option<string>)
  {
    email.Some? && exists i :: 0 <= i < |users| && users[i].email == email
  }

  predicate ShortIdTaken(links: seq<Link>, shortId: string)
  {
    exists i :: 0 <= i < |links| && links[i].shortId == shortId
  }

  /** `users`: AUTOINCREMENT ids, `username UNIQUE NOT NULL`, `email UNIQUE`. */
  ghost predicate UsersTable(users: seq<UserRow>, lastId: nat)
    ensures UsersTable(users, lastId) ==>
      forall i, j :: 0 <= i < |users| && 0 <= j < |users| && users[i].username == users[j].username ==> i == j
    ensures UsersTable(users, lastId) ==>
      forall i, j :: 0 <= i < |users| && 0 <= j < |users| && users[i].email.Some? && users[i].email == users[j].email ==> i == j
  {
    && (forall i :: 0 <= i < |users| ==> 0 < users[i].id <= lastId)
    && (forall i, j :: 0 <= i < j < |users| ==> users[i].id < users[j].id)
    && (forall i, j :: 0 <= i < j < |users| ==> users[i].username != users[j].username)
    && (forall i, j :: 0 <= i < j < |users| && users[i].email.Some? ==> users[i].email != users[j].email)
  }

  /** `sessions`: AUTOINCREMENT ids; `session_token` carries no UNIQUE. */
  ghost predicate SessionsTable(sessions: seq<Session>, lastId: nat)
    ensures SessionsTable(sessions, lastId) ==>
      forall i, j :: 0 <= i < |sessions| && 0 <= j < |sessions| && sessions[i].id == sessions[j].id ==> i == j
  {
    && (forall i :: 0 <= i < |sessions| ==> 0 < sessions[i].id <= lastId)
    && (forall i, j :: 0 <= i < j < |sessions| ==> sessions[i].id < sessions[j].id)
  }

  /**
   * `links`: AUTOINCREMENT ids, `short_id UNIQUE NOT NULL`, `click_count DEFAULT 0`;
   * no statement ever updates `click_count`, so every row keeps the default.
   */
  ghost predicate LinksTable(links: seq<Link>, lastId: nat)
    ensures LinksTable(links, lastId) ==>
      forall i, j :: 0 <= i < |links| && 0 <= j < |links| && links[i].shortId == links[j].shortId ==> i == j
  {
    && (forall i :: 0 <= i < |links| ==> 0 < links[i].id <= lastId)
    && (forall i, j :: 0 <= i < j < |links| ==> links[i].id < links[j].id)
    && (forall i, j :: 0 <= i < j < |links| ==> links[i].shortId != links[j].shortId)
    && (forall i :: 0 <= i < |links| ==> links[i].clickCount == 0)
  }

  /** `DELETE FROM sessions WHERE session_token = ?`: the rows left, in their order. */
  function WithoutToken(sessions: seq<Session>, token: string): (r: seq<Session>)
    ensures |r| <= |sessions|
    ensures forall s :: s in r <==> s in sessions && s.sessionToken != token
  {
    if sessions == [] then []
    else (if sessions[0].sessionToken == token then [] else [sessions[0]]) + WithoutToken(sessions[1..], token)
  }

  /** Appending a row that passes the UNIQUE checks and takes the next id keeps `users` well formed. */
  lemma AppendUserKeepsTable(users: seq<UserRow>, lastId: nat, row: UserRow)
    requires UsersTable(users, lastId)
    requires !UsernameTaken(users, row.username) && !EmailTaken(users, row.email)
    requires row.id == lastId + 1
    ensures UsersTable(users + [row], lastId + 1)
  {
    var u := users + [row];
    forall i, j | 0 <= i < j < |u| && u[i].email.Some?
      ensures u[i].email != u[j].email
    {
      if j == |users| {
        assert u[i] == users[i];
      }
    }
  }

  /** Putting a row with a smaller id in front of a well-formed `sessions` keeps it well formed. */
  lemma PrependSessionKeepsTable(x: Session, tail: seq<Session>, lastId: nat)
    requires SessionsTable(tail, lastId)
    requires 0 < x.id <= lastId
    requires forall k :: 0 <= k < |tail| ==> x.id < tail[k].id
    ensures SessionsTable([x] + tail, lastId)
  {
    var u := [x] + tail;
    forall i, j | 0 <= i < j < |u| ensures u[i].id < u[j].id {
      assert u[j] == tail[j - 1];
      if i > 0 {
        assert u[i] == tail[i - 1];
      }
    }
  }

  /** Deleting rows keeps the survivors' ids in increasing order and below the counter. */
  lemma {:induction false} WithoutTokenKeepsTable(sessions: seq<Session>, lastId: nat, token: string)
    requires SessionsTable(sessions, lastId)
    ensures SessionsTable(WithoutToken(sessions, token), lastId)
  {
    if sessions != [] {
      var rest := sessions[1..];
      assert SessionsTable(rest, lastId) by {
        forall i, j | 0 <= i < j < |rest| ensures rest[i].id < rest[j].id {
          assert rest[i] == sessions[i + 1] && rest[j] == sessions[j + 1];
        }
      }
      WithoutTokenKeepsTable(rest, lastId, token);
      var tail := WithoutToken(rest, token);
      if sessions[0].sessionToken != token {
        forall k | 0 <= k < |tail| ensures sessions[0].id < tail[k].id {
          assert tail[k] in rest;
          var m :| 0 <= m < |rest| && rest[m] == tail[k];
          assert rest[m] == sessions[m + 1];
        }
        PrependSessionKeepsTable(sessions[0], tail, lastId);
      } else {
        assert WithoutToken(sessions, token) == tail;
      }
    }
  }

  /** Deleting the rows of one token a second time deletes nothing more. */
  lemma {:induction false} WithoutTokenIdempotent(sessions: seq<Session>, token: string)
    ensures WithoutToken(WithoutToken(sessions, token), token) == WithoutToken(sessions, token)
  {
    if sessions != [] {
      WithoutTokenIdempotent(sessions[1..], token);
      var head := if sessions[0].sessionToken == token then [] else [sessions[0]];
      var tail := WithoutToken(sessions[1..], token);
      if head != [] {
        assert (head + tail)[0] == sessions[0];
        assert (head + tail)[1..] == tail;
      } else {
        assert head + tail == tail;
      }
    }
  }

  /** The whole database file: its tables and their AUTOINCREMENT counters. */
  class Db {
    var users: seq<UserRow>
    var sessions: seq<Session>
    var links: seq<Link>
    var lastUserId: nat
    var lastSessionId: nat
    var lastLinkId: nat
    /** Every session id ever handed out, including those of deleted rows. */
    ghost var issuedSessionIds: set<int>

    /** The constraints the CREATE TABLE statements declare. */
    ghost predicate Valid()
      reads this
      ensures Valid() ==> forall i :: 0 <= i < |users| ==> users[i].id < lastUserId + 1
      ensures Valid() ==> lastSessionId + 1 !in issuedSessionIds
      ensures Valid() ==> forall i :: 0 <= i < |links| ==> links[i].id < lastLinkId + 1
    {
      && UsersTable(users, lastUserId)
      && SessionsTable(sessions, lastSessionId)
      && LinksTable(links, lastLinkId)
      && (forall i :: 0 <= i < |sessions| ==> sessions[i].id in issuedSessionIds)
      && (forall id :: id in issuedSessionIds ==> 0 < id <= lastSessionId)
    }

    /** `init_db` on a new database file: three empty tables. */
    constructor InitDb()
      ensures Valid()
      ensures users == [] && sessions == [] && links == []
      ensures lastUserId == 0 && lastSessionId == 0 && lastLinkId == 0
      ensures issuedSessionIds == {}
    {
      users, sessions, links := [], [], [];
      lastUserId, lastSessionId, lastLinkId := 0, 0, 0;
      issuedSessionIds := {};
    }

    /**
     * `INSERT INTO users (username, email, hashed_password) … RETURNING id`.
     * None is the IntegrityError of a taken username or a taken non-NULL email;
     * the failed statement leaves the table and the counter as they were.
     */
    method InsertUser(username: string, email: Option<string>, hashedPassword: string, now: int)
      returns (r: Option<int>)
      requires Valid()
      modifies this`users, this`lastUserId
      ensures Valid()
      ensures r.None? <==> UsernameTaken(old(users), username) || EmailTaken(old(users), email)
      ensures r.None? ==> users == old(users) && lastUserId == old(lastUserId)
      ensures r.Some? ==> r.value == old(lastUserId) + 1 && lastUserId == r.value
      ensures r.Some? ==> users == old(users) + [UserRow(r.value, username, email, hashedPassword, true, now)]
    {
      if UsernameTaken(users, username) || EmailTaken(users, email) {
        return None;
      }
      var row := UserRow(lastUserId + 1, username, email, hashedPassword, true, now);
      AppendUserKeepsTable(users, lastUserId, row);
      users := users + [row];
      lastUserId := lastUserId + 1;
      r := Some(lastUserId);
    }

    /** `INSERT INTO sessions (user_id, session_token, expires_at)`: no constraint can fail. */
    method InsertSession(userId: int, token: string, expiresAt: int) returns (id: int)
      requires Valid()
      modifies this`sessions, this`lastSessionId, this`issuedSessionIds
      ensures Valid()
      ensures id == old(lastSessionId) + 1 && lastSessionId == id
      ensures id !in old(issuedSessionIds) && issuedSessionIds == old(issuedSessionIds) + {id}
      ensures sessions == old(sessions) + [Session(id, userId, token, expiresAt)]
    {
      id := lastSessionId + 1;
      sessions := sessions + [Session(id, userId, token, expiresAt)];
      lastSessionId := id;
      issuedSessionIds := issuedSessionIds + {id};
    }

    /** `DELETE FROM sessions WHERE session_token = ?`. */
    method DeleteSessions(token: string)
      requires Valid()
      modifies this`sessions
      ensures Valid()
      ensures sessions == WithoutToken(old(sessions), token)
    {
      WithoutTokenKeepsTable(sessions, lastSessionId, token);
      sessions := WithoutToken(sessions, token);
    }

    /**
     * What the `links` table does on an insert: None is the IntegrityError of
     * a taken short id; a new row has `click_count` 0 and an optional owner.
     */
    method InsertLink(shortId: string, originalUrl: string, owner: Option<int>, now: int)
      returns (r: Option<int>)
      requires Valid()
      modifies this`links, this`lastLinkId
      ensures Valid()
      ensures r.None? <==> ShortIdTaken(old(links), shortId)
      ensures r.None? ==> links == old(links) && lastLinkId == old(lastLinkId)
      ensures r.Some? ==> r.value == old(lastLinkId) + 1 && lastLinkId == r.value
      ensures r.Some? ==> links == old(links) + [Link(r.value, shortId, originalUrl, now, 0, owner)]
    {
      if ShortIdTaken(links, shortId) {
        return None;
      }
      links := links + [Link(lastLinkId + 1, shortId, originalUrl, now, 0, owner)];
      lastLinkId := lastLinkId + 1;
      r := Some(lastLinkId);
    }
  }
}

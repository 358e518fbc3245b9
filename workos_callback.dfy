/**
 * `GET /api/auth/callback/workos`: exchanges the authorization code for the
 * identity provider's user, finds or creates the matching `User` by its
 * WorkOS id, and redirects with the session cookie set. The provider's
 * `authenticateWithCode` is a parameter; one that throws is a `Failure`.
 */
module WorkosCallbackRoute {
  import opened Wrappers
  import opened Text
  import opened Store
  import opened SessionCookie

  /** The provider's user. */
  datatype WorkosUser = WorkosUser(
    id: string,
    email: string,
    firstName: Option<string>,
    lastName: Option<string>,
    profilePictureUrl: Option<string>)

  /** What `authenticateWithCode` resolves to. */
  datatype AuthResponse = AuthResponse(user: Option<WorkosUser>, accessToken: Option<string>, refreshToken: Option<string>)

  /** A `Set-Cookie` the response carries; `secure`, `sameSite` and `path` are not modelled. */
  datatype SetCookie = SetCookie(name: string, value: string, maxAge: int, httpOnly: bool)

  /**
   * The only response the handler gives: a redirect, with the cookies it sets.
   * The error locations are relative, as the handler writes them.
   */
  datatype CallbackResponse = Redirect(location: string, cookies: seq<SetCookie>)

  const NoCodeLocation: string := "/auth/error?error=No authorization code provided"
  const NoUserLocation: string := "/auth/error?error=Failed to authenticate user"
  const FailedLocation: string := "/auth/error?error=Authentication failed"
  const DefaultLocation: string := "http://localhost:3000"

  const AccessTokenCookie: string := "fit1-access-token"
  const RefreshTokenCookie: string := "fit1-refresh-token"

  /** Seven days in seconds, the lifetime of all three cookies. */
  const SessionMaxAge: int := 7 * 24 * 60 * 60

  /** A string value read as a condition: missing and empty are false. */
  predicate Present(s: Option<string>) {
    s.Some? && s.value != ""
  }

  /** `user.firstName ? \`${firstName} ${lastName || ''}\`.trim() : user.email`. */
  function DisplayName(u: WorkosUser): string {
    if Present(u.firstName) then
      Trim(u.firstName.value + " " + (if Present(u.lastName) then u.lastName.value else ""))
    else u.email
  }

  /** Without a first name the email is the name. */
  lemma NameFallsBackToEmail(u: WorkosUser)
    requires !Present(u.firstName)
    ensures DisplayName(u) == u.email
  {
  }

  /** Names without surrounding white space are joined by one space, or the first name stands alone. */
  lemma NameOfPlainNames(u: WorkosUser)
    requires Present(u.firstName)
    requires !IsWhitespace(u.firstName.value[0]) && !IsWhitespace(u.firstName.value[|u.firstName.value| - 1])
    requires Present(u.lastName) ==>
      !IsWhitespace(u.lastName.value[0]) && !IsWhitespace(u.lastName.value[|u.lastName.value| - 1])
    ensures Present(u.lastName) ==> DisplayName(u) == u.firstName.value + " " + u.lastName.value
    ensures !Present(u.lastName) ==> DisplayName(u) == u.firstName.value
  {
    var f := u.firstName.value;
    if Present(u.lastName) {
      var s := f + " " + u.lastName.value;
      assert s[0] == f[0] && s[|s| - 1] == u.lastName.value[|u.lastName.value| - 1];
      TrimOfTrimmed(s);
    } else {
      var s := f + " " + "";
      assert s[0] == f[0] && s[|s| - 1] == ' ';
      assert Trim(s) == f by {
        assert s == f + [' '];
        TrimDropsOneTrailingSpace(f);
      }
    }
  }

  lemma TrimDropsOneTrailingSpace(f: string)
    requires f != [] && !IsWhitespace(f[0]) && !IsWhitespace(f[|f| - 1])
    ensures Trim(f + [' ']) == f
  {
    var s := f + [' '];
    assert TrimStart(s) == s;
    assert s[..|s| - 1] == f;
    assert IsWhitespace(' ');
    assert TrimEnd(s) == TrimEnd(f);
    TrimOfTrimmed(f);
  }

  /** The user `User.create` stores on a first login. */
  function NewUser(u: WorkosUser, now: int): (r: User)
    ensures r.email == u.email && r.workosId == u.id && r.name == DisplayName(u)
    ensures r.picture == u.profilePictureUrl && r.lastLogin == now && r.details.None?
  {
    User(u.email, DisplayName(u), u.profilePictureUrl, u.id, now, None)
  }

  /** A returning user: `lastLogin` is stamped, the picture replaced only by a present one, nothing else changes. */
  function Relogin(existing: User, now: int, picture: Option<string>): (r: User)
    ensures r.lastLogin == now
    ensures r.picture == if Present(picture) then picture else existing.picture
    ensures r.email == existing.email && r.name == existing.name
    ensures r.workosId == existing.workosId && r.details == existing.details
  {
    existing.(lastLogin := now, picture := if Present(picture) then picture else existing.picture)
  }

  /**
   * Find-or-create on the WorkOS id: the existing user is updated, or a new
   * one is created under `newId`; creating one whose email is taken breaks
   * the unique index and fails.
   */
  ghost function FindOrCreate(users: map<string, User>, u: WorkosUser, now: int, newId: string): Option<(string, map<string, User>)>
    requires newId !in users
  {
    if exists id :: id in users && users[id].workosId == u.id then
      var id :| id in users && users[id].workosId == u.id;
      Some((id, users[id := Relogin(users[id], now, u.profilePictureUrl)]))
    else if exists id :: id in users && users[id].email == u.email then None
    else Some((newId, users[newId := NewUser(u, now)]))
  }

  /** With unique keys, the user found is the one holding the WorkOS id. */
  lemma FindsTheKnownUser(users: map<string, User>, u: WorkosUser, now: int, newId: string, id: string)
    requires UniqueKeys(users) && newId !in users
    requires id in users && users[id].workosId == u.id
    ensures FindOrCreate(users, u, now, newId) == Some((id, users[id := Relogin(users[id], now, u.profilePictureUrl)]))
  {
  }

  /** An unknown WorkOS id with a taken email fails; with a free email the user is created under `newId`. */
  lemma CreatesOrClashes(users: map<string, User>, u: WorkosUser, now: int, newId: string)
    requires newId !in users
    requires forall k | k in users :: users[k].workosId != u.id
    ensures (exists k :: k in users && users[k].email == u.email) ==> FindOrCreate(users, u, now, newId) == None
    ensures !(exists k :: k in users && users[k].email == u.email) ==>
      FindOrCreate(users, u, now, newId) == Some((newId, users[newId := NewUser(u, now)]))
  {
  }

  /** Updating a returning user touches neither key. */
  lemma ReloginKeepsUniqueKeys(users: map<string, User>, id: string, now: int, picture: Option<string>)
    requires UniqueKeys(users) && id in users
    ensures UniqueKeys(users[id := Relogin(users[id], now, picture)])
  {
    var r := users[id := Relogin(users[id], now, picture)];
    forall a | a in r ensures r[a].workosId == users[a].workosId && r[a].email == users[a].email {
    }
  }

  /** A new user whose WorkOS id and email are both unused keeps the keys unique. */
  lemma CreateKeepsUniqueKeys(users: map<string, User>, newId: string, created: User)
    requires UniqueKeys(users) && newId !in users
    requires forall k | k in users :: users[k].workosId != created.workosId && users[k].email != created.email
    ensures UniqueKeys(users[newId := created])
  {
  }

  /** Find-or-create keeps WorkOS ids and emails unique. */
  lemma FindOrCreateKeepsUniqueKeys(users: map<string, User>, u: WorkosUser, now: int, newId: string)
    requires UniqueKeys(users) && newId !in users
    requires FindOrCreate(users, u, now, newId).Some?
    ensures UniqueKeys(FindOrCreate(users, u, now, newId).value.1)
  {
    if exists id :: id in users && users[id].workosId == u.id {
      var id := FindOrCreate(users, u, now, newId).value.0;
      ReloginKeepsUniqueKeys(users, id, now, u.profilePictureUrl);
    } else {
      CreateKeepsUniqueKeys(users, newId, NewUser(u, now));
    }
  }

  /**
   * A user is created exactly when no user has that WorkOS id (and the email
   * is free); otherwise the existing id is reused and no user is added.
   */
  lemma CreatesIffUnknown(users: map<string, User>, u: WorkosUser, now: int, newId: string)
    requires newId !in users
    requires FindOrCreate(users, u, now, newId).Some?
    ensures var (id, r) := FindOrCreate(users, u, now, newId).value;
      && (id == newId <==> !(exists k :: k in users && users[k].workosId == u.id))
      && (id == newId ==> r.Keys == users.Keys + {newId})
      && (id != newId ==> r.Keys == users.Keys && users[id].workosId == u.id)
  {
  }

  /** Logging in twice with the same identity creates the user at most once and yields the same id. */
  lemma SecondLoginReusesUser(users: map<string, User>, u: WorkosUser, t1: int, t2: int, id1: string, id2: string)
    requires UniqueKeys(users) && id1 !in users
    requires FindOrCreate(users, u, t1, id1).Some?
    requires id2 !in FindOrCreate(users, u, t1, id1).value.1
    ensures var (first, after) := FindOrCreate(users, u, t1, id1).value;
      && FindOrCreate(after, u, t2, id2).Some?
      && FindOrCreate(after, u, t2, id2).value.0 == first
      && FindOrCreate(after, u, t2, id2).value.1.Keys == after.Keys
  {
    var (first, after) := FindOrCreate(users, u, t1, id1).value;
    FindOrCreateKeepsUniqueKeys(users, u, t1, id1);
    assert first in after && after[first].workosId == u.id;
  }

  /** The cookies set on the redirect: the session, then each token the provider returned. */
  function SessionCookies(userId: string, auth: AuthResponse): (cookies: seq<SetCookie>)
    ensures |cookies| >= 1 && cookies[0] == SetCookie(SessionCookieName, userId, SessionMaxAge, false)
    ensures forall c | c in cookies :: c.maxAge == 604800
    ensures (exists c :: c in cookies && c.name == AccessTokenCookie) <==> Present(auth.accessToken)
    ensures (exists c :: c in cookies && c.name == RefreshTokenCookie) <==> Present(auth.refreshToken)
    ensures forall c | c in cookies && c.name == AccessTokenCookie :: c.value == auth.accessToken.value && c.httpOnly
    ensures forall c | c in cookies && c.name == RefreshTokenCookie :: c.value == auth.refreshToken.value && c.httpOnly
  {
    var session := [SetCookie(SessionCookieName, userId, SessionMaxAge, false)];
    var access := if Present(auth.accessToken) then [SetCookie(AccessTokenCookie, auth.accessToken.value, SessionMaxAge, true)] else [];
    var refresh := if Present(auth.refreshToken) then [SetCookie(RefreshTokenCookie, auth.refreshToken.value, SessionMaxAge, true)] else [];
    assert SessionCookieName != AccessTokenCookie && SessionCookieName != RefreshTokenCookie by {
      assert SessionCookieName[5] == 's' && AccessTokenCookie[5] == 'a' && RefreshTokenCookie[5] == 'r';
    }
    assert AccessTokenCookie != RefreshTokenCookie by {
      assert AccessTokenCookie[5] != RefreshTokenCookie[5];
    }
    session + access + refresh
  }

  /** `searchParams.get('state') || 'http://localhost:3000'`. */
  function RedirectTarget(state: Option<string>): (location: string)
    ensures Present(state) ==> location == state.value
    ensures !Present(state) ==> location == DefaultLocation
  {
    if Present(state) then state.value else DefaultLocation
  }

  /**
   * The find-or-create step of the handler: look the user up by WorkOS id,
   * then save the returning user or create a new one under `newId`.
   * `None` is a create that the email index refused.
   */
  method FindOrCreateUser(db: Database, user: WorkosUser, now: int, newId: string)
    returns (found: Option<string>)
    requires db.Valid() && newId !in db.users
    modifies db
    ensures db.Valid()
    ensures db.weights == old(db.weights)
    ensures FindOrCreate(old(db.users), user, now, newId) == if found.Some? then Some((found.value, db.users)) else None
    ensures found.None? ==> db.users == old(db.users)
    ensures db.log == old(db.log) + [FindUserByWorkosId(user.id),
                                     if found.Some? && found.value != newId then SaveUser(found.value) else CreateUser(newId)]
  {
    db.log := db.log + [FindUserByWorkosId(user.id)];
    if exists id :: id in db.users && db.users[id].workosId == user.id {
      var id :| id in db.users && db.users[id].workosId == user.id;
      FindsTheKnownUser(db.users, user, now, newId, id);
      ReloginKeepsUniqueKeys(db.users, id, now, user.profilePictureUrl);
      db.users := db.users[id := Relogin(db.users[id], now, user.profilePictureUrl)];
      db.log := db.log + [SaveUser(id)];
      found := Some(id);
    } else {
      db.log := db.log + [CreateUser(newId)];
      CreatesOrClashes(db.users, user, now, newId);
      if exists id :: id in db.users && db.users[id].email == user.email {
        return None;
      }
      CreateKeepsUniqueKeys(db.users, newId, NewUser(user, now));
      db.users := db.users[newId := NewUser(user, now)];
      found := Some(newId);
    }
  }

  /**
   * The handler. `now` is the clock reading stored as `lastLogin`; `newId`
   * is the id a created document receives, fresh in the collection.
   */
  method Get(
    db: Database,
    code: Option<string>,
    state: Option<string>,
    authenticateWithCode: string -> Result<AuthResponse, string>,
    now: int,
    newId: string)
    returns (resp: CallbackResponse)
    requires db.Valid() && newId !in db.users
    modifies db
    ensures db.Valid()
    ensures db.weights == old(db.weights)
    ensures !Present(code) ==> resp == Redirect(NoCodeLocation, []) && unchanged(db)
    ensures Present(code) ==>
      match authenticateWithCode(code.value)
      case Failure(_) =>
        resp == Redirect(FailedLocation, []) && db.users == old(db.users)
        && db.log == old(db.log) + [Authenticate(code.value)]
      case Success(auth) =>
        if auth.user.None? then
          resp == Redirect(NoUserLocation, []) && db.users == old(db.users)
          && db.log == old(db.log) + [Authenticate(code.value)]
        else
          var u := auth.user.value;
          match FindOrCreate(old(db.users), u, now, newId)
          case None =>
            resp == Redirect(FailedLocation, []) && db.users == old(db.users)
            && db.log == old(db.log) + [Authenticate(code.value), FindUserByWorkosId(u.id), CreateUser(newId)]
          case Some((id, after)) =>
            && db.users == after
            && resp == Redirect(RedirectTarget(state), SessionCookies(id, auth))
            && db.log == old(db.log) + [Authenticate(code.value), FindUserByWorkosId(u.id),
                                        if id == newId then CreateUser(newId) else SaveUser(id)]
  {
    if !Present(code) {
      return Redirect(NoCodeLocation, []);
    }
    db.log := db.log + [Authenticate(code.value)];
    var authResponse := authenticateWithCode(code.value);
    if authResponse.Failure? {
      return Redirect(FailedLocation, []);
    }
    var auth := authResponse.value;
    if auth.user.None? {
      return Redirect(NoUserLocation, []);
    }
    var user := auth.user.value;
    var found := FindOrCreateUser(db, user, now, newId);
    if found.None? {
      return Redirect(FailedLocation, []);
    }
    var dbUserId := found.value;
    resp := Redirect(RedirectTarget(state), SessionCookies(dbUserId, auth));
  }
}

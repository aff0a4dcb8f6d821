/**
 * The microblog's data model: user rows and the lookups the application runs
 * on them, the follow relation, bearer tokens, notifications, private
 * messages, background-task rows, and the database that holds them.
 *
 * Tables are values: the user table is a sequence of rows (a `scalar` query
 * returns the first row that matches); the follow table is a set of
 * `(follower_id, followed_id)` pairs. A `User` method that changes its own
 * row becomes a `Database` method that takes the user's id.
 */
module Models {
  import opened Prelude

  type UserId = nat

  /** Instants as whole seconds since 1970-01-01 00:00:00 UTC. */
  type Time = int

  /** `datetime(1900, 1, 1)`, the last-read time of a user who never read their messages. */
  const Year1900: Time := -2208988800

  /* ---------------------------------------------------------------- */
  /* Passwords                                                          */
  /* ---------------------------------------------------------------- */

  /**
   * werkzeug's salted password hash, as an ideal oracle: checking a hash
   * succeeds for the password it was made from and for no other.
   */
  datatype PasswordHash = PasswordHash(secret: string)

  function GeneratePasswordHash(password: string): PasswordHash {
    PasswordHash(password)
  }

  predicate CheckPasswordHash(h: PasswordHash, password: string) {
    h.secret == password
  }

  /* ---------------------------------------------------------------- */
  /* User rows and lookups                                              */
  /* ---------------------------------------------------------------- */

  datatype User = User(
    id: UserId,
    username: string,
    email: string,
    passwordHash: Option<PasswordHash>,
    aboutMe: Option<string>,
    lastMessageReadTime: Option<Time>,
    token: Option<string>,
    tokenExpiration: Option<Time>)

  /** `User()` before any column is filled in; the id is the one the insert assigns. */
  function BlankUser(id: UserId): User {
    User(id, "", "", None, None, None, None, None)
  }

  /** `set_password`: only the hash changes, and it is one made from `password`. */
  function SetPassword(u: User, password: string): (r: User)
    ensures r.(passwordHash := u.passwordHash) == u
    ensures r.passwordHash.Some? && CheckPasswordHash(r.passwordHash.value, password)
  {
    u.(passwordHash := Some(GeneratePasswordHash(password)))
  }

  /**
   * `check_password`; a row without a hash never matches. werkzeug would
   * raise on a missing hash instead, but every path that stores a user
   * (`register`, `create_user`) sets one first, so the case is unreachable.
   */
  predicate CheckPassword(u: User, password: string) {
    u.passwordHash.Some? && CheckPasswordHash(u.passwordHash.value, password)
  }

  /** After `set_password(p)`, `check_password` accepts `p` and nothing else. */
  lemma SetThenCheckPassword(u: User, p: string, q: string)
    ensures CheckPassword(SetPassword(u, p), q) <==> q == p
  {
  }

  /** The column a `select(User).where(...)` compares with a value. */
  datatype Key = ById(id: UserId) | ByUsername(username: string) | ByEmail(email: string) | ByToken(token: string)

  predicate Matches(u: User, key: Key) {
    match key
    case ById(id) => u.id == id
    case ByUsername(name) => u.username == name
    case ByEmail(email) => u.email == email
    case ByToken(t) => u.token == Some(t)
  }

  /** `db.session.scalar(select(User).where(key))`: the first matching row, if any. */
  function Lookup(users: seq<User>, key: Key): (r: Option<User>)
    ensures r.Some? ==> r.value in users && Matches(r.value, key)
    ensures r.None? <==> forall u | u in users :: !Matches(u, key)
  {
    if users == [] then None
    else if Matches(users[0], key) then Some(users[0])
    else Lookup(users[1..], key)
  }

  /** At most one row matches `key`. */
  predicate Unique(users: seq<User>, key: Key) {
    forall i, j | 0 <= i < |users| && 0 <= j < |users| && Matches(users[i], key) && Matches(users[j], key) :: i == j
  }

  /** When a key is unique, the lookup finds the one row that has it. */
  lemma LookupFindsTheOne(users: seq<User>, key: Key, u: User)
    requires u in users && Matches(u, key) && Unique(users, key)
    ensures Lookup(users, key) == Some(u)
  {
    var r := Lookup(users, key);
    var i :| 0 <= i < |users| && users[i] == r.value;
    var j :| 0 <= j < |users| && users[j] == u;
  }

  predicate UniqueIds(users: seq<User>) {
    forall i, j | 0 <= i < |users| && 0 <= j < |users| && i != j :: users[i].id != users[j].id
  }

  /** The `token` column is `unique=True`. */
  predicate UniqueTokens(users: seq<User>) {
    forall i, j | 0 <= i < |users| && 0 <= j < |users| && i != j && users[i].token.Some? ::
      users[i].token != users[j].token
  }

  /** `get_token` sets the token and its expiration together, so a token never lacks one. */
  predicate TokensHaveExpiry(users: seq<User>) {
    forall u | u in users :: u.token.Some? ==> u.tokenExpiration.Some?
  }

  predicate WellFormedTable(users: seq<User>) {
    UniqueIds(users) && UniqueTokens(users) && TokensHaveExpiry(users)
  }

  /** The `username` column is `unique=True`. */
  predicate UniqueUsernames(users: seq<User>) {
    forall i, j | 0 <= i < |users| && 0 <= j < |users| && i != j :: users[i].username != users[j].username
  }

  /** The `email` column is `unique=True`. */
  predicate UniqueEmails(users: seq<User>) {
    forall i, j | 0 <= i < |users| && 0 <= j < |users| && i != j :: users[i].email != users[j].email
  }

  /** Appending a row whose username and e-mail no row has keeps both columns unique. */
  lemma AppendKeepsUnique(users: seq<User>, u: User)
    requires UniqueUsernames(users) && UniqueEmails(users)
    requires forall v | v in users :: v.username != u.username && v.email != u.email
    ensures UniqueUsernames(users + [u]) && UniqueEmails(users + [u])
  {
    var r := users + [u];
    forall i, j | 0 <= i < |r| && 0 <= j < |r| && i != j
      ensures r[i].username != r[j].username && r[i].email != r[j].email
    {
      if i < |users| { assert users[i] in users; }
      if j < |users| { assert users[j] in users; }
    }
  }

  /** A lookup in a table with one more row finds an earlier match first, else the new row. */
  lemma {:induction false} LookupAppend(users: seq<User>, u: User, key: Key)
    ensures Lookup(users + [u], key) ==
      if Lookup(users, key).Some? then Lookup(users, key)
      else if Matches(u, key) then Some(u)
      else None
  {
    if users != [] {
      assert (users + [u])[1..] == users[1..] + [u];
      LookupAppend(users[1..], u, key);
    } else {
      assert users + [u] == [u];
    }
  }

  /** Saving a row: the row with the same id is replaced, every other row is kept. */
  function ReplaceUser(users: seq<User>, u: User): (r: seq<User>)
    ensures |r| == |users|
    ensures forall i | 0 <= i < |users| :: r[i].id == users[i].id
  {
    seq(|users|, i requires 0 <= i < |users| => if users[i].id == u.id then u else users[i])
  }

  /** Saving a row as it already is changes nothing. */
  lemma ReplaceWithSelf(users: seq<User>, u: User)
    requires UniqueIds(users) && u in users
    ensures ReplaceUser(users, u) == users
  {
    var j :| 0 <= j < |users| && users[j] == u;
    forall i | 0 <= i < |users|
      ensures ReplaceUser(users, u)[i] == users[i]
    {
      if users[i].id == u.id {
        assert i == j;
      }
    }
  }

  /**
   * Saving a row keeps the table well formed as long as the row keeps an
   * expiry with its token and no other row holds that token.
   */
  lemma ReplaceKeepsWellFormed(users: seq<User>, u: User)
    requires WellFormedTable(users) && Lookup(users, ById(u.id)).Some?
    requires u.token.Some? ==> u.tokenExpiration.Some?
    requires u.token.Some? ==> forall v | v in users && v.id != u.id :: v.token != u.token
    ensures WellFormedTable(ReplaceUser(users, u))
    ensures u in ReplaceUser(users, u)
    ensures Lookup(ReplaceUser(users, u), ById(u.id)) == Some(u)
  {
    var r := ReplaceUser(users, u);
    var j :| 0 <= j < |users| && users[j] == Lookup(users, ById(u.id)).value;
    assert r[j] == u;
    forall i, k | 0 <= i < |r| && 0 <= k < |r| && i != k && r[i].token.Some?
      ensures r[i].token != r[k].token
    {
      if r[i] == u {
        if r[k] != u { assert users[k] in users && users[k].id != u.id; }
      } else if r[k] == u {
        assert users[i] in users && users[i].id != u.id;
      }
    }
    assert Unique(r, ById(u.id));
    LookupFindsTheOne(r, ById(u.id), u);
  }

  /** A row that keeps its token can be saved without breaking the table. */
  lemma SameTokenKeepsWellFormed(users: seq<User>, old_u: User, u: User)
    requires WellFormedTable(users) && old_u in users && u.id == old_u.id
    requires u.token == old_u.token && (u.token.Some? ==> u.tokenExpiration.Some?)
    ensures WellFormedTable(ReplaceUser(users, u))
    ensures Lookup(ReplaceUser(users, u), ById(u.id)) == Some(u)
  {
    var j :| 0 <= j < |users| && users[j] == old_u;
    if u.token.Some? {
      forall v | v in users && v.id != u.id
        ensures v.token != u.token
      {
        var i :| 0 <= i < |users| && users[i] == v;
      }
    }
    ReplaceKeepsWellFormed(users, u);
  }

  /* ---------------------------------------------------------------- */
  /* from_dict                                                          */
  /* ---------------------------------------------------------------- */

  /** The keys `from_dict` copies onto the row, in the order it copies them. */
  const DictFields: seq<string> := ["username", "email", "about_me"]

  /** `setattr(user, field, value)` for the three copied fields. */
  function SetAttr(u: User, field: string, value: string): User {
    if field == "username" then u.(username := value)
    else if field == "email" then u.(email := value)
    else if field == "about_me" then u.(aboutMe := Some(value))
    else u
  }

  /**
   * The row `from_dict` leaves: each of username, email and about_me is
   * overwritten when `data` has it; the password changes only for a new
   * user whose data has one; no other column is touched.
   */
  function ApplyDict(u: User, data: map<string, string>, newUser: bool): (r: User)
    ensures r.id == u.id && r.lastMessageReadTime == u.lastMessageReadTime
    ensures r.token == u.token && r.tokenExpiration == u.tokenExpiration
    ensures r.passwordHash != u.passwordHash ==> newUser && "password" in data
    ensures "username" !in data ==> r.username == u.username
    ensures "email" !in data ==> r.email == u.email
    ensures "about_me" !in data ==> r.aboutMe == u.aboutMe
    ensures "username" in data ==> r.username == data["username"]
    ensures "email" in data ==> r.email == data["email"]
    ensures "about_me" in data ==> r.aboutMe == Some(data["about_me"])
    ensures newUser && "password" in data ==> CheckPassword(r, data["password"])
  {
    u.(username := if "username" in data then data["username"] else u.username,
       email := if "email" in data then data["email"] else u.email,
       aboutMe := if "about_me" in data then Some(data["about_me"]) else u.aboutMe,
       passwordHash := if newUser && "password" in data then Some(GeneratePasswordHash(data["password"]))
                       else u.passwordHash)
  }

  /** `from_dict`: the `setattr` loop over the three fields, then the password. */
  method FromDict(u: User, data: map<string, string>, newUser: bool) returns (r: User)
    ensures r == ApplyDict(u, data, newUser)
  {
    r := u;
    for k := 0 to |DictFields|
      invariant r.id == u.id && r.passwordHash == u.passwordHash
      invariant r.lastMessageReadTime == u.lastMessageReadTime
      invariant r.token == u.token && r.tokenExpiration == u.tokenExpiration
      invariant r.username == if k > 0 && "username" in data then data["username"] else u.username
      invariant r.email == if k > 1 && "email" in data then data["email"] else u.email
      invariant r.aboutMe == if k > 2 && "about_me" in data then Some(data["about_me"]) else u.aboutMe
    {
      var field := DictFields[k];
      if field in data {
        r := SetAttr(r, field, data[field]);
      }
    }
    if newUser && "password" in data {
      r := SetPassword(r, data["password"]);
    }
  }

  /** An update (`new_user=False`) never touches the password, the id or the token. */
  lemma UpdateKeepsCredentials(u: User, data: map<string, string>)
    ensures ApplyDict(u, data, false).passwordHash == u.passwordHash
    ensures ApplyDict(u, data, false).id == u.id
    ensures ApplyDict(u, data, false).token == u.token
    ensures ApplyDict(u, data, false).tokenExpiration == u.tokenExpiration
  {
  }

  /* ---------------------------------------------------------------- */
  /* Bearer tokens                                                      */
  /* ---------------------------------------------------------------- */

  /** `get_token` keeps a token that is set and still valid a minute from now. */
  predicate KeepsToken(u: User, now: Time)
    requires u.token.Some? ==> u.tokenExpiration.Some?
  {
    Truthy(u.token) && u.tokenExpiration.value > now + 60
  }

  /**
   * `get_token(expires_in)` at `now`: the row afterwards and the token
   * returned; `newToken` is the value `secrets.token_hex(16)` would produce.
   */
  function IssueToken(u: User, now: Time, expiresIn: int, newToken: string): (r: (User, string))
    requires u.token.Some? ==> u.tokenExpiration.Some?
    ensures r.0.token == Some(r.1) && r.0.tokenExpiration.Some?
    ensures r.0.(token := u.token, tokenExpiration := u.tokenExpiration) == u
    ensures KeepsToken(u, now) ==> r.0 == u
    ensures !KeepsToken(u, now) ==> r.1 == newToken && r.0.tokenExpiration == Some(now + expiresIn)
  {
    if KeepsToken(u, now) then (u, u.token.value)
    else (u.(token := Some(newToken), tokenExpiration := Some(now + expiresIn)), newToken)
  }

  /** `revoke_token` at `now`: the expiration moves one second into the past. */
  function RevokeToken(u: User, now: Time): (r: User)
    ensures r.tokenExpiration.Some? && r.tokenExpiration.value < now
    ensures r.(tokenExpiration := u.tokenExpiration) == u
  {
    u.(tokenExpiration := Some(now - 1))
  }

  /** `User.check_token`: the user holding `token`, unless its expiration is before `now`. */
  function CheckToken(users: seq<User>, token: string, now: Time): (r: Option<User>)
    requires TokensHaveExpiry(users)
    ensures r.Some? ==> r.value in users && r.value.token == Some(token)
    ensures r.Some? ==> now <= r.value.tokenExpiration.value
    ensures r.None? ==> Lookup(users, ByToken(token)).None? || Lookup(users, ByToken(token)).value.tokenExpiration.value < now
  {
    match Lookup(users, ByToken(token))
    case None => None
    case Some(u) => if u.tokenExpiration.value < now then None else Some(u)
  }

  lemma UniqueTokenLookup(users: seq<User>, u: User)
    requires UniqueTokens(users) && u in users && u.token.Some?
    ensures Lookup(users, ByToken(u.token.value)) == Some(u)
  {
    forall i, j | 0 <= i < |users| && 0 <= j < |users| && Matches(users[i], ByToken(u.token.value)) && Matches(users[j], ByToken(u.token.value))
      ensures i == j
    {
    }
    LookupFindsTheOne(users, ByToken(u.token.value), u);
  }

  /**
   * A token handed out by `get_token` is accepted by `check_token` from the
   * moment it is issued until its expiration, provided `expires_in` is not
   * negative and the new value is not already some user's token.
   */
  lemma IssuedTokenIsAccepted(users: seq<User>, u: User, now: Time, expiresIn: int, newToken: string, later: Time)
    requires WellFormedTable(users) && u in users
    requires forall v | v in users :: v.token != Some(newToken)
    requires expiresIn >= 0
    requires now <= later <= IssueToken(u, now, expiresIn, newToken).0.tokenExpiration.value
    ensures WellFormedTable(ReplaceUser(users, IssueToken(u, now, expiresIn, newToken).0))
    ensures CheckToken(ReplaceUser(users, IssueToken(u, now, expiresIn, newToken).0), IssueToken(u, now, expiresIn, newToken).1, later)
            == Some(IssueToken(u, now, expiresIn, newToken).0)
  {
    var (u2, t) := IssueToken(u, now, expiresIn, newToken);
    assert Matches(u, ById(u.id));
    if KeepsToken(u, now) {
      ReplaceWithSelf(users, u);
      UniqueTokenLookup(users, u);
    } else {
      ReplaceKeepsWellFormed(users, u2);
      UniqueTokenLookup(ReplaceUser(users, u2), u2);
    }
  }

  /** After `revoke_token` at `now`, the user's token is refused at every later time. */
  lemma RevokedTokenIsRefused(users: seq<User>, u: User, now: Time, later: Time)
    requires WellFormedTable(users) && u in users && u.token.Some?
    requires now <= later
    ensures WellFormedTable(ReplaceUser(users, RevokeToken(u, now)))
    ensures CheckToken(ReplaceUser(users, RevokeToken(u, now)), u.token.value, later).None?
  {
    var u2 := RevokeToken(u, now);
    SameTokenKeepsWellFormed(users, u, u2);
    var r := ReplaceUser(users, u2);
    ReplaceKeepsWellFormed(users, u2);
    UniqueTokenLookup(r, u2);
  }

  /* ---------------------------------------------------------------- */
  /* The follow relation                                                */
  /* ---------------------------------------------------------------- */

  /** The `followers` table: `(follower_id, followed_id)` pairs. */
  type Follows = set<(UserId, UserId)>

  predicate IsFollowing(rel: Follows, a: UserId, b: UserId) {
    (a, b) in rel
  }

  /** `following_count`: how many users `a` follows. */
  function FollowingCount(rel: Follows, a: UserId): (r: nat)
    ensures r == 0 <==> forall b: UserId :: !IsFollowing(rel, a, b)
  {
    var s := set p | p in rel && p.0 == a;
    if s != {} then
      var p :| p in s;
      assert IsFollowing(rel, a, p.1);
      |s|
    else
      assert forall b: UserId :: IsFollowing(rel, a, b) ==> (a, b) in s;
      |s|
  }

  /** `followers_count`: how many users follow `b`. */
  function FollowersCount(rel: Follows, b: UserId): (r: nat)
    ensures r == 0 <==> forall a: UserId :: !IsFollowing(rel, a, b)
  {
    var s := set p | p in rel && p.1 == b;
    if s != {} then
      var p :| p in s;
      assert IsFollowing(rel, p.0, b);
      |s|
    else
      assert forall a: UserId :: IsFollowing(rel, a, b) ==> (a, b) in s;
      |s|
  }

  /** `follow`: adds the pair unless it is there already; a second follow changes nothing. */
  function Follow(rel: Follows, a: UserId, b: UserId): (r: Follows)
    ensures IsFollowing(r, a, b)
    ensures forall p | p != (a, b) :: p in r <==> p in rel
  {
    if IsFollowing(rel, a, b) then rel else rel + {(a, b)}
  }

  /** `unfollow`: removes the pair if it is there; every other pair stays. */
  function Unfollow(rel: Follows, a: UserId, b: UserId): (r: Follows)
    ensures !IsFollowing(r, a, b)
    ensures forall p | p != (a, b) :: p in r <==> p in rel
    ensures !IsFollowing(rel, a, b) ==> r == rel
  {
    if IsFollowing(rel, a, b) then rel - {(a, b)} else rel
  }

  /** A second follow of the same user changes nothing. */
  lemma FollowIsIdempotent(rel: Follows, a: UserId, b: UserId)
    ensures Follow(Follow(rel, a, b), a, b) == Follow(rel, a, b)
  {
  }

  /** Unfollowing undoes a follow of someone not followed before. */
  lemma UnfollowUndoesFollow(rel: Follows, a: UserId, b: UserId)
    requires !IsFollowing(rel, a, b)
    ensures Unfollow(Follow(rel, a, b), a, b) == rel
  {
  }

  /**
   * A new follow raises `a`'s following count and `b`'s follower count by
   * one and leaves every other user's following count alone.
   */
  lemma FollowCounts(rel: Follows, a: UserId, b: UserId)
    requires !IsFollowing(rel, a, b)
    ensures FollowingCount(Follow(rel, a, b), a) == FollowingCount(rel, a) + 1
    ensures FollowersCount(Follow(rel, a, b), b) == FollowersCount(rel, b) + 1
    ensures forall c | c != a :: FollowingCount(Follow(rel, a, b), c) == FollowingCount(rel, c)
  {
    var r := Follow(rel, a, b);
    assert (set p | p in r && p.0 == a) == (set p | p in rel && p.0 == a) + {(a, b)};
    assert (set p | p in r && p.1 == b) == (set p | p in rel && p.1 == b) + {(a, b)};
    forall c | c != a
      ensures FollowingCount(r, c) == FollowingCount(rel, c)
    {
      assert (set p | p in r && p.0 == c) == (set p | p in rel && p.0 == c);
    }
  }

  /** Unfollowing someone followed lowers both counts by one. */
  lemma UnfollowCounts(rel: Follows, a: UserId, b: UserId)
    requires IsFollowing(rel, a, b)
    ensures FollowingCount(Unfollow(rel, a, b), a) + 1 == FollowingCount(rel, a)
    ensures FollowersCount(Unfollow(rel, a, b), b) + 1 == FollowersCount(rel, b)
  {
    var r := Unfollow(rel, a, b);
    assert (set p | p in rel && p.0 == a) == (set p | p in r && p.0 == a) + {(a, b)};
    assert (set p | p in rel && p.1 == b) == (set p | p in r && p.1 == b) + {(a, b)};
  }

  /* ---------------------------------------------------------------- */
  /* Notifications                                                      */
  /* ---------------------------------------------------------------- */

  /** A JSON value, as `json.dumps` stores it and `json.loads` gives it back. */
  datatype Json =
    | JNull
    | JBool(b: bool)
    | JInt(i: int)
    | JString(s: string)
    | JArray(items: seq<Json>)
    | JObject(members: seq<(string, Json)>)

  datatype Notification = Notification(userId: UserId, name: string, timestamp: Time, payload: Json)

  predicate IsNamed(n: Notification, user: UserId, name: string) {
    n.userId == user && n.name == name
  }

  /** The notifications of `user` called `name`, in table order. */
  function Named(ns: seq<Notification>, user: UserId, name: string): seq<Notification> {
    if ns == [] then []
    else (if IsNamed(ns[0], user, name) then [ns[0]] else []) + Named(ns[1..], user, name)
  }

  /** `self.notifications.delete().where(Notification.name == name)`. */
  function Without(ns: seq<Notification>, user: UserId, name: string): seq<Notification> {
    if ns == [] then []
    else (if IsNamed(ns[0], user, name) then [] else [ns[0]]) + Without(ns[1..], user, name)
  }

  /** `add_notification(name, data)` at `now`: the old ones of that name go, the new one is appended. */
  function WithNotification(ns: seq<Notification>, user: UserId, name: string, payload: Json, now: Time): seq<Notification> {
    Without(ns, user, name) + [Notification(user, name, now, payload)]
  }

  /** The rows the delete leaves: exactly the ones not of that user and name. */
  lemma {:induction false} WithoutMembers(ns: seq<Notification>, user: UserId, name: string, n: Notification)
    ensures n in Without(ns, user, name) <==> n in ns && !IsNamed(n, user, name)
  {
    if ns != [] {
      assert ns == [ns[0]] + ns[1..];
      WithoutMembers(ns[1..], user, name, n);
    }
  }

  /**
   * After `add_notification` the new notification comes last, no earlier
   * one has that user and name, and every other notification is still there.
   */
  lemma NotificationAppended(ns: seq<Notification>, user: UserId, name: string, payload: Json, now: Time)
    ensures var r := WithNotification(ns, user, name, payload, now);
      r != [] && r[|r| - 1] == Notification(user, name, now, payload) &&
      (forall n | n in r[..|r| - 1] :: !IsNamed(n, user, name)) &&
      (forall n | n in ns && !IsNamed(n, user, name) :: n in r)
  {
    var r := WithNotification(ns, user, name, payload, now);
    assert r[..|r| - 1] == Without(ns, user, name);
    forall n
      ensures n in Without(ns, user, name) <==> n in ns && !IsNamed(n, user, name)
    {
      WithoutMembers(ns, user, name, n);
    }
  }

  lemma {:induction false} NamedDistributes(a: seq<Notification>, b: seq<Notification>, user: UserId, name: string)
    ensures Named(a + b, user, name) == Named(a, user, name) + Named(b, user, name)
  {
    if a != [] {
      assert (a + b)[0] == a[0];
      assert (a + b)[1..] == a[1..] + b;
      NamedDistributes(a[1..], b, user, name);
    } else {
      assert a + b == b;
    }
  }

  lemma {:induction false} NamedWithout(ns: seq<Notification>, user: UserId, name: string, user2: UserId, name2: string)
    ensures Named(Without(ns, user, name), user2, name2)
            == if user2 == user && name2 == name then [] else Named(ns, user2, name2)
  {
    if ns != [] {
      var head := if IsNamed(ns[0], user, name) then [] else [ns[0]];
      NamedDistributes(head, Without(ns[1..], user, name), user2, name2);
      NamedWithout(ns[1..], user, name, user2, name2);
    }
  }

  /**
   * After `add_notification`, the user has exactly one notification of that
   * name, the new one; the notifications of any other user or name are
   * exactly those there were before.
   */
  lemma AddNotificationReplaces(ns: seq<Notification>, user: UserId, name: string, payload: Json, now: Time)
    ensures Named(WithNotification(ns, user, name, payload, now), user, name) == [Notification(user, name, now, payload)]
    ensures forall user2, name2 | user2 != user || name2 != name ::
      Named(WithNotification(ns, user, name, payload, now), user2, name2) == Named(ns, user2, name2)
  {
    var n := Notification(user, name, now, payload);
    NamedDistributes(Without(ns, user, name), [n], user, name);
    NamedWithout(ns, user, name, user, name);
    forall user2, name2 | user2 != user || name2 != name
      ensures Named(WithNotification(ns, user, name, payload, now), user2, name2) == Named(ns, user2, name2)
    {
      NamedDistributes(Without(ns, user, name), [n], user2, name2);
      NamedWithout(ns, user, name, user2, name2);
    }
  }

  /* ---------------------------------------------------------------- */
  /* Private messages                                                   */
  /* ---------------------------------------------------------------- */

  datatype Message = Message(senderId: UserId, recipientId: UserId, body: string, timestamp: Time)

  /** `self.last_message_read_time or datetime(1900, 1, 1)`. */
  function LastRead(u: User): Time {
    u.lastMessageReadTime.GetOr(Year1900)
  }

  predicate IsUnread(m: Message, u: User) {
    m.recipientId == u.id && m.timestamp > LastRead(u)
  }

  /** The rows `unread_message_count`'s query selects, in table order. */
  function UnreadMessages(ms: seq<Message>, u: User): (r: seq<Message>)
    ensures |r| <= |ms|
    ensures forall m :: m in r <==> m in ms && IsUnread(m, u)
  {
    if ms == [] then []
    else (if IsUnread(ms[0], u) then [ms[0]] else []) + UnreadMessages(ms[1..], u)
  }

  /** `unread_message_count`. */
  function UnreadMessageCount(ms: seq<Message>, u: User): (r: nat)
    ensures r <= |ms|
    ensures r == 0 <==> forall m | m in ms :: !IsUnread(m, u)
  {
    var un := UnreadMessages(ms, u);
    if un != [] then
      assert un[0] in un;
      |un|
    else |un|
  }

  /** Delivering one message raises the count by one exactly when it is unread for `u`. */
  lemma {:induction false} UnreadCountAfterDelivery(ms: seq<Message>, m: Message, u: User)
    ensures UnreadMessageCount(ms + [m], u) == UnreadMessageCount(ms, u) + (if IsUnread(m, u) then 1 else 0)
  {
    if ms != [] {
      assert (ms + [m])[1..] == ms[1..] + [m];
      UnreadCountAfterDelivery(ms[1..], m, u);
    }
  }

  /** Once the last-read time is at or after every message, nothing is unread. */
  lemma {:induction false} ReadingClearsCount(ms: seq<Message>, u: User, t: Time)
    requires u.lastMessageReadTime == Some(t)
    requires forall m | m in ms :: m.timestamp <= t
    ensures UnreadMessageCount(ms, u) == 0
  {
    if ms != [] {
      assert ms[0] in ms;
      ReadingClearsCount(ms[1..], u, t);
    }
  }

  /* ---------------------------------------------------------------- */
  /* Posts, tasks and background jobs                                   */
  /* ---------------------------------------------------------------- */

  datatype Post = Post(id: nat, body: string, timestamp: Time, userId: UserId)

  /** `user.posts.select()`, in table order. */
  function PostsOf(posts: seq<Post>, user: UserId): (r: seq<Post>)
    ensures forall p :: p in r <==> p in posts && p.userId == user
  {
    if posts == [] then []
    else (if posts[0].userId == user then [posts[0]] else []) + PostsOf(posts[1..], user)
  }

  datatype TaskRow = TaskRow(id: string, name: string, description: Option<string>, userId: UserId, complete: bool)

  /** Every task row is stored under its own primary key. */
  predicate TasksKeyed(tasks: map<string, TaskRow>) {
    forall k | k in tasks :: tasks[k].id == k
  }

  /** `get_tasks_in_progress`: the user's task rows not yet complete. */
  function TasksInProgress(tasks: map<string, TaskRow>, user: UserId): (r: set<TaskRow>)
    ensures r <= tasks.Values
    ensures forall t | t in r :: t.userId == user && !t.complete
    ensures forall k | k in tasks && tasks[k].userId == user && !tasks[k].complete :: tasks[k] in r
  {
    set t | t in tasks.Values && t.userId == user && !t.complete
  }

  /** A task whose row is complete is no longer reported as in progress. */
  lemma CompleteTaskLeavesProgress(tasks: map<string, TaskRow>, key: string, user: UserId)
    requires TasksKeyed(tasks) && key in tasks && tasks[key].complete
    ensures forall t | t in TasksInProgress(tasks, user) :: t.id != key
  {
    forall t | t in TasksInProgress(tasks, user)
      ensures t.id != key
    {
      var k :| k in tasks && tasks[k] == t;
    }
  }

  /** An RQ job: its id and the `meta` dictionary the worker writes progress into. */
  class Job {
    const id: string
    var meta: map<string, int>

    constructor (id: string)
      ensures this.id == id && meta == map[]
    {
      this.id := id;
      meta := map[];
    }
  }

  /** `Task.get_progress`, given what `get_rq_job` found: no job means finished. */
  function GetProgress(job: Job?): (p: int)
    reads job
    ensures job == null ==> p == 100
    ensures job != null && "progress" !in job.meta ==> p == 0
    ensures job != null && "progress" in job.meta ==> p == job.meta["progress"]
  {
    if job == null then 100
    else if "progress" in job.meta then job.meta["progress"]
    else 0
  }

  /* ---------------------------------------------------------------- */
  /* The database                                                       */
  /* ---------------------------------------------------------------- */

  class Database {
    var users: seq<User>
    var nextId: UserId
    var followers: Follows
    var posts: seq<Post>
    var messages: seq<Message>
    var notifications: seq<Notification>
    var tasks: map<string, TaskRow>

    ghost predicate Valid()
      reads this
    {
      WellFormedTable(users) && (forall u | u in users :: u.id < nextId) && TasksKeyed(tasks)
    }

    constructor ()
      ensures Valid()
      ensures users == [] && nextId == 0 && followers == {} && posts == []
      ensures messages == [] && notifications == [] && tasks == map[]
    {
      users, nextId, followers, posts := [], 0, {}, [];
      messages, notifications, tasks := [], [], map[];
    }

    /** `db.session.get(User, id)`. */
    function Get(id: UserId): Option<User>
      reads this
    {
      Lookup(users, ById(id))
    }

    /** `db.session.add(user)` and commit: the row gets the next id. */
    method AddUser(u: User) returns (added: User)
      requires Valid() && u.token.None?
      modifies this`users, this`nextId
      ensures Valid()
      ensures added == u.(id := old(nextId))
      ensures users == old(users) + [added] && nextId == old(nextId) + 1
    {
      added := u.(id := nextId);
      users := users + [added];
      nextId := nextId + 1;
    }

    /** Committing a changed row of an existing user that keeps its token. */
    method Save(u: User)
      requires Valid() && Get(u.id).Some? && u.token == Get(u.id).value.token
      requires u.token.Some? ==> u.tokenExpiration.Some?
      modifies this`users
      ensures Valid()
      ensures users == ReplaceUser(old(users), u) && Get(u.id) == Some(u)
    {
      SameTokenKeepsWellFormed(users, Get(u.id).value, u);
      users := ReplaceUser(users, u);
    }

    /** `user.follow(other)`. */
    method FollowUser(me: UserId, other: UserId)
      modifies this`followers
      ensures followers == Follow(old(followers), me, other)
    {
      if !IsFollowing(followers, me, other) {
        followers := followers + {(me, other)};
      }
    }

    /** `user.unfollow(other)`. */
    method UnfollowUser(me: UserId, other: UserId)
      modifies this`followers
      ensures followers == Unfollow(old(followers), me, other)
    {
      if IsFollowing(followers, me, other) {
        followers := followers - {(me, other)};
      }
    }

    /** `user.get_token(expires_in)` at `now`; `newToken` stands for `secrets.token_hex(16)`. */
    method GetToken(me: UserId, now: Time, expiresIn: int, newToken: string) returns (token: string)
      requires Valid() && Get(me).Some?
      requires forall v | v in users :: v.token != Some(newToken)
      modifies this`users
      ensures Valid()
      ensures users == ReplaceUser(old(users), IssueToken(old(Get(me)).value, now, expiresIn, newToken).0)
      ensures token == IssueToken(old(Get(me)).value, now, expiresIn, newToken).1
    {
      var u := Get(me).value;
      if Truthy(u.token) && u.tokenExpiration.value > now + 60 {
        ReplaceWithSelf(users, u);
        token := u.token.value;
        return;
      }
      var u2 := u.(token := Some(newToken), tokenExpiration := Some(now + expiresIn));
      ReplaceKeepsWellFormed(users, u2);
      users := ReplaceUser(users, u2);
      token := newToken;
    }

    /** `user.revoke_token()` at `now`. */
    method RevokeUserToken(me: UserId, now: Time)
      requires Valid() && Get(me).Some?
      modifies this`users
      ensures Valid()
      ensures users == ReplaceUser(old(users), RevokeToken(old(Get(me)).value, now))
    {
      Save(RevokeToken(Get(me).value, now));
    }

    /** `user.add_notification(name, data)` at `now`; returns the new row. */
    method AddNotification(me: UserId, name: string, payload: Json, now: Time) returns (n: Notification)
      modifies this`notifications
      ensures n == Notification(me, name, now, payload)
      ensures notifications == WithNotification(old(notifications), me, name, payload, now)
    {
      notifications := Without(notifications, me, name);
      n := Notification(me, name, now, payload);
      notifications := notifications + [n];
    }
  }
}

/**
 * The users endpoints of the REST API: the page-size clamp of the collection
 * endpoints, and the checks `create_user` and `update_user` run, in the
 * order they run them, before touching the user table.
 */
module ApiUsers {
  import opened Prelude
  import opened Models
  import opened ApiErrors
  import opened ApiAuth

  const DefaultPerPage: int := 10
  const MaxPerPage: int := 100

  /**
   * `min(request.args.get('per_page', 10, type=int), 100)`: `requested` is
   * the argument when it is present and parses as an integer.
   */
  function PerPage(requested: Option<int>): (r: int)
    ensures r <= MaxPerPage
    ensures requested.None? ==> r == DefaultPerPage
    ensures requested.Some? ==> r <= requested.value && (r == requested.value || r == MaxPerPage)
  {
    var n := requested.GetOr(DefaultPerPage);
    if n < MaxPerPage then n else MaxPerPage
  }

  const MissingFields: string := "must include username, email and password fields"
  const UsernameTaken: string := "please use a different username"
  const EmailTaken: string := "please use a different email address"

  /** What a users endpoint answers. */
  datatype Reply =
    | Rejected(error: ErrorReply)
    | Created(user: User)
    | Updated(user: User)

  /** The HTTP status of a reply. */
  function Status(r: Reply): int {
    match r
    case Rejected(e) => e.status
    case Created(_) => 201
    case Updated(_) => 200
  }

  /** `create_user`'s checks: the rejection message of the first that fails, if any. */
  function CreateUserCheck(users: seq<User>, data: map<string, string>): (r: Option<string>)
    ensures r.Some? ==> r.value == MissingFields || r.value == UsernameTaken || r.value == EmailTaken
    ensures r == Some(UsernameTaken) ==> "username" in data && exists v | v in users :: v.username == data["username"]
    ensures r == Some(EmailTaken) ==> "email" in data && exists v | v in users :: v.email == data["email"]
  {
    if "username" !in data || "email" !in data || "password" !in data then Some(MissingFields)
    else if Lookup(users, ByUsername(data["username"])).Some? then Some(UsernameTaken)
    else if Lookup(users, ByEmail(data["email"])).Some? then Some(EmailTaken)
    else None
  }

  /** A request without all three fields is refused whatever the table holds: no lookup decides it. */
  lemma MissingFieldsComeFirst(users1: seq<User>, users2: seq<User>, data: map<string, string>)
    requires "username" !in data || "email" !in data || "password" !in data
    ensures CreateUserCheck(users1, data) == CreateUserCheck(users2, data) == Some(MissingFields)
  {
  }

  /**
   * The checks pass exactly when all three fields are present and neither
   * the username nor the e-mail address belongs to any user; a taken
   * username is reported even when the address is taken too.
   */
  lemma CreateUserCheckExactly(users: seq<User>, data: map<string, string>)
    ensures CreateUserCheck(users, data).None? <==>
      "username" in data && "email" in data && "password" in data &&
      (forall v | v in users :: v.username != data["username"] && v.email != data["email"])
    ensures CreateUserCheck(users, data) == Some(UsernameTaken) <==>
      "username" in data && "email" in data && "password" in data &&
      exists v | v in users :: v.username == data["username"]
  {
    if "username" in data && "email" in data && "password" in data {
      var byName := Lookup(users, ByUsername(data["username"]));
      if byName.Some? {
        assert byName.value in users;
      }
    }
  }

  /** The row `create_user` inserts: a blank user filled in by `from_dict(data, new_user=True)`. */
  function NewUser(data: map<string, string>, id: UserId): User {
    ApplyDict(BlankUser(id), data, true)
  }

  /** Inserting the row keeps usernames and e-mail addresses unique. */
  lemma CreateKeepsUnique(users: seq<User>, data: map<string, string>, id: UserId)
    requires UniqueUsernames(users) && UniqueEmails(users)
    requires CreateUserCheck(users, data).None?
    ensures UniqueUsernames(users + [NewUser(data, id)]) && UniqueEmails(users + [NewUser(data, id)])
  {
    CreateUserCheckExactly(users, data);
    AppendKeepsUnique(users, NewUser(data, id));
  }

  /** The new user can authenticate at once with the password the request carried. */
  lemma CreatedUserCanAuthenticate(users: seq<User>, data: map<string, string>, id: UserId)
    requires CreateUserCheck(users, data).None?
    ensures VerifyPassword(users + [NewUser(data, id)], data["username"], data["password"]) == Some(NewUser(data, id))
  {
    LookupAppend(users, NewUser(data, id), ByUsername(data["username"]));
  }

  /**
   * `create_user`: a 400 naming the first failed check, with nothing
   * written; otherwise exactly one new user, returned with status 201.
   */
  method CreateUser(db: Database, data: map<string, string>) returns (reply: Reply)
    requires db.Valid()
    modifies db`users, db`nextId
    ensures db.Valid()
    ensures CreateUserCheck(old(db.users), data).Some? ==>
      reply == Rejected(BadRequest(CreateUserCheck(old(db.users), data).value)) &&
      db.users == old(db.users) && db.nextId == old(db.nextId)
    ensures CreateUserCheck(old(db.users), data).None? ==>
      reply == Created(NewUser(data, old(db.nextId))) && Status(reply) == 201 &&
      db.users == old(db.users) + [NewUser(data, old(db.nextId))] && db.nextId == old(db.nextId) + 1
  {
    if "username" !in data || "email" !in data || "password" !in data {
      return Rejected(BadRequest(MissingFields));
    }
    if Lookup(db.users, ByUsername(data["username"])).Some? {
      return Rejected(BadRequest(UsernameTaken));
    }
    if Lookup(db.users, ByEmail(data["email"])).Some? {
      return Rejected(BadRequest(EmailTaken));
    }
    var user := FromDict(BlankUser(db.nextId), data, true);
    user := db.AddUser(user);
    reply := Created(user);
  }

  /** `update_user`'s conflict checks, for the current row `user`. */
  function UpdateUserCheck(users: seq<User>, user: User, data: map<string, string>): (r: Option<string>)
    ensures r.Some? ==> r.value == UsernameTaken || r.value == EmailTaken
    ensures r == Some(UsernameTaken) ==> "username" in data && data["username"] != user.username
    ensures r == Some(EmailTaken) ==> "email" in data && data["email"] != user.email
  {
    if "username" in data && data["username"] != user.username && Lookup(users, ByUsername(data["username"])).Some? then
      Some(UsernameTaken)
    else if "email" in data && data["email"] != user.email && Lookup(users, ByEmail(data["email"])).Some? then
      Some(EmailTaken)
    else None
  }

  /** Re-sending one's own username and address never conflicts. */
  lemma OwnValuesNeverConflict(users: seq<User>, user: User, data: map<string, string>)
    requires "username" in data ==> data["username"] == user.username
    requires "email" in data ==> data["email"] == user.email
    ensures UpdateUserCheck(users, user, data).None?
  {
  }

  /** A reported conflict names a value that another user holds. */
  lemma ConflictIsWithAnotherUser(users: seq<User>, user: User, data: map<string, string>)
    requires UpdateUserCheck(users, user, data).Some?
    ensures UpdateUserCheck(users, user, data) == Some(UsernameTaken) ==>
      exists v | v in users :: v.username == data["username"] && v.username != user.username
    ensures UpdateUserCheck(users, user, data) == Some(EmailTaken) ==>
      exists v | v in users :: v.email == data["email"] && v.email != user.email
  {
    if UpdateUserCheck(users, user, data) == Some(UsernameTaken) {
      assert Lookup(users, ByUsername(data["username"])).value in users;
    } else {
      assert Lookup(users, ByEmail(data["email"])).value in users;
    }
  }

  /** An update that passes the checks keeps usernames and e-mail addresses unique. */
  lemma UpdateKeepsUnique(users: seq<User>, user: User, data: map<string, string>)
    requires UniqueIds(users) && UniqueUsernames(users) && UniqueEmails(users) && user in users
    requires UpdateUserCheck(users, user, data).None?
    ensures UniqueUsernames(ReplaceUser(users, ApplyDict(user, data, false)))
    ensures UniqueEmails(ReplaceUser(users, ApplyDict(user, data, false)))
  {
    var u2 := ApplyDict(user, data, false);
    var r := ReplaceUser(users, u2);
    var k :| 0 <= k < |users| && users[k] == user;
    forall v | v in users && v.id != user.id
      ensures v.username != u2.username && v.email != u2.email
    {
      var i :| 0 <= i < |users| && users[i] == v;
      if "username" in data && data["username"] != user.username {
        assert Lookup(users, ByUsername(data["username"])).None?;
      }
      if "email" in data && data["email"] != user.email {
        assert Lookup(users, ByEmail(data["email"])).None?;
      }
    }
    forall i, j | 0 <= i < |r| && 0 <= j < |r| && i != j
      ensures r[i].username != r[j].username && r[i].email != r[j].email
    {
      if users[i].id == user.id {
        assert users[j] in users;
      } else if users[j].id == user.id {
        assert users[i] in users;
      }
    }
  }

  /**
   * `update_user(id)` on behalf of the authenticated user `currentId`: 403
   * for anybody else's profile and 404 for a missing one, both before
   * anything is read from the request; then 400 on a conflict; otherwise the
   * row is updated by `from_dict(data, new_user=False)`. A refused request
   * writes nothing.
   */
  method UpdateUser(db: Database, currentId: UserId, id: UserId, data: map<string, string>) returns (reply: Reply)
    requires db.Valid()
    modifies db`users
    ensures db.Valid()
    ensures currentId != id ==> reply == Rejected(HandleException(403)) && db.users == old(db.users)
    ensures currentId == id && old(db.Get(id)).None? ==> reply == Rejected(HandleException(404)) && db.users == old(db.users)
    ensures currentId == id && old(db.Get(id)).Some? ==>
      var user := old(db.Get(id)).value;
      (UpdateUserCheck(old(db.users), user, data).Some? ==>
         reply == Rejected(BadRequest(UpdateUserCheck(old(db.users), user, data).value)) && db.users == old(db.users)) &&
      (UpdateUserCheck(old(db.users), user, data).None? ==>
         reply == Updated(ApplyDict(user, data, false)) && Status(reply) == 200 &&
         db.users == ReplaceUser(old(db.users), ApplyDict(user, data, false)))
  {
    if currentId != id {
      return Rejected(HandleException(403));
    }
    var found := db.Get(id);
    if found.None? {
      return Rejected(HandleException(404));
    }
    var user := found.value;
    if "username" in data && data["username"] != user.username && Lookup(db.users, ByUsername(data["username"])).Some? {
      return Rejected(BadRequest(UsernameTaken));
    }
    if "email" in data && data["email"] != user.email && Lookup(db.users, ByEmail(data["email"])).Some? {
      return Rejected(BadRequest(EmailTaken));
    }
    var updated := FromDict(user, data, false);
    db.Save(updated);
    reply := Updated(updated);
  }
}

/**
 * The REST API's authentication callbacks: HTTP Basic credentials checked
 * against the user table, bearer tokens checked with `User.check_token`, and
 * the error replies for a failed check.
 */
module ApiAuth {
  import opened Prelude
  import opened Models
  import opened ApiErrors

  /** `verify_password`: the user of that name, provided the password checks. */
  function VerifyPassword(users: seq<User>, username: string, password: string): (r: Option<User>)
    ensures r.Some? ==> r.value in users && r.value.username == username && CheckPassword(r.value, password)
  {
    var user := Lookup(users, ByUsername(username));
    if user.Some? && CheckPassword(user.value, password) then user else None
  }

  /**
   * With usernames unique, `verify_password` accepts exactly the user with
   * that name whose password checks, and refuses in every other case.
   */
  lemma VerifyPasswordExactly(users: seq<User>, username: string, password: string, u: User)
    requires UniqueUsernames(users)
    ensures VerifyPassword(users, username, password) == Some(u) <==>
      u in users && u.username == username && CheckPassword(u, password)
  {
    if u in users && u.username == username {
      var j :| 0 <= j < |users| && users[j] == u;
      assert Unique(users, ByUsername(username));
      LookupFindsTheOne(users, ByUsername(username), u);
    }
  }

  /** `verify_token`: an empty or missing token fails at once; any other goes to `check_token`. */
  function VerifyToken(users: seq<User>, token: Option<string>, now: Time): (r: Option<User>)
    requires TokensHaveExpiry(users)
    ensures !Truthy(token) ==> r.None?
    ensures Truthy(token) ==> r == CheckToken(users, token.value, now)
  {
    if Truthy(token) then CheckToken(users, token.value, now) else None
  }

  /**
   * A token from `get_token` authenticates its user from the moment it is
   * issued until it expires, and after `revoke_token` it never does again.
   */
  lemma IssuedTokenAuthenticates(users: seq<User>, u: User, now: Time, expiresIn: int, newToken: string, later: Time)
    requires WellFormedTable(users) && u in users && newToken != ""
    requires forall v | v in users :: v.token != Some(newToken)
    requires expiresIn >= 0
    requires now <= later <= IssueToken(u, now, expiresIn, newToken).0.tokenExpiration.value
    ensures WellFormedTable(ReplaceUser(users, IssueToken(u, now, expiresIn, newToken).0))
    ensures VerifyToken(ReplaceUser(users, IssueToken(u, now, expiresIn, newToken).0),
                        Some(IssueToken(u, now, expiresIn, newToken).1), later)
            == Some(IssueToken(u, now, expiresIn, newToken).0)
  {
    IssuedTokenIsAccepted(users, u, now, expiresIn, newToken, later);
  }

  lemma RevokedTokenFailsAuthentication(users: seq<User>, u: User, now: Time, later: Time)
    requires WellFormedTable(users) && u in users && u.token.Some?
    requires now <= later
    ensures WellFormedTable(ReplaceUser(users, RevokeToken(u, now)))
    ensures VerifyToken(ReplaceUser(users, RevokeToken(u, now)), u.token, later).None?
  {
    RevokedTokenIsRefused(users, u, now, later);
  }

  /** `basic_auth_error(status)`: the status passed through, with no message. */
  function BasicAuthError(status: int): (r: ErrorReply)
    ensures r == ErrorResponse(status, None)
    ensures r.status == status && "message" !in r.payload
  {
    ErrorResponse(status, None)
  }

  /** `token_auth_error(status)`: the same reply as a failed Basic check. */
  function TokenAuthError(status: int): (r: ErrorReply)
    ensures r == BasicAuthError(status)
    ensures r.status == status && r.payload == map["error" := StatusName(status)]
  {
    ErrorResponse(status, None)
  }
}

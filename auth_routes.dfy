/**
 * The web front end's authentication views: sign in, register, request a
 * password reset, reset the password. Each view is a method on the
 * browser's session that chooses a page and may log a user in, add a user,
 * change a password, flash a message or send a reset e-mail.
 *
 * A form is given as `None` when `validate_on_submit()` is false (a GET, or a
 * submission the form's validators refuse) and as its data otherwise.
 */
module AuthRoutes {
  import opened Prelude
  import opened Models
  import opened ApiAuth

  /** Where a redirect goes: `url_for('main.index')`, `url_for('auth.login')`, or a URL taken from the request. */
  datatype Target = Index | SignIn | Location(url: string)

  datatype Page = Redirect(target: Target) | Render(template: string)

  /* ---------------------------------------------------------------- */
  /* urlsplit(...).netloc                                               */
  /* ---------------------------------------------------------------- */

  /** The characters `urlsplit` strips from the front: C0 controls and the space, U+0000 to U+0020. */
  predicate IsControlOrSpace(c: char) {
    c <= ' '
  }

  /** The characters `urlsplit` removes everywhere: tab, carriage return and line feed. */
  predicate IsUnsafeUrlChar(c: char) {
    c == '\t' || c == '\r' || c == '\n'
  }

  /** No character of `s` is one `urlsplit` removes. */
  predicate NoUnsafe(s: string) {
    forall i | 0 <= i < |s| :: !IsUnsafeUrlChar(s[i])
  }

  /** `url.lstrip(...)` with the control-or-space characters: what is left is a suffix that starts with neither. */
  function StripLeading(url: string): (r: string)
    ensures |r| <= |url| && r == url[|url| - |r|..]
    ensures r != [] ==> !IsControlOrSpace(r[0])
    ensures url != [] && !IsControlOrSpace(url[0]) ==> r == url
  {
    if url != [] && IsControlOrSpace(url[0]) then StripLeading(url[1..]) else url
  }

  /** Every tab, carriage return and line feed removed; any other character kept, in order. */
  function RemoveUnsafe(url: string): string {
    if url == [] then []
    else (if IsUnsafeUrlChar(url[0]) then [] else [url[0]]) + RemoveUnsafe(url[1..])
  }

  /** What `urlsplit` parses: the argument with leading controls and spaces stripped, then the unsafe characters removed. */
  function Clean(url: string): string {
    RemoveUnsafe(StripLeading(url))
  }

  /** Nothing `urlsplit` removes is left after the removal. */
  lemma {:induction false} RemoveUnsafeIsSafe(url: string)
    ensures NoUnsafe(RemoveUnsafe(url))
  {
    if url != [] {
      RemoveUnsafeIsSafe(url[1..]);
      var r := RemoveUnsafe(url);
      var tail := RemoveUnsafe(url[1..]);
      var head := if IsUnsafeUrlChar(url[0]) then [] else [url[0]];
      assert r == head + tail;
      forall i | 0 <= i < |r|
        ensures !IsUnsafeUrlChar(r[i])
      {
        if i >= |head| {
          assert r[i] == tail[i - |head|];
        }
      }
    }
  }

  /** A URL holding nothing `urlsplit` removes is left as it is. */
  lemma {:induction false} SafeUrlIsKept(url: string)
    requires NoUnsafe(url)
    ensures RemoveUnsafe(url) == url
  {
    if url != [] {
      assert NoUnsafe(url[1..]) by {
        forall i | 0 <= i < |url[1..]|
          ensures !IsUnsafeUrlChar(url[1..][i])
        {
          assert url[1..][i] == url[i + 1];
        }
      }
      SafeUrlIsKept(url[1..]);
      assert !IsUnsafeUrlChar(url[0]);
      assert url == [url[0]] + url[1..];
    }
  }

  lemma {:induction false} RemoveUnsafeAppend(a: string, b: string)
    ensures RemoveUnsafe(a + b) == RemoveUnsafe(a) + RemoveUnsafe(b)
  {
    if a != [] {
      assert (a + b)[0] == a[0];
      assert (a + b)[1..] == a[1..] + b;
      RemoveUnsafeAppend(a[1..], b);
    } else {
      assert a + b == b;
    }
  }

  lemma {:induction false} RemoveOnlyUnsafe(junk: string)
    requires forall i | 0 <= i < |junk| :: IsUnsafeUrlChar(junk[i])
    ensures RemoveUnsafe(junk) == []
  {
    if junk != [] {
      RemoveOnlyUnsafe(junk[1..]);
    }
  }

  lemma {:induction false} StripPadding(pad: string, url: string)
    requires forall i | 0 <= i < |pad| :: IsControlOrSpace(pad[i])
    ensures StripLeading(pad + url) == StripLeading(url)
  {
    if pad != [] {
      assert (pad + url)[0] == pad[0];
      assert (pad + url)[1..] == pad[1..] + url;
      StripPadding(pad[1..], url);
    } else {
      assert pad + url == url;
    }
  }

  predicate IsAsciiLetter(c: char) {
    'a' <= c <= 'z' || 'A' <= c <= 'Z'
  }

  /** Membership in `urllib.parse.scheme_chars`: ASCII letters, digits, `+`, `-` and `.`. */
  predicate IsSchemeChar(c: char) {
    IsAsciiLetter(c) || '0' <= c <= '9' || c == '+' || c == '-' || c == '.'
  }

  /** The first position of `c` in `s`, or `|s|` when there is none (`str.find` without the -1). */
  function Find(s: string, c: char): (k: nat)
    ensures k <= |s|
    ensures k < |s| ==> s[k] == c
    ensures c !in s[..k]
  {
    if s == [] then 0
    else if s[0] == c then 0
    else
      assert s[1..][..Find(s[1..], c)] == s[1..1 + Find(s[1..], c)];
      1 + Find(s[1..], c)
  }

  /** The first position in `s` of `/`, `?` or `#`, or `|s|`: where `_splitnetloc` cuts the authority off. */
  function NetlocEnd(s: string): (k: nat)
    ensures k <= |s|
    ensures forall i | 0 <= i < k :: s[i] != '/' && s[i] != '?' && s[i] != '#'
    ensures k < |s| ==> s[k] == '/' || s[k] == '?' || s[k] == '#'
  {
    if s == [] then 0
    else if s[0] == '/' || s[0] == '?' || s[0] == '#' then 0
    else 1 + NetlocEnd(s[1..])
  }

  /**
   * What `urlsplit` leaves after removing a scheme: the part after the first
   * `:` when a valid scheme precedes it, otherwise everything; always a suffix.
   */
  function AfterScheme(url: string): (r: string)
    ensures |r| <= |url| && r == url[|url| - |r|..]
    ensures r != url ==> |r| < |url| && url[|url| - |r| - 1] == ':' && IsAsciiLetter(url[0])
  {
    var i := Find(url, ':');
    if 0 < i < |url| && IsAsciiLetter(url[0]) && (forall k | 0 <= k < i :: IsSchemeChar(url[k])) then url[i + 1..]
    else url
  }

  /** The netloc of a URL already cleaned: the authority after `//`, up to the path, query or fragment. */
  function SplitNetloc(url: string): (r: string)
    ensures forall i | 0 <= i < |r| :: r[i] != '/' && r[i] != '?' && r[i] != '#'
    ensures forall i | 0 <= i < |r| :: r[i] in url
  {
    var rest := AfterScheme(url);
    if |rest| >= 2 && rest[..2] == "//" then
      var start := |url| - |rest| + 2;
      var r := rest[2..][..NetlocEnd(rest[2..])];
      assert r == url[start..start + |r|];
      assert forall i | 0 <= i < |r| :: r[i] == url[start + i];
      r
    else ""
  }

  /**
   * `urlsplit(url).netloc`: the authority of the cleaned URL. It never holds
   * a path, query or fragment delimiter, nor a character cleaning removes.
   */
  function Netloc(url: string): (r: string)
    ensures forall i | 0 <= i < |r| :: r[i] != '/' && r[i] != '?' && r[i] != '#' && !IsUnsafeUrlChar(r[i])
  {
    RemoveUnsafeIsSafe(StripLeading(url));
    SplitNetloc(Clean(url))
  }

  /**
   * The redirect after a successful sign-in: `next` when it is present,
   * non-empty and names no host, the index page otherwise.
   */
  function NextTarget(next: Option<string>): (t: Target)
    ensures t.Location? <==> Truthy(next) && Netloc(next.value) == ""
    ensures t.Location? ==> next == Some(t.url)
    ensures !t.Location? ==> t == Index
  {
    if !Truthy(next) || Netloc(next.value) != "" then Index else Location(next.value)
  }

  /** Cleaning leaves a URL alone that starts with a printable character and holds nothing it removes. */
  lemma CleanKeepsSafeUrl(url: string)
    requires |url| >= 1 && !IsControlOrSpace(url[0]) && NoUnsafe(url)
    ensures Clean(url) == url
  {
    assert StripLeading(url) == url;
    SafeUrlIsKept(url);
  }

  /** A URL starting with one `/` and no second has no scheme and no authority. */
  lemma SingleSlashHasNoNetloc(path: string)
    requires |path| >= 1 && path[0] == '/' && (|path| == 1 || path[1] != '/')
    ensures SplitNetloc(path) == ""
  {
    assert !IsAsciiLetter(path[0]);
    assert AfterScheme(path) == path;
    if |path| >= 2 {
      assert path[..2][1] == path[1];
    }
  }

  /** A path on this site, one `/` and no second, with nothing cleaning removes, is always followed. */
  lemma LocalPathIsFollowed(path: string)
    requires |path| >= 1 && path[0] == '/' && (|path| == 1 || path[1] != '/')
    requires forall i | 0 <= i < |path| :: !IsUnsafeUrlChar(path[i])
    ensures NextTarget(Some(path)) == Location(path)
  {
    CleanKeepsSafeUrl(path);
    SingleSlashHasNoNetloc(path);
  }

  /** After `//` and a character that does not end the authority, the authority is not empty. */
  lemma HostAfterSlashes(rest: string)
    requires |rest| >= 3 && rest[..2] == "//" && rest[2] != '/' && rest[2] != '?' && rest[2] != '#'
    ensures rest[2..][..NetlocEnd(rest[2..])] != ""
  {
    assert rest[2..][0] == rest[2];
  }

  /** Cleaning keeps a leading `//` and the character after it, when that one is kept. */
  lemma CleanKeepsSlashes(rest: string)
    requires |rest| >= 3 && rest[..2] == "//" && !IsUnsafeUrlChar(rest[2])
    ensures |RemoveUnsafe(rest)| >= 3 && RemoveUnsafe(rest)[..2] == "//" && RemoveUnsafe(rest)[2] == rest[2]
  {
    assert rest == rest[..3] + rest[3..];
    RemoveUnsafeAppend(rest[..3], rest[3..]);
    assert NoUnsafe(rest[..3]);
    SafeUrlIsKept(rest[..3]);
  }

  /** A `next` that reads as `//host...` once cleaned names a host, so it is refused. */
  lemma HostIsRefused(url: string)
    requires |Clean(url)| >= 3 && Clean(url)[..2] == "//"
    requires Clean(url)[2] != '/' && Clean(url)[2] != '?' && Clean(url)[2] != '#'
    ensures Netloc(url) != "" && NextTarget(Some(url)) == Index
  {
    var c := Clean(url);
    assert !IsAsciiLetter(c[0]);
    assert AfterScheme(c) == c;
    HostAfterSlashes(c);
  }

  /** A `next` whose authority starts right after `//` names a host and is never followed. */
  lemma SchemeRelativeUrlIsRefused(url: string)
    requires |url| >= 3 && url[..2] == "//" && url[2] != '/' && url[2] != '?' && url[2] != '#'
    requires !IsUnsafeUrlChar(url[2])
    ensures Netloc(url) != "" && NextTarget(Some(url)) == Index
  {
    assert StripLeading(url) == url;
    CleanKeepsSlashes(url);
    HostIsRefused(url);
  }

  /**
   * Tabs, carriage returns and line feeds between the slashes do not smuggle
   * a host past the check: `/<junk>/host` is read as `//host` and refused.
   */
  lemma UnsafeCharsDoNotHideHost(junk: string, host: string)
    requires forall i | 0 <= i < |junk| :: IsUnsafeUrlChar(junk[i])
    requires |host| >= 1 && host[0] != '/' && host[0] != '?' && host[0] != '#' && !IsUnsafeUrlChar(host[0])
    ensures NextTarget(Some("/" + junk + "/" + host)) == Index
  {
    var url := "/" + junk + "/" + host;
    assert url == ("/" + junk) + ("/" + host);
    assert StripLeading(url) == url;
    RemoveUnsafeAppend("/" + junk, "/" + host);
    RemoveUnsafeAppend("/", junk);
    RemoveOnlyUnsafe(junk);
    RemoveUnsafeAppend("/", host);
    assert RemoveUnsafe("/") == "/";
    var h := RemoveUnsafe(host);
    assert h == [host[0]] + RemoveUnsafe(host[1..]);
    assert Clean(url) == "//" + h;
    HostIsRefused(url);
  }

  /** Leading controls and spaces do not change the netloc: `" //host"` names `host` just as `"//host"` does. */
  lemma PaddingKeepsNetloc(pad: string, url: string)
    requires forall i | 0 <= i < |pad| :: IsControlOrSpace(pad[i])
    ensures Netloc(pad + url) == Netloc(url)
  {
    StripPadding(pad, url);
  }

  /** So a `//host...` URL behind leading spaces or controls is refused as well. */
  lemma PaddedHostIsRefused(pad: string, url: string)
    requires forall i | 0 <= i < |pad| :: IsControlOrSpace(pad[i])
    requires |url| >= 3 && url[..2] == "//" && url[2] != '/' && url[2] != '?' && url[2] != '#'
    requires !IsUnsafeUrlChar(url[2])
    ensures NextTarget(Some(pad + url)) == Index
  {
    PaddingKeepsNetloc(pad, url);
    SchemeRelativeUrlIsRefused(url);
  }

  lemma {:induction false} FindAfterPrefix(prefix: string, c: char, rest: string)
    requires c !in prefix
    ensures Find(prefix + [c] + rest, c) == |prefix|
  {
    if prefix != [] {
      assert (prefix + [c] + rest)[1..] == prefix[1..] + [c] + rest;
      FindAfterPrefix(prefix[1..], c, rest);
    }
  }

  /** `urlsplit` strips a well-formed scheme and its colon. */
  lemma SchemeIsStripped(scheme: string, rest: string)
    requires |scheme| >= 1 && IsAsciiLetter(scheme[0])
    requires forall k | 0 <= k < |scheme| :: IsSchemeChar(scheme[k])
    ensures AfterScheme(scheme + ":" + rest) == rest
  {
    var url := scheme + ":" + rest;
    assert ':' !in scheme by {
      forall k | 0 <= k < |scheme|
        ensures scheme[k] != ':'
      {
        assert IsSchemeChar(scheme[k]);
      }
    }
    FindAfterPrefix(scheme, ':', rest);
    forall k | 0 <= k < |scheme|
      ensures IsSchemeChar(url[k])
    {
      assert url[k] == scheme[k];
    }
    assert url[0] == scheme[0];
    assert url[|scheme| + 1..] == rest;
  }

  /** A scheme and its colon hold no character cleaning removes. */
  lemma SchemeIsSafe(scheme: string)
    requires forall k | 0 <= k < |scheme| :: IsSchemeChar(scheme[k])
    ensures RemoveUnsafe(scheme + ":") == scheme + ":"
  {
    var p := scheme + ":";
    forall i | 0 <= i < |p|
      ensures !IsUnsafeUrlChar(p[i])
    {
      if i < |scheme| {
        assert p[i] == scheme[i];
      }
    }
    assert NoUnsafe(p);
    SafeUrlIsKept(p);
  }

  /** Cleaning a URL with a well-formed scheme leaves the scheme and the colon alone. */
  lemma CleanAfterScheme(scheme: string, rest: string)
    requires |scheme| >= 1 && IsAsciiLetter(scheme[0])
    requires forall k | 0 <= k < |scheme| :: IsSchemeChar(scheme[k])
    ensures Clean(scheme + ":" + rest) == scheme + ":" + RemoveUnsafe(rest)
  {
    var url := scheme + ":" + rest;
    assert url[0] == scheme[0];
    assert StripLeading(url) == url;
    RemoveUnsafeAppend(scheme + ":", rest);
    SchemeIsSafe(scheme);
  }

  /** After a well-formed scheme, `//` and a host character, the authority is not empty. */
  lemma SchemeHostIsSplit(scheme: string, rest: string)
    requires |scheme| >= 1 && IsAsciiLetter(scheme[0])
    requires forall k | 0 <= k < |scheme| :: IsSchemeChar(scheme[k])
    requires |rest| >= 3 && rest[..2] == "//" && rest[2] != '/' && rest[2] != '?' && rest[2] != '#'
    ensures SplitNetloc(scheme + ":" + rest) != ""
  {
    SchemeIsStripped(scheme, rest);
    HostAfterSlashes(rest);
  }

  /** Neither is a `next` of the form `scheme://host...`. */
  lemma AbsoluteUrlIsRefused(scheme: string, rest: string)
    requires |scheme| >= 1 && IsAsciiLetter(scheme[0])
    requires forall k | 0 <= k < |scheme| :: IsSchemeChar(scheme[k])
    requires |rest| >= 3 && rest[..2] == "//" && rest[2] != '/' && rest[2] != '?' && rest[2] != '#'
    requires !IsUnsafeUrlChar(rest[2])
    ensures Netloc(scheme + ":" + rest) != "" && NextTarget(Some(scheme + ":" + rest)) == Index
  {
    CleanAfterScheme(scheme, rest);
    CleanKeepsSlashes(rest);
    SchemeHostIsSplit(scheme, RemoveUnsafe(rest));
  }

  /* ---------------------------------------------------------------- */
  /* The views                                                          */
  /* ---------------------------------------------------------------- */

  datatype LoginForm = LoginForm(username: string, password: string, rememberMe: bool)
  datatype RegistrationForm = RegistrationForm(username: string, email: string, password: string)

  const InvalidLogin: string := "Invalid username or password"
  const Registered: string := "Congratulations, you are now a registered user!"
  const CheckYourEmail: string := "Check your email for the instructions to reset your password"
  const PasswordWasReset: string := "Your password has been reset."

  /**
   * The sign-in check: the user of that name, provided the password checks.
   * It is the same lookup-then-check as the API's Basic authentication.
   */
  function Authenticate(users: seq<User>, form: LoginForm): (r: Option<User>)
    ensures r.Some? ==> r.value in users && r.value.username == form.username && CheckPassword(r.value, form.password)
  {
    VerifyPassword(users, form.username, form.password)
  }

  /** The row `register` inserts. */
  function Account(form: RegistrationForm, id: UserId): User {
    SetPassword(BlankUser(id).(username := form.username, email := form.email), form.password)
  }

  /** A freshly registered user can sign in with the password just chosen, and with no other. */
  lemma RegisteredUserCanSignIn(users: seq<User>, form: RegistrationForm, id: UserId, password: string, remember: bool)
    requires Lookup(users, ByUsername(form.username)).None?
    ensures Authenticate(users + [Account(form, id)], LoginForm(form.username, password, remember)).Some?
            <==> password == form.password
    ensures password == form.password ==>
      Authenticate(users + [Account(form, id)], LoginForm(form.username, password, remember)) == Some(Account(form, id))
  {
    LookupAppend(users, Account(form, id), ByUsername(form.username));
  }

  /**
   * `User.verify_reset_password_token`: `None` when decoding failed, else the
   * row with the decoded id, if any.
   */
  function ResetUser(users: seq<User>, decoded: Option<UserId>): (r: Option<User>)
    ensures r.Some? ==> decoded.Some? && r.value in users && r.value.id == decoded.value
    ensures r.None? <==> decoded.None? || forall v | v in users :: v.id != decoded.value
  {
    if decoded.None? then None else Lookup(users, ById(decoded.value))
  }

  /**
   * After a reset the user signs in with the new password and no longer with
   * any other, given the table's unique ids and usernames.
   */
  lemma ResetPasswordTakesEffect(users: seq<User>, u: User, password: string, attempt: string, remember: bool)
    requires WellFormedTable(users) && UniqueUsernames(users) && u in users
    ensures Authenticate(ReplaceUser(users, SetPassword(u, password)), LoginForm(u.username, attempt, remember)).Some?
            <==> attempt == password
  {
    var u2 := SetPassword(u, password);
    var r := ReplaceUser(users, u2);
    SameTokenKeepsWellFormed(users, u, u2);
    assert u2 in r by {
      ReplaceKeepsWellFormed(users, u2);
    }
    forall i, j | 0 <= i < |r| && 0 <= j < |r| && Matches(r[i], ByUsername(u.username)) && Matches(r[j], ByUsername(u.username))
      ensures i == j
    {
      var k :| 0 <= k < |users| && users[k] == u;
      assert r[i].username == users[i].username && r[j].username == users[j].username;
    }
    LookupFindsTheOne(r, ByUsername(u.username), u2);
  }

  /**
   * One browser's session with the application: who is signed in
   * (`current_user`; `None` while anonymous), whether the sign-in is
   * remembered, the messages flashed to it, and the users a reset e-mail
   * was sent to on its behalf.
   */
  class WebSession {
    const db: Database
    var current: Option<UserId>
    var remember: bool
    var flashes: seq<string>
    var resetMails: seq<UserId>

    constructor (db: Database)
      ensures this.db == db && current == None && !remember && flashes == [] && resetMails == []
    {
      this.db := db;
      current, remember, flashes, resetMails := None, false, [], [];
    }

    /**
     * `login`: a signed-in user goes to the index; bad credentials flash
     * the error and go back to the sign-in page with nobody signed in; good
     * ones sign the user in and follow `next` only when it stays on this site.
     */
    method Login(form: Option<LoginForm>, next: Option<string>) returns (page: Page)
      modifies this`current, this`remember, this`flashes
      ensures old(current).Some? ==>
        page == Redirect(Index) && current == old(current) && remember == old(remember) && flashes == old(flashes)
      ensures old(current).None? && form.None? ==>
        page == Render("auth/login.html") && current == None && remember == old(remember) && flashes == old(flashes)
      ensures old(current).None? && form.Some? && Authenticate(db.users, form.value).None? ==>
        page == Redirect(SignIn) && current == None && remember == old(remember) && flashes == old(flashes) + [InvalidLogin]
      ensures old(current).None? && form.Some? && Authenticate(db.users, form.value).Some? ==>
        page == Redirect(NextTarget(next)) && current == Some(Authenticate(db.users, form.value).value.id) &&
        remember == form.value.rememberMe && flashes == old(flashes)
    {
      if current.Some? {
        return Redirect(Index);
      }
      if form.None? {
        return Render("auth/login.html");
      }
      var f := form.value;
      var user := Authenticate(db.users, f);
      if user.None? {
        flashes := flashes + [InvalidLogin];
        return Redirect(SignIn);
      }
      current, remember := Some(user.value.id), f.rememberMe;
      page := Redirect(NextTarget(next));
    }

    /**
     * `register`: a valid form adds exactly one user, with its password set,
     * and goes to the sign-in page. A form that validates names a username
     * and an e-mail address no user has yet (the form's own validators check
     * this), so the new row keeps both columns unique.
     */
    method Register(form: Option<RegistrationForm>) returns (page: Page)
      requires db.Valid()
      requires form.Some? ==> forall v | v in db.users :: v.username != form.value.username && v.email != form.value.email
      modifies db`users, db`nextId, this`flashes
      ensures db.Valid()
      ensures UniqueUsernames(old(db.users)) && UniqueEmails(old(db.users)) ==> UniqueUsernames(db.users) && UniqueEmails(db.users)
      ensures current.Some? ==>
        page == Redirect(Index) && db.users == old(db.users) && db.nextId == old(db.nextId) && flashes == old(flashes)
      ensures current.None? && form.None? ==>
        page == Render("auth/register.html") && db.users == old(db.users) && db.nextId == old(db.nextId) && flashes == old(flashes)
      ensures current.None? && form.Some? ==>
        page == Redirect(SignIn) && db.users == old(db.users) + [Account(form.value, old(db.nextId))] &&
        db.nextId == old(db.nextId) + 1 && flashes == old(flashes) + [Registered]
    {
      if current.Some? {
        return Redirect(Index);
      }
      if form.None? {
        return Render("auth/register.html");
      }
      var f := form.value;
      var user := BlankUser(db.nextId).(username := f.username, email := f.email);
      user := SetPassword(user, f.password);
      if UniqueUsernames(db.users) && UniqueEmails(db.users) {
        AppendKeepsUnique(db.users, user.(id := db.nextId));
      }
      user := db.AddUser(user);
      flashes := flashes + [Registered];
      page := Redirect(SignIn);
    }

    /**
     * `reset_password_request`: a valid form always flashes the same message
     * and goes to the sign-in page, so the reply does not reveal whether the
     * address is registered; the e-mail goes out only when it is.
     */
    method ResetPasswordRequest(email: Option<string>) returns (page: Page)
      modifies this`flashes, this`resetMails
      ensures current.Some? ==> page == Redirect(Index) && flashes == old(flashes) && resetMails == old(resetMails)
      ensures current.None? && email.None? ==>
        page == Render("auth/reset_password_request.html") && flashes == old(flashes) && resetMails == old(resetMails)
      ensures current.None? && email.Some? ==>
        page == Redirect(SignIn) && flashes == old(flashes) + [CheckYourEmail] &&
        resetMails == old(resetMails) +
          (if Lookup(db.users, ByEmail(email.value)).Some? then [Lookup(db.users, ByEmail(email.value)).value.id] else [])
    {
      if current.Some? {
        return Redirect(Index);
      }
      if email.None? {
        return Render("auth/reset_password_request.html");
      }
      var user := Lookup(db.users, ByEmail(email.value));
      if user.Some? {
        resetMails := resetMails + [user.value.id];
      }
      flashes := flashes + [CheckYourEmail];
      page := Redirect(SignIn);
    }

    /**
     * `reset_password(token)`; `decoded` is the id the token decodes to, or
     * `None` when decoding raises (a bad signature, an expired token).
     * An invalid link goes to the index and changes no password.
     */
    method ResetPassword(decoded: Option<UserId>, password: Option<string>) returns (page: Page)
      requires db.Valid()
      modifies db`users, this`flashes
      ensures db.Valid()
      ensures current.Some? ==> page == Redirect(Index) && db.users == old(db.users) && flashes == old(flashes)
      ensures current.None? && ResetUser(old(db.users), decoded).None? ==>
        page == Redirect(Index) && db.users == old(db.users) && flashes == old(flashes)
      ensures current.None? && ResetUser(old(db.users), decoded).Some? && password.None? ==>
        page == Render("auth/reset_password.html") && db.users == old(db.users) && flashes == old(flashes)
      ensures current.None? && ResetUser(old(db.users), decoded).Some? && password.Some? ==>
        page == Redirect(SignIn) && flashes == old(flashes) + [PasswordWasReset] &&
        db.users == ReplaceUser(old(db.users), SetPassword(ResetUser(old(db.users), decoded).value, password.value))
    {
      if current.Some? {
        return Redirect(Index);
      }
      var user := if decoded.None? then None else db.Get(decoded.value);
      if user.None? {
        return Redirect(Index);
      }
      if password.None? {
        return Render("auth/reset_password.html");
      }
      db.Save(SetPassword(user.value, password.value));
      flashes := flashes + [PasswordWasReset];
      page := Redirect(SignIn);
    }
  }
}

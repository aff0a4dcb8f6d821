# A verified model of the crawler's driver pool and the microblog's core logic

This repository has two parts. This project models the logic at the centre of each and proves properties of the model.

**The browser-automation client** (`crawler/crawler.py`):
- a FIFO pool of WebDriver handles with a fixed capacity (0 meaning unbounded, as for any `Queue`);
- the per-task step "log in, call the private-message sender if that worked, give the driver back";
- the dispatcher that takes one driver per task from the pool and runs the tasks;
- `main`, which sizes the pool to its task list and closes every driver at the end;
- the random-string generator.

**The Flask microblog** (`microblog/app`):
- the `User` row operations: the follow relation, bearer tokens, one notification per name, `from_dict`, and unread-message counting;
- the index-synchronising commit hooks of `SearchableMixin` and the result order `search` imposes;
- the export background job's progress bookkeeping;
- the REST API's error payloads, its credential and token checks, and the validation order of `create_user` and `update_user`;
- the decisions the sign-in, register and password-reset views make.

The model has one Dafny module per source file or concern:

| module | file | models |
|---|---|---|
| `Prelude` | prelude.dfy | `Option` (Python's `None`) and Python truthiness of an optional string |
| `Crawler` | crawler.dfy | `crawler/crawler.py` |
| `Models` | models.dfy | `User`, `Message`, `Notification`, `Post`, `Task` of `models.py`, and a `Database` class holding the tables |
| `Searchable` | searchable.dfy | `SearchableMixin` of `models.py` and a session with its commit hooks |
| `Tasks` | tasks.dfy | `tasks.py` |
| `ApiErrors` | api_errors.dfy | `api/errors.py` |
| `ApiAuth` | api_auth.dfy | `api/auth.py` |
| `ApiUsers` | api_users.dfy | `api/users.py` |
| `AuthRoutes` | auth_routes.dfy | `auth/routes.py` |

## How state is represented

State the source keeps in mutable objects is held in Dafny classes:
- `WebDriverPool` holds its queue as a field of type `seq<Driver>`;
- `Database` holds the tables;
- `Job` holds the RQ job's `meta`;
- `Session` holds the SQLAlchemy session's pending objects and `_changes`;
- `WebSession` holds who is signed in, the flashed messages and the reset e-mails sent.

Methods on these classes change their fields, and their contracts state the whole new state. Each one is tied to a pure function whose properties are proved as lemmas.

Tables are values:
- The user table is a sequence of rows. A `scalar` query returns the first row that matches.
- The follow table is a set of `(follower, followed)` pairs.
- The task table maps task ids to rows.

Instants are whole seconds. Each oracle in the source becomes a parameter:
- the clock;
- `secrets.token_hex`;
- the decoded reset token;
- a validated form, given as `None` when `validate_on_submit()` is false;
- the pages the browser shows;
- a raised exception.

## Model

| member | source | states |
|---|---|---|
| Crawler.RandomString | crawler/crawler.py:23-25 | the string has 10 characters, each taken from `ascii_letters + digits`, so each is an ASCII letter or digit |
| Crawler.AlphabetIsAsciiAlnum | crawler/crawler.py:24 | the alphabet has 62 characters, all ASCII letters or digits |
| Crawler.EveryStringIsReachable | crawler/crawler.py:23-25 | every 10-character string over the alphabet is produced by some sequence of random choices |
| Crawler.Login | crawler/crawler.py:61-75 | login succeeds exactly when the `h1` text is `Hi, <username>!`; a driver exception counts as failure |
| Crawler.GreetingNamesOneUser | crawler/crawler.py:66-67 | one page never counts as a successful login for two different usernames |
| Crawler.WebDriverPool.constructor | crawler/crawler.py:143-146 | the queue holds exactly `size` distinct, freshly created drivers, in creation order, and nothing has been quit |
| Crawler.WebDriverPool.CreateWebdriver | crawler/crawler.py:148-154 | each call returns a handle no earlier call returned |
| Crawler.WebDriverPool.Acquire | crawler/crawler.py:156-158 | requires a non-empty queue (`get` blocks otherwise); returns the head and removes only it |
| Crawler.WebDriverPool.Release | crawler/crawler.py:160-162 | requires a queue below the `maxsize` set at line 144 unless that is 0, which leaves the queue unbounded (`put` blocks otherwise); appends the driver at the back, so a bounded queue never exceeds `size` |
| Crawler.WebDriverPool.Quit | crawler/crawler.py:168 | records one `quit()` call on the driver |
| Crawler.WebDriverPool.CloseAll | crawler/crawler.py:164-168 | leaves the queue empty and quits exactly the drivers it held, each once, in queue order; drivers that are checked out are not touched |
| Crawler.TaskOutcome | crawler/crawler.py:188-194 | a task completes unless an exception escapes it; on completion `sendAttempted` holds exactly when login succeeded, that is, exactly when `send_private_message` was called; it does not say the message was delivered, since that function only logs its own failures |
| Crawler.ProcessMessageTask | crawler/crawler.py:188-194 | the driver goes back to the pool exactly once on every path (login true, login false, or raises), and the result is the task's outcome |
| Crawler.SendMessagesMultithreaded | crawler/crawler.py:171-185 | one driver is taken from the head for each task; every task's outcome is collected, including those that raised; afterwards the queue holds the same drivers, rotated |
| Crawler.RotationKeepsDrivers | crawler/crawler.py:176-194 | the rotated queue has the same length and the same drivers as before |
| Crawler.MainWith | crawler/crawler.py:197-217 | a pool sized to the task list never blocks, every outcome is collected, and `close_all` quits every driver the pool created exactly once, so none leaks |
| Models.SetPassword | microblog/app/models.py:152-154 | only the password hash changes, and it is a hash made from the new password |
| Models.SetThenCheckPassword | microblog/app/models.py:152-158 | after `set_password(p)`, `check_password` (`Models.CheckPassword`) accepts `p` and nothing else |
| Models.Lookup | microblog/app/models.py:316 | a `scalar` lookup returns a row of the table that matches the key, and returns `None` exactly when no row matches |
| Models.LookupFindsTheOne | microblog/app/models.py:116-130 | on a unique column, the lookup returns the one row with that value |
| Models.ApplyDict | microblog/app/models.py:289-295 | each of username, email and about_me present in `data` is written with its value, and one absent keeps its old value; a new user whose data has a password gets a hash that checks for it, and otherwise the hash is unchanged; the id, last-read time, token and token expiry never change |
| Models.FromDict | microblog/app/models.py:289-295 | the `setattr` loop gives the row in which each of username, email and about_me present in `data` is overwritten, the password is set only for a new user whose data has one, and nothing else changes |
| Models.UpdateKeepsCredentials | microblog/app/models.py:289-295 | with `new_user=False`, the password hash, id, token and token expiry are unchanged |
| Models.CheckToken | microblog/app/models.py:313-322 | a returned user holds the token and it has not expired; `None` means no user holds it or its expiration is before now |
| Models.IssueToken | microblog/app/models.py:297-306 | the row holds the returned token and has an expiry; no column but the token and its expiry changes; a token that is kept leaves the row as it was; otherwise the token is the new one and expires at now+`expires_in` |
| Models.RevokeToken | microblog/app/models.py:308-311 | the expiry is set to a time before now, and no other column changes |
| Models.IssuedTokenIsAccepted | microblog/app/models.py:297-322 | the stored token is reused when set and valid beyond now+60s, and otherwise replaced by a new one expiring at now+`expires_in`; either way `check_token` accepts the returned token at every time from now until its expiry, and the table stays well formed |
| Models.RevokedTokenIsRefused | microblog/app/models.py:308-322 | after `revoke_token` at `now`, `check_token` refuses the user's token at every time from `now` on |
| Models.Follow | microblog/app/models.py:165-178 | afterwards `is_following` (`Models.IsFollowing`) holds, and no other pair changes |
| Models.Unfollow | microblog/app/models.py:170-178 | afterwards `is_following` is false, no other pair changes, and nothing changes at all when the pair was not followed |
| Models.FollowIsIdempotent | microblog/app/models.py:165-168 | a second follow does not change the relation |
| Models.UnfollowUndoesFollow | microblog/app/models.py:165-173 | unfollow undoes a follow of a user not followed before |
| Models.FollowingCount | microblog/app/models.py:186-190 | the count is 0 exactly when the user follows nobody |
| Models.FollowersCount | microblog/app/models.py:180-184 | the count is 0 exactly when nobody follows the user |
| Models.FollowCounts | microblog/app/models.py:165-190 | a new follow raises the follower's `following_count` and the followed user's `followers_count` by one, and leaves every other user's `following_count` alone |
| Models.UnfollowCounts | microblog/app/models.py:170-190 | unfollowing a followed user lowers both counts by one |
| Models.WithoutMembers | microblog/app/models.py:235-236 | the delete keeps exactly the notifications not of that user and name |
| Models.NotificationAppended | microblog/app/models.py:233-239 | after `add_notification` the new notification comes last; no notification before it has that user and name; every notification of another user or name is kept |
| Models.AddNotificationReplaces | microblog/app/models.py:233-239 | afterwards the user has exactly one notification of that name, the new one; the notifications of every other user or name are the same as before |
| Models.UnreadMessages | microblog/app/models.py:225-231 | the counted messages are exactly those sent to the user after the last-read time, which defaults to 1900-01-01 |
| Models.UnreadMessageCount | microblog/app/models.py:225-231 | the count is at most the number of messages, and is 0 exactly when no message is unread for the user |
| Models.UnreadCountAfterDelivery | microblog/app/models.py:225-231 | delivering a message raises the count by one exactly when it is addressed to the user and is after the last-read time |
| Models.ReadingClearsCount | microblog/app/models.py:225-231 | once the last-read time is at or after every message, the count is 0 |
| Models.TasksInProgress | microblog/app/models.py:250-253 | the tasks reported are rows of the task table, each belonging to the user and not complete; every task row of the user that is not complete is reported |
| Models.CompleteTaskLeavesProgress | microblog/app/models.py:250-253 | a complete task is never among the user's tasks in progress |
| Models.GetProgress | microblog/app/models.py:403-406 | no job means progress 100; a job reports the progress recorded in its `meta`, or 0 when none is recorded; that this is the progress last set is carried by `Tasks.SetTaskProgress`, and that a finished export reads 100 by `Tasks.FinishExport` |
| Models.Database.AddUser | microblog/app/api/users.py:76-77 | the row is appended with the next id and the table stays well formed |
| Models.Database.Save | microblog/app/api/users.py:100-101 | the row with that id is replaced, every other row is kept, and the table stays well formed |
| Models.Database.FollowUser | microblog/app/models.py:165-168 | the follow table becomes `Follow` of the old one |
| Models.Database.UnfollowUser | microblog/app/models.py:170-173 | the follow table becomes `Unfollow` of the old one |
| Models.Database.GetToken | microblog/app/models.py:297-306 | the user's row and the returned token are those `IssueToken` gives, and the table stays well formed |
| Models.Database.RevokeUserToken | microblog/app/models.py:308-311 | the user's token expiry becomes one second before now, and nothing else changes |
| Models.Database.AddNotification | microblog/app/models.py:233-239 | the user's old notifications of that name are deleted, the new one is appended, and it is returned |
| Searchable.CallsFor | microblog/app/models.py:56-59 | at most one call per object; which calls is carried by `Searchable.CallsForExactly` |
| Searchable.CallsForExactly | microblog/app/models.py:56-67 | one `after_commit` loop calls the index for exactly its searchable objects, each under its own table's index, with that loop's operation |
| Searchable.IndexCalls | microblog/app/models.py:54-68 | at most one call per changed object; which calls is carried by `Searchable.IndexCallsExactly` |
| Searchable.IndexCallsExactly | microblog/app/models.py:54-68 | a commit issues `add_to_index` for exactly the searchable objects it added or updated, `remove_from_index` for exactly the searchable objects it deleted, and nothing else |
| Searchable.UnsearchableCommitIsSilent | microblog/app/models.py:56-67 | objects that are not searchable cause no index call |
| Searchable.Session.BeforeCommit | microblog/app/models.py:45-51 | `_changes` captures the session's new, dirty and deleted objects |
| Searchable.Session.RunCalls | microblog/app/models.py:56-59 | one loop appends, in list order, the calls `CallsFor` describes |
| Searchable.Session.AfterCommit | microblog/app/models.py:54-68 | the index receives the add, update and delete calls in that order, and `_changes` becomes `None` |
| Searchable.Session.Commit | microblog/app/models.py:78-79 | a commit with both hooks indexes what was pending, then leaves the session empty and `_changes` cleared |
| Searchable.Rank | microblog/app/models.py:39-41 | the `case` value of an id is its first position among the hits, or past the end when it is not a hit |
| Searchable.RankedFromMembers | microblog/app/models.py:40-42 | the query returns exactly the table's rows whose id is among the hits |
| Searchable.RankedFromMultiset | microblog/app/models.py:40-42 | each row hit appears as often as it occurs in the table, and no other row appears |
| Searchable.RankedFromOrdered | microblog/app/models.py:39-42 | the rows come ordered by their id's position among the hits |
| Searchable.Search | microblog/app/models.py:33-42 | fails exactly when the total is non-zero but the page holds no hit (a `CASE` with no `WHEN`); otherwise the total is passed through, and no rows come back when it is 0 |
| Searchable.SearchResults | microblog/app/models.py:33-42 | `([], 0)` when the total is 0; a failure exactly when the total is non-zero and no id was hit on the page, as a page past the last hit gives; otherwise the total is passed through and the rows are exactly the table's rows whose id is a hit, each as often as it occurs in the table, in hit order |
| Tasks.SetTaskProgress | microblog/app/tasks.py:27-37 | without a job nothing changes; with one, `meta` records the progress, the owner has exactly one `task_progress` notification carrying it, other notifications and task rows are kept, and `complete` becomes true at 100 and never goes back to false |
| Tasks.ProgressBounds | microblog/app/tasks.py:56-57 | `100*i//total` lies in 0..100, does not decrease as `i` grows, and is 100 when `i` equals the total |
| Tasks.ReportsNeverDecrease | microblog/app/tasks.py:40-75 | every progress sequence the export reports lies in 0..100, never decreases, ends at 100, and reaches 100 on the last post |
| Tasks.Exported | microblog/app/tasks.py:53-54 | one entry per post, in order, carrying the post's body and timestamp |
| Tasks.ExportLoop | microblog/app/tasks.py:51-57 | `data` gains one entry per post in the given order, `i` equals `len(data)`, and after the `i`-th post the progress is `100*i//total` |
| Tasks.FinishExport | microblog/app/tasks.py:70-74 | progress 100 is set once in the `finally`, and once more before it when the body raised; the task ends complete |
| Tasks.ExportedInOrder | microblog/app/tasks.py:51-54 | the exported entries keep the posts' ascending time order |
| Tasks.ExportFoundUser | microblog/app/tasks.py:44-74 | for a user that exists: progress 0, then one value per post, then 100 (twice when the e-mail raises); the data is every post, exported in order; the job ends at 100 and the task complete, with a single progress notification |
| Tasks.ExportPosts | microblog/app/tasks.py:40-75 | the reported progress sequence is `ExpectedReports`; the data is the user's posts in ascending time order; the e-mail goes out exactly when the user exists and sending does not fail; whatever happens the job ends at 100 and the task is complete |
| Tasks.ExportedTaskLeavesProgress | microblog/app/tasks.py:73-74 | after the export, its task is no longer among the owner's tasks in progress |
| ApiErrors.StatusName | microblog/app/api/errors.py:20 | the standard reason phrase of a known status, `Unknown error` otherwise; the phrases the API actually sends are carried by `ApiErrors.ErrorResponse` and `ApiErrors.AbortReplies` |
| ApiErrors.ErrorResponse | microblog/app/api/errors.py:18-23 | the payload always names the status, has a `message` key exactly when the message is truthy (holding that message), and has no other key; the status is returned unchanged |
| ApiErrors.BadRequest | microblog/app/api/errors.py:25-27 | `error_response(400, m)`: a `Bad Request` reply carrying any non-empty message |
| ApiErrors.HandleException | microblog/app/api/errors.py:29-32 | `error_response(e.code)`: the code and its name, with no `message` key |
| ApiErrors.AbortReplies | microblog/app/api/users.py:85-88 | the 403 and 404 aborts are rendered as `Forbidden` and `Not Found` |
| ApiAuth.VerifyPassword | microblog/app/api/auth.py:24-31 | a returned user has that username and a password that checks |
| ApiAuth.VerifyPasswordExactly | microblog/app/api/auth.py:24-31 | with unique usernames, it returns a user exactly when that user has the username and the password checks, and `None` otherwise |
| ApiAuth.VerifyToken | microblog/app/api/auth.py:39-47 | an absent or empty token gives `None` without any lookup; any other token gives what `check_token` gives; that issued tokens authenticate and revoked ones do not is carried by `ApiAuth.IssuedTokenAuthenticates` and `ApiAuth.RevokedTokenFailsAuthentication` |
| ApiAuth.IssuedTokenAuthenticates | microblog/app/api/auth.py:39-47 | a token from `get_token` authenticates its user until it expires |
| ApiAuth.RevokedTokenFailsAuthentication | microblog/app/api/auth.py:39-47 | after `revoke_token`, the token never authenticates again |
| ApiAuth.BasicAuthError | microblog/app/api/auth.py:34-36 | `error_response(status)`: the status passed through, with no message |
| ApiAuth.TokenAuthError | microblog/app/api/auth.py:50-52 | `error_response(status)`, the same reply as `basic_auth_error`: the status passed through, and a payload holding only its name |
| ApiUsers.PerPage | microblog/app/api/users.py:34 | (the same expression at lines 45 and 55) the page size is the requested one (default 10) capped at 100, and never above 100 |
| ApiUsers.CreateUserCheck | microblog/app/api/users.py:63-73 | the only possible messages are the three rejections; a taken username or a taken e-mail is reported only when some user holds that value |
| ApiUsers.MissingFieldsComeFirst | microblog/app/api/users.py:63-65 | a request missing username, email or password is refused with the same message whatever the table holds |
| ApiUsers.CreateUserCheckExactly | microblog/app/api/users.py:63-73 | the checks pass exactly when all three fields are present and the username and the e-mail are both free; a taken username is reported before a taken e-mail |
| ApiUsers.CreateKeepsUnique | microblog/app/api/users.py:74-77 | inserting after the checks keeps usernames and e-mail addresses unique |
| ApiUsers.CreatedUserCanAuthenticate | microblog/app/api/users.py:74-77 | the new user authenticates with the password in the request |
| ApiUsers.CreateUser | microblog/app/api/users.py:60-79 | a failed check gives 400 with its message and writes nothing; otherwise exactly one user, built by `from_dict(data, new_user=True)`, is added and returned with 201 |
| ApiUsers.UpdateUserCheck | microblog/app/api/users.py:90-99 | the only possible messages are the two conflicts, each reported only for a field that `data` carries with a value different from the user's own |
| ApiUsers.OwnValuesNeverConflict | microblog/app/api/users.py:90-99 | re-sending one's own username and e-mail never conflicts |
| ApiUsers.ConflictIsWithAnotherUser | microblog/app/api/users.py:90-99 | a reported conflict names a value that is held by another user |
| ApiUsers.UpdateKeepsUnique | microblog/app/api/users.py:90-100 | an update that passes the checks keeps usernames and e-mail addresses unique |
| ApiUsers.UpdateUser | microblog/app/api/users.py:83-103 | another user's id gives 403 and a missing user 404, neither writing anything; a conflict gives 400 and writes nothing; otherwise the row is updated by `from_dict(data, new_user=False)` and returned with 200 |
| AuthRoutes.StripLeading | microblog/app/auth/routes.py:3 | `urlsplit` first drops the leading characters up to and including the space: the result is a suffix of the URL, starts with no such character, and a URL that does not start with one is unchanged |
| AuthRoutes.RemoveUnsafeIsSafe | microblog/app/auth/routes.py:3 | `urlsplit` then deletes every tab, CR and LF: none is left |
| AuthRoutes.SafeUrlIsKept | microblog/app/auth/routes.py:3 | a URL without tab, CR or LF is unchanged by that removal |
| AuthRoutes.AfterScheme | microblog/app/auth/routes.py:42 | what follows the scheme is a suffix of the URL; when a scheme was taken off, the URL starts with a letter and a colon comes just before the rest |
| AuthRoutes.Netloc | microblog/app/auth/routes.py:42 | the netloc of the cleaned URL never holds `/`, `?`, `#`, tab, CR or LF |
| AuthRoutes.SingleSlashHasNoNetloc | microblog/app/auth/routes.py:42 | a URL starting with one `/` and no second has an empty netloc |
| AuthRoutes.NextTarget | microblog/app/auth/routes.py:41-46 | the redirect follows `next` exactly when it is present, non-empty and has an empty netloc, and goes to the index otherwise |
| AuthRoutes.LocalPathIsFollowed | microblog/app/auth/routes.py:41-46 | a path on this site (one leading `/`, and no tab, CR or LF) is followed |
| AuthRoutes.SchemeRelativeUrlIsRefused | microblog/app/auth/routes.py:42-43 | a `//host...` URL names a host and is not followed, whenever the host does not start with a tab, CR or LF |
| AuthRoutes.HostIsRefused | microblog/app/auth/routes.py:42-43 | a URL whose cleaned form starts with `//` and a host character is not followed |
| AuthRoutes.UnsafeCharsDoNotHideHost | microblog/app/auth/routes.py:42-43 | tabs, CRs or LFs between the two slashes do not hide a host: `/`, any such characters, `/host` is not followed |
| AuthRoutes.PaddingKeepsNetloc | microblog/app/auth/routes.py:42 | spaces and control characters in front of a URL do not change its netloc |
| AuthRoutes.PaddedHostIsRefused | microblog/app/auth/routes.py:42-43 | a `//host...` URL behind leading spaces or control characters is not followed either |
| AuthRoutes.SchemeIsStripped | microblog/app/auth/routes.py:42 | `urlsplit` takes a well-formed scheme and its colon off the front |
| AuthRoutes.AbsoluteUrlIsRefused | microblog/app/auth/routes.py:42-43 | a `scheme://host...` URL names a host and is not followed, whenever the host does not start with a tab, CR or LF |
| AuthRoutes.Authenticate | microblog/app/auth/routes.py:33-35 | the same lookup-then-check as the API's Basic authentication (`ApiAuth.VerifyPassword`): a returned user has the form's username and a password that checks |
| AuthRoutes.RegisteredUserCanSignIn | microblog/app/auth/routes.py:63-67 | a registered user signs in with the chosen password and with no other |
| AuthRoutes.ResetUser | microblog/app/models.py:215-223 | `verify_reset_password_token`: `None` exactly when decoding failed or no row has the decoded id; otherwise the row with that id |
| AuthRoutes.ResetPasswordTakesEffect | microblog/app/auth/routes.py:105-107 | after a reset the user signs in with the new password and with no other |
| AuthRoutes.WebSession.Login | microblog/app/auth/routes.py:25-48 | a signed-in user goes to the index and nothing changes; a form that does not validate renders the page; bad credentials flash the error, go back to sign-in and sign nobody in; good ones sign the user in with the form's remember flag and redirect to `NextTarget(next)` |
| AuthRoutes.WebSession.Register | microblog/app/auth/routes.py:56-72 | a signed-in user goes to the index and nothing changes; a validated form, whose username and e-mail no user holds, adds exactly one user, with its password set, flashes the message and goes to sign-in; unique usernames and e-mail addresses stay unique |
| AuthRoutes.WebSession.ResetPasswordRequest | microblog/app/auth/routes.py:74-91 | a validated form always flashes the same message and goes to sign-in; a reset e-mail goes out only when the address belongs to a user |
| AuthRoutes.WebSession.ResetPassword | microblog/app/auth/routes.py:93-112 | a signed-in user, or an invalid token, goes to the index and no password changes; a validated form sets the user's password, flashes and goes to sign-in |

## Left out

- Crawler.WebDriverPool.CloseAll: assumes that every `driver.quit()` returns. In `close_all` a `quit()` that raises ends the loop, and the drivers still queued are never quit; the model, and with it `MainWith`'s promise that no driver leaks, does not cover that case.
- Selenium: the bodies of `edit_bio`, `register`, `logout`, `post` and `send_private_message` are browser calls. Only the outcome of `login` is modelled, as a comparison with the page's `h1` text.
- Crawler.WebDriverPool.CreateWebdriver: starting Chrome and loading the home page are foreign. The factory is modelled only as returning a distinct handle.
- Concurrency: the thread pool, the order of `as_completed` and the wall-clock timing are not modelled. The dispatcher is sequentialised: it takes all the drivers first, then runs the tasks in order. It therefore requires at least as many idle drivers as tasks, which `main`'s pool size provides.
- Crawler.SendMessagesMultithreaded: with real threads, a worker can hand its driver back while drivers are still being taken. The model states the final queue for the sequential order only.
- Crawler.MainWith: takes its task list as a parameter instead of the ten fixed tuples. For an empty list the source's `ThreadPoolExecutor(max_workers=0)` raises `ValueError` before `close_all`; the model returns normally with nothing to quit.
- Logging and `print` output are not modelled.
- Oracles:
  - Password hashing is an ideal oracle: a hash checks for the password it was made from and for no other.
  - JWT reset tokens are not modelled. A reset link is given by the id it decodes to, or `None` when decoding fails.
  - `get_reset_password_token`, `avatar` (md5) and `send_password_reset_email` are outside the model. A reset e-mail is recorded as the id of the user it went to.
  - `secrets.token_hex(16)` is a parameter, and is required to differ from every stored token.
- The SQL layer: `following_posts`, `to_dict`, `to_collection_dict`, pagination, `posts_count`, `load_user` and `reindex` are not modelled. Tables are values, and a commit takes effect at once. A unique-constraint violation at commit time is not modelled.
- Search and other files:
  - The Elasticsearch wrapper, `query_index`, translation, mail sending, the CLI, migrations and blueprint registration are outside the model.
  - `api/tokens.py` is a thin route over `get_token` and `revoke_token`, which are modelled themselves.
- Redis and RQ: `launch_task`, `get_rq_job`, `get_current_job` and `time.sleep` are foreign. The current job and the result of `get_rq_job` are parameters.
- `get_task_in_progress` is not modelled. It is the by-name variant of `get_tasks_in_progress`, which is modelled.
- `logout` is not modelled. It has no branch.
- Form validators: `validate_on_submit` and the validators behind it (`auth/forms.py` is not part of this model) are not modelled. A form that validates is given as its data, and one that does not as `None`. AuthRoutes.WebSession.Register: requires what the registration form's validators guarantee, that no user holds the form's username or e-mail address.
- AuthRoutes.Netloc: this follows Python 3.12's `urlsplit`: leading spaces and control characters are stripped, tabs, CRs and LFs are removed, then the scheme and the authority are split off. It leaves out `urlsplit`'s cache and two `ValueError`s it raises: one on a malformed IPv6 authority, and one from its netloc check on a non-ASCII netloc whose NFKC form holds `/`, `?`, `#`, `@` or `:` (such as `//evil\uFF0Fx`). On either, `login` has already signed the user in at `auth/routes.py:40`, and the request then fails with a server error; the model redirects to the index instead.
- Notification payloads are a small JSON datatype. Export timestamps are kept as instants, not as ISO-8601 strings.
- The clock: each request or job reads the clock once, as a parameter `now`, and every call inside it uses that value.
- Searchable.Session.AfterCommit: requires `_changes` to be set. Python would raise a `TypeError` when it is `None`.
- Tasks.SetTaskProgress: requires the job's task row to exist. The source would raise `AttributeError` on a missing row.
- ApiUsers.CreateUser and ApiUsers.UpdateUser: rely on the username and e-mail unique constraints of `models.py:116-130` only through the explicit checks. A second request racing past the checks is not modelled.
- ApiErrors.StatusName: the reason phrases follow werkzeug's `HTTP_STATUS_CODES`.
- Searchable.CallsFor: its own contract states only a length bound. Which index calls it makes is stated by `CallsForExactly`.
- JSON bodies in the API: `request.get_json()` is modelled as a `map<string, string>`. Non-string JSON values are not expressible, and neither is a missing or non-object body, on which `create_user` and `update_user` would raise a `TypeError`.

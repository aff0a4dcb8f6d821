/**
 * The browser-automation client: a FIFO pool of WebDriver handles, the
 * per-task "log in, then send a private message, then give the driver back"
 * step, and the dispatcher that runs a list of such tasks against the pool.
 * Browser interactions are foreign; only their outcomes enter the model.
 */
module Crawler {

  /* ---------------------------------------------------------------- */
  /* generate_random_string                                             */
  /* ---------------------------------------------------------------- */

  /** `string.ascii_letters + string.digits`. */
  const LettersAndDigits: string :=
    "abcdefghijklmnopqrstuvwxyz" + "ABCDEFGHIJKLMNOPQRSTUVWXYZ" + "0123456789"

  const RandomStringLength: nat := 10

  predicate IsAsciiAlnum(c: char) {
    'a' <= c <= 'z' || 'A' <= c <= 'Z' || '0' <= c <= '9'
  }

  /** Each draw is the index `random.choice` picks, so it is below the alphabet's length. */
  predicate ValidDraws(draws: seq<nat>) {
    |draws| == RandomStringLength && forall i | 0 <= i < |draws| :: draws[i] < |LettersAndDigits|
  }

  /**
   * `generate_random_string`: ten characters, each chosen from the alphabet.
   * The random generator is the sequence of indices it hands out.
   */
  function RandomString(draws: seq<nat>): (r: string)
    requires ValidDraws(draws)
    ensures |r| == RandomStringLength
    ensures forall i | 0 <= i < |r| :: r[i] in LettersAndDigits && IsAsciiAlnum(r[i])
  {
    AlphabetIsAsciiAlnum();
    seq(RandomStringLength, i requires 0 <= i < RandomStringLength => LettersAndDigits[draws[i]])
  }

  /** The alphabet is exactly the 62 ASCII letters and digits. */
  lemma AlphabetIsAsciiAlnum()
    ensures |LettersAndDigits| == 62
    ensures forall i | 0 <= i < |LettersAndDigits| :: IsAsciiAlnum(LettersAndDigits[i])
  {
  }

  function IndexOf(s: string, c: char): (k: nat)
    requires c in s
    ensures k < |s| && s[k] == c
  {
    if s[0] == c then 0 else 1 + IndexOf(s[1..], c)
  }

  /** No string of the right shape is out of reach: every one is produced by some draws. */
  lemma {:induction false} EveryStringIsReachable(s: string)
    requires |s| == RandomStringLength
    requires forall i | 0 <= i < |s| :: s[i] in LettersAndDigits
    ensures exists draws :: ValidDraws(draws) && RandomString(draws) == s
  {
    var draws := seq(RandomStringLength, i requires 0 <= i < RandomStringLength => IndexOf(LettersAndDigits, s[i]));
    assert ValidDraws(draws);
    assert RandomString(draws) == s;
  }

  /* ---------------------------------------------------------------- */
  /* login's outcome                                                    */
  /* ---------------------------------------------------------------- */

  /** What `login` finds after submitting the form: the `h1` text, or a driver exception. */
  datatype LoginPage = Heading(text: string) | DriverFault

  function Greeting(username: string): string {
    "Hi, " + username + "!"
  }

  /** `login`: true exactly when the page greets this user; an exception counts as failure. */
  function Login(username: string, page: LoginPage): (ok: bool)
    ensures ok <==> page.Heading? && page.text == Greeting(username)
  {
    match page
    case Heading(text) => text == Greeting(username)
    case DriverFault => false
  }

  /** A page greeting one user is never a successful login for another. */
  lemma GreetingNamesOneUser(u: string, v: string, page: LoginPage)
    requires Login(u, page) && Login(v, page)
    ensures u == v
  {
    var g := Greeting(u);
    assert g[4..|g| - 1] == u;
    var h := Greeting(v);
    assert h[4..|h| - 1] == v;
  }

  /* ---------------------------------------------------------------- */
  /* WebDriverPool                                                      */
  /* ---------------------------------------------------------------- */

  /** An opaque WebDriver handle; `serial` counts the factory calls before the one that made it. */
  datatype Driver = Driver(serial: nat)

  predicate Distinct(s: seq<Driver>) {
    forall i, j | 0 <= i < j < |s| :: s[i] != s[j]
  }

  /** The handles made by factory calls `from`, ..., `from + n - 1`: all different. */
  function Handles(from: nat, n: nat): (s: seq<Driver>)
    ensures |s| == n && Distinct(s)
    ensures forall i | 0 <= i < n :: s[i].serial == from + i
  {
    seq(n, i requires 0 <= i < n => Driver(from + i))
  }

  /**
   * `WebDriverPool`: a `Queue(maxsize=size)` of drivers, head first; as
   * with any `Queue`, a `maxsize` of 0 means the queue has no bound.
   * `created` counts the handles `create_webdriver` has produced and
   * `quitLog` lists the drivers on which `quit()` was called, in call order.
   */
  class WebDriverPool {
    const size: nat
    var queue: seq<Driver>
    var created: nat
    var quitLog: seq<Driver>

    ghost predicate Valid()
      reads this
    {
      size == 0 || |queue| <= size
    }

    /** `__init__`: the queue holds exactly `size` freshly created drivers, in creation order. */
    constructor (size: nat)
      ensures Valid() && this.size == size
      ensures queue == Handles(0, size) && created == size && quitLog == []
    {
      this.size := size;
      queue, created, quitLog := [], 0, [];
      new;
      var k := 0;
      while k < size
        invariant 0 <= k <= size
        invariant queue == Handles(0, k) && created == k && quitLog == []
      {
        var d := CreateWebdriver();
        Release(d);
        k := k + 1;
        assert queue == Handles(0, k);
      }
    }

    /** `create_webdriver`: a handle no earlier call returned. */
    method CreateWebdriver() returns (d: Driver)
      modifies this`created
      ensures d == Driver(old(created)) && created == old(created) + 1
    {
      d := Driver(created);
      created := created + 1;
    }

    /** `acquire`: `Queue.get` takes the head; it would block on an empty queue. */
    method Acquire() returns (d: Driver)
      requires Valid() && queue != []
      modifies this`queue
      ensures Valid()
      ensures d == old(queue[0]) && queue == old(queue[1..])
    {
      d := queue[0];
      queue := queue[1..];
    }

    /** `release`: `Queue.put` appends at the back; it would block on a full queue, which an unbounded one never is. */
    method Release(d: Driver)
      requires Valid() && (size == 0 || |queue| < size)
      modifies this`queue
      ensures Valid()
      ensures queue == old(queue) + [d]
    {
      queue := queue + [d];
    }

    /** `driver.quit()`, recorded. */
    method Quit(d: Driver)
      modifies this`quitLog
      ensures quitLog == old(quitLog) + [d]
    {
      quitLog := quitLog + [d];
    }

    /**
     * `close_all`: drains the queue, quitting each driver once in queue order.
     * Drivers that are checked out are not in the queue and are not touched.
     */
    method CloseAll()
      requires Valid()
      modifies this`queue, this`quitLog
      ensures Valid() && queue == []
      ensures quitLog == old(quitLog) + old(queue)
    {
      while queue != []
        invariant Valid()
        invariant quitLog + queue == old(quitLog) + old(queue)
        decreases |queue|
      {
        ghost var before := quitLog + queue;
        var d := Acquire();
        Quit(d);
        assert quitLog + queue == before;
      }
    }
  }

  /* ---------------------------------------------------------------- */
  /* process_message_task and send_messages_multithreaded              */
  /* ---------------------------------------------------------------- */

  /** One `(username, password, target_username, message)` tuple of the task list. */
  datatype MessageTask = MessageTask(username: string, password: string, target: string, message: string)

  /**
   * How the browser behaves during one task: the page `login` sees, and
   * whether an exception escapes the task body (one that the actions' own
   * `except Exception` handlers do not catch).
   */
  datatype Browsing = Browsing(page: LoginPage, raises: bool)

  /**
   * What `future.result()` yields: normal completion, or an exception. On
   * completion, `sendAttempted` says whether `send_private_message` was
   * called; that function reports its own failures only in its log, so the
   * flag does not say the message was delivered.
   */
  datatype TaskResult = Completed(sendAttempted: bool) | Raised

  /** The outcome of one task: `send_private_message` runs only after a successful login. */
  function TaskOutcome(t: MessageTask, b: Browsing): (r: TaskResult)
    ensures r.Completed? <==> !b.raises
    ensures r.Completed? ==> (r.sendAttempted <==> Login(t.username, b.page))
  {
    if b.raises then Raised else Completed(Login(t.username, b.page))
  }

  /**
   * `process_message_task`: the `finally` returns the driver to the pool on
   * every exit path, exactly once.
   */
  method ProcessMessageTask(t: MessageTask, driver: Driver, pool: WebDriverPool, b: Browsing)
    returns (r: TaskResult)
    requires pool.Valid() && (pool.size == 0 || |pool.queue| < pool.size)
    modifies pool`queue
    ensures pool.Valid()
    ensures pool.queue == old(pool.queue) + [driver]
    ensures r == TaskOutcome(t, b)
  {
    var loggedIn := Login(t.username, b.page);
    if b.raises {
      r := Raised;
    } else if loggedIn {
      r := Completed(true);
    } else {
      r := Completed(false);
    }
    pool.Release(driver);
  }

  /**
   * `send_messages_multithreaded`, sequentialised: the submitting loop takes
   * one driver per task from the head of the queue, then every task runs and
   * hands its driver back. Each task's outcome is collected, raised or not.
   */
  method SendMessagesMultithreaded(tasks: seq<MessageTask>, pool: WebDriverPool, browsing: seq<Browsing>)
    returns (results: seq<TaskResult>)
    requires pool.Valid() && |browsing| == |tasks| && |tasks| <= |pool.queue|
    modifies pool`queue
    ensures pool.Valid()
    ensures pool.queue == old(pool.queue)[|tasks|..] + old(pool.queue)[..|tasks|]
    ensures |results| == |tasks|
    ensures forall i | 0 <= i < |tasks| :: results[i] == TaskOutcome(tasks[i], browsing[i])
  {
    ghost var q0 := pool.queue;
    var n := |tasks|;
    var drivers: seq<Driver> := [];
    var k := 0;
    while k < n
      invariant 0 <= k <= n
      invariant pool.Valid()
      invariant drivers == q0[..k] && pool.queue == q0[k..]
    {
      var d := pool.Acquire();
      drivers := drivers + [d];
      k := k + 1;
    }
    results := [];
    k := 0;
    while k < n
      invariant 0 <= k <= n
      invariant pool.Valid() && |drivers| == n
      invariant pool.queue == q0[n..] + drivers[..k]
      invariant |results| == k
      invariant forall i | 0 <= i < k :: results[i] == TaskOutcome(tasks[i], browsing[i])
    {
      var r := ProcessMessageTask(tasks[k], drivers[k], pool, browsing[k]);
      results := results + [r];
      k := k + 1;
      assert drivers[..k] == drivers[..k - 1] + [drivers[k - 1]];
    }
    assert drivers[..n] == drivers;
  }

  /** Rotating the queue by the number of tasks keeps every driver, each as often as before. */
  lemma RotationKeepsDrivers(q: seq<Driver>, k: nat)
    requires k <= |q|
    ensures |q[k..] + q[..k]| == |q|
    ensures multiset(q[k..] + q[..k]) == multiset(q)
  {
    assert q == q[..k] + q[k..];
  }

  /**
   * `main` with its task list as a parameter: a pool sized to the task list
   * never blocks the submitting loop, every task's outcome is collected, and
   * `close_all` afterwards quits every driver the pool ever created exactly
   * once: none leaked.
   */
  method MainWith(tasks: seq<MessageTask>, browsing: seq<Browsing>)
    returns (results: seq<TaskResult>, quit: seq<Driver>)
    requires |browsing| == |tasks|
    ensures |results| == |tasks|
    ensures forall i | 0 <= i < |tasks| :: results[i] == TaskOutcome(tasks[i], browsing[i])
    ensures quit == Handles(0, |tasks|)
  {
    var pool := new WebDriverPool(|tasks|);
    results := SendMessagesMultithreaded(tasks, pool, browsing);
    ghost var all := Handles(0, |tasks|);
    assert all[|tasks|..] + all[..|tasks|] == all;
    assert pool.queue == all;
    pool.CloseAll();
    quit := pool.quitLog;
  }
}

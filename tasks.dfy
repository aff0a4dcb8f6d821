/**
 * The background export job: `_set_task_progress`, which records a job's
 * progress in three places (the job's metadata, a notification to the task's
 * owner, the task row's `complete` flag), and `export_posts`, which reports
 * progress after every exported post and always finishes at 100.
 *
 * The current RQ job is a parameter (`null` when the code runs outside a
 * worker); the posts query's result, whether sending the e-mail raises, and
 * the clock are parameters too.
 */
module Tasks {
  import opened Prelude
  import opened Models

  const ProgressName: string := "task_progress"

  /** The notification payload `{'task_id': ..., 'progress': ...}`. */
  function ProgressPayload(taskId: string, progress: int): Json {
    JObject([("task_id", JString(taskId)), ("progress", JInt(progress))])
  }

  /** `task_id`'s row differs from `before` at most in its `complete` flag; every other row is the same. */
  predicate OnlyCompleteChanged(before: map<string, TaskRow>, after: map<string, TaskRow>, taskId: string) {
    taskId in before && taskId in after &&
    after == before[taskId := before[taskId].(complete := after[taskId].complete)]
  }

  /** Every notification other than `owner`'s `name` ones is as it was. */
  ghost predicate OtherNotificationsKept(before: seq<Notification>, after: seq<Notification>, owner: UserId, name: string) {
    forall user, n | user != owner || n != name :: Named(after, user, n) == Named(before, user, n)
  }

  /** Keeping the other notifications is transitive across calls. */
  lemma KeptAcrossCalls(ns0: seq<Notification>, ns1: seq<Notification>, ns2: seq<Notification>, owner: UserId, name: string)
    requires OtherNotificationsKept(ns0, ns1, owner, name) && OtherNotificationsKept(ns1, ns2, owner, name)
    ensures OtherNotificationsKept(ns0, ns2, owner, name)
  {
  }

  /**
   * `_set_task_progress(progress)` at `now`. Without a current job nothing
   * happens. Otherwise the job's metadata records `progress`, the task's
   * owner has exactly one `task_progress` notification, carrying it, and the
   * task row becomes complete once progress reaches 100; a complete task
   * never becomes incomplete again.
   */
  method SetTaskProgress(db: Database, job: Job?, progress: int, now: Time)
    requires db.Valid() && (job != null ==> job.id in db.tasks)
    modifies db`notifications, db`tasks, job
    ensures db.Valid()
    ensures job == null ==> db.notifications == old(db.notifications) && db.tasks == old(db.tasks)
    ensures job != null ==> job.meta == old(job.meta)["progress" := progress] && GetProgress(job) == progress
    ensures job != null ==>
      var t := old(db.tasks[job.id]);
      db.tasks == old(db.tasks)[job.id := t.(complete := t.complete || progress >= 100)] &&
      db.notifications == WithNotification(old(db.notifications), t.userId, ProgressName, ProgressPayload(job.id, progress), now)
    ensures job != null ==>
      var owner := old(db.tasks[job.id]).userId;
      Named(db.notifications, owner, ProgressName) == [Notification(owner, ProgressName, now, ProgressPayload(job.id, progress))] &&
      OtherNotificationsKept(old(db.notifications), db.notifications, owner, ProgressName)
    ensures job != null ==> OnlyCompleteChanged(old(db.tasks), db.tasks, job.id)
    ensures job != null ==> db.tasks[job.id].complete == (old(db.tasks[job.id]).complete || progress >= 100)
  {
    if job != null {
      job.meta := job.meta["progress" := progress];
      var task := db.tasks[job.id];
      var _ := db.AddNotification(task.userId, ProgressName, ProgressPayload(job.id, progress), now);
      AddNotificationReplaces(old(db.notifications), task.userId, ProgressName, ProgressPayload(job.id, progress), now);
      if progress >= 100 {
        db.tasks := db.tasks[job.id := task.(complete := true)];
      } else {
        assert db.tasks == db.tasks[job.id := task];
      }
    }
  }

  /** `100 * i // total_posts`; both operands are non-negative, so floor division is Dafny's `/`. */
  function Progress(i: nat, total: nat): int
    requires total > 0
  {
    100 * i / total
  }

  lemma DivMonotone(a: nat, b: nat, d: nat)
    requires a <= b && d > 0
    ensures a / d <= b / d
  {
    var qa, qb := a / d, b / d;
    assert qa * d <= a;
    assert b < (qb + 1) * d;
    MulCancel(qa, qb + 1, d);
  }

  lemma MulCancel(x: int, y: int, d: nat)
    requires d > 0 && x * d < y * d
    ensures x < y
  {
  }

  /** Each in-loop value lies in 0..100, never decreases, and is exactly 100 on the last post. */
  lemma ProgressBounds(i: nat, j: nat, total: nat)
    requires 0 < total && i <= j <= total
    ensures 0 <= Progress(i, total) <= Progress(j, total) <= 100
    ensures Progress(total, total) == 100
  {
    DivMonotone(100 * i, 100 * j, total);
    DivMonotone(100 * j, 100 * total, total);
    assert 100 * total / total == 100;
  }

  /** The values the loop reports after posts 1, ..., k. */
  function LoopProgress(k: nat, total: nat): seq<int>
    requires 0 < total
  {
    seq(k, j requires 0 <= j < k => Progress(j + 1, total))
  }

  /**
   * Every progress value `export_posts` reports, in order: 0, one value per
   * post, then 100 from the `finally` (and another 100 before it from the
   * `except` when sending fails). A missing user raises before anything is
   * reported, so only the two 100s remain.
   */
  function ExpectedReports(userFound: bool, total: nat, emailFails: bool): seq<int> {
    if !userFound then [100, 100]
    else if total == 0 then (if emailFails then [0, 100, 100] else [0, 100])
    else [0] + LoopProgress(total, total) + (if emailFails then [100, 100] else [100])
  }

  /** The reported values lie in 0..100, never decrease, and end at 100. */
  lemma ReportsNeverDecrease(userFound: bool, total: nat, emailFails: bool)
    ensures |ExpectedReports(userFound, total, emailFails)| >= 2
    ensures forall k | 0 <= k < |ExpectedReports(userFound, total, emailFails)| ::
      0 <= ExpectedReports(userFound, total, emailFails)[k] <= 100
    ensures forall k | 0 <= k < |ExpectedReports(userFound, total, emailFails)| - 1 ::
      ExpectedReports(userFound, total, emailFails)[k] <= ExpectedReports(userFound, total, emailFails)[k + 1]
    ensures ExpectedReports(userFound, total, emailFails)[|ExpectedReports(userFound, total, emailFails)| - 1] == 100
    ensures userFound && total > 0 ==> ExpectedReports(userFound, total, emailFails)[total] == 100
  {
    var r := ExpectedReports(userFound, total, emailFails);
    if userFound && total > 0 {
      var tail := if emailFails then [100, 100] else [100];
      assert r == [0] + LoopProgress(total, total) + tail;
      forall k | 0 <= k < |r|
        ensures 0 <= r[k] <= 100
      {
        if 1 <= k <= total {
          ProgressBounds(k, k, total);
        }
      }
      forall k | 0 <= k < |r| - 1
        ensures r[k] <= r[k + 1]
      {
        if k == 0 {
          ProgressBounds(0, 1, total);
        } else if k < total {
          ProgressBounds(k, k + 1, total);
        } else if k == total {
          ProgressBounds(k, k, total);
        }
      }
      ProgressBounds(total, total, total);
    }
  }

  /** One entry of the export: `{'body': ..., 'timestamp': ...}`. */
  datatype ExportedPost = ExportedPost(body: string, timestamp: Time)

  function Exported(rows: seq<Post>): (r: seq<ExportedPost>)
    ensures |r| == |rows|
    ensures forall k | 0 <= k < |rows| :: r[k] == ExportedPost(rows[k].body, rows[k].timestamp)
  {
    seq(|rows|, k requires 0 <= k < |rows| => ExportedPost(rows[k].body, rows[k].timestamp))
  }

  predicate SortedByTimestamp(rows: seq<Post>) {
    forall i, j | 0 <= i < j < |rows| :: rows[i].timestamp <= rows[j].timestamp
  }

  /** The export keeps the posts' time order. */
  lemma ExportedInOrder(rows: seq<Post>)
    requires SortedByTimestamp(rows)
    ensures forall i, j | 0 <= i < j < |Exported(rows)| :: Exported(rows)[i].timestamp <= Exported(rows)[j].timestamp
  {
  }

  /** A reordering of the user's posts has as many entries as there are posts. */
  lemma SameNumberOfPosts(rows: seq<Post>, posts: seq<Post>)
    requires multiset(rows) == multiset(posts)
    ensures |rows| == |posts|
  {
    assert |multiset(rows)| == |rows|;
    assert |multiset(posts)| == |posts|;
  }

  /** What one progress call does to the task table and notifications, kept up across several calls. */
  ghost predicate ProgressSoFar(db: Database, job: Job, tasks0: map<string, TaskRow>, ns0: seq<Notification>, owner: UserId)
    reads db
  {
    OnlyCompleteChanged(tasks0, db.tasks, job.id) && OtherNotificationsKept(ns0, db.notifications, owner, ProgressName)
  }

  lemma ProgressSoFarStep(db: Database, job: Job, tasks0: map<string, TaskRow>, ns0: seq<Notification>, owner: UserId,
                          tasks1: map<string, TaskRow>, ns1: seq<Notification>)
    requires OnlyCompleteChanged(tasks0, tasks1, job.id) && OtherNotificationsKept(ns0, ns1, owner, ProgressName)
    requires OnlyCompleteChanged(tasks1, db.tasks, job.id) && OtherNotificationsKept(ns1, db.notifications, owner, ProgressName)
    ensures ProgressSoFar(db, job, tasks0, ns0, owner)
  {
  }

  /**
   * The `for post in ...` loop of `export_posts`: one exported entry per
   * post, in the given order, with progress `100 * i // total_posts` reported
   * after the `i`-th.
   */
  method ExportLoop(db: Database, job: Job?, rows: seq<Post>, total: nat, now: Time)
    returns (data: seq<ExportedPost>, reported: seq<int>)
    requires db.Valid() && (job != null ==> job.id in db.tasks)
    requires total == |rows|
    modifies db`notifications, db`tasks, job
    ensures db.Valid() && (job != null ==> job.id in db.tasks)
    ensures data == Exported(rows)
    ensures total > 0 ==> reported == LoopProgress(total, total)
    ensures total == 0 ==> reported == []
    ensures job == null ==> db.notifications == old(db.notifications) && db.tasks == old(db.tasks)
    ensures job != null ==> db.tasks[job.id].userId == old(db.tasks[job.id]).userId
    ensures job != null ==>
      OnlyCompleteChanged(old(db.tasks), db.tasks, job.id) &&
      OtherNotificationsKept(old(db.notifications), db.notifications, old(db.tasks[job.id]).userId, ProgressName)
  {
    ghost var tasks0 := db.tasks;
    ghost var ns0 := db.notifications;
    ghost var owner := if job != null then db.tasks[job.id].userId else 0;
    data, reported := [], [];
    var i := 0;
    for k := 0 to |rows|
      invariant db.Valid() && (job != null ==> job.id in db.tasks)
      invariant i == k == |data| && data == Exported(rows[..k])
      invariant total > 0 ==> reported == LoopProgress(k, total)
      invariant total == 0 ==> reported == []
      invariant job == null ==> db.notifications == ns0 && db.tasks == tasks0
      invariant job != null ==> ProgressSoFar(db, job, tasks0, ns0, owner) && db.tasks[job.id].userId == owner
    {
      ghost var tasks1, ns1 := db.tasks, db.notifications;
      data := data + [ExportedPost(rows[k].body, rows[k].timestamp)];
      i := i + 1;
      SetTaskProgress(db, job, 100 * i / total, now);
      reported := reported + [100 * i / total];
      if job != null {
        ProgressSoFarStep(db, job, tasks0, ns0, owner, tasks1, ns1);
      }
    }
    assert rows[..|rows|] == rows;
  }

  /** Marking the task complete after changes that only touched its `complete` flag. */
  lemma CompleteAfterChanges(tasks0: map<string, TaskRow>, tasks1: map<string, TaskRow>, taskId: string)
    requires OnlyCompleteChanged(tasks0, tasks1, taskId)
    ensures tasks1[taskId := tasks1[taskId].(complete := true)] == tasks0[taskId := tasks0[taskId].(complete := true)]
  {
  }

  /**
   * The end of `export_posts`: `_set_task_progress(100)` in the `except`
   * clause when the body raised, then again in the `finally` clause.
   */
  method FinishExport(db: Database, job: Job?, raised: bool, now: Time) returns (reported: seq<int>)
    requires db.Valid() && (job != null ==> job.id in db.tasks)
    modifies db`notifications, db`tasks, job
    ensures db.Valid()
    ensures reported == if raised then [100, 100] else [100]
    ensures job == null ==> db.notifications == old(db.notifications) && db.tasks == old(db.tasks)
    ensures job != null ==> GetProgress(job) == 100
    ensures job != null ==> db.tasks == old(db.tasks)[job.id := old(db.tasks[job.id]).(complete := true)]
    ensures job != null ==>
      var owner := old(db.tasks[job.id]).userId;
      Named(db.notifications, owner, ProgressName) == [Notification(owner, ProgressName, now, ProgressPayload(job.id, 100))] &&
      OtherNotificationsKept(old(db.notifications), db.notifications, owner, ProgressName)
  {
    reported := [];
    if raised {
      SetTaskProgress(db, job, 100, now);
      reported := [100];
    }
    SetTaskProgress(db, job, 100, now);
    reported := reported + [100];
  }

  /**
   * The `try` body of `export_posts` once the user is found, with its
   * `except` and `finally` clauses: progress 0, the loop, the e-mail, then
   * the closing 100s.
   */
  method ExportFoundUser(db: Database, job: Job?, userId: UserId, rows: seq<Post>, emailFails: bool, now: Time)
    returns (data: seq<ExportedPost>, reported: seq<int>)
    requires db.Valid() && (job != null ==> job.id in db.tasks)
    requires multiset(rows) == multiset(PostsOf(db.posts, userId))
    modifies db`notifications, db`tasks, job
    ensures db.Valid()
    ensures reported == ExpectedReports(true, |rows|, emailFails)
    ensures data == Exported(rows)
    ensures job == null ==> db.notifications == old(db.notifications) && db.tasks == old(db.tasks)
    ensures job != null ==> GetProgress(job) == 100
    ensures job != null ==> db.tasks == old(db.tasks)[job.id := old(db.tasks[job.id]).(complete := true)]
    ensures job != null ==>
      var owner := old(db.tasks[job.id]).userId;
      Named(db.notifications, owner, ProgressName) == [Notification(owner, ProgressName, now, ProgressPayload(job.id, 100))] &&
      OtherNotificationsKept(old(db.notifications), db.notifications, owner, ProgressName)
  {
    ghost var tasks0 := db.tasks;
    ghost var ns0 := db.notifications;
    ghost var owner := if job != null then db.tasks[job.id].userId else 0;
    SetTaskProgress(db, job, 0, now);
    var total := |PostsOf(db.posts, userId)|;
    SameNumberOfPosts(rows, PostsOf(db.posts, userId));
    ghost var tasks1, ns1 := db.tasks, db.notifications;
    var inLoop;
    data, inLoop := ExportLoop(db, job, rows, total, now);
    if job != null {
      ProgressSoFarStep(db, job, tasks0, ns0, owner, tasks1, ns1);
    }
    ghost var tasks2, ns2 := db.tasks, db.notifications;
    var tail := FinishExport(db, job, emailFails, now);
    reported := [0] + inLoop + tail;
    if job != null {
      CompleteAfterChanges(tasks0, tasks2, job.id);
      KeptAcrossCalls(ns0, ns2, db.notifications, owner, ProgressName);
    }
  }

  /**
   * `export_posts(user_id)`, given the user's posts in ascending time order.
   * It returns the exported entries, every progress value it reported, and
   * whether the e-mail went out. Whatever happens, the job ends at progress
   * 100 with its task complete and a single `task_progress` notification
   * saying so; the user table is not touched.
   */
  method ExportPosts(db: Database, job: Job?, userId: UserId, rows: seq<Post>, emailFails: bool, now: Time)
    returns (data: seq<ExportedPost>, reported: seq<int>, emailed: bool)
    requires db.Valid() && (job != null ==> job.id in db.tasks)
    requires multiset(rows) == multiset(PostsOf(db.posts, userId)) && SortedByTimestamp(rows)
    modifies db`notifications, db`tasks, job
    ensures db.Valid()
    ensures reported == ExpectedReports(db.Get(userId).Some?, |rows|, emailFails)
    ensures data == if db.Get(userId).Some? then Exported(rows) else []
    ensures forall i, j | 0 <= i < j < |data| :: data[i].timestamp <= data[j].timestamp
    ensures emailed <==> db.Get(userId).Some? && !emailFails
    ensures job == null ==> db.notifications == old(db.notifications) && db.tasks == old(db.tasks)
    ensures job != null ==> GetProgress(job) == 100
    ensures job != null ==> db.tasks == old(db.tasks)[job.id := old(db.tasks[job.id]).(complete := true)]
    ensures job != null ==>
      var owner := old(db.tasks[job.id]).userId;
      Named(db.notifications, owner, ProgressName) == [Notification(owner, ProgressName, now, ProgressPayload(job.id, 100))] &&
      OtherNotificationsKept(old(db.notifications), db.notifications, owner, ProgressName)
  {
    var user := db.Get(userId);
    if user.None? {
      data, emailed := [], false;
      reported := FinishExport(db, job, true, now);
    } else {
      data, reported := ExportFoundUser(db, job, userId, rows, emailFails, now);
      ExportedInOrder(rows);
      emailed := !emailFails;
    }
  }

  /** Once the export has run, its task no longer shows among the owner's tasks in progress. */
  lemma ExportedTaskLeavesProgress(tasks: map<string, TaskRow>, taskId: string, user: UserId)
    requires TasksKeyed(tasks) && taskId in tasks
    ensures forall t | t in TasksInProgress(tasks[taskId := tasks[taskId].(complete := true)], user) :: t.id != taskId
  {
    CompleteTaskLeavesProgress(tasks[taskId := tasks[taskId].(complete := true)], taskId, user);
  }
}

/**
 * The one background-task record the viewer server shares between its
 * handlers, and the schedule of stage requests and background tasks that
 * its `is_running` guard is meant to keep to one task at a time.
 */
module Tasks {
  import opened Wrappers
  import opened Models

  /** A row of `recent_posts`: what the live view shows of a freshly scraped record. */
  datatype Recent = Recent(
    id: string,
    url: string,
    platform: Platform,
    author: Option<string>,
    content: Option<string>,
    views: Option<int>,
    likes: Option<int>,
    thumbnailPath: Option<string>)

  /** What `GET /api/task/status` returns. */
  datatype TaskStatus = TaskStatus(
    isRunning: bool,
    currentTask: string,
    progress: nat,
    total: nat,
    message: string,
    errors: seq<string>,
    recentPosts: seq<Recent>)

  /** `xs[-n:]`: the last `n` elements, or all of them. */
  function Last<T>(xs: seq<T>, n: nat): (r: seq<T>)
    ensures |r| == if |xs| <= n then |xs| else n
    ensures r == xs[|xs| - |r|..]
  {
    if |xs| <= n then xs else xs[|xs| - n..]
  }

  /** Taking the last elements twice is taking them once. */
  lemma LastLast<T>(xs: seq<T>, n: nat)
    ensures Last(Last(xs, n), n) == Last(xs, n)
    ensures forall x :: x in Last(xs, n) ==> x in xs
  {
    var r := Last(xs, n);
    forall x | x in r
      ensures x in xs
    {
      var k :| 0 <= k < |r| && r[k] == x;
      assert xs[|xs| - |r| + k] == x;
    }
  }

  /** `TaskState`: the progress of the background task, if any. */
  class TaskState {
    var isRunning: bool
    var currentTask: string
    var progress: nat
    var total: nat
    var message: string
    var errors: seq<string>
    var recentPosts: seq<Recent>

    /** No task, nothing counted, nothing recorded. */
    constructor ()
      ensures !isRunning && currentTask == "" && progress == 0 && total == 0 && message == ""
      ensures errors == [] && recentPosts == []
    {
      isRunning := false;
      currentTask := "";
      progress := 0;
      total := 0;
      message := "";
      errors := [];
      recentPosts := [];
    }

    /** The opening of every stage task: running, named, nothing done of `n` items, no errors. */
    method Begin(task: string, n: nat)
      modifies this
      ensures isRunning && currentTask == task && progress == 0 && total == n && errors == []
      ensures message == old(message) && recentPosts == old(recentPosts)
    {
      isRunning := true;
      currentTask := task;
      progress := 0;
      total := n;
      errors := [];
    }

    /** The next stage of a task that runs several: its name and item count; progress, errors and message carry over. */
    method Switch(task: string, n: nat)
      modifies this
      ensures currentTask == task && total == n
      ensures isRunning == old(isRunning) && progress == old(progress) && message == old(message)
      ensures errors == old(errors) && recentPosts == old(recentPosts)
    {
      currentTask := task;
      total := n;
    }

    /** Item `i` of the stage is under way. */
    method Advance(i: nat, msg: string)
      modifies this
      ensures progress == i + 1 && message == msg
      ensures isRunning == old(isRunning) && currentTask == old(currentTask) && total == old(total)
      ensures errors == old(errors) && recentPosts == old(recentPosts)
    {
      progress := i + 1;
      message := msg;
    }

    /** An item failed with an exception: its line is appended and the stage goes on. */
    method Fail(line: string)
      modifies this
      ensures errors == old(errors) + [line]
      ensures isRunning == old(isRunning) && currentTask == old(currentTask) && progress == old(progress)
      ensures total == old(total) && message == old(message) && recentPosts == old(recentPosts)
    {
      errors := errors + [line];
    }

    /** A scraped record for the live view. */
    method Note(r: Recent)
      modifies this
      ensures recentPosts == old(recentPosts) + [r]
      ensures isRunning == old(isRunning) && currentTask == old(currentTask) && progress == old(progress)
      ensures total == old(total) && message == old(message) && errors == old(errors)
    {
      recentPosts := recentPosts + [r];
    }

    /** The `finally` of every stage task: no longer running, with the closing message. */
    method End(msg: string)
      modifies this
      ensures !isRunning && message == msg
      ensures currentTask == old(currentTask) && progress == old(progress) && total == old(total)
      ensures errors == old(errors) && recentPosts == old(recentPosts)
    {
      isRunning := false;
      message := msg;
    }

    /**
     * `get_task_status`: the state with at most the last ten errors and
     * the last ten recent records; the recent records are then emptied
     * and nothing else changes.
     */
    method Status() returns (st: TaskStatus)
      modifies this
      ensures st == TaskStatus(old(isRunning), old(currentTask), old(progress), old(total), old(message),
                               Last(old(errors), 10), Last(old(recentPosts), 10))
      ensures |st.errors| <= 10 && |st.recentPosts| <= 10
      ensures recentPosts == []
      ensures isRunning == old(isRunning) && currentTask == old(currentTask) && progress == old(progress)
      ensures total == old(total) && message == old(message) && errors == old(errors)
    {
      var recent := Last(recentPosts, 10);
      recentPosts := [];
      st := TaskStatus(isRunning, currentTask, progress, total, message, Last(errors, 10), recent);
    }
  }

  // ---------------------------------------------------------------- the guard over a schedule

  /**
   * What can happen to the one task slot: a stage request that passes
   * candidate selection and schedules its task, the scheduled task
   * starting, or a running task finishing.
   */
  datatype Event = Request | Start | Finish

  /** `is_running` with the number of tasks scheduled but not started and of tasks started but not finished. */
  datatype Slot = Slot(running: bool, queued: nat, active: nat)

  /**
   * As written: the request only reads `is_running`; the task sets it
   * when it starts and clears it when it finishes.
   */
  function StepAsWritten(s: Slot, e: Event): Slot
  {
    match e
    case Request => if s.running then s else s.(queued := s.queued + 1)
    case Start => if s.queued == 0 then s else Slot(true, s.queued - 1, s.active + 1)
    case Finish => if s.active == 0 then s else Slot(false, s.queued, s.active - 1)
  }

  /** As intended: the request that is let through claims `is_running` itself, before its task is scheduled. */
  function StepClaimed(s: Slot, e: Event): Slot
  {
    match e
    case Request => if s.running then s else Slot(true, s.queued + 1, s.active)
    case Start => if s.queued == 0 then s else Slot(s.running, s.queued - 1, s.active + 1)
    case Finish => if s.active == 0 then s else Slot(false, s.queued, s.active - 1)
  }

  function RunAsWritten(s: Slot, es: seq<Event>): Slot
    decreases |es|
  {
    if es == [] then s else StepAsWritten(RunAsWritten(s, es[..|es| - 1]), es[|es| - 1])
  }

  function RunClaimed(s: Slot, es: seq<Event>): Slot
    decreases |es|
  {
    if es == [] then s else StepClaimed(RunClaimed(s, es[..|es| - 1]), es[|es| - 1])
  }

  /** The slot at start-up: nothing running, scheduled or started. */
  const Idle := Slot(false, 0, 0)

  /** At most one task is scheduled or running. */
  predicate Exclusive(s: Slot)
  {
    s.queued + s.active <= 1
  }

  /** The flag is set exactly while the one task is scheduled or running. */
  predicate Claimed(s: Slot)
  {
    Exclusive(s) && (s.running <==> s.queued + s.active == 1)
  }

  /**
   * As written, two requests that both arrive before the first task
   * starts are both let through, and their two tasks run side by side.
   */
  lemma AsWrittenOverlaps()
    ensures RunAsWritten(Idle, [Request, Request]).queued == 2
    ensures RunAsWritten(Idle, [Request, Request, Start, Start]).active == 2
    ensures !Exclusive(RunAsWritten(Idle, [Request, Request]))
  {
    assert [Request, Request, Start, Start][..3] == [Request, Request, Start];
    assert [Request, Request, Start][..2] == [Request, Request];
    assert [Request, Request][..1] == [Request];
  }

  lemma ClaimedStep(s: Slot, e: Event)
    requires Claimed(s)
    ensures Claimed(StepClaimed(s, e))
  {
  }

  /** With the flag claimed by the request, every schedule keeps at most one task scheduled or running. */
  lemma {:induction false} ClaimedExclusive(es: seq<Event>)
    ensures Claimed(RunClaimed(Idle, es))
    ensures Exclusive(RunClaimed(Idle, es))
    decreases |es|
  {
    if es != [] {
      ClaimedExclusive(es[..|es| - 1]);
      ClaimedStep(RunClaimed(Idle, es[..|es| - 1]), es[|es| - 1]);
    }
  }
}

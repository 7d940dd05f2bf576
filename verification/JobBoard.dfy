/**
 Jobs and the threads that execute them: execute_sync_job_direct (scheduler/utils.py:111-157) and the guarded
 pause and resume actions (api_views.py:85-136), as steps that interleave.
 */
module JobBoard {
  import opened Wrappers
  import opened JobExecution

  type JobId = string

  /** A job's status, and whether its schedule is enabled if it has one. */
  datatype Job = Job(status: JobStatus, scheduled: Option<bool>)

  /** A live thread: its job, and whether it has saved the job's final status. It lives on for a while after that. */
  datatype Thread = Thread(job: JobId, saved: bool)

  datatype Board = Board(jobs: map<JobId, Job>, threads: seq<Thread>)

  /** The atomic steps. A thread is named by its place in the list of live threads. */
  datatype BoardStep =
    | Trigger(id: JobId)
    | Begin(thread: nat)
    | SaveEnd(thread: nat, end: ThreadEnd)
    | Exit(thread: nat)
    | Pause(id: JobId)
    | Resume(id: JobId)

  function SetStatus(b: Board, id: JobId, status: JobStatus): Board
    requires id in b.jobs
  {
    b.(jobs := b.jobs[id := b.jobs[id].(status := status)])
  }

  predicate MayStart(b: Board, id: JobId) {
    id in b.jobs && b.jobs[id].status != JobRunning && b.jobs[id].status != JobPaused
  }

  /** Under the row lock: a running or paused job is left alone, any other is marked running and gets a thread. */
  function Triggered(b: Board, id: JobId): Board {
    if MayStart(b, id) then SetStatus(b, id, JobRunning).(threads := b.threads + [Thread(id, false)]) else b
  }

  /** The thread is there and has not saved its end yet. */
  predicate AtWork(b: Board, i: nat) { i < |b.threads| && !b.threads[i].saved && b.threads[i].job in b.jobs }

  /** The executor marks the job running once more when it starts. */
  function Begun(b: Board, i: nat): Board {
    if AtWork(b, i) then SetStatus(b, b.threads[i].job, JobRunning) else b
  }

  /** The executor saves the job's final status; an escaped TableSyncError leaves the status as it is. */
  function EndSaved(b: Board, i: nat, end: ThreadEnd): Board {
    if !AtWork(b, i) then b
    else
      var after := b.(threads := b.threads[i := b.threads[i].(saved := true)]);
      if end.EscapedTableSync? then after else SetStatus(after, b.threads[i].job, StatusAfter(end))
  }

  /** Notifications are sent and connections closed; the thread is gone. */
  function Exited(b: Board, i: nat): Board {
    if i < |b.threads| && b.threads[i].saved then b.(threads := b.threads[..i] + b.threads[i + 1..]) else b
  }

  function Switched(scheduled: Option<bool>, on: bool): Option<bool> { if scheduled.Some? then Some(on) else None }

  function Paused(b: Board, id: JobId): Board {
    if id !in b.jobs || b.jobs[id].status == JobPaused || b.jobs[id].status == JobRunning then b
    else b.(jobs := b.jobs[id := Job(JobPaused, Switched(b.jobs[id].scheduled, false))])
  }

  function Resumed(b: Board, id: JobId): Board {
    if id !in b.jobs || b.jobs[id].status != JobPaused then b
    else b.(jobs := b.jobs[id := Job(JobPending, Switched(b.jobs[id].scheduled, true))])
  }

  function Next(b: Board, s: BoardStep): Board {
    match s
    case Trigger(id) => Triggered(b, id)
    case Begin(i) => Begun(b, i)
    case SaveEnd(i, end) => EndSaved(b, i, end)
    case Exit(i) => Exited(b, i)
    case Pause(id) => Paused(b, id)
    case Resume(id) => Resumed(b, id)
  }

  function Run(b: Board, steps: seq<BoardStep>): Board
    decreases |steps|
  {
    if steps == [] then b else Run(Next(b, steps[0]), steps[1..])
  }

  /** The threads of a job that have not saved their end, and all its live threads. */
  function Active(b: Board, id: JobId): nat { multiset(b.threads)[Thread(id, false)] }

  function Live(b: Board, id: JobId): nat { Active(b, id) + multiset(b.threads)[Thread(id, true)] }

  /** A thread at work implies a running job, and no job has two. */
  ghost predicate Exclusive(b: Board) {
    forall id :: Active(b, id) > 0 ==> Active(b, id) == 1 && id in b.jobs && b.jobs[id].status == JobRunning
  }

  // ---------------------------------------------------------------- exclusion

  lemma Without(threads: seq<Thread>, i: nat, t: Thread)
    requires i < |threads|
    ensures multiset(threads[..i] + threads[i + 1..])[t] == multiset(threads)[t] - (if threads[i] == t then 1 else 0)
  {
    assert threads == threads[..i] + [threads[i]] + threads[i + 1..];
  }

  lemma Added(threads: seq<Thread>, x: Thread, t: Thread)
    ensures multiset(threads + [x])[t] == multiset(threads)[t] + (if x == t then 1 else 0)
  {
  }

  lemma Replaced(threads: seq<Thread>, i: nat, x: Thread, t: Thread)
    requires i < |threads|
    ensures multiset(threads[i := x])[t]
            == multiset(threads)[t] - (if threads[i] == t then 1 else 0) + (if x == t then 1 else 0)
  {
    assert threads == threads[..i] + [threads[i]] + threads[i + 1..];
    assert threads[i := x] == threads[..i] + [x] + threads[i + 1..];
  }

  /** How each step changes the number of threads at work. */
  lemma ActiveAfter(b: Board, s: BoardStep, id: JobId)
    ensures Active(Next(b, s), id)
            == Active(b, id) + (if s == Trigger(id) && MayStart(b, id) then 1 else 0)
               - (if s.SaveEnd? && AtWork(b, s.thread) && b.threads[s.thread].job == id then 1 else 0)
  {
    hide MayStart, StatusAfter, Switched;
    match s
    case Trigger(t) => Added(b.threads, Thread(t, false), Thread(id, false));
    case Exit(i) =>
      if i < |b.threads| { Without(b.threads, i, Thread(id, false)); }
    case SaveEnd(i, end) =>
      if i < |b.threads| { Replaced(b.threads, i, b.threads[i].(saved := true), Thread(id, false)); }
    case Begin(i) =>
    case Pause(p) =>
    case Resume(r) =>
  }

  lemma AtWorkIsActive(b: Board, i: nat)
    requires AtWork(b, i)
    ensures Active(b, b.threads[i].job) > 0
  {
  }

  /** The status of a job with a thread at work stays running until that thread saves its end. */
  lemma StatusAfterStep(b: Board, s: BoardStep, id: JobId)
    requires Exclusive(b) && id in b.jobs
    ensures id in Next(b, s).jobs
    ensures b.jobs[id].status == JobRunning && !(s.SaveEnd? && AtWork(b, s.thread) && b.threads[s.thread].job == id) ==>
              Next(b, s).jobs[id].status == JobRunning
  {
  }

  lemma StepKeepsExclusive(b: Board, s: BoardStep)
    requires Exclusive(b)
    ensures Exclusive(Next(b, s))
  {
    var c := Next(b, s);
    forall id | Active(c, id) > 0 ensures Active(c, id) == 1 && id in c.jobs && c.jobs[id].status == JobRunning {
      ActiveAfter(b, s, id);
      if s.SaveEnd? && AtWork(b, s.thread) { AtWorkIsActive(b, s.thread); }
      if id in b.jobs { StatusAfterStep(b, s, id); }
      hide Active;
    }
  }

  /** Over every interleaving of the steps, a job has at most one thread at work, and only while it is running. */
  lemma {:induction false} AtMostOneThread(b: Board, steps: seq<BoardStep>)
    requires Exclusive(b)
    ensures Exclusive(Run(b, steps))
    decreases |steps|
  {
    if steps != [] {
      StepKeepsExclusive(b, steps[0]);
      AtMostOneThread(Next(b, steps[0]), steps[1..]);
    }
  }

  /**
   A thread of a job starts exactly when a trigger finds the job neither running nor paused; then every other live one
   has saved its end.
   */
  lemma StartsOnlyIdle(b: Board, s: BoardStep, id: JobId)
    requires Exclusive(b)
    ensures Live(Next(b, s), id) > Live(b, id) <==> s == Trigger(id) && MayStart(b, id)
    ensures s == Trigger(id) && MayStart(b, id) ==> Active(b, id) == 0 && Active(Next(b, s), id) == 1
  {
    ActiveAfter(b, s, id);
    match s
    case Trigger(t) =>
    case Exit(i) =>
      if i < |b.threads| {
        Without(b.threads, i, Thread(id, false));
        Without(b.threads, i, Thread(id, true));
      }
    case SaveEnd(i, end) =>
      if AtWork(b, i) { AtWorkIsActive(b, i); }
    case Begin(i) =>
    case Pause(p) =>
    case Resume(r) =>
  }

  /**
   So a job can have two live threads: in the window between the save of the end and the exit, a trigger starts another.
   */
  lemma WindowAdmitsSecond(b: Board, id: JobId, end: ThreadEnd)
    requires MayStart(b, id) && Live(b, id) == 0 && end != EscapedTableSync
    ensures Live(Next(Next(Next(b, Trigger(id)), SaveEnd(|b.threads|, end)), Trigger(id)), id) == 2
  {
    var b1 := Next(b, Trigger(id));
    var b2 := Next(b1, SaveEnd(|b.threads|, end));
    var b3 := Next(b2, Trigger(id));
    assert b2.threads == b.threads + [Thread(id, true)];
    assert b3.threads == (b.threads + [Thread(id, true)]) + [Thread(id, false)];
    hide Next;
  }

  /** Only a trigger, a pause and a resume touch a job without a thread at work, each if its status lets it. */
  lemma IdleStep(b: Board, s: BoardStep, id: JobId)
    requires id in b.jobs && Active(b, id) == 0
    requires b.jobs[id].status == JobRunning || (b.jobs[id].status == JobPaused && s != Resume(id))
    ensures id in Next(b, s).jobs && Next(b, s).jobs[id] == b.jobs[id]
  {
    if (s.Begin? || s.SaveEnd?) && AtWork(b, s.thread) { AtWorkIsActive(b, s.thread); }
    hide Active;
  }

  /** A paused job stays paused, with no thread at work, until it is resumed. */
  lemma {:induction false} PausedStaysIdle(b: Board, steps: seq<BoardStep>, id: JobId)
    requires Exclusive(b) && id in b.jobs && b.jobs[id].status == JobPaused && Resume(id) !in steps
    ensures id in Run(b, steps).jobs && Run(b, steps).jobs[id] == b.jobs[id] && Active(Run(b, steps), id) == 0
    decreases |steps|
  {
    if steps != [] {
      StepKeepsExclusive(b, steps[0]);
      IdleStep(b, steps[0], id);
      hide Active, Next;
      PausedStaysIdle(Next(b, steps[0]), steps[1..], id);
    }
  }

  /** The schedule is off, or there is none; the schedule is on, or there is none. */
  predicate IsOff(scheduled: Option<bool>) { scheduled == None || scheduled == Some(false) }

  predicate IsOn(scheduled: Option<bool>) { scheduled == None || scheduled == Some(true) }

  /**
   Behind an accepted pause, over any steps without a resume of that job, it is paused with its schedule off, no thread
   is at work for it, and no trigger starts one.
   */
  lemma PauseHolds(b: Board, steps: seq<BoardStep>, id: JobId)
    requires Exclusive(b) && id in b.jobs && Resume(id) !in steps
    requires b.jobs[id].status == JobPending || b.jobs[id].status == JobCompleted || b.jobs[id].status == JobFailed
    ensures var c := Run(Next(b, Pause(id)), steps);
            id in c.jobs && c.jobs[id].status == JobPaused && IsOff(c.jobs[id].scheduled) &&
            (c.jobs[id].scheduled.Some? <==> b.jobs[id].scheduled.Some?) && Active(c, id) == 0 &&
            Next(c, Trigger(id)) == c
  {
    StepKeepsExclusive(b, Pause(id));
    PausedStaysIdle(Next(b, Pause(id)), steps, id);
    hide Active, Run;
  }

  /** Pause is refused for a paused and a running job, resume for any that is not paused. */
  lemma RefusedSteps(b: Board, id: JobId)
    requires id in b.jobs
    ensures b.jobs[id].status == JobPaused || b.jobs[id].status == JobRunning ==> Next(b, Pause(id)) == b
    ensures b.jobs[id].status != JobPaused ==> Next(b, Resume(id)) == b
  {
  }

  /** Behind an accepted resume the job is pending with its schedule on, and a trigger starts it. */
  lemma ResumeStarts(b: Board, id: JobId)
    requires Exclusive(b) && id in b.jobs && b.jobs[id].status == JobPaused
    ensures var c := Next(b, Resume(id)); var d := Next(c, Trigger(id));
            c.jobs[id].status == JobPending && IsOn(c.jobs[id].scheduled) &&
            (c.jobs[id].scheduled.Some? <==> b.jobs[id].scheduled.Some?) && Active(c, id) == 0 &&
            d.jobs[id].status == JobRunning && Active(d, id) == 1
  {
    var c := Next(b, Resume(id));
    StepKeepsExclusive(b, Resume(id));
    StartsOnlyIdle(c, Trigger(id), id);
    hide Active;
  }

  /** A trigger starts a pending, a completed and a failed job, and leaves a running and a paused one as it is. */
  lemma TriggerStartsIff(b: Board, id: JobId)
    requires id in b.jobs
    ensures var status, c := b.jobs[id].status, Next(b, Trigger(id));
            (status == JobPending || status == JobCompleted || status == JobFailed ==>
               c.jobs[id].status == JobRunning && c.threads == b.threads + [Thread(id, false)]) &&
            (status == JobRunning || status == JobPaused ==> c == b)
  {
  }

  /** How a thread that saves its end leaves its job; a completed or failed one can be started again. */
  lemma EndLeaves(b: Board, i: nat, end: ThreadEnd)
    requires Exclusive(b) && AtWork(b, i)
    ensures var id, c := b.threads[i].job, Next(b, SaveEnd(i, end));
            c.jobs[id].status == (if end == EndsCompleted then JobCompleted
                                  else if end == EscapedTableSync then JobRunning else JobFailed) &&
            c.jobs[id].scheduled == b.jobs[id].scheduled && |c.threads| == |b.threads| &&
            (MayStart(c, id) <==> end != EscapedTableSync)
  {
    AtWorkIsActive(b, i);
    hide Active;
  }

  // ---------------------------------------------------------------- jobs that stay running

  /** Marked running, with no thread at work. */
  predicate Wedged(b: Board, id: JobId) {
    id in b.jobs && b.jobs[id].status == JobRunning && Active(b, id) == 0
  }

  /** A thread's end wedges its job exactly when a TableSyncError escaped. */
  lemma EndWedgesIff(b: Board, i: nat, end: ThreadEnd)
    requires Exclusive(b) && AtWork(b, i)
    ensures Wedged(Next(b, SaveEnd(i, end)), b.threads[i].job) <==> end == EscapedTableSync
  {
    AtWorkIsActive(b, i);
    ActiveAfter(b, SaveEnd(i, end), b.threads[i].job);
  }

  /** A wedged job is stuck: no trigger starts it, and neither pause nor resume applies to it, ever. */
  lemma {:induction false} WedgedForever(b: Board, steps: seq<BoardStep>, id: JobId)
    requires Wedged(b, id)
    ensures Wedged(Run(b, steps), id) && Run(b, steps).jobs[id] == b.jobs[id]
    decreases |steps|
  {
    if steps != [] {
      ActiveAfter(b, steps[0], id);
      IdleStep(b, steps[0], id);
      hide Active, Next;
      WedgedForever(Next(b, steps[0]), steps[1..], id);
    }
  }

  /** The shared records behind the steps. */
  class JobRecords {
    var jobs: map<JobId, Job>
    var threads: seq<Thread>

    constructor (jobs: map<JobId, Job>)
      ensures Contents() == Board(jobs, [])
    {
      this.jobs, this.threads := jobs, [];
    }

    function Contents(): Board
      reads this
    {
      Board(jobs, threads)
    }

    /** execute_sync_job_direct: the check and the mark happen under one row lock. */
    method ExecuteSyncJobDirect(id: JobId) returns (started: bool)
      modifies this
      ensures Contents() == Next(old(Contents()), Trigger(id))
      ensures started <==> MayStart(old(Contents()), id)
    {
      if id !in jobs {
        return false;
      }
      var job := jobs[id];
      if job.status == JobRunning {
        return false;
      }
      if job.status == JobPaused {
        return false;
      }
      jobs := jobs[id := job.(status := JobRunning)];
      threads := threads + [Thread(id, false)];
      return true;
    }

    /** SyncExecutor.execute marks the job running, in the thread. */
    method BeginThread(thread: nat)
      requires AtWork(Contents(), thread)
      modifies this`jobs
      ensures Contents() == Next(old(Contents()), Begin(thread))
    {
      jobs := jobs[threads[thread].job := jobs[threads[thread].job].(status := JobRunning)];
    }

    /** The thread saves how its job ended; an escaped TableSyncError leaves the job's status as it is. */
    method SaveThreadEnd(thread: nat, end: ThreadEnd)
      requires AtWork(Contents(), thread)
      modifies this
      ensures Contents() == Next(old(Contents()), SaveEnd(thread, end))
    {
      var id := threads[thread].job;
      threads := threads[thread := threads[thread].(saved := true)];
      match end
      case EndsCompleted => jobs := jobs[id := jobs[id].(status := JobCompleted)];
      case EndsFailed => jobs := jobs[id := jobs[id].(status := JobFailed)];
      case EndsUnreachable => jobs := jobs[id := jobs[id].(status := JobFailed)];
      case EscapedTableSync =>
    }

    /** The thread is over. */
    method ExitThread(thread: nat)
      requires thread < |threads| && threads[thread].saved
      modifies this`threads
      ensures Contents() == Next(old(Contents()), Exit(thread))
    {
      threads := threads[..thread] + threads[thread + 1..];
    }

    /** pause: true when the request is accepted */
    method PauseJob(id: JobId) returns (accepted: bool)
      requires id in jobs
      modifies this`jobs
      ensures Contents() == Next(old(Contents()), Pause(id))
      ensures accepted <==> old(jobs)[id].status != JobPaused && old(jobs)[id].status != JobRunning
    {
      var job := jobs[id];
      if job.status == JobPaused {
        return false;
      }
      if job.status == JobRunning {
        return false;
      }
      jobs := jobs[id := job.(status := JobPaused)];
      if job.scheduled.Some? {
        jobs := jobs[id := jobs[id].(scheduled := Some(false))];
      }
      return true;
    }

    /** resume: true when the request is accepted */
    method ResumeJob(id: JobId) returns (accepted: bool)
      requires id in jobs
      modifies this`jobs
      ensures Contents() == Next(old(Contents()), Resume(id))
      ensures accepted <==> old(jobs)[id].status == JobPaused
    {
      var job := jobs[id];
      if job.status != JobPaused {
        return false;
      }
      jobs := jobs[id := job.(status := JobPending)];
      if job.scheduled.Some? {
        jobs := jobs[id := jobs[id].(scheduled := Some(true))];
      }
      return true;
    }
  }
}

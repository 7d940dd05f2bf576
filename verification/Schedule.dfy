/**
 Next-run arithmetic and the due-job pass (scheduler/utils.py:16-108, scheduler/service.py:231-278).
 Times are microseconds since Monday 0001-01-01 00:00 on a clock with one fixed offset.
 */
module Schedule {
  import opened Wrappers
  import opened Retry
  import opened JobExecution
  import opened Timestamps

  const HOUR := 3600000000
  const DAY := MICROS_PER_DAY
  const WEEK := 604800000000

  datatype ScheduleKind = Once | Hourly | Daily | Weekly | Custom

  datatype SyncSchedule = SyncSchedule(kind: ScheduleKind, enabled: bool, nextRun: Option<nat>)

  function Floor(t: nat, unit: nat): nat
    requires unit > 0
  {
    t - t % unit
  }

  predicate InFuture(t: Option<nat>, now: nat) { t.Some? && t.value > now }

  /** calculate_next_run; cron is what the cron parser gives for a custom schedule. */
  function CalculateNextRun(s: SyncSchedule, now: nat, cron: Option<nat>): Option<nat> {
    if !s.enabled then None
    else match s.kind
      case Once => if InFuture(s.nextRun, now) then s.nextRun else None
      case Hourly => if InFuture(s.nextRun, now) then s.nextRun else Some(Floor(now, HOUR) + HOUR)
      case Daily =>
        if InFuture(s.nextRun, now) then s.nextRun
        else
          var midnight := Floor(now, DAY);
          Some(if midnight <= now then midnight + DAY else midnight)
      case Weekly =>
        if InFuture(s.nextRun, now) then s.nextRun
        else
          var weekday := (now / DAY) % 7;
          var days := (7 - weekday) % 7;
          Some(Floor(now, DAY) + (if days == 0 then 7 else days) * DAY)
      case Custom => cron
  }

  predicate Recurring(k: ScheduleKind) { k.Hourly? || k.Daily? || k.Weekly? }

  /** A full hour, a midnight, or a midnight on a Monday. */
  predicate Boundary(k: ScheduleKind, t: nat)
    requires Recurring(k)
  {
    match k
    case Hourly => t % HOUR == 0
    case Daily => t % DAY == 0
    case Weekly => t % WEEK == 0
  }

  lemma NextMultiple(now: nat, unit: nat, t: nat)
    requires unit > 0
    ensures (Floor(now, unit) + unit) % unit == 0 && Floor(now, unit) + unit > now
    ensures t > now && t % unit == 0 ==> t >= Floor(now, unit) + unit
  {
    var q := now / unit;
    assert Floor(now, unit) == unit * q;
    assert Floor(now, unit) + unit == unit * (q + 1);
    MultipleHasNoRest(q + 1, unit);
    if t > now && t % unit == 0 {
      assert t == unit * (t / unit);
      if t / unit <= q {
        SmallerMultiple(t / unit, q, unit);
      } else {
        SmallerMultiple(q + 1, t / unit, unit);
      }
    }
  }

  lemma MultipleHasNoRest(q: nat, unit: nat)
    requires unit > 0
    ensures (unit * q) % unit == 0
  {
    var d, r := (unit * q) / unit, (unit * q) % unit;
    assert unit * (q - d) == r;
    if q > d {
      SmallerMultiple(1, q - d, unit);
    } else if q < d {
      SmallerMultiple(q - d, -1, unit);
    }
  }

  lemma SmallerMultiple(a: int, b: int, unit: nat)
    requires a <= b
    ensures unit * a <= unit * b
  {
  }

  /** The weekday arithmetic finds the coming Monday. */
  lemma WeeklyIsNextWeek(now: nat)
    ensures var days := (7 - (now / DAY) % 7) % 7;
            Floor(now, DAY) + (if days == 0 then 7 else days) * DAY == Floor(now, WEEK) + WEEK
  {
    var d := now / DAY;
    var week, weekday := d / 7, d % 7;
    assert d == 7 * week + weekday;
    assert now == DAY * d + now % DAY;
    assert now == WEEK * week + (DAY * weekday + now % DAY);
    assert DAY * weekday + now % DAY < WEEK;
    assert now / WEEK == week && now % WEEK == DAY * weekday + now % DAY;
  }

  /** Without a future time stored, the next run is the least boundary strictly after now. */
  lemma NextRunIsLeastBoundary(s: SyncSchedule, now: nat, cron: Option<nat>)
    requires s.enabled && Recurring(s.kind) && !InFuture(s.nextRun, now)
    ensures var next := CalculateNextRun(s, now, cron);
            next.Some? && next.value > now && Boundary(s.kind, next.value) &&
            forall t: nat :: t > now && Boundary(s.kind, t) ==> next.value <= t
  {
    if s.kind.Weekly? { WeeklyIsNextWeek(now); }
    var unit := if s.kind.Hourly? then HOUR else if s.kind.Daily? then DAY else WEEK;
    NextMultiple(now, unit, 0);
    forall t: nat | t > now && Boundary(s.kind, t) ensures CalculateNextRun(s, now, cron).value <= t {
      NextMultiple(now, unit, t);
    }
  }

  /** What hours, days and weeks are in the calendar: a time without minutes, a midnight, a midnight on a Monday. */
  lemma BoundaryIsCalendar(t: Timestamp)
    requires Timestamps.Valid(t) && t.zone == None
    ensures var day := DayNumber(t.year, t.month, t.day);
            Instant(t) >= 0 &&
            (Boundary(Hourly, Instant(t)) <==> t.minute == 0 && t.second == 0 && t.micro == 0) &&
            (Boundary(Daily, Instant(t)) <==> t.hour == 0 && t.minute == 0 && t.second == 0 && t.micro == 0) &&
            (Boundary(Weekly, Instant(t))
             <==> day % 7 == 0 && t.hour == 0 && t.minute == 0 && t.second == 0 && t.micro == 0)
  {
    var day := DayNumber(t.year, t.month, t.day);
    DaysBeforeYearMonotone(1, t.year);
    DaysBeforeMonthMonotone(t.year, 1, t.month);
    assert DaysBeforeYear(1) == 0 && day >= 0;
    var micros := (t.minute * 60 + t.second) * 1000000 + t.micro;
    CalendarRest(day, t.hour, micros);
    hide DayNumber;
  }

  lemma CalendarRest(day: nat, hour: nat, micros: nat)
    requires hour < 24 && micros < 3600 * 1000000
    ensures var t := day * MICROS_PER_DAY + (hour * 3600 * 1000000 + micros);
            (t % HOUR == 0 <==> micros == 0) && (t % DAY == 0 <==> hour == 0 && micros == 0) &&
            (t % WEEK == 0 <==> day % 7 == 0 && hour == 0 && micros == 0)
  {
    var t := day * MICROS_PER_DAY + (hour * 3600 * 1000000 + micros);
    assert t == (day * 24 + hour) * HOUR + micros;
    assert t % HOUR == micros;
    assert t == day * DAY + (hour * HOUR + micros);
    assert t % DAY == hour * HOUR + micros;
    assert t == (day / 7) * WEEK + (day % 7 * DAY + hour * HOUR + micros);
    assert t % WEEK == day % 7 * DAY + hour * HOUR + micros;
  }

  /** A custom schedule follows the cron parser, whatever time is stored; a disabled one has no next run. */
  lemma CustomAndDisabled(s: SyncSchedule, now: nat, cron: Option<nat>)
    ensures s.enabled && s.kind == Custom ==> CalculateNextRun(s, now, cron) == cron
    ensures !s.enabled ==> CalculateNextRun(s, now, cron) == None
    ensures s.enabled && s.kind != Custom && s.nextRun.Some? && s.nextRun.value > now ==>
              CalculateNextRun(s, now, cron) == s.nextRun
    ensures s.enabled && s.kind == Once && !(s.nextRun.Some? && s.nextRun.value > now) ==>
              CalculateNextRun(s, now, cron) == None
  {
  }

  // ---------------------------------------------------------------- scheduled jobs

  datatype ScheduledJob = ScheduledJob(status: JobStatus, nextRun: Option<nat>, schedule: Option<SyncSchedule>)

  /** schedule_job_execution: both stored times are set when there is a next run, and left alone otherwise. */
  function Rescheduled(j: ScheduledJob, now: nat, cron: Option<nat>): ScheduledJob {
    if j.schedule.None? || !j.schedule.value.enabled then j
    else
      var next := CalculateNextRun(j.schedule.value, now, cron);
      if next.None? then j else j.(nextRun := next, schedule := Some(j.schedule.value.(nextRun := next)))
  }

  /** One reschedule for each reading of the clock. */
  function RescheduledAt(j: ScheduledJob, clock: seq<nat>): ScheduledJob
    decreases |clock|
  {
    if clock == [] then j else RescheduledAt(Rescheduled(j, clock[0], None), clock[1..])
  }

  /**
   The time stored in a schedule that is not custom never goes back, and one that is still ahead stays, whatever the
   clock does.
   */
  lemma {:induction false} NextRunNeverDecreases(j: ScheduledJob, clock: seq<nat>)
    requires j.schedule.Some? && !j.schedule.value.kind.Custom? && j.schedule.value.nextRun.Some?
    ensures var s := RescheduledAt(j, clock).schedule;
            s.Some? && s.value.kind == j.schedule.value.kind && s.value.nextRun.Some? &&
            s.value.nextRun.value >= j.schedule.value.nextRun.value &&
            ((forall i :: 0 <= i < |clock| ==> InFuture(j.schedule.value.nextRun, clock[i])) ==>
              s.value.nextRun == j.schedule.value.nextRun)
    decreases |clock|
  {
    if clock != [] {
      var k := Rescheduled(j, clock[0], None);
      var s := j.schedule.value;
      if s.enabled && Recurring(s.kind) && !InFuture(s.nextRun, clock[0]) {
        NextRunIsLeastBoundary(s, clock[0], None);
      }
      hide CalculateNextRun;
      assert forall i :: 0 <= i < |clock[1..]| ==> clock[1..][i] == clock[i + 1];
      NextRunNeverDecreases(k, clock[1..]);
    }
  }

  // ---------------------------------------------------------------- the due-job pass

  /** The status filter of trigger_due_jobs and load_all_jobs. */
  predicate Idle(s: JobStatus) { s.JobPending? || s.JobCompleted? || s.JobFailed? }

  /** The query of the pass selects the job. */
  predicate Due(j: ScheduledJob, now: nat) { Idle(j.status) && j.nextRun.Some? && j.nextRun.value <= now }

  /** The pass triggers the job. */
  predicate Fires(j: ScheduledJob, now: nat) { Due(j, now) && j.schedule.Some? && j.schedule.value.enabled }

  /** A pass fires exactly the pending, completed and failed jobs with an enabled schedule whose time has come. */
  lemma FiresIff(j: ScheduledJob, now: nat)
    ensures Fires(j, now)
            <==> (j.status == JobPending || j.status == JobCompleted || j.status == JobFailed) &&
                 j.nextRun.Some? && j.nextRun.value <= now && j.schedule.Some? && j.schedule.value.enabled
  {
  }

  /** A triggered job is running and rescheduled by a later reading of the clock. */
  function AfterPass(j: ScheduledJob, now: nat, later: nat, cron: Option<nat>): ScheduledJob {
    if Fires(j, now) then Rescheduled(j.(status := JobRunning), later, cron) else j
  }

  function Firing(jobs: seq<ScheduledJob>, now: nat): set<nat> {
    set i: nat | i < |jobs| && Fires(jobs[i], now)
  }

  lemma FiringStep(jobs: seq<ScheduledJob>, now: nat, i: nat)
    requires i < |jobs|
    ensures |Firing(jobs[..i + 1], now)| == |Firing(jobs[..i], now)| + (if Fires(jobs[i], now) then 1 else 0)
  {
    if Fires(jobs[i], now) {
      assert Firing(jobs[..i + 1], now) == Firing(jobs[..i], now) + {i};
    } else {
      assert Firing(jobs[..i + 1], now) == Firing(jobs[..i], now);
    }
  }

  class DueJobs {
    var jobs: seq<ScheduledJob>

    constructor (jobs: seq<ScheduledJob>)
      ensures this.jobs == jobs
    {
      this.jobs := jobs;
    }

    /** trigger_due_jobs, not interrupted: clock and cron are read once for each triggered job. */
    method TriggerDueJobs(now: nat, clock: seq<nat>, cron: seq<Option<nat>>) returns (triggered: nat)
      requires |clock| == |cron| == |jobs|
      modifies this
      ensures |jobs| == |old(jobs)|
      ensures forall i :: 0 <= i < |jobs| ==> jobs[i] == AfterPass(old(jobs)[i], now, clock[i], cron[i])
      ensures triggered == |Firing(old(jobs), now)|
    {
      var dueJobs := jobs;
      triggered := 0;
      for i := 0 to |dueJobs|
        invariant |jobs| == |dueJobs| && dueJobs == old(jobs)
        invariant forall j :: 0 <= j < i ==> jobs[j] == AfterPass(dueJobs[j], now, clock[j], cron[j])
        invariant forall j :: i <= j < |jobs| ==> jobs[j] == dueJobs[j]
        invariant triggered == |Firing(dueJobs[..i], now)|
      {
        var job := dueJobs[i];
        FiringStep(dueJobs, now, i);
        if Due(job, now) && job.schedule.Some? && job.schedule.value.enabled && job.status != JobRunning {
          jobs := jobs[i := job.(status := JobRunning)];
          triggered := triggered + 1;
          jobs := jobs[i := Rescheduled(jobs[i], clock[i], cron[i])];
        }
      }
      assert dueJobs[..|dueJobs|] == dueJobs;
    }
  }

  // ---------------------------------------------------------------- the run's own writes

  /** The clock and the cron parser as the pass reads them, and as the thread reads them when it reschedules. */
  datatype Readings = Readings(passClock: nat, passCron: Option<nat>, threadClock: nat, threadCron: Option<nat>)

  /** job.save(): every field of the thread's copy, which was loaded when the job was triggered, goes to the record. */
  function SaveWhole(row: ScheduledJob, loaded: ScheduledJob, status: JobStatus): ScheduledJob {
    row.(status := status, nextRun := loaded.nextRun)
  }

  /**
   The three writes of a run to its job, in order: the status running, the final status, and a new time read from the
   schedule. An escaped TableSyncError writes no final status, and only a completed or failed run reschedules:
   a connection error ends with the second write.
   */
  function ThreadWrite(k: nat, row: ScheduledJob, loaded: ScheduledJob, end: ThreadEnd, r: Readings): ScheduledJob {
    if k == 1 then SaveWhole(row, loaded, JobRunning)
    else if k == 2 then (if end.EscapedTableSync? then row else SaveWhole(row, loaded, StatusAfter(end)))
    else if end.EndsCompleted? || end.EndsFailed? then Rescheduled(row, r.threadClock, r.threadCron)
    else row
  }

  /** The pass reschedules from the schedule it loaded, whatever was written since. */
  function PassWrite(row: ScheduledJob, loaded: ScheduledJob, r: Readings): ScheduledJob {
    var j := Rescheduled(loaded, r.passClock, r.passCron);
    if j == loaded then row else row.(nextRun := j.nextRun, schedule := j.schedule)
  }

  /** The record of a triggered job after n writes of its run; the pass's own write came after p of them. */
  function RowAfter(j: ScheduledJob, end: ThreadEnd, p: nat, n: nat, r: Readings): ScheduledJob {
    var row := if n == 0 then j.(status := JobRunning) else ThreadWrite(n, RowAfter(j, end, p, n - 1, r), j, end, r);
    if p == n then PassWrite(row, j, r) else row
  }

  /** What the pass alone leaves is the record before the run's first write. */
  lemma PassIsFirst(j: ScheduledJob, now: nat, end: ThreadEnd, r: Readings)
    requires Fires(j, now)
    ensures AfterPass(j, now, r.passClock, r.passCron) == RowAfter(j, end, 0, 0, r)
  {
  }

  /** The record still, or again, carries the time that was due. */
  predicate Stale(end: ThreadEnd, p: nat, n: nat) { p < 2 && (n == 2 || end.EndsUnreachable?) }

  lemma RecurringMoves(s: SyncSchedule, now: nat, cron: Option<nat>)
    requires s.enabled && Recurring(s.kind)
    ensures CalculateNextRun(s, now, cron).Some? && CalculateNextRun(s, now, cron).value > now
    ensures InFuture(s.nextRun, now) ==> CalculateNextRun(s, now, cron) == s.nextRun
  {
  }

  /**
   When a later pass fires the job again, at any moment of the run behind the pass's own write: the final status is
   saved, and either the record carries the old time or the schedule's new one has come.
   */
  lemma FiresAgainIff(j: ScheduledJob, now: nat, end: ThreadEnd, p: nat, n: nat, r: Readings, next: nat)
    requires Fires(j, now) && Recurring(j.schedule.value.kind) && p <= n <= 3 && now <= next
    requires p <= 2 ==> r.passClock <= r.threadClock
    ensures var row := RowAfter(j, end, p, n, r);
            row.schedule.Some? && row.schedule.value.nextRun.Some? && row.schedule.value.nextRun.value > r.passClock &&
            (Fires(row, next)
             <==> n >= 2 && !end.EscapedTableSync? && (Stale(end, p, n) || next >= row.schedule.value.nextRun.value))
  {
    var s := j.schedule.value;
    var moved := s.(nextRun := CalculateNextRun(s, r.passClock, r.passCron));
    RecurringMoves(s, r.passClock, r.passCron);
    RecurringMoves(s, r.threadClock, r.threadCron);
    RecurringMoves(moved, r.threadClock, r.threadCron);
    RowBeforeReschedule(j, end, p, if n == 3 then 2 else n, r);
    hide CalculateNextRun;
    if n == 3 { assert RowAfter(j, end, p, 3, r) == LastWrites(RowAfter(j, end, p, 2, r), j, end, p, r); }
  }

  function LastWrites(row: ScheduledJob, j: ScheduledJob, end: ThreadEnd, p: nat, r: Readings): ScheduledJob {
    var last := ThreadWrite(3, row, j, end, r);
    if p == 3 then PassWrite(last, j, r) else last
  }

  /**
   The record before the run reschedules: a save behind the pass's write brings back the old time, but not the old
   schedule.
   */
  lemma {:induction false} RowBeforeReschedule(j: ScheduledJob, end: ThreadEnd, p: nat, k: nat, r: Readings)
    requires j.schedule.Some? && j.schedule.value.enabled && k <= 2
    requires CalculateNextRun(j.schedule.value, r.passClock, r.passCron).Some?
    ensures var row := RowAfter(j, end, p, k, r);
            var next := CalculateNextRun(j.schedule.value, r.passClock, r.passCron);
            row.status == (if k < 2 || end.EscapedTableSync? then JobRunning else StatusAfter(end)) &&
            row.schedule == (if p <= k then Some(j.schedule.value.(nextRun := next)) else j.schedule) &&
            row.nextRun == if p == k || (p == 1 && k == 2 && end.EscapedTableSync?) then next else j.nextRun
  {
    hide CalculateNextRun;
    if k > 0 { RowBeforeReschedule(j, end, p, k - 1, r); }
  }

  /**
   Once the run is over, the job waits for its schedule's new time, except exactly when it ended in a connection error
   whose save came behind the pass's write: then the due time is back, and every later pass fires the job again.
   */
  lemma EndedRunFiresAgainIff(j: ScheduledJob, now: nat, end: ThreadEnd, p: nat, r: Readings, next: nat)
    requires Fires(j, now) && Recurring(j.schedule.value.kind) && p <= 3 && (p <= 2 ==> r.passClock <= r.threadClock)
    requires var row := RowAfter(j, end, p, 3, r);
             now <= next &&
             (row.schedule.Some? && row.schedule.value.nextRun.Some? ==> next < row.schedule.value.nextRun.value)
    ensures Fires(RowAfter(j, end, p, 3, r), next) <==> end.EndsUnreachable? && p < 2
  {
    FiresAgainIff(j, now, end, p, 3, r, next);
    hide RowAfter;
  }

  /**
   The same by what happens in the run: before its new time an ended job fires again exactly when the record was created
   and a server did not answer in three attempts, or the inner executor met a connection error, and that was saved
   behind the pass.
   */
  lemma CallFiresAgainIff(j: ScheduledJob, now: nat, s: CallScript, p: nat, r: Readings, next: nat)
    requires Fires(j, now) && Recurring(j.schedule.value.kind) && p <= 3 && (p <= 2 ==> r.passClock <= r.threadClock)
    requires var row := RowAfter(j, EndOf(s), p, 3, r);
             now <= next &&
             (row.schedule.Some? && row.schedule.value.nextRun.Some? ==> next < row.schedule.value.nextRun.value)
    ensures Fires(RowAfter(j, EndOf(s), p, 3, r), next)
            <==> p < 2 && s.created &&
                 (ThreeFail(s.source) || ThreeFail(s.target) ||
                  (s.syncType != UnknownType && s.inner.Raises? && s.inner.error == ConnectionError))
  {
    EndOfCall(s);
    hide EndOf, RowAfter;
    EndedRunFiresAgainIff(j, now, EndOf(s), p, r, next);
  }

  /** An hourly job that is due at its hour, and whose databases do not answer, fires again at the next pass. */
  lemma UnreachableFiresTwice()
    ensures var hourly := SyncSchedule(Hourly, true, Some(HOUR));
            var j := ScheduledJob(JobCompleted, Some(HOUR), Some(hourly));
            var r := Readings(HOUR + 1, None, HOUR + 4000000, None);
            Fires(j, HOUR) && Fires(RowAfter(j, EndsUnreachable, 1, 3, r), HOUR + 60000000) &&
            RowAfter(j, EndsUnreachable, 1, 3, r).schedule == Some(hourly.(nextRun := Some(2 * HOUR)))
  {
    var hourly := SyncSchedule(Hourly, true, Some(HOUR));
    var j := ScheduledJob(JobCompleted, Some(HOUR), Some(hourly));
    var r := Readings(HOUR + 1, None, HOUR + 4000000, None);
    assert RowAfter(j, EndsUnreachable, 1, 0, r) == j.(status := JobRunning);
    assert RowAfter(j, EndsUnreachable, 1, 1, r)
           == ScheduledJob(JobRunning, Some(2 * HOUR), Some(hourly.(nextRun := Some(2 * HOUR))));
    assert RowAfter(j, EndsUnreachable, 1, 2, r)
           == ScheduledJob(JobFailed, Some(HOUR), Some(hourly.(nextRun := Some(2 * HOUR))));
  }

  /** Of a `once` job only a schedule time that is ahead of the last write's clock moves the record out of the way. */
  predicate OnceMoved(s: SyncSchedule, end: ThreadEnd, p: nat, r: Readings) {
    (InFuture(s.nextRun, r.threadClock) && (end.EndsCompleted? || end.EndsFailed?)) ||
    (InFuture(s.nextRun, r.passClock) && p >= 2)
  }

  /**
   A `once` job that has run fires again at every later pass, unless it escaped or was moved to a time not yet come.
   */
  lemma OnceFiresAgainIff(j: ScheduledJob, now: nat, end: ThreadEnd, p: nat, r: Readings, next: nat)
    requires Fires(j, now) && j.schedule.value.kind.Once? && p <= 3 && now <= next
    ensures Fires(RowAfter(j, end, p, 3, r), next)
            <==> !end.EscapedTableSync? &&
                 (OnceMoved(j.schedule.value, end, p, r) ==> next >= j.schedule.value.nextRun.value)
  {
    var s := j.schedule.value;
    assert RowAfter(j, end, p, 0, r).schedule == j.schedule;
    assert RowAfter(j, end, p, 1, r).schedule == j.schedule;
    assert RowAfter(j, end, p, 2, r).schedule == j.schedule;
  }
}

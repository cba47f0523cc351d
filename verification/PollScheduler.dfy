/** Which read runs next: earliest-due-first selection, alternating with a warm-up queue. */
module PollScheduler {
  import opened Wrappers

  const UNREAD_GROUP_RETRY_SECONDS: real := 60.0
  const SILENT_ROOM_POLL_SECONDS: real := 60.0

  type JobId = nat

  function Max(a: real, b: real): real {
    if a < b then b else a
  }

  function Min(a: real, b: real): real {
    if a < b then a else b
  }

  /** A job's interval: its own; while it never read anything at most a minute, or the time polling has run if
      that is longer; while its unit is silent at least a minute. */
  function Interval(seconds: real, elapsed: real, neverRead: bool, roomSilent: bool): (interval: real)
    requires seconds > 0.0
    ensures interval > 0.0
    ensures !roomSilent && !neverRead ==> interval == seconds
    ensures !roomSilent && neverRead ==> interval <= seconds && (interval <= 60.0 || interval <= elapsed)
    ensures interval >= seconds || (neverRead && interval >= 60.0 && interval >= elapsed)
    ensures roomSilent ==> interval >= 60.0
    ensures roomSilent && interval != 60.0 ==> interval <= seconds && (neverRead ==> interval <= elapsed)
  {
    var retried := if neverRead then Min(seconds, Max(UNREAD_GROUP_RETRY_SECONDS, elapsed)) else seconds;
    if roomSilent then Max(retried, SILENT_ROOM_POLL_SECONDS) else retried
  }

  // -------------------------------------------------------------------
  //  Selection
  // -------------------------------------------------------------------

  /** When each job is due, the jobs still to be warmed up, and whose turn it is. */
  datatype Schedule = Schedule(due: seq<real>, startup: seq<JobId>, startupTurn: bool)
  {
    predicate Valid() {
      && (forall i | 0 <= i < |startup| :: startup[i] < |due|)
      && (forall i, j | 0 <= i < j < |startup| :: startup[i] != startup[j])
    }

    /** Due, and not waiting for its warm-up. */
    predicate Ready(job: JobId, now: real) {
      job < |due| && job !in startup && due[job] <= now
    }
  }

  /** `job` is ready and has been due the longest; of several, the first. */
  ghost predicate LongestDue(s: Schedule, job: JobId, now: real) {
    && s.Ready(job, now)
    && forall other: JobId | s.Ready(other, now) ::
         s.due[job] <= s.due[other] && (other < job ==> s.due[job] < s.due[other])
  }

  ghost predicate NothingReady(s: Schedule, now: real) {
    forall job: JobId :: !s.Ready(job, now)
  }

  /** One tick that runs a read: which job, whether from the warm-up queue, when, and when the job is
      due next. */
  datatype Round = Round(job: JobId, startup: bool, at: real, dueNext: real)

  /** Schedule `s` selects `job` at `now`, from the warm-up queue or not. */
  ghost predicate Chooses(s: Schedule, job: JobId, startup: bool, now: real) {
    if s.startup != [] && (s.startupTurn || NothingReady(s, now)) then startup && job == s.startup[0]
    else !startup && LongestDue(s, job, now)
  }

  /** The queue and the turn after a selection. */
  function Turned(s: Schedule, startup: bool): Schedule {
    if s.startup == [] then s
    else if startup then s.(startup := s.startup[1..], startupTurn := false)
    else s.(startupTurn := true)
  }

  function After(s: Schedule, r: Round): Schedule
    requires r.job < |s.due|
  {
    Turned(s, r.startup).(due := s.due[r.job := r.dueNext])
  }

  /** A run of ticks: each chosen in the schedule the ones before it left, at no earlier time, and
      with a positive interval. */
  ghost predicate Runs(s: Schedule, run: seq<Round>)
    decreases |run|
  {
    run != [] ==>
      && Chooses(s, run[0].job, run[0].startup, run[0].at) && run[0].job < |s.due| && run[0].dueNext > run[0].at
      && (|run| > 1 ==> run[0].at <= run[1].at)
      && Runs(After(s, run[0]), run[1..])
  }

  lemma AfterValid(s: Schedule, r: Round)
    requires s.Valid() && Chooses(s, r.job, r.startup, r.at) && r.job < |s.due|
    ensures After(s, r).Valid()
  {
  }

  // -------------------------------------------------------------------
  //  Bounded bypass
  // -------------------------------------------------------------------

  /** Having run at or after `deadline`, `job` cannot run again before a job due at `deadline`. */
  ghost predicate Behind(s: Schedule, job: JobId, deadline: real) {
    job < |s.due| && job !in s.startup && s.due[job] > deadline
  }

  lemma {:induction false} BehindStays(s: Schedule, run: seq<Round>, waiting: JobId, job: JobId)
    requires s.Valid() && Runs(s, run) && run != []
    requires s.Ready(waiting, run[0].at) && (forall r | r in run :: r.job != waiting)
    requires Behind(s, job, s.due[waiting])
    ensures forall r | r in run :: r.job != job
    decreases |run|
  {
    var next := After(s, run[0]);
    AfterValid(s, run[0]);
    assert run[0] in run;
    if |run| > 1 {
      assert run[1..][0] == run[1];
      BehindStays(next, run[1..], waiting, job);
    }
    assert run == [run[0]] + run[1..];
  }

  /** A due job outside the warm-up queue is overtaken by each other job at most once. */
  lemma {:induction false} OvertakenOnce(s: Schedule, run: seq<Round>, waiting: JobId)
    requires s.Valid() && Runs(s, run) && run != []
    requires s.Ready(waiting, run[0].at) && (forall r | r in run :: r.job != waiting)
    ensures forall i, j | 0 <= i < j < |run| :: run[i].job != run[j].job
    decreases |run|
  {
    if |run| > 1 {
      var next := After(s, run[0]);
      AfterValid(s, run[0]);
      assert run[0] in run && run[1..][0] == run[1];
      OvertakenOnce(next, run[1..], waiting);
      BehindStays(next, run[1..], waiting, run[0].job);
      forall i, j | 0 <= i < j < |run|
        ensures run[i].job != run[j].job
      {
        assert run[j] == run[1..][j - 1];
        if i > 0 {
          assert run[i] == run[1..][i - 1];
        }
      }
    }
  }

  lemma {:induction false} Pigeonhole(values: seq<nat>, bound: nat)
    requires forall i | 0 <= i < |values| :: values[i] < bound
    requires forall i, j | 0 <= i < j < |values| :: values[i] != values[j]
    ensures |values| <= bound
  {
    if values != [] {
      assert values[0] < bound;
      if bound - 1 in values {
        var i :| 0 <= i < |values| && values[i] == bound - 1;
        var rest := values[..i] + values[i + 1..];
        forall k | 0 <= k < |rest|
          ensures rest[k] < bound - 1
        {
          assert rest[k] == values[if k < i then k else k + 1];
        }
        Pigeonhole(rest, bound - 1);
      } else {
        Pigeonhole(values, bound - 1);
      }
    }
  }

  lemma {:induction false} JobsExist(s: Schedule, run: seq<Round>)
    requires Runs(s, run)
    ensures forall r | r in run :: r.job < |s.due|
    decreases |run|
  {
    if run != [] {
      JobsExist(After(s, run[0]), run[1..]);
      assert run == [run[0]] + run[1..];
    }
  }

  /** So it runs after at most n - 1 other reads, during the warm-up or after it. */
  lemma BoundedBypass(s: Schedule, run: seq<Round>, waiting: JobId)
    requires s.Valid() && Runs(s, run) && run != []
    requires s.Ready(waiting, run[0].at) && (forall r | r in run :: r.job != waiting)
    ensures |run| <= |s.due| - 1
  {
    OvertakenOnce(s, run, waiting);
    JobsExist(s, run);
    var jobs := seq(|run|, i requires 0 <= i < |run| => run[i].job) + [waiting];
    forall i | 0 <= i < |jobs|
      ensures jobs[i] < |s.due|
    {
      if i < |run| {
        assert run[i] in run;
      }
    }
    forall i, j | 0 <= i < j < |jobs|
      ensures jobs[i] != jobs[j]
    {
      assert run[i] in run;
    }
    Pigeonhole(jobs, |s.due|);
  }

  // -------------------------------------------------------------------
  //  Warm-up
  // -------------------------------------------------------------------

  /** The jobs a run took from the warm-up queue, in order. */
  function WarmedUp(run: seq<Round>): seq<JobId>
    decreases |run|
  {
    if run == [] then []
    else (if run[0].startup then [run[0].job] else []) + WarmedUp(run[1..])
  }

  function Final(s: Schedule, run: seq<Round>): Schedule
    requires forall r | r in run :: r.job < |s.due|
    decreases |run|
  {
    if run == [] then s else Final(After(s, run[0]), run[1..])
  }

  /** One round takes the first queued job or none. */
  lemma OneTaken(s: Schedule, r: Round)
    requires Chooses(s, r.job, r.startup, r.at) && r.job < |s.due|
    ensures (if r.startup then [r.job] else []) + After(s, r).startup == s.startup
  {
  }

  lemma Associative<T>(a: seq<T>, b: seq<T>, c: seq<T>)
    ensures (a + b) + c == a + (b + c)
  {
  }

  /** The warm-up takes the queue in order, each job once, and what it has not taken is still queued. */
  lemma {:induction false} WarmupInOrder(s: Schedule, run: seq<Round>)
    requires Runs(s, run) && (forall r | r in run :: r.job < |s.due|)
    ensures WarmedUp(run) + Final(s, run).startup == s.startup
    decreases |run|
  {
    if run == [] {
      assert WarmedUp(run) == [];
    } else {
      WarmupInOrder(After(s, run[0]), run[1..]);
      OneTaken(s, run[0]);
      Associative(if run[0].startup then [run[0].job] else [], WarmedUp(run[1..]), Final(s, run).startup);
    }
  }

  /** While jobs wait for their warm-up, two regular reads never run in a row. */
  lemma NoTwoRegularReads(s: Schedule, run: seq<Round>)
    requires Runs(s, run) && |run| >= 2 && s.startup != []
    ensures run[0].startup || run[1].startup
  {
    assert run[1..][0] == run[1];
  }

  /** A queue of k jobs is empty after 2k reads. */
  lemma {:induction false} WarmupDrains(s: Schedule, run: seq<Round>)
    requires Runs(s, run) && (forall r | r in run :: r.job < |s.due|)
    requires |run| >= 2 * |s.startup| - (if s.startupTurn && s.startup != [] then 1 else 0)
    ensures Final(s, run).startup == []
    decreases |run|
  {
    if run != [] {
      WarmupDrains(After(s, run[0]), run[1..]);
    }
  }

  // -------------------------------------------------------------------
  //  The scheduler
  // -------------------------------------------------------------------

  /** How long polling has run, and whether the job's unit has been silent for long. */
  datatype UnitAge = UnitAge(elapsed: real, silent: bool)

  class Scheduler {
    const intervals: seq<real>
    var nextDue: seq<real>
    var startupJobs: Option<seq<JobId>>
    var startupTurn: bool
    var lastReadStarted: Option<real>
    var tickSeconds: real

    ghost predicate Valid()
      reads this
    {
      && |nextDue| == |intervals| && (forall i | 0 <= i < |intervals| :: intervals[i] > 0.0)
      && State().Valid()
    }

    ghost function State(): Schedule
      reads this
    {
      Schedule(nextDue, if startupJobs.Some? then startupJobs.value else [], startupTurn)
    }

    constructor (intervals: seq<real>, due: seq<real>, tickSeconds: real)
      requires |due| == |intervals| && forall i | 0 <= i < |intervals| :: intervals[i] > 0.0
      ensures Valid() && nextDue == due && startupJobs == None && startupTurn && lastReadStarted == None
      ensures this.intervals == intervals && this.tickSeconds == tickSeconds
    {
      this.intervals := intervals;
      nextDue, startupJobs, startupTurn := due, None, true;
      lastReadStarted, this.tickSeconds := None, tickSeconds;
    }

    /** The request-rate cap still blocks the next read. */
    predicate Spaced(now: real)
      reads this
    {
      lastReadStarted.Some? && lastReadStarted.value + tickSeconds - now > 0.0
    }

    method SelectDueJob(excluded: seq<JobId>, now: real) returns (job: Option<JobId>)
      requires |nextDue| == |intervals|
      ensures job.None? ==> NothingReady(Schedule(nextDue, excluded, startupTurn), now)
      ensures job.Some? ==> LongestDue(Schedule(nextDue, excluded, startupTurn), job.value, now)
    {
      job := None;
      ghost var s := Schedule(nextDue, excluded, startupTurn);
      for i := 0 to |nextDue|
        invariant job.None? ==> forall other: JobId | other < i :: !s.Ready(other, now)
        invariant job.Some? ==> job.value < i && s.Ready(job.value, now)
        invariant job.Some? ==> forall other: JobId | other < i && s.Ready(other, now) ::
                    nextDue[job.value] <= nextDue[other] && (other < job.value ==> nextDue[job.value] < nextDue[other])
      {
        if i !in excluded && nextDue[i] <= now && (job.None? || nextDue[i] < nextDue[job.value]) {
          job := Some(i);
        }
      }
    }

    /** The job to read now, if any, and whether it comes from the warm-up queue. The queue starts
        with every job, once, unless values are already known. */
    method SelectPollJob(now: real, hasData: bool) returns (job: Option<JobId>, startup: bool)
      requires Valid()
      modifies `startupJobs, `startupTurn
      ensures Valid()
      ensures var s := if old(startupJobs).None? && !hasData then Queued(old(State())) else old(State());
              if lastReadStarted.Some? && now < lastReadStarted.value + tickSeconds then job.None? && State() == s
              else if s.startup == [] && NothingReady(s, now) then job.None? && State() == s
              else job.Some? && Chooses(s, job.value, startup, now) && State() == Turned(s, startup)
    {
      FillQueue(hasData);
      if Spaced(now) {
        return None, false;
      }
      job, startup := NextJob(now);
    }

    /** The warm-up queue is filled once. */
    method FillQueue(hasData: bool)
      requires Valid()
      modifies `startupJobs
      ensures Valid()
      ensures State() == if old(startupJobs).None? && !hasData then Queued(old(State())) else old(State())
    {
      if startupJobs.None? && !hasData {
        startupJobs := Some(Queued(Schedule(nextDue, [], startupTurn)).startup);
      }
    }

    /** The warm-up queue and the due jobs take turns. */
    method NextJob(now: real) returns (job: Option<JobId>, startup: bool)
      requires Valid()
      modifies `startupJobs, `startupTurn
      ensures Valid()
      ensures if old(State()).startup == [] && NothingReady(old(State()), now) then job.None? && State() == old(State())
              else job.Some? && Chooses(old(State()), job.value, startup, now) && State() == Turned(old(State()), startup)
    {
      var queue := startupJobs.GetOr([]);
      var due := SelectDueJob(queue, now);
      if queue != [] {
        if due.None? || startupTurn {
          startupTurn := false;
          startupJobs := Some(queue[1..]);
          return Some(queue[0]), true;
        }
        startupTurn := true;
      }
      return due, false;
    }

    /** Move a selected job on before its read, and again after it when the read was its warm-up or
        brought nothing; each time by a positive interval. */
    method Reschedule(job: JobId, startup: bool, started: real, before: UnitAge, finished: real, after: UnitAge,
                      neverRead: bool)
      requires Valid() && job < |intervals| && started <= finished
      modifies `nextDue, `lastReadStarted
      ensures Valid() && lastReadStarted == Some(started)
      ensures nextDue == old(nextDue)[job := nextDue[job]]
      ensures started < nextDue[job]
      ensures nextDue[job] ==
              if startup || neverRead then finished + Interval(intervals[job], after.elapsed, neverRead, after.silent)
              else started + Interval(intervals[job], before.elapsed, false, before.silent)
    {
      nextDue := nextDue[job := started + Interval(intervals[job], before.elapsed, false, before.silent)];
      lastReadStarted := Some(started);
      if startup || neverRead {
        nextDue := nextDue[job := finished + Interval(intervals[job], after.elapsed, neverRead, after.silent)];
      }
    }

    /** One tick: select a job and, if there is one, run its read. The tick is a round of the schedule. */
    method Tick(now: real, hasData: bool, before: UnitAge, finished: real, after: UnitAge, neverRead: bool)
      returns (ghost round: Option<Round>, job: Option<JobId>)
      requires Valid() && now <= finished
      modifies this
      ensures Valid()
      ensures var s := if old(startupJobs).None? && !hasData then Queued(old(State())) else old(State());
              && (round.None? <==> || (old(lastReadStarted).Some? && now < old(lastReadStarted).value + tickSeconds)
                                   || (s.startup == [] && NothingReady(s, now)))
              && if round.None? then job.None? && State() == s && lastReadStarted == old(lastReadStarted)
                 else job == Some(round.value.job) && round.value.at == now && Runs(s, [round.value])
                      && State() == After(s, round.value) && lastReadStarted == Some(now)
      ensures round.Some? ==>
                var (at, age) := if round.value.startup || neverRead then (finished, after) else (now, before);
                round.value.dueNext == at + Interval(intervals[round.value.job], age.elapsed, neverRead, age.silent)
    {
      ghost var s := if startupJobs.None? && !hasData then Queued(State()) else State();
      var startup;
      job, startup := SelectPollJob(now, hasData);
      if job.None? {
        return None, None;
      }
      Reschedule(job.value, startup, now, before, finished, after, neverRead);
      round := Some(Round(job.value, startup, now, nextDue[job.value]));
      assert Runs(After(s, round.value), []);
      assert [round.value][1..] == [];
    }
  }

  /** The warm-up queue as it is first filled. */
  function Queued(s: Schedule): Schedule {
    s.(startup := seq(|s.due|, i requires 0 <= i < |s.due| => i))
  }
}

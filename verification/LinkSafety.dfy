/** Safety of every legal link log: recovery pauses, request rate, link recycling and the sample window. */
module LinkSafety {
  import opened Wrappers
  import opened LinkLog

  // -------------------------------------------------------------------
  //  Prefixes
  // -------------------------------------------------------------------

  lemma LegalPrefix(settings: Settings, created: real, log: seq<Event>, k: nat)
    requires Legal(settings, created, log) && k <= |log|
    ensures Legal(settings, created, log[..k])
    ensures k < |log| ==> LegalAt(settings, created, log, k)
  {
    forall j | 0 <= j < k
      ensures LegalAt(settings, created, log[..k], j)
    {
      assert LegalAt(settings, created, log, j);
      assert log[..k][..j] == log[..j];
    }
  }

  lemma ReplayNext(created: real, log: seq<Event>, k: nat)
    requires k < |log|
    ensures Replay(created, log[..k + 1]) == Step(Replay(created, log[..k]), log[k])
    ensures Now(created, log[..k + 1]) == log[k].Last()
  {
    assert log[..k + 1][..k] == log[..k];
  }

  lemma OrderedSpan(e: Event)
    requires e.Ordered()
    ensures e.First() <= e.Last()
  {
  }

  lemma {:induction false} TimeGrows(settings: Settings, created: real, log: seq<Event>, j: nat, k: nat)
    requires Legal(settings, created, log) && j <= k <= |log|
    ensures Now(created, log[..j]) <= Now(created, log[..k])
    decreases k - j
  {
    if j < k {
      TimeGrows(settings, created, log, j, k - 1);
      LegalPrefix(settings, created, log, k - 1);
      ReplayNext(created, log, k - 1);
      OrderedSpan(log[k - 1]);
    }
  }

  // -------------------------------------------------------------------
  //  Recovery pauses
  // -------------------------------------------------------------------

  ghost predicate ReadOf(e: Option<Event>, unit: UnitId) {
    e.Some? && (e.value.Sent? || e.value.Ended?) && e.value.unit == unit && e.value.isRead
  }

  /** The pause of `unit` runs until `until`, or is over. */
  ghost predicate PauseHeld(s: Link, now: real, unit: UnitId, until: real) {
    || until <= now
    || (&& unit in s.unanswered && until <= s.unanswered[unit]
        && !ReadOf(s.inFlight, unit)
        && !(ReadOf(s.lastEnded, unit) && s.lastEnded.value.Ended? && s.lastEnded.value.outcome == Success))
  }

  lemma PauseStep(settings: Settings, s: Link, now: real, e: Event, unit: UnitId, until: real)
    requires PauseHeld(s, now, unit, until)
    requires e.Ordered() && now <= e.First() && Permitted(settings, s, e)
    ensures PauseHeld(Step(s, e), e.Last(), unit, until)
  {
    OrderedSpan(e);
    match e
    case Sent(_, _, _) =>
    case Ended(_, _, _, _, _, _) =>
    case Confirmed(_, _) =>
    case _ =>
  }

  lemma PauseBegins(s: Link, e: Event)
    requires e.Doubtful()
    ensures PauseHeld(Step(s, e), e.Last(), e.unit, e.pausedAt + READ_RECOVERY_SECONDS)
  {
  }

  lemma {:induction false} PauseKept(settings: Settings, created: real, log: seq<Event>, i: nat, k: nat)
    requires Legal(settings, created, log) && i < k <= |log| && log[i].Doubtful()
    ensures PauseHeld(Replay(created, log[..k]), Now(created, log[..k]),
                      log[i].unit, log[i].pausedAt + READ_RECOVERY_SECONDS)
  {
    ReplayNext(created, log, k - 1);
    if i + 1 < k {
      PauseKept(settings, created, log, i, k - 1);
      LegalPrefix(settings, created, log, k - 1);
      PauseStep(settings, Replay(created, log[..k - 1]), Now(created, log[..k - 1]), log[k - 1],
                log[i].unit, log[i].pausedAt + READ_RECOVERY_SECONDS);
    } else {
      PauseBegins(Replay(created, log[..i]), log[i]);
    }
  }

  /** No read is sent to a unit during the recovery pause after a read of it ended in a timeout, a
      protocol error, a lost connection or a cancel, whatever else happens on the link meanwhile. */
  lemma NoReadDuringPause(settings: Settings, created: real, log: seq<Event>, i: nat, j: nat)
    requires Legal(settings, created, log) && i < j < |log|
    requires log[i].Ended? && log[i].isRead
    requires log[i].outcome == NoAnswer || log[i].outcome == ConnectionLost || log[i].outcome == Cancelled
    requires log[j].Sent? && log[j].isRead && log[j].unit == log[i].unit
    ensures log[i].pausedAt + 5.0 <= log[j].at
  {
    PauseKept(settings, created, log, i, j);
    LegalPrefix(settings, created, log, j);
  }

  // -------------------------------------------------------------------
  //  Request rate
  // -------------------------------------------------------------------

  /** The read sent at `at` is still on the wire or has finished later. */
  ghost predicate SendTracked(s: Link, at: real) {
    || (s.inFlight.Some? && s.inFlight.value.ReadSent() && at <= s.inFlight.value.at)
    || (s.lastFinished.Some? && at <= s.lastFinished.value)
  }

  lemma SendStep(settings: Settings, s: Link, now: real, e: Event, at: real)
    requires SendTracked(s, at) && at <= now
    requires e.Ordered() && now <= e.First() && Permitted(settings, s, e)
    ensures SendTracked(Step(s, e), at)
  {
    match e
    case Sent(_, _, _) =>
    case Ended(_, _, _, _, _, _) =>
    case _ =>
  }

  lemma {:induction false} SendKept(settings: Settings, created: real, log: seq<Event>, i: nat, k: nat)
    requires Legal(settings, created, log) && i < k <= |log| && log[i].ReadSent()
    ensures SendTracked(Replay(created, log[..k]), log[i].at)
  {
    ReplayNext(created, log, k - 1);
    if i + 1 < k {
      SendKept(settings, created, log, i, k - 1);
      TimeGrows(settings, created, log, i + 1, k - 1);
      ReplayNext(created, log, i);
      LegalPrefix(settings, created, log, k - 1);
      SendStep(settings, Replay(created, log[..k - 1]), Now(created, log[..k - 1]), log[k - 1], log[i].at);
    }
  }

  /** Each read send keeps the interval in force at that moment from every earlier read send. */
  lemma SendsSpaced(settings: Settings, created: real, log: seq<Event>, i: nat, j: nat)
    requires Legal(settings, created, log) && i < j < |log| && log[i].ReadSent() && log[j].ReadSent()
    ensures log[i].at + Replay(created, log[..j]).interval <= log[j].at
  {
    SendKept(settings, created, log, i, j);
    LegalPrefix(settings, created, log, j);
  }

  function ReadSends(log: seq<Event>): nat {
    if log == [] then 0 else ReadSends(log[..|log| - 1]) + (if log[|log| - 1].ReadSent() then 1 else 0)
  }

  /** Whether every read in `log[lo..hi]` was sent under `interval`, at `start` or later. */
  ghost predicate FixedInterval(created: real, log: seq<Event>, lo: nat, hi: nat, interval: real, start: real)
    requires lo <= hi <= |log|
  {
    forall k | lo <= k < hi && log[k].ReadSent() ::
      Replay(created, log[..k]).interval == interval && start <= log[k].at
  }

  lemma ReadSendsNext(log: seq<Event>, lo: nat, hi: nat)
    requires lo < hi <= |log|
    ensures ReadSends(log[lo..hi]) == ReadSends(log[lo..hi - 1]) + (if log[hi - 1].ReadSent() then 1 else 0)
  {
    assert log[lo..hi][..hi - lo - 1] == log[lo..hi - 1];
  }

  lemma {:induction false} LastSendLate(settings: Settings, created: real, log: seq<Event>, lo: nat, hi: nat,
                                        interval: real, start: real) returns (m: nat)
    requires Legal(settings, created, log) && lo < hi <= |log|
    requires FixedInterval(created, log, lo, hi, interval, start)
    requires ReadSends(log[lo..hi]) > 0
    ensures lo <= m < hi && log[m].ReadSent()
    ensures start + Multiple(ReadSends(log[lo..hi]) - 1, interval) <= log[m].at
  {
    ReadSendsNext(log, lo, hi);
    assert log[lo..lo] == [];
    if !log[hi - 1].ReadSent() {
      m := LastSendLate(settings, created, log, lo, hi - 1, interval, start);
    } else {
      m := hi - 1;
      if ReadSends(log[lo..hi - 1]) > 0 {
        var before := LastSendLate(settings, created, log, lo, hi - 1, interval, start);
        SendsSpaced(settings, created, log, before, m);
      }
    }
  }

  /** `n` times `x`, counted out. */
  function Multiple(n: nat, x: real): real {
    if n == 0 then 0.0 else Multiple(n - 1, x) + x
  }

  lemma {:induction false} MultipleOf(n: nat, x: real, y: real)
    requires x * y == 1.0
    ensures Multiple(n, x) * y == n as real
  {
    if n == 0 {
      assert 0.0 * y == 0.0;
    } else {
      MultipleOf(n - 1, x, y);
      assert (Multiple(n - 1, x) + x) * y == Multiple(n - 1, x) * y + x * y;
    }
  }

  lemma CountWithin(n: nat, rate: real, window: real)
    requires rate > 0.0 && Multiple(n, 1.0 / rate) <= window
    ensures n <= (window * rate).Floor
  {
    MultipleOf(n, 1.0 / rate, rate);
    assert Multiple(n, 1.0 / rate) * rate <= window * rate;
  }

  /** While the rate is fixed, any stretch of the log whose read sends lie within a time window of
      length `window` holds at most floor(window * rate) + 1 of them, counting all units, retries,
      failures and cancels. */
  lemma RateBound(settings: Settings, created: real, log: seq<Event>, lo: nat, hi: nat,
                  rate: real, start: real, window: real)
    requires Legal(settings, created, log) && lo <= hi <= |log|
    requires rate > 0.0 && window >= 0.0
    requires FixedInterval(created, log, lo, hi, 1.0 / rate, start)
    requires forall k | lo <= k < hi && log[k].ReadSent() :: log[k].at <= start + window
    ensures ReadSends(log[lo..hi]) <= (window * rate).Floor + 1
  {
    var n := ReadSends(log[lo..hi]);
    assert log[lo..lo] == [];
    if n == 0 {
      CountWithin(0, rate, window);
    } else {
      var m := LastSendLate(settings, created, log, lo, hi, 1.0 / rate, start);
      CountWithin(n - 1, rate, window);
    }
  }

  // -------------------------------------------------------------------
  //  Link recycling
  // -------------------------------------------------------------------

  function Silences(log: seq<Event>): nat {
    if log == [] then 0 else Silences(log[..|log| - 1]) + (if log[|log| - 1].TimedOut? then 1 else 0)
  }

  function UnansweredAttempts(log: seq<Event>): nat {
    if log == [] then 0 else UnansweredAttempts(log[..|log| - 1]) + (if EndsUnanswered(log[|log| - 1]) then 1 else 0)
  }

  predicate EndsUnanswered(e: Event) {
    e.Ended? && e.outcome == NoAnswer
  }

  /** Every unanswered telegram is counted exactly once, before the next one is sent. */
  lemma {:induction false} SilencesCounted(settings: Settings, created: real, log: seq<Event>)
    requires Legal(settings, created, log)
    ensures var s := Replay(created, log);
            UnansweredAttempts(log) == Silences(log)
              + (if s.healthDue && s.lastEnded.Some? && s.lastEnded.value.Unanswered() then 1 else 0)
    ensures var s := Replay(created, log);
            s.inFlight.Some? ==> !s.healthDue
  {
    if log != [] {
      var before, e := log[..|log| - 1], log[|log| - 1];
      LegalPrefix(settings, created, log, |log| - 1);
      SilencesCounted(settings, created, before);
      match e
      case Ended(_, _, _, _, _, _) =>
      case _ =>
    }
  }

  function Recycles(log: seq<Event>): nat {
    if log == [] then 0 else Recycles(log[..|log| - 1]) + (if log[|log| - 1].Recycled? then 1 else 0)
  }

  predicate EndsQuiet(e: Event) {
    e.Answered? || e.Recycled?
  }

  /** Where the stretch without an answer or a recycle begins that reaches up to the end. */
  function QuietStart(log: seq<Event>): (m: nat)
    ensures m <= |log|
    ensures forall k | m <= k < |log| :: !EndsQuiet(log[k])
    ensures m > 0 ==> EndsQuiet(log[m - 1])
  {
    if log == [] || EndsQuiet(log[|log| - 1]) then |log| else QuietStart(log[..|log| - 1])
  }

  lemma QuietStep(settings: Settings, s: Link, e: Event)
    requires Permitted(settings, s, e)
    ensures EndsQuiet(e) ==> Step(s, e).timeouts == 0 && Step(s, e).quietSince == e.Last()
    ensures !EndsQuiet(e) ==> Step(s, e).quietSince == s.quietSince
    ensures !EndsQuiet(e) ==> Step(s, e).timeouts == s.timeouts + (if e.TimedOut? then 1 else 0)
    ensures Step(s, e).recycles == s.recycles + (if e.Recycled? then 1 else 0)
  {
    match e
    case Ended(_, _, _, _, _, _) =>
    case _ =>
  }

  lemma QuietNext(created: real, log: seq<Event>)
    requires log != [] && !EndsQuiet(log[|log| - 1])
    ensures var before, m := log[..|log| - 1], QuietStart(log);
            && QuietStart(before) == m && Now(created, before[..m]) == Now(created, log[..m])
            && Silences(log[m..]) == Silences(before[m..]) + (if log[|log| - 1].TimedOut? then 1 else 0)
            && UnansweredAttempts(log[m..])
               == UnansweredAttempts(before[m..]) + (if log[|log| - 1].Unanswered() then 1 else 0)
            && log[m..] == before[m..] + [log[|log| - 1]]
  {
    var n, m := |log|, QuietStart(log);
    assert log[m..][..n - m - 1] == log[..n - 1][m..];
    assert log[..n - 1][..m] == log[..m];
  }

  /** The last telegram ended in a way still to be counted, as an answer or as a silence. */
  predicate AnswerDue(s: Link) {
    s.healthDue && s.lastEnded.Some? && s.lastEnded.value.LinkAnswers()
  }

  predicate SilenceDue(s: Link) {
    s.healthDue && s.lastEnded.Some? && s.lastEnded.value.Unanswered()
  }

  lemma DueStep(settings: Settings, s: Link, e: Event)
    requires Permitted(settings, s, e) && (s.inFlight.Some? ==> !s.healthDue)
    ensures EndsQuiet(e) ==> !AnswerDue(Step(s, e)) && !SilenceDue(Step(s, e))
    ensures !EndsQuiet(e) ==> AnswerDue(Step(s, e)) == (AnswerDue(s) || e.LinkAnswers())
    ensures !EndsQuiet(e) ==>
              (if SilenceDue(Step(s, e)) then 1 else 0)
              == (if SilenceDue(s) then 1 else 0) + (if e.Unanswered() then 1 else 0) - (if e.TimedOut? then 1 else 0)
  {
    match e
    case Ended(_, _, _, _, _, _) =>
    case _ =>
  }

  lemma {:induction false} RecyclesCounted(settings: Settings, created: real, log: seq<Event>)
    requires Legal(settings, created, log)
    ensures Replay(created, log).recycles == Recycles(log)
  {
    if log != [] {
      LegalPrefix(settings, created, log, |log| - 1);
      RecyclesCounted(settings, created, log[..|log| - 1]);
      QuietStep(settings, Replay(created, log[..|log| - 1]), log[|log| - 1]);
    }
  }

  /** Since the last counted answer or recycle, an answered telegram is still to be counted, and so is the
      one unanswered telegram that was not. */
  lemma {:induction false} QuietTelegrams(settings: Settings, created: real, log: seq<Event>)
    requires Legal(settings, created, log)
    ensures var s, quiet := Replay(created, log), log[QuietStart(log)..];
            && UnansweredAttempts(quiet) == Silences(quiet) + (if SilenceDue(s) then 1 else 0)
            && (AnswerDue(s) || forall e | e in quiet :: !e.LinkAnswers())
  {
    if log != [] {
      var before, e := log[..|log| - 1], log[|log| - 1];
      LegalPrefix(settings, created, log, |log| - 1);
      QuietTelegrams(settings, created, before);
      SilencesCounted(settings, created, before);
      DueStep(settings, Replay(created, before), e);
      if !EndsQuiet(e) {
        QuietNext(created, log);
      }
    }
  }

  lemma {:induction false} QuietState(settings: Settings, created: real, log: seq<Event>)
    requires Legal(settings, created, log)
    ensures Replay(created, log).timeouts == Silences(log[QuietStart(log)..])
    ensures Replay(created, log).quietSince == Now(created, log[..QuietStart(log)])
  {
    if log != [] {
      var n := |log|;
      LegalPrefix(settings, created, log, n - 1);
      QuietState(settings, created, log[..n - 1]);
      QuietStep(settings, Replay(created, log[..n - 1]), log[n - 1]);
      if EndsQuiet(log[n - 1]) {
        assert log[..n] == log && log[n..] == [];
      } else {
        QuietNext(created, log);
      }
    }
  }

  /** Since the last counted answer or recycle, or since creation, when `linkQuiet` seconds or more have
      passed, at least `disconnectAfter` telegrams ended unanswered before a recycle and none answered. */
  lemma RecycleEarned(settings: Settings, created: real, log: seq<Event>, k: nat)
    requires Legal(settings, created, log) && k < |log| && log[k].Recycled?
    ensures var m := QuietStart(log[..k]);
            && settings.disconnectAfter <= UnansweredAttempts(log[m..k])
            && (forall e | e in log[m..k] && e.Ended? ::
                  e.outcome != Success && e.outcome != Refused && e.outcome != TargetSilent)
            && Now(created, log[..m]) + settings.linkQuiet <= log[k].checkedAt
  {
    var m := QuietStart(log[..k]);
    assert log[..k][m..] == log[m..k] && log[..k][..m] == log[..m];
    LegalPrefix(settings, created, log, k);
    QuietState(settings, created, log[..k]);
    QuietTelegrams(settings, created, log[..k]);
  }

  lemma {:induction false} RecycleAttempts(settings: Settings, created: real, log: seq<Event>, k: nat)
    requires Legal(settings, created, log) && k <= |log|
    ensures Multiple(Recycles(log[..k]), settings.disconnectAfter as real) + Replay(created, log[..k]).timeouts as real
         <= Silences(log[..k]) as real
  {
    if k > 0 {
      RecycleAttempts(settings, created, log, k - 1);
      ReplayNext(created, log, k - 1);
      LegalPrefix(settings, created, log, k - 1);
      QuietStep(settings, Replay(created, log[..k - 1]), log[k - 1]);
      CountsNext(log, k - 1);
    }
  }

  lemma CountsNext(log: seq<Event>, k: nat)
    requires k < |log|
    ensures Recycles(log[..k + 1]) == Recycles(log[..k]) + (if log[k].Recycled? then 1 else 0)
    ensures Silences(log[..k + 1]) == Silences(log[..k]) + (if log[k].TimedOut? then 1 else 0)
  {
    assert log[..k + 1][..k] == log[..k];
  }

  lemma {:induction false} RecycleTime(settings: Settings, created: real, log: seq<Event>, k: nat)
    requires Legal(settings, created, log) && k <= |log|
    ensures Multiple(Recycles(log[..k]), settings.linkQuiet) <= Replay(created, log[..k]).quietSince - created
    ensures Replay(created, log[..k]).quietSince <= Now(created, log[..k])
  {
    if k > 0 {
      RecycleTime(settings, created, log, k - 1);
      ReplayNext(created, log, k - 1);
      LegalPrefix(settings, created, log, k - 1);
      OrderedSpan(log[k - 1]);
      QuietStep(settings, Replay(created, log[..k - 1]), log[k - 1]);
      CountsNext(log, k - 1);
    }
  }

  lemma {:induction false} MultipleIsProduct(n: nat, x: real)
    ensures Multiple(n, x) == n as real * x
  {
    if n > 0 {
      MultipleIsProduct(n - 1, x);
    }
  }

  lemma AttemptProduct(recycles: nat, attempts: nat, silences: nat)
    requires Multiple(recycles, attempts as real) <= silences as real
    ensures recycles * attempts <= silences
  {
    MultipleIsProduct(recycles, attempts as real);
    assert recycles as real * attempts as real == (recycles * attempts) as real;
  }

  lemma TimeProduct(recycles: nat, quiet: real, elapsed: real)
    requires Multiple(recycles, quiet) <= elapsed
    ensures recycles as real * quiet <= elapsed
  {
    MultipleIsProduct(recycles, quiet);
  }

  lemma RecycleLedger(settings: Settings, created: real, log: seq<Event>)
    requires Legal(settings, created, log)
    ensures Multiple(Recycles(log), settings.disconnectAfter as real) <= Silences(log) as real
    ensures Multiple(Recycles(log), settings.linkQuiet) <= Now(created, log) - created
  {
    assert log[..|log|] == log;
    RecycleAttempts(settings, created, log, |log|);
    RecycleTime(settings, created, log, |log|);
  }

  /** Over any run, recycles are paid for in unanswered attempts ... */
  lemma RecycleBudget(settings: Settings, created: real, log: seq<Event>)
    requires Legal(settings, created, log)
    ensures Recycles(log) * settings.disconnectAfter <= UnansweredAttempts(log)
  {
    RecycleLedger(settings, created, log);
    SilencesCounted(settings, created, log);
    AttemptProduct(Recycles(log), settings.disconnectAfter, Silences(log));
  }

  /** ... and in time. */
  lemma RecycleTimeBudget(settings: Settings, created: real, log: seq<Event>)
    requires Legal(settings, created, log)
    ensures Recycles(log) as real * settings.linkQuiet <= Now(created, log) - created
  {
    RecycleLedger(settings, created, log);
    TimeProduct(Recycles(log), settings.linkQuiet, Now(created, log) - created);
  }

  // -------------------------------------------------------------------
  //  Communication samples
  // -------------------------------------------------------------------

  /** A request counts unless its caller was cancelled or the client closed. */
  predicate Counts(e: Event) {
    e.Ended? && e.outcome != Cancelled && e.outcome != ClientClosed
  }

  /** Its completion time and, for a success, its response time in milliseconds. */
  function Measured(e: Event, startedAt: real): Sample
    requires e.Ended?
  {
    if e.outcome == Success then Succeeded(e.recordedAt, (e.recordedAt - startedAt) * 1000.0) else Failed(e.recordedAt)
  }

  /** Every recorded request, oldest first. */
  function History(created: real, log: seq<Event>): seq<Sample> {
    if log == [] then []
    else
      var before, e := log[..|log| - 1], log[|log| - 1];
      History(created, before) + (if Counts(e) then [Measured(e, StartOf(Replay(created, before)))] else [])
  }

  function Recent(samples: seq<Sample>, now: real): seq<Sample> {
    if samples == [] then []
    else (if now - 300.0 < samples[0].at then [samples[0]] else []) + Recent(samples[1..], now)
  }

  function Oldest(n: nat): nat {
    if n <= 10000 then 0 else n - 10000
  }

  predicate Sorted(samples: seq<Sample>) {
    forall i, j | 0 <= i < j < |samples| :: samples[i].at <= samples[j].at
  }

  lemma {:induction false} PrunedIsRecent(samples: seq<Sample>, now: real)
    requires Sorted(samples)
    ensures Pruned(samples, now) == Recent(samples, now)
  {
    if samples != [] {
      if samples[0].at <= now - COMMUNICATION_WINDOW_SECONDS {
        PrunedIsRecent(samples[1..], now);
      } else {
        AllRecent(samples, now);
      }
    }
  }

  lemma {:induction false} AllRecent(samples: seq<Sample>, now: real)
    requires forall i | 0 <= i < |samples| :: now - COMMUNICATION_WINDOW_SECONDS < samples[i].at
    ensures Recent(samples, now) == samples
  {
    if samples != [] {
      AllRecent(samples[1..], now);
    }
  }

  lemma {:induction false} NoneRecent(old_: seq<Sample>, rest: seq<Sample>, now: real)
    requires forall i | 0 <= i < |old_| :: old_[i].at <= now - COMMUNICATION_WINDOW_SECONDS
    ensures Recent(old_ + rest, now) == Recent(rest, now)
  {
    if old_ == [] {
      assert old_ + rest == rest;
    } else {
      assert (old_ + rest)[1..] == old_[1..] + rest;
      NoneRecent(old_[1..], rest, now);
    }
  }

  lemma {:induction false} PrunedSuffix(samples: seq<Sample>, now: real) returns (d: nat)
    ensures d <= |samples| && Pruned(samples, now) == samples[d..]
    ensures forall i | 0 <= i < d :: samples[i].at <= now - COMMUNICATION_WINDOW_SECONDS
  {
    if samples != [] && samples[0].at <= now - COMMUNICATION_WINDOW_SECONDS {
      var rest := PrunedSuffix(samples[1..], now);
      d := rest + 1;
    } else {
      d := 0;
    }
  }

  /** The deque is the tail of the history from `d` on, and only old or crowded-out samples precede it. */
  ghost predicate Tail(history: seq<Sample>, samples: seq<Sample>, now: real, d: nat) {
    && Oldest(|history|) <= d <= |history|
    && samples == history[d..]
    && (forall i | Oldest(|history|) <= i < d :: history[i].at <= now - COMMUNICATION_WINDOW_SECONDS)
  }

  lemma {:induction false} HistorySorted(settings: Settings, created: real, log: seq<Event>)
    requires Legal(settings, created, log)
    ensures Sorted(History(created, log))
    ensures forall x | x in History(created, log) :: x.at <= Now(created, log)
  {
    if log != [] {
      LegalPrefix(settings, created, log, |log| - 1);
      HistorySorted(settings, created, log[..|log| - 1]);
      OrderedSpan(log[|log| - 1]);
    }
  }

  lemma PruneTail(history: seq<Sample>, samples: seq<Sample>, now: real, later: real, d: nat) returns (d': nat)
    requires Tail(history, samples, now, d) && now <= later
    ensures Tail(history, Pruned(samples, later), later, d')
  {
    var k := PrunedSuffix(samples, later);
    d' := d + k;
    forall i | Oldest(|history|) <= i < d'
      ensures history[i].at <= later - COMMUNICATION_WINDOW_SECONDS
    {
      assert i >= d ==> history[i] == samples[i - d];
    }
  }

  lemma AppendTail(history: seq<Sample>, samples: seq<Sample>, now: real, d: nat, x: Sample) returns (d': nat)
    requires Tail(history, samples, now, d)
    ensures Tail(history + [x], Appended(samples, x), now, d')
  {
    d' := if |samples| < MAX_SAMPLES then d else d + 1;
    assert Appended(samples, x) == (history + [x])[d'..];
  }

  lemma SamplesStep(s: Link, e: Event)
    ensures Step(s, e).samples ==
            if Recorded(e) then Appended(Pruned(s.samples, e.recordedAt), SampleOf(e, StartOf(s)))
            else if e.Diagnosed? then Pruned(s.samples, e.at)
            else s.samples
  {
    match e
    case Ended(_, _, _, _, _, _) =>
    case _ =>
  }

  lemma TailLater(history: seq<Sample>, samples: seq<Sample>, now: real, later: real, d: nat)
    requires Tail(history, samples, now, d) && now <= later
    ensures Tail(history, samples, later, d)
  {
  }

  lemma TailCounted(history: seq<Sample>, samples: seq<Sample>, now: real, at: real, later: real, d: nat, x: Sample)
    returns (d': nat)
    requires Tail(history, samples, now, d) && now <= at <= later
    ensures Tail(history + [x], Appended(Pruned(samples, at), x), later, d')
  {
    d' := PruneTail(history, samples, now, at, d);
    d' := AppendTail(history, Pruned(samples, at), at, d', x);
    TailLater(history + [x], Appended(Pruned(samples, at), x), at, later, d');
  }

  lemma TailRecorded(s: Link, e: Event, history: seq<Sample>, now: real, d: nat) returns (d': nat)
    requires Tail(history, s.samples, now, d) && e.Ordered() && now <= e.First() && Recorded(e)
    ensures Tail(history + [Measured(e, StartOf(s))], Step(s, e).samples, e.Last(), d')
  {
    var x, samples := SampleOf(e, StartOf(s)), Step(s, e).samples;
    SamplesStep(s, e);
    assert samples == Appended(Pruned(s.samples, e.recordedAt), x) && x == Measured(e, StartOf(s));
    d' := TailCounted(history, s.samples, now, e.recordedAt, e.finishedAt, d, x);
  }

  lemma TailOther(s: Link, e: Event, history: seq<Sample>, now: real, d: nat) returns (d': nat)
    requires Tail(history, s.samples, now, d) && e.Ordered() && now <= e.First() && !Recorded(e)
    ensures Tail(history, Step(s, e).samples, e.Last(), d')
  {
    OrderedSpan(e);
    SamplesStep(s, e);
    if e.Diagnosed? {
      d' := PruneTail(history, s.samples, now, e.at, d);
    } else {
      d' := d;
      TailLater(history, s.samples, now, e.Last(), d);
    }
  }

  lemma {:induction false} SamplesAreTail(settings: Settings, created: real, log: seq<Event>) returns (d: nat)
    requires Legal(settings, created, log)
    ensures Tail(History(created, log), Replay(created, log).samples, Now(created, log), d)
  {
    if log == [] {
      d := 0;
    } else {
      var before, e := log[..|log| - 1], log[|log| - 1];
      LegalPrefix(settings, created, log, |log| - 1);
      d := SamplesAreTail(settings, created, before);
      assert LegalAt(settings, created, log, |log| - 1);
      if Recorded(e) {
        d := TailRecorded(Replay(created, before), e, History(created, before), Now(created, before), d);
      } else {
        d := TailOther(Replay(created, before), e, History(created, before), Now(created, before), d);
        assert History(created, before) + [] == History(created, before);
      }
    }
  }

  lemma TailRecent(history: seq<Sample>, samples: seq<Sample>, now: real, later: real, d: nat)
    requires Tail(history, samples, now, d) && now <= later && Sorted(history)
    ensures Pruned(samples, later) == Recent(history[Oldest(|history|)..], later)
  {
    var m := Oldest(|history|);
    PrunedIsRecent(samples, later);
    assert history[m..] == history[m..d] + history[d..];
    NoneRecent(history[m..d], history[d..], later);
  }

  lemma HistoryNext(created: real, log: seq<Event>, k: nat)
    requires k < |log| && !Recorded(log[k])
    ensures History(created, log[..k + 1]) == History(created, log[..k])
  {
    assert log[..k + 1][..k] == log[..k];
  }

  /** At every diagnostics call the pruned, capped deque is exactly the last 10000 requests of the
      whole history, filtered to the communication window. */
  lemma SamplesExact(settings: Settings, created: real, log: seq<Event>, k: nat)
    requires Legal(settings, created, log) && k < |log| && log[k].Diagnosed?
    ensures var history := History(created, log[..k + 1]);
            Replay(created, log[..k + 1]).samples == Recent(history[Oldest(|history|)..], log[k].at)
  {
    LegalPrefix(settings, created, log, k);
    var d := SamplesAreTail(settings, created, log[..k]);
    HistorySorted(settings, created, log[..k]);
    SamplesStep(Replay(created, log[..k]), log[k]);
    TailRecent(History(created, log[..k]), Replay(created, log[..k]).samples, Now(created, log[..k]), log[k].at, d);
    HistoryNext(created, log, k);
    ReplayNext(created, log, k);
  }

  // -------------------------------------------------------------------
  //  After a shutdown
  // -------------------------------------------------------------------

  lemma {:induction false} ClosedStays(created: real, log: seq<Event>, j: nat, k: nat)
    requires j < k <= |log| && log[j].ShutDown?
    ensures Replay(created, log[..k]).closed
    decreases k - j
  {
    ReplayNext(created, log, k - 1);
    if j < k - 1 {
      ClosedStays(created, log, j, k - 1);
    }
  }

  /** No telegram is sent once the client was shut down. */
  lemma NothingAfterShutdown(settings: Settings, created: real, log: seq<Event>, j: nat, k: nat)
    requires Legal(settings, created, log) && j < k < |log| && log[j].ShutDown?
    ensures !log[k].Sent?
  {
    ClosedStays(created, log, j, k);
    assert LegalAt(settings, created, log, k);
  }
}

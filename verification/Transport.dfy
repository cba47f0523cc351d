/** The retry policy every unit of one gateway link shares.

    The policy is a class whose methods update their fields step by step. Its ghost `log` records
    what happened on the link; `Valid` says that the log is legal and that the fields are exactly
    the state `LinkLog.Replay` computes from it, so everything proved of legal logs holds of every
    run. The environment acts wherever the original awaits: time passes, the request rate changes,
    diagnostics are read, the client is shut down, a telegram ends in any way, and the caller is
    cancelled. Every reading of the clock may be later than the one before.
  */
module Transport {
  import opened Wrappers
  import opened LinkLog

  /** Registers the gateway bridge answers itself; reading them proves nothing about the unit. */
  const BRIDGE_RF_REGISTERS: set<int> := {40100, 40101, 40103, 40104, 40109}

  /** What a request ends with for its caller: an outcome of a telegram, or a read that was not sent. */
  datatype Verdict = Done(outcome: Outcome) | Quarantined

  predicate Interference(e: Event) {
    e.RateSet? || e.ShutDown? || e.Diagnosed?
  }

  predicate OnlyInterference(events: seq<Event>) {
    forall e | e in events :: Interference(e)
  }

  /** The outcomes of the telegrams that ended, in order. */
  function Ends(events: seq<Event>): seq<Outcome> {
    if events == [] then []
    else Ends(events[..|events| - 1]) + (if events[|events| - 1].Ended? then [events[|events| - 1].outcome] else [])
  }

  function Sends(events: seq<Event>): nat {
    if events == [] then 0 else Sends(events[..|events| - 1]) + (if events[|events| - 1].Sent? then 1 else 0)
  }

  lemma {:induction false} EndsAppend(a: seq<Event>, b: seq<Event>)
    ensures Ends(a + b) == Ends(a) + Ends(b) && Sends(a + b) == Sends(a) + Sends(b)
  {
    if b == [] {
      assert a + b == a;
    } else {
      EndsAppend(a, b[..|b| - 1]);
      assert (a + b)[..|a + b| - 1] == a + b[..|b| - 1];
    }
  }

  lemma {:induction false} InterferenceEnds(events: seq<Event>)
    requires OnlyInterference(events)
    ensures Ends(events) == [] && Sends(events) == 0
  {
    if events != [] {
      InterferenceEnds(events[..|events| - 1]);
      assert Interference(events[|events| - 1]);
    }
  }

  lemma EndsNext(log: seq<Event>, e: Event)
    ensures Ends(log + [e]) == Ends(log) + (if e.Ended? then [e.outcome] else [])
    ensures Sends(log + [e]) == Sends(log) + (if e.Sent? then 1 else 0)
  {
    assert (log + [e])[..|log|] == log;
  }

  /** The log grew by the doings of other tasks only. */
  ghost predicate Interfered(before: seq<Event>, after: seq<Event>) {
    before <= after && OnlyInterference(after[|before|..])
  }

  lemma InterferedOnce(before: seq<Event>, e: Event)
    requires Interference(e)
    ensures Interfered(before, before + [e])
  {
    assert (before + [e])[|before|..] == [e];
  }

  lemma InterferedEnds(before: seq<Event>, after: seq<Event>)
    requires Interfered(before, after)
    ensures Ends(after) == Ends(before) && Sends(after) == Sends(before)
  {
    assert after == before + after[|before|..];
    EndsAppend(before, after[|before|..]);
    InterferenceEnds(after[|before|..]);
  }

  lemma InterferedTwice(before: seq<Event>, mid: seq<Event>, after: seq<Event>)
    requires Interfered(before, mid) && Interfered(mid, after)
    ensures Interfered(before, after)
  {
    assert after[|before|..] == mid[|before|..] + after[|mid|..];
  }

  predicate Retryable(o: Outcome) {
    o in {TargetSilent, NoAnswer, ConnectionLost}
  }

  /** How the telegrams of one attempt decide its outcome. A cancel can also hit the disconnect
      that follows an unanswered telegram. */
  predicate AttemptDecided(ends: seq<Outcome>, o: Outcome) {
    || ends == [o]
    || (ends == [NoAnswer] && o == Cancelled)
    || (ends == [] && o in {Cancelled, ClientClosed})
  }

  /** How the telegrams of one request decide its verdict: at most two are sent, the second only
      after a retryable end; an unsent retry means a cancel, a shutdown, or a read whose own first
      telegram paused the unit. */
  predicate RunDecided(isRead: bool, ends: seq<Outcome>, v: Verdict) {
    match |ends|
    case 0 => (v == Quarantined && isRead) || v == Done(Cancelled) || v == Done(ClientClosed)
    case 1 => if Retryable(ends[0])
              then || v == Done(Cancelled) || v == Done(ClientClosed)
                   || (isRead && v == Done(ends[0]) && ends[0] in {NoAnswer, ConnectionLost})
              else v == Done(ends[0])
    case 2 => Retryable(ends[0]) && (v == Done(ends[1]) || (ends[1] == NoAnswer && v == Done(Cancelled)))
    case _ => false
  }

  /** What the doings of other tasks leave alone. */
  predicate SameTelegram(before: Link, after: Link) {
    && after.inFlight == before.inFlight
    && after.lastEnded == before.lastEnded
    && after.healthDue == before.healthDue
  }

  /** `unit`, and no other, has a new pause that began after `from`. */
  predicate Repaused(before: map<UnitId, real>, after: map<UnitId, real>, unit: UnitId, from: real) {
    && unit in after && after == before[unit := after[unit]]
    && from + READ_RECOVERY_SECONDS <= after[unit]
  }

  /** Only the pause of `unit` may differ, and it is not lifted. */
  predicate PausesKept(before: map<UnitId, real>, after: map<UnitId, real>, unit: UnitId) {
    before - {unit} == after - {unit} && (unit in before ==> unit in after)
  }

  lemma RepausedKeeps(before: map<UnitId, real>, after: map<UnitId, real>, unit: UnitId, from: real)
    requires after == before || Repaused(before, after, unit, from)
    ensures PausesKept(before, after, unit)
  {
    assert before - {unit} == after - {unit};
  }

  /** The telegram that ended last. */
  predicate LastEnded(s: Link, unit: UnitId, isRead: bool, o: Outcome) {
    && s.lastEnded.Some? && s.lastEnded.value.Ended?
    && s.lastEnded.value.unit == unit && s.lastEnded.value.isRead == isRead && s.lastEnded.value.outcome == o
  }

  /** Its answer or silence is still to be counted, if it had one. */
  predicate HealthPending(s: Link) {
    s.lastEnded.Some? && s.healthDue == (s.lastEnded.value.LinkAnswers() || s.lastEnded.value.Unanswered())
  }

  /** No telegram is on the wire, and the last one's outcome has been counted. */
  predicate Idle(s: Link) {
    s.inFlight.None? && !s.healthDue
  }

  lemma RetryDecided(isRead: bool, first: seq<Outcome>, o: Outcome, second: seq<Outcome>, final: Outcome)
    requires AttemptDecided(first, o) && Retryable(o)
    requires || AttemptDecided(second, final)
             || (second == [] && final == o && isRead && (o == NoAnswer || o == ConnectionLost))
    ensures RunDecided(isRead, first + second, Done(final))
  {
    assert first == [o];
  }

  lemma CountTimeoutEnds(before: seq<Event>, at: real, after: seq<Event>)
    requires after == before + [TimedOut(at)]
          || exists checkedAt, recycledAt ::
               Interfered(before + [TimedOut(at), Recycled(checkedAt, recycledAt)], after)
    ensures Ends(after) == Ends(before) && Sends(after) == Sends(before)
  {
    EndsNext(before, TimedOut(at));
    if after != before + [TimedOut(at)] {
      var checkedAt, recycledAt :| Interfered(before + [TimedOut(at), Recycled(checkedAt, recycledAt)], after);
      var counted := before + [TimedOut(at)];
      EndsNext(counted, Recycled(checkedAt, recycledAt));
      assert counted + [Recycled(checkedAt, recycledAt)] == before + [TimedOut(at), Recycled(checkedAt, recycledAt)];
      InterferedEnds(before + [TimedOut(at), Recycled(checkedAt, recycledAt)], after);
    }
  }

  lemma EndedStep(settings: Settings, s: Link, startedAt: real, unit: UnitId, isRead: bool, o: Outcome,
                  pausedAt: real, recordedAt: real, finishedAt: real)
    requires s.inFlight == Some(Sent(startedAt, unit, isRead)) && pausedAt <= recordedAt <= finishedAt
    ensures var e := Ended(unit, isRead, o, pausedAt, recordedAt, finishedAt);
            var t := Step(s, e);
            && e.Ordered() && e.First() == pausedAt && e.Last() == finishedAt
            && Permitted(settings, s, e)
            && t.unanswered == (if isRead && o.Uncertain() then s.unanswered[unit := pausedAt + READ_RECOVERY_SECONDS]
                                else s.unanswered)
            && t.samples == (if o.Recorded() then Appended(Pruned(s.samples, recordedAt), SampleFor(o, startedAt, recordedAt))
                             else s.samples)
            && t.lastFinished == (if isRead then Some(finishedAt) else s.lastFinished)
            && LastEnded(t, unit, isRead, o) && HealthPending(t) && t.inFlight.None?
            && t.(unanswered := s.unanswered, samples := s.samples, lastFinished := s.lastFinished)
            == s.(inFlight := None, lastEnded := Some(e), healthDue := e.LinkAnswers() || e.Unanswered())
  {
  }

  datatype LinkHealth = LinkHealth(timeouts: nat, quietSince: real, recycles: nat)

  predicate SameRest(s: Link, t: Link) {
    && t.lastReadAnswer == s.lastReadAnswer && t.unanswered == s.unanswered && t.interval == s.interval
    && t.lastFinished == s.lastFinished && t.closed == s.closed && t.samples == s.samples
  }

  lemma RecycledStep(settings: Settings, s: Link, checkedAt: real, at: real)
    requires !s.healthDue && settings.disconnectAfter <= s.timeouts
    requires s.quietSince + settings.linkQuiet <= checkedAt <= at
    ensures var e := Recycled(checkedAt, at);
            var t := Step(s, e);
            && e.Ordered() && e.First() == checkedAt && e.Last() == at && Permitted(settings, s, e)
            && t.timeouts == 0 && t.quietSince == at && t.recycles == s.recycles + 1
            && SameTelegram(s, t) && SameRest(s, t)
  {
  }

  /** The link health a telegram leaves that was sent after `since` and counted by `now`: an answer starts a
      new quiet stretch, a silence is counted and recycles the link exactly when enough of them met a long
      enough one, anything else changes nothing. */
  ghost predicate HealthCounted(settings: Settings, o: Outcome, before: LinkHealth, after: LinkHealth, since: real, now: real) {
    if o == Success || o == Refused || o == TargetSilent then
      after.timeouts == 0 && since <= after.quietSince <= now && after.recycles == before.recycles
    else if o == NoAnswer then
      if after.recycles == before.recycles then
        && after.timeouts == before.timeouts + 1 && after.quietSince == before.quietSince
        && (after.timeouts < settings.disconnectAfter || now < before.quietSince + settings.linkQuiet)
      else
        && after.timeouts == 0 && after.recycles == before.recycles + 1
        && settings.disconnectAfter <= before.timeouts + 1 && before.quietSince + settings.linkQuiet <= after.quietSince <= now
    else
      after == before
  }

  class TransportPolicy {
    const settings: Settings
    ghost const created: real

    // The monotonic clock, as last read or awaited.
    var clock: real
    var consecutiveTimeouts: nat
    var quietSince: real
    var lastReadAnswer: map<UnitId, real>
    var linkRecycles: nat
    var unansweredReads: map<UnitId, real>
    var readInterval: real
    var lastReadFinished: Option<real>
    var closed: bool
    var requestSamples: seq<Sample>

    // What happened on the link, and the state this implies.
    ghost var log: seq<Event>
    ghost var link: Link
    // The environment's: how often the rate will still change while requests wait.
    var rateChangesLeft: nat
    // How often a caller was cancelled while it waited.
    ghost var cancels: nat

    /** The fields are those of `link`. */
    ghost predicate InStep()
      reads this
    {
      && consecutiveTimeouts == link.timeouts && quietSince == link.quietSince
      && lastReadAnswer == link.lastReadAnswer && linkRecycles == link.recycles
      && unansweredReads == link.unanswered && readInterval == link.interval
      && lastReadFinished == link.lastFinished && closed == link.closed
      && requestSamples == link.samples
    }

    ghost predicate Logged()
      reads `log, `link, `clock
    {
      && Legal(settings, created, log)
      && Now(created, log) <= clock
      && link == Replay(created, log)
    }

    ghost predicate Valid()
      reads this
    {
      Logged() && InStep()
    }

    ghost function Health(): LinkHealth
      reads this
    {
      LinkHealth(consecutiveTimeouts, quietSince, linkRecycles)
    }

    /** The recovery pause of `unit` is still running. */
    ghost predicate PauseRuns(unit: UnitId)
      reads this
    {
      unit in unansweredReads && clock < unansweredReads[unit]
    }

    /** The request rate allows a read now. */
    ghost predicate SlotIsOpen()
      reads this
    {
      lastReadFinished.Some? ==> lastReadFinished.value + readInterval <= clock
    }

    constructor (settings: Settings, now: real, rateChanges: nat)
      ensures Valid() && this.settings == settings && created == now && log == []
    {
      this.settings := settings;
      created := now;
      clock := now;
      consecutiveTimeouts := 0;
      quietSince := now;
      lastReadAnswer := map[];
      linkRecycles := 0;
      unansweredReads := map[];
      readInterval := 0.0;
      lastReadFinished := None;
      closed := false;
      requestSamples := [];
      rateChangesLeft := rateChanges;
      log, link, cancels := [], Created(now), 0;
    }

    method Monotonic() returns (now: real)
      modifies `clock
      ensures old(clock) <= now == clock
    {
      var passed: real := *;
      if passed > 0.0 {
        clock := clock + passed;
      }
      now := clock;
    }

    /** Add `e` to the log; the fields follow. */
    ghost method Append(e: Event)
      requires Logged() && Now(created, log) <= e.First() && e.Ordered() && e.Last() <= clock
      requires Permitted(settings, link, e)
      modifies `log, `link
      ensures Logged() && log == old(log) + [e] && link == Step(old(link), e)
    {
      LegalAppend(settings, created, log, e);
      assert (log + [e])[..|log|] == log;
      log, link := log + [e], Step(link, e);
    }

    /** Retune the read limit; a rate that is not positive is rejected. */
    method UpdateRequestRate(maxRequestsPerSecond: real) returns (ok: bool)
      requires Valid()
      modifies `readInterval, `log, `link
      ensures Valid() && SameTelegram(old(link), link)
      ensures ok <==> maxRequestsPerSecond > 0.0
      ensures ok ==> readInterval == 1.0 / maxRequestsPerSecond
      ensures !ok ==> readInterval == old(readInterval)
      ensures log == old(log) + (if ok then [RateSet(clock, readInterval)] else []) && Interfered(old(log), log)
    {
      if maxRequestsPerSecond <= 0.0 {
        return false;
      }
      InterferedOnce(log, RateSet(clock, 1.0 / maxRequestsPerSecond));
      Append(RateSet(clock, 1.0 / maxRequestsPerSecond));
      readInterval := 1.0 / maxRequestsPerSecond;
      ok := true;
    }

    method Shutdown()
      requires Valid()
      modifies `closed, `log, `link
      ensures Valid() && SameTelegram(old(link), link)
      ensures closed && log == old(log) + [ShutDown(clock)] && Interfered(old(log), log)
    {
      Append(ShutDown(clock));
      closed := true;
      InterferedOnce(old(log), ShutDown(clock));
    }

    method ReadDelayed(unit: UnitId) returns (delayed: bool)
      modifies `clock
      ensures old(clock) <= clock
      ensures delayed <==> PauseRuns(unit)
    {
      var now := Monotonic();
      delayed := unit in unansweredReads && now < unansweredReads[unit];
    }

    method PruneSamples(now: real)
      modifies `requestSamples
      ensures requestSamples == Pruned(old(requestSamples), now)
    {
      while requestSamples != [] && requestSamples[0].at <= now - COMMUNICATION_WINDOW_SECONDS
        invariant Pruned(requestSamples, now) == Pruned(old(requestSamples), now)
        decreases |requestSamples|
      {
        requestSamples := requestSamples[1..];
      }
    }

    /** How many samples the communication window holds and how many of them succeeded. */
    method Diagnostics() returns (count: nat, successes: nat)
      requires Valid()
      modifies `clock, `requestSamples, `log, `link
      ensures Valid() && SameTelegram(old(link), link) && old(clock) <= clock
      ensures requestSamples == Pruned(old(requestSamples), clock)
      ensures log == old(log) + [Diagnosed(clock)] && Interfered(old(log), log)
      ensures count == |requestSamples| && successes == Successes(requestSamples)
    {
      var now := Monotonic();
      Append(Diagnosed(now));
      PruneSamples(now);
      assert InStep();
      InterferedOnce(old(log), Diagnosed(now));
      count := |requestSamples|;
      successes := CountSuccesses(requestSamples);
    }

    // -----------------------------------------------------------------
    //  The environment
    // -----------------------------------------------------------------

    /** One thing another task does, at some later time. */
    method Disturb()
      requires Valid()
      modifies `clock, `readInterval, `closed, `requestSamples, `log, `link, `rateChangesLeft
      ensures Valid() && SameTelegram(old(link), link)
      ensures Interfered(old(log), log) && old(clock) <= clock && (old(closed) ==> closed)
      ensures rateChangesLeft <= old(rateChangesLeft)
      ensures rateChangesLeft == old(rateChangesLeft) ==> readInterval == old(readInterval)
    {
      var _ := Monotonic();
      var kind: int := *;
      if kind == 0 && rateChangesLeft > 0 {
        rateChangesLeft := rateChangesLeft - 1;
        var rate: real := *;
        var _ := UpdateRequestRate(rate);
      } else if kind == 1 {
        Shutdown();
      } else if kind == 2 {
        var _, _ := Diagnostics();
      }
    }

    /** Wait for at least `seconds` unless the caller is cancelled; other tasks run meanwhile. */
    method Suspend(seconds: real) returns (cancelled: bool)
      requires Valid()
      modifies `clock, `readInterval, `closed, `requestSamples, `log, `link, `rateChangesLeft, `cancels
      ensures Valid() && SameTelegram(old(link), link)
      ensures Interfered(old(log), log) && old(clock) <= clock && (old(closed) ==> closed)
      ensures cancels == old(cancels) + (if cancelled then 1 else 0)
      ensures !cancelled ==> old(clock) + seconds <= clock
      ensures rateChangesLeft <= old(rateChangesLeft)
      ensures rateChangesLeft == old(rateChangesLeft) ==> readInterval == old(readInterval)
    {
      var start := clock;
      var disturbances: nat := *;
      while disturbances > 0
        invariant cancels == old(cancels)
        invariant Valid() && SameTelegram(old(link), link)
        invariant Interfered(old(log), log) && old(clock) <= clock && (old(closed) ==> closed)
        invariant rateChangesLeft <= old(rateChangesLeft)
        invariant rateChangesLeft == old(rateChangesLeft) ==> readInterval == old(readInterval)
      {
        ghost var mid := log;
        Disturb();
        InterferedTwice(old(log), mid, log);
        disturbances := disturbances - 1;
      }
      var _ := Monotonic();
      cancelled := *;
      if cancelled {
        cancels := cancels + 1;
      }
      if !cancelled && clock < start + seconds {
        clock := start + seconds;
      }
    }

    /** The telegram is on the wire until it ends, in whatever way. */
    method Transmit() returns (o: Outcome)
      requires Valid()
      modifies `clock, `readInterval, `closed, `requestSamples, `log, `link, `rateChangesLeft, `cancels
      ensures Valid() && SameTelegram(old(link), link)
      ensures Interfered(old(log), log) && old(clock) <= clock && (old(closed) ==> closed)
      ensures cancels == old(cancels) + (if o == Cancelled then 1 else 0)
    {
      var cancelled := Suspend(0.0);
      if cancelled {
        return Cancelled;
      }
      o := *;
      if o == Cancelled {
        cancels := cancels + 1;
      }
    }

    // -----------------------------------------------------------------
    //  Link health
    // -----------------------------------------------------------------

    method LinkAnswered()
      requires Valid() && link.healthDue && link.lastEnded.Some? && link.lastEnded.value.LinkAnswers()
      modifies `clock, `consecutiveTimeouts, `quietSince, `log, `link
      ensures Valid() && old(clock) <= clock
      ensures consecutiveTimeouts == 0 && quietSince == clock
      ensures log == old(log) + [Answered(clock)] && link == Step(old(link), Answered(clock))
    {
      var now := Monotonic();
      Append(Answered(now));
      consecutiveTimeouts := 0;
      quietSince := now;
    }

    /** Count an unanswered telegram, and recycle the link exactly when enough of them in a row met a
        long enough silence. */
    method CountTimeout() returns (cancelled: bool)
      requires Valid() && link.healthDue && link.lastEnded.Some? && link.lastEnded.value.Unanswered()
      modifies `clock, `consecutiveTimeouts, `quietSince, `linkRecycles, `log, `link,
               `readInterval, `closed, `requestSamples, `rateChangesLeft, `cancels
      ensures Valid() && old(clock) <= clock && (old(closed) ==> closed)
      ensures cancels == old(cancels) + (if cancelled then 1 else 0)
      ensures !link.healthDue && link.inFlight == old(link.inFlight) && link.lastEnded == old(link.lastEnded)
      ensures linkRecycles == old(linkRecycles) ==>
                && !cancelled && log == old(log) + [TimedOut(old(clock))]
                && consecutiveTimeouts == old(consecutiveTimeouts) + 1 && quietSince == old(quietSince)
                && (consecutiveTimeouts < settings.disconnectAfter || clock < quietSince + settings.linkQuiet)
      ensures linkRecycles != old(linkRecycles) ==>
                && linkRecycles == old(linkRecycles) + 1
                && settings.disconnectAfter <= old(consecutiveTimeouts) + 1
                && consecutiveTimeouts == 0 && old(quietSince) + settings.linkQuiet <= quietSince <= clock
                && exists checkedAt :: Interfered(old(log) + [TimedOut(old(clock)), Recycled(checkedAt, quietSince)], log)
    {
      cancelled := false;
      Append(TimedOut(clock));
      consecutiveTimeouts := consecutiveTimeouts + 1;
      if consecutiveTimeouts < settings.disconnectAfter {
        return;
      }
      var now := Monotonic();
      var quietFor := now - quietSince;
      if quietFor < settings.linkQuiet {
        return;
      }
      var at := Recycle(now);
      ghost var recycled := log;
      assert recycled == old(log) + [TimedOut(old(clock)), Recycled(now, at)];
      // Dropping the link.
      cancelled := Suspend(0.0);
    }

    method Recycle(checkedAt: real) returns (at: real)
      requires Valid() && checkedAt == clock && !link.healthDue
      requires settings.disconnectAfter <= consecutiveTimeouts && quietSince + settings.linkQuiet <= checkedAt
      modifies `clock, `consecutiveTimeouts, `quietSince, `linkRecycles, `log, `link
      ensures Valid() && SameTelegram(old(link), link) && old(clock) <= at == clock
      ensures consecutiveTimeouts == 0 && quietSince == at && linkRecycles == old(linkRecycles) + 1
      ensures log == old(log) + [Recycled(checkedAt, at)]
    {
      at := Monotonic();
      RecycledStep(settings, link, checkedAt, at);
      Append(Recycled(checkedAt, at));
      consecutiveTimeouts, quietSince, linkRecycles := 0, at, linkRecycles + 1;
      assert InStep();
    }

    // -----------------------------------------------------------------
    //  Requests
    // -----------------------------------------------------------------

    method WaitForReadSlot() returns (cancelled: bool)
      requires Valid()
      modifies `clock, `readInterval, `closed, `requestSamples, `log, `link, `rateChangesLeft, `cancels
      ensures Valid() && SameTelegram(old(link), link)
      ensures Interfered(old(log), log) && old(clock) <= clock && (old(closed) ==> closed)
      ensures cancels == old(cancels) + (if cancelled then 1 else 0)
      ensures !cancelled ==> closed || SlotIsOpen()
      ensures old(closed) ==> !cancelled && clock == old(clock) && log == old(log)
    {
      cancelled := false;
      while lastReadFinished.Some? && !closed
        invariant Valid() && SameTelegram(old(link), link)
        invariant Interfered(old(log), log) && old(clock) <= clock && (old(closed) ==> closed)
        invariant !cancelled && cancels == old(cancels)
        invariant old(closed) ==> clock == old(clock) && log == old(log)
        decreases rateChangesLeft, if SlotIsOpen() then 0 else 1
      {
        var now := Monotonic();
        var remaining := lastReadFinished.value + readInterval - now;
        if remaining <= 0.0 {
          return;
        }
        ghost var mid := log;
        cancelled := Suspend(remaining);
        InterferedTwice(old(log), mid, log);
        if cancelled {
          return;
        }
      }
    }

    /** A request whose outcome counts becomes a sample. */
    method RecordRequest(startedAt: real, o: Outcome) returns (at: real)
      modifies `clock, `requestSamples
      ensures old(clock) <= at == clock
      ensures requestSamples == if o.Recorded()
                                then Appended(Pruned(old(requestSamples), at), SampleFor(o, startedAt, at))
                                else old(requestSamples)
    {
      at := Monotonic();
      if o.Recorded() {
        PruneSamples(at);
        if |requestSamples| >= MAX_SAMPLES {
          requestSamples := requestSamples[1..];
        }
        requestSamples := requestSamples + [SampleFor(o, startedAt, at)];
      }
    }

    /** Pause a unit whose read may still be answered. */
    method PauseAfter(unit: UnitId, isRead: bool, o: Outcome) returns (at: real)
      modifies `clock, `unansweredReads
      ensures old(clock) <= at == clock
      ensures unansweredReads == if isRead && o.Uncertain()
                                 then old(unansweredReads)[unit := at + 5.0]
                                 else old(unansweredReads)
    {
      at := Monotonic();
      if isRead && o.Uncertain() {
        unansweredReads := unansweredReads[unit := at + READ_RECOVERY_SECONDS];
      }
    }

    /** Spacing counts from the end of a read. */
    method ReadFinished(isRead: bool) returns (at: real)
      modifies `clock, `lastReadFinished
      ensures old(clock) <= at == clock
      ensures lastReadFinished == if isRead then Some(at) else old(lastReadFinished)
    {
      at := Monotonic();
      if isRead {
        lastReadFinished := Some(at);
      }
    }

    /** Book the end of the telegram on the wire. */
    method Finish(unit: UnitId, isRead: bool, startedAt: real, o: Outcome)
      returns (ghost recordedAt: real, ghost finishedAt: real)
      requires Valid() && link.inFlight == Some(Sent(startedAt, unit, isRead))
      modifies `clock, `unansweredReads, `requestSamples, `lastReadFinished, `log, `link
      ensures Valid() && old(clock) <= recordedAt <= finishedAt == clock && link.inFlight.None?
      ensures LastEnded(link, unit, isRead, o) && HealthPending(link)
      ensures Ends(log) == Ends(old(log)) + [o] && Sends(log) == Sends(old(log))
      ensures requestSamples == if o.Recorded()
                                then Appended(Pruned(old(requestSamples), recordedAt), SampleFor(o, startedAt, recordedAt))
                                else old(requestSamples)
      ensures lastReadFinished == if isRead then Some(finishedAt) else old(lastReadFinished)
      ensures if isRead && o.Uncertain()
              then Repaused(old(unansweredReads), unansweredReads, unit, old(clock))
              else unansweredReads == old(unansweredReads)
    {
      ghost var before := link;
      var pausedAt := PauseAfter(unit, isRead, o);
      recordedAt := RecordRequest(startedAt, o);
      finishedAt := ReadFinished(isRead);
      EndedStep(settings, before, startedAt, unit, isRead, o, pausedAt, recordedAt, finishedAt);
      Append(Ended(unit, isRead, o, pausedAt, recordedAt, finishedAt));
      EndsNext(old(log), Ended(unit, isRead, o, pausedAt, recordedAt, finishedAt));
    }

    /** Update link health after the telegram that just ended. */
    method CountOutcome(o: Outcome) returns (cancelled: bool)
      requires Valid() && link.inFlight.None? && HealthPending(link)
      requires link.lastEnded.value.Ended? && link.lastEnded.value.outcome == o
      modifies `clock, `consecutiveTimeouts, `quietSince, `linkRecycles, `log, `link,
               `readInterval, `closed, `requestSamples, `rateChangesLeft, `cancels
      ensures Valid() && old(clock) <= clock && (old(closed) ==> closed)
      ensures Idle(link) && link.lastEnded == old(link.lastEnded)
      ensures cancelled ==> o == NoAnswer
      ensures cancels == old(cancels) + (if cancelled then 1 else 0)
      ensures HealthCounted(settings, o, old(Health()), Health(), old(clock), clock)
      ensures Ends(log) == Ends(old(log)) && Sends(log) == Sends(old(log))
    {
      cancelled := false;
      if o == Success || o == Refused || o == TargetSilent {
        LinkAnswered();
        EndsNext(old(log), Answered(clock));
      } else if o == NoAnswer {
        cancelled := CountTimeout();
        CountTimeoutEnds(old(log), old(clock), log);
      }
    }

    /** One serialized telegram, unless a cancel or a shutdown comes first. `ends` is how the
        telegrams of this attempt ended. */
    method Attempt(unit: UnitId, isRead: bool) returns (o: Outcome, ghost ends: seq<Outcome>)
      requires Valid() && Idle(link) && (isRead ==> !PauseRuns(unit))
      modifies this
      ensures Valid() && Idle(link) && old(clock) <= clock && (old(closed) ==> closed)
      ensures AttemptDecided(ends, o)
      ensures cancels == old(cancels) + (if o == Cancelled then 1 else 0)
      ensures Ends(log) == Ends(old(log)) + ends && Sends(log) == Sends(old(log)) + |ends|
      ensures old(closed) ==> ends == []
      ensures !isRead && !old(closed) ==> |ends| == 1
      ensures ends == [] && o == ClientClosed ==> closed
      ensures lastReadAnswer == old(lastReadAnswer)
      ensures if ends == [] then Health() == old(Health())
              else HealthCounted(settings, ends[0], old(Health()), Health(), old(clock), clock)
      ensures if isRead && |ends| == 1 && ends[0].Uncertain()
              then Repaused(old(unansweredReads), unansweredReads, unit, old(clock))
              else unansweredReads == old(unansweredReads)
      ensures o == Success ==> LastEnded(link, unit, isRead, o)
    {
      ends := [];
      if isRead {
        var cancelled := WaitForReadSlot();
        InterferedEnds(old(log), log);
        if cancelled {
          o := Cancelled;
          return;
        }
      }
      if closed {
        o := ClientClosed;
        return;
      }
      o := Exchange(unit, isRead);
      ends := [o];
      var cancelled := CountOutcome(o);
      if cancelled {
        o := Cancelled;
      }
    }

    /** Send the telegram and book its end. */
    method Exchange(unit: UnitId, isRead: bool) returns (o: Outcome)
      requires Valid() && Idle(link) && !closed
      requires isRead ==> SlotIsOpen() && !PauseRuns(unit)
      modifies `clock, `readInterval, `closed, `requestSamples, `log, `link, `rateChangesLeft, `cancels,
               `unansweredReads, `lastReadFinished
      ensures Valid() && link.inFlight.None? && old(clock) <= clock
      ensures LastEnded(link, unit, isRead, o) && HealthPending(link)
      ensures cancels == old(cancels) + (if o == Cancelled then 1 else 0)
      ensures Ends(log) == Ends(old(log)) + [o] && Sends(log) == Sends(old(log)) + 1
      ensures if isRead && o.Uncertain()
              then Repaused(old(unansweredReads), unansweredReads, unit, old(clock))
              else unansweredReads == old(unansweredReads)
    {
      var startedAt := Dispatch(unit, isRead);
      ghost var sent := log;
      o := Transmit();
      InterferedEnds(sent, log);
      ghost var _, _ := Finish(unit, isRead, startedAt, o);
    }

    method Dispatch(unit: UnitId, isRead: bool) returns (startedAt: real)
      requires Valid() && Idle(link) && !closed
      requires isRead ==> SlotIsOpen() && !PauseRuns(unit)
      modifies `clock, `log, `link
      ensures Valid() && link.inFlight == Some(Sent(startedAt, unit, isRead)) && old(clock) <= startedAt == clock
      ensures Ends(log) == Ends(old(log)) && Sends(log) == Sends(old(log)) + 1
    {
      startedAt := Monotonic();
      Append(Sent(startedAt, unit, isRead));
      EndsNext(old(log), Sent(startedAt, unit, isRead));
    }

    /** Whether a read may be sent now, or how it ends unsent. */
    method EnsureReadAllowed(unit: UnitId) returns (denied: Option<Verdict>)
      requires Valid()
      modifies `clock
      ensures Valid() && old(clock) <= clock
      ensures denied == if closed then Some(Done(ClientClosed)) else if PauseRuns(unit) then Some(Quarantined) else None
    {
      if closed {
        return Some(Done(ClientClosed));
      }
      var delayed := ReadDelayed(unit);
      denied := if delayed then Some(Quarantined) else None;
    }

    /** What a request does between its two telegrams; `stop` is how it ends without the second. */
    method BeforeRetry(unit: UnitId, isRead: bool, o: Outcome) returns (stop: Option<Outcome>)
      requires Valid() && Retryable(o)
      modifies `clock, `readInterval, `closed, `requestSamples, `log, `link, `rateChangesLeft, `cancels
      ensures Valid() && SameTelegram(old(link), link) && old(clock) <= clock && (old(closed) ==> closed)
      ensures Ends(log) == Ends(old(log)) && Sends(log) == Sends(old(log))
      ensures cancels == old(cancels) + (if stop == Some(Cancelled) then 1 else 0)
      ensures stop.None? && isRead ==> !PauseRuns(unit)
      ensures stop.None? && o == ConnectionLost ==> old(clock) + settings.retryDelay <= clock
      ensures stop.Some? ==> stop.value == Cancelled || (stop.value == o && isRead && PauseRuns(unit))
    {
      if isRead {
        var delayed := ReadDelayed(unit);
        if delayed {
          return Some(o);
        }
      }
      stop := None;
      if o == ConnectionLost {
        var cancelled := Suspend(settings.retryDelay);
        InterferedEnds(old(log), log);
        stop := if cancelled then Some(Cancelled) else None;
      }
    }

    /** Run one request under the policy. `ends` is how its telegrams ended. */
    method Run(unit: UnitId, isRead: bool, address: Option<int>) returns (v: Verdict, ghost ends: seq<Outcome>)
      requires Valid() && Idle(link)
      modifies this
      ensures Valid() && Idle(link) && old(clock) <= clock && (old(closed) ==> closed)
      ensures RunDecided(isRead, ends, v)
      ensures if old(closed) then ends == [] else !isRead ==> ends != []
      ensures |ends| == 1 && v == Done(ends[0]) && Retryable(ends[0]) ==> PauseRuns(unit)
      ensures v == Quarantined ==> PauseRuns(unit)
      ensures v == Done(ClientClosed) ==> closed || (ends != [] && ends[|ends| - 1] == ClientClosed)
      ensures cancels == old(cancels) + (if v == Done(Cancelled) then 1 else 0)
      ensures ends == [] || (|ends| == 1 && (ends[0] == TargetSilent || ends[0] == NoAnswer || ends[0] == ConnectionLost)) ==>
                cancels > old(cancels) || closed || (isRead && PauseRuns(unit))
      ensures |ends| == 2 ==> ends[0] == TargetSilent || ends[0] == NoAnswer || ends[0] == ConnectionLost
      ensures Ends(log) == Ends(old(log)) + ends && Sends(log) == Sends(old(log)) + |ends| && |ends| <= 2
      ensures unansweredReads - {unit} == old(unansweredReads) - {unit}
      ensures if v == Done(Success) && isRead && !(address.Some? && address.value in {40100, 40101, 40103, 40104, 40109})
              then unit !in unansweredReads && lastReadAnswer == old(lastReadAnswer)[unit := clock]
              else lastReadAnswer == old(lastReadAnswer) && (unit in old(unansweredReads) ==> unit in unansweredReads)
    {
      ends := [];
      if isRead {
        var denied := EnsureReadAllowed(unit);
        if denied.Some? {
          v := denied.value;
          return;
        }
      }
      var o;
      o, ends := TwoAttempts(unit, isRead);
      v := Done(o);
      if o == Success && isRead && !(address.Some? && address.value in BRIDGE_RF_REGISTERS) {
        Confirm(unit);
      }
    }

    method TwoAttempts(unit: UnitId, isRead: bool) returns (o: Outcome, ghost ends: seq<Outcome>)
      requires Valid() && Idle(link) && (isRead ==> !PauseRuns(unit))
      modifies this
      ensures Valid() && Idle(link) && old(clock) <= clock && (old(closed) ==> closed)
      ensures RunDecided(isRead, ends, Done(o))
      ensures if old(closed) then ends == [] else !isRead ==> ends != []
      ensures |ends| == 1 && o == ends[0] && Retryable(o) ==> PauseRuns(unit)
      ensures cancels == old(cancels) + (if o == Cancelled then 1 else 0)
      ensures o == ClientClosed ==> closed || (ends != [] && ends[|ends| - 1] == ClientClosed)
      ensures Ends(log) == Ends(old(log)) + ends && Sends(log) == Sends(old(log)) + |ends|
      ensures lastReadAnswer == old(lastReadAnswer)
      ensures PausesKept(old(unansweredReads), unansweredReads, unit)
      ensures o == Success ==> LastEnded(link, unit, isRead, o)
    {
      o, ends := Attempt(unit, isRead);
      RepausedKeeps(old(unansweredReads), unansweredReads, unit, old(clock));
      if Retryable(o) {
        ghost var first, more := o, [];
        o, more := Retry(unit, isRead, o);
        RetryDecided(isRead, ends, first, more, o);
        ends := ends + more;
      }
    }

    /** The second attempt, unless something forbids it. */
    method Retry(unit: UnitId, isRead: bool, first: Outcome) returns (o: Outcome, ghost ends: seq<Outcome>)
      requires Valid() && Idle(link) && Retryable(first)
      modifies this
      ensures Valid() && Idle(link) && old(clock) <= clock && (old(closed) ==> closed)
      ensures AttemptDecided(ends, o) || (ends == [] && o == first && isRead && PauseRuns(unit))
      ensures cancels == old(cancels) + (if o == Cancelled then 1 else 0)
      ensures ends == [] && o == ClientClosed ==> closed
      ensures ends == [] ==> unansweredReads == old(unansweredReads)
      ensures Ends(log) == Ends(old(log)) + ends && Sends(log) == Sends(old(log)) + |ends|
      ensures lastReadAnswer == old(lastReadAnswer)
      ensures PausesKept(old(unansweredReads), unansweredReads, unit)
      ensures o == Success ==> LastEnded(link, unit, isRead, o)
    {
      var stop := BeforeRetry(unit, isRead, first);
      if stop.Some? {
        o, ends := stop.value, [];
      } else {
        ghost var since := clock;
        o, ends := Attempt(unit, isRead);
        RepausedKeeps(old(unansweredReads), unansweredReads, unit, since);
      }
    }

    /** A read of the unit was answered: later reads of it need no pause. */
    method Confirm(unit: UnitId)
      requires Valid() && Idle(link)
      requires LastEnded(link, unit, true, Success)
      modifies `clock, `unansweredReads, `lastReadAnswer, `log, `link
      ensures Valid() && Idle(link) && old(clock) <= clock
      ensures Ends(log) == Ends(old(log)) && Sends(log) == Sends(old(log))
      ensures unansweredReads == old(unansweredReads) - {unit}
      ensures lastReadAnswer == old(lastReadAnswer)[unit := clock]
    {
      unansweredReads := unansweredReads - {unit};
      var now := Monotonic();
      lastReadAnswer := lastReadAnswer[unit := now];
      Append(Confirmed(now, unit));
      EndsNext(old(log), Confirmed(now, unit));
    }
  }

  function Successes(samples: seq<Sample>): nat {
    if samples == [] then 0
    else Successes(samples[..|samples| - 1]) + (if samples[|samples| - 1].Succeeded? then 1 else 0)
  }

  method CountSuccesses(samples: seq<Sample>) returns (count: nat)
    ensures count == Successes(samples)
  {
    count := 0;
    for i := 0 to |samples|
      invariant count == Successes(samples[..i])
    {
      assert samples[..i + 1][..i] == samples[..i];
      if samples[i].Succeeded? {
        count := count + 1;
      }
    }
    assert samples[..|samples|] == samples;
  }
}

/** What one gateway link does over time, as a log of events, and the rules a log obeys.

    `Replay` is the state the retry policy keeps, as a function of the log.
    `Permitted` says when the policy may add an event. A log of permitted events is `Legal`, whatever
    outcomes, delays, rate changes and cancellations it holds.
  */
module LinkLog {
  import opened Wrappers

  // -------------------------------------------------------------------
  //  Events
  // -------------------------------------------------------------------

  type UnitId = int

  /** How one telegram ended. `Refused` is an exception response of the unit itself,
      `TargetSilent` one of the gateway for a unit that did not answer it, `NoAnswer` a
      timeout or a garbled response. */
  datatype Outcome =
    | Success
    | Refused
    | TargetSilent
    | NoAnswer
    | ConnectionLost
    | ClientClosed
    | OtherError
    | Cancelled
  {
    /** The unit may still answer. */
    predicate Uncertain() {
      this == NoAnswer || this == ConnectionLost || this == Cancelled
    }

    predicate Recorded() {
      this != Cancelled && this != ClientClosed
    }
  }

  /** Each event carries the readings of the monotonic clock the policy took for it. */
  datatype Event =
    | RateSet(at: real, interval: real)
    | ShutDown(at: real)
    | Diagnosed(at: real)
    | Sent(at: real, unit: UnitId, isRead: bool)
    | Ended(unit: UnitId, isRead: bool, outcome: Outcome, pausedAt: real, recordedAt: real, finishedAt: real)
    | Answered(at: real)
    | TimedOut(at: real)
    | Recycled(checkedAt: real, at: real)
    | Confirmed(at: real, unit: UnitId)
  {
    function First(): real {
      match this
      case Ended(_, _, _, pausedAt, _, _) => pausedAt
      case Recycled(checkedAt, _) => checkedAt
      case _ => at
    }

    function Last(): real {
      match this
      case Ended(_, _, _, _, _, finishedAt) => finishedAt
      case _ => at
    }

    predicate Ordered() {
      match this
      case Ended(_, _, _, pausedAt, recordedAt, finishedAt) => pausedAt <= recordedAt <= finishedAt
      case Recycled(checkedAt, at) => checkedAt <= at
      case _ => true
    }

    predicate ReadSent() {
      Sent? && isRead
    }

    /** The link answered, even if only for a unit that did not. */
    predicate LinkAnswers() {
      Ended? && (outcome == Success || outcome == Refused || outcome == TargetSilent)
    }

    predicate Unanswered() {
      Ended? && outcome == NoAnswer
    }

    /** A read that may still be answered late. */
    predicate Doubtful() {
      Ended? && isRead && outcome.Uncertain()
    }
  }

  /** Completion time and, for a success, the response time in milliseconds. */
  datatype Sample = Succeeded(at: real, duration: real) | Failed(at: real)

  const READ_RECOVERY_SECONDS: real := 5.0
  const COMMUNICATION_WINDOW_SECONDS: real := 300.0
  const MAX_SAMPLES: nat := 10000

  // -------------------------------------------------------------------
  //  The policy's state
  // -------------------------------------------------------------------

  datatype Settings = Settings(disconnectAfter: nat, linkQuiet: real, retryDelay: real)

  datatype Link = Link(
    timeouts: nat,
    quietSince: real,
    lastReadAnswer: map<UnitId, real>,
    recycles: nat,
    unanswered: map<UnitId, real>,
    interval: real,
    lastFinished: Option<real>,
    closed: bool,
    samples: seq<Sample>,
    // The telegram on the wire with its start, and the last one that left it.
    inFlight: Option<Event>,
    lastEnded: Option<Event>,
    // The last telegram's answer or silence is still to be counted.
    healthDue: bool)

  function Created(at: real): Link {
    Link(0, at, map[], 0, map[], 0.0, None, false, [], None, None, false)
  }

  function Pruned(samples: seq<Sample>, now: real): seq<Sample> {
    if samples != [] && samples[0].at <= now - COMMUNICATION_WINDOW_SECONDS then Pruned(samples[1..], now)
    else samples
  }

  /** Append to a deque that drops its oldest entry when full. */
  function Appended(samples: seq<Sample>, sample: Sample): seq<Sample> {
    if |samples| < MAX_SAMPLES then samples + [sample] else samples[1..] + [sample]
  }

  predicate Recorded(e: Event) {
    e.Ended? && e.outcome.Recorded()
  }

  function SampleFor(o: Outcome, startedAt: real, at: real): Sample {
    if o == Success then Succeeded(at, (at - startedAt) * 1000.0) else Failed(at)
  }

  function SampleOf(e: Event, startedAt: real): Sample
    requires e.Ended?
  {
    SampleFor(e.outcome, startedAt, e.recordedAt)
  }

  function StartOf(s: Link): real {
    match s.inFlight
    case Some(sent) => if sent.Sent? then sent.at else 0.0
    case None => 0.0
  }

  function Step(s: Link, e: Event): Link {
    match e
    case RateSet(_, interval) => s.(interval := interval)
    case ShutDown(_) => s.(closed := true)
    case Diagnosed(at) => s.(samples := Pruned(s.samples, at))
    case Sent(_, _, _) => s.(inFlight := Some(e))
    case Ended(unit, isRead, _, pausedAt, recordedAt, finishedAt) =>
      s.(inFlight := None,
         lastEnded := Some(e),
         healthDue := e.LinkAnswers() || e.Unanswered(),
         unanswered := if e.Doubtful() then s.unanswered[unit := pausedAt + READ_RECOVERY_SECONDS] else s.unanswered,
         samples := if Recorded(e) then Appended(Pruned(s.samples, recordedAt), SampleOf(e, StartOf(s))) else s.samples,
         lastFinished := if isRead then Some(finishedAt) else s.lastFinished)
    case Answered(at) =>
      s.(timeouts := 0, quietSince := at, healthDue := false)
    case TimedOut(_) => s.(timeouts := s.timeouts + 1, healthDue := false)
    case Recycled(_, at) => s.(timeouts := 0, quietSince := at, recycles := s.recycles + 1)
    case Confirmed(at, unit) =>
      s.(unanswered := s.unanswered - {unit}, lastReadAnswer := s.lastReadAnswer[unit := at])
  }

  function Replay(created: real, log: seq<Event>): Link {
    if log == [] then Created(created)
    else Step(Replay(created, log[..|log| - 1]), log[|log| - 1])
  }

  /** The latest clock reading of a log. */
  function Now(created: real, log: seq<Event>): real {
    if log == [] then created else log[|log| - 1].Last()
  }

  // -------------------------------------------------------------------
  //  When the policy may add an event
  // -------------------------------------------------------------------

  predicate Paused(s: Link, unit: UnitId, now: real) {
    unit in s.unanswered && now < s.unanswered[unit]
  }

  predicate SlotOpen(s: Link, now: real) {
    s.lastFinished.Some? ==> s.lastFinished.value + s.interval <= now
  }

  predicate Permitted(settings: Settings, s: Link, e: Event) {
    match e
    case RateSet(_, interval) => interval > 0.0
    case ShutDown(_) => true
    case Diagnosed(_) => true
    case Sent(at, unit, isRead) =>
      s.inFlight.None? && !s.healthDue && !s.closed && (isRead ==> SlotOpen(s, at) && !Paused(s, unit, at))
    case Ended(unit, isRead, _, _, _, _) =>
      s.inFlight.Some? && s.inFlight.value.Sent?
      && s.inFlight.value.unit == unit && s.inFlight.value.isRead == isRead
    case Answered(_) => s.healthDue && s.lastEnded.Some? && s.lastEnded.value.LinkAnswers()
    case TimedOut(_) => s.healthDue && s.lastEnded.Some? && s.lastEnded.value.Unanswered()
    case Recycled(checkedAt, _) =>
      !s.healthDue && settings.disconnectAfter <= s.timeouts && s.quietSince + settings.linkQuiet <= checkedAt
    case Confirmed(_, unit) =>
      s.lastEnded.Some? && s.lastEnded.value.Ended? && s.lastEnded.value.unit == unit
      && s.lastEnded.value.isRead && s.lastEnded.value.outcome == Success
  }

  predicate LegalAt(settings: Settings, created: real, log: seq<Event>, k: nat)
    requires k < |log|
  {
    && log[k].Ordered()
    && Now(created, log[..k]) <= log[k].First()
    && Permitted(settings, Replay(created, log[..k]), log[k])
  }

  predicate Legal(settings: Settings, created: real, log: seq<Event>) {
    forall k | 0 <= k < |log| :: LegalAt(settings, created, log, k)
  }

  lemma LegalAppend(settings: Settings, created: real, log: seq<Event>, e: Event)
    requires Legal(settings, created, log)
    requires e.Ordered() && Now(created, log) <= e.First() && Permitted(settings, Replay(created, log), e)
    ensures Legal(settings, created, log + [e])
  {
    var longer := log + [e];
    forall k | 0 <= k < |longer|
      ensures LegalAt(settings, created, longer, k)
    {
      assert longer[..k] == log[..k];
      if k < |log| {
        assert LegalAt(settings, created, log, k);
      } else {
        assert log[..k] == log;
      }
    }
  }
}

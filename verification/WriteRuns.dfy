/** Whole runs of writes, reads and judging passes of one unit.

    `Replay` is the state any sequence of such events leads to. What is proved here holds of every possible
    run, and so of the coordinator, which keeps one (`Follows`).
  */
module WriteRuns {
  import opened Wrappers
  import opened Models
  import opened ModeCodec
  import opened IssueTotals
  import opened WriteJudgement
  import opened RoomReads

  datatype Event =
    | Waited(until: real)
    | AirflowGroupsRead(read: AirflowRead, at: real)
    | ExactTargetRead(level: int)
    | TargetCarried(readback: Option<int>, number: nat)
    | ControlSettingsRead(settings: map<string, int>, at: real, failed: Option<string>)
    | WriteAccepted(key: WriteKey, value: WriteValue)
    | WriteInterrupted(key: WriteKey, value: WriteValue, error: string)
    | WriteRejected(key: WriteKey, value: WriteValue, error: string)
    | GivenUp(key: WriteKey, error: string)
    | AllJudged

  /** `reported` holds the numbers of the writes an issue was reported for, `total` counts the reports. */
  datatype State = State(writes: Writes, room: RoomState, next: nat, wall: real, reported: set<nat>, total: nat)

  const START := State(map[], EMPTY_ROOM_STATE, 1, 0.0, {}, 0)

  // -------------------------------------------------------------------
  //  Steps
  // -------------------------------------------------------------------

  /** A write recorded now, with its outcome. */
  function New(s: State, key: WriteKey, value: WriteValue): Confirmation {
    Recorded(s.next, value, s.wall, s.room.HealthFor(key.ConfirmedBy()))
  }

  function SettingsRead(room: RoomState, number: nat, settings: map<string, int>, at: real, error: Option<string>): RoomState {
    match error
    case None => room.(controlSettings := settings).WithHealth(ControlSettings, Succeeded(number, at))
    case Some(e) => room.WithHealth(ControlSettings, Failed(room.HealthFor(ControlSettings), number, e))
  }

  /** A pending write may be given up. */
  predicate Waiting(s: State, key: WriteKey) {
    key in s.writes && s.writes[key].status == PendingReadback
  }

  /** A write recorded in place of those it replaces; an unhealthy one is reported at once. */
  function AfterRecording(s: State, key: WriteKey, c: Confirmation): State {
    s.(writes := WithRecorded(s.writes, key, c), next := s.next + 1,
       reported := if c.issueCounted then s.reported + {s.next} else s.reported,
       total := if c.issueCounted then s.total + 1 else s.total)
  }

  function AfterRejecting(s: State, key: WriteKey, c: Confirmation): State {
    s.(writes := s.writes[key := c], next := s.next + 1, reported := s.reported + {s.next}, total := s.total + 1)
  }

  function AfterGivingUp(s: State, key: WriteKey, error: string): State
    requires key in s.writes
  {
    var c := s.writes[key];
    s.(writes := s.writes[key := WithStatus(c, Unconfirmed, Some(error))],
       reported := s.reported + {c.number}, total := if c.issueCounted then s.total else s.total + 1)
  }

  function AfterJudging(s: State): State {
    s.(writes := JudgedWrites(s.writes, s.room, s.wall),
       reported := s.reported + NumbersOf(s.writes, ReportKeys(s.writes, s.room, s.wall)),
       total := s.total + |ReportKeys(s.writes, s.room, s.wall)|)
  }

  function Step(maxAirflow: int, s: State, e: Event): State {
    match e
    case Waited(until) => s.(wall := until)
    case AirflowGroupsRead(read, at) =>
      s.(room := AfterAirflowRead(maxAirflow, s.room, read, s.next, at), next := s.next + 1)
    case ExactTargetRead(level) => s.(room := WithReadback(s.room, Some(level), s.next), next := s.next + 1)
    case TargetCarried(readback, number) => s.(room := WithReadback(s.room, readback, number))
    case ControlSettingsRead(settings, at, error) =>
      s.(room := SettingsRead(s.room, s.next, settings, at, error), next := s.next + 1)
    case WriteAccepted(key, value) => AfterRecording(s, key, New(s, key, value))
    case WriteInterrupted(key, value, error) =>
      AfterRecording(s, key, WithStatus(New(s, key, value), Unconfirmed, Some(error)))
    case WriteRejected(key, value, error) =>
      AfterRejecting(s, key, WithStatus(New(s, key, value), FailedWrite, Some(error)))
    case GivenUp(key, error) => if Waiting(s, key) then AfterGivingUp(s, key, error) else s
    case AllJudged => AfterJudging(s)
  }

  /** A readback is carried over only while no open level write could still be confirmed by it. */
  predicate Possible(s: State, e: Event) {
    match e
    case Waited(until) => s.wall <= until
    case TargetCarried(_, _) =>
      !(AirflowLevels in s.writes && Confirmable(s.writes[AirflowLevels].status) && Recent(s.writes[AirflowLevels], s.wall))
    case _ => true
  }

  function Replay(maxAirflow: int, run: seq<Event>): State {
    if run == [] then START else Step(maxAirflow, Replay(maxAirflow, run[..|run| - 1]), run[|run| - 1])
  }

  predicate PossibleRun(maxAirflow: int, run: seq<Event>) {
    run != [] ==>
      PossibleRun(maxAirflow, run[..|run| - 1]) && Possible(Replay(maxAirflow, run[..|run| - 1]), run[|run| - 1])
  }

  // -------------------------------------------------------------------
  //  What always holds
  // -------------------------------------------------------------------

  /** Each report is for another write, and a write is marked as counted exactly when it was reported. */
  predicate Counted(s: State) {
    && (forall k | k in s.writes :: s.writes[k].number < s.next)
    && (forall a, b | a in s.writes && b in s.writes && a != b :: s.writes[a].number != s.writes[b].number)
    && (forall n | n in s.reported :: n < s.next)
    && (forall k | k in s.writes :: s.writes[k].issueCounted <==> s.writes[k].number in s.reported)
    && (forall k | k in s.writes :: Unhealthy(s.writes[k].status) ==> s.writes[k].issueCounted)
    && s.total == |s.reported|
  }

  predicate Invariant(s: State) {
    Sound(s.writes, s.room, s.next, s.wall) && Counted(s)
  }

  lemma NumbersCount(writes: Writes, keys: set<WriteKey>)
    requires keys <= writes.Keys
    requires forall a, b | a in writes && b in writes && a != b :: writes[a].number != writes[b].number
    ensures |NumbersOf(writes, keys)| == |keys|
  {
    if keys != {} {
      var k :| k in keys;
      NumbersCount(writes, keys - {k});
      assert NumbersOf(writes, keys) == NumbersOf(writes, keys - {k}) + {writes[k].number};
    }
  }

  lemma DisjointSize<T>(a: set<T>, b: set<T>)
    requires a !! b
    ensures |a + b| == |a| + |b|
  {
  }

  lemma JudgedCounted(s: State)
    requires Counted(s)
    ensures Counted(AfterJudging(s))
  {
    var t := AfterJudging(s);
    forall k | k in s.writes
      ensures t.writes[k].number == s.writes[k].number
      ensures t.writes[k].issueCounted <==> s.writes[k].issueCounted || k in ReportKeys(s.writes, s.room, s.wall)
      ensures k in ReportKeys(s.writes, s.room, s.wall) ==> !s.writes[k].issueCounted
      ensures Unhealthy(t.writes[k].status) ==> t.writes[k].issueCounted
    {
      JudgedMayBecome(s.room, k, s.writes[k], s.wall);
    }
    forall k | k in s.writes
      ensures s.writes[k].number in NumbersOf(s.writes, ReportKeys(s.writes, s.room, s.wall)) <==> k in ReportKeys(s.writes, s.room, s.wall)
    {
    }
    NumbersCount(s.writes, ReportKeys(s.writes, s.room, s.wall));
    DisjointSize(s.reported, NumbersOf(s.writes, ReportKeys(s.writes, s.room, s.wall)));
  }

  lemma RecordedCounted(s: State, writes: Writes, key: WriteKey, c: Confirmation)
    requires Counted(s) && writes.Keys == s.writes.Keys
    requires forall k | k in writes && k != key ::
               && writes[k].number == s.writes[k].number && writes[k].issueCounted == s.writes[k].issueCounted
               && (Unhealthy(writes[k].status) ==> Unhealthy(s.writes[k].status))
    requires c.number == s.next && (Unhealthy(c.status) ==> c.issueCounted)
    ensures Counted(s.(writes := writes[key := c], next := s.next + 1,
                       reported := if c.issueCounted then s.reported + {s.next} else s.reported,
                       total := if c.issueCounted then s.total + 1 else s.total))
  {
    DisjointSize(s.reported, {s.next});
  }

  lemma GivenUpCounted(s: State, key: WriteKey, error: string)
    requires Counted(s) && Waiting(s, key)
    ensures Counted(AfterGivingUp(s, key, error))
  {
    if s.writes[key].issueCounted {
      assert s.reported + {s.writes[key].number} == s.reported;
    } else {
      DisjointSize(s.reported, {s.writes[key].number});
    }
  }

  function Superseding(writes: Writes, key: WriteKey): Writes {
    map k | k in writes :: if k in Replaced(writes, key) then writes[k].(status := Superseded) else writes[k]
  }

  lemma RecordingCounted(s: State, key: WriteKey, c: Confirmation)
    requires Counted(s) && c.number == s.next && (Unhealthy(c.status) ==> c.issueCounted)
    ensures Counted(AfterRecording(s, key, c))
  {
    RecordedCounted(s, Superseding(s.writes, key), key, c);
  }

  lemma StepCounted(maxAirflow: int, s: State, e: Event)
    requires Counted(s)
    ensures Counted(Step(maxAirflow, s, e))
  {
    match e
    case AllJudged => JudgedCounted(s);
    case WriteAccepted(key, value) => RecordingCounted(s, key, New(s, key, value));
    case WriteInterrupted(key, value, error) =>
      RecordingCounted(s, key, WithStatus(New(s, key, value), Unconfirmed, Some(error)));
    case WriteRejected(key, value, error) =>
      RecordedCounted(s, s.writes, key, WithStatus(New(s, key, value), FailedWrite, Some(error)));
    case GivenUp(key, error) =>
      if Waiting(s, key) {
        GivenUpCounted(s, key, error);
      }
    case _ =>
  }

  lemma JudgedSame(s: State)
    ensures SameWrites(s.writes, AfterJudging(s).writes)
    ensures forall k | k in s.writes && Final(s.writes[k].status) :: AfterJudging(s).writes[k].status == s.writes[k].status
  {
    forall k | k in s.writes
      ensures var c := AfterJudging(s).writes[k];
              && c.number == s.writes[k].number && c.baseline == s.writes[k].baseline
              && c.startedAt == s.writes[k].startedAt && c.expected == s.writes[k].expected
              && (Confirmable(c.status) ==> Confirmable(s.writes[k].status))
              && (Final(s.writes[k].status) ==> c.status == s.writes[k].status)
    {
      JudgedKeepsWrite(s.room, k, s.writes[k], s.wall);
    }
  }

  lemma JudgedSound(s: State)
    requires Sound(s.writes, s.room, s.next, s.wall)
    ensures Sound(AfterJudging(s).writes, s.room, s.next, s.wall)
  {
    JudgedSame(s);
    SameWritesKeepOrder(s.writes, AfterJudging(s).writes, s.room, s.next, s.wall, s.wall);
  }

  lemma StepSound(maxAirflow: int, s: State, e: Event)
    requires Sound(s.writes, s.room, s.next, s.wall) && Possible(s, e)
    ensures var t := Step(maxAirflow, s, e); Sound(t.writes, t.room, t.next, t.wall)
  {
    match e
    case Waited(until) => SoundLater(s.writes, s.room, s.next, s.wall, until);
    case AirflowGroupsRead(read, at) => SoundRead(maxAirflow, s.writes, s.room, s.next, s.wall, read, at);
    case ExactTargetRead(level) => SoundReadback(s.writes, s.room, s.next, s.wall, level);
    case TargetCarried(readback, number) => SoundCarried(s.writes, s.room, s.next, s.wall, readback, number);
    case ControlSettingsRead(settings, at, error) =>
      var read := SettingsRead(s.room, s.next, settings, at, error);
      SoundOtherRead(s.writes, s.room, s.next, s.wall, read, read.HealthFor(ControlSettings));
    case WriteAccepted(key, value) => SoundReplaced(s.writes, s.room, s.next, s.wall, key, New(s, key, value));
    case WriteInterrupted(key, value, error) =>
      SoundReplaced(s.writes, s.room, s.next, s.wall, key, WithStatus(New(s, key, value), Unconfirmed, Some(error)));
    case WriteRejected(key, value, error) =>
      SoundFinished(s.writes, s.room, s.next, s.wall, key, WithStatus(New(s, key, value), FailedWrite, Some(error)));
    case GivenUp(key, error) =>
      if Waiting(s, key) {
        SoundUnconfirmed(s.writes, s.room, s.next, s.wall, key, WithStatus(s.writes[key], Unconfirmed, Some(error)));
      }
    case AllJudged => JudgedSound(s);
  }

  /** In every run, at most one base-mode write is open, reads and writes stay in order, and the total is
      the number of different writes reported. */
  lemma {:induction false} RunInvariant(maxAirflow: int, run: seq<Event>)
    requires PossibleRun(maxAirflow, run)
    ensures Invariant(Replay(maxAirflow, run))
  {
    if run != [] {
      RunInvariant(maxAirflow, run[..|run| - 1]);
      StepCounted(maxAirflow, Replay(maxAirflow, run[..|run| - 1]), run[|run| - 1]);
      StepSound(maxAirflow, Replay(maxAirflow, run[..|run| - 1]), run[|run| - 1]);
    }
  }

  // -------------------------------------------------------------------
  //  Keeping a run
  // -------------------------------------------------------------------

  lemma Extend(maxAirflow: int, run: seq<Event>, e: Event)
    requires PossibleRun(maxAirflow, run) && Possible(Replay(maxAirflow, run), e)
    ensures PossibleRun(maxAirflow, run + [e])
    ensures Replay(maxAirflow, run + [e]) == Step(maxAirflow, Replay(maxAirflow, run), e)
  {
    assert (run + [e])[..|run|] == run;
  }

  /** `run` is a possible run that leads to these values. */
  predicate Follows(maxAirflow: int, run: seq<Event>, writes: Writes, room: RoomState, next: nat, wall: real,
                    reported: set<nat>) {
    PossibleRun(maxAirflow, run) && IsAt(Replay(maxAirflow, run), writes, room, next, wall, reported)
  }

  predicate IsAt(s: State, writes: Writes, room: RoomState, next: nat, wall: real, reported: set<nat>) {
    s.writes == writes && s.room == room && s.next == next && s.wall == wall && s.reported == reported
  }

  lemma FollowsSound(maxAirflow: int, run: seq<Event>, writes: Writes, room: RoomState, next: nat, wall: real,
                     reported: set<nat>)
    requires Follows(maxAirflow, run, writes, room, next, wall, reported)
    ensures Sound(writes, room, next, wall)
  {
    RunInvariant(maxAirflow, run);
  }

  lemma FollowsNext(maxAirflow: int, run: seq<Event>, writes: Writes, room: RoomState, next: nat, wall: real,
                    reported: set<nat>, e: Event)
    requires Follows(maxAirflow, run, writes, room, next, wall, reported) && Possible(Replay(maxAirflow, run), e)
    ensures var t := Step(maxAirflow, Replay(maxAirflow, run), e);
            Follows(maxAirflow, run + [e], t.writes, t.room, t.next, t.wall, t.reported)
  {
    Extend(maxAirflow, run, e);
  }

  lemma FollowsWaited(maxAirflow: int, run: seq<Event>, writes: Writes, room: RoomState, next: nat, wall: real,
                      reported: set<nat>, until: real)
    requires Follows(maxAirflow, run, writes, room, next, wall, reported)
    requires wall <= until
    ensures Follows(maxAirflow, run + [Waited(until)], writes, room, next, until, reported)
  {
    FollowsNext(maxAirflow, run, writes, room, next, wall, reported, Waited(until));
  }

  lemma FollowsRead(maxAirflow: int, run: seq<Event>, writes: Writes, room: RoomState, next: nat, wall: real,
                    reported: set<nat>, read: AirflowRead, at: real)
    requires Follows(maxAirflow, run, writes, room, next, wall, reported)
    ensures Follows(maxAirflow, run + [AirflowGroupsRead(read, at)], writes,
                    AfterAirflowRead(maxAirflow, room, read, next, at), next + 1, wall, reported)
  {
    FollowsNext(maxAirflow, run, writes, room, next, wall, reported, AirflowGroupsRead(read, at));
  }

  lemma FollowsExact(maxAirflow: int, run: seq<Event>, writes: Writes, room: RoomState, next: nat, wall: real,
                     reported: set<nat>, level: int)
    requires Follows(maxAirflow, run, writes, room, next, wall, reported)
    ensures Follows(maxAirflow, run + [ExactTargetRead(level)], writes,
                    WithReadback(room, Some(level), next), next + 1, wall, reported)
  {
    FollowsNext(maxAirflow, run, writes, room, next, wall, reported, ExactTargetRead(level));
  }

  lemma FollowsCarried(maxAirflow: int, run: seq<Event>, writes: Writes, room: RoomState, next: nat, wall: real,
                       reported: set<nat>, readback: Option<int>, number: nat)
    requires Follows(maxAirflow, run, writes, room, next, wall, reported)
    requires !(AirflowLevels in writes && Confirmable(writes[AirflowLevels].status) && Recent(writes[AirflowLevels], wall))
    ensures Follows(maxAirflow, run + [TargetCarried(readback, number)], writes,
                    WithReadback(room, readback, number), next, wall, reported)
  {
    FollowsNext(maxAirflow, run, writes, room, next, wall, reported, TargetCarried(readback, number));
  }

  lemma FollowsSettings(maxAirflow: int, run: seq<Event>, writes: Writes, room: RoomState, next: nat, wall: real,
                        reported: set<nat>, settings: map<string, int>, at: real, error: Option<string>)
    requires Follows(maxAirflow, run, writes, room, next, wall, reported)
    ensures Follows(maxAirflow, run + [ControlSettingsRead(settings, at, error)], writes,
                    SettingsRead(room, next, settings, at, error), next + 1, wall, reported)
  {
    FollowsNext(maxAirflow, run, writes, room, next, wall, reported, ControlSettingsRead(settings, at, error));
  }

  lemma FollowsAccepted(maxAirflow: int, run: seq<Event>, writes: Writes, room: RoomState, next: nat, wall: real,
                        reported: set<nat>, key: WriteKey, value: WriteValue)
    requires Follows(maxAirflow, run, writes, room, next, wall, reported)
    ensures Follows(maxAirflow, run + [WriteAccepted(key, value)],
                    WithRecorded(writes, key, Recorded(next, value, wall, room.HealthFor(key.ConfirmedBy()))),
                    room, next + 1, wall, reported)
  {
    FollowsNext(maxAirflow, run, writes, room, next, wall, reported, WriteAccepted(key, value));
  }

  lemma FollowsInterrupted(maxAirflow: int, run: seq<Event>, writes: Writes, room: RoomState, next: nat, wall: real,
                           reported: set<nat>, key: WriteKey, value: WriteValue, error: string)
    requires Follows(maxAirflow, run, writes, room, next, wall, reported)
    ensures Follows(maxAirflow, run + [WriteInterrupted(key, value, error)],
                    WithRecorded(writes, key, WithStatus(Recorded(next, value, wall, room.HealthFor(key.ConfirmedBy())),
                                                         Unconfirmed, Some(error))),
                    room, next + 1, wall, reported + {next})
  {
    FollowsNext(maxAirflow, run, writes, room, next, wall, reported, WriteInterrupted(key, value, error));
  }

  lemma FollowsRejected(maxAirflow: int, run: seq<Event>, writes: Writes, room: RoomState, next: nat, wall: real,
                        reported: set<nat>, key: WriteKey, value: WriteValue, error: string)
    requires Follows(maxAirflow, run, writes, room, next, wall, reported)
    ensures Follows(maxAirflow, run + [WriteRejected(key, value, error)],
                    writes[key := WithStatus(Recorded(next, value, wall, room.HealthFor(key.ConfirmedBy())),
                                             FailedWrite, Some(error))],
                    room, next + 1, wall, reported + {next})
  {
    FollowsNext(maxAirflow, run, writes, room, next, wall, reported, WriteRejected(key, value, error));
  }

  lemma FollowsGivenUp(maxAirflow: int, run: seq<Event>, writes: Writes, room: RoomState, next: nat, wall: real,
                       reported: set<nat>, key: WriteKey, error: string)
    requires Follows(maxAirflow, run, writes, room, next, wall, reported)
    requires key in writes && writes[key].status == PendingReadback
    ensures Follows(maxAirflow, run + [GivenUp(key, error)],
                    writes[key := WithStatus(writes[key], Unconfirmed, Some(error))],
                    room, next, wall, reported + {writes[key].number})
  {
    FollowsNext(maxAirflow, run, writes, room, next, wall, reported, GivenUp(key, error));
  }

  lemma FollowsJudged(maxAirflow: int, run: seq<Event>, writes: Writes, room: RoomState, next: nat, wall: real,
                      reported: set<nat>)
    requires Follows(maxAirflow, run, writes, room, next, wall, reported)
    ensures Follows(maxAirflow, run + [AllJudged], JudgedWrites(writes, room, wall), room, next, wall,
                    reported + NumbersOf(writes, ReportKeys(writes, room, wall)))
  {
    FollowsNext(maxAirflow, run, writes, room, next, wall, reported, AllJudged);
  }

  // -------------------------------------------------------------------
  //  Confirmations
  // -------------------------------------------------------------------

  predicate NewlyConfirmed(s: State, t: State, key: WriteKey) {
    && key in t.writes && t.writes[key].status == Confirmed
    && !(key in s.writes && s.writes[key].number == t.writes[key].number && s.writes[key].status == Confirmed)
  }

  lemma ConfirmedStep(maxAirflow: int, s: State, e: Event, key: WriteKey)
    requires Invariant(s) && NewlyConfirmed(s, Step(maxAirflow, s, e), key)
    ensures e == AllJudged && Backed(s.room, key, Step(maxAirflow, s, e).writes[key], s.wall)
  {
    OnlyJudgingConfirms(maxAirflow, s, e, key);
    ConfirmedByJudging(s, key);
  }

  lemma ConfirmedByJudging(s: State, key: WriteKey)
    requires Invariant(s) && key in s.writes && s.writes[key].status != Confirmed
    requires AfterJudging(s).writes[key].status == Confirmed
    ensures Backed(s.room, key, AfterJudging(s).writes[key], s.wall)
  {
    var c := s.writes[key];
    JudgedKeepsWrite(s.room, key, c, s.wall);
    ConfirmedByLaterRead(s.writes, s.room, s.next, s.wall, key);
    BackedAlike(s.room, key, c, AfterJudging(s).writes[key], s.wall);
  }

  /** In every run, a write that has just become confirmed was matched by a successful read of its group made
      after it, with no override hiding it; a level write of a balanced mode within its retention by a read
      of register 41121 made after it, within two m3/h. */
  lemma ConfirmedInRun(maxAirflow: int, run: seq<Event>, key: WriteKey)
    requires run != [] && PossibleRun(maxAirflow, run)
    requires NewlyConfirmed(Replay(maxAirflow, run[..|run| - 1]), Replay(maxAirflow, run), key)
    ensures var s := Replay(maxAirflow, run[..|run| - 1]);
            run[|run| - 1] == AllJudged && Backed(s.room, key, Replay(maxAirflow, run).writes[key], s.wall)
  {
    RunInvariant(maxAirflow, run[..|run| - 1]);
    ConfirmedStep(maxAirflow, Replay(maxAirflow, run[..|run| - 1]), run[|run| - 1], key);
  }

  lemma RecordingConfirmsNone(writes: Writes, key: WriteKey, c: Confirmation, k: WriteKey)
    requires k in WithRecorded(writes, key, c) && WithRecorded(writes, key, c)[k].status == Confirmed
    requires c.status != Confirmed
    ensures k in writes && writes[k] == WithRecorded(writes, key, c)[k]
  {
  }

  lemma OnlyJudgingConfirms(maxAirflow: int, s: State, e: Event, key: WriteKey)
    requires Counted(s) && NewlyConfirmed(s, Step(maxAirflow, s, e), key)
    ensures e == AllJudged && key in s.writes && s.writes[key].status != Confirmed
  {
    match e
    case AllJudged => JudgedSame(s);
    case WriteAccepted(k, value) => RecordingConfirmsNone(s.writes, k, New(s, k, value), key);
    case WriteInterrupted(k, value, error) =>
      RecordingConfirmsNone(s.writes, k, WithStatus(New(s, k, value), Unconfirmed, Some(error)), key);
    case _ =>
  }

  /** The status map shows the mode `block` stands for, and no override. */
  lemma ModeShown(state: RoomState, flow: int, block: ModeRead, number: nat, at: real)
    requires block.mode == MODE_OFF || block.mode == MODE_MANUAL
    requires !ReportsIntensive(block)
    ensures var s := AfterAirflowRead(100, state, Answered(FlowValues(flow, flow), ModeValues(block)), number, at);
            && s.operationMode == Some(if block.mode == MODE_OFF then Off else Manual)
            && s.intensiveActive == Some(false) && s.balancedTargetReadback == None
            && s.HealthFor(FlowControl) == Succeeded(number, at)
  {
    AnsweredHealth(100, state, FlowValues(flow, flow), ModeValues(block), number, at);
  }

  /** Behind an override the mode and the exact target stay. */
  lemma OverrideShown(state: RoomState, flow: int, number: nat, at: real)
    ensures var s := AfterAirflowRead(100, state, Answered(FlowValues(flow, flow), ModeValues(ModeRead(0, 0, 0))), number, at);
            && s.operationMode == state.operationMode && s.intensiveActive == Some(true)
            && s.balancedTargetReadback == state.balancedTargetReadback && s.readbackRead == state.readbackRead
            && s.HealthFor(FlowControl) == Succeeded(number, at)
  {
    AnsweredHealth(100, state, FlowValues(flow, flow), ModeValues(ModeRead(0, 0, 0)), number, at);
  }

  /** The first write of a run. */
  lemma FirstWrite(s: State, key: WriteKey, value: WriteValue)
    requires s.writes == map[]
    ensures var c := Recorded(s.next, value, s.wall, s.room.HealthFor(key.ConfirmedBy()));
            Step(100, s, WriteAccepted(key, value)) == s.(writes := map[key := c], next := s.next + 1)
  {
    var c := New(s, key, value);
    assert WithRecorded(map[], key, c) == map[key := c];
  }

  lemma OffConfirmed(room: RoomState, c: Confirmation, wall: real)
    requires room.operationMode == Some(Off) && room.intensiveActive == Some(false)
    requires room.HealthFor(FlowControl) == Succeeded(2, 1.0)
    requires c == Recorded(1, ModeValue(Off), 0.0, EMPTY_READ_HEALTH)
    ensures Judged(room, OperationModeWrite, c, wall).0.status == Confirmed
  {
  }

  /** Such runs exist: an accepted off command, a read of the status map that shows it, and a judging pass. */
  lemma ConfirmationHappens() returns (run: seq<Event>)
    ensures run != [] && PossibleRun(100, run)
    ensures NewlyConfirmed(Replay(100, run[..|run| - 1]), Replay(100, run), OperationModeWrite)
  {
    var block := ModeRead(MODE_OFF, 0, 0);
    var accepted, read := WriteAccepted(OperationModeWrite, ModeValue(Off)),
                          AirflowGroupsRead(Answered(FlowValues(0, 0), ModeValues(block)), 1.0);
    FirstWrite(START, OperationModeWrite, ModeValue(Off));
    Extend(100, [], accepted);
    Extend(100, [] + [accepted], read);
    var before := [] + [accepted] + [read];
    Extend(100, before, AllJudged);
    run := before + [AllJudged];
    var s := Replay(100, before);
    ModeShown(EMPTY_ROOM_STATE, 0, block, 2, 1.0);
    OffConfirmed(s.room, s.writes[OperationModeWrite], s.wall);
    assert run[..|run| - 1] == before;
  }

  /** Outside the retention a readback older than the write can confirm it: here one that an intensive
      override of more than ten minutes had kept from being reset. */
  lemma CarriedReadbackConfirms() returns (run: seq<Event>)
    ensures run != [] && PossibleRun(100, run)
    ensures var s, t := Replay(100, run[..|run| - 1]), Replay(100, run);
            && NewlyConfirmed(s, t, AirflowLevels) && t.wall - t.writes[AirflowLevels].startedAt > 600.0
            && s.room.readbackRead < t.writes[AirflowLevels].number
  {
    run := HiddenWrite();
    var hidden := Replay(100, run);
    var block := ModeRead(MODE_MANUAL, 100, 100);
    var later, read := Waited(700.0), AirflowGroupsRead(Answered(FlowValues(50, 50), ModeValues(block)), 700.0);
    Extend(100, run, later);
    Extend(100, run + [later], read);
    ModeShown(hidden.room, 50, block, hidden.next, 700.0);
    var carried := TargetCarried(hidden.room.balancedTargetReadback, hidden.room.readbackRead);
    Extend(100, run + [later] + [read], carried);
    var before := run + [later] + [read] + [carried];
    var s := Replay(100, before);
    CarriedMatches(s.room, s.writes[AirflowLevels], s.wall);
    Extend(100, before, AllJudged);
    run := before + [AllJudged];
    assert run[..|run| - 1] == before;
  }

  /** A level write after its exact target was read. */
  lemma LevelWrite() returns (run: seq<Event>)
    ensures PossibleRun(100, run)
    ensures var s := Replay(100, run);
            && s.writes == map[AirflowLevels := Recorded(3, LevelsValue(50, 50), 0.0, Succeeded(1, 0.0))]
            && s.wall == 0.0 && s.next == 4
            && s.room.balancedTargetReadback == Some(50) && s.room.readbackRead == 2
  {
    var block := ModeRead(MODE_MANUAL, 100, 100);
    var shown, exact := AirflowGroupsRead(Answered(FlowValues(50, 50), ModeValues(block)), 0.0), ExactTargetRead(50);
    Extend(100, [], shown);
    ModeShown(EMPTY_ROOM_STATE, 50, block, 1, 0.0);
    Extend(100, [] + [shown], exact);
    run := [] + [shown] + [exact];
    var written := WriteAccepted(AirflowLevels, LevelsValue(50, 50));
    FirstWrite(Replay(100, run), AirflowLevels, LevelsValue(50, 50));
    Extend(100, run, written);
    run := run + [written];
  }

  /** An override hides the level write until it is judged unverifiable. */
  lemma HiddenWrite() returns (run: seq<Event>)
    ensures PossibleRun(100, run)
    ensures var s := Replay(100, run);
            && AirflowLevels in s.writes && s.wall == 0.0 && s.next == 5
            && s.writes[AirflowLevels] == Recorded(3, LevelsValue(50, 50), 0.0, Succeeded(1, 0.0)).(status := Unverifiable)
            && s.room.balancedTargetReadback == Some(50) && s.room.readbackRead == 2
  {
    run := LevelWrite();
    var hidden := AirflowGroupsRead(Answered(FlowValues(60, 60), ModeValues(ModeRead(0, 0, 0))), 1.0);
    OverrideShown(Replay(100, run).room, 60, 4, 1.0);
    Extend(100, run, hidden);
    run := run + [hidden];
    var t := Replay(100, run);
    Hidden(t.room, t.writes[AirflowLevels], t.wall);
    Extend(100, run, AllJudged);
    run := run + [AllJudged];
  }

  lemma Hidden(room: RoomState, c: Confirmation, wall: real)
    requires c == Recorded(3, LevelsValue(50, 50), 0.0, Succeeded(1, 0.0)) && room.intensiveActive == Some(true)
    requires room.HealthFor(FlowControl) == Succeeded(4, 1.0)
    ensures Judged(room, AirflowLevels, c, wall).0 == c.(status := Unverifiable)
  {
  }

  lemma CarriedMatches(room: RoomState, c: Confirmation, wall: real)
    requires c == Recorded(3, LevelsValue(50, 50), 0.0, Succeeded(1, 0.0)).(status := Unverifiable)
    requires room.operationMode == Some(Manual) && room.intensiveActive == Some(false)
    requires room.balancedTargetReadback == Some(50) && room.HealthFor(FlowControl) == Succeeded(5, 700.0)
    ensures Judged(room, AirflowLevels, c, wall).0.status == Confirmed
    ensures Judged(room, AirflowLevels, c, wall).0.number == c.number
    ensures Judged(room, AirflowLevels, c, wall).0.startedAt == c.startedAt
  {
  }

  /** A final outcome stays as long as the write does: only a new write under the same key replaces it. */
  lemma {:induction false} FinalInRun(maxAirflow: int, run: seq<Event>, from: nat, key: WriteKey)
    requires PossibleRun(maxAirflow, run) && from <= |run|
    requires var s := Replay(maxAirflow, run[..from]); var t := Replay(maxAirflow, run);
             && key in s.writes && s.writes[key].status in {FailedWrite, Confirmed, Superseded}
             && key in t.writes && t.writes[key].number == s.writes[key].number
    ensures Replay(maxAirflow, run).writes[key].status == Replay(maxAirflow, run[..from]).writes[key].status
    decreases |run|
  {
    if from == |run| {
      assert run[..from] == run;
    } else {
      var before := run[..|run| - 1];
      assert before[..from] == run[..from];
      RunInvariant(maxAirflow, before);
      NumbersGrow(maxAirflow, run, from, key);
      FinalInRun(maxAirflow, before, from, key);
      StepKeepsFinal(maxAirflow, Replay(maxAirflow, before), run[|run| - 1], key);
    }
  }

  lemma JudgedKeepsFinal(s: State, key: WriteKey)
    requires key in s.writes && Final(s.writes[key].status)
    ensures AfterJudging(s).writes[key].status == s.writes[key].status
  {
    JudgedKeepsWrite(s.room, key, s.writes[key], s.wall);
  }

  lemma StepKeepsFinal(maxAirflow: int, s: State, e: Event, key: WriteKey)
    requires Invariant(s) && key in s.writes && Final(s.writes[key].status)
    requires key in Step(maxAirflow, s, e).writes && Step(maxAirflow, s, e).writes[key].number == s.writes[key].number
    ensures Step(maxAirflow, s, e).writes[key].status == s.writes[key].status
  {
    match e
    case AllJudged => JudgedKeepsFinal(s, key);
    case WriteAccepted(k, value) => RecordingKeepsNumbers(s.writes, k, New(s, k, value), key);
    case WriteInterrupted(k, value, error) =>
      RecordingKeepsNumbers(s.writes, k, WithStatus(New(s, k, value), Unconfirmed, Some(error)), key);
    case _ =>
  }

  /** A write still there at the end has been there since it was recorded. */
  lemma {:induction false} NumbersGrow(maxAirflow: int, run: seq<Event>, from: nat, key: WriteKey)
    requires PossibleRun(maxAirflow, run) && from < |run|
    requires var s := Replay(maxAirflow, run[..from]); var t := Replay(maxAirflow, run);
             key in s.writes && key in t.writes && t.writes[key].number == s.writes[key].number
    ensures var b := Replay(maxAirflow, run[..|run| - 1]);
            key in b.writes && b.writes[key].number == Replay(maxAirflow, run).writes[key].number
  {
    var before, e := run[..|run| - 1], run[|run| - 1];
    assert before[..from] == run[..from];
    PrefixPossible(maxAirflow, run, from);
    RunInvariant(maxAirflow, run[..from]);
    NextGrows(maxAirflow, before, from);
    RunInvariant(maxAirflow, before);
    StepKeepsNumbers(maxAirflow, Replay(maxAirflow, before), e, key);
  }

  /** A step gives a write a number of its own or leaves it the one it has. */
  lemma StepKeepsNumbers(maxAirflow: int, s: State, e: Event, key: WriteKey)
    requires Counted(s) && key in Step(maxAirflow, s, e).writes
    ensures var number := Step(maxAirflow, s, e).writes[key].number;
            number == s.next || (key in s.writes && s.writes[key].number == number)
  {
    match e
    case AllJudged => JudgedSame(s);
    case WriteAccepted(k, value) => RecordingKeepsNumbers(s.writes, k, New(s, k, value), key);
    case WriteInterrupted(k, value, error) =>
      RecordingKeepsNumbers(s.writes, k, WithStatus(New(s, k, value), Unconfirmed, Some(error)), key);
    case _ =>
  }

  lemma RecordingKeepsNumbers(writes: Writes, key: WriteKey, c: Confirmation, k: WriteKey)
    requires k in WithRecorded(writes, key, c)
    ensures var number := WithRecorded(writes, key, c)[k].number;
            number == c.number || (k in writes && writes[k].number == number)
    ensures k != key && k in writes && Final(writes[k].status) ==> WithRecorded(writes, key, c)[k].status == writes[k].status
  {
  }

  lemma {:induction false} PrefixPossible(maxAirflow: int, run: seq<Event>, n: nat)
    requires PossibleRun(maxAirflow, run) && n <= |run|
    ensures PossibleRun(maxAirflow, run[..n])
    decreases |run|
  {
    if n == |run| {
      assert run[..n] == run;
    } else {
      PrefixPossible(maxAirflow, run[..|run| - 1], n);
      assert run[..|run| - 1][..n] == run[..n];
    }
  }

  lemma {:induction false} NextGrows(maxAirflow: int, run: seq<Event>, n: nat)
    requires n <= |run|
    ensures Replay(maxAirflow, run[..n]).next <= Replay(maxAirflow, run).next
    decreases |run|
  {
    if n == |run| {
      assert run[..n] == run;
    } else {
      NextGrows(maxAirflow, run[..|run| - 1], n);
      assert run[..|run| - 1][..n] == run[..n];
    }
  }

  // -------------------------------------------------------------------
  //  Issues
  // -------------------------------------------------------------------

  /** Write `number` is unhealthy after event `k`, or that event was a judging pass that left it pending past
      the timeout. */
  predicate TroubledAt(maxAirflow: int, run: seq<Event>, k: nat, number: nat)
    requires k < |run|
  {
    Troubled(Replay(maxAirflow, run[..k + 1]), run[k], number)
  }

  predicate Troubled(t: State, e: Event, number: nat) {
    exists key | key in t.writes :: TroubledBy(t, e, key, number)
  }

  predicate TroubledBy(t: State, e: Event, key: WriteKey, number: nat)
    requires key in t.writes
  {
    && t.writes[key].number == number
    && (|| t.writes[key].status in {FailedWrite, Mismatch, Unconfirmed}
        || (e == AllJudged && t.writes[key].status == PendingReadback && t.wall - t.writes[key].startedAt > 30.0))
  }

  lemma JudgedReports(s: State, number: nat)
    requires Counted(s)
    ensures number in AfterJudging(s).reported <==> number in s.reported || Troubled(AfterJudging(s), AllJudged, number)
  {
    var t := AfterJudging(s);
    forall key | key in s.writes
      ensures t.writes[key].number == s.writes[key].number
      ensures TroubledBy(t, AllJudged, key, s.writes[key].number) && s.writes[key].number !in s.reported
         <==> key in ReportKeys(s.writes, s.room, s.wall)
    {
      JudgedMayBecome(s.room, key, s.writes[key], s.wall);
    }
    if number in NumbersOf(s.writes, ReportKeys(s.writes, s.room, s.wall)) {
      var key :| key in ReportKeys(s.writes, s.room, s.wall) && s.writes[key].number == number;
      assert TroubledBy(t, AllJudged, key, number);
    }
    if Troubled(t, AllJudged, number) && number !in s.reported {
      var key :| key in t.writes && TroubledBy(t, AllJudged, key, number);
      assert key in ReportKeys(s.writes, s.room, s.wall);
    }
  }

  /** A step other than a judging pass reports only a write it makes unhealthy. */
  lemma NewReport(maxAirflow: int, s: State, e: Event, number: nat)
    requires e != AllJudged && number in Step(maxAirflow, s, e).reported && number !in s.reported
    requires Counted(s)
    ensures Troubled(Step(maxAirflow, s, e), e, number)
  {
    var t := Step(maxAirflow, s, e);
    match e
    case WriteInterrupted(key, _, _) => assert TroubledBy(t, e, key, number);
    case WriteRejected(key, _, _) => assert TroubledBy(t, e, key, number);
    case GivenUp(key, _) => assert TroubledBy(t, e, key, number);
    case _ =>
  }

  /** A step reports exactly the writes it leaves troubled and that were not reported before. */
  lemma StepReports(maxAirflow: int, s: State, e: Event, number: nat)
    requires Counted(s)
    ensures var t := Step(maxAirflow, s, e);
            number in t.reported <==> number in s.reported || Troubled(t, e, number)
  {
    if e == AllJudged {
      JudgedReports(s, number);
    } else {
      StepCounted(maxAirflow, s, e);
      StepKeepsReports(maxAirflow, s, e);
      if number in Step(maxAirflow, s, e).reported && number !in s.reported {
        NewReport(maxAirflow, s, e, number);
      }
    }
  }

  lemma StepKeepsReports(maxAirflow: int, s: State, e: Event)
    ensures s.reported <= Step(maxAirflow, s, e).reported
  {
  }

  lemma TroubledPrefix(maxAirflow: int, run: seq<Event>, k: nat, number: nat)
    requires k + 1 < |run|
    ensures TroubledAt(maxAirflow, run, k, number) <==> TroubledAt(maxAirflow, run[..|run| - 1], k, number)
  {
    assert run[..|run| - 1][..k + 1] == run[..k + 1];
  }

  /** Over every run, an issue is reported for exactly the writes that became failed, mismatched or
      unconfirmed, or that a judging pass left pending past the timeout; and the total is their number. */
  lemma {:induction false} IssuesExactly(maxAirflow: int, run: seq<Event>, number: nat)
    requires PossibleRun(maxAirflow, run)
    ensures number in Replay(maxAirflow, run).reported
       <==> exists k | 0 <= k < |run| :: TroubledAt(maxAirflow, run, k, number)
    ensures Replay(maxAirflow, run).total == |Replay(maxAirflow, run).reported|
  {
    RunInvariant(maxAirflow, run);
    if run != [] {
      var n := |run| - 1;
      var before := run[..n];
      IssuesExactly(maxAirflow, before, number);
      RunInvariant(maxAirflow, before);
      StepReports(maxAirflow, Replay(maxAirflow, before), run[n], number);
      assert run[..n + 1] == run;
      forall k | 0 <= k < n
        ensures TroubledAt(maxAirflow, run, k, number) <==> TroubledAt(maxAirflow, before, k, number)
      {
        TroubledPrefix(maxAirflow, run, k, number);
      }
      if number in Replay(maxAirflow, run).reported && number !in Replay(maxAirflow, before).reported {
        assert TroubledAt(maxAirflow, run, n, number);
      }
    }
  }

  // -------------------------------------------------------------------
  //  Outcomes
  // -------------------------------------------------------------------

  /** What the reads since a write say of it. */
  datatype Evidence = Nothing | ReadFailed | HiddenNow | NotShown | Matching | Differing

  /** The group that judges `key` was last read after the write was sent or not, and that read failed, showed an
      override that hides the value, did not show it, or showed it. */
  function EvidenceOf(s: State, key: WriteKey): Evidence
    requires key in s.writes
  {
    var health, sent := s.room.HealthFor(if key.ControlSetting? then ControlSettings else FlowControl), s.writes[key].number;
    if health.attempt < sent then Nothing
    else if health.success < health.attempt then ReadFailed
    else if key in {AirflowLevels, OperationModeWrite} && s.room.intensiveActive == Some(true) then HiddenNow
    else if ReadbackValue(s.room, key).None? then NotShown
    else if Matched(s.room, key, s.writes[key].expected) then Matching
    else Differing
  }

  /** `d` is what a judging pass makes of write `c`. */
  predicate FollowsFrom(c: Confirmation, evidence: Evidence, d: Confirmation) {
    if c.status in {FailedWrite, Confirmed, Superseded} then d == c
    else
      match evidence
      case Nothing => d.status == c.status
      case NotShown => d.status == c.status
      case ReadFailed => d.status == if c.status == PendingReadback then Unconfirmed else c.status
      case HiddenNow => d.status == Unverifiable
      case Matching => d.status == Confirmed
      case Differing => d.status == Mismatch
  }

  /** In every run, what a judging pass makes of a write is decided by the reads made after it, and by them
      alone; a mismatch shows the value read. Whatever it leaves failed, mismatched or unconfirmed, or pending for
      more than half a minute, has then been reported. */
  lemma OutcomeInRun(maxAirflow: int, run: seq<Event>, key: WriteKey)
    requires PossibleRun(maxAirflow, run) && key in Replay(maxAirflow, run).writes
    ensures var s, t := Replay(maxAirflow, run), Replay(maxAirflow, run + [AllJudged]);
            && key in t.writes && t.writes[key].number == s.writes[key].number
            && FollowsFrom(s.writes[key], EvidenceOf(s, key), t.writes[key])
            && (s.writes[key].status in {PendingReadback, Unconfirmed, Unverifiable, Mismatch} && EvidenceOf(s, key).Differing? ==>
                  t.writes[key].actual == ReadbackValue(s.room, key))
            && (TroubledBy(t, AllJudged, key, t.writes[key].number) ==> t.writes[key].number in t.reported)
  {
    RunInvariant(maxAirflow, run);
    Extend(maxAirflow, run, AllJudged);
    OutcomeJudged(Replay(maxAirflow, run), key);
  }

  /** The last read of a group was after the write exactly when it is not the one the write started from. */
  lemma ReadAfterWrite(s: State, key: WriteKey)
    requires Invariant(s) && key in s.writes
    ensures var health := s.room.HealthFor(if key.ControlSetting? then ControlSettings else FlowControl);
            && health.Valid()
            && (health.attempt < s.writes[key].number ==> health == s.writes[key].baseline)
            && (health.attempt >= s.writes[key].number ==>
                  health.attempt > s.writes[key].number && health != s.writes[key].baseline)
  {
  }

  lemma OutcomeJudged(s: State, key: WriteKey)
    requires Invariant(s) && key in s.writes
    ensures var c, d := s.writes[key], AfterJudging(s).writes[key];
            && d.number == c.number && FollowsFrom(c, EvidenceOf(s, key), d)
            && (c.status in {PendingReadback, Unconfirmed, Unverifiable, Mismatch} && EvidenceOf(s, key).Differing? ==>
                  d.actual == ReadbackValue(s.room, key))
            && (TroubledBy(AfterJudging(s), AllJudged, key, d.number) ==> d.number in AfterJudging(s).reported)
  {
    ReadAfterWrite(s, key);
    OutcomeOne(s, key);
    TroubleReported(s, key);
  }

  lemma OutcomeOne(s: State, key: WriteKey)
    requires key in s.writes
    requires var health := s.room.HealthFor(if key.ControlSetting? then ControlSettings else FlowControl);
             && health.Valid()
             && (health.attempt < s.writes[key].number ==> health == s.writes[key].baseline)
             && (health.attempt >= s.writes[key].number ==>
                   health.attempt > s.writes[key].number && health != s.writes[key].baseline)
    ensures var c, d := s.writes[key], Judged(s.room, key, s.writes[key], s.wall).0;
            && d.number == c.number && FollowsFrom(c, EvidenceOf(s, key), d)
            && (c.status in {PendingReadback, Unconfirmed, Unverifiable, Mismatch} && EvidenceOf(s, key).Differing? ==>
                  d.actual == ReadbackValue(s.room, key))
  {
  }

  lemma TroubleReported(s: State, key: WriteKey)
    requires Counted(s) && key in s.writes
    ensures var d := AfterJudging(s).writes[key];
            TroubledBy(AfterJudging(s), AllJudged, key, d.number) ==> d.number in AfterJudging(s).reported
  {
    var t := AfterJudging(s);
    if TroubledBy(t, AllJudged, key, t.writes[key].number) {
      assert Troubled(t, AllJudged, t.writes[key].number);
      JudgedReports(s, t.writes[key].number);
    }
  }
}

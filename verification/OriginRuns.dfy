/** What the origins of `LevelOrigins` mean in whole runs: which read brought a level, and when a command is
    planned from something older than an interrupted write. */
module OriginRuns {
  import opened Wrappers
  import opened Models
  import opened ModeCodec
  import opened Levels
  import opened WriteJudgement
  import opened RoomReads
  import opened LevelOrigins
  import WriteRuns

  // -------------------------------------------------------------------
  //  What the reads brought
  // -------------------------------------------------------------------

  /** Event `k` is read `number` and brought this airflow. */
  predicate DeliveredAt(maxAirflow: int, run: seq<WriteRuns.Event>, k: nat, number: nat, extract: int, supply: int)
    requires k < |run|
  {
    && run[k].AirflowGroupsRead? && run[k].read.Answered? && run[k].read.flow == FlowValues(extract, supply)
    && WriteRuns.Replay(maxAirflow, run[..k]).next == number
  }

  predicate Delivered(maxAirflow: int, run: seq<WriteRuns.Event>, number: nat, extract: int, supply: int) {
    exists k | 0 <= k < |run| :: DeliveredAt(maxAirflow, run, k, number, extract, supply)
  }

  lemma DeliveredStays(maxAirflow: int, run: seq<WriteRuns.Event>, number: nat, extract: int, supply: int)
    requires run != [] && Delivered(maxAirflow, run[..|run| - 1], number, extract, supply)
    ensures Delivered(maxAirflow, run, number, extract, supply)
  {
    var before := run[..|run| - 1];
    var k :| 0 <= k < |before| && DeliveredAt(maxAirflow, before, k, number, extract, supply);
    assert before[..k] == run[..k];
    assert DeliveredAt(maxAirflow, run, k, number, extract, supply);
  }

  /** Event `k` is read `number` and brought this status map. */
  predicate MapDeliveredAt(maxAirflow: int, run: seq<WriteRuns.Event>, k: nat, number: nat, block: ModeRead)
    requires k < |run|
  {
    && run[k].AirflowGroupsRead? && run[k].read.Answered?
    && MapResult(run[k].read.flow, run[k].read.mode) == ModeValues(block)
    && WriteRuns.Replay(maxAirflow, run[..k]).next == number
  }

  predicate MapDelivered(maxAirflow: int, run: seq<WriteRuns.Event>, number: nat, block: ModeRead) {
    exists k | 0 <= k < |run| :: MapDeliveredAt(maxAirflow, run, k, number, block)
  }

  lemma MapDeliveredStays(maxAirflow: int, run: seq<WriteRuns.Event>, number: nat, block: ModeRead)
    requires run != [] && MapDelivered(maxAirflow, run[..|run| - 1], number, block)
    ensures MapDelivered(maxAirflow, run, number, block)
  {
    var before := run[..|run| - 1];
    var k :| 0 <= k < |before| && MapDeliveredAt(maxAirflow, before, k, number, block);
    assert before[..k] == run[..k];
    assert MapDeliveredAt(maxAirflow, run, k, number, block);
  }

  /** The mode and the targets of the registers are those of `block`. */
  predicate Shows(maxAirflow: int, state: RoomState, block: ModeRead) {
    && (state.operationMode == Some(Off) ==> block.mode == MODE_OFF)
    && (state.targetLevel.Some? && state.targetFrom.None? ==> state.targetLevel == DecodeTarget(maxAirflow, block.currentLevel))
    && (state.extractTargetLevel.Some? ==> state.extractTargetLevel == DecodeTarget(maxAirflow, block.extractTargetLevel))
  }

  /** No status map was read yet. */
  predicate ShowsNothing(state: RoomState) {
    && state.operationMode.None? && state.extractTargetLevel.None?
    && (state.targetLevel.Some? ==> state.targetFrom.Some?)
  }

  /** The registers' values were brought by read `mapRead`. */
  ghost predicate MapTraced(maxAirflow: int, run: seq<WriteRuns.Event>, state: RoomState) {
    || (state.mapRead == 0 && ShowsNothing(state))
    || exists block :: MapDelivered(maxAirflow, run, state.mapRead, block) && Shows(maxAirflow, state, block)
  }

  lemma DecodeShows(maxAirflow: int, state: RoomState, block: Option<ModeRead>, number: nat)
    ensures var s := WithMap(maxAirflow, state, block, number);
            || (block.Some? && s.mapRead == number && Shows(maxAirflow, s, block.value))
            || (&& s.mapRead == state.mapRead
                && (forall b :: Shows(maxAirflow, state, b) ==> Shows(maxAirflow, s, b))
                && (ShowsNothing(state) ==> ShowsNothing(s)))
  {
  }

  /** The airflow that is known was brought by read `flowRead`, and a target from airflow is the balanced
      level of the airflow its read brought. */
  ghost predicate Traced(maxAirflow: int, run: seq<WriteRuns.Event>, state: RoomState) {
    && (state.flowRead > 0 ==>
          && state.extractAirFlow.Some? && state.supplyAirFlow.Some?
          && Delivered(maxAirflow, run, state.flowRead, state.extractAirFlow.value, state.supplyAirFlow.value))
    && (state.targetLevel.Some? && state.targetFrom.Some? ==> exists extract, supply ::
          && Delivered(maxAirflow, run, state.targetFrom.value, extract, supply)
          && state.targetLevel == DeriveBalanced(Some(extract), Some(supply)))
  }

  predicate SameAirflow(a: RoomState, b: RoomState) {
    a.flowRead == b.flowRead && a.extractAirFlow == b.extractAirFlow && a.supplyAirFlow == b.supplyAirFlow
  }

  predicate SameTarget(a: RoomState, b: RoomState) {
    a.targetLevel == b.targetLevel && a.targetFrom == b.targetFrom
  }

  lemma DecodeOrigins(maxAirflow: int, state: RoomState, block: Option<ModeRead>)
    ensures var s := ApplyModeRead(maxAirflow, state, block);
            && SameAirflow(s, state)
            && (SameTarget(s, state) || s.targetFrom == None
                || (s.targetFrom == Some(s.flowRead) && s.targetLevel == DeriveBalanced(s.extractAirFlow, s.supplyAirFlow)))
  {
  }

  lemma ReadOrigins(maxAirflow: int, state: RoomState, read: AirflowRead, number: nat, at: real)
    ensures var s := AfterAirflowRead(maxAirflow, state, read, number, at);
            && (SameAirflow(s, state)
                || (read.Answered? && s.flowRead == number && s.extractAirFlow.Some? && s.supplyAirFlow.Some?
                    && read.flow == FlowValues(s.extractAirFlow.value, s.supplyAirFlow.value)))
            && (SameTarget(s, state) || s.targetFrom == None
                || (s.targetFrom == Some(s.flowRead) && s.targetLevel == DeriveBalanced(s.extractAirFlow, s.supplyAirFlow)))
  {
    match read
    case Answered(flow, status) =>
      var mode := MapResult(flow, status);
      DecodeOrigins(maxAirflow, WithFlow(state, flow, number), if mode.ModeValues? then Some(mode.block) else None);
    case _ =>
  }

  lemma OtherEvents(maxAirflow: int, s: WriteRuns.State, e: WriteRuns.Event)
    requires !e.AirflowGroupsRead?
    ensures SameAirflow(WriteRuns.Step(maxAirflow, s, e).room, s.room) && SameTarget(WriteRuns.Step(maxAirflow, s, e).room, s.room)
  {
  }

  lemma KnownInRun(maxAirflow: int, run: seq<WriteRuns.Event>)
    requires WriteRuns.PossibleRun(maxAirflow, run)
    ensures AirflowKept(WriteRuns.Replay(maxAirflow, run).room)
  {
    WriteRuns.RunInvariant(maxAirflow, run);
  }

  lemma {:induction false} AllTraced(maxAirflow: int, run: seq<WriteRuns.Event>)
    requires WriteRuns.PossibleRun(maxAirflow, run)
    ensures Traced(maxAirflow, run, WriteRuns.Replay(maxAirflow, run).room)
  {
    if run != [] {
      var before, e := run[..|run| - 1], run[|run| - 1];
      var s := WriteRuns.Replay(maxAirflow, before);
      AllTraced(maxAirflow, before);
      KnownInRun(maxAirflow, run);
      if e.AirflowGroupsRead? {
        ReadOrigins(maxAirflow, s.room, e.read, s.next, e.at);
      } else {
        OtherEvents(maxAirflow, s, e);
      }
      StepTraced(maxAirflow, run, s, WriteRuns.Step(maxAirflow, s, e).room);
    }
  }

  lemma StepTraced(maxAirflow: int, run: seq<WriteRuns.Event>, s: WriteRuns.State, after: RoomState)
    requires run != [] && s == WriteRuns.Replay(maxAirflow, run[..|run| - 1])
    requires Traced(maxAirflow, run[..|run| - 1], s.room)
    requires SameAirflow(after, s.room)
          || (after.extractAirFlow.Some? && after.supplyAirFlow.Some?
              && DeliveredAt(maxAirflow, run, |run| - 1, after.flowRead, after.extractAirFlow.value, after.supplyAirFlow.value))
    requires SameTarget(after, s.room) || after.targetFrom == None
          || (after.targetFrom == Some(after.flowRead) && after.targetLevel == DeriveBalanced(after.extractAirFlow, after.supplyAirFlow))
    requires (after.extractAirFlow.Some? <==> after.flowRead > 0) && (after.supplyAirFlow.Some? <==> after.flowRead > 0)
    ensures Traced(maxAirflow, run, after)
  {
    var before := run[..|run| - 1];
    if after.flowRead > 0 && SameAirflow(after, s.room) {
      DeliveredStays(maxAirflow, run, after.flowRead, after.extractAirFlow.value, after.supplyAirFlow.value);
    }
    if after.targetLevel.Some? && after.targetFrom.Some? && SameTarget(after, s.room) {
      var extract, supply :| Delivered(maxAirflow, before, after.targetFrom.value, extract, supply)
                             && after.targetLevel == DeriveBalanced(Some(extract), Some(supply));
      DeliveredStays(maxAirflow, run, after.targetFrom.value, extract, supply);
    }
  }

  predicate BringsMap(e: WriteRuns.Event) {
    e.AirflowGroupsRead? && e.read.Answered? && MapResult(e.read.flow, e.read.mode).ModeValues?
  }

  function MapOf(e: WriteRuns.Event): ModeRead
    requires BringsMap(e)
  {
    MapResult(e.read.flow, e.read.mode).block
  }

  lemma AppliedShows(maxAirflow: int, s: WriteRuns.State, e: WriteRuns.Event)
    ensures var t := WriteRuns.Step(maxAirflow, s, e).room;
            || (BringsMap(e) && t.mapRead == s.next && Shows(maxAirflow, t, MapOf(e)))
            || (&& t.mapRead == s.room.mapRead
                && (forall b :: Shows(maxAirflow, s.room, b) ==> Shows(maxAirflow, t, b))
                && (ShowsNothing(s.room) ==> ShowsNothing(t)))
  {
    if e.AirflowGroupsRead? && e.read.Answered? {
      var mode := MapResult(e.read.flow, e.read.mode);
      DecodeShows(maxAirflow, WithFlow(s.room, e.read.flow, s.next), if mode.ModeValues? then Some(mode.block) else None, s.next);
    }
  }

  lemma {:induction false} AllMapTraced(maxAirflow: int, run: seq<WriteRuns.Event>)
    requires WriteRuns.PossibleRun(maxAirflow, run)
    ensures MapTraced(maxAirflow, run, WriteRuns.Replay(maxAirflow, run).room)
  {
    if run != [] {
      var before, e := run[..|run| - 1], run[|run| - 1];
      var s, t := WriteRuns.Replay(maxAirflow, before), WriteRuns.Replay(maxAirflow, run);
      AllMapTraced(maxAirflow, before);
      AppliedShows(maxAirflow, s, e);
      if BringsMap(e) && t.room.mapRead == s.next && Shows(maxAirflow, t.room, MapOf(e)) {
        assert MapDeliveredAt(maxAirflow, run, |run| - 1, s.next, MapOf(e));
      } else if !(s.room.mapRead == 0 && ShowsNothing(s.room)) {
        var block :| MapDelivered(maxAirflow, before, s.room.mapRead, block) && Shows(maxAirflow, s.room, block);
        MapDeliveredStays(maxAirflow, run, s.room.mapRead, block);
      }
    }
  }

  /** `level` is airflow that its read brought or the balanced level of it, or a target of the status map its read
      brought or the zero of the map's off mode. */
  ghost predicate BroughtBy(maxAirflow: int, run: seq<WriteRuns.Event>, level: Level) {
    level.Known? ==>
      match level.origin
      case Airflow(read) => exists extract, supply ::
        && Delivered(maxAirflow, run, read, extract, supply)
        && (level.level == extract || level.level == supply || DeriveBalanced(Some(extract), Some(supply)) == Some(level.level))
      case Map(read) => exists block ::
        && MapDelivered(maxAirflow, run, read, block)
        && (|| (block.mode == MODE_OFF && level.level == 0)
            || DecodeTarget(maxAirflow, block.currentLevel) == Some(level.level)
            || DecodeTarget(maxAirflow, block.extractTargetLevel) == Some(level.level))
      case _ => true
  }

  /** In every run, a level that comes from airflow or from the status map, reported or planned for a mode
      command, was brought by the read it names. */
  lemma BroughtInRun(maxAirflow: int, run: seq<WriteRuns.Event>, now: real, pending: Option<LevelPair>)
    requires WriteRuns.PossibleRun(maxAirflow, run)
    ensures var room := WriteRuns.Replay(maxAirflow, run).room;
            var effective := Effective(room, now, pending);
            && BroughtBy(maxAirflow, run, effective.supply) && BroughtBy(maxAirflow, run, effective.extract)
            && BroughtBy(maxAirflow, run, ModeOrigins(room, effective).supply)
            && BroughtBy(maxAirflow, run, ModeOrigins(room, effective).extract)
  {
    var room := WriteRuns.Replay(maxAirflow, run).room;
    var effective := Effective(room, now, pending);
    AllTraced(maxAirflow, run);
    AllMapTraced(maxAirflow, run);
    WriteRuns.RunInvariant(maxAirflow, run);
    ModeLevelsMeasure(room, now, pending);
    Brings(maxAirflow, run, room, effective.supply);
    Brings(maxAirflow, run, room, effective.extract);
    Brings(maxAirflow, run, room, ModeOrigins(room, effective).supply);
    Brings(maxAirflow, run, room, ModeOrigins(room, effective).extract);
  }

  lemma Brings(maxAirflow: int, run: seq<WriteRuns.Event>, room: RoomState, level: Level)
    requires Traced(maxAirflow, run, room) && MapTraced(maxAirflow, run, room) && TargetConsistent(room)
    requires Measures(room, level)
    ensures BroughtBy(maxAirflow, run, level)
  {
  }

  // -------------------------------------------------------------------
  //  After an interrupted write
  // -------------------------------------------------------------------

  lemma OtherHealth(maxAirflow: int, s: WriteRuns.State, e: WriteRuns.Event, g: Group)
    requires !e.AirflowGroupsRead? && g != ControlSettings
    ensures WriteRuns.Step(maxAirflow, s, e).room.HealthFor(g) == s.room.HealthFor(g)
  {
  }

  /** The health of a group changes only by reads with later numbers. */
  lemma {:induction false} HealthSince(maxAirflow: int, run: seq<WriteRuns.Event>, k: nat, g: Group)
    requires WriteRuns.PossibleRun(maxAirflow, run) && k <= |run| && g != ControlSettings
    ensures var s, t := WriteRuns.Replay(maxAirflow, run[..k]), WriteRuns.Replay(maxAirflow, run);
            t.room.HealthFor(g) == s.room.HealthFor(g) || t.room.HealthFor(g).attempt >= s.next
    decreases |run|
  {
    if k == |run| {
      assert run[..k] == run;
    } else {
      var before, e := run[..|run| - 1], run[|run| - 1];
      var s := WriteRuns.Replay(maxAirflow, before);
      assert before[..k] == run[..k];
      HealthSince(maxAirflow, before, k, g);
      WriteRuns.NextGrows(maxAirflow, before, k);
      if e.AirflowGroupsRead? {
        WriteRuns.RunInvariant(maxAirflow, before);
        HealthAfterRead(maxAirflow, s.room, e.read, s.next, e.at, g);
      } else {
        OtherHealth(maxAirflow, s, e, g);
      }
    }
  }

  /** What was known when event `k` of a run happened. */
  function StateAt(maxAirflow: int, run: seq<WriteRuns.Event>, k: nat): WriteRuns.State
    requires k <= |run|
  {
    WriteRuns.Replay(maxAirflow, run[..k])
  }

  /** In every run with an interrupted write, the levels count as reported again only once the status map, or
      without a fresh one the airflow, was read after it. */
  lemma ReportedInRun(maxAirflow: int, run: seq<WriteRuns.Event>, k: nat, now: real)
    requires WriteRuns.PossibleRun(maxAirflow, run) && k < |run| && run[k].WriteInterrupted?
    requires var s, room := StateAt(maxAirflow, run, k), WriteRuns.Replay(maxAirflow, run).room;
             LevelsReportedSince(room, s.room.HealthFor(FlowControl), s.room.HealthFor(Flow), now)
    ensures var s, room := StateAt(maxAirflow, run, k), WriteRuns.Replay(maxAirflow, run).room;
            if GroupFresh(room, FlowControl, now) then room.HealthFor(FlowControl).success > s.next
            else GroupFresh(room, Flow, now) && room.HealthFor(Flow).success > s.next
  {
    var s, room := StateAt(maxAirflow, run, k), WriteRuns.Replay(maxAirflow, run).room;
    assert run[..k + 1][..k] == run[..k];
    assert WriteRuns.Replay(maxAirflow, run[..k + 1]) == WriteRuns.Step(maxAirflow, s, run[k]);
    HealthSince(maxAirflow, run, k + 1, FlowControl);
    HealthSince(maxAirflow, run, k + 1, Flow);
    ReportedAfterInterruption(room, s.room.HealthFor(FlowControl), s.room.HealthFor(Flow), s.next, now);
  }

  /** In every run with an interrupted write, at any later time and whatever was read since, a command is planned
      from something read before the write exactly under the conditions of `LevelOrigins`. */
  lemma OldInRun(maxAirflow: int, run: seq<WriteRuns.Event>, k: nat, now: real, pending: Option<LevelPair>,
                 direction: Direction, level: int)
    requires WriteRuns.PossibleRun(maxAirflow, run) && k < |run| && run[k].WriteInterrupted? && Whole(pending)
    ensures var number, room := StateAt(maxAirflow, run, k).next, WriteRuns.Replay(maxAirflow, run).room;
            var from, kept := ModeOrigins(room, Effective(room, now, pending)), KeptOrigin(room, now, pending, direction, level);
            && (from.supply.AirflowBefore(number) <==> pending.None? && BalancedFromAirflow(room, number, now))
            && (from.supply.RegisterBefore(number) <==> pending.None? && BalancedFromRegister(room, number, now))
            && (from.extract.AirflowBefore(number) <==> pending.None? && ExtractFromAirflow(room, number, now))
            && (from.extract.RegisterBefore(number) <==> pending.None? && ExtractFromRegister(room, number, now))
            && (kept.AirflowBefore(number) <==> pending.None? && KeptFromAirflow(room, direction, level, number, now))
            && (kept.RegisterBefore(number) <==> pending.None? && KeptFromRegister(room, direction, number, now))
  {
    var number, room := StateAt(maxAirflow, run, k).next, WriteRuns.Replay(maxAirflow, run).room;
    WriteRuns.RunInvariant(maxAirflow, run);
    OldBalancedExactly(room, number, now, pending);
    OldExtractExactly(room, number, now, pending);
    OldKeptExactly(room, number, now, pending, direction, level);
  }

  // -------------------------------------------------------------------
  //  That it happens
  // -------------------------------------------------------------------

  const REFUSED := FlowFailed("illegal data address", false)

  function ReadAt(flow: FlowResult, mode: ModeResult, at: real): WriteRuns.Event {
    WriteRuns.AirflowGroupsRead(Answered(flow, mode), at)
  }

  /** Read 1 brings airflow and status map, write 2 is interrupted, and read 3 follows. */
  function Interrupted(airflow: int, block: ModeRead, flow: FlowResult, mode: ModeResult): seq<WriteRuns.Event> {
    [ReadAt(FlowValues(airflow, airflow), ModeValues(block), 10.0),
     WriteRuns.WriteInterrupted(AirflowLevels, LevelsValue(50, 50), "Write was cancelled"), ReadAt(flow, mode, 20.0)]
  }

  /** What read 1 leaves known. */
  function FirstKnown(maxAirflow: int, airflow: int, block: ModeRead): RoomState {
    AfterAirflowRead(maxAirflow, EMPTY_ROOM_STATE, Answered(FlowValues(airflow, airflow), ModeValues(block)), 1, 10.0)
  }

  /** The levels count as reported again after read 3, so from then on commands are no longer refused. */
  predicate Resumed(maxAirflow: int, run: seq<WriteRuns.Event>) {
    && WriteRuns.PossibleRun(maxAirflow, run) && |run| >= 3 && run[1].WriteInterrupted?
    && var s, room := StateAt(maxAirflow, run, 1), StateAt(maxAirflow, run, 3).room;
       && s.next == 2
       && LevelsReportedSince(room, s.room.HealthFor(FlowControl), s.room.HealthFor(Flow), 20.0)
  }

  lemma InterruptedRun(maxAirflow: int, airflow: int, block: ModeRead, flow: FlowResult, mode: ModeResult)
    ensures var run := Interrupted(airflow, block, flow, mode);
            && |run| == 3 && WriteRuns.PossibleRun(maxAirflow, run) && StateAt(maxAirflow, run, 1).next == 2
            && StateAt(maxAirflow, run, 1).room == FirstKnown(maxAirflow, airflow, block)
            && WriteRuns.Replay(maxAirflow, run).room
               == AfterAirflowRead(maxAirflow, FirstKnown(maxAirflow, airflow, block), Answered(flow, mode), 3, 20.0)
            && WriteRuns.Replay(maxAirflow, run).next == 4 && run[..3] == run
  {
    var run := Interrupted(airflow, block, flow, mode);
    WriteRuns.Extend(maxAirflow, [], run[0]);
    WriteRuns.Extend(maxAirflow, [] + [run[0]], run[1]);
    WriteRuns.Extend(maxAirflow, [] + [run[0]] + [run[1]], run[2]);
    assert run == [] + [run[0]] + [run[1]] + [run[2]];
    assert run[..1] == [] + [run[0]];
  }

  /** Read 3 brought the status map, or the airflow of a unit that refused the map. */
  predicate Settles(flow: FlowResult, mode: ModeResult) {
    (mode.ModeValues? && (flow.FlowFailed? ==> !flow.silent)) || (mode.ModeFailed? && flow.FlowValues?)
  }

  lemma SettledHealth(maxAirflow: int, airflow: int, block: ModeRead, flow: FlowResult, mode: ModeResult)
    requires Settles(flow, mode)
    ensures var first := FirstKnown(maxAirflow, airflow, block);
            var room := AfterAirflowRead(maxAirflow, first, Answered(flow, mode), 3, 20.0);
            && first.HealthFor(Flow) == Succeeded(1, 10.0)
            && LevelsReportedSince(room, first.HealthFor(FlowControl), first.HealthFor(Flow), 20.0)
            && GroupFresh(room, FlowControl, 20.0) == mode.ModeValues?
            && GroupFresh(room, Flow, 20.0) == !flow.FlowFailed?
            && (flow.FlowSkipped? ==> room.HealthFor(Flow) == Succeeded(1, 10.0))
  {
    AnsweredHealth(maxAirflow, EMPTY_ROOM_STATE, FlowValues(airflow, airflow), ModeValues(block), 1, 10.0);
    AnsweredHealth(maxAirflow, FirstKnown(maxAirflow, airflow, block), flow, mode, 3, 20.0);
  }

  lemma Resumes(maxAirflow: int, airflow: int, block: ModeRead, flow: FlowResult, mode: ModeResult)
    requires Settles(flow, mode)
    ensures var run := Interrupted(airflow, block, flow, mode);
            var room := AfterAirflowRead(maxAirflow, FirstKnown(maxAirflow, airflow, block), Answered(flow, mode), 3, 20.0);
            && Resumed(maxAirflow, run) && |run| == 3 && WriteRuns.Replay(maxAirflow, run).room == room
            && WriteRuns.Replay(maxAirflow, run).next == 4
            && GroupFresh(room, FlowControl, 20.0) == mode.ModeValues?
            && GroupFresh(room, Flow, 20.0) == !flow.FlowFailed?
            && StateAt(maxAirflow, run, 1).room.HealthFor(Flow) == Succeeded(1, 10.0)
            && (flow.FlowSkipped? ==> room.HealthFor(Flow) == Succeeded(1, 10.0))
  {
    InterruptedRun(maxAirflow, airflow, block, flow, mode);
    SettledHealth(maxAirflow, airflow, block, flow, mode);
  }

  /** Read 1 shows the low preset, so that the target level is the airflow. */
  const LOW := ModeRead(MODE_MANUAL, CODE_LOW, CODE_LOW)

  lemma LowKnown()
    ensures var first := FirstKnown(100, 20, LOW);
            && first.flowRead == 1 && first.extractAirFlow == Some(20) && first.supplyAirFlow == Some(20)
            && first.operationMode == Some(Manual) && first.presetMode == Some(Low) && first.intensiveActive == Some(false)
            && first.targetLevel == Some(20) && first.targetFrom == Some(1)
            && first.balancedTargetReadback == None && first.extractTargetLevel == None
  {
  }

  lemma BalancedState(room: RoomState)
    requires room == AfterAirflowRead(100, FirstKnown(100, 20, LOW), Answered(REFUSED, ModeValues(LOW)), 3, 20.0)
    requires GroupFresh(room, FlowControl, 20.0) && !GroupFresh(room, Flow, 20.0)
    ensures ModeWriteLevels(room, LevelsNow(room, 20.0).0).supply == Some(20)
    ensures ModeOrigins(room, ReportedOrigins(room, 20.0)).supply == Known(20, Airflow(1))
  {
    LowKnown();
  }

  /** A preset gives no level, so a mode command takes the airflow of read 1. */
  lemma OldBalancedPlanned() returns (run: seq<WriteRuns.Event>)
    ensures |run| == 3 && Resumed(100, run)
    ensures var room := WriteRuns.Replay(100, run).room;
            && ModeWriteLevels(room, LevelsNow(room, 20.0).0).supply == Some(20)
            && ModeOrigins(room, ReportedOrigins(room, 20.0)).supply == Known(20, Airflow(1))
  {
    run := Interrupted(20, LOW, REFUSED, ModeValues(LOW));
    Resumes(100, 20, LOW, REFUSED, ModeValues(LOW));
    BalancedState(WriteRuns.Replay(100, run).room);
  }

  lemma ExtractState(room: RoomState)
    requires var block, later := ModeRead(MODE_MANUAL, 210, 210), ModeRead(MODE_UNBALANCED, 60, 210);
             room == AfterAirflowRead(97, FirstKnown(97, 17, block), Answered(REFUSED, ModeValues(later)), 3, 20.0)
    requires GroupFresh(room, FlowControl, 20.0) && !GroupFresh(room, Flow, 20.0)
    ensures ModeWriteLevels(room, LevelsNow(room, 20.0).0).extract == Some(17)
    ensures ModeOrigins(room, ReportedOrigins(room, 20.0)).extract == Known(17, Airflow(1))
  {
  }

  /** An extract target of 210, over 97 m3/h, is none, so an unbalanced command takes the airflow of read 1. */
  lemma OldExtractPlanned() returns (run: seq<WriteRuns.Event>)
    ensures |run| == 3 && Resumed(97, run)
    ensures var room := WriteRuns.Replay(97, run).room;
            && ModeWriteLevels(room, LevelsNow(room, 20.0).0).extract == Some(17)
            && ModeOrigins(room, ReportedOrigins(room, 20.0)).extract == Known(17, Airflow(1))
  {
    var block, later := ModeRead(MODE_MANUAL, 210, 210), ModeRead(MODE_UNBALANCED, 60, 210);
    run := Interrupted(17, block, REFUSED, ModeValues(later));
    Resumes(97, 17, block, REFUSED, ModeValues(later));
    ExtractState(WriteRuns.Replay(97, run).room);
  }

  lemma DirectionState(room: RoomState)
    requires var block := ModeRead(MODE_MANUAL, 210, 210);
             room == AfterAirflowRead(97, FirstKnown(97, 17, block), Answered(REFUSED, ModeValues(block)), 3, 20.0)
    requires GroupFresh(room, FlowControl, 20.0) && !GroupFresh(room, Flow, 20.0)
    ensures PlanDirectionWrite(room, LevelsNow(room, 20.0).0, LevelsNow(room, 20.0).1, Supply, 60) == Separate(60, 17)
    ensures KeptOrigin(room, 20.0, None, Supply, 60) == Known(17, Airflow(1))
  {
  }

  /** So does a balanced target of 210, and a command for the supply fan keeps the extract fan there. */
  lemma OldDirectionPlanned() returns (run: seq<WriteRuns.Event>)
    ensures |run| == 3 && Resumed(97, run)
    ensures var room := WriteRuns.Replay(97, run).room;
            && PlanDirectionWrite(room, LevelsNow(room, 20.0).0, LevelsNow(room, 20.0).1, Supply, 60) == Separate(60, 17)
            && KeptOrigin(room, 20.0, None, Supply, 60) == Known(17, Airflow(1))
  {
    var block := ModeRead(MODE_MANUAL, 210, 210);
    run := Interrupted(17, block, REFUSED, ModeValues(block));
    Resumes(97, 17, block, REFUSED, ModeValues(block));
    DirectionState(WriteRuns.Replay(97, run).room);
  }

  lemma HiddenState(room: RoomState)
    requires room == AfterAirflowRead(100, FirstKnown(100, 20, LOW),
                                      Answered(FlowValues(60, 60), ModeValues(ModeRead(0, 0, 0))), 3, 20.0)
    requires GroupFresh(room, FlowControl, 20.0) && GroupFresh(room, Flow, 20.0)
    ensures room.flowRead == 3 && ModeWriteLevels(room, LevelsNow(room, 20.0).0).supply == Some(20)
    ensures ModeOrigins(room, ReportedOrigins(room, 20.0)).supply == Known(20, Airflow(1))
  {
    LowKnown();
  }

  /** Behind an intensive override the target level stays what it was, here the airflow of read 1, although
      read 3 brings both the status map and the airflow. */
  lemma OldHiddenPlanned() returns (run: seq<WriteRuns.Event>)
    ensures |run| == 3 && Resumed(100, run)
    ensures var room := WriteRuns.Replay(100, run).room;
            && GroupFresh(room, Flow, 20.0) && room.flowRead == 3
            && ModeWriteLevels(room, LevelsNow(room, 20.0).0).supply == Some(20)
            && ModeOrigins(room, ReportedOrigins(room, 20.0)).supply == Known(20, Airflow(1))
  {
    var later := ModeRead(0, 0, 0);
    run := Interrupted(20, LOW, FlowValues(60, 60), ModeValues(later));
    Resumes(100, 20, LOW, FlowValues(60, 60), ModeValues(later));
    HiddenState(WriteRuns.Replay(100, run).room);
  }

  /** The levels no longer count as reported since the write. */
  predicate Lapsed(maxAirflow: int, run: seq<WriteRuns.Event>, now: real)
    requires |run| >= 3
  {
    var s, room := StateAt(maxAirflow, run, 1), WriteRuns.Replay(maxAirflow, run).room;
    && !LevelsReportedSince(room, s.room.HealthFor(FlowControl), s.room.HealthFor(Flow), now)
    && !GroupFresh(room, FlowControl, now)
  }

  /** Read 4 fails to bring the status map. */
  lemma Lapses(maxAirflow: int, run: seq<WriteRuns.Event>, flow: FlowResult)
    requires Resumed(maxAirflow, run) && |run| == 3 && !flow.FlowValues? && (flow.FlowFailed? ==> !flow.silent)
    requires flow.FlowSkipped? ==> WriteRuns.Replay(maxAirflow, run).room.HealthFor(Flow) == Succeeded(1, 10.0)
                                   && StateAt(maxAirflow, run, 1).room.HealthFor(Flow) == Succeeded(1, 10.0)
    ensures var longer := run + [ReadAt(flow, ModeFailed("acknowledge"), 30.0)];
            var s := WriteRuns.Replay(maxAirflow, run);
            var room := WriteRuns.Replay(maxAirflow, longer).room;
            && Resumed(maxAirflow, longer) && Lapsed(maxAirflow, longer, 30.0)
            && room == AfterAirflowRead(maxAirflow, s.room, Answered(flow, ModeFailed("acknowledge")), s.next, 30.0)
            && GroupFresh(room, Flow, 30.0) == flow.FlowSkipped?
  {
    var longer := run + [ReadAt(flow, ModeFailed("acknowledge"), 30.0)];
    WriteRuns.Extend(maxAirflow, run, ReadAt(flow, ModeFailed("acknowledge"), 30.0));
    assert longer[..1] == run[..1] && longer[..3] == run[..3];
    var s := WriteRuns.Replay(maxAirflow, run);
    AnsweredHealth(maxAirflow, s.room, flow, ModeFailed("acknowledge"), s.next, 30.0);
  }

  lemma LaterState(room: RoomState, lapsed: RoomState)
    requires room == AfterAirflowRead(100, FirstKnown(100, 20, LOW), Answered(REFUSED, ModeValues(LOW)), 3, 20.0)
    requires lapsed == AfterAirflowRead(100, room, Answered(REFUSED, ModeFailed("acknowledge")), 4, 30.0)
    requires !GroupFresh(lapsed, FlowControl, 30.0) && !GroupFresh(lapsed, Flow, 30.0)
    ensures ModeWriteLevels(lapsed, LevelsNow(lapsed, 30.0).0).supply == Some(20)
    ensures ModeOrigins(lapsed, ReportedOrigins(lapsed, 30.0)).supply == Known(20, Airflow(1))
  {
    LowKnown();
  }

  /** Once the levels counted as reported, a later read that fails to bring the status map leaves neither group
      fresh, and a mode command takes the airflow of read 1. */
  lemma OldPlannedLater() returns (run: seq<WriteRuns.Event>)
    ensures |run| == 4 && Resumed(100, run) && Lapsed(100, run, 30.0)
    ensures var room := WriteRuns.Replay(100, run).room;
            && ModeWriteLevels(room, LevelsNow(room, 30.0).0).supply == Some(20)
            && ModeOrigins(room, ReportedOrigins(room, 30.0)).supply == Known(20, Airflow(1))
  {
    run := Interrupted(20, LOW, REFUSED, ModeValues(LOW));
    Resumes(100, 20, LOW, REFUSED, ModeValues(LOW));
    var first := WriteRuns.Replay(100, run).room;
    Lapses(100, run, REFUSED);
    run := run + [ReadAt(REFUSED, ModeFailed("acknowledge"), 30.0)];
    LaterState(first, WriteRuns.Replay(100, run).room);
  }

  lemma KeptState(room: RoomState, lapsed: RoomState)
    requires room == AfterAirflowRead(100, FirstKnown(100, 20, LOW), Answered(FlowSkipped, ModeValues(LOW)), 3, 20.0)
    requires lapsed == AfterAirflowRead(100, room, Answered(FlowSkipped, ModeFailed("acknowledge")), 4, 30.0)
    requires !GroupFresh(lapsed, FlowControl, 30.0) && GroupFresh(lapsed, Flow, 30.0)
    ensures PlanDirectionWrite(lapsed, LevelsNow(lapsed, 30.0).0, LevelsNow(lapsed, 30.0).1, Supply, 60) == Separate(60, 20)
    ensures KeptOrigin(lapsed, 30.0, None, Supply, 60) == Known(20, Airflow(1))
  {
    LowKnown();
  }

  /** With the airflow skipped by reads 3 and 4, it is still that of read 1, fresh, and what a directional command
      keeps. */
  lemma OldKeptLater() returns (run: seq<WriteRuns.Event>)
    ensures |run| == 4 && Resumed(100, run) && Lapsed(100, run, 30.0)
    ensures var room := WriteRuns.Replay(100, run).room;
            && PlanDirectionWrite(room, LevelsNow(room, 30.0).0, LevelsNow(room, 30.0).1, Supply, 60) == Separate(60, 20)
            && KeptOrigin(room, 30.0, None, Supply, 60) == Known(20, Airflow(1))
  {
    run := Interrupted(20, LOW, FlowSkipped, ModeValues(LOW));
    Resumes(100, 20, LOW, FlowSkipped, ModeValues(LOW));
    var first := WriteRuns.Replay(100, run).room;
    Lapses(100, run, FlowSkipped);
    run := run + [ReadAt(FlowSkipped, ModeFailed("acknowledge"), 30.0)];
    KeptState(first, WriteRuns.Replay(100, run).room);
  }

  lemma TargetsState(room: RoomState, lapsed: RoomState)
    requires room == AfterAirflowRead(100, FirstKnown(100, 35, ModeRead(MODE_UNBALANCED, 60, 80)),
                                      Answered(FlowValues(35, 35), ModeFailed("acknowledge")), 3, 20.0)
    requires lapsed == AfterAirflowRead(100, room, Answered(REFUSED, ModeFailed("acknowledge")), 4, 30.0)
    requires !GroupFresh(lapsed, FlowControl, 30.0) && !GroupFresh(lapsed, Flow, 30.0)
    ensures ModeWriteLevels(lapsed, LevelsNow(lapsed, 30.0).0) == LevelPair(Some(30), Some(40))
    ensures ModeOrigins(lapsed, ReportedOrigins(lapsed, 30.0)) == Fans(Known(30, Map(1)), Known(40, Map(1)))
  {
  }

  /** A unit whose status map is refused counts as reported by its airflow alone. When that fails too, an
      unbalanced command takes both targets from the map of read 1. */
  lemma OldTargetsPlanned() returns (run: seq<WriteRuns.Event>)
    ensures |run| == 4 && Resumed(100, run) && Lapsed(100, run, 30.0)
    ensures var room := WriteRuns.Replay(100, run).room;
            && ModeWriteLevels(room, LevelsNow(room, 30.0).0) == LevelPair(Some(30), Some(40))
            && ModeOrigins(room, ReportedOrigins(room, 30.0)) == Fans(Known(30, Map(1)), Known(40, Map(1)))
  {
    var block := ModeRead(MODE_UNBALANCED, 60, 80);
    run := Interrupted(35, block, FlowValues(35, 35), ModeFailed("acknowledge"));
    Resumes(100, 35, block, FlowValues(35, 35), ModeFailed("acknowledge"));
    var first := WriteRuns.Replay(100, run).room;
    Lapses(100, run, REFUSED);
    run := run + [ReadAt(REFUSED, ModeFailed("acknowledge"), 30.0)];
    TargetsState(first, WriteRuns.Replay(100, run).room);
  }
}

/** How a read changes what is known of a unit, and how reads and writes stay ordered. */
module RoomReads {
  import opened Wrappers
  import opened Models
  import opened ModeCodec
  import opened Levels
  import opened IssueTotals
  import opened WriteJudgement

  // -------------------------------------------------------------------
  //  One read job
  // -------------------------------------------------------------------

  /** A failure is `silent` if the unit gave no answer, otherwise an exception response. */
  datatype FlowResult = FlowValues(extract: int, supply: int) | FlowFailed(error: string, silent: bool) | FlowSkipped

  datatype ModeResult = ModeValues(block: ModeRead) | ModeFailed(error: string) | ModeSkipped

  /** A read of the airflow groups: it raised, its unit was still in its recovery pause, or the airflow and
      the status map each fared in some way. */
  datatype AirflowRead = Raised(error: string) | Delayed | Answered(flow: FlowResult, mode: ModeResult)

  /** A silent airflow read ends the job: the status map is then not read, and fails with the same error. */
  function MapResult(flow: FlowResult, mode: ModeResult): ModeResult {
    if flow.FlowFailed? && flow.silent && !mode.ModeSkipped? then ModeFailed(flow.error) else mode
  }

  /** The health of a group after read `number`; a skipped group keeps it. */
  function NextHealth(health: ReadHealth, number: nat, at: real, ok: bool, error: Option<string>): ReadHealth {
    if ok then Succeeded(number, at)
    else if error.Some? then Failed(health, number, error.value)
    else health
  }

  function WithModeHealth(state: RoomState, control: ReadHealth, intensive: ReadHealth): RoomState {
    state.WithHealth(FlowControl, control).WithHealth(IntensiveGroup, intensive)
  }

  function WithFlow(state: RoomState, flow: FlowResult, number: nat): RoomState {
    match flow
    case FlowValues(extract, supply) =>
      state.(extractAirFlow := Some(extract), supplyAirFlow := Some(supply), flowRead := number)
    case _ => state
  }

  /** Apply the status map of read `number`, or its absence; behind an override the base mode is not in it. */
  function WithMap(maxAirflow: int, state: RoomState, block: Option<ModeRead>, number: nat): RoomState {
    var decoded := ApplyModeRead(maxAirflow, state, block);
    if block.Some? && decoded.intensiveActive == Some(false) then decoded.(mapRead := number) else decoded
  }

  /** What is known of the unit after read `number` of the airflow groups. */
  function AfterAirflowRead(maxAirflow: int, state: RoomState, read: AirflowRead, number: nat, at: real): RoomState {
    match read
    case Delayed => state
    case Raised(error) =>
      WithModeHealth(state.WithHealth(Flow, Failed(state.HealthFor(Flow), number, error)),
                     Failed(state.HealthFor(FlowControl), number, error),
                     Failed(state.HealthFor(IntensiveGroup), number, error))
    case Answered(flow, status) =>
      var mode := MapResult(flow, status);
      var flows := WithFlow(state, flow, number);
      var decoded := WithMap(maxAirflow, flows, if mode.ModeValues? then Some(mode.block) else None, number);
      var flowError := if flow.FlowFailed? then Some(flow.error) else None;
      var modeError := if mode.ModeFailed? then Some(mode.error) else None;
      WithModeHealth(
        decoded.WithHealth(Flow, NextHealth(state.HealthFor(Flow), number, at, flow.FlowValues?, flowError)),
        NextHealth(state.HealthFor(FlowControl), number, at, mode.ModeValues?, modeError),
        NextHealth(state.HealthFor(IntensiveGroup), number, at, mode.ModeValues?, modeError))
  }

  // -------------------------------------------------------------------
  //  Order of reads and writes
  // -------------------------------------------------------------------

  /** `health` is `baseline` itself, or was recorded by a read after number `number`. */
  predicate SinceBaseline(health: ReadHealth, baseline: ReadHealth, number: nat) {
    health == baseline || health.attempt > number
  }

  /** Every group's health is consistent and older than `next`, and every write's confirming group is
      where the write found it or was read after the write. */
  predicate Ordered(writes: Writes, state: RoomState, next: nat) {
    && (forall g :: state.HealthFor(g).Valid() && state.HealthFor(g).attempt < next)
    && (forall k | k in writes :: writes[k].baseline.attempt < writes[k].number < next
          && SinceBaseline(state.HealthFor(k.ConfirmedBy()), writes[k].baseline, writes[k].number))
  }

  /** While a level write can still be confirmed inside its retention, an exact target readback the
      judging would use was made after the write. */
  predicate Traced(writes: Writes, state: RoomState, wall: real) {
    AirflowLevels in writes && Confirmable(writes[AirflowLevels].status) && Recent(writes[AirflowLevels], wall)
    && state.balancedTargetReadback.Some? && state.HealthFor(FlowControl) != writes[AirflowLevels].baseline
    && state.HealthFor(FlowControl).lastError.None? && state.intensiveActive != Some(true)
    ==> state.readbackRead > writes[AirflowLevels].number
  }

  /** The group of write `c` was read successfully after it, no override hides it, and what it shows matches
      what was written; and if it is a level write of a balanced mode still inside its retention, register
      41121, which it is matched by, was read after it. */
  predicate Backed(state: RoomState, key: WriteKey, c: Confirmation, wall: real) {
    var health := state.HealthFor(if key.ControlSetting? then ControlSettings else FlowControl);
    && health.success > c.number && health.success == health.attempt
    && (key in {AirflowLevels, OperationModeWrite} ==> state.intensiveActive != Some(true))
    && Matched(state, key, c.expected)
    && (key == AirflowLevels && BalancedMode(state) && wall - c.startedAt <= 600.0 ==> state.readbackRead > c.number)
  }

  predicate Matched(state: RoomState, key: WriteKey, expected: WriteValue) {
    ReadbackValue(state, key).Some? && ValuesMatch(expected, ReadbackValue(state, key).value)
  }

  predicate BalancedMode(state: RoomState) {
    state.operationMode == Some(Manual) || state.operationMode == Some(Off)
  }

  /** Matched levels lie within two m3/h of the exact target, of a balanced mode, or of both targets, of the
      unbalanced one; every other matched value is equal. */
  lemma MatchedMeans(state: RoomState, key: WriteKey, expected: WriteValue)
    ensures Matched(state, key, expected) <==>
      match key
      case AirflowLevels =>
        && expected.LevelsValue?
        && (|| (state.operationMode in {Some(Manual), Some(Off)} && state.balancedTargetReadback.Some?
                && -2 <= state.balancedTargetReadback.value - expected.supply <= 2
                && -2 <= state.balancedTargetReadback.value - expected.extract <= 2)
            || (state.operationMode == Some(Unbalanced) && state.targetLevel.Some? && state.extractTargetLevel.Some?
                && -2 <= state.targetLevel.value - expected.supply <= 2
                && -2 <= state.extractTargetLevel.value - expected.extract <= 2))
      case OperationModeWrite => expected.ModeValue? && state.operationMode == Some(expected.mode)
      case PresetModeWrite => expected.PresetValue? && state.presetMode == Some(expected.preset)
      case IntensiveWrite => expected.FlagValue? && state.intensiveActive == Some(expected.flag)
      case ControlSetting(setting) =>
        expected.SettingValue? && setting in state.controlSettings && state.controlSettings[setting] == expected.value
  {
  }

  lemma BackedAlike(state: RoomState, key: WriteKey, c: Confirmation, d: Confirmation, wall: real)
    requires Backed(state, key, c, wall)
    requires c.number == d.number && c.expected == d.expected && c.startedAt == d.startedAt
    ensures Backed(state, key, d, wall)
  {
  }

  /** A write is confirmed only when later reads back it. */
  lemma ConfirmedByLaterRead(writes: Writes, state: RoomState, next: nat, wall: real, key: WriteKey)
    requires Ordered(writes, state, next) && Traced(writes, state, wall) && key in writes
    requires writes[key].status != Confirmed
    requires Checked(state, key, writes[key]).Some? && Checked(state, key, writes[key]).value.status == Confirmed
    ensures Backed(state, key, writes[key], wall)
  {
    ConfirmedExactly(state, key, writes[key]);
  }

  // -------------------------------------------------------------------
  //  What keeps the order
  // -------------------------------------------------------------------

  lemma DecodeKeepsHealth(maxAirflow: int, state: RoomState, block: Option<ModeRead>, number: nat)
    ensures WithMap(maxAirflow, state, block, number).health == state.health
  {
  }

  lemma NextHealthValid(health: ReadHealth, number: nat, at: real, ok: bool, error: Option<string>)
    requires health.Valid() && health.attempt < number
    ensures var h := NextHealth(health, number, at, ok, error);
            h.Valid() && (h == health || h.attempt == number)
  {
  }

  /** The health of each group after an answered read. */
  lemma AnsweredHealth(maxAirflow: int, state: RoomState, flow: FlowResult, status: ModeResult, number: nat, at: real)
    ensures var s := AfterAirflowRead(maxAirflow, state, Answered(flow, status), number, at);
            var mode := MapResult(flow, status);
            var flowError := if flow.FlowFailed? then Some(flow.error) else None;
            var modeError := if mode.ModeFailed? then Some(mode.error) else None;
            && s.HealthFor(Flow) == NextHealth(state.HealthFor(Flow), number, at, flow.FlowValues?, flowError)
            && s.HealthFor(FlowControl) == NextHealth(state.HealthFor(FlowControl), number, at, mode.ModeValues?, modeError)
            && s.HealthFor(IntensiveGroup) == NextHealth(state.HealthFor(IntensiveGroup), number, at, mode.ModeValues?, modeError)
            && s.HealthFor(ControlSettings) == state.HealthFor(ControlSettings)
  {
    var flows, mode := WithFlow(state, flow, number), MapResult(flow, status);
    DecodeKeepsHealth(maxAirflow, flows, if mode.ModeValues? then Some(mode.block) else None, number);
  }

  /** The health of each group after a read that raised. */
  lemma RaisedHealth(maxAirflow: int, state: RoomState, error: string, number: nat, at: real)
    ensures var s := AfterAirflowRead(maxAirflow, state, Raised(error), number, at);
            && s.HealthFor(Flow) == Failed(state.HealthFor(Flow), number, error)
            && s.HealthFor(FlowControl) == Failed(state.HealthFor(FlowControl), number, error)
            && s.HealthFor(IntensiveGroup) == Failed(state.HealthFor(IntensiveGroup), number, error)
            && s.HealthFor(ControlSettings) == state.HealthFor(ControlSettings)
  {
    var s := AfterAirflowRead(maxAirflow, state, Raised(error), number, at);
    assert s.health == state.health[Flow := Failed(state.HealthFor(Flow), number, error)]
                                   [FlowControl := Failed(state.HealthFor(FlowControl), number, error)]
                                   [IntensiveGroup := Failed(state.HealthFor(IntensiveGroup), number, error)];
    assert ControlSettings in s.health <==> ControlSettings in state.health;
  }

  /** One group's health after a read of it: a success starts it afresh, a failure keeps the last success and
      counts up to three failures, anything else leaves it. */
  lemma NextHealthExactly(health: ReadHealth, number: nat, at: real, ok: bool, error: Option<string>)
    ensures NextHealth(health, number, at, ok, error)
         == if ok then ReadHealth(number, number, at, 0, None)
            else match error
                 case Some(e) => ReadHealth(number, health.success, health.successAt,
                                            if health.consecutiveFailures >= 2 then 3 else health.consecutiveFailures + 1, Some(e))
                 case None => health
  {
  }

  /** What an answered read brings: its airflow if it has one; its status map, or the map's absence; and the
      health of both groups. A silent unit's map is not asked for and fails too, unless it was skipped anyway. */
  lemma AnsweredExactly(maxAirflow: int, state: RoomState, flow: FlowResult, status: ModeResult, number: nat, at: real)
    ensures var s := AfterAirflowRead(maxAirflow, state, Answered(flow, status), number, at);
            var unread := flow.FlowFailed? && flow.silent;
            var flows := if flow.FlowValues? then state.(extractAirFlow := Some(flow.extract), supplyAirFlow := Some(flow.supply),
                                                         flowRead := number) else state;
            var block := if status.ModeValues? && !unread then Some(status.block) else None;
            var decoded := ApplyModeRead(maxAirflow, flows, block);
            var flowError := if flow.FlowFailed? then Some(flow.error) else None;
            var modeError := if status.ModeSkipped? then None else if unread then Some(flow.error)
                             else if status.ModeFailed? then Some(status.error) else None;
            && s == decoded.(health := s.health,
                             mapRead := if block.Some? && decoded.intensiveActive == Some(false) then number else state.mapRead)
            && s.HealthFor(Flow) == NextHealth(state.HealthFor(Flow), number, at, flow.FlowValues?, flowError)
            && s.HealthFor(FlowControl) == NextHealth(state.HealthFor(FlowControl), number, at, block.Some?, modeError)
            && s.HealthFor(IntensiveGroup) == NextHealth(state.HealthFor(IntensiveGroup), number, at, block.Some?, modeError)
            && s.HealthFor(ControlSettings) == state.HealthFor(ControlSettings)
  {
    AnsweredHealth(maxAirflow, state, flow, status, number, at);
    MapReadKept(maxAirflow, WithFlow(state, flow, number));
  }

  lemma MapReadKept(maxAirflow: int, state: RoomState)
    ensures forall block :: ApplyModeRead(maxAirflow, state, block).mapRead == state.mapRead
  {
  }

  /** A read that raised fails every group and brings nothing; one that was put off changes nothing. */
  lemma RaisedExactly(maxAirflow: int, state: RoomState, error: string, number: nat, at: real)
    ensures AfterAirflowRead(maxAirflow, state, Delayed, number, at) == state
    ensures var s := AfterAirflowRead(maxAirflow, state, Raised(error), number, at);
            && s == state.(health := s.health) && s.HealthFor(ControlSettings) == state.HealthFor(ControlSettings)
            && (forall g | g in {Flow, FlowControl, IntensiveGroup} ::
                  s.HealthFor(g) == NextHealth(state.HealthFor(g), number, at, false, Some(error)))
  {
    RaisedHealth(maxAirflow, state, error, number, at);
  }

  lemma FailedValid(health: ReadHealth, number: nat, error: string)
    requires health.Valid() && health.attempt < number
    ensures Failed(health, number, error).Valid() && Failed(health, number, error).attempt == number
  {
  }

  lemma HealthAfterRead(maxAirflow: int, state: RoomState, read: AirflowRead, number: nat, at: real, g: Group)
    requires forall g :: state.HealthFor(g).Valid() && state.HealthFor(g).attempt < number
    ensures var h := AfterAirflowRead(maxAirflow, state, read, number, at).HealthFor(g);
            h.Valid() && (h == state.HealthFor(g) || h.attempt == number)
  {
    match read
    case Answered(flow, status) =>
      AnsweredHealth(maxAirflow, state, flow, status, number, at);
      var mode := MapResult(flow, status);
      var flowError := if flow.FlowFailed? then Some(flow.error) else None;
      var modeError := if mode.ModeFailed? then Some(mode.error) else None;
      match g {
        case Flow => NextHealthValid(state.HealthFor(g), number, at, flow.FlowValues?, flowError);
        case FlowControl => NextHealthValid(state.HealthFor(g), number, at, mode.ModeValues?, modeError);
        case IntensiveGroup => NextHealthValid(state.HealthFor(g), number, at, mode.ModeValues?, modeError);
        case ControlSettings => assert AfterAirflowRead(maxAirflow, state, read, number, at).HealthFor(g) == state.HealthFor(g);
      }
    case Raised(error) =>
      RaisedHealth(maxAirflow, state, error, number, at);
      FailedValid(state.HealthFor(g), number, error);
    case Delayed =>
  }

  lemma ReadKeepsOrder(maxAirflow: int, writes: Writes, state: RoomState, next: nat, read: AirflowRead, at: real)
    requires Ordered(writes, state, next)
    ensures Ordered(writes, AfterAirflowRead(maxAirflow, state, read, next, at), next + 1)
  {
    forall g
      ensures var h := AfterAirflowRead(maxAirflow, state, read, next, at).HealthFor(g);
              h.Valid() && (h == state.HealthFor(g) || h.attempt == next)
    {
      HealthAfterRead(maxAirflow, state, read, next, at, g);
    }
  }

  /** A status map read, or its absence, resets the exact target unless it shows an override. */
  lemma DecodeResets(maxAirflow: int, state: RoomState, block: Option<ModeRead>, number: nat)
    ensures var s := WithMap(maxAirflow, state, block, number);
            s.balancedTargetReadback.Some? ==> s.intensiveActive == Some(true)
  {
  }

  /** After a read of the airflow groups no stale readback can be judged: it was reset, hidden or unread. */
  lemma ReadKeepsTrace(maxAirflow: int, writes: Writes, state: RoomState, next: nat, read: AirflowRead, at: real, wall: real)
    requires Ordered(writes, state, next) && Traced(writes, state, wall)
    ensures Traced(writes, AfterAirflowRead(maxAirflow, state, read, next, at), wall)
  {
    match read
    case Answered(flow, status) =>
      var mode := MapResult(flow, status);
      DecodeResets(maxAirflow, WithFlow(state, flow, next), if mode.ModeValues? then Some(mode.block) else None, next);
    case _ =>
  }

  lemma RecordKeepsOrder(writes: Writes, state: RoomState, next: nat, key: WriteKey, c: Confirmation)
    requires Ordered(writes, state, next) && c.number == next && c.baseline == state.HealthFor(key.ConfirmedBy())
    ensures Ordered(writes[key := c], state, next + 1)
  {
  }

  lemma RecordKeepsTrace(writes: Writes, state: RoomState, key: WriteKey, c: Confirmation, wall: real)
    requires Traced(writes, state, wall) && c.baseline == state.HealthFor(key.ConfirmedBy())
    ensures Traced(writes[key := c], state, wall)
  {
  }

  /** Outcomes may change as long as each write stays the same write and none is reopened. */
  predicate SameWrites(before: Writes, after: Writes) {
    && before.Keys == after.Keys
    && forall k | k in before ::
         && after[k].number == before[k].number && after[k].baseline == before[k].baseline
         && after[k].startedAt == before[k].startedAt && after[k].expected == before[k].expected
         && (Confirmable(after[k].status) ==> Confirmable(before[k].status))
  }

  lemma SameWritesKeepOrder(before: Writes, after: Writes, state: RoomState, next: nat, wall: real, later: real)
    requires Ordered(before, state, next) && Traced(before, state, wall) && SameWrites(before, after) && wall <= later
    ensures Ordered(after, state, next) && Traced(after, state, later)
  {
  }

  lemma JudgedSameWrites(before: Writes, after: Writes, issues: seq<Issue>, state: RoomState, wall: real)
    requires JudgedAll(before, after, issues, state, wall, {})
    ensures SameWrites(before, after)
    ensures forall k | k in before && Final(before[k].status) :: after[k].status == before[k].status
  {
    forall k | k in before
      ensures after[k] == Judged(state, k, before[k], wall).0
    {
      assert JudgedOne(before[k], after[k], issues, k, state, wall);
      JudgedKeepsWrite(state, k, before[k], wall);
    }
    forall k | k in before
      ensures after[k].number == before[k].number && after[k].baseline == before[k].baseline
      ensures after[k].startedAt == before[k].startedAt && after[k].expected == before[k].expected
      ensures Confirmable(after[k].status) ==> Confirmable(before[k].status)
      ensures Final(before[k].status) ==> after[k].status == before[k].status
    {
      JudgedKeepsWrite(state, k, before[k], wall);
    }
  }

  lemma SupersededSameWrites(before: Writes, after: Writes, key: WriteKey, superseded: set<WriteKey>)
    requires SupersededAll(before, after, key, {}, superseded)
    ensures SameWrites(before, after)
  {
  }

  // -------------------------------------------------------------------
  //  After an interrupted flow write
  // -------------------------------------------------------------------

  /** The group the unit's levels come from was read after the baselines. */
  predicate LevelsReportedSince(state: RoomState, control: ReadHealth, flow: ReadHealth, now: real) {
    || ReadSince(state, FlowControl, control, now)
    || (!GroupFresh(state, FlowControl, now) && ReadSince(state, Flow, flow, now))
  }

  /** When levels count as reported again, the status map they come from, or the airflow if there is no
      fresh map, was read after the interruption. */
  lemma ReportedAfterInterruption(state: RoomState, control: ReadHealth, flow: ReadHealth, number: nat, now: real)
    requires SinceBaseline(state.HealthFor(FlowControl), control, number)
    requires SinceBaseline(state.HealthFor(Flow), flow, number)
    requires LevelsReportedSince(state, control, flow, now)
    ensures if GroupFresh(state, FlowControl, now) then state.HealthFor(FlowControl).success > number
            else GroupFresh(state, Flow, now) && state.HealthFor(Flow).success > number
  {
  }

  /** Where the levels of a unit can come from. A target level is in unbalanced mode only from the status map,
      in sensor control or an unknown mode only from airflow; one from airflow is from no later than the last
      airflow read, and unless an override hides the base mode it is the balanced level of that read. A target
      for the extract fan alone is only known in unbalanced mode. */
  predicate TargetConsistent(state: RoomState) {
    TargetFits(state) && AirflowKept(state) && MapKept(state)
  }

  predicate TargetFits(state: RoomState) {
    && (state.targetFrom.Some? ==> state.operationMode != Some(Unbalanced) && state.targetFrom.value <= state.flowRead)
    && (state.operationMode.None? || IsSensorMode(state.operationMode.value) ==>
          state.targetLevel.Some? ==> state.targetFrom.Some?)
    && (state.targetLevel.Some? && state.targetFrom.Some? ==> state.targetFrom.value > 0)
    && (state.intensiveActive != Some(true) && state.targetFrom.Some? ==>
          state.targetFrom.value == state.flowRead
          && state.targetLevel == DeriveBalanced(state.extractAirFlow, state.supplyAirFlow))
    && (state.operationMode != Some(Unbalanced) ==> state.extractTargetLevel.None?)
  }

  predicate AirflowKept(state: RoomState) {
    && state.HealthFor(Flow).success == state.flowRead
    && (state.extractAirFlow.Some? <==> state.flowRead > 0) && (state.supplyAirFlow.Some? <==> state.flowRead > 0)
  }

  /** Unless an override hides it, the base mode is from the last successful read of the status map. */
  predicate MapKept(state: RoomState) {
    && state.mapRead <= state.HealthFor(FlowControl).success
    && (state.intensiveActive != Some(true) ==> state.mapRead == state.HealthFor(FlowControl).success)
  }

  /** What a decoded status map, or its absence, leaves of the targets. */
  lemma DecodeKeepsTarget(maxAirflow: int, state: RoomState, block: Option<ModeRead>, number: nat)
    requires state.targetFrom.Some? ==> state.operationMode != Some(Unbalanced) && state.targetFrom.value <= state.flowRead
    requires state.operationMode.None? || IsSensorMode(state.operationMode.value) ==>
               state.targetLevel.Some? ==> state.targetFrom.Some?
    requires state.targetLevel.Some? && state.targetFrom.Some? ==> state.targetFrom.value > 0
    requires state.operationMode != Some(Unbalanced) ==> state.extractTargetLevel.None?
    requires (state.extractAirFlow.Some? <==> state.flowRead > 0) && (state.supplyAirFlow.Some? <==> state.flowRead > 0)
    ensures var s := WithMap(maxAirflow, state, block, number);
            && TargetFits(s) && s.flowRead == state.flowRead && s.health == state.health
            && s.extractAirFlow == state.extractAirFlow && s.supplyAirFlow == state.supplyAirFlow
            && (if block.None? then s.mapRead == state.mapRead && s.intensiveActive == state.intensiveActive
                else if s.intensiveActive == Some(true) then s.mapRead == state.mapRead
                else s.mapRead == number)
  {
  }

  lemma ReadKeepsTarget(maxAirflow: int, state: RoomState, read: AirflowRead, number: nat, at: real)
    requires TargetConsistent(state) && state.flowRead < number && state.mapRead < number
    ensures TargetConsistent(AfterAirflowRead(maxAirflow, state, read, number, at))
  {
    match read
    case Answered(flow, status) => AnswerKeepsTarget(maxAirflow, state, flow, status, number, at);
    case Raised(error) => RaisedHealth(maxAirflow, state, error, number, at);
    case Delayed =>
  }

  lemma AnswerKeepsTarget(maxAirflow: int, state: RoomState, flow: FlowResult, status: ModeResult, number: nat, at: real)
    requires TargetConsistent(state) && state.flowRead < number && state.mapRead < number
    ensures TargetConsistent(AfterAirflowRead(maxAirflow, state, Answered(flow, status), number, at))
  {
    var flows, mode := WithFlow(state, flow, number), MapResult(flow, status);
    DecodeKeepsTarget(maxAirflow, flows, if mode.ModeValues? then Some(mode.block) else None, number);
    AnsweredHealth(maxAirflow, state, flow, status, number, at);
    var s := AfterAirflowRead(maxAirflow, state, Answered(flow, status), number, at);
    var decoded := WithMap(maxAirflow, flows, if mode.ModeValues? then Some(mode.block) else None, number);
    assert s == decoded.(health := s.health);
    SameFits(decoded, s);
    assert AirflowKept(s);
    assert MapKept(s);
  }

  lemma SameFits(a: RoomState, b: RoomState)
    requires b == a.(health := b.health) && TargetFits(a)
    ensures TargetFits(b)
  {
  }

  // -------------------------------------------------------------------
  //  What always holds between writes and reads
  // -------------------------------------------------------------------

  predicate Sound(writes: Writes, state: RoomState, next: nat, wall: real) {
    OneBaseOpen(writes) && Ordered(writes, state, next) && Traced(writes, state, wall) && TargetConsistent(state)
  }

  lemma SoundLater(writes: Writes, state: RoomState, next: nat, wall: real, later: real)
    requires Sound(writes, state, next, wall) && wall <= later
    ensures Sound(writes, state, next, later)
  {
  }

  lemma SoundRead(maxAirflow: int, writes: Writes, state: RoomState, next: nat, wall: real, read: AirflowRead, at: real)
    requires Sound(writes, state, next, wall)
    ensures Sound(writes, AfterAirflowRead(maxAirflow, state, read, next, at), next + 1, wall)
  {
    ReadKeepsOrder(maxAirflow, writes, state, next, read, at);
    ReadKeepsTrace(maxAirflow, writes, state, next, read, at, wall);
    assert state.HealthFor(Flow).Valid() && state.HealthFor(FlowControl).Valid();
    ReadKeepsTarget(maxAirflow, state, read, next, at);
  }

  function WithReadback(state: RoomState, readback: Option<int>, number: nat): RoomState {
    state.(balancedTargetReadback := readback, readbackRead := number)
  }

  lemma SoundReadback(writes: Writes, state: RoomState, next: nat, wall: real, level: int)
    requires Sound(writes, state, next, wall)
    ensures Sound(writes, WithReadback(state, Some(level), next), next + 1, wall)
  {
    assert forall g :: WithReadback(state, Some(level), next).HealthFor(g) == state.HealthFor(g);
  }

  /** Without a write that it could still confirm, any readback may be carried over. */
  lemma SoundCarried(writes: Writes, state: RoomState, next: nat, wall: real, readback: Option<int>, number: nat)
    requires Sound(writes, state, next, wall)
    requires !(AirflowLevels in writes && Confirmable(writes[AirflowLevels].status) && Recent(writes[AirflowLevels], wall))
    ensures Sound(writes, WithReadback(state, readback, number), next, wall)
  {
    assert forall g :: WithReadback(state, readback, number).HealthFor(g) == state.HealthFor(g);
  }

  lemma SoundRecorded(writes: Writes, superseded: Writes, keys: set<WriteKey>, state: RoomState, next: nat, wall: real,
                      key: WriteKey, c: Confirmation)
    requires Sound(writes, state, next, wall) && SupersededAll(writes, superseded, key, {}, keys)
    requires c.number == next && c.baseline == state.HealthFor(key.ConfirmedBy())
    ensures Sound(superseded[key := c], state, next + 1, wall)
  {
    SupersededSameWrites(writes, superseded, key, keys);
    SameWritesKeepOrder(writes, superseded, state, next, wall, wall);
    RecordKeepsOneOpen(writes, superseded, key, keys, c);
    RecordKeepsOrder(superseded, state, next, key, c);
    RecordKeepsTrace(superseded, state, key, c, wall);
  }

  lemma SoundReplaced(writes: Writes, state: RoomState, next: nat, wall: real, key: WriteKey, c: Confirmation)
    requires Sound(writes, state, next, wall)
    requires c.number == next && c.baseline == state.HealthFor(key.ConfirmedBy())
    ensures Sound(WithRecorded(writes, key, c), state, next + 1, wall)
  {
    var superseded := map k | k in writes :: if k in Replaced(writes, key) then writes[k].(status := Superseded) else writes[k];
    SoundRecorded(writes, superseded, Replaced(writes, key), state, next, wall, key, c);
  }

  lemma SoundFinished(writes: Writes, state: RoomState, next: nat, wall: real, key: WriteKey, c: Confirmation)
    requires Sound(writes, state, next, wall) && Final(c.status)
    requires c.number == next && c.baseline == state.HealthFor(key.ConfirmedBy())
    ensures Sound(writes[key := c], state, next + 1, wall)
  {
    FinalKeepsOneOpen(writes, key, c);
    RecordKeepsOrder(writes, state, next, key, c);
    RecordKeepsTrace(writes, state, key, c, wall);
  }

  lemma SoundJudged(before: Writes, after: Writes, issues: seq<Issue>, state: RoomState, next: nat, wall: real)
    requires Sound(before, state, next, wall) && OneBaseOpen(after)
    requires JudgedAll(before, after, issues, state, wall, {})
    ensures Sound(after, state, next, wall)
  {
    JudgedSameWrites(before, after, issues, state, wall);
    SameWritesKeepOrder(before, after, state, next, wall, wall);
  }

  /** Marking a write unconfirmed keeps everything. */
  lemma SoundUnconfirmed(writes: Writes, state: RoomState, next: nat, wall: real, key: WriteKey, c: Confirmation)
    requires Sound(writes, state, next, wall) && key in writes && writes[key].status == PendingReadback
    requires c.status == Unconfirmed && c.number == writes[key].number && c.baseline == writes[key].baseline
    requires c.startedAt == writes[key].startedAt && c.expected == writes[key].expected
    ensures Sound(writes[key := c], state, next, wall)
  {
    SameWritesKeepOrder(writes, writes[key := c], state, next, wall, wall);
  }

  /** The status map or control settings of a later read. */
  lemma SoundOtherRead(writes: Writes, state: RoomState, next: nat, wall: real, read: RoomState, h: ReadHealth)
    requires Sound(writes, state, next, wall) && h.Valid() && h.attempt == next
    requires read == state.(controlSettings := read.controlSettings).WithHealth(ControlSettings, h)
    ensures Sound(writes, read, next + 1, wall)
  {
    assert forall g | g != ControlSettings :: read.HealthFor(g) == state.HealthFor(g);
  }
}

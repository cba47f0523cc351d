/** How fresh the values of a unit are, and the airflow levels they stand for. */
module Levels {
  import opened Wrappers
  import opened Models
  import opened ModeCodec

  const AIRFLOW_STALE_AFTER_SECONDS: real := 30.0
  const LEVEL_CONFIRM_TOLERANCE: int := 2
  const BALANCED_LEVEL_TOLERANCE: int := 1

  // -------------------------------------------------------------------
  //  Freshness
  // -------------------------------------------------------------------

  /** A group goes stale after three of its intervals. */
  function StaleAfter(group: Group): real {
    match group
    case Flow => AIRFLOW_STALE_AFTER_SECONDS
    case FlowControl => 30.0
    case IntensiveGroup => 30.0
    case ControlSettings => 10800.0
  }

  /** The group's most recent read succeeded, and recently. */
  predicate GroupFresh(state: RoomState, group: Group, now: real) {
    var health := state.HealthFor(group);
    && health.success != 0 && health.success == health.attempt
    && health.consecutiveFailures == 0 && health.lastError.None?
    && now - health.successAt <= StaleAfter(group)
  }

  /** A group is fresh exactly while its last read is a success at most half a minute ago, or three hours for the
      control settings. */
  lemma FreshMeans(state: RoomState, group: Group, now: real)
    requires state.HealthFor(group).Valid()
    ensures var health := state.HealthFor(group);
            GroupFresh(state, group, now) <==>
              && health.attempt > 0 && health.success == health.attempt && health.lastError.None?
              && now - health.successAt <= (if group == ControlSettings then 10800.0 else 30.0)
  {
  }

  /** The group has a fresh successful read made after `baseline`. */
  predicate ReadSince(state: RoomState, group: Group, baseline: ReadHealth, now: real) {
    GroupFresh(state, group, now) && state.HealthFor(group) != baseline
  }

  // -------------------------------------------------------------------
  //  Levels
  // -------------------------------------------------------------------

  /** Supply and extract airflow, each possibly unknown. */
  datatype LevelPair = LevelPair(supply: Option<int>, extract: Option<int>)

  datatype LevelSource = Pending | Target | Measured

  const UNKNOWN_LEVELS := LevelPair(None, None)

  predicate Near(actual: Option<int>, target: int) {
    actual.Some? && Abs(actual.value - target) <= LEVEL_CONFIRM_TOLERANCE
  }

  /** Both directions reached their target. */
  predicate LevelsReached(confirmed: LevelPair, supply: int, extract: int) {
    Near(confirmed.supply, supply) && Near(confirmed.extract, extract)
  }

  predicate LevelsBalanced(level: int, other: int) {
    level == other || (level > 0 && other > 0 && Abs(level - other) <= BALANCED_LEVEL_TOLERANCE)
  }

  predicate PresetActive(state: RoomState) {
    state.presetMode.Some? && PresetCode(state.presetMode.value).Some?
  }

  function TargetLevels(state: RoomState, airflowFresh: bool): LevelPair {
    if state.operationMode == Some(Off) then LevelPair(Some(0), Some(0))
    else if state.operationMode == Some(Unbalanced) then
      if !airflowFresh then LevelPair(state.targetLevel, state.extractTargetLevel)
      else LevelPair(OrElse(state.targetLevel, state.supplyAirFlow), OrElse(state.extractTargetLevel, state.extractAirFlow))
    else if state.operationMode.Some? && IsSensorMode(state.operationMode.value) then
      if airflowFresh then LevelPair(state.supplyAirFlow, state.extractAirFlow) else UNKNOWN_LEVELS
    else
      var target := if PresetActive(state) && !airflowFresh then None else state.targetLevel;
      var common := OrElse(state.balancedTargetReadback, target);
      if common.Some? then LevelPair(common, common)
      else if airflowFresh then
        LevelPair(OrElse(state.supplyAirFlow, state.extractAirFlow), OrElse(state.extractAirFlow, state.supplyAirFlow))
      else UNKNOWN_LEVELS
  }

  /** What the unit reports, if anything, and whether it is a target or a measurement. */
  function ReportedLevels(state: RoomState, now: real): Option<(LevelPair, LevelSource)> {
    var airflowFresh := GroupFresh(state, Flow, now);
    var measuredOnly := !GroupFresh(state, FlowControl, now) || state.operationMode.None?;
    var levels := if measuredOnly then
                    (if airflowFresh then LevelPair(state.supplyAirFlow, state.extractAirFlow) else UNKNOWN_LEVELS)
                  else TargetLevels(state, airflowFresh);
    if levels == UNKNOWN_LEVELS then None
    else Some((levels, if !measuredOnly && levels == TargetLevels(state, false) then Target else Measured))
  }

  /** The reported levels and their source, or no levels. */
  function LevelsNow(state: RoomState, now: real): (LevelPair, Option<LevelSource>) {
    match ReportedLevels(state, now)
    case Some((pair, source)) => (pair, Some(source))
    case None => (UNKNOWN_LEVELS, None)
  }

  /** What a unit is taken to report, by its mode. Without a fresh
      map or a known mode it is the fresh airflow. Two fans are at their own targets or, if those are unknown, at
      fresh airflow in unbalanced mode; at fresh airflow in sensor control; and otherwise at one target, the
      exact one first, which an active quick mode hides while the airflow is not fresh, or else at fresh airflow. */
  lemma LevelsExactly(state: RoomState, now: real)
    ensures var (levels, source) := LevelsNow(state, now);
            var recent := GroupFresh(state, Flow, now);
            var measured := LevelPair(if recent then state.supplyAirFlow else None, if recent then state.extractAirFlow else None);
            var quick := state.presetMode in {Some(Low), Some(Medium), Some(High), Some(Intensive)};
            && (source.None? <==> levels.supply.None? && levels.extract.None?)
            && (if !GroupFresh(state, FlowControl, now) then levels == measured && source in {None, Some(Measured)}
                else
                  match state.operationMode
                  case None => levels == measured && source in {None, Some(Measured)}
                  case Some(Off) => levels == LevelPair(Some(0), Some(0)) && source == Some(Target)
                  case Some(Unbalanced) =>
                    && levels.supply == (if state.targetLevel.Some? then state.targetLevel else measured.supply)
                    && levels.extract == (if state.extractTargetLevel.Some? then state.extractTargetLevel else measured.extract)
                    && (source == Some(Target) <==>
                          source.Some? && levels.supply == state.targetLevel && levels.extract == state.extractTargetLevel)
                  case Some(Manual) =>
                    var shown := state.targetLevel.Some? && (quick ==> recent);
                    && (state.balancedTargetReadback.Some? ==> levels.supply == levels.extract == state.balancedTargetReadback)
                    && (state.balancedTargetReadback.None? && shown ==> levels.supply == levels.extract == state.targetLevel)
                    && (state.balancedTargetReadback.None? && !shown ==>
                          && levels.supply == (if measured.supply.Some? then measured.supply else measured.extract)
                          && levels.extract == (if measured.extract.Some? then measured.extract else measured.supply))
                    && (source == Some(Target) <==>
                          state.balancedTargetReadback.Some? || (state.targetLevel.Some? && !quick))
                  case _ => levels == measured && source in {None, Some(Measured)})
  {
  }

  /** Balanced and extract airflow for an operating-mode write. */
  function ModeWriteLevels(state: RoomState, effective: LevelPair): LevelPair {
    var balanced := OrElse(effective.supply, OrElse(state.targetLevel, OrElse(state.supplyAirFlow, state.extractAirFlow)));
    LevelPair(balanced,
              OrElse(effective.extract, OrElse(state.extractTargetLevel, OrElse(state.extractAirFlow, balanced))))
  }

  /** A mode command has a balanced level exactly when one is known, and then an extract level too; each is the
      effective one, else the target, else what was measured, and the extract level last of all the balanced one. */
  lemma ModeWriteExactly(state: RoomState, effective: LevelPair)
    ensures var planned := ModeWriteLevels(state, effective);
            && (planned.supply.None? <==> effective.supply.None? && state.targetLevel.None?
                                          && state.supplyAirFlow.None? && state.extractAirFlow.None?)
            && (planned.supply.Some? ==> planned.extract.Some?)
            && (effective.supply.Some? ==> planned.supply == effective.supply)
            && (effective.supply.None? && state.targetLevel.Some? ==> planned.supply == state.targetLevel)
            && (effective.supply.None? && state.targetLevel.None? && state.supplyAirFlow.Some? ==>
                  planned.supply == state.supplyAirFlow)
            && (effective.supply.None? && state.targetLevel.None? && state.supplyAirFlow.None? ==>
                  planned.supply == state.extractAirFlow)
            && (effective.extract.Some? ==> planned.extract == effective.extract)
            && (effective.extract.None? && state.extractTargetLevel.Some? ==> planned.extract == state.extractTargetLevel)
            && (effective.extract.None? && state.extractTargetLevel.None? ==>
                  planned.extract == (if state.extractAirFlow.Some? then state.extractAirFlow else planned.supply))
  {
  }

  // -------------------------------------------------------------------
  //  Directional commands
  // -------------------------------------------------------------------

  datatype Direction = Supply | Extract

  /** A directional command as the register write it becomes, or refused. */
  datatype DirectionPlan = Balanced(level: int) | Separate(supply: int, extract: int) | Refused

  function PlanDirectionWrite(state: RoomState, levels: LevelPair, source: Option<LevelSource>,
                              direction: Direction, level: int): DirectionPlan {
    var opposite := if direction == Supply then levels.extract else levels.supply;
    match opposite
    case None => if level == 0 then Refused else Balanced(level)
    case Some(reported) =>
      var known := levels.supply.Some? && levels.extract.Some?;
      var mode := if source == Some(Pending) && known then
                    Some(if levels.supply.value == 0 && levels.extract.value == 0 then Off
                         else if LevelsBalanced(levels.supply.value, levels.extract.value) then Manual
                         else Unbalanced)
                  else state.operationMode;
      var other := if source == Some(Measured) && known
                      && Abs(levels.supply.value - levels.extract.value) <= LEVEL_CONFIRM_TOLERANCE
                   then Round(levels.supply.value + levels.extract.value, 2) else reported;
      var leavingSensorControl := level > 0 && mode.Some? && IsSensorMode(mode.value);
      if LevelsBalanced(level, other) || mode == Some(Off) || leavingSensorControl then Balanced(level)
      else if direction == Supply then Separate(level, other)
      else Separate(other, level)
  }

  /** The commanded direction always gets its level, and a known opposite fan moves by at most two, unless the
      unit is off or in sensor control, or levels still pending would turn it off. */
  lemma PlanKeepsOpposite(state: RoomState, levels: LevelPair, source: Option<LevelSource>,
                          direction: Direction, level: int)
    ensures var plan := PlanDirectionWrite(state, levels, source, direction, level);
            var opposite := if direction == Supply then levels.extract else levels.supply;
            match plan
            case Refused => level == 0 && opposite.None?
            case Balanced(l) =>
              && l == level
              && (opposite.Some? && state.operationMode != Some(Off) && source != Some(Pending)
                  && !(state.operationMode.Some? && IsSensorMode(state.operationMode.value))
                  ==> Abs(level - opposite.value) <= (if source == Some(Measured) then 2 else 1))
              && (opposite.Some? && source == Some(Pending) && levels.supply.Some? && levels.extract.Some?
                  && levels != LevelPair(Some(0), Some(0))
                  ==> Abs(level - opposite.value) <= 1)
            case Separate(supply, extract) =>
              && opposite.Some? && (if direction == Supply then supply else extract) == level
              && var other := if direction == Supply then extract else supply;
                 Abs(other - opposite.value) <= (if source == Some(Measured) then 1 else 0)
  {
  }

  /** The whole of a directional command. With the other fan's level unknown it is refused if it would stop its
      own fan, and otherwise sets both. With that level known it sets both when pending levels are zero or,
      without pending levels, the unit is off; when it leaves sensor control; and when the level to keep equals
      its own or differs by one and neither is zero. Otherwise the other fan stays at the level to keep, which is
      the known one, or the mean of measurements at most two apart. */
  lemma PlanExactly(state: RoomState, levels: LevelPair, source: Option<LevelSource>, direction: Direction, level: int)
    ensures var plan := PlanDirectionWrite(state, levels, source, direction, level);
            var own := if direction == Supply then levels.supply else levels.extract;
            var opposite := if direction == Supply then levels.extract else levels.supply;
            if opposite.None? then plan == (if level == 0 then Refused else Balanced(level))
            else
              var pair := source == Some(Pending) && own.Some?;
              var kept := if source == Some(Measured) && own.Some? && -2 <= own.value - opposite.value <= 2
                          then Round(levels.supply.value + levels.extract.value, 2) else opposite.value;
              && (plan == Balanced(level) <==>
                    || (pair && own.value == 0 && opposite.value == 0)
                    || (!pair && state.operationMode == Some(Off))
                    || (!pair && level > 0 && state.operationMode in {Some(HumidityControl), Some(Co2Control), Some(Automatic)})
                    || level == kept
                    || (level > 0 && kept > 0 && -1 <= level - kept <= 1))
              && (plan != Balanced(level) ==> plan == if direction == Supply then Separate(level, kept) else Separate(kept, level))
  {
  }
}

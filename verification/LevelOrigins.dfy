/** Where the levels of a command come from after an interrupted flow write.

    Every level is followed with its origin through the same choices as `Levels` makes. What remains is to say
    when the origin is older than the interruption: of every command, whatever was read since, and however
    long ago the airflow ceased to be unknown.
  */
module LevelOrigins {
  import opened Wrappers
  import opened Models
  import opened ModeCodec
  import opened Levels
  import opened WriteJudgement
  import opened RoomReads

  /** What a level was taken from: the status map or the exact target of one read, the airflow of one read,
      levels written and still pending, or the mean of two levels. */
  datatype Origin = Map(read: nat) | Exact(read: nat) | Airflow(read: nat) | Written | Mean(a: Origin, b: Origin)
  {
    /** Airflow read before `number` is in it. */
    predicate AirflowBefore(number: nat) {
      match this
      case Airflow(read) => read < number
      case Mean(a, b) => a.AirflowBefore(number) || b.AirflowBefore(number)
      case _ => false
    }

    /** A register read before `number` is in it. */
    predicate RegisterBefore(number: nat) {
      match this
      case Map(read) => read < number
      case Exact(read) => read < number
      case Mean(a, b) => a.RegisterBefore(number) || b.RegisterBefore(number)
      case _ => false
    }
  }

  datatype Level = Unknown | Known(level: int, origin: Origin)
  {
    function Value(): Option<int> {
      if Known? then Some(level) else None
    }

    predicate AirflowBefore(number: nat) {
      Known? && origin.AirflowBefore(number)
    }

    predicate RegisterBefore(number: nat) {
      Known? && origin.RegisterBefore(number)
    }
  }

  datatype Fans = Fans(supply: Level, extract: Level)

  const NO_LEVELS := Fans(Unknown, Unknown)

  // -------------------------------------------------------------------
  //  Following the origins
  // -------------------------------------------------------------------

  function From(value: Option<int>, origin: Origin): Level {
    if value.Some? then Known(value.value, origin) else Unknown
  }

  function SupplyAirflow(state: RoomState): Level {
    From(state.supplyAirFlow, Airflow(state.flowRead))
  }

  function ExtractAirflow(state: RoomState): Level {
    From(state.extractAirFlow, Airflow(state.flowRead))
  }

  function Target(state: RoomState): Level {
    From(state.targetLevel, if state.targetFrom.Some? then Airflow(state.targetFrom.value) else Map(state.mapRead))
  }

  function ExtractTarget(state: RoomState): Level {
    From(state.extractTargetLevel, Map(state.mapRead))
  }

  function First(a: Level, b: Level): Level {
    if a.Known? then a else b
  }

  /** As `TargetLevels`. */
  function TargetOrigins(state: RoomState, airflowFresh: bool): Fans {
    if state.operationMode == Some(Off) then Fans(Known(0, Map(state.mapRead)), Known(0, Map(state.mapRead)))
    else if state.operationMode == Some(Unbalanced) then
      if airflowFresh then Fans(First(Target(state), SupplyAirflow(state)), First(ExtractTarget(state), ExtractAirflow(state)))
      else Fans(Target(state), ExtractTarget(state))
    else if state.operationMode.Some? && IsSensorMode(state.operationMode.value) then
      if airflowFresh then Fans(SupplyAirflow(state), ExtractAirflow(state)) else NO_LEVELS
    else
      var target := if PresetActive(state) && !airflowFresh then Unknown else Target(state);
      var common := First(From(state.balancedTargetReadback, Exact(state.readbackRead)), target);
      if common.Known? then Fans(common, common)
      else if airflowFresh then
        Fans(First(SupplyAirflow(state), ExtractAirflow(state)), First(ExtractAirflow(state), SupplyAirflow(state)))
      else NO_LEVELS
  }

  /** The status map counts: it is fresh and its mode is known. */
  predicate MapShown(state: RoomState, now: real) {
    GroupFresh(state, FlowControl, now) && state.operationMode.Some?
  }

  /** As `ReportedLevels`. */
  function ReportedOrigins(state: RoomState, now: real): Fans {
    if MapShown(state, now) then TargetOrigins(state, GroupFresh(state, Flow, now))
    else if GroupFresh(state, Flow, now) then Fans(SupplyAirflow(state), ExtractAirflow(state))
    else NO_LEVELS
  }

  /** The levels to act on: `pending` ones if there are any, else the reported ones. */
  function Effective(state: RoomState, now: real, pending: Option<LevelPair>): Fans {
    match pending
    case Some(pair) => Fans(From(pair.supply, Written), From(pair.extract, Written))
    case None => ReportedOrigins(state, now)
  }

  function EffectiveLevels(state: RoomState, now: real, pending: Option<LevelPair>): (LevelPair, Option<LevelSource>) {
    match pending
    case Some(pair) => (pair, Some(Pending))
    case None => LevelsNow(state, now)
  }

  /** As `ModeWriteLevels`. */
  function ModeOrigins(state: RoomState, effective: Fans): Fans {
    var balanced := First(effective.supply, First(Target(state), First(SupplyAirflow(state), ExtractAirflow(state))));
    Fans(balanced, First(effective.extract, First(ExtractTarget(state), First(ExtractAirflow(state), balanced))))
  }

  function Joined(a: Origin, b: Origin): Origin {
    if a == b then a else Mean(a, b)
  }

  /** A mean is as old as what is in it. */
  lemma JoinedBefore(a: Origin, b: Origin, number: nat)
    ensures Joined(a, b).AirflowBefore(number) <==> a.AirflowBefore(number) || b.AirflowBefore(number)
    ensures Joined(a, b).RegisterBefore(number) <==> a.RegisterBefore(number) || b.RegisterBefore(number)
  {
  }

  /** The mode a directional command starts from. */
  function StartingMode(state: RoomState, levels: LevelPair, source: Option<LevelSource>): Option<OperationMode> {
    if source == Some(Pending) && levels.supply.Some? && levels.extract.Some? then
      Some(if levels.supply.value == 0 && levels.extract.value == 0 then Off
           else if LevelsBalanced(levels.supply.value, levels.extract.value) then Manual
           else Unbalanced)
    else state.operationMode
  }

  /** The level that a directional command compares its own with and leaves the other fan at, if it needs one:
      not when that fan's level is unknown, nor from off, nor out of sensor control. */
  function KeptOrigin(state: RoomState, now: real, pending: Option<LevelPair>, direction: Direction, level: int): Level {
    var effective, acted := Effective(state, now, pending), EffectiveLevels(state, now, pending);
    var mode := StartingMode(state, acted.0, acted.1);
    var own := if direction == Supply then effective.supply else effective.extract;
    var opposite := if direction == Supply then effective.extract else effective.supply;
    if opposite.Unknown? || mode == Some(Off) || (level > 0 && mode.Some? && IsSensorMode(mode.value)) then Unknown
    else if acted.1 == Some(Measured) && own.Known? && Abs(own.level - opposite.level) <= LEVEL_CONFIRM_TOLERANCE then
      Known(Round(own.level + opposite.level, 2), Joined(own.origin, opposite.origin))
    else opposite
  }

  // -------------------------------------------------------------------
  //  The levels are those the commands are planned with
  // -------------------------------------------------------------------

  predicate SameValues(origins: Fans, levels: LevelPair) {
    origins.supply.Value() == levels.supply && origins.extract.Value() == levels.extract
  }

  lemma SameTargets(state: RoomState, airflowFresh: bool)
    ensures SameValues(TargetOrigins(state, airflowFresh), TargetLevels(state, airflowFresh))
  {
  }

  lemma SameEffective(state: RoomState, now: real, pending: Option<LevelPair>)
    ensures SameValues(Effective(state, now, pending), EffectiveLevels(state, now, pending).0)
  {
    SameTargets(state, GroupFresh(state, Flow, now));
  }

  /** The levels with origins are the ones a mode command is planned with. */
  lemma SameModeLevels(state: RoomState, now: real, pending: Option<LevelPair>)
    ensures SameValues(ModeOrigins(state, Effective(state, now, pending)),
                       ModeWriteLevels(state, EffectiveLevels(state, now, pending).0))
  {
    SameEffective(state, now, pending);
  }

  /** The command that keeps `kept`, or just sets its own level. */
  function Keeping(kept: Level, direction: Direction, level: int): DirectionPlan {
    match kept
    case Unknown => Balanced(level)
    case Known(other, _) =>
      if LevelsBalanced(level, other) then Balanced(level)
      else if direction == Supply then Separate(level, other)
      else Separate(other, level)
  }

  /** A directional command is decided by its own level and the one it keeps; it is refused exactly when it
      would stop one fan while the other's level is unknown. */
  lemma SameDirectionPlan(state: RoomState, now: real, pending: Option<LevelPair>, direction: Direction, level: int)
    ensures var acted := EffectiveLevels(state, now, pending);
            var opposite := if direction == Supply then acted.0.extract else acted.0.supply;
            PlanDirectionWrite(state, acted.0, acted.1, direction, level)
            == if opposite.None? && level == 0 then Refused
               else Keeping(KeptOrigin(state, now, pending, direction, level), direction, level)
  {
    SameEffective(state, now, pending);
  }

  // -------------------------------------------------------------------
  //  What an origin means
  // -------------------------------------------------------------------

  /** The same unit with other airflow values from the same read. */
  predicate OtherAirflow(a: RoomState, b: RoomState) {
    && b == a.(extractAirFlow := b.extractAirFlow, supplyAirFlow := b.supplyAirFlow)
    && (a.extractAirFlow.Some? <==> b.extractAirFlow.Some?) && (a.supplyAirFlow.Some? <==> b.supplyAirFlow.Some?)
  }

  /** A level of a mode command whose origin is not the last airflow read would be planned the same whatever
      that read had measured. */
  lemma OtherwiseIndependent(a: RoomState, b: RoomState, now: real, pending: Option<LevelPair>)
    requires OtherAirflow(a, b)
    ensures var x, y := ModeOrigins(a, Effective(a, now, pending)), ModeOrigins(b, Effective(b, now, pending));
            && (x.supply.Known? && x.supply.origin != Airflow(a.flowRead) ==> y.supply == x.supply)
            && (x.extract.Known? && x.extract.origin != Airflow(a.flowRead) ==> y.extract == x.extract)
  {
    assert forall g :: b.HealthFor(g) == a.HealthFor(g);
  }

  /** A level is what its origin says: the airflow of the last read or the target that was derived from it, a
      target of the status map or the zero of its off mode, or the exact target. */
  predicate Measures(state: RoomState, level: Level) {
    level.Known? ==>
      match level.origin
      case Airflow(read) =>
        || (read == state.flowRead && (Some(level.level) == state.supplyAirFlow || Some(level.level) == state.extractAirFlow))
        || (state.targetFrom == Some(read) && state.targetLevel == Some(level.level))
      case Map(read) =>
        && read == state.mapRead
        && (|| (state.operationMode == Some(Off) && level.level == 0)
            || (state.targetFrom == None && state.targetLevel == Some(level.level))
            || state.extractTargetLevel == Some(level.level))
      case Exact(read) => read == state.readbackRead && state.balancedTargetReadback == Some(level.level)
      case _ => true
  }

  lemma ModeLevelsMeasure(state: RoomState, now: real, pending: Option<LevelPair>)
    ensures var effective := Effective(state, now, pending);
            && Measures(state, effective.supply) && Measures(state, effective.extract)
            && Measures(state, ModeOrigins(state, effective).supply) && Measures(state, ModeOrigins(state, effective).extract)
  {
  }

  // -------------------------------------------------------------------
  //  Exactly when a command is planned from something old
  // -------------------------------------------------------------------

  /** The last airflow read is older than `number`. */
  predicate AirflowOlder(state: RoomState, number: nat) {
    0 < state.flowRead < number
  }

  /** There is a target level, and it was derived from airflow read before `number`. */
  predicate DerivedOlder(state: RoomState, number: nat) {
    state.targetLevel.Some? && state.targetFrom.Some? && state.targetFrom.value < number
  }

  /** There is a target level, and it is from a status map read before `number`. */
  predicate TargetOlder(state: RoomState, number: nat) {
    state.targetLevel.Some? && state.targetFrom.None? && state.mapRead < number
  }

  predicate ExactOlder(state: RoomState, number: nat) {
    state.balancedTargetReadback.Some? && state.readbackRead < number
  }

  /** A balanced mode shows its target, which an active preset hides without fresh airflow. */
  predicate TargetShown(state: RoomState, now: real) {
    state.targetLevel.Some? && (PresetActive(state) ==> GroupFresh(state, Flow, now))
  }

  /** The balanced level of a mode command is from old airflow: without a fresh map the airflow while it is fresh,
      then the target; with one, by its mode, what it lacks or what was derived for it. */
  predicate BalancedFromAirflow(state: RoomState, number: nat, now: real) {
    if !MapShown(state, now) || IsSensorMode(state.operationMode.value) then
      if GroupFresh(state, Flow, now) || state.targetLevel.None? then AirflowOlder(state, number)
      else DerivedOlder(state, number)
    else
      match state.operationMode.value
      case Off => false
      case Unbalanced => state.targetLevel.None? && AirflowOlder(state, number)
      case _ =>
        && state.balancedTargetReadback.None?
        && (if state.targetLevel.Some? then DerivedOlder(state, number) else AirflowOlder(state, number))
  }

  /** It is from an old register. */
  predicate BalancedFromRegister(state: RoomState, number: nat, now: real) {
    if !MapShown(state, now) || IsSensorMode(state.operationMode.value) then
      !GroupFresh(state, Flow, now) && TargetOlder(state, number)
    else
      match state.operationMode.value
      case Off => state.mapRead < number
      case Unbalanced => TargetOlder(state, number)
      case _ =>
        if state.balancedTargetReadback.Some? then ExactOlder(state, number) else TargetOlder(state, number)
  }

  /** The extract level of a mode command is from old airflow. */
  predicate ExtractFromAirflow(state: RoomState, number: nat, now: real) {
    if !MapShown(state, now) || IsSensorMode(state.operationMode.value) then
      (GroupFresh(state, Flow, now) || state.extractTargetLevel.None?) && AirflowOlder(state, number)
    else
      match state.operationMode.value
      case Off => false
      case Unbalanced => state.extractTargetLevel.None? && AirflowOlder(state, number)
      case _ =>
        && state.balancedTargetReadback.None?
        && (if TargetShown(state, now) then DerivedOlder(state, number) else AirflowOlder(state, number))
  }

  /** It is from an old register; without airflow, from the one the balanced level is from. */
  predicate ExtractFromRegister(state: RoomState, number: nat, now: real) {
    if !MapShown(state, now) || IsSensorMode(state.operationMode.value) then
      && !GroupFresh(state, Flow, now)
      && (if state.extractTargetLevel.Some? then state.mapRead < number
          else state.flowRead == 0 && TargetOlder(state, number))
    else
      match state.operationMode.value
      case Off => state.mapRead < number
      case Unbalanced =>
        if state.extractTargetLevel.Some? then state.mapRead < number
        else state.flowRead == 0 && TargetOlder(state, number)
      case _ =>
        if state.balancedTargetReadback.Some? then ExactOlder(state, number)
        else TargetOlder(state, number) && (TargetShown(state, now) || state.flowRead == 0)
  }

  /** In unbalanced mode, the commanded fan's level and the kept one are close, so that they are averaged if one
      of them is measured. */
  predicate Close(state: RoomState, direction: Direction) {
    var supply := OrElse(state.targetLevel, state.supplyAirFlow);
    var extract := OrElse(state.extractTargetLevel, state.extractAirFlow);
    supply.Some? && extract.Some? && Abs(supply.value - extract.value) <= LEVEL_CONFIRM_TOLERANCE
  }

  function OwnTarget(state: RoomState, direction: Direction): Option<int> {
    if direction == Supply then state.targetLevel else state.extractTargetLevel
  }

  function KeptTarget(state: RoomState, direction: Direction): Option<int> {
    if direction == Supply then state.extractTargetLevel else state.targetLevel
  }

  /** The level a directional command keeps is from old airflow. */
  predicate KeptFromAirflow(state: RoomState, direction: Direction, level: int, number: nat, now: real) {
    if !MapShown(state, now) || IsSensorMode(state.operationMode.value) then
      && GroupFresh(state, Flow, now) && AirflowOlder(state, number)
      && state.operationMode != Some(Off)
      && (state.operationMode.Some? && IsSensorMode(state.operationMode.value) ==> level <= 0)
    else
      match state.operationMode.value
      case Off => false
      case Unbalanced =>
        && GroupFresh(state, Flow, now) && AirflowOlder(state, number)
        && (KeptTarget(state, direction).None? || (OwnTarget(state, direction).None? && Close(state, direction)))
      case _ =>
        && state.balancedTargetReadback.None?
        && (if state.targetLevel.Some? then DerivedOlder(state, number) && TargetShown(state, now)
            else GroupFresh(state, Flow, now) && AirflowOlder(state, number))
  }

  /** It is from an old register. */
  predicate KeptFromRegister(state: RoomState, direction: Direction, number: nat, now: real) {
    if !MapShown(state, now) || IsSensorMode(state.operationMode.value) then false
    else
      match state.operationMode.value
      case Off => false
      case Unbalanced =>
        && state.mapRead < number
        && (KeptTarget(state, direction).Some?
            || (GroupFresh(state, Flow, now) && OwnTarget(state, direction).Some? && Close(state, direction)))
      case _ =>
        if state.balancedTargetReadback.Some? then ExactOlder(state, number)
        else TargetOlder(state, number) && TargetShown(state, now)
  }

  /** In every state a unit can be known in and at any time, the balanced level of a mode command is from airflow,
      or from a register, read before write `number` exactly when no levels are pending and the condition above
      holds. */
  lemma OldBalancedExactly(state: RoomState, number: nat, now: real, pending: Option<LevelPair>)
    requires TargetConsistent(state) && Whole(pending)
    ensures var balanced := ModeOrigins(state, Effective(state, now, pending)).supply;
            && (balanced.AirflowBefore(number) <==> pending.None? && BalancedFromAirflow(state, number, now))
            && (balanced.RegisterBefore(number) <==> pending.None? && BalancedFromRegister(state, number, now))
  {
  }

  /** The same of the extract level ... */
  lemma OldExtractExactly(state: RoomState, number: nat, now: real, pending: Option<LevelPair>)
    requires TargetConsistent(state) && Whole(pending)
    ensures var extract := ModeOrigins(state, Effective(state, now, pending)).extract;
            && (extract.AirflowBefore(number) <==> pending.None? && ExtractFromAirflow(state, number, now))
            && (extract.RegisterBefore(number) <==> pending.None? && ExtractFromRegister(state, number, now))
  {
  }

  /** ... and of the level that a directional command keeps. */
  lemma OldKeptExactly(state: RoomState, number: nat, now: real, pending: Option<LevelPair>,
                       direction: Direction, level: int)
    requires TargetConsistent(state) && Whole(pending)
    ensures var kept := KeptOrigin(state, now, pending, direction, level);
            && (kept.AirflowBefore(number) <==> pending.None? && KeptFromAirflow(state, direction, level, number, now))
            && (kept.RegisterBefore(number) <==> pending.None? && KeptFromRegister(state, direction, number, now))
  {
    if pending.Some? {
      PendingIsNew(state, number, now, pending, direction, level);
    } else if MapShown(state, now) && state.operationMode == Some(Unbalanced) {
      KeptUnbalanced(state, number, now, direction, level);
    } else if MapShown(state, now) && state.operationMode == Some(Manual) {
      KeptManual(state, number, now, direction, level);
    } else {
      KeptMeasured(state, number, now, direction, level);
    }
  }

  predicate KeptExactly(state: RoomState, number: nat, now: real, direction: Direction, level: int) {
    var kept := KeptOrigin(state, now, None, direction, level);
    && (kept.AirflowBefore(number) <==> KeptFromAirflow(state, direction, level, number, now))
    && (kept.RegisterBefore(number) <==> KeptFromRegister(state, direction, number, now))
  }

  lemma PendingIsNew(state: RoomState, number: nat, now: real, pending: Option<LevelPair>, direction: Direction, level: int)
    requires Whole(pending) && pending.Some?
    ensures !KeptOrigin(state, now, pending, direction, level).AirflowBefore(number)
    ensures !KeptOrigin(state, now, pending, direction, level).RegisterBefore(number)
  {
  }

  lemma KeptUnbalanced(state: RoomState, number: nat, now: real, direction: Direction, level: int)
    requires TargetConsistent(state) && MapShown(state, now) && state.operationMode == Some(Unbalanced)
    ensures KeptExactly(state, number, now, direction, level)
  {
    JoinedBefore(Airflow(state.flowRead), Map(state.mapRead), number);
    JoinedBefore(Map(state.mapRead), Airflow(state.flowRead), number);
  }

  lemma KeptManual(state: RoomState, number: nat, now: real, direction: Direction, level: int)
    requires TargetConsistent(state) && MapShown(state, now) && state.operationMode == Some(Manual)
    ensures KeptExactly(state, number, now, direction, level)
  {
  }

  lemma KeptMeasured(state: RoomState, number: nat, now: real, direction: Direction, level: int)
    requires TargetConsistent(state)
    requires !MapShown(state, now) || (state.operationMode != Some(Unbalanced) && state.operationMode != Some(Manual))
    ensures KeptExactly(state, number, now, direction, level)
  {
  }

  /** Pending levels are those of a command, which are both known. */
  predicate Whole(pending: Option<LevelPair>) {
    pending.Some? ==> pending.value.supply.Some? && pending.value.extract.Some?
  }

  /** Unless an override hides the base mode, reads since are enough: a level is only from old airflow if the
      airflow was not read since, and from an old register if the status map was not, or the exact target. */
  lemma ReadSinceSuffices(state: RoomState, number: nat, now: real, direction: Direction, level: int)
    requires TargetConsistent(state) && state.intensiveActive != Some(true)
    ensures BalancedFromAirflow(state, number, now) || ExtractFromAirflow(state, number, now)
            || KeptFromAirflow(state, direction, level, number, now)
            ==> 0 < state.HealthFor(Flow).success < number
    ensures BalancedFromRegister(state, number, now) || ExtractFromRegister(state, number, now)
            || KeptFromRegister(state, direction, number, now)
            ==> state.HealthFor(FlowControl).success < number || ExactOlder(state, number)
  {
  }

  // -------------------------------------------------------------------
  //  Commands
  // -------------------------------------------------------------------

  /** A mode command with these levels, and exactly when they are from something read before write `number`. */
  predicate ModeFollowed(state: RoomState, now: real, pending: Option<LevelPair>, number: nat, command: Command) {
    var from := ModeOrigins(state, Effective(state, now, pending));
    && command.SetMode?
    && command.balanced == from.supply.Value().GetOr(0) && command.extractLevel == from.extract.Value().GetOr(0)
    && (from.supply.AirflowBefore(number) <==> pending.None? && BalancedFromAirflow(state, number, now))
    && (from.supply.RegisterBefore(number) <==> pending.None? && BalancedFromRegister(state, number, now))
    && (from.extract.AirflowBefore(number) <==> pending.None? && ExtractFromAirflow(state, number, now))
    && (from.extract.RegisterBefore(number) <==> pending.None? && ExtractFromRegister(state, number, now))
  }

  lemma ModeFollows(state: RoomState, now: real, pending: Option<LevelPair>, number: nat, command: Command)
    requires TargetConsistent(state) && Whole(pending) && command.SetMode?
    requires var planned := ModeWriteLevels(state, EffectiveLevels(state, now, pending).0);
             command.balanced == planned.supply.GetOr(0) && command.extractLevel == planned.extract.GetOr(0)
    ensures ModeFollowed(state, now, pending, number, command)
  {
    SameModeLevels(state, now, pending);
    OldBalancedExactly(state, number, now, pending);
    OldExtractExactly(state, number, now, pending);
  }

  predicate IsCommand(command: Command, plan: DirectionPlan) {
    match plan
    case Refused => false
    case Balanced(level) => command == SetLevel(level)
    case Separate(supply, extract) => command == SetLevels(supply, extract)
  }

  /** A directional command with the level it keeps, and exactly when that one is from something read before
      write `number`. */
  predicate DirectionFollowed(state: RoomState, now: real, pending: Option<LevelPair>, direction: Direction, level: int,
                              number: nat, command: Command) {
    var kept := KeptOrigin(state, now, pending, direction, level);
    && IsCommand(command, Keeping(kept, direction, level))
    && (kept.AirflowBefore(number) <==> pending.None? && KeptFromAirflow(state, direction, level, number, now))
    && (kept.RegisterBefore(number) <==> pending.None? && KeptFromRegister(state, direction, number, now))
  }

  lemma DirectionFollows(state: RoomState, now: real, pending: Option<LevelPair>, direction: Direction, level: int,
                         number: nat, command: Command)
    requires TargetConsistent(state) && Whole(pending)
    requires var acted := EffectiveLevels(state, now, pending);
             IsCommand(command, PlanDirectionWrite(state, acted.0, acted.1, direction, level))
    ensures DirectionFollowed(state, now, pending, direction, level, number, command)
  {
    SameDirectionPlan(state, now, pending, direction, level);
    OldKeptExactly(state, number, now, pending, direction, level);
  }
}

/** Encoding mode commands as register writes and decoding the read-only status map. */
module ModeCodec {
  import opened Wrappers
  import opened Models

  const MODE_OFF := 1
  const MODE_SENSOR_CONTROL := 2
  const MODE_MANUAL := 3
  const MODE_UNBALANCED := 4
  const CODE_INTENSIVE := 227
  const CODE_LOW := 228
  const CODE_MEDIUM := 229
  const CODE_HIGH := 230
  const APP_UNBALANCED_PRESET_BASE := 200

  // -------------------------------------------------------------------
  //  Airflow scaling
  // -------------------------------------------------------------------

  /** The largest airflow of a profile in m3/h: 97 or 100. */
  predicate ValidMax(maxAirflow: int) {
    maxAirflow == 97 || maxAirflow == 100
  }

  /** `n / d` rounded to the nearest integer, halves to the even one. */
  function Round(n: int, d: int): (q: int)
    requires d > 0
    ensures -d <= 2 * (q * d - n) <= d
    ensures 2 * (q * d - n) == d || 2 * (q * d - n) == -d ==> q % 2 == 0
  {
    var below := n / d;
    var rest := n % d;
    assert below * d + rest == n && 0 <= rest < d;
    assert (below + 1) * d == below * d + d;
    if 2 * rest < d || (2 * rest == d && below % 2 == 0) then below else below + 1
  }

  function ToRaw(maxAirflow: int, level: int): int
    requires ValidMax(maxAirflow)
  {
    var raw := Round(level * 200, maxAirflow);
    if raw < 0 then 0 else if raw > 200 then 200 else raw
  }

  function ToAirflow(maxAirflow: int, raw: int): int {
    Round(raw * maxAirflow, 200)
  }

  /** Scaling to the raw register and back loses no m3/h. */
  lemma ScalingRoundTrip(maxAirflow: int, level: int)
    requires maxAirflow in {97, 100} && 0 <= level <= maxAirflow
    ensures 0 <= ToRaw(maxAirflow, level) <= 200
    ensures ToAirflow(maxAirflow, ToRaw(maxAirflow, level)) == level
  {
  }

  /** The raw level is the nearest share of the largest airflow, from none of it to all of it. */
  lemma RawExactly(maxAirflow: int, level: int)
    requires maxAirflow in {97, 100}
    ensures level <= 0 ==> ToRaw(maxAirflow, level) == 0
    ensures level >= maxAirflow ==> ToRaw(maxAirflow, level) == 200
    ensures 0 <= level <= maxAirflow ==> ToRaw(maxAirflow, level) == Round(level * 200, maxAirflow)
  {
  }

  // -------------------------------------------------------------------
  //  Commands
  // -------------------------------------------------------------------

  datatype ModeRegister = Mode | CurrentLevel | ExtractTarget | PresetMode | PresetValue
  {
    function Address(): int {
      match this
      case Mode => 41120
      case CurrentLevel => 41121
      case ExtractTarget => 41122
      case PresetMode => 41123
      case PresetValue => 41124
    }
  }

  datatype RegisterWrite = RegisterWrite(register: ModeRegister, value: int)

  datatype Command =
    | SetLevel(level: int)
    | SetLevels(supply: int, extract: int)
    | SetMode(mode: OperationMode, balanced: int, extractLevel: int)
    | SetPreset(preset: Preset)
    | ClearIntensive

  const CLEAR_INTENSIVE: seq<RegisterWrite> := [RegisterWrite(PresetMode, 0), RegisterWrite(PresetValue, 0)]

  function SensorCode(mode: OperationMode): int {
    match mode
    case HumidityControl => 112
    case Co2Control => 144
    case _ => 16
  }

  /** The code of a quick mode; presets without one are read-only. */
  function PresetCode(preset: Preset): Option<int> {
    match preset
    case Low => Some(CODE_LOW)
    case Medium => Some(CODE_MEDIUM)
    case High => Some(CODE_HIGH)
    case Intensive => Some(CODE_INTENSIVE)
    case _ => None
  }

  function ModeWrites(maxAirflow: int, mode: OperationMode, balanced: int, extract: int): seq<RegisterWrite>
    requires ValidMax(maxAirflow)
  {
    match mode
    case Off => CLEAR_INTENSIVE + [RegisterWrite(Mode, MODE_OFF), RegisterWrite(CurrentLevel, 0)]
    case Manual =>
      [RegisterWrite(Mode, MODE_MANUAL), RegisterWrite(CurrentLevel, ToRaw(maxAirflow, balanced))]
    case Unbalanced =>
      [RegisterWrite(Mode, MODE_UNBALANCED), RegisterWrite(CurrentLevel, ToRaw(maxAirflow, balanced)),
       RegisterWrite(ExtractTarget, ToRaw(maxAirflow, extract))]
    case _ =>
      [RegisterWrite(Mode, MODE_SENSOR_CONTROL), RegisterWrite(CurrentLevel, SensorCode(mode))]
  }

  /** The writes of a preset, or nothing when it cannot be written. */
  function PresetWrites(preset: Preset): Option<seq<RegisterWrite>> {
    match PresetCode(preset)
    case None => None
    case Some(code) =>
      if preset == Intensive then Some([RegisterWrite(PresetMode, MODE_MANUAL), RegisterWrite(PresetValue, code)])
      else Some(CLEAR_INTENSIVE + [RegisterWrite(Mode, MODE_MANUAL), RegisterWrite(CurrentLevel, code)])
  }

  /** The register writes of a command, in order; APPLY follows them. */
  function WritesOf(maxAirflow: int, command: Command): Option<seq<RegisterWrite>>
    requires ValidMax(maxAirflow)
  {
    match command
    case SetLevel(level) =>
      Some((if level == 0 then CLEAR_INTENSIVE else [])
           + [RegisterWrite(Mode, if level == 0 then MODE_OFF else MODE_MANUAL),
              RegisterWrite(CurrentLevel, ToRaw(maxAirflow, level))])
    case SetLevels(supply, extract) =>
      Some([RegisterWrite(Mode, MODE_UNBALANCED), RegisterWrite(CurrentLevel, ToRaw(maxAirflow, supply)),
            RegisterWrite(ExtractTarget, ToRaw(maxAirflow, extract))])
    case SetMode(mode, balanced, extract) => Some(ModeWrites(maxAirflow, mode, balanced, extract))
    case SetPreset(preset) => PresetWrites(preset)
    case ClearIntensive => Some(CLEAR_INTENSIVE)
  }

  // -------------------------------------------------------------------
  //  Status map
  // -------------------------------------------------------------------

  /** The registers 41100..41102. */
  datatype ModeRead = ModeRead(mode: int, currentLevel: int, extractTargetLevel: int)

  /** Every listed sensor status code stands for one selector; other values stand for themselves. */
  function SensorSelector(code: int): int {
    if code == 48 || code == 80 then 16
    else if code == 176 || code == 208 then 144
    else code
  }

  function ReportsIntensive(block: ModeRead): bool {
    || (block.mode == MODE_MANUAL && block.currentLevel == CODE_INTENSIVE)
    || (block.mode == 0 && block.currentLevel == 0)
  }

  function DecodeMode(mode: int, level: int): Option<OperationMode> {
    if mode == MODE_SENSOR_CONTROL then
      if level == 112 then Some(HumidityControl)
      else if level == 144 then Some(Co2Control)
      else if level == 16 then Some(Automatic)
      else None
    else if mode == MODE_OFF then Some(Off)
    else if mode == MODE_MANUAL then Some(Manual)
    else if mode == MODE_UNBALANCED then Some(Unbalanced)
    else None
  }

  function DecodeTarget(maxAirflow: int, raw: int): Option<int> {
    if 0 <= raw <= 200 then Some(ToAirflow(maxAirflow, raw))
    else
      var airflow := (raw - APP_UNBALANCED_PRESET_BASE) * 10;
      if airflow <= maxAirflow then Some(airflow) else None
  }

  function DecodePreset(block: ModeRead): Option<Preset> {
    if block.mode == MODE_UNBALANCED && block.currentLevel == 0
       && block.extractTargetLevel > APP_UNBALANCED_PRESET_BASE then Some(ExtractOnly)
    else if block.mode == MODE_UNBALANCED && block.extractTargetLevel == 0
            && block.currentLevel > APP_UNBALANCED_PRESET_BASE then Some(SupplyOnly)
    else if block.mode != MODE_MANUAL then None
    else if block.currentLevel == CODE_LOW then Some(Low)
    else if block.currentLevel == CODE_MEDIUM then Some(Medium)
    else if block.currentLevel == CODE_HIGH then Some(High)
    else if block.currentLevel == CODE_INTENSIVE then Some(Intensive)
    else None
  }

  /** A status read shows one fan off exactly when the mode is unbalanced, that fan's target is zero and the other
      fan's is an app preset; every other preset is the quick mode of its code, in manual mode. */
  lemma PresetMeans(block: ModeRead)
    ensures DecodePreset(block) == Some(ExtractOnly) <==>
              block.mode == 4 && block.currentLevel == 0 && block.extractTargetLevel > 200
    ensures DecodePreset(block) == Some(SupplyOnly) <==>
              block.mode == 4 && block.extractTargetLevel == 0 && block.currentLevel > 200
    ensures DecodePreset(block) == Some(Low) <==> block.mode == 3 && block.currentLevel == 228
    ensures DecodePreset(block) == Some(Medium) <==> block.mode == 3 && block.currentLevel == 229
    ensures DecodePreset(block) == Some(High) <==> block.mode == 3 && block.currentLevel == 230
    ensures DecodePreset(block) == Some(Intensive) <==> block.mode == 3 && block.currentLevel == 227
  {
  }

  function Abs(x: int): nat {
    if x < 0 then -x else x
  }

  /** One airflow for both directions, when they agree closely. */
  function DeriveBalanced(extract: Option<int>, supply: Option<int>): Option<int> {
    if extract.None? then supply
    else if supply.None? then extract
    else if Abs(extract.value - supply.value) <= 1 then Some(Round(extract.value + supply.value, 2))
    else None
  }

  function OrElse<T>(a: Option<T>, b: Option<T>): Option<T> {
    if a.Some? then a else b
  }

  /** Apply a status read, or its absence, to what is known of the unit. */
  function ApplyModeRead(maxAirflow: int, state: RoomState, read: Option<ModeRead>): RoomState {
    match read
    case None =>
      var measured := DeriveBalanced(state.extractAirFlow, state.supplyAirFlow);
      var unbalanced := state.operationMode == Some(Unbalanced);
      state.(targetLevel := if unbalanced then state.targetLevel else measured,
             targetFrom := if unbalanced then state.targetFrom else Some(state.flowRead),
             balancedTargetReadback := None,
             extractTargetLevel := if unbalanced then state.extractTargetLevel else None)
    case Some(raw) =>
      var block := if raw.mode == MODE_SENSOR_CONTROL then raw.(currentLevel := SensorSelector(raw.currentLevel)) else raw;
      if ReportsIntensive(block) then state.(intensiveActive := Some(true))
      else
        var mode := DecodeMode(block.mode, block.currentLevel);
        var measured := DeriveBalanced(state.extractAirFlow, state.supplyAirFlow);
        var target := DecodeTarget(maxAirflow, block.currentLevel);
        state.(operationMode := mode,
               targetLevel := if mode == Some(Unbalanced) then target
                              else if mode == Some(Off) || mode == Some(Manual) then OrElse(target, measured)
                              else measured,
               targetFrom := if mode == Some(Unbalanced) || ((mode == Some(Off) || mode == Some(Manual)) && target.Some?)
                             then None else Some(state.flowRead),
               balancedTargetReadback := None,
               extractTargetLevel := if mode == Some(Unbalanced) then DecodeTarget(maxAirflow, block.extractTargetLevel)
                                     else None,
               presetMode := DecodePreset(block),
               intensiveActive := Some(false))
  }

  /** A preset that moves a single fan is shown with a zero target for the other one. */
  lemma SingleFanTargets(maxAirflow: int, state: RoomState, raw: ModeRead)
    requires raw.mode != 2 && !(raw.mode == 3 && raw.currentLevel == 227) && !(raw.mode == 0 && raw.currentLevel == 0)
    ensures var s := ApplyModeRead(maxAirflow, state, Some(raw));
            && (s.presetMode == Some(ExtractOnly) ==> s.operationMode == Some(Unbalanced) && s.targetLevel == Some(0))
            && (s.presetMode == Some(SupplyOnly) ==> s.operationMode == Some(Unbalanced) && s.extractTargetLevel == Some(0))
  {
  }

  /** A raw target is a share of the largest airflow, or above 200 an app preset in steps of ten m3/h. */
  lemma TargetMeans(maxAirflow: int, raw: int, level: int)
    ensures DecodeTarget(maxAirflow, raw) == Some(level) <==>
              || (0 <= raw <= 200 && level == Round(raw * maxAirflow, 200))
              || (!(0 <= raw <= 200) && level == 10 * (raw - 200) && level <= maxAirflow)
  {
  }

  /** Two measurements stand for one balanced level when they are at most one apart, and one alone does too. */
  lemma BalancedMeans(extract: Option<int>, supply: Option<int>, level: int)
    ensures DeriveBalanced(extract, supply) == Some(level) <==>
              || (extract == None && supply == Some(level)) || (supply == None && extract == Some(level))
              || (extract.Some? && supply.Some? && -1 <= extract.value - supply.value <= 1
                  && level == Round(extract.value + supply.value, 2))
  {
  }

  /** What a status read changes. An override only says that it runs. Otherwise the mode is that of its code and
      selector, or unknown; a mode with one target falls back to the balanced level of the airflow, every mode
      without a target shows that level, and two targets belong to the unbalanced mode alone. */
  lemma ReadExactly(maxAirflow: int, state: RoomState, raw: ModeRead)
    ensures var s := ApplyModeRead(maxAirflow, state, Some(raw));
            var target := DecodeTarget(maxAirflow, raw.currentLevel);
            var measured := DeriveBalanced(state.extractAirFlow, state.supplyAirFlow);
            if (raw.mode == 3 && raw.currentLevel == 227) || (raw.mode == 0 && raw.currentLevel == 0) then
              s == state.(intensiveActive := Some(true))
            else
              && s.intensiveActive == Some(false) && s.balancedTargetReadback == None && s.presetMode == DecodePreset(raw)
              && (s.operationMode == Some(Off) <==> raw.mode == 1)
              && (s.operationMode == Some(Manual) <==> raw.mode == 3)
              && (s.operationMode == Some(Unbalanced) <==> raw.mode == 4)
              && (s.operationMode == Some(HumidityControl) <==> raw.mode == 2 && raw.currentLevel == 112)
              && (s.operationMode == Some(Co2Control) <==> raw.mode == 2 && raw.currentLevel in {144, 176, 208})
              && (s.operationMode == Some(Automatic) <==> raw.mode == 2 && raw.currentLevel in {16, 48, 80})
              && (raw.mode == 4 ==>
                    s.targetLevel == target && s.extractTargetLevel == DecodeTarget(maxAirflow, raw.extractTargetLevel))
              && (raw.mode in {1, 3} ==>
                    s.targetLevel == (if target.Some? then target else measured) && s.extractTargetLevel == None)
              && (raw.mode !in {1, 3, 4} ==> s.targetLevel == measured && s.extractTargetLevel == None)
              && s == state.(operationMode := s.operationMode, targetLevel := s.targetLevel, targetFrom := s.targetFrom,
                             balancedTargetReadback := None, extractTargetLevel := s.extractTargetLevel,
                             presetMode := s.presetMode, intensiveActive := Some(false))
              && (s.targetFrom == None <==> raw.mode == 4 || (raw.mode in {1, 3} && target.Some?))
              && (s.targetFrom.Some? ==> s.targetFrom == Some(state.flowRead))
  {
  }

  /** Without a status read the mode stays; so do the targets of the unbalanced mode, any other shows the airflow. */
  lemma AbsentExactly(maxAirflow: int, state: RoomState)
    ensures var s := ApplyModeRead(maxAirflow, state, None);
            if state.operationMode == Some(Unbalanced) then s == state.(balancedTargetReadback := None)
            else s == state.(targetLevel := DeriveBalanced(state.extractAirFlow, state.supplyAirFlow),
                             targetFrom := Some(state.flowRead), balancedTargetReadback := None, extractTargetLevel := None)
  {
  }
}

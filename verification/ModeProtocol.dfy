/** Commands through the register protocol: what a unit reports after any sequence of them. */
module ModeProtocol {
  import opened Wrappers
  import opened Models
  import opened ModeCodec
  import opened UnitModel

  // -------------------------------------------------------------------
  //  What a sequence of commands should leave the unit reporting
  // -------------------------------------------------------------------

  /** The base mode under a possible override. Sensor control carries no target. */
  datatype Base = Base(mode: OperationMode, preset: Option<Preset>, target: Option<int>, extract: Option<int>)

  datatype Intent = Intent(base: Base, intensive: bool)

  predicate InRange(maxAirflow: int, command: Command) {
    match command
    case SetLevel(level) => 0 <= level <= maxAirflow
    case SetLevels(supply, extract) => 0 <= supply <= maxAirflow && 0 <= extract <= maxAirflow
    case SetMode(_, balanced, extract) => 0 <= balanced <= maxAirflow && 0 <= extract <= maxAirflow
    case SetPreset(preset) => PresetCode(preset).Some?
    case ClearIntensive => true
  }

  function PresetAirflow(preset: Preset): int {
    match preset
    case Low => 20
    case Medium => 30
    case _ => 60
  }

  function ModeBase(mode: OperationMode, balanced: int, extract: int): Base {
    match mode
    case Off => Base(Off, None, Some(0), None)
    case Manual => Base(Manual, None, Some(balanced), None)
    case Unbalanced => Base(Unbalanced, None, Some(balanced), Some(extract))
    case _ => Base(mode, None, None, None)
  }

  /** The base mode a command asks for, if it asks for one. */
  function BaseOf(command: Command): Option<Base> {
    match command
    case SetLevel(level) => Some(if level == 0 then ModeBase(Off, 0, 0) else ModeBase(Manual, level, 0))
    case SetLevels(supply, extract) => Some(ModeBase(Unbalanced, supply, extract))
    case SetMode(mode, balanced, extract) => Some(ModeBase(mode, balanced, extract))
    case SetPreset(preset) =>
      if preset == Intensive then None else Some(Base(Manual, Some(preset), Some(PresetAirflow(preset)), None))
    case ClearIntensive => None
  }

  predicate StartsIntensive(command: Command) {
    command == SetPreset(Intensive)
  }

  /** Clear, off, level 0 and the quick modes end an intensive override. */
  predicate EndsIntensive(command: Command) {
    match command
    case SetLevel(level) => level == 0
    case SetMode(mode, _, _) => mode == Off
    case SetPreset(preset) => preset != Intensive
    case ClearIntensive => true
    case _ => false
  }

  /** The base mode that was asked for last, or the one the unit started in. */
  function LastBase(commands: seq<Command>, start: Base): Base {
    if commands == [] then start
    else
      var last := BaseOf(commands[|commands| - 1]);
      if last.Some? then last.value else LastBase(commands[..|commands| - 1], start)
  }

  /** The last intensive-on was not followed by a command that ends it. */
  ghost predicate IntensiveRuns(commands: seq<Command>) {
    exists i | 0 <= i < |commands| && StartsIntensive(commands[i]) ::
      forall j | i < j < |commands| :: !EndsIntensive(commands[j])
  }

  lemma IntensiveNext(commands: seq<Command>, command: Command)
    ensures IntensiveRuns(commands + [command])
       <==> StartsIntensive(command) || (IntensiveRuns(commands) && !EndsIntensive(command))
  {
    var longer := commands + [command];
    assert longer[|commands|] == command && forall j | 0 <= j < |commands| :: longer[j] == commands[j];
    if StartsIntensive(command) {
      assert StartsIntensive(longer[|commands|]);
    } else {
      if IntensiveRuns(commands) && !EndsIntensive(command) {
        var i :| 0 <= i < |commands| && StartsIntensive(commands[i])
              && forall j | i < j < |commands| :: !EndsIntensive(commands[j]);
        assert StartsIntensive(longer[i]);
      }
      if IntensiveRuns(longer) {
        var i :| 0 <= i < |longer| && StartsIntensive(longer[i])
              && forall j | i < j < |longer| :: !EndsIntensive(longer[j]);
        assert StartsIntensive(commands[i]) && !EndsIntensive(longer[|commands|]);
        assert forall j | i < j < |commands| :: !EndsIntensive(longer[j]);
      }
    }
  }

  /** What a sequence of commands should leave the unit reporting. */
  ghost function Asked(commands: seq<Command>, start: Base): Intent {
    Intent(LastBase(commands, start), IntensiveRuns(commands))
  }

  function Next(intent: Intent, command: Command): Intent {
    Intent(if BaseOf(command).Some? then BaseOf(command).value else intent.base,
           StartsIntensive(command) || (intent.intensive && !EndsIntensive(command)))
  }

  lemma AskedNext(commands: seq<Command>, command: Command, start: Base)
    ensures Asked(commands + [command], start) == Next(Asked(commands, start), command)
  {
    IntensiveNext(commands, command);
    assert (commands + [command])[..|commands|] == commands;
  }

  // -------------------------------------------------------------------
  //  Running commands
  // -------------------------------------------------------------------

  /** One command with the times its register writes and its APPLY reach the unit. */
  datatype Timed = Timed(command: Command, at: seq<real>)

  predicate Writable(maxAirflow: int, t: Timed)
    requires ValidMax(maxAirflow)
  {
    InRange(maxAirflow, t.command) && WritesOf(maxAirflow, t.command).Some?
    && |t.at| == |WritesOf(maxAirflow, t.command).value| + 1
  }

  function AfterWrites(s: UnitState, profile: Profile, writes: seq<RegisterWrite>, at: seq<real>): UnitState
    requires |at| >= |writes|
    decreases |writes|
  {
    if writes == [] then s
    else AfterWrites(Stored(s, profile, writes[0].register.Address(), writes[0].value, at[0]), profile,
                     writes[1..], at[1..])
  }

  function AfterCommand(s: UnitState, profile: Profile, t: Timed): UnitState
    requires profile.Valid() && Writable(profile.maxAirflow, t)
  {
    var writes := WritesOf(profile.maxAirflow, t.command).value;
    Stored(AfterWrites(s, profile, writes, t.at), profile, APPLY, 0, t.at[|writes|])
  }

  function AfterCommands(s: UnitState, profile: Profile, run: seq<Timed>): UnitState
    requires profile.Valid() && forall t | t in run :: Writable(profile.maxAirflow, t)
  {
    if run == [] then s
    else AfterCommand(AfterCommands(s, profile, run[..|run| - 1]), profile, run[|run| - 1])
  }

  function Commands(run: seq<Timed>): seq<Command> {
    seq(|run|, i requires 0 <= i < |run| => run[i].command)
  }

  /** The set registers after some writes. */
  function Written(registers: Registers, writes: seq<RegisterWrite>): Registers
    decreases |writes|
  {
    if writes == [] then registers
    else Written(registers[writes[0].register.Address() := writes[0].value], writes[1..])
  }

  lemma SameSideWritten(a: Registers, b: Registers, writes: seq<RegisterWrite>)
    requires SameSetSide(a, b)
    ensures SameSetSide(Written(a, writes), Written(b, writes))
    decreases |writes|
  {
    if writes != [] {
      var r, v := writes[0].register.Address(), writes[0].value;
      SameSideWritten(a[r := v], b[r := v], writes[1..]);
    }
  }

  lemma {:induction false} WritesStage(s: UnitState, profile: Profile, writes: seq<RegisterWrite>, at: seq<real>)
    requires |at| >= |writes|
    ensures SameSetSide(AfterWrites(s, profile, writes, at).registers, Written(s.registers, writes))
    decreases |writes|
  {
    if writes != [] {
      var r, v := writes[0].register.Address(), writes[0].value;
      var next := Stored(s, profile, r, v, at[0]);
      StoreStages(s, profile, r, v, at[0]);
      WritesStage(next, profile, writes[1..], at[1..]);
      SameSideWritten(next.registers, s.registers[r := v], writes[1..]);
    }
  }

  // -------------------------------------------------------------------
  //  What the set registers hold
  // -------------------------------------------------------------------

  ghost predicate HoldsLevel(maxAirflow: int, registers: Registers, register: ModeRegister, level: Option<int>) {
    var raw := Get(registers, register.Address(), -1);
    0 <= raw <= 200 && level == Some(ToAirflow(maxAirflow, raw))
  }

  ghost predicate HoldsBase(maxAirflow: int, registers: Registers, base: Base) {
    var mode := Get(registers, Mode.Address(), -1);
    var level := Get(registers, CurrentLevel.Address(), -1);
    match base.mode
    case Off => mode == MODE_OFF && level == 0 && base == ModeBase(Off, 0, 0)
    case Manual =>
      && mode == MODE_MANUAL && base.extract == None
      && (match base.preset
          case None => HoldsLevel(maxAirflow, registers, CurrentLevel, base.target)
          case Some(p) => (p == Low || p == Medium || p == High)
                          && Some(level) == PresetCode(p) && base.target == Some(PresetAirflow(p)))
    case Unbalanced =>
      && mode == MODE_UNBALANCED && base.preset == None
      && HoldsLevel(maxAirflow, registers, CurrentLevel, base.target)
      && HoldsLevel(maxAirflow, registers, ExtractTarget, base.extract)
    case _ => mode == MODE_SENSOR_CONTROL && level == SensorCode(base.mode) && base == ModeBase(base.mode, 0, 0)
  }

  ghost predicate HoldsOverride(registers: Registers, intensive: bool) {
    && Get(registers, PresetMode.Address(), -1) == (if intensive then MODE_MANUAL else 0)
    && Get(registers, PresetValue.Address(), -1) == (if intensive then CODE_INTENSIVE else 0)
  }

  ghost predicate Holds(maxAirflow: int, registers: Registers, intent: Intent) {
    HoldsBase(maxAirflow, registers, intent.base) && HoldsOverride(registers, intent.intensive)
  }

  lemma HoldsTransfers(maxAirflow: int, a: Registers, b: Registers, intent: Intent)
    requires SameSetSide(a, b) && Holds(maxAirflow, a, intent)
    ensures Holds(maxAirflow, b, intent)
  {
    assert IsSetRegister(41120) && IsSetRegister(41121) && IsSetRegister(41122)
        && IsSetRegister(41123) && IsSetRegister(41124);
  }

  lemma Written2(registers: Registers, a: RegisterWrite, b: RegisterWrite)
    ensures Written(registers, [a, b]) == registers[a.register.Address() := a.value][b.register.Address() := b.value]
  {
    var first := registers[a.register.Address() := a.value];
    assert [a, b][1..] == [b] && [b][1..] == [];
    assert Written(first, [b]) == Written(first[b.register.Address() := b.value], []);
  }

  lemma Written3(registers: Registers, a: RegisterWrite, b: RegisterWrite, c: RegisterWrite)
    ensures Written(registers, [a, b, c])
         == registers[a.register.Address() := a.value][b.register.Address() := b.value][c.register.Address() := c.value]
  {
    assert [a, b, c][1..] == [b, c];
    Written2(registers[a.register.Address() := a.value], b, c);
  }

  lemma Written4(registers: Registers, a: RegisterWrite, b: RegisterWrite, c: RegisterWrite, d: RegisterWrite)
    ensures Written(registers, [a, b] + [c, d])
         == registers[a.register.Address() := a.value][b.register.Address() := b.value]
                     [c.register.Address() := c.value][d.register.Address() := d.value]
  {
    var writes := [a, b] + [c, d];
    assert writes[0] == a && writes[1..] == [b, c, d];
    Written3(registers[a.register.Address() := a.value], b, c, d);
  }

  lemma OffHolds(maxAirflow: int, registers: Registers, intent: Intent, balanced: int, extract: int)
    requires ValidMax(maxAirflow) && Holds(maxAirflow, registers, intent)
    ensures Holds(maxAirflow, Written(registers, ModeWrites(maxAirflow, Off, balanced, extract)),
                  Next(intent, SetMode(Off, balanced, extract)))
  {
    var writes := ModeWrites(maxAirflow, Off, balanced, extract);
    Written4(registers, writes[0], writes[1], writes[2], writes[3]);
  }

  lemma UnbalancedHolds(maxAirflow: int, registers: Registers, intent: Intent, balanced: int, extract: int)
    requires ValidMax(maxAirflow) && Holds(maxAirflow, registers, intent)
    requires InRange(maxAirflow, SetMode(Unbalanced, balanced, extract))
    ensures Holds(maxAirflow, Written(registers, ModeWrites(maxAirflow, Unbalanced, balanced, extract)),
                  Next(intent, SetMode(Unbalanced, balanced, extract)))
  {
    ScalingRoundTrip(maxAirflow, balanced);
    ScalingRoundTrip(maxAirflow, extract);
    var writes := ModeWrites(maxAirflow, Unbalanced, balanced, extract);
    Written3(registers, writes[0], writes[1], writes[2]);
  }

  lemma ManualHolds(maxAirflow: int, registers: Registers, intent: Intent, balanced: int, extract: int)
    requires ValidMax(maxAirflow) && Holds(maxAirflow, registers, intent)
    requires InRange(maxAirflow, SetMode(Manual, balanced, extract))
    ensures Holds(maxAirflow, Written(registers, ModeWrites(maxAirflow, Manual, balanced, extract)),
                  Next(intent, SetMode(Manual, balanced, extract)))
  {
    ScalingRoundTrip(maxAirflow, balanced);
    var writes := ModeWrites(maxAirflow, Manual, balanced, extract);
    Written2(registers, writes[0], writes[1]);
  }

  lemma SensorHolds(maxAirflow: int, registers: Registers, intent: Intent,
                    mode: OperationMode, balanced: int, extract: int)
    requires ValidMax(maxAirflow) && Holds(maxAirflow, registers, intent)
    requires mode != Off && mode != Manual && mode != Unbalanced
    ensures Holds(maxAirflow, Written(registers, ModeWrites(maxAirflow, mode, balanced, extract)),
                  Next(intent, SetMode(mode, balanced, extract)))
  {
    var writes := ModeWrites(maxAirflow, mode, balanced, extract);
    Written2(registers, writes[0], writes[1]);
  }

  lemma ModeCommandHolds(maxAirflow: int, registers: Registers, intent: Intent,
                         mode: OperationMode, balanced: int, extract: int)
    requires ValidMax(maxAirflow) && Holds(maxAirflow, registers, intent)
    requires InRange(maxAirflow, SetMode(mode, balanced, extract))
    ensures Holds(maxAirflow, Written(registers, ModeWrites(maxAirflow, mode, balanced, extract)),
                  Next(intent, SetMode(mode, balanced, extract)))
  {
    match mode
    case Off => OffHolds(maxAirflow, registers, intent, balanced, extract);
    case Unbalanced => UnbalancedHolds(maxAirflow, registers, intent, balanced, extract);
    case Manual => ManualHolds(maxAirflow, registers, intent, balanced, extract);
    case _ => SensorHolds(maxAirflow, registers, intent, mode, balanced, extract);
  }

  lemma PresetCommandHolds(maxAirflow: int, registers: Registers, intent: Intent, preset: Preset)
    requires ValidMax(maxAirflow) && Holds(maxAirflow, registers, intent) && PresetCode(preset).Some?
    ensures Holds(maxAirflow, Written(registers, PresetWrites(preset).value), Next(intent, SetPreset(preset)))
  {
    var writes := PresetWrites(preset).value;
    if preset == Intensive {
      Written2(registers, writes[0], writes[1]);
    } else {
      Written4(registers, writes[0], writes[1], writes[2], writes[3]);
    }
  }

  /** Setting a level is setting a mode, to the register. */
  lemma LevelIsMode(maxAirflow: int, level: int)
    requires ValidMax(maxAirflow)
    ensures var mode := if level == 0 then Off else Manual;
            WritesOf(maxAirflow, SetLevel(level)) == Some(ModeWrites(maxAirflow, mode, level, 0))
  {
    if level != 0 {
      var rest := [RegisterWrite(Mode, MODE_MANUAL), RegisterWrite(CurrentLevel, ToRaw(maxAirflow, level))];
      assert [] + rest == rest;
    }
  }

  /** A command's writes leave the set registers holding what it asks for. */
  lemma CommandHolds(maxAirflow: int, registers: Registers, intent: Intent, command: Command)
    requires ValidMax(maxAirflow) && Holds(maxAirflow, registers, intent)
    requires InRange(maxAirflow, command) && WritesOf(maxAirflow, command).Some?
    ensures Holds(maxAirflow, Written(registers, WritesOf(maxAirflow, command).value), Next(intent, command))
  {
    match command
    case SetLevel(level) =>
      var mode := if level == 0 then Off else Manual;
      LevelIsMode(maxAirflow, level);
      ModeCommandHolds(maxAirflow, registers, intent, mode, level, 0);
    case SetLevels(supply, extract) =>
      ModeCommandHolds(maxAirflow, registers, intent, Unbalanced, supply, extract);
    case SetMode(mode, balanced, extract) =>
      ModeCommandHolds(maxAirflow, registers, intent, mode, balanced, extract);
    case SetPreset(preset) => PresetCommandHolds(maxAirflow, registers, intent, preset);
    case ClearIntensive => Written2(registers, CLEAR_INTENSIVE[0], CLEAR_INTENSIVE[1]);
  }

  // -------------------------------------------------------------------
  //  What the unit shows
  // -------------------------------------------------------------------

  /** The unit shows what its set registers hold. Of the airflow only a quick mode's is needed. */
  ghost predicate Shows(maxAirflow: int, s: UnitState, intent: Intent) {
    var status := ModeUpdates(s.registers, maxAirflow);
    && Get(Shown(s), STATUS_MODE, 0) == status.mode
    && Get(Shown(s), STATUS_SUPPLY, 0) == status.supply
    && Get(Shown(s), STATUS_EXTRACT, 0) == status.extract
    && (!intent.intensive && intent.base.preset.Some? ==>
          && Get(Shown(s), EXTRACT_FLOW, 0) == PresetAirflow(intent.base.preset.value)
          && Get(Shown(s), SUPPLY_FLOW, 0) == PresetAirflow(intent.base.preset.value))
  }

  lemma PresetStatus(maxAirflow: int, registers: Registers, intent: Intent)
    requires ValidMax(maxAirflow) && Holds(maxAirflow, registers, intent)
    requires !intent.intensive && intent.base.preset.Some?
    ensures var airflow := PresetAirflow(intent.base.preset.value);
            ModeUpdates(registers, maxAirflow).airflow == Some((airflow, airflow))
  {
    match intent.base.mode
    case Manual =>
    case _ =>
  }

  lemma CommandShows(s: UnitState, profile: Profile, t: Timed, intent: Intent)
    requires profile.Valid() && Writable(profile.maxAirflow, t) && Holds(profile.maxAirflow, s.registers, intent)
    ensures var u := AfterCommand(s, profile, t);
            var next := Next(intent, t.command);
            Holds(profile.maxAirflow, u.registers, next) && Shows(profile.maxAirflow, u, next)
  {
    var writes := WritesOf(profile.maxAirflow, t.command).value;
    var staged := AfterWrites(s, profile, writes, t.at);
    var u := AfterCommand(s, profile, t);
    var next := Next(intent, t.command);
    WritesStage(s, profile, writes, t.at);
    CommandHolds(profile.maxAirflow, s.registers, intent, t.command);
    HoldsTransfers(profile.maxAirflow, Written(s.registers, writes), staged.registers, next);
    ApplyActivates(staged, profile, t.at[|writes|]);
    HoldsTransfers(profile.maxAirflow, staged.registers, u.registers, next);
    SameSideSameStatus(u.registers, staged.registers, profile.maxAirflow);
    if !next.intensive && next.base.preset.Some? {
      PresetStatus(profile.maxAirflow, staged.registers, next);
    }
  }

  lemma {:induction false} RunShows(s: UnitState, profile: Profile, start: Base, run: seq<Timed>)
    requires profile.Valid() && forall t | t in run :: Writable(profile.maxAirflow, t)
    requires Holds(profile.maxAirflow, s.registers, Intent(start, false))
    requires Shows(profile.maxAirflow, s, Intent(start, false))
    ensures var u := AfterCommands(s, profile, run);
            var intent := Asked(Commands(run), start);
            Holds(profile.maxAirflow, u.registers, intent) && Shows(profile.maxAirflow, u, intent)
  {
    if run == [] {
      assert Asked(Commands(run), start) == Intent(start, false);
    } else {
      var before, last := run[..|run| - 1], run[|run| - 1];
      RunShows(s, profile, start, before);
      CommandsNext(run);
      AskedNext(Commands(before), last.command, start);
      CommandShows(AfterCommands(s, profile, before), profile, last, Asked(Commands(before), start));
    }
  }

  lemma CommandsNext(run: seq<Timed>)
    requires run != []
    ensures Commands(run) == Commands(run[..|run| - 1]) + [run[|run| - 1].command]
  {
  }

  // -------------------------------------------------------------------
  //  What the client decodes
  // -------------------------------------------------------------------

  /** What the client knows of a unit after a full airflow read, given what it knew before. */
  function Decoded(maxAirflow: int, previous: RoomState, registers: Registers): RoomState {
    ApplyModeRead(maxAirflow,
                  previous.(extractAirFlow := Some(Get(registers, EXTRACT_FLOW, 0)),
                            supplyAirFlow := Some(Get(registers, SUPPLY_FLOW, 0))),
                  Some(ModeRead(Get(registers, STATUS_MODE, 0), Get(registers, STATUS_SUPPLY, 0),
                                Get(registers, STATUS_EXTRACT, 0))))
  }

  predicate Reports(state: RoomState, base: Base) {
    && state.operationMode == Some(base.mode) && state.presetMode == base.preset
    && state.extractTargetLevel == base.extract
    && (base.target.Some? ==> state.targetLevel == base.target)
  }

  lemma DecodesOff(maxAirflow: int, s: UnitState, intent: Intent, previous: RoomState)
    requires ValidMax(maxAirflow) && !intent.intensive
    requires Holds(maxAirflow, s.registers, intent) && Shows(maxAirflow, s, intent)
    requires intent.base.mode == Off
    ensures var d := Decoded(maxAirflow, previous, Shown(s));
            d.intensiveActive == Some(false) && Reports(d, intent.base)
  {
  }

  lemma DecodesManual(maxAirflow: int, s: UnitState, intent: Intent, previous: RoomState)
    requires ValidMax(maxAirflow) && !intent.intensive
    requires Holds(maxAirflow, s.registers, intent) && Shows(maxAirflow, s, intent)
    requires intent.base.mode == Manual && intent.base.preset.None?
    ensures var d := Decoded(maxAirflow, previous, Shown(s));
            d.intensiveActive == Some(false) && Reports(d, intent.base)
  {
  }

  lemma DecodesPreset(maxAirflow: int, s: UnitState, intent: Intent, previous: RoomState)
    requires ValidMax(maxAirflow) && !intent.intensive
    requires Holds(maxAirflow, s.registers, intent) && Shows(maxAirflow, s, intent)
    requires intent.base.mode == Manual && intent.base.preset.Some?
    ensures var d := Decoded(maxAirflow, previous, Shown(s));
            d.intensiveActive == Some(false) && Reports(d, intent.base)
  {
    PresetStatus(maxAirflow, s.registers, intent);
  }

  lemma DecodesUnbalanced(maxAirflow: int, s: UnitState, intent: Intent, previous: RoomState)
    requires ValidMax(maxAirflow) && !intent.intensive
    requires Holds(maxAirflow, s.registers, intent) && Shows(maxAirflow, s, intent)
    requires intent.base.mode == Unbalanced
    ensures var d := Decoded(maxAirflow, previous, Shown(s));
            d.intensiveActive == Some(false) && Reports(d, intent.base)
  {
  }

  lemma DecodesSensor(maxAirflow: int, s: UnitState, intent: Intent, previous: RoomState)
    requires ValidMax(maxAirflow) && !intent.intensive
    requires Holds(maxAirflow, s.registers, intent) && Shows(maxAirflow, s, intent)
    requires IsSensorMode(intent.base.mode)
    ensures var d := Decoded(maxAirflow, previous, Shown(s));
            d.intensiveActive == Some(false) && Reports(d, intent.base)
  {
  }

  lemma DecodesBase(maxAirflow: int, s: UnitState, intent: Intent, previous: RoomState)
    requires ValidMax(maxAirflow) && !intent.intensive
    requires Holds(maxAirflow, s.registers, intent) && Shows(maxAirflow, s, intent)
    ensures var d := Decoded(maxAirflow, previous, Shown(s));
            d.intensiveActive == Some(false) && Reports(d, intent.base)
  {
    match intent.base.mode
    case Off => DecodesOff(maxAirflow, s, intent, previous);
    case Manual =>
      if intent.base.preset.Some? {
        DecodesPreset(maxAirflow, s, intent, previous);
      } else {
        DecodesManual(maxAirflow, s, intent, previous);
      }
    case Unbalanced => DecodesUnbalanced(maxAirflow, s, intent, previous);
    case _ => DecodesSensor(maxAirflow, s, intent, previous);
  }

  lemma DecodesIntensive(maxAirflow: int, s: UnitState, intent: Intent, previous: RoomState)
    requires ValidMax(maxAirflow) && intent.intensive
    requires Holds(maxAirflow, s.registers, intent) && Shows(maxAirflow, s, intent)
    ensures var d := Decoded(maxAirflow, previous, Shown(s));
            && d.intensiveActive == Some(true)
            && d.(extractAirFlow := previous.extractAirFlow, supplyAirFlow := previous.supplyAirFlow,
                  intensiveActive := previous.intensiveActive) == previous
  {
  }

  /** After any commands and whatever a unit shows once settled, the client reads intensive exactly
      when the last intensive-on was not followed by a command that ends it; while it runs, the read
      leaves what the client knew of the base mode alone; otherwise the client reads exactly the
      mode, preset and airflow targets of the last command that set them. */
  lemma ReportsLastCommand(s: UnitState, profile: Profile, start: Base, run: seq<Timed>, now: real, previous: RoomState)
    requires profile.Valid() && (forall t | t in run :: Writable(profile.maxAirflow, t))
    requires Holds(profile.maxAirflow, s.registers, Intent(start, false))
    requires Shows(profile.maxAirflow, s, Intent(start, false))
    requires var pending := AfterCommands(s, profile, run).pending; pending.Some? ==> pending.value.due <= now
    ensures var d := Decoded(profile.maxAirflow, previous, Settled(AfterCommands(s, profile, run), now).registers);
            && (d.intensiveActive == Some(true) <==> IntensiveRuns(Commands(run)))
            && (IntensiveRuns(Commands(run)) ==>
                  d.(extractAirFlow := previous.extractAirFlow, supplyAirFlow := previous.supplyAirFlow,
                     intensiveActive := previous.intensiveActive) == previous)
            && (!IntensiveRuns(Commands(run)) ==>
                  d.intensiveActive == Some(false) && Reports(d, LastBase(Commands(run), start)))
  {
    RunShows(s, profile, start, run);
    var u := AfterCommands(s, profile, run);
    var intent := Asked(Commands(run), start);
    assert Settled(u, now).registers == Shown(u);
    if intent.intensive {
      DecodesIntensive(profile.maxAirflow, u, intent, previous);
    } else {
      DecodesBase(profile.maxAirflow, u, intent, previous);
    }
  }

  /** The mode registers a new unit starts with. */
  function InitialRegisters(): Registers {
    map[41120 := MODE_MANUAL, 41121 := 80, 41122 := 80, 41123 := 0, 41124 := 0, APPLY := 0,
        STATUS_MODE := MODE_MANUAL, STATUS_SUPPLY := 80, STATUS_EXTRACT := 80,
        EXTRACT_FLOW := 40, SUPPLY_FLOW := 40]
  }

  /** A new unit meets the starting conditions, in balanced manual mode at raw level 80. */
  lemma InitiallyManual(maxAirflow: int)
    requires ValidMax(maxAirflow)
    ensures var s := UnitState(InitialRegisters(), {}, {}, None);
            var intent := Intent(ModeBase(Manual, ToAirflow(maxAirflow, 80), 0), false);
            Holds(maxAirflow, s.registers, intent) && Shows(maxAirflow, s, intent)
  {
  }
}

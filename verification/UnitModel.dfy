/** A ventilation unit behind the gateway, as the mock gateway models it: set registers that take
    effect with APPLY, and a status map that follows after a settle time. */
module UnitModel {
  import opened Wrappers
  import opened ModeCodec

  const STATUS_MODE := 41100
  const STATUS_SUPPLY := 41101
  const STATUS_EXTRACT := 41102
  const EXTRACT_FLOW := 41020
  const SUPPLY_FLOW := 41021
  const APPLY := 41132
  const ILLEGAL_DATA_ADDRESS := 2
  const ILLEGAL_DATA_VALUE := 3
  const ACKNOWLEDGE := 5
  const MAX_REGISTER_COUNT := 125

  predicate IsSetRegister(register: int) {
    41120 <= register <= 41124
  }

  /** Every register a mode command touches. */
  predicate IsCommandRegister(register: int) {
    IsSetRegister(register) || register == APPLY
  }

  type Registers = map<int, int>

  function Get(registers: Registers, register: int, default: int): int {
    if register in registers then registers[register] else default
  }

  /** What a commit changes in the status map and the measured airflow. */
  datatype Status = Status(mode: int, supply: int, extract: int, airflow: Option<(int, int)>)

  datatype Pending = Pending(due: real, status: Status)

  datatype UnitState = UnitState(
    registers: Registers,
    refused: set<int>,
    written: set<int>,
    pending: Option<Pending>)

  datatype Profile = Profile(maxAirflow: int, settleSeconds: real)
  {
    predicate Valid() {
      ValidMax(maxAirflow) && settleSeconds >= 0.0
    }
  }

  // -------------------------------------------------------------------
  //  What APPLY activates
  // -------------------------------------------------------------------

  function Min(a: int, b: int): int {
    if a < b then a else b
  }

  function QuickAirflow(code: int): Option<int> {
    if code == CODE_LOW then Some(20)
    else if code == CODE_MEDIUM then Some(30)
    else if code == CODE_HIGH then Some(60)
    else if code == CODE_INTENSIVE then Some(80)
    else None
  }

  function Airflow(raw: int, maxAirflow: int, quickModes: bool): int {
    if quickModes && QuickAirflow(raw).Some? then Min(QuickAirflow(raw).value, maxAirflow)
    else if 0 <= raw <= 200 then Round(raw * maxAirflow, 200)
    else Min((raw - APP_UNBALANCED_PRESET_BASE) * 10, maxAirflow)
  }

  /** `value | 0x20`. */
  function WithSensorBit(value: int): int {
    if (value / 32) % 2 == 1 then value else value + 32
  }

  function ModeUpdates(registers: Registers, maxAirflow: int): Status {
    var mode := Get(registers, Mode.Address(), MODE_MANUAL);
    var level := Get(registers, CurrentLevel.Address(), 0);
    var extract := Get(registers, ExtractTarget.Address(), level);
    if Get(registers, PresetMode.Address(), 0) == MODE_MANUAL
       && Get(registers, PresetValue.Address(), 0) == CODE_INTENSIVE then
      var airflow := Airflow(CODE_INTENSIVE, maxAirflow, true);
      Status(MODE_MANUAL, CODE_INTENSIVE, CODE_INTENSIVE, Some((airflow, airflow)))
    else if mode == MODE_SENSOR_CONTROL then
      Status(mode, WithSensorBit(level), WithSensorBit(level), None)
    else if mode == MODE_OFF then
      Status(mode, level, level, Some((0, 0)))
    else if mode == MODE_UNBALANCED then
      Status(mode, level, extract, Some((Airflow(extract, maxAirflow, false), Airflow(level, maxAirflow, false))))
    else
      var airflow := Airflow(level, maxAirflow, true);
      Status(mode, level, level, Some((airflow, airflow)))
  }

  // -------------------------------------------------------------------
  //  Steps
  // -------------------------------------------------------------------

  function Updated(registers: Registers, status: Status): Registers {
    var shown := registers[STATUS_MODE := status.mode][STATUS_SUPPLY := status.supply][STATUS_EXTRACT := status.extract];
    match status.airflow
    case None => shown
    case Some((extract, supply)) => shown[EXTRACT_FLOW := extract][SUPPLY_FLOW := supply]
  }

  function Settled(s: UnitState, now: real): UnitState {
    if s.pending.Some? && s.pending.value.due <= now
    then s.(registers := Updated(s.registers, s.pending.value.status), pending := None)
    else s
  }

  function Committed(s: UnitState, profile: Profile, now: real): UnitState {
    var status := ModeUpdates(s.registers, profile.maxAirflow);
    if profile.settleSeconds != 0.0 then s.(pending := Some(Pending(now + profile.settleSeconds, status)))
    else s.(registers := Updated(s.registers, status), pending := None)
  }

  /** A write of one register that the unit does not refuse. */
  function Stored(s: UnitState, profile: Profile, register: int, value: int, now: real): UnitState {
    var settled := Settled(s, now);
    var stored := settled.(registers := settled.registers[register := value],
                           written := if IsSetRegister(register) then settled.written + {register} else settled.written);
    if register == APPLY && value == 0 then Committed(stored, profile, now) else stored
  }

  class Unit {
    const profile: Profile
    var registers: Registers
    var refused: set<int>
    var written: set<int>
    var pending: Option<Pending>

    ghost function State(): UnitState
      reads this
    {
      UnitState(registers, refused, written, pending)
    }

    constructor (profile: Profile, registers: Registers)
      ensures this.profile == profile && State() == UnitState(registers, {}, {}, None)
    {
      this.profile := profile;
      this.registers := registers;
      refused, written, pending := {}, {}, None;
    }

    method Update(status: Status)
      modifies `registers
      ensures registers == Updated(old(registers), status)
    {
      registers := registers[STATUS_MODE := status.mode];
      registers := registers[STATUS_SUPPLY := status.supply];
      registers := registers[STATUS_EXTRACT := status.extract];
      if status.airflow.Some? {
        registers := registers[EXTRACT_FLOW := status.airflow.value.0];
        registers := registers[SUPPLY_FLOW := status.airflow.value.1];
      }
    }

    method Settle(now: real)
      modifies `registers, `pending
      ensures State() == Settled(old(State()), now)
    {
      if pending.Some? && now >= pending.value.due {
        Update(pending.value.status);
        pending := None;
      }
    }

    method Commit(now: real)
      modifies `registers, `pending
      ensures State() == Committed(old(State()), profile, now)
    {
      var updates := ModeUpdates(registers, profile.maxAirflow);
      if profile.settleSeconds != 0.0 {
        pending := Some(Pending(now + profile.settleSeconds, updates));
      } else {
        pending := None;
        Update(updates);
      }
    }

    /** Write one register; the result is an exception code on refusal. */
    method Write(register: int, value: int, now: real) returns (code: Option<int>)
      modifies `registers, `written, `pending
      ensures code == if register in refused then Some(2) else None
      ensures code.Some? ==> State() == old(State())
      ensures code.None? ==> State() == Stored(old(State()), profile, register, value, now)
    {
      if register in refused {
        return Some(ILLEGAL_DATA_ADDRESS);
      }
      Settle(now);
      registers := registers[register := value];
      if IsSetRegister(register) {
        written := written + {register};
      }
      if register == APPLY && value == 0 {
        Commit(now);
      }
      code := None;
    }
  }

  // -------------------------------------------------------------------
  //  Laws
  // -------------------------------------------------------------------

  /** The status map and airflow a unit shows once a pending commit has settled. */
  function Shown(s: UnitState): Registers {
    if s.pending.Some? then Updated(s.registers, s.pending.value.status) else s.registers
  }

  /** `a` and `b` agree on the registers a commit reads. */
  ghost predicate SameSetSide(a: Registers, b: Registers) {
    forall r | IsSetRegister(r) :: (r in a <==> r in b) && (r in a ==> a[r] == b[r])
  }

  lemma SettleKeepsSetSide(s: UnitState, now: real)
    ensures SameSetSide(Settled(s, now).registers, s.registers)
    ensures Shown(Settled(s, now)) == Shown(s)
    ensures Settled(s, now).refused == s.refused
  {
  }

  lemma SameSideSameStatus(a: Registers, b: Registers, maxAirflow: int)
    requires SameSetSide(a, b)
    ensures ModeUpdates(a, maxAirflow) == ModeUpdates(b, maxAirflow)
  {
    assert IsSetRegister(41120) && IsSetRegister(41121) && IsSetRegister(41122)
        && IsSetRegister(41123) && IsSetRegister(41124);
  }

  /** Writing a set register changes that register and nothing a unit shows. */
  lemma StoreStages(s: UnitState, profile: Profile, register: int, value: int, now: real)
    requires IsSetRegister(register)
    ensures var t := Stored(s, profile, register, value, now);
            && SameSetSide(t.registers, s.registers[register := value])
            && (forall r | !IsCommandRegister(r) :: Get(Shown(t), r, 0) == Get(Shown(s), r, 0))
            && t.refused == s.refused
  {
    SettleKeepsSetSide(s, now);
  }

  /** The airflow of a raw level: the fixed one of a quick mode where those count, a share of the largest airflow,
      or above 200 an app preset in steps of ten; never more than the largest. */
  lemma AirflowExactly(raw: int, maxAirflow: int, quickModes: bool)
    requires ValidMax(maxAirflow)
    ensures var airflow := Airflow(raw, maxAirflow, quickModes);
            var preset := if quickModes && raw in {227, 228, 229, 230} then map[227 := 80, 228 := 20, 229 := 30, 230 := 60][raw]
                          else 10 * (raw - 200);
            if 0 <= raw <= 200 then airflow == Round(raw * maxAirflow, 200)
            else airflow == if preset < maxAirflow then preset else maxAirflow
  {
  }

  /** Sensor control is shown with bit 5 of its selector set. */
  lemma SensorBitSet(value: int)
    ensures var shown := WithSensorBit(value);
            shown / 32 % 2 == 1 && shown % 32 == value % 32 && shown / 64 == value / 64
  {
    var high, rest := value / 64, value % 64;
    assert value == 64 * high + rest && 0 <= rest < 64;
    assert value / 32 == 2 * high + rest / 32 && value % 32 == rest % 32;
    if rest < 32 {
      assert WithSensorBit(value) == 64 * high + (rest + 32);
    } else {
      assert WithSensorBit(value) == value;
    }
  }

  /** What APPLY makes of the five set registers, missing ones being at rest: the override if it is asked for,
      otherwise the mode with its own levels and the airflow they mean; sensor control leaves the airflow. */
  lemma StatusExactly(registers: Registers, maxAirflow: int)
    ensures var status := ModeUpdates(registers, maxAirflow);
            var mode := if 41120 in registers then registers[41120] else 3;
            var level := if 41121 in registers then registers[41121] else 0;
            var extract := if 41122 in registers then registers[41122] else level;
            var boost := 41123 in registers && registers[41123] == 3 && 41124 in registers && registers[41124] == 227;
            && (boost ==> var airflow := Airflow(227, maxAirflow, true); status == Status(3, 227, 227, Some((airflow, airflow))))
            && (!boost && mode == 1 ==> status == Status(1, level, level, Some((0, 0))))
            && (!boost && mode == 2 ==> status == Status(2, WithSensorBit(level), WithSensorBit(level), None))
            && (!boost && mode == 4 ==> status == Status(4, level, extract, Some((Airflow(extract, maxAirflow, false),
                                                                                   Airflow(level, maxAirflow, false)))))
            && (!boost && mode !in {1, 2, 4} ==> var airflow := Airflow(level, maxAirflow, true);
                                                 status == Status(mode, level, level, Some((airflow, airflow))))
  {
  }

  /** APPLY makes the unit show what its set registers hold, and changes none of them. */
  lemma ApplyActivates(s: UnitState, profile: Profile, now: real)
    ensures var t := Stored(s, profile, 41132, 0, now);
            var status := ModeUpdates(s.registers, profile.maxAirflow);
            && SameSetSide(t.registers, s.registers) && t.refused == s.refused
            && Get(Shown(t), 41100, 0) == status.mode
            && Get(Shown(t), 41101, 0) == status.supply
            && Get(Shown(t), 41102, 0) == status.extract
            && (status.airflow.Some? ==> Get(Shown(t), 41020, 0) == status.airflow.value.0
                                         && Get(Shown(t), 41021, 0) == status.airflow.value.1)
  {
    SettleKeepsSetSide(s, now);
    var stored := Settled(s, now).(registers := Settled(s, now).registers[APPLY := 0]);
    SameSideSameStatus(stored.registers, s.registers, profile.maxAirflow);
  }
}

/** What the integration knows about one unit. */
module Models {
  import opened Wrappers

  datatype OperationMode = Off | Manual | Unbalanced | HumidityControl | Co2Control | Automatic

  datatype Preset = Low | Medium | High | Intensive | ExtractOnly | SupplyOnly

  predicate IsSensorMode(mode: OperationMode) {
    mode == HumidityControl || mode == Co2Control || mode == Automatic
  }

  /** The groups of values whose freshness is tracked and which writes and levels depend on. */
  datatype Group = Flow | FlowControl | IntensiveGroup | ControlSettings

  /** Freshness of one group. Reads are numbered in the order they happen, from 1 on; the numbers stand
      for the timestamps that make every recorded read change this value. `attempt` is the last read
      recorded, `success` the last successful one and `successAt` its monotonic time. */
  datatype ReadHealth = ReadHealth(
    attempt: nat,
    success: nat,
    successAt: real,
    consecutiveFailures: nat,
    lastError: Option<string>)
  {
    predicate Valid() {
      && success <= attempt
      && (lastError.None? <==> success == attempt)
      && (lastError.None? ==> consecutiveFailures == 0)
    }
  }

  const EMPTY_READ_HEALTH := ReadHealth(0, 0, 0.0, 0, None)
  const READ_FAILURE_THRESHOLD: nat := 3

  /** This health after one more failed read. */
  function Failed(health: ReadHealth, number: nat, error: string): ReadHealth {
    health.(attempt := number,
            consecutiveFailures := if health.consecutiveFailures + 1 < READ_FAILURE_THRESHOLD
                                   then health.consecutiveFailures + 1 else READ_FAILURE_THRESHOLD,
            lastError := Some(error))
  }

  /** The health after a successful read. */
  function Succeeded(number: nat, at: real): ReadHealth {
    ReadHealth(number, number, at, 0, None)
  }

  /** What is known of one unit. `flowRead`, `mapRead` and `readbackRead` are the numbers of the reads that
      delivered the airflow, the base mode with its targets, and the exact target readback; `targetFrom` is the
      airflow read the target level was derived from, if the status map did not give it. */
  datatype RoomState = RoomState(
    extractAirFlow: Option<int>,
    supplyAirFlow: Option<int>,
    flowRead: nat,
    mapRead: nat,
    operationMode: Option<OperationMode>,
    presetMode: Option<Preset>,
    intensiveActive: Option<bool>,
    targetLevel: Option<int>,
    targetFrom: Option<nat>,
    balancedTargetReadback: Option<int>,
    readbackRead: nat,
    extractTargetLevel: Option<int>,
    controlSettings: map<string, int>,
    health: map<Group, ReadHealth>)
  {
    function HealthFor(group: Group): ReadHealth {
      if group in health then health[group] else EMPTY_READ_HEALTH
    }

    function WithHealth(group: Group, h: ReadHealth): RoomState {
      this.(health := health[group := h])
    }
  }

  const EMPTY_ROOM_STATE := RoomState(None, None, 0, 0, None, None, None, None, None, None, 0, None, map[], map[])
}

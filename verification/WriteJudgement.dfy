/** The outcome of each write, judged by the readbacks of its register group. */
module WriteJudgement {
  import opened Wrappers
  import opened Models
  import opened Levels
  import opened IssueTotals
  import ModeCodec

  const WRITE_CONFIRMATION_TIMEOUT_SECONDS: real := 30.0
  const WRITE_HEALTH_RETENTION_SECONDS: real := 600.0

  datatype WriteKey = AirflowLevels | OperationModeWrite | PresetModeWrite | IntensiveWrite | ControlSetting(setting: string)
  {
    predicate BaseMode() {
      AirflowLevels? || OperationModeWrite? || PresetModeWrite?
    }

    /** A running intensive override hides what this write changed. */
    predicate HiddenByIntensive() {
      AirflowLevels? || OperationModeWrite?
    }

    /** The group whose readback confirms the write. */
    function ConfirmedBy(): Group {
      if ControlSetting? then ControlSettings else FlowControl
    }

    function Name(): string {
      match this
      case AirflowLevels => "airflow_levels"
      case OperationModeWrite => "operation_mode"
      case PresetModeWrite => "preset_mode"
      case IntensiveWrite => "intensive"
      case ControlSetting(setting) => "control_setting:" + setting
    }
  }

  datatype WriteValue =
    | LevelsValue(supply: int, extract: int)
    | ModeValue(mode: OperationMode)
    | PresetValue(preset: Preset)
    | FlagValue(flag: bool)
    | SettingValue(value: int)

  /** One recorded write. `number` orders it among the reads and the other writes. */
  datatype Confirmation = Confirmation(
    number: nat,
    expected: WriteValue,
    startedAt: real,
    status: WriteStatus,
    actual: Option<WriteValue>,
    lastError: Option<string>,
    issueCounted: bool,
    baseline: ReadHealth)

  predicate Final(status: WriteStatus) {
    status == FailedWrite || status == Confirmed || status == Superseded
  }

  /** A later exact readback can still confirm the write. */
  predicate Confirmable(status: WriteStatus) {
    status == PendingReadback || status == Unconfirmed || status == Mismatch || status == Unverifiable
  }

  predicate Recent(c: Confirmation, wall: real) {
    wall - c.startedAt <= WRITE_HEALTH_RETENTION_SECONDS
  }

  predicate Late(c: Confirmation, wall: real) {
    c.status == PendingReadback && wall - c.startedAt > WRITE_CONFIRMATION_TIMEOUT_SECONDS
  }

  // -------------------------------------------------------------------
  //  Judging one write
  // -------------------------------------------------------------------

  function ReadbackValue(state: RoomState, key: WriteKey): Option<WriteValue> {
    match key
    case AirflowLevels =>
      if state.operationMode == Some(Manual) || state.operationMode == Some(Off) then
        (match state.balancedTargetReadback
         case Some(level) => Some(LevelsValue(level, level))
         case None => None)
      else if state.operationMode != Some(Unbalanced) then None
      else
        var target := TargetLevels(state, false);
        if target.supply.None? || target.extract.None? then None
        else Some(LevelsValue(target.supply.value, target.extract.value))
    case OperationModeWrite => if state.operationMode.Some? then Some(ModeValue(state.operationMode.value)) else None
    case PresetModeWrite => if state.presetMode.Some? then Some(PresetValue(state.presetMode.value)) else None
    case IntensiveWrite => if state.intensiveActive.Some? then Some(FlagValue(state.intensiveActive.value)) else None
    case ControlSetting(setting) =>
      if setting in state.controlSettings then Some(SettingValue(state.controlSettings[setting])) else None
  }

  predicate ValuesMatch(expected: WriteValue, actual: WriteValue) {
    if expected.LevelsValue? && actual.LevelsValue?
    then LevelsReached(LevelPair(Some(actual.supply), Some(actual.extract)), expected.supply, expected.extract)
    else actual == expected
  }

  /** The new outcome of a write after a readback, or nothing if it is unchanged. */
  function Checked(state: RoomState, key: WriteKey, c: Confirmation): Option<Confirmation> {
    var health := state.HealthFor(key.ConfirmedBy());
    if Final(c.status) || health.attempt == 0 || health == c.baseline then None
    else if health.lastError.Some? then
      if c.status != PendingReadback then None else Some(c.(status := Unconfirmed, lastError := health.lastError))
    else if key.HiddenByIntensive() && state.intensiveActive == Some(true) then
      if c.status == Unverifiable then None else Some(c.(status := Unverifiable, lastError := None))
    else
      match ReadbackValue(state, key)
      case None => None
      case Some(actual) =>
        var status := if ValuesMatch(c.expected, actual) then Confirmed else Mismatch;
        if c.status == status && c.actual == Some(actual) then None
        else Some(c.(status := status, actual := Some(actual), lastError := None))
  }

  /** An outcome is never replaced by itself. */
  lemma CheckedChanges(state: RoomState, key: WriteKey, c: Confirmation)
    ensures Checked(state, key, c) != Some(c)
  {
  }

  /** A write becomes confirmed exactly when it is not final yet, its group's last read succeeded and is
      not the one the write started from, no override hides the value, and the readback matches. */
  lemma ConfirmedExactly(state: RoomState, key: WriteKey, c: Confirmation)
    requires c.status != Confirmed && state.HealthFor(if key.ControlSetting? then ControlSettings else FlowControl).Valid()
    ensures var checked := Checked(state, key, c);
            var health := state.HealthFor(if key.ControlSetting? then ControlSettings else FlowControl);
            (checked.Some? && checked.value.status == Confirmed) == (
              && c.status in {PendingReadback, Unconfirmed, Mismatch, Unverifiable}
              && health.success != 0 && health.success == health.attempt && health.lastError.None?
              && health != c.baseline
              && !(key in {AirflowLevels, OperationModeWrite} && state.intensiveActive == Some(true))
              && ReadbackValue(state, key).Some? && ValuesMatch(c.expected, ReadbackValue(state, key).value))
  {
  }

  /** A confirmed level write shows both fans within two m3/h of it. */
  lemma ConfirmedLevelsNear(state: RoomState, c: Confirmation)
    requires c.expected.LevelsValue? && c.status != Confirmed
    requires Checked(state, AirflowLevels, c).Some? && Checked(state, AirflowLevels, c).value.status == Confirmed
    ensures var actual := ReadbackValue(state, AirflowLevels).value;
            && actual.LevelsValue?
            && ModeCodec.Abs(actual.supply - c.expected.supply) <= 2
            && ModeCodec.Abs(actual.extract - c.expected.extract) <= 2
  {
  }

  /** What a judging pass makes of one write, and whether it reports an issue for it. */
  function Judged(state: RoomState, key: WriteKey, c: Confirmation, wall: real): (Confirmation, Option<WriteStatus>) {
    match Checked(state, key, c)
    case Some(checked) =>
      if Unhealthy(checked.status) && !c.issueCounted then (checked.(issueCounted := true), Some(checked.status))
      else (checked, None)
    case None =>
      if Late(c, wall) && !c.issueCounted then (c.(issueCounted := true), Some(Unconfirmed))
      else (c, None)
  }

  /** The readback of a write: in a balanced mode the exact target for both fans, in the unbalanced one both
      targets, and otherwise the value that was written to. */
  lemma ReadbackMeans(state: RoomState, key: WriteKey, value: WriteValue)
    ensures ReadbackValue(state, key) == Some(value) <==>
      match key
      case AirflowLevels =>
        && value.LevelsValue?
        && (|| (state.operationMode in {Some(Manual), Some(Off)}
                && state.balancedTargetReadback == Some(value.supply) && value.supply == value.extract)
            || (state.operationMode == Some(Unbalanced)
                && state.targetLevel == Some(value.supply) && state.extractTargetLevel == Some(value.extract)))
      case OperationModeWrite => value.ModeValue? && state.operationMode == Some(value.mode)
      case PresetModeWrite => value.PresetValue? && state.presetMode == Some(value.preset)
      case IntensiveWrite => value.FlagValue? && state.intensiveActive == Some(value.flag)
      case ControlSetting(setting) =>
        value.SettingValue? && setting in state.controlSettings && state.controlSettings[setting] == value.value
  {
  }

  /** A pass makes a write mismatched exactly when it is open, its group's last read succeeded and is not the one
      the write started from, no override hides the value, and the value read is known and differs; that value is
      recorded. */
  lemma MismatchExactly(state: RoomState, key: WriteKey, c: Confirmation, wall: real)
    requires c.status != Mismatch && state.HealthFor(if key.ControlSetting? then ControlSettings else FlowControl).Valid()
    ensures var judged := Judged(state, key, c, wall).0;
            var health := state.HealthFor(if key.ControlSetting? then ControlSettings else FlowControl);
            && (judged.status == Mismatch <==>
                  && c.status in {PendingReadback, Unconfirmed, Unverifiable}
                  && health.success != 0 && health.success == health.attempt && health.lastError.None? && health != c.baseline
                  && !(key in {AirflowLevels, OperationModeWrite} && state.intensiveActive == Some(true))
                  && ReadbackValue(state, key).Some? && !ValuesMatch(c.expected, ReadbackValue(state, key).value))
            && (judged.status == Mismatch ==>
                  judged == c.(status := Mismatch, actual := ReadbackValue(state, key), lastError := None, issueCounted := true))
  {
  }

  /** It makes a write unconfirmed exactly when it was pending and its group's last read failed after the write
      was sent; the error is kept. */
  lemma UnconfirmedExactly(state: RoomState, key: WriteKey, c: Confirmation, wall: real)
    requires c.status != Unconfirmed && state.HealthFor(if key.ControlSetting? then ControlSettings else FlowControl).Valid()
    ensures var judged := Judged(state, key, c, wall).0;
            var health := state.HealthFor(if key.ControlSetting? then ControlSettings else FlowControl);
            && (judged.status == Unconfirmed <==>
                  c.status == PendingReadback && health.attempt != 0 && health.lastError.Some? && health != c.baseline)
            && (judged.status == Unconfirmed ==>
                  judged == c.(status := Unconfirmed, lastError := health.lastError, issueCounted := true))
  {
  }

  /** It makes a write unverifiable exactly when it is open, its group's last read succeeded and is not the one the
      write started from, and that read shows an override which hides what was written. */
  lemma UnverifiableExactly(state: RoomState, key: WriteKey, c: Confirmation, wall: real)
    requires c.status != Unverifiable && state.HealthFor(if key.ControlSetting? then ControlSettings else FlowControl).Valid()
    ensures var judged := Judged(state, key, c, wall).0;
            var health := state.HealthFor(if key.ControlSetting? then ControlSettings else FlowControl);
            && (judged.status == Unverifiable <==>
                  && c.status in {PendingReadback, Unconfirmed, Mismatch}
                  && health.success != 0 && health.success == health.attempt && health.lastError.None? && health != c.baseline
                  && key in {AirflowLevels, OperationModeWrite} && state.intensiveActive == Some(true))
            && (judged.status == Unverifiable ==> judged == c.(status := Unverifiable, lastError := None))
  {
  }

  /** A pass changes nothing else of a write but the value it shows while it stays mismatched. */
  lemma OtherwiseUnchanged(state: RoomState, key: WriteKey, c: Confirmation, wall: real)
    requires Judged(state, key, c, wall).0.status == c.status
    ensures var judged := Judged(state, key, c, wall).0;
            var health := state.HealthFor(if key.ControlSetting? then ControlSettings else FlowControl);
            && judged == c.(actual := judged.actual, lastError := judged.lastError, issueCounted := judged.issueCounted)
            && (c.status != Mismatch ==> judged.actual == c.actual && judged.lastError == c.lastError)
            && (c.status == Mismatch && (judged.actual != c.actual || judged.lastError != c.lastError) ==>
                  health != c.baseline && judged.actual == ReadbackValue(state, key) && judged.lastError == None)
  {
  }

  /** A pass reports a write that was not reported before exactly when it is then failed, mismatched or
      unconfirmed, or is still pending after half a minute, which counts as unconfirmed. */
  lemma IssueExactly(state: RoomState, key: WriteKey, c: Confirmation, wall: real)
    requires c.status in {FailedWrite, Mismatch, Unconfirmed} ==> c.issueCounted
    ensures var (judged, issue) := Judged(state, key, c, wall);
            && judged.issueCounted == (c.issueCounted || issue.Some?)
            && (issue.Some? <==>
                  && !c.issueCounted
                  && (|| judged.status in {FailedWrite, Mismatch, Unconfirmed}
                      || (judged.status == PendingReadback && wall - c.startedAt > 30.0)))
            && (issue.Some? ==> issue.value == if judged.status == PendingReadback then Unconfirmed else judged.status)
  {
  }

  // -------------------------------------------------------------------
  //  Exact target readback
  // -------------------------------------------------------------------

  predicate FlowReached(state: RoomState, previous: RoomState, readback: int, mono: real) {
    GroupFresh(state, Flow, mono)
    && (LevelsReached(LevelPair(state.supplyAirFlow, state.extractAirFlow), readback, readback)
        || LevelsReached(LevelPair(previous.supplyAirFlow, previous.extractAirFlow), readback, readback))
  }

  /** Fresh measured airflow shows that the target went back to its coarse step. */
  predicate SupersededByFlow(state: RoomState, previous: RoomState, readback: int, recentWrite: bool, mono: real) {
    && GroupFresh(state, Flow, mono) && state.targetLevel.Some?
    && state.supplyAirFlow.Some? && state.extractAirFlow.Some?
    && !LevelsReached(LevelPair(state.supplyAirFlow, state.extractAirFlow), readback, readback)
    && LevelsReached(LevelPair(state.supplyAirFlow, state.extractAirFlow), state.targetLevel.value, state.targetLevel.value)
    && (!recentWrite || LevelsReached(LevelPair(previous.supplyAirFlow, previous.extractAirFlow), readback, readback))
  }

  // -------------------------------------------------------------------
  //  The writes of one unit
  // -------------------------------------------------------------------

  /** A call of the issue callback. */
  datatype Issue = Issue(number: nat, key: WriteKey, status: WriteStatus)

  type Writes = map<WriteKey, Confirmation>

  /** At most one base-mode write is still open. */
  predicate OneBaseOpen(writes: Writes) {
    forall a: WriteKey, b: WriteKey | a in writes && b in writes && a.BaseMode() && b.BaseMode() && a != b ::
      Final(writes[a].status) || Final(writes[b].status)
  }

  /** The issues reported so far: at most one for each recorded write, and for exactly the recorded
      writes that are marked as counted; an unhealthy outcome is always counted. */
  predicate IssuesCounted(writes: Writes, issues: seq<Issue>, next: nat) {
    && (forall k | k in writes :: writes[k].number < next)
    && (forall a, b | a in writes && b in writes && a != b :: writes[a].number != writes[b].number)
    && (forall i | 0 <= i < |issues| :: issues[i].number < next && Unhealthy(issues[i].status))
    && (forall i, j | 0 <= i < j < |issues| :: issues[i].number != issues[j].number)
    && (forall k | k in writes :: writes[k].issueCounted <==> Reported(issues, writes[k].number))
    && (forall k | k in writes :: Unhealthy(writes[k].status) ==> writes[k].issueCounted)
  }

  predicate Reported(issues: seq<Issue>, number: nat) {
    exists i | 0 <= i < |issues| :: issues[i].number == number
  }

  /** The numbers of the writes that were reported. */
  function IssueNumbers(issues: seq<Issue>): set<nat> {
    set i | 0 <= i < |issues| :: issues[i].number
  }

  lemma IssueNumbersNext(issues: seq<Issue>, number: nat, key: WriteKey, issue: Option<WriteStatus>)
    ensures IssueNumbers(issues + IssueOf(number, key, issue))
         == IssueNumbers(issues) + (if issue.Some? then {number} else {})
  {
    var longer := issues + IssueOf(number, key, issue);
    forall n | n in IssueNumbers(issues)
      ensures n in IssueNumbers(longer)
    {
      var i :| 0 <= i < |issues| && issues[i].number == n;
      assert longer[i].number == n;
    }
    if issue.Some? {
      assert longer[|issues|].number == number;
    } else {
      assert longer == issues;
    }
  }

  /** Issues for different writes are as many as their numbers. */
  lemma {:induction false} IssueNumbersCount(issues: seq<Issue>)
    requires forall i, j | 0 <= i < j < |issues| :: issues[i].number != issues[j].number
    ensures |IssueNumbers(issues)| == |issues|
  {
    if issues != [] {
      var before, last := issues[..|issues| - 1], issues[|issues| - 1];
      IssueNumbersCount(before);
      IssueNumbersNext(before, last.number, last.key, Some(last.status));
      assert issues == before + IssueOf(last.number, last.key, Some(last.status));
      assert last.number !in IssueNumbers(before);
    }
  }

  /** The counters after `issues` of one room. */
  function AfterIssues(m: ByRoom, room: string, issues: seq<Issue>): ByRoom {
    if issues == [] then m
    else
      var last := issues[|issues| - 1];
      AfterIssue(AfterIssues(m, room, issues[..|issues| - 1]), room, last.key.Name(), last.status)
  }

  lemma AfterIssuesNext(m: ByRoom, room: string, issues: seq<Issue>, issue: Issue)
    ensures AfterIssues(m, room, issues + [issue])
         == AfterIssue(AfterIssues(m, room, issues), room, issue.key.Name(), issue.status)
  {
    assert (issues + [issue])[..|issues|] == issues;
  }

  /** The reported issues of one command and status. */
  function ReportsOf(issues: seq<Issue>, key: WriteKey, status: WriteStatus): nat {
    if issues == [] then 0
    else
      var last := issues[|issues| - 1];
      ReportsOf(issues[..|issues| - 1], key, status) + (if last.key == key && last.status == status then 1 else 0)
  }

  /** Different commands are counted under different names. */
  lemma NamesDiffer(a: WriteKey, b: WriteKey)
    requires a.Name() == b.Name()
    ensures a == b
  {
    if a.ControlSetting? && b.ControlSetting? {
      assert a.Name()[|"control_setting:"|..] == a.setting;
      assert b.Name()[|"control_setting:"|..] == b.setting;
    }
    assert a.Name()[0] == b.Name()[0] && a.Name()[1] == b.Name()[1];
  }

  /** Each counter of a room grows by the issues reported for its command and category; those of other rooms
      stay. */
  lemma {:induction false} CounterExactly(m: ByRoom, room: string, issues: seq<Issue>, r: string, key: WriteKey, status: WriteStatus)
    requires status in {FailedWrite, Mismatch, Unconfirmed}
    ensures var category := if status == FailedWrite then "send_failure"
                            else if status == Mismatch then "readback_mismatch" else "unconfirmed";
            Count(AfterIssues(m, room, issues), r, category, key.Name())
            == Count(m, r, category, key.Name()) + (if r == room then ReportsOf(issues, key, status) else 0)
  {
    if issues != [] {
      var before, last := issues[..|issues| - 1], issues[|issues| - 1];
      CounterExactly(m, room, before, r, key, status);
      var category := if status == FailedWrite then "send_failure"
                      else if status == Mismatch then "readback_mismatch" else "unconfirmed";
      CountAfterIssue(AfterIssues(m, room, before), room, last.key.Name(), last.status, r, category, key.Name());
      if last.key.Name() == key.Name() {
        NamesDiffer(last.key, key);
      }
    }
  }

  /** The total grows by every issue. */
  lemma {:induction false} TotalExactly(m: ByRoom, room: string, issues: seq<Issue>)
    requires forall i | 0 <= i < |issues| :: Unhealthy(issues[i].status)
    ensures Total(AfterIssues(m, room, issues)) == Total(m) + |issues|
  {
    if issues != [] {
      var before, last := issues[..|issues| - 1], issues[|issues| - 1];
      TotalExactly(m, room, before);
      TotalAfterIssue(AfterIssues(m, room, before), room, last.key.Name(), last.status);
    }
  }

  /** A write's outcome may be replaced by `c`, which reports `issue`. */
  predicate MayBecome(before: Confirmation, c: Confirmation, key: WriteKey, issue: Option<WriteStatus>) {
    && c.number == before.number
    && (key.BaseMode() && !Final(c.status) ==> !Final(before.status))
    && (Unhealthy(c.status) ==> c.issueCounted)
    && (if issue.Some? then !before.issueCounted && c.issueCounted && Unhealthy(issue.value)
        else c.issueCounted == before.issueCounted)
  }

  function IssueOf(number: nat, key: WriteKey, issue: Option<WriteStatus>): seq<Issue> {
    if issue.Some? then [Issue(number, key, issue.value)] else []
  }

  lemma ReportedNext(issues: seq<Issue>, issue: Issue, number: nat)
    ensures Reported(issues + [issue], number) <==> Reported(issues, number) || issue.number == number
  {
    var longer := issues + [issue];
    assert longer[|issues|] == issue;
    if Reported(issues, number) {
      var i :| 0 <= i < |issues| && issues[i].number == number;
      assert longer[i].number == number;
    }
  }

  lemma PutKeepsCount(writes: Writes, issues: seq<Issue>, next: nat, key: WriteKey, c: Confirmation,
                      issue: Option<WriteStatus>)
    requires IssuesCounted(writes, issues, next) && key in writes && MayBecome(writes[key], c, key, issue)
    ensures IssuesCounted(writes[key := c], issues + IssueOf(c.number, key, issue), next)
  {
    if issue.Some? {
      forall k | k in writes
        ensures Reported(issues + IssueOf(c.number, key, issue), writes[k].number)
           <==> Reported(issues, writes[k].number) || k == key
      {
        ReportedNext(issues, Issue(c.number, key, issue.value), writes[k].number);
      }
    } else {
      assert issues + [] == issues;
    }
  }

  lemma PutKeeps(writes: Writes, issues: seq<Issue>, next: nat, key: WriteKey, c: Confirmation, issue: Option<WriteStatus>)
    requires IssuesCounted(writes, issues, next) && key in writes && MayBecome(writes[key], c, key, issue)
    ensures IssuesCounted(writes[key := c], issues + IssueOf(c.number, key, issue), next)
    ensures OneBaseOpen(writes) ==> OneBaseOpen(writes[key := c])
  {
    PutKeepsCount(writes, issues, next, key, c, issue);
  }

  class WriteConfirmations {
    const room: string
    const diagnostics: CumulativeDiagnostics
    var writes: Writes
    var balancedFlowConverged: bool
    // The persisted counters at the start, and every call of the issue callback since.
    ghost const stored: ByRoom
    ghost var issues: seq<Issue>
    // The next number of a read or write.
    var next: nat

    /** The persisted counters are those that the issues lead to. */
    ghost predicate Valid()
      reads this, diagnostics
    {
      IssuesCounted(writes, issues, next) && diagnostics.writeIssues == AfterIssues(stored, room, issues)
    }

    constructor (room: string, diagnostics: CumulativeDiagnostics)
      ensures Valid() && this.diagnostics == diagnostics && writes == map[] && issues == [] && next == 1
    {
      this.room, this.diagnostics, stored := room, diagnostics, diagnostics.writeIssues;
      writes, balancedFlowConverged, next := map[], false, 1;
      issues := [];
    }

    /** The next number of a read or write. */
    method Take() returns (number: nat)
      requires Valid()
      modifies `next
      ensures Valid() && number == old(next) && next == number + 1
    {
      number := next;
      next := next + 1;
    }

    method OnIssue(number: nat, key: WriteKey, status: WriteStatus)
      requires diagnostics.writeIssues == AfterIssues(stored, room, issues)
      modifies diagnostics, `issues
      ensures issues == old(issues) + [Issue(number, key, status)]
      ensures diagnostics.writeIssues == AfterIssues(stored, room, issues)
    {
      AfterIssuesNext(stored, room, issues, Issue(number, key, status));
      diagnostics.RecordWriteIssue(room, key.Name(), status);
      issues := issues + [Issue(number, key, status)];
    }

    /** Record a write the transport accepted. */
    method RecordPending(key: WriteKey, expected: WriteValue, baseline: ReadHealth, wall: real)
      requires Valid()
      modifies `writes, `next, `balancedFlowConverged
      ensures Valid() && next == old(next) + 1
      ensures writes == old(writes)[key :=
                Confirmation(old(next), expected, wall, PendingReadback, None, None, false, baseline)]
      ensures balancedFlowConverged == (old(balancedFlowConverged) && !key.AirflowLevels?)
    {
      if key.AirflowLevels? {
        balancedFlowConverged := false;
      }
      RecordFresh(writes, issues, next, key, Recorded(next, expected, wall, baseline));
      writes := writes[key := Recorded(next, expected, wall, baseline)];
      next := next + 1;
    }

    /** Replace the outcome of a write, reporting an issue if it is the write's first. */
    method Put(key: WriteKey, c: Confirmation, issue: Option<WriteStatus>)
      requires Valid() && key in writes && MayBecome(writes[key], c, key, issue)
      modifies `writes, `issues, diagnostics
      ensures Valid() && writes == old(writes)[key := c] && issues == old(issues) + IssueOf(c.number, key, issue)
      ensures OneBaseOpen(old(writes)) ==> OneBaseOpen(writes)
    {
      PutKeeps(writes, issues, next, key, c, issue);
      Report(c.number, key, issue);
      writes := writes[key := c];
    }

    method Report(number: nat, key: WriteKey, issue: Option<WriteStatus>)
      requires diagnostics.writeIssues == AfterIssues(stored, room, issues)
      modifies diagnostics, `issues
      ensures issues == old(issues) + IssueOf(number, key, issue)
      ensures diagnostics.writeIssues == AfterIssues(stored, room, issues)
    {
      if issue.Some? {
        OnIssue(number, key, issue.value);
      }
    }

    method SupersedeOne(key: WriteKey, previous: WriteKey) returns (replaced: bool)
      requires Valid() && previous in writes
      modifies `writes, `issues, diagnostics
      ensures Valid() && issues == old(issues)
      ensures replaced == (Replaces(key, previous) && !Final(old(writes)[previous].status))
      ensures writes == if replaced then old(writes)[previous := old(writes)[previous].(status := Superseded)] else old(writes)
    {
      replaced := Replaces(key, previous) && !Final(writes[previous].status);
      if replaced {
        Put(previous, writes[previous].(status := Superseded), None);
      }
    }

    /** Finish the open base-mode writes that an accepted command replaces. */
    method Supersede(key: WriteKey) returns (superseded: set<WriteKey>)
      requires Valid()
      modifies `writes, `issues, diagnostics
      ensures Valid() && issues == old(issues) && writes.Keys == old(writes).Keys
      ensures SupersededAll(old(writes), writes, key, {}, superseded)
    {
      superseded := {};
      var rest := writes.Keys;
      while rest != {}
        invariant Valid() && issues == old(issues) && rest <= writes.Keys == old(writes).Keys
        invariant SupersededAll(old(writes), writes, key, rest, superseded)
        decreases rest
      {
        var k := AnyOf(rest);
        SupersededNext(old(writes), writes, key, rest, superseded, k);
        var replaced := SupersedeOne(key, k);
        superseded := if replaced then superseded + {k} else superseded;
        rest := rest - {k};
      }
    }

    method SetStatus(key: WriteKey, status: WriteStatus, error: Option<string>) returns (existed: bool)
      requires Valid()
      requires key in writes && !Final(status) ==> !Final(writes[key].status)
      modifies `writes, `issues, diagnostics
      ensures Valid() && existed == (key in old(writes))
      ensures !existed ==> writes == old(writes) && issues == old(issues)
      ensures existed ==>
                var c := old(writes)[key];
                var unhealthy := status in {FailedWrite, Mismatch, Unconfirmed};
                && writes == old(writes)[key := c.(status := status, actual := None, lastError := error,
                                                   issueCounted := c.issueCounted || unhealthy)]
                && issues == old(issues) + if unhealthy && !c.issueCounted then [Issue(c.number, key, status)] else []
    {
      existed := key in writes;
      if existed {
        var c := writes[key];
        Put(key, WithStatus(c, status, error), if Unhealthy(status) && !c.issueCounted then Some(status) else None);
      }
    }

    /** Record a write and at once an unhealthy outcome, as for a cancelled or failed command. */
    method RecordWithIssue(key: WriteKey, expected: WriteValue, baseline: ReadHealth, wall: real,
                           status: WriteStatus, error: string)
      requires Valid() && Unhealthy(status)
      modifies `writes, `next, `balancedFlowConverged, `issues, diagnostics
      ensures Valid() && next == old(next) + 1
      ensures writes == old(writes)[key := WithStatus(Recorded(old(next), expected, wall, baseline), status, Some(error))]
      ensures issues == old(issues) + [Issue(old(next), key, status)]
    {
      ghost var before, number := writes, next;
      RecordPending(key, expected, baseline, wall);
      var _ := SetStatus(key, status, Some(error));
      PutTwice(before, key, Recorded(number, expected, wall, baseline), writes[key]);
    }

    /** Record an accepted write; the open base-mode writes it replaces are superseded. */
    method Replace(key: WriteKey, expected: WriteValue, baseline: ReadHealth, wall: real) returns (superseded: set<WriteKey>)
      requires Valid()
      modifies `writes, `next, `balancedFlowConverged, `issues, diagnostics
      ensures Valid() && next == old(next) + 1 && issues == old(issues)
      ensures superseded == Replaced(old(writes), key)
      ensures writes == WithRecorded(old(writes), key, Recorded(old(next), expected, wall, baseline))
    {
      ghost var before := writes;
      superseded := Supersede(key);
      SupersededExactly(before, writes, key, superseded, Recorded(next, expected, wall, baseline));
      RecordPending(key, expected, baseline, wall);
    }

    /** Record a write that may have been accepted, as unconfirmed. */
    method ReplaceUnconfirmed(key: WriteKey, expected: WriteValue, baseline: ReadHealth, wall: real, error: string)
      requires Valid()
      modifies `writes, `next, `balancedFlowConverged, `issues, diagnostics
      ensures Valid() && next == old(next) + 1
      ensures writes == WithRecorded(old(writes), key,
                WithStatus(Recorded(old(next), expected, wall, baseline), Unconfirmed, Some(error)))
      ensures issues == old(issues) + [Issue(old(next), key, Unconfirmed)]
    {
      ghost var before := writes;
      var superseded := Supersede(key);
      SupersededExactly(before, writes, key, superseded,
                        WithStatus(Recorded(next, expected, wall, baseline), Unconfirmed, Some(error)));
      RecordWithIssue(key, expected, baseline, wall, Unconfirmed, error);
    }

    /** Mark a write unconfirmed if it is still pending. */
    method MarkUnconfirmed(key: WriteKey, error: string) returns (changed: bool)
      requires Valid()
      modifies `writes, `issues, diagnostics
      ensures Valid() && changed == (key in old(writes) && old(writes)[key].status == PendingReadback)
      ensures writes == if changed then old(writes)[key := WithStatus(old(writes)[key], Unconfirmed, Some(error))]
                        else old(writes)
      ensures issues == if changed then old(issues) + IssueOf(old(writes)[key].number, key,
                                          if old(writes)[key].issueCounted then None else Some(Unconfirmed))
                        else old(issues)
    {
      changed := key in writes && writes[key].status == PendingReadback;
      if changed {
        var _ := SetStatus(key, Unconfirmed, Some(error));
      }
    }

    method JudgeOne(key: WriteKey, state: RoomState, wall: real) returns (changed: bool)
      requires Valid() && key in writes
      modifies `writes, `issues, diagnostics
      ensures Valid()
      ensures var judged := Judged(state, key, old(writes)[key], wall);
              && writes == old(writes)[key := judged.0]
              && issues == old(issues) + IssueOf(judged.0.number, key, judged.1)
      ensures changed <==> writes[key] != old(writes)[key]
      ensures OneBaseOpen(old(writes)) ==> OneBaseOpen(writes)
    {
      var c := writes[key];
      CheckedChanges(state, key, c);
      var checked := Checked(state, key, c);
      JudgedMayBecome(state, key, c, wall);
      if checked.Some? {
        changed := true;
        if Unhealthy(checked.value.status) && !c.issueCounted {
          Put(key, checked.value.(issueCounted := true), Some(checked.value.status));
        } else {
          Put(key, checked.value, None);
        }
        return;
      }
      changed := Late(c, wall) && !c.issueCounted;
      if changed {
        Put(key, c.(issueCounted := true), Some(Unconfirmed));
      } else {
        assert writes[key := c] == writes;
      }
    }

    /** Judge every write by the latest readback. */
    method Confirm(state: RoomState, wall: real) returns (changed: bool)
      requires Valid()
      modifies `writes, `issues, diagnostics
      ensures Valid() && old(issues) <= issues && (OneBaseOpen(old(writes)) ==> OneBaseOpen(writes))
      ensures JudgedAll(old(writes), writes, issues, state, wall, {})
      ensures writes == JudgedWrites(old(writes), state, wall)
      ensures IssueNumbers(issues)
           == IssueNumbers(old(issues)) + NumbersOf(old(writes), ReportKeys(old(writes), state, wall))
      ensures changed <==> writes != old(writes)
    {
      changed := false;
      var rest := writes.Keys;
      ghost var start, first := writes, issues;
      while rest != {}
        invariant Valid() && rest <= writes.Keys && first <= issues
        invariant OneBaseOpen(start) ==> OneBaseOpen(writes)
        invariant JudgedAll(start, writes, issues, state, wall, rest)
        invariant ReportedAll(start, first, issues, state, wall, rest)
        invariant changed == Changed(start, writes, rest)
        decreases rest
      {
        var k := AnyOf(rest);
        ghost var before, earlier := writes, issues;
        var one := JudgeOne(k, state, wall);
        JudgedNext(start, before, earlier, state, wall, rest, k);
        ReportsNext(start, before, earlier, first, state, wall, rest, k);
        ChangedNext(start, before, rest, k, writes[k]);
        changed := changed || one;
        rest := rest - {k};
      }
      JudgedExactly(start, writes, issues, state, wall);
      ChangedExactly(start, writes);
      assert ReportKeys(start, state, wall) - {} == ReportKeys(start, state, wall);
    }

    predicate NeedsConfirmation(key: WriteKey, wall: real)
      reads `writes
    {
      key in writes && Confirmable(writes[key].status) && Recent(writes[key], wall)
    }

    predicate HasRecentWrite(key: WriteKey, wall: real)
      reads `writes
    {
      key in writes && Recent(writes[key], wall)
    }

    /** The state to go on with, and whether register 41121 must be read to confirm a write. */
    method PrepareBalancedTargetReadback(state: RoomState, previous: RoomState, wall: real, mono: real)
      returns (prepared: RoomState, mustRead: bool)
      modifies `balancedFlowConverged
      ensures mustRead <==> Readable(state, mono) && NeedsConfirmation(AirflowLevels, wall)
      ensures mustRead <==>
                && GroupFresh(state, FlowControl, mono) && state.intensiveActive != Some(true)
                && state.operationMode in {Some(Manual), Some(Off)} && AirflowLevels in writes
                && writes[AirflowLevels].status in {PendingReadback, Unconfirmed, Mismatch, Unverifiable}
                && wall - writes[AirflowLevels].startedAt <= 600.0
      ensures !Readable(state, mono) || mustRead ==> prepared == state && balancedFlowConverged == old(balancedFlowConverged)
      ensures Readable(state, mono) && !mustRead ==>
                var converged := Converged(old(balancedFlowConverged), state, previous, mono);
                var recent := AirflowLevels in writes && wall - writes[AirflowLevels].startedAt <= 600.0;
                var carried := Carries(state, previous, recent && !converged, mono);
                prepared == (if carried then Carried(state, previous) else state)
                && balancedFlowConverged == (carried && converged)
    {
      prepared, mustRead := state, false;
      if !Readable(state, mono) {
        return;
      }
      if NeedsConfirmation(AirflowLevels, wall) {
        mustRead := true;
        return;
      }
      var readback := previous.balancedTargetReadback;
      if readback.Some? && FlowReached(state, previous, readback.value, mono) {
        balancedFlowConverged := true;
      }
      if readback.Some? && state.operationMode == previous.operationMode && state.presetMode.None?
         && state.targetLevel == previous.targetLevel
         && !SupersededByFlow(state, previous, readback.value,
                              HasRecentWrite(AirflowLevels, wall) && !balancedFlowConverged, mono)
      {
        prepared := Carried(state, previous);
        return;
      }
      balancedFlowConverged := false;
    }
  }

  /** Measured airflow has reached the exact target at some time since it was written. */
  predicate Converged(before: bool, state: RoomState, previous: RoomState, mono: real) {
    before || (previous.balancedTargetReadback.Some? && FlowReached(state, previous, previous.balancedTargetReadback.value, mono))
  }

  /** Nothing speaks against the exact target that was known before. */
  predicate Carries(state: RoomState, previous: RoomState, settling: bool, mono: real) {
    && previous.balancedTargetReadback.Some?
    && state.operationMode == previous.operationMode && state.presetMode.None?
    && state.targetLevel == previous.targetLevel
    && !SupersededByFlow(state, previous, previous.balancedTargetReadback.value, settling, mono)
  }

  /** Both fans are within two m3/h of `level`. */
  predicate BothNear(supply: Option<int>, extract: Option<int>, level: int) {
    supply.Some? && extract.Some? && -2 <= supply.value - level <= 2 && -2 <= extract.value - level <= 2
  }

  /** The exact target known before stays, in the same mode and at the same coarse target, unless a preset runs or
      fresh airflow has left it for the coarse target; a write still settling must have been there first. */
  lemma CarriesExactly(state: RoomState, previous: RoomState, settling: bool, mono: real)
    ensures Carries(state, previous, settling, mono) <==>
              && previous.balancedTargetReadback.Some? && state.presetMode == None
              && state.operationMode == previous.operationMode && state.targetLevel == previous.targetLevel
              && var exact := previous.balancedTargetReadback.value;
                 !(&& GroupFresh(state, Flow, mono) && state.targetLevel.Some?
                   && BothNear(state.supplyAirFlow, state.extractAirFlow, state.targetLevel.value)
                   && !BothNear(state.supplyAirFlow, state.extractAirFlow, exact)
                   && (settling ==> BothNear(previous.supplyAirFlow, previous.extractAirFlow, exact)))
  {
  }

  /** It was reached once fresh airflow, or the airflow before, was near it. */
  lemma ConvergedExactly(before: bool, state: RoomState, previous: RoomState, mono: real)
    ensures Converged(before, state, previous, mono) <==>
              || before
              || (previous.balancedTargetReadback.Some? && GroupFresh(state, Flow, mono)
                  && var exact := previous.balancedTargetReadback.value;
                     || BothNear(state.supplyAirFlow, state.extractAirFlow, exact)
                     || BothNear(previous.supplyAirFlow, previous.extractAirFlow, exact))
  {
  }

  function Carried(state: RoomState, previous: RoomState): RoomState {
    state.(balancedTargetReadback := previous.balancedTargetReadback, readbackRead := previous.readbackRead)
  }

  /** The status map is fresh, shows no override, and a mode with one balanced target. */
  predicate Readable(state: RoomState, mono: real) {
    && GroupFresh(state, FlowControl, mono) && state.intensiveActive != Some(true)
    && (state.operationMode == Some(Manual) || state.operationMode == Some(Off))
  }

  predicate Replaces(key: WriteKey, previous: WriteKey) {
    key.BaseMode() && previous != key && previous.BaseMode()
  }

  function Recorded(number: nat, expected: WriteValue, wall: real, baseline: ReadHealth): Confirmation {
    Confirmation(number, expected, wall, PendingReadback, None, None, false, baseline)
  }

  lemma PutTwice(writes: Writes, key: WriteKey, a: Confirmation, b: Confirmation)
    ensures writes[key := a][key := b] == writes[key := b]
  {
  }

  lemma RecordFresh(writes: Writes, issues: seq<Issue>, next: nat, key: WriteKey, c: Confirmation)
    requires IssuesCounted(writes, issues, next)
    requires c.number == next && c.status == PendingReadback && !c.issueCounted
    ensures IssuesCounted(writes[key := c], issues, next + 1)
  {
    assert !Reported(issues, next);
  }

  /** Once the writes it replaces are superseded, a new open base-mode write is the only one. */
  lemma RecordKeepsOneOpen(before: Writes, superseded: Writes, key: WriteKey, keys: set<WriteKey>, c: Confirmation)
    requires OneBaseOpen(before) && SupersededAll(before, superseded, key, {}, keys)
    ensures OneBaseOpen(superseded[key := c])
  {
  }

  /** A final outcome leaves the other base-mode writes as they were. */
  lemma FinalKeepsOneOpen(before: Writes, key: WriteKey, c: Confirmation)
    requires OneBaseOpen(before) && Final(c.status)
    ensures OneBaseOpen(before[key := c])
  {
  }

  function WithStatus(c: Confirmation, status: WriteStatus, error: Option<string>): Confirmation {
    c.(status := status, actual := None, lastError := error, issueCounted := c.issueCounted || Unhealthy(status))
  }

  /** Every key outside `rest` was visited: the open writes that `key` replaces are superseded, no other
      write has changed. */
  predicate SupersededAll(before: Writes, after: Writes, key: WriteKey, rest: set<WriteKey>, superseded: set<WriteKey>) {
    && before.Keys == after.Keys
    && (forall k | k in superseded :: k in before && k !in rest && Replaces(key, k) && !Final(before[k].status))
    && (forall k | k in before && k !in rest && Replaces(key, k) && !Final(before[k].status) :: k in superseded)
    && (forall k | k in before :: after[k] == if k in superseded then before[k].(status := Superseded) else before[k])
  }

  lemma SupersededNext(start: Writes, before: Writes, key: WriteKey, rest: set<WriteKey>, superseded: set<WriteKey>,
                       k: WriteKey)
    requires SupersededAll(start, before, key, rest, superseded) && k in rest && k in start
    ensures before[k] == start[k]
    ensures if Replaces(key, k) && !Final(before[k].status)
            then SupersededAll(start, before[k := before[k].(status := Superseded)], key, rest - {k}, superseded + {k})
            else SupersededAll(start, before, key, rest - {k}, superseded)
  {
  }

  /** The open base-mode writes that a write under `key` replaces. */
  function Replaced(writes: Writes, key: WriteKey): set<WriteKey> {
    set k | k in writes && Replaces(key, k) && !Final(writes[k].status)
  }

  /** A new base-mode write finishes the open writes under the two other base-mode keys, and changes no other. */
  lemma ReplacedExactly(writes: Writes, key: WriteKey, c: Confirmation, k: WriteKey)
    requires k in writes && k != key
    ensures WithRecorded(writes, key, c).Keys == writes.Keys + {key} && WithRecorded(writes, key, c)[key] == c
    ensures key !in Replaced(writes, key)
    ensures var after := WithRecorded(writes, key, c)[k];
            if {k, key} <= {AirflowLevels, OperationModeWrite, PresetModeWrite}
               && writes[k].status in {PendingReadback, Unconfirmed, Mismatch, Unverifiable}
            then k in Replaced(writes, key) && after == writes[k].(status := Superseded)
            else k !in Replaced(writes, key) && after == writes[k]
  {
    assert {k, key} <= {AirflowLevels, OperationModeWrite, PresetModeWrite} <==> k.BaseMode() && key.BaseMode();
  }

  /** `c` recorded under `key`, and what it replaces superseded. */
  function WithRecorded(writes: Writes, key: WriteKey, c: Confirmation): Writes {
    (map k | k in writes :: if k in Replaced(writes, key) then writes[k].(status := Superseded) else writes[k])[key := c]
  }

  lemma SupersededExactly(before: Writes, after: Writes, key: WriteKey, superseded: set<WriteKey>, c: Confirmation)
    requires SupersededAll(before, after, key, {}, superseded)
    ensures superseded == Replaced(before, key) && after[key := c] == WithRecorded(before, key, c)
  {
  }

  lemma JudgedMayBecome(state: RoomState, key: WriteKey, c: Confirmation, wall: real)
    requires Unhealthy(c.status) ==> c.issueCounted
    ensures MayBecome(c, Judged(state, key, c, wall).0, key, Judged(state, key, c, wall).1)
    ensures Judged(state, key, c, wall).1.Some?
       <==> !c.issueCounted && (Unhealthy(Judged(state, key, c, wall).0.status) || Late(Judged(state, key, c, wall).0, wall))
    ensures Final(c.status) ==> Judged(state, key, c, wall).0.status == c.status
  {
  }

  /** A pass changes the outcome of a write, never which write it is. */
  lemma JudgedKeepsWrite(state: RoomState, key: WriteKey, c: Confirmation, wall: real)
    ensures var judged := Judged(state, key, c, wall).0;
            && judged.number == c.number && judged.baseline == c.baseline
            && judged.startedAt == c.startedAt && judged.expected == c.expected
            && (Confirmable(judged.status) ==> Confirmable(c.status))
            && (Final(c.status) ==> judged.status == c.status)
            && (judged.status == Confirmed && c.status != Confirmed ==>
                  Checked(state, key, c).Some? && Checked(state, key, c).value.status == Confirmed)
  {
  }

  /** Every write outside `rest` was judged, and the issue it gave rise to was reported. */
  predicate JudgedAll(before: Writes, after: Writes, issues: seq<Issue>, state: RoomState, wall: real, rest: set<WriteKey>) {
    && before.Keys == after.Keys
    && (forall k | k in before && k in rest :: after[k] == before[k])
    && (forall k | k in before && k !in rest :: JudgedOne(before[k], after[k], issues, k, state, wall))
  }

  /** What a judging pass makes of the writes. */
  function JudgedWrites(writes: Writes, state: RoomState, wall: real): Writes {
    map k | k in writes :: Judged(state, k, writes[k], wall).0
  }

  /** The writes a judging pass reports. */
  function ReportKeys(writes: Writes, state: RoomState, wall: real): set<WriteKey> {
    set k | k in writes && Judged(state, k, writes[k], wall).1.Some?
  }

  function NumbersOf(writes: Writes, keys: set<WriteKey>): set<nat>
    requires keys <= writes.Keys
  {
    set k | k in keys :: writes[k].number
  }

  /** The issues since `first` are for the writes outside `rest` that a judging pass reports. */
  predicate ReportedAll(start: Writes, first: seq<Issue>, issues: seq<Issue>, state: RoomState, wall: real, rest: set<WriteKey>) {
    IssueNumbers(issues) == IssueNumbers(first) + NumbersOf(start, ReportKeys(start, state, wall) - rest)
  }

  lemma ReportsNext(start: Writes, before: Writes, earlier: seq<Issue>, first: seq<Issue>, state: RoomState, wall: real,
                    rest: set<WriteKey>, key: WriteKey)
    requires key in start && key in rest && key in before && before[key] == start[key]
    requires ReportedAll(start, first, earlier, state, wall, rest)
    ensures var judged := Judged(state, key, before[key], wall);
            ReportedAll(start, first, earlier + IssueOf(judged.0.number, key, judged.1), state, wall, rest - {key})
  {
    var judged, keys := Judged(state, key, before[key], wall), ReportKeys(start, state, wall);
    IssueNumbersNext(earlier, judged.0.number, key, judged.1);
    JudgedKeepsWrite(state, key, before[key], wall);
    assert keys - (rest - {key}) == if key in keys then (keys - rest) + {key} else keys - rest;
  }

  /** Some write outside `rest` is no longer what it was. */
  predicate Changed(before: Writes, after: Writes, rest: set<WriteKey>) {
    exists k | k in before && k in after && k !in rest :: after[k] != before[k]
  }

  lemma ChangedNext(start: Writes, before: Writes, rest: set<WriteKey>, key: WriteKey, c: Confirmation)
    requires key in start && key in rest && key in before
    ensures Changed(start, before[key := c], rest - {key}) <==> Changed(start, before, rest) || c != start[key]
  {
    if Changed(start, before, rest) {
      var k :| k in start && k in before && k !in rest && before[k] != start[k];
      assert before[key := c][k] != start[k];
    }
    if c != start[key] {
      assert before[key := c][key] != start[key];
    }
  }

  lemma ChangedExactly(before: Writes, after: Writes)
    requires before.Keys == after.Keys
    ensures Changed(before, after, {}) <==> after != before
  {
  }

  lemma JudgedExactly(before: Writes, after: Writes, issues: seq<Issue>, state: RoomState, wall: real)
    requires JudgedAll(before, after, issues, state, wall, {})
    ensures after == JudgedWrites(before, state, wall)
  {
    forall k | k in before
      ensures after[k] == Judged(state, k, before[k], wall).0
    {
      assert JudgedOne(before[k], after[k], issues, k, state, wall);
    }
  }

  predicate JudgedOne(before: Confirmation, after: Confirmation, issues: seq<Issue>, key: WriteKey,
                      state: RoomState, wall: real) {
    var judged := Judged(state, key, before, wall);
    after == judged.0 && (judged.1.Some? ==> Issue(before.number, key, judged.1.value) in issues)
  }

  /** After a judging pass every write that is unhealthy, or was left pending past the timeout, has had
      its issue reported, exactly once. */
  lemma PassReports(before: Writes, after: Writes, issues: seq<Issue>, next: nat, state: RoomState, wall: real, k: WriteKey)
    requires JudgedAll(before, after, issues, state, wall, {}) && IssuesCounted(after, issues, next) && k in after
    requires Unhealthy(after[k].status) || Late(after[k], wall)
    ensures Reported(issues, after[k].number)
    ensures forall i, j | 0 <= i < |issues| && 0 <= j < |issues| && issues[i].number == issues[j].number :: i == j
  {
    assert JudgedOne(before[k], after[k], issues, k, state, wall);
  }

  lemma JudgedNext(start: Writes, before: Writes, issues: seq<Issue>, state: RoomState, wall: real,
                   rest: set<WriteKey>, key: WriteKey)
    requires JudgedAll(start, before, issues, state, wall, rest) && key in rest && key in start
    ensures var judged := Judged(state, key, before[key], wall);
            JudgedAll(start, before[key := judged.0], issues + IssueOf(judged.0.number, key, judged.1), state, wall,
                      rest - {key})
  {
    var judged := Judged(state, key, before[key], wall);
    assert judged.0.number == before[key].number;
    forall k | k in start && k !in rest
      ensures JudgedOne(start[k], before[k], issues + IssueOf(judged.0.number, key, judged.1), k, state, wall)
    {
      assert JudgedOne(start[k], before[k], issues, k, state, wall);
    }
  }
}

/** The write path of the coordinator for one unit: commands, readbacks, pending values and interrupted writes.

    Reads and writes hold the gateway lock, so each method runs alone; while it waits only time passes and
    expiry timers fire. `Valid` keeps a possible run of `WriteRuns` that leads to the present state, so what is
    proved of every run holds here, and never lets a level and a preset be pending together.
  */
module Coordinator {
  import opened Wrappers
  import opened Models
  import opened ModeCodec
  import opened Levels
  import opened IssueTotals
  import opened WriteJudgement
  import opened RoomReads
  import opened Overlay
  import opened WriteRuns
  import opened LevelOrigins

  /** How a write ended: accepted and, where a readback belongs to it, read back; accepted, but its caller
      cancelled before the readback was done; rejected; or cancelled while it was sent. */
  datatype WriteOutcome = Accepted | Unread | Rejected(error: string) | Interrupted

  /** What became of a command. */
  datatype CommandResult = Done(outcome: WriteOutcome) | AirflowUnknown | OppositeUnknown | NothingToDo

  const GIVEN_UP := "No matching device readback was received"

  const CANCELLED := "Write was cancelled"

  datatype Interruption = Interruption(control: ReadHealth, flow: ReadHealth)

  class RoomCoordinator {
    const maxAirflow: int
    const confirmations: WriteConfirmations
    const levels: OptimisticOverlay
    const presets: OptimisticOverlay
    const intensive: OptimisticOverlay
    var state: RoomState
    // Set while a flow write was interrupted and nothing newer was read.
    var uncertainFlow: Option<Interruption>
    ghost var interruptedAt: nat
    // The write whose levels are pending, if any are.
    ghost var shownAt: nat
    // What happened so far, as a run of `WriteRuns`.
    ghost var run: seq<Event>
    var wall: real
    var mono: real

    ghost predicate Parts()
      reads this
    {
      && levels != presets && levels != intensive && presets != intensive
      && levels.readGroups == [Flow, FlowControl] && presets.readGroups == [FlowControl]
      && intensive.readGroups == [IntensiveGroup]
      && levels.ttlSeconds == presets.ttlSeconds == intensive.ttlSeconds == 15.0
    }

    ghost predicate Valid()
      reads this, confirmations, confirmations.diagnostics, levels, presets, intensive
    {
      && Parts() && levels.Valid() && presets.Valid() && intensive.Valid() && confirmations.Valid()
      && Follows(maxAirflow, run, confirmations.writes, state, confirmations.next, wall, IssueNumbers(confirmations.issues))
      && (levels.pending.None? || presets.pending.None?)
      && InterruptionKept(uncertainFlow, interruptedAt, state) && interruptedAt < confirmations.next
      && (levels.pending.Some? ==> interruptedAt < shownAt < confirmations.next)
    }

    constructor (room: string, maxAirflow: int, diagnostics: CumulativeDiagnostics)
      ensures Valid() && state == EMPTY_ROOM_STATE && uncertainFlow == None && confirmations.writes == map[]
      ensures fresh(confirmations) && fresh(levels) && fresh(presets) && fresh(intensive)
    {
      this.maxAirflow := maxAirflow;
      confirmations := new WriteConfirmations(room, diagnostics);
      levels := new OptimisticOverlay(15.0, [Flow, FlowControl]);
      presets := new OptimisticOverlay(15.0, [FlowControl]);
      intensive := new OptimisticOverlay(15.0, [IntensiveGroup]);
      state, uncertainFlow, wall, mono := EMPTY_ROOM_STATE, None, 0.0, 0.0;
      interruptedAt, shownAt, run := 0, 0, [];
    }

    // -----------------------------------------------------------------
    //  Time
    // -----------------------------------------------------------------

    /** Time passes, and the timers of expired values may fire. */
    method Elapse()
      requires Valid()
      modifies `wall, `mono, `run, levels, presets, intensive
      ensures Valid() && old(run) <= run && old(wall) <= wall && old(mono) <= mono
      ensures KeptShown(old(levels.pending), levels.pending, mono) && KeptShown(old(presets.pending), presets.pending, mono)
      ensures KeptShown(old(intensive.pending), intensive.pending, mono)
    {
      PassTime();
      FireTimer();
    }

    method PassTime()
      requires Valid()
      modifies `wall, `mono, `run
      ensures Valid() && old(wall) <= wall && old(mono) <= mono && old(run) <= run
    {
      var passed: real := *;
      if passed > 0.0 {
        var until := wall + passed;
        ghost var longer := run + [Waited(until)];
        FollowsWaited(maxAirflow, run, confirmations.writes, state, confirmations.next, wall,
                      IssueNumbers(confirmations.issues), until);
        wall, mono, run := until, mono + passed, longer;
      }
    }

    /** A timer fires once its value has expired. */
    method ExpireIfDue(overlay: OptimisticOverlay)
      requires overlay.Valid()
      modifies overlay
      ensures overlay.Valid() && KeptShown(old(overlay.pending), overlay.pending, mono)
    {
      if overlay.pending.Some? && overlay.pending.value.expiresAt <= mono {
        overlay.Expire();
      }
    }

    method FireTimer()
      requires Valid()
      modifies levels, presets, intensive
      ensures Valid()
      ensures KeptShown(old(levels.pending), levels.pending, mono) && KeptShown(old(presets.pending), presets.pending, mono)
      ensures KeptShown(old(intensive.pending), intensive.pending, mono)
    {
      var timers: int := *;
      match timers % 4
      case 1 => ExpireIfDue(levels);
      case 2 => ExpireIfDue(presets);
      case 3 => ExpireIfDue(intensive);
      case _ =>
    }

    // -----------------------------------------------------------------
    //  Judging
    // -----------------------------------------------------------------

    /** Judge the writes and settle the pending values by the latest readback. */
    method ConfirmPendingWrites()
      requires Valid()
      modifies `run, confirmations, confirmations.diagnostics, levels, presets, intensive
      ensures Valid() && run == old(run) + [AllJudged] && confirmations.next == old(confirmations.next)
      ensures JudgedAll(old(confirmations.writes), confirmations.writes, confirmations.issues, state, wall, {})
      ensures Settled(old(levels.pending), old(presets.pending), old(intensive.pending))
    {
      JudgeWrites();
      SettlePending();
    }

    method JudgeWrites()
      requires Valid()
      modifies `run, confirmations, confirmations.diagnostics
      ensures Valid() && confirmations.next == old(confirmations.next) && run == old(run) + [AllJudged]
      ensures JudgedAll(old(confirmations.writes), confirmations.writes, confirmations.issues, state, wall, {})
    {
      Judge();
      run := run + [AllJudged];
    }

    /** The judging itself; the run is still to follow. */
    method Judge()
      requires Valid()
      modifies confirmations, confirmations.diagnostics
      ensures confirmations.Valid() && confirmations.next == old(confirmations.next)
      ensures Follows(maxAirflow, run + [AllJudged], confirmations.writes, state, confirmations.next, wall,
                      IssueNumbers(confirmations.issues))
      ensures JudgedAll(old(confirmations.writes), confirmations.writes, confirmations.issues, state, wall, {})
    {
      FollowsJudged(maxAirflow, run, confirmations.writes, state, confirmations.next, wall,
                    IssueNumbers(confirmations.issues));
      var _ := confirmations.Confirm(state, wall);
    }

    /** Of what was pending, what the latest read matches no longer is. */
    ghost predicate Settled(level: Option<Shown>, preset: Option<Shown>, override: Option<Shown>)
      reads this, levels, presets, intensive
    {
      && Parts() && levels.Valid() && presets.Valid() && intensive.Valid()
      && (level.Some? ==> |level.value.baseline| == 2) && (preset.Some? ==> |preset.value.baseline| == 1)
      && (override.Some? ==> |override.value.baseline| == 1)
      && levels.pending == StillPending(level, [Flow, FlowControl], state, ConfirmedLevels(state, mono), mono)
      && presets.pending == StillPending(preset, [FlowControl], state, ConfirmedPreset(state), mono)
      && intensive.pending == StillPending(override, [IntensiveGroup], state, ConfirmedFlag(state), mono)
    }

    method SettlePending()
      requires Valid()
      modifies levels, presets, intensive
      ensures Valid() && Settled(old(levels.pending), old(presets.pending), old(intensive.pending))
    {
      var _ := levels.SettleIfRead(state, ConfirmedLevels(state, mono), mono);
      var _ := presets.SettleIfRead(state, ConfirmedPreset(state), mono);
      var _ := intensive.SettleIfRead(state, ConfirmedFlag(state), mono);
    }

    // -----------------------------------------------------------------
    //  Reads
    // -----------------------------------------------------------------

    /** Go on with the exact target when a write still waits for it. */
    method ReadBalancedTargetIfPending(refreshed: RoomState, previous: RoomState, ghost before: seq<Event>)
      returns (next: RoomState, ghost after: seq<Event>)
      requires confirmations.Valid()
      requires Follows(maxAirflow, before, confirmations.writes, refreshed, confirmations.next, wall,
                       IssueNumbers(confirmations.issues))
      modifies confirmations`balancedFlowConverged, confirmations`next
      ensures confirmations.Valid() && old(confirmations.next) <= confirmations.next
      ensures Follows(maxAirflow, after, confirmations.writes, next, confirmations.next, wall,
                      IssueNumbers(confirmations.issues)) && before <= after
      ensures SameButReadback(refreshed, next)
      ensures TargetFollows(refreshed, previous, next, confirmations.writes, old(confirmations.balancedFlowConverged),
                            wall, mono, old(confirmations.next))
    {
      var prepared, mustRead := confirmations.PrepareBalancedTargetReadback(refreshed, previous, wall, mono);
      if !mustRead {
        next, after := prepared, before;
        if prepared != refreshed {
          FollowsCarried(maxAirflow, before, confirmations.writes, refreshed, confirmations.next, wall,
                         IssueNumbers(confirmations.issues), previous.balancedTargetReadback, previous.readbackRead);
          after := before + [TargetCarried(previous.balancedTargetReadback, previous.readbackRead)];
        }
        return;
      }
      var answered: bool := *;
      var target: int := *;
      if !answered {
        next, after := refreshed, before;
        return;
      }
      FollowsExact(maxAirflow, before, confirmations.writes, refreshed, confirmations.next, wall,
                   IssueNumbers(confirmations.issues), target);
      var number := confirmations.Take();
      next, after := WithReadback(refreshed, Some(target), number), before + [ExactTargetRead(target)];
    }

    /** What is known after a read of the airflow groups. */
    method Refreshed(read: AirflowRead) returns (refreshed: RoomState, ghost after: seq<Event>)
      requires Valid()
      modifies confirmations`next
      ensures confirmations.Valid() && confirmations.next == old(confirmations.next) + 1
      ensures refreshed == AfterAirflowRead(maxAirflow, state, read, old(confirmations.next), mono)
      ensures Follows(maxAirflow, after, confirmations.writes, refreshed, confirmations.next, wall,
                      IssueNumbers(confirmations.issues))
      ensures after == run + [AirflowGroupsRead(read, mono)]
      ensures InterruptionKept(uncertainFlow, interruptedAt, refreshed)
    {
      FollowsSound(maxAirflow, run, confirmations.writes, state, confirmations.next, wall, IssueNumbers(confirmations.issues));
      ReadKeepsInterruption(maxAirflow, confirmations.writes, state, confirmations.next, wall, read, mono,
                            uncertainFlow, interruptedAt);
      FollowsRead(maxAirflow, run, confirmations.writes, state, confirmations.next, wall,
                  IssueNumbers(confirmations.issues), read, mono);
      after := run + [AirflowGroupsRead(read, mono)];
      var number := confirmations.Take();
      refreshed := AfterAirflowRead(maxAirflow, state, read, number, mono);
    }

    /** Read the airflow groups; whatever the read brings, everything stays in order. */
    method ReadAirflow(afterWrite: bool) returns (read: AirflowRead)
      requires Valid()
      modifies `state, `run, confirmations`balancedFlowConverged, confirmations`next
      ensures Valid() && old(run) + [AirflowGroupsRead(read, mono)] <= run && confirmations.next > old(confirmations.next)
      ensures SameButReadback(AfterAirflowRead(maxAirflow, old(state), read, old(confirmations.next), mono), state)
      ensures ReadFollows(maxAirflow, old(state), read, afterWrite, state, confirmations.writes,
                          old(confirmations.balancedFlowConverged), wall, mono, old(confirmations.next))
    {
      read := *;
      ghost var converged, number := confirmations.balancedFlowConverged, confirmations.next;
      var refreshed;
      ghost var base, after;
      refreshed, base, after := ReadWithTarget(read, afterWrite);
      ReadFollowsFrom(maxAirflow, state, read, afterWrite, base, refreshed, confirmations.writes, converged, wall, mono, number);
      state, run := refreshed, after;
    }

    /** Go on with the exact target if it is wanted. */
    method SeeToTarget(wanted: bool, base: RoomState, previous: RoomState, ghost before: seq<Event>)
      returns (next: RoomState, ghost after: seq<Event>)
      requires confirmations.Valid()
      requires Follows(maxAirflow, before, confirmations.writes, base, confirmations.next, wall,
                       IssueNumbers(confirmations.issues))
      modifies confirmations`balancedFlowConverged, confirmations`next
      ensures confirmations.Valid() && old(confirmations.next) <= confirmations.next
      ensures Follows(maxAirflow, after, confirmations.writes, next, confirmations.next, wall,
                      IssueNumbers(confirmations.issues)) && before <= after
      ensures SameButReadback(base, next)
      ensures if wanted then TargetFollows(base, previous, next, confirmations.writes, old(confirmations.balancedFlowConverged),
                                           wall, mono, old(confirmations.next))
              else next == base
    {
      next, after := base, before;
      if wanted {
        next, after := ReadBalancedTargetIfPending(base, previous, before);
      }
    }

    /** The read, and the exact target with it when a write waits for it. */
    method ReadWithTarget(read: AirflowRead, afterWrite: bool)
      returns (refreshed: RoomState, ghost base: RoomState, ghost after: seq<Event>)
      requires Valid()
      modifies confirmations`balancedFlowConverged, confirmations`next
      ensures confirmations.Valid() && confirmations.next > old(confirmations.next)
      ensures base == AfterAirflowRead(maxAirflow, state, read, old(confirmations.next), mono)
      ensures SameButReadback(base, refreshed)
      ensures if (afterWrite && !read.Raised?) || (read.Answered? && read.flow.FlowValues?)
              then TargetFollows(base, state, refreshed, confirmations.writes, old(confirmations.balancedFlowConverged),
                                 wall, mono, old(confirmations.next) + 1)
              else refreshed == base
      ensures Follows(maxAirflow, after, confirmations.writes, refreshed, confirmations.next, wall,
                      IssueNumbers(confirmations.issues)) && run + [AirflowGroupsRead(read, mono)] <= after
      ensures InterruptionKept(uncertainFlow, interruptedAt, refreshed)
    {
      var first;
      first, after := Refreshed(read);
      base := first;
      refreshed, after := SeeToTarget((afterWrite && !read.Raised?) || (read.Answered? && read.flow.FlowValues?),
                                      first, state, after);
      ReadbackKeepsInterruption(first, refreshed, uncertainFlow, interruptedAt);
    }

    /** One regular read of the airflow groups. */
    method PollAirflow() returns (read: AirflowRead)
      requires Valid()
      modifies this`state, this`run, confirmations, confirmations.diagnostics, levels, presets, intensive
      ensures Valid() && old(run) <= run && confirmations.next > old(confirmations.next)
      ensures ReadFollows(maxAirflow, old(state), read, false, state, old(confirmations.writes),
                          old(confirmations.balancedFlowConverged), wall, mono, old(confirmations.next))
      ensures JudgedAll(old(confirmations.writes), confirmations.writes, confirmations.issues, state, wall, {})
      ensures Settled(old(levels.pending), old(presets.pending), old(intensive.pending))
    {
      read := ReadAirflow(false);
      ConfirmPendingWrites();
    }

    /** One regular read of the control settings. */
    method PollControlSettings()
      requires Valid()
      modifies this`state, this`run, confirmations, confirmations.diagnostics, levels, presets, intensive
      ensures Valid() && old(run) <= run && state.HealthFor(ControlSettings).attempt == old(confirmations.next)
      ensures state == old(state).(controlSettings := state.controlSettings, health := state.health)
      ensures JudgedAll(old(confirmations.writes), confirmations.writes, confirmations.issues, state, wall, {})
      ensures Settled(old(levels.pending), old(presets.pending), old(intensive.pending))
    {
      ReadControlSettings();
      ConfirmPendingWrites();
    }

    method ReadControlSettings()
      requires Valid()
      modifies `state, `run, confirmations`next
      ensures Valid() && old(run) < run && run[|old(run)|].ControlSettingsRead? && confirmations.next == old(confirmations.next) + 1
      ensures state.HealthFor(ControlSettings).attempt == old(confirmations.next)
      ensures state == old(state).(controlSettings := state.controlSettings, health := state.health)
    {
      var settings: map<string, int> := *;
      var ok: bool := *;
      var number := confirmations.next;
      var error := if ok then None else Some("failed");
      FollowsSettings(maxAirflow, run, confirmations.writes, state, number, wall,
                      IssueNumbers(confirmations.issues), settings, mono, error);
      var read := SettingsRead(state, number, settings, mono, error);
      SettingsReadKeeps(state, number, settings, mono, error);
      state, run := read, run + [ControlSettingsRead(settings, mono, error)];
      var _ := confirmations.Take();
    }

    // -----------------------------------------------------------------
    //  Recording writes
    // -----------------------------------------------------------------

    /** An accepted write replaces the open base-mode writes and waits for its readback. */
    method RecordAccepted(key: WriteKey, value: WriteValue) returns (superseded: set<WriteKey>)
      requires Valid()
      modifies `run, confirmations, confirmations.diagnostics
      ensures Valid() && run == old(run) + [WriteAccepted(key, value)] && confirmations.next == old(confirmations.next) + 1
      ensures superseded == Replaced(old(confirmations.writes), key)
      ensures confirmations.writes == WithRecorded(old(confirmations.writes), key,
                Recorded(old(confirmations.next), value, wall, state.HealthFor(key.ConfirmedBy())))
    {
      var baseline := state.HealthFor(key.ConfirmedBy());
      FollowsAccepted(maxAirflow, run, confirmations.writes, state, confirmations.next, wall,
                      IssueNumbers(confirmations.issues), key, value);
      superseded := confirmations.Replace(key, value, baseline, wall);
      run := run + [WriteAccepted(key, value)];
    }

    /** An interrupted write may have reached the unit: it replaces the open base-mode writes too, and is
        reported as unconfirmed. */
    method RecordInterrupted(key: WriteKey, value: WriteValue)
      requires Valid()
      modifies `run, confirmations, confirmations.diagnostics
      ensures Valid() && run == old(run) + [WriteInterrupted(key, value, CANCELLED)]
      ensures confirmations.next == old(confirmations.next) + 1
      ensures confirmations.writes == WithRecorded(old(confirmations.writes), key,
                WithStatus(Recorded(old(confirmations.next), value, wall, state.HealthFor(key.ConfirmedBy())),
                           Unconfirmed, Some(CANCELLED)))
    {
      var baseline := state.HealthFor(key.ConfirmedBy());
      FollowsInterrupted(maxAirflow, run, confirmations.writes, state, confirmations.next, wall,
                         IssueNumbers(confirmations.issues), key, value, CANCELLED);
      IssueNumbersNext(confirmations.issues, confirmations.next, key, Some(Unconfirmed));
      confirmations.ReplaceUnconfirmed(key, value, baseline, wall, CANCELLED);
      run := run + [WriteInterrupted(key, value, CANCELLED)];
    }

    /** A rejected write leaves the others as they are. */
    method RecordRejected(key: WriteKey, value: WriteValue, error: string)
      requires Valid()
      modifies `run, confirmations, confirmations.diagnostics
      ensures Valid() && run == old(run) + [WriteRejected(key, value, error)]
      ensures confirmations.next == old(confirmations.next) + 1
      ensures confirmations.writes == old(confirmations.writes)[key :=
                WithStatus(Recorded(old(confirmations.next), value, wall, state.HealthFor(key.ConfirmedBy())),
                           FailedWrite, Some(error))]
    {
      var baseline := state.HealthFor(key.ConfirmedBy());
      FollowsRejected(maxAirflow, run, confirmations.writes, state, confirmations.next, wall,
                      IssueNumbers(confirmations.issues), key, value, error);
      IssueNumbersNext(confirmations.issues, confirmations.next, key, Some(FailedWrite));
      confirmations.RecordWithIssue(key, value, baseline, wall, FailedWrite, error);
      run := run + [WriteRejected(key, value, error)];
    }

    // -----------------------------------------------------------------
    //  Pending values
    // -----------------------------------------------------------------

    /** Stop showing a value written under `key`. */
    method ClearShown(key: WriteKey)
      requires Valid()
      modifies levels, presets, intensive
      ensures Valid()
      ensures levels.pending == if key.AirflowLevels? then None else old(levels.pending)
      ensures presets.pending == if key.PresetModeWrite? then None else old(presets.pending)
      ensures intensive.pending == if key.IntensiveWrite? then None else old(intensive.pending)
    {
      match key
      case AirflowLevels => levels.Clear();
      case PresetModeWrite => presets.Clear();
      case IntensiveWrite => intensive.Clear();
      case _ =>
    }

    /** Show a value accepted under `key` by the last write. */
    method Show(key: WriteKey, value: WriteValue)
      requires Valid()
      requires (key.AirflowLevels? ==> presets.pending.None?) && (key.PresetModeWrite? ==> levels.pending.None?)
      requires interruptedAt + 1 < confirmations.next
      modifies `shownAt, levels, presets, intensive
      ensures Valid()
      ensures key.AirflowLevels? ==>
                && levels.pending == Some(Shown(value, mono + 15.0, Baselines([Flow, FlowControl], state)))
                && shownAt == confirmations.next - 1
      ensures key.PresetModeWrite? ==>
                presets.pending == Some(Shown(value, mono + 15.0, Baselines([FlowControl], state)))
      ensures key.IntensiveWrite? ==>
                intensive.pending == Some(Shown(value, mono + 15.0, Baselines([IntensiveGroup], state)))
      ensures !key.AirflowLevels? ==> levels.pending == old(levels.pending)
      ensures !key.PresetModeWrite? ==> presets.pending == old(presets.pending)
      ensures !key.IntensiveWrite? ==> intensive.pending == old(intensive.pending)
    {
      match key
      case AirflowLevels =>
        levels.Set(value, state, mono);
        shownAt := confirmations.next - 1;
      case PresetModeWrite => presets.Set(value, state, mono);
      case IntensiveWrite => intensive.Set(value, state, mono);
      case _ =>
    }

    // -----------------------------------------------------------------
    //  Writing
    // -----------------------------------------------------------------

    /** Nothing else is pending than before. */
    ghost predicate OnlyCleared(level: Option<Shown>, preset: Option<Shown>, override: Option<Shown>)
      reads this, levels, presets, intensive
    {
      && (levels.pending == level || levels.pending == None) && (presets.pending == preset || presets.pending == None)
      && (intensive.pending == override || intensive.pending == None)
    }

    /** One read of the group that confirms `key`, after a write. */
    method ReadGroup(key: WriteKey)
      requires Valid()
      modifies `state, `run, confirmations`balancedFlowConverged, confirmations`next
      ensures Valid() && confirmations.next > old(confirmations.next)
      ensures old(run) < run && ReadsGroupOf(run[|old(run)|], key)
    {
      if key.ControlSetting? {
        ReadControlSettings();
      } else {
        var _ := ReadAirflow(true);
      }
    }

    /** One read of the affected group once a write has settled, unless the caller is cancelled meanwhile. */
    method RefreshAfterWrite(key: WriteKey) returns (cancelled: bool)
      requires Valid()
      modifies this`state, this`run, this`wall, this`mono, confirmations, confirmations.diagnostics, levels, presets, intensive
      ensures Valid() && old(run) <= run
      ensures if cancelled then confirmations.next == old(confirmations.next) && confirmations.writes == old(confirmations.writes)
              else confirmations.next > old(confirmations.next)
      ensures SameWrites(old(confirmations.writes), confirmations.writes)
      ensures FinalKept(old(confirmations.writes), confirmations.writes)
      ensures OnlyCleared(old(levels.pending), old(presets.pending), old(intensive.pending))
      ensures !cancelled ==> ReadBackIn(run, |old(run)|, key)
    {
      ghost var first := run;
      Elapse();
      ghost var waited := |run|;
      cancelled := *;
      if cancelled {
        SameWritesOnce(confirmations.writes);
        return;
      }
      ReadGroup(key);
      ghost var before := confirmations.writes;
      ConfirmPendingWrites();
      JudgedSameWrites(before, confirmations.writes, confirmations.issues, state, wall);
      assert |first| <= waited < |run| - 1 && run[|run| - 1] == AllJudged && ReadsGroupOf(run[waited], key);
    }

    method AfterAccepted(key: WriteKey, value: WriteValue, readBack: bool) returns (cancelled: bool)
      requires Valid()
      requires (key.AirflowLevels? ==> presets.pending.None?) && (key.PresetModeWrite? ==> levels.pending.None?)
      modifies this`state, this`run, this`shownAt, this`wall, this`mono, confirmations, confirmations.diagnostics, levels, presets, intensive
      ensures Valid() && old(run) <= run
      ensures key in confirmations.writes && confirmations.writes[key].expected == value
      ensures OthersFinalKept(old(confirmations.writes), confirmations.writes, key)
      ensures ReplacedDone(old(confirmations.writes), confirmations.writes, key)
      ensures cancelled ==> readBack
      ensures !readBack ==> mono == old(mono)
      ensures !readBack ==> ShownInstead(key, value, Replaced(old(confirmations.writes), key),
                                         old(levels.pending), old(presets.pending), old(intensive.pending))
      ensures confirmations.writes[key].status == PendingReadback <==> !readBack || cancelled
      ensures readBack && !cancelled ==> confirmations.next > old(confirmations.next) + 1
      ensures !key.AirflowLevels? && old(levels.pending).None? ==> levels.pending.None?
      ensures !key.PresetModeWrite? && old(presets.pending).None? ==> presets.pending.None?
      ensures !key.IntensiveWrite? && old(intensive.pending).None? ==> intensive.pending.None?
      ensures AirflowLevels in Replaced(old(confirmations.writes), key) ==> levels.pending.None?
      ensures PresetModeWrite in Replaced(old(confirmations.writes), key) ==> presets.pending.None?
      ensures readBack && !cancelled ==> ReadBackIn(run, |old(run)|, key)
    {
      ghost var before := confirmations.writes;
      ShowAccepted(key, value);
      RecordedKeepsFinal(before, key, confirmations.writes[key]);
      cancelled := false;
      if readBack {
        ghost var recorded, from := confirmations.writes, |run|;
        cancelled := ReadBack(key);
        if !cancelled {
          ReadBackLater(run, run, from, |old(run)|, key);
        }
        FinalKeptOn(before, recorded, confirmations.writes, key);
        DoneStays(before, recorded, confirmations.writes, key);
      }
    }

    /** The value accepted under `key` is shown for 15 seconds, those it replaced no longer, and the others stay. */
    ghost predicate ShownInstead(key: WriteKey, value: WriteValue, replaced: set<WriteKey>,
                                 level: Option<Shown>, preset: Option<Shown>, override: Option<Shown>)
      reads this, levels, presets, intensive
    {
      && levels.pending == (if key.AirflowLevels? then Some(Shown(value, mono + 15.0, Baselines([Flow, FlowControl], state)))
                            else if AirflowLevels in replaced then None else level)
      && presets.pending == (if key.PresetModeWrite? then Some(Shown(value, mono + 15.0, Baselines([FlowControl], state)))
                             else if PresetModeWrite in replaced then None else preset)
      && intensive.pending == (if key.IntensiveWrite? then Some(Shown(value, mono + 15.0, Baselines([IntensiveGroup], state)))
                               else override)
    }

    /** Record an accepted write and show its value in place of those it replaced. */
    method ShowAccepted(key: WriteKey, value: WriteValue)
      requires Valid()
      requires (key.AirflowLevels? ==> presets.pending.None?) && (key.PresetModeWrite? ==> levels.pending.None?)
      modifies this`run, this`shownAt, confirmations, confirmations.diagnostics, levels, presets, intensive
      ensures Valid() && run == old(run) + [WriteAccepted(key, value)]
      ensures confirmations.next == old(confirmations.next) + 1
      ensures key.AirflowLevels? ==> shownAt == old(confirmations.next)
      ensures confirmations.writes == WithRecorded(old(confirmations.writes), key,
                Recorded(old(confirmations.next), value, wall, state.HealthFor(key.ConfirmedBy())))
      ensures ShownInstead(key, value, Replaced(old(confirmations.writes), key),
                           old(levels.pending), old(presets.pending), old(intensive.pending))
    {
      var superseded := RecordAccepted(key, value);
      ClearSuperseded(superseded);
      Show(key, value);
    }

    /** Values of replaced writes are no longer pending. */
    method ClearSuperseded(superseded: set<WriteKey>)
      requires Valid()
      modifies levels, presets, intensive
      ensures Valid()
      ensures levels.pending == if AirflowLevels in superseded then None else old(levels.pending)
      ensures presets.pending == if PresetModeWrite in superseded then None else old(presets.pending)
      ensures intensive.pending == old(intensive.pending)
    {
      if AirflowLevels in superseded {
        ClearShown(AirflowLevels);
      }
      if PresetModeWrite in superseded {
        ClearShown(PresetModeWrite);
      }
    }

    /** Read the group back and give up on a write that is still pending; a cancel leaves it pending. */
    method ReadBack(key: WriteKey) returns (cancelled: bool)
      requires Valid() && key in confirmations.writes
      modifies this`state, this`run, this`wall, this`mono, confirmations, confirmations.diagnostics, levels, presets, intensive
      ensures Valid() && old(run) <= run
      ensures SameWrites(old(confirmations.writes), confirmations.writes)
      ensures FinalKept(old(confirmations.writes), confirmations.writes)
      ensures if cancelled then confirmations.next == old(confirmations.next) && confirmations.writes == old(confirmations.writes)
              else confirmations.next > old(confirmations.next) && confirmations.writes[key].status != PendingReadback
      ensures OnlyCleared(old(levels.pending), old(presets.pending), old(intensive.pending))
      ensures !cancelled ==> ReadBackIn(run, |old(run)|, key)
    {
      cancelled := RefreshAfterWrite(key);
      if !cancelled {
        ghost var read := confirmations.writes;
        ghost var judged := run;
        GiveUp(key);
        ReadBackLater(judged, run, |old(run)|, |old(run)|, key);
        SameWritesTwice(old(confirmations.writes), read, confirmations.writes);
      }
    }

    /** A write that is still pending after its readback stays unconfirmed. */
    method GiveUp(key: WriteKey)
      requires Valid() && key in confirmations.writes
      modifies `run, confirmations, confirmations.diagnostics
      ensures Valid() && old(run) <= run && confirmations.next == old(confirmations.next)
      ensures SameWrites(old(confirmations.writes), confirmations.writes)
      ensures FinalKept(old(confirmations.writes), confirmations.writes)
      ensures confirmations.writes[key].status != PendingReadback
    {
      ghost var before := confirmations.writes;
      var changed := MarkGivenUp(key);
      if changed {
        UnconfirmedKeeps(before, key, confirmations.writes[key]);
      } else {
        SameWritesOnce(before);
      }
    }

    method MarkGivenUp(key: WriteKey) returns (changed: bool)
      requires Valid() && key in confirmations.writes
      modifies `run, confirmations, confirmations.diagnostics
      ensures Valid() && confirmations.next == old(confirmations.next) && old(run) <= run
      ensures changed == (old(confirmations.writes)[key].status == PendingReadback)
      ensures confirmations.writes == if changed then old(confirmations.writes)[key :=
                                             WithStatus(old(confirmations.writes)[key], Unconfirmed, Some(GIVEN_UP))]
                                      else old(confirmations.writes)
    {
      changed := confirmations.writes[key].status == PendingReadback;
      if changed {
        MarkPending(key);
        run := run + [GivenUp(key, GIVEN_UP)];
      }
    }

    /** Give up on a pending write; the run is still to follow. */
    method MarkPending(key: WriteKey)
      requires Valid() && key in confirmations.writes && confirmations.writes[key].status == PendingReadback
      modifies confirmations, confirmations.diagnostics
      ensures confirmations.Valid() && confirmations.next == old(confirmations.next)
      ensures Follows(maxAirflow, run + [GivenUp(key, GIVEN_UP)], confirmations.writes, state, confirmations.next, wall,
                      IssueNumbers(confirmations.issues))
      ensures confirmations.writes == old(confirmations.writes)[key :=
                                        WithStatus(old(confirmations.writes)[key], Unconfirmed, Some(GIVEN_UP))]
    {
      ghost var c := confirmations.writes[key];
      FollowsGivenUp(maxAirflow, run, confirmations.writes, state, confirmations.next, wall,
                     IssueNumbers(confirmations.issues), key, GIVEN_UP);
      IssueNumbersNext(confirmations.issues, c.number, key, if c.issueCounted then None else Some(Unconfirmed));
      if c.issueCounted {
        CountedIsReported(confirmations.writes, confirmations.issues, confirmations.next, key);
      }
      var _ := confirmations.MarkUnconfirmed(key, GIVEN_UP);
    }

    method AfterRejected(key: WriteKey, value: WriteValue, error: string)
      requires Valid()
      modifies this`state, this`run, this`wall, this`mono, confirmations, confirmations.diagnostics, levels, presets, intensive
      ensures Valid() && old(run) <= run && confirmations.next > old(confirmations.next)
      ensures key in confirmations.writes && confirmations.writes[key].expected == value
      ensures confirmations.writes[key].status == FailedWrite
      ensures OthersFinalKept(old(confirmations.writes), confirmations.writes, key)
      ensures key.AirflowLevels? || old(levels.pending).None? ==> levels.pending.None?
      ensures key.PresetModeWrite? || old(presets.pending).None? ==> presets.pending.None?
      ensures key.IntensiveWrite? || old(intensive.pending).None? ==> intensive.pending.None?
    {
      ghost var before := confirmations.writes;
      ClearShown(key);
      RecordRejected(key, value, error);
      ghost var recorded := confirmations.writes;
      var _ := RefreshAfterWrite(key);
      RejectedStays(before, recorded, confirmations.writes, key);
    }

    /** Nothing is known of the airflow after an interrupted flow write, and nothing stays pending. */
    method AfterInterrupted(key: WriteKey, value: WriteValue)
      requires Valid()
      modifies this`run, this`uncertainFlow, this`interruptedAt, confirmations, confirmations.diagnostics, levels, presets, intensive
      ensures Valid() && old(run) <= run
      ensures key in confirmations.writes && confirmations.writes[key].expected == value
      ensures confirmations.writes[key].status == Unconfirmed
      ensures ReplacedDone(old(confirmations.writes), confirmations.writes, key)
      ensures OthersFinalKept(old(confirmations.writes), confirmations.writes, key)
      ensures if key.ControlSetting? then uncertainFlow == old(uncertainFlow)
              else && uncertainFlow == Some(Interruption(state.HealthFor(FlowControl), state.HealthFor(Flow)))
                   && interruptedAt == old(confirmations.next) == confirmations.writes[key].number
                   && levels.pending.None? && presets.pending.None? && intensive.pending.None?
      ensures !key.AirflowLevels? && old(levels.pending).None? ==> levels.pending.None?
      ensures !key.PresetModeWrite? && old(presets.pending).None? ==> presets.pending.None?
      ensures !key.IntensiveWrite? && old(intensive.pending).None? ==> intensive.pending.None?
    {
      ghost var before := confirmations.writes;
      RecordInterrupted(key, value);
      RecordedKeepsFinal(before, key, confirmations.writes[key]);
      if !key.ControlSetting? {
        ForgetFlow(confirmations.writes[key].number);
      }
    }

    method ForgetFlow(ghost number: nat)
      requires Valid() && number < confirmations.next
      modifies this`uncertainFlow, this`interruptedAt, levels, presets, intensive
      ensures Valid()
      ensures uncertainFlow == Some(Interruption(state.HealthFor(FlowControl), state.HealthFor(Flow)))
      ensures interruptedAt == number
      ensures levels.pending.None? && presets.pending.None? && intensive.pending.None?
    {
      ClearShown(AirflowLevels);
      ClearShown(PresetModeWrite);
      ClearShown(IntensiveWrite);
      uncertainFlow := Some(Interruption(state.HealthFor(FlowControl), state.HealthFor(Flow)));
      interruptedAt := number;
    }

    /** Write and verify one setting. */
    method Write(key: WriteKey, value: WriteValue, readBack: bool) returns (outcome: WriteOutcome)
      requires Valid()
      requires (key.AirflowLevels? ==> presets.pending.None?) && (key.PresetModeWrite? ==> levels.pending.None?)
      modifies this, confirmations, confirmations.diagnostics, levels, presets, intensive
      ensures Valid() && old(run) <= run && Written(outcome, key, value, readBack)
      ensures !outcome.Rejected? ==> ReplacedDone(old(confirmations.writes), confirmations.writes, key)
      ensures OthersFinalKept(old(confirmations.writes), confirmations.writes, key)
      ensures !outcome.Interrupted? ==> uncertainFlow == old(uncertainFlow)
      ensures !key.AirflowLevels? && old(levels.pending).None? ==> levels.pending.None?
      ensures !key.PresetModeWrite? && old(presets.pending).None? ==> presets.pending.None?
      ensures !key.IntensiveWrite? && old(intensive.pending).None? ==> intensive.pending.None?
      ensures outcome.Accepted? && !readBack && !key.IntensiveWrite? ==>
                KeptShown(old(intensive.pending), intensive.pending, mono)
      ensures !outcome.Rejected? && AirflowLevels in Replaced(old(confirmations.writes), key) ==> levels.pending.None?
      ensures !outcome.Rejected? && PresetModeWrite in Replaced(old(confirmations.writes), key) ==> presets.pending.None?
      ensures outcome.Interrupted? && !key.ControlSetting? ==>
                && uncertainFlow == Some(Interruption(old(state).HealthFor(FlowControl), old(state).HealthFor(Flow)))
                && state == old(state)
      ensures outcome.Accepted? && readBack ==> ReadBackIn(run, |old(run)|, key)
    {
      Elapse();
      ghost var from := |run|;
      outcome := Conclude(key, value, readBack);
      if outcome.Accepted? && readBack {
        ReadBackLater(run, run, from, |old(run)|, key);
      }
    }

    /** The write was sent, and ended in some way. */
    method Conclude(key: WriteKey, value: WriteValue, readBack: bool) returns (outcome: WriteOutcome)
      requires Valid()
      requires (key.AirflowLevels? ==> presets.pending.None?) && (key.PresetModeWrite? ==> levels.pending.None?)
      modifies this, confirmations, confirmations.diagnostics, levels, presets, intensive
      ensures Valid() && old(run) <= run && Written(outcome, key, value, readBack)
      ensures !outcome.Rejected? ==> ReplacedDone(old(confirmations.writes), confirmations.writes, key)
      ensures OthersFinalKept(old(confirmations.writes), confirmations.writes, key)
      ensures !outcome.Interrupted? ==> uncertainFlow == old(uncertainFlow)
      ensures !key.AirflowLevels? && old(levels.pending).None? ==> levels.pending.None?
      ensures !key.PresetModeWrite? && old(presets.pending).None? ==> presets.pending.None?
      ensures !key.IntensiveWrite? && old(intensive.pending).None? ==> intensive.pending.None?
      ensures outcome.Accepted? && !readBack ==>
                mono == old(mono) && (!key.IntensiveWrite? ==> intensive.pending == old(intensive.pending))
      ensures !outcome.Rejected? && AirflowLevels in Replaced(old(confirmations.writes), key) ==> levels.pending.None?
      ensures !outcome.Rejected? && PresetModeWrite in Replaced(old(confirmations.writes), key) ==> presets.pending.None?
      ensures outcome.Interrupted? && !key.ControlSetting? ==>
                && uncertainFlow == Some(Interruption(old(state).HealthFor(FlowControl), old(state).HealthFor(Flow)))
                && state == old(state)
      ensures outcome.Accepted? && readBack ==> ReadBackIn(run, |old(run)|, key)
    {
      outcome := *;
      match outcome
      case Accepted | Unread =>
        var cancelled := AfterAccepted(key, value, readBack);
        outcome := if cancelled then Unread else Accepted;
      case Rejected(error) => AfterRejected(key, value, error);
      case Interrupted => AfterInterrupted(key, value);
    }

    /** The write under `key` has the outcome the transport gave it. */
    ghost predicate Written(outcome: WriteOutcome, key: WriteKey, value: WriteValue, readBack: bool)
      reads this, confirmations, confirmations.diagnostics, levels, presets, intensive
    {
      && key in confirmations.writes && confirmations.writes[key].expected == value
      && match outcome
         case Accepted =>
           && (confirmations.writes[key].status == PendingReadback <==> !readBack)
           && (key.AirflowLevels? && !readBack ==>
                 levels.pending == Some(Shown(value, mono + 15.0, Baselines([Flow, FlowControl], state))))
         case Unread => confirmations.writes[key].status == PendingReadback && readBack
         case Rejected(_) =>
           && confirmations.writes[key].status == FailedWrite
           && (key.AirflowLevels? ==> levels.pending.None?) && (key.PresetModeWrite? ==> presets.pending.None?)
           && (key.IntensiveWrite? ==> intensive.pending.None?)
         case Interrupted =>
           && confirmations.writes[key].status == Unconfirmed
           && (!key.ControlSetting? ==>
                 uncertainFlow.Some? && levels.pending.None? && presets.pending.None? && intensive.pending.None?)
    }

    // -----------------------------------------------------------------
    //  Levels a command acts on
    // -----------------------------------------------------------------

    method FlowWriteUncertain() returns (uncertain: bool)
      requires Valid()
      modifies `uncertainFlow
      ensures Valid() && uncertain == StillUncertain(old(uncertainFlow), state, mono)
      ensures uncertain <==>
                && old(uncertainFlow.Some?)
                && var found := old(uncertainFlow).value;
                   if GroupFresh(state, FlowControl, mono) then state.HealthFor(FlowControl) == found.control
                   else GroupFresh(state, Flow, mono) ==> state.HealthFor(Flow) == found.flow
      ensures uncertainFlow == if uncertain then old(uncertainFlow) else None
    {
      uncertain := StillUncertain(uncertainFlow, state, mono);
      if !uncertain {
        uncertainFlow := None;
      }
    }

    /** What `WriteRuns` says of the reported issues holds of the persisted total. */
    lemma TotalFollows()
      requires Valid()
      ensures Total(confirmations.diagnostics.writeIssues) == Total(confirmations.stored) + Replay(maxAirflow, run).total
    {
      RunInvariant(maxAirflow, run);
      IssueNumbersCount(confirmations.issues);
      TotalExactly(confirmations.stored, confirmations.room, confirmations.issues);
    }

    /** The pending levels on show, until they expire or a later read matches them. */
    ghost function ShownPending(): (pair: Option<LevelPair>)
      reads this, levels
      requires levels.Valid()
      ensures Whole(pair)
    {
      if LevelsPend(levels.pending, mono) && !(levels.ReadSinceSet(state, mono) && levels.Matched(ConfirmedLevels(state, mono)))
      then PendingLevels(levels.pending) else None
    }

    /** The levels on show: the pending ones, else the reported ones. */
    ghost function LevelsShown(): (LevelPair, Option<LevelSource>)
      reads this, levels
      requires levels.Valid()
    {
      EffectiveLevels(state, mono, ShownPending())
    }

    /** The supply and extract levels to act on, and where they come from. */
    method ResolveLevels() returns (pair: LevelPair, source: Option<LevelSource>)
      requires Valid()
      modifies `uncertainFlow
      ensures Valid()
      ensures old(uncertainFlow.None?) ==> uncertainFlow == None
      ensures StillUncertain(old(uncertainFlow), state, mono) ==>
                pair == UNKNOWN_LEVELS && source == None && uncertainFlow == old(uncertainFlow)
      ensures !StillUncertain(old(uncertainFlow), state, mono) ==> (pair, source) == LevelsShown()
    {
      var uncertain := FlowWriteUncertain();
      if uncertain {
        return UNKNOWN_LEVELS, None;
      }
      var shown := levels.Active(state, ConfirmedLevels(state, mono), mono);
      if shown.Some? && PendingLevels(levels.pending).Some? {
        return PendingLevels(levels.pending).value, Some(Pending);
      }
      return LevelsNow(state, mono).0, LevelsNow(state, mono).1;
    }

    // -----------------------------------------------------------------
    //  Commands
    // -----------------------------------------------------------------

    /** Write one balanced level. */
    method SetLevel(level: int) returns (result: CommandResult, command: Command)
      requires Valid()
      modifies this, confirmations, confirmations.diagnostics, levels, presets, intensive
      ensures Valid() && old(run) <= run && result.Done? && command == Command.SetLevel(level)
      ensures Written(result.outcome, AirflowLevels, LevelsValue(level, level), false) && presets.pending.None?
      ensures level == 0 ==> intensive.pending.None?
      ensures level != 0 && result.outcome.Accepted? ==> KeptShown(old(intensive.pending), intensive.pending, mono)
      ensures OthersFinalKept(old(confirmations.writes), confirmations.writes, AirflowLevels)
    {
      command := Command.SetLevel(level);
      ClearShown(PresetModeWrite);
      if level == 0 {
        ClearShown(IntensiveWrite);
      }
      var outcome := Write(AirflowLevels, LevelsValue(level, level), false);
      result := Done(outcome);
    }

    /** Write separate levels. */
    method SetUnbalancedLevels(supply: int, extract: int) returns (result: CommandResult, command: Command)
      requires Valid()
      modifies this, confirmations, confirmations.diagnostics, levels, presets, intensive
      ensures Valid() && old(run) <= run && result.Done? && command == SetLevels(supply, extract)
      ensures Written(result.outcome, AirflowLevels, LevelsValue(supply, extract), false) && presets.pending.None?
      ensures OthersFinalKept(old(confirmations.writes), confirmations.writes, AirflowLevels)
    {
      command := SetLevels(supply, extract);
      ClearShown(PresetModeWrite);
      var outcome := Write(AirflowLevels, LevelsValue(supply, extract), false);
      result := Done(outcome);
    }

    /** Pending levels keep their place even after a read that matches them. */
    method LevelsToKeep() returns (pair: LevelPair, source: Option<LevelSource>)
      requires Valid() && uncertainFlow.None?
      modifies `uncertainFlow
      ensures Valid() && uncertainFlow.None?
      ensures (pair, source) == LevelsKept(levels.pending, state, mono)
    {
      pair, source := ResolveLevels();
      var shown := levels.Unconfirmed(None, mono);
      if shown.Some? && PendingLevels(levels.pending).Some? {
        pair, source := PendingLevels(levels.pending).value, Some(Pending);
      }
    }

    /** Set one direction and keep the other where it is; refused while the airflow is unknown after an
        interrupted write. */
    method SetDirectionLevel(direction: Direction, level: int) returns (result: CommandResult, command: Option<Command>)
      requires Valid()
      modifies this, confirmations, confirmations.diagnostics, levels, presets, intensive
      ensures Valid() && old(run) <= run
      ensures result == AirflowUnknown <==> StillUncertain(old(uncertainFlow), old(state), old(mono))
      ensures result == OppositeUnknown <==>
                && !StillUncertain(old(uncertainFlow), old(state), old(mono)) && level == 0
                && var kept := LevelsKept(old(levels.pending), old(state), old(mono)).0;
                   if direction == Supply then kept.extract.None? else kept.supply.None?
      ensures result.Done? || result == AirflowUnknown || result == OppositeUnknown
      ensures !result.Done? ==>
                state == old(state) && unchanged(confirmations) && unchanged(levels) && unchanged(presets) && unchanged(intensive)
      ensures result.Done? <==> command.Some?
      ensures result.Done? ==>
                match command.value
                case SetLevel(l) => Written(result.outcome, AirflowLevels, LevelsValue(l, l), false)
                case SetLevels(supply, extract) => Written(result.outcome, AirflowLevels, LevelsValue(supply, extract), false)
                case _ => false
      ensures command.Some? ==>
                PlannedFrom(old(state), LevelsKept(old(levels.pending), old(state), old(mono)), direction, level, command.value)
      ensures command.Some? ==>
                DirectionFollowed(old(state), old(mono), KeptPending(old(levels.pending), old(mono)), direction, level,
                                  old(interruptedAt), command.value)
      ensures OthersFinalKept(old(confirmations.writes), confirmations.writes, AirflowLevels)
    {
      var uncertain := FlowWriteUncertain();
      if uncertain {
        return AirflowUnknown, None;
      }
      var plan := PlanDirection(direction, level);
      match plan
      case Refused => return OppositeUnknown, None;
      case Balanced(l) =>
        var sent;
        result, sent := SetLevel(l);
        command := Some(sent);
      case Separate(supply, extract) =>
        var sent;
        result, sent := SetUnbalancedLevels(supply, extract);
        command := Some(sent);
    }

    /** What a directional command becomes. */
    method PlanDirection(direction: Direction, level: int) returns (plan: DirectionPlan)
      requires Valid() && uncertainFlow.None?
      modifies `uncertainFlow
      ensures Valid() && uncertainFlow.None?
      ensures var acted := LevelsKept(levels.pending, state, mono);
              plan == PlanDirectionWrite(state, acted.0, acted.1, direction, level)
      ensures forall command | IsCommand(command, plan) ::
                DirectionFollowed(state, mono, KeptPending(levels.pending, mono), direction, level, interruptedAt, command)
    {
      var pair, source := LevelsToKeep();
      plan := PlanDirectionWrite(state, pair, source, direction, level);
      FollowsSound(maxAirflow, run, confirmations.writes, state, confirmations.next, wall, IssueNumbers(confirmations.issues));
      forall command | IsCommand(command, plan)
        ensures DirectionFollowed(state, mono, KeptPending(levels.pending, mono), direction, level, interruptedAt, command)
      {
        DirectionFollows(state, mono, KeptPending(levels.pending, mono), direction, level, interruptedAt, command);
      }
    }

    /** Write an operating mode; `None` leaves sensor control for the manual mode. */
    method SetOperationMode(requested: Option<OperationMode>) returns (result: CommandResult, command: Option<Command>)
      requires Valid()
      modifies this, confirmations, confirmations.diagnostics, levels, presets, intensive
      ensures Valid() && old(run) <= run
      ensures result == NothingToDo <==>
                && !StillUncertain(old(uncertainFlow), old(state), old(mono)) && requested.None?
                && GroupFresh(old(state), FlowControl, old(mono))
                && old(state).operationMode in {Some(Off), Some(Manual), Some(Unbalanced)}
      ensures result.Done? <==>
                && !StillUncertain(old(uncertainFlow), old(state), old(mono)) && result != NothingToDo
                && (requested in {None, Some(Manual), Some(Unbalanced)} ==>
                      old(LevelsShown()).0.supply.Some? || old(state).targetLevel.Some?
                      || old(state).supplyAirFlow.Some? || old(state).extractAirFlow.Some?)
      ensures result.Done? || result == NothingToDo || result == AirflowUnknown
      ensures !result.Done? ==>
                state == old(state) && unchanged(confirmations) && unchanged(levels) && unchanged(presets) && unchanged(intensive)
      ensures result.Done? <==> command.Some?
      ensures result.Done? ==> command.value.SetMode? && command.value.mode == (if requested.Some? then requested.value else Manual)
      ensures result.Done? ==> Written(result.outcome, OperationModeWrite, ModeValue(command.value.mode), true)
      ensures result.Done? ==> levels.pending.None? && (requested == Some(Off) ==> intensive.pending.None?)
      ensures command.Some? ==> ModePlannedFrom(old(state), old(LevelsShown()).0, command.value)
      ensures command.Some? ==>
                ModeFollowed(old(state), old(mono), old(ShownPending()), old(interruptedAt), command.value)
      ensures OthersFinalKept(old(confirmations.writes), confirmations.writes, OperationModeWrite)
    {
      var nothing;
      nothing, command := PlanRequest(requested);
      if command.None? {
        return if nothing then NothingToDo else AirflowUnknown, None;
      }
      var outcome := WriteMode(command.value.mode);
      result := Done(outcome);
    }

    /** The command for a requested mode, or nothing to do, or neither if the airflow is unknown. */
    method PlanRequest(requested: Option<OperationMode>) returns (nothing: bool, command: Option<Command>)
      requires Valid()
      modifies `uncertainFlow
      ensures Valid()
      ensures nothing <==>
                && !StillUncertain(old(uncertainFlow), state, mono) && requested.None?
                && GroupFresh(state, FlowControl, mono) && state.operationMode in {Some(Off), Some(Manual), Some(Unbalanced)}
      ensures command.Some? <==>
                && !StillUncertain(old(uncertainFlow), state, mono) && !nothing
                && (requested in {None, Some(Manual), Some(Unbalanced)} ==>
                      LevelsShown().0.supply.Some? || state.targetLevel.Some?
                      || state.supplyAirFlow.Some? || state.extractAirFlow.Some?)
      ensures command.Some? ==> command.value.SetMode? && command.value.mode == (if requested.Some? then requested.value else Manual)
      ensures command.Some? ==> ModePlannedFrom(state, LevelsShown().0, command.value)
      ensures command.Some? ==> ModeFollowed(state, mono, ShownPending(), interruptedAt, command.value)
    {
      nothing, command := false, None;
      var uncertain := FlowWriteUncertain();
      if uncertain {
        return;
      }
      if requested.None? && GroupFresh(state, FlowControl, mono) && DirectMode(state.operationMode) {
        nothing := true;
        return;
      }
      command := PlanMode(requested.GetOr(Manual));
    }

    method WriteMode(mode: OperationMode) returns (outcome: WriteOutcome)
      requires Valid()
      modifies this, confirmations, confirmations.diagnostics, levels, presets, intensive
      ensures Valid() && old(run) <= run && levels.pending.None? && (mode == Off ==> intensive.pending.None?)
      ensures Written(outcome, OperationModeWrite, ModeValue(mode), true)
      ensures OthersFinalKept(old(confirmations.writes), confirmations.writes, OperationModeWrite)
    {
      if mode == Off {
        ClearShown(IntensiveWrite);
      }
      ClearShown(AirflowLevels);
      outcome := Write(OperationModeWrite, ModeValue(mode), true);
    }

    /** A mode command with the levels known; manual and unbalanced need a level. */
    method PlanMode(mode: OperationMode) returns (command: Option<Command>)
      requires Valid() && uncertainFlow.None?
      modifies `uncertainFlow
      ensures Valid() && uncertainFlow.None?
      ensures command.Some? <==> (mode in {Manual, Unbalanced} ==>
                                    LevelsShown().0.supply.Some? || state.targetLevel.Some?
                                    || state.supplyAirFlow.Some? || state.extractAirFlow.Some?)
      ensures command.Some? ==> command.value.SetMode? && command.value.mode == mode
      ensures command.Some? ==> ModePlannedFrom(state, LevelsShown().0, command.value)
      ensures command.Some? ==> ModeFollowed(state, mono, ShownPending(), interruptedAt, command.value)
    {
      var effective, _ := ResolveLevels();
      var planned := ModeWriteLevels(state, effective);
      command := if planned.supply.None? && (mode == Manual || mode == Unbalanced) then None
                 else Some(SetMode(mode, planned.supply.GetOr(0), planned.extract.GetOr(0)));
      if command.Some? {
        FollowsSound(maxAirflow, run, confirmations.writes, state, confirmations.next, wall,
                     IssueNumbers(confirmations.issues));
        ModeFollows(state, mono, ShownPending(), interruptedAt, command.value);
      }
    }

    /** Write a preset. */
    method SetPresetMode(preset: Preset) returns (result: CommandResult)
      requires Valid()
      modifies this, confirmations, confirmations.diagnostics, levels, presets, intensive
      ensures Valid() && old(run) <= run && result.Done?
      ensures Written(result.outcome, PresetModeWrite, WriteValue.PresetValue(preset), true) && levels.pending.None?
      ensures OthersFinalKept(old(confirmations.writes), confirmations.writes, PresetModeWrite)
    {
      ClearShown(AirflowLevels);
      var outcome := Write(PresetModeWrite, WriteValue.PresetValue(preset), true);
      result := Done(outcome);
    }

    /** The preset on show: a pending one until it expires or a later read matches it, else the reported one. */
    ghost function PresetShown(): Option<Preset>
      reads this, presets
      requires presets.Valid()
    {
      if presets.pending.Some? && mono < presets.pending.value.expiresAt && presets.pending.value.value.PresetValue?
         && !(presets.ReadSinceSet(state, mono) && presets.Matched(ConfirmedPreset(state)))
      then Some(presets.pending.value.value.preset)
      else state.presetMode
    }

    /** Leave a preset for the mode it stands for. */
    method ClearPresetMode() returns (result: CommandResult, command: Option<Command>)
      requires Valid()
      modifies this, confirmations, confirmations.diagnostics, levels, presets, intensive
      ensures Valid() && old(run) <= run
      ensures result.Done? <==> command.Some?
      ensures result.Done? <==>
                && old(PresetShown()).Some? && !StillUncertain(old(uncertainFlow), old(state), old(mono))
                && (|| old(LevelsShown()).0.supply.Some? || old(state).targetLevel.Some?
                    || old(state).supplyAirFlow.Some? || old(state).extractAirFlow.Some?)
      ensures result.Done? || result == NothingToDo || result == AirflowUnknown
      ensures result.Done? ==> command.value.SetMode? && ModePlannedFrom(old(state), old(LevelsShown()).0, command.value)
      ensures result.Done? ==>
                command.value.mode == (if old(PresetShown()) in {Some(ExtractOnly), Some(SupplyOnly)} then Unbalanced else Manual)
      ensures command.Some? ==>
                ModeFollowed(old(state), old(mono), old(ShownPending()), old(interruptedAt), command.value)
      ensures result == NothingToDo <==> old(PresetShown()).None?
      ensures result == NothingToDo ==> presets.pending.None?
      ensures !result.Done? ==>
                && state == old(state) && unchanged(confirmations)
                && levels.pending == old(levels.pending) && intensive.pending == old(intensive.pending)
                && (result == AirflowUnknown ==> presets.pending == old(presets.pending))
      ensures result.Done? && result.outcome.Accepted? ==> presets.pending.None?
      ensures OthersFinalKept(old(confirmations.writes), confirmations.writes, OperationModeWrite)
    {
      var preset := ShownPreset();
      if preset.None? {
        ClearShown(PresetModeWrite);
        return NothingToDo, None;
      }
      result, command := LeavePreset(ModeBehind(preset.value));
    }

    method LeavePreset(mode: OperationMode) returns (result: CommandResult, command: Option<Command>)
      requires Valid() && mode in {Manual, Unbalanced}
      modifies this, confirmations, confirmations.diagnostics, levels, presets, intensive
      ensures Valid() && old(run) <= run
      ensures result.Done? <==> command.Some?
      ensures result.Done? <==>
                && !StillUncertain(old(uncertainFlow), old(state), old(mono))
                && (|| old(LevelsShown()).0.supply.Some? || old(state).targetLevel.Some?
                    || old(state).supplyAirFlow.Some? || old(state).extractAirFlow.Some?)
      ensures result.Done? || result == AirflowUnknown
      ensures result.Done? ==> command.value.SetMode? && command.value.mode == mode
      ensures result.Done? ==> ModePlannedFrom(old(state), old(LevelsShown()).0, command.value)
      ensures !result.Done? ==>
                state == old(state) && unchanged(confirmations) && unchanged(levels) && unchanged(presets) && unchanged(intensive)
      ensures command.Some? ==>
                ModeFollowed(old(state), old(mono), old(ShownPending()), old(interruptedAt), command.value)
      ensures result.Done? && result.outcome.Accepted? ==> presets.pending.None?
      ensures OthersFinalKept(old(confirmations.writes), confirmations.writes, OperationModeWrite)
    {
      result, command := SetOperationMode(Some(mode));
      if result.Done? && result.outcome.Accepted? {
        ClearShown(PresetModeWrite);
      }
    }

    method ShownPreset() returns (preset: Option<Preset>)
      requires Valid()
      ensures preset == PresetShown()
    {
      var shown := presets.Active(state, ConfirmedPreset(state), mono);
      preset := if shown.Some? && shown.value.PresetValue? then Some(shown.value.preset) else state.presetMode;
    }

    /** Start or end the temporary intensive override. */
    method SetIntensive(on: bool) returns (result: CommandResult)
      requires Valid()
      modifies this, confirmations, confirmations.diagnostics, levels, presets, intensive
      ensures Valid() && old(run) <= run && result.Done? && Written(result.outcome, IntensiveWrite, FlagValue(on), true)
      ensures OthersFinalKept(old(confirmations.writes), confirmations.writes, IntensiveWrite)
    {
      var outcome := Write(IntensiveWrite, FlagValue(on), true);
      result := Done(outcome);
    }

    /** Write a control setting, which the transport rounds to `stepped`. */
    method SetControlSetting(setting: string, stepped: int) returns (result: CommandResult)
      requires Valid()
      modifies this, confirmations, confirmations.diagnostics, levels, presets, intensive
      ensures Valid() && old(run) <= run && result.Done? && Written(result.outcome, ControlSetting(setting), SettingValue(stepped), true)
      ensures OthersFinalKept(old(confirmations.writes), confirmations.writes, ControlSetting(setting))
    {
      var outcome := Write(ControlSetting(setting), SettingValue(stepped), true);
      result := Done(outcome);
    }
  }

  /** How the exact target goes on after a read of the airflow groups that left `base`: while the status map is
      readable, a level write that can still be confirmed has it read now, unless that read is not answered;
      otherwise the one known before is carried on while nothing speaks against it. */
  predicate TargetFollows(base: RoomState, previous: RoomState, next: RoomState, writes: Writes, converged: bool,
                          wall: real, mono: real, number: nat) {
    var recent := AirflowLevels in writes && wall - writes[AirflowLevels].startedAt <= 600.0;
    if !Readable(base, mono) then next == base
    else if recent && writes[AirflowLevels].status in {PendingReadback, Unconfirmed, Mismatch, Unverifiable} then
      next == base || (next.balancedTargetReadback.Some? && next == WithReadback(base, next.balancedTargetReadback, number))
    else if Carries(base, previous, recent && !Converged(converged, base, previous, mono), mono) then
      next == Carried(base, previous)
    else next == base
  }

  /** What is known after read `number` of the airflow groups; the exact target is seen to when airflow was
      read, or after a write unless the read raised. */
  predicate ReadFollows(maxAirflow: int, previous: RoomState, read: AirflowRead, afterWrite: bool, next: RoomState,
                        writes: Writes, converged: bool, wall: real, mono: real, number: nat) {
    var base := AfterAirflowRead(maxAirflow, previous, read, number, mono);
    if (afterWrite && !read.Raised?) || (read.Answered? && read.flow.FlowValues?) then
      TargetFollows(base, previous, next, writes, converged, wall, mono, number + 1)
    else next == base
  }

  /** From event `from` on, the group that confirms `key` was read and the writes were judged after that. */
  predicate ReadBackIn(run: seq<Event>, from: nat, key: WriteKey) {
    exists i, j | from <= i < j < |run| :: run[j] == AllJudged && ReadsGroupOf(run[i], key)
  }

  predicate ReadsGroupOf(e: Event, key: WriteKey) {
    if key.ControlSetting? then e.ControlSettingsRead? else e.AirflowGroupsRead?
  }

  lemma ReadBackLater(run: seq<Event>, longer: seq<Event>, from: nat, start: nat, key: WriteKey)
    requires ReadBackIn(run, from, key) && run <= longer && start <= from
    ensures ReadBackIn(longer, start, key)
  {
    var i, j :| from <= i < j < |run| && run[j] == AllJudged && ReadsGroupOf(run[i], key);
    assert longer[i] == run[i] && longer[j] == run[j];
  }

  lemma ReadFollowsFrom(maxAirflow: int, previous: RoomState, read: AirflowRead, afterWrite: bool, base: RoomState,
                        next: RoomState, writes: Writes, converged: bool, wall: real, mono: real, number: nat)
    requires base == AfterAirflowRead(maxAirflow, previous, read, number, mono)
    requires if (afterWrite && !read.Raised?) || (read.Answered? && read.flow.FlowValues?)
             then TargetFollows(base, previous, next, writes, converged, wall, mono, number + 1) else next == base
    ensures ReadFollows(maxAirflow, previous, read, afterWrite, next, writes, converged, wall, mono, number)
    ensures SameButReadback(base, next)
  {
  }

  /** A pending value is still shown, unless it has expired. */
  predicate KeptShown(before: Option<Shown>, after: Option<Shown>, mono: real) {
    after == before || (after == None && before.Some? && before.value.expiresAt <= mono)
  }

  /** An interrupted flow write is not settled by anything read since. */
  predicate StillUncertain(uncertain: Option<Interruption>, state: RoomState, mono: real) {
    uncertain.Some? && !LevelsReportedSince(state, uncertain.value.control, uncertain.value.flow, mono)
  }

  function PendingLevels(shown: Option<Shown>): Option<LevelPair> {
    if shown.Some? && shown.value.value.LevelsValue?
    then Some(LevelPair(Some(shown.value.value.supply), Some(shown.value.value.extract))) else None
  }

  /** Levels are pending and have not expired. */
  predicate LevelsPend(shown: Option<Shown>, mono: real) {
    PendingLevels(shown).Some? && mono < shown.value.expiresAt
  }

  /** The pending levels a directional command keeps, until they expire. */
  function KeptPending(shown: Option<Shown>, mono: real): (pair: Option<LevelPair>)
    ensures Whole(pair)
  {
    if LevelsPend(shown, mono) then PendingLevels(shown) else None
  }

  /** The levels a directional command keeps: pending ones until they expire, else reported ones. */
  function LevelsKept(shown: Option<Shown>, state: RoomState, mono: real): (LevelPair, Option<LevelSource>) {
    EffectiveLevels(state, mono, KeptPending(shown, mono))
  }

  /** The mode a preset is left for: one that moves a single fan is unbalanced. */
  function ModeBehind(preset: Preset): OperationMode {
    if preset == ExtractOnly || preset == SupplyOnly then Unbalanced else Manual
  }

  predicate DirectMode(mode: Option<OperationMode>) {
    mode == Some(Off) || mode == Some(Manual) || mode == Some(Unbalanced)
  }

  /** `command` is a mode command for these levels. */
  predicate ModePlannedFrom(state: RoomState, effective: LevelPair, command: Command) {
    var planned := ModeWriteLevels(state, effective);
    command.SetMode? && command.balanced == planned.supply.GetOr(0) && command.extractLevel == planned.extract.GetOr(0)
  }

  /** `command` carries out a directional command on these levels. */
  predicate PlannedFrom(state: RoomState, levels: (LevelPair, Option<LevelSource>), direction: Direction, level: int,
                        command: Command) {
    IsCommand(command, PlanDirectionWrite(state, levels.0, levels.1, direction, level))
  }

  lemma SameWritesOnce(writes: Writes)
    ensures SameWrites(writes, writes) && FinalKept(writes, writes)
  {
  }

  lemma UnconfirmedKeeps(writes: Writes, key: WriteKey, c: Confirmation)
    requires key in writes && writes[key].status == PendingReadback && c.status == Unconfirmed
    requires c.number == writes[key].number && c.baseline == writes[key].baseline
    requires c.startedAt == writes[key].startedAt && c.expected == writes[key].expected
    ensures SameWrites(writes, writes[key := c]) && FinalKept(writes, writes[key := c])
  {
  }

  lemma SameWritesTwice(a: Writes, b: Writes, c: Writes)
    requires SameWrites(a, b) && SameWrites(b, c) && FinalKept(a, b) && FinalKept(b, c)
    ensures SameWrites(a, c) && FinalKept(a, c)
  {
  }

  lemma RecordedKeepsFinal(before: Writes, key: WriteKey, c: Confirmation)
    ensures OthersFinalKept(before, WithRecorded(before, key, c), key)
    ensures ReplacedDone(before, WithRecorded(before, key, c), key)
  {
  }

  /** The writes that one under `key` replaces are superseded. */
  predicate ReplacedDone(before: Writes, after: Writes, key: WriteKey) {
    forall k | k in Replaced(before, key) :: k in after && after[k].status == Superseded
  }

  lemma DoneStays(a: Writes, b: Writes, c: Writes, key: WriteKey)
    requires ReplacedDone(a, b, key) && FinalKept(b, c)
    ensures ReplacedDone(a, c, key)
  {
    forall k | k in Replaced(a, key)
      ensures k in c && c[k].status == Superseded
    {
      assert k in b && Final(b[k].status);
    }
  }

  lemma RejectedStays(a: Writes, b: Writes, c: Writes, key: WriteKey)
    requires key in b && b == a[key := b[key]] && Final(b[key].status) && FinalKept(b, c) && SameWrites(b, c)
    ensures OthersFinalKept(a, c, key)
    ensures key in c && c[key].status == b[key].status && c[key].expected == b[key].expected
  {
    FinalKeptOn(a, b, c, key);
  }

  lemma FinalKeptOn(a: Writes, b: Writes, c: Writes, key: WriteKey)
    requires OthersFinalKept(a, b, key) && FinalKept(b, c)
    ensures OthersFinalKept(a, c, key)
  {
    forall k | k in a && k != key && Final(a[k].status)
      ensures k in c && c[k].status == a[k].status
    {
      assert k in b && b[k].status == a[k].status;
    }
  }

  /** Final outcomes have not changed. */
  predicate FinalKept(before: Writes, after: Writes) {
    forall k | k in before && Final(before[k].status) :: k in after && after[k].status == before[k].status
  }

  /** Final outcomes under other keys have not changed. */
  predicate OthersFinalKept(before: Writes, after: Writes, key: WriteKey) {
    forall k | k in before && k != key && Final(before[k].status) :: k in after && after[k].status == before[k].status
  }

  /** What is known of the mode and the airflow is what the interrupted write found, or was read after it. */
  predicate InterruptionKept(uncertain: Option<Interruption>, interruptedAt: nat, state: RoomState) {
    uncertain.Some? ==>
      SinceBaseline(state.HealthFor(FlowControl), uncertain.value.control, interruptedAt)
      && SinceBaseline(state.HealthFor(Flow), uncertain.value.flow, interruptedAt)
  }

  lemma ReadbackKeepsInterruption(a: RoomState, b: RoomState, uncertain: Option<Interruption>, interruptedAt: nat)
    requires SameButReadback(a, b) && InterruptionKept(uncertain, interruptedAt, a)
    ensures InterruptionKept(uncertain, interruptedAt, b)
  {
  }

  /** A read after an interruption keeps the order of the interruption and the reads. */
  lemma ReadKeepsInterruption(maxAirflow: int, writes: Writes, state: RoomState, next: nat, wall: real, read: AirflowRead,
                              at: real, uncertain: Option<Interruption>, interruptedAt: nat)
    requires Sound(writes, state, next, wall)
    requires InterruptionKept(uncertain, interruptedAt, state) && interruptedAt < next
    ensures InterruptionKept(uncertain, interruptedAt, AfterAirflowRead(maxAirflow, state, read, next, at))
  {
    HealthAfterRead(maxAirflow, state, read, next, at, FlowControl);
    HealthAfterRead(maxAirflow, state, read, next, at, Flow);
  }

  lemma CountedIsReported(writes: Writes, issues: seq<Issue>, next: nat, key: WriteKey)
    requires IssuesCounted(writes, issues, next) && key in writes && writes[key].issueCounted
    ensures writes[key].number in IssueNumbers(issues)
  {
  }

  lemma SettingsReadKeeps(state: RoomState, number: nat, settings: map<string, int>, at: real, error: Option<string>)
    ensures var s := SettingsRead(state, number, settings, at, error);
            && s.HealthFor(Flow) == state.HealthFor(Flow) && s.HealthFor(FlowControl) == state.HealthFor(FlowControl)
            && s.HealthFor(ControlSettings).attempt == number
            && s == state.(controlSettings := s.controlSettings, health := s.health)
  {
  }

  predicate SameButReadback(a: RoomState, b: RoomState) {
    b == WithReadback(a, b.balancedTargetReadback, b.readbackRead)
  }

  function ConfirmedLevels(state: RoomState, mono: real): Option<WriteValue> {
    match ReportedLevels(state, mono)
    case Some((pair, _)) =>
      if pair.supply.Some? && pair.extract.Some? then Some(LevelsValue(pair.supply.value, pair.extract.value)) else None
    case None => None
  }

  /** Levels confirm a pending write when both are reported. */
  lemma ConfirmedMeans(state: RoomState, mono: real, supply: int, extract: int)
    ensures ConfirmedLevels(state, mono) == Some(LevelsValue(supply, extract))
       <==> LevelsNow(state, mono).0 == LevelPair(Some(supply), Some(extract))
  {
  }

  function ConfirmedPreset(state: RoomState): Option<WriteValue> {
    if state.presetMode.Some? then Some(WriteValue.PresetValue(state.presetMode.value)) else None
  }

  function ConfirmedFlag(state: RoomState): Option<WriteValue> {
    if state.intensiveActive.Some? then Some(FlagValue(state.intensiveActive.value)) else None
  }
}

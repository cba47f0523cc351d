/** Showing a written value until the gateway confirms it or its time is up. */
module Overlay {
  import opened Wrappers
  import opened Models
  import opened Levels
  import opened WriteJudgement

  datatype Shown = Shown(value: WriteValue, expiresAt: real, baseline: seq<ReadHealth>)

  class OptimisticOverlay {
    const ttlSeconds: real
    const readGroups: seq<Group>
    var pending: Option<Shown>

    ghost predicate Valid()
      reads this
    {
      pending.Some? ==> |pending.value.baseline| == |readGroups|
    }

    constructor (ttlSeconds: real, readGroups: seq<Group>)
      ensures Valid() && this.ttlSeconds == ttlSeconds && this.readGroups == readGroups && pending.None?
    {
      this.ttlSeconds, this.readGroups, pending := ttlSeconds, readGroups, None;
    }

    /** Show `value` from now on. */
    method Set(value: WriteValue, state: RoomState, mono: real)
      modifies this
      ensures Valid() && pending == Some(Shown(value, mono + ttlSeconds, Baselines(readGroups, state)))
      ensures forall i | 0 <= i < |readGroups| :: pending.value.baseline[i] == state.HealthFor(readGroups[i])
    {
      pending := Some(Shown(value, mono + ttlSeconds, Baselines(readGroups, state)));
    }

    method Clear()
      modifies this
      ensures Valid() && pending == None
    {
      pending := None;
    }

    /** A fresh read of one of the groups arrived after the value was set. */
    predicate ReadSinceSet(state: RoomState, mono: real)
      reads this
      requires Valid()
    {
      pending.Some? && exists i | 0 <= i < |readGroups| :: ReadSince(state, readGroups[i], pending.value.baseline[i], mono)
    }

    predicate Matched(confirmed: Option<WriteValue>)
      reads this
    {
      pending.Some? && confirmed.Some? && ValuesMatch(pending.value.value, confirmed.value)
    }

    /** The value to show: the pending one, until it expires or a read made after it shows a match. */
    method Active(state: RoomState, confirmed: Option<WriteValue>, mono: real) returns (shown: Option<WriteValue>)
      requires Valid()
      ensures shown.Some? <==> pending.Some? && mono < pending.value.expiresAt
                               && !(confirmed.Some? && ValuesMatch(pending.value.value, confirmed.value)
                                    && exists i | 0 <= i < |readGroups| ::
                                         && GroupFresh(state, readGroups[i], mono)
                                         && state.HealthFor(readGroups[i]) != pending.value.baseline[i])
      ensures shown.Some? <==> pending.Some? && mono < pending.value.expiresAt
                               && !(ReadSinceSet(state, mono) && Matched(confirmed))
      ensures shown.Some? ==> shown.value == pending.value.value
    {
      var read := ReadSinceSet(state, mono);
      shown := Unconfirmed(if read then confirmed else None, mono);
    }

    method Unconfirmed(confirmed: Option<WriteValue>, mono: real) returns (shown: Option<WriteValue>)
      ensures shown.Some? <==> pending.Some? && mono < pending.value.expiresAt && !Matched(confirmed)
      ensures shown.Some? ==> shown.value == pending.value.value
    {
      if pending.None? || mono >= pending.value.expiresAt || Matched(confirmed) {
        return None;
      }
      shown := Some(pending.value.value);
    }

    /** Drop the pending value when a read made after it shows a match. */
    method SettleIfRead(state: RoomState, confirmed: Option<WriteValue>, mono: real) returns (dropped: bool)
      requires Valid()
      modifies this
      ensures Valid()
      ensures dropped == old(pending.Some? && confirmed.Some? && ValuesMatch(pending.value.value, confirmed.value)
                             && exists i | 0 <= i < |readGroups| ::
                                  && GroupFresh(state, readGroups[i], mono)
                                  && state.HealthFor(readGroups[i]) != pending.value.baseline[i])
      ensures pending == if dropped then None else old(pending)
      ensures pending == StillPending(old(pending), readGroups, state, confirmed, mono)
    {
      dropped := ReadSinceSet(state, mono) && Matched(confirmed);
      if dropped {
        pending := None;
      }
    }

    /** The expiry timer fires. */
    method Expire()
      modifies this
      ensures Valid() && pending == None
    {
      pending := None;
    }
  }

  /** What is still pending after a read: a value that it matches is not, if any of its groups was read since. */
  ghost function StillPending(pending: Option<Shown>, groups: seq<Group>, state: RoomState, confirmed: Option<WriteValue>,
                              mono: real): Option<Shown>
    requires pending.Some? ==> |pending.value.baseline| == |groups|
  {
    if pending.Some? && confirmed.Some? && ValuesMatch(pending.value.value, confirmed.value)
       && exists i | 0 <= i < |groups| :: GroupFresh(state, groups[i], mono) && state.HealthFor(groups[i]) != pending.value.baseline[i]
    then None else pending
  }

  function Baselines(groups: seq<Group>, state: RoomState): seq<ReadHealth> {
    seq(|groups|, i requires 0 <= i < |groups| => state.HealthFor(groups[i]))
  }
}

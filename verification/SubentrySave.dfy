/** Storing the rooms of a rescan as config subentries, one step at a time.

    A store refuses to hold two subentries with the same unique ID, so every step has to keep them
    apart, also while units swap addresses.
  */
module SubentrySave {
  import opened Wrappers
  import opened Reconcile
  import opened RoomBuilder

  type SubentryId = nat

  /** A unit's subentry: its data, its title, and its unique ID, which is its address or nothing. */
  datatype Subentry = Subentry(room: Room, title: string, uniqueId: Option<int>)

  type Store = map<SubentryId, Subentry>

  predicate UniqueIds(store: Store) {
    forall a, b | a in store && b in store && a != b && store[a].uniqueId.Some? :: store[a].uniqueId != store[b].uniqueId
  }

  predicate StoredKeysDistinct(store: Store) {
    forall a, b | a in store && b in store && a != b :: store[a].room.key != store[b].room.key
  }

  predicate SlavesDistinct(rooms: seq<Room>) {
    forall i, j | 0 <= i < j < |rooms| :: rooms[i].slave != rooms[j].slave
  }

  /** Every room with the key of a stored subentry is paired with it, every other one with none. */
  predicate Paired(store: Store, rooms: seq<Room>, kept: seq<Option<SubentryId>>) {
    && |kept| <= |rooms|
    && forall i | 0 <= i < |kept| ::
         if kept[i].Some? then kept[i].value in store && store[kept[i].value].room.key == rooms[i].key
         else forall id | id in store :: store[id].room.key != rooms[i].key
  }

  function KeptIds(kept: seq<Option<SubentryId>>): set<SubentryId> {
    set k | k in kept && k.Some? :: k.value
  }

  lemma KeptOnce(store: Store, rooms: seq<Room>, kept: seq<Option<SubentryId>>, i: nat, j: nat)
    requires Paired(store, rooms, kept) && KeysDistinct(rooms)
    requires i < j < |kept| && kept[i].Some? && kept[j].Some?
    ensures kept[i] != kept[j]
  {
  }

  lemma KeptDistinct(store: Store, rooms: seq<Room>, kept: seq<Option<SubentryId>>)
    requires Paired(store, rooms, kept) && KeysDistinct(rooms)
    ensures forall i, j | 0 <= i < j < |kept| && kept[i].Some? :: kept[i] != kept[j]
  {
    forall i, j | 0 <= i < j < |kept| && kept[i].Some?
      ensures kept[i] != kept[j]
    {
      if kept[j].Some? {
        KeptOnce(store, rooms, kept, i, j);
      }
    }
  }

  lemma PairedRemains(store: Store, remaining: Store, rooms: seq<Room>, kept: seq<Option<SubentryId>>)
    requires Paired(store, rooms, kept) && remaining == store - (store.Keys - KeptIds(kept))
    ensures Paired(remaining, rooms, kept) && remaining.Keys == KeptIds(kept)
  {
    assert forall i | 0 <= i < |kept| && kept[i].Some? :: kept[i].value in KeptIds(kept);
  }

  // -------------------------------------------------------------------
  //  The steps
  // -------------------------------------------------------------------

  class ConfigEntry {
    var subentries: Store
    // Every ID given out so far is smaller.
    var nextId: SubentryId

    ghost predicate Valid()
      reads this
    {
      UniqueIds(subentries) && forall id | id in subentries :: id < nextId
    }

    constructor ()
      ensures Valid() && subentries == map[]
    {
      subentries, nextId := map[], 0;
    }

    method Remove(id: SubentryId)
      requires Valid()
      modifies `subentries
      ensures Valid() && subentries == old(subentries) - {id}
    {
      subentries := subentries - {id};
    }

    /** The store refuses a unique ID that another subentry holds. */
    method Update(id: SubentryId, room: Room, uniqueId: Option<int>)
      requires Valid() && id in subentries
      requires forall other | other in subentries && other != id && uniqueId.Some? :: subentries[other].uniqueId != uniqueId
      modifies `subentries
      ensures Valid()
      ensures subentries == old(subentries)[id := old(subentries)[id].(room := room, uniqueId := uniqueId)]
    {
      subentries := subentries[id := subentries[id].(room := room, uniqueId := uniqueId)];
    }

    method Add(subentry: Subentry) returns (id: SubentryId)
      requires Valid()
      requires forall other | other in subentries && subentry.uniqueId.Some? ::
                 subentries[other].uniqueId != subentry.uniqueId
      modifies this
      ensures Valid() && id == old(nextId) && nextId == id + 1
      ensures subentries == old(subentries)[id := subentry]
    {
      id := nextId;
      nextId := nextId + 1;
      subentries := subentries[id := subentry];
    }

    /** The subentries by the key of their unit. */
    method ByKey() returns (byKey: map<string, SubentryId>)
      requires StoredKeysDistinct(subentries)
      ensures forall key | key in byKey :: byKey[key] in subentries && subentries[byKey[key]].room.key == key
      ensures forall id | id in subentries :: subentries[id].room.key in byKey && byKey[subentries[id].room.key] == id
    {
      byKey := map[];
      var rest := subentries.Keys;
      while rest != {}
        invariant rest <= subentries.Keys
        invariant forall key | key in byKey :: byKey[key] in subentries && subentries[byKey[key]].room.key == key
        invariant forall id | id in subentries && id !in rest ::
                    subentries[id].room.key in byKey && byKey[subentries[id].room.key] == id
        decreases rest
      {
        var id := AnyOf(rest);
        byKey := byKey[subentries[id].room.key := id];
        rest := rest - {id};
      }
    }

    /** Pair rooms with subentries; what is left over is stale. */
    method Pair(rooms: seq<Room>) returns (kept: seq<Option<SubentryId>>, stale: set<SubentryId>)
      requires StoredKeysDistinct(subentries) && KeysDistinct(rooms)
      ensures |kept| == |rooms| && Paired(subentries, rooms, kept)
      ensures stale == subentries.Keys - KeptIds(kept)
    {
      var byKey := ByKey();
      kept, stale := [], subentries.Keys;
      for i := 0 to |rooms|
        invariant |kept| == i && Paired(subentries, rooms, kept)
        invariant stale == subentries.Keys - KeptIds(kept)
      {
        var id := if rooms[i].key in byKey then Some(byKey[rooms[i].key]) else None;
        KeptNext(kept, id);
        kept := kept + [id];
        stale := if id.Some? then stale - {id.value} else stale;
      }
    }

    method RemoveStale(stale: set<SubentryId>)
      requires Valid()
      modifies `subentries
      ensures Valid() && subentries == old(subentries) - stale
    {
      var rest := stale;
      while rest != {}
        invariant rest <= stale
        invariant Valid() && subentries == old(subentries) - (stale - rest)
        decreases rest
      {
        var id := AnyOf(rest);
        Remove(id);
        rest := rest - {id};
      }
    }

    /** Give up the unique ID of every kept subentry whose unit has another address now. */
    method Release(rooms: seq<Room>, kept: seq<Option<SubentryId>>)
      requires Valid()
      requires |kept| == |rooms| && Paired(subentries, rooms, kept) && KeysDistinct(rooms)
      modifies `subentries
      ensures Valid() && subentries.Keys == old(subentries).Keys
      ensures forall id | id in subentries ::
                subentries[id].room == old(subentries)[id].room && subentries[id].title == old(subentries)[id].title
      ensures forall i | 0 <= i < |kept| && kept[i].Some? ::
                Released(old(subentries), subentries, kept[i].value, rooms[i].slave)
    {
      for i := 0 to |rooms|
        invariant Valid() && subentries.Keys == old(subentries).Keys
        invariant forall id | id in subentries ::
                    subentries[id].room == old(subentries)[id].room && subentries[id].title == old(subentries)[id].title
        invariant forall k | 0 <= k < i && kept[k].Some? ::
                    Released(old(subentries), subentries, kept[k].value, rooms[k].slave)
        invariant forall k | i <= k < |kept| && kept[k].Some? ::
                    subentries[kept[k].value].uniqueId == old(subentries)[kept[k].value].uniqueId
      {
        if kept[i].Some? && subentries[kept[i].value].uniqueId != Some(rooms[i].slave) {
          KeptDistinct(subentries, rooms, kept);
          Update(kept[i].value, subentries[kept[i].value].room, None);
        }
      }
    }

    /** Store one room in its subentry, or in a new one. */
    method StoreRoom(room: Room, kept: Option<SubentryId>) returns (id: SubentryId)
      requires Valid() && (kept.Some? ==> kept.value in subentries)
      requires forall other | other in subentries && Some(other) != kept :: subentries[other].uniqueId != Some(room.slave)
      modifies this
      ensures Valid() && old(nextId) <= nextId
      ensures id == if kept.Some? then kept.value else old(nextId)
      ensures subentries == old(subentries)[id := Subentry(room, if kept.Some? then old(subentries)[id].title else room.name,
                                                           Some(room.slave))]
    {
      if kept.None? {
        id := Add(Subentry(room, room.name, Some(room.slave)));
      } else {
        id := kept.value;
        Update(id, room, Some(room.slave));
      }
    }

    /** Store every room. `place` says where. */
    method StoreRooms(rooms: seq<Room>, kept: seq<Option<SubentryId>>) returns (ghost place: seq<SubentryId>)
      requires Valid() && SlavesDistinct(rooms)
      requires |kept| == |rooms| && (forall i | 0 <= i < |kept| && kept[i].Some? ::
                 HasAddressOrNone(subentries, kept[i].value, rooms[i].slave))
      requires forall i, j | 0 <= i < j < |kept| && kept[i].Some? :: kept[i] != kept[j]
      requires subentries.Keys == KeptIds(kept)
      modifies this
      ensures Valid()
      ensures subentries.Keys == old(subentries).Keys + (set id | id in place)
      ensures IsPlacement(old(nextId), old(subentries), subentries, rooms, kept, place, |rooms|)
    {
      place := [];
      for i := 0 to |rooms|
        invariant Valid() && old(nextId) <= nextId
        invariant subentries.Keys == old(subentries).Keys + (set id | id in place)
        invariant IsPlacement(old(nextId), old(subentries), subentries, rooms, kept, place, i)
        invariant forall k | 0 <= k < i :: place[k] < nextId
        invariant forall k | i <= k < |rooms| && kept[k].Some? ::
                    kept[k].value in subentries && subentries[kept[k].value] == old(subentries)[kept[k].value]
      {
        OthersDiffer(old(nextId), old(subentries), subentries, rooms, kept, place, i);
        ghost var before, next := subentries, nextId;
        var id := StoreRoom(rooms[i], kept[i]);
        PlaceNext(old(nextId), next, old(subentries), before, subentries, rooms, kept, place, id);
        place := place + [id];
      }
    }

    /** Save the rooms of a rescan. Afterwards there is exactly one subentry per room, at its address;
        a room whose key was stored is in the subentry that held it, under its old title. */
    method SaveProfiles(rooms: seq<Room>) returns (ghost place: seq<SubentryId>, ghost kept: seq<Option<SubentryId>>)
      requires Valid() && StoredKeysDistinct(subentries)
      requires KeysDistinct(rooms) && SlavesDistinct(rooms)
      modifies this
      ensures Valid()
      ensures |kept| == |rooms| && Paired(old(subentries), rooms, kept)
      ensures subentries.Keys == (set id | id in place)
      ensures IsPlacement(old(nextId), old(subentries), subentries, rooms, kept, place, |rooms|)
    {
      var pairs, stale := Pair(rooms);
      kept := pairs;
      RemoveStale(stale);
      ghost var remaining := subentries;
      PairedRemains(old(subentries), remaining, rooms, pairs);
      Release(rooms, pairs);
      KeptDistinct(remaining, rooms, pairs);
      ghost var released := subentries;
      place := StoreRooms(rooms, pairs);
      AllPlaced(old(nextId), released, subentries, rooms, pairs, place);
    }
  }

  /** The unique ID is kept if it is the unit's address, and given up otherwise. */
  predicate Released(before: Store, after: Store, id: SubentryId, slave: int) {
    id in before && id in after
    && after[id].uniqueId == (if before[id].uniqueId == Some(slave) then Some(slave) else None)
  }

  predicate HasAddressOrNone(store: Store, id: SubentryId, slave: int) {
    id in store && (store[id].uniqueId.None? || store[id].uniqueId == Some(slave))
  }

  /** The room is in subentry `id`: the one that held its key, under its old title, or a new one. */
  predicate Placed(firstNew: SubentryId, before: Store, after: Store, room: Room, kept: Option<SubentryId>, id: SubentryId) {
    && id in after && after[id].room == room && after[id].uniqueId == Some(room.slave)
    && (if kept.Some? then id == kept.value && id in before && after[id].title == before[id].title
        else firstNew <= id && after[id].title == room.name)
  }

  /** The first `n` rooms each have a place of their own. */
  predicate IsPlacement(firstNew: SubentryId, before: Store, after: Store, rooms: seq<Room>,
                        kept: seq<Option<SubentryId>>, place: seq<SubentryId>, n: nat) {
    && |place| == n <= |rooms| == |kept|
    && (forall i, j | 0 <= i < j < n :: place[i] != place[j])
    && (forall i | 0 <= i < n :: Placed(firstNew, before, after, rooms[i], kept[i], place[i]))
  }

  lemma OthersDiffer(firstNew: SubentryId, before: Store, now: Store, rooms: seq<Room>, kept: seq<Option<SubentryId>>,
                     place: seq<SubentryId>, i: nat)
    requires i < |rooms| && SlavesDistinct(rooms) && IsPlacement(firstNew, before, now, rooms, kept, place, i)
    requires before.Keys == KeptIds(kept) && now.Keys == before.Keys + (set id | id in place)
    requires forall k | 0 <= k < |kept| && kept[k].Some? :: HasAddressOrNone(before, kept[k].value, rooms[k].slave)
    requires forall k | i <= k < |rooms| && kept[k].Some? :: kept[k].value in now && now[kept[k].value] == before[kept[k].value]
    ensures forall id | id in now && Some(id) != kept[i] :: now[id].uniqueId != Some(rooms[i].slave)
  {
    forall k | 0 <= k < i && kept[k].Some?
      ensures kept[k].value in place
    {
      assert Placed(firstNew, before, now, rooms[k], kept[k], place[k]) && place[k] in place;
    }
    forall id | id in now && Some(id) != kept[i]
      ensures now[id].uniqueId != Some(rooms[i].slave)
    {
      if id in place {
        var k :| 0 <= k < i && place[k] == id;
        assert Placed(firstNew, before, now, rooms[k], kept[k], place[k]);
      } else {
        var k :| 0 <= k < |kept| && kept[k] == Some(id);
        assert HasAddressOrNone(before, kept[k].value, rooms[k].slave);
      }
    }
  }

  lemma PlaceNext(firstNew: SubentryId, next: SubentryId, before: Store, now: Store, after: Store, rooms: seq<Room>,
                  kept: seq<Option<SubentryId>>, place: seq<SubentryId>, id: SubentryId)
    requires |place| < |rooms| && IsPlacement(firstNew, before, now, rooms, kept, place, |place|)
    requires firstNew <= next && (forall k | 0 <= k < |place| :: place[k] < next)
    requires (forall x | x in before :: x < firstNew)
    requires forall i, j | 0 <= i < j < |kept| && kept[i].Some? :: kept[i] != kept[j]
    requires var k := kept[|place|]; var room := rooms[|place|];
             && (k.Some? ==> k.value in before && k.value in now && now[k.value] == before[k.value])
             && id == (if k.Some? then k.value else next)
             && after == now[id := Subentry(room, if k.Some? then now[id].title else room.name, Some(room.slave))]
    ensures IsPlacement(firstNew, before, after, rooms, kept, place + [id], |place| + 1)
  {
    forall i | 0 <= i < |place|
      ensures place[i] != id
    {
      assert Placed(firstNew, before, now, rooms[i], kept[i], place[i]);
    }
  }

  /** Every remaining subentry is some room's. */
  lemma AllPlaced(firstNew: SubentryId, before: Store, after: Store, rooms: seq<Room>, kept: seq<Option<SubentryId>>,
                  place: seq<SubentryId>)
    requires IsPlacement(firstNew, before, after, rooms, kept, place, |rooms|)
    requires before.Keys == KeptIds(kept) && after.Keys == before.Keys + (set id | id in place)
    ensures after.Keys == set id | id in place
  {
    forall id | id in before
      ensures id in place
    {
      var i :| 0 <= i < |kept| && kept[i] == Some(id);
      assert Placed(firstNew, before, after, rooms[i], kept[i], place[i]);
    }
  }

  // -------------------------------------------------------------------
  //  Which stored subentries survive
  // -------------------------------------------------------------------

  /** A stored subentry survives a save exactly when some room has its key. */
  lemma SurvivesExactly(firstNew: SubentryId, before: Store, after: Store, rooms: seq<Room>,
                        kept: seq<Option<SubentryId>>, place: seq<SubentryId>, id: SubentryId)
    requires |kept| == |rooms| && Paired(before, rooms, kept) && StoredKeysDistinct(before)
    requires IsPlacement(firstNew, before, after, rooms, kept, place, |rooms|)
    requires after.Keys == (set x | x in place) && (forall x | x in before :: x < firstNew) && id in before
    ensures id in after <==> before[id].room.key in Keys(rooms)
  {
    if id in after {
      var i :| 0 <= i < |place| && place[i] == id;
      assert Placed(firstNew, before, after, rooms[i], kept[i], place[i]);
      assert rooms[i] in rooms;
    }
    if before[id].room.key in Keys(rooms) {
      var r :| r in rooms && r.key == before[id].room.key;
      var i :| 0 <= i < |rooms| && rooms[i] == r;
      assert Placed(firstNew, before, after, rooms[i], kept[i], place[i]);
    }
  }

  lemma KeptNext(kept: seq<Option<SubentryId>>, id: Option<SubentryId>)
    ensures KeptIds(kept + [id]) == KeptIds(kept) + (if id.Some? then {id.value} else {})
  {
    forall x | x in KeptIds(kept)
      ensures x in KeptIds(kept + [id])
    {
      assert Some(x) in kept + [id];
    }
    assert id in kept + [id];
  }
}

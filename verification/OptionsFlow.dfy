/** A whole rescan: match, build, match again, and save. */
module OptionsFlow {
  import opened Wrappers
  import opened Reconcile
  import opened RoomBuilder
  import opened NameSearch
  import opened SubentrySave

  /** `id` holds the unit at `address`. */
  predicate Holds(store: Store, id: SubentryId, address: int) {
    id in store && store[id].room.slave == address
  }

  predicate AddressesDistinct(store: Store) {
    forall a, b | a in store && b in store && a != b :: store[a].room.slave != store[b].room.slave
  }

  /** `rooms` lists every unit of the store by address, named by its title. */
  ghost predicate Lists(store: Store, rooms: Rooms) {
    && (forall id | id in store :: store[id].room.slave in rooms
                                   && rooms[store[id].room.slave] == store[id].room.(name := store[id].title))
    && (forall address | address in rooms :: exists id :: Holds(store, id, address))
  }

  method UnitRooms(entry: ConfigEntry) returns (rooms: Rooms)
    requires AddressesDistinct(entry.subentries)
    ensures Lists(entry.subentries, rooms)
  {
    rooms := map[];
    var rest := entry.subentries.Keys;
    while rest != {}
      invariant rest <= entry.subentries.Keys
      invariant forall id | id in entry.subentries && id !in rest :: var e := entry.subentries[id];
                  e.room.slave in rooms && rooms[e.room.slave] == e.room.(name := e.title)
      invariant forall address | address in rooms :: exists id :: Holds(entry.subentries, id, address)
      decreases rest
    {
      var id := AnyOf(rest);
      var e := entry.subentries[id];
      assert Holds(entry.subentries, id, e.room.slave);
      rooms := rooms[e.room.slave := e.room.(name := e.title)];
      rest := rest - {id};
    }
  }

  /** One subentry per address, and no other. */
  ghost predicate OnePerAddress(slaves: seq<int>, after: Store) {
    && (forall slave | slave in slaves :: exists id :: Holds(after, id, slave))
    && (forall id | id in after :: after[id].room.slave in slaves && after[id].uniqueId == Some(after[id].room.slave))
    && AddressesDistinct(after)
  }

  /** Every kept unit is in its own subentry, at its new address. */
  ghost predicate KeptUnits(slaves: seq<int>, probes: Probes, before: Store, existing: Rooms, after: Store) {
    forall slave, from, id | Assigned(slaves, probes, existing, slave, from) && Holds(before, id, from) ::
      Holds(after, id, slave) && after[id].room.key == before[id].room.key && after[id].title == before[id].title
  }

  ghost predicate Unclaimed(slaves: seq<int>, probes: Probes, existing: Rooms, from: int) {
    forall slave :: !Assigned(slaves, probes, existing, slave, from)
  }

  /** The address has no stored unit, and `key` is the first of its keys that no kept unit has. */
  ghost predicate GetsKey(slaves: seq<int>, matched: Rooms, slave: int, key: string) {
    slave in slaves && slave !in matched && FirstFree(DefaultKey(slave), "_", "", MatchedKeys(matched), key)
  }

  /** A unit that no address is assigned loses its subentry, unless an address gets its key: then the
      subentry is that address's, still under the old title. */
  ghost predicate UnclaimedUnits(slaves: seq<int>, probes: Probes, before: Store, existing: Rooms, matched: Rooms,
                                 after: Store) {
    forall id, from | Holds(before, id, from) && Unclaimed(slaves, probes, existing, from) ::
      && (id in after <==> exists slave :: GetsKey(slaves, matched, slave, before[id].room.key))
      && (forall slave | GetsKey(slaves, matched, slave, before[id].room.key) ::
            Holds(after, id, slave) && after[id].title == before[id].title)
  }

  /** Every subentry holds the unit of its address with the profile selected for it and the code that follows
      from what was probed and stored. */
  ghost predicate UnitsBuilt(slaves: seq<int>, selected: map<int, Selection>, probes: Probes, existing: Rooms, after: Store) {
    forall id | id in after :: var room := after[id].room;
      && room.slave in selected && room.profile == selected[room.slave].profile
      && CodeFollows(room.code, slaves, probes, existing, room.slave)
  }

  lemma PlacedUnits(slaves: seq<int>, selected: map<int, Selection>, probes: Probes, firstNew: SubentryId,
                    before: Store, existing: Rooms, matched: Rooms, after: Store, rooms: seq<Room>,
                    kept: seq<Option<SubentryId>>, place: seq<SubentryId>)
    requires |rooms| == |slaves| && (forall i | 0 <= i < |rooms| :: Keeps(rooms[i], slaves[i], selected, probes, matched))
    requires IsMatch(slaves, probes, existing, matched)
    requires IsPlacement(firstNew, before, after, rooms, kept, place, |rooms|)
    requires after.Keys == (set x | x in place)
    ensures UnitsBuilt(slaves, selected, probes, existing, after)
  {
    forall id | id in after
      ensures var room := after[id].room;
              && room.slave in selected && room.profile == selected[room.slave].profile
              && CodeFollows(room.code, slaves, probes, existing, room.slave)
    {
      var i :| 0 <= i < |place| && place[i] == id;
      assert Placed(firstNew, before, after, rooms[i], kept[i], place[i]);
      assert Keeps(rooms[i], slaves[i], selected, probes, matched);
      CodeIsFollowed(slaves, probes, existing, matched, slaves[i]);
    }
  }

  lemma KeptInPlace(slaves: seq<int>, selected: map<int, Selection>, probes: Probes, firstNew: SubentryId,
                    before: Store, existing: Rooms, matched: Rooms, after: Store, rooms: seq<Room>,
                    kept: seq<Option<SubentryId>>, place: seq<SubentryId>, slave: int, from: int, id: SubentryId)
    requires |rooms| == |slaves| && (forall i | 0 <= i < |rooms| :: Keeps(rooms[i], slaves[i], selected, probes, matched))
    requires IsMatch(slaves, probes, existing, matched) && WellStored(matched)
    requires Lists(before, existing) && StoredKeysDistinct(before) && |kept| == |rooms| && Paired(before, rooms, kept)
    requires IsPlacement(firstNew, before, after, rooms, kept, place, |rooms|)
    requires Assigned(slaves, probes, existing, slave, from) && Holds(before, id, from)
    ensures Holds(after, id, slave) && after[id].room.key == before[id].room.key && after[id].title == before[id].title
  {
    MatchedRoom(slaves, probes, existing, matched, slave, from);
    var i :| 0 <= i < |slaves| && slaves[i] == slave;
    assert Keeps(rooms[i], slave, selected, probes, matched);
    assert rooms[i].key == before[id].room.key;
    assert kept[i] == Some(id);
    assert Placed(firstNew, before, after, rooms[i], kept[i], place[i]);
  }

  lemma PlacedRooms(slaves: seq<int>, firstNew: SubentryId, before: Store, after: Store, rooms: seq<Room>,
                    kept: seq<Option<SubentryId>>, place: seq<SubentryId>)
    requires |rooms| == |slaves| && (forall i | 0 <= i < |rooms| :: rooms[i].slave == slaves[i])
    requires IsPlacement(firstNew, before, after, rooms, kept, place, |rooms|)
    requires after.Keys == (set x | x in place) && UniqueIds(after)
    ensures OnePerAddress(slaves, after)
  {
    forall slave | slave in slaves
      ensures exists id :: Holds(after, id, slave)
    {
      var i :| 0 <= i < |slaves| && slaves[i] == slave;
      assert Placed(firstNew, before, after, rooms[i], kept[i], place[i]);
      assert Holds(after, place[i], slave);
    }
    forall id | id in after
      ensures after[id].room.slave in slaves && after[id].uniqueId == Some(after[id].room.slave)
    {
      var i :| 0 <= i < |place| && place[i] == id;
      assert Placed(firstNew, before, after, rooms[i], kept[i], place[i]);
      assert after[id].room.slave == slaves[i];
    }
  }

  /** The key of a unit no address is assigned only goes to an address without a unit. */
  lemma KeyIsNew(slaves: seq<int>, selected: map<int, Selection>, probes: Probes, existing: Rooms, matched: Rooms,
                 room: Room, slave: int, from: int)
    requires slave in slaves && Keeps(room, slave, selected, probes, matched)
    requires IsMatch(slaves, probes, existing, matched) && WellStored(existing) && WellStored(matched)
    requires from in existing && existing[from].key == room.key && Unclaimed(slaves, probes, existing, from)
    ensures GetsKey(slaves, matched, slave, room.key)
  {
    if slave in matched {
      assert false;
    }
  }

  lemma UnclaimedSurvives(slaves: seq<int>, selected: map<int, Selection>, probes: Probes, firstNew: SubentryId,
                          before: Store, existing: Rooms, matched: Rooms, after: Store, rooms: seq<Room>,
                          kept: seq<Option<SubentryId>>, place: seq<SubentryId>, id: SubentryId, from: int)
    requires |rooms| == |slaves| && (forall i | 0 <= i < |rooms| :: Keeps(rooms[i], slaves[i], selected, probes, matched))
    requires IsMatch(slaves, probes, existing, matched) && WellStored(existing) && WellStored(matched)
    requires Lists(before, existing) && StoredKeysDistinct(before) && |kept| == |rooms| && Paired(before, rooms, kept)
    requires IsPlacement(firstNew, before, after, rooms, kept, place, |rooms|)
    requires after.Keys == (set x | x in place) && (forall x | x in before :: x < firstNew)
    requires Holds(before, id, from) && Unclaimed(slaves, probes, existing, from) && id in after
    ensures exists slave :: GetsKey(slaves, matched, slave, before[id].room.key)
  {
    SurvivesExactly(firstNew, before, after, rooms, kept, place, id);
    var r :| r in rooms && r.key == before[id].room.key;
    var i :| 0 <= i < |rooms| && rooms[i] == r;
    KeyIsNew(slaves, selected, probes, existing, matched, rooms[i], slaves[i], from);
    assert GetsKey(slaves, matched, slaves[i], before[id].room.key);
  }

  lemma KeyTakenOver(slaves: seq<int>, selected: map<int, Selection>, probes: Probes, firstNew: SubentryId,
                     before: Store, matched: Rooms, after: Store, rooms: seq<Room>,
                     kept: seq<Option<SubentryId>>, place: seq<SubentryId>, id: SubentryId, slave: int)
    requires |rooms| == |slaves| && (forall i | 0 <= i < |rooms| :: Keeps(rooms[i], slaves[i], selected, probes, matched))
    requires WellStored(matched) && StoredKeysDistinct(before) && |kept| == |rooms| && Paired(before, rooms, kept)
    requires IsPlacement(firstNew, before, after, rooms, kept, place, |rooms|)
    requires id in before && GetsKey(slaves, matched, slave, before[id].room.key)
    ensures Holds(after, id, slave) && after[id].title == before[id].title
  {
    var i :| 0 <= i < |slaves| && slaves[i] == slave;
    assert Keeps(rooms[i], slave, selected, probes, matched);
    FirstFreeUnique(DefaultKey(slave), "_", "", MatchedKeys(matched), before[id].room.key, rooms[i].key);
    assert kept[i] == Some(id);
    assert Placed(firstNew, before, after, rooms[i], kept[i], place[i]);
  }

  lemma UnitsFollowed(slaves: seq<int>, selected: map<int, Selection>, probes: Probes, firstNew: SubentryId,
                      before: Store, existing: Rooms, matched: Rooms, after: Store, rooms: seq<Room>,
                      kept: seq<Option<SubentryId>>, place: seq<SubentryId>)
    requires |rooms| == |slaves| && (forall i | 0 <= i < |rooms| :: Keeps(rooms[i], slaves[i], selected, probes, matched))
    requires IsMatch(slaves, probes, existing, matched) && WellStored(existing) && WellStored(matched)
    requires Lists(before, existing) && StoredKeysDistinct(before) && |kept| == |rooms| && Paired(before, rooms, kept)
    requires IsPlacement(firstNew, before, after, rooms, kept, place, |rooms|)
    requires after.Keys == (set x | x in place) && (forall x | x in before :: x < firstNew)
    ensures KeptUnits(slaves, probes, before, existing, after)
    ensures UnclaimedUnits(slaves, probes, before, existing, matched, after)
  {
    forall slave, from, id | Assigned(slaves, probes, existing, slave, from) && Holds(before, id, from)
      ensures Holds(after, id, slave) && after[id].room.key == before[id].room.key && after[id].title == before[id].title
    {
      KeptInPlace(slaves, selected, probes, firstNew, before, existing, matched, after, rooms, kept, place, slave, from, id);
    }
    forall id, slave | id in before && GetsKey(slaves, matched, slave, before[id].room.key)
      ensures Holds(after, id, slave) && after[id].title == before[id].title
    {
      KeyTakenOver(slaves, selected, probes, firstNew, before, matched, after, rooms, kept, place, id, slave);
    }
    forall id, from | Holds(before, id, from) && Unclaimed(slaves, probes, existing, from) && id in after
      ensures exists slave :: GetsKey(slaves, matched, slave, before[id].room.key)
    {
      UnclaimedSurvives(slaves, selected, probes, firstNew, before, existing, matched, after, rooms, kept, place, id, from);
    }
  }

  /** A rescan: the flow matches, the builder matches again, the result is saved. There is always one
      subentry per address; with well stored units and distinct stored codes every kept unit has its own,
      and which of the others survive is known beforehand. */
  method Rescan(entry: ConfigEntry, slaves: seq<int>, selected: map<int, Selection>, probes: Probes)
    returns (ghost existing: Rooms, ghost matched: Rooms)
    requires entry.Valid() && StoredKeysDistinct(entry.subentries) && AddressesDistinct(entry.subentries)
    requires Distinct(slaves) && forall slave | slave in slaves :: slave in selected
    modifies entry
    ensures entry.Valid() && Lists(old(entry.subentries), existing) && IsMatch(slaves, probes, existing, matched)
    ensures OnePerAddress(slaves, entry.subentries)
    ensures WellStored(existing) && CodesDistinct(existing) ==>
              && UnitsBuilt(slaves, selected, probes, existing, entry.subentries)
              && KeptUnits(slaves, probes, old(entry.subentries), existing, entry.subentries)
              && UnclaimedUnits(slaves, probes, old(entry.subentries), existing, matched, entry.subentries)
  {
    var stored := UnitRooms(entry);
    var claimed := MatchExistingRooms(slaves, probes, stored);
    existing, matched := stored, claimed;
    var rooms;
    ghost var again;
    rooms, again := BuildRooms(slaves, selected, probes, claimed);
    RoomsApart(slaves, selected, probes, again, rooms);
    ghost var place, kept;
    ghost var firstNew := entry.nextId;
    place, kept := entry.SaveProfiles(rooms);
    PlacedRooms(slaves, firstNew, old(entry.subentries), entry.subentries, rooms, kept, place);
    if WellStored(existing) && CodesDistinct(existing) {
      RematchSame(slaves, probes, existing, matched, again);
      MatchWellStored(slaves, probes, existing, matched);
      PlacedUnits(slaves, selected, probes, firstNew, old(entry.subentries), existing, matched, entry.subentries,
                  rooms, kept, place);
      UnitsFollowed(slaves, selected, probes, firstNew, old(entry.subentries), existing, matched, entry.subentries,
                    rooms, kept, place);
    }
  }

  lemma RoomsApart(slaves: seq<int>, selected: map<int, Selection>, probes: Probes, matched: Rooms, rooms: seq<Room>)
    requires Distinct(slaves) && |rooms| == |slaves|
    requires forall i | 0 <= i < |rooms| :: Keeps(rooms[i], slaves[i], selected, probes, matched)
    ensures SlavesDistinct(rooms)
  {
  }

  // -------------------------------------------------------------------
  //  Units that are gone
  // -------------------------------------------------------------------

  const GONE := Room(DefaultKey(5), "Bath", 7, "ii_plain", Some("A"), true)

  lemma DepartedKeyReused(slaves: seq<int>, probes: Probes, existing: Rooms, matched: Rooms)
    requires slaves == [5] && probes == map[5 := Some("B")] && existing == map[7 := GONE]
    requires IsMatch(slaves, probes, existing, matched)
    ensures Unclaimed(slaves, probes, existing, 7) && GetsKey(slaves, matched, 5, GONE.key)
  {
    assert IsMatch(slaves, probes, existing, map[]);
    MatchUnique(slaves, probes, existing, matched, map[]);
  }

  /** A unit the gateway no longer reports does not always lose its subentry: here the unit of address 7 is
      gone, and the unit now found at address 5 takes its key, its subentry and its title. */
  method DepartedSurvives(entry: ConfigEntry, id: SubentryId)
    requires entry.Valid() && entry.subentries == map[id := Subentry(GONE, "Bath", Some(7))]
    modifies entry
    ensures entry.Valid() && Holds(entry.subentries, id, 5) && entry.subentries[id].title == "Bath"
  {
    var slaves, probes := [5], map[5 := Some("B")];
    ghost var before := entry.subentries;
    ghost var existing, matched := Rescan(entry, slaves, map[5 := Selection("ii_plain", "M-WRG-II")], probes);
    assert Holds(before, id, 7);
    assert existing == map[7 := GONE] by {
      assert forall address | address in existing :: address == 7;
    }
    DepartedKeyReused(slaves, probes, existing, matched);
  }
}

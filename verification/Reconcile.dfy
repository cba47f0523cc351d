/** Matching rescanned units to stored ones, and the rooms a rescan stores. */
module Reconcile {
  import opened Wrappers

  /** A stored unit. */
  datatype Room = Room(key: string, name: string, slave: int, profile: string, code: Option<string>,
                       nameIsDeviceName: bool)

  /** The setup code a probe found at each address, if it answered and reported one. */
  type Probes = map<int, Option<string>>

  type Rooms = map<int, Room>

  function CodeAt(probes: Probes, slave: int): Option<string> {
    if slave in probes then probes[slave] else None
  }

  predicate Distinct<T(==)>(items: seq<T>) {
    forall i, j | 0 <= i < j < |items| :: items[i] != items[j]
  }

  predicate CodesDistinct(rooms: Rooms) {
    forall a, b | a in rooms && b in rooms && rooms[a].code.Some? && rooms[a].code == rooms[b].code :: a == b
  }

  predicate ProbesDistinct(slaves: seq<int>, probes: Probes) {
    forall a, b | a in slaves && b in slaves && CodeAt(probes, a).Some? && CodeAt(probes, a) == CodeAt(probes, b) :: a == b
  }

  // -------------------------------------------------------------------
  //  Which stored unit an address gets
  // -------------------------------------------------------------------

  /** Only `slave` was probed with this code. */
  predicate OnlyProbe(slaves: seq<int>, probes: Probes, slave: int) {
    slave in slaves && CodeAt(probes, slave).Some?
    && forall other | other in slaves && CodeAt(probes, other) == CodeAt(probes, slave) :: other == slave
  }

  /** Only the unit stored at `from` has this code. */
  predicate OnlyStored(existing: Rooms, from: int) {
    from in existing && existing[from].code.Some?
    && forall other | other in existing && existing[other].code == existing[from].code :: other == from
  }

  predicate ByCode(slaves: seq<int>, probes: Probes, existing: Rooms, slave: int, from: int) {
    OnlyProbe(slaves, probes, slave) && OnlyStored(existing, from) && CodeAt(probes, slave) == existing[from].code
  }

  /** The address keeps its own stored unit: neither of them was matched by code. */
  ghost predicate ByAddress(slaves: seq<int>, probes: Probes, existing: Rooms, slave: int) {
    && slave in slaves && slave in existing
    && (forall from :: !ByCode(slaves, probes, existing, slave, from))
    && (forall other :: !ByCode(slaves, probes, existing, other, slave))
  }

  ghost predicate Assigned(slaves: seq<int>, probes: Probes, existing: Rooms, slave: int, from: int) {
    ByCode(slaves, probes, existing, slave, from) || (from == slave && ByAddress(slaves, probes, existing, slave))
  }

  /** A code decides when one address was probed with it and one unit is stored with it. */
  lemma ByCodeExactly(slaves: seq<int>, probes: Probes, existing: Rooms, slave: int, from: int)
    ensures ByCode(slaves, probes, existing, slave, from) <==>
              && slave in slaves && slave in probes && from in existing
              && probes[slave].Some? && probes[slave] == existing[from].code
              && (forall other | other in slaves && other != slave && other in probes :: probes[other] != probes[slave])
              && (forall other | other in existing && other != from :: existing[other].code != probes[slave])
  {
  }

  /** An address gets at most one stored unit, and a stored unit goes to at most one address. */
  lemma AssignedOnce(slaves: seq<int>, probes: Probes, existing: Rooms, slave: int, from: int, slave': int, from': int)
    requires Assigned(slaves, probes, existing, slave, from) && Assigned(slaves, probes, existing, slave', from')
    ensures slave == slave' <==> from == from'
  {
  }

  /** `matched` gives every address the stored unit assigned to it, at its new address. */
  ghost predicate IsMatch(slaves: seq<int>, probes: Probes, existing: Rooms, matched: Rooms) {
    && (forall slave | slave in matched :: exists from ::
          Assigned(slaves, probes, existing, slave, from) && matched[slave] == existing[from].(slave := slave))
    && (forall slave, from | Assigned(slaves, probes, existing, slave, from) :: slave in matched)
  }

  lemma MatchedRoom(slaves: seq<int>, probes: Probes, existing: Rooms, matched: Rooms, slave: int, from: int)
    requires IsMatch(slaves, probes, existing, matched) && Assigned(slaves, probes, existing, slave, from)
    ensures slave in matched && matched[slave] == existing[from].(slave := slave)
  {
    var o :| Assigned(slaves, probes, existing, slave, o) && matched[slave] == existing[o].(slave := slave);
    AssignedOnce(slaves, probes, existing, slave, from, slave, o);
  }

  lemma MatchUnique(slaves: seq<int>, probes: Probes, existing: Rooms, a: Rooms, b: Rooms)
    requires IsMatch(slaves, probes, existing, a) && IsMatch(slaves, probes, existing, b)
    ensures a == b
  {
    forall slave | slave in a
      ensures slave in b && a[slave] == b[slave]
    {
      var from :| Assigned(slaves, probes, existing, slave, from) && a[slave] == existing[from].(slave := slave);
      MatchedRoom(slaves, probes, existing, b, slave, from);
    }
    forall slave | slave in b
      ensures slave in a
    {
      var from :| Assigned(slaves, probes, existing, slave, from);
    }
  }

  // -------------------------------------------------------------------
  //  Matching twice
  // -------------------------------------------------------------------

  /** A code that one address was probed with sits, after the first pass, only at another one. */
  ghost predicate Strayed(slaves: seq<int>, probes: Probes, matched: Rooms, slave: int, at: int) {
    ByCode(slaves, probes, matched, slave, at) && at != slave
  }

  /** Matching the matched rooms again changes nothing exactly when no code strayed. */
  lemma RematchExactly(slaves: seq<int>, probes: Probes, existing: Rooms, matched: Rooms, again: Rooms)
    requires IsMatch(slaves, probes, existing, matched) && IsMatch(slaves, probes, matched, again)
    requires forall a, b | a in existing && b in existing && existing[a].key == existing[b].key :: a == b
    ensures again == matched <==> forall slave, at :: !Strayed(slaves, probes, matched, slave, at)
  {
    if slave, at :| Strayed(slaves, probes, matched, slave, at) {
      MatchedRoom(slaves, probes, matched, again, slave, at);
      if slave in matched {
        MatchedKeysDistinct(slaves, probes, existing, matched, slave, at);
      }
    } else {
      forall slave | slave in matched
        ensures slave in again && again[slave] == matched[slave]
      {
        var from :| Assigned(slaves, probes, existing, slave, from) && matched[slave] == existing[from].(slave := slave);
        if ByCode(slaves, probes, matched, slave, slave) {
        } else {
          forall other
            ensures !ByCode(slaves, probes, matched, slave, other) && !ByCode(slaves, probes, matched, other, slave)
          {
            assert !Strayed(slaves, probes, matched, slave, other) && !Strayed(slaves, probes, matched, other, slave);
          }
          assert ByAddress(slaves, probes, matched, slave);
        }
        assert Assigned(slaves, probes, matched, slave, slave);
        MatchedRoom(slaves, probes, matched, again, slave, slave);
      }
      forall slave | slave in again
        ensures slave in matched
      {
        var at :| Assigned(slaves, probes, matched, slave, at);
        assert !Strayed(slaves, probes, matched, slave, at);
      }
    }
  }

  lemma MatchedKeysDistinct(slaves: seq<int>, probes: Probes, existing: Rooms, matched: Rooms, a: int, b: int)
    requires IsMatch(slaves, probes, existing, matched) && a in matched && b in matched && a != b
    requires forall a, b | a in existing && b in existing && existing[a].key == existing[b].key :: a == b
    ensures matched[a].key != matched[b].key
  {
    var x :| Assigned(slaves, probes, existing, a, x) && matched[a] == existing[x].(slave := a);
    var y :| Assigned(slaves, probes, existing, b, y) && matched[b] == existing[y].(slave := b);
    AssignedOnce(slaves, probes, existing, a, x, b, y);
  }

  /** With distinct stored codes, matching twice is matching once. */
  lemma RematchSame(slaves: seq<int>, probes: Probes, existing: Rooms, matched: Rooms, again: Rooms)
    requires IsMatch(slaves, probes, existing, matched) && IsMatch(slaves, probes, matched, again)
    requires forall a, b | a in existing && b in existing && existing[a].key == existing[b].key :: a == b
    requires CodesDistinct(existing)
    ensures again == matched
  {
    forall slave, at
      ensures !Strayed(slaves, probes, matched, slave, at)
    {
      if Strayed(slaves, probes, matched, slave, at) {
        var from :| Assigned(slaves, probes, existing, at, from) && matched[at] == existing[from].(slave := at);
        assert ByCode(slaves, probes, existing, slave, from);
        AssignedOnce(slaves, probes, existing, slave, from, at, from);
      }
    }
    RematchExactly(slaves, probes, existing, matched, again);
  }

  /** With a duplicated stored code it need not be: the first pass leaves one carrier, which the second
      pass moves to the address that was probed with the code. */
  lemma RematchDiffers() returns (slaves: seq<int>, probes: Probes, existing: Rooms, matched: Rooms, again: Rooms)
    ensures IsMatch(slaves, probes, existing, matched) && IsMatch(slaves, probes, matched, again)
    ensures again != matched
  {
    slaves, probes := [2, 3], map[2 := Some("A")];
    var kept := Room("slave_3", "Bath", 3, "ii_plain", Some("A"), true);
    var gone := Room("slave_4", "Hall", 4, "ii_plain", Some("A"), true);
    existing := map[3 := kept, 4 := gone];
    matched := map[3 := kept];
    again := map[2 := kept.(slave := 2)];
    assert existing[3].code == existing[4].code;
    assert forall slave, from :: !ByCode(slaves, probes, existing, slave, from) by {
      assert forall from :: !OnlyStored(existing, from);
    }
    assert ByAddress(slaves, probes, existing, 3);
    assert forall slave, from | Assigned(slaves, probes, existing, slave, from) :: slave == 3;
    assert Assigned(slaves, probes, existing, 3, 3);
    assert ByCode(slaves, probes, matched, 2, 3);
    assert !OnlyProbe(slaves, probes, 3);
    assert Assigned(slaves, probes, matched, 2, 3);
    assert forall slave, from | Assigned(slaves, probes, matched, slave, from) :: slave == 2 by {
      assert forall slave, from | ByCode(slaves, probes, matched, slave, from) :: slave == 2;
    }
  }

  /** Match addresses to stored units by setup code, then by address. */
  method MatchExistingRooms(slaves: seq<int>, probes: Probes, existing: Rooms) returns (matched: Rooms)
    requires Distinct(slaves)
    ensures IsMatch(slaves, probes, existing, matched)
  {
    var byCode := CodeIndex(existing);
    matched := map[];
    var claimed: set<int> := {};
    for i := 0 to |slaves|
      invariant forall s | s in matched :: exists from ::
                  ByCode(slaves, probes, existing, s, from) && matched[s] == existing[from].(slave := s)
      invariant forall s, from | s in slaves[..i] && ByCode(slaves, probes, existing, s, from) ::
                  s in matched && from in claimed
      invariant forall from | from in claimed :: exists s :: ByCode(slaves, probes, existing, s, from)
    {
      var slave := slaves[i];
      var code := CodeAt(probes, slave);
      forall from | ByCode(slaves, probes, existing, slave, from)
        ensures code.Some? && code.value in byCode && byCode[code.value] == from
      {
        assert existing[from].code.value in byCode;
        assert OnlyStored(existing, byCode[code.value]);
      }
      if code.Some? && OnlyProbe(slaves, probes, slave) && code.value in byCode {
        var from := byCode[code.value];
        assert ByCode(slaves, probes, existing, slave, from);
        matched := matched[slave := existing[from].(slave := slave)];
        claimed := claimed + {from};
      }
      assert slaves[..i + 1] == slaves[..i] + [slave];
    }
    assert slaves[..|slaves|] == slaves;
    matched := KeepAddresses(slaves, probes, existing, matched, claimed);
  }

  /** The stored units whose code no other stored unit has, by code. */
  method CodeIndex(existing: Rooms) returns (byCode: map<string, int>)
    ensures forall code | code in byCode :: OnlyStored(existing, byCode[code]) && existing[byCode[code]].code == Some(code)
    ensures forall from | OnlyStored(existing, from) :: existing[from].code.value in byCode
  {
    byCode := map[];
    var rest: set<int> := existing.Keys;
    while rest != {}
      invariant rest <= existing.Keys
      invariant forall code | code in byCode :: OnlyStored(existing, byCode[code]) && existing[byCode[code]].code == Some(code)
      invariant forall from | OnlyStored(existing, from) && from !in rest :: existing[from].code.value in byCode
      decreases rest
    {
      var from := AnyOf(rest);
      if OnlyStored(existing, from) {
        byCode := byCode[existing[from].code.value := from];
      }
      rest := rest - {from};
    }
  }

  /** The second pass: an address no code claimed keeps its own stored unit. */
  method KeepAddresses(slaves: seq<int>, probes: Probes, existing: Rooms, byCode: Rooms, claimed: set<int>)
    returns (matched: Rooms)
    requires forall s | s in byCode :: exists from ::
               ByCode(slaves, probes, existing, s, from) && byCode[s] == existing[from].(slave := s)
    requires forall s, from | ByCode(slaves, probes, existing, s, from) :: s in byCode && from in claimed
    requires forall from | from in claimed :: exists s :: ByCode(slaves, probes, existing, s, from)
    ensures IsMatch(slaves, probes, existing, matched)
  {
    matched := byCode;
    for i := 0 to |slaves|
      invariant forall s | s in matched :: exists from ::
                  Assigned(slaves, probes, existing, s, from) && matched[s] == existing[from].(slave := s)
      invariant forall s | s in byCode :: s in matched
      invariant forall s | s in matched && s !in byCode :: ByAddress(slaves, probes, existing, s)
      invariant forall k | 0 <= k < i && ByAddress(slaves, probes, existing, slaves[k]) :: slaves[k] in matched
    {
      var slave := slaves[i];
      if slave !in matched && slave !in claimed && slave in existing {
        assert ByAddress(slaves, probes, existing, slave);
        assert Assigned(slaves, probes, existing, slave, slave);
        matched := matched[slave := existing[slave].(slave := slave)];
      }
    }
  }
}

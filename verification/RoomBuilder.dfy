/** The rooms a rescan stores: kept units keep their key and name, new ones get fresh ones. */
module RoomBuilder {
  import opened Wrappers
  import opened NameSearch
  import opened Reconcile

  /** The profile selected for an address, with its model family's label. */
  datatype Selection = Selection(profile: string, family: string)

  predicate WellStored(rooms: Rooms) {
    && (forall a | a in rooms :: rooms[a].key != "" && rooms[a].name != "")
    && (forall a, b | a in rooms && b in rooms && a != b :: rooms[a].key != rooms[b].key && rooms[a].name != rooms[b].name)
  }

  lemma MatchWellStored(slaves: seq<int>, probes: Probes, existing: Rooms, matched: Rooms)
    requires WellStored(existing) && IsMatch(slaves, probes, existing, matched)
    ensures WellStored(matched)
  {
    forall a, b | a in matched && b in matched
      ensures matched[a].key != "" && matched[a].name != ""
      ensures a != b ==> matched[a].key != matched[b].key && matched[a].name != matched[b].name
    {
      var x :| Assigned(slaves, probes, existing, a, x) && matched[a] == existing[x].(slave := a);
      var y :| Assigned(slaves, probes, existing, b, y) && matched[b] == existing[y].(slave := b);
      AssignedOnce(slaves, probes, existing, a, x, b, y);
    }
  }

  // -------------------------------------------------------------------
  //  Setup codes
  // -------------------------------------------------------------------

  predicate Probed(probes: Probes, code: string) {
    exists slave | slave in probes :: probes[slave] == Some(code)
  }

  /** A fresh probe's code wins; a stored one is kept unless some probe now reports it. */
  function ResultingCode(probes: Probes, matched: Rooms, slave: int): Option<string> {
    if CodeAt(probes, slave).Some? then CodeAt(probes, slave)
    else if slave in matched && matched[slave].code.Some? && !Probed(probes, matched[slave].code.value) then
      matched[slave].code
    else None
  }

  /** The code of the unit at `slave`, by what was probed and stored: the probed one; if none was probed, the
      one stored for its unit, unless a probe reports that; otherwise none. */
  ghost predicate CodeFollows(code: Option<string>, slaves: seq<int>, probes: Probes, existing: Rooms, slave: int) {
    if slave in probes && probes[slave].Some? then code == probes[slave]
    else
      && (forall from | Assigned(slaves, probes, existing, slave, from) ::
            code == if exists s | s in probes :: probes[s] == existing[from].code then None else existing[from].code)
      && ((forall from :: !Assigned(slaves, probes, existing, slave, from)) ==> code == None)
  }

  lemma CodeIsFollowed(slaves: seq<int>, probes: Probes, existing: Rooms, matched: Rooms, slave: int)
    requires IsMatch(slaves, probes, existing, matched)
    ensures CodeFollows(ResultingCode(probes, matched, slave), slaves, probes, existing, slave)
  {
    forall from | Assigned(slaves, probes, existing, slave, from)
      ensures slave in matched && matched[slave].code == existing[from].code
    {
      MatchedRoom(slaves, probes, existing, matched, slave, from);
    }
  }

  /** With distinct probed and distinct stored codes, the resulting codes are distinct. */
  lemma ResultingCodesDistinct(slaves: seq<int>, probes: Probes, existing: Rooms, matched: Rooms, a: int, b: int)
    requires IsMatch(slaves, probes, existing, matched) && CodesDistinct(existing) && ProbesDistinct(slaves, probes)
    requires a in slaves && b in slaves && a != b && ResultingCode(probes, matched, a).Some?
    ensures ResultingCode(probes, matched, a) != ResultingCode(probes, matched, b)
  {
    if CodeAt(probes, a).Some? {
      assert probes[a] == Some(CodeAt(probes, a).value);
    }
    if CodeAt(probes, b).Some? {
      assert probes[b] == Some(CodeAt(probes, b).value);
    }
    if CodeAt(probes, a).None? && CodeAt(probes, b).None? && ResultingCode(probes, matched, b).Some? {
      var x :| Assigned(slaves, probes, existing, a, x) && matched[a] == existing[x].(slave := a);
      var y :| Assigned(slaves, probes, existing, b, y) && matched[b] == existing[y].(slave := b);
      AssignedOnce(slaves, probes, existing, a, x, b, y);
    }
  }

  // -------------------------------------------------------------------
  //  Building
  // -------------------------------------------------------------------

  function Decimal(n: int): string {
    if n < 0 then "-" + Digits(-n) else Digits(n)
  }

  /** The key of a new unit, before it is made distinct. */
  function DefaultKey(slave: int): string {
    "slave_" + Decimal(slave)
  }

  /** An address is written in decimal, with a sign if it is negative. */
  lemma DecimalRead(n: int)
    ensures var s := Decimal(n);
            s != "" && if n < 0 then s[0] == '-' && Read(s[1..]) == -n else '-' !in s && Read(s) == n
  {
    DigitsRead(if n < 0 then -n else n);
  }

  lemma DecimalInjective(a: int, b: int)
    requires Decimal(a) == Decimal(b)
    ensures a == b
  {
    OnlyDigits(if a < 0 then -a else a);
    OnlyDigits(if b < 0 then -b else b);
    assert a < 0 ==> Decimal(a)[0] == '-' && Decimal(a)[1..] == Digits(-a);
    assert b < 0 ==> Decimal(b)[0] == '-' && Decimal(b)[1..] == Digits(-b);
    DigitsInjective(if a < 0 then -a else a, if b < 0 then -b else b);
  }

  /** The part before the first underscore. */
  function Head(s: string): string {
    if s == "" || s[0] == '_' then "" else [s[0]] + Head(s[1..])
  }

  lemma {:induction false} HeadOf(u: string, rest: string)
    requires '_' !in u && (rest != "" ==> rest[0] == '_')
    ensures Head(u + rest) == u
  {
    if u == "" {
      assert u + rest == rest;
    } else {
      assert (u + rest)[1..] == u[1..] + rest;
      HeadOf(u[1..], rest);
    }
  }

  lemma CandidateForm(slave: int, key: string) returns (rest: string)
    requires Candidate(DefaultKey(slave), "_", "", key)
    ensures key == "slave_" + (Decimal(slave) + rest) && (rest != [] ==> rest[0] == '_')
  {
    if key == DefaultKey(slave) {
      rest := "";
      assert Decimal(slave) + rest == Decimal(slave);
    } else {
      var n: nat :| key == Numbered(DefaultKey(slave), "_", n, "");
      rest := "_" + Digits(n) + "";
      assert key == "slave_" + (Decimal(slave) + rest);
    }
  }

  /** New keys of different addresses never collide, however they are numbered. */
  lemma CandidatesApart(a: int, b: int, key: string)
    requires Candidate(DefaultKey(a), "_", "", key) && Candidate(DefaultKey(b), "_", "", key)
    ensures a == b
  {
    var p := CandidateForm(a, key);
    var q := CandidateForm(b, key);
    assert key[6..] == Decimal(a) + p && key[6..] == Decimal(b) + q;
    OnlyDigits(if a < 0 then -a else a);
    OnlyDigits(if b < 0 then -b else b);
    HeadOf(Decimal(a), p);
    HeadOf(Decimal(b), q);
    DecimalInjective(a, b);
  }

  function DefaultName(family: string, code: Option<string>): string {
    "Meltem " + family + (if code.Some? && code.value != "" then " (" + code.value + ")" else "")
  }

  /** A room for `slave`: with the key and name of the unit it keeps if there is one and they are free,
      otherwise with the first free ones. */
  ghost predicate Built(room: Room, slave: int, selection: Selection, code: Option<string>, stored: Option<Room>,
                        usedKeys: set<string>, reservedKeys: set<string>, usedNames: set<string>) {
    && room.slave == slave && room.profile == selection.profile && room.code == code
    && room.key !in usedKeys
    && (stored.None? ==> FirstFree("slave_" + Decimal(slave), "_", "", usedKeys + reservedKeys, room.key))
    && (stored.Some? ==> FirstFree(if stored.value.key == "" then "slave_" + Decimal(slave) else stored.value.key, "_", "",
                                   usedKeys, room.key))
    && (stored.Some? && stored.value.key != "" && stored.value.key !in usedKeys ==> room.key == stored.value.key)
    && (if stored.Some? && stored.value.name != "" then room.name == stored.value.name
        else FirstFree("Meltem " + selection.family + (if code in {None, Some("")} then "" else " (" + code.value + ")"),
                       " (", ")", usedNames, room.name))
    && (room.nameIsDeviceName <==> (stored.None? || stored.value.name == "" || stored.value.nameIsDeviceName))
  }

  /** One room: `stored` is the unit it keeps, if any. */
  method BuildRoom(slave: int, selection: Selection, code: Option<string>, stored: Option<Room>,
                   usedKeys: set<string>, reservedKeys: set<string>, usedNames: set<string>)
    returns (room: Room)
    ensures Built(room, slave, selection, code, stored, usedKeys, reservedKeys, usedNames)
  {
    var preferred := if stored.Some? && stored.value.key != "" then stored.value.key else DefaultKey(slave);
    var key := Search(preferred, "_", "", if stored.Some? then usedKeys else usedKeys + reservedKeys);
    var name;
    if stored.Some? && stored.value.name != "" {
      name := stored.value.name;
    } else {
      name := Search(DefaultName(selection.family, code), " (", ")", usedNames);
    }
    room := Room(key, name, slave, selection.profile, code,
                 stored.None? || stored.value.name == "" || stored.value.nameIsDeviceName);
  }

  function Keys(rooms: seq<Room>): set<string> {
    set r | r in rooms :: r.key
  }

  function NamesOf(rooms: seq<Room>): set<string> {
    set r | r in rooms :: r.name
  }

  predicate KeysDistinct(rooms: seq<Room>) {
    forall i, j | 0 <= i < j < |rooms| :: rooms[i].key != rooms[j].key
  }

  predicate NamesDistinct(rooms: seq<Room>) {
    forall i, j | 0 <= i < j < |rooms| :: rooms[i].name != rooms[j].name
  }

  function MatchedKeys(matched: Rooms): set<string> {
    set slave | slave in matched :: matched[slave].key
  }

  function MatchedNames(slaves: seq<int>, matched: Rooms): set<string> {
    set slave | slave in slaves && slave in matched :: matched[slave].name
  }

  /** The `i`-th room belongs to the `i`-th address and keeps what was matched to it. A new unit gets the
      first key of its address that no matched unit has. */
  ghost predicate Keeps(room: Room, slave: int, selected: map<int, Selection>, probes: Probes, matched: Rooms) {
    && slave in selected && room.slave == slave && room.profile == selected[slave].profile
    && room.code == ResultingCode(probes, matched, slave)
    && (room.nameIsDeviceName <==> slave !in matched || matched[slave].name == "" || matched[slave].nameIsDeviceName)
    && (slave !in matched ==> Candidate(DefaultName(selected[slave].family, room.code), " (", ")", room.name))
    && (WellStored(matched) ==>
          if slave in matched then room.key == matched[slave].key && room.name == matched[slave].name
          else FirstFree(DefaultKey(slave), "_", "", MatchedKeys(matched), room.key))
  }

  lemma KeptKeyFree(slaves: seq<int>, selected: map<int, Selection>, probes: Probes, matched: Rooms,
                    rooms: seq<Room>, slave: int)
    requires |rooms| <= |slaves| && (forall i | 0 <= i < |rooms| :: Keeps(rooms[i], slaves[i], selected, probes, matched))
    requires WellStored(matched) && slave in matched && slave !in slaves[..|rooms|]
    ensures matched[slave].key !in Keys(rooms)
  {
    forall r | r in rooms
      ensures r.key != matched[slave].key
    {
      var i :| 0 <= i < |rooms| && rooms[i] == r;
      assert slaves[i] in slaves[..|rooms|];
    }
  }

  /** The first rooms are built: their keys are distinct, and with well stored units their names are. */
  ghost predicate Progress(slaves: seq<int>, selected: map<int, Selection>, probes: Probes, matched: Rooms, rooms: seq<Room>) {
    && |rooms| <= |slaves|
    && (forall i | 0 <= i < |rooms| :: Keeps(rooms[i], slaves[i], selected, probes, matched))
    && KeysDistinct(rooms)
    && (WellStored(matched) ==> NamesDistinct(rooms))
    && (forall i | 0 <= i < |rooms| && slaves[i] !in matched :: rooms[i].name !in MatchedNames(slaves, matched))
  }

  function StoredAt(matched: Rooms, slave: int): Option<Room> {
    if slave in matched then Some(matched[slave]) else None
  }

  lemma NewKeyFree(slaves: seq<int>, selected: map<int, Selection>, probes: Probes, matched: Rooms,
                   rooms: seq<Room>, slave: int, key: string)
    requires |rooms| <= |slaves| && (forall i | 0 <= i < |rooms| :: Keeps(rooms[i], slaves[i], selected, probes, matched))
    requires WellStored(matched) && slave !in matched && slave !in slaves[..|rooms|]
    requires FirstFree(DefaultKey(slave), "_", "", Keys(rooms) + MatchedKeys(matched), key)
    ensures FirstFree(DefaultKey(slave), "_", "", MatchedKeys(matched), key)
  {
    forall x | x in Keys(rooms) && Candidate(DefaultKey(slave), "_", "", x)
      ensures x in MatchedKeys(matched)
    {
      var i :| 0 <= i < |rooms| && rooms[i].key == x;
      assert Keeps(rooms[i], slaves[i], selected, probes, matched) && slaves[i] in slaves[..|rooms|];
      if slaves[i] !in matched {
        assert Candidate(DefaultKey(slaves[i]), "_", "", x);
        CandidatesApart(slave, slaves[i], x);
      }
    }
    assert Keys(rooms) + MatchedKeys(matched) == MatchedKeys(matched) + Keys(rooms);
    FirstFreeAmong(DefaultKey(slave), "_", "", MatchedKeys(matched), Keys(rooms), key);
  }

  lemma NextKeeps(slaves: seq<int>, selected: map<int, Selection>, probes: Probes, matched: Rooms,
                  rooms: seq<Room>, room: Room)
    requires Distinct(slaves) && (forall slave | slave in slaves :: slave in selected)
    requires Progress(slaves, selected, probes, matched, rooms) && |rooms| < |slaves|
    requires var slave := slaves[|rooms|];
             Built(room, slave, selected[slave], ResultingCode(probes, matched, slave), StoredAt(matched, slave),
                   Keys(rooms), MatchedKeys(matched), MatchedNames(slaves, matched) + NamesOf(rooms))
    ensures Keeps(room, slaves[|rooms|], selected, probes, matched)
    ensures slaves[|rooms|] !in matched ==> room.name !in MatchedNames(slaves, matched) + NamesOf(rooms)
  {
    var slave := slaves[|rooms|];
    if WellStored(matched) {
      if slave in matched {
        KeptKeyFree(slaves, selected, probes, matched, rooms, slave);
      } else {
        NewKeyFree(slaves, selected, probes, matched, rooms, slave, room.key);
      }
    }
  }

  lemma NextNameFree(slaves: seq<int>, selected: map<int, Selection>, probes: Probes, matched: Rooms,
                     rooms: seq<Room>, room: Room)
    requires Distinct(slaves) && WellStored(matched)
    requires Progress(slaves, selected, probes, matched, rooms) && |rooms| < |slaves|
    requires Keeps(room, slaves[|rooms|], selected, probes, matched)
    requires slaves[|rooms|] !in matched ==> room.name !in MatchedNames(slaves, matched) + NamesOf(rooms)
    ensures NamesDistinct(rooms + [room])
  {
    var slave := slaves[|rooms|];
    forall i | 0 <= i < |rooms|
      ensures rooms[i].name != room.name
    {
      assert Keeps(rooms[i], slaves[i], selected, probes, matched) && rooms[i] in rooms;
      if slave in matched {
        assert room.name in MatchedNames(slaves, matched);
      }
    }
  }

  lemma NextProgress(slaves: seq<int>, selected: map<int, Selection>, probes: Probes, matched: Rooms,
                     rooms: seq<Room>, room: Room)
    requires Distinct(slaves) && (forall slave | slave in slaves :: slave in selected)
    requires Progress(slaves, selected, probes, matched, rooms) && |rooms| < |slaves|
    requires var slave := slaves[|rooms|];
             Built(room, slave, selected[slave], ResultingCode(probes, matched, slave), StoredAt(matched, slave),
                   Keys(rooms), MatchedKeys(matched), MatchedNames(slaves, matched) + NamesOf(rooms))
    ensures Progress(slaves, selected, probes, matched, rooms + [room])
    ensures Keys(rooms + [room]) == Keys(rooms) + {room.key}
    ensures NamesOf(rooms + [room]) == NamesOf(rooms) + {room.name}
  {
    NextKeeps(slaves, selected, probes, matched, rooms, room);
    if WellStored(matched) {
      NextNameFree(slaves, selected, probes, matched, rooms, room);
    }
    Extended(rooms, room);
  }

  /** Build the rooms of a rescan. Keys are always pairwise distinct; with well stored units, every
      kept unit keeps its key and name, and names are pairwise distinct too. */
  method BuildRooms(slaves: seq<int>, selected: map<int, Selection>, probes: Probes, existing: Rooms)
    returns (rooms: seq<Room>, ghost matched: Rooms)
    requires Distinct(slaves) && forall slave | slave in slaves :: slave in selected
    ensures IsMatch(slaves, probes, existing, matched)
    ensures |rooms| == |slaves| && forall i | 0 <= i < |rooms| :: Keeps(rooms[i], slaves[i], selected, probes, matched)
    ensures forall i | 0 <= i < |rooms| :: CodeFollows(rooms[i].code, slaves, probes, existing, slaves[i])
    ensures KeysDistinct(rooms)
    ensures WellStored(existing) ==> WellStored(matched) && NamesDistinct(rooms)
  {
    var kept := MatchExistingRooms(slaves, probes, existing);
    matched := kept;
    if WellStored(existing) {
      MatchWellStored(slaves, probes, existing, matched);
    }
    var reserved := MatchedKeys(kept);
    var usedKeys: set<string> := {};
    var usedNames := MatchedNames(slaves, kept);
    rooms := [];
    for i := 0 to |slaves|
      invariant |rooms| == i && Progress(slaves, selected, probes, kept, rooms)
      invariant usedKeys == Keys(rooms) && usedNames == MatchedNames(slaves, kept) + NamesOf(rooms)
    {
      var slave := slaves[i];
      var room := BuildRoom(slave, selected[slave], ResultingCode(probes, kept, slave), StoredAt(kept, slave),
                            usedKeys, reserved, usedNames);
      NextProgress(slaves, selected, probes, kept, rooms, room);
      usedKeys, usedNames := usedKeys + {room.key}, usedNames + {room.name};
      rooms := rooms + [room];
    }
    forall i | 0 <= i < |rooms|
      ensures CodeFollows(rooms[i].code, slaves, probes, existing, slaves[i])
    {
      CodeIsFollowed(slaves, probes, existing, matched, slaves[i]);
    }
  }

  lemma Extended(rooms: seq<Room>, room: Room)
    ensures Keys(rooms + [room]) == Keys(rooms) + {room.key}
    ensures NamesOf(rooms + [room]) == NamesOf(rooms) + {room.name}
    ensures KeysDistinct(rooms) && room.key !in Keys(rooms) ==> KeysDistinct(rooms + [room])
  {
    forall k | k in Keys(rooms)
      ensures k in Keys(rooms + [room])
    {
      var r :| r in rooms && r.key == k;
      assert r in rooms + [room];
    }
    forall n | n in NamesOf(rooms)
      ensures n in NamesOf(rooms + [room])
    {
      var r :| r in rooms && r.name == n;
      assert r in rooms + [room];
    }
    assert room in rooms + [room];
    assert forall i | 0 <= i < |rooms| :: rooms[i] in rooms;
  }
}

/** The persisted count of problematic writes: a total over rooms, categories and commands. */
module IssueTotals {
  import opened Wrappers

  // -------------------------------------------------------------------
  //  Sums over maps
  // -------------------------------------------------------------------

  ghost function Sum<K, V>(m: map<K, V>, value: V -> nat): nat
    decreases |m.Keys|
  {
    if m == map[] then 0
    else
      var k :| k in m;
      value(m[k]) + Sum(m - {k}, value)
  }

  lemma {:induction false} SumRemove<K, V>(m: map<K, V>, value: V -> nat, k: K)
    requires k in m
    ensures Sum(m, value) == value(m[k]) + Sum(m - {k}, value)
    decreases |m.Keys|
  {
    var first :| first in m && Sum(m, value) == value(m[first]) + Sum(m - {first}, value);
    if first != k {
      SumRemove(m - {first}, value, k);
      SumRemove(m - {k}, value, first);
      assert (m - {first}) - {k} == (m - {k}) - {first};
    }
  }

  /** Replacing one entry replaces its share of the sum. */
  lemma SumUpdate<K, V>(m: map<K, V>, value: V -> nat, k: K, v: V)
    ensures Sum(m[k := v], value) + (if k in m then value(m[k]) else 0) == Sum(m, value) + value(v)
  {
    SumRemove(m[k := v], value, k);
    assert m[k := v] - {k} == m - {k};
    if k in m {
      SumRemove(m, value, k);
    } else {
      assert m - {k} == m;
    }
  }

  // -------------------------------------------------------------------
  //  The counters
  // -------------------------------------------------------------------

  datatype WriteStatus = PendingReadback | Confirmed | Mismatch | Unconfirmed | Unverifiable | FailedWrite | Superseded

  predicate Unhealthy(status: WriteStatus) {
    status == Unconfirmed || status == Mismatch || status == FailedWrite
  }

  /** Only unhealthy outcomes have a category. */
  function Category(status: WriteStatus): Option<string> {
    match status
    case FailedWrite => Some("send_failure")
    case Mismatch => Some("readback_mismatch")
    case Unconfirmed => Some("unconfirmed")
    case _ => None
  }

  type ByCommand = map<string, nat>
  type ByCategory = map<string, ByCommand>
  type ByRoom = map<string, ByCategory>

  ghost function CommandTotal(m: ByCommand): nat {
    Sum(m, (n: nat) => n)
  }

  ghost function CategoryTotal(m: ByCategory): nat {
    Sum(m, CommandTotal)
  }

  ghost function Total(m: ByRoom): nat {
    Sum(m, CategoryTotal)
  }

  /** One counter; a missing one is zero. */
  function Count(m: ByRoom, room: string, category: string, command: string): nat {
    if room in m && category in m[room] && command in m[room][category] then m[room][category][command] else 0
  }

  /** The counters after one more problematic outcome; others are not counted. */
  function AfterIssue(m: ByRoom, room: string, command: string, status: WriteStatus): ByRoom {
    match Category(status)
    case None => m
    case Some(category) =>
      var rooms := if room in m then m[room] else map[];
      var commands: ByCommand := if category in rooms then rooms[category] else map[];
      m[room := rooms[category := commands[command := (if command in commands then commands[command] else 0) + 1]]]
  }

  /** A problematic outcome adds one to its own counter and to no other. */
  lemma CountAfterIssue(m: ByRoom, room: string, command: string, status: WriteStatus, r: string, category: string, c: string)
    ensures Count(AfterIssue(m, room, command, status), r, category, c)
         == Count(m, r, category, c)
            + (if r == room && c == command
                  && (|| (status == FailedWrite && category == "send_failure")
                      || (status == Mismatch && category == "readback_mismatch")
                      || (status == Unconfirmed && category == "unconfirmed")) then 1 else 0)
  {
  }

  /** It adds one to the total. */
  lemma TotalAfterIssue(m: ByRoom, room: string, command: string, status: WriteStatus)
    ensures Total(AfterIssue(m, room, command, status))
         == Total(m) + (if status in {FailedWrite, Mismatch, Unconfirmed} then 1 else 0)
  {
    var category := Category(status);
    if category.Some? {
      var rooms := if room in m then m[room] else map[];
      var commands: ByCommand := if category.value in rooms then rooms[category.value] else map[];
      OneMore(m, room, rooms, category.value, commands, command, (if command in commands then commands[command] else 0) + 1);
    }
  }

  class CumulativeDiagnostics {
    var writeIssues: ByRoom

    constructor (stored: ByRoom)
      ensures writeIssues == stored
    {
      writeIssues := stored;
    }

    /** Count one problematic outcome. */
    method RecordWriteIssue(room: string, command: string, status: WriteStatus)
      modifies this
      ensures writeIssues == AfterIssue(old(writeIssues), room, command, status)
    {
      var category := Category(status);
      if category.None? {
        return;
      }
      var rooms := if room in writeIssues then writeIssues[room] else map[];
      var commands: ByCommand := if category.value in rooms then rooms[category.value] else map[];
      var count := if command in commands then commands[command] else 0;
      writeIssues := writeIssues[room := rooms[category.value := commands[command := count + 1]]];
    }
  }

  lemma OneMore(m: ByRoom, room: string, rooms: ByCategory, category: string, commands: ByCommand, command: string, count: nat)
    requires rooms == if room in m then m[room] else map[]
    requires commands == if category in rooms then rooms[category] else map[]
    requires count == (if command in commands then commands[command] else 0) + 1
    ensures Total(m[room := rooms[category := commands[command := count]]]) == Total(m) + 1
  {
    SumUpdate(commands, (n: nat) => n, command, count);
    SumUpdate(rooms, CommandTotal, category, commands[command := count]);
    SumUpdate(m, CategoryTotal, room, rooms[category := commands[command := count]]);
    assert CommandTotal(commands[command := count]) == CommandTotal(commands) + 1;
    assert CategoryTotal(rooms[category := commands[command := count]]) == CategoryTotal(rooms) + 1;
  }
}

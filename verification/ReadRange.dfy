/** Capturing a register range: block reads with a fallback to single registers. */
module ReadRange {
  import opened Wrappers
  import opened UnitModel

  const MAX_REGISTERS_PER_READ := 120

  datatype Span = Span(first: int, last: int)

  const UNIT_READABLE_RANGES: seq<Span> := [
    Span(40000, 40022), Span(40024, 40033), Span(40041, 40041), Span(40050, 40051), Span(40071, 40071),
    Span(40100, 40104), Span(40109, 40110), Span(40120, 40120), Span(40200, 40209), Span(41000, 41034),
    Span(41100, 41113), Span(42000, 42009)]

  const WARMUP_ACKNOWLEDGE_RANGES: seq<Span> := [Span(41000, 41006), Span(41009, 41011), Span(41016, 41021)]

  predicate InRanges(register: int, ranges: seq<Span>) {
    exists r | r in ranges :: r.first <= register <= r.last
  }

  /** A unit at a fixed moment: its settled state, the registers a register map made readable, and
      whether the gateway is still warming up. */
  datatype View = View(unit: UnitState, extra: set<int>, warmingUp: bool)

  predicate Denied(view: View, register: int) {
    register in view.unit.refused
    || !(InRanges(register, UNIT_READABLE_RANGES) || register in view.extra || IsSetRegister(register))
  }

  /** A set register stays locked until it was written, and some blocks during the warm-up. */
  predicate Locked(view: View, register: int) {
    || (IsSetRegister(register) && register !in view.unit.written)
    || (view.warmingUp && InRanges(register, WARMUP_ACKNOWLEDGE_RANGES))
  }

  predicate Within(i: int, register: int, count: int) {
    register <= i < register + count
  }

  datatype Reply = Values(values: seq<int>) | Exception(code: int)

  /** The unit's answer to a read of `count` registers from `register` on. */
  function Read(view: View, register: int, count: int): (r: Reply)
    ensures r.Values? ==> |r.values| == count
  {
    if !(1 <= count <= MAX_REGISTER_COUNT) || register + count > 0x10000 then Exception(ILLEGAL_DATA_VALUE)
    else if exists i | register <= i < register + count :: Within(i, register, count) && Denied(view, i) then
      Exception(ILLEGAL_DATA_ADDRESS)
    else if exists i | register <= i < register + count :: Within(i, register, count) && Locked(view, i) then
      Exception(ACKNOWLEDGE)
    else Values(seq(count, i requires 0 <= i < count => Get(view.unit.registers, register + i, 0)))
  }

  /** What a single-register read of `address` gives. */
  function Single(view: View, address: int): Option<int> {
    match Read(view, address, 1)
    case Values(values) => Some(values[0])
    case Exception(_) => None
  }

  /** A block answers only what each of its registers answers alone. */
  lemma BlockAgrees(view: View, register: int, count: int, address: int)
    requires Read(view, register, count).Values? && register <= address < register + count
    ensures Single(view, address) == Some(Read(view, register, count).values[address - register])
  {
    assert forall i :: Within(i, address, 1) ==> Within(i, register, count);
  }

  /** A block is answered exactly when it is not too long and each of its registers is answered alone. */
  lemma BlockExactly(view: View, register: int, count: int)
    ensures Read(view, register, count).Values? <==>
              1 <= count <= 125 && (forall i | register <= i < register + count :: Single(view, i).Some?)
  {
    if Read(view, register, count).Values? {
      forall i | register <= i < register + count
        ensures Single(view, i).Some?
      {
        BlockAgrees(view, register, count, i);
      }
    } else if 1 <= count <= 125 && register + count <= 0x10000 {
      var i :| register <= i < register + count && (Denied(view, i) || Locked(view, i));
      RefusedAlone(view, i);
    } else if 1 <= count <= 125 {
      assert Single(view, register + count - 1).None?;
    }
  }

  lemma RefusedAlone(view: View, address: int)
    requires Denied(view, address) || Locked(view, address)
    ensures Single(view, address).None?
  {
    assert Within(address, address, 1);
  }

  /** A register is answered alone when it exists, is not refused, was written if it is a set register, and is not
      held back by the warm-up. */
  lemma SingleExactly(view: View, address: int)
    ensures Single(view, address).Some? <==>
              && address < 65536 && address !in view.unit.refused
              && (InRanges(address, UNIT_READABLE_RANGES) || address in view.extra || 41120 <= address <= 41124)
              && (41120 <= address <= 41124 ==> address in view.unit.written)
              && !(view.warmingUp && (41000 <= address <= 41006 || 41009 <= address <= 41011 || 41016 <= address <= 41021))
    ensures Single(view, address).Some? ==>
              Single(view, address) == Some(if address in view.unit.registers then view.unit.registers[address] else 0)
  {
    assert Within(address, address, 1);
    WarmupRanges(address);
    if Single(view, address).Some? {
      assert Read(view, address, 1).values[0] == Get(view.unit.registers, address + 0, 0);
    }
  }

  lemma WarmupRanges(address: int)
    ensures InRanges(address, WARMUP_ACKNOWLEDGE_RANGES) <==>
              41000 <= address <= 41006 || 41009 <= address <= 41011 || 41016 <= address <= 41021
  {
    var w := WARMUP_ACKNOWLEDGE_RANGES;
    assert w[0] in w && w[1] in w && w[2] in w;
  }

  /** A request for no register or too many is invalid; a block with a register that is refused or cannot be read
      has an illegal address; any other that is not answered is put off. */
  lemma ErrorExactly(view: View, register: int, count: int)
    ensures Read(view, register, count) == Exception(3) <==> !(1 <= count <= 125) || register + count > 65536
    ensures Read(view, register, count) == Exception(2) <==>
              && 1 <= count <= 125 && register + count <= 65536
              && exists i | register <= i < register + count :: Denied(view, i)
    ensures Read(view, register, count).Values? || Read(view, register, count) in {Exception(2), Exception(3), Exception(5)}
  {
    if i :| register <= i < register + count && Denied(view, i) {
      assert Within(i, register, count);
    }
  }

  /** A read that was answered. */
  datatype Block = Block(register: int, count: int)

  predicate Covers(b: Block, address: int) {
    b.register <= address < b.register + b.count
  }

  /** The answered reads are valid, in order and disjoint, and all lie below `limit`. */
  predicate Disjoint(blocks: seq<Block>, limit: int) {
    && (forall i | 0 <= i < |blocks| :: blocks[i].register + blocks[i].count <= limit)
    && (forall i, j | 0 <= i < j < |blocks| :: blocks[i].register + blocks[i].count <= blocks[j].register)
  }

  /** Every address below `limit` has its own single-read value, which one answered read delivered. */
  ghost predicate Captured(view: View, start: int, limit: int, values: map<int, Option<int>>, blocks: seq<Block>) {
    && (forall a | start <= a < limit :: a in values && values[a] == Single(view, a))
    && (forall a | start <= a < limit :: values[a].Some? <==> exists b | b in blocks :: Covers(b, a))
    && Disjoint(blocks, limit)
  }

  lemma CaptureBlock(view: View, start: int, limit: int, values: map<int, Option<int>>, blocks: seq<Block>,
                     count: int, after: map<int, Option<int>>)
    requires start <= limit && Captured(view, start, limit, values, blocks)
    requires Read(view, limit, count).Values? && count > 0
    requires forall a | start <= a < limit :: a in after && after[a] == values[a]
    requires forall a | limit <= a < limit + count ::
               a in after && after[a] == Some(Read(view, limit, count).values[a - limit])
    ensures Captured(view, start, limit + count, after, blocks + [Block(limit, count)])
  {
    var longer := blocks + [Block(limit, count)];
    forall a | start <= a < limit + count
      ensures a in after && after[a] == Single(view, a)
      ensures after[a].Some? <==> exists b | b in longer :: Covers(b, a)
    {
      if a < limit {
        if exists b | b in longer :: Covers(b, a) {
          var b :| b in longer && Covers(b, a);
          assert b in blocks;
        }
        if after[a].Some? {
          var b :| b in blocks && Covers(b, a);
          assert b in longer;
        }
      } else {
        BlockAgrees(view, limit, count, a);
        assert Block(limit, count) in longer && Covers(Block(limit, count), a);
      }
    }
  }

  lemma CaptureNothing(view: View, start: int, limit: int, values: map<int, Option<int>>, blocks: seq<Block>)
    requires start <= limit && Captured(view, start, limit, values, blocks)
    requires limit in values && values[limit] == None && Single(view, limit) == None
    ensures Captured(view, start, limit + 1, values, blocks)
  {
    forall b | b in blocks
      ensures !Covers(b, limit)
    {
      var i :| 0 <= i < |blocks| && blocks[i] == b;
    }
  }

  /** Single reads of `first .. limit`; an address that is refused keeps no value. */
  method ReadSingly(view: View, ghost start: int, first: int, limit: int, before: map<int, Option<int>>,
                    ghost blocksBefore: seq<Block>)
    returns (values: map<int, Option<int>>, ghost blocks: seq<Block>)
    requires start <= first <= limit && Captured(view, start, first, before, blocksBefore)
    requires forall a | first <= a < limit :: a in before && before[a] == None
    ensures Captured(view, start, limit, values, blocks) && values.Keys == before.Keys
    ensures forall a | a in before && limit <= a :: values[a] == before[a]
    ensures blocksBefore <= blocks
  {
    values, blocks := before, blocksBefore;
    for address := first to limit
      invariant Captured(view, start, address, values, blocks) && values.Keys == before.Keys
      invariant forall a | a in before && address <= a :: values[a] == before[a]
      invariant blocksBefore <= blocks
    {
      var single := Read(view, address, 1);
      if single.Values? {
        ghost var previous := values;
        values := values[address := Some(single.values[0])];
        CaptureBlock(view, start, address, previous, blocks, 1, values);
        blocks := blocks + [Block(address, 1)];
      } else {
        CaptureNothing(view, start, address, values, blocks);
      }
    }
  }

  /** A map of the addresses `first .. last` without values. */
  method NoValues(first: int, last: int) returns (values: map<int, Option<int>>)
    ensures forall a :: (a in values <==> first <= a <= last) && (a in values ==> values[a] == None)
  {
    values := map[];
    var address := first;
    while address <= last
      invariant first <= address && (first < address ==> address <= last + 1)
      invariant forall a :: (a in values <==> first <= a < address) && (a in values ==> values[a] == None)
    {
      values := values[address := None];
      address := address + 1;
    }
  }

  /** The answer of a block read, entered address by address. */
  method Entered(before: map<int, Option<int>>, first: int, registers: seq<int>)
    returns (values: map<int, Option<int>>)
    requires forall a | first <= a < first + |registers| :: a in before
    ensures values.Keys == before.Keys
    ensures forall a | a in before ::
              values[a] == if first <= a < first + |registers| then Some(registers[a - first]) else before[a]
  {
    values := before;
    for i := 0 to |registers|
      invariant values.Keys == before.Keys
      invariant forall a | a in before ::
                  values[a] == if first <= a < first + i then Some(registers[a - first]) else before[a]
    {
      values := values[first + i := Some(registers[i])];
    }
  }

  /** Read one chunk, register by register if the unit refuses it as a block. */
  method ReadChunk(view: View, ghost start: int, chunk: int, count: int, before: map<int, Option<int>>,
                   ghost blocksBefore: seq<Block>)
    returns (values: map<int, Option<int>>, ghost blocks: seq<Block>)
    requires start <= chunk && count > 0 && Captured(view, start, chunk, before, blocksBefore)
    requires forall a | chunk <= a < chunk + count :: a in before && before[a] == None
    ensures Captured(view, start, chunk + count, values, blocks) && values.Keys == before.Keys
    ensures forall a | a in before && chunk + count <= a :: values[a] == before[a]
    ensures blocksBefore <= blocks
    ensures Read(view, chunk, count).Values? ==> blocks == blocksBefore + [Block(chunk, count)]
  {
    values, blocks := before, blocksBefore;
    var reply := Read(view, chunk, count);
    if reply.Values? {
      values := Entered(before, chunk, reply.values);
      CaptureBlock(view, start, chunk, before, blocks, count, values);
      blocks := blocks + [Block(chunk, count)];
    } else if count > 1 {
      values, blocks := ReadSingly(view, start, chunk, chunk + count, before, blocks);
    } else {
      CaptureNothing(view, start, chunk, values, blocks);
    }
  }

  /** Each chunk of 120 addresses from `first` on, and the rest up to `last`, that the unit answers as a block was
      read as one. */
  predicate ChunksWhole(view: View, first: int, last: int, limit: int, blocks: seq<Block>) {
    forall c | first <= c < limit && c <= last && (c - first) % 120 == 0 :: ReadWhole(view, c, last, blocks)
  }

  predicate ReadWhole(view: View, chunk: int, last: int, blocks: seq<Block>) {
    var count := if last - chunk + 1 < 120 then last - chunk + 1 else 120;
    Read(view, chunk, count).Values? ==> Block(chunk, count) in blocks
  }

  lemma NextWhole(view: View, first: int, last: int, chunk: int, count: int, earlier: seq<Block>, blocks: seq<Block>)
    requires first <= chunk <= last && (chunk - first) % 120 == 0 && earlier <= blocks
    requires ChunksWhole(view, first, last, chunk, earlier) && count == if last - chunk + 1 < 120 then last - chunk + 1 else 120
    requires Read(view, chunk, count).Values? ==> Block(chunk, count) in blocks
    ensures ChunksWhole(view, first, last, chunk + count, blocks)
  {
    forall b | b in earlier
      ensures b in blocks
    {
      var i :| 0 <= i < |earlier| && earlier[i] == b;
      assert blocks[i] == b;
    }
    forall c | first <= c < chunk + count && c <= last && (c - first) % 120 == 0
      ensures ReadWhole(view, c, last, blocks)
    {
      if c < chunk {
        assert ReadWhole(view, c, last, earlier);
      } else {
        assert c == chunk;
      }
    }
  }

  /** Read `first .. last` in chunks. Every address gets exactly what a single read of it gives, and
      no address is delivered by two answered reads. */
  method ReadAll(view: View, first: int, last: int)
    returns (values: map<int, Option<int>>, ghost blocks: seq<Block>)
    ensures forall a :: a in values <==> first <= a <= last
    ensures forall a | a in values :: values[a] == Single(view, a)
    ensures forall a | a in values :: values[a].Some? <==> exists b | b in blocks :: Covers(b, a)
    ensures forall i, j | 0 <= i < j < |blocks| :: blocks[i].register + blocks[i].count <= blocks[j].register
    ensures ChunksWhole(view, first, last, last + 1, blocks)
  {
    values := NoValues(first, last);
    blocks := [];
    var chunk := first;
    while chunk <= last
      invariant forall a :: a in values <==> first <= a <= last
      invariant first <= chunk && (first <= last ==> chunk <= last + 1)
      invariant Captured(view, first, chunk, values, blocks)
      invariant forall a | a in values && chunk <= a :: values[a] == None
      invariant ChunksWhole(view, first, last, chunk, blocks) && (chunk <= last ==> (chunk - first) % 120 == 0)
      decreases last + 1 - chunk
    {
      var count := if last - chunk + 1 < MAX_REGISTERS_PER_READ then last - chunk + 1 else MAX_REGISTERS_PER_READ;
      ghost var earlier := blocks;
      values, blocks := ReadChunk(view, first, chunk, count, values, blocks);
      NextWhole(view, first, last, chunk, count, earlier, blocks);
      chunk := chunk + count;
    }
  }
}

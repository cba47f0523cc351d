/** Writing a command's registers over an unreliable link, and remembering what may be left staged.

    A register that reached the unit takes effect with the next APPLY, whoever sends it. The client
    keeps, per unit, the registers an interrupted command may have left behind, and names them before
    an APPLY that would activate them.
  */
module StagedWrites {
  import opened Wrappers
  import opened LinkLog
  import opened Transport
  import opened ModeCodec
  import UnitModel

  // -------------------------------------------------------------------
  //  What a command did on the link
  // -------------------------------------------------------------------

  /** One telegram: whether the unit stored its value, and how it ended for the client. */
  datatype Telegram = Telegram(stored: bool, outcome: Outcome)

  /** Only a positive answer proves that the value was stored; only the unit's own refusal proves
      that it was not. */
  predicate Honest(t: Telegram) {
    (t.outcome == Success ==> t.stored) && (t.outcome == Refused ==> !t.stored)
  }

  /** One register write with its one or two telegrams, each of which carries the address and the value. */
  datatype Operation<R> = Operation(register: R, address: int, value: int, telegrams: seq<Telegram>, outcome: Outcome)

  function Outcomes(telegrams: seq<Telegram>): seq<Outcome> {
    seq(|telegrams|, i requires 0 <= i < |telegrams| => telegrams[i].outcome)
  }

  predicate Possible<R>(op: Operation<R>) {
    (forall t | t in op.telegrams :: Honest(t)) && RunDecided(false, Outcomes(op.telegrams), Done(op.outcome))
  }

  predicate Reached<R>(op: Operation<R>) {
    exists t | t in op.telegrams :: t.stored
  }

  /** The write ended in an exception response, of the unit or of the gateway for it. */
  predicate Excepted<R>(op: Operation<R>) {
    op.outcome == Refused || op.outcome == TargetSilent
  }

  /** What one command did: its register writes in order, and its APPLY if it got that far. */
  datatype Trace = Trace(names: seq<ModeRegister>, ops: seq<Operation<ModeRegister>>, apply: Option<Operation<()>>)

  predicate Complete(ops: seq<Operation<ModeRegister>>) {
    forall op | op in ops :: op.outcome == Success
  }

  predicate Follows(names: seq<ModeRegister>, ops: seq<Operation<ModeRegister>>) {
    |ops| <= |names| && forall i | 0 <= i < |ops| :: ops[i].register == names[i] && Possible(ops[i])
  }

  predicate PossibleTrace(t: Trace) {
    && Follows(t.names, t.ops)
    && (t.ops != [] ==> Complete(t.ops[..|t.ops| - 1]))
    && (t.apply.Some? ==> Possible(t.apply.value) && |t.ops| == |t.names| && Complete(t.ops))
  }

  // -------------------------------------------------------------------
  //  The client's book and the unit's staged registers
  // -------------------------------------------------------------------

  datatype Book = Book(staged: set<ModeRegister>, unactivated: set<ModeRegister>)

  /** Every register that still waits for an APPLY is in the client's book. */
  predicate Sound(b: Book) {
    b.unactivated <= b.staged
  }

  function StagedBy(ops: seq<Operation<ModeRegister>>): set<ModeRegister> {
    set op | op in ops && Reached(op) :: op.register
  }

  /** The registers the client takes for written: all but one that ended in an exception response. */
  function NotedBy(ops: seq<Operation<ModeRegister>>): set<ModeRegister> {
    set op | op in ops && !Excepted(op) :: op.register
  }

  function After(b: Book, t: Trace): Book {
    Book(if t.apply.Some? && t.apply.value.outcome == Success then {} else b.staged + NotedBy(t.ops),
         if t.apply.Some? && Reached(t.apply.value) then {} else b.unactivated + StagedBy(t.ops))
  }

  /** The write that ended the command got an exception response although one of its telegrams had
      been stored, and nothing else put the register into the book. */
  predicate Overlooked(b: Book, t: Trace) {
    t.ops != [] && var last := t.ops[|t.ops| - 1];
    Excepted(last) && Reached(last) && last.register !in b.staged + NotedBy(t.ops)
  }

  lemma SuccessReaches<R>(op: Operation<R>)
    requires Possible(op) && op.outcome == Success
    ensures Reached(op)
  {
    var ends := Outcomes(op.telegrams);
    assert Honest(op.telegrams[|ends| - 1]);
  }

  /** From a sound book, a command leaves a sound book exactly when its last write was not overlooked. */
  lemma SoundExactly(b: Book, t: Trace)
    requires Sound(b) && PossibleTrace(t)
    ensures Sound(After(b, t)) <==> !Overlooked(b, t)
  {
    if t.apply.Some? && t.apply.value.outcome == Success {
      SuccessReaches(t.apply.value);
    }
    if t.ops != [] {
      var last := t.ops[|t.ops| - 1];
      forall op | op in t.ops && op != last
        ensures !Excepted(op)
      {
        var i :| 0 <= i < |t.ops| && t.ops[i] == op;
        assert t.ops[..|t.ops| - 1][i] == op;
      }
      if Overlooked(b, t) {
        assert last.register in StagedBy(t.ops);
        assert t.apply.None?;
      } else if t.apply.None? || !Reached(t.apply.value) {
        forall r | r in StagedBy(t.ops)
          ensures r in b.staged + NotedBy(t.ops)
        {
          var op :| op in t.ops && Reached(op) && op.register == r;
          if Excepted(op) {
            assert op == last;
          }
        }
      }
    }
  }

  /** What the warning before the APPLY names. */
  function LeftOver(b: Book, names: seq<ModeRegister>): set<ModeRegister> {
    b.staged - (set r | r in names)
  }

  /** With a sound book, an APPLY activates nothing the command did not write or the warning name. */
  lemma WarningCovers(b: Book, t: Trace)
    requires Sound(b) && PossibleTrace(t) && t.apply.Some?
    ensures b.unactivated + StagedBy(t.ops) - (set r | r in t.names) <= LeftOver(b, t.names)
  {
    forall op | op in t.ops
      ensures op.register in t.names
    {
      var i :| 0 <= i < |t.ops| && t.ops[i] == op;
      assert t.names[i] == op.register;
    }
  }

  // -------------------------------------------------------------------
  //  What the unit holds
  // -------------------------------------------------------------------

  /** A unit, and its registers as they were when it last took an APPLY. */
  datatype Device = Device(unit: UnitModel.UnitState, active: UnitModel.Registers)

  /** The set registers whose value the last APPLY did not take. */
  function StagedIn(d: Device): set<ModeRegister> {
    set r: ModeRegister | !SameAt(d.unit.registers, d.active, r.Address())
  }

  predicate SameAt(a: UnitModel.Registers, b: UnitModel.Registers, address: int) {
    (address in a <==> address in b) && (address in a ==> a[address] == b[address])
  }

  function Stores(d: Device, profile: UnitModel.Profile, address: int, value: int, at: real): Device {
    var unit := UnitModel.Stored(d.unit, profile, address, value, at);
    Device(unit, if address == UnitModel.APPLY && value == 0 then unit.registers else d.active)
  }

  /** The unit after the telegrams of one write, some of which it stored. */
  function Receives(d: Device, profile: UnitModel.Profile, address: int, value: int, telegrams: seq<Telegram>,
                    at: nat -> real): Device {
    if telegrams == [] then d
    else
      var n := |telegrams| - 1;
      var before := Receives(d, profile, address, value, telegrams[..n], at);
      if telegrams[n].stored then Stores(before, profile, address, value, at(n)) else before
  }

  function ReceivesAll(d: Device, profile: UnitModel.Profile, ops: seq<Operation<ModeRegister>>, values: nat -> int,
                       at: nat -> nat -> real): Device {
    if ops == [] then d
    else
      var n := |ops| - 1;
      Receives(ReceivesAll(d, profile, ops[..n], values, at), profile, ops[n].register.Address(), values(n),
               ops[n].telegrams, at(n))
  }

  /** The unit after a command, with whatever values and at whatever times. */
  function Executed(d: Device, profile: UnitModel.Profile, t: Trace, values: nat -> int, at: nat -> nat -> real): Device {
    var written := ReceivesAll(d, profile, t.ops, values, at);
    if t.apply.None? then written
    else Receives(written, profile, UnitModel.APPLY, 0, t.apply.value.telegrams, at(|t.ops|))
  }

  lemma {:induction false} ReceivesStages(d: Device, profile: UnitModel.Profile, r: ModeRegister, value: int,
                                          telegrams: seq<Telegram>, at: nat -> real)
    ensures StagedIn(Receives(d, profile, r.Address(), value, telegrams, at))
         <= StagedIn(d) + (if exists t | t in telegrams :: t.stored then {r} else {})
  {
    if telegrams != [] {
      var n := |telegrams| - 1;
      ReceivesStages(d, profile, r, value, telegrams[..n], at);
      if telegrams[n].stored {
        StoresStages(Receives(d, profile, r.Address(), value, telegrams[..n], at), profile, r, value, at(n));
        assert telegrams[n] in telegrams;
      }
    }
  }

  /** Storing a set register stages at most that register. */
  lemma StoresStages(d: Device, profile: UnitModel.Profile, r: ModeRegister, value: int, at: real)
    ensures StagedIn(Stores(d, profile, r.Address(), value, at)) <= StagedIn(d) + {r}
  {
    UnitModel.StoreStages(d.unit, profile, r.Address(), value, at);
    assert forall x: ModeRegister :: UnitModel.IsSetRegister(x.Address());
  }

  lemma {:induction false} AppliesAll(d: Device, profile: UnitModel.Profile, telegrams: seq<Telegram>, at: nat -> real)
    ensures StagedIn(Receives(d, profile, UnitModel.APPLY, 0, telegrams, at))
         <= if exists t | t in telegrams :: t.stored then {} else StagedIn(d)
  {
    if telegrams != [] {
      var n := |telegrams| - 1;
      AppliesAll(d, profile, telegrams[..n], at);
      assert telegrams[n].stored ==> telegrams[n] in telegrams;
    }
  }

  lemma {:induction false} WritesStage(d: Device, profile: UnitModel.Profile, ops: seq<Operation<ModeRegister>>,
                                       values: nat -> int, at: nat -> nat -> real)
    ensures StagedIn(ReceivesAll(d, profile, ops, values, at)) <= StagedIn(d) + StagedBy(ops)
  {
    if ops != [] {
      var n := |ops| - 1;
      WritesStage(d, profile, ops[..n], values, at);
      ReceivesStages(ReceivesAll(d, profile, ops[..n], values, at), profile, ops[n].register, values(n),
                     ops[n].telegrams, at(n));
      assert ops[n] in ops;
      assert StagedBy(ops[..n]) <= StagedBy(ops);
    }
  }

  /** The book's `unactivated` covers what the unit really holds staged: a command keeps that, whatever it
      writes, whichever of its telegrams the unit stores, and whenever. */
  lemma UnactivatedCovers(d: Device, profile: UnitModel.Profile, b: Book, t: Trace, values: nat -> int,
                          at: nat -> nat -> real)
    requires StagedIn(d) <= b.unactivated
    ensures StagedIn(Executed(d, profile, t, values, at)) <= After(b, t).unactivated
  {
    WritesStage(d, profile, t.ops, values, at);
    if t.apply.Some? {
      AppliesAll(ReceivesAll(d, profile, t.ops, values, at), profile, t.apply.value.telegrams, at(|t.ops|));
    }
  }

  // -------------------------------------------------------------------
  //  Whole runs
  // -------------------------------------------------------------------

  function Books(start: Book, run: seq<Trace>): Book {
    if run == [] then start else After(Books(start, run[..|run| - 1]), run[|run| - 1])
  }

  /** The book was sound after every command. */
  predicate SoundThroughout(start: Book, run: seq<Trace>) {
    Sound(Books(start, run)) && (run != [] ==> SoundThroughout(start, run[..|run| - 1]))
  }

  predicate NoneOverlooked(start: Book, run: seq<Trace>) {
    run != [] ==>
      && NoneOverlooked(start, run[..|run| - 1])
      && !Overlooked(Books(start, run[..|run| - 1]), run[|run| - 1])
  }

  /** In every run, the book stays sound throughout exactly when no command was overlooked. */
  lemma {:induction false} RunSoundExactly(start: Book, run: seq<Trace>)
    requires Sound(start) && forall t | t in run :: PossibleTrace(t)
    ensures SoundThroughout(start, run) <==> NoneOverlooked(start, run)
  {
    if run != [] {
      RunSoundExactly(start, run[..|run| - 1]);
      if SoundThroughout(start, run[..|run| - 1]) {
        SoundExactly(Books(start, run[..|run| - 1]), run[|run| - 1]);
      }
    }
  }

  /** What can be seen of a command that might be overlooked: its last write ended in an exception response to a
      retry, or in one of the gateway for a unit that did not answer. */
  predicate Suspect(t: Trace) {
    t.ops != [] && var last := t.ops[|t.ops| - 1];
    last.outcome == TargetSilent || (last.outcome == Refused && |last.telegrams| > 1)
  }

  lemma OverlookedIsSuspect(b: Book, t: Trace)
    requires PossibleTrace(t) && Overlooked(b, t)
    ensures Suspect(t)
  {
    var last := t.ops[|t.ops| - 1];
    assert Possible(last);
    if last.outcome == Refused {
      var ends := Outcomes(last.telegrams);
      assert ends[|ends| - 1] == Refused;
      assert Honest(last.telegrams[|ends| - 1]);
    }
  }

  /** So the book stays sound as long as no command is suspect. */
  lemma {:induction false} UnsuspectedSound(start: Book, run: seq<Trace>)
    requires Sound(start) && forall t | t in run :: PossibleTrace(t) && !Suspect(t)
    ensures SoundThroughout(start, run)
  {
    if run != [] {
      var before, t := run[..|run| - 1], run[|run| - 1];
      UnsuspectedSound(start, before);
      if Overlooked(Books(start, before), t) {
        OverlookedIsSuspect(Books(start, before), t);
      }
      SoundExactly(Books(start, before), t);
    }
  }

  /** A run of one command whose reply is lost and whose retry is refused. */
  lemma LostReply() returns (t: Trace)
    ensures PossibleTrace(t) && t.names == [CurrentLevel] && After(Book({}, {}), t) == Book({}, {CurrentLevel})
  {
    var lost := Operation(CurrentLevel, 41121, 0, [Telegram(true, NoAnswer), Telegram(false, Refused)], Refused);
    t := Trace([CurrentLevel], [lost], None);
    assert Outcomes(lost.telegrams) == [NoAnswer, Refused];
    assert lost.telegrams[0].stored;
    assert lost in t.ops;
  }

  /** Soundness is not unconditional: after `LostReply`, a command that never touches the register
      can activate its value without a warning. */
  lemma SilentActivation() returns (run: seq<Trace>)
    ensures |run| == 2 && (forall t | t in run :: PossibleTrace(t)) && run[1].apply.Some?
    ensures var b := Books(Book({}, {}), run[..1]);
            && !Sound(b) && CurrentLevel in b.unactivated + StagedBy(run[1].ops)
            && CurrentLevel !in run[1].names && LeftOver(b, run[1].names) == {}
  {
    var first := LostReply();
    var answered := [Telegram(true, Success)];
    assert Outcomes(answered) == [Success];
    var second := Trace([Mode], [Operation(Mode, 41120, 1, answered, Success)], Some(Operation((), 41132, 0, answered, Success)));
    run := [first, second];
    assert run[..1] == [first] && [first][..0] == [];
    assert Books(Book({}, {}), [first]) == After(Books(Book({}, {}), []), first);
  }

  // -------------------------------------------------------------------
  //  The client
  // -------------------------------------------------------------------

  function Names(writes: seq<RegisterWrite>): seq<ModeRegister> {
    seq(|writes|, i requires 0 <= i < |writes| => writes[i].register)
  }

  /** The operations carry the addresses and values of the writes, in order. */
  predicate Carries(writes: seq<RegisterWrite>, ops: seq<Operation<ModeRegister>>) {
    && |ops| <= |writes|
    && forall i | 0 <= i < |ops| ::
         && ops[i].value == writes[i].value
         && ops[i].address == (match writes[i].register
                               case Mode => 41120
                               case CurrentLevel => 41121
                               case ExtractTarget => 41122
                               case PresetMode => 41123
                               case PresetValue => 41124)
  }

  /** The mode writes of the client of one link. `unactivated` is what its units really hold staged. */
  class ModeClient {
    const policy: TransportPolicy
    var stagedModeRegisters: map<UnitId, set<ModeRegister>>
    ghost var unactivated: map<UnitId, set<ModeRegister>>

    constructor (policy: TransportPolicy)
      ensures this.policy == policy
      ensures forall unit :: BookOf(unit) == Book({}, {})
    {
      this.policy := policy;
      stagedModeRegisters := map[];
      unactivated := map[];
    }

    function StagedFor(unit: UnitId): set<ModeRegister>
      reads `stagedModeRegisters
    {
      if unit in stagedModeRegisters then stagedModeRegisters[unit] else {}
    }

    ghost function BookOf(unit: UnitId): Book
      reads this
    {
      Book(StagedFor(unit), if unit in unactivated then unactivated[unit] else {})
    }

    /** Send one register write under the link policy; the unit may store any of its telegrams. */
    method Send<R>(unit: UnitId, register: R, address: int, value: int) returns (outcome: Outcome, ghost op: Operation<R>)
      requires policy.Valid() && Idle(policy.link)
      modifies policy
      ensures policy.Valid() && Idle(policy.link)
      ensures Possible(op) && op.register == register && op.outcome == outcome && op.address == address && op.value == value
    {
      var v, ends := policy.Run(unit, false, Some(address));
      outcome := v.outcome;
      ghost var luck: nat -> bool := *;
      ghost var telegrams := seq(|ends|, i requires 0 <= i < |ends| =>
        Telegram(ends[i] == Success || (ends[i] != Refused && luck(i)), ends[i]));
      op := Operation(register, address, value, telegrams, outcome);
      assert Outcomes(telegrams) == ends;
    }

    /** The register writes of a command, up to the first that fails. */
    method WriteAll(unit: UnitId, writes: seq<RegisterWrite>)
      returns (outcome: Outcome, written: set<ModeRegister>, ghost ops: seq<Operation<ModeRegister>>)
      requires policy.Valid() && Idle(policy.link)
      modifies policy
      ensures policy.Valid() && Idle(policy.link)
      ensures Carries(writes, ops) && Follows(Names(writes), ops) && (ops != [] ==> Complete(ops[..|ops| - 1]))
      ensures outcome == Success ==> |ops| == |writes| && Complete(ops)
      ensures written == NotedBy(ops)
    {
      written, outcome, ops := {}, Success, [];
      for i := 0 to |writes|
        invariant policy.Valid() && Idle(policy.link)
        invariant |ops| == i && Carries(writes, ops) && Follows(Names(writes), ops) && Complete(ops)
        invariant written == NotedBy(ops) && outcome == Success
      {
        var register := writes[i].register;
        ghost var op;
        outcome, op := Send(unit, register, register.Address(), writes[i].value);
        OperationNext(Names(writes), ops, op);
        CarriesNext(writes, ops, op);
        ops := ops + [op];
        written := if outcome != Refused && outcome != TargetSilent then written + {register} else written;
        if outcome != Success {
          return;
        }
      }
    }

    /** Write mode registers in order, then activate them with APPLY. `warned` is what the log names
        as left staged by an interrupted command, if the command gets as far as its APPLY. */
    method WriteModeRegisters(unit: UnitId, writes: seq<RegisterWrite>)
      returns (outcome: Outcome, warned: Option<set<ModeRegister>>, ghost trace: Trace)
      requires policy.Valid() && Idle(policy.link)
      modifies this, policy
      ensures policy.Valid() && Idle(policy.link)
      ensures PossibleTrace(trace) && trace.names == Names(writes) && Carries(writes, trace.ops)
      ensures trace.apply.Some? ==> trace.apply.value.address == 41132 && trace.apply.value.value == 0
      ensures BookOf(unit) == After(old(BookOf(unit)), trace)
      ensures forall other | other != unit :: BookOf(other) == old(BookOf(other))
      ensures outcome == Success <==> trace.apply.Some? && trace.apply.value.outcome == Success
      ensures warned == if trace.apply.Some? then Some(LeftOver(old(BookOf(unit)), trace.names)) else None
    {
      var staged := StagedFor(unit);
      var written;
      ghost var ops;
      outcome, written, ops := WriteAll(unit, writes);
      warned, trace := None, Trace(Names(writes), ops, None);
      if outcome == Success {
        NamesSet(writes);
        warned := Some(staged - (set w | w in writes :: w.register));
        ghost var apply;
        outcome, apply := Send(unit, (), UnitModel.APPLY, 0);
        trace := trace.(apply := Some(apply));
      }
      unactivated := unactivated[unit := After(BookOf(unit), trace).unactivated];
      if outcome != Success {
        Note(unit, staged, written);
      } else {
        stagedModeRegisters := stagedModeRegisters - {unit};
      }
    }

    method Note(unit: UnitId, staged: set<ModeRegister>, written: set<ModeRegister>)
      requires StagedFor(unit) == staged
      modifies `stagedModeRegisters
      ensures StagedFor(unit) == staged + written
      ensures forall other | other != unit :: StagedFor(other) == old(StagedFor(other))
    {
      if written != {} {
        stagedModeRegisters := stagedModeRegisters[unit := staged + written];
      }
    }
  }

  lemma CarriesNext(writes: seq<RegisterWrite>, ops: seq<Operation<ModeRegister>>, op: Operation<ModeRegister>)
    requires Carries(writes, ops) && |ops| < |writes|
    requires op.value == writes[|ops|].value && op.address == writes[|ops|].register.Address()
    ensures Carries(writes, ops + [op])
  {
  }

  lemma OperationNext(names: seq<ModeRegister>, ops: seq<Operation<ModeRegister>>, op: Operation<ModeRegister>)
    requires Follows(names, ops) && Complete(ops) && |ops| < |names|
    requires Possible(op) && op.register == names[|ops|]
    ensures Follows(names, ops + [op]) && Complete((ops + [op])[..|ops|])
    ensures op.outcome == Success ==> Complete(ops + [op])
    ensures NotedBy(ops + [op]) == NotedBy(ops) + (if Excepted(op) then {} else {op.register})
  {
    NotedNext(ops, op);
    assert (ops + [op])[..|ops|] == ops;
  }

  lemma NotedNext(ops: seq<Operation<ModeRegister>>, op: Operation<ModeRegister>)
    ensures NotedBy(ops + [op]) == NotedBy(ops) + (if Excepted(op) then {} else {op.register})
  {
    forall r | r in NotedBy(ops)
      ensures r in NotedBy(ops + [op])
    {
      var o :| o in ops && !Excepted(o) && o.register == r;
      assert o in ops + [op];
    }
    assert op in ops + [op];
  }

  lemma NamesSet(writes: seq<RegisterWrite>)
    ensures (set r | r in Names(writes)) == (set w | w in writes :: w.register)
  {
    forall w | w in writes
      ensures w.register in Names(writes)
    {
      var i :| 0 <= i < |writes| && writes[i] == w;
      assert Names(writes)[i] == w.register;
    }
  }
}

/** The CRC-16 frame check of the RTU link.

    A frame is a payload followed by its CRC, low byte first. The receiver
    recomputes the CRC over all but the last two bytes and compares. The CRC is
    the one of MODBUS over Serial Line Specification and Implementation Guide
    V1.02, section 6.2.2 (CRC generation): register preset to all ones, bits
    entering at the low end, polynomial 0xA001 (0x8005 reversed).
  */
module RtuFrame {
  import opened LinearRegister

  const PRESET: bv16 := 0xFFFF
  const POLYNOMIAL: bv16 := 0xA001

  /** A byte, held in a register-wide word. */
  type Byte = b: bv16 | b & 0xFF00 == 0

  // -------------------------------------------------------------------
  //  The frame
  // -------------------------------------------------------------------

  function Xor(x: bv16, y: bv16): bv16 { x ^ y }

  /** One shift of the register: a set low bit is fed back at the taps 15, 13 and 0. */
  function Shift(crc: bv16): bv16 {
    (crc >> 1) ^ ((crc & 1) << 15) ^ ((crc & 1) << 13) ^ (crc & 1)
  }

  lemma ShiftFeedsBack(crc: bv16)
    ensures Shift(crc) == (crc >> 1) ^ (if crc & 1 == 1 then POLYNOMIAL else 0)
  {
  }

  function Shifts(crc: bv16, n: nat): bv16 {
    Iterate(Shift, crc, n)
  }

  /** The register after `bytes`, started from `init`. */
  function Register(init: bv16, bytes: seq<Byte>): bv16 {
    Absorb(Shift, Xor, 8, init, bytes)
  }

  function Crc(bytes: seq<Byte>): bv16 {
    Register(PRESET, bytes)
  }

  function Low(crc: bv16): Byte { crc & 0xFF }

  function High(crc: bv16): Byte { crc >> 8 }

  /** A byte, moved to the high half of the register. */
  function Raised(b: Byte): bv16 { (b as bv16) << 8 }

  method BuildFrame(payload: seq<Byte>) returns (frame: seq<Byte>)
    ensures frame == payload + [Low(Crc(payload)), High(Crc(payload))]
  {
    var crc := PRESET;
    for i := 0 to |payload|
      invariant crc == Register(PRESET, payload[..i])
    {
      crc := crc ^ payload[i];
      ghost var start := crc;
      for bit := 0 to 8
        invariant crc == Shifts(start, bit)
      {
        ShiftFeedsBack(crc);
        crc := (crc >> 1) ^ (if crc & 1 == 1 then POLYNOMIAL else 0);
      }
      assert payload[..i + 1][..i] == payload[..i];
    }
    assert payload[..|payload|] == payload;
    frame := payload + [Low(crc), High(crc)];
  }

  ghost predicate Valid(frame: seq<Byte>)
    requires |frame| >= 2
  {
    var payload := frame[..|frame| - 2];
    frame == payload + [Low(Crc(payload)), High(Crc(payload))]
  }

  /** The receiver's check, for a frame of any length of at least two. */
  method CheckFrame(frame: seq<Byte>) returns (valid: bool)
    requires |frame| >= 2
    ensures valid <==> Valid(frame)
    ensures valid <==> Crc(frame) == 0
  {
    var expected := BuildFrame(frame[..|frame| - 2]);
    valid := expected == frame;
    ValidFrameCrc(frame);
  }

  // -------------------------------------------------------------------
  //  The shift step obeys the laws of a linear register
  // -------------------------------------------------------------------

  lemma ShiftAdditive()
    ensures StepAdditive(Shift, Xor)
  {
    assert forall a, b {:trigger Shift(Xor(a, b))} :: Shift(Xor(a, b)) == Xor(Shift(a), Shift(b));
  }

  /** No register but zero shifts to zero, as the polynomial's top bit is set. */
  lemma ShiftKernel()
    ensures StepKernel(Shift, 0)
  {
    assert forall a {:trigger Shift(a)} :: Shift(a) == 0 <==> a == 0;
  }

  lemma XorSelfInverse()
    ensures SelfInverse(Xor, 0)
  {
    assert forall a, b {:trigger Xor(a, b)} :: Xor(a, b) == 0 <==> a == b;
  }

  lemma XorUnit()
    ensures Unit(Xor, 0)
  {
    assert forall a {:trigger Xor(a, 0)} :: Xor(a, 0) == a;
    assert forall a {:trigger Xor(0, a)} :: Xor(0, a) == a;
  }

  lemma XorCommutative()
    ensures Commutative(Xor)
  {
    assert forall a, b {:trigger Xor(a, b)} :: Xor(a, b) == Xor(b, a);
  }

  lemma XorAssociative()
    ensures Associative(Xor)
  {
    assert forall a, b, c {:trigger Xor(Xor(a, b), c)} :: Xor(Xor(a, b), c) == Xor(a, Xor(b, c));
  }

  lemma ShiftLaws()
    ensures Laws(Shift, Xor, 0)
  {
    ShiftAdditive();
    ShiftKernel();
    XorSelfInverse();
    XorUnit();
    XorCommutative();
    XorAssociative();
  }

  lemma UnrolledShifts(x: bv16)
    ensures Shifts(x, 8) == Shift(Shift(Shift(Shift(Shift(Shift(Shift(Shift(x))))))))
  {
    FourSteps(Shift, x, Shift(x), Shift(Shift(x)), Shift(Shift(Shift(x))), Shift(Shift(Shift(Shift(x)))));
    IterateTwice(Shift, x, 4, 4);
    var y := Shift(Shift(Shift(Shift(x))));
    FourSteps(Shift, y, Shift(y), Shift(Shift(y)), Shift(Shift(Shift(y))), Shift(Shift(Shift(Shift(y)))));
  }

  /** The CRC of the message 02 07, shift by shift. */
  lemma KnownCheck()
    ensures Crc([0x02, 0x07]) == 0x1241
  {
    var bytes: seq<Byte> := [0x02, 0x07];
    var first := bytes[..1];
    assert first[..0] == [] && first[0] == 0x02 && |first| == 1;
    assert Register(PRESET, first[..0]) == PRESET && Xor(PRESET, 0x02) == 0xFFFD;
    assert Register(PRESET, first) == Shifts(0xFFFD, 8);
    UnrolledShifts(0xFFFD);
    assert Shift(0xFFFD) == 0xDFFF && Shift(0xDFFF) == 0xCFFE && Shift(0xCFFE) == 0x67FF && Shift(0x67FF) == 0x93FE;
    assert Shift(0x93FE) == 0x49FF && Shift(0x49FF) == 0x84FE && Shift(0x84FE) == 0x427F && Shift(0x427F) == 0x813E;
    assert Register(PRESET, first) == 0x813E && Xor(0x813E, 0x07) == 0x8139;
    assert Register(PRESET, bytes) == Shifts(0x8139, 8);
    UnrolledShifts(0x8139);
    assert Shift(0x8139) == 0xE09D && Shift(0xE09D) == 0xD04F && Shift(0xD04F) == 0xC826 && Shift(0xC826) == 0x6413;
    assert Shift(0x6413) == 0x9208 && Shift(0x9208) == 0x4904 && Shift(0x4904) == 0x2482 && Shift(0x2482) == 0x1241;
  }

  /** A byte in the high half is shifted down without feedback. */
  lemma ShiftDown(b: Byte)
    ensures Shifts(Raised(b), 8) == b
  {
    UnrolledShifts(Raised(b));
  }

  lemma HighClear(x: bv16, low: Byte, high: Byte)
    requires x ^ low == Raised(high)
    ensures low == x & 0xFF && high == x >> 8
  {
  }

  lemma HighClearConverse(x: bv16, low: Byte, high: Byte)
    requires low == x & 0xFF && high == x >> 8
    ensures x ^ low == Raised(high)
  {
  }

  /** Adding the low check byte leaves the high one. */
  lemma CheckBytes(crc: bv16, low: Byte, high: Byte)
    ensures Xor(crc, low) == Raised(high) <==> low == Low(crc) && high == High(crc)
  {
    if Xor(crc, low) == Raised(high) {
      HighClear(crc, low, high);
    } else if low == Low(crc) && high == High(crc) {
      HighClearConverse(crc, low, high);
    }
  }

  lemma FrameCrc(payload: seq<Byte>, low: Byte, high: Byte)
    ensures Crc(payload + [low, high]) == 0 <==> Xor(Crc(payload), low) == Raised(high)
  {
    ShiftLaws();
    ShiftDown(high);
    LastTwoInputs(Shift, Xor, 0, 8, PRESET, payload, low, high, Raised(high));
  }

  /** A frame passes the recompute-and-compare check exactly when its whole CRC is zero. */
  lemma ValidFrameCrc(frame: seq<Byte>)
    requires |frame| >= 2
    ensures Valid(frame) <==> Crc(frame) == 0
  {
    var n := |frame|;
    var payload, low, high := frame[..n - 2], frame[n - 2], frame[n - 1];
    assert frame == payload + [low, high];
    FrameCrc(payload, low, high);
    CheckBytes(Crc(payload), low, high);
  }

  // -------------------------------------------------------------------
  //  Corruption
  // -------------------------------------------------------------------

  lemma ByteXor(a: Byte, b: Byte)
    ensures (a ^ b) & 0xFF00 == 0
  {
  }

  /** `frame` with the bits set in `errors` flipped. */
  function Corrupt(frame: seq<Byte>, errors: seq<Byte>): (r: seq<Byte>)
    requires |frame| == |errors|
    ensures |r| == |frame| && forall i | 0 <= i < |r| :: r[i] == Xor(frame[i], errors[i])
  {
    seq(|frame|, i requires 0 <= i < |frame| => ByteXor(frame[i], errors[i]); frame[i] ^ errors[i])
  }

  /** Exactly the error patterns whose own register, started at zero, stays zero go undetected. */
  lemma UndetectedExactly(frame: seq<Byte>, errors: seq<Byte>)
    requires |frame| == |errors| >= 2 && Valid(frame)
    ensures Valid(Corrupt(frame, errors)) <==> Register(0, errors) == 0
  {
    ValidFrameCrc(frame);
    ValidFrameCrc(Corrupt(frame, errors));
    ShiftLaws();
    ErrorRegister(Shift, Xor, 0, 8, PRESET, frame, errors, Corrupt(frame, errors));
  }

  function At(bytes: seq<Byte>, i: nat): Byte {
    if i < |bytes| then bytes[i] else 0
  }

  /** Some bits flipped, and all of them within 16 consecutive bits of the wire, where each byte
      goes out low bit first: from bit `bit` of byte `first` to the same bit of byte `first + 2`,
      exclusive. One corrupted byte and two adjacent corrupted bytes are bursts from bit 0. */
  ghost predicate Burst(errors: seq<Byte>, first: nat, bit: nat)
    requires bit < 8
  {
    && (exists i :: 0 <= i < |errors| && errors[i] != 0)
    && (forall i | 0 <= i < |errors| && !(first <= i <= first + 2) :: errors[i] == 0)
    && At(errors, first) & (((1 as bv16) << bit) - 1) == 0
    && At(errors, first + 2) >> bit == 0
  }

  /** A burst of up to 16 bits, anywhere in a frame of any length, is detected. */
  lemma BurstDetected(frame: seq<Byte>, errors: seq<Byte>, first: nat, bit: nat)
    requires |frame| == |errors| >= 2 && Valid(frame)
    requires bit < 8 && Burst(errors, first, bit)
    ensures !Valid(Corrupt(frame, errors))
  {
    UndetectedExactly(frame, errors);
    BurstLeavesRegister(errors, first, bit);
  }

  /** Corrupting one byte or two adjacent bytes, also across the payload and CRC border, is detected. */
  lemma AdjacentBytesDetected(frame: seq<Byte>, changed: seq<Byte>, first: nat)
    requires |frame| == |changed| >= 2 && Valid(frame) && changed != frame
    requires forall i | 0 <= i < |frame| && i != first && i != first + 1 :: changed[i] == frame[i]
    ensures !Valid(changed)
  {
    var errors := Difference(frame, changed);
    assert Corrupt(frame, errors) == changed;
    assert exists i :: 0 <= i < |errors| && errors[i] != 0;
    BurstDetected(frame, errors, first, 0);
  }

  lemma XorBack(a: Byte, b: Byte, e: bv16)
    requires e == a ^ b
    ensures a ^ e == b
  {
  }

  function Difference(frame: seq<Byte>, changed: seq<Byte>): (errors: seq<Byte>)
    requires |frame| == |changed|
    ensures |errors| == |frame|
    ensures forall i | 0 <= i < |frame| :: errors[i] == 0 <==> changed[i] == frame[i]
    ensures forall i | 0 <= i < |frame| :: Xor(frame[i], errors[i]) == changed[i]
  {
    seq(|frame|, i requires 0 <= i < |frame| => ByteDifference(frame[i], changed[i]))
  }

  function ByteDifference(a: Byte, b: Byte): (e: Byte)
    ensures e == 0 <==> b == a
    ensures Xor(a, e) == b
  {
    ByteXor(a, b);
    XorBack(a, b, a ^ b);
    a ^ b
  }

  lemma BurstWindow(padded: seq<Byte>, first: nat, bit: nat, a: Byte, b: Byte, c: Byte)
    requires bit < 8 && first + 3 <= |padded| && padded[first..first + 3] == [a, b, c]
    requires forall i | 0 <= i < |padded| && !(first <= i <= first + 2) :: padded[i] == 0
    ensures Register(0, padded) == 0 <==> Xor(Shifts(a, 8), b) == Raised(c)
  {
    assert padded == padded[..first] + [a, b, c] + padded[first + 3..];
    ShiftLaws();
    ShiftDown(c);
    Window(Shift, Xor, 0, 8, padded[..first], a, b, c, padded[first + 3..], Raised(c));
  }

  lemma PaddedRegister(bytes: seq<Byte>)
    ensures Register(0, bytes + [0, 0]) == 0 <==> Register(0, bytes) == 0
  {
    ShiftLaws();
    AbsorbAppend(Shift, Xor, 8, 0, bytes, [0, 0]);
    AbsorbZeros(Shift, Xor, 0, 8, Register(0, bytes), [0, 0]);
  }

  lemma BurstLeavesRegister(errors: seq<Byte>, first: nat, bit: nat)
    requires bit < 8 && Burst(errors, first, bit)
    ensures Register(0, errors) != 0
  {
    // Two added zeros leave room for the whole window.
    var padded: seq<Byte> := errors + [0, 0];
    PaddedRegister(errors);
    var a, b, c := At(errors, first), At(errors, first + 1), At(errors, first + 2);
    BurstWindow(padded, first, bit, a, b, c);
    if Xor(Shifts(a, 8), b) == Raised(c) {
      BurstByte(a, b, c, bit);
      assert false;
    }
  }

  /** The high half of a shifted byte is itself a multiple of the polynomial, too long for the window. */
  lemma BurstByte(a: Byte, b: Byte, c: Byte, bit: nat)
    requires bit < 8
    requires a & (((1 as bv16) << bit) - 1) == 0
    requires c >> bit == 0
    requires Xor(Shifts(a, 8), b) == Raised(c)
    ensures a == 0 && b == 0 && c == 0
  {
    UnrolledShifts(a);
    if bit == 0 {
    } else if bit == 1 {
    } else if bit == 2 {
    } else if bit == 3 {
    } else if bit == 4 {
    } else if bit == 5 {
    } else if bit == 6 {
    } else {
    }
  }

  lemma ZeroCheckBytes(crc: bv16)
    ensures crc == 0 <==> Low(crc) == 0 && High(crc) == 0
  {
  }

  /** A frame cut short by its two check bytes still passes exactly when those bytes were zero. */
  lemma TruncationDetected(frame: seq<Byte>)
    requires |frame| >= 4 && Valid(frame)
    ensures Valid(frame[..|frame| - 2]) <==> frame[|frame| - 2] == 0 && frame[|frame| - 1] == 0
  {
    var payload := frame[..|frame| - 2];
    ValidFrameCrc(payload);
    ZeroCheckBytes(Crc(payload));
  }

  // -------------------------------------------------------------------
  //  Odd numbers of bit errors
  // -------------------------------------------------------------------

  function Half(x: bv16): bv16 { x >> 1 }

  predicate LowBit(x: bv16) { x & 1 == 1 }

  /** How many bits of `bytes` are set. */
  function SetBits(bytes: seq<Byte>): nat {
    TotalOnes(Half, LowBit, bytes, 16)
  }

  predicate Odd(x: bv16) {
    Parity(Half, LowBit, x, 16)
  }

  lemma HalfAdds()
    ensures HalvesAdd(Half, Xor)
  {
    assert forall a, b {:trigger Half(Xor(a, b))} :: Half(Xor(a, b)) == Xor(Half(a), Half(b));
  }

  lemma LowAdds()
    ensures LowsAdd(LowBit, Xor)
  {
    assert forall a, b {:trigger LowBit(Xor(a, b))} :: LowBit(Xor(a, b)) == (LowBit(a) != LowBit(b));
  }

  lemma OddXor(x: bv16, y: bv16)
    ensures Odd(Xor(x, y)) == (Odd(x) != Odd(y))
  {
    HalfAdds();
    LowAdds();
    ParityAdds(Half, LowBit, Xor, x, y, 16);
  }

  predicate AtMost(x: bv16, y: bv16) { x <= y }

  /** Nothing is left of half a word after fifteen more halvings. */
  lemma HalvedAway(x: bv16)
    ensures AtMost(Iterate(Half, Half(x), 15), 0)
  {
    assert forall a, b {:trigger AtMost(Half(a), Half(b))} :: AtMost(a, b) ==> AtMost(Half(a), Half(b));
    assert AtMost(Half(x), 0x7FFF);
    IterateMonotone(Half, AtMost, Half(x), 0x7FFF, 15);
    FourSteps(Half, 0x7FFF, 0x3FFF, 0x1FFF, 0x0FFF, 0x07FF);
    FourSteps(Half, 0x07FF, 0x03FF, 0x01FF, 0x00FF, 0x007F);
    FourSteps(Half, 0x007F, 0x003F, 0x001F, 0x000F, 0x0007);
    FourSteps(Half, 0x0007, 0x0003, 0x0001, 0, 0);
    IterateTwice(Half, 0x7FFF, 4, 4);
    IterateTwice(Half, 0x7FFF, 4, 8);
    IterateTwice(Half, 0x7FFF, 3, 12);
  }

  lemma LowOfZero(x: bv16)
    requires AtMost(x, 0)
    ensures !LowBit(x)
  {
  }

  /** Shifting out the low bit takes its share of the parity along. */
  lemma OddHalf(x: bv16)
    ensures Odd(Half(x)) == (Odd(x) != LowBit(x))
  {
    HalvedAway(x);
    LowOfZero(Iterate(Half, Half(x), 15));
    ParityHalf(Half, LowBit, x, 15);
  }

  function Feedback(x: bv16): bv16 { if LowBit(x) then POLYNOMIAL else 0 }

  lemma ShiftIsHalfPlusFeedback(x: bv16)
    ensures Shift(x) == Xor(Half(x), Feedback(x))
  {
    ShiftFeedsBack(x);
  }

  lemma {:induction false} OddZero()
    ensures !Odd(0)
  {
    OddXor(0, 0);
  }

  /** The polynomial has an odd number of taps. */
  lemma {:induction false} OddPolynomial()
    ensures Odd(POLYNOMIAL)
  {
    ParityShifted(Half, LowBit, 0x5, 0xA, 0x14, 0x28, 0x50, 3);
    ParityShifted(Half, LowBit, 0x50, 0xA0, 0x140, 0x280, 0x500, 7);
    ParityShifted(Half, LowBit, 0x500, 0xA00, 0x1400, 0x2800, 0x5000, 11);
    assert !Parity(Half, LowBit, 0x5, 3);
    assert !Parity(Half, LowBit, 0x5000, 15);
  }

  lemma OddFeedback(x: bv16)
    ensures Odd(Feedback(x)) == LowBit(x)
  {
    OddZero();
    OddPolynomial();
  }

  lemma ParitySigns()
    ensures Signs(Shift, Xor, Odd)
  {
    forall a ensures Odd(Shift(a)) == Odd(a) {
      OddHalf(a);
      OddFeedback(a);
      OddXor(Half(a), Feedback(a));
      ShiftIsHalfPlusFeedback(a);
    }
    forall a, b ensures Odd(Xor(a, b)) == (Odd(a) != Odd(b)) {
      OddXor(a, b);
    }
  }

  /** Any odd number of flipped bits, anywhere in a frame of any length, is detected. */
  lemma OddErrorsDetected(frame: seq<Byte>, errors: seq<Byte>)
    requires |frame| == |errors| >= 2 && Valid(frame)
    requires SetBits(errors) % 2 == 1
    ensures !Valid(Corrupt(frame, errors))
  {
    UndetectedExactly(frame, errors);
    OddRegister(errors);
    OddZero();
  }

  lemma OddRegister(bytes: seq<Byte>)
    ensures Odd(Register(0, bytes)) <==> SetBits(bytes) % 2 == 1
  {
    ParitySigns();
    OddZero();
    AbsorbSign(Shift, Xor, Odd, 8, 0, bytes);
    SignOfParity(Half, LowBit, Odd, bytes, 16);
  }
}

/** Registers that absorb a stream of inputs by a linear step.

    A CRC register, seen without its bits: `xor` adds an input into the
    register and `step` shifts it. Everything the error detection of a CRC
    rests on follows from three laws of the two operations.
  */
module LinearRegister {

  ghost predicate StepAdditive<T(!new)>(step: T -> T, xor: (T, T) -> T) {
    forall a, b {:trigger step(xor(a, b))} :: step(xor(a, b)) == xor(step(a), step(b))
  }

  ghost predicate StepKernel<T(!new)>(step: T -> T, zero: T) {
    forall a {:trigger step(a)} :: step(a) == zero <==> a == zero
  }

  ghost predicate SelfInverse<T(!new)>(xor: (T, T) -> T, zero: T) {
    forall a, b {:trigger xor(a, b)} :: xor(a, b) == zero <==> a == b
  }

  ghost predicate Unit<T(!new)>(xor: (T, T) -> T, zero: T) {
    forall a {:trigger xor(a, zero)} {:trigger xor(zero, a)} :: xor(a, zero) == a && xor(zero, a) == a
  }

  ghost predicate Commutative<T(!new)>(xor: (T, T) -> T) {
    forall a, b {:trigger xor(a, b)} :: xor(a, b) == xor(b, a)
  }

  ghost predicate Associative<T(!new)>(xor: (T, T) -> T) {
    forall a, b, c {:trigger xor(xor(a, b), c)} :: xor(xor(a, b), c) == xor(a, xor(b, c))
  }

  ghost predicate Laws<T(!new)>(step: T -> T, xor: (T, T) -> T, zero: T) {
    && StepAdditive(step, xor)
    && StepKernel(step, zero)
    && SelfInverse(xor, zero)
    && Unit(xor, zero)
    && Commutative(xor)
    && Associative(xor)
  }

  lemma Swap<T(!new)>(xor: (T, T) -> T, a: T, b: T, c: T, d: T)
    requires Commutative(xor) && Associative(xor)
    ensures xor(xor(a, b), xor(c, d)) == xor(xor(a, c), xor(b, d))
  {
    assert xor(xor(a, b), xor(c, d)) == xor(xor(xor(a, b), c), d);
    assert xor(xor(a, b), c) == xor(a, xor(b, c)) == xor(a, xor(c, b)) == xor(xor(a, c), b);
    assert xor(xor(xor(a, c), b), d) == xor(xor(a, c), xor(b, d));
  }

  function Iterate<T>(step: T -> T, x: T, n: nat): T {
    if n == 0 then x else step(Iterate(step, x, n - 1))
  }

  /** The register after `inputs`: each one is added in and shifted by `width` steps. */
  function Absorb<T>(step: T -> T, xor: (T, T) -> T, width: nat, init: T, inputs: seq<T>): T {
    if inputs == [] then init
    else Iterate(step, xor(Absorb(step, xor, width, init, inputs[..|inputs| - 1]), inputs[|inputs| - 1]), width)
  }

  lemma {:induction false} IterateLinear<T(!new)>(step: T -> T, xor: (T, T) -> T, zero: T, x: T, y: T, n: nat)
    requires Laws(step, xor, zero)
    ensures Iterate(step, xor(x, y), n) == xor(Iterate(step, x, n), Iterate(step, y, n))
  {
    if n > 0 {
      IterateLinear(step, xor, zero, x, y, n - 1);
    }
  }

  lemma {:induction false} IterateKernel<T(!new)>(step: T -> T, xor: (T, T) -> T, zero: T, x: T, n: nat)
    requires Laws(step, xor, zero)
    ensures Iterate(step, x, n) == zero <==> x == zero
  {
    if n > 0 {
      IterateKernel(step, xor, zero, x, n - 1);
    }
  }

  lemma IterateInjective<T(!new)>(step: T -> T, xor: (T, T) -> T, zero: T, x: T, y: T, n: nat)
    requires Laws(step, xor, zero)
    ensures Iterate(step, x, n) == Iterate(step, y, n) <==> x == y
  {
    IterateLinear(step, xor, zero, x, y, n);
    IterateKernel(step, xor, zero, xor(x, y), n);
  }

  /** Adding two streams input by input adds their registers. */
  lemma {:induction false} AbsorbLinear<T(!new)>(step: T -> T, xor: (T, T) -> T, zero: T, width: nat,
                                                 x: T, y: T, a: seq<T>, b: seq<T>, sum: seq<T>)
    requires Laws(step, xor, zero)
    requires |a| == |b| == |sum| && forall i | 0 <= i < |a| :: sum[i] == xor(a[i], b[i])
    ensures Absorb(step, xor, width, xor(x, y), sum)
         == xor(Absorb(step, xor, width, x, a), Absorb(step, xor, width, y, b))
  {
    var n := |a|;
    if n > 0 {
      AbsorbLinear(step, xor, zero, width, x, y, a[..n - 1], b[..n - 1], sum[..n - 1]);
      var ra := Absorb(step, xor, width, x, a[..n - 1]);
      var rb := Absorb(step, xor, width, y, b[..n - 1]);
      Swap(xor, ra, rb, a[n - 1], b[n - 1]);
      IterateLinear(step, xor, zero, xor(ra, a[n - 1]), xor(rb, b[n - 1]), width);
    }
  }

  /** A stream that brings the register to zero keeps doing so exactly under additions `b` that,
      absorbed on their own from zero, stay at zero. */
  lemma ErrorRegister<T(!new)>(step: T -> T, xor: (T, T) -> T, zero: T, width: nat,
                               init: T, a: seq<T>, b: seq<T>, sum: seq<T>)
    requires Laws(step, xor, zero)
    requires |a| == |b| == |sum| && forall i | 0 <= i < |a| :: sum[i] == xor(a[i], b[i])
    requires Absorb(step, xor, width, init, a) == zero
    ensures Absorb(step, xor, width, init, sum) == zero <==> Absorb(step, xor, width, zero, b) == zero
  {
    AbsorbLinear(step, xor, zero, width, init, zero, a, b, sum);
    assert xor(init, zero) == init;
    assert xor(zero, Absorb(step, xor, width, zero, b)) == Absorb(step, xor, width, zero, b);
  }

  lemma {:induction false} AbsorbAppend<T>(step: T -> T, xor: (T, T) -> T, width: nat,
                                           init: T, a: seq<T>, b: seq<T>)
    ensures Absorb(step, xor, width, init, a + b)
         == Absorb(step, xor, width, Absorb(step, xor, width, init, a), b)
  {
    if b == [] {
      assert a + b == a;
    } else {
      AbsorbAppend(step, xor, width, init, a, b[..|b| - 1]);
      assert (a + b)[..|a + b| - 1] == a + b[..|b| - 1];
    }
  }

  /** Zero inputs neither raise nor clear a register. */
  lemma {:induction false} AbsorbZeros<T(!new)>(step: T -> T, xor: (T, T) -> T, zero: T, width: nat,
                                                init: T, zeros: seq<T>)
    requires Laws(step, xor, zero)
    requires forall i | 0 <= i < |zeros| :: zeros[i] == zero
    ensures Absorb(step, xor, width, init, zeros) == zero <==> init == zero
  {
    if zeros != [] {
      var before := Absorb(step, xor, width, init, zeros[..|zeros| - 1]);
      AbsorbZeros(step, xor, zero, width, init, zeros[..|zeros| - 1]);
      IterateKernel(step, xor, zero, before, width);
    }
  }

  /** The register is brought to zero by its last two inputs `a` and `b` exactly when `a` turns it
      into `before`, the register that shifts to `b`. */
  lemma LastTwoInputs<T(!new)>(step: T -> T, xor: (T, T) -> T, zero: T, width: nat,
                               init: T, inputs: seq<T>, a: T, b: T, before: T)
    requires Laws(step, xor, zero) && Iterate(step, before, width) == b
    ensures Absorb(step, xor, width, init, inputs + [a, b]) == zero
       <==> xor(Absorb(step, xor, width, init, inputs), a) == before
  {
    var all := inputs + [a, b];
    assert all[..|all| - 1] == inputs + [a];
    assert (inputs + [a])[..|inputs|] == inputs;
    var x := xor(Absorb(step, xor, width, init, inputs), a);
    IterateKernel(step, xor, zero, xor(Iterate(step, x, width), b), width);
    IterateInjective(step, xor, zero, x, before, width);
  }

  /** Three inputs among zeros leave the register at zero exactly when the first two turn it into
      `before`, the register that shifts to the third. */
  lemma Window<T(!new)>(step: T -> T, xor: (T, T) -> T, zero: T, width: nat,
                        leading: seq<T>, a: T, b: T, c: T, trailing: seq<T>, before: T)
    requires Laws(step, xor, zero) && Iterate(step, before, width) == c
    requires forall i | 0 <= i < |leading| :: leading[i] == zero
    requires forall i | 0 <= i < |trailing| :: trailing[i] == zero
    ensures Absorb(step, xor, width, zero, leading + [a, b, c] + trailing) == zero
       <==> xor(Iterate(step, a, width), b) == before
  {
    AbsorbAppend(step, xor, width, zero, leading + [a, b, c], trailing);
    AbsorbZeros(step, xor, zero, width, Absorb(step, xor, width, zero, leading + [a, b, c]), trailing);
    AbsorbAppend(step, xor, width, zero, leading, [a, b, c]);
    AbsorbZeros(step, xor, zero, width, zero, leading);
    assert [a, b, c] == [a] + [b, c];
    LastTwoInputs(step, xor, zero, width, zero, [a], b, c, before);
    assert Absorb(step, xor, width, zero, [a]) == Iterate(step, xor(zero, a), width);
  }

  /** A sign that a step keeps and that sums of inputs combine. */
  ghost predicate Signs<T(!new)>(step: T -> T, xor: (T, T) -> T, sign: T -> bool) {
    && (forall a {:trigger step(a)} :: sign(step(a)) == sign(a))
    && (forall a, b {:trigger xor(a, b)} :: sign(xor(a, b)) == (sign(a) != sign(b)))
  }

  ghost function SignOf<T>(sign: T -> bool, inputs: seq<T>): bool {
    if inputs == [] then false
    else SignOf(sign, inputs[..|inputs| - 1]) != sign(inputs[|inputs| - 1])
  }

  lemma {:induction false} IterateSign<T(!new)>(step: T -> T, xor: (T, T) -> T, sign: T -> bool, x: T, n: nat)
    requires Signs(step, xor, sign)
    ensures sign(Iterate(step, x, n)) == sign(x)
  {
    if n > 0 {
      IterateSign(step, xor, sign, x, n - 1);
    }
  }

  lemma {:induction false} AbsorbSign<T(!new)>(step: T -> T, xor: (T, T) -> T, sign: T -> bool, width: nat,
                                               init: T, inputs: seq<T>)
    requires Signs(step, xor, sign)
    ensures sign(Absorb(step, xor, width, init, inputs)) == (sign(init) != SignOf(sign, inputs))
  {
    var n := |inputs|;
    if n > 0 {
      AbsorbSign(step, xor, sign, width, init, inputs[..n - 1]);
      var before := Absorb(step, xor, width, init, inputs[..n - 1]);
      IterateSign(step, xor, sign, xor(before, inputs[n - 1]), width);
    }
  }

  // -------------------------------------------------------------------
  //  Parity of a word, read off its low bit while it is halved
  // -------------------------------------------------------------------

  predicate Parity<T>(half: T -> T, low: T -> bool, x: T, n: nat) {
    if n == 0 then false else low(x) != Parity(half, low, half(x), n - 1)
  }

  ghost predicate HalvesAdd<T(!new)>(half: T -> T, xor: (T, T) -> T) {
    forall a, b {:trigger half(xor(a, b))} :: half(xor(a, b)) == xor(half(a), half(b))
  }

  ghost predicate LowsAdd<T(!new)>(low: T -> bool, xor: (T, T) -> T) {
    forall a, b {:trigger low(xor(a, b))} :: low(xor(a, b)) == (low(a) != low(b))
  }

  lemma {:induction false} ParityAdds<T(!new)>(half: T -> T, low: T -> bool, xor: (T, T) -> T, x: T, y: T, n: nat)
    requires HalvesAdd(half, xor) && LowsAdd(low, xor)
    ensures Parity(half, low, xor(x, y), n) == (Parity(half, low, x, n) != Parity(half, low, y, n))
  {
    if n > 0 {
      ParityAdds(half, low, xor, half(x), half(y), n - 1);
    }
  }

  lemma {:induction false} ParityTop<T>(half: T -> T, low: T -> bool, x: T, n: nat)
    ensures Parity(half, low, x, n + 1) == (Parity(half, low, x, n) != low(Iterate(half, x, n)))
  {
    if n > 0 {
      ParityTop(half, low, half(x), n - 1);
      IterateFirst(half, x, n - 1);
    }
  }

  /** Halving a word of `n + 1` places takes the low bit's share of the parity away. */
  lemma ParityHalf<T>(half: T -> T, low: T -> bool, x: T, n: nat)
    requires !low(Iterate(half, half(x), n))
    ensures Parity(half, low, half(x), n + 1) == (Parity(half, low, x, n + 1) != low(x))
  {
    ParityTop(half, low, half(x), n);
  }

  /** How many of the low `n` places are set. */
  function Ones<T>(half: T -> T, low: T -> bool, x: T, n: nat): nat {
    if n == 0 then 0 else (if low(x) then 1 else 0) + Ones(half, low, half(x), n - 1)
  }

  function TotalOnes<T>(half: T -> T, low: T -> bool, words: seq<T>, n: nat): nat {
    if words == [] then 0
    else TotalOnes(half, low, words[..|words| - 1], n) + Ones(half, low, words[|words| - 1], n)
  }

  lemma {:induction false} ParityOfOnes<T>(half: T -> T, low: T -> bool, x: T, n: nat)
    ensures Parity(half, low, x, n) <==> Ones(half, low, x, n) % 2 == 1
  {
    if n > 0 {
      ParityOfOnes(half, low, half(x), n - 1);
    }
  }

  lemma {:induction false} SignOfParity<T(!new)>(half: T -> T, low: T -> bool, sign: T -> bool, words: seq<T>, n: nat)
    requires forall x {:trigger sign(x)} :: sign(x) == Parity(half, low, x, n)
    ensures SignOf(sign, words) <==> TotalOnes(half, low, words, n) % 2 == 1
  {
    if words != [] {
      SignOfParity(half, low, sign, words[..|words| - 1], n);
      ParityOfOnes(half, low, words[|words| - 1], n);
    }
  }

  lemma {:induction false} IterateMonotone<T(!new)>(step: T -> T, le: (T, T) -> bool, x: T, y: T, n: nat)
    requires forall a, b {:trigger le(step(a), step(b))} :: le(a, b) ==> le(step(a), step(b))
    requires le(x, y)
    ensures le(Iterate(step, x, n), Iterate(step, y, n))
  {
    if n > 0 {
      IterateMonotone(step, le, x, y, n - 1);
    }
  }

  lemma {:induction false} IterateFirst<T>(step: T -> T, x: T, n: nat)
    ensures Iterate(step, step(x), n) == step(Iterate(step, x, n))
  {
    if n > 0 {
      IterateFirst(step, x, n - 1);
    }
  }

  lemma FourSteps<T>(step: T -> T, x0: T, x1: T, x2: T, x3: T, x4: T)
    requires step(x0) == x1 && step(x1) == x2 && step(x2) == x3 && step(x3) == x4
    ensures Iterate(step, x0, 3) == x3 && Iterate(step, x0, 4) == x4
  {
    assert Iterate(step, x0, 1) == x1 && Iterate(step, x0, 2) == x2;
  }

  lemma ParityShifted<T>(half: T -> T, low: T -> bool, x0: T, x1: T, x2: T, x3: T, x4: T, n: nat)
    requires half(x1) == x0 && half(x2) == x1 && half(x3) == x2 && half(x4) == x3
    requires !low(x1) && !low(x2) && !low(x3) && !low(x4)
    ensures Parity(half, low, x4, n + 4) == Parity(half, low, x0, n)
  {
    assert Parity(half, low, x2, n + 2) == Parity(half, low, x0, n);
  }

  lemma {:induction false} IterateTwice<T>(step: T -> T, x: T, m: nat, n: nat)
    ensures Iterate(step, x, m + n) == Iterate(step, Iterate(step, x, n), m)
  {
    if m > 0 {
      IterateTwice(step, x, m - 1, n);
    }
  }
}

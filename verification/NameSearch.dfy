/** Searching for a free name by numbering, and why the search ends. */
module NameSearch {

  function Digit(n: nat): char
    requires n < 10
  {
    ('0' as int + n) as char
  }

  function Digits(n: nat): (s: string)
    ensures s != []
  {
    if n < 10 then [Digit(n)] else Digits(n / 10) + [Digit(n % 10)]
  }

  lemma DigitsSplit(n: nat)
    requires n >= 10
    ensures var s := Digits(n);
            |s| >= 2 && s[..|s| - 1] == Digits(n / 10) && s[|s| - 1] == Digit(n % 10)
  {
  }

  /** Different numbers are written differently. */
  lemma {:induction false} DigitsInjective(a: nat, b: nat)
    requires Digits(a) == Digits(b)
    ensures a == b
  {
    if a < 10 || b < 10 {
      if a >= 10 {
        DigitsSplit(a);
      } else if b >= 10 {
        DigitsSplit(b);
      }
    } else {
      DigitsSplit(a);
      DigitsSplit(b);
      DigitsInjective(a / 10, b / 10);
    }
  }

  /** The number a decimal string stands for. */
  function Read(s: string): int {
    if s == "" then 0 else Read(s[..|s| - 1]) * 10 + (s[|s| - 1] as int - '0' as int)
  }

  /** A number is written in decimal digits, without leading zeros. */
  lemma {:induction false} DigitsRead(n: nat)
    ensures Read(Digits(n)) == n && (forall c | c in Digits(n) :: '0' <= c <= '9') && (n > 0 ==> Digits(n)[0] != '0')
  {
    if n >= 10 {
      DigitsSplit(n);
      DigitsRead(n / 10);
    } else {
      assert Digits(n)[..0] == "";
    }
  }

  function Numbered(base: string, open: string, n: nat, close: string): string {
    base + open + Digits(n) + close
  }

  /** Numbers are written without a sign or an underscore. */
  lemma {:induction false} OnlyDigits(n: nat)
    ensures '_' !in Digits(n) && '-' !in Digits(n)
  {
    if n >= 10 {
      OnlyDigits(n / 10);
    }
  }

  lemma NumberedInjective(base: string, open: string, a: nat, b: nat, close: string)
    requires Numbered(base, open, a, close) == Numbered(base, open, b, close)
    ensures a == b
  {
    var x, y := Numbered(base, open, a, close), Numbered(base, open, b, close);
    var skip := |base + open|;
    assert x[skip..|x| - |close|] == Digits(a);
    assert y[skip..|y| - |close|] == Digits(b);
    DigitsInjective(a, b);
  }

  /** The names with numbers below `n`, all of which were taken. */
  ghost function Tried(base: string, open: string, n: nat, close: string): (names: set<string>)
    requires n >= 2
    ensures forall name | name in names :: exists k | 2 <= k < n :: name == Numbered(base, open, k, close)
  {
    if n == 2 then {} else Tried(base, open, n - 1, close) + {Numbered(base, open, n - 1, close)}
  }

  lemma {:induction false} TriedCount(base: string, open: string, n: nat, close: string)
    requires n >= 2
    ensures |Tried(base, open, n, close)| == n - 2
  {
    if n > 2 {
      TriedCount(base, open, n - 1, close);
      if Numbered(base, open, n - 1, close) in Tried(base, open, n - 1, close) {
        var k :| 2 <= k < n - 1 && Numbered(base, open, n - 1, close) == Numbered(base, open, k, close);
        NumberedInjective(base, open, n - 1, k, close);
      }
    }
  }

  lemma TriedFits(base: string, open: string, n: nat, close: string, taken: set<string>)
    requires n >= 2 && forall k | 2 <= k < n :: Numbered(base, open, k, close) in taken
    ensures n - 2 <= |taken|
  {
    TriedCount(base, open, n, close);
    SubsetSize(Tried(base, open, n, close), taken);
  }

  lemma SubsetSize<T>(a: set<T>, b: set<T>)
    requires a <= b
    ensures |a| <= |b|
  {
    if a != {} {
      var x :| x in a;
      SubsetSize(a - {x}, b - {x});
    }
  }

  /** The base name if it is free, otherwise its first free numbering, counting from 2. */
  ghost predicate FirstFree(base: string, open: string, close: string, taken: set<string>, name: string) {
    && name !in taken
    && (if base !in taken then name == base
        else exists n: nat | 2 <= n ::
               name == Numbered(base, open, n, close)
               && forall k | 2 <= k < n :: Numbered(base, open, k, close) in taken)
  }

  /** There is only one first free name. */
  lemma FirstFreeUnique(base: string, open: string, close: string, taken: set<string>, a: string, b: string)
    requires FirstFree(base, open, close, taken, a) && FirstFree(base, open, close, taken, b)
    ensures a == b
  {
    if base in taken {
      var m: nat :| 2 <= m && a == Numbered(base, open, m, close)
                    && forall k | 2 <= k < m :: Numbered(base, open, k, close) in taken;
      var n: nat :| 2 <= n && b == Numbered(base, open, n, close)
                    && forall k | 2 <= k < n :: Numbered(base, open, k, close) in taken;
      assert m == n;
    }
  }

  /** `name` is the base or a numbering of it. */
  ghost predicate Candidate(base: string, open: string, close: string, name: string) {
    name == base || exists n: nat :: name == Numbered(base, open, n, close)
  }

  /** Taken names that are no candidates make no difference. */
  lemma FirstFreeAmong(base: string, open: string, close: string, taken: set<string>, more: set<string>, name: string)
    requires FirstFree(base, open, close, taken + more, name)
    requires forall x | x in more && Candidate(base, open, close, x) :: x in taken
    ensures FirstFree(base, open, close, taken, name)
  {
    assert Candidate(base, open, close, base);
    assert forall n: nat :: Candidate(base, open, close, Numbered(base, open, n, close));
  }

  /** The search always ends: every number tried names a different taken name. */
  method Search(base: string, open: string, close: string, taken: set<string>) returns (name: string)
    ensures FirstFree(base, open, close, taken, name)
  {
    name := base;
    var number := 2;
    while name in taken
      invariant number >= 2
      invariant name == if number == 2 then base else Numbered(base, open, number - 1, close)
      invariant number > 2 ==> base in taken
      invariant forall k | 2 <= k < number - 1 :: Numbered(base, open, k, close) in taken
      decreases |taken| + 2 - number
    {
      TriedFits(base, open, number, close, taken);
      name := Numbered(base, open, number, close);
      number := number + 1;
    }
  }
}

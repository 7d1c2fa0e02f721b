/** The sieve that sizes the hash table of a skeleton: get_prime_number in
    idl/codegen-c++-skel.cc, with the arithmetic of the 32-bit CORBA::ULong. */
module Sieve {
  import opened Primes
  import opened Bertrand
  import opened LastMultiples

  function Ulong(x: nat): nat { x % 0x1_0000_0000 }

  /** n | 1 */
  function OddFrom(n: nat): nat { if n % 2 == 0 then n + 1 else n }

  ghost predicate SmallestPrimeFrom(p: nat, n: nat)
  {
    Prime(p) && n <= p && forall q :: n <= q < p ==> !Prime(q)
  }

  /** Entry k stands for the odd number 2k + 1. */
  ghost predicate Marks(c: seq<bool>, N: nat, i: int)
  {
    forall k :: 0 <= k < |c| ==> (c[k] <==> 2 * k + 1 <= N && HasDivisorBelow(2 * k + 1, i))
  }

  /** The marks while the odd multiples of i below j have been added. */
  ghost predicate MarksTo(c: seq<bool>, N: nat, i: int, j: int)
  {
    forall k :: 0 <= k < |c| ==>
      (c[k] <==> 2 * k + 1 <= N && (HasDivisorBelow(2 * k + 1, i) || (i < 2 * k + 1 < j && Divides(i, 2 * k + 1))))
  }

  /** Odd multiples of an odd number are 2i apart. */
  lemma OddMultiples(i: int, j: int, x: int)
    requires i >= 3 && i % 2 == 1 && j % 2 == 1 && x % 2 == 1 && j <= x < j + 2 * i
    requires Divides(i, j) && Divides(i, x)
    ensures x == j
  {
    DividesSum(i, x, j);
    var k :| Times(i, k) == x - j;
    assert Times(i, 1) == i;
    if k <= 0 { TimesSign(i, k); } else { TimesGrows(i, k); }
  }

  lemma Self(i: int)
    ensures Divides(i, i) && Divides(i, 3 * i)
  {
    assert Times(i, 1) == i && Times(i, 3) == 3 * i;
  }

  lemma FirstMarks(c: seq<bool>, N: nat, i: int)
    requires Marks(c, N, i) && i >= 3 && i % 2 == 1
    ensures MarksTo(c, N, i, 3 * i)
  {
    forall k | 0 <= k < |c| && i < 2 * k + 1 < 3 * i ensures !Divides(i, 2 * k + 1) {
      Self(i);
      if Divides(i, 2 * k + 1) { OddMultiples(i, i, 2 * k + 1); }
    }
  }

  lemma NextMultiple(i: int, j: int, x: int)
    requires i >= 3 && i % 2 == 1 && j % 2 == 1 && x % 2 == 1 && i < j && Divides(i, j)
    ensures (i < x < j + 2 * i && Divides(i, x)) <==> (i < x < j && Divides(i, x)) || x == j
  {
    if j <= x < j + 2 * i && Divides(i, x) { OddMultiples(i, j, x); }
  }

  lemma NextMarks(c: seq<bool>, N: nat, i: int, j: nat)
    requires MarksTo(c, N, i, j) && i >= 3 && i % 2 == 1 && j % 2 == 1 && i < j <= N && j / 2 < |c| && Divides(i, j)
    ensures MarksTo(c[j / 2 := true], N, i, j + 2 * i) && Divides(i, j + 2 * i)
  {
    assert Times(i, 2) == 2 * i;
    DividesSum(i, j, 2 * i);
    hide HasDivisorBelow, Divides;
    forall k | 0 <= k < |c|
      ensures (i < 2 * k + 1 < j + 2 * i && Divides(i, 2 * k + 1)) <==>
          (i < 2 * k + 1 < j && Divides(i, 2 * k + 1)) || k == j / 2
    {
      NextMultiple(i, j, 2 * k + 1);
    }
  }

  lemma NextDivisor(x: int, i: int)
    requires i >= 3 && i % 2 == 1
    ensures HasDivisorBelow(x, i + 2) <==> HasDivisorBelow(x, i) || (i < x && Divides(i, x))
  {
    hide Divides;
    if HasDivisorBelow(x, i + 2) {
      var d :| 3 <= d < i + 2 && d < x && d % 2 == 1 && Divides(d, x);
      assert d == i || d < i;
    }
  }

  lemma LastMarks(c: seq<bool>, N: nat, i: int, j: int)
    requires MarksTo(c, N, i, j) && i >= 3 && i % 2 == 1 && j > N
    ensures Marks(c, N, i + 2)
  {
    hide HasDivisorBelow, Divides;
    forall k | 0 <= k < |c|
      ensures HasDivisorBelow(2 * k + 1, i + 2) <==>
          HasDivisorBelow(2 * k + 1, i) || (i < 2 * k + 1 && Divides(i, 2 * k + 1))
    {
      NextDivisor(2 * k + 1, i);
    }
  }

  /** A marked number adds no marks. */
  lemma SkipMarked(c: seq<bool>, N: nat, i: int)
    requires Marks(c, N, i) && i >= 3 && i % 2 == 1 && HasDivisorBelow(i, i)
    ensures Marks(c, N, i + 2)
  {
    forall k | 0 <= k < |c| && HasDivisorBelow(2 * k + 1, i + 2) ensures HasDivisorBelow(2 * k + 1, i) {
      var x := 2 * k + 1;
      var d :| 3 <= d < i + 2 && d < x && d % 2 == 1 && Divides(d, x);
      if d == i {
        var e :| 3 <= e < i && e < i && e % 2 == 1 && Divides(e, i);
        DividesTransitive(e, i, x);
      }
    }
  }

  /** Once i * i exceeds N the marks are exactly the odd composite numbers. */
  lemma MarkedIsComposite(x: nat, N: nat, i: nat)
    requires 3 <= x <= N < Times(i, i) && x % 2 == 1
    ensures HasDivisorBelow(x, i) <==> !Prime(x)
  {
    if !Prime(x) {
      var d :| 2 <= d < x && Divides(d, x);
      var e :| Times(d, e) == x;
      if e <= 0 { TimesSign(d, e); }
      OddFactors(d, e, x);
      DividesTimes(e, d);
      TimesGrows(e, d);
      assert Times(e, d) == Times(d, e);
      if i <= d && i <= e { TimesMonotone(i, d, i, e); }
    }
  }

  lemma EvenIsNotPrime(x: nat)
    requires x > 2 && x % 2 == 0
    ensures !Prime(x)
  {
    assert Times(2, x / 2) == x && Divides(2, x);
  }

  /** The result when 2 * n wraps: 2147483649 is three times 715827883. */
  lemma WrapsToComposite()
    ensures !Prime(OddFrom(0x8000_0000))
  {
    assert Times(3, 715827883) == OddFrom(0x8000_0000) && Divides(3, OddFrom(0x8000_0000));
  }

  // ---------------------------------------------------------------------------------------
  // Steps beyond 2^32

  /** Marking the odd multiples of i up to N, no step j + 2 * i wraps. */
  ghost predicate StepsInRange(N: nat, i: nat)
  {
    forall j :: i < j <= N && j % 2 == 1 && Divides(i, j) ==> j + 2 * i < 0x1_0000_0000
  }

  /** The outer loop is run for i: no smaller prime has ended it. */
  ghost predicate Reaches(N: nat, i: nat)
  {
    Prime(i) && i >= 3 && forall q :: 3 <= q <= i && Prime(q) ==> Ulong(q * q) <= N
  }

  lemma LastIsBehind(N: nat, i: nat)
    requires N < FIRST_TO_WRAP && i >= 3 && i % 2 == 1 && HasLast(i)
    ensures StepsInRange(N, i)
  {
    var k :| k % 2 == 1 && FIRST_TO_WRAP <= Times(i, k) < 0x1_0000_0000;
    OddTimes(i, k);
    forall j | i < j <= N && j % 2 == 1 && Divides(i, j) ensures j + 2 * i < 0x1_0000_0000 {
      if Times(i, k) < j + 2 * i { OddMultiples(i, j, Times(i, k)); }
    }
  }

  lemma OddTimes(i: int, k: int)
    requires i % 2 == 1 && k % 2 == 1
    ensures Times(i, k) % 2 == 1 && Divides(i, Times(i, k))
  {
    assert Times(i, k) == 2 * ((i / 2) * k + k / 2) + 1 by {
      assert i == 2 * (i / 2) + 1 && k == 2 * (k / 2) + 1;
    }
  }

  /** Up to the prime 92681, an odd number without an odd divisor stays in range. */
  lemma UnmarkedStaysInRange(N: nat, i: nat)
    requires N < FIRST_TO_WRAP && 3 <= i <= 92681 && i % 2 == 1 && !HasDivisorBelow(i, i)
    ensures StepsInRange(N, i)
  {
    if i >= 91257 {
      LastOrFactor(i);
      LastIsBehind(N, i);
    }
  }

  lemma PrimeIsUnmarked(i: nat)
    requires Prime(i) && i >= 3
    ensures i % 2 == 1 && !HasDivisorBelow(i, i)
  {
    if i % 2 == 0 { EvenIsNotPrime(i); }
  }

  lemma SquareBelow(q: nat)
    requires 3 <= q < 92681 && q != 65535 && q % 2 == 1
    ensures Ulong(q * q) < FIRST_TO_WRAP
  {
    if q < 65535 {
      TimesMonotone(q, 65533, q, 65533);
    } else {
      TimesMonotone(65537, q, 65537, q);
      TimesMonotone(q, 92679, q, 92679);
    }
    assert Times(q, q) == q * q;
  }

  /** From here on, 4294784785 is marked as a multiple of 91583 and marking goes on with 655. */
  lemma MarkingWraps(N: nat)
    requires FIRST_TO_WRAP <= N < 0x1_0000_0000
    ensures Reaches(N, 91583) && Divides(91583, FIRST_TO_WRAP) && FIRST_TO_WRAP % 2 == 1
    ensures Ulong(FIRST_TO_WRAP + 2 * 91583) == 655 && !Divides(91583, 655)
  {
    assert Times(91583, 46895) == FIRST_TO_WRAP;
    if Divides(91583, 655) { DivisorIsSmall(91583, 655); }
    Prime91583();
    forall q | 3 <= q <= 91583 && Prime(q) ensures Ulong(q * q) <= N {
      PrimeIsUnmarked(q);
      assert Times(3, 21845) == 65535 && Divides(3, 65535);
      SquareBelow(q);
    }
  }

  /** The marking stays below 2^32 exactly up to here. */
  lemma MarkingInRangeIff(N: nat)
    requires N < 0x1_0000_0000
    ensures N < FIRST_TO_WRAP <==> forall i :: Reaches(N, i) ==> StepsInRange(N, i)
  {
    if N < FIRST_TO_WRAP {
      forall i | Reaches(N, i) ensures StepsInRange(N, i) {
        PrimeIsUnmarked(i);
        Prime92681();
        UnmarkedStaysInRange(N, i);
      }
    } else {
      MarkingWraps(N);
    }
  }

  lemma Twice(n: nat)
    requires n < 0x1_0000_0000
    ensures Ulong(2 * n) % 2 == 0
    ensures Ulong(2 * n) == if n < 0x8000_0000 then 2 * n else 2 * n - 0x1_0000_0000
  {
  }

  /** The square of an odd number leaves 1 on division by 8, and 2^32 is a multiple of 8. */
  lemma EighthOfSquare(t: nat)
    ensures Ulong(8 * t + 1) <= 0xFFFF_FFF9
  {
  }

  /** For the last three numbers whose double is in range, the condition i * i <= 2 * n of the outer
      loop holds for every odd i: the loop has no exit. */
  lemma OuterLoopHasNoExit(n: nat, i: nat)
    requires 2147483645 <= n < 0x8000_0000 && i % 2 == 1
    ensures Ulong(i * i) <= Ulong(2 * n)
  {
    var a := i / 2;
    var t := Triangle(a);
    assert i == 2 * a + 1;
    OddSquare(a, t);
    EighthOfSquare(t);
    Twice(n);
  }

  /** A product of neighbours is even. */
  lemma Triangle(a: nat) returns (t: nat)
    ensures a * a + a == 2 * t
  {
    if a == 0 {
      t := 0;
    } else {
      t := Triangle(a - 1);
      assert a * a + a == (a - 1) * (a - 1) + (a - 1) + 2 * a;
      t := t + a;
    }
  }

  lemma OddSquare(a: nat, t: nat)
    requires a * a + a == 2 * t
    ensures (2 * a + 1) * (2 * a + 1) == 8 * t + 1
  {
  }

  lemma InRange(x: nat)
    requires x < 0x1_0000_0000
    ensures Ulong(x) == x
  {
  }

  lemma NextInRange(N: nat, i: nat, j: nat)
    requires StepsInRange(N, i) && i < j <= N && j % 2 == 1 && Divides(i, j)
    ensures Ulong(j + 2 * i) == j + 2 * i
  {
    hide Divides;
  }

  /** Mark the odd multiples of i. */
  method MarkMultiples(c: array<bool>, N: nat, i: nat)
    requires Marks(c[..], N, i) && 3 <= i && i % 2 == 1 && N % 2 == 0 && N / 2 < c.Length
    requires 3 * i < 0x1_0000_0000 && StepsInRange(N, i)
    modifies c
    ensures Marks(c[..], N, i + 2)
  {
    hide *;
    FirstMarks(c[..], N, i);
    Self(i);
    InRange(3 * i);
    var j := Ulong(3 * i);
    while j <= N
      invariant i < j <= N + 3 * i && j % 2 == 1 && Divides(i, j)
      invariant MarksTo(c[..], N, i, j)
      decreases N + 3 * i - j
    {
      NextMarks(c[..], N, i, j);
      NextInRange(N, i, j);
      ghost var was := c[..];
      c[j / 2] := true;
      assert c[..] == was[j / 2 := true];
      j := Ulong(j + 2 * i);
    }
    LastMarks(c[..], N, i, j);
  }

  lemma MarkedIsNotPrime(c: seq<bool>, N: nat, i: nat)
    requires Marks(c, N, i) && 3 <= i && i % 2 == 1 && i / 2 < |c| && c[i / 2] && N % 2 == 0
    ensures !Prime(i) && i + 2 <= N + 1 && Marks(c, N, i + 2)
  {
    assert 2 * (i / 2) + 1 == i && HasDivisorBelow(i, i);
    SkipMarked(c, N, i);
  }

  /** The next number without a mark, which is no later than the next prime. */
  method NextUnmarked(c: array<bool>, N: nat, i0: nat) returns (i: nat)
    requires Marks(c[..], N, i0) && 3 <= i0 <= N + 1 && i0 % 2 == 1 && N % 2 == 0 && N / 2 < c.Length && N < 0xFFFF_FFFF
    ensures Marks(c[..], N, i) && i0 <= i <= N + 1 && i % 2 == 1 && (i <= N ==> !HasDivisorBelow(i, i))
    ensures forall q :: i0 <= q && q % 2 == 1 && Prime(q) ==> i <= q
  {
    hide Ulong, Marks, Prime;
    i := i0;
    while c[i / 2]
      invariant i0 <= i <= N + 1 && i % 2 == 1 && Marks(c[..], N, i)
      invariant forall q :: i0 <= q && q % 2 == 1 && Prime(q) ==> i <= q
      decreases N + 1 - i
    {
      MarkedIsNotPrime(c[..], N, i);
      InRange(i + 2);
      i := Ulong(i + 2);
    }
    NotMarked(c[..], N, i);
  }

  lemma NotMarked(c: seq<bool>, N: nat, i: nat)
    requires Marks(c, N, i) && 3 <= i && i % 2 == 1 && i / 2 < |c| && !c[i / 2]
    ensures i <= N ==> !HasDivisorBelow(i, i)
  {
    assert 2 * (i / 2) + 1 == i;
  }

  /** A prime with which the outer loop ends at the latest. */
  function LastPrime(N: nat): (p: nat)
    ensures p % 2 == 1
  {
    if N < 65521 * 65521 then 65521 else 92681
  }

  /** The square of an odd number up to the last prime may wrap, but that of the last prime still
      exceeds N. */
  lemma OuterLoop(N: nat, m: nat)
    requires N < FIRST_TO_WRAP && 3 <= m <= LastPrime(N) && m <= N + 3
    ensures Prime(LastPrime(N)) && Ulong(m * m) <= Times(m, m)
    ensures Ulong(m * m) <= N ==> m < LastPrime(N) && m + 2 <= N + 1
  {
    Prime65521();
    Prime92681();
    assert Times(m, m) == m * m;
    if N < 65521 * 65521 {
      TimesMonotone(m, 65521, m, 65521);
      TimesMonotone(3, m, m, m);
    }
  }

  lemma NothingMarked(c: seq<bool>, N: nat)
    requires forall k :: 0 <= k < |c| ==> !c[k]
    ensures Marks(c, N, 3) && !HasDivisorBelow(3, 3)
  {
  }

  method MarkComposites(c: array<bool>, N: nat) returns (ghost i: nat)
    requires forall k :: 0 <= k < c.Length ==> !c[k]
    requires N < FIRST_TO_WRAP && N % 2 == 0 && N / 2 < c.Length
    modifies c
    ensures Marks(c[..], N, i) && N < Times(i, i)
  {
    hide Ulong, Marks, Times, Prime, LastPrime;
    var m := 3;
    NothingMarked(c[..], N);
    LastIsLarge(N);
    OuterLoop(N, m);
    while Ulong(m * m) <= N
      invariant 3 <= m <= LastPrime(N) && m <= N + 3 && m % 2 == 1 && Marks(c[..], N, m)
      invariant m <= N ==> !HasDivisorBelow(m, m)
      decreases LastPrime(N) - m
    {
      OuterLoop(N, m);
      InRange(m + 2);
      UnmarkedStaysInRange(N, m);
      MarkMultiples(c, N, m);
      m := NextUnmarked(c, N, Ulong(m + 2));
    }
    OuterLoop(N, m);
    i := m;
  }

  lemma LastIsLarge(N: nat)
    ensures 3 <= LastPrime(N) <= 92681
  {
  }

  /** No prime from n up to, and without, p. */
  ghost predicate NoneBefore(n: nat, p: nat)
  {
    forall q :: n <= q < p ==> !Prime(q)
  }

  lemma MarkedIsSkipped(c: seq<bool>, N: nat, i: nat, n: nat, p: nat)
    requires Marks(c, N, i) && N < Times(i, i) && p >= 3 && p % 2 == 1 && p / 2 < |c| && c[p / 2] && NoneBefore(n, p)
    ensures p <= N && NoneBefore(n, p + 2)
  {
    hide HasDivisorBelow, Times, Prime;
    assert 2 * (p / 2) + 1 == p;
    MarkedIsComposite(p, N, i);
    EvenIsNotPrime(p + 1);
  }

  lemma UnmarkedIsPrime(c: seq<bool>, N: nat, i: nat, n: nat, p: nat)
    requires Marks(c, N, i) && N < Times(i, i) && p >= 3 && p % 2 == 1 && p / 2 < |c| && !c[p / 2] && NoneBefore(n, p)
    requires N == 2 * n && 4 <= n <= p && n < 0x8000_0000
    ensures SmallestPrimeFrom(p, n)
  {
    assert 2 * (p / 2) + 1 == p;
    var q := PrimeBetween(n);
    MarkedIsComposite(p, N, i);
  }

  lemma UpToThree(n: nat)
    requires 2 <= n <= 3
    ensures SmallestPrimeFrom(n, n)
  {
    if n == 3 {
      NotMultiple(2, 1, 1, 3);
    }
  }

  lemma OddFromOn(n: nat)
    requires n >= 4
    ensures n <= OddFrom(n) && OddFrom(n) % 2 == 1 && OddFrom(n) / 2 <= n && NoneBefore(n, OddFrom(n))
  {
    if n % 2 == 0 { EvenIsNotPrime(n); }
  }

  /** Search the marks from n | 1 on. */
  method FirstUnmarked(c: array<bool>, N: nat, n: nat, ghost i: nat) returns (p: nat)
    requires 4 <= n < 0xFFFF_FFFF && c.Length == n + 1 && Marks(c[..], N, i) && N < Times(i, i)
    requires N == if n < 0x8000_0000 then 2 * n else 2 * n - 0x1_0000_0000
    ensures if n < 0x8000_0000 then SmallestPrimeFrom(p, n) else p == OddFrom(n)
  {
    hide Ulong, Marks, SmallestPrimeFrom, Times, NoneBefore, OddFrom;
    OddFromOn(n);
    p := OddFrom(n);
    while c[p / 2]
      invariant n <= p && p % 2 == 1 && p / 2 <= n
      invariant NoneBefore(n, p) && (n >= 0x8000_0000 ==> p == OddFrom(n))
      decreases 2 * n + 1 - p
    {
      MarkedIsSkipped(c[..], N, i, n, p);
      InRange(p + 2);
      p := Ulong(p + 2);
    }
    if n < 0x8000_0000 { UnmarkedIsPrime(c[..], N, i, n, p); }
  }

  /** The smallest prime from n on, as long as neither twice n nor a step of the marking wraps. When
      twice n wraps the result is n | 1, prime or not. */
  method GetPrimeNumber(n: nat) returns (p: nat)
    requires n < 0x1_0000_0000 && Ulong(2 * n) < FIRST_TO_WRAP
    ensures n < 2 ==> p == n
    ensures 2 <= n < 0x8000_0000 ==> SmallestPrimeFrom(p, n)
    ensures n >= 0x8000_0000 ==> p == OddFrom(n)
  {
    if n <= 3 {
      if n >= 2 { UpToThree(n); }
      return n;
    }
    var c := new bool[n + 1](_ => false);
    Twice(n);
    hide Ulong, Marks, Times;
    var N := Ulong(2 * n);
    ghost var i := MarkComposites(c, N);
    p := FirstUnmarked(c, N, n, i);
  }
}

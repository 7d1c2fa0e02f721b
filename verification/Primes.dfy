/** The primes between n and 2n that the sieve of idl/codegen-c++-skel.cc relies on, for every n
    in the range of CORBA::ULong.

    Large primes are recognised by Proth's criterion: if b squared m - 1 times is -1 modulo N, the
    powers of b take 2^m values modulo every divisor of N other than 1, so that these are at least
    2^m. */
module Primes {

  function Times(a: int, b: int): int { a * b }

  ghost predicate Divides(d: int, n: int)
  {
    exists k: int :: Times(d, k) == n
  }

  ghost predicate Prime(p: int)
  {
    p >= 2 && forall d :: 2 <= d < p ==> !Divides(d, p)
  }

  // ---------------------------------------------------------------------------------------
  // Divisibility

  /** x has an odd divisor between 3 and i, other than itself. */
  ghost predicate HasDivisorBelow(x: int, i: int)
  {
    exists d :: 3 <= d < i && d < x && d % 2 == 1 && Divides(d, x)
  }

  lemma DividesTimes(d: int, k: int)
    ensures Divides(d, Times(d, k)) && Divides(d, Times(k, d))
  {
    assert Times(d, k) == Times(k, d);
  }

  lemma DividesSum(d: int, x: int, y: int)
    requires Divides(d, x) && Divides(d, y)
    ensures Divides(d, x + y) && Divides(d, x - y)
  {
    var j, k :| Times(d, j) == x && Times(d, k) == y;
    assert Times(d, j + k) == x + y && Times(d, j - k) == x - y;
  }

  lemma DividesProduct(d: int, x: int, y: int)
    requires Divides(d, x)
    ensures Divides(d, Times(x, y))
  {
    var k :| Times(d, k) == x;
    assert Times(d, Times(k, y)) == Times(x, y);
  }

  lemma DividesTransitive(c: int, d: int, n: int)
    requires Divides(c, d) && Divides(d, n)
    ensures Divides(c, n)
  {
    var k :| Times(d, k) == n;
    DividesProduct(c, d, k);
  }

  lemma DivisorIsSmall(d: int, n: int)
    requires Divides(d, n) && n > 0 && d > 0
    ensures d <= n
  {
    var k :| Times(d, k) == n;
    if k <= 0 { TimesSign(d, k); } else { TimesGrows(d, k); }
  }

  lemma TimesSign(d: int, k: int)
    requires d > 0 && k <= 0
    ensures Times(d, k) <= 0
  {
  }

  lemma TimesGrows(d: int, k: int)
    requires d > 0 && k >= 1
    ensures Times(d, k) >= d && (k >= 2 ==> Times(d, k) >= 2 * d)
  {
  }

  // ---------------------------------------------------------------------------------------
  // Congruence

  ghost predicate Cong(x: int, y: int, q: int) { Divides(q, x - y) }

  lemma CongSymmetric(x: int, y: int, q: int)
    requires Cong(x, y, q)
    ensures Cong(y, x, q)
  {
    DividesTimes(q, 0);
    DividesSum(q, 0, x - y);
  }

  lemma CongRefl(x: int, q: int)
    ensures Cong(x, x, q)
  {
    DividesTimes(q, 0);
  }

  lemma CongTransitive(x: int, y: int, z: int, q: int)
    requires Cong(x, y, q) && Cong(y, z, q)
    ensures Cong(x, z, q)
  {
    DividesSum(q, x - y, y - z);
  }

  lemma CongTimes(x: int, y: int, u: int, v: int, q: int)
    requires Cong(x, y, q) && Cong(u, v, q)
    ensures Cong(Times(x, u), Times(y, v), q)
  {
    DividesProduct(q, x - y, u);
    DividesProduct(q, u - v, y);
    DividesSum(q, Times(x - y, u), Times(u - v, y));
    assert Times(x, u) - Times(y, v) == Times(x - y, u) + Times(u - v, y);
  }

  lemma CongRemainder(x: int, q: int)
    requires q > 0
    ensures Cong(x, x % q, q)
  {
    assert Times(q, x / q) == x - x % q;
  }

  // ---------------------------------------------------------------------------------------
  // Powers

  function Pow(b: int, e: nat): int { if e == 0 then 1 else Times(b, Pow(b, e - 1)) }

  /** b squared s times. */
  function Square(b: int, s: nat): int
    decreases s
  {
    if s == 0 then b else Times(Square(b, s - 1), Square(b, s - 1))
  }

  function TwoToThe(s: nat): nat { if s == 0 then 1 else 2 * TwoToThe(s - 1) }

  lemma TimesAssociative(a: int, b: int, c: int)
    ensures Times(a, Times(b, c)) == Times(Times(a, b), c)
  {
  }

  lemma TimesMiddle(a: int, b: int)
    ensures Times(Times(a, b), Times(a, b)) == Times(Times(a, a), Times(b, b))
  {
    TimesAssociative(Times(a, b), a, b);
    TimesAssociative(Times(a, a), b, b);
    assert Times(Times(a, b), a) == Times(Times(a, a), b);
  }

  lemma {:induction false} PowSum(b: int, i: nat, j: nat)
    ensures Pow(b, i + j) == Times(Pow(b, i), Pow(b, j))
    decreases i
  {
    if i > 0 {
      PowSum(b, i - 1, j);
      TimesAssociative(b, Pow(b, i - 1), Pow(b, j));
    }
  }

  lemma {:induction false} PowSquare(b: int, e: nat)
    ensures Pow(Times(b, b), e) == Times(Pow(b, e), Pow(b, e)) == Pow(b, 2 * e)
  {
    PowSum(b, e, e);
    if e > 0 {
      PowSquare(b, e - 1);
      TimesMiddle(b, Pow(b, e - 1));
    }
  }

  lemma {:induction false} SquareOfPow(c: int, t: nat, s: nat)
    ensures Square(Pow(c, t), s) == Pow(Square(c, s), t)
    decreases s
  {
    if s > 0 {
      SquareOfPow(c, t, s - 1);
      PowSquare(Square(c, s - 1), t);
    }
  }

  lemma {:induction false} SquareInside(c: int, s: nat)
    ensures Square(Times(c, c), s) == Square(c, s + 1)
    decreases s
  {
    if s > 0 { SquareInside(c, s - 1); }
  }

  lemma {:induction false} SquareIsPow(c: int, s: nat)
    ensures Square(c, s) == Pow(c, TwoToThe(s))
    decreases s
  {
    if s == 0 {
      assert Pow(c, 1) == Times(c, Pow(c, 0));
    } else {
      SquareIsPow(c, s - 1);
      PowSum(c, TwoToThe(s - 1), TwoToThe(s - 1));
    }
  }

  lemma {:induction false} CongPow(x: int, y: int, t: nat, q: int)
    requires Cong(x, y, q)
    ensures Cong(Pow(x, t), Pow(y, t), q)
  {
    if t == 0 { CongRefl(1, q); } else {
      CongPow(x, y, t - 1, q);
      CongTimes(x, y, Pow(x, t - 1), Pow(y, t - 1), q);
    }
  }

  lemma {:induction false} CongSquare(x: int, y: int, s: nat, q: int)
    requires Cong(x, y, q)
    ensures Cong(Square(x, s), Square(y, s), q)
    decreases s
  {
    if s > 0 {
      CongSquare(x, y, s - 1, q);
      CongTimes(Square(x, s - 1), Square(y, s - 1), Square(x, s - 1), Square(y, s - 1), q);
    }
  }

  lemma {:induction false} PowOfMinusOne(t: nat)
    ensures Pow(-1, t) == if t % 2 == 0 then 1 else -1
  {
    if t > 0 { PowOfMinusOne(t - 1); }
  }

  lemma {:induction false} SquareOfOne(s: nat)
    ensures Square(1, s) == 1
  {
    if s > 0 { SquareOfOne(s - 1); }
  }

  // ---------------------------------------------------------------------------------------
  // Proth's criterion

  /** c has order 2^s: no smaller power of it is 1. */
  lemma {:induction false} NoSmallerPowerIsOne(c: int, s: nat, t: nat, q: int)
    requires s >= 1 && 0 < t < TwoToThe(s) && q >= 3 && Cong(Square(c, s - 1), -1, q)
    ensures !Cong(Pow(c, t), 1, q)
    decreases s
  {
    if t % 2 == 0 {
      assert s >= 2;
      var u := t / 2;
      SquareInside(c, s - 2);
      PowSquare(c, u);
      NoSmallerPowerIsOne(Times(c, c), s - 1, u, q);
    } else if Cong(Pow(c, t), 1, q) {
      CongSquare(Pow(c, t), 1, s - 1, q);
      SquareOfOne(s - 1);
      SquareOfPow(c, t, s - 1);
      CongPow(Square(c, s - 1), -1, t, q);
      PowOfMinusOne(t);
      CongSymmetric(Pow(Square(c, s - 1), t), 1, q);
      CongTransitive(1, Pow(Square(c, s - 1), t), -1, q);
      DivisorIsSmall(q, 2);
    }
  }

  lemma PowersDiffer(c: int, s: nat, i: nat, j: nat, q: int)
    requires s >= 1 && i < j < TwoToThe(s) && q >= 3 && Cong(Square(c, s - 1), -1, q)
    ensures !Cong(Pow(c, i), Pow(c, j), q)
  {
    if Cong(Pow(c, i), Pow(c, j), q) {
      FullTurn(c, s, q);
      PowerOfDifference(c, TwoToThe(s), i, j, q);
      NoSmallerPowerIsOne(c, s, j - i, q);
    }
  }

  lemma PowerOfDifference(c: int, n: nat, i: nat, j: nat, q: int)
    requires i < j < n && Cong(Pow(c, n), 1, q) && Cong(Pow(c, i), Pow(c, j), q)
    ensures Cong(Pow(c, j - i), 1, q)
  {
    var t := j - i;
    PowSum(c, n - i, i);
    PowSum(c, n - i, j);
    PowSum(c, n, t);
    OneTimes(Pow(c, t));
    hide Pow, Times, Cong;
    var a, b, d := Pow(c, n), Pow(c, n + t), Pow(c, t);
    CongRefl(Pow(c, n - i), q);
    CongTimes(Pow(c, n - i), Pow(c, n - i), Pow(c, i), Pow(c, j), q);
    assert Cong(a, b, q);
    CongRefl(d, q);
    CongTimes(a, 1, d, d, q);
    assert Cong(b, d, q);
    CongTransitive(a, b, d, q);
    CongSymmetric(a, d, q);
    CongTransitive(d, a, 1, q);
  }

  lemma OneTimes(x: int)
    ensures Times(1, x) == x
  {
  }

  lemma FullTurn(c: int, s: nat, q: int)
    requires s >= 1 && Cong(Square(c, s - 1), -1, q)
    ensures Cong(Pow(c, TwoToThe(s)), 1, q)
  {
    SquareIsPow(c, s);
    CongTimes(Square(c, s - 1), -1, Square(c, s - 1), -1, q);
  }

  /** n different numbers below q. */
  lemma {:induction false} Pigeonhole(f: seq<int>, q: nat)
    requires forall i :: 0 <= i < |f| ==> 0 <= f[i] < q
    requires forall i, j :: 0 <= i < j < |f| ==> f[i] != f[j]
    ensures |f| <= q
    decreases q
  {
    assert f != [] ==> 0 <= f[0] < q;
    if q > 0 {
      if k :| 0 <= k < |f| && f[k] == q - 1 {
        var g := f[..k] + f[k + 1..];
        forall i | 0 <= i < |g| ensures 0 <= g[i] < q - 1 {
          assert g[i] == f[if i < k then i else i + 1];
        }
        Pigeonhole(g, q - 1);
      } else {
        Pigeonhole(f, q - 1);
      }
    }
  }

  lemma DivisorsAreLarge(c: int, m: nat, q: int)
    requires m >= 1 && q >= 3 && Cong(Square(c, m - 1), -1, q)
    ensures q >= TwoToThe(m)
  {
    var f := seq(TwoToThe(m), i requires 0 <= i => Pow(c, i) % q);
    forall i, j | 0 <= i < j < |f| ensures f[i] != f[j] {
      PowersDiffer(c, m, i, j, q);
      if f[i] == f[j] {
        CongRemainder(Pow(c, i), q);
        CongRemainder(Pow(c, j), q);
        CongSymmetric(Pow(c, j), Pow(c, j) % q, q);
        CongTransitive(Pow(c, i), f[i], Pow(c, j), q);
      }
    }
    Pigeonhole(f, q);
  }

  /** x squared k times is -1 modulo N. */
  ghost predicate MeetsMinusOne(N: nat, x: int, k: nat)
  {
    Cong(Square(x, k), -1, N)
  }

  lemma Start(N: nat)
    ensures MeetsMinusOne(N, N - 1, 0)
  {
    DividesTimes(N, 1);
  }

  /** One squaring, with the multiple of N that is taken off. */
  lemma Next(N: nat, x: int, c: int, k: nat)
    requires MeetsMinusOne(N, x * x - c * N, k)
    ensures MeetsMinusOne(N, x, k + 1)
  {
    var y := x * x - c * N;
    DividesTimes(N, c);
    assert Times(x, x) - y == Times(c, N);
    CongSquare(Times(x, x), y, k, N);
    SquareInside(x, k);
    CongTransitive(Square(x, k + 1), Square(y, k), -1, N);
  }

  lemma CongDivisor(x: int, y: int, q: int, n: int)
    requires Cong(x, y, n) && Divides(q, n)
    ensures Cong(x, y, q)
  {
    DividesTransitive(q, n, x - y);
  }

  lemma {:induction false} TwoToTheSum(i: nat, j: nat)
    ensures TwoToThe(i + j) == Times(TwoToThe(i), TwoToThe(j))
    decreases i
  {
    if i > 0 { TwoToTheSum(i - 1, j); }
  }

  lemma TimesMonotone(a: nat, b: nat, c: nat, d: nat)
    requires a <= b && c <= d
    ensures Times(a, c) <= Times(b, d)
  {
    assert a * c <= b * c <= b * d;
  }

  /** Proth's criterion. */
  lemma Proth(N: nat, x: nat, m: nat)
    requires m >= 1 && N % 2 == 1 && 3 <= N < TwoToThe(2 * m) && MeetsMinusOne(N, x, m - 1)
    ensures Prime(N)
  {
    forall d | 2 <= d < N ensures !Divides(d, N) {
      if Divides(d, N) {
        var e :| Times(d, e) == N;
        if e <= 0 { TimesSign(d, e); }
        assert e != 1;
        DividesTimes(e, d);
        assert d != 2 && e != 2;
        CongDivisor(Square(x, m - 1), -1, d, N);
        CongDivisor(Square(x, m - 1), -1, e, N);
        DivisorsAreLarge(x, m, d);
        DivisorsAreLarge(x, m, e);
        TimesMonotone(TwoToThe(m), d, TwoToThe(m), e);
        TwoToTheSum(m, m);
      }
    }
  }
}

/** Two's-complement integers of a symbolic width w, as cpp/cexp.c uses HOST_WIDE_INT.
    A stored value is the signed integer; the same bits read as unsigned are Unsigned(w, x). */
module WideInt {

  function Pow2(n: nat): (p: int)
    ensures p >= 1
    ensures n > 0 ==> p % 2 == 0
  {
    if n == 0 then 1 else 2 * Pow2(n - 1)
  }

  lemma {:induction false} Pow2Grows(m: nat, n: nat)
    requires m <= n
    ensures Pow2(m) <= Pow2(n)
  {
    if m < n { Pow2Grows(m, n - 1); }
  }

  lemma MulMono(a: int, b: int, c: int)
    requires a >= 0 && b <= c
    ensures a * b <= a * c
  {
  }

  lemma Doubling(a: int, b: int)
    ensures a * (2 * b) == 2 * (a * b)
  {
  }

  /** The values a signed variable of width w can hold. */
  predicate Fits(w: nat, x: int)
    requires w >= 1
  {
    -Pow2(w - 1) <= x < Pow2(w - 1)
  }

  /** The low w bits of x, read as an unsigned number: x modulo 2^w. */
  function Unsigned(w: nat, x: int): (u: int)
    ensures 0 <= u < Pow2(w)
  {
    if w == 0 then 0 else 2 * Unsigned(w - 1, x / 2) + x % 2
  }

  /** x and its low bits differ by a multiple of the modulus. */
  lemma {:induction false} UnsignedMultiple(w: nat, x: int) returns (k: int)
    ensures x == Unsigned(w, x) + k * Pow2(w)
  {
    if w == 0 {
      k := x;
    } else {
      k := UnsignedMultiple(w - 1, x / 2);
      Doubling(k, Pow2(w - 1));
    }
  }

  /** Numbers that differ by a multiple of the modulus have the same low bits. */
  lemma {:induction false} SameLow(w: nat, x: int, y: int, k: int)
    requires x == y + k * Pow2(w)
    ensures Unsigned(w, x) == Unsigned(w, y)
  {
    if w > 0 {
      Doubling(k, Pow2(w - 1));
      SameLow(w - 1, x / 2, y / 2, k);
    }
  }

  lemma {:induction false} SmallUnsigned(w: nat, x: int)
    requires 0 <= x < Pow2(w)
    ensures Unsigned(w, x) == x
  {
    if w > 0 { SmallUnsigned(w - 1, x / 2); }
  }

  /** The signed value left after wrap-around. */
  function Wrap(w: nat, x: int): (r: int)
    requires w >= 1
    ensures Fits(w, r)
  {
    var u := Unsigned(w, x);
    if u < Pow2(w - 1) then u else u - Pow2(w)
  }

  lemma FitsUnsigned(w: nat, x: int)
    requires w >= 1 && Fits(w, x)
    ensures Unsigned(w, x) == (if x >= 0 then x else x + Pow2(w)) && Wrap(w, x) == x
  {
    if x >= 0 {
      SmallUnsigned(w, x);
    } else {
      SameLow(w, x, x + Pow2(w), -1);
      SmallUnsigned(w, x + Pow2(w));
    }
  }

  /** Wrapping changes a value by a multiple of the modulus. */
  lemma WrapMultiple(w: nat, x: int) returns (k: int)
    requires w >= 1
    ensures x == Wrap(w, x) + k * Pow2(w)
  {
    k := UnsignedMultiple(w, x);
    if Unsigned(w, x) >= Pow2(w - 1) {
      Distribute(k, 1, Pow2(w));
      k := k + 1;
    }
  }

  lemma WrapUnsigned(w: nat, x: int)
    requires w >= 1
    ensures Unsigned(w, Wrap(w, x)) == Unsigned(w, x)
    ensures Wrap(w, Unsigned(w, x)) == Wrap(w, x)
    ensures Unsigned(w, Unsigned(w, x)) == Unsigned(w, x)
  {
    var k := WrapMultiple(w, x);
    SameLow(w, x, Wrap(w, x), k);
    SmallUnsigned(w, Unsigned(w, x));
  }

  /** A sum of two values leaves the range by less than one modulus. */
  lemma OneTurn(w: nat, x: int)
    requires w >= 1 && -Pow2(w) <= x < Pow2(w)
    ensures Wrap(w, x) == if Fits(w, x) then x else if x > 0 then x - Pow2(w) else x + Pow2(w)
  {
    var y := if Fits(w, x) then x else if x > 0 then x - Pow2(w) else x + Pow2(w);
    SameLow(w, x, y, if Fits(w, x) then 0 else if x > 0 then 1 else -1);
    FitsUnsigned(w, y);
  }

  lemma SumLow(w: nat, a: int, b: int)
    ensures Unsigned(w, a + b) == Unsigned(w, Unsigned(w, a) + Unsigned(w, b))
  {
    var k := UnsignedMultiple(w, a);
    var l := UnsignedMultiple(w, b);
    Distribute(k, l, Pow2(w));
    SameLow(w, a + b, Unsigned(w, a) + Unsigned(w, b), k + l);
  }

  lemma DifferenceLow(w: nat, a: int, b: int)
    ensures Unsigned(w, a - b) == Unsigned(w, Unsigned(w, a) - Unsigned(w, b))
  {
    var k := UnsignedMultiple(w, a);
    var l := UnsignedMultiple(w, b);
    Distribute(k, -l, Pow2(w));
    Distribute(l, 0, Pow2(w));
    SameLow(w, a - b, Unsigned(w, a) - Unsigned(w, b), k - l);
  }

  lemma Distribute(k: int, l: int, m: int)
    ensures (k + l) * m == k * m + l * m
    ensures (-k) * m == -(k * m)
  {
  }

  // ---------------------------------------------------------------------------------------
  // Division

  function Abs(x: int): nat { if x >= 0 then x else -x }

  /** How many times d goes into n, and what is left. */
  function NatDiv(n: nat, d: nat): (q: nat)
    requires d > 0
    ensures q <= n && (d >= 2 && n > 0 ==> q < n)
  {
    if n < d then 0 else 1 + NatDiv(n - d, d)
  }

  function NatMod(n: nat, d: nat): (r: nat)
    requires d > 0
    ensures r < d && r <= n
  {
    if n < d then n else NatMod(n - d, d)
  }

  lemma {:induction false} NatDivMod(n: nat, d: nat)
    requires d > 0
    ensures n == NatDiv(n, d) * d + NatMod(n, d)
  {
    if n >= d {
      NatDivMod(n - d, d);
      Distribute(NatDiv(n - d, d), 1, d);
    }
  }

  lemma {:induction false} NatDivOfMultiple(q: nat, d: nat)
    requires d > 0
    ensures q * d >= 0 && NatDiv(q * d, d) == q
  {
    if q > 0 {
      NatDivOfMultiple(q - 1, d);
      Distribute(q - 1, 1, d);
    }
  }

  lemma NatDivByOne(n: nat)
    ensures NatDiv(n, 1) == n
  {
    NatDivOfMultiple(n, 1);
  }

  /** C division: the quotient is truncated toward zero and the remainder has the sign of the
      dividend. */
  function TruncDiv(a: int, b: int): (q: int)
    requires b != 0
    ensures -(Abs(a) as int) <= q <= Abs(a)
  {
    if (a < 0) == (b < 0) then NatDiv(Abs(a), Abs(b)) else -(NatDiv(Abs(a), Abs(b)) as int)
  }

  function TruncRem(a: int, b: int): (r: int)
    requires b != 0
    ensures (a >= 0 ==> 0 <= r <= a) && (a <= 0 ==> a <= r <= 0) && Abs(r) < Abs(b)
  {
    if a >= 0 then NatMod(a, Abs(b)) else -(NatMod(-a, Abs(b)) as int)
  }

  /** The law both operators obey, section 6.5.5 of ISO/IEC 9899:1999. */
  lemma TruncDivLaw(a: int, b: int)
    requires b != 0
    ensures a == TruncDiv(a, b) * b + TruncRem(a, b)
  {
    NatDivMod(Abs(a), Abs(b));
    SignOut(NatDiv(Abs(a), Abs(b)), Abs(b));
  }

  lemma SignOut(q: int, b: int)
    ensures (-q) * b == -(q * b) && q * (-b) == -(q * b) && (-q) * (-b) == q * b
  {
  }

  lemma ExactQuotient(a: int, b: int)
    requires a != 0
    ensures TruncDiv(a * b, a) == b
  {
    NatDivOfMultiple(Abs(b), Abs(a));
    SignOut(Abs(b), Abs(a));
    SignOfProduct(a, b);
  }

  lemma SignOfProduct(a: int, b: int)
    ensures a * b == b * a
    ensures a * b == if (a < 0) == (b < 0) then Abs(b) * Abs(a) else -(Abs(b) * Abs(a))
    ensures Abs(b) * Abs(a) >= 0
    ensures Abs(b) * Abs(a) == 0 ==> a == 0 || b == 0
  {
  }

  /** Distance of x from the all-zeros or all-ones word. */
  function Spread(x: int): nat { if x >= 0 then x else -x - 1 }

  /** Bitwise operators on two's-complement integers of unlimited length; on values that fit
      a width they are the operators of that width. */
  function BitNot(x: int): int { -x - 1 }

  function BitAnd(x: int, y: int): (r: int)
    ensures r < 0 <==> x < 0 && y < 0
    decreases Spread(x) + Spread(y)
  {
    if Spread(x) == 0 && Spread(y) == 0 then (if x < 0 && y < 0 then -1 else 0)
    else 2 * BitAnd(x / 2, y / 2) + (if x % 2 == 1 && y % 2 == 1 then 1 else 0)
  }

  function BitOr(x: int, y: int): (r: int)
    ensures r < 0 <==> x < 0 || y < 0
  {
    BitNot(BitAnd(BitNot(x), BitNot(y)))
  }

  function BitXor(x: int, y: int): (r: int)
    ensures r < 0 <==> (x < 0) != (y < 0)
  {
    BitAnd(BitOr(x, y), BitNot(BitAnd(x, y)))
  }

  lemma {:induction false} BitAndFits(w: nat, x: int, y: int)
    requires w >= 1 && Fits(w, x) && Fits(w, y)
    ensures Fits(w, BitAnd(x, y))
    decreases w
  {
    if Spread(x) == 0 && Spread(y) == 0 {
    } else if w == 1 {
    } else {
      BitAndFits(w - 1, x / 2, y / 2);
    }
  }

  lemma BitOpsFit(w: nat, x: int, y: int)
    requires w >= 1 && Fits(w, x) && Fits(w, y)
    ensures Fits(w, BitAnd(x, y)) && Fits(w, BitOr(x, y)) && Fits(w, BitXor(x, y)) && Fits(w, BitNot(x))
  {
    BitAndFits(w, x, y);
    BitAndFits(w, BitNot(x), BitNot(y));
    BitAndFits(w, BitOr(x, y), BitNot(BitAnd(x, y)));
  }

  /** The bitwise operators work bit by bit: the low bits of a result depend on the low bits of
      the operands only. */
  lemma {:induction false} AndCongruent(w: nat, x: int, y: int, x': int, y': int)
    requires Unsigned(w, x) == Unsigned(w, x') && Unsigned(w, y) == Unsigned(w, y')
    ensures Unsigned(w, BitAnd(x, y)) == Unsigned(w, BitAnd(x', y'))
  {
    if w > 0 {
      AndCongruent(w - 1, x / 2, y / 2, x' / 2, y' / 2);
      BitAndStep(x, y);
      BitAndStep(x', y');
      UnsignedStep(w, BitAnd(x, y));
      UnsignedStep(w, BitAnd(x', y'));
    }
  }

  lemma UnsignedStep(w: nat, x: int)
    requires w > 0
    ensures Unsigned(w, x) == 2 * Unsigned(w - 1, x / 2) + x % 2
  {
  }

  lemma BitAndStep(x: int, y: int)
    ensures BitAnd(x, y) / 2 == BitAnd(x / 2, y / 2)
    ensures BitAnd(x, y) % 2 == if x % 2 == 1 && y % 2 == 1 then 1 else 0
  {
  }

  lemma {:induction false} NotCongruent(w: nat, x: int, x': int)
    requires Unsigned(w, x) == Unsigned(w, x')
    ensures Unsigned(w, BitNot(x)) == Unsigned(w, BitNot(x'))
  {
    if w > 0 {
      NotCongruent(w - 1, x / 2, x' / 2);
      assert BitNot(x) / 2 == BitNot(x / 2) && BitNot(x') / 2 == BitNot(x' / 2);
    }
  }

  lemma BitOpsLow(w: nat, x: int, y: int)
    requires w >= 1
    ensures var u, v := Unsigned(w, x), Unsigned(w, y);
            && Unsigned(w, BitNot(x)) == Unsigned(w, BitNot(u))
            && Unsigned(w, BitAnd(x, y)) == Unsigned(w, BitAnd(u, v))
            && Unsigned(w, BitOr(x, y)) == Unsigned(w, BitOr(u, v))
            && Unsigned(w, BitXor(x, y)) == Unsigned(w, BitXor(u, v))
  {
    var u, v := Unsigned(w, x), Unsigned(w, y);
    WrapUnsigned(w, x);
    WrapUnsigned(w, y);
    NotCongruent(w, x, u);
    OrCongruent(w, x, y, u, v);
    AndCongruent(w, x, y, u, v);
    NotCongruent(w, BitAnd(x, y), BitAnd(u, v));
    AndCongruent(w, BitOr(x, y), BitNot(BitAnd(x, y)), BitOr(u, v), BitNot(BitAnd(u, v)));
  }

  lemma OrCongruent(w: nat, x: int, y: int, x': int, y': int)
    requires Unsigned(w, x) == Unsigned(w, x') && Unsigned(w, y) == Unsigned(w, y')
    ensures Unsigned(w, BitOr(x, y)) == Unsigned(w, BitOr(x', y'))
  {
    NotCongruent(w, x, x');
    NotCongruent(w, y, y');
    AndCongruent(w, BitNot(x), BitNot(y), BitNot(x'), BitNot(y'));
    NotCongruent(w, BitAnd(BitNot(x), BitNot(y)), BitAnd(BitNot(x'), BitNot(y')));
  }

  // ---------------------------------------------------------------------------------------
  // Shifts

  /** v * 2^n. */
  function ShiftUp(v: int, n: nat): int
  {
    if n == 0 then v else 2 * ShiftUp(v, n - 1)
  }

  /** v / 2^n, rounded down. */
  function ShiftDown(v: int, n: nat): (r: int)
    ensures if v >= 0 then 0 <= r <= v else v <= r < 0
    decreases n
  {
    if n == 0 then v else ShiftDown(v / 2, n - 1)
  }

  lemma {:induction false} ShiftUpIsProduct(v: int, n: nat)
    ensures ShiftUp(v, n) == v * Pow2(n)
  {
    if n > 0 { ShiftUpIsProduct(v, n - 1); }
  }

  lemma {:induction false} ShiftDownIsFloor(v: int, n: nat)
    ensures ShiftDown(v, n) * Pow2(n) <= v < ShiftDown(v, n) * Pow2(n) + Pow2(n)
    decreases n
  {
    if n > 0 { ShiftDownIsFloor(v / 2, n - 1); Doubling(ShiftDown(v, n), Pow2(n - 1)); }
  }

  /** The k-th bit, counted from the least significant. */
  predicate Bit(x: int, k: nat) { ShiftDown(x, k) % 2 == 1 }

  lemma {:induction false} NotBits(x: int, k: nat)
    ensures Bit(BitNot(x), k) <==> !Bit(x, k)
    decreases k
  {
    if k > 0 { NotBits(x / 2, k - 1); }
  }

  lemma {:induction false} AndBits(x: int, y: int, k: nat)
    ensures Bit(BitAnd(x, y), k) <==> Bit(x, k) && Bit(y, k)
    decreases k
  {
    HalfOfAnd(x, y);
    if k > 0 { AndBits(x / 2, y / 2, k - 1); }
  }

  lemma HalfOfAnd(x: int, y: int)
    ensures BitAnd(x, y) / 2 == BitAnd(x / 2, y / 2) && (BitAnd(x, y) % 2 == 1 <==> x % 2 == 1 && y % 2 == 1)
  {
  }

  /** Each bit of a result is that of the operator on the bits of the operands. */
  lemma BitsOf(x: int, y: int, k: nat)
    ensures Bit(BitAnd(x, y), k) <==> Bit(x, k) && Bit(y, k)
    ensures Bit(BitOr(x, y), k) <==> Bit(x, k) || Bit(y, k)
    ensures Bit(BitXor(x, y), k) <==> Bit(x, k) != Bit(y, k)
    ensures Bit(BitNot(x), k) <==> !Bit(x, k)
  {
    hide Bit, BitAnd, BitNot;
    AndBits(x, y, k);
    NotBits(x, k);
    NotBits(y, k);
    AndBits(BitNot(x), BitNot(y), k);
    NotBits(BitAnd(BitNot(x), BitNot(y)), k);
    NotBits(BitAnd(x, y), k);
    AndBits(BitOr(x, y), BitNot(BitAnd(x, y)), k);
  }

  lemma {:induction false} FewerBits(w: nat, x: int, y: int)
    requires w > 0 && Unsigned(w, x) == Unsigned(w, y)
    ensures Unsigned(w - 1, x) == Unsigned(w - 1, y)
  {
    if w > 1 { FewerBits(w - 1, x / 2, y / 2); }
  }

  lemma Twice(w: nat, x: int)
    requires w > 0
    ensures Unsigned(w, 2 * x) == 2 * Unsigned(w - 1, x)
  {
    assert (2 * x) / 2 == x;
  }

  lemma {:induction false} ShiftUpLow(w: nat, x: int, y: int, n: nat)
    requires Unsigned(w, x) == Unsigned(w, y)
    ensures Unsigned(w, ShiftUp(x, n)) == Unsigned(w, ShiftUp(y, n))
  {
    if n > 0 {
      ShiftUpLow(w, x, y, n - 1);
      if w > 0 {
        FewerBits(w, ShiftUp(x, n - 1), ShiftUp(y, n - 1));
        Twice(w, ShiftUp(x, n - 1));
        Twice(w, ShiftUp(y, n - 1));
      }
    }
  }

  /** Shifting by the width or more leaves no bit. */
  lemma {:induction false} ShiftUpVanishes(w: nat, v: int, n: nat)
    requires n >= w
    ensures Unsigned(w, ShiftUp(v, n)) == 0
  {
    if w > 0 {
      ShiftUpVanishes(w - 1, v, n - 1);
      Twice(w, ShiftUp(v, n - 1));
    }
  }

  lemma {:induction false} ShiftDownVanishes(v: int, n: nat)
    requires -Pow2(n) <= v < Pow2(n)
    ensures ShiftDown(v, n) == if v >= 0 then 0 else -1
    decreases n
  {
    if n > 0 { ShiftDownVanishes(v / 2, n - 1); }
  }
}

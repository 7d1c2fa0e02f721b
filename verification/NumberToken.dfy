/** Integer constants in #if expressions: parse_number of cpp/cexp.c, which accumulates the
    digits in an unsigned HOST_WIDE_INT of w bits and detects when they do not fit. */
module NumberToken {
  import opened WideInt
  import opened IfExpression

  datatype Token =
    | Rejected  // yyerror was called and the parse abandoned
    | Parsed(c: Constant, outOfRange: bool, beyondRadix: bool, madeUnsigned: bool)

  predicate IsDigit(ch: char, base: nat)
  {
    '0' <= ch <= '9' || (base == 16 && ('a' <= ch <= 'f' || 'A' <= ch <= 'F'))
  }

  function Digit(ch: char): (d: nat)
    requires IsDigit(ch, 16)
    ensures d < 16 && ('0' <= ch <= '9' ==> d < 10)
  {
    if '0' <= ch <= '9' then ch as int - '0' as int
    else if 'a' <= ch <= 'f' then ch as int - 'a' as int + 10
    else ch as int - 'A' as int + 10
  }

  /** Radix and length of the prefix that announces it. */
  function Base(text: string): (r: (nat, nat))
    requires text != []
    ensures IsBase(r.0)
  {
    if text[0] == '0' then
      if |text| >= 3 && (text[1] == 'x' || text[1] == 'X') then (16, 2) else (8, 0)
    else (10, 0)
  }

  predicate AllDigits(s: string, base: nat)
  {
    forall i :: 0 <= i < |s| ==> IsDigit(s[i], base)
  }

  /** The three radices of a constant. */
  predicate IsBase(base: nat) { base == 8 || base == 10 || base == 16 }

  /** n * base + digit, with the product written out for each radix. */
  function Next(n: nat, base: nat, digit: nat): (r: nat)
    requires IsBase(base)
  {
    (if base == 8 then 8 * n else if base == 10 then 10 * n else 16 * n) + digit
  }

  /** The number the digits denote, without any limit of size. */
  function Exactly(s: string, base: nat): (v: nat)
    requires IsBase(base) && AllDigits(s, base)
  {
    if s == [] then 0 else Next(Exactly(s[..|s| - 1], base), base, Digit(s[|s| - 1]))
  }

  predicate BeyondRadix(s: string, base: nat)
    requires AllDigits(s, base)
  {
    exists i :: 0 <= i < |s| && Digit(s[i]) >= base
  }

  function Largest(s: string, base: nat): (d: nat)
    requires AllDigits(s, base)
  {
    if s == [] then 0
    else
      var before, last := Largest(s[..|s| - 1], base), Digit(s[|s| - 1]);
      if before < last then last else before
  }

  lemma {:induction false} LargestDecides(s: string, base: nat)
    requires AllDigits(s, base) && base > 0
    ensures base <= Largest(s, base) <==> BeyondRadix(s, base)
  {
    if s != [] {
      var t := s[..|s| - 1];
      LargestDecides(t, base);
      assert forall i :: 0 <= i < |t| ==> s[i] == t[i];
    }
  }

  function CountL(s: string): nat
  {
    if s == [] then 0 else CountL(s[..|s| - 1]) + if s[|s| - 1] in "lL" then 1 else 0
  }

  function CountU(s: string): nat
  {
    if s == [] then 0 else CountU(s[..|s| - 1]) + if s[|s| - 1] in "uU" then 1 else 0
  }

  /** At most one u, and at most two l (one when pedantic), in any order. */
  predicate GoodSuffix(s: string, pedantic: bool)
  {
    && (forall i :: 0 <= i < |s| ==> s[i] in "lLuU")
    && CountU(s) <= 1
    && CountL(s) <= if pedantic then 1 else 2
  }

  /** A longer suffix has at least as many marks. */
  lemma {:induction false} CountsGrow(s: string, k: nat)
    requires k <= |s|
    ensures CountL(s[..k]) <= CountL(s) && CountU(s[..k]) <= CountU(s)
  {
    if k < |s| {
      CountsGrow(s[..|s| - 1], k);
      assert s[..|s| - 1][..k] == s[..k];
    } else {
      assert s[..k] == s;
    }
  }

  lemma {:induction false} DivNext(n: nat, base: nat)
    requires IsBase(base)
    ensures n == Next(NatDiv(n, base), base, NatMod(n, base))
  {
    if n >= base { DivNext(n - base, base); }
  }

  lemma TimesModulus(k: int, m: int)
    ensures (8 * k) * m == 8 * (k * m) && (10 * k) * m == 10 * (k * m) && (16 * k) * m == 16 * (k * m)
  {
  }

  /** One step of the accumulation keeps the low bits of the exact value. */
  lemma StepLow(w: nat, base: nat, exact: nat, digit: nat)
    requires IsBase(base)
    ensures Unsigned(w, Next(Unsigned(w, exact), base, digit)) == Unsigned(w, Next(exact, base, digit))
  {
    var k := UnsignedMultiple(w, exact);
    TimesModulus(k, Pow2(w));
    var turns := if base == 8 then 8 * k else if base == 10 then 10 * k else 16 * k;
    SameLow(w, Next(exact, base, digit), Next(Unsigned(w, exact), base, digit), turns);
  }

  /** The arithmetic of the two tests: m is the modulus, q its greatest safe multiplier. */
  lemma CarryTest(m: nat, base: nat, n: nat, digit: nat, q: nat, rest: nat)
    requires m >= 256 && IsBase(base) && digit < 16 && n < m
    requires m - 1 == Next(q, base, rest) && rest < base
    ensures q < n ==> Next(n, base, digit) >= m
    ensures q >= n && Next(n, base, digit) >= m ==> Next(n, base, digit) - m < n
    ensures n <= Next(n, base, digit)
    ensures q >= n ==> Next(n, base, digit) < m + m
  {
  }

  /** The two tests together are exact: the division bounds n before the multiplication, and a
      carry out of the addition leaves less than a digit. */
  lemma StepOverflows(w: nat, base: nat, n: nat, digit: nat)
    requires w >= 8 && IsBase(base) && digit < 16 && n < Pow2(w)
    ensures Next(n, base, digit) >= Pow2(w) <==>
            NatDiv(Pow2(w) - 1, base) < n || Unsigned(w, Next(n, base, digit)) < n
  {
    var m, next := Pow2(w), Next(n, base, digit);
    DivNext(m - 1, base);
    assert Pow2(8) == 256;
    Pow2Grows(8, w);
    CarryTest(m, base, n, digit, NatDiv(m - 1, base), NatMod(m - 1, base));
    LowOfTwice(w, next);
  }

  lemma LowOfTwice(w: nat, x: nat)
    ensures x < Pow2(w) ==> Unsigned(w, x) == x
    ensures Pow2(w) <= x < Pow2(w) + Pow2(w) ==> Unsigned(w, x) == x - Pow2(w)
  {
    if x < Pow2(w) {
      SmallUnsigned(w, x);
    } else if x < Pow2(w) + Pow2(w) {
      SameLow(w, x, x - Pow2(w), 1);
      SmallUnsigned(w, x - Pow2(w));
    }
  }

  lemma StepIsExact(w: nat, base: nat, exact: nat, digit: nat)
    requires w >= 8 && IsBase(base) && digit < 16
    ensures var n := Unsigned(w, exact);
            Next(exact, base, digit) >= Pow2(w) <==>
            exact >= Pow2(w) || NatDiv(Pow2(w) - 1, base) < n || Unsigned(w, Next(n, base, digit)) < n
  {
    StepOverflows(w, base, Unsigned(w, exact), digit);
    if exact < Pow2(w) { SmallUnsigned(w, exact); }
  }

  lemma AppendDigit(s: string, c: char, base: nat)
    requires IsBase(base) && AllDigits(s, base) && IsDigit(c, base)
    ensures AllDigits(s + [c], base)
    ensures Exactly(s + [c], base) == Next(Exactly(s, base), base, Digit(c))
    ensures Largest(s + [c], base) == if Largest(s, base) < Digit(c) then Digit(c) else Largest(s, base)
  {
    assert (s + [c])[..|s|] == s;
    assert (s + [c])[|s|] == c;
  }

  /** What parse_number has computed after the digits s. */
  ghost predicate Accumulated(w: nat, s: string, base: nat, n: nat, overflow: bool, largest: nat)
  {
    && IsBase(base) && AllDigits(s, base)
    && n == Unsigned(w, Exactly(s, base))
    && (overflow <==> Exactly(s, base) >= Pow2(w))
    && largest == Largest(s, base)
  }

  lemma AccumulateStep(w: nat, s: string, c: char, base: nat, n: nat, overflow: bool, largest: nat)
    requires w >= 8 && IsDigit(c, base) && Accumulated(w, s, base, n, overflow, largest)
    ensures var nd := Unsigned(w, Next(n, base, Digit(c)));
            Accumulated(w, s + [c], base, nd, overflow || NatDiv(Pow2(w) - 1, base) < n || nd < n,
                        if largest < Digit(c) then Digit(c) else largest)
  {
    AppendDigit(s, c, base);
    StepLow(w, base, Exactly(s, base), Digit(c));
    StepIsExact(w, base, Exactly(s, base), Digit(c));
  }

  /** Accumulate the digits the text begins with. */
  method ReadDigits(w: nat, text: string, base: nat) returns (n: nat, overflow: bool, largest: nat, end: nat)
    requires w >= 8 && IsBase(base)
    ensures end <= |text| && Accumulated(w, text[..end], base, n, overflow, largest)
    ensures end < |text| ==> !IsDigit(text[end], base)
  {
    var maxOverBase := NatDiv(Pow2(w) - 1, base);
    n, overflow, largest, end := 0, false, 0, 0;
    SmallUnsigned(w, 0);
    while end < |text| && IsDigit(text[end], base)
      invariant end <= |text| && Accumulated(w, text[..end], base, n, overflow, largest)
    {
      var digit := Digit(text[end]);
      AccumulateStep(w, text[..end], text[end], base, n, overflow, largest);
      assert text[..end + 1] == text[..end] + [text[end]];
      var nd := Unsigned(w, Next(n, base, digit));
      if largest < digit { largest := digit; }
      overflow := overflow || maxOverBase < n || nd < n;
      n := nd;
      end := end + 1;
    }
  }

  lemma AppendMark(s: string, c: char)
    ensures CountL(s + [c]) == CountL(s) + if c in "lL" then 1 else 0
    ensures CountU(s + [c]) == CountU(s) + if c in "uU" then 1 else 0
  {
    assert (s + [c])[..|s|] == s;
  }

  lemma NextMark(suffix: string, p: nat)
    requires p < |suffix|
    ensures CountL(suffix[..p + 1]) == CountL(suffix[..p]) + (if suffix[p] in "lL" then 1 else 0) <= CountL(suffix)
    ensures CountU(suffix[..p + 1]) == CountU(suffix[..p]) + (if suffix[p] in "uU" then 1 else 0) <= CountU(suffix)
  {
    assert suffix[..p + 1] == suffix[..p] + [suffix[p]];
    AppendMark(suffix[..p], suffix[p]);
    CountsGrow(suffix, p + 1);
  }

  /** Read the marks l and u; anything else, or too many of one, is an error. */
  method ReadSuffix(suffix: string, pedantic: bool) returns (ok: bool, signedp: int)
    ensures ok <==> GoodSuffix(suffix, pedantic)
    ensures ok ==> signedp == if CountU(suffix) == 1 then UNSIGNED else SIGNED
  {
    var specLong, p := 0, 0;
    signedp := SIGNED;
    while p < |suffix|
      invariant 0 <= p <= |suffix|
      invariant forall i :: 0 <= i < p ==> suffix[i] in "lLuU"
      invariant specLong == CountL(suffix[..p]) <= (if pedantic then 1 else 2)
      invariant signedp == (if CountU(suffix[..p]) == 0 then SIGNED else UNSIGNED) && CountU(suffix[..p]) <= 1
    {
      var c := suffix[p];
      NextMark(suffix, p);
      if c == 'l' || c == 'L' {
        if (if pedantic then 0 else 1) < specLong { return false, signedp; }
        specLong := specLong + 1;
      } else if c == 'u' || c == 'U' {
        if signedp == UNSIGNED { return false, signedp; }
        signedp := UNSIGNED;
      } else {
        return false, signedp;
      }
      p := p + 1;
    }
    assert suffix[..p] == suffix;
    ok := true;
  }

  method ParseNumber(w: nat, text: string, pedantic: bool) returns (t: Token)
    requires w >= 8 && text != []
    ensures exists end :: Splits(w, text, pedantic, t, end)
  {
    var (base, start) := Base(text);
    var rest := text[start..];
    var n, overflow, largest, stop := ReadDigits(w, rest, base);
    var ok, signedp := ReadSuffix(rest[stop..], pedantic);
    if !ok {
      assert Splits(w, text, pedantic, Rejected, stop);
      return Rejected;
    }
    var value := Wrap(w, n);
    WrapUnsigned(w, n);
    WrapUnsigned(w, Exactly(rest[..stop], base));
    LargestDecides(rest[..stop], base);
    var tooBig := BitAnd(value, signedp) < 0;
    t := Parsed(Constant(value, if tooBig then UNSIGNED else signedp), overflow, base <= largest, tooBig && base == 10);
    assert Splits(w, text, pedantic, t, stop);
  }

  /** What the token means when the text after the prefix has end digits. */
  ghost predicate Splits(w: nat, text: string, pedantic: bool, t: Token, end: nat)
    requires w >= 1 && text != []
  {
    var (base, start) := Base(text);
    var rest := text[start..];
    && end <= |rest|
    && AllDigits(rest[..end], base)
    && (end < |rest| ==> !IsDigit(rest[end], base))
    && (t.Parsed? <==> GoodSuffix(rest[end..], pedantic))
    && (t.Parsed? ==>
        var exact := Exactly(rest[..end], base);
        var u := CountU(rest[end..]) == 1;
        && Proper(w, t.c)
        && Unsigned(w, t.c.value) == Unsigned(w, exact)
        && (t.outOfRange <==> exact >= Pow2(w))
        && (t.beyondRadix <==> BeyondRadix(rest[..end], base))
        && (t.c.signedp == UNSIGNED <==> u || !Fits(w, Unsigned(w, exact)))
        && (t.madeUnsigned <==> base == 10 && !u && !Fits(w, Unsigned(w, exact))))
  }

  /** There is only one such end, so the result is determined by the text. */
  lemma SplitIsUnique(w: nat, text: string, pedantic: bool, t: Token, t': Token, end: nat, end': nat)
    requires w >= 1 && text != []
    requires Splits(w, text, pedantic, t, end) && Splits(w, text, pedantic, t', end')
    ensures end == end' && t == t'
  {
    var rest := text[Base(text).1..];
    assert forall i :: 0 <= i < end ==> rest[i] == rest[..end][i];
    assert forall i :: 0 <= i < end' ==> rest[i] == rest[..end'][i];
    if t.Parsed? {
      FitsUnsigned(w, t.c.value);
      FitsUnsigned(w, t'.c.value);
    }
  }

  /** A constant is worth exactly what its digits say if and only if no overflow is diagnosed. */
  lemma InRangeIsExact(w: nat, text: string, pedantic: bool, t: Token, end: nat)
    requires w >= 1 && text != [] && Splits(w, text, pedantic, t, end) && t.Parsed?
    ensures !t.outOfRange <==> Mean(w, t.c).v == Exactly(text[Base(text).1..][..end], Base(text).0)
  {
    var exact := Exactly(text[Base(text).1..][..end], Base(text).0);
    FitsUnsigned(w, t.c.value);
    if exact < Pow2(w) { SmallUnsigned(w, exact); }
  }
}

/** How the integer constants of section 6.4.4.1 of ISO C are written, and that the value of a written
    number is the number: digits are produced by division, without the reader of NumberToken. */
module NumberSpelling {
  import opened WideInt
  import opened IfExpression
  import opened NumberToken

  /** The radix, how many zeros are put before the first digit, the case of the X and of the letter at
      each place counted from the right. */
  datatype Form =
    | Decimal
    | Octal(zeros: nat)
    | Hex(bigX: bool, zeros: nat, upper: nat -> bool)

  const SMALL_DIGITS := "0123456789abcdef"
  const LARGE_DIGITS := "0123456789ABCDEF"

  function DigitChar(d: nat, upper: bool): char
    requires d < 16
  {
    if upper then LARGE_DIGITS[d] else SMALL_DIGITS[d]
  }

  function DecimalDigits(n: nat): (s: string)
    ensures s != []
  {
    if n < 10 then [DigitChar(n, false)] else DecimalDigits(n / 10) + [DigitChar(n % 10, false)]
  }

  function OctalDigits(n: nat): (s: string)
    ensures s != []
  {
    if n < 8 then [DigitChar(n, false)] else OctalDigits(n / 8) + [DigitChar(n % 8, false)]
  }

  function HexDigits(n: nat, upper: nat -> bool, place: nat): (s: string)
    ensures s != []
  {
    if n < 16 then [DigitChar(n, upper(place))]
    else HexDigits(n / 16, upper, place + 1) + [DigitChar(n % 16, upper(place))]
  }

  function Zeros(k: nat): (s: string)
    ensures |s| == k && forall i :: 0 <= i < k ==> s[i] == '0'
  {
    seq(k, _ => '0')
  }

  function Written(n: nat, form: Form): string
  {
    match form
    case Decimal => DecimalDigits(n)
    case Octal(zeros) => "0" + (Zeros(zeros) + OctalDigits(n))
    case Hex(bigX, zeros, upper) => (if bigX then "0X" else "0x") + (Zeros(zeros) + HexDigits(n, upper, 0))
  }

  // ---------------------------------------------------------------------------------------
  // Suffixes

  function Low(c: char): char
  {
    if c == 'U' then 'u' else if c == 'L' then 'l' else c
  }

  function Lowered(s: string): (t: string)
    ensures |t| == |s|
  {
    if s == [] then [] else [Low(s[0])] + Lowered(s[1..])
  }

  /** All the marks a constant may end in, letters in either case. */
  predicate IsSuffix(s: string, pedantic: bool)
  {
    || Lowered(s) in ["", "u", "l", "ul", "lu"]
    || (!pedantic && Lowered(s) in ["ll", "ull", "lul", "llu"])
  }

  predicate HasU(s: string)
  {
    'u' in s || 'U' in s
  }

  lemma {:induction false} MarksAreAll(s: string)
    requires forall i :: 0 <= i < |s| ==> s[i] in "lLuU"
    ensures CountL(s) + CountU(s) == |s|
  {
    if s != [] { MarksAreAll(s[..|s| - 1]); }
  }

  lemma {:induction false} CountsFromFront(c: char, s: string)
    ensures CountL([c] + s) == (if c in "lL" then 1 else 0) + CountL(s)
    ensures CountU([c] + s) == (if c in "uU" then 1 else 0) + CountU(s)
  {
    if s == [] {
      assert [c] + s == [c] && [c][..0] == [];
    } else {
      var t := s[..|s| - 1];
      assert ([c] + s)[..|s|] == [c] + t;
      CountsFromFront(c, t);
    }
  }

  lemma CountsOf(a: char, s: string)
    ensures CountL([a] + s) == (if a in "lL" then 1 else 0) + CountL(s)
    ensures CountU([a] + s) == (if a in "uU" then 1 else 0) + CountU(s)
    ensures Lowered([a] + s) == [Low(a)] + Lowered(s)
  {
    CountsFromFront(a, s);
    assert ([a] + s)[1..] == s;
  }

  lemma CountsOfOne(a: char)
    ensures CountL([a]) == (if a in "lL" then 1 else 0) && CountU([a]) == (if a in "uU" then 1 else 0)
    ensures Lowered([a]) == [Low(a)]
  {
    CountsOf(a, []);
    assert [a] + [] == [a];
  }

  lemma OneMark(a: char, pedantic: bool)
    ensures GoodSuffix([a], pedantic) <==> IsSuffix([a], pedantic)
  {
    CountsOfOne(a);
  }

  lemma TwoMarks(a: char, b: char, pedantic: bool)
    ensures GoodSuffix([a, b], pedantic) <==> IsSuffix([a, b], pedantic)
  {
    CountsOfOne(b);
    CountsOf(a, [b]);
    assert [a] + [b] == [a, b];
    assert Lowered([a, b]) == [Low(a), Low(b)];
  }

  lemma ThreeMarks(a: char, b: char, c: char, pedantic: bool)
    ensures GoodSuffix([a, b, c], pedantic) <==> IsSuffix([a, b, c], pedantic)
  {
    CountsOfOne(c);
    CountsOf(b, [c]);
    assert [b] + [c] == [b, c];
    CountsOf(a, [b, c]);
    assert [a] + [b, c] == [a, b, c];
    assert Lowered([a, b, c]) == [Low(a), Low(b), Low(c)];
  }

  /** What is accepted behind the digits is this list. */
  lemma SuffixesAreListed(s: string, pedantic: bool)
    ensures GoodSuffix(s, pedantic) <==> IsSuffix(s, pedantic)
  {
    if |s| == 0 {
      assert s == "";
    } else if |s| == 1 {
      assert s == [s[0]];
      OneMark(s[0], pedantic);
    } else if |s| == 2 {
      assert s == [s[0], s[1]];
      TwoMarks(s[0], s[1], pedantic);
    } else if |s| == 3 {
      assert s == [s[0], s[1], s[2]];
      ThreeMarks(s[0], s[1], s[2], pedantic);
    } else if GoodSuffix(s, pedantic) {
      MarksAreAll(s);
    }
  }

  // ---------------------------------------------------------------------------------------
  // Digits

  /** Digits of the radix that are worth n. */
  ghost predicate Reads(s: string, base: nat, n: nat)
  {
    && IsBase(base) && AllDigits(s, base) && Exactly(s, base) == n
    && forall i :: 0 <= i < |s| ==> Digit(s[i]) < base
  }

  lemma DigitReads(d: nat, upper: bool, base: nat)
    requires IsBase(base) && d < base
    ensures var c := DigitChar(d, upper); IsDigit(c, base) && Digit(c) == d
  {
  }

  lemma OneDigit(d: nat, upper: bool, base: nat)
    requires IsBase(base) && d < base
    ensures Reads([DigitChar(d, upper)], base, d)
  {
    DigitReads(d, upper, base);
    AppendDigit([], DigitChar(d, upper), base);
    assert [] + [DigitChar(d, upper)] == [DigitChar(d, upper)];
  }

  lemma OneMore(s: string, base: nat, n: nat, d: nat, upper: bool)
    requires Reads(s, base, n) && d < base
    ensures Reads(s + [DigitChar(d, upper)], base, Next(n, base, d))
  {
    DigitReads(d, upper, base);
    AppendDigit(s, DigitChar(d, upper), base);
  }

  lemma {:induction false} DecimalReads(n: nat)
    ensures Reads(DecimalDigits(n), 10, n)
  {
    if n < 10 {
      OneDigit(n, false, 10);
    } else {
      DecimalReads(n / 10);
      OneMore(DecimalDigits(n / 10), 10, n / 10, n % 10, false);
    }
  }

  lemma {:induction false} OctalReads(n: nat)
    ensures Reads(OctalDigits(n), 8, n)
  {
    if n < 8 {
      OneDigit(n, false, 8);
    } else {
      OctalReads(n / 8);
      OneMore(OctalDigits(n / 8), 8, n / 8, n % 8, false);
    }
  }

  lemma {:induction false} HexReads(n: nat, upper: nat -> bool, place: nat)
    ensures Reads(HexDigits(n, upper, place), 16, n)
  {
    if n < 16 {
      OneDigit(n, upper(place), 16);
    } else {
      HexReads(n / 16, upper, place + 1);
      OneMore(HexDigits(n / 16, upper, place + 1), 16, n / 16, n % 16, upper(place));
    }
  }

  lemma {:induction false} ZeroInFront(s: string, base: nat, n: nat)
    requires Reads(s, base, n)
    ensures Reads(['0'] + s, base, n)
  {
    if s == [] {
      OneDigit(0, false, base);
      assert ['0'] + s == [DigitChar(0, false)];
    } else {
      var t, c := s[..|s| - 1], s[|s| - 1];
      assert forall i :: 0 <= i < |t| ==> t[i] == s[i];
      ZeroInFront(t, base, Exactly(t, base));
      AppendDigit(['0'] + t, c, base);
      assert ['0'] + s == ['0'] + t + [c];
    }
  }

  lemma {:induction false} ZerosInFront(k: nat, s: string, base: nat, n: nat)
    requires Reads(s, base, n)
    ensures Reads(Zeros(k) + s, base, n)
  {
    if k == 0 {
      assert Zeros(k) + s == s;
    } else {
      ZerosInFront(k - 1, s, base, n);
      ZeroInFront(Zeros(k - 1) + s, base, n);
      assert Zeros(k) + s == ['0'] + (Zeros(k - 1) + s);
    }
  }

  /** No number but 0 is written with a zero in front. */
  lemma {:induction false} DecimalBegins(n: nat)
    ensures DecimalDigits(n)[0] == '0' <==> n == 0
    ensures n == 0 ==> DecimalDigits(n) == "0"
  {
    if n >= 10 { DecimalBegins(n / 10); }
  }

  // ---------------------------------------------------------------------------------------
  // Constants

  /** The radix by which the digits of the constant are read: a single 0 is read as an octal constant. */
  function Radix(n: nat, form: Form): nat
  {
    match form
    case Decimal => if n == 0 then 8 else 10
    case Octal(_) => 8
    case Hex(_, _, _) => 16
  }

  /** What follows the digits is not one more digit of the constant. */
  predicate Follows(form: Form, suffix: string)
  {
    suffix != [] ==>
      && !('0' <= suffix[0] <= '9') && suffix[0] != 'x' && suffix[0] != 'X'
      && (form.Hex? ==> !('a' <= suffix[0] <= 'f') && !('A' <= suffix[0] <= 'F'))
  }

  /** The text is a prefix of the given length, digits worth n, and the suffix. */
  ghost predicate Divides(text: string, start: nat, digits: string, base: nat, n: nat, suffix: string)
  {
    && start <= |text| && text[start..] == digits + suffix && digits != []
    && Base(text) == (base, start) && Reads(digits, base, n)
  }

  lemma DecimalDivides(n: nat, suffix: string)
    requires Follows(Decimal, suffix)
    ensures Divides(DecimalDigits(n) + suffix, 0, DecimalDigits(n), Radix(n, Decimal), n, suffix)
  {
    hide DecimalDigits, Reads;
    var text := DecimalDigits(n) + suffix;
    DecimalReads(n);
    DecimalBegins(n);
    assert text[0..] == text && text[0] == DecimalDigits(n)[0];
    if n == 0 {
      OneDigit(0, false, 8);
      assert text[1..] == suffix && "0" == [DigitChar(0, false)];
      if |text| >= 3 { assert text[1] == suffix[0]; }
    }
  }

  lemma FirstIsDigit(s: string, base: nat, n: nat)
    requires s != [] && Reads(s, base, n)
    ensures IsDigit(s[0], base)
  {
  }

  lemma OctalDivides(n: nat, zeros: nat, suffix: string)
    ensures var digits := ['0'] + (Zeros(zeros) + OctalDigits(n));
            Divides(digits + suffix, 0, digits, 8, n, suffix)
  {
    hide OctalDigits, Reads;
    var more := Zeros(zeros) + OctalDigits(n);
    OctalReads(n);
    ZerosInFront(zeros, OctalDigits(n), 8, n);
    ZeroInFront(more, 8, n);
    FirstIsDigit(more, 8, n);
    var text := ['0'] + more + suffix;
    assert text[0..] == text && text[1] == more[0];
  }

  lemma HexDivides(n: nat, x: char, zeros: nat, upper: nat -> bool, suffix: string)
    requires x == 'x' || x == 'X'
    ensures var digits := Zeros(zeros) + HexDigits(n, upper, 0);
            Divides(['0', x] + digits + suffix, 2, digits, 16, n, suffix)
  {
    hide HexDigits, Reads;
    var digits := Zeros(zeros) + HexDigits(n, upper, 0);
    HexReads(n, upper, 0);
    ZerosInFront(zeros, HexDigits(n, upper, 0), 16, n);
    var text := ['0', x] + digits + suffix;
    assert text[2..] == digits + suffix && text[1] == x;
  }

  lemma WrittenDivides(n: nat, form: Form, suffix: string) returns (digits: string, start: nat)
    requires Follows(form, suffix)
    ensures Divides(Written(n, form) + suffix, start, digits, Radix(n, form), n, suffix)
  {
    hide Divides, Reads;
    match form
    case Decimal =>
      digits, start := DecimalDigits(n), 0;
      DecimalDivides(n, suffix);
    case Octal(zeros) =>
      digits, start := ['0'] + (Zeros(zeros) + OctalDigits(n)), 0;
      OctalDivides(n, zeros, suffix);
    case Hex(bigX, zeros, upper) =>
      digits, start := Zeros(zeros) + HexDigits(n, upper, 0), 2;
      HexDivides(n, if bigX then 'X' else 'x', zeros, upper, suffix);
  }

  /** Digits end where the suffix begins. */
  lemma EndsThere(w: nat, text: string, start: nat, digits: string, base: nat, n: nat, suffix: string,
                  pedantic: bool, t: Token, end: nat)
    requires w >= 8 && Divides(text, start, digits, base, n, suffix) && Splits(w, text, pedantic, t, end)
    requires suffix != [] ==> !IsDigit(suffix[0], base)
    ensures end == |digits| && text[start..][..end] == digits && text[start..][end..] == suffix
  {
    var rest := text[start..];
    assert forall i :: 0 <= i < |digits| ==> rest[i] == digits[i];
    assert forall i :: 0 <= i < end ==> rest[i] == rest[..end][i];
    if suffix != [] { assert rest[|digits|] == suffix[0]; }
  }

  lemma {:induction false} SomeU(s: string)
    ensures CountU(s) >= 1 <==> HasU(s)
  {
    if s != [] {
      SomeU(s[..|s| - 1]);
      assert s == s[..|s| - 1] + [s[|s| - 1]];
    }
  }

  lemma Worth(w: nat, n: nat, c: Constant, u: bool)
    requires w >= 1 && n < Pow2(w) && Proper(w, c) && Unsigned(w, c.value) == Unsigned(w, n)
    requires c.signedp == UNSIGNED <==> u || !Fits(w, Unsigned(w, n))
    ensures Unsigned(w, n) == n && Mean(w, c).v == n && (Mean(w, c).signed <==> !u && n < Pow2(w - 1))
  {
    SmallUnsigned(w, n);
    FitsUnsigned(w, c.value);
    assert Pow2(w) == Pow2(w - 1) + Pow2(w - 1);
  }

  /** The value read is the number written, for every number and every form: out of range if and only
      if it does not fit, and unsigned if it is marked so or does not fit a signed type. */
  ghost predicate WorthIt(w: nat, n: nat, form: Form, suffix: string, t: Token)
    requires w >= 1 && t.Parsed?
  {
    && (t.outOfRange <==> n >= Pow2(w)) && !t.beyondRadix
    && (n < Pow2(w) ==>
        && Mean(w, t.c).v == n
        && (Mean(w, t.c).signed <==> !HasU(suffix) && n < Pow2(w - 1))
        && (t.madeUnsigned <==> form.Decimal? && !HasU(suffix) && n >= Pow2(w - 1)))
  }

  /** A number that is written in any of the forms, with any suffix, is read as that number. Behind the
      digits, exactly the listed suffixes are accepted. */
  lemma NumberComesBack(w: nat, n: nat, form: Form, suffix: string, pedantic: bool, t: Token, end: nat)
    requires w >= 8 && Follows(form, suffix)
    requires Splits(w, Written(n, form) + suffix, pedantic, t, end)
    ensures t.Parsed? <==> IsSuffix(suffix, pedantic)
    ensures t.Parsed? ==> WorthIt(w, n, form, suffix, t)
  {
    hide Exactly;
    var text := Written(n, form) + suffix;
    var digits, start := WrittenDivides(n, form, suffix);
    EndsThere(w, text, start, digits, Radix(n, form), n, suffix, pedantic, t, end);
    SuffixesAreListed(suffix, pedantic);
    if t.Parsed? {
      SomeU(suffix);
      if n < Pow2(w) { Worth(w, n, t.c, HasU(suffix)); }
    }
  }

  /** A prefix of a hexadecimal constant is an error when it stands alone. */
  lemma PrefixAlone(w: nat, x: char, pedantic: bool, t: Token, end: nat)
    requires w >= 8 && (x == 'x' || x == 'X') && Splits(w, ['0', x], pedantic, t, end)
    ensures t.Rejected?
  {
    var text := ['0', x];
    assert text[0..] == text;
    var rest := text[0..];
    assert forall i :: 0 <= i < end ==> rest[i] == rest[..end][i];
    assert forall i :: end <= i < 2 ==> rest[end..][i - end] == rest[i];
  }

  /** With a suffix behind it, it is a 0. */
  lemma PrefixAndSuffix(w: nat, x: char, suffix: string, pedantic: bool, t: Token, end: nat)
    requires w >= 8 && (x == 'x' || x == 'X') && suffix != [] && IsSuffix(suffix, pedantic)
    requires Splits(w, ['0', x] + suffix, pedantic, t, end)
    ensures t.Parsed? && Mean(w, t.c).v == 0 && !t.outOfRange
  {
    hide IsSuffix, Lowered;
    var text := ['0', x] + suffix;
    assert text[2..] == suffix;
    SuffixesAreListed(suffix, pedantic);
    assert suffix[0] in "lLuU" && !IsDigit(suffix[0], 16);
    assert end == 0;
    assert suffix[..0] == [] && suffix[0..] == suffix;
    SomeU(suffix);
    Worth(w, 0, t.c, HasU(suffix));
  }
}

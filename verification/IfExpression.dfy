/** The #if expression evaluator: the grammar actions of cpp/cexp.c, run over the tree that the
    parser reduces, and the reference semantics of ISO/IEC 9899:1999 sections 6.5 and 6.10.1. */
module IfExpression {
  import opened WideInt

  /** cexp.c marks a signed value with ~0 and an unsigned one with 0. */
  const SIGNED := -1
  const UNSIGNED := 0

  /** What the parser stores for an operand. */
  datatype Constant = Constant(value: int, signedp: int)

  datatype BinOp = Mul | Div | Mod | Add | Sub | Lsh | Rsh
                 | Equal | NotEqual | Leq | Geq | Less | Greater
                 | And | Xor | Or

  datatype Expr =
    | Num(c: Constant)
    | Name(id: string)
    | Neg(e: Expr)
    | Not(e: Expr)
    | Plus(e: Expr)
    | Compl(e: Expr)
    | Bin(op: BinOp, l: Expr, r: Expr)
    | LogAnd(l: Expr, r: Expr)
    | LogOr(l: Expr, r: Expr)
    | Cond(c0: Expr, l: Expr, r: Expr)
    | Comma(l: Expr, r: Expr)

  datatype Diag = DivisionByZero | IntegerOverflow | NotDefined(id: string) | CommaOperator

  datatype Options = Options(w: nat, pedantic: bool, warnUndef: bool) {
    predicate Valid() { w >= 2 }
  }

  /** Every constant token fits the width; the lexer guarantees it. */
  predicate WellFormed(w: nat, e: Expr)
    requires w >= 1
  {
    match e
    case Num(c) => Proper(w, c)
    case Name(_) => true
    case Neg(x) => WellFormed(w, x)
    case Not(x) => WellFormed(w, x)
    case Plus(x) => WellFormed(w, x)
    case Compl(x) => WellFormed(w, x)
    case Bin(_, l, r) => WellFormed(w, l) && WellFormed(w, r)
    case LogAnd(l, r) => WellFormed(w, l) && WellFormed(w, r)
    case LogOr(l, r) => WellFormed(w, l) && WellFormed(w, r)
    case Cond(c, l, r) => WellFormed(w, c) && WellFormed(w, l) && WellFormed(w, r)
    case Comma(l, r) => WellFormed(w, l) && WellFormed(w, r)
  }

  predicate Proper(w: nat, c: Constant)
    requires w >= 1
  {
    Fits(w, c.value) && (c.signedp == SIGNED || c.signedp == UNSIGNED)
  }

  // ---------------------------------------------------------------------------------------
  // Reference semantics: mathematical values with a type

  /** A value of intmax_t (signed) or uintmax_t. */
  datatype Typed = Typed(v: int, signed: bool)

  function Mean(w: nat, c: Constant): (t: Typed)
  {
    if c.signedp == SIGNED then Typed(c.value, true) else Typed(Unsigned(w, c.value), false)
  }

  /** Bring an exact result into the type: unsigned arithmetic is modular, and a signed result
      that does not fit wraps around (and is diagnosed). */
  function Norm(w: nat, signed: bool, exact: int): (t: Typed)
    requires w >= 1
  {
    if signed then Typed(Wrap(w, exact), true) else Typed(Unsigned(w, exact), false)
  }

  /** The usual arithmetic conversions, 6.3.1.8: an operand taken to the common type. */
  function Convert(w: nat, signed: bool, t: Typed): int
  {
    if signed then t.v else Unsigned(w, t.v)
  }

  function Truth(b: bool): Typed { Typed(if b then 1 else 0, true) }

  /** v * 2^n, rounded down when n is negative. */
  function Scale(v: int, n: int): int
  {
    if n >= 0 then ShiftUp(v, n) else ShiftDown(v, -n)
  }

  /** The exact result of an arithmetic operator, before it is brought into its type. A zero
      divisor is diagnosed and counts as 1. */
  function Exact(op: BinOp, p: int, q: int): int
    requires op.Mul? || op.Div? || op.Mod? || op.Add? || op.Sub? || op.And? || op.Xor? || op.Or?
  {
    match op
    case Mul => p * q
    case Div => TruncDiv(p, if q == 0 then 1 else q)
    case Mod => TruncRem(p, if q == 0 then 1 else q)
    case Add => p + q
    case Sub => p - q
    case And => BitAnd(p, q)
    case Xor => BitXor(p, q)
    case Or => BitOr(p, q)
  }

  function RefBin(w: nat, op: BinOp, x: Typed, y: Typed): (t: Typed)
    requires w >= 1
  {
    var s := x.signed && y.signed;
    var p, q := Convert(w, s, x), Convert(w, s, y);
    match op
    case Lsh => Norm(w, x.signed, Scale(x.v, y.v))
    case Rsh => Norm(w, x.signed, Scale(x.v, -y.v))
    case Equal => Truth(p == q)
    case NotEqual => Truth(p != q)
    case Leq => Truth(p <= q)
    case Geq => Truth(p >= q)
    case Less => Truth(p < q)
    case Greater => Truth(p > q)
    case _ => Norm(w, s, Exact(op, p, q))
  }

  function Ref(w: nat, e: Expr): (t: Typed)
    requires w >= 1
  {
    match e
    case Num(c) => Mean(w, c)
    case Name(_) => Typed(0, true)
    case Neg(x) => Norm(w, Ref(w, x).signed, -Ref(w, x).v)
    case Not(x) => Truth(Ref(w, x).v == 0)
    case Plus(x) => Ref(w, x)
    case Compl(x) => Norm(w, Ref(w, x).signed, BitNot(Ref(w, x).v))
    case Bin(op, l, r) => RefBin(w, op, Ref(w, l), Ref(w, r))
    case LogAnd(l, r) => if Ref(w, l).v == 0 then Truth(false) else Truth(Ref(w, r).v != 0)
    case LogOr(l, r) => if Ref(w, l).v != 0 then Truth(true) else Truth(Ref(w, r).v != 0)
    case Cond(c, l, r) =>
      var s := Ref(w, l).signed && Ref(w, r).signed;
      Typed(Convert(w, s, if Ref(w, c).v != 0 then Ref(w, l) else Ref(w, r)), s)
    case Comma(_, r) => Ref(w, r)
  }

  function Note(b: bool, d: Diag): seq<Diag> { if b then [d] else [] }

  function BinDiags(o: Options, op: BinOp, x: Typed, y: Typed): seq<Diag>
    requires o.Valid()
  {
    var s := x.signed && y.signed;
    var p, q := Convert(o.w, s, x), Convert(o.w, s, y);
    match op
    case Mod => Note(y.v == 0, DivisionByZero)
    case Div => Note(y.v == 0, DivisionByZero) + Note(o.pedantic && s && !Fits(o.w, Exact(Div, p, q)), IntegerOverflow)
    case Mul => Note(o.pedantic && s && !Fits(o.w, p * q), IntegerOverflow)
    case Add => Note(o.pedantic && s && !Fits(o.w, p + q), IntegerOverflow)
    case Sub => Note(o.pedantic && s && !Fits(o.w, p - q), IntegerOverflow)
    case _ => []
  }

  /** What has to be diagnosed in e. A part that the short-circuit rules of 6.5.13 to 6.5.15
      leave unevaluated is not live and yields nothing but the syntactic comma warning. */
  function Diags(o: Options, e: Expr, live: bool): (ds: seq<Diag>)
    requires o.Valid()
  {
    var w := o.w;
    match e
    case Num(_) => []
    case Name(id) => Note(o.warnUndef && live, NotDefined(id))
    case Neg(x) => Diags(o, x, live)
      + Note(live && o.pedantic && Ref(w, x).signed && !Fits(w, -Ref(w, x).v), IntegerOverflow)
    case Not(x) => Diags(o, x, live)
    case Plus(x) => Diags(o, x, live)
    case Compl(x) => Diags(o, x, live)
    case Bin(op, l, r) => Diags(o, l, live) + Diags(o, r, live)
      + (if live then BinDiags(o, op, Ref(w, l), Ref(w, r)) else [])
    case LogAnd(l, r) => Diags(o, l, live) + Diags(o, r, live && Ref(w, l).v != 0)
    case LogOr(l, r) => Diags(o, l, live) + Diags(o, r, live && Ref(w, l).v == 0)
    case Cond(c, l, r) =>
      var taken := Ref(w, c).v != 0;
      Diags(o, c, live) + Diags(o, l, live && taken) + Diags(o, r, live && !taken)
    case Comma(l, r) => Diags(o, l, live) + Diags(o, r, live) + Note(o.pedantic, CommaOperator)
  }

  /** The evaluator of a strictly conforming program: it stops at a division by zero, and it
      never looks at an operand that is not selected. */
  datatype Outcome = Value(t: Typed) | DividedByZero

  function Strict(w: nat, e: Expr): Outcome
    requires w >= 1
  {
    match e
    case Num(c) => Value(Mean(w, c))
    case Name(_) => Value(Typed(0, true))
    case Neg(x) => (match Strict(w, x)
      case Value(t) => Value(Norm(w, t.signed, -t.v))
      case DividedByZero => DividedByZero)
    case Not(x) => (match Strict(w, x)
      case Value(t) => Value(Truth(t.v == 0))
      case DividedByZero => DividedByZero)
    case Plus(x) => Strict(w, x)
    case Compl(x) => (match Strict(w, x)
      case Value(t) => Value(Norm(w, t.signed, BitNot(t.v)))
      case DividedByZero => DividedByZero)
    case Bin(op, l, r) => (match (Strict(w, l), Strict(w, r))
      case (Value(x), Value(y)) =>
        if (op.Div? || op.Mod?) && y.v == 0 then DividedByZero else Value(RefBin(w, op, x, y))
      case _ => DividedByZero)
    case LogAnd(l, r) => (match Strict(w, l)
      case Value(x) => if x.v == 0 then Value(Truth(false)) else (match Strict(w, r)
        case Value(y) => Value(Truth(y.v != 0))
        case DividedByZero => DividedByZero)
      case DividedByZero => DividedByZero)
    case LogOr(l, r) => (match Strict(w, l)
      case Value(x) => if x.v != 0 then Value(Truth(true)) else (match Strict(w, r)
        case Value(y) => Value(Truth(y.v != 0))
        case DividedByZero => DividedByZero)
      case DividedByZero => DividedByZero)
    case Cond(c, l, r) => (match Strict(w, c)
      case Value(x) =>
        // the type of a conditional depends on both arms, its value on one
        var s := Ref(w, l).signed && Ref(w, r).signed;
        (match Strict(w, if x.v != 0 then l else r)
         case Value(y) => Value(Typed(Convert(w, s, y), s))
         case DividedByZero => DividedByZero)
      case DividedByZero => DividedByZero)
    case Comma(l, r) => (match Strict(w, l)
      case Value(_) => Strict(w, r)
      case DividedByZero => DividedByZero)
  }

  /** The diagnostics contain a division by zero exactly when the strict evaluator meets one,
      and otherwise the two evaluators agree. */
  lemma {:induction false} DivisionDiagnosedIffPerformed(o: Options, e: Expr)
    requires o.Valid()
    ensures DivisionByZero in Diags(o, e, true) <==> Strict(o.w, e) == DividedByZero
    ensures DivisionByZero !in Diags(o, e, true) ==> Strict(o.w, e) == Value(Ref(o.w, e))
    decreases e, 1
  {
    match e
    case Num(_) =>
    case Name(_) =>
    case Neg(x) => DivisionDiagnosedIffPerformed(o, x);
    case Not(x) => DivisionDiagnosedIffPerformed(o, x);
    case Plus(x) => DivisionDiagnosedIffPerformed(o, x);
    case Compl(x) => DivisionDiagnosedIffPerformed(o, x);
    case Bin(_, _, _) => DivisionInBinary(o, e);
    case LogAnd(l, r) =>
      DivisionDiagnosedIffPerformed(o, l);
      DivisionDiagnosedIffPerformed(o, r);
      DeadCodeIsQuiet(o, r);
    case LogOr(l, r) =>
      DivisionDiagnosedIffPerformed(o, l);
      DivisionDiagnosedIffPerformed(o, r);
      DeadCodeIsQuiet(o, r);
    case Cond(_, _, _) => DivisionInConditional(o, e);
    case Comma(l, r) =>
      DivisionDiagnosedIffPerformed(o, l);
      DivisionDiagnosedIffPerformed(o, r);
  }

  lemma {:induction false} DivisionInBinary(o: Options, e: Expr)
    requires o.Valid() && e.Bin?
    ensures DivisionByZero in Diags(o, e, true) <==> Strict(o.w, e) == DividedByZero
    ensures DivisionByZero !in Diags(o, e, true) ==> Strict(o.w, e) == Value(Ref(o.w, e))
    decreases e, 0
  {
    DivisionDiagnosedIffPerformed(o, e.l);
    DivisionDiagnosedIffPerformed(o, e.r);
  }

  lemma {:induction false} DivisionInConditional(o: Options, e: Expr)
    requires o.Valid() && e.Cond?
    ensures DivisionByZero in Diags(o, e, true) <==> Strict(o.w, e) == DividedByZero
    ensures DivisionByZero !in Diags(o, e, true) ==> Strict(o.w, e) == Value(Ref(o.w, e))
    decreases e, 0
  {
    DivisionDiagnosedIffPerformed(o, e.c0);
    DivisionDiagnosedIffPerformed(o, e.l);
    DivisionDiagnosedIffPerformed(o, e.r);
    DeadCodeIsQuiet(o, e.l);
    DeadCodeIsQuiet(o, e.r);
  }

  /** An unselected operand produces no diagnostic but the comma warning. */
  lemma {:induction false} DeadCodeIsQuiet(o: Options, e: Expr)
    requires o.Valid()
    ensures forall d :: d in Diags(o, e, false) ==> d == CommaOperator
  {
    match e
    case Num(_) =>
    case Name(_) =>
    case Neg(x) => DeadCodeIsQuiet(o, x);
    case Not(x) => DeadCodeIsQuiet(o, x);
    case Plus(x) => DeadCodeIsQuiet(o, x);
    case Compl(x) => DeadCodeIsQuiet(o, x);
    case Bin(_, l, r) => DeadCodeIsQuiet(o, l); DeadCodeIsQuiet(o, r);
    case LogAnd(l, r) => DeadCodeIsQuiet(o, l); DeadCodeIsQuiet(o, r);
    case LogOr(l, r) => DeadCodeIsQuiet(o, l); DeadCodeIsQuiet(o, r);
    case Cond(c, l, r) => DeadCodeIsQuiet(o, c); DeadCodeIsQuiet(o, l); DeadCodeIsQuiet(o, r);
    case Comma(l, r) => DeadCodeIsQuiet(o, l); DeadCodeIsQuiet(o, r);
  }

  // ---------------------------------------------------------------------------------------
  // The actions compute on stored values; the lemmas relate them to the reference

  /** The overflow_sum_sign macro. */
  predicate OverflowSumSign(a: int, b: int, sum: int, signedp: int)
  {
    BitAnd(BitAnd(BitNot(BitXor(a, b)), BitXor(a, sum)), signedp) < 0
  }

  lemma SumSignMeaning(a: int, b: int, sum: int, signedp: int)
    ensures OverflowSumSign(a, b, sum, signedp) <==>
            (a < 0 <==> b < 0) && (a < 0 <==> sum >= 0) && signedp < 0
  {
  }

  /** The sign test is exact: it fires just when the exact sum does not fit. */
  lemma SumSignIsExact(w: nat, a: int, b: int, sum: int, signedp: int)
    requires w >= 1 && Fits(w, a) && Fits(w, b) && (signedp == SIGNED || signedp == UNSIGNED)
    requires sum == Wrap(w, a + b)
    ensures OverflowSumSign(a, b, sum, signedp) <==> signedp == SIGNED && !Fits(w, a + b)
  {
    SumSignMeaning(a, b, sum, signedp);
    OneTurn(w, a + b);
  }

  /** Used the other way round, it decides whether the exact difference fits. */
  lemma DifferenceSignIsExact(w: nat, a: int, b: int, difference: int, signedp: int)
    requires w >= 1 && Fits(w, a) && Fits(w, b) && (signedp == SIGNED || signedp == UNSIGNED)
    requires difference == Wrap(w, a - b)
    ensures OverflowSumSign(difference, b, a, signedp) <==> signedp == SIGNED && !Fits(w, a - b)
  {
    SumSignMeaning(difference, b, a, signedp);
    OneTurn(w, a - b);
  }

  /** The test made after a signed multiplication: the quotient by the first factor must give
      back the second, and three negative numbers betray MIN / -1. */
  predicate MulOverflow(w: nat, a: int, b: int, value: int)
    requires w >= 1
  {
    a != 0 && (Wrap(w, TruncDiv(value, a)) != b || BitAnd(BitAnd(value, a), b) < 0)
  }

  lemma MulOverflowIsExact(w: nat, a: int, b: int)
    requires w >= 1 && Fits(w, a) && Fits(w, b)
    ensures MulOverflow(w, a, b, Wrap(w, a * b)) <==> !Fits(w, a * b)
  {
    if a != 0 {
      ExactQuotient(a, b);
      SignOfProduct(a, b);
      if Fits(w, a * b) { FitsUnsigned(w, a * b); } else { WrappedProductDiffers(w, a, b); }
      MulTestDecides(w, a, b, a * b, Wrap(w, a * b));
    }
  }

  lemma MulTestDecides(w: nat, a: int, b: int, p: int, value: int)
    requires w >= 1 && Fits(w, a) && Fits(w, b) && Fits(w, value) && a != 0
    requires TruncDiv(p, a) == b && (a < 0 && b < 0 ==> p >= 0)
    requires if Fits(w, p) then value == p else TruncDiv(value, a) != b
    ensures MulOverflow(w, a, b, value) <==> !Fits(w, p)
  {
    FitsUnsigned(w, b);
    OnlyMinOverMinusOne(w, value, a);
    if Fits(w, TruncDiv(value, a)) { FitsUnsigned(w, TruncDiv(value, a)); }
  }

  /** The remainder of the wrapped product would be a non-zero multiple of the modulus. */
  lemma WrappedProductDiffers(w: nat, a: int, b: int)
    requires w >= 1 && Fits(w, a) && a != 0 && !Fits(w, a * b)
    ensures TruncDiv(Wrap(w, a * b), a) != b
  {
    var k := WrapMultiple(w, a * b);
    if k >= 1 { MulMono(Pow2(w), 1, k); }
    if k <= -1 { MulMono(Pow2(w), k, -1); }
    TruncDivLaw(Wrap(w, a * b), a);
    SignOfProduct(a, b);
    SignOfProduct(k, Pow2(w));
  }

  /** The one quotient of two stored values that does not fit. */
  lemma OnlyMinOverMinusOne(w: nat, a: int, b: int)
    requires w >= 1 && Fits(w, a) && Fits(w, b) && b != 0
    ensures !Fits(w, TruncDiv(a, b)) <==> a == -Pow2(w - 1) && b == -1
    ensures !Fits(w, TruncDiv(a, b)) ==> Wrap(w, TruncDiv(a, b)) == a
    ensures BitAnd(BitAnd(Wrap(w, TruncDiv(a, b)), a), b) < 0 <==> !Fits(w, TruncDiv(a, b))
  {
    if Fits(w, TruncDiv(a, b)) { FitsUnsigned(w, TruncDiv(a, b)); }
    if b == -1 {
      NatDivByOne(Abs(a));
      OneTurn(w, -a);
    }
  }

  // ---------------------------------------------------------------------------------------
  // Shifts

  function LeftShift(w: nat, a: Constant, b: nat): (r: int)
    requires w >= 1
  {
    if b >= w then 0 else Wrap(w, ShiftUp(Unsigned(w, a.value), b))
  }

  function RightShift(w: nat, a: Constant, b: nat): (r: int)
    requires w >= 1
  {
    if b >= w then (if a.signedp != UNSIGNED then ShiftDown(a.value, w - 1) else 0)
    else if a.signedp != UNSIGNED then ShiftDown(a.value, b)
    else Wrap(w, ShiftDown(Unsigned(w, a.value), b))
  }

  /** A stored constant and its typed value have the same bits. */
  lemma ProperMean(w: nat, c: Constant)
    requires w >= 1 && Proper(w, c)
    ensures var t := Mean(w, c); Unsigned(w, t.v) == Unsigned(w, c.value) && (t.v == 0 <==> c.value == 0)
  {
    FitsUnsigned(w, c.value);
    WrapUnsigned(w, c.value);
  }

  /** Shifting left multiplies by 2^b in the type of a, whatever the count. */
  lemma LeftShiftScales(w: nat, a: Constant, b: nat)
    requires w >= 1 && Proper(w, a)
    ensures Fits(w, LeftShift(w, a, b))
    ensures Mean(w, Constant(LeftShift(w, a, b), a.signedp))
         == Norm(w, a.signedp == SIGNED, ShiftUp(Mean(w, a).v, b)) ==
             Norm(w, a.signedp == SIGNED, Mean(w, a).v * Pow2(b))
  {
    ShiftUpIsProduct(Mean(w, a).v, b);
    FitsUnsigned(w, 0);
    if b >= w {
      ShiftUpVanishes(w, Mean(w, a).v, b);
    } else {
      ProperMean(w, a);
      WrapUnsigned(w, a.value);
      ShiftUpLow(w, Mean(w, a).v, Unsigned(w, a.value), b);
      WrapUnsigned(w, ShiftUp(Unsigned(w, a.value), b));
    }
  }

  /** Shifting right divides by 2^b and rounds down, whatever the count. */
  lemma RightShiftScales(w: nat, a: Constant, b: nat)
    requires w >= 1 && Proper(w, a)
    ensures Fits(w, RightShift(w, a, b))
    ensures Mean(w, Constant(RightShift(w, a, b), a.signedp))
         == Norm(w, a.signedp == SIGNED, ShiftDown(Mean(w, a).v, b))
    ensures var v, q := Mean(w, a).v, ShiftDown(Mean(w, a).v, b); q * Pow2(b) <= v < q * Pow2(b) + Pow2(b)
  {
    ShiftDownIsFloor(Mean(w, a).v, b);
    FitsUnsigned(w, 0);
    if a.signedp == SIGNED {
      FitsUnsigned(w, ShiftDown(a.value, b));
      if b >= w {
        Pow2Grows(w - 1, b);
        ShiftDownVanishes(a.value, w - 1);
        ShiftDownVanishes(a.value, b);
      }
    } else {
      var u := Unsigned(w, a.value);
      SmallUnsigned(w, ShiftDown(u, b));
      if b >= w {
        Pow2Grows(w, b);
        ShiftDownVanishes(u, b);
      } else {
        WrapUnsigned(w, ShiftDown(u, b));
      }
    }
  }

  lemma ShiftMeaning(w: nat, op: BinOp, a: Constant, n: Typed, count: nat, left: bool)
    requires w >= 1 && Proper(w, a) && (op == Lsh || op == Rsh)
    requires count == Abs(n.v) && left == ((op == Lsh) != (n.v < 0))
    ensures var c := Constant(if left then LeftShift(w, a, count) else RightShift(w, a, count), a.signedp);
            Proper(w, c) && Mean(w, c) == RefBin(w, op, Mean(w, a), n)
  {
    LeftShiftScales(w, a, count);
    RightShiftScales(w, a, count);
  }

  /** Division of stored operands, by a divisor that has been checked. */
  function Quotient(w: nat, a: Constant, b: Constant): Constant
    requires w >= 1 && Proper(w, a) && Proper(w, b) && b.value != 0
  {
    FitsUnsigned(w, b.value);
    var signedp := BitAnd(a.signedp, b.signedp);
    if signedp != UNSIGNED then Constant(Wrap(w, TruncDiv(a.value, b.value)), signedp)
    else Constant(Wrap(w, NatDiv(Unsigned(w, a.value), Unsigned(w, b.value))), signedp)
  }

  function Remainder(w: nat, a: Constant, b: Constant): Constant
    requires w >= 1 && Proper(w, a) && Proper(w, b) && b.value != 0
  {
    FitsUnsigned(w, b.value);
    var signedp := BitAnd(a.signedp, b.signedp);
    if signedp != UNSIGNED then Constant(TruncRem(a.value, b.value), signedp)
    else Constant(Wrap(w, NatMod(Unsigned(w, a.value), Unsigned(w, b.value))), signedp)
  }

  /** b is the divisor with zero replaced by one. */
  predicate Checked(w: nat, divisor: Constant, b: Constant)
    requires w >= 1
  {
    Proper(w, divisor) && Proper(w, b) && b == (if divisor.value == 0 then Constant(1, divisor.signedp) else divisor)
  }

  lemma DivisorValue(w: nat, s: bool, divisor: Constant, b: Constant)
    requires w >= 2 && Checked(w, divisor, b) && (s ==> divisor.signedp == SIGNED)
    ensures var q := Convert(w, s, Mean(w, divisor));
            (if q == 0 then 1 else q) == (if s then b.value else Unsigned(w, b.value))
  {
    FitsUnsigned(w, divisor.value);
    FitsUnsigned(w, b.value);
    WrapUnsigned(w, divisor.value);
  }

  lemma QuotientMeaning(w: nat, a: Constant, divisor: Constant, b: Constant)
    requires w >= 2 && Proper(w, a) && Checked(w, divisor, b)
    ensures var c := Quotient(w, a, b);
            var s := Mean(w, a).signed && Mean(w, divisor).signed;
            && Proper(w, c) && Mean(w, c) == RefBin(w, Div, Mean(w, a), Mean(w, divisor))
            && (c.signedp != UNSIGNED <==> s)
            && (s ==> (BitAnd(BitAnd(c.value, a.value), b.value) < 0 <==>
                       !Fits(w, Exact(Div, Convert(w, s, Mean(w, a)), Convert(w, s, Mean(w, divisor))))))
  {
    var s := Mean(w, a).signed && Mean(w, divisor).signed;
    CommonType(w, a, divisor);
    DivisorValue(w, s, divisor, b);
    if s {
      OnlyMinOverMinusOne(w, a.value, b.value);
    } else {
      WrapUnsigned(w, NatDiv(Unsigned(w, a.value), Unsigned(w, b.value)));
    }
  }

  lemma RemainderMeaning(w: nat, a: Constant, divisor: Constant, b: Constant)
    requires w >= 2 && Proper(w, a) && Checked(w, divisor, b)
    ensures var c := Remainder(w, a, b);
            Proper(w, c) && Mean(w, c) == RefBin(w, Mod, Mean(w, a), Mean(w, divisor))
  {
    var s := Mean(w, a).signed && Mean(w, divisor).signed;
    CommonType(w, a, divisor);
    DivisorValue(w, s, divisor, b);
    if s {
      FitsUnsigned(w, TruncRem(a.value, b.value));
    } else {
      WrapUnsigned(w, NatMod(Unsigned(w, a.value), Unsigned(w, b.value)));
    }
  }

  // ---------------------------------------------------------------------------------------
  // The parser's state and its actions

  class ExprParser {
    const o: Options
    const w: nat
    var skipEvaluation: int
    var log: seq<Diag>

    constructor (o: Options)
      requires o.Valid()
      ensures this.o == o && w == o.w && skipEvaluation == 0 && log == []
    {
      this.o := o;
      w := o.w;
      skipEvaluation := 0;
      log := [];
    }

    predicate Valid()
    {
      o.Valid() && w == o.w
    }

    ghost predicate Live()
      reads this
    {
      skipEvaluation == 0
    }

    /** error () and the two guarded warnings. */
    method Report(d: Diag)
      modifies this`log
      ensures log == old(log) + [d]
    {
      log := log + [d];
    }

    method IntegerOverflow()
      modifies this`log
      ensures log == old(log) + Note(Live() && o.pedantic, DiagOverflow())
    {
      if skipEvaluation == 0 && o.pedantic { Report(Diag.IntegerOverflow); }
    }

    static function DiagOverflow(): Diag { Diag.IntegerOverflow }

    method NegAction(a: Constant) returns (c: Constant)
      requires Valid() && Proper(w, a)
      modifies this`log
      ensures Proper(w, c) && Mean(w, c) == Norm(w, Mean(w, a).signed, -Mean(w, a).v)
      ensures log == old(log) + Note(Live() && o.pedantic && Mean(w, a).signed &&
          !Fits(w, -Mean(w, a).v), DiagOverflow())
    {
      c := Constant(Wrap(w, -a.value), a.signedp);
      NegationMeaning(w, a);
      NegationOverflow(w, a);
      assert Proper(w, c);
      if NegOverflow(c, a) { IntegerOverflow(); }
    }

    method ComplAction(a: Constant) returns (c: Constant)
      requires Valid() && Proper(w, a)
      ensures Proper(w, c) && Mean(w, c) == Norm(w, Mean(w, a).signed, BitNot(Mean(w, a).v))
    {
      c := Constant(BitNot(a.value), a.signedp);
      FitsUnsigned(w, c.value);
      WrapUnsigned(w, a.value);
      NotCongruent(w, a.value, Unsigned(w, a.value));
    }

    method MulAction(a: Constant, b: Constant) returns (c: Constant)
      requires Valid() && Proper(w, a) && Proper(w, b)
      modifies this`log
      ensures Proper(w, c) && Mean(w, c) == RefBin(w, Mul, Mean(w, a), Mean(w, b))
      ensures log == old(log) + (if Live() then BinDiags(o, Mul, Mean(w, a), Mean(w, b)) else [])
    {
      var signedp := BitAnd(a.signedp, b.signedp);
      CommonType(w, a, b);
      if signedp != UNSIGNED {
        c := Constant(Wrap(w, a.value * b.value), signedp);
        MulOverflowIsExact(w, a.value, b.value);
        if MulOverflow(w, a.value, b.value, c.value) { IntegerOverflow(); }
      } else {
        c := Constant(Wrap(w, Unsigned(w, a.value) * Unsigned(w, b.value)), signedp);
        WrapUnsigned(w, Unsigned(w, a.value) * Unsigned(w, b.value));
      }
    }

    method DivAction(a: Constant, divisor: Constant) returns (c: Constant)
      requires Valid() && Proper(w, a) && Proper(w, divisor)
      modifies this`log
      ensures Proper(w, c) && Mean(w, c) == RefBin(w, Div, Mean(w, a), Mean(w, divisor))
      ensures log == old(log) + (if Live() then BinDiags(o, Div, Mean(w, a), Mean(w, divisor)) else [])
    {
      var b := CheckDivisor(divisor);
      c := Quotient(w, a, b);
      QuotientMeaning(w, a, divisor, b);
      if c.signedp != UNSIGNED && BitAnd(BitAnd(c.value, a.value), b.value) < 0 { IntegerOverflow(); }
    }

    /** Report a zero divisor unless the operand is skipped, and carry on with 1. */
    method CheckDivisor(divisor: Constant) returns (b: Constant)
      requires Valid() && Proper(w, divisor)
      modifies this`log
      ensures Checked(w, divisor, b)
      ensures log == old(log) + Note(Live() && Mean(w, divisor).v == 0, DivisionByZero)
    {
      b := divisor;
      ProperMean(w, divisor);
      if divisor.value == 0 {
        if skipEvaluation == 0 { Report(DivisionByZero); }
        b := Constant(1, divisor.signedp);
        assert Pow2(w - 1) == 2 * Pow2(w - 2);
      }
    }

    method ModAction(a: Constant, divisor: Constant) returns (c: Constant)
      requires Valid() && Proper(w, a) && Proper(w, divisor)
      modifies this`log
      ensures Proper(w, c) && Mean(w, c) == RefBin(w, Mod, Mean(w, a), Mean(w, divisor))
      ensures log == old(log) + (if Live() then BinDiags(o, Mod, Mean(w, a), Mean(w, divisor)) else [])
    {
      var b := CheckDivisor(divisor);
      c := Remainder(w, a, b);
      RemainderMeaning(w, a, divisor, b);
    }

    method AddAction(a: Constant, b: Constant) returns (c: Constant)
      requires Valid() && Proper(w, a) && Proper(w, b)
      modifies this`log
      ensures Proper(w, c) && Mean(w, c) == RefBin(w, Add, Mean(w, a), Mean(w, b))
      ensures log == old(log) + (if Live() then BinDiags(o, Add, Mean(w, a), Mean(w, b)) else [])
    {
      c := Constant(Wrap(w, a.value + b.value), BitAnd(a.signedp, b.signedp));
      AddMeaning(w, a, b, c);
      AddOverflow(w, a, b, c.value, c.signedp);
      if OverflowSumSign(a.value, b.value, c.value, c.signedp) { IntegerOverflow(); }
    }

    method SubAction(a: Constant, b: Constant) returns (c: Constant)
      requires Valid() && Proper(w, a) && Proper(w, b)
      modifies this`log
      ensures Proper(w, c) && Mean(w, c) == RefBin(w, Sub, Mean(w, a), Mean(w, b))
      ensures log == old(log) + (if Live() then BinDiags(o, Sub, Mean(w, a), Mean(w, b)) else [])
    {
      c := Constant(Wrap(w, a.value - b.value), BitAnd(a.signedp, b.signedp));
      SubMeaning(w, a, b, c);
      SubOverflow(w, a, b, c.value, c.signedp);
      if OverflowSumSign(c.value, b.value, a.value, c.signedp) { IntegerOverflow(); }
    }

    method ShiftAction(op: BinOp, a: Constant, b: Constant) returns (c: Constant)
      requires Valid() && Proper(w, a) && Proper(w, b) && (op == Lsh || op == Rsh)
      ensures Proper(w, c) && Mean(w, c) == RefBin(w, op, Mean(w, a), Mean(w, b))
    {
      var back := BitAnd(b.value, b.signedp) < 0;
      // a negative count is negated and read as unsigned; so is a non-negative one
      var count := Unsigned(w, if back then Wrap(w, -b.value) else b.value);
      CountIsExact(w, b);
      var left := (op == Lsh) != back;
      c := Constant(if left then LeftShift(w, a, count) else RightShift(w, a, count), a.signedp);
      ShiftMeaning(w, op, a, Mean(w, b), count, left);
    }

    method CompareAction(op: BinOp, a: Constant, b: Constant) returns (c: Constant)
      requires Valid() && Proper(w, a) && Proper(w, b)
      requires op in {Equal, NotEqual, Leq, Geq, Less, Greater}
      ensures Proper(w, c) && Mean(w, c) == RefBin(w, op, Mean(w, a), Mean(w, b))
    {
      CommonType(w, a, b);
      UnsignedIsInjective(w, a.value, b.value);
      var p, q := a.value, b.value;
      if BitAnd(a.signedp, b.signedp) == UNSIGNED && op != Equal && op != NotEqual {
        p, q := Unsigned(w, a.value), Unsigned(w, b.value);
      }
      var holds := match op
        case Equal => p == q
        case NotEqual => p != q
        case Leq => p <= q
        case Geq => p >= q
        case Less => p < q
        case _ => p > q;
      assert Pow2(w - 1) == 2 * Pow2(w - 2);
      c := Constant(if holds then 1 else 0, SIGNED);
    }

    method BitAction(op: BinOp, a: Constant, b: Constant) returns (c: Constant)
      requires Valid() && Proper(w, a) && Proper(w, b) && op in {And, Xor, Or}
      ensures Proper(w, c) && Mean(w, c) == RefBin(w, op, Mean(w, a), Mean(w, b))
    {
      CommonType(w, a, b);
      BitOpsFit(w, a.value, b.value);
      BitOpsLow(w, a.value, b.value);
      var value := match op
        case And => BitAnd(a.value, b.value)
        case Xor => BitXor(a.value, b.value)
        case _ => BitOr(a.value, b.value);
      FitsUnsigned(w, value);
      c := Constant(value, BitAnd(a.signedp, b.signedp));
    }

    method Binary(op: BinOp, a: Constant, b: Constant) returns (c: Constant)
      requires Valid() && Proper(w, a) && Proper(w, b)
      modifies this`log
      ensures Proper(w, c) && Mean(w, c) == RefBin(w, op, Mean(w, a), Mean(w, b))
      ensures log == old(log) + (if Live() then BinDiags(o, op, Mean(w, a), Mean(w, b)) else [])
    {
      match op {
        case Mul => c := MulAction(a, b);
        case Div => c := DivAction(a, b);
        case Mod => c := ModAction(a, b);
        case Add => c := AddAction(a, b);
        case Sub => c := SubAction(a, b);
        case Lsh => c := ShiftAction(op, a, b);
        case Rsh => c := ShiftAction(op, a, b);
        case And => c := BitAction(op, a, b);
        case Xor => c := BitAction(op, a, b);
        case Or => c := BitAction(op, a, b);
        case _ => c := CompareAction(op, a, b);
      }
    }

    /** Reduce a whole tree. The actions between the operands of &&, || and ?: raise
        skip_evaluation around the operand that is not selected and lower it afterwards. */
    method Eval(e: Expr) returns (c: Constant)
      requires Valid() && WellFormed(w, e) && skipEvaluation >= 0
      modifies this
      ensures skipEvaluation == old(skipEvaluation)
      ensures Proper(w, c) && Mean(w, c) == Ref(w, e)
      ensures log == old(log) + Diags(o, e, Live())
      decreases e, 1
    {
      assert Pow2(w - 1) == 2 * Pow2(w - 2);
      match e {
        case Num(k) => c := k;
        case Name(id) =>
          if o.warnUndef && skipEvaluation == 0 { Report(NotDefined(id)); }
          c := Constant(0, SIGNED);
        case Neg(x) => c := EvalNeg(e);
        case Not(x) => c := EvalNot(e);
        case Plus(x) => c := Eval(x);
        case Compl(x) =>
          var a := Eval(x);
          c := ComplAction(a);
        case Bin(op, l, r) => c := EvalBin(e);
        case LogAnd(l, r) => c := EvalAnd(e);
        case LogOr(l, r) => c := EvalOr(e);
        case Cond(q, l, r) => c := EvalCond(e);
        case Comma(l, r) => c := EvalComma(e);
      }
    }

    method EvalNot(e: Expr) returns (c: Constant)
      requires e.Not?
      requires Valid() && WellFormed(w, e) && skipEvaluation >= 0
      modifies this
      ensures skipEvaluation == old(skipEvaluation)
      ensures Proper(w, c) && Mean(w, c) == Ref(w, e)
      ensures log == old(log) + Diags(o, e, Live())
      decreases e, 0
    {
      assert Pow2(w - 1) == 2 * Pow2(w - 2);
      var a := Eval(e.e);
      ProperMean(w, a);
      c := Constant(ToInt(a.value == 0), SIGNED);
    }

    method EvalNeg(e: Expr) returns (c: Constant)
      requires e.Neg?
      requires Valid() && WellFormed(w, e) && skipEvaluation >= 0
      modifies this
      ensures skipEvaluation == old(skipEvaluation)
      ensures Proper(w, c) && Mean(w, c) == Ref(w, e)
      ensures log == old(log) + Diags(o, e, Live())
      decreases e, 0
    {
      var a := Eval(e.e);
      c := NegAction(a);
    }

    method EvalComma(e: Expr) returns (c: Constant)
      requires e.Comma?
      requires Valid() && WellFormed(w, e) && skipEvaluation >= 0
      modifies this
      ensures skipEvaluation == old(skipEvaluation)
      ensures Proper(w, c) && Mean(w, c) == Ref(w, e)
      ensures log == old(log) + Diags(o, e, Live())
      decreases e, 0
    {
      var a := Eval(e.l);
      c := Eval(e.r);
      if o.pedantic { Report(CommaOperator); }
      Concat4(old(log), Diags(o, e.l, Live()), Diags(o, e.r, Live()), Note(o.pedantic, CommaOperator));
    }

    method EvalBin(e: Expr) returns (c: Constant)
      requires e.Bin?
      requires Valid() && WellFormed(w, e) && skipEvaluation >= 0
      modifies this
      ensures skipEvaluation == old(skipEvaluation)
      ensures Proper(w, c) && Mean(w, c) == Ref(w, e)
      ensures log == old(log) + Diags(o, e, Live())
      decreases e, 0
    {
      var a := Eval(e.l);
      var b := Eval(e.r);
      c := Binary(e.op, a, b);
      Concat4(old(log), Diags(o, e.l, Live()), Diags(o, e.r, Live()),
              if Live() then BinDiags(o, e.op, Ref(w, e.l), Ref(w, e.r)) else []);
    }

    method EvalAnd(e: Expr) returns (c: Constant)
      requires e.LogAnd?
      requires Valid() && WellFormed(w, e) && skipEvaluation >= 0
      modifies this
      ensures skipEvaluation == old(skipEvaluation)
      ensures Proper(w, c) && Mean(w, c) == Ref(w, e)
      ensures log == old(log) + Diags(o, e, Live())
      decreases e, 0
    {
      assert Pow2(w - 1) == 2 * Pow2(w - 2);
      var a := Eval(e.l);
      skipEvaluation := skipEvaluation + ToInt(a.value == 0);
      var b := Eval(e.r);
      skipEvaluation := skipEvaluation - ToInt(a.value == 0);
      ProperMean(w, a);
      ProperMean(w, b);
      c := Constant(ToInt(a.value != 0 && b.value != 0), SIGNED);
      Concat3(old(log), Diags(o, e.l, Live()), Diags(o, e.r, Live() && Ref(w, e.l).v != 0));
    }

    method EvalOr(e: Expr) returns (c: Constant)
      requires e.LogOr?
      requires Valid() && WellFormed(w, e) && skipEvaluation >= 0
      modifies this
      ensures skipEvaluation == old(skipEvaluation)
      ensures Proper(w, c) && Mean(w, c) == Ref(w, e)
      ensures log == old(log) + Diags(o, e, Live())
      decreases e, 0
    {
      assert Pow2(w - 1) == 2 * Pow2(w - 2);
      var a := Eval(e.l);
      skipEvaluation := skipEvaluation + ToInt(a.value != 0);
      var b := Eval(e.r);
      skipEvaluation := skipEvaluation - ToInt(a.value != 0);
      ProperMean(w, a);
      ProperMean(w, b);
      c := Constant(ToInt(a.value != 0 || b.value != 0), SIGNED);
      Concat3(old(log), Diags(o, e.l, Live()), Diags(o, e.r, Live() && Ref(w, e.l).v == 0));
    }

    method EvalCond(e: Expr) returns (c: Constant)
      requires e.Cond?
      requires Valid() && WellFormed(w, e) && skipEvaluation >= 0
      modifies this
      ensures skipEvaluation == old(skipEvaluation)
      ensures Proper(w, c) && Mean(w, c) == Ref(w, e)
      ensures log == old(log) + Diags(o, e, Live())
      decreases e, 0
    {
      var a := Eval(e.c0);
      ProperMean(w, a);
      ghost var live, taken := old(Live()), Ref(w, e.c0).v != 0;
      skipEvaluation := skipEvaluation + ToInt(a.value == 0);
      var b := Eval(e.l);
      skipEvaluation := skipEvaluation + ToInt(a.value != 0) - ToInt(a.value == 0);
      var d := Eval(e.r);
      skipEvaluation := skipEvaluation - ToInt(a.value != 0);
      CondMeaning(w, a, b, d);
      c := Constant(if a.value != 0 then b.value else d.value, BitAnd(b.signedp, d.signedp));
      Concat4(old(log), Diags(o, e.c0, live), Diags(o, e.l, live && taken), Diags(o, e.r, live && !taken));
    }

    static function ToInt(b: bool): int { if b then 1 else 0 }
  }

  lemma Concat3(a: seq<Diag>, b: seq<Diag>, c: seq<Diag>)
    ensures a + b + c == a + (b + c)
  {
  }

  lemma Concat4(a: seq<Diag>, b: seq<Diag>, c: seq<Diag>, d: seq<Diag>)
    ensures a + b + c + d == a + (b + c + d)
  {
  }

  /** The mask of the two signedp fields decides the common type of two operands, and the
      converted operands are the stored values, read as that type. */
  lemma CommonType(w: nat, a: Constant, b: Constant)
    requires w >= 1 && Proper(w, a) && Proper(w, b)
    ensures var s := Mean(w, a).signed && Mean(w, b).signed;
            && BitAnd(a.signedp, b.signedp) == (if s then SIGNED else UNSIGNED)
            && Convert(w, s, Mean(w, a)) == (if s then a.value else Unsigned(w, a.value))
            && Convert(w, s, Mean(w, b)) == (if s then b.value else Unsigned(w, b.value))
  {
    WrapUnsigned(w, a.value);
    WrapUnsigned(w, b.value);
  }

  lemma CondMeaning(w: nat, a: Constant, b: Constant, d: Constant)
    requires w >= 1 && Proper(w, a) && Proper(w, b) && Proper(w, d)
    ensures var c := Constant(if a.value != 0 then b.value else d.value, BitAnd(b.signedp, d.signedp));
            var s := Mean(w, b).signed && Mean(w, d).signed;
            && Proper(w, c)
            && Mean(w, c) == Typed(Convert(w, s, if Mean(w, a).v != 0 then Mean(w, b) else Mean(w, d)), s)
  {
    ProperMean(w, a);
    CommonType(w, b, d);
  }

  /** Addition and subtraction of stored values, read as unsigned numbers, are modular. */
  lemma SumBits(w: nat, a: int, b: int)
    requires w >= 1
    ensures Unsigned(w, Wrap(w, a + b)) == Unsigned(w, Unsigned(w, a) + Unsigned(w, b))
  {
    SumLow(w, a, b);
    WrapUnsigned(w, a + b);
  }

  lemma DifferenceBits(w: nat, a: int, b: int)
    requires w >= 1
    ensures Unsigned(w, Wrap(w, a - b)) == Unsigned(w, Unsigned(w, a) - Unsigned(w, b))
  {
    DifferenceLow(w, a, b);
    WrapUnsigned(w, a - b);
  }

  lemma AddMeaning(w: nat, a: Constant, b: Constant, c: Constant)
    requires w >= 1 && Proper(w, a) && Proper(w, b)
    requires c == Constant(Wrap(w, a.value + b.value), BitAnd(a.signedp, b.signedp))
    ensures Proper(w, c) && Mean(w, c) == RefBin(w, Add, Mean(w, a), Mean(w, b))
  {
    CommonType(w, a, b);
    SumBits(w, a.value, b.value);
  }

  lemma AddOverflow(w: nat, a: Constant, b: Constant, sum: int, signedp: int)
    requires w >= 1 && Proper(w, a) && Proper(w, b)
    requires sum == Wrap(w, a.value + b.value) && signedp == BitAnd(a.signedp, b.signedp)
    ensures var s := Mean(w, a).signed && Mean(w, b).signed;
            OverflowSumSign(a.value, b.value, sum, signedp) <==>
            s && !Fits(w, Convert(w, s, Mean(w, a)) + Convert(w, s, Mean(w, b)))
  {
    CommonType(w, a, b);
    SumSignIsExact(w, a.value, b.value, sum, signedp);
  }

  lemma SubMeaning(w: nat, a: Constant, b: Constant, c: Constant)
    requires w >= 1 && Proper(w, a) && Proper(w, b)
    requires c == Constant(Wrap(w, a.value - b.value), BitAnd(a.signedp, b.signedp))
    ensures Proper(w, c) && Mean(w, c) == RefBin(w, Sub, Mean(w, a), Mean(w, b))
  {
    CommonType(w, a, b);
    DifferenceBits(w, a.value, b.value);
  }

  lemma SubOverflow(w: nat, a: Constant, b: Constant, sum: int, signedp: int)
    requires w >= 1 && Proper(w, a) && Proper(w, b)
    requires sum == Wrap(w, a.value - b.value) && signedp == BitAnd(a.signedp, b.signedp)
    ensures var s := Mean(w, a).signed && Mean(w, b).signed;
            OverflowSumSign(sum, b.value, a.value, signedp) <==>
            s && !Fits(w, Convert(w, s, Mean(w, a)) - Convert(w, s, Mean(w, b)))
  {
    CommonType(w, a, b);
    DifferenceSignIsExact(w, a.value, b.value, sum, signedp);
  }

  predicate NegOverflow(c: Constant, a: Constant)
  {
    BitAnd(BitAnd(c.value, a.value), c.signedp) < 0
  }

  lemma NegationMeaning(w: nat, a: Constant)
    requires w >= 1 && Proper(w, a)
    ensures Mean(w, Constant(Wrap(w, -a.value), a.signedp)) == Norm(w, Mean(w, a).signed, -Mean(w, a).v)
  {
    DifferenceBits(w, 0, a.value);
    FitsUnsigned(w, 0);
  }

  /** Only the least value has a negation that does not fit, and it is its own negation. */
  lemma NegationOverflow(w: nat, a: Constant)
    requires w >= 1 && Proper(w, a)
    ensures NegOverflow(Constant(Wrap(w, -a.value), a.signedp), a) <==>
            Mean(w, a).signed && !Fits(w, -Mean(w, a).v)
  {
    OneTurn(w, -a.value);
  }

  lemma UnsignedIsInjective(w: nat, x: int, y: int)
    requires w >= 1 && Fits(w, x) && Fits(w, y)
    ensures Unsigned(w, x) == Unsigned(w, y) <==> x == y
  {
    FitsUnsigned(w, x);
    FitsUnsigned(w, y);
  }

  /** The count passed on is the magnitude of the typed count, even for the least value. */
  lemma CountIsExact(w: nat, b: Constant)
    requires w >= 1 && Proper(w, b)
    ensures BitAnd(b.value, b.signedp) < 0 <==> Mean(w, b).v < 0
    ensures Mean(w, b).v < 0 ==> Unsigned(w, Wrap(w, -b.value)) == -Mean(w, b).v
    ensures Mean(w, b).v >= 0 ==> Unsigned(w, b.value) == Mean(w, b).v
  {
    if Mean(w, b).v < 0 {
      WrapUnsigned(w, -b.value);
      SmallUnsigned(w, -b.value);
    } else {
      FitsUnsigned(w, b.value);
    }
  }
}

/** Macro bodies in cpp/cccp.c: collect_expansion turns a body into a text and a list of places
    where arguments go, with the operators # and ## and their digraphs. Its diagnostics, variable
    arguments and the traditional mode are not part of this module. */
module MacroBody {
  import opened Characters
  import opened MacroUses
  import opened Wrappers

  /** A macro without arguments, or the names of the parameters. */
  datatype Signature = Object | Function(names: seq<string>)
  {
    function Params(): seq<string> { if Object? then [] else names }
  }

  predicate IsHorSpace(c: char) { c in " \t\r" || c as int == 11 || c as int == 12 }

  // ---------------------------------------------------------------------------------------
  // The pieces of a body

  /** The index of a name in the list from position k on, or the length of the list. */
  function IndexOf(params: seq<string>, name: string, k: nat): (i: nat)
    requires k <= |params|
    ensures k <= i <= |params| && (i < |params| ==> params[i] == name)
    decreases |params| - k
  {
    if k == |params| || params[k] == name then k else IndexOf(params, name, k + 1)
  }

  /** L before a quote is not a name. */
  predicate IsWide(body: string, p: nat, q: nat)
    requires p < |body|
  {
    q == p + 1 && body[p] == 'L' && q < |body| && IsQuote(body[q])
  }

  /** The parameter that the word from p to q is. */
  function ParamAt(body: string, p: nat, q: nat, params: seq<string>): (i: nat)
    requires p < q <= |body|
    ensures i <= |params| && (i < |params| ==> params[i] == body[p..q] && IsIdStart(body[p]))
  {
    if !IsIdStart(body[p]) || IsWide(body, p, q) then |params| else IndexOf(params, body[p..q], 0)
  }

  function HorEnd(body: string, p: nat): (q: nat)
    requires p <= |body|
    ensures p <= q <= |body|
    decreases |body| - p
  {
    if p < |body| && IsHorSpace(body[p]) then HorEnd(body, p + 1) else p
  }

  /** The text t stands at position p. */
  predicate StandsAt(body: string, p: nat, t: string)
  {
    p + |t| <= |body| && body[p..p + |t|] == t
  }

  predicate PasteStands(body: string, p: nat) { StandsAt(body, p, "##") || StandsAt(body, p, "%:%:") }

  /** How many < stand before p. */
  function LessBefore(body: string, p: nat): (n: nat)
    requires p <= |body|
    ensures n <= p
  {
    if p > 0 && body[p - 1] == '<' then 1 + LessBefore(body, p - 1) else 0
  }

  /** %: is no digraph behind an odd number of <, which belong to <:: and the like. */
  predicate Digraph(body: string, p: nat)
    requires p <= |body|
  {
    StandsAt(body, p, "%:") && LessBefore(body, p) % 2 == 0
  }

  /** What the loop over the body finds next: the operators ## and #, with the white space behind them;
      for #, whether a name follows; a word; a blank; or text to be copied, with the literal that is
      open behind it. */
  datatype Piece =
    | Paste(end: nat)
    | Sharp(end: nat, named: bool)
    | Word(end: nat)
    | Blank(end: nat)
    | Copied(end: nat, next: Option<char>)

  function AfterSharp(body: string, p: nat, sig: Signature): Piece
    requires p <= |body|
  {
    var q := HorEnd(body, p);
    Sharp(q, q < |body| && IsIdStart(body[q]) && sig.Params() != [] && !IsWide(body, q, q + 1))
  }

  function PieceAt(body: string, p: nat, open: Option<char>, sig: Signature): (t: Piece)
    requires p < |body|
    ensures p < t.end <= |body|
  {
    var c := body[p];
    if open == None && StandsAt(body, p, "##") then Paste(HorEnd(body, p + 2))
    else if open == None && c == '#' && sig.Function? then AfterSharp(body, p + 1, sig)
    else if open == None && Digraph(body, p) && StandsAt(body, p, "%:%:") then Paste(HorEnd(body, p + 4))
    else if open == None && Digraph(body, p) && sig.Function? then AfterSharp(body, p + 2, sig)
    else if c == '\\' && open.Some? && p + 1 < |body| then Copied(p + 2, open)
    else if IsIdChar(c) && sig.Params() != [] then Word(WordEnd(body, p + 1))
    else if open == None && IsHorSpace(c) then Blank(p + 1)
    else Copied(p + 1, Delimiter(open, c))
  }

  // ---------------------------------------------------------------------------------------
  // The meaning of a body

  /** Inside a body: the literal that is open, whether ## or # stands right before, and blanks that
      are dropped if ## comes next. */
  datatype Mode = Mode(open: Option<char>, paste: bool, sharp: bool, blanks: string)

  const BEGIN := Mode(None, false, false, "")

  /** The body from position p on with the uses of arguments in place; a marker ends it unless a
      literal is open. */
  function Meaning(body: string, p: nat, m: Mode, sig: Signature, args: seq<Arg>): string
    requires p <= |body| && |args| == |sig.Params()|
    decreases |body| - p
  {
    if p == |body| then m.blanks + (if m.open == None then MARKER else "")
    else
      var t := PieceAt(body, p, m.open, sig);
      match t
      case Paste(q) => Meaning(body, q, Mode(None, true, false, ""), sig, args)
      case Sharp(q, named) => Meaning(body, q, Mode(None, false, named, m.blanks), sig, args)
      case Blank(q) => Meaning(body, q, Mode(None, false, false, m.blanks + [body[p]]), sig, args)
      case Copied(q, next) => m.blanks + (body[p..q] + Meaning(body, q, Mode(next, false, false, ""), sig, args))
      case Word(q) =>
        var i := ParamAt(body, p, q, sig.Params());
        var text := if m.open == None && i < |sig.Params()| then UseOf(m, body, q, i, args) else body[p..q];
        m.blanks + (text + Meaning(body, q, Mode(m.open, false, false, ""), sig, args))
  }

  function UseOf(m: Mode, body: string, q: nat, i: nat, args: seq<Arg>): string
    requires q <= |body| && i < |args|
  {
    UseText(Ref(0, i, m.sharp, m.paste, PasteStands(body, HorEnd(body, q))), args[i])
  }

  /** A ## at the very start is passed over. */
  function Begin(body: string): (p: nat)
    ensures p <= |body|
  {
    if StandsAt(body, 0, "##") then 2 else if StandsAt(body, 0, "%:%:") then 4 else 0
  }

  // ---------------------------------------------------------------------------------------
  // Bodies without operators

  /** There is no # and no %: outside literals. */
  predicate NoOperators(body: string, p: nat, open: Option<char>)
    requires p <= |body|
    decreases |body| - p
  {
    if p == |body| then true
    else if open == None && (body[p] == '#' || StandsAt(body, p, "%:")) then false
    else if body[p] == '\\' && open.Some? && p + 1 < |body| then NoOperators(body, p + 2, open)
    else NoOperators(body, p + 1, Delimiter(open, body[p]))
  }

  /** The body with each parameter outside literals replaced by its argument between two markers. */
  function Replaced(body: string, p: nat, open: Option<char>, params: seq<string>, args: seq<Arg>): string
    requires p <= |body| && |args| == |params|
    decreases |body| - p
  {
    if p == |body| then (if open == None then MARKER else "")
    else if IsIdChar(body[p]) && params != [] then
      var q := WordEnd(body, p + 1);
      var i := ParamAt(body, p, q, params);
      (if open == None && i < |params| then Wrapped(args[i].Expanded()) else body[p..q]) +
          Replaced(body, q, open, params, args)
    else if body[p] == '\\' && open.Some? && p + 1 < |body| then
      body[p..p + 2] + Replaced(body, p + 2, open, params, args)
    else
      [body[p]] + Replaced(body, p + 1, Delimiter(open, body[p]), params, args)
  }

  lemma {:induction false} WordsHaveNoOperators(body: string, p: nat, q: nat, open: Option<char>)
    requires p <= q <= |body| && NoOperators(body, p, open) && forall i :: p <= i < q ==> IsIdChar(body[i])
    ensures NoOperators(body, q, open)
    decreases q - p
  {
    if p < q { WordsHaveNoOperators(body, p + 1, q, open); }
  }

  lemma LongerDigraph(body: string, p: nat)
    requires StandsAt(body, p, "%:%:")
    ensures StandsAt(body, p, "%:")
  {
    assert body[p..p + 2] == body[p..p + 4][..2];
  }

  lemma {:induction false} NoPasteBehind(body: string, p: nat)
    requires p <= |body| && NoOperators(body, p, None)
    ensures !PasteStands(body, HorEnd(body, p))
    decreases |body| - p
  {
    if p < |body| {
      if IsHorSpace(body[p]) {
        NoPasteBehind(body, p + 1);
      } else {
        NotAnOperator(body, p, None);
        if StandsAt(body, p, "%:%:") { LongerDigraph(body, p); }
      }
    }
  }

  /** A body without operators means what section 6.10.3.1 of ISO/IEC 9899:1999 says. */
  lemma {:induction false} PlainBody(body: string, p: nat, open: Option<char>, blanks: string, sig: Signature,
                                     args: seq<Arg>)
    requires p <= |body| && |args| == |sig.Params()| && NoOperators(body, p, open)
    ensures Meaning(body, p, Mode(open, false, false, blanks), sig, args) ==
        blanks + Replaced(body, p, open, sig.Params(), args)
    decreases |body| - p, 1
  {
    if p < |body| {
      PlainPiece(body, p, open, sig);
      var t := PieceAt(body, p, open, sig);
      match t
      case Word(q) => PlainWord(body, p, open, blanks, sig, args, q);
      case Blank(q) => PlainBlank(body, p, open, blanks, sig, args);
      case Copied(q, next) => PlainCopied(body, p, open, blanks, sig, args, q, next);
    }
  }

  lemma PlainBlank(body: string, p: nat, open: Option<char>, blanks: string, sig: Signature, args: seq<Arg>)
    requires p < |body| && |args| == |sig.Params()| && PlainAt(body, p, open, sig) && PieceAt(body, p, open, sig).Blank?
    ensures Meaning(body, p, Mode(open, false, false, blanks), sig, args) ==
        blanks + Replaced(body, p, open, sig.Params(), args)
    decreases |body| - p, 0
  {
    PlainBody(body, p + 1, open, blanks + [body[p]], sig, args);
    var rest := Replaced(body, p + 1, open, sig.Params(), args);
    assert Replaced(body, p, open, sig.Params(), args) == [body[p]] + rest by { hide PieceAt; }
    assert Meaning(body, p, Mode(open, false, false, blanks), sig, args)
        == Meaning(body, p + 1, Mode(open, false, false, blanks + [body[p]]), sig, args) by { hide PieceAt, Replaced; }
    Associative(blanks, [body[p]], rest);
  }

  lemma PlainCopied(body: string, p: nat, open: Option<char>, blanks: string, sig: Signature, args: seq<Arg>, q: nat,
                    next: Option<char>)
    requires p < |body| && |args| == |sig.Params()| && PlainAt(body, p, open, sig)
    requires PieceAt(body, p, open, sig) == Copied(q, next)
    ensures Meaning(body, p, Mode(open, false, false, blanks), sig, args) ==
        blanks + Replaced(body, p, open, sig.Params(), args)
    decreases |body| - p, 0
  {
    hide NoOperators, WordEnd, IsHorSpace, IsIdChar, PieceAt, ParamAt, UseText;
    PlainBody(body, q, next, "", sig, args);
    var rest := Replaced(body, q, next, sig.Params(), args);
    Associative("", "", rest);
    assert Replaced(body, p, open, sig.Params(), args) == body[p..q] + rest;
    assert Meaning(body, p, Mode(open, false, false, blanks), sig, args) ==
        blanks + (body[p..q] + rest) by { hide Replaced; }
  }

  /** The piece at p is no operator, and none is behind it. */
  predicate PlainAt(body: string, p: nat, open: Option<char>, sig: Signature)
    requires p < |body|
  {
    match PieceAt(body, p, open, sig)
    case Word(q) => q == WordEnd(body, p + 1) && IsIdChar(body[p]) && sig.Params() != [] && NoOperators(body, q, open)
    case Blank(q) => q == p + 1 && open == None && IsHorSpace(body[p]) && !IsIdChar(body[p]) &&
        NoOperators(body, q, open)
    case Copied(q, next) =>
      && q <= |body| && NoOperators(body, q, next) && !(IsIdChar(body[p]) && sig.Params() != [])
      && (if body[p] == '\\' && open.Some? && p + 1 < |body| then q == p + 2 && next == open
          else q == p + 1 && next == Delimiter(open, body[p]) && body[p..q] == [body[p]])
    case _ => false
  }

  lemma PlainPiece(body: string, p: nat, open: Option<char>, sig: Signature)
    requires p < |body| && NoOperators(body, p, open)
    ensures PlainAt(body, p, open, sig)
  {
    hide HorEnd, LessBefore, StandsAt;
    NotAnOperator(body, p, open);
    if open == None && StandsAt(body, p, "%:%:") { LongerDigraph(body, p); }
    if IsIdChar(body[p]) { WordsHaveNoOperators(body, p, WordEnd(body, p + 1), open); }
  }

  lemma PlainWord(body: string, p: nat, open: Option<char>, blanks: string, sig: Signature, args: seq<Arg>, q: nat)
    requires p < |body| && |args| == |sig.Params()|
    requires NoOperators(body, p, open) && PieceAt(body, p, open, sig) == Word(q)
    ensures Meaning(body, p, Mode(open, false, false, blanks), sig, args) ==
        blanks + Replaced(body, p, open, sig.Params(), args)
    decreases |body| - p, 0
  {
    hide UseText, WordEnd, ParamAt, HorEnd, StandsAt, LessBefore, IsIdChar;
    PlainPiece(body, p, open, sig);
    PlainBody(body, q, open, "", sig, args);
    Associative("", "", Replaced(body, q, open, sig.Params(), args));
    if open == None {
      NoPasteBehind(body, q);
      var i := ParamAt(body, p, q, sig.Params());
      if i < |args| { PlainUse(i, args[i]); }
    }
  }

  lemma NotAnOperator(body: string, p: nat, open: Option<char>)
    requires p < |body| && NoOperators(body, p, open)
    ensures open == None ==> body[p] != '#' && !StandsAt(body, p, "##") && !StandsAt(body, p, "%:")
  {
    if StandsAt(body, p, "##") { assert body[p..p + 2][0] == body[p]; }
  }

  lemma PlainUse(i: nat, a: Arg)
    ensures UseText(Ref(0, i, false, false, false), a) == Wrapped(a.Expanded())
  {
  }

  // ---------------------------------------------------------------------------------------
  // collect_expansion

  /** Start of the blanks that end the text behind position from. */
  function BlanksFrom(text: string, from: nat): (n: nat)
    requires from <= |text|
    ensures from <= n <= |text|
    decreases |text|
  {
    if |text| > from && IsHorSpace(text[|text| - 1]) then BlanksFrom(text[..|text| - 1], from) else |text|
  }

  /** The text collected since the last place does not end with a blank. */
  predicate Closed(c: Compiled)
  {
    && Offset(c.refs) <= |c.text|
    && (|c.text| > Offset(c.refs) ==> !IsHorSpace(c.text[|c.text| - 1]))
  }

  predicate AllBlank(s: string) { forall i :: 0 <= i < |s| ==> IsHorSpace(s[i]) }

  lemma {:induction false} BlanksBehind(c: Compiled, blanks: string)
    requires Closed(c) && AllBlank(blanks)
    ensures BlanksFrom(c.text + blanks, Offset(c.refs)) == |c.text|
    decreases |blanks|
  {
    if blanks == "" {
      assert c.text + blanks == c.text;
    } else {
      var front := blanks[..|blanks| - 1];
      assert (c.text + blanks)[..|c.text + blanks| - 1] == c.text + front;
      BlanksBehind(c, front);
    }
  }

  /** What has been collected, less the blanks at its end, makes the body up to position p, whatever
      the arguments are. */
  ghost predicate Means(done: Compiled, body: string, p: nat, m: Mode, sig: Signature)
  {
    && p <= |body| && Fits(done, |sig.Params()|) && AllBlank(m.blanks)
    && (m.open == None ==> Closed(done)) && (m.open.Some? ==> m.blanks == "")
    && forall args: seq<Arg> :: |args| == |sig.Params()| ==>
         Result(done, args) + Meaning(body, p, m, sig, args) == Meaning(body, Begin(body), BEGIN, sig, args)
  }

  lemma MeansNothing(body: string, sig: Signature)
    ensures Means(Compiled("", []), body, Begin(body), BEGIN, sig)
  {
    hide Meaning;
    forall args: seq<Arg> | |args| == |sig.Params()|
      ensures Result(Compiled("", []), args) + Meaning(body, Begin(body), BEGIN, sig, args)
           == Meaning(body, Begin(body), BEGIN, sig, args)
    {
      Associative("", "", Meaning(body, Begin(body), BEGIN, sig, args));
    }
  }

  /** The meaning of what is left, one piece further. */
  ghost predicate Goes(body: string, p: nat, m: Mode, text: string, q: nat, next: Mode, sig: Signature)
    requires p <= |body| && q <= |body|
  {
    forall args: seq<Arg> :: |args| == |sig.Params()| ==>
      Meaning(body, p, m, sig, args) == text + Meaning(body, q, next, sig, args)
  }

  /** Text of the body is copied, behind the blanks before it. */
  lemma MeansText(done: Compiled, body: string, p: nat, m: Mode, text: string, q: nat, next: Mode, sig: Signature)
    requires Means(done, body, p, m, sig) && q <= |body| && Goes(body, p, m, text, q, next, sig)
    requires AllBlank(next.blanks) && (next.open.Some? ==> next.blanks == "")
    requires next.open == None && text != "" ==> !IsHorSpace(text[|text| - 1])
    requires text == "" ==> next.open == m.open
    ensures Means(Compiled(done.text + text, done.refs), body, q, next, sig)
  {
    hide Result, Meaning, Begin, IsHorSpace;
    var d := Compiled(done.text + text, done.refs);
    forall args: seq<Arg> | |args| == |sig.Params()|
      ensures Result(d, args) + Meaning(body, q, next, sig, args) == Meaning(body, Begin(body), BEGIN, sig, args)
    {
      ResultText(done, text, args);
      Associative(Result(done, args), text, Meaning(body, q, next, sig, args));
    }
    assert text == "" ==> d.text == done.text;
  }

  /** The use of an argument. */
  lemma MeansUse(done: Compiled, body: string, p: nat, m: Mode, q: nat, i: nat, sig: Signature)
    requires Means(done, body, p, m, sig) && m.open == None && p < |body| && i < |sig.Params()|
    requires PieceAt(body, p, None, sig) == Word(q) && q <= |body| && ParamAt(body, p, q, sig.Params()) == i
    ensures Offset(done.refs) <= |done.text + m.blanks|
    ensures Means(WithUse(Compiled(done.text + m.blanks, done.refs), i, m.sharp, m.paste,
        PasteStands(body, HorEnd(body, q))),
                  body, q, BEGIN, sig)
  {
    var after := PasteStands(body, HorEnd(body, q));
    var b := Compiled(done.text + m.blanks, done.refs);
    var d := WithUse(b, i, m.sharp, m.paste, after);
    var r := Ref(0, i, m.sharp, m.paste, after);
    hide Result, PieceAt, ParamAt, WordEnd, HorEnd, PasteStands, Begin, UseText, IsHorSpace;
    var none := seq(|sig.Params()|, _ => Missing);
    ResultText(done, m.blanks, none);
    ResultUse(b, i, m.sharp, m.paste, after, none);
    forall args: seq<Arg> | |args| == |sig.Params()|
      ensures Result(d, args) + Meaning(body, q, BEGIN, sig, args) == Meaning(body, Begin(body), BEGIN, sig, args)
    {
      ResultText(done, m.blanks, args);
      ResultUse(b, i, m.sharp, m.paste, after, args);
      var rest := Meaning(body, q, BEGIN, sig, args);
      assert Meaning(body, p, m, sig, args) == m.blanks + (UseText(r, args[i]) + rest);
      Fourfold(Result(done, args), m.blanks, UseText(r, args[i]), rest);
    }
  }

  lemma Fourfold(a: string, b: string, c: string, d: string)
    ensures a + (b + (c + d)) == a + b + c + d
  {
  }

  /** The state of the loop at position p: concat and stringify are the places behind the last ##
      and #. */
  ghost predicate Collected(c: Compiled, done: Compiled, body: string, p: nat, open: Option<char>, concat: int,
                            stringify: int, blanks: string, sig: Signature)
  {
    && concat <= p && stringify <= p
    && c == Compiled(done.text + blanks, done.refs)
    && Means(done, body, p, Mode(open, concat == p, stringify == p, blanks), sig)
  }

  method FindParam(body: string, p: nat, q: nat, params: seq<string>) returns (i: nat)
    requires p < q <= |body|
    ensures i == ParamAt(body, p, q, params)
  {
    if !IsIdStart(body[p]) || (q == p + 1 && body[p] == 'L' && q < |body| && IsQuote(body[q])) { return |params|; }
    i := 0;
    while i < |params| && params[i] != body[p..q]
      invariant i <= |params| && IndexOf(params, body[p..q], i) == IndexOf(params, body[p..q], 0)
    {
      i := i + 1;
    }
  }

  method ScanWord(body: string, p: nat) returns (q: nat)
    requires p <= |body|
    ensures q == WordEnd(body, p)
  {
    q := p;
    while q < |body| && IsIdChar(body[q])
      invariant p <= q <= |body| && WordEnd(body, q) == WordEnd(body, p)
    {
      q := q + 1;
    }
  }

  method SkipWhiteSpace(body: string, p: nat) returns (q: nat)
    requires p <= |body|
    ensures q == HorEnd(body, p)
  {
    q := p;
    while q < |body| && IsHorSpace(body[q])
      invariant p <= q <= |body| && HorEnd(body, q) == HorEnd(body, p)
    {
      q := q + 1;
    }
  }

  method Trim(buf: string) returns (n: nat)
    ensures n == TrimmedLength(buf)
  {
    n := |buf|;
    assert buf[..n] == buf;
    while n > 0 && IsSpace(buf[n - 1])
      invariant n <= |buf| && TrimmedLength(buf[..n]) == TrimmedLength(buf)
    {
      assert buf[..n][..n - 1] == buf[..n - 1];
      n := n - 1;
    }
  }

  /** Take the blanks off the end of the text. */
  method DropBlanks(text: string, from: nat) returns (n: nat)
    requires from <= |text|
    ensures n == BlanksFrom(text, from)
  {
    n := |text|;
    assert text[..n] == text;
    while n > from && IsHorSpace(text[n - 1])
      invariant from <= n <= |text| && BlanksFrom(text[..n], from) == BlanksFrom(text, from)
    {
      assert text[..n][..n - 1] == text[..n - 1];
      n := n - 1;
    }
  }

  /** Is %: at p behind an even number of <? */
  method IsDigraph(body: string, p: nat) returns (digraph: bool)
    requires p <= |body|
    ensures digraph == Digraph(body, p)
  {
    if !StandsAt(body, p, "%:") { return false; }
    var p0 := p;
    while p0 > 0 && body[p0 - 1] == '<'
      invariant 0 <= p0 <= p && LessBefore(body, p) == p - p0 + LessBefore(body, p0)
    {
      p0 := p0 - 1;
    }
    digraph := (p - p0) % 2 == 0;
  }

  method ScanSharp(body: string, p: nat, sig: Signature) returns (t: Piece)
    requires p <= |body|
    ensures t == AfterSharp(body, p, sig)
  {
    var q := SkipWhiteSpace(body, p);
    t := Sharp(q, q < |body| && IsIdStart(body[q]) && sig.Params() != [] && !IsWide(body, q, q + 1));
  }

  method ScanPiece(body: string, p: nat, open: Option<char>, sig: Signature) returns (t: Piece)
    requires p < |body|
    ensures t == PieceAt(body, p, open, sig)
  {
    hide HorEnd, WordEnd, AfterSharp, Digraph, IsIdChar, IsHorSpace;
    var c := body[p];
    if open == None && StandsAt(body, p, "##") {
      var q := SkipWhiteSpace(body, p + 2);
      return Paste(q);
    }
    if open == None && c == '#' && sig.Function? {
      t := ScanSharp(body, p + 1, sig);
      return;
    }
    var digraph := IsDigraph(body, p);
    if open == None && digraph && StandsAt(body, p, "%:%:") {
      var q := SkipWhiteSpace(body, p + 4);
      return Paste(q);
    }
    if open == None && digraph && sig.Function? {
      DigraphStands(body, p);
      t := ScanSharp(body, p + 2, sig);
      return;
    }
    if c == '\\' && open.Some? && p + 1 < |body| { return Copied(p + 2, open); }
    if IsIdChar(c) && sig.Params() != [] {
      var q := ScanWord(body, p + 1);
      return Word(q);
    }
    t := if open == None && IsHorSpace(c) then Blank(p + 1) else Copied(p + 1, Delimiter(open, c));
  }

  lemma DigraphStands(body: string, p: nat)
    requires p <= |body| && Digraph(body, p)
    ensures p + 2 <= |body|
  {
  }

  lemma MeansPaste(done: Compiled, body: string, p: nat, m: Mode, q: nat, sig: Signature)
    requires Means(done, body, p, m, sig) && m.open == None && p < |body|
    requires q <= |body| && PieceAt(body, p, None, sig) == Paste(q)
    ensures Means(done, body, q, Mode(None, true, false, ""), sig)
  {
    var next := Mode(None, true, false, "");
    assert done.text + "" == done.text;
    assert Goes(body, p, m, "", q, next, sig) by {
      forall args: seq<Arg> | |args| == |sig.Params()|
        ensures Meaning(body, p, m, sig, args) == "" + Meaning(body, q, next, sig, args)
      {
        Associative("", "", Meaning(body, q, next, sig, args));
      }
    }
    MeansText(done, body, p, m, "", q, next, sig);
  }

  lemma MeansSharp(done: Compiled, body: string, p: nat, m: Mode, q: nat, named: bool, sig: Signature)
    requires Means(done, body, p, m, sig) && m.open == None && p < |body| && q <= |body|
    requires PieceAt(body, p, None, sig) == Sharp(q, named)
    ensures Means(done, body, q, Mode(None, false, named, m.blanks), sig)
  {
    var next := Mode(None, false, named, m.blanks);
    assert done.text + "" == done.text;
    assert Goes(body, p, m, "", q, next, sig) by {
      forall args: seq<Arg> | |args| == |sig.Params()|
        ensures Meaning(body, p, m, sig, args) == "" + Meaning(body, q, next, sig, args)
      {
        Associative("", "", Meaning(body, q, next, sig, args));
      }
    }
    MeansText(done, body, p, m, "", q, next, sig);
  }

  lemma MeansBlank(done: Compiled, body: string, p: nat, m: Mode, sig: Signature)
    requires Means(done, body, p, m, sig) && m.open == None && p < |body| && PieceAt(body, p, None, sig) == Blank(p + 1)
    ensures Means(done, body, p + 1, Mode(None, false, false, m.blanks + [body[p]]), sig)
  {
    var next := Mode(None, false, false, m.blanks + [body[p]]);
    assert done.text + "" == done.text && IsHorSpace(body[p]);
    assert Goes(body, p, m, "", p + 1, next, sig) by {
      forall args: seq<Arg> | |args| == |sig.Params()|
        ensures Meaning(body, p, m, sig, args) == "" + Meaning(body, p + 1, next, sig, args)
      {
        Associative("", "", Meaning(body, p + 1, next, sig, args));
      }
    }
    MeansText(done, body, p, m, "", p + 1, next, sig);
  }

  /** A piece of text that is not a use. */
  predicate CopiedTo(body: string, p: nat, m: Mode, q: nat, open: Option<char>, sig: Signature)
    requires p < |body|
  {
    var t := PieceAt(body, p, m.open, sig);
    || t == Copied(q, open)
    || (t == Word(q) && open == m.open && p < q <= |body|
        && (m.open.Some? || ParamAt(body, p, q, sig.Params()) >= |sig.Params()|))
  }

  lemma CopiedIsNoBlank(body: string, p: nat, m: Mode, q: nat, open: Option<char>, sig: Signature)
    requires p < |body| && CopiedTo(body, p, m, q, open, sig)
    ensures p < q <= |body| && (open == None ==> !IsHorSpace(body[q - 1]))
  {
  }

  lemma GoesCopied(body: string, p: nat, m: Mode, q: nat, open: Option<char>, sig: Signature)
    requires p < |body| && q <= |body| && CopiedTo(body, p, m, q, open, sig) && p < q
    ensures Goes(body, p, m, m.blanks + body[p..q], q, Mode(open, false, false, ""), sig)
  {
    forall args: seq<Arg> | |args| == |sig.Params()|
      ensures Meaning(body, p, m, sig, args) ==
          m.blanks + body[p..q] + Meaning(body, q, Mode(open, false, false, ""), sig, args)
    {
      hide PieceAt, ParamAt;
      Associative(m.blanks, body[p..q], Meaning(body, q, Mode(open, false, false, ""), sig, args));
    }
  }

  lemma LastCopied(blanks: string, body: string, p: nat, q: nat)
    requires p < q <= |body|
    ensures var text := blanks + body[p..q]; text != "" && text[|text| - 1] == body[q - 1]
  {
  }

  lemma MeansCopied(done: Compiled, body: string, p: nat, m: Mode, q: nat, open: Option<char>, sig: Signature)
    requires Means(done, body, p, m, sig) && p < |body| && CopiedTo(body, p, m, q, open, sig)
    ensures q <= |body|
    ensures Means(Compiled(done.text + m.blanks + body[p..q], done.refs), body, q, Mode(open, false, false, ""), sig)
  {
    CopiedIsNoBlank(body, p, m, q, open, sig);
    GoesCopied(body, p, m, q, open, sig);
    Associative(done.text, m.blanks, body[p..q]);
    LastCopied(m.blanks, body, p, q);
    hide Means, Goes, CopiedTo, IsHorSpace;
    MeansText(done, body, p, m, m.blanks + body[p..q], q, Mode(open, false, false, ""), sig);
  }

  /** One round of the loop. */
  method CollectNext(body: string, p0: nat, open0: Option<char>, concat0: int, stringify0: int, c0: Compiled,
                     sig: Signature, ghost done0: Compiled, ghost blanks0: string)
      returns (p: nat, open: Option<char>, concat: int, stringify: int, c: Compiled, ghost done: Compiled,
          ghost blanks: string)
    requires p0 < |body| && Collected(c0, done0, body, p0, open0, concat0, stringify0, blanks0, sig)
    ensures p0 < p <= |body| && Collected(c, done, body, p, open, concat, stringify, blanks, sig)
  {
    hide PieceAt, Means, IsHorSpace, PasteStands;
    ghost var m := Mode(open0, concat0 == p0, stringify0 == p0, blanks0);
    var t := ScanPiece(body, p0, open0, sig);
    p, open, concat, stringify, c, done, blanks := t.end, open0, concat0, stringify0, c0, done0, blanks0;
    match t
    case Paste(_) =>
      OnlyOutside(body, p0, open0, sig);
      MeansPaste(done0, body, p0, m, p, sig);
      MeansBounds(done0, body, p0, m, sig);
      BlanksBehind(done0, blanks0);
      var n := DropBlanks(c0.text, Offset(c0.refs));
      assert c0.text[..n] == done0.text;
      c := Compiled(c0.text[..n], c0.refs);
      concat, blanks := p, "";
      assert done0.text + "" == done0.text;
    case Sharp(_, named) =>
      OnlyOutside(body, p0, open0, sig);
      MeansSharp(done0, body, p0, m, p, named, sig);
      if named { stringify := p; }
    case Blank(_) =>
      OnlyOutside(body, p0, open0, sig);
      MeansBlank(done0, body, p0, m, sig);
      c := Compiled(c0.text + [body[p0]], c0.refs);
      blanks := blanks0 + [body[p0]];
      Associative(done0.text, blanks0, [body[p0]]);
    case Copied(_, next) =>
      MeansCopied(done0, body, p0, m, p, next, sig);
      c := Compiled(c0.text + body[p0..p], c0.refs);
      open, done, blanks := next, c, "";
      assert c.text + "" == c.text;
    case Word(_) =>
      p, c := CollectWord(body, p0, open0, concat0, stringify0, c0, sig, done0, blanks0);
      done, blanks := c, "";
      assert c.text + "" == c.text;
  }

  /** Operators and blanks are found outside literals only, and blanks one at a time. */
  lemma OnlyOutside(body: string, p: nat, open: Option<char>, sig: Signature)
    requires p < |body|
    ensures var t := PieceAt(body, p, open, sig); t.Paste? || t.Sharp? || t.Blank? ==> open == None
    ensures PieceAt(body, p, open, sig).Blank? ==> PieceAt(body, p, open, sig) == Blank(p + 1)
  {
    hide HorEnd, WordEnd, Digraph, StandsAt;
  }

  lemma MeansBounds(done: Compiled, body: string, p: nat, m: Mode, sig: Signature)
    requires Means(done, body, p, m, sig)
    ensures AllBlank(m.blanks) && (m.open == None ==> Closed(done)) && Offset(done.refs) <= |done.text|
  {
  }

  lemma WordIsCopied(body: string, p: nat, m: Mode, q: nat, sig: Signature)
    requires p < q <= |body| && PieceAt(body, p, m.open, sig) == Word(q)
    requires m.open.Some? || ParamAt(body, p, q, sig.Params()) >= |sig.Params()|
    ensures CopiedTo(body, p, m, q, m.open, sig)
  {
  }

  lemma UseStep(c0: Compiled, done0: Compiled, body: string, p0: nat, concat: int, stringify: int, blanks0: string,
                sig: Signature, q: nat, i: nat)
    requires Collected(c0, done0, body, p0, None, concat, stringify, blanks0, sig)
    requires p0 < |body| && i < |sig.Params()| && PieceAt(body, p0, None, sig) == Word(q) && q <= |body|
    requires ParamAt(body, p0, q, sig.Params()) == i
    ensures Offset(c0.refs) <= |c0.text|
    ensures Means(WithUse(c0, i, stringify == p0, concat == p0, PasteStands(body, HorEnd(body, q))), body, q, BEGIN,
        sig)
  {
    hide PieceAt, Means, ParamAt;
    MeansUse(done0, body, p0, Mode(None, concat == p0, stringify == p0, blanks0), q, i, sig);
  }

  lemma TextStep(c0: Compiled, done0: Compiled, body: string, p0: nat, open: Option<char>, concat: int, stringify: int,
                 blanks0: string, sig: Signature, q: nat)
    requires Collected(c0, done0, body, p0, open, concat, stringify, blanks0, sig)
    requires p0 < q <= |body| && PieceAt(body, p0, open, sig) == Word(q)
    requires open.Some? || ParamAt(body, p0, q, sig.Params()) >= |sig.Params()|
    ensures Means(Compiled(c0.text + body[p0..q], c0.refs), body, q, Mode(open, false, false, ""), sig)
  {
    hide PieceAt, Means, ParamAt;
    var m := Mode(open, concat == p0, stringify == p0, blanks0);
    WordIsCopied(body, p0, m, q, sig);
    hide CopiedTo;
    MeansCopied(done0, body, p0, m, q, open, sig);
  }

  /** The word at p0 is a use of an argument, or text. */
  method CollectWord(body: string, p0: nat, open: Option<char>, concat: int, stringify: int, c0: Compiled,
                     sig: Signature,
                     ghost done0: Compiled, ghost blanks0: string)
      returns (p: nat, c: Compiled)
    requires p0 < |body| && PieceAt(body, p0, open, sig).Word?
    requires Collected(c0, done0, body, p0, open, concat, stringify, blanks0, sig)
    ensures p == PieceAt(body, p0, open, sig).end && p <= |body| && Means(c, body, p, Mode(open, false, false, ""), sig)
  {
    IsWord(body, p0, open, sig);
    hide *;
    p := ScanWord(body, p0 + 1);
    var i := FindParam(body, p0, p, sig.Params());
    if open == None && i < |sig.Params()| {
      var q := SkipWhiteSpace(body, p);
      UseStep(c0, done0, body, p0, concat, stringify, blanks0, sig, p, i);
      c := WithUse(c0, i, stringify == p0, concat == p0, PasteStands(body, q));
    } else {
      TextStep(c0, done0, body, p0, open, concat, stringify, blanks0, sig, p);
      c := Compiled(c0.text + body[p0..p], c0.refs);
    }
  }

  lemma IsWord(body: string, p: nat, open: Option<char>, sig: Signature)
    requires p < |body| && PieceAt(body, p, open, sig).Word?
    ensures PieceAt(body, p, open, sig) == Word(WordEnd(body, p + 1))
  {
    hide HorEnd, Digraph, StandsAt;
  }

  /** The marker at the end, unless a literal is open. */
  method Finish(body: string, open: Option<char>, c0: Compiled, sig: Signature, ghost done: Compiled, ghost m: Mode)
      returns (c: Compiled)
    requires m.open == open && c0 == Compiled(done.text + m.blanks, done.refs) && Means(done, body, |body|, m, sig)
    ensures Fits(c, |sig.Params()|)
    ensures forall args: seq<Arg> :: |args| == |sig.Params()| ==>
      Result(c, args) == Meaning(body, Begin(body), BEGIN, sig, args)
  {
    hide Result, Begin;
    var more := if open == None then MARKER else "";
    c := Compiled(c0.text + more, c0.refs);
    assert c.text == done.text + (m.blanks + more);
    FitsLonger(done, m.blanks + more, |sig.Params()|);
    forall args: seq<Arg> | |args| == |sig.Params()|
      ensures Result(c, args) == Meaning(body, Begin(body), BEGIN, sig, args)
    {
      ResultText(done, m.blanks + more, args);
      assert Meaning(body, |body|, m, sig, args) == m.blanks + more;
    }
  }

  lemma FitsLonger(c: Compiled, more: string, n: nat)
    requires Fits(c, n)
    ensures Fits(Compiled(c.text + more, c.refs), n)
  {
  }

  /** Compiling a body keeps its meaning: with any arguments, the text that the compiled body makes
      of them is the body, less trailing white space, with the uses of arguments in place. */
  method CollectExpansion(buf: string, sig: Signature) returns (c: Compiled)
    ensures Fits(c, |sig.Params()|)
    ensures var body := buf[..TrimmedLength(buf)];
      forall args: seq<Arg> :: |args| == |sig.Params()| ==>
          Result(c, args) == Meaning(body, Begin(body), BEGIN, sig, args)
  {
    var limit := Trim(buf);
    var body := buf[..limit];
    var p := if StandsAt(body, 0, "##") then 2 else if StandsAt(body, 0, "%:%:") then 4 else 0;
    var open: Option<char>, concat, stringify := None, -1, -1;
    c := Compiled("", []);
    ghost var done, blanks := c, "";
    MeansNothing(body, sig);
    assert c.text + "" == c.text;
    hide Means;
    while p < |body|
      invariant Collected(c, done, body, p, open, concat, stringify, blanks, sig) && p <= |body|
      decreases |body| - p
    {
      p, open, concat, stringify, c, done, blanks :=
          CollectNext(body, p, open, concat, stringify, c, sig, done, blanks);
    }
    c := Finish(body, open, c, sig, done, Mode(open, concat == p, stringify == p, blanks));
  }
}

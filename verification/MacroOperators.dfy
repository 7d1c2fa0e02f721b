/** What macro bodies and the operators # and ## in them mean, stated on bodies that are put together
    from their parts, and what a use next to ## contributes. */
module MacroOperators {
  import opened Characters
  import opened MacroBody
  import opened MacroUses
  import opened Wrappers
  import L = MacroLiterals

  // ---------------------------------------------------------------------------------------
  // A use next to ##

  /** White space other than single newlines, and markers. */
  predicate Tail(b: string)
  {
    if b == "" then true
    else if |b| >= 2 && b[|b| - 2] == '\n' then
      (b[|b| - 1] == '-' || IsHorSpace(b[|b| - 1])) && Tail(b[..|b| - 2])
    else IsHorSpace(b[|b| - 1]) && Tail(b[..|b| - 1])
  }

  /** The text from p to m does not end with white space or a marker. */
  predicate EndsAt(raw: string, p: nat, m: nat)
    requires p <= m <= |raw|
  {
    m > p ==> !IsSpace(raw[m - 1]) && !(raw[m - 1] == '-' && m >= p + 2 && raw[m - 2] == '\n')
  }

  lemma {:induction false} TailIsCut(raw: string, p: nat, m: nat, l: nat)
    requires p <= m <= l <= |raw| && EndsAt(raw, p, m) && Tail(raw[m..l])
    ensures PasteEnd(raw, p, l) == m
    decreases l
  {
    hide Tail, PasteEnd, EndsAt, IsSpace, IsHorSpace;
    if l == m {
      StopsThere(raw, p, m);
    } else {
      LastOfTail(raw, m, l);
      if l - m >= 2 && raw[l - 2] == '\n' {
        TailIsCut(raw, p, m, l - 2);
        if raw[l - 1] == '-' { MarkIsCut(raw, p, m, l); } else { NewlineIsCut(raw, p, l); }
      } else {
        TailIsCut(raw, p, m, l - 1);
        BlankIsCut(raw, p, l);
      }
    }
  }

  /** What a tail ends with. */
  lemma LastOfTail(raw: string, m: nat, l: nat)
    requires m < l <= |raw| && Tail(raw[m..l])
    ensures if l - m >= 2 && raw[l - 2] == '\n'
            then (raw[l - 1] == '-' || IsHorSpace(raw[l - 1])) && Tail(raw[m..l - 2])
            else IsHorSpace(raw[l - 1]) && Tail(raw[m..l - 1])
  {
    hide IsHorSpace;
    var b := raw[m..l];
    assert b[l - m - 1] == raw[l - 1];
    assert b[..l - m - 1] == raw[m..l - 1];
    if l - m >= 2 {
      assert b[l - m - 2] == raw[l - 2];
      assert b[..l - m - 2] == raw[m..l - 2];
    }
  }

  lemma BlankIsCut(raw: string, p: nat, l: nat)
    requires p < l <= |raw| && IsHorSpace(raw[l - 1])
    ensures PasteEnd(raw, p, l) == PasteEnd(raw, p, l - 1)
  {
  }

  lemma MarkIsCut(raw: string, p: nat, m: nat, l: nat)
    requires p <= m && m + 2 <= l <= |raw| && raw[l - 1] == '-' && raw[l - 2] == '\n'
    requires EndsAt(raw, p, m) && Tail(raw[m..l - 2])
    ensures PasteEnd(raw, p, l) == PasteEnd(raw, p, l - 2)
  {
    OneNewline(raw, p, m, l - 2);
    hide Tail, EndsAt, Newlines;
  }

  lemma StopsThere(raw: string, p: nat, m: nat)
    requires p <= m <= |raw| && EndsAt(raw, p, m)
    ensures PasteEnd(raw, p, m) == m
  {
    if m > p && raw[m - 1] == '-' { assert Newlines(raw, p, m - 1) == 0; }
  }

  lemma NewlineIsCut(raw: string, p: nat, l: nat)
    requires p + 2 <= l <= |raw| && raw[l - 2] == '\n' && IsHorSpace(raw[l - 1])
    ensures PasteEnd(raw, p, l) == PasteEnd(raw, p, l - 2)
  {
    assert PasteEnd(raw, p, l) == PasteEnd(raw, p, l - 1);
  }

  /** The newline of a marker is preceded by none. */
  lemma OneNewline(raw: string, p: nat, m: nat, l: nat)
    requires p <= m <= l < |raw| && EndsAt(raw, p, m) && Tail(raw[m..l]) && raw[l] == '\n'
    ensures Newlines(raw, p, l + 1) == 1
  {
    if l > m {
      assert raw[m..l][l - m - 1] == raw[l - 1];
    }
    assert Newlines(raw, p, l) == 0;
  }

  predicate AllId(s: string) { forall k :: 0 <= k < |s| ==> IsIdChar(s[k]) }

  /** What is pasted: an argument between white space and markers, that begins with a word or not; a
      marker right behind the word forbids that the word be expanded again. */
  predicate GoodOperand(a: string, word: string, mark: string, rest: string, b: string)
  {
    && L.AllSpace(a) && AllId(word) && Tail(b)
    && (word == "" ==> mark == "" && rest != "" && !IsSpace(rest[0]))
    && (mark == "" || mark == "\n-") && (mark != "" ==> rest != "")
    && (mark == "" && rest != "" ==> !IsIdChar(rest[0]) && !("\n-" <= rest + b))
    && (mark == "" && rest == "" ==> !("\n-" <= b))
    && EndsAt(a + (word + mark + rest), 0, |a + (word + mark + rest)|) && EndsAt(rest, 0, |rest|)
  }

  function Operand(a: string, word: string, mark: string, rest: string, b: string): string
  {
    a + word + mark + rest + b
  }

  lemma {:induction false} SpaceAhead(raw: string, n: nat)
    requires n <= |raw| && (forall k :: 0 <= k < n ==> IsSpace(raw[k])) && (n < |raw| ==> !IsSpace(raw[n]))
    ensures LeadingSpace(raw) == n
  {
    hide IsSpace;
  }

  lemma {:induction false} WordAhead(raw: string, p: nat, q: nat)
    requires p <= q <= |raw| && (forall k :: p <= k < q ==> IsIdChar(raw[k])) && (q < |raw| ==> !IsIdChar(raw[q]))
    ensures WordEnd(raw, p) == q
    decreases q - p
  {
    hide IsIdChar;
    if p < q { WordAhead(raw, p + 1, q); }
  }

  lemma OperandAt(a: string, word: string, mark: string, rest: string, b: string)
    ensures var raw, s := Operand(a, word, mark, rest, b), mark + rest + b;
            var p := |a| + |word|;
            && |raw| == p + |s| && raw[|a|..p] == word
            && (forall k :: 0 <= k < |a| ==> raw[k] == a[k])
            && (forall k :: |a| <= k < p ==> raw[k] == word[k - |a|])
            && (forall k :: p <= k < |raw| ==> raw[k] == s[k - p])
  {
    var raw, s := Operand(a, word, mark, rest, b), mark + rest + b;
    assert raw == a + word + s;
  }

  /** Where the parts of an operand lie. */
  lemma PartsLie(a: string, word: string, mark: string, rest: string, b: string)
    requires GoodOperand(a, word, mark, rest, b)
    ensures var raw := Operand(a, word, mark, rest, b);
            var p := |a| + |word|;
            && LeadingSpace(raw) == |a| && WordEnd(raw, |a|) == p && |raw| >= p && raw[|a|..p] == word
            && PasteRest(raw) == p + |mark|
  {
    hide IsSpace, IsIdChar, Tail, EndsAt, LeadingSpace, WordEnd;
    var raw, s := Operand(a, word, mark, rest, b), mark + rest + b;
    FirstOfOperand(a, word, mark, rest, b);
    BehindWord(a, word, mark, rest, b);
    OperandAt(a, word, mark, rest, b);
    assert L.AllSpace(a) && AllId(word) && (mark == "" || mark == "\n-");
    hide GoodOperand, Operand;
    SpaceAhead(raw, |a|);
    WordAhead(raw, |a|, |a| + |word|);
  }

  /** The operand begins behind its white space. */
  lemma FirstOfOperand(a: string, word: string, mark: string, rest: string, b: string)
    requires GoodOperand(a, word, mark, rest, b)
    ensures var raw := Operand(a, word, mark, rest, b); |a| < |raw| && !IsSpace(raw[|a|])
  {
    hide Tail, EndsAt;
    var raw := Operand(a, word, mark, rest, b);
    if word == "" {
      assert raw[|a|] == rest[0];
    } else {
      assert raw[|a|] == word[0] && IsIdChar(word[0]);
    }
  }

  lemma {:induction false} TailBegins(b: string)
    requires Tail(b) && b != ""
    ensures !IsIdChar(b[0])
  {
    if |b| >= 2 && b[|b| - 2] == '\n' {
      if |b| > 2 { TailBegins(b[..|b| - 2]); }
    } else {
      if |b| > 1 { TailBegins(b[..|b| - 1]); }
    }
  }

  lemma MarkAhead(s: string)
    ensures |s| >= 2 && s[0] == '\n' && s[1] == '-' ==> "\n-" <= s
  {
  }

  /** What follows the word does not continue it. */
  lemma BehindWord(a: string, word: string, mark: string, rest: string, b: string)
    requires GoodOperand(a, word, mark, rest, b)
    ensures var s := mark + rest + b;
            && (s != "" ==> !IsIdChar(s[0])) && (mark == "\n-" <==> |s| >= 2 && s[0] == '\n' && s[1] == '-')
  {
    hide Tail, EndsAt, IsSpace;
    var s := mark + rest + b;
    if mark == "" {
      assert s == rest + b;
      MarkAhead(s);
      if rest == "" {
        assert s == b;
        if b != "" { TailBegins(b); }
      }
    }
  }

  lemma PastedBefore(a: string, word: string, mark: string, rest: string, b: string)
    requires GoodOperand(a, word, mark, rest, b)
    ensures var raw, p := Operand(a, word, mark, rest, b), |a| + |word| + |mark|;
            && raw[p..] == rest + b && raw[..p + |rest|] == a + (word + mark + rest) && raw[p + |rest|..] == b
            && raw[p..p + |rest|] == rest && |raw| == p + |rest| + |b|
  {
  }

  /** Where the tail of an operand is cut, from its beginning and from behind its marker. */
  lemma TailLies(a: string, word: string, mark: string, rest: string, b: string)
    requires GoodOperand(a, word, mark, rest, b)
    ensures var raw, p := Operand(a, word, mark, rest, b), |a| + |word| + |mark|;
            |raw| == p + |rest| + |b| && PasteEnd(raw, p, |raw|) == PasteEnd(raw, 0, |raw|) == p + |rest|
  {
    hide Tail, PasteEnd, GoodOperand, EndsAt;
    PastedBefore(a, word, mark, rest, b);
    OperandEnds(a, word, mark, rest, b);
    var raw, p := Operand(a, word, mark, rest, b), |a| + |word| + |mark|;
    hide Operand;
    TailFrom(raw, p, p + |rest|, a + (word + mark + rest), rest, b);
  }

  lemma TailFrom(raw: string, p: nat, m: nat, core: string, rest: string, b: string)
    requires p <= m <= |raw| && raw[..m] == core && raw[p..m] == rest && raw[m..] == b && Tail(b)
    requires EndsAt(rest, 0, |rest|) && EndsAt(core, 0, |core|)
    ensures PasteEnd(raw, p, |raw|) == PasteEnd(raw, 0, |raw|) == m
  {
    hide Tail, PasteEnd, EndsAt;
    assert raw[m..|raw|] == b && raw[0..m] == core;
    SameEnd(raw, 0, m, core);
    SameEnd(raw, p, m, rest);
    TailIsCut(raw, 0, m, |raw|);
    TailIsCut(raw, p, m, |raw|);
  }

  lemma OperandEnds(a: string, word: string, mark: string, rest: string, b: string)
    requires GoodOperand(a, word, mark, rest, b)
    ensures Tail(b) && EndsAt(rest, 0, |rest|) && EndsAt(a + (word + mark + rest), 0, |a + (word + mark + rest)|)
  {
  }

  lemma SameEnd(raw: string, p: nat, m: nat, s: string)
    requires p <= m <= |raw| && raw[p..m] == s && EndsAt(s, 0, |s|)
    ensures EndsAt(raw, p, m)
  {
    if m > p { assert raw[m - 1] == s[|s| - 1]; }
    if m >= p + 2 { assert raw[m - 2] == s[|s| - 2]; }
  }

  lemma PastedParts(raw: string, before: bool, after: bool, word: string, p: nat, m: nat)
    requires LeadingSpace(raw) <= WordEnd(raw, LeadingSpace(raw)) <= p == PasteRest(raw) <= m <= |raw|
    requires raw[LeadingSpace(raw)..WordEnd(raw, LeadingSpace(raw))] == word
    requires PasteEnd(raw, p, |raw|) == PasteEnd(raw, 0, |raw|) == m
    ensures Pasted(raw, before, after)
         == (if before then word else MARKER) + raw[if before then p else 0..if after then m else |raw|]
            + (if after then "" else MARKER)
  {
    hide LeadingSpace, WordEnd, PasteRest, PasteEnd;
  }

  /** Text pasted to what precedes it comes without the white space before it and without the marker of
      its first word, text that is pasted to comes without the white space and markers behind it, and
      markers are put on the sides where nothing is pasted. */
  lemma OperandIsPasted(a: string, word: string, mark: string, rest: string, b: string, before: bool, after: bool)
    requires GoodOperand(a, word, mark, rest, b)
    ensures Pasted(Operand(a, word, mark, rest, b), before, after)
         == (if before then word + rest else MARKER + (a + (word + mark + rest))) + (if after then "" else b + MARKER)
  {
    hide LeadingSpace, WordEnd, PasteRest, PasteEnd, GoodOperand, Pasted;
    var raw := Operand(a, word, mark, rest, b);
    PartsLie(a, word, mark, rest, b);
    TailLies(a, word, mark, rest, b);
    PastedBefore(a, word, mark, rest, b);
    hide Operand;
    var p := |a| + |word| + |mark|;
    PastedParts(raw, before, after, word, p, p + |rest|);
    Slices(raw, p, p + |rest|, a + (word + mark + rest), rest, b);
    Joins(word, rest, b, MARKER);
    Joins(MARKER, a + (word + mark + rest), b, MARKER);
  }

  lemma Slices(raw: string, p: nat, m: nat, core: string, rest: string, b: string)
    requires p <= m <= |raw| && raw[..m] == core && raw[p..m] == rest && raw[m..] == b
    ensures raw[0..m] == core && raw[0..|raw|] == core + b && raw[p..|raw|] == rest + b
  {
  }

  lemma Joins(a: string, b: string, c: string, d: string)
    ensures a + (b + c) + d == (a + b) + (c + d) && a + b + "" == (a + b) + ""
  {
  }

  /** An argument of white space only is pasted as nothing. */
  lemma BlankIsPasted(raw: string, after: bool)
    requires L.AllSpace(raw)
    ensures Pasted(raw, true, after) == if after then "" else MARKER
  {
    SpaceAhead(raw, |raw|);
    WordAhead(raw, |raw|, |raw|);
    assert raw[|raw|..|raw|] == "";
  }

  // ---------------------------------------------------------------------------------------
  // Bodies

  /** What a body consists of: words, complete literals, blanks, the operators (spelled as digraphs or
      not, with the blanks behind them), and other characters. */
  datatype Part =
    | Name(s: string)
    | Quoted(q: char, inner: string)
    | Gap(s: string)
    | Stringify(digraph: bool, gap: string)
    | Concat(digraph: bool, gap: string)
    | Other(c: char)

  predicate AllHor(s: string) { forall k :: 0 <= k < |s| ==> IsHorSpace(s[k]) }

  predicate GoodPart(p: Part)
  {
    match p
    case Name(s) => s != "" && AllId(s)
    case Quoted(q, inner) => (q == '"' || q == '\'') && L.InLiteral(inner, q)
    case Gap(s) => s != "" && AllHor(s)
    case Stringify(_, gap) => AllHor(gap)
    case Concat(_, gap) => AllHor(gap)
    case Other(c) => !IsIdChar(c) && !IsHorSpace(c) && c !in "\"'#%"
  }

  function Source(p: Part): (s: string)
    ensures GoodPart(p) ==> s != ""
  {
    match p
    case Name(s) => s
    case Quoted(q, inner) => [q] + inner + [q]
    case Gap(s) => s
    case Stringify(digraph, gap) => (if digraph then "%:" else "#") + gap
    case Concat(digraph, gap) => (if digraph then "%:%:" else "##") + gap
    case Other(c) => [c]
  }

  /** A name that # may stand before: it begins like an identifier, and is not the L of a wide literal. */
  predicate IsPlainName(parts: seq<Part>, k: nat)
  {
    && k < |parts| && parts[k].Name? && parts[k].s != "" && IsIdStart(parts[k].s[0])
    && !(parts[k].s == "L" && k + 1 < |parts| && parts[k + 1].Quoted?)
  }

  /** Words and blanks are not split, operators take the blanks behind them, # stands before a name of a
      macro with parameters, and no < stands before a digraph. */
  predicate Follows(parts: seq<Part>, k: nat, sig: Signature)
    requires k < |parts|
  {
    var p := parts[k];
    && GoodPart(p)
    && (p.Name? ==> k + 1 < |parts| ==> !parts[k + 1].Name?)
    && (p.Gap? || p.Stringify? || p.Concat? ==> k + 1 < |parts| ==> !parts[k + 1].Gap?)
    && (p.Stringify? ==> sig.Function? && sig.Params() != [] && IsPlainName(parts, k + 1))
    && (p == Other('<') && k + 1 < |parts| ==>
          !(parts[k + 1].Stringify? || parts[k + 1].Concat?) || !parts[k + 1].digraph)
  }

  predicate GoodBody(parts: seq<Part>, sig: Signature)
  {
    (forall k :: 0 <= k < |parts| ==> Follows(parts, k, sig)) && (parts != [] ==> !parts[0].Concat?)
  }

  /** The text from the k-th part on. */
  function SourceFrom(parts: seq<Part>, k: nat): string
    requires k <= |parts|
    decreases |parts| - k
  {
    if k == |parts| then "" else Source(parts[k]) + SourceFrom(parts, k + 1)
  }

  /** The position of the parameter. */
  function Position(params: seq<string>, s: string): (i: nat)
    requires s in params
    ensures i < |params| && params[i] == s && forall j :: 0 <= j < i ==> params[j] != s
  {
    if params[0] == s then 0 else 1 + Position(params[1..], s)
  }

  /** The k-th part is a use of a parameter. */
  predicate IsUse(parts: seq<Part>, k: nat, params: seq<string>)
  {
    IsPlainName(parts, k) && parts[k].s in params
  }

  predicate ConcatAt(parts: seq<Part>, k: int) { 0 <= k < |parts| && parts[k].Concat? }

  /** A ## comes after the k-th part, with blanks before it or not. */
  predicate ConcatBehind(parts: seq<Part>, k: nat)
  {
    ConcatAt(parts, k + 1) || (k + 1 < |parts| && parts[k + 1].Gap? && ConcatAt(parts, k + 2))
  }

  /** What a use stands for: the argument as a string literal behind #, as it is next to ##, and
      otherwise expanded between two markers. */
  function Stands(parts: seq<Part>, k: nat, a: Arg): string
    requires k < |parts|
  {
    if k > 0 && parts[k - 1].Stringify? then Stringified(a.Raw())
    else if ConcatAt(parts, k - 1) || ConcatBehind(parts, k) then
      Pasted(a.Raw(), ConcatAt(parts, k - 1), ConcatBehind(parts, k))
    else Wrapped(a.Expanded())
  }

  /** What the k-th part contributes: operators nothing, blanks before ## nothing, a parameter what its
      use stands for, and anything else itself. */
  function Gives(parts: seq<Part>, k: nat, params: seq<string>, args: seq<Arg>): string
    requires k < |parts| && |args| == |params|
  {
    if parts[k].Stringify? || parts[k].Concat? then ""
    else if parts[k].Gap? && ConcatAt(parts, k + 1) then ""
    else if IsUse(parts, k, params) then Stands(parts, k, args[Position(params, parts[k].s)])
    else Source(parts[k])
  }

  function GivesFrom(parts: seq<Part>, k: nat, params: seq<string>, args: seq<Arg>): string
    requires k <= |parts| && |args| == |params|
    decreases |parts| - k
  {
    if k == |parts| then "" else Gives(parts, k, params, args) + GivesFrom(parts, k + 1, params, args)
  }

  // ---------------------------------------------------------------------------------------
  // Finding the parts again

  lemma {:induction false} HorAhead(body: string, p: nat, q: nat)
    requires p <= q <= |body| && (forall k :: p <= k < q ==> IsHorSpace(body[k]))
    requires q < |body| ==> !IsHorSpace(body[q])
    ensures HorEnd(body, p) == q
    decreases q - p
  {
    hide IsHorSpace;
    if p < q { HorAhead(body, p + 1, q); }
  }

  lemma {:induction false} IndexIsPosition(params: seq<string>, s: string, k: nat)
    requires k <= |params|
    ensures s in params && k <= Position(params, s) ==> IndexOf(params, s, k) == Position(params, s)
    ensures s !in params ==> IndexOf(params, s, k) == |params|
    decreases |params| - k
  {
    if k < |params| { IndexIsPosition(params, s, k + 1); }
  }

  /** The last character before p is that of s. */
  predicate EndsAtLast(body: string, p: nat, s: string)
    requires p <= |body|
  {
    p > 0 && s != "" && body[p - 1] == s[|s| - 1]
  }

  /** The k-th part begins at p. */
  ghost predicate BeginsAt(body: string, p: nat, parts: seq<Part>, k: nat)
  {
    && k <= |parts| && p <= |body| && body[p..] == SourceFrom(parts, k)
    && (k == 0 ==> p == 0 || body[p - 1] != '<')
    && (k > 0 ==> EndsAtLast(body, p, Source(parts[k - 1])))
  }

  lemma NextBegins(body: string, p: nat, parts: seq<Part>, k: nat)
    requires BeginsAt(body, p, parts, k) && k < |parts| && GoodPart(parts[k])
    ensures var t := Source(parts[k]); t != "" && L.Stands(body, p, t) && BeginsAt(body, p + |t|, parts, k + 1)
  {
    hide GoodPart, Source;
    var t := Source(parts[k]);
    L.StandsAndRest(body, p, t, SourceFrom(parts, k + 1));
    assert body[p + (|t| - 1)] == t[|t| - 1];
  }

  lemma LastEnds(body: string, p: nat, parts: seq<Part>)
    requires BeginsAt(body, p, parts, |parts|)
    ensures p == |body|
  {
  }

  /** How the text of the next part begins. */
  lemma NextChars(body: string, p: nat, parts: seq<Part>, k: nat)
    requires BeginsAt(body, p, parts, k) && k < |parts| && GoodPart(parts[k])
    ensures var t := Source(parts[k]);
            && t != "" && p + |t| <= |body| && body[p] == t[0] && (|t| >= 2 ==> body[p + 1] == t[1])
            && (|t| >= 3 ==> body[p + 2] == t[2])
  {
    hide Source, GoodPart;
    NextBegins(body, p, parts, k);
    var t := Source(parts[k]);
    assert body[p + 0] == t[0];
  }

  /** Whether text begins with a blank. */
  lemma BlankBegins(p: Part)
    requires GoodPart(p)
    ensures IsHorSpace(Source(p)[0]) <==> p.Gap?
    ensures IsIdChar(Source(p)[0]) <==> p.Name?
  {
  }

  lemma NoLess(body: string, p: nat, parts: seq<Part>, k: nat, sig: Signature)
    requires BeginsAt(body, p, parts, k) && GoodBody(parts, sig) && k < |parts|
    requires (parts[k].Stringify? || parts[k].Concat?) && parts[k].digraph
    ensures LessBefore(body, p) == 0
  {
    hide IsHorSpace, IsIdChar;
    if k > 0 {
      assert Follows(parts, k - 1, sig);
      NoLessEnds(parts[k - 1]);
    }
  }

  lemma NoLessEnds(p: Part)
    requires GoodPart(p) && p != Other('<')
    ensures Source(p)[|Source(p)| - 1] != '<'
  {
  }

  /** Behind the k-th part nothing goes on that belongs to it. */
  lemma HorBehind(body: string, p: nat, q: nat, parts: seq<Part>, k: nat)
    requires p <= q && BeginsAt(body, q, parts, k) && (k < |parts| ==> GoodPart(parts[k]) && !parts[k].Gap?)
    requires forall j :: p <= j < q ==> IsHorSpace(body[j])
    ensures HorEnd(body, p) == q
  {
    hide IsHorSpace, IsIdChar;
    if k < |parts| {
      NextChars(body, q, parts, k);
      BlankBegins(parts[k]);
    } else {
      LastEnds(body, q, parts);
    }
    HorAhead(body, p, q);
  }

  lemma StandsThere(body: string, p: nat, t: string)
    requires L.Stands(body, p, t)
    ensures StandsAt(body, p, t)
  {
  }

  lemma PrefixStands(body: string, p: nat, t: string, n: nat)
    requires L.Stands(body, p, t) && n <= |t|
    ensures L.Stands(body, p, t[..n])
  {
  }

  lemma OperatorStands(body: string, p: nat, op: string, gap: string)
    requires L.Stands(body, p, op + gap) && AllHor(gap)
    ensures L.Stands(body, p, op) && StandsAt(body, p, op)
    ensures forall j :: p + |op| <= j < p + |op| + |gap| ==> IsHorSpace(body[j])
  {
    hide IsHorSpace;
    PrefixStands(body, p, op + gap, |op|);
    assert (op + gap)[..|op|] == op;
    StandsThere(body, p, op);
    forall j | p + |op| <= j < p + |op| + |gap| ensures IsHorSpace(body[j]) {
      assert body[p + (j - p)] == gap[j - p - |op|];
    }
  }

  lemma ConcatFound(body: string, p: nat, parts: seq<Part>, k: nat, sig: Signature)
    requires BeginsAt(body, p, parts, k) && GoodBody(parts, sig) && ConcatAt(parts, k)
    ensures p < |body| && PieceAt(body, p, None, sig) == Paste(p + |Source(parts[k])|)
  {
    hide IsHorSpace, IsIdChar, BeginsAt, HorEnd, LessBefore;
    assert Follows(parts, k, sig) && (k + 1 < |parts| ==> Follows(parts, k + 1, sig));
    var t, op := Source(parts[k]), if parts[k].digraph then "%:%:" else "##";
    NextBegins(body, p, parts, k);
    OperatorStands(body, p, op, parts[k].gap);
    HorBehind(body, p + |op|, p + |t|, parts, k + 1);
    if parts[k].digraph {
      NoLess(body, p, parts, k, sig);
      LongerDigraph(body, p);
      assert body[p] == body[p..p + 4][0];
    }
  }

  lemma SharpFound(body: string, p: nat, parts: seq<Part>, k: nat, sig: Signature)
    requires BeginsAt(body, p, parts, k) && GoodBody(parts, sig) && k < |parts| && parts[k].Stringify?
    ensures p < |body| && PieceAt(body, p, None, sig) == Sharp(p + |Source(parts[k])|, true)
  {
    hide IsHorSpace, IsIdChar, IsIdStart, BeginsAt, HorEnd, LessBefore;
    assert Follows(parts, k, sig) && Follows(parts, k + 1, sig);
    var t, op := Source(parts[k]), if parts[k].digraph then "%:" else "#";
    var q := p + |t|;
    NextBegins(body, p, parts, k);
    OperatorStands(body, p, op, parts[k].gap);
    HorBehind(body, p + |op|, q, parts, k + 1);
    NextChars(body, q, parts, k + 1);
    NotWide(body, q, parts, k + 1, sig);
    NoPaste(body, p, op, parts, k);
    if parts[k].digraph {
      NoLess(body, p, parts, k, sig);
      assert body[p] == body[p..p + 2][0];
    } else {
      assert body[p] == body[p..p + 1][0];
      NotDigraph(body, p);
    }
  }

  lemma CharsOf(body: string, p: nat, t: string)
    requires t != ""
    ensures StandsAt(body, p, t) ==>
        body[p] == t[0] && (|t| >= 2 ==> body[p + 1] == t[1]) && (|t| >= 3 ==> body[p + 2] == t[2])
  {
    if StandsAt(body, p, t) {
      var u := body[p..p + |t|];
      assert u[0] == body[p];
      if |t| >= 2 { assert u[1] == body[p + 1]; }
      if |t| >= 3 { assert u[2] == body[p + 2]; }
    }
  }

  lemma NotDigraph(body: string, p: nat)
    requires p < |body| && body[p] != '%'
    ensures !StandsAt(body, p, "%:") && !StandsAt(body, p, "%:%:")
  {
    CharsOf(body, p, "%:");
    CharsOf(body, p, "%:%:");
  }

  /** A single operator is not followed by one. */
  lemma NoPaste(body: string, p: nat, op: string, parts: seq<Part>, k: nat)
    requires BeginsAt(body, p, parts, k) && k + 1 < |parts| && GoodPart(parts[k]) && parts[k].Stringify?
    requires GoodPart(parts[k + 1]) && parts[k + 1].Name?
    requires op == if parts[k].digraph then "%:" else "#"
    ensures !StandsAt(body, p, "##") && !StandsAt(body, p, "%:%:")
  {
    hide IsIdChar, IsHorSpace, BeginsAt, StandsAt;
    var t, gap := Source(parts[k]), parts[k].gap;
    NextBegins(body, p, parts, k);
    NextChars(body, p + |t|, parts, k + 1);
    assert body[p + 0] == t[0];
    NoOperatorBegins(parts[k + 1]);
    if gap != "" {
      assert body[p + |op|] == t[|op|] == gap[0];
      NoIdBlank(gap[0]);
    }
    CharsOf(body, p, "##");
    CharsOf(body, p, "%:%:");
  }

  /** Where the text behind a part begins with a quote. */
  lemma QuoteBehind(body: string, q: nat, parts: seq<Part>, k: nat)
    requires BeginsAt(body, q, parts, k) && (k < |parts| ==> GoodPart(parts[k]))
    ensures q < |body| && IsQuote(body[q]) <==> k < |parts| && parts[k].Quoted?
  {
    hide IsIdChar, IsHorSpace, IsQuote;
    if k < |parts| {
      NextChars(body, q, parts, k);
      QuoteBegins(parts[k]);
    } else {
      LastEnds(body, q, parts);
    }
  }

  /** A name that is no part of a wide literal. */
  lemma NotWide(body: string, q: nat, parts: seq<Part>, k: nat, sig: Signature)
    requires BeginsAt(body, q, parts, k) && GoodBody(parts, sig) && k < |parts| && parts[k].Name?
    ensures q < |body|
    ensures IsWide(body, q, q + |Source(parts[k])|) <==> parts[k].s == "L" && k + 1 < |parts| && parts[k + 1].Quoted?
    ensures IsPlainName(parts, k) ==> !IsWide(body, q, q + 1)
  {
    hide IsIdStart, IsIdChar, IsHorSpace, IsQuote, BeginsAt;
    assert Follows(parts, k, sig) && (k + 1 < |parts| ==> Follows(parts, k + 1, sig));
    var s := parts[k].s;
    NextBegins(body, q, parts, k);
    NextChars(body, q, parts, k);
    QuoteBehind(body, q + |s|, parts, k + 1);
    if |s| == 1 {
      assert s == [s[0]];
    } else {
      assert body[q + 1] == s[1] && IsIdChar(s[1]);
      IdIsNoQuote(s[1]);
    }
  }

  lemma IdIsNoQuote(c: char)
    requires IsIdChar(c)
    ensures !IsQuote(c)
  {
  }

  lemma QuoteBegins(p: Part)
    requires GoodPart(p)
    ensures IsQuote(Source(p)[0]) <==> p.Quoted?
  {
  }

  lemma OtherFound(body: string, p: nat, parts: seq<Part>, k: nat, sig: Signature)
    requires BeginsAt(body, p, parts, k) && GoodBody(parts, sig) && k < |parts| && parts[k].Other?
    ensures p < |body| && body[p] == parts[k].c && PieceAt(body, p, None, sig) == Copied(p + 1, None)
  {
    hide IsIdChar, IsHorSpace, BeginsAt, HorEnd, WordEnd, LessBefore;
    assert Follows(parts, k, sig);
    NextChars(body, p, parts, k);
    CharsOf(body, p, "##");
    NotDigraph(body, p);
  }

  lemma WordFound(body: string, p: nat, parts: seq<Part>, k: nat, sig: Signature)
    requires BeginsAt(body, p, parts, k) && GoodBody(parts, sig) && k < |parts| && parts[k].Name? && sig.Params() != []
    ensures p < |body| && PieceAt(body, p, None, sig) == Word(p + |parts[k].s|)
  {
    hide IsHorSpace, IsIdChar, BeginsAt, HorEnd, WordEnd, LessBefore;
    assert Follows(parts, k, sig) && (k + 1 < |parts| ==> Follows(parts, k + 1, sig));
    var s := parts[k].s;
    NextBegins(body, p, parts, k);
    NextChars(body, p, parts, k);
    IdIsNoOperator(s[0]);
    CharsOf(body, p, "##");
    NotDigraph(body, p);
    NoIdBehind(body, p + |s|, parts, k + 1);
    assert forall j :: p <= j < p + |s| ==> IsIdChar(body[j]) by {
      forall j | p <= j < p + |s| ensures IsIdChar(body[j]) { assert body[p + (j - p)] == s[j - p]; }
    }
    L.StandsBehind(body, p, s, 1);
    WordAhead(body, p + 1, p + |s|);
  }

  lemma IdIsNoOperator(c: char)
    requires IsIdChar(c)
    ensures c !in "#%\\\"'" && !IsHorSpace(c)
  {
  }

  lemma NoIdBehind(body: string, q: nat, parts: seq<Part>, k: nat)
    requires BeginsAt(body, q, parts, k) && (k < |parts| ==> GoodPart(parts[k]) && !parts[k].Name?)
    ensures q < |body| ==> !IsIdChar(body[q])
  {
    hide IsIdChar, IsHorSpace;
    if k < |parts| {
      NextChars(body, q, parts, k);
      BlankBegins(parts[k]);
    } else {
      LastEnds(body, q, parts);
    }
  }

  /** The parameter that the name is. */
  lemma ParamFound(body: string, p: nat, parts: seq<Part>, k: nat, sig: Signature)
    requires BeginsAt(body, p, parts, k) && GoodBody(parts, sig) && k < |parts| && parts[k].Name?
    ensures p < p + |parts[k].s| <= |body|
    ensures var i := ParamAt(body, p, p + |parts[k].s|, sig.Params());
            i == if IsUse(parts, k, sig.Params()) then Position(sig.Params(), parts[k].s) else |sig.Params()|
  {
    hide IsHorSpace, IsIdChar, IsIdStart, BeginsAt;
    assert Follows(parts, k, sig);
    var s, params := parts[k].s, sig.Params();
    NextBegins(body, p, parts, k);
    NextChars(body, p, parts, k);
    NotWide(body, p, parts, k, sig);
    assert body[p..p + |s|] == s by { StandsThere(body, p, s); }
    IndexIsPosition(params, s, 0);
  }

  lemma NoOperatorBegins(p: Part)
    requires GoodPart(p) && !p.Stringify? && !p.Concat?
    ensures Source(p)[0] != '#' && Source(p)[0] != '%'
  {
  }

  lemma InBody(body: string, q: nat, parts: seq<Part>, k: nat)
    requires BeginsAt(body, q, parts, k)
    ensures q <= |body|
  {
  }

  lemma ConcatStands(body: string, p: nat, parts: seq<Part>, k: nat, sig: Signature)
    requires BeginsAt(body, p, parts, k) && GoodBody(parts, sig)
    ensures PasteStands(body, p) <==> ConcatAt(parts, k)
  {
    hide IsHorSpace, IsIdChar;
    if k < |parts| {
      assert Follows(parts, k, sig);
      NextChars(body, p, parts, k);
      NextBegins(body, p, parts, k);
      CharsOf(body, p, "##");
      CharsOf(body, p, "%:%:");
      if parts[k].Concat? {
        OperatorStands(body, p, if parts[k].digraph then "%:%:" else "##", parts[k].gap);
      } else if parts[k].Stringify? {
        assert Follows(parts, k + 1, sig);
        NoPaste(body, p, if parts[k].digraph then "%:" else "#", parts, k);
      } else {
        NoOperatorBegins(parts[k]);
      }
    } else {
      LastEnds(body, p, parts);
    }
  }

  /** Whether ## is seen behind a name. */
  lemma ConcatSeen(body: string, q: nat, parts: seq<Part>, k: nat, sig: Signature)
    requires BeginsAt(body, q, parts, k + 1) && GoodBody(parts, sig) && k < |parts|
    ensures q <= |body| && (PasteStands(body, HorEnd(body, q)) <==> ConcatBehind(parts, k))
  {
    hide IsHorSpace, IsIdChar, BeginsAt, PasteStands, HorEnd;
    InBody(body, q, parts, k + 1);
    if k + 1 < |parts| && parts[k + 1].Gap? {
      assert Follows(parts, k + 1, sig) && (k + 2 < |parts| ==> Follows(parts, k + 2, sig));
      var gap := parts[k + 1].s;
      NextBegins(body, q, parts, k + 1);
      OperatorStands(body, q, "", gap);
      HorBehind(body, q, q + |gap|, parts, k + 2);
      ConcatStands(body, q + |gap|, parts, k + 2, sig);
    } else {
      assert k + 1 < |parts| ==> Follows(parts, k + 1, sig);
      HorBehind(body, q, q, parts, k + 1);
      ConcatStands(body, q, parts, k + 1, sig);
    }
  }

  // ---------------------------------------------------------------------------------------
  // The meaning of the parts

  lemma AfterPaste(body: string, p: nat, m: Mode, sig: Signature, args: seq<Arg>, q: nat)
    requires p < |body| && |args| == |sig.Params()| && PieceAt(body, p, m.open, sig) == Paste(q)
    ensures q <= |body| && Meaning(body, p, m, sig, args) == Meaning(body, q, Mode(None, true, false, ""), sig, args)
  {
    hide PieceAt;
  }

  lemma AfterSharpMark(body: string, p: nat, m: Mode, sig: Signature, args: seq<Arg>, q: nat)
    requires p < |body| && |args| == |sig.Params()| && PieceAt(body, p, m.open, sig) == Sharp(q, true)
    ensures q <= |body|
    ensures Meaning(body, p, m, sig, args) == Meaning(body, q, Mode(None, false, true, m.blanks), sig, args)
  {
    hide PieceAt;
  }

  lemma AfterBlank(body: string, p: nat, m: Mode, sig: Signature, args: seq<Arg>)
    requires p < |body| && |args| == |sig.Params()| && m.open == None && IsHorSpace(body[p])
    ensures Meaning(body, p, m, sig, args)
         == Meaning(body, p + 1, Mode(None, false, false, m.blanks + [body[p]]), sig, args)
  {
    hide PieceAt, IsHorSpace;
    BlankFound(body, p, sig);
  }

  lemma BlankFound(body: string, p: nat, sig: Signature)
    requires p < |body| && IsHorSpace(body[p])
    ensures PieceAt(body, p, None, sig) == Blank(p + 1)
  {
    NoIdBlank(body[p]);
    hide IsHorSpace, IsIdChar, HorEnd, WordEnd, LessBefore;
    CharsOf(body, p, "##");
    NotDigraph(body, p);
    hide StandsAt, Digraph;
  }

  lemma NoIdBlank(c: char)
    requires IsHorSpace(c)
    ensures !IsIdChar(c) && c != '#' && c != '%' && c != '\\' && !IsQuote(c)
  {
  }

  lemma {:induction false} AfterGap(body: string, p: nat, q: nat, m: Mode, sig: Signature, args: seq<Arg>)
    requires p < q <= |body| && |args| == |sig.Params()| && m.open == None
    requires forall j :: p <= j < q ==> IsHorSpace(body[j])
    ensures Meaning(body, p, m, sig, args)
         == Meaning(body, q, Mode(None, false, false, m.blanks + body[p..q]), sig, args)
    decreases q - p
  {
    hide Meaning, IsHorSpace;
    AfterBlank(body, p, m, sig, args);
    if p + 1 == q {
      assert body[p..q] == [body[p]];
    } else {
      AfterGap(body, p + 1, q, Mode(None, false, false, m.blanks + [body[p]]), sig, args);
      assert m.blanks + body[p..q] == m.blanks + [body[p]] + body[p + 1..q];
    }
  }

  lemma AfterCopied(body: string, p: nat, m: Mode, sig: Signature, args: seq<Arg>, q: nat, next: Option<char>)
    requires p < |body| && |args| == |sig.Params()| && PieceAt(body, p, m.open, sig) == Copied(q, next)
    ensures q <= |body|
    ensures Meaning(body, p, m, sig, args)
         == m.blanks + (body[p..q] + Meaning(body, q, Mode(next, false, false, ""), sig, args))
  {
    hide PieceAt;
  }

  lemma AfterWord(body: string, p: nat, m: Mode, sig: Signature, args: seq<Arg>, q: nat)
    requires p < |body| && |args| == |sig.Params()| && PieceAt(body, p, m.open, sig) == Word(q)
    ensures p < q <= |body|
    ensures var i := ParamAt(body, p, q, sig.Params());
            var text := if m.open == None && i < |args| then UseOf(m, body, q, i, args) else body[p..q];
            Meaning(body, p, m, sig, args) ==
                m.blanks + (text + Meaning(body, q, Mode(m.open, false, false, ""), sig, args))
  {
    hide PieceAt, ParamAt, UseOf;
  }

  lemma CharCopied(body: string, p: nat, open: Option<char>, sig: Signature)
    requires p < |body| && IsIdChar(body[p]) && sig.Params() == []
    ensures PieceAt(body, p, open, sig) == Copied(p + 1, open)
  {
    IdIsNoOperator(body[p]);
    IdIsNoQuote(body[p]);
    CharsOf(body, p, "##");
    NotDigraph(body, p);
    hide IsHorSpace, IsIdChar, HorEnd, WordEnd;
  }

  /** A word of a macro without parameters is copied. */
  lemma {:induction false} AfterChars(body: string, p: nat, q: nat, m: Mode, sig: Signature, args: seq<Arg>)
    requires p < q <= |body| && |args| == |sig.Params()| && sig.Params() == []
    requires forall j :: p <= j < q ==> IsIdChar(body[j])
    ensures Meaning(body, p, m, sig, args)
         == m.blanks + (body[p..q] + Meaning(body, q, Mode(m.open, false, false, ""), sig, args))
    decreases q - p
  {
    hide Meaning, IsIdChar, PieceAt;
    CharCopied(body, p, m.open, sig);
    AfterCopied(body, p, m, sig, args, p + 1, m.open);
    var rest := Meaning(body, q, Mode(m.open, false, false, ""), sig, args);
    if p + 1 < q {
      AfterChars(body, p + 1, q, Mode(m.open, false, false, ""), sig, args);
      assert body[p..q] == body[p..p + 1] + body[p + 1..q];
      Regroup(body[p..p + 1], body[p + 1..q], rest);
    }
  }

  lemma Regroup(a: string, b: string, rest: string)
    ensures a + ("" + (b + rest)) == (a + b) + rest
  {
  }

  predicate IsMark(q: char) { q == '"' || q == '\'' }

  lemma {:induction false} LiteralGoesOn(inner: string, q: char, n: nat)
    requires L.InLiteral(inner, q) && n <= |inner| && forall j :: 0 <= j < n ==> IsIdChar(inner[j])
    ensures L.InLiteral(inner[n..], q)
  {
    hide IsIdChar;
    if n > 0 {
      IdIsNoOperator(inner[0]);
      LiteralGoesOn(inner[1..], q, n - 1);
      assert inner[1..][n - 1..] == inner[n..];
    } else {
      assert inner[0..] == inner;
    }
  }

  /** The piece at p inside a literal, where no word begins. */
  lemma CopiedInside(body: string, p: nat, q: char, sig: Signature)
    requires p < |body| && IsMark(q) && !(IsIdChar(body[p]) && sig.Params() != [])
    ensures body[p] == '\\' && p + 1 < |body| ==> PieceAt(body, p, Some(q), sig) == Copied(p + 2, Some(q))
    ensures body[p] != '\\' ==> PieceAt(body, p, Some(q), sig) == Copied(p + 1, if body[p] == q then None else Some(q))
  {
    hide HorEnd, WordEnd, Digraph, StandsAt, IsHorSpace;
  }

  lemma WordInside(body: string, p: nat, q: char, sig: Signature)
    requires p < |body| && IsMark(q) && IsIdChar(body[p]) && sig.Params() != []
    ensures PieceAt(body, p, Some(q), sig) == Word(WordEnd(body, p + 1))
  {
    IdIsNoOperator(body[p]);
    hide HorEnd, WordEnd, Digraph, StandsAt, IsHorSpace, IsIdChar;
  }

  /** One step of copying a literal takes n characters. */
  lemma InsideStep(body: string, p: nat, inner: string, n: nat, q: char, sig: Signature, args: seq<Arg>)
    requires 0 < n <= |inner| && L.Stands(body, p, inner) && p + |inner| < |body| && |args| == |sig.Params()|
    requires Meaning(body, p, Mode(Some(q), false, false, ""), sig, args)
          == "" + (body[p..p + n] + Meaning(body, p + n, Mode(Some(q), false, false, ""), sig, args))
    requires Meaning(body, p + n, Mode(Some(q), false, false, ""), sig, args)
          == inner[n..] + ([q] + Meaning(body, p + |inner| + 1, BEGIN, sig, args))
    ensures Meaning(body, p, Mode(Some(q), false, false, ""), sig, args)
         == inner + ([q] + Meaning(body, p + |inner| + 1, BEGIN, sig, args))
  {
    hide Meaning;
    var rest := [q] + Meaning(body, p + |inner| + 1, BEGIN, sig, args);
    FrontStands(body, p, inner, n);
    hide L.Stands;
    TwoSteps(body[p..p + n], inner, n, rest);
  }

  lemma FrontStands(body: string, p: nat, inner: string, n: nat)
    requires n <= |inner| && L.Stands(body, p, inner)
    ensures p + n <= |body| && body[p..p + n] == inner[..n]
  {
  }

  lemma TwoSteps(first: string, inner: string, n: nat, rest: string)
    requires n <= |inner| && first == inner[..n]
    ensures "" + (first + (inner[n..] + rest)) == inner + rest
  {
    assert inner == inner[..n] + inner[n..];
  }

  /** The next step of copying a literal that goes on. */
  lemma LiteralStep(body: string, p: nat, inner: string, q: char, sig: Signature, args: seq<Arg>) returns (n: nat)
    requires L.Stands(body, p, inner) && p + |inner| < |body| && body[p + |inner|] == q && IsMark(q)
    requires L.InLiteral(inner, q) && |args| == |sig.Params()| && inner != ""
    ensures 0 < n <= |inner| && L.InLiteral(inner[n..], q)
    ensures Meaning(body, p, Mode(Some(q), false, false, ""), sig, args)
         == "" + (body[p..p + n] + Meaning(body, p + n, Mode(Some(q), false, false, ""), sig, args))
  {
    hide Meaning, PieceAt, IsIdChar;
    var m := Mode(Some(q), false, false, "");
    assert body[p + 0] == inner[0];
    n := 1;
    if inner[0] == '\\' {
      n := 2;
      MarkIsNoId(inner[0]);
      CopiedInside(body, p, q, sig);
      AfterCopied(body, p, m, sig, args, p + 2, Some(q));
    } else if IsIdChar(body[p]) && sig.Params() != [] {
      WordInside(body, p, q, sig);
      n := WordEnd(body, p + 1) - p;
      AfterWord(body, p, m, sig, args, p + n);
      WordStaysInside(body, p, inner, q, n);
    } else {
      CopiedInside(body, p, q, sig);
      AfterCopied(body, p, m, sig, args, p + 1, Some(q));
    }
  }

  lemma {:induction false} AfterLiteral(body: string, p: nat, inner: string, q: char, sig: Signature, args: seq<Arg>)
    requires L.Stands(body, p, inner) && p + |inner| < |body| && body[p + |inner|] == q && IsMark(q)
    requires L.InLiteral(inner, q) && |args| == |sig.Params()|
    ensures Meaning(body, p, Mode(Some(q), false, false, ""), sig, args)
         == inner + ([q] + Meaning(body, p + |inner| + 1, BEGIN, sig, args))
    decreases |inner|
  {
    hide Meaning, PieceAt, IsIdChar, L.InLiteral;
    if inner == "" {
      MarkIsNoId(q);
      CopiedInside(body, p, q, sig);
      AfterCopied(body, p, Mode(Some(q), false, false, ""), sig, args, p + 1, None);
      assert body[p..p + 1] == [q];
      Associative("", "", [q] + Meaning(body, p + 1, BEGIN, sig, args));
    } else {
      var n := LiteralStep(body, p, inner, q, sig, args);
      L.StandsBehind(body, p, inner, n);
      AfterLiteral(body, p + n, inner[n..], q, sig, args);
      InsideStep(body, p, inner, n, q, sig, args);
    }
  }

  lemma MarkIsNoId(c: char)
    requires IsMark(c) || c == '\\'
    ensures !IsIdChar(c)
  {
  }

  lemma WordStaysInside(body: string, p: nat, inner: string, q: char, n: nat)
    requires L.Stands(body, p, inner) && inner != "" && p + |inner| < |body| && body[p + |inner|] == q && IsMark(q)
    requires L.InLiteral(inner, q) && IsIdChar(body[p]) && n == WordEnd(body, p + 1) - p
    ensures 0 < n <= |inner| && L.InLiteral(inner[n..], q)
  {
    hide IsIdChar;
    MarkIsNoId(q);
    assert n <= |inner|;
    forall j | 0 <= j < n ensures IsIdChar(inner[j]) {
      assert body[p + j] == inner[j];
    }
    LiteralGoesOn(inner, q, n);
  }

  // ---------------------------------------------------------------------------------------
  // The whole body

  /** How the meaning of the body goes on at the k-th part. */
  function ModeAt(parts: seq<Part>, k: nat, blanks: string): Mode
    requires k <= |parts|
  {
    Mode(None, ConcatAt(parts, k - 1), k > 0 && parts[k - 1].Stringify?, blanks)
  }

  function Rest(parts: seq<Part>, k: nat, sig: Signature, args: seq<Arg>): string
    requires k <= |parts| && |args| == |sig.Params()|
  {
    GivesFrom(parts, k, sig.Params(), args) + MARKER
  }

  /** From the k-th part on the body means what its parts give, and blanks before them are dropped
      before ## only. */
  ghost predicate MeansFrom(body: string, p: nat, parts: seq<Part>, k: nat, blanks: string, sig: Signature,
                            args: seq<Arg>)
    requires k <= |parts| && p <= |body| && |args| == |sig.Params()|
  {
    Meaning(body, p, ModeAt(parts, k, blanks), sig, args)
    == (if ConcatAt(parts, k) then "" else blanks) + Rest(parts, k, sig, args)
  }

  lemma RestNext(parts: seq<Part>, k: nat, sig: Signature, args: seq<Arg>)
    requires k < |parts| && |args| == |sig.Params()|
    ensures Rest(parts, k, sig, args) == Gives(parts, k, sig.Params(), args) + Rest(parts, k + 1, sig, args)
  {
    hide Gives;
    Associative(Gives(parts, k, sig.Params(), args), GivesFrom(parts, k + 1, sig.Params(), args), MARKER);
  }

  lemma OperatorMeans(body: string, p: nat, q: nat, parts: seq<Part>, k: nat, blanks: string, sig: Signature,
                      args: seq<Arg>)
    requires BeginsAt(body, p, parts, k) && GoodBody(parts, sig) && k < |parts| && |args| == |sig.Params()|
    requires parts[k].Stringify? || parts[k].Concat?
    requires q == p + |Source(parts[k])| && q <= |body|
    requires MeansFrom(body, q, parts, k + 1, if parts[k].Concat? then "" else blanks, sig, args)
    ensures p <= |body| && MeansFrom(body, p, parts, k, blanks, sig, args)
  {
    hide Meaning, PieceAt, Rest, BeginsAt, GivesFrom;
    RestNext(parts, k, sig, args);
    assert Follows(parts, k, sig);
    if parts[k].Concat? {
      ConcatFound(body, p, parts, k, sig);
      AfterPaste(body, p, ModeAt(parts, k, blanks), sig, args, q);
    } else {
      SharpFound(body, p, parts, k, sig);
      AfterSharpMark(body, p, ModeAt(parts, k, blanks), sig, args, q);
    }
    Associative("", "", Rest(parts, k + 1, sig, args));
  }

  lemma GapStands(body: string, p: nat, parts: seq<Part>, k: nat, sig: Signature)
    requires BeginsAt(body, p, parts, k) && GoodBody(parts, sig) && k < |parts| && parts[k].Gap?
    ensures var q := p + |parts[k].s|;
            p < q <= |body| && body[p..q] == parts[k].s && (forall j :: p <= j < q ==> IsHorSpace(body[j]))
    ensures k + 1 < |parts| ==> !parts[k + 1].Gap?
  {
    hide BeginsAt, IsHorSpace, IsIdChar, L.InLiteral;
    assert Follows(parts, k, sig);
    NextBegins(body, p, parts, k);
    OperatorStands(body, p, "", parts[k].s);
    StandsThere(body, p, parts[k].s);
  }

  lemma GapMeans(body: string, p: nat, q: nat, parts: seq<Part>, k: nat, sig: Signature, args: seq<Arg>)
    requires BeginsAt(body, p, parts, k) && GoodBody(parts, sig) && k < |parts| && |args| == |sig.Params()|
    requires parts[k].Gap? && q == p + |Source(parts[k])| && q <= |body|
    requires MeansFrom(body, q, parts, k + 1, parts[k].s, sig, args)
    ensures p <= |body| && MeansFrom(body, p, parts, k, "", sig, args)
  {
    hide Meaning, Rest, BeginsAt, GoodBody, IsHorSpace;
    RestNext(parts, k, sig, args);
    GapStands(body, p, parts, k, sig);
    AfterGap(body, p, q, ModeAt(parts, k, ""), sig, args);
    Associative("", "", parts[k].s);
    Associative("", "", Rest(parts, k + 1, sig, args));
    GapGives(parts, k, sig.Params(), args);
    hide Gives;
    Associative("", "", Rest(parts, k, sig, args));
  }

  lemma GapGives(parts: seq<Part>, k: nat, params: seq<string>, args: seq<Arg>)
    requires k < |parts| && parts[k].Gap? && |args| == |params|
    ensures Gives(parts, k, params, args) == if ConcatAt(parts, k + 1) then "" else parts[k].s
  {
  }

  /** A part that is copied or a use of a parameter. */
  lemma TextMeans(body: string, p: nat, q: nat, parts: seq<Part>, k: nat, blanks: string, sig: Signature,
                  args: seq<Arg>)
    requires BeginsAt(body, p, parts, k) && GoodBody(parts, sig) && k < |parts| && |args| == |sig.Params()|
    requires parts[k].Name? || parts[k].Quoted? || parts[k].Other?
    requires q == p + |Source(parts[k])| && q <= |body|
    requires MeansFrom(body, q, parts, k + 1, "", sig, args)
    ensures p <= |body| && MeansFrom(body, p, parts, k, blanks, sig, args)
  {
    hide Meaning, PieceAt, Rest, BeginsAt, GivesFrom, Gives;
    RestNext(parts, k, sig, args);
    TextGives(body, p, q, parts, k, blanks, sig, args);
    Associative("", "", Rest(parts, k + 1, sig, args));
    assert ModeAt(parts, k + 1, "") == BEGIN;
  }

  lemma LiteralMeans(body: string, p: nat, q: char, inner: string, m: Mode, sig: Signature, args: seq<Arg>)
    requires L.Stands(body, p, [q] + inner + [q]) && IsMark(q) && L.InLiteral(inner, q)
    requires |args| == |sig.Params()| && m.open == None
    ensures p + |inner| + 2 <= |body|
    ensures Meaning(body, p, m, sig, args)
         == m.blanks + (([q] + inner + [q]) + Meaning(body, p + |inner| + 2, BEGIN, sig, args))
  {
    hide Meaning, PieceAt, L.InLiteral;
    L.LiteralStands(body, p, q, inner);
    QuoteOpens(body, p, sig);
    AfterCopied(body, p, m, sig, args, p + 1, Some(q));
    AfterLiteral(body, p + 1, inner, q, sig, args);
    var rest := Meaning(body, p + |inner| + 2, BEGIN, sig, args);
    assert body[p..p + 1] == [q];
    Associative("", "", inner + ([q] + rest));
    L.FourParts(q, inner, rest);
  }

  lemma QuoteOpens(body: string, p: nat, sig: Signature)
    requires p < |body| && IsMark(body[p])
    ensures PieceAt(body, p, None, sig) == Copied(p + 1, Some(body[p]))
  {
    MarkIsNoId(body[p]);
    CharsOf(body, p, "##");
    NotDigraph(body, p);
    hide HorEnd, WordEnd, IsIdChar, LessBefore;
  }

  lemma NameStands(body: string, p: nat, s: string)
    requires L.Stands(body, p, s) && AllId(s)
    ensures p + |s| <= |body| && forall j :: p <= j < p + |s| ==> IsIdChar(body[j])
  {
    hide IsIdChar;
    forall j | p <= j < p + |s| ensures IsIdChar(body[j]) {
      assert body[p + (j - p)] == s[j - p];
    }
  }

  lemma NameGives(body: string, p: nat, q: nat, parts: seq<Part>, k: nat, blanks: string, sig: Signature,
                  args: seq<Arg>)
    requires BeginsAt(body, p, parts, k) && GoodBody(parts, sig) && k < |parts| && |args| == |sig.Params()|
    requires parts[k].Name? && sig.Params() != [] && q == p + |Source(parts[k])| && q <= |body|
    ensures p <= |body| && GivesAt(body, p, q, parts, k, blanks, sig, args)
  {
    hide Meaning, PieceAt, BeginsAt, UseText, ParamAt, PasteStands, HorEnd, ConcatBehind, IsPlainName, GoodBody,
        GoodPart;
    var m := ModeAt(parts, k, blanks);
    PartStands(body, p, parts, k, sig);
    WordFound(body, p, parts, k, sig);
    AfterWord(body, p, m, sig, args, q);
    ParamFound(body, p, parts, k, sig);
    NextBegins1(body, p, q, parts, k, sig);
    ConcatSeen(body, q, parts, k, sig);
    if IsUse(parts, k, sig.Params()) {
      var i := Position(sig.Params(), parts[k].s);
      UseStands(parts, k, m, i, args[i]);
    }
  }

  lemma NextBegins1(body: string, p: nat, q: nat, parts: seq<Part>, k: nat, sig: Signature)
    requires BeginsAt(body, p, parts, k) && GoodBody(parts, sig) && k < |parts| && q == p + |Source(parts[k])|
    ensures BeginsAt(body, q, parts, k + 1)
  {
    hide BeginsAt, Source, GoodPart;
    assert Follows(parts, k, sig);
    NextBegins(body, p, parts, k);
  }

  lemma UseStands(parts: seq<Part>, k: nat, m: Mode, i: nat, a: Arg)
    requires k < |parts| && m == ModeAt(parts, k, m.blanks)
    ensures UseText(Ref(0, i, m.sharp, m.paste, ConcatBehind(parts, k)), a) == Stands(parts, k, a)
  {
    hide ConcatBehind, Stringified, Pasted;
  }

  /** The k-th part, from p to q, gives its text behind the blanks. */
  ghost predicate GivesAt(body: string, p: nat, q: nat, parts: seq<Part>, k: nat, blanks: string, sig: Signature,
                          args: seq<Arg>)
    requires p <= |body| && q <= |body| && k < |parts| && |args| == |sig.Params()|
  {
    Meaning(body, p, ModeAt(parts, k, blanks), sig, args)
    == blanks + (Gives(parts, k, sig.Params(), args) + Meaning(body, q, BEGIN, sig, args))
  }

  lemma IsGood(parts: seq<Part>, k: nat, sig: Signature)
    requires GoodBody(parts, sig) && k < |parts|
    ensures GoodPart(parts[k])
  {
    assert Follows(parts, k, sig);
  }

  lemma PartStands(body: string, p: nat, parts: seq<Part>, k: nat, sig: Signature)
    requires BeginsAt(body, p, parts, k) && GoodBody(parts, sig) && k < |parts|
    ensures var t := Source(parts[k]); GoodPart(parts[k]) && t != "" && L.Stands(body, p, t) && StandsAt(body, p, t)
  {
    hide BeginsAt, Source, GoodPart, GoodBody;
    IsGood(parts, k, sig);
    NextBegins(body, p, parts, k);
    StandsThere(body, p, Source(parts[k]));
  }

  lemma OtherGives(body: string, p: nat, q: nat, parts: seq<Part>, k: nat, blanks: string, sig: Signature,
                   args: seq<Arg>)
    requires BeginsAt(body, p, parts, k) && GoodBody(parts, sig) && k < |parts| && |args| == |sig.Params()|
    requires parts[k].Other? && q == p + |Source(parts[k])| && q <= |body|
    ensures p <= |body| && GivesAt(body, p, q, parts, k, blanks, sig, args)
  {
    hide Meaning, BeginsAt, Gives, GoodBody, GoodPart;
    PartStands(body, p, parts, k, sig);
    OwnText(parts, k, sig.Params(), args);
    OtherFound(body, p, parts, k, sig);
    hide PieceAt;
    AfterCopied(body, p, ModeAt(parts, k, blanks), sig, args, q, None);
  }

  lemma QuotedGives(body: string, p: nat, q: nat, parts: seq<Part>, k: nat, blanks: string, sig: Signature,
                    args: seq<Arg>)
    requires BeginsAt(body, p, parts, k) && GoodBody(parts, sig) && k < |parts| && |args| == |sig.Params()|
    requires parts[k].Quoted? && q == p + |Source(parts[k])| && q <= |body|
    ensures p <= |body| && GivesAt(body, p, q, parts, k, blanks, sig, args)
  {
    hide Meaning, BeginsAt, Gives, GoodBody, GoodPart;
    PartStands(body, p, parts, k, sig);
    OwnText(parts, k, sig.Params(), args);
    GoodLiteral(parts[k]);
    LiteralMeans(body, p, parts[k].q, parts[k].inner, ModeAt(parts, k, blanks), sig, args);
  }

  lemma CharsGive(body: string, p: nat, q: nat, parts: seq<Part>, k: nat, blanks: string, sig: Signature,
                  args: seq<Arg>)
    requires BeginsAt(body, p, parts, k) && GoodBody(parts, sig) && k < |parts| && |args| == |sig.Params()|
    requires parts[k].Name? && sig.Params() == [] && q == p + |Source(parts[k])| && q <= |body|
    ensures p <= |body| && GivesAt(body, p, q, parts, k, blanks, sig, args)
  {
    hide Meaning, BeginsAt, Gives, GoodBody, GoodPart;
    PartStands(body, p, parts, k, sig);
    OwnText(parts, k, sig.Params(), args);
    GoodName(parts[k]);
    hide AllId, IsIdChar;
    NameStands(body, p, parts[k].s);
    AfterChars(body, p, q, ModeAt(parts, k, blanks), sig, args);
  }

  lemma TextGives(body: string, p: nat, q: nat, parts: seq<Part>, k: nat, blanks: string, sig: Signature,
                  args: seq<Arg>)
    requires BeginsAt(body, p, parts, k) && GoodBody(parts, sig) && k < |parts| && |args| == |sig.Params()|
    requires (parts[k].Name? || parts[k].Quoted? || parts[k].Other?) && q == p + |Source(parts[k])| && q <= |body|
    ensures p <= |body| && GivesAt(body, p, q, parts, k, blanks, sig, args)
  {
    hide Meaning, BeginsAt, Gives, GoodBody, GoodPart, GivesAt;
    if parts[k].Other? {
      OtherGives(body, p, q, parts, k, blanks, sig, args);
    } else if parts[k].Quoted? {
      QuotedGives(body, p, q, parts, k, blanks, sig, args);
    } else if sig.Params() == [] {
      CharsGive(body, p, q, parts, k, blanks, sig, args);
    } else {
      NameGives(body, p, q, parts, k, blanks, sig, args);
    }
  }

  lemma OwnText(parts: seq<Part>, k: nat, params: seq<string>, args: seq<Arg>)
    requires k < |parts| && |args| == |params|
    requires parts[k].Quoted? || parts[k].Other? || (parts[k].Name? && params == [])
    ensures Gives(parts, k, params, args) == Source(parts[k])
  {
  }

  lemma GoodLiteral(p: Part)
    requires GoodPart(p) && p.Quoted?
    ensures IsMark(p.q) && L.InLiteral(p.inner, p.q)
  {
  }

  lemma GoodName(p: Part)
    requires GoodPart(p) && p.Name?
    ensures p.s != "" && AllId(p.s)
  {
  }

  lemma EndMeans(body: string, p: nat, parts: seq<Part>, blanks: string, sig: Signature, args: seq<Arg>)
    requires BeginsAt(body, p, parts, |parts|) && |args| == |sig.Params()|
    ensures p <= |body| && MeansFrom(body, p, parts, |parts|, blanks, sig, args)
  {
    LastEnds(body, p, parts);
    Associative("", MARKER, MARKER);
  }

  lemma {:induction false} PartsMean(body: string, p: nat, parts: seq<Part>, k: nat, blanks: string, sig: Signature,
                                     args: seq<Arg>)
    requires BeginsAt(body, p, parts, k) && GoodBody(parts, sig) && k <= |parts| && |args| == |sig.Params()|
    requires k < |parts| && parts[k].Gap? ==> blanks == ""
    ensures p <= |body| && MeansFrom(body, p, parts, k, blanks, sig, args)
    decreases |parts| - k
  {
    hide BeginsAt, MeansFrom, GoodPart, Source;
    InBody(body, p, parts, k);
    if k == |parts| {
      EndMeans(body, p, parts, blanks, sig, args);
    } else {
      var q := p + |Source(parts[k])|;
      assert Follows(parts, k, sig);
      NextBegins(body, p, parts, k);
      InBody(body, q, parts, k + 1);
      if parts[k].Gap? {
        PartsMean(body, q, parts, k + 1, parts[k].s, sig, args);
        GapMeans(body, p, q, parts, k, sig, args);
      } else if parts[k].Stringify? || parts[k].Concat? {
        PartsMean(body, q, parts, k + 1, if parts[k].Concat? then "" else blanks, sig, args);
        OperatorMeans(body, p, q, parts, k, blanks, sig, args);
      } else {
        PartsMean(body, q, parts, k + 1, "", sig, args);
        TextMeans(body, p, q, parts, k, blanks, sig, args);
      }
    }
  }

  /** A body means what its parts give, and a marker. */
  lemma BodyMeansParts(parts: seq<Part>, sig: Signature, args: seq<Arg>)
    requires GoodBody(parts, sig) && |args| == |sig.Params()|
    ensures var body := SourceFrom(parts, 0);
            Meaning(body, Begin(body), BEGIN, sig, args) == GivesFrom(parts, 0, sig.Params(), args) + MARKER
  {
    hide Meaning, GivesFrom, SourceFrom;
    var body := SourceFrom(parts, 0);
    assert body[0..] == body && BeginsAt(body, 0, parts, 0);
    PartsMean(body, 0, parts, 0, "", sig, args);
    ConcatStands(body, 0, parts, 0, sig);
    Associative("", "", Rest(parts, 0, sig, args));
  }

  /** A ## at the very start is passed over. */
  lemma LeadingConcat(digraph: bool, parts: seq<Part>, sig: Signature, args: seq<Arg>)
    requires GoodBody(parts, sig) && |args| == |sig.Params()|
    ensures var body := (if digraph then "%:%:" else "##") + SourceFrom(parts, 0);
            Meaning(body, Begin(body), BEGIN, sig, args) == GivesFrom(parts, 0, sig.Params(), args) + MARKER
  {
    hide Meaning, GivesFrom, SourceFrom;
    var op := if digraph then "%:%:" else "##";
    var body := op + SourceFrom(parts, 0);
    assert body[|op|..] == SourceFrom(parts, 0) && body[..|op|] == op && body[0..|op|] == op;
    assert body[|op| - 1] == op[|op| - 1];
    CharsOf(body, 0, "##");
    assert BeginsAt(body, |op|, parts, 0);
    PartsMean(body, |op|, parts, 0, "", sig, args);
    Associative("", "", Rest(parts, 0, sig, args));
  }

  /** For every text of < behind something else, %: counts as # behind an even number of them only. */
  lemma {:induction false} EvenDigraph(before: string, n: nat, behind: string)
    requires before != "" ==> before[|before| - 1] != '<'
    ensures var body := before + Less(n) + "%:" + behind; Digraph(body, |before| + n) <==> n % 2 == 0
  {
    var body := before + Less(n) + "%:" + behind;
    assert body[|before| + n..|before| + n + 2] == "%:";
    LessCounted(body, |before|, n);
  }

  function Less(n: nat): (s: string)
    ensures |s| == n && forall i :: 0 <= i < n ==> s[i] == '<'
  {
    seq(n, _ => '<')
  }

  lemma {:induction false} LessCounted(body: string, p: nat, n: nat)
    requires p + n <= |body| && (p > 0 ==> body[p - 1] != '<') && forall i :: p <= i < p + n ==> body[i] == '<'
    ensures LessBefore(body, p + n) == n
  {
    if n > 0 { LessCounted(body, p, n - 1); }
  }
}

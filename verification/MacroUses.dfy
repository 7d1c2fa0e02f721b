/** Uses of arguments in macro bodies, after cpp/cccp.c: what a use is replaced by (sections 6.10.3.1
    to 6.10.3.3 of ISO/IEC 9899:1999), and the text that a compiled body and the arguments make. */
module MacroUses {
  import opened Characters
  import opened Wrappers

  /** An argument that macarg has parsed: its text, and the text fully expanded. Neither has
      newlines other than those of markers. Missing: the call has fewer arguments than the macro
      has parameters. */
  datatype Arg = Missing | Given(raw: string, expanded: string)
  {
    function Raw(): string { if Missing? then "" else raw }

    function Expanded(): string { if Missing? then "" else expanded }
  }

  /** An element of the reflist: copy nchars characters, then an argument. */
  datatype Ref = Ref(nchars: nat, argno: nat, stringify: bool, rawBefore: bool, rawAfter: bool)

  /** expansion and pattern of a DEFINITION. */
  datatype Compiled = Compiled(text: string, refs: seq<Ref>)

  /** A marker that keeps tokens apart. */
  const MARKER := "\n "

  predicate IsQuote(c: char) { c == '\'' || c == '"' }

  predicate IsPrint(c: char) { ' ' <= c <= '~' }

  /** A character of the raw text; behind it is the comma or parenthesis that ended the argument. */
  function RawAt(raw: string, i: nat): char { if i < |raw| then raw[i] else ')' }

  /** End of the word that goes on at position p. */
  function WordEnd(body: string, p: nat): (q: nat)
    requires p <= |body|
    ensures p <= q <= |body| && (forall i :: p <= i < q ==> IsIdChar(body[i])) && (q < |body| ==> !IsIdChar(body[q]))
    decreases |body| - p
  {
    if p < |body| && IsIdChar(body[p]) then WordEnd(body, p + 1) else p
  }

  /** The literal that is open after the character c; None outside literals. */
  function Delimiter(open: Option<char>, c: char): Option<char>
  {
    if !IsQuote(c) then open else if open == None then Some(c) else if open == Some(c) then None else open
  }

  function Wrapped(arg: string): string { MARKER + arg + MARKER }

  // ---------------------------------------------------------------------------------------
  // The text of a # use

  function LeadingSpace(s: string): (n: nat)
    ensures n <= |s| && (n < |s| ==> !IsSpace(s[n])) && forall i :: 0 <= i < n ==> IsSpace(s[i])
  {
    if s != "" && IsSpace(s[0]) then 1 + LeadingSpace(s[1..]) else 0
  }

  /** The argument without white space around it. */
  function Core(raw: string): (core: string)
    ensures Ended(core)
  {
    var start := LeadingSpace(raw);
    if start == |raw| then "" else raw[start..TrimmedLength(raw)]
  }

  predicate Ended(core: string) { core != "" ==> !IsSpace(core[|core| - 1]) }

  function TrimmedLength(buf: string): (n: nat)
    ensures n <= |buf| && (n > 0 ==> !IsSpace(buf[n - 1])) && forall i :: n <= i < |buf| ==> IsSpace(buf[i])
  {
    if buf != "" && IsSpace(buf[|buf| - 1]) then TrimmedLength(buf[..|buf| - 1]) else |buf|
  }

  /** Whether the character before was a backslash, and the literal that is open. */
  datatype Reading = Reading(escaped: bool, open: Option<char>)

  const OUTSIDE := Reading(false, None)

  function Next(r: Reading, c: char): Reading
  {
    if r.escaped then Reading(false, r.open) else Reading(c == '\\', Delimiter(r.open, c))
  }

  /** End of the white space and newline-space markers at i. */
  function BlankEnd(core: string, i: nat): (j: nat)
    requires i < |core| && Ended(core)
    ensures i <= j < |core|
    ensures IsSpace(core[i]) && (core[i] == '\n' ==> IsSpace(core[i + 1])) ==> i < j
    decreases |core| - i
  {
    if core[i] == '\n' then (if IsSpace(core[i + 1]) then BlankEnd(core, i + 2) else i)
    else if IsSpace(core[i]) then BlankEnd(core, i + 1)
    else i
  }

  /** The spelling of the argument from i on: without markers, and with one space for a run of white
      space outside literals. */
  function Spelled(core: string, i: nat, r: Reading): string
    requires i <= |core| && Ended(core)
    decreases |core| - i
  {
    if i == |core| then ""
    else if core[i] == '\n' && core[i + 1] != '\n' then Spelled(core, i + 2, r)
    else if r.open == None && IsSpace(core[i]) then " " + Spelled(core, BlankEnd(core, i), Next(r, ' '))
    else [core[i]] + Spelled(core, i + 1, Next(r, core[i]))
  }

  function OctalDigit(n: nat): char { '0' + (n % 8) as char }

  function Octal(c: char): string
  {
    var n := c as int % 256;
    ['\\', OctalDigit(n / 64), OctalDigit(n / 8), OctalDigit(n)]
  }

  /** A character of a string literal: quotes are escaped, backslashes only inside literals. */
  function Shown(c: char, quoted: bool): (s: string)
    ensures |s| > 0
  {
    (if c == '"' || (quoted && c == '\\') then "\\" else "") + (if IsPrint(c) then [c] else Octal(c))
  }

  function Escaped(t: string, r: Reading): string
  {
    if t == "" then ""
    else
      var next := Next(r, t[0]);
      Shown(t[0], next.open.Some?) + Escaped(t[1..], next)
  }

  /** The string literal of section 6.10.3.2 of ISO/IEC 9899:1999: the spelling of the argument, and
      then a backslash before each quote and before each backslash of a literal. */
  function Stringified(raw: string): string
  {
    "\"" + Escaped(Spelled(Core(raw), 0, OUTSIDE), OUTSIDE) + "\""
  }

  // ---------------------------------------------------------------------------------------
  // The text of a use next to ##

  /** What is pasted to the text before it begins with a word, whose marker is deleted. */
  function PasteRest(raw: string): (p: nat)
    ensures WordEnd(raw, LeadingSpace(raw)) <= p <= |raw|
  {
    var q := WordEnd(raw, LeadingSpace(raw));
    if RawAt(raw, q) == '\n' && RawAt(raw, q + 1) == '-' then q + 2 else q
  }

  /** The newlines that end at q. */
  function Newlines(raw: string, p: nat, q: nat): (n: nat)
    requires p <= q <= |raw|
    ensures n <= q - p
    decreases q
  {
    if q > p && raw[q - 1] == '\n' then 1 + Newlines(raw, p, q - 1) else 0
  }

  /** End of the argument without trailing white space and markers, when something is pasted
      behind it: a minus sign after an odd number of newlines belongs to a marker. */
  function PasteEnd(raw: string, p: nat, l: nat): (n: nat)
    requires p <= l <= |raw|
    ensures p <= n <= l
    decreases l
  {
    if l == p then l
    else if IsSpace(raw[l - 1]) then PasteEnd(raw, p, l - 1)
    else if raw[l - 1] == '-' && Newlines(raw, p, l - 1) % 2 == 1 then PasteEnd(raw, p, l - 2)
    else l
  }

  /** White space and markers. */
  predicate Blanks(s: string)
  {
    s == "" || (IsSpace(s[|s| - 1]) && Blanks(s[..|s| - 1]))
    || (|s| >= 2 && s[|s| - 2] == '\n' && s[|s| - 1] == '-' && Blanks(s[..|s| - 2]))
  }

  /** Only white space and markers are cut. */
  lemma {:induction false} CutsBlanks(raw: string, p: nat, l: nat)
    requires p <= l <= |raw|
    ensures Blanks(raw[PasteEnd(raw, p, l)..l])
    decreases l
  {
    var n := PasteEnd(raw, p, l);
    if l > p {
      if IsSpace(raw[l - 1]) {
        CutsBlanks(raw, p, l - 1);
        assert raw[n..l][..l - 1 - n] == raw[n..l - 1];
      } else if raw[l - 1] == '-' && Newlines(raw, p, l - 1) % 2 == 1 {
        CutsBlanks(raw, p, l - 2);
        assert raw[n..l][..l - 2 - n] == raw[n..l - 2];
      }
    }
  }

  /** A use next to ##: the raw argument, with markers on the sides where nothing is pasted. */
  function Pasted(raw: string, before: bool, after: bool): string
  {
    var p := if before then PasteRest(raw) else 0;
    var l := if after then PasteEnd(raw, p, |raw|) else |raw|;
    (if before then raw[LeadingSpace(raw)..WordEnd(raw, LeadingSpace(raw))] else MARKER)
    + raw[p..l] + (if after then "" else MARKER)
  }

  // ---------------------------------------------------------------------------------------
  // The text of a call

  function Offset(refs: seq<Ref>): nat
  {
    if refs == [] then 0 else Offset(refs[..|refs| - 1]) + refs[|refs| - 1].nchars
  }

  lemma {:induction false} OffsetPrefix(refs: seq<Ref>, k: nat)
    requires k <= |refs|
    ensures Offset(refs[..k]) <= Offset(refs)
  {
    if k < |refs| {
      OffsetPrefix(refs[..|refs| - 1], k);
      assert refs[..|refs| - 1][..k] == refs[..k];
    } else {
      assert refs[..k] == refs;
    }
  }

  /** The places lie in the text, and the arguments exist. */
  predicate Fits(c: Compiled, n: nat)
  {
    Offset(c.refs) <= |c.text| && forall i :: 0 <= i < |c.refs| ==> c.refs[i].argno < n
  }

  /** What a use of an argument is replaced by. */
  function UseText(r: Ref, a: Arg): string
  {
    if r.stringify then Stringified(a.Raw())
    else if r.rawBefore || r.rawAfter then Pasted(a.Raw(), r.rawBefore, r.rawAfter)
    else Wrapped(a.Expanded())
  }

  /** Everything up to the k-th place. */
  function Filled(c: Compiled, k: nat, args: seq<Arg>): string
    requires Fits(c, |args|) && k <= |c.refs|
  {
    if k == 0 then ""
    else
      OffsetPrefix(c.refs, k);
      OffsetPrefix(c.refs, k - 1);
      assert c.refs[..k][..k - 1] == c.refs[..k - 1];
      Filled(c, k - 1, args) + c.text[Offset(c.refs[..k - 1])..Offset(c.refs[..k])]
      + UseText(c.refs[k - 1], args[c.refs[k - 1].argno])
  }

  function Result(c: Compiled, args: seq<Arg>): string
    requires Fits(c, |args|)
  {
    Filled(c, |c.refs|, args) + c.text[Offset(c.refs)..]
  }

  lemma Associative(a: string, b: string, c: string)
    ensures a + (b + c) == (a + b) + c && a + "" == a && "" + c == c
  {
  }

  lemma FilledOfLonger(c: Compiled, more: string, k: nat, args: seq<Arg>)
    requires Fits(c, |args|) && k <= |c.refs|
    ensures Fits(Compiled(c.text + more, c.refs), |args|)
    ensures Filled(Compiled(c.text + more, c.refs), k, args) == Filled(c, k, args)
  {
    hide UseText;
    if k > 0 {
      OffsetPrefix(c.refs, k);
      OffsetPrefix(c.refs, k - 1);
      assert c.refs[..k][..k - 1] == c.refs[..k - 1];
      var from, upto := Offset(c.refs[..k - 1]), Offset(c.refs[..k]);
      assert (c.text + more)[from..upto] == c.text[from..upto];
    }
  }

  /** Text that is copied comes at the end. */
  lemma ResultText(c: Compiled, more: string, args: seq<Arg>)
    requires Fits(c, |args|)
    ensures Fits(Compiled(c.text + more, c.refs), |args|)
    ensures Result(Compiled(c.text + more, c.refs), args) == Result(c, args) + more
  {
    FilledOfLonger(c, more, |c.refs|, args);
    hide Filled;
    var n := Offset(c.refs);
    assert (c.text + more)[n..] == c.text[n..] + more;
    Associative(Filled(c, |c.refs|, args), c.text[n..], more);
  }

  lemma {:induction false} FilledOfMore(c: Compiled, r: Ref, k: nat, args: seq<Arg>)
    requires Fits(c, |args|) && k <= |c.refs| && Fits(Compiled(c.text, c.refs + [r]), |args|)
    ensures Filled(Compiled(c.text, c.refs + [r]), k, args) == Filled(c, k, args)
  {
    hide UseText;
    if k > 0 {
      FilledOfMore(c, r, k - 1, args);
      assert (c.refs + [r])[..k] == c.refs[..k] && (c.refs + [r])[..k - 1] == c.refs[..k - 1];
      assert (c.refs + [r])[k - 1] == c.refs[k - 1];
    }
  }

  /** A use of an argument after what is left of the text. */
  function WithUse(c: Compiled, i: nat, sharp: bool, before: bool, after: bool): Compiled
    requires Offset(c.refs) <= |c.text|
  {
    Compiled(c.text, c.refs + [Ref(|c.text| - Offset(c.refs), i, sharp, before, after)])
  }

  lemma OffsetOfMore(refs: seq<Ref>, r: Ref)
    ensures (refs + [r])[..|refs|] == refs && (refs + [r])[..|refs| + 1] == refs + [r] && (refs + [r])[|refs|] == r
    ensures Offset(refs + [r]) == Offset(refs) + r.nchars
  {
  }

  lemma FitsMore(c: Compiled, r: Ref, n: nat)
    requires Fits(c, n) && r.argno < n && r.nchars == |c.text| - Offset(c.refs)
    ensures Fits(Compiled(c.text, c.refs + [r]), n)
  {
    OffsetOfMore(c.refs, r);
    hide Offset;
    forall j | 0 <= j < |c.refs| + 1 ensures (c.refs + [r])[j].argno < n {
      if j < |c.refs| { assert (c.refs + [r])[j] == c.refs[j]; }
    }
  }

  lemma FilledNext(c: Compiled, k: nat, args: seq<Arg>)
    requires Fits(c, |args|) && k < |c.refs|
    ensures Offset(c.refs[..k]) <= Offset(c.refs[..k + 1]) <= |c.text|
    ensures Filled(c, k + 1, args) == Filled(c, k, args) + c.text[Offset(c.refs[..k])..Offset(c.refs[..k + 1])]
                                      + UseText(c.refs[k], args[c.refs[k].argno])
  {
    hide UseText;
    OffsetPrefix(c.refs, k + 1);
    assert c.refs[..k + 1][..k] == c.refs[..k];
  }

  lemma LastUse(d: Compiled, n: nat, args: seq<Arg>)
    requires Fits(d, |args|) && |d.refs| == n + 1 && Offset(d.refs) == |d.text|
    ensures Offset(d.refs[..n]) <= |d.text|
    ensures Result(d, args) == Filled(d, n, args) + d.text[Offset(d.refs[..n])..] +
        UseText(d.refs[n], args[d.refs[n].argno])
  {
    hide UseText, Offset, Filled;
    FilledNext(d, n, args);
    assert d.refs[..n + 1] == d.refs;
    assert d.text[Offset(d.refs[..n])..|d.text|] == d.text[Offset(d.refs[..n])..];
    assert d.text[Offset(d.refs)..] == "";
    Associative(Filled(d, n + 1, args), "", "");
  }

  lemma ResultMore(c: Compiled, r: Ref, args: seq<Arg>)
    requires Fits(c, |args|) && r.argno < |args| && r.nchars == |c.text| - Offset(c.refs)
    ensures var d := Compiled(c.text, c.refs + [r]);
      Fits(d, |args|) && Offset(d.refs) == |d.text| && Result(d, args) == Result(c, args) + UseText(r, args[r.argno])
  {
    var d, n := Compiled(c.text, c.refs + [r]), |c.refs|;
    FitsMore(c, r, |args|);
    OffsetOfMore(c.refs, r);
    FilledOfMore(c, r, n, args);
    LastUse(d, n, args);
    hide UseText, Filled, Offset, Fits;
  }

  /** It contributes its text. */
  lemma ResultUse(c: Compiled, i: nat, sharp: bool, before: bool, after: bool, args: seq<Arg>)
    requires Fits(c, |args|) && i < |args|
    ensures var d := WithUse(c, i, sharp, before, after);
      && Fits(d, |args|) && Offset(d.refs) == |d.text|
      && Result(d, args) == Result(c, args) + UseText(Ref(0, i, sharp, before, after), args[i])
  {
    hide UseText, Filled, Offset, Result;
    var r := Ref(|c.text| - Offset(c.refs), i, sharp, before, after);
    ResultMore(c, r, args);
    SameUse(r, Ref(0, i, sharp, before, after), args[i]);
  }

  lemma SameUse(r: Ref, s: Ref, a: Arg)
    requires r.stringify == s.stringify && r.rawBefore == s.rawBefore && r.rawAfter == s.rawAfter
    ensures UseText(r, a) == UseText(s, a)
  {
  }
}

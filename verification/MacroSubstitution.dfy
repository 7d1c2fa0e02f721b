/** The two passes of macroexpand in cpp/cccp.c over a compiled body: the first computes the size
    of the buffer, the second fills it. */
module MacroSubstitution {
  import opened Characters
  import opened MacroUses
  import opened Wrappers

  /** What a character needs at most inside a string literal. */
  function CharLength(c: char): nat
  {
    if c == '"' || c == '\\' then 2 else if !IsPrint(c) then 4 else 1
  }

  function CharsLength(s: string): nat
  {
    if s == "" then 0 else CharLength(s[0]) + CharsLength(s[1..])
  }

  /** stringified_length, which macarg computes; that of a missing argument is 0. */
  function StringifiedLength(a: Arg): nat
  {
    if a.Missing? then 0 else 2 + CharsLength(Core(a.raw))
  }

  /** What the first pass adds for a use of an argument. */
  function UseLength(r: Ref, a: Arg): nat
  {
    if r.stringify then StringifiedLength(a)
    else if r.rawBefore || r.rawAfter then |a.Raw()| + 4
    else |a.Expanded()| + 4
  }

  function UsesLength(refs: seq<Ref>, args: seq<Arg>): nat
    requires forall i :: 0 <= i < |refs| ==> refs[i].argno < |args|
  {
    if refs == [] then 0
    else UsesLength(refs[..|refs| - 1], args) + UseLength(refs[|refs| - 1], args[refs[|refs| - 1].argno])
  }

  lemma {:induction false} CharsGrow(s: string, i: nat, j: nat)
    requires i <= j <= |s|
    ensures CharsLength(s[j..]) + (j - i) <= CharsLength(s[i..])
    decreases j - i
  {
    if i < j {
      CharsGrow(s, i + 1, j);
      assert s[i..][1..] == s[i + 1..];
    }
  }

  lemma FirstEscaped(c: char, t: string, r: Reading)
    ensures Escaped([c] + t, r) == Shown(c, Next(r, c).open.Some?) + Escaped(t, Next(r, c))
    ensures |Shown(c, Next(r, c).open.Some?)| <= CharLength(c)
  {
    assert ([c] + t)[1..] == t;
  }

  /** The literal is no longer than macarg counts. */
  lemma {:induction false} SpelledFits(core: string, i: nat, r: Reading)
    requires i <= |core| && Ended(core)
    ensures |Escaped(Spelled(core, i, r), r)| <= CharsLength(core[i..])
    decreases |core| - i
  {
    hide Shown, BlankEnd;
    if i < |core| {
      CharsGrow(core, i, i + 1);
      assert core[i..][1..] == core[i + 1..];
      if core[i] == '\n' && core[i + 1] != '\n' {
        CharsGrow(core, i, i + 2);
        SpelledFits(core, i + 2, r);
      } else if r.open == None && IsSpace(core[i]) {
        var j := BlankEnd(core, i);
        BlankMoves(core, i);
        FirstEscaped(' ', Spelled(core, j, Next(r, ' ')), r);
        CharsGrow(core, i, j);
        SpelledFits(core, j, Next(r, ' '));
      } else {
        FirstEscaped(core[i], Spelled(core, i + 1, Next(r, core[i])), r);
        SpelledFits(core, i + 1, Next(r, core[i]));
      }
    }
  }

  /** A run of white space that is replaced by a space has a character at least. */
  lemma BlankMoves(core: string, i: nat)
    requires i < |core| && Ended(core) && IsSpace(core[i]) && (core[i] == '\n' ==> core[i + 1] == '\n')
    ensures BlankEnd(core, i) > i && CharLength(' ') == 1
  {
  }

  // ---------------------------------------------------------------------------------------
  // Does it fit?

  /** By how much a use may exceed what the first pass adds for it: two quotes around a missing
      argument are not counted, whereas next to ## there are fewer markers than are counted. */
  function Excess(r: Ref, given: bool): int
  {
    if r.stringify then (if given then 0 else 2)
    else if r.rawBefore && r.rawAfter then -4
    else if r.rawBefore || r.rawAfter then -2
    else 0
  }

  function ExcessOf(refs: seq<Ref>, given: seq<bool>): int
    requires forall i :: 0 <= i < |refs| ==> refs[i].argno < |given|
  {
    if refs == [] then 0
    else ExcessOf(refs[..|refs| - 1], given) + Excess(refs[|refs| - 1], given[refs[|refs| - 1].argno])
  }

  function GivenOf(args: seq<Arg>): (g: seq<bool>)
    ensures |g| == |args| && forall i :: 0 <= i < |args| ==> g[i] == args[i].Given?
  {
    seq(|args|, i requires 0 <= i < |args| => args[i].Given?)
  }

  lemma PastedFits(raw: string, before: bool, after: bool)
    requires before || after
    ensures |Pasted(raw, before, after)| <= |raw| + (if before && after then 0 else 2)
  {
  }

  lemma UseFits(r: Ref, a: Arg)
    ensures |UseText(r, a)| <= UseLength(r, a) + Excess(r, a.Given?)
  {
    hide Pasted, Escaped, Spelled;
    if r.stringify {
      SpelledFits(Core(a.Raw()), 0, OUTSIDE);
      assert Core(a.Raw())[0..] == Core(a.Raw());
    } else if r.rawBefore || r.rawAfter {
      PastedFits(a.Raw(), r.rawBefore, r.rawAfter);
    }
  }

  /** An argument without any text takes all that a use of it may take. */
  lemma EmptyFits(r: Ref, a: Arg)
    requires a.Raw() == a.Expanded() == ""
    ensures |UseText(r, a)| == UseLength(r, a) + Excess(r, a.Given?)
  {
    assert LeadingSpace("") == 0 && WordEnd("", 0) == 0;
  }

  /** The lengths of the uses up to the k-th, as they are written. */
  lemma {:induction false} FilledFits(c: Compiled, args: seq<Arg>, k: nat)
    requires Fits(c, |args|) && k <= |c.refs|
    ensures |Filled(c, k, args)| <= Offset(c.refs[..k]) + UsesLength(c.refs[..k], args) +
        ExcessOf(c.refs[..k], GivenOf(args))
    ensures (forall i :: 0 <= i < |args| ==> args[i].Raw() == args[i].Expanded() == "") ==>
      |Filled(c, k, args)| == Offset(c.refs[..k]) + UsesLength(c.refs[..k], args) + ExcessOf(c.refs[..k], GivenOf(args))
  {
    hide UseText, UseLength, Excess;
    if k > 0 {
      var r := c.refs[k - 1];
      FilledFits(c, args, k - 1);
      FilledNext(c, k - 1, args);
      assert c.refs[..k][..k - 1] == c.refs[..k - 1];
      UseFits(r, args[r.argno]);
      if args[r.argno].Raw() == args[r.argno].Expanded() == "" { EmptyFits(r, args[r.argno]); }
    }
  }

  lemma ResultFits(c: Compiled, args: seq<Arg>)
    requires Fits(c, |args|)
    ensures |Result(c, args)| <= |c.text| + UsesLength(c.refs, args) + ExcessOf(c.refs, GivenOf(args))
    ensures (forall i :: 0 <= i < |args| ==> args[i].Raw() == args[i].Expanded() == "") ==>
      |Result(c, args)| == |c.text| + UsesLength(c.refs, args) + ExcessOf(c.refs, GivenOf(args))
  {
    FilledFits(c, args, |c.refs|);
    assert c.refs[..|c.refs|] == c.refs;
  }

  /** What the second pass writes for these arguments is no longer than what the first has counted. */
  ghost predicate Counted(c: Compiled, args: seq<Arg>)
    requires Fits(c, |args|)
  {
    |Result(c, args)| <= |c.text| + UsesLength(c.refs, args)
  }

  /** The first pass counts enough, whatever the given arguments are, if and only if the uses of
      missing arguments with # are made up for by uses with ##. */
  lemma CountsEnoughIff(c: Compiled, given: seq<bool>)
    requires Fits(c, |given|)
    ensures (forall args: seq<Arg> :: |args| == |given| && GivenOf(args) == given ==> Counted(c, args))
       <==> ExcessOf(c.refs, given) <= 0
  {
    hide Result, UsesLength, ExcessOf;
    forall args: seq<Arg> | |args| == |given| && GivenOf(args) == given && ExcessOf(c.refs, given) <= 0
      ensures Counted(c, args)
    {
      ResultFits(c, args);
    }
    var empty := seq(|given|, i requires 0 <= i < |given| => if given[i] then Given("", "") else Missing);
    assert GivenOf(empty) == given;
    ResultFits(c, empty);
    assert Counted(c, empty) ==> ExcessOf(c.refs, given) <= 0;
  }

  /** A call with one argument of a macro with two whose body is a # use of the second: the result
      has two characters more than are counted, although the check behind the use passes. */
  lemma MissingArgumentIsNotCounted()
    ensures var c, args := Compiled(MARKER, [Ref(0, 1, true, false, false)]), [Given("", ""), Missing];
      && Fits(c, 2) && |c.text| + UsesLength(c.refs, args) == 2
      && |Filled(c, 1, args)| == 2 && Result(c, args) == "\"\"" + MARKER
  {
    var c, args := Compiled(MARKER, [Ref(0, 1, true, false, false)]), [Given("", ""), Missing];
    assert c.refs[..0] == [] && c.refs[..1] == c.refs && Offset(c.refs) == 0;
    assert Filled(c, 0, args) == "";
    assert Filled(c, 1, args) == "" + c.text[0..0] + UseText(c.refs[0], Missing);
    assert c.text[0..] == c.text;
  }

  // ---------------------------------------------------------------------------------------
  // Second pass: #

  /** Pass over white space and newline-space markers; the last character of core is neither. */
  method Collapse(core: string, i0: nat) returns (i: nat)
    requires i0 < |core| && Ended(core)
    ensures i == BlankEnd(core, i0)
  {
    i := i0;
    while true
      invariant i0 <= i < |core| && BlankEnd(core, i) == BlankEnd(core, i0)
      decreases |core| - i
    {
      if core[i] == '\n' {
        if !IsSpace(core[i + 1]) { return; }
        i := i + 2;
      } else if IsSpace(core[i]) {
        i := i + 1;
      } else {
        return;
      }
    }
  }

  /** Put one character into a string literal; sprintf ends an octal number with a zero. */
  method PutChar(xbuf: array<char>, totlen0: nat, c: char, quoted: bool) returns (totlen: nat)
    requires totlen0 + |Shown(c, quoted)| < xbuf.Length
    modifies xbuf
    ensures totlen == totlen0 + |Shown(c, quoted)| && xbuf[..totlen] == old(xbuf[..totlen0]) + Shown(c, quoted)
  {
    hide OctalDigit;
    totlen := totlen0;
    ghost var start := xbuf[..totlen0];
    if c == '"' || (quoted && c == '\\') {
      xbuf[totlen] := '\\';
      totlen := totlen + 1;
    }
    if IsPrint(c) {
      xbuf[totlen] := c;
      totlen := totlen + 1;
    } else {
      var n := c as int % 256;
      xbuf[totlen], xbuf[totlen + 1] := '\\', OctalDigit(n / 64);
      xbuf[totlen + 2], xbuf[totlen + 3] := OctalDigit(n / 8), OctalDigit(n);
      xbuf[totlen + 4] := '\0';
      totlen := totlen + 4;
    }
  }

  /** What is in the buffer and what is still to come is the literal without its closing quote. */
  ghost predicate Literal(done: string, start: string, core: string, i: nat, r: Reading)
  {
    i <= |core| && Ended(core) &&
    done + Escaped(Spelled(core, i, r), r) == start + "\"" + Escaped(Spelled(core, 0, OUTSIDE), OUTSIDE)
  }

  lemma LiteralNext(done: string, start: string, core: string, i: nat, r: Reading, c: char, j: nat)
    requires Literal(done, start, core, i, r) && i < j <= |core|
    requires Spelled(core, i, r) == [c] + Spelled(core, j, Next(r, c))
    ensures Literal(done + Shown(c, Next(r, c).open.Some?), start, core, j, Next(r, c))
    ensures |done| + |Shown(c, Next(r, c).open.Some?)| <= |start| + 1 + |Escaped(Spelled(core, 0, OUTSIDE), OUTSIDE)|
  {
    FirstEscaped(c, Spelled(core, j, Next(r, c)), r);
    Associative(done, Shown(c, Next(r, c).open.Some?), Escaped(Spelled(core, j, Next(r, c)), Next(r, c)));
  }

  lemma LiteralBegins(start: string, core: string)
    requires Ended(core)
    ensures Literal(start + "\"", start, core, 0, OUTSIDE)
  {
  }

  lemma NothingSpelled(core: string, r: Reading)
    requires Ended(core)
    ensures Escaped(Spelled(core, |core|, r), r) == ""
  {
  }

  lemma Enclosed(done: string, start: string, e: string)
    ensures done + "" == done && start + "\"" + e + "\"" == start + ("\"" + e + "\"")
  {
  }

  lemma LiteralEnds(done: string, start: string, core: string, r: Reading)
    requires Literal(done, start, core, |core|, r)
    ensures var e := Escaped(Spelled(core, 0, OUTSIDE), OUTSIDE); done + "\"" == start + ("\"" + e + "\"")
  {
    NothingSpelled(core, r);
    hide Escaped, Spelled;
    Enclosed(done, start, Escaped(Spelled(core, 0, OUTSIDE), OUTSIDE));
  }

  /** One character of the argument, or a marker, or a run of white space. */
  method StringifyNext(xbuf: array<char>, totlen0: nat, ghost start: string, core: string, i0: nat, r0: Reading)
      returns (totlen: nat, i: nat, r: Reading)
    requires i0 < |core| && totlen0 <= xbuf.Length && Literal(xbuf[..totlen0], start, core, i0, r0)
    requires |start| + 1 + |Escaped(Spelled(core, 0, OUTSIDE), OUTSIDE)| < xbuf.Length
    modifies xbuf
    ensures i0 < i <= |core| && totlen <= xbuf.Length && Literal(xbuf[..totlen], start, core, i, r)
  {
    hide Escaped, Shown, BlankEnd, IsSpace;
    var c := core[i0];
    totlen, i, r := totlen0, i0, r0;
    MarkerIsInside(core, i0);
    if c == '\n' && core[i + 1] != '\n' {
      i := i + 2;
      return;
    }
    if r.open == None && IsSpace(c) {
      BlankMoves(core, i0);
      i := Collapse(core, i);
      i := i - 1;
      c := ' ';
    }
    LiteralNext(xbuf[..totlen0], start, core, i0, r0, c, i + 1);
    r := Next(r, c);
    totlen := PutChar(xbuf, totlen, c, r.open.Some?);
    i := i + 1;
  }

  /** The argument as a string literal. */
  method StringifyInto(xbuf: array<char>, totlen0: nat, raw: string) returns (totlen: nat)
    requires totlen0 + |Stringified(raw)| < xbuf.Length
    modifies xbuf
    ensures totlen == totlen0 + |Stringified(raw)| && xbuf[..totlen] == old(xbuf[..totlen0]) + Stringified(raw)
  {
    hide Escaped, Spelled, Literal;
    ghost var start := xbuf[..totlen0];
    var core := Core(raw);
    var i, r := 0, OUTSIDE;
    totlen := totlen0;
    xbuf[totlen] := '"';
    totlen := totlen + 1;
    LiteralBegins(start, core);
    assert xbuf[..totlen] == start + "\"";
    while i < |core|
      invariant i <= |core| && totlen <= xbuf.Length && Literal(xbuf[..totlen], start, core, i, r)
    {
      totlen, i, r := StringifyNext(xbuf, totlen, start, core, i, r);
    }
    LiteralEnds(xbuf[..totlen], start, core, r);
    ghost var done := xbuf[..totlen];
    xbuf[totlen] := '"';
    totlen := totlen + 1;
    assert xbuf[..totlen] == done + "\"";
  }

  /** A newline is not the last character, and is white space. */
  lemma MarkerIsInside(core: string, i: nat)
    requires i < |core| && Ended(core)
    ensures core[i] == '\n' ==> i + 1 < |core| && IsSpace('\n')
  {
  }

  // ---------------------------------------------------------------------------------------
  // Second pass: ## and plain uses

  /** Copy src[p..q] to the buffer. */
  method CopyInto(xbuf: array<char>, totlen0: nat, src: string, p: nat, q: nat) returns (totlen: nat)
    requires p <= q <= |src| && totlen0 + (q - p) < xbuf.Length
    modifies xbuf
    ensures totlen == totlen0 + (q - p) && xbuf[..totlen] == old(xbuf[..totlen0]) + src[p..q]
  {
    totlen := totlen0;
    var i := p;
    while i < q
      invariant p <= i <= q && totlen == totlen0 + (i - p) && xbuf[..totlen] == old(xbuf[..totlen0]) + src[p..i]
    {
      xbuf[totlen] := src[i];
      NextCopied(xbuf[..totlen + 1], xbuf[..totlen], old(xbuf[..totlen0]), src, p, i);
      totlen := totlen + 1;
      i := i + 1;
    }
  }

  lemma NextCopied(now: string, before: string, start: string, src: string, p: nat, i: nat)
    requires p <= i < |src| && now == before + [src[i]] && before == start + src[p..i]
    ensures now == start + src[p..i + 1]
  {
    assert src[p..i + 1] == src[p..i] + [src[i]];
  }

  method MarkerInto(xbuf: array<char>, totlen0: nat) returns (totlen: nat)
    requires totlen0 + 2 < xbuf.Length
    modifies xbuf
    ensures totlen == totlen0 + 2 && xbuf[..totlen] == old(xbuf[..totlen0]) + MARKER
  {
    totlen := CopyInto(xbuf, totlen0, MARKER, 0, 2);
  }

  method TrimForPaste(raw: string, p1: nat) returns (l1: nat)
    requires p1 <= |raw|
    ensures l1 == PasteEnd(raw, p1, |raw|)
  {
    l1 := |raw|;
    while l1 != p1
      invariant p1 <= l1 <= |raw| && PasteEnd(raw, p1, l1) == PasteEnd(raw, p1, |raw|)
      decreases l1
    {
      if IsSpace(raw[l1 - 1]) {
        l1 := l1 - 1;
      } else if raw[l1 - 1] == '-' {
        var p2 := l1 - 1;
        while p2 != p1 && raw[p2 - 1] == '\n'
          invariant p1 <= p2 <= l1 - 1 && Newlines(raw, p1, l1 - 1) == l1 - 1 - p2 + Newlines(raw, p1, p2)
        {
          p2 := p2 - 1;
        }
        if (l1 - 1 - p2) % 2 == 1 { l1 := l1 - 2; } else { return; }
      } else {
        return;
      }
    }
  }

  method SkipSpace(raw: string) returns (p: nat)
    ensures p == LeadingSpace(raw)
  {
    p := 0;
    assert raw[0..] == raw;
    while p != |raw| && IsSpace(raw[p])
      invariant p <= |raw| && LeadingSpace(raw) == p + LeadingSpace(raw[p..])
    {
      assert raw[p..][1..] == raw[p + 1..];
      p := p + 1;
    }
  }

  /** Start of the rest of an argument that is pasted to what precedes it, after its white space
      and a leading word with its marker; the word itself is copied. */
  method PasteStart(xbuf: array<char>, totlen0: nat, raw: string) returns (totlen: nat, p1: nat)
    requires totlen0 + (WordEnd(raw, LeadingSpace(raw)) - LeadingSpace(raw)) < xbuf.Length
    modifies xbuf
    ensures p1 == PasteRest(raw) && totlen == totlen0 + (WordEnd(raw, LeadingSpace(raw)) - LeadingSpace(raw))
    ensures xbuf[..totlen] == old(xbuf[..totlen0]) + raw[LeadingSpace(raw)..WordEnd(raw, LeadingSpace(raw))]
  {
    var p := SkipSpace(raw);
    totlen, p1 := totlen0, p;
    while p1 != |raw| && IsIdChar(raw[p1])
      invariant p <= p1 <= |raw| && totlen == totlen0 + (p1 - p) && WordEnd(raw, p1) == WordEnd(raw, p)
      invariant xbuf[..totlen] == old(xbuf[..totlen0]) + raw[p..p1]
    {
      xbuf[totlen] := raw[p1];
      NextCopied(xbuf[..totlen + 1], xbuf[..totlen], old(xbuf[..totlen0]), raw, p, p1);
      totlen, p1 := totlen + 1, p1 + 1;
    }
    if RawAt(raw, p1) == '\n' && RawAt(raw, p1 + 1) == '-' { p1 := p1 + 2; }
  }

  lemma Regrouped(a: string, b: string, c: string, d: string)
    ensures a + b + c + d == a + (b + c + d) && a + b + c + "" == a + b + c
  {
  }

  method RawInto(xbuf: array<char>, totlen0: nat, raw: string, before: bool, after: bool) returns (totlen: nat)
    requires totlen0 + |Pasted(raw, before, after)| < xbuf.Length && (before || after)
    modifies xbuf
    ensures totlen == totlen0 + |Pasted(raw, before, after)|
    ensures xbuf[..totlen] == old(xbuf[..totlen0]) + Pasted(raw, before, after)
  {
    hide PasteRest, PasteEnd, LeadingSpace, WordEnd;
    ghost var start := xbuf[..totlen0];
    var p1, l1 := 0, |raw|;
    if before {
      totlen, p1 := PasteStart(xbuf, totlen0, raw);
    } else {
      totlen := MarkerInto(xbuf, totlen0);
    }
    ghost var head := xbuf[totlen0..totlen];
    if after { l1 := TrimForPaste(raw, p1); }
    totlen := CopyInto(xbuf, totlen, raw, p1, l1);
    if !after { totlen := MarkerInto(xbuf, totlen); }
    Regrouped(start, if before then raw[LeadingSpace(raw)..WordEnd(raw, LeadingSpace(raw))] else MARKER,
              raw[p1..l1], if after then "" else MARKER);
  }

  /** A plain use. */
  method PlainInto(xbuf: array<char>, totlen0: nat, expanded: string) returns (totlen: nat)
    requires totlen0 + |expanded| + 4 < xbuf.Length
    modifies xbuf
    ensures totlen == totlen0 + |expanded| + 4 && xbuf[..totlen] == old(xbuf[..totlen0]) + Wrapped(expanded)
  {
    ghost var start := xbuf[..totlen0];
    totlen := MarkerInto(xbuf, totlen0);
    totlen := CopyInto(xbuf, totlen, expanded, 0, |expanded|);
    totlen := MarkerInto(xbuf, totlen);
    assert start + MARKER + expanded[0..|expanded|] + MARKER == start + Wrapped(expanded);
  }

  method UseInto(xbuf: array<char>, totlen0: nat, r: Ref, a: Arg) returns (totlen: nat)
    requires totlen0 + |UseText(r, a)| < xbuf.Length
    modifies xbuf
    ensures totlen == totlen0 + |UseText(r, a)| && xbuf[..totlen] == old(xbuf[..totlen0]) + UseText(r, a)
  {
    hide Stringified, Pasted;
    if r.stringify {
      totlen := StringifyInto(xbuf, totlen0, a.Raw());
    } else if r.rawBefore || r.rawAfter {
      totlen := RawInto(xbuf, totlen0, a.Raw(), r.rawBefore, r.rawAfter);
    } else {
      totlen := PlainInto(xbuf, totlen0, a.Expanded());
    }
  }

  // ---------------------------------------------------------------------------------------
  // Both passes

  lemma NextUse(refs: seq<Ref>, args: seq<Arg>, k: nat)
    requires k < |refs| && forall i :: 0 <= i < |refs| ==> refs[i].argno < |args|
    ensures UsesLength(refs[..k + 1], args) == UsesLength(refs[..k], args) + UseLength(refs[k], args[refs[k].argno])
    ensures Offset(refs[..k + 1]) == Offset(refs[..k]) + refs[k].nchars && Offset(refs[..k + 1]) <= Offset(refs)
  {
    assert refs[..k + 1][..k] == refs[..k];
    OffsetPrefix(refs, k + 1);
  }

  method FirstPass(c: Compiled, args: seq<Arg>) returns (xbufLen: nat)
    requires Fits(c, |args|)
    ensures xbufLen == |c.text| + UsesLength(c.refs, args)
  {
    xbufLen := |c.text|;
    var k := 0;
    while k < |c.refs|
      invariant k <= |c.refs| && xbufLen == |c.text| + UsesLength(c.refs[..k], args)
    {
      NextUse(c.refs, args, k);
      xbufLen := xbufLen + UseLength(c.refs[k], args[c.refs[k].argno]);
      k := k + 1;
    }
    assert c.refs[..k] == c.refs;
  }

  lemma FilledOneMore(c: Compiled, args: seq<Arg>, k: nat)
    requires Fits(c, |args|) && k < |c.refs|
    ensures |Filled(c, k, args)| <= |Filled(c, k + 1, args)|
  {
    hide UseText, Offset;
  }

  /** The text up to a place is no longer than the whole. */
  lemma {:induction false} FilledGrows(c: Compiled, args: seq<Arg>, k: nat)
    requires Fits(c, |args|) && k <= |c.refs|
    ensures |Filled(c, k, args)| <= |Result(c, args)|
    decreases |c.refs| - k
  {
    hide Filled, Offset;
    if k < |c.refs| {
      FilledOneMore(c, args, k);
      FilledGrows(c, args, k + 1);
    }
  }

  /** One round of the second pass. */
  method FillNext(xbuf: array<char>, totlen0: nat, c: Compiled, args: seq<Arg>, offset0: nat, k: nat)
      returns (totlen: nat, offset: nat)
    requires Fits(c, |args|) && k < |c.refs| && offset0 == Offset(c.refs[..k])
    requires |Result(c, args)| < xbuf.Length && totlen0 < xbuf.Length && xbuf[..totlen0] == Filled(c, k, args)
    modifies xbuf
    ensures totlen < xbuf.Length && xbuf[..totlen] == Filled(c, k + 1, args) && offset == Offset(c.refs[..k + 1])
  {
    NextUse(c.refs, args, k);
    FilledGrows(c, args, k + 1);
    hide UseText, UsesLength, Offset, Result;
    var r := c.refs[k];
    offset := offset0 + r.nchars;
    totlen := CopyInto(xbuf, totlen0, c.text, offset0, offset);
    totlen := UseInto(xbuf, totlen, r, args[r.argno]);
  }

  /** All uses, one after the other. */
  method FillUses(xbuf: array<char>, c: Compiled, args: seq<Arg>) returns (totlen: nat, offset: nat)
    requires Fits(c, |args|) && |Result(c, args)| < xbuf.Length
    modifies xbuf
    ensures totlen < xbuf.Length && xbuf[..totlen] == Filled(c, |c.refs|, args) && offset == Offset(c.refs)
  {
    totlen, offset := 0, 0;
    NoUses(c, args);
    hide *;
    var k := 0;
    while k < |c.refs|
      invariant k <= |c.refs| && offset == Offset(c.refs[..k])
      invariant totlen < xbuf.Length && xbuf[..totlen] == Filled(c, k, args)
    {
      totlen, offset := FillNext(xbuf, totlen, c, args, offset, k);
      k := k + 1;
    }
    assert c.refs[..k] == c.refs;
  }

  /** The rest of the text and the final zero. */
  method FillTail(xbuf: array<char>, totlen0: nat, c: Compiled, args: seq<Arg>, offset: nat) returns (totlen: nat)
    requires Fits(c, |args|) && offset == Offset(c.refs) && |Result(c, args)| < xbuf.Length
    requires totlen0 <= xbuf.Length && xbuf[..totlen0] == Filled(c, |c.refs|, args)
    modifies xbuf
    ensures totlen < xbuf.Length && xbuf[..totlen] == Result(c, args) && xbuf[totlen] == '\0'
  {
    hide Filled, Offset;
    assert c.text[offset..|c.text|] == c.text[offset..];
    totlen := CopyInto(xbuf, totlen0, c.text, offset, |c.text|);
    ghost var done := xbuf[..totlen];
    xbuf[totlen] := '\0';
    assert xbuf[..totlen] == done;
  }

  lemma NoUses(c: Compiled, args: seq<Arg>)
    requires Fits(c, |args|)
    ensures Offset(c.refs[..0]) == 0 && Filled(c, 0, args) == ""
  {
  }

  /** When the first pass counts enough, the second pass stays in the buffer, and it holds the text
      with all uses of arguments (#, ## and plain) in place, and the final zero. */
  method Substitute(c: Compiled, args: seq<Arg>) returns (xbuf: array<char>, totlen: nat)
    requires Fits(c, |args|) && Counted(c, args)
    ensures fresh(xbuf) && totlen < xbuf.Length == |c.text| + UsesLength(c.refs, args) + 1 && xbuf[totlen] == '\0'
    ensures xbuf[..totlen] == Result(c, args)
  {
    hide UsesLength, Offset, Result;
    var xbufLen := FirstPass(c, args);
    hide UsesLength, Offset, Result, Filled;
    xbuf := new char[xbufLen + 1];
    var offset;
    totlen, offset := FillUses(xbuf, c, args);
    totlen := FillTail(xbuf, totlen, c, args, offset);
  }
}

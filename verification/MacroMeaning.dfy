/** What rescanning computes when no macro takes arguments: the recursive replacement of section
    6.10.3.4 of ISO/IEC 9899:1999, in which a name is not replaced inside its own expansion. */
module MacroMeaning {
  import opened MacroEngine
  import opened MacroTermination
  import opened MacroText

  predicate ObjectLike(table: Table)
  {
    forall m :: m in table ==> table[m].nargs < 0
  }

  function Body(m: string, table: Table): (text: seq<Token>)
    requires m in table
    ensures Stands(text, table[m].body, map[])
  {
    SubstituteStands(table[m].body, map[]);
    Substitute(table[m].body, map[])
  }

  /** The replacement of toks while the macros of off are not replaced, at a given depth of
      nesting. A name that is found inside its own expansion is painted. */
  function Replace(toks: seq<Token>, off: set<string>, depth: nat, table: Table): seq<Token>
    decreases table.Keys - off, |toks|
  {
    if toks == [] then []
    else Replacement(toks[0], off, depth, table) + Replace(toks[1..], off, depth, table)
  }

  function Replacement(t: Token, off: set<string>, depth: nat, table: Table): seq<Token>
    decreases table.Keys - off, 0
  {
    if !t.Ident? || t.painted || t.name !in table then [t]
    else if t.name in off then [Ident(t.name, true)]
    else if depth >= MAX_DEPTH then []
    else
      assert t.name in table.Keys - off;
      Replace(Body(t.name, table), off + {t.name}, depth + 1, table)
  }

  // ---------------------------------------------------------------------------------------
  // The machine computes Replace

  function MarkedAll(l: Level, ts: seq<Token>): (r: seq<Token>)
    ensures |r| == |ts| && forall i :: 0 <= i < |ts| ==> r[i] == Marked(l, ts[i])
  {
    if ts == [] then [] else MarkedAll(l, ts[..|ts| - 1]) + [Marked(l, ts[|ts| - 1])]
  }

  /** The top level has been read to its end, and ts went to the output. */
  function After(c: Config, toks: seq<Token>, ts: seq<Token>): (d: Config)
    requires WellFormed(c)
    ensures WellFormed(d) && |d.levels| == |c.levels| && Top(d).toks == toks && Top(d).Macro? == Top(c).Macro?
    ensures d.disabled == c.disabled && d.stuck == c.stuck
  {
    var k := Buffer(c.levels, |c.levels|);
    var l := c.levels[k];
    var levels := c.levels[k := l.(out := l.out + MarkedAll(l, ts))];
    c.(levels := levels[|levels| - 1 := levels[|levels| - 1].(toks := toks)])
  }

  lemma BufferDependsOnKinds(a: seq<Level>, b: seq<Level>, n: nat)
    requires 0 < n <= |a| && n <= |b| && !a[0].Macro? && !b[0].Macro?
    requires forall i :: 0 <= i < n ==> a[i].Macro? == b[i].Macro?
    ensures Buffer(a, n) == Buffer(b, n)
  {
  }

  lemma MarkedTwice(l: Level, ts: seq<Token>, us: seq<Token>)
    requires !l.Macro?
    ensures (l.out + MarkedAll(l, ts)) + MarkedAll(l, us) == l.out + MarkedAll(l, ts + us)
  {
  }

  lemma AfterTwice(c: Config, toks: seq<Token>, ts: seq<Token>, more: seq<Token>, us: seq<Token>)
    requires WellFormed(c)
    ensures After(After(c, toks, ts), more, us) == After(c, more, ts + us)
  {
    var d := After(c, toks, ts);
    BufferDependsOnKinds(c.levels, d.levels, |c.levels|);
    var k := Buffer(c.levels, |c.levels|);
    var l := c.levels[k];
    MarkedTwice(l, ts, us);
    assert MarkedAll(d.levels[k], us) == MarkedAll(l, us);
    assert After(d, more, us).levels == After(c, more, ts + us).levels;
  }

  lemma EmitIsAfter(c: Config, t: Token)
    requires WellFormed(c) && Top(c).toks != []
    ensures Emit(Consume(c), t) == After(c, Top(c).toks[1..], [t])
  {
    var d := Consume(c);
    BufferDependsOnKinds(c.levels, d.levels, |c.levels|);
    var k := Buffer(c.levels, |c.levels|);
    var l := c.levels[k];
    assert MarkedAll(l, [t]) == [Marked(l, t)];
    assert Emit(d, t).levels == After(c, Top(c).toks[1..], [t]).levels;
  }

  /** A macro level that has been read to its end is left, and its macro is enabled again. */
  lemma PopAfterPush(c: Config, m: string, text: seq<Token>, ts: seq<Token>)
    requires WellFormed(c) && |c.levels| < MAX_DEPTH && m !in c.disabled
    ensures PopMacro(After(PushMacro(c, m, text), [], ts)) == After(c, Top(c).toks, ts)
  {
    var p := PushMacro(c, m, text);
    var n := |c.levels|;
    BufferBelow(c, p);
    assert c.disabled + {m} - {m} == c.disabled;
    assert PopMacro(After(p, [], ts)).levels == After(c, Top(c).toks, ts).levels;
  }

  lemma BufferBelow(c: Config, p: Config)
    requires WellFormed(c) && WellFormed(p) && |p.levels| == |c.levels| + 1
    requires p.levels[..|c.levels|] == c.levels && Top(p).Macro?
    ensures Buffer(p.levels, |p.levels|) == Buffer(c.levels, |c.levels|)
  {
    assert forall i :: 0 <= i < |c.levels| ==> c.levels[i] == p.levels[i];
    BufferDependsOnKinds(p.levels, c.levels, |c.levels|);
  }

  /** Reading the text of the top level to its end. */
  lemma NoSteps(c: Config, table: Table)
    requires WellFormed(c)
    ensures Run(c, table, 0) == c
  {
  }

  lemma {:induction false} ReadsToEnd(c: Config, table: Table) returns (n: nat)
    requires WellFormed(c) && Disabling(c) && ObjectLike(table) && !c.stuck
    ensures Run(c, table, n) == After(c, [], Replace(Top(c).toks, c.disabled, |c.levels|, table))
    decreases table.Keys - c.disabled, |Top(c).toks|
  {
    hide Run, After;
    var toks := Top(c).toks;
    if toks == [] {
      n := 0;
      NoSteps(c, table);
      AfterNothing(c);
    } else {
      var r := Replacement(toks[0], c.disabled, |c.levels|, table);
      var d := After(c, toks[1..], r);
      var k := ReadsToken(c, table);
      RunKeepsDisabling(c, table, k);
      var m := ReadsToEnd(d, table);
      RunsCompose(c, table, k, m);
      n := k + m;
      AfterTwice(c, toks[1..], r, [], Replace(toks[1..], c.disabled, |c.levels|, table));
    }
  }

  lemma AfterNothing(c: Config)
    requires WellFormed(c)
    ensures After(c, Top(c).toks, []) == c
  {
    var k := Buffer(c.levels, |c.levels|);
    assert c.levels[k].out + [] == c.levels[k].out;
    assert After(c, Top(c).toks, []).levels == c.levels;
  }

  /** Reading one token of the top level, with everything it stands for. */
  lemma {:induction false} ReadsToken(c: Config, table: Table) returns (n: nat)
    requires WellFormed(c) && Disabling(c) && ObjectLike(table) && !c.stuck && Top(c).toks != []
    ensures Run(c, table, n) == After(c, Top(c).toks[1..], Replacement(Top(c).toks[0], c.disabled, |c.levels|, table))
    decreases table.Keys - c.disabled, 0, 1
  {
    var t := Top(c).toks[0];
    EmitIsAfter(c, t);
    RunOne(c, table, 0);
    n := 1;
    if t.Ident? && !t.painted && t.name in table {
      EmitIsAfter(c, Ident(t.name, true));
      if t.name !in c.disabled {
        if |c.levels| >= MAX_DEPTH {
          ConsumeIsAfter(c);
        } else {
          n := ReadsBody(c, table);
        }
      }
    }
  }

  lemma ConsumeIsAfter(c: Config)
    requires WellFormed(c) && Top(c).toks != []
    ensures Consume(c) == After(c, Top(c).toks[1..], [])
  {
    var k := Buffer(c.levels, |c.levels|);
    assert c.levels[k].out + [] == c.levels[k].out;
    assert Consume(c).levels == After(c, Top(c).toks[1..], []).levels;
  }

  predicate CallsObject(c: Config, table: Table)
  {
    && WellFormed(c) && Top(c).toks != [] && !c.stuck && |c.levels| < MAX_DEPTH
    && var t := Top(c).toks[0];
    && t.Ident? && !t.painted && t.name in table && t.name !in c.disabled && table[t.name].nargs < 0
  }

  function Pushed(c: Config, table: Table): (p: Config)
    requires CallsObject(c, table)
    ensures WellFormed(p)
  {
    PushMacro(Consume(c), Top(c).toks[0].name, Body(Top(c).toks[0].name, table))
  }

  lemma PushIsStep(c: Config, table: Table)
    requires CallsObject(c, table) && Disabling(c)
    ensures var p := Pushed(c, table);
      && Step(c, table) == p && Disabling(p) && Top(p).toks == Body(Top(c).toks[0].name, table) && Top(p).Macro? &&
          !p.stuck
      && |p.levels| == |c.levels| + 1 && p.disabled == c.disabled + {Top(c).toks[0].name}
      && table.Keys - p.disabled < table.Keys - c.disabled
  {
    StepKeepsDisabling(c, table);
    assert Top(c).toks[0].name in table.Keys - c.disabled;
  }

  lemma LeavesBody(c: Config, table: Table, r: seq<Token>)
    requires CallsObject(c, table)
    ensures Step(After(Pushed(c, table), [], r), table) == After(c, Top(c).toks[1..], r)
  {
    var b := Consume(c);
    PopAfterPush(b, Top(c).toks[0].name, Body(Top(c).toks[0].name, table), r);
    ConsumeIsAfter(c);
    AfterTwice(c, Top(c).toks[1..], [], Top(b).toks, r);
    assert [] + r == r;
  }

  lemma RunsBetween(c: Config, table: Table, p: Config, k: nat)
    requires WellFormed(c) && Step(c, table) == p
    ensures Run(c, table, k + 2) == Step(Run(p, table, k), table)
  {
    RunOne(c, table, k);
    RunOne(c, table, k + 1);
  }

  lemma {:induction false} ReadsBody(c: Config, table: Table) returns (n: nat)
    requires CallsObject(c, table) && Disabling(c) && ObjectLike(table)
    ensures Run(c, table, n) == After(c, Top(c).toks[1..], Replacement(Top(c).toks[0], c.disabled, |c.levels|, table))
    decreases table.Keys - c.disabled, 0, 0
  {
    PushIsStep(c, table);
    var p, r := Pushed(c, table), Replacement(Top(c).toks[0], c.disabled, |c.levels|, table);
    var k := ReadsToEnd(p, table);
    LeavesBody(c, table, r);
    RunsBetween(c, table, p, k);
    n := k + 2;
  }

  // ---------------------------------------------------------------------------------------
  // The whole text

  lemma {:induction false} HaltedStays(c: Config, table: Table, n: nat)
    requires WellFormed(c) && Halted(c)
    ensures Run(c, table, n) == c
    decreases n
  {
    if n > 0 { HaltedStays(c, table, n - 1); }
  }

  lemma HaltsOnce(c: Config, table: Table, m: nat, n: nat)
    requires WellFormed(c) && Halted(Run(c, table, m)) && Halted(Run(c, table, n))
    ensures Run(c, table, m) == Run(c, table, n)
  {
    var k := if m < n then m else n;
    HaltedStays(Run(c, table, k), table, m - k);
    HaltedStays(Run(c, table, k), table, n - k);
    RunsCompose(c, table, k, m - k);
    RunsCompose(c, table, k, n - k);
  }

  /** However mutually recursive the macros are, a finished run has written the replacement of
      the text and enabled every macro again. */
  lemma OutputIsReplacement(toks: seq<Token>, table: Table, n: nat)
    requires ObjectLike(table) && Halted(Run(Start(toks), table, n))
    ensures var d := Run(Start(toks), table, n);
      && !d.stuck && d.disabled == {}
      && d.levels == [File([], MarkedAll(Start(toks).levels[0], Replace(toks, {}, 1, table)))]
  {
    var c := Start(toks);
    var k := ReadsToEnd(c, table);
    HaltsOnce(c, table, k, n);
    var out := MarkedAll(c.levels[0], Replace(toks, {}, 1, table));
    assert [] + out == out;
  }

  /** No token is the name of a macro that may be replaced. */
  predicate NoMacro(toks: seq<Token>, table: Table)
  {
    forall i :: 0 <= i < |toks| && toks[i].Ident? && !toks[i].painted ==> toks[i].name !in table
  }

  lemma {:induction false} NoMacroStays(toks: seq<Token>, off: set<string>, depth: nat, table: Table)
    requires NoMacro(toks, table)
    ensures Replace(toks, off, depth, table) == toks
    decreases |toks|
  {
    if toks != [] { NoMacroStays(toks[1..], off, depth, table); }
  }

  lemma {:induction false} ReplaceConcat(a: seq<Token>, b: seq<Token>, off: set<string>, depth: nat, table: Table)
    ensures Replace(a + b, off, depth, table) == Replace(a, off, depth, table) + Replace(b, off, depth, table)
    decreases |a|
  {
    if a == [] {
      assert a + b == b;
    } else {
      assert (a + b)[1..] == a[1..] + b;
      ReplaceConcat(a[1..], b, off, depth, table);
    }
  }

  /** u is the token t as it is written to a file. */
  predicate Written(t: Token, u: Token)
  {
    if t.Ident? then u == Ident(t.name, false) else u == t
  }

  /** The macro m in a text without other macros: what is written is the text before it, the tokens of
      its body in their order, and the text behind it. */
  lemma BodyIsWritten(pre: seq<Token>, m: string, post: seq<Token>, table: Table, n: nat)
    requires ObjectLike(table) && m in table && AllPlain(table[m].body)
    requires NoMacro(pre, table) && NoMacro(post, table) && NoMacro(Body(m, table), table)
    requires Halted(Run(Start(pre + [Ident(m, false)] + post), table, n))
    ensures var d, b := Run(Start(pre + [Ident(m, false)] + post), table, n), table[m].body;
      && !d.stuck && |d.levels| == 1 && d.levels[0].File? && d.levels[0].toks == []
      && var out := d.levels[0].out;
         && |out| == |pre| + |b| + |post|
         && (forall k :: 0 <= k < |pre| ==> Written(pre[k], out[k]))
         && (forall k :: 0 <= k < |b| ==> Written(b[k].t, out[|pre| + k]))
         && (forall k :: 0 <= k < |post| ==> Written(post[k], out[|pre| + |b| + k]))
  {
    var toks, body := pre + [Ident(m, false)] + post, Body(m, table);
    OutputIsReplacement(toks, table, n);
    ReplaceAround(pre, m, post, table);
    PlainStands(body, table[m].body, map[]);
    hide *;
    WrittenPieces(pre, body, post, MarkedAll(Start(toks).levels[0], Replace(toks, {}, 1, table)));
  }

  lemma ReplaceAround(pre: seq<Token>, m: string, post: seq<Token>, table: Table)
    requires ObjectLike(table) && m in table
    requires NoMacro(pre, table) && NoMacro(post, table) && NoMacro(Body(m, table), table)
    ensures Replace(pre + [Ident(m, false)] + post, {}, 1, table) == pre + Body(m, table) + post
  {
    OneToken(m, table);
    hide Replace, NoMacro, Body;
    ReplaceConcat(pre + [Ident(m, false)], post, {}, 1, table);
    ReplaceConcat(pre, [Ident(m, false)], {}, 1, table);
    NoMacroStays(pre, {}, 1, table);
    NoMacroStays(post, {}, 1, table);
    NoMacroStays(Body(m, table), {m}, 2, table);
  }

  lemma WrittenPieces(a: seq<Token>, b: seq<Token>, c: seq<Token>, out: seq<Token>)
    requires |out| == |a + b + c| && forall i :: 0 <= i < |out| ==> Written((a + b + c)[i], out[i])
    ensures forall k :: 0 <= k < |a| ==> Written(a[k], out[k])
    ensures forall k :: 0 <= k < |b| ==> Written(b[k], out[|a| + k])
    ensures forall k :: 0 <= k < |c| ==> Written(c[k], out[|a| + |b| + k])
  {
    hide Written;
    var all := a + b + c;
    forall k | 0 <= k < |a| ensures Written(a[k], out[k]) { assert all[k] == a[k]; }
    forall k | 0 <= k < |b| ensures Written(b[k], out[|a| + k]) { assert all[|a| + k] == b[k]; }
    forall k | 0 <= k < |c| ensures Written(c[k], out[|a| + |b| + k]) { assert all[|a| + |b| + k] == c[k]; }
  }

  lemma OneToken(m: string, table: Table)
    requires m in table
    ensures Replace([Ident(m, false)], {}, 1, table) == Replace(Body(m, table), {m}, 2, table)
  {
    var t := Ident(m, false);
    assert [t][1..] == [] && {} + {m} == {m};
    assert Replacement(t, {}, 1, table) == Replace(Body(m, table), {} + {m}, 2, table);
    assert Replace([t], {}, 1, table) == Replacement(t, {}, 1, table) + [];
  }

  /** Replacement without a bound on the depth. */
  function Meaning(toks: seq<Token>, off: set<string>, table: Table): seq<Token>
    decreases table.Keys - off, |toks|
  {
    if toks == [] then []
    else
      var t := toks[0];
      var first :=
        if !t.Ident? || t.painted || t.name !in table then [t]
        else if t.name in off then [Ident(t.name, true)]
        else
          assert t.name in table.Keys - off;
          Meaning(Body(t.name, table), off + {t.name}, table);
      first + Meaning(toks[1..], off, table)
  }

  /** Macros nest no deeper than there are macros, so a table that leaves room on the input stack
      loses no name. */
  lemma {:induction false} DepthSuffices(toks: seq<Token>, off: set<string>, depth: nat, table: Table)
    requires depth + |table.Keys - off| <= MAX_DEPTH
    ensures Replace(toks, off, depth, table) == Meaning(toks, off, table)
    decreases table.Keys - off, |toks|
  {
    if toks != [] {
      var t := toks[0];
      if t.Ident? && !t.painted && t.name in table && t.name !in off {
        assert table.Keys - (off + {t.name}) == table.Keys - off - {t.name};
        assert t.name in table.Keys - off;
        DepthSuffices(Body(t.name, table), off + {t.name}, depth + 1, table);
      }
      DepthSuffices(toks[1..], off, depth, table);
    }
  }

  /** Nothing is left to replace: each name of a macro is painted. */
  predicate Final(toks: seq<Token>, table: Table)
  {
    forall i :: 0 <= i < |toks| && toks[i].Ident? && toks[i].name in table ==> toks[i].painted
  }

  lemma {:induction false} ReplacementIsFinal(toks: seq<Token>, off: set<string>, depth: nat, table: Table)
    ensures Final(Replace(toks, off, depth, table), table)
    decreases table.Keys - off, |toks|
  {
    if toks != [] {
      var t := toks[0];
      if t.Ident? && !t.painted && t.name in table && t.name !in off && depth < MAX_DEPTH {
        assert t.name in table.Keys - off;
        ReplacementIsFinal(Body(t.name, table), off + {t.name}, depth + 1, table);
      }
      ReplacementIsFinal(toks[1..], off, depth, table);
    }
  }

  lemma {:induction false} FinalStays(toks: seq<Token>, off: set<string>, depth: nat, table: Table)
    requires Final(toks, table)
    ensures Replace(toks, off, depth, table) == toks
    decreases |toks|
  {
    if toks != [] { FinalStays(toks[1..], off, depth, table); }
  }

  /** Expanding what was expanded changes nothing, in whatever context it is read again. */
  lemma ReplacementIsStable(toks: seq<Token>, off: set<string>, depth: nat, again: set<string>, deep: nat, table: Table)
    ensures Replace(Replace(toks, off, depth, table), again, deep, table) == Replace(toks, off, depth, table)
  {
    ReplacementIsFinal(toks, off, depth, table);
    FinalStays(Replace(toks, off, depth, table), again, deep, table);
  }
}

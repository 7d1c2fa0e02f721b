/** The expansion of an argument depends on the argument and on the macros that are switched off,
    and on nothing else: section 6.10.3.1 of ISO/IEC 9899:1999 has it replaced as if it formed the
    rest of the file. */
module MacroArguments {
  import opened MacroEngine
  import opened MacroTermination
  import opened Wrappers

  /** Two runs that expand the same argument in temporary buffers at level k. */
  predicate Alike(a: Config, b: Config, k: nat)
  {
    && k < |a.levels| == |b.levels| && a.disabled == b.disabled && a.stuck == b.stuck
    && a.levels[k].Temp? && b.levels[k].Temp?
    && a.levels[k].toks == b.levels[k].toks && a.levels[k].out == b.levels[k].out
    && (forall i :: k < i < |a.levels| ==> a.levels[i] == b.levels[i])
  }

  /** The levels under the buffer are as they were, and it serves the same call. */
  predicate Kept(d: Config, a: Config, k: nat)
  {
    && k < |d.levels| && k < |a.levels| && d.levels[k].Temp? && a.levels[k].Temp?
    && d.levels[k].call == a.levels[k].call && (forall i :: 0 <= i < k ==> d.levels[i] == a.levels[i])
  }

  /** The runs went from a to d and from b to e side by side. */
  predicate Together(d: Config, a: Config, e: Config, b: Config, k: nat)
  {
    Alike(d, e, k) && Kept(d, a, k) && Kept(e, b, k)
  }

  lemma TogetherTwice(f: Config, d: Config, a: Config, g: Config, e: Config, b: Config, k: nat)
    requires Together(f, d, g, e, k) && Together(d, a, e, b, k)
    ensures Together(f, a, g, b, k)
  {
  }

  lemma PopTogether(a: Config, b: Config, k: nat)
    requires WellFormed(a) && WellFormed(b) && Alike(a, b, k) && Top(a).Macro?
    ensures Top(b) == Top(a) && Together(PopMacro(a), a, PopMacro(b), b, k)
  {
  }

  lemma ConsumeTogether(a: Config, b: Config, k: nat)
    requires WellFormed(a) && WellFormed(b) && Alike(a, b, k) && Top(a).toks != []
    ensures Top(b).toks == Top(a).toks && Together(Consume(a), a, Consume(b), b, k)
  {
  }

  lemma {:induction false} BufferTogether(a: seq<Level>, b: seq<Level>, k: nat, n: nat)
    requires k < n <= |a| == |b| && !a[0].Macro? && !b[0].Macro? && a[k].Temp? && b[k].Temp?
    requires forall i :: k < i < n ==> a[i] == b[i]
    ensures k <= Buffer(a, n) == Buffer(b, n)
    decreases n
  {
    if n - 1 > k && a[n - 1].Macro? { BufferTogether(a, b, k, n - 1); }
  }

  lemma EmitTogether(a: Config, b: Config, k: nat, t: Token)
    requires WellFormed(a) && WellFormed(b) && Alike(a, b, k)
    ensures Together(Emit(a, t), a, Emit(b, t), b, k)
  {
    BufferTogether(a.levels, b.levels, k, |a.levels|);
  }

  lemma {:induction false} LeaveTogether(a: Config, b: Config, k: nat)
    requires WellFormed(a) && WellFormed(b) && Alike(a, b, k)
    ensures Together(LeaveExhausted(a), a, LeaveExhausted(b), b, k)
    decreases |a.levels|
  {
    if Top(a).Macro? && Top(a).toks == [] {
      PopTogether(a, b, k);
      LeaveTogether(PopMacro(a), PopMacro(b), k);
    }
  }

  lemma {:induction false} CollectTogether(a: Config, b: Config, k: nat, paren: nat, args: seq<seq<Token>>,
                                           arg: seq<Token>)
    requires WellFormed(a) && WellFormed(b) && Alike(a, b, k)
    ensures var r, s := CollectArgs(a, paren, args, arg), CollectArgs(b, paren, args, arg);
      && r.Some? == s.Some?
      && (r.Some? ==> r.value.1 == s.value.1 && Together(r.value.0, a, s.value.0, b, k))
    decreases |a.levels|, |Top(a).toks|
  {
    var top := Top(a);
    if top.toks == [] {
      if top.Macro? {
        PopTogether(a, b, k);
        CollectTogether(PopMacro(a), PopMacro(b), k, paren, args, arg);
      }
    } else {
      ConsumeTogether(a, b, k);
      var t, d, e := top.toks[0], Consume(a), Consume(b);
      if paren == 0 && t == RParen {
      } else if paren == 0 && t == Comma {
        CollectTogether(d, e, k, 0, args + [arg], []);
      } else {
        var next := if t == LParen then paren + 1 else if t == RParen then paren - 1 else paren;
        CollectTogether(d, e, k, next, args, arg + [t]);
      }
    }
  }

  lemma ResumeTogether(a: Config, b: Config, k: nat, call: Call, table: Table)
    requires WellFormed(a) && WellFormed(b) && Alike(a, b, k) && |a.levels| < MAX_DEPTH
    ensures Together(ResumeCall(a, call, table), a, ResumeCall(b, call, table), b, k)
  {
  }

  lemma CallTogether(a: Config, b: Config, k: nat, m: string, body: seq<BodyToken>, table: Table)
    requires WellFormed(a) && WellFormed(b) && Alike(a, b, k) && Top(a).toks != []
    ensures Top(b).toks == Top(a).toks
    ensures Together(ExpandCall(a, m, body, table), a, ExpandCall(b, m, body, table), b, k)
  {
    ConsumeTogether(a, b, k);
    CollectTogether(Consume(a), Consume(b), k, 0, [], []);
    var r, s := CollectArgs(Consume(a), 0, [], []), CollectArgs(Consume(b), 0, [], []);
    if r.Some? && |a.levels| < MAX_DEPTH {
      ResumeTogether(r.value.0, s.value.0, k, Call(m, r.value.1, map[], Uses(body)), table);
    }
  }

  lemma EmitAfterTogether(d: Config, a: Config, e: Config, b: Config, k: nat, t: Token)
    requires WellFormed(d) && WellFormed(e) && Together(d, a, e, b, k)
    ensures Together(Emit(d, t), a, Emit(e, t), b, k)
  {
    EmitTogether(d, e, k, t);
    TogetherTwice(Emit(d, t), d, a, Emit(e, t), e, b, k);
  }

  lemma CallAfterTogether(d: Config, a: Config, e: Config, b: Config, k: nat, m: string, body: seq<BodyToken>,
                          table: Table)
    requires WellFormed(d) && WellFormed(e) && Together(d, a, e, b, k) && Top(d).toks != []
    ensures Top(e).toks == Top(d).toks
    ensures Together(ExpandCall(d, m, body, table), a, ExpandCall(e, m, body, table), b, k)
  {
    CallTogether(d, e, k, m, body, table);
    TogetherTwice(ExpandCall(d, m, body, table), d, a, ExpandCall(e, m, body, table), e, b, k);
  }

  /** The name of a macro with arguments has been taken. */
  lemma NameTogether(a: Config, b: Config, k: nat, t: Token, table: Table)
    requires WellFormed(a) && WellFormed(b) && Alike(a, b, k)
    requires t.Ident? && !t.painted && t.name in table && t.name !in a.disabled && table[t.name].nargs >= 0
    ensures Together(Use(a, t, table), a, Use(b, t, table), b, k)
  {
    var d, e := LeaveExhausted(a), LeaveExhausted(b);
    LeaveTogether(a, b, k);
    assert Top(d).toks == Top(e).toks;
    if Top(d).toks != [] && Top(d).toks[0] == LParen {
      CallAfterTogether(d, a, e, b, k, t.name, table[t.name].body, table);
    } else {
      EmitAfterTogether(d, a, e, b, k, t);
    }
  }

  lemma UseTogether(a: Config, b: Config, k: nat, t: Token, table: Table)
    requires WellFormed(a) && WellFormed(b) && Alike(a, b, k)
    ensures Together(Use(a, t, table), a, Use(b, t, table), b, k)
  {
    if !t.Ident? || t.painted || t.name !in table {
      EmitTogether(a, b, k, t);
    } else if t.name in a.disabled {
      EmitTogether(a, b, k, Ident(t.name, true));
    } else if table[t.name].nargs >= 0 {
      NameTogether(a, b, k, t, table);
    }
  }

  /** The buffer at level k has been read to its end, or the run is stuck. */
  predicate Over(c: Config, k: nat)
  {
    c.stuck || (|c.levels| == k + 1 && c.levels[k].toks == [])
  }

  lemma FinishTogether(a: Config, b: Config, k: nat, table: Table)
    requires WellFormed(a) && WellFormed(b) && Alike(a, b, k) && Top(a).Temp? && k + 1 < |a.levels|
    ensures Top(b) == Top(a) && Together(FinishTemp(a, table), a, FinishTemp(b, table), b, k)
  {
    hide ResumeCall;
    var d, e := a.(levels := a.levels[..|a.levels| - 1]), b.(levels := b.levels[..|b.levels| - 1]);
    var call := Top(a).call;
    ResumeTogether(d, e, k, call.(expanded := call.expanded[call.todo[0] := Top(a).out], todo := call.todo[1..]),
        table);
  }

  lemma StepTogether(a: Config, b: Config, k: nat, table: Table)
    requires WellFormed(a) && WellFormed(b) && Alike(a, b, k) && 0 < k && !Over(a, k)
    ensures Together(Step(a, table), a, Step(b, table), b, k)
  {
    assert Top(b).toks == Top(a).toks && Top(b).Macro? == Top(a).Macro?;
    if Top(a).toks != [] {
      ConsumeTogether(a, b, k);
      UseTogether(Consume(a), Consume(b), k, Top(a).toks[0], table);
      TogetherTwice(Step(a, table), Consume(a), a, Step(b, table), Consume(b), b, k);
    } else if Top(a).Macro? {
      PopTogether(a, b, k);
    } else {
      FinishTogether(a, b, k, table);
    }
  }

  predicate OverAfter(a: Config, table: Table, k: nat, m: nat)
    requires WellFormed(a)
  {
    Over(Run(a, table, m), k)
  }

  lemma {:induction false} RunTogether(a: Config, b: Config, k: nat, table: Table, m: nat)
    requires WellFormed(a) && WellFormed(b) && Alike(a, b, k) && 0 < k
    requires forall i: nat :: i < m ==> !OverAfter(a, table, k, i)
    ensures Together(Run(a, table, m), a, Run(b, table, m), b, k)
    decreases m
  {
    hide Step;
    if m > 0 {
      var d, e := Run(a, table, m - 1), Run(b, table, m - 1);
      RunTogether(a, b, k, table, m - 1);
      assert !OverAfter(a, table, k, m - 1);
      RunOne(a, table, m - 1);
      RunOne(b, table, m - 1);
      StepTogether(d, e, k, table);
      TogetherTwice(Step(d, table), d, a, Step(e, table), e, b, k);
    }
  }

  /** Wherever a call stands and whatever it is a call to, the same argument, read with the same
      macros off at the same depth, has the same expansion (the output at level k); reading it
      takes nothing from the levels under its buffer. */
  lemma ArgumentExpandsAlone(a: Config, b: Config, table: Table) returns (n: nat)
    requires WellFormed(a) && WellFormed(b) && Alike(a, b, |a.levels| - 1) && !a.stuck
    ensures var k, d, e := |a.levels| - 1, Run(a, table, n), Run(b, table, n);
      && Over(d, k) && Together(d, a, e, b, k) && forall i: nat :: i < n ==>
          !OverAfter(a, table, k, i) && !OverAfter(b, table, k, i)
  {
    hide Run, Kept;
    var k := |a.levels| - 1;
    RescanEnds(a, table);
    var end: nat :| Halted(Run(a, table, end));
    n := 0;
    while !OverAfter(a, table, k, n)
      invariant n <= end
      invariant forall i: nat :: i < n ==> !OverAfter(a, table, k, i) && !OverAfter(b, table, k, i)
      decreases end - n
    {
      RunTogether(a, b, k, table, n);
      assert !OverAfter(b, table, k, n);
      n := n + 1;
    }
    RunTogether(a, b, k, table, n);
  }

  /** A temporary buffer on top of the stack. */
  ghost function Buffered(c: Config, arg: seq<Token>, call: Call): Config
  {
    c.(levels := c.levels + [Temp(arg, [], call)])
  }

  /** The same, once it has been read. */
  ghost function Finished(c: Config, out: seq<Token>, call: Call): Config
  {
    c.(levels := c.levels + [Temp([], out, call)])
  }

  lemma FinishedStep(c: Config, out: seq<Token>, call: Call, table: Table, rest: nat)
    requires WellFormed(c) && |c.levels| < MAX_DEPTH && call.todo != []
    requires WellFormed(Finished(c, out, call)) && !c.stuck
    requires Halted(Run(Finished(c, out, call), table, rest + 1))
    ensures var next := call.(expanded := call.expanded[call.todo[0] := out], todo := call.todo[1..]);
      && Step(Finished(c, out, call), table) == ResumeCall(c, next, table)
      && Halted(Run(ResumeCall(c, next, table), table, rest))
  {
    var e := Finished(c, out, call);
    assert e.levels[..|e.levels| - 1] == c.levels;
  }

  lemma RunNothing(c: Config, table: Table)
    requires WellFormed(c)
    ensures Run(c, table, 0) == c
  {
  }
}

/** Rescanning ends, whatever the macros are: a call takes text from a level and puts text only
    above it, and the input stack has a bounded depth. */
module MacroTermination {
  import opened MacroEngine
  import opened Wrappers

  /** What is left to do at a level: arguments still to expand, then tokens. */
  function Weight(c: Config, i: nat): (nat, nat)
  {
    if i >= |c.levels| then (0, 0)
    else (if c.levels[i].Temp? then 1 + |c.levels[i].call.todo| else 1, |c.levels[i].toks|)
  }

  predicate Less(a: (nat, nat), b: (nat, nat))
  {
    a.0 < b.0 || (a.0 == b.0 && a.1 < b.1)
  }

  predicate Agree(d: Config, c: Config, j: nat)
  {
    forall i :: 0 <= i < j ==> Weight(d, i) == Weight(c, i)
  }

  /** Level j has less to do, and the levels under it have what they had. */
  predicate Descends(d: Config, c: Config, j: nat)
  {
    Agree(d, c, j) && Less(Weight(d, j), Weight(c, j))
  }

  lemma EmitWeighsNothing(c: Config, t: Token)
    requires WellFormed(c)
    ensures |Emit(c, t).levels| == |c.levels| && forall i: nat :: Weight(Emit(c, t), i) == Weight(c, i)
  {
  }

  lemma {:induction false} LeaveShape(c: Config)
    requires WellFormed(c)
    ensures var d := LeaveExhausted(c); |d.levels| <= |c.levels| && d.levels == c.levels[..|d.levels|]
    decreases |c.levels|
  {
    if Top(c).Macro? && Top(c).toks == [] {
      LeaveShape(PopMacro(c));
    }
  }

  lemma DescendsOnce(c: Config)
    requires WellFormed(c) && Top(c).toks != []
    ensures |Consume(c).levels| == |c.levels| && Descends(Consume(c), c, |c.levels| - 1)
  {
  }

  lemma ConsumedThenDescends(c: Config, e: Config, j: nat)
    requires WellFormed(c) && Top(c).toks != [] && Descends(e, Consume(c), j)
    ensures Descends(e, c, j)
  {
    DescendsOnce(c);
    forall i | 0 <= i < j ensures Weight(e, i) == Weight(c, i) {
      assert Weight(e, i) == Weight(Consume(c), i);
    }
  }

  lemma PoppedThenDescends(c: Config, e: Config, j: nat)
    requires WellFormed(c) && Top(c).Macro? && j < |c.levels| - 1 && Descends(e, PopMacro(c), j)
    ensures Descends(e, c, j)
  {
    forall i | 0 <= i <= j ensures Weight(PopMacro(c), i) == Weight(c, i) {}
  }

  /** Collecting arguments takes at least the closing parenthesis from the level it ends at. */
  lemma {:induction false} CollectDescends(c: Config, paren: nat, args: seq<seq<Token>>, arg: seq<Token>)
      returns (j: nat)
    requires WellFormed(c) && CollectArgs(c, paren, args, arg).Some?
    ensures var d := CollectArgs(c, paren, args, arg).value.0;
      && j + 1 == |d.levels| <= |c.levels| && Descends(d, c, j)
    decreases |c.levels|, |Top(c).toks|
  {
    hide Descends;
    var top := Top(c);
    if top.toks == [] {
      j := CollectDescends(PopMacro(c), paren, args, arg);
      PoppedThenDescends(c, CollectArgs(c, paren, args, arg).value.0, j);
    } else {
      var t, d := top.toks[0], Consume(c);
      if paren == 0 && t == RParen {
        j := |c.levels| - 1;
        DescendsOnce(c);
      } else {
        j := CollectDescends(d,
          if t == LParen then paren + 1 else if t == RParen then paren - 1 else paren,
          if paren == 0 && t == Comma then args + [arg] else args,
          if paren == 0 && t == Comma then [] else arg + [t]);
        ConsumedThenDescends(c, CollectArgs(c, paren, args, arg).value.0, j);
      }
    }
  }

  lemma ResumeWeighs(c: Config, call: Call, table: Table)
    requires WellFormed(c) && |c.levels| < MAX_DEPTH
    ensures Agree(ResumeCall(c, call, table), c, |c.levels|)
    ensures Weight(ResumeCall(c, call, table), |c.levels|).0 == 1 + |call.todo|
  {
  }

  lemma CallDescends(c: Config, m: string, body: seq<BodyToken>, table: Table) returns (j: nat)
    requires WellFormed(c) && Top(c).toks != [] && |c.levels| < MAX_DEPTH
    ensures var d := ExpandCall(c, m, body, table); d.stuck || (j < |c.levels| && Descends(d, c, j))
  {
    hide CollectArgs, ResumeCall, Uses;
    var r := CollectArgs(Consume(c), 0, [], []);
    j := 0;
    if r.Some? {
      j := CollectDescends(Consume(c), 0, [], []);
      ResumeWeighs(r.value.0, Call(m, r.value.1, map[], Uses(body)), table);
    }
  }

  lemma DescendsTwice(e: Config, d: Config, c: Config, k: nat, j: nat)
    requires Descends(e, d, k) && Descends(d, c, j)
    ensures Descends(e, c, if k < j then k else j)
  {
    var i := if k < j then k else j;
    assert Weight(d, i) == Weight(c, i) || Less(Weight(d, i), Weight(c, i));
    assert Weight(e, i) == Weight(d, i) || Less(Weight(e, i), Weight(d, i));
  }

  /** Levels that are left have nothing left to do. */
  lemma LeaveDescends(c: Config, b: Config, j: nat) returns (k: nat)
    requires WellFormed(b) && j < |b.levels| && Descends(b, c, j)
    ensures k < |LeaveExhausted(b).levels| + 1 && k <= j && Descends(LeaveExhausted(b), c, k)
  {
    var d := LeaveExhausted(b);
    LeaveShape(b);
    k := j;
    if |d.levels| < |b.levels| {
      assert Descends(d, b, |d.levels|);
      DescendsTwice(d, b, c, |d.levels|, j);
      k := if |d.levels| < j then |d.levels| else j;
    }
  }

  /** The name of a macro with arguments has been taken. */
  lemma NameDescends(c: Config, b: Config, t: Token, table: Table) returns (j: nat)
    requires WellFormed(c) && WellFormed(b) && |b.levels| == |c.levels| && Descends(b, c, |c.levels| - 1)
    requires t.Ident? && !t.painted && t.name in table && t.name !in b.disabled && table[t.name].nargs >= 0
    ensures var d := Use(b, t, table); d.stuck || (j < |c.levels| && Descends(d, c, j))
  {
    var d := LeaveExhausted(b);
    j := LeaveDescends(c, b, |c.levels| - 1);
    if Top(d).toks != [] && Top(d).toks[0] == LParen {
      if |d.levels| < MAX_DEPTH {
        var k := CallDescends(d, t.name, table[t.name].body, table);
        var e := ExpandCall(d, t.name, table[t.name].body, table);
        if !e.stuck {
          DescendsTwice(e, d, c, k, j);
          if k < j { j := k; }
        }
      }
    } else {
      EmitWeighsNothing(d, t);
    }
  }

  lemma UseDescends(c: Config, table: Table) returns (j: nat)
    requires WellFormed(c) && Top(c).toks != []
    ensures var d := Use(Consume(c), Top(c).toks[0], table); d.stuck || (j < |c.levels| && Descends(d, c, j))
  {
    var b, t := Consume(c), Top(c).toks[0];
    DescendsOnce(c);
    if t.Ident? && !t.painted && t.name in table && t.name !in b.disabled && table[t.name].nargs >= 0 {
      j := NameDescends(c, b, t, table);
    } else {
      j := |c.levels| - 1;
      EmitWeighsNothing(b, t);
      EmitWeighsNothing(b, if t.Ident? then Ident(t.name, true) else t);
    }
  }

  lemma StepDescends(c: Config, table: Table) returns (j: nat)
    requires WellFormed(c) && !Halted(c)
    ensures Step(c, table).stuck || (j < |c.levels| && Descends(Step(c, table), c, j))
  {
    if Top(c).toks != [] {
      j := UseDescends(c, table);
    } else {
      j := |c.levels| - 1;
      if Top(c).Temp? {
        var call := Top(c).call;
        ResumeWeighs(c.(levels := c.levels[..j]),
                     call.(expanded := call.expanded[call.todo[0] := Top(c).out], todo := call.todo[1..]), table);
      }
    }
  }

  /** After finitely many steps the run is over, or a level under k has less to do. */
  lemma {:induction false} ReachesBelow(c: Config, table: Table, k: nat) returns (n: nat, j: nat)
    requires WellFormed(c) && k <= MAX_DEPTH
    ensures Halted(Run(c, table, n)) || (j < k && Descends(Run(c, table, n), c, j))
    decreases MAX_DEPTH - k, Weight(c, k).0, Weight(c, k).1
  {
    n, j := 0, 0;
    if !Halted(c) {
      if k == MAX_DEPTH {
        j := StepDescends(c, table);
        n := 1;
        assert Run(c, table, 1) == Run(Step(c, table), table, 0) == Step(c, table);
      } else {
        n, j := ReachesBelow(c, table, k + 1);
        var d := Run(c, table, n);
        if !Halted(d) && j == k {
          var m, i := ReachesBelow(d, table, k);
          RunsCompose(c, table, n, m);
          n, j := n + m, i;
        }
      }
    }
  }

  /** Every run of every text with every table of macros ends. */
  lemma RescanEnds(c: Config, table: Table)
    requires WellFormed(c)
    ensures exists n: nat :: Halted(Run(c, table, n))
  {
    var n, _ := ReachesBelow(c, table, 0);
    assert Halted(Run(c, table, n));
  }
}

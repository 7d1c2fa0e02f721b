/** What a call of a macro with arguments is replaced by: sections 6.10.3 and 6.10.3.1 of ISO/IEC
    9899:1999. */
module MacroCalls {
  import opened MacroArguments
  import opened MacroEngine
  import opened MacroTermination
  import opened MacroText
  import opened Wrappers

  // ---------------------------------------------------------------------------------------
  // Which tokens are the arguments

  /** The text that argument collection reads: the macro levels on top, then the level under
      them. */
  function Text(c: Config): seq<Token>
    requires WellFormed(c)
    decreases |c.levels|
  {
    Top(c).toks + if Top(c).Macro? then Text(PopMacro(c)) else []
  }

  function Nesting(paren: nat, t: Token): nat
    requires t == RParen ==> paren > 0
  {
    if t == LParen then paren + 1 else if t == RParen then paren - 1 else paren
  }

  /** Read from a given depth of nesting, arg ends outside parentheses, and before its end there
      is neither a comma nor a closing parenthesis outside them. */
  predicate Closed(arg: seq<Token>, paren: nat)
  {
    if arg == [] then paren == 0
    else if paren == 0 && (arg[0] == RParen || arg[0] == Comma) then false
    else Closed(arg[1..], Nesting(paren, arg[0]))
  }

  /** The text of a call after its opening parenthesis. */
  function CallText(args: seq<seq<Token>>): seq<Token>
    requires args != []
  {
    if |args| == 1 then args[0] + [RParen] else args[0] + [Comma] + CallText(args[1..])
  }

  predicate AllClosed(args: seq<seq<Token>>)
  {
    forall i :: 0 <= i < |args| ==> Closed(args[i], 0)
  }

  lemma TextConsumed(c: Config)
    requires WellFormed(c) && Top(c).toks != []
    ensures Text(c) != [] && Text(c)[0] == Top(c).toks[0] && Text(Consume(c)) == Text(c)[1..]
  {
    if Top(c).Macro? { ConsumedThenPopped(c); }
    TailOfSum(Top(c).toks, if Top(c).Macro? then Text(PopMacro(c)) else []);
  }

  lemma ConsumedThenPopped(c: Config)
    requires WellFormed(c) && Top(c).toks != [] && Top(c).Macro?
    ensures PopMacro(Consume(c)) == PopMacro(c)
  {
    assert Consume(c).levels[..|c.levels| - 1] == c.levels[..|c.levels| - 1];
  }

  lemma TailOfSum<T>(a: seq<T>, b: seq<T>)
    requires a != []
    ensures a + b != [] && (a + b)[0] == a[0] && (a + b)[1..] == a[1..] + b
  {
  }

  lemma TextPopped(c: Config)
    requires WellFormed(c) && Top(c).toks == []
    ensures Text(c) == if Top(c).Macro? then Text(PopMacro(c)) else []
  {
    if Top(c).Macro? { assert [] + Text(PopMacro(c)) == Text(PopMacro(c)); }
  }

  /** One argument is collected up to the comma or parenthesis that ends it. */
  lemma {:induction false} CollectsOne(c: Config, paren: nat, args: seq<seq<Token>>, acc: seq<Token>,
                                       arg: seq<Token>, end: Token, rest: seq<Token>) returns (d: Config)
    requires WellFormed(c) && Closed(arg, paren) && (end == Comma || end == RParen) && Text(c) == arg + ([end] + rest)
    ensures WellFormed(d) && Text(d) == rest
    ensures CollectArgs(c, paren, args, acc) ==
      if end == RParen then Some((d, args + [acc + arg])) else CollectArgs(d, 0, args + [acc + arg], [])
    decreases |c.levels|, |Top(c).toks|
  {
    if Top(c).toks == [] {
      TextPopped(c);
      d := CollectsOne(PopMacro(c), paren, args, acc, arg, end, rest);
    } else {
      TextConsumed(c);
      var t := Top(c).toks[0];
      if arg == [] {
        d := Consume(c);
        assert Text(c)[1..] == rest && acc + arg == acc;
      } else {
        assert t == arg[0] && Text(c)[1..] == arg[1..] + ([end] + rest);
        d := CollectsOne(Consume(c), Nesting(paren, t), args, acc + [t], arg[1..], end, rest);
        assert acc + [t] + arg[1..] == acc + arg;
      }
    }
  }

  /** If the text goes on like a call, its arguments are collected and what follows is left. */
  lemma {:induction false} CollectsArguments(c: Config, done: seq<seq<Token>>, args: seq<seq<Token>>, rest: seq<Token>)
      returns (d: Config)
    requires WellFormed(c) && args != [] && AllClosed(args) && Text(c) == CallText(args) + rest
    ensures WellFormed(d) && CollectArgs(c, 0, done, []) == Some((d, done + args)) && Text(d) == rest
    decreases |args|
  {
    assert [] + args[0] == args[0];
    if |args| == 1 {
      assert CallText(args) + rest == args[0] + ([RParen] + rest);
      d := CollectsOne(c, 0, done, [], args[0], RParen, rest);
      assert [args[0]] == args;
    } else {
      var more := CallText(args[1..]) + rest;
      assert CallText(args) + rest == args[0] + ([Comma] + more);
      var b := CollectsOne(c, 0, done, [], args[0], Comma, more);
      d := CollectsArguments(b, done + [args[0]], args[1..], rest);
      assert done + [args[0]] + args[1..] == done + args;
    }
  }

  /** Whatever is collected was the text of a call. */
  lemma {:induction false} CollectedIsCall(c: Config, paren: nat, args: seq<seq<Token>>, acc: seq<Token>)
      returns (xs: seq<seq<Token>>)
    requires WellFormed(c) && CollectArgs(c, paren, args, acc).Some?
    ensures var (d, all) := CollectArgs(c, paren, args, acc).value;
      && xs != [] && all == args + [acc + xs[0]] + xs[1..]
      && Closed(xs[0], paren) && AllClosed(xs[1..]) && Text(c) == CallText(xs) + Text(d)
    decreases |c.levels|, |Top(c).toks|
  {
    var (d, all) := CollectArgs(c, paren, args, acc).value;
    if Top(c).toks == [] {
      TextPopped(c);
      xs := CollectedIsCall(PopMacro(c), paren, args, acc);
    } else {
      TextConsumed(c);
      var t, b, text := Top(c).toks[0], Consume(c), Text(c);
      assert text == [t] + text[1..];
      hide Closed, CallText, Text, Consume;
      if paren == 0 && t == RParen {
        xs := LastArgument(acc, args, text, Text(d));
      } else if paren == 0 && t == Comma {
        var ys := CollectedIsCall(b, 0, args + [acc], []);
        xs := [[]] + ys;
        LeadingComma(ys, Text(d));
        AfterComma(args, acc, ys);
      } else {
        var ys := CollectedIsCall(b, Nesting(paren, t), args, acc + [t]);
        xs := [[t] + ys[0]] + ys[1..];
        LeadingToken(t, ys, Text(d));
        AfterToken(args, acc, t, ys, paren);
      }
    }
  }

  lemma LastArgument(acc: seq<Token>, args: seq<seq<Token>>, text: seq<Token>, rest: seq<Token>)
      returns (xs: seq<seq<Token>>)
    requires text == [RParen] + rest
    ensures xs == [[]] && args + [acc] == args + [acc + xs[0]] + xs[1..]
    ensures Closed(xs[0], 0) && AllClosed(xs[1..]) && text == CallText(xs) + rest
  {
    xs := [[]];
    assert acc + [] == acc;
  }

  lemma AfterComma(args: seq<seq<Token>>, acc: seq<Token>, ys: seq<seq<Token>>)
    requires ys != [] && Closed(ys[0], 0) && AllClosed(ys[1..])
    ensures var xs := [[]] + ys;
      && args + [acc] + [[] + ys[0]] + ys[1..] == args + [acc + xs[0]] + xs[1..]
      && Closed(xs[0], 0) && AllClosed(xs[1..])
  {
    var xs := [[]] + ys;
    assert xs[1..] == ys && ys == [ys[0]] + ys[1..] && acc + [] == acc && [] + ys[0] == ys[0];
    assert AllClosed(ys) by {
      forall i | 0 <= i < |ys| ensures Closed(ys[i], 0) {
        if i > 0 { assert ys[i] == ys[1..][i - 1]; }
      }
    }
  }

  lemma AfterToken(args: seq<seq<Token>>, acc: seq<Token>, t: Token, ys: seq<seq<Token>>, paren: nat)
    requires ys != [] && !(paren == 0 && (t == RParen || t == Comma))
    requires Closed(ys[0], Nesting(paren, t)) && AllClosed(ys[1..])
    ensures var xs := [[t] + ys[0]] + ys[1..];
      && args + [acc + [t] + ys[0]] + ys[1..] == args + [acc + xs[0]] + xs[1..]
      && Closed(xs[0], paren) && AllClosed(xs[1..])
  {
    var xs := [[t] + ys[0]] + ys[1..];
    assert xs[1..] == ys[1..] && xs[0][1..] == ys[0] && acc + [t] + ys[0] == acc + xs[0];
  }

  lemma LeadingComma(ys: seq<seq<Token>>, rest: seq<Token>)
    requires ys != []
    ensures [Comma] + (CallText(ys) + rest) == CallText([[]] + ys) + rest
  {
    assert ([[]] + ys)[1..] == ys;
    Regrouped([Comma], CallText(ys), rest, []);
  }

  lemma LeadingToken(t: Token, ys: seq<seq<Token>>, rest: seq<Token>)
    requires ys != []
    ensures [t] + (CallText(ys) + rest) == CallText([[t] + ys[0]] + ys[1..]) + rest
  {
    var xs := [[t] + ys[0]] + ys[1..];
    assert xs[1..] == ys[1..];
    if |ys| == 1 {
      Regrouped([t], ys[0], [RParen], rest);
    } else {
      Regrouped([t], ys[0], [Comma], CallText(ys[1..]));
      Regrouped([t], ys[0] + [Comma], CallText(ys[1..]), rest);
    }
  }

  lemma Regrouped<T>(a: seq<T>, b: seq<T>, c: seq<T>, d: seq<T>)
    ensures a + (b + c + d) == a + b + c + d
    ensures a + (b + c) == (a + b) + c
  {
  }

  // ---------------------------------------------------------------------------------------
  // What the call is replaced by

  /** Read alone on top of p, the argument is expanded to out. */
  ghost predicate ExpandsTo(p: Config, arg: seq<Token>, out: seq<Token>, table: Table)
  {
    exists n: nat, call :: ReadAlone(p, arg, out, table, n, call)
  }

  ghost predicate ReadAlone(p: Config, arg: seq<Token>, out: seq<Token>, table: Table, n: nat, call: Call)
  {
    var b := Buffered(p, arg, call);
    && WellFormed(b) && Run(b, table, n) == Finished(p, out, call)
    && forall i: nat :: i < n ==> !OverAfter(b, table, |p.levels|, i)
  }

  /** Read alone on top of p, the argument comes to an unterminated call before its buffer has been
      read to the end. */
  ghost predicate Fails(p: Config, arg: seq<Token>, table: Table)
  {
    exists n: nat, call :: FailsAlone(p, arg, table, n, call)
  }

  ghost predicate FailsAlone(p: Config, arg: seq<Token>, table: Table, n: nat, call: Call)
  {
    var b := Buffered(p, arg, call);
    && WellFormed(b) && Run(b, table, n).stuck && Kept(Run(b, table, n), b, |p.levels|)
    && forall i: nat :: i < n ==> !OverAfter(b, table, |p.levels|, i)
  }

  lemma FinishedIsOver(p: Config, out: seq<Token>, call: Call)
    ensures Over(Finished(p, out, call), |p.levels|)
  {
  }

  /** An argument has one expansion. */
  lemma ExpansionIsUnique(p: Config, arg: seq<Token>, out: seq<Token>, out': seq<Token>, table: Table)
    requires WellFormed(p) && ExpandsTo(p, arg, out, table) && ExpandsTo(p, arg, out', table)
    ensures out == out'
  {
    var n: nat, call :| ReadAlone(p, arg, out, table, n, call);
    var n': nat, call' :| ReadAlone(p, arg, out', table, n', call');
    var a, b, k := Buffered(p, arg, call), Buffered(p, arg, call'), |p.levels|;
    var m := if n < n' then n else n';
    RunTogether(a, b, k, table, m);
    FinishedIsOver(p, out, call);
    FinishedIsOver(p, out', call');
    assert OverAfter(a, table, k, n) && OverAfter(b, table, k, n');
    assert OverAfter(a, table, k, m) <==> OverAfter(b, table, k, m);
    assert n == m == n';
  }

  /** An argument that has an expansion does not fail. */
  lemma ExpandsOrFails(p: Config, arg: seq<Token>, out: seq<Token>, table: Table)
    requires WellFormed(p) && !p.stuck && ExpandsTo(p, arg, out, table)
    ensures !Fails(p, arg, table)
  {
    var n: nat, call :| ReadAlone(p, arg, out, table, n, call);
    forall n': nat, call' ensures !FailsAlone(p, arg, table, n', call') {
      FailsNowhere(p, arg, out, table, n, call, n', call');
    }
  }

  lemma FailsNowhere(p: Config, arg: seq<Token>, out: seq<Token>, table: Table, n: nat, call: Call, n': nat,
                     call': Call)
    requires WellFormed(p) && !p.stuck && ReadAlone(p, arg, out, table, n, call)
    ensures !FailsAlone(p, arg, table, n', call')
  {
    hide Run;
    var a, b, k := Buffered(p, arg, call), Buffered(p, arg, call'), |p.levels|;
    if WellFormed(b) {
      FinishedIsOver(p, out, call);
      if n' < n {
        RunTogether(a, b, k, table, n');
        assert !OverAfter(a, table, k, n');
      } else {
        RunTogether(a, b, k, table, n);
        assert OverAfter(b, table, k, n);
      }
    }
  }

  function ArgumentOf(args: seq<seq<Token>>, i: nat): seq<Token>
  {
    if i < |args| then args[i] else []
  }

  /** Read to its end, the buffer of an argument holds its expansion, or the argument fails. */
  lemma ReadsArgument(p: Config, arg: seq<Token>, call: Call, table: Table) returns (n: nat, out: seq<Token>)
    requires WellFormed(p) && |p.levels| < MAX_DEPTH && !p.stuck
    requires Disabling(p) && call.m !in p.disabled && call.todo != []
    ensures if Run(Buffered(p, arg, call), table, n).stuck then FailsAlone(p, arg, table, n, call)
            else ReadAlone(p, arg, out, table, n, call)
  {
    var b, k := Buffered(p, arg, call), |p.levels|;
    AddKeepsDisabling(p, b.levels[k]);
    assert Alike(b, b, k);
    n := ArgumentExpandsAlone(b, b, table);
    var e := Run(b, table, n);
    RunKeepsDisabling(b, table, n);
    hide Disabling, Run;
    out := [];
    if !e.stuck {
      out := e.levels[k].out;
      BackToFinished(p, b, e, out, call);
    }
  }

  /** The next argument is expanded, or it fails. */
  lemma ExpandsNext(p: Config, call: Call, table: Table) returns (n: nat, out: seq<Token>)
    requires WellFormed(p) && |p.levels| < MAX_DEPTH && !p.stuck
    requires Disabling(p) && call.m !in p.disabled && call.todo != []
    ensures var next := call.(expanded := call.expanded[call.todo[0] := out], todo := call.todo[1..]);
      var e := Run(ResumeCall(p, call, table), table, n);
      if e.stuck then Fails(p, ArgumentOf(call.args, call.todo[0]), table)
      else e == ResumeCall(p, next, table) && ExpandsTo(p, ArgumentOf(call.args, call.todo[0]), out, table)
  {
    hide Run, Disabling, Substitute, Kept, Over;
    var arg := ArgumentOf(call.args, call.todo[0]);
    var b := Buffered(p, arg, call);
    assert ResumeCall(p, call, table) == b;
    n, out := ReadsArgument(p, arg, call, table);
    if Run(b, table, n).stuck {
      assert FailsAlone(p, arg, table, n, call);
    } else {
      assert ReadAlone(p, arg, out, table, n, call);
      FinishedNext(p, out, call, table);
      RunOne(b, table, n);
      ResumeGoesOn(p, call.(expanded := call.expanded[call.todo[0] := out], todo := call.todo[1..]), table);
      n := n + 1;
    }
  }

  lemma FinishedNext(p: Config, out: seq<Token>, call: Call, table: Table)
    requires WellFormed(p) && |p.levels| < MAX_DEPTH && !p.stuck
    requires call.todo != [] && WellFormed(Finished(p, out, call))
    ensures Step(Finished(p, out, call), table) ==
      ResumeCall(p, call.(expanded := call.expanded[call.todo[0] := out], todo := call.todo[1..]), table)
  {
    assert Finished(p, out, call).levels[..|p.levels|] == p.levels;
  }

  /** The same levels have the same macros switched off. */
  lemma BackToFinished(p: Config, b: Config, e: Config, out: seq<Token>, call: Call)
    requires Disabling(p) && Disabling(e) && |b.levels| == |p.levels| + 1
    requires b.levels == p.levels + [Temp(b.levels[|p.levels|].toks, [], call)]
    requires Kept(e, b, |p.levels|) && Over(e, |p.levels|) && !e.stuck && !p.stuck
    requires out == e.levels[|p.levels|].out
    ensures e == Finished(p, out, call)
  {
    var k := |p.levels|;
    assert forall i :: 0 <= i < k ==> e.levels[i] == b.levels[i] == p.levels[i];
    assert e.levels == p.levels + [Temp([], out, call)];
    assert MacrosOf(e.levels) == MacrosOf(p.levels);
  }

  /** The arguments named in todo have been expanded. */
  ghost predicate AllExpanded(p: Config, args: seq<seq<Token>>, todo: seq<nat>, expanded: map<nat, seq<Token>>,
                              table: Table)
  {
    forall j :: 0 <= j < |todo| ==>
        todo[j] in expanded && ExpandsTo(p, ArgumentOf(args, todo[j]), expanded[todo[j]], table)
  }

  lemma NothingToExpand(p: Config, args: seq<seq<Token>>, expanded: map<nat, seq<Token>>, table: Table)
    ensures AllExpanded(p, args, [], expanded, table)
  {
  }

  lemma FirstExpanded(p: Config, call: Call, out: seq<Token>, expanded: map<nat, seq<Token>>, table: Table)
    requires call.todo != [] && call.todo[0] !in call.todo[1..]
    requires ExpandsTo(p, ArgumentOf(call.args, call.todo[0]), out, table)
    ensures var before := call.expanded[call.todo[0] := out];
      AllExpanded(p, call.args, call.todo[1..], expanded, table) && KeepsOthers(before, call.todo[1..], expanded)
      ==> AllExpanded(p, call.args, call.todo, expanded, table) && KeepsOthers(call.expanded, call.todo, expanded)
  {
    hide ExpandsTo;
    var todo := call.todo;
    assert todo == [todo[0]] + todo[1..];
    if AllExpanded(p, call.args, todo[1..], expanded, table) &&
        KeepsOthers(call.expanded[todo[0] := out], todo[1..], expanded) {
      forall j | 0 <= j < |todo|
        ensures todo[j] in expanded && ExpandsTo(p, ArgumentOf(call.args, todo[j]), expanded[todo[j]], table)
      {
        if j > 0 { assert todo[j] == todo[1..][j - 1]; }
      }
    }
  }

  ghost predicate KeepsOthers(before: map<nat, seq<Token>>, todo: seq<nat>, after: map<nat, seq<Token>>)
  {
    forall i :: i in before && i !in todo ==> i in after && after[i] == before[i]
  }

  ghost predicate SomeFails(p: Config, args: seq<seq<Token>>, todo: seq<nat>, table: Table)
  {
    exists j :: 0 <= j < |todo| && Fails(p, ArgumentOf(args, todo[j]), table)
  }

  lemma LaterFails(p: Config, args: seq<seq<Token>>, todo: seq<nat>, table: Table)
    requires todo != [] && SomeFails(p, args, todo[1..], table)
    ensures SomeFails(p, args, todo, table)
  {
    var j :| 0 <= j < |todo[1..]| && Fails(p, ArgumentOf(args, todo[1..][j]), table);
    assert todo[j + 1] == todo[1..][j];
  }

  lemma ResumeGoesOn(p: Config, call: Call, table: Table)
    requires WellFormed(p) && |p.levels| < MAX_DEPTH
    ensures ResumeCall(p, call, table).stuck == p.stuck
  {
  }

  lemma {:induction false} ExpandsAll(p: Config, call: Call, table: Table)
      returns (n: nat, expanded: map<nat, seq<Token>>)
    requires WellFormed(p) && |p.levels| < MAX_DEPTH && !p.stuck && Disabling(p) && call.m !in p.disabled
    requires forall i, j :: 0 <= i < j < |call.todo| ==> call.todo[i] != call.todo[j]
    ensures var e := Run(ResumeCall(p, call, table), table, n);
      if e.stuck then SomeFails(p, call.args, call.todo, table)
      else
        && e == ResumeCall(p, call.(expanded := expanded, todo := []), table)
        && AllExpanded(p, call.args, call.todo, expanded, table)
        && KeepsOthers(call.expanded, call.todo, expanded)
    decreases |call.todo|
  {
    hide Run, ResumeCall, ExpandsTo, Fails, Disabling, AllExpanded;
    n, expanded := 0, call.expanded;
    if call.todo != [] {
      var k, out := ExpandsNext(p, call, table);
      n := k;
      assert Fails(p, ArgumentOf(call.args, call.todo[0]), table) ==> SomeFails(p, call.args, call.todo, table);
      if !Run(ResumeCall(p, call, table), table, k).stuck {
        var next := call.(expanded := call.expanded[call.todo[0] := out], todo := call.todo[1..]);
        var m;
        m, expanded := ExpandsAll(p, next, table);
        RunsCompose(ResumeCall(p, call, table), table, k, m);
        n := k + m;
        if Run(ResumeCall(p, next, table), table, m).stuck { LaterFails(p, call.args, call.todo, table); }
        FirstExpanded(p, call, out, expanded, table);
      }
    } else {
      RunNothing(ResumeCall(p, call, table), table);
      ResumeGoesOn(p, call, table);
      NothingToExpand(p, call.args, expanded, table);
    }
  }

  lemma {:induction false} UsesAll(body: seq<BodyToken>)
    ensures forall i :: i in Uses(body) <==> Param(i) in body
    ensures forall i, j :: 0 <= i < j < |Uses(body)| ==> Uses(body)[i] != Uses(body)[j]
  {
    if body != [] {
      var front := body[..|body| - 1];
      UsesAll(front);
      assert body == front + [body[|body| - 1]];
    }
  }

  lemma AfterParenthesis(call: seq<Token>, rest: seq<Token>)
    ensures ([LParen] + call + rest)[1..] == call + rest
  {
  }

  /** The call goes on with the arguments of its text. */
  lemma CallCollects(c: Config, m: string, table: Table, args: seq<seq<Token>>, rest: seq<Token>) returns (d: Config)
    requires WellFormed(c) && |c.levels| < MAX_DEPTH && !c.stuck && Disabling(c) && m in table && m !in c.disabled
    requires args != [] && AllClosed(args) && Top(c).toks != [] && Top(c).toks[0] == LParen
    requires Text(c) == [LParen] + CallText(args) + rest
    ensures WellFormed(d) && |d.levels| < MAX_DEPTH && !d.stuck && Disabling(d) && m !in d.disabled && Text(d) == rest
    ensures ExpandCall(c, m, table[m].body, table) == ResumeCall(d, Call(m, args, map[], Uses(table[m].body)), table)
  {
    hide Disabling, ResumeCall, Closed, AllClosed, CallText;
    TextConsumed(c);
    AfterParenthesis(CallText(args), rest);
    ConsumeKeepsDisabling(c);
    CollectKeepsDisabling(Consume(c), 0, [], []);
    d := CollectsArguments(Consume(c), [], args, rest);
    assert [] + args == args;
    StillRunning(Consume(c), 0, [], []);
  }

  /** A call whose text is there is replaced, if and only if none of the arguments that its body uses
      fails: the arguments are those of the text, what follows the call is left, the macro is switched
      off, and the body is pushed with every parameter in it replaced by the expansion of its
      argument, where an argument that is missing counts as empty: text has every token of the body
      and every expansion at its place. */
  lemma CallIsReplaced(c: Config, m: string, table: Table, args: seq<seq<Token>>, rest: seq<Token>)
      returns (n: nat, d: Config, expanded: map<nat, seq<Token>>, text: seq<Token>)
    requires WellFormed(c) && |c.levels| < MAX_DEPTH && !c.stuck && Disabling(c) && m in table && m !in c.disabled
    requires args != [] && AllClosed(args) && Top(c).toks != [] && Top(c).toks[0] == LParen
    requires Text(c) == [LParen] + CallText(args) + rest
    ensures WellFormed(d) && |d.levels| < MAX_DEPTH && Text(d) == rest
    ensures Stands(text, table[m].body, expanded)
    ensures var e := Run(ExpandCall(c, m, table[m].body, table), table, n);
      if exists i :: Param(i) in table[m].body && Fails(d, ArgumentOf(args, i), table) then e.stuck
      else
        && e == PushMacro(d, m, text)
        && forall i :: Param(i) in table[m].body ==>
            i in expanded && ExpandsTo(d, ArgumentOf(args, i), expanded[i], table)
  {
    hide Disabling, Fails, ExpandsTo, ExpandCall, Run, Uses, Closed, Text, CallText, Substitute, Stands;
    var body := table[m].body;
    d := CallCollects(c, m, table, args, rest);
    UsesAll(body);
    n, expanded := ExpandsAll(d, Call(m, args, map[], Uses(body)), table);
    UsedArguments(d, args, body, expanded, table);
    text := Substitute(body, expanded);
    SubstituteStands(body, expanded);
  }

  /** What holds of the uses of a body holds of its parameters. */
  lemma UsedArguments(d: Config, args: seq<seq<Token>>, body: seq<BodyToken>, expanded: map<nat, seq<Token>>,
                      table: Table)
    requires WellFormed(d) && !d.stuck
    ensures SomeFails(d, args, Uses(body), table) ==> exists i ::
        Param(i) in body && Fails(d, ArgumentOf(args, i), table)
    ensures AllExpanded(d, args, Uses(body), expanded, table) ==>
      forall i :: Param(i) in body ==>
        i in expanded && ExpandsTo(d, ArgumentOf(args, i), expanded[i], table) && !Fails(d, ArgumentOf(args, i), table)
  {
    hide ExpandsTo, Fails, Uses;
    var todo := Uses(body);
    UsesAll(body);
    if SomeFails(d, args, todo, table) {
      var j :| 0 <= j < |todo| && Fails(d, ArgumentOf(args, todo[j]), table);
      assert Param(todo[j]) in body;
    }
    if AllExpanded(d, args, todo, expanded, table) {
      forall i | Param(i) in body
        ensures i in expanded && ExpandsTo(d, ArgumentOf(args, i), expanded[i], table)
        ensures !Fails(d, ArgumentOf(args, i), table)
      {
        var j :| 0 <= j < |todo| && todo[j] == i;
        ExpandsOrFails(d, ArgumentOf(args, i), expanded[i], table);
      }
    }
  }

  lemma {:induction false} StillRunning(c: Config, paren: nat, args: seq<seq<Token>>, arg: seq<Token>)
    requires WellFormed(c)
    ensures var r := CollectArgs(c, paren, args, arg); r.Some? ==> r.value.0.stuck == c.stuck
    decreases |c.levels|, |Top(c).toks|
  {
    var top := Top(c);
    if top.toks == [] {
      if top.Macro? { StillRunning(PopMacro(c), paren, args, arg); }
    } else {
      var t, d := top.toks[0], Consume(c);
      if paren == 0 && t == RParen {
      } else if paren == 0 && t == Comma {
        StillRunning(d, 0, args + [arg], []);
      } else {
        StillRunning(d, if t == LParen then paren + 1 else if t == RParen then paren - 1 else paren, args, arg + [t]);
      }
    }
  }

  // ---------------------------------------------------------------------------------------
  // A name without a call

  /** What has been written to the buffer that collects the output. */
  function Out(c: Config): seq<Token>
    requires WellFormed(c)
  {
    c.levels[Buffer(c.levels, |c.levels|)].out
  }

  predicate CallFollows(c: Config)
    requires WellFormed(c)
  {
    Text(c) != [] && Text(c)[0] == LParen
  }

  /** Looking for a parenthesis passes no token and writes none. */
  lemma {:induction false} SearchKeeps(c: Config)
    requires WellFormed(c)
    ensures var d := LeaveExhausted(c);
            && Text(d) == Text(c) && Out(d) == Out(c)
            && (Top(d).toks != [] && Top(d).toks[0] == LParen <==> CallFollows(c))
    decreases |c.levels|
  {
    if Top(c).Macro? && Top(c).toks == [] {
      var p := PopMacro(c);
      SearchKeeps(p);
      SameBuffer(c.levels, p.levels);
      assert Top(c).toks + Text(p) == Text(p);
    }
  }

  lemma {:induction false} SameBuffer(a: seq<Level>, b: seq<Level>)
    requires |b| > 0 && |a| == |b| + 1 && a[..|b|] == b && a[|b|].Macro? && !b[0].Macro?
    ensures Buffer(a, |a|) == Buffer(b, |b|)
  {
    BufferOfFront(a, b, |b|);
  }

  lemma {:induction false} BufferOfFront(a: seq<Level>, b: seq<Level>, n: nat)
    requires 0 < n <= |b| <= |a| && a[..|b|] == b && !b[0].Macro?
    ensures Buffer(a, n) == Buffer(b, n)
    decreases n
  {
    assert a[n - 1] == b[n - 1];
    if b[n - 1].Macro? { BufferOfFront(a, b, n - 1); }
  }

  lemma WritesBelow(c: Config, t: Token)
    requires WellFormed(c) && Top(c).Macro?
    ensures Top(Emit(c, t)) == Top(c) && PopMacro(Emit(c, t)).levels == Emit(PopMacro(c), t).levels
  {
    SameBuffer(c.levels, PopMacro(c).levels);
  }

  lemma WritesToTop(c: Config, t: Token)
    requires WellFormed(c) && !Top(c).Macro?
    ensures Top(Emit(c, t)).toks == Top(c).toks && !Top(Emit(c, t)).Macro?
  {
  }

  /** Writing takes nothing from the text. */
  lemma {:induction false} WritingKeepsText(c: Config, t: Token)
    requires WellFormed(c)
    ensures Text(Emit(c, t)) == Text(c)
    decreases |c.levels|
  {
    hide Emit;
    if Top(c).Macro? {
      WritesBelow(c, t);
      WritingKeepsText(PopMacro(c), t);
      TextOfLevels(PopMacro(Emit(c, t)), Emit(PopMacro(c), t));
    } else {
      WritesToTop(c, t);
    }
  }

  lemma WritesOut(c: Config, name: string)
    requires WellFormed(c)
    ensures Out(Emit(c, Ident(name, false))) == Out(c) + [Ident(name, false)]
  {
    var d := Emit(c, Ident(name, false));
    SameKinds(c.levels, d.levels, |c.levels|);
  }

  lemma {:induction false} SameKinds(a: seq<Level>, b: seq<Level>, n: nat)
    requires 0 < n <= |a| == |b| && !a[0].Macro? && !b[0].Macro?
    requires forall i :: 0 <= i < n ==> a[i].Macro? == b[i].Macro?
    ensures Buffer(a, n) == Buffer(b, n)
  {
    if a[n - 1].Macro? { SameKinds(a, b, n - 1); }
  }

  lemma {:induction false} TextOfLevels(a: Config, b: Config)
    requires WellFormed(a) && WellFormed(b) && a.levels == b.levels
    ensures Text(a) == Text(b)
    decreases |a.levels|
  {
    if Top(a).Macro? { TextOfLevels(PopMacro(a), PopMacro(b)); }
  }

  /** The name of a macro with arguments is written as it is, and nothing else is read, if no
      parenthesis follows it, on its own level or below levels that have been read to their end. */
  lemma NameWithoutCall(c: Config, name: string, table: Table)
    requires WellFormed(c) && name in table && table[name].nargs >= 0 && name !in c.disabled && !CallFollows(c)
    ensures var d := Use(c, Ident(name, false), table);
            Text(d) == Text(c) && Out(d) == Out(c) + [Ident(name, false)]
  {
    hide LeaveExhausted, Text, Out, Emit;
    SearchKeeps(c);
    WritingKeepsText(LeaveExhausted(c), Ident(name, false));
    WritesOut(LeaveExhausted(c), name);
  }
}

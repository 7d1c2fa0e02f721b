/** rescan, macroexpand, macarg and expand_to_temp_buffer of cpp/cccp.c over the global input
    stack, proved against the steps of MacroEngine. */
module MacroImpl {
  import opened MacroArguments
  import opened MacroEngine
  import opened MacroMeaning
  import opened MacroTermination
  import opened Wrappers

  class Preprocessor {
    const table: Table
    var instack: seq<Level>
    var disabled: set<string>
    var stuck: bool

    constructor (table: Table, toks: seq<Token>)
      ensures this.table == table && Abs() == Start(toks)
    {
      this.table, instack, disabled, stuck := table, [File(toks, [])], {}, false;
    }

    ghost function Abs(): Config
      reads this
    {
      Config(instack, disabled, stuck)
    }

    /** POPMACRO: the macro is enabled again. */
    method Pop()
      requires WellFormed(Abs()) && Top(Abs()).Macro?
      modifies this`instack, this`disabled
      ensures Abs() == PopMacro(old(Abs()))
    {
      var m := instack[|instack| - 1].m;
      disabled := disabled - {m};
      instack := instack[..|instack| - 1];
    }

    /** ++ip->bufp */
    method Advance() returns (t: Token)
      requires WellFormed(Abs()) && Top(Abs()).toks != []
      modifies this`instack
      ensures Abs() == Consume(old(Abs())) && t == old(Top(Abs()).toks[0])
    {
      var top := instack[|instack| - 1];
      t := top.toks[0];
      instack := instack[|instack| - 1 := top.(toks := top.toks[1..])];
    }

    /** Output goes to level op, the topmost that is no macro; markers stay only in a temporary
        buffer. */
    method Output(t: Token, op: nat)
      requires WellFormed(Abs()) && op == Buffer(instack, |instack|)
      modifies this`instack
      ensures Abs() == Emit(old(Abs()), t)
    {
      var l := instack[op];
      var marked := if t.Ident? && !l.Temp? then Ident(t.name, false) else t;
      instack := instack[op := l.(out := l.out + [marked])];
    }

    /** Look for an opening parenthesis, leaving exhausted macro levels. */
    method SkipExhausted()
      requires WellFormed(Abs())
      modifies this`instack, this`disabled
      ensures Abs() == LeaveExhausted(old(Abs()))
    {
      while instack[|instack| - 1].Macro? && instack[|instack| - 1].toks == []
        invariant WellFormed(Abs()) && LeaveExhausted(Abs()) == LeaveExhausted(old(Abs()))
        decreases |instack|
      {
        Pop();
      }
    }

    /** Collect the arguments after the opening parenthesis: one token at a time, going down to
        lower levels where macro levels end. */
    method CollectArguments() returns (ok: bool, args: seq<seq<Token>>)
      requires WellFormed(Abs())
      modifies this`instack, this`disabled
      ensures ok <==> CollectArgs(old(Abs()), 0, [], []).Some?
      ensures ok ==> CollectArgs(old(Abs()), 0, [], []) == Some((Abs(), args))
    {
      var paren: nat := 0;
      var arg := [];
      args := [];
      while true
        invariant WellFormed(Abs()) && CollectArgs(Abs(), paren, args, arg) == CollectArgs(old(Abs()), 0, [], [])
        decreases |instack|, |Top(Abs()).toks|
      {
        if instack[|instack| - 1].toks == [] {
          if !instack[|instack| - 1].Macro? { return false, args; }  // unterminated macro call
          Pop();
        } else {
          var t := Advance();
          if paren == 0 && t == RParen {
            args := args + [arg];
            return true, args;
          } else if paren == 0 && t == Comma {
            args, arg := args + [arg], [];
          } else {
            if t == LParen { paren := paren + 1; } else if t == RParen { paren := paren - 1; }
            arg := arg + [t];
          }
        }
      }
    }

    /** Put the expansion of a macro on the input stack and switch the macro off. */
    method Push(m: string, text: seq<Token>)
      requires WellFormed(Abs()) && |instack| < MAX_DEPTH
      modifies this`instack, this`disabled
      ensures Abs() == PushMacro(old(Abs()), m, text)
    {
      instack := instack + [Macro(text, m)];
      disabled := disabled + {m};
    }

    /** expand_to_temp_buffer: a level of its own for an argument, which is read to its end and
        taken off the stack again. The ghost call says on whose behalf. */
    method ExpandToTempBuffer(arg: seq<Token>, call: Call, ghost m: nat)
        returns (out: seq<Token>, ghost rest: nat, ghost k: nat)
      requires WellFormed(Abs()) && !stuck && |instack| < MAX_DEPTH && call.todo != []
      requires var c := Buffered(Abs(), arg, call); WellFormed(c) && Halted(Run(c, table, m))
      modifies this
      ensures rest <= m
      ensures stuck ==> Run(Buffered(old(Abs()), arg, call), table, k).stuck
      ensures !stuck ==>
        && Abs() == old(Abs()).(disabled := disabled) && rest < m
        && var e := Finished(Abs(), out, call);
           Run(Buffered(old(Abs()), arg, call), table, k) == e && WellFormed(e) && !Halted(e) &&
               Halted(Run(e, table, rest + 1))
      decreases m, 2
    {
      hide Run, Step;
      ghost var a := Abs();
      var odepth := |instack|;
      instack := instack + [Temp(arg, [], call)];
      rest, k := Rescan(odepth, m);
      if stuck { return [], rest, k; }
      out := instack[odepth].out;
      ghost var e := Abs();
      assert instack == a.levels + [Temp([], out, call)];
      RunNothing(e, table);
      rest := rest - 1;
      instack := instack[..odepth];
      assert e == Finished(Abs(), out, call);
    }

    /** macroexpand for a macro with arguments, whose opening parenthesis is next. */
    method ExpandArguments(m: string, op: nat, ghost fuel: nat) returns (ghost rest: nat, ghost k: nat)
      requires WellFormed(Abs()) && !stuck && Top(Abs()).toks != []
      requires m in table && op < |instack| && !instack[op].Macro?
      requires Halted(Run(ExpandCall(Abs(), m, table[m].body, table), table, fuel))
      modifies this
      ensures rest <= fuel
      ensures stuck ==> Run(ExpandCall(old(Abs()), m, table[m].body, table), table, k).stuck
      ensures !stuck ==>
        && WellFormed(Abs()) && Abs() == Run(ExpandCall(old(Abs()), m, table[m].body, table), table, k)
        && Halted(Run(Abs(), table, rest)) && Expanded(Abs(), old(Abs()), op)
      decreases fuel, 4
    {
      hide Run, Step, Use, CollectArgs, Halted, Substitute, Uses;
      ghost var c := Abs();
      var body := table[m].body;
      rest, k := fuel, 0;
      RunNothing(ExpandCall(c, m, body, table), table);
      if |instack| >= MAX_DEPTH { return; }  // recursion too deep
      var _ := Advance();
      ghost var b := Abs();
      var ok, args := CollectArguments();
      if !ok {
        stuck := true;
        return;
      }
      CollectUnder(b, op, 0, [], []);
      ghost var p := Abs();
      var call;
      call, rest, k := ExpandUses(Call(m, args, map[], Uses(body)), fuel);
      if stuck { return; }
      Push(m, Substitute(body, call.expanded));
      PushedExpanded(Abs(), p, c, op);
    }

    /** Expand the arguments that the body uses, each once. */
    method ExpandUses(call0: Call, ghost m: nat) returns (call: Call, ghost rest: nat, ghost k: nat)
      requires WellFormed(Abs()) && !stuck && |instack| < MAX_DEPTH
      requires Halted(Run(ResumeCall(Abs(), call0, table), table, m))
      modifies this
      ensures rest <= m
      ensures stuck ==> Run(ResumeCall(old(Abs()), call0, table), table, k).stuck
      ensures !stuck ==>
        && WellFormed(Abs()) && Abs() == old(Abs()).(disabled := disabled) && call.todo == [] && call.m == call0.m
        && ResumeCall(Abs(), call, table) == Run(ResumeCall(old(Abs()), call0, table), table, k)
        && Halted(Run(ResumeCall(Abs(), call, table), table, rest))
      decreases m, 3
    {
      hide Run, Step, Halted;
      ghost var p := Abs();
      ghost var start := ResumeCall(p, call0, table);
      call, rest, k := call0, m, 0;
      RunNothing(start, table);
      while call.todo != []
        invariant WellFormed(Abs()) && !stuck && Abs() == p.(disabled := disabled) && call.m == call0.m && rest <= m
        invariant ResumeCall(Abs(), call, table) == Run(start, table, k)
        invariant Halted(Run(ResumeCall(Abs(), call, table), table, rest))
        decreases |call.todo|
      {
        var use := call.todo[0];
        var arg := if use < |call.args| then call.args[use] else [];
        ghost var k0 := k;
        var out;
        ghost var j;
        out, rest, j := ExpandToTempBuffer(arg, call, rest);
        RunsCompose(start, table, k0, j);
        k := k0 + j;
        if stuck { return; }
        FinishedStep(Abs(), out, call, table, rest);
        RunOne(start, table, k);
        k := k + 1;
        call := call.(expanded := call.expanded[use := out], todo := call.todo[1..]);
      }
    }

    /** Preprocess a text. The run ends for every text and every table; unless a macro call is
        unterminated, all of the text is read and every macro is enabled again. Without macros
        that take arguments the output is the replacement of the text. */
    method RescanFile(ghost toks: seq<Token>) returns (out: seq<Token>, ghost k: nat)
      requires Abs() == Start(toks)
      modifies this
      ensures stuck <==> Run(Start(toks), table, k).stuck
      ensures !stuck ==>
        Abs() == Run(Start(toks), table, k) && Halted(Abs()) && disabled == {} && instack == [File([], out)]
      ensures ObjectLike(table) ==> !stuck && out == MarkedAll(File(toks, []), Replace(toks, {}, 1, table))
    {
      ghost var c := Abs();
      RescanEnds(c, table);
      ghost var m: nat :| Halted(Run(c, table, m));
      ghost var rest;
      rest, k := Rescan(0, m);
      out := [];
      if !stuck { out := instack[0].out; }
      RunKeepsDisabling(c, table, k);
      if ObjectLike(table) { OutputIsReplacement(toks, table, k); }
    }

    /** rescan: read level op, the top of the stack, to its end. rest and k say how far the run
        that ends after m steps has come. */
    method Rescan(op: nat, ghost m: nat) returns (ghost rest: nat, ghost k: nat)
      requires WellFormed(Abs()) && !stuck && op + 1 == |instack| && !instack[op].Macro? && Halted(Run(Abs(), table, m))
      modifies this
      ensures rest <= m
      ensures stuck ==> Run(old(Abs()), table, k).stuck
      ensures !stuck ==>
        && WellFormed(Abs()) && Abs() == Run(old(Abs()), table, k) && Halted(Run(Abs(), table, rest))
        && |instack| == op + 1 && instack[op].toks == [] && Frame(Abs(), old(Abs()), op)
      decreases m, 1
    {
      hide WellFormed, Frame;
      ghost var c := Abs();
      rest, k := m, 0;
      FrameOfTop(c, op);
      while !(|instack| == op + 1 && instack[op].toks == [])
        invariant WellFormed(Abs()) && !stuck && Abs() == Run(c, table, k) && Halted(Run(Abs(), table, rest))
        invariant Frame(Abs(), c, op) && op < |instack| && rest <= m
        decreases rest
      {
        ghost var d, k0 := Abs(), k;
        ghost var j;
        FrameSelf(d, c, op);
        rest, j := RescanOnce(op, rest);
        RunsCompose(c, table, k0, j);
        k := k0 + j;
        if stuck { return; }
        FrameTwice(Abs(), d, c, op);
        FrameBound(Abs(), c, op);
      }
    }

    /** One token, or the end of a macro level. */
    method RescanOnce(op: nat, ghost m: nat) returns (ghost rest: nat, ghost k: nat)
      requires WellFormed(Abs()) && !stuck && Frame(Abs(), Abs(), op) && Halted(Run(Abs(), table, m))
      requires !(|instack| == op + 1 && instack[op].toks == [])
      modifies this
      ensures rest < m
      ensures stuck ==> Run(old(Abs()), table, k).stuck
      ensures !stuck ==>
        && WellFormed(Abs()) && Abs() == Run(old(Abs()), table, k) && Halted(Run(Abs(), table, rest)) &&
            Frame(Abs(), old(Abs()), op)
      decreases m, 0
    {
      hide Use, Run;
      ghost var c := Abs();
      StepFuel(c, table, m);
      rest, k := m - 1, 1;
      if instack[|instack| - 1].toks == [] {
        Pop();
      } else {
        ConsumeFrame(c, op);
        var t := Advance();
        ghost var b := Abs();
        ghost var j;
        if t.Ident? && !t.painted && t.name in table && t.name !in disabled && table[t.name].nargs >= 0 {
          rest, j := RescanCall(t, op, rest);
          RunsCompose(c, table, 1, j);
          k := 1 + j;
          if stuck { return; }
        } else {
          RescanPlain(t, op);
        }
        FrameTwice(Abs(), b, c, op);
      }
    }

    /** A token that is copied, or replaced by the body of a macro without arguments. */
    method RescanPlain(t: Token, op: nat)
      requires WellFormed(Abs()) && Frame(Abs(), Abs(), op)
      requires !(t.Ident? && !t.painted && t.name in table && t.name !in disabled && table[t.name].nargs >= 0)
      modifies this
      ensures stuck == old(stuck) && Abs() == Use(old(Abs()), t, table) && Frame(Abs(), old(Abs()), op)
    {
      EmitFrame(Abs(), t, op);
      if !t.Ident? || t.painted || t.name !in table {
        Output(t, op);
      } else if t.name in disabled {
        EmitFrame(Abs(), Ident(t.name, true), op);
        Output(Ident(t.name, true), op);
      } else if |instack| < MAX_DEPTH {
        Push(t.name, Substitute(table[t.name].body, map[]));
      }
    }

    /** The name of a macro with arguments: a call if a parenthesis follows. */
    method RescanCall(t: Token, op: nat, ghost m: nat) returns (ghost rest: nat, ghost k: nat)
      requires WellFormed(Abs()) && !stuck && Frame(Abs(), Abs(), op)
      requires t.Ident? && !t.painted && t.name in table && t.name !in disabled && table[t.name].nargs >= 0
      requires Halted(Run(Use(Abs(), t, table), table, m))
      modifies this
      ensures rest <= m
      ensures stuck ==> Run(Use(old(Abs()), t, table), table, k).stuck
      ensures !stuck ==>
        && WellFormed(Abs()) && Abs() == Run(Use(old(Abs()), t, table), table, k)
        && Halted(Run(Abs(), table, rest)) && Frame(Abs(), old(Abs()), op)
      decreases m, 5
    {
      hide CollectArgs, Uses, Substitute, Halted;
      ghost var c := Abs();
      rest, k := m, 0;
      LeaveFrame(c, op);
      SkipExhausted();
      ghost var d := Abs();
      var top := instack[|instack| - 1];
      if top.toks != [] && top.toks[0] == LParen {
        rest, k := ExpandArguments(t.name, op, m);
        if stuck { return; }
        ExpandedFrame(Abs(), d, op);
      } else {
        EmitFrame(d, t, op);
        Output(t, op);
      }
      FrameTwice(Abs(), d, c, op);
    }
  }

  lemma FrameOfTop(c: Config, op: nat)
    requires op + 1 == |c.levels| && !c.levels[op].Macro?
    ensures Frame(c, c, op)
  {
  }

  lemma FrameSelf(d: Config, c: Config, op: nat)
    requires Frame(d, c, op)
    ensures Frame(d, d, op)
  {
  }

  lemma FrameBound(d: Config, c: Config, op: nat)
    requires Frame(d, c, op)
    ensures op < |d.levels|
  {
  }

  /** d has the lower levels of a; text may have been taken from the last of them. */
  ghost predicate Under(d: Config, a: Config)
  {
    && |d.levels| <= |a.levels|
    && (forall i :: 0 <= i < |d.levels| ==> d.levels[i] == a.levels[i].(toks := d.levels[i].toks))
    && forall i :: 0 <= i < |d.levels| - 1 ==> d.levels[i] == a.levels[i]
  }

  /** The lower levels of a down to level op at most, and on top of them the expansion of a macro,
      unless the stack was too deep. */
  ghost predicate Expanded(d: Config, a: Config, op: nat)
  {
    || d == a
    || (|d.levels| > op + 1 && Top(d).Macro? && Under(d.(levels := d.levels[..|d.levels| - 1]), a))
  }

  lemma UnderItself(c: Config)
    ensures Under(c, c)
  {
  }

  lemma UnderPopped(d: Config, c: Config)
    requires WellFormed(c) && Top(c).Macro?
    ensures Under(d, PopMacro(c)) ==> Under(d, c)
  {
  }

  lemma UnderConsumed(d: Config, c: Config)
    requires WellFormed(c) && Top(c).toks != []
    ensures Under(d, Consume(c)) ==> Under(d, c)
  {
  }

  lemma {:induction false} CollectUnder(c: Config, op: nat, paren: nat, args: seq<seq<Token>>, arg: seq<Token>)
    requires WellFormed(c) && op < |c.levels| && !c.levels[op].Macro?
    ensures var r := CollectArgs(c, paren, args, arg); r.Some? ==> Under(r.value.0, c) && |r.value.0.levels| > op
    decreases |c.levels|, |Top(c).toks|
  {
    hide Under;
    var top, r := Top(c), CollectArgs(c, paren, args, arg);
    if top.toks == [] {
      if top.Macro? {
        CollectUnder(PopMacro(c), op, paren, args, arg);
        if r.Some? { UnderPopped(r.value.0, c); }
      }
    } else {
      var t, d := top.toks[0], Consume(c);
      UnderItself(d);
      if r.Some? { UnderConsumed(r.value.0, c); }
      if paren == 0 && t == RParen {
      } else if paren == 0 && t == Comma {
        CollectUnder(d, op, 0, args + [arg], []);
      } else {
        var next := if t == LParen then paren + 1 else if t == RParen then paren - 1 else paren;
        CollectUnder(d, op, next, args, arg + [t]);
      }
    }
  }

  lemma {:induction false} LeaveUnder(c: Config, op: nat)
    requires WellFormed(c) && op < |c.levels| && !c.levels[op].Macro?
    ensures var d := LeaveExhausted(c); op < |d.levels| <= |c.levels| && d.levels == c.levels[..|d.levels|]
    decreases |c.levels|
  {
    if Top(c).Macro? && Top(c).toks == [] { LeaveUnder(PopMacro(c), op); }
  }

  /** What rescan keeps while it reads level op: the levels below, whose level it is, and only
      macro levels above. */
  ghost predicate Frame(d: Config, a: Config, op: nat)
  {
    && op < |d.levels| && op < |a.levels| && (forall i :: 0 <= i < op ==> d.levels[i] == a.levels[i])
    && !d.levels[op].Macro? && (a.levels[op].File? ==> d.levels[op].File?)
    && (a.levels[op].Temp? ==> d.levels[op].Temp? && d.levels[op].call == a.levels[op].call)
    && forall i :: op < i < |d.levels| ==> d.levels[i].Macro?
  }

  lemma FrameTwice(e: Config, d: Config, a: Config, op: nat)
    requires Frame(e, d, op) && Frame(d, a, op)
    ensures Frame(e, a, op)
  {
  }

  lemma {:induction false} BufferIs(levels: seq<Level>, op: nat, n: nat)
    requires op < n <= |levels| && !levels[0].Macro? && !levels[op].Macro?
    requires forall i :: op < i < n ==> levels[i].Macro?
    ensures Buffer(levels, n) == op
    decreases n
  {
    if n - 1 > op { BufferIs(levels, op, n - 1); }
  }

  lemma EmitFrame(c: Config, t: Token, op: nat)
    requires WellFormed(c) && Frame(c, c, op)
    ensures Buffer(c.levels, |c.levels|) == op && Frame(Emit(c, t), c, op)
  {
    BufferIs(c.levels, op, |c.levels|);
  }

  lemma LeaveFrame(c: Config, op: nat)
    requires WellFormed(c) && Frame(c, c, op)
    ensures Frame(LeaveExhausted(c), c, op) && Frame(LeaveExhausted(c), LeaveExhausted(c), op)
  {
    LeaveUnder(c, op);
    var d := LeaveExhausted(c);
    assert forall i :: 0 <= i < |d.levels| ==> d.levels[i] == c.levels[i];
  }

  lemma ExpandedFrame(d: Config, a: Config, op: nat)
    requires Expanded(d, a, op) && Frame(a, a, op)
    ensures Frame(d, a, op)
  {
    if d != a {
      var e := d.(levels := d.levels[..|d.levels| - 1]);
      assert forall i :: 0 <= i < |e.levels| ==> d.levels[i] == e.levels[i];
    }
  }

  lemma PushedExpanded(d: Config, p: Config, c: Config, op: nat)
    requires WellFormed(c) && Top(c).toks != [] && |p.levels| > op && Under(p, Consume(c))
    requires |d.levels| == |p.levels| + 1 && d.levels[..|p.levels|] == p.levels && Top(d).Macro?
    ensures Expanded(d, c, op)
  {
    var b := Consume(c);
    assert forall i :: 0 <= i < |c.levels| - 1 ==> b.levels[i] == c.levels[i];
  }

  lemma ConsumeFrame(c: Config, op: nat)
    requires WellFormed(c) && Frame(c, c, op) && Top(c).toks != []
    ensures Frame(Consume(c), c, op) && Frame(Consume(c), Consume(c), op)
  {
  }

  /** One step uses up fuel. */
  lemma StepFuel(c: Config, table: Table, m: nat)
    requires WellFormed(c) && !Halted(c) && Halted(Run(c, table, m))
    ensures m > 0 && Halted(Run(Step(c, table), table, m - 1)) && Run(c, table, 1) == Step(c, table)
  {
    RunOne(c, table, 0);
  }
}

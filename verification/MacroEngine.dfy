/** Macro expansion in cpp/cccp.c: the stack of input levels, macros that are switched off while a
    level reads their expansion, argument collection across levels, and the expansion of
    arguments in temporary buffers.

    The text is split into tokens. White space is dropped; the marker that keeps an identifier
    from being expanded again is the flag painted. The operators # and ## and variable arguments
    are not part of this module. */
module MacroEngine {
  import opened Wrappers

  /** INPUT_STACK_MAX. */
  const MAX_DEPTH := 400

  datatype Token = Ident(name: string, painted: bool) | LParen | RParen | Comma | Other(text: string)

  datatype BodyToken = Plain(t: Token) | Param(i: nat)

  /** nargs is negative for an object-like macro. */
  datatype Definition = Definition(nargs: int, body: seq<BodyToken>)

  type Table = map<string, Definition>

  /** A macro call whose arguments are being expanded: todo[0] is the one in progress. */
  datatype Call = Call(m: string, args: seq<seq<Token>>, expanded: map<nat, seq<Token>>, todo: seq<nat>)

  /** An input level: the text of a file, the expansion of a macro, or an argument in a temporary
      buffer, on behalf of a call. File and Temp levels collect output. */
  datatype Level =
    | File(toks: seq<Token>, out: seq<Token>)
    | Macro(toks: seq<Token>, m: string)
    | Temp(toks: seq<Token>, out: seq<Token>, call: Call)

  /** disabled are the macros of type T_DISABLED; stuck is set when a macro call is unterminated. */
  datatype Config = Config(levels: seq<Level>, disabled: set<string>, stuck: bool)

  /** Every run begins with the text of a file. */
  predicate WellFormed(c: Config)
  {
    && 0 < |c.levels| <= MAX_DEPTH && c.levels[0].File?
    && (forall i :: 0 < i < |c.levels| ==> !c.levels[i].File?)
    && (forall i :: 0 < i < |c.levels| && c.levels[i].Temp? ==> c.levels[i].call.todo != [])
  }

  function Top(c: Config): Level
    requires c.levels != []
  {
    c.levels[|c.levels| - 1]
  }

  /** POPMACRO. */
  function PopMacro(c: Config): (d: Config)
    requires WellFormed(c) && Top(c).Macro?
    ensures WellFormed(d)
  {
    c.(levels := c.levels[..|c.levels| - 1], disabled := c.disabled - {Top(c).m})
  }

  /** Take one token from the top level. */
  function Consume(c: Config): (d: Config)
    requires WellFormed(c) && Top(c).toks != []
    ensures WellFormed(d)
  {
    var top := Top(c);
    c.(levels := c.levels[|c.levels| - 1 := top.(toks := top.toks[1..])])
  }

  // ---------------------------------------------------------------------------------------
  // Output

  /** The level that collects the output: the topmost of the first n that is not a macro. */
  function Buffer(levels: seq<Level>, n: nat): (k: nat)
    requires 0 < n <= |levels| && !levels[0].Macro?
    ensures k < n && !levels[k].Macro?
    ensures forall i :: k < i < n ==> levels[i].Macro?
  {
    if levels[n - 1].Macro? then Buffer(levels, n - 1) else n - 1
  }

  /** Markers are kept only while an argument is being expanded. */
  function Marked(l: Level, t: Token): Token
  {
    if t.Ident? && !l.Temp? then Ident(t.name, false) else t
  }

  function Emit(c: Config, t: Token): (d: Config)
    requires WellFormed(c)
    ensures WellFormed(d)
  {
    var k := Buffer(c.levels, |c.levels|);
    var l := c.levels[k];
    c.(levels := c.levels[k := l.(out := l.out + [Marked(l, t)])])
  }

  // ---------------------------------------------------------------------------------------
  // Arguments

  /** Leave exhausted macro levels, as the search for an opening parenthesis does. */
  function LeaveExhausted(c: Config): (d: Config)
    requires WellFormed(c)
    ensures WellFormed(d)
    decreases |c.levels|
  {
    if Top(c).Macro? && Top(c).toks == [] then LeaveExhausted(PopMacro(c)) else c
  }

  /** macarg for all arguments, after the opening parenthesis: collect tokens up to the matching
      parenthesis, going down to lower levels as macro levels end. None if the text ends first. */
  function CollectArgs(c: Config, paren: nat, args: seq<seq<Token>>,
                       arg: seq<Token>): (r: Option<(Config, seq<seq<Token>>)>)
    requires WellFormed(c)
    ensures r.Some? ==> WellFormed(r.value.0) && |r.value.0.levels| <= |c.levels|
    decreases |c.levels|, |Top(c).toks|
  {
    var top := Top(c);
    if top.toks == [] then
      if top.Macro? then CollectArgs(PopMacro(c), paren, args, arg) else None
    else
      var t, d := top.toks[0], Consume(c);
      if paren == 0 && t == RParen then Some((d, args + [arg]))
      else if paren == 0 && t == Comma then CollectArgs(d, 0, args + [arg], [])
      else CollectArgs(d, if t == LParen then paren + 1 else if t == RParen then paren - 1 else paren, args, arg + [t])
  }

  // ---------------------------------------------------------------------------------------
  // Calls

  /** The parameters a body uses, in the order of first use. */
  function Uses(body: seq<BodyToken>): seq<nat>
  {
    if body == [] then []
    else
      var before, last := Uses(body[..|body| - 1]), body[|body| - 1];
      if last.Param? && last.i !in before then before + [last.i] else before
  }

  function Substitute(body: seq<BodyToken>, expanded: map<nat, seq<Token>>): seq<Token>
  {
    if body == [] then []
    else
      (match body[0]
       case Plain(t) => [t]
       case Param(i) => if i in expanded then expanded[i] else []) + Substitute(body[1..], expanded)
  }

  /** Put an expansion on the input stack and switch its macro off. */
  function PushMacro(c: Config, m: string, text: seq<Token>): (d: Config)
    requires WellFormed(c) && |c.levels| < MAX_DEPTH
    ensures WellFormed(d)
  {
    c.(levels := c.levels + [Macro(text, m)], disabled := c.disabled + {m})
  }

  /** Go on with a call: expand the next argument in a temporary buffer, or push the body. A
      parameter without an argument stands for nothing. */
  function ResumeCall(c: Config, call: Call, table: Table): (d: Config)
    requires WellFormed(c) && |c.levels| < MAX_DEPTH
    ensures WellFormed(d)
  {
    if call.todo == [] then
      PushMacro(c, call.m, if call.m in table then Substitute(table[call.m].body, call.expanded) else [])
    else
      var a := if call.todo[0] < |call.args| then call.args[call.todo[0]] else [];
      c.(levels := c.levels + [Temp(a, [], call)])
  }

  // ---------------------------------------------------------------------------------------
  // One step of rescan

  predicate Halted(c: Config)
    requires WellFormed(c)
  {
    c.stuck || (|c.levels| == 1 && c.levels[0].toks == [])
  }

  /** macroexpand for a macro that takes arguments; the top level begins with the parenthesis. */
  function ExpandCall(c: Config, m: string, body: seq<BodyToken>, table: Table): (d: Config)
    requires WellFormed(c) && Top(c).toks != []
    ensures WellFormed(d)
  {
    if |c.levels| >= MAX_DEPTH then c  // recursion too deep: the name is dropped
    else
      match CollectArgs(Consume(c), 0, [], [])
      case None => c.(stuck := true)
      case Some(p) => ResumeCall(p.0, Call(m, p.1, map[], Uses(body)), table)
  }

  /** The token t has been taken from the input. */
  function Use(c: Config, t: Token, table: Table): (d: Config)
    requires WellFormed(c)
    ensures WellFormed(d)
  {
    if !t.Ident? || t.painted || t.name !in table then Emit(c, t)
    else if t.name in c.disabled then Emit(c, Ident(t.name, true))
    else if table[t.name].nargs < 0 then
      if |c.levels| >= MAX_DEPTH then c else PushMacro(c, t.name, Substitute(table[t.name].body, map[]))
    else
      var d := LeaveExhausted(c);
      if Top(d).toks != [] && Top(d).toks[0] == LParen then ExpandCall(d, t.name, table[t.name].body, table)
      else Emit(d, t)
  }

  /** The end of a temporary buffer: its output is the expanded argument of the call. */
  function FinishTemp(c: Config, table: Table): (d: Config)
    requires WellFormed(c) && Top(c).Temp?
    ensures WellFormed(d)
  {
    var top := Top(c);
    var call := top.call;
    ResumeCall(c.(levels := c.levels[..|c.levels| - 1]),
               call.(expanded := call.expanded[call.todo[0] := top.out], todo := call.todo[1..]), table)
  }

  function Step(c: Config, table: Table): (d: Config)
    requires WellFormed(c)
    ensures WellFormed(d)
  {
    var top := Top(c);
    if Halted(c) then c
    else if top.toks != [] then Use(Consume(c), top.toks[0], table)
    else if top.Macro? then PopMacro(c)
    else FinishTemp(c, table)
  }

  function Run(c: Config, table: Table, n: nat): (d: Config)
    requires WellFormed(c)
    ensures WellFormed(d)
    decreases n
  {
    if n == 0 then c else Run(Step(c, table), table, n - 1)
  }

  lemma {:induction false} RunsCompose(c: Config, table: Table, m: nat, n: nat)
    requires WellFormed(c)
    ensures Run(c, table, m + n) == Run(Run(c, table, m), table, n)
    decreases m
  {
    if m > 0 { RunsCompose(Step(c, table), table, m - 1, n); }
  }

  lemma RunOne(c: Config, table: Table, n: nat)
    requires WellFormed(c)
    ensures Run(c, table, n + 1) == Run(Step(c, table), table, n) == Step(Run(c, table, n), table)
  {
    RunsCompose(c, table, n, 1);
    assert Run(Run(c, table, n), table, 1) == Run(Step(Run(c, table, n), table), table, 0);
  }

  // ---------------------------------------------------------------------------------------
  // A macro is off exactly while one level reads its expansion

  /** The macro whose call made this level. */
  function Owner(l: Level): string
    requires !l.File?
  {
    if l.Macro? then l.m else l.call.m
  }

  function MacrosOf(levels: seq<Level>): set<string>
  {
    set i | 0 <= i < |levels| && levels[i].Macro? :: levels[i].m
  }

  /** No call is made to a macro that a lower level is reading. */
  predicate Separate(levels: seq<Level>)
  {
    forall i, j :: 0 <= i < j < |levels| && levels[i].Macro? && !levels[j].File? ==> levels[i].m != Owner(levels[j])
  }

  predicate Disabling(c: Config)
  {
    c.disabled == MacrosOf(c.levels) && Separate(c.levels)
  }

  lemma PopKeepsDisabling(c: Config)
    requires WellFormed(c) && Top(c).Macro? && Disabling(c)
    ensures Disabling(PopMacro(c))
  {
    var d, n := PopMacro(c), |c.levels| - 1;
    forall m | m in d.disabled ensures m in MacrosOf(d.levels) {
      var i :| 0 <= i < |c.levels| && c.levels[i].Macro? && c.levels[i].m == m;
      assert d.levels[i] == c.levels[i];
    }
    forall m | m in MacrosOf(d.levels) ensures m in d.disabled {
      var i :| 0 <= i < |d.levels| && d.levels[i].Macro? && d.levels[i].m == m;
      assert c.levels[i] == d.levels[i] && Owner(c.levels[n]) == c.levels[n].m;
    }
  }

  /** Reading from a level and writing to one do not change whose it is. */
  lemma UpdateKeepsDisabling(c: Config, k: nat, l: Level)
    requires k < |c.levels| && Disabling(c)
    requires l.File? == c.levels[k].File? && l.Macro? == c.levels[k].Macro?
    requires !l.File? ==> Owner(l) == Owner(c.levels[k])
    ensures Disabling(c.(levels := c.levels[k := l]))
  {
    var levels := c.levels[k := l];
    forall m | m in c.disabled ensures m in MacrosOf(levels) {
      var i :| 0 <= i < |c.levels| && c.levels[i].Macro? && c.levels[i].m == m;
      assert levels[i].Macro? && levels[i].m == m;
    }
  }

  lemma {:induction false} LeaveKeepsDisabling(c: Config)
    requires WellFormed(c) && Disabling(c)
    ensures Disabling(LeaveExhausted(c))
    decreases |c.levels|
  {
    if Top(c).Macro? && Top(c).toks == [] {
      PopKeepsDisabling(c);
      LeaveKeepsDisabling(PopMacro(c));
    }
  }

  lemma ConsumeKeepsDisabling(c: Config)
    requires WellFormed(c) && Top(c).toks != [] && Disabling(c)
    ensures Disabling(Consume(c))
  {
    UpdateKeepsDisabling(c, |c.levels| - 1, Top(c).(toks := Top(c).toks[1..]));
  }

  lemma {:induction false} CollectKeepsDisabling(c: Config, paren: nat, args: seq<seq<Token>>, arg: seq<Token>)
    requires WellFormed(c) && Disabling(c)
    ensures var r := CollectArgs(c, paren, args, arg);
      r.Some? ==> Disabling(r.value.0) && r.value.0.disabled <= c.disabled
    decreases |c.levels|, |Top(c).toks|
  {
    var top := Top(c);
    if top.toks == [] {
      if top.Macro? {
        PopKeepsDisabling(c);
        CollectKeepsDisabling(PopMacro(c), paren, args, arg);
      }
    } else {
      var t, d := top.toks[0], Consume(c);
      ConsumeKeepsDisabling(c);
      if paren == 0 && t == RParen {
      } else if paren == 0 && t == Comma {
        CollectKeepsDisabling(d, 0, args + [arg], []);
      } else {
        var next := if t == LParen then paren + 1 else if t == RParen then paren - 1 else paren;
        CollectKeepsDisabling(d, next, args, arg + [t]);
      }
    }
  }

  lemma AddKeepsDisabling(c: Config, l: Level)
    requires Disabling(c) && !l.File? && Owner(l) !in c.disabled
    ensures Disabling(Config(c.levels + [l], if l.Macro? then c.disabled + {l.m} else c.disabled, c.stuck))
  {
    var levels := c.levels + [l];
    forall m | m in c.disabled ensures m in MacrosOf(levels) {
      var i :| 0 <= i < |c.levels| && c.levels[i].Macro? && c.levels[i].m == m;
      assert levels[i] == c.levels[i];
    }
    assert levels[|c.levels|] == l;
    forall i | 0 <= i < |c.levels| && c.levels[i].Macro? ensures c.levels[i].m != Owner(l) {
      assert c.levels[i].m in MacrosOf(c.levels);
    }
  }

  lemma ResumeKeepsDisabling(c: Config, call: Call, table: Table)
    requires WellFormed(c) && |c.levels| < MAX_DEPTH && Disabling(c) && call.m !in c.disabled
    ensures Disabling(ResumeCall(c, call, table))
  {
    var d := ResumeCall(c, call, table);
    AddKeepsDisabling(c, d.levels[|c.levels|]);
  }

  lemma FinishKeepsDisabling(c: Config, table: Table)
    requires WellFormed(c) && Top(c).Temp? && Disabling(c)
    ensures Disabling(FinishTemp(c, table))
  {
    var n := |c.levels| - 1;
    var d := c.(levels := c.levels[..n]);
    forall m | m in c.disabled ensures m in MacrosOf(d.levels) && m != Owner(c.levels[n]) {
      var i :| 0 <= i < |c.levels| && c.levels[i].Macro? && c.levels[i].m == m;
      assert d.levels[i] == c.levels[i];
    }
    assert Disabling(d);
    var call := Top(c).call;
    ResumeKeepsDisabling(d, call.(expanded := call.expanded[call.todo[0] := Top(c).out], todo := call.todo[1..]),
        table);
  }

  lemma {:induction false} UseKeepsDisabling(c: Config, t: Token, table: Table)
    requires WellFormed(c) && Disabling(c)
    ensures Disabling(Use(c, t, table))
  {
    EmitKeepsDisabling(c, t);
    if t.Ident? {
      EmitKeepsDisabling(c, Ident(t.name, true));
      if !t.painted && t.name in table && t.name !in c.disabled {
        if table[t.name].nargs < 0 {
          AddKeepsDisabling(c, Macro(Substitute(table[t.name].body, map[]), t.name));
        } else {
          var d := LeaveExhausted(c);
          LeaveKeepsDisabling(c);
          LeaveShrinks(c);
          EmitKeepsDisabling(d, t);
          if Top(d).toks != [] {
            ConsumeKeepsDisabling(d);
            CollectKeepsDisabling(Consume(d), 0, [], []);
            if |d.levels| < MAX_DEPTH && CollectArgs(Consume(d), 0, [], []).Some? {
              var p := CollectArgs(Consume(d), 0, [], []).value;
              ResumeKeepsDisabling(p.0, Call(t.name, p.1, map[], Uses(table[t.name].body)), table);
            }
          }
        }
      }
    }
  }

  lemma EmitKeepsDisabling(c: Config, t: Token)
    requires WellFormed(c) && Disabling(c)
    ensures Disabling(Emit(c, t))
  {
    var k := Buffer(c.levels, |c.levels|);
    UpdateKeepsDisabling(c, k, c.levels[k].(out := c.levels[k].out + [Marked(c.levels[k], t)]));
  }

  lemma {:induction false} LeaveShrinks(c: Config)
    requires WellFormed(c)
    ensures LeaveExhausted(c).disabled <= c.disabled
    decreases |c.levels|
  {
    if Top(c).Macro? && Top(c).toks == [] { LeaveShrinks(PopMacro(c)); }
  }

  lemma StepKeepsDisabling(c: Config, table: Table)
    requires WellFormed(c) && Disabling(c)
    ensures Disabling(Step(c, table))
  {
    if !Halted(c) {
      if Top(c).toks != [] {
        ConsumeKeepsDisabling(c);
        UseKeepsDisabling(Consume(c), Top(c).toks[0], table);
      } else if Top(c).Macro? {
        PopKeepsDisabling(c);
      } else {
        FinishKeepsDisabling(c, table);
      }
    }
  }

  lemma {:induction false} RunKeepsDisabling(c: Config, table: Table, n: nat)
    requires WellFormed(c) && Disabling(c)
    ensures Disabling(Run(c, table, n))
    decreases n
  {
    if n > 0 {
      StepKeepsDisabling(c, table);
      RunKeepsDisabling(Step(c, table), table, n - 1);
    }
  }

  /** The start of a file: nothing is switched off. */
  function Start(toks: seq<Token>): (c: Config)
    ensures WellFormed(c) && Disabling(c)
  {
    Config([File(toks, [])], {}, false)
  }

  predicate Reads(c: Config, i: int, m: string)
  {
    0 <= i < |c.levels| && c.levels[i].Macro? && c.levels[i].m == m
  }

  /** In every run a macro is T_DISABLED exactly while some input level reads its expansion, and
      then only one does. */
  lemma DisabledExactlyOnOneLevel(toks: seq<Token>, table: Table, n: nat, m: string)
    ensures var c := Run(Start(toks), table, n);
      && (m in c.disabled <==> exists i :: Reads(c, i, m))
      && (forall i, j :: Reads(c, i, m) && Reads(c, j, m) ==> i == j)
  {
    var c := Run(Start(toks), table, n);
    RunKeepsDisabling(Start(toks), table, n);
    if m in c.disabled {
      var i :| 0 <= i < |c.levels| && c.levels[i].Macro? && c.levels[i].m == m;
      assert Reads(c, i, m);
    }
    forall i, j | Reads(c, i, m) && Reads(c, j, m) ensures i == j {
      assert Owner(c.levels[i]) == Owner(c.levels[j]);
    }
  }
}

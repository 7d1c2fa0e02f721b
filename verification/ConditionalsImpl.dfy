/** The conditional directives of cpp/cccp.c as they run: the input level with its position, the
    stack that the handlers change, and the loops that skip and rescan. */
module ConditionalsImpl {
  import opened Conditionals
  import opened Wrappers

  lemma StaysNonBlank(lines: seq<Line>, p: nat, q: nat)
    requires p <= q <= |lines| && !AllBlank(lines[..p])
    ensures !AllBlank(lines[..q])
  {
    var i :| 0 <= i < p && !lines[..p][i].Blank?;
    assert lines[..q][i] == lines[i];
  }

  lemma NonBlankAt(lines: seq<Line>, p: nat, q: nat)
    requires p < q <= |lines| && !lines[p].Blank?
    ensures !AllBlank(lines[..q])
  {
    assert lines[..q][p] == lines[p];
  }

  lemma Replaced(s: State, t: State, f: Frame)
    requires s.stack != [] && t == s.(stack := s.stack[..|s.stack| - 1] + [f])
    ensures t == Continue(s, f, false)
  {
  }

  lemma Taken(s: State, t: State, f: Frame)
    requires s.stack != []
    requires t == s.(stack := s.stack[..|s.stack| - 1] + [f.(succeeded := f.succeeded + 1)], taken := s.taken + [f.id])
    ensures t == Continue(s, f, true)
  {
  }

  class InputFile {
    const lines: seq<Line>
    const base: nat            // height of if_stack when the file was entered
    const ev: Evaluator
    var bufp: nat              // next line to be read
    var ifStack: seq<Frame>
    var macros: Macros
    var out: seq<Emitted>
    var evals: seq<(string, Macros)>
    var errors: seq<Error>
    ghost var taken: seq<nat>
    var nextId: nat
    var recorded: Option<string>

    constructor (lines: seq<Line>, ifStack: seq<Frame>, macros: Macros, ev: Evaluator)
      ensures Valid() && bufp == 0 && this.lines == lines && base == |ifStack| && this.ev == ev
      ensures Abs() == State(ifStack, macros, [], [], [], [], 0, true, None)
    {
      this.lines, base, this.ev := lines, |ifStack|, ev;
      bufp, this.ifStack, this.macros := 0, ifStack, macros;
      out, evals, errors, taken, nextId, recorded := [], [], [], [], 0, None;
    }

    ghost predicate Valid()
      reads this
    {
      bufp <= |lines| && base <= |ifStack| && (base < |ifStack| ==> !AllBlank(lines[..bufp]))
    }

    ghost function Abs(): State
      requires bufp <= |lines|
      reads this
    {
      StateAt(bufp)
    }

    ghost function StateAt(p: nat): State
      requires p <= |lines|
      reads this
    {
      State(ifStack, macros, out, evals, taken, errors, nextId, AllBlank(lines[..p]), recorded)
    }

    method Error(e: Error)
      modifies this`errors
      ensures errors == old(errors) + [e]
    {
      errors := errors + [e];
    }

    /** Skip to the #elif, #else or #endif that belongs to the innermost open conditional; leaves
        bufp at that directive, or at the end of the file. */
    method SkipIfGroup()
      requires Valid() && base < |ifStack|
      modifies this`bufp, this`ifStack, this`errors
      ensures Valid() && bufp >= old(bufp)
      ensures var r := Conditionals.SkipIfGroup(lines[old(bufp)..], old(ifStack), old(|ifStack|), base, old(errors));
              r == Skipped(lines[bufp..], ifStack, errors)
    {
      var save := |ifStack|;
      while bufp < |lines|
        invariant Valid() && old(bufp) <= bufp && save <= |ifStack|
        invariant Conditionals.SkipIfGroup(lines[bufp..], ifStack, save, base, errors)
               == Conditionals.SkipIfGroup(lines[old(bufp)..], old(ifStack), save, base, old(errors))
      {
        var l := lines[bufp];
        assert lines[bufp..][0] == l && lines[bufp..][1..] == lines[bufp + 1..];
        if Opens(l) {
          ifStack := ifStack + [Frame(TypeOf(l), 0, None, 0)];
        } else if Divides(l) {
          if |ifStack| == save { return; }
          var top := ifStack[|ifStack| - 1];
          if l.Endif? {
            ifStack := ifStack[..|ifStack| - 1];
          } else {
            if top.ntype == TElse { Error(AfterElse(l)); }
            ifStack := ifStack[..|ifStack| - 1] + [top.(ntype := TypeOf(l))];
          }
        }
        StaysNonBlank(lines, bufp, bufp + 1);
        bufp := bufp + 1;
      }
    }

    /** Push a conditional; then, if skip holds, skip ahead. */
    method ConditionalSkip(skip: bool, control: Option<string>)
      requires bufp <= |lines| && base <= |ifStack| && bufp > 0 && !lines[bufp - 1].Blank?
      modifies this`bufp, this`ifStack, this`errors, this`taken, this`nextId
      ensures Valid() && bufp >= old(bufp)
      ensures var p := Push(old(Abs()), skip, control);
              (StateAt(old(bufp)), lines[bufp..]) ==
              if skip then SkipFrom(p, lines[old(bufp)..], base) else (p, lines[old(bufp)..])
    {
      NonBlankAt(lines, bufp - 1, bufp);
      ifStack := ifStack + [Frame(TIf, 0, control, nextId)];
      nextId := nextId + 1;
      if skip {
        SkipIfGroup();
      } else {
        var top := ifStack[|ifStack| - 1];
        ifStack := ifStack[..|ifStack| - 1] + [top.(succeeded := top.succeeded + 1)];
        taken := taken + [nextId - 1];
      }
    }

    method EvalIfExpression(e: string) returns (value: int)
      modifies this`evals
      ensures value == ev(e, macros) && evals == old(evals) + [(e, macros)]
    {
      evals := evals + [(e, macros)];
      value := ev(e, macros);
    }

    /** Is the directive preceded by nothing but blank lines? */
    method StartOfFile(directive: nat) returns (start: bool)
      requires directive <= |lines|
      ensures start <==> AllBlank(lines[..directive])
    {
      var p := 0;
      while p < directive
        invariant 0 <= p <= directive && forall i :: 0 <= i < p ==> lines[i].Blank?
      {
        if !lines[p].Blank? {
          assert lines[..directive][p] == lines[p];
          return false;
        }
        p := p + 1;
      }
      start := true;
    }

    /** #if, #ifdef and #ifndef; bufp is just past the directive. */
    method DoIf()
      requires 0 < bufp <= |lines| && base <= |ifStack| && Opens(lines[bufp - 1])
      modifies this
      ensures Valid() && bufp >= old(bufp)
      ensures var (p, skip) := Open(old(StateAt(bufp - 1)), lines[old(bufp) - 1], ev);
              (StateAt(old(bufp)), lines[bufp..]) ==
              if skip then SkipFrom(p, lines[old(bufp)..], base) else (p, lines[old(bufp)..])
    {
      var l := lines[bufp - 1];
      NonBlankAt(lines, bufp - 1, bufp);
      if l.If? {
        var value := EvalIfExpression(l.e);
        ConditionalSkip(value == 0, None);
      } else {
        var start := false;
        if l.Ifndef? { start := StartOfFile(bufp - 1); }
        var skip := (l.m !in macros) != l.Ifndef?;
        var control := if l.m != "" && start && !skip then Some(l.m) else None;
        ConditionalSkip(skip, control);
      }
    }

    /** Replace the type of the innermost conditional, and its controlling macro. */
    method SetTop(f: Frame)
      requires ifStack != []
      modifies this`ifStack
      ensures ifStack == old(ifStack)[..|old(ifStack)| - 1] + [f]
    {
      ifStack := ifStack[..|ifStack| - 1] + [f];
    }

    method TakeGroup(top: Frame)
      requires ifStack != []
      modifies this`ifStack, this`taken
      ensures ifStack == old(ifStack)[..|old(ifStack)| - 1] + [top.(succeeded := top.succeeded + 1)]
      ensures taken == old(taken) + [top.id]
    {
      SetTop(top.(succeeded := top.succeeded + 1));
      taken := taken + [top.id];
    }

    /** The stack and the evaluation of #else and #elif; skip says whether their group is to be
        passed over. */
    method Enter() returns (skip: bool)
      requires Valid() && bufp > 0 && (lines[bufp - 1].Else? || lines[bufp - 1].Elif?) && base < |ifStack|
      modifies this`ifStack, this`errors, this`evals, this`taken
      ensures Valid() && (Abs(), skip) == Divide(old(Abs()), lines[bufp - 1], ev)
    {
      hide AllBlank, Continue;
      ghost var s0, f := Abs(), ifStack[|ifStack| - 1];
      var l, top := lines[bufp - 1], ifStack[|ifStack| - 1];
      if top.ntype != TIf && top.ntype != TElif { Error(AfterElse(l)); }
      if l.Else? { top := top.(control := None); }
      top := top.(ntype := TypeOf(l));
      ghost var s1 := Abs();
      assert s1 == if f.ntype != TIf && f.ntype != TElif then s0.Fail(AfterElse(l)) else s0;
      SetTop(top);
      Replaced(s1, Abs(), top);
      if top.succeeded > 0 { return true; }
      if l.Elif? {
        var value := EvalIfExpression(l.e);
        s1 := Evaluated(s1, l.e);
        Replaced(s1, Abs(), top);
        if value == 0 { return true; }
      }
      TakeGroup(top);
      Taken(s1, Abs(), top);
      skip := false;
    }

    /** #else and #elif inside a conditional. */
    method DoDivide()
      requires Valid() && bufp > 0 && (lines[bufp - 1].Else? || lines[bufp - 1].Elif?) && base < |ifStack|
      modifies this
      ensures Valid() && bufp >= old(bufp)
      ensures var (p, skip) := Divide(old(Abs()), lines[old(bufp) - 1], ev);
              (StateAt(old(bufp)), lines[bufp..]) ==
              if skip then SkipFrom(p, lines[old(bufp)..], base) else (p, lines[old(bufp)..])
    {
      var skip := Enter();
      if skip { SkipIfGroup(); }
    }

    /** #endif: unstack, and see whether the conditional contained the whole file. */
    method DoEndif()
      requires Valid() && base < |ifStack|
      modifies this`ifStack, this`recorded
      ensures Valid() && Abs() == Close(old(Abs()), lines[bufp..])
    {
      var temp := ifStack[|ifStack| - 1];
      ifStack := ifStack[..|ifStack| - 1];
      if temp.control.Some? {
        var p := bufp;
        while p < |lines|
          invariant bufp <= p <= |lines| && forall i :: bufp <= i < p ==> lines[i].Blank?
        {
          if !lines[p].Blank? {
            assert lines[bufp..][p - bufp] == lines[p];
            return;
          }
          p := p + 1;
        }
        recorded := temp.control;
      }
    }

    /** rescan of a file. */
    method Rescan()
      requires Valid() && bufp == 0
      modifies this
      ensures bufp == |lines| && |ifStack| == base
      ensures Abs() == Conditionals.Rescan(old(Abs()), lines, base, ev)
    {
      ghost var s0 := Abs();
      assert lines[0..] == lines;
      while bufp < |lines|
        invariant Valid()
        invariant Conditionals.Rescan(Abs(), lines[bufp..], base, ev) == Conditionals.Rescan(s0, lines, base, ev)
        decreases |lines| - bufp
      {
        OneLine();
      }
      if |ifStack| != base { Error(Unterminated); }
      ifStack := ifStack[..base];
    }

    method OneLine()
      requires Valid() && bufp < |lines|
      modifies this
      ensures Valid() && bufp > old(bufp)
      ensures StateAt(bufp) == Step(old(Abs()), lines[old(bufp)..], base, ev).0
      ensures lines[bufp..] == Step(old(Abs()), lines[old(bufp)..], base, ev).1
    {
      hide Conditionals.SkipFrom, Conditionals.Open, Conditionals.Divide, Conditionals.Close;
      var l := lines[bufp];
      assert lines[bufp..][0] == l && lines[bufp..][1..] == lines[bufp + 1..];
      if |ifStack| > base { StaysNonBlank(lines, bufp, bufp + 1); }
      bufp := bufp + 1;
      if Opens(l) {
        DoIf();
      } else if Divides(l) {
        if |ifStack| == base {
          Error(NotWithin(l));
        } else if l.Endif? {
          DoEndif();
        } else {
          DoDivide();
        }
      } else {
        PlainLine(l);
      }
    }

    /** A line that is not a conditional. */
    method PlainLine(l: Line)
      requires !Opens(l) && !Divides(l)
      modifies this`out, this`macros
      ensures out == old(out) + (if l.Text? then [Emitted(l.t, old(macros))] else [])
      ensures macros == if l.Define? then old(macros)[l.m := l.body] else if l.Undef? then old(macros) - {l.m}
          else old(macros)
    {
      match l
      case Text(t) => out := out + [Emitted(t, macros)];
      case Define(m, body) => macros := macros[m := body];
      case Undef(m) => macros := macros - {m};
      case _ =>
    }
  }
}

/** Conditional inclusion in cpp/cccp.c: the stack of open conditionals, the directives that
    change it, and skip_if_group, over a file that is already split into lines.

    Conditions are evaluated by a parameter ev, given the text of the expression and the macro
    table at that point. */
module Conditionals {
  import opened Wrappers

  type Macros = map<string, string>

  type Evaluator = (string, Macros) -> int

  /** Blank stands for white space and comments; an #ifdef without a name has the name "". */
  datatype Line =
    | Blank
    | Text(t: string)
    | Define(m: string, body: string)
    | Undef(m: string)
    | If(e: string)
    | Ifdef(m: string)
    | Ifndef(m: string)
    | Elif(e: string)
    | Else
    | Endif

  predicate Opens(l: Line) { l.If? || l.Ifdef? || l.Ifndef? }

  predicate Divides(l: Line) { l.Elif? || l.Else? || l.Endif? }

  datatype NodeType = TIf | TIfdef | TIfndef | TElse | TElif

  /** An open conditional. id numbers the if-sections in the order in which they are opened. */
  datatype Frame = Frame(ntype: NodeType, succeeded: nat, control: Option<string>, id: nat)

  datatype Error = NotWithin(l: Line) | AfterElse(l: Line) | Unterminated

  /** A line of text is emitted under the macros defined at that point. */
  datatype Emitted = Emitted(t: string, macros: Macros)

  /** evals, taken and errors are logs: the conditions that were evaluated, the sections of
      which a group was taken, and the diagnostics. recorded is the controlling macro that the
      file turned out to have; atStart holds until something other than blank is read. */
  datatype State = State(
    stack: seq<Frame>,
    macros: Macros,
    out: seq<Emitted>,
    evals: seq<(string, Macros)>,
    taken: seq<nat>,
    errors: seq<Error>,
    nextId: nat,
    atStart: bool,
    recorded: Option<string>)
  {
    function Top(): Frame
      requires stack != []
    {
      stack[|stack| - 1]
    }

    function Pop(): State
      requires stack != []
    {
      this.(stack := stack[..|stack| - 1])
    }

    function Fail(e: Error): State { this.(errors := errors + [e]) }
  }

  predicate AllBlank(lines: seq<Line>)
  {
    forall i :: 0 <= i < |lines| ==> lines[i].Blank?
  }

  function TypeOf(l: Line): NodeType
    requires Opens(l) || l.Else? || l.Elif?
  {
    match l
    case If(_) => TIf
    case Ifdef(_) => TIfdef
    case Ifndef(_) => TIfndef
    case Elif(_) => TElif
    case _ => TElse
  }

  // ---------------------------------------------------------------------------------------
  // skip_if_group

  /** Where skipping ends, with the stack and the diagnostics it leaves. */
  datatype Skipped = Skipped(rest: seq<Line>, stack: seq<Frame>, errors: seq<Error>)

  /** save is the height of the stack when skipping began, base its height at the beginning of
      the file. */
  function SkipIfGroup(lines: seq<Line>, stack: seq<Frame>, save: nat, base: nat, errors: seq<Error>): (r: Skipped)
    requires base < save <= |stack|
    ensures |r.rest| <= |lines| && save <= |r.stack|
    decreases |lines|
  {
    if lines == [] then Skipped(lines, stack, errors)
    else
      var l, rest, h := lines[0], lines[1..], |stack|;
      if Opens(l) then SkipIfGroup(rest, stack + [Frame(TypeOf(l), 0, None, 0)], save, base, errors)
      else if Divides(l) then
        if h == save then Skipped(lines, stack, errors)  // found what we came for
        else if l.Endif? then SkipIfGroup(rest, stack[..h - 1], save, base, errors)
        else
          var top := stack[h - 1];
          SkipIfGroup(rest, stack[..h - 1] + [top.(ntype := TypeOf(l))], save, base,
                      if top.ntype == TElse then errors + [AfterElse(l)] else errors)
      else SkipIfGroup(rest, stack, save, base, errors)
  }

  /** The stack while a group is skipped, one line further on. */
  function SkipLine(l: Line, stack: seq<Frame>): seq<Frame>
    requires stack != []
  {
    var h := |stack|;
    if Opens(l) then stack + [Frame(TypeOf(l), 0, None, 0)]
    else if l.Endif? then stack[..h - 1]
    else if Divides(l) then stack[..h - 1] + [stack[h - 1].(ntype := TypeOf(l))]
    else stack
  }

  /** When skipping finds its directive, it leaves the stack as it was given, and the directive
      is one that divides or ends the section. */
  lemma {:induction false} SkipKeepsStack(lines: seq<Line>, stack: seq<Frame>, save: nat, base: nat, errors: seq<Error>)
    requires base < save <= |stack|
    ensures var r := SkipIfGroup(lines, stack, save, base, errors);
            && r.stack[..save] == stack[..save]
            && (r.rest != [] ==> r.stack == stack[..save] && Divides(r.rest[0]))
    decreases |lines|
  {
    if lines != [] {
      var l, h := lines[0], |stack|;
      if Divides(l) && h == save {
        assert stack == stack[..save];
      } else {
        var errs := if Divides(l) && !l.Endif? && stack[h - 1].ntype == TElse then errors + [AfterElse(l)] else errors;
        var next := SkipLine(l, stack);
        assert next[..save] == stack[..save];
        SkipKeepsStack(lines[1..], next, save, base, errs);
      }
    }
  }

  // ---------------------------------------------------------------------------------------
  // The directives

  /** #ifdef and #ifndef: whether the group is to be skipped. */
  function SkipIfdef(l: Line, macros: Macros): bool
    requires l.Ifdef? || l.Ifndef?
  {
    (l.m !in macros) != l.Ifndef?
  }

  /** The controlling macro of a section that begins the file and whose group is taken. */
  function ControlOf(s: State, l: Line, skip: bool): Option<string>
    requires Opens(l)
  {
    if l.Ifndef? && s.atStart && !skip && l.m != "" then Some(l.m) else None
  }

  /** conditional_skip, up to the skipping. */
  function Push(s: State, skip: bool, control: Option<string>): State
  {
    s.(stack := s.stack + [Frame(TIf, if skip then 0 else 1, control, s.nextId)],
       nextId := s.nextId + 1,
       taken := if skip then s.taken else s.taken + [s.nextId],
       atStart := false)
  }

  function Evaluated(s: State, e: string): State { s.(evals := s.evals + [(e, s.macros)]) }

  /** A conditional is opened: the new state, and whether its first group is skipped. */
  function Open(s: State, l: Line, ev: Evaluator): (State, bool)
    requires Opens(l)
  {
    if l.If? then
      var skip := ev(l.e, s.macros) == 0;
      (Push(Evaluated(s, l.e), skip, None), skip)
    else
      var skip := SkipIfdef(l, s.macros);
      (Push(s, skip, ControlOf(s, l, skip)), skip)
  }

  /** Replace the innermost conditional, and enter a group of it when take holds. */
  function Continue(s: State, f: Frame, take: bool): State
    requires s.stack != []
  {
    s.(stack := s.stack[..|s.stack| - 1] + [if take then f.(succeeded := f.succeeded + 1) else f],
       taken := if take then s.taken + [f.id] else s.taken)
  }

  /** #elif and #else inside a conditional: the new state, and whether to skip. */
  function Divide(s: State, l: Line, ev: Evaluator): (State, bool)
    requires s.stack != [] && (l.Elif? || l.Else?)
  {
    var f := s.Top();
    var s0 := if f.ntype != TIf && f.ntype != TElif then s.Fail(AfterElse(l)) else s;
    var g := f.(ntype := TypeOf(l), control := if l.Else? then None else f.control);
    if f.succeeded > 0 then (Continue(s0, g, false), true)
    else if l.Else? then (Continue(s0, g, true), false)
    else
      var take := ev(l.e, s.macros) != 0;
      (Continue(Evaluated(s0, l.e), g, take), !take)
  }

  /** #endif: pop, and record the controlling macro if nothing but blank follows. */
  function Close(s: State, rest: seq<Line>): State
    requires s.stack != []
  {
    var control := s.Top().control;
    s.Pop().(recorded := if control.Some? && AllBlank(rest) then control else s.recorded)
  }

  function Plain(s: State, l: Line): State
    requires !Opens(l) && !Divides(l)
  {
    match l
    case Text(t) => s.(out := s.out + [Emitted(t, s.macros)], atStart := false)
    case Define(m, body) => s.(macros := s.macros[m := body], atStart := false)
    case Undef(m) => s.(macros := s.macros - {m}, atStart := false)
    case _ => s
  }

  function SkipFrom(s: State, rest: seq<Line>, base: nat): (r: (State, seq<Line>))
    requires base < |s.stack|
    ensures |r.1| <= |rest| && base < |r.0.stack|
  {
    var k := SkipIfGroup(rest, s.stack, |s.stack|, base, s.errors);
    (s.(stack := k.stack, errors := k.errors), k.rest)
  }

  /** One line of the file: the state after it, and the lines still to be read. */
  function Step(s: State, lines: seq<Line>, base: nat, ev: Evaluator): (r: (State, seq<Line>))
    requires lines != [] && base <= |s.stack|
    ensures |r.1| < |lines| && base <= |r.0.stack|
  {
    var l, rest := lines[0], lines[1..];
    if Opens(l) then
      var (s1, skip) := Open(s, l, ev);
      if skip then SkipFrom(s1, rest, base) else (s1, rest)
    else if Divides(l) then
      if |s.stack| == base then (s.Fail(NotWithin(l)).(atStart := false), rest)
      else if l.Endif? then (Close(s, rest), rest)
      else
        var (s1, skip) := Divide(s, l, ev);
        if skip then SkipFrom(s1, rest, base) else (s1, rest)
    else (Plain(s, l), rest)
  }

  /** The end of the file: diagnose and drop the conditionals still open. */
  function Finish(s: State, base: nat): State
    requires base <= |s.stack|
  {
    (if |s.stack| != base then s.Fail(Unterminated) else s).(stack := s.stack[..base])
  }

  /** rescan of a file. */
  function Rescan(s: State, lines: seq<Line>, base: nat, ev: Evaluator): (t: State)
    requires base <= |s.stack|
    decreases |lines|
  {
    if lines == [] then Finish(s, base)
    else
      var (s1, rest) := Step(s, lines, base, ev);
      Rescan(s1, rest, base, ev)
  }

  // ---------------------------------------------------------------------------------------
  // At most one group

  ghost predicate NoRepeats(ids: seq<nat>)
  {
    forall i, j :: 0 <= i < j < |ids| ==> ids[i] != ids[j]
  }

  /** Sections are numbered apart, every open section has had at most one group taken, and the
      log of taken groups names no section twice. */
  ghost predicate Numbered(stack: seq<Frame>, taken: seq<nat>, nextId: nat)
  {
    && NoRepeats(taken)
    && (forall i :: 0 <= i < |taken| ==> taken[i] < nextId)
    && (forall i :: 0 <= i < |stack| ==> stack[i].succeeded <= 1 && stack[i].id < nextId)
    && (forall i, j :: 0 <= i < j < |stack| ==> stack[i].id != stack[j].id)
    && (forall i :: 0 <= i < |stack| && stack[i].succeeded == 0 ==> stack[i].id !in taken)
  }

  ghost predicate Sound(s: State) { Numbered(s.stack, s.taken, s.nextId) }

  lemma PushNumbered(stack: seq<Frame>, taken: seq<nat>, nextId: nat, f: Frame)
    requires Numbered(stack, taken, nextId) && f.id == nextId && f.succeeded <= 1
    ensures Numbered(stack + [f], if f.succeeded == 0 then taken else taken + [nextId], nextId + 1)
  {
  }

  /** Replacing the top frame, and possibly taking its first group. */
  lemma TopNumbered(stack: seq<Frame>, taken: seq<nat>, nextId: nat, f: Frame)
    requires stack != [] && Numbered(stack, taken, nextId)
    requires f.id == stack[|stack| - 1].id
    requires f.succeeded == stack[|stack| - 1].succeeded || (f.succeeded == 1 && stack[|stack| - 1].succeeded == 0)
    ensures var take := f.succeeded != stack[|stack| - 1].succeeded;
            Numbered(stack[..|stack| - 1] + [f], if take then taken + [f.id] else taken, nextId)
  {
  }

  lemma PopNumbered(stack: seq<Frame>, taken: seq<nat>, nextId: nat)
    requires stack != [] && Numbered(stack, taken, nextId)
    ensures Numbered(stack[..|stack| - 1], taken, nextId)
  {
  }

  /** Text is read only where every open section has had a group taken. */
  ghost predicate Reading(stack: seq<Frame>, base: nat)
  {
    forall i :: base <= i < |stack| ==> stack[i].succeeded > 0
  }

  /** Between two lines the machine is reading, or it is about to see the directive at which the
      skipping of a group ended. */
  ghost predicate Between(s: State, lines: seq<Line>, base: nat)
  {
    && Sound(s) && lines != [] && base <= |s.stack|
    && (|| Reading(s.stack, base)
        || (Divides(lines[0]) && base < |s.stack| && Reading(s.stack[..|s.stack| - 1], base)))
  }

  lemma SkipStaysBetween(s: State, rest: seq<Line>, base: nat)
    requires base < |s.stack| && Sound(s) && Reading(s.stack[..|s.stack| - 1], base)
    ensures var (t, after) := SkipFrom(s, rest, base);
            NoRepeats(t.taken) && (after != [] ==> Between(t, after, base))
  {
    SkipKeepsStack(rest, s.stack, |s.stack|, base, s.errors);
    assert s.stack[..|s.stack|] == s.stack;
  }

  lemma OpenIsSound(s: State, l: Line, ev: Evaluator, base: nat)
    requires Opens(l) && base <= |s.stack| && Sound(s) && Reading(s.stack, base)
    ensures var (t, skip) := Open(s, l, ev);
            && Sound(t) && |t.stack| == |s.stack| + 1 && t.stack[..|s.stack|] == s.stack
            && (!skip ==> Reading(t.stack, base))
  {
    var (t, skip) := Open(s, l, ev);
    PushNumbered(s.stack, s.taken, s.nextId, t.stack[|s.stack|]);
  }

  lemma TopAtMostOnce(s: State)
    requires s.stack != [] && Sound(s)
    ensures s.Top().succeeded <= 1
  {
  }

  lemma DivideIsSound(s: State, l: Line, ev: Evaluator, base: nat)
    requires (l.Elif? || l.Else?) && base < |s.stack| && Sound(s) && Reading(s.stack[..|s.stack| - 1], base)
    ensures var (t, skip) := Divide(s, l, ev);
            && Sound(t) && |t.stack| == |s.stack| && t.stack[..|s.stack| - 1] == s.stack[..|s.stack| - 1]
            && (!skip ==> Reading(t.stack, base))
  {
    hide Numbered;
    var (t, skip) := Divide(s, l, ev);
    TopAtMostOnce(s);
    TopNumbered(s.stack, s.taken, s.nextId, t.Top());
    assert t.stack == s.stack[..|s.stack| - 1] + [t.Top()];
  }

  lemma StepStaysBetween(s: State, lines: seq<Line>, base: nat, ev: Evaluator)
    requires Between(s, lines, base)
    ensures var (t, rest) := Step(s, lines, base, ev);
            NoRepeats(t.taken) && (rest != [] ==> Between(t, rest, base))
  {
    var l, rest := lines[0], lines[1..];
    if Opens(l) {
      OpenIsSound(s, l, ev, base);
      var (t, skip) := Open(s, l, ev);
      if skip { SkipStaysBetween(t, rest, base); }
    } else if Divides(l) && |s.stack| > base {
      if l.Endif? {
        PopNumbered(s.stack, s.taken, s.nextId);
      } else {
        DivideIsSound(s, l, ev, base);
        var (t, skip) := Divide(s, l, ev);
        if skip { SkipStaysBetween(t, rest, base); }
      }
    }
  }

  /** Whatever the lines of a file are, well formed or not, no if-section has two of its groups
      taken. */
  lemma {:induction false} AtMostOneGroupPerSection(s: State, lines: seq<Line>, base: nat, ev: Evaluator)
    requires Between(s, lines, base)
    ensures NoRepeats(Rescan(s, lines, base, ev).taken)
    decreases |lines|
  {
    StepStaysBetween(s, lines, base, ev);
    var (t, rest) := Step(s, lines, base, ev);
    if rest != [] { AtMostOneGroupPerSection(t, rest, base, ev); }
  }

  // ---------------------------------------------------------------------------------------
  // The tree of a well-nested file, and its meaning (6.10.1 of ISO/IEC 9899:1999)

  datatype Items = Nil | Item(line: Line, next: Items) | Section(first: Line, body: Items, tail: Tail, next: Items)

  /** What follows the first group of a section. */
  datatype Tail = End | ElseTail(body: Items) | ElifTail(e: string, body: Items, tail: Tail)

  predicate WellNested(items: Items)
  {
    match items
    case Nil => true
    case Item(l, next) => !Opens(l) && !Divides(l) && WellNested(next)
    case Section(first, body, tail, next) =>
        Opens(first) && WellNested(body) && WellNestedTail(tail) && WellNested(next)
  }

  predicate WellNestedTail(tail: Tail)
  {
    match tail
    case End => true
    case ElseTail(body) => WellNested(body)
    case ElifTail(_, body, rest) => WellNested(body) && WellNestedTail(rest)
  }

  function Lines(items: Items): seq<Line>
  {
    match items
    case Nil => []
    case Item(l, next) => [l] + Lines(next)
    case Section(first, body, tail, next) => [first] + (Lines(body) + (TailLines(tail) + Lines(next)))
  }

  function TailLines(tail: Tail): seq<Line>
  {
    match tail
    case End => [Endif]
    case ElseTail(body) => [Else] + (Lines(body) + [Endif])
    case ElifTail(e, body, rest) => [Elif(e)] + (Lines(body) + TailLines(rest))
  }

  predicate HasElse(tail: Tail)
  {
    match tail
    case End => false
    case ElseTail(_) => true
    case ElifTail(_, _, rest) => HasElse(rest)
  }

  /** The meaning of a list of items: the first group whose condition holds is processed and the
      other groups contribute nothing; after is what follows the items in the file. */
  function Meaning(items: Items, s: State, after: seq<Line>, ev: Evaluator): (t: State)
    requires WellNested(items)
    ensures t.stack == s.stack
    decreases items, 1
  {
    match items
    case Nil => s
    case Item(l, next) => Meaning(next, Plain(s, l), after, ev)
    case Section(first, body, tail, next) =>
      Meaning(next, SectionMeaning(items, s, Lines(next) + after, ev), after, ev)
  }

  /** One section; it records its macro if it controls the whole file. */
  function SectionMeaning(sec: Items, s: State, rest: seq<Line>, ev: Evaluator): (t: State)
    requires sec.Section? && WellNested(sec)
    ensures t.stack == s.stack
    decreases sec, 0
  {
    var holds, id := Holds(s, sec.first, ev), s.nextId;
    var s1 := Test(s, sec.first).(nextId := s.nextId + 1, atStart := false);
    var t := if holds then Meaning(sec.body, s1.(taken := s1.taken + [id]), TailLines(sec.tail) + rest, ev)
             else TailMeaning(sec.tail, s1, id, rest, ev);
    var guards := ControlOf(s, sec.first, !holds);
    t.(recorded := if guards.Some? && !HasElse(sec.tail) && AllBlank(rest) then guards else t.recorded)
  }

  function TailMeaning(tail: Tail, s: State, id: nat, after: seq<Line>, ev: Evaluator): (t: State)
    requires WellNestedTail(tail)
    ensures t.stack == s.stack
    decreases tail, 1
  {
    match tail
    case End => s
    case ElseTail(body) => Meaning(body, s.(taken := s.taken + [id]), [Endif] + after, ev)
    case ElifTail(e, body, rest) =>
      var s1 := Evaluated(s, e);
      if ev(e, s.macros) != 0
      then Meaning(body, s1.(taken := s1.taken + [id]), TailLines(rest) + after, ev)
      else TailMeaning(rest, s1, id, after, ev)
  }

  predicate Holds(s: State, first: Line, ev: Evaluator)
    requires Opens(first)
  {
    match first
    case If(e) => ev(e, s.macros) != 0
    case Ifdef(m) => m in s.macros
    case _ => first.m !in s.macros
  }

  /** Only the expression of an #if is evaluated. */
  function Test(s: State, first: Line): State
    requires Opens(first)
  {
    if first.If? then Evaluated(s, first.e) else s
  }

  // ---------------------------------------------------------------------------------------
  // The machine computes the meaning of the tree

  lemma Assoc(a: seq<Line>, b: seq<Line>, c: seq<Line>)
    ensures (a + b) + c == a + (b + c)
  {
  }

  lemma HeadTail(l: Line, rest: seq<Line>)
    ensures ([l] + rest)[0] == l && ([l] + rest)[1..] == rest
  {
  }

  /** Skipping passes over a well-nested group and comes out where it went in. */
  lemma {:induction false} SkipItems(items: Items, after: seq<Line>, stack: seq<Frame>, save: nat, base: nat,
                                     errors: seq<Error>)
    requires WellNested(items) && base < save <= |stack|
    ensures SkipIfGroup(Lines(items) + after, stack, save, base, errors) ==
        SkipIfGroup(after, stack, save, base, errors)
    decreases items
  {
    match items
    case Nil => assert Lines(items) + after == after;
    case Item(l, next) =>
      Assoc([l], Lines(next), after);
      HeadTail(l, Lines(next) + after);
      SkipItems(next, after, stack, save, base, errors);
    case Section(first, body, tail, next) =>
      var f := Frame(TypeOf(first), 0, None, 0);
      var rest := Lines(next) + after;
      SectionLines(first, body, tail, next, after);
      HeadTail(first, Lines(body) + (TailLines(tail) + rest));
      SkipItems(body, TailLines(tail) + rest, stack + [f], save, base, errors);
      SkipTail(tail, rest, stack, f, save, base, errors);
      SkipItems(next, after, stack, save, base, errors);
  }

  lemma SectionLines(first: Line, body: Items, tail: Tail, next: Items, after: seq<Line>)
    ensures Lines(Section(first, body, tail, next)) + after
         == [first] + (Lines(body) + (TailLines(tail) + (Lines(next) + after)))
  {
    Assoc([first], Lines(body) + (TailLines(tail) + Lines(next)), after);
    Assoc(Lines(body), TailLines(tail) + Lines(next), after);
    Assoc(TailLines(tail), Lines(next), after);
  }

  lemma {:induction false} SkipTail(tail: Tail, after: seq<Line>, stack: seq<Frame>, f: Frame, save: nat, base: nat,
                                    errors: seq<Error>)
    requires WellNestedTail(tail) && base < save <= |stack| && f.ntype != TElse
    ensures SkipIfGroup(TailLines(tail) + after, stack + [f], save, base, errors) ==
        SkipIfGroup(after, stack, save, base, errors)
    decreases tail
  {
    match tail
    case End =>
      HeadTail(Endif, after);
    case ElseTail(body) =>
      Assoc([Else], Lines(body) + [Endif], after);
      Assoc(Lines(body), [Endif], after);
      HeadTail(Else, Lines(body) + ([Endif] + after));
      SkipItems(body, [Endif] + after, stack + [f.(ntype := TElse)], save, base, errors);
      HeadTail(Endif, after);
    case ElifTail(e, body, rest) =>
      Assoc([Elif(e)], Lines(body) + TailLines(rest), after);
      Assoc(Lines(body), TailLines(rest), after);
      HeadTail(Elif(e), Lines(body) + (TailLines(rest) + after));
      var g := f.(ntype := TElif);
      SkipItems(body, TailLines(rest) + after, stack + [g], save, base, errors);
      SkipTail(rest, after, stack, g, save, base, errors);
  }

  /** The tail of a section begins with a directive that divides or ends it. */
  lemma TailDivides(tail: Tail)
    ensures TailLines(tail) != [] && Divides(TailLines(tail)[0])
  {
  }

  /** Skipping from an open section stops at its own tail, with the state unchanged. */
  lemma SkipToTail(s: State, body: Items, lines: seq<Line>, base: nat)
    requires WellNested(body) && base < |s.stack| && lines != [] && Divides(lines[0])
    ensures SkipFrom(s, Lines(body) + lines, base) == (s, lines)
  {
    SkipItems(body, lines, s.stack, |s.stack|, base, s.errors);
  }

  /** The meaning of a group does not depend on the conditionals around it. */
  lemma {:induction false} MeaningIgnoresStack(items: Items, s: State, stack: seq<Frame>, after: seq<Line>,
                                               ev: Evaluator)
    requires WellNested(items)
    ensures Meaning(items, s.(stack := stack), after, ev) == Meaning(items, s, after, ev).(stack := stack)
    decreases items, 1
  {
    match items
    case Nil =>
    case Item(l, next) => MeaningIgnoresStack(next, Plain(s, l), stack, after, ev);
    case Section(first, body, tail, next) =>
      var rest := Lines(next) + after;
      SectionIgnoresStack(items, s, stack, rest, ev);
      MeaningIgnoresStack(next, SectionMeaning(items, s, rest, ev), stack, after, ev);
  }

  lemma {:induction false} SectionIgnoresStack(sec: Items, s: State, stack: seq<Frame>, rest: seq<Line>, ev: Evaluator)
    requires sec.Section? && WellNested(sec)
    ensures SectionMeaning(sec, s.(stack := stack), rest, ev) == SectionMeaning(sec, s, rest, ev).(stack := stack)
    decreases sec, 0
  {
    hide Meaning, TailMeaning, TailLines;
    var s1 := Test(s, sec.first).(nextId := s.nextId + 1, atStart := false);
    MeaningIgnoresStack(sec.body, s1.(taken := s1.taken + [s.nextId]), stack, TailLines(sec.tail) + rest, ev);
    TailIgnoresStack(sec.tail, s1, stack, s.nextId, rest, ev);
  }

  lemma {:induction false} TailIgnoresStack(tail: Tail, s: State, stack: seq<Frame>, id: nat, after: seq<Line>,
                                            ev: Evaluator)
    requires WellNestedTail(tail)
    ensures TailMeaning(tail, s.(stack := stack), id, after, ev) == TailMeaning(tail, s, id, after, ev).(stack := stack)
    decreases tail, 1
  {
    match tail
    case End =>
    case ElseTail(body) => MeaningIgnoresStack(body, s.(taken := s.taken + [id]), stack, [Endif] + after, ev);
    case ElifTail(e, body, rest) =>
      var s1 := Evaluated(s, e);
      MeaningIgnoresStack(body, s1.(taken := s1.taken + [id]), stack, TailLines(rest) + after, ev);
      TailIgnoresStack(rest, s1, stack, id, after, ev);
  }

  /** Once a group of the section has been taken, everything up to its #endif is passed over
      without evaluating anything. */
  lemma {:induction false} TailAfterTaken(tail: Tail, s: State, after: seq<Line>, base: nat, ev: Evaluator)
    requires WellNestedTail(tail) && base < |s.stack| && s.Top().succeeded > 0
    requires s.Top().ntype == TIf || s.Top().ntype == TElif
    ensures var control := s.Top().control;
            Rescan(s, TailLines(tail) + after, base, ev) ==
            Rescan(s.Pop().(recorded := if control.Some? && !HasElse(tail) && AllBlank(after) then control
                else s.recorded),
                   after, base, ev)
    decreases tail
  {
    hide SkipIfGroup, Lines;
    match tail
    case End => HeadTail(Endif, after);
    case ElseTail(body) =>
      Assoc([Else], Lines(body) + [Endif], after);
      Assoc(Lines(body), [Endif], after);
      HeadTail(Else, Lines(body) + ([Endif] + after));
      HeadTail(Endif, after);
      SkipToTail(Divide(s, Else, ev).0, body, [Endif] + after, base);
    case ElifTail(e, body, rest) =>
      Assoc([Elif(e)], Lines(body) + TailLines(rest), after);
      Assoc(Lines(body), TailLines(rest), after);
      HeadTail(Elif(e), Lines(body) + (TailLines(rest) + after));
      TailDivides(rest);
      var s1 := Divide(s, Elif(e), ev).0;
      SkipToTail(s1, body, TailLines(rest) + after, base);
      assert s1.Pop().stack == s.Pop().stack;
      TailAfterTaken(rest, s1, after, base, ev);
  }

  /** A group that is read: with the conditional f around it, the machine does what the group
      means and reaches the lines that follow it. */
  lemma {:induction false} RunGroup(body: Items, s: State, f: Frame, after: seq<Line>, base: nat, ev: Evaluator)
    requires WellNested(body) && base <= |s.stack|
    ensures Rescan(s.(stack := s.stack + [f]), Lines(body) + after, base, ev) ==
            Rescan(Meaning(body, s, after, ev).(stack := s.stack + [f]), after, base, ev)
    decreases body, 2
  {
    MeaningIgnoresStack(body, s, s.stack + [f], after, ev);
    RunItems(body, s.(stack := s.stack + [f]), after, base, ev);
  }

  /** A section none of whose groups has been taken yet, at one of its later directives. */
  lemma {:induction false} TailPending(tail: Tail, s: State, f: Frame, after: seq<Line>, base: nat, ev: Evaluator)
    requires WellNestedTail(tail) && base <= |s.stack| && f.succeeded == 0 && f.control == None
    requires f.ntype == TIf || f.ntype == TElif
    ensures Rescan(s.(stack := s.stack + [f]), TailLines(tail) + after, base, ev) ==
            Rescan(TailMeaning(tail, s, f.id, after, ev), after, base, ev)
    decreases tail, 1
  {
    match tail
    case End => CloseRestores(s, f, after, base, ev);
    case ElseTail(body) => PendingElse(tail, s, f, after, base, ev);
    case ElifTail(_, _, _) => PendingElif(tail, s, f, after, base, ev);
  }

  lemma {:induction false} PendingElse(tail: Tail, s: State, f: Frame, after: seq<Line>, base: nat, ev: Evaluator)
    requires tail.ElseTail? && WellNestedTail(tail) && base <= |s.stack| && f.succeeded == 0 && f.control == None
    requires f.ntype == TIf || f.ntype == TElif
    ensures Rescan(s.(stack := s.stack + [f]), TailLines(tail) + after, base, ev) ==
            Rescan(TailMeaning(tail, s, f.id, after, ev), after, base, ev)
    decreases tail, 0
  {
    var s0, body, lines := s.(stack := s.stack + [f]), tail.body, [Endif] + after;
    Assoc([Else], Lines(body) + [Endif], after);
    Assoc(Lines(body), [Endif], after);
    HeadTail(Else, Lines(body) + lines);
    assert s0.stack[..|s0.stack| - 1] == s.stack;
    var s1, g := s.(taken := s.taken + [f.id]), f.(ntype := TElse, succeeded := 1);
    assert Divide(s0, Else, ev).0 == s1.(stack := s.stack + [g]);
    RunGroup(body, s1, g, lines, base, ev);
    CloseRestores(Meaning(body, s1, lines, ev), g, after, base, ev);
  }

  lemma {:induction false} PendingElif(tail: Tail, s: State, f: Frame, after: seq<Line>, base: nat, ev: Evaluator)
    requires tail.ElifTail? && WellNestedTail(tail) && base <= |s.stack| && f.succeeded == 0 && f.control == None
    requires f.ntype == TIf || f.ntype == TElif
    ensures Rescan(s.(stack := s.stack + [f]), TailLines(tail) + after, base, ev) ==
            Rescan(TailMeaning(tail, s, f.id, after, ev), after, base, ev)
    decreases tail, 0
  {
    hide SkipIfGroup, Lines, Meaning;
    var s0, e, body, lines := s.(stack := s.stack + [f]), tail.e, tail.body, TailLines(tail.tail) + after;
    Assoc([Elif(e)], Lines(body) + TailLines(tail.tail), after);
    Assoc(Lines(body), TailLines(tail.tail), after);
    HeadTail(Elif(e), Lines(body) + lines);
    TailDivides(tail.tail);
    assert s0.stack[..|s0.stack| - 1] == s.stack;
    var s1 := Evaluated(s, e);
    if ev(e, s.macros) != 0 {
      var g, s2 := f.(ntype := TElif, succeeded := 1), s1.(taken := s.taken + [f.id]);
      assert Divide(s0, Elif(e), ev).0 == s2.(stack := s.stack + [g]);
      RunTaken(body, tail.tail, s2, g, after, base, ev);
    } else {
      var g := f.(ntype := TElif);
      assert Divide(s0, Elif(e), ev).0 == s1.(stack := s.stack + [g]);
      SkipToTail(s1.(stack := s.stack + [g]), body, lines, base);
      TailPending(tail.tail, s1, g, after, base, ev);
    }
  }

  lemma RestAfterTaken(tail: Tail, s: State, f: Frame, after: seq<Line>, base: nat, ev: Evaluator)
    requires WellNestedTail(tail) && base <= |s.stack| && f.succeeded > 0 && (f.ntype == TIf || f.ntype == TElif)
    ensures Rescan(s.(stack := s.stack + [f]), TailLines(tail) + after, base, ev) ==
            Rescan(s.(recorded := if f.control.Some? && !HasElse(tail) && AllBlank(after) then f.control
                else s.recorded),
                   after, base, ev)
  {
    TailAfterTaken(tail, s.(stack := s.stack + [f]), after, base, ev);
    assert s.(stack := s.stack + [f]).Pop() == s;
  }

  lemma CloseRestores(s: State, f: Frame, after: seq<Line>, base: nat, ev: Evaluator)
    requires base <= |s.stack| && f.control == None
    ensures Rescan(s.(stack := s.stack + [f]), [Endif] + after, base, ev) == Rescan(s, after, base, ev)
  {
    HeadTail(Endif, after);
    assert s.(stack := s.stack + [f]).Pop() == s;
  }

  /** Reading the line that opens a section. */
  lemma OpenRuns(s: State, first: Line, rest: seq<Line>, base: nat, ev: Evaluator)
    requires Opens(first) && base <= |s.stack|
    ensures var (p, skip) := Open(s, first, ev);
            Rescan(s, [first] + rest, base, ev) ==
            (if skip then Rescan(SkipFrom(p, rest, base).0, SkipFrom(p, rest, base).1, base, ev)
             else Rescan(p, rest, base, ev))
  {
    HeadTail(first, rest);
  }

  lemma {:induction false} RunSection(sec: Items, s: State, after: seq<Line>, base: nat, ev: Evaluator)
    requires sec.Section? && WellNested(sec) && base <= |s.stack|
    ensures Rescan(s, [sec.first] + (Lines(sec.body) + (TailLines(sec.tail) + after)), base, ev) ==
            Rescan(SectionMeaning(sec, s, after, ev), after, base, ev)
    decreases sec, 0
  {
    hide Rescan, Meaning, TailMeaning;
    var lines := TailLines(sec.tail) + after;
    var s1 := Test(s, sec.first).(nextId := s.nextId + 1, atStart := false);
    var skip := Open(s, sec.first, ev).1;
    var f := Frame(TIf, if skip then 0 else 1, ControlOf(s, sec.first, skip), s.nextId);
    OpenRuns(s, sec.first, Lines(sec.body) + lines, base, ev);
    OpenedFrame(s, sec.first, ev);
    if !skip {
      RunTaken(sec.body, sec.tail, s1.(taken := s1.taken + [s.nextId]), f, after, base, ev);
    } else {
      TailDivides(sec.tail);
      SkipToTail(s1.(stack := s.stack + [f]), sec.body, lines, base);
      TailPending(sec.tail, s1, f, after, base, ev);
    }
  }

  /** A section whose group is read, and whose later groups are passed over. */
  lemma {:induction false} RunTaken(body: Items, tail: Tail, s: State, f: Frame, after: seq<Line>, base: nat,
                                    ev: Evaluator)
    requires WellNested(body) && WellNestedTail(tail) && base <= |s.stack|
    requires f.succeeded > 0 && (f.ntype == TIf || f.ntype == TElif)
    ensures var t := Meaning(body, s, TailLines(tail) + after, ev);
            Rescan(s.(stack := s.stack + [f]), Lines(body) + (TailLines(tail) + after), base, ev) ==
            Rescan(t.(recorded := if f.control.Some? && !HasElse(tail) && AllBlank(after) then f.control
                else t.recorded),
                   after, base, ev)
    decreases body, 3
  {
    RunGroup(body, s, f, TailLines(tail) + after, base, ev);
    RestAfterTaken(tail, Meaning(body, s, TailLines(tail) + after, ev), f, after, base, ev);
  }

  lemma OpenedFrame(s: State, first: Line, ev: Evaluator)
    requires Opens(first)
    ensures var (p, skip) := Open(s, first, ev);
            var s1 := Test(s, first).(nextId := s.nextId + 1, atStart := false);
            var f := Frame(TIf, if skip then 0 else 1, ControlOf(s, first, skip), s.nextId);
            && p == (if skip then s1 else s1.(taken := s1.taken + [s.nextId])).(stack := s.stack + [f])
            && (skip <==> !Holds(s, first, ev)) && (skip ==> f.control == None)
  {
  }

  /** On every well-nested sequence of lines the machine computes the meaning of the tree, from
      any state and with anything following. */
  lemma {:induction false} RunItems(items: Items, s: State, after: seq<Line>, base: nat, ev: Evaluator)
    requires WellNested(items) && base <= |s.stack|
    ensures Rescan(s, Lines(items) + after, base, ev) == Rescan(Meaning(items, s, after, ev), after, base, ev)
    decreases items, 1
  {
    match items
    case Nil => assert Lines(items) + after == after;
    case Item(l, next) =>
      Assoc([l], Lines(next), after);
      HeadTail(l, Lines(next) + after);
      RunItems(next, Plain(s, l), after, base, ev);
    case Section(first, body, tail, next) =>
      var rest := Lines(next) + after;
      SectionLines(first, body, tail, next, after);
      RunSection(items, s, rest, base, ev);
      RunItems(next, SectionMeaning(items, s, rest, ev), after, base, ev);
  }

  /** A whole well-nested file: the machine ends with the meaning of its tree, no conditional is
      left open, and there is nothing to diagnose. */
  lemma WellNestedFile(items: Items, s: State, ev: Evaluator)
    requires WellNested(items)
    ensures Rescan(s, Lines(items), |s.stack|, ev) == Meaning(items, s, [], ev)
    ensures Meaning(items, s, [], ev).errors == s.errors && Meaning(items, s, [], ev).stack == s.stack
  {
    assert Lines(items) + [] == Lines(items);
    RunItems(items, s, [], |s.stack|, ev);
    assert s.stack[..|s.stack|] == s.stack;
    NothingDiagnosed(items, s, [], ev);
  }

  lemma {:induction false} NothingDiagnosed(items: Items, s: State, after: seq<Line>, ev: Evaluator)
    requires WellNested(items)
    ensures Meaning(items, s, after, ev).errors == s.errors
    decreases items
  {
    match items
    case Nil =>
    case Item(l, next) => NothingDiagnosed(next, Plain(s, l), after, ev);
    case Section(first, body, tail, next) =>
      var rest := Lines(next) + after;
      var s1 := Test(s, first).(nextId := s.nextId + 1, atStart := false);
      NothingDiagnosed(body, s1.(taken := s1.taken + [s.nextId]), TailLines(tail) + rest, ev);
      TailNotDiagnosed(tail, s1, s.nextId, rest, ev);
      NothingDiagnosed(next, SectionMeaning(items, s, rest, ev), after, ev);
  }

  lemma {:induction false} TailNotDiagnosed(tail: Tail, s: State, id: nat, after: seq<Line>, ev: Evaluator)
    requires WellNestedTail(tail)
    ensures TailMeaning(tail, s, id, after, ev).errors == s.errors
    decreases tail
  {
    match tail
    case End =>
    case ElseTail(body) => NothingDiagnosed(body, s.(taken := s.taken + [id]), [Endif] + after, ev);
    case ElifTail(e, body, rest) =>
      var s1 := Evaluated(s, e);
      NothingDiagnosed(body, s1.(taken := s1.taken + [id]), TailLines(rest) + after, ev);
      TailNotDiagnosed(rest, s1, id, after, ev);
  }
}

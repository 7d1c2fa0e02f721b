/** The include-guard cache of cpp/cccp.c: do_endif records the macro that controls a whole file,
    and open_include_file does not open the file again while that macro is defined. */
module IncludeGuard {
  import opened Conditionals
  import opened Wrappers

  // ---------------------------------------------------------------------------------------
  // The shape of a guarded file, read off its lines

  /** What becomes of the section that is open at depth 1: it is closed by an #endif, with rest
      after it and possibly some #elif of its own before it, or it has an #else of its own, or
      the file ends first. */
  datatype Shape = Unclosed | HasOwnElse | Closed(rest: seq<Line>, ownElif: bool)

  function Scan(lines: seq<Line>, depth: nat, ownElif: bool): Shape
    requires depth >= 1
    decreases |lines|
  {
    if lines == [] then Unclosed
    else
      var l, rest := lines[0], lines[1..];
      if Opens(l) then Scan(rest, depth + 1, ownElif)
      else if l.Endif? then if depth == 1 then Closed(rest, ownElif) else Scan(rest, depth - 1, ownElif)
      else if l.Else? && depth == 1 then HasOwnElse
      else Scan(rest, depth, ownElif || (l.Elif? && depth == 1))
  }

  /** Blank lines, #ifndef of the macro, and its section up to the end of the file. */
  ghost predicate Guarded(lines: seq<Line>, m: string, ownElif: bool)
    decreases |lines|
  {
    lines != [] &&
    if lines[0].Blank? then Guarded(lines[1..], m, ownElif)
    else
      && m != "" && lines[0] == Ifndef(m)
      && var shape := Scan(lines[1..], 1, false);
         shape.Closed? && shape.ownElif == ownElif && AllBlank(shape.rest)
  }

  // ---------------------------------------------------------------------------------------
  // Skipping respects the shape

  /** Skipping moves over lines that do not matter for a section further out. */
  lemma {:induction false} SkipScan(lines: seq<Line>, stack: seq<Frame>, save: nat, base: nat, errors: seq<Error>,
                                    e: bool)
    requires base < save <= |stack|
    ensures var r := SkipIfGroup(lines, stack, save, base, errors);
            Scan(lines, |stack| - base, e) == if r.rest == [] then Unclosed else Scan(r.rest, save - base, e)
    decreases |lines|
  {
    if lines != [] {
      var l, h := lines[0], |stack|;
      if !(Divides(l) && h == save) {
        var errs := if Divides(l) && !l.Endif? && stack[h - 1].ntype == TElse then errors + [AfterElse(l)] else errors;
        SkipScan(lines[1..], SkipLine(l, stack), save, base, errs, e);
      }
    }
  }

  /** The conditionals of this file that are open, above the outermost one, control nothing. */
  ghost predicate InnerFree(stack: seq<Frame>, from: nat)
  {
    forall i :: from <= i < |stack| ==> stack[i].control == None
  }

  lemma SkipFromFacts(s: State, rest: seq<Line>, base: nat, e: bool)
    requires base < |s.stack|
    ensures var (t, after) := SkipFrom(s, rest, base);
            && t == s.(stack := t.stack, errors := t.errors)
            && (after != [] ==> t.stack == s.stack && Divides(after[0]))
            && Scan(rest, |s.stack| - base, e) == (if after == [] then Unclosed else Scan(after, |s.stack| - base, e))
  {
    SkipKeepsStack(rest, s.stack, |s.stack|, base, s.errors);
    SkipScan(rest, s.stack, |s.stack|, base, s.errors, e);
    assert s.stack[..|s.stack|] == s.stack;
  }

  // ---------------------------------------------------------------------------------------
  // What a recorded macro says about the file

  lemma OpenControls(s: State, l: Line, ev: Evaluator, base: nat)
    requires Opens(l) && base <= |s.stack| && InnerFree(s.stack, base) && !s.atStart
    ensures var s1 := Open(s, l, ev).0;
            |s1.stack| == |s.stack| + 1 && InnerFree(s1.stack, base) && !s1.atStart && s1.recorded == s.recorded
  {
  }

  lemma DivideControls(s: State, l: Line, ev: Evaluator, base: nat)
    requires (l.Elif? || l.Else?) && base < |s.stack| && InnerFree(s.stack, base) && !s.atStart
    ensures var s1 := Divide(s, l, ev).0;
            |s1.stack| == |s.stack| && InnerFree(s1.stack, base) && !s1.atStart && s1.recorded == s.recorded
  {
  }

  /** A line below no controlling conditional records nothing. */
  lemma StepControls(s: State, lines: seq<Line>, base: nat, ev: Evaluator)
    requires lines != [] && base <= |s.stack| && InnerFree(s.stack, base) && !s.atStart
    ensures var (t, after) := Step(s, lines, base, ev);
            t.recorded == s.recorded && (after != [] ==> InnerFree(t.stack, base) && !t.atStart)
  {
    hide Open, Divide, Scan, AllBlank, SkipIfGroup;
    var l, rest := lines[0], lines[1..];
    if Opens(l) {
      OpenControls(s, l, ev, base);
      SkipFromFacts(Open(s, l, ev).0, rest, base, false);
    } else if (l.Elif? || l.Else?) && |s.stack| > base {
      DivideControls(s, l, ev, base);
      SkipFromFacts(Divide(s, l, ev).0, rest, base, false);
    }
  }

  /** Without a controlling conditional nothing is recorded. */
  lemma {:induction false} NothingRecorded(s: State, lines: seq<Line>, base: nat, ev: Evaluator)
    requires base <= |s.stack| && InnerFree(s.stack, base) && !s.atStart
    ensures Rescan(s, lines, base, ev).recorded == s.recorded
    decreases |lines|
  {
    hide Step, InnerFree;
    if lines != [] {
      var (t, after) := Step(s, lines, base, ev);
      StepControls(s, lines, base, ev);
      if after != [] { NothingRecorded(t, after, base, ev); }
    }
  }

  /** Inside the outermost section of the file, which is controlled by m. */
  ghost predicate InGuard(s: State, base: nat, m: Option<string>)
  {
    && base < |s.stack| && m.Some? && s.stack[base].control == m && InnerFree(s.stack, base + 1)
    && !s.atStart && s.recorded == None
  }

  lemma OpensInGuard(s: State, lines: seq<Line>, base: nat, ev: Evaluator, m: Option<string>, e: bool)
    requires InGuard(s, base, m) && lines != [] && Opens(lines[0])
    ensures var (t, after) := Step(s, lines, base, ev);
            && (after != [] ==>
                InGuard(t, base, m) && Scan(lines, |s.stack| - base, e) == Scan(after, |t.stack| - base, e))
            && t.recorded == None
  {
    var (s1, skip) := Open(s, lines[0], ev);
    if skip { SkipFromFacts(s1, lines[1..], base, e); }
  }

  lemma DivideInGuard(s: State, l: Line, base: nat, ev: Evaluator, m: Option<string>)
    requires InGuard(s, base, m) && (l.Elif? || l.Else?) && (l.Else? ==> |s.stack| - base > 1)
    ensures var s1 := Divide(s, l, ev).0; InGuard(s1, base, m) && |s1.stack| == |s.stack|
  {
  }

  lemma DividesInGuard(s: State, lines: seq<Line>, base: nat, ev: Evaluator, m: Option<string>, e: bool)
    requires InGuard(s, base, m) && lines != [] && (lines[0].Elif? || lines[0].Else?)
    requires lines[0].Else? ==> |s.stack| - base > 1
    ensures var (t, after) := Step(s, lines, base, ev);
            var e' := e || (lines[0].Elif? && |s.stack| - base == 1);
            && (after != [] ==>
                InGuard(t, base, m) && Scan(lines, |s.stack| - base, e) == Scan(after, |t.stack| - base, e'))
            && t.recorded == None
  {
    var e' := e || (lines[0].Elif? && |s.stack| - base == 1);
    assert Scan(lines, |s.stack| - base, e) == Scan(lines[1..], |s.stack| - base, e');
    hide Divide, Scan, SkipFrom;
    DivideInGuard(s, lines[0], base, ev, m);
    SkipFromFacts(Divide(s, lines[0], ev).0, lines[1..], base, e');
  }

  /** An #else of the outermost section takes away its control. */
  lemma ElseOfGuard(s: State, lines: seq<Line>, base: nat, ev: Evaluator, m: Option<string>)
    requires InGuard(s, base, m) && lines != [] && lines[0].Else? && |s.stack| - base == 1
    ensures Rescan(s, lines, base, ev).recorded == None
  {
    var (t, after) := Step(s, lines, base, ev);
    var (s1, skip) := Divide(s, lines[0], ev);
    if skip { SkipFromFacts(s1, lines[1..], base, false); }
    if after != [] { NothingRecorded(t, after, base, ev); }
  }

  lemma EndOfGuard(s: State, lines: seq<Line>, base: nat, ev: Evaluator, m: Option<string>)
    requires InGuard(s, base, m) && lines != [] && lines[0].Endif? && |s.stack| - base == 1
    ensures Rescan(s, lines, base, ev).recorded == if AllBlank(lines[1..]) then m else None
  {
    NothingRecorded(Step(s, lines, base, ev).0, lines[1..], base, ev);
  }

  /** A line that leaves the outermost section open and has not taken its control. */
  lemma StepInGuard(s: State, lines: seq<Line>, base: nat, ev: Evaluator, m: Option<string>, e: bool)
    requires InGuard(s, base, m) && lines != []
    requires |s.stack| - base == 1 ==> !lines[0].Endif? && !lines[0].Else?
    ensures var (t, after) := Step(s, lines, base, ev);
            var e' := e || (lines[0].Elif? && |s.stack| - base == 1);
            && (after != [] ==>
                InGuard(t, base, m) && Scan(lines, |s.stack| - base, e) == Scan(after, |t.stack| - base, e'))
            && t.recorded == None
  {
    var l := lines[0];
    if Opens(l) {
      OpensInGuard(s, lines, base, ev, m, e);
    } else if l.Elif? || l.Else? {
      DividesInGuard(s, lines, base, ev, m, e);
    } else {
      hide Open, Divide, SkipFrom, AllBlank;
    }
  }

  lemma ReadsNothing(s: State, base: nat, ev: Evaluator)
    requires base <= |s.stack|
    ensures Rescan(s, [], base, ev).recorded == s.recorded
  {
  }

  /** A file whose reading records a macro, seen from a point inside its outermost section. */
  lemma {:induction false} RecordedMeansClosed(s: State, lines: seq<Line>, base: nat, ev: Evaluator,
                                               m: Option<string>, e: bool)
    requires InGuard(s, base, m)
    ensures var t := Rescan(s, lines, base, ev);
            t.recorded.Some? ==>
              var shape := Scan(lines, |s.stack| - base, e);
              shape.Closed? && AllBlank(shape.rest) && t.recorded == m
    decreases |lines|
  {
    hide Step, InnerFree, AllBlank;
    if lines != [] {
      var l := lines[0];
      var (t, after) := Step(s, lines, base, ev);
      if l.Endif? && |s.stack| - base == 1 {
        EndOfGuard(s, lines, base, ev, m);
      } else if l.Else? && |s.stack| - base == 1 {
        ElseOfGuard(s, lines, base, ev, m);
      } else {
        StepInGuard(s, lines, base, ev, m, e);
        hide Scan, InGuard;
        var e' := e || (l.Elif? && |s.stack| - base == 1);
        if after != [] { RecordedMeansClosed(t, after, base, ev, m, e'); } else { ReadsNothing(t, base, ev); }
      }
    }
  }

  /** A macro is recorded for a file only if the file is guarded by it. */
  lemma {:induction false} RecordedMeansGuarded(s: State, lines: seq<Line>, base: nat, ev: Evaluator)
    requires base == |s.stack| && s.recorded == None && s.atStart
    ensures var t := Rescan(s, lines, base, ev);
            t.recorded.Some? ==> exists elif :: Guarded(lines, t.recorded.value, elif)
    decreases |lines|
  {
    if lines != [] {
      var l, rest := lines[0], lines[1..];
      var (t, after) := Step(s, lines, base, ev);
      if l.Blank? {
        RecordedMeansGuarded(t, rest, base, ev);
        var u := Rescan(t, rest, base, ev);
        if u.recorded.Some? {
          var elif :| Guarded(rest, u.recorded.value, elif);
          assert Guarded(lines, u.recorded.value, elif);
        }
      } else if Opens(l) {
        var (s1, skip) := Open(s, l, ev);
        if !skip && s1.stack[base].control.Some? {
          RecordedMeansClosed(s1, rest, base, ev, s1.stack[base].control, false);
          if Rescan(s1, rest, base, ev).recorded.Some? {
            assert Guarded(lines, l.m, Scan(rest, 1, false).ownElif);
          }
        } else {
          if skip { SkipFromFacts(s1, rest, base, false); }
          if after != [] { NothingRecorded(t, after, base, ev); }
        }
      } else {
        NothingRecorded(t, after, base, ev);
      }
    }
  }

  // ---------------------------------------------------------------------------------------
  // Reading a guarded file again while its macro is defined

  /** Everything a reading can change except its diagnostics and the numbering of sections. */
  ghost predicate SameEffect(s: State, t: State)
  {
    s.macros == t.macros && s.stack == t.stack && s.out == t.out && s.evals == t.evals && s.taken == t.taken
    && s.recorded == t.recorded
  }

  lemma {:induction false} BlankDoesNothing(s: State, lines: seq<Line>, base: nat, ev: Evaluator)
    requires base == |s.stack| && AllBlank(lines)
    ensures Rescan(s, lines, base, ev) == s
    decreases |lines|
  {
    if lines == [] {
      assert s.stack[..base] == s.stack;
    } else {
      BlankDoesNothing(s, lines[1..], base, ev);
    }
  }

  /** A section with no #else or #elif of its own is skipped up to its #endif. */
  lemma {:induction false} SkipsToEndif(lines: seq<Line>, stack: seq<Frame>, base: nat, errors: seq<Error>, e: bool)
    requires base < |stack|
    requires Scan(lines, |stack| - base, e).Closed? && !Scan(lines, |stack| - base, e).ownElif
    ensures var r := SkipIfGroup(lines, stack, base + 1, base, errors);
            r.rest == [Endif] + Scan(lines, |stack| - base, e).rest
    decreases |lines|
  {
    var l, h := lines[0], |stack|;
    OwnElifStays(lines, h - base, e);
    if Divides(l) && h == base + 1 {
      if l.Elif? { OwnElifStays(lines[1..], 1, true); }
      assert lines == [l] + lines[1..];
    } else {
      var errs := if Divides(l) && !l.Endif? && stack[h - 1].ntype == TElse then errors + [AfterElse(l)] else errors;
      SkipsToEndif(lines[1..], SkipLine(l, stack), base, errs, e);
    }
  }

  lemma {:induction false} OwnElifStays(lines: seq<Line>, depth: nat, e: bool)
    requires depth >= 1
    ensures e && Scan(lines, depth, e).Closed? ==> Scan(lines, depth, e).ownElif
    decreases |lines|
  {
    if lines != [] {
      var l := lines[0];
      if Opens(l) { OwnElifStays(lines[1..], depth + 1, e); }
      else if l.Endif? { if depth > 1 { OwnElifStays(lines[1..], depth - 1, e); } }
      else { OwnElifStays(lines[1..], depth, e || (l.Elif? && depth == 1)); }
    }
  }

  /** With an #elif of its own the section is skipped only up to the first one. */
  lemma {:induction false} SkipsToElif(lines: seq<Line>, stack: seq<Frame>, base: nat, errors: seq<Error>)
    requires base < |stack|
    requires Scan(lines, |stack| - base, false).Closed? && Scan(lines, |stack| - base, false).ownElif
    ensures var r := SkipIfGroup(lines, stack, base + 1, base, errors);
            r.rest != [] && r.rest[0].Elif?
    decreases |lines|
  {
    var l, h := lines[0], |stack|;
    if !(Divides(l) && h == base + 1) {
      var errs := if Divides(l) && !l.Endif? && stack[h - 1].ntype == TElse then errors + [AfterElse(l)] else errors;
      SkipsToElif(lines[1..], SkipLine(l, stack), base, errs);
    }
  }

  /** A line adds to the logs. */
  lemma StepLogs(s: State, lines: seq<Line>, base: nat, ev: Evaluator)
    requires lines != [] && base <= |s.stack|
    ensures var t := Step(s, lines, base, ev).0; |t.evals| >= |s.evals| && |t.taken| >= |s.taken|
  {
    hide SkipIfGroup, AllBlank;
  }

  lemma {:induction false} LogsGrow(s: State, lines: seq<Line>, base: nat, ev: Evaluator)
    requires base <= |s.stack|
    ensures var t := Rescan(s, lines, base, ev); |t.evals| >= |s.evals| && |t.taken| >= |s.taken|
    decreases |lines|
  {
    hide Step;
    if lines != [] {
      var (t, after) := Step(s, lines, base, ev);
      StepLogs(s, lines, base, ev);
      LogsGrow(t, after, base, ev);
    }
  }

  /** The #ifndef skips up to the next directive of its section, and controls nothing. */
  lemma SkipsGuard(s: State, lines: seq<Line>, m: string, base: nat, ev: Evaluator)
    requires base == |s.stack| && lines != [] && lines[0] == Ifndef(m) && m in s.macros
    requires Scan(lines[1..], 1, false).Closed?
    ensures var (q, after) := Step(s, lines, base, ev);
            var p := Open(s, lines[0], ev).0;
            && |q.stack| == base + 1 && q.Top().succeeded == 0 && q.Top().control == None && q.stack[..base] == s.stack
            && q.macros == s.macros && q.out == s.out && q.evals == s.evals && q.taken == s.taken &&
                q.recorded == s.recorded
            && p.stack == q.stack && (q, after) == SkipFrom(p, lines[1..], base)
            && after != [] && Divides(after[0]) && Scan(lines[1..], 1, false) == Scan(after, 1, false)
  {
    var (p, skip) := Open(s, lines[0], ev);
    assert skip && p.stack[..base] == s.stack;
    SkipFromFacts(p, lines[1..], base, false);
  }

  /** Reading again, from the #ifndef on. */
  lemma ReadAgain(s: State, lines: seq<Line>, m: string, base: nat, ev: Evaluator)
    requires base == |s.stack| && lines != [] && lines[0] == Ifndef(m) && m in s.macros
    requires var shape := Scan(lines[1..], 1, false); shape.Closed? && AllBlank(shape.rest)
    ensures var t := Rescan(s, lines, base, ev);
            if Scan(lines[1..], 1, false).ownElif then |t.evals| > |s.evals| else SameEffect(s, t)
  {
    hide Open, Scan, SkipIfGroup;
    var rest, shape := lines[1..], Scan(lines[1..], 1, false);
    var p := Open(s, lines[0], ev).0;
    var (q, after) := Step(s, lines, base, ev);
    SkipsGuard(s, lines, m, base, ev);
    if shape.ownElif {
      SkipsToElif(rest, p.stack, base, p.errors);
      var (u, last) := Step(q, after, base, ev);
      LogsGrow(u, last, base, ev);
    } else {
      SkipsToEndif(rest, p.stack, base, p.errors, false);
      assert after[1..] == shape.rest;
      BlankDoesNothing(Close(q, shape.rest), shape.rest, base, ev);
    }
  }

  /** Reading a guarded file again while its macro is defined does nothing at all, not even evaluate
      a condition, if and only if its outermost section has no #elif of its own. */
  lemma {:induction false} SkippingIsSoundIff(s: State, lines: seq<Line>, m: string, ownElif: bool, base: nat,
                                              ev: Evaluator)
    requires base == |s.stack| && Guarded(lines, m, ownElif) && m in s.macros
    ensures SameEffect(s, Rescan(s, lines, base, ev)) <==> !ownElif
    decreases |lines|
  {
    if lines[0].Blank? {
      SkippingIsSoundIff(s, lines[1..], m, ownElif, base, ev);
    } else {
      ReadAgain(s, lines, m, base, ev);
    }
  }

  // ---------------------------------------------------------------------------------------
  // What the cache hides

  /** The conditions of the #elifs of the section that is open at depth 1. */
  function OwnElifs(lines: seq<Line>, depth: nat): seq<string>
    requires depth >= 1
    decreases |lines|
  {
    if lines == [] then []
    else
      var l, rest := lines[0], lines[1..];
      if Opens(l) then OwnElifs(rest, depth + 1)
      else if l.Endif? then if depth == 1 then [] else OwnElifs(rest, depth - 1)
      else if l.Elif? && depth == 1 then [l.e] + OwnElifs(rest, 1)
      else OwnElifs(rest, depth)
  }

  /** The conditions of the #elifs of the guarding section of a file. */
  function GuardElifs(lines: seq<Line>): seq<string>
    decreases |lines|
  {
    if lines == [] then [] else if lines[0].Blank? then GuardElifs(lines[1..]) else OwnElifs(lines[1..], 1)
  }

  lemma {:induction false} SkipElifs(lines: seq<Line>, stack: seq<Frame>, base: nat, errors: seq<Error>)
    requires base < |stack|
    ensures var r := SkipIfGroup(lines, stack, base + 1, base, errors);
            OwnElifs(lines, |stack| - base) == OwnElifs(r.rest, 1)
    decreases |lines|
  {
    if lines != [] {
      var l, h := lines[0], |stack|;
      if !(Divides(l) && h == base + 1) {
        var errs := if Divides(l) && !l.Endif? && stack[h - 1].ntype == TElse then errors + [AfterElse(l)] else errors;
        SkipElifs(lines[1..], SkipLine(l, stack), base, errs);
      }
    }
  }

  /** Everything a reading can change except its diagnostics, the conditions it evaluates and the
      numbering of sections. */
  ghost predicate SameText(s: State, t: State)
  {
    s.macros == t.macros && s.stack == t.stack && s.out == t.out && s.taken == t.taken && s.recorded == t.recorded
  }

  /** One of the conditions holds. */
  predicate SomeHolds(conditions: seq<string>, macros: Macros, ev: Evaluator)
  {
    exists i :: 0 <= i < |conditions| && ev(conditions[i], macros) != 0
  }

  lemma FirstOrRest(e: string, conditions: seq<string>, macros: Macros, ev: Evaluator)
    ensures SomeHolds([e] + conditions, macros, ev) <==> ev(e, macros) != 0 || SomeHolds(conditions, macros, ev)
  {
    var all := [e] + conditions;
    assert all[0] == e;
    forall i | 0 <= i < |conditions| ensures all[i + 1] == conditions[i] {}
    if SomeHolds(conditions, macros, ev) {
      var i :| 0 <= i < |conditions| && ev(conditions[i], macros) != 0;
      assert ev(all[i + 1], macros) != 0;
    }
  }

  /** At a directive of a section of which no group was taken, and which controls nothing. */
  ghost predicate AtDirective(s: State, lines: seq<Line>, base: nat, e: bool)
  {
    && |s.stack| == base + 1 && s.Top().succeeded == 0 && s.Top().control == None
    && lines != [] && Divides(lines[0])
    && Scan(lines, 1, e).Closed? && AllBlank(Scan(lines, 1, e).rest)
  }

  lemma ElifNotTaken(s: State, lines: seq<Line>, base: nat, ev: Evaluator, e: bool)
    requires AtDirective(s, lines, base, e) && lines[0].Elif? && ev(lines[0].e, s.macros) == 0
    ensures var (t, after) := Step(s, lines, base, ev);
            && AtDirective(t, after, base, true)
            && t.stack[..base] == s.stack[..base] && t.macros == s.macros && t.out == s.out && t.taken == s.taken
            && t.recorded == s.recorded && OwnElifs(lines, 1) == [lines[0].e] + OwnElifs(after, 1)
  {
    var (s1, skip) := Divide(s, lines[0], ev);
    assert skip;
    SkipFromFacts(s1, lines[1..], base, true);
    SkipElifs(lines[1..], s1.stack, base, s1.errors);
  }

  lemma {:induction false} ReadOn(s: State, lines: seq<Line>, base: nat, ev: Evaluator, e: bool)
    requires AtDirective(s, lines, base, e)
    ensures var t := Rescan(s, lines, base, ev);
            if SomeHolds(OwnElifs(lines, 1), s.macros, ev) then |t.taken| > |s.taken| else SameText(s.Pop(), t)
    decreases |lines|
  {
    var (t, after) := Step(s, lines, base, ev);
    if lines[0].Endif? {
      assert t.stack == s.stack[..base] && t.recorded == s.recorded;
      BlankDoesNothing(t, lines[1..], base, ev);
    } else if lines[0].Elif? {
      if ev(lines[0].e, s.macros) == 0 {
        ElifNotTaken(s, lines, base, ev, e);
        FirstOrRest(lines[0].e, OwnElifs(after, 1), s.macros, ev);
        ReadOn(t, after, base, ev, true);
      } else {
        FirstOrRest(lines[0].e, OwnElifs(lines[1..], 1), s.macros, ev);
        LogsGrow(t, after, base, ev);
      }
    }
  }

  /** Reading a guarded file again while its macro is defined takes a group if and only if the
      condition of one of its own #elifs holds; otherwise it changes neither macros nor output. */
  lemma {:induction false} HidesTextIff(s: State, lines: seq<Line>, m: string, ownElif: bool, base: nat, ev: Evaluator)
    requires base == |s.stack| && Guarded(lines, m, ownElif) && m in s.macros
    ensures var t := Rescan(s, lines, base, ev);
            if SomeHolds(GuardElifs(lines), s.macros, ev) then |t.taken| > |s.taken| else SameText(s, t)
    decreases |lines|
  {
    if lines[0].Blank? {
      HidesTextIff(s, lines[1..], m, ownElif, base, ev);
    } else {
      hide Open, Scan, SkipIfGroup;
      SkipsGuard(s, lines, m, base, ev);
      var p := Open(s, lines[0], ev).0;
      var (q, after) := Step(s, lines, base, ev);
      SkipElifs(lines[1..], p.stack, base, p.errors);
      ReadOn(q, after, base, ev, false);
    }
  }

  /** The cache hides text: this file is recorded as guarded by M, but read again while X holds it
      would emit its second group. */
  lemma ElifIsHidden(s: State, ev: Evaluator)
    requires s.recorded == None && s.atStart && s.stack == [] && "M" !in s.macros
    requires ev("X", s.macros["M" := ""]) != 0
    ensures var lines := [Ifndef("M"), Define("M", ""), Elif("X"), Text("t"), Endif];
            var t := Rescan(s, lines, 0, ev);
            && t.recorded == Some("M") && "M" in t.macros
            && Rescan(t, lines, 0, ev).out == t.out + [Emitted("t", t.macros)]
  {
    hide Rescan, Step;
    var sec := Section(Ifndef("M"), Item(Define("M", ""), Nil), ElifTail("X", Item(Text("t"), Nil), End), Nil);
    var lines := [Ifndef("M"), Define("M", ""), Elif("X"), Text("t"), Endif];
    assert Lines(sec) == lines by {
      assert Lines(Item(Define("M", ""), Nil)) == [Define("M", "")];
      assert Lines(Item(Text("t"), Nil)) == [Text("t")];
      assert TailLines(sec.tail) == [Elif("X"), Text("t"), Endif];
    }
    WellNestedFile(sec, s, ev);
    var t := Rescan(s, lines, 0, ev);
    WellNestedFile(sec, t, ev);
  }
}

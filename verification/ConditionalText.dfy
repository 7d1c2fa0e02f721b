/** What lines outside conditionals do, and that the conditions of #ifdef and #ifndef see it: stated on the
    lines, without the functions by which the machine reads them. */
module ConditionalText {
  import opened Conditionals
  import opened Wrappers

  predicate IsPlain(l: Line) { l.Blank? || l.Text? || l.Define? || l.Undef? }

  predicate AllPlain(lines: seq<Line>) { forall k :: 0 <= k < |lines| ==> IsPlain(lines[k]) }

  predicate Mentions(l: Line, m: string) { (l.Define? || l.Undef?) && l.m == m }

  /** The k-th line is the last that defines or undefines m. */
  predicate LastMention(lines: seq<Line>, k: int, m: string)
  {
    0 <= k < |lines| && Mentions(lines[k], m) && forall j :: k < j < |lines| ==> !Mentions(lines[j], m)
  }

  /** A name is defined, with its body, by the last line that mentions it, or as it was before. */
  ghost predicate Settled(before: Macros, lines: seq<Line>, after: Macros, m: string)
  {
    && (forall k :: LastMention(lines, k, m) ==>
          (m in after <==> lines[k].Define?) && (lines[k].Define? ==> after[m] == lines[k].body))
    && ((forall k :: 0 <= k < |lines| ==> !Mentions(lines[k], m)) ==>
          (m in after <==> m in before) && (m in before ==> after[m] == before[m]))
  }

  /** The lines of text, in order. */
  function TextsOf(lines: seq<Line>): seq<string>
  {
    if lines == [] then []
    else (if lines[0].Text? then [lines[0].t] else []) + TextsOf(lines[1..])
  }

  function Shown(out: seq<Emitted>): (r: seq<string>)
    ensures |r| == |out| && forall k :: 0 <= k < |out| ==> r[k] == out[k].t
  {
    seq(|out|, k requires 0 <= k < |out| => out[k].t)
  }

  lemma ShownOfBoth(a: seq<Emitted>, b: seq<Emitted>)
    ensures Shown(a + b) == Shown(a) + Shown(b)
  {
  }

  /** Text is emitted, definitions take effect, and nothing else happens. */
  ghost predicate Acts(s: State, lines: seq<Line>, t: State)
  {
    && Shown(t.out) == Shown(s.out) + TextsOf(lines)
    && (forall m :: Settled(s.macros, lines, t.macros, m))
    && t.stack == s.stack && t.errors == s.errors && t.evals == s.evals && t.taken == s.taken
  }

  lemma SettledFront(before: Macros, l: Line, lines: seq<Line>, mid: Macros, after: Macros, m: string)
    requires Settled(before, [l], mid, m) && Settled(mid, lines, after, m)
    ensures Settled(before, [l] + lines, after, m)
  {
    var all := [l] + lines;
    assert forall k :: 1 <= k < |all| ==> all[k] == lines[k - 1];
    assert all[0] == l && [l][0] == l;
    forall k | LastMention(all, k, m)
      ensures (m in after <==> all[k].Define?) && (all[k].Define? ==> after[m] == all[k].body)
    {
      if k == 0 {
        assert LastMention([l], 0, m);
        forall j | 0 <= j < |lines| ensures !Mentions(lines[j], m) { assert lines[j] == all[j + 1]; }
      } else {
        forall j | k - 1 < j < |lines| ensures !Mentions(lines[j], m) { assert lines[j] == all[j + 1]; }
        assert LastMention(lines, k - 1, m);
      }
    }
    if forall k :: 0 <= k < |all| ==> !Mentions(all[k], m) {
      assert !Mentions(all[0], m);
      forall j | 0 <= j < |lines| ensures !Mentions(lines[j], m) { assert lines[j] == all[j + 1]; }
    }
  }

  lemma OneLine(s: State, l: Line)
    requires IsPlain(l)
    ensures Acts(s, [l], Plain(s, l))
  {
    assert [l][1..] == [];
    if l.Text? { ShownOfBoth(s.out, [Emitted(l.t, s.macros)]); }
    forall m ensures Settled(s.macros, [l], Plain(s, l).macros, m) {
      assert forall k :: LastMention([l], k, m) ==> k == 0;
    }
  }

  lemma ActsFront(s: State, l: Line, mid: State, lines: seq<Line>, t: State)
    requires Acts(s, [l], mid) && Acts(mid, lines, t)
    ensures Acts(s, [l] + lines, t)
  {
    hide Settled, Shown;
    forall m ensures Settled(s.macros, [l] + lines, t.macros, m) {
      SettledFront(s.macros, l, lines, mid.macros, t.macros, m);
    }
    TextsFront(l, lines);
    Grouped(Shown(s.out), TextsOf([l]), TextsOf(lines));
  }

  lemma TextsFront(l: Line, lines: seq<Line>)
    ensures TextsOf([l] + lines) == TextsOf([l]) + TextsOf(lines)
  {
    var own := if l.Text? then [l.t] else [];
    assert ([l] + lines)[1..] == lines && [l][1..] == [];
    assert TextsOf([l]) == own + [] == own;
  }

  lemma Grouped(a: seq<string>, b: seq<string>, c: seq<string>)
    ensures (a + b) + c == a + (b + c)
  {
  }

  /** A file without conditionals: its text is emitted in order, and each name ends up as the last line
      that mentions it says. */
  lemma {:induction false} PlainFile(s: State, lines: seq<Line>, ev: Evaluator)
    requires AllPlain(lines)
    ensures Acts(s, lines, Rescan(s, lines, |s.stack|, ev))
    decreases |lines|
  {
    hide Acts;
    if lines == [] {
      NothingActs(s, |s.stack|, ev);
    } else {
      var mid := Plain(s, lines[0]);
      OneLine(s, lines[0]);
      PlainFile(mid, lines[1..], ev);
      ActsFront(s, lines[0], mid, lines[1..], Rescan(mid, lines[1..], |s.stack|, ev));
      assert [lines[0]] + lines[1..] == lines;
    }
  }

  lemma NothingActs(s: State, base: nat, ev: Evaluator)
    requires base == |s.stack|
    ensures Acts(s, [], Rescan(s, [], base, ev))
  {
    assert s.stack[..base] == s.stack;
    assert Shown(s.out) + [] == Shown(s.out);
  }

  /** The group of an #ifdef is read if and only if the last line before it that mentions the name
      defines it, and that of an #ifndef if and only if it does not. */
  lemma ConditionSeesDefinition(s: State, lines: seq<Line>, k: nat, m: string, ev: Evaluator)
    requires AllPlain(lines) && LastMention(lines, k, m)
    ensures var t := Rescan(s, lines, |s.stack|, ev);
            && (Holds(t, Ifdef(m), ev) <==> lines[k].Define?)
            && (Holds(t, Ifndef(m), ev) <==> lines[k].Undef?)
  {
    hide Rescan;
    PlainFile(s, lines, ev);
    assert Settled(s.macros, lines, Rescan(s, lines, |s.stack|, ev).macros, m);
  }

  // ---------------------------------------------------------------------------------------
  // Files that are not well nested

  /** A directive that divides or ends a conditional is diagnosed where none is open, and what follows it
      is read as if it were not there, except that the file no longer begins. */
  lemma StrayIsDiagnosed(s: State, items: Items, l: Line, after: seq<Line>, ev: Evaluator)
    requires WellNested(items) && Divides(l)
    ensures var t := Meaning(items, s, [l] + after, ev);
            Rescan(s, Lines(items) + ([l] + after), |s.stack|, ev)
            == Rescan(t.(errors := s.errors + [NotWithin(l)], atStart := false), after, |s.stack|, ev)
  {
    RunItems(items, s, [l] + after, |s.stack|, ev);
    NothingDiagnosed(items, s, [l] + after, ev);
    HeadTail(l, after);
    hide Meaning, Lines;
  }

  /** A conditional that is open at the end of the file is diagnosed, whether its group is read or not. */
  lemma OpenAtEndIsDiagnosed(s: State, first: Line, body: Items, ev: Evaluator)
    requires Opens(first) && WellNested(body)
    ensures var t := Rescan(s, [first] + Lines(body), |s.stack|, ev);
            t.errors == s.errors + [Unterminated] && t.stack == s.stack
  {
    var (p, skip) := Open(s, first, ev);
    var base, n := |s.stack|, |p.stack|;
    OpenRuns(s, first, Lines(body), base, ev);
    assert Lines(body) + [] == Lines(body) && p.stack[..base] == s.stack;
    if skip {
      SkipItems(body, [], p.stack, n, base, p.errors);
      assert SkipFrom(p, Lines(body), base) == (p, []);
      AtEnd(p, base, ev);
    } else {
      RunItems(body, p, [], base, ev);
      NothingDiagnosed(body, p, [], ev);
      AtEnd(Meaning(body, p, [], ev), base, ev);
    }
  }

  lemma AtEnd(s: State, base: nat, ev: Evaluator)
    requires base < |s.stack|
    ensures var t := Rescan(s, [], base, ev); t.errors == s.errors + [Unterminated] && t.stack == s.stack[..base]
  {
  }

  /** Inside a conditional behind its #else, another #else or #elif is diagnosed, and its group is passed
      over, whatever its condition. */
  lemma SecondElseIsDiagnosed(s: State, f: Frame, l: Line, last: Items, after: seq<Line>, ev: Evaluator)
    requires f.ntype == TElse && f.succeeded > 0 && f.control == None && WellNested(last) && (l.Else? || l.Elif?)
    ensures var base := |s.stack|;
            Rescan(s.(stack := s.stack + [f]), [l] + (Lines(last) + ([Endif] + after)), base, ev)
            == Rescan(s.(errors := s.errors + [AfterElse(l)]), after, base, ev)
  {
    var s0, lines := s.(stack := s.stack + [f]), [Endif] + after;
    HeadTail(l, Lines(last) + lines);
    HeadTail(Endif, after);
    assert s0.stack[..|s0.stack| - 1] == s.stack;
    var g := f.(ntype := TypeOf(l));
    var s1 := s.(stack := s.stack + [g], errors := s.errors + [AfterElse(l)]);
    assert Divide(s0, l, ev) == (s1, true);
    SkipToTail(s1, last, lines, |s.stack|);
    assert s1.Pop() == s.(errors := s.errors + [AfterElse(l)]);
  }

  lemma ReadsElse(s: State, f: Frame, rest: seq<Line>, ev: Evaluator)
    requires f.ntype == TIf || f.ntype == TElif
    ensures var base, g := |s.stack|, f.(ntype := TElse, control := None);
            Rescan(s.(stack := s.stack + [f]), [Else] + rest, base, ev)
            == if f.succeeded > 0 then
                 var k := SkipFrom(s.(stack := s.stack + [g]), rest, base);
                 Rescan(k.0, k.1, base, ev)
               else Rescan(s.(taken := s.taken + [f.id], stack := s.stack + [g.(succeeded := 1)]), rest, base, ev)
  {
    hide SkipFrom;
    var s0 := s.(stack := s.stack + [f]);
    HeadTail(Else, rest);
    assert s0.stack[..|s0.stack| - 1] == s.stack;
  }

  /** The group behind an #else is read if and only if no group before it was; then the conditional is as
      the lemma above takes it. */
  lemma ElseIsRead(s: State, f: Frame, middle: Items, after: seq<Line>, ev: Evaluator)
    requires (f.ntype == TIf || f.ntype == TElif) && WellNested(middle) && after != [] && Divides(after[0])
    ensures var base, g := |s.stack|, f.(ntype := TElse, control := None);
            Rescan(s.(stack := s.stack + [f]), [Else] + (Lines(middle) + after), base, ev)
            == if f.succeeded > 0 then Rescan(s.(stack := s.stack + [g]), after, base, ev)
               else
                 var t := Meaning(middle, s.(taken := s.taken + [f.id]), after, ev);
                 Rescan(t.(stack := s.stack + [g.(succeeded := 1)]), after, base, ev)
  {
    hide Rescan, SkipFrom, Meaning;
    ReadsElse(s, f, Lines(middle) + after, ev);
    var g := f.(ntype := TElse, control := None);
    if f.succeeded > 0 {
      SkipToTail(s.(stack := s.stack + [g]), middle, after, |s.stack|);
    } else {
      RunGroup(middle, s.(taken := s.taken + [f.id]), g.(succeeded := 1), after, |s.stack|, ev);
    }
  }
}

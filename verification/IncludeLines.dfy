/** Which files a printed #include line names, which lines of a text mkdep sees, and which names are
    those of sources: stated on the text of the lines, without the functions that take them apart. */
module IncludeLines {
  import opened LineReader
  import opened MakeDeps
  import opened Wrappers

  // ---------------------------------------------------------------------------------------
  // One line

  /** The k-th directory is the first that has the file. */
  predicate FirstThatHas(dirs: seq<string>, k: int, name: string, readable: set<string>)
  {
    && 0 <= k < |dirs| && dirs[k] + "/" + name in readable
    && forall j :: 0 <= j < k ==> dirs[j] + "/" + name !in readable
  }

  /** ts is the file in the first directory that has it, if there is one, and after it the file under
      its own name if that is asked for and it is readable. */
  ghost predicate FirstAndOwn(ts: seq<string>, dirs: seq<string>, name: string, readable: set<string>, own: bool)
  {
    var last := if own && name in readable then [name] else [];
    && (forall k :: FirstThatHas(dirs, k, name, readable) ==> ts == [dirs[k] + "/" + name] + last)
    && ((forall k :: 0 <= k < |dirs| ==> dirs[k] + "/" + name !in readable) ==> ts == last)
  }

  lemma {:induction false} DirectoryFound(dirs: seq<string>, i: nat, k: int, name: string, readable: set<string>)
    requires i <= k && FirstThatHas(dirs, k, name, readable)
    ensures InDirectories(dirs, i, name, readable) == [dirs[k] + "/" + name]
    decreases k - i
  {
    if i < k { DirectoryFound(dirs, i + 1, k, name, readable); }
  }

  lemma {:induction false} NoDirectory(dirs: seq<string>, i: nat, name: string, readable: set<string>)
    requires i <= |dirs| && forall k :: 0 <= k < |dirs| ==> dirs[k] + "/" + name !in readable
    ensures InDirectories(dirs, i, name, readable) == []
    decreases |dirs| - i
  {
    if i < |dirs| { NoDirectory(dirs, i + 1, name, readable); }
  }

  lemma Searched(dirs: seq<string>, name: string, readable: set<string>, own: bool)
    ensures FirstAndOwn(InDirectories(dirs, 0, name, readable) + if own && name in readable then [name] else [],
                        dirs, name, readable, own)
  {
    forall k | FirstThatHas(dirs, k, name, readable)
      ensures InDirectories(dirs, 0, name, readable) == [dirs[k] + "/" + name]
    {
      DirectoryFound(dirs, 0, k, name, readable);
    }
    if forall k :: 0 <= k < |dirs| ==> dirs[k] + "/" + name !in readable {
      NoDirectory(dirs, 0, name, readable);
    }
  }

  lemma {:induction false} FindsFirst(line: string, c: char, p: nat, k: nat)
    requires p <= k < |line| && line[k] == c && forall i :: p <= i < k ==> line[i] != c
    ensures Find(line, c, p) == k
    decreases k - p
  {
    if p < k { FindsFirst(line, c, p + 1, k); }
  }

  lemma {:induction false} FindsNone(line: string, c: char, p: nat)
    requires p <= |line| && forall i :: p <= i < |line| ==> line[i] != c
    ensures Find(line, c, p) == |line|
    decreases |line| - p
  {
    if p < |line| { FindsNone(line, c, p + 1); }
  }

  /** A directive: # comes first, and include stands somewhere behind it. */
  predicate Directive(line: string, gap: string, tail: string)
  {
    line == "#" + gap + "include" + tail
  }

  lemma DirectiveIsSeen(line: string, gap: string, tail: string)
    requires Directive(line, gap, tail)
    ensures IsDirective(line)
  {
    assert line[1 + |gap|..1 + |gap| + 7] == "include";
    assert IncludeAt(line, 1 + |gap|);
  }

  /** What stands before the name, between brackets of the given kind, and what is behind it. */
  predicate Encloses(line: string, before: string, open: char, name: string, close: char, after: string)
  {
    line == before + [open] + name + [close] + after && open !in before && close !in name
  }

  lemma Enclosed(line: string, before: string, open: char, name: string, close: char, after: string)
    requires Encloses(line, before, open, name, close, after)
    ensures var p := |before|;
            && Find(line, open, 0) == p && p < |line|
            && Find(line, close, p + 1) == p + 1 + |name| < |line| && line[p + 1..p + 1 + |name|] == name
  {
    var p := |before|;
    FindsFirst(line, open, 0, p);
    assert forall i :: p + 1 <= i < p + 1 + |name| ==> line[i] == name[i - p - 1];
    FindsFirst(line, close, p + 1, p + 1 + |name|);
  }

  /** A name in quotes is looked for in the directories and then under its own name. */
  lemma QuotedName(line: string, gap: string, tail: string, before: string, name: string, after: string,
                   dirs: seq<string>, readable: set<string>)
    requires Directive(line, gap, tail) && '<' !in line && Encloses(line, before, '"', name, '"', after)
    ensures FirstAndOwn(LineTargets(line, dirs, readable), dirs, name, readable, true)
  {
    DirectiveIsSeen(line, gap, tail);
    FindsNone(line, '<', 0);
    Enclosed(line, before, '"', name, '"', after);
    Searched(dirs, name, readable, true);
  }

  /** A name in angle brackets is looked for in the directories only, quotes or not. */
  lemma BracketedName(line: string, gap: string, tail: string, before: string, name: string, after: string,
                      dirs: seq<string>, readable: set<string>)
    requires Directive(line, gap, tail) && Encloses(line, before, '<', name, '>', after)
    ensures FirstAndOwn(LineTargets(line, dirs, readable), dirs, name, readable, false)
  {
    DirectiveIsSeen(line, gap, tail);
    Enclosed(line, before, '<', name, '>', after);
    Searched(dirs, name, readable, false);
  }

  /** The two lines as they are usually written. */
  lemma QuotedLine(name: string, dirs: seq<string>, readable: set<string>)
    requires '"' !in name && '<' !in name
    ensures FirstAndOwn(LineTargets("#include \"" + name + "\"", dirs, readable), dirs, name, readable, true)
  {
    hide LineTargets, FirstAndOwn;
    var line := "#include \"" + name + "\"";
    assert line == "#" + "" + "include" + (" \"" + name + "\"");
    assert line == "#include " + ['"'] + name + ['"'] + "";
    QuotedName(line, "", " \"" + name + "\"", "#include ", name, "", dirs, readable);
  }

  lemma BracketedLine(name: string, dirs: seq<string>, readable: set<string>)
    requires '>' !in name
    ensures FirstAndOwn(LineTargets("#include <" + name + ">", dirs, readable), dirs, name, readable, false)
  {
    hide LineTargets, FirstAndOwn;
    var line := "#include <" + name + ">";
    assert line == "#" + "" + "include" + (" <" + name + ">");
    assert line == "#include " + ['<'] + name + ['>'] + "";
    BracketedName(line, "", " <" + name + ">", "#include ", name, "", dirs, readable);
  }

  ghost predicate HasDirective(line: string)
  {
    exists gap, tail :: Directive(line, gap, tail)
  }

  ghost predicate HasName(line: string, open: char, close: char)
  {
    exists before, name, after :: Encloses(line, before, open, name, close, after)
  }

  /** All other lines name no file: those that are not directives with the word include, and those
      without a name that is enclosed. An opening angle bracket that is not closed hides the quotes. */
  lemma OtherLines(line: string, dirs: seq<string>, readable: set<string>)
    requires !HasDirective(line) || if '<' in line then !HasName(line, '<', '>') else !HasName(line, '"', '"')
    ensures LineTargets(line, dirs, readable) == []
  {
    if IsDirective(line) {
      DirectiveHas(line);
      IncludedHas(line);
    }
  }

  lemma DirectiveHas(line: string)
    requires IsDirective(line)
    ensures HasDirective(line)
  {
    var i :| 0 <= i <= |line| && IncludeAt(line, i);
    assert line[i..i + 7][0] == 'i';
    assert line == "#" + line[1..i] + "include" + line[i + 7..];
    assert Directive(line, line[1..i], line[i + 7..]);
  }

  lemma {:induction false} NothingBefore(line: string, c: char, p: nat, k: nat)
    requires p <= |line| && p <= k < Find(line, c, p)
    ensures line[k] != c
    decreases k - p
  {
    if p < k { NothingBefore(line, c, p + 1, k); }
  }

  lemma FoundEncloses(line: string, open: char, close: char)
    requires Find(line, open, 0) < |line| && Find(line, close, Find(line, open, 0) + 1) < |line|
    ensures HasName(line, open, close)
  {
    var p := Find(line, open, 0);
    var q := Find(line, close, p + 1);
    forall k | 0 <= k < p ensures line[k] != open { NothingBefore(line, open, 0, k); }
    forall k | p + 1 <= k < q ensures line[k] != close { NothingBefore(line, close, p + 1, k); }
    assert line == line[..p] + [open] + line[p + 1..q] + [close] + line[q + 1..];
    assert Encloses(line, line[..p], open, line[p + 1..q], close, line[q + 1..]);
  }

  lemma IncludedHas(line: string)
    ensures Included(line).Some? ==> if '<' in line then HasName(line, '<', '>') else HasName(line, '"', '"')
  {
    hide HasName;
    var p := Find(line, '<', 0);
    if p < |line| {
      if Find(line, '>', p + 1) < |line| { FoundEncloses(line, '<', '>'); }
    } else {
      forall k | 0 <= k < |line| ensures line[k] != '<' { NothingBefore(line, '<', 0, k); }
      var r := Find(line, '"', 0);
      if r < |line| && Find(line, '"', r + 1) < |line| { FoundEncloses(line, '"', '"'); }
    }
  }

  // ---------------------------------------------------------------------------------------
  // The lines of a file

  function Joined(lines: seq<string>): string
  {
    if lines == [] then "" else lines[0] + "\n" + Joined(lines[1..])
  }

  /** A line that fits the buffer. */
  predicate Fits(line: string)
  {
    |line| <= 9999 && '\n' !in line
  }

  /** The text ends in a line without a newline. */
  lemma {:induction false} LastLine(text: string, n: nat)
    requires '\n' !in text
    ensures GetLineFrom(text, n).1.eof || GetLineFrom(text, n).1.fail
  {
    if text != "" && n != LINE_MAX { LastLine(text[1..], n + 1); }
  }

  /** Behind a line that does not fit nothing is seen. */
  lemma {:induction false} OverlongLine(text: string, n: nat)
    requires n <= 9999 && |text| >= 10000 - n && '\n' !in text[..10000 - n]
    ensures GetLineFrom(text, n).1.fail
    decreases 9999 - n
  {
    assert text[0] == text[..10000 - n][0];
    if n < 9999 {
      assert text[1..][..9999 - n] == text[..10000 - n][1..];
      OverlongLine(text[1..], n + 1);
    }
  }

  /** What is left behind the whole lines: a line without its newline, or one that does not fit. */
  predicate Unseen(rest: string)
  {
    '\n' !in rest || (|rest| >= 10000 && '\n' !in rest[..10000])
  }

  lemma {:induction false} LinesAreSeen(lines: seq<string>, rest: string)
    requires (forall i :: 0 <= i < |lines| ==> Fits(lines[i])) && Unseen(rest)
    ensures GoodLines(Stream(Joined(lines) + rest, false, false)) == lines
  {
    var text := Joined(lines) + rest;
    if lines == [] {
      assert text == rest;
      if '\n' !in rest { LastLine(rest, 0); } else { OverlongLine(rest, 0); }
    } else {
      var more := Joined(lines[1..]) + rest;
      assert text == lines[0] + "\n" + more;
      GetLineOf(lines[0], more, 0);
      LinesAreSeen(lines[1..], rest);
      assert lines == [lines[0]] + lines[1..];
    }
  }

  /** One of the lines names the file. */
  ghost predicate Named(lines: seq<string>, dirs: seq<string>, readable: set<string>, t: string)
  {
    exists i :: 0 <= i < |lines| && t in LineTargets(lines[i], dirs, readable)
  }

  lemma {:induction false} TargetsOfLines(lines: seq<string>, dirs: seq<string>, readable: set<string>, t: string)
    ensures t in Targets(lines, dirs, readable) <==> Named(lines, dirs, readable, t)
  {
    hide LineTargets, Named;
    if lines == [] {
      NamedByNone(dirs, readable, t);
    } else {
      var front := lines[..|lines| - 1];
      TargetsOfLines(front, dirs, readable, t);
      NamedByLast(front, lines[|lines| - 1], dirs, readable, t);
      assert lines == front + [lines[|lines| - 1]];
    }
  }

  lemma NamedByNone(dirs: seq<string>, readable: set<string>, t: string)
    ensures !Named([], dirs, readable, t)
  {
  }

  lemma NamedByLast(front: seq<string>, line: string, dirs: seq<string>, readable: set<string>, t: string)
    ensures Named(front + [line], dirs, readable, t) <==>
            Named(front, dirs, readable, t) || t in LineTargets(line, dirs, readable)
  {
    hide LineTargets;
    var lines := front + [line];
    assert lines[|front|] == line;
    if Named(front, dirs, readable, t) {
      var i :| 0 <= i < |front| && t in LineTargets(front[i], dirs, readable);
      assert lines[i] == front[i];
    }
    if Named(lines, dirs, readable, t) {
      var i :| 0 <= i < |lines| && t in LineTargets(lines[i], dirs, readable);
      if i < |front| { assert front[i] == lines[i]; }
    }
  }

  /** A file includes exactly what its whole lines name. */
  lemma EdgesAreLines(fs: FileSystem, dirs: seq<string>, f: string, lines: seq<string>, rest: string, t: string)
    requires f in fs.files && fs.files[f] == Joined(lines) + rest
    requires (forall i :: 0 <= i < |lines| ==> Fits(lines[i])) && Unseen(rest)
    ensures Edge(fs, dirs, f, t) <==> Named(lines, dirs, fs.readable, t)
  {
    hide Targets, GoodLines, Named;
    LinesAreSeen(lines, rest);
    TargetsOfLines(lines, dirs, fs.readable, t);
  }

  // ---------------------------------------------------------------------------------------
  // Names of sources

  /** Dependencies are made for the files with one of five endings. */
  lemma SourceNames(stem: string, ending: string)
    requires '.' !in ending
    ensures CcFile(stem + "." + ending) <==> stem != "" && ending in ["c", "C", "cc", "cxx", "cpp"]
  {
    hide EndsIn;
    SameEnding(stem, ending, "c");
    SameEnding(stem, ending, "C");
    SameEnding(stem, ending, "cc");
    SameEnding(stem, ending, "cxx");
    SameEnding(stem, ending, "cpp");
    assert "." + "c" == ".c" && "." + "C" == ".C" && "." + "cc" == ".cc";
    assert "." + "cxx" == ".cxx" && "." + "cpp" == ".cpp";
  }

  lemma LaterDot(a: string, b: string, c: string, d: string)
    requires a + "." + b == c + "." + d && |a| < |c|
    ensures '.' in b
  {
    assert (a + "." + b)[|c|] == b[|c| - |a| - 1];
    assert (c + "." + d)[|c|] == '.';
  }

  lemma SamePlace(a: string, b: string, c: string, d: string)
    requires a + "." + b == c + "." + d && |a| == |c|
    ensures a == c && b == d
  {
    assert a == (a + "." + b)[..|a|] && c == (c + "." + d)[..|c|];
    assert b == (a + "." + b)[|a| + 1..] && d == (c + "." + d)[|c| + 1..];
  }

  lemma SameEnding(stem: string, ending: string, e: string)
    requires '.' !in ending && '.' !in e
    ensures EndsIn(stem + "." + ending, "." + e) <==> stem != "" && ending == e
  {
    var file, s := stem + "." + ending, "." + e;
    if EndsIn(file, s) {
      var front := file[..|file| - |s|];
      assert file == front + "." + e;
      if |stem| < |front| {
        LaterDot(stem, ending, front, e);
      } else if |front| < |stem| {
        LaterDot(front, e, stem, ending);
      } else {
        SamePlace(stem, ending, front, e);
      }
    }
    if stem != "" && ending == e { assert file[|stem|..] == s; }
  }

  lemma EndingIsIn(file: string, c: char, more: string)
    requires EndsIn(file, [c] + more)
    ensures c in file
  {
    var e := [c] + more;
    assert file[|file| - |e|] == file[|file| - |e|..][0] == c;
  }

  /** A name without a dot is not that of a source. */
  lemma SourceHasDot(file: string)
    requires CcFile(file)
    ensures '.' in file
  {
    assert ".c" == ['.'] + "c" && ".C" == ['.'] + "C" && ".cc" == ['.'] + "cc";
    assert ".cxx" == ['.'] + "cxx" && ".cpp" == ['.'] + "cpp";
    if EndsIn(file, ".c") { EndingIsIn(file, '.', "c"); }
    if EndsIn(file, ".C") { EndingIsIn(file, '.', "C"); }
    if EndsIn(file, ".cc") { EndingIsIn(file, '.', "cc"); }
    if EndsIn(file, ".cxx") { EndingIsIn(file, '.', "cxx"); }
    if EndsIn(file, ".cpp") { EndingIsIn(file, '.', "cpp"); }
  }
}

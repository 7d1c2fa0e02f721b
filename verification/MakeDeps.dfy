/** The worklist of mkdep in admin/mkdepend.cc: the files a source file includes, directly or
    not. */
module MakeDeps {
  import opened LineReader
  import opened Wrappers

  /** files are the files that can be opened, with their text; readable are the names that
      access(name, R_OK) accepts. */
  datatype FileSystem = FileSystem(files: map<string, string>, readable: set<string>)

  // ---------------------------------------------------------------------------------------
  // What one file includes

  /** The lines a loop over getline sees while the stream is good: a last line without newline
      and everything from a line that does not fit the buffer are not seen. */
  function GoodLines(s: Stream): seq<string>
    decreases |s.text|
  {
    var (line, t) := GetLine(s);
    if t.eof || t.fail then [] else [line] + GoodLines(t)
  }

  /** Position of c in line from p on, or |line|. */
  function Find(line: string, c: char, p: nat): (q: nat)
    requires p <= |line|
    ensures p <= q <= |line| && (q < |line| ==> line[q] == c)
    decreases |line| - p
  {
    if p == |line| || line[p] == c then p else Find(line, c, p + 1)
  }

  predicate IncludeAt(line: string, i: int)
  {
    0 <= i <= |line| - 7 && line[i..i + 7] == "include"
  }

  predicate IsDirective(line: string)
  {
    line != "" && line[0] == '#' && exists i | 0 <= i <= |line| :: IncludeAt(line, i)
  }

  /** The name between the brackets, or else between the quotes, and whether there are quotes. */
  function Included(line: string): Option<(string, bool)>
  {
    var p := Find(line, '<', 0);
    if p < |line| then
      var q := Find(line, '>', p + 1);
      if q < |line| then Some((line[p + 1..q], false)) else None
    else
      var r := Find(line, '"', 0);
      if r == |line| then None
      else
        var q := Find(line, '"', r + 1);
        if q < |line| then Some((line[r + 1..q], true)) else None
  }

  /** The file in the first directory, from the k-th on, that has it. */
  function InDirectories(incDirs: seq<string>, k: nat, name: string, readable: set<string>): seq<string>
    requires k <= |incDirs|
    decreases |incDirs| - k
  {
    if k == |incDirs| then []
    else if incDirs[k] + "/" + name in readable then [incDirs[k] + "/" + name]
    else InDirectories(incDirs, k + 1, name, readable)
  }

  function LineTargets(line: string, incDirs: seq<string>, readable: set<string>): seq<string>
  {
    if !IsDirective(line) then []
    else
      match Included(line)
      case None => []
      case Some(inc) =>
        InDirectories(incDirs, 0, inc.0, readable) + if inc.1 && inc.0 in readable then [inc.0] else []
  }

  function Targets(lines: seq<string>, incDirs: seq<string>, readable: set<string>): seq<string>
  {
    if lines == [] then []
    else Targets(lines[..|lines| - 1], incDirs, readable) + LineTargets(lines[|lines| - 1], incDirs, readable)
  }

  /** f includes t, and t was found. */
  predicate Edge(fs: FileSystem, incDirs: seq<string>, f: string, t: string)
  {
    f in fs.files && t in Targets(GoodLines(Stream(fs.files[f], false, false)), incDirs, fs.readable)
  }

  // ---------------------------------------------------------------------------------------
  // Reachable files

  /** A chain of files that can be opened, each including the next. */
  predicate Chain(fs: FileSystem, incDirs: seq<string>, path: seq<string>)
  {
    && path != [] && (forall i :: 0 <= i < |path| ==> path[i] in fs.files)
    && (forall i :: 0 < i < |path| ==> Edge(fs, incDirs, path[i - 1], path[i]))
  }

  ghost predicate Reachable(fs: FileSystem, incDirs: seq<string>, root: string, f: string)
  {
    exists path :: Chain(fs, incDirs, path) && path[0] == root && path[|path| - 1] == f
  }

  lemma ReachableRoot(fs: FileSystem, incDirs: seq<string>, root: string)
    requires root in fs.files
    ensures Reachable(fs, incDirs, root, root)
  {
    assert Chain(fs, incDirs, [root]) && [root][|[root]| - 1] == root;
  }

  lemma ReachableNext(fs: FileSystem, incDirs: seq<string>, root: string, f: string, t: string)
    requires Reachable(fs, incDirs, root, f) && Edge(fs, incDirs, f, t) && t in fs.files
    ensures Reachable(fs, incDirs, root, t)
  {
    var path :| Chain(fs, incDirs, path) && path[0] == root && path[|path| - 1] == f;
    var more := path + [t];
    forall i | 0 < i < |more| ensures Edge(fs, incDirs, more[i - 1], more[i]) {
      assert more[i - 1] == path[i - 1];
      if i < |path| { assert more[i] == path[i]; }
    }
    assert Chain(fs, incDirs, more) && more[0] == root && more[|more| - 1] == t;
  }

  /** A set that has the root and every file that its members include has every reachable file. */
  lemma {:induction false} ClosedHasChain(fs: FileSystem, incDirs: seq<string>, deps: set<string>, path: seq<string>)
    requires Chain(fs, incDirs, path) && path[0] in deps
    requires forall f, t :: f in deps && Edge(fs, incDirs, f, t) && t in fs.files ==> t in deps
    ensures path[|path| - 1] in deps
    decreases |path|
  {
    if |path| > 1 {
      var front := path[..|path| - 1];
      assert Chain(fs, incDirs, front);
      ClosedHasChain(fs, incDirs, deps, front);
    }
  }

  // ---------------------------------------------------------------------------------------
  // The worklist

  /** The targets that have not been read. */
  function Fresh(ts: seq<string>, deps: set<string>): (r: seq<string>)
    ensures forall t :: t in r <==> t in ts && t !in deps
  {
    if ts == [] then []
    else
      var before, last := Fresh(ts[..|ts| - 1], deps), ts[|ts| - 1];
      assert ts == ts[..|ts| - 1] + [last];
      if last in deps then before else before + [last]
  }

  lemma {:induction false} FreshAppend(a: seq<string>, b: seq<string>, deps: set<string>)
    ensures Fresh(a + b, deps) == Fresh(a, deps) + Fresh(b, deps)
  {
    if b == [] {
      assert a + b == a;
    } else {
      var front := b[..|b| - 1];
      FreshAppend(a, front, deps);
      assert (a + b)[..|a + b| - 1] == a + front;
    }
  }

  /** Number of places on the stack that hold a file already read. */
  function Old(stack: seq<string>, deps: set<string>): nat
  {
    if stack == [] then 0 else Old(stack[..|stack| - 1], deps) + if stack[|stack| - 1] in deps then 1 else 0
  }

  lemma {:induction false} OldAppend(stack: seq<string>, more: seq<string>, deps: set<string>)
    requires forall t :: t in more ==> t !in deps
    ensures Old(stack + more, deps) == Old(stack, deps)
  {
    if more == [] {
      assert stack + more == stack;
    } else {
      var front := more[..|more| - 1];
      assert more == front + [more[|more| - 1]];
      OldAppend(stack, front, deps);
      assert (stack + more)[..|stack + more| - 1] == stack + front;
    }
  }

  /** Everything on the stack is the root or included by a file already read, and a file included
      by one already read has been read, waits on the stack or cannot be opened. */
  ghost predicate Working(fs: FileSystem, incDirs: seq<string>, root: string, stack: seq<string>, deps: set<string>)
  {
    && (forall f :: f in deps ==> f in fs.files && Reachable(fs, incDirs, root, f))
    && (forall i :: 0 <= i < |stack| ==> stack[i] == root || exists f :: f in deps && Edge(fs, incDirs, f, stack[i]))
    && (root in deps || root in stack || root !in fs.files)
    && (forall f, t :: f in deps && Edge(fs, incDirs, f, t) ==> t in deps || t in stack || t !in fs.files)
  }

  lemma Skips(fs: FileSystem, incDirs: seq<string>, root: string, stack: seq<string>, deps: set<string>)
    requires Working(fs, incDirs, root, stack, deps) && stack != [] && stack[|stack| - 1] !in fs.files
    ensures Working(fs, incDirs, root, stack[..|stack| - 1], deps)
  {
    var rest := stack[..|stack| - 1];
    assert stack == rest + [stack[|stack| - 1]];
  }

  lemma Reads(fs: FileSystem, incDirs: seq<string>, root: string, stack: seq<string>, deps: set<string>,
              ts: seq<string>)
    requires Working(fs, incDirs, root, stack, deps) && stack != [] && stack[|stack| - 1] in fs.files
    requires forall t :: t in ts <==> Edge(fs, incDirs, stack[|stack| - 1], t)
    ensures var f := stack[|stack| - 1];
            Working(fs, incDirs, root, stack[..|stack| - 1] + Fresh(ts, deps + {f}), deps + {f})
  {
    hide Edge, Reachable, Fresh;
    var f, rest := stack[|stack| - 1], stack[..|stack| - 1];
    assert stack == rest + [f];
    var deps1 := deps + {f};
    var stack1 := rest + Fresh(ts, deps1);
    if f == root {
      ReachableRoot(fs, incDirs, root);
    } else {
      var d :| d in deps && Edge(fs, incDirs, d, f);
      ReachableNext(fs, incDirs, root, d, f);
    }
    forall i | 0 <= i < |stack1| ensures stack1[i] == root || exists d ::
        d in deps1 && Edge(fs, incDirs, d, stack1[i]) {
      if i < |rest| {
        assert stack1[i] == stack[i];
      } else {
        assert stack1[i] in Fresh(ts, deps1) && f in deps1;
      }
    }
  }

  lemma Finished(fs: FileSystem, incDirs: seq<string>, root: string, deps: set<string>)
    requires Working(fs, incDirs, root, [], deps)
    ensures forall f :: f in deps <==> Reachable(fs, incDirs, root, f)
  {
    forall f | Reachable(fs, incDirs, root, f) ensures f in deps {
      var path :| Chain(fs, incDirs, path) && path[0] == root && path[|path| - 1] == f;
      ClosedHasChain(fs, incDirs, deps, path);
    }
  }

  // ---------------------------------------------------------------------------------------
  // mkdep

  method FindInDirectories(incDirs: seq<string>, name: string, fs: FileSystem, stack: seq<string>, deps: set<string>)
      returns (r: seq<string>)
    ensures r == stack + Fresh(InDirectories(incDirs, 0, name, fs.readable), deps)
  {
    r := stack;
    var i := 0;
    while i < |incDirs|
      invariant 0 <= i <= |incDirs|
      invariant InDirectories(incDirs, i, name, fs.readable) == InDirectories(incDirs, 0, name, fs.readable)
    {
      var t := incDirs[i] + "/" + name;
      if t in fs.readable {
        assert [t][..0] == [];
        if t !in deps { r := r + [t]; }
        return;
      }
      i := i + 1;
    }
  }

  method PushTargets(line: string, incDirs: seq<string>, fs: FileSystem, stack: seq<string>, deps: set<string>)
      returns (r: seq<string>)
    ensures r == stack + Fresh(LineTargets(line, incDirs, fs.readable), deps)
  {
    r := stack;
    if !IsDirective(line) { return; }
    var inc := Included(line);
    if inc.Some? {
      var name := inc.value.0;
      r := FindInDirectories(incDirs, name, fs, stack, deps);
      ghost var quoted := if inc.value.1 && name in fs.readable then [name] else [];
      FreshAppend(InDirectories(incDirs, 0, name, fs.readable), quoted, deps);
      if inc.value.1 {
        if name in fs.readable {
          assert [name][..0] == [];
          if name !in deps { r := r + [name]; }
        }
      }
    }
  }

  method ReadFile(text: string, incDirs: seq<string>, fs: FileSystem, stack: seq<string>, deps: set<string>)
      returns (r: seq<string>)
    ensures r == stack + Fresh(Targets(GoodLines(Stream(text, false, false)), incDirs, fs.readable), deps)
  {
    hide Targets, Fresh, LineTargets, GetLine;
    ghost var all := GoodLines(Stream(text, false, false));
    ghost var seen: seq<string> := [];
    r := stack;
    NothingSeen(incDirs, fs.readable, deps, stack);
    var line, s := ReadLine(Stream(text, false, false));
    while !s.eof && !s.fail
      invariant all == if s.eof || s.fail then seen else seen + ([line] + GoodLines(s))
      invariant r == stack + Fresh(Targets(seen, incDirs, fs.readable), deps)
      decreases !s.eof && !s.fail, |s.text|
    {
      NextTargets(seen, line, incDirs, fs.readable, deps, stack);
      r := PushTargets(line, incDirs, fs, r, deps);
      seen := seen + [line];
      line, s := ReadLine(s);
    }
  }

  lemma NothingSeen(incDirs: seq<string>, readable: set<string>, deps: set<string>, stack: seq<string>)
    ensures stack == stack + Fresh(Targets([], incDirs, readable), deps)
  {
  }

  lemma NextTargets(seen: seq<string>, line: string, incDirs: seq<string>, readable: set<string>, deps: set<string>,
                    stack: seq<string>)
    ensures stack + Fresh(Targets(seen + [line], incDirs, readable), deps) ==
            (stack + Fresh(Targets(seen, incDirs, readable), deps)) + Fresh(LineTargets(line, incDirs, readable), deps)
  {
    assert (seen + [line])[..|seen|] == seen;
    FreshAppend(Targets(seen, incDirs, readable), LineTargets(line, incDirs, readable), deps);
  }

  predicate EndsIn(file: string, ending: string)
  {
    |file| > |ending| && file[|file| - |ending|..] == ending
  }

  predicate CcFile(file: string)
  {
    EndsIn(file, ".c") || EndsIn(file, ".C") || EndsIn(file, ".cc") || EndsIn(file, ".cxx") || EndsIn(file, ".cpp")
  }

  /** Nothing happens for a name that is not that of a C or C++ source; otherwise the files that
      are printed are exactly those reachable from the source, the source included. */
  method MkDep(file: string, incDirs: seq<string>, fs: FileSystem) returns (r: Option<set<string>>)
    ensures r.Some? <==> CcFile(file)
    ensures r.Some? ==> forall f :: f in r.value <==> Reachable(fs, incDirs, file, f)
  {
    hide Targets, Fresh, GoodLines, Reachable, CcFile;
    if !CcFile(file) { return None; }
    var stack, deps := [file], {};
    while stack != []
      invariant Working(fs, incDirs, file, stack, deps)
      decreases fs.files.Keys - deps, Old(stack, deps), |stack|
    {
      var f, rest := stack[|stack| - 1], stack[..|stack| - 1];
      if f !in fs.files {
        Skips(fs, incDirs, file, stack, deps);
        stack := rest;
        continue;
      }
      ghost var ts := Targets(GoodLines(Stream(fs.files[f], false, false)), incDirs, fs.readable);
      Reads(fs, incDirs, file, stack, deps, ts);
      OldAppend(rest, Fresh(ts, deps + {f}), deps + {f});
      if f in deps { assert deps + {f} == deps; } else { assert f in fs.files.Keys - deps; }
      deps := deps + {f};
      stack := ReadFile(fs.files[f], incDirs, fs, rest, deps);
    }
    Finished(fs, incDirs, file, deps);
    r := Some(deps);
  }
}

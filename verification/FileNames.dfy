/** simplify_filename in cpp/cccp.c: remove redundant characters from a file name in place. */
module FileNames {

  // ---------------------------------------------------------------------------------------
  // What a file name means (section 4.13 of POSIX.1-2017, Base Definitions)

  /** Number of slashes at the start of s. */
  function Slashes(s: string): (n: nat)
    ensures n <= |s| && (n < |s| ==> s[n] != '/') && forall i :: 0 <= i < n ==> s[i] == '/'
  {
    if s != "" && s[0] == '/' then 1 + Slashes(s[1..]) else 0
  }

  /** The root: exactly two slashes may differ from one. */
  function Root(s: string, distinct: bool): string
  {
    if Slashes(s) == 0 then "" else if Slashes(s) == 2 && distinct then "//" else "/"
  }

  /** Length of the component at the start of t. */
  function ComponentLength(t: string): (k: nat)
    ensures k <= |t| && (k < |t| ==> t[k] == '/') && forall i :: 0 <= i < k ==> t[i] != '/'
  {
    if t == "" || t[0] == '/' then 0 else 1 + ComponentLength(t[1..])
  }

  /** The components that are neither empty nor a dot. */
  function Components(t: string): (cs: seq<string>)
    decreases |t|
  {
    if t == "" then []
    else if t[0] == '/' then Components(t[1..])
    else
      var k := ComponentLength(t);
      (if t[..k] == "." then [] else [t[..k]]) + Components(t[k..])
  }

  /** Each component with a slash after it. */
  function Slashed(cs: seq<string>): string
  {
    if cs == [] then "" else Slashed(cs[..|cs| - 1]) + cs[|cs| - 1] + "/"
  }

  /** The components with a slash between them. */
  function Joined(cs: seq<string>): string
  {
    if cs == [] then "" else Slashed(cs[..|cs| - 1]) + cs[|cs| - 1]
  }

  /** The simplest name with the root and the components of s. A relative name without components
      stays a dot if it ends in one, and else becomes empty. */
  function Simplified(s: string, distinct: bool): string
  {
    if Root(s, distinct) == "" && Components(s) == [] then
      if s != "" && s[|s| - 1] == '.' then "." else ""
    else Root(s, distinct) + Joined(Components(s))
  }

  // ---------------------------------------------------------------------------------------
  // simplify_filename

  /** The C string s is in the buffer, from position p on. */
  ghost predicate Rest(a: array<char>, s: string, p: nat)
    reads a
  {
    p <= |s| < a.Length && a[|s|] == '\0' && forall i :: p <= i < |s| ==> a[i] == s[i]
  }

  ghost predicate IsCString(s: string) { '\0' !in s }

  lemma {:induction false} SkipsSlashes(s: string, p: nat, q: nat)
    requires p <= q <= |s| && forall i :: p <= i < q ==> s[i] == '/'
    ensures Components(s[p..]) == Components(s[q..])
    decreases q - p
  {
    if p < q {
      assert s[p..][1..] == s[p + 1..];
      SkipsSlashes(s, p + 1, q);
    }
  }

  /** The leading slashes: to characters of the root are in place, and from slashes are read. */
  method CopyRoot(a: array<char>, ghost s: string, distinct: bool) returns (to: nat, from: nat)
    requires Rest(a, s, 0) && IsCString(s)
    modifies a
    ensures to <= from && Rest(a, s, from) && a[..to] == Root(s, distinct) && from == Slashes(s)
  {
    to, from := 0, 0;
    if a[0] == '/' {
      to := 1;
      from := 1;
      if a[1] == '/' {
        from := 2;
        if a[2] == '/' {
          from := 3;
          while a[from] == '/'
            invariant 3 <= from <= |s| && forall i :: 0 <= i < from ==> s[i] == '/'
            decreases |s| - from
          {
            from := from + 1;
          }
        } else if distinct {
          a[1] := '/';
          to := 2;
        }
      }
    }
    SlashesAre(s, from);
  }

  lemma {:induction false} SlashesAre(s: string, n: nat)
    requires n <= |s| && (n < |s| ==> s[n] != '/') && forall i :: 0 <= i < n ==> s[i] == '/'
    ensures Slashes(s) == n
  {
    if n > 0 { SlashesAre(s[1..], n - 1); }
  }

  lemma OneMore(out: string, s: string, from0: nat, from: nat, c: char)
    requires from0 <= from <= |s|
    ensures out + s[from0..from] + [c] == out + (s[from0..from] + [c]) ==
        out + s[from0..from] + (if c == '/' then "/" else [c])
    ensures from < |s| ==> s[from0..from + 1] == s[from0..from] + [s[from]]
  {
  }

  /** Copy a component and its slash, or the last component and the final zero. */
  method CopyComponent(a: array<char>, ghost s: string, to0: nat, from0: nat) returns (to: nat, from: nat, end: bool)
    requires Rest(a, s, from0) && IsCString(s) && to0 <= from0
    modifies a
    ensures var k := ComponentLength(s[from0..]);
      && (end <==> from0 + k == |s|) && to <= from == from0 + k + 1 && to == to0 + k + 1 && to <= a.Length
      && a[..to] == old(a[..to0]) + s[from0..from0 + k] + (if end then "\0" else "/")
      && (!end ==> from <= |s| && s[from - 1] == '/' && Rest(a, s, from))
  {
    hide ComponentLength;
    to, from, end := to0, from0, false;
    ghost var out := a[..to0];
    while true
      invariant to0 <= to <= from <= |s| && to - to0 == from - from0 && Rest(a, s, from)
      invariant forall i :: from0 <= i < from ==> s[i] != '/'
      invariant a[..to] == out + s[from0..from]
      decreases |s| - from
    {
      var c := a[from];
      a[to] := c;
      assert a[..to + 1] == a[..to] + [c];
      OneMore(out, s, from0, from, c);
      to, from := to + 1, from + 1;
      if c == '/' {
        LengthIs(s, from0, from - 1);
        return;
      }
      if c == '\0' {
        LengthIs(s, from0, |s|);
        end := true;
        return;
      }
    }
  }

  lemma {:induction false} LengthIs(s: string, p: nat, q: nat)
    requires p <= q <= |s| && (q < |s| ==> s[q] == '/') && forall i :: p <= i < q ==> s[i] != '/'
    ensures ComponentLength(s[p..]) == q - p
    decreases q - p
  {
    if p < q {
      assert s[p..][1..] == s[p + 1..];
      LengthIs(s, p + 1, q);
    }
  }

  // ---------------------------------------------------------------------------------------
  // The end of the name

  ghost predicate Proper(cs: seq<string>)
  {
    forall i :: 0 <= i < |cs| ==> cs[i] != "" && '/' !in cs[i]
  }

  lemma {:induction false} ComponentsAreProper(t: string)
    ensures Proper(Components(t))
    decreases |t|
  {
    if t != "" {
      if t[0] == '/' {
        ComponentsAreProper(t[1..]);
      } else {
        var k := ComponentLength(t);
        ComponentsAreProper(t[k..]);
      }
    }
  }

  function Finished(root: string, cs: seq<string>, t: string): string
  {
    if t == "" || (t == "." && root + Slashed(cs) != "") then root + Joined(cs) else root + Slashed(cs) + t
  }

  lemma RootOnly(root: string)
    ensures root + Slashed([]) == root == root + Joined([])
  {
  }

  lemma SlashedEnds(root: string, cs: seq<string>)
    requires Proper(cs) && root in {"", "/", "//"}
    ensures var out := root + Slashed(cs);
      && (out != "" ==> out[|out| - 1] == '/')
      && (cs == [] ==> out == root)
      && (cs != [] ==> |out| >= |root| + 2 && out[..|out| - 1] == root + Joined(cs) && out[|out| - 2] != '/')
  {
    if cs == [] {
      RootOnly(root);
    } else {
      var c := cs[|cs| - 1];
      assert c[|c| - 1] in c;
      LastSlash(root, Slashed(cs[..|cs| - 1]), c);
    }
  }

  lemma LastSlash(root: string, front: string, c: string)
    requires c != ""
    ensures var out := root + (front + c + "/");
      && |out| >= |root| + 2 && out[|out| - 1] == '/' && out[|out| - 2] == c[|c| - 1]
      && out[..|out| - 1] == root + (front + c)
  {
  }

  /** Leave out trailing slashes before position w, down to position low. */
  function TrimmedAt(s: string, low: nat, w: nat): (r: nat)
    requires w <= |s|
    ensures r <= w
  {
    if low < w && s[w - 1] == '/' then TrimmedAt(s, low, w - 1) else w
  }

  /** Where the final zero is looked for: before a last component that is a dot, unless it is all. */
  function EndAt(s: string): nat
    requires s != ""
  {
    if |s| >= 3 && s[|s| - 3] == '/' && s[|s| - 2] == '.' then |s| - 2 else |s| - 1
  }

  /** Trim a last component that is a dot, and a trailing slash. */
  method Trim(a: array<char>, to0: nat, to1: nat) returns (n: nat)
    requires 0 < to1 <= a.Length
    modifies a
    ensures n == TrimmedAt(old(a[..to1]), to0, EndAt(old(a[..to1]))) && n < to1
    ensures a[..n] == old(a[..n]) && a[n] == '\0'
  {
    ghost var was := a[..to1];
    var to := to1;
    if 3 <= to && a[to - 3] == '/' && a[to - 2] == '.' { to := to - 1; }
    to := to - 1;
    while to0 < to && a[to - 1] == '/'
      invariant 0 <= to < to1 && TrimmedAt(was, to0, to) == TrimmedAt(was, to0, EndAt(was))
    {
      to := to - 1;
    }
    a[to] := '\0';
    n := to;
  }

  lemma EndOfCopied(was: string, out: string, t: string)
    requires was == out + (t + "\0") && '/' !in t && (out != "" ==> out[|out| - 1] == '/')
    ensures EndAt(was) == if t == "." && out != "" then |out| else |out| + |t|
  {
    assert |t| > 0 ==> was[|was| - 2] == t[|t| - 1] && t[|t| - 1] in t;
    assert |t| > 1 ==> was[|was| - 3] == t[|t| - 2] && t[|t| - 2] in t;
    assert |t| == 1 ==> t == [t[0]];
    assert |t| == 0 && |out| > 0 ==> was[|was| - 2] == out[|out| - 1];
    assert |t| == 1 && |out| > 0 ==> was[|was| - 3] == out[|out| - 1];
  }

  lemma TrimmedIs(was: string, root: string, cs: seq<string>, t: string)
    requires was == root + Slashed(cs) + (t + "\0") && Proper(cs) && root in {"", "/", "//"} && '/' !in t
    ensures was[..TrimmedAt(was, |root|, EndAt(was))] == Finished(root, cs, t)
  {
    var out := root + Slashed(cs);
    SlashedEnds(root, cs);
    EndOfCopied(was, out, t);
    hide Slashed, Joined, EndAt;
    if t != "" && !(t == "." && out != "") {
      KeepsLast(was, out, t, |root|);
    } else if cs == [] {
      assert was[..|out|] == out;
      RootOnly(root);
    } else {
      DropsSlash(was, out, t, |root|);
    }
  }

  lemma KeepsLast(was: string, out: string, t: string, low: nat)
    requires was == out + (t + "\0") && t != "" && '/' !in t
    ensures was[..TrimmedAt(was, low, |out| + |t|)] == out + t
  {
    assert was[|out| + |t| - 1] == t[|t| - 1] && t[|t| - 1] in t;
    assert was[..|out| + |t|] == out + t;
  }

  lemma DropsSlash(was: string, out: string, t: string, low: nat)
    requires was == out + (t + "\0") && |out| >= low + 2 && out[|out| - 1] == '/' && out[|out| - 2] != '/'
    ensures was[..TrimmedAt(was, low, |out|)] == out[..|out| - 1]
  {
    assert was[|out| - 1] == out[|out| - 1] && was[|out| - 2] == out[|out| - 2];
    assert TrimmedAt(was, low, |out| - 1) == |out| - 1;
    assert was[..|out| - 1] == out[..|out| - 1];
  }

  // ---------------------------------------------------------------------------------------
  // The whole name

  /** The characters before position p have become the root and the components cs, each with a
      slash, and the components from p on are the rest. */
  ghost predicate Done(s: string, distinct: bool, p: nat, cs: seq<string>)
  {
    && p <= |s| && Proper(cs) && Components(s) == cs + Components(s[p..])
    && (p == 0 ==> cs == [] && Slashes(s) == 0) && (p > 0 ==> s[p - 1] == '/')
  }

  lemma DoneRoot(s: string, distinct: bool)
    ensures Done(s, distinct, Slashes(s), [])
  {
    SkipsSlashes(s, 0, Slashes(s));
    assert s[0..] == s;
  }

  lemma DoneSlashes(s: string, distinct: bool, p: nat, q: nat, cs: seq<string>)
    requires Done(s, distinct, p, cs) && p <= q <= |s| && forall i :: p <= i < q ==> s[i] == '/'
    ensures Done(s, distinct, q, cs)
  {
    SkipsSlashes(s, p, q);
  }

  /** The next component; a dot is left out. */
  lemma DoneComponent(s: string, distinct: bool, p: nat, cs: seq<string>)
    requires Done(s, distinct, p, cs) && p < |s| && s[p] != '/' && p + ComponentLength(s[p..]) < |s|
    ensures var k := ComponentLength(s[p..]);
            Done(s, distinct, p + k + 1, if s[p..p + k] == "." then cs else cs + [s[p..p + k]])
  {
    hide Components, ComponentLength, Slashes;
    var t := s[p..];
    var k := ComponentLength(t);
    ComponentFirst(t);
    assert t[..k] == s[p..p + k] && t[k + 1..] == s[p + k + 1..] && t[k] == s[p + k];
    var c, rest := t[..k], Components(t[k + 1..]);
    Associative(cs, [c], rest);
    Associative(cs, [], rest);
    assert Proper(cs + [c]);
  }

  lemma ComponentFirst(t: string)
    requires t != "" && t[0] != '/' && ComponentLength(t) < |t|
    ensures var k := ComponentLength(t);
      && t[..k] != "" && '/' !in t[..k]
      && Components(t) == (if t[..k] == "." then [] else [t[..k]]) + Components(t[k + 1..])
  {
    var k := ComponentLength(t);
    assert t[k..][0] == '/' && t[k..][1..] == t[k + 1..];
  }

  lemma ComponentOnly(t: string)
    requires ComponentLength(t) == |t|
    ensures '/' !in t && Components(t) == if t == "" || t == "." then [] else [t]
  {
    assert t[..|t|] == t && t[|t|..] == "";
  }

  lemma Associative<T>(a: seq<T>, b: seq<T>, c: seq<T>)
    ensures a + (b + c) == (a + b) + c && a + [] == a && [] + a == a
  {
  }

  /** One more component behind those with slashes. */
  lemma OneJoined(root: string, cs: seq<string>, t: string)
    ensures root + Joined(cs + [t]) == root + Slashed(cs) + t
  {
    hide Slashed;
    assert (cs + [t])[..|cs|] == cs;
    Associative(root, Slashed(cs), t);
  }

  /** The last component has no slash after it. */
  lemma DoneEnd(s: string, distinct: bool, p: nat, cs: seq<string>)
    requires Done(s, distinct, p, cs) && p + ComponentLength(s[p..]) == |s|
    ensures Finished(Root(s, distinct), cs, s[p..]) == Simplified(s, distinct) && '/' !in s[p..]
  {
    hide Components, ComponentLength, Slashes, Slashed, Joined;
    var t, root := s[p..], Root(s, distinct);
    ComponentOnly(t);
    if t == "" || t == "." {
      EmptyEnd(s, distinct, p, cs);
    } else {
      OneJoined(root, cs, t);
    }
  }

  lemma EmptyEnd(s: string, distinct: bool, p: nat, cs: seq<string>)
    requires p <= |s| && (s[p..] == "" || s[p..] == ".") && Proper(cs) && Components(s) == cs
    requires (p == 0 ==> cs == [] && Slashes(s) == 0) && (p > 0 ==> s[p - 1] == '/')
    ensures Finished(Root(s, distinct), cs, s[p..]) == Simplified(s, distinct)
  {
    var t, root := s[p..], Root(s, distinct);
    SlashedEnds(root, cs);
    if t == "." { assert s[|s| - 1] == t[0]; }
    hide Components, Slashes, Slashed, Joined, Proper;
    if cs == [] { RootOnly(root); }
  }

  /** Skip slashes. */
  method SkipSlashes(a: array<char>, ghost s: string, from0: nat) returns (from: nat)
    requires Rest(a, s, from0) && IsCString(s)
    ensures from0 <= from <= |s| && (from < |s| ==> s[from] != '/') && forall i :: from0 <= i < from ==> s[i] == '/'
  {
    from := from0;
    while a[from] == '/'
      invariant from0 <= from <= |s| && forall i :: from0 <= i < from ==> s[i] == '/'
      decreases |s| - from
    {
      from := from + 1;
    }
  }

  /** The loop over components: out is in place, the components from position from on are not. */
  ghost predicate Working(a: array<char>, s: string, distinct: bool, to: nat, from: nat, cs: seq<string>)
    reads a
  {
    && to <= from && Rest(a, s, from) && Done(s, distinct, from, cs)
    && a[..to] == Root(s, distinct) + Slashed(cs) && (from < |s| ==> s[from] != '/')
  }

  /** A component of one dot with a slash. */
  lemma DotIsComponent(s: string, p: nat)
    requires p + 1 < |s| && s[p] == '.' && s[p + 1] == '/'
    ensures ComponentLength(s[p..]) == 1 && s[p..p + 1] == "."
  {
    LengthIs(s, p, p + 1);
  }

  lemma SlashedNext(root: string, cs: seq<string>, c: string)
    ensures root + Slashed(cs) + c + "/" == root + Slashed(cs + [c])
  {
    assert (cs + [c])[..|cs|] == cs;
    Associative(root, Slashed(cs), c + "/");
  }

  method NextComponent(a: array<char>, ghost s: string, ghost distinct: bool, to0: nat, from0: nat,
                       ghost cs0: seq<string>)
      returns (to: nat, from: nat, ghost cs: seq<string>, end: bool)
    requires Working(a, s, distinct, to0, from0, cs0) && IsCString(s)
    modifies a
    ensures !end ==> from > from0 && Working(a, s, distinct, to, from, cs)
    ensures end ==> 0 < to <= a.Length && a[..to] == Root(s, distinct) + Slashed(cs0) + (s[from0..] + "\0")
    ensures end ==> from0 + ComponentLength(s[from0..]) == |s|
  {
    hide Components, Done, Slashed, Root, ComponentLength;
    to, from, cs, end := to0, from0, cs0, false;
    if a[from] == '.' && a[from + 1] == '/' {
      DotIsComponent(s, from);
      DoneComponent(s, distinct, from, cs);
      from := from + 2;
    } else {
      to, from, end := CopyComponent(a, s, to, from);
      ghost var c := s[from0..from - 1];
      if end {
        assert c == s[from0..];
        Associative(Root(s, distinct) + Slashed(cs0), c, "\0");
        return;
      }
      DoneComponent(s, distinct, from0, cs);
      cs := cs + [c];
      SlashedNext(Root(s, distinct), cs0, c);
    }
    ghost var p := from;
    from := SkipSlashes(a, s, from);
    DoneSlashes(s, distinct, p, from, cs);
  }

  /** The buffer holds the simplified name, and n is its length. */
  method SimplifyFilename(a: array<char>, ghost s: string, distinct: bool) returns (n: nat)
    requires Rest(a, s, 0) && IsCString(s)
    modifies a
    ensures n < a.Length && a[..n] == Simplified(s, distinct) && a[n] == '\0'
  {
    hide Components, Done, Slashed, Root, Simplified, TrimmedAt, EndAt, Finished, ComponentLength, Proper;
    var to, from := CopyRoot(a, s, distinct);
    var to0 := to;
    DoneRoot(s, distinct);
    ghost var cs: seq<string> := [];
    RootOnly(Root(s, distinct));
    while true
      invariant Working(a, s, distinct, to, from, cs)
      decreases |s| - from
    {
      ghost var t := s[from..];
      var end;
      ghost var cs1;
      DoneProper(s, distinct, from, cs);
      if from + ComponentLength(t) == |s| { DoneEnd(s, distinct, from, cs); }
      to, from, cs1, end := NextComponent(a, s, distinct, to, from, cs);
      if end {
        TrimmedIs(a[..to], Root(s, distinct), cs, t);
        n := Trim(a, to0, to);
        return;
      }
      cs := cs1;
    }
  }

  lemma DoneProper(s: string, distinct: bool, p: nat, cs: seq<string>)
    requires Done(s, distinct, p, cs)
    ensures Proper(cs) && Root(s, distinct) in {"", "/", "//"}
  {
  }

  // ---------------------------------------------------------------------------------------
  // What the simplified name keeps

  lemma {:induction false} ComponentsAreNames(t: string)
    ensures forall i :: 0 <= i < |Components(t)| ==> Components(t)[i] != "."
    decreases |t|
  {
    if t != "" { ComponentsAreNames(if t[0] == '/' then t[1..] else t[ComponentLength(t)..]); }
  }

  lemma {:induction false} SlashedFront(cs: seq<string>)
    requires cs != []
    ensures Slashed(cs) == cs[0] + "/" + Slashed(cs[1..])
  {
    var n := |cs| - 1;
    if n == 0 {
      assert cs[1..] == [] && cs[..0] == [];
    } else {
      SlashedFront(cs[..n]);
      assert cs[..n][1..] == cs[1..][..n - 1];
      Associative(cs[0] + "/", Slashed(cs[1..][..n - 1]), cs[n]);
      Associative(cs[0] + "/", Slashed(cs[1..][..n - 1]) + cs[n], "/");
    }
  }

  lemma ComponentThen(c: string, v: string)
    requires c != "" && c != "." && '/' !in c
    ensures Components(c + "/" + v) == [c] + Components(v)
  {
    var t := c + "/" + v;
    assert t[0..] == t && forall i :: 0 <= i < |c| ==> t[i] == c[i];
    LengthIs(t, 0, |c|);
    ComponentFirst(t);
    assert t[..|c|] == c && t[|c| + 1..] == v;
  }

  lemma SlashedThen(cs: seq<string>, u: string)
    requires cs != []
    ensures Slashed(cs) + u == cs[0] + "/" + (Slashed(cs[1..]) + u)
  {
    SlashedFront(cs);
    Associative(cs[0] + "/", Slashed(cs[1..]), u);
  }

  lemma HeadOn<T>(cs: seq<T>, ds: seq<T>)
    ensures cs != [] ==> [cs[0]] + (cs[1..] + ds) == cs + ds
    ensures cs == [] ==> cs + ds == ds
  {
  }

  lemma {:induction false} ComponentsSlashed(cs: seq<string>, u: string)
    requires Proper(cs) && forall i :: 0 <= i < |cs| ==> cs[i] != "."
    ensures Components(Slashed(cs) + u) == cs + Components(u)
  {
    HeadOn(cs, Components(u));
    if cs == [] {
      HeadOn("", u);
    } else {
      var v := Slashed(cs[1..]) + u;
      SlashedThen(cs, u);
      ComponentThen(cs[0], v);
      ComponentsSlashed(cs[1..], u);
      hide Components, Slashed, Proper;
      assert Components(cs[0] + "/" + v) == [cs[0]] + Components(v);
    }
  }

  lemma ComponentsJoined(cs: seq<string>)
    requires Proper(cs) && forall i :: 0 <= i < |cs| ==> cs[i] != "."
    ensures Components(Joined(cs)) == cs
  {
    if cs != [] {
      var front, last := cs[..|cs| - 1], cs[|cs| - 1];
      ComponentsSlashed(front, last);
      assert last[0..] == last;
      LengthIs(last, 0, |last|);
      ComponentOnly(last);
      assert front + [last] == cs;
    }
  }

  lemma {:induction false} SlashedLength(t: string)
    requires Components(t) != []
    ensures |Slashed(Components(t))| <= |t| + 1
    decreases |t|
  {
    if t[0] == '/' {
      SlashedLength(t[1..]);
    } else {
      var k := ComponentLength(t);
      if k == |t| {
        ComponentOnly(t);
        assert [t][..0] == [];
      } else {
        ComponentFirst(t);
        var rest := Components(t[k + 1..]);
        if rest != [] { SlashedLength(t[k + 1..]); }
        if t[..k] == "." {
          assert Components(t) == rest;
        } else {
          SlashedFront(Components(t));
          assert Components(t)[1..] == rest && Components(t)[0] == t[..k];
        }
      }
    }
  }

  /** Nothing but the root, names, and single slashes between them. */
  lemma SimplifiedShape(s: string, distinct: bool)
    ensures var r, cs := Simplified(s, distinct), Components(s);
      && Proper(cs) && (forall i :: 0 <= i < |cs| ==> cs[i] != ".")
      && (r == Root(s, distinct) + Joined(cs) || (r == "." && cs == [] && Root(s, distinct) == ""))
      && |r| <= |s|
  {
    hide ComponentLength;
    var cs := Components(s);
    ComponentsAreProper(s);
    ComponentsAreNames(s);
    SkipsSlashes(s, 0, Slashes(s));
    assert s[0..] == s;
    if cs != [] { SlashedLength(s[Slashes(s)..]); }
  }

  lemma RootThen(root: string, distinct: bool, v: string)
    requires root in {"", "/", "//"} && (root == "//" ==> distinct) && (v == "" || v[0] != '/')
    ensures Root(root + v, distinct) == root && Components(root + v) == Components(v)
  {
    var t := root + v;
    assert t[|root|..] == v && t[0..] == t;
    SlashesAre(t, |root|);
    SkipsSlashes(t, 0, |root|);
  }

  lemma JoinedStarts(cs: seq<string>)
    requires Proper(cs)
    ensures Joined(cs) == "" || Joined(cs)[0] != '/'
  {
    if cs != [] {
      assert cs[0][0] in cs[0];
      if |cs| > 1 {
        SlashedFront(cs[..|cs| - 1]);
        assert cs[..|cs| - 1][0] == cs[0];
      }
    }
  }

  /** The simplified name has the same root and the same components as the name, is not longer,
      and is not simplified any further. */
  lemma SimplifiedKeepsMeaning(s: string, distinct: bool)
    ensures var r := Simplified(s, distinct);
      && Root(r, distinct) == Root(s, distinct) && Components(r) == Components(s)
      && |r| <= |s| && Simplified(r, distinct) == r
  {
    var r, cs, root := Simplified(s, distinct), Components(s), Root(s, distinct);
    SimplifiedShape(s, distinct);
    if root == "" && cs == [] {
      RootOnly("");
      LengthIs(r, 0, |r|);
      assert r[0..] == r;
      ComponentOnly(r);
    } else {
      JoinedStarts(cs);
      ComponentsJoined(cs);
      RootThen(root, distinct, Joined(cs));
    }
  }

  // ---------------------------------------------------------------------------------------
  // Names put together from their parts

  /** The parts with a slash between them. */
  function Path(parts: seq<string>): string
  {
    if parts == [] then "" else if |parts| == 1 then parts[0] else parts[0] + "/" + Path(parts[1..])
  }

  /** The parts that are neither empty nor a dot. */
  function Kept(parts: seq<string>): seq<string>
  {
    if parts == [] then [] else (if parts[0] == "" || parts[0] == "." then [] else [parts[0]]) + Kept(parts[1..])
  }

  predicate NoSlash(parts: seq<string>) { forall k :: 0 <= k < |parts| ==> '/' !in parts[k] }

  lemma {:induction false} LengthOfPart(part: string, t: string)
    requires '/' !in part && (t != "" ==> t[0] == '/')
    ensures ComponentLength(part + t) == |part|
  {
    if part != "" {
      assert (part + t)[1..] == part[1..] + t;
      LengthOfPart(part[1..], t);
    }
  }

  lemma ComponentsOfPart(part: string, t: string)
    requires '/' !in part && (t != "" ==> t[0] == '/')
    ensures Components(part + t) == (if part == "" || part == "." then [] else [part]) + Components(t)
  {
    if part == "" {
      assert part + t == t;
    } else {
      LengthOfPart(part, t);
      assert (part + t)[..|part|] == part && (part + t)[|part|..] == t;
    }
  }

  lemma {:induction false} ComponentsOfPath(parts: seq<string>)
    requires NoSlash(parts)
    ensures Components(Path(parts)) == Kept(parts)
  {
    if |parts| == 1 {
      ComponentsOfPart(parts[0], "");
      assert parts[0] + "" == parts[0] && Kept(parts[1..]) == [];
    } else if parts != [] {
      var t := "/" + Path(parts[1..]);
      ComponentsOfPath(parts[1..]);
      ComponentsOfPart(parts[0], t);
      assert t[1..] == Path(parts[1..]) && parts[0] + "/" + Path(parts[1..]) == parts[0] + t;
    }
  }

  lemma {:induction false} PathOfLast(cs: seq<string>, last: string)
    ensures Path(cs + [last]) == Slashed(cs) + last
  {
    if cs == [] {
      assert cs + [last] == [last];
    } else {
      assert (cs + [last])[1..] == cs[1..] + [last];
      PathOfLast(cs[1..], last);
      SlashedFront(cs);
      assert cs[0] + "/" + (Slashed(cs[1..]) + last) == cs[0] + "/" + Slashed(cs[1..]) + last;
    }
  }

  lemma {:induction false} SlashesAhead(n: nat, t: string)
    requires t != "" ==> t[0] != '/'
    ensures Slashes(seq(n, _ => '/') + t) == n && Components(seq(n, _ => '/') + t) == Components(t)
  {
    var s := seq(n, _ => '/') + t;
    SlashesAre(s, n);
    SkipsSlashes(s, 0, n);
    assert s[0..] == s && s[n..] == t;
  }

  function RootOf(n: nat, distinct: bool): string
  {
    if n == 0 then "" else if n == 2 && distinct then "//" else "/"
  }

  /** A name of n slashes and parts with slashes between them becomes its root and the parts that are
      neither empty nor a dot, with one slash between them; only a relative name that ends in a dot and
      has no other parts remains a dot. */
  lemma PartsRemain(n: nat, parts: seq<string>, distinct: bool)
    requires NoSlash(parts) && (parts == [] || parts[0] != "")
    ensures Simplified(seq(n, _ => '/') + Path(parts), distinct)
         == if n == 0 && Kept(parts) == [] then (if parts != [] && parts[|parts| - 1] == "." then "." else "")
            else RootOf(n, distinct) + Path(Kept(parts))
  {
    hide Simplified, Path, Kept, Components, Slashes;
    var s := seq(n, _ => '/') + Path(parts);
    PathBegins(parts);
    SlashesAhead(n, Path(parts));
    ComponentsOfPath(parts);
    SimplifiedIs(s, n, Kept(parts), distinct);
    if n == 0 && Kept(parts) == [] {
      assert s == Path(parts);
      PathEnds(parts);
    }
  }

  lemma SimplifiedIs(s: string, n: nat, cs: seq<string>, distinct: bool)
    requires Slashes(s) == n && Components(s) == cs
    ensures Simplified(s, distinct)
         == if n == 0 && cs == [] then (if s != "" && s[|s| - 1] == '.' then "." else "")
            else RootOf(n, distinct) + Path(cs)
  {
    hide Slashes, Components, Path, Slashed;
    if cs == [] {
      NothingJoined();
    } else {
      PathOfLast(cs[..|cs| - 1], cs[|cs| - 1]);
      assert cs == cs[..|cs| - 1] + [cs[|cs| - 1]];
    }
  }

  lemma NothingJoined()
    ensures Joined([]) == Path([]) == ""
  {
  }

  lemma PathBegins(parts: seq<string>)
    requires NoSlash(parts) && (parts == [] || parts[0] != "")
    ensures Path(parts) != "" ==> Path(parts)[0] != '/'
  {
    if parts != [] { assert Path(parts)[0] == parts[0][0]; }
  }

  lemma {:induction false} PathEnds(parts: seq<string>)
    requires NoSlash(parts) && Kept(parts) == []
    ensures Path(parts) != "" && Path(parts)[|Path(parts)| - 1] == '.' <==> parts != [] && parts[|parts| - 1] == "."
  {
    if |parts| > 1 {
      PathEnds(parts[1..]);
      var rest := Path(parts[1..]);
      if rest == "" {
        assert Path(parts) == parts[0] + "/";
      } else {
        assert Path(parts)[|Path(parts)| - 1] == rest[|rest| - 1];
      }
    }
  }
}

/** The fields of an implementation repository entry as text: put_str and get_str in
    daemon/imr_impl.cc. */
module ImrStrings {

  // ---------------------------------------------------------------------------------------
  // Writing a field

  function EscapeChar(c: char): string
  {
    if c == '\'' || c == '\\' then ['\\', c] else [c]
  }

  function Escape(el: string): string
  {
    if el == "" then "" else Escape(el[..|el| - 1]) + EscapeChar(el[|el| - 1])
  }

  predicate HasBlank(el: string)
  {
    ' ' in el || '\t' in el
  }

  function Encode(el: string): string
  {
    if HasBlank(el) then "'" + Escape(el) + "'" else Escape(el)
  }

  /** The text s with the field el after it. */
  function Put(s: string, el: string): string
  {
    (if s == "" then "" else s + " ") + Encode(el)
  }

  method PutStr(s: string, el: string) returns (r: string)
    ensures r == Put(s, el)
  {
    hide Escape, HasBlank, EscapeChar;
    var needQuotes := HasBlank(el);
    r := s;
    if |r| > 0 { r := r + " "; }
    if needQuotes { r := r + "'"; }
    ghost var r0 := r;
    var i := 0;
    EscapeNothing(r0);
    while i < |el|
      invariant 0 <= i <= |el|
      invariant r == r0 + Escape(el[..i])
    {
      var c := el[i];
      EscapeNext(r0, el, i);
      if c == '\'' || c == '\\' { r := r + "\\"; }
      r := r + [c];
      i := i + 1;
    }
    assert el[..i] == el;
    if needQuotes { r := r + "'"; }
    Regroup(s, " ", "'", Escape(el));
  }

  lemma EscapeNext(r0: string, el: string, i: nat)
    requires i < |el|
    ensures r0 + Escape(el[..i + 1]) ==
      if el[i] == '\'' || el[i] == '\\' then r0 + Escape(el[..i]) + "\\" + [el[i]] else r0 + Escape(el[..i]) + [el[i]]
  {
    assert el[..i + 1][..i] == el[..i];
  }

  lemma EscapeNothing(r0: string)
    ensures r0 + Escape("") == r0
  {
  }

  lemma Regroup<T>(a: seq<T>, b: seq<T>, c: seq<T>, d: seq<T>)
    ensures a + (c + d + c) == a + c + d + c && a + b + (c + d + c) == a + b + c + d + c
    ensures [] + d == d && [] + (c + d + c) == c + d + c && [] + c + d == c + d
  {
  }

  // ---------------------------------------------------------------------------------------
  // Reading a field

  function SkipSpaces(s: string): (n: nat)
    ensures n <= |s|
  {
    if s != "" && s[0] == ' ' then 1 + SkipSpaces(s[1..]) else 0
  }

  /** A character in front of what a scan finds. */
  function Before(t: string, k: nat, scan: (string, nat)): (string, nat) { (t + scan.0, k + scan.1) }

  /** The closing quote, or a blank after a field without quotes. */
  predicate Ends(c: char, quoted: bool)
  {
    if quoted then c == '\'' else c == ' ' || c == '\t'
  }

  lemma BeforeTwice(a: string, j: nat, b: string, k: nat, scan: (string, nat))
    ensures Before(a, j, Before(b, k, scan)) == Before(a + b, j + k, scan)
    ensures Before("", 0, scan) == scan
  {
    assert a + (b + scan.0) == (a + b) + scan.0 && "" + scan.0 == scan.0;
  }

  /** The field at the start of s, and the length of its text. */
  function Scan(s: string, quoted: bool, esc: bool): (r: (string, nat))
    ensures r.1 <= |s|
  {
    if s == "" then ("", 0)
    else
      var c := s[0];
      if esc then Before([c], 1, Scan(s[1..], quoted, false))
      else if c == '\\' then Before("", 1, Scan(s[1..], quoted, true))
      else if Ends(c, quoted) then ("", 1)
      else Before([c], 1, Scan(s[1..], quoted, false))
  }

  /** The first field of s, and the text after it. */
  function Get(s: string): (r: (string, string))
    ensures |r.1| <= |s| && (r.0 != "" ==> |r.1| < |s|)
  {
    var pos := SkipSpaces(s);
    if pos == |s| then ("", s)
    else
      var quoted := s[pos] == '\'';
      var start := if quoted then pos + 1 else pos;
      var (out, n) := Scan(s[start..], quoted, false);
      ScanMoves(s[start..], quoted, false);
      (out, s[start + n..])
  }

  lemma ScanMoves(s: string, quoted: bool, esc: bool)
    ensures Scan(s, quoted, esc).0 != "" ==> Scan(s, quoted, esc).1 > 0
  {
  }

  /** After n characters of a field the scan has found out and goes on in tail. */
  predicate Scanned(field: string, out: string, n: nat, tail: string, quoted: bool, esc: bool)
  {
    Scan(field, quoted, false) == Before(out, n, Scan(tail, quoted, esc))
  }

  lemma ScanNext(field: string, out: string, n: nat, tail: string, quoted: bool, esc: bool)
    requires tail != "" && Scanned(field, out, n, tail, quoted, esc)
    ensures var c := tail[0];
      if !esc && c == '\\' then Scanned(field, out, n + 1, tail[1..], quoted, true)
      else if !esc && Ends(c, quoted) then Scan(field, quoted, false) == (out, n + 1)
      else Scanned(field, out + [c], n + 1, tail[1..], quoted, false)
  {
    var c := tail[0];
    BeforeTwice(out, n, [c], 1, Scan(tail[1..], quoted, false));
    BeforeTwice(out, n, "", 1, Scan(tail[1..], quoted, true));
    assert out + "" == out;
  }

  lemma ScanStart(field: string, quoted: bool)
    ensures Scanned(field, "", 0, field, quoted, false)
  {
    BeforeTwice("", 0, "", 0, Scan(field, quoted, false));
  }

  lemma ScanDone(field: string, out: string, n: nat, quoted: bool, esc: bool)
    requires Scanned(field, out, n, "", quoted, esc)
    ensures Scan(field, quoted, false) == (out, n)
  {
    assert out + "" == out;
  }

  method GetStr(s: string) returns (out: string, rest: string)
    ensures (out, rest) == Get(s)
  {
    hide Scan, Scanned, SkipSpaces;
    var pos := FirstNonSpace(s);
    if pos == |s| { return "", s; }
    var quoted := s[pos] == '\'';
    if quoted { pos := pos + 1; }
    ghost var start := pos;
    out := "";
    var esc := false;
    ScanStart(s[start..], quoted);
    while pos < |s|
      invariant start <= pos <= |s|
      invariant Scanned(s[start..], out, pos - start, s[pos..], quoted, esc)
    {
      var c := s[pos];
      ScanNext(s[start..], out, pos - start, s[pos..], quoted, esc);
      assert s[pos..][1..] == s[pos + 1..];
      if esc {
        out := out + [c];
        esc := false;
      } else if c == '\\' {
        esc := true;
      } else if Ends(c, quoted) {
        return out, s[pos + 1..];
      } else {
        out := out + [c];
      }
      pos := pos + 1;
    }
    assert s[pos..] == "";
    ScanDone(s[start..], out, pos - start, quoted, esc);
    rest := s[pos..];
  }

  method FirstNonSpace(s: string) returns (pos: nat)
    ensures pos == SkipSpaces(s)
  {
    pos := 0;
    while pos < |s| && s[pos] == ' '
      invariant pos <= |s| && SkipSpaces(s) == pos + SkipSpaces(s[pos..])
    {
      assert s[pos..][1..] == s[pos + 1..];
      pos := pos + 1;
    }
  }

  // ---------------------------------------------------------------------------------------
  // Reading undoes writing

  lemma ScanEscapeChar(c: char, rest: string, quoted: bool)
    requires quoted || (c != ' ' && c != '\t')
    ensures Scan(EscapeChar(c) + rest, quoted, false) == Before([c], |EscapeChar(c)|, Scan(rest, quoted, false))
  {
    var s := EscapeChar(c) + rest;
    if c == '\'' || c == '\\' {
      assert s[1..] == [c] + rest && s[1..][1..] == rest;
      BeforeTwice("", 1, [c], 1, Scan(rest, quoted, false));
      assert "" + [c] == [c];
    } else {
      assert s[1..] == rest;
    }
  }

  lemma {:induction false} ScanEscape(el: string, rest: string, quoted: bool)
    requires quoted || !HasBlank(el)
    ensures Scan(Escape(el) + rest, quoted, false) == Before(el, |Escape(el)|, Scan(rest, quoted, false))
  {
    if el == "" {
      assert "" + rest == rest;
      BeforeTwice("", 0, "", 0, Scan(rest, quoted, false));
    } else {
      var front, c := el[..|el| - 1], el[|el| - 1];
      ScanEscape(front, EscapeChar(c) + rest, quoted);
      ScanEscapeChar(c, rest, quoted);
      assert Escape(el) + rest == Escape(front) + (EscapeChar(c) + rest);
      assert front + [c] == el;
      BeforeTwice(front, |Escape(front)|, [c], |EscapeChar(c)|, Scan(rest, quoted, false));
    }
  }

  /** s consists of the fields ys, each followed by a space or by the end. */
  ghost predicate Spells(s: string, ys: seq<string>)
    decreases |ys|
  {
    var t := s[SkipSpaces(s)..];
    if ys == [] then t == "" else SpellsField(t, ys[0]) && Spells(t[|Encode(ys[0])|..], ys[1..])
  }

  ghost predicate SpellsField(t: string, el: string)
  {
    && el != "" && Encode(el) <= t
    && var rest := t[|Encode(el)|..]; rest == "" || rest[0] == ' '
  }

  lemma EncodeStarts(el: string)
    requires el != ""
    ensures Encode(el) != "" && Encode(el)[0] != ' ' && (Encode(el)[0] == '\'' <==> HasBlank(el))
  {
    EscapeStarts(el);
  }

  lemma {:induction false} EscapeStarts(el: string)
    requires el != ""
    ensures Escape(el) != "" && Escape(el)[0] == EscapeChar(el[0])[0]
  {
    if |el| > 1 {
      EscapeStarts(el[..|el| - 1]);
    } else {
      assert Escape(el[..0]) == "";
    }
  }

  lemma {:induction false} SkipSpacesStops(a: string, t: string)
    requires SkipSpaces(a) == |a| && (t == "" || t[0] != ' ')
    ensures SkipSpaces(a + t) == |a|
  {
    if a == "" {
      assert a + t == t;
    } else {
      SkipSpacesStops(a[1..], t);
      assert (a + t)[1..] == a[1..] + t;
    }
  }

  lemma {:induction false} SkipSpacesEarly(s: string, t: string)
    requires SkipSpaces(s) < |s|
    ensures SkipSpaces(s + t) == SkipSpaces(s)
  {
    assert (s + t)[0] == s[0];
    if s[0] == ' ' {
      SkipSpacesEarly(s[1..], t);
      assert (s + t)[1..] == s[1..] + t;
    }
  }

  function Fields(el: string): seq<string> { if el == "" then [] else [el] }

  lemma PutFirst(gap: string, el: string)
    requires SkipSpaces(gap) == |gap|
    ensures Spells(gap + Encode(el), Fields(el))
  {
    var e := Encode(el);
    if el == "" {
      assert gap + e == gap;
    } else {
      EncodeStarts(el);
      SkipSpacesStops(gap, e);
      assert (gap + e)[|gap|..] == e;
      assert Spells(e[|e|..], []);
    }
  }

  lemma PutBehind(t: string, el: string, x: string)
    requires SpellsField(t, el) && (x == "" || x[0] == ' ')
    ensures SpellsField(t + x, el) && (t + x)[|Encode(el)|..] == t[|Encode(el)|..] + x
  {
    var n := |Encode(el)|;
    assert (t + x)[..n] == t[..n];
    assert (t + x)[n..] == t[n..] + x;
  }

  lemma FieldStarts(t: string, el: string)
    requires SpellsField(t, el)
    ensures t != "" && t[0] == Encode(el)[0] && t[0] != ' ' && (t[0] == '\'' <==> HasBlank(el))
  {
    EncodeStarts(el);
  }

  lemma Associative<T>(a: seq<T>, b: seq<T>, c: seq<T>)
    ensures a + (b + c) == (a + b) + c && [] + c == c
  {
  }

  lemma HeadAndTail<T>(ys: seq<T>, zs: seq<T>)
    requires ys != []
    ensures [ys[0]] + (ys[1..] + zs) == ys + zs
  {
  }

  /** Writing a field adds it to the fields of the text. */
  lemma {:induction false} PutSpells(s: string, ys: seq<string>, sep: string, el: string)
    requires Spells(s, ys) && SkipSpaces(sep) == |sep| && (s == "" || sep != "") && (sep == "" || sep[0] == ' ')
    ensures Spells(s + (sep + Encode(el)), ys + Fields(el))
    decreases |ys|
  {
    hide Encode, SkipSpaces;
    var x := sep + Encode(el);
    if ys == [] {
      AllSpaces(s, sep);
      PutFirst(s + sep, el);
      Associative(s, sep, Encode(el));
      Associative(ys, ys, Fields(el));
    } else {
      NotBlank(s, ys);
      assert x[0] == sep[0] && SpellsField(s[SkipSpaces(s)..], ys[0]);
      var rest := s[SkipSpaces(s)..][|Encode(ys[0])|..];
      PutSpells(rest, ys[1..], sep, el);
      PutBehindFirst(s, ys, x, ys[1..] + Fields(el));
      HeadAndTail(ys, Fields(el));
    }
  }

  lemma NotBlank(s: string, ys: seq<string>)
    requires Spells(s, ys) && ys != []
    ensures SkipSpaces(s) < |s|
  {
    FieldStarts(s[SkipSpaces(s)..], ys[0]);
  }

  lemma PutBehindFirst(s: string, ys: seq<string>, x: string, zs: seq<string>)
    requires Spells(s, ys) && ys != [] && x != "" && x[0] == ' '
    requires Spells(s[SkipSpaces(s)..][|Encode(ys[0])|..] + x, zs)
    ensures Spells(s + x, [ys[0]] + zs)
  {
    hide SkipSpaces, Encode, SpellsField;
    var pos := SkipSpaces(s);
    NotBlank(s, ys);
    SkipSpacesEarly(s, x);
    PutBehind(s[pos..], ys[0], x);
    assert (s + x)[pos..] == s[pos..] + x;
    assert ([ys[0]] + zs)[1..] == zs && ([ys[0]] + zs)[0] == ys[0];
  }

  lemma {:induction false} AllSpaces(a: string, b: string)
    requires SkipSpaces(a) == |a| && SkipSpaces(b) == |b|
    ensures SkipSpaces(a + b) == |a + b|
  {
    if a == "" {
      assert a + b == b;
    } else {
      AllSpaces(a[1..], b);
      assert (a + b)[1..] == a[1..] + b;
    }
  }

  lemma GetField(t: string, el: string, quoted: bool)
    requires SpellsField(t, el) && quoted == HasBlank(el)
    ensures var body, rest := (if quoted then t[1..] else t), t[|Encode(el)|..];
      var scan := Scan(body, quoted, false);
      && scan.0 == el && (body[scan.1..] == rest || (rest != "" && body[scan.1..] == rest[1..]))
  {
    var e, rest := Encode(el), t[|Encode(el)|..];
    assert t == e + rest && el + "" == el;
    if quoted {
      assert t[1..] == Escape(el) + ("'" + rest);
      ScanEscape(el, "'" + rest, true);
      assert t[1..][|Escape(el)| + 1..] == rest;
    } else {
      ScanEscape(el, rest, false);
      if rest != "" { assert t[|e| + 1..] == rest[1..]; }
    }
  }

  /** Reading the first of the fields leaves the others. */
  lemma GetSpells(s: string, ys: seq<string>)
    requires Spells(s, ys)
    ensures ys == [] ==> Get(s) == ("", s)
    ensures ys != [] ==> Get(s).0 == ys[0] != "" && Spells(Get(s).1, ys[1..])
  {
    hide Encode, SkipSpaces, Scan;
    if ys == [] {
      assert s[|s|..] == "";
    } else {
      var pos := SkipSpaces(s);
      var t := s[pos..];
      FieldStarts(t, ys[0]);
      var quoted := HasBlank(ys[0]);
      GetField(t, ys[0], quoted);
      var start := if quoted then pos + 1 else pos;
      var body := if quoted then t[1..] else t;
      assert s[start..] == body;
      var n := Scan(body, quoted, false).1;
      assert s[start + n..] == body[n..];
      assert t[0] == s[pos];
      var rest := t[|Encode(ys[0])|..];
      if rest != "" && body[n..] == rest[1..] { SpellsAfterSpace(rest, ys[1..]); }
    }
  }

  lemma SpellsAfterSpace(s: string, ys: seq<string>)
    requires Spells(s, ys) && s != "" && s[0] == ' '
    ensures Spells(s[1..], ys)
  {
    assert s[SkipSpaces(s)..] == s[1..][SkipSpaces(s[1..])..];
  }

  function PutAll(s: string, xs: seq<string>): string
  {
    if xs == [] then s else Put(PutAll(s, xs[..|xs| - 1]), xs[|xs| - 1])
  }

  /** What the loop over get_str reads: fields up to the first empty one. */
  function GetAll(s: string): seq<string>
    decreases |s|
  {
    var (el, rest) := Get(s);
    if el == "" then [] else [el] + GetAll(rest)
  }

  function NonEmpty(xs: seq<string>): (ys: seq<string>)
  {
    if xs == [] then [] else NonEmpty(xs[..|xs| - 1]) + Fields(xs[|xs| - 1])
  }

  lemma NoFields()
    ensures Spells("", [])
  {
  }

  lemma {:induction false} PutAllSpells(xs: seq<string>)
    ensures Spells(PutAll("", xs), NonEmpty(xs))
  {
    hide Spells, Encode;
    if xs == [] {
      assert Spells("", []) by { NoFields(); }
    } else {
      var front, el := xs[..|xs| - 1], xs[|xs| - 1];
      PutAllSpells(front);
      var s := PutAll("", front);
      var sep := if s == "" then "" else " ";
      PutSpells(s, NonEmpty(front), sep, el);
      Associative(s, sep, Encode(el));
    }
  }

  lemma {:induction false} GetAllSpells(s: string, ys: seq<string>)
    requires Spells(s, ys)
    ensures GetAll(s) == ys
    decreases |ys|
  {
    hide Spells, Get;
    GetSpells(s, ys);
    if ys != [] { GetAllSpells(Get(s).1, ys[1..]); }
  }

  /** Repeated get_str undoes repeated put_str on every list of fields, whatever quotes,
      backslashes, blanks and tabs they contain, except that it does not see empty fields. */
  lemma GetAllAfterPutAll(xs: seq<string>)
    ensures GetAll(PutAll("", xs)) == NonEmpty(xs)
    ensures GetAll(PutAll("", xs)) == xs <==> "" !in xs
  {
    PutAllSpells(xs);
    GetAllSpells(PutAll("", xs), NonEmpty(xs));
    NonEmptyIff(xs);
  }

  lemma NonEmptyNext(xs: seq<string>, x: string)
    ensures NonEmpty(xs + [x]) == NonEmpty(xs) + Fields(x)
  {
    assert (xs + [x])[..|xs|] == xs;
  }

  /** An empty field is not read back. */
  lemma EmptyFieldIsDropped(a: string, b: string)
    requires a != "" && b != ""
    ensures GetAll(PutAll("", [a] + [""] + [b])) == [a] + [b]
  {
    NonEmptyNext([], a);
    NonEmptyNext([a], "");
    NonEmptyNext([a] + [""], b);
    GetAllAfterPutAll([a] + [""] + [b]);
    Associative([], [], [a]);
    Associative([a], [], []);
    assert NonEmpty([]) == [];
    hide PutAll, GetAll, NonEmpty;
    assert [] + [a] == [a];
  }

  lemma {:induction false} NonEmptyIff(xs: seq<string>)
    ensures |NonEmpty(xs)| <= |xs| && "" !in NonEmpty(xs)
    ensures "" !in xs ==> NonEmpty(xs) == xs
    ensures "" in xs ==> |NonEmpty(xs)| < |xs|
  {
    if xs != [] {
      var front := xs[..|xs| - 1];
      NonEmptyIff(front);
      assert xs == front + [xs[|xs| - 1]];
    }
  }
}

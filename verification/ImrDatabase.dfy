/** The text database of the implementation repository: save_imr and restore_imr in
    daemon/main.cc, over the list of definitions of ImplRepository_impl in daemon/imr_impl.cc. */
module ImrDatabase {
  import opened Characters
  import opened ImrEntry
  import opened ImrStrings
  import opened LineReader
  import opened Wrappers

  // ---------------------------------------------------------------------------------------
  // The number of entries

  function Digit(n: nat): char
    requires n < 10
  {
    '0' + n as char
  }

  function Decimal(n: nat): string
  {
    if n < 10 then [Digit(n)] else Decimal(n / 10) + [Digit(n % 10)]
  }

  predicate IsDigit(c: char) { '0' <= c <= '9' }

  /** The digits at the start of s, after those with the value v. */
  function ReadDigits(s: string, v: nat): nat
  {
    if s == "" || !IsDigit(s[0]) then v else ReadDigits(s[1..], 10 * v + (s[0] - '0') as nat)
  }

  /** atoi, converted to CORBA::ULong. */
  function Atoi(s: string): (n: nat)
  {
    if s != "" && IsSpace(s[0]) then Atoi(s[1..])
    else if s != "" && s[0] == '-' then ReadDigits(s[1..], 0) * 0xFFFF_FFFF % 0x1_0000_0000
    else if s != "" && s[0] == '+' then ReadDigits(s[1..], 0) % 0x1_0000_0000
    else ReadDigits(s, 0) % 0x1_0000_0000
  }

  lemma {:induction false} ReadDigitsSplit(s: string, c: char, v: nat)
    requires (forall i :: 0 <= i < |s| ==> IsDigit(s[i])) && IsDigit(c)
    ensures ReadDigits(s + [c], v) == 10 * ReadDigits(s, v) + (c - '0') as nat
  {
    if s == "" {
      assert s + [c] == [c] && [c][1..] == "";
    } else {
      assert (s + [c])[1..] == s[1..] + [c];
      ReadDigitsSplit(s[1..], c, 10 * v + (s[0] - '0') as nat);
    }
  }

  lemma {:induction false} ReadDecimal(n: nat)
    ensures (forall i :: 0 <= i < |Decimal(n)| ==> IsDigit(Decimal(n)[i])) && Decimal(n) != ""
    ensures ReadDigits(Decimal(n), 0) == n
  {
    if n < 10 {
      assert [Digit(n)][1..] == "";
    } else {
      ReadDecimal(n / 10);
      ReadDigitsSplit(Decimal(n / 10), Digit(n % 10), 0);
    }
  }

  function TenToThe(k: nat): nat { if k == 0 then 1 else 10 * TenToThe(k - 1) }

  lemma {:induction false} DecimalIsShort(n: nat, k: nat)
    requires k > 0 && n < TenToThe(k)
    ensures |Decimal(n)| <= k
  {
    if n >= 10 { DecimalIsShort(n / 10, k - 1); }
  }

  lemma AtoiDecimal(n: nat)
    requires n < 0x8000_0000
    ensures Atoi(Decimal(n)) == n && |Decimal(n)| <= 10 && '\n' !in Decimal(n)
  {
    ReadDecimal(n);
    assert IsDigit(Decimal(n)[0]);
    assert TenToThe(10) == 10 * (10 * (10 * (10 * (10 * (10 * (10 * (10 * TenToThe(2))))))));
    DecimalIsShort(n, 10);
  }

  // ---------------------------------------------------------------------------------------
  // Saving

  /** The entries that are not made automatically. */
  function Saved(defs: seq<Entry>): seq<Entry>
  {
    if defs == [] then []
    else
      var before, last := Saved(defs[..|defs| - 1]), defs[|defs| - 1];
      if last.command != "" then before + [last] else before
  }

  /** Nothing but the entries without a command is left out, and the others keep their order. */
  lemma {:induction false} SavedOfBoth(a: seq<Entry>, b: seq<Entry>)
    ensures Saved(a + b) == Saved(a) + Saved(b)
    ensures |b| == 1 ==> Saved(b) == if b[0].command == "" then [] else b
  {
    if b == [] {
      assert a + b == a;
    } else {
      var front := b[..|b| - 1];
      assert (a + b)[..|a + b| - 1] == a + front;
      SavedOfBoth(a, front);
    }
  }

  function Lines(es: seq<Entry>): string
  {
    if es == [] then "" else Lines(es[..|es| - 1]) + Text(es[|es| - 1]) + "\n"
  }

  function FileOf(defs: seq<Entry>): string
  {
    Decimal(|Saved(defs)|) + "\n" + Lines(Saved(defs))
  }

  // ---------------------------------------------------------------------------------------
  // Restoring

  /** Add n entries to the definitions; None if an entry aborts the program. */
  function ReadOnto(defs: seq<Entry>, s: Stream, n: nat): Option<seq<Entry>>
    decreases n
  {
    if n == 0 then Some(defs)
    else
      var (line, t) := GetLine(s);
      if t.eof then Some(defs)
      else
        match Parse(line)
        case None => None
        case Some(e) => ReadOnto(defs + [e], t, n - 1)
  }

  function Restored(defs: seq<Entry>, file: string): Option<seq<Entry>>
  {
    var (line, t) := GetLine(Stream(file, false, false));
    if t.eof then Some(defs) else ReadOnto(defs, t, Atoi(line))
  }

  class ImplRepository {
    var defs: seq<Entry>

    constructor ()
      ensures defs == []
    {
      defs := [];
    }

    method Create(e: Entry)
      modifies this
      ensures defs == old(defs) + [e]
    {
      defs := defs + [e];
    }

    /** Fails, and changes nothing, where the constructor of the definition would abort. */
    method Restore(asString: string) returns (ok: bool)
      modifies this
      ensures ok <==> Parse(asString).Some?
      ensures defs == if ok then old(defs) + [Parse(asString).value] else old(defs)
    {
      var r := FromString(asString);
      ok := r.Some?;
      if ok { defs := defs + [r.value]; }
    }

    /** Writes the file in one pass for the number of entries and one for the entries. */
    method SaveImr() returns (file: string)
      ensures file == FileOf(defs)
    {
      var length := 0;
      var i := 0;
      while i < |defs|
        invariant i <= |defs| && length == |Saved(defs[..i])|
      {
        SavedNext(defs, i);
        if |defs[i].command| > 0 { length := length + 1; }
        i := i + 1;
      }
      assert defs[..i] == defs;
      file := Decimal(length) + "\n";
      ghost var start := file;
      i := 0;
      assert file + "" == file;
      while i < |defs|
        invariant i <= |defs| && file == start + Lines(Saved(defs[..i]))
      {
        SavedNext(defs, i);
        LinesNext(start, Saved(defs[..i]), defs[i]);
        if |defs[i].command| > 0 {
          var s := ToString(defs[i]);
          file := file + s + "\n";
        }
        i := i + 1;
      }
      assert defs[..i] == defs;
    }

    method RestoreImr(file: string) returns (ok: bool)
      modifies this
      ensures ok <==> Restored(old(defs), file).Some?
      ensures ok ==> defs == Restored(old(defs), file).value
    {
      var line, s := ReadLine(Stream(file, false, false));
      if s.eof { return true; }
      var entries := Atoi(line);
      ok := RestoreEntries(s, entries);
    }

    method RestoreEntries(start: Stream, entries: nat) returns (ok: bool)
      modifies this
      ensures ok <==> ReadOnto(old(defs), start, entries).Some?
      ensures ok ==> defs == ReadOnto(old(defs), start, entries).value
    {
      hide Parse, GetLine;
      var s, line, i := start, "", 0;
      while i < entries
        invariant i <= entries
        invariant ReadOnto(defs, s, entries - i) == ReadOnto(old(defs), start, entries)
      {
        line, s := ReadLine(s);
        if s.eof { return true; }
        ok := Restore(line);
        if !ok { return false; }
        i := i + 1;
      }
      ok := true;
    }
  }

  lemma SavedNext(defs: seq<Entry>, i: nat)
    requires i < |defs|
    ensures Saved(defs[..i + 1]) == if defs[i].command != "" then Saved(defs[..i]) + [defs[i]] else Saved(defs[..i])
  {
    assert defs[..i + 1][..i] == defs[..i];
  }

  lemma LinesNext(start: string, es: seq<Entry>, e: Entry)
    ensures start + Lines(es + [e]) == start + Lines(es) + Text(e) + "\n"
  {
    assert (es + [e])[..|es|] == es;
    Associative(Lines(es), Text(e), "\n");
    Associative(start, Lines(es), Text(e) + "\n");
    Associative(start + Lines(es), Text(e), "\n");
  }

  // ---------------------------------------------------------------------------------------
  // The round trip

  /** A line of the file holds the whole entry. */
  predicate OneLine(e: Entry)
  {
    '\n' !in e.name && '\n' !in e.command && forall i :: 0 <= i < |e.objs| ==>
        '\n' !in e.objs[i].repoid && '\n' !in e.objs[i].tag
  }

  predicate AllOneLine(xs: seq<string>)
  {
    forall i :: 0 <= i < |xs| ==> '\n' !in xs[i]
  }

  lemma InAppend(x: char, a: string, b: string)
    ensures x in a + b <==> x in a || x in b
  {
  }

  lemma EscapeCharNewline(c: char)
    ensures '\n' in EscapeChar(c) <==> c == '\n'
    ensures '\n' in [c] <==> c == '\n'
  {
  }

  lemma {:induction false} EscapeNewline(el: string)
    ensures '\n' in Escape(el) <==> '\n' in el
  {
    if el != "" {
      var front, c := el[..|el| - 1], el[|el| - 1];
      EscapeNewline(front);
      assert el == front + [c];
      EscapeCharNewline(c);
      InAppend('\n', front, [c]);
      InAppend('\n', Escape(front), EscapeChar(c));
    }
  }

  lemma PutNewline(s: string, el: string)
    ensures '\n' in Put(s, el) <==> '\n' in s || '\n' in el
  {
    EscapeNewline(el);
  }

  lemma {:induction false} PutAllNewline(xs: seq<string>)
    ensures '\n' !in PutAll("", xs) <==> AllOneLine(xs)
  {
    hide Put, Encode;
    if xs != [] {
      var front := xs[..|xs| - 1];
      PutAllNewline(front);
      PutNewline(PutAll("", front), xs[|xs| - 1]);
      assert xs == front + [xs[|xs| - 1]];
    }
  }

  lemma TextNewline(e: Entry)
    ensures '\n' !in Text(e) <==> OneLine(e)
  {
    hide PutAll;
    var texts := ObjTexts(e.objs);
    PutAllNewline(FieldsOf(e));
    forall i | 0 <= i < |texts| ensures '\n' !in texts[i] <==> '\n' !in e.objs[i].repoid && '\n' !in e.objs[i].tag {
      var o := e.objs[i];
      if o.tag != "" { assert texts[i] == o.repoid + "#" + o.tag; }
    }
    if AllOneLine(FieldsOf(e)) {
      assert FieldsOf(e)[0] == e.name && FieldsOf(e)[2] == e.command;
      assert forall i :: 0 <= i < |texts| ==> FieldsOf(e)[3 + i] == texts[i];
    }
  }

  lemma {:induction false} ScanNewline(s: string, quoted: bool, esc: bool)
    requires '\n' !in s
    ensures '\n' !in Scan(s, quoted, esc).0
  {
    if s != "" {
      assert s[0] in s && forall c :: c in s[1..] ==> c in s;
      ScanNewline(s[1..], quoted, false);
      ScanNewline(s[1..], quoted, true);
    }
  }

  lemma GetNewline(s: string)
    requires '\n' !in s
    ensures '\n' !in Get(s).0 && '\n' !in Get(s).1
  {
    var pos := SkipSpaces(s);
    if pos < |s| {
      var quoted := s[pos] == '\'';
      var start := if quoted then pos + 1 else pos;
      ScanNewline(s[start..], quoted, false);
    }
  }

  lemma {:induction false} GetAllNewline(s: string)
    requires '\n' !in s
    ensures AllOneLine(GetAll(s))
    decreases |s|
  {
    hide Get;
    GetNewline(s);
    if Get(s).0 != "" { GetAllNewline(Get(s).1); }
  }

  lemma ParseObjNewline(rid: string)
    requires '\n' !in rid
    ensures '\n' !in ParseObj(rid).repoid && '\n' !in ParseObj(rid).tag
  {
  }

  /** What is read from one line has no newline in it. */
  lemma ParseOneLine(s: string)
    requires '\n' !in s
    ensures Parse(s).Some? ==> OneLine(Parse(s).value)
  {
    hide Get, GetAll;
    var s1 := Get(s).1;
    var s2 := Get(s1).1;
    var s3 := Get(s2).1;
    GetNewline(s);
    GetNewline(s1);
    GetNewline(s2);
    GetAllNewline(s3);
    var rids := GetAll(s3);
    forall i | 0 <= i < |rids| ensures '\n' !in ParseObj(rids[i]).repoid && '\n' !in ParseObj(rids[i]).tag {
      ParseObjNewline(rids[i]);
    }
  }

  lemma {:induction false} LinesFront(es: seq<Entry>)
    requires es != []
    ensures Lines(es) == Text(es[0]) + "\n" + Lines(es[1..])
  {
    hide Text;
    var n := |es| - 1;
    if n == 0 {
      assert es[..0] == [] && es[1..] == [];
      LinesNext("", [], es[0]);
    } else {
      LinesFront(es[..n]);
      assert es[..n][1..] == es[1..][..n - 1];
      LinesNext("", es[1..n], es[n]);
      assert es[1..] == es[1..n] + [es[n]];
      Joined(Text(es[0]) + "\n", Lines(es[1..n]), Text(es[n]), "\n");
    }
  }

  lemma Joined(a: string, b: string, c: string, d: string)
    ensures (a + b) + c + d == a + ("" + b + c + d)
    ensures "" + b + c + d == b + c + d
  {
  }

  lemma {:induction false} ReadOntoAdds(defs: seq<Entry>, s: Stream, n: nat)
    ensures ReadOnto(defs, s, n).Some? ==> defs <= ReadOnto(defs, s, n).value
    decreases n
  {
    hide Parse, GetLine;
    if n > 0 {
      var (line, t) := GetLine(s);
      if !t.eof && Parse(line).Some? { ReadOntoAdds(defs + [Parse(line).value], t, n - 1); }
    }
  }

  predicate Good(e: Entry)
  {
    Storable(e) && OneLine(e)
  }

  /** If another entry than e is read first, the entries are not read back. */
  lemma ReadsAnother(defs: seq<Entry>, e: Entry, rest: seq<Entry>, other: Entry, s: Stream, n: nat)
    requires other != e
    ensures ReadOnto(defs + [other], s, n) != Some(defs + ([e] + rest))
  {
    ReadOntoAdds(defs + [other], s, n);
    assert (defs + [other])[|defs|] == other && (defs + ([e] + rest))[|defs|] == e;
  }

  lemma ReadFirst(e: Entry, after: string, line: string, t: Stream)
    requires |Text(e)| <= LINE_MAX
    requires (line, t) == GetLine(Stream(Text(e) + "\n" + after, false, false))
    ensures OneLine(e) ==> line == Text(e) && t == Stream(after, false, false)
    ensures !OneLine(e) ==> (Parse(line).Some? ==> Parse(line).value != e)
  {
    hide Parse, Text;
    TextNewline(e);
    if OneLine(e) {
      GetLineOf(Text(e), after, 0);
    } else {
      NoNewlineInLine(Text(e) + "\n" + after, 0);
      ParseOneLine(line);
    }
  }

  lemma {:induction false} EntriesComeBack(defs: seq<Entry>, es: seq<Entry>)
    requires forall i :: 0 <= i < |es| ==> |Text(es[i])| <= LINE_MAX
    ensures ReadOnto(defs, Stream(Lines(es), false, false), |es|) == Some(defs + es) <==>
        forall i :: 0 <= i < |es| ==> Good(es[i])
    decreases |es|
  {
    hide Parse, GetLine, Text, Lines, Storable, OneLine;
    if es == [] {
      assert defs + es == defs;
    } else {
      var e, rest := es[0], es[1..];
      assert es == [e] + rest;
      LinesFront(es);
      var s := Stream(Text(e) + "\n" + Lines(rest), false, false);
      var (line, t) := GetLine(s);
      ReadFirst(e, Lines(rest), line, t);
      EntryRoundTrip(e);
      EntriesComeBack(defs + [e], rest);
      assert (defs + [e]) + rest == defs + es;
      assert (forall i :: 0 <= i < |es| ==> Good(es[i])) <==> Good(e) && forall i :: 0 <= i < |rest| ==> Good(rest[i]);
      if Parse(line).Some? && Parse(line).value != e {
        ReadsAnother(defs, e, rest, Parse(line).value, t, |rest|);
      }
    }
  }

  /** restore_imr after save_imr adds to the definitions, in order, exactly the saved entries, if
      and only if each of these has a name, an object for each of which id and tag can be told
      apart, and no newline; lines must fit the buffer. */
  lemma DatabaseRoundTrip(before: seq<Entry>, defs: seq<Entry>)
    requires |Saved(defs)| < 0x8000_0000
    requires forall i :: 0 <= i < |Saved(defs)| ==> |Text(Saved(defs)[i])| <= LINE_MAX
    ensures Restored(before, FileOf(defs)) == Some(before + Saved(defs)) <==>
        forall i :: 0 <= i < |Saved(defs)| ==> Good(Saved(defs)[i])
  {
    hide Text, Decimal, Atoi, Good, Lines;
    var es := Saved(defs);
    AtoiDecimal(|es|);
    GetLineOf(Decimal(|es|), Lines(es), 0);
    EntriesComeBack(before, es);
  }
}

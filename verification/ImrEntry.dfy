/** An entry of the implementation repository as one line of text: ImplementationDef_impl::tostring
    and the constructor from a string in daemon/imr_impl.cc. */
module ImrEntry {
  import opened ImrStrings
  import opened Wrappers

  /** An object tag is a string of octets other than zero; an empty tag is no tag. */
  datatype ObjectInfo = ObjectInfo(repoid: string, tag: string)

  /** The only activation mode is ActivatePOA. */
  datatype Entry = Entry(name: string, command: string, objs: seq<ObjectInfo>)

  // ---------------------------------------------------------------------------------------
  // Writing

  function ObjText(o: ObjectInfo): string
  {
    if o.tag != "" then o.repoid + "#" + o.tag else o.repoid
  }

  function ObjTexts(objs: seq<ObjectInfo>): (r: seq<string>)
    ensures |r| == |objs| && forall i :: 0 <= i < |objs| ==> r[i] == ObjText(objs[i])
  {
    seq(|objs|, i requires 0 <= i < |objs| => ObjText(objs[i]))
  }

  function FieldsOf(e: Entry): seq<string>
  {
    [e.name, "poa", e.command] + ObjTexts(e.objs)
  }

  function Text(e: Entry): string
  {
    PutAll("", FieldsOf(e))
  }

  method ToString(e: Entry) returns (s: string)
    ensures s == Text(e)
  {
    s := PutStr("", e.name);
    s := PutStr(s, "poa");
    s := PutStr(s, e.command);
    FirstThree(e);
    hide PutAll, Put;
    var i := 0;
    while i < |e.objs|
      invariant 0 <= i <= |e.objs| && s == PutAll("", FieldsOf(e)[..3 + i])
    {
      PutNext(FieldsOf(e), 3 + i);
      s := PutObj(s, e.objs[i]);
      i := i + 1;
    }
    assert FieldsOf(e)[..3 + i] == FieldsOf(e);
  }

  method PutObj(s: string, o: ObjectInfo) returns (r: string)
    ensures r == Put(s, ObjText(o))
  {
    if |o.tag| > 0 {
      var oi := o.repoid;
      oi := oi + "#";
      oi := oi + o.tag;
      r := PutStr(s, oi);
    } else {
      r := PutStr(s, o.repoid);
    }
  }

  lemma PutNext(fields: seq<string>, k: nat)
    requires k < |fields|
    ensures PutAll("", fields[..k + 1]) == Put(PutAll("", fields[..k]), fields[k])
  {
    assert fields[..k + 1][..k] == fields[..k];
  }

  lemma FirstThree(e: Entry)
    ensures PutAll("", FieldsOf(e)[..3]) == Put(Put(Put("", e.name), "poa"), e.command)
  {
    var f := FieldsOf(e);
    assert f[..3][..2] == f[..2] && f[..2][..1] == f[..1] && f[..1][..0] == [];
    assert PutAll("", f[..1]) == Put("", e.name);
    assert PutAll("", f[..2]) == Put(PutAll("", f[..1]), "poa");
  }

  // ---------------------------------------------------------------------------------------
  // Reading

  /** Position of the last #, or |s|. */
  function LastHash(s: string): (p: nat)
    ensures p <= |s| && (p < |s| ==> s[p] == '#')
  {
    if s == "" then 0
    else if s[|s| - 1] == '#' then |s| - 1
    else
      var p := LastHash(s[..|s| - 1]);
      if p == |s| - 1 then |s| else p
  }

  function ParseObj(rid: string): ObjectInfo
  {
    var p := LastHash(rid);
    if p < |rid| then ObjectInfo(rid[..p], rid[p + 1..]) else ObjectInfo(rid, "")
  }

  function ParseObjs(rids: seq<string>): (r: seq<ObjectInfo>)
    ensures |r| == |rids| && forall i :: 0 <= i < |rids| ==> r[i] == ParseObj(rids[i])
  {
    seq(|rids|, i requires 0 <= i < |rids| => ParseObj(rids[i]))
  }

  /** None if an assertion of the constructor fails. */
  function Parse(s: string): Option<Entry>
  {
    var (name, s1) := Get(s);
    if name == "" then None
    else
      var (mode, s2) := Get(s1);
      if mode != "poa" then None
      else
        var (command, s3) := Get(s2);
        if command == "" || GetAll(s3) == [] then None
        else Some(Entry(name, command, ParseObjs(GetAll(s3))))
  }

  method FromString(asString: string) returns (r: Option<Entry>)
    ensures r == Parse(asString)
  {
    var name, s := GetStr(asString);
    if |name| == 0 { return None; }
    var mode;
    mode, s := GetStr(s);
    if mode != "poa" { return None; }
    var command;
    command, s := GetStr(s);
    if |command| == 0 { return None; }
    var objs := ReadObjs(s);
    if |objs| == 0 { return None; }
    r := Some(Entry(name, command, objs));
  }

  method ReadObjs(text: string) returns (objs: seq<ObjectInfo>)
    ensures objs == ParseObjs(GetAll(text))
  {
    objs := [];
    var rid, s := GetStr(text);
    while |rid| > 0
      invariant objs + ParseObjs((if rid == "" then [] else [rid]) + GetAll2(rid, s)) == ParseObjs(GetAll(text))
      decreases if rid == "" then 0 else 1 + |s|
    {
      var p := RFind(rid);
      var o := if p < |rid| then ObjectInfo(rid[..p], rid[p + 1..]) else ObjectInfo(rid, "");
      ReadOne(rid, GetAll(s), objs);
      objs := objs + [o];
      rid, s := GetStr(s);
    }
    assert objs + [] == objs;
  }

  /** The fields after rid, if there are any. */
  function GetAll2(rid: string, s: string): seq<string>
  {
    if rid == "" then [] else GetAll(s)
  }

  lemma ReadOne(rid: string, rest: seq<string>, objs: seq<ObjectInfo>)
    ensures objs + ParseObjs([rid] + rest) == (objs + [ParseObj(rid)]) + ParseObjs(rest)
  {
  }

  method RFind(s: string) returns (p: nat)
    ensures p == LastHash(s)
  {
    p := |s|;
    assert s[..p] == s;
    while p > 0 && s[p - 1] != '#'
      invariant p <= |s|
      invariant LastHash(s) == if LastHash(s[..p]) == p then |s| else LastHash(s[..p])
    {
      assert s[..p][..p - 1] == s[..p - 1];
      p := p - 1;
    }
    if p == 0 { return |s|; }
    p := p - 1;
  }

  // ---------------------------------------------------------------------------------------
  // Which entries come back

  predicate StorableObj(o: ObjectInfo)
  {
    if o.tag != "" then '#' !in o.tag else o.repoid != "" && '#' !in o.repoid
  }

  predicate Storable(e: Entry)
  {
    e.name != "" && e.command != "" && e.objs != [] && forall i :: 0 <= i < |e.objs| ==> StorableObj(e.objs[i])
  }

  lemma {:induction false} LastHashOf(s: string)
    ensures LastHash(s) < |s| <==> '#' in s
  {
    if s != "" {
      LastHashOf(s[..|s| - 1]);
      assert s == s[..|s| - 1] + [s[|s| - 1]];
    }
  }

  lemma {:induction false} LastHashBefore(a: string, b: string)
    requires '#' !in b
    ensures LastHash(a + "#" + b) == |a|
  {
    var s := a + "#" + b;
    if b != "" {
      var c := b[..|b| - 1];
      LastHashBefore(a, c);
      assert s[..|s| - 1] == a + "#" + c && s[|s| - 1] == b[|b| - 1];
      assert b == c + [b[|b| - 1]];
    }
  }

  /** An object comes back if and only if its tag, or without a tag its id, has no #. */
  lemma ObjRoundTrip(o: ObjectInfo)
    ensures ParseObj(ObjText(o)) == o <==> (if o.tag != "" then '#' !in o.tag else '#' !in o.repoid)
    ensures ObjText(o) != "" && ParseObj(ObjText(o)) == o <==> StorableObj(o)
  {
    var s := ObjText(o);
    if o.tag == "" {
      LastHashOf(o.repoid);
    } else if '#' !in o.tag {
      LastHashBefore(o.repoid, o.tag);
      assert s[..|o.repoid|] == o.repoid && s[|o.repoid| + 1..] == o.tag;
    } else {
      LastHashOf(s);
      assert s[|o.repoid|] == '#';
      LastHashOfTail(o.repoid + "#", o.tag);
      assert s == o.repoid + "#" + o.tag;
    }
  }

  /** A # in the tag is taken for the one between id and tag. */
  lemma HashInTagIsMistaken()
    ensures ParseObj(ObjText(ObjectInfo("IDL:A:1.0", "x#y"))) == ObjectInfo("IDL:A:1.0#x", "y")
  {
    var o := ObjectInfo("IDL:A:1.0#x", "y");
    ObjRoundTrip(o);
    assert "IDL:A:1.0" + "#" + "x#y" == "IDL:A:1.0#x" + "#" + "y";
  }

  lemma {:induction false} LastHashOfTail(a: string, b: string)
    requires '#' in b
    ensures LastHash(a + b) >= |a|
  {
    var s := a + b;
    var c := b[..|b| - 1];
    assert s[..|s| - 1] == a + c && s[|s| - 1] == b[|b| - 1] && b == c + [b[|b| - 1]];
    if b[|b| - 1] != '#' { LastHashOfTail(a, c); }
  }

  /** What the constructor makes of the fields of a line. */
  function FromFields(ys: seq<string>): Option<Entry>
  {
    if |ys| < 4 || ys[1] != "poa" then None else Some(Entry(ys[0], ys[2], ParseObjs(ys[3..])))
  }

  lemma ParseIsFromFields(s: string, ys: seq<string>)
    requires Spells(s, ys)
    ensures Parse(s) == FromFields(ys)
  {
    hide Spells, Get, GetAll;
    GetSpells(s, ys);
    if ys != [] {
      SpelledNonEmpty(s, ys);
      var s1, ys1 := Get(s).1, ys[1..];
      GetSpells(s1, ys1);
      if ys1 != [] {
        var s2, ys2 := Get(s1).1, ys1[1..];
        GetSpells(s2, ys2);
        if ys2 != [] {
          SpelledNonEmpty(s2, ys2);
          GetAllSpells(Get(s2).1, ys2[1..]);
          assert ys2[1..] == ys[3..] && ys2[0] == ys[2];
        }
      }
    }
  }

  lemma SpelledNonEmpty(s: string, ys: seq<string>)
    requires Spells(s, ys) && ys != []
    ensures ys[0] != ""
  {
  }

  lemma {:induction false} NonEmptyAppend(a: seq<string>, b: seq<string>)
    ensures NonEmpty(a + b) == NonEmpty(a) + NonEmpty(b)
  {
    if b == [] {
      assert a + b == a;
    } else {
      var front := b[..|b| - 1];
      NonEmptyAppend(a, front);
      assert (a + b)[..|a + b| - 1] == a + front;
      Associative(NonEmpty(a), NonEmpty(front), Fields(b[|b| - 1]));
    }
  }

  lemma NonEmptyFields(e: Entry)
    ensures NonEmpty(FieldsOf(e)) == Fields(e.name) + ["poa"] + Fields(e.command) + NonEmpty(ObjTexts(e.objs))
  {
    var a := [e.name, "poa", e.command];
    NonEmptyAppend(a, ObjTexts(e.objs));
    assert a[..2] == [e.name, "poa"] && a[..2][..1] == [e.name] && a[..1][..0] == [];
    assert NonEmpty([e.name]) == Fields(e.name);
  }

  lemma ObjsRoundTrip(objs: seq<ObjectInfo>)
    ensures ParseObjs(NonEmpty(ObjTexts(objs))) == objs <==> forall i :: 0 <= i < |objs| ==> StorableObj(objs[i])
  {
    var texts := ObjTexts(objs);
    NonEmptyIff(texts);
    forall i | 0 <= i < |objs| ensures texts[i] != "" && ParseObj(texts[i]) == objs[i] <==> StorableObj(objs[i]) {
      ObjRoundTrip(objs[i]);
    }
    if "" !in texts {
      assert ParseObjs(texts) == objs <==> forall i :: 0 <= i < |objs| ==> ParseObj(texts[i]) == objs[i];
    }
  }

  lemma FullFields(e: Entry, objs: seq<string>)
    ensures FromFields([e.name] + ["poa"] + [e.command] + objs) == Some(e) <==> objs != [] && ParseObjs(objs) == e.objs
  {
    var ys := [e.name] + ["poa"] + [e.command] + objs;
    assert ys[3..] == objs;
  }

  lemma FieldsRoundTrip(e: Entry, ys: seq<string>)
    requires ys == NonEmpty(FieldsOf(e)) && "" !in ys
    ensures FromFields(ys) == Some(e) <==> Storable(e)
  {
    var objs := NonEmpty(ObjTexts(e.objs));
    NonEmptyFields(e);
    ObjsRoundTrip(e.objs);
    NonEmptyIff(ObjTexts(e.objs));
    if e.name != "" && e.command != "" {
      FullFields(e, objs);
    } else if FromFields(ys).Some? {
      assert ys[0] in ys && ys[2] in ys;
    }
  }

  /** An entry comes back from its text if and only if it has a name, a command and at least one
      object, and each object has an id that can be told from its tag. */
  lemma EntryRoundTrip(e: Entry)
    ensures Parse(Text(e)) == Some(e) <==> Storable(e)
  {
    var ys := NonEmpty(FieldsOf(e));
    PutAllSpells(FieldsOf(e));
    ParseIsFromFields(Text(e), ys);
    NonEmptyIff(FieldsOf(e));
    FieldsRoundTrip(e, ys);
  }
}

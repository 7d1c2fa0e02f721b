/** The switch over hashes selects the handler that the chain of comparisons selects. */
module DispatcherMeaning {
  import opened Dispatcher
  import opened Wrappers

  predicate Answers(h: Handler, i: Interface, name: string)
  {
    ValidHandler(h, i) && NameOf(h, i) == name
  }

  // ---------------------------------------------------------------------------------------
  // The chain

  /** The accessors of a name go before its operations, and within a kind the index decides. */
  ghost predicate FirstInChain(r: Option<Handler>, i: Interface, name: string)
  {
    match r
    case None => forall h :: !Answers(h, i, name)
    case Some(f) =>
      && Answers(f, i, name)
      && (forall h :: Answers(h, i, name) && h.kind == f.kind ==> f.index <= h.index)
      && (f.kind == Op ==> forall h :: Answers(h, i, name) ==> h.kind == Op)
  }

  predicate NoBreak(stmts: seq<Stmt>)
  {
    forall k :: 0 <= k < |stmts| ==> !stmts[k].Break?
  }

  lemma {:induction false} ExecAppend(a: seq<Stmt>, b: seq<Stmt>, name: string)
    requires NoBreak(a)
    ensures Exec(a + b, name) == if Exec(a, name).Some? then Exec(a, name) else Exec(b, name)
  {
    if a == [] {
      assert a + b == b;
    } else {
      assert (a + b)[0] == a[0] && (a + b)[1..] == a[1..] + b;
      ExecAppend(a[1..], b, name);
    }
  }

  lemma ExecTest(t: Stmt, rest: seq<Stmt>, name: string)
    requires t.Test?
    ensures Exec([t] + rest, name) == if t.name == name then Some(t.handler) else Exec(rest, name)
  {
    assert ([t] + rest)[1..] == rest;
  }

  /** r answers for the accessors of the first n attributes. */
  ghost predicate FirstAccessor(r: Option<Handler>, i: Interface, name: string, n: nat)
  {
    match r
    case None => forall h :: Answers(h, i, name) && h.kind != Op ==> h.index >= n
    case Some(f) =>
      && Answers(f, i, name) && f.kind != Op && f.index < n
      && forall h :: Answers(h, i, name) && h.kind != Op ==> f.index <= h.index
  }

  lemma AttrTestsFirst(i: Interface, n: nat, name: string)
    requires n < |i.attrs|
    ensures var tests, g, s := AttrTests(i.attrs[n], n, {AttrRead, AttrWrite}), Handler(AttrRead, n),
        Handler(AttrWrite, n);
      && NoBreak(tests)
      && Exec(tests, name) == if Answers(g, i, name) then Some(g) else if Answers(s, i, name) then Some(s) else None
  {
    var a := i.attrs[n];
    var get, put := Test("_get_" + a.name, Handler(AttrRead, n)), Test("_set_" + a.name, Handler(AttrWrite, n));
    ExecTest(get, if a.readOnly then [] else [put], name);
    ExecTest(put, [], name);
    assert [put] + [] == [put];
  }

  lemma {:induction false} AttrChainFirst(i: Interface, n: nat, name: string)
    requires n <= |i.attrs|
    ensures NoBreak(AttrChain(i.attrs, n)) && FirstAccessor(Exec(AttrChain(i.attrs, n), name), i, name, n)
  {
    if n > 0 {
      AttrChainFirst(i, n - 1, name);
      AttrTestsFirst(i, n - 1, name);
      ExecAppend(AttrChain(i.attrs, n - 1), AttrTests(i.attrs[n - 1], n - 1, {AttrRead, AttrWrite}), name);
      forall h | Answers(h, i, name) && h.kind != Op && h.index == n - 1
        ensures h == Handler(AttrRead, n - 1) || h == Handler(AttrWrite, n - 1)
      {
      }
    }
  }

  ghost predicate FirstOp(r: Option<Handler>, i: Interface, name: string, n: nat)
  {
    match r
    case None => forall h :: Answers(h, i, name) && h.kind == Op ==> h.index >= n
    case Some(f) =>
      && Answers(f, i, name) && f.kind == Op && f.index < n
      && forall h :: Answers(h, i, name) && h.kind == Op ==> f.index <= h.index
  }

  lemma {:induction false} OpChainFirst(i: Interface, n: nat, name: string)
    requires n <= |i.ops|
    ensures NoBreak(OpChain(i.ops, n)) && FirstOp(Exec(OpChain(i.ops, n), name), i, name, n)
  {
    if n > 0 {
      OpChainFirst(i, n - 1, name);
      var test := Test(i.ops[n - 1], Handler(Op, n - 1));
      ExecAppend(OpChain(i.ops, n - 1), [test], name);
      assert [test][1..] == [];
      assert Exec([test], name) == if i.ops[n - 1] == name then Some(Handler(Op, n - 1)) else None;
    }
  }

  lemma ChainSelectsFirst(i: Interface, name: string)
    ensures FirstInChain(Exec(Linear(i), name), i, name)
  {
    AttrChainFirst(i, |i.attrs|, name);
    OpChainFirst(i, |i.ops|, name);
    ExecAppend(AttrChain(i.attrs, |i.attrs|), OpChain(i.ops, |i.ops|), name);
  }

  // ---------------------------------------------------------------------------------------
  // The switch

  function FirstKey(keys: seq<OpKey>, n: nat, i: Interface, p: nat, name: string): Option<Handler>
    requires n <= |keys| && Keys(keys, i, p)
    decreases |keys| - n
  {
    if n == |keys| then None
    else if NameOf(HandlerOf(keys[n]), i) == name then Some(HandlerOf(keys[n]))
    else FirstKey(keys, n + 1, i, p, name)
  }

  lemma {:induction false} NoLaterKey(keys: seq<OpKey>, n: nat, i: Interface, p: nat, name: string)
    requires n <= |keys| && Keys(keys, i, p) && forall m :: n <= m < |keys| ==> keys[m].hash != Hash(name, p)
    ensures FirstKey(keys, n, i, p, name) == None
    decreases |keys| - n
  {
    hide Hash;
    if n < |keys| { NoLaterKey(keys, n + 1, i, p, name); }
  }

  /** Within the case of the hash of the name. */
  lemma {:induction false} InCase(keys: seq<OpKey>, n: nat, i: Interface, p: nat, name: string)
    requires n <= |keys| && Keys(keys, i, p) && Ascending(keys) && p > 0
    requires forall m :: n <= m < |keys| ==> keys[m].hash >= Hash(name, p)
    ensures Exec(Body(keys, n, Hash(name, p), p, i), name) == FirstKey(keys, n, i, p, name)
    decreases |keys| - n
  {
    var h := Hash(name, p);
    hide Hash;
    if n < |keys| {
      var k := keys[n];
      var rest := Body(keys, n + 1, k.hash, p, i);
      if k.hash == h {
        assert [] + [TestOf(k, i)] + rest == [TestOf(k, i)] + rest;
        ExecTest(TestOf(k, i), rest, name);
        InCase(keys, n + 1, i, p, name);
      } else {
        forall m | n <= m < |keys| ensures keys[m].hash != h {
          if m > n { assert Less(keys[n], keys[m]); }
        }
        NoLaterKey(keys, n, i, p, name);
        assert Body(keys, n, h, p, i)[0] == Break;
      }
    }
  }

  lemma JumpOver(s: Stmt, rest: seq<Stmt>, h: nat)
    ensures Jump([s] + rest, h) == if s == Case(h) then rest else Jump(rest, h)
  {
    assert ([s] + rest)[1..] == rest;
  }

  lemma JumpLabel(hash: nat, current: nat, p: nat, t: Stmt, rest: seq<Stmt>, h: nat)
    requires t.Test? && current != h && (current == hash ==> hash != h)
    ensures Jump(Label(hash, current, p) + [t] + rest, h) == if hash == h then [t] + rest else Jump(rest, h)
  {
    var body := [t] + rest;
    JumpOver(t, rest, h);
    JumpOver(Case(hash), body, h);
    JumpOver(Break, [Case(hash)] + body, h);
    if current == hash {
      assert [] + [t] + rest == body;
    } else if current == p {
      assert [Case(hash)] + [t] + rest == [Case(hash)] + body;
    } else {
      assert [Break, Case(hash)] + [t] + rest == [Break] + ([Case(hash)] + body);
    }
  }

  /** On the way to the case of the hash of the name. */
  lemma {:induction false} BeforeCase(keys: seq<OpKey>, n: nat, current: nat, i: Interface, p: nat, name: string)
    requires n <= |keys| && Keys(keys, i, p) && Ascending(keys) && p > 0 && current != Hash(name, p)
    ensures Exec(Jump(Body(keys, n, current, p, i), Hash(name, p)), name) == FirstKey(keys, n, i, p, name)
    decreases |keys| - n
  {
    var h := Hash(name, p);
    hide Hash;
    if n == |keys| {
      assert Jump([Break], h) == Jump([Break][1..], h) == [];
    } else {
      var k := keys[n];
      var t, rest := TestOf(k, i), Body(keys, n + 1, k.hash, p, i);
      JumpLabel(k.hash, current, p, t, rest, h);
      if k.hash == h {
        ExecTest(t, rest, name);
        forall m | n < m < |keys| ensures keys[m].hash >= h {
          assert Less(keys[n], keys[m]);
        }
        InCase(keys, n + 1, i, p, name);
      } else {
        BeforeCase(keys, n + 1, k.hash, i, p, name);
      }
    }
  }

  /** Operations go before accessors that read, and those before accessors that write. */
  ghost predicate FirstInSwitch(r: Option<Handler>, i: Interface, name: string)
  {
    match r
    case None => forall h :: !Answers(h, i, name)
    case Some(f) =>
      && Answers(f, i, name)
      && forall h :: Answers(h, i, name) ==> Rank(f.kind) < Rank(h.kind) || (f.kind == h.kind && f.index <= h.index)
  }

  lemma {:induction false} FirstKeyAt(keys: seq<OpKey>, n: nat, i: Interface, p: nat, name: string) returns (m: nat)
    requires n <= |keys| && Keys(keys, i, p)
    ensures n <= m <= |keys|
    ensures forall j :: n <= j < m ==> NameOf(HandlerOf(keys[j]), i) != name
    ensures if m == |keys| then FirstKey(keys, n, i, p, name) == None
            else NameOf(HandlerOf(keys[m]), i) == name && FirstKey(keys, n, i, p, name) == Some(HandlerOf(keys[m]))
    decreases |keys| - n
  {
    m := n;
    if n < |keys| && NameOf(HandlerOf(keys[n]), i) != name { m := FirstKeyAt(keys, n + 1, i, p, name); }
  }

  lemma FirstKeyIsFirst(keys: seq<OpKey>, i: Interface, p: nat, name: string)
    requires Sorts(keys, i, p) && Keys(keys, i, p)
    ensures FirstInSwitch(FirstKey(keys, 0, i, p, name), i, name)
  {
    hide Hash;
    var m := FirstKeyAt(keys, 0, i, p, name);
    forall h | Answers(h, i, name)
      ensures m < |keys|
      ensures var f := HandlerOf(keys[m]); Rank(f.kind) < Rank(h.kind) || (f.kind == h.kind && f.index <= h.index)
    {
      var k := OpKey(Hash(name, p), h.kind, h.index);
      assert HandlerOf(k) == h && k in keys;
      var j :| 0 <= j < |keys| && keys[j] == k;
      if m < j { assert Less(keys[m], keys[j]); }
    }
  }

  lemma SwitchSelectsFirst(code: Code, i: Interface, name: string)
    requires code.Switch? && code.p > 0 && IsSwitch(code, i)
    ensures FirstInSwitch(Select(code, name), i, name)
  {
    var p := code.p;
    var keys :| Sorts(keys, i, p) && Keys(keys, i, p) && code.stmts == Body(keys, 0, p, p, i);
    assert Hash(name, p) != p;
    BeforeCase(keys, 0, p, i, p, name);
    FirstKeyIsFirst(keys, i, p, name);
  }

  // ---------------------------------------------------------------------------------------
  // Both select the same handler

  /** No operation has the name of an accessor. */
  ghost predicate NoClash(i: Interface)
  {
    forall o, h :: 0 <= o < |i.ops| && ValidHandler(h, i) && h.kind != Op ==> NameOf(h, i) != i.ops[o]
  }

  lemma ReadIsNotWrite(a: string, b: string)
    ensures "_get_" + a != "_set_" + b
  {
    assert ("_get_" + a)[1] == 'g' && ("_set_" + b)[1] == 's';
  }

  lemma SameHandler(a: Option<Handler>, b: Option<Handler>, i: Interface, name: string)
    requires NoClash(i) && FirstInChain(a, i, name) && FirstInSwitch(b, i, name)
    ensures a == b
  {
    if a.Some? && b.Some? {
      var f, g := a.value, b.value;
      if f.kind == AttrRead && g.kind == AttrWrite { ReadIsNotWrite(i.attrs[f.index].name, i.attrs[g.index].name); }
      if f.kind == AttrWrite && g.kind == AttrRead { ReadIsNotWrite(i.attrs[g.index].name, i.attrs[f.index].name); }
      assert f.kind == g.kind;
    }
  }

  /** The switch and the chain select the same handler, or none, for every request if and only if
      no operation has the name of an accessor. */
  lemma DispatchersAgreeIff(code: Code, i: Interface)
    requires code.Switch? && code.p > 0 && IsSwitch(code, i)
    ensures (forall name :: Select(code, name) == Select(Chain(Linear(i)), name)) <==> NoClash(i)
  {
    hide Select;
    if NoClash(i) {
      forall name ensures Select(code, name) == Select(Chain(Linear(i)), name) {
        ChainSelects(i, name);
        SwitchSelectsFirst(code, i, name);
        SameHandler(Select(Chain(Linear(i)), name), Select(code, name), i, name);
      }
    } else {
      var o, h :| 0 <= o < |i.ops| && ValidHandler(h, i) && h.kind != Op && NameOf(h, i) == i.ops[o];
      var name := i.ops[o];
      ChainSelects(i, name);
      SwitchSelectsFirst(code, i, name);
      assert Answers(h, i, name) && Answers(Handler(Op, o), i, name);
      assert Select(code, name) != Select(Chain(Linear(i)), name);
    }
  }

  /** An interface with an operation of the name of an accessor, and two operations more so that a
      switch is emitted for it. */
  const CLASHING := Interface(["_get_x", "f", "g"], [Attribute("x", true)])

  lemma ClashIsDispatchedTwice(code: Code)
    requires code.Switch? && code.p > 0 && IsSwitch(code, CLASHING)
    ensures Count(CLASHING) > 3
    ensures Select(code, "_get_x") == Some(Handler(Op, 0))
    ensures Select(Chain(Linear(CLASHING)), "_get_x") == Some(Handler(AttrRead, 0))
  {
    var i, name := CLASHING, "_get_x";
    hide Select;
    assert "_get_" + "x" == name && "_set_x"[1] == 's' && i.ops[1] != name && i.ops[2] != name;
    assert Answers(Handler(AttrRead, 0), i, name) && Answers(Handler(Op, 0), i, name);
    ChainSelects(i, name);
    SwitchSelectsFirst(code, i, name);
  }

  lemma ChainSelects(i: Interface, name: string)
    ensures FirstInChain(Select(Chain(Linear(i)), name), i, name)
  {
    ChainSelectsFirst(i, name);
  }

  // ---------------------------------------------------------------------------------------
  // The names of requests

  /** The k-th attribute is the first of its name, or the first of its name that can be written. */
  predicate FirstAttribute(i: Interface, k: nat, written: bool)
  {
    && k < |i.attrs| && !(written && i.attrs[k].readOnly)
    && forall j :: 0 <= j < k && i.attrs[j].name == i.attrs[k].name ==> written && i.attrs[j].readOnly
  }

  /** The k-th operation is the first of its name, which is that of no accessor. */
  predicate FirstOperation(i: Interface, k: nat)
  {
    && k < |i.ops| && (forall j :: 0 <= j < k ==> i.ops[j] != i.ops[k])
    && forall j :: 0 <= j < |i.attrs| ==>
         i.ops[k] != "_get_" + i.attrs[j].name && (i.attrs[j].readOnly || i.ops[k] != "_set_" + i.attrs[j].name)
  }

  lemma SameAttribute(prefix: string, a: string, b: string)
    requires prefix + a == prefix + b
    ensures a == b
  {
    assert (prefix + a)[|prefix|..] == a && (prefix + b)[|prefix|..] == b;
  }

  /** An attribute is read under its name with _get_ before it, and written with _set_ before it unless
      it is read-only; an operation is called under its name; no other name is answered. */
  lemma RequestsSelect(i: Interface, k: nat)
    ensures FirstAttribute(i, k, false) ==>
              Select(Chain(Linear(i)), "_get_" + i.attrs[k].name) == Some(Handler(AttrRead, k))
    ensures FirstAttribute(i, k, true) ==>
              Select(Chain(Linear(i)), "_set_" + i.attrs[k].name) == Some(Handler(AttrWrite, k))
    ensures FirstOperation(i, k) ==> Select(Chain(Linear(i)), i.ops[k]) == Some(Handler(Op, k))
  {
    hide Select;
    if FirstAttribute(i, k, false) { ReadSelects(i, k); }
    if FirstAttribute(i, k, true) { WriteSelects(i, k); }
    if FirstOperation(i, k) { OperationSelects(i, k); }
  }

  lemma ReadNamed(h: Handler, i: Interface, n: string)
    requires Answers(h, i, "_get_" + n)
    ensures h.kind != AttrWrite && (h.kind == AttrRead ==> i.attrs[h.index].name == n)
  {
    if h.kind == AttrWrite { ReadIsNotWrite(n, i.attrs[h.index].name); }
    if h.kind == AttrRead { SameAttribute("_get_", i.attrs[h.index].name, n); }
  }

  lemma WriteNamed(h: Handler, i: Interface, n: string)
    requires Answers(h, i, "_set_" + n)
    ensures h.kind != AttrRead && (h.kind == AttrWrite ==> i.attrs[h.index].name == n)
  {
    if h.kind == AttrRead { ReadIsNotWrite(i.attrs[h.index].name, n); }
    if h.kind == AttrWrite { SameAttribute("_set_", i.attrs[h.index].name, n); }
  }

  lemma ReadFirst(r: Option<Handler>, i: Interface, k: nat, n: string)
    requires FirstInChain(r, i, "_get_" + n) && FirstAttribute(i, k, false) && i.attrs[k].name == n
    ensures r == Some(Handler(AttrRead, k))
  {
    var h := Handler(AttrRead, k);
    assert Answers(h, i, "_get_" + n) && ValidHandler(h, i);
    assert r.Some? && Answers(r.value, i, "_get_" + n) && ValidHandler(r.value, i);
    assert r.value.kind == h.kind ==> r.value.index <= k;
    ReadNamed(r.value, i, n);
    hide NameOf, Answers;
  }

  lemma ReadSelects(i: Interface, k: nat)
    requires FirstAttribute(i, k, false)
    ensures Select(Chain(Linear(i)), "_get_" + i.attrs[k].name) == Some(Handler(AttrRead, k))
  {
    hide Select, FirstInChain, FirstAttribute;
    AttributeExists(i, k, false);
    var n := i.attrs[k].name;
    ChainSelects(i, "_get_" + n);
    ReadFirst(Select(Chain(Linear(i)), "_get_" + n), i, k, n);
  }

  lemma WriteFirst(r: Option<Handler>, i: Interface, k: nat, n: string)
    requires FirstInChain(r, i, "_set_" + n) && FirstAttribute(i, k, true) && i.attrs[k].name == n
    ensures r == Some(Handler(AttrWrite, k))
  {
    var h := Handler(AttrWrite, k);
    assert Answers(h, i, "_set_" + n) && ValidHandler(h, i);
    assert r.Some? && Answers(r.value, i, "_set_" + n) && ValidHandler(r.value, i);
    assert r.value.kind == h.kind ==> r.value.index <= k;
    WriteNamed(r.value, i, n);
    hide NameOf, Answers;
  }

  lemma WriteSelects(i: Interface, k: nat)
    requires FirstAttribute(i, k, true)
    ensures Select(Chain(Linear(i)), "_set_" + i.attrs[k].name) == Some(Handler(AttrWrite, k))
  {
    hide Select, FirstInChain, FirstAttribute;
    AttributeExists(i, k, true);
    var n := i.attrs[k].name;
    ChainSelects(i, "_set_" + n);
    WriteFirst(Select(Chain(Linear(i)), "_set_" + n), i, k, n);
  }

  lemma AttributeExists(i: Interface, k: nat, written: bool)
    requires FirstAttribute(i, k, written)
    ensures k < |i.attrs|
  {
  }

  lemma OperationSelects(i: Interface, k: nat)
    requires FirstOperation(i, k)
    ensures Select(Chain(Linear(i)), i.ops[k]) == Some(Handler(Op, k))
  {
    hide Select;
    ChainSelects(i, i.ops[k]);
    assert Answers(Handler(Op, k), i, i.ops[k]);
  }

  /** A name that is neither that of an operation nor one of those of an attribute selects nothing. */
  lemma OtherNamesSelectNothing(i: Interface, name: string)
    requires name !in i.ops
    requires forall j :: 0 <= j < |i.attrs| ==>
               name != "_get_" + i.attrs[j].name && (i.attrs[j].readOnly || name != "_set_" + i.attrs[j].name)
    ensures Select(Chain(Linear(i)), name) == None
  {
    hide Select;
    ChainSelects(i, name);
  }

  // ---------------------------------------------------------------------------------------
  // The switch is valid code

  function Tests(stmts: seq<Stmt>): seq<Handler>
  {
    if stmts == [] then []
    else (if stmts[0].Test? then [stmts[0].handler] else []) + Tests(stmts[1..])
  }

  function Cases(stmts: seq<Stmt>): seq<nat>
  {
    if stmts == [] then []
    else (if stmts[0].Case? then [stmts[0].value] else []) + Cases(stmts[1..])
  }

  lemma Front(s: Stmt, rest: seq<Stmt>)
    ensures Tests([s] + rest) == (if s.Test? then [s.handler] else []) + Tests(rest)
    ensures Cases([s] + rest) == (if s.Case? then [s.value] else []) + Cases(rest)
  {
    assert ([s] + rest)[1..] == rest;
  }

  lemma FrontLabel(hash: nat, current: nat, p: nat, t: Stmt, rest: seq<Stmt>)
    requires t.Test?
    ensures Tests(Label(hash, current, p) + [t] + rest) == [t.handler] + Tests(rest)
    ensures Cases(Label(hash, current, p) + [t] + rest) == (if current == hash then [] else [hash]) + Cases(rest)
  {
    var body := [t] + rest;
    Front(t, rest);
    Front(Case(hash), body);
    Front(Break, [Case(hash)] + body);
    if current == hash {
      assert [] + [t] + rest == body;
    } else if current == p {
      assert [Case(hash)] + [t] + rest == [Case(hash)] + body;
    } else {
      assert [Break, Case(hash)] + [t] + rest == [Break] + ([Case(hash)] + body);
    }
  }

  lemma {:induction false} BodyTests(keys: seq<OpKey>, n: nat, current: nat, p: nat, i: Interface)
    requires n <= |keys| && Keys(keys, i, p)
    ensures var tests := Tests(Body(keys, n, current, p, i));
      |tests| == |keys| - n && forall j :: 0 <= j < |tests| ==> tests[j] == HandlerOf(keys[n + j])
    decreases |keys| - n
  {
    hide KeyOf, TestOf;
    if n == |keys| {
      assert [Break][1..] == [];
    } else {
      BodyTests(keys, n + 1, keys[n].hash, p, i);
      FrontTest(keys[n], current, p, i, Body(keys, n + 1, keys[n].hash, p, i));
    }
  }

  lemma FrontTest(k: OpKey, current: nat, p: nat, i: Interface, rest: seq<Stmt>)
    requires KeyOf(k, i, p)
    ensures Tests(Label(k.hash, current, p) + [TestOf(k, i)] + rest) == [HandlerOf(k)] + Tests(rest)
    ensures Cases(Label(k.hash, current, p) + [TestOf(k, i)] + rest) ==
        (if current == k.hash then [] else [k.hash]) + Cases(rest)
  {
    FrontLabel(k.hash, current, p, TestOf(k, i), rest);
  }

  predicate Rising(cases: seq<nat>, low: nat)
  {
    (forall j :: 0 <= j < |cases| ==> cases[j] > low) && (forall j, k :: 0 <= j < k < |cases| ==> cases[j] < cases[k])
  }

  /** The labels after a first case. */
  lemma {:induction false} BodyCases(keys: seq<OpKey>, n: nat, current: nat, p: nat, i: Interface)
    requires n <= |keys| && Keys(keys, i, p) && Ascending(keys) && current < p
    requires forall m :: n <= m < |keys| ==> current <= keys[m].hash < p
    ensures var cases := Cases(Body(keys, n, current, p, i)); Rising(cases, current) && forall c :: c in cases ==> c < p
    decreases |keys| - n
  {
    hide KeyOf, TestOf;
    if n == |keys| {
      assert [Break][1..] == [];
    } else {
      forall m | n < m < |keys| ensures keys[m].hash >= keys[n].hash {
        assert Less(keys[n], keys[m]);
      }
      BodyCases(keys, n + 1, keys[n].hash, p, i);
      FrontTest(keys[n], current, p, i, Body(keys, n + 1, keys[n].hash, p, i));
    }
  }

  predicate RisingBelow(cases: seq<nat>, p: nat)
  {
    (forall j :: 0 <= j < |cases| ==> cases[j] < p) && (forall j, k :: 0 <= j < k < |cases| ==> cases[j] < cases[k])
  }

  lemma AllCases(keys: seq<OpKey>, p: nat, i: Interface)
    requires Keys(keys, i, p) && Sorts(keys, i, p) && p > 0
    ensures RisingBelow(Cases(Body(keys, 0, p, p, i)), p)
  {
    hide Hash, TestOf, Label;
    if keys == [] {
      assert [Break][1..] == [];
    } else {
      var k := keys[0];
      forall m | 0 < m < |keys| ensures k.hash <= keys[m].hash < p {
        assert KeyOf(keys[m], i, p) && Less(keys[0], keys[m]);
      }
      assert KeyOf(k, i, p) && k.hash != p;
      BodyCases(keys, 1, k.hash, p, i);
      FrontTest(k, p, p, i, Body(keys, 1, k.hash, p, i));
      RisingFrom(k.hash, Cases(Body(keys, 1, k.hash, p, i)), p);
      assert Cases(Body(keys, 0, p, p, i)) == [k.hash] + Cases(Body(keys, 1, k.hash, p, i));
    }
  }

  lemma RisingFrom(first: nat, cases: seq<nat>, p: nat)
    requires Rising(cases, first) && first < p && forall c :: c in cases ==> c < p
    ensures RisingBelow([first] + cases, p)
  {
    forall k | 0 <= k < |cases| ensures cases[k] < p {
      assert cases[k] in cases;
    }
  }

  /** Every case label is emitted once, and every operation and accessor is tested exactly once. */
  lemma SwitchIsValid(code: Code, i: Interface)
    requires code.Switch? && code.p > 0 && IsSwitch(code, i)
    ensures RisingBelow(Cases(code.stmts), code.p)
    ensures forall h :: h in Tests(code.stmts) <==> ValidHandler(h, i)
    ensures forall j, k :: 0 <= j < k < |Tests(code.stmts)| ==> Tests(code.stmts)[j] != Tests(code.stmts)[k]
  {
    hide Hash, Body, Sorts, Keys, Tests, Cases, RisingBelow, ValidHandler;
    var p := code.p;
    var keys :| Sorts(keys, i, p) && Keys(keys, i, p) && code.stmts == Body(keys, 0, p, p, i);
    AllCases(keys, p, i);
    BodyTests(keys, 0, p, p, i);
    TestsOnce(keys, i, p, Tests(code.stmts));
  }

  lemma TestsOnce(keys: seq<OpKey>, i: Interface, p: nat, tests: seq<Handler>)
    requires Sorts(keys, i, p) && Keys(keys, i, p)
    requires |tests| == |keys| && forall j :: 0 <= j < |tests| ==> tests[j] == HandlerOf(keys[j])
    ensures (forall h :: h in tests <==> ValidHandler(h, i))
    ensures (forall j, k :: 0 <= j < k < |tests| ==> tests[j] != tests[k])
  {
    hide Hash;
    forall h | ValidHandler(h, i) ensures h in tests {
      var k := OpKey(Hash(NameOf(h, i), p), h.kind, h.index);
      assert HandlerOf(k) == h && k in keys;
      var j :| 0 <= j < |keys| && keys[j] == k;
      assert tests[j] == h;
    }
    forall j, k | 0 <= j < k < |tests| ensures tests[j] != tests[k] {
      assert Less(keys[j], keys[k]);
      assert KeyOf(keys[j], i, p) && KeyOf(keys[k], i, p);
    }
  }
}

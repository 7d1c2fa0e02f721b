/** The dispatcher of a skeleton: emit_dispatcher and emit_attr_dispatcher in
    idl/codegen-c++-skel.cc emit either a chain of comparisons with the name of the request or a
    switch over the hash of the name. Only the selection of the handler is modelled. */
module Dispatcher {
  import opened LastMultiples
  import opened Sieve
  import opened Wrappers

  datatype Attribute = Attribute(name: string, readOnly: bool)

  /** The kinds of OpKey, in the order of the enumeration. */
  datatype Kind = Op | AttrRead | AttrWrite

  datatype OpKey = OpKey(hash: nat, kind: Kind, index: nat)

  datatype Handler = Handler(kind: Kind, index: nat)

  /** Emitted code: compare the name of the request and, if it is equal, run a handler and return;
      a case label; a break. */
  datatype Stmt = Test(name: string, handler: Handler) | Case(value: nat) | Break

  datatype Code = Chain(stmts: seq<Stmt>) | Switch(p: nat, stmts: seq<Stmt>)

  datatype Interface = Interface(ops: seq<string>, attrs: seq<Attribute>)

  // ---------------------------------------------------------------------------------------
  // mico_string_hash in orb/util.cc

  function HashStep(v: bv32, c: char): bv32
  {
    var w := (v << 4) + (c as int % 128) as bv32;
    var g := w & 0xF000_0000;
    if g != 0 then (w ^ (g >> 24)) ^ g else w
  }

  function HashBits(s: string): bv32
  {
    if s == "" then 0 else HashStep(HashBits(s[..|s| - 1]), s[|s| - 1])
  }

  function Hash(s: string, max: nat): (h: nat)
    ensures max > 0 ==> h < max
  {
    if max == 0 then 0 else HashBits(s) as nat % max
  }

  method StringHash(s: string) returns (v: bv32)
    ensures v == HashBits(s)
  {
    hide HashStep;
    v := 0;
    var n := 0;
    while n < |s|
      invariant n <= |s| && v == HashBits(s[..n])
    {
      assert s[..n + 1][..n] == s[..n];
      v := HashStep(v, s[n]);
      n := n + 1;
    }
    assert s[..n] == s;
  }

  // ---------------------------------------------------------------------------------------
  // Keys

  function Rank(k: Kind): nat
  {
    match k case Op => 0 case AttrRead => 1 case AttrWrite => 2
  }

  /** OpKey::operator<. */
  predicate Less(a: OpKey, b: OpKey)
  {
    if a.hash != b.hash then a.hash < b.hash
    else if a.kind != b.kind then Rank(a.kind) < Rank(b.kind)
    else a.index < b.index
  }

  predicate Ascending(s: seq<OpKey>)
  {
    forall i, j :: 0 <= i < j < |s| ==> Less(s[i], s[j])
  }

  /** std::set::insert. */
  function Insert(s: seq<OpKey>, k: OpKey): seq<OpKey>
  {
    if s == [] || Less(k, s[0]) then [k] + s
    else if k == s[0] then s
    else [s[0]] + Insert(s[1..], k)
  }

  lemma {:induction false} InsertSorts(s: seq<OpKey>, k: OpKey)
    requires Ascending(s)
    ensures Ascending(Insert(s, k)) && (forall x :: x in Insert(s, k) <==> x in s || x == k)
  {
    if s != [] && !Less(k, s[0]) && k != s[0] {
      InsertSorts(s[1..], k);
      var r := Insert(s[1..], k);
      forall j | 0 <= j < |r| ensures Less(s[0], r[j]) {
        assert r[j] in r;
        if r[j] != k {
          var i :| 0 <= i < |s[1..]| && s[1..][i] == r[j];
          assert s[i + 1] == r[j];
        }
      }
      assert s == [s[0]] + s[1..];
    }
  }

  predicate ValidHandler(h: Handler, i: Interface)
  {
    match h.kind
    case Op => h.index < |i.ops|
    case AttrRead => h.index < |i.attrs|
    case AttrWrite => h.index < |i.attrs| && !i.attrs[h.index].readOnly
  }

  function NameOf(h: Handler, i: Interface): string
    requires ValidHandler(h, i)
  {
    match h.kind
    case Op => i.ops[h.index]
    case AttrRead => "_get_" + i.attrs[h.index].name
    case AttrWrite => "_set_" + i.attrs[h.index].name
  }

  function HandlerOf(k: OpKey): Handler { Handler(k.kind, k.index) }

  predicate KeyOf(k: OpKey, i: Interface, p: nat)
  {
    ValidHandler(HandlerOf(k), i) && k.hash == Hash(NameOf(HandlerOf(k), i), p)
  }

  // ---------------------------------------------------------------------------------------
  // What emitted code selects

  /** Run statements until a handler is found or a break is reached; labels are passed. */
  function Exec(stmts: seq<Stmt>, name: string): Option<Handler>
  {
    if stmts == [] || stmts[0].Break? then None
    else if stmts[0].Test? && stmts[0].name == name then Some(stmts[0].handler)
    else Exec(stmts[1..], name)
  }

  /** Jump to a case label. */
  function Jump(stmts: seq<Stmt>, target: nat): seq<Stmt>
  {
    if stmts == [] then []
    else if stmts[0] == Case(target) then stmts[1..]
    else Jump(stmts[1..], target)
  }

  function Select(code: Code, name: string): Option<Handler>
  {
    match code
    case Chain(stmts) => Exec(stmts, name)
    case Switch(p, stmts) => Exec(Jump(stmts, Hash(name, p)), name)
  }

  // ---------------------------------------------------------------------------------------
  // The chain

  function AttrTests(a: Attribute, k: nat, which: set<Kind>): seq<Stmt>
  {
    (if AttrRead in which then [Test("_get_" + a.name, Handler(AttrRead, k))] else []) +
    (if AttrWrite in which && !a.readOnly then [Test("_set_" + a.name, Handler(AttrWrite, k))] else [])
  }

  /** The tests of the first n attributes. */
  function AttrChain(attrs: seq<Attribute>, n: nat): seq<Stmt>
    requires n <= |attrs|
  {
    if n == 0 then [] else AttrChain(attrs, n - 1) + AttrTests(attrs[n - 1], n - 1, {AttrRead, AttrWrite})
  }

  function OpChain(ops: seq<string>, n: nat): seq<Stmt>
    requires n <= |ops|
  {
    if n == 0 then [] else OpChain(ops, n - 1) + [Test(ops[n - 1], Handler(Op, n - 1))]
  }

  /** All attributes, then all operations. */
  function Linear(i: Interface): seq<Stmt>
  {
    AttrChain(i.attrs, |i.attrs|) + OpChain(i.ops, |i.ops|)
  }

  // ---------------------------------------------------------------------------------------
  // The switch

  predicate Keys(keys: seq<OpKey>, i: Interface, p: nat)
  {
    forall n :: 0 <= n < |keys| ==> KeyOf(keys[n], i, p)
  }

  /** A new case unless the hash is that of the case before, p for none. */
  function Label(hash: nat, current: nat, p: nat): seq<Stmt>
  {
    if current == hash then [] else if current == p then [Case(hash)] else [Break, Case(hash)]
  }

  function TestOf(k: OpKey, i: Interface): Stmt
    requires ValidHandler(HandlerOf(k), i)
  {
    Test(NameOf(HandlerOf(k), i), HandlerOf(k))
  }

  /** The code for the keys from the n-th on, in the case of hash current. */
  function Body(keys: seq<OpKey>, n: nat, current: nat, p: nat, i: Interface): seq<Stmt>
    requires n <= |keys| && Keys(keys, i, p)
    decreases |keys| - n
  {
    if n == |keys| then [Break]
    else Label(keys[n].hash, current, p) + [TestOf(keys[n], i)] + Body(keys, n + 1, keys[n].hash, p, i)
  }

  // ---------------------------------------------------------------------------------------
  // emit_dispatcher

  method EmitAttrDispatcher(a: Attribute, k: nat, which: set<Kind>) returns (o: seq<Stmt>)
    ensures o == AttrTests(a, k, which)
  {
    o := [];
    if AttrRead in which {
      var dispatchName := "_get_" + a.name;
      o := o + [Test(dispatchName, Handler(AttrRead, k))];
    }
    if AttrWrite in which && !a.readOnly {
      var dispatchName := "_set_" + a.name;
      o := o + [Test(dispatchName, Handler(AttrWrite, k))];
    }
  }

  method EmitChain(i: Interface) returns (o: seq<Stmt>)
    ensures o == Linear(i)
  {
    o := [];
    var j := 0;
    while j < |i.attrs|
      invariant j <= |i.attrs| && o == AttrChain(i.attrs, j)
    {
      var tests := EmitAttrDispatcher(i.attrs[j], j, {AttrRead, AttrWrite});
      o := o + tests;
      j := j + 1;
    }
    ghost var attrs := o;
    j := 0;
    while j < |i.ops|
      invariant j <= |i.ops| && o == attrs + OpChain(i.ops, j)
    {
      o := o + [Test(i.ops[j], Handler(Op, j))];
      j := j + 1;
    }
  }

  function Writable(attrs: seq<Attribute>): nat
  {
    if attrs == [] then 0 else Writable(attrs[..|attrs| - 1]) + if attrs[|attrs| - 1].readOnly then 0 else 1
  }

  function Count(i: Interface): nat { |i.attrs| + |i.ops| + Writable(i.attrs) }

  method CountEntries(i: Interface) returns (count: nat)
    ensures count == Count(i)
  {
    count := |i.attrs| + |i.ops|;
    var j := 0;
    while j < |i.attrs|
      invariant j <= |i.attrs| && count == |i.attrs| + |i.ops| + Writable(i.attrs[..j])
    {
      assert i.attrs[..j + 1][..j] == i.attrs[..j];
      if !i.attrs[j].readOnly { count := count + 1; }
      j := j + 1;
    }
    assert i.attrs[..j] == i.attrs;
  }

  /** The keys whose attribute or operation index is below the given bounds. */
  ghost predicate Holds(keys: seq<OpKey>, i: Interface, p: nat, attrs: nat, ops: nat)
  {
    && Ascending(keys)
    && forall k :: k in keys <==> KeyOf(k, i, p) && k.index < if k.kind == Op then ops else attrs
  }

  lemma HoldsMore(keys: seq<OpKey>, i: Interface, p: nat, attrs: nat, ops: nat, more: seq<OpKey>)
    requires Holds(keys, i, p, attrs, ops) && Ascending(more) && attrs < |i.attrs|
    requires var g, s := "_get_" + i.attrs[attrs].name, "_set_" + i.attrs[attrs].name;
      forall k :: k in more <==> (
        || k in keys || k == OpKey(Hash(g, p), AttrRead, attrs)
        || (!i.attrs[attrs].readOnly && k == OpKey(Hash(s, p), AttrWrite, attrs)))
    ensures Holds(more, i, p, attrs + 1, ops)
  {
  }

  method SortKeys(i: Interface, p: nat) returns (sorted: seq<OpKey>)
    ensures Holds(sorted, i, p, |i.attrs|, |i.ops|)
  {
    sorted := [];
    var j := 0;
    while j < |i.attrs|
      invariant j <= |i.attrs| && Holds(sorted, i, p, j, 0)
    {
      ghost var before := sorted;
      var name := "_get_" + i.attrs[j].name;
      InsertSorts(sorted, OpKey(Hash(name, p), AttrRead, j));
      sorted := Insert(sorted, OpKey(Hash(name, p), AttrRead, j));
      if !i.attrs[j].readOnly {
        name := "_set_" + i.attrs[j].name;
        InsertSorts(sorted, OpKey(Hash(name, p), AttrWrite, j));
        sorted := Insert(sorted, OpKey(Hash(name, p), AttrWrite, j));
      }
      HoldsMore(before, i, p, j, 0, sorted);
      j := j + 1;
    }
    j := 0;
    while j < |i.ops|
      invariant j <= |i.ops| && Holds(sorted, i, p, |i.attrs|, j)
    {
      InsertSorts(sorted, OpKey(Hash(i.ops[j], p), Op, j));
      sorted := Insert(sorted, OpKey(Hash(i.ops[j], p), Op, j));
      j := j + 1;
    }
  }

  method EmitKey(k: OpKey, i: Interface) returns (o: seq<Stmt>)
    requires ValidHandler(HandlerOf(k), i)
    ensures o == [TestOf(k, i)]
  {
    match k.kind
    case Op => o := [Test(i.ops[k.index], Handler(Op, k.index))];
    case AttrRead => o := EmitAttrDispatcher(i.attrs[k.index], k.index, {AttrRead});
    case AttrWrite => o := EmitAttrDispatcher(i.attrs[k.index], k.index, {AttrWrite});
  }

  method EmitSwitch(i: Interface, p: nat, sorted: seq<OpKey>) returns (o: seq<Stmt>)
    requires Keys(sorted, i, p)
    ensures o == Body(sorted, 0, p, p, i)
  {
    o := [];
    var j2, currentHash := 0, p;
    assert o + Body(sorted, 0, p, p, i) == Body(sorted, 0, p, p, i);
    while j2 < |sorted|
      invariant j2 <= |sorted| && o + Body(sorted, j2, currentHash, p, i) == Body(sorted, 0, p, p, i)
    {
      var k := sorted[j2];
      Joined(o, Label(k.hash, currentHash, p), [TestOf(k, i)], Body(sorted, j2 + 1, k.hash, p, i));
      if currentHash != k.hash {
        if currentHash != p { o := o + [Break]; }
        currentHash := k.hash;
        o := o + [Case(currentHash)];
      }
      var test := EmitKey(k, i);
      o := o + test;
      j2 := j2 + 1;
    }
    o := o + [Break];
  }

  lemma Joined<T>(a: seq<T>, b: seq<T>, c: seq<T>, d: seq<T>)
    ensures a + (b + c + d) == a + b + c + d
    ensures |b| == 2 ==> a + [b[0]] + [b[1]] == a + b
    ensures b == [] ==> a + b == a
  {
  }

  /** What the table is sized for. */
  function Entries(i: Interface): nat { Count(i) + Count(i) / 2 }

  /** The handler for each request name, as long as no step of the sieve wraps. */
  method EmitDispatcher(i: Interface) returns (code: Code)
    requires Entries(i) < 0x1_0000_0000 && Ulong(2 * Entries(i)) < FIRST_TO_WRAP
    ensures Count(i) <= 3 ==> code == Chain(Linear(i))
    ensures Count(i) > 3 ==> code.Switch? && IsSwitch(code, i)
    ensures Count(i) > 3 ==>
      if Entries(i) < 0x8000_0000 then SmallestPrimeFrom(code.p, Entries(i)) else code.p == OddFrom(Entries(i))
  {
    var count := CountEntries(i);
    if count <= 3 {
      var o := EmitChain(i);
      return Chain(o);
    }
    var p := GetPrimeNumber(count + count / 2);
    var sorted := SortKeys(i, p);
    HoldsKeys(sorted, i, p);
    var o := EmitSwitch(i, p, sorted);
    code := Switch(p, o);
    assert Sorts(sorted, i, p);
  }

  /** The keys of the interface, each once and in order. */
  ghost predicate Sorts(keys: seq<OpKey>, i: Interface, p: nat)
  {
    Holds(keys, i, p, |i.attrs|, |i.ops|)
  }

  ghost predicate IsSwitch(code: Code, i: Interface)
    requires code.Switch?
  {
    exists keys :: Sorts(keys, i, code.p) && Keys(keys, i, code.p) && code.stmts == Body(keys, 0, code.p, code.p, i)
  }

  lemma HoldsKeys(keys: seq<OpKey>, i: Interface, p: nat)
    requires Sorts(keys, i, p)
    ensures Keys(keys, i, p)
  {
    forall n | 0 <= n < |keys| ensures KeyOf(keys[n], i, p) {
      assert keys[n] in keys;
    }
  }
}

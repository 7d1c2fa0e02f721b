/** The macro table of cpp/cccp.c: 1403 doubly linked chains of nodes, each with a pointer back to
    the head of its chain. */
module SymbolTable {
  import opened Characters

  const HASHSIZE := 1403

  // ---------------------------------------------------------------------------------------
  // hashf, and the running hash of rescan

  /** HASHSTEP in a 32-bit int, kept as its unsigned value. */
  function HashStep(hash: nat, c: char): (r: nat)
    ensures r < 0x1_0000_0000
  {
    (4 * hash + c as nat) % 0x1_0000_0000
  }

  function HashChars(name: string): (r: nat)
    ensures r < 0x1_0000_0000
  {
    if name == "" then 0 else HashStep(HashChars(name[..|name| - 1]), name[|name| - 1])
  }

  /** MAKE_POS(hash) % HASHSIZE */
  function BucketOf(hash: nat): (b: nat)
    ensures b < HASHSIZE
  {
    hash % 0x8000_0000 % HASHSIZE
  }

  function Hashf(name: string): (b: nat)
    ensures b < HASHSIZE
  {
    BucketOf(HashChars(name))
  }

  method HashfLoop(name: string) returns (b: nat)
    ensures b == Hashf(name)
  {
    hide HashStep, BucketOf;
    var r, n := 0, 0;
    while n < |name|
      invariant n <= |name| && r == HashChars(name[..n])
    {
      assert name[..n + 1][..n] == name[..n];
      r := HashStep(r, name[n]);
      n := n + 1;
    }
    assert name[..n] == name;
    b := BucketOf(r);
  }

  /** rescan hashes an identifier while it reads it; the hash is that of the identifier. */
  method ReadIdentifier(text: string, start: nat) returns (end: nat, hash: nat)
    requires start <= |text|
    ensures start <= end <= |text| && (forall k :: start <= k < end ==> IsIdChar(text[k]))
    ensures end < |text| ==> !IsIdChar(text[end])
    ensures BucketOf(hash) == Hashf(text[start..end])
  {
    hide HashStep, BucketOf;
    end, hash := start, 0;
    assert text[start..start] == "";
    while end < |text| && IsIdChar(text[end])
      invariant start <= end <= |text| && (forall k :: start <= k < end ==> IsIdChar(text[k]))
      invariant hash == HashChars(text[start..end])
    {
      assert text[start..end + 1][..end - start] == text[start..end];
      hash := HashStep(hash, text[end]);
      end := end + 1;
    }
  }

  // ---------------------------------------------------------------------------------------
  // Chains

  class HashNode {
    var next: HashNode?
    var prev: HashNode?
    const bucket: nat  // stands for bucket_hdr
    const name: string
    const ntype: int
    const value: string

    constructor (name: string, ntype: int, value: string, bucket: nat, next: HashNode?)
      ensures this.name == name && this.ntype == ntype && this.value == value && this.bucket == bucket
      ensures this.next == next && this.prev == null
    {
      this.name, this.ntype, this.value, this.bucket := name, ntype, value, bucket;
      this.next, this.prev := next, null;
    }
  }

  /** The node at position k of a chain, null past either end. */
  function At(chain: seq<HashNode>, k: int): HashNode?
  {
    if 0 <= k < |chain| then chain[k] else null
  }

  /** The nodes of a chain are different and belong to its bucket. */
  ghost predicate Belongs(chain: seq<HashNode>, b: nat)
  {
    && (forall i, j :: 0 <= i < j < |chain| ==> chain[i] != chain[j])
    && forall k :: 0 <= k < |chain| ==> chain[k].bucket == b == Hashf(chain[k].name)
  }

  ghost predicate LinkedAt(chain: seq<HashNode>, k: int)
    requires 0 <= k < |chain|
    reads chain
  {
    chain[k].next == At(chain, k + 1) && chain[k].prev == At(chain, k - 1)
  }

  /** The nodes of a chain are linked in its order, both ways. */
  ghost predicate Linked(chain: seq<HashNode>)
    reads chain
  {
    forall k {:trigger LinkedAt(chain, k)} :: 0 <= k < |chain| ==> LinkedAt(chain, k)
  }

  /** What the chain says about a name, the newest definition first. */
  function Named(chain: seq<HashNode>, name: string): seq<HashNode>
  {
    if chain == [] then []
    else (if chain[0].name == name then [chain[0]] else []) + Named(chain[1..], name)
  }

  function Without(chain: seq<HashNode>, k: nat): seq<HashNode>
    requires k < |chain|
  {
    chain[..k] + chain[k + 1..]
  }

  lemma Rest<T>(a: seq<T>, b: seq<T>)
    requires a != []
    ensures (a + b)[0] == a[0] && (a + b)[1..] == a[1..] + b
  {
  }

  lemma Regroup<T>(a: seq<T>, b: seq<T>, c: seq<T>)
    ensures a + (b + c) == a + b + c && [] + c == c
  {
  }

  lemma {:induction false} NamedAppend(a: seq<HashNode>, b: seq<HashNode>, name: string)
    ensures Named(a + b, name) == Named(a, name) + Named(b, name)
  {
    if a == [] {
      assert a + b == b;
    } else {
      Rest(a, b);
      NamedAppend(a[1..], b, name);
      Regroup(if a[0].name == name then [a[0]] else [], Named(a[1..], name), Named(b, name));
    }
  }

  lemma NamedOne(n: HashNode, name: string)
    ensures Named([n], name) == if n.name == name then [n] else []
  {
  }

  lemma PushBelongs(hp: HashNode, chain: seq<HashNode>, b: nat)
    requires Belongs(chain, b) && hp !in chain && hp.bucket == b == Hashf(hp.name)
    ensures Belongs([hp] + chain, b)
  {
  }

  lemma DeleteBelongs(chain: seq<HashNode>, k: nat, b: nat)
    requires Belongs(chain, b) && k < |chain|
    ensures Belongs(Without(chain, k), b)
  {
    var rest := Without(chain, k);
    assert forall j :: 0 <= j < |rest| ==> rest[j] == if j < k then chain[j] else chain[j + 1];
  }

  lemma WithoutAt(chain: seq<HashNode>, k: nat, j: int)
    requires k < |chain|
    ensures |Without(chain, k)| == |chain| - 1
    ensures At(Without(chain, k), j) == if j < k then At(chain, j) else At(chain, j + 1)
  {
  }

  /** The links of node m of a chain while node k is being taken out. */
  ghost predicate BypassedAt(chain: seq<HashNode>, k: nat, m: int)
    requires 0 <= m < |chain|
    reads chain
  {
    && chain[m].next == At(chain, if m == k - 1 then k + 1 else m + 1)
    && chain[m].prev == At(chain, if m == k + 1 then k - 1 else m - 1)
  }

  lemma BypassedIsLinked(chain: seq<HashNode>, k: nat, j: nat)
    requires k < |chain| && j < |chain| - 1
    requires BypassedAt(chain, k, if j < k then j else j + 1)
    ensures j < |Without(chain, k)| && LinkedAt(Without(chain, k), j)
  {
    WithoutAt(chain, k, j + 1);
    WithoutAt(chain, k, j);
    WithoutAt(chain, k, j - 1);
  }

  method LinkFront(hp: HashNode, ghost chain: seq<HashNode>)
    requires Linked(chain) && hp !in chain && hp.next == At(chain, 0) && hp.prev == null
    requires forall i, j :: 0 <= i < j < |chain| ==> chain[i] != chain[j]
    modifies chain
    ensures Linked([hp] + chain) && hp.next == old(hp.next)
  {
    if hp.next != null { hp.next.prev := hp; }
    ghost var more := [hp] + chain;
    forall k {:trigger LinkedAt(more, k)} | 0 <= k < |more| ensures LinkedAt(more, k) {
      if k > 0 { assert more[k] == chain[k - 1] && old(LinkedAt(chain, k - 1)); }
    }
  }

  method Unlink(hp: HashNode, ghost chain: seq<HashNode>, ghost k: nat)
    requires Linked(chain) && k < |chain| && chain[k] == hp
    requires forall i, j :: 0 <= i < j < |chain| ==> chain[i] != chain[j]
    modifies chain
    ensures Linked(Without(chain, k)) && hp.next == old(hp.next)
  {
    assert LinkedAt(chain, k);
    if hp.prev != null { hp.prev.next := hp.next; }
    if hp.next != null { hp.next.prev := hp.prev; }
    ghost var rest := Without(chain, k);
    WithoutAt(chain, k, 0);
    hide Without;
    forall j {:trigger LinkedAt(rest, j)} | 0 <= j < |rest| ensures LinkedAt(rest, j) {
      var m := if j < k then j else j + 1;
      assert old(LinkedAt(chain, m));
      assert BypassedAt(chain, k, m);
      BypassedIsLinked(chain, k, j);
    }
  }

  class Table {
    var hashtab: array<HashNode?>
    ghost var chains: seq<seq<HashNode>>

    ghost predicate Valid()
      reads this, hashtab, Nodes()
    {
      && hashtab.Length == HASHSIZE == |chains|
      && forall b :: 0 <= b < HASHSIZE ==> Belongs(chains[b], b) && hashtab[b] == At(chains[b], 0) && Linked(chains[b])
    }

    ghost function Nodes(): set<HashNode>
      reads this
    {
      set b, k | 0 <= b < |chains| && 0 <= k < |chains[b]| :: chains[b][k]
    }

    /** The definitions of a name, the newest first. */
    ghost function Definitions(name: string): seq<HashNode>
      requires |chains| == HASHSIZE
      reads this
    {
      Named(chains[Hashf(name)], name)
    }

    constructor ()
      ensures Valid() && fresh(hashtab) && forall b :: 0 <= b < HASHSIZE ==> chains[b] == []
    {
      hashtab := new HashNode?[HASHSIZE](_ => null);
      chains := seq(HASHSIZE, _ => []);
    }

    method Lookup(name: string) returns (node: HashNode?)
      requires Valid()
      ensures node == At(Definitions(name), 0)
    {
      var bucket := hashtab[Hashf(name)];
      ghost var chain, k := chains[Hashf(name)], 0;
      while bucket != null
        invariant k <= |chain| && bucket == At(chain, k)
        invariant Named(chain, name) == Named(chain[k..], name)
        decreases |chain| - k
      {
        assert chain[k..][1..] == chain[k + 1..] && LinkedAt(chain, k);
        if bucket.name == name { return bucket; }
        bucket := bucket.next;
        k := k + 1;
      }
      node := null;
    }

    /** The other chains keep their links when the nodes of one chain change. */
    twostate lemma OthersKept(bucket: nat, new hp: HashNode?)
      requires bucket < HASHSIZE && old(Valid()) && chains == old(chains)
      requires forall n: HashNode :: n in old(Nodes()) && n.bucket != bucket ==>
          n.next == old(n.next) && n.prev == old(n.prev)
      ensures forall b :: 0 <= b < HASHSIZE && b != bucket ==> Linked(chains[b])
    {
      forall b | 0 <= b < HASHSIZE && b != bucket ensures Linked(chains[b]) {
        var chain := chains[b];
        forall k {:trigger LinkedAt(chain, k)} | 0 <= k < |chain| ensures LinkedAt(chain, k) {
          assert old(LinkedAt(chain, k)) && chain[k] in old(Nodes()) && chain[k].bucket == b;
        }
      }
    }

    /** Put a new node in front of its chain. */
    method Link(hp: HashNode)
      requires Valid() && hp !in Nodes() && hp.bucket == Hashf(hp.name)
      requires hp.next == hashtab[hp.bucket] && hp.prev == null
      modifies this`chains, hashtab, Nodes()
      ensures Valid() && hashtab == old(hashtab)
      ensures chains == old(chains[hp.bucket := [hp] + chains[hp.bucket]])
    {
      hide Hashf;
      var bucket := hp.bucket;
      ghost var chain := chains[bucket];
      hashtab[bucket] := hp;
      LinkFront(hp, chain);
      PushBelongs(hp, chain, bucket);
      OthersKept(bucket, hp);
      chains := chains[bucket := [hp] + chain];
    }

    /** delete_macro: the node leaves its chain, at whatever place. */
    method Delete(hp: HashNode, ghost k: nat)
      requires Valid() && hp.bucket < HASHSIZE && k < |chains[hp.bucket]| && chains[hp.bucket][k] == hp
      modifies this`chains, hashtab, Nodes()
      ensures Valid() && hashtab == old(hashtab)
      ensures chains == old(chains[hp.bucket := Without(chains[hp.bucket], k)])
    {
      hide Hashf;
      var bucket := hp.bucket;
      ghost var chain := chains[bucket];
      assert LinkedAt(chain, k) && (k > 0 ==> chain[0] != chain[k]);
      Unlink(hp, chain, k);
      WithoutAt(chain, k, 0);
      hide Without;
      if hp == hashtab[bucket] { hashtab[bucket] := hp.next; }
      DeleteBelongs(chain, k, bucket);
      OthersKept(bucket, null);
      chains := chains[bucket := Without(chain, k)];
    }

    /** install: the node becomes the head of its chain. */
    method Install(name: string, ntype: int, value: string) returns (hp: HashNode)
      requires Valid()
      modifies this`chains, hashtab, Nodes()
      ensures Valid() && hashtab == old(hashtab) && fresh(hp)
      ensures hp.name == name && hp.ntype == ntype && hp.value == value
      ensures chains == old(chains[Hashf(name) := [hp] + chains[Hashf(name)]])
      ensures forall m :: Definitions(m) == if m == name then [hp] + old(Definitions(m)) else old(Definitions(m))
    {
      hide Named;
      hp := new HashNode(name, ntype, value, Hashf(name), hashtab[Hashf(name)]);
      Link(hp);
      forall m ensures Definitions(m) == if m == name then [hp] + old(Definitions(m)) else old(Definitions(m)) {
        NamedFront(hp, old(chains[Hashf(name)]), m);
      }
    }

    /** eval_if_expression installs the name defined while it reads the expression. Afterwards the
        table is as it was found: its array, its chains and all their links. */
    method AroundIfExpression()
      requires Valid()
      modifies this`chains, hashtab, Nodes()
      ensures Valid() && hashtab == old(hashtab) && chains == old(chains) && hashtab[..] == old(hashtab[..])
      ensures forall n: HashNode :: n in Nodes() ==> n.next == old(n.next) && n.prev == old(n.prev)
    {
      ghost var before := chains;
      var saveDefined := Install("defined", 0, "");
      var b := Hashf("defined");
      assert chains[b] == [saveDefined] + before[b];
      Delete(saveDefined, 0);
      WithoutFirst(saveDefined, before[b]);
      assert chains == before;
      SameLinks();
    }

    /** The chains determine the links. */
    twostate lemma SameLinks()
      requires old(Valid()) && Valid() && chains == old(chains) && hashtab == old(hashtab)
      ensures hashtab[..] == old(hashtab[..])
      ensures forall n: HashNode :: n in Nodes() ==> n.next == old(n.next) && n.prev == old(n.prev)
    {
      forall n: HashNode | n in Nodes() ensures n.next == old(n.next) && n.prev == old(n.prev) {
        var b, k :| 0 <= b < |chains| && 0 <= k < |chains[b]| && chains[b][k] == n;
        assert LinkedAt(chains[b], k) && old(LinkedAt(chains[b], k));
      }
    }
  }

  lemma WithoutFirst(hp: HashNode, chain: seq<HashNode>)
    ensures Without([hp] + chain, 0) == chain
  {
  }

  lemma NamedFront(hp: HashNode, chain: seq<HashNode>, name: string)
    ensures Named([hp] + chain, name) == if hp.name == name then [hp] + Named(chain, name) else Named(chain, name)
  {
    NamedAppend([hp], chain, name);
    NamedOne(hp, name);
  }

  /** Deleting a node takes it out of the definitions of its name, uncovering the one before it if
      it was the newest, and changes no other name. */
  lemma DeleteUncovers(chain: seq<HashNode>, k: nat, name: string)
    requires k < |chain|
    ensures var newer, older := Named(chain[..k], name), Named(chain[k + 1..], name);
      && Named(Without(chain, k), name) == newer + older
      && Named(chain, name) == newer + (if chain[k].name == name then [chain[k]] else []) + older
  {
    NamedAppend(chain[..k], chain[k + 1..], name);
    NamedAppend(chain[..k], [chain[k]] + chain[k + 1..], name);
    NamedFront(chain[k], chain[k + 1..], name);
    assert chain == chain[..k] + ([chain[k]] + chain[k + 1..]);
  }
}

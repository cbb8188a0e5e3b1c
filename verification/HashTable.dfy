/** The open-addressing table of rsync/hashtable.c: linear probing in a node
    array whose size is a power of two, doubled when it gets too full. */
module HashTable {

  /** Key 0 marks a free node; data 0 is the null pointer. */
  datatype Node = Node(key: int, data: int)

  datatype Lookup = At(slot: nat) | Null | IllegalKey

  predicate PowerOfTwo(n: nat)
    decreases n
  {
    n == 1 || (n > 1 && n % 2 == 0 && PowerOfTwo(n / 2))
  }

  /** Three quarters of the nodes. */
  function LoadLimit(size: nat): (n: nat)
    ensures 4 * n <= 3 * size < 4 * n + 4
  {
    size * 3 / 4
  }

  /** Nodes in use. */
  function Used(t: seq<Node>): (n: nat)
    ensures n <= |t|
  {
    if t == [] then 0 else (if t[0].key != 0 then 1 else 0) + Used(t[1..])
  }

  lemma {:induction false} FreeNode(t: seq<Node>) returns (e: nat)
    requires Used(t) < |t|
    ensures e < |t| && t[e].key == 0
  {
    if t[0].key == 0 {
      e := 0;
    } else {
      e := FreeNode(t[1..]);
      e := e + 1;
    }
  }

  lemma {:induction false} UsedAfterPut(t: seq<Node>, i: nat, n: Node)
    requires i < |t| && n.key != 0
    ensures Used(t[i := n]) == Used(t) + (if t[i].key == 0 then 1 else 0)
  {
    if i == 0 {
      assert t[i := n][1..] == t[1..];
    } else {
      UsedAfterPut(t[1..], i - 1, n);
      assert t[i := n][1..] == t[1..][i - 1 := n];
    }
  }

  lemma {:induction false} UsedOfTail(t: seq<Node>, i: nat)
    requires i <= |t|
    ensures Used(t[i..]) <= Used(t)
  {
    if i > 0 {
      UsedOfTail(t[1..], i - 1);
      assert t[1..][i - 1..] == t[i..];
    }
  }

  lemma {:induction false} UsedBlank(n: nat)
    ensures Used(seq(n, _ => Node(0, 0))) == 0
  {
    if n > 0 {
      UsedBlank(n - 1);
      assert seq(n, _ => Node(0, 0))[1..] == seq(n - 1, _ => Node(0, 0));
    }
  }

  /** How many probes lie between home h and slot i. */
  function Dist(h: int, i: int, n: int): int { if i >= h then i - h else i - h + n }

  /** Where probing for a key starts: the hash masked to the table's size. */
  function HomeOf(hash: int -> nat, key: int, n: nat): (h: nat)
    requires n > 0
    ensures h < n
  {
    hash(key) % n
  }

  /** No free node and no other key k lies before slot i on k's probe path. */
  predicate Clear(t: seq<Node>, h: nat, i: nat, key: int) {
    forall j :: 0 <= j < |t| && Dist(h, j, |t|) < Dist(h, i, |t|) ==> t[j].key != 0 && t[j].key != key
  }

  predicate Sound(t: seq<Node>, hash: int -> nat)
    requires |t| > 0
  {
    forall i :: 0 <= i < |t| && t[i].key != 0 ==> Clear(t, HomeOf(hash, t[i].key, |t|), i, t[i].key)
  }

  /** The table stands for the map m. */
  predicate StandsFor(t: seq<Node>, m: map<int, int>) {
    && (forall i :: 0 <= i < |t| && t[i].key != 0 ==> t[i].key in m && m[t[i].key] == t[i].data)
    && (forall k <- m :: k != 0 && exists i :: 0 <= i < |t| && t[i].key == k)
  }

  lemma DistInjective(h: nat, i: nat, j: nat, n: nat)
    requires h < n && i < n && j < n && Dist(h, i, n) == Dist(h, j, n)
    ensures i == j
  {
  }

  /** A key lives in one node only. */
  lemma OneNode(t: seq<Node>, hash: int -> nat, i: nat, j: nat)
    requires |t| > 0 && Sound(t, hash) && i < |t| && j < |t| && t[i].key == t[j].key != 0
    ensures i == j
  {
    var h := HomeOf(hash, t[i].key, |t|);
    assert Clear(t, h, j, t[j].key) && Clear(t, h, i, t[i].key);
    DistInjective(h, i, j, |t|);
  }

  /** A free node at the end of a clear path proves the key absent. */
  lemma Absent(t: seq<Node>, hash: int -> nat, m: map<int, int>, e: nat, key: int)
    requires |t| > 0 && Sound(t, hash) && StandsFor(t, m) && key != 0 && e < |t| && t[e].key == 0
    requires Clear(t, HomeOf(hash, key, |t|), e, key)
    ensures key !in m
  {
    if key in m {
      var i :| 0 <= i < |t| && t[i].key == key;
      var h := HomeOf(hash, key, |t|);
      assert Clear(t, h, i, key);
      DistInjective(h, i, e, |t|) by { assert Dist(h, i, |t|) <= Dist(h, e, |t|) <= Dist(h, i, |t|); }
    }
  }

  /** Filling a free node with a new key clears other paths no less. */
  lemma ClearStays(t: seq<Node>, h: nat, i: nat, k: int, e: nat, n: Node)
    requires i < |t| && e < |t| && Clear(t, h, i, k) && n.key != k && n.key != 0
    ensures Clear(t[e := n], h, i, k)
  {
  }

  lemma SoundStays(t: seq<Node>, hash: int -> nat, m: map<int, int>, e: nat, n: Node)
    requires |t| > 0 && Sound(t, hash) && StandsFor(t, m) && e < |t| && t[e].key == 0 && n.key !in m && n.key != 0
    requires Clear(t, HomeOf(hash, n.key, |t|), e, n.key)
    ensures Sound(t[e := n], hash)
  {
    var t' := t[e := n];
    forall i | 0 <= i < |t'| && t'[i].key != 0
      ensures Clear(t', HomeOf(hash, t'[i].key, |t'|), i, t'[i].key)
    {
      if i == e {
        assert forall j :: 0 <= j < |t| && j != e ==> t'[j] == t[j];
      } else {
        ClearStays(t, HomeOf(hash, t[i].key, |t|), i, t[i].key, e, n);
      }
    }
  }

  /** Writing a node for a key that had none, or had this one. */
  lemma MapStays(t: seq<Node>, m: map<int, int>, e: nat, n: Node)
    requires StandsFor(t, m) && e < |t| && n.key != 0 && (t[e].key == 0 || t[e].key == n.key)
    requires forall i :: 0 <= i < |t| && i != e ==> t[i].key != n.key
    ensures StandsFor(t[e := n], m[n.key := n.data])
  {
    var (t', m') := (t[e := n], m[n.key := n.data]);
    forall k | k in m' ensures k != 0 && exists i :: 0 <= i < |t'| && t'[i].key == k {
      if k == n.key {
        assert t'[e].key == n.key;
      } else {
        var i :| 0 <= i < |t| && t[i].key == k;
        assert t'[i].key == k;
      }
    }
  }

  /** Taking over the free node where probing stopped adds one association. */
  lemma TakeOver(t: seq<Node>, hash: int -> nat, m: map<int, int>, e: nat, n: Node)
    requires |t| > 0 && Sound(t, hash) && StandsFor(t, m) && n.key != 0 && e < |t| && t[e].key == 0
    requires Clear(t, HomeOf(hash, n.key, |t|), e, n.key)
    ensures Sound(t[e := n], hash) && StandsFor(t[e := n], m[n.key := n.data]) && Used(t[e := n]) == Used(t) + 1
  {
    Absent(t, hash, m, e, n.key);
    UsedAfterPut(t, e, n);
    SoundStays(t, hash, m, e, n);
    MapStays(t, m, e, n);
  }

  lemma SameKeysSound(t: seq<Node>, hash: int -> nat, t': seq<Node>)
    requires 0 < |t| == |t'| && Sound(t, hash) && forall i :: 0 <= i < |t| ==> t[i].key == t'[i].key
    ensures Sound(t', hash)
  {
    forall i | 0 <= i < |t'| && t'[i].key != 0
      ensures Clear(t', HomeOf(hash, t'[i].key, |t'|), i, t'[i].key)
    {
      assert Clear(t, HomeOf(hash, t[i].key, |t|), i, t[i].key);
    }
  }

  /** Changing the data of a node changes one association. */
  lemma Overwrite(t: seq<Node>, hash: int -> nat, m: map<int, int>, e: nat, data: int)
    requires |t| > 0 && Sound(t, hash) && StandsFor(t, m) && e < |t| && t[e].key != 0
    ensures var t' := t[e := Node(t[e].key, data)];
      Sound(t', hash) && StandsFor(t', m[t[e].key := data]) && Used(t') == Used(t)
  {
    var n := Node(t[e].key, data);
    UsedAfterPut(t, e, n);
    SameKeysSound(t, hash, t[e := n]);
    forall i | 0 <= i < |t| && i != e ensures t[i].key != n.key {
      if t[i].key == n.key { OneNode(t, hash, i, e); }
    }
    MapStays(t, m, e, n);
  }

  /** The probe loop of hashtable_find: it stops, at the key or at the first
      free node of the path. */
  method Probe(nodes: array<Node>, hash: int -> nat, key: int) returns (ndx: nat)
    requires nodes.Length > 0 && key != 0 && Used(nodes[..]) < nodes.Length
    ensures ndx < nodes.Length && (nodes[ndx].key == key || nodes[ndx].key == 0)
    ensures Clear(nodes[..], HomeOf(hash, key, nodes.Length), ndx, key)
  {
    var n := nodes.Length;
    ghost var t := nodes[..];
    ghost var e := FreeNode(t);
    var h := HomeOf(hash, key, n);
    ndx := h;
    while nodes[ndx].key != key && nodes[ndx].key != 0
      invariant ndx < n && Clear(t, h, ndx, key) && Dist(h, ndx, n) <= Dist(h, e, n)
      decreases Dist(h, e, n) - Dist(h, ndx, n)
    {
      ghost var was := ndx;
      assert Dist(h, was, n) < Dist(h, e, n) by {
        if Dist(h, was, n) == Dist(h, e, n) { DistInjective(h, was, e, n); }
      }
      ndx := if ndx + 1 == n then 0 else ndx + 1;
      forall j | 0 <= j < n && Dist(h, j, n) < Dist(h, ndx, n) ensures t[j].key != 0 && t[j].key != key {
        if Dist(h, j, n) == Dist(h, was, n) { DistInjective(h, j, was, n); }
      }
    }
  }

  class Table {
    var nodes: array<Node>
    var entries: nat
    const wide: bool          // 64-bit keys
    const hash: int -> nat
    ghost var contents: map<int, int>

    ghost predicate Valid()
      reads this, nodes
    {
      && nodes.Length >= 16 && PowerOfTwo(nodes.Length)
      && Used(nodes[..]) == entries && entries <= LoadLimit(nodes.Length) + 1
      && Sound(nodes[..], hash) && StandsFor(nodes[..], contents) && forall k <- contents :: Fits(k)
    }

    /** The keys a table of this width can hold. */
    predicate Fits(key: int) {
      if wide then -0x8000_0000_0000_0000 <= key < 0x8000_0000_0000_0000 else -0x8000_0000 <= key < 0x8000_0000
    }

    /** hashtable_create. */
    constructor (request: nat, wide: bool, hash: int -> nat)
      ensures Valid() && contents == map[] && entries == 0 && fresh(nodes)
      ensures nodes.Length >= request && this.wide == wide && this.hash == hash
      ensures PowerOfTwo(request) && request >= 16 ==> nodes.Length == request
    {
      var size := request;
      if !PowerOfTwo(size) || size < 16 {
        size := 16;
        assert PowerOfTwo(8) by { assert PowerOfTwo(4) by { assert PowerOfTwo(2); } }
        while size < request
          invariant size >= 16 && PowerOfTwo(size)
          decreases request - size
        {
          assert (size * 2) / 2 == size;
          size := size * 2;
        }
      }
      UsedBlank(size);
      this.wide, this.hash, entries, contents := wide, hash, 0, map[];
      nodes := new Node[size](_ => Node(0, 0));
      new;
      assert nodes[..] == seq(size, _ => Node(0, 0));
    }

    /** hashtable_find.  A null data_when_new only looks the key up. */
    method Find(key: int, dataWhenNew: int) returns (r: Lookup)
      requires Valid() && Fits(key)
      modifies this, nodes
      ensures Valid() && (nodes == old(nodes) || fresh(nodes))
      ensures key == 0 ==> r == IllegalKey && contents == old(contents)
      ensures key in old(contents) ==> contents == old(contents)
      ensures key != 0 && key !in old(contents) ==>
        contents == if dataWhenNew == 0 then old(contents) else old(contents)[key := dataWhenNew]
      ensures key != 0 ==> (r.At? <==> key in contents) && r != IllegalKey
      ensures r.At? ==> r.slot < nodes.Length && nodes[r.slot] == Node(key, contents[key])
      ensures dataWhenNew == 0 || old(entries) <= LoadLimit(old(nodes).Length) ==> nodes == old(nodes)
      ensures entries == old(entries) + if old(contents) == contents then 0 else 1
      decreases if dataWhenNew != 0 && entries > LoadLimit(nodes.Length) then 3 else 0
    {
      if key == 0 {
        return IllegalKey;
      }
      if dataWhenNew != 0 && entries > LoadLimit(nodes.Length) {
        Grow();
      }
      var ndx := Probe(nodes, hash, key);
      if nodes[ndx].key == key {
        return At(ndx);
      }
      Absent(nodes[..], hash, contents, ndx, key);
      if dataWhenNew == 0 {
        return Null;
      }
      TakeOver(nodes[..], hash, contents, ndx, Node(key, dataWhenNew));
      nodes[ndx] := Node(key, dataWhenNew);
      contents := contents[key := dataWhenNew];
      entries := entries + 1;
      return At(ndx);
    }

    /** The doubling: every node moves over, from the last to the first.  A
        null node goes in with a placeholder that is then cleared. */
    method Grow()
      requires Valid() && entries > LoadLimit(nodes.Length)
      modifies this
      ensures Valid() && fresh(nodes) && nodes.Length == 2 * old(nodes.Length)
      ensures contents == old(contents) && entries == old(entries) && entries <= LoadLimit(nodes.Length)
      decreases 2
    {
      var oldNodes := nodes;
      ghost var all := contents;
      ghost var was := nodes[..];
      var size := nodes.Length * 2;
      StartEmpty(size);
      assert was[oldNodes.Length..] == [];
      var i: nat := oldNodes.Length;
      while i > 0
        invariant i <= oldNodes.Length && Valid() && fresh(nodes) && nodes.Length == size
        invariant oldNodes[..] == was && Moved(was, i, all, contents)
        invariant entries == Used(was[i..])
      {
        i := i - 1;
        assert was[i..][1..] == was[i + 1..];
        UsedOfTail(was, i);
        var node := oldNodes[i];
        if node.key != 0 {
          NotYetMoved(was, hash, i, all, contents);
          Reinsert(node);
        }
      }
      assert was[0..] == was;
      AllMoved(was, all, contents);
    }

    /** A blank array of twice the size. */
    method StartEmpty(size: nat)
      requires size >= 32 && size == 2 * nodes.Length && PowerOfTwo(nodes.Length)
      modifies this
      ensures Valid() && fresh(nodes) && nodes.Length == size && contents == map[] && entries == 0
    {
      assert size / 2 == nodes.Length;
      UsedBlank(size);
      nodes := new Node[size](_ => Node(0, 0));
      assert nodes[..] == seq(size, _ => Node(0, 0));
      entries, contents := 0, map[];
    }

    method Reinsert(node: Node)
      requires Valid() && Fits(node.key) && node.key != 0 && node.key !in contents && entries <= LoadLimit(nodes.Length)
      modifies this, nodes
      ensures Valid() && nodes == old(nodes) && entries == old(entries) + 1
      ensures contents == old(contents)[node.key := node.data]
      decreases 1
    {
      if node.data != 0 {
        var _ := Find(node.key, node.data);
      } else {
        SetTwice(contents, node.key, Placeholder(), 0);
        var r := Find(node.key, Placeholder());
        assert nodes[r.slot].key == node.key;
        SetData(r.slot, 0);
      }
    }

    /** The caller writes to the data of a node it was given. */
    method SetData(slot: nat, data: int)
      requires Valid() && slot < nodes.Length && nodes[slot].key != 0
      modifies this`contents, nodes
      ensures Valid() && contents == old(contents)[old(nodes[slot].key) := data]
    {
      Overwrite(nodes[..], hash, contents, slot, data);
      contents := contents[nodes[slot].key := data];
      nodes[slot] := Node(nodes[slot].key, data);
    }
  }

  /** contents is what all says about the keys of was[i..]. */
  predicate Moved(was: seq<Node>, i: nat, all: map<int, int>, contents: map<int, int>)
    requires i <= |was|
  {
    && (forall k <- contents :: k in all && contents[k] == all[k] && exists j :: i <= j < |was| && was[j].key == k)
    && (forall j :: i <= j < |was| && was[j].key != 0 ==> was[j].key in contents)
  }

  lemma NotYetMoved(was: seq<Node>, hash: int -> nat, i: nat, all: map<int, int>, contents: map<int, int>)
    requires i < |was| && Sound(was, hash) && was[i].key != 0 && Moved(was, i + 1, all, contents)
    ensures was[i].key !in contents
  {
    if was[i].key in contents {
      var j :| i + 1 <= j < |was| && was[j].key == was[i].key;
      OneNode(was, hash, i, j);
    }
  }

  lemma AllMoved(was: seq<Node>, all: map<int, int>, contents: map<int, int>)
    requires StandsFor(was, all) && Moved(was, 0, all, contents)
    ensures contents == all
  {
    forall k | k in all ensures k in contents {
      assert k != 0;
      var j :| 0 <= j < |was| && was[j].key == k;
      assert was[j].key in contents;
    }
    forall k | k in contents ensures k in all && contents[k] == all[k] {
    }
  }

  lemma SetTwice(m: map<int, int>, k: int, a: int, b: int)
    ensures m[k := a][k := b] == m[k := b]
  {
  }

  /** A non-null value to insert a node with before its data is known. */
  function Placeholder(): int { 1 }
}

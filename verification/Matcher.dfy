/** The sender's block search (rsync/match.c) and the sums it works from
    (rsync/sender.c). */
module Matcher {
  import opened ByteOrder
  import opened Checksum
  import opened Delta

  const TRADITIONAL_TABLESIZE: nat := 0x1_0000
  const CHUNK_SIZE: nat := 0x8000

  datatype SumBuf = SumBuf(offset: nat, len: nat, sum1: nat, sum2: bytes, chain: int, sameOffset: bool)

  /** SUM2HASH for the traditional size, BIG_SUM2HASH above it. */
  function Hash(sum: nat, size: nat): (h: nat)
    requires size > 0
    ensures size >= TRADITIONAL_TABLESIZE ==> h < size
  {
    if size == TRADITIONAL_TABLESIZE then (sum % M16 + sum / M16) % M16 else sum % size
  }

  function TableSize(count: nat): (size: nat)
    ensures size >= TRADITIONAL_TABLESIZE
  {
    var size := U32(count / 8 * 10 + 11);
    if size < TRADITIONAL_TABLESIZE then TRADITIONAL_TABLESIZE else size
  }

  /** In the smallest table the two halves of the weak sum are added up. */
  lemma HashAdds(s1: int, s2: int)
    ensures Hash(Join(s1, s2), TRADITIONAL_TABLESIZE) == (s1 + s2) % M16
  {
    var (a, b) := (s1 / M16, s2 / M16);
    assert s1 + s2 == s1 % M16 + s2 % M16 + (a + b) * M16;
    CongBy(s1 + s2, s1 % M16 + s2 % M16, M16, a + b);
  }

  /** The table has a quarter more slots than blocks, and not many more unless
      it is the smallest one; a larger one has an odd number. */
  lemma TableHasRoom(count: nat)
    requires count < 0x8000_0000
    ensures 4 * TableSize(count) > 5 * count
    ensures TableSize(count) == TRADITIONAL_TABLESIZE || (4 * TableSize(count) <= 5 * count + 44 && TableSize(count) % 2 == 1)
  {
    assert count == count / 8 * 8 + count % 8;
  }

  /** May block s be matched at this offset?  In place, only if its bytes are
      still in the file: at or past the offset, or known to be skipped over. */
  predicate Usable(s: SumBuf, offset: nat, updating: bool) {
    !updating || s.offset >= offset || s.sameOffset
  }

  /** A link to block v (or -1) in the chain of slot t, coming from index
      `upper`: it jumps over no block of that slot which is still usable. */
  predicate LinkOk(sums: seq<SumBuf>, size: nat, v: int, upper: nat, t: nat, offset: nat, updating: bool)
    requires upper <= |sums| && size > 0
  {
    && -1 <= v < upper
    && (v >= 0 ==> Hash(sums[v].sum1, size) == t)
    && forall j :: v < j < upper && Hash(sums[j].sum1, size) == t ==> !Usable(sums[j], offset, updating)
  }

  predicate ChainsOk(sums: seq<SumBuf>, table: seq<int>, offset: nat, updating: bool) {
    && |table| >= TRADITIONAL_TABLESIZE
    && (forall t :: 0 <= t < |table| ==> LinkOk(sums, |table|, table[t], |sums|, t, offset, updating))
    && (forall i :: 0 <= i < |sums| ==>
          LinkOk(sums, |table|, sums[i].chain, i, Hash(sums[i].sum1, |table|), offset, updating))
  }

  /** The same blocks apart from their links. */
  predicate SameBlocks(a: seq<SumBuf>, b: seq<SumBuf>) {
    |a| == |b| && forall i :: 0 <= i < |a| ==> a[i].(chain := 0) == b[i].(chain := 0)
  }

  /** Moving on only makes blocks unusable, so no link goes bad. */
  lemma ChainsAdvance(sums: seq<SumBuf>, table: seq<int>, offset: nat, next: nat, updating: bool)
    requires ChainsOk(sums, table, offset, updating) && offset <= next
    ensures ChainsOk(sums, table, next, updating)
  {
    forall t | 0 <= t < |table| ensures LinkOk(sums, |table|, table[t], |sums|, t, next, updating) {
      assert LinkOk(sums, |table|, table[t], |sums|, t, offset, updating);
    }
    forall i | 0 <= i < |sums|
      ensures LinkOk(sums, |table|, sums[i].chain, i, Hash(sums[i].sum1, |table|), next, updating)
    {
      assert LinkOk(sums, |table|, sums[i].chain, i, Hash(sums[i].sum1, |table|), offset, updating);
    }
  }

  /** A block flagged while still usable was in no gap, so it is never lost. */
  lemma ChainsFlag(sums: seq<SumBuf>, table: seq<int>, offset: nat, updating: bool, i: nat)
    requires ChainsOk(sums, table, offset, updating) && i < |sums| && sums[i].offset >= offset
    ensures ChainsOk(sums[i := sums[i].(sameOffset := true)], table, offset, updating)
  {
    var s' := sums[i := sums[i].(sameOffset := true)];
    forall t | 0 <= t < |table| ensures LinkOk(s', |table|, table[t], |s'|, t, offset, updating) {
      assert LinkOk(sums, |table|, table[t], |sums|, t, offset, updating);
    }
    forall k | 0 <= k < |s'|
      ensures LinkOk(s', |table|, s'[k].chain, k, Hash(s'[k].sum1, |table|), offset, updating)
    {
      assert LinkOk(sums, |table|, sums[k].chain, k, Hash(sums[k].sum1, |table|), offset, updating);
    }
  }

  /** Unlinking a block that is no longer usable keeps every link good. */
  lemma LinkPast(sums: seq<SumBuf>, size: nat, v: nat, upper: nat, t: nat, offset: nat, updating: bool)
    requires size > 0 && upper <= |sums| && LinkOk(sums, size, v, upper, t, offset, updating)
    requires LinkOk(sums, size, sums[v].chain, v, t, offset, updating)
    requires !Usable(sums[v], offset, updating)
    ensures LinkOk(sums, size, sums[v].chain, upper, t, offset, updating)
  {
  }

  /** Links only look at sum1, offset and flag of the blocks. */
  lemma LinkFrame(a: seq<SumBuf>, b: seq<SumBuf>, size: nat, v: int, upper: nat, t: nat, offset: nat, updating: bool)
    requires size > 0 && upper <= |a| && SameBlocks(a, b) && LinkOk(a, size, v, upper, t, offset, updating)
    ensures LinkOk(b, size, v, upper, t, offset, updating)
  {
    forall j | 0 <= j < |a| ensures a[j].sum1 == b[j].sum1 && Usable(a[j], offset, updating) == Usable(b[j], offset, updating) {
      assert a[j].(chain := 0) == b[j].(chain := 0);
    }
  }

  lemma UnlinkHead(sums: seq<SumBuf>, table: seq<int>, h: nat, offset: nat, updating: bool)
    requires ChainsOk(sums, table, offset, updating) && h < |table| && table[h] >= 0
    requires !Usable(sums[table[h]], offset, updating)
    ensures ChainsOk(sums, table[h := sums[table[h]].chain], offset, updating)
  {
    var v := table[h];
    assert LinkOk(sums, |table|, v, |sums|, h, offset, updating);
    assert LinkOk(sums, |table|, sums[v].chain, v, Hash(sums[v].sum1, |table|), offset, updating);
    LinkPast(sums, |table|, v, |sums|, h, offset, updating);
  }

  lemma UnlinkNext(sums: seq<SumBuf>, table: seq<int>, p: nat, offset: nat, updating: bool)
    requires ChainsOk(sums, table, offset, updating) && p < |sums| && sums[p].chain >= 0
    requires LinkOk(sums, |table|, sums[p].chain, p, Hash(sums[p].sum1, |table|), offset, updating)
    requires !Usable(sums[sums[p].chain], offset, updating)
    ensures ChainsOk(sums[p := sums[p].(chain := sums[sums[p].chain].chain)], table, offset, updating)
  {
    var v := sums[p].chain;
    var s' := sums[p := sums[p].(chain := sums[v].chain)];
    assert LinkOk(sums, |table|, sums[v].chain, v, Hash(sums[v].sum1, |table|), offset, updating);
    LinkPast(sums, |table|, v, p, Hash(sums[p].sum1, |table|), offset, updating);
    assert SameBlocks(sums, s');
    forall t | 0 <= t < |table| ensures LinkOk(s', |table|, table[t], |s'|, t, offset, updating) {
      assert LinkOk(sums, |table|, table[t], |sums|, t, offset, updating);
      LinkFrame(sums, s', |table|, table[t], |sums|, t, offset, updating);
    }
    forall k | 0 <= k < |s'|
      ensures LinkOk(s', |table|, s'[k].chain, k, Hash(s'[k].sum1, |table|), offset, updating)
    {
      assert LinkOk(sums, |table|, sums[k].chain, k, Hash(sums[k].sum1, |table|), offset, updating);
      LinkFrame(sums, s', |table|, s'[k].chain, k, Hash(sums[k].sum1, |table|), offset, updating);
    }
  }

  // ----- receive_sums -----

  /** The sender's picture of the basis: what the block sums should be. */
  predicate SumsOf(sums: seq<SumBuf>, basis: bytes, g: Geometry, strong: bytes -> bytes, s2length: nat)
    requires g.Valid() && |basis| == g.Flength()
  {
    && |sums| == g.count
    && forall i :: 0 <= i < g.count ==>
         && sums[i].offset == g.Offset(i) && sums[i].len == g.Len(i)
         && sums[i].sum1 == WeakSum(Block(basis, g, i))
         && sums[i].sum2 == Sum2(strong, s2length, Block(basis, g, i))
  }

  /** receive_sums: lay the received sums out over the file, adding up lengths. */
  method ReceiveSums(g: Geometry, wire: seq<(nat, bytes)>) returns (sums: array<SumBuf>, flength: nat)
    requires g.Valid() && |wire| == g.count
    ensures fresh(sums) && sums.Length == g.count && flength == g.Flength()
    ensures forall i :: 0 <= i < g.count ==>
              sums[i] == SumBuf(g.Offset(i), g.Len(i), wire[i].0, wire[i].1, -1, false)
  {
    var offset := 0;
    sums := new SumBuf[g.count](_ => SumBuf(0, 0, 0, [], -1, false));
    for i := 0 to g.count
      invariant offset == if i == 0 then 0 else g.Offset(i - 1) + g.Len(i - 1)
      invariant forall j :: 0 <= j < i ==>
                  sums[j] == SumBuf(g.Offset(j), g.Len(j), wire[j].0, wire[j].1, -1, false)
    {
      if i > 0 { g.BlockInside(i - 1); }
      assert offset == g.Offset(i);
      var len := if i == g.count - 1 && g.remainder != 0 then g.remainder else g.blength;
      sums[i] := SumBuf(offset, len, wire[i].0, wire[i].1, -1, false);
      offset := offset + len;
    }
    flength := offset;
  }

  // ----- build_hash_table -----

  method BuildHashTable(sums: array<SumBuf>, updating: bool) returns (table: array<int>)
    modifies sums
    ensures fresh(table) && table.Length == TableSize(sums.Length)
    ensures SameBlocks(old(sums[..]), sums[..])
    ensures ChainsOk(sums[..], table[..], 0, updating)
  {
    var size := TableSize(sums.Length);
    table := new int[size](_ => -1);
    var i := 0;
    while i < sums.Length
      invariant 0 <= i <= sums.Length
      invariant SameBlocks(old(sums[..]), sums[..])
      invariant forall t :: 0 <= t < size ==> LinkOk(sums[..], size, table[t], i, t, 0, updating)
      invariant forall k :: 0 <= k < i ==>
                  LinkOk(sums[..], size, sums[k].chain, k, Hash(sums[k].sum1, size), 0, updating)
    {
      var t := Hash(sums[i].sum1, size);
      ghost var before, head := sums[..], table[t];
      sums[i] := sums[i].(chain := table[t]);
      table[t] := i;
      assert sums[..] == before[i := before[i].(chain := head)];
      LinkAdd(before, sums[..], size, i, head, updating);
      forall u | 0 <= u < size ensures LinkOk(sums[..], size, table[u], i + 1, u, 0, updating) {
        if u != t {
          assert LinkOk(before, size, table[u], i, u, 0, updating);
          LinkFrame(before, sums[..], size, table[u], i, u, 0, updating);
        }
      }
      forall k | 0 <= k < i + 1
        ensures LinkOk(sums[..], size, sums[k].chain, k, Hash(sums[k].sum1, size), 0, updating)
      {
        if k < i {
          assert LinkOk(before, size, before[k].chain, k, Hash(before[k].sum1, size), 0, updating);
          LinkFrame(before, sums[..], size, before[k].chain, k, Hash(before[k].sum1, size), 0, updating);
        }
      }
      i := i + 1;
    }
  }

  lemma LinkAdd(before: seq<SumBuf>, after: seq<SumBuf>, size: nat, i: nat, head: int, updating: bool)
    requires i < |before| && size > 0 && after == before[i := before[i].(chain := head)]
    requires LinkOk(before, size, head, i, Hash(before[i].sum1, size), 0, updating)
    ensures SameBlocks(before, after)
    ensures LinkOk(after, size, head, i, Hash(after[i].sum1, size), 0, updating)
    ensures LinkOk(after, size, i, i + 1, Hash(after[i].sum1, size), 0, updating)
  {
    assert SameBlocks(before, after);
    LinkFrame(before, after, size, head, i, Hash(before[i].sum1, size), 0, updating);
  }

  // ----- hash_search: one position -----

  /** The length of the window the sender compares at an offset. */
  function WindowLen(file: bytes, g: Geometry, offset: nat): nat
    requires offset <= |file|
  {
    if g.blength <= |file| - offset then g.blength else |file| - offset
  }

  /** What the search compares against; nothing here changes during a search. */
  datatype Job = Job(file: bytes, g: Geometry, strong: bytes -> bytes, s2length: nat, updating: bool) {
    function L(offset: nat): nat
      requires offset <= |file|
    {
      WindowLen(file, g, offset)
    }

    function W(offset: nat): bytes
      requires offset <= |file|
    {
      Window(file, offset, L(offset))
    }

    function D(w: bytes): bytes { Sum2(strong, s2length, w) }
  }

  /** Block s has the length and both sums of the window at this offset. */
  predicate Candidate(job: Job, s: SumBuf, offset: nat)
    requires offset <= |job.file|
  {
    && s.len == job.L(offset)
    && s.sum1 == WeakSum(job.W(offset))
    && s.sum2 == job.D(job.W(offset))
  }

  /** A candidate the sender may use. */
  predicate Hit(job: Job, s: SumBuf, offset: nat)
    requires offset <= |job.file|
  {
    Candidate(job, s, offset) && Usable(s, offset, job.updating)
  }

  predicate NoHitAbove(job: Job, sums: seq<SumBuf>, i: int, offset: nat)
    requires offset <= |job.file| && -1 <= i
  {
    forall j :: i < j < |sums| ==> !Hit(job, sums[j], offset)
  }

  /** What a linear scan from the last block down would stop at: the last
      usable candidate, or -1 when there is none. */
  predicate IsLastHit(job: Job, sums: seq<SumBuf>, offset: nat, i: int)
    requires offset <= |job.file|
  {
    -1 <= i < |sums| && NoHitAbove(job, sums, i, offset) && (i >= 0 ==> Hit(job, sums[i], offset))
  }

  lemma HitFrame(job: Job, a: seq<SumBuf>, b: seq<SumBuf>, offset: nat, i: int)
    requires offset <= |job.file| && SameBlocks(a, b) && -1 <= i
    ensures NoHitAbove(job, a, i, offset) == NoHitAbove(job, b, i, offset)
    ensures 0 <= i < |a| ==> Hit(job, a[i], offset) == Hit(job, b[i], offset)
  {
    forall j | 0 <= j < |a| ensures Hit(job, a[j], offset) == Hit(job, b[j], offset) {
      assert a[j].(chain := 0) == b[j].(chain := 0);
    }
  }

  /** Point the link we came along (the table slot, or a block) past block i. */
  method Unlink(sums: array<SumBuf>, table: array<int>, h: nat, prev: int, i: nat, offset: nat, updating: bool)
    requires ChainsOk(sums[..], table[..], offset, updating)
    requires h < table.Length && i < sums.Length && !Usable(sums[i], offset, updating)
    requires if prev < 0 then table[h] == i else prev < sums.Length && sums[prev].chain == i
    modifies sums, table
    ensures SameBlocks(old(sums[..]), sums[..])
    ensures ChainsOk(sums[..], table[..], offset, updating)
    ensures (if prev < 0 then table[h] else sums[prev].chain) == old(sums[i].chain) == sums[i].chain
  {
    if prev < 0 {
      UnlinkHead(sums[..], table[..], h, offset, updating);
      ghost var want := table[..][h := sums[i].chain];
      table[h] := sums[i].chain;
      assert table[..] == want;
    } else {
      assert LinkOk(sums[..], table.Length, sums[prev].chain, prev, Hash(sums[prev].sum1, table.Length), offset, updating);
      UnlinkNext(sums[..], table[..], prev, offset, updating);
      ghost var want := sums[..][prev := sums[prev].(chain := sums[i].chain)];
      sums[prev] := sums[prev].(chain := sums[i].chain);
      assert sums[..] == want;
    }
  }

  /** The link we came along is one of the good links. */
  lemma LinkIn(sums: seq<SumBuf>, table: seq<int>, h: nat, prev: int, offset: nat, updating: bool)
    requires ChainsOk(sums, table, offset, updating) && h < |table| && prev < |sums|
    requires prev >= 0 ==> Hash(sums[prev].sum1, |table|) == h
    ensures var v := if prev < 0 then table[h] else sums[prev].chain;
            LinkOk(sums, |table|, v, if prev < 0 then |sums| else prev, h, offset, updating)
  {
    if prev < 0 {
      assert LinkOk(sums, |table|, table[h], |sums|, h, offset, updating);
    } else {
      assert LinkOk(sums, |table|, sums[prev].chain, prev, h, offset, updating);
    }
  }

  /** Blocks a link jumps over are no hits either. */
  lemma NoHitInGap(job: Job, sums: seq<SumBuf>, size: nat, v: int, i: nat, offset: nat)
    requires offset <= |job.file| && size > 0 && i < |sums|
    requires LinkOk(sums, size, v, i, Hash(WeakSum(job.W(offset)), size), offset, job.updating)
    requires NoHitAbove(job, sums, i, offset) && !Hit(job, sums[i], offset)
    ensures NoHitAbove(job, sums, v, offset)
  {
    forall j | v < j < |sums| ensures !Hit(job, sums[j], offset) {
      if j < i && Candidate(job, sums[j], offset) {
        assert Hash(sums[j].sum1, size) == Hash(WeakSum(job.W(offset)), size);
      }
    }
  }

  /** One step of the walk, at block i reached along prev: unlink it, or test it. */
  method VisitBlock(job: Job, sums: array<SumBuf>, table: array<int>, offset: nat, h: nat, prev: int, i: nat)
    returns (found: bool, prev': int, next: int)
    requires offset <= |job.file| && table.Length > 0 && h == Hash(WeakSum(job.W(offset)), table.Length)
    requires ChainsOk(sums[..], table[..], offset, job.updating) && h < table.Length
    requires i < sums.Length && NoHitAbove(job, sums[..], i, offset)
    requires prev < 0 || i < prev < sums.Length
    requires i == if prev < 0 then table[h] else sums[prev].chain
    requires prev >= 0 ==> Hash(sums[prev].sum1, table.Length) == h
    modifies sums, table
    ensures SameBlocks(old(sums[..]), sums[..])
    ensures ChainsOk(sums[..], table[..], offset, job.updating)
    ensures found == Hit(job, sums[i], offset)
    ensures !found ==>
              && -1 <= next < i && NoHitAbove(job, sums[..], next, offset)
              && (prev' == prev || prev' == i) && next == (if prev' < 0 then table[h] else sums[prev'].chain)
              && (prev' >= 0 ==> Hash(sums[prev'].sum1, table.Length) == h)
  {
    ghost var s := sums[..];
    LinkIn(s, table[..], h, prev, offset, job.updating);
    LinkIn(s, table[..], h, i, offset, job.updating);
    prev', next, found := prev, sums[i].chain, false;
    if job.updating && sums[i].offset < offset && !sums[i].sameOffset {
      NoHitInGap(job, s, table.Length, next, i, offset);
      Unlink(sums, table, h, prev, i, offset, job.updating);
      HitFrame(job, s, sums[..], offset, next);
      HitFrame(job, s, sums[..], offset, i);
      if prev >= 0 {
        assert s[prev].(chain := 0) == sums[..][prev].(chain := 0);
      }
    } else {
      prev' := i;
      found := sums[i].sum1 == WeakSum(job.W(offset)) && sums[i].len == job.L(offset)
               && sums[i].sum2 == job.D(job.W(offset));
      if !found {
        NoHitInGap(job, s, table.Length, next, i, offset);
      }
    }
  }

  /** Walk the chain of the window's hash.  It stops at the same block a linear
      scan over the still-usable blocks would pick, and finds none only if the
      scan finds none; what it unlinks on the way can never be used again. */
  method WalkChain(job: Job, sums: array<SumBuf>, table: array<int>, offset: nat, sum: nat) returns (i: int)
    requires offset <= |job.file| && sum == WeakSum(job.W(offset))
    requires ChainsOk(sums[..], table[..], offset, job.updating)
    modifies sums, table
    ensures SameBlocks(old(sums[..]), sums[..])
    ensures ChainsOk(sums[..], table[..], offset, job.updating)
    ensures IsLastHit(job, sums[..], offset, i)
    ensures i >= 0 ==> Candidate(job, sums[i], offset) && !(job.updating && sums[i].offset < offset && !sums[i].sameOffset)
    ensures forall j :: i < j < sums.Length && Candidate(job, sums[j], offset) ==>
              job.updating && sums[j].offset < offset && !sums[j].sameOffset
  {
    i := FollowChain(job, sums, table, offset, sum);
    assert forall j :: i < j < sums.Length ==> !Hit(job, sums[..][j], offset);
  }

  /** The walk itself. */
  method FollowChain(job: Job, sums: array<SumBuf>, table: array<int>, offset: nat, sum: nat) returns (i: int)
    requires offset <= |job.file| && sum == WeakSum(job.W(offset))
    requires ChainsOk(sums[..], table[..], offset, job.updating)
    modifies sums, table
    ensures SameBlocks(old(sums[..]), sums[..])
    ensures ChainsOk(sums[..], table[..], offset, job.updating)
    ensures IsLastHit(job, sums[..], offset, i)
  {
    var h := Hash(sum, table.Length);
    LinkIn(sums[..], table[..], h, -1, offset, job.updating);
    i := table[h];
    var prev := -1;
    assert NoHitAbove(job, sums[..], i, offset) by {
      forall j | i < j < sums.Length ensures !Hit(job, sums[..][j], offset) {
        assert Candidate(job, sums[..][j], offset) ==> Hash(sums[..][j].sum1, table.Length) == h;
      }
    }
    while i >= 0
      invariant -1 <= i < sums.Length && (prev < 0 || i < prev < sums.Length)
      invariant i == if prev < 0 then table[h] else sums[prev].chain
      invariant prev >= 0 ==> Hash(sums[prev].sum1, table.Length) == h
      invariant SameBlocks(old(sums[..]), sums[..])
      invariant ChainsOk(sums[..], table[..], offset, job.updating)
      invariant NoHitAbove(job, sums[..], i, offset)
      decreases i
    {
      ghost var s := sums[..];
      var found, prev', next := VisitBlock(job, sums, table, offset, h, prev, i);
      SameTrans(old(sums[..]), s, sums[..]);
      if found {
        HitFrame(job, s, sums[..], offset, i);
        break;
      }
      prev, i := prev', next;
    }
  }

  lemma SameTrans(a: seq<SumBuf>, b: seq<SumBuf>, c: seq<SumBuf>)
    requires SameBlocks(a, b) && SameBlocks(b, c)
    ensures SameBlocks(a, c)
  {
    forall i | 0 <= i < |a| ensures a[i].(chain := 0) == c[i].(chain := 0) {
      assert a[i].(chain := 0) == b[i].(chain := 0) && b[i].(chain := 0) == c[i].(chain := 0);
    }
  }

  // ----- hash_search: which block to send -----

  /** The index of the first block boundary at or past offset. */
  function AlignIndex(offset: nat, blength: nat): nat
    requires blength > 0
  {
    (offset + blength - 1) / blength
  }

  lemma AlignIndexIs(offset: nat, blength: nat)
    requires blength > 0
    ensures offset <= AlignIndex(offset, blength) * blength < offset + blength
  {
    var n := offset + blength - 1;
    assert n == n / blength * blength + n % blength;
  }

  /** Where the search stands when it reaches check_want_i. */
  datatype Probe = Probe(offset: nat, block: nat, sum: nat, sum2: bytes, flagged: bool)

  /** The in-place preference for the block that sits at the same offset,
      including the forward re-alignment of blocks with weak sum 0. */
  function Realign(job: Job, sums: seq<SumBuf>, offset: nat, i: nat): Probe
    requires offset <= |job.file| && job.g.blength > 0 && i < |sums|
  {
    var w := job.W(offset);
    var (sum, sum2, l) := (WeakSum(w), job.D(w), job.L(offset));
    var ai := AlignIndex(offset, job.g.blength);
    var ao := ai * job.g.blength;
    var plain := Probe(offset, i, sum, sum2, false);
    if !job.updating then plain
    else if !((offset == ao || (sum == 0 && l == job.g.blength && ao + l <= |job.file|)) && ai < |sums|) then plain
    else if i != ai && !(sum == sums[ai].sum1 && l == sums[ai].len && sum2 == sums[ai].sum2) then plain
    else if offset == ao then Probe(offset, ai, sum, sum2, true)
    else
      var w' := Window(job.file, ao, l);
      if WeakSum(w') != sums[ai].sum1 then Probe(offset, ai, WeakSum(w'), sum2, false)
      else if job.D(w') != sums[ai].sum2 then Probe(offset, ai, WeakSum(w'), job.D(w'), false)
      else Probe(ao, ai, WeakSum(w'), job.D(w'), true)
  }

  datatype Choice = Choice(offset: nat, block: nat, flagged: bool)

  /** The whole decision: re-align, then prefer the block after the last match. */
  function Choose(job: Job, sums: seq<SumBuf>, wantI: nat, offset: nat, i: nat): Choice
    requires offset <= |job.file| && job.g.blength > 0 && i < |sums|
  {
    var p := Realign(job, sums, offset, i);
    var want := if p.flagged then p.block else wantI;
    if p.block != want && want < |sums| && Usable(sums[want], p.offset, job.updating)
       && p.sum == sums[want].sum1 && p.sum2 == sums[want].sum2
    then Choice(p.offset, want, p.flagged)
    else Choice(p.offset, p.block, p.flagged)
  }

  /** Whatever the sums say, the chosen block is usable at the chosen offset,
      and a flagged one sits at its own offset. */
  lemma ChooseSafe(job: Job, sums: seq<SumBuf>, wantI: nat, offset: nat, i: nat)
    requires offset <= |job.file| && job.g.blength > 0 && i < |sums| && Hit(job, sums[i], offset)
    requires forall j :: 0 <= j < |sums| ==> sums[j].offset == job.g.Offset(j)
    ensures var c := Choose(job, sums, wantI, offset, i);
            && c.block < |sums| && offset <= c.offset <= |job.file| && Usable(sums[c.block], c.offset, job.updating)
            && (c.flagged ==> c.offset == sums[c.block].offset)
            && (c.offset != offset ==>
                  && job.updating && c.offset < offset + job.g.blength <= |job.file|
                  && WeakSum(Window(job.file, offset, job.g.blength)) == 0)
  {
    AlignIndexIs(offset, job.g.blength);
  }

  /** The re-alignment branch is entered: the window here has weak sum 0 and is
      the block at the next boundary, where the file goes on for a whole block. */
  predicate Realigning(job: Job, sums: seq<SumBuf>, offset: nat)
    requires offset <= |job.file| && job.g.blength > 0
  {
    var l := job.g.blength;
    var ai := AlignIndex(offset, l);
    && job.updating && offset != ai * l && ai * l + l <= |job.file| && job.L(offset) == l && ai < |sums|
    && WeakSum(job.W(offset)) == 0 && Candidate(job, sums[ai], offset)
  }

  /** The block wanted next has the sums of the window here, and may be used. */
  predicate WantedFits(job: Job, sums: seq<SumBuf>, wantI: nat, offset: nat)
    requires offset <= |job.file|
  {
    && wantI < |sums| && (job.updating ==> sums[wantI].offset >= offset || sums[wantI].sameOffset)
    && sums[wantI].sum1 == WeakSum(job.W(offset)) && sums[wantI].sum2 == job.D(job.W(offset))
  }

  /** What is preferred to the block that was found: in place, the block whose
      own offset this is, flagged; then the block ahead, if the window moved to
      it still has its sums; and then the block after the last one matched. */
  lemma ChoosePrefers(job: Job, sums: seq<SumBuf>, wantI: nat, offset: nat, i: nat)
    requires offset <= |job.file| && job.g.blength > 0 && i < |sums| && Hit(job, sums[i], offset)
    ensures var (c, l, ai) := (Choose(job, sums, wantI, offset, i), job.g.blength, AlignIndex(offset, job.g.blength));
      var own := job.updating && offset == ai * l && ai < |sums| && Candidate(job, sums[ai], offset);
      && (own ==> c == Choice(offset, ai, true))
      && (!own && !Realigning(job, sums, offset) ==>
            c == Choice(offset, if WantedFits(job, sums, wantI, offset) then wantI else i, false))
      && (Realigning(job, sums, offset) ==>
            var ahead := Window(job.file, ai * l, l);
            if sums[ai].sum1 == WeakSum(ahead) && sums[ai].sum2 == job.D(ahead) then c == Choice(ai * l, ai, true)
            else c == Choice(offset, ai, false) || (c == Choice(offset, wantI, false) && wantI < |sums|))
  {
    AlignIndexIs(offset, job.g.blength);
  }

  /** The window as long as the block, here, has the block's sums. */
  predicate OwnSums(job: Job, s: SumBuf, offset: nat) {
    && offset + s.len <= |job.file|
    && s.sum1 == WeakSum(Window(job.file, offset, s.len)) && s.sum2 == job.D(Window(job.file, offset, s.len))
  }

  /** The wrong turns.  Back from the re-alignment, the wanted block is compared
      with sums that are not those of the window here: with both of the window
      ahead, if only its strong sum told it from the block; or with the weak sum
      of the one ahead and the strong sum of the one here. */
  predicate Misfire(job: Job, sums: seq<SumBuf>, wantI: nat, offset: nat)
    requires offset <= |job.file| && job.g.blength > 0
  {
    && Realigning(job, sums, offset)
    && var (l, ai) := (job.g.blength, AlignIndex(offset, job.g.blength));
    && var ahead := Window(job.file, ai * l, l);
    && wantI < |sums| && wantI != ai && Usable(sums[wantI], offset, true)
    && sums[wantI].sum1 == WeakSum(ahead)
    && if WeakSum(ahead) == 0 then job.D(ahead) != sums[ai].sum2 && sums[wantI].sum2 == job.D(ahead)
       else sums[wantI].sum2 == job.D(job.W(offset)) && !OwnSums(job, sums[wantI], offset)
  }

  /** The chosen block holds the bytes found at the chosen offset. */
  predicate RightBytes(job: Job, basis: bytes, c: Choice)
    requires job.g.Valid() && |basis| == job.g.Flength() && c.block < job.g.count
  {
    && c.offset + job.g.Len(c.block) <= |job.file|
    && Window(job.file, c.offset, job.g.Len(c.block)) == Block(basis, job.g, c.block)
  }

  /** Not updating in place: two equal sums are enough. */
  lemma ChooseRight(job: Job, basis: bytes, sums: seq<SumBuf>, wantI: nat, offset: nat, i: nat)
    requires job.g.Valid() && |basis| == job.g.Flength() && SumsOf(sums, basis, job.g, job.strong, job.s2length)
    requires offset <= |job.file| && i < |sums| && Hit(job, sums[i], offset)
    requires !job.updating && NoCollision(job.file, basis, job.g, job.strong, job.s2length)
    ensures RightBytes(job, basis, Choose(job, sums, wantI, offset, i))
  {
    var c := Choose(job, sums, wantI, offset, i);
    assert job.W(offset) == Block(basis, job.g, c.block);
  }

  /** Updating in place, two equal sums are enough exactly when the choice is
      none of the wrong turns. */
  lemma ChooseRightInPlace(job: Job, basis: bytes, sums: seq<SumBuf>, wantI: nat, offset: nat, i: nat)
    requires job.g.Valid() && |basis| == job.g.Flength() && SumsOf(sums, basis, job.g, job.strong, job.s2length)
    requires offset <= |job.file| && i < |sums| && Hit(job, sums[i], offset)
    requires job.updating && NoCollision(job.file, basis, job.g, job.strong, job.s2length)
    ensures RightBytes(job, basis, Choose(job, sums, wantI, offset, i)) <==> !Misfire(job, sums, wantI, offset)
  {
    assert job.W(offset) == Block(basis, job.g, i);
    var ai := AlignIndex(offset, job.g.blength);
    if Realign(job, sums, offset, i) == Probe(offset, i, WeakSum(job.W(offset)), job.D(job.W(offset)), false) {
      var c := Choose(job, sums, wantI, offset, i);
      assert job.W(offset) == Block(basis, job.g, c.block);
    } else {
      assert job.W(offset) == Block(basis, job.g, ai);
      if offset != ai * job.g.blength {
        ChooseAhead(job, basis, sums, wantI, offset, i);
      }
    }
  }

  /** In the re-alignment branch the window at the aligned offset is compared. */
  lemma ChooseAhead(job: Job, basis: bytes, sums: seq<SumBuf>, wantI: nat, offset: nat, i: nat)
    requires job.g.Valid() && |basis| == job.g.Flength() && SumsOf(sums, basis, job.g, job.strong, job.s2length)
    requires offset <= |job.file| && i < |sums| && job.g.blength > 0 && Realigning(job, sums, offset)
    requires NoCollision(job.file, basis, job.g, job.strong, job.s2length)
    requires job.W(offset) == Block(basis, job.g, AlignIndex(offset, job.g.blength))
    ensures RightBytes(job, basis, Choose(job, sums, wantI, offset, i)) <==> !Misfire(job, sums, wantI, offset)
  {
    var l, ai := job.g.blength, AlignIndex(offset, job.g.blength);
    var w, ahead := job.W(offset), Window(job.file, ai * l, l);
    var c := Choose(job, sums, wantI, offset, i);
    if WeakSum(ahead) != 0 {
      if c.block != ai { OwnSumsRight(job, basis, sums, wantI, offset); }
    } else if job.D(ahead) != sums[ai].sum2 {
      if c.block != ai {
        assert ahead == Block(basis, job.g, wantI);
        assert |ahead| == |w| == job.g.Len(wantI);
      }
    } else {
      assert ahead == Block(basis, job.g, ai);
    }
  }

  /** A block with the sums of the window of its own length is that window. */
  lemma OwnSumsRight(job: Job, basis: bytes, sums: seq<SumBuf>, b: nat, offset: nat)
    requires job.g.Valid() && |basis| == job.g.Flength() && SumsOf(sums, basis, job.g, job.strong, job.s2length)
    requires b < |sums| && NoCollision(job.file, basis, job.g, job.strong, job.s2length)
    ensures OwnSums(job, sums[b], offset) <==> RightBytes(job, basis, Choice(offset, b, false))
  {
  }

  // ----- matched: sending, and feeding the whole-file sum -----

  /** Block j has the weak sum of what is at q, its digest agrees in the first
      s2length bytes, and it is as long: a full block, or what is left. */
  predicate BlockMatches(job: Job, basis: bytes, j: nat, q: nat)
    requires job.g.Valid() && |basis| == job.g.Flength() && j < job.g.count && q <= |job.file|
  {
    var l := Min(job.g.blength, |job.file| - q);
    && job.g.Len(j) == l && WeakSum(Block(basis, job.g, j)) == WeakSum(Window(job.file, q, l))
    && AgreeFirst(job.strong(Block(basis, job.g, j)), job.strong(Window(job.file, q, l)), job.s2length)
  }

  lemma MatchIsCandidate(job: Job, basis: bytes, sums: seq<SumBuf>, j: nat, q: nat)
    requires job.g.Valid() && |basis| == job.g.Flength() && SumsOf(sums, basis, job.g, job.strong, job.s2length)
    requires j < job.g.count && q <= |job.file|
    ensures BlockMatches(job, basis, j, q) <==> Candidate(job, sums[j], q)
  {
    Sum2Equal(job.strong, job.s2length, Block(basis, job.g, j), job.W(q));
  }

  /** What every token the sender emits satisfies at its output position. */
  predicate TokenOk(job: Job, basis: bytes, t: Token, p: nat)
    requires job.g.Valid() && |basis| == job.g.Flength()
  {
    && p + TokenLen(job.g, t) <= |job.file|
    && match t {
         case Literal(d) =>
           0 < |d| <= CHUNK_SIZE && d == Window(job.file, p, |d|)
         case Match(b) =>
           b < job.g.count
       }
  }

  predicate AllOk(job: Job, basis: bytes, ts: seq<Token>)
    requires job.g.Valid() && |basis| == job.g.Flength()
  {
    forall k {:trigger Start(job.g, ts, k)} :: 0 <= k < |ts| ==> TokenOk(job, basis, ts[k], Start(job.g, ts, k))
  }

  lemma AllOkSnoc(job: Job, basis: bytes, ts: seq<Token>, t: Token)
    requires job.g.Valid() && |basis| == job.g.Flength()
    requires AllOk(job, basis, ts) && TokenOk(job, basis, t, OutLen(job.g, ts))
    ensures AllOk(job, basis, ts + [t])
  {
    var us := ts + [t];
    forall k | 0 <= k < |us| ensures TokenOk(job, basis, us[k], Start(job.g, us, k)) {
      StartSnoc(job.g, ts, t, k);
      assert ts[..|ts|] == ts;
    }
  }

  /** In place, block b may be sent at this output position. */
  predicate MayMatch(g: Geometry, ts: seq<Token>, at: nat, b: nat) {
    g.Offset(b) >= at || SkippedBefore(g, ts, |ts|, b)
  }

  lemma MayMatchStill(g: Geometry, ts: seq<Token>, us: seq<Token>, at: nat, b: nat)
    requires MayMatch(g, ts, at, b) && ts <= us
    ensures MayMatch(g, us, at, b) == true
  {
    if SkippedBefore(g, ts, |ts|, b) { SkippedExtend(g, ts, us, b); }
  }

  /** Nothing flagged was ever left out of the stream. */
  predicate FlagsSkipped(g: Geometry, sums: seq<SumBuf>, ts: seq<Token>) {
    forall j :: 0 <= j < |sums| && sums[j].sameOffset ==> SkippedBefore(g, ts, |ts|, j)
  }

  lemma SkippedExtend(g: Geometry, ts: seq<Token>, us: seq<Token>, b: nat)
    requires ts <= us && SkippedBefore(g, ts, |ts|, b)
    ensures SkippedBefore(g, us, |us|, b)
  {
    var m :| 0 <= m < |ts| && ts[m] == Match(b) && Start(g, ts, m) == g.Offset(b);
    assert us[..m] == ts[..m] && us[m] == Match(b) && Start(g, us, m) == g.Offset(b);
  }

  lemma FlagsExtend(g: Geometry, sums: seq<SumBuf>, ts: seq<Token>, us: seq<Token>)
    requires FlagsSkipped(g, sums, ts) && ts <= us
    ensures FlagsSkipped(g, sums, us)
  {
    forall j | 0 <= j < |sums| && sums[j].sameOffset ensures SkippedBefore(g, us, |us|, j) {
      SkippedExtend(g, ts, us, j);
    }
  }

  /** A block flagged and then sent at its own offset was skipped over. */
  lemma FlagsAfter(g: Geometry, s: seq<SumBuf>, s': seq<SumBuf>, c: Choice, ts: seq<Token>, us: seq<Token>)
    requires FlagsSkipped(g, s, ts) && ts <= us && |s'| == |s|
    requires forall j :: 0 <= j < |s| && !(c.flagged && j == c.block) ==> s'[j].sameOffset == s[j].sameOffset
    requires |us| > 0 && us[|us| - 1] == Match(c.block) && Start(g, us, |us| - 1) == c.offset
    requires c.flagged ==> c.offset == g.Offset(c.block)
    ensures FlagsSkipped(g, s', us)
  {
    FlagsExtend(g, s, ts, us);
    assert c.flagged ==> SkippedBefore(g, us, |us|, c.block);
  }

  /** No table of this basis's sums, however flagged, takes a wrong turn. */
  ghost predicate NoMisfire(job: Job, basis: bytes)
    requires job.g.Valid() && |basis| == job.g.Flength()
  {
    forall sums: seq<SumBuf>, wantI: nat, offset: nat ::
      offset <= |job.file| && job.g.blength > 0 && SumsOf(sums, basis, job.g, job.strong, job.s2length)
      ==> !Misfire(job, sums, wantI, offset)
  }

  /** When equal sums are known to mean equal bytes in this run. */
  ghost predicate Trusted(job: Job, basis: bytes)
    requires job.g.Valid() && |basis| == job.g.Flength()
  {
    NoCollision(job.file, basis, job.g, job.strong, job.s2length) && (job.updating ==> NoMisfire(job, basis))
  }

  /** A simple case without wrong turns: windows and blocks with weak sum 0 are
      all alike, and the strong sum keeps them apart from other blocks. */
  lemma TrustedWhen(job: Job, basis: bytes)
    requires job.g.Valid() && |basis| == job.g.Flength()
    requires NoCollision(job.file, basis, job.g, job.strong, job.s2length) && ZeroSumUnique(job.file, basis, job.g)
    requires ZeroSumApart(job.file, basis, job.g, job.strong, job.s2length)
    ensures Trusted(job, basis)
  {
    forall sums: seq<SumBuf>, wantI: nat, offset: nat |
      offset <= |job.file| && job.g.blength > 0 && SumsOf(sums, basis, job.g, job.strong, job.s2length)
      ensures !Misfire(job, sums, wantI, offset)
    {
      NeverMisfires(job, basis, sums, wantI, offset);
    }
  }

  lemma NeverMisfires(job: Job, basis: bytes, sums: seq<SumBuf>, wantI: nat, offset: nat)
    requires job.g.Valid() && |basis| == job.g.Flength() && offset <= |job.file| && job.g.blength > 0
    requires SumsOf(sums, basis, job.g, job.strong, job.s2length)
    requires ZeroSumUnique(job.file, basis, job.g) && ZeroSumApart(job.file, basis, job.g, job.strong, job.s2length)
    ensures !Misfire(job, sums, wantI, offset)
  {
    if Realigning(job, sums, offset) {
      var l, ai := job.g.blength, AlignIndex(offset, job.g.blength);
      var ahead := Window(job.file, ai * l, l);
      if WeakSum(ahead) == 0 {
        assert WeakSum(Block(basis, job.g, ai)) == 0;
        assert ahead == Block(basis, job.g, ai);
      } else if wantI < |sums| {
        assert job.W(offset) == Window(job.file, offset, l);
      }
    }
  }

  /** When two equal sums are enough, a choice is right exactly when it is none
      of the wrong turns, which are only taken in place. */
  lemma ChooseExact(job: Job, basis: bytes, sums: seq<SumBuf>, wantI: nat, offset: nat, i: nat)
    requires job.g.Valid() && |basis| == job.g.Flength() && SumsOf(sums, basis, job.g, job.strong, job.s2length)
    requires offset <= |job.file| && i < |sums| && Hit(job, sums[i], offset)
    requires NoCollision(job.file, basis, job.g, job.strong, job.s2length)
    ensures RightBytes(job, basis, Choose(job, sums, wantI, offset, i)) <==> !Misfire(job, sums, wantI, offset)
  {
    if job.updating {
      ChooseRightInPlace(job, basis, sums, wantI, offset, i);
    } else {
      ChooseRight(job, basis, sums, wantI, offset, i);
    }
  }

  // ----- what a whole run sends -----

  /** A match in the stream: where it stands in the output. */
  datatype Place = Place(at: nat, block: nat)

  function Places(g: Geometry, ts: seq<Token>): seq<Place> {
    if ts == [] then []
    else
      var (init, t) := (ts[..|ts| - 1], ts[|ts| - 1]);
      if t.Match? then Places(g, init) + [Place(OutLen(g, init), t.block)] else Places(g, init)
  }

  lemma PlacesSnoc(g: Geometry, ts: seq<Token>, t: Token)
    ensures Places(g, ts + [t]) == if t.Match? then Places(g, ts) + [Place(OutLen(g, ts), t.block)] else Places(g, ts)
  {
    assert (ts + [t])[..|ts|] == ts;
  }

  predicate RightPlace(job: Job, basis: bytes, p: Place)
    requires job.g.Valid() && |basis| == job.g.Flength()
  {
    Faithful(job.file, basis, job.g, Match(p.block), p.at)
  }

  /** Literals are right as they are; so all is right if all matches are. */
  lemma {:induction false} MatchesDecide(job: Job, basis: bytes, ts: seq<Token>)
    requires job.g.Valid() && |basis| == job.g.Flength() && AllOk(job, basis, ts)
    ensures AllFaithful(job.file, basis, job.g, ts) <==> AllRight(job, basis, Places(job.g, ts))
    decreases |ts|
  {
    if ts != [] {
      var (init, t) := (ts[..|ts| - 1], ts[|ts| - 1]);
      assert ts == init + [t];
      AllOkInit(job, basis, init, t);
      MatchesDecide(job, basis, init);
      OneMorePlace(job, basis, init, t);
      FaithfulSnoc(job.file, basis, job.g, init, t);
    }
  }

  predicate AllRight(job: Job, basis: bytes, ps: seq<Place>)
    requires job.g.Valid() && |basis| == job.g.Flength()
  {
    forall p <- ps :: RightPlace(job, basis, p)
  }

  lemma OneMorePlace(job: Job, basis: bytes, ts: seq<Token>, t: Token)
    requires job.g.Valid() && |basis| == job.g.Flength() && TokenOk(job, basis, t, OutLen(job.g, ts))
    ensures AllRight(job, basis, Places(job.g, ts + [t]))
       <==> AllRight(job, basis, Places(job.g, ts)) && Faithful(job.file, basis, job.g, t, OutLen(job.g, ts))
  {
    PlacesSnoc(job.g, ts, t);
    if t.Match? {
      var p := Place(OutLen(job.g, ts), t.block);
      assert Faithful(job.file, basis, job.g, t, OutLen(job.g, ts)) <==> RightPlace(job, basis, p);
      RightSnoc(job, basis, Places(job.g, ts), p);
    }
  }

  lemma RightSnoc(job: Job, basis: bytes, ps: seq<Place>, p: Place)
    requires job.g.Valid() && |basis| == job.g.Flength()
    ensures AllRight(job, basis, ps + [p]) <==> AllRight(job, basis, ps) && RightPlace(job, basis, p)
  {
    if AllRight(job, basis, ps + [p]) {
      assert forall q <- ps :: q in ps + [p];
      assert p in ps + [p];
    }
  }

  lemma AllOkInit(job: Job, basis: bytes, ts: seq<Token>, t: Token)
    requires job.g.Valid() && |basis| == job.g.Flength() && AllOk(job, basis, ts + [t])
    ensures AllOk(job, basis, ts) && TokenOk(job, basis, t, OutLen(job.g, ts))
  {
    var us := ts + [t];
    forall k | 0 <= k < |ts| ensures TokenOk(job, basis, ts[k], Start(job.g, ts, k)) {
      assert TokenOk(job, basis, us[k], Start(job.g, us, k));
      StartSnoc(job.g, ts, t, k);
    }
    assert TokenOk(job, basis, us[|ts|], Start(job.g, us, |ts|));
    assert us[..|ts|] == ts;
  }

  /** A stream that covers the file replays to it if and only if every match
      has the right bytes at its place. */
  lemma OkReplays(job: Job, basis: bytes, ts: seq<Token>)
    requires job.g.Valid() && |basis| == job.g.Flength()
    requires AllOk(job, basis, ts) && OutLen(job.g, ts) == |job.file|
    ensures WellFormed(job.g, ts)
    ensures Replay(basis, job.g, ts) == job.file <==> AllRight(job, basis, Places(job.g, ts))
  {
    forall k | 0 <= k < |ts| ensures ts[k].Match? ==> ts[k].block < job.g.count {
      assert TokenOk(job, basis, ts[k], Start(job.g, ts, k));
    }
    MatchesDecide(job, basis, ts);
    assert job.file[..|job.file|] == job.file;
    if AllFaithful(job.file, basis, job.g, ts) {
      ReplayFaithful(job.file, basis, job.g, ts);
    }
    if Replay(basis, job.g, ts) == job.file {
      ReplayOnlyFaithful(job.file, basis, job.g, ts);
    }
  }

  /** One choice of a run: the block sums as they were, the block wanted, where
      the search stood, the block it had found, and what was chosen. */
  datatype Pick = Pick(sums: seq<SumBuf>, wantI: nat, offset: nat, hit: nat, choice: Choice)

  /** The blocks flagged by the choices so far, and the block wanted next. */
  function Flagged(picks: seq<Pick>): set<nat> {
    if picks == [] then {}
    else
      var c := picks[|picks| - 1].choice;
      Flagged(picks[..|picks| - 1]) + if c.flagged then {c.block} else {}
  }

  function Wanted(picks: seq<Pick>): nat {
    if picks == [] then 0 else picks[|picks| - 1].choice.block + 1
  }

  predicate FlagsAre(sums: seq<SumBuf>, flagged: set<nat>) {
    forall j :: 0 <= j < |sums| ==> (sums[j].sameOffset <==> j in flagged)
  }

  /** The choice is the one hash_search makes in that situation. */
  predicate PickOk(job: Job, basis: bytes, p: Pick)
    requires job.g.Valid() && |basis| == job.g.Flength()
  {
    && p.offset < |job.file| && SumsOf(p.sums, basis, job.g, job.strong, job.s2length)
    && p.hit < |p.sums| && IsLastHit(job, p.sums, p.offset, p.hit) && job.g.blength > 0
    && p.choice == Choose(job, p.sums, p.wantI, p.offset, p.hit)
  }

  /** Choices made one after another: flags and block wanted are those that the
      choices before left. */
  predicate PicksOk(job: Job, basis: bytes, picks: seq<Pick>)
    requires job.g.Valid() && |basis| == job.g.Flength()
    decreases |picks|
  {
    picks == [] ||
    var (init, p) := (picks[..|picks| - 1], picks[|picks| - 1]);
    && PicksOk(job, basis, init) && PickOk(job, basis, p)
    && p.wantI == Wanted(init) && FlagsAre(p.sums, Flagged(init))
  }

  function PickPlaces(picks: seq<Pick>): seq<Place> {
    if picks == [] then []
    else
      var c := picks[|picks| - 1].choice;
      PickPlaces(picks[..|picks| - 1]) + [Place(c.offset, c.block)]
  }

  lemma PicksSnoc(job: Job, basis: bytes, picks: seq<Pick>, p: Pick)
    requires job.g.Valid() && |basis| == job.g.Flength() && PicksOk(job, basis, picks) && PickOk(job, basis, p)
    requires p.wantI == Wanted(picks) && FlagsAre(p.sums, Flagged(picks))
    ensures PicksOk(job, basis, picks + [p]) && Wanted(picks + [p]) == p.choice.block + 1
    ensures PickPlaces(picks + [p]) == PickPlaces(picks) + [Place(p.choice.offset, p.choice.block)]
    ensures Flagged(picks + [p]) == Flagged(picks) + if p.choice.flagged then {p.choice.block} else {}
  {
    assert (picks + [p])[..|picks|] == picks;
  }

  /** The choice was one of the wrong turns. */
  predicate Misfired(job: Job, p: Pick) {
    p.offset <= |job.file| && job.g.blength > 0 && Misfire(job, p.sums, p.wantI, p.offset)
  }

  predicate NoneMisfired(job: Job, picks: seq<Pick>) { forall p <- picks :: !Misfired(job, p) }

  lemma PickExact(job: Job, basis: bytes, p: Pick)
    requires job.g.Valid() && |basis| == job.g.Flength() && PickOk(job, basis, p)
    requires NoCollision(job.file, basis, job.g, job.strong, job.s2length)
    ensures p.choice.block < job.g.count && Exact(job, basis, p)
    ensures RightBytes(job, basis, p.choice) <==> !Misfired(job, p)
  {
    ChooseExact(job, basis, p.sums, p.wantI, p.offset, p.hit);
  }

  /** Whether the choice is right is known from the situation. */
  predicate Exact(job: Job, basis: bytes, p: Pick)
    requires job.g.Valid() && |basis| == job.g.Flength()
  {
    RightPlace(job, basis, Place(p.choice.offset, p.choice.block)) <==> !Misfired(job, p)
  }

  lemma {:induction false} ThatPickOk(job: Job, basis: bytes, picks: seq<Pick>, p: Pick)
    requires job.g.Valid() && |basis| == job.g.Flength() && PicksOk(job, basis, picks) && p in picks
    ensures PickOk(job, basis, p) == true
    decreases |picks|
  {
    var init := picks[..|picks| - 1];
    assert picks == init + [picks[|picks| - 1]];
    if p in init { ThatPickOk(job, basis, init, p); }
  }

  lemma EachPickOk(job: Job, basis: bytes, picks: seq<Pick>)
    requires job.g.Valid() && |basis| == job.g.Flength() && PicksOk(job, basis, picks)
    ensures forall p <- picks :: PickOk(job, basis, p) == true
  {
    forall p <- picks ensures PickOk(job, basis, p) == true { ThatPickOk(job, basis, picks, p); }
  }

  lemma EachExact(job: Job, basis: bytes, picks: seq<Pick>)
    requires job.g.Valid() && |basis| == job.g.Flength() && PicksOk(job, basis, picks)
    requires NoCollision(job.file, basis, job.g, job.strong, job.s2length)
    ensures forall p <- picks :: Exact(job, basis, p)
  {
    EachPickOk(job, basis, picks);
    forall p <- picks ensures Exact(job, basis, p) {
      PickExact(job, basis, p);
    }
  }

  lemma NoneSnoc(job: Job, picks: seq<Pick>, p: Pick)
    ensures NoneMisfired(job, picks + [p]) <==> NoneMisfired(job, picks) && !Misfired(job, p)
  {
    if NoneMisfired(job, picks + [p]) {
      assert forall q <- picks :: q in picks + [p];
      assert p in picks + [p];
    }
  }

  /** All places are right exactly when no choice was a wrong turn. */
  lemma {:induction false} PicksExact(job: Job, basis: bytes, picks: seq<Pick>)
    requires job.g.Valid() && |basis| == job.g.Flength() && forall p <- picks :: Exact(job, basis, p)
    ensures AllRight(job, basis, PickPlaces(picks)) <==> NoneMisfired(job, picks)
    decreases |picks|
  {
    if picks != [] {
      var (init, p) := (picks[..|picks| - 1], picks[|picks| - 1]);
      assert picks == init + [p];
      assert forall q <- init :: q in picks;
      assert p in picks && Exact(job, basis, p);
      PicksExact(job, basis, init);
      RightSnoc(job, basis, PickPlaces(init), Place(p.choice.offset, p.choice.block));
      NoneSnoc(job, init, p);
    }
  }

  // ----- which bytes are sent literally -----

  /** The blocks flagged by choices made before the search came to q. */
  function FlaggedBefore(picks: seq<Pick>, q: nat): set<nat> {
    if picks == [] then {}
    else
      var c := picks[|picks| - 1].choice;
      FlaggedBefore(picks[..|picks| - 1], q) + if c.flagged && c.offset < q then {c.block} else {}
  }

  /** No block may be matched at q: one with the length and the sums of what is
      there only in place, and then it lies behind q and was not found at its
      own offset before. */
  predicate Unmatched(job: Job, basis: bytes, picks: seq<Pick>, q: nat)
    requires job.g.Valid() && |basis| == job.g.Flength() && q <= |job.file|
  {
    forall j :: 0 <= j < job.g.count && BlockMatches(job, basis, j, q)
      ==> job.updating && job.g.Offset(j) < q && j !in FlaggedBefore(picks, q)
  }

  /** A re-alignment went over q. */
  predicate JumpedOver(picks: seq<Pick>, q: nat) {
    exists p <- picks :: p.offset <= q < p.choice.offset
  }

  /** A block was matched over q. */
  predicate Covered(g: Geometry, picks: seq<Pick>, q: nat) {
    exists p <- picks :: p.choice.offset <= q < p.choice.offset + g.Len(p.choice.block)
  }

  predicate Accounted(job: Job, basis: bytes, picks: seq<Pick>, q: nat)
    requires job.g.Valid() && |basis| == job.g.Flength() && q <= |job.file|
  {
    Covered(job.g, picks, q) || JumpedOver(picks, q) || Unmatched(job, basis, picks, q)
  }

  /** The search has dealt with everything before upto. */
  predicate Searched(job: Job, basis: bytes, picks: seq<Pick>, upto: nat)
    requires job.g.Valid() && |basis| == job.g.Flength()
  {
    forall q :: 0 <= q < upto && q <= |job.file| ==> Accounted(job, basis, picks, q)
  }

  predicate Behind(picks: seq<Pick>, upto: nat) { forall p <- picks :: p.choice.offset < upto }

  lemma {:induction false} AllFlagged(picks: seq<Pick>, q: nat)
    requires Behind(picks, q)
    ensures FlaggedBefore(picks, q) == Flagged(picks)
    decreases |picks|
  {
    if picks != [] {
      var init := picks[..|picks| - 1];
      assert picks[|picks| - 1] in picks && forall p <- init :: p in picks;
      AllFlagged(init, q);
    }
  }

  /** A step to the next offset where no usable block was found. */
  lemma SearchedMiss(job: Job, basis: bytes, picks: seq<Pick>, sums: seq<SumBuf>, q: nat)
    requires job.g.Valid() && |basis| == job.g.Flength() && q <= |job.file|
    requires SumsOf(sums, basis, job.g, job.strong, job.s2length) && IsLastHit(job, sums, q, -1)
    requires FlagsAre(sums, Flagged(picks)) && Behind(picks, q) && Searched(job, basis, picks, q)
    ensures Searched(job, basis, picks, q + 1) == true && Behind(picks, q + 1)
  {
    AllFlagged(picks, q);
    forall j | 0 <= j < job.g.count && BlockMatches(job, basis, j, q)
      ensures job.updating && job.g.Offset(j) < q && j !in FlaggedBefore(picks, q)
    {
      assert !Hit(job, sums[j], q);
      MatchIsCandidate(job, basis, sums, j, q);
    }
    forall r | 0 <= r < q + 1 && r <= |job.file| ensures Accounted(job, basis, picks, r) {}
  }

  /** A choice accounts for all up to the end of its block. */
  lemma SearchedPick(job: Job, basis: bytes, picks: seq<Pick>, p: Pick)
    requires job.g.Valid() && |basis| == job.g.Flength() && p.offset <= p.choice.offset && job.g.Len(p.choice.block) > 0
    requires Searched(job, basis, picks, p.offset) && Behind(picks, p.offset)
    ensures var end := p.choice.offset + job.g.Len(p.choice.block);
      Searched(job, basis, picks + [p], end) == true && Behind(picks + [p], end)
  {
    var all, end := picks + [p], p.choice.offset + job.g.Len(p.choice.block);
    assert p in all && forall x <- picks :: x in all;
    assert all[..|picks|] == picks;
    forall q | 0 <= q < end && q <= |job.file| ensures Accounted(job, basis, all, q) {
      if q < p.offset {
        assert Accounted(job, basis, picks, q);
        assert FlaggedBefore(all, q) == FlaggedBefore(picks, q);
      }
    }
  }

  /** Past the last place a block fits, nothing can match. */
  lemma SearchedTail(job: Job, basis: bytes, picks: seq<Pick>, from: nat)
    requires job.g.Valid() && |basis| == job.g.Flength() && Searched(job, basis, picks, from)
    requires job.g.count > 0 ==> from >= |job.file| + 1 - job.g.Len(job.g.count - 1)
    ensures Searched(job, basis, picks, |job.file|) == true
  {
    forall q | 0 <= q < |job.file| ensures Accounted(job, basis, picks, q) {
      if q >= from {
        forall j | 0 <= j < job.g.count ensures !BlockMatches(job, basis, j, q) {
          assert job.g.Len(j) >= job.g.Len(job.g.count - 1) > |job.file| - q;
        }
      }
    }
  }

  /** Why each literal byte is one. */
  predicate LiteralsForced(job: Job, basis: bytes, ts: seq<Token>, picks: seq<Pick>)
    requires job.g.Valid() && |basis| == job.g.Flength()
  {
    forall k, q {:trigger LiteralAt(job.g, ts, k, q)} :: 0 <= k < |ts| && 0 <= q < |job.file| && LiteralAt(job.g, ts, k, q) ==>
      JumpedOver(picks, q) || Unmatched(job, basis, picks, q)
  }

  /** Token k is a literal with the byte for output position q. */
  predicate LiteralAt(g: Geometry, ts: seq<Token>, k: nat, q: nat)
    requires k < |ts|
  {
    ts[k].Literal? && Start(g, ts, k) <= q < Start(g, ts, k) + |ts[k].data|
  }

  /** A match of the stream is one of its tokens. */
  lemma {:induction false} PlaceIsToken(g: Geometry, ts: seq<Token>, p: Place) returns (m: nat)
    requires p in Places(g, ts)
    ensures m < |ts| && ts[m] == Match(p.block) && Start(g, ts, m) == p.at
    decreases |ts|
  {
    var (init, t) := (ts[..|ts| - 1], ts[|ts| - 1]);
    assert ts == init + [t];
    if p in Places(g, init) {
      m := PlaceIsToken(g, init, p);
      StartSnoc(g, init, t, m);
    } else {
      m := |ts| - 1;
    }
  }

  lemma {:induction false} StartsApart(g: Geometry, ts: seq<Token>, a: nat, b: nat)
    requires a < b < |ts|
    ensures Start(g, ts, a) + TokenLen(g, ts[a]) <= Start(g, ts, b)
    decreases b
  {
    assert ts[..b][..b - 1] == ts[..b - 1];
    if a < b - 1 { StartsApart(g, ts, a, b - 1); }
  }

  /** A literal byte is covered by no match. */
  lemma LiteralUncovered(g: Geometry, ts: seq<Token>, picks: seq<Pick>, k: nat, q: nat)
    requires k < |ts| && LiteralAt(g, ts, k, q) && Places(g, ts) == PickPlaces(picks)
    ensures !Covered(g, picks, q)
  {
    if Covered(g, picks, q) {
      var p :| p in picks && p.choice.offset <= q < p.choice.offset + g.Len(p.choice.block);
      PickHasPlace(picks, p);
      var m := PlaceIsToken(g, ts, Place(p.choice.offset, p.choice.block));
      if m < k { StartsApart(g, ts, m, k); } else if k < m { StartsApart(g, ts, k, m); }
    }
  }

  lemma {:induction false} PickHasPlace(picks: seq<Pick>, p: Pick)
    requires p in picks
    ensures Place(p.choice.offset, p.choice.block) in PickPlaces(picks)
    decreases |picks|
  {
    var init := picks[..|picks| - 1];
    assert picks == init + [picks[|picks| - 1]];
    if p in init { PickHasPlace(init, p); }
  }

  lemma LiteralsAre(job: Job, basis: bytes, ts: seq<Token>, picks: seq<Pick>)
    requires job.g.Valid() && |basis| == job.g.Flength() && Places(job.g, ts) == PickPlaces(picks)
    requires Searched(job, basis, picks, |job.file|)
    ensures LiteralsForced(job, basis, ts, picks)
  {
    forall k, q | 0 <= k < |ts| && 0 <= q < |job.file| && LiteralAt(job.g, ts, k, q)
      ensures JumpedOver(picks, q) || Unmatched(job, basis, picks, q)
    {
      LiteralUncovered(job.g, ts, picks, k, q);
      assert Accounted(job, basis, picks, q);
    }
  }

  /** The last choice does not fit in the file. */
  predicate Overshot(job: Job, picks: seq<Pick>) {
    picks != [] && var c := picks[|picks| - 1].choice; c.offset + job.g.Len(c.block) > |job.file|
  }

  /** What a run comes to: it ends well and its stream stands for the file
      exactly when none of its choices was a wrong turn. */
  lemma RunExact(job: Job, basis: bytes, ts: seq<Token>, picks: seq<Pick>, ok: bool)
    requires job.g.Valid() && |basis| == job.g.Flength() && PicksOk(job, basis, picks)
    requires NoCollision(job.file, basis, job.g, job.strong, job.s2length)
    requires ok ==> AllOk(job, basis, ts) && OutLen(job.g, ts) == |job.file| && Places(job.g, ts) == PickPlaces(picks)
    requires !ok ==> Overshot(job, picks)
    ensures (ok && WellFormed(job.g, ts) && Replay(basis, job.g, ts) == job.file) <==> NoneMisfired(job, picks)
  {
    if ok {
      OkReplays(job, basis, ts);
      EachExact(job, basis, picks);
      PicksExact(job, basis, picks);
    } else {
      var p := picks[|picks| - 1];
      assert p in picks;
      PickExact(job, basis, p);
    }
  }

  lemma NoTurn(job: Job, basis: bytes, p: Pick)
    requires job.g.Valid() && |basis| == job.g.Flength() && PickOk(job, basis, p) && Trusted(job, basis)
    ensures !Misfired(job, p)
  {
    assert job.updating ==> !Misfire(job, p.sums, p.wantI, p.offset);
  }

  /** Where no wrong turn is possible, none is taken. */
  lemma NoneWhereTrusted(job: Job, basis: bytes, picks: seq<Pick>)
    requires job.g.Valid() && |basis| == job.g.Flength() && PicksOk(job, basis, picks) && Trusted(job, basis)
    ensures NoneMisfired(job, picks)
  {
    EachPickOk(job, basis, picks);
    forall p <- picks ensures !Misfired(job, p) {
      NoTurn(job, basis, p);
    }
  }

  // ----- both wrong turns are real -----

  /** Two four-byte blocks of different bytes that both have weak sum 0. */
  const ZERO_P: bytes := [1, 254, 1, 0]
  const ZERO_Q: bytes := [0, 1, 254, 1]

  lemma BothWeakSumsAreZero()
    ensures WeakSum(ZERO_P) == 0 && WeakSum(ZERO_Q) == 0 && ZERO_P != ZERO_Q
  {
    WeakSumFour(1, 254, 1, 0);
    WeakSumFour(0, 1, 254, 1);
  }

  lemma WeakSumFour(a: byte, b: byte, c: byte, d: byte)
    ensures S1([a, b, c, d]) == Term(a) + Term(b) + Term(c) + Term(d)
    ensures S2([a, b, c, d]) == 4 * Term(a) + 3 * Term(b) + 2 * Term(c) + Term(d)
  {
    SumFour([], a, b, c, d);
    assert [] + [a, b, c, d] == [a, b, c, d];
  }

  /** P, a seven, P again, and the last three bytes of Q. */
  const MISFIRE_FILE: bytes := [1, 254, 1, 0, 7, 1, 254, 1, 0, 1, 254, 1]
  /** Two other blocks, then P, then Q. */
  const MISFIRE_BASIS: bytes := [9, 9, 9, 9, 8, 8, 8, 8, 1, 254, 1, 0, 0, 1, 254, 1]

  /** The perfect digest: the bytes themselves. */
  function Itself(w: bytes): bytes { w }

  const MISFIRE_JOB: Job := Job(MISFIRE_FILE, Geometry(4, 4, 0), Itself, 16, true)

  lemma MisfireBlocks()
    ensures var g := MISFIRE_JOB.g;
            && Block(MISFIRE_BASIS, g, 0) == [9, 9, 9, 9] && Block(MISFIRE_BASIS, g, 1) == [8, 8, 8, 8]
            && Block(MISFIRE_BASIS, g, 2) == ZERO_P && Block(MISFIRE_BASIS, g, 3) == ZERO_Q
    ensures MISFIRE_JOB.W(0) == ZERO_P && MISFIRE_JOB.W(5) == ZERO_P && Window(MISFIRE_FILE, 8, 4) == ZERO_Q
  {
    var b := MISFIRE_BASIS;
    assert b[0..4] == [9, 9, 9, 9] && b[4..8] == [8, 8, 8, 8] && b[8..12] == ZERO_P && b[12..16] == ZERO_Q;
    assert MISFIRE_FILE[0..4] == ZERO_P && MISFIRE_FILE[5..9] == ZERO_P && MISFIRE_FILE[8..12] == ZERO_Q;
  }

  lemma MisfireHits(sums: seq<SumBuf>)
    requires SumsOf(sums, MISFIRE_BASIS, MISFIRE_JOB.g, Itself, 16) && forall j :: 0 <= j < 4 ==> !sums[j].sameOffset
    ensures IsLastHit(MISFIRE_JOB, sums, 0, 2) && IsLastHit(MISFIRE_JOB, sums, 5, 2)
  {
    MisfireBlocks();
    BothWeakSumsAreZero();
    assert sums[3].sum2 == ZERO_Q && sums[2].sum2 == ZERO_P;
  }

  lemma MisfireDigest()
    ensures NoStrongCollision(MISFIRE_FILE, MISFIRE_BASIS, MISFIRE_JOB.g, Itself, 16)
  {
  }

  /** The stream an in-place update of this file sends. */
  const MISFIRE_STREAM: seq<Token> := [Match(2), Literal([7]), Match(3), Literal([1, 254, 1])]

  /** An in-place update of this file goes wrong even with the perfect digest:
      block 2 is matched at offset 0 and nothing at 4, the block chosen at 5 is
      block 3, which holds other bytes, and the search ends at 9.  The stream is
      as long as the file and is not the file. */
  lemma MisfireHappens(sums: seq<SumBuf>)
    requires SumsOf(sums, MISFIRE_BASIS, MISFIRE_JOB.g, Itself, 16) && forall j :: 0 <= j < 4 ==> !sums[j].sameOffset
    ensures NoStrongCollision(MISFIRE_FILE, MISFIRE_BASIS, MISFIRE_JOB.g, Itself, 16)
    ensures IsLastHit(MISFIRE_JOB, sums, 0, 2) && Choose(MISFIRE_JOB, sums, 0, 0, 2) == Choice(0, 2, false)
    ensures IsLastHit(MISFIRE_JOB, sums, 4, -1)
    ensures IsLastHit(MISFIRE_JOB, sums, 5, 2) && Choose(MISFIRE_JOB, sums, 3, 5, 2) == Choice(5, 3, false)
    ensures !RightBytes(MISFIRE_JOB, MISFIRE_BASIS, Choice(5, 3, false)) && Misfire(MISFIRE_JOB, sums, 3, 5)
    ensures WellFormed(MISFIRE_JOB.g, MISFIRE_STREAM) && OutLen(MISFIRE_JOB.g, MISFIRE_STREAM) == |MISFIRE_FILE|
    ensures Replay(MISFIRE_BASIS, MISFIRE_JOB.g, MISFIRE_STREAM) != MISFIRE_FILE
  {
    MisfireDigest();
    MisfireHits(sums);
    MisfireMiss(sums);
    MisfireStart(sums);
    MisfireTurn(sums);
    MisfireWrong(sums);
    MisfireReplay();
  }

  lemma MisfireWrong(sums: seq<SumBuf>)
    requires SumsOf(sums, MISFIRE_BASIS, MISFIRE_JOB.g, Itself, 16)
    requires IsLastHit(MISFIRE_JOB, sums, 5, 2) && Choose(MISFIRE_JOB, sums, 3, 5, 2) == Choice(5, 3, false)
    ensures !RightBytes(MISFIRE_JOB, MISFIRE_BASIS, Choice(5, 3, false)) && Misfire(MISFIRE_JOB, sums, 3, 5)
  {
    MisfireBlocks();
    MisfireDigest();
    assert ZERO_P[0] != ZERO_Q[0];
    ChooseRightInPlace(MISFIRE_JOB, MISFIRE_BASIS, sums, 3, 5, 2);
  }

  lemma MisfireMiss(sums: seq<SumBuf>)
    requires SumsOf(sums, MISFIRE_BASIS, MISFIRE_JOB.g, Itself, 16)
    ensures IsLastHit(MISFIRE_JOB, sums, 4, -1)
  {
    MisfireBlocks();
    assert MISFIRE_JOB.W(4)[0] == 7;
    forall j | 0 <= j < 4 ensures !Hit(MISFIRE_JOB, sums[j], 4) {
      assert sums[j].sum2 == Block(MISFIRE_BASIS, MISFIRE_JOB.g, j);
      assert Block(MISFIRE_BASIS, MISFIRE_JOB.g, j)[0] != 7;
    }
  }

  lemma MisfireReplay()
    ensures WellFormed(MISFIRE_JOB.g, MISFIRE_STREAM) && OutLen(MISFIRE_JOB.g, MISFIRE_STREAM) == |MISFIRE_FILE|
    ensures Replay(MISFIRE_BASIS, MISFIRE_JOB.g, MISFIRE_STREAM) != MISFIRE_FILE
  {
    MisfireBlocks();
    assert ZERO_P[0] != ZERO_Q[0];
    WrongStream(MISFIRE_FILE, MISFIRE_BASIS, MISFIRE_JOB.g, 7, [1, 254, 1]);
  }

  /** Four blocks of four bytes, the last of which is matched where the file has
      other bytes. */
  lemma WrongStream(file: bytes, basis: bytes, g: Geometry, x: byte, tail: bytes)
    requires g == Geometry(4, 4, 0) && |basis| == 16 && |file| == 12 && |tail| == 3
    requires Window(file, 5, 4) != Block(basis, g, 3)
    ensures var ts := [Match(2), Literal([x]), Match(3), Literal(tail)];
      WellFormed(g, ts) && OutLen(g, ts) == 12 && Replay(basis, g, ts) != file
  {
    var ts := [Match(2), Literal([x]), Match(3), Literal(tail)];
    var head := [Match(2), Literal([x])];
    OutLenSnoc(g, [Match(2)], Literal([x]));
    OutLenSnoc(g, head, Match(3));
    OutLenSnoc(g, head + [Match(3)], Literal(tail));
    assert head == [Match(2)] + [Literal([x])] && ts == head + [Match(3)] + [Literal(tail)];
    assert ts[..2] == head && Start(g, ts, 2) == 5 && file[..12] == file;
    if Replay(basis, g, ts) == file {
      ReplayOnlyFaithful(file, basis, g, ts);
    }
  }

  lemma MisfireStart(sums: seq<SumBuf>)
    requires SumsOf(sums, MISFIRE_BASIS, MISFIRE_JOB.g, Itself, 16)
    ensures Choose(MISFIRE_JOB, sums, 0, 0, 2) == Choice(0, 2, false)
  {
    MisfireBlocks();
    assert AlignIndex(0, 4) == 0;
    assert sums[0].sum2 == [9, 9, 9, 9];
  }

  lemma MisfireTurn(sums: seq<SumBuf>)
    requires SumsOf(sums, MISFIRE_BASIS, MISFIRE_JOB.g, Itself, 16)
    ensures Choose(MISFIRE_JOB, sums, 3, 5, 2) == Choice(5, 3, false)
  {
    MisfireBlocks();
    BothWeakSumsAreZero();
    assert AlignIndex(5, 4) == 2;
    assert sums[2].sum2 == ZERO_P && sums[3].sum2 == ZERO_Q && ZERO_P[0] != ZERO_Q[0];
  }

  // The other turn needs a strong sum that takes two blocks for one, but never
  // together with the weak sum.

  const CROSS_Z: bytes := [0, 0, 0, 0]
  const CROSS_V: bytes := [0, 1, 0, 0]
  /** Z, a nine, and Z again where V follows it at the boundary. */
  const CROSS_FILE: bytes := [0, 0, 0, 0, 9, 0, 0, 0, 0, 1, 0, 0]
  const CROSS_BASIS: bytes := [7, 7, 7, 7, 8, 8, 8, 8, 0, 0, 0, 0, 0, 1, 0, 0]

  /** The bytes themselves, except that V looks like Z. */
  function AlmostItself(w: bytes): bytes { if w == CROSS_V then CROSS_Z else w }

  const CROSS_JOB: Job := Job(CROSS_FILE, Geometry(4, 4, 0), AlmostItself, 16, true)

  lemma CrossBlocks()
    ensures var g := CROSS_JOB.g;
            && Block(CROSS_BASIS, g, 0) == [7, 7, 7, 7] && Block(CROSS_BASIS, g, 1) == [8, 8, 8, 8]
            && Block(CROSS_BASIS, g, 2) == CROSS_Z && Block(CROSS_BASIS, g, 3) == CROSS_V
    ensures CROSS_JOB.W(5) == CROSS_Z && Window(CROSS_FILE, 8, 4) == CROSS_V
  {
    var b := CROSS_BASIS;
    assert b[0..4] == [7, 7, 7, 7] && b[4..8] == [8, 8, 8, 8] && b[8..12] == CROSS_Z && b[12..16] == CROSS_V;
    assert CROSS_FILE[5..9] == CROSS_Z && CROSS_FILE[8..12] == CROSS_V;
  }

  lemma CrossSums()
    ensures WeakSum(CROSS_Z) == 0 && WeakSum(CROSS_V) == 3 * M16 + 1
  {
    WeakSumFour(0, 0, 0, 0);
    WeakSumFour(0, 1, 0, 0);
  }

  lemma CrossDigest()
    ensures NoCollision(CROSS_FILE, CROSS_BASIS, CROSS_JOB.g, AlmostItself, 16)
  {
    CrossBlocks();
    CrossSums();
    forall p: nat, l: nat, i: nat |
      p + l <= |CROSS_FILE| && i < 4
      && WeakSum(Window(CROSS_FILE, p, l)) == WeakSum(Block(CROSS_BASIS, CROSS_JOB.g, i))
      && Sum2(AlmostItself, 16, Window(CROSS_FILE, p, l)) == Sum2(AlmostItself, 16, Block(CROSS_BASIS, CROSS_JOB.g, i))
      ensures Window(CROSS_FILE, p, l) == Block(CROSS_BASIS, CROSS_JOB.g, i)
    {
      var w, b := Window(CROSS_FILE, p, l), Block(CROSS_BASIS, CROSS_JOB.g, i);
      assert AlmostItself(w) == AlmostItself(b) by {
        assert |AlmostItself(w)| <= 16 && |AlmostItself(b)| <= 16;
      }
    }
  }

  const CROSS_STREAM: seq<Token> := [Match(2), Literal([9]), Match(3), Literal([1, 0, 0])]

  /** This update goes wrong although no two things compared have both sums
      equal: block 2 is matched at offset 0 and nothing at 4, block 3 is chosen
      at 5 for the weak sum of the window ahead and the strong sum of the window
      here, and the search ends at 9. */
  lemma CrossMisfireHappens(sums: seq<SumBuf>)
    requires SumsOf(sums, CROSS_BASIS, CROSS_JOB.g, AlmostItself, 16) && forall j :: 0 <= j < 4 ==> !sums[j].sameOffset
    ensures NoCollision(CROSS_FILE, CROSS_BASIS, CROSS_JOB.g, AlmostItself, 16)
    ensures ZeroSumUnique(CROSS_FILE, CROSS_BASIS, CROSS_JOB.g)
    ensures IsLastHit(CROSS_JOB, sums, 0, 2) && Choose(CROSS_JOB, sums, 0, 0, 2) == Choice(0, 2, false)
    ensures IsLastHit(CROSS_JOB, sums, 4, -1)
    ensures IsLastHit(CROSS_JOB, sums, 5, 2) && Choose(CROSS_JOB, sums, 3, 5, 2) == Choice(5, 3, false)
    ensures !RightBytes(CROSS_JOB, CROSS_BASIS, Choice(5, 3, false)) && Misfire(CROSS_JOB, sums, 3, 5)
    ensures WellFormed(CROSS_JOB.g, CROSS_STREAM) && OutLen(CROSS_JOB.g, CROSS_STREAM) == |CROSS_FILE|
    ensures Replay(CROSS_BASIS, CROSS_JOB.g, CROSS_STREAM) != CROSS_FILE
  {
    CrossDigest();
    CrossUnique();
    CrossStart(sums);
    CrossMiss(sums);
    CrossTurn(sums);
    CrossWrong(sums);
  }

  lemma CrossWrong(sums: seq<SumBuf>)
    requires SumsOf(sums, CROSS_BASIS, CROSS_JOB.g, AlmostItself, 16)
    requires IsLastHit(CROSS_JOB, sums, 5, 2) && Choose(CROSS_JOB, sums, 3, 5, 2) == Choice(5, 3, false)
    ensures !RightBytes(CROSS_JOB, CROSS_BASIS, Choice(5, 3, false)) && Misfire(CROSS_JOB, sums, 3, 5)
    ensures WellFormed(CROSS_JOB.g, CROSS_STREAM) && OutLen(CROSS_JOB.g, CROSS_STREAM) == |CROSS_FILE|
    ensures Replay(CROSS_BASIS, CROSS_JOB.g, CROSS_STREAM) != CROSS_FILE
  {
    CrossDigest();
    CrossBlocks();
    assert CROSS_Z[1] != CROSS_V[1];
    ChooseRightInPlace(CROSS_JOB, CROSS_BASIS, sums, 3, 5, 2);
    WrongStream(CROSS_FILE, CROSS_BASIS, CROSS_JOB.g, 9, [1, 0, 0]);
  }

  lemma CrossStart(sums: seq<SumBuf>)
    requires SumsOf(sums, CROSS_BASIS, CROSS_JOB.g, AlmostItself, 16)
    ensures IsLastHit(CROSS_JOB, sums, 0, 2) && Choose(CROSS_JOB, sums, 0, 0, 2) == Choice(0, 2, false)
  {
    CrossBlocks();
    CrossSums();
    assert CROSS_FILE[0..4] == CROSS_Z;
    assert AlignIndex(0, 4) == 0;
    assert sums[0].sum2 == [7, 7, 7, 7];
  }

  lemma CrossMiss(sums: seq<SumBuf>)
    requires SumsOf(sums, CROSS_BASIS, CROSS_JOB.g, AlmostItself, 16)
    ensures IsLastHit(CROSS_JOB, sums, 4, -1)
  {
    var w := CROSS_JOB.W(4);
    assert w[0] == 9 && CROSS_V[0] != 9;
    assert CROSS_JOB.D(w) == w;
    forall j | 0 <= j < 4 ensures !Hit(CROSS_JOB, sums[j], 4) {
      CrossHead(sums, j);
    }
  }

  lemma CrossHead(sums: seq<SumBuf>, j: nat)
    requires SumsOf(sums, CROSS_BASIS, CROSS_JOB.g, AlmostItself, 16) && j < 4
    ensures |sums[j].sum2| == 4 && sums[j].sum2[0] != 9
  {
    var b := Block(CROSS_BASIS, CROSS_JOB.g, j);
    assert b[0] == CROSS_BASIS[j * 4] && |b| == 4;
    assert sums[j].sum2 == AlmostItself(b);
  }

  lemma CrossUnique()
    ensures ZeroSumUnique(CROSS_FILE, CROSS_BASIS, CROSS_JOB.g)
  {
    forall p: nat, i: nat |
      p + 4 <= |CROSS_FILE| && i < 4
      && WeakSum(Window(CROSS_FILE, p, 4)) == 0 && WeakSum(Block(CROSS_BASIS, CROSS_JOB.g, i)) == 0
      ensures Window(CROSS_FILE, p, 4) == Block(CROSS_BASIS, CROSS_JOB.g, i)
    {
      CrossZero(p);
      CrossOther(i);
    }
  }

  /** The only windows with weak sum 0 are the two copies of Z. */
  lemma CrossZero(p: nat)
    requires p + 4 <= |CROSS_FILE| && WeakSum(Window(CROSS_FILE, p, 4)) == 0
    ensures Window(CROSS_FILE, p, 4) == CROSS_Z
  {
    var (a, b, c, d) := (CROSS_FILE[p], CROSS_FILE[p + 1], CROSS_FILE[p + 2], CROSS_FILE[p + 3]);
    assert Window(CROSS_FILE, p, 4) == [a, b, c, d];
    WeakSumFour(a, b, c, d);
    assert a == 0 && b == 0 && c == 0 && d == 0;
  }

  lemma CrossOther(i: nat)
    requires i < 4 && WeakSum(Block(CROSS_BASIS, CROSS_JOB.g, i)) == 0
    ensures Block(CROSS_BASIS, CROSS_JOB.g, i) == CROSS_Z
  {
    CrossBlocks();
    if i == 0 {
      WeakSumFour(7, 7, 7, 7);
    } else if i == 1 {
      WeakSumFour(8, 8, 8, 8);
    } else if i == 3 {
      CrossSums();
    }
  }

  lemma CrossTurn(sums: seq<SumBuf>)
    requires SumsOf(sums, CROSS_BASIS, CROSS_JOB.g, AlmostItself, 16)
    ensures IsLastHit(CROSS_JOB, sums, 5, 2) && Choose(CROSS_JOB, sums, 3, 5, 2) == Choice(5, 3, false)
  {
    CrossBlocks();
    CrossSums();
    assert AlignIndex(5, 4) == 2;
    assert sums[2].sum2 == CROSS_Z && sums[3].sum2 == CROSS_Z;
  }

  /** The variables hash_search carries round its loop. */
  datatype Cursor = Cursor(offset: nat, k: nat, s1: int, s2: int, wantI: nat, ao: nat, ai: nat)

  /** The part of the sender that matched() writes, and a record of its choices.
      (Where a contract says == true, proofs take that condition as a whole.) */
  class Search<S(0)> {
    const job: Job
    const fileSum: FileSum<S>
    var lastMatch: nat
    var tokens: seq<Token>
    ghost var picks: seq<Pick>

    constructor (j: Job, f: FileSum<S>)
      ensures job == j && fileSum == f && lastMatch == 0 && tokens == [] && picks == []
    {
      job, fileSum, lastMatch, tokens, picks := j, f, 0, [], [];
    }

    /** Everything sent and summed so far is the file up to lastMatch. */
    ghost predicate Valid(basis: bytes)
      reads this`lastMatch, this`tokens, fileSum
    {
      && job.g.Valid() && |basis| == job.g.Flength()
      && lastMatch <= |job.file|
      && OutLen(job.g, tokens) == lastMatch
      && AllOk(job, basis, tokens)
      && fileSum.Valid() && fileSum.fed == job.file[..lastMatch]
    }

    /** simple_send_token: the literal bytes in pieces, then the token. */
    method SendToken(from: nat, to: nat, i: int, ghost basis: bytes)
      requires job.g.Valid() && |basis| == job.g.Flength()
      requires OutLen(job.g, tokens) == from <= to <= |job.file| && AllOk(job, basis, tokens) == true
      requires i >= 0 ==> TokenOk(job, basis, Match(i), to) == true
      requires job.updating ==> InPlaceSafe(job.g, tokens) == true
      requires job.updating && i >= 0 ==> MayMatch(job.g, tokens, to, i) == true
      modifies this`tokens
      ensures AllOk(job, basis, tokens) == true
      ensures OutLen(job.g, tokens) == to + (if i >= 0 then job.g.Len(i) else 0)
      ensures i >= 0 ==> Places(job.g, tokens) == old(Places(job.g, tokens)) + [Place(to, i)]
      ensures i < 0 ==> Places(job.g, tokens) == old(Places(job.g, tokens))
      ensures job.updating ==> InPlaceSafe(job.g, tokens) == true
      ensures old(tokens) <= tokens
      ensures i >= 0 ==> |tokens| > 0 && tokens[|tokens| - 1] == Match(i)
                         && Start(job.g, tokens, |tokens| - 1) == to
    {
      ghost var was := tokens;
      SendLiteral(from, to, basis);
      if i >= 0 {
        if job.updating { MayMatchStill(job.g, was, tokens, to, i); }
        Emit(Match(i), basis);
      }
    }

    method SendLiteral(from: nat, to: nat, ghost basis: bytes)
      requires job.g.Valid() && |basis| == job.g.Flength()
      requires OutLen(job.g, tokens) == from <= to <= |job.file| && AllOk(job, basis, tokens) == true
      requires job.updating ==> InPlaceSafe(job.g, tokens) == true
      modifies this`tokens
      ensures AllOk(job, basis, tokens) == true && OutLen(job.g, tokens) == to
      ensures Places(job.g, tokens) == old(Places(job.g, tokens)) && old(tokens) <= tokens
      ensures job.updating ==> InPlaceSafe(job.g, tokens) == true
    {
      var at := from;
      while at < to
        invariant from <= at <= to
        invariant OutLen(job.g, tokens) == at && AllOk(job, basis, tokens) == true
        invariant Places(job.g, tokens) == old(Places(job.g, tokens)) && old(tokens) <= tokens
        invariant job.updating ==> InPlaceSafe(job.g, tokens) == true
      {
        var next := if CHUNK_SIZE < to - at then at + CHUNK_SIZE else to;
        Emit(Literal(Window(job.file, at, next - at)), basis);
        at := next;
      }
    }

    method Emit(t: Token, ghost basis: bytes)
      requires job.g.Valid() && |basis| == job.g.Flength()
      requires TokenOk(job, basis, t, OutLen(job.g, tokens)) == true && AllOk(job, basis, tokens) == true
      requires job.updating ==> InPlaceSafe(job.g, tokens) == true
      requires job.updating && t.Match? ==> MayMatch(job.g, tokens, OutLen(job.g, tokens), t.block) == true
      modifies this`tokens
      ensures tokens == old(tokens) + [t] && AllOk(job, basis, tokens) == true
      ensures t.Match? ==> Places(job.g, tokens) == old(Places(job.g, tokens)) + [Place(old(OutLen(job.g, tokens)), t.block)]
      ensures t.Literal? ==> Places(job.g, tokens) == old(Places(job.g, tokens))
      ensures OutLen(job.g, tokens) == old(OutLen(job.g, tokens)) + TokenLen(job.g, t)
      ensures Start(job.g, tokens, |tokens| - 1) == old(OutLen(job.g, tokens))
      ensures job.updating ==> InPlaceSafe(job.g, tokens) == true
    {
      OutLenSnoc(job.g, tokens, t);
      PlacesSnoc(job.g, tokens, t);
      AllOkSnoc(job, basis, tokens, t);
      if job.updating { SafeSnoc(job.g, tokens, t); }
      ghost var before := tokens;
      tokens := tokens + [t];
      assert tokens[..|before|] == before;
    }

    /** matched(): a literal run up to offset and, for i >= 0, a block. */
    method Matched(offset: nat, i: int, ghost basis: bytes)
      requires Valid(basis) == true && lastMatch <= offset <= |job.file|
      requires i >= 0 ==> TokenOk(job, basis, Match(i), offset) == true
      requires job.updating ==> InPlaceSafe(job.g, tokens) == true
      requires job.updating && i >= 0 ==> MayMatch(job.g, tokens, offset, i) == true
      modifies this`tokens, this`lastMatch, fileSum
      ensures Valid(basis) == true
      ensures lastMatch == offset + (if i >= 0 then job.g.Len(i) else 0)
      ensures i >= 0 ==> Places(job.g, tokens) == old(Places(job.g, tokens)) + [Place(offset, i)]
      ensures i < 0 ==> Places(job.g, tokens) == old(Places(job.g, tokens))
      ensures job.updating ==> InPlaceSafe(job.g, tokens) == true
      ensures old(tokens) <= tokens
      ensures i >= 0 ==> |tokens| > 0 && tokens[|tokens| - 1] == Match(i)
                         && Start(job.g, tokens, |tokens| - 1) == offset
    {
      SendToken(lastMatch, offset, i, basis);
      var end := if i >= 0 then offset + job.g.Len(i) else offset;
      assert OutLen(job.g, tokens) == end && end <= |job.file|;
      SumUpTo(end, basis);
    }

    /** Sum what was sent, and go on from there. */
    method SumUpTo(end: nat, ghost basis: bytes)
      requires job.g.Valid() && |basis| == job.g.Flength() && lastMatch <= end <= |job.file|
      requires OutLen(job.g, tokens) == end && AllOk(job, basis, tokens) == true
      requires fileSum.Valid() && fileSum.fed == job.file[..lastMatch]
      modifies this`lastMatch, fileSum
      ensures Valid(basis) == true && lastMatch == end
    {
      SumRun(end - lastMatch);
      lastMatch := end;
    }

    /** Feed the n bytes from lastMatch on to the whole-file sum, in chunks. */
    method SumRun(n: nat)
      requires lastMatch + n <= |job.file| && fileSum.Valid() && fileSum.fed == job.file[..lastMatch]
      modifies fileSum
      ensures fileSum.Valid() && fileSum.fed == job.file[..lastMatch + n]
    {
      var j := 0;
      while j < n
        invariant 0 <= j
        invariant fileSum.Valid()
        invariant fileSum.fed == job.file[..lastMatch + (if j < n then j else n)]
      {
        var n1 := if CHUNK_SIZE < n - j then CHUNK_SIZE else n - j;
        ExtendPrefix(job.file, lastMatch + j, n1);
        fileSum.Update(Window(job.file, lastMatch + j, n1));
        j := j + CHUNK_SIZE;
      }
    }
  
    /** The matches sent are the choices made. */
    ghost predicate Recorded(basis: bytes)
      requires job.g.Valid() && |basis| == job.g.Flength()
      reads this`picks, this`tokens
    {
      PicksOk(job, basis, picks) && Places(job.g, tokens) == PickPlaces(picks)
    }

    /** What holds at the head of the search loop, apart from the window sums. */
    ghost predicate Searching(sums: array<SumBuf>, table: array<int>, offset: nat, basis: bytes)
      reads this, fileSum, sums, table
    {
      && Valid(basis) && Recorded(basis)
      && (job.updating ==> InPlaceSafe(job.g, tokens))
      && Indexed(sums[..], table[..], offset, basis)
      && Searched(job, basis, picks, offset) == true && Behind(picks, offset)
    }

    /** The block sums, their chains and their flags are in order. */
    ghost predicate Indexed(sums: seq<SumBuf>, table: seq<int>, offset: nat, basis: bytes)
      requires job.g.Valid() && |basis| == job.g.Flength()
      reads this`picks, this`tokens
    {
      && SumsOf(sums, basis, job.g, job.strong, job.s2length) && |sums| > 0
      && ChainsOk(sums, table, offset, job.updating) && FlagsAre(sums, Flagged(picks))
      && (job.updating ==> FlagsSkipped(job.g, sums, tokens))
    }

    /** The window sums are those of the window at offset, up to 16 bits. */
    predicate Rolled(offset: nat, k: nat, s1: int, s2: int) {
      && offset < |job.file| && k == job.L(offset)
      && Cong(s1, S1(job.W(offset)), M16) && Cong(s2, S2(job.W(offset)), M16)
    }

    /** The aligned offset kept so far: no boundary at or past `offset` was passed. */
    predicate Aligned(alignedOffset: nat, alignedI: nat, offset: nat) {
      && job.g.blength > 0 && alignedOffset == alignedI * job.g.blength
      && alignedOffset < offset + job.g.blength
    }

    method AlignTo(offset: nat, alignedOffset: nat, alignedI: nat) returns (ao: nat, ai: nat)
      requires Aligned(alignedOffset, alignedI, offset)
      ensures ai == AlignIndex(offset, job.g.blength) && ao == ai * job.g.blength
      ensures Aligned(ao, ai, offset)
    {
      ao, ai := alignedOffset, alignedI;
      while ao < offset
        invariant Aligned(ao, ai, offset)
      {
        ao, ai := ao + job.g.blength, ai + 1;
      }
      AlignIndexIs(offset, job.g.blength);
      AlignUnique(ai, AlignIndex(offset, job.g.blength), job.g.blength, offset);
    }

    lemma AlignUnique(a: nat, b: nat, m: nat, offset: nat)
      requires m > 0 && offset <= a * m < offset + m && offset <= b * m < offset + m
      ensures a == b
    {
      if a < b {
        assert b * m == a * m + (b - a) * m;
        MulGe(b - a, m);
      } else if b < a {
        assert a * m == b * m + (a - b) * m;
        MulGe(a - b, m);
      }
    }

    /** The modelled run is over: the last choice does not fit. */
    ghost predicate Stopped(basis: bytes)
      requires job.g.Valid() && |basis| == job.g.Flength()
      reads this
    {
      PicksOk(job, basis, picks) && Overshot(job, picks) && (job.updating ==> InPlaceSafe(job.g, tokens))
    }

    /** The code between a hit and matched(): it reaches the same choice. */
    method PickBlock(sums: array<SumBuf>, offset: nat, hit: nat, wantI: nat, alignedOffset: nat, alignedI: nat)
      returns (c: Choice, ao: nat, ai: nat)
      requires offset < |job.file| && hit < sums.Length && Aligned(alignedOffset, alignedI, offset)
      ensures c == Choose(job, sums[..], wantI, offset, hit)
      ensures Aligned(ao, ai, c.offset)
    {
      var i, at, want, flagged := hit, offset, wantI, false;
      var l := job.L(offset);
      var sum, sum2 := WeakSum(job.W(offset)), job.D(job.W(offset));
      ao, ai := alignedOffset, alignedI;
      if job.updating {
        ao, ai := AlignTo(offset, ao, ai);
        if (offset == ao || (sum == 0 && l == job.g.blength && ao + l <= |job.file|)) && ai < sums.Length {
          if i == ai || (sum == sums[ai].sum1 && l == sums[ai].len && sum2 == sums[ai].sum2) {
            i := ai;
            if offset == ao {
              flagged, want := true, i;
            } else {
              var w := Window(job.file, ao, l);
              sum := WeakSum(w);
              if sum == sums[i].sum1 {
                sum2 := job.D(w);
                if sum2 == sums[i].sum2 {
                  at, flagged, want := ao, true, i;
                }
              }
            }
          }
        }
      }
      assert Realign(job, sums[..], offset, hit) == Probe(at, i, sum, sum2, flagged);
      if i != want && want < sums.Length && Usable(sums[want], at, job.updating)
         && sum == sums[want].sum1 && sum2 == sums[want].sum2 {
        i := want;
      }
      c := Choice(at, i, flagged);
    }

    /** SUMFLG_SAME_OFFSET: the block is in the same spot in both files. */
    method SetFlag(sums: array<SumBuf>, table: array<int>, offset: nat, i: nat)
      requires ChainsOk(sums[..], table[..], offset, job.updating) && i < sums.Length && sums[i].offset >= offset
      modifies sums
      ensures sums[..] == old(sums[..][i := sums[i].(sameOffset := true)])
      ensures ChainsOk(sums[..], table[..], offset, job.updating)
    {
      ChainsFlag(sums[..], table[..], offset, job.updating, i);
      sums[i] := sums[i].(sameOffset := true);
      assert sums[..] == old(sums[..][i := sums[i].(sameOffset := true)]);
    }

    /** The chosen block gets the flag if it sits at its own offset. */
    method FlagChosen(sums: array<SumBuf>, table: array<int>, c: Choice, ghost flagged: set<nat>, ghost basis: bytes)
      requires job.g.Valid() && |basis| == job.g.Flength() && c.block < sums.Length
      requires SumsOf(sums[..], basis, job.g, job.strong, job.s2length) == true
      requires ChainsOk(sums[..], table[..], c.offset, job.updating) == true
      requires c.flagged ==> c.offset == job.g.Offset(c.block)
      requires FlagsAre(sums[..], flagged) == true
      modifies sums
      ensures FlagsAre(sums[..], flagged + if c.flagged then {c.block} else {})
      ensures SumsOf(sums[..], basis, job.g, job.strong, job.s2length)
      ensures ChainsOk(sums[..], table[..], c.offset, job.updating)
      ensures forall j :: 0 <= j < sums.Length && !(c.flagged && j == c.block) ==> sums[j].sameOffset == old(sums[..])[j].sameOffset
    {
      if c.flagged {
        assert sums[c.block] == sums[..][c.block];
        SetFlag(sums, table, c.offset, c.block);
      }
    }

    /** From a hit to the end of its block: flag and send the chosen block. */
    method SendMatch(sums: array<SumBuf>, table: array<int>, offset: nat, i: nat, c: Choice, ghost wantI: nat,
                     ghost basis: bytes) returns (ok: bool, next: nat)
      requires Searching(sums, table, offset, basis) == true
      requires offset < |job.file| && i < sums.Length && IsLastHit(job, sums[..], offset, i) && lastMatch <= offset
      requires c == Choose(job, sums[..], wantI, offset, i) && wantI == Wanted(picks)
      modifies this, fileSum, sums, table
      ensures ok ==> lastMatch == next && c.offset < next <= |job.file| && offset <= c.offset
                     && Searching(sums, table, next, basis) == true && Wanted(picks) == c.block + 1
      ensures job.g.Valid() && |basis| == job.g.Flength() && (!ok ==> Stopped(basis) == true)
    {
      ghost var s, before := sums[..], picks;
      next := Record(sums, table, offset, i, c, wantI, basis);
      ok := next <= |job.file|;
      if ok {
        Deliver(sums, table, c, s, before, basis);
      } else {
        StopsHere(c, s, basis);
      }
    }

    lemma StopsHere(c: Choice, s: seq<SumBuf>, basis: bytes)
      requires Sendable(c, s, basis) == true && job.g.Valid() && |basis| == job.g.Flength() && PicksOk(job, basis, picks)
      requires picks != [] && picks[|picks| - 1].choice == c && c.offset + job.g.Len(c.block) > |job.file|
      ensures Stopped(basis) == true
    {
    }

    /** The choice made is flagged and recorded, and can be sent. */
    method Record(sums: array<SumBuf>, table: array<int>, offset: nat, i: nat, c: Choice, ghost wantI: nat,
                  ghost basis: bytes) returns (next: nat)
      requires Searching(sums, table, offset, basis) == true
      requires offset < |job.file| && i < sums.Length && IsLastHit(job, sums[..], offset, i) && lastMatch <= offset
      requires c == Choose(job, sums[..], wantI, offset, i) && wantI == Wanted(picks)
      modifies this`picks, sums
      ensures offset <= c.offset < next == c.offset + job.g.Len(c.block)
      ensures job.g.Valid() && |basis| == job.g.Flength() && Sendable(c, old(sums[..]), basis) == true
      ensures Searched(job, basis, picks, next) == true && Behind(picks, next)
      ensures PicksOk(job, basis, picks) && Wanted(picks) == c.block + 1
      ensures picks != [] && picks[|picks| - 1].choice == c
      ensures Places(job.g, tokens) == PickPlaces(old(picks)) && PickPlaces(picks) == PickPlaces(old(picks)) + [Place(c.offset, c.block)]
      ensures Flagging(sums, table, c, old(sums[..]), basis) == true
    {
      ghost var p := Pick(sums[..], wantI, offset, i, c);
      ChosenOk(sums, table, wantI, offset, i, basis);
      Picked(sums, table, p, basis);
      next := c.offset + sums[c.block].len;
      Mark(sums, table, c, p, basis);
    }

    /** The chosen block is flagged and the choice goes on record. */
    method Mark(sums: array<SumBuf>, table: array<int>, c: Choice, ghost p: Pick, ghost basis: bytes)
      requires job.g.Valid() && |basis| == job.g.Flength() && PicksOk(job, basis, picks) && PickOk(job, basis, p) == true && p.choice == c
      requires p.wantI == Wanted(picks) && FlagsAre(p.sums, Flagged(picks)) == true && p.sums == sums[..]
      requires SumsOf(sums[..], basis, job.g, job.strong, job.s2length) == true
      requires ChainsOk(sums[..], table[..], c.offset, job.updating) == true
      requires c.block < sums.Length && (c.flagged ==> c.offset == job.g.Offset(c.block))
      requires Searched(job, basis, picks, p.offset) == true && Behind(picks, p.offset)
      requires p.offset <= c.offset && job.g.Len(c.block) > 0
      modifies this`picks, sums
      ensures Searched(job, basis, picks, c.offset + job.g.Len(c.block)) == true && Behind(picks, c.offset + job.g.Len(c.block))
      ensures picks == old(picks) + [p] && PicksOk(job, basis, picks) && Wanted(picks) == c.block + 1
      ensures PickPlaces(picks) == PickPlaces(old(picks)) + [Place(c.offset, c.block)]
      ensures Flagging(sums, table, c, old(sums[..]), basis) == true
    {
      SearchedPick(job, basis, picks, p);
      FlagAndNote(sums, table, c, p, basis);
    }

    method FlagAndNote(sums: array<SumBuf>, table: array<int>, c: Choice, ghost p: Pick, ghost basis: bytes)
      requires job.g.Valid() && |basis| == job.g.Flength() && PicksOk(job, basis, picks) && PickOk(job, basis, p) == true && p.choice == c
      requires p.wantI == Wanted(picks) && FlagsAre(p.sums, Flagged(picks)) == true && p.sums == sums[..]
      requires SumsOf(sums[..], basis, job.g, job.strong, job.s2length) == true
      requires ChainsOk(sums[..], table[..], c.offset, job.updating) == true
      requires c.block < sums.Length && (c.flagged ==> c.offset == job.g.Offset(c.block))
      modifies this`picks, sums
      ensures picks == old(picks) + [p] && PicksOk(job, basis, picks) && Wanted(picks) == c.block + 1
      ensures PickPlaces(picks) == PickPlaces(old(picks)) + [Place(c.offset, c.block)]
      ensures Flagging(sums, table, c, old(sums[..]), basis) == true
    {
      FlagChosen(sums, table, c, Flagged(picks), basis);
      NotePick(p, basis);
    }

    /** The sums after the choice c was flagged in s and put on record. */
    ghost predicate Flagging(sums: array<SumBuf>, table: array<int>, c: Choice, s: seq<SumBuf>, basis: bytes)
      requires job.g.Valid() && |basis| == job.g.Flength()
      reads this`picks, sums, table
    {
      && SumsOf(sums[..], basis, job.g, job.strong, job.s2length)
      && ChainsOk(sums[..], table[..], c.offset, job.updating)
      && |s| == sums.Length
      && (forall j :: 0 <= j < |s| && !(c.flagged && j == c.block) ==> sums[j].sameOffset == s[j].sameOffset)
      && FlagsAre(sums[..], Flagged(picks))
    }

    /** The choice goes on record. */
    ghost method NotePick(p: Pick, basis: bytes)
      requires job.g.Valid() && |basis| == job.g.Flength() && PicksOk(job, basis, picks) && PickOk(job, basis, p) == true
      requires p.wantI == Wanted(picks) && FlagsAre(p.sums, Flagged(picks)) == true
      modifies this`picks
      ensures picks == old(picks) + [p] && PicksOk(job, basis, picks) && Wanted(picks) == p.choice.block + 1
      ensures PickPlaces(picks) == PickPlaces(old(picks)) + [Place(p.choice.offset, p.choice.block)]
      ensures Flagged(picks) == Flagged(old(picks)) + if p.choice.flagged then {p.choice.block} else {}
    {
      PicksSnoc(job, basis, picks, p);
      picks := picks + [p];
    }

    /** The choice can be sent if it fits; the block sums were s when it was made. */
    ghost predicate Sendable(c: Choice, s: seq<SumBuf>, basis: bytes)
      reads this`lastMatch, this`tokens, fileSum
    {
      && Valid(basis) && lastMatch <= c.offset <= |job.file|
      && c.block < |s| && job.g.Len(c.block) > 0
      && (c.offset + job.g.Len(c.block) <= |job.file| ==> TokenOk(job, basis, Match(c.block), c.offset))
      && (job.updating ==> InPlaceSafe(job.g, tokens) && FlagsSkipped(job.g, s, tokens))
      && (job.updating ==> job.g.Offset(c.block) >= c.offset || s[c.block].sameOffset)
      && (c.flagged ==> c.offset == job.g.Offset(c.block))
    }

    /** What is known of the choice before anything is sent. */
    lemma ChosenOk(sums: array<SumBuf>, table: array<int>, wantI: nat, offset: nat, i: nat, basis: bytes)
      requires Searching(sums, table, offset, basis) == true && lastMatch <= offset < |job.file|
      requires i < sums.Length && Hit(job, sums[i], offset)
      ensures var c := Choose(job, sums[..], wantI, offset, i);
              && Sendable(c, sums[..], basis) == true && offset <= c.offset
              && c.block < sums.Length && (c.flagged ==> c.offset == job.g.Offset(c.block)) && job.g.Len(c.block) > 0
              && sums[c.block].len == job.g.Len(c.block)
              && ChainsOk(sums[..], table[..], c.offset, job.updating) == true
    {
      var s := sums[..];
      var c := Choose(job, s, wantI, offset, i);
      assert s[i] == sums[i];
      ChosenFits(s, wantI, offset, i, basis);
      ChainsAdvance(s, table[..], offset, c.offset, job.updating);
      assert s[c.block] == sums[c.block];
    }

    lemma ChosenFits(s: seq<SumBuf>, wantI: nat, offset: nat, i: nat, basis: bytes)
      requires job.g.Valid() && |basis| == job.g.Flength() && SumsOf(s, basis, job.g, job.strong, job.s2length)
      requires offset < |job.file| && i < |s| && Hit(job, s[i], offset)
      ensures var c := Choose(job, s, wantI, offset, i);
              && c.block < |s| && offset <= c.offset <= |job.file| && job.g.Len(c.block) > 0
              && (job.updating ==> job.g.Offset(c.block) >= c.offset || s[c.block].sameOffset)
              && (c.flagged ==> c.offset == job.g.Offset(c.block))
              && s[c.block].len == job.g.Len(c.block)
              && (c.offset + job.g.Len(c.block) <= |job.file| ==> TokenOk(job, basis, Match(c.block), c.offset) == true)
    {
      var c := Choose(job, s, wantI, offset, i);
      ChooseSafe(job, s, wantI, offset, i);
      job.g.BlockInside(c.block);
    }

    /** What goes on record. */
    lemma Picked(sums: array<SumBuf>, table: array<int>, p: Pick, basis: bytes)
      requires Searching(sums, table, p.offset, basis) == true && p.offset < |job.file| && p.sums == sums[..]
      requires p.hit < sums.Length && IsLastHit(job, p.sums, p.offset, p.hit)
      requires job.g.blength > 0 && p.choice == Choose(job, p.sums, p.wantI, p.offset, p.hit)
      ensures job.g.Valid() && |basis| == job.g.Flength() && PickOk(job, basis, p) == true && PicksOk(job, basis, picks)
      ensures SumsOf(sums[..], basis, job.g, job.strong, job.s2length) == true
      ensures FlagsAre(sums[..], Flagged(picks)) == true && Places(job.g, tokens) == PickPlaces(picks)
      ensures Searched(job, basis, picks, p.offset) == true && Behind(picks, p.offset)
    {
    }

    /** matched() for the chosen block, whose flag is already set. */
    method Deliver(sums: array<SumBuf>, table: array<int>, c: Choice, ghost s: seq<SumBuf>, ghost before: seq<Pick>,
                   ghost basis: bytes)
      requires Sendable(c, s, basis) == true && c.offset + job.g.Len(c.block) <= |job.file|
      requires Flagging(sums, table, c, s, basis) == true && PicksOk(job, basis, picks)
      requires Searched(job, basis, picks, c.offset + job.g.Len(c.block)) == true && Behind(picks, c.offset + job.g.Len(c.block))
      requires Places(job.g, tokens) == PickPlaces(before) && PickPlaces(picks) == PickPlaces(before) + [Place(c.offset, c.block)]
      modifies this`tokens, this`lastMatch, fileSum
      ensures lastMatch == c.offset + job.g.Len(c.block)
      ensures Searching(sums, table, lastMatch, basis) == true
    {
      FlaggedAre(sums, table, c, s, basis);
      SendChosen(c, s, sums[..], basis);
      InStep(sums, table, c.offset, basis);
    }

    lemma FlaggedAre(sums: array<SumBuf>, table: array<int>, c: Choice, s: seq<SumBuf>, basis: bytes)
      requires job.g.Valid() && |basis| == job.g.Flength() && Flagging(sums, table, c, s, basis) == true
      ensures SumsOf(sums[..], basis, job.g, job.strong, job.s2length) == true
      ensures ChainsOk(sums[..], table[..], c.offset, job.updating) == true && FlagsAre(sums[..], Flagged(picks)) == true
      ensures |s| == sums.Length && forall j :: 0 <= j < |s| && !(c.flagged && j == c.block) ==> sums[..][j].sameOffset == s[j].sameOffset
    {
    }

    /** After a match all is as it should be at the head of the loop. */
    lemma InStep(sums: array<SumBuf>, table: array<int>, offset: nat, basis: bytes)
      requires Valid(basis) == true && sums.Length > 0 && offset <= lastMatch
      requires SumsOf(sums[..], basis, job.g, job.strong, job.s2length) == true
      requires ChainsOk(sums[..], table[..], offset, job.updating) == true && FlagsAre(sums[..], Flagged(picks)) == true
      requires job.updating ==> InPlaceSafe(job.g, tokens) == true && FlagsSkipped(job.g, sums[..], tokens) == true
      requires PicksOk(job, basis, picks) && Places(job.g, tokens) == PickPlaces(picks)
      requires Searched(job, basis, picks, lastMatch) == true && Behind(picks, lastMatch)
      ensures Searching(sums, table, lastMatch, basis) == true
    {
      ChainsAdvance(sums[..], table[..], offset, lastMatch, job.updating);
    }

    method SendChosen(c: Choice, ghost s: seq<SumBuf>, ghost s': seq<SumBuf>, ghost basis: bytes)
      requires Sendable(c, s, basis) == true && c.offset + job.g.Len(c.block) <= |job.file|
      requires |s'| == |s| && forall j :: 0 <= j < |s| && !(c.flagged && j == c.block) ==> s'[j].sameOffset == s[j].sameOffset
      modifies this`tokens, this`lastMatch, fileSum
      ensures Valid(basis) == true && lastMatch == c.offset + job.g.Len(c.block)
      ensures job.updating ==> InPlaceSafe(job.g, tokens) == true && FlagsSkipped(job.g, s', tokens) == true
      ensures Places(job.g, tokens) == old(Places(job.g, tokens)) + [Place(c.offset, c.block)]
    {
      ghost var was := tokens;
      Matched(c.offset, c.block, basis);
      if job.updating {
        FlagsAfter(job.g, s, s', c, was, tokens);
      }
    }
  
    /** The sums of the window at offset, computed afresh. */
    method FreshSums(offset: nat) returns (k: nat, s1: int, s2: int)
      requires offset < |job.file|
      ensures Rolled(offset, k, s1, s2)
    {
      k := job.L(offset);
      var sum := GetChecksum1(job.W(offset));
      s1, s2 := sum % M16, sum / M16;
      Split(job.W(offset));
    }

    /** Trim the first byte off the window sums and add the next one, if any. */
    method Roll(offset: nat, k: nat, s1: int, s2: int) returns (k': nat, t1: int, t2: int)
      requires Rolled(offset, k, s1, s2) && job.g.blength > 0
      ensures offset + 1 < |job.file| ==> Rolled(offset + 1, k', t1, t2)
    {
      ghost var w := job.W(offset);
      NextWindow(offset, k);
      var more := offset + k < |job.file|;
      var first := job.file[offset];
      t1 := U32(s1 - (SChar(first) + CHAR_OFFSET));
      t2 := U32(s2 - k * (SChar(first) + CHAR_OFFSET));
      TrimByte(w, s1, s2);
      if more {
        ghost var u1, u2 := t1, t2;
        t1 := U32(t1 + (SChar(job.file[offset + k]) + CHAR_OFFSET));
        t2 := U32(t2 + t1);
        k' := k;
        AddByte(w[1..], job.file[offset + k], u1, u2);
      } else {
        k' := k - 1;
      }
    }

    lemma NextWindow(offset: nat, k: nat)
      requires offset < |job.file| && k == job.L(offset) && job.g.blength > 0
      ensures |job.W(offset)| == k > 0 && job.W(offset)[0] == job.file[offset]
      ensures if offset + k < |job.file| then
                job.W(offset + 1) == job.W(offset)[1..] + [job.file[offset + k]]
              else job.W(offset + 1) == job.W(offset)[1..]
    {
    }

    /** What holds at the head of the loop. */
    ghost predicate AtHead(sums: array<SumBuf>, table: array<int>, c: Cursor, basis: bytes)
      reads this, fileSum, sums, table
    {
      && Searching(sums, table, c.offset, basis) && lastMatch <= c.offset
      && Rolled(c.offset, c.k, c.s1, c.s2) && Aligned(c.ao, c.ai, c.offset)
      && c.wantI == Wanted(picks)
    }

    /** What holds at null_hash: the byte at the offset has been dealt with. */
    ghost predicate AtNullHash(sums: array<SumBuf>, table: array<int>, c: Cursor, next: nat, basis: bytes)
      reads this, fileSum, sums, table
    {
      && next == c.offset + 1 && Rolled(c.offset, c.k, c.s1, c.s2) && Aligned(c.ao, c.ai, c.offset)
      && Searching(sums, table, next, basis) == true && lastMatch <= next
      && c.wantI == Wanted(picks)
    }

    method Miss(sums: array<SumBuf>, table: array<int>, c: Cursor, ghost basis: bytes)
      requires AtHead(sums, table, c, basis) == true && IsLastHit(job, sums[..], c.offset, -1)
      ensures AtNullHash(sums, table, c, c.offset + 1, basis) == true
    {
      SearchedMiss(job, basis, picks, sums[..], c.offset);
      ChainsAdvance(sums[..], table[..], c.offset, c.offset + 1, job.updating);
    }

    /** Match and move to the last byte of the block. */
    method Found(sums: array<SumBuf>, table: array<int>, c: Cursor, i: nat, ghost basis: bytes)
      returns (ok: bool, c': Cursor, next: nat)
      requires AtHead(sums, table, c, basis) == true && i < sums.Length && IsLastHit(job, sums[..], c.offset, i)
      modifies this, fileSum, sums, table
      ensures job.g.Valid() && |basis| == job.g.Flength() && (!ok ==> Stopped(basis) == true)
      ensures ok ==> c.offset < next && AtNullHash(sums, table, c', next, basis) == true
    {
      var pick, ao, ai := PickBlock(sums, c.offset, i, c.wantI, c.ao, c.ai);
      ok, next := SendMatch(sums, table, c.offset, i, pick, c.wantI, basis);
      c' := c;
      if ok {
        c' := Resume(sums, table, next, pick.block + 1, ao, ai, basis);
      }
    }

    /** The cursor at the last byte of a block just sent. */
    method Resume(sums: array<SumBuf>, table: array<int>, next: nat, wantI: nat, ao: nat, ai: nat,
                  ghost basis: bytes) returns (c: Cursor)
      requires Searching(sums, table, next, basis) == true && lastMatch == next && 0 < next <= |job.file|
      requires Aligned(ao, ai, next - 1) && wantI == Wanted(picks)
      ensures AtNullHash(sums, table, c, next, basis) == true
    {
      var k, s1, s2 := FreshSums(next - 1);
      c := Cursor(next - 1, k, s1, s2, wantI, ao, ai);
    }

    /** The chain walk from the rolled sums, inside the loop. */
    method Walk(sums: array<SumBuf>, table: array<int>, c: Cursor, ghost basis: bytes) returns (i: int)
      requires job.g.Valid() && |basis| == job.g.Flength() && Indexed(sums[..], table[..], c.offset, basis)
      requires Rolled(c.offset, c.k, c.s1, c.s2)
      modifies sums, table
      ensures Indexed(sums[..], table[..], c.offset, basis) && IsLastHit(job, sums[..], c.offset, i)
    {
      Joined(job.W(c.offset), c.s1, c.s2);
      var sum := U32(c.s1 % M16 + c.s2 * M16);
      ghost var s := sums[..];
      i := WalkChain(job, sums, table, c.offset, sum);
      BlocksFrame(s, sums[..], basis, tokens, Flagged(picks));
    }

    method WalkHere(sums: array<SumBuf>, table: array<int>, c: Cursor, ghost basis: bytes) returns (i: int)
      requires AtHead(sums, table, c, basis) == true
      modifies sums, table
      ensures AtHead(sums, table, c, basis) == true && IsLastHit(job, sums[..], c.offset, i)
    {
      i := Walk(sums, table, c, basis);
    }

    /** One pass of the loop down to null_hash. */
    method SearchHere(sums: array<SumBuf>, table: array<int>, c: Cursor, ghost basis: bytes)
      returns (ok: bool, c': Cursor, next: nat)
      requires AtHead(sums, table, c, basis) == true
      modifies this, fileSum, sums, table
      ensures job.g.Valid() && |basis| == job.g.Flength() && (!ok ==> Stopped(basis) == true)
      ensures ok ==> c.offset < next && AtNullHash(sums, table, c', next, basis) == true
    {
      var i := WalkHere(sums, table, c, basis);
      if i >= 0 {
        ok, c', next := Found(sums, table, c, i, basis);
      } else {
        Miss(sums, table, c, basis);
        ok, c', next := true, c, c.offset + 1;
      }
    }

    /** Send literal data early when much of it is pending. */
    method SendPending(sums: array<SumBuf>, table: array<int>, offset: nat, ghost next: nat, end: int,
                       ghost basis: bytes)
      requires Searching(sums, table, next, basis) == true
      requires offset < next <= |job.file| && lastMatch <= next
      modifies this`tokens, this`lastMatch, fileSum
      ensures Searching(sums, table, next, basis) == true && lastMatch <= next
    {
      if offset - lastMatch >= job.g.blength + CHUNK_SIZE && end - offset > CHUNK_SIZE {
        ghost var before := tokens;
        Matched(offset - job.g.blength, -1, basis);
        if job.updating { FlagsExtend(job.g, sums[..], before, tokens); }
      }
    }

    /** From null_hash to the next offset. */
    method Advance(sums: array<SumBuf>, table: array<int>, c: Cursor, ghost next: nat, end: int, ghost basis: bytes)
      returns (c': Cursor)
      requires AtNullHash(sums, table, c, next, basis) == true
      modifies this`tokens, this`lastMatch, fileSum
      ensures c'.offset == next <= |job.file|
      ensures Searching(sums, table, c'.offset, basis) == true && lastMatch <= c'.offset
      ensures c'.offset < |job.file| ==> AtHead(sums, table, c', basis) == true
    {
      SendPending(sums, table, c.offset, next, end, basis);
      c' := RollOn(c, next);
    }

    method RollOn(c: Cursor, ghost next: nat) returns (c': Cursor)
      requires next == c.offset + 1 && Rolled(c.offset, c.k, c.s1, c.s2) && Aligned(c.ao, c.ai, c.offset) && job.g.blength > 0
      ensures c'.offset == next && c'.wantI == c.wantI && Aligned(c'.ao, c'.ai, next)
      ensures next < |job.file| ==> Rolled(next, c'.k, c'.s1, c'.s2)
    {
      var k, s1, s2 := Roll(c.offset, c.k, c.s1, c.s2);
      c' := Cursor(c.offset + 1, k, s1, s2, c.wantI, c.ao, c.ai);
    }

    /** One turn of the loop. */
    method SearchOn(sums: array<SumBuf>, table: array<int>, c: Cursor, end: int, ghost basis: bytes) returns (ok: bool, c': Cursor)
      requires AtHead(sums, table, c, basis) == true
      modifies this, fileSum, sums, table
      ensures job.g.Valid() && |basis| == job.g.Flength() && (!ok ==> Stopped(basis) == true)
      ensures ok ==> c.offset < c'.offset <= |job.file| && Searching(sums, table, c'.offset, basis) == true
      ensures ok ==> lastMatch <= c'.offset
      ensures ok && c'.offset < |job.file| ==> AtHead(sums, table, c', basis) == true
    {
      var next;
      ok, c', next := SearchHere(sums, table, c, basis);
      if ok {
        c' := Advance(sums, table, c', next, end, basis);
      }
    }

    /** hash_search.  It fails only when colliding sums made it pick a block
        that does not fit in the file. */
    method HashSearch(sums: array<SumBuf>, table: array<int>, ghost basis: bytes) returns (ok: bool)
      requires |job.file| > 0 && lastMatch == 0 && tokens == [] && picks == []
      requires Searching(sums, table, 0, basis) == true
      modifies this, fileSum, sums, table
      ensures job.updating ==> InPlaceSafe(job.g, tokens)
      ensures ok ==> Valid(basis) && lastMatch == |job.file| && Recorded(basis) && Searched(job, basis, picks, |job.file|) == true
      ensures !ok ==> PicksOk(job, basis, picks) && Overshot(job, picks)
    {
      job.g.BlockInside(sums.Length - 1);
      var k, s1, s2 := FreshSums(0);
      var c := Cursor(0, k, s1, s2, 0, 0, 0);
      var end := |job.file| + 1 - sums[sums.Length - 1].len;
      while true
        invariant AtHead(sums, table, c, basis) == true
        decreases |job.file| - c.offset
      {
        ok, c := SearchOn(sums, table, c, end, basis);
        if !ok {
          return;
        }
        if c.offset >= end {
          break;
        }
      }
      Finish(sums, table, c.offset, basis);
      ok := true;
    }

    /** The bytes after the last place a block could fit. */
    method Finish(ghost sums: array<SumBuf>, ghost table: array<int>, offset: nat, ghost basis: bytes)
      requires Searching(sums, table, offset, basis) == true && lastMatch <= offset <= |job.file|
      requires job.g.count > 0 && offset >= |job.file| + 1 - job.g.Len(job.g.count - 1)
      modifies this`tokens, this`lastMatch, fileSum
      ensures Valid(basis) && lastMatch == |job.file| && Recorded(basis) && Searched(job, basis, picks, |job.file|) == true
      ensures job.updating ==> InPlaceSafe(job.g, tokens)
    {
      SearchedTail(job, basis, picks, offset);
      Matched(|job.file|, -1, basis);
    }

    /** match_sums: the whole stream for one file, and its whole-file sum.  The
        choices made are on record.  A byte is sent literally only where no block
        may be matched or a re-alignment went over it.  When two equal sums mean equal bytes, the
        stream stands for the file if and only if none was a wrong turn. */
    method MatchSums(sums: array<SumBuf>, ghost basis: bytes) returns (ok: bool)
      requires lastMatch == 0 && tokens == [] && picks == [] && fileSum.Valid() && fileSum.fed == []
      requires job.g.Valid() && |basis| == job.g.Flength()
      requires SumsOf(sums[..], basis, job.g, job.strong, job.s2length)
      requires forall j :: 0 <= j < sums.Length ==> !sums[j].sameOffset
      modifies this, fileSum, sums
      ensures job.updating ==> InPlaceSafe(job.g, tokens)
      ensures PicksOk(job, basis, picks) && (!ok ==> Overshot(job, picks))
      ensures ok ==> && AllOk(job, basis, tokens) && OutLen(job.g, tokens) == |job.file|
                     && Places(job.g, tokens) == PickPlaces(picks) && LiteralsForced(job, basis, tokens, picks)
                     && fileSum.Valid() && fileSum.fed == job.file
      ensures NoCollision(job.file, basis, job.g, job.strong, job.s2length) ==>
                (ok && WellFormed(job.g, tokens) && Replay(basis, job.g, tokens) == job.file <==> NoneMisfired(job, picks))
    {
      ok := SendStream(sums, basis);
      if ok { LiteralsAre(job, basis, tokens, picks); }
      if NoCollision(job.file, basis, job.g, job.strong, job.s2length) {
        RunExact(job, basis, tokens, picks, ok);
      }
    }

    method SendStream(sums: array<SumBuf>, ghost basis: bytes) returns (ok: bool)
      requires lastMatch == 0 && tokens == [] && picks == [] && fileSum.Valid() && fileSum.fed == []
      requires job.g.Valid() && |basis| == job.g.Flength()
      requires SumsOf(sums[..], basis, job.g, job.strong, job.s2length)
      requires forall j :: 0 <= j < sums.Length ==> !sums[j].sameOffset
      modifies this, fileSum, sums
      ensures job.updating ==> InPlaceSafe(job.g, tokens)
      ensures PicksOk(job, basis, picks) && (!ok ==> Overshot(job, picks))
      ensures ok ==> && AllOk(job, basis, tokens) && OutLen(job.g, tokens) == |job.file|
                     && Places(job.g, tokens) == PickPlaces(picks) && Searched(job, basis, picks, |job.file|) == true
                     && fileSum.Valid() && fileSum.fed == job.file
    {
      if |job.file| > 0 && sums.Length > 0 {
        ghost var s := sums[..];
        var table := BuildHashTable(sums, job.updating);
        BlocksFrame(s, sums[..], basis, tokens, {});
        ok := HashSearch(sums, table, basis);
      } else {
        SendAll(basis);
        SearchedTail(job, basis, picks, 0);
        ok := true;
      }
      assert ok ==> job.file[..lastMatch] == job.file;
    }

    /** No block sums: everything is literal, sent in chunks. */
    method SendAll(ghost basis: bytes)
      requires lastMatch == 0 && Valid(basis) && (|job.file| == 0 || job.g.count == 0) && InPlaceSafe(job.g, tokens)
      modifies this`tokens, this`lastMatch, fileSum
      ensures Valid(basis) && lastMatch == |job.file| && Places(job.g, tokens) == old(Places(job.g, tokens))
      ensures job.updating ==> InPlaceSafe(job.g, tokens)
    {
      var j := CHUNK_SIZE;
      while j < |job.file|
        invariant Valid(basis) && lastMatch <= j && Places(job.g, tokens) == old(Places(job.g, tokens))
        invariant job.updating ==> InPlaceSafe(job.g, tokens)
      {
        Matched(j, -1, basis);
        j := j + CHUNK_SIZE;
      }
      Matched(|job.file|, -1, basis);
    }

    /** Links matter neither to the sums nor to the flags. */
    lemma BlocksFrame(a: seq<SumBuf>, b: seq<SumBuf>, basis: bytes, ts: seq<Token>, flagged: set<nat>)
      requires job.g.Valid() && |basis| == job.g.Flength() && SameBlocks(a, b)
      requires SumsOf(a, basis, job.g, job.strong, job.s2length)
      ensures SumsOf(b, basis, job.g, job.strong, job.s2length)
      ensures FlagsSkipped(job.g, a, ts) ==> FlagsSkipped(job.g, b, ts)
      ensures FlagsAre(a, flagged) ==> FlagsAre(b, flagged)
    {
      forall j | 0 <= j < |a| ensures a[j].offset == b[j].offset && a[j].len == b[j].len
                                      && a[j].sum1 == b[j].sum1 && a[j].sum2 == b[j].sum2
                                      && a[j].sameOffset == b[j].sameOffset {
        assert a[j].(chain := 0) == b[j].(chain := 0);
      }
    }
  }
}

/** The stable merge sort of rsync/flist.c, which merges in place with a
    temporary array of half the size. */
module FileSort {

  type Compare<!T> = (T, T) -> int

  /** What fsort relies on f_name_cmp for. */
  ghost predicate TotalPreorder<T(!new)>(cmp: Compare<T>) {
    && (forall x, y :: cmp(x, y) <= 0 || cmp(y, x) <= 0)
    && (forall x, y :: cmp(x, y) <= 0 <==> cmp(y, x) >= 0)
    && (forall x, y, z {:trigger Chain(x, y, z)} :: Chain(x, y, z) && cmp(x, y) <= 0 && cmp(y, z) <= 0 ==> cmp(x, z) <= 0)
  }

  /** Always true: it names the chains along which a proof uses transitivity. */
  predicate Chain<T>(x: T, y: T, z: T) { true }

  // ----- the specification: merging sequences -----

  function Merge<T>(l: seq<T>, r: seq<T>, cmp: Compare<T>): seq<T>
    decreases |l| + |r|
  {
    if l == [] then r
    else if r == [] then l
    else if cmp(l[0], r[0]) <= 0 then [l[0]] + Merge(l[1..], r, cmp)
    else [r[0]] + Merge(l, r[1..], cmp)
  }

  predicate Sorted<T>(s: seq<T>, cmp: Compare<T>) {
    forall i, j :: 0 <= i < j < |s| ==> cmp(s[i], s[j]) <= 0
  }

  /** The elements that compare equal to x, in their order. */
  function Class<T>(s: seq<T>, x: T, cmp: Compare<T>): seq<T> {
    if s == [] then []
    else if cmp(x, s[0]) == 0 then [s[0]] + Class(s[1..], x, cmp)
    else Class(s[1..], x, cmp)
  }

  lemma MultisetCons<T>(x: T, s: seq<T>)
    ensures multiset([x] + s) == multiset{x} + multiset(s)
  {
  }

  lemma MultisetHead<T>(s: seq<T>)
    requires s != []
    ensures multiset(s) == multiset{s[0]} + multiset(s[1..])
  {
    assert s == [s[0]] + s[1..];
  }

  lemma {:induction false} MergePermutes<T>(l: seq<T>, r: seq<T>, cmp: Compare<T>)
    ensures multiset(Merge(l, r, cmp)) == multiset(l) + multiset(r)
    decreases |l| + |r|
  {
    if l != [] && r != [] {
      if cmp(l[0], r[0]) <= 0 {
        MergePermutes(l[1..], r, cmp);
        MultisetHead(l);
        MultisetCons(l[0], Merge(l[1..], r, cmp));
      } else {
        MergePermutes(l, r[1..], cmp);
        MultisetHead(r);
        MultisetCons(r[0], Merge(l, r[1..], cmp));
      }
    }
  }

  lemma SortedCons<T(!new)>(x: T, s: seq<T>, cmp: Compare<T>)
    requires Sorted(s, cmp) && forall y <- s :: cmp(x, y) <= 0
    ensures Sorted([x] + s, cmp)
  {
  }

  lemma SortedHead<T(!new)>(s: seq<T>, x: T, cmp: Compare<T>)
    requires TotalPreorder(cmp) && Sorted(s, cmp) && s != [] && cmp(x, s[0]) <= 0
    ensures forall y <- s :: cmp(x, y) <= 0
  {
    forall y | y in s ensures cmp(x, y) <= 0 {
      var i :| 0 <= i < |s| && s[i] == y;
      assert Chain(x, s[0], y);
    }
  }

  lemma MergeMembers<T(!new)>(l: seq<T>, r: seq<T>, cmp: Compare<T>)
    ensures forall y <- Merge(l, r, cmp) :: y in l || y in r
  {
    MergePermutes(l, r, cmp);
    forall y | y in Merge(l, r, cmp) ensures y in l || y in r {
      assert y in multiset(Merge(l, r, cmp));
    }
  }

  lemma {:induction false} MergeSorts<T(!new)>(l: seq<T>, r: seq<T>, cmp: Compare<T>)
    requires TotalPreorder(cmp) && Sorted(l, cmp) && Sorted(r, cmp)
    ensures Sorted(Merge(l, r, cmp), cmp)
    decreases |l| + |r|
  {
    if l != [] && r != [] {
      if cmp(l[0], r[0]) <= 0 {
        MergeSorts(l[1..], r, cmp);
        MergeMembers(l[1..], r, cmp);
        SortedHead(l, l[0], cmp);
        SortedHead(r, l[0], cmp);
        SortedCons(l[0], Merge(l[1..], r, cmp), cmp);
      } else {
        MergeSorts(l, r[1..], cmp);
        MergeMembers(l, r[1..], cmp);
        SortedHead(l, r[0], cmp);
        SortedHead(r, r[0], cmp);
        SortedCons(r[0], Merge(l, r[1..], cmp), cmp);
      }
    }
  }

  lemma {:induction false} ClassEmpty<T(!new)>(s: seq<T>, x: T, cmp: Compare<T>)
    requires forall y <- s :: cmp(x, y) != 0
    ensures Class(s, x, cmp) == []
  {
    if s != [] {
      assert s[0] in s;
      ClassEmpty(s[1..], x, cmp);
    }
  }

  lemma Above<T(!new)>(head: T, z: T, x: T, y: T, cmp: Compare<T>)
    requires TotalPreorder(cmp) && cmp(head, z) <= 0 && cmp(head, y) > 0 && cmp(x, y) == 0
    ensures cmp(x, z) != 0
  {
    assert Chain(head, z, x) && Chain(head, x, y);
  }

  /** Nothing in a sorted list is equal to something below its head. */
  lemma AllAbove<T(!new)>(s: seq<T>, y: T, x: T, cmp: Compare<T>)
    requires TotalPreorder(cmp) && Sorted(s, cmp) && s != [] && cmp(s[0], y) > 0 && cmp(x, y) == 0
    ensures Class(s, x, cmp) == []
  {
    assert cmp(s[0], s[0]) <= 0;
    SortedHead(s, s[0], cmp);
    forall z | z in s ensures cmp(x, z) != 0 {
      Above(s[0], z, x, y, cmp);
    }
    ClassEmpty(s, x, cmp);
  }

  /** The first element equal to x heads its class. */
  lemma {:induction false} ClassHead<T(!new)>(s: seq<T>, x: T, r: nat, cmp: Compare<T>)
    requires r < |s| && cmp(x, s[r]) == 0 && forall k :: 0 <= k < r ==> cmp(x, s[k]) != 0
    ensures var c := Class(s, x, cmp); c != [] && c[0] == s[r]
    decreases r
  {
    if r > 0 {
      assert forall k :: 0 <= k < r - 1 ==> s[1..][k] == s[k + 1];
      ClassHead(s[1..], x, r - 1, cmp);
    }
  }

  lemma ClassCons<T>(y: T, s: seq<T>, x: T, cmp: Compare<T>)
    ensures Class([y] + s, x, cmp) == if cmp(x, y) == 0 then [y] + Class(s, x, cmp) else Class(s, x, cmp)
  {
    assert ([y] + s)[1..] == s;
  }

  lemma ConsAppend<T>(y: T, a: seq<T>, b: seq<T>)
    ensures [y] + (a + b) == [y] + a + b
  {
  }

  /** Merging keeps each class of equals in order, left before right. */
  lemma {:induction false} MergeStable<T(!new)>(l: seq<T>, r: seq<T>, x: T, cmp: Compare<T>)
    requires TotalPreorder(cmp) && Sorted(l, cmp) && Sorted(r, cmp)
    ensures Class(Merge(l, r, cmp), x, cmp) == Class(l, x, cmp) + Class(r, x, cmp)
    decreases |l| + |r|
  {
    if l != [] && r != [] {
      if cmp(l[0], r[0]) <= 0 {
        MergeStable(l[1..], r, x, cmp);
        StableLeft(l, r, x, cmp);
      } else {
        MergeStable(l, r[1..], x, cmp);
        if cmp(x, r[0]) == 0 { AllAbove(l, r[0], x, cmp); }
        StableRight(l, r, x, cmp);
      }
    }
  }

  lemma StableLeft<T>(l: seq<T>, r: seq<T>, x: T, cmp: Compare<T>)
    requires l != [] && r != [] && cmp(l[0], r[0]) <= 0
    requires Class(Merge(l[1..], r, cmp), x, cmp) == Class(l[1..], x, cmp) + Class(r, x, cmp)
    ensures Class(Merge(l, r, cmp), x, cmp) == Class(l, x, cmp) + Class(r, x, cmp)
  {
    ClassCons(l[0], Merge(l[1..], r, cmp), x, cmp);
    ConsAppend(l[0], Class(l[1..], x, cmp), Class(r, x, cmp));
  }

  lemma StableRight<T>(l: seq<T>, r: seq<T>, x: T, cmp: Compare<T>)
    requires l != [] && r != [] && cmp(l[0], r[0]) > 0 && (cmp(x, r[0]) == 0 ==> Class(l, x, cmp) == [])
    requires Class(Merge(l, r[1..], cmp), x, cmp) == Class(l, x, cmp) + Class(r[1..], x, cmp)
    ensures Class(Merge(l, r, cmp), x, cmp) == Class(l, x, cmp) + Class(r, x, cmp)
  {
    ClassCons(r[0], Merge(l, r[1..], cmp), x, cmp);
    if cmp(x, r[0]) == 0 {
      EmptyLeft(Class(r[1..], x, cmp));
      EmptyLeft(Class(r, x, cmp));
    }
  }

  lemma EmptyLeft<T>(s: seq<T>)
    ensures [] + s == s
  {
  }

  lemma {:induction false} ClassAppend<T>(a: seq<T>, b: seq<T>, x: T, cmp: Compare<T>)
    ensures Class(a + b, x, cmp) == Class(a, x, cmp) + Class(b, x, cmp)
    decreases |a|
  {
    if a == [] {
      assert a + b == b;
    } else {
      ClassAppend(a[1..], b, x, cmp);
      ClassCons(a[0], a[1..] + b, x, cmp);
      assert a + b == [a[0]] + (a[1..] + b);
      ConsAppend(a[0], Class(a[1..], x, cmp), Class(b, x, cmp));
    }
  }

  /** now is was with a stretch rearranged, and that stably.  (Contracts say
      == true where the proof should take this as a whole.) */
  ghost predicate Rearranged<T(!new)>(was: seq<T>, now: seq<T>, lo: nat, hi: nat, cmp: Compare<T>) {
    && lo <= hi <= |was| && KeptOutside(was, now, lo, hi)
    && SameOrder(was[lo..hi], now[lo..hi], cmp)
  }

  /** The same elements, those that compare equal in the same order. */
  ghost predicate SameOrder<T(!new)>(a: seq<T>, b: seq<T>, cmp: Compare<T>) {
    multiset(a) == multiset(b) && forall x :: Class(a, x, cmp) == Class(b, x, cmp)
  }

  /** Nothing outside lo .. hi-1 changed. */
  ghost predicate KeptOutside<T>(was: seq<T>, now: seq<T>, lo: nat, hi: nat) {
    |now| == |was| && forall k :: 0 <= k < |was| && (k < lo || hi <= k) ==> now[k] == was[k]
  }

  /** What merging two sorted lists achieves. */
  lemma MergeCorrect<T(!new)>(l: seq<T>, r: seq<T>, cmp: Compare<T>)
    requires TotalPreorder(cmp) && Sorted(l, cmp) && Sorted(r, cmp)
    ensures Sorted(Merge(l, r, cmp), cmp) && SameOrder(l + r, Merge(l, r, cmp), cmp)
  {
    MergeSorts(l, r, cmp);
    MergePermutes(l, r, cmp);
    forall x ensures Class(l + r, x, cmp) == Class(Merge(l, r, cmp), x, cmp) {
      MergeStable(l, r, x, cmp);
      ClassAppend(l, r, x, cmp);
    }
  }

  lemma SameOrderAppend<T(!new)>(a: seq<T>, b: seq<T>, a': seq<T>, b': seq<T>, cmp: Compare<T>)
    requires SameOrder(a, a', cmp) && SameOrder(b, b', cmp)
    ensures SameOrder(a + b, a' + b', cmp)
  {
    forall x ensures Class(a + b, x, cmp) == Class(a' + b', x, cmp) {
      ClassAppend(a, b, x, cmp);
      ClassAppend(a', b', x, cmp);
    }
  }

  /** Rearranging two adjacent stretches rearranges them both. */
  lemma RearrangedBoth<T(!new)>(s0: seq<T>, s1: seq<T>, s2: seq<T>, lo: nat, mid: nat, hi: nat, cmp: Compare<T>)
    requires Rearranged(s0, s1, lo, mid, cmp) == true && Rearranged(s1, s2, mid, hi, cmp) == true
    ensures Rearranged(s0, s2, lo, hi, cmp) == true && s2[lo..mid] == s1[lo..mid]
  {
    assert s0[lo..hi] == s0[lo..mid] + s0[mid..hi] && s2[lo..hi] == s2[lo..mid] + s2[mid..hi];
    assert s2[lo..mid] == s1[lo..mid] && s1[mid..hi] == s0[mid..hi];
    SameOrderAppend(s0[lo..mid], s0[mid..hi], s2[lo..mid], s2[mid..hi], cmp);
  }

  lemma RearrangedTrans<T(!new)>(s0: seq<T>, s1: seq<T>, s2: seq<T>, lo: nat, hi: nat, cmp: Compare<T>)
    requires Rearranged(s0, s1, lo, hi, cmp) == true && Rearranged(s1, s2, lo, hi, cmp) == true
    ensures Rearranged(s0, s2, lo, hi, cmp) == true
  {
  }

  // ----- in place -----

  /** The first loop of the merge: elements of the left half that stay. */
  method SkipLow<T>(fp: array<T>, lo: nat, mid: nat, hi: nat, cmp: Compare<T>) returns (f1: nat)
    requires lo < mid < hi <= fp.Length
    ensures lo <= f1 <= mid && (f1 < mid ==> cmp(fp[f1], fp[mid]) > 0)
    ensures Pending(fp[..], lo, f1, fp[..][f1..mid], mid, hi, cmp) == Merge(fp[..][lo..mid], fp[..][mid..hi], cmp)
  {
    f1 := lo;
    ghost var s := fp[..];
    assert s[lo..lo] == [];
    while f1 < mid && cmp(fp[f1], fp[mid]) <= 0
      invariant lo <= f1 <= mid
      invariant Pending(s, lo, f1, s[f1..mid], mid, hi, cmp) == Merge(s[lo..mid], s[mid..hi], cmp)
    {
      assert s[f1..mid][1..] == s[f1 + 1..mid] && s[f1 := s[f1]] == s;
      PendingLeft(s, lo, f1, s[f1..mid], mid, hi, cmp);
      f1 := f1 + 1;
    }
  }

  lemma TakeLeft<T>(done: seq<T>, l: seq<T>, r: seq<T>, cmp: Compare<T>)
    requires l != [] && r != [] && cmp(l[0], r[0]) <= 0
    ensures done + [l[0]] + Merge(l[1..], r, cmp) == done + Merge(l, r, cmp)
  {
  }

  lemma TakeRight<T>(done: seq<T>, l: seq<T>, r: seq<T>, cmp: Compare<T>)
    requires l != [] && r != [] && cmp(l[0], r[0]) > 0
    ensures done + [r[0]] + Merge(l, r[1..], cmp) == done + Merge(l, r, cmp)
  {
  }

  /** The part of fp that is merged so far, with what is left to merge. */
  ghost function Pending<T>(fp: seq<T>, start: nat, f1: nat, l: seq<T>, f2: nat, hi: nat, cmp: Compare<T>): seq<T>
    requires start <= f1 <= |fp| && f2 <= hi <= |fp|
  {
    fp[start..f1] + Merge(l, fp[f2..hi], cmp)
  }

  /** Writing an element of tmp where the gap is. */
  lemma PendingLeft<T>(fp: seq<T>, start: nat, f1: nat, l: seq<T>, f2: nat, hi: nat, cmp: Compare<T>)
    requires start <= f1 < f2 < hi <= |fp| && l != [] && cmp(l[0], fp[f2]) <= 0
    ensures Pending(fp[f1 := l[0]], start, f1 + 1, l[1..], f2, hi, cmp) == Pending(fp, start, f1, l, f2, hi, cmp)
  {
    var fp' := fp[f1 := l[0]];
    assert fp'[start..f1 + 1] == fp[start..f1] + [l[0]] && fp'[f2..hi] == fp[f2..hi];
    TakeLeft(fp[start..f1], l, fp[f2..hi], cmp);
  }

  /** Writing an element of the right half there. */
  lemma PendingRight<T>(fp: seq<T>, start: nat, f1: nat, l: seq<T>, f2: nat, hi: nat, cmp: Compare<T>)
    requires start <= f1 < f2 < hi <= |fp| && l != [] && cmp(l[0], fp[f2]) > 0
    ensures Pending(fp[f1 := fp[f2]], start, f1 + 1, l, f2 + 1, hi, cmp) == Pending(fp, start, f1, l, f2, hi, cmp)
  {
    var fp' := fp[f1 := fp[f2]];
    assert fp'[start..f1 + 1] == fp[start..f1] + [fp[f2]] && fp'[f2 + 1..hi] == fp[f2 + 1..hi];
    assert fp[f2..hi][1..] == fp[f2 + 1..hi];
    TakeRight(fp[start..f1], l, fp[f2..hi], cmp);
  }

  /** After the first loop, with the rest of the left half saved in tmp: the
      head of the right half is known to come first. */
  method MergeRest<T>(fp: array<T>, start: nat, mid: nat, hi: nat, tmp: array<T>, cmp: Compare<T>, ghost whole: seq<T>)
    requires start < mid < hi <= fp.Length && tmp != fp && mid - start <= tmp.Length
    requires tmp[..][..mid - start] == fp[..][start..mid] && cmp(fp[start], fp[mid]) > 0
    requires whole == Merge(fp[..][start..mid], fp[..][mid..hi], cmp)
    modifies fp
    ensures fp[..][start..hi] == whole
    ensures KeptOutside(old(fp[..]), fp[..], start, hi)
  {
    ghost var (was, t, m) := (fp[..], tmp[..], mid - start);
    assert t[0..m] == was[start..mid] && was[start..start] == [];
    assert t[0..m][0] == was[start..mid][0];
    PendingRight(was, start, start, t[0..m], mid, hi, cmp);
    fp[start] := fp[mid];
    assert fp[..] == was[start := was[mid]];
    MergeLoop(fp, start, mid, hi, tmp, cmp, whole);
  }

  /** The second loop: tmp[q..m] is left of the left half, and between f1 and
      f2 there is always just room for it. */
  method MergeLoop<T>(fp: array<T>, start: nat, mid: nat, hi: nat, tmp: array<T>, cmp: Compare<T>, ghost whole: seq<T>)
    requires start < mid < hi <= fp.Length && tmp != fp && mid - start <= tmp.Length
    requires Pending(fp[..], start, start + 1, tmp[..][0..mid - start], mid + 1, hi, cmp) == whole
    modifies fp
    ensures fp[..][start..hi] == whole
    ensures KeptOutside(old(fp[..]), fp[..], start, hi)
  {
    var m := mid - start;
    ghost var t := tmp[..];
    var f1: nat, f2: nat, q: nat := start + 1, mid + 1, 0;
    while q < m && f2 < hi
      invariant q <= m && start <= f1 && f2 <= hi && f1 + (m - q) == f2
      invariant Pending(fp[..], start, f1, t[q..m], f2, hi, cmp) == whole
      invariant KeptOutside(old(fp[..]), fp[..], start, hi)
      decreases m - q + hi - f2
    {
      q, f2 := MergeOne(fp, start, f1, f2, hi, tmp, q, m, cmp);
      f1 := f1 + 1;
    }
    PendingEnd(fp[..], start, f1, t[q..m], f2, hi, cmp);
    if q < m {
      CopyBack(fp, start, f1, hi, tmp, q, m);
    }
  }

  /** One side has run out. */
  lemma PendingEnd<T>(s: seq<T>, start: nat, f1: nat, l: seq<T>, f2: nat, hi: nat, cmp: Compare<T>)
    requires start <= f1 <= f2 <= hi <= |s| && f2 - f1 == |l|
    ensures f2 == hi ==> Pending(s, start, f1, l, f2, hi, cmp) == s[start..f1] + l
    ensures l == [] ==> Pending(s, start, f1, l, f2, hi, cmp) == s[start..hi]
  {
    assert f2 == hi ==> s[f2..hi] == [];
    assert s[start..f1] + s[f1..hi] == s[start..hi];
  }

  /** One turn of that loop. */
  method MergeOne<T>(fp: array<T>, start: nat, f1: nat, f2: nat, hi: nat, tmp: array<T>, q: nat, m: nat, cmp: Compare<T>)
    returns (q': nat, f2': nat)
    requires tmp != fp && q < m <= tmp.Length && start <= f1 < f2 < hi <= fp.Length
    modifies fp
    ensures KeptOutside(old(fp[..]), fp[..], f1, f1 + 1)
    ensures (q' == q + 1 && f2' == f2) || (q' == q && f2' == f2 + 1)
    ensures Pending(fp[..], start, f1 + 1, tmp[..][q'..m], f2', hi, cmp) == Pending(old(fp[..]), start, f1, tmp[..][q..m], f2, hi, cmp)
  {
    ghost var (was, t) := (fp[..], tmp[..]);
    assert t[q..m][1..] == t[q + 1..m];
    q', f2' := q, f2;
    if cmp(tmp[q], fp[f2]) <= 0 {
      PendingLeft(was, start, f1, t[q..m], f2, hi, cmp);
      fp[f1] := tmp[q];
      q' := q + 1;
      assert fp[..] == was[f1 := t[q]];
    } else {
      PendingRight(was, start, f1, t[q..m], f2, hi, cmp);
      fp[f1] := fp[f2];
      f2' := f2 + 1;
      assert fp[..] == was[f1 := was[f2]];
    }
  }

  /** The closing memcpy fills the gap exactly. */
  method CopyBack<T>(fp: array<T>, start: nat, f1: nat, hi: nat, tmp: array<T>, q: nat, m: nat)
    requires tmp != fp && q <= m <= tmp.Length && start <= f1 <= hi <= fp.Length && f1 + (m - q) == hi
    modifies fp
    ensures fp[..][start..hi] == old(fp[..])[start..f1] + tmp[..][q..m] && KeptOutside(old(fp[..]), fp[..], f1, hi)
  {
    forall i | 0 <= i < m - q { fp[f1 + i] := tmp[q + i]; }
    assert fp[..][f1..hi] == tmp[..][q..m];
  }

  /** The merge of two adjacent stretches of fp. */
  method MergeHalves<T>(fp: array<T>, lo: nat, mid: nat, hi: nat, tmp: array<T>, cmp: Compare<T>)
    requires lo < mid < hi <= fp.Length && tmp != fp && mid - lo <= tmp.Length
    modifies fp, tmp
    ensures fp[..][lo..hi] == Merge(old(fp[..])[lo..mid], old(fp[..])[mid..hi], cmp)
    ensures KeptOutside(old(fp[..]), fp[..], lo, hi)
  {
    ghost var was := fp[..];
    var f1 := SkipLow(fp, lo, mid, hi, cmp);
    if f1 == mid {
      assert was[f1..mid] == [];
      assert was[lo..hi] == was[lo..mid] + was[mid..hi];
      return;
    }
    forall i | 0 <= i < mid - f1 { tmp[i] := fp[f1 + i]; }
    assert fp[..] == was && tmp[..][..mid - f1] == was[f1..mid];
    MergeRest(fp, f1, mid, hi, tmp, cmp, Merge(was[f1..mid], was[mid..hi], cmp));
    assert fp[..][lo..hi] == was[lo..f1] + fp[..][f1..hi];
  }

  /** The merge at the end of fsort_tmp, whose halves the calls before have
      sorted. */
  method MergeSorted<T(!new)>(fp: array<T>, lo: nat, mid: nat, hi: nat, tmp: array<T>, cmp: Compare<T>, ghost was: seq<T>)
    requires lo < mid < hi <= fp.Length && tmp != fp && mid - lo <= tmp.Length && TotalPreorder(cmp)
    requires Sorted(fp[..][lo..mid], cmp) && Sorted(fp[..][mid..hi], cmp) && Rearranged(was, fp[..], lo, hi, cmp) == true
    modifies fp, tmp
    ensures Sorted(fp[..][lo..hi], cmp) && Rearranged(was, fp[..], lo, hi, cmp) == true
  {
    ghost var halves := fp[..];
    ghost var (l, r) := (halves[lo..mid], halves[mid..hi]);
    assert halves[lo..hi] == l + r;
    MergeCorrect(l, r, cmp);
    MergeHalves(fp, lo, mid, hi, tmp, cmp);
    assert Rearranged(halves, fp[..], lo, hi, cmp);
    RearrangedTrans(was, halves, fp[..], lo, hi, cmp);
  }

  /** fsort_tmp on the num elements from lo, with half as many spare slots. */
  method FSortTmp<T(!new)>(fp: array<T>, lo: nat, num: nat, tmp: array<T>, cmp: Compare<T>)
    requires num >= 2 && lo + num <= fp.Length && tmp != fp && num / 2 <= tmp.Length && TotalPreorder(cmp)
    modifies fp, tmp
    ensures Sorted(fp[..][lo..lo + num], cmp) && Rearranged(old(fp[..]), fp[..], lo, lo + num, cmp) == true
    decreases num, 1
  {
    ghost var was := fp[..];
    SortHalves(fp, lo, num, tmp, cmp);
    MergeSorted(fp, lo, lo + num / 2, lo + num, tmp, cmp, was);
  }

  method SortHalves<T(!new)>(fp: array<T>, lo: nat, num: nat, tmp: array<T>, cmp: Compare<T>)
    requires num >= 2 && lo + num <= fp.Length && tmp != fp && num / 2 <= tmp.Length && TotalPreorder(cmp)
    modifies fp, tmp
    ensures Sorted(fp[..][lo..lo + num / 2], cmp) && Sorted(fp[..][lo + num / 2..lo + num], cmp)
    ensures Rearranged(old(fp[..]), fp[..], lo, lo + num, cmp) == true
    decreases num, 0
  {
    var mid := lo + num / 2;
    ghost var s0 := fp[..];
    SortHalf(fp, lo, num / 2, tmp, cmp);
    ghost var s1 := fp[..];
    SortHalf(fp, mid, num - num / 2, tmp, cmp);
    RearrangedBoth(s0, s1, fp[..], lo, mid, lo + num, cmp);
  }

  /** One of the two recursive calls: a half of one element needs none. */
  method SortHalf<T(!new)>(fp: array<T>, lo: nat, n: nat, tmp: array<T>, cmp: Compare<T>)
    requires lo + n <= fp.Length && tmp != fp && n / 2 <= tmp.Length && TotalPreorder(cmp)
    modifies fp, tmp
    ensures Sorted(fp[..][lo..lo + n], cmp) && Rearranged(old(fp[..]), fp[..], lo, lo + n, cmp) == true
    decreases n, 2
  {
    if n > 1 {
      FSortTmp(fp, lo, n, tmp, cmp);
    }
  }

  /** fsort without use_qsort: the whole list comes out sorted, with the same
      elements, and those that compare equal stay in order. */
  method FSort<T(!new)>(fp: array<T>, cmp: Compare<T>)
    requires TotalPreorder(cmp)
    modifies fp
    ensures Sorted(fp[..], cmp) && SameOrder(old(fp[..]), fp[..], cmp)
  {
    if fp.Length <= 1 {
      return;
    }
    var first := fp[0];
    ghost var was := fp[..];
    var tmp := new T[(fp.Length + 1) / 2](_ => first);
    FSortTmp(fp, 0, fp.Length, tmp, cmp);
    assert was[0..|was|] == was && fp[..][0..|was|] == fp[..];
  }
}

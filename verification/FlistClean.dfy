/** flist_sort_and_clean of rsync/flist.c on the receiving side, protocol 29
    and later: sort the list and remove duplicate names. */
module FlistClean {
  import opened Wrappers
  import opened FNameCmp
  import opened FlistFind
  import FileSort

  /** A directory and a non-directory both called ".", which sort the other
      way round from all other names. */
  predicate DotClash(a: Entry, b: Entry) { a.IsDot() && a.dirname.None? && !b.isDir && b.dirname.None? && b.basename == [DOT] }

  /** r may stand in the list for e: the same name, and a directory for a
      non-directory but never the reverse. */
  predicate Stands(r: Entry, e: Entry) {
    r.FullName() == e.FullName() && (r.isDir == e.isDir || (r.isDir && !r.IsDot()))
  }

  /** No two live entries before i share a full name, "." apart. */
  predicate Unique(s: seq<Slot>, i: int) {
    forall a, b :: 0 <= a < b < i && b < |s| && Live(s, a) && Live(s, b) && s[a].entry.FullName() == s[b].entry.FullName()
      ==> DotClash(s[a].entry, s[b].entry)
  }

  predicate HasStandIn(s: seq<Slot>, e: Entry, i: int) {
    exists r :: 0 <= r < |s| && r < i && Live(s, r) && Stands(s[r].entry, e)
  }

  /** Every name before i still has a live entry. */
  predicate Covered(was: seq<Slot>, s: seq<Slot>, i: int) {
    forall k {:trigger HasStandIn(s, was[k].entry, i)} ::
      0 <= k < |was| && k < i && Live(was, k) ==> HasStandIn(s, was[k].entry, i)
  }

  /** Place r is the first of its kind in the list that was sorted. */
  predicate Foremost(was: seq<Slot>, r: int)
    requires 0 <= r < |was|
  {
    forall k :: 0 <= k < r && Live(was, k) ==> Compare(was[k].entry, was[r].entry) != 0
  }

  predicate Earliest(was: seq<Slot>, s: seq<Slot>, i: int)
    requires |s| == |was|
  {
    forall r :: 0 <= r < |s| && r < i && Live(s, r) ==> Foremost(was, r)
  }

  /** Entries are only ever cleared. */
  predicate OnlyCleared(was: seq<Slot>, s: seq<Slot>) {
    |s| == |was| && forall k :: 0 <= k < |s| ==> s[k].entry == was[k].entry || !Live(s, k)
  }

  ghost predicate Sane(s: seq<Slot>) { LinksOk(s) && InOrder(s) && AllWf(s) }

  /** low and high are live, and nothing outside them is. */
  predicate Bounds(s: seq<Slot>, low: int, high: int) {
    0 <= low <= high < |s| && Live(s, low) && Live(s, high) && Dead(s, 0, low) && Dead(s, high + 1, |s|)
  }

  /** What flist_sort_and_clean promises about the sorted list was. */
  ghost predicate Cleaned(was: seq<Slot>, s: seq<Slot>, low: int, high: int) {
    && OnlyCleared(was, s) && Sane(s) && Bounds(s, low, high)
    && Unique(s, |s|) && Covered(was, s, |s|) && Earliest(was, s, |s|)
  }

  // ----- the order of equal names -----

  /** A non-directory sorts before a directory of its name, except ".". */
  lemma FileBeforeDir(f: Entry, d: Entry)
    requires f.Active() && f.Wf() && d.Active() && d.Wf() && f.FullName() == d.FullName()
    requires !f.isDir && d.isDir && !d.IsDot()
    ensures Compare(f, d) < 0
  {
    SplitUnique(f, d);
    LexPrefix([0], Symbols(f), Symbols(d));
    var p := if f.dirname.None? then [] else Tag(Path, f.dirname.value + [SLASH]);
    LexPrefix(p, BaseSymbols(f), BaseSymbols(d));
  }

  /** "." is below every other entry. */
  lemma DotFirst(d: Entry, e: Entry)
    requires d.Active() && d.Wf() && d.IsDot() && e.Active() && e.Wf()
    ensures Compare(d, e) <= 0
  {
    LexPrefix([0], Symbols(d), Symbols(e));
    assert Symbols(d) == [];
  }

  /** Squeezed between equals. */
  lemma Squeezed(a: Entry, b: Entry, c: Entry)
    requires Compare(a, b) <= 0 && Compare(b, c) <= 0 && Compare(a, c) == 0
    ensures Compare(b, c) == 0 && Compare(a, b) == 0
  {
    TotalPreorder(a, c, b);
    TotalPreorder(c, a, b);
    TotalPreorder(b, c, a);
    TotalPreorder(b, a, c);
  }

  lemma BothEqual(a: Entry, b: Entry, c: Entry)
    requires Compare(a, b) == 0 && Compare(b, c) == 0
    ensures Compare(a, c) == 0 && Compare(c, a) == 0
  {
    TotalPreorder(a, b, c);
    TotalPreorder(b, c, a);
    TotalPreorder(c, b, a);
    TotalPreorder(a, c, b);
  }

  lemma Cleared(s: seq<Slot>, i: int, slot: Slot)
    requires Sane(s) && 0 <= i < |s| && slot == Slot(Entry(None, [], false), 1, 1)
    ensures Sane(s[i := slot]) && OnlyCleared(s, s[i := slot])
  {
    var t := s[i := slot];
    assert forall k :: 0 <= k < |s| && k != i ==> Live(t, k) == Live(s, k);
    forall k | 0 <= k < |t| && !Live(t, k) ensures LinkOk(t, k) {
      assert k != i ==> LinkOk(s, k);
    }
  }

  // ----- the loop -----

  /** Removed entries after prev were equal to it. */
  predicate Tail(was: seq<Slot>, prev: int, i: int)
    requires 0 <= prev < |was|
  {
    i <= prev + 1 || (Tail(was, prev, i - 1) && Equals(was, prev, i - 1))
  }

  /** Entry k, if it is there and live, sorts equal to entry prev. */
  predicate Equals(was: seq<Slot>, prev: int, k: int)
    requires 0 <= prev < |was|
  {
    0 <= k < |was| && Live(was, k) ==> Compare(was[prev].entry, was[k].entry) == 0
  }

  predicate Untouched(was: seq<Slot>, s: seq<Slot>, i: int) {
    |s| == |was| && forall k :: 0 <= k < |s| && i <= k ==> s[k].entry == was[k].entry
  }

  predicate Window(s: seq<Slot>, low: int, prev: int, i: int) {
    0 <= low <= prev < i <= |s| && Live(s, low) && Live(s, prev) && Dead(s, 0, low) && Dead(s, prev + 1, i)
  }

  predicate Done(was: seq<Slot>, s: seq<Slot>, i: int)
    requires |s| == |was|
  {
    Unique(s, i) && Covered(was, s, i) && Earliest(was, s, i)
  }

  /** The places before i are clean.  (Contracts say == true where the proof
      should take this as a whole.) */
  ghost predicate Progress(was: seq<Slot>, s: seq<Slot>, low: int, prev: int, i: int) {
    Steady(was, s, i) && Window(s, low, prev, i) && Done(was, s, i) && Tail(was, prev, i)
  }

  ghost predicate Steady(was: seq<Slot>, s: seq<Slot>, i: int) {
    OnlyCleared(was, s) && Sane(was) && Sane(s) && Untouched(was, s, i)
  }

  lemma ClearedSteady(was: seq<Slot>, s: seq<Slot>, i: int, j: int, slot: Slot)
    requires Steady(was, s, i) && 0 <= j <= i < |s| && slot == Slot(Entry(None, [], false), 1, 1)
    ensures Steady(was, s[j := slot], i + 1)
  {
    Cleared(s, j, slot);
  }

  lemma SameSane(s: seq<Slot>, t: seq<Slot>)
    requires Sane(s) && SameEntries(s, t) && LinksOk(t)
    ensures Sane(t)
  {
    forall i, j | Pair(i, j) && 0 <= i < j < |t| && Live(t, i) && Live(t, j) ensures Compare(t[i].entry, t[j].entry) <= 0 {
      assert Live(s, i) && Live(s, j);
    }
  }

  lemma SameWindow(s: seq<Slot>, t: seq<Slot>, low: int, prev: int, i: int)
    requires SameEntries(s, t) && Window(s, low, prev, i)
    ensures Window(t, low, prev, i)
  {
    SameDead(s, t, 0, low);
    SameDead(s, t, prev + 1, i);
  }

  /** Done depends on the entries before i only. */
  lemma SameDone(was: seq<Slot>, s: seq<Slot>, t: seq<Slot>, i: int)
    requires |s| == |t| == |was| && 0 <= i <= |s| && Done(was, s, i) && forall k :: 0 <= k < i ==> t[k].entry == s[k].entry
    ensures Done(was, t, i)
  {
    forall r | 0 <= r < |t| && r < i && Live(t, r) ensures Foremost(was, r) {
      assert Live(s, r);
    }
    forall a, b | 0 <= a < b < i && b < |t| && Live(t, a) && Live(t, b) && t[a].entry.FullName() == t[b].entry.FullName()
      ensures DotClash(t[a].entry, t[b].entry)
    {
      assert Live(s, a) && Live(s, b) && DotClash(s[a].entry, s[b].entry);
    }
    forall k | 0 <= k < |was| && k < i && Live(was, k) ensures HasStandIn(t, was[k].entry, i) {
      SameStandIn(s, t, was[k].entry, i);
    }
  }

  lemma SameStandIn(s: seq<Slot>, t: seq<Slot>, e: Entry, i: int)
    requires |s| == |t| && HasStandIn(s, e, i) && forall k :: 0 <= k < |s| && k < i && Live(s, k) ==> t[k].entry == s[k].entry
    ensures HasStandIn(t, e, i)
  {
    var r :| 0 <= r < |s| && r < i && Live(s, r) && Stands(s[r].entry, e);
    assert Live(t, r) && Stands(t[r].entry, e);
  }

  lemma SameProgress(was: seq<Slot>, s: seq<Slot>, t: seq<Slot>, low: int, prev: int, i: int)
    requires Progress(was, s, low, prev, i) == true && SameEntries(s, t) && LinksOk(t)
    ensures Progress(was, t, low, prev, i) == true
  {
    SameSane(s, t);
    SameWindow(s, t, low, prev, i);
    SameDone(was, s, t, i);
  }

  /** The first live entry starts the clean part. */
  lemma FirstLive(was: seq<Slot>, i: int)
    requires Sane(was) && 0 <= i < |was| && Live(was, i) && Dead(was, 0, i)
    ensures Progress(was, was, i, i, i + 1) == true
  {
    assert Stands(was[i].entry, was[i].entry);
    assert HasStandIn(was, was[i].entry, i + 1);
  }

  lemma SkipRemoved(was: seq<Slot>, s: seq<Slot>, low: int, prev: int, i: int)
    requires Progress(was, s, low, prev, i) == true && i < |s| && !Live(s, i)
    ensures Progress(was, s, low, prev, i + 1) == true
  {
    assert !Live(was, i);
    CoveredMore(was, s, s, i);
  }

  /** Stand-ins stay when i is the only new place and needs none. */
  lemma CoveredMore(was: seq<Slot>, s: seq<Slot>, t: seq<Slot>, i: int)
    requires Covered(was, s, i) && 0 <= i < |s| == |t| == |was| && (Live(was, i) ==> HasStandIn(t, was[i].entry, i + 1))
    requires forall k :: 0 <= k < i && Live(s, k) ==> t[k].entry == s[k].entry
    ensures Covered(was, t, i + 1)
  {
    forall k | 0 <= k < |was| && k < i + 1 && Live(was, k) ensures HasStandIn(t, was[k].entry, i + 1) {
      if k < i {
        assert HasStandIn(s, was[k].entry, i);
        var r :| 0 <= r < |s| && r < i && Live(s, r) && Stands(s[r].entry, was[k].entry);
        assert Live(t, r) && Stands(t[r].entry, was[k].entry);
      }
    }
  }

  /** No live entry before i has e's full name, "." apart. */
  predicate NameNew(t: seq<Slot>, e: Entry, i: int) {
    forall a :: 0 <= a < |t| && a < i && Live(t, a) && t[a].entry.FullName() == e.FullName() ==> DotClash(t[a].entry, e)
  }

  lemma UniqueMore(t: seq<Slot>, i: int)
    requires 0 <= i < |t| && Unique(t, i)
    requires Live(t, i) ==> NameNew(t, t[i].entry, i)
    ensures Unique(t, i + 1)
  {
  }

  lemma EarliestMore(was: seq<Slot>, t: seq<Slot>, i: int)
    requires |t| == |was| && 0 <= i < |t| && Earliest(was, t, i) && (Live(t, i) ==> Foremost(was, i))
    ensures Earliest(was, t, i + 1)
  {
  }

  lemma DropDone(was: seq<Slot>, s: seq<Slot>, t: seq<Slot>, prev: int, i: int)
    requires |s| == |t| == |was| && 0 <= prev < i < |s| && Done(was, s, i) && forall k :: 0 <= k < i ==> t[k].entry == s[k].entry
    requires !Live(t, i) && Live(t, prev) && Stands(t[prev].entry, was[i].entry)
    ensures Done(was, t, i + 1)
  {
    SameDone(was, s, t, i);
    assert HasStandIn(t, was[i].entry, i + 1);
    CoveredMore(was, t, t, i);
    UniqueMore(t, i);
    EarliestMore(was, t, i);
  }

  lemma DropWindow(s: seq<Slot>, t: seq<Slot>, low: int, prev: int, i: int)
    requires Window(s, low, prev, i) && |t| == |s| && i < |s| && !Live(t, i) && forall k :: 0 <= k < i ==> t[k].entry == s[k].entry
    ensures Window(t, low, prev, i + 1)
  {
    assert forall k :: 0 <= k < i ==> Live(t, k) == Live(s, k);
  }

  lemma {:induction false} TailAt(was: seq<Slot>, prev: int, i: int, k: int)
    requires 0 <= prev < |was| && Tail(was, prev, i) && prev < k < i
    ensures Equals(was, prev, k) == true
    decreases i
  {
    if k < i - 1 { TailAt(was, prev, i - 1, k); }
  }

  lemma Twins(a: Entry, b: Entry)
    requires a.Active() && a.Wf() && b.Active() && b.Wf() && Compare(a, b) == 0
    ensures Compare(b, a) == 0 && Stands(b, a)
  {
    EqualOnlySame(a, b);
    TotalPreorder(a, b, a);
  }

  /** An entry equal to the one before it goes. */
  lemma DropSame(was: seq<Slot>, s: seq<Slot>, low: int, prev: int, i: int, slot: Slot)
    requires Progress(was, s, low, prev, i) == true && i < |s| && Live(s, i) && slot == Slot(Entry(None, [], false), 1, 1)
    requires Compare(s[i].entry, s[prev].entry) == 0
    ensures Progress(was, s[i := slot], low, prev, i + 1) == true
  {
    var t := s[i := slot];
    ClearedSteady(was, s, i, i, slot);
    Twins(s[i].entry, s[prev].entry);
    DropDone(was, s, t, prev, i);
    DropWindow(s, t, low, prev, i);
  }

  /** When the live entry before i differs from it, i is the first of its kind. */
  lemma NewIsForemost(was: seq<Slot>, s: seq<Slot>, low: int, prev: int, i: int)
    requires Progress(was, s, low, prev, i) == true && i < |s| && Live(s, i) && Compare(s[i].entry, s[prev].entry) != 0
    ensures Foremost(was, i)
    ensures !s[i].entry.IsDot()
  {
    var (x, p) := (was[i].entry, was[prev].entry);
    assert x == s[i].entry && p == s[prev].entry && Pair(prev, i);
    TotalPreorder(p, x, p);
    if x.IsDot() { DotFirst(x, p); }
    forall k | 0 <= k < i && Live(was, k) ensures Compare(was[k].entry, x) != 0 {
      if Compare(was[k].entry, x) == 0 {
        if k < prev {
          assert Pair(k, prev);
          Squeezed(was[k].entry, p, x);
        } else if k > prev {
          TailAt(was, prev, i, k);
          BothEqual(p, was[k].entry, x);
        }
      }
    }
  }

  /** Once i is known to be the first of its kind, it becomes the new prev. */
  lemma KeepNew(was: seq<Slot>, s: seq<Slot>, low: int, prev: int, i: int)
    requires Progress(was, s, low, prev, i) == true && i < |s| && Live(s, i) && Foremost(was, i) && NameNew(s, s[i].entry, i)
    ensures Progress(was, s, low, i, i + 1) == true
  {
    assert Stands(s[i].entry, was[i].entry);
    assert HasStandIn(s, was[i].entry, i + 1);
    CoveredMore(was, s, s, i);
    UniqueMore(s, i);
    EarliestMore(was, s, i);
  }

  /** A live entry with i's name and kind would have been the one before i. */
  lemma NotSameKind(was: seq<Slot>, s: seq<Slot>, low: int, prev: int, i: int, a: int)
    requires Progress(was, s, low, prev, i) == true && i < |s| && Live(s, i) && Foremost(was, i)
    requires 0 <= a < i && Live(s, a) && s[a].entry.FullName() == s[i].entry.FullName()
    ensures s[a].entry.isDir != s[i].entry.isDir
  {
    EqualOnlySame(s[a].entry, s[i].entry);
    assert s[a].entry == was[a].entry && s[i].entry == was[i].entry;
  }

  /** A non-directory that differs from the entry before it has a new name. */
  lemma FileIsNew(was: seq<Slot>, s: seq<Slot>, low: int, prev: int, i: int)
    requires Progress(was, s, low, prev, i) == true && i < |s| && Live(s, i) && Foremost(was, i) && !s[i].entry.isDir
    ensures NameNew(s, s[i].entry, i)
  {
    var e := s[i].entry;
    forall a | 0 <= a < |s| && a < i && Live(s, a) && s[a].entry.FullName() == e.FullName()
      ensures DotClash(s[a].entry, e)
    {
      NotSameKind(was, s, low, prev, i, a);
      SplitUnique(s[a].entry, e);
      assert Pair(a, i);
      TotalPreorder(e, s[a].entry, e);
      if !s[a].entry.IsDot() { FileBeforeDir(e, s[a].entry); }
    }
  }

  /** The non-directory that a directory's name is looked up as. */
  function AsFile(e: Entry): Entry { e.(isDir := false) }

  /** A live entry before directory i has its name exactly when it equals the
      non-directory of that name. */
  lemma ClashIsFile(was: seq<Slot>, s: seq<Slot>, low: int, prev: int, i: int, a: int)
    requires Progress(was, s, low, prev, i) == true && i < |s| && Live(s, i) && Foremost(was, i) && s[i].entry.isDir
    requires 0 <= a < i && Live(s, a)
    ensures s[a].entry.FullName() == s[i].entry.FullName() <==> Compare(s[a].entry, AsFile(s[i].entry)) == 0
    ensures Compare(s[a].entry, AsFile(s[i].entry)) == 0 ==> !s[a].entry.isDir
  {
    EqualOnlySame(s[a].entry, AsFile(s[i].entry));
    if s[a].entry.FullName() == s[i].entry.FullName() { NotSameKind(was, s, low, prev, i, a); }
  }

  lemma DirIsNew(was: seq<Slot>, s: seq<Slot>, low: int, prev: int, i: int)
    requires Progress(was, s, low, prev, i) == true && i < |s| && Live(s, i) && Foremost(was, i) && s[i].entry.isDir
    requires NoMatch(s, AsFile(s[i].entry), low, prev + 1)
    ensures NameNew(s, s[i].entry, i)
  {
    forall a | 0 <= a < |s| && a < i && Live(s, a)
      ensures s[a].entry.FullName() != s[i].entry.FullName()
    {
      ClashIsFile(was, s, low, prev, i, a);
    }
  }

  // ----- a directory takes the place of a non-directory -----

  lemma ReplaceDone(was: seq<Slot>, s: seq<Slot>, t: seq<Slot>, low: int, prev: int, i: int, j: int, slot: Slot)
    requires Progress(was, s, low, prev, i) == true && i < |s| && Live(s, i) && Foremost(was, i)
    requires s[i].entry.isDir && !s[i].entry.IsDot()
    requires 0 <= j < i && Live(s, j) && s[j].entry.FullName() == s[i].entry.FullName() && !s[j].entry.isDir
    requires t == s[j := slot] && !slot.entry.Active()
    ensures Done(was, t, i + 1)
  {
    var e := s[i].entry;
    forall a | 0 <= a < |t| && a < i && Live(t, a) ensures t[a].entry.FullName() != e.FullName() {
      ClashIsFile(was, s, low, prev, i, a);
      if s[a].entry.FullName() == e.FullName() { OnlyOne(s, i, a, j); }
    }
    UniqueLess(s, t, i, j);
    assert NameNew(t, e, i);
    UniqueMore(t, i);
    EarliestLess(was, s, t, i, j);
    EarliestMore(was, t, i);
    CoveredReplaced(was, s, t, i, j);
  }

  /** Two live non-directories before i do not share a name. */
  lemma OnlyOne(s: seq<Slot>, i: int, a: int, b: int)
    requires Unique(s, i) && 0 <= a < i <= |s| && 0 <= b < i && Live(s, a) && Live(s, b)
    requires s[a].entry.FullName() == s[b].entry.FullName() && !s[a].entry.isDir && !s[b].entry.isDir
    ensures a == b
  {
  }

  lemma UniqueLess(s: seq<Slot>, t: seq<Slot>, i: int, j: int)
    requires Unique(s, i) && |t| == |s| && 0 <= j < |s| && !Live(t, j) && forall k :: 0 <= k < |s| && k != j ==> t[k] == s[k]
    ensures Unique(t, i)
  {
    forall a, b | 0 <= a < b < i && b < |t| && Live(t, a) && Live(t, b) && t[a].entry.FullName() == t[b].entry.FullName()
      ensures DotClash(t[a].entry, t[b].entry)
    {
      assert Live(s, a) && Live(s, b);
    }
  }

  lemma EarliestLess(was: seq<Slot>, s: seq<Slot>, t: seq<Slot>, i: int, j: int)
    requires |s| == |t| == |was| && Earliest(was, s, i) && 0 <= j < |s| && !Live(t, j)
    requires forall k :: 0 <= k < |s| && k != j ==> t[k] == s[k]
    ensures Earliest(was, t, i)
  {
    forall r | 0 <= r < |t| && r < i && Live(t, r) ensures Foremost(was, r) {
      assert Live(s, r);
    }
  }

  lemma CoveredReplaced(was: seq<Slot>, s: seq<Slot>, t: seq<Slot>, i: int, j: int)
    requires Covered(was, s, i) && |s| == |t| == |was| && 0 <= j < i < |s| && was[i].entry == s[i].entry && Live(s, i)
    requires s[j].entry.FullName() == s[i].entry.FullName() && !s[j].entry.isDir
    requires s[i].entry.isDir && !s[i].entry.IsDot() && forall k :: 0 <= k < |s| && k != j ==> t[k] == s[k]
    ensures Covered(was, t, i + 1)
  {
    forall k | 0 <= k < |was| && k < i + 1 && Live(was, k) ensures HasStandIn(t, was[k].entry, i + 1) {
      if k == i {
        assert Live(t, i) && Stands(t[i].entry, was[i].entry);
      } else {
        assert HasStandIn(s, was[k].entry, i);
        var r :| 0 <= r < |s| && r < i && Live(s, r) && Stands(s[r].entry, was[k].entry);
        var r' := if r == j then i else r;
        assert Live(t, r') && Stands(t[r'].entry, was[k].entry);
      }
    }
  }

  /** low moves up past what was dropped. */
  predicate NewLow(t: seq<Slot>, low: int, j: int, i: int, low': int)
    requires 0 <= j < i < |t|
  {
    if low == j then j < low' <= i && Live(t, low') && Dead(t, j + 1, low') else low' == low
  }

  lemma ReplaceKept(was: seq<Slot>, s: seq<Slot>, low: int, prev: int, i: int, j: int, slot: Slot, low': int)
    requires Steady(was, s, i) && Window(s, low, prev, i) && i < |s| && Live(s, i) && low <= j <= prev
    requires slot == Slot(Entry(None, [], false), 1, 1) && NewLow(s[j := slot], low, j, i, low')
    requires Done(was, s[j := slot], i + 1)
    ensures Progress(was, s[j := slot], low', i, i + 1) == true
  {
    ClearedSteady(was, s, i, j, slot);
    ReplaceWindow(s, s[j := slot], low, prev, i, j, low');
  }

  lemma ReplaceWindow(s: seq<Slot>, t: seq<Slot>, low: int, prev: int, i: int, j: int, low': int)
    requires Window(s, low, prev, i) && |t| == |s| && i < |s| && Live(s, i) && low <= j <= prev && !Live(t, j)
    requires NewLow(t, low, j, i, low') && forall k :: 0 <= k < |s| && k != j ==> t[k] == s[k]
    ensures Window(t, low', i, i + 1)
  {
    assert forall k :: 0 <= k < |s| && k != j ==> Live(t, k) == Live(s, k);
  }

  // ----- flist_sort_and_clean -----

  const CLEARED := Slot(Entry(None, [], false), 1, 1)

  /** clear_file. */
  method ClearFile(sorted: array<Slot>, i: int)
    requires 0 <= i < sorted.Length
    modifies sorted
    ensures sorted[..] == old(sorted[..])[i := CLEARED]
  {
    sorted[i] := CLEARED;
  }

  /** The next live place above a dropped one, i at the latest. */
  method NextLive(sorted: array<Slot>, drop: int, i: int) returns (j: int)
    requires 0 <= drop < i < sorted.Length && Live(sorted[..], i)
    ensures drop < j <= i && Live(sorted[..], j) && Dead(sorted[..], drop + 1, j)
  {
    j := drop + 1;
    while j < i && !sorted[j].entry.Active()
      invariant drop < j <= i && Dead(sorted[..], drop + 1, j)
    {
      j := j + 1;
    }
  }

  /** Looks for an earlier entry with the name of the one at i. */
  method FindClash(sorted: array<Slot>, low: int, prev: int, i: int, ghost was: seq<Slot>) returns (j: int)
    requires Progress(was, sorted[..], low, prev, i) == true && i < sorted.Length && Live(sorted[..], i)
    requires Foremost(was, i)
    modifies sorted
    ensures Progress(was, sorted[..], low, prev, i) == true && SameEntries(old(sorted[..]), sorted[..])
    ensures j == -1 ==> NameNew(sorted[..], sorted[i].entry, i)
    ensures j != -1 ==> low <= j <= prev && Live(sorted[..], j) && sorted[i].entry.isDir
                        && sorted[j].entry.FullName() == sorted[i].entry.FullName() && !sorted[j].entry.isDir
  {
    ghost var s := sorted[..];
    if sorted[i].entry.isDir {
      j := Find(sorted, low, prev, AsFile(sorted[i].entry));
      SameProgress(was, s, sorted[..], low, prev, i);
      if j == -1 {
        DirIsNew(was, s, low, prev, i);
        SameNew(s, sorted[..], s[i].entry, i);
      } else {
        ClashIsFile(was, s, low, prev, i, j);
      }
    } else {
      j := -1;
      FileIsNew(was, s, low, prev, i);
    }
  }

  lemma SameNew(s: seq<Slot>, t: seq<Slot>, e: Entry, i: int)
    requires NameNew(s, e, i) && SameEntries(s, t)
    ensures NameNew(t, e, i)
  {
    forall a | 0 <= a < |t| && a < i && Live(t, a) && t[a].entry.FullName() == e.FullName() ensures DotClash(t[a].entry, e) {
      assert Live(s, a);
    }
  }

  /** One turn of the loop, at a live entry. */
  method Turn(sorted: array<Slot>, low: int, prev: int, i: int, ghost was: seq<Slot>) returns (low': int, prev': int)
    requires Progress(was, sorted[..], low, prev, i) == true && i < sorted.Length && Live(sorted[..], i)
    modifies sorted
    ensures Progress(was, sorted[..], low', prev', i + 1) == true
  {
    low', prev' := low, prev;
    ghost var s := sorted[..];
    var diff, _ := FNameCmp.FNameCmp(sorted[i].entry, sorted[prev].entry, false);
    if diff == 0 {
      DropSame(was, s, low, prev, i, CLEARED);
      ClearFile(sorted, i);
      return;
    }
    NewIsForemost(was, s, low, prev, i);
    var j := FindClash(sorted, low, prev, i, was);
    prev' := i;
    if j == -1 {
      KeepNew(was, sorted[..], low, prev, i);
    } else {
      low' := Replace(sorted, low, prev, i, j, was);
    }
  }

  /** A directory takes the place of a non-directory of its name. */
  method Replace(sorted: array<Slot>, low: int, prev: int, i: int, drop: int, ghost was: seq<Slot>) returns (low': int)
    requires Progress(was, sorted[..], low, prev, i) == true && i < sorted.Length && Live(sorted[..], i) && Foremost(was, i)
    requires sorted[i].entry.isDir && !sorted[i].entry.IsDot()
    requires low <= drop <= prev && Live(sorted[..], drop)
    requires sorted[drop].entry.FullName() == sorted[i].entry.FullName() && !sorted[drop].entry.isDir
    modifies sorted
    ensures Progress(was, sorted[..], low', i, i + 1) == true
  {
    ghost var s := sorted[..];
    ReplaceDone(was, s, s[drop := CLEARED], low, prev, i, drop, CLEARED);
    ClearFile(sorted, drop);
    low' := low;
    if low == drop {
      low' := NextLive(sorted, drop, i);
    }
    ReplaceKept(was, s, low, prev, i, drop, CLEARED, low');
  }

  lemma AllDone(was: seq<Slot>, s: seq<Slot>, low: int, prev: int)
    requires Progress(was, s, low, prev, |s|) == true
    ensures Cleaned(was, s, low, prev) == true
  {
  }

  /** One turn of the loop, whatever is at i. */
  method AnyTurn(sorted: array<Slot>, low: int, prev: int, i: int, ghost was: seq<Slot>) returns (low': int, prev': int)
    requires Progress(was, sorted[..], low, prev, i) == true && 0 <= i < sorted.Length
    modifies sorted
    ensures Progress(was, sorted[..], low', prev', i + 1) == true
  {
    if sorted[i].entry.Active() {
      low', prev' := Turn(sorted, low, prev, i, was);
    } else {
      low', prev' := low, prev;
      SkipRemoved(was, sorted[..], low, prev, i);
    }
  }

  /** The loop from the first live entry on. */
  method CleanFrom(sorted: array<Slot>, first: int, ghost was: seq<Slot>) returns (low: int, high: int)
    requires Progress(was, sorted[..], first, first, first + 1) == true && 0 <= first < sorted.Length
    modifies sorted
    ensures Progress(was, sorted[..], low, high, sorted.Length) == true
  {
    low, high := first, first;
    for i := first + 1 to sorted.Length
      invariant Progress(was, sorted[..], low, high, i) == true
    {
      low, high := AnyTurn(sorted, low, high, i, was);
    }
  }

  /** The cleaning of a sorted list with something in it. */
  method Clean(sorted: array<Slot>) returns (low: int, high: int)
    requires Sane(sorted[..]) && sorted.Length > 0
    modifies sorted
    ensures Dead(old(sorted[..]), 0, sorted.Length) ==> sorted[..] == old(sorted[..]) && low == high == 0
    ensures !Dead(old(sorted[..]), 0, sorted.Length) ==> Cleaned(old(sorted[..]), sorted[..], low, high) == true
  {
    ghost var was := sorted[..];
    var i := 0;
    while i < sorted.Length && !sorted[i].entry.Active()
      invariant 0 <= i <= sorted.Length && sorted[..] == was && Dead(was, 0, i)
    {
      i := i + 1;
    }
    if i == sorted.Length {
      low, high := 0, 0;
    } else {
      assert Live(was, i);
      FirstLive(was, i);
      low, high := CleanFrom(sorted, i, was);
      AllDone(was, sorted[..], low, high);
    }
  }

  // ----- with the sort -----

  function ByName(a: Slot, b: Slot): int { Compare(a.entry, b.entry) }

  lemma ByNameIsPreorder()
    ensures FileSort.TotalPreorder(ByName)
  {
    forall x: Slot, y: Slot ensures ByName(x, y) <= 0 || ByName(y, x) <= 0
      ensures ByName(x, y) <= 0 <==> ByName(y, x) >= 0
    {
      TotalPreorder(x.entry, y.entry, x.entry);
    }
    forall x: Slot, y: Slot, z: Slot | FileSort.Chain(x, y, z) && ByName(x, y) <= 0 && ByName(y, z) <= 0
      ensures ByName(x, z) <= 0
    {
      TotalPreorder(x.entry, y.entry, z.entry);
    }
  }

  /** As recv_file_entry and clear_file leave a list: names are well formed and
      removed entries link to their neighbours. */
  predicate Fresh(s: seq<Slot>) {
    AllWf(s) && forall i :: 0 <= i < |s| && !Live(s, i) ==> s[i].depth == 1 && s[i].len32 == 1
  }

  lemma FreshSorted(was: seq<Slot>, s: seq<Slot>)
    requires Fresh(was) && FileSort.Sorted(s, ByName) && multiset(s) == multiset(was)
    ensures Sane(s) == true
  {
    forall i | 0 <= i < |s| ensures s[i].entry.Wf() && (!Live(s, i) ==> s[i].depth == 1 && s[i].len32 == 1) {
      assert s[i] in multiset(was);
      var k :| 0 <= k < |was| && was[k] == s[i];
      assert Live(was, k) == Live(s, i);
    }
    forall i, j | Pair(i, j) && 0 <= i < j < |s| && Live(s, i) && Live(s, j) ensures Compare(s[i].entry, s[j].entry) <= 0 {
      assert ByName(s[i], s[j]) <= 0;
    }
  }

  class FileList {
    var sorted: array<Slot>
    var low: int
    var high: int

    constructor (sorted: array<Slot>)
      ensures this.sorted == sorted && low == 0 && high == -1
    {
      this.sorted, low, high := sorted, 0, -1;
    }

    /** flist_sort_and_clean.  The list is sorted stably (into order), then
        cleaned. */
    method SortAndClean() returns (ghost order: seq<Slot>)
      requires Fresh(sorted[..])
      modifies this`low, this`high, sorted
      ensures FileSort.Sorted(order, ByName) && FileSort.SameOrder(old(sorted[..]), order, ByName) == true
      ensures Dead(order, 0, |order|) ==> sorted[..] == order && low == 0 && high == if order == [] then -1 else 0
      ensures !Dead(order, 0, |order|) ==> Cleaned(order, sorted[..], low, high) == true
    {
      ghost var was := sorted[..];
      ByNameIsPreorder();
      if sorted.Length == 0 {
        order := [];
        high, low := -1, 0;
        return;
      }
      FileSort.FSort(sorted, ByName);
      order := sorted[..];
      FreshSorted(was, order);
      low, high := Clean(sorted);
    }
  }

  // ----- what this means for the list that was received -----

  lemma OtherKind(x: Slot, y: Slot)
    requires x.entry.Active() && (!y.entry.Active() || Compare(y.entry, x.entry) != 0)
    ensures ByName(x, y) != 0
  {
    TotalPreorder(x.entry, y.entry, x.entry);
  }

  /** Among equals the one received first is kept. */
  lemma EarliestWins(was: seq<Slot>, order: seq<Slot>, s: seq<Slot>, low: int, high: int, r: nat)
    requires FileSort.SameOrder(was, order, ByName) == true && Cleaned(order, s, low, high) == true && r < |s| && Live(s, r)
    ensures s[r].entry == order[r].entry
    ensures var c := FileSort.Class(was, order[r], ByName); c != [] && c[0] == order[r]
  {
    var x := order[r];
    assert Foremost(order, r);
    forall k | 0 <= k < r ensures ByName(x, order[k]) != 0 {
      assert Live(order, k) ==> Compare(order[k].entry, x.entry) != 0;
      OtherKind(x, order[k]);
    }
    TotalPreorder(x.entry, x.entry, x.entry);
    FileSort.ClassHead(order, x, r, ByName);
  }

  /** Every name received still has an entry, a directory if one was received
      as a directory. */
  lemma NamesSurvive(was: seq<Slot>, order: seq<Slot>, s: seq<Slot>, low: int, high: int, k: nat) returns (r: nat)
    requires FileSort.SameOrder(was, order, ByName) == true && Cleaned(order, s, low, high) == true && k < |was| && Live(was, k)
    ensures low <= r <= high && Live(s, r) && Stands(s[r].entry, was[k].entry)
  {
    assert was[k] in multiset(was);
    var j :| 0 <= j < |order| && order[j] == was[k];
    assert Live(order, j) && HasStandIn(s, order[j].entry, |s|);
    r :| 0 <= r < |s| && r < |s| && Live(s, r) && Stands(s[r].entry, order[j].entry);
  }

  /** Where a directory was received, no non-directory of its name is left. */
  lemma DirectoryWins(was: seq<Slot>, order: seq<Slot>, s: seq<Slot>, low: int, high: int, k: nat, r: nat)
    requires FileSort.SameOrder(was, order, ByName) == true && Cleaned(order, s, low, high) == true
    requires k < |was| && Live(was, k) && was[k].entry.Wf() && was[k].entry.isDir && !was[k].entry.IsDot()
    requires r < |s| && Live(s, r) && s[r].entry.FullName() == was[k].entry.FullName()
    ensures s[r].entry.isDir
  {
    var x := NamesSurvive(was, order, s, low, high, k);
    NotDot(was[k].entry, s[x].entry);
    NotDot(was[k].entry, s[r].entry);
    assert x == r;
  }

  lemma NotDot(d: Entry, e: Entry)
    requires d.Wf() && e.Wf() && d.isDir && !d.IsDot() && e.FullName() == d.FullName()
    ensures !e.IsDot()
  {
    SplitUnique(d, e);
  }

  /** A live entry was received. */
  lemma WasReceived(was: seq<Slot>, order: seq<Slot>, s: seq<Slot>, low: int, high: int, r: nat) returns (k: nat)
    requires FileSort.SameOrder(was, order, ByName) == true && Cleaned(order, s, low, high) == true && r < |s| && Live(s, r)
    ensures k < |was| && Live(was, k) && was[k].entry == s[r].entry
  {
    assert order[r] in multiset(order);
    k :| 0 <= k < |was| && was[k] == order[r];
  }

  predicate NoDuplicates(s: seq<Slot>) {
    forall a, b :: 0 <= a < b < |s| && Live(s, a) && Live(s, b) ==> s[a].entry.FullName() != s[b].entry.FullName()
  }

  predicate HasDotClash(was: seq<Slot>) {
    exists a, b :: 0 <= a < |was| && 0 <= b < |was| && Live(was, a) && Live(was, b) && DotClash(was[a].entry, was[b].entry)
  }

  /** Duplicate names are gone, unless the list held both a directory and a
      non-directory called "."; then both stay. */
  lemma CleanIffNoDotClash(was: seq<Slot>, order: seq<Slot>, s: seq<Slot>, low: int, high: int)
    requires FileSort.SameOrder(was, order, ByName) == true && Cleaned(order, s, low, high) == true
    ensures NoDuplicates(s) <==> !HasDotClash(was)
  {
    if HasDotClash(was) {
      var a, b :| 0 <= a < |was| && 0 <= b < |was| && Live(was, a) && Live(was, b) && DotClash(was[a].entry, was[b].entry);
      BothStay(was, order, s, low, high, a, b);
    }
    if !NoDuplicates(s) {
      var a, b :| 0 <= a < b < |s| && Live(s, a) && Live(s, b) && s[a].entry.FullName() == s[b].entry.FullName();
      assert DotClash(s[a].entry, s[b].entry);
      var x := WasReceived(was, order, s, low, high, a);
      var y := WasReceived(was, order, s, low, high, b);
      assert DotClash(was[x].entry, was[y].entry);
    }
  }

  lemma BothStay(was: seq<Slot>, order: seq<Slot>, s: seq<Slot>, low: int, high: int, a: nat, b: nat)
    requires FileSort.SameOrder(was, order, ByName) == true && Cleaned(order, s, low, high) == true
    requires a < |was| && b < |was| && Live(was, a) && Live(was, b) && DotClash(was[a].entry, was[b].entry)
    ensures !NoDuplicates(s)
  {
    var x := NamesSurvive(was, order, s, low, high, a);
    var y := NamesSurvive(was, order, s, low, high, b);
    StandsForDotFile(s[y].entry, was[b].entry);
    Duplicated(s, x, y);
  }

  lemma Duplicated(s: seq<Slot>, x: nat, y: nat)
    requires x < |s| && y < |s| && x != y && Live(s, x) && Live(s, y) && s[x].entry.FullName() == s[y].entry.FullName()
    ensures !NoDuplicates(s)
  {
    if x < y {
      assert Live(s, x) && Live(s, y);
    } else {
      assert y < x && Live(s, x) && Live(s, y);
    }
  }

  /** Only a non-directory stands for the non-directory ".". */
  lemma StandsForDotFile(r: Entry, e: Entry)
    requires r.Wf() && Stands(r, e) && !e.isDir && e.dirname.None? && e.basename == [DOT]
    ensures !r.isDir
  {
    SplitUnique(r, e);
  }

  const DOT_DIR := Slot(Entry(None, [DOT], true), 1, 1)
  const DOT_FILE := Slot(Entry(None, [DOT], false), 1, 1)

  /** The flaw is real: however this list was sorted and cleaned, both entries
      called "." are left. */
  lemma DotClashHappens(order: seq<Slot>, s: seq<Slot>, low: int, high: int)
    ensures Fresh([DOT_DIR, DOT_FILE]) && HasDotClash([DOT_DIR, DOT_FILE])
    ensures (FileSort.SameOrder([DOT_DIR, DOT_FILE], order, ByName) == true && Cleaned(order, s, low, high) == true) ==>
              !NoDuplicates(s)
  {
    var was := [DOT_DIR, DOT_FILE];
    DotClashThere(was);
    if FileSort.SameOrder(was, order, ByName) == true && Cleaned(order, s, low, high) == true {
      CleanIffNoDotClash(was, order, s, low, high);
    }
  }

  lemma DotClashThere(was: seq<Slot>)
    requires was == [DOT_DIR, DOT_FILE]
    ensures Fresh(was) && HasDotClash(was)
  {
    assert Live(was, 0) && Live(was, 1) && DotClash(was[0].entry, was[1].entry);
  }

  /** And it is sorted and cleaned so. */
  method CleanDotClash() returns (list: FileList)
    ensures list.sorted.Length == 2 && !NoDuplicates(list.sorted[..])
  {
    var a := new Slot[2][DOT_DIR, DOT_FILE];
    list := new FileList(a);
    ghost var was := a[..];
    DotClashThere(was);
    ghost var order := list.SortAndClean();
    StillLive(was, order);
    DotClashHappens(order, list.sorted[..], list.low, list.high);
  }

  /** Sorting leaves the first entry somewhere. */
  lemma StillLive(was: seq<Slot>, order: seq<Slot>)
    requires |was| > 0 && Live(was, 0) && FileSort.SameOrder(was, order, ByName) == true
    ensures !Dead(order, 0, |order|)
  {
    assert was[0] in multiset(was);
    var j :| 0 <= j < |order| && order[j] == was[0];
    assert Live(order, j);
  }
}

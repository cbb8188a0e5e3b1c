/** The sorted file list of rsync/flist.c: removed entries stay in place as
    links to their neighbours, and flist_find searches around them. */
module FlistFind {
  import opened FNameCmp

  /** A place in flist->sorted.  While its entry is removed, depth and len32
      lead towards the next entry that is not, up and down. */
  datatype Slot = Slot(entry: Entry, depth: nat, len32: nat)

  predicate Live(s: seq<Slot>, i: int)
    requires 0 <= i < |s|
  {
    s[i].entry.Active()
  }

  /** Every entry from a up to b (not included) is removed. */
  predicate Dead(s: seq<Slot>, a: int, b: int) {
    forall k :: 0 <= k < |s| && a <= k < b ==> !Live(s, k)
  }

  /** The links of a removed entry lead over removed entries only. */
  predicate LinkOk(s: seq<Slot>, i: int)
    requires 0 <= i < |s|
  {
    && s[i].depth >= 1 && s[i].len32 >= 1
    && Dead(s, i, i + s[i].depth) && Dead(s, i - s[i].len32 + 1, i + 1)
  }

  predicate LinksOk(s: seq<Slot>) {
    forall i :: 0 <= i < |s| && !Live(s, i) ==> LinkOk(s, i)
  }

  ghost predicate InOrder(s: seq<Slot>) {
    forall i, j {:trigger Pair(i, j)} :: Pair(i, j) && 0 <= i < j < |s| && Live(s, i) && Live(s, j)
      ==> Compare(s[i].entry, s[j].entry) <= 0
  }

  /** Always true: it names the two places a proof compares. */
  predicate Pair(i: int, j: int) { true }

  predicate AllWf(s: seq<Slot>) {
    forall i :: 0 <= i < |s| ==> s[i].entry.Wf()
  }

  predicate SameEntries(was: seq<Slot>, now: seq<Slot>) {
    |was| == |now| && forall i :: 0 <= i < |was| ==> now[i].entry == was[i].entry
  }

  /** low and high are the ends of what is searched, when there is anything. */
  predicate Ends(s: seq<Slot>, low: int, high: int) {
    0 <= low && high < |s| && (low <= high ==> Live(s, low) && Live(s, high))
  }

  lemma DeadJoin(s: seq<Slot>, a: int, b: int, c: int)
    requires Dead(s, a, b) && Dead(s, b, c)
    ensures Dead(s, a, c)
  {
  }

  /** A longer link over removed entries is as good. */
  lemma Relinked(s: seq<Slot>, mid: int, slot: Slot)
    requires LinksOk(s) && 0 <= mid < |s| && !Live(s, mid) && slot.entry == s[mid].entry
    requires slot.depth >= 1 && Dead(s, mid, mid + slot.depth)
    requires slot.len32 >= 1 && Dead(s, mid - slot.len32 + 1, mid + 1)
    ensures LinksOk(s[mid := slot]) && SameEntries(s, s[mid := slot])
  {
    var t := s[mid := slot];
    assert forall k :: 0 <= k < |s| ==> Live(t, k) == Live(s, k);
    forall i | 0 <= i < |t| && !Live(t, i) ensures LinkOk(t, i) {
      assert i != mid ==> LinkOk(s, i);
    }
  }

  /** Follow the links up from a removed entry and shorten its own way. */
  method SkipUp(sorted: array<Slot>, mid: int, ghost top: int) returns (up: int)
    requires 0 <= mid < top < sorted.Length && LinksOk(sorted[..]) && !Live(sorted[..], mid) && Live(sorted[..], top)
    modifies sorted
    ensures mid < up <= top && Live(sorted[..], up) && Dead(sorted[..], mid, up)
    ensures LinksOk(sorted[..]) && SameEntries(old(sorted[..]), sorted[..])
  {
    ghost var s := sorted[..];
    assert LinkOk(s, mid);
    up := mid + sorted[mid].depth;
    if !sorted[up].entry.Active() {
      while !sorted[up].entry.Active()
        invariant sorted[..] == s && mid < up <= top && Dead(s, mid, up)
        decreases top - up
      {
        assert LinkOk(s, up);
        DeadJoin(s, mid, up, up + sorted[up].depth);
        up := up + sorted[up].depth;
      }
      Relinked(s, mid, sorted[mid].(depth := up - mid));
      sorted[mid] := sorted[mid].(depth := up - mid);
      assert sorted[..] == s[mid := s[mid].(depth := up - mid)];
      SameDead(s, sorted[..], mid, up);
    }
  }

  /** The same downwards. */
  method SkipDown(sorted: array<Slot>, mid: int, ghost bottom: int) returns (down: int)
    requires 0 <= bottom < mid < sorted.Length && LinksOk(sorted[..]) && !Live(sorted[..], mid) && Live(sorted[..], bottom)
    modifies sorted
    ensures bottom <= down < mid && Live(sorted[..], down) && Dead(sorted[..], down + 1, mid + 1)
    ensures LinksOk(sorted[..]) && SameEntries(old(sorted[..]), sorted[..])
  {
    ghost var s := sorted[..];
    assert LinkOk(s, mid);
    down := mid - sorted[mid].len32;
    if !sorted[down].entry.Active() {
      while !sorted[down].entry.Active()
        invariant sorted[..] == s && bottom <= down < mid && Dead(s, down + 1, mid + 1)
        decreases down
      {
        assert LinkOk(s, down);
        DeadJoin(s, down - sorted[down].len32 + 1, down + 1, mid + 1);
        down := down - sorted[down].len32;
      }
      Relinked(s, mid, sorted[mid].(len32 := mid - down));
      sorted[mid] := sorted[mid].(len32 := mid - down);
      assert sorted[..] == s[mid := s[mid].(len32 := mid - down)];
      SameDead(s, sorted[..], down + 1, mid + 1);
    }
  }

  /** Is there nothing equal to f among the places from a up to b? */
  predicate NoMatch(s: seq<Slot>, f: Entry, a: int, b: int) {
    forall k :: 0 <= k < |s| && a <= k < b && Live(s, k) ==> Compare(s[k].entry, f) != 0
  }

  lemma StillBelow(x: Entry, y: Entry, f: Entry)
    requires Compare(x, y) <= 0 && Compare(y, f) < 0
    ensures Compare(x, f) != 0
  {
    TotalPreorder(x, f, y);
    TotalPreorder(f, x, y);
    TotalPreorder(f, y, x);
  }

  lemma StillAbove(x: Entry, y: Entry, f: Entry)
    requires Compare(y, x) <= 0 && Compare(y, f) > 0
    ensures Compare(x, f) != 0
  {
    TotalPreorder(y, x, f);
  }

  /** Everything before an entry below f is below it too. */
  lemma NoneBelow(s: seq<Slot>, f: Entry, up: int)
    requires InOrder(s) && 0 <= up < |s| && Live(s, up) && Compare(s[up].entry, f) < 0
    ensures NoMatch(s, f, 0, up + 1)
  {
    forall k | 0 <= k < up && Live(s, k) ensures Compare(s[k].entry, f) != 0 {
      assert Pair(k, up);
      StillBelow(s[k].entry, s[up].entry, f);
    }
  }

  lemma NoneAbove(s: seq<Slot>, f: Entry, up: int)
    requires InOrder(s) && 0 <= up < |s| && Live(s, up) && Compare(s[up].entry, f) > 0
    ensures NoMatch(s, f, up, |s|)
  {
    forall k | up < k < |s| && Live(s, k) ensures Compare(s[k].entry, f) != 0 {
      assert Pair(up, k);
      StillAbove(s[k].entry, s[up].entry, f);
    }
  }

  /** Where the search looks next: the first live entry at or above mid, or if
      that is past high, the first one below. */
  method Settle(sorted: array<Slot>, mid: int, high: int, ghost first: int, ghost last: int) returns (up: int, down: int)
    requires LinksOk(sorted[..]) && 0 <= first <= mid <= high <= last < sorted.Length
    requires Live(sorted[..], first) && Live(sorted[..], last)
    modifies sorted
    ensures LinksOk(sorted[..]) && SameEntries(old(sorted[..]), sorted[..])
    ensures mid <= up <= last && Live(old(sorted[..]), up) && Dead(old(sorted[..]), mid, up)
    ensures up > high ==> first <= down < mid && Dead(old(sorted[..]), down + 1, up)
  {
    ghost var was := sorted[..];
    up, down := mid, mid;
    if !sorted[mid].entry.Active() {
      up := SkipUp(sorted, mid, last);
      ghost var midway := sorted[..];
      SameDead(was, midway, mid, up);
      if up > high {
        down := SkipDown(sorted, mid, first);
        SameDead(midway, sorted[..], down + 1, mid + 1);
        SameDead(was, midway, down + 1, mid + 1);
        DeadJoin(was, down + 1, mid + 1, up);
      }
    }
  }

  lemma SameDead(was: seq<Slot>, now: seq<Slot>, a: int, b: int)
    requires SameEntries(was, now)
    ensures Dead(was, a, b) <==> Dead(now, a, b)
  {
    assert forall k :: 0 <= k < |was| ==> Live(was, k) == Live(now, k);
  }

  /** flist_find finds an active equal entry exactly when a search one by one
      would. */
  method Find(sorted: array<Slot>, first: int, last: int, f: Entry) returns (found: int)
    requires AllWf(sorted[..]) && InOrder(sorted[..]) && LinksOk(sorted[..]) && Ends(sorted[..], first, last)
    requires f.Active() && f.Wf()
    modifies sorted
    ensures LinksOk(sorted[..]) && SameEntries(old(sorted[..]), sorted[..])
    ensures found == -1 || (first <= found <= last && Live(old(sorted[..]), found) && Compare(old(sorted[..])[found].entry, f) == 0)
    ensures found == -1 <==> NoMatch(old(sorted[..]), f, first, last + 1)
  {
    ghost var was := sorted[..];
    var low, high := first, last;
    while low <= high
      invariant first <= low && high <= last
      invariant SameEntries(was, sorted[..]) && LinksOk(sorted[..])
      invariant NoMatch(was, f, first, low) && NoMatch(was, f, high + 1, last + 1)
      decreases high - low
    {
      var mid := (low + high) / 2;
      ghost var midway := sorted[..];
      assert Live(midway, first) && Live(midway, last);
      var up, down := Settle(sorted, mid, high, first, last);
      SameDead(was, midway, mid, up);
      if up > high {
        SameDead(was, midway, down + 1, up);
        high := down;
        continue;
      }
      var diff, _ := FNameCmp.FNameCmp(sorted[up].entry, f, false);
      if diff == 0 {
        found := up;
        return;
      }
      if diff < 0 {
        NoneBelow(was, f, up);
        low := up + 1;
      } else {
        NoneAbove(was, f, up);
        high := mid - 1;
      }
    }
    found := -1;
  }
}

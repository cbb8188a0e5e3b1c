/** f_name_cmp of rsync/flist.c, protocol 29 and later: the order of the file
    list. */
module FNameCmp {
  import opened Wrappers

  type NameByte = c: int | 0 < c < 256 witness 1

  const SLASH: NameByte := 47

  const DOT: NameByte := 46

  /** An entry; a removed one has an empty basename. */
  datatype Entry = Entry(dirname: Option<seq<NameByte>>, basename: seq<NameByte>, isDir: bool) {
    predicate Active() { basename != [] }

    predicate IsDot() { isDir && basename == [DOT] }

    /** A basename is one path element, and "." stands alone. */
    predicate Wf() { SLASH !in basename && (IsDot() ==> dirname.None?) }

    function FullName(): seq<NameByte> {
      if dirname.None? then basename else dirname.value + [SLASH] + basename
    }
  }

  // ----- the specification -----

  /** Non-directories come before directories at the same level. */
  datatype Kind = Item | Path

  function Symbol(kind: Kind, c: NameByte): int { if kind.Path? then 256 + c else c }

  function Tag(kind: Kind, s: seq<NameByte>): seq<int> {
    if s == [] then [] else [Symbol(kind, s[0])] + Tag(kind, s[1..])
  }

  function BaseKind(e: Entry): Kind { if e.isDir then Path else Item }

  /** The basename; a directory's has a slash after it, and "." is nothing. */
  function BaseSymbols(e: Entry): seq<int> {
    if e.IsDot() then [] else if e.isDir then Tag(Path, e.basename + [SLASH]) else Tag(Item, e.basename)
  }

  function Symbols(e: Entry): seq<int> {
    (if e.dirname.None? then [] else Tag(Path, e.dirname.value + [SLASH])) + BaseSymbols(e)
  }

  /** What the order is the lexicographic order of: removed entries are below
      all others. */
  function Key(e: Entry): seq<int> {
    if e.Active() then [0] + Symbols(e) else []
  }

  function Lex(a: seq<int>, b: seq<int>): int
    decreases |a|
  {
    if a == [] then (if b == [] then 0 else -1)
    else if b == [] then 1
    else if a[0] != b[0] then (if a[0] < b[0] then -1 else 1)
    else Lex(a[1..], b[1..])
  }

  function Compare(a: Entry, b: Entry): int { Lex(Key(a), Key(b)) }

  function Sign(x: int): int { if x < 0 then -1 else if x > 0 then 1 else 0 }

  // ----- lexicographic order -----

  lemma {:induction false} LexZero(a: seq<int>, b: seq<int>)
    ensures Lex(a, b) == 0 <==> a == b
    decreases |a|
  {
    if a != [] && b != [] {
      LexZero(a[1..], b[1..]);
      assert a == [a[0]] + a[1..] && b == [b[0]] + b[1..];
    }
  }

  lemma {:induction false} LexFlip(a: seq<int>, b: seq<int>)
    ensures Lex(b, a) == -Lex(a, b)
    decreases |a|
  {
    if a != [] && b != [] { LexFlip(a[1..], b[1..]); }
  }

  lemma {:induction false} LexTrans(a: seq<int>, b: seq<int>, c: seq<int>)
    requires Lex(a, b) <= 0 && Lex(b, c) <= 0
    ensures Lex(a, c) <= 0
    decreases |a|
  {
    if a != [] && b != [] && c != [] && a[0] == b[0] == c[0] { LexTrans(a[1..], b[1..], c[1..]); }
  }

  lemma {:induction false} LexPrefix(p: seq<int>, a: seq<int>, b: seq<int>)
    ensures Lex(p + a, p + b) == Lex(a, b)
    decreases |p|
  {
    if p == [] {
      assert p + a == a && p + b == b;
    } else {
      LexPrefix(p[1..], a, b);
      assert (p + a)[1..] == p[1..] + a && (p + b)[1..] == p[1..] + b;
    }
  }

  /** What lies between two lists with a common prefix has that prefix. */
  lemma {:induction false} LexBetween(p: seq<int>, a: seq<int>, b: seq<int>)
    requires Lex(p, a) <= 0 && Lex(a, b) <= 0 && p <= b
    ensures p <= a
    decreases |p|
  {
    if p != [] {
      assert b[0] == p[0];
      LexBetween(p[1..], a[1..], b[1..]);
      assert p == [p[0]] + p[1..] && a == [a[0]] + a[1..];
    }
  }

  /** Where a is less: it ends where b goes on, or its symbol is smaller there. */
  predicate LessAt(a: seq<int>, b: seq<int>, k: nat) {
    k <= |a| && k < |b| && a[..k] == b[..k] && (k == |a| || a[k] < b[k])
  }

  lemma HeadsEqual(a: seq<int>, b: seq<int>, k: nat)
    requires 0 < k <= |a| && k <= |b| && a[..k] == b[..k]
    ensures a[0] == b[0]
  {
    assert a[..k][0] == a[0];
  }

  lemma {:induction false} LexMeans(a: seq<int>, b: seq<int>)
    ensures Lex(a, b) < 0 <==> exists k: nat :: LessAt(a, b, k)
    decreases |a|
  {
    if a == [] {
      if b != [] { assert LessAt(a, b, 0); }
    } else if b != [] {
      if a[0] == b[0] {
        LexMeans(a[1..], b[1..]);
        assert a == [a[0]] + a[1..] && b == [b[0]] + b[1..];
        if k: nat :| LessAt(a[1..], b[1..], k) {
          assert a[..k + 1] == [a[0]] + a[1..][..k] && b[..k + 1] == [b[0]] + b[1..][..k];
          assert LessAt(a, b, k + 1);
        }
        if k: nat :| LessAt(a, b, k) {
          assert k > 0 && a[1..][..k - 1] == a[..k][1..] && b[1..][..k - 1] == b[..k][1..];
          assert LessAt(a[1..], b[1..], k - 1);
        }
      } else {
        if a[0] < b[0] { assert LessAt(a, b, 0); }
        forall k: nat | k > 0 ensures !LessAt(a, b, k) {
          if k <= |a| && k <= |b| && a[..k] == b[..k] { HeadsEqual(a, b, k); }
        }
      }
    }
  }

  /** The order is a total preorder on all entries, removed ones included. */
  lemma TotalPreorder(a: Entry, b: Entry, c: Entry)
    ensures Compare(b, a) == -Compare(a, b)
    ensures Compare(a, a) == 0
    ensures Compare(a, b) <= 0 && Compare(b, c) <= 0 ==> Compare(a, c) <= 0
  {
    LexFlip(Key(a), Key(b));
    LexZero(Key(a), Key(a));
    if Compare(a, b) <= 0 && Compare(b, c) <= 0 { LexTrans(Key(a), Key(b), Key(c)); }
  }

  // ----- the state machine -----

  datatype FncState = InDir | InSlash | InBase | Trailing

  /** A pointer into one name: the characters left in the current piece. */
  datatype Cursor = Cursor(state: FncState, kind: Kind, text: seq<NameByte>)

  function AtBase(e: Entry): Cursor {
    if e.IsDot() then Cursor(Trailing, Item, []) else Cursor(InBase, BaseKind(e), e.basename)
  }

  function AtStart(e: Entry, skipDir: bool): Cursor {
    if skipDir || e.dirname.None? then AtBase(e) else Cursor(InDir, Path, e.dirname.value)
  }

  /** The switch: what follows when the current piece is used up. */
  function Advance(e: Entry, c: Cursor): Cursor {
    match c.state
    case InDir => Cursor(InSlash, Path, [SLASH])
    case InSlash => AtBase(e)
    case InBase => if c.kind.Path? then Cursor(Trailing, Path, [SLASH]) else Cursor(Trailing, Item, [])
    case Trailing => Cursor(Trailing, Item, [])
  }

  predicate Exhausted(c: Cursor) { c.state.Trailing? || (c.state.InBase? && c.kind.Item?) }

  function Head(c: Cursor): int { if c.text == [] then 0 else c.text[0] }

  /** The symbols from a cursor on. */
  function Rest(e: Entry, c: Cursor): seq<int> {
    Tag(c.kind, c.text) +
    match c.state
    case InDir => [Symbol(Path, SLASH)] + BaseSymbols(e)
    case InSlash => BaseSymbols(e)
    case InBase => if c.kind.Path? then [Symbol(Path, SLASH)] else []
    case Trailing => []
  }

  predicate Good(e: Entry, c: Cursor) {
    && e.Active() && e.Wf()
    && (c.state.InDir? || c.state.InSlash? ==> c.kind.Path? && e.dirname.Some?)
    && (c.state.InBase? ==> !e.IsDot() && c.kind == BaseKind(e))
  }

  lemma {:induction false} TagAppend(kind: Kind, s: seq<NameByte>, t: seq<NameByte>)
    ensures Tag(kind, s + t) == Tag(kind, s) + Tag(kind, t)
    decreases |s|
  {
    if s == [] {
      assert s + t == t;
    } else {
      TagAppend(kind, s[1..], t);
      assert (s + t)[0] == s[0] && (s + t)[1..] == s[1..] + t;
    }
  }

  lemma TagOne(kind: Kind, c: NameByte)
    ensures Tag(kind, [c]) == [Symbol(kind, c)]
  {
    assert Tag(kind, [c]) == [Symbol(kind, c)] + Tag(kind, [c][1..]);
  }

  lemma BaseRest(e: Entry)
    requires e.Active() && e.Wf()
    ensures Good(e, AtBase(e)) && Rest(e, AtBase(e)) == BaseSymbols(e)
  {
    TagAppend(Path, e.basename, [SLASH]);
    TagOne(Path, SLASH);
  }

  lemma StartRest(e: Entry, skipDir: bool)
    requires e.Active() && e.Wf()
    ensures Good(e, AtStart(e, skipDir))
    ensures Rest(e, AtStart(e, skipDir)) == if skipDir then BaseSymbols(e) else Symbols(e)
  {
    BaseRest(e);
    if e.dirname.Some? {
      TagAppend(Path, e.dirname.value, [SLASH]);
      TagOne(Path, SLASH);
    }
  }

  lemma AdvanceRest(e: Entry, c: Cursor)
    requires Good(e, c) && c.text == []
    ensures var d := Advance(e, c);
      && Good(e, d) && Rest(e, d) == Rest(e, c) && (d.kind.Path? ==> d.text != [])
      && (d.text == [] ==> Rest(e, d) == [] && Exhausted(c))
  {
    BaseRest(e);
    TagOne(Path, SLASH);
  }

  /** The first symbol left has the cursor's kind and character. */
  lemma RestHead(e: Entry, c: Cursor)
    requires c.text != []
    ensures Rest(e, c) == [Symbol(c.kind, c.text[0])] + Rest(e, c.(text := c.text[1..]))
  {
  }

  /** When kinds differ, they decide. */
  lemma KindDecides(f: Entry, a: Cursor, g: Entry, b: Cursor)
    requires a.kind != b.kind
    requires a.text != [] || (Rest(f, a) == [] && a.kind.Item?)
    requires b.text != [] || (Rest(g, b) == [] && b.kind.Item?)
    ensures Lex(Rest(f, a), Rest(g, b)) == if a.kind.Path? then 1 else -1
    ensures b.text != [] ==> !(Rest(g, b) <= Rest(f, a))
  {
    if a.text != [] { RestHead(f, a); }
    if b.text != [] { RestHead(g, b); }
  }

  /** Within one kind the characters decide; a finished name counts as 0. */
  lemma HeadDecides(f: Entry, a: Cursor, g: Entry, b: Cursor)
    requires a.kind == b.kind && Head(a) != Head(b)
    requires a.text == [] ==> Rest(f, a) == []
    requires b.text == [] ==> Rest(g, b) == []
    ensures Lex(Rest(f, a), Rest(g, b)) == Sign(Head(a) - Head(b))
    ensures b.text != [] ==> !(Rest(g, b) <= Rest(f, a))
  {
    if a.text != [] { RestHead(f, a); }
    if b.text != [] { RestHead(g, b); }
  }

  lemma HeadsMatch(f: Entry, a: Cursor, g: Entry, b: Cursor)
    requires a.kind == b.kind && a.text != [] && b.text != [] && a.text[0] == b.text[0]
    ensures var (a', b') := (a.(text := a.text[1..]), b.(text := b.text[1..]));
      && Lex(Rest(f, a'), Rest(g, b')) == Lex(Rest(f, a), Rest(g, b))
      && (Rest(g, b') <= Rest(f, a') <==> Rest(g, b) <= Rest(f, a))
      && |Rest(f, a')| < |Rest(f, a)|
  {
    RestHead(f, a);
    RestHead(g, b);
    var (x, y) := (Rest(f, a.(text := a.text[1..])), Rest(g, b.(text := b.text[1..])));
    assert Rest(f, a)[1..] == x && Rest(g, b)[1..] == y;
    PrefixCons(Symbol(a.kind, a.text[0]), x, y);
  }

  lemma PrefixCons(h: int, x: seq<int>, y: seq<int>)
    ensures [h] + y <= [h] + x <==> y <= x
  {
    if [h] + y <= [h] + x {
      assert y == ([h] + y)[1..] && x[..|y|] == ([h] + x)[1..][..|y|];
    }
  }

  /** f_name_cmp.  sameDir says that both dirname pointers are the same; the
      flag returned is found_prefix. */
  method FNameCmp(f1: Entry, f2: Entry, sameDir: bool) returns (dif: int, foundPrefix: bool)
    requires f1.Wf() && f2.Wf() && (sameDir ==> f1.dirname == f2.dirname)
    ensures Sign(dif) == Compare(f1, f2)
    ensures f1.Active() && f2.Active() ==>
      (foundPrefix <==> Symbols(f2) <= Symbols(f1) && AtStart(f1, sameDir).kind == AtStart(f2, sameDir).kind)
  {
    foundPrefix := false;
    if !f1.Active() {
      return if f2.Active() then -1 else 0, foundPrefix;
    }
    if !f2.Active() {
      return 1, foundPrefix;
    }
    var a, b := AtStart(f1, sameDir), AtStart(f2, sameDir);
    StartAgree(f1, f2, sameDir);
    if a.kind != b.kind {
      StartKinds(f1, f2, sameDir);
      return if a.kind.Path? then 1 else -1, foundPrefix;
    }
    dif, foundPrefix := Scan(f1, a, f2, b);
  }

  lemma StartAgree(f: Entry, g: Entry, skipDir: bool)
    requires f.Active() && f.Wf() && g.Active() && g.Wf() && (skipDir ==> f.dirname == g.dirname)
    ensures var (a, b) := (AtStart(f, skipDir), AtStart(g, skipDir));
      && Good(f, a) && Good(g, b)
      && Lex(Rest(f, a), Rest(g, b)) == Compare(f, g)
      && (Rest(g, b) <= Rest(f, a) <==> Symbols(g) <= Symbols(f))
  {
    StartRest(f, skipDir);
    StartRest(g, skipDir);
    LexPrefix([0], Symbols(f), Symbols(g));
    if skipDir && f.dirname.Some? {
      var p := Tag(Path, f.dirname.value + [SLASH]);
      LexPrefix(p, BaseSymbols(f), BaseSymbols(g));
      PrefixAppend(p, BaseSymbols(f), BaseSymbols(g));
    } else {
      assert skipDir ==> Symbols(f) == BaseSymbols(f) && Symbols(g) == BaseSymbols(g);
    }
  }

  lemma PrefixAppend(p: seq<int>, x: seq<int>, y: seq<int>)
    ensures p + y <= p + x <==> y <= x
  {
    if p + y <= p + x {
      assert y == (p + y)[|p|..] && x[..|y|] == (p + x)[|p|..][..|y|];
    }
  }

  lemma StartKinds(f: Entry, g: Entry, skipDir: bool)
    requires f.Active() && f.Wf() && g.Active() && g.Wf() && AtStart(f, skipDir).kind != AtStart(g, skipDir).kind
    ensures var (a, b) := (AtStart(f, skipDir), AtStart(g, skipDir));
      Lex(Rest(f, a), Rest(g, b)) == if a.kind.Path? then 1 else -1
  {
    var (a, b) := (AtStart(f, skipDir), AtStart(g, skipDir));
    assert a.kind.Path? ==> Rest(f, a) != [] && Rest(f, a)[0] >= 256;
    assert b.kind.Path? ==> Rest(g, b) != [] && Rest(g, b)[0] >= 256;
    assert a.kind.Item? && Rest(f, a) != [] ==> Rest(f, a)[0] < 256;
    assert b.kind.Item? && Rest(g, b) != [] ==> Rest(g, b)[0] < 256;
  }

  /** Two cursors that have the order and the prefix answer still to give. */
  ghost predicate Leads(f1: Entry, a: Cursor, f2: Entry, b: Cursor, order: int, prefix: bool) {
    && Good(f1, a) && Good(f2, b)
    && Lex(Rest(f1, a), Rest(f2, b)) == order && (Rest(f2, b) <= Rest(f1, a) <==> prefix)
  }

  /** A cursor that was moved on where needed: nothing left means at the end. */
  predicate Ready(e: Entry, c: Cursor) { c.text == [] ==> Rest(e, c) == [] && c.kind.Item? }

  lemma AdvanceReady(e: Entry, c: Cursor)
    requires Good(e, c) && c.text == []
    ensures var d := Advance(e, c);
      Good(e, d) && Rest(e, d) == Rest(e, c) && Ready(e, d) && (d.text == [] <==> Exhausted(c))
  {
    AdvanceRest(e, c);
  }

  /** The first half of the loop body, up to reading the second name. */
  method Step1(f1: Entry, a: Cursor, f2: Entry, b: Cursor, ghost order: int, ghost prefix: bool)
    returns (stop: bool, a': Cursor)
    requires Leads(f1, a, f2, b, order, prefix) && a.kind == b.kind
    ensures Rest(f1, a') == Rest(f1, a)
    ensures stop ==> order == (if a'.kind.Path? then 1 else -1) && !prefix
    ensures !stop ==> Leads(f1, a', f2, b, order, prefix) && Ready(f1, a') && (b.text != [] ==> a'.kind == b.kind)
  {
    stop, a' := false, a;
    if a.text == [] {
      AdvanceReady(f1, a);
      a' := Advance(f1, a);
      if b.text != [] && a'.kind != b.kind {
        KindDecides(f1, a', f2, b);
        stop := true;
      }
    }
  }

  /** The second half. */
  method Step2(f1: Entry, a: Cursor, f2: Entry, b: Cursor, ghost order: int, ghost prefix: bool)
    returns (stop: bool, dif: int, foundPrefix: bool, b': Cursor)
    requires Leads(f1, a, f2, b, order, prefix) && Ready(f1, a) && (b.text != [] ==> a.kind == b.kind)
    ensures stop ==> Sign(dif) == order && foundPrefix == prefix
    ensures !stop ==> Leads(f1, a, f2, b', order, prefix) && Ready(f2, b') && a.kind == b'.kind
                      && (foundPrefix <==> b'.text == []) && (foundPrefix ==> a.text != [])
  {
    stop, dif, foundPrefix, b' := false, 0, false, b;
    if b.text == [] {
      AdvanceReady(f2, b);
      b' := Advance(f2, b);
      if Exhausted(b) {
        foundPrefix := true;
        if a.text == [] {
          stop := true;
          return;
        }
      }
      if a.kind != b'.kind {
        KindDecides(f1, a, f2, b');
        stop, dif := true, if a.kind.Path? then 1 else -1;
      }
    }
  }

  lemma NextPair(f1: Entry, a: Cursor, f2: Entry, b: Cursor, order: int, prefix: bool)
    requires Leads(f1, a, f2, b, order, prefix) && a.kind == b.kind && a.text != [] && b.text != [] && a.text[0] == b.text[0]
    ensures var (a', b') := (a.(text := a.text[1..]), b.(text := b.text[1..]));
      Leads(f1, a', f2, b', order, prefix) && |Rest(f1, a')| < |Rest(f1, a)|
  {
    HeadsMatch(f1, a, f2, b);
  }

  /** The do loop. */
  method Scan(f1: Entry, start1: Cursor, f2: Entry, start2: Cursor) returns (dif: int, foundPrefix: bool)
    requires Good(f1, start1) && Good(f2, start2) && start1.kind == start2.kind
    ensures Sign(dif) == Lex(Rest(f1, start1), Rest(f2, start2))
    ensures foundPrefix <==> Rest(f2, start2) <= Rest(f1, start1)
  {
    var a, b := start1, start2;
    ghost var order := Lex(Rest(f1, a), Rest(f2, b));
    ghost var prefix := Rest(f2, b) <= Rest(f1, a);
    while true
      invariant Leads(f1, a, f2, b, order, prefix) && a.kind == b.kind
      decreases |Rest(f1, a)|
    {
      var stop;
      stop, a := Step1(f1, a, f2, b, order, prefix);
      if stop {
        return if a.kind.Path? then 1 else -1, false;
      }
      stop, dif, foundPrefix, b := Step2(f1, a, f2, b, order, prefix);
      if stop {
        return;
      }
      dif := Head(a) - Head(b);
      if dif != 0 {
        HeadDecides(f1, a, f2, b);
        return;
      }
      NextPair(f1, a, f2, b, order, prefix);
      a, b := a.(text := a.text[1..]), b.(text := b.text[1..]);
    }
  }

  // ----- equal names -----

  /** The characters of a list of symbols. */
  function Strip(s: seq<int>): seq<int> {
    if s == [] then [] else [if s[0] >= 256 then s[0] - 256 else s[0]] + Strip(s[1..])
  }

  lemma {:induction false} StripTag(kind: Kind, s: seq<NameByte>)
    ensures Strip(Tag(kind, s)) == s
  {
    if s != [] {
      StripTag(kind, s[1..]);
      assert s == [s[0]] + s[1..];
    }
  }

  lemma {:induction false} StripAppend(a: seq<int>, b: seq<int>)
    ensures Strip(a + b) == Strip(a) + Strip(b)
    decreases |a|
  {
    if a == [] {
      assert a + b == b;
    } else {
      StripAppend(a[1..], b);
      assert (a + b)[0] == a[0] && (a + b)[1..] == a[1..] + b;
    }
  }

  lemma StripSymbols(e: Entry)
    requires !e.IsDot()
    ensures Strip(Symbols(e)) == e.FullName() + (if e.isDir then [SLASH] else [])
  {
    var base := e.basename + (if e.isDir then [SLASH] else []);
    StripTag(BaseKind(e), base);
    assert e.basename + [] == e.basename;
    assert Strip(BaseSymbols(e)) == base;
    if e.dirname.Some? {
      StripTag(Path, e.dirname.value + [SLASH]);
      StripAppend(Tag(Path, e.dirname.value + [SLASH]), BaseSymbols(e));
      assert e.dirname.value + [SLASH] + base == e.FullName() + (if e.isDir then [SLASH] else []);
    } else {
      assert Symbols(e) == BaseSymbols(e);
    }
  }

  lemma {:induction false} TagLength(kind: Kind, s: seq<NameByte>)
    ensures |Tag(kind, s)| == |s|
    ensures forall i :: 0 <= i < |s| ==> Tag(kind, s)[i] == Symbol(kind, s[i])
  {
    if s != [] { TagLength(kind, s[1..]); }
  }

  /** The last symbol tells directories from the rest. */
  lemma LastSymbol(e: Entry)
    requires e.Active() && e.Wf()
    ensures !e.IsDot() ==> Symbols(e) != [] && (Symbols(e)[|Symbols(e)| - 1] >= 256 <==> e.isDir)
    ensures e.IsDot() ==> Symbols(e) == []
  {
    if !e.IsDot() {
      TagLength(BaseKind(e), e.basename + (if e.isDir then [SLASH] else []));
      assert e.basename + [] == e.basename;
    }
  }

  /** The basename starts after the last slash. */
  lemma LastSlash(e: Entry) returns (i: nat)
    requires e.Wf()
    ensures var n := e.FullName();
      && i <= |n| && n[i..] == e.basename && (forall k :: i <= k < |n| ==> n[k] != SLASH)
      && (e.dirname.None? ==> i == 0)
      && (e.dirname.Some? ==> i > 0 && n[i - 1] == SLASH && n[..i - 1] == e.dirname.value)
  {
    i := |e.FullName()| - |e.basename|;
    assert forall k :: i <= k < |e.FullName()| ==> e.FullName()[k] == e.basename[k - i];
  }

  /** So a full name splits in one way. */
  lemma SplitUnique(e: Entry, f: Entry)
    requires e.Wf() && f.Wf() && e.FullName() == f.FullName()
    ensures e.dirname == f.dirname && e.basename == f.basename
  {
    var i := LastSlash(e);
    var j := LastSlash(f);
    assert i == j;
  }

  /** Only entries with the same name and directory-ness compare equal. */
  lemma EqualOnlySame(a: Entry, b: Entry)
    requires a.Active() && a.Wf() && b.Active() && b.Wf()
    ensures Compare(a, b) == 0 <==> a.FullName() == b.FullName() && a.isDir == b.isDir
  {
    LexZero(Key(a), Key(b));
    LastSymbol(a);
    LastSymbol(b);
    if Key(a) == Key(b) {
      assert Symbols(a) == Key(a)[1..] == Key(b)[1..] == Symbols(b);
      if !a.IsDot() {
        StripSymbols(a);
        StripSymbols(b);
        SameEnd(a.FullName(), b.FullName(), if a.isDir then [SLASH] else []);
      }
    }
    if a.FullName() == b.FullName() { SplitUnique(a, b); }
  }

  lemma SameEnd(x: seq<int>, y: seq<int>, end: seq<int>)
    requires x + end == y + end
    ensures x == y
  {
    assert |x| == |y| && x == (x + end)[..|x|] && y == (y + end)[..|y|];
  }

  // ----- a directory stands directly before its contents -----

  /** e lies somewhere below the directory of that full name. */
  predicate Under(name: seq<NameByte>, e: Entry) {
    e.dirname.Some? && name + [SLASH] <= e.dirname.value + [SLASH]
  }

  /** Everything sorted between a directory and something inside it is itself
      inside it. */
  lemma DirectlyBefore(d: Entry, e: Entry, c: Entry)
    requires d.Active() && d.Wf() && d.isDir && !d.IsDot() && e.Active() && e.Wf() && c.Active() && c.Wf()
    requires Under(d.FullName(), c) && Compare(d, e) <= 0 && Compare(e, c) <= 0
    ensures Compare(d, c) < 0
    ensures (e.FullName() == d.FullName() && e.isDir) || Under(d.FullName(), e)
  {
    UnderIffPrefix(d, c);
    UnderIffPrefix(d, e);
    LexPrefix([0], Symbols(d), Symbols(e));
    LexPrefix([0], Symbols(e), Symbols(c));
    LexBetween(Symbols(d), Symbols(e), Symbols(c));
    LexTrans(Key(d), Key(e), Key(c));
    EqualOnlySame(d, c);
    assert |c.FullName()| > |c.dirname.value| >= |d.FullName()|;
  }

  lemma UnderIffPrefix(d: Entry, e: Entry)
    requires d.Active() && d.Wf() && d.isDir && !d.IsDot() && e.Active() && e.Wf()
    ensures Symbols(d) <= Symbols(e) <==> Under(d.FullName(), e) || (e.FullName() == d.FullName() && e.isDir)
  {
    DirSymbols(d);
    if Symbols(d) <= Symbols(e) {
      PrefixUnder(d, e);
    }
    if Under(d.FullName(), e) {
      TagPrefix(d.FullName() + [SLASH], e.dirname.value + [SLASH]);
    }
    if e.FullName() == d.FullName() && e.isDir { SplitUnique(d, e); }
  }

  lemma DirSymbols(d: Entry)
    requires d.isDir && !d.IsDot()
    ensures Symbols(d) == Tag(Path, d.FullName() + [SLASH])
  {
    if d.dirname.Some? {
      TagAppend(Path, d.dirname.value + [SLASH], d.basename + [SLASH]);
      assert d.dirname.value + [SLASH] + (d.basename + [SLASH]) == d.FullName() + [SLASH];
    }
  }

  lemma TagPrefix(x: seq<NameByte>, y: seq<NameByte>)
    requires x <= y
    ensures Tag(Path, x) <= Tag(Path, y)
  {
    TagAppend(Path, x, y[|x|..]);
    assert y == x + y[|x|..];
  }

  lemma PrefixUnder(d: Entry, e: Entry)
    requires d.Active() && d.Wf() && d.isDir && !d.IsDot() && e.Active() && e.Wf()
    requires Tag(Path, d.FullName() + [SLASH]) <= Symbols(e)
    ensures Under(d.FullName(), e) || (e.FullName() == d.FullName() && e.isDir)
  {
    var f := d.FullName() + [SLASH];
    TagLength(Path, f);
    var dir: seq<NameByte> := if e.dirname.Some? then e.dirname.value + [SLASH] else [];
    TagLength(Path, dir);
    var all := Symbols(e);
    assert all == Tag(Path, dir) + BaseSymbols(e);
    assert forall i :: 0 <= i < |f| ==> all[i] == Symbol(Path, f[i]);
    assert forall i :: 0 <= i < |dir| ==> all[i] == Symbol(Path, dir[i]);
    if |f| <= |dir| {
      assert forall i :: 0 <= i < |f| ==> f[i] == dir[i];
      assert f <= dir;
    } else {
      LongPrefix(d, e, dir);
    }
  }

  /** The prefix reaches into the basename: then it is all of the name. */
  lemma LongPrefix(d: Entry, e: Entry, dir: seq<NameByte>)
    requires d.isDir && e.Active() && e.Wf() && dir == (if e.dirname.Some? then e.dirname.value + [SLASH] else [])
    requires |dir| < |d.FullName()| + 1
    requires Tag(Path, d.FullName() + [SLASH]) <= Symbols(e)
    ensures e.FullName() == d.FullName() && e.isDir
  {
    var f := d.FullName() + [SLASH];
    TagLength(Path, f);
    TagLength(Path, dir);
    var all := Symbols(e);
    assert all == Tag(Path, dir) + BaseSymbols(e);
    assert all[|dir|] >= 256 && all[|dir|] == BaseSymbols(e)[0];
    TagLength(Item, e.basename);
    assert e.isDir;
    TagLength(Path, e.basename + [SLASH]);
    var whole := dir + (e.basename + [SLASH]);
    assert forall i :: 0 <= i < |whole| ==> all[i] == Symbol(Path, whole[i]);
    assert forall i :: 0 <= i < |f| ==> all[i] == Symbol(Path, f[i]) && f[i] == whole[i];
    assert whole[|f| - 1] == SLASH;
    assert forall k :: |dir| <= k < |whole| - 1 ==> whole[k] == e.basename[k - |dir|];
    assert f == whole;
    SameEnd(d.FullName(), e.FullName(), [SLASH]);
  }

  /** A symbol list that starts another names the same kind. */
  lemma PrefixKinds(f: Entry, g: Entry, skipDir: bool)
    requires f.Active() && f.Wf() && g.Active() && g.Wf() && (skipDir ==> f.dirname == g.dirname)
    requires g.isDir && !g.IsDot() && Symbols(g) <= Symbols(f)
    ensures AtStart(f, skipDir).kind == AtStart(g, skipDir).kind
  {
    StartAgree(f, g, skipDir);
    var (a, b) := (AtStart(f, skipDir), AtStart(g, skipDir));
    assert b.kind.Path? && Rest(g, b) != [] && Rest(f, a)[0] == Rest(g, b)[0] >= 256;
  }

  /** What f_name_has_prefix answers, in terms of the names.  A directory is a
      prefix of itself and of what lies below it; a file of any file beside it
      whose basename starts with its own; "." of what stands at the top and is
      no other directory. */
  predicate PrefixAnswer(f1: Entry, f2: Entry) {
    if f2.IsDot() then f1.dirname.None? && (!f1.isDir || f1.IsDot())
    else if f2.isDir then Under(f2.FullName(), f1) || (f1.FullName() == f2.FullName() && f1.isDir)
    else !f1.isDir && f1.dirname == f2.dirname && f2.basename <= f1.basename
  }

  /** The symbols of the directory part of a name. */
  function DirPart(e: Entry): seq<NameByte> {
    if e.dirname.None? then [] else e.dirname.value + [SLASH]
  }

  lemma SamePart(e: Entry, f: Entry)
    requires DirPart(e) == DirPart(f)
    ensures e.dirname == f.dirname
  {
    if e.dirname.Some? && f.dirname.Some? { SameEnd(e.dirname.value, f.dirname.value, [SLASH]); }
  }

  /** A file's symbols start another's exactly when both are files in one
      directory and its basename starts the other's. */
  lemma FilePrefix(f: Entry, e: Entry)
    requires f.Active() && f.Wf() && !f.isDir && e.Active() && e.Wf()
    ensures Symbols(f) <= Symbols(e) <==> PrefixAnswer(e, f)
  {
    var (d, c) := (DirPart(f), DirPart(e));
    TagLength(Path, d);
    TagLength(Path, c);
    TagLength(Item, f.basename);
    TagLength(Item, e.basename);
    TagLength(Path, e.basename + [SLASH]);
    assert Symbols(f) == Tag(Path, d) + Tag(Item, f.basename) && Symbols(e) == Tag(Path, c) + BaseSymbols(e);
    if Symbols(f) <= Symbols(e) {
      PrefixIsBeside(f, e);
    }
    if PrefixAnswer(e, f) {
      assert forall k :: 0 <= k < |f.basename| ==> f.basename[k] == e.basename[k];
      assert Symbols(f) <= Symbols(e);
    }
  }

  lemma PrefixIsBeside(f: Entry, e: Entry)
    requires f.Active() && f.Wf() && !f.isDir && e.Active() && e.Wf() && Symbols(f) <= Symbols(e)
    ensures !e.isDir && e.dirname == f.dirname && f.basename <= e.basename
  {
    var (d, c, x, y) := (DirPart(f), DirPart(e), Symbols(f), Symbols(e));
    TagLength(Path, d);
    TagLength(Path, c);
    TagLength(Item, f.basename);
    TagLength(Item, e.basename);
    TagLength(Path, e.basename + [SLASH]);
    assert x == Tag(Path, d) + Tag(Item, f.basename) && y == Tag(Path, c) + BaseSymbols(e);
    assert forall k :: 0 <= k < |x| ==> x[k] == y[k];
    assert forall k :: 0 <= k < |d| ==> y[k] == Symbol(Path, d[k]);
    assert y[|d|] == f.basename[0] && |c| <= |d|;
    assert !e.isDir;
    assert y[|c|] == Symbol(Item, e.basename[0]) < 256;
    assert |c| == |d| && forall k :: 0 <= k < |d| ==> d[k] == c[k];
    assert d == c;
    SamePart(e, f);
    PrefixAppend(Tag(Path, d), Tag(Item, e.basename), Tag(Item, f.basename));
    ItemPrefix(f.basename, e.basename);
  }

  lemma ItemPrefix(a: seq<NameByte>, b: seq<NameByte>)
    requires Tag(Item, a) <= Tag(Item, b)
    ensures a <= b
  {
    TagLength(Item, a);
    TagLength(Item, b);
    assert forall k :: 0 <= k < |a| ==> Tag(Item, a)[k] == Tag(Item, b)[k];
  }

  /** f_name_has_prefix gives that answer, for either way the dirname pointers
      compare. */
  method FNameHasPrefix(f1: Entry, f2: Entry, sameDir: bool) returns (yes: bool)
    requires f1.Active() && f1.Wf() && f2.Active() && f2.Wf() && (sameDir ==> f1.dirname == f2.dirname)
    ensures yes <==> PrefixAnswer(f1, f2)
  {
    var dif;
    dif, yes := FNameCmp(f1, f2, sameDir);
    if f2.IsDot() {
      assert Symbols(f2) == [];
    } else if f2.isDir {
      UnderIffPrefix(f2, f1);
      if Symbols(f2) <= Symbols(f1) { PrefixKinds(f1, f2, sameDir); }
    } else {
      FilePrefix(f2, f1);
    }
  }

  /** What is documented: f2's name is a prefix of f1's made of whole path
      elements. */
  predicate WholeElements(f1: Entry, f2: Entry) {
    f1.FullName() == f2.FullName() || Under(f2.FullName(), f1)
  }

  /** When that is the answer.  For a directory: unless f1 is a non-directory of
      its name.  For a file: unless f1 is a directory of its name, lies below
      it, or is a file beside it with a longer name that starts the same.  For
      ".": at the top unless f1 is a non-directory of another name, elsewhere
      unless f1 lies below "./". */
  lemma DocumentedPrefix(f1: Entry, f2: Entry)
    requires f1.Active() && f1.Wf() && f2.Active() && f2.Wf()
    ensures (PrefixAnswer(f1, f2) <==> WholeElements(f1, f2)) <==>
      if f2.IsDot() then (if f1.dirname.None? then f1.isDir || f1.basename == [DOT] else !Under([DOT], f1))
      else if f2.isDir then f1.FullName() != f2.FullName() || f1.isDir
      else (f1.FullName() == f2.FullName() ==> !f1.isDir) && !Under(f2.FullName(), f1)
           && !(!f1.isDir && f1.dirname == f2.dirname && f2.basename < f1.basename)
  {
    if f2.IsDot() && f1.dirname.Some? {
      assert f1.FullName()[|f1.dirname.value|] == SLASH;
    }
    if f1.FullName() == f2.FullName() {
      SplitUnique(f1, f2);
    }
    if f1.dirname == f2.dirname && f1.basename == f2.basename {
      assert f1.FullName() == f2.FullName();
    }
    if Under(f2.FullName(), f1) {
      assert |f1.FullName()| > |f1.dirname.value| >= |f2.FullName()|;
    }
  }

  /** It is not for the files "fo" and "foo": the first is found to be a prefix
      of the second. */
  lemma FilePrefixIsNotAnElement()
    ensures var (f1, f2) := (Entry(None, [102, 111, 111], false), Entry(None, [102, 111], false));
      PrefixAnswer(f1, f2) && !WholeElements(f1, f2)
  {
    assert [102, 111] <= [102, 111, 111];
  }

  /** Nor for "." and a file at the top: it is found to be a prefix, though the
      names have no element in common. */
  lemma DotIsPrefixOfFiles()
    ensures var (f1, f2) := (Entry(None, [102], false), Entry(None, [DOT], true));
      f2.IsDot() && PrefixAnswer(f1, f2) && !WholeElements(f1, f2)
  {
    assert [102] != [DOT];
  }

  // ----- removed entries, and "." with a dirname -----

  /** Removed entries come before all others. */
  lemma RemovedFirst(a: Entry, b: Entry)
    requires !a.Active() && b.Active()
    ensures Compare(a, b) == -1 && Compare(b, a) == 1
  {
  }

  /** Two entries "." in one directory whose names are at different addresses:
      after the slash both names are used up, the kinds agree, and neither exit
      of the loop body is taken, so the source steps past the end of both
      strings. */
  lemma DotsRunOn(f: Entry, g: Entry)
    requires f.IsDot() && g.IsDot() && f.dirname.Some? && f.dirname == g.dirname
    ensures var c := Cursor(InSlash, Path, []);
      var (a, b) := (Advance(f, c), Advance(g, c));
      && !Exhausted(c) && a.kind == b.kind && a.text == [] && b.text == [] && Head(a) - Head(b) == 0
  {
  }

  // ----- level by level -----

  /** One level of a path. */
  datatype Level = Level(kind: Kind, name: seq<NameByte>)

  /** The elements of a directory name. */
  function Elements(d: seq<NameByte>): seq<seq<NameByte>> {
    if SLASH !in d then [d] else
      var i := FirstSlash(d);
      [d[..i]] + Elements(d[i + 1..])
  }

  function FirstSlash(d: seq<NameByte>): (i: nat)
    requires SLASH in d
    ensures i < |d| && d[i] == SLASH && SLASH !in d[..i]
  {
    if d[0] == SLASH then 0 else
      var j := FirstSlash(d[1..]);
      assert d[..j + 1] == [d[0]] + d[1..][..j];
      j + 1
  }

  function Dirs(names: seq<seq<NameByte>>): seq<Level> {
    if names == [] then [] else [Level(Path, names[0])] + Dirs(names[1..])
  }

  function Levels(e: Entry): seq<Level> {
    (if e.dirname.None? then [] else Dirs(Elements(e.dirname.value)))
    + (if e.IsDot() then [] else [Level(BaseKind(e), e.basename)])
  }

  /** Paths compare level by level: at the first level that differs, anything
      comes before a directory, and otherwise the names decide, a directory's
      with its slash; a path that runs out comes first. */
  function CompareLevels(a: seq<Level>, b: seq<Level>): int
    decreases |a|
  {
    if a == [] then (if b == [] then 0 else -1)
    else if b == [] then 1
    else if a[0].kind != b[0].kind then (if a[0].kind.Path? then 1 else -1)
    else
      var d := if a[0].kind.Path? then Lex(a[0].name + [SLASH], b[0].name + [SLASH]) else Lex(a[0].name, b[0].name);
      if d != 0 then d else CompareLevels(a[1..], b[1..])
  }

  /** Names without slashes, and nothing below an item. */
  predicate Plain(a: seq<Level>) {
    && (forall i :: 0 <= i < |a| ==> SLASH !in a[i].name && (a[i].kind.Item? ==> a[i].name != []))
    && (forall i :: 0 <= i < |a| - 1 ==> a[i].kind.Path?)
  }

  function Written(l: Level): seq<int> {
    if l.kind.Path? then Tag(Path, l.name + [SLASH]) else Tag(Item, l.name)
  }

  function Flat(a: seq<Level>): seq<int> {
    if a == [] then [] else Written(a[0]) + Flat(a[1..])
  }

  lemma Associative(x: seq<int>, y: seq<int>, z: seq<int>)
    ensures x + (y + z) == x + y + z
  {
  }

  lemma Shift<T>(a: seq<T>, b: seq<T>)
    requires a != []
    ensures a + b == [a[0]] + (a[1..] + b)
  {
  }

  lemma FlatCons(l: Level, a: seq<Level>)
    ensures Flat([l] + a) == Written(l) + Flat(a)
  {
    assert ([l] + a)[1..] == a;
  }

  lemma {:induction false} FlatAppend(a: seq<Level>, b: seq<Level>)
    ensures Flat(a + b) == Flat(a) + Flat(b)
    decreases |a|
  {
    if a == [] {
      assert a + b == b;
    } else {
      FlatAppend(a[1..], b);
      FlatCons(a[0], a[1..] + b);
      Shift(a, b);
      Associative(Written(a[0]), Flat(a[1..]), Flat(b));
    }
  }

  lemma DirsOf(d: seq<NameByte>)
    ensures SLASH !in d ==> Dirs(Elements(d)) == [Level(Path, d)]
    ensures SLASH in d ==>
      Dirs(Elements(d)) == [Level(Path, d[..FirstSlash(d)])] + Dirs(Elements(d[FirstSlash(d) + 1..]))
  {
    if SLASH in d {
      assert Elements(d)[1..] == Elements(d[FirstSlash(d) + 1..]);
    }
  }

  lemma {:induction false} ElementsPlain(d: seq<NameByte>)
    ensures Plain(Dirs(Elements(d))) && forall l <- Dirs(Elements(d)) :: l.kind.Path?
    decreases |d|
  {
    DirsOf(d);
    if SLASH in d { ElementsPlain(d[FirstSlash(d) + 1..]); }
  }

  lemma {:induction false} ElementsFlat(d: seq<NameByte>)
    ensures Flat(Dirs(Elements(d))) == Tag(Path, d + [SLASH])
    decreases |d|
  {
    DirsOf(d);
    if SLASH !in d {
      FlatCons(Level(Path, d), []);
      assert [Level(Path, d)] + [] == [Level(Path, d)] && Tag(Path, d + [SLASH]) + [] == Tag(Path, d + [SLASH]);
    } else {
      var i := FirstSlash(d);
      ElementsFlat(d[i + 1..]);
      FlatCons(Level(Path, d[..i]), Dirs(Elements(d[i + 1..])));
      TagAppend(Path, d[..i] + [SLASH], d[i + 1..] + [SLASH]);
      Rejoin(d, i);
    }
  }

  lemma Rejoin(d: seq<NameByte>, i: nat)
    requires i < |d| && d[i] == SLASH
    ensures d[..i] + [SLASH] + (d[i + 1..] + [SLASH]) == d + [SLASH]
  {
  }

  lemma LevelsFlat(e: Entry)
    requires e.Active() && e.Wf()
    ensures Flat(Levels(e)) == Symbols(e) && Plain(Levels(e))
  {
    var last := if e.IsDot() then [] else [Level(BaseKind(e), e.basename)];
    assert last != [] ==> last[1..] == [];
    assert Flat(last) == BaseSymbols(e);
    if e.dirname.Some? {
      ElementsFlat(e.dirname.value);
      ElementsPlain(e.dirname.value);
      FlatAppend(Dirs(Elements(e.dirname.value)), last);
    } else {
      assert Levels(e) == last;
    }
  }

  /** Two different names are told apart at or before the slash that ends one,
      whatever follows. */
  lemma {:induction false} NamesDecide(x: seq<NameByte>, y: seq<NameByte>, a: seq<int>, b: seq<int>)
    requires SLASH !in x && SLASH !in y && x != y
    ensures Lex(Tag(Path, x + [SLASH]) + a, Tag(Path, y + [SLASH]) + b) == Lex(x + [SLASH], y + [SLASH]) != 0
    decreases |x|
  {
    var (u, v) := (x + [SLASH], y + [SLASH]);
    assert Tag(Path, u) == [Symbol(Path, u[0])] + Tag(Path, u[1..]);
    assert Tag(Path, v) == [Symbol(Path, v[0])] + Tag(Path, v[1..]);
    if x != [] && y != [] && x[0] == y[0] {
      assert x == [x[0]] + x[1..] && y == [y[0]] + y[1..];
      NamesDecide(x[1..], y[1..], a, b);
      assert u[1..] == x[1..] + [SLASH] && v[1..] == y[1..] + [SLASH];
      assert (Tag(Path, u) + a)[1..] == Tag(Path, u[1..]) + a;
      assert (Tag(Path, v) + b)[1..] == Tag(Path, v[1..]) + b;
    } else {
      assert x == [] ==> u[0] == SLASH && v[0] == y[0] && y[0] in y;
      assert y == [] ==> v[0] == SLASH && u[0] == x[0] && x[0] in x;
    }
  }

  lemma {:induction false} TagLex(kind: Kind, x: seq<NameByte>, y: seq<NameByte>)
    ensures Lex(Tag(kind, x), Tag(kind, y)) == Lex(x, y)
    decreases |x|
  {
    if x != [] && y != [] { TagLex(kind, x[1..], y[1..]); }
  }

  lemma {:induction false} FlatCompare(a: seq<Level>, b: seq<Level>)
    requires Plain(a) && Plain(b)
    ensures Lex(Flat(a), Flat(b)) == CompareLevels(a, b)
    decreases |a|
  {
    if a != [] { FlatHead(a); }
    if b != [] { FlatHead(b); }
    if a != [] && b != [] && a[0].kind == b[0].kind {
      var (x, y) := (a[0].name, b[0].name);
      LexZero(x, y);
      if a[0].kind.Item? {
        assert |a| == 1 && |b| == 1;
        TagLex(Item, x, y);
        assert Flat(a) == Tag(Item, x) && Flat(b) == Tag(Item, y);
      } else if x == y {
        FlatCompare(a[1..], b[1..]);
        LexPrefix(Written(a[0]), Flat(a[1..]), Flat(b[1..]));
        LexZero(x + [SLASH], x + [SLASH]);
      } else {
        NamesDecide(x, y, Flat(a[1..]), Flat(b[1..]));
      }
    }
  }

  lemma FlatHead(a: seq<Level>)
    requires a != [] && Plain(a)
    ensures Flat(a) != [] && (Flat(a)[0] >= 256 <==> a[0].kind.Path?)
  {
    TagLength(Path, a[0].name + [SLASH]);
    TagLength(Item, a[0].name);
  }

  /** The order of the file list is the level-by-level order of paths. */
  lemma CompareIsByLevel(a: Entry, b: Entry)
    requires a.Active() && a.Wf() && b.Active() && b.Wf()
    ensures Compare(a, b) == CompareLevels(Levels(a), Levels(b))
  {
    LevelsFlat(a);
    LevelsFlat(b);
    FlatCompare(Levels(a), Levels(b));
    LexPrefix([0], Symbols(a), Symbols(b));
  }
}

/** Whole file lists on the wire: send_file_entry and recv_file_entry with their
    static variables, and the loops around them (rsync/flist.c). */
module FlistCodec {
  import opened Wrappers
  import opened ByteOrder
  import opened WireInts
  import opened FlistWire
  import opened Streams

  /** The sender's table of inodes: the index of the first link to each. */
  type Idev = map<int, int>

  function FirstOf(idev: Idev, e: File): Option<int> {
    if e.link.Some? && e.link.value in idev then Some(idev[e.link.value]) else None
  }

  function Noted(idev: Idev, e: File, ndx: int): Idev {
    if e.link.Some? && e.link.value !in idev then idev[e.link.value := ndx] else idev
  }

  /** The sending side in the middle of a list: the static variables, the inode
      table, and the entries sent so far. */
  datatype Tx = Tx(st: St, idev: Idev, done: seq<File>)

  /** The receiving side: the static variables and the entries so far. */
  datatype Rx = Rx(st: St, files: seq<File>)

  /** send_file_entry, in front of what follows. */
  function Sending(o: Options, start: nat, x: Tx, e: File, tail: bytes): bytes {
    PutEntry(o, x.st, FirstOf(x.idev, e), start, e, tail)
  }

  function Sent(o: Options, start: nat, x: Tx, e: File): Tx {
    Tx(After(o, x.st, e.name, AttrsOf(e)), Noted(x.idev, e, start + |x.done|), x.done + [e])
  }

  /** One turn of recv_file_list's loop. */
  function Item(o: Options, start: nat, y: Rx, s: bytes): (r: Parse<Turn<Rx, int>>)
    ensures r.Got? ==> |r.rest| < |s|
  {
    var (h, s1) :- GetHead(o, s);
    match h
    case End(err) => Got(Stop(err), s1)
    case Entry(f) =>
      var (fe, s2) :- GetEntry(o, y.st, y.files, start, f, s1);
      Got(More(Rx(fe.1, y.files + [fe.0])), s2)
  }

  // ----- what the two sides have in common -----

  /** Links to one inode within the list share their attributes. */
  predicate Shared(es: seq<File>) {
    forall i, j :: 0 <= i < j < |es| && es[i].link.Some? && es[i].link == es[j].link ==> SameAttrs(es[i], es[j])
  }

  /** The table after the entries done: indexes it holds are in range and
      different, those of this list are where it says, and the links of this
      list are in it. */
  predicate IdevOk(idev: Idev, start: nat, done: seq<File>) {
    && (forall k <- idev, l <- idev :: idev[k] == idev[l] ==> k == l)
    && (forall k <- idev :: 0 <= idev[k] < start + |done| && (idev[k] >= start ==> done[idev[k] - start].link == Some(k)))
    && (forall i :: 0 <= i < |done| && done[i].link.Some? ==> done[i].link.value in idev)
  }

  /** The group each received entry is in: the index of the first link. */
  predicate Grouped(o: Options, idev: Idev, done: seq<File>, files: seq<File>) {
    |files| == |done| && forall i :: 0 <= i < |done| ==> files[i].link == GroupOf(o, idev, done[i])
  }

  function GroupOf(o: Options, idev: Idev, e: File): Option<int> {
    if o.hardLinks then FirstOf(idev, e) else None
  }

  predicate Indexable(n: nat) { n <= 0x8000_0000 }

  /** The receiver has what was sent, and remembers the same last entry. */
  predicate Related(o: Options, start: nat, x: Tx, y: Rx) {
    && x.st == y.st && IdevOk(x.idev, start, x.done) && Indexable(start + |x.done|)
    && Mirrors(o, y.files, x.done) && Grouped(o, x.idev, x.done, y.files)
  }

  predicate MaySend(o: Options, start: nat, x: Tx, e: File) {
    Sendable(o, e) && Shared(x.done + [e]) && Indexable(start + |x.done| + 1)
  }

  lemma FirstIsOk(idev: Idev, start: nat, done: seq<File>, e: File)
    requires IdevOk(idev, start, done) && Indexable(start + |done|) && Shared(done + [e])
    ensures FirstOk(FirstOf(idev, e), start, done, e) == true
  {
    var first := FirstOf(idev, e);
    if first.Some? {
      var k := e.link.value;
      assert k in idev && first.value == idev[k];
      assert Pow256(4) == UINT32 by { assert Pow256(2) == 65536; }
      if first.value >= start {
        var i := first.value - start;
        assert (done + [e])[i] == done[i] && (done + [e])[|done|] == e;
      }
    }
  }

  lemma NotedOk(idev: Idev, start: nat, done: seq<File>, e: File)
    requires IdevOk(idev, start, done)
    ensures IdevOk(Noted(idev, e, start + |done|), start, done + [e])
  {
  }

  lemma MirrorsMore(o: Options, files: seq<File>, done: seq<File>, e: File, link: Option<int>)
    requires Mirrors(o, files, done) == true
    ensures Mirrors(o, files + [Received(o, e, link)], done + [e]) == true
  {
    ReceivedLink(o, e, link);
  }

  lemma ReceivedLink(o: Options, e: File, link: Option<int>)
    ensures Received(o, e, Received(o, e, link).link) == Received(o, e, link)
    ensures Received(o, e, link).link == if o.hardLinks then link else None
  {
  }

  lemma GroupedMore(o: Options, idev: Idev, done: seq<File>, files: seq<File>, e: File, ndx: int, link: Option<int>)
    requires Grouped(o, idev, done, files) && forall i :: 0 <= i < |done| && done[i].link.Some? ==> done[i].link.value in idev
    requires link == Group(e, FirstOf(idev, e), ndx)
    ensures Grouped(o, Noted(idev, e, ndx), done + [e], files + [Received(o, e, link)])
  {
    ReceivedLink(o, e, link);
    forall i | 0 <= i < |done| ensures FirstOf(Noted(idev, e, ndx), done[i]) == FirstOf(idev, done[i]) {
    }
    assert FirstOf(Noted(idev, e, ndx), e) == link;
  }

  lemma ItemChain(o: Options, start: nat, y: Rx, s: bytes, g: Flags, body: bytes, file: File, st': St, tail: bytes)
    requires GetHead(o, s) == Got(Entry(g), body) && GetEntry(o, y.st, y.files, start, g, body) == Got((file, st'), tail)
    ensures Item(o, start, y, s) == Got(More(Rx(st', y.files + [file])), tail)
  {
  }

  lemma RelatedNext(o: Options, start: nat, x: Tx, y: Rx, e: File)
    requires Related(o, start, x, y) == true && Indexable(start + |x.done| + 1)
    ensures Related(o, start, Sent(o, start, x, e),
                    Rx(After(o, x.st, e.name, AttrsOf(e)),
                       y.files + [Received(o, e, Group(e, FirstOf(x.idev, e), start + |y.files|))])) == true
  {
    NotedOk(x.idev, start, x.done, e);
    MirrorsMore(o, y.files, x.done, e, Group(e, FirstOf(x.idev, e), start + |y.files|));
    GroupedMore(o, x.idev, x.done, y.files, e, start + |x.done|, Group(e, FirstOf(x.idev, e), start + |y.files|));
  }

  lemma OneItem(o: Options, start: nat, x: Tx, y: Rx, e: File, tail: bytes) returns (file: File, st': St)
    requires o.Valid() && Sendable(o, e) == true && Mirrors(o, y.files, x.done) == true && x.st == y.st
    requires FirstOk(FirstOf(x.idev, e), start, x.done, e) == true
    ensures file == Received(o, e, Group(e, FirstOf(x.idev, e), start + |y.files|)) && st' == After(o, x.st, e.name, AttrsOf(e))
    ensures Item(o, start, y, Sending(o, start, x, e, tail)) == Got(More(Rx(st', y.files + [file])), tail)
  {
    var g, body;
    g, body, file, st' := EntryRoundTrip(o, x.st, FirstOf(x.idev, e), start, y.files, x.done, e, tail);
    ItemChain(o, start, y, Sending(o, start, x, e, tail), g, body, file, st', tail);
  }

  /** One entry goes over. */
  lemma OneTaken(o: Options, start: nat, x: Tx, y: Rx, e: File, tail: bytes) returns (y': Rx)
    requires o.Valid() && Related(o, start, x, y) == true && MaySend(o, start, x, e) == true
    ensures Item(o, start, y, Sending(o, start, x, e, tail)) == Got(More(y'), tail)
    ensures Related(o, start, Sent(o, start, x, e), y') == true
  {
    FirstIsOk(x.idev, start, x.done, e);
    var file, st' := OneItem(o, start, x, y, e, tail);
    RelatedNext(o, start, x, y, e);
    y' := Rx(st', y.files + [file]);
  }

  // ----- whole lists -----

  function Putter(o: Options, start: nat): (Tx, File, bytes) -> bytes {
    (x: Tx, e: File, tail: bytes) => Sending(o, start, x, e, tail)
  }

  function Stepper(o: Options, start: nat): (Tx, File) -> Tx {
    (x: Tx, e: File) => Sent(o, start, x, e)
  }

  function Getter(o: Options, start: nat): (Rx, bytes) -> Parse<Turn<Rx, int>> {
    (y: Rx, s: bytes) => Item(o, start, y, s)
  }

  function Relater(o: Options, start: nat): (Tx, Rx) -> bool {
    (x: Tx, y: Rx) => Related(o, start, x, y)
  }

  function Allower(o: Options, start: nat): (Tx, File) -> bool {
    (x: Tx, e: File) => MaySend(o, start, x, e)
  }

  lemma ListFaithful(o: Options, start: nat)
    requires o.Valid()
    ensures Shrinks(Getter(o, start))
    ensures Faithful(Putter(o, start), Stepper(o, start), Getter(o, start), Relater(o, start), Allower(o, start))
  {
    forall x: Tx, y: Rx, e: File, tail: bytes | Related(o, start, x, y) && MaySend(o, start, x, e)
      ensures Taken(Getter(o, start), y, Putter(o, start)(x, e, tail), tail, Stepper(o, start)(x, e), Relater(o, start))
    {
      var _ := OneTaken(o, start, x, y, e, tail);
    }
  }

  predicate AllSendable(o: Options, es: seq<File>) {
    forall i :: 0 <= i < |es| ==> Sendable(o, es[i])
  }

  lemma {:induction false} ListOk(o: Options, start: nat, x: Tx, es: seq<File>)
    requires AllSendable(o, es) && Shared(x.done + es) && Indexable(start + |x.done| + |es|)
    ensures AllOk(Allower(o, start), Stepper(o, start), x, es)
    decreases |es|
  {
    if es != [] {
      SharedHead(x.done, es);
      ListOk(o, start, Sent(o, start, x, es[0]), es[1..]);
    }
  }

  lemma SharedHead(done: seq<File>, es: seq<File>)
    requires es != [] && Shared(done + es)
    ensures Shared(done + [es[0]]) && done + es == done + [es[0]] + es[1..]
  {
    var all := done + es;
    assert all == done + [es[0]] + es[1..];
    assert forall i :: 0 <= i <= |done| ==> (done + [es[0]])[i] == all[i];
  }

  lemma {:induction false} FeedDone(o: Options, start: nat, x: Tx, es: seq<File>)
    ensures Feed(Stepper(o, start), x, es).done == x.done + es
    decreases |es|
  {
    if es == [] {
      assert x.done + es == x.done;
    } else {
      FeedDone(o, start, Sent(o, start, x, es[0]), es[1..]);
      assert x.done + [es[0]] + es[1..] == x.done + es;
    }
  }

  predicate ErrorOk(o: Options, ioError: Option<int>) {
    ioError.Some? ==> FitsSigned(4, ioError.value) && (o.varintFlags || o.safe)
  }

  function ErrorOf(ioError: Option<int>): int { if ioError.Some? then ioError.value else 0 }

  /** What send_file_list writes for the entries es, with the end of the list,
      in front of tail. */
  function PutList(o: Options, start: nat, x: Tx, es: seq<File>, ioError: Option<int>, tail: bytes): bytes {
    PutAll(Putter(o, start), Stepper(o, start), x, es, PutEnd(o, ioError, tail))
  }

  /** recv_file_list. */
  function GetList(o: Options, start: nat, y: Rx, s: bytes): Parse<(Rx, int)>
    requires o.Valid()
  {
    ListFaithful(o, start);
    GetAll(Getter(o, start), y, s)
  }

  predicate AllGood(start: nat, y: Rx) {
    GoodName(y.st.last) && forall i :: 0 <= i < |y.files| ==> GoodFile(y.files[i], start + i)
  }

  /** Whatever bytes arrive, in a list that is not refused every name and every
      symlink fits, every length is one, and every link is to an entry before. */
  lemma ListGood(o: Options, start: nat, y: Rx, s: bytes)
    requires o.Valid() && AllGood(start, y)
    ensures GetList(o, start, y, s).Got? ==> AllGood(start, GetList(o, start, y, s).value.0)
  {
    ListFaithful(o, start);
    var inv := (z: Rx) => AllGood(start, z);
    forall z, t | inv(z) && Getter(o, start)(z, t).Got? && Getter(o, start)(z, t).value.More?
      ensures inv(Getter(o, start)(z, t).value.next)
    {
      var h := GetHead(o, t);
      EntryGood(o, z.st, z.files, start, h.value.flags, h.rest);
    }
    AllKeep(Getter(o, start), inv, y, s);
  }

  lemma EndStops(o: Options, start: nat, ioError: Option<int>, end: bytes, tail: bytes)
    requires ErrorOk(o, ioError) && end == PutEnd(o, ioError, tail)
    ensures forall z: Rx :: Getter(o, start)(z, end) == Got(Stop(ErrorOf(ioError)), tail)
  {
    EndRoundTrip(o, ioError, tail);
  }

  lemma StartRelated(o: Options, start: nat, x: Tx, y: Rx)
    requires x.st == y.st && x.done == [] && y.files == [] && IdevOk(x.idev, start, []) && Indexable(start)
    ensures Related(o, start, x, y) == true
  {
  }

  /** A whole list arrives, whatever comes after it: every entry as it was sent,
      in its link group, with both sides' static variables the same again, and
      nothing taken for the end but the end. */
  lemma ListRoundTrip(o: Options, start: nat, st: St, idev: Idev, es: seq<File>, ioError: Option<int>, tail: bytes)
    returns (x': Tx, y': Rx)
    requires o.Valid() && AllSendable(o, es) && Shared(es) && Indexable(start + |es|) && IdevOk(idev, start, []) && ErrorOk(o, ioError)
    ensures GetList(o, start, Rx(st, []), PutList(o, start, Tx(st, idev, []), es, ioError, tail)) == Got((y', ErrorOf(ioError)), tail)
    ensures x' == Feed(Stepper(o, start), Tx(st, idev, []), es) && x'.done == es && Related(o, start, x', y') == true
  {
    var x, y := Tx(st, idev, []), Rx(st, []);
    ListFaithful(o, start);
    assert x.done + es == es;
    ListOk(o, start, x, es);
    FeedDone(o, start, x, es);
    var end := PutEnd(o, ioError, tail);
    EndStops(o, start, ioError, end, tail);
    StartRelated(o, start, x, y);
    y' := AllTaken(Putter(o, start), Stepper(o, start), Getter(o, start), Relater(o, start), Allower(o, start),
                   x, y, es, end, ErrorOf(ioError), tail);
    x' := Feed(Stepper(o, start), x, es);
  }

  /** The fields that the options keep are the sender's.  The kinds of file are
      told by the four bits of S_IFMT: 4 is a directory, 2 and 6 are devices,
      8 a regular file and 10 a symlink. */
  predicate Keeps(o: Options, e: File, r: File) {
    var fmt := e.mode / 0x1000 % 16;
    && r.name == e.name && r.kind == e.kind && r.mode == e.mode && r.length == e.length && r.mtime == e.mtime
    && r.nsec == (if o.p31 then e.nsec else 0)
    && (o.atimes && fmt != 4 ==> r.atime == e.atime) && (o.crtimes ==> r.crtime == e.crtime)
    && (o.uid ==> r.uid == e.uid) && (o.gid ==> r.gid == e.gid)
    && (o.devices && (fmt == 2 || fmt == 6) ==> r.major == e.major && r.minor == e.minor)
    && (o.links && fmt == 10 ==> r.symlink == e.symlink) && (o.checksum && fmt == 8 ==> r.sum == e.sum)
  }

  lemma ReceivedKeeps(o: Options, e: File, link: Option<int>)
    ensures Keeps(o, e, Received(o, e, link))
  {
  }

  /** What being related means for one entry: the fields the options keep are
      the sender's, and two links have one group exactly when they are links
      to one inode. */
  lemma RelatedMeans(o: Options, start: nat, x: Tx, y: Rx, i: nat, j: nat)
    requires Related(o, start, x, y) && i < |x.done| && j < |x.done|
    ensures |y.files| == |x.done| && Keeps(o, x.done[i], y.files[i])
    ensures o.hardLinks && x.done[i].link.Some? && x.done[j].link.Some? ==>
      y.files[i].link.Some? && (y.files[i].link == y.files[j].link <==> x.done[i].link == x.done[j].link)
  {
    ReceivedKeeps(o, x.done[i], y.files[i].link);
    if o.hardLinks && x.done[i].link.Some? && x.done[j].link.Some? {
      var k, l := x.done[i].link.value, x.done[j].link.value;
      assert k in x.idev && l in x.idev;
      assert y.files[i].link == Some(x.idev[k]) && y.files[j].link == Some(x.idev[l]);
    }
  }

  /** The next list of an incremental transfer starts from what this one left. */
  lemma NextList(o: Options, start: nat, x: Tx, y: Rx, next: nat)
    requires Related(o, start, x, y) && next >= start + |x.done| && Indexable(next)
    ensures x.st == y.st && IdevOk(x.idev, next, []) && Related(o, next, x.(done := []), Rx(y.st, []))
  {
  }
}

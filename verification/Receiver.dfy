/** The receiver's rebuild of a file (rsync/receiver.c) over buffered writes
    (rsync/fileio.c), into a new file or in place over the basis itself. */
module Receiver {
  import opened ByteOrder
  import opened Checksum
  import opened Delta
  import opened MapFile

  const WF_WRITE_BUF_SIZE: nat := 8 * 0x8000

  /** Bytes d written at pos over b. */
  function Overwrite(b: bytes, pos: nat, d: bytes): bytes
    requires pos <= |b|
  {
    b[..pos] + d + (if pos + |d| <= |b| then b[pos + |d|..] else [])
  }

  /** The positions from a up to b. */
  function Range(a: int, b: int): (r: set<int>)
    ensures forall k :: k in r <==> a <= k < b
    decreases b - a
  {
    if a >= b then {} else {a} + Range(a + 1, b)
  }

  lemma OverwriteSplit(b: bytes, pos: nat, d: bytes, n: nat)
    requires pos <= |b| && n <= |d|
    ensures Overwrite(Overwrite(b, pos, d[..n]), pos + n, d[n..]) == Overwrite(b, pos, d)
  {
  }

  /** now differs from was only between from and to. */
  ghost predicate Promised(was: bytes, now: bytes, from: nat, to: nat) {
    && |was| <= |now|
    && forall q :: 0 <= q < |was| && !(from <= q < to) ==> now[q] == was[q]
  }

  lemma PromisedTwice(a: bytes, b: bytes, c: bytes, from: nat, mid: nat, to: nat, end: nat)
    requires Promised(a, b, from, to) && Promised(b, c, mid, end) && from <= mid && to <= end
    ensures Promised(a, c, from, end)
  {
  }

  /** Writing n more of the bytes of data behind the first k. */
  lemma OverwriteNext(b: bytes, pos: nat, data: bytes, k: nat, n: nat)
    requires pos <= |b| && k + n <= |data|
    ensures Overwrite(Overwrite(b, pos, data[..k]), pos + k, data[k..][..n]) == Overwrite(b, pos, data[..k + n])
  {
    var d := data[..k + n];
    assert d[..k] == data[..k] && d[k..] == data[k..][..n];
    OverwriteSplit(b, pos, d, k);
  }

  lemma OverwriteNothing(b: bytes, pos: nat)
    requires pos <= |b|
    ensures Overwrite(b, pos, []) == b
  {
  }

  /** The write descriptor with wf_writeBuf in front of it. */
  class Writer {
    const file: DiskFile
    var pos: nat
    var pending: bytes

    constructor (f: DiskFile)
      ensures file == f && pos == 0 && pending == []
    {
      file, pos, pending := f, 0, [];
    }

    ghost predicate Valid()
      reads this, file
    {
      pos <= |file.content| && |pending| <= WF_WRITE_BUF_SIZE
    }

    /** The file as it will be once the buffer is written out. */
    ghost function Logical(): bytes
      requires Valid()
      reads this, file
    {
      Overwrite(file.content, pos, pending)
    }

    /** Where the next byte goes. */
    function At(): nat
      reads this
    {
      pos + |pending|
    }

    /** Only positions already promised to the buffer differ from before. */
    twostate predicate OnlyPromised(from: nat, to: nat)
      reads this, file
    {
      Promised(old(file.content), file.content, from, to)
    }

    /** flush_write_file: short writes are retried until the buffer is empty. */
    method Flush()
      requires Valid()
      modifies this, file
      ensures Valid() && pending == [] && pos == old(At())
      ensures file.content == Logical() == old(Logical())
      ensures OnlyPromised(old(pos), old(At()))
    {
      while |pending| > 0
        invariant Valid() && At() == old(At()) && old(pos) <= pos
        invariant Logical() == old(Logical())
        invariant OnlyPromised(old(pos), old(At()))
      {
        var n :| 1 <= n <= |pending|;
        WriteSome(n);
      }
      OverwriteNothing(file.content, pos);
    }

    /** n bytes of what is pending reach the file. */
    method WriteSome(n: nat)
      requires Valid() && 1 <= n <= |pending|
      modifies this`pos, this`pending, file
      ensures Valid() && At() == old(At()) && pos == old(pos) + n && |pending| == old(|pending|) - n
      ensures Logical() == old(Logical()) && OnlyPromised(old(pos), old(At()))
    {
      OverwriteSplit(file.content, pos, pending, n);
      file.content := Overwrite(file.content, pos, pending[..n]);
      pos := pos + n;
      pending := pending[n..];
    }

    /** One turn of write_file's loop: copy what fits, flush when full. */
    method Put(data: bytes) returns (n: nat)
      requires Valid() && |data| > 0 && |pending| < WF_WRITE_BUF_SIZE
      modifies this, file
      ensures Valid() && |pending| < WF_WRITE_BUF_SIZE && 0 < n <= |data|
      ensures At() == old(At()) + n && old(pos) <= pos
      ensures Logical() == Overwrite(old(Logical()), old(At()), data[..n])
      ensures OnlyPromised(old(pos), At())
    {
      n := if |data| < WF_WRITE_BUF_SIZE - |pending| then |data| else WF_WRITE_BUF_SIZE - |pending|;
      ghost var before := Logical();
      OverwriteSplit(file.content, pos, pending + data[..n], |pending|);
      assert (pending + data[..n])[..|pending|] == pending && (pending + data[..n])[|pending|..] == data[..n];
      pending := pending + data[..n];
      assert Logical() == Overwrite(before, old(At()), data[..n]);
      if |pending| == WF_WRITE_BUF_SIZE {
        Flush();
      }
    }

    /** write_file without sparse writing. */
    method WriteFile(data: bytes)
      requires Valid() && |pending| < WF_WRITE_BUF_SIZE
      modifies this, file
      ensures Valid() && |pending| < WF_WRITE_BUF_SIZE
      ensures At() == old(At()) + |data| && old(pos) <= pos
      ensures Logical() == Overwrite(old(Logical()), old(At()), data)
      ensures OnlyPromised(old(pos), At())
    {
      var done := 0;
      OverwriteNothing(Logical(), At());
      while done < |data|
        invariant 0 <= done <= |data|
        invariant Valid() && |pending| < WF_WRITE_BUF_SIZE && old(pos) <= pos
        invariant At() == old(At()) + done
        invariant Logical() == Overwrite(old(Logical()), old(At()), data[..done])
        invariant OnlyPromised(old(pos), At())
      {
        var n := PutNext(data, done, old(Logical()), old(At()), old(file.content), old(pos));
        done := done + n;
      }
      assert data[..done] == data;
    }

    /** The next part of data, after the first done bytes of it. */
    method PutNext(data: bytes, done: nat, ghost was: bytes, ghost at: nat, ghost content: bytes, ghost from: nat) returns (n: nat)
      requires Valid() && |pending| < WF_WRITE_BUF_SIZE && done < |data| && from <= pos
      requires at <= |was| && At() == at + done && Logical() == Overwrite(was, at, data[..done])
      requires Promised(content, file.content, from, At())
      modifies this, file
      ensures Valid() && |pending| < WF_WRITE_BUF_SIZE && 0 < n && done + n <= |data| && from <= pos
      ensures At() == at + done + n && Logical() == Overwrite(was, at, data[..done + n])
      ensures Promised(content, file.content, from, At())
    {
      ghost var (before, mid, to) := (file.content, pos, At());
      n := Put(data[done..]);
      PromisedTwice(content, before, file.content, from, mid, to, At());
      OverwriteNext(was, at, data, done, n);
    }

    /** skip_matched: write out what is pending, then seek over len bytes. */
    method SkipMatched(len: nat)
      requires Valid() && At() + len <= |Logical()|
      modifies this, file
      ensures Valid() && pending == [] && At() == old(At()) + len && old(pos) <= pos
      ensures Logical() == old(Logical())
      ensures OnlyPromised(old(pos), old(At()))
    {
      Flush();
      pos := pos + len;
      OverwriteNothing(file.content, pos);
    }
  }

  // ----- receive_data -----

  /** The bytes of token m were skipped over, not written, when it was replayed. */
  predicate Skipped(g: Geometry, ts: seq<Token>, m: nat, updating: bool)
    requires m < |ts|
  {
    updating && ts[m].Match? && Start(g, ts, m) == g.Offset(ts[m].block)
  }

  predicate Untouched(g: Geometry, b: nat, dirty: set<int>) {
    forall q :: g.Offset(b) <= q < g.Offset(b) + g.Len(b) ==> q !in dirty
  }

  /** The state after k tokens: the front of the file is their replay, the rest
      is as it was, and `dirty` holds every position written or promised. */
  ghost predicate Midway(basis: bytes, init: bytes, g: Geometry, ts: seq<Token>, k: nat, updating: bool,
                         w: Writer, dirty: set<int>)
    requires g.Valid() && |basis| == g.Flength() && WellFormed(g, ts) && k <= |ts|
    reads w, w.file
  {
    && w.Valid() && |w.pending| < WF_WRITE_BUF_SIZE
    && w.At() == Start(g, ts, k)
    && Front(w.Logical(), init, w.At(), Prefix(basis, g, ts, k))
    && (forall q :: q in dirty ==> 0 <= q < w.At())
    && (forall q :: w.pos <= q < w.At() ==> q in dirty)
    && (forall m :: 0 <= m < k && Skipped(g, ts, m, updating) ==> Untouched(g, ts[m].block, dirty))
  }

  function Prefix(basis: bytes, g: Geometry, ts: seq<Token>, k: nat): bytes
    requires g.Valid() && |basis| == g.Flength() && WellFormed(g, ts) && k <= |ts|
  {
    Replay(basis, g, ts[..k])
  }

  /** A file whose first `at` bytes are `front` and whose rest is that of init. */
  predicate Front(file: bytes, init: bytes, at: nat, front: bytes) {
    && |file| == (if at <= |init| then |init| else at)
    && file[..at] == front
    && forall q :: at <= q < |init| ==> file[q] == init[q]
  }

  lemma FrontWrite(file: bytes, init: bytes, at: nat, front: bytes, d: bytes)
    requires Front(file, init, at, front)
    ensures Front(Overwrite(file, at, d), init, at + |d|, front + d)
  {
  }

  lemma FrontSkip(file: bytes, init: bytes, at: nat, front: bytes, d: bytes)
    requires Front(file, init, at, front) && at + |d| <= |init| && init[at..at + |d|] == d
    ensures Front(file, init, at + |d|, front + d)
  {
    forall i | 0 <= i < |d| ensures file[at + i] == d[i] {
      assert init[at..at + |d|][i] == d[i];
    }
    assert file[..at + |d|] == file[..at] + d;
  }

  lemma PrefixStep(basis: bytes, g: Geometry, ts: seq<Token>, k: nat)
    requires g.Valid() && |basis| == g.Flength() && WellFormed(g, ts) && k < |ts|
    ensures ts[k].Match? ==> ts[k].block < g.count
    ensures Prefix(basis, g, ts, k + 1) == Prefix(basis, g, ts, k) + TokenBytes(basis, g, ts[k])
    ensures Start(g, ts, k + 1) == Start(g, ts, k) + TokenLen(g, ts[k])
    ensures |TokenBytes(basis, g, ts[k])| == TokenLen(g, ts[k])
  {
    assert ts[..k + 1] == ts[..k] + [ts[k]];
    assert ts[k] in ts;
    ReplaySnoc(basis, g, ts[..k], ts[k]);
    OutLenSnoc(g, ts[..k], ts[k]);
  }

  lemma {:induction false} StartMonotone(g: Geometry, ts: seq<Token>, m: nat, k: nat)
    requires m < k <= |ts|
    ensures Start(g, ts, m) + TokenLen(g, ts[m]) <= Start(g, ts, k)
    decreases k
  {
    assert ts[..k] == ts[..k - 1] + [ts[k - 1]];
    OutLenSnoc(g, ts[..k - 1], ts[k - 1]);
    if m < k - 1 { StartMonotone(g, ts, m, k - 1); }
  }

  lemma AgreesMore(w: bytes, start: nat, orig: bytes, less: set<int>, more: set<int>)
    requires Agrees(w, start, orig, less) && less <= more
    ensures Agrees(w, start, orig, more)
  {
  }

  /** A matched block is still intact when the stream keeps the in-place rule. */
  lemma BlockIntact(basis: bytes, init: bytes, g: Geometry, ts: seq<Token>, k: nat, w: Writer, dirty: set<int>)
    requires g.Valid() && |basis| == g.Flength() && WellFormed(g, ts) && k < |ts| && ts[k].Match?
    requires Midway(basis, init, g, ts, k, true, w, dirty) && SafeAt(g, ts, k)
    ensures Untouched(g, ts[k].block, dirty)
  {
    if g.Offset(ts[k].block) < Start(g, ts, k) {
      var m :| 0 <= m < k && ts[m] == Match(ts[k].block) && Start(g, ts, m) == g.Offset(ts[k].block);
      assert Skipped(g, ts, m, true);
    }
  }

  /** Write the bytes of token k at the end of what is rebuilt. */
  method WriteToken(data: bytes, ghost basis: bytes, ghost init: bytes, g: Geometry, ghost ts: seq<Token>,
                    ghost k: nat, updating: bool, w: Writer, ghost dirty: set<int>) returns (ghost dirty': set<int>)
    requires g.Valid() && |basis| == g.Flength() && WellFormed(g, ts) && k < |ts|
    requires Midway(basis, init, g, ts, k, updating, w, dirty) && !Skipped(g, ts, k, updating)
    requires (ts[k].Match? ==> ts[k].block < g.count) && data == TokenBytes(basis, g, ts[k])
    modifies w, w.file
    ensures Midway(basis, init, g, ts, k + 1, updating, w, dirty')
    ensures dirty <= dirty' && Unpromised(old(w.file.content), w.file.content, dirty')
  {
    PrefixStep(basis, g, ts, k);
    FrontWrite(w.Logical(), init, w.At(), Prefix(basis, g, ts, k), data);
    dirty' := dirty + Range(w.At(), w.At() + |data|);
    forall m | 0 <= m < k && Skipped(g, ts, m, updating) ensures Untouched(g, ts[m].block, dirty') {
      StartMonotone(g, ts, m, k);
    }
    w.WriteFile(data);
  }

  /** Outside the dirty positions the file on disk has not changed. */
  predicate Unpromised(before: bytes, after: bytes, dirty: set<int>) {
    |before| <= |after| && forall q :: 0 <= q < |before| && q !in dirty ==> after[q] == before[q]
  }

  /** Seek over a block that is already in place. */
  method SkipToken(ghost basis: bytes, ghost init: bytes, g: Geometry, ghost ts: seq<Token>,
                   ghost k: nat, len: nat, w: Writer, ghost dirty: set<int>)
    requires g.Valid() && |basis| == g.Flength() && WellFormed(g, ts) && k < |ts|
    requires Midway(basis, init, g, ts, k, true, w, dirty) && Skipped(g, ts, k, true)
    requires ts[k].block < g.count && len == g.Len(ts[k].block) && init == basis
    modifies w, w.file
    ensures Midway(basis, init, g, ts, k + 1, true, w, dirty)
    ensures Unpromised(old(w.file.content), w.file.content, dirty)
  {
    PrefixStep(basis, g, ts, k);
    g.BlockInside(ts[k].block);
    FrontSkip(w.Logical(), init, w.At(), Prefix(basis, g, ts, k), Block(basis, g, ts[k].block));
    w.SkipMatched(len);
  }

  /** The basis reader, whose file may be the very one being written. */
  ghost predicate ReaderOk(mapbuf: MapStruct, basis: bytes, w: Writer, dirty: set<int>)
    reads mapbuf, mapbuf.p, mapbuf.file
  {
    var d := if mapbuf.file == w.file then dirty else {};
    mapbuf.fileSize == |basis| && mapbuf.Valid(basis, d) && mapbuf.FileAgrees(basis, d)
  }

  lemma ReaderStill(mapbuf: MapStruct, basis: bytes, before: bytes, after: bytes, less: set<int>, more: set<int>)
    requires Unpromised(before, after, more) && less <= more
    requires forall k :: 0 <= k < |basis| && k !in less ==> k < |before| && before[k] == basis[k]
    ensures forall k :: 0 <= k < |basis| && k !in more ==> k < |after| && after[k] == basis[k]
  {
  }

  /** The block through the window, if no byte of it was overwritten. */
  method ReadBlock(mapbuf: MapStruct, ghost basis: bytes, ghost g: Geometry, ghost i: nat, offset2: nat, len: nat,
                   ghost w: Writer, ghost dirty: set<int>) returns (data: bytes)
    requires g.Valid() && |basis| == g.Flength() && i < g.count && offset2 == g.Offset(i) && len == g.Len(i)
    requires ReaderOk(mapbuf, basis, w, dirty) && (mapbuf.file == w.file ==> Untouched(g, i, dirty))
    modifies mapbuf, mapbuf.p
    ensures ReaderOk(mapbuf, basis, w, dirty)
    ensures mapbuf.p == old(mapbuf.p) || fresh(mapbuf.p)
    ensures data == Block(basis, g, i)
  {
    g.BlockInside(i);
    data := mapbuf.MapPtr(offset2, len, basis, if mapbuf.file == w.file then dirty else {});
  }

  /** A matched token: read the block, feed the sum, write it or skip over it. */
  method MatchToken(mapbuf: MapStruct, ghost basis: bytes, ghost init: bytes, g: Geometry, ts: seq<Token>, k: nat,
                    updating: bool, w: Writer, ghost dirty: set<int>) returns (data: bytes, ghost dirty': set<int>)
    requires g.Valid() && |basis| == g.Flength() && WellFormed(g, ts) && k < |ts| && ts[k].Match? && ts[k].block < g.count
    requires Midway(basis, init, g, ts, k, updating, w, dirty) && ReaderOk(mapbuf, basis, w, dirty)
    requires updating ==> init == basis
    requires mapbuf.file == w.file ==> updating && SafeAt(g, ts, k)
    modifies w, w.file, mapbuf, mapbuf.p
    ensures Midway(basis, init, g, ts, k + 1, updating, w, dirty')
    ensures mapbuf.p == old(mapbuf.p) || fresh(mapbuf.p)
    ensures ReaderOk(mapbuf, basis, w, dirty')
    ensures data == TokenBytes(basis, g, ts[k])
  {
    var i := ts[k].block;
    var offset2 := i * g.blength;
    var len := if i == g.count - 1 && g.remainder != 0 then g.remainder else g.blength;
    g.BlockInside(i);
    if mapbuf.file == w.file { BlockIntact(basis, init, g, ts, k, w, dirty); }
    data := ReadBlock(mapbuf, basis, g, i, offset2, len, w, dirty);
    ghost var before := w.file.content;
    if updating && w.At() == offset2 {
      SkipToken(basis, init, g, ts, k, len, w, dirty);
      dirty' := dirty;
    } else {
      dirty' := WriteToken(data, basis, init, g, ts, k, updating, w, dirty);
    }
    if mapbuf.file == w.file {
      ReaderStill(mapbuf, basis, before, w.file.content, dirty, dirty');
      AgreesMore(mapbuf.p[..mapbuf.pLen], mapbuf.pOffset, basis, dirty, dirty');
    }
  }

  method LiteralToken(mapbuf: MapStruct?, ghost basis: bytes, ghost init: bytes, g: Geometry, ts: seq<Token>, k: nat,
                      updating: bool, w: Writer, ghost dirty: set<int>) returns (data: bytes, ghost dirty': set<int>)
    requires g.Valid() && |basis| == g.Flength() && WellFormed(g, ts) && k < |ts| && ts[k].Literal?
    requires Midway(basis, init, g, ts, k, updating, w, dirty)
    requires mapbuf != null ==> ReaderOk(mapbuf, basis, w, dirty)
    modifies w, w.file
    ensures Midway(basis, init, g, ts, k + 1, updating, w, dirty')
    ensures mapbuf != null ==> ReaderOk(mapbuf, basis, w, dirty')
    ensures data == TokenBytes(basis, g, ts[k])
  {
    data := ts[k].data;
    ghost var before := w.file.content;
    dirty' := WriteToken(data, basis, init, g, ts, k, updating, w, dirty);
    if mapbuf != null && mapbuf.file == w.file {
      ReaderStill(mapbuf, basis, before, w.file.content, dirty, dirty');
      AgreesMore(mapbuf.p[..mapbuf.pLen], mapbuf.pOffset, basis, dirty, dirty');
    }
  }

  /** What the receive loop keeps. */
  ghost predicate Receiving<S(0)>(mapbuf: MapStruct?, basis: bytes, init: bytes, g: Geometry, ts: seq<Token>, k: nat,
                                  updating: bool, w: Writer, sum: FileSum<S>, dirty: set<int>)
    requires g.Valid() && |basis| == g.Flength() && WellFormed(g, ts) && k <= |ts|
    reads w, w.file, sum, mapbuf, if mapbuf == null then {} else {mapbuf.p, mapbuf.file}
  {
    && Midway(basis, init, g, ts, k, updating, w, dirty)
    && (mapbuf != null ==> ReaderOk(mapbuf, basis, w, dirty))
    && sum.Valid() && sum.fed == Prefix(basis, g, ts, k)
  }

  method OneToken<S(0)>(mapbuf: MapStruct?, ghost basis: bytes, ghost init: bytes, g: Geometry, ts: seq<Token>, k: nat,
                        updating: bool, w: Writer, sum: FileSum<S>, ghost dirty: set<int>) returns (ghost dirty': set<int>)
    requires g.Valid() && |basis| == g.Flength() && WellFormed(g, ts) && k < |ts|
    requires Receiving(mapbuf, basis, init, g, ts, k, updating, w, sum, dirty)
    requires mapbuf == null ==> ts[k].Literal?
    requires updating ==> init == basis
    requires mapbuf != null && mapbuf.file == w.file ==> updating && SafeAt(g, ts, k)
    modifies w, w.file, sum, mapbuf, if mapbuf == null then {} else {mapbuf.p}
    ensures Receiving(mapbuf, basis, init, g, ts, k + 1, updating, w, sum, dirty')
    ensures mapbuf != null ==> mapbuf.p == old(mapbuf.p) || fresh(mapbuf.p)
  {
    assert ts[k] in ts;
    PrefixStep(basis, g, ts, k);
    var data;
    if ts[k].Literal? {
      data, dirty' := LiteralToken(mapbuf, basis, init, g, ts, k, updating, w, dirty);
    } else {
      data, dirty' := MatchToken(mapbuf, basis, init, g, ts, k, updating, w, dirty);
    }
    sum.Update(data);
  }

  /** receive_data.  Whether the basis is read from another file or is the very
      file being rewritten, the result is the replay over an untouched basis. */
  method ReceiveData<S(0), D(==)>(ts: seq<Token>, g: Geometry, updating: bool, inplaceSizing: bool, mapbuf: MapStruct?,
                                  w: Writer, sum: FileSum<S>, finish: (S, bytes) -> D, senderSum: D, ghost basis: bytes)
    returns (recvOk: bool)
    requires g.Valid() && |basis| == g.Flength() && WellFormed(g, ts)
    requires w.pos == 0 && w.pending == [] && sum.Valid() && sum.fed == []
    requires mapbuf == null ==> forall t <- ts :: t.Literal?
    requires mapbuf != null ==> ReaderOk(mapbuf, basis, w, {})
    requires updating ==> w.file.content == basis
    requires mapbuf != null && mapbuf.file == w.file ==> updating && InPlaceSafe(g, ts)
    requires !inplaceSizing ==> w.file.content == []
    modifies w, w.file, sum, mapbuf, if mapbuf == null then {} else {mapbuf.p}
    ensures w.file.content == Replay(basis, g, ts)
    ensures sum.Valid() && sum.fed == Replay(basis, g, ts)
    ensures recvOk <==> Digest(sum.core, sum.start, finish, Replay(basis, g, ts)) == senderSum
  {
    ghost var init := w.file.content;
    ghost var dirty: set<int> := {};
    OverwriteNothing(init, 0);
    var k := 0;
    while k < |ts|
      invariant 0 <= k <= |ts| && Receiving(mapbuf, basis, init, g, ts, k, updating, w, sum, dirty)
      invariant mapbuf != null ==> mapbuf.p == old(mapbuf.p) || fresh(mapbuf.p)
    {
      assert ts[k] in ts;
      assert InPlaceSafe(g, ts) ==> SafeAt(g, ts, k);
      dirty := OneToken(mapbuf, basis, init, g, ts, k, updating, w, sum, dirty);
      k := k + 1;
    }
    assert ts[..k] == ts;
    EndData(w, inplaceSizing, init, Replay(basis, g, ts));
    var fileSum1 := sum.End(finish);
    recvOk := fileSum1 == senderSum;
  }

  /** Write out what is pending and cut off any old tail. */
  method EndData(w: Writer, inplaceSizing: bool, ghost init: bytes, ghost out: bytes)
    requires w.Valid() && Front(w.Logical(), init, w.At(), out) && (!inplaceSizing ==> init == [])
    modifies w, w.file
    ensures w.file.content == out
  {
    w.Flush();
    if inplaceSizing {
      w.file.content := w.file.content[..w.pos];
    }
  }
}

/** The sliding read window over a file: map_file and map_ptr of rsync/fileio.c. */
module MapFile {
  import opened ByteOrder

  const ALIGN_BOUNDARY: nat := 1024

  function AlignedOvershoot(offset: nat): (r: nat)
    ensures r <= offset && r < 1024 && exists k: nat :: offset - r == k * 1024
  {
    assert offset - offset % ALIGN_BOUNDARY == offset / ALIGN_BOUNDARY * 1024;
    offset % ALIGN_BOUNDARY
  }

  function AlignedLength(len: nat): (r: nat)
    requires len > 0
    ensures len <= r < len + 1024 && exists k: nat :: r == k * 1024
  {
    assert (len - 1) / ALIGN_BOUNDARY * ALIGN_BOUNDARY + ALIGN_BOUNDARY == ((len - 1) / ALIGN_BOUNDARY + 1) * 1024;
    (len - 1) / ALIGN_BOUNDARY * ALIGN_BOUNDARY + ALIGN_BOUNDARY
  }

  /** A file on disk; every descriptor open on it sees the same bytes. */
  class DiskFile {
    var content: bytes

    constructor (b: bytes)
      ensures content == b
    {
      content := b;
    }
  }

  /** Bytes that sit at `start` in a file agree with orig outside the dirty positions. */
  ghost predicate Agrees(w: bytes, start: nat, orig: bytes, dirty: set<int>) {
    forall i :: 0 <= i < |w| && start + i < |orig| && start + i !in dirty ==> w[i] == orig[start + i]
  }

  lemma AgreesSlice(w: bytes, start: nat, orig: bytes, dirty: set<int>, lo: nat, hi: nat)
    requires Agrees(w, start, orig, dirty) && lo <= hi <= |w|
    ensures Agrees(w[lo..hi], start + lo, orig, dirty)
  {
    forall i | 0 <= i < hi - lo && start + lo + i < |orig| && start + lo + i !in dirty
      ensures w[lo..hi][i] == orig[start + lo + i]
    {
      assert w[lo + i] == orig[start + (lo + i)];
    }
  }

  lemma AgreesConcat(v: bytes, w: bytes, start: nat, orig: bytes, dirty: set<int>)
    requires Agrees(v, start, orig, dirty) && Agrees(w, start + |v|, orig, dirty)
    ensures Agrees(v + w, start, orig, dirty)
  {
    forall i | 0 <= i < |v + w| && start + i < |orig| && start + i !in dirty
      ensures (v + w)[i] == orig[start + i]
    {
      if i >= |v| {
        assert w[i - |v|] == orig[start + |v| + (i - |v|)];
      }
    }
  }

  /** A read descriptor with its window.  The file may be changed by others
      between calls: outside the positions in `dirty` it still holds orig. */
  class MapStruct {
    const file: DiskFile
    const fileSize: nat
    const defWindowSize: nat
    var cursor: nat
    var pOffset: nat
    var pFdOffset: nat
    var p: array<byte>
    var pLen: nat
    var status: bool

    ghost predicate Valid(orig: bytes, dirty: set<int>)
      reads this, p
    {
      && defWindowSize > 0
      && cursor == pFdOffset
      && pLen <= p.Length
      && |orig| == fileSize
      && Agrees(p[..pLen], pOffset, orig, dirty)
    }

    /** The file still holds orig at every position that is not dirty. */
    ghost predicate FileAgrees(orig: bytes, dirty: set<int>)
      reads file
    {
      forall k :: 0 <= k < |orig| && k !in dirty ==> k < |file.content| && file.content[k] == orig[k]
    }

    constructor (f: DiskFile, len: nat, readSize: nat, blkSize: nat)
      requires readSize > 0
      ensures file == f && fileSize == len && fresh(p)
      ensures defWindowSize > 0 && cursor == pFdOffset && pLen == 0
    {
      var size: int := readSize;
      if blkSize != 0 && size % blkSize != 0 {
        size := size + (blkSize - size % blkSize);
      }
      file, fileSize, defWindowSize := f, len, AlignedLength(size);
      cursor, pOffset, pFdOffset, pLen := 0, 0, 0, 0;
      p := new byte[0];
      status := false;
    }

    /** One read(2): some bytes at the cursor, none only at end of file. */
    method ReadFd(want: nat) returns (chunk: bytes)
      requires want > 0
      modifies this`cursor
      ensures |chunk| <= want && cursor == old(cursor) + |chunk|
      ensures old(cursor) < |file.content| ==>
                |chunk| > 0 && cursor <= |file.content| && chunk == file.content[old(cursor)..cursor]
      ensures old(cursor) >= |file.content| ==> chunk == []
    {
      if cursor >= |file.content| {
        return [];
      }
      var n :| 1 <= n <= want && cursor + n <= |file.content|;
      chunk := file.content[cursor..cursor + n];
      cursor := cursor + n;
    }

    /** The read loop of map_ptr: fill p[start..start+size). */
    method Fill(start: nat, size: nat, ghost orig: bytes, ghost dirty: set<int>)
      requires start + size <= p.Length && cursor == pFdOffset == pOffset + start
      requires FileAgrees(orig, dirty)
      requires Agrees(p[..start], pOffset, orig, dirty)
      modifies this`cursor, this`pFdOffset, this`status, p
      ensures cursor == pFdOffset
      ensures Agrees(p[..start + size], pOffset, orig, dirty)
    {
      var readOffset, readSize := start, size;
      while readSize > 0
        invariant 0 <= readOffset <= readOffset + readSize == start + size <= p.Length
        invariant cursor == pFdOffset == pOffset + readOffset
        invariant Agrees(p[..readOffset], pOffset, orig, dirty)
      {
        ghost var before := p[..readOffset];
        var chunk := ReadFd(readSize);
        if chunk == [] {
          status := true;
          forall i | readOffset <= i < readOffset + readSize {
            p[i] := 0;
          }
          ghost var zeros := p[readOffset..start + size];
          assert p[..start + size] == before + zeros;
          assert Agrees(zeros, pOffset + |before|, orig, dirty);
          AgreesConcat(before, zeros, pOffset, orig, dirty);
          return;
        }
        forall i | readOffset <= i < readOffset + |chunk| {
          p[i] := chunk[i - readOffset];
        }
        assert p[..readOffset + |chunk|] == before + chunk;
        AgreesConcat(before, chunk, pOffset, orig, dirty);
        pFdOffset := pFdOffset + |chunk|;
        readOffset := readOffset + |chunk|;
        readSize := readSize - |chunk|;
      }
    }

    /** Reallocate the window if it is too small. */
    method Enlarge(windowSize: nat)
      requires pLen <= p.Length
      modifies this`p
      ensures (p == old(p) || fresh(p)) && windowSize <= p.Length && pLen <= p.Length && p[..pLen] == old(p[..pLen])
    {
      if windowSize > p.Length {
        var bigger := new byte[windowSize](i => 0);
        forall i | 0 <= i < p.Length {
          bigger[i] := p[i];
        }
        p := bigger;
      }
    }

    /** Reallocate and slide: keep what the old window shares with the new one
        and say how much that is. */
    method Reuse(windowStart: nat, windowSize: nat, ghost orig: bytes, ghost dirty: set<int>) returns (readOffset: nat)
      requires Valid(orig, dirty) && windowSize > 0
      requires !(pOffset <= windowStart < windowStart + windowSize == pOffset + pLen)
      modifies this`p, p
      ensures p == old(p) || fresh(p)
      ensures readOffset < windowSize <= p.Length
      ensures readOffset > 0 ==> windowStart + readOffset == pOffset + pLen
      ensures Agrees(p[..readOffset], windowStart, orig, dirty)
    {
      ghost var held := p[..pLen];
      Enlarge(windowSize);
      if windowStart >= pOffset && windowStart < pOffset + pLen && windowStart + windowSize >= pOffset + pLen {
        readOffset := pOffset + pLen - windowStart;
        forall i | 0 <= i < readOffset {
          p[i] := p[i + (pLen - readOffset)];
        }
        assert p[..readOffset] == held[pLen - readOffset..pLen];
        AgreesSlice(held, pOffset, orig, dirty, pLen - readOffset, pLen);
      } else {
        readOffset := 0;
      }
    }

    function DesiredWindow(windowStart: nat, needed: nat): (size: nat)
      requires 0 < needed && windowStart + needed <= fileSize
      ensures size >= needed && (size > needed ==> size < needed + 1024 || size <= defWindowSize)
      ensures size >= defWindowSize || windowStart + size >= fileSize
    {
      var size := if windowStart + defWindowSize > fileSize then fileSize - windowStart else defWindowSize;
      if size < needed then AlignedLength(needed) else size
    }

    /** Move the window so that it starts at windowStart and holds windowSize bytes. */
    method Slide(windowStart: nat, windowSize: nat, ghost orig: bytes, ghost dirty: set<int>)
      requires Valid(orig, dirty) && FileAgrees(orig, dirty) && windowSize > 0
      requires !(pOffset <= windowStart < windowStart + windowSize == pOffset + pLen)
      modifies this, p
      ensures Valid(orig, dirty)
      ensures p == old(p) || fresh(p)
      ensures pOffset == windowStart && pLen == windowSize
    {
      var readOffset := Reuse(windowStart, windowSize, orig, dirty);
      var readStart := windowStart + readOffset;
      if pFdOffset != readStart {
        cursor := readStart;
        pFdOffset := readStart;
      }
      pOffset, pLen := windowStart, windowSize;
      Fill(readOffset, windowSize - readOffset, orig, dirty);
    }

    /** map_ptr: the len bytes at offset.  The exit on an invalid read_size is
        unreachable: Reuse always leaves something to read. */
    method MapPtr(offset: nat, len: nat, ghost orig: bytes, ghost dirty: set<int>) returns (data: bytes)
      requires Valid(orig, dirty) && FileAgrees(orig, dirty)
      requires len > 0 && offset + len <= fileSize
      modifies this, p
      ensures Valid(orig, dirty)
      ensures p == old(p) || fresh(p)
      ensures |data| == len && Agrees(data, offset, orig, dirty)
    {
      if !(offset >= pOffset && offset + len <= pOffset + pLen) {
        var alignFudge := AlignedOvershoot(offset);
        var windowSize := DesiredWindow(offset - alignFudge, len + alignFudge);
        Slide(offset - alignFudge, windowSize, orig, dirty);
      }
      ghost var held := p[..pLen];
      var at := offset - pOffset;
      data := p[at..at + len];
      assert data == held[at..at + len];
      AgreesSlice(held, pOffset, orig, dirty, at, at + len);
    }

    /** Over a file nobody changes, every request returns exactly its bytes. */
    method MapPtrUnchanged(offset: nat, len: nat, ghost orig: bytes) returns (data: bytes)
      requires Valid(orig, {}) && file.content == orig
      requires len > 0 && offset + len <= fileSize
      modifies this, p
      ensures Valid(orig, {})
      ensures p == old(p) || fresh(p)
      ensures data == orig[offset..offset + len]
    {
      data := MapPtr(offset, len, orig, {});
    }
  }
}

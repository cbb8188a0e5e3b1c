/** Frames of the multiplexed stream, and circular buffers (rsync/io.c). */
module Frames {
  import opened ByteOrder

  const MPLEX_BASE: int := 7
  const MSG_DATA: int := 0

  /** One message: its code and payload. */
  datatype Frame = Frame(code: nat, payload: bytes) {
    predicate Valid() { MPLEX_BASE + code < 256 && |payload| < 0x1000000 }

    predicate IsData() { code == MSG_DATA }
  }

  predicate AllValid(fs: seq<Frame>) { forall f <- fs :: f.Valid() }

  /** The 4-byte header, as SIVAL stores it. */
  function Header(code: nat, len: nat): bytes { Le(4, (MPLEX_BASE + code) * 0x1000000 + len) }

  function Encode(f: Frame): bytes { Header(f.code, |f.payload|) + f.payload }

  function EncodeAll(fs: seq<Frame>): bytes {
    if fs == [] then [] else Encode(fs[0]) + EncodeAll(fs[1..])
  }

  datatype Parsed = Parsed(frames: seq<Frame>, rest: bytes)

  /** read_a_msg over and over: the whole frames at the front, and what is left. */
  function ParseAll(s: bytes): Parsed
    decreases |s|
  {
    if |s| < 4 then Parsed([], s)
    else
      var v := Ival(s, 0);
      var len := v % 0x1000000;
      var tag := v / 0x1000000 - MPLEX_BASE;
      if tag < 0 || 4 + len > |s| then Parsed([], s)
      else
        var more := ParseAll(s[4 + len..]);
        Parsed([Frame(tag, s[4..4 + len])] + more.frames, more.rest)
  }

  lemma HeaderReads(code: nat, len: nat, rest: bytes)
    requires MPLEX_BASE + code < 256 && len < 0x1000000
    ensures Ival(Header(code, len) + rest, 0) == (MPLEX_BASE + code) * 0x1000000 + len
  {
    var x := (MPLEX_BASE + code) * 0x1000000 + len;
    var s := Header(code, len) + rest;
    IvalIsFromLe(s, 0);
    assert s[0..4] == Le(4, x);
    assert Pow256(4) == 0x100000000;
    FromLeOfLe(4, x);
  }

  lemma FourBytes(x: nat)
    ensures Le(4, x) == [x % 256, x / 256 % 256, x / 256 / 256 % 256, x / 256 / 256 / 256 % 256]
  {
    var (q, r) := (x / 256, x / 256 / 256);
    assert Le(4, x) == [x % 256] + Le(3, q) && Le(3, q) == [q % 256] + Le(2, r);
    assert Le(2, r) == [r % 256] + Le(1, r / 256) && Le(1, r / 256) == [r / 256 % 256] + Le(0, r / 256 / 256);
  }

  /** Three bytes of length, and the code above 7. */
  lemma HeaderBytes(code: nat, len: nat)
    requires 7 + code < 256 && len < 0x1000000
    ensures Header(code, len) == [len % 256, len / 256 % 256, len / 0x10000, 7 + code]
  {
    var (x, top) := ((MPLEX_BASE + code) * 0x1000000 + len, 7 + code);
    FourBytes(x);
    assert x / 256 == top * 0x10000 + len / 256;
    assert x / 256 / 256 == top * 0x100 + len / 256 / 256;
    assert x / 256 / 256 / 256 == top;
  }

  /** The first frame comes off whole. */
  lemma ParseOne(f: Frame, tail: bytes)
    requires f.Valid()
    ensures ParseAll(Encode(f) + tail) == Parsed([f] + ParseAll(tail).frames, ParseAll(tail).rest)
  {
    var n := |f.payload|;
    var s := Encode(f) + tail;
    assert s == Header(f.code, n) + (f.payload + tail);
    HeaderReads(f.code, n, f.payload + tail);
    var v := Ival(s, 0);
    assert v % 0x1000000 == n && v / 0x1000000 == MPLEX_BASE + f.code;
    assert s[4..4 + n] == f.payload && s[4 + n..] == tail;
  }

  /** Framing loses nothing: every sequence of frames parses back to itself. */
  lemma {:induction false} ParseEncoded(fs: seq<Frame>, rest: bytes)
    requires AllValid(fs)
    ensures ParseAll(EncodeAll(fs) + rest) == Parsed(fs + ParseAll(rest).frames, ParseAll(rest).rest)
    decreases |fs|
  {
    if fs == [] {
      assert EncodeAll(fs) + rest == rest && fs + ParseAll(rest).frames == ParseAll(rest).frames;
    } else {
      var tail := EncodeAll(fs[1..]) + rest;
      Regroup(Encode(fs[0]), EncodeAll(fs[1..]), rest);
      ParseOne(fs[0], tail);
      ParseEncoded(fs[1..], rest);
      Regroup([fs[0]], fs[1..], ParseAll(rest).frames);
      assert [fs[0]] + fs[1..] == fs;
    }
  }

  /** Of any part of a stream of frames, cut anywhere, only whole frames are
      parsed, and they are the first ones. */
  lemma {:induction false} ParseCut(fs: seq<Frame>, s: bytes)
    requires AllValid(fs) && s <= EncodeAll(fs)
    ensures ParseAll(s).frames <= fs
    decreases |fs|
  {
    if fs != [] {
      var (one, rest) := (Encode(fs[0]), EncodeAll(fs[1..]));
      if |s| < |one| {
        CutFrame(fs[0], s, rest);
      } else {
        var tail := s[|one|..];
        CutAfter(one, rest, s);
        ParseOne(fs[0], tail);
        ParseCut(fs[1..], tail);
        assert fs == [fs[0]] + fs[1..];
      }
    }
  }

  lemma CutAfter(one: bytes, rest: bytes, s: bytes)
    requires s <= one + rest && |one| <= |s|
    ensures s == one + s[|one|..] && s[|one|..] <= rest
  {
    assert (one + rest)[..|s|] == s;
    assert rest[..|s| - |one|] == (one + rest)[|one|..|s|];
  }

  /** A frame that is cut short is left alone. */
  lemma CutFrame(f: Frame, s: bytes, rest: bytes)
    requires f.Valid() && s <= Encode(f) + rest && |s| < |Encode(f)|
    ensures ParseAll(s) == Parsed([], s)
  {
    if |s| >= 4 {
      CutHeader(f, s, rest);
      HeaderReads(f.code, |f.payload|, s[4..]);
      ParseShort(s, f.code, |f.payload|);
    }
  }

  lemma CutHeader(f: Frame, s: bytes, rest: bytes)
    requires s <= Encode(f) + rest && |s| >= 4
    ensures s == Header(f.code, |f.payload|) + s[4..]
  {
    var (h, all) := (Header(f.code, |f.payload|), Encode(f) + rest);
    assert all == h + (f.payload + rest);
    assert s[..4] == all[..4] == h;
  }

  lemma ParseShort(s: bytes, code: nat, len: nat)
    requires |s| >= 4 && len < 0x1000000 && Ival(s, 0) == (MPLEX_BASE + code) * 0x1000000 + len && 4 + len > |s|
    ensures ParseAll(s) == Parsed([], s)
  {
  }

  lemma Regroup<T>(a: seq<T>, b: seq<T>, c: seq<T>)
    ensures a + b + c == a + (b + c)
  {
  }

  lemma EncodeFirst(f: Frame, fs: seq<Frame>)
    ensures EncodeAll([f] + fs) == Encode(f) + EncodeAll(fs)
  {
    assert ([f] + fs)[1..] == fs;
  }

  lemma {:induction false} EncodeConcat(a: seq<Frame>, b: seq<Frame>)
    ensures EncodeAll(a + b) == EncodeAll(a) + EncodeAll(b)
    decreases |a|
  {
    if a == [] {
      assert a + b == b;
    } else {
      EncodeConcat(a[1..], b);
      EncodeFirst(a[0], a[1..] + b);
      Regroup([a[0]], a[1..], b);
      assert [a[0]] + a[1..] == a;
      Regroup(Encode(a[0]), EncodeAll(a[1..]), EncodeAll(b));
    }
  }

  lemma EncodeOne(f: Frame)
    ensures EncodeAll([f]) == Encode(f)
  {
    assert EncodeAll([f][1..]) == [];
  }

  /** The payload of the data frames, in order. */
  function DataOf(fs: seq<Frame>): bytes {
    if fs == [] then []
    else DataOf(fs[..|fs| - 1]) + (if fs[|fs| - 1].IsData() then fs[|fs| - 1].payload else [])
  }

  /** The other frames, in order. */
  function MessagesOf(fs: seq<Frame>): seq<Frame> {
    if fs == [] then []
    else MessagesOf(fs[..|fs| - 1]) + (if fs[|fs| - 1].IsData() then [] else [fs[|fs| - 1]])
  }

  lemma OneMore(fs: seq<Frame>, f: Frame)
    ensures DataOf(fs + [f]) == DataOf(fs) + (if f.IsData() then f.payload else [])
    ensures MessagesOf(fs + [f]) == MessagesOf(fs) + (if f.IsData() then [] else [f])
  {
    assert (fs + [f])[..|fs|] == fs;
  }

  // ----- circular buffers -----

  /** Where byte i of a circular buffer of this size sits, counting from pos. */
  function Slot(size: nat, pos: nat, i: nat): nat
    requires pos <= size
  {
    if pos + i < size then pos + i else pos + i - size
  }

  /** n bytes of a circular buffer, from pos on. */
  function Circ(buf: bytes, size: nat, pos: nat, n: nat): (r: bytes)
    requires pos <= size <= |buf| && n <= size
    ensures |r| == n
  {
    seq(n, i requires 0 <= i < n => buf[Slot(size, pos, i)])
  }

  lemma CircDrop(buf: bytes, size: nat, pos: nat, n: nat, k: nat)
    requires pos < size <= |buf| && k <= n <= size
    ensures Circ(buf, size, Slot(size, pos, k), n - k) == Circ(buf, size, pos, n)[k..]
  {
  }

  lemma CircFlat(buf: bytes, size: nat, pos: nat, n: nat)
    requires pos <= size <= |buf| && pos + n <= size
    ensures Circ(buf, size, pos, n) == buf[pos..pos + n]
  {
  }

  /** Slot j is one of the n slots from `first` on. */
  predicate InSpan(size: nat, first: nat, n: nat, j: nat) {
    (first <= j < first + n && j < size) || j < first + n - size
  }

  /** A wrapped copy: memcpy up to the end, then from the start. */
  method CopyIn(buf: array<byte>, size: nat, first: nat, pos: nat, data: bytes)
    requires size <= buf.Length && first < size && |data| <= size && pos < size
    requires first < pos ==> first + |data| <= pos
    modifies buf
    ensures Copied(old(buf[..]), buf[..], size, first, data)
  {
    if first >= pos && size - first < |data| {
      var siz := size - first;
      forall i | 0 <= i < siz {
        buf[first + i] := data[i];
      }
      forall i | 0 <= i < |data| - siz {
        buf[i] := data[siz + i];
      }
    } else {
      forall i | 0 <= i < |data| {
        buf[first + i] := data[i];
      }
    }
  }

  /** b is a with data stored circularly from `first` on. */
  predicate Copied(a: bytes, b: bytes, size: nat, first: nat, data: bytes)
    requires size <= |a| && first < size && |data| <= size
  {
    && |a| == |b|
    && (forall i :: 0 <= i < |data| ==> b[Slot(size, first, i)] == data[i])
    && (forall j :: 0 <= j < |a| && !InSpan(size, first, |data|, j) ==> b[j] == a[j])
  }

  /** Circular contents grow by what is copied in behind them. */
  lemma CircAppend(a: bytes, b: bytes, size: nat, pos: nat, n: nat, data: bytes)
    requires pos <= size <= |a| && n + |data| <= size && Slot(size, pos, n) <= size
    requires data != [] ==> Slot(size, pos, n) < size
    requires data != [] ==> Copied(a, b, size, Slot(size, pos, n), data)
    requires data == [] ==> a == b
    ensures Circ(b, size, pos, n + |data|) == Circ(a, size, pos, n) + data
  {
    if data != [] {
      forall i | n <= i < n + |data| ensures b[Slot(size, pos, i)] == data[i - n] {
        assert Slot(size, Slot(size, pos, n), i - n) == Slot(size, pos, i);
      }
    }
  }
}

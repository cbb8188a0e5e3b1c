/** The wire form of a file list (rsync/flist.c, protocol 30 and later): each
    entry is sent as its differences from the one before. */
module FlistWire {
  import opened Wrappers
  import opened ByteOrder
  import opened WireInts

  const MAXPATHLEN: nat := 1024

  const UINT32: nat := 0x1_0000_0000

  /** What both sides have agreed on.  p31 is protocol 31 or later, safe is
      use_safe_inc_flist, and csumLen the length of a file checksum. */
  datatype Options = Options(p31: bool, varintFlags: bool, safe: bool, uid: bool, gid: bool, devices: bool, specials: bool,
                             links: bool, atimes: bool, crtimes: bool, hardLinks: bool, checksum: bool, csumLen: nat)
  {
    /** compat.c refuses creation times without the wide flags. */
    predicate Valid() { crtimes ==> varintFlags }
  }

  /** How a directory came to be in the list: FLAG_CONTENT_DIR with or without
      FLAG_TOP_DIR, FLAG_IMPLIED_DIR, or none of them. */
  datatype DirKind = NotDir | Content(top: bool) | Implied | Bare

  /** One file.  link is, on the sending side, which inode a hard-linked file
      has, and on the receiving side the index of the first file of its group. */
  datatype File = File(name: bytes, kind: DirKind, mode: nat, length: int, mtime: int, nsec: nat, atime: int, crtime: int,
                       uid: nat, gid: nat, major: nat, minor: nat, symlink: bytes, sum: bytes, link: Option<int>)

  function Fmt(mode: nat): nat { mode / 0x1000 % 16 }

  predicate IsDir(mode: nat) { Fmt(mode) == 4 }

  predicate IsReg(mode: nat) { Fmt(mode) == 8 }

  predicate IsLnk(mode: nat) { Fmt(mode) == 10 }

  predicate IsDevice(mode: nat) { Fmt(mode) == 2 || Fmt(mode) == 6 }

  predicate IsSpecial(mode: nat) { Fmt(mode) == 1 || Fmt(mode) == 12 }

  predicate Int64(x: int) { FitsSigned(8, x) }

  /** What make_file can produce. */
  predicate Sendable(o: Options, e: File) {
    && 0 < |e.name| < MAXPATHLEN && 0 !in e.name
    && (e.kind.NotDir? <==> !IsDir(e.mode))
    && e.mode < 0x8000_0000 && 0 <= e.length && Int64(e.length) && (IsDevice(e.mode) || IsSpecial(e.mode) ==> e.length == 0)
    && Int64(e.mtime) && Int64(e.atime) && Int64(e.crtime) && e.nsec < 0x8000_0000
    && e.uid < UINT32 && e.gid < UINT32 && e.major < UINT32 && e.minor < UINT32
    && (IsLnk(e.mode) ==> 0 < |e.symlink| < MAXPATHLEN) && |e.sum| == o.csumLen
    && (e.link.Some? ==> o.hardLinks && !IsDir(e.mode))
  }

  /** The static variables of send_file_entry and recv_file_entry. */
  datatype St = St(last: bytes, mode: nat, mtime: int, atime: int, uid: nat, gid: nat, major: nat)

  const START := St([], 0, 0, 0, 0, 0, 0)

  // ----- optional fields -----

  function Int32(u: nat): int { if u >= 0x8000_0000 then u - UINT32 else u }

  function Uint32(x: int): nat { if x < 0 && x + UINT32 >= 0 then x + UINT32 else if x < 0 then 0 else x }

  function PutLongIf(have: bool, min: nat, x: int, tail: bytes): bytes
    requires 3 <= min <= 8
  {
    if have then EncodeVarlong(x, min) + tail else tail
  }

  function GetLongIf(have: bool, min: nat, dflt: int, s: bytes): (r: Parse<int>)
    requires 3 <= min <= 8
    ensures r.Got? ==> |r.rest| <= |s|
  {
    VarShrinks(8, min, s);
    if have then DecodeVarlong(s, min) else Got(dflt, s)
  }

  lemma LongIf(have: bool, min: nat, x: int, dflt: int, tail: bytes)
    requires 3 <= min <= 8 && Int64(x)
    ensures GetLongIf(have, min, dflt, PutLongIf(have, min, x, tail)) == Got(if have then x else dflt, tail)
  {
    if have { VarlongRoundTrip(x, min, tail); }
  }

  function PutUintIf(have: bool, x: nat, tail: bytes): bytes {
    if have then EncodeVarint(Int32(x)) + tail else tail
  }

  function GetUintIf(have: bool, dflt: nat, s: bytes): (r: Parse<nat>)
    ensures r.Got? ==> |r.rest| <= |s|
  {
    VarShrinks(4, 1, s);
    if have then var (x, s1) :- DecodeVarint(s); Got(Uint32(x), s1) else Got(dflt, s)
  }

  lemma UintIf(have: bool, x: nat, dflt: nat, tail: bytes)
    requires x < UINT32
    ensures GetUintIf(have, dflt, PutUintIf(have, x, tail)) == Got(if have then x else dflt, tail)
  {
    if have {
      assert Pow256(4) == UINT32 by { assert Pow256(2) == 65536; }
      VarintRoundTrip(Int32(x), tail);
    }
  }

  function PutIntIf(have: bool, x: int, tail: bytes): bytes {
    if have then Le(4, x) + tail else tail
  }

  function GetIntIf(have: bool, dflt: int, s: bytes): (r: Parse<int>)
    ensures r.Got? ==> |r.rest| <= |s|
  {
    if have then var (b, s1) :- Take(s, 4); Got(Signed(4, FromLe(b)), s1) else Got(dflt, s)
  }

  lemma IntIf(have: bool, x: int, dflt: int, tail: bytes)
    requires 0 <= x < 0x8000_0000
    ensures GetIntIf(have, dflt, PutIntIf(have, x, tail)) == Got(if have then x else dflt, tail)
  {
    if have {
      assert Pow256(4) == UINT32 by { assert Pow256(2) == 65536; }
      SignedRoundTrip(4, x);
      var s := Le(4, x) + tail;
      assert s[..4] == Le(4, x) && s[4..] == tail;
    }
  }

  function PutByteIf(have: bool, x: byte, tail: bytes): bytes { if have then [x] + tail else tail }

  function GetByteIf(have: bool, dflt: byte, s: bytes): (r: Parse<byte>)
    ensures r.Got? ==> |r.rest| <= |s|
  {
    if !have then Got(dflt, s) else if s == [] then Short else Got(s[0], s[1..])
  }

  lemma ByteIf(have: bool, x: byte, dflt: byte, tail: bytes)
    ensures GetByteIf(have, dflt, PutByteIf(have, x, tail)) == Got(if have then x else dflt, tail)
  {
    if have { assert ([x] + tail)[1..] == tail; }
  }

  function PutBytesIf(have: bool, x: bytes, tail: bytes): bytes { if have then x + tail else tail }

  function GetBytesIf(have: bool, n: nat, s: bytes): (r: Parse<bytes>)
    ensures r.Got? ==> |r.rest| <= |s|
  {
    if have then Take(s, n) else Got([], s)
  }

  lemma BytesIf(have: bool, x: bytes, tail: bytes)
    ensures GetBytesIf(have, |x|, PutBytesIf(have, x, tail)) == Got(if have then x else [], tail)
  {
    if have { assert (x + tail)[..|x|] == x && (x + tail)[|x|..] == tail; }
  }

  // ----- the flags -----

  /** xflags.  noDir is XMIT_NO_CONTENT_DIR for a directory and
      XMIT_SAME_RDEV_MAJOR for a device. */
  datatype Flags = Flags(top: bool, sameMode: bool, extended: bool, sameUid: bool, sameGid: bool, sameName: bool,
                         longName: bool, sameTime: bool, noDir: bool, hlinked: bool, userName: bool, groupName: bool,
                         hlinkFirst: bool, modNsec: bool, sameAtime: bool, crtimeEq: bool)
  {
    /** The first byte of bits, from XMIT_TOP_DIR up. */
    function Low(): (b: seq<bool>)
      ensures |b| == 8 && b[2] == extended
    {
      [top, sameMode, extended, sameUid, sameGid, sameName, longName, sameTime]
    }

    /** The second byte, from XMIT_NO_CONTENT_DIR up. */
    function High(): (b: seq<bool>)
      ensures |b| == 8 && b[1] == hlinked && b[4] == hlinkFirst
    {
      [noDir, hlinked, userName, groupName, hlinkFirst, modNsec, sameAtime, false]
    }

    function Bits(): (b: seq<bool>)
      ensures |b| == 18
    {
      Low() + High() + [false, crtimeEq]
    }

    predicate AnyLow() { top || sameMode || extended || sameUid || sameGid || sameName || longName || sameTime }

    predicate AnyHigh() { noDir || hlinked || userName || groupName || hlinkFirst || modNsec || sameAtime }

    predicate Any() { AnyLow() || AnyHigh() || crtimeEq }
  }

  function OfBits(lo: seq<bool>, hi: seq<bool>, crtimeEq: bool): Flags
    requires |lo| == 8 && |hi| == 8
  {
    Flags(lo[0], lo[1], lo[2], lo[3], lo[4], lo[5], lo[6], lo[7],
          hi[0], hi[1], hi[2], hi[3], hi[4], hi[5], hi[6], crtimeEq)
  }

  lemma LowBits(f: Flags)
    ensures f.AnyLow() <==> exists i :: 0 <= i < 8 && f.Low()[i]
  {
    var b := f.Low();
    if f.AnyLow() { assert b[0] || b[1] || b[2] || b[3] || b[4] || b[5] || b[6] || b[7]; }
  }

  lemma HighBits(f: Flags)
    ensures f.AnyHigh() <==> exists i :: 0 <= i < 8 && f.High()[i]
  {
    var b := f.High();
    if f.AnyHigh() { assert b[0] || b[1] || b[2] || b[3] || b[4] || b[5] || b[6]; }
  }

  lemma OfItsBits(f: Flags)
    ensures OfBits(f.Low(), f.High(), f.crtimeEq) == f
  {
  }

  function Value(b: seq<bool>): nat {
    if b == [] then 0 else (if b[0] then 1 else 0) + 2 * Value(b[1..])
  }

  function BitsOf(n: nat, v: int): (b: seq<bool>)
    ensures |b| == n
    decreases n
  {
    if n == 0 then [] else [v % 2 == 1] + BitsOf(n - 1, v / 2)
  }

  lemma {:induction false} BitsRoundTrip(b: seq<bool>)
    ensures BitsOf(|b|, Value(b)) == b
    ensures Value(b) < Pow2(|b|) && (Value(b) == 0 <==> forall i :: 0 <= i < |b| ==> !b[i])
  {
    if b != [] {
      BitsRoundTrip(b[1..]);
      assert b == [b[0]] + b[1..];
    }
  }

  lemma Pow18()
    ensures Pow2(18) == 0x4_0000
  {
    assert Pow2(6) == 64;
    assert Pow2(12) == 4096;
  }

  lemma FlagsValue(f: Flags)
    ensures BitsOf(18, Value(f.Bits())) == f.Bits()
    ensures Value(f.Bits()) < 0x4_0000 && (f.Any() ==> Value(f.Bits()) != 0)
  {
    Pow18();
    BitsRoundTrip(f.Bits());
    LowBits(f);
    HighBits(f);
    SomeBit(f.Low(), f.High(), f.crtimeEq);
  }

  lemma SomeBit(lo: seq<bool>, hi: seq<bool>, last: bool)
    requires |lo| == 8 && |hi| == 8
    ensures (exists i :: 0 <= i < 8 && lo[i]) || (exists i :: 0 <= i < 8 && hi[i]) || last
      ==> exists i :: 0 <= i < 18 && (lo + hi + [false, last])[i]
  {
    var b := lo + hi + [false, last];
    assert b[17] == last;
    if i :| 0 <= i < 8 && lo[i] {
      assert b[i];
    } else if i :| 0 <= i < 8 && hi[i] {
      assert b[8 + i];
    }
  }

  /** What goes over the wire has a bit in its first byte: XMIT_TOP_DIR means
      nothing for a non-directory, and XMIT_EXTENDED_FLAGS announces a second
      byte. */
  function Adjusted(o: Options, f: Flags, isDir: bool): Flags {
    var addTop := !o.varintFlags && !f.Any() && !isDir;
    var extend := if o.varintFlags then !f.Any() else f.AnyHigh() || (!f.Any() && isDir);
    f.(top := f.top || addTop, extended := f.extended || extend)
  }

  /** The flags as sent: one varint, or one byte, or two bytes. */
  function PutFlags(o: Options, g: Flags, tail: bytes): bytes {
    if o.varintFlags then EncodeVarint(Value(g.Bits())) + tail
    else if g.extended then [LowByte(g), HighByte(g)] + tail
    else [LowByte(g)] + tail
  }

  function LowByte(g: Flags): (b: byte) {
    ByteOf(g.Low())
  }

  function HighByte(g: Flags): (b: byte) {
    ByteOf(g.High())
  }

  function ByteOf(b: seq<bool>): byte
    requires |b| == 8
  {
    BitsRoundTrip(b);
    Pow2Table(8);
    Value(b)
  }

  /** What starts the next item of the list. */
  datatype Head = Entry(flags: Flags) | End(err: int)

  /** The head of recv_file_list's loop. */
  function GetHead(o: Options, s: bytes): (r: Parse<Head>)
    ensures r.Got? ==> |r.rest| < |s|
  {
    if o.varintFlags then
      VarShrinks(4, 1, s);
      var (v, s1) :- DecodeVarint(s);
      VarShrinks(4, 1, s1);
      if v == 0 then var (err, s2) :- DecodeVarint(s1); Got(End(err), s2)
      else var b := BitsOf(18, v); Got(Entry(OfBits(b[..8], b[8..16], b[17])), s1)
    else
      var (low, s1) :- GetByteIf(true, 0, s);
      if low == 0 then Got(End(0), s1)
      else if !BitsOf(8, low)[2] then Got(Entry(OfBits(BitsOf(8, low), BitsOf(8, 0), false)), s1)
      else
        var (high, s2) :- GetByteIf(true, 0, s1);
        if low == 4 && high == 0x10 then
          if !o.safe then Fatal else VarShrinks(4, 1, s2); var (err, s3) :- DecodeVarint(s2); Got(End(err), s3)
        else Got(Entry(OfBits(BitsOf(8, low), BitsOf(8, high), false)), s2)
  }

  /** write_end_of_flist. */
  function PutEnd(o: Options, ioError: Option<int>, tail: bytes): bytes {
    if o.varintFlags then EncodeVarint(0) + (EncodeVarint(if ioError.Some? then ioError.value else 0) + tail)
    else if ioError.Some? then [4, 0x10] + (EncodeVarint(ioError.value) + tail)
    else [0] + tail
  }

  lemma EndRoundTrip(o: Options, ioError: Option<int>, tail: bytes)
    requires ioError.Some? ==> FitsSigned(4, ioError.value) && (o.varintFlags || o.safe)
    ensures GetHead(o, PutEnd(o, ioError, tail)) == Got(End(if ioError.Some? then ioError.value else 0), tail)
  {
    if o.varintFlags {
      WideEnd(o, if ioError.Some? then ioError.value else 0, tail);
    } else if ioError.Some? {
      ErrorEnd(o, ioError.value, tail);
    } else {
      assert ([0] + tail)[1..] == tail;
    }
  }

  lemma WideEnd(o: Options, err: int, tail: bytes)
    requires o.varintFlags && FitsSigned(4, err)
    ensures GetHead(o, EncodeVarint(0) + (EncodeVarint(err) + tail)) == Got(End(err), tail)
  {
    VarintRoundTrip(err, tail);
    VarintRoundTrip(0, EncodeVarint(err) + tail);
  }

  lemma ErrorEnd(o: Options, err: int, tail: bytes)
    requires !o.varintFlags && o.safe && FitsSigned(4, err)
    ensures GetHead(o, [4, 0x10] + (EncodeVarint(err) + tail)) == Got(End(err), tail)
  {
    VarintRoundTrip(err, tail);
    var s := [4, 0x10] + (EncodeVarint(err) + tail);
    assert s[0] == 4 && s[1..][0] == 0x10 && s[1..][1..] == EncodeVarint(err) + tail;
    assert BitsOf(8, 4)[2] by { assert BitsOf(8, 4)[1..][1] == BitsOf(7, 2)[1]; assert BitsOf(7, 2)[1..][0] == BitsOf(6, 1)[0]; }
  }

  /** Flags that send_file_entry can make: the extended bit is not in use, a
      first link is a link, and creation times need the wide form. */
  predicate Proper(o: Options, f: Flags) {
    !f.extended && (f.hlinkFirst ==> f.hlinked) && (f.crtimeEq ==> o.varintFlags)
  }

  /** No entry is taken for the end of the list, and its flags arrive. */
  lemma FlagsRoundTrip(o: Options, f: Flags, isDir: bool, tail: bytes)
    requires Proper(o, f)
    ensures var g := Adjusted(o, f, isDir); GetHead(o, PutFlags(o, g, tail)) == Got(Entry(g), tail)
  {
    var g := Adjusted(o, f, isDir);
    if o.varintFlags {
      WideFlags(o, g, tail);
    } else if g.extended {
      TwoBytes(o, g, tail);
    } else {
      OneByte(o, g, tail);
    }
  }

  /** No flags are added where there are some to send; and in the older forms no
      shorter bytes stand for these flags, as far as the receiver looks. */
  lemma FlagsShortest(o: Options, f: Flags, isDir: bool, s: bytes, g: Flags)
    requires Proper(o, f) && GetHead(o, s) == Got(Entry(g), []) && Alike(f, g, isDir)
    ensures o.varintFlags && f.Any() ==> Adjusted(o, f, isDir) == f
    ensures !o.varintFlags ==> |PutFlags(o, Adjusted(o, f, isDir), [])| <= |s|
  {
    if !o.varintFlags && |s| == 1 {
      OneByteFlags(o, s[0], g);
    }
  }

  /** What one byte can say. */
  lemma OneByteFlags(o: Options, low: byte, g: Flags)
    requires !o.varintFlags && low != 0 && !BitsOf(8, low)[2] && g == OfBits(BitsOf(8, low), BitsOf(8, 0), false)
    ensures !g.AnyHigh() && !g.extended && g.AnyLow()
  {
    ZeroBits(8);
    Pow2Table(8);
    LowBits(g);
    var b := BitsOf(8, low);
    assert g.Low() == b;
    if !g.AnyLow() { NoBits(8, low); }
  }

  lemma {:induction false} ZeroBits(n: nat)
    ensures forall i :: 0 <= i < n ==> !BitsOf(n, 0)[i]
  {
    if n > 0 { ZeroBits(n - 1); }
  }

  lemma {:induction false} NoBits(n: nat, v: nat)
    requires v < Pow2(n) && forall i :: 0 <= i < n ==> !BitsOf(n, v)[i]
    ensures v == 0
  {
    if n > 0 {
      var (b, rest) := (BitsOf(n, v), BitsOf(n - 1, v / 2));
      assert !b[0] && b[1..] == rest;
      assert forall i :: 0 <= i < n - 1 ==> rest[i] == b[1..][i];
      NoBits(n - 1, v / 2);
    }
  }

  lemma WideFlags(o: Options, g: Flags, tail: bytes)
    requires o.varintFlags && g.Any()
    ensures GetHead(o, PutFlags(o, g, tail)) == Got(Entry(g), tail)
  {
    FlagsValue(g);
    assert Pow256(4) == UINT32 by { assert Pow256(2) == 65536; }
    var b := g.Bits();
    VarintRoundTrip(Value(b), tail);
    assert b[..8] == g.Low() && b[8..16] == g.High() && b[17] == g.crtimeEq;
    OfItsBits(g);
  }

  lemma ByteBits(b: seq<bool>)
    requires |b| == 8
    ensures BitsOf(8, ByteOf(b)) == b && (ByteOf(b) == 0 <==> forall i :: 0 <= i < 8 ==> !b[i])
  {
    BitsRoundTrip(b);
  }

  lemma OneByte(o: Options, g: Flags, tail: bytes)
    requires !o.varintFlags && !g.extended && !g.AnyHigh() && !g.crtimeEq && g.Any()
    ensures GetHead(o, PutFlags(o, g, tail)) == Got(Entry(g), tail)
  {
    ByteBits(g.Low());
    LowBits(g);
    HighBits(g);
    BitsRoundTrip(g.High());
    ByteIf(true, LowByte(g), 0, tail);
    OfItsBits(g);
  }

  lemma HeadOfTwo(o: Options, low: byte, high: byte, tail: bytes)
    requires !o.varintFlags && low != 0 && BitsOf(8, low)[2] && high != 0x10
    ensures GetHead(o, [low, high] + tail) == Got(Entry(OfBits(BitsOf(8, low), BitsOf(8, high), false)), tail)
  {
    TwoOff(low, high, tail);
    HeadChain(o, [low, high] + tail, low, [high] + tail, high, tail);
  }

  lemma TwoOff(low: byte, high: byte, tail: bytes)
    ensures GetByteIf(true, 0, [low, high] + tail) == Got(low, [high] + tail)
    ensures GetByteIf(true, 0, [high] + tail) == Got(high, tail)
  {
    ByteIf(true, low, 0, [high] + tail);
    ByteIf(true, high, 0, tail);
    assert [low, high] + tail == [low] + ([high] + tail);
  }

  lemma HeadChain(o: Options, s: bytes, low: byte, s1: bytes, high: byte, tail: bytes)
    requires !o.varintFlags && low != 0 && BitsOf(8, low)[2] && high != 0x10
    requires GetByteIf(true, 0, s) == Got(low, s1) && GetByteIf(true, 0, s1) == Got(high, tail)
    ensures GetHead(o, s) == Got(Entry(OfBits(BitsOf(8, low), BitsOf(8, high), false)), tail)
  {
  }

  lemma TwoBytes(o: Options, g: Flags, tail: bytes)
    requires !o.varintFlags && g.extended && !g.crtimeEq && (g.hlinkFirst ==> g.hlinked)
    ensures GetHead(o, PutFlags(o, g, tail)) == Got(Entry(g), tail)
  {
    ByteBits(g.Low());
    ByteBits(g.High());
    SixteenBits();
    HeadOfTwo(o, LowByte(g), HighByte(g), tail);
    OfItsBits(g);
  }

  lemma SixteenBits()
    ensures BitsOf(8, 0x10)[4] && !BitsOf(8, 0x10)[1]
  {
    assert BitsOf(8, 0x10) == [false, false, false, false, true] + BitsOf(3, 0);
  }

  // ----- the name -----

  /** How much of the last name is used again, at most 255 bytes. */
  function Common(name: bytes, last: bytes, max: nat): (n: nat)
    ensures n <= max && n <= |name| && n <= |last| && name[..n] == last[..n]
    ensures n < max && n < |last| && n < |name| ==> name[n] != last[n]
    decreases max
  {
    if max == 0 || last == [] || name == [] || name[0] != last[0] then 0
    else
      var n := Common(name[1..], last[1..], max - 1);
      assert name[..n + 1] == [name[0]] + name[1..][..n] && last[..n + 1] == [last[0]] + last[1..][..n];
      n + 1
  }

  function PutName(f: Flags, l1: byte, rest: bytes, tail: bytes): bytes
    requires !f.longName ==> |rest| < 256
  {
    PutByteIf(f.sameName, l1, PutCount(f.longName, |rest|, rest + tail))
  }

  function PutCount(long: bool, n: nat, tail: bytes): bytes
    requires !long ==> n < 256
  {
    if long then EncodeVarint(n) + tail else [n] + tail
  }

  function GetCount(long: bool, s: bytes): (r: Parse<int>)
    ensures r.Got? ==> |r.rest| <= |s|
  {
    VarShrinks(4, 1, s);
    if long then DecodeVarint(s) else GetByteIf(true, 0, s)
  }

  lemma CountRoundTrip(long: bool, n: nat, tail: bytes)
    requires n < MAXPATHLEN && (!long ==> n < 256)
    ensures GetCount(long, PutCount(long, n, tail)) == Got(n, tail)
  {
    if long {
      assert Pow256(4) == UINT32 by { assert Pow256(2) == 65536; }
      VarintRoundTrip(n, tail);
    } else {
      ByteIf(true, n, 0, tail);
    }
  }

  /** The bytes before the first zero. */
  function CString(s: bytes): bytes {
    if s == [] || s[0] == 0 then [] else [s[0]] + CString(s[1..])
  }

  lemma {:induction false} CStringWhole(s: bytes)
    requires 0 !in s
    ensures CString(s) == s
  {
    if s != [] { CStringWhole(s[1..]); }
  }

  /** The name in the buffer, once l1 bytes of the last one were copied and x
      was read to behind them.  A last name shorter than that ends the string
      before x. */
  function Rebuilt(last: bytes, l1: nat, x: bytes): bytes {
    if l1 > |last| then last else CString(last[..l1] + x)
  }

  function GetName(f: Flags, last: bytes, s: bytes): (r: Parse<bytes>)
    ensures r.Got? ==> |r.rest| <= |s|
  {
    var (l1, s1) :- GetByteIf(f.sameName, 0, s);
    var (l2, s2) :- GetCount(f.longName, s1);
    if l2 < 0 || l2 >= MAXPATHLEN - l1 then Fatal
    else
      var (x, s3) :- Take(s2, l2);
      Got(Rebuilt(last, l1, x), s3)
  }

  lemma NameRoundTrip(f: Flags, last: bytes, name: bytes, l1: byte, tail: bytes)
    requires l1 <= |name| < MAXPATHLEN && l1 <= |last| && name[..l1] == last[..l1] && 0 !in name
    requires f.sameName == (l1 > 0) && f.longName == (|name| - l1 > 255)
    ensures GetName(f, last, PutName(f, l1, name[l1..], tail)) == Got(name, tail)
  {
    var rest := name[l1..];
    var s1 := PutCount(f.longName, |rest|, rest + tail);
    ByteIf(f.sameName, l1, 0, s1);
    CountRoundTrip(f.longName, |rest|, rest + tail);
    TakeAll(rest, tail);
    NameChain(f, last, PutName(f, l1, rest, tail), l1, s1, |rest|, rest + tail, rest, tail);
    Rejoined(name, last, l1);
    CStringWhole(name);
  }

  lemma Rejoined(name: bytes, last: bytes, l1: nat)
    requires l1 <= |name| && l1 <= |last| && name[..l1] == last[..l1]
    ensures last[..l1] + name[l1..] == name
  {
  }

  lemma NameChain(f: Flags, last: bytes, s: bytes, l1: byte, s1: bytes, l2: nat, s2: bytes, x: bytes, tail: bytes)
    requires GetByteIf(f.sameName, 0, s) == Got(l1, s1) && GetCount(f.longName, s1) == Got(l2, s2) && Take(s2, l2) == Got(x, tail)
    requires l2 < MAXPATHLEN - l1
    ensures GetName(f, last, s) == Got(Rebuilt(last, l1, x), tail)
  {
  }

  // ----- the attributes -----

  datatype Attrs = Attrs(length: int, mtime: int, nsec: nat, crtime: int, mode: nat, atime: int, uid: nat, gid: nat,
                         major: nat, minor: nat, symlink: bytes, sum: bytes)

  datatype Times = Times(length: int, mtime: int, nsec: nat, crtime: int)

  datatype Owners = Owners(mode: nat, atime: int, uid: nat, gid: nat)

  datatype Extras = Extras(length: int, major: nat, minor: nat, symlink: bytes, sum: bytes)

  function PutTimes(o: Options, f: Flags, e: File, tail: bytes): bytes {
    PutLongIf(true, 3, e.length,
      PutLongIf(!f.sameTime, 4, e.mtime,
        PutUintIf(f.modNsec, e.nsec,
          PutLongIf(o.crtimes && !f.crtimeEq, 4, e.crtime, tail))))
  }

  function GetTimes(o: Options, f: Flags, st: St, s: bytes): (r: Parse<Times>)
    ensures r.Got? ==> |r.rest| <= |s|
  {
    var (length, s1) :- GetLongIf(true, 3, 0, s);
    var (mtime, s2) :- GetLongIf(!f.sameTime, 4, st.mtime, s1);
    var (nsec, s3) :- GetUintIf(f.modNsec, 0, s2);
    var (crtime, s4) :- GetLongIf(o.crtimes && !f.crtimeEq, 4, if o.crtimes then mtime else 0, s3);
    Got(Times(length, mtime, nsec, crtime), s4)
  }

  function PutOwners(o: Options, f: Flags, e: File, tail: bytes): bytes {
    PutIntIf(!f.sameMode, e.mode,
      PutLongIf(o.atimes && !IsDir(e.mode) && !f.sameAtime, 4, e.atime,
        PutIds(o, f, e, tail)))
  }

  function PutIds(o: Options, f: Flags, e: File, tail: bytes): bytes {
    PutUintIf(o.uid && !f.sameUid, e.uid,
      PutUintIf(o.gid && !f.sameGid, e.gid, tail))
  }

  function GetOwners(o: Options, f: Flags, st: St, s: bytes): (r: Parse<Owners>)
    ensures r.Got? ==> |r.rest| <= |s|
  {
    var (m, s1) :- GetIntIf(!f.sameMode, st.mode, s);
    GetAccess(o, f, st, Uint32(m), s1)
  }

  function GetAccess(o: Options, f: Flags, st: St, mode: nat, s: bytes): (r: Parse<Owners>)
    ensures r.Got? ==> |r.rest| <= |s|
  {
    var (atime, s1) :- GetLongIf(o.atimes && !IsDir(mode) && !f.sameAtime, 4, st.atime, s);
    var (ids, s2) :- GetIds(o, f, st, s1);
    Got(Owners(mode, atime, ids.0, ids.1), s2)
  }

  function GetIds(o: Options, f: Flags, st: St, s: bytes): (r: Parse<(nat, nat)>)
    ensures r.Got? ==> |r.rest| <= |s|
  {
    var (uid, s1) :- GetUintIf(o.uid && !f.sameUid, st.uid, s);
    var (gid, s2) :- GetUintIf(o.gid && !f.sameGid, st.gid, s1);
    Got((uid, gid), s2)
  }

  /** Is a device number sent?  Old peers get a useless one for specials. */
  predicate HasRdev(o: Options, mode: nat) {
    (o.devices && IsDevice(mode)) || (o.specials && IsSpecial(mode) && !o.p31)
  }

  predicate StoresRdev(o: Options, mode: nat) { o.devices && IsDevice(mode) }

  function PutExtras(o: Options, f: Flags, e: File, tail: bytes): bytes {
    PutUintIf(HasRdev(o, e.mode) && !f.noDir, e.major,
      PutUintIf(HasRdev(o, e.mode), if StoresRdev(o, e.mode) then e.minor else 0,
        PutUintIf(o.links && IsLnk(e.mode), |e.symlink|,
          PutBytesIf(o.links && IsLnk(e.mode), e.symlink,
            PutBytesIf(o.checksum && IsReg(e.mode), e.sum, tail)))))
  }

  /** After the device number and the length of a symlink the entry is created,
      if the length of the file will do; the rest is read into it. */
  function GetExtras(o: Options, f: Flags, st: St, length: int, mode: nat, s: bytes): (r: Parse<Extras>)
    ensures r.Got? ==> |r.rest| <= |s|
  {
    var (major, s1) :- GetUintIf(HasRdev(o, mode) && !f.noDir, st.major, s);
    var (minor, s2) :- GetUintIf(HasRdev(o, mode), 0, s1);
    var (n, s3) :- GetUintIf(o.links && IsLnk(mode), 0, s2);
    var len := if HasRdev(o, mode) then 0 else length;
    if n >= MAXPATHLEN || len < 0 then Fatal
    else
      var (symlink, s4) :- GetBytesIf(o.links && IsLnk(mode), n, s3);
      var (sum, s5) :- GetBytesIf(o.checksum && IsReg(mode), o.csumLen, s4);
      Got(Extras(len, major, minor, symlink, sum), s5)
  }

  function PutAttrs(o: Options, f: Flags, e: File, tail: bytes): bytes {
    PutTimes(o, f, e, PutOwners(o, f, e, PutExtras(o, f, e, tail)))
  }

  function GetAttrs(o: Options, f: Flags, st: St, s: bytes): (r: Parse<Attrs>)
    ensures r.Got? ==> |r.rest| <= |s|
  {
    var (t, s1) :- GetTimes(o, f, st, s);
    GetLater(o, f, st, t, s1)
  }

  function GetLater(o: Options, f: Flags, st: St, t: Times, s: bytes): (r: Parse<Attrs>)
    ensures r.Got? ==> |r.rest| <= |s|
  {
    var (w, s1) :- GetOwners(o, f, st, s);
    var (x, s2) :- GetExtras(o, f, st, t.length, w.mode, s1);
    Got(Gathered(t, w, x), s2)
  }

  function Gathered(t: Times, w: Owners, x: Extras): Attrs {
    Attrs(x.length, t.mtime, t.nsec, t.crtime, w.mode, w.atime, w.uid, w.gid, x.major, x.minor, x.symlink, x.sum)
  }

  // ----- one entry -----

  /** The flags of send_file_entry. */
  function FlagsFor(o: Options, st: St, known: bool, e: File): Flags {
    var l1 := Common(e.name, st.last, 255);
    Flags(
      top := e.kind == Content(true) || e.kind == Implied,
      sameMode := e.mode == st.mode,
      extended := false,
      sameUid := !o.uid || (e.uid == st.uid && st.last != []),
      sameGid := !o.gid || (e.gid == st.gid && st.last != []),
      sameName := l1 > 0,
      longName := |e.name| - l1 > 255,
      sameTime := e.mtime == st.mtime,
      noDir := if IsDir(e.mode) then e.kind == Implied || e.kind == Bare
               else HasRdev(o, e.mode) && (StoresRdev(o, e.mode) ==> e.major == st.major),
      hlinked := e.link.Some?,
      userName := false,
      groupName := false,
      hlinkFirst := e.link.Some? && !known,
      modNsec := e.nsec != 0 && o.p31,
      sameAtime := o.atimes && !IsDir(e.mode) && e.atime == st.atime,
      crtimeEq := o.crtimes && e.crtime == e.mtime)
  }

  /** What the flags say about a directory. */
  function KindOf(f: Flags, mode: nat): DirKind {
    if !IsDir(mode) then NotDir
    else if !f.noDir then Content(f.top)
    else if f.top then Implied
    else Bare
  }

  /** A file entry with the fields the options keep. */
  function Build(o: Options, kind: DirKind, name: bytes, a: Attrs, link: Option<int>): File {
    File(name, kind, a.mode, a.length, a.mtime, a.nsec,
         if o.atimes && !IsDir(a.mode) then a.atime else 0,
         if o.crtimes then a.crtime else 0,
         if o.uid then a.uid else 0, if o.gid then a.gid else 0,
         if StoresRdev(o, a.mode) then a.major else 0, if StoresRdev(o, a.mode) then a.minor else 0,
         if o.links && IsLnk(a.mode) then a.symlink else [],
         if o.checksum && IsReg(a.mode) then a.sum else [],
         if o.hardLinks then link else None)
  }

  function AttrsOf(e: File): Attrs {
    Attrs(e.length, e.mtime, e.nsec, e.crtime, e.mode, e.atime, e.uid, e.gid, e.major, e.minor, e.symlink, e.sum)
  }

  /** The static variables after an entry. */
  function After(o: Options, st: St, name: bytes, a: Attrs): St {
    St(name, a.mode, a.mtime,
       if o.atimes && !IsDir(a.mode) then a.atime else st.atime,
       if o.uid then a.uid else st.uid, if o.gid then a.gid else st.gid,
       if StoresRdev(o, a.mode) then a.major else st.major)
  }

  /** What the receiver should end up with for a file. */
  function Received(o: Options, e: File, link: Option<int>): File {
    Build(o, e.kind, e.name, AttrsOf(if o.p31 then e else e.(nsec := 0)), link)
  }

  /** The static variables after an entry whose attributes were read into them. */
  function Kept(name: bytes, a: Attrs): St { St(name, a.mode, a.mtime, a.atime, a.uid, a.gid, a.major) }

  /** An entry put together, and the static variables it leaves. */
  function Made(o: Options, st: St, f: Flags, name: bytes, a: Attrs, link: Option<int>): (File, St) {
    (Build(o, KindOf(f, a.mode), name, a, link), st)
  }

  /** recv_file_entry; files are the entries of this list so far. */
  function GetEntry(o: Options, st: St, files: seq<File>, start: nat, f: Flags, s: bytes): (r: Parse<(File, St)>)
    ensures r.Got? ==> |r.rest| <= |s|
  {
    var (name, s1) :- GetName(f, st.last, s);
    GetRest(o, st, files, start, f, name, s1)
  }

  /** The rest of an entry, after its name. */
  function GetRest(o: Options, st: St, files: seq<File>, start: nat, f: Flags, name: bytes, s: bytes): (r: Parse<(File, St)>)
    ensures r.Got? ==> |r.rest| <= |s|
  {
    if f.hlinked && !f.hlinkFirst then GetLink(o, st, files, start, f, name, s)
    else GetPlain(o, st, f, name, if f.hlinked then Some(start + |files|) else None, s)
  }

  /** An entry whose attributes are sent. */
  function GetPlain(o: Options, st: St, f: Flags, name: bytes, link: Option<int>, s: bytes): (r: Parse<(File, St)>)
    ensures r.Got? ==> |r.rest| <= |s|
  {
    var (a, s1) :- GetAttrs(o, f, st, s);
    Got(Made(o, Kept(name, a), f, name, a, link), s1)
  }

  /** An entry made from the attributes of the first link. */
  function Copied(o: Options, st: St, f: Flags, name: bytes, a: Attrs, x: int): (File, St) {
    Made(o, After(o, st, name, a), f, name, a, Some(x))
  }

  /** A link to an earlier entry, of this list or of one before it. */
  function GetLink(o: Options, st: St, files: seq<File>, start: nat, f: Flags, name: bytes, s: bytes): (r: Parse<(File, St)>)
    ensures r.Got? ==> |r.rest| <= |s|
  {
    VarShrinks(4, 1, s);
    var (x, s1) :- DecodeVarint(s);
    if x < 0 || x >= start + |files| then Fatal
    else if x >= start then Got(Copied(o, st, f, name, AttrsOf(files[x - start]), x), s1)
    else GetPlain(o, st, f, name, Some(x), s1)
  }

  /** send_file_entry.  first is the index of an earlier link to the inode. */
  function PutEntry(o: Options, st: St, first: Option<int>, start: nat, e: File, tail: bytes): bytes {
    var f := FlagsFor(o, st, first.Some?, e);
    var g := Adjusted(o, f, IsDir(e.mode));
    var l1 := Common(e.name, st.last, 255);
    PutFlags(o, g, PutName(g, l1, e.name[l1..], PutRest(o, g, first, start, e, tail)))
  }

  function PutRest(o: Options, g: Flags, first: Option<int>, start: nat, e: File, tail: bytes): bytes {
    if first.None? then PutAttrs(o, g, e, tail)
    else if first.value >= start then EncodeVarint(first.value) + tail
    else EncodeVarint(first.value) + PutAttrs(o, g, e, tail)
  }

  // ----- whatever arrives -----

  lemma {:induction false} CStringCut(s: bytes, t: bytes)
    ensures CString(s + [0] + t) == CString(s)
  {
    if s != [] && s[0] != 0 {
      CStringCut(s[1..], t);
      assert (s + [0] + t)[1..] == s[1..] + [0] + t;
    } else {
      assert (s + [0] + t)[0] == 0;
    }
  }

  /** The buffer after strlcpy of the last name, up to l1 bytes and a zero, and
      the read to behind those l1 bytes.  Between them may be bytes that were
      never set; they do not matter. */
  lemma RebuiltIs(last: bytes, l1: nat, x: bytes, unset: bytes)
    requires 0 !in last && (l1 > |last| ==> |unset| == l1 - |last| - 1)
    ensures Rebuilt(last, l1, x) == CString(if l1 > |last| then last + [0] + (unset + x + [0]) else last[..l1] + x + [0] + [])
  {
    CStringCut(last, unset + x + [0]);
    CStringWhole(last);
    if l1 <= |last| { CStringCut(last[..l1] + x, []); }
  }

  /** A name that fits the buffers of the program. */
  predicate GoodName(name: bytes) { |name| < MAXPATHLEN && 0 !in name }

  /** An entry that is safe to have: the name and the symlink fit, the length is
      one, and a link is to an entry before it. */
  predicate GoodFile(e: File, ndx: nat) {
    GoodName(e.name) && |e.symlink| < MAXPATHLEN && e.length >= 0 && (e.link.Some? ==> 0 <= e.link.value <= ndx)
  }

  lemma {:induction false} CStringEnds(s: bytes)
    ensures 0 !in CString(s) && |CString(s)| <= |s|
  {
    if s != [] && s[0] != 0 { CStringEnds(s[1..]); }
  }

  lemma NameGood(f: Flags, last: bytes, s: bytes)
    requires GoodName(last)
    ensures GetName(f, last, s).Got? ==> GoodName(GetName(f, last, s).value)
  {
    var l1 := GetByteIf(f.sameName, 0, s);
    if l1.Got? {
      var l2 := GetCount(f.longName, l1.rest);
      if l2.Got? && 0 <= l2.value < MAXPATHLEN - l1.value {
        var x := Take(l2.rest, l2.value);
        if x.Got? && l1.value <= |last| { CStringEnds(last[..l1.value] + x.value); }
      }
    }
  }

  /** Bad lengths are refused. */
  lemma ExtrasGood(o: Options, f: Flags, st: St, length: int, mode: nat, s: bytes)
    ensures var r := GetExtras(o, f, st, length, mode, s); r.Got? ==> r.value.length >= 0 && |r.value.symlink| < MAXPATHLEN
  {
  }

  lemma AttrsGood(o: Options, f: Flags, st: St, s: bytes)
    ensures var r := GetAttrs(o, f, st, s); r.Got? ==> r.value.length >= 0 && |r.value.symlink| < MAXPATHLEN
  {
    var t := GetTimes(o, f, st, s);
    if t.Got? {
      var w := GetOwners(o, f, st, t.rest);
      if w.Got? { ExtrasGood(o, f, st, t.value.length, w.value.mode, w.rest); }
    }
  }

  lemma PlainGood(o: Options, st: St, f: Flags, name: bytes, link: Option<int>, s: bytes, ndx: nat)
    requires GoodName(name) && (link.Some? ==> 0 <= link.value <= ndx)
    ensures var r := GetPlain(o, st, f, name, link, s); r.Got? ==> GoodFile(r.value.0, ndx) && r.value.1.last == name
  {
    AttrsGood(o, f, st, s);
  }

  lemma LinkGood(o: Options, st: St, files: seq<File>, start: nat, f: Flags, name: bytes, s: bytes)
    requires GoodName(name) && forall i :: 0 <= i < |files| ==> GoodFile(files[i], start + i)
    ensures var r := GetLink(o, st, files, start, f, name, s);
      r.Got? ==> GoodFile(r.value.0, start + |files|) && r.value.1.last == name
  {
    var (x, ndx) := (DecodeVarint(s), start + |files|);
    if x.Got? && 0 <= x.value < ndx {
      if x.value >= start {
        assert GoodFile(files[x.value - start], x.value);
      } else {
        PlainGood(o, st, f, name, Some(x.value), x.rest, ndx);
      }
    }
  }

  lemma RestGood(o: Options, st: St, files: seq<File>, start: nat, f: Flags, name: bytes, s: bytes)
    requires GoodName(name) && forall i :: 0 <= i < |files| ==> GoodFile(files[i], start + i)
    ensures var r := GetRest(o, st, files, start, f, name, s);
      r.Got? ==> GoodFile(r.value.0, start + |files|) && r.value.1.last == name
  {
    if f.hlinked && !f.hlinkFirst {
      LinkGood(o, st, files, start, f, name, s);
    } else {
      PlainGood(o, st, f, name, if f.hlinked then Some(start + |files|) else None, s, start + |files|);
    }
  }

  /** Whatever bytes arrive, an entry that is not refused is good. */
  lemma EntryGood(o: Options, st: St, files: seq<File>, start: nat, f: Flags, s: bytes)
    requires GoodName(st.last) && forall i :: 0 <= i < |files| ==> GoodFile(files[i], start + i)
    ensures var r := GetEntry(o, st, files, start, f, s);
      r.Got? ==> GoodFile(r.value.0, start + |files|) && GoodName(r.value.1.last)
  {
    NameGood(f, st.last, s);
    var name := GetName(f, st.last, s);
    if name.Got? { RestGood(o, st, files, start, f, name.value, name.rest); }
  }

  // ----- the round trip of one entry -----

  /** Flags that differ only where the receiver does not look. */
  predicate Alike(f: Flags, g: Flags, isDir: bool) {
    g == f.(top := g.top, extended := g.extended) && (isDir ==> g.top == f.top)
  }

  lemma AdjustedAlike(o: Options, f: Flags, isDir: bool)
    ensures Alike(f, Adjusted(o, f, isDir), isDir)
  {
  }

  /** A file that can be sent, with flags that say how it differs from the
      static variables.  (Contracts say == true where the proof should take
      this as a whole.) */
  predicate Coded(o: Options, st: St, known: bool, e: File, g: Flags) {
    && Sendable(o, e)
    && g.sameTime == (e.mtime == st.mtime) && g.modNsec == (e.nsec != 0 && o.p31)
    && g.crtimeEq == (o.crtimes && e.crtime == e.mtime)
    && g.sameMode == (e.mode == st.mode) && g.sameAtime == (o.atimes && !IsDir(e.mode) && e.atime == st.atime)
    && g.sameUid == (!o.uid || (e.uid == st.uid && st.last != [])) && g.sameGid == (!o.gid || (e.gid == st.gid && st.last != []))
    && (HasRdev(o, e.mode) ==> g.noDir == (StoresRdev(o, e.mode) ==> e.major == st.major))
    && g.hlinked == e.link.Some? && g.hlinkFirst == (e.link.Some? && !known)
    && KindOf(g, e.mode) == e.kind
  }

  lemma FlagsCoded(o: Options, st: St, known: bool, e: File, f: Flags, g: Flags)
    requires Sendable(o, e) == true && f == FlagsFor(o, st, known, e) && Alike(f, g, IsDir(e.mode)) == true
    ensures Coded(o, st, known, e, g) == true
    ensures var l1 := Common(e.name, st.last, 255); g.sameName == (l1 > 0) && g.longName == (|e.name| - l1 > 255)
  {
  }

  lemma TimesRoundTrip(o: Options, g: Flags, st: St, known: bool, e: File, tail: bytes)
    requires Coded(o, st, known, e, g) == true
    ensures GetTimes(o, g, st, PutTimes(o, g, e, tail))
         == Got(Times(e.length, e.mtime, if o.p31 then e.nsec else 0, if o.crtimes then e.crtime else 0), tail)
  {
    var t4 := PutLongIf(o.crtimes && !g.crtimeEq, 4, e.crtime, tail);
    var t3 := PutUintIf(g.modNsec, e.nsec, t4);
    var t2 := PutLongIf(!g.sameTime, 4, e.mtime, t3);
    LongIf(true, 3, e.length, 0, t2);
    LongIf(!g.sameTime, 4, e.mtime, st.mtime, t3);
    UintIf(g.modNsec, e.nsec, 0, t4);
    LongIf(o.crtimes && !g.crtimeEq, 4, e.crtime, if o.crtimes then e.mtime else 0, tail);
  }

  lemma OwnersRoundTrip(o: Options, g: Flags, st: St, known: bool, e: File, tail: bytes)
    requires Coded(o, st, known, e, g) == true
    ensures GetOwners(o, g, st, PutOwners(o, g, e, tail))
         == Got(Owners(e.mode, if o.atimes && !IsDir(e.mode) then e.atime else st.atime,
                       if o.uid then e.uid else st.uid, if o.gid then e.gid else st.gid), tail)
  {
    var t3 := PutIds(o, g, e, tail);
    var t2 := PutLongIf(o.atimes && !IsDir(e.mode) && !g.sameAtime, 4, e.atime, t3);
    IntIf(!g.sameMode, e.mode, st.mode, t2);
    LongIf(o.atimes && !IsDir(e.mode) && !g.sameAtime, 4, e.atime, st.atime, t3);
    IdsRoundTrip(o, g, st, known, e, tail);
  }

  lemma IdsRoundTrip(o: Options, g: Flags, st: St, known: bool, e: File, tail: bytes)
    requires Coded(o, st, known, e, g) == true
    ensures GetIds(o, g, st, PutIds(o, g, e, tail)) == Got((if o.uid then e.uid else st.uid, if o.gid then e.gid else st.gid), tail)
  {
    var t := PutUintIf(o.gid && !g.sameGid, e.gid, tail);
    UintIf(o.uid && !g.sameUid, e.uid, st.uid, t);
    UintIf(o.gid && !g.sameGid, e.gid, st.gid, tail);
  }

  lemma ExtrasRoundTrip(o: Options, g: Flags, st: St, known: bool, e: File, tail: bytes)
    requires Coded(o, st, known, e, g) == true
    ensures GetExtras(o, g, st, e.length, e.mode, PutExtras(o, g, e, tail))
         == Got(Extras(e.length, if StoresRdev(o, e.mode) then e.major else st.major, if StoresRdev(o, e.mode) then e.minor else 0,
                       if o.links && IsLnk(e.mode) then e.symlink else [], if o.checksum && IsReg(e.mode) then e.sum else []), tail)
  {
    var lnk := o.links && IsLnk(e.mode);
    var t5 := PutBytesIf(o.checksum && IsReg(e.mode), e.sum, tail);
    var t4 := PutBytesIf(lnk, e.symlink, t5);
    var n := if lnk then |e.symlink| else 0;
    var t3 := PutUintIf(lnk, |e.symlink|, t4);
    var minor := if StoresRdev(o, e.mode) then e.minor else 0;
    var t2 := PutUintIf(HasRdev(o, e.mode), minor, t3);
    UintIf(HasRdev(o, e.mode) && !g.noDir, e.major, st.major, t2);
    UintIf(HasRdev(o, e.mode), minor, 0, t3);
    assert t3 == PutUintIf(lnk, n, t4);
    UintIf(lnk, n, 0, t4);
    BytesIf(lnk, e.symlink, t5);
    BytesIf(o.checksum && IsReg(e.mode), e.sum, tail);
  }

  /** The attributes as they arrive: what is not sent is as before. */
  function Arrived(o: Options, st: St, e: File): Attrs {
    Attrs(e.length, e.mtime, if o.p31 then e.nsec else 0, if o.crtimes then e.crtime else 0, e.mode,
          if o.atimes && !IsDir(e.mode) then e.atime else st.atime,
          if o.uid then e.uid else st.uid, if o.gid then e.gid else st.gid,
          if StoresRdev(o, e.mode) then e.major else st.major, if StoresRdev(o, e.mode) then e.minor else 0,
          if o.links && IsLnk(e.mode) then e.symlink else [], if o.checksum && IsReg(e.mode) then e.sum else [])
  }

  lemma AttrsChain(o: Options, g: Flags, st: St, s: bytes, s1: bytes, s2: bytes, tail: bytes, t: Times, w: Owners, x: Extras)
    requires GetTimes(o, g, st, s) == Got(t, s1) && GetOwners(o, g, st, s1) == Got(w, s2)
    requires GetExtras(o, g, st, t.length, w.mode, s2) == Got(x, tail)
    ensures GetAttrs(o, g, st, s) == Got(Gathered(t, w, x), tail)
  {
  }

  lemma AttrsRoundTrip(o: Options, st: St, known: bool, e: File, g: Flags, tail: bytes)
    requires Coded(o, st, known, e, g) == true
    ensures GetAttrs(o, g, st, PutAttrs(o, g, e, tail)) == Got(Arrived(o, st, e), tail)
  {
    var s2 := PutExtras(o, g, e, tail);
    var s1 := PutOwners(o, g, e, s2);
    TimesRoundTrip(o, g, st, known, e, s1);
    OwnersRoundTrip(o, g, st, known, e, s2);
    ExtrasRoundTrip(o, g, st, known, e, tail);
    var a := Arrived(o, st, e);
    AttrsChain(o, g, st, PutTimes(o, g, e, s1), s1, s2, tail, Times(a.length, a.mtime, a.nsec, a.crtime),
               Owners(a.mode, a.atime, a.uid, a.gid), Extras(a.length, a.major, a.minor, a.symlink, a.sum));
  }

  lemma ArrivedIsReceived(o: Options, st: St, e: File, kind: DirKind, link: Option<int>)
    requires kind == e.kind
    ensures Build(o, kind, e.name, Arrived(o, st, e), link) == Received(o, e, link)
    ensures Kept(e.name, Arrived(o, st, e)) == After(o, st, e.name, AttrsOf(e))
  {
  }

  /** Links to one inode share everything but the name. */
  predicate SameAttrs(a: File, b: File) { AttrsOf(a) == AttrsOf(b) }

  /** An abbreviated entry takes its attributes from the first link. */
  lemma CopiedIsReceived(o: Options, st: St, e: File, first: File, l: Option<int>, kind: DirKind, link: Option<int>)
    requires SameAttrs(first, e) && kind == e.kind
    ensures var a := AttrsOf(Received(o, first, l));
      && a.mode == e.mode
      && Build(o, kind, e.name, a, link) == Received(o, e, link)
      && After(o, st, e.name, a) == After(o, st, e.name, AttrsOf(e))
  {
  }

  /** The link group an entry ends up in. */
  function Group(e: File, first: Option<int>, ndx: int): Option<int> {
    if e.link.None? then None else if first.Some? then first else Some(ndx)
  }

  /** The entries of this list on both sides, and where earlier links are. */
  predicate Mirrors(o: Options, files: seq<File>, es: seq<File>) {
    |files| == |es| && forall i :: 0 <= i < |es| ==> files[i] == Received(o, es[i], files[i].link)
  }

  predicate FirstOk(first: Option<int>, start: nat, es: seq<File>, e: File) {
    first.Some? ==> e.link.Some? && 0 <= first.value < start + |es| && FitsSigned(4, first.value)
                    && (first.value >= start ==> SameAttrs(es[first.value - start], e))
  }

  lemma CodedLink(o: Options, st: St, known: bool, e: File, g: Flags)
    requires Coded(o, st, known, e, g) == true
    ensures g.hlinked == e.link.Some? && g.hlinkFirst == (e.link.Some? && !known) && KindOf(g, e.mode) == e.kind
  {
  }

  /** An entry after its name: not a link, or the first one. */
  lemma PlainEntry(o: Options, st: St, start: nat, files: seq<File>, e: File, g: Flags, body: bytes, s1: bytes, tail: bytes)
    requires g.hlinked == g.hlinkFirst == e.link.Some? && KindOf(g, e.mode) == e.kind
    requires GetName(g, st.last, body) == Got(e.name, s1) && GetAttrs(o, g, st, s1) == Got(Arrived(o, st, e), tail)
    ensures GetEntry(o, st, files, start, g, body)
      == Got((Received(o, e, Group(e, None, start + |files|)), After(o, st, e.name, AttrsOf(e))), tail)
  {
    ArrivedIsReceived(o, st, e, e.kind, Group(e, None, start + |files|));
  }

  /** A link to a file of an earlier list: all attributes follow. */
  lemma FarLink(o: Options, st: St, start: nat, files: seq<File>, e: File, g: Flags, body: bytes, x: nat, s1: bytes, s2: bytes, tail: bytes)
    requires g.hlinked && !g.hlinkFirst && KindOf(g, e.mode) == e.kind && x < start
    requires GetName(g, st.last, body) == Got(e.name, s1) && DecodeVarint(s1) == Got(x, s2)
    requires GetAttrs(o, g, st, s2) == Got(Arrived(o, st, e), tail)
    ensures GetEntry(o, st, files, start, g, body) == Got((Received(o, e, Some(x)), After(o, st, e.name, AttrsOf(e))), tail)
  {
    ArrivedIsReceived(o, st, e, e.kind, Some(x));
  }

  lemma NearChain(o: Options, st: St, start: nat, files: seq<File>, g: Flags, name: bytes, body: bytes, x: nat, s1: bytes, tail: bytes)
    requires g.hlinked && !g.hlinkFirst && start <= x < start + |files|
    requires GetName(g, st.last, body) == Got(name, s1) && DecodeVarint(s1) == Got(x, tail)
    ensures GetEntry(o, st, files, start, g, body) == Got(Copied(o, st, g, name, AttrsOf(files[x - start]), x), tail)
  {
  }

  /** A link to a file of this list: abbreviated. */
  lemma NearLink(o: Options, st: St, start: nat, files: seq<File>, e: File, g: Flags, body: bytes, x: nat, first: File, s1: bytes, tail: bytes)
    requires g.hlinked && !g.hlinkFirst && KindOf(g, e.mode) == e.kind && start <= x < start + |files|
    requires GetName(g, st.last, body) == Got(e.name, s1) && DecodeVarint(s1) == Got(x, tail)
    requires SameAttrs(first, e) == true && files[x - start] == Received(o, first, files[x - start].link)
    ensures GetEntry(o, st, files, start, g, body) == Got((Received(o, e, Some(x)), After(o, st, e.name, AttrsOf(e))), tail)
  {
    NearChain(o, st, start, files, g, e.name, body, x, s1, tail);
    CopiedIsReceived(o, st, e, first, files[x - start].link, e.kind, Some(x));
  }

  lemma FlagsProper(o: Options, st: St, known: bool, e: File, f: Flags)
    requires o.Valid() && f == FlagsFor(o, st, known, e)
    ensures Proper(o, f)
  {
  }

  /** Flags and name arrive. */
  lemma StartRoundTrip(o: Options, st: St, first: Option<int>, start: nat, e: File, tail: bytes)
    returns (g: Flags, body: bytes)
    requires o.Valid() && Sendable(o, e) == true
    ensures GetHead(o, PutEntry(o, st, first, start, e, tail)) == Got(Entry(g), body)
    ensures Coded(o, st, first.Some?, e, g) == true
    ensures GetName(g, st.last, body) == Got(e.name, PutRest(o, g, first, start, e, tail))
  {
    var f := FlagsFor(o, st, first.Some?, e);
    g := Adjusted(o, f, IsDir(e.mode));
    AdjustedAlike(o, f, IsDir(e.mode));
    FlagsCoded(o, st, first.Some?, e, f, g);
    FlagsProper(o, st, first.Some?, e, f);
    var l1 := Common(e.name, st.last, 255);
    var rest := PutRest(o, g, first, start, e, tail);
    body := PutName(g, l1, e.name[l1..], rest);
    FlagsRoundTrip(o, f, IsDir(e.mode), body);
    NameRoundTrip(g, st.last, e.name, l1, rest);
  }

  lemma RestIs(o: Options, g: Flags, first: Option<int>, start: nat, e: File, tail: bytes) returns (rest: bytes)
    ensures rest == PutRest(o, g, first, start, e, tail)
    ensures first.None? ==> rest == PutAttrs(o, g, e, tail)
    ensures first.Some? && first.value >= start ==> rest == EncodeVarint(first.value) + tail
    ensures first.Some? && first.value < start ==> rest == EncodeVarint(first.value) + PutAttrs(o, g, e, tail)
  {
    rest := PutRest(o, g, first, start, e, tail);
  }

  /** What follows the name of an entry arrives. */
  lemma BodyRoundTrip(o: Options, st: St, first: Option<int>, start: nat, files: seq<File>, es: seq<File>, e: File, g: Flags, body: bytes, tail: bytes)
    requires Coded(o, st, first.Some?, e, g) == true && Mirrors(o, files, es) == true && FirstOk(first, start, es, e) == true
    requires GetName(g, st.last, body) == Got(e.name, PutRest(o, g, first, start, e, tail))
    ensures GetEntry(o, st, files, start, g, body)
      == Got((Received(o, e, Group(e, first, start + |files|)), After(o, st, e.name, AttrsOf(e))), tail)
  {
    var rest := RestIs(o, g, first, start, e, tail);
    CodedLink(o, st, first.Some?, e, g);
    AttrsRoundTrip(o, st, first.Some?, e, g, tail);
    if first.None? {
      PlainEntry(o, st, start, files, e, g, body, rest, tail);
    } else {
      assert Group(e, first, start + |files|) == Some(first.value);
      LinkRoundTrip(o, st, first.value, start, files, es, e, g, body, rest, tail);
    }
  }

  lemma FirstMirrored(o: Options, start: nat, files: seq<File>, es: seq<File>, e: File, x: int)
    requires Mirrors(o, files, es) == true && FirstOk(Some(x), start, es, e) == true && x >= start
    ensures |files| == |es| && x < start + |files| && SameAttrs(es[x - start], e) == true
    ensures files[x - start] == Received(o, es[x - start], files[x - start].link)
  {
  }

  lemma LinkRoundTrip(o: Options, st: St, x: int, start: nat, files: seq<File>, es: seq<File>, e: File, g: Flags, body: bytes, rest: bytes, tail: bytes)
    requires g.hlinked && !g.hlinkFirst && KindOf(g, e.mode) == e.kind
    requires Mirrors(o, files, es) == true && FirstOk(Some(x), start, es, e) == true
    requires GetName(g, st.last, body) == Got(e.name, rest)
    requires rest == EncodeVarint(x) + (if x >= start then tail else PutAttrs(o, g, e, tail))
    requires x < start ==> GetAttrs(o, g, st, PutAttrs(o, g, e, tail)) == Got(Arrived(o, st, e), tail)
    ensures GetEntry(o, st, files, start, g, body) == Got((Received(o, e, Some(x)), After(o, st, e.name, AttrsOf(e))), tail)
  {
    if x >= start {
      VarintRoundTrip(x, tail);
      FirstMirrored(o, start, files, es, e, x);
      NearLink(o, st, start, files, e, g, body, x, es[x - start], rest, tail);
    } else {
      VarintRoundTrip(x, PutAttrs(o, g, e, tail));
      FarLink(o, st, start, files, e, g, body, x, rest, PutAttrs(o, g, e, tail), tail);
    }
  }

  /** One entry arrives as it was sent, whatever follows it, and leaves both
      sides with the same static variables. */
  lemma EntryRoundTrip(o: Options, st: St, first: Option<int>, start: nat, files: seq<File>, es: seq<File>, e: File, tail: bytes)
    returns (g: Flags, body: bytes, file: File, st': St)
    requires o.Valid() && Sendable(o, e) == true && Mirrors(o, files, es) == true && FirstOk(first, start, es, e) == true
    ensures file == Received(o, e, Group(e, first, start + |files|)) && st' == After(o, st, e.name, AttrsOf(e))
    ensures GetHead(o, PutEntry(o, st, first, start, e, tail)) == Got(Entry(g), body)
    ensures GetEntry(o, st, files, start, g, body) == Got((file, st'), tail)
  {
    g, body := StartRoundTrip(o, st, first, start, e, tail);
    BodyRoundTrip(o, st, first, start, files, es, e, g, body, tail);
    file, st' := Received(o, e, Group(e, first, start + |files|)), After(o, st, e.name, AttrsOf(e));
  }
}

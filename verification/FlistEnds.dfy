/** send_file_entry and recv_file_entry as the two ends run them, with their
    static variables (rsync/flist.c). */
module FlistEnds {
  import opened Wrappers
  import opened ByteOrder
  import opened WireInts
  import opened FlistWire
  import opened FlistCodec
  import opened Streams

  // ----- what is written does not depend on what follows -----

  lemma Append2(a: bytes, b: bytes, c: bytes)
    ensures a + (b + c) == a + b + c
  {
  }

  lemma LongAppend(have: bool, min: nat, x: int, t: bytes, tail: bytes)
    requires 3 <= min <= 8
    ensures PutLongIf(have, min, x, t + tail) == PutLongIf(have, min, x, t) + tail
  {
    Append2(EncodeVarlong(x, min), t, tail);
  }

  lemma UintAppend(have: bool, x: nat, t: bytes, tail: bytes)
    ensures PutUintIf(have, x, t + tail) == PutUintIf(have, x, t) + tail
  {
    Append2(EncodeVarint(Int32(x)), t, tail);
  }

  lemma IntAppend(have: bool, x: int, t: bytes, tail: bytes)
    ensures PutIntIf(have, x, t + tail) == PutIntIf(have, x, t) + tail
  {
    Append2(Le(4, x), t, tail);
  }

  lemma BytesAppend(have: bool, x: bytes, t: bytes, tail: bytes)
    ensures PutBytesIf(have, x, t + tail) == PutBytesIf(have, x, t) + tail
  {
    Append2(x, t, tail);
  }

  lemma TimesAppend(o: Options, f: Flags, e: File, t: bytes, tail: bytes)
    ensures PutTimes(o, f, e, t + tail) == PutTimes(o, f, e, t) + tail
  {
    var t4 := PutLongIf(o.crtimes && !f.crtimeEq, 4, e.crtime, t);
    LongAppend(o.crtimes && !f.crtimeEq, 4, e.crtime, t, tail);
    var t3 := PutUintIf(f.modNsec, e.nsec, t4);
    UintAppend(f.modNsec, e.nsec, t4, tail);
    var t2 := PutLongIf(!f.sameTime, 4, e.mtime, t3);
    LongAppend(!f.sameTime, 4, e.mtime, t3, tail);
    LongAppend(true, 3, e.length, t2, tail);
  }

  lemma OwnersAppend(o: Options, f: Flags, e: File, t: bytes, tail: bytes)
    ensures PutOwners(o, f, e, t + tail) == PutOwners(o, f, e, t) + tail
  {
    var t4 := PutUintIf(o.gid && !f.sameGid, e.gid, t);
    UintAppend(o.gid && !f.sameGid, e.gid, t, tail);
    var t3 := PutUintIf(o.uid && !f.sameUid, e.uid, t4);
    UintAppend(o.uid && !f.sameUid, e.uid, t4, tail);
    var t2 := PutLongIf(o.atimes && !IsDir(e.mode) && !f.sameAtime, 4, e.atime, t3);
    LongAppend(o.atimes && !IsDir(e.mode) && !f.sameAtime, 4, e.atime, t3, tail);
    assert t3 == PutIds(o, f, e, t);
    IntAppend(!f.sameMode, e.mode, t2, tail);
  }

  lemma ExtrasAppend(o: Options, f: Flags, e: File, t: bytes, tail: bytes)
    ensures PutExtras(o, f, e, t + tail) == PutExtras(o, f, e, t) + tail
  {
    var lnk := o.links && IsLnk(e.mode);
    var minor := if StoresRdev(o, e.mode) then e.minor else 0;
    var t5 := PutBytesIf(o.checksum && IsReg(e.mode), e.sum, t);
    BytesAppend(o.checksum && IsReg(e.mode), e.sum, t, tail);
    var t4 := PutBytesIf(lnk, e.symlink, t5);
    BytesAppend(lnk, e.symlink, t5, tail);
    var t3 := PutUintIf(lnk, |e.symlink|, t4);
    UintAppend(lnk, |e.symlink|, t4, tail);
    var t2 := PutUintIf(HasRdev(o, e.mode), minor, t3);
    UintAppend(HasRdev(o, e.mode), minor, t3, tail);
    UintAppend(HasRdev(o, e.mode) && !f.noDir, e.major, t2, tail);
  }

  lemma AttrsAppend(o: Options, f: Flags, e: File, t: bytes, tail: bytes)
    ensures PutAttrs(o, f, e, t + tail) == PutAttrs(o, f, e, t) + tail
  {
    ExtrasAppend(o, f, e, t, tail);
    OwnersAppend(o, f, e, PutExtras(o, f, e, t), tail);
    TimesAppend(o, f, e, PutOwners(o, f, e, PutExtras(o, f, e, t)), tail);
  }

  lemma RestAppend(o: Options, g: Flags, first: Option<int>, start: nat, e: File, t: bytes, tail: bytes)
    ensures PutRest(o, g, first, start, e, t + tail) == PutRest(o, g, first, start, e, t) + tail
  {
    AttrsAppend(o, g, e, t, tail);
    if first.Some? {
      Append2(EncodeVarint(first.value), t, tail);
      Append2(EncodeVarint(first.value), PutAttrs(o, g, e, t), tail);
    }
  }

  lemma NameAppend(f: Flags, l1: byte, rest: bytes, t: bytes, tail: bytes)
    requires !f.longName ==> |rest| < 256
    ensures PutName(f, l1, rest, t + tail) == PutName(f, l1, rest, t) + tail
  {
    Append2(rest, t, tail);
    if f.longName {
      Append2(EncodeVarint(|rest|), rest + t, tail);
    } else {
      Append2([|rest|], rest + t, tail);
    }
    if f.sameName { Append2([l1], PutCount(f.longName, |rest|, rest + t), tail); }
  }

  lemma FlagsAppend(o: Options, g: Flags, t: bytes, tail: bytes)
    ensures PutFlags(o, g, t + tail) == PutFlags(o, g, t) + tail
  {
    Append2(EncodeVarint(Value(g.Bits())), t, tail);
    Append2([LowByte(g), HighByte(g)], t, tail);
    Append2([LowByte(g)], t, tail);
  }

  /** The bytes of an entry, and then what follows it. */
  lemma EntryAppend(o: Options, st: St, first: Option<int>, start: nat, e: File, tail: bytes)
    ensures PutEntry(o, st, first, start, e, tail) == PutEntry(o, st, first, start, e, []) + tail
  {
    var g := Adjusted(o, FlagsFor(o, st, first.Some?, e), IsDir(e.mode));
    var l1 := Common(e.name, st.last, 255);
    assert [] + tail == tail;
    RestAppend(o, g, first, start, e, [], tail);
    var rest := PutRest(o, g, first, start, e, []);
    NameAppend(g, l1, e.name[l1..], rest, tail);
    FlagsAppend(o, g, PutName(g, l1, e.name[l1..], rest), tail);
  }

  // ----- the sending end -----

  /** The loop that finds how much of the last name is used again. */
  method CommonPrefix(name: bytes, last: bytes) returns (l1: nat)
    ensures l1 == Common(name, last, 255)
  {
    l1 := 0;
    while l1 < |last| && l1 < |name| && name[l1] == last[l1] && l1 < 255
      invariant l1 <= 255 && l1 <= |last| && l1 <= |name| && forall k :: 0 <= k < l1 ==> name[k] == last[k]
    {
      l1 := l1 + 1;
    }
    CommonIs(name, last, 255, l1);
  }

  lemma CommonIs(a: bytes, b: bytes, max: nat, n: nat)
    requires n <= max && n <= |a| && n <= |b| && forall k :: 0 <= k < n ==> a[k] == b[k]
    requires n == max || n == |a| || n == |b| || a[n] != b[n]
    ensures Common(a, b, max) == n
  {
    var c := Common(a, b, max);
    assert forall k :: 0 <= k < c ==> a[..c][k] == b[..c][k];
  }

  /** The comparisons of mode and device, and the variables after them. */
  method CompareMode(o: Options, st: St, e: File) returns (st': St, sameMode: bool, noDir: bool)
    ensures sameMode == (e.mode == st.mode)
    ensures noDir == if IsDir(e.mode) then e.kind == Implied || e.kind == Bare
                     else HasRdev(o, e.mode) && (StoresRdev(o, e.mode) ==> e.major == st.major)
    ensures st' == st.(mode := e.mode, major := if StoresRdev(o, e.mode) then e.major else st.major)
  {
    st' := st;
    noDir := IsDir(e.mode) && (e.kind == Implied || e.kind == Bare);
    sameMode := e.mode == st.mode;
    if !sameMode {
      st' := st'.(mode := e.mode);
    }
    if o.devices && IsDevice(e.mode) {
      if e.major == st.major {
        noDir := true;
      } else {
        st' := st'.(major := e.major);
      }
    } else if o.specials && IsSpecial(e.mode) && !o.p31 {
      noDir := true;
    }
  }

  /** The comparisons of user and group. */
  method CompareOwners(o: Options, st: St, e: File) returns (st': St, sameUid: bool, sameGid: bool)
    ensures sameUid == (!o.uid || (e.uid == st.uid && st.last != []))
    ensures sameGid == (!o.gid || (e.gid == st.gid && st.last != []))
    ensures st' == st.(uid := if o.uid then e.uid else st.uid, gid := if o.gid then e.gid else st.gid)
  {
    st' := st;
    sameUid := !o.uid || (e.uid == st.uid && st.last != []);
    if !sameUid {
      st' := st'.(uid := e.uid);
    }
    sameGid := !o.gid || (e.gid == st.gid && st.last != []);
    if !sameGid {
      st' := st'.(gid := e.gid);
    }
  }

  /** The comparisons of times. */
  method CompareTimes(o: Options, st: St, e: File) returns (st': St, sameTime: bool, sameAtime: bool, crtimeEq: bool)
    ensures sameTime == (e.mtime == st.mtime) && crtimeEq == (o.crtimes && e.crtime == e.mtime)
    ensures sameAtime == (o.atimes && !IsDir(e.mode) && e.atime == st.atime)
    ensures st' == st.(mtime := e.mtime, atime := if o.atimes && !IsDir(e.mode) then e.atime else st.atime)
  {
    st' := st;
    sameTime := e.mtime == st.mtime;
    if !sameTime {
      st' := st'.(mtime := e.mtime);
    }
    sameAtime := false;
    if o.atimes && !IsDir(e.mode) {
      sameAtime := e.atime == st.atime;
      if !sameAtime {
        st' := st'.(atime := e.atime);
      }
    }
    crtimeEq := o.crtimes && e.crtime == st'.mtime;
  }

  /** The flags, and the static variables after the entry. */
  method ComputeFlags(o: Options, st: St, e: File, l1: nat, known: bool) returns (f: Flags, st': St)
    requires l1 == Common(e.name, st.last, 255)
    ensures f == FlagsFor(o, st, known, e)
    ensures st' == After(o, st, e.name, AttrsOf(e))
  {
    var st1, sameMode, noDir := CompareMode(o, st, e);
    var st2, sameUid, sameGid := CompareOwners(o, st1, e);
    var st3, sameTime, sameAtime, crtimeEq := CompareTimes(o, st2, e);
    f := GatherFlags(o, st, e, l1, known, sameMode, noDir, sameUid, sameGid, sameTime, sameAtime, crtimeEq);
    st' := st3.(last := e.name);
    AfterIs(o, st, e, st1, st2, st3);
  }

  lemma FlagsForIs(o: Options, st: St, known: bool, e: File, l1: nat)
    requires l1 == Common(e.name, st.last, 255)
    ensures FlagsFor(o, st, known, e) == Flags(
      e.kind == Content(true) || e.kind == Implied, e.mode == st.mode, false,
      !o.uid || (e.uid == st.uid && st.last != []), !o.gid || (e.gid == st.gid && st.last != []),
      l1 > 0, |e.name| - l1 > 255, e.mtime == st.mtime,
      if IsDir(e.mode) then e.kind == Implied || e.kind == Bare
      else HasRdev(o, e.mode) && (StoresRdev(o, e.mode) ==> e.major == st.major),
      e.link.Some?, false, false, e.link.Some? && !known, e.nsec != 0 && o.p31,
      o.atimes && !IsDir(e.mode) && e.atime == st.atime, o.crtimes && e.crtime == e.mtime)
  {
  }

  method GatherFlags(o: Options, ghost st: St, e: File, l1: nat, known: bool, sameMode: bool, noDir: bool, sameUid: bool,
                     sameGid: bool, sameTime: bool, sameAtime: bool, crtimeEq: bool) returns (f: Flags)
    requires l1 == Common(e.name, st.last, 255) && sameMode == (e.mode == st.mode)
    requires noDir == if IsDir(e.mode) then e.kind == Implied || e.kind == Bare
                      else HasRdev(o, e.mode) && (StoresRdev(o, e.mode) ==> e.major == st.major)
    requires sameUid == (!o.uid || (e.uid == st.uid && st.last != []))
    requires sameGid == (!o.gid || (e.gid == st.gid && st.last != []))
    requires sameTime == (e.mtime == st.mtime) && crtimeEq == (o.crtimes && e.crtime == e.mtime)
    requires sameAtime == (o.atimes && !IsDir(e.mode) && e.atime == st.atime)
    ensures f == FlagsFor(o, st, known, e)
  {
    FlagsForIs(o, st, known, e, l1);
    f := Flags(e.kind == Content(true) || e.kind == Implied, sameMode, false, sameUid, sameGid, l1 > 0, |e.name| - l1 > 255,
               sameTime, noDir, e.link.Some?, false, false, e.link.Some? && !known, e.nsec != 0 && o.p31, sameAtime, crtimeEq);
  }

  lemma AfterIs(o: Options, st: St, e: File, st1: St, st2: St, st3: St)
    requires st1 == st.(mode := e.mode, major := if StoresRdev(o, e.mode) then e.major else st.major)
    requires st2 == st1.(uid := if o.uid then e.uid else st1.uid, gid := if o.gid then e.gid else st1.gid)
    requires st3 == st2.(mtime := e.mtime, atime := if o.atimes && !IsDir(e.mode) then e.atime else st2.atime)
    ensures st3.(last := e.name) == After(o, st, e.name, AttrsOf(e))
  {
  }

  /** A first link is noted in the inode table. */
  method NoteLink(idev: Idev, e: File, first: Option<int>, ndx: int) returns (idev': Idev)
    requires first == FirstOf(idev, e)
    ensures idev' == Noted(idev, e, ndx)
  {
    idev' := idev;
    if e.link.Some? && first.None? {
      idev' := idev[e.link.value := ndx];
    }
  }

  /** The flags, and the whole state after the entry. */
  method Advance(o: Options, x: Tx, e: File, l1: nat, first: Option<int>, start: nat) returns (f: Flags, x': Tx)
    requires l1 == Common(e.name, x.st.last, 255) && first == FirstOf(x.idev, e)
    ensures f == FlagsFor(o, x.st, first.Some?, e)
    ensures x' == Sent(o, start, x, e)
  {
    var idev := NoteLink(x.idev, e, first, start + |x.done|);
    var st;
    f, st := ComputeFlags(o, x.st, e, l1, first.Some?);
    x' := Tx(st, idev, x.done + [e]);
  }

  /** The static variables and the inode table of the sending side, with the
      entries of the list being sent. */
  class FlistSender {
    const o: Options
    var now: Tx

    constructor (o: Options)
      ensures this.o == o && now == Tx(START, map[], [])
    {
      this.o, now := o, Tx(START, map[], []);
    }

    /** A new list starts; the rest carries over from the one before. */
    method StartList()
      modifies this`now
      ensures now == old(now).(done := [])
    {
      now := now.(done := []);
    }

    /** send_file_entry: the bytes of the entry, and the state after it. */
    method SendFileEntry(e: File, firstNdx: nat) returns (out: bytes)
      modifies this`now
      ensures out == Sending(o, firstNdx, old(now), e, [])
      ensures now == Sent(o, firstNdx, old(now), e)
    {
      var l1 := CommonPrefix(e.name, now.st.last);
      var first := FirstOf(now.idev, e);
      var f, next := Advance(o, now, e, l1, first, firstNdx);
      out := WriteEntry(o, now.st, f, l1, first, firstNdx, e);
      now := next;
    }

    /** The entries of one list and its end, as send_file_list sends them. */
    method SendFileList(es: seq<File>, start: nat, ioError: Option<int>) returns (out: bytes)
      modifies this`now
      ensures out == PutList(o, start, old(now), es, ioError, [])
      ensures now == Feed(Stepper(o, start), old(now), es)
    {
      ghost var end := PutEnd(o, ioError, []);
      out := [];
      assert es[0..] == es;
      for i := 0 to |es|
        invariant out + Remaining(o, start, now, es[i..], end) == Remaining(o, start, old(now), es, end)
        invariant Feed(Stepper(o, start), now, es[i..]) == Feed(Stepper(o, start), old(now), es)
      {
        ghost var x := now;
        var more := SendFileEntry(es[i], start);
        RemainingStep(o, start, x, es, i, end, out, more);
        out := out + more;
      }
      assert es[|es|..] == [];
      out := out + PutEnd(o, ioError, []);
    }
  }

  function Remaining(o: Options, start: nat, x: Tx, es: seq<File>, end: bytes): bytes {
    PutAll(Putter(o, start), Stepper(o, start), x, es, end)
  }

  lemma RemainingStep(o: Options, start: nat, x: Tx, es: seq<File>, i: nat, end: bytes, out: bytes, more: bytes)
    requires i < |es| && more == PutEntry(o, x.st, FirstOf(x.idev, es[i]), start, es[i], [])
    ensures out + Remaining(o, start, x, es[i..], end) == out + more + Remaining(o, start, Sent(o, start, x, es[i]), es[i + 1..], end)
    ensures Feed(Stepper(o, start), x, es[i..]) == Feed(Stepper(o, start), Sent(o, start, x, es[i]), es[i + 1..])
  {
    PutAllStep(Putter(o, start), Stepper(o, start), x, es, i, end);
    var rest := Remaining(o, start, Sent(o, start, x, es[i]), es[i + 1..], end);
    EntryAppend(o, x.st, FirstOf(x.idev, es[i]), start, es[i], rest);
    Append2(out, more, rest);
  }

  method WriteEntry(o: Options, ghost st: St, f: Flags, l1: byte, first: Option<int>, start: nat, e: File) returns (out: bytes)
    requires f == FlagsFor(o, st, first.Some?, e) && l1 as int == Common(e.name, st.last, 255)
    ensures out == PutEntry(o, st, first, start, e, [])
  {
    LongNames(o, st, first.Some?, e, f);
    out := WriteParts(o, Adjusted(o, f, IsDir(e.mode)), l1, first, start, e);
    EntryParts(o, st, first, start, e, f, l1);
  }

  lemma LongNames(o: Options, st: St, known: bool, e: File, f: Flags)
    requires f == FlagsFor(o, st, known, e)
    ensures Adjusted(o, f, IsDir(e.mode)).longName == (|e.name| - Common(e.name, st.last, 255) > 255)
  {
  }

  lemma EntryParts(o: Options, st: St, first: Option<int>, start: nat, e: File, f: Flags, l1: byte)
    requires f == FlagsFor(o, st, first.Some?, e) && l1 as int == Common(e.name, st.last, 255)
    requires Adjusted(o, f, IsDir(e.mode)).longName == (|e.name| - l1 as int > 255)
    ensures PutEntry(o, st, first, start, e, [])
      == var g := Adjusted(o, f, IsDir(e.mode)); PutFlags(o, g, PutName(g, l1, e.name[l1..], PutRest(o, g, first, start, e, [])))
  {
  }

  /** The writes of send_file_entry, one after another. */
  method WriteParts(o: Options, g: Flags, l1: byte, first: Option<int>, start: nat, e: File) returns (out: bytes)
    requires l1 <= |e.name| && (!g.longName ==> |e.name| - l1 < 256)
    ensures out == PutFlags(o, g, PutName(g, l1, e.name[l1..], PutRest(o, g, first, start, e, [])))
  {
    var flags := PutFlags(o, g, []);
    var name := PutName(g, l1, e.name[l1..], []);
    out := flags + name;
    ghost var rest := PutRest(o, g, first, start, e, []);
    if first.Some? {
      out := out + EncodeVarint(first.value);
    }
    if first.None? || first.value < start {
      out := out + PutAttrs(o, g, e, []);
    }
    assert out == flags + name + rest by {
      if first.Some? { Append2(flags + name, EncodeVarint(first.value), PutAttrs(o, g, e, [])); }
      assert first.Some? ==> EncodeVarint(first.value) + [] == EncodeVarint(first.value);
    }
    NameAppend(g, l1, e.name[l1..], [], rest);
    FlagsAppend(o, g, [], name + rest);
    assert [] + rest == rest && [] + (name + rest) == name + rest;
    Append2(flags, name, rest);
  }

  // ----- the receiving end -----

  /** What a read comes to.  The process ends where its input does, and on
      anything it refuses. */
  datatype Read<+T> = Have(value: T) | Eof | Refused {
    predicate IsFailure() { !Have? }
    function PropagateFailure<U>(): Read<U>
      requires IsFailure()
    {
      if Eof? then Eof else Refused
    }
    function Extract(): T
      requires Have?
    {
      value
    }
  }

  /** A read as the grammar has it, with what is left of the input. */
  function Parsed<T>(r: Read<T>, input: bytes): Parse<T> {
    match r
    case Have(v) => Got(v, input)
    case Eof => Short
    case Refused => Fatal
  }

  /** The same of an entry together with the static variables after it. */
  function ParsedEntry(r: Read<File>, st: St, input: bytes): Parse<(File, St)> {
    match r
    case Have(file) => Got((file, st), input)
    case Eof => Short
    case Refused => Fatal
  }

  /** The same of a whole list. */
  function ParsedList(r: Read<(seq<File>, int)>, st: St, input: bytes): Parse<(Rx, int)> {
    match r
    case Have(l) => Got((Rx(st, l.0), l.1), input)
    case Eof => Short
    case Refused => Fatal
  }

  lemma KeptIs(name: bytes, t: Times, w: Owners, x: Extras)
    ensures Kept(name, Gathered(t, w, x)) == St(name, w.mode, t.mtime, w.atime, w.uid, w.gid, x.major)
  {
  }

  class FlistReceiver {
    const o: Options
    var input: bytes     // what was sent and not read yet
    // the static variables
    var lastname: bytes
    var modtime: int
    var atime: int
    var mode: nat
    var uid: nat
    var gid: nat
    var rdevMajor: nat

    ghost function Statics(): St
      reads this`lastname, this`modtime, this`atime, this`mode, this`uid, this`gid, this`rdevMajor
    {
      St(lastname, mode, modtime, atime, uid, gid, rdevMajor)
    }

    constructor (o: Options)
      ensures this.o == o && Statics() == START && input == []
    {
      this.o, input, lastname := o, [], [];
      modtime, atime, mode, uid, gid, rdevMajor := 0, 0, 0, 0, 0, 0;
    }

    method Arrive(more: bytes)
      modifies this`input
      ensures input == old(input) + more
    {
      input := input + more;
    }

    // ----- reading from the input -----

    method ReadBuf(n: nat) returns (r: Read<bytes>)
      modifies this`input
      ensures Parsed(r, input) == Take(old(input), n)
    {
      if n > |input| {
        return Eof;
      }
      r := Have(input[..n]);
      input := input[n..];
    }

    method ReadByte() returns (r: Read<byte>)
      modifies this`input
      ensures Parsed(r, input) == GetByteIf(true, 0, old(input))
    {
      if input == [] {
        return Eof;
      }
      r := Have(input[0]);
      input := input[1..];
    }

    method ReadInt() returns (r: Read<int>)
      modifies this`input
      ensures Parsed(r, input) == GetIntIf(true, 0, old(input))
    {
      var b :- ReadBuf(4);
      r := Have(Signed(4, FromLe(b)));
    }

    /** read_varint and read_varlong: the first byte tells how many more there
        are, and what is left of it becomes the top byte. */
    method ReadVar(total: nat, min: nat) returns (r: Read<int>)
      requires 1 <= min <= total
      modifies this`input
      ensures Parsed(r, input) == DecodeVar(total, min, old(input))
    {
      var b2 :- ReadBuf(min);
      var extra := Extra(b2[0]);
      if min + extra > total + 1 {
        return Refused;
      }
      var more :- ReadBuf(extra);
      var u := Assemble(total, b2[1..], more, LastByte(b2[0], extra));
      r := Have(Signed(total, FromLe(u[..total])));
    }

    method ReadUint() returns (r: Read<nat>)
      modifies this`input
      ensures Parsed(r, input) == GetUintIf(true, 0, old(input))
    {
      var x :- ReadVar(4, 1);
      r := Have(Uint32(x));
    }

    // ----- one entry -----

    /** The part of the last name that is used again, and the rest. */
    method ReadName(f: Flags) returns (r: Read<bytes>)
      modifies this`input, this`lastname
      ensures Parsed(r, input) == GetName(f, old(lastname), old(input))
      ensures r.Have? ==> lastname == r.value
    {
      var l1: byte := 0;
      if f.sameName {
        l1 :- ReadByte();
      }
      var l2: int;
      if f.longName {
        l2 :- ReadVar(4, 1);
      } else {
        l2 :- ReadByte();
      }
      if l2 < 0 || l2 >= MAXPATHLEN - l1 {
        return Refused;
      }
      var rest :- ReadBuf(l2);
      lastname := Rebuilt(lastname, l1, rest);
      r := Have(lastname);
    }

    /** Length and times. */
    method ReadTimes(f: Flags, ghost st: St) returns (r: Read<Times>)
      requires st.mtime == modtime
      modifies this`input, this`modtime
      ensures Parsed(r, input) == GetTimes(o, f, st, old(input))
      ensures r.Have? ==> modtime == r.value.mtime
    {
      var length :- ReadVar(8, 3);
      if !f.sameTime {
        modtime :- ReadVar(8, 4);
      }
      var nsec: nat := 0;
      if f.modNsec {
        nsec :- ReadUint();
      }
      var crtime := 0;
      if o.crtimes {
        if f.crtimeEq {
          crtime := modtime;
        } else {
          crtime :- ReadVar(8, 4);
        }
      }
      r := Have(Times(length, modtime, nsec, crtime));
    }

    /** Mode, access time and owners. */
    method ReadOwners(f: Flags, ghost st: St) returns (r: Read<Owners>)
      requires st.mode == mode && st.atime == atime && st.uid == uid && st.gid == gid
      modifies this`input, this`mode, this`atime, this`uid, this`gid
      ensures Parsed(r, input) == GetOwners(o, f, st, old(input))
      ensures r.Have? ==> r.value == Owners(mode, atime, uid, gid)
    {
      if !f.sameMode {
        var m :- ReadInt();
        mode := Uint32(m);
      }
      r := ReadAccess(f, st);
    }

    /** Access time and owners. */
    method ReadAccess(f: Flags, ghost st: St) returns (r: Read<Owners>)
      requires st.atime == atime && st.uid == uid && st.gid == gid
      modifies this`input, this`atime, this`uid, this`gid
      ensures Parsed(r, input) == GetAccess(o, f, st, mode, old(input))
      ensures r.Have? ==> r.value == Owners(mode, atime, uid, gid)
    {
      if o.atimes && !IsDir(mode) && !f.sameAtime {
        atime :- ReadVar(8, 4);
      }
      var ids :- ReadIds(f, st);
      r := Have(Owners(mode, atime, uid, gid));
    }

    method ReadIds(f: Flags, ghost st: St) returns (r: Read<(nat, nat)>)
      requires st.uid == uid && st.gid == gid
      modifies this`input, this`uid, this`gid
      ensures Parsed(r, input) == GetIds(o, f, st, old(input))
      ensures r.Have? ==> r.value == (uid, gid)
    {
      if o.uid && !f.sameUid {
        uid :- ReadUint();
      }
      if o.gid && !f.sameGid {
        gid :- ReadUint();
      }
      r := Have((uid, gid));
    }

    /** Device number and symlink length, and then what goes into the new entry. */
    method ReadExtras(f: Flags, length: int, ghost st: St) returns (r: Read<Extras>)
      requires st.major == rdevMajor
      modifies this`input, this`rdevMajor
      ensures Parsed(r, input) == GetExtras(o, f, st, length, mode, old(input))
      ensures r.Have? ==> rdevMajor == r.value.major
    {
      var minor, len, n := 0, length, 0;
      if HasRdev(o, mode) {
        if !f.noDir {
          rdevMajor :- ReadUint();
        }
        minor :- ReadUint();
        len := 0;
      }
      if o.links && IsLnk(mode) {
        n :- ReadUint();
        if n >= MAXPATHLEN {
          return Refused;
        }
      }
      if len < 0 {
        return Refused;
      }
      var symlink, sum := [], [];
      if o.links && IsLnk(mode) {
        symlink :- ReadBuf(n);
      }
      if o.checksum && IsReg(mode) {
        sum :- ReadBuf(o.csumLen);
      }
      r := Have(Extras(len, rdevMajor, minor, symlink, sum));
    }

    /** All the attributes, into the static variables and the rest. */
    method ReadAttrs(f: Flags, ghost st: St) returns (r: Read<Attrs>)
      requires Statics() == st.(last := lastname)
      modifies this`input, this`modtime, this`mode, this`atime, this`uid, this`gid, this`rdevMajor
      ensures Parsed(r, input) == GetAttrs(o, f, st, old(input))
      ensures r.Have? ==> Statics() == Kept(lastname, r.value)
    {
      var t :- ReadTimes(f, st);
      r := ReadLater(f, t, st);
    }

    method ReadLater(f: Flags, t: Times, ghost st: St) returns (r: Read<Attrs>)
      requires st.mode == mode && st.atime == atime && st.uid == uid && st.gid == gid && st.major == rdevMajor && t.mtime == modtime
      modifies this`input, this`mode, this`atime, this`uid, this`gid, this`rdevMajor
      ensures Parsed(r, input) == GetLater(o, f, st, t, old(input))
      ensures r.Have? ==> Statics() == Kept(lastname, r.value)
    {
      var w :- ReadOwners(f, st);
      var x :- ReadExtras(f, t.length, st);
      KeptIs(lastname, t, w, x);
      r := Have(Gathered(t, w, x));
    }

    /** An entry whose attributes are sent. */
    method RecvPlain(f: Flags, link: Option<int>, ghost st: St) returns (r: Read<File>)
      requires Statics() == st.(last := lastname)
      modifies this`input, this`modtime, this`mode, this`atime, this`uid, this`gid, this`rdevMajor
      ensures ParsedEntry(r, Statics(), input) == GetPlain(o, st, f, lastname, link, old(input))
    {
      var a :- ReadAttrs(f, st);
      var file := Create(f, a.length, a.nsec, a.crtime, a.minor, a.symlink, a.sum, link);
      r := Have(file);
    }

    /** create_object: the new entry takes over the static variables. */
    method Create(f: Flags, length: int, nsec: nat, crtime: int, minor: nat, symlink: bytes, sum: bytes, link: Option<int>)
      returns (file: File)
      ensures file == Build(o, KindOf(f, mode), lastname,
                            Attrs(length, modtime, nsec, crtime, mode, atime, uid, gid, rdevMajor, minor, symlink, sum), link)
    {
      var dev := StoresRdev(o, mode);
      file := File(lastname, KindOf(f, mode), mode, length, modtime, nsec,
                   if o.atimes && !IsDir(mode) then atime else 0, if o.crtimes then crtime else 0,
                   if o.uid then uid else 0, if o.gid then gid else 0, if dev then rdevMajor else 0, if dev then minor else 0,
                   if o.links && IsLnk(mode) then symlink else [], if o.checksum && IsReg(mode) then sum else [],
                   if o.hardLinks then link else None);
    }

    /** The static variables take over what the options keep of the first link. */
    method TakeOver(first: File)
      modifies this`modtime, this`mode, this`atime, this`uid, this`gid, this`rdevMajor
      ensures Statics() == After(o, old(Statics()), lastname, AttrsOf(first))
    {
      modtime := first.mtime;
      mode := first.mode;
      if o.atimes && !IsDir(mode) {
        atime := first.atime;
      }
      if o.uid {
        uid := first.uid;
      }
      if o.gid {
        gid := first.gid;
      }
      if o.devices && IsDevice(mode) {
        rdevMajor := first.major;
      }
    }

    /** A link to an entry of this list: everything but the name is copied. */
    method RecvCopy(f: Flags, first: File, ndx: int, ghost st: St) returns (file: File)
      requires Statics() == st.(last := lastname)
      modifies this`modtime, this`mode, this`atime, this`uid, this`gid, this`rdevMajor
      ensures (file, Statics()) == Copied(o, st, f, lastname, AttrsOf(first), ndx)
    {
      TakeOver(first);
      file := Create(f, first.length, first.nsec, first.crtime, first.minor, first.symlink, first.sum, Some(ndx));
    }

    /** recv_file_entry, after the flags. */
    method RecvFileEntry(f: Flags, files: seq<File>, start: nat) returns (r: Read<File>)
      modifies this
      ensures ParsedEntry(r, Statics(), input) == GetEntry(o, old(Statics()), files, start, f, old(input))
    {
      ghost var st := Statics();
      var name :- ReadName(f);
      if f.hlinked && !f.hlinkFirst {
        r := RecvLink(f, files, start, st);
      } else {
        r := RecvPlain(f, if f.hlinked then Some(start + |files|) else None, st);
      }
    }

    /** A link to an earlier entry, of this list or of one before it. */
    method RecvLink(f: Flags, files: seq<File>, start: nat, ghost st: St) returns (r: Read<File>)
      requires Statics() == st.(last := lastname)
      modifies this`input, this`modtime, this`mode, this`atime, this`uid, this`gid, this`rdevMajor
      ensures ParsedEntry(r, Statics(), input) == GetLink(o, st, files, start, f, lastname, old(input))
    {
      var first :- ReadVar(4, 1);
      if first < 0 || first >= start + |files| {
        return Refused;
      }
      if first >= start {
        var file := RecvCopy(f, files[first - start], first, st);
        return Have(file);
      }
      r := RecvPlain(f, Some(first), st);
    }

    // ----- whole lists -----

    /** The flags that start an entry, or the end of the list. */
    method ReadHead() returns (r: Read<Head>)
      modifies this`input
      ensures Parsed(r, input) == GetHead(o, old(input))
    {
      if o.varintFlags {
        var v :- ReadVar(4, 1);
        if v == 0 {
          var err :- ReadVar(4, 1);
          return Have(End(err));
        }
        var b := BitsOf(18, v);
        return Have(Entry(OfBits(b[..8], b[8..16], b[17])));
      }
      var low :- ReadByte();
      if low == 0 {
        return Have(End(0));
      }
      var high: byte := 0;
      if BitsOf(8, low)[2] {
        high :- ReadByte();
        if low == 4 && high == 0x10 {
          if !o.safe {
            return Refused;
          }
          var err :- ReadVar(4, 1);
          return Have(End(err));
        }
      }
      r := Have(Entry(OfBits(BitsOf(8, low), BitsOf(8, high), false)));
    }

    /** The loop of recv_file_list. */
    method RecvFileList(start: nat) returns (r: Read<(seq<File>, int)>)
      requires o.Valid()
      modifies this
      ensures ParsedList(r, Statics(), input) == GetList(o, start, Rx(old(Statics()), []), old(input))
    {
      ListFaithful(o, start);
      ghost var want := GetList(o, start, Rx(Statics(), []), input);
      var files: seq<File> := [];
      while true
        invariant GetAll(Getter(o, start), Rx(Statics(), files), input) == want
        decreases |input|
      {
        ghost var item := Item(o, start, Rx(Statics(), files), input);
        assert Getter(o, start)(Rx(Statics(), files), input) == item;
        var head :- ReadHead();
        if head.End? {
          return Have((files, head.err));
        }
        var file :- RecvFileEntry(head.flags, files, start);
        files := files + [file];
      }
    }
  }

  /** memcpy into a buffer. */
  method Store(u: array<byte>, at: nat, x: bytes)
    requires at + |x| <= u.Length
    modifies u
    ensures u[..] == Stored(old(u[..]), at, x)
  {
    ghost var was := u[..];
    for i := 0 to |x|
      invariant |u[..]| == |was| && u[..] == Stored(was, at, x[..i])
    {
      u[at + i] := x[i];
      OneStored(was, at, x, i);
    }
    assert x[..|x|] == x;
  }

  lemma OneStored(u: bytes, at: nat, x: bytes, i: nat)
    requires at + |x| <= |u| && i < |x|
    ensures Stored(u, at, x[..i + 1]) == Stored(u, at, x[..i])[at + i := x[i]]
  {
  }

  function Stored(u: bytes, at: nat, x: bytes): bytes
    requires at + |x| <= |u|
  {
    u[..at] + x + u[at + |x|..]
  }

  /** The union a number is put together in: zeros where nothing was stored. */
  method Assemble(total: nat, x: bytes, y: bytes, z: byte) returns (b: array<byte>)
    requires |x| + |y| <= total
    ensures fresh(b) && b[..] == x + y + [z] + Le(total - |x| - |y|, 0)
  {
    b := new byte[total + 1](_ => 0);
    ghost var zeros := b[..];
    assert forall i :: 0 <= i < |zeros| ==> zeros[i] == 0;
    StoreThree(b, x, y, z);
    Filled(zeros, x, y, z);
  }

  method StoreThree(b: array<byte>, x: bytes, y: bytes, z: byte)
    requires |x| + |y| < b.Length
    modifies b
    ensures b[..] == x + y + [z] + old(b[..])[|x| + |y| + 1..]
  {
    ghost var u := b[..];
    Store(b, 0, x);
    Store(b, |x|, y);
    Store(b, |x| + |y|, [z]);
    ThreeStored(u, x, y, z);
  }

  /** Three pieces stored one after another. */
  lemma ThreeStored(u: bytes, x: bytes, y: bytes, z: byte)
    requires |x| + |y| + 1 <= |u|
    ensures Stored(Stored(Stored(u, 0, x), |x|, y), |x| + |y|, [z]) == x + y + [z] + u[|x| + |y| + 1..]
  {
    assert Stored(u, 0, x) == x + u[|x|..];
    assert Stored(x + u[|x|..], |x|, y) == x + y + u[|x| + |y|..];
  }

  lemma Filled(u: bytes, x: bytes, y: bytes, z: byte)
    requires |x| + |y| + 1 <= |u| && forall i :: 0 <= i < |u| ==> u[i] == 0
    ensures x + y + [z] + u[|x| + |y| + 1..] == x + y + [z] + Le(|u| - |x| - |y| - 1, 0)
  {
    ZerosAre(|u| - |x| - |y| - 1);
  }

  lemma ZerosAre(n: nat)
    ensures |Le(n, 0)| == n && forall i :: 0 <= i < n ==> Le(n, 0)[i] == 0
  {
  }

  // ----- from end to end -----

  /** The bytes of one entry, read by an end that is in step. */
  lemma EntryArrives(o: Options, start: nat, x: Tx, y: Rx, e: File, tail: bytes)
    returns (g: Flags, body: bytes, file: File, x': Tx)
    requires o.Valid() && Related(o, start, x, y) == true && MaySend(o, start, x, e) == true
    ensures GetHead(o, Sending(o, start, x, e, tail)) == Got(Entry(g), body)
    ensures GetEntry(o, y.st, y.files, start, g, body) == Got((file, x'.st), tail)
    ensures file == Received(o, e, Group(e, FirstOf(x.idev, e), start + |y.files|))
    ensures x' == Sent(o, start, x, e) && Related(o, start, x', Rx(x'.st, y.files + [file])) == true
  {
    FirstIsOk(x.idev, start, x.done, e);
    var st;
    g, body, file, st := EntryRoundTrip(o, x.st, FirstOf(x.idev, e), start, y.files, x.done, e, tail);
    RelatedNext(o, start, x, y, e);
    x' := Sent(o, start, x, e);
  }

  /** One entry that one end sends and the other receives: the same file in its
      link group, nothing read of what follows it, and both ends in step. */
  method SendAndReceiveEntry(tx: FlistSender, rx: FlistReceiver, files: seq<File>, e: File, start: nat, tail: bytes)
    returns (file: File)
    requires tx.o == rx.o && tx.o.Valid() && rx.input == []
    requires Related(tx.o, start, tx.now, Rx(rx.Statics(), files)) == true && MaySend(tx.o, start, tx.now, e) == true
    modifies tx`now, rx
    ensures file == Received(tx.o, e, Group(e, FirstOf(old(tx.now).idev, e), start + |files|)) && rx.input == tail
    ensures tx.now == Sent(tx.o, start, old(tx.now), e)
    ensures Related(tx.o, start, tx.now, Rx(rx.Statics(), files + [file])) == true
  {
    ghost var g, body, want := SendOver(tx, rx, files, e, start, tail);
    file := TakeEntry(rx, files, start, g, body, want, tx.now.st, tail);
  }

  /** The first half: the bytes are there, and what the receiver will make of
      them is known. */
  method SendOver(tx: FlistSender, rx: FlistReceiver, ghost files: seq<File>, e: File, start: nat, tail: bytes)
    returns (ghost g: Flags, ghost body: bytes, ghost file: File)
    requires tx.o == rx.o && tx.o.Valid() && rx.input == []
    requires Related(tx.o, start, tx.now, Rx(rx.Statics(), files)) == true && MaySend(tx.o, start, tx.now, e) == true
    modifies tx`now, rx`input
    ensures GetHead(rx.o, rx.input) == Got(Entry(g), body)
    ensures GetEntry(rx.o, rx.Statics(), files, start, g, body) == Got((file, tx.now.st), tail)
    ensures file == Received(tx.o, e, Group(e, FirstOf(old(tx.now).idev, e), start + |files|))
    ensures tx.now == Sent(tx.o, start, old(tx.now), e)
    ensures Related(tx.o, start, tx.now, Rx(tx.now.st, files + [file])) == true
  {
    ghost var x';
    g, body, file, x' := EntryArrives(tx.o, start, tx.now, Rx(rx.Statics(), files), e, tail);
    Transmit(tx, rx, e, start, tail);
  }

  /** The bytes of an entry go over, and others behind them. */
  method Transmit(tx: FlistSender, rx: FlistReceiver, e: File, start: nat, tail: bytes)
    requires rx.input == []
    modifies tx`now, rx`input
    ensures rx.input == Sending(tx.o, start, old(tx.now), e, tail) && tx.now == Sent(tx.o, start, old(tx.now), e)
  {
    EntryAppend(tx.o, tx.now.st, FirstOf(tx.now.idev, e), start, e, tail);
    var out := tx.SendFileEntry(e, start);
    Deliver(rx, out + tail);
  }

  /** Flags and entry, where an entry is next on the input. */
  method TakeEntry(rx: FlistReceiver, files: seq<File>, start: nat, ghost g: Flags, ghost body: bytes, ghost want: File,
                   ghost st: St, ghost tail: bytes) returns (file: File)
    requires GetHead(rx.o, rx.input) == Got(Entry(g), body)
    requires GetEntry(rx.o, rx.Statics(), files, start, g, body) == Got((want, st), tail)
    modifies rx
    ensures file == want && rx.Statics() == st && rx.input == tail
  {
    var head := rx.ReadHead();
    var r := rx.RecvFileEntry(head.value.flags, files, start);
    file := r.value;
  }

  /** A list, where a list is next on the input. */
  method TakeList(rx: FlistReceiver, start: nat, ghost want: Rx, ghost end: int, ghost tail: bytes)
    returns (files: seq<File>, err: int)
    requires rx.o.Valid() && GetList(rx.o, start, Rx(rx.Statics(), []), rx.input) == Got((want, end), tail)
    modifies rx
    ensures Rx(rx.Statics(), files) == want && err == end && rx.input == tail
  {
    var r := rx.RecvFileList(start);
    files, err := r.value.0, r.value.1;
  }

  /** The bytes go over. */
  method Deliver(rx: FlistReceiver, wire: bytes)
    requires rx.input == []
    modifies rx`input
    ensures rx.input == wire
  {
    rx.Arrive(wire);
    assert [] + wire == wire;
  }

  /** A list that one end sends and the other receives: the same files, the
      same link groups, the same static variables on both sides afterwards. */
  method SendAndReceive(tx: FlistSender, rx: FlistReceiver, es: seq<File>, start: nat, ioError: Option<int>)
    returns (files: seq<File>, err: int)
    requires tx.o == rx.o && tx.o.Valid() && tx.now.st == rx.Statics() && rx.input == []
    requires tx.now.done == [] && IdevOk(tx.now.idev, start, [])
    requires AllSendable(tx.o, es) && Shared(es) && Indexable(start + |es|) && ErrorOk(tx.o, ioError)
    modifies tx`now, rx
    ensures tx.now.done == es && err == ErrorOf(ioError) && rx.input == []
    ensures Related(tx.o, start, tx.now, Rx(rx.Statics(), files)) == true
  {
    ghost var y := SendListOver(tx, rx, es, start, ioError);
    files, err := TakeList(rx, start, y, ErrorOf(ioError), []);
  }

  /** The first half, as for an entry. */
  method SendListOver(tx: FlistSender, rx: FlistReceiver, es: seq<File>, start: nat, ioError: Option<int>) returns (ghost y: Rx)
    requires tx.o == rx.o && tx.o.Valid() && tx.now.st == rx.Statics() && rx.input == []
    requires tx.now.done == [] && IdevOk(tx.now.idev, start, []) == true
    requires AllSendable(tx.o, es) == true && Shared(es) == true && Indexable(start + |es|) && ErrorOk(tx.o, ioError) == true
    modifies tx`now, rx`input
    ensures tx.now.done == es && Related(tx.o, start, tx.now, y) == true
    ensures GetList(rx.o, start, Rx(rx.Statics(), []), rx.input) == Got((y, ErrorOf(ioError)), [])
  {
    ghost var was := tx.now;
    assert was == Tx(was.st, was.idev, []);
    ghost var x';
    x', y := ListRoundTrip(tx.o, start, was.st, was.idev, es, ioError, []);
    TransmitList(tx, rx, es, start, ioError);
  }

  /** The bytes of a list go over. */
  method TransmitList(tx: FlistSender, rx: FlistReceiver, es: seq<File>, start: nat, ioError: Option<int>)
    requires rx.input == []
    modifies tx`now, rx`input
    ensures rx.input == PutList(tx.o, start, old(tx.now), es, ioError, []) && tx.now == Feed(Stepper(tx.o, start), old(tx.now), es)
  {
    var wire := tx.SendFileList(es, start, ioError);
    Deliver(rx, wire);
  }

  /** The list after the one just sent: both ends start it in step, whatever
      lists there were before, and the inodes of those are still known. */
  method SendAndReceiveNext(tx: FlistSender, rx: FlistReceiver, before: seq<File>, es: seq<File>, start: nat, next: nat,
                            ioError: Option<int>) returns (files: seq<File>, err: int)
    requires tx.o == rx.o && tx.o.Valid() && rx.input == []
    requires Related(tx.o, start, tx.now, Rx(rx.Statics(), before)) == true && next >= start + |tx.now.done|
    requires AllSendable(tx.o, es) && Shared(es) && Indexable(next + |es|) && ErrorOk(tx.o, ioError)
    modifies tx`now, rx
    ensures tx.now.done == es && err == ErrorOf(ioError) && rx.input == []
    ensures Related(tx.o, next, tx.now, Rx(rx.Statics(), files)) == true
  {
    NextList(tx.o, start, tx.now, Rx(rx.Statics(), before), next);
    tx.StartList();
    files, err := SendAndReceive(tx, rx, es, next, ioError);
  }
}

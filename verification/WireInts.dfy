/** The variable-length integers and the stateful index codec of rsync/io.c. */
module WireInts {
  import opened ByteOrder

  /** What reading from the stream yields: a value and the unread bytes, a
      stream that ended early, or a fatal protocol error. */
  datatype Parse<+T> = Got(value: T, rest: bytes) | Short | Fatal {
    predicate IsFailure() { !Got? }
    function PropagateFailure<U>(): Parse<U>
      requires IsFailure()
    {
      if Short? then Short else Fatal
    }
    function Extract(): (T, bytes)
      requires Got?
    {
      (value, rest)
    }
  }

  function Take(s: bytes, n: nat): Parse<bytes> {
    if n <= |s| then Got(s[..n], s[n..]) else Short
  }

  function Pow2(n: nat): (p: nat)
    ensures p > 0
  {
    if n == 0 then 1 else 2 * Pow2(n - 1)
  }

  /** int_byte_extra: how many bytes follow, told by the first byte. */
  function Extra(ch: byte): (e: nat)
    ensures e <= 6
  {
    if ch < 0x80 then 0
    else if ch < 0xC0 then 1
    else if ch < 0xE0 then 2
    else if ch < 0xF0 then 3
    else if ch < 0xF8 then 4
    else if ch < 0xFC then 5
    else 6
  }

  /** How many low bytes of d are kept: trailing zero bytes go, but never below min. */
  function Trim(d: bytes, min: nat): (n: nat)
    requires 1 <= min <= |d|
    ensures min <= n <= |d|
    ensures forall j :: n <= j < |d| ==> d[j] == 0
    ensures n > min ==> d[n - 1] != 0
  {
    if |d| > min && d[|d| - 1] == 0 then Trim(d[..|d| - 1], min) else |d|
  }

  /** The shape shared by write_varint (total 4, min 1) and write_varlong (total 8). */
  function EncodeVar(total: nat, min: nat, x: int): bytes
    requires 1 <= min <= total <= min + 7
  {
    var d := Le(total, x);
    Pack(d, Trim(d, min), min)
  }

  /** The n kept bytes of d behind a first byte that also tells their number. */
  function Pack(d: bytes, n: nat, min: nat): bytes
    requires 1 <= min <= n <= |d| && n <= min + 7
  {
    var bit: int := Pow2(7 - (n - min));
    var top: int := d[n - 1];
    Pow2Small(7 - (n - min));
    if top >= bit then [256 - bit] + d[..n]
    else if n > min then [256 - 2 * bit + top] + d[..n - 1]
    else [top] + d[..n - 1]
  }

  /** What the lead byte holds besides the count of extra bytes. */
  function LastByte(ch: byte, extra: nat): byte
    requires extra <= 6
  {
    if extra > 0 then Pow2Table(8 - extra); ch as int % Pow2(8 - extra) else ch
  }

  function DecodeVar(total: nat, min: nat, s: bytes): Parse<int>
    requires 1 <= min <= total
  {
    var (b2, s1) :- Take(s, min);
    var ch: int := b2[0];
    var extra := Extra(ch);
    if min + extra > total + 1 then Fatal
    else
      var (more, s2) :- Take(s1, extra);
      var last := LastByte(ch, extra);
      var u := b2[1..] + more + [last] + Le(total + 1 - min - extra, 0);
      Got(Signed(total, FromLe(u[..total])), s2)
  }

  /** Reading a number uses up at least one byte. */
  lemma VarShrinks(total: nat, min: nat, s: bytes)
    requires 1 <= min <= total
    ensures DecodeVar(total, min, s).Got? ==> |DecodeVar(total, min, s).rest| < |s|
  {
    var head := Take(s, min);
    if head.Got? {
      assert |head.rest| < |s|;
      var more := Take(head.rest, Extra(head.value[0]));
      assert more.Got? ==> |more.rest| <= |head.rest|;
    }
  }

  lemma Pow2Table(e: nat)
    requires e <= 8
    ensures Pow2(e) == [1, 2, 4, 8, 16, 32, 64, 128, 256][e]
  {
    assert Pow2(4) == 2 * Pow2(3);
    assert Pow2(6) == 2 * Pow2(5);
    assert Pow2(8) == 2 * Pow2(7);
  }

  lemma Pow2Small(e: nat)
    requires e <= 7
    ensures 1 <= Pow2(e) <= 128
  {
    Pow2Table(e);
  }

  lemma {:induction false} ZeroLe(n: nat)
    ensures forall j :: 0 <= j < n ==> Le(n, 0)[j] == 0
  {
    if n > 0 { ZeroLe(n - 1); }
  }

  /** The first byte tells how many bytes follow and carries the top bits. */
  lemma LeadByte(e: nat, top: byte)
    requires e <= 5
    ensures Pow2(7 - e) <= 128
    ensures top as int >= Pow2(7 - e) ==>
              Extra(256 - Pow2(7 - e)) == e + 1 && (256 - Pow2(7 - e)) % Pow2(7 - e) == 0
    ensures top as int < Pow2(7 - e) && e > 0 ==>
              0 <= 256 - 2 * Pow2(7 - e) + top < 256
              && Extra(256 - 2 * Pow2(7 - e) + top) == e
              && (256 - 2 * Pow2(7 - e) + top) % Pow2(8 - e) == top
    ensures top as int < Pow2(7 - e) && e == 0 ==> Extra(top) == 0
  {
    Pow2Table(7 - e);
    Pow2Table(8 - e);
    if e == 0 {
    } else if e == 1 {
    } else if e == 2 {
    } else if e == 3 {
    } else if e == 4 {
    } else {
    }
  }

  lemma PackShape(d: bytes, n: nat, min: nat) returns (extra: nat, last: byte)
    requires 1 <= min <= n <= |d| && n <= min + 5
    ensures var out := Pack(d, n, min);
            && |out| == min + extra && Extra(out[0]) == extra
            && last == (if extra > 0 then out[0] as int % Pow2(8 - extra) else out[0])
            && (out[1..] + [last] == d[..n] || (out[1..] == d[..n] && last == 0))
  {
    var e := n - min;
    LeadByte(e, d[n - 1]);
    assert d[..n - 1] + [d[n - 1]] == d[..n];
    if d[n - 1] as int >= Pow2(7 - e) {
      extra, last := e + 1, 0;
    } else {
      extra, last := e, d[n - 1];
    }
  }

  /** Every value the width holds comes back, and the reader stops exactly at
      the end of what was written, whatever follows. */
  lemma VarRoundTrip(total: nat, min: nat, x: int, rest: bytes)
    requires 1 <= min <= total <= min + 5
    requires FitsSigned(total, x)
    ensures DecodeVar(total, min, EncodeVar(total, min, x) + rest) == Got(x, rest)
  {
    var d := Le(total, x);
    var n := Trim(d, min);
    var extra, last := PackShape(d, n, min);
    SignedRoundTrip(total, x);
    Finish(total, min, x, d, n, Pack(d, n, min), last, rest, extra);
  }

  /** The bytes the reader collects are d again. */
  lemma Finish(total: nat, min: nat, x: int, d: bytes, n: nat, out: bytes, last: int, rest: bytes, extra: nat)
    requires 1 <= min <= n <= total == |d|
    requires FitsSigned(total, x) && Signed(total, FromLe(d)) == x
    requires forall j :: n <= j < total ==> d[j] == 0
    requires |out| >= min && extra == |out| - min && Extra(out[0]) == extra
    requires 0 <= last < 256
    requires last == if extra > 0 then out[0] as int % Pow2(8 - extra) else out[0]
    requires out[1..] + [last] == d[..n] || (out[1..] == d[..n] && last == 0)
    ensures DecodeVar(total, min, out + rest) == Got(x, rest)
  {
    var s := out + rest;
    assert s[..min] == out[..min] && s[min..] == out[min..] + rest;
    assert s[min..][..extra] == out[min..] && s[min..][extra..] == rest;
    var pad := total + 1 - min - extra;
    var u := s[..min][1..] + s[min..][..extra] + [last] + Le(pad, 0);
    ZeroLe(pad);
    assert s[..min][1..] + s[min..][..extra] == out[1..];
    assert u[..total] == d;
  }

  /** How long what is written is. */
  lemma PackLength(d: bytes, n: nat, min: nat)
    requires 1 <= min <= n <= |d| && n <= min + 7
    ensures |Pack(d, n, min)| == if d[n - 1] as int >= Pow2(7 - (n - min)) then n + 1 else n
  {
  }

  /** The top bits that a first byte carries leave its marker bits alone. */
  lemma LastByteSmall(ch: byte, extra: nat)
    requires extra <= 5 && Extra(ch) == extra
    ensures LastByte(ch, extra) as int < Pow2(7 - extra)
  {
    Pow2Table(8 - extra);
    Pow2Table(7 - extra);
  }

  /** The bytes of the number that a decoded string stands for. */
  lemma DecodedBytes(total: nat, min: nat, s: bytes, x: int) returns (extra: nat)
    requires 1 <= min <= total && DecodeVar(total, min, s) == Got(x, [])
    ensures extra == Extra(s[0]) && |s| == min + extra <= total + 1
    ensures min + extra <= total ==>
      Le(total, x) == s[1..] + [LastByte(s[0], extra)] + Le(total - min - extra, 0)
  {
    extra := Extra(s[0]);
    var (b2, more) := (s[..min], s[min..]);
    assert more[..extra] == more && b2[1..] + more == s[1..];
    var u := b2[1..] + more + [LastByte(s[0], extra)] + Le(total + 1 - min - extra, 0);
    LeOfSigned(u[..total]);
    if min + extra <= total {
      LeZeros(total - min - extra);
      assert u[..total] == s[1..] + [LastByte(s[0], extra)] + Le(total - min - extra, 0);
    }
  }

  lemma {:induction false} LeZeros(n: nat)
    ensures Le(n + 1, 0)[..n] == Le(n, 0)
  {
    ZeroLe(n);
    ZeroLe(n + 1);
  }

  /** Nothing shorter stands for the number: whatever string is read as x, what
      is written for x is no longer than it. */
  lemma VarShortest(total: nat, min: nat, s: bytes, x: int)
    requires 1 <= min <= total <= min + 5 && DecodeVar(total, min, s) == Got(x, [])
    ensures |EncodeVar(total, min, x)| <= |s|
  {
    var extra := DecodedBytes(total, min, s, x);
    var d := Le(total, x);
    var n := Trim(d, min);
    PackLength(d, n, min);
    if min + extra <= total {
      ZeroLe(total - min - extra);
      var last := LastByte(s[0], extra);
      assert d[min + extra - 1] == last;
      assert forall j :: min + extra <= j < total ==> d[j] == 0;
      LastByteSmall(s[0], extra);
    }
  }

  function EncodeVarint(x: int): bytes { EncodeVar(4, 1, x) }

  function DecodeVarint(s: bytes): Parse<int> { DecodeVar(4, 1, s) }

  function EncodeVarlong(x: int, min: nat): bytes
    requires 1 <= min <= 8
  {
    EncodeVar(8, min, x)
  }

  function DecodeVarlong(s: bytes, min: nat): Parse<int>
    requires 1 <= min <= 8
  {
    DecodeVar(8, min, s)
  }

  lemma {:induction false} TrimIs(d: bytes, min: nat, n: nat)
    requires 1 <= min <= n <= |d| && (n > min ==> d[n - 1] != 0) && forall j :: n <= j < |d| ==> d[j] == 0
    ensures Trim(d, min) == n
  {
    if |d| > n { TrimIs(d[..|d| - 1], min, n); }
  }

  /** What is written for a number whose four bytes are known. */
  lemma VarintIs(a: byte, b: byte, c: byte, d: byte, n: nat)
    requires 1 <= n <= 4 && var u := [a, b, c, d]; (n > 1 ==> u[n - 1] != 0) && forall j :: n <= j < 4 ==> u[j] == 0
    ensures EncodeVarint(Signed(4, FromLe([a, b, c, d]))) == Pack([a, b, c, d], n, 1)
  {
    LeOfSigned([a, b, c, d]);
    TrimIs([a, b, c, d], 1, n);
  }

  /** Small numbers are one byte, and larger ones have a first byte that is all
      marker or shares its room with the top of the number. */
  lemma VarintExamples()
    ensures Pack([5, 0, 0, 0], 1, 1) == [5] && Pack([128, 0, 0, 0], 1, 1) == [128, 128]
    ensures Pack([1, 2, 0, 0], 2, 1) == [130, 1] && Pack([0, 0x40, 0, 0], 2, 1) == [0xC0, 0, 0x40]
    ensures Pack([0xFF, 0xFF, 0xFF, 0xFF], 4, 1) == [0xF0, 0xFF, 0xFF, 0xFF, 0xFF]
  {
    Pow2Table(4);
    Pow2Table(6);
    Pow2Table(7);
  }

  lemma VarintRoundTrip(x: int, rest: bytes)
    requires FitsSigned(4, x)
    ensures DecodeVarint(EncodeVarint(x) + rest) == Got(x, rest)
  {
    VarRoundTrip(4, 1, x, rest);
  }

  lemma VarlongRoundTrip(x: int, min: nat, rest: bytes)
    requires FitsSigned(8, x) && 3 <= min <= 8
    ensures DecodeVarlong(EncodeVarlong(x, min) + rest, min) == Got(x, rest)
  {
    VarRoundTrip(8, min, x, rest);
  }

  /** SIVAL or SIVAL64 into b[1..]. */
  method StoreAll(total: nat, x: int) returns (b: array<byte>)
    requires total in {4, 8}
    ensures fresh(b) && b.Length == 9 && b[1..total + 1] == Le(total, x)
  {
    b := new byte[9](i => 0);
    Sival(b, 1, x);
    if total == 8 {
      Sival(b, 5, x / 0x1_0000_0000);
      LeSplit(x);
      assert b[1..5] == b[..5][1..];
      assert b[1..9] == b[1..5] + b[5..9];
    }
  }

  /** write_varint and write_varlong: store all bytes at b[1..], drop high
      zero bytes, then fold the lead bits into b[0]. */
  method WriteVar(total: nat, min: nat, x: int) returns (out: bytes)
    requires total in {4, 8} && 1 <= min <= total <= min + 7
    ensures out == EncodeVar(total, min, x)
    ensures total <= min + 5 ==> forall s :: DecodeVar(total, min, s) == Got(x, []) ==> |out| <= |s|
  {
    var b := StoreAll(total, x);
    var cnt := KeptBytes(b, total, min);
    out := Fold(b, total, cnt, min);
    forall s | total <= min + 5 && DecodeVar(total, min, s) == Got(x, []) ensures |out| <= |s| {
      VarShortest(total, min, s, x);
    }
  }

  method KeptBytes(b: array<byte>, total: nat, min: nat) returns (cnt: nat)
    requires 1 <= min <= total < b.Length
    ensures cnt == Trim(b[1..total + 1], min)
  {
    ghost var d := b[1..total + 1];
    cnt := total;
    while cnt > min && b[cnt] == 0
      invariant min <= cnt <= total
      invariant Trim(d, min) == Trim(d[..cnt], min)
    {
      assert d[..cnt][..cnt - 1] == d[..cnt - 1];
      cnt := cnt - 1;
    }
  }

  method Fold(b: array<byte>, total: nat, n: nat, min: nat) returns (out: bytes)
    requires b.Length == 9 && 1 <= min <= n <= total <= 8 && n <= min + 7
    modifies b
    ensures out == Pack(old(b[1..total + 1]), n, min)
  {
    ghost var d := b[1..total + 1];
    ghost var all := b[..];
    var bit: int := Pow2(7 - (n - min));
    Pow2Small(7 - (n - min));
    var cnt := n;
    if b[cnt] as int >= bit {
      cnt := cnt + 1;
      b[0] := 256 - bit;
    } else if cnt > min {
      b[0] := 256 - 2 * bit + b[cnt];
    } else {
      b[0] := b[cnt];
    }
    out := b[..cnt];
    Prefixes(all, d, total, n);
    assert out == [out[0]] + all[1..cnt];
  }

  lemma Prefixes(all: bytes, d: bytes, total: nat, n: nat)
    requires |all| == 9 && 1 <= n <= total <= 8 && d == all[1..total + 1]
    ensures d[..n] == all[1..n + 1] && d[..n - 1] == all[1..n] && d[n - 1] == all[n]
  {
  }

  lemma LeSplit(x: int)
    ensures Le(8, x) == Le(4, x) + Le(4, x / 0x1_0000_0000)
  {
    assert x / 256 / 256 / 256 / 256 == x / 0x1_0000_0000;
    assert Le(8, x) == [x % 256] + Le(7, x / 256);
    assert Le(7, x / 256) == [x / 256 % 256] + Le(6, x / 256 / 256);
    assert Le(6, x / 256 / 256) == [x / 256 / 256 % 256] + Le(5, x / 256 / 256 / 256);
    assert Le(5, x / 256 / 256 / 256) == [x / 256 / 256 / 256 % 256] + Le(4, x / 0x1_0000_0000);
    assert Le(4, x) == [x % 256] + Le(3, x / 256);
    assert Le(3, x / 256) == [x / 256 % 256] + Le(2, x / 256 / 256);
    assert Le(2, x / 256 / 256) == [x / 256 / 256 % 256] + Le(1, x / 256 / 256 / 256);
    assert Le(1, x / 256 / 256 / 256) == [x / 256 / 256 / 256 % 256];
  }

  // ----- file-list indexes -----

  const NDX_DONE := -1
  const INT32_LIMIT := 0x8000_0000

  /** The last index sent or received, of each sign. */
  datatype NdxState = NdxState(prevPositive: int, prevNegative: int) {
    predicate Valid() { -1 <= prevPositive < INT32_LIMIT && 1 <= prevNegative < INT32_LIMIT }
  }

  const NDX_START := NdxState(-1, 1)

  predicate IsNdx(ndx: int) { -INT32_LIMIT < ndx < INT32_LIMIT }

  function AfterNdx(st: NdxState, ndx: int): NdxState {
    if ndx >= 0 then st.(prevPositive := ndx)
    else if ndx == NDX_DONE then st
    else st.(prevNegative := -ndx)
  }

  /** The bytes for a non-negative number that follows prev. */
  function EncodeDiff(num: int, prev: int): bytes
    requires 0 <= num < INT32_LIMIT
  {
    var diff := num - prev;
    if 0 < diff < 0xFE then [diff]
    else if diff < 0 || diff > 0x7FFF then
      [0xFE, num / 0x1000000 + 0x80, num % 256, num / 0x100 % 256, num / 0x10000 % 256]
    else [0xFE, diff / 256, diff % 256]
  }

  function EncodeNdx(st: NdxState, ndx: int): bytes
    requires IsNdx(ndx)
  {
    if ndx >= 0 then EncodeDiff(ndx, st.prevPositive)
    else if ndx == NDX_DONE then [0]
    else [0xFF] + EncodeDiff(-ndx, st.prevNegative)
  }

  /** A whole index, sent with its high byte first and marked. */
  function FullIndex(c: bytes, e: bytes): int
    requires |c| == 2 && |e| == 2
  {
    Ival([c[1], e[0], e[1], c[0] % 0x80], 0)
  }

  function DecodeDiff(s: bytes, prev: int): Parse<int> {
    var (b, s1) :- Take(s, 1);
    if b[0] != 0xFE then Got(b[0] as int + prev, s1)
    else
      var (c, s2) :- Take(s1, 2);
      if c[0] < 0x80 then
        var hi: int := c[0];
        Got(hi * 256 + c[1] + prev, s2)
      else
        var (e, s3) :- Take(s2, 2);
        Got(FullIndex(c, e), s3)
  }

  /** read_ndx: the number and the state after it. */
  function DecodeNdx(st: NdxState, s: bytes): Parse<(int, NdxState)> {
    var (b, s1) :- Take(s, 1);
    if b[0] == 0xFF then
      var (num, s2) :- DecodeDiff(s1, st.prevNegative);
      Got((-num, st.(prevNegative := num)), s2)
    else if b[0] == 0 then Got((NDX_DONE, st), s1)
    else
      var (num, s2) :- DecodeDiff(s, st.prevPositive);
      Got((num, st.(prevPositive := num)), s2)
  }

  lemma TakeAll(a: bytes, rest: bytes)
    ensures Take(a + rest, |a|) == Got(a, rest)
  {
    assert (a + rest)[..|a|] == a && (a + rest)[|a|..] == rest;
  }

  lemma OneByteDiff(x: byte, prev: int, rest: bytes)
    requires x != 0xFE
    ensures DecodeDiff([x] + rest, prev) == Got(x as int + prev, rest)
  {
    TakeAll([x], rest);
  }

  lemma ThreeByteDiff(hi: byte, lo: byte, prev: int, rest: bytes)
    requires hi < 0x80
    ensures DecodeDiff([0xFE, hi, lo] + rest, prev) == Got(hi as int * 256 + lo as int + prev, rest)
  {
    TakeAll([0xFE], [hi, lo] + rest);
    TakeAll([hi, lo], rest);
    assert [0xFE, hi, lo] + rest == [0xFE] + ([hi, lo] + rest);
  }

  lemma FiveByteDiff(c: bytes, e: bytes, prev: int, rest: bytes)
    requires |c| == 2 && |e| == 2 && c[0] >= 0x80
    ensures DecodeDiff([0xFE] + (c + (e + rest)), prev) == Got(FullIndex(c, e), rest)
  {
    TakeAll([0xFE], c + (e + rest));
    TakeAll(c, e + rest);
    TakeAll(e, rest);
  }

  lemma FiveJoined(c: bytes, e: bytes, rest: bytes)
    requires |c| == 2 && |e| == 2
    ensures [0xFE, c[0], c[1], e[0], e[1]] + rest == [0xFE] + (c + (e + rest))
  {
  }

  lemma FullIndexIs(num: int)
    requires 0 <= num < INT32_LIMIT
    ensures num / 0x1000000 + 0x80 < 256
    ensures FullIndex([num / 0x1000000 + 0x80, num % 256], [num / 0x100 % 256, num / 0x10000 % 256]) == num
  {
    var q1 := num / 256;
    var q2 := q1 / 256;
    var q3 := q2 / 256;
    assert num / 0x10000 == q2 && num / 0x1000000 == q3;
    assert num == num % 256 + 256 * q1 && q1 == q1 % 256 + 256 * q2 && q2 == q2 % 256 + 256 * q3;
    assert (q3 + 0x80) % 0x80 == q3;
  }

  lemma DiffRoundTrip(num: int, prev: int, rest: bytes)
    requires 0 <= num < INT32_LIMIT && -1 <= prev < INT32_LIMIT
    ensures DecodeDiff(EncodeDiff(num, prev) + rest, prev) == Got(num, rest)
    ensures |EncodeDiff(num, prev)| > 0 && EncodeDiff(num, prev)[0] !in {0, 0xFF}
  {
    var diff := num - prev;
    if 0 < diff < 0xFE {
      OneByteDiff(diff, prev, rest);
    } else if diff < 0 || diff > 0x7FFF {
      FullIndexIs(num);
      var c: bytes := [num / 0x1000000 + 0x80, num % 256];
      var e: bytes := [num / 0x100 % 256, num / 0x10000 % 256];
      FiveByteDiff(c, e, prev, rest);
      FiveJoined(c, e, rest);
    } else {
      ThreeByteDiff(diff / 256, diff % 256, prev, rest);
    }
  }

  /** The index that follows the byte 0xFF is a negated one. */
  lemma NegativeNdx(st: NdxState, t: bytes, num: int, rest: bytes)
    requires DecodeDiff(t, st.prevNegative) == Got(num, rest)
    ensures DecodeNdx(st, [0xFF] + t) == Got((-num, st.(prevNegative := num)), rest)
  {
    TakeAll([0xFF], t);
  }

  lemma PositiveNdx(st: NdxState, s: bytes, num: int, rest: bytes)
    requires |s| > 0 && s[0] !in {0, 0xFF} && DecodeDiff(s, st.prevPositive) == Got(num, rest)
    ensures DecodeNdx(st, s) == Got((num, st.(prevPositive := num)), rest)
  {
    assert s[..1] == [s[0]];
  }

  /** One index comes back, the stream stops where it should, and both sides
      remember the same previous indexes. */
  lemma NdxRoundTrip(st: NdxState, ndx: int, rest: bytes)
    requires st.Valid() && IsNdx(ndx)
    ensures DecodeNdx(st, EncodeNdx(st, ndx) + rest) == Got((ndx, AfterNdx(st, ndx)), rest)
    ensures AfterNdx(st, ndx).Valid()
  {
    if ndx >= 0 {
      DiffRoundTrip(ndx, st.prevPositive, rest);
      PositiveNdx(st, EncodeDiff(ndx, st.prevPositive) + rest, ndx, rest);
    } else if ndx == NDX_DONE {
      TakeAll([0], rest);
    } else {
      DiffRoundTrip(-ndx, st.prevNegative, rest);
      var t := EncodeDiff(-ndx, st.prevNegative);
      assert [0xFF] + t + rest == [0xFF] + (t + rest);
      NegativeNdx(st, t + rest, -ndx, rest);
    }
  }

  /** The first index, NDX_FLIST_EOF, a step of 300, and a step back. */
  lemma NdxExamples()
    ensures EncodeNdx(NDX_START, 0) == [1] && EncodeNdx(NDX_START, -2) == [0xFF, 1] && EncodeNdx(NDX_START, -1) == [0]
    ensures EncodeNdx(NdxState(10, 1), 310) == [0xFE, 1, 44] && EncodeNdx(NdxState(0x102, 1), 0x101) == [0xFE, 0x80, 1, 1, 0]
  {
  }

  lemma DiffShortest(s: bytes, prev: int, num: int)
    requires DecodeDiff(s, prev) == Got(num, []) && 0 <= num < INT32_LIMIT && s[0] !in {0, 0xFF}
    ensures |EncodeDiff(num, prev)| <= |s|
  {
  }

  /** Nothing shorter is read as this index, where the marks for the end and for
      a negative index do not stand for a difference. */
  lemma NdxShortest(st: NdxState, s: bytes, ndx: int)
    requires st.Valid() && DecodeNdx(st, s).Got? && DecodeNdx(st, s).value.0 == ndx && DecodeNdx(st, s).rest == []
    requires IsNdx(ndx) && (|s| > 1 && s[0] == 0xFF ==> s[1] !in {0, 0xFF})
    ensures |EncodeNdx(st, ndx)| <= |s|
  {
    if s[0] == 0xFF {
      assert |s| > 1;
      if ndx < 0 { DiffShortest(s[1..], st.prevNegative, -ndx); }
    } else if s[0] != 0 {
      if ndx >= 0 { DiffShortest(s, st.prevPositive, ndx); }
    }
  }

  function EncodeNdxs(st: NdxState, ns: seq<int>): bytes
    requires forall n <- ns :: IsNdx(n)
    decreases |ns|
  {
    if ns == [] then [] else EncodeNdx(st, ns[0]) + EncodeNdxs(AfterNdx(st, ns[0]), ns[1..])
  }

  function DecodeNdxs(st: NdxState, count: nat, s: bytes): Parse<(seq<int>, NdxState)>
    decreases count
  {
    if count == 0 then Got(([], st), s)
    else
      var (one, s1) :- DecodeNdx(st, s);
      var (more, s2) :- DecodeNdxs(one.1, count - 1, s1);
      Got(([one.0] + more.0, more.1), s2)
  }

  function AfterNdxs(st: NdxState, ns: seq<int>): NdxState
    decreases |ns|
  {
    if ns == [] then st else AfterNdxs(AfterNdx(st, ns[0]), ns[1..])
  }

  /** Any sequence of indexes comes back, with both states still equal. */
  lemma {:induction false} NdxsRoundTrip(st: NdxState, ns: seq<int>, rest: bytes)
    requires st.Valid() && forall n <- ns :: IsNdx(n)
    ensures DecodeNdxs(st, |ns|, EncodeNdxs(st, ns) + rest) == Got((ns, AfterNdxs(st, ns)), rest)
    decreases |ns|
  {
    if ns == [] {
      assert EncodeNdxs(st, ns) + rest == rest;
    } else {
      var tail := EncodeNdxs(AfterNdx(st, ns[0]), ns[1..]);
      assert EncodeNdxs(st, ns) + rest == EncodeNdx(st, ns[0]) + (tail + rest);
      NdxRoundTrip(st, ns[0], tail + rest);
      NdxsRoundTrip(AfterNdx(st, ns[0]), ns[1..], rest);
      assert [ns[0]] + ns[1..] == ns;
    }
  }

  /** write_ndx with its two static variables. */
  class NdxWriter {
    var prevPositive: int
    var prevNegative: int

    constructor ()
      ensures State() == NDX_START
    {
      prevPositive, prevNegative := -1, 1;
    }

    function State(): NdxState
      reads this
    {
      NdxState(prevPositive, prevNegative)
    }

    method WriteNdx(index: int) returns (out: bytes)
      requires State().Valid() && IsNdx(index)
      modifies this
      ensures out == EncodeNdx(old(State()), index)
      ensures State() == AfterNdx(old(State()), index) && State().Valid()
    {
      var ndx, diff := index, 0;
      out := [];
      if ndx >= 0 {
        diff := ndx - prevPositive;
        prevPositive := ndx;
      } else if ndx == NDX_DONE {
        return [0];
      } else {
        out := [0xFF];
        ndx := -ndx;
        diff := ndx - prevNegative;
        prevNegative := ndx;
      }
      if diff < 0xFE && diff > 0 {
        out := out + [diff];
      } else if diff < 0 || diff > 0x7FFF {
        out := out + [0xFE, ndx / 0x1000000 + 0x80, ndx % 256, ndx / 0x100 % 256, ndx / 0x10000 % 256];
      } else {
        out := out + [0xFE, diff / 256, diff % 256];
      }
    }
  }

  /** read_ndx with its own two static variables. */
  class NdxReader {
    var prevPositive: int
    var prevNegative: int

    constructor ()
      ensures State() == NDX_START
    {
      prevPositive, prevNegative := -1, 1;
    }

    function State(): NdxState
      reads this
    {
      NdxState(prevPositive, prevNegative)
    }

    method ReadNdx(s: bytes) returns (r: Parse<int>)
      modifies this
      ensures var want := DecodeNdx(old(State()), s);
              if want.Got? then r == Got(want.value.0, want.rest) && State() == want.value.1
              else r.IsFailure() && State() == old(State())
    {
      if |s| == 0 {
        return Short;
      }
      assert s[..1] == [s[0]];
      if s[0] == 0 {
        return Got(NDX_DONE, s[1..]);
      }
      var negative := s[0] == 0xFF;
      var d := if negative then DecodeDiff(s[1..], prevNegative) else DecodeDiff(s, prevPositive);
      if !d.Got? {
        return if d.Short? then Short else Fatal;
      }
      if negative {
        prevNegative := d.value;
        r := Got(-d.value, d.rest);
      } else {
        prevPositive := d.value;
        r := Got(d.value, d.rest);
      }
    }
  }
}

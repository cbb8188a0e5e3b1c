/** The rolling weak checksum and the chunked MD4 feed of rsync/checksum.c. */
module Checksum {
  import opened ByteOrder

  const CHAR_OFFSET: int := 0
  const M16: int := 0x1_0000
  const M32: int := 0x1_0000_0000

  function U32(x: int): (r: nat)
    ensures r < M32
  {
    x % M32
  }

  /** A char of the buffer, read as a signed one. */
  function SChar(b: byte): int { if b < 128 then b else b - 256 }

  /** The signed number with these eight bits. */
  lemma SCharIs(b: byte)
    ensures -128 <= SChar(b) < 128 && SChar(b) % 256 == b
  {
  }

  function Term(b: byte): int { SChar(b) + CHAR_OFFSET }

  /** Both sums, one byte at a time and without wrap-around. */
  function S1(w: bytes): int {
    if w == [] then 0 else S1(w[..|w| - 1]) + Term(w[|w| - 1])
  }

  function S2(w: bytes): int {
    if w == [] then 0 else S2(w[..|w| - 1]) + S1(w)
  }

  /** The 32-bit weak sum of a block. */
  function WeakSum(w: bytes): (s: nat)
    ensures s < M32
  {
    Join(S1(w), S2(w))
  }

  /** (s1 & 0xffff) | (s2 << 16) on uint32 values. */
  function Join(s1: int, s2: int): (s: nat)
    ensures s < M32 && s % M16 == s1 % M16 && s / M16 == s2 % M16
  {
    s1 % M16 + M16 * (s2 % M16)
  }

  predicate Cong(a: int, b: int, m: int)
    requires m > 0
  {
    a % m == b % m
  }

  lemma CongBy(a: int, b: int, m: int, k: int)
    requires m > 0 && a == b + k * m
    ensures Cong(a, b, m)
  {
    assert a == (b / m + k) * m + b % m;
    DivModUnique(a, m, b / m + k, b % m);
  }

  lemma CongGap(a: int, b: int, m: int) returns (k: int)
    requires m > 0 && Cong(a, b, m)
    ensures a == b + k * m
  {
    k := a / m - b / m;
    assert a == a / m * m + a % m && b == b / m * m + b % m;
  }

  /** Sums with small factors respect congruence. */
  lemma CongLinear(a: int, a': int, b: int, b': int, f: int, c: int, m: int)
    requires m > 0 && Cong(a, a', m) && Cong(b, b', m)
    ensures Cong(a + f * b + c, a' + f * b' + c, m)
  {
    var j := CongGap(a, a', m);
    var k := CongGap(b, b', m);
    assert f * (b' + k * m) == f * b' + f * k * m;
    CongBy(a + f * b + c, a' + f * b' + c, m, j + f * k);
  }

  lemma U32Cong(x: int)
    ensures Cong(U32(x), x, M32) && Cong(U32(x), x, M16)
  {
    CongBy(U32(x), x, M32, -(x / M32));
    CongBy(U32(x), x, M16, -(x / M32) * M16);
  }

  lemma Narrow(a: int, b: int)
    requires Cong(a, b, M32)
    ensures Cong(a, b, M16)
  {
    var k := CongGap(a, b, M32);
    CongBy(a, b, M16, k * M16);
  }

  lemma SumSnoc(w: bytes, c: byte)
    ensures S1(w + [c]) == S1(w) + Term(c)
    ensures S2(w + [c]) == S2(w) + S1(w) + Term(c)
  {
    assert (w + [c])[..|w|] == w;
  }

  lemma SumFour(w: bytes, a: byte, b: byte, c: byte, d: byte)
    ensures S1(w + [a, b, c, d]) == S1(w) + SChar(a) + SChar(b) + SChar(c) + SChar(d) + 4 * CHAR_OFFSET
    ensures S2(w + [a, b, c, d]) == S2(w) + 4 * (S1(w) + SChar(a)) + 3 * SChar(b) + 2 * SChar(c) + SChar(d) + 10 * CHAR_OFFSET
  {
    SumSnoc(w, a);
    SumSnoc(w + [a], b);
    SumSnoc(w + [a] + [b], c);
    SumSnoc(w + [a] + [b] + [c], d);
    assert w + [a] + [b] + [c] + [d] == w + [a, b, c, d];
  }

  /** get_checksum1, four bytes at a time in uint32 arithmetic, equals the
      byte-at-a-time sum. */
  method GetChecksum1(buf: bytes) returns (sum: nat)
    ensures sum == WeakSum(buf)
  {
    var i, s1: int, s2: int := 0, 0, 0;
    while i < |buf| - 4
      invariant 0 <= i <= |buf|
      invariant Cong(s1, S1(buf[..i]), M32) && Cong(s2, S2(buf[..i]), M32)
    {
      s1, s2 := FourMore(buf, i, s1, s2);
      i := i + 4;
    }
    while i < |buf|
      invariant 0 <= i <= |buf|
      invariant Cong(s1, S1(buf[..i]), M32) && Cong(s2, S2(buf[..i]), M32)
    {
      s1, s2 := OneMore(buf, i, s1, s2);
      i := i + 1;
    }
    assert buf[..i] == buf;
    Narrow(s1, S1(buf));
    Narrow(s2, S2(buf));
    sum := U32(s1 % M16 + s2 * M16);
    JoinShift(s1, s2);
  }

  /** (s2 << 16) in uint32 keeps only the low half of s2. */
  lemma JoinShift(s1: int, s2: int)
    ensures U32(s1 % M16 + s2 * M16) == Join(s1, s2)
  {
    var q := s2 / M16;
    assert s2 == q * M16 + s2 % M16;
    assert s1 % M16 + s2 * M16 == Join(s1, s2) + q * M32;
    CongBy(s1 % M16 + s2 * M16, Join(s1, s2), M32, q);
  }

  method FourMore(buf: bytes, i: nat, s1: int, s2: int) returns (t1: int, t2: int)
    requires i + 4 <= |buf|
    requires Cong(s1, S1(buf[..i]), M32) && Cong(s2, S2(buf[..i]), M32)
    ensures Cong(t1, S1(buf[..i + 4]), M32) && Cong(t2, S2(buf[..i + 4]), M32)
  {
    var a, b, c, d := SChar(buf[i]), SChar(buf[i + 1]), SChar(buf[i + 2]), SChar(buf[i + 3]);
    t2 := U32(s2 + 4 * (s1 + a) + 3 * b + 2 * c + d + 10 * CHAR_OFFSET);
    t1 := U32(s1 + (a + b + c + d + 4 * CHAR_OFFSET));
    assert buf[..i + 4] == buf[..i] + [buf[i], buf[i + 1], buf[i + 2], buf[i + 3]];
    SumFour(buf[..i], buf[i], buf[i + 1], buf[i + 2], buf[i + 3]);
    U32Cong(s2 + 4 * (s1 + a) + 3 * b + 2 * c + d + 10 * CHAR_OFFSET);
    U32Cong(s1 + (a + b + c + d + 4 * CHAR_OFFSET));
    CongLinear(s2, S2(buf[..i]), s1, S1(buf[..i]), 4, 4 * a + 3 * b + 2 * c + d + 10 * CHAR_OFFSET, M32);
    CongLinear(s1, S1(buf[..i]), 0, 0, 0, a + b + c + d + 4 * CHAR_OFFSET, M32);
  }

  method OneMore(buf: bytes, i: nat, s1: int, s2: int) returns (t1: int, t2: int)
    requires i < |buf|
    requires Cong(s1, S1(buf[..i]), M32) && Cong(s2, S2(buf[..i]), M32)
    ensures Cong(t1, S1(buf[..i + 1]), M32) && Cong(t2, S2(buf[..i + 1]), M32)
  {
    t1 := U32(s1 + (SChar(buf[i]) + CHAR_OFFSET));
    t2 := U32(s2 + t1);
    assert buf[..i + 1] == buf[..i] + [buf[i]];
    SumSnoc(buf[..i], buf[i]);
    U32Cong(s1 + (SChar(buf[i]) + CHAR_OFFSET));
    CongLinear(s1, S1(buf[..i]), 0, 0, 0, Term(buf[i]), M32);
    U32Cong(s2 + t1);
    CongLinear(s2, S2(buf[..i]), t1, S1(buf[..i + 1]), 1, 0, M32);
  }

  // ----- rolling -----

  lemma {:induction false} DropFirst(w: bytes)
    requires |w| > 0
    ensures S1(w[1..]) == S1(w) - Term(w[0])
    ensures S2(w[1..]) == S2(w) - |w| * Term(w[0])
    decreases |w|
  {
    var n := |w| - 1;
    var v, c := w[..n], w[n];
    assert w == v + [c];
    SumSnoc(v, c);
    if n == 0 {
      assert w[1..] == [] && v == [];
    } else {
      DropFirst(v);
      var u := v[1..];
      assert w[1..] == u + [c];
      SumSnoc(u, c);
      Distribute(n, Term(w[0]));
    }
  }

  lemma Distribute(n: int, t: int)
    ensures (n + 1) * t == n * t + t
  {
  }

  /** Trim off the first byte of the window. */
  lemma TrimByte(w: bytes, s1: int, s2: int)
    requires |w| > 0 && Cong(s1, S1(w), M16) && Cong(s2, S2(w), M16)
    ensures Cong(U32(s1 - Term(w[0])), S1(w[1..]), M16)
    ensures Cong(U32(s2 - |w| * Term(w[0])), S2(w[1..]), M16)
  {
    DropFirst(w);
    CongLinear(s1, S1(w), 0, 0, 0, -Term(w[0]), M16);
    CongLinear(s2, S2(w), 0, 0, 0, -(|w| * Term(w[0])), M16);
    U32Cong(s1 - Term(w[0]));
    U32Cong(s2 - |w| * Term(w[0]));
  }

  /** Add the next byte to the window. */
  lemma AddByte(w: bytes, c: byte, s1: int, s2: int)
    requires Cong(s1, S1(w), M16) && Cong(s2, S2(w), M16)
    ensures var t1 := U32(s1 + Term(c));
            Cong(t1, S1(w + [c]), M16) && Cong(U32(s2 + t1), S2(w + [c]), M16)
  {
    SumSnoc(w, c);
    var t1 := U32(s1 + Term(c));
    U32Cong(s1 + Term(c));
    CongLinear(s1, S1(w), 0, 0, 0, Term(c), M16);
    U32Cong(s2 + t1);
    CongLinear(s2, S2(w), t1, S1(w + [c]), 1, 0, M16);
  }

  /** The two halves of a block's sum, as hash_search splits them. */
  lemma Split(w: bytes)
    ensures Cong(WeakSum(w) % M16, S1(w), M16) && Cong(WeakSum(w) / M16, S2(w), M16)
  {
    assert WeakSum(w) % M16 == S1(w) % M16 && WeakSum(w) / M16 == S2(w) % M16;
  }

  lemma Joined(w: bytes, s1: int, s2: int)
    requires Cong(s1, S1(w), M16) && Cong(s2, S2(w), M16)
    ensures U32(s1 % M16 + s2 * M16) == WeakSum(w)
  {
    JoinShift(s1, s2);
  }

  // ----- sum_init / sum_update / sum_end in their residue mode -----

  const CSUM_CHUNK: nat := 64

  /** The 64-byte chunks of a message, and what is left over. */
  function Whole(n: nat): (r: nat)
    ensures r <= n < r + CSUM_CHUNK && r % CSUM_CHUNK == 0
  {
    n - n % CSUM_CHUNK
  }

  /** Feed a message to the digest core, one full chunk at a time. */
  function Feed<S>(core: (S, bytes) -> S, st: S, msg: bytes): S
    decreases |msg|
  {
    if |msg| < CSUM_CHUNK then st
    else Feed(core, core(st, msg[..CSUM_CHUNK]), msg[CSUM_CHUNK..])
  }

  lemma {:induction false} FeedConcat<S>(core: (S, bytes) -> S, st: S, a: bytes, b: bytes)
    requires |a| % CSUM_CHUNK == 0
    ensures Feed(core, st, a + b) == Feed(core, Feed(core, st, a), b)
    decreases |a|
  {
    if |a| < CSUM_CHUNK {
      assert a + b == b;
    } else {
      assert (a + b)[..CSUM_CHUNK] == a[..CSUM_CHUNK] && (a + b)[CSUM_CHUNK..] == a[CSUM_CHUNK..] + b;
      FeedConcat(core, core(st, a[..CSUM_CHUNK]), a[CSUM_CHUNK..], b);
    }
  }

  /** The running whole-file sum: a digest state and up to 63 bytes kept back. */
  class FileSum<S(0)> {
    const core: (S, bytes) -> S
    const start: S
    var state: S
    var residue: bytes
    ghost var fed: bytes

    ghost predicate Valid()
      reads this
    {
      && |residue| < CSUM_CHUNK
      && var w := Whole(|fed|);
         residue == fed[w..] && state == Feed(core, start, fed[..w])
    }

    /** sum_init. */
    constructor (c: (S, bytes) -> S, s: S)
      ensures Valid() && fed == [] && core == c && start == s
    {
      core, start, state, residue, fed := c, s, s, [], [];
    }

    /** sum_update: however the pieces fall, only their concatenation matters. */
    method Update(piece: bytes)
      requires Valid()
      modifies this
      ensures Valid() && fed == old(fed) + piece
    {
      if |piece| + |residue| < CSUM_CHUNK {
        KeepBack(piece);
        return;
      }
      ghost var w := Whole(|fed|);
      var p, done := FillResidue(piece, fed[..w]);
      Chunks(p, done, fed + piece);
    }

    /** Too little for a chunk: all of it is kept back. */
    method KeepBack(piece: bytes)
      requires Valid() && |piece| + |residue| < CSUM_CHUNK
      modifies this
      ensures Valid() && fed == old(fed) + piece
    {
      ghost var w := Whole(|fed|);
      fed := fed + piece;
      residue := residue + piece;
      assert Whole(|fed|) == w && fed[..w] == old(fed)[..w] && fed[w..] == old(fed)[w..] + piece;
    }

    /** The bytes kept back go first, made up to a chunk. */
    method FillResidue(piece: bytes, ghost before: bytes) returns (p: bytes, ghost done: bytes)
      requires Valid() && |piece| + |residue| >= CSUM_CHUNK && before == fed[..Whole(|fed|)]
      modifies this`state
      ensures done + p == fed + piece && |done| % CSUM_CHUNK == 0 && state == Feed(core, start, done)
    {
      p, done := piece, before;
      assert fed == before + residue;
      if |residue| > 0 {
        var i := CSUM_CHUNK - |residue|;
        var chunk := residue + p[..i];
        FeedOne(core, start, done, chunk);
        state := core(state, chunk);
        done := done + chunk;
        p := p[i..];
        assert piece == piece[..i] + p;
      }
    }

    /** Whole chunks, and the rest kept back. */
    method Chunks(piece: bytes, ghost before: bytes, ghost all: bytes)
      requires before + piece == all && |before| % CSUM_CHUNK == 0 && state == Feed(core, start, before)
      modifies this
      ensures Valid() && fed == all
    {
      var p := piece;
      ghost var done := before;
      while |p| >= CSUM_CHUNK
        invariant done + p == all && |done| % CSUM_CHUNK == 0
        invariant state == Feed(core, start, done)
      {
        FeedOne(core, start, done, p[..CSUM_CHUNK]);
        state := core(state, p[..CSUM_CHUNK]);
        done := done + p[..CSUM_CHUNK];
        p := p[CSUM_CHUNK..];
      }
      fed := all;
      assert Whole(|fed|) == |done| && fed[..|done|] == done && fed[|done|..] == p;
      residue := p;
    }

    /** sum_end, with `finish` closing the state over the bytes kept back. */
    method End<D>(finish: (S, bytes) -> D) returns (digest: D)
      requires Valid()
      ensures digest == Digest(core, start, finish, fed)
    {
      digest := finish(state, residue);
    }
  }

  /** What sum_end yields for a whole message. */
  function Digest<S, D>(core: (S, bytes) -> S, start: S, finish: (S, bytes) -> D, msg: bytes): D {
    var w := Whole(|msg|);
    finish(Feed(core, start, msg[..w]), msg[w..])
  }

  lemma FeedOne<S>(core: (S, bytes) -> S, st: S, a: bytes, chunk: bytes)
    requires |a| % CSUM_CHUNK == 0 && |chunk| == CSUM_CHUNK
    ensures Feed(core, st, a + chunk) == core(Feed(core, st, a), chunk)
    ensures |a + chunk| % CSUM_CHUNK == 0
  {
    FeedConcat(core, st, a, chunk);
    assert chunk[..CSUM_CHUNK] == chunk && chunk[CSUM_CHUNK..] == [];
  }
}

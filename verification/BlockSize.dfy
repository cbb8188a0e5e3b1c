/** The generator's choice of block size (rsync/generator.c). */
module BlockSize {
  import opened Delta
  import opened WireInts

  const BLOCK_SIZE: nat := 700

  const MAX_BLOCK_SIZE: nat := 0x2_0000

  const OLD_MAX_BLOCK_SIZE: nat := 0x2000_0000

  const SUM_LENGTH: nat := 16

  const BLOCKSUM_BIAS: nat := 10

  const MAX_INT32: nat := 0x7fff_ffff

  /** A sum_struct; count is -1 when the file cannot be processed. */
  datatype SumHead = SumHead(count: int, blength: nat, remainder: nat, s2length: nat)

  function Sq(x: nat): nat { x * x }

  lemma SqMono(a: nat, b: nat)
    ensures a <= b ==> Sq(a) <= Sq(b)
    ensures a < b ==> Sq(a) < Sq(b)
  {
    if a <= b {
      var d := b - a;
      assert b * b == a * a + 2 * (a * d) + d * d;
    }
  }

  lemma SqDouble(c: nat)
    ensures Sq(2 * c) == 4 * Sq(c)
  {
  }

  lemma {:induction false} Pow2Mono(a: nat, b: nat)
    requires a <= b
    ensures Pow2(a) <= Pow2(b)
    decreases b
  {
    if a < b { Pow2Mono(a, b - 1); }
  }

  lemma MulMono(a: nat, b: nat, q: nat)
    requires a <= b
    ensures a * q <= b * q
  {
  }

  lemma QuarterStep(l: nat, q: nat, len: nat)
    requires l * q <= len < (l + 1) * q
    ensures (l / 4) * (4 * q) <= len < (l / 4 + 1) * (4 * q)
  {
    var m := l / 4;
    assert m * (4 * q) == (4 * m) * q && (m + 1) * (4 * q) == (4 * m + 4) * q;
    MulMono(4 * m, l, q);
    MulMono(l + 1, 4 * m + 4, q);
  }

  /** The first loop: the power of two just below the square root. */
  method HighBit(len: nat) returns (c: nat, ghost k: nat)
    requires len > 0
    ensures c == Pow2(k) && Sq(c) <= len < 4 * Sq(c)
  {
    c, k := 1, 0;
    var l := len;
    while l / 4 != 0
      invariant l > 0 && c == Pow2(k) && l * Sq(c) <= len < (l + 1) * Sq(c)
      decreases l
    {
      QuarterStep(l, Sq(c), len);
      SqDouble(c);
      l := l / 4;
      c, k := 2 * c, k + 1;
    }
    MulMono(1, l, Sq(c));
    MulMono(l + 1, 4, Sq(c));
  }

  /** The second loop: set each bit that keeps the square within len, down to
      the eights. */
  method SquareRoot(len: nat, top: nat, ghost k: nat) returns (blength: nat)
    requires k >= 3 && top == Pow2(k) && len < 4 * Sq(top)
    ensures Sq(blength) <= len < Sq(blength + 8) && blength % 8 == 0
  {
    var c := top;
    ghost var n := k;
    blength := 0;
    SqDouble(top);
    while c >= 8
      invariant c == Pow2(n) && n >= 2 && blength % 8 == 0
      invariant Between(len, blength, blength + 2 * c)
      decreases n
    {
      LowBits(n);
      blength := TryBit(len, blength, c);
      c := c / 2;
      n := n - 1;
    }
    LowBits(n);
  }

  predicate Between(len: nat, a: nat, b: nat) { Sq(a) <= len < Sq(b) }

  /** Set the bit c unless that is too much. */
  method TryBit(len: nat, blength: nat, c: nat) returns (b: nat)
    requires Between(len, blength, blength + 2 * c) && c % 8 == 0 && blength % 8 == 0
    ensures Between(len, b, b + c) && b % 8 == 0
  {
    b := blength + c;
    assert blength + 2 * c == b + c;
    if len < Sq(b) {
      b := b - c;
    }
  }

  /** Powers of two from 8 on are multiples of 8; below that there is 4. */
  lemma {:induction false} LowBits(n: nat)
    requires n >= 2
    ensures if n == 2 then Pow2(n) == 4 else Pow2(n) % 8 == 0 && Pow2(n) >= 8
  {
    assert Pow2(1) == 2 && Pow2(2) == 4;
    if n > 3 { LowBits(n - 1); }
  }

  lemma SmallSquare(k: nat)
    requires k < 3
    ensures Sq(Pow2(k)) <= 16
  {
    assert Pow2(0) == 1 && Pow2(1) == 2 && Pow2(2) == 4;
  }

  /** The cap is a power of two, so the high bit reaches it exactly when the
      square of the cap does. */
  lemma HighBitVsCap(len: nat, c: nat, k: nat, j: nat)
    requires c == Pow2(k) && Sq(c) <= len < 4 * Sq(c)
    ensures c >= Pow2(j) <==> len >= Sq(Pow2(j))
  {
    if k >= j {
      Pow2Mono(j, k);
      SqMono(Pow2(j), c);
    } else {
      Pow2Mono(k + 1, j);
      SqDouble(c);
      SqMono(2 * c, Pow2(j));
    }
  }

  function Cap(p30: bool): nat { if p30 then MAX_BLOCK_SIZE else OLD_MAX_BLOCK_SIZE }

  lemma CapIsPower(p30: bool) returns (j: nat)
    ensures Cap(p30) == Pow2(j)
  {
    j := if p30 then 17 else 29;
    Power17();
    assert Pow2(29) == 4096 * Pow2(17);
  }

  lemma Power17()
    ensures Pow2(17) == MAX_BLOCK_SIZE
  {
    assert Pow2(8) == 256;
    assert Pow2(12) == 4096;
  }

  /** The search, for a length over the limit for BLOCK_SIZE. */
  method SearchLength(len: nat, maxBlength: nat, ghost j: nat) returns (blength: nat)
    requires len > Sq(BLOCK_SIZE) && maxBlength == Pow2(j) >= BLOCK_SIZE
    ensures len >= Sq(maxBlength) ==> blength == maxBlength
    ensures len < Sq(maxBlength) ==> Sq(blength) <= len < Sq(blength + 8) && BLOCK_SIZE <= blength < maxBlength
                                     && (blength == BLOCK_SIZE || blength % 8 == 0)
  {
    var c, k := HighBit(len);
    HighBitVsCap(len, c, k, j);
    if c >= maxBlength {
      return maxBlength;
    }
    if k < 3 { SmallSquare(k); }
    blength := SquareRoot(len, c, k);
    SqMono(maxBlength, blength);
    if blength < BLOCK_SIZE {
      SqMono(blength + 8, BLOCK_SIZE + 8);
      SqMono(maxBlength, BLOCK_SIZE);
      blength := BLOCK_SIZE;
    }
  }

  /** The block length; forced is --block-size, 0 if not given. */
  method ChooseLength(len: nat, forced: nat, p30: bool) returns (blength: nat)
    ensures blength > 0
    ensures forced > 0 ==> blength == forced
    ensures forced == 0 && len <= Sq(BLOCK_SIZE) ==> blength == BLOCK_SIZE
    ensures forced == 0 && len >= Sq(Cap(p30)) ==> blength == Cap(p30)
    ensures forced == 0 && Sq(BLOCK_SIZE) < len < Sq(Cap(p30)) ==>
      Sq(blength) <= len < Sq(blength + 8) && BLOCK_SIZE <= blength < Cap(p30) && (blength == BLOCK_SIZE || blength % 8 == 0)
  {
    SqMono(BLOCK_SIZE, Cap(p30));
    if forced > 0 {
      return forced;
    }
    if len <= Sq(BLOCK_SIZE) {
      return BLOCK_SIZE;
    }
    ghost var j := CapIsPower(p30);
    blength := SearchLength(len, Cap(p30), j);
  }

  /** Whole part of the binary logarithm. */
  function Log2(n: nat): nat {
    if n < 2 then 0 else 1 + Log2(n / 2)
  }

  /** How many bytes of the strong sum to send: enough bits for the number of
      pairs of positions, less the 32 bits of the weak sum. */
  function Bits(len: nat, blength: nat): int {
    var b := BLOCKSUM_BIAS + 2 * Log2(len) - Log2(blength);
    if b < 0 then 0 else b
  }

  /** The values that s2length bytes and the weak sum can tell apart are more
      than 2^9 for each pair of a position and a block; and a shorter sum would
      do for less than 2^11. */
  predicate LongEnough(len: nat, blength: nat, s2length: nat) { Pow2(8 * s2length + 32) * blength > 512 * Sq(len) }

  predicate NotTooLong(len: nat, blength: nat, s2length: nat) { Pow2(8 * s2length + 24) * blength < 2048 * Sq(len) }

  lemma {:induction false} LogIs(n: nat)
    requires n > 0
    ensures Pow2(Log2(n)) <= n < 2 * Pow2(Log2(n))
  {
    if n >= 2 { LogIs(n / 2); }
  }

  lemma {:induction false} Pow2Add(a: nat, b: nat)
    ensures Pow2(a + b) == Pow2(a) * Pow2(b)
  {
    if a > 0 {
      Pow2Add(a - 1, b);
      assert Pow2(a) * Pow2(b) == 2 * (Pow2(a - 1) * Pow2(b));
    }
  }

  lemma Pow2Ten()
    ensures Pow2(10) == 1024 && Pow2(11) == 2048
  {
    assert Pow2(8) == 256;
  }

  lemma TenMore(x: nat)
    ensures Pow2(10 + x) == 1024 * Pow2(x) && Pow2(11 + x) == 2048 * Pow2(x)
  {
    Pow2Ten();
    Pow2Add(10, x);
    Pow2Add(11, x);
  }

  /** Powers instead of logarithms. */
  lemma AtMost(n: nat, c: nat, m: nat)
    requires n + c <= 10 + m
    ensures Pow2(n + c) <= 1024 * Pow2(m)
  {
    TenMore(m);
    Pow2Mono(n + c, 10 + m);
  }

  lemma AtLeast(n: nat, c: nat, m: nat)
    requires n + c >= 11 + m
    ensures Pow2(n + c) >= 2048 * Pow2(m)
  {
    TenMore(m);
    Pow2Mono(11 + m, n + c);
  }

  lemma SquareOf(l: nat)
    ensures Pow2(l + l) == Sq(Pow2(l))
  {
    Pow2Add(l, l);
  }

  /** Bits is enough, in numbers. */
  lemma EnoughBits(len: nat, blength: nat, n: nat)
    requires blength > 0 && n > Bits(len, blength)
    ensures Pow2(n) * blength > 512 * Sq(len)
  {
    var (l, c) := (Log2(len), Log2(blength));
    LogIs(blength);
    if len > 0 { LogIs(len); }
    SquareOf(l);
    AtLeast(n, c, l + l);
    Pow2Add(n, c);
    LowerChain(Pow2(n), blength, Pow2(c), Pow2(n + c), Pow2(l), len);
  }

  lemma LowerChain(p: nat, b: nat, c: nat, pc: nat, l: nat, len: nat)
    requires c <= b && p * c == pc >= 2048 * Sq(l) && len < 2 * l
    ensures p * b > 512 * Sq(len)
  {
    SqDouble(l);
    SqMono(len, 2 * l);
    MulMono(c, b, p);
    assert c * p == p * c && b * p == p * b;
  }

  lemma PowerAtMost(n: nat, c: nat, l: nat)
    requires n + c <= 10 + 2 * l
    ensures Pow2(n + c) <= 1024 * Sq(Pow2(l))
  {
    SquareOf(l);
    AtMost(n, c, l + l);
  }

  lemma NeededBits(len: nat, blength: nat, n: nat)
    requires len > 0 && blength > 0 && n <= BLOCKSUM_BIAS + 2 * Log2(len) - Log2(blength)
    ensures Pow2(n) * blength < 2048 * Sq(len)
  {
    var (l, c) := (Log2(len), Log2(blength));
    LogIs(blength);
    LogIs(len);
    PowerAtMost(n, c, l);
    Pow2Add(n, c);
    UpperChain(Pow2(n), blength, Pow2(c), Pow2(n + c), Pow2(l), len);
  }

  lemma UpperChain(p: nat, b: nat, c: nat, pc: nat, l: nat, len: nat)
    requires p > 0 && b < 2 * c && p * c == pc <= 1024 * Sq(l) && l <= len
    ensures p * b < 2048 * Sq(len)
  {
    SqMono(l, len);
    MulStrict(p, b, 2 * c);
    assert p * (2 * c) == 2 * (p * c);
  }

  lemma MulStrict(a: nat, b: nat, c: nat)
    requires a > 0 && b < c
    ensures a * b < a * c
  {
    MulMono(b, c - 1, a);
    assert a * (c - 1) == a * c - a;
  }

  /** The length of the strong sum. */
  method StrongLength(len: nat, blength: nat, csumLength: nat) returns (s2length: nat)
    requires blength > 0 && csumLength <= SUM_LENGTH
    ensures csumLength <= s2length <= SUM_LENGTH
    ensures s2length == SUM_LENGTH || LongEnough(len, blength, s2length)
    ensures s2length == csumLength || NotTooLong(len, blength, s2length)
  {
    s2length := SumBytes(len, blength, csumLength);
    if s2length < SUM_LENGTH { EnoughBits(len, blength, 8 * s2length + 32); }
    if s2length != csumLength {
      if len == 0 { LogIs(blength); }
      NeededBits(len, blength, 8 * s2length + 24);
    }
  }

  method SumBytes(len: nat, blength: nat, csumLength: nat) returns (s2length: nat)
    requires blength > 0 && csumLength <= SUM_LENGTH
    ensures csumLength <= s2length <= SUM_LENGTH
    ensures s2length == SUM_LENGTH || 8 * s2length + 32 > Bits(len, blength)
    ensures s2length == csumLength || 8 * s2length + 32 <= Bits(len, blength) + 8
  {
    if csumLength == SUM_LENGTH {
      return SUM_LENGTH;
    }
    var b: nat := BLOCKSUM_BIAS;
    var l := len;
    while l / 2 != 0
      invariant b + 2 * Log2(l) == BLOCKSUM_BIAS + 2 * Log2(len)
      decreases l
    {
      l := l / 2;
      b := b + 2;
    }
    var c := blength;
    while c / 2 != 0 && b != 0
      invariant c > 0 && (if b >= Log2(c) then b - Log2(c) else 0) == Bits(len, blength)
      decreases c
    {
      c := c / 2;
      b := b - 1;
    }
    s2length := if b >= 24 then (b - 24) / 8 else 0;
    s2length := if s2length < csumLength then csumLength else s2length;
    s2length := if s2length > SUM_LENGTH then SUM_LENGTH else s2length;
  }

  lemma Rebuild(len: nat, blength: nat)
    requires blength > 0
    ensures var (q, rem) := (len / blength, len % blength); var count := q + (if rem != 0 then 1 else 0);
      && (count == 0 <==> len == 0)
      && (count - 1) * blength < len <= count * blength
      && count * blength - (if rem != 0 then blength - rem else 0) == len
      && Geometry(count, blength, rem).Valid() && Geometry(count, blength, rem).Flength() == len
  {
    var (q, rem) := (len / blength, len % blength);
    assert len == q * blength + rem;
    assert (q + 1) * blength == q * blength + blength && (q - 1) * blength == q * blength - blength;
  }

  /** sum_sizes_sqroot.  The sender and the receiver can rebuild the length from
      what is sent. */
  method SumSizesSqroot(len: int, forced: nat, p30: bool, csumLength: nat) returns (sum: SumHead)
    requires csumLength <= SUM_LENGTH
    ensures sum.count == -1 <==> len < 0 || len > MAX_INT32 * sum.blength
    ensures sum.count >= 0 ==>
      && sum.blength > 0
      && (sum.count - 1) * sum.blength < len <= sum.count * sum.blength
      && sum.count * sum.blength - (if sum.remainder != 0 then sum.blength - sum.remainder else 0) == len
      && Geometry(sum.count, sum.blength, sum.remainder).Valid()
      && Geometry(sum.count, sum.blength, sum.remainder).Flength() == len
    ensures len >= 0 && forced > 0 ==> sum.blength == forced
    ensures forced == 0 && 0 <= len <= Sq(BLOCK_SIZE) ==> sum.blength == BLOCK_SIZE
    ensures forced == 0 && len >= Sq(Cap(p30)) ==> sum.blength == Cap(p30)
    ensures forced == 0 && Sq(BLOCK_SIZE) < len < Sq(Cap(p30)) ==>
      Sq(sum.blength) <= len < Sq(sum.blength + 8) && BLOCK_SIZE <= sum.blength < Cap(p30)
    ensures len >= 0 ==> csumLength <= sum.s2length <= SUM_LENGTH
    ensures len >= 0 ==> sum.s2length == SUM_LENGTH || LongEnough(len, sum.blength, sum.s2length)
    ensures len >= 0 ==> sum.s2length == csumLength || NotTooLong(len, sum.blength, sum.s2length)
  {
    if len < 0 {
      return SumHead(-1, 1, 0, 0);
    }
    var blength := ChooseLength(len, forced, p30);
    var s2length := StrongLength(len, blength, csumLength);
    var remainder := len % blength;
    var l := len / blength + (if remainder != 0 then 1 else 0);
    Rebuild(len, blength);
    sum := SumHead(if l > MAX_INT32 then -1 else l, blength, remainder, s2length);
    CountFits(len, blength, l);
  }

  lemma CountFits(len: nat, blength: nat, l: nat)
    requires (l - 1) * blength < len <= l * blength
    ensures l > MAX_INT32 <==> len > MAX_INT32 * blength
  {
    if l > MAX_INT32 { MulMono(MAX_INT32, l - 1, blength); } else { MulMono(l, MAX_INT32, blength); }
  }
}

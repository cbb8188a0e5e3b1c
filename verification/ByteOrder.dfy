/** Bytes and little-endian integers (rsync/byteorder.h). */
module ByteOrder {

  type byte = x: int | 0 <= x < 256

  type bytes = seq<byte>

  function Pow256(n: nat): (r: nat)
    ensures r > 0
  {
    if n == 0 then 1 else 256 * Pow256(n - 1)
  }

  /** The low n bytes of x, least significant first.  Division and modulus are
      floored here, so a negative x comes out in two's complement. */
  function Le(n: nat, x: int): (b: bytes)
    ensures |b| == n
    decreases n
  {
    if n == 0 then [] else [x % 256] + Le(n - 1, x / 256)
  }

  /** The unsigned number whose little-endian bytes are b. */
  function FromLe(b: bytes): (v: nat)
    ensures v < Pow256(|b|)
  {
    if b == [] then 0 else b[0] + 256 * FromLe(b[1..])
  }

  /** An unsigned n-byte number read as two's complement. */
  function Signed(n: nat, v: int): int {
    if 2 * v >= Pow256(n) then v - Pow256(n) else v
  }

  /** The values an n-byte two's complement integer can hold. */
  predicate FitsSigned(n: nat, x: int) {
    0 <= 2 * x + Pow256(n) < 2 * Pow256(n)
  }

  lemma {:induction false} FromLeOfLe(n: nat, x: int)
    ensures FromLe(Le(n, x)) == x % Pow256(n)
  {
    if n > 0 {
      FromLeOfLe(n - 1, x / 256);
      assert Le(n, x)[1..] == Le(n - 1, x / 256);
      ModStep(x, Pow256(n - 1));
    }
  }

  lemma ModStep(x: int, m: nat)
    requires m > 0
    ensures x % 256 + 256 * ((x / 256) % m) == x % (256 * m)
  {
    var q, r := (x / 256) / m, (x / 256) % m;
    assert x / 256 == q * m + r;
    assert x == 256 * (q * m + r) + x % 256;
    var s := 256 * r + x % 256;
    assert 256 * (q * m) == q * (256 * m);
    assert x == q * (256 * m) + s;
    assert 0 <= s < 256 * m;
    DivModUnique(x, 256 * m, q, s);
  }

  lemma DivModUnique(x: int, m: int, q: int, r: int)
    requires m > 0 && 0 <= r < m && x == q * m + r
    ensures x / m == q && x % m == r
  {
    var q', r' := x / m, x % m;
    assert x == q' * m + r';
    assert (q - q') * m == r' - r;
    if q > q' {
      MulGe(q - q', m);
    } else if q < q' {
      assert (q' - q) * m == r - r';
      MulGe(q' - q, m);
    }
  }

  lemma MulGe(a: int, m: int)
    requires a >= 1 && m >= 0
    ensures a * m >= m
  {
    assert (a - 1) * m >= 0;
  }

  /** Storing a number and reading it back gives the number, for every value
      the width can hold. */
  lemma SignedRoundTrip(n: nat, x: int)
    requires FitsSigned(n, x)
    ensures Signed(n, FromLe(Le(n, x))) == x
  {
    FromLeOfLe(n, x);
    if x >= 0 {
      DivModUnique(x, Pow256(n), 0, x);
    } else {
      DivModUnique(x, Pow256(n), -1, x + Pow256(n));
    }
  }

  /** Each n-byte number is stored as the bytes it was read from. */
  lemma {:induction false} LeOfFromLe(b: bytes)
    ensures Le(|b|, FromLe(b)) == b
  {
    if b != [] {
      LeOfFromLe(b[1..]);
      assert b == [b[0]] + b[1..];
    }
  }

  lemma {:induction false} LeWraps(n: nat, x: int)
    ensures Le(n, x - Pow256(n)) == Le(n, x)
  {
    if n > 0 {
      var p := Pow256(n - 1);
      DivModUnique(x - 256 * p, 256, x / 256 - p, x % 256);
      LeWraps(n - 1, x / 256);
    }
  }

  lemma LeOfSigned(b: bytes)
    ensures Le(|b|, Signed(|b|, FromLe(b))) == b
  {
    LeOfFromLe(b);
    LeSigned(|b|, FromLe(b));
  }

  lemma LeSigned(n: nat, v: int)
    ensures Le(n, Signed(n, v)) == Le(n, v)
  {
    LeWraps(n, v);
  }

  lemma {:induction false} FromLeZeroTail(b: bytes, k: nat)
    requires k <= |b| && forall j :: k <= j < |b| ==> b[j] == 0
    ensures FromLe(b) == FromLe(b[..k])
  {
    if b == [] {
    } else if k == 0 {
      FromLeZeroTail(b[1..], 0);
      assert b[1..][..0] == [] && b[..0] == [];
    } else {
      FromLeZeroTail(b[1..], k - 1);
      assert b[1..][..k - 1] == b[..k][1..];
    }
  }

  /** A 32-bit value, as IVAL returns it. */
  function Ival(b: bytes, pos: nat): (v: nat)
    requires pos + 4 <= |b|
  {
    var b0: int, b1: int, b2: int, b3: int := b[pos], b[pos + 1], b[pos + 2], b[pos + 3];
    b0 + 0x100 * b1 + 0x10000 * b2 + 0x1000000 * b3
  }

  lemma IvalIsFromLe(b: bytes, pos: nat)
    requires pos + 4 <= |b|
    ensures Ival(b, pos) == FromLe(b[pos..pos + 4])
  {
    var s := b[pos..pos + 4];
    assert s[1..][0] == b[pos + 1] && s[1..][1..][0] == b[pos + 2] && s[1..][1..][1..][0] == b[pos + 3];
    assert s[1..][1..][1..][1..] == [];
    assert FromLe(s) == s[0] as int + 256 * FromLe(s[1..]);
    assert FromLe(s[1..]) == s[1..][0] as int + 256 * FromLe(s[1..][1..]);
    assert FromLe(s[1..][1..]) == s[1..][1..][0] as int + 256 * FromLe(s[1..][1..][1..]);
  }

  /** SIVAL: four stores into the buffer, nothing else touched. */
  method Sival(buf: array<byte>, pos: nat, val: int)
    requires pos + 4 <= buf.Length
    modifies buf
    ensures buf[pos..pos + 4] == Le(4, val)
    ensures buf[..pos] == old(buf[..pos]) && buf[pos + 4..] == old(buf[pos + 4..])
  {
    LeFour(val);
    buf[pos] := val % 256;
    buf[pos + 1] := val / 0x100 % 256;
    buf[pos + 2] := val / 0x10000 % 256;
    buf[pos + 3] := val / 0x1000000 % 256;
    assert buf[pos..pos + 4] == [buf[pos], buf[pos + 1], buf[pos + 2], buf[pos + 3]];
  }

  lemma LeFour(x: int)
    ensures Le(4, x) == [x % 256, x / 0x100 % 256, x / 0x10000 % 256, x / 0x1000000 % 256]
  {
    assert x / 256 / 256 == x / 0x10000;
    assert x / 0x10000 / 256 == x / 0x1000000;
    assert Le(4, x)[1..] == Le(3, x / 256);
    assert Le(3, x / 256)[1..] == Le(2, x / 0x10000);
    assert Le(2, x / 0x10000)[1..] == Le(1, x / 0x1000000);
    assert Le(1, x / 0x1000000) == [x / 0x1000000 % 256];
  }
}

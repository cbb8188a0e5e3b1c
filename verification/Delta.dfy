/** The delta stream between sender and receiver: block geometry, tokens, what
    a token stream means, and what makes it safe to replay in place. */
module Delta {
  import opened ByteOrder
  import opened Checksum

  /** The header the generator sends: count blocks of blength, the last one of
      `remainder` bytes unless that is 0. */
  datatype Geometry = Geometry(count: nat, blength: nat, remainder: nat) {
    predicate Valid() { (count > 0 ==> blength > 0) && remainder <= blength }

    function Offset(i: nat): nat { i * blength }

    function Len(i: nat): nat {
      if i == count - 1 && remainder != 0 then remainder else blength
    }

    /** The length of the file that was cut into these blocks. */
    function Flength(): nat
      requires Valid()
    {
      if count == 0 then 0 else Offset(count - 1) + Len(count - 1)
    }

    lemma BlockInside(i: nat)
      requires Valid() && i < count
      ensures Len(i) > 0 && Offset(i) + Len(i) <= Flength()
      ensures i + 1 < count ==> Offset(i) + Len(i) == Offset(i + 1)
    {
      if i < count - 1 {
        assert (count - 1) * blength == i * blength + (count - 1 - i) * blength;
        MulGe(count - 1 - i, blength);
        assert (i + 1) * blength == i * blength + blength;
      }
    }
  }

  function Block(basis: bytes, g: Geometry, i: nat): (b: bytes)
    requires g.Valid() && i < g.count && |basis| == g.Flength()
    ensures |b| == g.Len(i)
  {
    g.BlockInside(i);
    basis[g.Offset(i)..g.Offset(i) + g.Len(i)]
  }

  function Window(file: bytes, p: nat, l: nat): bytes
    requires p + l <= |file|
  {
    file[p..p + l]
  }

  /** A strong digest cut to the s2length bytes that are compared. */
  function Sum2(strong: bytes -> bytes, s2length: nat, w: bytes): bytes {
    var d := strong(w);
    if s2length <= |d| then d[..s2length] else d
  }

  function Min(a: nat, b: nat): nat { if a <= b then a else b }

  /** Of each digest its first s2length bytes are used, or all it has. */
  lemma Sum2Is(strong: bytes -> bytes, s2length: nat, w: bytes)
    ensures |Sum2(strong, s2length, w)| == Min(s2length, |strong(w)|)
    ensures forall k :: 0 <= k < Min(s2length, |strong(w)|) ==> Sum2(strong, s2length, w)[k] == strong(w)[k]
  {
  }

  /** The digests agree in the first s2length bytes. */
  predicate AgreeFirst(a: bytes, b: bytes, s2length: nat) {
    Min(s2length, |a|) == Min(s2length, |b|) && forall k :: 0 <= k < s2length && k < |a| && k < |b| ==> a[k] == b[k]
  }

  lemma Sum2Equal(strong: bytes -> bytes, s2length: nat, v: bytes, w: bytes)
    ensures Sum2(strong, s2length, v) == Sum2(strong, s2length, w) <==> AgreeFirst(strong(v), strong(w), s2length)
  {
    Sum2Is(strong, s2length, v);
    Sum2Is(strong, s2length, w);
    var (a, b) := (Sum2(strong, s2length, v), Sum2(strong, s2length, w));
    if a == b {
      forall k | 0 <= k < s2length && k < |strong(v)| && k < |strong(w)| ensures strong(v)[k] == strong(w)[k] {
        assert a[k] == b[k];
      }
    }
  }

  /** One step of the stream the receiver replays. */
  datatype Token = Literal(data: bytes) | Match(block: nat)

  function TokenLen(g: Geometry, t: Token): nat {
    match t
    case Literal(d) => |d|
    case Match(b) => g.Len(b)
  }

  /** How many output bytes a stream stands for. */
  function OutLen(g: Geometry, ts: seq<Token>): nat {
    if ts == [] then 0 else OutLen(g, ts[..|ts| - 1]) + TokenLen(g, ts[|ts| - 1])
  }

  /** The output position where token k starts. */
  function Start(g: Geometry, ts: seq<Token>, k: nat): nat
    requires k <= |ts|
  {
    OutLen(g, ts[..k])
  }

  predicate WellFormed(g: Geometry, ts: seq<Token>) {
    forall t <- ts :: t.Match? ==> t.block < g.count
  }

  function TokenBytes(basis: bytes, g: Geometry, t: Token): bytes
    requires g.Valid() && |basis| == g.Flength() && (t.Match? ==> t.block < g.count)
  {
    match t
    case Literal(d) => d
    case Match(b) => Block(basis, g, b)
  }

  /** What the stream means: every matched block read from an untouched basis. */
  function Replay(basis: bytes, g: Geometry, ts: seq<Token>): (out: bytes)
    requires g.Valid() && |basis| == g.Flength() && WellFormed(g, ts)
    ensures |out| == OutLen(g, ts)
  {
    if ts == [] then []
    else
      var last := ts[|ts| - 1];
      assert last in ts;
      Replay(basis, g, ts[..|ts| - 1]) + TokenBytes(basis, g, last)
  }

  lemma StartSnoc(g: Geometry, ts: seq<Token>, t: Token, k: nat)
    requires k <= |ts|
    ensures Start(g, ts + [t], k) == Start(g, ts, k)
  {
    assert (ts + [t])[..k] == ts[..k];
  }

  lemma OutLenSnoc(g: Geometry, ts: seq<Token>, t: Token)
    ensures OutLen(g, ts + [t]) == OutLen(g, ts) + TokenLen(g, t)
  {
    assert (ts + [t])[..|ts|] == ts;
  }

  lemma ReplaySnoc(basis: bytes, g: Geometry, ts: seq<Token>, t: Token)
    requires g.Valid() && |basis| == g.Flength() && WellFormed(g, ts + [t])
    ensures WellFormed(g, ts) && (t.Match? ==> t.block < g.count)
    ensures Replay(basis, g, ts + [t]) == Replay(basis, g, ts) + TokenBytes(basis, g, t)
  {
    assert (ts + [t])[..|ts|] == ts;
    assert t in ts + [t];
    forall u | u in ts ensures u in ts + [t] {}
  }

  /** Block b was sent earlier at its own offset, so replaying skipped over it. */
  predicate SkippedBefore(g: Geometry, ts: seq<Token>, k: nat, b: nat)
    requires k <= |ts|
  {
    exists m {:trigger Start(g, ts, m)} :: 0 <= m < k && ts[m] == Match(b) && Start(g, ts, m) == g.Offset(b)
  }

  /** A matched block is wholly at or past the write position, or was skipped. */
  predicate SafeAt(g: Geometry, ts: seq<Token>, k: nat)
    requires k < |ts|
  {
    ts[k].Match? ==> g.Offset(ts[k].block) >= Start(g, ts, k) || SkippedBefore(g, ts, k, ts[k].block)
  }

  /** The rule the sender keeps while updating_basis_file is set. */
  predicate InPlaceSafe(g: Geometry, ts: seq<Token>) {
    forall k :: 0 <= k < |ts| ==> SafeAt(g, ts, k)
  }

  lemma SkippedSnoc(g: Geometry, ts: seq<Token>, t: Token, k: nat, b: nat)
    requires k <= |ts| && SkippedBefore(g, ts, k, b)
    ensures SkippedBefore(g, ts + [t], k, b)
    ensures SkippedBefore(g, ts + [t], |ts| + 1, b)
  {
    var m :| 0 <= m < k && ts[m] == Match(b) && Start(g, ts, m) == g.Offset(b);
    StartSnoc(g, ts, t, m);
    assert (ts + [t])[m] == Match(b);
  }

  lemma SafeSnoc(g: Geometry, ts: seq<Token>, t: Token)
    requires InPlaceSafe(g, ts)
    requires t.Match? ==> g.Offset(t.block) >= OutLen(g, ts) || SkippedBefore(g, ts, |ts|, t.block)
    ensures InPlaceSafe(g, ts + [t])
  {
    var us := ts + [t];
    forall k | 0 <= k < |us| ensures SafeAt(g, us, k) {
      StartSnoc(g, ts, t, k);
      if k < |ts| {
        assert SafeAt(g, ts, k) && us[k] == ts[k];
        if ts[k].Match? && SkippedBefore(g, ts, k, ts[k].block) {
          SkippedSnoc(g, ts, t, k, ts[k].block);
        }
      } else {
        assert ts[..|ts|] == ts;
        if t.Match? && SkippedBefore(g, ts, |ts|, t.block) {
          SkippedSnoc(g, ts, t, |ts|, t.block);
        }
      }
    }
  }

  // ----- when equal sums can be trusted -----

  /** No window of the sender's file has both sums of a basis block without
      being that block. */
  ghost predicate NoCollision(file: bytes, basis: bytes, g: Geometry, strong: bytes -> bytes, s2length: nat)
    requires g.Valid() && |basis| == g.Flength()
  {
    forall p: nat, l: nat, i: nat ::
      p + l <= |file| && i < g.count
      && WeakSum(Window(file, p, l)) == WeakSum(Block(basis, g, i))
      && Sum2(strong, s2length, Window(file, p, l)) == Sum2(strong, s2length, Block(basis, g, i))
      ==> Window(file, p, l) == Block(basis, g, i)
  }

  /** The same of the strong sum alone. */
  ghost predicate NoStrongCollision(file: bytes, basis: bytes, g: Geometry, strong: bytes -> bytes, s2length: nat)
    requires g.Valid() && |basis| == g.Flength()
  {
    forall p: nat, l: nat, i: nat ::
      p + l <= |file| && i < g.count
      && Sum2(strong, s2length, Window(file, p, l)) == Sum2(strong, s2length, Block(basis, g, i))
      ==> Window(file, p, l) == Block(basis, g, i)
  }

  /** Full-length windows and blocks with weak sum 0 all hold the same bytes. */
  ghost predicate ZeroSumUnique(file: bytes, basis: bytes, g: Geometry)
    requires g.Valid() && |basis| == g.Flength()
  {
    forall p: nat, i: nat ::
      p + g.blength <= |file| && i < g.count
      && WeakSum(Window(file, p, g.blength)) == 0 && WeakSum(Block(basis, g, i)) == 0
      ==> Window(file, p, g.blength) == Block(basis, g, i)
  }

  /** The strong sum tells full-length windows with weak sum 0 from blocks with
      another weak sum. */
  ghost predicate ZeroSumApart(file: bytes, basis: bytes, g: Geometry, strong: bytes -> bytes, s2length: nat)
    requires g.Valid() && |basis| == g.Flength()
  {
    forall p: nat, i: nat ::
      p + g.blength <= |file| && i < g.count
      && WeakSum(Window(file, p, g.blength)) == 0 && WeakSum(Block(basis, g, i)) != 0
      ==> Sum2(strong, s2length, Window(file, p, g.blength)) != Sum2(strong, s2length, Block(basis, g, i))
  }

  // ----- streams that stand for a file -----

  /** Token t, placed at output position p, stands for the same bytes of file. */
  predicate Faithful(file: bytes, basis: bytes, g: Geometry, t: Token, p: nat)
    requires g.Valid() && |basis| == g.Flength()
  {
    && (t.Match? ==> t.block < g.count)
    && p + TokenLen(g, t) <= |file|
    && Window(file, p, TokenLen(g, t)) == TokenBytes(basis, g, t)
  }

  predicate AllFaithful(file: bytes, basis: bytes, g: Geometry, ts: seq<Token>)
    requires g.Valid() && |basis| == g.Flength()
  {
    forall k {:trigger Start(g, ts, k)} :: 0 <= k < |ts| ==> Faithful(file, basis, g, ts[k], Start(g, ts, k))
  }

  lemma FaithfulPrefix(file: bytes, basis: bytes, g: Geometry, ts: seq<Token>, t: Token)
    requires g.Valid() && |basis| == g.Flength() && AllFaithful(file, basis, g, ts + [t])
    ensures AllFaithful(file, basis, g, ts) && Faithful(file, basis, g, t, OutLen(g, ts))
  {
    var us := ts + [t];
    forall k | 0 <= k < |ts| ensures Faithful(file, basis, g, ts[k], Start(g, ts, k)) {
      assert Faithful(file, basis, g, us[k], Start(g, us, k));
      StartSnoc(g, ts, t, k);
    }
    assert Faithful(file, basis, g, us[|ts|], Start(g, us, |ts|));
    assert us[..|ts|] == ts;
  }

  lemma FaithfulSnoc(file: bytes, basis: bytes, g: Geometry, ts: seq<Token>, t: Token)
    requires g.Valid() && |basis| == g.Flength()
    ensures AllFaithful(file, basis, g, ts + [t]) <==> AllFaithful(file, basis, g, ts) && Faithful(file, basis, g, t, OutLen(g, ts))
  {
    if AllFaithful(file, basis, g, ts + [t]) {
      FaithfulPrefix(file, basis, g, ts, t);
    }
    if AllFaithful(file, basis, g, ts) && Faithful(file, basis, g, t, OutLen(g, ts)) {
      var us := ts + [t];
      forall k | 0 <= k < |us| ensures Faithful(file, basis, g, us[k], Start(g, us, k)) {
        StartSnoc(g, ts, t, k);
        assert ts[..|ts|] == ts;
      }
    }
  }

  lemma FaithfulWellFormed(file: bytes, basis: bytes, g: Geometry, ts: seq<Token>)
    requires g.Valid() && |basis| == g.Flength() && AllFaithful(file, basis, g, ts)
    ensures WellFormed(g, ts)
  {
    forall k | 0 <= k < |ts| ensures ts[k].Match? ==> ts[k].block < g.count {
      assert Faithful(file, basis, g, ts[k], Start(g, ts, k));
    }
  }

  lemma ExtendPrefix(file: bytes, p: nat, l: nat)
    requires p + l <= |file|
    ensures file[..p] + Window(file, p, l) == file[..p + l]
  {
  }

  /** A faithful stream, replayed, gives back the part of the file it covers. */
  lemma {:induction false} ReplayFaithful(file: bytes, basis: bytes, g: Geometry, ts: seq<Token>)
    requires g.Valid() && |basis| == g.Flength() && AllFaithful(file, basis, g, ts)
    ensures WellFormed(g, ts) && OutLen(g, ts) <= |file|
    ensures Replay(basis, g, ts) == file[..OutLen(g, ts)]
    decreases |ts|
  {
    FaithfulWellFormed(file, basis, g, ts);
    if ts != [] {
      var n := |ts| - 1;
      var init, t := ts[..n], ts[n];
      assert ts == init + [t];
      FaithfulPrefix(file, basis, g, init, t);
      ReplayFaithful(file, basis, g, init);
      ReplayOneMore(file, basis, g, init, t);
    }
  }

  /** And only a faithful one does. */
  lemma {:induction false} ReplayOnlyFaithful(file: bytes, basis: bytes, g: Geometry, ts: seq<Token>)
    requires g.Valid() && |basis| == g.Flength() && WellFormed(g, ts)
    requires OutLen(g, ts) <= |file| && Replay(basis, g, ts) == file[..OutLen(g, ts)]
    ensures AllFaithful(file, basis, g, ts)
    decreases |ts|
  {
    if ts != [] {
      var n := |ts| - 1;
      var init, t := ts[..n], ts[n];
      assert ts == init + [t];
      ReplaySnoc(basis, g, init, t);
      OutLenSnoc(g, init, t);
      FrontAndBack(file, OutLen(g, init), Replay(basis, g, init), TokenBytes(basis, g, t));
      ReplayOnlyFaithful(file, basis, g, init);
      FaithfulSnoc(file, basis, g, init, t);
    }
  }

  lemma FrontAndBack(file: bytes, p: nat, front: bytes, back: bytes)
    requires |front| == p && p + |back| <= |file| && front + back == file[..p + |back|]
    ensures front == file[..p] && back == Window(file, p, |back|)
  {
    assert front == (front + back)[..p] && back == (front + back)[p..];
  }

  lemma ReplayOneMore(file: bytes, basis: bytes, g: Geometry, ts: seq<Token>, t: Token)
    requires g.Valid() && |basis| == g.Flength() && WellFormed(g, ts) && OutLen(g, ts) <= |file|
    requires Faithful(file, basis, g, t, OutLen(g, ts)) && Replay(basis, g, ts) == file[..OutLen(g, ts)]
    ensures WellFormed(g, ts + [t]) && OutLen(g, ts + [t]) <= |file|
    ensures Replay(basis, g, ts + [t]) == file[..OutLen(g, ts + [t])]
  {
    ReplaySnoc(basis, g, ts, t);
    ExtendPrefix(file, OutLen(g, ts), TokenLen(g, t));
  }
}

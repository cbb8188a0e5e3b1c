/** One file from end to end: the generator's sums (rsync/generator.c), the
    sender's search, the receiver's rebuild and both whole-file sums. */
module Transfer {
  import opened ByteOrder
  import opened Checksum
  import opened Delta
  import opened MapFile
  import M = Matcher
  import R = Receiver

  /** generate_and_send_sums: cut the basis into blocks and sum each one.  Of
      each strong sum the first s2length bytes go out. */
  method GenerateSums(basis: bytes, g: Geometry, strong: bytes -> bytes, s2length: nat) returns (wire: seq<(nat, bytes)>)
    requires g.Valid() && |basis| == g.Flength()
    ensures |wire| == g.count
    ensures forall i :: 0 <= i < g.count ==>
              wire[i] == (WeakSum(Block(basis, g, i)), Sum2(strong, s2length, Block(basis, g, i)))
    ensures forall i :: 0 <= i < g.count ==>
              var digest := strong(Block(basis, g, i));
              wire[i].1 == digest[..Min(s2length, |digest|)]
  {
    var offset, len := 0, |basis|;
    wire := [];
    for i := 0 to g.count
      invariant offset == (if i < g.count then g.Offset(i) else |basis|) && offset + len == |basis|
      invariant |wire| == i
      invariant forall j :: 0 <= j < i ==>
                  wire[j] == (WeakSum(Block(basis, g, j)), Sum2(strong, s2length, Block(basis, g, j)))
    {
      g.BlockInside(i);
      var n1 := if len < g.blength then len else g.blength;
      LastOnly(basis, g, i, n1);
      var chunk := Window(basis, offset, n1);
      len, offset := len - n1, offset + n1;
      var sum1 := GetChecksum1(chunk);
      wire := wire + [(sum1, Sum2(strong, s2length, chunk))];
    }
    forall i | 0 <= i < g.count
      ensures var digest := strong(Block(basis, g, i)); wire[i].1 == digest[..Min(s2length, |digest|)]
    {
      Sum2Is(strong, s2length, Block(basis, g, i));
    }
  }

  /** Taking as much as fits gives each block its own length. */
  lemma LastOnly(basis: bytes, g: Geometry, i: nat, n1: nat)
    requires g.Valid() && |basis| == g.Flength() && i < g.count && g.Offset(i) <= |basis|
    requires n1 == if |basis| - g.Offset(i) < g.blength then |basis| - g.Offset(i) else g.blength
    ensures n1 == g.Len(i)
    ensures i == g.count - 1 ==> g.Offset(i) + n1 == |basis|
  {
    g.BlockInside(i);
    if i + 1 < g.count {
      g.BlockInside(i + 1);
    }
  }

  /** A whole transfer.  `target` is either a new file or, when updating, the
      basis file itself or a copy of it.  If two equal sums mean equal bytes, the
      target ends as the sender's file if and only if the sender's choices, which
      are on record, took no wrong turn; and where none is possible it does, and
      the whole-file sums agree. */
  method TransferFile<S(0), D(==)>(file: bytes, basisFile: DiskFile, target: DiskFile, g: Geometry,
                                   strong: bytes -> bytes, s2length: nat, updating: bool,
                                   core: (S, bytes) -> S, start: S, finish: (S, bytes) -> D)
    returns (sent: bool, recvOk: bool, ghost picks: seq<M.Pick>)
    requires g.Valid() && |basisFile.content| == g.Flength()
    requires updating ==> target.content == basisFile.content
    requires !updating ==> target != basisFile && target.content == []
    modifies target
    ensures M.PicksOk(M.Job(file, g, strong, s2length, updating), old(basisFile.content), picks)
    ensures old(NoCollision(file, basisFile.content, g, strong, s2length)) ==>
              (sent && target.content == file <==> M.NoneMisfired(M.Job(file, g, strong, s2length, updating), picks))
    ensures old(M.Trusted(M.Job(file, g, strong, s2length, updating), basisFile.content)) ==>
              sent && recvOk && target.content == file
    ensures sent && recvOk ==>
              Digest(core, start, finish, target.content) == Digest(core, start, finish, file)
  {
    ghost var basis := basisFile.content;
    var job := M.Job(file, g, strong, s2length, updating);
    var tokens, senderSum;
    sent, tokens, senderSum, picks := SendFile(job, basisFile, core, start);
    if M.Trusted(job, basis) { M.NoneWhereTrusted(job, basis, picks); }
    recvOk := false;
    if sent {
      var expected := senderSum.End(finish);
      recvOk := ReceiveFile(basisFile, target, g, tokens, updating, core, start, finish, expected);
    }
  }

  /** The generator's sums and the sender's stream and whole-file sum. */
  method SendFile<S(0)>(job: M.Job, basisFile: DiskFile, core: (S, bytes) -> S, start: S)
    returns (sent: bool, tokens: seq<Token>, senderSum: FileSum<S>, ghost picks: seq<M.Pick>)
    requires job.g.Valid() && |basisFile.content| == job.g.Flength()
    ensures M.PicksOk(job, basisFile.content, picks)
    ensures senderSum.core == core && senderSum.start == start
    ensures sent ==> WellFormed(job.g, tokens) && senderSum.Valid() && senderSum.fed == job.file
    ensures job.updating ==> InPlaceSafe(job.g, tokens)
    ensures NoCollision(job.file, basisFile.content, job.g, job.strong, job.s2length) ==>
              (sent && Replay(basisFile.content, job.g, tokens) == job.file <==> M.NoneMisfired(job, picks))
  {
    ghost var basis := basisFile.content;
    var wire := GenerateSums(basisFile.content, job.g, job.strong, job.s2length);
    var sums, _ := M.ReceiveSums(job.g, wire);
    senderSum := new FileSum<S>(core, start);
    var search := new M.Search<S>(job, senderSum);
    sent := search.MatchSums(sums, basis);
    tokens, picks := search.tokens, search.picks;
    if sent { WellFormedTokens(job, basis, tokens); }
  }

  /** The receiver's side: the stream replayed on the untouched basis, and
      whether its whole-file sum is the expected one. */
  method ReceiveFile<S(0), D(==)>(basisFile: DiskFile, target: DiskFile, g: Geometry, tokens: seq<Token>, updating: bool,
                                  core: (S, bytes) -> S, start: S, finish: (S, bytes) -> D, expected: D) returns (recvOk: bool)
    requires g.Valid() && |basisFile.content| == g.Flength() && WellFormed(g, tokens)
    requires updating ==> target.content == basisFile.content && InPlaceSafe(g, tokens)
    requires !updating ==> target != basisFile && target.content == []
    modifies target
    ensures target.content == Replay(old(basisFile.content), g, tokens)
    ensures recvOk <==> Digest(core, start, finish, target.content) == expected
  {
    ghost var basis := basisFile.content;
    var receiverSum := new FileSum<S>(core, start);
    var mapbuf: MapStruct? := null;
    if |basisFile.content| > 0 {
      mapbuf := new MapStruct(basisFile, |basisFile.content|, if g.blength * 2 > 0x4000 then g.blength * 2 else 0x4000, g.blength);
      assert mapbuf.p[..mapbuf.pLen] == [];
    } else if g.count > 0 {
      g.BlockInside(0);
    }
    var w := new R.Writer(target);
    recvOk := R.ReceiveData(tokens, g, updating, updating, mapbuf, w, receiverSum, finish, expected, basis);
  }

  lemma WellFormedTokens(job: M.Job, basis: bytes, ts: seq<Token>)
    requires job.g.Valid() && |basis| == job.g.Flength() && M.AllOk(job, basis, ts)
    ensures WellFormed(job.g, ts)
  {
    forall k | 0 <= k < |ts| ensures ts[k].Match? ==> ts[k].block < job.g.count {
      assert M.TokenOk(job, basis, ts[k], Start(job.g, ts, k));
    }
  }
}

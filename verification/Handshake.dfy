/** The end of a run: NDX_DONE goes round from generator to sender to receiver
    and back once per phase, then the goodbye (rsync/generator.c, sender.c,
    receiver.c, main.c). */
module Handshake {
  import opened Wrappers

  /** What the processes agree on: protocol 31 or later (else 29 or 30), the
      options that move work to the end, whether the sender is the server (so
      statistics come back), and how many lists are to be retired. */
  datatype Config = Config(p31: bool, delayUpdates: bool, lateDelete: bool, delStats: bool,
                           senderIsServer: bool, lists: nat)

  /** Work is a file index in a request, a transfer or a status. */
  datatype Token = Done | Work | DelStats | Stats

  /** Where generate_files is; every place but Lists and End waits. */
  datatype GPc = Lists(sent: nat) | Redo | Delay | Late | Final | End

  datatype SPc = SLoop(lists: nat, phase: nat) | SBye | SBye2 | SExit

  datatype RPc = RLoop(lists: nat, phase: nat) | RStats | RBye | RBye2

  datatype State = State(
    g: GPc, cnt: nat,              // msgdone_cnt
    s: SPc, sTaken: nat,           // NDX_DONEs the sender has read
    r: RPc, rTaken: nat,           // NDX_DONEs the receiver has read
    toS: seq<Token>, toR: seq<Token>, toG: seq<Token>,
    failed: bool)

  datatype Step = GWrite | GWork | GRead | SRead | RRead

  function MaxPhase(): nat { 2 }

  function If(b: bool, q: seq<Token>): seq<Token> { if b then q else [] }

  /** What the generator writes after its redo phase. */
  function RedoBlock(c: Config): seq<Token> {
    [Done] + If(!c.delayUpdates, [Done])
    + If(c.p31 && !c.lateDelete, If(c.delStats, [DelStats]) + If(!c.delayUpdates, [Done]))
  }

  function DelayBlock(c: Config): seq<Token> {
    If(c.delayUpdates, [Done] + If(c.p31 && !c.lateDelete, [Done]))
  }

  function LateBlock(c: Config): seq<Token> {
    If(c.p31 && c.lateDelete, If(c.delStats, [DelStats]) + [Done])
  }

  /** Does generate_files sit in wait_for_receiver?  The tests are the source's
      own: the last two only look for one value of the counter. */
  predicate Waiting(c: Config, g: GPc, cnt: nat) {
    match g
    case Redo => cnt == 0
    case Delay => cnt <= 1
    case Late => cnt == 2
    case Final => c.p31 && cnt == 3
    case _ => false
  }

  function Init(c: Config): State {
    State(Lists(0), 0, SLoop(c.lists, 0), 0, RLoop(c.lists, 0), 0, [], [], [], false)
  }

  function Next(c: Config, st: State, step: Step): Option<State> {
    if st.failed then None else
    match step
    case GWrite => Generate(c, st)
    case GWork =>
      if st.g.Lists? || st.g.Redo? then Some(st.(toS := st.toS + [Work])) else None
    case GRead =>
      if st.toG == [] then None
      else Some(st.(toG := st.toG[1..], cnt := st.cnt + One(st.toG[0].Done?)))
    case SRead => if st.toS == [] || st.s.SExit? then None else Some(SenderTakes(c, st, st.toS[0]))
    case RRead => if st.toR == [] then None else Some(ReceiverTakes(c, st, st.toR[0]))
  }

  /** generate_files goes on to its next wait. */
  function Generate(c: Config, st: State): Option<State> {
    if Waiting(c, st.g, st.cnt) then None else
    match st.g
    case Lists(n) =>
      if n < c.lists then Some(st.(g := if n + 1 < c.lists then Lists(n + 1) else Redo, toS := st.toS + [Done])) else None
    case Redo => Some(st.(g := Delay, toS := st.toS + RedoBlock(c)))
    case Delay => Some(st.(g := Late, toS := st.toS + DelayBlock(c)))
    case Late => Some(st.(g := Final, toS := st.toS + LateBlock(c)))
    case Final => Some(st.(g := End, toS := st.toS + [Done]))
    case End => None
  }

  /** What reading one token makes a process do: go to a place, write, or
      give up with a protocol error. */
  datatype Move<P> = Go(at: P, out: seq<Token>) | Fail

  /** read_ndx_and_attrs in send_files and in the sender's read_final_goodbye. */
  function SMove(c: Config, s: SPc, t: Token): Move<SPc> {
    match t
    case Stats => Fail
    case DelStats => Go(s, If(c.senderIsServer, [DelStats]))
    case Work => if s.SLoop? && s.phase < MaxPhase() then Go(s, [Work]) else Fail
    case Done =>
      match s
      case SLoop(lists, phase) =>
        if lists > 1 then Go(SLoop(lists - 1, phase), [Done])
        else if phase + 1 > MaxPhase() then Go(SBye, [Done] + If(c.senderIsServer, [Stats]))
        else Go(SLoop(0, phase + 1), [Done])
      case SBye => if c.p31 then Go(SBye2, [Done]) else Go(SExit, [])
      case SBye2 => Go(SExit, [])
      case SExit => Fail
  }

  function SenderTakes(c: Config, st: State, t: Token): State
    requires st.toS != []
  {
    match SMove(c, st.s, t)
    case Fail => st.(failed := true)
    case Go(s, out) => st.(s := s, sTaken := st.sTaken + One(t.Done?), toS := st.toS[1..], toR := st.toR + out)
  }

  /** read_ndx_and_attrs in recv_files, then handle_stats, then the receiver's
      own read_final_goodbye, which must not return. */
  function RMove(c: Config, r: RPc, t: Token): Move<RPc> {
    match r
    case RStats => if t == Stats then Go(RBye, [Done]) else Fail
    case RLoop(lists, phase) => (
      match t
      case Stats => Fail
      case DelStats => Go(r, [])
      case Work => if phase < MaxPhase() then Go(r, [Work]) else Fail
      case Done =>
        if lists > 1 then Go(RLoop(lists - 1, phase), [])
        else if phase + 1 <= MaxPhase() then Go(RLoop(0, phase + 1), [Done])
        else if c.senderIsServer then Go(RStats, [])
        else Go(RBye, [Done]))
    case RBye =>
      if t == DelStats then Go(r, [])
      else if t == Done && c.p31 then Go(RBye2, [Done])
      else Fail
    case RBye2 => if t == DelStats then Go(r, []) else Fail
  }

  function ReceiverTakes(c: Config, st: State, t: Token): State
    requires st.toR != []
  {
    match RMove(c, st.r, t)
    case Fail => st.(failed := true)
    case Go(r, out) => st.(r := r, rTaken := st.rTaken + One(t.Done?), toR := st.toR[1..], toG := st.toG + out)
  }

  // ----- the lockstep -----

  function One(b: bool): nat { if b then 1 else 0 }

  function Dones(q: seq<Token>): nat {
    if q == [] then 0 else One(q[0].Done?) + Dones(q[1..])
  }

  lemma {:induction false} DonesAppend(a: seq<Token>, b: seq<Token>)
    ensures Dones(a + b) == Dones(a) + Dones(b)
    decreases |a|
  {
    if a == [] {
      assert a + b == b;
    } else {
      DonesAppend(a[1..], b);
      assert (a + b)[0] == a[0] && (a + b)[1..] == a[1..] + b;
    }
  }

  /** How many NDX_DONEs the generator has written when it is at g. */
  function Sent(c: Config, g: GPc): nat {
    match g
    case Lists(n) => n
    case Redo => c.lists
    case Delay => c.lists + Dones(RedoBlock(c))
    case Late => c.lists + Dones(RedoBlock(c)) + Dones(DelayBlock(c))
    case Final => c.lists + 2 + One(c.p31)
    case End => c.lists + 3 + One(c.p31)
  }

  /** Whatever the options, the same number is sent in all, and never too few
      for the answer that is waited for next. */
  lemma BlocksAddUp(c: Config)
    ensures Dones(RedoBlock(c)) + Dones(DelayBlock(c)) + Dones(LateBlock(c)) == 2 + One(c.p31)
    ensures Dones(RedoBlock(c)) >= 1 && Dones(RedoBlock(c)) + Dones(DelayBlock(c)) >= 2
  {
    DonesOf(c);
  }

  /** The sender after reading k NDX_DONEs. */
  function SAt(c: Config, k: nat): SPc {
    if k < c.lists then SLoop(c.lists - k, 0)
    else if k <= c.lists + 1 then SLoop(0, k - c.lists + 1)
    else if k == c.lists + 2 then SBye
    else if k == c.lists + 3 && c.p31 then SBye2
    else SExit
  }

  /** How many it has passed on by then. */
  function Passed(c: Config, k: nat): nat {
    var m := c.lists + 2 + One(c.p31);
    if k <= m then k else m
  }

  /** The receiver after reading k NDX_DONEs, with statistics owed or not. */
  function RAt(c: Config, k: nat, owed: bool): RPc {
    if k < c.lists then RLoop(c.lists - k, 0)
    else if k <= c.lists + 1 then RLoop(0, k - c.lists + 1)
    else if owed then RStats
    else if k == c.lists + 2 then RBye
    else RBye2
  }

  /** How many it has returned to the generator. */
  function Returned(c: Config, k: nat, owed: bool): nat {
    if k < c.lists then 0 else k - c.lists + 1 - One(owed)
  }

  /** A queue towards the sender whose reader has read k NDX_DONEs: work comes
      only before the end of the redo phase. */
  predicate FlowS(c: Config, q: seq<Token>, k: nat) {
    q == [] || (q[0] != Stats && (q[0].Work? ==> k <= c.lists) && FlowS(c, q[1..], k + One(q[0].Done?)))
  }

  /** A queue towards the receiver: moreover the statistics come right after
      the NDX_DONE that ends recv_files, and only then. */
  predicate FlowR(c: Config, q: seq<Token>, k: nat, owed: bool) {
    if q == [] then !owed
    else if owed then q[0] == Stats && FlowR(c, q[1..], k, false)
    else
      && q[0] != Stats && (q[0].Work? ==> k <= c.lists)
      && var k' := k + One(q[0].Done?);
         FlowR(c, q[1..], k', q[0].Done? && Owes(c, k'))
  }

  predicate Owes(c: Config, k: nat) { c.senderIsServer && k == c.lists + 2 }

  lemma {:induction false} FlowSAppend(c: Config, q: seq<Token>, k: nat, t: seq<Token>)
    requires FlowS(c, q, k) && FlowS(c, t, k + Dones(q))
    ensures FlowS(c, q + t, k)
    decreases |q|
  {
    if q == [] {
      assert q + t == t;
    } else {
      FlowSAppend(c, q[1..], k + One(q[0].Done?), t);
      assert (q + t)[0] == q[0] && (q + t)[1..] == q[1..] + t;
    }
  }

  lemma {:induction false} FlowRAppend(c: Config, q: seq<Token>, k: nat, owed: bool, t: seq<Token>)
    requires FlowR(c, q, k, owed) && FlowR(c, t, k + Dones(q), false)
    ensures FlowR(c, q + t, k, owed)
    decreases |q|
  {
    if q == [] {
      assert q + t == t;
    } else {
      var k' := k + One(q[0].Done?);
      FlowRAppend(c, q[1..], k', if owed then false else q[0].Done? && Owes(c, k'), t);
      assert (q + t)[0] == q[0] && (q + t)[1..] == q[1..] + t;
    }
  }

  predicate Answers(q: seq<Token>) { forall t <- q :: t.Done? || t.Work? }

  /** The three processes in lockstep: everything follows from how many
      NDX_DONEs each has read. */
  predicate Counts(c: Config, st: State) {
    && !st.failed && c.lists >= 1
    && (st.g.Lists? ==> st.g.sent < c.lists)
    && st.sTaken + Dones(st.toS) == Sent(c, st.g)
    && st.rTaken + Dones(st.toR) == Passed(c, st.sTaken)
    && st.cnt + Dones(st.toG) == Returned(c, st.rTaken, st.r.RStats?)
    && Awaits(c, st.g, st.cnt)
  }

  /** What earlier waits have left behind; the counter may be further on, since
      an answer can be read while the generator is writing. */
  predicate Awaits(c: Config, g: GPc, cnt: nat) {
    match g
    case Lists(_) => true
    case Redo => true
    case Delay => cnt >= 1
    case Late => cnt >= 2
    case Final => cnt >= 3
    case End => cnt >= 3 + One(c.p31)
  }

  predicate Places(c: Config, st: State) {
    && st.s == SAt(c, st.sTaken)
    && st.r == RAt(c, st.rTaken, st.r.RStats?)
    && (st.r.RStats? ==> Owes(c, st.rTaken))
    && FlowS(c, st.toS, st.sTaken) && FlowR(c, st.toR, st.rTaken, st.r.RStats?) && Answers(st.toG)
  }

  predicate Inv(c: Config, st: State) { Counts(c, st) && Places(c, st) }

  lemma InitInv(c: Config)
    requires c.lists >= 1
    ensures Inv(c, Init(c))
  {
  }

  lemma BlockFlows(c: Config, k: nat)
    ensures FlowS(c, [Done], k) && FlowS(c, RedoBlock(c), k) && FlowS(c, DelayBlock(c), k) && FlowS(c, LateBlock(c), k)
    ensures k <= c.lists ==> FlowS(c, [Work], k)
  {
    NoWork(c, [Done], k);
    NoWork(c, RedoBlock(c), k);
    NoWork(c, DelayBlock(c), k);
    NoWork(c, LateBlock(c), k);
    assert FlowS(c, [Work][1..], k);
  }

  lemma {:induction false} NoWork(c: Config, q: seq<Token>, k: nat)
    requires forall t <- q :: t != Stats && t != Work
    ensures FlowS(c, q, k)
    decreases |q|
  {
    if q != [] {
      assert q[0] in q && forall t <- q[1..] :: t in q;
      NoWork(c, q[1..], k + One(q[0].Done?));
    }
  }

  /** The generator's writes. */
  lemma WriteInv(c: Config, st: State, g: GPc, block: seq<Token>)
    requires Inv(c, st) && FlowS(c, block, Sent(c, st.g))
    requires Sent(c, g) == Sent(c, st.g) + Dones(block) && (g.Lists? ==> g.sent < c.lists) && Awaits(c, g, st.cnt)
    ensures Inv(c, st.(g := g, toS := st.toS + block))
  {
    DonesAppend(st.toS, block);
    FlowSAppend(c, st.toS, st.sTaken, block);
  }

  lemma ReturnedBounds(c: Config, st: State)
    requires Counts(c, st)
    ensures st.cnt <= Returned(c, Sent(c, st.g), false)
    ensures Returned(c, st.rTaken, st.r.RStats?) <= 3 + One(c.p31)
  {
  }

  lemma GWriteInv(c: Config, st: State)
    requires Inv(c, st) && Generate(c, st).Some?
    ensures Inv(c, Generate(c, st).value)
  {
    BlocksAddUp(c);
    BlockFlows(c, Sent(c, st.g));
    ReturnedBounds(c, st);
    assert Dones([Done]) == 1;
    match st.g
    case Lists(n) => WriteInv(c, st, if n + 1 < c.lists then Lists(n + 1) else Redo, [Done]);
    case Redo => WriteInv(c, st, Delay, RedoBlock(c));
    case Delay => WriteInv(c, st, Late, DelayBlock(c));
    case Late => WriteInv(c, st, Final, LateBlock(c));
    case Final => WriteInv(c, st, End, [Done]);
  }

  lemma GWorkInv(c: Config, st: State)
    requires Inv(c, st) && Next(c, st, GWork).Some?
    ensures Inv(c, Next(c, st, GWork).value)
  {
    BlockFlows(c, Sent(c, st.g));
    assert Dones([Work]) == 0;
    WriteInv(c, st, st.g, [Work]);
  }

  lemma GReadInv(c: Config, st: State)
    requires Inv(c, st) && Next(c, st, GRead).Some?
    ensures Inv(c, Next(c, st, GRead).value)
  {
    assert st.toG[0] in st.toG;
  }

  /** Reading a token the queue promises, the sender goes where its count of
      NDX_DONEs says, and writes what the receiver's queue promises. */
  lemma SMoveOk(c: Config, k: nat, t: Token)
    requires c.lists >= 1 && t != Stats && (t == Work ==> k <= c.lists)
    requires SAt(c, k) != SExit
    ensures var m := SMove(c, SAt(c, k), t); var k' := k + One(t.Done?);
      m.Go? && m.at == SAt(c, k') && FlowR(c, m.out, Passed(c, k), false) && Dones(m.out) == Passed(c, k') - Passed(c, k)
  {
    var m := SMove(c, SAt(c, k), t);
    if |m.out| == 2 {
      assert m.out == [Done, Stats];
      assert m.out[1..] == [Stats] && [Stats][1..] == [];
    } else {
      assert |m.out| <= 1;
      assert |m.out| == 1 ==> m.out[1..] == [];
    }
  }

  lemma SReadInv(c: Config, st: State)
    requires Inv(c, st) && Next(c, st, SRead).Some?
    ensures Inv(c, Next(c, st, SRead).value)
  {
    SMoveOk(c, st.sTaken, st.toS[0]);
    var out := SMove(c, st.s, st.toS[0]).out;
    DonesAppend(st.toR, out);
    FlowRAppend(c, st.toR, st.rTaken, st.r.RStats?, out);
  }

  /** The same for the receiver and what it returns to the generator. */
  lemma RMoveOk(c: Config, k: nat, owed: bool, t: Token)
    requires c.lists >= 1 && (if owed then t == Stats && Owes(c, k) else t != Stats && (t == Work ==> k <= c.lists))
    requires k + One(t.Done?) <= c.lists + 2 + One(c.p31)
    ensures var m := RMove(c, RAt(c, k, owed), t);
      var k' := k + One(t.Done?);
      var owed' := t.Done? && Owes(c, k');
      && m.Go? && m.at == RAt(c, k', owed') && m.at.RStats? == owed'
      && Dones(m.out) == Returned(c, k', owed') - Returned(c, k, owed) && Answers(m.out)
  {
    assert Dones([Done]) == 1 && Dones([Work]) == 0;
  }

  lemma RReadPlaces(c: Config, st: State)
    requires Inv(c, st) && st.toR != []
    ensures Places(c, ReceiverTakes(c, st, st.toR[0]))
  {
    RMoveOk(c, st.rTaken, st.r.RStats?, st.toR[0]);
  }

  lemma RReadInv(c: Config, st: State)
    requires Inv(c, st) && Next(c, st, RRead).Some?
    ensures Inv(c, Next(c, st, RRead).value)
  {
    RReadPlaces(c, st);
    RReadCounts(c, st);
  }

  lemma RReadCounts(c: Config, st: State)
    requires Inv(c, st) && st.toR != []
    ensures Counts(c, ReceiverTakes(c, st, st.toR[0]))
  {
    RMoveOk(c, st.rTaken, st.r.RStats?, st.toR[0]);
    DonesAppend(st.toG, RMove(c, st.r, st.toR[0]).out);
  }

  /** Every step of every process keeps the lockstep. */
  lemma NextInv(c: Config, st: State, step: Step)
    requires Inv(c, st) && Next(c, st, step).Some?
    ensures Inv(c, Next(c, st, step).value)
  {
    match step
    case GWrite => GWriteInv(c, st);
    case GWork => GWorkInv(c, st);
    case GRead => GReadInv(c, st);
    case SRead => SReadInv(c, st);
    case RRead => RReadInv(c, st);
  }

  // ----- whole runs -----

  predicate Run(c: Config, states: seq<State>, steps: seq<Step>) {
    && c.lists >= 1 && |states| == |steps| + 1 && states[0] == Init(c)
    && forall i :: 0 <= i < |steps| ==> Next(c, states[i], steps[i]) == Some(states[i + 1])
  }

  lemma {:induction false} RunInv(c: Config, states: seq<State>, steps: seq<Step>, i: nat)
    requires Run(c, states, steps) && i < |states|
    ensures Inv(c, states[i])
  {
    if i == 0 {
      InitInv(c);
    } else {
      RunInv(c, states, steps, i - 1);
      assert Next(c, states[i - 1], steps[i - 1]) == Some(states[i - 1 + 1]);
      NextInv(c, states[i - 1], steps[i - 1]);
    }
  }

  /** Where send_files and recv_files are is a function of the NDX_DONEs each
      has read, and the sender's phase is never behind the receiver's. */
  lemma Lockstep(c: Config, states: seq<State>, steps: seq<Step>, i: nat)
    requires Run(c, states, steps) && i < |states|
    ensures var st := states[i];
      && !st.failed
      && st.rTaken <= st.sTaken <= Sent(c, st.g)
      && st.s == SAt(c, st.sTaken)
      && (st.r == RAt(c, st.rTaken, false) || (st.r == RStats && c.senderIsServer && st.rTaken == c.lists + 2))
      && (st.s.SLoop? && st.r.RLoop? ==> st.r.phase <= st.s.phase)
      && (st.s.SLoop? ==> st.r.RLoop?)
  {
    RunInv(c, states, steps, i);
  }

  /** Although an answer may be counted before it is waited for, testing the
      counter for one value is as good as testing that it is too low, and it
      never passes the number of answers there are. */
  lemma WaitsExact(c: Config, states: seq<State>, steps: seq<Step>, i: nat)
    requires Run(c, states, steps) && i < |states|
    ensures var st := states[i];
      && (st.g == Redo ==> (Waiting(c, st.g, st.cnt) <==> st.cnt < 1))
      && (st.g == Delay ==> (Waiting(c, st.g, st.cnt) <==> st.cnt < 2))
      && (st.g == Late ==> (Waiting(c, st.g, st.cnt) <==> st.cnt < 3))
      && (st.g == Final && c.p31 ==> (Waiting(c, st.g, st.cnt) <==> st.cnt < 4))
      && st.cnt <= 3 + One(c.p31)
  {
    RunInv(c, states, steps, i);
  }

  /** The NDX_DONE that ends a phase put off to the end is written only once the
      phases before it were answered: that of delayed updates after two answers,
      and that of late deletions, with their statistics, after three. */
  lemma DelayedLast(c: Config, states: seq<State>, steps: seq<Step>, i: nat)
    requires Run(c, states, steps) && i < |states|
    ensures var st := states[i]; var written := st.sTaken + Dones(st.toS);
      && (written >= c.lists + 1 ==> st.cnt >= 1)
      && (c.delayUpdates && written >= c.lists + 2 ==> st.cnt >= 2)
      && (c.p31 && c.lateDelete && (written >= c.lists + 3 || DelStats in st.toS) ==> st.cnt >= 3)
  {
    RunInv(c, states, steps, i);
    var st := states[i];
    DonesOf(c);
    BlocksOf(c, DelStats);
    RunMoves(c, states, steps, i);
    if DelStats in st.toS { OfIn(st.toS, DelStats); }
  }

  lemma {:induction false} OfIn(q: seq<Token>, t: Token)
    requires t in q
    ensures Of(q, t) > 0
  {
    if q[0] != t { OfIn(q[1..], t); }
  }

  /** How many NDX_DONEs each block has. */
  lemma DonesOf(c: Config)
    ensures Dones(RedoBlock(c)) == if c.delayUpdates then 1 else 2 + One(c.p31 && !c.lateDelete)
    ensures Dones(DelayBlock(c)) == if c.delayUpdates then 1 + One(c.p31 && !c.lateDelete) else 0
    ensures Dones(LateBlock(c)) == One(c.p31 && c.lateDelete)
  {
    assert Dones([Done]) == 1 && Dones([DelStats]) == 0 && Dones([]) == 0;
    DonesAppend([Done] + If(!c.delayUpdates, [Done]),
                If(c.p31 && !c.lateDelete, If(c.delStats, [DelStats]) + If(!c.delayUpdates, [Done])));
    DonesAppend([Done], If(!c.delayUpdates, [Done]));
    DonesAppend(If(c.delStats, [DelStats]), If(!c.delayUpdates, [Done]));
    DonesAppend([Done], If(c.p31 && !c.lateDelete, [Done]));
    DonesAppend(If(c.delStats, [DelStats]), [Done]);
  }

  /** The counter does run ahead: with nothing delayed, all answers can be in
      while the generator still stands at its second wait. */
  lemma CounterRunsAhead() returns (c: Config, states: seq<State>, steps: seq<Step>)
    ensures Run(c, states, steps) && var last := states[|steps|]; last.g == Delay && last.cnt == 3
  {
    c := Config(false, false, false, false, false, 1);
    var s1, s2, s3, s4 := AheadStart(c);
    var s5, s6, s7 := AheadSent(c, s4);
    var s8, s9 := AheadAnswered(c, s7);
    assert s9.toG[1..] == [Done];
    var s10 := Next(c, s9, GRead).value;
    var s11 := Next(c, s10, GRead).value;
    states, steps := [Init(c)], [];
    states, steps := GoOn(c, states, steps, [GWrite, SRead, RRead, GRead], [s1, s2, s3, s4]);
    states, steps := GoOn(c, states, steps, [GWrite, SRead, SRead], [s5, s6, s7]);
    states, steps := GoOn(c, states, steps, [RRead, RRead, GRead, GRead], [s8, s9, s10, s11]);
  }

  /** A run and some steps more. */
  lemma GoOn(c: Config, states: seq<State>, steps: seq<Step>, more: seq<Step>, after: seq<State>)
    returns (states': seq<State>, steps': seq<Step>)
    requires Run(c, states, steps) && |more| == |after| > 0
    requires Next(c, states[|steps|], more[0]) == Some(after[0])
    requires forall k :: 0 < k < |more| ==> Next(c, after[k - 1], more[k]) == Some(after[k])
    ensures Run(c, states', steps') && states'[|steps'|] == after[|after| - 1]
  {
    states', steps' := states + after, steps + more;
    forall i | 0 <= i < |steps'| ensures Next(c, states'[i], steps'[i]) == Some(states'[i + 1]) {
      if i < |steps| {
        assert states'[i] == states[i] && steps'[i] == steps[i] && states'[i + 1] == states[i + 1];
      } else {
        assert steps'[i] == more[i - |steps|] && states'[i + 1] == after[i - |steps|];
      }
    }
  }

  /** The first NDX_DONE goes round. */
  lemma AheadStart(c: Config) returns (s1: State, s2: State, s3: State, s4: State)
    requires c == Config(false, false, false, false, false, 1)
    ensures Next(c, Init(c), GWrite) == Some(s1) && Next(c, s1, SRead) == Some(s2)
    ensures Next(c, s2, RRead) == Some(s3) && Next(c, s3, GRead) == Some(s4)
    ensures s4 == State(Redo, 1, SLoop(0, 1), 1, RLoop(0, 1), 1, [], [], [], false)
  {
    s1 := Next(c, Init(c), GWrite).value;
    s2 := Next(c, s1, SRead).value;
    s3 := Next(c, s2, RRead).value;
    s4 := Next(c, s3, GRead).value;
  }

  /** The next two are sent together, */
  lemma AheadSent(c: Config, s4: State) returns (s5: State, s6: State, s7: State)
    requires c == Config(false, false, false, false, false, 1)
    requires s4 == State(Redo, 1, SLoop(0, 1), 1, RLoop(0, 1), 1, [], [], [], false)
    ensures Next(c, s4, GWrite) == Some(s5) && Next(c, s5, SRead) == Some(s6) && Next(c, s6, SRead) == Some(s7)
    ensures s7.g == Delay && s7.cnt == 1 && s7.r == RLoop(0, 1) && s7.toR == [Done, Done] && s7.toG == [] && !s7.failed
  {
    assert RedoBlock(c) == [Done, Done];
    s5 := Next(c, s4, GWrite).value;
    assert s5.toS == [Done, Done] && s5.toS[1..] == [Done];
    s6 := Next(c, s5, SRead).value;
    s7 := Next(c, s6, SRead).value;
  }

  /** and answered together. */
  lemma AheadAnswered(c: Config, s7: State) returns (s8: State, s9: State)
    requires c == Config(false, false, false, false, false, 1)
    requires s7.g == Delay && s7.cnt == 1 && s7.r == RLoop(0, 1) && s7.toR == [Done, Done] && s7.toG == [] && !s7.failed
    ensures Next(c, s7, RRead) == Some(s8) && Next(c, s8, RRead) == Some(s9)
    ensures s9.g == Delay && s9.cnt == 1 && s9.toG == [Done, Done] && !s9.failed
  {
    assert s7.toR[1..] == [Done];
    s8 := Next(c, s7, RRead).value;
    assert s8.r == RLoop(0, 2) && s8.toR == [Done];
    s9 := Next(c, s8, RRead).value;
  }

  // ----- nothing is lost -----

  /** How many tokens of a queue are t. */
  function Of(q: seq<Token>, t: Token): nat {
    if q == [] then 0 else One(q[0] == t) + Of(q[1..], t)
  }

  lemma {:induction false} OfAppend(a: seq<Token>, b: seq<Token>, t: Token)
    ensures Of(a + b, t) == Of(a, t) + Of(b, t)
    decreases |a|
  {
    if a == [] {
      assert a + b == b;
    } else {
      OfAppend(a[1..], b, t);
      assert (a + b)[0] == a[0] && (a + b)[1..] == a[1..] + b;
    }
  }

  /** The step is of this kind and takes a token t off its queue. */
  predicate Takes(st: State, step: Step, kind: Step, t: Token) {
    step == kind && match kind
                    case SRead => st.toS != [] && st.toS[0] == t
                    case RRead => st.toR != [] && st.toR[0] == t
                    case GRead => st.toG != [] && st.toG[0] == t
                    case _ => false
  }

  /** How often that was done in the first n steps of a run. */
  function Taken(states: seq<State>, steps: seq<Step>, n: nat, kind: Step, t: Token): nat
    requires n <= |steps| < |states|
  {
    if n == 0 then 0 else Taken(states, steps, n - 1, kind, t) + One(Takes(states[n - 1], steps[n - 1], kind, t))
  }

  /** How often the generator asked for something. */
  function Asked(states: seq<State>, steps: seq<Step>, n: nat): nat
    requires n <= |steps| < |states|
  {
    if n == 0 then 0 else Asked(states, steps, n - 1) + One(steps[n - 1] == GWork)
  }

  /** How many deletion statistics the generator has sent when it is at g. */
  function DelsSent(c: Config, g: GPc): nat {
    match g
    case Lists(_) => 0
    case Redo => 0
    case Delay => Of(RedoBlock(c), DelStats)
    case Late => Of(RedoBlock(c), DelStats) + Of(DelayBlock(c), DelStats)
    case _ => Of(RedoBlock(c), DelStats) + Of(DelayBlock(c), DelStats) + Of(LateBlock(c), DelStats)
  }

  /** They are sent once, before or after the late deletions. */
  lemma DelsOnce(c: Config)
    ensures DelsSent(c, Final) == One(c.p31 && c.delStats)
    ensures DelsSent(c, Delay) == One(c.p31 && c.delStats && !c.lateDelete)
  {
    BlocksOf(c, DelStats);
  }

  /** What the blocks hold besides NDX_DONE. */
  lemma BlocksOf(c: Config, t: Token)
    requires t == DelStats || t == Work
    ensures Of(RedoBlock(c), t) == One(t == DelStats && c.p31 && c.delStats && !c.lateDelete)
    ensures Of(DelayBlock(c), t) == 0
    ensures Of(LateBlock(c), t) == One(t == DelStats && c.p31 && c.delStats && c.lateDelete)
  {
    var early := If(c.p31 && !c.lateDelete, If(c.delStats, [DelStats]) + If(!c.delayUpdates, [Done]));
    assert Of([Done], t) == 0 && Of([DelStats], t) == One(t == DelStats) && Of([], t) == 0;
    OfAppend([Done] + If(!c.delayUpdates, [Done]), early, t);
    OfAppend([Done], If(!c.delayUpdates, [Done]), t);
    OfAppend(If(c.delStats, [DelStats]), If(!c.delayUpdates, [Done]), t);
    OfAppend([Done], If(c.p31 && !c.lateDelete, [Done]), t);
    OfAppend(If(c.delStats, [DelStats]), [Done], t);
  }

  /** What a step moves from queue to queue. */
  predicate Moves(c: Config, st: State, step: Step, st': State) {
    && Of(st'.toS, Work) == Of(st.toS, Work) + One(step == GWork) - One(Takes(st, step, SRead, Work))
    && Of(st'.toR, Work) == Of(st.toR, Work) + One(Takes(st, step, SRead, Work)) - One(Takes(st, step, RRead, Work))
    && Of(st'.toG, Work) == Of(st.toG, Work) + One(Takes(st, step, RRead, Work)) - One(Takes(st, step, GRead, Work))
    && Of(st'.toS, DelStats) == Of(st.toS, DelStats) + DelsSent(c, st'.g) - DelsSent(c, st.g) - One(Takes(st, step, SRead, DelStats))
    && Of(st'.toR, DelStats)
       == Of(st.toR, DelStats) + One(c.senderIsServer && Takes(st, step, SRead, DelStats)) - One(Takes(st, step, RRead, DelStats))
  }

  lemma BlockMoves(c: Config, st: State, g: GPc, block: seq<Token>)
    requires Of(block, Work) == 0 && DelsSent(c, g) == DelsSent(c, st.g) + Of(block, DelStats)
    ensures Moves(c, st, GWrite, st.(g := g, toS := st.toS + block)) == true
  {
    OfAppend(st.toS, block, Work);
    OfAppend(st.toS, block, DelStats);
  }

  lemma GWriteMoves(c: Config, st: State)
    requires Generate(c, st).Some?
    ensures Moves(c, st, GWrite, Generate(c, st).value) == true
  {
    BlocksOf(c, Work);
    BlocksOf(c, DelStats);
    assert Of([Done], Work) == 0 && Of([Done], DelStats) == 0;
    var g := Generate(c, st).value.g;
    match st.g
    case Redo => BlockMoves(c, st, g, RedoBlock(c));
    case Delay => BlockMoves(c, st, g, DelayBlock(c));
    case Late => BlockMoves(c, st, g, LateBlock(c));
    case _ => BlockMoves(c, st, g, [Done]);
  }

  lemma GWorkMoves(c: Config, st: State, st': State)
    requires st' == st.(toS := st.toS + [Work])
    ensures Moves(c, st, GWork, st') == true
  {
    OfAppend(st.toS, [Work], Work);
    OfAppend(st.toS, [Work], DelStats);
    assert Of([Work], Work) == 1 && Of([Work], DelStats) == 0;
  }

  lemma OneOf(a: Token, t: Token)
    ensures Of([a], t) == One(a == t) && Of([], t) == 0
  {
  }

  /** What the sender passes on. */
  lemma SendsOn(c: Config, s: SPc, t: Token)
    requires SMove(c, s, t).Go?
    ensures var out := SMove(c, s, t).out;
      Of(out, Work) == One(t == Work) && Of(out, DelStats) == One(c.senderIsServer && t == DelStats)
  {
    OfAppend([Done], If(c.senderIsServer, [Stats]), Work);
    OfAppend([Done], If(c.senderIsServer, [Stats]), DelStats);
    OneOf(Done, Work);
    OneOf(Done, DelStats);
    OneOf(Stats, Work);
    OneOf(Stats, DelStats);
    OneOf(t, Work);
    OneOf(t, DelStats);
  }

  lemma SReadMoves(c: Config, st: State)
    requires st.toS != [] && SMove(c, st.s, st.toS[0]).Go?
    ensures Moves(c, st, SRead, SenderTakes(c, st, st.toS[0])) == true
  {
    var out := SMove(c, st.s, st.toS[0]).out;
    SendsOn(c, st.s, st.toS[0]);
    OfAppend(st.toR, out, Work);
    OfAppend(st.toR, out, DelStats);
  }

  lemma RReadMoves(c: Config, st: State)
    requires st.toR != [] && RMove(c, st.r, st.toR[0]).Go?
    ensures Moves(c, st, RRead, ReceiverTakes(c, st, st.toR[0])) == true
  {
    var out := RMove(c, st.r, st.toR[0]).out;
    OneOf(Done, Work);
    OneOf(Work, Work);
    assert Of(out, Work) == One(st.toR[0] == Work);
    OfAppend(st.toG, out, Work);
  }

  lemma StepMoves(c: Config, st: State, step: Step, st': State)
    requires Inv(c, st) && Next(c, st, step) == Some(st')
    ensures Moves(c, st, step, st') == true
  {
    NextInv(c, st, step);
    match step
    case GWrite => GWriteMoves(c, st);
    case GWork => GWorkMoves(c, st, st');
    case GRead =>
    case SRead => SReadMoves(c, st);
    case RRead => RReadMoves(c, st);
  }

  /** In every state of every run: what was asked for is on its way to the sender,
      the receiver or back, or has come back; the deletion statistics are on
      their way to the sender or it has read them, and only a sender that is the
      server passes them on. */
  lemma {:induction false} RunMoves(c: Config, states: seq<State>, steps: seq<Step>, n: nat)
    requires Run(c, states, steps) && n < |states|
    ensures var st := states[n];
      && Asked(states, steps, n) == Of(st.toS, Work) + Taken(states, steps, n, SRead, Work)
      && Taken(states, steps, n, SRead, Work) == Of(st.toR, Work) + Taken(states, steps, n, RRead, Work)
      && Taken(states, steps, n, RRead, Work) == Of(st.toG, Work) + Taken(states, steps, n, GRead, Work)
      && DelsSent(c, st.g) == Of(st.toS, DelStats) + Taken(states, steps, n, SRead, DelStats)
      && (if c.senderIsServer then Taken(states, steps, n, SRead, DelStats) else 0)
         == Of(st.toR, DelStats) + Taken(states, steps, n, RRead, DelStats)
    decreases n
  {
    if n > 0 {
      RunMoves(c, states, steps, n - 1);
      RunInv(c, states, steps, n - 1);
      assert Next(c, states[n - 1], steps[n - 1]) == Some(states[n - 1 + 1]);
      StepMoves(c, states[n - 1], steps[n - 1], states[n]);
    }
  }

  /** No work is under way once the generator has left its redo phase and the
      matching NDX_DONE has been read. */
  lemma NoWorkAfterRedo(c: Config, states: seq<State>, steps: seq<Step>, i: nat)
    requires Run(c, states, steps) && i < |states|
    ensures states[i].sTaken > c.lists ==> Work !in states[i].toS
    ensures states[i].rTaken > c.lists ==> Work !in states[i].toR
  {
    var st := states[i];
    RunInv(c, states, steps, i);
    if st.sTaken > c.lists { FlowSQuiet(c, st.toS, st.sTaken); }
    if st.rTaken > c.lists { FlowRQuiet(c, st.toR, st.rTaken, st.r.RStats?); }
  }

  lemma {:induction false} FlowSQuiet(c: Config, q: seq<Token>, k: nat)
    requires FlowS(c, q, k) && k > c.lists
    ensures Work !in q
    decreases |q|
  {
    if q != [] {
      FlowSQuiet(c, q[1..], k + One(q[0].Done?));
      assert q == [q[0]] + q[1..];
    }
  }

  lemma {:induction false} FlowRQuiet(c: Config, q: seq<Token>, k: nat, owed: bool)
    requires FlowR(c, q, k, owed) && k > c.lists
    ensures Work !in q
    decreases |q|
  {
    if q != [] {
      var k' := k + One(q[0].Done?);
      FlowRQuiet(c, q[1..], k', if owed then false else q[0].Done? && Owes(c, k'));
      assert q == [q[0]] + q[1..];
    }
  }

  /** The goodbye was written and read. */
  predicate Finished(st: State) { st.g == End && st.s == SExit }

  /** No reachable state before the goodbye has all processes blocked. */
  lemma NotStuck(c: Config, states: seq<State>, steps: seq<Step>, i: nat) returns (step: Step)
    requires Run(c, states, steps) && i < |states| && !Finished(states[i])
    ensures step != GWork && Next(c, states[i], step).Some?
  {
    RunInv(c, states, steps, i);
    step := Enabled(c, states[i]);
  }

  lemma Enabled(c: Config, st: State) returns (step: Step)
    requires Inv(c, st) && !Finished(st)
    ensures step != GWork && Next(c, st, step).Some?
  {
    BlocksAddUp(c);
    if st.toS != [] && !st.s.SExit? {
      step := SRead;
    } else if st.toR != [] {
      step := RRead;
    } else if Waiting(c, st.g, st.cnt) {
      step := GRead;
    } else {
      step := GWrite;
    }
  }

  /** At the end every NDX_DONE has been read by the process it was for: the
      sender read one more than the receiver, which answered three or four. */
  lemma EndsClean(c: Config, states: seq<State>, steps: seq<Step>, i: nat)
    requires Run(c, states, steps) && i < |states| && Finished(states[i])
    ensures var st := states[i];
      && Dones(st.toS) == 0 && st.sTaken == c.lists + 3 + One(c.p31)
      && st.rTaken + Dones(st.toR) == st.sTaken - 1
      && st.cnt == 3 + One(c.p31) && Dones(st.toG) == 0 && Dones(st.toR) == 0
      && st.r == (if c.p31 then RBye2 else RBye)
  {
    RunInv(c, states, steps, i);
  }

  /** What is left to do, when no more work is asked for. */
  function Rank(c: Config, st: State): nat {
    GRank(c, st.g) + 6 * |st.toS| + 2 * |st.toR| + |st.toG|
  }

  function GRank(c: Config, g: GPc): nat {
    match g
    case Lists(n) => 100 + (if n <= c.lists then 25 * (c.lists - n) else 0)
    case Redo => 100
    case Delay => 75
    case Late => 50
    case Final => 25
    case End => 0
  }

  lemma Shrinks(c: Config, st: State, step: Step)
    requires Inv(c, st) && step != GWork && Next(c, st, step).Some?
    ensures Rank(c, Next(c, st, step).value) < Rank(c, st)
  {
    match step
    case GWrite => WriteShrinks(c, st);
    case GRead =>
    case SRead => SMoveOk(c, st.sTaken, st.toS[0]);
    case RRead => RMoveOk(c, st.rTaken, st.r.RStats?, st.toR[0]);
  }

  /** A block has four tokens at most, and its place is given up for it. */
  lemma WriteShrinks(c: Config, st: State)
    requires Generate(c, st).Some?
    ensures Rank(c, Generate(c, st).value) < Rank(c, st)
  {
  }

  /** From any reachable state, however the processes are scheduled, at most
      Rank steps without new work are possible; since NotStuck offers one until
      the goodbye, every such run reaches it. */
  lemma {:induction false} RunEnds(c: Config, states: seq<State>, steps: seq<Step>, from: nat)
    requires Run(c, states, steps) && from < |states|
    requires forall k :: from <= k < |steps| ==> steps[k] != GWork
    ensures |steps| - from <= Rank(c, states[from])
    decreases |steps| - from
  {
    if from < |steps| {
      RunInv(c, states, steps, from);
      assert Next(c, states[from], steps[from]) == Some(states[from + 1]);
      Shrinks(c, states[from], steps[from]);
      RunEnds(c, states, steps, from + 1);
    }
  }
}

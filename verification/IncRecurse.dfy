/** Incremental recursion: generator, sender and receiver exchange indexes of
    file lists that come and go (rsync/generator.c, sender.c, receiver.c,
    rsync.c, io.c, flist.c). */
module IncRecurse {
  import opened Wrappers

  /** One file list: its entries have indexes start .. start+used-1, and
      start-1 stands for the directory the list describes. */
  datatype Flist = Flist(start: nat, used: nat) {
    predicate Has(ndx: int) { start - 1 <= ndx < start + used }
  }

  /** flist_new numbers each list on from the last one. */
  predicate Consecutive(lists: seq<Flist>) {
    && |lists| > 0 && lists[0].start == 1
    && forall k :: 0 <= k < |lists| - 1 ==> lists[k + 1].start == lists[k].start + lists[k].used + 1
  }

  /** One past the last index of the first n lists. */
  function End(lists: seq<Flist>, n: nat): nat
    requires n <= |lists|
  {
    if n == 0 then 0 else lists[n - 1].start + lists[n - 1].used
  }

  /** The index range flist_for_ndx accepts when lists first .. count-1 exist. */
  predicate InWindow(lists: seq<Flist>, first: nat, count: nat, ndx: int) {
    first < count <= |lists| && lists[first].start - 1 <= ndx < End(lists, count)
  }

  lemma {:induction false} StartsRise(lists: seq<Flist>, a: nat, b: nat)
    requires Consecutive(lists) && a <= b < |lists|
    ensures lists[a].start + (if a < b then lists[a].used + 1 else 0) <= lists[b].start
    decreases b
  {
    if a < b { StartsRise(lists, a, b - 1); }
  }

  lemma EndIsNextStart(lists: seq<Flist>, n: nat)
    requires Consecutive(lists) && n < |lists|
    ensures lists[n].start - 1 == End(lists, n)
  {
    if n > 0 { StartsRise(lists, n - 1, n); }
  }

  lemma EndRises(lists: seq<Flist>, a: nat, b: nat)
    requires Consecutive(lists) && a <= b <= |lists|
    ensures End(lists, a) <= End(lists, b)
  {
    if a < b {
      EndIsNextStart(lists, a);
      StartsRise(lists, a, b - 1);
    }
  }

  /** The list an index of the first n + 1 lists belongs to. */
  function HomeFrom(lists: seq<Flist>, ndx: int, n: nat): (k: nat)
    requires Consecutive(lists) && n < |lists| && 0 <= ndx < End(lists, n + 1)
    ensures k <= n && lists[k].Has(ndx)
  {
    if ndx >= lists[n].start - 1 then n
    else EndIsNextStart(lists, n); HomeFrom(lists, ndx, n - 1)
  }

  lemma HomeUnique(lists: seq<Flist>, ndx: int, a: nat, b: nat)
    requires Consecutive(lists) && a < |lists| && b < |lists| && lists[a].Has(ndx) && lists[b].Has(ndx)
    ensures a == b
  {
    if a < b { StartsRise(lists, a, b); } else if b < a { StartsRise(lists, b, a); }
  }

  /** Outside the window no list held has the index. */
  lemma NoneHeld(lists: seq<Flist>, first: nat, count: nat, ndx: int)
    requires Consecutive(lists) && count <= |lists| && !InWindow(lists, first, count, ndx)
    ensures forall j :: first <= j < count ==> !lists[j].Has(ndx)
  {
    forall j | first <= j < count ensures !lists[j].Has(ndx) {
      StartsRise(lists, first, j);
      EndRises(lists, j + 1, count);
    }
  }

  /** flist_for_ndx, walking from the current list: back while the index is
      before a list, forward while it is past it.  The fatal path is taken
      exactly when no list held has the index. */
  method FlistForNdx(lists: seq<Flist>, first: nat, count: nat, cur: nat, ndx: int) returns (found: bool, k: nat)
    requires Consecutive(lists) && first <= count <= |lists| && (first < count ==> first <= cur < count)
    ensures found <==> InWindow(lists, first, count, ndx)
    ensures !found ==> forall j :: first <= j < count ==> !lists[j].Has(ndx)
    ensures found ==> first <= k < count && lists[k].Has(ndx)
  {
    if first == count {
      return false, 0;
    }
    k := cur;
    while ndx < lists[k].start - 1
      invariant first <= k <= cur
    {
      if k == first {
        NoneHeld(lists, first, count, ndx);
        return false, k;
      }
      EndIsNextStart(lists, k);
      k := k - 1;
    }
    StartsRise(lists, first, k);
    while ndx >= lists[k].start + lists[k].used
      invariant first <= k < count && lists[k].start - 1 <= ndx
      decreases count - k
    {
      if k + 1 == count {
        NoneHeld(lists, first, count, ndx);
        return false, k;
      }
      EndIsNextStart(lists, k + 1);
      k := k + 1;
    }
    StartsRise(lists, first, k);
    EndRises(lists, k + 1, count);
    found := true;
  }

  // ----- messages -----

  datatype Outcome = Success | NoSend | Redo

  /** Job asks for or carries a file; Item only mentions one; Done retires the
      oldest list; NewList and Eof describe the lists themselves. */
  datatype Msg = Job(ndx: int) | Item(ndx: int) | Done | NewList | Eof | Status(ndx: int, outcome: Outcome)

  predicate Names(m: Msg, l: Flist) { (m.Job? || m.Status?) && l.Has(m.ndx) }

  function One(b: bool): nat { if b then 1 else 0 }

  /** How many messages of a queue are outstanding work on list l. */
  function Count(q: seq<Msg>, l: Flist): nat {
    if q == [] then 0 else One(Names(q[0], l)) + Count(q[1..], l)
  }

  function CountNdx(q: seq<int>, l: Flist): nat {
    if q == [] then 0 else One(l.Has(q[0])) + CountNdx(q[1..], l)
  }

  function Dones(q: seq<Msg>): nat {
    if q == [] then 0 else One(q[0].Done?) + Dones(q[1..])
  }

  function News(q: seq<Msg>): nat {
    if q == [] then 0 else One(q[0].NewList?) + News(q[1..])
  }

  /** Redo requests for one index that are waiting, as statuses or in the list. */
  function Redos(q: seq<Msg>, ndx: int): nat {
    if q == [] then 0 else One(q[0] == Status(ndx, Redo)) + Redos(q[1..], ndx)
  }

  function Times(q: seq<int>, ndx: int): nat {
    if q == [] then 0 else One(q[0] == ndx) + Times(q[1..], ndx)
  }

  lemma {:induction false} Append(q: seq<Msg>, m: Msg)
    ensures forall l :: Count(q + [m], l) == Count(q, l) + One(Names(m, l))
    ensures Dones(q + [m]) == Dones(q) + One(m.Done?)
    ensures News(q + [m]) == News(q) + One(m.NewList?)
    ensures forall x :: Redos(q + [m], x) == Redos(q, x) + One(m == Status(x, Redo))
    decreases |q|
  {
    if q == [] {
      assert q + [m] == [m] && [m][1..] == [];
    } else {
      Append(q[1..], m);
      assert (q + [m])[0] == q[0] && (q + [m])[1..] == q[1..] + [m];
    }
  }

  lemma {:induction false} AppendNdx(q: seq<int>, x: int)
    ensures forall l :: CountNdx(q + [x], l) == CountNdx(q, l) + One(l.Has(x))
    ensures forall y :: Times(q + [x], y) == Times(q, y) + One(x == y)
    decreases |q|
  {
    if q == [] {
      assert q + [x] == [x] && [x][1..] == [];
    } else {
      AppendNdx(q[1..], x);
      assert (q + [x])[0] == q[0] && (q + [x])[1..] == q[1..] + [x];
    }
  }

  /** All work in a queue is on indexes the generator has come to. */
  predicate Known(q: seq<Msg>, seen: set<int>) {
    forall m <- q :: m.Job? || m.Status? ==> m.ndx in seen
  }

  lemma {:induction false} NothingOf(q: seq<Msg>, seen: set<int>, x: int)
    requires Known(q, seen) && x !in seen
    ensures Redos(q, x) == 0
  {
    if q != [] {
      assert q[0] in q;
      NothingOf(q[1..], seen, x);
    }
  }

  predicate KnownNdx(q: seq<int>, seen: set<int>) {
    forall i :: 0 <= i < |q| ==> q[i] in seen
  }

  lemma {:induction false} NothingOfNdx(q: seq<int>, seen: set<int>, x: int)
    requires KnownNdx(q, seen) && x !in seen
    ensures Times(q, x) == 0
  {
    if q != [] {
      NothingOfNdx(q[1..], seen, x);
    }
  }

  // ----- the three processes -----

  /** The generator's side: lists first .. count-1 are held, the scan is at slot
      pos of list cur and has come to the indexes seen, and each list has its
      two counters. */
  datatype Gen = Gen(first: nat, count: nat, cur: nat, pos: nat, seen: set<int>, eof: bool,
                     inProgress: seq<int>, toRedo: seq<int>, redoList: seq<int>)

  datatype State = State(
    lists: seq<Flist>, eof: bool,
    g: Gen,
    sFirst: nat,
    rFirst: nat, rCount: nat, rEof: bool, flagged: set<int>,
    requested: multiset<int>,
    toS: seq<Msg>,      // generator to sender
    toR: seq<Msg>,      // sender to receiver, data stream
    noSend: seq<Msg>,   // sender to receiver, messages that pass it through
    status: seq<Msg>,   // receiver to generator, messages
    inFlight: nat,      // receiver to generator, lists being forwarded
    fatal: bool)

  /** What recv_generator does about a file that is to be redone. */
  datatype Way = Again | Mention | Quiet

  datatype Step =
    | GItem(ndx: int)          // come to an entry and only mention it
    | GRequest(ndx: int)       // come to an entry and ask for it
    | GSkip                    // pass over an entry
    | GNextList                // move on to the next list
    | GRedo(way: Way)          // take an index off the redo list
    | GFinish                  // NDX_DONE for the oldest list
    | GStatus                  // got_flist_entry_status
    | GList                    // a forwarded list arrives
    | GEof                     // NDX_FLIST_EOF arrives
    | SCreate(used: nat)       // send_extra_file_list
    | SEof
    | SRecv(canOpen: bool)      // read_ndx_and_attrs in send_files
    | RRecv(outcome: Outcome)  // read_ndx_and_attrs in recv_files
    | RNoSend                  // forward a MSG_NO_SEND

  function Init(used: nat): State {
    State([Flist(1, used)], false, Gen(0, 1, 0, 0, {}, false, [0], [0], []),
          0, 0, 1, false, {}, multiset{}, [], [], [], [], 0, false)
  }

  /** The generator asks for one file: recv_generator at notify_others. */
  function Ask(s: State, k: nat, ndx: int): State
    requires k < |s.g.inProgress|
  {
    s.(g := s.g.(inProgress := s.g.inProgress[k := s.g.inProgress[k] + 1]),
       requested := s.requested + multiset{ndx},
       toS := s.toS + [Job(ndx)])
  }

  /** May the scan come to this index now?  In which order it goes through the
      entries of a list is left open. */
  predicate Comes(s: State, ndx: int) {
    var g := s.g;
    && g.cur < g.count <= |s.lists| && s.lists[g.cur].Has(ndx) && ndx !in g.seen
    && if ndx < s.lists[g.cur].start then g.pos == 0 else 1 <= g.pos <= s.lists[g.cur].used
  }

  function Scanned(g: Gen, ndx: int): Gen { g.(pos := g.pos + 1, seen := g.seen + {ndx}) }

  /** One step; None when it is not enabled. */
  function Next(s: State, step: Step): (r: Option<State>)
    requires Consecutive(s.lists) && |s.g.inProgress| == |s.g.toRedo| == s.g.count
  {
    var g := s.g;
    if s.fatal then None else
    match step
    case GItem(ndx) =>
      if Comes(s, ndx) then Some(s.(toS := s.toS + [Item(ndx)], g := Scanned(g, ndx))) else None
    case GRequest(ndx) =>
      if Comes(s, ndx) && g.pos > 0 then Some(Ask(s.(g := Scanned(g, ndx)), g.cur, ndx)) else None
    case GSkip =>
      if g.cur < g.count <= |s.lists| && g.pos <= s.lists[g.cur].used
      then Some(s.(g := g.(pos := g.pos + 1))) else None
    case GNextList =>
      if g.cur < g.count <= |s.lists| && g.pos == s.lists[g.cur].used + 1 && (g.cur + 1 < g.count || g.eof)
      then Some(s.(g := g.(cur := g.cur + 1, pos := 0))) else None
    case GRedo(way) => Redone(s, way)
    case GFinish =>
      if g.first < g.count && g.first != g.cur && g.inProgress[g.first] == 0 && g.toRedo[g.first] == 0
      then Some(s.(toS := s.toS + [Done], g := g.(first := g.first + 1))) else None
    case GStatus => GotStatus(s)
    case GList =>
      if s.inFlight > 0 then Some(
        if g.first == g.count then s.(fatal := true)
        else Listed(s))
      else None
    case GEof => if s.rEof && s.inFlight == 0 && !g.eof then Some(s.(g := g.(eof := true))) else None
    case SCreate(used) =>
      if s.eof then None
      else if s.sFirst == |s.lists| then Some(s.(fatal := true))
      else Some(s.(lists := s.lists + [Flist(End(s.lists, |s.lists|) + 1, used)], toR := s.toR + [NewList]))
    case SEof => if s.eof then None else Some(s.(eof := true, toR := s.toR + [Eof]))
    case SRecv(canOpen) => SenderTakes(s, canOpen)
    case RRecv(outcome) => ReceiverTakes(s, outcome)
    case RNoSend =>
      if s.noSend == [] then None
      else Some(s.(noSend := s.noSend[1..], status := s.status + [s.noSend[0]]))
  }

  /** The redo list loses its head, which belongs to list k. */
  function Dropped(a: State, k: nat): State
    requires k < |a.g.toRedo| && a.g.redoList != []
  {
    a.(g := a.g.(redoList := a.g.redoList[1..], toRedo := a.g.toRedo[k := a.g.toRedo[k] - 1]))
  }

  /** The first status is taken in; it belongs to list k. */
  function TakenIn(s: State, k: nat): State
    requires k < |s.g.inProgress| && s.status != []
  {
    s.(g := s.g.(inProgress := s.g.inProgress[k := s.g.inProgress[k] - 1]), status := s.status[1..])
  }

  /** A redo joins the redo list of list k. */
  function Queued(s: State, k: nat, ndx: int): State
    requires k < |s.g.toRedo|
  {
    s.(g := s.g.(toRedo := s.g.toRedo[k := s.g.toRedo[k] + 1], redoList := s.g.redoList + [ndx]))
  }

  /** What is sent about an index of list k that is to be redone. */
  function Resent(s: State, k: nat, ndx: int, way: Way): State
    requires k < |s.g.inProgress|
  {
    match way
    case Again => Ask(s, k, ndx)
    case Mention => s.(toS := s.toS + [Item(ndx)])
    case Quiet => s
  }

  /** check_for_finished_files with check_redo: recv_generator may ask again, or
      only mention the file, or neither, and then to_redo goes down. */
  function Redone(s: State, way: Way): Option<State>
    requires Consecutive(s.lists) && |s.g.inProgress| == |s.g.toRedo| == s.g.count
  {
    if s.g.redoList == [] then None
    else
      var ndx := s.g.redoList[0];
      if !InWindow(s.lists, s.g.first, s.g.count, ndx) then Some(s.(fatal := true))
      else
        EndIsNextStart(s.lists, s.g.first);
        var k := HomeFrom(s.lists, ndx, s.g.count - 1);
        Some(Dropped(Resent(s, k, ndx, way), k))
  }

  /** got_flist_entry_status. */
  function GotStatus(s: State): Option<State>
    requires Consecutive(s.lists) && |s.g.inProgress| == |s.g.toRedo| == s.g.count
  {
    if s.status == [] || !s.status[0].Status? then None
    else
      var (ndx, outcome) := (s.status[0].ndx, s.status[0].outcome);
      if !InWindow(s.lists, s.g.first, s.g.count, ndx) then Some(s.(fatal := true))
      else
        EndIsNextStart(s.lists, s.g.first);
        var k := HomeFrom(s.lists, ndx, s.g.count - 1);
        var t := TakenIn(s, k);
        Some(if outcome == Redo then Queued(t, k, ndx) else t)
  }

  /** send_files takes one message: a list retires, or an index is looked up
      and answered with data, an echo, or MSG_NO_SEND. */
  function SenderTakes(s: State, canOpen: bool): Option<State> {
    if s.toS == [] then None
    else
      var (m, rest) := (s.toS[0], s.toS[1..]);
      match m
      case Done => Some(s.(toS := rest, sFirst := s.sFirst + 1, toR := s.toR + [Done]))
      case Job(ndx) =>
        if !InWindow(s.lists, s.sFirst, |s.lists|, ndx) then Some(s.(fatal := true))
        else if canOpen then Some(s.(toS := rest, toR := s.toR + [Job(ndx)]))
        else Some(s.(toS := rest, noSend := s.noSend + [Status(ndx, NoSend)]))
      case Item(ndx) =>
        if !InWindow(s.lists, s.sFirst, |s.lists|, ndx) then Some(s.(fatal := true))
        else Some(s.(toS := rest, toR := s.toR + [Item(ndx)]))
      case _ => None
  }

  /** recv_files takes one message.  A failed file is redone once; the flag
      FLAG_FILE_SENT makes a second failure final. */
  function ReceiverTakes(s: State, outcome: Outcome): Option<State> {
    if s.toR == [] then None
    else
      var (m, rest) := (s.toR[0], s.toR[1..]);
      match m
      case Done => Some(s.(toR := rest, rFirst := s.rFirst + 1))
      case NewList =>
        Some(if s.rFirst == s.rCount then s.(fatal := true)
             else s.(toR := rest, rCount := s.rCount + 1, inFlight := s.inFlight + 1))
      case Eof => Some(s.(toR := rest, rEof := true))
      case Item(ndx) =>
        Some(if !InWindow(s.lists, s.rFirst, s.rCount, ndx) then s.(fatal := true) else s.(toR := rest))
      case Job(ndx) =>
        if !InWindow(s.lists, s.rFirst, s.rCount, ndx) then Some(s.(fatal := true))
        else if outcome == Redo && ndx in s.flagged then None
        else Some(s.(toR := rest, status := s.status + [Status(ndx, outcome)],
                     flagged := if outcome == Redo then s.flagged + {ndx} else s.flagged))
      case _ => None
  }

  // ----- the invariant -----

  /** May the reader of a queue handle m when it holds lists f .. c-1? */
  predicate Fits(lists: seq<Flist>, eof: bool, m: Msg, f: nat, c: nat) {
    match m
    case Job(ndx) => InWindow(lists, f, c, ndx)
    case Item(ndx) => InWindow(lists, f, c, ndx)
    case Done => f < c
    case NewList => f < c
    case Eof => eof && c == |lists|
    case Status(_, _) => false
  }

  /** Every message of the queue will fit when its turn comes. */
  predicate Ordered(lists: seq<Flist>, eof: bool, q: seq<Msg>, f: nat, c: nat) {
    q == [] || (Fits(lists, eof, q[0], f, c)
                && Ordered(lists, eof, q[1..], f + One(q[0].Done?), c + One(q[0].NewList?)))
  }

  lemma {:induction false} OrderedAppend(lists: seq<Flist>, eof: bool, q: seq<Msg>, f: nat, c: nat, m: Msg)
    requires Ordered(lists, eof, q, f, c) && Fits(lists, eof, m, f + Dones(q), c + News(q))
    ensures Ordered(lists, eof, q + [m], f, c)
    decreases |q|
  {
    if q == [] {
      assert q + [m] == [m] && [m][1..] == [];
    } else {
      OrderedAppend(lists, eof, q[1..], f + One(q[0].Done?), c + One(q[0].NewList?), m);
      assert (q + [m])[0] == q[0] && (q + [m])[1..] == q[1..] + [m];
    }
  }

  predicate Grown(a: seq<Flist>, b: seq<Flist>) {
    Consecutive(a) && Consecutive(b) && |b| == |a| + 1 && b[..|a|] == a
  }

  /** A new list at the end disturbs no queue; the sender's own queue is read
      against all lists (whole), the receiver's against those it has. */
  lemma {:induction false} OrderedGrows(a: seq<Flist>, b: seq<Flist>, q: seq<Msg>, f: nat, c: nat, whole: bool)
    requires Grown(a, b) && Ordered(a, false, q, f, c) && (whole ==> c == |a| && News(q) == 0)
    ensures Ordered(b, false, q, f, if whole then c + 1 else c)
    decreases |q|
  {
    assert forall k :: 0 <= k < |a| ==> b[k] == a[k];
    if q != [] {
      OrderedGrows(a, b, q[1..], f + One(q[0].Done?), c + One(q[0].NewList?), whole);
      if whole { EndRises(b, c, c + 1); }
    }
  }

  lemma {:induction false} OrderedEnds(lists: seq<Flist>, q: seq<Msg>, f: nat, c: nat)
    requires Ordered(lists, false, q, f, c)
    ensures Ordered(lists, true, q, f, c)
    decreases |q|
  {
    if q != [] { OrderedEnds(lists, q[1..], f + One(q[0].Done?), c + One(q[0].NewList?)); }
  }

  predicate AllStatus(q: seq<Msg>) { forall m <- q :: m.Status? }

  predicate Requests(q: seq<Msg>) { forall m <- q :: m.Job? || m.Item? || m.Done? }

  predicate AllRefusals(q: seq<Msg>) { forall m <- q :: m.Status? && m.outcome == NoSend }

  predicate Shape(s: State) {
    var g := s.g;
    && Consecutive(s.lists) && !s.fatal
    && |g.inProgress| == |g.toRedo| == g.count
    && g.first <= g.cur <= g.count <= s.rCount <= |s.lists| && 1 <= g.count
    && (g.cur < g.count ==> g.pos <= s.lists[g.cur].used + 1)
    && (g.cur == g.count ==> g.eof && g.pos == 0)
    && (g.eof ==> s.rEof && g.count == |s.lists|)
    && (s.rEof ==> s.eof && s.rCount == |s.lists|)
    && (s.eof ==> s.rEof || Eof in s.toR)
    && s.inFlight == s.rCount - g.count
    && s.rCount + News(s.toR) == |s.lists| && News(s.toS) == 0
    && s.rFirst + Dones(s.toR) == s.sFirst && s.sFirst + Dones(s.toS) == g.first
    && forall x <- g.seen :: 0 <= x < End(s.lists, g.count)
  }

  predicate Lanes(s: State) {
    && Ordered(s.lists, s.eof, s.toS, s.sFirst, |s.lists|)
    && Ordered(s.lists, s.eof, s.toR, s.rFirst, s.rCount)
    && Requests(s.toS) && AllRefusals(s.noSend) && AllStatus(s.status)
    && var seen := s.g.seen;
    && Known(s.toS, seen) && Known(s.toR, seen) && Known(s.noSend, seen) && Known(s.status, seen) && KnownNdx(s.g.redoList, seen)
  }

  /** Requests, data, refusals and statuses of list l that are under way. */
  function Outstanding(s: State, l: Flist): nat {
    Count(s.toS, l) + Count(s.toR, l) + Count(s.noSend, l) + Count(s.status, l)
  }

  /** in_progress and to_redo count exactly what is outstanding; a list that
      was retired has nothing outstanding. */
  predicate Counted(s: State)
    requires |s.g.inProgress| == |s.g.toRedo| == s.g.count <= |s.lists|
  {
    && (forall k :: 0 <= k < s.g.count ==> s.g.inProgress[k] == Outstanding(s, s.lists[k]))
    && (forall k :: 0 <= k < s.g.count ==> s.g.toRedo[k] == CountNdx(s.g.redoList, s.lists[k]))
    && (forall k :: 0 <= k < s.g.first && k < s.g.count ==> s.g.inProgress[k] == 0 && s.g.toRedo[k] == 0)
  }

  /** Requests made, plus redos still to come, never exceed one, or two for an
      index whose first transfer failed. */
  ghost predicate Bounded(s: State) {
    && (forall x :: s.requested[x] + Redos(s.status, x) + Times(s.g.redoList, x) <= 1 + One(x in s.flagged))
    && (forall x :: x !in s.g.seen ==> s.requested[x] == 0)
  }

  ghost predicate Inv(s: State) { Shape(s) && Lanes(s) && Counted(s) && Bounded(s) }

  lemma InitInv(used: nat)
    ensures Inv(Init(used))
  {
  }

  /** An index of a list that is held is in the generator's window. */
  lemma HeldInside(lists: seq<Flist>, k: nat, n: nat, ndx: int)
    requires Consecutive(lists) && k < n <= |lists| && lists[k].Has(ndx)
    ensures 0 <= ndx < End(lists, n)
  {
    EndRises(lists, k + 1, n);
    StartsRise(lists, 0, k);
  }

  // ----- generator steps -----

  /** Mentioning an index changes no count. */
  lemma ItemCounts(s: State, s': State, m: Msg)
    requires |s.g.inProgress| == |s.g.toRedo| == s.g.count <= |s.lists| && Counted(s) && Bounded(s)
    requires !m.Job? && !m.Status?
    requires s' == s.(toS := s.toS + [m], g := s'.g) && s'.g == s.g.(first := s'.g.first, pos := s'.g.pos, seen := s'.g.seen)
    requires s'.g.first <= s'.g.count && s.g.seen <= s'.g.seen
    requires forall k :: s.g.first <= k < s'.g.first && k < s.g.count ==> s.g.inProgress[k] == 0 && s.g.toRedo[k] == 0
    ensures Counted(s') && Bounded(s')
  {
    Append(s.toS, m);
    forall k | 0 <= k < s.g.count ensures s'.g.inProgress[k] == Outstanding(s', s'.lists[k]) {
      assert s.g.inProgress[k] == Outstanding(s, s.lists[k]);
    }
  }

  /** An index of held list k may be named to the sender. */
  lemma ItemQueue(s: State, k: nat, ndx: int)
    requires Shape(s) && Ordered(s.lists, s.eof, s.toS, s.sFirst, |s.lists|)
    requires s.g.first <= k < s.g.count && s.lists[k].Has(ndx)
    ensures Ordered(s.lists, s.eof, s.toS + [Item(ndx)], s.sFirst, |s.lists|)
    ensures Dones(s.toS + [Item(ndx)]) == Dones(s.toS) && News(s.toS + [Item(ndx)]) == 0
  {
    Append(s.toS, Item(ndx));
    StartsRise(s.lists, s.g.first, k);
    EndRises(s.lists, k + 1, |s.lists|);
    OrderedAppend(s.lists, s.eof, s.toS, s.sFirst, |s.lists|, Item(ndx));
  }

  lemma KnownMore(q: seq<Msg>, a: set<int>, b: set<int>)
    requires Known(q, a) && a <= b
    ensures Known(q, b)
  {
  }

  /** The scan comes to one more index. */
  lemma ScannedLanes(s: State, ndx: int)
    requires Shape(s) && Lanes(s) && Comes(s, ndx)
    ensures var t := s.(g := Scanned(s.g, ndx)); Shape(t) && Lanes(t)
  {
    HeldInside(s.lists, s.g.cur, s.g.count, ndx);
    var seen := s.g.seen + {ndx};
    KnownMore(s.toS, s.g.seen, seen);
    KnownMore(s.toR, s.g.seen, seen);
    KnownMore(s.noSend, s.g.seen, seen);
    KnownMore(s.status, s.g.seen, seen);
  }

  lemma MentionLanes(s: State, k: nat, ndx: int)
    requires Shape(s) && Lanes(s) && s.g.first <= k < s.g.count && s.lists[k].Has(ndx)
    ensures var t := s.(toS := s.toS + [Item(ndx)]); Shape(t) && Lanes(t)
  {
    ItemQueue(s, k, ndx);
    KnownAppend(s.toS, Item(ndx), s.g.seen);
  }

  lemma GItemInv(s: State, ndx: int, s': State)
    requires Inv(s) && Next(s, GItem(ndx)) == Some(s')
    ensures Inv(s')
  {
    ScannedLanes(s, ndx);
    MentionLanes(s.(g := Scanned(s.g, ndx)), s.g.cur, ndx);
    ItemCounts(s, s', Item(ndx));
  }

  lemma GSkipInv(s: State, s': State)
    requires Inv(s) && Next(s, GSkip) == Some(s')
    ensures Inv(s')
  {
  }

  lemma GNextListLanes(s: State, s': State)
    requires Shape(s) && Lanes(s) && Next(s, GNextList) == Some(s')
    ensures Shape(s') && Lanes(s')
  {
  }

  lemma GNextListInv(s: State, s': State)
    requires Inv(s) && Next(s, GNextList) == Some(s')
    ensures Inv(s')
  {
    GNextListLanes(s, s');
    SameCounts(s, s');
  }

  lemma GFinishLanes(s: State, s': State)
    requires Shape(s) && Lanes(s) && Next(s, GFinish) == Some(s')
    ensures Shape(s') && Lanes(s')
  {
    Append(s.toS, Done);
    KnownAppend(s.toS, Done, s.g.seen);
    OrderedAppend(s.lists, s.eof, s.toS, s.sFirst, |s.lists|, Done);
  }

  lemma GFinishInv(s: State, s': State)
    requires Inv(s) && Next(s, GFinish) == Some(s')
    ensures Inv(s')
  {
    GFinishLanes(s, s');
    ItemCounts(s, s', Done);
  }

  /** Asking for an index of held list k raises that list's count by one. */
  lemma AskCounts(s: State, k: nat, ndx: int)
    requires Shape(s) && Counted(s) && s.g.first <= k < s.g.count && s.lists[k].Has(ndx)
    ensures Counted(Ask(s, k, ndx))
  {
    var a := Ask(s, k, ndx);
    Append(s.toS, Job(ndx));
    forall j | 0 <= j < s.g.count ensures a.g.inProgress[j] == Outstanding(a, a.lists[j]) {
      assert s.g.inProgress[j] == Outstanding(s, s.lists[j]);
      if a.lists[j].Has(ndx) { HomeUnique(s.lists, ndx, j, k); }
    }
  }

  lemma AskQueue(s: State, k: nat, ndx: int)
    requires Shape(s) && Ordered(s.lists, s.eof, s.toS, s.sFirst, |s.lists|)
    requires s.g.first <= k < s.g.count && s.lists[k].Has(ndx)
    ensures Ordered(s.lists, s.eof, Ask(s, k, ndx).toS, s.sFirst, |s.lists|)
    ensures Dones(Ask(s, k, ndx).toS) == Dones(s.toS) && News(Ask(s, k, ndx).toS) == 0
  {
    Append(s.toS, Job(ndx));
    StartsRise(s.lists, s.g.first, k);
    EndRises(s.lists, k + 1, |s.lists|);
    OrderedAppend(s.lists, s.eof, s.toS, s.sFirst, |s.lists|, Job(ndx));
  }

  lemma KnownAppend(q: seq<Msg>, m: Msg, seen: set<int>)
    requires Known(q, seen) && (m.Job? || m.Status? ==> m.ndx in seen)
    ensures Known(q + [m], seen)
  {
  }

  lemma AskLanes(s: State, k: nat, ndx: int)
    requires Shape(s) && Lanes(s) && s.g.first <= k < s.g.count && s.lists[k].Has(ndx) && ndx in s.g.seen
    ensures Shape(Ask(s, k, ndx)) && Lanes(Ask(s, k, ndx))
  {
    AskQueue(s, k, ndx);
    KnownAppend(s.toS, Job(ndx), s.g.seen);
  }

  lemma GRequestInv(s: State, ndx: int, s': State)
    requires Inv(s) && Next(s, GRequest(ndx)) == Some(s')
    ensures Inv(s')
  {
    var t := s.(g := Scanned(s.g, ndx));
    ScannedLanes(s, ndx);
    AskLanes(t, s.g.cur, ndx);
    SameCounts(s, t);
    AskCounts(t, s.g.cur, ndx);
    NothingOf(s.status, s.g.seen, ndx);
    NothingOfNdx(s.g.redoList, s.g.seen, ndx);
  }

  /** Counted reads only the lists, the queues and the counters. */
  lemma SameCounts(a: State, b: State)
    requires |a.g.inProgress| == |a.g.toRedo| == a.g.count <= |a.lists| && Counted(a)
    requires b == a.(g := a.g.(pos := b.g.pos, seen := b.g.seen, cur := b.g.cur, eof := b.g.eof), eof := b.eof, rEof := b.rEof)
    ensures Counted(b)
  {
    forall k | 0 <= k < b.g.count ensures b.g.inProgress[k] == Outstanding(b, b.lists[k]) {
      assert a.g.inProgress[k] == Outstanding(a, a.lists[k]);
    }
  }

  /** An index on the redo list belongs to a list that is still held. */
  lemma RedoHeld(s: State) returns (k: nat)
    requires Shape(s) && Lanes(s) && Counted(s) && s.g.redoList != []
    ensures InWindow(s.lists, s.g.first, s.g.count, s.g.redoList[0])
    ensures s.g.first <= k < s.g.count && s.lists[k].Has(s.g.redoList[0])
    ensures k == HomeFrom(s.lists, s.g.redoList[0], s.g.count - 1)
  {
    var ndx := s.g.redoList[0];
    k := HomeFrom(s.lists, ndx, s.g.count - 1);
    assert s.g.toRedo[k] == CountNdx(s.g.redoList, s.lists[k]) >= 1;
    StartsRise(s.lists, s.g.first, k);
  }

  lemma DroppedCounts(a: State, k: nat)
    requires Consecutive(a.lists) && |a.g.inProgress| == |a.g.toRedo| == a.g.count <= |a.lists| && Counted(a)
    requires a.g.redoList != [] && a.g.first <= k < a.g.count && a.lists[k].Has(a.g.redoList[0])
    ensures Counted(Dropped(a, k))
  {
    var s' := Dropped(a, k);
    forall j | 0 <= j < a.g.count ensures s'.g.toRedo[j] == CountNdx(s'.g.redoList, s'.lists[j]) {
      assert a.g.toRedo[j] == CountNdx(a.g.redoList, a.lists[j]);
      if a.lists[j].Has(a.g.redoList[0]) { HomeUnique(a.lists, a.g.redoList[0], j, k); }
    }
    forall j | 0 <= j < a.g.count ensures s'.g.inProgress[j] == Outstanding(s', s'.lists[j]) {
      assert a.g.inProgress[j] == Outstanding(a, a.lists[j]);
    }
  }

  lemma ResentLanes(s: State, k: nat, ndx: int, way: Way)
    requires Shape(s) && Lanes(s) && s.g.first <= k < s.g.count && s.lists[k].Has(ndx) && ndx in s.g.seen
    ensures var t := Resent(s, k, ndx, way); Shape(t) && Lanes(t) && t.g.redoList == s.g.redoList
  {
    AskLanes(s, k, ndx);
    MentionLanes(s, k, ndx);
  }

  lemma ResentCounts(s: State, k: nat, ndx: int, way: Way)
    requires Shape(s) && Counted(s) && s.g.first <= k < s.g.count && s.lists[k].Has(ndx)
    ensures Counted(Resent(s, k, ndx, way))
  {
    AskCounts(s, k, ndx);
    Append(s.toS, Item(ndx));
    if way == Mention { CountsKept(s, Resent(s, k, ndx, way)); }
  }

  lemma DroppedLanes(s: State, k: nat)
    requires Shape(s) && Lanes(s) && s.g.redoList != [] && k < s.g.count
    ensures Shape(Dropped(s, k)) && Lanes(Dropped(s, k))
  {
  }

  /** A request that uses up a waiting redo keeps the bound. */
  lemma DroppedBounded(s: State, k: nat, way: Way)
    requires Bounded(s) && s.g.redoList != [] && k < |s.g.inProgress| == |s.g.toRedo|
    requires s.g.redoList[0] in s.g.seen
    ensures Bounded(Dropped(Resent(s, k, s.g.redoList[0], way), k))
  {
  }

  lemma RedoKept(s: State, k: nat, way: Way)
    requires Inv(s) && s.g.redoList != [] && s.g.first <= k < s.g.count && s.lists[k].Has(s.g.redoList[0])
    ensures Inv(Dropped(Resent(s, k, s.g.redoList[0], way), k))
  {
    var ndx := s.g.redoList[0];
    ResentLanes(s, k, ndx, way);
    ResentCounts(s, k, ndx, way);
    DroppedCounts(Resent(s, k, ndx, way), k);
    DroppedLanes(Resent(s, k, ndx, way), k);
    DroppedBounded(s, k, way);
  }

  lemma RedoForm(s: State, k: nat, way: Way)
    requires Consecutive(s.lists) && |s.g.inProgress| == |s.g.toRedo| == s.g.count && s.g.redoList != []
    requires InWindow(s.lists, s.g.first, s.g.count, s.g.redoList[0]) && 0 <= s.g.redoList[0]
    requires k == HomeFrom(s.lists, s.g.redoList[0], s.g.count - 1)
    ensures Redone(s, way) == Some(Dropped(Resent(s, k, s.g.redoList[0], way), k))
  {
  }

  lemma GRedoInv(s: State, s': State, way: Way)
    requires Inv(s) && Redone(s, way) == Some(s')
    ensures Inv(s')
  {
    var k := RedoHeld(s);
    RedoForm(s, k, way);
    RedoKept(s, k, way);
  }

  /** A status names a list that is still held. */
  lemma StatusHeld(s: State) returns (k: nat)
    requires Shape(s) && Lanes(s) && Counted(s) && s.status != []
    ensures s.status[0].Status? && InWindow(s.lists, s.g.first, s.g.count, s.status[0].ndx)
    ensures s.g.first <= k < s.g.count && s.lists[k].Has(s.status[0].ndx)
    ensures k == HomeFrom(s.lists, s.status[0].ndx, s.g.count - 1)
  {
    assert s.status[0] in s.status;
    var ndx := s.status[0].ndx;
    k := HomeFrom(s.lists, ndx, s.g.count - 1);
    assert s.g.inProgress[k] == Outstanding(s, s.lists[k]) >= 1;
    StartsRise(s.lists, s.g.first, k);
  }

  lemma TakenInCounts(s: State, k: nat)
    requires Consecutive(s.lists) && |s.g.inProgress| == |s.g.toRedo| == s.g.count <= |s.lists| && Counted(s)
    requires s.status != [] && s.g.first <= k < s.g.count && s.status[0].Status? && s.lists[k].Has(s.status[0].ndx)
    ensures Counted(TakenIn(s, k))
  {
    var s' := TakenIn(s, k);
    forall j | 0 <= j < s.g.count ensures s'.g.inProgress[j] == Outstanding(s', s'.lists[j]) {
      assert s.g.inProgress[j] == Outstanding(s, s.lists[j]);
      if s.lists[j].Has(s.status[0].ndx) { HomeUnique(s.lists, s.status[0].ndx, j, k); }
    }
  }

  lemma QueuedCounts(s: State, k: nat, ndx: int)
    requires Consecutive(s.lists) && |s.g.inProgress| == |s.g.toRedo| == s.g.count <= |s.lists| && Counted(s)
    requires s.g.first <= k < s.g.count && s.lists[k].Has(ndx)
    ensures Counted(Queued(s, k, ndx))
  {
    var s' := Queued(s, k, ndx);
    AppendNdx(s.g.redoList, ndx);
    forall j | 0 <= j < s.g.count ensures s'.g.toRedo[j] == CountNdx(s'.g.redoList, s'.lists[j]) {
      assert s.g.toRedo[j] == CountNdx(s.g.redoList, s.lists[j]);
      if s.lists[j].Has(ndx) { HomeUnique(s.lists, ndx, j, k); }
    }
    forall j | 0 <= j < s.g.count ensures s'.g.inProgress[j] == Outstanding(s', s'.lists[j]) {
      assert s.g.inProgress[j] == Outstanding(s, s.lists[j]);
    }
  }

  lemma TakenInLanes(s: State, k: nat)
    requires Shape(s) && Lanes(s) && s.status != [] && k < s.g.count
    ensures var t := TakenIn(s, k); Shape(t) && Lanes(t)
  {
  }

  lemma QueuedLanes(s: State, k: nat, ndx: int)
    requires Shape(s) && Lanes(s) && k < s.g.count && ndx in s.g.seen
    ensures var t := Queued(s, k, ndx); Shape(t) && Lanes(t)
  {
  }

  /** A redo moves from the queue of statuses to the redo list. */
  lemma StatusBounded(s: State, k: nat)
    requires Bounded(s) && s.status != [] && s.status[0].Status? && k < |s.g.inProgress| == |s.g.toRedo|
    ensures var t := TakenIn(s, k);
            Bounded(if s.status[0].outcome == Redo then Queued(t, k, s.status[0].ndx) else t)
  {
    AppendNdx(s.g.redoList, s.status[0].ndx);
  }

  /** The status is known to be good: what the two outcomes keep. */
  lemma StatusKept(s: State, k: nat)
    requires Inv(s) && s.status != [] && s.g.first <= k < s.g.count
    requires s.status[0].Status? && s.lists[k].Has(s.status[0].ndx)
    ensures var t := TakenIn(s, k); Shape(t) && Lanes(t) && Counted(t)
    ensures var t := TakenIn(s, k); var q := Queued(t, k, s.status[0].ndx); Shape(q) && Lanes(q) && Counted(q)
  {
    assert s.status[0] in s.status;
    TakenInCounts(s, k);
    TakenInLanes(s, k);
    QueuedCounts(TakenIn(s, k), k, s.status[0].ndx);
    QueuedLanes(TakenIn(s, k), k, s.status[0].ndx);
  }

  /** The state after the first status, which belongs to list k. */
  function Digested(s: State, k: nat): State
    requires k < |s.g.inProgress| == |s.g.toRedo| && s.status != [] && s.status[0].Status?
  {
    var t := TakenIn(s, k);
    if s.status[0].outcome == Redo then Queued(t, k, s.status[0].ndx) else t
  }

  lemma StatusForm(s: State, k: nat)
    requires Consecutive(s.lists) && |s.g.inProgress| == |s.g.toRedo| == s.g.count && s.status != [] && s.status[0].Status?
    requires InWindow(s.lists, s.g.first, s.g.count, s.status[0].ndx) && 0 <= s.status[0].ndx
    requires k == HomeFrom(s.lists, s.status[0].ndx, s.g.count - 1)
    ensures GotStatus(s) == Some(Digested(s, k))
  {
  }

  lemma DigestedInv(s: State, k: nat)
    requires Inv(s) && s.status != [] && s.g.first <= k < s.g.count
    requires s.status[0].Status? && s.lists[k].Has(s.status[0].ndx)
    ensures Inv(Digested(s, k))
  {
    StatusKept(s, k);
    StatusBounded(s, k);
  }

  /** The list's counter goes down, and a failed transfer joins the redo list. */
  lemma GStatusInv(s: State, s': State)
    requires Inv(s) && GotStatus(s) == Some(s')
    ensures Inv(s')
    ensures s'.g.redoList == if s.status[0].outcome == Redo then s.g.redoList + [s.status[0].ndx] else s.g.redoList
  {
    var k := StatusHeld(s);
    StatusForm(s, k);
    DigestedInv(s, k);
  }

  lemma {:induction false} NoneUnseen(q: seq<Msg>, seen: set<int>, l: Flist)
    requires Known(q, seen) && forall x <- seen :: !l.Has(x)
    ensures Count(q, l) == 0
    decreases |q|
  {
    if q != [] {
      assert q[0] in q;
      NoneUnseen(q[1..], seen, l);
    }
  }

  lemma {:induction false} NoneUnseenNdx(q: seq<int>, seen: set<int>, l: Flist)
    requires KnownNdx(q, seen) && forall x <- seen :: !l.Has(x)
    ensures CountNdx(q, l) == 0
    decreases |q|
  {
    if q != [] { NoneUnseenNdx(q[1..], seen, l); }
  }

  /** Nothing of a list the generator has not seen is outstanding. */
  lemma FreshList(s: State)
    requires Shape(s) && Lanes(s) && s.g.count < |s.lists|
    ensures Outstanding(s, s.lists[s.g.count]) == 0 && CountNdx(s.g.redoList, s.lists[s.g.count]) == 0
  {
    var (seen, l) := (s.g.seen, s.lists[s.g.count]);
    EndIsNextStart(s.lists, s.g.count);
    NoneUnseen(s.toS, seen, l);
    NoneUnseen(s.toR, seen, l);
    NoneUnseen(s.noSend, seen, l);
    NoneUnseen(s.status, seen, l);
    NoneUnseenNdx(s.g.redoList, seen, l);
  }

  /** The generator takes in one more list. */
  function Listed(s: State): State
    requires s.inFlight > 0
  {
    s.(inFlight := s.inFlight - 1,
       g := s.g.(count := s.g.count + 1, inProgress := s.g.inProgress + [0], toRedo := s.g.toRedo + [0]))
  }

  lemma ListedCounts(s: State)
    requires |s.g.inProgress| == |s.g.toRedo| == s.g.count < |s.lists| && Counted(s) && s.inFlight > 0 && s.g.first <= s.g.count
    requires Outstanding(s, s.lists[s.g.count]) == 0 && CountNdx(s.g.redoList, s.lists[s.g.count]) == 0
    ensures Counted(Listed(s))
  {
    forall k | 0 <= k <= s.g.count ensures Listed(s).g.inProgress[k] == Outstanding(Listed(s), s.lists[k]) {
      assert k < s.g.count ==> s.g.inProgress[k] == Outstanding(s, s.lists[k]);
    }
  }

  lemma ListedLanes(s: State)
    requires Shape(s) && Lanes(s) && s.inFlight > 0
    ensures Shape(Listed(s)) && Lanes(Listed(s))
  {
    EndRises(s.lists, s.g.count, s.g.count + 1);
  }

  lemma GListInv(s: State, s': State)
    requires Inv(s) && Next(s, GList) == Some(s')
    ensures Inv(s')
  {
    assert s' == Listed(s);
    FreshList(s);
    ListedCounts(s);
    ListedLanes(s);
  }

  lemma GEofInv(s: State, s': State)
    requires Inv(s) && Next(s, GEof) == Some(s')
    ensures Inv(s')
  {
    SameCounts(s, s');
  }

  // ----- sender and receiver steps -----

  /** A step that leaves the generator alone and only moves work along keeps
      every count. */
  lemma CountsKept(s: State, s': State)
    requires |s.g.inProgress| == |s.g.toRedo| == s.g.count <= |s.lists| <= |s'.lists| && Counted(s)
    requires s'.g == s.g && s'.lists[..|s.lists|] == s.lists
    requires forall l :: Outstanding(s', l) == Outstanding(s, l)
    ensures Counted(s')
  {
    forall k | 0 <= k < s.g.count ensures s'.lists[k] == s.lists[k] {
      assert s'.lists[..|s.lists|][k] == s.lists[k];
    }
    forall k | 0 <= k < s'.g.count ensures s'.g.inProgress[k] == Outstanding(s', s'.lists[k]) {
      assert s.g.inProgress[k] == Outstanding(s, s.lists[k]);
    }
  }

  /** send_extra_file_list extends every process's view at the far end only. */
  lemma CreateLanes(s: State, used: nat, s': State)
    requires Shape(s) && Lanes(s) && !s.eof && Next(s, SCreate(used)) == Some(s')
    ensures Shape(s') && Lanes(s')
  {
    var lists' := s.lists + [Flist(End(s.lists, |s.lists|) + 1, used)];
    assert s'.lists == lists';
    Append(s.toR, NewList);
    assert Grown(s.lists, lists');
    OrderedGrows(s.lists, lists', s.toS, s.sFirst, |s.lists|, true);
    OrderedGrows(s.lists, lists', s.toR, s.rFirst, s.rCount, false);
    OrderedAppend(lists', false, s.toR, s.rFirst, s.rCount, NewList);
    KnownAppend(s.toR, NewList, s.g.seen);
  }

  lemma SCreateInv(s: State, used: nat, s': State)
    requires Inv(s) && Next(s, SCreate(used)) == Some(s')
    ensures Inv(s')
  {
    CreateLanes(s, used, s');
    Append(s.toR, NewList);
    CountsKept(s, s');
  }

  lemma SEofLanes(s: State, s': State)
    requires Shape(s) && Lanes(s) && Next(s, SEof) == Some(s')
    ensures Shape(s') && Lanes(s')
  {
    OrderedEnds(s.lists, s.toS, s.sFirst, |s.lists|);
    OrderedEnds(s.lists, s.toR, s.rFirst, s.rCount);
    OrderedAppend(s.lists, true, s.toR, s.rFirst, s.rCount, Eof);
    Append(s.toR, Eof);
    KnownAppend(s.toR, Eof, s.g.seen);
  }

  lemma SEofInv(s: State, s': State)
    requires Inv(s) && Next(s, SEof) == Some(s')
    ensures Inv(s')
  {
    SEofLanes(s, s');
    Append(s.toR, Eof);
    CountsKept(s, s');
  }

  lemma KnownTail(q: seq<Msg>, seen: set<int>)
    requires Known(q, seen) && q != []
    ensures Known(q[1..], seen) && (q[0].Job? || q[0].Status? ==> q[0].ndx in seen)
  {
    assert q[0] in q;
  }

  /** The head of the sender's queue moves on, as it is, to the receiver. */
  function PassedOn(s: State): State
    requires s.toS != []
  {
    s.(toS := s.toS[1..], toR := s.toR + [s.toS[0]], sFirst := s.sFirst + One(s.toS[0].Done?))
  }

  lemma PassedOnLanes(s: State)
    requires Shape(s) && Lanes(s) && s.toS != [] && !s.toS[0].Eof?
    ensures Shape(PassedOn(s)) && Lanes(PassedOn(s))
  {
    var m := s.toS[0];
    Append(s.toR, m);
    KnownTail(s.toS, s.g.seen);
    KnownAppend(s.toR, m, s.g.seen);
    assert Fits(s.lists, s.eof, m, s.sFirst, |s.lists|);
    OrderedAppend(s.lists, s.eof, s.toR, s.rFirst, s.rCount, m);
  }

  /** The head of the sender's queue is refused with MSG_NO_SEND. */
  function Refused(s: State): State
    requires s.toS != [] && s.toS[0].Job?
  {
    s.(toS := s.toS[1..], noSend := s.noSend + [Status(s.toS[0].ndx, NoSend)])
  }

  lemma RefusedLanes(s: State)
    requires Shape(s) && Lanes(s) && s.toS != [] && s.toS[0].Job?
    ensures Shape(Refused(s)) && Lanes(Refused(s))
  {
    KnownTail(s.toS, s.g.seen);
    KnownAppend(s.noSend, Status(s.toS[0].ndx, NoSend), s.g.seen);
  }

  lemma PassedOnInv(s: State)
    requires Inv(s) && s.toS != [] && !s.toS[0].Eof?
    ensures Inv(PassedOn(s))
  {
    PassedOnLanes(s);
    Append(s.toR, s.toS[0]);
    CountsKept(s, PassedOn(s));
  }

  lemma RefusedInv(s: State)
    requires Inv(s) && s.toS != [] && s.toS[0].Job?
    ensures Inv(Refused(s))
  {
    RefusedLanes(s);
    Append(s.noSend, Status(s.toS[0].ndx, NoSend));
    CountsKept(s, Refused(s));
  }

  /** The sender never meets an index it does not hold. */
  lemma SenderForm(s: State, canOpen: bool)
    requires Ordered(s.lists, s.eof, s.toS, s.sFirst, |s.lists|) && SenderTakes(s, canOpen).Some?
    ensures !s.toS[0].Eof? && SenderTakes(s, canOpen) == Some(if s.toS[0].Job? && !canOpen then Refused(s) else PassedOn(s))
  {
  }

  lemma SRecvInv(s: State, canOpen: bool, s': State)
    requires Inv(s) && SenderTakes(s, canOpen) == Some(s')
    ensures Inv(s')
  {
    SenderForm(s, canOpen);
    if s.toS[0].Job? && !canOpen {
      RefusedInv(s);
    } else {
      PassedOnInv(s);
    }
  }

  /** The receiver answers the transfer at the head of its queue. */
  function Answered(s: State, outcome: Outcome): State
    requires s.toR != [] && s.toR[0].Job?
  {
    var ndx := s.toR[0].ndx;
    s.(toR := s.toR[1..], status := s.status + [Status(ndx, outcome)],
       flagged := if outcome == Redo then s.flagged + {ndx} else s.flagged)
  }

  lemma AnsweredLanes(s: State, outcome: Outcome)
    requires Shape(s) && Lanes(s) && s.toR != [] && s.toR[0].Job?
    ensures Shape(Answered(s, outcome)) && Lanes(Answered(s, outcome))
  {
    KnownTail(s.toR, s.g.seen);
    KnownAppend(s.status, Status(s.toR[0].ndx, outcome), s.g.seen);
  }

  /** Anything else at the head of the receiver's queue. */
  function Consumed(s: State): State
    requires s.toR != []
  {
    s.(toR := s.toR[1..], rFirst := s.rFirst + One(s.toR[0].Done?), rCount := s.rCount + One(s.toR[0].NewList?),
       inFlight := s.inFlight + One(s.toR[0].NewList?), rEof := s.rEof || s.toR[0].Eof?)
  }

  lemma ConsumedLanes(s: State)
    requires Shape(s) && Lanes(s) && s.toR != [] && !s.toR[0].Job?
    ensures Shape(Consumed(s)) && Lanes(Consumed(s))
  {
    KnownTail(s.toR, s.g.seen);
  }

  /** A first failure is paid for by the flag it sets. */
  lemma AnsweredBounded(s: State, outcome: Outcome)
    requires Bounded(s) && s.toR != [] && s.toR[0].Job? && (outcome == Redo ==> s.toR[0].ndx !in s.flagged)
    ensures Bounded(Answered(s, outcome))
  {
    Append(s.status, Status(s.toR[0].ndx, outcome));
  }

  lemma AnsweredInv(s: State, outcome: Outcome)
    requires Inv(s) && s.toR != [] && s.toR[0].Job? && (outcome == Redo ==> s.toR[0].ndx !in s.flagged)
    ensures Inv(Answered(s, outcome))
  {
    AnsweredLanes(s, outcome);
    AnsweredBounded(s, outcome);
    Append(s.status, Status(s.toR[0].ndx, outcome));
    CountsKept(s, Answered(s, outcome));
  }

  lemma ConsumedInv(s: State)
    requires Inv(s) && s.toR != [] && !s.toR[0].Job?
    ensures Inv(Consumed(s))
  {
    ConsumedLanes(s);
    CountsKept(s, Consumed(s));
  }

  /** The receiver never meets an index it does not hold. */
  lemma ReceiverForm(s: State, outcome: Outcome)
    requires Ordered(s.lists, s.eof, s.toR, s.rFirst, s.rCount) && ReceiverTakes(s, outcome).Some?
    ensures s.toR[0].Job? ==> ReceiverTakes(s, outcome) == Some(Answered(s, outcome))
                              && (outcome == Redo ==> s.toR[0].ndx !in s.flagged)
    ensures !s.toR[0].Job? ==> ReceiverTakes(s, outcome) == Some(Consumed(s))
  {
  }

  lemma RRecvInv(s: State, outcome: Outcome, s': State)
    requires Inv(s) && ReceiverTakes(s, outcome) == Some(s')
    ensures Inv(s')
  {
    ReceiverForm(s, outcome);
    if s.toR[0].Job? {
      AnsweredInv(s, outcome);
    } else {
      ConsumedInv(s);
    }
  }

  /** A refusal reaches the receiver, which hands it to the generator. */
  function Forwarded(s: State): State
    requires s.noSend != []
  {
    s.(noSend := s.noSend[1..], status := s.status + [s.noSend[0]])
  }

  lemma ForwardedLanes(s: State)
    requires Shape(s) && Lanes(s) && s.noSend != []
    ensures Shape(Forwarded(s)) && Lanes(Forwarded(s))
  {
    KnownTail(s.noSend, s.g.seen);
    assert s.noSend[0] in s.noSend;
    KnownAppend(s.status, s.noSend[0], s.g.seen);
  }

  lemma RNoSendInv(s: State)
    requires Inv(s) && s.noSend != []
    ensures Inv(Forwarded(s))
  {
    ForwardedLanes(s);
    assert s.noSend[0] in s.noSend;
    Append(s.status, s.noSend[0]);
    CountsKept(s, Forwarded(s));
  }

  /** Every step of any of the three processes keeps the invariant. */
  lemma NextInv(s: State, step: Step)
    requires Inv(s)
    ensures Next(s, step).Some? ==> Inv(Next(s, step).value)
  {
    if Next(s, step) == None { return; }
    var s' := Next(s, step).value;
    match step
    case GItem(ndx) => GItemInv(s, ndx, s');
    case GRequest(ndx) => GRequestInv(s, ndx, s');
    case GSkip => GSkipInv(s, s');
    case GNextList => GNextListInv(s, s');
    case GRedo(way) => GRedoInv(s, s', way);
    case GFinish => GFinishInv(s, s');
    case GStatus => GStatusInv(s, s');
    case GList => GListInv(s, s');
    case GEof => GEofInv(s, s');
    case SCreate(used) => SCreateInv(s, used, s');
    case SEof => SEofInv(s, s');
    case SRecv(canOpen) => SRecvInv(s, canOpen, s');
    case RRecv(outcome) => RRecvInv(s, outcome, s');
    case RNoSend => RNoSendInv(s);
  }

  // ----- whole runs -----

  /** A run: any interleaving of the three processes, from the first list. */
  predicate Run(used: nat, states: seq<State>, steps: seq<Step>) {
    && |states| == |steps| + 1 && states[0] == Init(used)
    && forall i :: 0 <= i < |steps| ==> StepsTo(states[i], steps[i], states[i + 1])
  }

  predicate StepsTo(p: State, step: Step, s: State) {
    Consecutive(p.lists) && |p.g.inProgress| == |p.g.toRedo| == p.g.count && Next(p, step) == Some(s)
  }

  lemma {:induction false} RunInv(used: nat, states: seq<State>, steps: seq<Step>, i: nat)
    requires Run(used, states, steps) && i < |states|
    ensures Inv(states[i])
  {
    if i == 0 {
      InitInv(used);
    } else {
      RunInv(used, states, steps, i - 1);
      assert StepsTo(states[i - 1], steps[i - 1], states[i]);
      NextInv(states[i - 1], steps[i - 1]);
    }
  }

  /** No process of any run ever takes flist_for_ndx's fatal path, and each
      list's counters are exactly the work outstanding on it. */
  lemma RunSafe(used: nat, states: seq<State>, steps: seq<Step>, i: nat)
    requires Run(used, states, steps) && i < |states|
    ensures var s := states[i];
      && !s.fatal
      && |s.g.inProgress| == |s.g.toRedo| == s.g.count <= |s.lists|
      && (forall k :: 0 <= k < s.g.count ==> s.g.inProgress[k] == Outstanding(s, s.lists[k]))
      && (forall k :: 0 <= k < s.g.count ==> s.g.toRedo[k] == CountNdx(s.g.redoList, s.lists[k]))
  {
    RunInv(used, states, steps, i);
  }

  /** No index is ever requested more than twice, and twice only when the
      receiver asked for it again. */
  lemma RunRequests(used: nat, states: seq<State>, steps: seq<Step>, i: nat, ndx: int)
    requires Run(used, states, steps) && i < |states|
    ensures states[i].requested[ndx] <= 2
    ensures states[i].requested[ndx] == 2 ==> ndx in states[i].flagged
  {
    RunInv(used, states, steps, i);
  }

  lemma {:induction false} CountZero(q: seq<Msg>, l: Flist)
    requires Count(q, l) == 0
    ensures forall m <- q :: !Names(m, l)
    decreases |q|
  {
    if q != [] {
      CountZero(q[1..], l);
      assert q == [q[0]] + q[1..];
    }
  }

  lemma {:induction false} CountNdxZero(q: seq<int>, l: Flist)
    requires CountNdx(q, l) == 0
    ensures forall x <- q :: !l.Has(x)
    decreases |q|
  {
    if q != [] {
      CountNdxZero(q[1..], l);
      assert q == [q[0]] + q[1..];
    }
  }

  /** Lists are only ever added, and retired in order. */
  predicate Before(p: State, s: State) { p.g.first <= s.g.first && p.lists <= s.lists }

  lemma RedoForward(p: State, way: Way)
    requires Consecutive(p.lists) && |p.g.inProgress| == |p.g.toRedo| == p.g.count
    ensures Redone(p, way).Some? ==> Before(p, Redone(p, way).value)
  {
  }

  lemma StatusForward(p: State)
    requires Consecutive(p.lists) && |p.g.inProgress| == |p.g.toRedo| == p.g.count
    ensures GotStatus(p).Some? ==> Before(p, GotStatus(p).value)
  {
  }

  lemma SenderForward(p: State, canOpen: bool)
    ensures SenderTakes(p, canOpen).Some? ==> Before(p, SenderTakes(p, canOpen).value)
  {
  }

  lemma ReceiverForward(p: State, outcome: Outcome)
    ensures ReceiverTakes(p, outcome).Some? ==> Before(p, ReceiverTakes(p, outcome).value)
  {
  }

  lemma StepForward(p: State, step: Step, s: State)
    requires StepsTo(p, step, s)
    ensures Before(p, s)
  {
    match step
    case GRedo(way) => RedoForward(p, way);
    case GStatus => StatusForward(p);
    case SRecv(canOpen) => SenderForward(p, canOpen);
    case RRecv(outcome) => ReceiverForward(p, outcome);
    case _ =>
  }

  lemma RunStepForward(used: nat, states: seq<State>, steps: seq<Step>, i: nat)
    requires Run(used, states, steps) && i < |steps|
    ensures Before(states[i], states[i + 1])
  {
    StepForward(states[i], steps[i], states[i + 1]);
  }

  lemma BeforeTrans(a: State, b: State, c: State)
    requires Before(a, b) && Before(b, c)
    ensures Before(a, c)
  {
  }

  lemma RunForward(used: nat, states: seq<State>, steps: seq<Step>, i: nat, j: nat)
    requires Run(used, states, steps) && i <= j < |states|
    ensures Before(states[i], states[j])
  {
    forall k | 0 <= k < |states| - 1 ensures Before(states[k], states[k + 1]) == true {
      RunStepForward(used, states, steps, k);
    }
    ChainForward(states, i, j);
  }

  lemma {:induction false} ChainForward(states: seq<State>, i: nat, j: nat)
    requires forall k :: 0 <= k < |states| - 1 ==> Before(states[k], states[k + 1]) == true
    requires i <= j < |states|
    ensures Before(states[i], states[j]) == true
    decreases j
  {
    if i < j {
      ChainForward(states, i, j - 1);
      BeforeTrans(states[i], states[j - 1], states[j]);
    }
  }

  /** Once the generator has sent NDX_DONE for a list, in every later state no
      request, transfer, refusal, status or redo names one of its indexes. */
  lemma RetiredForGood(used: nat, states: seq<State>, steps: seq<Step>, i: nat, j: nat, k: nat)
    requires Run(used, states, steps) && i <= j < |states| && k < states[i].g.first
    ensures k < |states[i].lists| && k < |states[j].lists|
    ensures var (s, l) := (states[j], states[i].lists[k]);
      && (forall m <- s.toS :: !Names(m, l)) && (forall m <- s.toR :: !Names(m, l))
      && (forall m <- s.noSend :: !Names(m, l)) && (forall m <- s.status :: !Names(m, l))
      && (forall x <- s.g.redoList :: !l.Has(x))
  {
    RunInv(used, states, steps, i);
    RunForward(used, states, steps, i, j);
    RunInv(used, states, steps, j);
    RetiredNow(states[j], k);
  }

  lemma RetiredNow(s: State, k: nat)
    requires Shape(s) && Counted(s) && k < s.g.first
    ensures var l := s.lists[k];
      && (forall m <- s.toS :: !Names(m, l)) && (forall m <- s.toR :: !Names(m, l))
      && (forall m <- s.noSend :: !Names(m, l)) && (forall m <- s.status :: !Names(m, l))
      && (forall x <- s.g.redoList :: !l.Has(x))
  {
    var l := s.lists[k];
    assert s.g.inProgress[k] == Outstanding(s, l) == 0 && s.g.toRedo[k] == CountNdx(s.g.redoList, l) == 0;
    CountZero(s.toS, l);
    CountZero(s.toR, l);
    CountZero(s.noSend, l);
    CountZero(s.status, l);
    CountNdxZero(s.g.redoList, l);
  }

  lemma {:induction false} DonesAreOrdered(lists: seq<Flist>, eof: bool, q: seq<Msg>, f: nat, c: nat, i: nat)
    requires Ordered(lists, eof, q, f, c) && i < |q|
    ensures Fits(lists, eof, q[i], f + Dones(q[..i]), c + News(q[..i]))
    decreases |q|
  {
    if i > 0 {
      DonesAreOrdered(lists, eof, q[1..], f + One(q[0].Done?), c + One(q[0].NewList?), i - 1);
      assert q[..i][0] == q[0] && q[..i][1..] == q[1..][..i - 1];
    }
  }

  /** Is the index at place i of a queue inside the reader's window once the
      NDX_DONEs and lists before it have been read? */
  predicate FitsAt(lists: seq<Flist>, q: seq<Msg>, f: nat, c: nat, i: nat) {
    i < |q| && (q[i].Job? || q[i].Item?) ==> InWindow(lists, f + Dones(q[..i]), c + News(q[..i]), q[i].ndx)
  }

  lemma QueueFits(lists: seq<Flist>, eof: bool, q: seq<Msg>, f: nat, c: nat, i: nat)
    requires Ordered(lists, eof, q, f, c)
    ensures FitsAt(lists, q, f, c, i)
  {
    if i < |q| { DonesAreOrdered(lists, eof, q, f, c, i); }
  }

  /** Whatever is queued for the sender or the receiver will be inside its
      window when its turn comes. */
  lemma RunQueuesFit(used: nat, states: seq<State>, steps: seq<Step>, n: nat, i: nat)
    requires Run(used, states, steps) && n < |states|
    ensures var s := states[n]; FitsAt(s.lists, s.toS, s.sFirst, |s.lists|, i) && FitsAt(s.lists, s.toR, s.rFirst, s.rCount, i)
  {
    var s := states[n];
    RunInv(used, states, steps, n);
    QueueFits(s.lists, s.eof, s.toS, s.sFirst, |s.lists|, i);
    QueueFits(s.lists, s.eof, s.toR, s.rFirst, s.rCount, i);
  }

  /** Everything was scanned, answered and retired by all three processes. */
  predicate Finished(s: State) {
    && s.toS == [] && s.toR == [] && s.noSend == [] && s.status == [] && s.g.redoList == []
    && s.g.first == s.sFirst == s.rFirst == |s.lists|
  }

  /** Once the last list is known, no reachable state is stuck before all
      lists are retired: some process can take a step. */
  lemma NotStuck(used: nat, states: seq<State>, steps: seq<Step>, i: nat) returns (step: Step)
    requires Run(used, states, steps) && i < |states| && states[i].eof && !Finished(states[i])
    ensures exists s' :: StepsTo(states[i], step, s')
  {
    RunInv(used, states, steps, i);
    step := Enabled(states[i]);
    assert StepsTo(states[i], step, Next(states[i], step).value);
  }

  lemma Enabled(s: State) returns (step: Step)
    requires Inv(s) && s.eof && !Finished(s)
    ensures Next(s, step).Some?
  {
    if s.toS != [] || s.toR != [] || s.noSend != [] || s.status != [] {
      step := Drain(s);
    } else if s.g.redoList != [] {
      step := GRedo(Again);
    } else if s.inFlight > 0 {
      step := GList;
    } else if !s.g.eof {
      step := GEof;
    } else {
      step := ScanOrFinish(s);
    }
  }

  /** A message that waits can be taken. */
  lemma Drain(s: State) returns (step: Step)
    requires Shape(s) && Lanes(s) && (s.toS != [] || s.toR != [] || s.noSend != [] || s.status != [])
    ensures Next(s, step).Some?
  {
    if s.toS != [] {
      assert s.toS[0] in s.toS;
      step := SRecv(true);
    } else if s.toR != [] {
      step := RRecv(Success);
    } else if s.noSend != [] {
      step := RNoSend;
    } else {
      assert s.status[0] in s.status;
      step := GStatus;
    }
  }

  lemma ScanOrFinish(s: State) returns (step: Step)
    requires Shape(s) && Counted(s) && !Finished(s) && s.g.eof && s.g.redoList == []
    requires s.toS == [] && s.toR == [] && s.noSend == [] && s.status == []
    ensures Next(s, step).Some?
  {
    if s.g.cur < s.g.count {
      step := if s.g.pos <= s.lists[s.g.cur].used then GSkip else GNextList;
    } else {
      assert s.g.inProgress[s.g.first] == Outstanding(s, s.lists[s.g.first]);
      step := GFinish;
    }
  }

  // ----- nothing is lost -----

  /** This step takes index x off the redo list. */
  predicate TakesRedo(s: State, step: Step, x: int) {
    step.GRedo? && s.g.redoList != [] && s.g.redoList[0] == x
  }

  /** This step asks for x. */
  predicate AsksFor(s: State, step: Step, x: int) {
    (step.GRequest? && step.ndx == x) || (TakesRedo(s, step, x) && step.way == Again)
  }

  /** This step takes in a status of x. */
  predicate HearsOf(s: State, step: Step, x: int) {
    step.GStatus? && s.status != [] && s.status[0].Status? && s.status[0].ndx == x
  }

  /** The sender sends the file x, or refuses to. */
  predicate Sends(s: State, step: Step, x: int) { step == SRecv(true) && s.toS != [] && s.toS[0] == Job(x) }

  predicate Refuses(s: State, step: Step, x: int) { step == SRecv(false) && s.toS != [] && s.toS[0] == Job(x) }

  /** The receiver gets the file x, or fails to and wants it again. */
  predicate Gets(s: State, step: Step, x: int) { step.RRecv? && s.toR != [] && s.toR[0] == Job(x) }

  predicate Fails(s: State, step: Step, x: int) { Gets(s, step, x) && step.outcome == Redo }

  /** This step mentions x without asking for it. */
  predicate Mentions(s: State, step: Step, x: int) {
    step == GItem(x) || (TakesRedo(s, step, x) && step.way == Mention)
  }

  /** The receiver takes such a mention. */
  predicate TakesMention(s: State, step: Step, x: int) { step.RRecv? && s.toR != [] && s.toR[0] == Item(x) }

  /** How many messages of a queue mention x. */
  function Items(q: seq<Msg>, x: int): nat {
    if q == [] then 0 else One(q[0] == Item(x)) + Items(q[1..], x)
  }

  lemma {:induction false} ItemsAppend(q: seq<Msg>, m: Msg, x: int)
    ensures Items(q + [m], x) == Items(q, x) + One(m == Item(x))
    decreases |q|
  {
    if q == [] {
      assert q + [m] == [m] && [m][1..] == [];
    } else {
      ItemsAppend(q[1..], m, x);
      assert (q + [m])[0] == q[0] && (q + [m])[1..] == q[1..] + [m];
    }
  }

  /** How often such a step was made in the first n of a run. */
  function Steps(p: (State, Step) -> bool, states: seq<State>, steps: seq<Step>, n: nat): nat
    requires n <= |steps| < |states|
  {
    if n == 0 then 0 else Steps(p, states, steps, n - 1) + One(p(states[n - 1], steps[n - 1]))
  }

  function RedosTaken(states: seq<State>, steps: seq<Step>, n: nat, x: int): nat
    requires n <= |steps| < |states|
  {
    Steps((s: State, step: Step) => TakesRedo(s, step, x), states, steps, n)
  }

  function TimesAsked(states: seq<State>, steps: seq<Step>, n: nat, x: int): nat
    requires n <= |steps| < |states|
  {
    Steps((s: State, step: Step) => AsksFor(s, step, x), states, steps, n)
  }

  function TimesHeard(states: seq<State>, steps: seq<Step>, n: nat, x: int): nat
    requires n <= |steps| < |states|
  {
    Steps((s: State, step: Step) => HearsOf(s, step, x), states, steps, n)
  }

  function TimesSent(states: seq<State>, steps: seq<Step>, n: nat, x: int): nat
    requires n <= |steps| < |states|
  {
    Steps((s: State, step: Step) => Sends(s, step, x), states, steps, n)
  }

  function TimesRefused(states: seq<State>, steps: seq<Step>, n: nat, x: int): nat
    requires n <= |steps| < |states|
  {
    Steps((s: State, step: Step) => Refuses(s, step, x), states, steps, n)
  }

  function TimesGot(states: seq<State>, steps: seq<Step>, n: nat, x: int): nat
    requires n <= |steps| < |states|
  {
    Steps((s: State, step: Step) => Gets(s, step, x), states, steps, n)
  }

  function TimesFailed(states: seq<State>, steps: seq<Step>, n: nat, x: int): nat
    requires n <= |steps| < |states|
  {
    Steps((s: State, step: Step) => Fails(s, step, x), states, steps, n)
  }

  function TimesMentioned(states: seq<State>, steps: seq<Step>, n: nat, x: int): nat
    requires n <= |steps| < |states|
  {
    Steps((s: State, step: Step) => Mentions(s, step, x), states, steps, n)
  }

  function MentionsTaken(states: seq<State>, steps: seq<Step>, n: nat, x: int): nat
    requires n <= |steps| < |states|
  {
    Steps((s: State, step: Step) => TakesMention(s, step, x), states, steps, n)
  }

  /** The list of one index. */
  function Just(x: nat): Flist { Flist(x + 1, 0) }

  /** Failed transfers less those still on their way to be redone. */
  function RedoDue(s: State, x: int): int { One(x in s.flagged) - Redos(s.status, x) - Times(s.g.redoList, x) }

  /** Requests made less those still to be answered. */
  function Settled(s: State, x: nat): int { s.requested[x] - Outstanding(s, Just(x)) }

  /** What a step from s to s' does to index x in each of these respects. */
  predicate Balanced(s: State, step: Step, s': State, x: nat) {
    && RedoDue(s', x) == RedoDue(s, x) + One(TakesRedo(s, step, x))
    && s'.requested[x] == s.requested[x] + One(AsksFor(s, step, x))
    && Settled(s', x) == Settled(s, x) + One(HearsOf(s, step, x))
    && One(x in s'.flagged) == One(x in s.flagged) + One(Fails(s, step, x))
    && Count(s'.toS, Just(x)) == Count(s.toS, Just(x)) + One(AsksFor(s, step, x)) - One(Sends(s, step, x)) - One(Refuses(s, step, x))
    && Count(s'.toR, Just(x)) == Count(s.toR, Just(x)) + One(Sends(s, step, x)) - One(Gets(s, step, x))
  }

  /** The mentions of x under way. */
  function Mentioned(s: State, x: int): nat { Items(s.toS, x) + Items(s.toR, x) }

  predicate MentionsBalanced(s: State, step: Step, s': State, x: int) {
    Mentioned(s', x) == Mentioned(s, x) + One(Mentions(s, step, x)) - One(TakesMention(s, step, x))
  }

  lemma RedoMentions(s: State, way: Way, s': State, x: int)
    requires Inv(s) && Redone(s, way) == Some(s')
    ensures MentionsBalanced(s, GRedo(way), s', x)
  {
    var k := RedoHeld(s);
    RedoForm(s, k, way);
    ItemsAppend(s.toS, Item(s.g.redoList[0]), x);
    ItemsAppend(s.toS, Job(s.g.redoList[0]), x);
  }

  lemma SenderMentions(s: State, canOpen: bool, s': State, x: int)
    requires Inv(s) && SenderTakes(s, canOpen) == Some(s')
    ensures MentionsBalanced(s, SRecv(canOpen), s', x)
  {
    SenderForm(s, canOpen);
    ItemsAppend(s.toR, s.toS[0], x);
  }

  lemma ReceiverMentions(s: State, outcome: Outcome, s': State, x: int)
    requires Inv(s) && ReceiverTakes(s, outcome) == Some(s')
    ensures MentionsBalanced(s, RRecv(outcome), s', x)
  {
    ReceiverForm(s, outcome);
  }

  lemma StatusMentions(s: State, s': State, x: int)
    requires Inv(s) && GotStatus(s) == Some(s')
    ensures MentionsBalanced(s, GStatus, s', x)
  {
    var k := StatusHeld(s);
    StatusForm(s, k);
  }

  /** A step that adds at most one message to a queue. */
  lemma OtherMentions(s: State, step: Step, s': State, m: Msg, x: int)
    requires !step.GRedo? && !step.GStatus? && !step.SRecv? && !step.RRecv? && (step.GItem? <==> m == Item(if step.GItem? then step.ndx else 0))
    requires (step.GItem? && s'.toS == s.toS + [m] && s'.toR == s.toR)
          || (!step.GItem? && !m.Item? && s'.toS in {s.toS, s.toS + [m]} && s'.toR in {s.toR, s.toR + [m]})
    ensures MentionsBalanced(s, step, s', x) == true
  {
    ItemsAppend(s.toS, m, x);
    ItemsAppend(s.toR, m, x);
  }

  lemma StepMentions(s: State, step: Step, s': State, x: int)
    requires Inv(s) && Next(s, step) == Some(s')
    ensures MentionsBalanced(s, step, s', x) == true
  {
    match step
    case GRedo(way) => RedoMentions(s, way, s', x);
    case GStatus => StatusMentions(s, s', x);
    case SRecv(canOpen) => SenderMentions(s, canOpen, s', x);
    case RRecv(outcome) => ReceiverMentions(s, outcome, s', x);
    case GItem(ndx) => OtherMentions(s, step, s', Item(ndx), x);
    case GRequest(ndx) => OtherMentions(s, step, s', Job(ndx), x);
    case SCreate(_) => OtherMentions(s, step, s', NewList, x);
    case SEof => OtherMentions(s, step, s', Eof, x);
    case _ => OtherMentions(s, step, s', Done, x);
  }

  lemma RunStepMentions(used: nat, states: seq<State>, steps: seq<Step>, n: nat, x: int)
    requires Run(used, states, steps) && n < |steps|
    ensures MentionsBalanced(states[n], steps[n], states[n + 1], x) == true
  {
    RunInv(used, states, steps, n);
    assert StepsTo(states[n], steps[n], states[n + 1]);
    StepMentions(states[n], steps[n], states[n + 1], x);
  }

  lemma {:induction false} SumMentions(states: seq<State>, steps: seq<Step>, n: nat, x: int)
    requires n <= |steps| < |states| && Mentioned(states[0], x) == 0
    requires forall i :: 0 <= i < |steps| ==> MentionsBalanced(states[i], steps[i], states[i + 1], x) == true
    ensures TimesMentioned(states, steps, n, x) == Mentioned(states[n], x) + MentionsTaken(states, steps, n, x)
    decreases n
  {
    if n > 0 {
      SumMentions(states, steps, n - 1, x);
      assert MentionsBalanced(states[n - 1], steps[n - 1], states[n], x);
    }
  }

  /** In every state of every run each mention of an index is with the sender, on
      its way to the receiver, or was taken by it. */
  lemma RunMentions(used: nat, states: seq<State>, steps: seq<Step>, n: nat, x: int)
    requires Run(used, states, steps) && n < |states|
    ensures TimesMentioned(states, steps, n, x) == Mentioned(states[n], x) + MentionsTaken(states, steps, n, x)
  {
    forall i | 0 <= i < |steps| ensures MentionsBalanced(states[i], steps[i], states[i + 1], x) == true {
      RunStepMentions(used, states, steps, i, x);
    }
    SumMentions(states, steps, n, x);
  }

  lemma AskBalance(s: State, k: nat, ndx: int, x: nat)
    requires k < |s.g.inProgress|
    ensures var a := Ask(s, k, ndx);
      && RedoDue(a, x) == RedoDue(s, x) && a.requested[x] == s.requested[x] + One(ndx == x) && Settled(a, x) == Settled(s, x)
      && Count(a.toS, Just(x)) == Count(s.toS, Just(x)) + One(ndx == x)
  {
    Append(s.toS, Job(ndx));
  }

  lemma ResentBalance(s: State, k: nat, ndx: int, way: Way, x: nat)
    requires k < |s.g.inProgress|
    ensures var a := Resent(s, k, ndx, way);
      && RedoDue(a, x) == RedoDue(s, x) && a.requested[x] == s.requested[x] + One(ndx == x && way == Again)
      && Settled(a, x) == Settled(s, x) && Count(a.toS, Just(x)) == Count(s.toS, Just(x)) + One(ndx == x && way == Again)
  {
    AskBalance(s, k, ndx, x);
    Append(s.toS, Item(ndx));
  }

  lemma DroppedBalance(s: State, k: nat, way: Way, x: nat)
    requires s.g.redoList != [] && k < |s.g.inProgress| == |s.g.toRedo|
    ensures Balanced(s, GRedo(way), Dropped(Resent(s, k, s.g.redoList[0], way), k), x) == true
  {
    ResentBalance(s, k, s.g.redoList[0], way, x);
  }

  lemma RedoBalance(s: State, way: Way, s': State, x: nat)
    requires Inv(s) && Redone(s, way) == Some(s')
    ensures Balanced(s, GRedo(way), s', x) == true
  {
    var k := RedoHeld(s);
    RedoForm(s, k, way);
    DroppedBalance(s, k, way, x);
  }

  lemma DigestedBalance(s: State, k: nat, x: nat)
    requires k < |s.g.inProgress| == |s.g.toRedo| && s.status != [] && s.status[0].Status?
    ensures Balanced(s, GStatus, Digested(s, k), x) == true
  {
    AppendNdx(s.g.redoList, s.status[0].ndx);
  }

  lemma StatusBalance(s: State, s': State, x: nat)
    requires Inv(s) && GotStatus(s) == Some(s')
    ensures Balanced(s, GStatus, s', x) == true
  {
    var k := StatusHeld(s);
    StatusForm(s, k);
    DigestedBalance(s, k, x);
  }

  lemma PassedOnBalance(s: State, canOpen: bool, x: nat)
    requires s.toS != [] && !s.toS[0].Status? && (s.toS[0].Job? ==> canOpen)
    ensures Balanced(s, SRecv(canOpen), PassedOn(s), x) == true
  {
    Append(s.toR, s.toS[0]);
  }

  lemma RefusedBalance(s: State, x: nat)
    requires s.toS != [] && s.toS[0].Job?
    ensures Balanced(s, SRecv(false), Refused(s), x) == true
  {
    Append(s.noSend, Status(s.toS[0].ndx, NoSend));
  }

  lemma SenderBalance(s: State, canOpen: bool, s': State, x: nat)
    requires Inv(s) && SenderTakes(s, canOpen) == Some(s')
    ensures Balanced(s, SRecv(canOpen), s', x) == true
  {
    SenderForm(s, canOpen);
    assert s.toS[0] in s.toS;
    if s.toS[0].Job? && !canOpen {
      RefusedBalance(s, x);
    } else {
      PassedOnBalance(s, canOpen, x);
    }
  }

  lemma AnsweredBalance(s: State, outcome: Outcome, x: nat)
    requires s.toR != [] && s.toR[0].Job? && (outcome == Redo ==> s.toR[0].ndx !in s.flagged)
    ensures Balanced(s, RRecv(outcome), Answered(s, outcome), x) == true
  {
    Append(s.status, Status(s.toR[0].ndx, outcome));
  }

  lemma ConsumedBalance(s: State, outcome: Outcome, x: nat)
    requires s.toR != [] && !s.toR[0].Job? && !s.toR[0].Status?
    ensures Balanced(s, RRecv(outcome), Consumed(s), x) == true
  {
  }

  lemma ReceiverBalance(s: State, outcome: Outcome, s': State, x: nat)
    requires Inv(s) && ReceiverTakes(s, outcome) == Some(s')
    ensures Balanced(s, RRecv(outcome), s', x) == true
  {
    ReceiverForm(s, outcome);
    if s.toR[0].Job? {
      AnsweredBalance(s, outcome, x);
    } else {
      assert Fits(s.lists, s.eof, s.toR[0], s.rFirst, s.rCount);
      ConsumedBalance(s, outcome, x);
    }
  }

  lemma ForwardBalance(s: State, x: nat)
    requires AllRefusals(s.noSend) && s.noSend != []
    ensures Balanced(s, RNoSend, Forwarded(s), x) == true
  {
    assert s.noSend[0] in s.noSend;
    Append(s.status, s.noSend[0]);
  }

  /** A step that adds nothing but a message that is no work, if anything. */
  lemma OtherBalance(s: State, step: Step, s': State, m: Msg, x: nat)
    requires step.GItem? || step.GSkip? || step.GNextList? || step.GFinish? || step.GList? || step.GEof? || step.SCreate? || step.SEof?
    requires !m.Job? && !m.Status?
    requires s'.flagged == s.flagged && s'.status == s.status && s'.g.redoList == s.g.redoList && s'.requested == s.requested
    requires s'.noSend == s.noSend && s'.toS in {s.toS, s.toS + [m]} && s'.toR in {s.toR, s.toR + [m]}
    ensures Balanced(s, step, s', x) == true
  {
    Append(s.toS, m);
    Append(s.toR, m);
  }

  lemma RequestBalance(s: State, ndx: int, s': State, x: nat)
    requires Inv(s) && Next(s, GRequest(ndx)) == Some(s')
    ensures Balanced(s, GRequest(ndx), s', x) == true
  {
    AskBalance(s.(g := Scanned(s.g, ndx)), s.g.cur, ndx, x);
  }

  lemma StepBalance(s: State, step: Step, s': State, x: nat)
    requires Inv(s) && Next(s, step) == Some(s')
    ensures Balanced(s, step, s', x) == true
  {
    match step
    case GRedo(way) => RedoBalance(s, way, s', x);
    case GStatus => StatusBalance(s, s', x);
    case SRecv(canOpen) => SenderBalance(s, canOpen, s', x);
    case RRecv(outcome) => ReceiverBalance(s, outcome, s', x);
    case RNoSend => ForwardBalance(s, x);
    case GRequest(ndx) => RequestBalance(s, ndx, s', x);
    case GItem(ndx) => OtherBalance(s, step, s', Item(ndx), x);
    case SCreate(_) => OtherBalance(s, step, s', NewList, x);
    case SEof => OtherBalance(s, step, s', Eof, x);
    case _ => OtherBalance(s, step, s', Done, x);
  }

  lemma RunStepBalance(used: nat, states: seq<State>, steps: seq<Step>, n: nat, x: nat)
    requires Run(used, states, steps) && n < |steps|
    ensures Balanced(states[n], steps[n], states[n + 1], x) == true
  {
    RunInv(used, states, steps, n);
    assert StepsTo(states[n], steps[n], states[n + 1]);
    StepBalance(states[n], steps[n], states[n + 1], x);
  }

  lemma {:induction false} SumBalance(states: seq<State>, steps: seq<Step>, n: nat, x: nat)
    requires n <= |steps| < |states|
    requires forall i :: 0 <= i < |steps| ==> Balanced(states[i], steps[i], states[i + 1], x) == true
    requires RedoDue(states[0], x) == 0 && states[0].requested[x] == 0 && Settled(states[0], x) == 0
    requires x !in states[0].flagged && Count(states[0].toS, Just(x)) == 0 && Count(states[0].toR, Just(x)) == 0
    ensures RedoDue(states[n], x) == RedosTaken(states, steps, n, x)
    ensures states[n].requested[x] == TimesAsked(states, steps, n, x)
    ensures Settled(states[n], x) == TimesHeard(states, steps, n, x)
    ensures One(x in states[n].flagged) == TimesFailed(states, steps, n, x)
    ensures Count(states[n].toS, Just(x))
         == TimesAsked(states, steps, n, x) - TimesSent(states, steps, n, x) - TimesRefused(states, steps, n, x)
    ensures Count(states[n].toR, Just(x)) == TimesSent(states, steps, n, x) - TimesGot(states, steps, n, x)
    decreases n
  {
    if n > 0 {
      SumBalance(states, steps, n - 1, x);
      assert Balanced(states[n - 1], steps[n - 1], states[n], x);
    }
  }

  /** In every state of every run: each failed transfer, of which there is one
      at most for an index, is a status under way, or on the redo list, or was
      taken off it to be redone; each request is with the sender, or was refused
      or sent; what was sent is under way or was received; and in all each request
      is under way somewhere or was answered. */
  lemma RunBalance(used: nat, states: seq<State>, steps: seq<Step>, n: nat, x: nat)
    requires Run(used, states, steps) && n < |states|
    ensures var s := states[n];
      && TimesFailed(states, steps, n, x) == One(x in s.flagged)
      && TimesFailed(states, steps, n, x) == Redos(s.status, x) + Times(s.g.redoList, x) + RedosTaken(states, steps, n, x)
      && TimesAsked(states, steps, n, x)
         == Count(s.toS, Just(x)) + TimesSent(states, steps, n, x) + TimesRefused(states, steps, n, x)
      && TimesSent(states, steps, n, x) == Count(s.toR, Just(x)) + TimesGot(states, steps, n, x)
      && TimesAsked(states, steps, n, x) == Outstanding(s, Just(x)) + TimesHeard(states, steps, n, x)
      && s.requested[x] == TimesAsked(states, steps, n, x)
  {
    forall i | 0 <= i < |steps| ensures Balanced(states[i], steps[i], states[i + 1], x) == true {
      RunStepBalance(used, states, steps, i, x);
    }
    SumBalance(states, steps, n, x);
  }

  /** At the end every failed transfer was taken up again, and every request was
      refused or received, and answered. */
  lemma FinishedBalance(used: nat, states: seq<State>, steps: seq<Step>, n: nat, x: nat)
    requires Run(used, states, steps) && n < |states| && Finished(states[n])
    ensures RedosTaken(states, steps, n, x) == TimesFailed(states, steps, n, x) <= 1
    ensures TimesAsked(states, steps, n, x) == TimesRefused(states, steps, n, x) + TimesGot(states, steps, n, x)
    ensures TimesHeard(states, steps, n, x) == TimesAsked(states, steps, n, x)
  {
    RunBalance(used, states, steps, n, x);
  }

  // ----- every run ends -----

  /** What the messages of a queue are worth: work more than the rest. */
  function Weight(q: seq<Msg>, work: nat, other: nat): nat {
    if q == [] then 0 else (if q[0].Job? || q[0].Status? then work else other) + Weight(q[1..], work, other)
  }

  lemma {:induction false} WeightAppend(q: seq<Msg>, m: Msg, work: nat, other: nat)
    ensures Weight(q + [m], work, other) == Weight(q, work, other) + if m.Job? || m.Status? then work else other
    decreases |q|
  {
    if q == [] {
      assert q + [m] == [m] && [m][1..] == [];
    } else {
      WeightAppend(q[1..], m, work, other);
      assert (q + [m])[0] == q[0] && (q + [m])[1..] == q[1..] + [m];
    }
  }

  /** Slots of the lists from k on, with one to leave each list. */
  function Slots(lists: seq<Flist>, k: nat): nat
    decreases |lists| - k
  {
    if k >= |lists| then 0 else lists[k].used + 2 + Slots(lists, k + 1)
  }

  /** Requests that indexes below n may still be used for: two for each. */
  function Credit(requested: multiset<int>, n: nat): int {
    if n == 0 then 0 else 2 - requested[n - 1] + Credit(requested, n - 1)
  }

  lemma {:induction false} CreditUsed(requested: multiset<int>, n: nat, ndx: int)
    requires 0 <= ndx < n
    ensures Credit(requested + multiset{ndx}, n) == Credit(requested, n) - 1
  {
    if ndx == n - 1 {
      CreditSame(requested, n - 1, ndx);
    } else {
      CreditUsed(requested, n - 1, ndx);
    }
  }

  lemma {:induction false} CreditSame(requested: multiset<int>, n: nat, ndx: int)
    requires n <= ndx
    ensures Credit(requested + multiset{ndx}, n) == Credit(requested, n)
  {
    if n > 0 { CreditSame(requested, n - 1, ndx); }
  }

  lemma {:induction false} CreditLeft(requested: multiset<int>, n: nat)
    requires forall x :: requested[x] <= 2
    ensures Credit(requested, n) >= 0
  {
    if n > 0 { CreditLeft(requested, n - 1); }
  }

  /** How much is still to do once the last list exists: slots to scan,
      requests not made yet, messages and redos that wait, lists to retire. */
  function Rank(s: State): int {
    4 * (Slots(s.lists, s.g.cur) - s.g.pos) + 8 * Credit(s.requested, End(s.lists, |s.lists|))
    + Weight(s.toS, 7, 3) + Weight(s.toR, 6, 2) + Weight(s.noSend, 6, 2) + Weight(s.status, 5, 1) + 4 * |s.g.redoList|
    + s.inFlight + One(!s.g.eof) + 4 * (|s.lists| - s.g.first)
  }

  lemma RankLeft(s: State)
    requires Inv(s)
    ensures Rank(s) >= 0
  {
    forall x ensures s.requested[x] <= 2 {}
    CreditLeft(s.requested, End(s.lists, |s.lists|));
    assert s.g.cur < |s.lists| ==> Slots(s.lists, s.g.cur) >= s.lists[s.g.cur].used + 2;
  }

  lemma AskRank(s: State, k: nat, ndx: int)
    requires Shape(s) && s.g.first <= k < s.g.count && s.lists[k].Has(ndx)
    ensures Rank(Ask(s, k, ndx)) == Rank(s) - 1
  {
    HeldInside(s.lists, k, |s.lists|, ndx);
    CreditUsed(s.requested, End(s.lists, |s.lists|), ndx);
    WeightAppend(s.toS, Job(ndx), 7, 3);
  }

  lemma RedoRank(s: State, way: Way, s': State)
    requires Inv(s) && Redone(s, way) == Some(s')
    ensures Rank(s') < Rank(s)
  {
    var k := RedoHeld(s);
    RedoForm(s, k, way);
    AskRank(s, k, s.g.redoList[0]);
    WeightAppend(s.toS, Item(s.g.redoList[0]), 7, 3);
  }

  lemma StatusRank(s: State, s': State)
    requires Inv(s) && GotStatus(s) == Some(s')
    ensures Rank(s') < Rank(s)
  {
    var k := StatusHeld(s);
    StatusForm(s, k);
  }

  lemma SenderRank(s: State, canOpen: bool, s': State)
    requires Inv(s) && SenderTakes(s, canOpen) == Some(s')
    ensures Rank(s') < Rank(s)
  {
    SenderForm(s, canOpen);
    assert s.toS[0] in s.toS;
    WeightAppend(s.toR, s.toS[0], 6, 2);
    if s.toS[0].Job? { WeightAppend(s.noSend, Status(s.toS[0].ndx, NoSend), 6, 2); }
  }

  lemma ReceiverRank(s: State, outcome: Outcome, s': State)
    requires Inv(s) && ReceiverTakes(s, outcome) == Some(s')
    ensures Rank(s') < Rank(s)
  {
    ReceiverForm(s, outcome);
    if s.toR[0].Job? { WeightAppend(s.status, Status(s.toR[0].ndx, outcome), 5, 1); }
  }

  lemma ForwardRank(s: State)
    requires Inv(s) && s.noSend != []
    ensures Rank(Forwarded(s)) < Rank(s)
  {
    assert s.noSend[0] in s.noSend;
    WeightAppend(s.status, s.noSend[0], 5, 1);
  }

  lemma ScanRank(s: State, step: Step, s': State)
    requires Inv(s) && Next(s, step) == Some(s')
    requires step.GItem? || step.GRequest? || step.GSkip? || step.GNextList? || step.GFinish?
    ensures Rank(s') < Rank(s)
  {
    match step
    case GItem(ndx) => WeightAppend(s.toS, Item(ndx), 7, 3);
    case GRequest(ndx) =>
      ScannedLanes(s, ndx);
      AskRank(s.(g := Scanned(s.g, ndx)), s.g.cur, ndx);
    case GFinish => WeightAppend(s.toS, Done, 7, 3);
    case _ =>
  }

  lemma ArrivalRank(s: State, step: Step, s': State)
    requires Inv(s) && Next(s, step) == Some(s') && (step.GList? || step.GEof?)
    ensures Rank(s') < Rank(s)
  {
  }

  /** Once the last list exists, every step leaves less to do. */
  lemma RankFalls(s: State, step: Step, s': State)
    requires Inv(s) && s.eof && Next(s, step) == Some(s')
    ensures Rank(s') < Rank(s)
  {
    match step
    case GRedo(way) => RedoRank(s, way, s');
    case GStatus => StatusRank(s, s');
    case SRecv(canOpen) => SenderRank(s, canOpen, s');
    case RRecv(outcome) => ReceiverRank(s, outcome, s');
    case RNoSend => ForwardRank(s);
    case GList => ArrivalRank(s, step, s');
    case GEof => ArrivalRank(s, step, s');
    case GItem(_) => ScanRank(s, step, s');
    case GRequest(_) => ScanRank(s, step, s');
    case GSkip => ScanRank(s, step, s');
    case GNextList => ScanRank(s, step, s');
    case GFinish => ScanRank(s, step, s');
    case SCreate(_) =>
    case SEof =>
  }

  lemma StaysEof(s: State, step: Step, s': State)
    requires StepsTo(s, step, s') && s.eof
    ensures s'.eof
  {
    match step
    case GRedo(way) => assert Redone(s, way) == Some(s');
    case GStatus => assert GotStatus(s) == Some(s');
    case SRecv(canOpen) => assert SenderTakes(s, canOpen) == Some(s');
    case RRecv(outcome) => assert ReceiverTakes(s, outcome) == Some(s');
    case _ =>
  }

  lemma {:induction false} RankBounds(used: nat, states: seq<State>, steps: seq<Step>, i: nat, j: nat)
    requires Run(used, states, steps) && i <= j < |states| && states[i].eof
    ensures states[j].eof && Rank(states[j]) + (j - i) <= Rank(states[i])
    decreases j
  {
    if i < j {
      RankBounds(used, states, steps, i, j - 1);
      RunRankFalls(used, states, steps, j - 1);
    }
  }

  lemma RunRankFalls(used: nat, states: seq<State>, steps: seq<Step>, i: nat)
    requires Run(used, states, steps) && i < |steps| && states[i].eof
    ensures states[i + 1].eof && Rank(states[i + 1]) < Rank(states[i])
  {
    RunInv(used, states, steps, i);
    StaysEof(states[i], steps[i], states[i + 1]);
    RankFalls(states[i], steps[i], states[i + 1]);
  }

  /** From the end of the lists on, no run goes on for ever: the steps left are
      bounded by what is left to do, and where no step is possible everything
      has been scanned, answered and retired by all three processes. */
  lemma RunEnds(used: nat, states: seq<State>, steps: seq<Step>, i: nat)
    requires Run(used, states, steps) && i < |states| && states[i].eof
    ensures |steps| - i <= Rank(states[i])
    ensures (forall step, s' :: !StepsTo(states[|steps|], step, s')) ==> Finished(states[|steps|])
  {
    RankBounds(used, states, steps, i, |steps|);
    RunInv(used, states, steps, |steps|);
    RankLeft(states[|steps|]);
    if !Finished(states[|steps|]) {
      var step := NotStuck(used, states, steps, |steps|);
    }
  }
}

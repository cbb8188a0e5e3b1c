/** Negotiation of the checksum and compression names (rsync/compat.c): both
    sides send a list and each picks on its own. */
module Negotiate {
  import opened Wrappers

  type Name = string

  /** One row of a name_num_obj; rows with equal numbers are aliases. */
  datatype Item = Item(num: nat, name: Name)

  /** get_nni_by_name, as the number of the row. */
  function NumOf(table: seq<Item>, name: Name): Option<nat> {
    if table == [] then None
    else if table[0].name == name then Some(table[0].num)
    else NumOf(table[1..], name)
  }

  /** The name all aliases of a number are sent as: that of its first row. */
  function MainName(table: seq<Item>, num: nat): (name: Name)
    requires Known(table, num)
  {
    if table[0].num == num then table[0].name
    else
      assert Known(table[1..], num) by {
        var i :| 0 <= i < |table| && table[i].num == num;
        assert table[1..][i - 1] == table[i];
      }
      MainName(table[1..], num)
  }

  predicate Known(table: seq<Item>, num: nat) {
    exists i :: 0 <= i < |table| && table[i].num == num
  }

  predicate DistinctNames(table: seq<Item>) {
    forall i, j :: 0 <= i < j < |table| ==> table[i].name != table[j].name
  }

  lemma {:induction false} NumOfKnown(table: seq<Item>, name: Name)
    requires NumOf(table, name).Some?
    ensures Known(table, NumOf(table, name).value)
  {
    if table[0].name != name {
      NumOfKnown(table[1..], name);
      var i :| 0 <= i < |table[1..]| && table[1..][i].num == NumOf(table, name).value;
      assert table[i + 1].num == NumOf(table, name).value;
    }
  }

  /** Any row's name is read as the number of that row. */
  lemma {:induction false} NumOfIs(table: seq<Item>, name: Name, num: nat)
    requires DistinctNames(table)
    ensures NumOf(table, name) == Some(num) <==> Item(num, name) in table
  {
    if table != [] {
      assert table == [table[0]] + table[1..];
      NumOfIs(table[1..], name, num);
    }
  }

  /** A name that was sent is read back as the number it stands for. */
  lemma {:induction false} MainNameRoundTrip(table: seq<Item>, num: nat)
    requires DistinctNames(table) && Known(table, num)
    ensures NumOf(table, MainName(table, num)) == Some(num)
  {
    if table[0].num != num {
      var i :| 0 <= i < |table| && table[i].num == num;
      assert table[1..][i - 1].num == num;
      MainNameRoundTrip(table[1..], num);
      MainNameIn(table[1..], num);
      var j :| 0 <= j < |table[1..]| && table[1..][j].name == MainName(table[1..], num);
      assert table[j + 1].name != table[0].name;
    }
  }

  lemma {:induction false} MainNameIn(table: seq<Item>, num: nat)
    requires Known(table, num)
    ensures exists j :: 0 <= j < |table| && table[j].name == MainName(table, num)
  {
    if table[0].num != num {
      var i :| 0 <= i < |table| && table[i].num == num;
      assert table[1..][i - 1].num == num;
      MainNameIn(table[1..], num);
      var j :| 0 <= j < |table[1..]| && table[1..][j].name == MainName(table[1..], num);
      assert table[j + 1].name == MainName(table, num);
    }
  }

  // ----- one side's own list -----

  /** The place of a number in a list, counted from 1; 0 if it is not there. */
  function Rank(own: seq<nat>, num: nat): (r: nat)
    ensures r <= |own| && (r > 0 <==> num in own) && (r > 0 ==> own[r - 1] == num)
  {
    if num !in own then 0 else First(own, num) + 1
  }

  function First(own: seq<nat>, num: nat): (i: nat)
    requires num in own
    ensures i < |own| && own[i] == num && num !in own[..i]
  {
    if own[0] == num then 0
    else
      var j := First(own[1..], num);
      assert own[..j + 1] == [own[0]] + own[1..][..j];
      j + 1
  }

  predicate Distinct(own: seq<nat>) {
    forall i, j :: 0 <= i < j < |own| ==> own[i] != own[j]
  }

  lemma RankAt(own: seq<nat>, i: nat)
    requires Distinct(own) && i < |own|
    ensures Rank(own, own[i]) == i + 1
  {
  }

  /** The array saw holds the ranks of a list. */
  ghost predicate Ranks(saw: seq<nat>, own: seq<nat>) {
    && Distinct(own) && (forall i :: 0 <= i < |own| ==> own[i] < |saw|)
    && forall n :: 0 <= n < |saw| ==> saw[n] == Rank(own, n)
  }

  lemma RanksAppend(saw: seq<nat>, own: seq<nat>, num: nat)
    requires Ranks(saw, own) && num < |saw| && saw[num] == 0
    ensures Ranks(saw[num := |own| + 1], own + [num])
  {
    var (t, o) := (saw[num := |own| + 1], own + [num]);
    forall n | 0 <= n < |t| ensures t[n] == Rank(o, n) {
      if n == num {
        RankAt(o, |own|);
      } else if n in own {
        RankAt(own, Rank(own, n) - 1);
        assert o[Rank(own, n) - 1] == n;
        RankAt(o, Rank(own, n) - 1);
      } else {
        assert n !in o;
      }
    }
  }

  /** saw_len: one more than the largest number. */
  function SawLen(table: seq<Item>): (n: nat)
    ensures forall i :: 0 <= i < |table| ==> table[i].num < n
  {
    if table == [] then 0
    else
      var (last, before) := (table[|table| - 1].num, SawLen(table[..|table| - 1]));
      if last >= before then last + 1 else before
  }

  /** init_nno_saw. */
  method InitSaw(table: seq<Item>) returns (saw: array<nat>)
    ensures fresh(saw) && saw.Length == SawLen(table) && Ranks(saw[..], [])
  {
    var sawLen := 0;
    for i := 0 to |table|
      invariant sawLen == SawLen(table[..i])
    {
      assert table[..i + 1][..i] == table[..i];
      if table[i].num >= sawLen {
        sawLen := table[i].num + 1;
      }
    }
    assert table[..|table|] == table;
    saw := new nat[sawLen](_ => 0);
  }

  /** The numbers of a user's list that are valid, without repetitions. */
  function Valid(table: seq<Item>, tokens: seq<Name>): seq<nat> {
    if tokens == [] then [] else
      var before := Valid(table, tokens[..|tokens| - 1]);
      match NumOf(table, tokens[|tokens| - 1])
      case None => before
      case Some(num) => if num in before then before else before + [num]
  }

  /** The place where a word for num first stands. */
  predicate FirstWord(table: seq<Item>, words: seq<Name>, num: nat, i: nat) {
    i < |words| && NumOf(table, words[i]) == Some(num) && forall j :: 0 <= j < i ==> NumOf(table, words[j]) != Some(num)
  }

  /** What is on a user's list: each number that one of the words stands for,
      once, in the order in which they are first named. */
  ghost predicate InWordOrder(table: seq<Item>, words: seq<Name>, own: seq<nat>) {
    && Distinct(own) && (forall n: nat :: n in own <==> exists i :: FirstWord(table, words, n, i))
    && forall a, b, i, j :: 0 <= a < b < |own| && FirstWord(table, words, own[a], i) && FirstWord(table, words, own[b], j) ==> i < j
  }

  lemma {:induction false} FirstWordMore(table: seq<Item>, words: seq<Name>, w: Name, num: nat, i: nat)
    ensures FirstWord(table, words + [w], num, i) <==>
      FirstWord(table, words, num, i)
      || (i == |words| && NumOf(table, w) == Some(num) && forall j :: 0 <= j < |words| ==> NumOf(table, words[j]) != Some(num))
  {
    var all := words + [w];
    assert forall j :: 0 <= j < |words| ==> all[j] == words[j];
  }

  lemma {:induction false} HasFirstWord(table: seq<Item>, words: seq<Name>, i: nat) returns (k: nat)
    requires i < |words| && NumOf(table, words[i]).Some?
    ensures FirstWord(table, words, NumOf(table, words[i]).value, k)
    decreases i
  {
    if j :| 0 <= j < i && NumOf(table, words[j]) == NumOf(table, words[i]) {
      k := HasFirstWord(table, words, j);
    } else {
      k := i;
    }
  }

  lemma {:induction false} ValidAre(table: seq<Item>, words: seq<Name>)
    ensures InWordOrder(table, words, Valid(table, words))
    decreases |words|
  {
    if words == [] {
      assert forall n: nat, i :: !FirstWord(table, words, n, i);
    } else {
      var (init, w) := (words[..|words| - 1], words[|words| - 1]);
      assert words == init + [w];
      ValidAre(table, init);
      ValidMore(table, init, w, Valid(table, init), Valid(table, words));
    }
  }

  lemma ValidMore(table: seq<Item>, words: seq<Name>, w: Name, own: seq<nat>, more: seq<nat>)
    requires InWordOrder(table, words, own)
    requires more == match NumOf(table, w) case None => own case Some(num) => if num in own then own else own + [num]
    ensures InWordOrder(table, words + [w], more)
  {
    var all := words + [w];
    forall n: nat ensures n in more <==> exists i :: FirstWord(table, all, n, i) {
      if n in more {
        if i :| FirstWord(table, words, n, i) {
          FirstWordMore(table, words, w, n, i);
        } else {
          NotNamed(table, words, n);
          FirstWordMore(table, words, w, n, |words|);
        }
      }
      if i :| FirstWord(table, all, n, i) {
        FirstWordMore(table, words, w, n, i);
      }
    }
    forall a, b, i, j | 0 <= a < b < |more| && FirstWord(table, all, more[a], i) && FirstWord(table, all, more[b], j)
      ensures i < j
    {
      FirstWordMore(table, words, w, more[a], i);
      FirstWordMore(table, words, w, more[b], j);
      assert more[a] == own[a];
      var k :| FirstWord(table, words, own[a], k);
      FirstWordMore(table, words, w, own[a], k);
    }
  }

  lemma NotNamed(table: seq<Item>, words: seq<Name>, n: nat)
    requires forall i :: !FirstWord(table, words, n, i)
    ensures forall j :: 0 <= j < |words| ==> NumOf(table, words[j]) != Some(n)
  {
    forall j | 0 <= j < |words| ensures NumOf(table, words[j]) != Some(n) {
      if NumOf(table, words[j]) == Some(n) { var _ := HasFirstWord(table, words, j); }
    }
  }

  lemma {:induction false} ValidKnown(table: seq<Item>, tokens: seq<Name>)
    ensures forall n <- Valid(table, tokens) :: Known(table, n)
  {
    if tokens != [] {
      ValidKnown(table, tokens[..|tokens| - 1]);
      if NumOf(table, tokens[|tokens| - 1]).Some? { NumOfKnown(table, tokens[|tokens| - 1]); }
    }
  }

  function Names(table: seq<Item>, own: seq<nat>): seq<Name>
    requires forall n <- own :: Known(table, n)
  {
    if own == [] then [] else
      assert own[|own| - 1] in own;
      Names(table, own[..|own| - 1]) + [MainName(table, own[|own| - 1])]
  }

  /** parse_nni_str on the words of the string: the words to send, and the
      ranks in saw. */
  method ParseWords(table: seq<Item>, saw: array<nat>, words: seq<Name>) returns (toSend: seq<Name>)
    requires saw.Length == SawLen(table) && Ranks(saw[..], [])
    modifies saw
    ensures Ranks(saw[..], Valid(table, words)) && InWordOrder(table, words, Valid(table, words))
    ensures (forall n <- Valid(table, words) :: Known(table, n))
            && toSend == if words != [] && Valid(table, words) == [] then ["INVALID"] else Names(table, Valid(table, words))
  {
    toSend := [];
    var cnt := 0;
    ghost var own: seq<nat> := [];
    for i := 0 to |words|
      invariant own == Valid(table, words[..i]) && cnt == |own| && Ranks(saw[..], own)
      invariant (forall n <- own :: Known(table, n)) && toSend == Names(table, own)
    {
      assert words[..i + 1][..i] == words[..i];
      cnt, toSend, own := ParseWord(table, saw, words[i], cnt, toSend, own);
    }
    assert words[..|words|] == words;
    ValidAre(table, words);
    if words != [] && toSend == [] {
      toSend := ["INVALID"];
    }
  }

  /** One word of the string. */
  method ParseWord(table: seq<Item>, saw: array<nat>, word: Name, cnt: nat, toSend: seq<Name>, ghost own: seq<nat>)
    returns (cnt': nat, toSend': seq<Name>, ghost own': seq<nat>)
    requires saw.Length == SawLen(table) && Ranks(saw[..], own) && cnt == |own|
    requires (forall n <- own :: Known(table, n)) && toSend == Names(table, own)
    modifies saw
    ensures own' == match NumOf(table, word) case None => own case Some(num) => if num in own then own else own + [num]
    ensures Ranks(saw[..], own') && cnt' == |own'| && (forall n <- own' :: Known(table, n)) && toSend' == Names(table, own')
  {
    cnt', toSend', own' := cnt, toSend, own;
    var num := NumOf(table, word);
    if num.Some? {
      NumOfKnown(table, word);
      if saw[num.value] == 0 {
        cnt' := cnt + 1;
        RanksAppend(saw[..], own, num.value);
        saw[num.value] := cnt';
        toSend' := toSend + [MainName(table, num.value)];
        own' := own + [num.value];
        assert own'[..|own|] == own;
      }
    }
  }

  // ----- picking -----

  predicate Acceptable(saw: seq<nat>, num: nat) { num < |saw| && 1 <= saw[num] < |saw| }

  /** The acceptable numbers a list names. */
  predicate Offers(table: seq<Item>, saw: seq<nat>, words: seq<Name>, num: nat) {
    exists i :: 0 <= i < |words| && NumOf(table, words[i]) == Some(num) && Acceptable(saw, num)
  }

  /** What each side may pick: the server the first acceptable word it reads,
      the client the one it ranks best. */
  ghost predicate MayPick(table: seq<Item>, saw: seq<nat>, words: seq<Name>, amServer: bool, choice: Option<nat>) {
    match choice
    case None => forall n: nat :: !Offers(table, saw, words, n)
    case Some(x) =>
      && Offers(table, saw, words, x)
      && (amServer ==> exists i :: 0 <= i < |words| && NumOf(table, words[i]) == choice
                                   && forall n: nat :: !Offers(table, saw, words[..i], n))
      && (!amServer ==> forall n: nat :: Offers(table, saw, words, n) ==> saw[x] <= saw[n])
  }

  /** recv_negotiate_str.  best starts at saw_len. */
  method Pick(table: seq<Item>, saw: array<nat>, words: seq<Name>, amServer: bool) returns (choice: Option<nat>)
    requires saw.Length == SawLen(table)
    ensures MayPick(table, saw[..], words, amServer, choice)
  {
    choice := None;
    var best := saw.Length;
    for i := 0 to |words|
      invariant choice.None? ==> best == saw.Length && forall n: nat :: !Offers(table, saw[..], words[..i], n)
      invariant choice.Some? ==> Offers(table, saw[..], words[..i], choice.value) && best == saw[choice.value] && !amServer
      invariant choice.Some? ==> forall n: nat :: Offers(table, saw[..], words[..i], n) ==> best <= saw[n]
    {
      var num := NumOf(table, words[i]);
      OffersMore(table, saw[..], words, i);
      if num.Some? {
        NumOfKnown(table, words[i]);
      }
      if num.None? || saw[num.value] == 0 || best <= saw[num.value] {
        continue;
      }
      choice := num;
      best := saw[num.value];
      if best == 1 || amServer {
        return;
      }
    }
    assert words[..|words|] == words;
  }

  lemma OffersMore(table: seq<Item>, saw: seq<nat>, words: seq<Name>, i: nat)
    requires i < |words|
    ensures forall n: nat ::
      (Offers(table, saw, words[..i + 1], n)
       <==> Offers(table, saw, words[..i], n) || (NumOf(table, words[i]) == Some(n) && Acceptable(saw, n)))
  {
  }

  // ----- both sides -----

  /** Two builds of the program: tables may differ in what they hold, not in
      what a name or number means. */
  ghost predicate Compatible(a: seq<Item>, b: seq<Item>) {
    && DistinctNames(a) && DistinctNames(b)
    && (forall name :: NumOf(a, name).Some? && NumOf(b, name).Some? ==> NumOf(a, name) == NumOf(b, name))
    && (forall n: nat :: Known(a, n) && Known(b, n) ==> MainName(a, n) == MainName(b, n))
  }

  predicate AllKnown(table: seq<Item>, own: seq<nat>) { forall n <- own :: Known(table, n) }

  lemma {:induction false} NamesAt(table: seq<Item>, own: seq<nat>, i: nat)
    requires AllKnown(table, own) && i < |own|
    ensures |Names(table, own)| == |own| && own[i] in own && Names(table, own)[i] == MainName(table, own[i])
  {
    assert own[i] in own;
    NamesLength(table, own);
    if i < |own| - 1 { NamesAt(table, own[..|own| - 1], i); }
  }

  lemma {:induction false} NamesLength(table: seq<Item>, own: seq<nat>)
    requires AllKnown(table, own)
    ensures |Names(table, own)| == |own|
  {
    if own != [] { NamesLength(table, own[..|own| - 1]); }
  }

  /** The other side reads a sent name as its number, or does not know it; a
      number on its own list it does know. */
  lemma ReadBack(mine: seq<Item>, theirs: seq<Item>, own: seq<nat>, i: nat)
    requires Compatible(mine, theirs) && AllKnown(mine, own) && i < |own|
    ensures |Names(mine, own)| == |own|
    ensures NumOf(theirs, Names(mine, own)[i]) in {None, Some(own[i])}
    ensures Known(theirs, own[i]) ==> NumOf(theirs, Names(mine, own)[i]) == Some(own[i])
  {
    NamesAt(mine, own, i);
    MainNameRoundTrip(mine, own[i]);
    if Known(theirs, own[i]) { MainNameRoundTrip(theirs, own[i]); }
  }

  /** What the reader of a list can choose from: the numbers on both lists that
      it ranks below its saw_len. */
  lemma OffersAre(mine: seq<Item>, theirs: seq<Item>, sent: seq<nat>, own: seq<nat>, saw: seq<nat>, k: nat, n: nat)
    requires Compatible(mine, theirs) && AllKnown(theirs, sent) && AllKnown(mine, own) && Ranks(saw, own) && k <= |sent|
    ensures |Names(theirs, sent)| == |sent|
    ensures Offers(mine, saw, Names(theirs, sent)[..k], n) <==> n in sent[..k] && 1 <= Rank(own, n) < |saw|
  {
    NamesLength(theirs, sent);
    var words := Names(theirs, sent)[..k];
    assert Compatible(theirs, mine);
    if Offers(mine, saw, words, n) {
      var i :| 0 <= i < |words| && NumOf(mine, words[i]) == Some(n) && Acceptable(saw, n);
      ReadBack(theirs, mine, sent, i);
      assert sent[..k][i] == n;
    }
    if n in sent[..k] && 1 <= Rank(own, n) < |saw| {
      var i :| 0 <= i < k && sent[i] == n;
      ReadBack(theirs, mine, sent, i);
      assert own[Rank(own, n) - 1] == n && n in own;
      assert NumOf(mine, words[i]) == Some(n) && Acceptable(saw, n);
    }
  }

  /** The first name of the client's list that the server also lists. */
  function FirstCommon(c: seq<nat>, s: seq<nat>): (x: Option<nat>)
    ensures x.None? ==> forall n <- c :: n !in s
    ensures x.Some? ==> x.value in c && x.value in s
  {
    if c == [] then None else if c[0] in s then Some(c[0]) else FirstCommon(c[1..], s)
  }

  lemma {:induction false} FirstCommonIsFirst(c: seq<nat>, s: seq<nat>, n: nat)
    requires Distinct(c) && FirstCommon(c, s).Some? && n in c && n in s
    ensures Rank(c, FirstCommon(c, s).value) <= Rank(c, n)
    ensures Rank(c, FirstCommon(c, s).value) == Rank(c, n) ==> n == FirstCommon(c, s).value
  {
    var x := FirstCommon(c, s).value;
    if c[0] in s {
      RankAt(c, 0);
    } else {
      assert n in c[1..];
      FirstCommonIsFirst(c[1..], s, n);
      RankTail(c, x);
      RankTail(c, n);
    }
  }

  lemma RankTail(c: seq<nat>, n: nat)
    requires Distinct(c) && c != [] && n in c[1..]
    ensures Rank(c, n) == Rank(c[1..], n) + 1
  {
    var i := Rank(c[1..], n) - 1;
    assert c[i + 1] == n;
    RankAt(c, i + 1);
  }

  /** Everything the two sides start from: compatible tables, lists of known
      numbers, and the ranks. */
  ghost predicate Setup(tc: seq<Item>, ts: seq<Item>, c: seq<nat>, s: seq<nat>, sawC: seq<nat>, sawS: seq<nat>) {
    && Compatible(tc, ts) && Compatible(ts, tc) && AllKnown(tc, c) && AllKnown(ts, s) && Ranks(sawC, c) && Ranks(sawS, s)
  }

  /** The client, minimising over the server's list, finds the first common
      name if it ranks it below saw_len, and otherwise nothing. */
  lemma ClientFinds(tc: seq<Item>, ts: seq<Item>, c: seq<nat>, s: seq<nat>, sawC: seq<nat>, sawS: seq<nat>, choice: Option<nat>)
    requires Setup(tc, ts, c, s, sawC, sawS) && MayPick(tc, sawC, Names(ts, s), false, choice)
    ensures choice == (match FirstCommon(c, s)
                       case None => None
                       case Some(x) => if Rank(c, x) < |sawC| then Some(x) else None)
  {
    NamesLength(ts, s);
    var words := Names(ts, s);
    assert words[..|s|] == words && s[..|s|] == s;
    if choice.Some? {
      OffersAre(tc, ts, s, c, sawC, |s|, choice.value);
      FirstCommonIsFirst(c, s, choice.value);
    }
    if FirstCommon(c, s).Some? {
      OffersAre(tc, ts, s, c, sawC, |s|, FirstCommon(c, s).value);
    }
  }

  /** The server, scanning the client's list, finds the first name of it that
      it ranks below its own saw_len. */
  lemma ServerFinds(tc: seq<Item>, ts: seq<Item>, c: seq<nat>, s: seq<nat>, sawC: seq<nat>, sawS: seq<nat>, choice: Option<nat>)
    requires Setup(tc, ts, c, s, sawC, sawS) && MayPick(ts, sawS, Names(tc, c), true, choice)
    ensures FirstCommon(c, s).Some? && Rank(s, FirstCommon(c, s).value) < |sawS| ==> choice == FirstCommon(c, s)
    ensures choice.Some? ==> choice.value in c && 1 <= Rank(s, choice.value) < |sawS|
  {
    NamesLength(tc, c);
    var words := Names(tc, c);
    assert words[..|c|] == words && c[..|c|] == c;
    if choice.Some? { OffersAre(ts, tc, c, s, sawS, |c|, choice.value); }
    if FirstCommon(c, s).Some? && Rank(s, FirstCommon(c, s).value) < |sawS| {
      var x := FirstCommon(c, s).value;
      OffersAre(ts, tc, c, s, sawS, |c|, x);
      var i :| 0 <= i < |words| && NumOf(ts, words[i]) == choice && forall n: nat :: !Offers(ts, sawS, words[..i], n);
      ReadBack(tc, ts, c, i);
      OffersAre(ts, tc, c, s, sawS, i, x);
      FirstCommonIsFirst(c, s, choice.value);
      RankAt(c, i);
      NotBefore(c, i, x);
    }
  }

  lemma NotBefore(c: seq<nat>, i: nat, x: nat)
    requires i <= |c| && x in c && x !in c[..i]
    ensures Rank(c, x) > i
  {
    assert forall k :: 0 <= k < i ==> c[k] in c[..i];
  }

  /** Both sides finish with the same choice exactly when the first common name
      is ranked below saw_len by both; then it is that name. */
  lemma Agreement(tc: seq<Item>, ts: seq<Item>, c: seq<nat>, s: seq<nat>, sawC: seq<nat>, sawS: seq<nat>,
                  client: Option<nat>, server: Option<nat>)
    requires Setup(tc, ts, c, s, sawC, sawS)
    requires MayPick(tc, sawC, Names(ts, s), false, client) && MayPick(ts, sawS, Names(tc, c), true, server)
    ensures client.Some? && client == server <==>
      FirstCommon(c, s).Some? && Rank(c, FirstCommon(c, s).value) < |sawC| && Rank(s, FirstCommon(c, s).value) < |sawS|
    ensures client.Some? && client == server ==> client == FirstCommon(c, s)
  {
    ClientFinds(tc, ts, c, s, sawC, sawS, client);
    ServerFinds(tc, ts, c, s, sawC, sawS, server);
  }

  // ----- when a rank reaches saw_len -----

  function Below(n: nat): (s: set<nat>)
    ensures |s| == n && forall k: nat :: k in s <==> k < n
  {
    if n == 0 then {} else Below(n - 1) + {n - 1}
  }

  function Elements(own: seq<nat>): (s: set<nat>)
    ensures forall n :: n in s <==> n in own
  {
    set n | n in own
  }

  lemma {:induction false} DistinctCount(own: seq<nat>)
    requires Distinct(own)
    ensures |Elements(own)| == |own|
  {
    if own != [] {
      var rest := own[..|own| - 1];
      DistinctCount(rest);
      assert own == rest + [own[|own| - 1]];
      assert Elements(own) == Elements(rest) + {own[|own| - 1]};
    }
  }

  /** A rank is at most saw_len, and only the last name of a list of all the
      numbers there are has it. */
  lemma RankBound(saw: seq<nat>, own: seq<nat>, n: nat)
    requires Ranks(saw, own) && n in own
    ensures Rank(own, n) <= |own| <= |saw|
    ensures Rank(own, n) == |saw| ==> n == own[|own| - 1] && forall k: nat :: k < |saw| ==> k in own
  {
    DistinctCount(own);
    SmallNumbers(own, |saw|);
  }

  lemma SmallNumbers(own: seq<nat>, m: nat)
    requires forall i :: 0 <= i < |own| ==> own[i] < m
    ensures |Elements(own)| <= m && (|Elements(own)| == m ==> forall k: nat :: k < m ==> k in own)
  {
    forall n | n in Elements(own) ensures n in Below(m) {
      var i :| 0 <= i < |own| && own[i] == n;
    }
    Subset(Elements(own), Below(m));
  }

  lemma {:induction false} Subset(a: set<nat>, b: set<nat>)
    requires a <= b
    ensures |a| <= |b| && (|a| == |b| ==> a == b)
  {
    if a != {} {
      var x :| x in a;
      Subset(a - {x}, b - {x});
      assert a == a - {x} + {x} && b == b - {x} + {x};
    }
  }

  // ----- the default list -----

  /** A row that repeats an earlier number. */
  predicate Alias(table: seq<Item>, i: nat)
    requires i < |table|
  {
    exists j :: 0 <= j < i && table[j].num == table[i].num
  }

  /** The numbers of the first i rows; the client leaves "none" out. */
  function Defaults(table: seq<Item>, i: nat, amServer: bool): (own: seq<nat>)
    requires i <= |table|
    ensures forall n <- own :: exists j :: 0 <= j < i && table[j].num == n
  {
    if i == 0 then [] else
      var before := Defaults(table, i - 1, amServer);
      if Alias(table, i - 1) || (table[i - 1].num == 0 && !amServer) then before else before + [table[i - 1].num]
  }

  /** The first row with this number. */
  predicate FirstWith(table: seq<Item>, num: nat, i: nat) {
    i < |table| && table[i].num == num && forall j :: 0 <= j < i ==> table[j].num != num
  }

  /** What is on the default list: every number of the table once, in the order
      of their first rows, but 0 ("none") on the server only. */
  ghost predicate InTableOrder(table: seq<Item>, upto: nat, amServer: bool, own: seq<nat>)
    requires upto <= |table|
  {
    && Distinct(own)
    && (forall n: nat :: n in own <==> (amServer || n != 0) && exists i: nat :: i < upto && FirstWith(table, n, i))
    && forall a, b, i: nat, j: nat :: 0 <= a < b < |own| && FirstWith(table, own[a], i) && FirstWith(table, own[b], j) ==> i < j
  }

  lemma {:induction false} DefaultsAre(table: seq<Item>, upto: nat, amServer: bool)
    requires upto <= |table|
    ensures InTableOrder(table, upto, amServer, Defaults(table, upto, amServer))
    decreases upto
  {
    if upto > 0 {
      DefaultsAre(table, upto - 1, amServer);
      DefaultsNext(table, upto - 1, amServer, Defaults(table, upto - 1, amServer), Defaults(table, upto, amServer));
    }
  }

  lemma OneFirst(table: seq<Item>, num: nat, i: nat, j: nat)
    requires FirstWith(table, num, i) && FirstWith(table, num, j)
    ensures i == j
  {
  }

  lemma DefaultsNext(table: seq<Item>, i: nat, amServer: bool, own: seq<nat>, more: seq<nat>)
    requires i < |table| && InTableOrder(table, i, amServer, own)
    requires more == if !FirstWith(table, table[i].num, i) || (table[i].num == 0 && !amServer) then own else own + [table[i].num]
    ensures InTableOrder(table, i + 1, amServer, more)
  {
    forall n: nat ensures n in more <==> (amServer || n != 0) && exists k: nat :: k < i + 1 && FirstWith(table, n, k) {
      if k: nat :| k < i + 1 && FirstWith(table, n, k) {
        assert k < i || n == table[i].num;
      }
      if n in own {
        var k: nat :| k < i && FirstWith(table, n, k);
      } else if n in more {
        assert FirstWith(table, n, i);
      }
    }
    forall a, b, k: nat, l: nat | 0 <= a < b < |more| && FirstWith(table, more[a], k) && FirstWith(table, more[b], l) ensures k < l {
      assert more[a] == own[a] && own[a] in own;
      var k': nat :| k' < i && FirstWith(table, own[a], k');
      OneFirst(table, own[a], k, k');
    }
  }

  /** The client never offers "none" unasked. */
  lemma NoneOnlyOnServer(table: seq<Item>, amServer: bool)
    ensures 0 in Defaults(table, |table|, amServer) <==> amServer && Known(table, 0)
  {
    DefaultsAre(table, |table|, amServer);
    if Known(table, 0) { var _ := RowOf(table, 0); }
  }

  lemma {:induction false} RowOf(table: seq<Item>, num: nat) returns (i: nat)
    requires Known(table, num)
    ensures FirstWith(table, num, i)
  {
    if table[0].num == num {
      i := 0;
    } else {
      var k :| 0 <= k < |table| && table[k].num == num;
      assert table[1..][k - 1].num == num;
      var j := RowOf(table[1..], num);
      i := j + 1;
      forall l | 0 <= l < i ensures table[l].num != num {
        if l > 0 { assert table[1..][l - 1] == table[l]; }
      }
    }
  }

  /** get_default_nno_list without markup. */
  method DefaultList(table: seq<Item>, saw: array<nat>, amServer: bool) returns (toSend: seq<Name>)
    requires saw.Length == SawLen(table) && Ranks(saw[..], []) && DistinctNames(table)
    modifies saw
    ensures Ranks(saw[..], Defaults(table, |table|, amServer))
    ensures AllKnown(table, Defaults(table, |table|, amServer))
            && toSend == Names(table, Defaults(table, |table|, amServer))
    ensures InTableOrder(table, |table|, amServer, Defaults(table, |table|, amServer))
  {
    DefaultsAre(table, |table|, amServer);
    toSend := [];
    var cnt := 0;
    ghost var own: seq<nat> := [];
    for i := 0 to |table|
      invariant own == Defaults(table, i, amServer) && Ranks(saw[..], own) && cnt == |own|
      invariant AllKnown(table, own) && toSend == Names(table, own)
    {
      cnt, toSend := AddRow(table, saw, i, amServer, cnt, toSend);
      own := Defaults(table, i + 1, amServer);
    }
  }

  /** One row of the table. */
  method AddRow(table: seq<Item>, saw: array<nat>, i: nat, amServer: bool, cnt: nat, toSend: seq<Name>)
    returns (cnt': nat, toSend': seq<Name>)
    requires i < |table| && saw.Length == SawLen(table) && cnt == |Defaults(table, i, amServer)|
    requires var own := Defaults(table, i, amServer); Ranks(saw[..], own) && AllKnown(table, own) && toSend == Names(table, own)
    modifies saw
    ensures var more := Defaults(table, i + 1, amServer);
      && Ranks(saw[..], more) && AllKnown(table, more) && toSend' == Names(table, more) && cnt' == |more|
  {
    cnt', toSend' := cnt, toSend;
    if !Alias(table, i) && (table[i].num != 0 || amServer) {
      DefaultsMore(table, i, amServer, saw[..]);
      cnt' := cnt + 1;
      saw[table[i].num] := cnt';
      toSend' := toSend + [table[i].name];
    }
  }

  lemma DefaultsMore(table: seq<Item>, i: nat, amServer: bool, saw: seq<nat>)
    requires i < |table| && !Alias(table, i) && (table[i].num != 0 || amServer) && |saw| == SawLen(table)
    requires var own := Defaults(table, i, amServer); Ranks(saw, own) && AllKnown(table, own)
    ensures var (num, own, more) := (table[i].num, Defaults(table, i, amServer), Defaults(table, i + 1, amServer));
      && Ranks(saw[num := |own| + 1], more) && |more| == |own| + 1
      && AllKnown(table, more) && Names(table, more) == Names(table, own) + [table[i].name]
  {
    var (num, own) := (table[i].num, Defaults(table, i, amServer));
    assert num !in own;
    RanksAppend(saw, own, num);
    FirstRow(table, i);
    assert (own + [num])[..|own|] == own;
  }

  lemma {:induction false} FirstRow(table: seq<Item>, i: nat)
    requires i < |table| && !Alias(table, i)
    ensures Known(table, table[i].num) && MainName(table, table[i].num) == table[i].name
    decreases i
  {
    if i > 0 {
      assert !Alias(table[1..], i - 1) by {
        assert forall j :: 0 <= j < i - 1 ==> table[1..][j] == table[j + 1];
      }
      FirstRow(table[1..], i - 1);
    }
  }

  // ----- a real disagreement -----

  /** The compression table of a build without zstd and lz4. */
  function PlainTable(): seq<Item> { [Item(2, "zlibx"), Item(1, "zlib"), Item(0, "none")] }

  lemma CompatibleSelf(t: seq<Item>)
    requires DistinctNames(t)
    ensures Compatible(t, t)
  {
  }

  /** The ranks of a list of three, or two, of the numbers 0, 1 and 2. */
  lemma RanksOf(saw: seq<nat>, own: seq<nat>)
    requires Distinct(own) && |saw| == 3 && forall i :: 0 <= i < |own| ==> own[i] < 3 && saw[own[i]] == i + 1
    requires forall n :: 0 <= n < 3 && n !in own ==> saw[n] == 0
    ensures Ranks(saw, own)
  {
    forall n | 0 <= n < 3 ensures saw[n] == Rank(own, n) {
      if n in own { RankAt(own, Rank(own, n) - 1); }
    }
  }

  lemma PlainLists()
    ensures Valid(PlainTable(), ["none", "zlib"]) == [0, 1] && Defaults(PlainTable(), 3, true) == [2, 1, 0]
  {
    var t := PlainTable();
    assert ["none", "zlib"][..1] == ["none"] && ["none"][..0] == [];
    assert NumOf(t, "none") == Some(0) && NumOf(t, "zlib") == Some(1);
    assert Valid(t, ["none"]) == [0];
    assert Defaults(t, 1, true) == [2];
    assert Defaults(t, 2, true) == [2, 1];
  }

  lemma PlainSetup()
    ensures var t := PlainTable(); Setup(t, t, [0, 1], [2, 1, 0], [1, 2, 0], [3, 2, 1])
    ensures Valid(PlainTable(), ["none", "zlib"]) == [0, 1] && Defaults(PlainTable(), 3, true) == [2, 1, 0]
  {
    var t := PlainTable();
    PlainLists();
    assert t[0].num == 2 && t[1].num == 1 && t[2].num == 0;
    CompatibleSelf(t);
    RanksOf([1, 2, 0], [0, 1]);
    RanksOf([3, 2, 1], [2, 1, 0]);
  }

  /** When only the server ranks the first common name at saw_len, the client
      takes it and the server takes something else. */
  lemma Disagreement(tc: seq<Item>, ts: seq<Item>, c: seq<nat>, s: seq<nat>, sawC: seq<nat>, sawS: seq<nat>,
                     client: Option<nat>, server: Option<nat>, y: nat)
    requires Setup(tc, ts, c, s, sawC, sawS) && FirstCommon(c, s).Some?
    requires MayPick(tc, sawC, Names(ts, s), false, client) && MayPick(ts, sawS, Names(tc, c), true, server)
    requires Rank(c, FirstCommon(c, s).value) < |sawC| && Rank(s, FirstCommon(c, s).value) >= |sawS|
    requires y in c && 1 <= Rank(s, y) < |sawS|
    ensures client == FirstCommon(c, s) && server.Some? && server != client && server.value in c
  {
    ClientFinds(tc, ts, c, s, sawC, sawS, client);
    ServerFinds(tc, ts, c, s, sawC, sawS, server);
    OffersAre(ts, tc, c, s, sawS, |c|, y);
    assert Names(tc, c)[..|c|] == Names(tc, c) && c[..|c|] == c;
  }

  /** A client that prefers no compression, against such a server's default
      list: the client takes "none" and the server takes "zlib". */
  lemma DisagreementHappens(client: Option<nat>, server: Option<nat>)
    requires AllKnown(PlainTable(), [2, 1, 0]) && MayPick(PlainTable(), [1, 2, 0], Names(PlainTable(), [2, 1, 0]), false, client)
    requires AllKnown(PlainTable(), [0, 1]) && MayPick(PlainTable(), [3, 2, 1], Names(PlainTable(), [0, 1]), true, server)
    ensures client == Some(0) && server == Some(1)
  {
    PlainSetup();
    Disagreement(PlainTable(), PlainTable(), [0, 1], [2, 1, 0], [1, 2, 0], [3, 2, 1], client, server, 1);
  }

  // ----- the whole exchange -----

  /** The list a side ends up with. */
  function OwnList(table: seq<Item>, words: seq<Name>, amServer: bool): seq<nat> {
    if words == [] then Defaults(table, |table|, amServer) else Valid(table, words)
  }

  /** send_negotiate_str. */
  method SendList(table: seq<Item>, words: seq<Name>, amServer: bool) returns (saw: array<nat>, toSend: seq<Name>)
    requires DistinctNames(table)
    ensures fresh(saw) && saw.Length == SawLen(table) && Ranks(saw[..], OwnList(table, words, amServer))
    ensures AllKnown(table, OwnList(table, words, amServer))
    ensures toSend == Names(table, OwnList(table, words, amServer)) || (toSend == ["INVALID"] && OwnList(table, words, amServer) == [])
  {
    saw := InitSaw(table);
    if words != [] {
      toSend := ParseWords(table, saw, words);
    } else {
      toSend := DefaultList(table, saw, amServer);
    }
  }

  /** "INVALID" offers nothing. */
  lemma InvalidIsEmpty(table: seq<Item>, saw: seq<nat>, words: seq<Name>, amServer: bool, choice: Option<nat>, own: seq<nat>, other: seq<Item>)
    requires NumOf(table, "INVALID").None? && AllKnown(other, own)
    requires words == Names(other, own) || (words == ["INVALID"] && own == [])
    requires MayPick(table, saw, words, amServer, choice)
    ensures MayPick(table, saw, Names(other, own), amServer, choice)
  {
    if words != Names(other, own) {
      assert forall n: nat :: !Offers(table, saw, words, n);
      assert forall n: nat :: !Offers(table, saw, [], n);
    }
  }

  /** negotiate_the_strings on both ends: they agree exactly when the first
      name of the client's list that the server also lists is not ranked at
      saw_len by either. */
  method Negotiation(tc: seq<Item>, ts: seq<Item>, wordsC: seq<Name>, wordsS: seq<Name>) returns (client: Option<nat>, server: Option<nat>)
    requires Compatible(tc, ts) && Compatible(ts, tc) && NumOf(tc, "INVALID").None? && NumOf(ts, "INVALID").None?
    ensures var (c, s) := (OwnList(tc, wordsC, false), OwnList(ts, wordsS, true)); var x := FirstCommon(c, s);
      && (client.Some? && client == server <==> x.Some? && Rank(c, x.value) < SawLen(tc) && Rank(s, x.value) < SawLen(ts))
      && (client.Some? && client == server ==> client == x)
      && (client.Some? ==> client.value in c && client.value in s) && (server.Some? ==> server.value in c && server.value in s)
    ensures wordsC == [] ==> client != Some(0) && server != Some(0)
  {
    ghost var (c, s) := (OwnList(tc, wordsC, false), OwnList(ts, wordsS, true));
    var sawC, fromC := SendList(tc, wordsC, false);
    var sawS, fromS := SendList(ts, wordsS, true);
    client := Pick(tc, sawC, fromS, false);
    server := Pick(ts, sawS, fromC, true);
    InvalidIsEmpty(tc, sawC[..], fromS, false, client, s, ts);
    InvalidIsEmpty(ts, sawS[..], fromC, true, server, c, tc);
    Agreement(tc, ts, c, s, sawC[..], sawS[..], client, server);
    ClientFinds(tc, ts, c, s, sawC[..], sawS[..], client);
    ServerFinds(tc, ts, c, s, sawC[..], sawS[..], server);
    NoneOnlyOnServer(tc, false);
  }
}

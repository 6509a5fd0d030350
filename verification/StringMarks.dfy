/** The marks of strings during a collection, and what each operation on the string table keeps. */
module StringMarks {
  import opened Numbers
  import opened Lists
  import opened Strings

  const MINSTRTABSIZE := 32

  datatype Phase = Pause | Propagate | SweepString | Sweep

  /** Bucket `b` has been swept. */
  ghost predicate Clean(str: map<nat, TString>, list: seq<nat>, kind: bool) {
    forall u :: u in list ==> u in str && str[u].mark == White(kind)
  }

  /** Outside the sweep of strings there are no dead ones, and before a new cycle no marked ones either. */
  ghost predicate MarksOk(str: map<nat, TString>, chains: seq<seq<nat>>, phase: Phase, kind: bool, sweepstrgc: nat) {
    match phase
    case SweepString => sweepstrgc < |chains| && forall b :: 0 <= b < sweepstrgc ==> Clean(str, chains[b], kind)
    case Propagate => forall u :: u in str ==> str[u].mark != White(!kind)
    case _ => forall u :: u in str ==> str[u].mark == White(kind)
  }

  ghost predicate Good(str: map<nat, TString>, hash: seq<int>, chains: seq<seq<nat>>, nuse: nat) {
    Buckets(str, hash, chains, str.Keys) && Distinct(str) && nuse == |str|
  }

  /** What the program holds: addresses with the texts that it asked for.  They are not dead. */
  ghost predicate HeldOk(str: map<nat, TString>, held: map<nat, Text>, kind: bool) {
    forall u :: u in held ==> u in str && str[u].text == held[u] && (str[u].mark != White(!kind) || str[u].fixed)
  }

  function Revived(str: map<nat, TString>, u: nat, kind: bool): map<nat, TString>
    requires u in str
  {
    if str[u].mark == White(!kind) then str[u := str[u].(mark := White(kind))] else str
  }

  lemma RevivedOk(str: map<nat, TString>, hash: seq<int>, chains: seq<seq<nat>>, nuse: nat, phase: Phase, kind: bool, sweepstrgc: nat, u: nat)
    requires Good(str, hash, chains, nuse) && MarksOk(str, chains, phase, kind, sweepstrgc) && u in str
    ensures Good(Revived(str, u, kind), hash, chains, nuse) && MarksOk(Revived(str, u, kind), chains, phase, kind, sweepstrgc)
  {
    if str[u].mark == White(!kind) {
      RemarkGood(str, hash, chains, nuse, u, White(kind));
      RemarkMarks(str, chains, phase, kind, sweepstrgc, u);
    }
  }

  lemma RevivedIs(str: map<nat, TString>, u: nat, kind: bool)
    requires u in str
    ensures var str' := Revived(str, u, kind);
      Grown(str, str', u) && str'.Keys == str.Keys && str'[u].text == str[u].text && str'[u].mark != White(!kind)
  {
  }

  lemma LinkedOk(str: map<nat, TString>, hash: seq<int>, chains: seq<seq<nat>>, nuse: nat, phase: Phase, kind: bool, sweepstrgc: nat,
                 u: nat, s: Text, h: nat)
    requires Good(str, hash, chains, nuse) && MarksOk(str, chains, phase, kind, sweepstrgc)
    requires u !in str && h == Hash(s) && forall x :: x in str ==> str[x].text != s
    ensures var b := Lmod(h, |hash|); var str', chains' := str[u := TString(s, h, hash[b], White(kind), false)], chains[b := [u] + chains[b]];
      Good(str', hash[b := u], chains', nuse + 1) && MarksOk(str', chains', phase, kind, sweepstrgc)
  {
    var b := Lmod(h, |hash|);
    var t := TString(s, h, hash[b], White(kind), false);
    LinkedGood(str, hash, chains, nuse, u, b, t);
    MarksMore(str, str[u := t], chains, phase, kind, sweepstrgc, u, b);
  }

  lemma LinkedGood(str: map<nat, TString>, hash: seq<int>, chains: seq<seq<nat>>, nuse: nat, u: nat, b: nat, t: TString)
    requires Good(str, hash, chains, nuse) && u !in str && Hashed(t) && b == Lmod(t.hash, |hash|) && t.next == hash[b]
    requires forall x :: x in str ==> str[x].text != t.text
    ensures Good(str[u := t], hash[b := u], chains[b := [u] + chains[b]], nuse + 1)
  {
    LinkedBuckets(str, hash, chains, u, b, t);
    LinkedDistinct(str, u, t);
  }

  lemma LinkedDistinct(str: map<nat, TString>, u: nat, t: TString)
    requires Distinct(str) && u !in str && Hashed(t) && forall x :: x in str ==> str[x].text != t.text
    ensures Distinct(str[u := t]) && |str[u := t]| == |str| + 1
  {
    DistinctMore(str, str[u := t], u);
    assert str[u := t].Keys == str.Keys + {u};
  }

  lemma LinkedBuckets(str: map<nat, TString>, hash: seq<int>, chains: seq<seq<nat>>, u: nat, b: nat, t: TString)
    requires Buckets(str, hash, chains, str.Keys) && u !in str && b == Lmod(t.hash, |hash|) && t.next == hash[b]
    ensures Buckets(str[u := t], hash[b := u], chains[b := [u] + chains[b]], str[u := t].Keys)
  {
    Push(str, str[u := t], hash, chains, str.Keys, u, b);
    assert str[u := t].Keys == str.Keys + {u};
  }

  lemma StillGrown(before: map<nat, TString>, str: map<nat, TString>, u: nat, t: TString)
    requires u !in before && Relinked(before[u := t], str)
    ensures Grown(before, str, u) && str[u].text == t.text && str[u].mark == t.mark
  {
  }

  lemma DistinctMore(str: map<nat, TString>, str': map<nat, TString>, u: nat)
    requires Distinct(str) && u !in str && u in str' && str' == str[u := str'[u]] && Hashed(str'[u])
    requires forall x :: x in str ==> str[x].text != str'[u].text
    ensures Distinct(str')
  {
    forall x | x in str'
      ensures Hashed(str'[x])
    {
      assert x != u ==> Hashed(str[x]);
    }
  }

  lemma MarksMore(str: map<nat, TString>, str': map<nat, TString>, chains: seq<seq<nat>>, phase: Phase, kind: bool, sweepstrgc: nat, u: nat, b: nat)
    requires MarksOk(str, chains, phase, kind, sweepstrgc) && u !in str && u in str' && str' == str[u := str'[u]] && str'[u].mark == White(kind)
    requires b < |chains|
    ensures MarksOk(str', chains[b := [u] + chains[b]], phase, kind, sweepstrgc)
  {
  }

  lemma RelinkedOk(str: map<nat, TString>, str': map<nat, TString>, phase: Phase, kind: bool, chains: seq<seq<nat>>)
    requires Relinked(str, str') && Distinct(str)
    ensures Distinct(str') && |str'| == |str|
    ensures phase != SweepString && MarksOk(str, [], phase, kind, 0) ==> MarksOk(str', chains, phase, kind, 0)
  {
    DistinctKept(str, str');
    assert |str.Keys| == |str| && |str'.Keys| == |str'|;
  }

  /** No string but `u` differs in anything but links. */
  ghost predicate Grown(str: map<nat, TString>, str': map<nat, TString>, u: nat) {
    str'.Keys == str.Keys + {u} && forall x :: x in str && x != u ==>
      str'[x].text == str[x].text && str'[x].mark == str[x].mark && str'[x].fixed == str[x].fixed
  }

  lemma RemarkMarks(str: map<nat, TString>, chains: seq<seq<nat>>, phase: Phase, kind: bool, sweepstrgc: nat, u: nat)
    requires MarksOk(str, chains, phase, kind, sweepstrgc) && u in str && str[u].mark == White(!kind)
    ensures MarksOk(str[u := str[u].(mark := White(kind))], chains, phase, kind, sweepstrgc)
  {
  }

  lemma RemarkGood(str: map<nat, TString>, hash: seq<int>, chains: seq<seq<nat>>, nuse: nat, u: nat, m: Mark)
    requires Good(str, hash, chains, nuse) && u in str
    ensures Good(str[u := str[u].(mark := m)], hash, chains, nuse)
  {
    var str' := str[u := str[u].(mark := m)];
    BucketsKept(str, str', hash, chains, str.Keys);
    DistinctKept(str, str');
    assert str'.Keys == str.Keys;
  }

  lemma DistinctKept(str: map<nat, TString>, str': map<nat, TString>)
    requires Distinct(str) && str'.Keys <= str.Keys && forall u :: u in str' ==> str'[u].text == str[u].text && str'[u].hash == str[u].hash
    ensures Distinct(str')
  {
    forall u | u in str'
      ensures Hashed(str'[u])
    {
      assert Hashed(str[u]);
    }
  }

  lemma NotThere(str: map<nat, TString>, hash: seq<int>, chains: seq<seq<nat>>, s: Text, h: nat)
    requires Buckets(str, hash, chains, str.Keys) && Distinct(str) && h == Hash(s)
    requires forall x :: x in chains[Lmod(h, |chains|)] ==> x in str && str[x].text != s
    ensures forall x :: x in str ==> str[x].text != s
  {
    forall x | x in str
      ensures str[x].text != s
    {
      assert Hashed(str[x]);
    }
  }

  // ---------- the sweep of a bucket ----------

  /** The sweep frees these: those with the white of the cycle before, but for fixed ones. */
  predicate Dead(t: TString, kind: bool) {
    t.mark == White(!kind) && !t.fixed
  }

  /** Strings are freed only if they are dead; the others keep their texts, and their marks or get the new white. */
  ghost predicate OnlyDead(before: map<nat, TString>, str: map<nat, TString>, kind: bool) {
    && (forall u :: u in str ==> u in before && KeptString(before[u], str[u], kind))
    && (forall u :: u in before && u !in str ==> Dead(before[u], kind))
  }

  predicate KeptString(t: TString, t': TString, kind: bool) {
    t'.text == t.text && t'.hash == t.hash && t'.fixed == t.fixed && (t'.mark == t.mark || (t'.mark == White(kind) && !Dead(t, kind)))
  }

  /** The first `k` strings of the bucket are done. */
  ghost predicate Done(before: map<nat, TString>, str: map<nat, TString>, list: seq<nat>, kind: bool, k: nat) {
    k <= |list| && forall j {:trigger DoneAt(before, str, list, kind, k, j)} :: 0 <= j < |list| ==> DoneAt(before, str, list, kind, k, j)
  }

  predicate DoneAt(before: map<nat, TString>, str: map<nat, TString>, list: seq<nat>, kind: bool, k: nat, j: int) {
    && 0 <= j < |list| && list[j] in str && list[j] in before
    && if j < k then str[list[j]].mark == White(kind) && !Dead(before[list[j]], kind) else str[list[j]].mark == before[list[j]].mark
  }

  ghost predicate Sweeping(before: map<nat, TString>, str: map<nat, TString>, hash: seq<int>, chains: seq<seq<nat>>, nuse: nat, b: nat, kind: bool, k: nat) {
    Good(str, hash, chains, nuse) && b < |chains| && OnlyDead(before, str, kind) && Done(before, str, chains[b], kind, k)
  }

  /** The string is alive. */
  lemma SweepKeep(before: map<nat, TString>, str: map<nat, TString>, hash: seq<int>, chains: seq<seq<nat>>, nuse: nat, b: nat, kind: bool, k: nat)
    requires Sweeping(before, str, hash, chains, nuse, b, kind, k) && k < |chains[b]| && chains[b][k] in str && !Dead(str[chains[b][k]], kind)
    ensures Sweeping(before, str[chains[b][k] := str[chains[b][k]].(mark := White(kind))], hash, chains, nuse, b, kind, k + 1)
  {
    var u := chains[b][k];
    RemarkGood(str, hash, chains, nuse, u, White(kind));
    assert Bucket(str, hash[b], chains[b], b, |chains|);
    KeepDone(before, str, chains[b], kind, k);
  }

  lemma KeepDone(before: map<nat, TString>, str: map<nat, TString>, list: seq<nat>, kind: bool, k: nat)
    requires Done(before, str, list, kind, k) && k < |list| && list[k] in str && !Dead(str[list[k]], kind) && OnlyDead(before, str, kind)
    requires forall i, j {:trigger Differ(list, i, j)} :: 0 <= i < j < |list| ==> Differ(list, i, j)
    ensures var str' := str[list[k] := str[list[k]].(mark := White(kind))];
      Done(before, str', list, kind, k + 1) && OnlyDead(before, str', kind)
  {
    var str' := str[list[k] := str[list[k]].(mark := White(kind))];
    assert DoneAt(before, str, list, kind, k, k);
    forall j {:trigger DoneAt(before, str', list, kind, k + 1, j)} | 0 <= j < |list|
      ensures DoneAt(before, str', list, kind, k + 1, j)
    {
      assert DoneAt(before, str, list, kind, k, j);
      assert j != k ==> if j < k then Differ(list, j, k) else Differ(list, k, j);
    }
  }

  /** What is left when element `k` of the bucket is unlinked and freed. */
  function FreeAt(str: map<nat, TString>, list: seq<nat>, k: nat): map<nat, TString>
    requires k < |list| && list[k] in str && (k > 0 ==> list[k - 1] in str)
  {
    (if k > 0 then str[list[k - 1] := str[list[k - 1]].(next := str[list[k]].next)] else str) - {list[k]}
  }

  function FreeHead(str: map<nat, TString>, hash: seq<int>, b: nat, list: seq<nat>, k: nat): seq<int>
    requires b < |hash| && k < |list| && list[k] in str
  {
    if k > 0 then hash else hash[b := str[list[k]].next]
  }

  lemma FreeErases(str: map<nat, TString>, head: int, list: seq<nat>, b: nat, size: nat, k: nat)
    requires size > 0 && Bucket(str, head, list, b, size) && k < |list|
    ensures list[k] in str && (k > 0 ==> list[k - 1] in str && list[k - 1] != list[k])
    ensures Erased(str, FreeAt(str, list, k), list, k)
  {
    assert NodeAt(str, list, b, size, k);
    assert k > 0 ==> NodeAt(str, list, b, size, k - 1) && Differ(list, k - 1, k);
  }

  lemma FreeGood(str: map<nat, TString>, hash: seq<int>, chains: seq<seq<nat>>, nuse: nat, b: nat, k: nat)
    requires Good(str, hash, chains, nuse) && b < |chains| && k < |chains[b]|
    ensures chains[b][k] in str && (k > 0 ==> chains[b][k - 1] in str && chains[b][k - 1] != chains[b][k]) && nuse > 0
    ensures Good(FreeAt(str, chains[b], k), FreeHead(str, hash, b, chains[b], k), chains[b := Without(chains[b], k)], nuse - 1)
  {
    assert Bucket(str, hash[b], chains[b], b, |chains|);
    FreeErases(str, hash[b], chains[b], b, |chains|, k);
    FreeCount(str, chains[b], k);
    Erase(str, FreeAt(str, chains[b], k), hash, chains, b, k);
  }

  lemma FreeCount(str: map<nat, TString>, list: seq<nat>, k: nat)
    requires Distinct(str) && k < |list| && list[k] in str && (k > 0 ==> list[k - 1] in str)
    ensures Distinct(FreeAt(str, list, k)) && |str| > 0 && |FreeAt(str, list, k)| == |str| - 1
  {
    var str' := FreeAt(str, list, k);
    assert str'.Keys == str.Keys - {list[k]};
    assert |str.Keys| == |str| && |str'.Keys| == |str'|;
    DistinctKept(str, str');
  }

  /** The string is dead. */
  lemma SweepFree(before: map<nat, TString>, str: map<nat, TString>, hash: seq<int>, chains: seq<seq<nat>>, nuse: nat, b: nat, kind: bool, k: nat)
    requires Sweeping(before, str, hash, chains, nuse, b, kind, k) && k < |chains[b]| && chains[b][k] in str && Dead(str[chains[b][k]], kind)
    ensures (k > 0 ==> chains[b][k - 1] in str) && nuse > 0
    ensures Sweeping(before, FreeAt(str, chains[b], k), FreeHead(str, hash, b, chains[b], k), chains[b := Without(chains[b], k)], nuse - 1, b, kind, k)
  {
    assert Bucket(str, hash[b], chains[b], b, |chains|);
    FreeGood(str, hash, chains, nuse, b, k);
    FreeDone(before, str, chains[b], kind, k);
  }

  lemma FreeDone(before: map<nat, TString>, str: map<nat, TString>, list: seq<nat>, kind: bool, k: nat)
    requires Done(before, str, list, kind, k) && OnlyDead(before, str, kind) && k < |list| && list[k] in str && Dead(str[list[k]], kind)
    requires forall i, j {:trigger Differ(list, i, j)} :: 0 <= i < j < |list| ==> Differ(list, i, j)
    requires k > 0 ==> list[k - 1] in str && list[k - 1] != list[k]
    ensures OnlyDead(before, FreeAt(str, list, k), kind) && Done(before, FreeAt(str, list, k), Without(list, k), kind, k)
  {
    var list', str' := Without(list, k), FreeAt(str, list, k);
    assert DoneAt(before, str, list, kind, k, k);
    WithoutAt(list, k, 0);
    forall j | 0 <= j < |list'|
      ensures DoneAt(before, str', list', kind, k, j)
    {
      WithoutAt(list, k, j);
      var i := if j < k then j else j + 1;
      assert DoneAt(before, str, list, kind, k, i) && if i < k then Differ(list, i, k) else Differ(list, k, i);
    }
  }

  /** The parts of the table that a sweep changes. */
  datatype Parts = Parts(str: map<nat, TString>, hash: seq<int>, chains: seq<seq<nat>>, nuse: nat)

  ghost predicate PartsOk(s: Parts, b: nat) {
    Good(s.str, s.hash, s.chains, s.nuse) && b < |s.chains|
  }

  ghost function KeepOne(s: Parts, b: nat, k: nat, kind: bool): Parts
    requires PartsOk(s, b) && k < |s.chains[b]|
  {
    NextSwept(s.str, s.hash, s.chains, s.nuse, b, k);
    var u := s.chains[b][k];
    s.(str := s.str[u := s.str[u].(mark := White(kind))])
  }

  /** An element of a bucket, and the one before it, are strings of the table. */
  lemma FreeFits(s: Parts, b: nat, k: nat)
    requires PartsOk(s, b) && k < |s.chains[b]|
    ensures s.chains[b][k] in s.str && (k > 0 ==> s.chains[b][k - 1] in s.str) && s.nuse > 0 && b < |s.hash| == |s.chains|
  {
    FreeGood(s.str, s.hash, s.chains, s.nuse, b, k);
  }

  ghost function FreeOne(s: Parts, b: nat, k: nat): Parts
    requires PartsOk(s, b) && k < |s.chains[b]|
  {
    FreeGood(s.str, s.hash, s.chains, s.nuse, b, k);
    Parts(FreeAt(s.str, s.chains[b], k), FreeHead(s.str, s.hash, b, s.chains[b], k), s.chains[b := Without(s.chains[b], k)], s.nuse - 1)
  }

  lemma KeepOneOk(s: Parts, b: nat, k: nat, kind: bool)
    requires PartsOk(s, b) && k < |s.chains[b]|
    ensures PartsOk(KeepOne(s, b, k, kind), b) && KeepOne(s, b, k, kind).chains == s.chains
  {
    NextSwept(s.str, s.hash, s.chains, s.nuse, b, k);
    RemarkGood(s.str, s.hash, s.chains, s.nuse, s.chains[b][k], White(kind));
  }

  lemma FreeOneOk(s: Parts, b: nat, k: nat)
    requires PartsOk(s, b) && k < |s.chains[b]|
    ensures PartsOk(FreeOne(s, b, k), b) && FreeOne(s, b, k).chains == s.chains[b := Without(s.chains[b], k)]
  {
    FreeGood(s.str, s.hash, s.chains, s.nuse, b, k);
  }

  predicate DeadAt(str: map<nat, TString>, u: nat, kind: bool) {
    u in str && Dead(str[u], kind)
  }

  /** sweeplist on bucket `b` from element `k` on. */
  ghost function SweepFrom(s: Parts, b: nat, kind: bool, k: nat): Parts
    requires PartsOk(s, b)
    decreases (if b < |s.chains| then |s.chains[b]| else 0) - k
  {
    if k < |s.chains[b]| then
      if DeadAt(s.str, s.chains[b][k], kind) then
        FreeOneOk(s, b, k);
        SweepFrom(FreeOne(s, b, k), b, kind, k)
      else
        KeepOneOk(s, b, k, kind);
        SweepFrom(KeepOne(s, b, k, kind), b, kind, k + 1)
    else s
  }

  /** One turn of the loop. */
  ghost function TurnOf(s: Parts, b: nat, kind: bool, k: nat): (Parts, nat)
    requires PartsOk(s, b) && k < |s.chains[b]|
  {
    if DeadAt(s.str, s.chains[b][k], kind) then (FreeOne(s, b, k), k) else (KeepOne(s, b, k, kind), k + 1)
  }

  lemma SweepTurn(s: Parts, b: nat, kind: bool, k: nat, s': Parts, k': nat)
    requires PartsOk(s, b) && k < |s.chains[b]| && (s', k') == TurnOf(s, b, kind, k)
    ensures PartsOk(s', b) && SweepFrom(s', b, kind, k') == SweepFrom(s, b, kind, k)
  {
    if DeadAt(s.str, s.chains[b][k], kind) {
      FreeOneOk(s, b, k);
    } else {
      KeepOneOk(s, b, k, kind);
    }
  }

  lemma TurnList(s: Parts, b: nat, kind: bool, k: nat, s': Parts, k': nat)
    requires PartsOk(s, b) && k < |s.chains[b]| && (s', k') == TurnOf(s, b, kind, k)
    ensures |s'.chains| == |s.chains| && (forall c :: 0 <= c < |s.chains| && c != b ==> s'.chains[c] == s.chains[c])
    ensures |s'.chains[b]| - k' == |s.chains[b]| - k - 1
    ensures Nth(s'.chains[b], k') == Nth(s.chains[b], k + 1) && Nth(s'.chains[b], k' - 1) == if k' == k then Nth(s.chains[b], k - 1) else s.chains[b][k]
  {
    WithoutAt(s.chains[b], k, k);
    WithoutAt(s.chains[b], k, k - 1);
  }

  /** What the whole sweep of a bucket does. */
  lemma {:induction false} SweepFromOk(before: map<nat, TString>, chains0: seq<seq<nat>>, s: Parts, b: nat, kind: bool, k: nat)
    requires PartsOk(s, b) && Sweeping(before, s.str, s.hash, s.chains, s.nuse, b, kind, k)
    requires |s.chains| == |chains0| && forall c :: 0 <= c < |chains0| && c != b ==> s.chains[c] == chains0[c]
    ensures var s' := SweepFrom(s, b, kind, k);
      && |s'.chains| == |chains0| && Sweeping(before, s'.str, s'.hash, s'.chains, s'.nuse, b, kind, |s'.chains[b]|)
      && forall c :: 0 <= c < |chains0| && c != b ==> s'.chains[c] == chains0[c]
    decreases |s.chains[b]| - k
  {
    if k < |s.chains[b]| {
      var (s1, k1) := TurnOf(s, b, kind, k);
      SweepTurn(s, b, kind, k, s1, k1);
      TurnList(s, b, kind, k, s1, k1);
      SweepTurnOk(before, s, b, kind, k, s1, k1);
      SweepFromOk(before, chains0, s1, b, kind, k1);
    }
  }

  lemma SweepTurnOk(before: map<nat, TString>, s: Parts, b: nat, kind: bool, k: nat, s': Parts, k': nat)
    requires PartsOk(s, b) && k < |s.chains[b]| && (s', k') == TurnOf(s, b, kind, k)
    requires Sweeping(before, s.str, s.hash, s.chains, s.nuse, b, kind, k)
    ensures Sweeping(before, s'.str, s'.hash, s'.chains, s'.nuse, b, kind, k')
  {
    if DeadAt(s.str, s.chains[b][k], kind) {
      FreeTurnOk(before, s, b, kind, k);
    } else {
      KeepTurnOk(before, s, b, kind, k);
    }
  }

  lemma FreeTurnOk(before: map<nat, TString>, s: Parts, b: nat, kind: bool, k: nat)
    requires PartsOk(s, b) && k < |s.chains[b]| && DeadAt(s.str, s.chains[b][k], kind)
    requires Sweeping(before, s.str, s.hash, s.chains, s.nuse, b, kind, k)
    ensures var s' := FreeOne(s, b, k); Sweeping(before, s'.str, s'.hash, s'.chains, s'.nuse, b, kind, k)
  {
    SweepFree(before, s.str, s.hash, s.chains, s.nuse, b, kind, k);
  }

  lemma KeepTurnOk(before: map<nat, TString>, s: Parts, b: nat, kind: bool, k: nat)
    requires PartsOk(s, b) && k < |s.chains[b]| && !DeadAt(s.str, s.chains[b][k], kind)
    requires Sweeping(before, s.str, s.hash, s.chains, s.nuse, b, kind, k)
    ensures var s' := KeepOne(s, b, k, kind); Sweeping(before, s'.str, s'.hash, s'.chains, s'.nuse, b, kind, k + 1)
  {
    NextSwept(s.str, s.hash, s.chains, s.nuse, b, k);
    SweepKeep(before, s.str, s.hash, s.chains, s.nuse, b, kind, k);
  }

  lemma SweepStarts(str: map<nat, TString>, hash: seq<int>, chains: seq<seq<nat>>, nuse: nat, b: nat, kind: bool)
    requires Good(str, hash, chains, nuse) && b < |chains|
    ensures Sweeping(str, str, hash, chains, nuse, b, kind, 0)
  {
    assert Bucket(str, hash[b], chains[b], b, |chains|);
    forall j {:trigger DoneAt(str, str, chains[b], kind, 0, j)} | 0 <= j < |chains[b]|
      ensures DoneAt(str, str, chains[b], kind, 0, j)
    {
      assert NodeAt(str, chains[b], b, |chains|, j);
    }
  }

  /** The next string of the bucket. */
  lemma NextSwept(str: map<nat, TString>, hash: seq<int>, chains: seq<seq<nat>>, nuse: nat, b: nat, k: nat)
    requires Good(str, hash, chains, nuse) && b < |chains|
    ensures hash[b] == Nth(chains[b], 0)
    ensures k < |chains[b]| ==> chains[b][k] in str && str[chains[b][k]].next == Nth(chains[b], k + 1)
  {
    assert Bucket(str, hash[b], chains[b], b, |chains|);
    assert k < |chains[b]| ==> NodeAt(str, chains[b], b, |chains|, k);
  }

  /** After the bucket, it is clean, and so are those that were; the dead strings of the bucket are gone. */
  lemma SweepEnds(before: map<nat, TString>, chains0: seq<seq<nat>>, str: map<nat, TString>, hash: seq<int>, chains: seq<seq<nat>>, nuse: nat, b: nat, kind: bool)
    requires b < |chains| == |chains0| && Sweeping(before, str, hash, chains, nuse, b, kind, |chains[b]|)
    requires MarksOk(before, chains0, SweepString, kind, b) && forall c :: 0 <= c < |chains| && c != b ==> chains[c] == chains0[c]
    ensures forall c :: 0 <= c <= b ==> Clean(str, chains[c], kind)
    ensures forall u :: u in chains[b] ==> u in before && !Dead(before[u], kind)
  {
    forall c | 0 <= c <= b
      ensures Clean(str, chains[c], kind)
    {
      if c < b {
        assert Clean(before, chains0[c], kind);
      } else {
        AllDone(before, str, chains[b], kind);
      }
    }
    AllDone(before, str, chains[b], kind);
  }

  lemma AllDone(before: map<nat, TString>, str: map<nat, TString>, list: seq<nat>, kind: bool)
    requires Done(before, str, list, kind, |list|)
    ensures Clean(str, list, kind) && forall u :: u in list ==> u in before && !Dead(before[u], kind)
  {
    forall u | u in list
      ensures u in str && str[u].mark == White(kind) && u in before && !Dead(before[u], kind)
    {
      var j :| 0 <= j < |list| && list[j] == u;
      assert DoneAt(before, str, list, kind, |list|, j);
    }
  }

  /** The state after a bucket. */
  lemma MarksAfter(str: map<nat, TString>, hash: seq<int>, chains: seq<seq<nat>>, nuse: nat, kind: bool, b: nat)
    requires Good(str, hash, chains, nuse) && b < |chains| && forall c :: 0 <= c <= b ==> Clean(str, chains[c], kind)
    ensures MarksOk(str, chains, if b + 1 < |chains| then SweepString else Sweep, kind, b + 1)
  {
    if b + 1 >= |chains| {
      AllClean(str, hash, chains, nuse, kind);
    }
  }

  lemma AllClean(str: map<nat, TString>, hash: seq<int>, chains: seq<seq<nat>>, nuse: nat, kind: bool)
    requires Good(str, hash, chains, nuse) && forall c :: 0 <= c < |chains| ==> Clean(str, chains[c], kind)
    ensures forall u :: u in str ==> str[u].mark == White(kind)
  {
    forall u | u in str
      ensures str[u].mark == White(kind)
    {
      assert Clean(str, chains[Lmod(str[u].hash, |chains|)], kind);
    }
  }

  /** Dead strings of a bucket are gone if they are not in it any more. */
  lemma GoneIfDead(before: map<nat, TString>, chains0: seq<seq<nat>>, hash0: seq<int>, nuse0: nat, str: map<nat, TString>, hash: seq<int>, chains: seq<seq<nat>>, nuse: nat,
                   b: nat, kind: bool)
    requires Good(before, hash0, chains0, nuse0) && Good(str, hash, chains, nuse) && OnlyDead(before, str, kind) && b < |chains| == |chains0|
    requires forall u :: u in chains[b] ==> u in before && !Dead(before[u], kind)
    ensures forall u :: u in chains0[b] && DeadAt(before, u, kind) ==> u !in str
  {
    forall u | u in chains0[b] && u in str
      ensures !DeadAt(before, u, kind)
    {
      var j :| 0 <= j < |chains0[b]| && chains0[b][j] == u;
      assert Bucket(before, hash0[b], chains0[b], b, |chains0|) && NodeAt(before, chains0[b], b, |chains0|, j);
      assert KeptString(before[u], str[u], kind);
      assert u in chains[Lmod(str[u].hash, |chains|)];
    }
  }

  /** One step of the sweep of strings: dead strings of the bucket go, no others, and the marks are as they should be. */
  lemma BucketSwept(s: Parts, kind: bool, b: nat)
    requires PartsOk(s, b) && MarksOk(s.str, s.chains, SweepString, kind, b)
    ensures var s' := SweepFrom(s, b, kind, 0);
      && PartsOk(s', b) && |s'.chains| == |s.chains| && OnlyDead(s.str, s'.str, kind)
      && MarksOk(s'.str, s'.chains, if b + 1 < |s.chains| then SweepString else Sweep, kind, b + 1)
      && forall u :: u in s.chains[b] && DeadAt(s.str, u, kind) ==> u !in s'.str
  {
    SweepStarts(s.str, s.hash, s.chains, s.nuse, b, kind);
    SweepFromOk(s.str, s.chains, s, b, kind, 0);
    var s' := SweepFrom(s, b, kind, 0);
    SweepEnds(s.str, s.chains, s'.str, s'.hash, s'.chains, s'.nuse, b, kind);
    GoneIfDead(s.str, s.chains, s.hash, s.nuse, s'.str, s'.hash, s'.chains, s'.nuse, b, kind);
    MarksAfter(s'.str, s'.hash, s'.chains, s'.nuse, kind, b);
  }

  // ---------- the other steps of a collection ----------

  /** A string is marked, or fixed. */
  lemma TouchGood(str: map<nat, TString>, hash: seq<int>, chains: seq<seq<nat>>, nuse: nat, u: nat, t: TString)
    requires Good(str, hash, chains, nuse) && u in str && t == str[u].(mark := t.mark, fixed := t.fixed)
    ensures Good(str[u := t], hash, chains, nuse)
  {
    BucketsKept(str, str[u := t], hash, chains, str.Keys);
    DistinctKept(str, str[u := t]);
    assert str[u := t].Keys == str.Keys;
  }

  lemma GrayMarks(str: map<nat, TString>, chains: seq<seq<nat>>, kind: bool, sweepstrgc: nat, u: nat)
    requires MarksOk(str, chains, Propagate, kind, sweepstrgc) && u in str
    ensures MarksOk(str[u := str[u].(mark := Gray)], chains, Propagate, kind, sweepstrgc)
  {
  }

  lemma FixMarks(str: map<nat, TString>, chains: seq<seq<nat>>, phase: Phase, kind: bool, sweepstrgc: nat, u: nat)
    requires MarksOk(str, chains, phase, kind, sweepstrgc) && u in str
    ensures MarksOk(str[u := str[u].(fixed := true)], chains, phase, kind, sweepstrgc)
  {
    if phase == SweepString {
      forall b | 0 <= b < sweepstrgc
        ensures Clean(str[u := str[u].(fixed := true)], chains[b], kind)
      {
        assert Clean(str, chains[b], kind);
      }
    }
  }

  /** The sweep does not touch what the program holds. */
  lemma HeldSurvive(before: map<nat, TString>, str: map<nat, TString>, held: map<nat, Text>, kind: bool)
    requires HeldOk(before, held, kind) && OnlyDead(before, str, kind)
    ensures HeldOk(str, held, kind)
  {
    forall u | u in held
      ensures u in str && str[u].text == held[u] && (str[u].mark != White(!kind) || str[u].fixed)
    {
      assert !Dead(before[u], kind);
      assert KeptString(before[u], str[u], kind);
    }
  }

  lemma HeldMore(before: map<nat, TString>, str: map<nat, TString>, held: map<nat, Text>, kind: bool, u: nat, s: Text)
    requires HeldOk(before, held, kind) && Grown(before, str, u) && str[u].text == s && str[u].mark != White(!kind)
    requires u in before ==> before[u].text == s
    ensures HeldOk(str, held[u := s], kind)
  {
  }

  /** Pointer equality is equality of contents. */
  ghost predicate Unique(held: map<nat, Text>) {
    forall u, w :: u in held && w in held ==> (u == w <==> held[u] == held[w])
  }

  lemma SameText(str: map<nat, TString>, held: map<nat, Text>, kind: bool)
    requires Distinct(str) && HeldOk(str, held, kind)
    ensures Unique(held)
  {
  }
}

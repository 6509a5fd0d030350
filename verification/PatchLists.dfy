/** Lists of jumps to be patched, threaded through the offsets of the jumps themselves. */
module PatchLists {
  import opened BoolCode

  const NO_JUMP := -1

  /** Stands for a target register that is not known yet; it is no register. */
  const NO_REG := -1

  /** The pending jumps: the elements of every list, by its head, and the list of every jump. */
  datatype Pending = Pending(list: map<int, seq<int>>, home: map<int, int>)

  /** getjump: the next element of a list. */
  function GetJump(code: seq<Instr>, pc: int): int
    requires 0 <= pc < |code| && code[pc].Jmp?
  {
    if code[pc].off == NO_JUMP then NO_JUMP else pc + 1 + code[pc].off
  }

  predicate IsJump(code: seq<Instr>, j: int) {
    0 <= j < |code| && code[j].Jmp?
  }

  function At(L: seq<int>, i: int): int {
    if 0 <= i < |L| then L[i] else NO_JUMP
  }

  predicate Link(code: seq<Instr>, L: seq<int>, i: int) {
    0 <= i < |L| && IsJump(code, L[i]) && GetJump(code, L[i]) == At(L, i + 1)
  }

  /** The offsets in the code thread the list `L`, which has no element twice. */
  ghost predicate Threads(code: seq<Instr>, L: seq<int>) {
    && (forall i {:trigger Link(code, L, i)} :: 0 <= i < |L| ==> Link(code, L, i))
    && (forall i, j :: 0 <= i < j < |L| ==> L[i] != L[j])
  }

  /** Lists are finite and disjoint, and hold exactly the pending jumps. */
  ghost predicate ListsOk(code: seq<Instr>, q: Pending) {
    && NO_JUMP !in q.list
    && (forall h :: h in q.list ==> |q.list[h]| > 0 && q.list[h][0] == h && Threads(code, q.list[h]))
    && (forall h, i :: h in q.list && 0 <= i < |q.list[h]| ==> q.list[h][i] in q.home && q.home[q.list[h][i]] == h)
    && (forall j :: j in q.home ==> IsJump(code, j) && q.home[j] in q.list && j in q.list[q.home[j]])
  }

  /** A test is followed by its jump (once that is there). */
  ghost predicate Paired(code: seq<Instr>) {
    forall i :: 0 <= i < |code| - 1 && IsTest(code[i]) ==> code[i + 1].Jmp?
  }

  /** What a list head stands for: NO_JUMP is the empty list. */
  ghost function Elems(q: Pending, h: int): seq<int> {
    if h in q.list then q.list[h] else []
  }

  ghost function Jumps(q: Pending, h: int): set<int> {
    set j | j in q.home && q.home[j] == h
  }

  predicate IsHead(q: Pending, h: int) {
    h == NO_JUMP || h in q.list
  }

  lemma ElemsAreJumps(code: seq<Instr>, q: Pending, h: int)
    requires ListsOk(code, q)
    ensures forall j :: j in Jumps(q, h) <==> j in Elems(q, h)
    ensures forall j :: j in Jumps(q, h) ==> IsJump(code, j)
    ensures Jumps(q, NO_JUMP) == {} && SetOf(Elems(q, h)) == Jumps(q, h)
  {
    assert forall j :: j in q.home ==> q.home[j] in q.list;
    forall j
      ensures j in Jumps(q, h) <==> j in Elems(q, h)
    {
      if j in Elems(q, h) {
        var i :| 0 <= i < |Elems(q, h)| && Elems(q, h)[i] == j;
        assert q.home[q.list[h][i]] == h;
      }
    }
  }

  /** Unfinished code, as it is to be read: jumps of the list `jpc` go to the end of the code. */
  function StepAt(code: seq<Instr>, home: map<int, int>, jpc: int, i: int): Step
    requires 0 <= i < |code|
  {
    match code[i]
    case Jmp(off) =>
      if i !in home then Goto(i + 1 + off) else if home[i] == jpc then Goto(|code|) else Hold
    case TestSet(_, b, c) =>
      if i + 1 !in home then Cond(code[i]) else if home[i + 1] == jpc then Cond(Test(b, c)) else Keep(b, c)
    case Test(_, _) => Cond(code[i])
    case Compare(_, _, _, _) => Cond(code[i])
    case _ => Op(code[i])
  }

  ghost function Steps(code: seq<Instr>, q: Pending, jpc: int): seq<Step> {
    seq(|code|, i requires 0 <= i < |code| => StepAt(code, q.home, jpc, i))
  }

  /** Only offsets of jumps differ. */
  ghost predicate Relinked(code: seq<Instr>, code': seq<Instr>) {
    |code'| == |code| && forall i :: 0 <= i < |code| ==> code'[i] == code[i] || (code[i].Jmp? && code'[i].Jmp?)
  }

  // ---------- joining two lists ----------

  ghost function Join(q: Pending, h1: int, h2: int): Pending
    requires h1 in q.list && h2 in q.list
  {
    Pending((q.list - {h2})[h1 := q.list[h1] + q.list[h2]],
            map j | j in q.home :: if q.home[j] == h2 then h1 else q.home[j])
  }

  lemma JoinThreads(code: seq<Instr>, L1: seq<int>, L2: seq<int>)
    requires Threads(code, L1) && Threads(code, L2) && |L1| > 0 && |L2| > 0 && IsJump(code, L1[|L1| - 1])
    requires forall i, j :: 0 <= i < |L1| && 0 <= j < |L2| ==> L1[i] != L2[j]
    ensures var last := L1[|L1| - 1]; Threads(code[last := Jmp(L2[0] - (last + 1))], L1 + L2)
  {
    var last, L := L1[|L1| - 1], L1 + L2;
    var code' := code[last := Jmp(L2[0] - (last + 1))];
    assert L2[0] != last;
    forall i | 0 <= i < |L|
      ensures Link(code', L, i)
    {
      if i < |L1| {
        assert Link(code, L1, i);
      } else {
        assert Link(code, L2, i - |L1|);
      }
    }
  }

  /** Changing the offset of a jump of another list does not affect a list. */
  lemma OtherThreads(code: seq<Instr>, q: Pending, h: int, j: int, off: int)
    requires ListsOk(code, q) && h in q.list && j in q.home && q.home[j] != h
    ensures Threads(code[j := Jmp(off)], q.list[h])
  {
    var code' := code[j := Jmp(off)];
    forall i | 0 <= i < |q.list[h]|
      ensures Link(code', q.list[h], i)
    {
      assert Link(code, q.list[h], i) && q.home[q.list[h][i]] == h;
    }
  }

  lemma JoinJumps(code: seq<Instr>, q: Pending, h1: int, h2: int)
    requires ListsOk(code, q) && h1 in q.list && h2 in q.list && h1 != h2
    ensures Jumps(Join(q, h1, h2), h1) == Jumps(q, h1) + Jumps(q, h2)
    ensures forall h :: h != h1 && h != h2 ==> Jumps(Join(q, h1, h2), h) == Jumps(q, h)
  {
  }

  lemma JoinHome(code: seq<Instr>, q: Pending, h1: int, h2: int)
    requires ListsOk(code, q) && h1 in q.list && h2 in q.list && h1 != h2
    ensures var q' := Join(q, h1, h2);
      && (forall h, i :: h in q'.list && 0 <= i < |q'.list[h]| ==> q'.list[h][i] in q'.home && q'.home[q'.list[h][i]] == h)
      && (forall j :: j in q'.home ==> q'.home[j] in q'.list && j in q'.list[q'.home[j]])
  {
    var q' := Join(q, h1, h2);
    var n := |q.list[h1]|;
    forall h, i | h in q'.list && 0 <= i < |q'.list[h]|
      ensures q'.list[h][i] in q'.home && q'.home[q'.list[h][i]] == h
    {
      if h == h1 && i >= n {
        assert q'.list[h][i] == q.list[h2][i - n];
      } else {
        assert q'.list[h][i] == q.list[h][i];
      }
    }
  }

  /** The joined list is threaded, the others still are. */
  lemma JoinedThreads(code: seq<Instr>, q: Pending, h1: int, h2: int, h: int)
    requires ListsOk(code, q) && h1 in q.list && h2 in q.list && h1 != h2 && h in Join(q, h1, h2).list
    ensures var last := q.list[h1][|q.list[h1]| - 1];
      Threads(code[last := Jmp(h2 - (last + 1))], Join(q, h1, h2).list[h])
  {
    var last := q.list[h1][|q.list[h1]| - 1];
    assert q.home[last] == h1;
    if h == h1 {
      forall i, j | 0 <= i < |q.list[h1]| && 0 <= j < |q.list[h2]|
        ensures q.list[h1][i] != q.list[h2][j]
      {
        assert q.home[q.list[h1][i]] == h1 && q.home[q.list[h2][j]] == h2;
      }
      JoinThreads(code, q.list[h1], q.list[h2]);
    } else {
      OtherThreads(code, q, h, last, h2 - (last + 1));
    }
  }

  lemma JoinOk(code: seq<Instr>, q: Pending, h1: int, h2: int)
    requires ListsOk(code, q) && h1 in q.list && h2 in q.list && h1 != h2
    ensures var last := q.list[h1][|q.list[h1]| - 1];
      ListsOk(code[last := Jmp(h2 - (last + 1))], Join(q, h1, h2))
  {
    var last := q.list[h1][|q.list[h1]| - 1];
    assert last in q.home && IsJump(code, last);
    JoinHome(code, q, h1, h2);
    forall h | h in Join(q, h1, h2).list
      ensures Threads(code[last := Jmp(h2 - (last + 1))], Join(q, h1, h2).list[h])
    {
      JoinedThreads(code, q, h1, h2, h);
    }
  }

  // ---------- resolving a list ----------

  ghost function Drop(q: Pending, h: int): Pending {
    Pending(q.list - {h}, map j | j in q.home && q.home[j] != h :: q.home[j])
  }

  /** What patching the jumps of `S` makes of instruction `i`: value-producing tests go to `vtarget` with
      target register `reg`, other jumps to `dtarget`. */
  function PatchedAt(code: seq<Instr>, S: set<int>, vtarget: int, reg: int, dtarget: int, i: int): Instr
    requires 0 <= i < |code|
  {
    if i in S then Jmp((if i > 0 && code[i - 1].TestSet? then vtarget else dtarget) - (i + 1))
    else if i + 1 in S && code[i].TestSet? then Demoted(code[i], reg)
    else code[i]
  }

  function Demoted(i: Instr, reg: int): Instr
    requires i.TestSet?
  {
    if reg != NO_REG && reg != i.b then TestSet(reg, i.b, i.c) else Test(i.b, i.c)
  }

  ghost function PatchedCode(code: seq<Instr>, S: set<int>, vtarget: int, reg: int, dtarget: int): seq<Instr> {
    seq(|code|, i requires 0 <= i < |code| => PatchedAt(code, S, vtarget, reg, dtarget, i))
  }

  lemma DropOk(code: seq<Instr>, q: Pending, h: int, vtarget: int, reg: int, dtarget: int)
    requires ListsOk(code, q) && Paired(code)
    ensures ListsOk(PatchedCode(code, Jumps(q, h), vtarget, reg, dtarget), Drop(q, h))
    ensures Paired(PatchedCode(code, Jumps(q, h), vtarget, reg, dtarget))
    ensures forall h' :: h' != h ==> Jumps(Drop(q, h), h') == Jumps(q, h')
    ensures Jumps(Drop(q, h), h) == {}
  {
    var code', q' := PatchedCode(code, Jumps(q, h), vtarget, reg, dtarget), Drop(q, h);
    forall h' | h' in q'.list
      ensures Threads(code', q.list[h'])
    {
      forall i | 0 <= i < |q.list[h']|
        ensures Link(code', q.list[h'], i)
      {
        assert Link(code, q.list[h'], i) && q.home[q.list[h'][i]] == h';
      }
    }
  }

  lemma DischargeStep(code: seq<Instr>, q: Pending, jpc: int, i: int)
    requires ListsOk(code, q) && Paired(code) && 0 <= i < |code|
    ensures StepAt(PatchedCode(code, Jumps(q, jpc), |code|, NO_REG, |code|), Drop(q, jpc).home, NO_JUMP, i)
      == StepAt(code, q.home, jpc, i)
  {
    var S := Jumps(q, jpc);
    assert i in q.home ==> q.home[i] in q.list;
    assert i + 1 in q.home ==> q.home[i + 1] in q.list;
    assert i in Drop(q, jpc).home <==> i in q.home && i !in S;
    assert i + 1 in Drop(q, jpc).home <==> i + 1 in q.home && i + 1 !in S;
    assert i in S ==> IsJump(code, i);
  }

  /** Resolving the list `jpc` to the end of the code changes nothing in how the code is read. */
  lemma DischargeSteps(code: seq<Instr>, q: Pending, jpc: int)
    requires ListsOk(code, q) && Paired(code)
    ensures Steps(PatchedCode(code, Jumps(q, jpc), |code|, NO_REG, |code|), Drop(q, jpc), NO_JUMP) == Steps(code, q, jpc)
  {
    forall i | 0 <= i < |code|
      ensures StepAt(PatchedCode(code, Jumps(q, jpc), |code|, NO_REG, |code|), Drop(q, jpc).home, NO_JUMP, i)
        == StepAt(code, q.home, jpc, i)
    {
      DischargeStep(code, q, jpc, i);
    }
  }

  ghost function SetOf(L: seq<int>): set<int> {
    set x | x in L
  }

  /** What one turn of patchlistaux does to the jump at `x` and the test before it. */
  function OnePatched(code: seq<Instr>, x: int, vtarget: int, reg: int, dtarget: int): seq<Instr>
    requires 0 <= x < |code|
  {
    if x > 0 && code[x - 1].TestSet? then code[x - 1 := Demoted(code[x - 1], reg)][x := Jmp(vtarget - (x + 1))]
    else code[x := Jmp(dtarget - (x + 1))]
  }

  lemma NonePatched(code: seq<Instr>, L: seq<int>, vtarget: int, reg: int, dtarget: int)
    ensures PatchedCode(code, SetOf(L[..0]), vtarget, reg, dtarget) == code
  {
    assert SetOf(L[..0]) == {};
  }

  lemma JumpsNotNone(code: seq<Instr>, L: seq<int>, i: int)
    requires 0 <= i <= |L| && forall x :: x in L ==> IsJump(code, x)
    ensures At(L, i) == NO_JUMP <==> i == |L|
  {
    assert i < |L| ==> L[i] in L;
  }

  lemma PatchMore(code: seq<Instr>, S: set<int>, x: int, vtarget: int, reg: int, dtarget: int)
    requires 0 <= x < |code| && x !in S && IsJump(code, x) && forall y :: y in S ==> IsJump(code, y)
    ensures var c0 := PatchedCode(code, S, vtarget, reg, dtarget);
      c0[x] == code[x] && PatchedCode(code, S + {x}, vtarget, reg, dtarget) == OnePatched(c0, x, vtarget, reg, dtarget)
  {
    var c0, c1 := PatchedCode(code, S, vtarget, reg, dtarget), PatchedCode(code, S + {x}, vtarget, reg, dtarget);
    var c2 := OnePatched(c0, x, vtarget, reg, dtarget);
    if x > 0 {
      assert c0[x - 1] == PatchedAt(code, S, vtarget, reg, dtarget, x - 1);
    }
    forall i | 0 <= i < |code|
      ensures c1[i] == c2[i]
    {
      assert c1[i] == PatchedAt(code, S + {x}, vtarget, reg, dtarget, i);
      assert c0[i] == PatchedAt(code, S, vtarget, reg, dtarget, i);
    }
  }

  /** One more element of a list patched. */
  lemma PatchStep(code: seq<Instr>, L: seq<int>, i: nat, vtarget: int, reg: int, dtarget: int)
    requires Threads(code, L) && i < |L| && forall x :: x in L ==> IsJump(code, x)
    ensures var c0, c1, x := PatchedCode(code, SetOf(L[..i]), vtarget, reg, dtarget),
                             PatchedCode(code, SetOf(L[..i + 1]), vtarget, reg, dtarget), L[i];
      && 0 <= x < |code| && c0[x] == code[x] && IsJump(c0, x) && GetJump(c0, x) == At(L, i + 1)
      && c1 == OnePatched(c0, x, vtarget, reg, dtarget)
  {
    var x, S := L[i], SetOf(L[..i]);
    assert Link(code, L, i);
    assert L[..i + 1] == L[..i] + [x];
    assert SetOf(L[..i + 1]) == S + {x};
    assert forall k :: 0 <= k < i ==> L[k] != L[i];
    assert forall y :: y in L[..i] ==> y in L;
    PatchMore(code, S, x, vtarget, reg, dtarget);
  }

  // ---------- patch to here ----------

  /** The held jumps of `S` now go to the end of the code, and their tests give no value. */
  function HereAt(s: seq<Step>, S: set<int>, i: int): Step
    requires 0 <= i < |s|
  {
    if i in S then Goto(|s|) else if i + 1 in S && s[i].Keep? then Cond(Test(s[i].b, s[i].c)) else s[i]
  }

  ghost function Here(s: seq<Step>, S: set<int>): seq<Step> {
    seq(|s|, i requires 0 <= i < |s| => HereAt(s, S, i))
  }

  lemma StepsHome(code: seq<Instr>, q: Pending, jpc: int, q': Pending, jpc': int)
    requires forall j :: j in q.home <==> j in q'.home
    requires forall j :: j in q.home ==> (q.home[j] == jpc <==> q'.home[j] == jpc')
    ensures Steps(code, q, jpc) == Steps(code, q', jpc')
  {
  }

  /** The links themselves do not show. */
  lemma StepsLink(code: seq<Instr>, q: Pending, jpc: int, last: int, off: int)
    requires last in q.home && IsJump(code, last)
    ensures Steps(code[last := Jmp(off)], q, jpc) == Steps(code, q, jpc)
  {
  }

  /** Joining two lists that are not for here. */
  lemma JoinSteps(code: seq<Instr>, q: Pending, jpc: int, h1: int, h2: int)
    requires ListsOk(code, q) && h1 in q.list && h2 in q.list && h1 != h2 && h1 != jpc && h2 != jpc
    ensures var last := q.list[h1][|q.list[h1]| - 1];
      Steps(code[last := Jmp(h2 - (last + 1))], Join(q, h1, h2), jpc) == Steps(code, q, jpc)
  {
    var last := q.list[h1][|q.list[h1]| - 1];
    assert last in q.home && IsJump(code, last);
    StepsLink(code, q, jpc, last, h2 - (last + 1));
    StepsHome(code[last := Jmp(h2 - (last + 1))], q, jpc, Join(q, h1, h2), jpc);
  }

  /** Making a list the list of jumps to here. */
  lemma HereSteps(code: seq<Instr>, q: Pending, h: int)
    requires ListsOk(code, q)
    ensures Steps(code, q, h) == Here(Steps(code, q, NO_JUMP), Jumps(q, h))
  {
    assert Jumps(q, NO_JUMP) == {} by {
      ElemsAreJumps(code, q, h);
    }
    forall i | 0 <= i < |code|
      ensures StepAt(code, q.home, h, i) == HereAt(Steps(code, q, NO_JUMP), Jumps(q, h), i)
    {
      assert i in Jumps(q, h) ==> IsJump(code, i);
    }
  }

  /** Adding a list to those jumps. */
  lemma HereJoinSteps(code: seq<Instr>, q: Pending, jpc: int, h: int)
    requires ListsOk(code, q) && jpc in q.list && h in q.list && jpc != h
    ensures var last := q.list[jpc][|q.list[jpc]| - 1];
      Steps(code[last := Jmp(h - (last + 1))], Join(q, jpc, h), jpc) == Here(Steps(code, q, jpc), Jumps(q, h))
  {
    var last := q.list[jpc][|q.list[jpc]| - 1];
    var code' := code[last := Jmp(h - (last + 1))];
    assert last in q.home && IsJump(code, last);
    StepsLink(code, q, jpc, last, h - (last + 1));
    forall i | 0 <= i < |code|
      ensures StepAt(code', Join(q, jpc, h).home, jpc, i) == HereAt(Steps(code, q, jpc), Jumps(q, h), i)
    {
      assert StepAt(code', q.home, jpc, i) == Steps(code', q, jpc)[i];
      assert i in Jumps(q, h) ==> IsJump(code, i);
    }
  }

  /** Tests of a list that give no value any more. */
  ghost function DemotedCode(code: seq<Instr>, S: set<int>): seq<Instr> {
    seq(|code|, i requires 0 <= i < |code| => if i + 1 in S && code[i].TestSet? then Test(code[i].b, code[i].c) else code[i])
  }

  /** The same for steps: held tests of `S` give no value. */
  ghost function Demote(s: seq<Step>, S: set<int>): seq<Step> {
    seq(|s|, i requires 0 <= i < |s| => if i + 1 in S && s[i].Keep? then Cond(Test(s[i].b, s[i].c)) else s[i])
  }

  lemma DemoteSteps(code: seq<Instr>, q: Pending, jpc: int, h: int)
    requires ListsOk(code, q) && Paired(code) && (h != jpc || h == NO_JUMP)
    ensures Steps(DemotedCode(code, Jumps(q, h)), q, jpc) == Demote(Steps(code, q, jpc), Jumps(q, h))
    ensures ListsOk(DemotedCode(code, Jumps(q, h)), q) && Paired(DemotedCode(code, Jumps(q, h)))
  {
    var code' := DemotedCode(code, Jumps(q, h));
    ElemsAreJumps(code, q, h);
    DemotedOk(code, q, Jumps(q, h));
    forall i | 0 <= i < |code|
      ensures StepAt(code', q.home, jpc, i) == Demote(Steps(code, q, jpc), Jumps(q, h))[i]
    {
      DemotedStep(code, q, jpc, h, i);
    }
  }

  lemma DemotedStep(code: seq<Instr>, q: Pending, jpc: int, h: int, i: int)
    requires ListsOk(code, q) && (h != jpc || h == NO_JUMP) && 0 <= i < |code|
    ensures var s, S := StepAt(code, q.home, jpc, i), Jumps(q, h);
      StepAt(DemotedCode(code, S), q.home, jpc, i) == if i + 1 in S && s.Keep? then Cond(Test(s.b, s.c)) else s
  {
    assert i + 1 in q.home ==> q.home[i + 1] in q.list;
  }

  lemma DemotedOk(code: seq<Instr>, q: Pending, S: set<int>)
    requires ListsOk(code, q) && Paired(code)
    ensures ListsOk(DemotedCode(code, S), q) && Paired(DemotedCode(code, S))
  {
    var code' := DemotedCode(code, S);
    forall h' | h' in q.list
      ensures Threads(code', q.list[h'])
    {
      forall i | 0 <= i < |q.list[h']|
        ensures Link(code', q.list[h'], i)
      {
        assert Link(code, q.list[h'], i);
      }
    }
  }

  // ---------- longer code ----------

  /** The lists other than those of `gone` are as before. */
  ghost predicate Keeps(q: Pending, q': Pending, gone: set<int>) {
    forall h :: h in q.list && h !in gone ==> h in q'.list && Jumps(q', h) == Jumps(q, h)
  }

  function StepOf(i: Instr): Step {
    if IsTest(i) then Cond(i) else Op(i)
  }

  lemma AppendOk(code: seq<Instr>, q: Pending, i: Instr)
    requires ListsOk(code, q) && Paired(code) && !i.Jmp? && (|code| > 0 ==> !IsTest(code[|code| - 1]))
    ensures ListsOk(code + [i], q) && Paired(code + [i])
    ensures Steps(code + [i], q, NO_JUMP) == Steps(code, q, NO_JUMP) + [StepOf(i)]
  {
    var code' := code + [i];
    forall h | h in q.list
      ensures Threads(code', q.list[h])
    {
      forall k | 0 <= k < |q.list[h]|
        ensures Link(code', q.list[h], k)
      {
        assert Link(code, q.list[h], k);
      }
    }
    assert |code| + 1 !in q.home && |code| !in q.home;
    assert NO_JUMP !in q.list && forall j :: j in q.home ==> q.home[j] != NO_JUMP;
    forall k | 0 <= k < |code|
      ensures StepAt(code', q.home, NO_JUMP, k) == StepAt(code, q.home, NO_JUMP, k)
    {
    }
  }

  /** A new jump is a list of its own. */
  ghost function AddJump(q: Pending, j: int): Pending {
    Pending(q.list[j := [j]], q.home[j := j])
  }

  lemma AddJumpOk(code: seq<Instr>, q: Pending)
    requires ListsOk(code, q) && Paired(code)
    ensures var code', q' := code + [Jmp(NO_JUMP)], AddJump(q, |code|);
      && ListsOk(code', q') && Paired(code') && Jumps(q', |code|) == {|code|} && Keeps(q, q', {})
  {
    var code', q' := code + [Jmp(NO_JUMP)], AddJump(q, |code|);
    forall h | h in q.list
      ensures h in q.home
    {
      assert q.list[h][0] == h;
    }
    forall j
      ensures j in Jumps(q', |code|) <==> j == |code|
    {
      assert j in q.home ==> q.home[j] in q.list;
    }
    forall h | h in q'.list
      ensures Threads(code', q'.list[h])
    {
      forall k | 0 <= k < |q'.list[h]|
        ensures Link(code', q'.list[h], k)
      {
        assert h in q.list ==> Link(code, q.list[h], k);
      }
    }
  }

  /** The test before a new jump is one whose jump is held. */
  lemma AddJumpSteps(code: seq<Instr>, q: Pending)
    requires ListsOk(code, q) && Paired(code)
    ensures var s, s' := Steps(code, q, NO_JUMP), Steps(code + [Jmp(NO_JUMP)], AddJump(q, |code|), NO_JUMP);
      var n := |code|;
      s' == (if n > 0 && code[n - 1].TestSet? then s[n - 1 := Keep(code[n - 1].b, code[n - 1].c)] else s) + [Hold]
  {
    assert |code| !in q.home;
    assert NO_JUMP !in q.list && forall j :: j in q.home ==> q.home[j] != NO_JUMP;
    forall k | 0 <= k < |code| - 1
      ensures StepAt(code + [Jmp(NO_JUMP)], AddJump(q, |code|).home, NO_JUMP, k) == StepAt(code, q.home, NO_JUMP, k)
    {
    }
  }

  // ---------- resolving ----------

  function ResolveAt(s: seq<Step>, S: set<int>, vtarget: int, reg: int, dtarget: int, i: int): Step
    requires 0 <= i < |s|
  {
    if i in S then Goto(if i > 0 && s[i - 1].Keep? then vtarget else dtarget)
    else if i + 1 in S && s[i].Keep? then
      Cond(if reg != NO_REG && reg != s[i].b then TestSet(reg, s[i].b, s[i].c) else Test(s[i].b, s[i].c))
    else s[i]
  }

  /** What patching the held jumps of `S` means for the steps. */
  ghost function Resolve(s: seq<Step>, S: set<int>, vtarget: int, reg: int, dtarget: int): seq<Step> {
    seq(|s|, i requires 0 <= i < |s| => ResolveAt(s, S, vtarget, reg, dtarget, i))
  }

  lemma ResolveSteps(code: seq<Instr>, q: Pending, jpc: int, h: int, vtarget: int, reg: int, dtarget: int)
    requires ListsOk(code, q) && Paired(code) && (h != jpc || h == NO_JUMP)
    ensures Steps(PatchedCode(code, Jumps(q, h), vtarget, reg, dtarget), Drop(q, h), jpc)
      == Resolve(Steps(code, q, jpc), Jumps(q, h), vtarget, reg, dtarget)
  {
    var s, S := Steps(code, q, jpc), Jumps(q, h);
    ElemsAreJumps(code, q, h);
    forall i | 0 <= i < |code|
      ensures StepAt(PatchedCode(code, S, vtarget, reg, dtarget), Drop(q, h).home, jpc, i)
        == ResolveAt(s, S, vtarget, reg, dtarget, i)
    {
      if i in S {
        ResolvedJump(code, q, jpc, h, vtarget, reg, dtarget, i);
      } else {
        ResolvedOther(code, q, jpc, h, vtarget, reg, dtarget, i);
      }
    }
  }

  lemma ResolvedJump(code: seq<Instr>, q: Pending, jpc: int, h: int, vtarget: int, reg: int, dtarget: int, i: int)
    requires ListsOk(code, q) && (h != jpc || h == NO_JUMP) && 0 <= i < |code| && i in Jumps(q, h)
    ensures StepAt(PatchedCode(code, Jumps(q, h), vtarget, reg, dtarget), Drop(q, h).home, jpc, i)
      == ResolveAt(Steps(code, q, jpc), Jumps(q, h), vtarget, reg, dtarget, i)
  {
    assert IsJump(code, i) && q.home[i] in q.list;
    if i > 0 {
      assert Steps(code, q, jpc)[i - 1] == StepAt(code, q.home, jpc, i - 1);
    }
  }

  lemma ResolvedOther(code: seq<Instr>, q: Pending, jpc: int, h: int, vtarget: int, reg: int, dtarget: int, i: int)
    requires ListsOk(code, q) && (h != jpc || h == NO_JUMP) && 0 <= i < |code| && i !in Jumps(q, h)
    ensures StepAt(PatchedCode(code, Jumps(q, h), vtarget, reg, dtarget), Drop(q, h).home, jpc, i)
      == ResolveAt(Steps(code, q, jpc), Jumps(q, h), vtarget, reg, dtarget, i)
  {
    assert i in q.home ==> q.home[i] in q.list;
    assert i + 1 in q.home ==> q.home[i + 1] in q.list;
    assert i + 1 in Jumps(q, h) <==> i + 1 in q.home && q.home[i + 1] == h;
    assert Steps(code, q, jpc)[i] == StepAt(code, q.home, jpc, i);
  }

  /** Instructions that are not jumps do not matter to the lists. */
  lemma SameJumps(code: seq<Instr>, code': seq<Instr>, q: Pending)
    requires ListsOk(code, q) && Paired(code) && |code'| == |code|
    requires forall i :: 0 <= i < |code| && (code[i].Jmp? || code'[i].Jmp?) ==> code'[i] == code[i]
    requires forall i :: 0 <= i < |code| && IsTest(code'[i]) ==> IsTest(code[i])
    ensures ListsOk(code', q) && Paired(code')
  {
    forall h | h in q.list
      ensures Threads(code', q.list[h])
    {
      forall k | 0 <= k < |q.list[h]|
        ensures Link(code', q.list[h], k)
      {
        assert Link(code, q.list[h], k);
      }
    }
  }

  lemma TakeBackOk(code: seq<Instr>, q: Pending)
    requires ListsOk(code, q) && Paired(code) && |code| > 0 && !code[|code| - 1].Jmp?
    ensures var code' := code[..|code| - 1];
      ListsOk(code', q) && Paired(code') && Steps(code', q, NO_JUMP) == Steps(code, q, NO_JUMP)[..|code| - 1]
  {
    var code' := code[..|code| - 1];
    assert |code| - 1 !in q.home;
    assert NO_JUMP !in q.list && forall j :: j in q.home ==> q.home[j] != NO_JUMP;
    forall h | h in q.list
      ensures Threads(code', q.list[h])
    {
      forall k | 0 <= k < |q.list[h]|
        ensures Link(code', q.list[h], k)
      {
        assert Link(code, q.list[h], k);
        assert q.list[h][k] in q.home;
        assert k + 1 < |q.list[h]| ==> q.list[h][k + 1] in q.home;
      }
    }
    forall k | 0 <= k < |code'|
      ensures StepAt(code', q.home, NO_JUMP, k) == StepAt(code, q.home, NO_JUMP, k)
    {
    }
  }

  /** One more test of a list demoted. */
  lemma DemoteStep(code: seq<Instr>, L: seq<int>, i: nat)
    requires Threads(code, L) && i < |L| && forall x :: x in L ==> IsJump(code, x)
    ensures var c0, c1, x := DemotedCode(code, SetOf(L[..i])), DemotedCode(code, SetOf(L[..i + 1])), L[i];
      && IsJump(c0, x) && IsJump(c1, x) && GetJump(c1, x) == At(L, i + 1)
      && (x > 0 ==> (c0[x - 1].TestSet? <==> code[x - 1].TestSet?) && (c0[x - 1].TestSet? ==> c0[x - 1] == code[x - 1]))
      && c1 == if x > 0 && code[x - 1].TestSet? then c0[x - 1 := Demoted(code[x - 1], NO_REG)] else c0
  {
    assert Link(code, L, i);
    assert L[..i + 1] == L[..i] + [L[i]];
    assert SetOf(L[..i + 1]) == SetOf(L[..i]) + {L[i]};
    assert forall k :: 0 <= k < i ==> L[k] != L[i];
  }
}

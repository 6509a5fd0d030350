/** The code generator for logical expressions: `FuncState` with the routines of lcode.c as methods. */
module CodeGen {
  import opened Wrappers
  import opened BoolCode
  import opened PatchLists
  import opened BoolLaws
  import opened BoolMeaning
  import opened CodeViews
  import opened CodeShape
  import opened CodeExec

  const MAXINDEXRK := 255

  class FuncState {
    ghost const env: Env
    const nactvar: nat
    var code: seq<Instr>
    var jpc: int
    var freereg: nat
    var nk: nat
    var h: map<Val, nat>
    ghost var q: Pending

    ghost predicate Valid()
      reads this
    {
      ListsOk(code, q) && Paired(code) && IsHead(q, jpc)
    }

    /** The code so far, as it is to be read. */
    ghost function S(): seq<Step>
      reads this
    {
      Steps(code, q, jpc)
    }

    // ---------- patch lists ----------

    /** patchtestreg: gives the test before a jump a target register, or none. */
    method PatchTestReg(node: int, reg: int) returns (done: bool)
      requires IsJump(code, node)
      modifies `code
      ensures done == (node > 0 && old(code)[node - 1].TestSet?)
      ensures code == if done then old(code)[node - 1 := Demoted(old(code)[node - 1], reg)] else old(code)
    {
      if node > 0 && code[node - 1].TestSet? {
        code := code[node - 1 := Demoted(code[node - 1], reg)];
        return true;
      }
      return false;
    }

    /** fixjump. */
    method FixJump(pc: int, dest: int)
      requires 0 <= pc < |code|
      modifies `code
      ensures code == old(code)[pc := Jmp(dest - (pc + 1))]
    {
      code := code[pc := Jmp(dest - (pc + 1))];
    }

    /** One turn of patchlistaux. */
    method PatchJump(list: int, vtarget: int, reg: int, dtarget: int)
      requires IsJump(code, list)
      modifies `code
      ensures code == OnePatched(old(code), list, vtarget, reg, dtarget)
    {
      var value := PatchTestReg(list, reg);
      if value {
        FixJump(list, vtarget);
      } else {
        FixJump(list, dtarget);
      }
    }

    /** patchlistaux: every jump of a list gets its destination, and the list is gone. */
    method PatchListAux(head: int, vtarget: int, reg: int, dtarget: int)
      requires ListsOk(code, q) && Paired(code) && IsHead(q, head)
      modifies `code, `q
      ensures code == PatchedCode(old(code), Jumps(old(q), head), vtarget, reg, dtarget) && q == Drop(old(q), head)
      ensures ListsOk(code, q) && Paired(code)
    {
      ghost var code0, L := code, Elems(q, head);
      ElemsAreJumps(code, q, head);
      PatchEach(head, L, vtarget, reg, dtarget);
      DropOk(code0, q, head, vtarget, reg, dtarget);
      q := Drop(q, head);
    }

    /** The loop of patchlistaux. */
    method PatchEach(head: int, ghost L: seq<int>, vtarget: int, reg: int, dtarget: int)
      requires Threads(code, L) && head == At(L, 0) && forall x :: x in L ==> IsJump(code, x)
      modifies `code
      ensures code == PatchedCode(old(code), SetOf(L), vtarget, reg, dtarget)
    {
      ghost var code0, i := code, 0;
      var list := head;
      NonePatched(code, L, vtarget, reg, dtarget);
      JumpsNotNone(code, L, 0);
      while list != NO_JUMP
        invariant 0 <= i <= |L| && list == At(L, i) && (list == NO_JUMP <==> i == |L|)
        invariant code == PatchedCode(code0, SetOf(L[..i]), vtarget, reg, dtarget)
        decreases |L| - i
      {
        PatchStep(code0, L, i, vtarget, reg, dtarget);
        var next := GetJump(code, list);
        PatchJump(list, vtarget, reg, dtarget);
        list := next;
        i := i + 1;
        JumpsNotNone(code0, L, i);
      }
      assert L[..i] == L;
    }

    /** luaK_concat: the list `l2` is hung on the end of `l1`. */
    method Concat(l1: int, l2: int) returns (l: int)
      requires ListsOk(code, q) && Paired(code) && IsHead(q, l1) && IsHead(q, l2) && (l1 != l2 || l1 == NO_JUMP)
      modifies `code, `q
      ensures ListsOk(code, q) && Paired(code)
      ensures l == if l1 == NO_JUMP then l2 else l1
      ensures l1 == NO_JUMP || l2 == NO_JUMP ==> code == old(code) && q == old(q)
      ensures l1 != NO_JUMP && l2 != NO_JUMP ==> q == Join(old(q), l1, l2)
      ensures l1 != NO_JUMP && l2 != NO_JUMP ==>
        var last := old(q).list[l1][|old(q).list[l1]| - 1]; 0 <= last < |old(code)| && code == old(code)[last := Jmp(l2 - (last + 1))]
    {
      if l2 == NO_JUMP {
        return l1;
      } else if l1 == NO_JUMP {
        return l2;
      }
      Append(l1, l2);
      return l1;
    }

    method Append(l1: int, l2: int)
      requires ListsOk(code, q) && Paired(code) && l1 in q.list && l2 in q.list && l1 != l2
      modifies `code, `q
      ensures ListsOk(code, q) && Paired(code) && q == Join(old(q), l1, l2)
      ensures var last := old(q).list[l1][|old(q).list[l1]| - 1]; 0 <= last < |old(code)| && code == old(code)[last := Jmp(l2 - (last + 1))]
    {
      var list := LastOf(l1);
      JoinOk(code, q, l1, l2);
      FixJump(list, l2);
      q := Join(q, l1, l2);
    }

    /** The loop of luaK_concat: the last jump of a list. */
    method LastOf(l1: int) returns (list: int)
      requires ListsOk(code, q) && l1 in q.list
      ensures q.list[l1] != [] && list == q.list[l1][|q.list[l1]| - 1] && IsJump(code, list)
    {
      ghost var L, i := q.list[l1], 0;
      assert forall i :: 0 <= i < |L| ==> L[i] in q.home && IsJump(code, L[i]);
      list := l1;
      assert Link(code, L, i);
      var next := GetJump(code, list);
      while next != NO_JUMP
        invariant 0 <= i < |L| && list == L[i] && next == At(L, i + 1)
        decreases |L| - i
      {
        list := next;
        i := i + 1;
        assert Link(code, L, i);
        next := GetJump(code, list);
      }
    }

    /** luaK_concat on lists that are not for here: nothing changes in how the code is read. */
    method Hang(l1: int, l2: int) returns (l: int)
      requires Valid() && IsHead(q, l1) && IsHead(q, l2) && (l1 != l2 || l1 == NO_JUMP)
      requires (l1 != jpc || l1 == NO_JUMP) && (l2 != jpc || l2 == NO_JUMP)
      modifies `code, `q
      ensures Valid() && S() == old(S()) && IsHead(q, l) && l == if l1 == NO_JUMP then l2 else l1
      ensures Jumps(q, l) == Jumps(old(q), l1) + Jumps(old(q), l2) && Keeps(old(q), q, {l1, l2})
      ensures Relinked(old(code), code)
    {
      ElemsAreJumps(code, q, l1);
      l := Concat(l1, l2);
      if l1 != NO_JUMP && l2 != NO_JUMP {
        JoinSteps(old(code), old(q), jpc, l1, l2);
        JoinJumps(old(code), old(q), l1, l2);
      }
    }

    /** luaK_patchtohere: the jumps of a list go to the next instruction, whatever it will be. */
    method PatchToHere(list: int)
      requires Valid() && IsHead(q, list) && (list != jpc || list == NO_JUMP)
      modifies `code, `q, `jpc
      ensures Valid() && S() == Here(old(S()), Jumps(old(q), list))
      ensures Jumps(q, jpc) == Jumps(old(q), old(jpc)) + Jumps(old(q), list)
      ensures Keeps(old(q), q, {old(jpc), list}) && Relinked(old(code), code)
      ensures jpc == if old(jpc) == NO_JUMP then list else old(jpc)
    {
      ElemsAreJumps(code, q, list);
      jpc := Concat(jpc, list);
      if list != NO_JUMP {
        if old(jpc) == NO_JUMP {
          HereSteps(code, q, list);
        } else {
          HereJoinSteps(old(code), old(q), old(jpc), list);
          JoinJumps(old(code), old(q), old(jpc), list);
        }
      } else {
        assert Here(old(S()), {}) == old(S());
      }
    }

    method CloseHere(list: int)
      requires Sound(Now()) && IsHead(q, list) && (list != jpc || list == NO_JUMP)
      modifies `code, `q, `jpc
      ensures PatchedHere(old(Now()), Now(), list)
    {
      PatchToHere(list);
    }

    // ---------- emitting code ----------

    /** dischargejpc: the jumps to here learn where here is. */
    method DischargeJpc()
      requires Valid()
      modifies `code, `q, `jpc
      ensures Valid() && S() == old(S()) && jpc == NO_JUMP && Keeps(old(q), q, {old(jpc)})
      ensures |code| == |old(code)| && (|code| > 0 ==> (IsTest(code[|code| - 1]) <==> IsTest(old(code)[|code| - 1])))
    {
      DischargeSteps(code, q, jpc);
      DropOk(code, q, jpc, |code|, NO_REG, |code|);
      PatchListAux(jpc, |code|, NO_REG, |code|);
      jpc := NO_JUMP;
    }

    /** luaK_code, for instructions that are not jumps. */
    method Code(i: Instr) returns (pc: int)
      requires Valid() && !i.Jmp? && (|code| > 0 ==> !IsTest(code[|code| - 1]))
      modifies `code, `q, `jpc
      ensures Valid() && S() == old(S()) + [StepOf(i)] && jpc == NO_JUMP && Keeps(old(q), q, {old(jpc)})
      ensures |code| == |old(code)| + 1 && pc == |code| - 1 && code[pc] == i
    {
      DischargeJpc();
      AppendOk(code, q, i);
      code := code + [i];
      return |code| - 1;
    }

    /** luaK_jump: an unresolved jump; the jumps to here go on hold with it. */
    method Jump() returns (j: int)
      requires Valid()
      modifies `code, `q, `jpc
      ensures Valid() && jpc == NO_JUMP && j == |old(code)| && |code| == j + 1 && j in q.list
      ensures Jumps(q, j) == {j} + Jumps(old(q), old(jpc)) && Keeps(old(q), q, {old(jpc)})
      ensures var s, n := Steps(old(code), old(q), NO_JUMP), |old(code)|;
        S() == (if n > 0 && old(code)[n - 1].TestSet? then s[n - 1 := Keep(old(code)[n - 1].b, old(code)[n - 1].c)] else s) + [Hold]
    {
      var here := jpc;
      jpc := NO_JUMP;
      j := |code|;
      AddJumpOk(code, q);
      AddJumpSteps(code, q);
      code := code + [Jmp(NO_JUMP)];
      q := AddJump(q, j);
      ElemsAreJumps(code, q, here);
      j := Hang(j, here);
    }

    /** condjump: a test and its jump, on hold. */
    method CondJump(i: Instr) returns (j: int)
      requires Valid() && IsTest(i) && (|code| > 0 ==> !IsTest(code[|code| - 1]))
      modifies `code, `q, `jpc
      ensures Valid() && jpc == NO_JUMP && j == |old(code)| + 1 && |code| == j + 1 && j in q.list && Jumps(q, j) == {j}
      ensures S() == old(S()) + [if i.TestSet? then Keep(i.b, i.c) else Cond(i), Hold] && Keeps(old(q), q, {old(jpc)})
    {
      ghost var s := S();
      var pc := Code(i);
      assert Jumps(q, NO_JUMP) == {} by {
        ElemsAreJumps(code, q, NO_JUMP);
      }
      j := Jump();
    }

    /** luaK_jump after code that ends in no test, with no jumps to here to go on hold with it. */
    method AlwaysJump() returns (j: int)
      requires Sound(Now()) && jpc == NO_JUMP
      modifies `code, `q, `jpc
      ensures JumpAdded(old(Now()), Now()) && j == |old(code)|
    {
      ElemsAreJumps(code, q, NO_JUMP);
      j := Jump();
    }

    // ---------- changing code ----------

    /** need_value: whether some jump of the list comes without a value to keep. */
    method NeedValue(head: int) returns (b: bool)
      requires Valid() && IsHead(q, head) && (head != jpc || head == NO_JUMP)
      ensures b <==> exists j :: j in Jumps(q, head) && !(j > 0 && S()[j - 1].Keep?)
    {
      ghost var L, i := Elems(q, head), 0;
      var list := head;
      ElemsAreJumps(code, q, head);
      while list != NO_JUMP
        invariant 0 <= i <= |L| && list == At(L, i)
        invariant forall k :: 0 <= k < i ==> L[k] > 0 && code[L[k] - 1].TestSet?
        decreases |L| - i
      {
        assert Link(code, L, i) && L[i] in Jumps(q, head);
        if !(list > 0 && code[list - 1].TestSet?) {
          return true;
        }
        list := GetJump(code, list);
        i := i + 1;
      }
      return false;
    }

    /** removevalues. */
    method RemoveValues(head: int)
      requires Valid() && IsHead(q, head) && (head != jpc || head == NO_JUMP)
      modifies `code
      ensures Valid() && S() == Demote(old(S()), Jumps(q, head))
      ensures |code| == |old(code)| && (|code| > 0 ==> (IsTest(code[|code| - 1]) <==> IsTest(old(code)[|code| - 1])))
    {
      ghost var code0, L, i := code, Elems(q, head), 0;
      var list := head;
      ElemsAreJumps(code, q, head);
      while list != NO_JUMP
        invariant 0 <= i <= |L| && list == At(L, i) && code == DemotedCode(code0, SetOf(L[..i]))
        decreases |L| - i
      {
        DemoteStep(code0, L, i);
        var _ := PatchTestReg(list, NO_REG);
        list := GetJump(code, list);
        i := i + 1;
      }
      assert L[..i] == L;
      DemoteSteps(code0, q, jpc, head);
    }

    /** invertjump: the comparison before the last jump jumps in the other case. */
    method InvertJump(pc: int)
      requires Valid() && 0 < pc < |code| && code[pc - 1].Compare?
      modifies `code
      ensures |code| == |old(code)| && code[|code| - 1] == old(code)[|code| - 1]
      ensures Valid() && S() == old(S())[pc - 1 := Cond(Compare(old(code)[pc - 1].op, !old(code)[pc - 1].cond,
                                                                old(code)[pc - 1].x, old(code)[pc - 1].y))]
    {
      var i := code[pc - 1];
      code := code[pc - 1 := i.(cond := !i.cond)];
      SameJumps(old(code), code, q);
    }

    /** SETARG_A on the last instruction. */
    method SetTarget(pc: int, reg: int)
      requires Valid() && pc == |code| - 1 && pc >= 0 && (code[pc].NotOf? || code[pc].GetUpval?)
      modifies `code
      ensures Valid() && S() == old(S())[pc := Op(WithTarget(old(code)[pc], reg))]
      ensures |code| == |old(code)| && !IsTest(code[pc])
    {
      code := code[pc := WithTarget(code[pc], reg)];
      SameJumps(old(code), code, q);
    }

    /** `fs->pc--`: takes the last instruction back. */
    method TakeBack()
      requires Valid() && jpc == NO_JUMP && |code| > 0 && (code[|code| - 1].NotOf? || code[|code| - 1].GetUpval?)
      modifies `code
      ensures Valid() && code == old(code)[..|old(code)| - 1] && S() == old(S())[..|old(code)| - 1]
    {
      TakeBackOk(code, q);
      code := code[..|code| - 1];
    }

    // ---------- expressions ----------

    ghost function Now(): View
      reads this
    {
      View(env, nactvar, code, q, jpc, freereg)
    }

    /** luaK_dischargevars. */
    method DischargeVars(d: ExpDesc, ghost p: int, ghost e: Expr, ghost base: nat) returns (r: ExpDesc)
      requires Tells(Now(), d, p, e, base)
      modifies `code, `q, `jpc
      ensures Tells(Now(), r, p, e, base) && r.t == d.t && r.f == d.f && !r.k.VLocal? && !r.k.VUpval?
      ensures InRegister(d.k, base, freereg, nactvar) ==> InRegister(r.k, base, freereg, nactvar)
      ensures !d.k.VLocal? && !d.k.VUpval? ==> r == d && Now() == old(Now())
      ensures Longer(p, old(Now()), Now()) && KnownOf(r.k) == KnownOf(d.k) && (jpc == NO_JUMP || jpc == old(jpc))
      ensures r.k.VJmp? <==> d.k.VJmp?
    {
      ghost var v := Now();
      match d.k
      case VLocal(reg) =>
        r := d.(k := VNonReloc(reg));
        DescribeLocal(v, d, p, e, base);
      case VUpval(_) =>
        r := DischargeUpval(d, p, e, base);
      case _ =>
        r := d;
    }

    method DischargeUpval(d: ExpDesc, ghost p: int, ghost e: Expr, ghost base: nat) returns (r: ExpDesc)
      requires Tells(Now(), d, p, e, base) && d.k.VUpval?
      modifies `code, `q, `jpc
      ensures Tells(Now(), r, p, e, base) && r.t == d.t && r.f == d.f && r.k.VReloc? && jpc == NO_JUMP
      ensures Longer(p, old(Now()), Now())
    {
      var pc := Code(GetUpval(0, d.k.n));
      r := d.(k := VReloc(pc));
      DescribeUpval(old(Now()), Now(), d, p, e, base);
    }

    method FreeReg(reg: int)
      requires freereg > 0 || reg < nactvar
      modifies `freereg
      ensures freereg == if reg >= nactvar then old(freereg) - 1 else old(freereg)
    {
      if reg >= nactvar {
        freereg := freereg - 1;
      }
    }

    /** freeexp. */
    method FreeExp(d: ExpDesc)
      requires freereg > 0 || !d.k.VNonReloc? || d.k.reg < nactvar
      modifies `freereg
      ensures freereg == if d.k.VNonReloc? && d.k.reg >= nactvar then old(freereg) - 1 else old(freereg)
    {
      if d.k.VNonReloc? {
        FreeReg(d.k.reg);
      }
    }

    method ReserveRegs(n: nat)
      modifies `freereg
      ensures freereg == old(freereg) + n
    {
      freereg := freereg + n;
    }

    /** discharge2anyreg. */
    method Discharge2AnyReg(d: ExpDesc, ghost p: int, ghost e: Expr, ghost base: nat) returns (r: ExpDesc)
      requires Describes(Now(), d, p, e, base) && Discharged(d.k)
      modifies `code, `q, `jpc, `freereg
      ensures Describes(Now(), r, p, e, base) && r.t == d.t && r.f == d.f && r.k.VNonReloc?
      ensures Kept(p, old(Now()), Now()) && (jpc == NO_JUMP || jpc == old(jpc))
    {
      r := d;
      if !d.k.VNonReloc? {
        ReserveRegs(1);
        ghost var v1 := Now();
        TellsFree(old(Now()), v1, d, p, e, base);
        r := Discharge2Reg(d, freereg - 1, p, e, base);
        DescribeLoaded(Now(), d, p, e, base);
        KeptTrans(p, old(Now()), v1, Now());
      }
    }

    /** discharge2anyreg and freeexp: the register may be used again, its value is still there. */
    method ToFreeReg(d: ExpDesc, ghost p: int, ghost e: Expr, ghost base: nat) returns (r: ExpDesc)
      requires Describes(Now(), d, p, e, base) && Discharged(d.k)
      modifies `code, `q, `jpc, `freereg
      ensures Tells(Now(), r, p, e, base) && r.t == d.t && r.f == d.f && r.k.VNonReloc? && freereg == base
      ensures Kept(p, old(Now()), Now()) && (jpc == NO_JUMP || jpc == old(jpc))
    {
      r := Discharge2AnyReg(d, p, e, base);
      FreeExp(r);
    }

    /** jumponcond: the jump is made if the value is `cond`. */
    method JumpOnCond(d: ExpDesc, cond: bool, ghost p: int, ghost e: Expr, ghost base: nat) returns (pc: int)
      requires Describes(Now(), d, p, e, base) && Discharged(d.k)
      modifies `code, `q, `jpc, `freereg
      ensures Branches(Now(), d, pc, p, e, base, cond) && Kept(p, old(Now()), Now())
    {
      RelocatableCode(Now(), d, p, e, base);
      if d.k.VReloc? && code[d.k.pc].NotOf? {
        pc := JumpOnNot(d, cond, p, e, base);
      } else {
        pc := JumpOnValue(d, cond, p, e, base);
      }
    }

    /** A `not` is taken back, and its operand tested the other way. */
    method JumpOnNot(d: ExpDesc, cond: bool, ghost p: int, ghost e: Expr, ghost base: nat) returns (pc: int)
      requires Describes(Now(), d, p, e, base) && d.k.VReloc? && d.k.pc == |code| - 1 && |code| > 0 && code[d.k.pc].NotOf?
      requires jpc == NO_JUMP
      modifies `code, `q, `jpc
      ensures Branches(Now(), d, pc, p, e, base, cond) && Kept(p, old(Now()), Now())
    {
      var b := code[d.k.pc].b;
      ghost var v0 := Now();
      BeforeTail(v0, d, p, e, base);
      TakeBack();
      ghost var v1 := Now();
      pc := CondJump(Test(b, !cond));
      ghost var v2 := Now();
      BranchNot(v0, v1, v2, d, p, e, base, b, cond);
    }

    method JumpOnValue(d: ExpDesc, cond: bool, ghost p: int, ghost e: Expr, ghost base: nat) returns (pc: int)
      requires Describes(Now(), d, p, e, base) && Discharged(d.k)
      modifies `code, `q, `jpc, `freereg
      ensures Branches(Now(), d, pc, p, e, base, cond) && Kept(p, old(Now()), Now())
    {
      var r := ToFreeReg(d, p, e, base);
      ghost var v1 := Now();
      pc := CondJump(TestSet(NO_REG, r.k.reg, cond));
      BranchValue(v1, Now(), r, p, e, base, cond);
      KeptTrans(p, old(Now()), v1, Now());
    }

    method JumpInverted(d: ExpDesc, ghost p: int, ghost e: Expr, ghost base: nat)
      requires Describes(Now(), d, p, e, base) && d.k.VJmp?
      modifies `code
      ensures Branches(Now(), d, d.k.pc, p, e, base, false) && Kept(p, old(Now()), Now())
    {
      JumpCode(Now(), d, p, e, base);
      InvertJump(d.k.pc);
      BranchInverted(old(Now()), Now(), d, p, e, base);
    }

    /** The jump of luaK_goiftrue, unless the value is a literal that goes on. */
    method JumpIfFalse(d: ExpDesc, ghost p: int, ghost e: Expr, ghost base: nat) returns (pc: int)
      requires Describes(Now(), d, p, e, base) && !d.k.VLocal? && !d.k.VUpval? && !Stays(true, KnownOf(d.k))
      requires d.k.VFalse? ==> jpc == NO_JUMP
      modifies `code, `q, `jpc, `freereg
      ensures Branches(Now(), d, pc, p, e, base, false) && Kept(p, old(Now()), Now())
    {
      if d.k.VFalse? {
        pc := AlwaysJump();
        BranchLit(old(Now()), Now(), d, p, e, base);
      } else if d.k.VJmp? {
        JumpInverted(d, p, e, base);
        pc := d.k.pc;
      } else {
        pc := JumpOnCond(d, false, p, e, base);
      }
    }

    /** The jump of luaK_goiffalse, unless the value is a literal that goes on. */
    method JumpIfTrue(d: ExpDesc, ghost p: int, ghost e: Expr, ghost base: nat) returns (pc: int)
      requires Describes(Now(), d, p, e, base) && !d.k.VLocal? && !d.k.VUpval? && !Stays(false, KnownOf(d.k))
      requires d.k.VTrue? ==> jpc == NO_JUMP
      modifies `code, `q, `jpc, `freereg
      ensures Branches(Now(), d, pc, p, e, base, true) && Kept(p, old(Now()), Now())
    {
      if d.k.VTrue? {
        pc := AlwaysJump();
        BranchLit(old(Now()), Now(), d, p, e, base);
      } else if d.k.VJmp? {
        BranchJump(Now(), d, p, e, base);
        pc := d.k.pc;
      } else {
        pc := JumpOnCond(d, true, p, e, base);
      }
    }

    /** luaK_goiftrue: afterwards the code goes on only if the value is true. */
    method GoIfTrue(d: ExpDesc, ghost p: int, ghost e: Expr, ghost base: nat) returns (r: ExpDesc)
      requires Describes(Now(), d, p, e, base) && (Leaps(true, KnownOf(d.k)) ==> jpc == NO_JUMP)
      modifies `code, `q, `jpc, `freereg
      ensures r.t == NO_JUMP && Decided(Now(), r.f, p, e, base, true) && Kept(p, old(Now()), Now())
      ensures GoneOn(old(Now()), Now(), d, r, true)
    {
      r := DischargeVars(d, p, e, base);
      ghost var v1 := Now();
      if r.k.VK? || r.k.VKNum? || r.k.VTrue? {
        r := StayOn(r, true, p, e, base);
      } else {
        var pc := JumpIfFalse(r, p, e, base);
        ghost var v2 := Now();
        r := Closing(r, pc, true, p, e, base);
        KeptTrans(p, v1, v2, Now());
      }
      KeptTrans(p, old(Now()), v1, Now());
    }

    /** luaK_goiffalse: afterwards the code goes on only if the value is false. */
    method GoIfFalse(d: ExpDesc, ghost p: int, ghost e: Expr, ghost base: nat) returns (r: ExpDesc)
      requires Describes(Now(), d, p, e, base) && (Leaps(false, KnownOf(d.k)) ==> jpc == NO_JUMP)
      modifies `code, `q, `jpc, `freereg
      ensures r.f == NO_JUMP && Decided(Now(), r.t, p, e, base, false) && Kept(p, old(Now()), Now())
      ensures GoneOn(old(Now()), Now(), d, r, false)
    {
      r := DischargeVars(d, p, e, base);
      ghost var v1 := Now();
      if r.k.VFalse? {
        r := StayOn(r, false, p, e, base);
      } else {
        var pc := JumpIfTrue(r, p, e, base);
        ghost var v2 := Now();
        r := Closing(r, pc, false, p, e, base);
        KeptTrans(p, v1, v2, Now());
      }
      KeptTrans(p, old(Now()), v1, Now());
    }

    /** The end of both when there is no jump: the jumps for the case that goes on come here. */
    method StayOn(d: ExpDesc, sense: bool, ghost p: int, ghost e: Expr, ghost base: nat) returns (r: ExpDesc)
      requires Describes(Now(), d, p, e, base) && IsLit(d.k) && IsFalse(LitVal(d.k)) == !sense
      modifies `code, `q, `jpc
      ensures r == if sense then d.(t := NO_JUMP) else d.(f := NO_JUMP)
      ensures Decided(Now(), if sense then r.f else r.t, p, e, base, sense) && Kept(p, old(Now()), Now())
      ensures jpc == if old(jpc) == NO_JUMP then (if sense then d.t else d.f) else old(jpc)
    {
      CloseHere(if sense then d.t else d.f);
      LitClosed(old(Now()), Now(), d, p, e, base, sense);
      r := if sense then d.(t := NO_JUMP) else d.(f := NO_JUMP);
    }

    /** The end of both: the jump joins the list for its case, the jumps for the other case come here. */
    method Closing(d: ExpDesc, pc: int, sense: bool, ghost p: int, ghost e: Expr, ghost base: nat) returns (r: ExpDesc)
      requires Branches(Now(), d, pc, p, e, base, !sense) && 0 <= p <= |code|
      modifies `code, `q, `jpc
      ensures if sense then r.t == NO_JUMP else r.f == NO_JUMP
      ensures Decided(Now(), if sense then r.f else r.t, p, e, base, sense) && Kept(p, old(Now()), Now())
      ensures jpc == if sense then d.t else d.f
    {
      var stay := if sense then d.f else d.t;
      var gone := if sense then d.t else d.f;
      stay := Hang(stay, pc);
      ghost var v1 := Now();
      BranchHung(old(Now()), v1, d, pc, p, e, base, sense, stay);
      CloseHere(gone);
      BranchClosed(v1, Now(), gone, stay, p, e, base, sense);
      KeptTrans(p, old(Now()), v1, Now());
      r := if sense then d.(f := stay, t := NO_JUMP) else d.(t := stay, f := NO_JUMP);
    }

    /** codenot. */
    method CodeNot(d: ExpDesc, ghost p: int, ghost e: Expr, ghost base: nat) returns (r: ExpDesc)
      requires Describes(Now(), d, p, e, base)
      modifies `code, `q, `jpc, `freereg
      ensures Describes(Now(), r, p, Not(e), base) && Kept(p, old(Now()), Now())
      ensures KnownOf(r.k) == Flip(KnownOf(d.k)) && r.t == d.f && r.f == d.t && (jpc == NO_JUMP || jpc == old(jpc))
    {
      r := DischargeVars(d, p, e, base);
      ghost var v1 := Now();
      r := NotOfDischarged(r, p, e, base);
      KeptTrans(p, old(Now()), v1, Now());
    }

    method NotOfDischarged(d: ExpDesc, ghost p: int, ghost e: Expr, ghost base: nat) returns (r: ExpDesc)
      requires Describes(Now(), d, p, e, base) && !d.k.VLocal? && !d.k.VUpval?
      modifies `code, `q, `jpc, `freereg
      ensures Describes(Now(), r, p, Not(e), base) && Kept(p, old(Now()), Now())
      ensures KnownOf(r.k) == Flip(KnownOf(d.k)) && r.t == d.f && r.f == d.t && (jpc == NO_JUMP || jpc == old(jpc))
    {
      if d.k.VFalse? {
        r := NotOfLit(d, VTrue, p, e, base);
      } else if d.k.VK? || d.k.VKNum? || d.k.VTrue? {
        r := NotOfLit(d, VFalse, p, e, base);
      } else if d.k.VJmp? {
        r := NotOfJump(d, p, e, base);
      } else {
        r := NotOfValue(d, p, e, base);
      }
    }

    method NotOfLit(d: ExpDesc, k: Kind, ghost p: int, ghost e: Expr, ghost base: nat) returns (r: ExpDesc)
      requires Describes(Now(), d, p, e, base) && IsLit(d.k) && (k.VTrue? || k.VFalse?) && LitVal(k) == Bool(IsFalse(LitVal(d.k)))
      modifies `code
      ensures Describes(Now(), r, p, Not(e), base) && Kept(p, old(Now()), Now()) && r == ExpDesc(k, d.f, d.t)
    {
      RemoveValues(d.t);
      RemoveValues(d.f);
      r := ExpDesc(k, d.f, d.t);
      DescribeNotLit(old(Now()), Now(), d, k, p, e, base);
    }

    method NotOfJump(d: ExpDesc, ghost p: int, ghost e: Expr, ghost base: nat) returns (r: ExpDesc)
      requires Describes(Now(), d, p, e, base) && d.k.VJmp?
      modifies `code
      ensures Describes(Now(), r, p, Not(e), base) && Kept(p, old(Now()), Now()) && r == ExpDesc(d.k, d.f, d.t)
    {
      JumpCode(Now(), d, p, e, base);
      InvertJump(d.k.pc);
      ghost var v1 := Now();
      RemoveValues(d.t);
      RemoveValues(d.f);
      r := d.(t := d.f, f := d.t);
      DescribeNotJump(old(Now()), v1, Now(), d, p, e, base);
    }

    method NotOfValue(d: ExpDesc, ghost p: int, ghost e: Expr, ghost base: nat) returns (r: ExpDesc)
      requires Describes(Now(), d, p, e, base) && (d.k.VReloc? || d.k.VNonReloc?)
      modifies `code, `q, `jpc, `freereg
      ensures Describes(Now(), r, p, Not(e), base) && Kept(p, old(Now()), Now())
      ensures r.k.VReloc? && r.t == d.f && r.f == d.t && jpc == NO_JUMP
    {
      r := ToFreeReg(d, p, e, base);
      ghost var v1 := Now();
      r := NotOfReg(r, p, e, base);
      KeptTrans(p, old(Now()), v1, Now());
    }

    method NotOfReg(d: ExpDesc, ghost p: int, ghost e: Expr, ghost base: nat) returns (r: ExpDesc)
      requires Tells(Now(), d, p, e, base) && d.k.VNonReloc? && freereg == base && nactvar <= base
      modifies `code, `q, `jpc
      ensures Describes(Now(), r, p, Not(e), base) && Kept(p, old(Now()), Now())
      ensures r.k.VReloc? && r.t == d.f && r.f == d.t && jpc == NO_JUMP
    {
      var pc := Code(NotOf(0, d.k.reg));
      ghost var v1 := Now();
      RemoveValues(d.t);
      RemoveValues(d.f);
      DescribeNotValue(old(Now()), v1, Now(), d, p, e, base);
      r := ExpDesc(VReloc(pc), d.f, d.t);
    }

    // ---------- the value into a register ----------

    /** patchlistaux on the lists of an expression. */
    method ResolveList(list: int, vtarget: int, reg: int, dtarget: int)
      requires Sound(Now()) && IsHead(q, list) && (list != jpc || list == NO_JUMP)
      modifies `code, `q
      ensures Resolved(old(Now()), Now(), list, vtarget, reg, dtarget)
    {
      ResolveSteps(code, q, jpc, list, vtarget, reg, dtarget);
      DropOk(code, q, list, vtarget, reg, dtarget);
      ElemsAreJumps(code, q, list);
      PatchListAux(list, vtarget, reg, dtarget);
    }

    /** discharge2reg: the value goes to `reg`, unless it is that of a comparison. */
    method Discharge2Reg(d: ExpDesc, reg: int, ghost p: int, ghost e: Expr, ghost base: nat) returns (r: ExpDesc)
      requires Tells(Now(), d, p, e, base)
      modifies `code, `q, `jpc
      ensures r.t == d.t && r.f == d.f && Kept(p, old(Now()), Now())
      ensures jpc == NO_JUMP || jpc == old(jpc)
      ensures if d.k.VJmp? then r == d && Tells(Now(), r, p, e, base)
              else r.k == VNonReloc(reg) && Loaded(Now(), r.t, r.f, p, e, base, reg, true)
    {
      r := DischargeVars(d, p, e, base);
      ghost var v1 := Now();
      if r.k.VJmp? {
        return;
      }
      PutValue(r, reg, p, e, base);
      KeptTrans(p, old(Now()), v1, Now());
      r := r.(k := VNonReloc(reg));
    }

    method PutValue(d: ExpDesc, reg: int, ghost p: int, ghost e: Expr, ghost base: nat)
      requires Tells(Now(), d, p, e, base) && Discharged(d.k)
      modifies `code, `q, `jpc
      ensures Loaded(Now(), d.t, d.f, p, e, base, reg, true) && Kept(p, old(Now()), Now()) && (jpc == NO_JUMP || jpc == old(jpc))
    {
      if d.k.VReloc? {
        TargetSet(d, reg, p, e, base);
      } else if d.k.VNonReloc? {
        MoveTo(d, reg, p, e, base);
      } else {
        PutLiteral(d, reg, p, e, base);
      }
    }

    /** An instruction loads a literal. */
    method PutLiteral(d: ExpDesc, reg: int, ghost p: int, ghost e: Expr, ghost base: nat)
      requires Tells(Now(), d, p, e, base) && IsLit(d.k)
      modifies `code, `q, `jpc
      ensures Loaded(Now(), d.t, d.f, p, e, base, reg, true) && Kept(p, old(Now()), Now()) && jpc == NO_JUMP
    {
      var i := if d.k.VTrue? || d.k.VFalse? then LoadBool(reg, d.k.VTrue?, false) else LoadK(reg, LitVal(d.k));
      var _ := Code(i);
      LoadedPut(old(Now()), Now(), d, p, e, base, i, reg);
    }

    /** An instruction without a target gets one. */
    method TargetSet(d: ExpDesc, reg: int, ghost p: int, ghost e: Expr, ghost base: nat)
      requires Tells(Now(), d, p, e, base) && d.k.VReloc?
      modifies `code
      ensures Loaded(Now(), d.t, d.f, p, e, base, reg, true) && Kept(p, old(Now()), Now())
    {
      RelocatableCode(Now(), d, p, e, base);
      SetTarget(d.k.pc, reg);
      LoadedRelocated(old(Now()), Now(), d, p, e, base, reg);
    }

    /** A value in another register is moved. */
    method MoveTo(d: ExpDesc, reg: int, ghost p: int, ghost e: Expr, ghost base: nat)
      requires Tells(Now(), d, p, e, base) && d.k.VNonReloc?
      modifies `code, `q, `jpc
      ensures Loaded(Now(), d.t, d.f, p, e, base, reg, true) && Kept(p, old(Now()), Now()) && (jpc == NO_JUMP || jpc == old(jpc))
    {
      if reg != d.k.reg {
        var _ := Code(Move(reg, d.k.reg));
        LoadedPut(old(Now()), Now(), d, p, e, base, Move(reg, d.k.reg), reg);
      } else {
        LoadedInPlace(Now(), d, p, e, base);
      }
    }

    /** The instructions that load a boolean, after the value itself (`loaded`) or a comparison. */
    method CodeLoads(reg: int)
      requires Sound(Now())
      modifies `code, `q, `jpc
      ensures LoadsAdded(old(Now()), Now(), reg)
    {
      var p_f := Code(LoadBool(reg, false, true));
      var p_t := Code(LoadBool(reg, true, false));
    }

    method CodeLoadsBehindJump(reg: int)
      requires Sound(Now())
      modifies `code, `q, `jpc
      ensures LoadsBehindJump(old(Now()), Now(), reg)
    {
      var fj := Jump();
      ghost var v1 := Now();
      CodeLoads(reg);
      assert Jumps(q, fj) == Jumps(v1.q, fj);
      ElemsAreJumps(code, q, NO_JUMP);
      PatchToHere(fj);
    }

    /** exp2reg. */
    method Exp2Reg(d: ExpDesc, reg: int, ghost p: int, ghost e: Expr, ghost base: nat) returns (r: ExpDesc)
      requires Tells(Now(), d, p, e, base) && reg >= 0
      modifies `code, `q, `jpc
      ensures r == ExpDesc(VNonReloc(reg), NO_JUMP, NO_JUMP)
      ensures Delivered(Now(), p, e, base, reg) && Kept(p, old(Now()), Now())
      ensures d.t == d.f == NO_JUMP ==> jpc == NO_JUMP || jpc == old(jpc)
    {
      r := Discharge2Reg(d, reg, p, e, base);
      ghost var v1 := Now();
      var loaded := !r.k.VJmp?;
      if !loaded {
        r := HangJump(r, reg, p, e, base);
        KeptTrans(p, old(Now()), v1, Now());
      }
      ghost var v2 := Now();
      if r.t != r.f {
        CloseLists(r.t, r.f, reg, loaded, p, e, base);
        KeptTrans(p, old(Now()), v2, Now());
      } else {
        DeliveredPlain(v2, p, e, base, reg);
      }
      r := ExpDesc(VNonReloc(reg), NO_JUMP, NO_JUMP);
    }

    /** The jump of a comparison joins the list for true. */
    method HangJump(d: ExpDesc, ghost reg: int, ghost p: int, ghost e: Expr, ghost base: nat) returns (r: ExpDesc)
      requires Tells(Now(), d, p, e, base) && d.k.VJmp?
      modifies `code, `q
      ensures Loaded(Now(), r.t, r.f, p, e, base, reg, false) && Kept(p, old(Now()), Now()) && r.t != r.f
    {
      JumpCode(Now(), d, p, e, base);
      var t := Hang(d.t, d.k.pc);
      LoadedJump(old(Now()), Now(), d, p, e, base, reg, t);
      r := d.(t := t);
    }

    /** The jumps of both lists get their destinations, with instructions to load a boolean if some jump needs one. */
    method CloseLists(t: int, f: int, reg: int, loaded: bool, ghost p: int, ghost e: Expr, ghost base: nat)
      requires Loaded(Now(), t, f, p, e, base, reg, loaded) && t != f && reg >= 0
      modifies `code, `q, `jpc
      ensures Delivered(Now(), p, e, base, reg) && Kept(p, old(Now()), Now()) && (!loaded ==> jpc == NO_JUMP || jpc == old(jpc))
    {
      var needT := NeedValue(t);
      var needF := NeedValue(f);
      if needT || needF {
        if loaded {
          CloseBehindJump(t, f, reg, p, e, base);
        } else {
          CloseCompared(t, f, reg, p, e, base);
        }
      } else {
        var final := |code|;
        ResolveList(f, final, reg, NO_JUMP);
        ghost var v1 := Now();
        ResolveList(t, final, reg, NO_JUMP);
        DeliveredShort(old(Now()), v1, Now(), t, f, p, e, base, reg, NO_JUMP, NO_JUMP);
      }
    }

    method CloseBehindJump(t: int, f: int, reg: int, ghost p: int, ghost e: Expr, ghost base: nat)
      requires Loaded(Now(), t, f, p, e, base, reg, true) && t != f && reg >= 0
      modifies `code, `q, `jpc
      ensures Delivered(Now(), p, e, base, reg) && Kept(p, old(Now()), Now())
    {
      var n := |code|;
      ghost var v0 := Now();
      CodeLoadsBehindJump(reg);
      ghost var v1 := Now();
      LoadsBehindOwn(v0, v1, t, f, reg, p, e, base);
      ResolveList(f, |code|, reg, n + 1);
      ghost var v2 := Now();
      ResolveList(t, |code|, reg, n + 2);
      ghost var v3 := Now();
      DeliveredLong(v0, v1, v2, v3, t, f, p, e, base, reg);
    }

    method CloseCompared(t: int, f: int, reg: int, ghost p: int, ghost e: Expr, ghost base: nat)
      requires Loaded(Now(), t, f, p, e, base, reg, false) && t != f && reg >= 0
      modifies `code, `q, `jpc
      ensures Delivered(Now(), p, e, base, reg) && Kept(p, old(Now()), Now()) && jpc == NO_JUMP
    {
      var n := |code|;
      CodeLoads(reg);
      ghost var v1 := Now();
      LoadsAddedLists(old(Now()), v1, reg, p);
      ResolveList(f, |code|, reg, n);
      ghost var v2 := Now();
      ResolveList(t, |code|, reg, n + 1);
      DeliveredJump(old(Now()), v1, v2, Now(), t, f, p, e, base, reg);
    }

    /** luaK_exp2nextreg. */
    method Exp2NextReg(d: ExpDesc, ghost p: int, ghost e: Expr, ghost base: nat) returns (r: ExpDesc)
      requires Describes(Now(), d, p, e, base)
      modifies `code, `q, `jpc, `freereg
      ensures r == ExpDesc(VNonReloc(base), NO_JUMP, NO_JUMP) && freereg == base + 1
      ensures Describes(Now(), r, p, e, base) && Kept(p, old(Now()), Now())
      ensures d.t == d.f == NO_JUMP ==> jpc == NO_JUMP || jpc == old(jpc)
    {
      r := TakeNextReg(d, p, e, base);
      ghost var v1 := Now();
      r := Exp2Reg(r, freereg - 1, p, e, base);
      DescribeDelivered(Now(), p, e, base);
      KeptTrans(p, old(Now()), v1, Now());
    }

    /** Its first half: the next register is reserved. */
    method TakeNextReg(d: ExpDesc, ghost p: int, ghost e: Expr, ghost base: nat) returns (r: ExpDesc)
      requires Describes(Now(), d, p, e, base)
      modifies `code, `q, `jpc, `freereg
      ensures Tells(Now(), r, p, e, base) && freereg == base + 1 && r.t == d.t && r.f == d.f && Kept(p, old(Now()), Now())
      ensures nactvar <= base && (jpc == NO_JUMP || jpc == old(jpc))
    {
      r := DischargeVars(d, p, e, base);
      ghost var v1 := Now();
      FreeExp(r);
      ReserveRegs(1);
      TellsFree(v1, Now(), r, p, e, base);
      KeptTrans(p, old(Now()), v1, Now());
    }

    /** luaK_exp2anyreg. */
    method Exp2AnyReg(d: ExpDesc, ghost p: int, ghost e: Expr, ghost base: nat) returns (r: ExpDesc)
      requires Describes(Now(), d, p, e, base)
      modifies `code, `q, `jpc, `freereg
      ensures Describes(Now(), r, p, e, base) && r.k.VNonReloc? && r.t == r.f == NO_JUMP && Kept(p, old(Now()), Now())
      ensures d.t == d.f == NO_JUMP ==> jpc == NO_JUMP || jpc == old(jpc)
    {
      r := DischargeVars(d, p, e, base);
      ghost var v1 := Now();
      if r.k.VNonReloc? {
        if r.t == r.f {
          return;
        }
        if r.k.reg >= nactvar {
          r := Exp2Reg(r, r.k.reg, p, e, base);
          DescribeDelivered(Now(), p, e, base);
          KeptTrans(p, old(Now()), v1, Now());
          return;
        }
      }
      r := Exp2NextReg(r, p, e, base);
      KeptTrans(p, old(Now()), v1, Now());
    }

    /** Every constant has an index of its own, below `nk`. */
    ghost predicate Indexed()
      reads this
    {
      && (forall v :: v in h ==> h[v] < nk)
      && (forall v, w :: v in h && w in h && h[v] == h[w] ==> v == w)
    }

    /** addk: the index of a constant; the next one, if it is new. */
    method AddK(v: Val) returns (info: nat)
      modifies `nk, `h
      ensures v in old(h) ==> info == old(h)[v] && h == old(h) && nk == old(nk)
      ensures v !in old(h) ==> info == old(nk) && h == old(h)[v := info] && nk == info + 1
      ensures old(Indexed()) ==> Indexed()
    {
      if v in h {
        return h[v];
      }
      h := h[v := nk];
      nk := nk + 1;
      return nk - 1;
    }

    /** luaK_exp2val. */
    method Exp2Val(d: ExpDesc, ghost p: int, ghost e: Expr, ghost base: nat) returns (r: ExpDesc)
      requires Describes(Now(), d, p, e, base)
      modifies `code, `q, `jpc, `freereg
      ensures Describes(Now(), r, p, e, base) && r.t == r.f == NO_JUMP && Kept(p, old(Now()), Now())
      ensures d.t == d.f == NO_JUMP ==> jpc == NO_JUMP || jpc == old(jpc)
    {
      if d.t != d.f {
        r := Exp2AnyReg(d, p, e, base);
      } else {
        r := DischargeVars(d, p, e, base);
      }
    }

    /** luaK_exp2RK: a constant whose index fits in an instruction stays one, other values go to a register. */
    method Exp2RK(d: ExpDesc, ghost p: int, ghost e: Expr, ghost base: nat) returns (r: ExpDesc)
      requires Describes(Now(), d, p, e, base)
      modifies `code, `q, `jpc, `freereg, `nk, `h
      ensures IsOperandOf(Now(), r, p, e, base) && Kept(p, old(Now()), Now())
      ensures d.t == d.f == NO_JUMP ==> jpc == NO_JUMP || jpc == old(jpc)
      ensures old(Indexed()) ==> Indexed() && (r.k.VK? ==> r.k.info <= 255)
    {
      r := Exp2Val(d, p, e, base);
      ghost var v1 := Now();
      if (r.k.VKNum? || r.k.VTrue? || r.k.VFalse?) && nk <= MAXINDEXRK {
        var info := AddK(LitVal(r.k));
        DescribeConst(Now(), r, VK(info, LitVal(r.k)), p, e, base);
        r := r.(k := VK(info, LitVal(r.k)));
      } else if !(r.k.VK? && r.k.info <= MAXINDEXRK) {
        r := Exp2AnyReg(r, p, e, base);
      }
      KeptTrans(p, old(Now()), v1, Now());
    }

    // ---------- operators ----------

    /** luaK_infix: between an operator's first operand and its second. */
    method Infix(op: BinOp, d: ExpDesc, ghost p: int, ghost e: Expr, ghost base: nat, ghost s: Shape) returns (r: ExpDesc)
      requires Describes(Now(), d, p, e, base) && Shaped(Now(), d, s) && (Leaping(op, s.known) ==> !s.here)
      modifies `code, `q, `jpc, `freereg, `nk, `h
      ensures Prepared(Now(), op, r, p, e, base) && Kept(p, old(Now()), Now()) && nactvar <= freereg
      ensures ShapedFirst(Now(), op, r, s)
    {
      if op == And {
        r := GoIfTrue(d, p, e, base);
      } else if op == Or {
        r := GoIfFalse(d, p, e, base);
      } else {
        r := Exp2RK(d, p, e, base);
      }
    }

    /** codecomp: a comparison and its jump; `>` and `>=` become `<` and `<=` with exchanged operands. */
    method CodeComp(op: CmpOp, cond: bool, d1: ExpDesc, d2: ExpDesc) returns (pc: int)
      requires Sound(Now()) && IsOperand(d1.k) && IsOperand(d2.k) && freereg >= TakenBy(d1.k, nactvar) + TakenBy(d2.k, nactvar)
      modifies `code, `q, `jpc, `freereg
      ensures pc == |old(code)| + 1 && freereg == old(freereg) - TakenBy(d1.k, nactvar) - TakenBy(d2.k, nactvar)
      ensures TestAdded(old(Now()), Now(), if !cond && op != Eq then Compare(op, true, OperandOf(d2.k), OperandOf(d1.k))
                                           else Compare(op, cond, OperandOf(d1.k), OperandOf(d2.k)))
    {
      var o1, o2, c := OperandOf(d1.k), OperandOf(d2.k), cond;
      FreeExp(d2);
      FreeExp(d1);
      if !cond && op != Eq {
        o1, o2 := o2, o1;
        c := true;
      }
      pc := CondJump(Compare(op, c, o1, o2));
    }

    /** luaK_posfix on a comparison. */
    method PosfixCompare(op: BinOp, d1: ExpDesc, d2: ExpDesc, ghost v1: View, ghost p: int, ghost e1: Expr, ghost e2: Expr, ghost base: nat)
        returns (r: ExpDesc)
      requires op != And && op != Or && Prepared(v1, op, d1, p, e1, base) && Kept(|v1.code|, v1, Now())
      requires Describes(Now(), d2, |v1.code|, e2, v1.freereg) && LocalsBelow(e2, base)
      modifies `code, `q, `jpc, `freereg, `nk, `h
      ensures Describes(Now(), r, p, Bin(op, e1, e2), base) && Kept(p, old(Now()), Now())
      ensures r.k.VJmp? && r.t == r.f == NO_JUMP == jpc
    {
      var r2 := Exp2RK(d2, |v1.code|, e2, v1.freereg);
      ghost var v2 := Now();
      KeptTrans(|v1.code|, v1, old(Now()), v2);
      r := CompareRegs(op, d1, r2, v1, p, e1, e2, base);
      KeptBefore(p, |v1.code|, old(Now()), v2);
      KeptTrans(p, old(Now()), v2, Now());
    }

    method CompareRegs(op: BinOp, d1: ExpDesc, d2: ExpDesc, ghost v1: View, ghost p: int, ghost e1: Expr, ghost e2: Expr, ghost base: nat)
        returns (r: ExpDesc)
      requires op != And && op != Or && Prepared(v1, op, d1, p, e1, base) && Kept(|v1.code|, v1, Now())
      requires IsOperandOf(Now(), d2, |v1.code|, e2, v1.freereg) && LocalsBelow(e2, base)
      modifies `code, `q, `jpc, `freereg
      ensures Describes(Now(), r, p, Bin(op, e1, e2), base) && Kept(p, old(Now()), Now())
      ensures r.k.VJmp? && r.t == r.f == NO_JUMP == jpc
    {
      ghost var v2 := Now();
      OperandRegs(v1, v2, d1, d2, p, e1, e2, base);
      var pc := CompPosfix(op, d1, d2);
      r := ExpDesc(VJmp(pc), NO_JUMP, NO_JUMP);
      ghost var v3 := Now();
      DescribeCompare(v1, v2, v3, d1, d2, p, e1, e2, base, op);
      assert Describes(v3, r, p, Bin(op, e1, e2), base) && Kept(p, v2, v3);
    }

    /** The comparisons among the cases of luaK_posfix. */
    method CompPosfix(op: BinOp, d1: ExpDesc, d2: ExpDesc) returns (pc: int)
      requires op != And && op != Or && Sound(Now()) && IsOperand(d1.k) && IsOperand(d2.k) && freereg >= TakenBy(d1.k, nactvar) + TakenBy(d2.k, nactvar)
      modifies `code, `q, `jpc, `freereg
      ensures pc == |old(code)| + 1 && freereg == old(freereg) - TakenBy(d1.k, nactvar) - TakenBy(d2.k, nactvar)
      ensures TestAdded(old(Now()), Now(), Comparison(op, OperandOf(d1.k), OperandOf(d2.k)))
    {
      match op {
        case Equal => pc := CodeComp(Eq, true, d1, d2);
        case NotEqual => pc := CodeComp(Eq, false, d1, d2);
        case Less => pc := CodeComp(Lt, true, d1, d2);
        case LessEq => pc := CodeComp(Le, true, d1, d2);
        case Greater => pc := CodeComp(Lt, false, d1, d2);
        case GreaterEq => pc := CodeComp(Le, false, d1, d2);
      }
    }

    /** luaK_posfix on `and` (`sense`) and `or`. */
    method PosfixLogic(sense: bool, d1: ExpDesc, d2: ExpDesc, ghost v1: View, ghost p: int, ghost e1: Expr, ghost e2: Expr, ghost base: nat)
        returns (r: ExpDesc)
      requires Prepared(v1, if sense then And else Or, d1, p, e1, base) && Kept(|v1.code|, v1, Now())
      requires Describes(Now(), d2, |v1.code|, e2, base) && LocalsBelow(e2, base)
      modifies `code, `q, `jpc
      ensures Describes(Now(), r, p, Bin(if sense then And else Or, e1, e2), base) && Kept(p, old(Now()), Now())
      ensures JoinedLogic(sense, old(Now()), Now(), d1, d2, r)
    {
      r := DischargeVars(d2, |v1.code|, e2, base);
      ghost var v2 := Now();
      KeptTrans(|v1.code|, v1, old(Now()), v2);
      r := HangFirst(sense, r, if sense then d1.f else d1.t, v1, p, e1, e2, base);
      KeptBefore(p, |v1.code|, old(Now()), v2);
      KeptTrans(p, old(Now()), v2, Now());
    }

    method HangFirst(sense: bool, d: ExpDesc, h: int, ghost v1: View, ghost p: int, ghost e1: Expr, ghost e2: Expr, ghost base: nat)
        returns (r: ExpDesc)
      requires Decided(v1, h, p, e1, base, sense) && Kept(|v1.code|, v1, Now())
      requires Describes(Now(), d, |v1.code|, e2, base) && LocalsBelow(e2, base)
      modifies `code, `q
      ensures Describes(Now(), r, p, Bin(if sense then And else Or, e1, e2), base) && Kept(p, old(Now()), Now())
      ensures r.k == d.k && if sense then r.t == d.t && (r.f != NO_JUMP ==> d.f != NO_JUMP || h != NO_JUMP)
                            else r.f == d.f && (r.t != NO_JUMP ==> d.t != NO_JUMP || h != NO_JUMP)
    {
      ghost var v2 := Now();
      var l := HangList(if sense then d.f else d.t, h, v1, p, |v1.code|);
      DescribeJoined(v1, v2, Now(), d, h, l, p, e1, e2, base, sense);
      r := if sense then d.(f := l) else d.(t := l);
    }

    /** luaK_concat on a list `h` of the first operand and a list of the second one. */
    method HangList(list: int, h: int, ghost v1: View, ghost p: int, ghost p2: int) returns (l: int)
      requires Sound(v1) && Kept(|v1.code|, v1, Now()) && OwnList(v1, h, p) && (h != NO_JUMP ==> OwnHere(v1, p))
      requires Sound(Now()) && OwnList(Now(), list, p2) && p2 == |v1.code|
      modifies `code, `q
      ensures Sound(Now()) && Now() == old(Now()).(code := code, q := q) && S() == old(S()) && IsHead(q, l)
      ensures l == (if list == NO_JUMP then h else list)
      ensures Jumps(q, l) == Jumps(old(q), list) + Jumps(old(q), h) && Keeps(old(q), q, {list, h})
    {
      FirstListKept(v1, Now(), h, p);
      l := Hang(list, h);
    }

    /** luaK_posfix. */
    method Posfix(op: BinOp, d1: ExpDesc, d2: ExpDesc, ghost v1: View, ghost p: int, ghost e1: Expr, ghost e2: Expr, ghost base: nat,
                  ghost s1: Shape, ghost s2: Shape) returns (r: ExpDesc)
      requires Prepared(v1, op, d1, p, e1, base) && Kept(|v1.code|, v1, Now()) && ShapedFirst(v1, op, d1, s1)
      requires Describes(Now(), d2, |v1.code|, e2, v1.freereg) && LocalsBelow(e2, base) && Shaped(Now(), d2, s2)
      modifies `code, `q, `jpc, `freereg, `nk, `h
      ensures Describes(Now(), r, p, Bin(op, e1, e2), base) && Kept(p, old(Now()), Now())
      ensures Shaped(Now(), r, Joined(op, s1, s2))
    {
      ghost var v2 := Now();
      if op == And || op == Or {
        r := PosfixLogic(op == And, d1, d2, v1, p, e1, e2, base);
      } else {
        r := PosfixCompare(op, d1, d2, v1, p, e1, e2, base);
      }
      JoinedShape(op, v1, v2, Now(), d1, d2, r, s1, s2);
    }

    /** The calls that the parser makes for an expression.  Jumps to here may be waiting if `here`. */
    method Compile(e: Expr, ghost here: bool, ghost s: Shape) returns (d: ExpDesc)
      requires Sound(Now()) && LocalsBelow(e, nactvar) && nactvar <= freereg
      requires ShapeOf(e, here) == Some(s) && (jpc != NO_JUMP ==> here)
      modifies `code, `q, `jpc, `freereg, `nk, `h
      ensures Describes(Now(), d, |old(code)|, e, old(freereg)) && Kept(|old(code)|, old(Now()), Now())
      ensures Shaped(Now(), d, s)
      decreases e, 1
    {
      match e
      case Local(r) =>
        DescribeLeaf(Now(), VLocal(r), e);
        d := ExpDesc(VLocal(r), NO_JUMP, NO_JUMP);
      case Upval(n) =>
        DescribeLeaf(Now(), VUpval(n), e);
        d := ExpDesc(VUpval(n), NO_JUMP, NO_JUMP);
      case Lit(v) =>
        d := Literal(v);
        DescribeLeaf(Now(), d.k, e);
      case Not(x) =>
        d := Compile(x, here, ShapeOf(x, here).value);
        ghost var v1 := Now();
        d := CodeNot(d, |old(code)|, x, old(freereg));
        KeptTrans(|old(code)|, old(Now()), v1, Now());
      case Bin(op, l, r) =>
        ghost var s1 := ShapeOf(l, here).value;
        ghost var here2 := HereSecond(op, s1);
        d := CompileBin(op, l, r, here, s1, here2, ShapeOf(r, here2).value);
    }

    /** simpleexp on a literal; the constant of a string is made at once. */
    method Literal(v: Literal) returns (d: ExpDesc)
      modifies `nk, `h
      ensures IsLit(d.k) && LitVal(d.k) == v && d.t == d.f == NO_JUMP && (d.k.VK? ==> v.Other?)
      ensures d.k.VTrue? <==> v == Bool(true)
      ensures d.k.VFalse? <==> v == Bool(false)
    {
      match v
      case Bool(b) => d := ExpDesc(if b then VTrue else VFalse, NO_JUMP, NO_JUMP);
      case Number(n) => d := ExpDesc(VKNum(n), NO_JUMP, NO_JUMP);
      case Other(_) =>
        var info := AddK(v);
        d := ExpDesc(VK(info, v), NO_JUMP, NO_JUMP);
    }

    /** subexpr on a binary operator. */
    method CompileBin(op: BinOp, l: Expr, r: Expr, ghost here: bool, ghost s1: Shape, ghost here2: bool, ghost s2: Shape)
        returns (d: ExpDesc)
      requires Sound(Now()) && LocalsBelow(l, nactvar) && LocalsBelow(r, nactvar) && nactvar <= freereg
      requires ShapeOf(l, here) == Some(s1) && (jpc != NO_JUMP ==> here) && (Leaping(op, s1.known) ==> !s1.here)
      requires here2 == HereSecond(op, s1) && ShapeOf(r, here2) == Some(s2)
      modifies `code, `q, `jpc, `freereg, `nk, `h
      ensures Describes(Now(), d, |old(code)|, Bin(op, l, r), old(freereg)) && Kept(|old(code)|, old(Now()), Now())
      ensures Shaped(Now(), d, Joined(op, s1, s2))
      decreases Bin(op, l, r), 0
    {
      ghost var v0, p, base := Now(), |code|, freereg;
      d := CompileFirst(op, l, here, s1);
      d := CompileSecond(op, d, r, v0, p, l, base, s1, here2, s2);
    }

    method CompileFirst(op: BinOp, l: Expr, ghost here: bool, ghost s: Shape) returns (d: ExpDesc)
      requires Sound(Now()) && LocalsBelow(l, nactvar) && nactvar <= freereg
      requires ShapeOf(l, here) == Some(s) && (jpc != NO_JUMP ==> here) && (Leaping(op, s.known) ==> !s.here)
      modifies `code, `q, `jpc, `freereg, `nk, `h
      ensures Prepared(Now(), op, d, |old(code)|, l, old(freereg)) && Kept(|old(code)|, old(Now()), Now()) && nactvar <= freereg
      ensures ShapedFirst(Now(), op, d, s)
      decreases l, 2
    {
      d := Compile(l, here, s);
      ghost var v1 := Now();
      d := Infix(op, d, |old(code)|, l, old(freereg), s);
      KeptTrans(|old(code)|, old(Now()), v1, Now());
    }

    method CompileSecond(op: BinOp, d1: ExpDesc, r: Expr, ghost v0: View, ghost p: int, ghost l: Expr, ghost base: nat,
                         ghost s1: Shape, ghost here: bool, ghost s2: Shape) returns (d: ExpDesc)
      requires Prepared(Now(), op, d1, p, l, base) && nactvar <= base && nactvar <= freereg && LocalsBelow(r, nactvar)
      requires 0 <= p <= |code| && ShapedFirst(Now(), op, d1, s1) && Kept(p, v0, Now())
      requires here == HereSecond(op, s1) && ShapeOf(r, here) == Some(s2)
      modifies `code, `q, `jpc, `freereg, `nk, `h
      ensures Describes(Now(), d, p, Bin(op, l, r), base) && Kept(p, v0, Now())
      ensures Shaped(Now(), d, Joined(op, s1, s2))
      decreases r, 2
    {
      ghost var v1 := Now();
      d := Compile(r, here, s2);
      d := CombineOperands(op, d1, d, r, v0, v1, p, l, base, s1, s2);
    }

    /** luaK_posfix, after the second operand. */
    method CombineOperands(op: BinOp, d1: ExpDesc, d2: ExpDesc, ghost r: Expr, ghost v0: View, ghost v1: View, ghost p: int,
                           ghost l: Expr, ghost base: nat, ghost s1: Shape, ghost s2: Shape) returns (d: ExpDesc)
      requires Prepared(v1, op, d1, p, l, base) && ShapedFirst(v1, op, d1, s1) && Kept(p, v0, v1) && 0 <= p <= |v1.code|
      requires Describes(Now(), d2, |v1.code|, r, v1.freereg) && Kept(|v1.code|, v1, Now()) && Shaped(Now(), d2, s2)
      requires LocalsBelow(r, nactvar) && nactvar <= base
      modifies `code, `q, `jpc, `freereg, `nk, `h
      ensures Describes(Now(), d, p, Bin(op, l, r), base) && Kept(p, v0, Now())
      ensures Shaped(Now(), d, Joined(op, s1, s2))
    {
      ghost var v2 := Now();
      KeptBefore(p, |v1.code|, v1, v2);
      KeptTrans(p, v0, v1, v2);
      LocalsMono(r, nactvar, base);
      d := Posfix(op, d1, d2, v1, p, l, r, base, s1, s2);
      KeptTrans(p, v0, v2, Now());
    }

    // ---------- whole expressions ----------

    constructor (ghost env: Env, nactvar: nat)
      ensures Sound(Now()) && code == [] && freereg == nactvar && this.nactvar == nactvar && this.env == env
    {
      this.env, this.nactvar := env, nactvar;
      code, jpc, freereg, nk, h, q := [], NO_JUMP, nactvar, 0, map[], Pending(map[], map[]);
    }

    /** luaK_storevar to a local variable: `target = e`. */
    method StoreLocal(e: Expr, target: nat)
      requires Sound(Now()) && LocalsBelow(e, nactvar) && target < nactvar <= freereg
      requires Harmless(e, jpc != NO_JUMP)
      modifies `code, `q, `jpc, `freereg, `nk, `h
      ensures Delivered(Now(), |old(code)|, e, old(freereg), target) && freereg == old(freereg)
      ensures Kept(|old(code)|, old(Now()), Now())
    {
      var d := Compile(e, jpc != NO_JUMP, ShapeOf(e, jpc != NO_JUMP).value);
      FreeExp(d);
      ghost var v1 := Now();
      assert Kept(|old(code)|, old(Now()), v1);
      d := Exp2Reg(d, target, |old(code)|, e, old(freereg));
      KeptTrans(|old(code)|, old(Now()), v1, Now());
    }

    /** `local x = e`: the value in the next register. */
    method NewLocal(e: Expr)
      requires Sound(Now()) && LocalsBelow(e, nactvar) && nactvar <= freereg
      requires Harmless(e, jpc != NO_JUMP)
      modifies `code, `q, `jpc, `freereg, `nk, `h
      ensures Delivered(Now(), |old(code)|, e, old(freereg), old(freereg)) && freereg == old(freereg) + 1
      ensures Kept(|old(code)|, old(Now()), Now())
    {
      var d := Compile(e, jpc != NO_JUMP, ShapeOf(e, jpc != NO_JUMP).value);
      ghost var v1 := Now();
      d := Exp2NextReg(d, |old(code)|, e, old(freereg));
      MeansDelivered(Now(), |old(code)|, e, old(freereg));
      KeptTrans(|old(code)|, old(Now()), v1, Now());
    }

    /** luaK_ret: code that delivers a value and returns does so on the machine, from any registers. */
    method Finish(ghost p: int, ghost e: Expr, ghost base: nat, ghost reg: int)
      requires Delivered(Now(), p, e, base, reg)
      modifies `code, `q, `jpc
      ensures forall R {:trigger Exec(env, code, p, R)} :: Gives(Exec(env, code, p, R), Eval(env, e, R), R, base, reg)
    {
      ghost var s := S();
      var pc := Code(Return);
      assert S()[..|code| - 1] == s;
      forall R
        ensures Gives(Exec(env, code, p, R), Eval(env, e, R), R, base, reg)
      {
        assert Ready(s, {}, {}, Eval(env, e, R), R, base, reg, true, Run(env, s, p, R));
        ExecSteps(env, code, q, p, R);
      }
    }

    /** A whole function: `target = e`, and return.  The machine ends with the value of `e`, as the manual
        defines it, in the register of `target`, and no other register below the first free one has changed. */
    method CompileAssignment(e: Expr, target: nat)
      requires Sound(Now()) && LocalsBelow(e, nactvar) && target < nactvar <= freereg
      requires Harmless(e, jpc != NO_JUMP)
      modifies `code, `q, `jpc, `freereg, `nk, `h
      ensures forall R {:trigger Exec(env, code, |old(code)|, R)} ::
        Gives(Exec(env, code, |old(code)|, R), Eval(env, e, R), R, old(freereg), target)
      ensures forall R {:trigger Exec(env, code, |old(code)|, R)} :: Tabled(Exec(env, code, |old(code)|, R), env, e, R, target)
    {
      StoreLocal(e, target);
      Finish(|old(code)|, e, old(freereg), target);
      forall R
        ensures Tabled(Exec(env, code, |old(code)|, R), env, e, R, target)
      {
        TruthTables(Exec(env, code, |old(code)|, R), env, e, R, target);
      }
    }

    /** The same for `local x = e`. */
    method CompileLocal(e: Expr)
      requires Sound(Now()) && LocalsBelow(e, nactvar) && nactvar <= freereg
      requires Harmless(e, jpc != NO_JUMP)
      modifies `code, `q, `jpc, `freereg, `nk, `h
      ensures forall R {:trigger Exec(env, code, |old(code)|, R)} ::
        Gives(Exec(env, code, |old(code)|, R), Eval(env, e, R), R, old(freereg), old(freereg))
      ensures forall R {:trigger Exec(env, code, |old(code)|, R)} :: Tabled(Exec(env, code, |old(code)|, R), env, e, R, old(freereg))
    {
      NewLocal(e);
      Finish(|old(code)|, e, old(freereg), old(freereg));
      forall R
        ensures Tabled(Exec(env, code, |old(code)|, R), env, e, R, old(freereg))
      {
        TruthTables(Exec(env, code, |old(code)|, R), env, e, R, old(freereg));
      }
    }
  }

  /** The machine stops with value `v` in `reg`, and other registers below `base` as they were. */
  ghost predicate Gives(o: Final, v: Val, R: Regs, base: int, reg: int) {
    o.Halt? && Get(o.R, reg) == v && SameBut(R, o.R, base, reg)
  }
}

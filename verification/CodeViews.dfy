/** What the state of the code generator says about the expression being compiled. */
module CodeViews {
  import opened BoolCode
  import opened PatchLists
  import opened BoolMeaning

  /** The state of a FuncState, with the machine that will run the code. */
  datatype View = View(env: Env, nactvar: nat, code: seq<Instr>, q: Pending, jpc: int, freereg: nat)

  ghost function StepsOf(v: View): seq<Step> {
    Steps(v.code, v.q, v.jpc)
  }

  /** Sound lists, and the last instruction is no test waiting for its jump. */
  ghost predicate Sound(v: View) {
    && ListsOk(v.code, v.q) && Paired(v.code) && IsHead(v.q, v.jpc)
    && (|v.code| > 0 ==> !IsTest(v.code[|v.code| - 1]))
  }

  ghost predicate InRegister(k: Kind, base: nat, freereg: nat, nactvar: nat) {
    match k
    case VLocal(r) => 0 <= r < nactvar && freereg == base
    case VNonReloc(r) => 0 <= r && if r < nactvar then freereg == base else r == base && freereg == base + 1
    case _ => freereg == base
  }

  /** No jump at `p` has a test before it that keeps a value. */
  ghost predicate Clear(v: View, p: int) {
    0 <= p <= |v.code| && !KeepsValue(StepsOf(v), p)
  }

  /** A list that starts at `p` or behind, and is not for here. */
  ghost predicate OwnList(v: View, h: int, p: int) {
    Clear(v, p) && IsHead(v.q, h) && (h != NO_JUMP ==> h >= p && h != v.jpc) && forall j :: j in Jumps(v.q, h) ==> j >= p
  }

  /** No jump from before `p` is waiting for here. */
  ghost predicate OwnHere(v: View, p: int) {
    Clear(v, p) && forall j :: j in Jumps(v.q, v.jpc) ==> j >= p
  }

  /** The lists of a description are its own. */
  ghost predicate OwnLists(v: View, d: ExpDesc, p: int) {
    && OwnList(v, d.t, p) && OwnList(v, d.f, p) && (d.t == d.f ==> d.t == NO_JUMP)
    && (d.t != NO_JUMP || d.f != NO_JUMP ==> OwnHere(v, p))
    && (d.k.VReloc? || d.k.VJmp? ==> v.jpc == NO_JUMP)
    && (d.k.VJmp? ==> OwnList(v, d.k.pc, p) && Jumps(v.q, d.k.pc) == {d.k.pc} && d.k.pc != d.t && d.k.pc != d.f)
  }

  ghost predicate Computed(v: View, d: ExpDesc, p: int, e: Expr, base: nat) {
    Means(v.env, StepsOf(v), p, d.k, Jumps(v.q, d.t), Jumps(v.q, d.f), e, base)
  }

  /** `d` tells where the value of `e` is, whose code starts at `p`. */
  ghost predicate Tells(v: View, d: ExpDesc, p: int, e: Expr, base: nat) {
    Sound(v) && OwnLists(v, d, p) && Computed(v, d, p, e, base)
  }

  /** Moreover it takes no register but the first one that was free, `base`. */
  ghost predicate Describes(v: View, d: ExpDesc, p: int, e: Expr, base: nat) {
    && Tells(v, d, p, e, base) && v.nactvar <= base && InRegister(d.k, base, v.freereg, v.nactvar)
    && (d.k.VK? ==> !IsFalse(d.k.v))
  }

  /** The code before `p` is read as it was, and the lists that start there are as they were. */
  ghost predicate Kept(p: int, v0: View, v: View) {
    && v.env == v0.env && v.nactvar == v0.nactvar
    && 0 <= p <= |v0.code| && p <= |v.code| && StepsOf(v)[..p] == StepsOf(v0)[..p]
    && (forall h :: h in v0.q.list && h < p && h != v0.jpc ==> h in v.q.list && h != v.jpc && Jumps(v.q, h) == Jumps(v0.q, h))
    && (forall j :: j in Jumps(v.q, v.jpc) ==> j >= p || j in Jumps(v0.q, v0.jpc))
  }

  /** Moreover there is only more code. */
  ghost predicate Longer(p: int, v0: View, v: View) {
    Kept(p, v0, v) && |v0.code| <= |v.code| && StepsOf(v)[..|v0.code|] == StepsOf(v0)
  }

  lemma KeptTrans(p: int, v0: View, v1: View, v2: View)
    requires Kept(p, v0, v1) && Kept(p, v1, v2)
    ensures Kept(p, v0, v2)
  {
  }

  /** Registers do not matter to the code. */
  lemma TellsFree(v0: View, v: View, d: ExpDesc, p: int, e: Expr, base: nat)
    requires Tells(v0, d, p, e, base) && v == v0.(freereg := v.freereg)
    ensures Tells(v, d, p, e, base) && Kept(p, v0, v)
  {
    assert Clear(v0, p);
  }

  /** What happens further on does not touch what is before. */
  lemma KeptBefore(p: int, p1: int, v0: View, v1: View)
    requires Kept(p1, v0, v1) && 0 <= p <= p1
    ensures Kept(p, v0, v1)
  {
    assert StepsOf(v1)[..p] == StepsOf(v1)[..p1][..p] == StepsOf(v0)[..p1][..p] == StepsOf(v0)[..p];
  }

  /** An instruction more. */
  ghost predicate OneMore(v: View, v': View, i: Instr) {
    && StepsOf(v') == StepsOf(v) + [StepOf(i)] && v'.jpc == NO_JUMP && Keeps(v.q, v'.q, {v.jpc})
    && |v'.code| == |v.code| + 1 && v'.code[|v.code|] == i && Sound(v') && v'.env == v.env && v'.nactvar == v.nactvar
  }

  lemma OneMoreLonger(v: View, v': View, i: Instr, p: int)
    requires OneMore(v, v', i) && Sound(v) && 0 <= p <= |v.code|
    ensures Longer(p, v, v')
    ensures forall h :: OwnList(v, h, p) ==> OwnList(v', h, p) && Jumps(v'.q, h) == Jumps(v.q, h)
  {
    ElemsAreJumps(v.code, v.q, NO_JUMP);
    ElemsAreJumps(v'.code, v'.q, NO_JUMP);
  }

  lemma DescribeLocal(v: View, d: ExpDesc, p: int, e: Expr, base: nat)
    requires Tells(v, d, p, e, base) && d.k.VLocal?
    ensures Tells(v, d.(k := VNonReloc(d.k.r)), p, e, base) && Longer(p, v, v)
  {
    KindMeans(v.env, StepsOf(v), p, d.k, VNonReloc(d.k.r), Jumps(v.q, d.t), Jumps(v.q, d.f), e, base);
  }

  lemma DescribeUpval(v: View, v': View, d: ExpDesc, p: int, e: Expr, base: nat)
    requires Tells(v, d, p, e, base) && d.k.VUpval? && OneMore(v, v', GetUpval(0, d.k.n))
    ensures Tells(v', d.(k := VReloc(|v.code|)), p, e, base) && Longer(p, v, v')
  {
    OneMoreLonger(v, v', GetUpval(0, d.k.n), p);
    UpvalMeans(v.env, StepsOf(v), p, d.k.n, Jumps(v.q, d.t), Jumps(v.q, d.f), e, base);
  }

  /** The steps of the tail are those instructions. */
  lemma RelocatableCode(v: View, d: ExpDesc, p: int, e: Expr, base: nat)
    requires Tells(v, d, p, e, base)
    ensures d.k.VReloc? ==> d.k.pc == |v.code| - 1 >= 0 && Relocatable(v.code[d.k.pc]) && v.jpc == NO_JUMP
  {
    if d.k.VReloc? {
      assert StepsOf(v)[d.k.pc] == StepAt(v.code, v.q.home, v.jpc, d.k.pc);
    }
  }

  /** No instruction before the operand is a test without its jump. */
  lemma BeforeTail(v: View, d: ExpDesc, p: int, e: Expr, base: nat)
    requires Describes(v, d, p, e, base) && d.k.VReloc?
    ensures |v.code| >= 2 ==> !IsTest(v.code[|v.code| - 2])
  {
    if |v.code| >= 2 {
      assert StepsOf(v)[d.k.pc] == StepAt(v.code, v.q.home, v.jpc, d.k.pc);
    }
  }

  lemma JumpCode(v: View, d: ExpDesc, p: int, e: Expr, base: nat)
    requires Tells(v, d, p, e, base) && d.k.VJmp?
    ensures d.k.pc == |v.code| - 1 >= 1 && v.code[d.k.pc - 1].Compare? && v.jpc == NO_JUMP
  {
    assert StepsOf(v)[d.k.pc - 1] == StepAt(v.code, v.q.home, v.jpc, d.k.pc - 1);
  }

  // ---------- jumps on a condition ----------

  /** A test and its jump more. */
  ghost predicate TestAdded(v: View, v': View, i: Instr) {
    && IsTest(i) && StepsOf(v') == StepsOf(v) + [if i.TestSet? then Keep(i.b, i.c) else Cond(i), Hold]
    && v'.jpc == NO_JUMP && Keeps(v.q, v'.q, {v.jpc}) && Sound(v') && v'.env == v.env && v'.nactvar == v.nactvar
    && |v'.code| == |v.code| + 2 && |v.code| + 1 in v'.q.list && Jumps(v'.q, |v.code| + 1) == {|v.code| + 1}
  }

  lemma TestAddedLists(v: View, v': View, i: Instr, p: int)
    requires TestAdded(v, v', i) && ListsOk(v.code, v.q) && 0 <= p <= |v.code|
    ensures Kept(p, v, v')
    ensures forall h :: OwnList(v, h, p) ==> OwnList(v', h, p) && Jumps(v'.q, h) == Jumps(v.q, h)
    ensures Clear(v, p) ==> OwnList(v', |v.code| + 1, p)
    ensures forall h :: h in v.q.list ==> h != |v.code| + 1
  {
    ElemsAreJumps(v.code, v.q, NO_JUMP);
    ElemsAreJumps(v'.code, v'.q, NO_JUMP);
    forall h | h in v.q.list
      ensures h != |v.code| + 1
    {
      assert v.q.list[h][0] == h && IsJump(v.code, h);
    }
    assert StepsOf(v')[..p] == StepsOf(v)[..p];
  }

  /** Code that tests `e` and jumps through `pc` if it is `cond`. */
  ghost predicate Branches(v: View, d: ExpDesc, pc: int, p: int, e: Expr, base: nat, cond: bool) {
    && Sound(v) && v.nactvar <= base && v.freereg == base && v.jpc == NO_JUMP
    && OwnList(v, d.t, p) && OwnList(v, d.f, p) && (d.t == d.f ==> d.t == NO_JUMP)
    && OwnList(v, pc, p) && pc in v.q.list && pc != d.t && pc != d.f && Jumps(v.q, pc) == {pc}
    && Decides(v.env, StepsOf(v), p, if cond then Jumps(v.q, d.t) + {pc} else Jumps(v.q, d.t),
               if cond then Jumps(v.q, d.f) else Jumps(v.q, d.f) + {pc}, e, base, !cond)
  }

  lemma BranchValue(v: View, v': View, d: ExpDesc, p: int, e: Expr, base: nat, cond: bool)
    requires Tells(v, d, p, e, base) && v.nactvar <= base && d.k.VNonReloc? && v'.freereg == base
    requires TestAdded(v, v', TestSet(NO_REG, d.k.reg, cond))
    ensures Branches(v', d, |v.code| + 1, p, e, base, cond) && Kept(p, v, v')
  {
    TestAddedLists(v, v', TestSet(NO_REG, d.k.reg, cond), p);
    TestValue(v.env, StepsOf(v), p, d.k.reg, Jumps(v.q, d.t), Jumps(v.q, d.f), e, base, cond);
  }

  lemma BranchNot(v: View, v1: View, v': View, d: ExpDesc, p: int, e: Expr, base: nat, b: int, cond: bool)
    requires Describes(v, d, p, e, base) && d.k.VReloc? && v.code[d.k.pc].NotOf? && v.code[d.k.pc].b == b
    requires StepsOf(v1) == StepsOf(v)[..|v.code| - 1] && v1 == v.(code := v.code[..|v.code| - 1]) && ListsOk(v1.code, v1.q)
    requires TestAdded(v1, v', Test(b, !cond)) && v'.freereg == base
    ensures Branches(v', d, |v.code|, p, e, base, cond) && Kept(p, v, v')
  {
    TestAddedLists(v1, v', Test(b, !cond), p);
    assert StepsOf(v)[d.k.pc] == Op(v.code[d.k.pc]);
    TestNot(v.env, StepsOf(v), p, Jumps(v.q, d.t), Jumps(v.q, d.f), e, base, b, cond);
  }

  lemma BranchJump(v: View, d: ExpDesc, p: int, e: Expr, base: nat)
    requires Describes(v, d, p, e, base) && d.k.VJmp?
    ensures Branches(v, d, d.k.pc, p, e, base, true) && Kept(p, v, v)
  {
    TestJump(v.env, StepsOf(v), p, Jumps(v.q, d.t), Jumps(v.q, d.f), e, base);
  }

  lemma BranchInverted(v: View, v': View, d: ExpDesc, p: int, e: Expr, base: nat)
    requires Describes(v, d, p, e, base) && d.k.VJmp? && v.code[d.k.pc - 1].Compare?
    requires StepsOf(v') == StepsOf(v)[d.k.pc - 1 := Cond(Flipped(v.code[d.k.pc - 1]))]
    requires Sound(v') && v' == v.(code := v'.code)
    ensures Branches(v', d, d.k.pc, p, e, base, false) && Kept(p, v, v')
  {
    TestInverted(v.env, StepsOf(v), p, Jumps(v.q, d.t), Jumps(v.q, d.f), e, base);
    assert |StepsOf(v')| == |StepsOf(v)|;
  }

  // ---------- the first operand of `and` and `or` ----------

  /** The code decides `e`; the one list left holds the jumps for the other case. */
  ghost predicate Decided(v: View, h: int, p: int, e: Expr, base: nat, sense: bool) {
    && Sound(v) && v.nactvar <= base && v.freereg == base && OwnList(v, h, p) && (h != NO_JUMP ==> OwnHere(v, p))
    && Decides(v.env, StepsOf(v), p, if sense then {} else Jumps(v.q, h), if sense then Jumps(v.q, h) else {}, e, base, sense)
  }

  /** The jump joins the list for its case. */
  lemma BranchHung(v: View, v': View, d: ExpDesc, pc: int, p: int, e: Expr, base: nat, sense: bool, h: int)
    requires Branches(v, d, pc, p, e, base, !sense) && Sound(v') && v' == v.(code := v'.code, q := v'.q)
    requires StepsOf(v') == StepsOf(v) && IsHead(v'.q, h)
    requires var l := if sense then d.f else d.t;
      h == (if l == NO_JUMP then pc else l) && Jumps(v'.q, h) == Jumps(v.q, l) + {pc} && Keeps(v.q, v'.q, {l, pc})
    ensures var l := if sense then d.t else d.f;
      && OwnList(v', h, p) && OwnList(v', l, p) && Jumps(v'.q, l) == Jumps(v.q, l) && (l != h || l == NO_JUMP)
      && Decides(v'.env, StepsOf(v'), p, if sense then Jumps(v'.q, l) else Jumps(v'.q, h),
                 if sense then Jumps(v'.q, h) else Jumps(v'.q, l), e, base, sense)
    ensures Kept(p, v, v')
  {
    ElemsAreJumps(v.code, v.q, NO_JUMP);
    ElemsAreJumps(v'.code, v'.q, NO_JUMP);
  }

  /** What patching the list `l` to here makes of the state. */
  ghost predicate PatchedHere(v: View, v': View, l: int) {
    && Sound(v') && v' == v.(code := v'.code, q := v'.q, jpc := v'.jpc)
    && StepsOf(v') == Here(StepsOf(v), Jumps(v.q, l)) && Keeps(v.q, v'.q, {v.jpc, l})
    && v'.jpc == (if v.jpc == NO_JUMP then l else v.jpc) && Jumps(v'.q, v'.jpc) == Jumps(v.q, v.jpc) + Jumps(v.q, l)
  }

  /** The jumps for the case that goes on go here. */
  lemma BranchClosed(v: View, v': View, l: int, h: int, p: int, e: Expr, base: nat, sense: bool)
    requires Sound(v) && v.nactvar <= base && v.freereg == base && PatchedHere(v, v', l)
    requires OwnList(v, h, p) && OwnList(v, l, p) && (l != h || l == NO_JUMP) && (h != NO_JUMP ==> OwnHere(v, p))
    requires Decides(v.env, StepsOf(v), p, if sense then Jumps(v.q, l) else Jumps(v.q, h),
                     if sense then Jumps(v.q, h) else Jumps(v.q, l), e, base, sense)
    ensures Decided(v', h, p, e, base, sense) && Kept(p, v, v')
  {
    ElemsAreJumps(v.code, v.q, NO_JUMP);
    ElemsAreJumps(v'.code, v'.q, NO_JUMP);
    HeldJumps(v.code, v.q, v.jpc, l);
    HeldJumps(v.code, v.q, v.jpc, h);
    var s := StepsOf(v);
    if sense {
      CloseList(v.env, s, p, Jumps(v.q, l), Jumps(v.q, h), e, base, true);
    } else {
      CloseList(v.env, s, p, Jumps(v.q, h), Jumps(v.q, l), e, base, false);
    }
    HereBefore(s, Jumps(v.q, l), p);
  }

  lemma HereBefore(s: seq<Step>, S: set<int>, p: int)
    requires 0 <= p <= |s| && !KeepsValue(s, p) && forall j :: j in S ==> j >= p
    ensures Here(s, S)[..p] == s[..p]
  {
  }

  /** The same for a literal that goes on, without a jump of its own. */
  lemma LitClosed(v: View, v': View, d: ExpDesc, p: int, e: Expr, base: nat, sense: bool)
    requires Describes(v, d, p, e, base) && IsLit(d.k) && IsFalse(LitVal(d.k)) == !sense
    requires PatchedHere(v, v', if sense then d.t else d.f)
    ensures Decided(v', if sense then d.f else d.t, p, e, base, sense) && Kept(p, v, v')
  {
    LitDecides(v.env, StepsOf(v), p, d.k, Jumps(v.q, d.t), Jumps(v.q, d.f), e, base, sense);
    BranchClosed(v, v', if sense then d.t else d.f, if sense then d.f else d.t, p, e, base, sense);
  }

  /** A literal that does not go on: a jump more, which is always made. */
  ghost predicate JumpAdded(v: View, v': View) {
    && StepsOf(v') == StepsOf(v) + [Hold] && v'.jpc == NO_JUMP && Keeps(v.q, v'.q, {v.jpc}) && Sound(v')
    && v'.env == v.env && v'.nactvar == v.nactvar && v'.freereg == v.freereg
    && |v'.code| == |v.code| + 1 && |v.code| in v'.q.list && Jumps(v'.q, |v.code|) == {|v.code|}
  }

  lemma BranchLit(v: View, v': View, d: ExpDesc, p: int, e: Expr, base: nat)
    requires Describes(v, d, p, e, base) && (d.k.VTrue? || d.k.VFalse?) && JumpAdded(v, v')
    ensures Branches(v', d, |v.code|, p, e, base, d.k.VTrue?) && Kept(p, v, v')
  {
    ElemsAreJumps(v.code, v.q, NO_JUMP);
    ElemsAreJumps(v'.code, v'.q, NO_JUMP);
    forall h | h in v.q.list
      ensures h != |v.code|
    {
      assert v.q.list[h][0] == h && IsJump(v.code, h);
    }
    LastKeepsNothing(v);
    assert StepsOf(v')[..p] == StepsOf(v)[..p];
    LitJump(v.env, StepsOf(v), p, d.k, Jumps(v.q, d.t), Jumps(v.q, d.f), e, base);
  }

  lemma LastKeepsNothing(v: View)
    requires Sound(v)
    ensures !KeepsValue(StepsOf(v), |v.code|) && Clear(v, |v.code|)
  {
    if |v.code| > 0 {
      assert StepsOf(v)[|v.code| - 1] == StepAt(v.code, v.q.home, v.jpc, |v.code| - 1);
    }
  }

  // ---------- not ----------

  lemma DescribeNotLit(v: View, v': View, d: ExpDesc, k: Kind, p: int, e: Expr, base: nat)
    requires Describes(v, d, p, e, base) && IsLit(d.k) && (k.VTrue? || k.VFalse?) && LitVal(k) == Bool(IsFalse(LitVal(d.k)))
    requires v' == v.(code := v'.code) && Sound(v')
    requires StepsOf(v') == Demote(Demote(StepsOf(v), Jumps(v.q, d.t)), Jumps(v.q, d.f))
    ensures Describes(v', ExpDesc(k, d.f, d.t), p, Not(e), base) && Kept(p, v, v')
  {
    var s, T, F := StepsOf(v), Jumps(v.q, d.t), Jumps(v.q, d.f);
    DemoteTwice(s, T, F);
    assert |StepsOf(v')| == |s|;
    NotLit(v.env, s, p, d.k, k, T, F, e, base);
    DemoteBefore(s, T + F, p);
  }

  lemma DescribeNotValue(v: View, v1: View, v': View, d: ExpDesc, p: int, e: Expr, base: nat)
    requires Tells(v, d, p, e, base) && v.nactvar <= base && d.k.VNonReloc? && OneMore(v, v1, NotOf(0, d.k.reg))
    requires v' == v1.(code := v'.code) && v'.freereg == base && Sound(v')
    requires StepsOf(v') == Demote(Demote(StepsOf(v1), Jumps(v1.q, d.t)), Jumps(v1.q, d.f))
    ensures Describes(v', ExpDesc(VReloc(|v.code|), d.f, d.t), p, Not(e), base) && Kept(p, v, v')
  {
    OneMoreLonger(v, v1, NotOf(0, d.k.reg), p);
    var s, T, F := StepsOf(v), Jumps(v.q, d.t), Jumps(v.q, d.f);
    ElemsAreJumps(v'.code, v'.q, NO_JUMP);
    DemoteTwice(StepsOf(v1), T, F);
    assert StepsOf(v')[..|s|] == Demote(s, T + F);
    NotValue(v.env, s, p, d.k.reg, T, F, e, base, StepsOf(v'));
    DemoteBefore(s, T + F, p);
  }

  lemma DescribeNotJump(v: View, v1: View, v': View, d: ExpDesc, p: int, e: Expr, base: nat)
    requires Describes(v, d, p, e, base) && d.k.VJmp? && v.code[d.k.pc - 1].Compare?
    requires StepsOf(v1) == StepsOf(v)[d.k.pc - 1 := Cond(Flipped(v.code[d.k.pc - 1]))] && v1 == v.(code := v1.code)
    requires v' == v1.(code := v'.code) && Sound(v')
    requires StepsOf(v') == Demote(Demote(StepsOf(v1), Jumps(v1.q, d.t)), Jumps(v1.q, d.f))
    ensures Describes(v', ExpDesc(d.k, d.f, d.t), p, Not(e), base) && Kept(p, v, v')
  {
    var s, T, F := StepsOf(v), Jumps(v.q, d.t), Jumps(v.q, d.f);
    assert s[d.k.pc - 1] == StepAt(v.code, v.q.home, v.jpc, d.k.pc - 1);
    HeldJumps(v.code, v.q, v.jpc, d.t);
    HeldJumps(v.code, v.q, v.jpc, d.f);
    DemoteTwice(StepsOf(v1), T, F);
    assert forall j :: j in T + F ==> j != d.k.pc;
    NotJump(v.env, s, p, T, F, e, base, StepsOf(v'));
    DemoteBefore(StepsOf(v1), T + F, p);
  }

  lemma DemoteTwice(s: seq<Step>, T: set<int>, F: set<int>)
    ensures Demote(Demote(s, T), F) == Demote(s, T + F)
  {
  }

  lemma DemoteBefore(s: seq<Step>, S: set<int>, p: int)
    requires 0 <= p <= |s| && !KeepsValue(s, p) && forall j :: j in S ==> j >= p
    ensures Demote(s, S)[..p] == s[..p]
  {
  }

  // ---------- the value into a register ----------

  /** The code leaves with the value, or ends with it in `reg`, or (not `loaded`) ends because it is false. */
  ghost predicate Loaded(v: View, t: int, f: int, p: int, e: Expr, base: nat, reg: int, loaded: bool) {
    && Sound(v) && OwnList(v, t, p) && OwnList(v, f, p) && (t == f ==> t == NO_JUMP)
    && (t != NO_JUMP || f != NO_JUMP ==> OwnHere(v, p))
    && (!loaded ==> v.jpc == NO_JUMP && exists j :: j in Jumps(v.q, t) && !(j > 0 && StepsOf(v)[j - 1].Keep?))
    && Readies(v.env, StepsOf(v), p, Jumps(v.q, t), Jumps(v.q, f), e, base, reg, loaded)
  }

  lemma LoadedInPlace(v: View, d: ExpDesc, p: int, e: Expr, base: nat)
    requires Tells(v, d, p, e, base) && d.k.VNonReloc?
    ensures Loaded(v, d.t, d.f, p, e, base, d.k.reg, true) && Kept(p, v, v)
  {
    InPlace(v.env, StepsOf(v), p, d.k.reg, Jumps(v.q, d.t), Jumps(v.q, d.f), e, base);
  }

  /** An instruction more puts the value into the register. */
  lemma LoadedPut(v: View, v': View, d: ExpDesc, p: int, e: Expr, base: nat, i: Instr, reg: int)
    requires Tells(v, d, p, e, base) && TailLen(d.k) == 0 && Puts(i, reg) && OneMore(v, v', i)
    requires forall R {:trigger Result(v.env, i, R)} :: Result(v.env, i, R) == TailVal(v.env, StepsOf(v), d.k, R)
    ensures Loaded(v', d.t, d.f, p, e, base, reg, true) && Kept(p, v, v')
  {
    OneMoreLonger(v, v', i, p);
    ElemsAreJumps(v'.code, v'.q, NO_JUMP);
    Put(v.env, StepsOf(v), p, d.k, i, reg, Jumps(v.q, d.t), Jumps(v.q, d.f), e, base);
  }

  /** The value of a literal in the first free register. */
  lemma DescribeLoaded(v: View, d: ExpDesc, p: int, e: Expr, base: nat)
    requires Loaded(v, d.t, d.f, p, e, base, base, true) && v.nactvar <= base && v.freereg == base + 1
    ensures Describes(v, d.(k := VNonReloc(base)), p, e, base)
  {
    ReadyMeans(v.env, StepsOf(v), p, Jumps(v.q, d.t), Jumps(v.q, d.f), e, base, base);
  }

  lemma LoadedRelocated(v: View, v': View, d: ExpDesc, p: int, e: Expr, base: nat, reg: int)
    requires Tells(v, d, p, e, base) && d.k.VReloc? && Relocatable(v.code[d.k.pc])
    requires StepsOf(v') == StepsOf(v)[d.k.pc := Op(WithTarget(v.code[d.k.pc], reg))]
    requires Sound(v') && v' == v.(code := v'.code) && |v'.code| == |v.code|
    ensures Loaded(v', d.t, d.f, p, e, base, reg, true) && Kept(p, v, v')
  {
    assert StepsOf(v)[d.k.pc] == Op(v.code[d.k.pc]);
    Relocated(v.env, StepsOf(v), p, reg, Jumps(v.q, d.t), Jumps(v.q, d.f), e, base);
  }

  /** The jump of a comparison joins the list for true. */
  lemma LoadedJump(v: View, v': View, d: ExpDesc, p: int, e: Expr, base: nat, reg: int, t: int)
    requires Tells(v, d, p, e, base) && d.k.VJmp? && v.code[d.k.pc - 1].Compare?
    requires StepsOf(v') == StepsOf(v) && Sound(v') && v' == v.(code := v'.code, q := v'.q)
    requires t == (if d.t == NO_JUMP then d.k.pc else d.t) && IsHead(v'.q, t)
    requires Jumps(v'.q, t) == Jumps(v.q, d.t) + Jumps(v.q, d.k.pc) && Keeps(v.q, v'.q, {d.t, d.k.pc})
    ensures Loaded(v', t, d.f, p, e, base, reg, false) && Kept(p, v, v')
  {
    LoadedJumpLists(v, v', d, p, t);
    ComparedKeepsNothing(v, d.k.pc);
    assert d.k.pc in Jumps(v'.q, t) && v'.jpc == NO_JUMP;
    LoadedReadies(v, d, p, e, base, reg);
  }

  lemma ComparedKeepsNothing(v: View, pc: int)
    requires 0 < pc < |v.code| && v.code[pc - 1].Compare?
    ensures !KeepsValue(StepsOf(v), pc)
  {
    assert StepsOf(v)[pc - 1] == StepAt(v.code, v.q.home, v.jpc, pc - 1);
  }

  lemma LoadedReadies(v: View, d: ExpDesc, p: int, e: Expr, base: nat, reg: int)
    requires Tells(v, d, p, e, base) && d.k.VJmp?
    ensures Readies(v.env, StepsOf(v), p, Jumps(v.q, d.t) + {d.k.pc}, Jumps(v.q, d.f), e, base, reg, false)
  {
    FallsFalse(v.env, StepsOf(v), p, reg, Jumps(v.q, d.t), Jumps(v.q, d.f), e, base);
  }

  lemma LoadedJumpLists(v: View, v': View, d: ExpDesc, p: int, t: int)
    requires Sound(v) && Sound(v') && OwnLists(v, d, p) && d.k.VJmp? && StepsOf(v') == StepsOf(v) && v' == v.(code := v'.code, q := v'.q)
    requires t == (if d.t == NO_JUMP then d.k.pc else d.t) && IsHead(v'.q, t)
    requires Jumps(v'.q, t) == Jumps(v.q, d.t) + Jumps(v.q, d.k.pc) && Keeps(v.q, v'.q, {d.t, d.k.pc})
    ensures OwnList(v', t, p) && OwnList(v', d.f, p) && OwnHere(v', p) && (t == d.f ==> t == NO_JUMP)
    ensures Jumps(v'.q, d.f) == Jumps(v.q, d.f) && Jumps(v.q, d.k.pc) == {d.k.pc} && Kept(p, v, v')
  {
    ElemsAreJumps(v.code, v.q, NO_JUMP);
    ElemsAreJumps(v'.code, v'.q, NO_JUMP);
    assert |StepsOf(v')| == |StepsOf(v)|;
  }

  /** All lists of the expression are closed: the value is in `reg` in the end. */
  ghost predicate Delivered(v: View, p: int, e: Expr, base: nat, reg: int) {
    Sound(v) && Clear(v, p) && Readies(v.env, StepsOf(v), p, {}, {}, e, base, reg, true)
  }

  lemma DeliveredPlain(v: View, p: int, e: Expr, base: nat, reg: int)
    requires Loaded(v, NO_JUMP, NO_JUMP, p, e, base, reg, true)
    ensures Delivered(v, p, e, base, reg)
  {
    ElemsAreJumps(v.code, v.q, NO_JUMP);
  }

  /** What one list resolved makes of the state. */
  ghost predicate Resolved(v: View, v': View, h: int, vtarget: int, reg: int, dtarget: int) {
    && StepsOf(v') == Resolve(StepsOf(v), Jumps(v.q, h), vtarget, reg, dtarget) && Sound(v')
    && v' == v.(code := v'.code, q := v'.q) && |v'.code| == |v.code|
    && Keeps(v.q, v'.q, {h}) && (forall x :: x != h ==> Jumps(v'.q, x) == Jumps(v.q, x))
  }

  lemma ResolvedBefore(v: View, v': View, h: int, vtarget: int, reg: int, dtarget: int, p: int)
    requires Resolved(v, v', h, vtarget, reg, dtarget) && OwnList(v, h, p) && 0 <= p <= |v.code| && Sound(v)
    ensures Kept(p, v, v')
  {
    assert Jumps(v'.q, v.jpc) == Jumps(v.q, v.jpc) by {
      ElemsAreJumps(v.code, v.q, NO_JUMP);
      ElemsAreJumps(v'.code, v'.q, NO_JUMP);
    }
    assert forall i :: 0 <= i < p ==> StepsOf(v')[i] == StepsOf(v)[i];
  }

  /** Disjoint lists hold different jumps. */
  lemma ListsApart(v: View, t: int, f: int, p: int)
    requires Sound(v) && OwnList(v, t, p) && OwnList(v, f, p) && (t == f ==> t == NO_JUMP) && 0 <= p
    ensures Jumps(v.q, t) !! Jumps(v.q, f) && AllHeld(StepsOf(v), Jumps(v.q, t) + Jumps(v.q, f))
  {
    HeldJumps(v.code, v.q, v.jpc, t);
    HeldJumps(v.code, v.q, v.jpc, f);
  }

  /** Both lists closed without instructions to load booleans: every jump keeps a value. */
  lemma DeliveredShort(v: View, v1: View, v': View, t: int, f: int, p: int, e: Expr, base: nat, reg: int, x: int, y: int)
    requires Loaded(v, t, f, p, e, base, reg, true) && reg != NO_REG && t != f
    requires forall j :: j in Jumps(v.q, t) + Jumps(v.q, f) ==> j > 0 && StepsOf(v)[j - 1].Keep?
    requires Resolved(v, v1, f, |v.code|, reg, x) && Resolved(v1, v', t, |v.code|, reg, y)
    ensures Delivered(v', p, e, base, reg) && Kept(p, v, v')
  {
    var s, T, F := StepsOf(v), Jumps(v.q, t), Jumps(v.q, f);
    ListsApart(v, t, f, p);
    assert Jumps(v1.q, t) == T;
    assert forall j :: j in T + F ==> j in T || j in F;
    ClosedShort(s, T, F, reg);
    assert Closed(s, Resolve(Resolve(s, F, |s|, reg, x), T, |s|, reg, y), T, F, reg, true, false);
    CloseReady(v.env, s, StepsOf(v'), p, T, F, e, base, reg, true, false);
    ResolvedBefore(v, v1, f, |v.code|, reg, x, p);
    ResolvedBefore(v1, v', t, |v.code|, reg, y, p);
    KeptTrans(p, v, v1, v');
  }

  lemma KeptClosed(v: View, v1: View, v2: View, v': View, t: int, f: int, p: int, target: int, reg: int, x: int, y: int)
    requires Kept(p, v, v1) && OwnList(v1, t, p) && OwnList(v1, f, p) && (t == f ==> t == NO_JUMP) && Sound(v1)
    requires Resolved(v1, v2, f, target, reg, x) && Resolved(v2, v', t, target, reg, y)
    ensures Kept(p, v, v')
  {
    ResolvedBefore(v1, v2, f, target, reg, x, p);
    ElemsAreJumps(v1.code, v1.q, NO_JUMP);
    ElemsAreJumps(v2.code, v2.q, NO_JUMP);
    assert OwnList(v2, t, p);
    ResolvedBefore(v2, v', t, target, reg, y, p);
    KeptTrans(p, v1, v2, v');
    KeptTrans(p, v, v1, v');
  }

  /** Both lists closed after a comparison. */
  lemma DeliveredJump(v: View, v1: View, v2: View, v': View, t: int, f: int, p: int, e: Expr, base: nat, reg: int)
    requires Loaded(v, t, f, p, e, base, reg, false) && reg != NO_REG && t != f
    requires LoadsAdded(v, v1, reg)
    requires Resolved(v1, v2, f, |v1.code|, reg, |v.code|) && Resolved(v2, v', t, |v1.code|, reg, |v.code| + 1)
    ensures Delivered(v', p, e, base, reg) && Kept(p, v, v')
  {
    LoadsAddedLists(v, v1, reg, p);
    KeptClosed(v, v1, v2, v', t, f, p, |v1.code|, reg, |v.code|, |v.code| + 1);
    DeliveredJumpReady(v, v1, StepsOf(v'), t, f, p, e, base, reg);
  }

  lemma DeliveredJumpReady(v: View, v1: View, s': seq<Step>, t: int, f: int, p: int, e: Expr, base: nat, reg: int)
    requires Loaded(v, t, f, p, e, base, reg, false) && reg != NO_REG && t != f && LoadsAdded(v, v1, reg)
    requires var n := |v.code|;
      s' == Resolve(Resolve(StepsOf(v1), Jumps(v.q, f), n + 2, reg, n), Jumps(v.q, t), n + 2, reg, n + 1)
    ensures Readies(v.env, s', p, {}, {}, e, base, reg, true)
  {
    ListsApart(v, t, f, p);
    ClosedJump(StepsOf(v), Jumps(v.q, t), Jumps(v.q, f), reg);
    CloseReady(v.env, StepsOf(v), s', p, Jumps(v.q, t), Jumps(v.q, f), e, base, reg, false, true);
  }

  /** The two instructions that load a boolean. */
  ghost predicate LoadsAdded(v: View, v': View, reg: int) {
    && StepsOf(v') == StepsOf(v) + [Op(LoadBool(reg, false, true)), Op(LoadBool(reg, true, false))]
    && v'.jpc == NO_JUMP && Keeps(v.q, v'.q, {v.jpc}) && |v'.code| == |v.code| + 2 && Sound(v')
    && v'.env == v.env && v'.nactvar == v.nactvar
  }

  lemma LoadsAddedLists(v: View, v': View, reg: int, p: int)
    requires LoadsAdded(v, v', reg) && Sound(v) && 0 <= p <= |v.code|
    ensures Kept(p, v, v')
    ensures forall h :: OwnList(v, h, p) ==> OwnList(v', h, p) && Jumps(v'.q, h) == Jumps(v.q, h)
  {
    ElemsAreJumps(v.code, v.q, NO_JUMP);
    ElemsAreJumps(v'.code, v'.q, NO_JUMP);
    assert StepsOf(v')[..p] == StepsOf(v)[..p];
  }

  /** The same behind an unconditional jump over them, with which the jumps to here have gone on. */
  ghost predicate LoadsBehindJump(v: View, v': View, reg: int) {
    var u := Steps(v.code, v.q, NO_JUMP);
    && StepsOf(v') == Here(u + [Hold, Op(LoadBool(reg, false, true)), Op(LoadBool(reg, true, false))],
                           {|v.code|} + Jumps(v.q, v.jpc))
    && v'.jpc == |v.code| && Jumps(v'.q, v'.jpc) == {|v.code|} + Jumps(v.q, v.jpc)
    && Keeps(v.q, v'.q, {v.jpc}) && |v'.code| == |v.code| + 3 && Sound(v') && v'.env == v.env && v'.nactvar == v.nactvar
  }

  lemma LoadsBehindLists(v: View, v': View, reg: int, p: int)
    requires LoadsBehindJump(v, v', reg) && Sound(v) && 0 <= p < |v.code| && OwnHere(v, p)
    ensures Kept(p, v, v')
    ensures forall h :: OwnList(v, h, p) ==> OwnList(v', h, p) && Jumps(v'.q, h) == Jumps(v.q, h)
  {
    ElemsAreJumps(v.code, v.q, NO_JUMP);
    ElemsAreJumps(v'.code, v'.q, NO_JUMP);
    HereSteps(v.code, v.q, v.jpc);
    forall h | h in v.q.list
      ensures h != |v.code|
    {
      assert v.q.list[h][0] == h && IsJump(v.code, h);
    }
    forall i | 0 <= i < p
      ensures StepsOf(v')[i] == StepsOf(v)[i]
    {
      assert i !in Jumps(v.q, v.jpc);
    }
  }

  lemma LoadsBehindOwn(v: View, v': View, t: int, f: int, reg: int, p: int, e: Expr, base: nat)
    requires Loaded(v, t, f, p, e, base, reg, true) && t != f && LoadsBehindJump(v, v', reg)
    ensures OwnList(v', t, p) && OwnList(v', f, p) && Kept(p, v, v')
    ensures Jumps(v'.q, t) == Jumps(v.q, t) && Jumps(v'.q, f) == Jumps(v.q, f)
  {
    HeldJumps(v.code, v.q, v.jpc, t);
    HeldJumps(v.code, v.q, v.jpc, f);
    LoadsBehindLists(v, v', reg, p);
  }

  /** Both lists closed, with the value already in the register at the end. */
  lemma DeliveredLong(v: View, v1: View, v2: View, v': View, t: int, f: int, p: int, e: Expr, base: nat, reg: int)
    requires Loaded(v, t, f, p, e, base, reg, true) && reg != NO_REG && t != f
    requires LoadsBehindJump(v, v1, reg)
    requires Resolved(v1, v2, f, |v1.code|, reg, |v.code| + 1) && Resolved(v2, v', t, |v1.code|, reg, |v.code| + 2)
    ensures Delivered(v', p, e, base, reg) && Kept(p, v, v')
  {
    LoadsBehindOwn(v, v1, t, f, reg, p, e, base);
    KeptClosed(v, v1, v2, v', t, f, p, |v1.code|, reg, |v.code| + 1, |v.code| + 2);
    DeliveredLongReady(v, v1, StepsOf(v'), t, f, p, e, base, reg);
  }

  /** The lists and the jumps to here are apart, and all of them pending. */
  lemma HereApart(v: View, t: int, f: int, p: int)
    requires Sound(v) && OwnList(v, t, p) && OwnList(v, f, p) && (t == f ==> t == NO_JUMP) && 0 <= p
    ensures var u, J, T, F := Steps(v.code, v.q, NO_JUMP), Jumps(v.q, v.jpc), Jumps(v.q, t), Jumps(v.q, f);
      && T !! F && AllHeld(u, T + F + J) && J !! T + F
      && (|u| > 0 ==> !u[|u| - 1].Keep?) && StepsOf(v) == Here(u, J) && |u| == |v.code|
  {
    ListsApart(v, t, f, p);
    HereSteps(v.code, v.q, v.jpc);
    HeldJumps(v.code, v.q, NO_JUMP, t);
    HeldJumps(v.code, v.q, NO_JUMP, f);
    HeldJumps(v.code, v.q, NO_JUMP, v.jpc);
  }

  lemma DeliveredLongReady(v: View, v1: View, s': seq<Step>, t: int, f: int, p: int, e: Expr, base: nat, reg: int)
    requires Loaded(v, t, f, p, e, base, reg, true) && reg != NO_REG && t != f
    requires LoadsBehindJump(v, v1, reg)
    requires var n := |v.code|;
      s' == Resolve(Resolve(StepsOf(v1), Jumps(v.q, f), n + 3, reg, n + 1), Jumps(v.q, t), n + 3, reg, n + 2)
    ensures Readies(v.env, s', p, {}, {}, e, base, reg, true)
  {
    var u, J, T, F := Steps(v.code, v.q, NO_JUMP), Jumps(v.q, v.jpc), Jumps(v.q, t), Jumps(v.q, f);
    HereApart(v, t, f, p);
    ClosedLong(u, J, T, F, reg);
    CloseReady(v.env, StepsOf(v), s', p, T, F, e, base, reg, true, true);
  }

  /** The value of an expression in the first free register. */
  lemma DescribeDelivered(v: View, p: int, e: Expr, base: nat)
    requires Delivered(v, p, e, base, base) && v.nactvar <= base && v.freereg == base + 1
    ensures Describes(v, ExpDesc(VNonReloc(base), NO_JUMP, NO_JUMP), p, e, base)
  {
    ElemsAreJumps(v.code, v.q, NO_JUMP);
    ReadyMeans(v.env, StepsOf(v), p, {}, {}, e, base, base);
  }

  // ---------- binary operators ----------

  /** A variable, before any code. */
  lemma DescribeLeaf(v: View, k: Kind, e: Expr)
    requires Sound(v) && v.nactvar <= v.freereg
    requires match e
      case Local(r) => r < v.nactvar && k == VLocal(r)
      case Upval(n) => k == VUpval(n)
      case Lit(x) => IsLit(k) && LitVal(k) == x && (k.VK? ==> !IsFalse(x))
      case _ => false
    ensures Describes(v, ExpDesc(k, NO_JUMP, NO_JUMP), |v.code|, e, v.freereg) && Kept(|v.code|, v, v)
  {
    ElemsAreJumps(v.code, v.q, NO_JUMP);
    LeafMeans(v.env, StepsOf(v), k, e, v.freereg);
  }

  /** The second operand after the first one has decided for it: what the code computes. */
  lemma JoinedMeans(v1: View, v2: View, d: ExpDesc, h: int, p: int, e1: Expr, e2: Expr, base: nat, sense: bool)
    requires Decided(v1, h, p, e1, base, sense) && Kept(|v1.code|, v1, v2) && Describes(v2, d, |v1.code|, e2, base)
    requires LocalsBelow(e2, base)
    ensures var H := Jumps(v2.q, h);
      Means(v2.env, StepsOf(v2), p, d.k, (if sense then {} else H) + Jumps(v2.q, d.t), (if sense then H else {}) + Jumps(v2.q, d.f),
            Bin(if sense then And else Or, e1, e2), base)
  {
    FirstListKept(v1, v2, h, p);
    assert |StepsOf(v1)| == |v1.code|;
    var H := Jumps(v2.q, h);
    JoinMeans(v1.env, StepsOf(v1), StepsOf(v2), p, d.k, if sense then {} else H, if sense then H else {},
              Jumps(v2.q, d.t), Jumps(v2.q, d.f), e1, e2, base, sense);
  }

  /** The list of the first operand hung on that of the second one. */
  lemma DescribeJoined(v1: View, v2: View, v': View, d: ExpDesc, h: int, h': int, p: int, e1: Expr, e2: Expr, base: nat, sense: bool)
    requires Decided(v1, h, p, e1, base, sense) && Kept(|v1.code|, v1, v2) && Describes(v2, d, |v1.code|, e2, base)
    requires LocalsBelow(e2, base) && StepsOf(v') == StepsOf(v2) && Sound(v') && v' == v2.(code := v'.code, q := v'.q)
    requires IsHead(v'.q, h')
    requires var l := if sense then d.f else d.t;
      h' == (if l == NO_JUMP then h else l) && Jumps(v'.q, h') == Jumps(v2.q, l) + Jumps(v2.q, h) && Keeps(v2.q, v'.q, {l, h})
    ensures Describes(v', if sense then d.(f := h') else d.(t := h'), p, Bin(if sense then And else Or, e1, e2), base)
    ensures Kept(p, v2, v')
  {
    JoinedMeans(v1, v2, d, h, p, e1, e2, base, sense);
    FirstListKept(v1, v2, h, p);
    JoinedLists(v2, v', d, h, h', p, |v1.code|, sense);
  }

  lemma JoinedLists(v2: View, v': View, d: ExpDesc, h: int, h': int, p: int, p2: int, sense: bool)
    requires Sound(v2) && OwnLists(v2, d, p2) && 0 <= p <= p2 <= |v2.code| && OwnList(v2, h, p)
    requires h != NO_JUMP ==> h < p2 && OwnHere(v2, p)
    requires StepsOf(v') == StepsOf(v2) && Sound(v') && v' == v2.(code := v'.code, q := v'.q) && IsHead(v'.q, h')
    requires var l := if sense then d.f else d.t;
      h' == (if l == NO_JUMP then h else l) && Jumps(v'.q, h') == Jumps(v2.q, l) + Jumps(v2.q, h) && Keeps(v2.q, v'.q, {l, h})
    ensures var r := if sense then d.(f := h') else d.(t := h');
      && OwnLists(v', r, p) && Kept(p, v2, v') && |v'.code| == |v2.code|
      && Jumps(v'.q, r.t) == (if sense then {} else Jumps(v2.q, h)) + Jumps(v2.q, d.t)
      && Jumps(v'.q, r.f) == (if sense then Jumps(v2.q, h) else {}) + Jumps(v2.q, d.f)
  {
    ElemsAreJumps(v2.code, v2.q, NO_JUMP);
    ElemsAreJumps(v'.code, v'.q, NO_JUMP);
    assert |StepsOf(v')| == |StepsOf(v2)|;
    var l, o := if sense then d.f else d.t, if sense then d.t else d.f;
    JoinedHead(v2, v', l, h, h', p, p2);
    OtherList(v2, v', o, l, h, p, p2);
    JoinedKept(v2, v', l, h, p, p2);
  }

  lemma JoinedKept(v2: View, v': View, l: int, h: int, p: int, p2: int)
    requires Sound(v2) && OwnList(v2, l, p2) && 0 <= p <= p2 <= |v2.code| && OwnList(v2, h, p)
    requires StepsOf(v') == StepsOf(v2) && v' == v2.(code := v'.code, q := v'.q) && |v'.code| == |v2.code|
    requires Keeps(v2.q, v'.q, {l, h}) && Jumps(v'.q, NO_JUMP) == Jumps(v2.q, NO_JUMP) == {}
    ensures Kept(p, v2, v') && Jumps(v'.q, v'.jpc) == Jumps(v2.q, v2.jpc)
  {
  }

  /** The list that has been made longer. */
  lemma JoinedHead(v2: View, v': View, l: int, h: int, h': int, p: int, p2: int)
    requires OwnList(v2, l, p2) && 0 <= p <= p2 && OwnList(v2, h, p) && IsHead(v'.q, h')
    requires StepsOf(v') == StepsOf(v2) && v' == v2.(code := v'.code, q := v'.q) && |v'.code| == |v2.code|
    requires h' == (if l == NO_JUMP then h else l) && Jumps(v'.q, h') == Jumps(v2.q, l) + Jumps(v2.q, h)
    ensures OwnList(v', h', p)
  {
  }

  /** Another list of the same expression. */
  lemma OtherList(v2: View, v': View, o: int, l: int, h: int, p: int, p2: int)
    requires OwnList(v2, o, p2) && 0 <= p <= p2 && Clear(v2, p) && (o != NO_JUMP ==> o != l) && (h != NO_JUMP ==> h < p2)
    requires StepsOf(v') == StepsOf(v2) && v' == v2.(code := v'.code, q := v'.q) && |v'.code| == |v2.code|
    requires Keeps(v2.q, v'.q, {l, h}) && Jumps(v'.q, NO_JUMP) == Jumps(v2.q, NO_JUMP) == {}
    ensures OwnList(v', o, p) && Jumps(v'.q, o) == Jumps(v2.q, o)
  {
  }

  /** The list of the first operand is still there after the second one. */
  lemma FirstListKept(v1: View, v2: View, h: int, p: int)
    requires Kept(|v1.code|, v1, v2) && Sound(v1) && Sound(v2) && OwnList(v1, h, p) && (h != NO_JUMP ==> OwnHere(v1, p))
    ensures OwnList(v2, h, p) && Jumps(v2.q, h) == Jumps(v1.q, h) && (h != NO_JUMP ==> h < |v1.code| && OwnHere(v2, p))
  {
    ElemsAreJumps(v1.code, v1.q, NO_JUMP);
    ElemsAreJumps(v2.code, v2.q, NO_JUMP);
    HeldJumps(v1.code, v1.q, v1.jpc, h);
  }

  /** A comparison of two registers. */
  lemma DescribeCompare(v1: View, v2: View, v': View, d1: ExpDesc, d2: ExpDesc, p: int, e1: Expr, e2: Expr, base: nat, op: BinOp)
    requires op != And && op != Or && LocalsBelow(e2, base)
    requires IsOperandOf(v1, d1, p, e1, base) && Kept(|v1.code|, v1, v2) && IsOperandOf(v2, d2, |v1.code|, e2, v1.freereg)
    requires TestAdded(v2, v', Comparison(op, OperandOf(d1.k), OperandOf(d2.k))) && v'.freereg == base
    ensures Describes(v', ExpDesc(VJmp(|v2.code| + 1), NO_JUMP, NO_JUMP), p, Bin(op, e1, e2), base) && Kept(p, v2, v')
  {
    ComparedMeans(v1, v2, v', d1, d2, p, e1, e2, base, op);
    StillClear(v1, v2, p);
    TestAddedLists(v2, v', Comparison(op, OperandOf(d1.k), OperandOf(d2.k)), p);
    ElemsAreJumps(v'.code, v'.q, NO_JUMP);
  }

  lemma StillClear(v1: View, v2: View, p: int)
    requires Kept(|v1.code|, v1, v2) && Clear(v1, p)
    ensures Clear(v2, p)
  {
    assert |StepsOf(v1)| == |v1.code|;
  }

  lemma OperandMeans(v: View, d: ExpDesc, p: int, e: Expr, base: nat)
    requires IsOperandOf(v, d, p, e, base)
    ensures Means(v.env, StepsOf(v), p, d.k, {}, {}, e, base)
    ensures IsOperand(d.k) && base <= v.freereg && (d.k.VNonReloc? ==> d.k.reg < v.freereg)
  {
    ElemsAreJumps(v.code, v.q, NO_JUMP);
  }

  lemma ComparedMeans(v1: View, v2: View, v': View, d1: ExpDesc, d2: ExpDesc, p: int, e1: Expr, e2: Expr, base: nat, op: BinOp)
    requires op != And && op != Or && LocalsBelow(e2, base)
    requires IsOperandOf(v1, d1, p, e1, base) && Kept(|v1.code|, v1, v2) && IsOperandOf(v2, d2, |v1.code|, e2, v1.freereg)
    requires TestAdded(v2, v', Comparison(op, OperandOf(d1.k), OperandOf(d2.k)))
    ensures Means(v'.env, StepsOf(v'), p, VJmp(|v2.code| + 1), {}, {}, Bin(op, e1, e2), base)
  {
    OperandMeans(v1, d1, p, e1, base);
    OperandMeans(v2, d2, |v1.code|, e2, v1.freereg);
    assert |StepsOf(v1)| == |v1.code|;
    CompareMeans(v1.env, StepsOf(v1), StepsOf(v2), p, d1.k, d2.k, e1, e2, base, v1.freereg, op);
  }

  /** What luaK_exp2RK leaves: the value in a register, or a constant that an instruction can hold. */
  ghost predicate IsOperandOf(v: View, d: ExpDesc, p: int, e: Expr, base: nat) {
    && Tells(v, d, p, e, base) && v.nactvar <= base && InRegister(d.k, base, v.freereg, v.nactvar)
    && (d.k.VNonReloc? || d.k.VK?) && d.t == d.f == NO_JUMP
  }

  /** The registers that an operand takes. */
  function TakenBy(k: Kind, nactvar: nat): nat {
    if k.VNonReloc? && k.reg >= nactvar then 1 else 0
  }

  lemma OperandRegs(v1: View, v2: View, d1: ExpDesc, d2: ExpDesc, p: int, e1: Expr, e2: Expr, base: nat)
    requires IsOperandOf(v1, d1, p, e1, base) && IsOperandOf(v2, d2, |v1.code|, e2, v1.freereg) && v2.nactvar == v1.nactvar
    ensures IsOperand(d1.k) && IsOperand(d2.k)
    ensures v2.freereg == base + TakenBy(d1.k, v2.nactvar) + TakenBy(d2.k, v2.nactvar)
  {
  }

  /** A literal as a constant of the function. */
  lemma DescribeConst(v: View, d: ExpDesc, k: Kind, p: int, e: Expr, base: nat)
    requires Describes(v, d, p, e, base) && IsLit(d.k) && k.VK? && k.v == LitVal(d.k) && d.t == d.f == NO_JUMP
    ensures IsOperandOf(v, d.(k := k), p, e, base)
  {
    KindMeans(v.env, StepsOf(v), p, d.k, k, Jumps(v.q, d.t), Jumps(v.q, d.f), e, base);
  }

  /** What luaK_infix leaves of the first operand: a decision, or its value in a register. */
  ghost predicate Prepared(v: View, op: BinOp, d: ExpDesc, p: int, e: Expr, base: nat) {
    if op == And || op == Or then
      (if op == And then d.t else d.f) == NO_JUMP && Decided(v, if op == And then d.f else d.t, p, e, base, op == And)
    else IsOperandOf(v, d, p, e, base)
  }

  lemma LocalsMono(e: Expr, n: nat, m: nat)
    requires LocalsBelow(e, n) && n <= m
    ensures LocalsBelow(e, m)
  {
  }

  lemma MeansDelivered(v: View, p: int, e: Expr, base: nat)
    requires Describes(v, ExpDesc(VNonReloc(base), NO_JUMP, NO_JUMP), p, e, base)
    ensures Delivered(v, p, e, base, base)
  {
    ElemsAreJumps(v.code, v.q, NO_JUMP);
    InPlace(v.env, StepsOf(v), p, base, {}, {}, e, base);
  }
}

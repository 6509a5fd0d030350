/** What it means that unfinished code computes an expression, and how this is kept as code grows. */
module BoolMeaning {
  import opened BoolCode
  import opened PatchLists

  /** Where the value of an expression is; of the kinds of `expkind` those that logical expressions use. */
  datatype Kind =
    | VTrue | VFalse | VKNum(nval: int) | VK(info: nat, v: Val)
    | VLocal(r: int) | VUpval(n: nat) | VJmp(pc: int) | VReloc(pc: int) | VNonReloc(reg: int)

  predicate IsLit(k: Kind) {
    k.VTrue? || k.VFalse? || k.VKNum? || k.VK?
  }

  function LitVal(k: Kind): Val
    requires IsLit(k)
  {
    match k
    case VTrue => Bool(true)
    case VFalse => Bool(false)
    case VKNum(n) => Number(n)
    case VK(_, v) => v
  }

  /** expdesc: the kind, and the lists of jumps out of the expression when it is true and when it is false. */
  datatype ExpDesc = ExpDesc(k: Kind, t: int, f: int)

  /** The last instructions that belong to the value itself. */
  function TailLen(k: Kind): nat {
    match k
    case VJmp(_) => 2
    case VReloc(_) => 1
    case _ => 0
  }

  predicate Relocatable(i: Instr) {
    i.NotOf? || i.GetUpval?
  }

  ghost predicate TailOk(s: seq<Step>, k: Kind) {
    && TailLen(k) <= |s|
    && (k.VReloc? ==> k.pc == |s| - 1 && s[k.pc].Op? && Relocatable(s[k.pc].i))
    && (k.VJmp? ==> k.pc == |s| - 1 && s[k.pc] == Hold && s[k.pc - 1].Cond? && s[k.pc - 1].i.Compare?)
  }

  /** The code before the tail. */
  function Body(s: seq<Step>, k: Kind): seq<Step>
    requires TailLen(k) <= |s|
  {
    s[..|s| - TailLen(k)]
  }

  /** The value that the tail gives. */
  function TailVal(env: Env, s: seq<Step>, k: Kind, R: Regs): Val
    requires TailOk(s, k)
  {
    match k
    case VTrue => Bool(true)
    case VFalse => Bool(false)
    case VKNum(n) => Number(n)
    case VK(_, v) => v
    case VLocal(r) => Get(R, r)
    case VNonReloc(r) => Get(R, r)
    case VUpval(n) => env.up(n)
    case VReloc(pc) => Result(env, s[pc].i, R)
    case VJmp(pc) => Bool(Taken(env, s[pc - 1].i, R))
  }

  /** The jump keeps a value: it is that of a TESTSET. */
  predicate KeepsValue(s: seq<Step>, j: int) {
    0 < j <= |s| && s[j - 1].Keep?
  }

  /** A jump out of the code: in list `T` for a true value, `F` for a false one.  A test that keeps its value
      has it in its register; else the value is just the boolean. */
  ghost predicate Leaves(s: seq<Step>, T: set<int>, F: set<int>, v: Val, R: Regs, base: int, o: Outcome)
    requires o.Exit?
  {
    && 0 <= o.j < |s| && s[o.j] == Hold && Same(R, o.R, base) && (o.tested ==> o.j > 0)
    && (if IsFalse(v) then o.j in F else o.j in T)
    && (if KeepsValue(s, o.j) then o.tested && Get(o.R, s[o.j - 1].b) == v else v == Bool(!IsFalse(v)))
  }

  ghost predicate Computes(env: Env, s: seq<Step>, k: Kind, T: set<int>, F: set<int>, v: Val, R: Regs, base: int, o: Outcome)
    requires TailOk(s, k)
  {
    && !o.Stuck?
    && (o.Exit? ==> Leaves(s, T, F, v, R, base, o))
    && (o.Fall? ==> Same(R, o.R, base) && TailVal(env, s, k, o.R) == v)
  }

  /** The code from `p` on computes `e`: it leaves through `T` or `F`, or ends with the value where `k` says.
      Registers below `base` stay as they are. */
  ghost predicate Means(env: Env, s: seq<Step>, p: int, k: Kind, T: set<int>, F: set<int>, e: Expr, base: int) {
    && TailOk(s, k) && 0 <= p <= |s| - TailLen(k)
    && forall R {:trigger Run(env, Body(s, k), p, R)} ::
         Computes(env, s, k, T, F, Eval(env, e, R), R, base, Run(env, Body(s, k), p, R))
  }

  ghost predicate Sorts(s: seq<Step>, T: set<int>, F: set<int>, v: Val, R: Regs, base: int, sense: bool, o: Outcome) {
    && !o.Stuck?
    && (o.Exit? ==> Leaves(s, T, F, v, R, base, o))
    && (o.Fall? ==> Same(R, o.R, base) && IsFalse(v) == !sense)
  }

  /** The code from `p` on decides `e`: it ends only if `e` is true (`sense`), or only if it is false. */
  ghost predicate Decides(env: Env, s: seq<Step>, p: int, T: set<int>, F: set<int>, e: Expr, base: int, sense: bool) {
    && 0 <= p <= |s|
    && forall R {:trigger Run(env, s, p, R)} :: Sorts(s, T, F, Eval(env, e, R), R, base, sense, Run(env, s, p, R))
  }

  // ---------- leaves ----------

  /** A variable or a literal needs no code. */
  lemma LeafMeans(env: Env, s: seq<Step>, k: Kind, e: Expr, base: int)
    requires (e.Local? && (k == VLocal(e.reg) || k == VNonReloc(e.reg))) || (e.Upval? && k == VUpval(e.n))
          || (e.Lit? && IsLit(k) && LitVal(k) == e.v)
    ensures Means(env, s, |s|, k, {}, {}, e, base)
  {
  }

  /** Another way to say where the same value is. */
  lemma KindMeans(env: Env, s: seq<Step>, p: int, k: Kind, k': Kind, T: set<int>, F: set<int>, e: Expr, base: int)
    requires Means(env, s, p, k, T, F, e, base) && TailLen(k) == TailLen(k') == 0
    requires forall R {:trigger TailVal(env, s, k', R)} :: TailVal(env, s, k', R) == TailVal(env, s, k, R)
    ensures Means(env, s, p, k', T, F, e, base)
  {
    assert Body(s, k') == Body(s, k);
    forall R
      ensures Computes(env, s, k', T, F, Eval(env, e, R), R, base, Run(env, Body(s, k'), p, R))
    {
      assert Computes(env, s, k, T, F, Eval(env, e, R), R, base, Run(env, Body(s, k), p, R));
    }
  }

  /** Reading an upvalue: its instruction is the tail. */
  lemma UpvalMeans(env: Env, s: seq<Step>, p: int, n: nat, T: set<int>, F: set<int>, e: Expr, base: int)
    requires Means(env, s, p, VUpval(n), T, F, e, base)
    ensures Means(env, s + [Op(GetUpval(0, n))], p, VReloc(|s|), T, F, e, base)
  {
    var s' := s + [Op(GetUpval(0, n))];
    assert Body(s', VReloc(|s|)) == s == Body(s, VUpval(n));
    forall R
      ensures Computes(env, s', VReloc(|s|), T, F, Eval(env, e, R), R, base, Run(env, s, p, R))
    {
      assert Computes(env, s, VUpval(n), T, F, Eval(env, e, R), R, base, Run(env, s, p, R));
    }
  }

  // ---------- conditional jumps ----------

  /** Running code that only got longer. */
  lemma RunLonger(env: Env, s: seq<Step>, s': seq<Step>, p: int, R: Regs)
    requires |s| <= |s'| && s'[..|s|] == s && 0 <= p <= |s|
    ensures var o := Run(env, s, p, R);
      && (o.Fall? ==> Run(env, s', p, R) == Run(env, s', |s|, o.R))
      && (o.Exit? ==> 0 <= o.j < |s| && Run(env, s', p, R) == o)
  {
    ExitHeld(env, s, p, R);
    assert forall i :: 0 <= i < |s| ==> s'[i] == s[i];
    RunGrown(env, s, s', p, R);
  }

  /** The test that a step makes. */
  function TestOf(t: Step): Instr
    requires t.Keep? || (t.Cond? && IsTest(t.i))
  {
    if t.Keep? then Test(t.b, t.c) else t.i
  }

  /** A test and its held jump at the end of the code. */
  lemma RunLastTest(env: Env, s: seq<Step>, R: Regs)
    requires |s| >= 2 && s[|s| - 1] == Hold && (s[|s| - 2].Keep? || (s[|s| - 2].Cond? && IsTest(s[|s| - 2].i)))
    requires !TestOf(s[|s| - 2]).TestSet?
    ensures Run(env, s, |s| - 2, R) == if Taken(env, TestOf(s[|s| - 2]), R) then Exit(|s| - 1, true, R) else Fall(R)
  {
    var n := |s| - 2;
    assert Run(env, s, n, R) == RunTest(env, s, n, TestOf(s[n]), R);
    assert Run(env, s, n + 2, R) == Fall(R);
  }

  /** A test of the register of the value, whose jump keeps the value: taken if the value is `cond`. */
  lemma TestValue(env: Env, s: seq<Step>, p: int, r: int, T: set<int>, F: set<int>, e: Expr, base: int, cond: bool)
    requires Means(env, s, p, VNonReloc(r), T, F, e, base)
    ensures var j := |s| + 1;
      Decides(env, s + [Keep(r, cond), Hold], p, if cond then T + {j} else T, if cond then F else F + {j}, e, base, !cond)
  {
    var s' := s + [Keep(r, cond), Hold];
    assert Body(s, VNonReloc(r)) == s;
    forall R
      ensures Sorts(s', if cond then T + {|s| + 1} else T, if cond then F else F + {|s| + 1}, Eval(env, e, R), R, base, !cond,
                    Run(env, s', p, R))
    {
      var o := Run(env, s, p, R);
      assert Computes(env, s, VNonReloc(r), T, F, Eval(env, e, R), R, base, o);
      RunLonger(env, s, s', p, R);
      if o.Fall? {
        RunLastTest(env, s', o.R);
      }
    }
  }

  /** `not` needs no instruction of its own before a jump: the test is turned around. */
  lemma TestNot(env: Env, s: seq<Step>, p: int, T: set<int>, F: set<int>, e: Expr, base: int, b: int, cond: bool)
    requires Means(env, s, p, VReloc(|s| - 1), T, F, e, base) && s[|s| - 1].i.NotOf? && s[|s| - 1].i.b == b
    ensures var s', j := s[..|s| - 1] + [Cond(Test(b, !cond)), Hold], |s|;
      Decides(env, s', p, if cond then T + {j} else T, if cond then F else F + {j}, e, base, !cond)
  {
    var k, body := VReloc(|s| - 1), s[..|s| - 1];
    var s' := body + [Cond(Test(b, !cond)), Hold];
    forall R
      ensures Sorts(s', if cond then T + {|s|} else T, if cond then F else F + {|s|}, Eval(env, e, R), R, base, !cond,
                    Run(env, s', p, R))
    {
      var o := Run(env, Body(s, k), p, R);
      assert Computes(env, s, k, T, F, Eval(env, e, R), R, base, o);
      RunLonger(env, body, s', p, R);
      if o.Fall? {
        RunLastTest(env, s', o.R);
      }
    }
  }

  function Flipped(i: Instr): Instr
    requires i.Compare?
  {
    i.(cond := !i.cond)
  }

  /** The jump of a comparison itself. */
  lemma TestJump(env: Env, s: seq<Step>, p: int, T: set<int>, F: set<int>, e: Expr, base: int)
    requires Means(env, s, p, VJmp(|s| - 1), T, F, e, base)
    ensures Decides(env, s, p, T + {|s| - 1}, F, e, base, false)
  {
    var k := VJmp(|s| - 1);
    forall R
      ensures Sorts(s, T + {|s| - 1}, F, Eval(env, e, R), R, base, false, Run(env, s, p, R))
    {
      var o := Run(env, Body(s, k), p, R);
      assert Computes(env, s, k, T, F, Eval(env, e, R), R, base, o);
      RunLonger(env, Body(s, k), s, p, R);
      if o.Fall? {
        RunLastTest(env, s, o.R);
      }
    }
  }

  /** The same jump inverted. */
  lemma TestInverted(env: Env, s: seq<Step>, p: int, T: set<int>, F: set<int>, e: Expr, base: int)
    requires Means(env, s, p, VJmp(|s| - 1), T, F, e, base)
    ensures Decides(env, s[|s| - 2 := Cond(Flipped(s[|s| - 2].i))], p, T, F + {|s| - 1}, e, base, true)
  {
    var k := VJmp(|s| - 1);
    var s' := s[|s| - 2 := Cond(Flipped(s[|s| - 2].i))];
    forall R
      ensures Sorts(s', T, F + {|s| - 1}, Eval(env, e, R), R, base, true, Run(env, s', p, R))
    {
      var o := Run(env, Body(s, k), p, R);
      assert Computes(env, s, k, T, F, Eval(env, e, R), R, base, o);
      RunLonger(env, Body(s, k), s', p, R);
      if o.Fall? {
        RunLastTest(env, s', o.R);
      }
    }
  }

  // ---------- literals ----------

  /** A literal that goes on needs no jump. */
  lemma LitDecides(env: Env, s: seq<Step>, p: int, k: Kind, T: set<int>, F: set<int>, e: Expr, base: int, sense: bool)
    requires Means(env, s, p, k, T, F, e, base) && IsLit(k) && IsFalse(LitVal(k)) == !sense
    ensures Decides(env, s, p, T, F, e, base, sense)
  {
    assert Body(s, k) == s;
    forall R
      ensures Sorts(s, T, F, Eval(env, e, R), R, base, sense, Run(env, s, p, R))
    {
      assert Computes(env, s, k, T, F, Eval(env, e, R), R, base, Run(env, s, p, R));
    }
  }

  /** `true` or `false` that does not go on always jumps. */
  lemma LitJump(env: Env, s: seq<Step>, p: int, k: Kind, T: set<int>, F: set<int>, e: Expr, base: int)
    requires Means(env, s, p, k, T, F, e, base) && (k.VTrue? || k.VFalse?) && !KeepsValue(s, |s|)
    ensures Decides(env, s + [Hold], p, if k.VTrue? then T + {|s|} else T, if k.VTrue? then F else F + {|s|}, e, base, k.VFalse?)
  {
    var s' := s + [Hold];
    assert Body(s, k) == s;
    forall R
      ensures Sorts(s', if k.VTrue? then T + {|s|} else T, if k.VTrue? then F else F + {|s|}, Eval(env, e, R), R, base, k.VFalse?,
                    Run(env, s', p, R))
    {
      var o := Run(env, s, p, R);
      assert Computes(env, s, k, T, F, Eval(env, e, R), R, base, o);
      RunLonger(env, s, s', p, R);
      if o.Fall? {
        assert Run(env, s', |s|, o.R) == Exit(|s|, false, o.R);
      }
    }
  }

  // ---------- and, or ----------

  ghost predicate AllHeld(s: seq<Step>, S: set<int>) {
    forall j :: j in S ==> 0 <= j < |s| && s[j] == Hold
  }

  /** Moving the exits of a decided expression to the end of the code: they agree with falling off it. */
  lemma CloseList(env: Env, s: seq<Step>, p: int, T: set<int>, F: set<int>, e: Expr, base: int, sense: bool)
    requires Decides(env, s, p, T, F, e, base, sense) && T !! F && AllHeld(s, T) && AllHeld(s, F)
    ensures sense ==> Decides(env, Here(s, T), p, {}, F, e, base, true)
    ensures !sense ==> Decides(env, Here(s, F), p, T, {}, e, base, false)
  {
    var gone := if sense then T else F;
    var s' := Here(s, gone);
    assert Grows(s, s');
    forall R
      ensures Sorts(s', if sense then {} else T, if sense then F else {}, Eval(env, e, R), R, base, sense, Run(env, s', p, R))
    {
      var o := Run(env, s, p, R);
      assert Sorts(s, T, F, Eval(env, e, R), R, base, sense, o);
      ExitHeld(env, s, p, R);
      RunGrown(env, s, s', p, R);
      if !o.Stuck? {
        assert Run(env, s', |s'|, o.R) == Fall(o.R);
        if o.Exit? && o.j in gone {
          assert s'[o.j] == Goto(|s|) && (o.j > 0 ==> Patched(s, s', o.j - 1));
          assert Run(env, s', o.j, o.R) == Run(env, s', |s|, o.R);
        }
      }
    }
  }

  /** The second operand runs when the first one has decided for it. */
  lemma JoinMeans(env: Env, s1: seq<Step>, s2: seq<Step>, p: int, k: Kind, T1: set<int>, F1: set<int>,
                  T2: set<int>, F2: set<int>, e1: Expr, e2: Expr, base: nat, sense: bool)
    requires Decides(env, s1, p, T1, F1, e1, base, sense) && (if sense then T1 == {} else F1 == {})
    requires |s1| <= |s2| && s2[..|s1|] == s1 && LocalsBelow(e2, base)
    requires Means(env, s2, |s1|, k, T2, F2, e2, base)
    ensures Means(env, s2, p, k, T1 + T2, F1 + F2, Bin(if sense then And else Or, e1, e2), base)
  {
    var e := Bin(if sense then And else Or, e1, e2);
    var body := Body(s2, k);
    assert body[..|s1|] == s1;
    forall R
      ensures Computes(env, s2, k, T1 + T2, F1 + F2, Eval(env, e, R), R, base, Run(env, body, p, R))
    {
      var o := Run(env, s1, p, R);
      assert Sorts(s1, T1, F1, Eval(env, e1, R), R, base, sense, o);
      RunLonger(env, s1, body, p, R);
      if o.Fall? {
        assert Computes(env, s2, k, T2, F2, Eval(env, e2, o.R), o.R, base, Run(env, body, |s1|, o.R));
        EvalSame(env, e2, R, o.R, base);
      }
    }
  }

  // ---------- not ----------

  lemma NotLists(env: Env, s: seq<Step>, p: int, k: Kind, k': Kind, T: set<int>, F: set<int>, e: Expr, base: int, s': seq<Step>)
    requires Means(env, s, p, k, T, F, e, base) && |s'| == |s| && TailLen(k') == TailLen(k) && TailOk(s', k')
    requires s'[..|s| - TailLen(k)] == Demote(Body(s, k), T + F)
    requires forall R {:trigger TailVal(env, s', k', R)} :: TailVal(env, s', k', R) == Bool(IsFalse(TailVal(env, s, k, R)))
    ensures Means(env, s', p, k', F, T, Not(e), base)
  {
    var body, body' := Body(s, k), Body(s', k');
    assert body' == Demote(body, T + F);
    assert Grows(body, body');
    forall R
      ensures Computes(env, s', k', F, T, Eval(env, Not(e), R), R, base, Run(env, body', p, R))
    {
      var o := Run(env, body, p, R);
      assert Computes(env, s, k, T, F, Eval(env, e, R), R, base, o);
      ExitHeld(env, body, p, R);
      RunGrown(env, body, body', p, R);
    }
  }

  /** `not` of a literal is another one. */
  lemma NotLit(env: Env, s: seq<Step>, p: int, k: Kind, k': Kind, T: set<int>, F: set<int>, e: Expr, base: int)
    requires Means(env, s, p, k, T, F, e, base) && IsLit(k) && IsLit(k') && LitVal(k') == Bool(IsFalse(LitVal(k)))
    ensures Means(env, Demote(s, T + F), p, k', F, T, Not(e), base)
  {
    assert Body(s, k) == s && Demote(s, T + F)[..|s|] == Demote(s, T + F);
    NotLists(env, s, p, k, k', T, F, e, base, Demote(s, T + F));
  }

  /** The value of `not`, from the register of the operand. */
  lemma NotValue(env: Env, s: seq<Step>, p: int, r: int, T: set<int>, F: set<int>, e: Expr, base: int, s': seq<Step>)
    requires Means(env, s, p, VNonReloc(r), T, F, e, base) && |s'| == |s| + 1
    requires s'[..|s|] == Demote(s, T + F) && s'[|s|] == Op(NotOf(0, r))
    ensures Means(env, s', p, VReloc(|s|), F, T, Not(e), base)
  {
    assert Body(s, VNonReloc(r)) == s;
    var k, body' := VReloc(|s|), Body(s', VReloc(|s|));
    assert Grows(s, body');
    forall R
      ensures Computes(env, s', k, F, T, Eval(env, Not(e), R), R, base, Run(env, body', p, R))
    {
      var o := Run(env, s, p, R);
      assert Computes(env, s, VNonReloc(r), T, F, Eval(env, e, R), R, base, o);
      ExitHeld(env, s, p, R);
      RunGrown(env, s, body', p, R);
    }
  }

  /** The comparison before the last jump turned around, and no more values kept. */
  lemma NotJump(env: Env, s: seq<Step>, p: int, T: set<int>, F: set<int>, e: Expr, base: int, s': seq<Step>)
    requires Means(env, s, p, VJmp(|s| - 1), T, F, e, base) && AllHeld(s, T + F) && forall j :: j in T + F ==> j < |s| - 1
    requires s' == Demote(s[|s| - 2 := Cond(Flipped(s[|s| - 2].i))], T + F)
    ensures Means(env, s', p, VJmp(|s| - 1), F, T, Not(e), base)
  {
    var k := VJmp(|s| - 1);
    assert s'[|s| - 2] == Cond(Flipped(s[|s| - 2].i));
    assert Body(s', k) == Demote(Body(s, k), T + F);
    NotLists(env, s, p, k, k, T, F, e, base, s');
  }

  // ---------- the value into a register ----------

  ghost predicate SameBut(R: Regs, R': Regs, base: int, reg: int) {
    forall r {:trigger Get(R', r)} :: r < base && r != reg ==> Get(R', r) == Get(R, r)
  }

  ghost predicate Ready(s: seq<Step>, T: set<int>, F: set<int>, v: Val, R: Regs, base: int, reg: int, loaded: bool, o: Outcome) {
    && !o.Stuck?
    && (o.Exit? ==> Leaves(s, T, F, v, R, base, o))
    && (o.Fall? ==> if loaded then SameBut(R, o.R, base, reg) && Get(o.R, reg) == v else Same(R, o.R, base) && v == Bool(false))
  }

  /** The code from `p` on leaves with the value, or ends with it in `reg` (`loaded`), or ends knowing that it is false. */
  ghost predicate Readies(env: Env, s: seq<Step>, p: int, T: set<int>, F: set<int>, e: Expr, base: int, reg: int, loaded: bool) {
    && 0 <= p <= |s|
    && forall R {:trigger Run(env, s, p, R)} :: Ready(s, T, F, Eval(env, e, R), R, base, reg, loaded, Run(env, s, p, R))
  }

  lemma SameSet(R: Regs, R': Regs, base: int, reg: int, v: Val)
    requires Same(R, R', base) || SameBut(R, R', base, reg)
    ensures SameBut(R, R'[reg := v], base, reg) && Get(R'[reg := v], reg) == v
  {
    forall r | r < base && r != reg
      ensures Get(R'[reg := v], r) == Get(R, r)
    {
      assert Get(R', r) == Get(R, r);
    }
  }

  lemma InPlace(env: Env, s: seq<Step>, p: int, reg: int, T: set<int>, F: set<int>, e: Expr, base: int)
    requires Means(env, s, p, VNonReloc(reg), T, F, e, base)
    ensures Readies(env, s, p, T, F, e, base, reg, true)
  {
    assert Body(s, VNonReloc(reg)) == s;
    forall R
      ensures Ready(s, T, F, Eval(env, e, R), R, base, reg, true, Run(env, s, p, R))
    {
      assert Computes(env, s, VNonReloc(reg), T, F, Eval(env, e, R), R, base, Run(env, s, p, R));
    }
  }

  /** The instructions that put a value into a register. */
  predicate Puts(i: Instr, reg: int) {
    (i.Move? || i.LoadK? || (i.LoadBool? && !i.skip)) && i.a == reg
  }

  lemma Put(env: Env, s: seq<Step>, p: int, k: Kind, i: Instr, reg: int, T: set<int>, F: set<int>, e: Expr, base: int)
    requires Means(env, s, p, k, T, F, e, base) && TailLen(k) == 0 && Puts(i, reg)
    requires forall R {:trigger Result(env, i, R)} :: Result(env, i, R) == TailVal(env, s, k, R)
    ensures Readies(env, s + [Op(i)], p, T, F, e, base, reg, true)
  {
    var s' := s + [Op(i)];
    assert Body(s, k) == s;
    forall R
      ensures Ready(s', T, F, Eval(env, e, R), R, base, reg, true, Run(env, s', p, R))
    {
      var o := Run(env, s, p, R);
      assert Computes(env, s, k, T, F, Eval(env, e, R), R, base, o);
      RunLonger(env, s, s', p, R);
      if o.Fall? {
        var v := Result(env, i, o.R);
        SameSet(R, o.R, base, reg, v);
        assert Run(env, s', |s|, o.R) == Run(env, s', |s| + 1, o.R[reg := v]) == Fall(o.R[reg := v]);
      }
    }
  }

  lemma Relocated(env: Env, s: seq<Step>, p: int, reg: int, T: set<int>, F: set<int>, e: Expr, base: int)
    requires Means(env, s, p, VReloc(|s| - 1), T, F, e, base)
    ensures Readies(env, s[|s| - 1 := Op(WithTarget(s[|s| - 1].i, reg))], p, T, F, e, base, reg, true)
  {
    var k, n := VReloc(|s| - 1), |s| - 1;
    var i := WithTarget(s[n].i, reg);
    var s' := s[n := Op(i)];
    forall R
      ensures Ready(s', T, F, Eval(env, e, R), R, base, reg, true, Run(env, s', p, R))
    {
      var o := Run(env, Body(s, k), p, R);
      assert Computes(env, s, k, T, F, Eval(env, e, R), R, base, o);
      RunLonger(env, Body(s, k), s', p, R);
      if o.Fall? {
        var R1 := o.R[reg := Result(env, i, o.R)];
        SameSet(R, o.R, base, reg, Result(env, i, o.R));
        assert Run(env, s', n, o.R) == Run(env, s', n + 1, R1) == Fall(R1);
      }
    }
  }

  /** A comparison that falls through is false. */
  lemma FallsFalse(env: Env, s: seq<Step>, p: int, reg: int, T: set<int>, F: set<int>, e: Expr, base: int)
    requires Means(env, s, p, VJmp(|s| - 1), T, F, e, base)
    ensures Readies(env, s, p, T + {|s| - 1}, F, e, base, reg, false)
  {
    var k := VJmp(|s| - 1);
    forall R
      ensures Ready(s, T + {|s| - 1}, F, Eval(env, e, R), R, base, reg, false, Run(env, s, p, R))
    {
      var o := Run(env, Body(s, k), p, R);
      assert Computes(env, s, k, T, F, Eval(env, e, R), R, base, o);
      RunLonger(env, Body(s, k), s, p, R);
      if o.Fall? {
        RunLastTest(env, s, o.R);
      }
    }
  }

  /** With the value in a register above all that matters, and no list, that register is where it is. */
  lemma ReadyMeans(env: Env, s: seq<Step>, p: int, T: set<int>, F: set<int>, e: Expr, base: int, reg: int)
    requires Readies(env, s, p, T, F, e, base, reg, true) && reg >= base
    ensures Means(env, s, p, VNonReloc(reg), T, F, e, base)
  {
    assert Body(s, VNonReloc(reg)) == s;
    forall R
      ensures Computes(env, s, VNonReloc(reg), T, F, Eval(env, e, R), R, base, Run(env, s, p, R))
    {
      assert Ready(s, T, F, Eval(env, e, R), R, base, reg, true, Run(env, s, p, R));
    }
  }

  /** How exp2reg closes both lists at the end of the code: a kept value goes to the register, other jumps go
      to the instructions that load a boolean (`loads`), which a loaded value jumps over. */
  ghost predicate Closed(s: seq<Step>, s': seq<Step>, T: set<int>, F: set<int>, reg: int, loaded: bool, loads: bool) {
    var n, m := |s|, |s'|;
    && m == (if !loads then n else if loaded then n + 3 else n + 2)
    && (loads && loaded ==> s'[n] == Goto(m))
    && (loads ==> s'[m - 2] == Op(LoadBool(reg, false, true)) && s'[m - 1] == Op(LoadBool(reg, true, false)))
    && (!loads ==> loaded)
    && (forall j :: j in T + F ==> 0 <= j < n && s[j] == Hold && (!loads ==> KeepsValue(s, j)))
    && (forall i :: 0 <= i < n ==> ClosedAt(s, s', T, F, reg, loaded, loads, i))
  }

  ghost predicate ClosedAt(s: seq<Step>, s': seq<Step>, T: set<int>, F: set<int>, reg: int, loaded: bool, loads: bool, i: int)
    requires 0 <= i < |s| <= |s'|
  {
    if i in T + F then s'[i] == Goto(if KeepsValue(s, i) then |s'| else if i in T then |s'| - 1 else |s'| - 2)
    else if i + 1 in T + F && s[i].Keep? then
      s'[i] == Cond(if reg != s[i].b then TestSet(reg, s[i].b, s[i].c) else Test(s[i].b, s[i].c))
    else s'[i] == s[i] || (s[i] == Goto(|s|) && loads && loaded && s'[i] == Goto(|s'|))
  }

  lemma CloseGrows(s: seq<Step>, s': seq<Step>, T: set<int>, F: set<int>, reg: int, loaded: bool, loads: bool)
    requires Closed(s, s', T, F, reg, loaded, loads)
    ensures Grows(s, s')
  {
    forall i | 0 <= i < |s|
      ensures Patched(s, s', i)
    {
      assert ClosedAt(s, s', T, F, reg, loaded, loads, i);
      if i + 1 in T + F {
        assert ClosedAt(s, s', T, F, reg, loaded, loads, i + 1);
      }
    }
  }

  /** The instructions that load a boolean. */
  lemma RunLoads(env: Env, s: seq<Step>, reg: int, R: Regs)
    requires |s| >= 2 && s[|s| - 2] == Op(LoadBool(reg, false, true)) && s[|s| - 1] == Op(LoadBool(reg, true, false))
    ensures Run(env, s, |s| - 1, R) == Fall(R[reg := Bool(true)])
    ensures Run(env, s, |s| - 2, R) == Fall(R[reg := Bool(false)])
  {
    assert Run(env, s, |s| - 1, R) == Run(env, s, |s|, R[reg := Bool(true)]);
    assert Run(env, s, |s| - 2, R) == Run(env, s, |s|, R[reg := Bool(false)]);
  }

  /** After falling off the code itself. */
  lemma CloseFall(env: Env, s: seq<Step>, s': seq<Step>, T: set<int>, F: set<int>, v: Val, R: Regs, base: int, reg: int,
                  loaded: bool, loads: bool, R1: Regs)
    requires Closed(s, s', T, F, reg, loaded, loads) && Ready(s, T, F, v, R, base, reg, loaded, Fall(R1))
    ensures Ready(s', {}, {}, v, R, base, reg, true, Run(env, s', |s|, R1))
  {
    if !loaded {
      RunLoads(env, s', reg, R1);
      SameSet(R, R1, base, reg, Bool(false));
    } else if loads {
      assert Run(env, s', |s|, R1) == Run(env, s', |s'|, R1) == Fall(R1);
    }
  }

  /** After a jump out of the code. */
  lemma CloseExit(env: Env, s: seq<Step>, s': seq<Step>, T: set<int>, F: set<int>, v: Val, R: Regs, base: int, reg: int,
                  loaded: bool, loads: bool, j: int, tested: bool, R1: Regs)
    requires Closed(s, s', T, F, reg, loaded, loads) && Leaves(s, T, F, v, R, base, Exit(j, tested, R1)) && T !! F
    requires tested ==> !Sets(s[j - 1]) && s[j - 1] != Hold
    ensures Ready(s', {}, {}, v, R, base, reg, true, Resume(env, s, s', Exit(j, tested, R1)))
  {
    assert j in T + F;
    assert ClosedAt(s, s', T, F, reg, loaded, loads, j) && (j > 0 ==> ClosedAt(s, s', T, F, reg, loaded, loads, j - 1));
    assert forall x :: x in T + F ==> 0 <= x < |s| && s[x] == Hold;
    SameSet(R, R1, base, reg, v);
    if KeepsValue(s, j) {
      var b := s[j - 1].b;
      var R2 := if reg != b then R1[reg := v] else R1;
      assert s'[j] == Goto(|s'|);
      assert Run(env, s', j, R2) == Run(env, s', |s'|, R2) == Fall(R2);
      if reg == b {
        assert SameBut(R, R1, base, reg);
      }
    } else {
      RunLoads(env, s', reg, R1);
      assert Run(env, s', j, R1) == Run(env, s', s'[j].d, R1);
    }
  }

  /** exp2reg: in the end the value is in the register, on every path. */
  lemma CloseReady(env: Env, s: seq<Step>, s': seq<Step>, p: int, T: set<int>, F: set<int>, e: Expr, base: int, reg: int,
                   loaded: bool, loads: bool)
    requires Readies(env, s, p, T, F, e, base, reg, loaded) && Closed(s, s', T, F, reg, loaded, loads) && T !! F
    ensures Readies(env, s', p, {}, {}, e, base, reg, true)
  {
    CloseGrows(s, s', T, F, reg, loaded, loads);
    forall R
      ensures Ready(s', {}, {}, Eval(env, e, R), R, base, reg, true, Run(env, s', p, R))
    {
      var o := Run(env, s, p, R);
      assert Ready(s, T, F, Eval(env, e, R), R, base, reg, loaded, o);
      ExitHeld(env, s, p, R);
      RunGrown(env, s, s', p, R);
      match o
      case Fall(R1) => CloseFall(env, s, s', T, F, Eval(env, e, R), R, base, reg, loaded, loads, R1);
      case Exit(j, tested, R1) => CloseExit(env, s, s', T, F, Eval(env, e, R), R, base, reg, loaded, loads, j, tested, R1);
    }
  }

  // ---------- comparisons ----------

  /** The instruction of a comparison, as codecomp picks it: `>` and `>=` exchange their operands. */
  function Comparison(op: BinOp, x: Operand, y: Operand): Instr
    requires op != And && op != Or
  {
    match op
    case Equal => Compare(Eq, true, x, y)
    case NotEqual => Compare(Eq, false, x, y)
    case Less => Compare(Lt, true, x, y)
    case LessEq => Compare(Le, true, x, y)
    case Greater => Compare(Lt, true, y, x)
    case GreaterEq => Compare(Le, true, y, x)
  }

  predicate IsOperand(k: Kind) {
    k.VNonReloc? || IsLit(k)
  }

  /** RKASK: a register or a constant. */
  function OperandOf(k: Kind): Operand
    requires IsOperand(k)
  {
    if k.VNonReloc? then Reg(k.reg) else Const(LitVal(k))
  }

  lemma ComparisonTaken(env: Env, op: BinOp, x: Operand, y: Operand, R: Regs)
    requires op != And && op != Or
    ensures Comparison(op, x, y).Compare? && Taken(env, Comparison(op, x, y), R) == Compares(env, op, Read(R, x), Read(R, y))
  {
  }

  /** The first operand's value is still there when the second one is computed. */
  lemma OperandKept(env: Env, s: seq<Step>, k: Kind, R1: Regs, R2: Regs, base: int)
    requires IsOperand(k) && (k.VNonReloc? ==> k.reg < base) && Same(R1, R2, base)
    ensures Read(R2, OperandOf(k)) == TailVal(env, s, k, R1)
  {
    assert k.VNonReloc? ==> Get(R2, k.reg) == Get(R1, k.reg);
  }

  /** The value of the comparison that has been added. */
  lemma ComparedVal(env: Env, s: seq<Step>, op: BinOp, x: Operand, y: Operand, R: Regs)
    requires op != And && op != Or
    ensures var s', k := s + [Cond(Comparison(op, x, y)), Hold], VJmp(|s| + 1);
      TailOk(s', k) && Body(s', k) == s && TailVal(env, s', k, R) == Bool(Compares(env, op, Read(R, x), Read(R, y)))
  {
    ComparisonTaken(env, op, x, y, R);
  }

  /** Both computations, one after the other. */
  lemma RunBoth(env: Env, s1: seq<Step>, s2: seq<Step>, p: int, k1: Kind, k2: Kind, e1: Expr, e2: Expr, base: nat, base2: int, R: Regs)
    requires LocalsBelow(e2, base) && base <= base2 && IsOperand(k1) && IsOperand(k2) && (k1.VNonReloc? ==> k1.reg < base2)
    requires Means(env, s1, p, k1, {}, {}, e1, base)
    requires Means(env, s2, |s1|, k2, {}, {}, e2, base2) && |s1| <= |s2| && s2[..|s1|] == s1
    ensures var o := Run(env, s2, p, R);
      o.Fall? && Same(R, o.R, base) && Read(o.R, OperandOf(k1)) == Eval(env, e1, R) && Read(o.R, OperandOf(k2)) == Eval(env, e2, R)
  {
    assert Body(s2, k2) == s2 && Body(s1, k1) == s1;
    var o := Run(env, s1, p, R);
    assert Computes(env, s1, k1, {}, {}, Eval(env, e1, R), R, base, o);
    RunLonger(env, s1, s2, p, R);
    var o2 := Run(env, s2, |s1|, o.R);
    assert Computes(env, s2, k2, {}, {}, Eval(env, e2, o.R), o.R, base2, o2);
    EvalSame(env, e2, R, o.R, base);
    OperandKept(env, s1, k1, o.R, o2.R, base2);
    OperandKept(env, s2, k2, o2.R, o2.R, if k2.VNonReloc? then k2.reg + 1 else 0);
  }

  /** Both operands in registers or constants; the second computation leaves the first alone. */
  lemma CompareMeans(env: Env, s1: seq<Step>, s2: seq<Step>, p: int, k1: Kind, k2: Kind, e1: Expr, e2: Expr,
                     base: nat, base2: int, op: BinOp)
    requires op != And && op != Or && LocalsBelow(e2, base) && base <= base2
    requires IsOperand(k1) && IsOperand(k2) && (k1.VNonReloc? ==> k1.reg < base2)
    requires Means(env, s1, p, k1, {}, {}, e1, base)
    requires Means(env, s2, |s1|, k2, {}, {}, e2, base2) && |s1| <= |s2| && s2[..|s1|] == s1
    ensures Means(env, s2 + [Cond(Comparison(op, OperandOf(k1), OperandOf(k2))), Hold], p, VJmp(|s2| + 1), {}, {}, Bin(op, e1, e2), base)
  {
    var x1, x2 := OperandOf(k1), OperandOf(k2);
    var k, s, e := VJmp(|s2| + 1), s2 + [Cond(Comparison(op, x1, x2)), Hold], Bin(op, e1, e2);
    forall R
      ensures Computes(env, s, k, {}, {}, Eval(env, e, R), R, base, Run(env, Body(s, k), p, R))
    {
      RunBoth(env, s1, s2, p, k1, k2, e1, e2, base, base2, R);
      ComparedVal(env, s2, op, x1, x2, Run(env, s2, p, R).R);
    }
  }

  // ---------- from lists to sets of jumps ----------

  lemma HeldJumps(code: seq<Instr>, q: Pending, jpc: int, h: int)
    requires ListsOk(code, q) && (h != jpc || h == NO_JUMP)
    ensures AllHeld(Steps(code, q, jpc), Jumps(q, h)) && Jumps(q, NO_JUMP) == {}
    ensures h in q.list ==> h in Jumps(q, h)
  {
    ElemsAreJumps(code, q, h);
    if h in q.list {
      assert q.list[h][0] == h;
    }
  }

  /** What exp2reg has done to the code when all values are kept. */
  lemma ClosedShort(s: seq<Step>, T: set<int>, F: set<int>, reg: int)
    requires T !! F && AllHeld(s, T + F) && forall j :: j in T + F ==> j > 0 && s[j - 1].Keep?
    requires reg != NO_REG
    ensures forall x, y :: Closed(s, Resolve(Resolve(s, F, |s|, reg, x), T, |s|, reg, y), T, F, reg, true, false)
  {
    forall x, y, i | 0 <= i < |s|
      ensures ClosedAt(s, Resolve(Resolve(s, F, |s|, reg, x), T, |s|, reg, y), T, F, reg, true, false, i)
    {
    }
  }

  /** The same with the instructions that load booleans; `u` is the code with the jumps of `J`, for here, on hold. */
  lemma ClosedLong(u: seq<Step>, J: set<int>, T: set<int>, F: set<int>, reg: int)
    requires T !! F && AllHeld(u, T + F + J) && J !! T + F && reg != NO_REG
    requires |u| > 0 ==> !u[|u| - 1].Keep?
    ensures var n := |u|;
      var w := Here(u + [Hold, Op(LoadBool(reg, false, true)), Op(LoadBool(reg, true, false))], {n} + J);
      Closed(Here(u, J), Resolve(Resolve(w, F, n + 3, reg, n + 1), T, n + 3, reg, n + 2), T, F, reg, true, true)
  {
    var n := |u|;
    var w := Here(u + [Hold, Op(LoadBool(reg, false, true)), Op(LoadBool(reg, true, false))], {n} + J);
    var s, s' := Here(u, J), Resolve(Resolve(w, F, n + 3, reg, n + 1), T, n + 3, reg, n + 2);
    forall i | 0 <= i < n
      ensures ClosedAt(s, s', T, F, reg, true, true, i)
    {
      assert w[i] == if i in J then Goto(n + 3) else s[i];
    }
  }

  /** The same after a comparison, whose last jump is in `T`. */
  lemma ClosedJump(s: seq<Step>, T: set<int>, F: set<int>, reg: int)
    requires T !! F && AllHeld(s, T + F) && reg != NO_REG
    ensures var n := |s|;
      var w := s + [Op(LoadBool(reg, false, true)), Op(LoadBool(reg, true, false))];
      Closed(s, Resolve(Resolve(w, F, n + 2, reg, n), T, n + 2, reg, n + 1), T, F, reg, false, true)
  {
    var n := |s|;
    var w := s + [Op(LoadBool(reg, false, true)), Op(LoadBool(reg, true, false))];
    var s' := Resolve(Resolve(w, F, n + 2, reg, n), T, n + 2, reg, n + 1);
    forall i | 0 <= i < n
      ensures ClosedAt(s, s', T, F, reg, false, true, i)
    {
      assert w[i] == s[i];
    }
  }
}

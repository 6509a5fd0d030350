/** A logical expression with literals that is compiled to wrong code: a jump that is always made takes along a
    TESTSET jump that was waiting for here, which then still keeps its value. */
module CodeWrong {
  import opened BoolCode
  import opened PatchLists
  import opened BoolMeaning
  import opened CodeViews
  import opened CodeShape
  import opened CodeExec
  import opened CodeGen

  const ONE: Literal := Number(1)
  const YES: Literal := Bool(true)
  const NO: Literal := Bool(false)

  /** ((1 or false) and true) or false */
  const E := Bin(Or, Bin(And, Bin(Or, Lit(ONE), Lit(NO)), Lit(YES)), Lit(NO))

  // The calls that the parser makes for the three operators, up to the last operand.

  /** 1 or ...: luaK_goiffalse on a number. */
  method FirstOperator(f: FuncState) returns (t: int)
    requires Sound(f.Now()) && f.code == [] && f.jpc == NO_JUMP && f.nactvar == 1 && f.freereg == 1
    modifies f
    ensures Sound(f.Now()) && f.jpc == NO_JUMP && |f.code| == 3 && t in f.q.list && Jumps(f.q, t) == {2}
    ensures f.S() == [Op(LoadK(1, ONE)), Keep(1, true), Hold]
  {
    f.ReserveRegs(1);
    var _ := f.Code(LoadK(1, ONE));
    f.FreeReg(1);
    t := f.CondJump(TestSet(NO_REG, 1, true));
  }

  /** ... false, and ...: luaK_goiftrue on `false` with the list `t`. */
  method SecondOperator(f: FuncState, t: int) returns (f1: int)
    requires Sound(f.Now()) && f.jpc == NO_JUMP && |f.code| == 3 && t in f.q.list && Jumps(f.q, t) == {2}
    requires f.S() == [Op(LoadK(1, ONE)), Keep(1, true), Hold]
    modifies f
    ensures Sound(f.Now()) && f.jpc == t != NO_JUMP && t in f.q.list && Jumps(f.q, t) == {2}
    ensures |f.code| == 4 && f1 in f.q.list && f1 != t && Jumps(f.q, f1) == {3}
    ensures Steps(f.code, f.q, NO_JUMP) == [Op(LoadK(1, ONE)), Keep(1, true), Hold, Hold]
  {
    ElemsAreJumps(f.code, f.q, NO_JUMP);
    f1 := f.AlwaysJump();
    f.jpc := f.Concat(f.jpc, t);
  }

  /** ... true, or ...: luaK_goiffalse on `true` with the list `f1`.  The jumps of `t` are for here. */
  method ThirdOperator(f: FuncState, t: int, f1: int) returns (t2: int)
    requires Sound(f.Now()) && f.jpc == t != NO_JUMP && t in f.q.list && Jumps(f.q, t) == {2}
    requires |f.code| == 4 && f1 in f.q.list && f1 != t && Jumps(f.q, f1) == {3}
    requires Steps(f.code, f.q, NO_JUMP) == [Op(LoadK(1, ONE)), Keep(1, true), Hold, Hold]
    modifies f
    ensures Sound(f.Now()) && |f.code| == 5 && f.jpc != t2 && t2 in f.q.list && Jumps(f.q, t2) == {2, 4}
    ensures f.S() == [Op(LoadK(1, ONE)), Keep(1, true), Hold, Goto(5), Hold]
  {
    t2 := f.Jump();
    assert f.S() == [Op(LoadK(1, ONE)), Keep(1, true), Hold, Hold, Hold];
    HereSteps(f.code, f.q, f1);
    f.jpc := f.Concat(f.jpc, f1);
  }

  /** The steps of the whole expression as the value of the local variable in register 0. */
  const STEPS := [Op(LoadK(1, ONE)), Cond(TestSet(0, 1, true)), Goto(9), Goto(5), Goto(8), Op(LoadBool(0, false, false)), Goto(9),
                  Op(LoadBool(0, false, true)), Op(LoadBool(0, true, false))]

  /** exp2reg on `false` with the list `t`. */
  method IntoRegister(f: FuncState, t: int)
    requires Sound(f.Now()) && |f.code| == 5 && f.jpc != t && t in f.q.list && Jumps(f.q, t) == {2, 4}
    requires f.S() == [Op(LoadK(1, ONE)), Keep(1, true), Hold, Goto(5), Hold]
    modifies f
    ensures Sound(f.Now()) && f.S() == STEPS
  {
    var _ := f.Code(LoadBool(0, false, false));
    var need := f.NeedValue(t);
    assert !KeepsValue(f.S(), 4) && need;
    LoadBooleans(f, t);
    f.ResolveList(t, |f.code|, 0, 8);
  }

  method LoadBooleans(f: FuncState, t: int)
    requires Sound(f.Now()) && |f.code| == 6 && f.jpc == NO_JUMP && t in f.q.list && Jumps(f.q, t) == {2, 4}
    requires f.S() == [Op(LoadK(1, ONE)), Keep(1, true), Hold, Goto(5), Hold, Op(LoadBool(0, false, false))]
    modifies f
    ensures Sound(f.Now()) && |f.code| == 9 && f.jpc != t && t in f.q.list && Jumps(f.q, t) == {2, 4}
    ensures f.S() == [Op(LoadK(1, ONE)), Keep(1, true), Hold, Goto(5), Hold, Op(LoadBool(0, false, false)), Goto(9),
                      Op(LoadBool(0, false, true)), Op(LoadBool(0, true, false))]
  {
    ElemsAreJumps(f.code, f.q, NO_JUMP);
    ElemsAreJumps(f.code, f.q, t);
    f.CodeLoadsBehindJump(0);
  }

  lemma ShouldBeTrue(env: Env, R: Regs)
    ensures Eval(env, E, R) == Bool(true) && !Harmless(E, false)
  {
    assert Eval(env, Bin(Or, Lit(ONE), Lit(NO)), R) == ONE;
    assert Eval(env, Bin(And, Bin(Or, Lit(ONE), Lit(NO)), Lit(YES)), R) == YES;
  }

  /** The whole assignment. */
  method CompileWrong(f: FuncState)
    requires Sound(f.Now()) && f.code == [] && f.jpc == NO_JUMP && f.nactvar == 1 && f.freereg == 1
    modifies f
    ensures Sound(f.Now()) && f.S() == STEPS
  {
    var t := FirstOperator(f);
    var f1 := SecondOperator(f, t);
    t := ThirdOperator(f, t, f1);
    IntoRegister(f, t);
  }

  /** After `x = ((1 or false) and true) or false` the value of `x`, a local variable, is 1, and not true. */
  method WrongValue(ghost env: Env) returns (f: FuncState)
    ensures !Harmless(E, false)
    ensures forall R {:trigger Exec(env, f.code, 0, R)} ::
      Eval(env, E, R) == Bool(true) && Exec(env, f.code, 0, R).Halt? && Get(Exec(env, f.code, 0, R).R, 0) == ONE
  {
    f := new FuncState(env, 1);
    ShouldBeTrue(env, map[]);
    CompileWrong(f);
    var _ := f.Code(Return);
    assert f.S()[..|f.code| - 1] == STEPS;
    forall R
      ensures Eval(env, E, R) == Bool(true) && Exec(env, f.code, 0, R).Halt? && Get(Exec(env, f.code, 0, R).R, 0) == ONE
    {
      EndsWrong(env, f.code, f.q, R);
    }
  }

  lemma EndsWrong(env: Env, code: seq<Instr>, q: Pending, R: Regs)
    requires |code| == 10 && code[9] == Return && ListsOk(code, q) && Paired(code) && Steps(code, q, NO_JUMP)[..9] == STEPS
    ensures Eval(env, E, R) == Bool(true) && Exec(env, code, 0, R).Halt? && Get(Exec(env, code, 0, R).R, 0) == ONE
  {
    ShouldBeTrue(env, R);
    RunSteps(env, R);
    ExecSteps(env, code, q, 0, R);
  }

  lemma RunSteps(env: Env, R: Regs)
    ensures Run(env, STEPS, 0, R) == Fall(R[1 := ONE][0 := ONE])
  {
    var R1 := R[1 := ONE];
    assert Run(env, STEPS, 0, R) == Run(env, STEPS, 1, R1) == RunTest(env, STEPS, 1, TestSet(0, 1, true), R1);
    assert Taken(env, TestSet(0, 1, true), R1);
    assert Run(env, STEPS, 9, R1[0 := ONE]) == Fall(R1[0 := ONE]);
  }
}

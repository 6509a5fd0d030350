/** Logical expressions, the instructions they compile to, and what both mean. */
module BoolCode {
  datatype Val = Nil | Bool(b: bool) | Number(n: int) | Other(n: int)

  /** l_isfalse, as the code generator and the machine use it. */
  predicate IsFalse(v: Val) {
    v == Nil || v == Bool(false)
  }

  datatype CmpOp = Eq | Lt | Le

  /** What the machine runs in: the comparisons of values, and the upvalues of the function. */
  datatype Env = Env(cmp: (CmpOp, Val, Val) -> bool, up: nat -> Val)

  type Regs = map<int, Val>

  function Get(R: Regs, r: int): Val {
    if r in R then R[r] else Nil
  }

  // ---------- the source ----------

  datatype BinOp = And | Or | Equal | NotEqual | Less | LessEq | Greater | GreaterEq

  /** What literals stand for: true, false, numbers and (as `Other`) strings. */
  type Literal = v: Val | v != Nil witness Bool(true)

  datatype Expr = Local(reg: nat) | Upval(n: nat) | Lit(v: Literal) | Not(e: Expr) | Bin(op: BinOp, l: Expr, r: Expr)

  /** The truth tables, value by value: `not v`, `v and w`, `v or w`. */
  function Negation(v: Val): Val {
    match v
    case Nil => Bool(true)
    case Bool(b) => Bool(!b)
    case Number(_) => Bool(false)
    case Other(_) => Bool(false)
  }

  function Conjunction(v: Val, w: Val): Val {
    match v
    case Nil => Nil
    case Bool(b) => if b then w else Bool(false)
    case Number(_) => w
    case Other(_) => w
  }

  function Disjunction(v: Val, w: Val): Val {
    match v
    case Nil => w
    case Bool(b) => if b then Bool(true) else w
    case Number(n) => Number(n)
    case Other(n) => Other(n)
  }

  /** Section 2.5.2 and 2.5.3 of the Lua 5.1 Reference Manual. */
  function Eval(env: Env, e: Expr, R: Regs): Val {
    match e
    case Local(r) => Get(R, r)
    case Upval(n) => env.up(n)
    case Lit(v) => v
    case Not(x) => Negation(Eval(env, x, R))
    case Bin(And, l, r) => Conjunction(Eval(env, l, R), Eval(env, r, R))
    case Bin(Or, l, r) => Disjunction(Eval(env, l, R), Eval(env, r, R))
    case Bin(op, l, r) => Bool(Compares(env, op, Eval(env, l, R), Eval(env, r, R)))
  }

  function Compares(env: Env, op: BinOp, v: Val, w: Val): bool
    requires op != And && op != Or
  {
    match op
    case Equal => env.cmp(Eq, v, w)
    case NotEqual => !env.cmp(Eq, v, w)
    case Less => env.cmp(Lt, v, w)
    case LessEq => env.cmp(Le, v, w)
    case Greater => env.cmp(Lt, w, v)
    case GreaterEq => env.cmp(Le, w, v)
  }

  /** All locals of an expression are registers below `n`. */
  predicate LocalsBelow(e: Expr, n: nat) {
    match e
    case Local(r) => r < n
    case Upval(_) => true
    case Lit(_) => true
    case Not(x) => LocalsBelow(x, n)
    case Bin(_, l, r) => LocalsBelow(l, n) && LocalsBelow(r, n)
  }

  ghost predicate Same(R: Regs, R': Regs, base: int) {
    forall r {:trigger Get(R', r)} :: r < base ==> Get(R', r) == Get(R, r)
  }

  lemma {:induction false} EvalSame(env: Env, e: Expr, R: Regs, R': Regs, base: nat)
    requires Same(R, R', base) && LocalsBelow(e, base)
    ensures Eval(env, e, R') == Eval(env, e, R)
  {
    match e
    case Local(_) =>
    case Upval(_) =>
    case Lit(_) =>
    case Not(x) => EvalSame(env, x, R, R', base);
    case Bin(_, l, r) =>
      EvalSame(env, l, R, R', base);
      EvalSame(env, r, R, R', base);
  }

  // ---------- the machine ----------

  /** An operand of a comparison: a register, or a constant of the function. */
  datatype Operand = Reg(r: int) | Const(v: Val)

  function Read(R: Regs, x: Operand): Val {
    match x
    case Reg(r) => Get(R, r)
    case Const(v) => v
  }

  /** The part of the instruction set that logical expressions use; `a` is the target register. */
  datatype Instr =
    | Move(a: int, b: int)
    | LoadBool(a: int, v: bool, skip: bool)
    | LoadK(a: int, k: Val)
    | GetUpval(a: int, n: nat)
    | NotOf(a: int, b: int)
    | Jmp(off: int)
    | Test(b: int, c: bool)
    | TestSet(a: int, b: int, c: bool)
    | Compare(op: CmpOp, cond: bool, x: Operand, y: Operand)
    | Return

  predicate IsTest(i: Instr) {
    i.Test? || i.TestSet? || i.Compare?
  }

  /** SETARG_A, for instructions that can be relocated. */
  function WithTarget(i: Instr, reg: int): Instr
    requires i.NotOf? || i.GetUpval?
  {
    match i
    case NotOf(_, b) => NotOf(reg, b)
    case GetUpval(_, n) => GetUpval(reg, n)
  }

  /** The value that an instruction puts in its target register. */
  function Result(env: Env, i: Instr, R: Regs): Val
    requires i.Move? || i.LoadBool? || i.LoadK? || i.GetUpval? || i.NotOf?
  {
    match i
    case Move(_, b) => Get(R, b)
    case LoadBool(_, v, _) => Bool(v)
    case LoadK(_, k) => k
    case GetUpval(_, n) => env.up(n)
    case NotOf(_, b) => Bool(IsFalse(Get(R, b)))
  }

  /** Whether a test makes the jump that follows it. */
  predicate Taken(env: Env, i: Instr, R: Regs)
    requires IsTest(i)
  {
    match i
    case Test(b, c) => IsFalse(Get(R, b)) != c
    case TestSet(_, b, c) => IsFalse(Get(R, b)) != c
    case Compare(op, cond, x, y) => env.cmp(op, Read(R, x), Read(R, y)) == cond
  }

  datatype Final = Halt(R: Regs) | Crash

  /** luaV_execute from `pc` on, for code without backward jumps, up to OP_RETURN. */
  function Exec(env: Env, code: seq<Instr>, pc: int, R: Regs): Final
    decreases |code| - pc
  {
    if !(0 <= pc < |code|) then Crash
    else
      match code[pc]
      case Return => Halt(R)
      case Jmp(off) => if off >= 0 then Exec(env, code, pc + 1 + off, R) else Crash
      case Test(_, _) => ExecTest(env, code, pc, R)
      case TestSet(_, _, _) => ExecTest(env, code, pc, R)
      case Compare(_, _, _, _) => ExecTest(env, code, pc, R)
      case LoadBool(a, v, skip) => Exec(env, code, if skip then pc + 2 else pc + 1, R[a := Bool(v)])
      case i => Exec(env, code, pc + 1, R[i.a := Result(env, i, R)])
  }

  function ExecTest(env: Env, code: seq<Instr>, pc: int, R: Regs): Final
    requires 0 <= pc < |code| && IsTest(code[pc])
    decreases |code| - pc, 0
  {
    if !Taken(env, code[pc], R) then Exec(env, code, pc + 2, R)
    else if pc + 1 < |code| && code[pc + 1].Jmp? && code[pc + 1].off >= 0 then
      Exec(env, code, pc + 2 + code[pc + 1].off, if code[pc].TestSet? then R[code[pc].a := Get(R, code[pc].b)] else R)
    else Crash
  }

  // ---------- code with jumps still to be patched ----------

  /** An instruction of unfinished code.  A jump has a destination or is held; `Keep` is a TESTSET whose
      jump is held, so it has no target register yet. */
  datatype Step = Op(i: Instr) | Cond(i: Instr) | Keep(b: int, c: bool) | Goto(d: int) | Hold

  /** Where unfinished code ends up: at its end, or at a held jump (`tested`: by the test before it). */
  datatype Outcome = Fall(R: Regs) | Exit(j: int, tested: bool, R: Regs) | Stuck

  function Run(env: Env, s: seq<Step>, pc: int, R: Regs): Outcome
    decreases |s| - pc
  {
    if pc == |s| then Fall(R)
    else if !(0 <= pc < |s|) then Stuck
    else
      match s[pc]
      case Hold => Exit(pc, false, R)
      case Goto(d) => if d > pc then Run(env, s, d, R) else Stuck
      case Keep(b, c) => RunTest(env, s, pc, Test(b, c), R)
      case Cond(i) => if IsTest(i) then RunTest(env, s, pc, i, R) else Stuck
      case Op(i) =>
        if i.LoadBool? then Run(env, s, if i.skip then pc + 2 else pc + 1, R[i.a := Bool(i.v)])
        else if i.Move? || i.LoadK? || i.GetUpval? || i.NotOf? then Run(env, s, pc + 1, R[i.a := Result(env, i, R)])
        else Stuck
  }

  function RunTest(env: Env, s: seq<Step>, pc: int, i: Instr, R: Regs): Outcome
    requires 0 <= pc < |s| && IsTest(i)
    decreases |s| - pc, 0
  {
    if !Taken(env, i, R) then Run(env, s, pc + 2, R)
    else if pc + 1 < |s| && s[pc + 1] == Hold && !i.TestSet? then Exit(pc + 1, true, R)
    else if pc + 1 < |s| && s[pc + 1].Goto? && s[pc + 1].d > pc + 1 then
      Run(env, s, s[pc + 1].d, if i.TestSet? then R[i.a := Get(R, i.b)] else R)
    else Stuck
  }

  /** One step of longer and further patched code `s'`: as in `s`, or a held jump got a destination past
      the end of `s`, or a jump to the end of `s` goes where the jump there goes. */
  ghost predicate Patched(s: seq<Step>, s': seq<Step>, i: int)
    requires 0 <= i < |s| <= |s'|
  {
    || s'[i] == s[i]
    || (s[i] == Hold && s'[i].Goto? && s'[i].d >= |s|)
    || (s[i] == Goto(|s|) && s'[i].Goto? && s'[i].d > |s| && |s| < |s'| && s'[|s|] == s'[i])
    || (s[i].Keep? && s'[i] == Cond(Test(s[i].b, s[i].c)))
    || (s[i].Keep? && s'[i].Cond? && s'[i].i.TestSet? && s'[i].i.b == s[i].b && s'[i].i.c == s[i].c
        && i + 1 < |s| && s[i + 1] == Hold && s'[i + 1].Goto?)
  }

  ghost predicate Grows(s: seq<Step>, s': seq<Step>) {
    |s| <= |s'| && forall i :: 0 <= i < |s| ==> Patched(s, s', i)
  }

  /** How a run of `s` goes on in `s'`. */
  function Resume(env: Env, s: seq<Step>, s': seq<Step>, o: Outcome): Outcome {
    match o
    case Stuck => Stuck
    case Fall(R) => Run(env, s', |s|, R)
    case Exit(j, tested, R) =>
      if !(0 <= j < |s'|) then Stuck
      else if s'[j] == Hold then o
      else Run(env, s', j, if tested && j > 0 && Sets(s'[j - 1]) then R[s'[j - 1].i.a := Get(R, s'[j - 1].i.b)] else R)
  }

  predicate Sets(t: Step) {
    t.Cond? && t.i.TestSet?
  }

  /** A run of patched code is a run of the code before, and what comes after it. */
  lemma {:induction false} RunGrown(env: Env, s: seq<Step>, s': seq<Step>, pc: int, R: Regs)
    requires Grows(s, s') && 0 <= pc <= |s|
    ensures Run(env, s, pc, R).Stuck? || Run(env, s', pc, R) == Resume(env, s, s', Run(env, s, pc, R))
    decreases |s| - pc
  {
    if pc < |s| {
      assert Patched(s, s', pc);
      match s[pc]
      case Hold =>
        if s'[pc] != Hold {
          assert pc > 0 ==> Patched(s, s', pc - 1);
        }
      case Goto(d) =>
        if s'[pc] == s[pc] && pc < d <= |s| {
          RunGrown(env, s, s', d, R);
        }
      case Keep(b, c) => TestGrown(env, s, s', pc, Test(b, c), R);
      case Cond(i) =>
        if IsTest(i) {
          TestGrown(env, s, s', pc, i, R);
        }
      case Op(i) =>
        if i.LoadBool? {
          var n := if i.skip then pc + 2 else pc + 1;
          if n <= |s| {
            RunGrown(env, s, s', n, R[i.a := Bool(i.v)]);
          }
        } else if i.Move? || i.LoadK? || i.GetUpval? || i.NotOf? {
          RunGrown(env, s, s', pc + 1, R[i.a := Result(env, i, R)]);
        }
    }
  }

  /** A run leaves at held jumps only, and never at one whose test has a target. */
  lemma {:induction false} ExitHeld(env: Env, s: seq<Step>, pc: int, R: Regs)
    ensures var o := Run(env, s, pc, R);
      o.Exit? ==> 0 <= o.j < |s| && s[o.j] == Hold && (o.tested ==> o.j > 0 && !Sets(s[o.j - 1]) && s[o.j - 1] != Hold)
    decreases |s| - pc
  {
    if 0 <= pc < |s| {
      match s[pc]
      case Hold =>
      case Goto(d) =>
        if d > pc {
          ExitHeld(env, s, d, R);
        }
      case Keep(b, c) => TestExitHeld(env, s, pc, Test(b, c), R);
      case Cond(i) =>
        if IsTest(i) {
          TestExitHeld(env, s, pc, i, R);
        }
      case Op(i) =>
        if i.LoadBool? {
          ExitHeld(env, s, if i.skip then pc + 2 else pc + 1, R[i.a := Bool(i.v)]);
        } else if i.Move? || i.LoadK? || i.GetUpval? || i.NotOf? {
          ExitHeld(env, s, pc + 1, R[i.a := Result(env, i, R)]);
        }
    }
  }

  lemma {:induction false} TestExitHeld(env: Env, s: seq<Step>, pc: int, i: Instr, R: Regs)
    requires 0 <= pc < |s| && IsTest(i) && (s[pc] == Cond(i) || (s[pc].Keep? && i == Test(s[pc].b, s[pc].c)))
    ensures var o := RunTest(env, s, pc, i, R);
      o.Exit? ==> 0 <= o.j < |s| && s[o.j] == Hold && (o.tested ==> o.j > 0 && !Sets(s[o.j - 1]) && s[o.j - 1] != Hold)
    decreases |s| - pc, 0
  {
    if !Taken(env, i, R) {
      ExitHeld(env, s, pc + 2, R);
    } else if pc + 1 < |s| && s[pc + 1].Goto? && s[pc + 1].d > pc + 1 {
      ExitHeld(env, s, s[pc + 1].d, if i.TestSet? then R[i.a := Get(R, i.b)] else R);
    }
  }

  /** A patched test that is not taken still skips its jump. */
  lemma NotTakenGrown(env: Env, s: seq<Step>, s': seq<Step>, pc: int, i: Instr, R: Regs)
    requires 0 <= pc < |s| <= |s'| && Patched(s, s', pc) && IsTest(i) && !Taken(env, i, R)
    requires s[pc] == Cond(i) || (s[pc].Keep? && i == Test(s[pc].b, s[pc].c))
    ensures Run(env, s', pc, R) == Run(env, s', pc + 2, R)
  {
    match s'[pc]
    case Keep(b, c) => assert Run(env, s', pc, R) == RunTest(env, s', pc, Test(b, c), R);
    case Cond(t) => assert Run(env, s', pc, R) == RunTest(env, s', pc, t, R);
  }

  lemma {:induction false} TestGrown(env: Env, s: seq<Step>, s': seq<Step>, pc: int, i: Instr, R: Regs)
    requires Grows(s, s') && 0 <= pc < |s| && IsTest(i) && (s[pc] == Cond(i) || (s[pc].Keep? && i == Test(s[pc].b, s[pc].c)))
    ensures Run(env, s, pc, R).Stuck? || Run(env, s', pc, R) == Resume(env, s, s', Run(env, s, pc, R))
    decreases |s| - pc, 0
  {
    assert Patched(s, s', pc);
    if !Taken(env, i, R) {
      assert Run(env, s, pc, R) == Run(env, s, pc + 2, R);
      NotTakenGrown(env, s, s', pc, i, R);
      if pc + 2 <= |s| {
        RunGrown(env, s, s', pc + 2, R);
      }
    } else if pc + 1 < |s| {
      assert Patched(s, s', pc + 1);
      if s[pc + 1].Goto? && pc + 1 < s[pc + 1].d {
        var d, R1 := s[pc + 1].d, if i.TestSet? then R[i.a := Get(R, i.b)] else R;
        assert Run(env, s, pc, R) == Run(env, s, d, R1);
        if d <= |s| && s'[pc + 1] == s[pc + 1] {
          assert Run(env, s', pc, R) == Run(env, s', d, R1);
          RunGrown(env, s, s', d, R1);
        } else if d <= |s| {
          assert Run(env, s', pc, R) == Run(env, s', s'[pc + 1].d, R1);
          assert Run(env, s', |s|, R1) == Run(env, s', s'[pc + 1].d, R1);
        }
      } else if s[pc + 1] == Hold && s'[pc + 1] != Hold {
        assert Run(env, s', pc + 1, if Sets(s'[pc]) then R[s'[pc].i.a := Get(R, s'[pc].i.b)] else R) == Run(env, s', pc, R);
      }
    }
  }
}

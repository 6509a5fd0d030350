/** What is true and what is false, value by value: the laws of `not`, `and`, `or`, and of the tests. */
module BoolLaws {
  import opened BoolCode

  /** Nil and false; every other value counts as true. */
  predicate Falsy(v: Val) {
    match v
    case Nil => true
    case Bool(b) => !b
    case Number(_) => false
    case Other(_) => false
  }

  /** What register `reg` must hold after `e`, for the operators with a truth table. */
  ghost predicate Tabled(o: Final, env: Env, e: Expr, R: Regs, reg: int) {
    && o.Halt?
    && match e {
         case Not(x) => Get(o.R, reg) == Bool(Falsy(Eval(env, x, R)))
         case Bin(And, l, r) => Get(o.R, reg) == (if Falsy(Eval(env, l, R)) then Eval(env, l, R) else Eval(env, r, R))
         case Bin(Or, l, r) => Get(o.R, reg) == (if Falsy(Eval(env, l, R)) then Eval(env, r, R) else Eval(env, l, R))
         case Bin(NotEqual, l, r) => Get(o.R, reg) == Bool(!env.cmp(Eq, Eval(env, l, R), Eval(env, r, R)))
         case Bin(Greater, l, r) => Get(o.R, reg) == Bool(env.cmp(Lt, Eval(env, r, R), Eval(env, l, R)))
         case Bin(GreaterEq, l, r) => Get(o.R, reg) == Bool(env.cmp(Le, Eval(env, r, R), Eval(env, l, R)))
         case _ => true
       }
  }

  /** The value of an expression is that of its truth table. */
  lemma TruthTables(o: Final, env: Env, e: Expr, R: Regs, reg: int)
    requires o.Halt? && Get(o.R, reg) == Eval(env, e, R)
    ensures Tabled(o, env, e, R, reg)
  {
  }

  /** Every way an operand of `not`, `and` and `or` can turn out. */
  lemma ByValue(env: Env, l: Expr, r: Expr, R: Regs)
    ensures Eval(env, l, R) == Nil ==>
      Eval(env, Not(l), R) == Bool(true) && Eval(env, Bin(And, l, r), R) == Nil && Eval(env, Bin(Or, l, r), R) == Eval(env, r, R)
    ensures Eval(env, l, R) == Bool(false) ==>
      Eval(env, Not(l), R) == Bool(true) && Eval(env, Bin(And, l, r), R) == Bool(false) && Eval(env, Bin(Or, l, r), R) == Eval(env, r, R)
    ensures Eval(env, l, R) == Bool(true) || Eval(env, l, R).Number? || Eval(env, l, R).Other? ==>
      Eval(env, Not(l), R) == Bool(false) && Eval(env, Bin(And, l, r), R) == Eval(env, r, R) && Eval(env, Bin(Or, l, r), R) == Eval(env, l, R)
  {
  }

  /** OP_TEST, OP_TESTSET and OP_NOT on register `b`: the jump behind a test is made when the value is false
      and `c` is 0, or true and `c` is 1; else it is skipped. */
  lemma MachineTests(env: Env, code: seq<Instr>, pc: nat, R: Regs, a: int, b: int, c: bool, off: nat)
    requires pc + 1 < |code|
    ensures code[pc] == NotOf(a, b) ==> Exec(env, code, pc, R) == Exec(env, code, pc + 1, R[a := Bool(Falsy(Get(R, b)))])
    ensures code[pc] == Test(b, c) && code[pc + 1] == Jmp(off) ==>
      Exec(env, code, pc, R) == if Falsy(Get(R, b)) == c then Exec(env, code, pc + 2, R) else Exec(env, code, pc + 2 + off, R)
    ensures code[pc] == TestSet(a, b, c) && code[pc + 1] == Jmp(off) ==>
      Exec(env, code, pc, R)
      == if Falsy(Get(R, b)) == c then Exec(env, code, pc + 2, R) else Exec(env, code, pc + 2 + off, R[a := Get(R, b)])
  {
  }
}

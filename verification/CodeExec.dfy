/** From unfinished code to the machine: finished code does what its steps do. */
module CodeExec {
  import opened BoolCode
  import opened PatchLists
  import opened BoolMeaning
  import opened CodeViews

  /** Code that is finished, up to its OP_RETURN: a run of the steps before it is a run of the machine. */
  lemma {:induction false} ExecSteps(env: Env, code: seq<Instr>, q: Pending, pc: int, R: Regs)
    requires |code| > 0 && code[|code| - 1] == Return && ListsOk(code, q) && Paired(code)
    requires 0 <= pc < |code| && Run(env, Steps(code, q, NO_JUMP)[..|code| - 1], pc, R).Fall?
    ensures Exec(env, code, pc, R) == Halt(Run(env, Steps(code, q, NO_JUMP)[..|code| - 1], pc, R).R)
    decreases |code| - pc, 1
  {
    var n := |code| - 1;
    var s := Steps(code, q, NO_JUMP)[..n];
    if pc < n {
      assert s[pc] == StepAt(code, q.home, NO_JUMP, pc);
      assert pc in q.home ==> q.home[pc] in q.list;
      match code[pc]
      case Jmp(off) =>
        ExecAt(env, code, q, pc + 1 + off, R);
      case Test(_, _) => ExecTestSteps(env, code, q, pc, R);
      case TestSet(_, _, _) => ExecTestSteps(env, code, q, pc, R);
      case Compare(_, _, _, _) => ExecTestSteps(env, code, q, pc, R);
      case Return =>
      case LoadBool(a, v, skip) =>
        ExecAt(env, code, q, if skip then pc + 2 else pc + 1, R[a := Bool(v)]);
      case i => ExecAt(env, code, q, pc + 1, R[i.a := Result(env, i, R)]);
    }
  }

  lemma ExecAt(env: Env, code: seq<Instr>, q: Pending, pc: int, R: Regs)
    requires |code| > 0 && code[|code| - 1] == Return && ListsOk(code, q) && Paired(code)
    ensures 0 <= pc && Run(env, Steps(code, q, NO_JUMP)[..|code| - 1], pc, R).Fall? ==>
      Exec(env, code, pc, R) == Halt(Run(env, Steps(code, q, NO_JUMP)[..|code| - 1], pc, R).R)
    decreases |code| - pc, 2
  {
    if 0 <= pc < |code| {
      if Run(env, Steps(code, q, NO_JUMP)[..|code| - 1], pc, R).Fall? {
        ExecSteps(env, code, q, pc, R);
      }
    }
  }

  lemma ExecTestSteps(env: Env, code: seq<Instr>, q: Pending, pc: int, R: Regs)
    requires |code| > 0 && code[|code| - 1] == Return && ListsOk(code, q) && Paired(code)
    requires 0 <= pc < |code| - 1 && IsTest(code[pc])
    requires Run(env, Steps(code, q, NO_JUMP)[..|code| - 1], pc, R).Fall?
    ensures Exec(env, code, pc, R) == Halt(Run(env, Steps(code, q, NO_JUMP)[..|code| - 1], pc, R).R)
    decreases |code| - pc, 0
  {
    var n := |code| - 1;
    var s := Steps(code, q, NO_JUMP)[..n];
    assert s[pc] == StepAt(code, q.home, NO_JUMP, pc);
    assert pc + 1 in q.home ==> q.home[pc + 1] in q.list;
    if Taken(env, code[pc], R) {
      assert pc + 1 < n ==> s[pc + 1] == StepAt(code, q.home, NO_JUMP, pc + 1);
      var off := code[pc + 1].off;
      ExecAt(env, code, q, pc + 2 + off, if code[pc].TestSet? then R[code[pc].a := Get(R, code[pc].b)] else R);
    } else {
      ExecAt(env, code, q, pc + 2, R);
    }
  }
}

/** Operator precedence: subexpr of lparser.c, building a tree in place of code. */
module Precedence {
  import opened Wrappers

  datatype BinOp = Add | Sub | Mul | Div | Mod | Pow | Concat | Ne | Eq | Lt | Le | Gt | Ge | And | Or

  datatype UnOp = Minus | Not | Len

  /** The minus sign is one token, for both uses. */
  datatype Token = Atom(n: int) | Op(op: BinOp) | NotSign | LenSign | Open | Close | Other

  datatype Tree = Leaf(n: int) | Un(u: UnOp, x: Tree) | Bin(op: BinOp, l: Tree, r: Tree)

  function GetUnOpr(t: Token): Option<UnOp> {
    match t
    case NotSign => Some(Not)
    case Op(Sub) => Some(Minus)
    case LenSign => Some(Len)
    case _ => None
  }

  function GetBinOpr(t: Token): Option<BinOp> {
    match t
    case Op(op) => Some(op)
    case _ => None
  }

  /** The priority table. */
  function Left(op: BinOp): nat {
    match op
    case Add => 6 case Sub => 6 case Mul => 7 case Div => 7 case Mod => 7
    case Pow => 10 case Concat => 5
    case Ne => 3 case Eq => 3 case Lt => 3 case Le => 3 case Gt => 3 case Ge => 3
    case And => 2 case Or => 1
  }

  function Right(op: BinOp): nat {
    match op
    case Pow => 9
    case Concat => 4
    case _ => Left(op)
  }

  const UNARY_PRIORITY: nat := 8

  /** The priority of an operator that follows; 0 if none does. */
  function Next(ts: seq<Token>): nat {
    if ts != [] && GetBinOpr(ts[0]).Some? then Left(GetBinOpr(ts[0]).value) else 0
  }

  // ---------- the grammar as functions on the tokens left ----------

  datatype Parsed = Good(v: Tree, rest: seq<Token>) | Bad(msg: string)

  /** simpleexp: a constant or variable, or an expression in parentheses. */
  function Simple(ts: seq<Token>): (p: Parsed)
    ensures p.Good? ==> |p.rest| < |ts|
    decreases |ts|, 0
  {
    if ts == [] then Bad("unexpected symbol")
    else
      match ts[0]
      case Atom(n) => Good(Leaf(n), ts[1..])
      case Open =>
        var p := SubExpr(ts[1..], 0);
        if p.Bad? then p
        else if p.rest != [] && p.rest[0] == Close then Good(p.v, p.rest[1..])
        else Bad("')' expected")
      case _ => Bad("unexpected symbol")
  }

  function SubExpr(ts: seq<Token>, limit: nat): (p: Parsed)
    ensures p.Good? ==> |p.rest| < |ts|
    decreases |ts|, 1
  {
    if ts != [] && GetUnOpr(ts[0]).Some? then
      var p := SubExpr(ts[1..], UNARY_PRIORITY);
      if p.Bad? then p else Loop(Un(GetUnOpr(ts[0]).value, p.v), p.rest, limit)
    else
      var p := Simple(ts);
      if p.Bad? then p else Loop(p.v, p.rest, limit)
  }

  /** The operators with a priority higher than `limit`. */
  function Loop(v: Tree, ts: seq<Token>, limit: nat): (p: Parsed)
    ensures p.Good? ==> |p.rest| <= |ts|
    decreases |ts|, 0
  {
    if ts != [] && GetBinOpr(ts[0]).Some? && Left(GetBinOpr(ts[0]).value) > limit then
      var op := GetBinOpr(ts[0]).value;
      var p := SubExpr(ts[1..], Right(op));
      if p.Bad? then p else Loop(Bin(op, v, p.v), p.rest, limit)
    else Good(v, ts)
  }

  /** One operator of the loop. */
  lemma LoopTurn(v: Tree, ts: seq<Token>, limit: nat, op: BinOp)
    requires ts != [] && GetBinOpr(ts[0]) == Some(op) && Left(op) > limit
    ensures var p := SubExpr(ts[1..], Right(op)); Loop(v, ts, limit) == if p.Good? then Loop(Bin(op, v, p.v), p.rest, limit) else p
  {
  }

  // ---------- the parser ----------

  datatype Result = Ok(v: Tree, op: Option<BinOp>) | Error(msg: string)

  class Parser {
    const tokens: seq<Token>
    var pos: nat

    constructor (tokens: seq<Token>)
      ensures this.tokens == tokens && pos == 0
    {
      this.tokens, pos := tokens, 0;
    }

    /** The tokens left. */
    function Ahead(): seq<Token>
      requires pos <= |tokens|
      reads this
    {
      tokens[pos..]
    }

    function Current(): Token
      reads this
    {
      if pos < |tokens| then tokens[pos] else Other
    }

    method SimpleExp() returns (r: Result)
      requires pos <= |tokens|
      modifies this
      ensures pos <= |tokens| && old(pos) <= pos
      ensures match Simple(old(Ahead()))
        case Good(v, rest) => r.Ok? && r.v == v && Ahead() == rest
        case Bad(msg) => r == Error(msg)
      decreases |tokens| - pos, 0
    {
      match Current() {
        case Atom(n) =>
          pos := pos + 1;
          r := Ok(Leaf(n), None);
        case Open =>
          pos := pos + 1;
          r := Expression(0);
          if r.Ok? {
            if Current() == Close {
              pos := pos + 1;
            } else {
              r := Error("')' expected");
            }
          }
        case _ => r := Error("unexpected symbol");
      }
    }

    /** The first half of subexpr: a unary operator with its operand, or a simple expression. */
    method Operand(ghost limit: nat) returns (r: Result)
      requires pos <= |tokens|
      modifies this
      ensures pos <= |tokens| && (r.Ok? ==> old(pos) < pos) && old(pos) <= pos
      ensures match r
        case Ok(v, _) => SubExpr(old(Ahead()), limit) == Loop(v, Ahead(), limit)
        case Error(msg) => SubExpr(old(Ahead()), limit) == Bad(msg)
      decreases |tokens| - pos, 1
    {
      var uop := GetUnOpr(Current());
      if uop.Some? {
        pos := pos + 1;
        r := Expression(UNARY_PRIORITY);
        if r.Ok? {
          r := Ok(Un(uop.value, r.v), None);
        }
      } else {
        r := SimpleExp();
      }
    }

    /** subexpr: reads a sub-expression, up to the first operator that `limit` does not let it treat. */
    method Expression(limit: nat) returns (r: Result)
      requires pos <= |tokens|
      modifies this
      ensures pos <= |tokens| && old(pos) <= pos
      ensures match SubExpr(old(Ahead()), limit)
        case Good(v, rest) => r == Ok(v, GetBinOpr(Current())) && Ahead() == rest
        case Bad(msg) => r == Error(msg)
      decreases |tokens| - pos, 2
    {
      ghost var start := Ahead();
      r := Operand(limit);
      if r.Error? {
        return;
      }
      var v := r.v;
      var op := GetBinOpr(Current());
      while op.Some? && Left(op.value) > limit
        invariant old(pos) < pos <= |tokens| && op == GetBinOpr(Current())
        invariant SubExpr(start, limit) == Loop(v, Ahead(), limit)
        decreases |tokens| - pos
      {
        LoopTurn(v, Ahead(), limit, op.value);
        assert Ahead()[1..] == tokens[pos + 1..];
        pos := pos + 1;
        r := Expression(Right(op.value));
        if r.Error? {
          return;
        }
        v := Bin(op.value, v, r.v);
        op := r.op;
      }
      r := Ok(v, op);
    }
  }

  // ---------- printing ----------

  function Sign(u: UnOp): Token {
    match u
    case Minus => Op(Sub)
    case Not => NotSign
    case Len => LenSign
  }

  /** Whether a tree needs parentheses where the parser reads with `limit` and an operator of priority `next` follows. */
  predicate NeedsParens(e: Tree, limit: nat, next: nat) {
    match e
    case Leaf(_) => false
    case Un(_, _) => next > UNARY_PRIORITY
    case Bin(op, _, _) => Left(op) <= limit || next > Right(op)
  }

  /** A tree as tokens, with parentheses only where they are needed. */
  function Print(e: Tree, limit: nat, next: nat): seq<Token>
    decreases e, 1
  {
    if NeedsParens(e, limit, next) then [Open] + Plain(e, 0, 0) + [Close] else Plain(e, limit, next)
  }

  function Plain(e: Tree, limit: nat, next: nat): seq<Token>
    decreases e, 0
  {
    match e
    case Leaf(n) => [Atom(n)]
    case Un(u, x) => [Sign(u)] + Print(x, UNARY_PRIORITY, next)
    case Bin(op, l, r) => Print(l, limit, Left(op)) + [Op(op)] + Print(r, Right(op), next)
  }

  // ---------- parsing what was printed ----------

  lemma BinTokens(op: BinOp, l: Tree, r: Tree, limit: nat, next: nat, rest: seq<Token>)
    ensures var rs := Print(r, Right(op), next) + rest;
      Plain(Bin(op, l, r), limit, next) + rest == Print(l, limit, Left(op)) + ([Op(op)] + rs) && ([Op(op)] + rs)[1..] == rs
  {
  }

  lemma {:induction false} ParsePlain(e: Tree, limit: nat, next: nat, rest: seq<Token>)
    requires Next(rest) == next && !NeedsParens(e, limit, next)
    ensures SubExpr(Plain(e, limit, next) + rest, limit) == Loop(e, rest, limit)
    decreases e, 0
  {
    var ts := Plain(e, limit, next) + rest;
    match e
    case Leaf(n) =>
      assert ts[1..] == rest;
    case Un(u, x) =>
      var xs := Print(x, UNARY_PRIORITY, next) + rest;
      assert ts[1..] == xs;
      ParsePrint(x, UNARY_PRIORITY, next, rest);
    case Bin(op, l, r) =>
      var rs := Print(r, Right(op), next) + rest;
      BinTokens(op, l, r, limit, next, rest);
      ParsePrint(l, limit, Left(op), [Op(op)] + rs);
      ParsePrint(r, Right(op), next, rest);
      LoopTurn(l, [Op(op)] + rs, limit, op);
  }

  /** An expression in parentheses is a simple one. */
  lemma InParens(e: Tree, xs: seq<Token>, rest: seq<Token>)
    requires SubExpr(xs + ([Close] + rest), 0) == Good(e, [Close] + rest)
    ensures Simple([Open] + xs + [Close] + rest) == Good(e, rest)
  {
    var ts := [Open] + xs + [Close] + rest;
    assert ts[1..] == xs + ([Close] + rest);
    assert ([Close] + rest)[1..] == rest;
  }

  lemma NothingAfterClose(e: Tree, rest: seq<Token>)
    ensures Loop(e, [Close] + rest, 0) == Good(e, [Close] + rest)
  {
  }

  lemma SimpleFirst(ts: seq<Token>, limit: nat, e: Tree, rest: seq<Token>)
    requires ts != [] && ts[0] == Open && Simple(ts) == Good(e, rest)
    ensures SubExpr(ts, limit) == Loop(e, rest, limit)
  {
  }

  lemma {:induction false} ParsePrint(e: Tree, limit: nat, next: nat, rest: seq<Token>)
    requires Next(rest) == next
    ensures SubExpr(Print(e, limit, next) + rest, limit) == Loop(e, rest, limit)
    decreases e, 1
  {
    if NeedsParens(e, limit, next) {
      var xs := Plain(e, 0, 0);
      ParsePlain(e, 0, 0, [Close] + rest);
      NothingAfterClose(e, rest);
      InParens(e, xs, rest);
      SimpleFirst([Open] + xs + [Close] + rest, limit, e, rest);
    } else {
      ParsePlain(e, limit, next, rest);
    }
  }

  /** Every tree is what the parser makes of its printed form. */
  lemma RoundTrip(e: Tree)
    ensures SubExpr(Print(e, 0, 0), 0) == Good(e, [])
  {
    ParsePrint(e, 0, 0, []);
    assert Print(e, 0, 0) + [] == Print(e, 0, 0);
  }

  // ---------- printing what was parsed ----------

  ghost predicate NoParens(ts: seq<Token>) {
    Open !in ts
  }

  lemma {:induction false} PrintParsed(ts: seq<Token>, limit: nat)
    requires NoParens(ts) && SubExpr(ts, limit).Good?
    ensures var p := SubExpr(ts, limit);
      NoParens(p.rest) && Next(p.rest) <= limit && Print(p.v, limit, Next(p.rest)) + p.rest == ts
    decreases |ts|, 1
  {
    if ts != [] && GetUnOpr(ts[0]).Some? {
      PrintParsed(ts[1..], UNARY_PRIORITY);
      var p := SubExpr(ts[1..], UNARY_PRIORITY);
      var v := Un(GetUnOpr(ts[0]).value, p.v);
      assert Print(v, limit, Next(p.rest)) == [ts[0]] + Print(p.v, UNARY_PRIORITY, Next(p.rest));
      PrintLoop(Print(v, limit, Next(p.rest)), v, p.rest, limit);
    } else {
      var p := Simple(ts);
      PrintLoop([ts[0]], p.v, p.rest, limit);
    }
  }

  /** One more operator with its right operand. */
  lemma PrintStep(pre: seq<Token>, v: Tree, ts: seq<Token>, limit: nat, op: BinOp, w: Tree, rest: seq<Token>)
    requires ts != [] && ts[0] == Op(op) && Left(op) > limit && pre == Print(v, limit, Left(op))
    requires Next(rest) <= Right(op) && Print(w, Right(op), Next(rest)) + rest == ts[1..]
    ensures Print(Bin(op, v, w), limit, Next(rest)) + rest == pre + ts
  {
    var ws := Print(w, Right(op), Next(rest));
    assert Print(Bin(op, v, w), limit, Next(rest)) == pre + [Op(op)] + ws;
    assert ts == [Op(op)] + (ws + rest);
    assert pre + [Op(op)] + ws + rest == pre + ([Op(op)] + (ws + rest));
  }

  lemma {:induction false} PrintLoop(pre: seq<Token>, v: Tree, ts: seq<Token>, limit: nat)
    requires NoParens(ts) && Loop(v, ts, limit).Good? && pre == Print(v, limit, Next(ts))
    ensures var p := Loop(v, ts, limit);
      NoParens(p.rest) && Next(p.rest) <= limit && Print(p.v, limit, Next(p.rest)) + p.rest == pre + ts
    decreases |ts|, 0
  {
    if ts != [] && GetBinOpr(ts[0]).Some? && Left(GetBinOpr(ts[0]).value) > limit {
      var op := GetBinOpr(ts[0]).value;
      PrintParsed(ts[1..], Right(op));
      var p := SubExpr(ts[1..], Right(op));
      PrintStep(pre, v, ts, limit, op, p.v, p.rest);
      PrintLoop(Print(Bin(op, v, p.v), limit, Next(p.rest)), Bin(op, v, p.v), p.rest, limit);
    }
  }

  /** Tokens without parentheses are printed back just as they were: printing adds no parentheses that parsing
      does not need, and parsing groups them in the only way that needs none. */
  lemma OnlyGrouping(ts: seq<Token>)
    requires NoParens(ts) && SubExpr(ts, 0).Good? && SubExpr(ts, 0).rest == []
    ensures Print(SubExpr(ts, 0).v, 0, 0) == ts
  {
    PrintParsed(ts, 0);
    assert Print(SubExpr(ts, 0).v, 0, 0) + [] == Print(SubExpr(ts, 0).v, 0, 0);
  }

  // ---------- precedence and associativity ----------

  lemma PrintLeaf(n: int, limit: nat, next: nat)
    ensures Print(Leaf(n), limit, next) == [Atom(n)]
  {
  }

  lemma PrintPair(op: BinOp, a: int, b: int, limit: nat, next: nat)
    requires Left(op) > limit && next <= Right(op)
    ensures Print(Bin(op, Leaf(a), Leaf(b)), limit, next) == [Atom(a), Op(op), Atom(b)]
  {
    PrintLeaf(a, limit, Left(op));
    PrintLeaf(b, Right(op), next);
    assert Plain(Bin(op, Leaf(a), Leaf(b)), limit, next) == [Atom(a)] + [Op(op)] + [Atom(b)];
  }

  /** The precedence levels of the manual, from the lowest on. */
  function Level(op: BinOp): nat {
    match op
    case Or => 1
    case And => 2
    case Lt | Gt | Le | Ge | Ne | Eq => 3
    case Concat => 4
    case Add | Sub => 5
    case Mul | Div | Mod => 6
    case Pow => 7
  }

  /** Whether `a op1 b op2 c` means `a op1 (b op2 c)`: the second operator is on a higher level, or both are `..`,
      or both are `^`. */
  predicate SecondFirst(op1: BinOp, op2: BinOp) {
    Level(op2) > Level(op1) || (op1 == op2 == Concat) || (op1 == op2 == Pow)
  }

  /** The priority table against the levels; a unary operator is between `^` and the others. */
  lemma PrioritiesAreLevels(op1: BinOp, op2: BinOp)
    ensures Left(op2) > Right(op1) <==> SecondFirst(op1, op2)
    ensures Left(op1) > 0 && (Left(op1) > UNARY_PRIORITY <==> op1 == Pow)
  {
  }

  /** `a op1 b op2 c`, for every pair of operators. */
  lemma TwoOperators(a: int, op1: BinOp, b: int, op2: BinOp, c: int)
    ensures SubExpr([Atom(a), Op(op1), Atom(b), Op(op2), Atom(c)], 0)
      == Good(if SecondFirst(op1, op2) then Bin(op1, Leaf(a), Bin(op2, Leaf(b), Leaf(c)))
              else Bin(op2, Bin(op1, Leaf(a), Leaf(b)), Leaf(c)), [])
  {
    PrioritiesAreLevels(op1, op2);
    PrioritiesAreLevels(op2, op1);
    var e: Tree;
    if SecondFirst(op1, op2) {
      e := Bin(op1, Leaf(a), Bin(op2, Leaf(b), Leaf(c)));
      PrintLeaf(a, 0, Left(op1));
      PrintPair(op2, b, c, Right(op1), 0);
    } else {
      e := Bin(op2, Bin(op1, Leaf(a), Leaf(b)), Leaf(c));
      PrintPair(op1, a, b, 0, Left(op2));
      PrintLeaf(c, Right(op2), 0);
    }
    assert Print(e, 0, 0) == Plain(e, 0, 0) == [Atom(a), Op(op1), Atom(b), Op(op2), Atom(c)];
    RoundTrip(e);
  }

  /** `u a op b`: only `^` binds tighter than a unary operator. */
  lemma UnaryFirst(u: UnOp, a: int, op: BinOp, b: int)
    ensures SubExpr([Sign(u), Atom(a), Op(op), Atom(b)], 0)
      == Good(if op == Pow then Un(u, Bin(Pow, Leaf(a), Leaf(b))) else Bin(op, Un(u, Leaf(a)), Leaf(b)), [])
  {
    var e := if op == Pow then Un(u, Bin(Pow, Leaf(a), Leaf(b))) else Bin(op, Un(u, Leaf(a)), Leaf(b));
    if op == Pow {
      PrintPair(Pow, a, b, UNARY_PRIORITY, 0);
    } else {
      PrintLeaf(a, UNARY_PRIORITY, Left(op));
      assert Print(Un(u, Leaf(a)), 0, Left(op)) == [Sign(u)] + [Atom(a)];
      PrintLeaf(b, Right(op), 0);
    }
    assert Print(e, 0, 0) == Plain(e, 0, 0) == [Sign(u), Atom(a), Op(op), Atom(b)];
    RoundTrip(e);
  }
}

/** What can be told of the code of an expression without compiling it: whether it ends in a literal, which of its
    lists may hold jumps, and whether jumps to here may be waiting. */
module CodeShape {
  import opened Wrappers
  import opened BoolCode
  import opened PatchLists
  import opened BoolMeaning
  import opened CodeViews

  /** `true`, another true constant, `false`, or a value that is not known. */
  datatype Known = IsTrue | IsConst | IsFalsity | Unknown

  function KnownOf(k: Kind): Known {
    match k
    case VTrue => IsTrue
    case VFalse => IsFalsity
    case VKNum(_) => IsConst
    case VK(_, _) => IsConst
    case _ => Unknown
  }

  /** The first operand of `and` (`sense`) or `or` goes on in any case, without a jump. */
  predicate Stays(sense: bool, k: Known) {
    if sense then k == IsTrue || k == IsConst else k == IsFalsity
  }

  /** It never goes on: a jump that is always made. */
  predicate Leaps(sense: bool, k: Known) {
    if sense then k == IsFalsity else k == IsTrue
  }

  datatype Shape = Shape(known: Known, t: bool, f: bool, here: bool)

  function Flip(k: Known): Known {
    match k
    case IsTrue => IsFalsity
    case IsConst => IsFalsity
    case IsFalsity => IsTrue
    case Unknown => Unknown
  }

  /** The list of the first operand that is left, and whether jumps to here wait before the second one. */
  function ListLeft(sense: bool, s: Shape): bool {
    !Stays(sense, s.known) || if sense then s.f else s.t
  }

  function HereLeft(sense: bool, s: Shape): bool {
    (Stays(sense, s.known) && s.here) || if sense then s.t else s.f
  }

  /** Jumps to here may be waiting after the first operand of a comparison. */
  function HereCompared(s: Shape): bool {
    s.here || s.t || s.f
  }

  predicate Leaping(op: BinOp, k: Known) {
    (op == And || op == Or) && Leaps(op == And, k)
  }

  function HereSecond(op: BinOp, s: Shape): bool {
    if op == And || op == Or then HereLeft(op == And, s) else HereCompared(s)
  }

  function Joined(op: BinOp, s1: Shape, s2: Shape): Shape {
    match op
    case And => s2.(f := s2.f || ListLeft(true, s1))
    case Or => s2.(t := s2.t || ListLeft(false, s1))
    case _ => Shape(Unknown, false, false, false)
  }

  /** The shape of the code of `e`, when jumps to here may be waiting at its start (`here`).  None if a jump that is
      always made would be emitted while jumps to here may be waiting. */
  function ShapeOf(e: Expr, here: bool): Option<Shape> {
    match e
    case Local(_) => Some(Shape(Unknown, false, false, here))
    case Upval(_) => Some(Shape(Unknown, false, false, here))
    case Lit(v) => Some(Shape(if v == Bool(true) then IsTrue else if v == Bool(false) then IsFalsity else IsConst, false, false, here))
    case Not(x) =>
      var s := ShapeOf(x, here);
      if s.None? then None else Some(Shape(Flip(s.value.known), s.value.f, s.value.t, s.value.here))
    case Bin(op, l, r) =>
      var s1 := ShapeOf(l, here);
      if s1.None? || (Leaping(op, s1.value.known) && s1.value.here) then None
      else
        var s2 := ShapeOf(r, HereSecond(op, s1.value));
        if s2.None? then None else Some(Joined(op, s1.value, s2.value))
  }

  /** No jump that is always made is emitted while jumps to here may be waiting. */
  predicate Harmless(e: Expr, here: bool) {
    ShapeOf(e, here).Some?
  }

  predicate NoLiterals(e: Expr) {
    match e
    case Local(_) => true
    case Upval(_) => true
    case Lit(_) => false
    case Not(x) => NoLiterals(x)
    case Bin(_, l, r) => NoLiterals(l) && NoLiterals(r)
  }

  /** Without literals there are no such jumps. */
  lemma {:induction false} NoLiteralsHarmless(e: Expr, here: bool)
    requires NoLiterals(e)
    ensures Harmless(e, here) && ShapeOf(e, here).value.known == Unknown
  {
    match e
    case Local(_) =>
    case Upval(_) =>
    case Not(x) => NoLiteralsHarmless(x, here);
    case Bin(op, l, r) =>
      NoLiteralsHarmless(l, here);
      NoLiteralsHarmless(r, true);
      NoLiteralsHarmless(r, false);
  }

  /** The literal that the code of an expression ends in, as it is after `not`. */
  function LastLit(e: Expr): (l: Option<Val>)
    ensures l != Some(Nil)
  {
    match e
    case Lit(v) => Some(v)
    case Not(x) => if LastLit(x).None? then None else Some(Negation(LastLit(x).value))
    case Bin(And, _, r) => LastLit(r)
    case Bin(Or, _, r) => LastLit(r)
    case _ => None
  }

  /** No first operand of `and` ends in what is false, and none of `or` in `true`. */
  predicate NeverLeaps(e: Expr) {
    match e
    case Not(x) => NeverLeaps(x)
    case Bin(op, l, r) =>
      NeverLeaps(l) && NeverLeaps(r)
      && (op == And ==> LastLit(l) != Some(Bool(false))) && (op == Or ==> LastLit(l) != Some(Bool(true)))
    case _ => true
  }

  /** Literals anywhere else do no harm. */
  lemma {:induction false} NeverLeapsHarmless(e: Expr, here: bool)
    requires NeverLeaps(e)
    ensures Harmless(e, here) && ShapeOf(e, here).value.known == match LastLit(e) {
        case None => Unknown
        case Some(Bool(b)) => if b then IsTrue else IsFalsity
        case Some(_) => IsConst
      }
  {
    match e
    case Local(_) =>
    case Upval(_) =>
    case Lit(_) =>
    case Not(x) => NeverLeapsHarmless(x, here);
    case Bin(op, l, r) =>
      NeverLeapsHarmless(l, here);
      NeverLeapsHarmless(r, true);
      NeverLeapsHarmless(r, false);
  }

  /** Nor do false and true as the first operands of all: there are no jumps before them. */
  lemma FirstHarmless(e: Expr)
    requires NeverLeaps(e)
    ensures Harmless(Bin(And, Lit(Bool(false)), e), false) && Harmless(Bin(Or, Lit(Bool(true)), e), false)
  {
    NeverLeapsHarmless(e, false);
  }

  /** What luaK_infix leaves of that shape. */
  ghost predicate ShapedFirst(v: View, op: BinOp, d: ExpDesc, s: Shape) {
    && (v.jpc != NO_JUMP ==> HereSecond(op, s))
    && (op == And || op == Or ==> ((if op == And then d.f else d.t) != NO_JUMP ==> ListLeft(op == And, s)))
  }

  /** What luaK_goiftrue (`sense`) and luaK_goiffalse do to the list that is left, and to the jumps to here. */
  ghost predicate GoneOn(v0: View, v: View, d: ExpDesc, r: ExpDesc, sense: bool) {
    && ((if sense then r.f else r.t) != NO_JUMP ==> !Stays(sense, KnownOf(d.k)) || (if sense then d.f else d.t) != NO_JUMP)
    && (v.jpc != NO_JUMP ==> (Stays(sense, KnownOf(d.k)) && v0.jpc != NO_JUMP) || (if sense then d.t else d.f) != NO_JUMP)
  }

  /** What luaK_posfix on `and` (`sense`) and `or` makes of the second operand's description. */
  ghost predicate JoinedLogic(sense: bool, v0: View, v: View, d1: ExpDesc, d2: ExpDesc, r: ExpDesc) {
    && KnownOf(r.k) == KnownOf(d2.k) && (v.jpc == NO_JUMP || v.jpc == v0.jpc)
    && if sense then r.t == d2.t && (r.f != NO_JUMP ==> d2.f != NO_JUMP || d1.f != NO_JUMP)
       else r.f == d2.f && (r.t != NO_JUMP ==> d2.t != NO_JUMP || d1.t != NO_JUMP)
  }

  lemma JoinedShape(op: BinOp, v1: View, v2: View, v: View, d1: ExpDesc, d2: ExpDesc, r: ExpDesc, s1: Shape, s2: Shape)
    requires ShapedFirst(v1, op, d1, s1) && Shaped(v2, d2, s2)
    requires if op == And || op == Or then JoinedLogic(op == And, v2, v, d1, d2, r)
             else r.k.VJmp? && r.t == r.f == NO_JUMP == v.jpc
    ensures Shaped(v, r, Joined(op, s1, s2))
  {
  }

  /** luaK_dischargevars leaves no variables, and discharge2anyreg is not for comparisons. */
  predicate Discharged(k: Kind) {
    !k.VLocal? && !k.VUpval? && !k.VJmp?
  }

  /** The code generator is in a state of that shape. */
  ghost predicate Shaped(v: View, d: ExpDesc, s: Shape) {
    KnownOf(d.k) == s.known && (d.t != NO_JUMP ==> s.t) && (d.f != NO_JUMP ==> s.f) && (v.jpc != NO_JUMP ==> s.here)
  }
}

/** What closures see of variables, and what each operation on upvalues does to it. */
module UpvalueCells {
  import opened Numbers
  import opened Lists
  import opened Upvalues

  // ---------- assignments ----------

  /** An assignment to a slot is seen through an open upvalue, and by nobody else. */
  lemma SetLocalAgrees(h: Heap, c: Cells, th: nat, i: nat, v: int)
    requires Inv(h) && Agrees(h, c) && th in h.stack && i < |h.stack[th]|
    ensures (th, i) in c.bound
    ensures var h' := h.(stack := h.stack[th := h.stack[th][i := v]]); Inv(h') && Agrees(h', SetLocal(c, th, i, v))
  {
    var h', c' := h.(stack := h.stack[th := h.stack[th][i := v]]), SetLocal(c, th, i, v);
    forall u | u in c.cell
      ensures c'.val[c.cell[u]] == Current(h', u)
    {
      if h.uv[u].v.Slot? {
        assert (h.uv[u].v.th, h.uv[u].v.i) in c.bound;
      } else {
        assert h.uv[u].v == Own;
      }
    }
  }

  /** What an assignment through an upvalue does to the heap. */
  function Through(h: Heap, u: nat, v: int): Heap
    requires u in h.uv
  {
    match h.uv[u].v
    case Own => h.(uv := h.uv[u := h.uv[u].(value := v)])
    case Slot(th, i) => if th in h.stack && i < |h.stack[th]| then h.(stack := h.stack[th := h.stack[th][i := v]]) else h
  }

  /** An assignment through an upvalue, open or closed, is an assignment to its variable. */
  lemma SetCellAgrees(h: Heap, c: Cells, u: nat, v: int)
    requires Inv(h) && Agrees(h, c) && u in c.cell
    ensures u in h.uv && Inv(Through(h, u, v)) && Agrees(Through(h, u, v), SetCell(c, u, v))
  {
    match h.uv[u].v
    case Own =>
      SetClosedInv(h, u, v);
      SetClosedAgrees(h, c, u, v);
    case Slot(th, i) =>
      assert (th, i) in c.bound;
      SetLocalAgrees(h, c, th, i, v);
  }

  lemma SetClosedInv(h: Heap, u: nat, v: int)
    requires Inv(h) && u in h.uv && u != HEAD && h.uv[u].v == Own
    ensures Inv(Through(h, u, v))
  {
    var h' := Through(h, u, v);
    RingKept(h.uv, h'.uv, h.ring);
    forall t | t in h.stack
      ensures Chain(h'.uv, h'.open[t], h'.head[t], t, |h'.stack[t]|)
    {
      ChainKept(h.uv, h'.uv, h.open[t], h.head[t], t, |h.stack[t]|);
    }
  }

  lemma SetClosedAgrees(h: Heap, c: Cells, u: nat, v: int)
    requires Agrees(h, c) && u in c.cell && u in h.uv && h.uv[u].v == Own
    ensures Agrees(Through(h, u, v), SetCell(c, u, v))
  {
    var h' := Through(h, u, v);
    forall x | x in c.cell
      ensures SetCell(c, u, v).val[c.cell[x]] == Current(h', x)
    {
    }
  }

  // ---------- the end of a block ----------

  ghost predicate Leaving(v: Where, th: nat, level: nat) {
    v.Slot? && v.th == th && v.i >= level
  }

  /** In the middle of luaF_close: the slots from `level` on already stand for new variables, while upvalues that are
      still open there stand for the old ones. */
  ghost predicate Closing(h: Heap, c: Cells, th: nat, level: nat) {
    && SlotsAgree(h.stack, c)
    && (forall u :: u in c.cell <==> u in h.uv && u != HEAD)
    && (forall u :: u in c.cell ==> c.cell[u] in c.val && c.val[c.cell[u]] == Current(h, u))
    && (forall u :: u in c.cell && h.uv[u].v.Slot? && !Leaving(h.uv[u].v, th, level) ==>
          (h.uv[u].v.th, h.uv[u].v.i) in c.bound && c.cell[u] == c.bound[(h.uv[u].v.th, h.uv[u].v.i)])
    && (forall u: nat, p: (nat, nat) :: u in c.cell && (h.uv[u].v == Own || Leaving(h.uv[u].v, th, level)) && p in c.bound ==> c.cell[u] != c.bound[p])
    && (forall u, w :: u in c.cell && w in c.cell && c.cell[u] == c.cell[w] ==> u == w)
  }

  ghost predicate Fresh(val: map<nat, int>, n: nat) {
    forall k :: k in val ==> k < n
  }

  function OldValue(c: Cells, p: (nat, nat)): int {
    if p in c.bound && c.bound[p] in c.val then c.val[c.bound[p]] else NIL
  }

  function SlotsOf(th: nat, lo: nat, hi: nat): set<(nat, nat)> {
    set i: nat | lo <= i < hi :: (th, i)
  }

  lemma SlotsOfHas(th: nat, lo: nat, hi: nat, p: (nat, nat))
    ensures p in SlotsOf(th, lo, hi) <==> p.0 == th && lo <= p.1 < hi
  {
    assert p.0 == th ==> p == (th, p.1);
  }

  /** The value of the slot whose new cell is `k`. */
  function SlotValue(c: Cells, th: nat, n: nat, k: nat): int {
    if k >= n then OldValue(c, (th, k - n)) else NIL
  }

  /** Slots `lo` to `hi` of a thread stand for new variables from now on, with the values that are in the slots, or
      with nil in a new thread.  Their cells are numbered from `n + lo` on. */
  function Bind(c: Cells, th: nat, lo: nat, hi: nat, n: nat): Cells {
    c.(val := c.val + map k: nat | n + lo <= k < n + hi :: SlotValue(c, th, n, k),
       bound := c.bound + map p | p in SlotsOf(th, lo, hi) :: n + p.1)
  }

  /** `c'` is `c` but for slots `lo` to `hi` of a thread, which have cells of their own from `n + lo` on. */
  ghost predicate Rebound(c: Cells, c': Cells, th: nat, lo: nat, hi: nat, n: nat) {
    && c'.cell == c.cell
    && (forall k :: k in c.val ==> k in c'.val && c'.val[k] == c.val[k])
    && (forall p: (nat, nat) :: p in c'.bound <==> p in c.bound || (p.0 == th && lo <= p.1 < hi))
    && (forall p: (nat, nat) :: p in c'.bound ==> if p.0 == th && lo <= p.1 < hi then c'.bound[p] == n + p.1 else c'.bound[p] == c.bound[p])
    && (forall p: (nat, nat) :: p in c'.bound && p.0 == th && lo <= p.1 < hi ==>
          n + p.1 in c'.val && c'.val[n + p.1] == OldValue(c, p))
  }

  lemma BindValue(c: Cells, th: nat, lo: nat, hi: nat, n: nat, i: nat)
    requires lo <= i < hi
    ensures n + i in Bind(c, th, lo, hi, n).val && Bind(c, th, lo, hi, n).val[n + i] == OldValue(c, (th, i))
  {
    assert SlotValue(c, th, n, n + i) == OldValue(c, (th, i));
  }

  lemma BindBound(c: Cells, th: nat, lo: nat, hi: nat, n: nat, p: (nat, nat))
    ensures var c' := Bind(c, th, lo, hi, n); p in c'.bound <==> p in c.bound || (p.0 == th && lo <= p.1 < hi)
    ensures var c' := Bind(c, th, lo, hi, n);
      p in c'.bound ==> if p.0 == th && lo <= p.1 < hi then c'.bound[p] == n + p.1 else c'.bound[p] == c.bound[p]
  {
    SlotsOfHas(th, lo, hi, p);
  }

  lemma BindBounds(c: Cells, th: nat, lo: nat, hi: nat, n: nat)
    ensures forall p: (nat, nat) :: p in Bind(c, th, lo, hi, n).bound <==> p in c.bound || (p.0 == th && lo <= p.1 < hi)
    ensures forall p: (nat, nat) :: p in Bind(c, th, lo, hi, n).bound ==>
      if p.0 == th && lo <= p.1 < hi then Bind(c, th, lo, hi, n).bound[p] == n + p.1 else Bind(c, th, lo, hi, n).bound[p] == c.bound[p]
  {
    forall p: (nat, nat)
      ensures p in Bind(c, th, lo, hi, n).bound <==> p in c.bound || (p.0 == th && lo <= p.1 < hi)
      ensures p in Bind(c, th, lo, hi, n).bound ==>
        if p.0 == th && lo <= p.1 < hi then Bind(c, th, lo, hi, n).bound[p] == n + p.1 else Bind(c, th, lo, hi, n).bound[p] == c.bound[p]
    {
      BindBound(c, th, lo, hi, n, p);
    }
  }

  lemma BindIs(c: Cells, th: nat, lo: nat, hi: nat, n: nat)
    requires Fresh(c.val, n)
    ensures Rebound(c, Bind(c, th, lo, hi, n), th, lo, hi, n)
  {
    var c' := Bind(c, th, lo, hi, n);
    BindBounds(c, th, lo, hi, n);
    forall p: (nat, nat) | p in c'.bound && p.0 == th && lo <= p.1 < hi
      ensures n + p.1 in c'.val && c'.val[n + p.1] == OldValue(c, p)
    {
      assert p == (th, p.1);
      BindValue(c, th, lo, hi, n, p.1);
    }
  }

  /** New variables for slots of a thread, be it new or not. */
  lemma BindSlots(stack: map<nat, seq<int>>, stack': map<nat, seq<int>>, c: Cells, c': Cells, th: nat, lo: nat, n: nat)
    requires SlotsAgree(stack, c) && Fresh(c.val, n) && th in stack' && lo <= |stack'[th]| && Rebound(c, c', th, lo, |stack'[th]|, n)
    requires stack' == stack || (th !in stack && stack' == stack[th := stack'[th]])
    requires th !in stack ==> lo == 0 && forall i :: 0 <= i < |stack'[th]| ==> stack'[th][i] == NIL
    ensures SlotsAgree(stack', c')
  {
    forall t: nat, i: nat | t in stack' && i < |stack'[t]|
      ensures (t, i) in c'.bound
    {
      assert t != th ==> (t, i) in c.bound;
    }
    BindValues(stack, stack', c, c', th, lo, n);
    BindDistinct(c, c', th, lo, |stack'[th]|, n);
  }

  lemma BindValues(stack: map<nat, seq<int>>, stack': map<nat, seq<int>>, c: Cells, c': Cells, th: nat, lo: nat, n: nat)
    requires SlotsAgree(stack, c) && th in stack' && lo <= |stack'[th]| && Rebound(c, c', th, lo, |stack'[th]|, n)
    requires stack' == stack || (th !in stack && stack' == stack[th := stack'[th]])
    requires th !in stack ==> lo == 0 && forall i :: 0 <= i < |stack'[th]| ==> stack'[th][i] == NIL
    ensures forall t: nat, i: nat :: (t, i) in c'.bound ==> t in stack' && i < |stack'[t]|
    ensures forall t: nat, i: nat :: (t, i) in c'.bound ==> c'.bound[(t, i)] in c'.val && c'.val[c'.bound[(t, i)]] == stack'[t][i]
  {
    forall t: nat, i: nat | (t, i) in c'.bound
      ensures t in stack' && i < |stack'[t]| && c'.bound[(t, i)] in c'.val && c'.val[c'.bound[(t, i)]] == stack'[t][i]
    {
      if !(t == th && lo <= i < |stack'[th]|) || th in stack {
        assert (t, i) in c.bound;
      }
    }
  }

  lemma BindDistinct(c: Cells, c': Cells, th: nat, lo: nat, hi: nat, n: nat)
    requires Fresh(c.val, n) && Rebound(c, c', th, lo, hi, n) && forall p: (nat, nat) :: p in c.bound ==> c.bound[p] in c.val
    requires forall p: (nat, nat), q: (nat, nat) :: p in c.bound && q in c.bound && c.bound[p] == c.bound[q] ==> p == q
    ensures forall p: (nat, nat), q: (nat, nat) :: p in c'.bound && q in c'.bound && c'.bound[p] == c'.bound[q] ==> p == q
  {
    forall p: (nat, nat), q: (nat, nat) | p in c'.bound && q in c'.bound && c'.bound[p] == c'.bound[q]
      ensures p == q
    {
      assert p !in c.bound ==> p.0 == th && lo <= p.1 < hi;
      assert q !in c.bound ==> q.0 == th && lo <= q.1 < hi;
    }
  }

  lemma StartClosing(h: Heap, c: Cells, c': Cells, th: nat, level: nat, n: nat)
    requires Agrees(h, c) && Fresh(c.val, n) && th in h.stack && level <= |h.stack[th]|
    requires Rebound(c, c', th, level, |h.stack[th]|, n)
    ensures Closing(h, c', th, level)
  {
    BindSlots(h.stack, h.stack, c, c', th, level, n);
    StartClosingUpvals(h, c, c', th, level, n);
  }

  lemma StartClosingUpvals(h: Heap, c: Cells, c': Cells, th: nat, level: nat, n: nat)
    requires Agrees(h, c) && Fresh(c.val, n) && th in h.stack && level <= |h.stack[th]| && SlotsAgree(h.stack, c')
    requires Rebound(c, c', th, level, |h.stack[th]|, n)
    ensures Closing(h, c', th, level)
  {
    forall u, p: (nat, nat) | u in c.cell && (h.uv[u].v == Own || Leaving(h.uv[u].v, th, level)) && p in c'.bound
      ensures c.cell[u] != c'.bound[p]
    {
      assert c.cell[u] in c.val;
      if !(p.0 == th && level <= p.1 < |h.stack[th]|) {
        assert p in c.bound && c'.bound[p] == c.bound[p];
      }
    }
  }

  lemma EndClosing(h: Heap, c: Cells, th: nat, level: nat)
    requires Closing(h, c, th, level) && forall u :: u in h.uv && u != HEAD ==> !Leaving(h.uv[u].v, th, level)
    ensures Agrees(h, c)
  {
  }

  /** Element `u` is closed, or gone. */
  ghost predicate Shut(h: Heap, h': Heap, u: nat, keep: bool) {
    && h'.stack == h.stack && u in h.uv && u != HEAD && h'.uv.Keys == (if keep then h.uv.Keys else h.uv.Keys - {u})
    && (keep ==> h'.uv[u].v == Own)
    && (forall x :: x in h'.uv && x != u ==> h'.uv[x].v == h.uv[x].v)
    && (forall x :: x in h'.uv ==> Current(h', x) == Current(h, x))
  }

  lemma RemovedShut(h: Heap, h': Heap, th: nat, k: int, keep: bool)
    requires Inv(h) && Removed(h, h', th, k, keep)
    ensures Shut(h, h', h.open[th][k], keep)
  {
    ListInHeap(h, th);
    forall x | x in h'.uv
      ensures Current(h', x) == Current(h, x)
    {
    }
  }

  /** One upvalue is closed, or freed if nobody can use it. */
  lemma CloseOne(h: Heap, h': Heap, c: Cells, th: nat, level: nat, u: nat, keep: bool)
    requires Closing(h, c, th, level) && Shut(h, h', u, keep) && Leaving(h.uv[u].v, th, level)
    ensures Closing(h', if keep then c else c.(cell := c.cell - {u}), th, level)
  {
    if keep {
      CloseKept(h, h', c, th, level, u);
    } else {
      CloseFreed(h, h', c, th, level, u);
    }
  }

  lemma CloseKept(h: Heap, h': Heap, c: Cells, th: nat, level: nat, u: nat)
    requires Closing(h, c, th, level) && Shut(h, h', u, true) && Leaving(h.uv[u].v, th, level)
    ensures Closing(h', c, th, level)
  {
  }

  lemma CloseFreed(h: Heap, h': Heap, c: Cells, th: nat, level: nat, u: nat)
    requires Closing(h, c, th, level) && Shut(h, h', u, false)
    ensures Closing(h', c.(cell := c.cell - {u}), th, level)
  {
  }

  /** The collector frees an upvalue. */
  lemma FreeOne(h: Heap, h': Heap, c: Cells, u: nat)
    requires Agrees(h, c) && Shut(h, h', u, false)
    ensures Agrees(h', c.(cell := c.cell - {u}))
  {
  }

  lemma FreeClosedInv(h: Heap, u: nat)
    requires Inv(h) && u in h.uv && u != HEAD && h.uv[u].v == Own
    ensures Inv(h.(uv := h.uv - {u}))
  {
    var h' := h.(uv := h.uv - {u});
    RingWithout(h.uv, h.ring, u);
    forall t | t in h.stack
      ensures Chain(h'.uv, h'.open[t], h'.head[t], t, |h'.stack[t]|)
    {
      ChainKept(h.uv, h'.uv, h.open[t], h.head[t], t, |h.stack[t]|);
    }
  }

  lemma RingWithout(uv: map<nat, UpVal>, ring: seq<nat>, u: nat)
    requires Ring(uv, ring) && u !in ring
    ensures Ring(uv - {u}, ring)
  {
    forall i | 0 <= i < |ring|
      ensures Linked(uv - {u}, ring, i)
    {
      assert Linked(uv, ring, i);
    }
  }

  // ---------- programs ----------

  /** An upvalue of a new closure: one of the closure that makes it, or a slot. */
  datatype Capture = FromParent(b: nat) | FromSlot(i: nat)

  /** What a program does with variables and closures, and what the collector does with upvalues.  `Forget` says that
      nobody uses a closure any more, `Condemn` that the collector has found upvalues dead. */
  datatype Event =
    | NewThread(th: nat, size: nat)
    | Assign(th: nat, i: nat, v: int)
    | GetUpval(th: nat, i: nat, k: nat, b: nat)
    | SetUpval(th: nat, i: nat, k: nat, b: nat)
    | MakeClosure(k: nat, parent: nat, th: nat, base: nat, captures: seq<Capture>)
    | Close(th: nat, level: nat)
    | Forget(k: nat)
    | Condemn(us: set<nat>)
    | SweepOpen(th: nat)
    | SweepClosed(u: nat)

  /** The reference: variables are cells, slots in use and closures refer to cells, and there are no upvalues. */
  datatype Env = Env(val: map<nat, int>, size: map<nat, nat>, bound: map<(nat, nat), nat>, clos: map<nat, seq<nat>>)

  ghost predicate EnvOk(e: Env) {
    && (forall p: (nat, nat) :: p in e.bound ==> e.bound[p] in e.val)
    && (forall th: nat, i: nat :: (th, i) in e.bound <==> th in e.size && i < e.size[th])
    && (forall k, j :: k in e.clos && 0 <= j < |e.clos[k]| ==> e.clos[k][j] in e.val)
  }

  predicate HasUpval(e: Env, k: nat, b: nat) {
    k in e.clos && b < |e.clos[k]|
  }

  predicate CanCapture(e: Env, parent: nat, th: nat, base: nat, a: Capture) {
    match a
    case FromParent(b) => HasUpval(e, parent, b)
    case FromSlot(i) => (th, base + i) in e.bound
  }

  function Captured(e: Env, parent: nat, th: nat, base: nat, a: Capture): nat
    requires CanCapture(e, parent, th, base, a)
  {
    match a
    case FromParent(b) => e.clos[parent][b]
    case FromSlot(i) => e.bound[(th, base + i)]
  }

  function CaptureAll(e: Env, parent: nat, th: nat, base: nat, captures: seq<Capture>): (cells: seq<nat>)
    requires EnvOk(e) && forall a :: a in captures ==> CanCapture(e, parent, th, base, a)
    ensures |cells| == |captures| && forall j :: 0 <= j < |cells| ==> cells[j] == Captured(e, parent, th, base, captures[j]) && cells[j] in e.val
  {
    assert forall j :: 0 <= j < |captures| ==> captures[j] in captures && CanCapture(e, parent, th, base, captures[j]);
    seq(|captures|, j requires 0 <= j < |captures| => Captured(e, parent, th, base, captures[j]))
  }

  ghost function Rebind(e: Env, th: nat, lo: nat, hi: nat): Env
    requires EnvOk(e)
  {
    var c' := Bind(Cells(e.val, e.bound, map[]), th, lo, hi, Above(e.val.Keys));
    Env(c'.val, e.size[th := hi], c'.bound, e.clos)
  }

  lemma RebindOk(e: Env, th: nat, lo: nat, hi: nat)
    requires EnvOk(e) && lo <= hi && if th in e.size then hi == e.size[th] else lo == 0
    ensures var e' := Rebind(e, th, lo, hi);
      EnvOk(e') && Rebound(Cells(e.val, e.bound, map[]), Cells(e'.val, e'.bound, map[]), th, lo, hi, Above(e.val.Keys))
  {
    var n := Above(e.val.Keys);
    BindIs(Cells(e.val, e.bound, map[]), th, lo, hi, n);
    ReboundOk(e, Rebind(e, th, lo, hi), th, lo, hi, n);
  }

  lemma ReboundOk(e: Env, e': Env, th: nat, lo: nat, hi: nat, n: nat)
    requires EnvOk(e) && lo <= hi && if th in e.size then hi == e.size[th] else lo == 0
    requires Rebound(Cells(e.val, e.bound, map[]), Cells(e'.val, e'.bound, map[]), th, lo, hi, n)
    requires e'.size == e.size[th := hi] && e'.clos == e.clos
    ensures EnvOk(e')
  {
    forall p | p in e'.bound
      ensures e'.bound[p] in e'.val
    {
      assert p in e.bound || (p.0 == th && lo <= p.1 < hi);
    }
  }

  /** An event that is not possible does nothing. */
  ghost function Next(e: Env, ev: Event): (e': Env)
    requires EnvOk(e)
    ensures EnvOk(e')
  {
    match ev
    case NewThread(th, size) => if th !in e.size then RebindOk(e, th, 0, size); Rebind(e, th, 0, size) else e
    case Assign(th, i, v) => if (th, i) in e.bound then e.(val := e.val[e.bound[(th, i)] := v]) else e
    case GetUpval(th, i, k, b) =>
      if (th, i) in e.bound && HasUpval(e, k, b) then e.(val := e.val[e.bound[(th, i)] := e.val[e.clos[k][b]]]) else e
    case SetUpval(th, i, k, b) =>
      if (th, i) in e.bound && HasUpval(e, k, b) then e.(val := e.val[e.clos[k][b] := e.val[e.bound[(th, i)]]]) else e
    case MakeClosure(k, parent, th, base, captures) =>
      if forall a :: a in captures ==> CanCapture(e, parent, th, base, a) then
        e.(clos := e.clos[k := CaptureAll(e, parent, th, base, captures)])
      else e
    case Close(th, level) =>
      if th in e.size && level <= e.size[th] then RebindOk(e, th, level, e.size[th]); Rebind(e, th, level, e.size[th]) else e
    case Forget(k) => e.(clos := e.clos - {k})
    case _ => e
  }

  ghost function After(e: Env, events: seq<Event>): (e': Env)
    requires EnvOk(e)
    ensures EnvOk(e')
  {
    if events == [] then e else Next(After(e, events[..|events| - 1]), events[|events| - 1])
  }
}

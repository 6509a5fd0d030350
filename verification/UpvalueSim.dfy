/** The machine with upvalues and the reference with shared cells do the same, whatever the program does. */
module UpvalueSim {
  import opened Numbers
  import opened Lists
  import opened Upvalues
  import opened UpvalueCells
  import opened UpvalueSteps

  // ---------- the steps of the machine ----------

  function ParentOf(closures: map<nat, seq<nat>>, parent: nat): seq<nat> {
    if parent in closures then closures[parent] else []
  }

  predicate HasSlot(stack: map<nat, seq<int>>, th: nat, i: nat) {
    th in stack && i < |stack[th]|
  }

  predicate HasUp(closures: map<nat, seq<nat>>, k: nat, b: nat) {
    k in closures && b < |closures[k]|
  }

  function AddThread(h: Heap, th: nat, size: nat): Heap {
    Heap(h.stack[th := seq(size, i => NIL)], h.head[th := NULL], h.uv, h.ring, h.open[th := []])
  }

  function PutSlot(h: Heap, th: nat, i: nat, v: int): Heap
    requires HasSlot(h.stack, th, i)
  {
    h.(stack := h.stack[th := h.stack[th][i := v]])
  }

  /** No closure has it. */
  predicate Unused(closures: map<nat, seq<nat>>, u: nat) {
    forall k :: k in closures ==> u !in closures[k]
  }

  predicate CanMake(stack: map<nat, seq<int>>, closures: map<nat, seq<nat>>, parent: nat, th: nat, base: nat, captures: seq<Capture>) {
    forall a :: a in captures ==> CanTake(stack, ParentOf(closures, parent), th, base, a)
  }

  ghost function Make(m: Machine, k: nat, parent: nat, th: nat, base: nat, captures: seq<Capture>): Machine
    requires Fit(m) && CanMake(m.h.stack, m.closures, parent, th, base, captures)
  {
    var (m', ups) := Take(m, ParentOf(m.closures, parent), th, base, captures, |captures|);
    m'.(closures := m'.closures[k := ups])
  }

  /** An event that is not possible does nothing. */
  ghost function Step(m: Machine, ev: Event): (m': Machine)
    requires Fit(m)
    ensures Fit(m')
  {
    match ev
    case NewThread(th, size) => if th !in m.h.stack then AddThreadFit(m, th, size); m.(h := AddThread(m.h, th, size)) else m
    case Assign(th, i, v) => if HasSlot(m.h.stack, th, i) then m.(h := PutSlot(m.h, th, i, v)) else m
    case GetUpval(th, i, k, b) =>
      if HasSlot(m.h.stack, th, i) && HasUp(m.closures, k, b) then
        assert UpvalsFit(m.h.uv, m.closures[k], m.dead);
        m.(h := PutSlot(m.h, th, i, Current(m.h, m.closures[k][b])))
      else m
    case SetUpval(th, i, k, b) =>
      if HasSlot(m.h.stack, th, i) && HasUp(m.closures, k, b) then
        assert UpvalsFit(m.h.uv, m.closures[k], m.dead);
        ThroughFit(m, m.closures[k][b], m.h.stack[th][i]);
        m.(h := Through(m.h, m.closures[k][b], m.h.stack[th][i]))
      else m
    case MakeClosure(k, parent, th, base, captures) =>
      if CanMake(m.h.stack, m.closures, parent, th, base, captures) then MakeFit(m, k, parent, th, base, captures); Make(m, k, parent, th, base, captures) else m
    case Close(th, level) => if th in m.h.stack && level <= |m.h.stack[th]| then CloseFrom(m, th, level) else m
    case Forget(k) => m.(closures := m.closures - {k})
    case Condemn(us) =>
      CondemnFit(m, us);
      m.(dead := m.dead + set u | u in us && IsUpval(m.h.uv, u) && Unused(m.closures, u))
    case SweepOpen(th) => if th in m.h.stack then SweepFrom(m, th, 0) else m
    case SweepClosed(u) =>
      if u in m.dead && u in m.h.uv && m.h.uv[u].v == Own then
        SweepClosedFit(m, u);
        m.(h := m.h.(uv := m.h.uv - {u}), dead := m.dead - {u})
      else m
  }

  lemma AddThreadFit(m: Machine, th: nat, size: nat)
    requires Fit(m) && th !in m.h.stack
    ensures Fit(m.(h := AddThread(m.h, th, size)))
  {
  }

  lemma ThroughFit(m: Machine, u: nat, v: int)
    requires Fit(m) && IsUpval(m.h.uv, u)
    ensures Fit(m.(h := Through(m.h, u, v)))
  {
    if m.h.uv[u].v == Own {
      SetClosedInv(m.h, u, v);
    }
    forall k | k in m.closures
      ensures UpvalsFit(Through(m.h, u, v).uv, m.closures[k], m.dead)
    {
      StillFit(m.h.uv, Through(m.h, u, v).uv, m.closures[k], m.dead, m.dead);
    }
  }

  lemma MakeFit(m: Machine, k: nat, parent: nat, th: nat, base: nat, captures: seq<Capture>)
    requires Fit(m) && CanMake(m.h.stack, m.closures, parent, th, base, captures)
    ensures Fit(Make(m, k, parent, th, base, captures))
  {
    var (m', ups) := Take(m, ParentOf(m.closures, parent), th, base, captures, |captures|);
    assert forall c :: c in m'.closures ==> UpvalsFit(m'.h.uv, m'.closures[c], m'.dead);
  }

  lemma CondemnFit(m: Machine, us: set<nat>)
    requires Fit(m)
    ensures Fit(m.(dead := m.dead + set u | u in us && IsUpval(m.h.uv, u) && Unused(m.closures, u)))
  {
    var dead' := m.dead + set u | u in us && IsUpval(m.h.uv, u) && Unused(m.closures, u);
    forall k | k in m.closures
      ensures UpvalsFit(m.h.uv, m.closures[k], dead')
    {
      assert UpvalsFit(m.h.uv, m.closures[k], m.dead);
    }
  }

  lemma SweepClosedFit(m: Machine, u: nat)
    requires Fit(m) && u in m.dead && u in m.h.uv && m.h.uv[u].v == Own
    ensures Fit(m.(h := m.h.(uv := m.h.uv - {u}), dead := m.dead - {u}))
  {
    FreeClosedInv(m.h, u);
    forall k | k in m.closures
      ensures UpvalsFit(m.h.uv - {u}, m.closures[k], m.dead - {u})
    {
      assert UpvalsFit(m.h.uv, m.closures[k], m.dead);
    }
  }

  // ---------- agreement ----------

  /** Every upvalue of a closure stands for the cell that the reference has there. */
  ghost predicate ClosuresAgree(closures: map<nat, seq<nat>>, cell: map<nat, nat>, clos: map<nat, seq<nat>>) {
    closures.Keys == clos.Keys && forall k :: k in closures ==> UpvalsMatch(closures[k], cell, clos[k])
  }

  ghost predicate UpvalsMatch(upvals: seq<nat>, cell: map<nat, nat>, cells: seq<nat>) {
    |upvals| == |cells| && forall j :: 0 <= j < |upvals| ==> upvals[j] in cell && cell[upvals[j]] == cells[j]
  }

  ghost predicate SizesAgree(stack: map<nat, seq<int>>, size: map<nat, nat>) {
    stack.Keys == size.Keys && forall th :: th in stack ==> |stack[th]| == size[th]
  }

  ghost predicate Matches(h: Heap, closures: map<nat, seq<nat>>, e: Env, cell: map<nat, nat>) {
    && EnvOk(e) && Agrees(h, Cells(e.val, e.bound, cell)) && SizesAgree(h.stack, e.size) && ClosuresAgree(closures, cell, e.clos)
  }

  /** The machine agrees with the reference: there is a cell for every upvalue. */
  ghost predicate Simulates(m: Machine, e: Env) {
    Fit(m) && exists cell :: Matches(m.h, m.closures, e, cell)
  }

  lemma MoreCells(closures: map<nat, seq<nat>>, cell: map<nat, nat>, cell': map<nat, nat>, clos: map<nat, seq<nat>>)
    requires ClosuresAgree(closures, cell, clos) && forall u :: u in cell ==> u in cell' && cell'[u] == cell[u]
    ensures ClosuresAgree(closures, cell', clos)
  {
    forall k | k in closures
      ensures UpvalsMatch(closures[k], cell', clos[k])
    {
      assert UpvalsMatch(closures[k], cell, clos[k]);
    }
  }

  lemma FewerCells(m: Machine, cell: map<nat, nat>, clos: map<nat, seq<nat>>, u: nat)
    requires ClosuresAgree(m.closures, cell, clos) && ClosuresFit(m.h.uv, m.closures, m.dead) && u in m.dead
    ensures ClosuresAgree(m.closures, cell - {u}, clos)
  {
    forall k | k in m.closures
      ensures UpvalsMatch(m.closures[k], cell - {u}, clos[k])
    {
      assert UpvalsMatch(m.closures[k], cell, clos[k]) && UpvalsFit(m.h.uv, m.closures[k], m.dead);
    }
  }

  // ---------- a new thread ----------

  lemma ThreadUpvals(h: Heap, c: Cells, c': Cells, th: nat, size: nat, n: nat)
    requires SlotsAgree(h.stack, c) && UpvalsAgree(h, c) && th !in h.stack && Fresh(c.val, n) && Rebound(c, c', th, 0, size, n)
    ensures UpvalsAgree(AddThread(h, th, size), c')
  {
    var h' := AddThread(h, th, size);
    forall u | u in c.cell
      ensures Current(h', u) == Current(h, u)
    {
    }
  }

  lemma ThreadApart(uv: map<nat, UpVal>, c: Cells, c': Cells, th: nat, size: nat, n: nat)
    requires Apart(uv, c) && Fresh(c.val, n) && Rebound(c, c', th, 0, size, n) && forall u :: u in c.cell ==> c.cell[u] in c.val
    ensures Apart(uv, c')
  {
  }

  lemma ThreadAgrees(h: Heap, c: Cells, c': Cells, th: nat, size: nat, n: nat)
    requires Agrees(h, c) && th !in h.stack && Fresh(c.val, n) && Rebound(c, c', th, 0, size, n)
    ensures Agrees(AddThread(h, th, size), c')
  {
    BindSlots(h.stack, AddThread(h, th, size).stack, c, c', th, 0, n);
    ThreadUpvals(h, c, c', th, size, n);
    ThreadApart(h.uv, c, c', th, size, n);
  }

  /** The new cells do not depend on what the upvalues stand for. */
  lemma RebindCells(e: Env, cell: map<nat, nat>, th: nat, lo: nat, hi: nat)
    requires EnvOk(e) && lo <= hi && if th in e.size then hi == e.size[th] else lo == 0
    ensures var e' := Rebind(e, th, lo, hi);
      && EnvOk(e') && Rebound(Cells(e.val, e.bound, cell), Cells(e'.val, e'.bound, cell), th, lo, hi, Above(e.val.Keys))
      && Fresh(e.val, Above(e.val.Keys))
  {
    var e' := Rebind(e, th, lo, hi);
    RebindOk(e, th, lo, hi);
    OtherCells(Cells(e.val, e.bound, map[]), Cells(e'.val, e'.bound, map[]), cell, th, lo, hi, Above(e.val.Keys));
  }

  lemma OtherCells(c: Cells, c': Cells, cell: map<nat, nat>, th: nat, lo: nat, hi: nat, n: nat)
    requires Rebound(c, c', th, lo, hi, n)
    ensures Rebound(c.(cell := cell), c'.(cell := cell), th, lo, hi, n)
  {
  }

  lemma ThreadSim(h: Heap, closures: map<nat, seq<nat>>, e: Env, cell: map<nat, nat>, th: nat, size: nat)
    requires Matches(h, closures, e, cell) && th !in h.stack
    ensures Matches(AddThread(h, th, size), closures, Rebind(e, th, 0, size), cell)
  {
    var e' := Rebind(e, th, 0, size);
    RebindCells(e, cell, th, 0, size);
    ThreadAgrees(h, Cells(e.val, e.bound, cell), Cells(e'.val, e'.bound, cell), th, size, Above(e.val.Keys));
    ThreadSizes(h.stack, e.size, th, size);
  }

  lemma ThreadSizes(stack: map<nat, seq<int>>, sizes: map<nat, nat>, th: nat, size: nat)
    requires SizesAgree(stack, sizes)
    ensures SizesAgree(stack[th := seq(size, i => NIL)], sizes[th := size])
  {
  }

  // ---------- assignments ----------

  lemma SlotSim(m: Machine, e: Env, cell: map<nat, nat>, th: nat, i: nat, v: int)
    requires Fit(m) && Matches(m.h, m.closures, e, cell) && HasSlot(m.h.stack, th, i)
    ensures (th, i) in e.bound && Matches(PutSlot(m.h, th, i, v), m.closures, e.(val := e.val[e.bound[(th, i)] := v]), cell)
  {
    SetLocalAgrees(m.h, Cells(e.val, e.bound, cell), th, i, v);
    NewValue(m.h, PutSlot(m.h, th, i, v), m.closures, e, cell, e.bound[(th, i)], v);
  }

  /** Only the value of one cell changes. */
  lemma NewValue(h: Heap, h': Heap, closures: map<nat, seq<nat>>, e: Env, cell: map<nat, nat>, x: nat, v: int)
    requires EnvOk(e) && SizesAgree(h.stack, e.size) && ClosuresAgree(closures, cell, e.clos) && x in e.val
    requires Agrees(h', Cells(e.val[x := v], e.bound, cell))
    requires h'.stack.Keys == h.stack.Keys && forall th :: th in h.stack ==> |h'.stack[th]| == |h.stack[th]|
    ensures Matches(h', closures, e.(val := e.val[x := v]), cell)
  {
  }

  /** What a closure sees through its upvalue. */
  lemma UpvalSees(m: Machine, e: Env, cell: map<nat, nat>, k: nat, b: nat)
    requires Fit(m) && Matches(m.h, m.closures, e, cell) && HasUp(m.closures, k, b)
    ensures HasUpval(e, k, b) && m.closures[k][b] in cell && m.closures[k][b] in m.h.uv && cell[m.closures[k][b]] == e.clos[k][b]
    ensures e.clos[k][b] in e.val && Current(m.h, m.closures[k][b]) == e.val[e.clos[k][b]]
  {
    assert UpvalsMatch(m.closures[k], cell, e.clos[k]);
  }

  lemma ThroughSizes(h: Heap, u: nat, v: int)
    requires u in h.uv
    ensures var h' := Through(h, u, v);
      h'.stack.Keys == h.stack.Keys && forall th :: th in h.stack ==> |h'.stack[th]| == |h.stack[th]|
  {
  }

  lemma ThroughSim(m: Machine, e: Env, cell: map<nat, nat>, k: nat, b: nat, v: int)
    requires Fit(m) && Matches(m.h, m.closures, e, cell) && HasUp(m.closures, k, b)
    ensures HasUpval(e, k, b) && m.closures[k][b] in m.h.uv
    ensures Matches(Through(m.h, m.closures[k][b], v), m.closures, e.(val := e.val[e.clos[k][b] := v]), cell)
  {
    UpvalSees(m, e, cell, k, b);
    SetCellAgrees(m.h, Cells(e.val, e.bound, cell), m.closures[k][b], v);
    ThroughSizes(m.h, m.closures[k][b], v);
    NewValue(m.h, Through(m.h, m.closures[k][b], v), m.closures, e, cell, e.clos[k][b], v);
  }

  // ---------- closures ----------

  lemma FoundSim(h: Heap, c: Cells, th: nat, i: nat, k: nat)
    requires Inv(h) && Agrees(h, c) && th in h.open && Found(h.uv, h.open[th], th, i, k)
    ensures h.open[th][k] in c.cell && (th, i) in c.bound && c.cell[h.open[th][k]] == c.bound[(th, i)]
  {
    ListInHeap(h, th);
  }

  lemma AddedSim(h: Heap, c: Cells, th: nat, i: nat, k: nat, u: nat)
    requires Inv(h) && Agrees(h, c) && PlaceFor(h, th, i, k) && i < |h.stack[th]| && u !in h.uv && u != HEAD
    ensures (th, i) in c.bound && Agrees(AddUpval(h, th, i, k, u), Share(c, th, i, u)) && u !in c.cell
  {
    AddInv(h, th, i, k, u);
    AddAgrees(h, AddUpval(h, th, i, k, u), c, th, i, k, u);
  }

  lemma FindSim(h: Heap, c: Cells, th: nat, i: nat, h': Heap, u: nat) returns (cell: map<nat, nat>)
    requires Inv(h) && Agrees(h, c) && HasSlot(h.stack, th, i) && (h', u) == Find(h, th, i)
    ensures Agrees(h', c.(cell := cell)) && u in cell && (th, i) in c.bound && cell[u] == c.bound[(th, i)]
    ensures forall x :: x in c.cell ==> x in cell && cell[x] == c.cell[x]
  {
    PlaceFound(h, th, i);
    var k := PlaceFrom(h.uv, h.open[th], i, 0);
    if Found(h.uv, h.open[th], th, i, k) {
      FoundSim(h, c, th, i, k);
      cell := c.cell;
    } else {
      AddedSim(h, c, th, i, k, u);
      cell := Share(c, th, i, u).cell;
    }
  }

  lemma TakeOneSim(m: Machine, c: Cells, parent: seq<nat>, cells: seq<nat>, th: nat, base: nat, a: Capture) returns (cell: map<nat, nat>)
    requires Inv(m.h) && CanTake(m.h.stack, parent, th, base, a) && Agrees(m.h, c) && UpvalsMatch(parent, c.cell, cells)
    ensures Agrees(TakeOne(m, parent, th, base, a).0.h, c.(cell := cell))
    ensures TookCell(c, cells, th, base, a, TakeOne(m, parent, th, base, a).1, cell)
    ensures forall x :: x in c.cell ==> x in cell && cell[x] == c.cell[x]
  {
    match a
    case FromParent(b) => cell := c.cell;
    case FromSlot(i) => cell := TakeSlotSim(m, c, parent, cells, th, base, i);
  }

  lemma TakeSlotSim(m: Machine, c: Cells, parent: seq<nat>, cells: seq<nat>, th: nat, base: nat, i: nat) returns (cell: map<nat, nat>)
    requires Inv(m.h) && CanTake(m.h.stack, parent, th, base, FromSlot(i)) && Agrees(m.h, c)
    ensures Agrees(TakeOne(m, parent, th, base, FromSlot(i)).0.h, c.(cell := cell))
    ensures TookCell(c, cells, th, base, FromSlot(i), TakeOne(m, parent, th, base, FromSlot(i)).1, cell)
    ensures forall x :: x in c.cell ==> x in cell && cell[x] == c.cell[x]
  {
    TakeOneSlot(m, parent, th, base, i);
    var f := Find(m.h, th, base + i);
    cell := FindSim(m.h, c, th, base + i, f.0, f.1);
    TookSlot(c, cells, th, base, i, f.1, cell);
  }

  lemma TookSlot(c: Cells, cells: seq<nat>, th: nat, base: nat, i: nat, u: nat, cell: map<nat, nat>)
    requires (th, base + i) in c.bound && u in cell && cell[u] == c.bound[(th, base + i)]
    ensures TookCell(c, cells, th, base, FromSlot(i), u, cell)
  {
  }

  lemma TookMore(c: Cells, cells: seq<nat>, th: nat, base: nat, captures: seq<Capture>, n: nat, ups: seq<nat>, u: nat, cell: map<nat, nat>, cell': map<nat, nat>)
    requires n < |captures| && TookCells(c, cells, th, base, captures, n, ups, cell) && TookCell(c, cells, th, base, captures[n], u, cell')
    requires forall x :: x in cell ==> x in cell' && cell'[x] == cell[x]
    ensures TookCells(c, cells, th, base, captures, n + 1, ups + [u], cell')
  {
    forall j | 0 <= j < n + 1
      ensures TookCell(c, cells, th, base, captures[j], (ups + [u])[j], cell')
    {
      if j < n {
        assert TookCell(c, cells, th, base, captures[j], ups[j], cell);
      }
    }
  }

  /** A closure takes upvalues whose cells are those that the reference gives it. */
  lemma {:induction false} TakeSim(m: Machine, c: Cells, parent: seq<nat>, cells: seq<nat>, th: nat, base: nat, captures: seq<Capture>, n: nat)
    returns (cell: map<nat, nat>)
    requires Fit(m) && n <= |captures| && UpvalsFit(m.h.uv, parent, m.dead) && forall a :: a in captures ==> CanTake(m.h.stack, parent, th, base, a)
    requires Agrees(m.h, c) && UpvalsMatch(parent, c.cell, cells)
    ensures var (m', ups) := Take(m, parent, th, base, captures, n); Agrees(m'.h, c.(cell := cell)) && TookCells(c, cells, th, base, captures, n, ups, cell)
    ensures forall x :: x in c.cell ==> x in cell && cell[x] == c.cell[x]
  {
    if n == 0 {
      cell := c.cell;
    } else {
      var cell1 := TakeSim(m, c, parent, cells, th, base, captures, n - 1);
      var (m1, ups) := Take(m, parent, th, base, captures, n - 1);
      cell := TakeNextSim(m, m1, ups, c, cell1, parent, cells, th, base, captures, n - 1);
    }
  }

  lemma TakeNextSim(m: Machine, m1: Machine, ups: seq<nat>, c: Cells, cell1: map<nat, nat>, parent: seq<nat>, cells: seq<nat>, th: nat, base: nat,
                    captures: seq<Capture>, n: nat) returns (cell: map<nat, nat>)
    requires n < |captures| && UpvalsFit(m.h.uv, parent, m.dead) && CanTake(m.h.stack, parent, th, base, captures[n])
    requires Fit(m1) && Grown(m, m1) && UpvalsFit(m1.h.uv, ups, m1.dead) && UpvalsMatch(parent, c.cell, cells)
    requires Agrees(m1.h, c.(cell := cell1)) && TookCells(c, cells, th, base, captures, n, ups, cell1)
    requires forall x :: x in c.cell ==> x in cell1 && cell1[x] == c.cell[x]
    ensures CanTake(m1.h.stack, parent, th, base, captures[n])
    ensures var (m2, u) := TakeOne(m1, parent, th, base, captures[n]);
      Agrees(m2.h, c.(cell := cell)) && TookCells(c, cells, th, base, captures, n + 1, ups + [u], cell)
    ensures forall x :: x in c.cell ==> x in cell && cell[x] == c.cell[x]
  {
    TakeNext(m, m1, parent, ups, th, base, captures[n]);
    cell := TakeOneSim(m1, c.(cell := cell1), parent, cells, th, base, captures[n]);
    TookMore(c, cells, th, base, captures, n, ups, TakeOne(m1, parent, th, base, captures[n]).1, cell1, cell);
  }

  ghost predicate TookCells(c: Cells, cells: seq<nat>, th: nat, base: nat, captures: seq<Capture>, n: nat, ups: seq<nat>, cell: map<nat, nat>) {
    |ups| == n && n <= |captures| && forall j {:trigger TookCell(c, cells, th, base, captures[j], ups[j], cell)} :: 0 <= j < n ==>
      TookCell(c, cells, th, base, captures[j], ups[j], cell)
  }

  ghost predicate TookCell(c: Cells, cells: seq<nat>, th: nat, base: nat, a: Capture, u: nat, cell: map<nat, nat>) {
    match a
    case FromParent(b) => b < |cells| && u in cell && cell[u] == cells[b]
    case FromSlot(i) => (th, base + i) in c.bound && u in cell && cell[u] == c.bound[(th, base + i)]
  }

  /** The cells that the reference gives the new closure. */
  lemma TookMatches(e: Env, c: Cells, cells: seq<nat>, parent: nat, th: nat, base: nat, captures: seq<Capture>, ups: seq<nat>, cell: map<nat, nat>)
    requires EnvOk(e) && TookCells(c, cells, th, base, captures, |captures|, ups, cell) && c.bound == e.bound
    requires forall a :: a in captures ==> CanCapture(e, parent, th, base, a)
    requires parent in e.clos ==> e.clos[parent] == cells
    ensures UpvalsMatch(ups, cell, CaptureAll(e, parent, th, base, captures))
  {
    forall j | 0 <= j < |ups|
      ensures ups[j] in cell && cell[ups[j]] == Captured(e, parent, th, base, captures[j])
    {
      assert TookCell(c, cells, th, base, captures[j], ups[j], cell);
      assert captures[j] in captures && CanCapture(e, parent, th, base, captures[j]);
    }
  }

  /** A closure can be made if and only if the reference can make it. */
  lemma CanMakeAgrees(m: Machine, e: Env, cell: map<nat, nat>, parent: nat, th: nat, base: nat, captures: seq<Capture>)
    requires Matches(m.h, m.closures, e, cell)
    ensures CanMake(m.h.stack, m.closures, parent, th, base, captures) <==> forall a :: a in captures ==> CanCapture(e, parent, th, base, a)
  {
    assert parent in m.closures ==> UpvalsMatch(m.closures[parent], cell, e.clos[parent]);
    forall a | a in captures
      ensures CanTake(m.h.stack, ParentOf(m.closures, parent), th, base, a) <==> CanCapture(e, parent, th, base, a)
    {
    }
  }

  lemma MakeSim(m: Machine, e: Env, cell: map<nat, nat>, k: nat, parent: nat, th: nat, base: nat, captures: seq<Capture>) returns (cell': map<nat, nat>)
    requires Fit(m) && Matches(m.h, m.closures, e, cell) && CanMake(m.h.stack, m.closures, parent, th, base, captures)
    ensures forall a :: a in captures ==> CanCapture(e, parent, th, base, a)
    ensures var m' := Make(m, k, parent, th, base, captures);
      Matches(m'.h, m'.closures, e.(clos := e.clos[k := CaptureAll(e, parent, th, base, captures)]), cell')
  {
    CanMakeAgrees(m, e, cell, parent, th, base, captures);
    var c, parents := Cells(e.val, e.bound, cell), ParentOf(m.closures, parent);
    var cells := if parent in e.clos then e.clos[parent] else [];
    ParentMatches(m, e, cell, parent);
    cell' := TakeSim(m, c, parents, cells, th, base, captures, |captures|);
    var (m1, ups) := Take(m, parents, th, base, captures, |captures|);
    TookMatches(e, c, cells, parent, th, base, captures, ups, cell');
    MoreCells(m.closures, cell, cell', e.clos);
    OneMore(m.closures, cell', e.clos, k, ups, CaptureAll(e, parent, th, base, captures));
  }

  lemma ParentMatches(m: Machine, e: Env, cell: map<nat, nat>, parent: nat)
    requires Fit(m) && ClosuresAgree(m.closures, cell, e.clos)
    ensures UpvalsFit(m.h.uv, ParentOf(m.closures, parent), m.dead)
    ensures UpvalsMatch(ParentOf(m.closures, parent), cell, if parent in e.clos then e.clos[parent] else [])
  {
    assert parent in m.closures ==> UpvalsFit(m.h.uv, m.closures[parent], m.dead) && UpvalsMatch(m.closures[parent], cell, e.clos[parent]);
  }

  lemma OneMore(closures: map<nat, seq<nat>>, cell: map<nat, nat>, clos: map<nat, seq<nat>>, k: nat, ups: seq<nat>, cells: seq<nat>)
    requires ClosuresAgree(closures, cell, clos) && UpvalsMatch(ups, cell, cells)
    ensures ClosuresAgree(closures[k := ups], cell, clos[k := cells])
  {
  }

  // ---------- the end of a block ----------

  lemma TakeOutShut(m: Machine, th: nat, k: nat)
    requires Inv(m.h) && th in m.h.stack && k < |m.h.open[th]|
    ensures Shut(m.h, TakeOut(m, th, k).h, m.h.open[th][k], m.h.open[th][k] !in m.dead)
  {
    TakeOutRemoves(m, th, k);
    RemovedShut(m.h, TakeOut(m, th, k).h, th, k, m.h.open[th][k] !in m.dead);
  }

  /** luaF_close makes its loop while upvalues of the slots are left. */
  lemma {:induction false} CloseSim(m: Machine, c: Cells, clos: map<nat, seq<nat>>, th: nat, level: nat) returns (cell: map<nat, nat>)
    requires Fit(m) && th in m.h.stack && Closing(m.h, c, th, level) && ClosuresAgree(m.closures, c.cell, clos)
    ensures var m' := CloseFrom(m, th, level);
      Agrees(m'.h, c.(cell := cell)) && ClosuresAgree(m'.closures, cell, clos) && m'.closures == m.closures && m'.h.stack == m.h.stack
    decreases |m.h.open[th]|
  {
    if FirstAbove(m.h, th, level) {
      var c1 := CloseFirst(m, c, clos, th, level);
      TakeOutFit(m, th, 0);
      cell := CloseSim(TakeOut(m, th, 0), c1, clos, th, level);
    } else {
      NoneLeaving(m.h, th, level);
      EndClosing(m.h, c, th, level);
      cell := c.cell;
    }
  }

  lemma CloseFirst(m: Machine, c: Cells, clos: map<nat, seq<nat>>, th: nat, level: nat) returns (c': Cells)
    requires Fit(m) && th in m.h.stack && Closing(m.h, c, th, level) && ClosuresAgree(m.closures, c.cell, clos) && FirstAbove(m.h, th, level)
    ensures Closing(TakeOut(m, th, 0).h, c', th, level) && ClosuresAgree(m.closures, c'.cell, clos) && c' == c.(cell := c'.cell)
  {
    var u := m.h.open[th][0];
    ListInHeap(m.h, th);
    TakeOutShut(m, th, 0);
    CloseOne(m.h, TakeOut(m, th, 0).h, c, th, level, u, u !in m.dead);
    if u in m.dead {
      FewerCells(m, c.cell, clos, u);
      c' := c.(cell := c.cell - {u});
    } else {
      c' := c;
    }
  }

  /** The list is sorted: when its first element is below the level, all are. */
  lemma NoneLeaving(h: Heap, th: nat, level: nat)
    requires Inv(h) && th in h.stack && !FirstAbove(h, th, level)
    ensures forall u :: u in h.uv && u != HEAD ==> !Leaving(h.uv[u].v, th, level)
  {
    forall u | u in h.uv && u != HEAD && h.uv[u].v.Slot? && h.uv[u].v.th == th
      ensures h.uv[u].v.i < level
    {
      var j :| 0 <= j < |h.open[th]| && h.open[th][j] == u;
      assert ChainAt(h.uv, h.open[th], th, |h.stack[th]|, 0) && ChainAt(h.uv, h.open[th], th, |h.stack[th]|, j);
      assert j > 0 ==> Higher(h.uv, h.open[th], 0, j);
    }
  }

  lemma BlockEnds(h: Heap, closures: map<nat, seq<nat>>, e: Env, cell: map<nat, nat>, th: nat, level: nat)
    requires Matches(h, closures, e, cell) && th in h.stack && level <= |h.stack[th]|
    ensures th in e.size && e.size[th] == |h.stack[th]|
    ensures var e' := Rebind(e, th, level, e.size[th]);
      EnvOk(e') && Closing(h, Cells(e'.val, e'.bound, cell), th, level) && SizesAgree(h.stack, e'.size) && e'.clos == e.clos
  {
    RebindCells(e, cell, th, level, e.size[th]);
    var e' := Rebind(e, th, level, e.size[th]);
    SameSize(e.size, th);
    StartClosing(h, Cells(e.val, e.bound, cell), Cells(e'.val, e'.bound, cell), th, level, Above(e.val.Keys));
  }

  lemma SameSize(size: map<nat, nat>, th: nat)
    requires th in size
    ensures size[th := size[th]] == size
  {
  }

  lemma CloseAllSim(m: Machine, e: Env, cell: map<nat, nat>, th: nat, level: nat) returns (cell': map<nat, nat>)
    requires Fit(m) && Matches(m.h, m.closures, e, cell) && th in m.h.stack && level <= |m.h.stack[th]|
    ensures th in e.size && e.size[th] == |m.h.stack[th]|
    ensures var m' := CloseFrom(m, th, level); Matches(m'.h, m'.closures, Rebind(e, th, level, e.size[th]), cell')
  {
    BlockEnds(m.h, m.closures, e, cell, th, level);
    var e' := Rebind(e, th, level, e.size[th]);
    var c := Cells(e'.val, e'.bound, cell);
    cell' := CloseSim(m, c, e'.clos, th, level);
    assert c.(cell := cell') == Cells(e'.val, e'.bound, cell');
  }

  // ---------- the collector ----------

  lemma SweepOne(m: Machine, e: Env, cell: map<nat, nat>, th: nat, k: nat)
    requires Fit(m) && Matches(m.h, m.closures, e, cell) && th in m.h.stack && k < |m.h.open[th]| && m.h.open[th][k] in m.dead
    ensures Matches(TakeOut(m, th, k).h, m.closures, e, cell - {m.h.open[th][k]})
  {
    var u := m.h.open[th][k];
    TakeOutShut(m, th, k);
    FreeOne(m.h, TakeOut(m, th, k).h, Cells(e.val, e.bound, cell), u);
    FewerCells(m, cell, e.clos, u);
  }

  lemma {:induction false} SweepSim(m: Machine, e: Env, cell: map<nat, nat>, th: nat, k: nat) returns (cell': map<nat, nat>)
    requires Fit(m) && Matches(m.h, m.closures, e, cell) && th in m.h.stack
    ensures var m' := SweepFrom(m, th, k); Matches(m'.h, m'.closures, e, cell')
    decreases |m.h.open[th]| - k
  {
    cell' := cell;
    if k < |m.h.open[th]| {
      if m.h.open[th][k] in m.dead {
        SweepOne(m, e, cell, th, k);
        TakeOutFit(m, th, k);
        cell' := SweepSim(TakeOut(m, th, k), e, cell - {m.h.open[th][k]}, th, k);
      } else {
        cell' := SweepSim(m, e, cell, th, k + 1);
      }
    }
  }

  lemma SweepClosedSim(m: Machine, e: Env, cell: map<nat, nat>, u: nat)
    requires Fit(m) && Matches(m.h, m.closures, e, cell) && u in m.dead && u in m.h.uv && m.h.uv[u].v == Own
    ensures Matches(m.h.(uv := m.h.uv - {u}), m.closures, e, cell - {u})
  {
    FreeOne(m.h, m.h.(uv := m.h.uv - {u}), Cells(e.val, e.bound, cell), u);
    FewerCells(m, cell, e.clos, u);
  }

  // ---------- every event ----------

  /** What is possible for the one is possible for the other. */
  lemma SlotsKnown(m: Machine, e: Env, cell: map<nat, nat>)
    requires Matches(m.h, m.closures, e, cell)
    ensures forall th: nat, i: nat :: (th, i) in e.bound <==> HasSlot(m.h.stack, th, i)
    ensures forall k: nat, b: nat :: HasUpval(e, k, b) <==> HasUp(m.closures, k, b)
    ensures m.h.stack.Keys == e.size.Keys
  {
    forall k: nat, b: nat
      ensures HasUpval(e, k, b) <==> HasUp(m.closures, k, b)
    {
      assert k in m.closures ==> UpvalsMatch(m.closures[k], cell, e.clos[k]);
    }
  }

  ghost predicate StepsTo(m: Machine, e: Env, ev: Event, cell': map<nat, nat>)
    requires Fit(m) && EnvOk(e)
  {
    Matches(Step(m, ev).h, Step(m, ev).closures, Next(e, ev), cell')
  }

  lemma ValuesStep(m: Machine, e: Env, cell: map<nat, nat>, ev: Event)
    requires Fit(m) && Matches(m.h, m.closures, e, cell) && (ev.NewThread? || ev.Assign? || ev.GetUpval? || ev.SetUpval?)
    ensures StepsTo(m, e, ev, cell)
  {
    SlotsKnown(m, e, cell);
    match ev
    case NewThread(th, size) =>
      if th !in m.h.stack {
        ThreadSim(m.h, m.closures, e, cell, th, size);
      }
    case Assign(th, i, v) =>
      if HasSlot(m.h.stack, th, i) {
        SlotSim(m, e, cell, th, i, v);
      }
    case GetUpval(th, i, k, b) => GetUpvalStep(m, e, cell, th, i, k, b);
    case SetUpval(th, i, k, b) => SetUpvalStep(m, e, cell, th, i, k, b);
  }

  lemma GetUpvalStep(m: Machine, e: Env, cell: map<nat, nat>, th: nat, i: nat, k: nat, b: nat)
    requires Fit(m) && Matches(m.h, m.closures, e, cell)
    ensures StepsTo(m, e, GetUpval(th, i, k, b), cell)
  {
    SlotsKnown(m, e, cell);
    if HasSlot(m.h.stack, th, i) && HasUp(m.closures, k, b) {
      UpvalSees(m, e, cell, k, b);
      SlotSim(m, e, cell, th, i, Current(m.h, m.closures[k][b]));
    }
  }

  lemma SetUpvalStep(m: Machine, e: Env, cell: map<nat, nat>, th: nat, i: nat, k: nat, b: nat)
    requires Fit(m) && Matches(m.h, m.closures, e, cell)
    ensures StepsTo(m, e, SetUpval(th, i, k, b), cell)
  {
    SlotsKnown(m, e, cell);
    if HasSlot(m.h.stack, th, i) && HasUp(m.closures, k, b) {
      assert (th, i) in e.bound && e.val[e.bound[(th, i)]] == m.h.stack[th][i];
      ThroughSim(m, e, cell, k, b, m.h.stack[th][i]);
    }
  }

  lemma MakeStep(m: Machine, e: Env, cell: map<nat, nat>, k: nat, parent: nat, th: nat, base: nat, captures: seq<Capture>) returns (cell': map<nat, nat>)
    requires Fit(m) && Matches(m.h, m.closures, e, cell)
    ensures StepsTo(m, e, MakeClosure(k, parent, th, base, captures), cell')
  {
    CanMakeAgrees(m, e, cell, parent, th, base, captures);
    cell' := cell;
    if CanMake(m.h.stack, m.closures, parent, th, base, captures) {
      cell' := MakeSim(m, e, cell, k, parent, th, base, captures);
    }
  }

  lemma StepClose(m: Machine, th: nat, level: nat)
    requires Fit(m)
    ensures Step(m, Close(th, level)) == if th in m.h.stack && level <= |m.h.stack[th]| then CloseFrom(m, th, level) else m
  {
  }

  lemma NextClose(e: Env, th: nat, level: nat)
    requires EnvOk(e)
    ensures Next(e, Close(th, level)) == if th in e.size && level <= e.size[th] then Rebind(e, th, level, e.size[th]) else e
  {
  }

  lemma CloseStep(m: Machine, e: Env, cell: map<nat, nat>, th: nat, level: nat) returns (cell': map<nat, nat>)
    requires Fit(m) && Matches(m.h, m.closures, e, cell)
    ensures StepsTo(m, e, Close(th, level), cell')
  {
    StepClose(m, th, level);
    NextClose(e, th, level);
    cell' := cell;
    if th in m.h.stack && level <= |m.h.stack[th]| {
      cell' := CloseAllSim(m, e, cell, th, level);
    }
  }

  lemma CollectorStep(m: Machine, e: Env, cell: map<nat, nat>, ev: Event) returns (cell': map<nat, nat>)
    requires Fit(m) && Matches(m.h, m.closures, e, cell) && (ev.Forget? || ev.Condemn? || ev.SweepOpen? || ev.SweepClosed?)
    ensures StepsTo(m, e, ev, cell')
  {
    cell' := cell;
    match ev
    case SweepOpen(th) => cell' := SweepOpenStep(m, e, cell, th);
    case SweepClosed(u) => cell' := SweepClosedStep(m, e, cell, u);
    case _ =>
  }

  lemma StepSweepOpen(m: Machine, th: nat)
    requires Fit(m)
    ensures Step(m, SweepOpen(th)) == if th in m.h.stack then SweepFrom(m, th, 0) else m
  {
  }

  lemma NextSweeps(e: Env, th: nat, u: nat)
    requires EnvOk(e)
    ensures Next(e, SweepOpen(th)) == e && Next(e, SweepClosed(u)) == e
  {
  }

  lemma SweepOpenStep(m: Machine, e: Env, cell: map<nat, nat>, th: nat) returns (cell': map<nat, nat>)
    requires Fit(m) && Matches(m.h, m.closures, e, cell)
    ensures StepsTo(m, e, SweepOpen(th), cell')
  {
    StepSweepOpen(m, th);
    NextSweeps(e, th, 0);
    cell' := cell;
    if th in m.h.stack {
      cell' := SweepSim(m, e, cell, th, 0);
    }
  }

  lemma SweepClosedStep(m: Machine, e: Env, cell: map<nat, nat>, u: nat) returns (cell': map<nat, nat>)
    requires Fit(m) && Matches(m.h, m.closures, e, cell)
    ensures StepsTo(m, e, SweepClosed(u), cell')
  {
    NextSweeps(e, 0, u);
    cell' := cell;
    if u in m.dead && u in m.h.uv && m.h.uv[u].v == Own {
      SweepClosedSim(m, e, cell, u);
      cell' := cell - {u};
    }
  }

  /** Every step of the machine is one of the reference. */
  lemma StepSimulates(m: Machine, e: Env, ev: Event)
    requires Simulates(m, e)
    ensures Simulates(Step(m, ev), Next(e, ev))
  {
    var cell :| Matches(m.h, m.closures, e, cell);
    match ev
    case MakeClosure(k, parent, th, base, captures) =>
      var cell' := MakeStep(m, e, cell, k, parent, th, base, captures);
    case Close(th, level) =>
      var cell' := CloseStep(m, e, cell, th, level);
    case _ =>
      if ev.NewThread? || ev.Assign? || ev.GetUpval? || ev.SetUpval? {
        ValuesStep(m, e, cell, ev);
      } else {
        var cell' := CollectorStep(m, e, cell, ev);
      }
  }

  /** What the machine has after some events. */
  ghost function Steps(m: Machine, events: seq<Event>): (m': Machine)
    requires Fit(m)
    ensures Fit(m')
  {
    if events == [] then m else Step(Steps(m, events[..|events| - 1]), events[|events| - 1])
  }

  ghost predicate Blank(m: Machine) {
    m.h.stack == map[] && m.h.uv == map[HEAD := UpVal(Own, NIL, NULL, HEAD, HEAD)] && m.closures == map[] && m.dead == {}
  }

  /** The machine and the reference have the same closures and the same values in slots; and a closure of the machine
      finds in its upvalues, open or closed, what the one of the reference finds in its cells. */
  ghost predicate SameValues(m: Machine, e: Env) {
    && (forall th: nat, i: nat :: (th, i) in e.bound <==> HasSlot(m.h.stack, th, i))
    && (forall th: nat, i: nat :: (th, i) in e.bound && HasSlot(m.h.stack, th, i) ==>
          e.bound[(th, i)] in e.val && m.h.stack[th][i] == e.val[e.bound[(th, i)]])
    && (forall k: nat, b: nat :: HasUpval(e, k, b) <==> HasUp(m.closures, k, b))
    && (forall k: nat, b: nat :: HasUpval(e, k, b) && HasUp(m.closures, k, b) ==>
          m.closures[k][b] in m.h.uv && e.clos[k][b] in e.val && Current(m.h, m.closures[k][b]) == e.val[e.clos[k][b]])
  }

  lemma SameIfSimulates(m: Machine, e: Env)
    requires Simulates(m, e)
    ensures SameValues(m, e)
  {
    var cell :| Matches(m.h, m.closures, e, cell);
    SlotsKnown(m, e, cell);
    forall k: nat, b: nat | HasUp(m.closures, k, b)
      ensures HasUpval(e, k, b) && m.closures[k][b] in m.h.uv && e.clos[k][b] in e.val && Current(m.h, m.closures[k][b]) == e.val[e.clos[k][b]]
    {
      UpvalSees(m, e, cell, k, b);
    }
  }

  /** Each variable behaves as one cell that all closures share, after any sequence of events. */
  lemma SharedCells(m: Machine, events: seq<Event>)
    requires Fit(m) && Blank(m)
    ensures SameValues(Steps(m, events), After(Env(map[], map[], map[], map[]), events))
  {
    RunSimulates(m, events);
    SameIfSimulates(Steps(m, events), After(Env(map[], map[], map[], map[]), events));
  }

  lemma {:induction false} RunSimulates(m: Machine, events: seq<Event>)
    requires Fit(m) && Blank(m)
    ensures Simulates(Steps(m, events), After(Env(map[], map[], map[], map[]), events))
    decreases |events|
  {
    if events == [] {
      assert Matches(m.h, m.closures, Env(map[], map[], map[], map[]), map[]);
    } else {
      RunSimulates(m, events[..|events| - 1]);
      StepSimulates(Steps(m, events[..|events| - 1]), After(Env(map[], map[], map[], map[]), events[..|events| - 1]), events[|events| - 1]);
    }
  }
}

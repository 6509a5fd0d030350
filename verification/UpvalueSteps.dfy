/** What each operation of lfunc.c does to stacks, upvalues and closures, as functions on values. */
module UpvalueSteps {
  import opened Numbers
  import opened Lists
  import opened Upvalues
  import opened UpvalueCells

  /** `dead` are the upvalues that the collector is going to free. */
  datatype Machine = Machine(h: Heap, closures: map<nat, seq<nat>>, dead: set<nat>)

  predicate IsUpval(uv: map<nat, UpVal>, u: nat) {
    u in uv && u != HEAD
  }

  /** Closures have upvalues that are not dead. */
  ghost predicate ClosuresFit(uv: map<nat, UpVal>, closures: map<nat, seq<nat>>, dead: set<nat>) {
    forall k :: k in closures ==> UpvalsFit(uv, closures[k], dead)
  }

  ghost predicate UpvalsFit(uv: map<nat, UpVal>, ups: seq<nat>, dead: set<nat>) {
    forall j :: 0 <= j < |ups| ==> IsUpval(uv, ups[j]) && ups[j] !in dead
  }

  ghost predicate Fit(m: Machine) {
    Inv(m.h) && ClosuresFit(m.h.uv, m.closures, m.dead) && forall u :: u in m.dead ==> IsUpval(m.h.uv, u)
  }

  // ---------- finding ----------

  function PlaceFrom(uv: map<nat, UpVal>, list: seq<nat>, i: nat, k: nat): (p: nat)
    requires k <= |list|
    ensures k <= p <= |list| && (p < |list| ==> !(list[p] in uv && uv[list[p]].v.Slot? && uv[list[p]].v.i > i))
    ensures forall j :: k <= j < p ==> list[j] in uv && uv[list[j]].v.Slot? && uv[list[j]].v.i > i
    decreases |list| - k
  {
    if k < |list| && list[k] in uv && uv[list[k]].v.Slot? && uv[list[k]].v.i > i then PlaceFrom(uv, list, i, k + 1) else k
  }

  /** The slot has an open upvalue already. */
  predicate Found(uv: map<nat, UpVal>, list: seq<nat>, th: nat, i: nat, k: nat) {
    k < |list| && list[k] in uv && uv[list[k]].v == Slot(th, i)
  }

  /** luaF_findupval: the heap afterwards and the upvalue. */
  ghost function Find(h: Heap, th: nat, i: nat): (Heap, nat)
    requires Inv(h) && th in h.stack
  {
    var k := PlaceFrom(h.uv, h.open[th], i, 0);
    if Found(h.uv, h.open[th], th, i, k) then (h, h.open[th][k])
    else
      var u := NewName(h.uv.Keys, HEAD + 1);
      (AddUpval(h, th, i, k, u), u)
  }

  /** Where the walk along the list ends is the place of the slot. */
  lemma PlaceFound(h: Heap, th: nat, i: nat)
    requires Inv(h) && th in h.stack
    ensures var k := PlaceFrom(h.uv, h.open[th], i, 0); Found(h.uv, h.open[th], th, i, k) || PlaceFor(h, th, i, k)
  {
    var list := h.open[th];
    var k := PlaceFrom(h.uv, list, i, 0);
    if !Found(h.uv, list, th, i, k) {
      forall j | k <= j < |list|
        ensures list[j] in h.uv && h.uv[list[j]].v.Slot? && h.uv[list[j]].v.i < i
      {
        assert ChainAt(h.uv, list, th, |h.stack[th]|, j) && ChainAt(h.uv, list, th, |h.stack[th]|, k);
        if k < j {
          assert Higher(h.uv, list, k, j);
        }
      }
    }
  }

  lemma FindInv(h: Heap, th: nat, i: nat)
    requires Inv(h) && th in h.stack && i < |h.stack[th]|
    ensures var (h', u) := Find(h, th, i);
      && Inv(h') && h'.stack == h.stack && IsUpval(h'.uv, u) && h'.uv[u].v == Slot(th, i) && h'.uv.Keys == h.uv.Keys + {u}
  {
    PlaceFound(h, th, i);
    var k := PlaceFrom(h.uv, h.open[th], i, 0);
    if Found(h.uv, h.open[th], th, i, k) {
      ListInHeap(h, th);
    } else {
      AddInv(h, th, i, k, NewName(h.uv.Keys, HEAD + 1));
    }
  }

  // ---------- closures ----------

  predicate CanTake(stack: map<nat, seq<int>>, parent: seq<nat>, th: nat, base: nat, a: Capture) {
    match a
    case FromParent(b) => b < |parent|
    case FromSlot(i) => th in stack && base + i < |stack[th]|
  }

  /** A new closure takes an upvalue, which lives from now on. */
  ghost function TakeOne(m: Machine, parent: seq<nat>, th: nat, base: nat, a: Capture): (Machine, nat)
    requires Inv(m.h) && CanTake(m.h.stack, parent, th, base, a)
  {
    match a
    case FromParent(b) => (m, parent[b])
    case FromSlot(i) =>
      var f := Find(m.h, th, base + i);
      (Machine(f.0, m.closures, m.dead - {f.1}), f.1)
  }

  lemma TakeOneSlot(m: Machine, parent: seq<nat>, th: nat, base: nat, i: nat)
    requires Inv(m.h) && CanTake(m.h.stack, parent, th, base, FromSlot(i))
    ensures th in m.h.stack && base + i < |m.h.stack[th]|
    ensures var f := Find(m.h, th, base + i); TakeOne(m, parent, th, base, FromSlot(i)) == (Machine(f.0, m.closures, m.dead - {f.1}), f.1)
  {
  }

  /** Nothing is lost on the way to `m'`. */
  ghost predicate Grown(m: Machine, m': Machine) {
    m'.h.stack == m.h.stack && m'.closures == m.closures && m.h.uv.Keys <= m'.h.uv.Keys && m'.dead <= m.dead
  }

  lemma StillFit(uv: map<nat, UpVal>, uv': map<nat, UpVal>, ups: seq<nat>, dead: set<nat>, dead': set<nat>)
    requires UpvalsFit(uv, ups, dead) && uv.Keys <= uv'.Keys && dead' <= dead
    ensures UpvalsFit(uv', ups, dead')
  {
  }

  lemma TakeOneFit(m: Machine, parent: seq<nat>, th: nat, base: nat, a: Capture)
    requires Fit(m) && UpvalsFit(m.h.uv, parent, m.dead) && CanTake(m.h.stack, parent, th, base, a)
    ensures var (m', u) := TakeOne(m, parent, th, base, a); Fit(m') && Grown(m, m') && UpvalsFit(m'.h.uv, [u], m'.dead)
  {
    if a.FromSlot? {
      FindInv(m.h, th, base + a.i);
      var (m', u) := TakeOne(m, parent, th, base, a);
      forall k | k in m.closures
        ensures UpvalsFit(m'.h.uv, m.closures[k], m'.dead)
      {
        StillFit(m.h.uv, m'.h.uv, m.closures[k], m.dead, m'.dead);
      }
    }
  }

  /** A closure takes the upvalues that its instructions name, one after the other; the first `n` of them. */
  ghost function Take(m: Machine, parent: seq<nat>, th: nat, base: nat, captures: seq<Capture>, n: nat): (r: (Machine, seq<nat>))
    requires Fit(m) && n <= |captures| && UpvalsFit(m.h.uv, parent, m.dead)
    requires forall a :: a in captures ==> CanTake(m.h.stack, parent, th, base, a)
    ensures Fit(r.0) && Grown(m, r.0) && |r.1| == n && UpvalsFit(r.0.h.uv, r.1, r.0.dead)
  {
    if n == 0 then (m, [])
    else
      var (m1, ups) := Take(m, parent, th, base, captures, n - 1);
      TakeNext(m, m1, parent, ups, th, base, captures[n - 1]);
      assert captures[n - 1] in captures;
      var (m2, u) := TakeOne(m1, parent, th, base, captures[n - 1]);
      (m2, ups + [u])
  }

  lemma TakeNext(m: Machine, m1: Machine, parent: seq<nat>, ups: seq<nat>, th: nat, base: nat, a: Capture)
    requires UpvalsFit(m.h.uv, parent, m.dead) && CanTake(m.h.stack, parent, th, base, a)
    requires Fit(m1) && Grown(m, m1) && UpvalsFit(m1.h.uv, ups, m1.dead)
    ensures CanTake(m1.h.stack, parent, th, base, a)
    ensures var (m2, u) := TakeOne(m1, parent, th, base, a); Fit(m2) && Grown(m, m2) && UpvalsFit(m2.h.uv, ups + [u], m2.dead)
  {
    StillFit(m.h.uv, m1.h.uv, parent, m.dead, m1.dead);
    TakeOneFit(m1, parent, th, base, a);
    var (m2, u) := TakeOne(m1, parent, th, base, a);
    StillFit(m1.h.uv, m2.h.uv, ups, m1.dead, m2.dead);
    OneMoreFits(m2.h.uv, ups, u, m2.dead);
  }

  lemma OneMoreFits(uv: map<nat, UpVal>, ups: seq<nat>, u: nat, dead: set<nat>)
    requires UpvalsFit(uv, ups, dead) && UpvalsFit(uv, [u], dead)
    ensures UpvalsFit(uv, ups + [u], dead)
  {
    assert [u][0] == u;
  }

  // ---------- the end of a block ----------

  ghost function IndexIn(list: seq<nat>, u: nat): (r: nat)
    requires u in list
    ensures r < |list| && list[r] == u
  {
    var r: nat :| r < |list| && list[r] == u;
    r
  }

  /** Element `k` of the list of a thread is taken out of both lists.  It is freed if it is dead, and otherwise
      closed with the value of its slot. */
  ghost function TakeOut(m: Machine, th: nat, k: nat): Machine
    requires Inv(m.h) && th in m.h.stack && k < |m.h.open[th]|
  {
    var h, list, u := m.h, m.h.open[th], m.h.open[th][k];
    RingHas(h, th, k);
    var uv1 := Unlink(h.uv, u);
    var uv2 := if k > 0 then uv1[list[k - 1] := uv1[list[k - 1]].(chain := uv1[u].chain)] else uv1;
    Machine(Heap(h.stack, if k > 0 then h.head else h.head[th := h.uv[u].chain],
                 if u in m.dead then uv2 - {u} else uv2[u := uv2[u].(v := Own, value := Current(h, u))],
                 Without(h.ring, IndexIn(h.ring, u)), h.open[th := Without(list, k)]),
            m.closures, m.dead - {u})
  }

  lemma RingHas(h: Heap, th: nat, k: nat)
    requires Inv(h) && th in h.stack && k < |h.open[th]|
    ensures var u := h.open[th][k];
      && u in h.ring && u in h.uv && h.uv[u].next in h.uv && h.uv[u].prev in h.uv && IndexIn(h.ring, u) > 0 && IsUpval(h.uv, u)
      && OnStack(h.uv, u, th) && h.uv[u].v.i < |h.stack[th]|
    ensures k > 0 ==> h.open[th][k - 1] in h.uv
    ensures Ring(Unlink(h.uv, h.open[th][k]), Without(h.ring, IndexIn(h.ring, h.open[th][k]))) && SameBut(h.uv, Unlink(h.uv, h.open[th][k]))
  {
    ListInHeap(h, th);
    var u := h.open[th][k];
    assert ChainAt(h.uv, h.open[th], th, |h.stack[th]|, k);
    UnlinkRing(h.uv, h.ring, IndexIn(h.ring, u));
  }

  lemma TakeOutRemoves(m: Machine, th: nat, k: nat)
    requires Inv(m.h) && th in m.h.stack && k < |m.h.open[th]|
    ensures Removed(m.h, TakeOut(m, th, k).h, th, k, m.h.open[th][k] !in m.dead)
  {
    RingHas(m.h, th, k);
    ChainDistinct(m.h.uv, m.h.open[th], m.h.head[th], th, |m.h.stack[th]|, k);
  }

  lemma TakeOutRing(m: Machine, th: nat, k: nat)
    requires Inv(m.h) && th in m.h.stack && k < |m.h.open[th]|
    ensures var h' := TakeOut(m, th, k).h; Ring(h'.uv, h'.ring)
  {
    var h, list, u := m.h, m.h.open[th], m.h.open[th][k];
    RingHas(h, th, k);
    var uv1, r := Unlink(h.uv, u), IndexIn(h.ring, u);
    var uv2 := if k > 0 then uv1[list[k - 1] := uv1[list[k - 1]].(chain := uv1[u].chain)] else uv1;
    RingKept(uv1, uv2, Without(h.ring, r));
    if u in m.dead {
      DeleteMembers(h.ring, r);
      RingWithout(uv2, Without(h.ring, r), u);
    } else {
      RingKept(uv2, uv2[u := uv2[u].(v := Own, value := Current(h, u))], Without(h.ring, r));
    }
  }

  lemma TakeOutInv(m: Machine, th: nat, k: nat)
    requires Inv(m.h) && th in m.h.stack && k < |m.h.open[th]|
    ensures Inv(TakeOut(m, th, k).h)
  {
    RingHas(m.h, th, k);
    TakeOutRemoves(m, th, k);
    TakeOutRing(m, th, k);
    RemoveInv(m.h, TakeOut(m, th, k).h, th, k, IndexIn(m.h.ring, m.h.open[th][k]), m.h.open[th][k] !in m.dead);
  }

  lemma TakeOutFit(m: Machine, th: nat, k: nat)
    requires Fit(m) && th in m.h.stack && k < |m.h.open[th]|
    ensures Fit(TakeOut(m, th, k))
  {
    var m', u := TakeOut(m, th, k), m.h.open[th][k];
    RingHas(m.h, th, k);
    TakeOutInv(m, th, k);
    TakeOutRemoves(m, th, k);
    assert m'.h.uv.Keys == if u in m.dead then m.h.uv.Keys - {u} else m.h.uv.Keys;
    forall c | c in m.closures
      ensures UpvalsFit(m'.h.uv, m.closures[c], m'.dead)
    {
      assert UpvalsFit(m.h.uv, m.closures[c], m.dead);
    }
  }

  predicate FirstAbove(h: Heap, th: nat, level: nat) {
    th in h.open && |h.open[th]| > 0 && h.open[th][0] in h.uv && h.uv[h.open[th][0]].v.Slot? && h.uv[h.open[th][0]].v.i >= level
  }

  /** luaF_close. */
  ghost function CloseFrom(m: Machine, th: nat, level: nat): (m': Machine)
    requires Fit(m) && th in m.h.stack
    ensures Fit(m')
    decreases if th in m.h.open then |m.h.open[th]| else 0
  {
    if FirstAbove(m.h, th, level) then
      TakeOutFit(m, th, 0);
      CloseFrom(TakeOut(m, th, 0), th, level)
    else m
  }

  /** The collector frees the dead upvalues in the list of a thread from element `k` on. */
  ghost function SweepFrom(m: Machine, th: nat, k: nat): (m': Machine)
    requires Fit(m) && th in m.h.stack
    ensures Fit(m')
    decreases (if th in m.h.open then |m.h.open[th]| else 0) - k
  {
    if k < |m.h.open[th]| then
      if m.h.open[th][k] in m.dead then
        TakeOutFit(m, th, k);
        SweepFrom(TakeOut(m, th, k), th, k)
      else SweepFrom(m, th, k + 1)
    else m
  }
}

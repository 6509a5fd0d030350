/** The machine that has upvalues, step by step: lfunc.c, and the instructions of lvm.c that use it. */
module UpvalueState {
  import opened Numbers
  import opened Lists
  import opened Upvalues
  import opened UpvalueCells
  import opened UpvalueSteps
  import opened UpvalueSim

  /** luaF_close closes exactly the upvalues of the slots from `level` on, with the values of their slots, and frees
      those that are dead.  Nothing happens to the others. */
  lemma {:induction false} CloseExactly(m: Machine, th: nat, level: nat, u: nat)
    requires Fit(m) && th in m.h.stack && IsUpval(m.h.uv, u)
    ensures var m' := CloseFrom(m, th, level);
      if !Leaving(m.h.uv[u].v, th, level) then u in m'.h.uv && m'.h.uv[u].v == m.h.uv[u].v && (u in m'.dead <==> u in m.dead)
      else if u in m.dead then u !in m'.h.uv
      else u in m'.h.uv && m'.h.uv[u].v == Own && m'.h.uv[u].value == Current(m.h, u)
    decreases |m.h.open[th]|
  {
    if FirstAbove(m.h, th, level) {
      TakeOutFit(m, th, 0);
      OneOut(m, th, 0, u);
      if u != m.h.open[th][0] {
        CloseExactly(TakeOut(m, th, 0), th, level, u);
      } else if u in m.dead {
        StaysOut(TakeOut(m, th, 0), th, level, u);
      } else {
        ClosedStays(TakeOut(m, th, 0), th, level, u);
      }
    } else {
      NoneLeaving(m.h, th, level);
    }
  }

  lemma OneOut(m: Machine, th: nat, k: nat, u: nat)
    requires Fit(m) && th in m.h.stack && k < |m.h.open[th]| && IsUpval(m.h.uv, u)
    ensures var m', first := TakeOut(m, th, k), m.h.open[th][k];
      && first in m.h.uv && OnStack(m.h.uv, first, th) && (u in m'.dead <==> u in m.dead && u != first)
      && if u != first then u in m'.h.uv && m'.h.uv[u].v == m.h.uv[u].v && Current(m'.h, u) == Current(m.h, u)
         else if u in m.dead then u !in m'.h.uv
         else u in m'.h.uv && m'.h.uv[u].v == Own && m'.h.uv[u].value == Current(m.h, u)
  {
    ListInHeap(m.h, th);
    TakeOutRemoves(m, th, k);
  }

  lemma {:induction false} StaysOut(m: Machine, th: nat, level: nat, u: nat)
    requires Fit(m) && th in m.h.stack && u !in m.h.uv
    ensures u !in CloseFrom(m, th, level).h.uv
    decreases |m.h.open[th]|
  {
    if FirstAbove(m.h, th, level) {
      TakeOutRemoves(m, th, 0);
      TakeOutFit(m, th, 0);
      StaysOut(TakeOut(m, th, 0), th, level, u);
    }
  }

  lemma {:induction false} ClosedStays(m: Machine, th: nat, level: nat, u: nat)
    requires Fit(m) && th in m.h.stack && u in m.h.uv && m.h.uv[u].v == Own
    ensures u in CloseFrom(m, th, level).h.uv && CloseFrom(m, th, level).h.uv[u].v == Own
    ensures CloseFrom(m, th, level).h.uv[u].value == m.h.uv[u].value
    decreases |m.h.open[th]|
  {
    if FirstAbove(m.h, th, level) {
      ListInHeap(m.h, th);
      TakeOutRemoves(m, th, 0);
      TakeOutFit(m, th, 0);
      ClosedStays(TakeOut(m, th, 0), th, level, u);
    }
  }

  /** The sweep of a thread's list frees exactly the dead upvalues of its slots.  Nothing happens to the others. */
  lemma SweepExactly(m: Machine, th: nat, u: nat)
    requires Fit(m) && th in m.h.stack && IsUpval(m.h.uv, u)
    ensures var m' := SweepFrom(m, th, 0);
      if OnStack(m.h.uv, u, th) && u in m.dead then u !in m'.h.uv else Untouched(m, m', u)
  {
    SweepRestExactly(m, th, 0, u);
    ListInHeap(m.h, th);
    assert m.h.open[th][0..] == m.h.open[th];
  }

  /** An upvalue with the place and the value that it had. */
  ghost predicate Untouched(m: Machine, m': Machine, u: nat)
    requires u in m.h.uv
  {
    u in m'.h.uv && m'.h.uv[u].v == m.h.uv[u].v && Current(m'.h, u) == Current(m.h, u) && (u in m'.dead <==> u in m.dead)
  }

  lemma {:induction false} SweepRestExactly(m: Machine, th: nat, k: nat, u: nat)
    requires Fit(m) && th in m.h.stack && IsUpval(m.h.uv, u) && k <= |m.h.open[th]|
    ensures var m' := SweepFrom(m, th, k);
      if u in m.h.open[th][k..] && u in m.dead then u !in m'.h.uv else Untouched(m, m', u)
    decreases |m.h.open[th]| - k
  {
    if k < |m.h.open[th]| {
      var first := m.h.open[th][k];
      assert m.h.open[th][k..] == [first] + m.h.open[th][k + 1..];
      if first !in m.dead {
        SweepRestExactly(m, th, k + 1, u);
      } else {
        TakeOutFit(m, th, k);
        OneOut(m, th, k, u);
        TakeOutList(m, th, k);
        if u == first {
          SweptStaysOut(TakeOut(m, th, k), th, k, u);
        } else {
          SweepRestExactly(TakeOut(m, th, k), th, k, u);
        }
      }
    }
  }

  lemma {:induction false} SweptStaysOut(m: Machine, th: nat, k: nat, u: nat)
    requires Fit(m) && th in m.h.stack && u !in m.h.uv
    ensures u !in SweepFrom(m, th, k).h.uv
    decreases (if th in m.h.open then |m.h.open[th]| else 0) - k
  {
    if k < |m.h.open[th]| {
      if m.h.open[th][k] in m.dead {
        TakeOutRemoves(m, th, k);
        TakeOutFit(m, th, k);
        SweptStaysOut(TakeOut(m, th, k), th, k, u);
      } else {
        SweptStaysOut(m, th, k + 1, u);
      }
    }
  }

  /** The collector may condemn any upvalue that no closure has, and no other. */
  lemma CondemnExactly(m: Machine, us: set<nat>, u: nat)
    requires Fit(m)
    ensures u in Step(m, Condemn(us)).dead <==>
      u in m.dead || (u in us && u in m.h.uv && u != 0 && forall k :: k in m.closures ==> u !in m.closures[k])
    ensures Step(m, Condemn(us)).h == m.h && Step(m, Condemn(us)).closures == m.closures
  {
  }

  class State {
    var stack: map<nat, seq<int>>
    var openupval: map<nat, int>
    var uv: map<nat, UpVal>
    var closures: map<nat, seq<nat>>
    var dead: set<nat>
    ghost var ring: seq<nat>
    ghost var open: map<nat, seq<nat>>

    ghost function TheHeap(): Heap
      reads this
    {
      Heap(stack, openupval, uv, ring, open)
    }

    ghost function Value(): Machine
      reads this
    {
      Machine(TheHeap(), closures, dead)
    }

    constructor ()
      ensures Fit(Value()) && Blank(Value())
    {
      stack, openupval, closures, dead := map[], map[], map[], {};
      uv := map[HEAD := UpVal(Own, NIL, NULL, HEAD, HEAD)];
      ring, open := [HEAD], map[];
    }

    /** unlinkupval. */
    method UnlinkUpval(u: nat)
      requires u in uv && uv[u].next in uv && uv[u].prev in uv
      modifies `uv
      ensures uv == Unlink(old(uv), u)
    {
      uv := uv[uv[u].next := uv[uv[u].next].(prev := uv[u].prev)];
      uv := uv[uv[u].prev := uv[uv[u].prev].(next := uv[u].next)];
    }

    /** luaF_freeupval. */
    method FreeUpval(u: nat)
      requires u in uv && (uv[u].v.Slot? ==> uv[u].next in uv && uv[u].prev in uv)
      modifies `uv, `dead
      ensures uv == (if old(uv)[u].v.Slot? then Unlink(old(uv), u) else old(uv)) - {u} && dead == old(dead) - {u}
    {
      if uv[u].v.Slot? {
        UnlinkUpval(u);
      }
      uv, dead := uv - {u}, dead - {u};
    }

    /** luaF_findupval. */
    method FindUpval(th: nat, level: nat) returns (u: nat)
      requires Inv(TheHeap()) && th in stack && level < |stack[th]|
      modifies this`openupval, this`uv, this`dead, this`ring, this`open
      ensures TheHeap() == Find(old(TheHeap()), th, level).0 && u == Find(old(TheHeap()), th, level).1 && dead == old(dead) - {u}
    {
      var pp, p := NULL, openupval[th];
      ghost var k := 0;
      ListInHeap(TheHeap(), th);
      while p != NULL && uv[p].v.i >= level
        invariant 0 <= k <= |open[th]| && p == Nth(open[th], k) && pp == Nth(open[th], k - 1)
        invariant PlaceFrom(uv, open[th], level, 0) == PlaceFrom(uv, open[th], level, k)
        decreases |open[th]| - k
      {
        assert ChainAt(uv, open[th], th, |stack[th]|, k);
        if uv[p].v.i == level {
          dead := dead - {p};
          return p;
        }
        pp, p, k := p, uv[p].chain, k + 1;
      }
      u := NewName(uv.Keys, HEAD + 1);
      LinkUpval(th, level, pp, p, k, u);
      dead := dead - {u};
    }

    /** A new upvalue is put into both lists. */
    method LinkUpval(th: nat, level: nat, pp: int, p: int, ghost k: nat, u: nat)
      requires Inv(TheHeap()) && th in stack && k <= |open[th]| && u !in uv && u != HEAD
      requires p == Nth(open[th], k) && pp == Nth(open[th], k - 1)
      modifies this`openupval, this`uv, this`ring, this`open
      ensures TheHeap() == AddUpval(old(TheHeap()), th, level, k, u)
    {
      ListInHeap(TheHeap(), th);
      uv := uv[u := UpVal(Slot(th, level), NIL, p, uv[HEAD].next, HEAD)];
      uv := uv[uv[u].next := uv[uv[u].next].(prev := u)];
      uv := uv[HEAD := uv[HEAD].(next := u)];
      if pp == NULL {
        openupval := openupval[th := u];
      } else {
        uv := uv[pp := uv[pp].(chain := u)];
      }
      ring, open := [HEAD, u] + ring[1..], open[th := open[th][..k] + [u] + open[th][k..]];
    }

    /** luaF_close. */
    method Close(th: nat, level: nat)
      requires Fit(Value()) && th in stack
      modifies this`openupval, this`uv, this`dead, this`ring, this`open
      ensures Value() == CloseFrom(old(Value()), th, level)
    {
      ghost var m := Value();
      ListInHeap(TheHeap(), th);
      while openupval[th] != NULL && uv[openupval[th] as nat].v.i >= level
        invariant Fit(Value()) && stack == old(stack) && closures == old(closures)
        invariant openupval[th] == Nth(open[th], 0) && (|open[th]| > 0 ==> OnStack(uv, open[th][0], th))
        invariant CloseFrom(Value(), th, level) == CloseFrom(m, th, level)
        decreases |open[th]|
      {
        TakeOutFit(Value(), th, 0);
        CloseFirst(th);
        ListInHeap(TheHeap(), th);
      }
    }

    /** One turn of luaF_close. */
    method CloseFirst(th: nat)
      requires Inv(TheHeap()) && th in stack && |open[th]| > 0 && openupval[th] == open[th][0]
      modifies this`openupval, this`uv, this`dead, this`ring, this`open
      ensures Value() == TakeOut(old(Value()), th, 0)
    {
      var u: nat := openupval[th];
      RingHas(TheHeap(), th, 0);
      openupval := openupval[th := uv[u].chain];
      if u in dead {
        FreeUpval(u);
      } else {
        OwnValue(u);
      }
      ring, open := Without(ring, IndexIn(ring, u)), open[th := Without(open[th], 0)];
    }

    /** The upvalue leaves the double list, takes over its value, and points to it. */
    method OwnValue(u: nat)
      requires u in uv && uv[u].next in uv && uv[u].prev in uv && uv[u].v.Slot? && HasSlot(stack, uv[u].v.th, uv[u].v.i)
      modifies `uv
      ensures var v := old(uv)[u].v;
        uv == Unlink(old(uv), u)[u := Unlink(old(uv), u)[u].(v := Own, value := stack[v.th][v.i])]
    {
      UnlinkUpval(u);
      uv := uv[u := uv[u].(value := stack[uv[u].v.th][uv[u].v.i])];
      uv := uv[u := uv[u].(v := Own)];
    }

    // ---------- instructions ----------

    /** OP_CLOSURE, with the instructions behind it that name the upvalues. */
    method MakeClosure(k: nat, parent: nat, th: nat, base: nat, captures: seq<Capture>)
      requires Fit(Value()) && CanMake(stack, closures, parent, th, base, captures)
      modifies this
      ensures Value() == Make(old(Value()), k, parent, th, base, captures)
    {
      ParentFits(Value(), parent);
      var upvals := TakeUpvals(ParentOf(closures, parent), th, base, captures);
      closures := closures[k := upvals];
    }

    /** The upvalues for a new closure whose parent has `ps`. */
    method TakeUpvals(ps: seq<nat>, th: nat, base: nat, captures: seq<Capture>) returns (upvals: seq<nat>)
      requires Fit(Value()) && UpvalsFit(uv, ps, dead) && forall a :: a in captures ==> CanTake(stack, ps, th, base, a)
      modifies this`openupval, this`uv, this`dead, this`ring, this`open
      ensures (Value(), upvals) == Take(old(Value()), ps, th, base, captures, |captures|)
    {
      ghost var m := Value();
      upvals := [];
      for j := 0 to |captures|
        invariant (Value(), upvals) == Take(m, ps, th, base, captures, j)
      {
        assert captures[j] in captures && CanTake(m.h.stack, ps, th, base, captures[j]);
        TakeNext(m, Value(), ps, upvals, th, base, captures[j]);
        var u := TakeUpval(ps, th, base, captures[j]);
        upvals := upvals + [u];
      }
    }

    /** One upvalue for a new closure: one that its parent `ps` has, or that of a slot. */
    method TakeUpval(ps: seq<nat>, th: nat, base: nat, a: Capture) returns (u: nat)
      requires Inv(TheHeap()) && CanTake(stack, ps, th, base, a)
      modifies this`openupval, this`uv, this`dead, this`ring, this`open
      ensures (Value(), u) == TakeOne(old(Value()), ps, th, base, a)
    {
      match a {
        case FromParent(b) => u := ps[b];
        case FromSlot(i) =>
          TakeOneSlot(Value(), ps, th, base, i);
          u := FindUpval(th, base + i);
      }
    }

    /** OP_GETUPVAL. */
    method GetUpval(th: nat, i: nat, k: nat, b: nat)
      requires Fit(Value()) && HasSlot(stack, th, i) && HasUp(closures, k, b)
      modifies this`stack
      ensures closures[k][b] in uv && TheHeap() == PutSlot(old(TheHeap()), th, i, Current(old(TheHeap()), closures[k][b]))
    {
      var u := closures[k][b];
      var v := ReadUpval(u);
      stack := stack[th := stack[th][i := v]];
    }

    /** The value that an upvalue points to. */
    method ReadUpval(u: nat) returns (v: int)
      requires Fit(Value()) && exists k :: k in closures && u in closures[k]
      ensures u in uv && v == Current(TheHeap(), u)
    {
      var k :| k in closures && u in closures[k];
      assert UpvalsFit(uv, closures[k], dead);
      match uv[u].v {
        case Own => v := uv[u].value;
        case Slot(th, i) =>
          OpenInRange(TheHeap(), u);
          v := stack[th][i];
      }
    }

    /** OP_SETUPVAL. */
    method SetUpval(th: nat, i: nat, k: nat, b: nat)
      requires Fit(Value()) && HasSlot(stack, th, i) && HasUp(closures, k, b)
      modifies this`stack, this`uv
      ensures closures[k][b] in old(uv) && TheHeap() == Through(old(TheHeap()), closures[k][b], old(stack)[th][i])
    {
      var u := closures[k][b];
      assert UpvalsFit(uv, closures[k], dead);
      match uv[u].v {
        case Own => uv := uv[u := uv[u].(value := stack[th][i])];
        case Slot(t, j) =>
          OpenInRange(TheHeap(), u);
          stack := stack[t := stack[t][j := stack[th][i]]];
      }
    }

    // ---------- the collector ----------

    /** sweeplist on the list of a thread. */
    method SweepOpen(th: nat)
      requires Fit(Value()) && th in stack
      modifies this`openupval, this`uv, this`dead, this`ring, this`open
      ensures Value() == SweepFrom(old(Value()), th, 0)
    {
      ghost var m := Value();
      ghost var k := 0;
      ElementAt(TheHeap(), th, 0);
      var pp, p := NULL, openupval[th];
      while p != NULL
        invariant Fit(Value()) && stack == m.h.stack
        invariant 0 <= k <= |open[th]| && p == Nth(open[th], k) && pp == Nth(open[th], k - 1)
        invariant SweepFrom(Value(), th, k) == SweepFrom(m, th, 0)
        decreases |open[th]| - k
      {
        ElementAt(TheHeap(), th, k);
        var next := uv[p].chain;
        if p in dead {
          TakeOutFit(Value(), th, k);
          TakeOutList(Value(), th, k);
          EraseOpen(th, pp, p, k);
        } else {
          pp, k := p, k + 1;
        }
        p := next;
      }
    }

    /** A dead upvalue is taken out of the list of its thread and freed. */
    method EraseOpen(th: nat, pp: int, p: nat, ghost k: nat)
      requires Inv(TheHeap()) && th in stack && k < |open[th]| && p == open[th][k] && pp == Nth(open[th], k - 1) && p in dead
      modifies this`openupval, this`uv, this`dead, this`ring, this`open
      ensures Value() == TakeOut(old(Value()), th, k)
    {
      RingHas(TheHeap(), th, k);
      ghost var uv0 := uv;
      if pp == NULL {
        openupval := openupval[th := uv[p].chain];
      } else {
        ChainDistinct(uv, open[th], openupval[th], th, |stack[th]|, k);
        uv := uv[pp := uv[pp].(chain := uv[p].chain)];
        SwapLinks(uv0, p, pp);
      }
      FreeUpval(p);
      ring, open := Without(ring, IndexIn(ring, p)), open[th := Without(open[th], k)];
    }

    // ---------- programs ----------

    /** One event. */
    method Do(ev: Event)
      requires Fit(Value())
      modifies this
      ensures Value() == Step(old(Value()), ev)
    {
      match ev {
        case NewThread(th, size) =>
          if th !in stack {
            stack, openupval, open := stack[th := seq(size, i => NIL)], openupval[th := NULL], open[th := []];
          }
        case Assign(th, i, v) =>
          if HasSlot(stack, th, i) {
            stack := stack[th := stack[th][i := v]];
          }
        case GetUpval(th, i, k, b) =>
          if HasSlot(stack, th, i) && HasUp(closures, k, b) {
            GetUpval(th, i, k, b);
          }
        case SetUpval(th, i, k, b) =>
          if HasSlot(stack, th, i) && HasUp(closures, k, b) {
            SetUpval(th, i, k, b);
          }
        case MakeClosure(k, parent, th, base, captures) =>
          if CanMake(stack, closures, parent, th, base, captures) {
            MakeClosure(k, parent, th, base, captures);
          }
        case Close(th, level) =>
          if th in stack && level <= |stack[th]| {
            Close(th, level);
          }
        case Forget(k) => closures := closures - {k};
        case Condemn(us) => dead := dead + set u | u in us && IsUpval(uv, u) && Unused(closures, u);
        case SweepOpen(th) =>
          if th in stack {
            SweepOpen(th);
          }
        case SweepClosed(u) =>
          if u in dead && u in uv && uv[u].v == Own {
            FreeUpval(u);
          }
      }
    }

    /** Any sequence of events: in the end all slots and all closures have the values that they have if every variable
        is one cell that all closures share. */
    method DoAll(events: seq<Event>)
      requires Fit(Value()) && Blank(Value())
      modifies this
      ensures Fit(Value()) && Value() == Steps(old(Value()), events)
      ensures SameValues(Value(), After(Env(map[], map[], map[], map[]), events))
    {
      ghost var m := Value();
      for j := 0 to |events|
        invariant Fit(Value()) && Value() == Steps(m, events[..j])
      {
        Do(events[j]);
        assert events[..j + 1][..|events[..j + 1]| - 1] == events[..j];
      }
      assert events[..|events|] == events;
      SharedCells(m, events);
    }
  }

  /** What is left of the list behind the element that goes. */
  lemma TakeOutList(m: Machine, th: nat, k: nat)
    requires Inv(m.h) && th in m.h.stack && k < |m.h.open[th]|
    ensures var list, list' := m.h.open[th], TakeOut(m, th, k).h.open[th];
      |list'| == |list| - 1 && list'[k..] == list[k + 1..] && Nth(list', k) == Nth(list, k + 1) && Nth(list', k - 1) == Nth(list, k - 1)
    ensures TakeOut(m, th, k).h.stack == m.h.stack
  {
  }

  lemma ElementAt(h: Heap, th: nat, k: nat)
    requires Inv(h) && th in h.stack
    ensures h.head[th] == Nth(h.open[th], 0)
    ensures k < |h.open[th]| ==> OnStack(h.uv, h.open[th][k], th) && h.uv[h.open[th][k]].chain == Nth(h.open[th], k + 1)
  {
    assert k < |h.open[th]| ==> ChainAt(h.uv, h.open[th], th, |h.stack[th]|, k);
  }

  lemma ParentFits(m: Machine, parent: nat)
    requires Fit(m)
    ensures UpvalsFit(m.h.uv, ParentOf(m.closures, parent), m.dead)
  {
    assert parent in m.closures ==> UpvalsFit(m.h.uv, m.closures[parent], m.dead);
  }

  /** The slot of an open upvalue is on the stack. */
  lemma OpenInRange(h: Heap, u: nat)
    requires Inv(h) && IsUpval(h.uv, u) && h.uv[u].v.Slot?
    ensures h.uv[u].v.th in h.stack && h.uv[u].v.i < |h.stack[h.uv[u].v.th]|
  {
    var th := h.uv[u].v.th;
    var j :| 0 <= j < |h.open[th]| && h.open[th][j] == u;
    assert ChainAt(h.uv, h.open[th], th, |h.stack[th]|, j);
  }

  /** The two kinds of links do not interfere. */
  lemma SwapLinks(uv: map<nat, UpVal>, u: nat, pp: nat)
    requires u in uv && pp in uv && u != pp && uv[u].next in uv && uv[u].prev in uv
    ensures Unlink(uv[pp := uv[pp].(chain := uv[u].chain)], u) == Unlink(uv, u)[pp := Unlink(uv, u)[pp].(chain := Unlink(uv, u)[u].chain)]
  {
    var a := Unlink(uv[pp := uv[pp].(chain := uv[u].chain)], u);
    var b := Unlink(uv, u)[pp := Unlink(uv, u)[pp].(chain := Unlink(uv, u)[u].chain)];
    assert a.Keys == b.Keys;
    assert forall x :: x in a ==> a[x] == b[x];
  }
}

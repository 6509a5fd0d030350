/** The program against the collector: every step a running program takes on the heap, and whole
    runs in which these steps and the collector's interleave in any order. */
module GcProgram {
  import opened GcHeap
  import opened GcMark
  import opened GcSweep
  import opened GcPhase
  import opened GcMutator
  import opened GcCollector

  // ---------- allocation ----------

  /** luaC_link for a new table, closure, prototype, thread or closed upvalue. */
  method NewObject(g: Collector, id: nat, kind: Kind, slots: seq<Val>)
    requires Inv(g.Snap()) && id !in g.heap && InRootList(kind) && kind != Udata
    requires kind == Upval(Own) ==> |slots| == 1
    requires forall v :: v in slots ==> LiveVal(g.Snap(), v)
    modifies g
    ensures g.Snap() == LinkAt(old(g.Snap()), 0, id, kind, slots)
    ensures Inv(g.Snap()) && NothingDies(old(g.Snap()), g.Snap())
  {
    LinkKeeps(g.Snap(), 0, id, kind, slots);
    g.Link(0, id, kind, slots);
  }

  /** The place behind the main thread in the root list. */
  method BehindMain(g: Collector) returns (pos: nat)
    requires g.mainthread in g.rootgc
    ensures 0 < pos <= |g.rootgc| && g.rootgc[pos - 1] == g.mainthread
  {
    var i: nat := 0;
    while g.rootgc[i] != g.mainthread
      invariant i < |g.rootgc| && g.mainthread in g.rootgc[i..]
      decreases |g.rootgc| - i
    {
      assert g.rootgc[i..] == [g.rootgc[i]] + g.rootgc[i + 1..];
      i := i + 1;
    }
    pos := i + 1;
  }

  /** luaS_newudata: userdata are linked behind the main thread, at `pos`. */
  method NewUdata(g: Collector, id: nat, slots: seq<Val>) returns (pos: nat)
    requires Inv(g.Snap()) && id !in g.heap
    requires forall v :: v in slots ==> LiveVal(g.Snap(), v)
    modifies g
    ensures 0 < pos <= |old(g.rootgc)| && old(g.rootgc)[pos - 1] == g.mainthread
    ensures g.Snap() == LinkAt(old(g.Snap()), pos, id, Udata, slots)
    ensures Inv(g.Snap()) && NothingDies(old(g.Snap()), g.Snap())
  {
    ghost var s := g.Snap();
    pos := BehindMain(g);
    LinkKeeps(s, pos, id, Udata, slots);
    g.Link(pos, id, Udata, slots);
  }

  /** newlstr */
  method NewString(g: Collector, id: nat, hash: nat)
    requires Inv(g.Snap()) && id !in g.heap
    modifies g
    ensures g.Snap() == LinkString(old(g.Snap()), id, hash)
    ensures Inv(g.Snap()) && NothingDies(old(g.Snap()), g.Snap())
  {
    LinkStringKeeps(g.Snap(), id, hash);
    g.LinkInterned(id, hash);
  }

  /** luaS_newlstr on a string that exists: a dead one is taken back. */
  method UseString(g: Collector, id: nat)
    requires Inv(g.Snap()) && id in g.heap && g.heap[id].kind.Str?
    modifies g`heap
    ensures g.Snap() == (if Dead(old(g.Snap()), id) then Whiten(old(g.Snap()), id) else old(g.Snap()))
    ensures Inv(g.Snap()) && NothingDies(old(g.Snap()), g.Snap()) && Alive(g.Snap(), id)
  {
    if g.IsDead(id) {
      ReviveKeeps(g.Snap(), id);
      g.MakeWhite(id);
    }
  }

  // ---------- stores ----------

  /** A write to a stack: no barrier, since threads are never black.  `slots` is the whole new stack,
      which may have grown, or shrunk to above its open upvalues. */
  method StackWrite(g: Collector, th: nat, slots: seq<Val>)
    requires Inv(g.Snap()) && Alive(g.Snap(), th) && g.heap[th].kind == Thread && Fits(g.Snap(), th, slots)
    requires forall v :: v in slots ==> LiveVal(g.Snap(), v)
    modifies g`heap
    ensures g.Snap() == SetSlots(old(g.Snap()), th, slots)
    ensures Inv(g.Snap()) && NothingDies(old(g.Snap()), g.Snap())
  {
    StoreKeeps(g.Snap(), th, slots);
    g.Write(th, slots);
  }

  /** `r` is `q` with `v` in place `i`, which may be the place behind the last one. */
  ghost predicate EntryStored(q: seq<Val>, r: seq<Val>, i: nat, v: Val) {
    && |r| == (if i < |q| then |q| else |q| + 1) && i < |r| && r[i] == v
    && forall j :: 0 <= j < |q| && j != i ==> r[j] == q[j]
  }

  /** The values of an object with `v` stored in place `i`, or added at the end. */
  function Stored(slots: seq<Val>, i: nat, v: Val): (r: seq<Val>)
    requires i <= |slots|
    ensures EntryStored(slots, r, i, v) && forall x :: x in r ==> x == v || x in slots
  {
    if i < |slots| then slots[i := v] else slots + [v]
  }

  /** What an alive object holds is alive. */
  lemma HeldLive(s: State, o: nat)
    requires Inv(s) && Alive(s, o) && !s.heap[o].kind.Str? && !OnStack(s.heap[o].kind)
    ensures forall x :: x in s.heap[o].slots ==> LiveVal(s, x)
  {
    assert s.heap[o].kind == Upval(Own) ==> s.heap[o].slots == Holds(s.heap, o);
    assert forall x :: x in s.heap[o].slots && x.Ref? ==> PointsTo(s.heap, o, x.id);
  }

  lemma NoListFits(s: State, o: nat, slots: seq<Val>)
    requires Inv(s) && o in s.heap && s.heap[o].kind != Thread
    requires !s.heap[o].kind.Str? && !OnStack(s.heap[o].kind) && (s.heap[o].kind == Upval(Own) ==> |slots| == 1)
    ensures Fits(s, o, slots)
  {
    OnlyThreadsOpen(s.heap, s.uvhead, o);
  }

  /** While marking, what a black object holds is marked. */
  lemma BlackHoldsMarked(s: State, o: nat)
    requires Inv(s) && s.phase == Propagate && o in s.heap && s.heap[o].color == Black
    requires !s.heap[o].kind.Str? && !OnStack(s.heap[o].kind)
    ensures forall x :: x in s.heap[o].slots && x.Ref? ==> Marked(s.heap, x.id)
  {
    assert s.heap[o].kind == Upval(Own) ==> s.heap[o].slots == Holds(s.heap, o);
    forall x | x in s.heap[o].slots && x.Ref?
      ensures Marked(s.heap, x.id)
    {
      assert PointsTo(s.heap, o, x.id);
      BlackNeverPointsToWhite(s, o, x.id);
    }
  }

  lemma StoreNeedsNoBarrier(s: State, o: nat, i: nat, v: Val)
    requires Inv(s) && Alive(s, o) && i <= |s.heap[o].slots| && LiveVal(s, v)
    requires !s.heap[o].kind.Str? && !OnStack(s.heap[o].kind) && s.heap[o].kind != Thread
    requires s.heap[o].color != Black || !(v.Ref? && s.heap[v.id].color.White?)
    ensures NoBarrier(s, o, Stored(s.heap[o].slots, i, v))
  {
    if s.phase == Propagate && s.heap[o].color == Black {
      BlackHoldsMarked(s, o);
    }
  }

  /** The test of the barrier macros: a white value goes into a black object. */
  predicate BarrierTest(h: map<nat, Obj>, o: nat, v: Val)
    requires o in h
  {
    v.Ref? && v.id in h && h[v.id].color.White? && h[o].color == Black
  }

  /** What a store into a table leaves, behind luaC_barriert. */
  ghost predicate TableStored(s: State, u: State, t: nat, i: nat, v: Val)
    requires t in s.heap
  {
    && t in u.heap && EntryStored(s.heap[t].slots, u.heap[t].slots, i, v)
    && var s1 := SetSlots(s, t, u.heap[t].slots);
       u == if BarrierTest(s.heap, t, v) then ToGrayAgain(s1, t) else s1
  }

  /** What a store of `slots` behind luaC_barrier leaves, with `v` the value stored: while marking, the barrier
      marks it; otherwise the object turns white. */
  ghost predicate FieldStored(s: State, u: State, o: nat, slots: seq<Val>, v: Val)
    requires o in s.heap
  {
    var s1 := SetSlots(s, o, slots);
    if !BarrierTest(s.heap, o, v) then u == s1
    else if s.phase == Propagate then Forwarded(s1, u, o, v.id)
    else u == Whiten(s1, o)
  }

  /** A store into a table, behind luaC_barriert. */
  method TableStore(g: Collector, t: nat, i: nat, v: Val)
    requires Inv(g.Snap()) && Alive(g.Snap(), t) && g.heap[t].kind == Table && i <= |g.heap[t].slots|
    requires LiveVal(g.Snap(), v)
    modifies g`heap, g`again
    ensures TableStored(old(g.Snap()), g.Snap(), t, i, v) && (v.Ref? ==> PointsTo(g.heap, t, v.id))
    ensures Inv(g.Snap()) && NothingDies(old(g.Snap()), g.Snap())
  {
    ghost var s0 := g.Snap();
    var slots := Stored(g.heap[t].slots, i, v);
    HeldLive(s0, t);
    NoListFits(s0, t, slots);
    if BarrierTest(g.heap, t, v) {
      StoreBackKeeps(s0, t, slots);
      g.Write(t, slots);
      g.BarrierBack(t);
    } else {
      StoreNeedsNoBarrier(s0, t, i, v);
      StoreKeeps(s0, t, slots);
      g.Write(t, slots);
    }
  }

  /** luaC_barrierf while marking: the value is marked. */
  method MarkForward(g: Collector, o: nat, v: nat)
    requires g.phase == Propagate && IsWhite(g.heap, v) && Alive(g.Snap(), v)
    requires Marking(g.heap, g.gray, g.again, OnHold(g.Snap()) + {o}, AliveSet(g.Snap()))
    modifies g`heap, g`gray
    ensures Forwarded(old(g.Snap()), g.Snap(), o, v)
  {
    ghost var t := g.Snap();
    g.MarkObject(v, OnHold(t) + {o}, AliveSet(t));
  }

  /** A store into a closure, prototype, userdata or closed upvalue, behind luaC_barrier. */
  method FieldStore(g: Collector, o: nat, i: nat, v: Val)
    requires Inv(g.Snap()) && Alive(g.Snap(), o) && i < |g.heap[o].slots| && LiveVal(g.Snap(), v)
    requires !g.heap[o].kind.Str? && !OnStack(g.heap[o].kind)
    requires g.heap[o].kind != Table && g.heap[o].kind != Thread
    modifies g`heap, g`gray
    ensures FieldStored(old(g.Snap()), g.Snap(), o, old(g.heap[o].slots)[i := v], v)
    ensures Inv(g.Snap()) && NothingDies(old(g.Snap()), g.Snap())
  {
    ghost var s0 := g.Snap();
    var slots := g.heap[o].slots[i := v];
    assert slots == Stored(g.heap[o].slots, i, v);
    HeldLive(s0, o);
    NoListFits(s0, o, slots);
    if !BarrierTest(g.heap, o, v) {
      StoreNeedsNoBarrier(s0, o, i, v);
      StoreKeeps(s0, o, slots);
      g.Write(o, slots);
    } else {
      assert slots[i] == v;
      StoreBehindBarrier(g, o, slots, v.id);
    }
  }

  /** The same when the barrier's test succeeds. */
  method StoreBehindBarrier(g: Collector, o: nat, slots: seq<Val>, v: nat)
    requires Inv(g.Snap()) && Fits(g.Snap(), o, slots) && forall x :: x in slots ==> LiveVal(g.Snap(), x)
    requires g.heap[o].color == Black && IsWhite(g.heap, v) && Ref(v) in slots
    requires forall x :: x in slots && x != Ref(v) ==> x in g.heap[o].slots
    modifies g`heap, g`gray
    ensures FieldStored(old(g.Snap()), g.Snap(), o, slots, Ref(v))
    ensures Inv(g.Snap()) && NothingDies(old(g.Snap()), g.Snap())
  {
    if g.phase == Propagate {
      StoreAndMark(g, o, slots, v);
    } else {
      StoreWhitenKeeps(g.Snap(), o, slots);
      g.Write(o, slots);
      g.MakeWhite(o);
    }
  }

  lemma StoredMarked(s: State, o: nat, slots: seq<Val>, v: nat, u: State)
    requires Shape(s) && Fits(s, o, slots) && forall x :: x in s.heap[o].slots && x.Ref? ==> Marked(s.heap, x.id)
    requires forall x :: x in slots && x != Ref(v) ==> x in s.heap[o].slots
    requires Forwarded(SetSlots(s, o, slots), u, o, v)
    ensures forall b :: PointsTo(u.heap, o, b) ==> Marked(u.heap, b)
  {
    SetSlotsPoints(s, o, slots);
    SamePointsTo(SetSlots(s, o, slots).heap, u.heap);
  }

  /** luaC_barrierf has marked the one white object among the new contents. */
  lemma StoreMarked(s: State, o: nat, slots: seq<Val>, v: nat, u: State)
    requires Inv(s) && s.phase == Propagate && Fits(s, o, slots) && s.heap[o].color == Black
    requires forall x :: x in slots ==> LiveVal(s, x)
    requires forall x :: x in slots && x != Ref(v) ==> x in s.heap[o].slots
    requires Forwarded(SetSlots(s, o, slots), u, o, v)
    ensures Inv(u) && NothingDies(s, u)
  {
    StoreThenMark(s, o, slots);
    BlackHoldsMarked(s, o);
    StoredMarked(s, o, slots, v, u);
    StoreCore(s, o, slots);
    BarrierDone(SetSlots(s, o, slots), u, o, v);
  }

  method StoreAndMark(g: Collector, o: nat, slots: seq<Val>, v: nat)
    requires Inv(g.Snap()) && g.phase == Propagate && Fits(g.Snap(), o, slots)
    requires forall x :: x in slots ==> LiveVal(g.Snap(), x)
    requires g.heap[o].color == Black && IsWhite(g.heap, v) && Ref(v) in slots
    requires forall x :: x in slots && x != Ref(v) ==> x in g.heap[o].slots
    modifies g`heap, g`gray
    ensures Forwarded(SetSlots(old(g.Snap()), o, slots), g.Snap(), o, v)
    ensures Inv(g.Snap()) && NothingDies(old(g.Snap()), g.Snap())
  {
    ghost var s0 := g.Snap();
    StoreThenMark(s0, o, slots);
    g.Write(o, slots);
    MarkForward(g, o, v);
    StoreMarked(s0, o, slots, v, g.Snap());
  }

  // ---------- upvalues ----------

  /** What a store through an upvalue leaves. */
  ghost predicate UpvalStored(s: State, t: State, u: nat, v: Val) {
    if IsOpen(s.heap, u) then
      var th, slot := s.heap[u].kind.loc.th, s.heap[u].kind.loc.slot;
      th in s.heap && slot < |s.heap[th].slots| && t == SetSlots(s, th, s.heap[th].slots[slot := v])
    else
      u in s.heap && |s.heap[u].slots| == 1 && FieldStored(s, t, u, [v], v)
  }

  /** OP_SETUPVAL: an open upvalue's value is a stack slot, even of a thread that is dead already; a
      closed one's is its own cell, behind luaC_barrier. */
  method SetUpval(g: Collector, u: nat, v: Val)
    requires Inv(g.Snap()) && Alive(g.Snap(), u) && g.heap[u].kind.Upval? && LiveVal(g.Snap(), v)
    modifies g`heap, g`gray
    ensures Inv(g.Snap()) && NothingDies(old(g.Snap()), g.Snap())
    ensures UpvalStored(old(g.Snap()), g.Snap(), u, v)
    ensures u in g.heap && g.heap[u].kind == old(g.heap[u].kind) && UpvalValue(g.heap, u) == v
  {
    ghost var s := g.Snap();
    if OnStack(g.heap[u].kind) {
      assert IsOpen(g.heap, u);
      SetSlot(g, g.heap[u].kind.loc.th, g.heap[u].kind.loc.slot, v);
    } else {
      assert g.heap[u].slots[0 := v] == [v];
      FieldStore(g, u, 0, v);
    }
    StoredShows(s, g.Snap(), u, v);
  }

  /** The value stored through an upvalue is its value then. */
  lemma StoredShows(s: State, t: State, u: nat, v: Val)
    requires UpvalsOk(s.heap, s.uvhead) && u in s.heap && s.heap[u].kind.Upval? && UpvalStored(s, t, u, v)
    ensures u in t.heap && t.heap[u].kind == s.heap[u].kind && UpvalValue(t.heap, u) == v
  {
    if IsOpen(s.heap, u) {
      assert s.heap[s.heap[u].kind.loc.th].kind == Thread;
    }
  }

  /** A stack slot written through an open upvalue. */
  method SetSlot(g: Collector, th: nat, slot: nat, v: Val)
    requires Inv(g.Snap()) && th in g.heap && g.heap[th].kind == Thread && slot < |g.heap[th].slots| && LiveVal(g.Snap(), v)
    modifies g`heap
    ensures g.Snap() == SetSlots(old(g.Snap()), th, old(g.heap[th].slots)[slot := v])
    ensures Inv(g.Snap()) && NothingDies(old(g.Snap()), g.Snap())
  {
    var slots := g.heap[th].slots[slot := v];
    OpenFits(g.Snap(), th, slots);
    StoreSlotKeeps(g.Snap(), th, slot, v);
    g.Write(th, slots);
  }

  lemma OpenFits(s: State, th: nat, slots: seq<Val>)
    requires Inv(s) && th in s.heap && s.heap[th].kind == Thread && |slots| >= |s.heap[th].slots|
    ensures Fits(s, th, slots)
  {
    forall u | u in s.heap[th].open
      ensures IsOpen(s.heap, u) && s.heap[u].kind.loc.slot < |slots|
    {
      assert IsOpen(s.heap, u) && OnStack(s.heap[u].kind);
    }
  }

  function SlotOf(h: map<nat, Obj>, u: nat): nat
    requires IsOpen(h, u)
  {
    h[u].kind.loc.slot
  }

  lemma OpenListed(s: State, th: nat)
    requires Inv(s) && th in s.heap
    ensures forall u :: u in s.heap[th].open ==> IsOpen(s.heap, u) && s.heap[u].kind.loc.th == th
  {
  }

  /** What luaF_findupval leaves: the upvalue of the slot, alive, or if there was none a new one, in its place. */
  ghost predicate UpvalFound(s: State, t: State, th: nat, slot: nat, id: nat, u: nat) {
    if u in s.heap then
      IsOpen(s.heap, u) && s.heap[u].kind.loc == Stack(th, slot) && t == if Dead(s, u) then Whiten(s, u) else s
    else
      u == id && exists pos: nat :: PlaceOf(s.heap, th, slot, pos) && t == AddOpen(s, id, th, slot, pos)
  }

  lemma PlaceFound(s: State, th: nat, slot: nat, pos: nat)
    requires Inv(s) && th in s.heap && pos <= |s.heap[th].open|
    requires forall i :: 0 <= i < pos ==> IsOpen(s.heap, s.heap[th].open[i]) && SlotOf(s.heap, s.heap[th].open[i]) > slot
    requires pos < |s.heap[th].open| ==> IsOpen(s.heap, s.heap[th].open[pos]) && SlotOf(s.heap, s.heap[th].open[pos]) < slot
    ensures PlaceOf(s.heap, th, slot, pos)
  {
    forall i | pos <= i < |s.heap[th].open|
      ensures IsOpen(s.heap, s.heap[th].open[i]) && s.heap[s.heap[th].open[i]].kind.loc.slot < slot
    {
      assert i > pos ==> HigherOpen(s.heap, th, pos, i);
    }
  }

  /** luaF_findupval: the open upvalue for a stack slot, taken back if it was dead, or a new one. */
  method FindUpval(g: Collector, th: nat, slot: nat, id: nat) returns (u: nat)
    requires Inv(g.Snap()) && Alive(g.Snap(), th) && g.heap[th].kind == Thread && slot < |g.heap[th].slots|
    requires id !in g.heap
    modifies g`heap, g`uvhead
    ensures Inv(g.Snap()) && NothingDies(old(g.Snap()), g.Snap())
    ensures Alive(g.Snap(), u) && g.heap[u].kind == Upval(Stack(th, slot))
    ensures UpvalFound(old(g.Snap()), g.Snap(), th, slot, id, u)
  {
    var pos: nat := 0;
    OpenListed(g.Snap(), th);
    while pos < |g.heap[th].open| && SlotOf(g.heap, g.heap[th].open[pos]) > slot
      invariant pos <= |g.heap[th].open|
      invariant forall i :: 0 <= i < pos ==> IsOpen(g.heap, g.heap[th].open[i]) && SlotOf(g.heap, g.heap[th].open[i]) > slot
    {
      pos := pos + 1;
    }
    if pos < |g.heap[th].open| && SlotOf(g.heap, g.heap[th].open[pos]) == slot {
      u := g.heap[th].open[pos];
      assert u in g.heap[th].open;
      if g.IsDead(u) {
        ReviveKeeps(g.Snap(), u);
        g.MakeWhite(u);
      }
    } else {
      u := id;
      PlaceFound(g.Snap(), th, slot, pos);
      AddOpenKeeps(g.Snap(), id, th, slot, pos);
      g.LinkOpen(id, th, slot, pos);
    }
  }

  /** What luaF_close makes of one open upvalue: a dead one is freed; another is closed with the value of its slot.
      While marking a gray one turns black, and its value is marked. */
  ghost predicate OneClosed(s: State, t: State, u: nat) {
    && IsOpen(s.heap, u) && s.heap[u].kind.loc.th in s.heap && s.heap[u].kind.loc.th != u
    && if Dead(s, u) then t == FreeUpval(s, u)
       else if s.phase == Propagate then ClosedMarking(s, t, u)
       else t == CloseUpval(s, u, White(s.white))
  }

  ghost predicate ClosedMarking(s: State, t: State, u: nat)
    requires IsOpen(s.heap, u) && s.heap[u].kind.loc.th in s.heap && s.heap[u].kind.loc.th != u
  {
    var v := UpvalValue(s.heap, u);
    if s.heap[u].color == Gray then
      if v.Ref? && IsWhite(s.heap, v.id) then Forwarded(CloseUpval(s, u, Black), t, u, v.id) else t == CloseUpval(s, u, Black)
    else t == CloseUpval(s, u, s.heap[u].color)
  }

  /** The body of the loop of luaF_close. */
  method CloseFirst(g: Collector, th: nat)
    requires Inv(g.Snap()) && Alive(g.Snap(), th) && g.heap[th].open != []
    modifies g
    ensures Inv(g.Snap()) && NothingDies(old(g.Snap()), g.Snap())
    ensures OneClosed(old(g.Snap()), g.Snap(), old(g.heap[th].open[0]))
    ensures th in g.heap && g.heap[th].open == old(g.heap[th].open[1..])
  {
    ghost var s := g.Snap();
    var u := g.heap[th].open[0];
    FirstOpen(g.heap, g.uvhead, th);
    if g.IsDead(u) {
      FreeUpvalInv(s, u);
      g.FreeOpenUpval(u);
    } else if g.phase == Propagate {
      CloseMarking(g, u);
    } else {
      CloseUpvalInv(s, u);
      g.CloseOpenUpval(u);
    }
  }

  /** While marking, closing an upvalue needs no barrier if it is white or its value is not. */
  lemma CloseNoBarrier(s: State, u: nat, c: Color)
    requires Inv(s) && IsOpen(s.heap, u) && s.phase == Propagate
    requires c == if s.heap[u].color == Gray then Black else s.heap[u].color
    requires s.heap[u].kind.loc.th in s.heap && s.heap[u].kind.loc.th != u
    requires var t := CloseUpval(s, u, c);
      c == Black ==> forall b :: PointsTo(t.heap, u, b) ==> Marked(t.heap, b)
    ensures Inv(CloseUpval(s, u, c)) && NothingDies(s, CloseUpval(s, u, c))
  {
    CloseWhileMarking(s, u, c);
    SettleClosed(CloseUpval(s, u, c), u);
  }

  /** An object that is black with marked contents, or white, needs no exemption. */
  lemma SettleClosed(t: State, u: nat)
    requires Core(t) && NoneDead(t) && t.phase == Propagate && Marked(t.heap, t.mainthread) && Marked(t.heap, t.registry)
    requires Marking(t.heap, t.gray, t.again, OnHold(t) + {u}, AliveSet(t)) && u in t.heap
    requires t.heap[u].color.White? || (t.heap[u].color == Black && forall b :: PointsTo(t.heap, u, b) ==> Marked(t.heap, b))
    ensures Inv(t)
  {
    if t.heap[u].color == Black {
      Settle(t.heap, t.gray, t.again, u, OnHold(t), AliveSet(t));
    } else {
      Exempt(t.heap, t.gray, t.again, OnHold(t) + {u}, OnHold(t), AliveSet(t));
    }
  }

  lemma ClosedMarked(s: State, u: nat, w: State, v: nat)
    requires IsOpen(s.heap, u) && s.heap[u].kind.loc.th in s.heap && s.heap[u].kind.loc.th != u
    requires Forwarded(CloseUpval(s, u, Black), w, u, v) && UpvalValue(s.heap, u) == Ref(v)
    ensures u in w.heap && w.heap[u].color == Black
    ensures forall b :: PointsTo(w.heap, u, b) ==> Marked(w.heap, b)
  {
    var t := CloseUpval(s, u, Black);
    SamePointsTo(t.heap, w.heap);
    assert Holds(t.heap, u) == [Ref(v)];
  }

  /** Otherwise the barrier marks the value. */
  lemma CloseBarrier(s: State, u: nat, w: State, v: nat)
    requires Inv(s) && IsOpen(s.heap, u) && s.phase == Propagate && s.heap[u].color == Gray
    requires s.heap[u].kind.loc.th in s.heap && s.heap[u].kind.loc.th != u
    requires Forwarded(CloseUpval(s, u, Black), w, u, v) && UpvalValue(s.heap, u) == Ref(v)
    ensures Inv(w) && NothingDies(s, w)
  {
    CloseWhileMarking(s, u, Black);
    ClosedMarked(s, u, w, v);
    BarrierDone(CloseUpval(s, u, Black), w, u, v);
  }

  /** luaF_close on one upvalue while marking: a gray one turns black and its value is marked. */
  method CloseMarking(g: Collector, u: nat)
    requires Inv(g.Snap()) && g.phase == Propagate && IsOpen(g.heap, u)
    requires g.heap[u].kind.loc.th in g.heap && g.heap[u].kind.loc.th != u
    modifies g
    ensures Inv(g.Snap()) && NothingDies(old(g.Snap()), g.Snap()) && ClosedMarking(old(g.Snap()), g.Snap(), u)
    ensures old(g.heap[u].kind.loc.th) in g.heap
    ensures g.heap[old(g.heap[u].kind.loc.th)].open == Minus(old(g.heap[g.heap[u].kind.loc.th].open), u)
  {
    ghost var s := g.Snap();
    var v := UpvalValue(g.heap, u);
    if g.heap[u].color == Gray && v.Ref? && IsWhite(g.heap, v.id) {
      CloseAndMark(g, u, v.id);
    } else {
      var c := if g.heap[u].color == Gray then Black else g.heap[u].color;
      QuietlyClosed(s, u, c);
      g.CloseMarked(u, c);
    }
  }

  lemma QuietlyClosed(s: State, u: nat, c: Color)
    requires Inv(s) && IsOpen(s.heap, u) && s.phase == Propagate
    requires c == if s.heap[u].color == Gray then Black else s.heap[u].color
    requires s.heap[u].kind.loc.th in s.heap && s.heap[u].kind.loc.th != u
    requires s.heap[u].color == Gray ==> var v := UpvalValue(s.heap, u); !(v.Ref? && IsWhite(s.heap, v.id))
    ensures var t := CloseUpval(s, u, c);
      && Inv(t) && NothingDies(s, t) && s.heap[u].kind.loc.th in t.heap
      && t.heap[s.heap[u].kind.loc.th].open == Minus(s.heap[s.heap[u].kind.loc.th].open, u)
  {
    CloseUpvalPoints(s, u, c);
    ClosedHolds(s, u, c);
    CloseNoBarrier(s, u, c);
  }

  lemma ClosedHolds(s: State, u: nat, c: Color)
    requires Inv(s) && IsOpen(s.heap, u) && s.phase == Propagate && c == if s.heap[u].color == Gray then Black else s.heap[u].color
    requires s.heap[u].kind.loc.th in s.heap && s.heap[u].kind.loc.th != u
    requires s.heap[u].color == Gray ==> var v := UpvalValue(s.heap, u); !(v.Ref? && IsWhite(s.heap, v.id))
    ensures c == Black ==> forall b :: PointsTo(CloseUpval(s, u, c).heap, u, b) ==> Marked(CloseUpval(s, u, c).heap, b)
  {
    var t := CloseUpval(s, u, c);
    assert s.heap[u].color != Black;
    if c == Black {
      forall b | PointsTo(t.heap, u, b)
        ensures Marked(t.heap, b)
      {
        assert UpvalValue(s.heap, u) == Ref(b) && PointsTo(s.heap, u, b);
        assert IsRoot(s, s.mainthread) && Alive(s, u);
      }
    }
  }

  method CloseAndMark(g: Collector, u: nat, v: nat)
    requires Inv(g.Snap()) && g.phase == Propagate && IsOpen(g.heap, u) && g.heap[u].color == Gray
    requires g.heap[u].kind.loc.th in g.heap && g.heap[u].kind.loc.th != u
    requires UpvalValue(g.heap, u) == Ref(v) && IsWhite(g.heap, v)
    modifies g
    ensures Inv(g.Snap()) && NothingDies(old(g.Snap()), g.Snap())
    ensures Forwarded(CloseUpval(old(g.Snap()), u, Black), g.Snap(), u, v)
    ensures old(g.heap[u].kind.loc.th) in g.heap
    ensures g.heap[old(g.heap[u].kind.loc.th)].open == Minus(old(g.heap[g.heap[u].kind.loc.th].open), u)
  {
    ghost var s := g.Snap();
    CloseAndForward(g, u, v);
    CloseBarrier(s, u, g.Snap(), v);
    ForwardedLists(s, u, g.Snap(), v);
  }

  method CloseAndForward(g: Collector, u: nat, v: nat)
    requires Inv(g.Snap()) && g.phase == Propagate && IsOpen(g.heap, u) && g.heap[u].color == Gray
    requires g.heap[u].kind.loc.th in g.heap && g.heap[u].kind.loc.th != u && IsWhite(g.heap, v) && Alive(g.Snap(), v)
    modifies g
    ensures Forwarded(CloseUpval(old(g.Snap()), u, Black), g.Snap(), u, v)
  {
    CloseWhileMarking(g.Snap(), u, Black);
    ClosedStillWhite(g.Snap(), u, v);
    g.CloseMarked(u, Black);
    MarkForward(g, u, v);
  }

  lemma ClosedStillWhite(s: State, u: nat, v: nat)
    requires IsOpen(s.heap, u) && s.heap[u].kind.loc.th in s.heap && s.heap[u].kind.loc.th != u
    requires s.heap[u].color == Gray && IsWhite(s.heap, v) && Alive(s, v)
    ensures IsWhite(CloseUpval(s, u, Black).heap, v) && Alive(CloseUpval(s, u, Black), v)
  {
  }

  /** Marking does not touch the lists of open upvalues. */
  lemma ForwardedLists(s: State, u: nat, w: State, v: nat)
    requires IsOpen(s.heap, u) && s.heap[u].kind.loc.th in s.heap && s.heap[u].kind.loc.th != u
    requires Forwarded(CloseUpval(s, u, Black), w, u, v)
    ensures var th := s.heap[u].kind.loc.th; th in w.heap && w.heap[th].open == Minus(s.heap[th].open, u)
  {
  }

  /** The first open upvalue of a thread, if its slot is at `level` or above. */
  ghost predicate ToClose(s: State, th: nat, level: nat) {
    th in s.heap && s.heap[th].open != [] && !SlotBelow(s.heap, s.heap[th].open[0], level)
  }

  ghost predicate ClosedAt(steps: seq<State>, th: nat, level: nat, i: int) {
    0 <= i < |steps| - 1 && Inv(steps[i]) && ToClose(steps[i], th, level) && OneClosed(steps[i], steps[i + 1], steps[i].heap[th].open[0])
  }

  /** luaF_close closed one upvalue after the other, as long as there was one to close. */
  ghost predicate ClosedFrom(steps: seq<State>, th: nat, level: nat) {
    && |steps| > 0 && !ToClose(steps[|steps| - 1], th, level)
    && forall i {:trigger ClosedAt(steps, th, level, i)} :: 0 <= i < |steps| - 1 ==> ClosedAt(steps, th, level, i)
  }

  /** luaF_close: closes the open upvalues of a thread from its newest down to `level`. */
  method CloseUpvals(g: Collector, th: nat, level: nat) returns (ghost steps: seq<State>)
    requires Inv(g.Snap()) && Alive(g.Snap(), th)
    modifies g
    ensures Inv(g.Snap()) && NothingDies(old(g.Snap()), g.Snap())
    ensures ClosedFrom(steps, th, level) && steps[0] == old(g.Snap()) && steps[|steps| - 1] == g.Snap()
    ensures th in g.heap && forall u :: u in g.heap[th].open ==> SlotBelow(g.heap, u, level)
  {
    steps := [g.Snap()];
    while g.heap[th].open != [] && !SlotBelow(g.heap, g.heap[th].open[0], level)
      invariant Inv(g.Snap()) && NothingDies(old(g.Snap()), g.Snap()) && Alive(g.Snap(), th)
      invariant |steps| > 0 && steps[0] == old(g.Snap()) && steps[|steps| - 1] == g.Snap()
      invariant forall i {:trigger ClosedAt(steps, th, level, i)} :: 0 <= i < |steps| - 1 ==> ClosedAt(steps, th, level, i)
      decreases |g.heap[th].open|
    {
      CloseFirst(g, th);
      ClosedMore(steps, th, level, g.Snap());
      steps := steps + [g.Snap()];
    }
    OthersBelow(g.Snap(), th, level);
  }

  /** If the first open upvalue is below the level, all are. */
  lemma OthersBelow(s: State, th: nat, level: nat)
    requires Inv(s) && th in s.heap && (s.heap[th].open == [] || SlotBelow(s.heap, s.heap[th].open[0], level))
    ensures forall u :: u in s.heap[th].open ==> SlotBelow(s.heap, u, level)
  {
    forall u | u in s.heap[th].open
      ensures SlotBelow(s.heap, u, level)
    {
      var i :| 0 <= i < |s.heap[th].open| && s.heap[th].open[i] == u;
      assert i > 0 ==> HigherOpen(s.heap, th, 0, i);
    }
  }

  lemma ClosedMore(steps: seq<State>, th: nat, level: nat, t: State)
    requires |steps| > 0 && forall i {:trigger ClosedAt(steps, th, level, i)} :: 0 <= i < |steps| - 1 ==> ClosedAt(steps, th, level, i)
    requires var s := steps[|steps| - 1]; Inv(s) && ToClose(s, th, level) && OneClosed(s, t, s.heap[th].open[0])
    ensures forall i {:trigger ClosedAt(steps + [t], th, level, i)} :: 0 <= i < |steps| ==> ClosedAt(steps + [t], th, level, i)
  {
    forall i {:trigger ClosedAt(steps + [t], th, level, i)} | 0 <= i < |steps|
      ensures ClosedAt(steps + [t], th, level, i)
    {
      assert i < |steps| - 1 ==> ClosedAt(steps, th, level, i);
    }
  }

  predicate SlotBelow(h: map<nat, Obj>, u: nat, level: nat) {
    IsOpen(h, u) && SlotOf(h, u) < level
  }

  // ---------- roots ----------

  /** Resuming a coroutine, and setting the metatable of a basic type: roots change, no barrier. */
  method SetRoots(g: Collector, running: nat, mt: seq<Val>)
    requires Inv(g.Snap()) && Alive(g.Snap(), running) && g.heap[running].kind == Thread
    requires forall v :: v in mt ==> LiveVal(g.Snap(), v)
    modifies g`running, g`mt
    ensures g.Snap() == old(g.Snap()).(running := running, mt := mt)
    ensures Inv(g.Snap()) && NothingDies(old(g.Snap()), g.Snap())
  {
    RootsKeep(g.Snap(), g.Snap().(running := running, mt := mt));
    g.running, g.mt := running, mt;
  }

  // ---------- whole runs ----------

  /** One step of a run. */
  datatype Event =
    | Collect
    | CollectAll
    | Allocate(id: nat, kind: Kind, slots: seq<Val>)
    | Intern(id: nat, hash: nat)
    | TakeString(id: nat)
    | SetStack(th: nat, stack: seq<Val>)
    | SetTable(t: nat, i: nat, v: Val)
    | SetField(o: nat, i: nat, v: Val)
    | SetUp(u: nat, v: Val)
    | Capture(th: nat, slot: nat, id: nat)
    | CloseFrom(th: nat, level: nat)
    | Switch(th: nat, mt: seq<Val>)

  /** The program only handles what it can reach or has just obtained, which is alive; it allocates
      at free addresses and stores into places that exist. */
  predicate Enabled(s: State, e: Event) {
    match e
    case Collect => true
    case CollectAll => true
    case Allocate(id, kind, slots) =>
      && id !in s.heap && InRootList(kind) && (kind == Upval(Own) ==> |slots| == 1)
      && forall v :: v in slots ==> LiveVal(s, v)
    case Intern(id, hash) => id !in s.heap
    case TakeString(id) => id in s.heap && s.heap[id].kind.Str?
    case SetStack(th, stack) =>
      Alive(s, th) && s.heap[th].kind == Thread && Fits(s, th, stack) && forall v :: v in stack ==> LiveVal(s, v)
    case SetTable(t, i, v) => Alive(s, t) && s.heap[t].kind == Table && i <= |s.heap[t].slots| && LiveVal(s, v)
    case SetField(o, i, v) =>
      && Alive(s, o) && i < |s.heap[o].slots| && LiveVal(s, v)
      && (s.heap[o].kind == Closure || s.heap[o].kind == Proto || s.heap[o].kind == Udata)
    case SetUp(u, v) => Alive(s, u) && s.heap[u].kind.Upval? && LiveVal(s, v)
    case Capture(th, slot, id) =>
      Alive(s, th) && s.heap[th].kind == Thread && slot < |s.heap[th].slots| && id !in s.heap
    case CloseFrom(th, level) => Alive(s, th)
    case Switch(th, mt) => Alive(s, th) && s.heap[th].kind == Thread && forall v :: v in mt ==> LiveVal(s, v)
  }

  /** What luaC_fullgc leaves: all that was reachable, as it was, and nothing else but fixed strings and threads. */
  ghost predicate FullyCollected(s: State, t: State) {
    t.phase == Pause && SameView(s, t, ReachSet(s)) && forall id :: id in t.heap ==> Reachable(s, id) || t.heap[id].fixed
  }

  /** What a step of the collector leaves. */
  ghost predicate CollectedStep(s: State, t: State) {
    Collects(s, t) && if s.phase == Pause then t.phase == Propagate else Progress(s, t)
  }

  /** Userdata are linked behind the main thread, other objects at the head of the list. */
  ghost predicate Allocated(s: State, t: State, id: nat, kind: Kind, slots: seq<Val>) {
    if kind == Udata then
      exists pos: nat :: 0 < pos <= |s.rootgc| && s.rootgc[pos - 1] == s.mainthread && t == LinkAt(s, pos, id, kind, slots)
    else t == LinkAt(s, 0, id, kind, slots)
  }

  ghost predicate Closes(s: State, t: State, th: nat, level: nat) {
    exists steps: seq<State> :: ClosedFrom(steps, th, level) && steps[0] == s && steps[|steps| - 1] == t
  }

  /** What an event that is possible makes of the state. */
  ghost predicate Makes(s: State, e: Event, t: State)
    requires Inv(s) && Enabled(s, e)
  {
    match e
    case Collect => CollectedStep(s, t)
    case CollectAll => FullyCollected(s, t)
    case Allocate(id, kind, slots) => Allocated(s, t, id, kind, slots)
    case Intern(id, hash) => t == LinkString(s, id, hash)
    case TakeString(id) => t == if Dead(s, id) then Whiten(s, id) else s
    case SetStack(th, stack) => t == SetSlots(s, th, stack)
    case SetTable(o, i, v) => TableStored(s, t, o, i, v)
    case SetField(o, i, v) => FieldStored(s, t, o, s.heap[o].slots[i := v], v)
    case SetUp(u, v) => UpvalStored(s, t, u, v)
    case Capture(th, slot, id) => exists u: nat :: UpvalFound(s, t, th, slot, id, u)
    case CloseFrom(th, level) => Closes(s, t, th, level)
    case Switch(th, mt) => t == s.(running := th, mt := mt)
  }

  /** What an event makes of the state; one that makes no sense in the state is passed over. */
  ghost predicate Stepped(s: State, e: Event, t: State) {
    Inv(s) && if Enabled(s, e) then Makes(s, e, t) else t == s
  }

  /** The promise of the collector about one step: nothing the program can reach is freed. */
  ghost predicate Safe(s: State, t: State) {
    forall id :: Reachable(s, id) ==> id in t.heap
  }

  lemma NothingDiesSafe(s: State, t: State)
    requires Inv(s) && (NothingDies(s, t) || Collects(s, t))
    ensures Safe(s, t)
  {
    forall id | Reachable(s, id)
      ensures id in t.heap
    {
      ReachableIsAlive(s, id);
      assert Alive(s, id);
    }
  }

  /** Performs one step of a run. */
  method Perform(g: Collector, e: Event)
    requires Inv(g.Snap()) && Enabled(g.Snap(), e)
    modifies g
    ensures Inv(g.Snap()) && Safe(old(g.Snap()), g.Snap()) && Makes(old(g.Snap()), e, g.Snap())
  {
    match e {
      case Collect => g.SingleStep();
      case CollectAll =>
        g.FullGC();
        return;
      case Allocate(id, kind, slots) =>
        if kind == Udata {
          var pos := NewUdata(g, id, slots);
        } else {
          NewObject(g, id, kind, slots);
        }
      case Intern(id, hash) => NewString(g, id, hash);
      case TakeString(id) => UseString(g, id);
      case SetStack(th, stack) => StackWrite(g, th, stack);
      case SetTable(_, _, _) => PerformStore(g, e);
      case SetField(_, _, _) => PerformStore(g, e);
      case SetUp(_, _) => PerformStore(g, e);
      case Capture(th, slot, id) => var u := FindUpval(g, th, slot, id);
      case CloseFrom(th, level) =>
        ghost var steps := CloseUpvals(g, th, level);
        assert ClosedFrom(steps, th, level);
      case Switch(th, mt) => SetRoots(g, th, mt);
    }
    NothingDiesSafe(old(g.Snap()), g.Snap());
  }

  /** A store into an object. */
  method PerformStore(g: Collector, e: Event)
    requires Inv(g.Snap()) && Enabled(g.Snap(), e) && (e.SetTable? || e.SetField? || e.SetUp?)
    modifies g
    ensures Inv(g.Snap()) && NothingDies(old(g.Snap()), g.Snap()) && Makes(old(g.Snap()), e, g.Snap())
  {
    match e
    case SetTable(t, i, v) => TableStore(g, t, i, v);
    case SetField(o, i, v) => FieldStore(g, o, i, v);
    case SetUp(u, v) => SetUpval(g, u, v);
  }

  /** One turn of a run; an event that makes no sense in the current state is passed over. */
  method Turn(g: Collector, e: Event)
    requires Inv(g.Snap())
    modifies g
    ensures TurnOk(old(g.Snap()), e, g.Snap())
  {
    if Enabled(g.Snap(), e) {
      Perform(g, e);
    } else {
      NothingDiesSafe(g.Snap(), g.Snap());
    }
  }

  /** The event does what it should, the new state is sound, and no reachable object was freed. */
  ghost predicate TurnOk(s: State, e: Event, t: State) {
    Stepped(s, e, t) && Inv(t) && Safe(s, t)
  }

  ghost predicate TurnAt(trace: seq<State>, events: seq<Event>, i: int) {
    0 <= i < |events| && i + 1 < |trace| && TurnOk(trace[i], events[i], trace[i + 1])
  }

  /** The states of a run: each comes from the one before by the event. */
  ghost predicate RunOf(trace: seq<State>, events: seq<Event>) {
    && |trace| == |events| + 1 && Inv(trace[0])
    && forall i {:trigger TurnAt(trace, events, i)} :: 0 <= i < |events| ==> TurnAt(trace, events, i)
  }

  lemma RunMore(trace: seq<State>, events: seq<Event>, e: Event, t: State)
    requires RunOf(trace, events) && TurnOk(trace[|trace| - 1], e, t)
    ensures RunOf(trace + [t], events + [e])
  {
    forall i {:trigger TurnAt(trace + [t], events + [e], i)} | 0 <= i < |events + [e]|
      ensures TurnAt(trace + [t], events + [e], i)
    {
      assert i < |events| ==> TurnAt(trace, events, i);
    }
  }

  /** While marking, no black object points to a white one. */
  ghost predicate ColourRule(s: State) {
    s.phase == Propagate ==> forall a, b :: PointsTo(s.heap, a, b) && s.heap[a].color == Black ==> Marked(s.heap, b)
  }

  lemma RunColours(trace: seq<State>, events: seq<Event>, i: int)
    requires RunOf(trace, events) && 0 <= i < |trace|
    ensures Inv(trace[i]) && ColourRule(trace[i])
  {
    assert i > 0 ==> TurnAt(trace, events, i - 1);
    var s := trace[i];
    forall a, b | s.phase == Propagate && PointsTo(s.heap, a, b) && s.heap[a].color == Black
      ensures Marked(s.heap, b)
    {
      BlackNeverPointsToWhite(s, a, b);
    }
  }

  method TurnMore(g: Collector, e: Event, ghost trace: seq<State>, ghost events: seq<Event>) returns (ghost trace': seq<State>)
    requires RunOf(trace, events) && trace[|events|] == g.Snap()
    modifies g
    ensures RunOf(trace', events + [e]) && trace'[0] == trace[0] && trace'[|events| + 1] == g.Snap()
  {
    ghost var s := g.Snap();
    LastSound(trace, events);
    Turn(g, e);
    assert TurnOk(s, e, g.Snap());
    RunMore(trace, events, e, g.Snap());
    trace' := trace + [g.Snap()];
  }

  lemma LastSound(trace: seq<State>, events: seq<Event>)
    requires RunOf(trace, events)
    ensures Inv(trace[|events|])
  {
    assert events != [] ==> TurnAt(trace, events, |events| - 1);
  }

  /** A run of the program with the collector: any events in any order.  Every step does what its event says, in
      every step whatever is reachable survives, and in no state a black object points to a white one. */
  method Run(g: Collector, events: seq<Event>) returns (ghost trace: seq<State>)
    requires Inv(g.Snap())
    modifies g
    ensures RunOf(trace, events) && trace[0] == old(g.Snap()) && trace[|events|] == g.Snap()
    ensures forall i :: 0 <= i < |events| ==> Stepped(trace[i], events[i], trace[i + 1]) && Safe(trace[i], trace[i + 1])
    ensures forall i :: 0 <= i < |trace| ==> ColourRule(trace[i])
  {
    trace := [g.Snap()];
    ghost var done: seq<Event> := [];
    for k := 0 to |events|
      invariant done == events[..k] && RunOf(trace, done) && trace[0] == old(g.Snap()) && trace[k] == g.Snap()
    {
      trace := TurnMore(g, events[k], trace, done);
      done := done + [events[k]];
    }
    assert done == events;
    RunIs(trace, done);
  }

  lemma RunIs(trace: seq<State>, events: seq<Event>)
    requires RunOf(trace, events)
    ensures forall i :: 0 <= i < |events| ==> Stepped(trace[i], events[i], trace[i + 1]) && Safe(trace[i], trace[i + 1])
    ensures forall i :: 0 <= i < |trace| ==> ColourRule(trace[i])
  {
    forall i | 0 <= i < |events|
      ensures Stepped(trace[i], events[i], trace[i + 1]) && Safe(trace[i], trace[i + 1])
    {
      assert TurnAt(trace, events, i);
    }
    forall i | 0 <= i < |trace|
      ensures ColourRule(trace[i])
    {
      RunColours(trace, events, i);
    }
  }
}

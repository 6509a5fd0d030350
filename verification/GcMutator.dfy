/** The program's steps on the heap: allocation, stores behind barriers, and what they keep. */
module GcMutator {
  import opened Numbers
  import opened GcHeap
  import opened GcMark
  import opened GcSweep
  import opened GcPhase

  /** What a step of the program does not do: nothing alive dies. */
  ghost predicate NothingDies(s: State, t: State) {
    forall id :: Alive(s, id) ==> Alive(t, id)
  }

  // ---------- allocation ----------

  function InsertAt(q: seq<nat>, pos: nat, x: nat): (r: seq<nat>)
    requires pos <= |q|
    ensures |r| == |q| + 1 && r[pos] == x && r[..pos] == q[..pos] && r[pos + 1..] == q[pos..]
    ensures forall y :: y in r <==> y == x || y in q
  {
    assert forall y :: y in q <==> y in q[..pos] || y in q[pos..];
    q[..pos] + [x] + q[pos..]
  }

  /** luaC_link (at the head) and luaS_newudata (behind the main thread): a new object in the current
      white joins the root list; the sweep cursor keeps its place. */
  function LinkAt(s: State, pos: nat, id: nat, kind: Kind, slots: seq<Val>): State
    requires pos <= |s.rootgc|
  {
    s.(heap := s.heap[id := Obj(kind, White(s.white), false, slots, [])],
       rootgc := InsertAt(s.rootgc, pos, id),
       sweepgc := if s.sweepgc <= pos then s.sweepgc else s.sweepgc + 1)
  }

  lemma InsertNoDup(q: seq<nat>, pos: nat, x: nat)
    requires NoDup(q) && pos <= |q| && x !in q
    ensures NoDup(InsertAt(q, pos, x))
  {
  }

  lemma LinkShape(s: State, pos: nat, id: nat, kind: Kind, slots: seq<Val>)
    requires Shape(s) && pos <= |s.rootgc| && id !in s.heap && InRootList(kind)
    requires kind == Upval(Own) ==> |slots| == 1
    ensures Shape(LinkAt(s, pos, id, kind, slots))
  {
    InsertNoDup(s.rootgc, pos, id);
    LinkRootList(s, pos, id, kind, slots);
    LinkStrings(s, pos, id, kind, slots);
    LinkUpvals(s.heap, s.uvhead, id, Obj(kind, White(s.white), false, slots, []));
    LinkRoots(s, pos, id, kind, slots);
    LinkSorted(s.heap, id, Obj(kind, White(s.white), false, slots, []));
  }

  lemma LinkSorted(h: map<nat, Obj>, id: nat, o: Obj)
    requires OpenSorted(h) && id !in h && o.open == []
    ensures OpenSorted(h[id := o])
  {
    SortedKept(h, h[id := o]);
  }

  lemma LinkRoots(s: State, pos: nat, id: nat, kind: Kind, slots: seq<Val>)
    requires RootsOk(s) && pos <= |s.rootgc| && id !in s.heap
    ensures RootsOk(LinkAt(s, pos, id, kind, slots))
  {
  }

  lemma LinkRootList(s: State, pos: nat, id: nat, kind: Kind, slots: seq<Val>)
    requires RootListOk(s) && pos <= |s.rootgc| && id !in s.heap && InRootList(kind)
    ensures RootListOk(LinkAt(s, pos, id, kind, slots))
  {
    InsertNoDup(s.rootgc, pos, id);
  }

  lemma LinkStrings(s: State, pos: nat, id: nat, kind: Kind, slots: seq<Val>)
    requires StringsOk(s) && pos <= |s.rootgc| && id !in s.heap && InRootList(kind)
    ensures StringsOk(LinkAt(s, pos, id, kind, slots))
  {
  }

  lemma LinkUpvals(h: map<nat, Obj>, uvhead: seq<nat>, id: nat, o: Obj)
    requires UpvalsOk(h, uvhead) && id !in h && !OnStack(o.kind) && o.open == [] && (o.kind == Upval(Own) ==> |o.slots| == 1)
    ensures UpvalsOk(h[id := o], uvhead)
  {
  }

  lemma LinkPoints(s: State, pos: nat, id: nat, kind: Kind, slots: seq<Val>)
    requires UpvalsOk(s.heap, s.uvhead) && pos <= |s.rootgc| && id !in s.heap && InRootList(kind)
    ensures forall a, b :: a != id ==>
      (PointsTo(LinkAt(s, pos, id, kind, slots).heap, a, b) <==> PointsTo(s.heap, a, b))
    ensures forall b :: PointsTo(LinkAt(s, pos, id, kind, slots).heap, id, b) ==> Ref(b) in slots
  {
    var t := LinkAt(s, pos, id, kind, slots);
    forall a | a in s.heap
      ensures Holds(t.heap, a) == Holds(s.heap, a)
    {
      SameHolds(s.heap, t.heap, a);
    }
  }

  /** `t` is `s` with one new object in the current white, which holds live values only. */
  ghost predicate Added(s: State, t: State, id: nat) {
    && id !in s.heap && t.heap.Keys == s.heap.Keys + {id}
    && (forall x :: x in s.heap ==> t.heap[x] == s.heap[x])
    && Fresh(t, id) && t.heap[id].open == []
    && (forall a, b :: a != id ==> (PointsTo(t.heap, a, b) <==> PointsTo(s.heap, a, b)))
    && (forall b :: PointsTo(t.heap, id, b) ==> Alive(s, b))
    && t.phase == s.phase && t.white == s.white && t.gray == s.gray && t.again == s.again && t.uvhead == s.uvhead
    && t.mainthread == s.mainthread && t.running == s.running && t.registry == s.registry && t.mt == s.mt
  }

  lemma AddedAlive(s: State, t: State, id: nat)
    requires Added(s, t, id)
    ensures forall x :: Alive(t, x) <==> x == id || Alive(s, x)
    ensures forall x :: Fresh(t, x) <==> x == id || Fresh(s, x)
    ensures forall x :: IsRoot(t, x) <==> IsRoot(s, x)
  {
  }

  lemma AddedDangling(s: State, t: State, id: nat)
    requires Added(s, t, id) && NoDangling(s)
    ensures NoDangling(t) && NothingDies(s, t)
  {
    AddedAlive(s, t, id);
  }

  lemma AddedMarking(s: State, t: State, id: nat, ex: set<nat>)
    requires Added(s, t, id) && GrayLists(s.heap, s.gray, s.again) && TriColor(s.heap, s.gray, s.again, ex)
    ensures GrayLists(t.heap, t.gray, t.again) && TriColor(t.heap, t.gray, t.again, ex)
  {
    assert forall x :: Marked(t.heap, x) <==> Marked(s.heap, x);
  }

  lemma AddedPhase(s: State, t: State, id: nat)
    requires Inv(s) && Added(s, t, id)
    requires t.sweepstr == s.sweepstr && |t.strt| == |s.strt|
    requires forall b, x :: 0 <= b < |t.strt| && x in t.strt[b] ==> x == id || x in s.strt[b]
    requires t.sweepgc <= |t.rootgc| && (s.sweepgc == 0 ==> t.sweepgc == 0)
    requires forall x :: x in t.rootgc[..t.sweepgc] ==> x == id || x in s.rootgc[..s.sweepgc]
    ensures PhaseOk(t)
  {
    AddedAlive(s, t, id);
    if s.phase == Propagate {
      AddedMarking(s, t, id, OnHold(s));
      assert OnHold(t) == OnHold(s);
    }
  }

  lemma LinkAdds(s: State, pos: nat, id: nat, kind: Kind, slots: seq<Val>)
    requires UpvalsOk(s.heap, s.uvhead) && pos <= |s.rootgc| && id !in s.heap && InRootList(kind)
    requires forall v :: v in slots ==> LiveVal(s, v)
    ensures Added(s, LinkAt(s, pos, id, kind, slots), id)
  {
    LinkPoints(s, pos, id, kind, slots);
    assert forall v :: v in slots && v.Ref? ==> Alive(s, v.id);
  }

  lemma LinkPrefix(s: State, pos: nat, id: nat, kind: Kind, slots: seq<Val>)
    requires pos <= |s.rootgc| && s.sweepgc <= |s.rootgc|
    ensures var t := LinkAt(s, pos, id, kind, slots);
      forall x :: x in t.rootgc[..t.sweepgc] ==> x == id || x in s.rootgc[..s.sweepgc]
  {
    var t := LinkAt(s, pos, id, kind, slots);
    if s.sweepgc <= pos {
      assert t.rootgc[..t.sweepgc] == s.rootgc[..s.sweepgc];
    } else {
      assert t.rootgc[..t.sweepgc] == s.rootgc[..pos] + [id] + s.rootgc[pos..s.sweepgc];
    }
  }

  lemma LinkKeeps(s: State, pos: nat, id: nat, kind: Kind, slots: seq<Val>)
    requires Inv(s) && pos <= |s.rootgc| && id !in s.heap && InRootList(kind)
    requires kind == Upval(Own) ==> |slots| == 1
    requires forall v :: v in slots ==> LiveVal(s, v)
    ensures Inv(LinkAt(s, pos, id, kind, slots)) && NothingDies(s, LinkAt(s, pos, id, kind, slots))
  {
    var t := LinkAt(s, pos, id, kind, slots);
    LinkShape(s, pos, id, kind, slots);
    LinkAdds(s, pos, id, kind, slots);
    AddedDangling(s, t, id);
    AddedKinds(s, t, id);
    LinkPrefix(s, pos, id, kind, slots);
    AddedPhase(s, t, id);
  }

  lemma AddedKinds(s: State, t: State, id: nat)
    requires Added(s, t, id) && KindColors(s.heap)
    ensures KindColors(t.heap)
  {
    assert forall x :: x in t.heap ==> x == id || x in s.heap;
  }

  /** newlstr: a new string goes to the head of its bucket. */
  function LinkString(s: State, id: nat, hash: nat): State
    requires 0 < |s.strt|
  {
    var b := Lmod(hash, |s.strt|);
    s.(heap := s.heap[id := Obj(Str(hash), White(s.white), false, [], [])],
       strt := s.strt[b := [id] + s.strt[b]])
  }

  lemma LinkStringShape(s: State, id: nat, hash: nat)
    requires Shape(s) && id !in s.heap
    ensures Shape(LinkString(s, id, hash))
  {
    var t := LinkString(s, id, hash);
    var b := Lmod(hash, |s.strt|);
    LinkSorted(s.heap, id, Obj(Str(hash), White(s.white), false, [], []));
    assert RootListOk(t);
    assert forall k :: 0 <= k < |s.strt| ==> id !in s.strt[k];
    assert NoDup(t.strt[b]);
    assert StringsOk(t);
  }

  lemma LinkStringAdds(s: State, id: nat, hash: nat)
    requires Shape(s) && id !in s.heap
    ensures Added(s, LinkString(s, id, hash), id)
  {
    var t := LinkString(s, id, hash);
    forall a | a in s.heap
      ensures Holds(t.heap, a) == Holds(s.heap, a)
    {
      SameHolds(s.heap, t.heap, a);
    }
  }

  lemma LinkStringKeeps(s: State, id: nat, hash: nat)
    requires Inv(s) && id !in s.heap
    ensures Inv(LinkString(s, id, hash)) && NothingDies(s, LinkString(s, id, hash))
  {
    LinkStringShape(s, id, hash);
    LinkStringAdds(s, id, hash);
    AddedDangling(s, LinkString(s, id, hash), id);
    AddedPhase(s, LinkString(s, id, hash), id);
  }

  // ---------- resurrection during the sweep (changewhite) ----------

  /** More objects are white again, nothing else changes. */
  lemma MoreFresh(s: State, t: State)
    requires PhaseOk(s) && (s.phase == SweepString || s.phase == Sweep)
    requires t == s.(heap := t.heap) && forall x :: Fresh(s, x) ==> Fresh(t, x) && t.heap[x].open == s.heap[x].open
    ensures PhaseOk(t)
  {
  }

  lemma DeadOnlyInSweep(s: State, id: nat)
    requires Inv(s) && id in s.heap && Dead(s, id)
    ensures s.phase == SweepString || s.phase == Sweep
  {
  }

  lemma ReviveDangling(s: State, id: nat)
    requires Shape(s) && NoDangling(s) && id in s.heap && Dead(s, id)
    requires s.heap[id].kind.Str? || (IsOpen(s.heap, id) && Alive(s, s.heap[id].kind.loc.th))
    ensures NoDangling(Whiten(s, id)) && NothingDies(s, Whiten(s, id))
  {
    var t := Whiten(s, id);
    WhitenPoints(s, id);
    forall b | PointsTo(s.heap, id, b)
      ensures Alive(s, b)
    {
      assert IsOpen(s.heap, id) && PointsTo(s.heap, s.heap[id].kind.loc.th, b);
    }
    assert forall x :: IsRoot(t, x) <==> IsRoot(s, x);
  }

  /** A dead string, or a dead open upvalue of a live thread, may be taken back. */
  lemma ReviveKeeps(s: State, id: nat)
    requires Inv(s) && id in s.heap && Dead(s, id)
    requires s.heap[id].kind.Str? || (IsOpen(s.heap, id) && Alive(s, s.heap[id].kind.loc.th))
    ensures Inv(Whiten(s, id)) && NothingDies(s, Whiten(s, id))
  {
    DeadOnlyInSweep(s, id);
    WhitenShape(s, id);
    ReviveDangling(s, id);
    MoreFresh(s, Whiten(s, id));
  }

  // ---------- stores ----------

  function SetSlots(s: State, o: nat, slots: seq<Val>): State
    requires o in s.heap
  {
    s.(heap := s.heap[o := s.heap[o].(slots := slots)])
  }

  /** A store may not cut the stack below an open upvalue, nor change the size of a closed one. */
  predicate Fits(s: State, o: nat, slots: seq<Val>) {
    && o in s.heap && !s.heap[o].kind.Str? && !OnStack(s.heap[o].kind)
    && (s.heap[o].kind == Upval(Own) ==> |slots| == 1)
    && (forall u :: u in s.heap[o].open ==> IsOpen(s.heap, u) && s.heap[u].kind.loc.slot < |slots|)
  }

  lemma SetSlotsShape(s: State, o: nat, slots: seq<Val>)
    requires Shape(s) && Fits(s, o, slots)
    ensures Shape(SetSlots(s, o, slots))
  {
    SetSlotsUpvals(s, o, slots);
    SetSlotsStrings(s, o, slots);
    SortedKept(s.heap, SetSlots(s, o, slots).heap);
  }

  lemma SetSlotsUpvals(s: State, o: nat, slots: seq<Val>)
    requires UpvalsOk(s.heap, s.uvhead) && Fits(s, o, slots)
    ensures UpvalsOk(SetSlots(s, o, slots).heap, s.uvhead)
  {
  }

  lemma SetSlotsStrings(s: State, o: nat, slots: seq<Val>)
    requires StringsOk(s) && o in s.heap
    ensures StringsOk(SetSlots(s, o, slots))
  {
  }

  lemma SetSlotsPoints(s: State, o: nat, slots: seq<Val>)
    requires Shape(s) && Fits(s, o, slots)
    ensures forall a, b :: PointsTo(SetSlots(s, o, slots).heap, a, b) ==> PointsTo(s.heap, a, b) || Ref(b) in slots
    ensures forall a, b :: PointsTo(SetSlots(s, o, slots).heap, a, b) && a != o && !OnStack(s.heap[a].kind) ==>
      PointsTo(s.heap, a, b)
    ensures forall b :: PointsTo(SetSlots(s, o, slots).heap, o, b) ==> Ref(b) in slots
  {
    var t := SetSlots(s, o, slots);
    forall a | a in s.heap && a != o && !(OnStack(s.heap[a].kind) && s.heap[a].kind.loc.th == o)
      ensures Holds(t.heap, a) == Holds(s.heap, a)
    {
      assert IsOpen(s.heap, a) ==> OnStack(s.heap[a].kind);
      SameHolds(s.heap, t.heap, a);
    }
  }

  /** The same roots, the same colours. */
  lemma SetSlotsSame(s: State, o: nat, slots: seq<Val>)
    requires o in s.heap
    ensures var t := SetSlots(s, o, slots);
      (forall x :: IsRoot(t, x) <==> IsRoot(s, x)) && forall x :: Alive(t, x) <==> Alive(s, x)
  {
  }

  lemma StoreCore(s: State, o: nat, slots: seq<Val>)
    requires Core(s) && Fits(s, o, slots) && forall v :: v in slots ==> LiveVal(s, v)
    ensures Core(SetSlots(s, o, slots)) && NothingDies(s, SetSlots(s, o, slots))
  {
    var t := SetSlots(s, o, slots);
    SetSlotsShape(s, o, slots);
    SetSlotsPoints(s, o, slots);
    SetSlotsSame(s, o, slots);
  }

  /** Writing one slot adds no reference but the one written. */
  lemma SetSlotPoints(s: State, o: nat, i: nat, v: Val)
    requires Shape(s) && o in s.heap && i < |s.heap[o].slots| && Fits(s, o, s.heap[o].slots[i := v])
    ensures forall a, b :: PointsTo(SetSlots(s, o, s.heap[o].slots[i := v]).heap, a, b) ==>
      PointsTo(s.heap, a, b) || Ref(b) == v
  {
    var t := SetSlots(s, o, s.heap[o].slots[i := v]);
    forall a, b | PointsTo(t.heap, a, b) && Ref(b) != v
      ensures PointsTo(s.heap, a, b)
    {
      if a != o && !(OnStack(s.heap[a].kind) && s.heap[a].kind.loc.th == o) {
        SameHolds(s.heap, t.heap, a);
      }
    }
  }

  /** A stack slot may be written through an open upvalue even when its thread is already dead. */
  lemma StoreSlotCore(s: State, o: nat, i: nat, v: Val)
    requires Core(s) && o in s.heap && i < |s.heap[o].slots| && Fits(s, o, s.heap[o].slots[i := v])
    requires LiveVal(s, v)
    ensures Core(SetSlots(s, o, s.heap[o].slots[i := v])) && NothingDies(s, SetSlots(s, o, s.heap[o].slots[i := v]))
  {
    var t := SetSlots(s, o, s.heap[o].slots[i := v]);
    SetSlotsShape(s, o, s.heap[o].slots[i := v]);
    SetSlotsSame(s, o, s.heap[o].slots[i := v]);
    SetSlotsColors(s, o, s.heap[o].slots[i := v]);
    StoreSlotDangling(s, o, i, v);
  }

  lemma SetSlotsColors(s: State, o: nat, slots: seq<Val>)
    requires KindColors(s.heap) && o in s.heap
    ensures KindColors(SetSlots(s, o, slots).heap)
  {
  }

  lemma StoreSlotDangling(s: State, o: nat, i: nat, v: Val)
    requires Shape(s) && NoDangling(s) && o in s.heap && i < |s.heap[o].slots| && Fits(s, o, s.heap[o].slots[i := v])
    requires LiveVal(s, v)
    ensures NoDangling(SetSlots(s, o, s.heap[o].slots[i := v]))
  {
    SetSlotPoints(s, o, i, v);
    SetSlotsSame(s, o, s.heap[o].slots[i := v]);
    StoreDangling(s, SetSlots(s, o, s.heap[o].slots[i := v]), v);
  }

  lemma StoreDangling(s: State, t: State, v: Val)
    requires NoDangling(s) && LiveVal(s, v)
    requires (forall x :: IsRoot(t, x) <==> IsRoot(s, x)) && forall x :: Alive(t, x) <==> Alive(s, x)
    requires forall a, b :: PointsTo(t.heap, a, b) ==> PointsTo(s.heap, a, b) || Ref(b) == v
    ensures NoDangling(t)
  {
  }

  lemma StoreSlotKeeps(s: State, th: nat, i: nat, v: Val)
    requires Inv(s) && th in s.heap && s.heap[th].kind == Thread && i < |s.heap[th].slots|
    requires Fits(s, th, s.heap[th].slots[i := v]) && LiveVal(s, v)
    ensures Inv(SetSlots(s, th, s.heap[th].slots[i := v])) && NothingDies(s, SetSlots(s, th, s.heap[th].slots[i := v]))
  {
    StoreSlotCore(s, th, i, v);
    StorePhase(s, th, s.heap[th].slots[i := v]);
  }

  /** While marking, the object written to may be left exempt from the colour rule. */
  lemma StoreMarking(s: State, o: nat, slots: seq<Val>)
    requires Shape(s) && Fits(s, o, slots)
    requires GrayLists(s.heap, s.gray, s.again) && TriColor(s.heap, s.gray, s.again, OnHold(s))
    ensures var t := SetSlots(s, o, slots);
      GrayLists(t.heap, t.gray, t.again) && TriColor(t.heap, t.gray, t.again, OnHold(t) + {o})
  {
    var t := SetSlots(s, o, slots);
    SetSlotsPoints(s, o, slots);
    assert forall x :: Marked(t.heap, x) <==> Marked(s.heap, x);
    assert forall x :: x in s.heap && OnStack(s.heap[x].kind) ==> IsOpen(s.heap, x) && x in s.uvhead;
  }

  /** The barrier's test fails: the object is not black, or what it holds is not white. */
  ghost predicate NoBarrier(s: State, o: nat, slots: seq<Val>) {
    s.phase == Propagate && o in s.heap && s.heap[o].color == Black ==>
      forall v :: v in slots && v.Ref? ==> Marked(s.heap, v.id)
  }

  lemma StorePhase(s: State, o: nat, slots: seq<Val>)
    requires Shape(s) && PhaseOk(s) && KindColors(s.heap) && Fits(s, o, slots) && NoBarrier(s, o, slots)
    ensures PhaseOk(SetSlots(s, o, slots))
  {
    var t := SetSlots(s, o, slots);
    if s.phase == Propagate {
      StoreMarking(s, o, slots);
      SetSlotsPoints(s, o, slots);
      assert OnHold(t) == OnHold(s);
      assert o in s.gray || o in OnHold(s) || s.heap[o].color != Gray;
    } else {
      assert forall x :: Fresh(t, x) <==> Fresh(s, x);
    }
  }

  lemma StoreKeeps(s: State, o: nat, slots: seq<Val>)
    requires Inv(s) && Fits(s, o, slots) && NoBarrier(s, o, slots)
    requires forall v :: v in slots ==> LiveVal(s, v)
    ensures Inv(SetSlots(s, o, slots)) && NothingDies(s, SetSlots(s, o, slots))
  {
    StoreCore(s, o, slots);
    StorePhase(s, o, slots);
  }

  // ---------- barriers ----------

  /** Recolouring that kills and revives nothing. */
  lemma RecolorCore(s: State, t: State)
    requires Core(s) && OnlyColors(s, t) && KindColors(t.heap)
    requires t.sweepgc == s.sweepgc && t.sweepstr == s.sweepstr
    requires forall x :: Alive(t, x) <==> Alive(s, x)
    ensures Core(t)
  {
    OnlyColorsShape(s, t);
    SamePointsTo(s.heap, t.heap);
    assert forall x :: IsRoot(t, x) <==> IsRoot(s, x);
  }

  /** luaC_barrierback: a black table turns gray and goes on hold. */
  function ToGrayAgain(s: State, o: nat): State
    requires o in s.heap
  {
    s.(heap := s.heap[o := s.heap[o].(color := Gray)], again := [o] + s.again)
  }

  lemma BackPhase(s: State, o: nat)
    requires o in s.heap && s.heap[o].color == Black && s.heap[o].kind == Table
    requires s.phase == Propagate ==>
      && GrayLists(s.heap, s.gray, s.again) && NoneDead(s)
      && TriColor(s.heap, s.gray, s.again, OnHold(s) + {o})
      && Marked(s.heap, s.mainthread) && Marked(s.heap, s.registry)
    requires s.phase != Propagate ==> PhaseOk(s)
    ensures PhaseOk(ToGrayAgain(s, o))
  {
    var t := ToGrayAgain(s, o);
    if s.phase == Propagate {
      SamePointsTo(s.heap, t.heap);
      assert OnHold(t) == OnHold(s) + {o};
      assert forall x :: Marked(t.heap, x) <==> Marked(s.heap, x);
      BackLists(s, o);
    } else {
      assert forall x :: Fresh(s, x) ==> Fresh(t, x);
    }
  }

  lemma BackLists(s: State, o: nat)
    requires o in s.heap && s.heap[o].color == Black && s.heap[o].kind == Table && GrayLists(s.heap, s.gray, s.again)
    ensures var t := ToGrayAgain(s, o); GrayLists(t.heap, t.gray, t.again)
  {
    assert o !in s.gray && o !in s.again;
  }

  lemma StoreBackKeeps(s: State, o: nat, slots: seq<Val>)
    requires Inv(s) && Fits(s, o, slots) && forall v :: v in slots ==> LiveVal(s, v)
    requires s.heap[o].kind == Table && s.heap[o].color == Black
    ensures Inv(ToGrayAgain(SetSlots(s, o, slots), o))
    ensures NothingDies(s, ToGrayAgain(SetSlots(s, o, slots), o))
  {
    var t := SetSlots(s, o, slots);
    StoreCore(s, o, slots);
    BackCore(t, o);
    StoreBackPhase(s, o, slots);
  }

  lemma BackCore(t: State, o: nat)
    requires Core(t) && o in t.heap && t.heap[o].color == Black
    ensures Core(ToGrayAgain(t, o)) && NothingDies(t, ToGrayAgain(t, o))
  {
    RecolorCore(t, ToGrayAgain(t, o));
  }

  lemma StoreBackPhase(s: State, o: nat, slots: seq<Val>)
    requires Shape(s) && PhaseOk(s) && KindColors(s.heap) && Fits(s, o, slots)
    requires s.heap[o].kind == Table && s.heap[o].color == Black
    ensures PhaseOk(ToGrayAgain(SetSlots(s, o, slots), o))
  {
    if s.phase == Propagate {
      StoreMarking(s, o, slots);
    } else {
      StorePhase(s, o, slots);
    }
    BackPhase(SetSlots(s, o, slots), o);
  }

  /** luaC_barrierf outside the mark phase: the black object turns white. */
  lemma StoreWhitenKeeps(s: State, o: nat, slots: seq<Val>)
    requires Inv(s) && Fits(s, o, slots) && forall v :: v in slots ==> LiveVal(s, v)
    requires s.phase != Propagate && s.heap[o].color == Black
    ensures Inv(Whiten(SetSlots(s, o, slots), o)) && NothingDies(s, Whiten(SetSlots(s, o, slots), o))
  {
    var t := SetSlots(s, o, slots);
    StoreKeeps(s, o, slots);
    WhitenInv(t, o);
  }

  lemma WhitenInv(t: State, o: nat)
    requires Inv(t) && t.phase != Propagate && Alive(t, o)
    ensures Inv(Whiten(t, o)) && NothingDies(t, Whiten(t, o))
  {
    WhitenKeeps(t, o);
    if t.phase == SweepString || t.phase == Sweep {
      MoreFresh(t, Whiten(t, o));
    }
  }

  /** luaC_barrierf while marking, before it marks: the heap is ready, with `o` exempt. */
  lemma StoreThenMark(s: State, o: nat, slots: seq<Val>)
    requires Inv(s) && Fits(s, o, slots) && forall v :: v in slots ==> LiveVal(s, v)
    requires s.phase == Propagate
    ensures var t := SetSlots(s, o, slots);
      && Core(t) && NoneDead(t) && OnHold(t) == OnHold(s)
      && Marking(t.heap, t.gray, t.again, OnHold(t) + {o}, AliveSet(t))
  {
    StoreCore(s, o, slots);
    StoreMarking(s, o, slots);
  }

  // ---------- upvalues ----------

  /** luaF_findupval: a new open upvalue joins its thread's list and the global list. */
  function AddOpen(s: State, id: nat, th: nat, slot: nat, pos: nat): State
    requires th in s.heap && pos <= |s.heap[th].open|
  {
    s.(heap := s.heap[th := s.heap[th].(open := InsertAt(s.heap[th].open, pos, id))]
                     [id := Obj(Upval(Stack(th, slot)), White(s.white), false, [], [])],
       uvhead := [id] + s.uvhead)
  }

  /** The place of a slot in the list of open upvalues. */
  ghost predicate PlaceOf(h: map<nat, Obj>, th: nat, slot: nat, pos: nat) {
    && th in h && pos <= |h[th].open|
    && (forall i :: 0 <= i < pos ==> IsOpen(h, h[th].open[i]) && h[h[th].open[i]].kind.loc.slot > slot)
    && (forall i :: pos <= i < |h[th].open| ==> IsOpen(h, h[th].open[i]) && h[h[th].open[i]].kind.loc.slot < slot)
  }

  lemma AddOpenSorted(s: State, id: nat, th: nat, slot: nat, pos: nat)
    requires OpenSorted(s.heap) && id !in s.heap && PlaceOf(s.heap, th, slot, pos)
    ensures OpenSorted(AddOpen(s, id, th, slot, pos).heap)
  {
    var h, h' := s.heap, AddOpen(s, id, th, slot, pos).heap;
    forall x, i, j {:trigger HigherOpen(h', x, i, j)} | x in h' && 0 <= i < j < |h'[x].open|
      ensures HigherOpen(h', x, i, j)
    {
      if x != th {
        assert HigherOpen(h, x, i, j);
      } else {
        InsertedHigher(h, h', id, th, slot, pos, i, j);
      }
    }
  }

  lemma InsertedHigher(h: map<nat, Obj>, h': map<nat, Obj>, id: nat, th: nat, slot: nat, pos: nat, i: int, j: int)
    requires OpenSorted(h) && id !in h && PlaceOf(h, th, slot, pos) && th in h'
    requires h'[th].open == InsertAt(h[th].open, pos, id) && id in h' && h'[id].kind == Upval(Stack(th, slot))
    requires forall u :: IsOpen(h, u) ==> u in h' && h'[u].kind == h[u].kind
    requires 0 <= i < j < |h'[th].open|
    ensures HigherOpen(h', th, i, j)
  {
    var q, r := h[th].open, h'[th].open;
    var a, b := if i < pos then i else i - 1, if j < pos then j else j - 1;
    assert i != pos ==> r[i] == q[a];
    assert j != pos ==> r[j] == q[b];
    if i != pos && j != pos {
      assert HigherOpen(h, th, a, b);
    }
  }

  lemma AddOpenLists(s: State, id: nat, th: nat, slot: nat, pos: nat)
    requires UpvalsOk(s.heap, s.uvhead) && id !in s.heap && th in s.heap && s.heap[th].kind == Thread
    requires slot < |s.heap[th].slots| && pos <= |s.heap[th].open|
    ensures UpvalsOk(AddOpen(s, id, th, slot, pos).heap, AddOpen(s, id, th, slot, pos).uvhead)
  {
    assert id !in s.heap[th].open by {
      assert id in s.heap[th].open ==> IsOpen(s.heap, id);
    }
    InsertNoDup(s.heap[th].open, pos, id);
  }

  lemma AddOpenShape(s: State, id: nat, th: nat, slot: nat, pos: nat)
    requires Shape(s) && id !in s.heap && th in s.heap && s.heap[th].kind == Thread
    requires slot < |s.heap[th].slots| && PlaceOf(s.heap, th, slot, pos)
    ensures Shape(AddOpen(s, id, th, slot, pos))
  {
    var t := AddOpen(s, id, th, slot, pos);
    AddOpenLists(s, id, th, slot, pos);
    AddOpenSorted(s, id, th, slot, pos);
    assert StringsOk(t);
    assert RootListOk(t);
  }

  lemma AddOpenPoints(s: State, id: nat, th: nat, slot: nat, pos: nat)
    requires Shape(s) && id !in s.heap && th in s.heap && s.heap[th].kind == Thread
    requires slot < |s.heap[th].slots| && pos <= |s.heap[th].open|
    ensures var t := AddOpen(s, id, th, slot, pos);
      && (forall a, b :: a != id ==> (PointsTo(t.heap, a, b) <==> PointsTo(s.heap, a, b)))
      && (forall b :: PointsTo(t.heap, id, b) ==> PointsTo(s.heap, th, b))
  {
    var t := AddOpen(s, id, th, slot, pos);
    forall a | a in s.heap
      ensures Holds(t.heap, a) == Holds(s.heap, a)
    {
      SameHolds(s.heap, t.heap, a);
    }
  }

  lemma AddOpenPhase(s: State, id: nat, th: nat, slot: nat, pos: nat)
    requires Inv(s) && id !in s.heap && th in s.heap && s.heap[th].kind == Thread
    requires slot < |s.heap[th].slots| && pos <= |s.heap[th].open|
    ensures PhaseOk(AddOpen(s, id, th, slot, pos))
  {
    var t := AddOpen(s, id, th, slot, pos);
    if s.phase == Propagate {
      AddOpenMarking(s, id, th, slot, pos);
    } else {
      assert forall x :: Fresh(t, x) <==> x == id || Fresh(s, x);
    }
  }

  lemma AddOpenMarking(s: State, id: nat, th: nat, slot: nat, pos: nat)
    requires Shape(s) && PhaseOk(s) && s.phase == Propagate && id !in s.heap && th in s.heap && s.heap[th].kind == Thread
    requires slot < |s.heap[th].slots| && pos <= |s.heap[th].open|
    ensures PhaseOk(AddOpen(s, id, th, slot, pos))
  {
    var t := AddOpen(s, id, th, slot, pos);
    AddOpenPoints(s, id, th, slot, pos);
    assert forall x :: Marked(t.heap, x) <==> Marked(s.heap, x);
    assert OnHold(t) == OnHold(s) + {id};
  }

  lemma AddOpenDangling(s: State, id: nat, th: nat, slot: nat, pos: nat)
    requires Shape(s) && NoDangling(s) && id !in s.heap && Alive(s, th) && s.heap[th].kind == Thread
    requires slot < |s.heap[th].slots| && pos <= |s.heap[th].open|
    ensures NoDangling(AddOpen(s, id, th, slot, pos)) && NothingDies(s, AddOpen(s, id, th, slot, pos))
  {
    var t := AddOpen(s, id, th, slot, pos);
    AddOpenPoints(s, id, th, slot, pos);
    assert forall x :: IsRoot(t, x) <==> IsRoot(s, x);
    assert forall x :: Alive(t, x) <==> x == id || Alive(s, x);
  }

  lemma AddOpenKeeps(s: State, id: nat, th: nat, slot: nat, pos: nat)
    requires Inv(s) && id !in s.heap && Alive(s, th) && s.heap[th].kind == Thread
    requires slot < |s.heap[th].slots| && PlaceOf(s.heap, th, slot, pos)
    ensures Inv(AddOpen(s, id, th, slot, pos)) && NothingDies(s, AddOpen(s, id, th, slot, pos))
  {
    AddOpenShape(s, id, th, slot, pos);
    AddOpenDangling(s, id, th, slot, pos);
    AddOpenPhase(s, id, th, slot, pos);
  }

  lemma FreeUpvalPhase(s: State, u: nat)
    requires PhaseOk(s) && (s.phase == SweepString || s.phase == Sweep)
    requires IsOpen(s.heap, u) && s.heap[u].kind.loc.th in s.heap && Dead(s, u)
    ensures PhaseOk(FreeUpval(s, u))
  {
    var t := FreeUpval(s, u);
    assert forall x :: Fresh(s, x) ==> Fresh(t, x) && forall v :: v in t.heap[x].open ==> v in s.heap[x].open;
  }

  /** luaF_close on a dead upvalue: it is freed. */
  lemma FreeUpvalInv(s: State, u: nat)
    requires Inv(s) && IsOpen(s.heap, u) && Dead(s, u)
    ensures Inv(FreeUpval(s, u)) && NothingDies(s, FreeUpval(s, u))
  {
    DeadOnlyInSweep(s, u);
    FreeUpvalKeeps(s, u);
    FreeUpvalPhase(s, u);
  }

  /** luaF_close on a live upvalue outside the mark phase: it is closed in the current white. */
  lemma CloseUpvalInv(s: State, u: nat)
    requires Inv(s) && IsOpen(s.heap, u) && Alive(s, u) && s.phase != Propagate
    ensures Inv(CloseUpval(s, u, White(s.white))) && NothingDies(s, CloseUpval(s, u, White(s.white)))
  {
    CloseUpvalKeeps(s, u, White(s.white));
    CloseUpvalPhase(s, u);
  }

  lemma CloseUpvalPhase(s: State, u: nat)
    requires Shape(s) && PhaseOk(s) && IsOpen(s.heap, u) && s.phase != Propagate
    requires s.heap[u].kind.loc.th in s.heap && s.heap[u].kind.loc.th != u
    ensures PhaseOk(CloseUpval(s, u, White(s.white)))
  {
    CloseUpvalFresh(s, u);
    if s.phase == Sweep {
      SweptPush(s, u);
    }
  }

  lemma CloseTriColor(s: State, u: nat, c: Color)
    requires Shape(s) && IsOpen(s.heap, u) && TriColor(s.heap, s.gray, s.again, OnHold(s))
    requires c == if s.heap[u].color == Gray then Black else s.heap[u].color
    ensures var t := CloseUpval(s, u, c);
      && TriColor(t.heap, t.gray, t.again, OnHold(t) + {u})
      && forall x :: Marked(t.heap, x) <==> Marked(s.heap, x)
  {
    var t := CloseUpval(s, u, c);
    CloseUpvalPoints(s, u, c);
    assert OnHold(t) + {u} == OnHold(s);
    ClosedColors(s, u, c);
    TriColorSame(s.heap, t.heap, s.gray, s.again, OnHold(s));
  }

  lemma ClosedColors(s: State, u: nat, c: Color)
    requires IsOpen(s.heap, u) && s.heap[u].kind.loc.th in s.heap && s.heap[u].kind.loc.th != u
    requires c == if s.heap[u].color == Gray then Black else s.heap[u].color
    ensures var h, h' := s.heap, CloseUpval(s, u, c).heap;
      && (forall x :: Marked(h', x) <==> Marked(h, x))
      && (forall x :: x in h' && h'[x].color == Gray ==> x in h && h[x].color == Gray && h'[x].kind == h[x].kind)
  {
  }

  /** What a heap has to do with the colour rule: its references, and what is marked or gray. */
  lemma TriColorSame(h: map<nat, Obj>, h': map<nat, Obj>, gray: seq<nat>, again: seq<nat>, ex: set<nat>)
    requires TriColor(h, gray, again, ex) && forall a, b :: PointsTo(h', a, b) <==> PointsTo(h, a, b)
    requires forall x :: Marked(h', x) <==> Marked(h, x)
    requires forall x :: x in h' && h'[x].color == Gray ==> x in h && h[x].color == Gray && h'[x].kind == h[x].kind
    ensures TriColor(h', gray, again, ex)
  {
  }

  lemma CloseGrayLists(s: State, u: nat, c: Color)
    requires UpvalsOk(s.heap, s.uvhead) && IsOpen(s.heap, u) && GrayLists(s.heap, s.gray, s.again)
    ensures GrayLists(CloseUpval(s, u, c).heap, s.gray, s.again)
  {
    assert u !in s.gray && u !in s.again;
  }

  /** The alive objects may serve as the bound of a mark step. */
  lemma AliveWithin(s: State)
    requires NoDangling(s) && NoneDead(s)
    ensures Within(s.heap, AliveSet(s))
  {
  }

  lemma CloseNoneDead(s: State, u: nat, c: Color)
    requires NoneDead(s) && IsOpen(s.heap, u) && s.heap[u].kind.loc.th in s.heap && s.heap[u].kind.loc.th != u
    requires c == Black || c == s.heap[u].color
    ensures NoneDead(CloseUpval(s, u, c))
  {
  }

  lemma CloseMarkingCore(s: State, u: nat, c: Color)
    requires Core(s) && NoneDead(s) && IsOpen(s.heap, u)
    requires c == if s.heap[u].color == Gray then Black else s.heap[u].color
    ensures var t := CloseUpval(s, u, c);
      Core(t) && NoneDead(t) && NothingDies(s, t) && Within(t.heap, AliveSet(t))
  {
    CloseUpvalKeeps(s, u, c);
    CloseNoneDead(s, u, c);
    AliveWithin(CloseUpval(s, u, c));
  }

  /** luaF_close while marking, before the barrier: the upvalue is exempt until its value is marked. */
  lemma CloseWhileMarking(s: State, u: nat, c: Color)
    requires Inv(s) && IsOpen(s.heap, u) && s.phase == Propagate
    requires c == if s.heap[u].color == Gray then Black else s.heap[u].color
    ensures var t := CloseUpval(s, u, c);
      && Core(t) && NoneDead(t) && NothingDies(s, t)
      && Marking(t.heap, t.gray, t.again, OnHold(t) + {u}, AliveSet(t))
      && Marked(t.heap, t.mainthread) && Marked(t.heap, t.registry)
  {
    CloseMarkingCore(s, u, c);
    CloseGrayLists(s, u, c);
    CloseTriColor(s, u, c);
  }

  // ---------- the end of a forward barrier ----------

  /** luaC_barrierf has marked `v` in the heap of `t`, with `o` and the objects on hold exempt. */
  ghost predicate Forwarded(t: State, u: State, o: nat, v: nat) {
    && u == t.(heap := u.heap, gray := u.gray)
    && Marks(t.heap, t.gray, u.heap, u.gray) && Marked(u.heap, v)
    && Marking(u.heap, u.gray, u.again, OnHold(t) + {o}, AliveSet(t))
  }

  /** The value is marked, so the object needs no exemption: the invariant holds again. */
  lemma BarrierDone(t: State, u: State, o: nat, v: nat)
    requires Core(t) && NoneDead(t) && t.phase == Propagate && Forwarded(t, u, o, v)
    requires Marked(t.heap, t.mainthread) && Marked(t.heap, t.registry)
    requires o in u.heap && (u.heap[o].color == Black || u.heap[o].color.White?)
    requires forall b :: PointsTo(u.heap, o, b) && u.heap[o].color == Black ==> Marked(u.heap, b)
    ensures Inv(u) && NothingDies(t, u)
  {
    MarksDarken(t.heap, t.gray, u.heap, u.gray);
    if u.heap[o].color == Black {
      Settle(u.heap, u.gray, u.again, o, OnHold(u), AliveSet(t));
    } else {
      Exempt(u.heap, u.gray, u.again, OnHold(u) + {o}, OnHold(u), AliveSet(t));
    }
    MarkedInv(t, u, OnHold(u), AliveSet(t));
  }

  // ---------- roots ----------

  lemma RootsKeep(s: State, t: State)
    requires Inv(s) && t == s.(running := t.running, mt := t.mt)
    requires Alive(s, t.running) && s.heap[t.running].kind == Thread
    requires forall v :: v in t.mt ==> LiveVal(s, v)
    ensures Inv(t) && NothingDies(s, t)
  {
    assert forall x :: Alive(t, x) <==> Alive(s, x);
    assert forall x :: Fresh(t, x) <==> Fresh(s, x);
  }
}

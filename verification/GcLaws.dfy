/** The laws of the heap as the program sees them: what refers to what, what a program may do with what it can
    reach, and what each event makes of it, object by object. */
module GcLaws {
  import opened Numbers
  import opened GcHeap
  import opened GcMark
  import opened GcSweep
  import opened GcPhase
  import opened GcMutator
  import opened GcProgram

  // ---------- references ----------

  /** What each kind of object refers to. */
  lemma Refers(h: map<nat, Obj>, a: nat, b: nat)
    requires a in h
    ensures h[a].kind in {Table, Closure, Proto, Udata, Thread} ==> (PointsTo(h, a, b) <==> Ref(b) in h[a].slots)
    ensures h[a].kind == Upval(Own) && |h[a].slots| == 1 ==> (PointsTo(h, a, b) <==> h[a].slots[0] == Ref(b))
    ensures h[a].kind.Upval? && h[a].kind.loc.Stack? ==>
      var th, i := h[a].kind.loc.th, h[a].kind.loc.slot;
      PointsTo(h, a, b) <==> th in h && i < |h[th].slots| && h[th].slots[i] == Ref(b)
    ensures h[a].kind.Str? ==> !PointsTo(h, a, b)
  {
  }

  /** The registry, the main and the running thread, and the metatables of the basic types are reachable, and so is
      whatever a reachable object refers to. */
  lemma ReachableFrom(s: State, a: nat, b: nat)
    ensures Reachable(s, s.registry) && Reachable(s, s.mainthread) && Reachable(s, s.running)
    ensures Ref(a) in s.mt ==> Reachable(s, a)
    ensures Reachable(s, a) && PointsTo(s.heap, a, b) ==> Reachable(s, b)
  {
    RootReachable(s, s.registry);
    RootReachable(s, s.mainthread);
    RootReachable(s, s.running);
    if Ref(a) in s.mt {
      RootReachable(s, a);
    }
    if Reachable(s, a) && PointsTo(s.heap, a, b) {
      ReachStep(s, a, b);
    }
  }

  // ---------- what a program may do ----------

  ghost predicate Has(s: State, v: Val) {
    v.Ref? ==> Reachable(s, v.id)
  }

  lemma HasLive(s: State, v: Val)
    requires Inv(s) && Has(s, v)
    ensures LiveVal(s, v)
  {
    if v.Ref? {
      ReachableIsAlive(s, v.id);
    }
  }

  lemma AllLive(s: State, vs: seq<Val>)
    requires Inv(s) && forall v :: v in vs ==> Has(s, v)
    ensures forall v :: v in vs ==> LiveVal(s, v)
  {
    forall v | v in vs
      ensures LiveVal(s, v)
    {
      HasLive(s, v);
    }
  }

  /** The collector can always go on, and a program may allocate objects with values that it can reach. */
  lemma MayAllocate(s: State, id: nat, kind: Kind, slots: seq<Val>, hash: nat)
    requires Inv(s) && id !in s.heap && forall v :: v in slots ==> Has(s, v)
    ensures Enabled(s, Collect) && Enabled(s, CollectAll) && Enabled(s, Intern(id, hash))
    ensures kind in {Table, Closure, Proto, Udata, Thread} || (kind == Upval(Own) && |slots| == 1) ==> Enabled(s, Allocate(id, kind, slots))
  {
    AllLive(s, slots);
  }

  /** It may store any value that it can reach, or no reference, into any object that it can reach. */
  lemma MayStore(s: State, o: nat, i: nat, v: Val)
    requires Inv(s) && Reachable(s, o) && Has(s, v)
    ensures o in s.heap
    ensures s.heap[o].kind == Table && i <= |s.heap[o].slots| ==> Enabled(s, SetTable(o, i, v))
    ensures s.heap[o].kind in {Closure, Proto, Udata} && i < |s.heap[o].slots| ==> Enabled(s, SetField(o, i, v))
    ensures s.heap[o].kind.Upval? ==> Enabled(s, SetUp(o, v))
    ensures s.heap[o].kind.Str? ==> Enabled(s, TakeString(o))
  {
    ReachableIsAlive(s, o);
    HasLive(s, v);
  }

  /** It may write the stack of a thread that it can reach, take and close upvalues there, and switch to it. */
  lemma MayRun(s: State, th: nat, vs: seq<Val>, slot: nat, id: nat)
    requires Inv(s) && Reachable(s, th) && th in s.heap && s.heap[th].kind == Thread && forall v :: v in vs ==> Has(s, v)
    ensures (forall u :: u in s.heap && s.heap[u].kind.Upval? && s.heap[u].kind.loc.Stack? && s.heap[u].kind.loc.th == th ==>
      s.heap[u].kind.loc.slot < |vs|) ==> Enabled(s, SetStack(th, vs))
    ensures id !in s.heap && slot < |s.heap[th].slots| ==> Enabled(s, Capture(th, slot, id))
    ensures Enabled(s, CloseFrom(th, slot)) && Enabled(s, Switch(th, vs))
  {
    ReachableIsAlive(s, th);
    AllLive(s, vs);
    OpenListed(s, th);
  }

  // ---------- what the events do ----------

  /** All objects but one are as they were, except that they may have been marked. */
  ghost predicate OthersSame(s: State, t: State, o: nat) {
    forall x :: x in s.heap && x != o ==> x in t.heap && t.heap[x] == s.heap[x].(color := t.heap[x].color)
  }

  lemma Allocates(s: State, id: nat, kind: Kind, slots: seq<Val>, t: State)
    requires Inv(s) && Enabled(s, Allocate(id, kind, slots)) && Makes(s, Allocate(id, kind, slots), t)
    ensures t.heap == s.heap[id := Obj(kind, White(s.white), false, slots, [])] && id in t.rootgc
    ensures forall x :: x in s.rootgc ==> x in t.rootgc
  {
  }

  lemma Interns(s: State, id: nat, hash: nat, t: State)
    requires Inv(s) && Enabled(s, Intern(id, hash)) && Makes(s, Intern(id, hash), t)
    ensures t.heap == s.heap[id := Obj(Str(hash), White(s.white), false, [], [])]
    ensures |t.strt| == |s.strt| > 0 && id in t.strt[hash % |t.strt|]
  {
    LmodIsRemainder(hash, |s.strt|);
  }

  lemma TakesString(s: State, id: nat, t: State)
    requires Inv(s) && Enabled(s, TakeString(id)) && Makes(s, TakeString(id), t)
    ensures OthersSame(s, t, id) && Alive(t, id) && t.heap[id] == s.heap[id].(color := t.heap[id].color)
  {
  }

  lemma SetsStack(s: State, th: nat, stack: seq<Val>, t: State)
    requires Inv(s) && Enabled(s, SetStack(th, stack)) && Makes(s, SetStack(th, stack), t)
    ensures t.heap == s.heap[th := s.heap[th].(slots := stack)]
  {
  }

  /** A store into a table: the entry is there afterwards, the others are as they were, and what was stored is
      referred to. */
  lemma SetsTable(s: State, o: nat, i: nat, v: Val, t: State)
    requires Inv(s) && Enabled(s, SetTable(o, i, v)) && Makes(s, SetTable(o, i, v), t)
    ensures o in t.heap && OthersSame(s, t, o) && t.heap[o].kind == Table
    ensures var q, r := s.heap[o].slots, t.heap[o].slots;
      && i < |r| && r[i] == v && |r| == (if i < |q| then |q| else |q| + 1)
      && forall j :: 0 <= j < |q| && j != i ==> r[j] == q[j]
    ensures v.Ref? ==> PointsTo(t.heap, o, v.id)
  {
  }

  lemma FieldIs(s: State, t: State, o: nat, slots: seq<Val>, v: Val)
    requires o in s.heap && FieldStored(s, t, o, slots, v)
    ensures OthersSame(s, t, o) && o in t.heap && t.heap[o] == s.heap[o].(slots := slots, color := t.heap[o].color)
    ensures t.mainthread == s.mainthread && t.running == s.running && t.registry == s.registry && t.mt == s.mt
  {
  }

  lemma SetsField(s: State, o: nat, i: nat, v: Val, t: State)
    requires Inv(s) && Enabled(s, SetField(o, i, v)) && Makes(s, SetField(o, i, v), t)
    ensures o in t.heap && OthersSame(s, t, o) && t.heap[o].kind == s.heap[o].kind
    ensures var q, r := s.heap[o].slots, t.heap[o].slots;
      i < |r| == |q| && r[i] == v && forall j :: 0 <= j < |q| && j != i ==> r[j] == q[j]
    ensures v.Ref? ==> PointsTo(t.heap, o, v.id)
    ensures t.mainthread == s.mainthread && t.running == s.running && t.registry == s.registry && t.mt == s.mt
  {
    FieldIs(s, t, o, s.heap[o].slots[i := v], v);
    assert t.heap[o].slots[i] == v;
  }

  lemma SetsUpvalue(s: State, u: nat, v: Val, t: State)
    requires Inv(s) && Enabled(s, SetUp(u, v)) && Makes(s, SetUp(u, v), t)
    ensures u in t.heap && t.heap[u].kind == s.heap[u].kind && UpvalValue(t.heap, u) == v
    ensures s.heap[u].kind == Upval(Own) ==> OthersSame(s, t, u)
    ensures s.heap[u].kind.loc.Stack? ==>
      var th, i := s.heap[u].kind.loc.th, s.heap[u].kind.loc.slot;
      OthersSame(s, t, th) && th in s.heap && i < |s.heap[th].slots| && th in t.heap && t.heap[th].slots == s.heap[th].slots[i := v]
  {
    StoredShows(s, t, u, v);
  }

  /** An alive open upvalue of a slot, which shows what the slot holds. */
  ghost predicate ShowsSlot(t: State, th: nat, slot: nat, u: nat) {
    && Alive(t, u) && t.heap[u].kind == Upval(Stack(th, slot))
    && th in t.heap && u in t.heap[th].open && slot < |t.heap[th].slots| && UpvalValue(t.heap, u) == t.heap[th].slots[slot]
  }

  /** The slot has an upvalue afterwards: the one that it had, or a new one if it had none. */
  lemma Captures(s: State, th: nat, slot: nat, id: nat, t: State)
    requires Inv(s) && Enabled(s, Capture(th, slot, id)) && Makes(s, Capture(th, slot, id), t)
    ensures th in t.heap && t.heap[th].slots == s.heap[th].slots
    ensures exists u :: ShowsSlot(t, th, slot, u)
    ensures forall u :: u in s.heap && s.heap[u].kind == Upval(Stack(th, slot)) ==> ShowsSlot(t, th, slot, u) && t.heap.Keys == s.heap.Keys
  {
    var u :| UpvalFound(s, t, th, slot, id, u);
    FoundShows(s, th, slot, id, t, u);
    forall w | w in s.heap && s.heap[w].kind == Upval(Stack(th, slot))
      ensures w == u
    {
      OnlyUpvalue(s, t, th, slot, id, u, w);
    }
  }

  lemma FoundShows(s: State, th: nat, slot: nat, id: nat, t: State, u: nat)
    requires Inv(s) && Enabled(s, Capture(th, slot, id)) && UpvalFound(s, t, th, slot, id, u)
    ensures th in t.heap && t.heap[th].slots == s.heap[th].slots && ShowsSlot(t, th, slot, u)
    ensures u in s.heap ==> t.heap.Keys == s.heap.Keys
  {
    if u in s.heap {
      assert u in s.heap[th].open;
    } else {
      var pos: nat :| PlaceOf(s.heap, th, slot, pos) && t == AddOpen(s, id, th, slot, pos);
      AddedShows(s, th, slot, id, pos);
    }
  }

  lemma AddedShows(s: State, th: nat, slot: nat, id: nat, pos: nat)
    requires id !in s.heap && th in s.heap && pos <= |s.heap[th].open| && slot < |s.heap[th].slots|
    ensures var t := AddOpen(s, id, th, slot, pos); th in t.heap && t.heap[th].slots == s.heap[th].slots && ShowsSlot(t, th, slot, id)
  {
  }

  /** There is one upvalue for each slot at most. */
  lemma OnlyUpvalue(s: State, t: State, th: nat, slot: nat, id: nat, u: nat, w: nat)
    requires Inv(s) && id !in s.heap && UpvalFound(s, t, th, slot, id, u) && w in s.heap && s.heap[w].kind == Upval(Stack(th, slot))
    ensures w == u && u in s.heap
  {
    assert IsOpen(s.heap, w) && OnStack(s.heap[w].kind) && th in s.heap;
    var q := s.heap[th].open;
    assert w in q && (u in s.heap ==> u in q);
    var j :| 0 <= j < |q| && q[j] == w;
    if u in s.heap {
      var i :| 0 <= i < |q| && q[i] == u;
      assert i < j ==> HigherOpen(s.heap, th, i, j);
      assert j < i ==> HigherOpen(s.heap, th, j, i);
    }
  }

  lemma Switches(s: State, th: nat, mt: seq<Val>, t: State)
    requires Inv(s) && Enabled(s, Switch(th, mt)) && Makes(s, Switch(th, mt), t)
    ensures t.heap == s.heap && Reachable(t, th) && forall v :: v in mt && v.Ref? ==> Reachable(t, v.id)
  {
    RootReachable(t, th);
    forall v | v in mt && v.Ref?
      ensures Reachable(t, v.id)
    {
      RootReachable(t, v.id);
    }
  }

  // ---------- what becomes reachable ----------

  /** A path to `o` that comes to `o` only at its end. */
  lemma {:induction false} FirstArrival(s: State, p: seq<nat>, o: nat) returns (q: seq<nat>)
    requires Path(s, p) && p[|p| - 1] == o
    ensures Path(s, q) && q[|q| - 1] == o && forall i :: 0 <= i < |q| - 1 ==> q[i] != o
    decreases |p|
  {
    q := p;
    if i :| 0 <= i < |p| - 1 && p[i] == o {
      PathPrefix(s, p, i + 1);
      q := FirstArrival(s, p[..i + 1], o);
    }
  }

  /** Writing one object that is not a thread changes no references of others. */
  lemma OtherEdges(s: State, o: nat, t: State, a: nat, b: nat)
    requires Inv(s) && o in s.heap && s.heap[o].kind != Thread && OthersSame(s, t, o) && o in t.heap && a != o && PointsTo(s.heap, a, b)
    ensures PointsTo(t.heap, a, b)
  {
    assert IsOpen(s.heap, a) ==> s.heap[s.heap[a].kind.loc.th].kind == Thread;
    SameHolds(s.heap, t.heap, a);
  }

  lemma StillReachable(s: State, o: nat, t: State)
    requires Inv(s) && o in s.heap && s.heap[o].kind != Thread && OthersSame(s, t, o) && o in t.heap && Reachable(s, o)
    requires t.mainthread == s.mainthread && t.running == s.running && t.registry == s.registry && t.mt == s.mt
    ensures Reachable(t, o)
  {
    var p :| Path(s, p) && p[|p| - 1] == o;
    var q := FirstArrival(s, p, o);
    forall k {:trigger Edge(t.heap, q, k)} | 0 <= k < |q| - 1
      ensures Edge(t.heap, q, k)
    {
      assert Edge(s.heap, q, k);
      OtherEdges(s, o, t, q[k], q[k + 1]);
    }
    assert Path(t, q);
  }

  /** What is stored into a reachable table is reachable afterwards, and so is the table still. */
  lemma StoredReachable(s: State, o: nat, i: nat, v: Val, t: State)
    requires Inv(s) && Reachable(s, o) && Enabled(s, SetTable(o, i, v)) && Makes(s, SetTable(o, i, v), t)
    ensures Reachable(t, o) && (v.Ref? ==> Reachable(t, v.id))
  {
    SetsTable(s, o, i, v, t);
    StillReachable(s, o, t);
    if v.Ref? {
      ReachStep(t, o, v.id);
    }
  }

  /** The same for closures, prototypes and userdata. */
  lemma FieldReachable(s: State, o: nat, i: nat, v: Val, t: State)
    requires Inv(s) && Reachable(s, o) && Enabled(s, SetField(o, i, v)) && Makes(s, SetField(o, i, v), t)
    ensures Reachable(t, o) && (v.Ref? ==> Reachable(t, v.id))
  {
    SetsField(s, o, i, v, t);
    StillReachable(s, o, t);
    if v.Ref? {
      ReachStep(t, o, v.id);
    }
  }

  // ---------- collections ----------

  /** A step of the collector leaves what is reachable as it was. */
  lemma CollectsOnly(s: State, t: State, x: nat)
    requires Inv(s) && Makes(s, Collect, t)
    ensures Reachable(t, x) <==> Reachable(s, x)
    ensures Reachable(s, x) ==> x in t.heap && Holds(t.heap, x) == Holds(s.heap, x)
  {
    ReachSame(s, t);
    if Reachable(s, x) {
      ReachableIsAlive(s, x);
      assert SameContents(s.heap, t.heap, x);
    }
  }

  /** A full collection leaves exactly what is reachable, and fixed objects. */
  lemma CollectsAll(s: State, t: State, x: nat)
    requires Inv(s) && Makes(s, CollectAll, t)
    ensures x in t.heap ==> Reachable(s, x) || t.heap[x].fixed
    ensures Reachable(s, x) ==> x in s.heap && x in t.heap && Holds(t.heap, x) == Holds(s.heap, x)
  {
    if Reachable(s, x) {
      ReachableIsAlive(s, x);
      assert x in ReachSet(s);
    }
  }

  // ---------- closing ----------

  /** An alive upvalue. */
  ghost predicate IsUpvalue(s: State, w: nat) {
    Alive(s, w) && s.heap[w].kind.Upval?
  }

  /** The upvalue `w` in another state: alive, with its value, and closed if it is `u`. */
  ghost predicate StillShows(s: State, t: State, u: nat, w: nat)
    requires IsUpvalue(s, w)
  {
    && IsUpvalue(t, w) && UpvalValue(t.heap, w) == UpvalValue(s.heap, w)
    && t.heap[w].kind == if w == u then Upval(Own) else s.heap[w].kind
  }

  lemma FreedOne(s: State, u: nat, w: nat)
    requires Inv(s) && IsOpen(s.heap, u) && Dead(s, u) && IsUpvalue(s, w) && s.heap[u].kind.loc.th in s.heap
    ensures StillShows(s, FreeUpval(s, u), u, w)
  {
    var t := FreeUpval(s, u);
    FreeUpvalSurvives(s, u);
    assert IsOpen(s.heap, w) ==> s.heap[s.heap[w].kind.loc.th].kind == Thread;
    SameHolds(s.heap, t.heap, w);
    assert Holds(t.heap, w) == [UpvalValue(t.heap, w)] && Holds(s.heap, w) == [UpvalValue(s.heap, w)];
  }

  lemma ShutOne(s: State, u: nat, c: Color, w: nat)
    requires Inv(s) && IsOpen(s.heap, u) && Alive(s, u) && c != White(!s.white) && IsUpvalue(s, w)
    requires s.heap[u].kind.loc.th in s.heap && s.heap[u].kind.loc.th != u
    ensures StillShows(s, CloseUpval(s, u, c), u, w)
  {
    var t := CloseUpval(s, u, c);
    CloseUpvalPoints(s, u, c);
    assert SameContents(s.heap, t.heap, w);
    assert IsOpen(s.heap, w) ==> s.heap[s.heap[w].kind.loc.th].kind == Thread;
    assert Holds(t.heap, w) == [UpvalValue(t.heap, w)] && Holds(s.heap, w) == [UpvalValue(s.heap, w)];
  }

  lemma MarkedOne(s: State, t: State, o: nat, v: nat, w: nat)
    requires Forwarded(s, t, o, v) && IsUpvalue(s, w)
    ensures IsUpvalue(t, w) && UpvalValue(t.heap, w) == UpvalValue(s.heap, w) && t.heap[w].kind == s.heap[w].kind
  {
  }

  /** What closing one upvalue means for an upvalue. */
  lemma ClosedOne(s: State, t: State, u: nat, w: nat)
    requires Inv(s) && OneClosed(s, t, u) && IsUpvalue(s, w)
    ensures StillShows(s, t, u, w)
  {
    if Dead(s, u) {
      FreedOne(s, u, w);
    } else if s.phase != Propagate {
      ShutOne(s, u, White(s.white), w);
    } else {
      var c := if s.heap[u].color == Gray then Black else s.heap[u].color;
      ShutOne(s, u, c, w);
      if t != CloseUpval(s, u, c) {
        MarkedOne(CloseUpval(s, u, c), t, u, UpvalValue(s.heap, u).id, w);
      }
    }
  }

  /** The upvalue `w` has kept its value, and is open as it was, unless it was one to close. */
  ghost predicate KeptOrClosed(s: State, t: State, w: nat, th: nat, level: nat) {
    && IsUpvalue(s, w) && IsUpvalue(t, w) && UpvalValue(t.heap, w) == UpvalValue(s.heap, w)
    && (t.heap[w].kind == s.heap[w].kind || (t.heap[w].kind == Upval(Own) && Leaves(s.heap[w].kind, th, level)))
  }

  predicate Leaves(k: Kind, th: nat, level: nat) {
    OnStack(k) && k.loc.th == th && k.loc.slot >= level
  }

  lemma {:induction false} ClosedValues(steps: seq<State>, th: nat, level: nat, w: nat, i: nat)
    requires ClosedFrom(steps, th, level) && IsUpvalue(steps[0], w) && i < |steps|
    ensures KeptOrClosed(steps[0], steps[i], w, th, level)
  {
    if i > 0 {
      ClosedValues(steps, th, level, w, i - 1);
      assert ClosedAt(steps, th, level, i - 1);
      var s, u := steps[i - 1], steps[i - 1].heap[th].open[0];
      assert u in s.heap[th].open;
      ClosedOne(s, steps[i], u, w);
    }
  }

  /** luaF_close: afterwards the upvalues of the slots from `level` on are closed, with the values that they had, and
      all others are as they were. */
  lemma ClosesAll(s: State, th: nat, level: nat, t: State, w: nat)
    requires Inv(s) && Enabled(s, CloseFrom(th, level)) && Makes(s, CloseFrom(th, level), t) && Inv(t) && IsUpvalue(s, w)
    ensures IsUpvalue(t, w) && UpvalValue(t.heap, w) == UpvalValue(s.heap, w)
    ensures t.heap[w].kind == if Leaves(s.heap[w].kind, th, level) then Upval(Own) else s.heap[w].kind
  {
    var steps: seq<State> :| ClosedFrom(steps, th, level) && steps[0] == s && steps[|steps| - 1] == t;
    ClosedValues(steps, th, level, w, |steps| - 1);
    if Leaves(t.heap[w].kind, th, level) {
      assert IsOpen(t.heap, w) && th in t.heap && w in t.heap[th].open;
      OthersBelow(t, th, level);
    }
  }
}

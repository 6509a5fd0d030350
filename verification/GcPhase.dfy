/** The phases: what holds after each step of `singlestep`. */
module GcPhase {
  import opened Numbers
  import opened GcHeap
  import opened GcMark
  import opened GcSweep

  /** What a step of the collector does to the program's view: roots and the contents of alive objects
      stay, and nothing alive is freed. */
  ghost predicate Collects(s: State, t: State) {
    && t.mainthread == s.mainthread && t.running == s.running && t.registry == s.registry && t.mt == s.mt
    && (forall id :: Alive(s, id) ==> SameContents(s.heap, t.heap, id))
    && (forall id :: id in t.heap ==> id in s.heap && t.heap[id].fixed == s.heap[id].fixed)
  }

  ghost function AliveSet(s: State): set<nat> {
    set id | id in s.heap && Alive(s, id)
  }

  /** A set of alive objects that holds the roots and everything they lead to. */
  ghost predicate Frame(s: State, R: set<nat>) {
    Closed(s.heap, R) && HasRoots(s, R) && forall id :: id in R ==> Alive(s, id)
  }

  /** Marked objects, and after the mark phase everything alive, lie in `R` (or are fixed). */
  ghost predicate Confined(s: State, R: set<nat>) {
    match s.phase
    case Propagate => forall id :: Marked(s.heap, id) ==> id in R
    case _ => forall id :: Alive(s, id) ==> id in R || s.heap[id].fixed
  }

  lemma AliveFrame(s: State)
    requires NoDangling(s)
    ensures Frame(s, AliveSet(s))
  {
  }

  // ---------- reachability across a step ----------

  lemma PathSurvives(s: State, t: State, p: seq<nat>)
    requires Shape(s) && NoDangling(s) && Collects(s, t) && Path(s, p)
    ensures Path(t, p)
  {
    forall i {:trigger Edge(t.heap, p, i)} | 0 <= i < |p| - 1
      ensures Edge(t.heap, p, i)
    {
      EdgeSurvives(s, t, p, i);
    }
  }

  lemma EdgeSurvives(s: State, t: State, p: seq<nat>, i: int)
    requires Shape(s) && NoDangling(s) && Collects(s, t) && Path(s, p) && 0 <= i < |p| - 1
    ensures Edge(t.heap, p, i)
  {
    PathPrefix(s, p, i + 1);
    assert Reachable(s, p[i]) by {
      assert p[..i + 1][|p[..i + 1]| - 1] == p[i];
    }
    ReachableIsAlive(s, p[i]);
    assert Edge(s.heap, p, i) && SameContents(s.heap, t.heap, p[i]);
  }

  lemma {:induction false} PathWasThere(s: State, t: State, p: seq<nat>)
    requires Shape(s) && NoDangling(s) && Collects(s, t) && Path(t, p)
    ensures Path(s, p)
    decreases |p|
  {
    if |p| > 1 {
      var q := p[..|p| - 1];
      PathPrefix(t, p, |p| - 1);
      PathWasThere(s, t, q);
      EdgeWasThere(s, t, q, p[|p| - 1]) by {
        assert Edge(t.heap, p, |p| - 2);
      }
      PathLonger(s, q, p[|p| - 1]);
      assert q + [p[|p| - 1]] == p;
    }
  }

  lemma EdgeWasThere(s: State, t: State, q: seq<nat>, b: nat)
    requires Shape(s) && NoDangling(s) && Collects(s, t) && Path(s, q) && PointsTo(t.heap, q[|q| - 1], b)
    ensures PointsTo(s.heap, q[|q| - 1], b)
  {
    assert Reachable(s, q[|q| - 1]);
    ReachableIsAlive(s, q[|q| - 1]);
    assert SameContents(s.heap, t.heap, q[|q| - 1]);
  }

  /** A step of the collector neither adds nor removes reachable objects. */
  lemma ReachSame(s: State, t: State)
    requires Shape(s) && NoDangling(s) && Collects(s, t)
    ensures forall id :: Reachable(s, id) <==> Reachable(t, id)
    ensures ReachSet(s) == ReachSet(t)
  {
    forall id
      ensures Reachable(s, id) <==> Reachable(t, id)
    {
      if Reachable(s, id) {
        var p :| Path(s, p) && p[|p| - 1] == id;
        PathSurvives(s, t, p);
      }
      if Reachable(t, id) {
        var p :| Path(t, p) && p[|p| - 1] == id;
        PathWasThere(s, t, p);
      }
    }
    forall id | Reachable(s, id)
      ensures id in s.heap && id in t.heap
    {
      ReachableIsAlive(s, id);
    }
  }

  lemma SurvivesCollects(s: State, t: State)
    requires Survives(s, t)
    ensures Collects(s, t)
  {
  }

  // ---------- marking ----------

  /** Same objects in other colours, and other bookkeeping. */
  ghost predicate OnlyColors(s: State, t: State) {
    && Recolored(s.heap, t.heap)
    && t.rootgc == s.rootgc && t.strt == s.strt && t.uvhead == s.uvhead
    && t.mainthread == s.mainthread && t.running == s.running && t.registry == s.registry && t.mt == s.mt
  }

  lemma OnlyColorsShape(s: State, t: State)
    requires OnlyColors(s, t) && Shape(s) && t.sweepgc <= |t.rootgc| && t.sweepstr <= |t.strt|
    ensures Shape(t)
  {
    SortedKept(s.heap, t.heap);
  }

  lemma OnlyColorsCollects(s: State, t: State)
    requires OnlyColors(s, t)
    ensures Collects(s, t)
  {
    RecoloredSame(s.heap, t.heap);
  }

  /** A mark step: Darkens keeps everything that does not concern colours. */
  lemma DarkenedCore(s: State, t: State)
    requires Core(s) && NoneDead(s) && OnlyColors(s, t) && Darkens(s.heap, t.heap) && KindColors(t.heap)
    requires t.white == s.white && t.sweepgc == s.sweepgc && t.sweepstr == s.sweepstr
    ensures Core(t) && NoneDead(t)
  {
    OnlyColorsShape(s, t);
    SamePointsTo(s.heap, t.heap);
    assert forall id :: id in t.heap ==> id in s.heap && !Dead(s, id) && !Dead(t, id);
  }

  /** The heap and `R` are ready for a mark step. */
  lemma ReadyToMark(s: State, R: set<nat>)
    requires Inv(s) && s.phase == Propagate && Frame(s, R) && Confined(s, R)
    ensures Marking(s.heap, s.gray, s.again, OnHold(s), R) && Marked(s.heap, s.mainthread) && Marked(s.heap, s.registry)
  {
  }

  lemma ReadyToStart(s: State, R: set<nat>)
    requires Inv(s) && (s.phase == Pause || s.phase == Finalize) && Frame(s, R)
    ensures Within(s.heap, R) && HasRoots(s, R) && KindColors(s.heap) && forall id :: id in s.heap ==> s.heap[id].color.White?
  {
  }

  lemma ReadyForAtomic(s: State, R: set<nat>)
    requires Inv(s) && Frame(s, R)
    ensures s.running in R && (forall v :: v in s.mt && v.Ref? ==> v.id in R)
    ensures forall u :: u in s.uvhead ==> IsOpen(s.heap, u)
  {
    assert IsRoot(s, s.running);
    assert forall v :: v in s.mt && v.Ref? ==> IsRoot(s, v.id);
  }

  /** A mark step leads back to the invariant. */
  lemma MarkedInv(s: State, t: State, ex: set<nat>, R: set<nat>)
    requires Core(s) && NoneDead(s) && OnlyColors(s, t) && Darkens(s.heap, t.heap)
    requires t.white == s.white && t.sweepgc == s.sweepgc && t.sweepstr == s.sweepstr && t.phase == Propagate
    requires Marking(t.heap, t.gray, t.again, ex, R) && ex <= OnHold(t)
    requires Marked(t.heap, t.mainthread) && Marked(t.heap, t.registry)
    ensures Inv(t) && Confined(t, R)
  {
    DarkenedCore(s, t);
  }

  /** What a mark step leaves. */
  ghost predicate MarkStep(s: State, t: State, ex: set<nat>, R: set<nat>) {
    && OnlyColors(s, t) && Darkens(s.heap, t.heap) && t.phase == Propagate
    && t.white == s.white && t.sweepgc == s.sweepgc && t.sweepstr == s.sweepstr
    && Marking(t.heap, t.gray, t.again, ex, R) && ex <= OnHold(t)
    && Marked(t.heap, t.mainthread) && Marked(t.heap, t.registry)
  }

  lemma MarkStepOk(s: State, t: State, ex: set<nat>, R: set<nat>)
    requires Inv(s) && (s.phase == Propagate || s.phase == Pause || s.phase == Finalize) && MarkStep(s, t, ex, R)
    ensures Inv(t) && Confined(t, R) && Collects(s, t)
  {
    ReadyForMarks(s);
    MarkedInv(s, t, ex, R);
    OnlyColorsCollects(s, t);
  }

  lemma ReadyForMarks(s: State)
    requires Inv(s) && (s.phase == Propagate || s.phase == Pause || s.phase == Finalize)
    ensures Core(s) && NoneDead(s)
  {
  }

  lemma StillAlive(s: State, t: State)
    requires NoneDead(t) && t.heap.Keys == s.heap.Keys
    ensures forall id :: Alive(s, id) ==> Alive(t, id)
  {
  }

  /** After atomic: the marked objects are the alive ones. */
  lemma AtomicInv(s: State, t: State, R: set<nat>)
    requires Core(s) && NoneDead(s) && OnlyColors(s, t) && Darkens(s.heap, t.heap) && KindColors(t.heap)
    requires t.white == !s.white && t.sweepgc == 0 && t.sweepstr == 0 && t.phase == SweepString
    requires Within(t.heap, R)
    requires Marked(t.heap, t.mainthread) && Marked(t.heap, t.registry) && Marked(t.heap, t.running)
    requires forall v :: v in t.mt && v.Ref? ==> Marked(t.heap, v.id)
    requires forall a, b :: Marked(t.heap, a) && PointsTo(t.heap, a, b) ==> Marked(t.heap, b)
    ensures Inv(t) && Confined(t, R)
  {
    OnlyColorsShape(s, t);
    forall id | Alive(t, id)
      ensures Marked(t.heap, id)
    {
      assert id in s.heap && !Dead(s, id);
    }
    assert forall id :: IsRoot(t, id) ==> Marked(t.heap, id);
  }

  // ---------- sweeping ----------

  /** One more bucket of the string table is swept. */
  lemma BucketInv(s: State, t: State, b: nat)
    requires SweepStep(s, t) && SweptStrings(s, b) && b < |s.strt| == |t.strt|
    requires forall k :: 0 <= k < b ==> t.strt[k] == s.strt[k]
    requires forall x :: x in t.strt[b] ==> Fresh(t, x)
    ensures SweptStrings(t, b + 1)
  {
  }

  /** A part of the root list is swept; the strings stay swept. */
  lemma RootsInv(s: State, t: State)
    requires SweepStep(s, t) && SweptStrings(s, |s.strt|) && t.strt == s.strt
    ensures SweptStrings(t, |t.strt|)
  {
  }

  /** When both cursors have reached the end, every object is white for the next cycle. */
  lemma SweepDone(s: State)
    requires Shape(s) && SweptStrings(s, |s.strt|) && SweptRoots(s) && s.sweepgc == |s.rootgc|
    ensures forall id :: id in s.heap ==> Fresh(s, id)
  {
    assert s.rootgc[..s.sweepgc] == s.rootgc;
    forall id | id in s.heap
      ensures Fresh(s, id)
    {
      if s.heap[id].kind.Str? {
        assert id in s.strt[Lmod(s.heap[id].kind.hash, |s.strt|)];
      } else if IsOpen(s.heap, id) {
        var th := s.heap[id].kind.loc.th;
        assert OnStack(s.heap[id].kind);
        assert id in s.heap[th].open && th in s.rootgc;
        assert Swept(s, th);
      } else {
        assert id in s.rootgc;
        assert Swept(s, id);
      }
    }
  }

  // ---------- progress ----------

  /** How far the phase is from the end of the cycle. */
  function Rank(p: Phase): nat {
    match p
    case Propagate => 4
    case SweepString => 3
    case Sweep => 2
    case Finalize => 1
    case Pause => 0
  }

  /** What the phase still has to look at. */
  ghost function Work(s: State): set<nat> {
    match s.phase
    case Propagate => ToDo(s.heap, s.gray)
    case Sweep => s.heap.Keys
    case _ => {}
  }

  ghost function Left(s: State): int {
    match s.phase
    case SweepString => |s.strt| - s.sweepstr
    case Sweep => |s.rootgc| - s.sweepgc
    case _ => 0
  }

  /** A step of an unfinished cycle comes closer to its end. */
  ghost predicate Progress(s: State, t: State) {
    || Rank(t.phase) == Rank(s.phase) - 1
    || (t.phase == s.phase && Work(t) < Work(s))
    || (t.phase == s.phase && Work(t) == Work(s) && 0 <= Left(t) < Left(s))
  }

  // ---------- the sweep states ----------

  /** What a step of the collector achieves. */
  ghost predicate GoodStep(s: State, t: State, R: set<nat>) {
    Inv(t) && Confined(t, R) && Collects(s, t) && Progress(s, t)
  }

  lemma StringStepCore(t: State, u: State)
    requires Core(t) && u == t.(sweepstr := u.sweepstr, phase := u.phase) && u.sweepstr <= |u.strt|
    ensures Core(u) && forall id :: Alive(u, id) <==> Alive(t, id)
  {
    assert forall id :: IsRoot(u, id) <==> IsRoot(t, id);
  }

  lemma StringStepPhase(s: State, t: State, u: State)
    requires SweepStep(s, t) && |t.strt| == |s.strt| && s.sweepstr < |s.strt| && SweptStrings(s, s.sweepstr)
    requires t.strt == s.strt[s.sweepstr := t.strt[s.sweepstr]] && t.sweepgc == 0
    requires forall x :: x in t.strt[s.sweepstr] ==> Fresh(t, x)
    requires u == t.(sweepstr := s.sweepstr + 1, phase := if s.sweepstr + 1 >= |t.strt| then Sweep else SweepString)
    ensures PhaseOk(u)
  {
    BucketInv(s, t, s.sweepstr);
    assert forall x :: Fresh(u, x) <==> Fresh(t, x);
  }

  /** What sweeping one bucket leaves behind. */
  ghost predicate BucketDone(s: State, u: State) {
    var t := u.(sweepstr := s.sweepstr, phase := s.phase);
    && SweepStep(s, t) && |t.strt| == |s.strt| && s.sweepstr < |s.strt| && t.sweepgc == s.sweepgc
    && t.strt == s.strt[s.sweepstr := t.strt[s.sweepstr]]
    && (forall x :: x in t.strt[s.sweepstr] ==> Fresh(t, x))
    && u.sweepstr == s.sweepstr + 1
    && u.phase == if u.sweepstr >= |u.strt| then Sweep else SweepString
  }

  lemma BucketIsDone(s: State, t: State, u: State)
    requires BucketSwept(s, t, s.sweepstr)
    requires u == t.(sweepstr := s.sweepstr + 1, phase := u.phase) && u.phase == if u.sweepstr >= |u.strt| then Sweep else SweepString
    requires s.phase == SweepString
    ensures BucketDone(s, u)
  {
    assert u.(sweepstr := s.sweepstr, phase := s.phase) == t;
  }

  lemma StringStep(s: State, u: State, R: set<nat>)
    requires Inv(s) && Confined(s, R) && s.phase == SweepString && BucketDone(s, u)
    ensures GoodStep(s, u, R)
  {
    var t := u.(sweepstr := s.sweepstr, phase := s.phase);
    StringStepPhase(s, t, u);
    StringStepCore(t, u);
    SweptOn(s, t, u, R);
  }

  /** What a step of a sweep means to the program, when only the cursors have moved since. */
  lemma SweptOn(s: State, t: State, u: State, R: set<nat>)
    requires Survives(s, t) && Confined(s, R) && s.phase != Propagate && u.phase != Propagate
    requires u == t.(sweepstr := u.sweepstr, phase := u.phase)
    ensures Confined(u, R) && Collects(s, u)
  {
    SurvivesCollects(s, t);
  }

  lemma RootStep(s: State, t: State, u: State, R: set<nat>)
    requires Inv(s) && Confined(s, R) && s.phase == Sweep && t.phase == s.phase
    requires Sweeping(s, t) && t.strt == s.strt
    requires t.sweepgc < |t.rootgc| ==> Ahead(s, t)
    requires u == t.(phase := if t.sweepgc == |t.rootgc| then Finalize else Sweep)
    ensures GoodStep(s, u, R)
  {
    RootStepPhase(s, t, u);
    StringStepCore(t, u);
    SweptOn(s, t, u, R);
  }

  lemma RootStepPhase(s: State, t: State, u: State)
    requires PhaseOk(s) && s.phase == Sweep && t.phase == s.phase && Sweeping(s, t) && t.strt == s.strt
    requires u == t.(phase := if t.sweepgc == |t.rootgc| then Finalize else Sweep)
    ensures PhaseOk(u)
  {
    RootsInv(s, t);
    if t.sweepgc == |t.rootgc| {
      SweepDone(t);
    }
  }

  /** What atomic leaves behind. */
  ghost predicate AtomicDone(s: State, t: State, R: set<nat>) {
    && OnlyColors(s, t) && Darkens(s.heap, t.heap) && KindColors(t.heap) && Within(t.heap, R)
    && t.white == !s.white && t.sweepgc == 0 && t.sweepstr == 0 && t.phase == SweepString
    && Marked(t.heap, t.mainthread) && Marked(t.heap, t.registry) && Marked(t.heap, t.running)
    && (forall v :: v in t.mt && v.Ref? ==> Marked(t.heap, v.id))
    && (forall a, b :: Marked(t.heap, a) && PointsTo(t.heap, a, b) ==> Marked(t.heap, b))
  }

  lemma AtomicStep(s: State, t: State, R: set<nat>)
    requires Inv(s) && s.phase == Propagate && AtomicDone(s, t, R)
    ensures GoodStep(s, t, R)
  {
    AtomicInv(s, t, R);
    OnlyColorsCollects(s, t);
  }

  // ---------- whole cycles ----------

  /** Since `s0`, what is reachable is still the set `R`, with the same roots and contents. */
  ghost predicate SameView(s0: State, s: State, R: set<nat>) {
    && s.mainthread == s0.mainthread && s.running == s0.running && s.registry == s0.registry && s.mt == s0.mt
    && ReachSet(s) == R
    && forall id :: id in R ==> SameContents(s0.heap, s.heap, id)
  }

  /** What the program sees after luaC_fullgc has dropped a mark phase. */
  lemma DropKeepsView(s: State, t: State)
    requires Inv(s) && (s.phase == Pause || s.phase == Propagate)
    requires t == s.(sweepstr := 0, sweepgc := 0, gray := [], again := [], phase := SweepString)
    ensures Inv(t) && SameView(s, t, ReachSet(s))
  {
    AbortMark(s, t);
    SameViewStep(s, s, t, ReachSet(s));
  }

  lemma SameViewStep(s0: State, s: State, t: State, R: set<nat>)
    requires SameView(s0, s, R) && Inv(s) && Collects(s, t)
    ensures SameView(s0, t, R)
  {
    ReachSame(s, t);
    forall a | a in R
      ensures SameContents(s0.heap, t.heap, a)
    {
      ReachableIsAlive(s, a);
      assert SameContents(s0.heap, s.heap, a) && SameContents(s.heap, t.heap, a);
    }
  }

  lemma ReachFrame(s: State)
    requires Inv(s)
    ensures Frame(s, ReachSet(s))
  {
    ReachSetClosed(s);
    forall id | id in ReachSet(s)
      ensures Alive(s, id)
    {
      ReachableIsAlive(s, id);
    }
  }

  /** luaC_fullgc drops a mark phase under way: every object is treated as unswept. */
  lemma AbortMark(s: State, t: State)
    requires Inv(s) && (s.phase == Pause || s.phase == Propagate)
    requires t == s.(sweepstr := 0, sweepgc := 0, gray := [], again := [], phase := SweepString)
    ensures Inv(t) && Collects(s, t)
  {
    assert forall id :: Alive(t, id) <==> Alive(s, id);
    assert forall id :: IsRoot(t, id) <==> IsRoot(s, id);
  }

  /** After a full cycle only reachable and fixed objects are left. */
  lemma NothingElseLeft(s: State, R: set<nat>)
    requires Inv(s) && s.phase == Pause && Confined(s, R)
    ensures forall id :: id in s.heap ==> id in R || s.heap[id].fixed
  {
    assert forall id :: id in s.heap ==> Fresh(s, id) && Alive(s, id);
  }

  lemma ReachableInSet(s: State)
    requires Inv(s)
    ensures forall id :: Reachable(s, id) <==> id in ReachSet(s)
  {
    forall id | Reachable(s, id)
      ensures id in s.heap
    {
      ReachableIsAlive(s, id);
    }
  }

  // ---------- the initial state ----------

  /** lua_newstate and f_luaopen: the main thread with its table of globals, and the registry. */
  function Initial(main: nat, globals: nat, reg: nat, buckets: nat): State {
    var heap := map[main := Obj(Thread, White(false), true, [Ref(globals)], []),
                    globals := Obj(Table, White(false), false, [], []),
                    reg := Obj(Table, White(false), false, [], [])];
    State(heap, Pause, false, [], [], [reg, globals, main], seq(buckets, _ => []), [], 0, 0, main, main, reg, [])
  }

  lemma InitialShape(main: nat, globals: nat, reg: nat, buckets: nat)
    requires main != globals && main != reg && globals != reg && 0 < buckets
    ensures Shape(Initial(main, globals, reg, buckets))
  {
    InitialLists(main, globals, reg, buckets);
  }

  lemma InitialLists(main: nat, globals: nat, reg: nat, buckets: nat)
    requires main != globals && main != reg && globals != reg && 0 < buckets
    ensures RootListOk(Initial(main, globals, reg, buckets)) && StringsOk(Initial(main, globals, reg, buckets))
  {
  }

  lemma InitialInv(main: nat, globals: nat, reg: nat, buckets: nat)
    requires main != globals && main != reg && globals != reg && 0 < buckets
    ensures Inv(Initial(main, globals, reg, buckets))
  {
    var s := Initial(main, globals, reg, buckets);
    assert Holds(s.heap, main) == [Ref(globals)];
    assert forall a, b :: PointsTo(s.heap, a, b) ==> a == main && b == globals;
    InitialShape(main, globals, reg, buckets);
  }
}

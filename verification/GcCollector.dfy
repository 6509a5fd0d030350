/** The collector itself: `global_State` with the routines of lgc.c as methods. */
module GcCollector {
  import opened Numbers
  import opened GcHeap
  import opened GcMark
  import opened GcSweep
  import opened GcPhase
  import opened GcMutator

  const GCSWEEPMAX := 40

  class Collector {
    var heap: map<nat, Obj>
    var phase: Phase
    var white: bool
    var gray: seq<nat>
    var again: seq<nat>
    var rootgc: seq<nat>
    var strt: seq<seq<nat>>
    var uvhead: seq<nat>
    var sweepstr: nat
    var sweepgc: nat
    var mainthread: nat
    var running: nat
    var registry: nat
    var mt: seq<Val>

    function Snap(): State
      reads this
    {
      State(heap, phase, white, gray, again, rootgc, strt, uvhead, sweepstr, sweepgc,
            mainthread, running, registry, mt)
    }

    /** lua_newstate and f_luaopen. */
    constructor (main: nat, globals: nat, reg: nat, buckets: nat)
      requires main != globals && main != reg && globals != reg && 0 < buckets
      ensures Inv(Snap()) && Snap() == Initial(main, globals, reg, buckets)
    {
      heap := map[main := Obj(Thread, White(false), true, [Ref(globals)], []),
                  globals := Obj(Table, White(false), false, [], []),
                  reg := Obj(Table, White(false), false, [], [])];
      phase, white := Pause, false;
      gray, again, uvhead := [], [], [];
      rootgc := [reg, globals, main];
      strt := seq(buckets, _ => []);
      sweepstr, sweepgc := 0, 0;
      mainthread, running, registry := main, main, reg;
      mt := [];
      new;
      assert Snap() == Initial(main, globals, reg, buckets);
      InitialInv(main, globals, reg, buckets);
    }

    // ---------- marking ----------

    /** The colour macros: white2gray, gray2black, black2gray and makewhite. */
    method SetColor(id: nat, c: Color)
      requires id in heap
      modifies `heap
      ensures Colored(old(heap), heap, id, c)
    {
      heap := heap[id := heap[id].(color := c)];
    }

    /** reallymarkobject: marks one white object, and through userdata and upvalues what they hold. */
    method MarkObject(id: nat, ghost ex: set<nat>, ghost R: set<nat>)
      requires Marking(heap, gray, again, ex, R) && IsWhite(heap, id) && id in R
      modifies `heap, `gray
      ensures Marking(heap, gray, again, ex, R) && Marks(old(heap), old(gray), heap, gray)
      ensures Marked(heap, id)
      decreases Whites(heap), 0
    {
      SetColor(id, Gray);
      BeginMark(old(heap), heap, gray, again, id, ex, R);
      FewerWhites(old(heap), gray, heap, gray);
      match heap[id].kind {
        case Str(_) =>
          Settle(heap, gray, again, id, ex, R);
        case Udata =>
          MarkUdata(id, old(heap), ex, R);
        case Upval(_) =>
          MarkUpval(id, old(heap), ex, R);
        case _ =>
          PushGray(heap, gray, again, id, ex, R);
          gray := [id] + gray;
      }
    }

    /** Userdata turn black at once; then their metatable and environment are marked. */
    method MarkUdata(id: nat, ghost h0: map<nat, Obj>, ghost ex: set<nat>, ghost R: set<nat>)
      requires Marking(heap, gray, again, ex + {id}, R) && Marked(heap, id) && id !in gray && id !in again
      requires heap[id].kind == Udata && Marks(h0, gray, heap, gray) && IsWhite(h0, id)
      modifies `heap, `gray
      ensures Marking(heap, gray, again, ex, R) && Marks(h0, old(gray), heap, gray) && Marked(heap, id)
      decreases Whites(heap), 5
    {
      SetColor(id, Black);
      TurnBlack(old(heap), heap, gray, again, id, ex, R);
      MarksAgain(h0, gray, old(heap), gray, heap, id);
      ghost var h1 := heap;
      assert Whites(heap) == Whites(old(heap));
      MarkHeld(id, heap[id].slots, ex + {id}, R);
      MarksTrans(h0, old(gray), h1, old(gray), heap, gray);
      Settle(heap, gray, again, id, ex, R);
    }

    /** An upvalue's value is marked; a closed one turns black, an open one stays gray. */
    method MarkUpval(id: nat, ghost h0: map<nat, Obj>, ghost ex: set<nat>, ghost R: set<nat>)
      requires Marking(heap, gray, again, ex + {id}, R) && Marked(heap, id) && id !in gray && id !in again
      requires heap[id].kind.Upval? && Marks(h0, gray, heap, gray) && IsWhite(h0, id)
      modifies `heap, `gray
      ensures Marking(heap, gray, again, ex, R) && Marks(h0, old(gray), heap, gray) && Marked(heap, id)
      decreases Whites(heap), 5
    {
      MarkHeld(id, [UpvalValue(heap, id)], ex + {id}, R);
      MarksTrans(h0, old(gray), old(heap), old(gray), heap, gray);
      if heap[id].kind.loc.Own? {
        ghost var h1 := heap;
        SetColor(id, Black);
        TurnBlack(h1, heap, gray, again, id, ex, R);
        SamePointsTo(h1, heap);
        MarksAgain(h0, old(gray), h1, gray, heap, id);
      }
      Settle(heap, gray, again, id, ex, R);
    }

    /** The `markvalue` loops: marks every white object among the given values. */
    method MarkValues(vs: seq<Val>, ghost ex: set<nat>, ghost R: set<nat>)
      requires Marking(heap, gray, again, ex, R) && forall v :: v in vs && v.Ref? ==> v.id in R
      modifies `heap, `gray
      ensures Marking(heap, gray, again, ex, R) && Marks(old(heap), old(gray), heap, gray)
      ensures forall v :: v in vs && v.Ref? ==> Marked(heap, v.id)
      decreases Whites(heap), 3
    {
      for i := 0 to |vs|
        invariant Marking(heap, gray, again, ex, R) && Marks(old(heap), old(gray), heap, gray)
        invariant forall k :: 0 <= k < i && vs[k].Ref? ==> Marked(heap, vs[k].id)
      {
        MarkNext(vs[i], ex, R, old(heap), old(gray));
      }
    }

    /** One value more, since the heap was `h0`. */
    method MarkNext(v: Val, ghost ex: set<nat>, ghost R: set<nat>, ghost h0: map<nat, Obj>, ghost g0: seq<nat>)
      requires Marking(heap, gray, again, ex, R) && (v.Ref? ==> v.id in R) && Marks(h0, g0, heap, gray)
      modifies `heap, `gray
      ensures Marking(heap, gray, again, ex, R) && Marks(h0, g0, heap, gray) && (v.Ref? ==> Marked(heap, v.id))
      ensures forall id :: Marked(old(heap), id) ==> Marked(heap, id)
      decreases Whites(h0), 2
    {
      FewerWhites(h0, g0, heap, gray);
      ghost var h1, g1 := heap, gray;
      MarkValue(v, ex, R);
      MarksTrans(h0, g0, h1, g1, heap, gray);
    }

    /** The same for all that one object holds. */
    method MarkHeld(a: nat, vs: seq<Val>, ghost ex: set<nat>, ghost R: set<nat>)
      requires Marking(heap, gray, again, ex, R) && Marked(heap, a) && vs == Holds(heap, a)
      modifies `heap, `gray
      ensures Marking(heap, gray, again, ex, R) && Marks(old(heap), old(gray), heap, gray)
      ensures forall b :: PointsTo(heap, a, b) ==> Marked(heap, b)
      decreases Whites(heap), 4
    {
      assert forall v :: v in vs && v.Ref? ==> PointsTo(heap, a, v.id);
      MarkValues(vs, ex, R);
      SamePointsTo(old(heap), heap);
    }

    /** The markvalue macro. */
    method MarkValue(v: Val, ghost ex: set<nat>, ghost R: set<nat>)
      requires Marking(heap, gray, again, ex, R) && (v.Ref? ==> v.id in R)
      modifies `heap, `gray
      ensures Marking(heap, gray, again, ex, R) && Marks(old(heap), old(gray), heap, gray)
      ensures v.Ref? ==> Marked(heap, v.id)
      decreases Whites(heap), 1
    {
      if v.Ref? && IsWhite(heap, v.id) {
        MarkObject(v.id, ex, R);
      }
    }
  
    /** propagatemark: traverses one gray object, turning it black unless it is a thread. */
    method PropagateMark(ghost ex: set<nat>, ghost R: set<nat>)
      requires Marking(heap, gray, again, ex, R) && gray != []
      modifies `heap, `gray, `again
      ensures Marking(heap, gray, again, ex, R) && Darkens(old(heap), heap)
      ensures forall id :: id in old(again) ==> id in again
      ensures ToDo(heap, gray) < old(ToDo(heap, gray))
    {
      var o := TakeGray(ex, R);
      ghost var h1, g1 := heap, gray;
      MarkHeld(o, heap[o].slots, ex + {o}, R);
      LessToDo(h1, g1, heap, gray);
      Settle(heap, gray, again, o, ex, R);
    }

    /** The first gray object leaves the list: a thread stays gray, on hold, any other object turns black. */
    method TakeGray(ghost ex: set<nat>, ghost R: set<nat>) returns (o: nat)
      requires Marking(heap, gray, again, ex, R) && gray != []
      modifies `heap, `gray, `again
      ensures Marking(heap, gray, again, ex + {o}, R) && Darkens(old(heap), heap)
      ensures Marked(heap, o) && Traversable(heap[o].kind) && (o in again || heap[o].color == Black)
      ensures ToDo(heap, gray) < old(ToDo(heap, gray)) && forall id :: id in old(again) ==> id in again
    {
      o := gray[0];
      if heap[o].kind == Thread {
        PopHold(heap, gray, again, ex, R);
        gray := gray[1..];
        again := [o] + again;
      } else {
        SetColor(o, Black);
        PopBlack(old(heap), heap, gray, again, ex, R);
        gray := gray[1..];
      }
    }

    /** propagateall */
    method PropagateAll(ghost ex: set<nat>, ghost R: set<nat>)
      requires Marking(heap, gray, again, ex, R)
      modifies `heap, `gray, `again
      ensures Marking(heap, gray, again, ex, R) && Darkens(old(heap), heap) && gray == []
      ensures forall id :: id in old(again) ==> id in again
    {
      while gray != []
        invariant Marking(heap, gray, again, ex, R) && Darkens(old(heap), heap)
        invariant forall id :: id in old(again) ==> id in again
        decreases ToDo(heap, gray)
      {
        ghost var h1 := heap;
        PropagateMark(ex, R);
        DarkensTrans(old(heap), h1, heap);
      }
    }
  
    /** A row of `markvalue` on roots. */
    method MarkAll(vs: seq<Val>, ghost ex: set<nat>, ghost R: set<nat>)
      requires Marking(heap, gray, again, ex, R) && forall v :: v in vs && v.Ref? ==> v.id in R
      modifies `heap, `gray
      ensures Marking(heap, gray, again, ex, R) && Darkens(old(heap), heap)
      ensures forall v :: v in vs && v.Ref? ==> Marked(heap, v.id)
    {
      MarkValues(vs, ex, R);
      MarksDarken(old(heap), old(gray), heap, gray);
    }

    /** The values that markroot marks: the main thread, its globals, the registry, the metatables
        of the basic types. */
    function RootValues(): (vs: seq<Val>)
      reads this
      requires mainthread in heap
      ensures Ref(mainthread) in vs && Ref(registry) in vs
      ensures forall v :: v in vs && v.Ref? ==>
        IsRoot(Snap(), v.id) || PointsTo(heap, mainthread, v.id)
    {
      var held := Holds(heap, mainthread);
      var globals := if held != [] then held[0] else Nil;
      [Ref(mainthread), globals, Ref(registry)] + mt
    }

    /** markroot: forgets the gray lists, then marks the roots. */
    method MarkRoot(ghost R: set<nat>)
      requires Within(heap, R) && HasRoots(Snap(), R) && KindColors(heap)
      requires forall id :: id in heap ==> heap[id].color.White?
      modifies `heap, `gray, `again, `phase
      ensures Marking(heap, gray, again, {}, R) && Darkens(old(heap), heap)
      ensures Marked(heap, mainthread) && Marked(heap, registry) && phase == Propagate
    {
      gray, again := [], [];
      assert IsRoot(Snap(), mainthread);
      MarkAll(RootValues(), {}, R);
      phase := Propagate;
    }

    /** remarkupvals: marks again the values of the open upvalues that are marked themselves. */
    method RemarkUpvals(ghost ex: set<nat>, ghost R: set<nat>)
      requires Marking(heap, gray, again, ex + Elems(uvhead), R)
      requires forall u :: u in uvhead ==> IsOpen(heap, u)
      modifies `heap, `gray
      ensures Marking(heap, gray, again, ex, R) && Darkens(old(heap), heap)
    {
      for i := 0 to |uvhead|
        invariant Marking(heap, gray, again, ex + Elems(uvhead[i..]), R) && Darkens(old(heap), heap)
      {
        assert ex + Elems(uvhead[i..]) == ex + Elems(uvhead[i + 1..]) + {uvhead[i]};
        assert IsOpen(old(heap), uvhead[i]);
        ghost var h1 := heap;
        RemarkUpval(uvhead[i], ex + Elems(uvhead[i + 1..]), R);
        DarkensTrans(old(heap), h1, heap);
      }
      assert ex + Elems(uvhead[|uvhead|..]) == ex;
    }

    method RemarkUpval(uv: nat, ghost ex: set<nat>, ghost R: set<nat>)
      requires Marking(heap, gray, again, ex + {uv}, R) && IsOpen(heap, uv)
      modifies `heap, `gray
      ensures Marking(heap, gray, again, ex, R) && Darkens(old(heap), heap)
    {
      if heap[uv].color == Gray {
        MarkHeld(uv, [UpvalValue(heap, uv)], ex + {uv}, R);
        MarksDarken(old(heap), old(gray), heap, gray);
        Settle(heap, gray, again, uv, ex, R);
      } else {
        Exempt(heap, gray, again, ex + {uv}, ex, R);
      }
    }
  
    /** The first half of atomic: open upvalues, then whatever they and the barriers left gray. */
    method FinishGray(ghost ex: set<nat>, ghost R: set<nat>)
      requires Marking(heap, gray, again, ex + Elems(uvhead), R)
      requires forall u :: u in uvhead ==> IsOpen(heap, u)
      modifies `heap, `gray, `again
      ensures Marking(heap, gray, again, ex, R) && gray == [] && Darkens(old(heap), heap)
      ensures forall id :: id in old(again) ==> id in again
    {
      RemarkUpvals(ex, R);
      ghost var h1 := heap;
      PropagateAll(ex, R);
      DarkensTrans(old(heap), h1, heap);
    }

    /** The running thread and the metatables of the basic types, marked again. */
    method RemarkRoots(ghost ex: set<nat>, ghost R: set<nat>)
      requires Marking(heap, gray, again, ex, R)
      requires running in R && forall v :: v in mt && v.Ref? ==> v.id in R
      modifies `heap, `gray, `again
      ensures Marking(heap, gray, again, ex, R) && gray == [] && Darkens(old(heap), heap)
      ensures Marked(heap, running) && forall v :: v in mt && v.Ref? ==> Marked(heap, v.id)
      ensures forall id :: id in old(again) ==> id in again
    {
      MarkAll([Ref(running)] + mt, ex, R);
      ghost var h1 := heap;
      assert Ref(running) in [Ref(running)] + mt && forall v :: v in mt ==> v in [Ref(running)] + mt;
      PropagateAll(ex, R);
      DarkensTrans(old(heap), h1, heap);
    }

    /** All of atomic before `grayagain`. */
    method RemarkAll(ghost R: set<nat>)
      requires Marking(heap, gray, again, Elems(again) + Elems(uvhead), R)
      requires forall u :: u in uvhead ==> IsOpen(heap, u)
      requires running in R && forall v :: v in mt && v.Ref? ==> v.id in R
      modifies `heap, `gray, `again
      ensures Marking(heap, gray, again, old(Elems(again)), R) && gray == [] && Darkens(old(heap), heap)
      ensures Marked(heap, running) && forall v :: v in mt && v.Ref? ==> Marked(heap, v.id)
      ensures forall id :: id in old(again) ==> id in again
    {
      ghost var A := Elems(again);
      FinishGray(A, R);
      ghost var h1 := heap;
      RemarkRoots(A, R);
      DarkensTrans(old(heap), h1, heap);
    }

    /** `grayagain`, traversed again: afterwards no marked object points to a white one. */
    method RemarkAgain(ghost ex: set<nat>, ghost R: set<nat>)
      requires Marking(heap, gray, again, ex, R) && gray == [] && forall id :: id in ex ==> id in again
      modifies `heap, `gray, `again
      ensures Darkens(old(heap), heap) && KindColors(heap) && Within(heap, R)
      ensures forall a, b :: Marked(heap, a) && PointsTo(heap, a, b) ==> Marked(heap, b)
    {
      TakeAgain(heap, again, ex, R);
      gray, again := again, [];
      PropagateAll({}, R);
    }

    /** The end of atomic: the other white becomes current and the sweep starts. */
    method Flip()
      modifies `phase, `white, `sweepstr, `sweepgc
      ensures phase == SweepString && white == !old(white) && sweepstr == 0 && sweepgc == 0
    {
      white := !white;
      sweepstr, sweepgc, phase := 0, 0, SweepString;
    }

    /** atomic: finishes the mark phase and flips the current white. */
    method Atomic(ghost R: set<nat>)
      requires Marking(heap, gray, again, Elems(again) + Elems(uvhead), R)
      requires forall u :: u in uvhead ==> IsOpen(heap, u)
      requires running in R && forall v :: v in mt && v.Ref? ==> v.id in R
      requires Marked(heap, mainthread) && Marked(heap, registry)
      modifies `heap, `gray, `again, `phase, `white, `sweepstr, `sweepgc
      ensures Darkens(old(heap), heap) && KindColors(heap) && Within(heap, R)
      ensures Marked(heap, mainthread) && Marked(heap, registry) && Marked(heap, running)
      ensures forall v :: v in mt && v.Ref? ==> Marked(heap, v.id)
      ensures forall a, b :: Marked(heap, a) && PointsTo(heap, a, b) ==> Marked(heap, b)
      ensures phase == SweepString && white == !old(white) && sweepstr == 0 && sweepgc == 0
    {
      MarkAllAtOnce(R);
      Flip();
    }

    /** All of atomic before the sweep is prepared. */
    method MarkAllAtOnce(ghost R: set<nat>)
      requires Marking(heap, gray, again, Elems(again) + Elems(uvhead), R)
      requires forall u :: u in uvhead ==> IsOpen(heap, u)
      requires running in R && forall v :: v in mt && v.Ref? ==> v.id in R
      modifies `heap, `gray, `again
      ensures Darkens(old(heap), heap) && KindColors(heap) && Within(heap, R)
      ensures Marked(heap, running) && forall v :: v in mt && v.Ref? ==> Marked(heap, v.id)
      ensures forall a, b :: Marked(heap, a) && PointsTo(heap, a, b) ==> Marked(heap, b)
    {
      RemarkAll(R);
      ghost var h1 := heap;
      RemarkAgain(old(Elems(again)), R);
      DarkensTrans(old(heap), h1, heap);
    }
  
    // ---------- sweeping ----------

    predicate IsDead(id: nat)
      reads this
      requires id in heap
    {
      heap[id].color == White(!white)
    }

    /** makewhite */
    method MakeWhite(id: nat)
      requires id in heap
      modifies `heap
      ensures Snap() == Whiten(old(Snap()), id)
    {
      heap := heap[id := heap[id].(color := White(white))];
    }

    /** luaF_freeupval, for an upvalue that is still open. */
    method FreeOpenUpval(u: nat)
      requires IsOpen(heap, u) && heap[u].kind.loc.th in heap
      modifies `heap, `uvhead
      ensures Snap() == FreeUpval(old(Snap()), u)
    {
      var th := heap[u].kind.loc.th;
      heap := heap[th := heap[th].(open := Minus(heap[th].open, u))] - {u};
      uvhead := Minus(uvhead, u);
    }

    /** One turn of sweeplist on the open upvalues of a thread. */
    method SweepUpval(th: nat, i: nat, ghost s0: State) returns (next: nat)
      requires SweepStep(s0, Snap()) && FreshPrefix(Snap(), th, i) && i < |heap[th].open|
      modifies `heap, `uvhead
      ensures SweepStep(s0, Snap()) && FreshPrefix(Snap(), th, next)
      ensures heap[th] == old(heap[th]).(open := heap[th].open)
      ensures |heap[th].open| - next < |old(heap[th].open)| - i
    {
      ghost var s1 := Snap();
      next := SweepOneUpval(th, i);
      SweepStepTrans(s0, s1, Snap());
    }

    method SweepOneUpval(th: nat, i: nat) returns (next: nat)
      requires Core(Snap()) && FreshPrefix(Snap(), th, i) && i < |heap[th].open|
      modifies `heap, `uvhead
      ensures SweepStep(old(Snap()), Snap()) && FreshPrefix(Snap(), th, next)
      ensures heap[th] == old(heap[th]).(open := heap[th].open)
      ensures |heap[th].open| - next < |old(heap[th].open)| - i
    {
      ghost var s := Snap();
      var u := heap[th].open[i];
      assert u in heap[th].open && IsOpen(heap, u);
      if !IsDead(u) || heap[u].fixed {
        SpareUpval(s, th, i);
        MakeWhite(u);
        next := i + 1;
      } else {
        DropUpval(s, th, i);
        FreeOpenUpval(u);
        next := i;
      }
    }

    /** sweepwholelist on the open upvalues of a thread: frees the dead ones, whitens the others. */
    method SweepOpen(th: nat)
      requires Core(Snap()) && th in heap
      modifies `heap, `uvhead
      ensures SweepStep(old(Snap()), Snap())
      ensures th in heap && heap[th] == old(heap[th]).(open := heap[th].open)
      ensures forall u :: u in heap[th].open ==> Fresh(Snap(), u)
    {
      ghost var s0, o := Snap(), heap[th];
      var i: nat := 0;
      while i < |heap[th].open|
        invariant SweepStep(s0, Snap()) && FreshPrefix(Snap(), th, i) && heap[th] == o.(open := heap[th].open)
        decreases |heap[th].open| - i
      {
        i := SweepUpval(th, i, s0);
      }
      WholePrefix(Snap(), th, i);
    }
  
    /** The inner part of luaF_close outside the mark phase: the upvalue leaves the open lists, takes
        over its value and joins the root list in the current white. */
    method CloseOpenUpval(u: nat)
      requires IsOpen(heap, u) && heap[u].kind.loc.th in heap && heap[u].kind.loc.th != u
      modifies `heap, `uvhead, `rootgc, `sweepgc
      ensures Snap() == CloseUpval(old(Snap()), u, White(white))
      ensures heap.Keys == old(heap.Keys)
      ensures heap[old(heap[u].kind.loc.th)].open == Minus(old(heap[heap[u].kind.loc.th].open), u)
    {
      var th := heap[u].kind.loc.th;
      var cell := Obj(Upval(Own), White(white), heap[u].fixed, [UpvalValue(heap, u)], heap[u].open);
      heap := heap[th := heap[th].(open := Minus(heap[th].open, u))][u := cell];
      uvhead := Minus(uvhead, u);
      rootgc := [u] + rootgc;
      sweepgc := if sweepgc == 0 then 0 else sweepgc + 1;
    }

    /** luaE_freethread closes what is left of the thread's open upvalues, all of them white again. */
    method CloseSurvivors(th: nat, ghost s0: State)
      requires Sweeping(s0, Snap()) && Leaving(Snap(), th)
      modifies `heap, `uvhead, `rootgc, `sweepgc
      ensures Sweeping(s0, Snap()) && Condemned(Snap(), th)
      ensures heap.Keys == old(heap.Keys)
    {
      while heap[th].open != []
        invariant Sweeping(s0, Snap()) && heap.Keys == old(heap.Keys) && Leaving(Snap(), th)
        decreases |heap[th].open|
      {
        CloseFirst(th, s0);
      }
    }

    method CloseFirst(th: nat, ghost s0: State)
      requires Sweeping(s0, Snap()) && Leaving(Snap(), th) && heap[th].open != []
      modifies `heap, `uvhead, `rootgc, `sweepgc
      ensures Sweeping(s0, Snap()) && Leaving(Snap(), th)
      ensures heap.Keys == old(heap.Keys) && heap[th].open == old(heap[th].open[1..])
    {
      var u := heap[th].open[0];
      FirstOpen(heap, uvhead, th);
      CloseNext(s0, Snap(), th, u);
      CloseOpenUpval(u);
    }

    /** freeobj for an object of the root list: the object leaves the list and the heap. */
    method FreeObj(id: nat)
      modifies `heap, `rootgc
      ensures Snap() == FreeObject(old(Snap()), id)
    {
      heap := heap - {id};
      rootgc := Minus(rootgc, id);
    }

    /** The first half of a turn of sweeplist: a thread's open upvalues are swept before it. */
    method SweepOpenOf(curr: nat, ghost s0: State)
      requires Sweeping(s0, Snap()) && sweepgc < |rootgc| && rootgc[sweepgc] == curr && curr in heap
      modifies `heap, `uvhead
      ensures Sweeping(s0, Snap()) && curr in heap && heap[curr] == old(heap[curr]).(open := heap[curr].open)
      ensures heap.Keys <= old(heap.Keys)
      ensures forall u :: u in heap[curr].open ==> Fresh(Snap(), u)
    {
      if heap[curr].kind == Thread {
        SweepOpen(curr);
        OpenSwept(s0, old(Snap()), Snap());
      } else {
        OnlyThreadsOpen(heap, uvhead, curr);
      }
    }

    /** The other half, for an object that stays. */
    method Keep(curr: nat, ghost s0: State)
      requires Sweeping(s0, Snap()) && sweepgc < |rootgc| && rootgc[sweepgc] == curr && Spared(Snap(), curr)
      requires forall u :: u in heap[curr].open ==> Fresh(Snap(), u)
      modifies `heap, `sweepgc
      ensures Sweeping(s0, Snap()) && Ahead(old(Snap()), Snap())
    {
      ghost var s := Snap();
      Pass(curr);
      KeepRoot(s0, s, curr, Snap());
    }

    method Pass(curr: nat)
      requires curr in heap
      modifies `heap, `sweepgc
      ensures Snap() == Whiten(old(Snap()), curr).(sweepgc := old(sweepgc) + 1)
    {
      MakeWhite(curr);
      sweepgc := sweepgc + 1;
    }

    /** The other half, for an object to be erased. */
    method Erase(curr: nat, ghost s0: State)
      requires Sweeping(s0, Snap()) && Leaving(Snap(), curr)
      modifies `heap, `uvhead, `rootgc, `sweepgc
      ensures Sweeping(s0, Snap()) && Ahead(old(Snap()), Snap())
    {
      CloseSurvivors(curr, s0);
      DropRoot(s0, Snap(), curr);
      FreeObj(curr);
      assert curr in old(heap) && curr !in heap;
    }

    method SweepCurr(curr: nat, ghost s0: State)
      requires Sweeping(s0, Snap()) && sweepgc < |rootgc| && rootgc[sweepgc] == curr && curr in heap
      requires forall u :: u in heap[curr].open ==> Fresh(Snap(), u)
      modifies `heap, `uvhead, `rootgc, `sweepgc
      ensures Sweeping(s0, Snap())
      ensures Ahead(old(Snap()), Snap())
    {
      if !IsDead(curr) || heap[curr].fixed {
        Keep(curr, s0);
      } else {
        DeadLeaves(Snap(), curr);
        Erase(curr, s0);
      }
    }

    /** One turn of sweeplist on the root list: the object at the cursor is kept and whitened, or
        freed. */
    method SweepNext(ghost s0: State)
      requires Sweeping(s0, Snap()) && sweepgc < |rootgc|
      modifies `heap, `uvhead, `rootgc, `sweepgc
      ensures Sweeping(s0, Snap())
      ensures Ahead(old(Snap()), Snap())
    {
      var curr := rootgc[sweepgc];
      assert curr in rootgc;
      SweepOpenOf(curr, s0);
      ghost var s1 := Snap();
      SweepCurr(curr, s0);
      AheadAfter(old(Snap()), s1, Snap());
    }

    /** sweeplist on the root list, at most `count` objects. */
    method SweepList(count: nat)
      requires Core(Snap()) && SweptRoots(Snap())
      modifies `heap, `uvhead, `rootgc, `sweepgc
      ensures Sweeping(old(Snap()), Snap()) && heap.Keys <= old(heap.Keys)
      ensures old(sweepgc) >= |old(rootgc)| ==> unchanged(this)
      ensures count > 0 && old(sweepgc) < |old(rootgc)| ==> Ahead(old(Snap()), Snap())
    {
      var n := count;
      while sweepgc < |rootgc| && n > 0
        invariant Sweeping(old(Snap()), Snap()) && heap.Keys <= old(heap.Keys)
        invariant n < count ==> Ahead(old(Snap()), Snap())
        invariant n == count ==> unchanged(this)
        invariant old(sweepgc) >= |old(rootgc)| ==> n == count
        decreases n
      {
        ghost var s1 := Snap();
        SweepNext(old(Snap()));
        AheadMore(old(Snap()), s1, Snap(), n < count);
        n := n - 1;
      }
    }

    /** One turn of sweeplist on a bucket of the string table. */
    method SweepInterned(b: nat, i: nat, ghost s0: State) returns (next: nat)
      requires BucketTo(s0, Snap(), b, i) && i < |strt[b]|
      modifies `heap, `strt
      ensures BucketTo(s0, Snap(), b, next) && |strt[b]| - next < |old(strt[b])| - i
    {
      ghost var s := Snap();
      next := SweepOneString(b, i);
      BucketGoesOn(s0, s, Snap(), b, i, next);
    }

    method SweepOneString(b: nat, i: nat) returns (next: nat)
      requires Core(Snap()) && FreshBucket(Snap(), b, i) && i < |strt[b]|
      modifies `heap, `strt
      ensures SweepStep(old(Snap()), Snap()) && FreshBucket(Snap(), b, next) && BucketFrame(old(Snap()), Snap(), b)
      ensures |strt[b]| - next < |old(strt[b])| - i
    {
      ghost var s := Snap();
      var x := strt[b][i];
      assert x in strt[b];
      if !IsDead(x) || heap[x].fixed {
        SpareString(s, b, i);
        MakeWhite(x);
        next := i + 1;
      } else {
        DropString(s, b, i);
        EraseString(b, x);
        next := i;
      }
    }

    /** freeobj for a string. */
    method EraseString(b: nat, x: nat)
      requires b < |strt|
      modifies `heap, `strt
      ensures Snap() == FreeString(old(Snap()), b, x)
    {
      heap := heap - {x};
      strt := strt[b := Minus(strt[b], x)];
    }

    /** sweepwholelist on a bucket of the string table. */
    method SweepBucket(b: nat)
      requires Core(Snap()) && b < |strt|
      modifies `heap, `strt
      ensures BucketSwept(old(Snap()), Snap(), b)
    {
      var i: nat := 0;
      ghost var s := Snap();
      BucketStarts(s, b);
      while i < |strt[b]|
        invariant BucketTo(s, Snap(), b, i)
        decreases |strt[b]| - i
      {
        i := SweepInterned(b, i, s);
      }
      AllFresh(s, Snap(), b, i);
    }

    // ---------- the step of the collector ----------

    /** The state GCSpause: a new cycle marks its roots. */
    method StepPause(ghost R: set<nat>)
      requires Inv(Snap()) && Frame(Snap(), R) && (phase == Pause || phase == Finalize)
      modifies `heap, `gray, `again, `phase
      ensures Inv(Snap()) && phase == Propagate && Confined(Snap(), R)
      ensures Collects(old(Snap()), Snap()) && forall id :: Alive(old(Snap()), id) ==> Alive(Snap(), id)
    {
      ghost var s := Snap();
      ReadyToStart(s, R);
      StartMarks(R);
      MarkStepOk(s, Snap(), {}, R);
      StillAlive(s, Snap());
    }

    method StartMarks(ghost R: set<nat>)
      requires Within(heap, R) && HasRoots(Snap(), R) && KindColors(heap)
      requires forall id :: id in heap ==> heap[id].color.White?
      modifies `heap, `gray, `again, `phase
      ensures MarkStep(old(Snap()), Snap(), {}, R)
    {
      MarkRoot(R);
    }
  
    /** The state GCSpropagate: one gray object is traversed. */
    method StepPropagate(ghost R: set<nat>)
      requires Inv(Snap()) && Frame(Snap(), R) && Confined(Snap(), R) && phase == Propagate && gray != []
      modifies `heap, `gray, `again
      ensures GoodStep(old(Snap()), Snap(), R)
    {
      ghost var s := Snap();
      ReadyToMark(s, R);
      PropagateOne(R);
      MarkStepOk(s, Snap(), OnHold(s), R);
    }

    method PropagateOne(ghost R: set<nat>)
      requires Marking(heap, gray, again, OnHold(Snap()), R) && phase == Propagate && gray != []
      requires Marked(heap, mainthread) && Marked(heap, registry)
      modifies `heap, `gray, `again
      ensures MarkStep(old(Snap()), Snap(), OnHold(old(Snap())), R)
      ensures ToDo(heap, gray) < old(ToDo(heap, gray))
    {
      PropagateMark(OnHold(Snap()), R);
    }

    /** The state GCSpropagate with nothing gray: atomic. */
    method StepAtomic(ghost R: set<nat>)
      requires Inv(Snap()) && Frame(Snap(), R) && Confined(Snap(), R) && phase == Propagate && gray == []
      modifies `heap, `gray, `again, `phase, `white, `sweepstr, `sweepgc
      ensures GoodStep(old(Snap()), Snap(), R)
    {
      ghost var s := Snap();
      ReadyToMark(s, R);
      ReadyForAtomic(s, R);
      RunAtomic(R);
      AtomicStep(s, Snap(), R);
    }

    method RunAtomic(ghost R: set<nat>)
      requires Marking(heap, gray, again, Elems(again) + Elems(uvhead), R)
      requires forall u :: u in uvhead ==> IsOpen(heap, u)
      requires running in R && forall v :: v in mt && v.Ref? ==> v.id in R
      requires Marked(heap, mainthread) && Marked(heap, registry)
      modifies `heap, `gray, `again, `phase, `white, `sweepstr, `sweepgc
      ensures AtomicDone(old(Snap()), Snap(), R)
    {
      Atomic(R);
    }

    /** The state GCSsweepstring: one bucket of the string table is swept. */
    method StepSweepString(ghost R: set<nat>)
      requires Inv(Snap()) && Confined(Snap(), R) && phase == SweepString
      modifies `heap, `strt, `sweepstr, `phase
      ensures GoodStep(old(Snap()), Snap(), R)
    {
      ghost var s := Snap();
      NextBucket();
      StringStep(s, Snap(), R);
    }

    method NextBucket()
      requires Core(Snap()) && sweepstr < |strt| && phase == SweepString
      modifies `heap, `strt, `sweepstr, `phase
      ensures BucketDone(old(Snap()), Snap())
    {
      ghost var s := Snap();
      SweepBucket(sweepstr);
      ghost var t := Snap();
      PassBucket();
      BucketIsDone(s, t, Snap());
    }

    method PassBucket()
      modifies `sweepstr, `phase
      ensures sweepstr == old(sweepstr) + 1 && phase == if sweepstr >= |strt| then Sweep else old(phase)
    {
      sweepstr := sweepstr + 1;
      if sweepstr >= |strt| {
        phase := Sweep;
      }
    }

    /** The state GCSsweep: at most 40 objects of the root list are swept. */
    method StepSweep(ghost R: set<nat>)
      requires Inv(Snap()) && Confined(Snap(), R) && phase == Sweep
      modifies `heap, `uvhead, `rootgc, `sweepgc, `phase
      ensures GoodStep(old(Snap()), Snap(), R)
    {
      ghost var s := Snap();
      SweepList(GCSWEEPMAX);
      ghost var t := Snap();
      EndSweep();
      RootStep(s, t, Snap(), R);
    }

    method EndSweep()
      modifies `phase
      ensures phase == if sweepgc == |rootgc| then Finalize else old(phase)
    {
      if sweepgc == |rootgc| {
        phase := Finalize;
      }
    }

    /** The state GCSfinalize, with no finalizer to call. */
    method StepFinalize(ghost R: set<nat>)
      requires Inv(Snap()) && Confined(Snap(), R) && phase == Finalize
      modifies `phase
      ensures GoodStep(old(Snap()), Snap(), R)
    {
      phase := Pause;
    }
  
    /** singlestep outside GCSpause: one step of the cycle under way. */
    method CycleStep(ghost R: set<nat>)
      requires Inv(Snap()) && Frame(Snap(), R) && Confined(Snap(), R) && phase != Pause
      modifies this
      ensures GoodStep(old(Snap()), Snap(), R)
    {
      match phase {
        case Propagate =>
          if gray != [] {
            StepPropagate(R);
          } else {
            StepAtomic(R);
          }
        case SweepString => StepSweepString(R);
        case Sweep => StepSweep(R);
        case Finalize => StepFinalize(R);
      }
    }

    /** singlestep: whatever the program can reach is neither freed nor changed, and a cycle under way goes on. */
    method SingleStep()
      requires Inv(Snap())
      modifies this
      ensures Inv(Snap()) && Collects(old(Snap()), Snap())
      ensures if old(phase) == Pause then phase == Propagate else Progress(old(Snap()), Snap())
    {
      ghost var R := AliveSet(Snap());
      AliveFrame(Snap());
      if phase == Pause {
        StepPause(R);
      } else {
        CycleStep(R);
      }
    }
  
    /** luaC_fullgc: finishes the sweep under way, then runs a whole cycle.  It ends in GCSpause with
        exactly the objects that were reachable at the call, and the fixed ones. */
    method FullGC()
      requires Inv(Snap())
      modifies this
      ensures Inv(Snap()) && phase == Pause
      ensures SameView(old(Snap()), Snap(), ReachSet(old(Snap())))
      ensures forall id :: Reachable(old(Snap()), id) ==> id in heap
      ensures forall id :: id in heap ==> Reachable(old(Snap()), id) || heap[id].fixed
    {
      ghost var s0 := Snap();
      ghost var R := ReachSet(s0);
      FinishSweep(s0);
      RestartCycle(s0, R);
      FinishCycle(s0, R);
      NothingElseLeft(Snap(), R);
      ReachableInSet(s0);
    }

    /** A mark phase under way is dropped; "finish any pending sweep phase". */
    method FinishSweep(ghost s0: State)
      requires Inv(Snap()) && s0 == Snap()
      modifies this
      ensures Inv(Snap()) && phase == Finalize && SameView(s0, Snap(), ReachSet(s0))
    {
      ghost var R := ReachSet(s0);
      if phase == Pause || phase == Propagate {
        DropMarks(s0);
      }
      SweepToEnd(s0, R);
    }

    method DropMarks(ghost s0: State)
      requires Inv(Snap()) && s0 == Snap() && (phase == Pause || phase == Propagate)
      modifies this
      ensures Inv(Snap()) && phase == SweepString && SameView(s0, Snap(), ReachSet(s0))
    {
      Restart();
      DropKeepsView(s0, Snap());
    }

    method Restart()
      modifies this
      ensures Snap() == old(Snap()).(sweepstr := 0, sweepgc := 0, gray := [], again := [], phase := SweepString)
    {
      sweepstr, sweepgc := 0, 0;
      gray, again := [], [];
      phase := SweepString;
    }

    method SweepToEnd(ghost s0: State, ghost R: set<nat>)
      requires Inv(Snap()) && phase != Pause && phase != Propagate && SameView(s0, Snap(), R)
      modifies this
      ensures Inv(Snap()) && phase == Finalize && SameView(s0, Snap(), R)
    {
      while phase != Finalize
        invariant Inv(Snap()) && phase != Pause && phase != Propagate && SameView(s0, Snap(), R)
        decreases Rank(phase), Work(Snap()), Left(Snap())
      {
        ViewStep(s0, R, AliveSet(Snap()));
      }
    }

    /** A step of the cycle, seen from the state `s0`. */
    method ViewStep(ghost s0: State, ghost R: set<nat>, ghost Q: set<nat>)
      requires Inv(Snap()) && phase != Pause && SameView(s0, Snap(), R)
      requires (Q == R && Confined(Snap(), R)) || Q == AliveSet(Snap())
      modifies this
      ensures Inv(Snap()) && SameView(s0, Snap(), R) && Confined(Snap(), Q) && Progress(old(Snap()), Snap())
    {
      ghost var s1 := Snap();
      ReachFrame(s1);
      AliveFrame(s1);
      CycleStep(Q);
      SameViewStep(s0, s1, Snap(), R);
    }

    /** The fresh cycle starts: only roots are marked. */
    method RestartCycle(ghost s0: State, ghost R: set<nat>)
      requires Inv(Snap()) && phase == Finalize && SameView(s0, Snap(), R)
      modifies this
      ensures Inv(Snap()) && SameView(s0, Snap(), R) && Confined(Snap(), R)
    {
      ghost var s1 := Snap();
      ReachFrame(s1);
      StepPause(R);
      SameViewStep(s0, s1, Snap(), R);
    }

    /** From the marked roots to the end of the cycle. */
    method FinishCycle(ghost s0: State, ghost R: set<nat>)
      requires Inv(Snap()) && SameView(s0, Snap(), R) && Confined(Snap(), R)
      modifies this
      ensures Inv(Snap()) && phase == Pause && SameView(s0, Snap(), R) && Confined(Snap(), R)
    {
      while phase != Pause
        invariant Inv(Snap()) && SameView(s0, Snap(), R) && Confined(Snap(), R)
        decreases Rank(phase), Work(Snap()), Left(Snap())
      {
        ViewStep(s0, R, R);
      }
    }
  
    // ---------- single updates made for the running program ----------

    /** luaC_link at the head of the root list, and the linking of luaS_newudata further down. */
    method Link(pos: nat, id: nat, kind: Kind, slots: seq<Val>)
      requires pos <= |rootgc|
      modifies `heap, `rootgc, `sweepgc
      ensures Snap() == LinkAt(old(Snap()), pos, id, kind, slots)
    {
      heap := heap[id := Obj(kind, White(white), false, slots, [])];
      sweepgc := if sweepgc <= pos then sweepgc else sweepgc + 1;
      rootgc := InsertAt(rootgc, pos, id);
    }

    method LinkInterned(id: nat, hash: nat)
      requires 0 < |strt|
      modifies `heap, `strt
      ensures Snap() == LinkString(old(Snap()), id, hash)
    {
      var b := Lmod(hash, |strt|);
      heap := heap[id := Obj(Str(hash), White(white), false, [], [])];
      strt := strt[b := [id] + strt[b]];
    }

    method Write(o: nat, slots: seq<Val>)
      requires o in heap
      modifies `heap
      ensures Snap() == SetSlots(old(Snap()), o, slots)
    {
      heap := heap[o := heap[o].(slots := slots)];
    }

    /** luaC_barrierback */
    method BarrierBack(t: nat)
      requires t in heap
      modifies `heap, `again
      ensures Snap() == ToGrayAgain(old(Snap()), t)
    {
      heap := heap[t := heap[t].(color := Gray)];
      again := [t] + again;
    }

    method LinkOpen(id: nat, th: nat, slot: nat, pos: nat)
      requires th in heap && pos <= |heap[th].open|
      modifies `heap, `uvhead
      ensures Snap() == AddOpen(old(Snap()), id, th, slot, pos)
    {
      heap := heap[th := heap[th].(open := InsertAt(heap[th].open, pos, id))]
                  [id := Obj(Upval(Stack(th, slot)), White(white), false, [], [])];
      uvhead := [id] + uvhead;
    }

    /** The inner part of luaF_close while marking: a gray upvalue turns black. */
    method CloseMarked(u: nat, c: Color)
      requires IsOpen(heap, u) && heap[u].kind.loc.th in heap && heap[u].kind.loc.th != u
      modifies `heap, `uvhead, `rootgc, `sweepgc
      ensures Snap() == CloseUpval(old(Snap()), u, c)
    {
      var th := heap[u].kind.loc.th;
      var cell := Obj(Upval(Own), c, heap[u].fixed, [UpvalValue(heap, u)], heap[u].open);
      heap := heap[th := heap[th].(open := Minus(heap[th].open, u))][u := cell];
      uvhead := Minus(uvhead, u);
      rootgc := [u] + rootgc;
      sweepgc := if sweepgc == 0 then 0 else sweepgc + 1;
    }
  }
}

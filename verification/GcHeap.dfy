/** The heap of the incremental collector: objects, colours, lists and what must hold of them.

    Addresses are natural numbers.  A freed address leaves the map and may be used again. */
module GcHeap {
  import opened Numbers

  /** A Lua value, as far as the collector looks at it. */
  datatype Val = Nil | Prim(n: int) | Ref(id: nat)

  /** Where an upvalue's value lives: in the upvalue itself (closed) or in a stack slot (open). */
  datatype Loc = Own | Stack(th: nat, slot: nat)

  datatype Kind = Str(hash: nat) | Udata | Upval(loc: Loc) | Closure | Table | Thread | Proto

  /** The colour bits of `marked`: one of two whites, black, or neither. */
  datatype Color = White(w: bool) | Gray | Black

  /** A collectable object.  `slots` are the values it holds (slot 0 of a thread is its table of
      globals, the others its stack); `open` is a thread's list of open upvalues. */
  datatype Obj = Obj(kind: Kind, color: Color, fixed: bool, slots: seq<Val>, open: seq<nat>)

  datatype Phase = Pause | Propagate | SweepString | Sweep | Finalize

  /** A snapshot of the global state. */
  datatype State = State(
    heap: map<nat, Obj>, phase: Phase, white: bool, gray: seq<nat>, again: seq<nat>,
    rootgc: seq<nat>, strt: seq<seq<nat>>, uvhead: seq<nat>, sweepstr: nat, sweepgc: nat,
    mainthread: nat, running: nat, registry: nat, mt: seq<Val>)

  // ---------- reachability ----------

  predicate InHeap(h: map<nat, Obj>, v: Val) {
    v.Ref? ==> v.id in h
  }

  /** The value an upvalue shows to its closures. */
  function UpvalValue(h: map<nat, Obj>, id: nat): Val
    requires id in h && h[id].kind.Upval?
  {
    match h[id].kind.loc
    case Own => if |h[id].slots| == 1 then h[id].slots[0] else Nil
    case Stack(th, slot) =>
      if th in h && slot < |h[th].slots| then h[th].slots[slot] else Nil
  }

  /** The values an object holds: an open upvalue holds the stack slot it points to. */
  function Holds(h: map<nat, Obj>, id: nat): seq<Val>
    requires id in h
  {
    match h[id].kind
    case Upval(_) => [UpvalValue(h, id)]
    case Str(_) => []
    case _ => h[id].slots
  }

  /** An object that is not touched but in its colour; an open upvalue may have been closed. */
  ghost predicate SameContents(h: map<nat, Obj>, h': map<nat, Obj>, id: nat) {
    && id in h && id in h' && Holds(h', id) == Holds(h, id)
    && (h'[id].kind == h[id].kind || (h[id].kind.Upval? && h'[id].kind == Upval(Own)))
  }

  predicate PointsTo(h: map<nat, Obj>, a: nat, b: nat) {
    a in h && Ref(b) in Holds(h, a)
  }

  predicate IsRoot(s: State, id: nat) {
    id == s.mainthread || id == s.running || id == s.registry || Ref(id) in s.mt
  }

  predicate Edge(h: map<nat, Obj>, p: seq<nat>, i: int) {
    0 <= i && i + 1 < |p| && PointsTo(h, p[i], p[i + 1])
  }

  ghost predicate Path(s: State, p: seq<nat>) {
    && 0 < |p|
    && IsRoot(s, p[0])
    && forall i {:trigger Edge(s.heap, p, i)} :: 0 <= i < |p| - 1 ==> Edge(s.heap, p, i)
  }

  /** A path without its last object, and with one more. */
  lemma PathPrefix(s: State, p: seq<nat>, k: int)
    requires Path(s, p) && 0 < k <= |p|
    ensures Path(s, p[..k])
  {
    forall i {:trigger Edge(s.heap, p[..k], i)} | 0 <= i < k - 1
      ensures Edge(s.heap, p[..k], i)
    {
      assert Edge(s.heap, p, i);
    }
  }

  lemma PathLonger(s: State, p: seq<nat>, b: nat)
    requires Path(s, p) && PointsTo(s.heap, p[|p| - 1], b)
    ensures Path(s, p + [b])
  {
    forall i {:trigger Edge(s.heap, p + [b], i)} | 0 <= i < |p|
      ensures Edge(s.heap, p + [b], i)
    {
      assert i < |p| - 1 ==> Edge(s.heap, p, i);
    }
  }

  /** A chain of references leads from a root to the object. */
  ghost predicate Reachable(s: State, id: nat) {
    exists p :: Path(s, p) && p[|p| - 1] == id
  }

  ghost predicate Closed(h: map<nat, Obj>, R: set<nat>) {
    forall a, b :: a in R && PointsTo(h, a, b) ==> b in R
  }

  ghost predicate HasRoots(s: State, R: set<nat>) {
    forall id :: IsRoot(s, id) ==> id in R
  }

  /** A set that holds the roots and is closed under references holds every reachable object. */
  lemma {:induction false} ReachableInClosed(s: State, R: set<nat>, p: seq<nat>)
    requires Closed(s.heap, R) && HasRoots(s, R) && Path(s, p)
    ensures p[|p| - 1] in R
    decreases |p|
  {
    if |p| > 1 {
      PathPrefix(s, p, |p| - 1);
      ReachableInClosed(s, R, p[..|p| - 1]);
      assert Edge(s.heap, p, |p| - 2);
    }
  }

  /** The reachable addresses that are in the heap. */
  ghost function ReachSet(s: State): set<nat> {
    set id | id in s.heap && Reachable(s, id)
  }

  lemma ReachStep(s: State, a: nat, b: nat)
    requires Reachable(s, a) && PointsTo(s.heap, a, b)
    ensures Reachable(s, b)
  {
    var p :| Path(s, p) && p[|p| - 1] == a;
    PathLonger(s, p, b);
    assert (p + [b])[|p + [b]| - 1] == b;
  }

  lemma RootReachable(s: State, id: nat)
    requires IsRoot(s, id)
    ensures Reachable(s, id)
  {
    assert Path(s, [id]);
  }

  // ---------- shape of the object lists ----------

  ghost predicate NoDup(q: seq<nat>) {
    forall i, j :: 0 <= i < j < |q| ==> q[i] != q[j]
  }

  predicate OnStack(k: Kind) {
    k.Upval? && k.loc.Stack?
  }

  /** Kinds linked in the `rootgc` list; strings and open upvalues have lists of their own. */
  predicate InRootList(k: Kind) {
    !k.Str? && !OnStack(k)
  }

  ghost predicate RootListOk(s: State) {
    && NoDup(s.rootgc)
    && (forall id :: id in s.rootgc <==> id in s.heap && InRootList(s.heap[id].kind))
  }

  ghost predicate StringsOk(s: State) {
    && 0 < |s.strt|
    && (forall b :: 0 <= b < |s.strt| ==> NoDup(s.strt[b]))
    && (forall b, id {:trigger id in s.strt[b]} :: 0 <= b < |s.strt| ==>
          (id in s.strt[b] <==> id in s.heap && s.heap[id].kind.Str? && Lmod(s.heap[id].kind.hash, |s.strt|) == b))
  }

  predicate IsOpen(h: map<nat, Obj>, u: nat) {
    u in h && OnStack(h[u].kind)
  }

  /** Each thread's `open` list and the global `uvhead` list hold exactly the open upvalues. */
  ghost predicate UpvalsOk(h: map<nat, Obj>, uvhead: seq<nat>) {
    && (forall u :: u in uvhead <==> IsOpen(h, u))
    && (forall th {:trigger h[th].open} :: th in h ==> NoDup(h[th].open))
    && (forall th, u {:trigger u in h[th].open} :: th in h ==>
          (u in h[th].open <==> IsOpen(h, u) && h[u].kind.loc.th == th))
    && (forall u {:trigger OnStack(h[u].kind)} :: u in h && OnStack(h[u].kind) ==>
          && h[u].kind.loc.th in h
          && h[h[u].kind.loc.th].kind == Thread
          && h[u].kind.loc.slot < |h[h[u].kind.loc.th].slots|)
    && (forall u {:trigger h[u].slots} :: u in h && h[u].kind == Upval(Own) ==> |h[u].slots| == 1)
  }

  predicate HigherOpen(h: map<nat, Obj>, th: nat, i: int, j: int) {
    && th in h && 0 <= i < j < |h[th].open| && IsOpen(h, h[th].open[i]) && IsOpen(h, h[th].open[j])
    && h[h[th].open[i]].kind.loc.slot > h[h[th].open[j]].kind.loc.slot
  }

  /** The open upvalues of a thread are listed by descending slots: one for each slot at most. */
  ghost predicate OpenSorted(h: map<nat, Obj>) {
    forall th, i, j {:trigger HigherOpen(h, th, i, j)} :: th in h && 0 <= i < j < |h[th].open| ==> HigherOpen(h, th, i, j)
  }

  /** Lists and slots of open upvalues are as they were. */
  lemma SortedKept(h: map<nat, Obj>, h': map<nat, Obj>)
    requires OpenSorted(h)
    requires forall th :: th in h' && h'[th].open != [] ==> th in h && h'[th].open == h[th].open
    requires forall u :: IsOpen(h, u) ==> u in h' && h'[u].kind == h[u].kind
    ensures OpenSorted(h')
  {
    forall th, i, j {:trigger HigherOpen(h', th, i, j)} | th in h' && 0 <= i < j < |h'[th].open|
      ensures HigherOpen(h', th, i, j)
    {
      assert HigherOpen(h, th, i, j);
    }
  }

  ghost predicate RootsOk(s: State) {
    && s.mainthread in s.heap && s.heap[s.mainthread].kind == Thread && s.heap[s.mainthread].fixed
    && s.running in s.heap && s.heap[s.running].kind == Thread
    && s.registry in s.heap && s.heap[s.registry].kind == Table
    && (forall v :: v in s.mt ==> InHeap(s.heap, v))
    && (forall id :: id in s.heap && s.heap[id].fixed ==> s.heap[id].kind.Str? || id == s.mainthread)
  }

  ghost predicate Shape(s: State) {
    && RootListOk(s) && StringsOk(s) && UpvalsOk(s.heap, s.uvhead) && RootsOk(s)
    && s.sweepgc <= |s.rootgc| && s.sweepstr <= |s.strt| && OpenSorted(s.heap)
  }

  // ---------- colours ----------

  predicate IsWhite(h: map<nat, Obj>, id: nat) {
    id in h && h[id].color.White?
  }

  predicate Marked(h: map<nat, Obj>, id: nat) {
    id in h && !h[id].color.White?
  }

  predicate Dead(s: State, id: nat)
    requires id in s.heap
  {
    s.heap[id].color == White(!s.white)
  }

  predicate Alive(s: State, id: nat) {
    id in s.heap && !Dead(s, id)
  }

  predicate LiveVal(s: State, v: Val) {
    v.Ref? ==> Alive(s, v.id)
  }

  /** Threads, open upvalues and strings are never black. */
  ghost predicate KindColors(h: map<nat, Obj>) {
    forall id :: id in h && h[id].color == Black ==>
      h[id].kind != Thread && !OnStack(h[id].kind) && !h[id].kind.Str?
  }

  /** What the collector promises the program: nothing alive refers to anything dead or freed. */
  ghost predicate NoDangling(s: State) {
    && (forall id :: IsRoot(s, id) ==> Alive(s, id))
    && (forall a, b :: Alive(s, a) && PointsTo(s.heap, a, b) ==> Alive(s, b))
  }

  predicate Traversable(k: Kind) {
    k == Closure || k == Table || k == Thread || k == Proto
  }

  /** The two gray lists are disjoint, so their shared link field is sound. */
  ghost predicate GrayLists(h: map<nat, Obj>, gray: seq<nat>, again: seq<nat>) {
    && NoDup(gray) && NoDup(again)
    && (forall id :: id in gray ==> id in h && h[id].color == Gray && Traversable(h[id].kind) && id !in again)
    && (forall id :: id in again ==> id in h && h[id].color == Gray && Traversable(h[id].kind))
  }

  /** A marked object outside the gray list (and outside `ex`) points to marked objects only, and
      is black unless it is a string, an open upvalue or on hold in `again`. */
  ghost predicate TriColor(h: map<nat, Obj>, gray: seq<nat>, again: seq<nat>, ex: set<nat>) {
    && (forall a, b :: Marked(h, a) && a !in gray && a !in ex && PointsTo(h, a, b) ==> Marked(h, b))
    && (forall a :: a in h && h[a].color == Gray && a !in gray && a !in ex ==>
          h[a].kind.Str? || OnStack(h[a].kind) || a in again)
  }

  ghost function Elems(q: seq<nat>): set<nat> {
    set id | id in q
  }

  /** Objects on hold for the atomic step. */
  ghost function OnHold(s: State): set<nat> {
    Elems(s.again) + Elems(s.uvhead)
  }

  predicate Fresh(s: State, id: nat) {
    id in s.heap && s.heap[id].color == White(s.white)
  }

  ghost predicate NoneDead(s: State) {
    forall id :: id in s.heap ==> !Dead(s, id)
  }

  ghost predicate SweptStrings(s: State, n: nat) {
    forall b, id :: 0 <= b < n && b < |s.strt| && id in s.strt[b] ==> Fresh(s, id)
  }

  /** An object the sweep has passed: white again, and so are its open upvalues. */
  ghost predicate Swept(s: State, id: nat) {
    Fresh(s, id) && forall u :: u in s.heap[id].open ==> Fresh(s, u)
  }

  ghost predicate SweptRoots(s: State) {
    s.sweepgc <= |s.rootgc| && forall id :: id in s.rootgc[..s.sweepgc] ==> Swept(s, id)
  }

  ghost predicate PhaseOk(s: State) {
    match s.phase
    case Pause => forall id :: id in s.heap ==> Fresh(s, id)
    case Finalize => forall id :: id in s.heap ==> Fresh(s, id)
    case Propagate =>
      && NoneDead(s) && GrayLists(s.heap, s.gray, s.again) && TriColor(s.heap, s.gray, s.again, OnHold(s))
      && Marked(s.heap, s.mainthread) && Marked(s.heap, s.registry)
    case SweepString => s.sweepgc == 0 && s.sweepstr < |s.strt| && SweptStrings(s, s.sweepstr)
    case Sweep => SweptStrings(s, |s.strt|) && SweptRoots(s)
  }

  /** The invariant of every run. */
  ghost predicate Inv(s: State) {
    Shape(s) && KindColors(s.heap) && NoDangling(s) && PhaseOk(s)
  }

  // ---------- what the invariant gives ----------

  /** No object reachable from the roots is dead or freed. */
  lemma ReachableIsAlive(s: State, id: nat)
    requires Shape(s) && NoDangling(s) && Reachable(s, id)
    ensures Alive(s, id)
  {
    var p :| Path(s, p) && p[|p| - 1] == id;
    var R := set x | x in s.heap && Alive(s, x);
    assert Closed(s.heap, R);
    ReachableInClosed(s, R, p);
  }

  /** The textbook form: while marking, no black object points to a white one. */
  lemma BlackNeverPointsToWhite(s: State, a: nat, b: nat)
    requires Inv(s) && s.phase == Propagate
    requires PointsTo(s.heap, a, b) && s.heap[a].color == Black
    ensures Marked(s.heap, b)
  {
    assert a !in OnHold(s);
    assert Alive(s, a);
  }

  lemma ReachSetClosed(s: State)
    requires Shape(s) && NoDangling(s)
    ensures Closed(s.heap, ReachSet(s)) && HasRoots(s, ReachSet(s))
  {
    forall a, b | a in ReachSet(s) && PointsTo(s.heap, a, b)
      ensures b in ReachSet(s)
    {
      ReachStep(s, a, b);
      ReachableIsAlive(s, b);
    }
    forall id | IsRoot(s, id)
      ensures id in ReachSet(s)
    {
      RootReachable(s, id);
      ReachableIsAlive(s, id);
    }
  }
}

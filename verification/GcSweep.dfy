/** The steps of the sweep, and of closing upvalues, as functions on snapshots, with what they keep. */
module GcSweep {
  import opened GcHeap

  /** A list without one address. */
  function Minus(q: seq<nat>, x: nat): (r: seq<nat>)
    ensures forall y :: y in r <==> y in q && y != x
    ensures |r| <= |q|
  {
    if q == [] then [] else if q[0] == x then Minus(q[1..], x) else [q[0]] + Minus(q[1..], x)
  }

  /** Cutting one link out of a list. */
  lemma {:induction false} MinusAt(q: seq<nat>, i: nat)
    requires NoDup(q) && i < |q|
    ensures Minus(q, q[i]) == q[..i] + q[i + 1..]
  {
    if i > 0 {
      assert q[0] != q[i];
      MinusAt(q[1..], i - 1);
      assert q[..i] == [q[0]] + q[1..][..i - 1];
    } else {
      MinusAbsent(q[1..], q[0]);
    }
  }

  lemma {:induction false} MinusAbsent(q: seq<nat>, x: nat)
    requires x !in q
    ensures Minus(q, x) == q
  {
    if q != [] {
      MinusAbsent(q[1..], x);
    }
  }

  lemma {:induction false} MinusNoDup(q: seq<nat>, x: nat)
    requires NoDup(q)
    ensures NoDup(Minus(q, x))
  {
    if q != [] {
      MinusNoDup(q[1..], x);
      var r := Minus(q[1..], x);
      assert q[0] !in q[1..];
      assert NoDup([q[0]] + r);
    }
  }

  /** The part of the invariant that does not depend on the phase. */
  ghost predicate Core(s: State) {
    Shape(s) && KindColors(s.heap) && NoDangling(s)
  }

  /** Whatever was alive stays alive and keeps its contents; whatever else survives was alive or
      is fixed, unless it is still dead. */
  ghost predicate Survives(s: State, t: State) {
    && t.white == s.white && t.mainthread == s.mainthread && t.running == s.running
    && t.registry == s.registry && t.mt == s.mt
    && (forall id :: Alive(s, id) ==> Alive(t, id))
    && (forall id :: Alive(s, id) ==> SameContents(s.heap, t.heap, id))
    && (forall id :: id in t.heap ==> id in s.heap && t.heap[id].fixed == s.heap[id].fixed)
    && (forall id :: Alive(t, id) ==> Alive(s, id) || s.heap[id].fixed)
  }

  /** Objects already swept stay swept, and so do the open upvalues of swept threads. */
  ghost predicate KeepsFresh(s: State, t: State) {
    forall x :: Fresh(s, x) ==>
      x in t.heap ==> Fresh(t, x) && forall u :: u in t.heap[x].open ==> u in s.heap[x].open
  }

  /** One step of a sweep, on the part of the state that all sweeps share. */
  ghost predicate SweepStep(s: State, t: State) {
    Core(t) && Survives(s, t) && KeepsFresh(s, t)
  }

  lemma SweepStepTrans(s: State, t: State, u: State)
    requires SweepStep(s, t) && SweepStep(t, u)
    ensures SweepStep(s, u)
  {
    SurvivesTrans(s, t, u);
  }

  lemma SurvivesTrans(s: State, t: State, u: State)
    requires Survives(s, t) && Survives(t, u)
    ensures Survives(s, u)
  {
    forall id | Alive(s, id)
      ensures SameContents(s.heap, u.heap, id)
    {
      assert SameContents(s.heap, t.heap, id) && SameContents(t.heap, u.heap, id);
    }
  }

  lemma SameHolds(h: map<nat, Obj>, h': map<nat, Obj>, a: nat)
    requires a in h && a in h' && h'[a].kind == h[a].kind && h'[a].slots == h[a].slots
    requires IsOpen(h, a) ==>
      var th := h[a].kind.loc.th; th in h && th in h' && h'[th].slots == h[th].slots
    ensures Holds(h', a) == Holds(h, a)
  {
  }

  /** Enough for nothing to dangle after a step: what was alive is untouched and the rest is dead
      or holds nothing. */
  lemma Survive(s: State, t: State)
    requires NoDangling(s)
    requires t.white == s.white && t.mainthread == s.mainthread && t.running == s.running
    requires t.registry == s.registry && t.mt == s.mt
    requires forall id :: Alive(s, id) ==> Alive(t, id)
    requires forall id :: Alive(s, id) ==> SameContents(s.heap, t.heap, id)
    requires forall a :: Alive(t, a) && !Alive(s, a) ==> Holds(t.heap, a) == []
    ensures NoDangling(t)
  {
    forall a, b | Alive(t, a) && PointsTo(t.heap, a, b)
      ensures Alive(t, b)
    {
      assert Alive(s, a) && SameContents(s.heap, t.heap, a) && PointsTo(s.heap, a, b);
    }
  }

  /** One upvalue is taken out of the list of its thread. */
  lemma SortedMinus(h: map<nat, Obj>, h': map<nat, Obj>, th: nat, u: nat)
    requires OpenSorted(h) && th in h && NoDup(h[th].open) && u in h[th].open
    requires forall x :: x in h' && x != th && h'[x].open != [] ==> x in h && h'[x].open == h[x].open
    requires th in h' ==> h'[th].open == Minus(h[th].open, u)
    requires forall x :: IsOpen(h, x) && x != u ==> x in h' && h'[x].kind == h[x].kind
    requires forall x, y :: x in h && x != th && y in h[x].open ==> y != u
    ensures OpenSorted(h')
  {
    var k :| 0 <= k < |h[th].open| && h[th].open[k] == u;
    MinusAt(h[th].open, k);
    forall x, i, j {:trigger HigherOpen(h', x, i, j)} | x in h' && 0 <= i < j < |h'[x].open|
      ensures HigherOpen(h', x, i, j)
    {
      if x == th {
        var a, b := if i < k then i else i + 1, if j < k then j else j + 1;
        assert h'[th].open[i] == h[th].open[a] != u && h'[th].open[j] == h[th].open[b] != u;
        assert HigherOpen(h, th, a, b);
      } else {
        assert h[x].open[i] in h[x].open && h[x].open[j] in h[x].open;
        assert HigherOpen(h, x, i, j);
      }
    }
  }

  // ---------- free a dead open upvalue (luaF_freeupval) ----------

  function FreeUpval(s: State, u: nat): State
    requires IsOpen(s.heap, u) && s.heap[u].kind.loc.th in s.heap
  {
    var th := s.heap[u].kind.loc.th;
    s.(heap := s.heap[th := s.heap[th].(open := Minus(s.heap[th].open, u))] - {u},
       uvhead := Minus(s.uvhead, u))
  }

  lemma FreeUpvalLists(s: State, u: nat)
    requires UpvalsOk(s.heap, s.uvhead) && IsOpen(s.heap, u)
    ensures UpvalsOk(FreeUpval(s, u).heap, FreeUpval(s, u).uvhead)
  {
    MinusNoDup(s.heap[s.heap[u].kind.loc.th].open, u);
  }

  lemma FreeUpvalShape(s: State, u: nat)
    requires Shape(s) && IsOpen(s.heap, u) && !IsRoot(s, u)
    ensures Shape(FreeUpval(s, u))
  {
    FreeUpvalLists(s, u);
    var t := FreeUpval(s, u);
    FreeUpvalSorted(s, u);
    assert RootListOk(t);
    assert StringsOk(t);
  }

  lemma FreeUpvalSorted(s: State, u: nat)
    requires Shape(s) && IsOpen(s.heap, u)
    ensures OpenSorted(FreeUpval(s, u).heap)
  {
    SortedMinus(s.heap, FreeUpval(s, u).heap, s.heap[u].kind.loc.th, u);
  }

  lemma FreeUpvalPoints(s: State, u: nat)
    requires Shape(s) && IsOpen(s.heap, u)
    ensures forall a, b :: PointsTo(FreeUpval(s, u).heap, a, b) <==> a != u && PointsTo(s.heap, a, b)
    ensures forall a :: a in s.heap && a != u ==> SameContents(s.heap, FreeUpval(s, u).heap, a)
  {
    var t := FreeUpval(s, u);
    forall a | a in t.heap
      ensures Holds(t.heap, a) == Holds(s.heap, a)
    {
      SameHolds(s.heap, t.heap, a);
    }
  }

  lemma FreeUpvalKeeps(s: State, u: nat)
    requires Core(s) && IsOpen(s.heap, u) && Dead(s, u)
    ensures Core(FreeUpval(s, u)) && Survives(s, FreeUpval(s, u))
  {
    assert !IsRoot(s, u);
    FreeUpvalShape(s, u);
    FreeUpvalSurvives(s, u);
    FreeUpvalColors(s, u);
    Survive(s, FreeUpval(s, u));
  }

  lemma FreeUpvalColors(s: State, u: nat)
    requires KindColors(s.heap) && IsOpen(s.heap, u) && s.heap[u].kind.loc.th in s.heap
    ensures KindColors(FreeUpval(s, u).heap)
  {
  }

  lemma FreeUpvalSurvives(s: State, u: nat)
    requires Shape(s) && IsOpen(s.heap, u) && Dead(s, u)
    ensures Survives(s, FreeUpval(s, u)) && forall id :: Alive(FreeUpval(s, u), id) ==> Alive(s, id)
  {
    FreeUpvalPoints(s, u);
  }

  // ---------- close an open upvalue (the inner part of luaF_close) ----------

  function CloseUpval(s: State, u: nat, c: Color): State
    requires IsOpen(s.heap, u) && s.heap[u].kind.loc.th in s.heap && s.heap[u].kind.loc.th != u
  {
    var th := s.heap[u].kind.loc.th;
    var cell := Obj(Upval(Own), c, s.heap[u].fixed, [UpvalValue(s.heap, u)], s.heap[u].open);
    s.(heap := s.heap[th := s.heap[th].(open := Minus(s.heap[th].open, u))][u := cell],
       uvhead := Minus(s.uvhead, u),
       rootgc := [u] + s.rootgc,
       sweepgc := if s.sweepgc == 0 then 0 else s.sweepgc + 1)
  }

  lemma CloseUpvalLists(s: State, u: nat, c: Color)
    requires UpvalsOk(s.heap, s.uvhead) && IsOpen(s.heap, u)
    ensures UpvalsOk(CloseUpval(s, u, c).heap, CloseUpval(s, u, c).uvhead)
  {
    MinusNoDup(s.heap[s.heap[u].kind.loc.th].open, u);
  }

  lemma CloseUpvalShape(s: State, u: nat, c: Color)
    requires Shape(s) && IsOpen(s.heap, u)
    ensures Shape(CloseUpval(s, u, c))
  {
    CloseUpvalLists(s, u, c);
    var t := CloseUpval(s, u, c);
    CloseUpvalSorted(s, u, c);
    assert RootListOk(t);
    assert StringsOk(t);
  }

  lemma CloseUpvalSorted(s: State, u: nat, c: Color)
    requires Shape(s) && IsOpen(s.heap, u)
    ensures OpenSorted(CloseUpval(s, u, c).heap)
  {
    SortedMinus(s.heap, CloseUpval(s, u, c).heap, s.heap[u].kind.loc.th, u);
  }

  /** A closed upvalue shows the value it showed while it was open. */
  lemma CloseUpvalPoints(s: State, u: nat, c: Color)
    requires Shape(s) && IsOpen(s.heap, u)
    ensures forall a, b :: PointsTo(CloseUpval(s, u, c).heap, a, b) <==> PointsTo(s.heap, a, b)
    ensures forall a :: a in s.heap ==> SameContents(s.heap, CloseUpval(s, u, c).heap, a)
    ensures UpvalValue(CloseUpval(s, u, c).heap, u) == UpvalValue(s.heap, u)
  {
    var t := CloseUpval(s, u, c);
    forall a | a in t.heap
      ensures Holds(t.heap, a) == Holds(s.heap, a)
    {
      if a != u {
        SameHolds(s.heap, t.heap, a);
      }
    }
  }

  lemma CloseUpvalKeeps(s: State, u: nat, c: Color)
    requires Core(s) && IsOpen(s.heap, u) && Alive(s, u) && c != White(!s.white)
    ensures Core(CloseUpval(s, u, c)) && Survives(s, CloseUpval(s, u, c))
  {
    CloseUpvalShape(s, u, c);
    CloseUpvalSurvives(s, u, c);
    CloseUpvalColors(s, u, c);
    Survive(s, CloseUpval(s, u, c));
  }

  lemma CloseUpvalColors(s: State, u: nat, c: Color)
    requires KindColors(s.heap) && IsOpen(s.heap, u) && s.heap[u].kind.loc.th in s.heap && s.heap[u].kind.loc.th != u
    ensures KindColors(CloseUpval(s, u, c).heap)
  {
  }

  lemma CloseUpvalSurvives(s: State, u: nat, c: Color)
    requires Shape(s) && IsOpen(s.heap, u) && Alive(s, u) && c != White(!s.white)
    ensures Survives(s, CloseUpval(s, u, c)) && forall id :: Alive(CloseUpval(s, u, c), id) ==> Alive(s, id)
  {
    CloseUpvalPoints(s, u, c);
  }

  // ---------- make an object white for the next cycle (makewhite) ----------

  function Whiten(s: State, id: nat): State
    requires id in s.heap
  {
    s.(heap := s.heap[id := s.heap[id].(color := White(s.white))])
  }

  lemma WhitenPoints(s: State, id: nat)
    requires id in s.heap
    ensures forall a, b :: PointsTo(Whiten(s, id).heap, a, b) <==> PointsTo(s.heap, a, b)
    ensures forall a :: a in s.heap ==> SameContents(s.heap, Whiten(s, id).heap, a)
  {
    forall a | a in s.heap
      ensures Holds(Whiten(s, id).heap, a) == Holds(s.heap, a)
    {
    }
  }

  lemma WhitenShape(s: State, id: nat)
    requires Shape(s) && id in s.heap
    ensures Shape(Whiten(s, id))
  {
    RecolorUpvals(s.heap, s.uvhead, id, White(s.white));
    RecolorStrings(s, id);
    SortedKept(s.heap, Whiten(s, id).heap);
  }

  lemma RecolorUpvals(h: map<nat, Obj>, uvhead: seq<nat>, id: nat, c: Color)
    requires UpvalsOk(h, uvhead) && id in h
    ensures UpvalsOk(h[id := h[id].(color := c)], uvhead)
  {
  }

  lemma RecolorStrings(s: State, id: nat)
    requires StringsOk(s) && id in s.heap
    ensures StringsOk(Whiten(s, id))
  {
  }

  lemma WhitenKeeps(s: State, id: nat)
    requires Core(s) && id in s.heap && (Alive(s, id) || s.heap[id].fixed)
    ensures Core(Whiten(s, id)) && Survives(s, Whiten(s, id))
  {
    WhitenShape(s, id);
    WhitenSurvives(s, id);
    WhitenColors(s.heap, id, s.white);
    Survive(s, Whiten(s, id));
  }

  lemma WhitenSurvives(s: State, id: nat)
    requires id in s.heap && RootsOk(s) && (forall x :: IsRoot(s, x) ==> Alive(s, x)) && (Alive(s, id) || s.heap[id].fixed)
    ensures Survives(s, Whiten(s, id))
    ensures forall a :: Alive(Whiten(s, id), a) && !Alive(s, a) ==> Holds(Whiten(s, id).heap, a) == []
  {
    WhitenPoints(s, id);
    assert IsRoot(s, s.mainthread);
  }

  lemma WhitenColors(h: map<nat, Obj>, id: nat, w: bool)
    requires KindColors(h) && id in h
    ensures KindColors(h[id := h[id].(color := White(w))])
  {
  }

  // ---------- free an object of the root list ----------

  function FreeObject(s: State, id: nat): State
  {
    s.(heap := s.heap - {id}, rootgc := Minus(s.rootgc, id))
  }

  /** A dead object ahead of the sweep cursor. */
  ghost predicate Doomed(s: State, id: nat) {
    id in s.heap && Dead(s, id) && s.sweepgc <= |s.rootgc| && id in s.rootgc[s.sweepgc..]
  }

  /** One that may be freed now: it has no open upvalue left. */
  ghost predicate Condemned(s: State, id: nat) {
    Doomed(s, id) && s.heap[id].open == []
  }

  lemma CutAhead(q: seq<nat>, k: nat, x: nat)
    requires NoDup(q) && k <= |q| && x in q[k..]
    ensures NoDup(Minus(q, x)) && k <= |Minus(q, x)| && Minus(q, x)[..k] == q[..k]
  {
    var i :| k <= i < |q| && q[i] == x;
    MinusAt(q, i);
    MinusNoDup(q, x);
  }

  lemma NoOpenNoOwner(h: map<nat, Obj>, uvhead: seq<nat>, id: nat)
    requires UpvalsOk(h, uvhead) && id in h && h[id].open == []
    ensures forall u :: IsOpen(h, u) ==> h[u].kind.loc.th != id
  {
    forall u | IsOpen(h, u)
      ensures h[u].kind.loc.th != id
    {
      assert u in h[h[u].kind.loc.th].open;
    }
  }

  lemma FreeObjectShape(s: State, id: nat)
    requires Shape(s) && Condemned(s, id) && !IsRoot(s, id)
    ensures Shape(FreeObject(s, id))
    ensures FreeObject(s, id).rootgc[..s.sweepgc] == s.rootgc[..s.sweepgc]
  {
    CutAhead(s.rootgc, s.sweepgc, id);
    NoOpenNoOwner(s.heap, s.uvhead, id);
    assert id in s.rootgc;
    var t := FreeObject(s, id);
    SortedKept(s.heap, t.heap);
    assert RootListOk(t);
    assert StringsOk(t);
  }

  lemma FreeObjectPoints(s: State, id: nat)
    requires Shape(s) && id in s.heap && s.heap[id].open == []
    ensures forall a, b :: PointsTo(FreeObject(s, id).heap, a, b) <==> a != id && PointsTo(s.heap, a, b)
    ensures forall a :: a in s.heap && a != id ==> SameContents(s.heap, FreeObject(s, id).heap, a)
  {
    var t := FreeObject(s, id);
    NoOpenNoOwner(s.heap, s.uvhead, id);
    forall a | a in t.heap
      ensures Holds(t.heap, a) == Holds(s.heap, a)
    {
      SameHolds(s.heap, t.heap, a);
    }
  }

  lemma FreeObjectKeeps(s: State, id: nat)
    requires Core(s) && Condemned(s, id)
    ensures Core(FreeObject(s, id)) && Survives(s, FreeObject(s, id))
  {
    assert !IsRoot(s, id);
    FreeObjectShape(s, id);
    FreeObjectPoints(s, id);
    Survive(s, FreeObject(s, id));
  }

  // ---------- free a string ----------

  function FreeString(s: State, b: nat, id: nat): State
    requires b < |s.strt|
  {
    s.(heap := s.heap - {id}, strt := s.strt[b := Minus(s.strt[b], id)])
  }

  lemma FreeStringShape(s: State, b: nat, id: nat)
    requires Shape(s) && b < |s.strt| && id in s.strt[b] && !IsRoot(s, id)
    ensures Shape(FreeString(s, b, id))
  {
    MinusNoDup(s.strt[b], id);
    var t := FreeString(s, b, id);
    SortedKept(s.heap, t.heap);
    assert RootListOk(t);
    assert StringsOk(t);
  }

  lemma FreeStringKeeps(s: State, b: nat, id: nat)
    requires Core(s) && b < |s.strt| && id in s.strt[b] && Dead(s, id)
    ensures Core(FreeString(s, b, id)) && Survives(s, FreeString(s, b, id))
  {
    assert !IsRoot(s, id);
    FreeStringShape(s, b, id);
    var t := FreeString(s, b, id);
    forall a | a in t.heap
      ensures SameContents(s.heap, t.heap, a)
    {
      SameHolds(s.heap, t.heap, a);
    }
    Survive(s, t);
  }

  // ---------- the same as steps of a sweep ----------

  lemma FreeUpvalStep(s: State, u: nat)
    requires Core(s) && IsOpen(s.heap, u) && Dead(s, u)
    ensures SweepStep(s, FreeUpval(s, u))
  {
    FreeUpvalKeeps(s, u);
  }

  lemma WhitenStep(s: State, id: nat)
    requires Core(s) && id in s.heap && (Alive(s, id) || s.heap[id].fixed)
    ensures SweepStep(s, Whiten(s, id)) && Fresh(Whiten(s, id), id)
  {
    WhitenKeeps(s, id);
    WhitenFresh(s, id);
  }

  lemma WhitenFresh(s: State, id: nat)
    requires id in s.heap
    ensures KeepsFresh(s, Whiten(s, id)) && Fresh(Whiten(s, id), id)
  {
  }

  lemma FreeObjectStep(s: State, id: nat)
    requires Core(s) && Condemned(s, id)
    ensures SweepStep(s, FreeObject(s, id))
  {
    FreeObjectKeeps(s, id);
  }

  lemma CloseUpvalFresh(s: State, u: nat)
    requires IsOpen(s.heap, u) && s.heap[u].kind.loc.th in s.heap && s.heap[u].kind.loc.th != u
    ensures KeepsFresh(s, CloseUpval(s, u, White(s.white))) && Fresh(CloseUpval(s, u, White(s.white)), u)
  {
  }

  lemma CloseUpvalStep(s: State, u: nat)
    requires Core(s) && IsOpen(s.heap, u) && Alive(s, u)
    ensures SweepStep(s, CloseUpval(s, u, White(s.white))) && Fresh(CloseUpval(s, u, White(s.white)), u)
  {
    CloseUpvalKeeps(s, u, White(s.white));
    CloseUpvalFresh(s, u);
  }

  lemma FreeStringStep(s: State, b: nat, id: nat)
    requires Core(s) && b < |s.strt| && id in s.strt[b] && Dead(s, id)
    ensures SweepStep(s, FreeString(s, b, id))
  {
    FreeStringKeeps(s, b, id);
  }

  // ---------- one turn of a sweep over the open upvalues of a thread ----------

  predicate Spared(s: State, id: nat) {
    id in s.heap && (!Dead(s, id) || s.heap[id].fixed)
  }

  ghost predicate FreshPrefix(s: State, th: nat, i: nat) {
    th in s.heap && i <= |s.heap[th].open| && forall u :: u in s.heap[th].open[..i] ==> Fresh(s, u)
  }

  lemma WholePrefix(s: State, th: nat, i: nat)
    requires FreshPrefix(s, th, i) && i == |s.heap[th].open|
    ensures forall u :: u in s.heap[th].open ==> Fresh(s, u)
  {
    assert s.heap[th].open[..i] == s.heap[th].open;
  }

  lemma SpareUpval(s: State, th: nat, i: nat)
    requires Core(s) && FreshPrefix(s, th, i) && i < |s.heap[th].open| && Spared(s, s.heap[th].open[i])
    ensures SweepStep(s, Whiten(s, s.heap[th].open[i])) && FreshPrefix(Whiten(s, s.heap[th].open[i]), th, i + 1)
    ensures s.heap[th].open[i] != th
  {
    OpenAt(s.heap, s.uvhead, th, i);
    WhitenStep(s, s.heap[th].open[i]);
    PrefixMore(s, Whiten(s, s.heap[th].open[i]), th, i);
  }

  lemma OpenAt(h: map<nat, Obj>, uvhead: seq<nat>, th: nat, i: nat)
    requires UpvalsOk(h, uvhead) && th in h && i < |h[th].open|
    ensures IsOpen(h, h[th].open[i]) && h[h[th].open[i]].kind.loc.th == th != h[th].open[i]
  {
    assert h[th].open[i] in h[th].open;
    assert OnStack(h[h[th].open[i]].kind);
  }

  lemma PrefixMore(s: State, t: State, th: nat, i: nat)
    requires FreshPrefix(s, th, i) && i < |s.heap[th].open| && th in t.heap && t.heap[th].open == s.heap[th].open
    requires Fresh(t, s.heap[th].open[i]) && forall x :: Fresh(s, x) ==> Fresh(t, x)
    ensures FreshPrefix(t, th, i + 1)
  {
    assert s.heap[th].open[..i + 1] == s.heap[th].open[..i] + [s.heap[th].open[i]];
  }

  lemma DropUpval(s: State, th: nat, i: nat)
    requires Core(s) && FreshPrefix(s, th, i) && i < |s.heap[th].open| && !Spared(s, s.heap[th].open[i])
    ensures IsOpen(s.heap, s.heap[th].open[i]) && s.heap[s.heap[th].open[i]].kind.loc.th == th
    ensures SweepStep(s, FreeUpval(s, s.heap[th].open[i])) && FreshPrefix(FreeUpval(s, s.heap[th].open[i]), th, i)
    ensures |FreeUpval(s, s.heap[th].open[i]).heap[th].open| == |s.heap[th].open| - 1
  {
    var u := s.heap[th].open[i];
    assert u in s.heap[th].open;
    assert IsOpen(s.heap, u);
    FreeUpvalStep(s, u);
    MinusAt(s.heap[th].open, i);
    var q := FreeUpval(s, u).heap[th].open;
    assert q[..i] == s.heap[th].open[..i];
  }

  // ---------- one turn of a sweep over the root list ----------

  /** The sweep of the root list so far. */
  ghost predicate Sweeping(s0: State, s: State) {
    SweepStep(s0, s) && SweptRoots(s)
  }

  /** The sweep of the root list has come closer to its end. */
  ghost predicate Ahead(s: State, t: State) {
    || t.heap.Keys < s.heap.Keys
    || (t.heap.Keys == s.heap.Keys && |t.rootgc| - t.sweepgc < |s.rootgc| - s.sweepgc)
  }

  lemma AheadAfter(s: State, t: State, u: State)
    requires t.heap.Keys <= s.heap.Keys && t.rootgc == s.rootgc && t.sweepgc == s.sweepgc && Ahead(t, u)
    ensures Ahead(s, u)
  {
  }

  lemma AheadMore(s: State, t: State, u: State, moved: bool)
    requires Ahead(t, u) && t.heap.Keys <= s.heap.Keys && if moved then Ahead(s, t) else t == s
    ensures Ahead(s, u) && u.heap.Keys <= s.heap.Keys
  {
  }

  lemma SweptSame(s: State, t: State)
    requires SweptRoots(s) && SweepStep(s, t)
    requires t.sweepgc == s.sweepgc <= |t.rootgc| && t.rootgc[..t.sweepgc] == s.rootgc[..s.sweepgc]
    ensures SweptRoots(t)
  {
  }

  lemma Advance(s0: State, s: State, n: nat)
    requires Sweeping(s0, s) && s.sweepgc < |s.rootgc| && Swept(s, s.rootgc[s.sweepgc]) && n == s.sweepgc + 1
    ensures Sweeping(s0, s.(sweepgc := n))
  {
    AdvanceRoots(s, n);
    AdvanceCore(s, n);
    assert KeepsFresh(s0, s.(sweepgc := n));
  }

  lemma AdvanceRoots(s: State, n: nat)
    requires SweptRoots(s) && s.sweepgc < |s.rootgc| && Swept(s, s.rootgc[s.sweepgc]) && n == s.sweepgc + 1
    ensures SweptRoots(s.(sweepgc := n))
  {
    var t := s.(sweepgc := n);
    assert t.rootgc[..t.sweepgc] == s.rootgc[..s.sweepgc] + [s.rootgc[s.sweepgc]];
  }

  lemma AdvanceCore(s: State, n: nat)
    requires Core(s) && n <= |s.rootgc|
    ensures Core(s.(sweepgc := n)) && forall x :: Alive(s.(sweepgc := n), x) <==> Alive(s, x)
  {
    assert forall x :: IsRoot(s.(sweepgc := n), x) <==> IsRoot(s, x);
  }

  lemma SpareRoot(s0: State, s: State, id: nat)
    requires Sweeping(s0, s) && s.sweepgc < |s.rootgc| && id == s.rootgc[s.sweepgc] && Spared(s, id)
    requires forall u :: u in s.heap[id].open ==> Fresh(s, u)
    ensures Sweeping(s0, Whiten(s, id)) && Swept(Whiten(s, id), id)
  {
    WhitenStep(s, id);
    SweptSame(s, Whiten(s, id));
    SweepStepTrans(s0, s, Whiten(s, id));
  }

  lemma DropRoot(s0: State, s: State, id: nat)
    requires Sweeping(s0, s) && Condemned(s, id)
    ensures Sweeping(s0, FreeObject(s, id))
  {
    FreeObjectStep(s, id);
    assert !IsRoot(s, id);
    FreeObjectShape(s, id);
    SweptSame(s, FreeObject(s, id));
    SweepStepTrans(s0, s, FreeObject(s, id));
  }

  lemma Inhabited(q: seq<nat>)
    ensures q == [] || exists x :: x in q
  {
    assert q == [] || q[0] in q;
  }

  lemma OnlyThreadsOpen(h: map<nat, Obj>, uvhead: seq<nat>, id: nat)
    requires UpvalsOk(h, uvhead) && id in h && h[id].kind != Thread
    ensures h[id].open == []
  {
    Inhabited(h[id].open);
  }

  lemma SweptPush(s: State, u: nat)
    requires Shape(s) && SweptRoots(s) && IsOpen(s.heap, u)
    ensures SweptRoots(CloseUpval(s, u, White(s.white)))
  {
    var t := CloseUpval(s, u, White(s.white));
    OnlyThreadsOpen(s.heap, s.uvhead, u);
    CloseUpvalFresh(s, u);
    if s.sweepgc > 0 {
      assert t.rootgc[..t.sweepgc] == [u] + s.rootgc[..s.sweepgc];
    }
  }

  /** Freeing a thread closes the upvalues that outlive it. */
  lemma CloseRoot(s0: State, s: State, u: nat)
    requires Sweeping(s0, s) && IsOpen(s.heap, u) && Alive(s, u)
    ensures Sweeping(s0, CloseUpval(s, u, White(s.white)))
  {
    CloseUpvalStep(s, u);
    SweepStepTrans(s0, s, CloseUpval(s, u, White(s.white)));
    SweptPush(s, u);
  }

  lemma StillDoomed(s: State, th: nat, u: nat)
    requires Shape(s) && Doomed(s, th) && IsOpen(s.heap, u) && s.heap[u].kind.loc.th == th
    ensures Doomed(CloseUpval(s, u, White(s.white)), th)
    ensures CloseUpval(s, u, White(s.white)).heap[th].open == Minus(s.heap[th].open, u)
  {
    var t := CloseUpval(s, u, White(s.white));
    var i :| s.sweepgc <= i < |s.rootgc| && s.rootgc[i] == th;
    assert t.rootgc[i + 1] == th && t.sweepgc <= i + 1;
    assert t.rootgc[i + 1] in t.rootgc[t.sweepgc..];
  }

  lemma FirstOpen(h: map<nat, Obj>, uvhead: seq<nat>, th: nat)
    requires UpvalsOk(h, uvhead) && th in h && h[th].open != []
    ensures IsOpen(h, h[th].open[0]) && h[h[th].open[0]].kind.loc.th == th != h[th].open[0]
    ensures Minus(h[th].open, h[th].open[0]) == h[th].open[1..]
  {
    assert h[th].open[0] in h[th].open;
    MinusAt(h[th].open, 0);
    assert OnStack(h[h[th].open[0]].kind);
  }

  /** `th` waits to be freed and its open upvalues have survived the sweep. */
  ghost predicate Leaving(s: State, th: nat) {
    Doomed(s, th) && forall u :: u in s.heap[th].open ==> Fresh(s, u)
  }

  lemma DeadLeaves(s: State, id: nat)
    requires s.sweepgc < |s.rootgc| && s.rootgc[s.sweepgc] == id && id in s.heap && Dead(s, id)
    requires forall u :: u in s.heap[id].open ==> Fresh(s, u)
    ensures Leaving(s, id)
  {
    assert s.rootgc[s.sweepgc..][0] == id;
  }

  lemma StillLeaving(s: State, th: nat, u: nat)
    requires Shape(s) && Leaving(s, th) && IsOpen(s.heap, u) && s.heap[u].kind.loc.th == th
    ensures Leaving(CloseUpval(s, u, White(s.white)), th)
  {
    StillDoomed(s, th, u);
    CloseUpvalFresh(s, u);
  }

  lemma CloseNext(s0: State, s: State, th: nat, u: nat)
    requires Sweeping(s0, s) && Leaving(s, th) && s.heap[th].open != [] && u == s.heap[th].open[0]
    requires IsOpen(s.heap, u) && s.heap[u].kind.loc.th == th != u
    ensures Sweeping(s0, CloseUpval(s, u, White(s.white))) && Leaving(CloseUpval(s, u, White(s.white)), th)
  {
    assert u in s.heap[th].open;
    CloseRoot(s0, s, u);
    StillLeaving(s, th, u);
  }

  /** Sweeping the open upvalues of a thread is part of the sweep of the root list. */
  lemma OpenSwept(s0: State, s: State, t: State)
    requires Sweeping(s0, s) && SweepStep(s, t) && t.rootgc == s.rootgc && t.sweepgc == s.sweepgc
    ensures Sweeping(s0, t)
  {
    SweptSame(s, t);
    SweepStepTrans(s0, s, t);
  }

  lemma KeepRoot(s0: State, s: State, id: nat, t: State)
    requires Sweeping(s0, s) && s.sweepgc < |s.rootgc| && id == s.rootgc[s.sweepgc] && Spared(s, id)
    requires forall u :: u in s.heap[id].open ==> Fresh(s, u)
    requires t == Whiten(s, id).(sweepgc := s.sweepgc + 1)
    ensures Sweeping(s0, t)
  {
    SpareRoot(s0, s, id);
    Advance(s0, Whiten(s, id), s.sweepgc + 1);
  }

  // ---------- one turn of a sweep over a bucket of the string table ----------

  ghost predicate FreshBucket(s: State, b: nat, i: nat) {
    b < |s.strt| && i <= |s.strt[b]| && forall x :: x in s.strt[b][..i] ==> Fresh(s, x)
  }

  lemma SpareString(s: State, b: nat, i: nat)
    requires Core(s) && FreshBucket(s, b, i) && i < |s.strt[b]| && Spared(s, s.strt[b][i])
    ensures SweepStep(s, Whiten(s, s.strt[b][i])) && FreshBucket(Whiten(s, s.strt[b][i]), b, i + 1)
  {
    WhitenStep(s, s.strt[b][i]);
    FreshMore(s, Whiten(s, s.strt[b][i]), b, i);
  }

  /** Only the heap and one bucket have changed. */
  ghost predicate BucketFrame(s: State, t: State, b: nat) {
    b < |s.strt| == |t.strt| && t.strt == s.strt[b := t.strt[b]] && t == s.(heap := t.heap, strt := t.strt)
  }

  /** The first `i` strings of a bucket have been swept. */
  ghost predicate BucketTo(s: State, t: State, b: nat, i: nat) {
    SweepStep(s, t) && FreshBucket(t, b, i) && BucketFrame(s, t, b)
  }

  lemma BucketStarts(s: State, b: nat)
    requires Core(s) && b < |s.strt|
    ensures BucketTo(s, s, b, 0)
  {
  }

  /** One more string of a bucket swept. */
  lemma BucketGoesOn(s: State, t: State, u: State, b: nat, i: nat, j: nat)
    requires BucketTo(s, t, b, i) && SweepStep(t, u) && FreshBucket(u, b, j) && BucketFrame(t, u, b)
    ensures BucketTo(s, u, b, j)
  {
    SweepStepTrans(s, t, u);
    BucketFrameTrans(s, t, u, b);
  }

  lemma BucketFrameTrans(s: State, t: State, u: State, b: nat)
    requires BucketFrame(s, t, b) && BucketFrame(t, u, b)
    ensures BucketFrame(s, u, b)
  {
  }

  /** What the sweep of a bucket leaves. */
  ghost predicate BucketSwept(s: State, t: State, b: nat) {
    SweepStep(s, t) && BucketFrame(s, t, b) && forall x :: x in t.strt[b] ==> Fresh(t, x)
  }

  lemma AllFresh(s: State, t: State, b: nat, i: nat)
    requires BucketTo(s, t, b, i) && i >= |t.strt[b]|
    ensures BucketSwept(s, t, b)
  {
    assert t.strt[b][..i] == t.strt[b];
  }

  lemma FreshMore(s: State, t: State, b: nat, i: nat)
    requires FreshBucket(s, b, i) && i < |s.strt[b]| && t.strt == s.strt && Fresh(t, s.strt[b][i])
    requires forall x :: Fresh(s, x) ==> Fresh(t, x)
    ensures FreshBucket(t, b, i + 1)
  {
    assert s.strt[b][..i + 1] == s.strt[b][..i] + [s.strt[b][i]];
  }

  lemma DropString(s: State, b: nat, i: nat)
    requires Core(s) && FreshBucket(s, b, i) && i < |s.strt[b]| && !Spared(s, s.strt[b][i])
    ensures SweepStep(s, FreeString(s, b, s.strt[b][i])) && FreshBucket(FreeString(s, b, s.strt[b][i]), b, i)
    ensures |FreeString(s, b, s.strt[b][i]).strt[b]| == |s.strt[b]| - 1
  {
    var x := s.strt[b][i];
    assert x in s.strt[b];
    FreeStringStep(s, b, x);
    MinusAt(s.strt[b], i);
    assert FreeString(s, b, x).strt[b][..i] == s.strt[b][..i];
  }
}

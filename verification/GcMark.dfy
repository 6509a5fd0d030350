/** Lemmas of the mark phase: what one colour change does to the colour rules. */
module GcMark {
  import opened GcHeap

  /** Same objects, possibly in other colours. */
  ghost predicate Recolored(h: map<nat, Obj>, h': map<nat, Obj>) {
    && h'.Keys == h.Keys
    && forall id :: id in h ==> h'[id] == h[id].(color := h'[id].color)
  }

  lemma SamePointsTo(h: map<nat, Obj>, h': map<nat, Obj>)
    requires Recolored(h, h')
    ensures forall a, b :: PointsTo(h', a, b) <==> PointsTo(h, a, b)
  {
    forall a | a in h
      ensures Holds(h', a) == Holds(h, a)
    {
    }
  }

  lemma RecoloredSame(h: map<nat, Obj>, h': map<nat, Obj>)
    requires Recolored(h, h')
    ensures forall a :: a in h ==> SameContents(h, h', a)
  {
  }

  /** `R` is a part of the heap closed under references that holds every marked object. */
  ghost predicate Within(h: map<nat, Obj>, R: set<nat>) {
    && Closed(h, R)
    && (forall id :: id in R ==> id in h)
    && (forall id :: Marked(h, id) ==> id in R)
  }

  /** What holds throughout a mark phase; `ex` is exempt from the colour rule. */
  ghost predicate Marking(h: map<nat, Obj>, gray: seq<nat>, again: seq<nat>, ex: set<nat>, R: set<nat>) {
    GrayLists(h, gray, again) && TriColor(h, gray, again, ex) && KindColors(h) && Within(h, R)
  }

  /** A step that only marks white objects and may add them to the gray list. */
  ghost predicate Marks(h: map<nat, Obj>, gray: seq<nat>, h': map<nat, Obj>, gray': seq<nat>) {
    && Recolored(h, h')
    && (forall id :: Marked(h, id) ==> h'[id].color == h[id].color)
    && (forall id :: id in h' && h'[id].color.White? ==> h'[id].color == h[id].color)
    && (forall id :: id in gray ==> id in gray')
    && (forall id :: id in gray' ==> id in gray || IsWhite(h, id))
  }

  /** Addresses of the white objects: the measure of the mark phase. */
  ghost function Whites(h: map<nat, Obj>): set<nat> {
    set id | id in h && h[id].color.White?
  }

  lemma FewerWhites(h: map<nat, Obj>, g: seq<nat>, h': map<nat, Obj>, g': seq<nat>)
    requires Marks(h, g, h', g')
    ensures Whites(h') <= Whites(h)
    ensures forall id :: IsWhite(h, id) && Marked(h', id) ==> Whites(h') < Whites(h)
  {
    forall id | IsWhite(h, id) && Marked(h', id)
      ensures Whites(h') < Whites(h)
    {
      assert id in Whites(h) && id !in Whites(h');
    }
  }

  lemma MarksTrans(h: map<nat, Obj>, g: seq<nat>, h1: map<nat, Obj>, g1: seq<nat>, h2: map<nat, Obj>, g2: seq<nat>)
    requires Marks(h, g, h1, g1) && Marks(h1, g1, h2, g2)
    ensures Marks(h, g, h2, g2)
  {
  }

  /** An object that was white may change colour again. */
  lemma MarksAgain(h: map<nat, Obj>, g: seq<nat>, h1: map<nat, Obj>, g1: seq<nat>, h2: map<nat, Obj>, id: nat)
    requires Marks(h, g, h1, g1) && IsWhite(h, id) && Colored(h1, h2, id, Black)
    ensures Marks(h, g, h2, g1)
  {
  }

  /** `h'` is `h` with one object in another colour. */
  ghost predicate Colored(h: map<nat, Obj>, h': map<nat, Obj>, id: nat, c: Color) {
    id in h && h' == h[id := h[id].(color := c)]
  }

  /** Step 1: a white object turns gray and becomes exempt until its contents are marked. */
  lemma BeginMark(h: map<nat, Obj>, h': map<nat, Obj>, gray: seq<nat>, again: seq<nat>,
                  id: nat, ex: set<nat>, R: set<nat>)
    requires Marking(h, gray, again, ex, R) && IsWhite(h, id) && id in R && Colored(h, h', id, Gray)
    ensures Marking(h', gray, again, ex + {id}, R) && Marks(h, gray, h', gray)
    ensures id !in gray && id !in again
  {
    SamePointsTo(h, h');
  }

  /** Step 2a: the object goes to the gray list. */
  lemma PushGray(h: map<nat, Obj>, gray: seq<nat>, again: seq<nat>, id: nat, ex: set<nat>, R: set<nat>)
    requires Marking(h, gray, again, ex + {id}, R) && id in h && h[id].color == Gray
    requires Traversable(h[id].kind) && id !in gray && id !in again
    ensures Marking(h, [id] + gray, again, ex, R)
  {
  }

  /** Step 2b: the object may turn black; it stays exempt until all its contents are marked. */
  lemma TurnBlack(h: map<nat, Obj>, h': map<nat, Obj>, gray: seq<nat>, again: seq<nat>,
                  id: nat, ex: set<nat>, R: set<nat>)
    requires Marking(h, gray, again, ex + {id}, R) && Marked(h, id) && id !in gray && id !in again
    requires Colored(h, h', id, Black)
    requires h[id].kind != Thread && !OnStack(h[id].kind) && !h[id].kind.Str?
    ensures Marking(h', gray, again, ex + {id}, R)
  {
    SamePointsTo(h, h');
  }

  /** Step 3: all contents are marked, so the object needs no exemption. */
  lemma Settle(h: map<nat, Obj>, gray: seq<nat>, again: seq<nat>, id: nat, ex: set<nat>, R: set<nat>)
    requires Marking(h, gray, again, ex + {id}, R) && Marked(h, id)
    requires h[id].kind.Str? || OnStack(h[id].kind) || id in again || h[id].color == Black
    requires forall b :: PointsTo(h, id, b) ==> Marked(h, b)
    ensures Marking(h, gray, again, ex, R)
  {
  }

  // ---------- taking an object off the gray list ----------

  /** Like Marks, for any number of steps: marked objects stay marked, whites keep their white. */
  ghost predicate Darkens(h: map<nat, Obj>, h': map<nat, Obj>) {
    && Recolored(h, h')
    && (forall id :: Marked(h, id) ==> Marked(h', id))
    && (forall id :: id in h' && h'[id].color.White? ==> h'[id].color == h[id].color)
  }

  /** What is left to traverse: the measure of the whole mark phase. */
  ghost function ToDo(h: map<nat, Obj>, gray: seq<nat>): set<nat> {
    Whites(h) + Elems(gray)
  }

  lemma MarksDarken(h: map<nat, Obj>, g: seq<nat>, h': map<nat, Obj>, g': seq<nat>)
    requires Marks(h, g, h', g')
    ensures Darkens(h, h')
  {
  }

  lemma LessToDo(h: map<nat, Obj>, g: seq<nat>, h': map<nat, Obj>, g': seq<nat>)
    requires Marks(h, g, h', g')
    ensures ToDo(h', g') <= ToDo(h, g)
  {
  }

  lemma DarkensTrans(h: map<nat, Obj>, h1: map<nat, Obj>, h2: map<nat, Obj>)
    requires Darkens(h, h1) && Darkens(h1, h2)
    ensures Darkens(h, h2)
  {
  }

  lemma PopRule(h: map<nat, Obj>, h': map<nat, Obj>, gray: seq<nat>, again: seq<nat>, ex: set<nat>)
    requires GrayLists(h, gray, again) && TriColor(h, gray, again, ex) && gray != [] && Colored(h, h', gray[0], Black)
    requires forall a, b :: PointsTo(h', a, b) <==> PointsTo(h, a, b)
    ensures GrayLists(h', gray[1..], again) && TriColor(h', gray[1..], again, ex + {gray[0]})
  {
    assert forall x :: x in gray <==> x == gray[0] || x in gray[1..];
  }

  lemma PopBlack(h: map<nat, Obj>, h': map<nat, Obj>, gray: seq<nat>, again: seq<nat>, ex: set<nat>, R: set<nat>)
    requires Marking(h, gray, again, ex, R) && gray != [] && Colored(h, h', gray[0], Black)
    requires h[gray[0]].kind != Thread
    ensures Marking(h', gray[1..], again, ex + {gray[0]}, R) && ToDo(h', gray[1..]) < ToDo(h, gray)
  {
    SamePointsTo(h, h');
    PopRule(h, h', gray, again, ex);
    assert gray[0] in ToDo(h, gray) && gray[0] !in ToDo(h', gray[1..]);
  }

  /** A thread is never black: it goes back on hold for the atomic step. */
  lemma PopHold(h: map<nat, Obj>, gray: seq<nat>, again: seq<nat>, ex: set<nat>, R: set<nat>)
    requires Marking(h, gray, again, ex, R) && gray != []
    ensures Marking(h, gray[1..], [gray[0]] + again, ex + {gray[0]}, R) && ToDo(h, gray[1..]) < ToDo(h, gray)
  {
    assert gray[0] in ToDo(h, gray) && gray[0] !in ToDo(h, gray[1..]);
  }

  // ---------- the atomic step ----------

  lemma Exempt(h: map<nat, Obj>, gray: seq<nat>, again: seq<nat>, ex: set<nat>, ex': set<nat>, R: set<nat>)
    requires Marking(h, gray, again, ex, R)
    requires forall id :: id in ex && id !in ex' ==> !Marked(h, id)
    ensures Marking(h, gray, again, ex', R)
  {
  }

  /** `gray = grayagain`: objects on hold are traversed again, so nothing stays exempt. */
  lemma TakeAgain(h: map<nat, Obj>, again: seq<nat>, ex: set<nat>, R: set<nat>)
    requires Marking(h, [], again, ex, R) && forall id :: id in ex ==> id in again
    ensures Marking(h, again, [], {}, R)
  {
  }
}

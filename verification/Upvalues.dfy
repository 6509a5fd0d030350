/** Open and closed upvalues: lfunc.c, and the instructions of lvm.c that use them. */
module Upvalues {
  import opened Lists

  const HEAD: nat := 0
  const NIL := 0

  /** Where the value of an upvalue is: a stack slot of a thread, or the upvalue itself. */
  datatype Where = Slot(th: nat, i: nat) | Own

  /** `chain` links the open upvalues of a thread, `next` and `prev` those of all threads. */
  datatype UpVal = UpVal(v: Where, value: int, chain: int, next: nat, prev: nat)

  // ---------- the double list behind uvhead ----------

  function Succ(ring: seq<nat>, i: int): nat
    requires 0 <= i < |ring|
  {
    if i + 1 < |ring| then ring[i + 1] else ring[0]
  }

  ghost predicate Linked(uv: map<nat, UpVal>, ring: seq<nat>, i: int)
    requires 0 <= i < |ring|
  {
    ring[i] in uv && Succ(ring, i) in uv && uv[ring[i]].next == Succ(ring, i) && uv[Succ(ring, i)].prev == ring[i]
  }

  /** `ring` is the circle from the head on; it has no element twice. */
  ghost predicate Ring(uv: map<nat, UpVal>, ring: seq<nat>) {
    && |ring| > 0 && ring[0] == HEAD
    && (forall i, j :: 0 <= i < j < |ring| ==> ring[i] != ring[j])
    && (forall i {:trigger Linked(uv, ring, i)} :: 0 <= i < |ring| ==> Linked(uv, ring, i))
  }

  // ---------- the list of a thread ----------

  predicate OnStack(uv: map<nat, UpVal>, u: nat, th: nat) {
    u in uv && u != HEAD && uv[u].v.Slot? && uv[u].v.th == th
  }

  /** The open upvalues of a thread, by descending slot: one for each slot at most. */
  ghost predicate Chain(uv: map<nat, UpVal>, list: seq<nat>, head: int, th: nat, size: nat) {
    && head == Nth(list, 0)
    && (forall i {:trigger ChainAt(uv, list, th, size, i)} :: 0 <= i < |list| ==> ChainAt(uv, list, th, size, i))
    && (forall i, j {:trigger Higher(uv, list, i, j)} :: 0 <= i < j < |list| ==> Higher(uv, list, i, j))
  }

  predicate ChainAt(uv: map<nat, UpVal>, list: seq<nat>, th: nat, size: nat, i: int) {
    0 <= i < |list| && OnStack(uv, list[i], th) && uv[list[i]].v.i < size && uv[list[i]].chain == Nth(list, i + 1)
  }

  predicate Higher(uv: map<nat, UpVal>, list: seq<nat>, i: int, j: int) {
    && 0 <= i < |list| && 0 <= j < |list| && list[i] in uv && list[j] in uv && uv[list[i]].v.Slot? && uv[list[j]].v.Slot?
    && uv[list[i]].v.i > uv[list[j]].v.i
  }

  datatype Heap = Heap(stack: map<nat, seq<int>>, head: map<nat, int>, uv: map<nat, UpVal>, ring: seq<nat>, open: map<nat, seq<nat>>)

  ghost predicate Inv(h: Heap) {
    && HEAD in h.uv && Ring(h.uv, h.ring) && InRing(h.uv, h.ring) && InLists(h.uv, h.open)
    && h.head.Keys == h.stack.Keys == h.open.Keys
    && (forall th :: th in h.stack ==> Chain(h.uv, h.open[th], h.head[th], th, |h.stack[th]|))
  }

  /** The circle holds exactly the open upvalues. */
  ghost predicate InRing(uv: map<nat, UpVal>, ring: seq<nat>) {
    forall u :: u in ring && u != HEAD <==> u in uv && u != HEAD && uv[u].v.Slot?
  }

  /** Every open upvalue is in the list of its thread. */
  ghost predicate InLists(uv: map<nat, UpVal>, open: map<nat, seq<nat>>) {
    forall u :: u in uv && u != HEAD && uv[u].v.Slot? ==> uv[u].v.th in open && u in open[uv[u].v.th]
  }

  /** The current value of an upvalue. */
  function Current(h: Heap, u: nat): int
    requires u in h.uv
  {
    match h.uv[u].v
    case Own => h.uv[u].value
    case Slot(th, i) => if th in h.stack && i < |h.stack[th]| then h.stack[th][i] else 0
  }

  // ---------- variables as cells ----------

  /** What closures should see: every local variable is a cell, `bound` tells the cell of each slot in use, and
      `cell` the cell that an upvalue stands for. */
  datatype Cells = Cells(val: map<nat, int>, bound: map<(nat, nat), nat>, cell: map<nat, nat>)

  ghost predicate Agrees(h: Heap, c: Cells) {
    SlotsAgree(h.stack, c) && UpvalsAgree(h, c) && Apart(h.uv, c)
  }

  /** Every slot has a cell of its own, with its value. */
  ghost predicate SlotsAgree(stack: map<nat, seq<int>>, c: Cells) {
    && (forall th: nat, i: nat :: (th, i) in c.bound <==> th in stack && i < |stack[th]|)
    && (forall th: nat, i: nat :: (th, i) in c.bound ==> c.bound[(th, i)] in c.val && c.val[c.bound[(th, i)]] == stack[th][i])
    && (forall p: (nat, nat), q: (nat, nat) :: p in c.bound && q in c.bound && c.bound[p] == c.bound[q] ==> p == q)
  }

  /** Every upvalue has the value of its cell, which is that of its slot while it is open. */
  ghost predicate UpvalsAgree(h: Heap, c: Cells) {
    && (forall u :: u in c.cell <==> u in h.uv && u != HEAD)
    && (forall u :: u in c.cell ==> c.cell[u] in c.val && c.val[c.cell[u]] == Current(h, u))
    && (forall u :: u in c.cell && h.uv[u].v.Slot? ==> (h.uv[u].v.th, h.uv[u].v.i) in c.bound
                                                       && c.cell[u] == c.bound[(h.uv[u].v.th, h.uv[u].v.i)])
  }

  /** Different upvalues stand for different variables; a closed one for none that is in a slot. */
  ghost predicate Apart(uv: map<nat, UpVal>, c: Cells) {
    && (forall u: nat, p: (nat, nat) :: u in c.cell && u in uv && uv[u].v == Own && p in c.bound ==> c.cell[u] != c.bound[p])
    && (forall u, w :: u in c.cell && w in c.cell && c.cell[u] == c.cell[w] ==> u == w)
  }

  /** An assignment to a local variable. */
  function SetLocal(c: Cells, th: nat, i: nat, v: int): Cells
    requires (th, i) in c.bound
  {
    c.(val := c.val[c.bound[(th, i)] := v])
  }

  /** An assignment to a variable through an upvalue. */
  function SetCell(c: Cells, u: nat, v: int): Cells
    requires u in c.cell
  {
    c.(val := c.val[c.cell[u] := v])
  }

  /** A closure takes the variable in a slot. */
  function Share(c: Cells, th: nat, i: nat, u: nat): Cells
    requires (th, i) in c.bound
  {
    c.(cell := c.cell[u := c.bound[(th, i)]])
  }

  // ---------- changing the double list ----------

  /** Only the links of the double list differ. */
  ghost predicate SameBut(uv: map<nat, UpVal>, uv': map<nat, UpVal>) {
    uv'.Keys == uv.Keys && forall u :: u in uv ==> uv'[u].v == uv[u].v && uv'[u].value == uv[u].value && uv'[u].chain == uv[u].chain
  }

  /** A new element right behind the head. */
  function LinkIn(uv: map<nat, UpVal>, u: nat, v: Where, chain: int): map<nat, UpVal>
    requires HEAD in uv && uv[HEAD].next in uv
  {
    var first := uv[HEAD].next;
    var uv1 := uv[u := UpVal(v, 0, chain, first, HEAD)];
    var uv2 := uv1[first := uv1[first].(prev := u)];
    uv2[HEAD := uv2[HEAD].(next := u)]
  }

  lemma LinkInRing(uv: map<nat, UpVal>, ring: seq<nat>, u: nat, v: Where, chain: int)
    requires Ring(uv, ring) && u !in uv && u != HEAD && HEAD in uv
    ensures uv[HEAD].next == Succ(ring, 0) && uv[HEAD].next in uv
    ensures Ring(LinkIn(uv, u, v, chain), [HEAD, u] + ring[1..])
    ensures SameBut(uv[u := UpVal(v, 0, chain, 0, 0)], LinkIn(uv, u, v, chain))
  {
    assert Linked(uv, ring, 0);
    var uv', ring' := LinkIn(uv, u, v, chain), [HEAD, u] + ring[1..];
    forall i | 0 <= i < |ring|
      ensures ring[i] in uv
    {
      assert Linked(uv, ring, i);
    }
    forall i | 0 <= i < |ring'|
      ensures Linked(uv', ring', i)
    {
      if i >= 2 {
        assert Linked(uv, ring, i - 1);
      }
    }
  }

  /** unlinkupval. */
  function Unlink(uv: map<nat, UpVal>, u: nat): map<nat, UpVal>
    requires u in uv && uv[u].next in uv && uv[u].prev in uv
  {
    var uv1 := uv[uv[u].next := uv[uv[u].next].(prev := uv[u].prev)];
    uv1[uv1[u].prev := uv1[uv1[u].prev].(next := uv1[u].next)]
  }

  lemma UnlinkRing(uv: map<nat, UpVal>, ring: seq<nat>, k: int)
    requires Ring(uv, ring) && 0 < k < |ring|
    ensures var u := ring[k];
      && u in uv && uv[u].next in uv && uv[u].prev in uv
      && Ring(Unlink(uv, u), ring[..k] + ring[k + 1..]) && SameBut(uv, Unlink(uv, u))
  {
    var u := ring[k];
    assert Linked(uv, ring, k) && Linked(uv, ring, k - 1);
    assert uv[u].prev == ring[k - 1] && uv[u].next == Succ(ring, k);
    var uv', ring' := Unlink(uv, u), ring[..k] + ring[k + 1..];
    forall i | 0 <= i < |ring'|
      ensures Linked(uv', ring', i)
    {
      if i < k - 1 {
        assert Linked(uv, ring, i);
      } else if i >= k {
        assert Linked(uv, ring, i + 1);
      }
    }
  }

  // ---------- what luaF_findupval does ----------

  /** Place `k` of the list of a thread is where slot `i` belongs. */
  ghost predicate PlaceFor(h: Heap, th: nat, i: nat, k: int) {
    && th in h.open && 0 <= k <= |h.open[th]|
    && (forall j :: 0 <= j < k ==> h.open[th][j] in h.uv && h.uv[h.open[th][j]].v.Slot? && h.uv[h.open[th][j]].v.i > i)
    && (forall j :: k <= j < |h.open[th]| ==> h.open[th][j] in h.uv && h.uv[h.open[th][j]].v.Slot? && h.uv[h.open[th][j]].v.i < i)
  }

  lemma ListInHeap(h: Heap, th: nat)
    requires Inv(h) && th in h.open
    ensures forall j :: 0 <= j < |h.open[th]| ==> h.open[th][j] in h.uv && OnStack(h.uv, h.open[th][j], th)
    ensures h.uv[HEAD].next in h.uv
  {
    forall j | 0 <= j < |h.open[th]|
      ensures h.open[th][j] in h.uv && OnStack(h.uv, h.open[th][j], th)
    {
      assert ChainAt(h.uv, h.open[th], th, |h.stack[th]|, j);
    }
    assert Linked(h.uv, h.ring, 0);
  }

  /** The double list, and then the pointer before place `k` of the list. */
  ghost function AddUpval(h: Heap, th: nat, i: nat, k: int, u: nat): Heap
    requires Inv(h) && th in h.open && 0 <= k <= |h.open[th]|
  {
    ListInHeap(h, th);
    var list := h.open[th];
    var uv1 := LinkIn(h.uv, u, Slot(th, i), Nth(list, k));
    Heap(h.stack, if k > 0 then h.head else h.head[th := u],
         if k > 0 then uv1[list[k - 1] := uv1[list[k - 1]].(chain := u)] else uv1,
         [HEAD, u] + h.ring[1..], h.open[th := list[..k] + [u] + list[k..]])
  }

  lemma RingKept(uv: map<nat, UpVal>, uv': map<nat, UpVal>, ring: seq<nat>)
    requires Ring(uv, ring) && uv'.Keys == uv.Keys && forall u :: u in uv ==> uv'[u].next == uv[u].next && uv'[u].prev == uv[u].prev
    ensures Ring(uv', ring)
  {
    forall i | 0 <= i < |ring|
      ensures Linked(uv', ring, i)
    {
      assert Linked(uv, ring, i);
    }
  }

  /** A list is not affected by what happens to others. */
  lemma ChainKept(uv: map<nat, UpVal>, uv': map<nat, UpVal>, list: seq<nat>, head: int, th: nat, size: nat)
    requires Chain(uv, list, head, th, size)
    requires forall u :: OnStack(uv, u, th) ==> u in uv' && uv'[u].v == uv[u].v && uv'[u].chain == uv[u].chain
    ensures Chain(uv', list, head, th, size)
  {
    forall i | 0 <= i < |list|
      ensures ChainAt(uv', list, th, size, i)
    {
      assert ChainAt(uv, list, th, size, i);
    }
    forall i, j | 0 <= i < j < |list|
      ensures Higher(uv', list, i, j)
    {
      assert Higher(uv, list, i, j) && ChainAt(uv, list, th, size, i) && ChainAt(uv, list, th, size, j);
    }
  }

  /** What the new heap is to the old one, but for the double list. */
  ghost predicate Added(h: Heap, h': Heap, th: nat, i: nat, k: int, u: nat) {
    && h'.stack == h.stack && h'.uv.Keys == h.uv.Keys + {u} && th in h.open && 0 <= k <= |h.open[th]|
    && h'.open == h.open[th := h.open[th][..k] + [u] + h.open[th][k..]]
    && h'.head == (if k > 0 then h.head else h.head[th := u])
    && h'.uv[u].v == Slot(th, i) && h'.uv[u].chain == Nth(h.open[th], k)
    && (forall x :: x in h.uv ==> h'.uv[x].v == h.uv[x].v && h'.uv[x].value == h.uv[x].value)
    && (forall x :: x in h.uv && !(k > 0 && x == h.open[th][k - 1]) ==> h'.uv[x].chain == h.uv[x].chain)
    && (k > 0 ==> h.open[th][k - 1] in h.uv && h'.uv[h.open[th][k - 1]].chain == u)
  }

  lemma AddRing(h: Heap, th: nat, i: nat, k: int, u: nat)
    requires Inv(h) && th in h.open && 0 <= k <= |h.open[th]| && u !in h.uv && u != HEAD
    ensures var h' := AddUpval(h, th, i, k, u); Ring(h'.uv, h'.ring) && HEAD in h'.uv && Added(h, h', th, i, k, u)
  {
    var list := h.open[th];
    ListInHeap(h, th);
    LinkInRing(h.uv, h.ring, u, Slot(th, i), Nth(list, k));
    var uv1 := LinkIn(h.uv, u, Slot(th, i), Nth(list, k));
    RingKept(uv1, AddUpval(h, th, i, k, u).uv, [HEAD, u] + h.ring[1..]);
  }

  /** One element more in a list, at its place. */
  lemma ChainInsert(uv: map<nat, UpVal>, uv': map<nat, UpVal>, list: seq<nat>, head: int, th: nat, size: nat, k: int, u: nat, i: nat)
    requires Chain(uv, list, head, th, size) && 0 <= k <= |list| && u != HEAD && u !in uv && i < size
    requires forall j :: 0 <= j < |list| ==> list[j] in uv && uv[list[j]].v.Slot? && if j < k then uv[list[j]].v.i > i else uv[list[j]].v.i < i
    requires u in uv' && uv'[u].v == Slot(th, i) && uv'[u].chain == Nth(list, k)
    requires forall x :: x in uv ==> x in uv' && uv'[x].v == uv[x].v
    requires forall j :: 0 <= j < |list| && j != k - 1 ==> uv'[list[j]].chain == uv[list[j]].chain
    requires k > 0 ==> uv'[list[k - 1]].chain == u
    ensures Chain(uv', list[..k] + [u] + list[k..], if k > 0 then head else u, th, size)
  {
    var list' := list[..k] + [u] + list[k..];
    forall j | 0 <= j < |list'|
      ensures ChainAt(uv', list', th, size, j)
    {
      InsertedAt(list, k, u, j);
      InsertedAt(list, k, u, j + 1);
      if j != k {
        assert ChainAt(uv, list, th, size, if j < k then j else j - 1);
      }
    }
    forall a, b | 0 <= a < b < |list'|
      ensures Higher(uv', list', a, b)
    {
      InsertedAt(list, k, u, a);
      InsertedAt(list, k, u, b);
      if a != k && b != k {
        assert Higher(uv, list, if a > k then a - 1 else a, if b > k then b - 1 else b);
      }
    }
  }

  lemma InsertedAt(list: seq<nat>, k: int, u: nat, j: nat)
    requires 0 <= k <= |list|
    ensures Nth(list[..k] + [u] + list[k..], j) == if j < k then Nth(list, j) else if j == k then u else Nth(list, j - 1)
  {
  }

  lemma AddChain(h: Heap, h': Heap, th: nat, i: nat, k: int, u: nat)
    requires Inv(h) && PlaceFor(h, th, i, k) && u !in h.uv && u != HEAD && i < |h.stack[th]| && Added(h, h', th, i, k, u)
    ensures Chain(h'.uv, h'.open[th], h'.head[th], th, |h'.stack[th]|)
  {
    var list := h.open[th];
    if k > 0 {
      forall j | 0 <= j < |list| && j != k - 1
        ensures list[j] != list[k - 1]
      {
        assert if j < k - 1 then Higher(h.uv, list, j, k - 1) else Higher(h.uv, list, k - 1, j);
      }
    }
    ChainInsert(h.uv, h'.uv, list, h.head[th], th, |h.stack[th]|, k, u, i);
  }

  lemma InsertMembers(list: seq<nat>, k: int, u: nat)
    requires 0 <= k <= |list|
    ensures forall x :: x in list[..k] + [u] + list[k..] <==> x == u || x in list
  {
    assert list == list[..k] + list[k..];
  }

  lemma AddInv(h: Heap, th: nat, i: nat, k: int, u: nat)
    requires Inv(h) && PlaceFor(h, th, i, k) && u !in h.uv && u != HEAD && i < |h.stack[th]|
    ensures Inv(AddUpval(h, th, i, k, u)) && Added(h, AddUpval(h, th, i, k, u), th, i, k, u)
  {
    AddRing(h, th, i, k, u);
    var h' := AddUpval(h, th, i, k, u);
    AddChain(h, h', th, i, k, u);
    AddOthers(h, h', th, i, k, u);
    AddMembers(h, h', th, i, k, u);
  }

  lemma AddMembers(h: Heap, h': Heap, th: nat, i: nat, k: int, u: nat)
    requires InRing(h.uv, h.ring) && InLists(h.uv, h.open) && Added(h, h', th, i, k, u) && u !in h.uv && u != HEAD
    requires |h.ring| > 0 && h.ring[0] == HEAD && h'.ring == [HEAD, u] + h.ring[1..]
    ensures InRing(h'.uv, h'.ring) && InLists(h'.uv, h'.open)
  {
    InsertMembers(h.open[th], k, u);
    assert h.ring == [HEAD] + h.ring[1..];
    assert forall x :: x in h'.ring <==> x == u || x in h.ring;
  }

  lemma AddOthers(h: Heap, h': Heap, th: nat, i: nat, k: int, u: nat)
    requires Inv(h) && Added(h, h', th, i, k, u) && u !in h.uv
    ensures forall t :: t in h.stack && t != th ==> Chain(h'.uv, h'.open[t], h'.head[t], t, |h'.stack[t]|)
  {
    forall t | t in h.stack && t != th
      ensures Chain(h'.uv, h'.open[t], h'.head[t], t, |h'.stack[t]|)
    {
      assert k > 0 ==> ChainAt(h.uv, h.open[th], th, |h.stack[th]|, k - 1);
      ChainKept(h.uv, h'.uv, h.open[t], h.head[t], t, |h.stack[t]|);
    }
  }

  /** No open upvalue stands for the slot. */
  lemma NoneAt(h: Heap, th: nat, i: nat, k: int, x: nat)
    requires Inv(h) && PlaceFor(h, th, i, k) && x in h.uv && x != HEAD
    ensures h.uv[x].v != Slot(th, i)
  {
    if h.uv[x].v.Slot? && h.uv[x].v.th == th {
      var j :| 0 <= j < |h.open[th]| && h.open[th][j] == x;
    }
  }

  lemma AddAgrees(h: Heap, h': Heap, c: Cells, th: nat, i: nat, k: int, u: nat)
    requires Inv(h) && PlaceFor(h, th, i, k) && u !in h.uv && u != HEAD && i < |h.stack[th]| && Agrees(h, c)
    requires Added(h, h', th, i, k, u)
    ensures (th, i) in c.bound && Agrees(h', Share(c, th, i, u))
  {
    forall x | x in c.cell
      ensures h.uv[x].v != Slot(th, i)
    {
      NoneAt(h, th, i, k, x);
    }
    AddedValues(h, h', c, th, i, k, u);
    AddedApart(h, h', c, th, i, k, u);
  }

  lemma AddedApart(h: Heap, h': Heap, c: Cells, th: nat, i: nat, k: int, u: nat)
    requires Added(h, h', th, i, k, u) && u !in h.uv && u != HEAD && (th, i) in c.bound
    requires SlotsAgree(h.stack, c) && UpvalsAgree(h, c) && Apart(h.uv, c) && forall x :: x in c.cell ==> h.uv[x].v != Slot(th, i)
    ensures Apart(h'.uv, Share(c, th, i, u))
  {
    forall x | x in c.cell
      ensures c.cell[x] != c.bound[(th, i)]
    {
    }
  }

  lemma AddedValues(h: Heap, h': Heap, c: Cells, th: nat, i: nat, k: int, u: nat)
    requires Added(h, h', th, i, k, u) && u !in h.uv && u != HEAD && (th, i) in c.bound
    requires SlotsAgree(h.stack, c) && UpvalsAgree(h, c)
    ensures UpvalsAgree(h', Share(c, th, i, u))
  {
    forall x | x in h.uv
      ensures Current(h', x) == Current(h, x)
    {
    }
  }

  // ---------- an open upvalue leaves its lists ----------

  /** What `h'` is to `h` when element `k` of the list of a thread has been taken out of it, and is closed with its
      value if it is kept. */
  ghost predicate Removed(h: Heap, h': Heap, th: nat, k: int, keep: bool) {
    && th in h.open && 0 <= k < |h.open[th]| && h'.stack == h.stack && h'.open == h.open[th := Without(h.open[th], k)]
    && var list, u := h.open[th], h.open[th][k];
    && u in h.uv && h'.uv.Keys == (if keep then h.uv.Keys else h.uv.Keys - {u})
    && h'.head == (if k > 0 then h.head else h.head[th := h.uv[u].chain])
    && (keep ==> h'.uv[u].v == Own && h'.uv[u].value == Current(h, u))
    && (forall x :: x in h.uv && x != u ==> h'.uv[x].v == h.uv[x].v && h'.uv[x].value == h.uv[x].value)
    && (forall x :: x in h.uv && x != u && !(k > 0 && x == list[k - 1]) ==> h'.uv[x].chain == h.uv[x].chain)
    && (k > 0 ==> list[k - 1] in h'.uv && h'.uv[list[k - 1]].chain == h.uv[u].chain)
  }

  lemma ChainDistinct(uv: map<nat, UpVal>, list: seq<nat>, head: int, th: nat, size: nat, k: int)
    requires Chain(uv, list, head, th, size) && 0 <= k < |list|
    ensures forall j :: 0 <= j < |list| && j != k ==> list[j] != list[k]
  {
    forall j | 0 <= j < |list| && j != k
      ensures list[j] != list[k]
    {
      assert if j < k then Higher(uv, list, j, k) else Higher(uv, list, k, j);
    }
  }

  /** One element less in a list. */
  lemma ChainDelete(uv: map<nat, UpVal>, uv': map<nat, UpVal>, list: seq<nat>, head: int, th: nat, size: nat, k: int)
    requires Chain(uv, list, head, th, size) && 0 <= k < |list|
    requires forall x :: x in uv && x != list[k] ==> x in uv' && uv'[x].v == uv[x].v
    requires forall j :: 0 <= j < |list| && j != k && j != k - 1 ==> list[j] in uv && list[j] in uv' && uv'[list[j]].chain == uv[list[j]].chain
    requires list[k] in uv && (k > 0 ==> list[k - 1] in uv' && uv'[list[k - 1]].chain == uv[list[k]].chain)
    ensures Chain(uv', Without(list, k), if k > 0 then head else uv[list[k]].chain, th, size)
  {
    var list' := Without(list, k);
    ChainDistinct(uv, list, head, th, size, k);
    assert ChainAt(uv, list, th, size, k);
    assert forall j :: 0 <= j < k ==> list'[j] == list[j];
    assert forall j :: k <= j < |list'| ==> list'[j] == list[j + 1];
    forall j | 0 <= j < |list'|
      ensures ChainAt(uv', list', th, size, j)
    {
      assert ChainAt(uv, list, th, size, if j < k then j else j + 1);
    }
    forall a, b | 0 <= a < b < |list'|
      ensures Higher(uv', list', a, b)
    {
      assert Higher(uv, list, if a < k then a else a + 1, if b < k then b else b + 1);
      assert ChainAt(uv', list', th, size, a) && ChainAt(uv', list', th, size, b);
    }
  }

  lemma DeleteFromChain(h: Heap, h': Heap, th: nat, k: int, keep: bool)
    requires Inv(h) && Removed(h, h', th, k, keep)
    ensures Chain(h'.uv, h'.open[th], h'.head[th], th, |h'.stack[th]|)
  {
    var list, size := h.open[th], |h.stack[th]|;
    ListInHeap(h, th);
    ChainDistinct(h.uv, list, h.head[th], th, size, k);
    if k > 0 {
      ChainDistinct(h.uv, list, h.head[th], th, size, k - 1);
    }
    ChainDelete(h.uv, h'.uv, list, h.head[th], th, size, k);
  }

  lemma OthersKept(h: Heap, h': Heap, th: nat, k: int, keep: bool)
    requires Inv(h) && Removed(h, h', th, k, keep)
    ensures forall t :: t in h.stack && t != th ==> Chain(h'.uv, h'.open[t], h'.head[t], t, |h'.stack[t]|)
  {
    forall t | t in h.stack && t != th
      ensures Chain(h'.uv, h'.open[t], h'.head[t], t, |h'.stack[t]|)
    {
      assert k > 0 ==> ChainAt(h.uv, h.open[th], th, |h.stack[th]|, k - 1);
      assert ChainAt(h.uv, h.open[th], th, |h.stack[th]|, k);
      ChainKept(h.uv, h'.uv, h.open[t], h.head[t], t, |h.stack[t]|);
    }
  }

  lemma DeleteMembers(list: seq<nat>, k: int)
    requires 0 <= k < |list| && forall j :: 0 <= j < |list| && j != k ==> list[j] != list[k]
    ensures forall x :: x in Without(list, k) <==> x in list && x != list[k]
  {
    assert list == list[..k] + [list[k]] + list[k + 1..];
    forall x | x in Without(list, k)
      ensures x != list[k]
    {
      var j :| 0 <= j < |Without(list, k)| && Without(list, k)[j] == x;
      assert x == list[if j < k then j else j + 1];
    }
  }

  lemma RemoveInv(h: Heap, h': Heap, th: nat, k: int, r: int, keep: bool)
    requires Inv(h) && Removed(h, h', th, k, keep) && 0 < r < |h.ring| && h.ring[r] == h.open[th][k]
    requires h'.ring == Without(h.ring, r) && Ring(h'.uv, h'.ring)
    ensures Inv(h')
  {
    DeleteFromChain(h, h', th, k, keep);
    OthersKept(h, h', th, k, keep);
    assert ChainAt(h.uv, h.open[th], th, |h.stack[th]|, k);
    ChainDistinct(h.uv, h.open[th], h.head[th], th, |h.stack[th]|, k);
    DeleteMembers(h.open[th], k);
    DeleteMembers(h.ring, r);
  }
}

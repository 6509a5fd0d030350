/** What a table means: the finite map that its array part and its nodes stand for. */
module TableMap {
  import opened Numbers
  import opened TableChain
  import opened TableSizes

  predicate Storable(k: Key) {
    k.IntKey? || k.ObjKey?
  }

  predicate InArrayPart(arr: seq<Val>, k: Key) {
    k.IntKey? && 1 <= k.n <= |arr|
  }

  /** The value at a key; nil when the key has no place. */
  ghost function Look(arr: seq<Val>, node: seq<Node>, k: Key): Val {
    if InArrayPart(arr, k) then arr[k.n - 1]
    else if i :| Holds(node, i, k) then node[i].val
    else Nil
  }

  /** The non-nil entries, as a map. */
  ghost function Contents(arr: seq<Val>, node: seq<Node>): map<Key, Val> {
    map k | k in (set n | 1 <= n <= |arr| :: IntKey(n)) + (set i | 0 <= i < |node| && node[i].key.Taken? :: node[i].key.k)
            && Look(arr, node, k) != Nil :: Look(arr, node, k)
  }

  lemma ContentsLook(arr: seq<Val>, node: seq<Node>, k: Key)
    ensures k in Contents(arr, node) <==> Look(arr, node, k) != Nil
    ensures k in Contents(arr, node) ==> Contents(arr, node)[k] == Look(arr, node, k)
  {
    if Look(arr, node, k) != Nil {
      if InArrayPart(arr, k) {
        assert k == IntKey(k.n);
      } else {
        var i :| Holds(node, i, k);
        assert node[i].key.k == k;
      }
    }
  }

  /** A map with one entry set, or removed when the value is nil. */
  function Updated(m: map<Key, Val>, k: Key, v: Val): map<Key, Val> {
    if v == Nil then m - {k} else m[k := v]
  }

  /** Two tables that agree everywhere but at `k`, where the second has `v`. */
  lemma ContentsUpdated(arr: seq<Val>, node: seq<Node>, arr': seq<Val>, node': seq<Node>, k: Key, v: Val)
    requires forall x :: Look(arr', node', x) == if x == k then v else Look(arr, node, x)
    ensures Contents(arr', node') == Updated(Contents(arr, node), k, v)
  {
    forall x
      ensures x in Contents(arr', node') <==> x in Updated(Contents(arr, node), k, v)
      ensures x in Contents(arr', node') ==> Contents(arr', node')[x] == Updated(Contents(arr, node), k, v)[x]
    {
      ContentsLook(arr, node, x);
      ContentsLook(arr', node', x);
    }
  }

  /** The invariant of a table; `dummy` says that the hash part is the shared empty node. */
  ghost predicate TableOk(arr: seq<Val>, node: seq<Node>, lastfree: int, dummy: bool, lay: Layout, mp: Position) {
    && Chained(node, lay, mp) && |arr| <= MAXASIZE
    && (forall i, k :: Holds(node, i, k) ==> Storable(k) && !InArrayPart(arr, k))
    && FreeBelow(node, lastfree, dummy)
  }

  /** Every node that newkey may still take lies below `lastfree`. */
  ghost predicate FreeBelow(node: seq<Node>, lastfree: int, dummy: bool) {
    && lastfree <= |node| && (dummy ==> node == [EMPTY] && lastfree <= 0)
    && (!dummy ==> forall i :: 0 <= i < |node| && lastfree <= i ==> Used(node, i))
  }

  /** The free nodes that newkey may still use. */
  ghost function FreeNodes(node: seq<Node>, dummy: bool): set<int> {
    set i | 0 <= i < |node| && !Used(node, i) && !dummy
  }

  // ---------- a key's place ----------

  /** Keys are stored once, so the node that holds a key determines the value. */
  lemma LookAt(arr: seq<Val>, node: seq<Node>, i: int, k: Key)
    requires !InArrayPart(arr, k) && Holds(node, i, k)
    requires forall x, y, z :: Holds(node, x, z) && Holds(node, y, z) ==> x == y
    ensures Look(arr, node, k) == node[i].val
  {
  }

  // ---------- insertion does not change what the table means ----------

  lemma PutMainLook(arr: seq<Val>, node: seq<Node>, p: nat, k: Key, x: Key)
    requires p < |node| && node[p].val == Nil && Absent(node, k)
    requires forall a, b, z :: Holds(node, a, z) && Holds(node, b, z) ==> a == b
    ensures Look(arr, PutMain(node, p, k), x) == Look(arr, node, x)
  {
    var node' := PutMain(node, p, k);
    assert forall i, z :: Holds(node', i, z) <==> (i == p && z == k) || (i != p && Holds(node, i, z));
  }

  lemma PutMoveLook(arr: seq<Val>, node: seq<Node>, prev: nat, p: nat, n: nat, k: Key, x: Key)
    requires prev < |node| && p < |node| && n < |node| && p != n && prev != p && prev != n
    requires !Used(node, n) && Absent(node, k)
    requires forall a, b, z :: Holds(node, a, z) && Holds(node, b, z) ==> a == b
    ensures Look(arr, PutMove(node, prev, p, n, k), x) == Look(arr, node, x)
  {
    var node' := PutMove(node, prev, p, n, k);
    assert forall i, z :: Holds(node', i, z) <==>
      (i == p && z == k) || (i == n && Holds(node, p, z)) || (i != p && i != n && Holds(node, i, z));
    if !InArrayPart(arr, x) && exists i :: Holds(node, i, x) {
      var i :| Holds(node, i, x);
      assert Holds(node', if i == p then n else i, x);
    }
  }

  lemma PutAfterLook(arr: seq<Val>, node: seq<Node>, p: nat, n: nat, k: Key, x: Key)
    requires p < |node| && n < |node| && p != n && !Used(node, n) && Absent(node, k)
    requires forall a, b, z :: Holds(node, a, z) && Holds(node, b, z) ==> a == b
    ensures Look(arr, PutAfter(node, p, n, k), x) == Look(arr, node, x)
  {
    var node' := PutAfter(node, p, n, k);
    assert forall i, z :: Holds(node', i, z) <==> (i == n && z == k) || (i != n && Holds(node, i, z));
  }

  // ---------- places ----------

  /** What a search returns: luaO_nilobject, a slot of the array part, or the value of a node. */
  datatype Slot = NoSlot | InArray(i: nat) | InNode(i: nat)

  ghost predicate PlaceOf(arr: seq<Val>, node: seq<Node>, k: Key, s: Slot) {
    match s
    case NoSlot => !InArrayPart(arr, k) && Absent(node, k)
    case InArray(i) => k == IntKey(i + 1) && i < |arr|
    case InNode(i) => !InArrayPart(arr, k) && Holds(node, i, k)
  }

  function At(arr: seq<Val>, node: seq<Node>, s: Slot): Val {
    match s
    case NoSlot => Nil
    case InArray(i) => if i < |arr| then arr[i] else Nil
    case InNode(i) => if i < |node| then node[i].val else Nil
  }

  lemma PlaceLook(arr: seq<Val>, node: seq<Node>, lastfree: int, dummy: bool, lay: Layout, mp: Position, k: Key, s: Slot)
    requires TableOk(arr, node, lastfree, dummy, lay, mp) && PlaceOf(arr, node, k, s)
    ensures Look(arr, node, k) == At(arr, node, s)
  {
    if s.InNode? {
      LookAt(arr, node, s.i, k);
    }
  }

  ghost predicate SameLook(arr: seq<Val>, node: seq<Node>, arr': seq<Val>, node': seq<Node>) {
    forall x :: Look(arr', node', x) == Look(arr, node, x)
  }

  ghost predicate SetLook(arr: seq<Val>, node: seq<Node>, arr': seq<Val>, node': seq<Node>, k: Key, v: Val) {
    forall x :: Look(arr', node', x) == if x == k then v else Look(arr, node, x)
  }

  /** Chains do not depend on values. */
  lemma StoreChained(node: seq<Node>, lay: Layout, mp: Position, i: nat, v: Val)
    requires Chained(node, lay, mp) && i < |node| && node[i].key.Taken?
    ensures Chained(node[i := node[i].(val := v)], lay, mp)
  {
    var node' := node[i := node[i].(val := v)];
    assert forall j, z :: Holds(node', j, z) <==> Holds(node, j, z);
    assert forall a, b :: Before(node', lay, a, b) <==> Before(node, lay, a, b);
    assert forall j :: Used(node', j) <==> Used(node, j);
  }

  /** Storing into the place of a key changes the table at that key only. */
  lemma StoreNode(arr: seq<Val>, node: seq<Node>, lastfree: int, dummy: bool, lay: Layout, mp: Position, k: Key, i: nat, v: Val)
    requires TableOk(arr, node, lastfree, dummy, lay, mp) && PlaceOf(arr, node, k, InNode(i))
    ensures var node' := node[i := node[i].(val := v)];
      TableOk(arr, node', lastfree, dummy, lay, mp) && SetLook(arr, node, arr, node', k, v)
  {
    var node' := node[i := node[i].(val := v)];
    StoreChained(node, lay, mp, i, v);
    assert forall j, z :: Holds(node', j, z) <==> Holds(node, j, z);
    assert Used(node, i) && forall j :: Used(node', j) <==> Used(node, j);
    StoreLook(arr, node, node', lay, mp, k, i, v);
  }

  lemma StoreLook(arr: seq<Val>, node: seq<Node>, node': seq<Node>, lay: Layout, mp: Position, k: Key, i: nat, v: Val)
    requires Chained(node, lay, mp) && Chained(node', lay, mp) && PlaceOf(arr, node, k, InNode(i))
    requires node' == node[i := node[i].(val := v)] && forall j, z :: Holds(node', j, z) <==> Holds(node, j, z)
    ensures SetLook(arr, node, arr, node', k, v)
  {
    forall x
      ensures Look(arr, node', x) == if x == k then v else Look(arr, node, x)
    {
      if !InArrayPart(arr, x) && exists j :: Holds(node, j, x) {
        var j :| Holds(node, j, x);
        LookAt(arr, node, j, x);
        LookAt(arr, node', j, x);
      }
    }
  }

  lemma StoreArray(arr: seq<Val>, node: seq<Node>, lastfree: int, dummy: bool, lay: Layout, mp: Position, k: Key, i: nat, v: Val)
    requires TableOk(arr, node, lastfree, dummy, lay, mp) && PlaceOf(arr, node, k, InArray(i))
    ensures TableOk(arr[i := v], node, lastfree, dummy, lay, mp) && SetLook(arr, node, arr[i := v], node, k, v)
  {
  }

  // ---------- insertion keeps the invariant, and what the table means ----------

  /** A new key sits in node `j`, which took at most the free node `n`. */
  ghost predicate Inserted(arr: seq<Val>, node: seq<Node>, node': seq<Node>, k: Key, j: int, n: int) {
    && |node'| == |node| && Holds(node', j, k) && node'[j].val == Nil && SameLook(arr, node, arr, node')
    && (forall i, x :: Holds(node', i, x) ==> x == k || exists i' :: Holds(node, i', x))
    && (forall i :: Used(node, i) ==> Used(node', i)) && (forall i :: Used(node', i) ==> Used(node, i) || i == n)
  }

  lemma InsertMain(arr: seq<Val>, node: seq<Node>, lay: Layout, mp: Position, k: Key)
    requires Chained(node, lay, mp) && Absent(node, k) && node[mp(k)].val == Nil
    ensures Chained(PutMain(node, mp(k), k), MainLayout(node, lay, mp(k)), mp)
    ensures Inserted(arr, node, PutMain(node, mp(k), k), k, mp(k), mp(k))
  {
    PutMainChained(node, lay, mp, k);
    forall x
      ensures Look(arr, PutMain(node, mp(k), k), x) == Look(arr, node, x)
    {
      PutMainLook(arr, node, mp(k), k, x);
    }
    var node' := PutMain(node, mp(k), k);
    assert forall i, x :: Holds(node', i, x) ==> x == k || Holds(node, i, x);
  }

  lemma InsertMove(arr: seq<Val>, node: seq<Node>, lay: Layout, mp: Position, prev: nat, n: nat, k: Key)
    requires Chained(node, lay, mp) && Absent(node, k) && n < |node| && prev < |node|
    requires !Used(node, n) && Used(node, prev) && node[prev].next == mp(k)
    requires node[mp(k)].key.Taken? && mp(node[mp(k)].key.k) != mp(k)
    ensures Chained(PutMove(node, prev, mp(k), n, k), MoveLayout(lay, mp(k), n), mp)
    ensures Inserted(arr, node, PutMove(node, prev, mp(k), n, k), k, mp(k), n)
  {
    assert Before(node, lay, prev, mp(k));
    PutMoveChained(node, lay, mp, prev, n, k);
    forall x
      ensures Look(arr, PutMove(node, prev, mp(k), n, k), x) == Look(arr, node, x)
    {
      PutMoveLook(arr, node, prev, mp(k), n, k, x);
    }
    var node' := PutMove(node, prev, mp(k), n, k);
    forall i, x | Holds(node', i, x)
      ensures x == k || exists i' :: Holds(node, i', x)
    {
      if i == n {
        assert x == k || Holds(node, mp(k), x);
      } else {
        assert x == k || Holds(node, i, x);
      }
    }
  }

  lemma InsertAfter(arr: seq<Val>, node: seq<Node>, lay: Layout, mp: Position, n: nat, k: Key)
    requires Chained(node, lay, mp) && Absent(node, k) && n < |node| && !Used(node, n)
    requires node[mp(k)].key.Taken? && mp(node[mp(k)].key.k) == mp(k)
    ensures Chained(PutAfter(node, mp(k), n, k), AfterLayout(node, lay, mp(k), n), mp)
    ensures Inserted(arr, node, PutAfter(node, mp(k), n, k), k, n, n)
  {
    PutAfterChained(node, lay, mp, n, k);
    forall x
      ensures Look(arr, PutAfter(node, mp(k), n, k), x) == Look(arr, node, x)
    {
      PutAfterLook(arr, node, mp(k), n, k, x);
    }
    var node' := PutAfter(node, mp(k), n, k);
    assert forall i, x :: Holds(node', i, x) ==> x == k || Holds(node, i, x);
  }

  /** After an insertion the table is sound again and has at most one free node less. */
  lemma InsertedOk(arr: seq<Val>, node: seq<Node>, lastfree: int, dummy: bool, lay: Layout,
                   node': seq<Node>, lastfree': int, lay': Layout, mp: Position, k: Key, j: int, n: int)
    requires TableOk(arr, node, lastfree, dummy, lay, mp) && !dummy && Chained(node', lay', mp)
    requires Inserted(arr, node, node', k, j, n) && Storable(k) && !InArrayPart(arr, k)
    requires lastfree' <= |node| && forall i :: 0 <= i < |node| && lastfree' <= i ==> Used(node', i)
    ensures TableOk(arr, node', lastfree', dummy, lay', mp)
    ensures |FreeNodes(node', dummy)| >= |FreeNodes(node, dummy)| - 1
  {
    var F, F' := FreeNodes(node, dummy), FreeNodes(node', dummy);
    assert F <= F' + {n};
    SubsetSize(F, F' + {n});
  }

  lemma {:induction false} SubsetSize<T>(A: set<T>, B: set<T>)
    requires A <= B
    ensures |A| <= |B|
    ensures A != B ==> |A| < |B|
  {
    if A != {} {
      var x :| x in A;
      SubsetSize(A - {x}, B - {x});
    }
  }

  // ---------- a fresh node vector ----------

  lemma FreshNodes(node: seq<Node>, lay: Layout, mp: Position)
    requires 0 < |node| == |lay.chain| == |lay.rank| && forall k :: mp(k) < |node|
    requires forall i :: 0 <= i < |node| ==> node[i] == EMPTY
    ensures Chained(node, lay, mp) && forall i, k :: !Holds(node, i, k)
    ensures |FreeNodes(node, false)| == |node|
  {
    AllFree(node);
  }

  lemma {:induction false} AllFree(node: seq<Node>)
    requires forall i :: 0 <= i < |node| ==> node[i] == EMPTY
    ensures |FreeNodes(node, false)| == |node|
  {
    var n := |node|;
    if n > 0 {
      AllFree(node[..n - 1]);
      assert FreeNodes(node, false) == FreeNodes(node[..n - 1], false) + {n - 1};
    } else {
      assert FreeNodes(node, false) == {};
    }
  }
}

/** The hash part of a table: nodes, their chains, and what one insertion does to them. */
module TableChain {

  /** A key as the program gives it.  Integer-valued numbers are `IntKey`, every other storable value
      is an `ObjKey`; nil and NaN cannot be stored. */
  datatype Key = NilKey | NanKey | IntKey(n: int) | ObjKey(id: nat)

  datatype Val = Nil | Some(v: int)

  /** The key field of a node: nil, a key, or the key of a collected object. */
  datatype NodeKey = Free | Taken(k: Key) | DeadKey

  /** `next` is the index of the next node of the chain, or -1. */
  datatype Node = Node(key: NodeKey, val: Val, next: int)

  const EMPTY := Node(Free, Nil, -1)

  predicate Used(node: seq<Node>, i: int) {
    0 <= i < |node| && node[i].key != Free
  }

  predicate Holds(node: seq<Node>, i: int, k: Key) {
    0 <= i < |node| && node[i].key == Taken(k)
  }

  /** The main position of each key, for the current number of nodes. */
  type Position = Key -> nat

  /** Every used node lies on one chain (`chain`), at some place of it (`rank`). */
  datatype Layout = Layout(chain: seq<int>, rank: seq<real>)

  ghost predicate Before(node: seq<Node>, lay: Layout, i: int, j: int) {
    Used(node, i) && Used(node, j) && |lay.chain| == |lay.rank| == |node|
    && lay.chain[i] == lay.chain[j] && lay.rank[i] < lay.rank[j]
  }

  /** `next` stays in the table and leads forward on the same chain; free nodes are bare. */
  ghost predicate Forward(node: seq<Node>, lay: Layout) {
    && |lay.chain| == |lay.rank| == |node|
    && (forall i :: 0 <= i < |node| ==> -1 <= node[i].next < |node|)
    && (forall i :: 0 <= i < |node| && !Used(node, i) ==> node[i].next == -1 && node[i].val == Nil)
    && (forall i :: Used(node, i) && node[i].next >= 0 ==> Before(node, lay, i, node[i].next))
  }

  /** `next` skips nothing on its chain. */
  ghost predicate Dense(node: seq<Node>, lay: Layout) {
    forall i, j {:trigger Before(node, lay, i, j)} :: Before(node, lay, i, j) ==>
      node[i].next == j || (node[i].next >= 0 && Before(node, lay, node[i].next, j))
  }

  /** No two nodes share a place. */
  ghost predicate Spread(node: seq<Node>, lay: Layout) {
    && |lay.chain| == |lay.rank| == |node|
    && forall i, j :: Used(node, i) && Used(node, j) && lay.chain[i] == lay.chain[j] && lay.rank[i] == lay.rank[j] ==> i == j
  }

  /** The `next` fields link exactly the neighbours on each chain. */
  ghost predicate Linked(node: seq<Node>, lay: Layout) {
    Forward(node, lay) && Dense(node, lay) && Spread(node, lay)
  }

  /** Keys are stored once, live values have a key, and every key can be found: its main position is
      at or before it on its chain, and holds a key that is in its own main position. */
  ghost predicate Keyed(node: seq<Node>, lay: Layout, mp: Position) {
    && |lay.chain| == |lay.rank| == |node|
    && (forall i, j, k :: Holds(node, i, k) && Holds(node, j, k) ==> i == j)
    && (forall i :: 0 <= i < |node| && node[i].val != Nil ==> node[i].key.Taken?)
    && (forall i, k :: Holds(node, i, k) ==> mp(k) < |node| && (mp(k) == i || Before(node, lay, mp(k), i)))
    && (forall i, k :: Holds(node, i, k) && mp(k) != i && node[mp(k)].key.Taken? ==> mp(node[mp(k)].key.k) == mp(k))
  }

  ghost predicate Chained(node: seq<Node>, lay: Layout, mp: Position) {
    0 < |node| && Linked(node, lay) && Keyed(node, lay, mp) && forall k :: mp(k) < |node|
  }

  // ---------- what the layout gives ----------

  /** At most one predecessor. */
  lemma OnePredecessor(node: seq<Node>, lay: Layout, i: int, j: int)
    requires Linked(node, lay) && Used(node, i) && Used(node, j)
    requires node[i].next == node[j].next && node[i].next >= 0
    ensures i == j
  {
    var n := node[i].next;
    assert Before(node, lay, i, n) && Before(node, lay, j, n);
    assert i == j || Before(node, lay, i, j) || Before(node, lay, j, i);
  }

  /** The nodes that follow a node on its chain: walking the chain ends. */
  ghost function Rest(node: seq<Node>, lay: Layout, i: int): set<int> {
    set j | 0 <= j < |node| && Before(node, lay, i, j)
  }

  lemma RestShrinks(node: seq<Node>, lay: Layout, i: int)
    requires Linked(node, lay) && Used(node, i) && node[i].next >= 0
    ensures Rest(node, lay, node[i].next) < Rest(node, lay, i)
  {
    var n := node[i].next;
    assert Before(node, lay, i, n);
    assert n in Rest(node, lay, i) && n !in Rest(node, lay, n);
    assert forall j :: Before(node, lay, n, j) ==> Before(node, lay, i, j);
  }

  // ---------- the three ways newkey places a key ----------

  ghost predicate Absent(node: seq<Node>, k: Key) {
    forall i :: !Holds(node, i, k)
  }

  /** A chain number that is not in use. */
  ghost function FreshChain(lay: Layout): (c: int)
    ensures forall i :: 0 <= i < |lay.chain| ==> lay.chain[i] < c
  {
    MaxOf(lay.chain) + 1
  }

  ghost function MaxOf(q: seq<int>): (m: int)
    ensures forall i :: 0 <= i < |q| ==> q[i] <= m
  {
    if q == [] then 0 else var m := MaxOf(q[1..]); if q[0] > m then q[0] else m
  }

  /** The main position holds no value: the key goes there, and a dead key's place on its chain with it. */
  function PutMain(node: seq<Node>, p: nat, k: Key): seq<Node>
    requires p < |node|
  {
    node[p := node[p].(key := Taken(k))]
  }

  ghost function MainLayout(node: seq<Node>, lay: Layout, p: nat): Layout
    requires p < |node| == |lay.chain| == |lay.rank|
  {
    if Used(node, p) then lay else Layout(lay.chain[p := FreshChain(lay)], lay.rank[p := 0.0])
  }

  lemma PutMainBefore(node: seq<Node>, lay: Layout, p: nat, k: Key)
    requires p < |node| == |lay.chain| == |lay.rank|
    ensures forall i, j :: Before(PutMain(node, p, k), MainLayout(node, lay, p), i, j) <==> Before(node, lay, i, j)
  {
  }

  lemma PutMainLinked(node: seq<Node>, lay: Layout, p: nat, k: Key)
    requires Linked(node, lay) && p < |node| && node[p].val == Nil
    ensures Linked(PutMain(node, p, k), MainLayout(node, lay, p))
  {
    PutMainBefore(node, lay, p, k);
  }

  lemma PutMainKeyed(node: seq<Node>, lay: Layout, mp: Position, k: Key)
    requires Keyed(node, lay, mp) && mp(k) < |node| && node[mp(k)].val == Nil && Absent(node, k)
    ensures Keyed(PutMain(node, mp(k), k), MainLayout(node, lay, mp(k)), mp)
  {
    PutMainBefore(node, lay, mp(k), k);
    var node' := PutMain(node, mp(k), k);
    assert forall i, x :: Holds(node', i, x) ==> (i == mp(k) && x == k) || (i != mp(k) && Holds(node, i, x));
  }

  lemma PutMainChained(node: seq<Node>, lay: Layout, mp: Position, k: Key)
    requires Chained(node, lay, mp) && Absent(node, k) && node[mp(k)].val == Nil
    ensures Chained(PutMain(node, mp(k), k), MainLayout(node, lay, mp(k)), mp)
  {
    PutMainLinked(node, lay, mp(k), k);
    PutMainKeyed(node, lay, mp, k);
  }

  /** The colliding node `p` is out of its main position: it moves to the free node `n`, `prev` (its
      predecessor) follows it, and the key takes `p` as the start of a new chain. */
  function PutMove(node: seq<Node>, prev: nat, p: nat, n: nat, k: Key): seq<Node>
    requires prev < |node| && p < |node| && n < |node|
  {
    var linked := node[prev := node[prev].(next := n)];
    linked[n := linked[p]][p := Node(Taken(k), Nil, -1)]
  }

  ghost function MoveLayout(lay: Layout, p: nat, n: nat): Layout
    requires p < |lay.chain| && n < |lay.chain| && |lay.chain| == |lay.rank|
  {
    Layout(lay.chain[n := lay.chain[p]][p := FreshChain(lay)], lay.rank[n := lay.rank[p]][p := 0.0])
  }

  /** `n` plays the part that `p` played. */
  lemma PutMoveBefore(node: seq<Node>, lay: Layout, prev: nat, p: nat, n: nat, k: Key)
    requires Linked(node, lay) && prev < |node| && p < |node| && n < |node|
    requires Used(node, p) && !Used(node, n) && Used(node, prev) && prev != p
    ensures forall i, j :: Before(PutMove(node, prev, p, n, k), MoveLayout(lay, p, n), i, j) <==>
      i != p && j != p && Before(node, lay, if i == n then p else i, if j == n then p else j)
  {
  }

  lemma PutMoveSpread(node: seq<Node>, lay: Layout, prev: nat, p: nat, n: nat, k: Key)
    requires Spread(node, lay) && prev < |node| && p < |node| && n < |node|
    requires Used(node, p) && !Used(node, n) && Used(node, prev) && prev != p
    ensures Spread(PutMove(node, prev, p, n, k), MoveLayout(lay, p, n))
  {
  }

  lemma PutMoveForward(node: seq<Node>, lay: Layout, prev: nat, p: nat, n: nat, k: Key)
    requires Linked(node, lay) && prev < |node| && p < |node| && n < |node| && prev != p
    requires Used(node, p) && !Used(node, n) && Used(node, prev) && node[prev].next == p
    ensures Forward(PutMove(node, prev, p, n, k), MoveLayout(lay, p, n))
  {
    assert Before(node, lay, prev, p);
    PutMoveBefore(node, lay, prev, p, n, k);
    forall i | Used(node, i) && node[i].next == p
      ensures i == prev
    {
      OnePredecessor(node, lay, i, prev);
    }
  }

  lemma PutMoveLinked(node: seq<Node>, lay: Layout, prev: nat, p: nat, n: nat, k: Key)
    requires Linked(node, lay) && prev < |node| && p < |node| && n < |node|
    requires Used(node, p) && !Used(node, n) && Used(node, prev) && node[prev].next == p
    ensures Linked(PutMove(node, prev, p, n, k), MoveLayout(lay, p, n))
  {
    assert Before(node, lay, prev, p);
    PutMoveBefore(node, lay, prev, p, n, k);
    PutMoveForward(node, lay, prev, p, n, k);
    var node', lay' := PutMove(node, prev, p, n, k), MoveLayout(lay, p, n);
    forall i, j | Before(node', lay', i, j)
      ensures node'[i].next == j || (node'[i].next >= 0 && Before(node', lay', node'[i].next, j))
    {
      var i0, j0 := if i == n then p else i, if j == n then p else j;
      assert Before(node, lay, i0, j0);
    }
    PutMoveSpread(node, lay, prev, p, n, k);
  }

  lemma PutMoveKeyed(node: seq<Node>, lay: Layout, mp: Position, prev: nat, n: nat, k: Key)
    requires Chained(node, lay, mp) && Absent(node, k) && n < |node| && prev < |node|
    requires !Used(node, n) && Used(node, prev) && node[prev].next == mp(k)
    requires node[mp(k)].key.Taken? && mp(node[mp(k)].key.k) != mp(k)
    ensures Keyed(PutMove(node, prev, mp(k), n, k), MoveLayout(lay, mp(k), n), mp)
  {
    var p := mp(k);
    assert Before(node, lay, prev, p);
    PutMoveBefore(node, lay, prev, p, n, k);
    var node' := PutMove(node, prev, p, n, k);
    assert forall i, x :: Holds(node', i, x) ==>
      (i == p && x == k) || (i == n && Holds(node, p, x)) || (i != p && i != n && Holds(node, i, x));
    forall i, x | Holds(node, i, x)
      ensures mp(x) != p
    {
      assert i == p ==> x == node[p].key.k;
    }
  }

  lemma PutMoveChained(node: seq<Node>, lay: Layout, mp: Position, prev: nat, n: nat, k: Key)
    requires Chained(node, lay, mp) && Absent(node, k) && n < |node| && prev < |node|
    requires !Used(node, n) && Used(node, prev) && node[prev].next == mp(k)
    requires node[mp(k)].key.Taken? && mp(node[mp(k)].key.k) != mp(k)
    ensures Chained(PutMove(node, prev, mp(k), n, k), MoveLayout(lay, mp(k), n), mp)
  {
    PutMoveLinked(node, lay, prev, mp(k), n, k);
    PutMoveKeyed(node, lay, mp, prev, n, k);
  }

  /** The colliding node `p` is in its own main position: the key goes to the free node `n`, chained
      right behind `p`. */
  function PutAfter(node: seq<Node>, p: nat, n: nat, k: Key): seq<Node>
    requires p < |node| && n < |node|
  {
    node[n := Node(Taken(k), Nil, node[p].next)][p := node[p].(next := n)]
  }

  ghost function AfterLayout(node: seq<Node>, lay: Layout, p: nat, n: nat): Layout
    requires p < |node| == |lay.chain| == |lay.rank| && n < |node| && node[p].next < |node|
  {
    var here := lay.rank[p];
    var r := if node[p].next < 0 then here + 1.0 else (here + lay.rank[node[p].next]) / 2.0;
    Layout(lay.chain[n := lay.chain[p]], lay.rank[n := r])
  }

  lemma PutAfterBefore(node: seq<Node>, lay: Layout, p: nat, n: nat, k: Key)
    requires Linked(node, lay) && p < |node| && n < |node| && Used(node, p) && !Used(node, n)
    ensures var node', lay' := PutAfter(node, p, n, k), AfterLayout(node, lay, p, n);
      forall i, j :: Before(node', lay', i, j) <==>
        if i == n then j != n && Before(node, lay, p, j)
        else if j == n then i == p || Before(node, lay, i, p)
        else Before(node, lay, i, j)
  {
    var node', lay' := PutAfter(node, p, n, k), AfterLayout(node, lay, p, n);
    if node[p].next >= 0 {
      assert Before(node, lay, p, node[p].next);
    }
    forall j
      ensures Before(node', lay', n, j) <==> j != n && Before(node, lay, p, j)
      ensures j != n ==> (Before(node', lay', j, n) <==> j == p || Before(node, lay, j, p))
    {
      if Used(node, j) && lay.chain[j] == lay.chain[p] {
        assert j == p || Before(node, lay, p, j) || Before(node, lay, j, p);
      }
    }
  }

  lemma PutAfterForward(node: seq<Node>, lay: Layout, p: nat, n: nat, k: Key)
    requires Linked(node, lay) && p < |node| && n < |node| && Used(node, p) && !Used(node, n)
    ensures Forward(PutAfter(node, p, n, k), AfterLayout(node, lay, p, n))
  {
    PutAfterBefore(node, lay, p, n, k);
  }

  lemma PutAfterSpread(node: seq<Node>, lay: Layout, p: nat, n: nat, k: Key)
    requires Linked(node, lay) && p < |node| && n < |node| && Used(node, p) && !Used(node, n)
    ensures Spread(PutAfter(node, p, n, k), AfterLayout(node, lay, p, n))
  {
    var lay' := AfterLayout(node, lay, p, n);
    if node[p].next >= 0 {
      assert Before(node, lay, p, node[p].next);
    }
    forall o | Used(node, o) && lay.chain[o] == lay.chain[p]
      ensures lay.rank[o] != lay'.rank[n]
    {
      assert o == p || Before(node, lay, p, o) || Before(node, lay, o, p);
    }
  }

  lemma PutAfterDense(node: seq<Node>, lay: Layout, p: nat, n: nat, k: Key)
    requires Linked(node, lay) && p < |node| && n < |node| && Used(node, p) && !Used(node, n)
    ensures Dense(PutAfter(node, p, n, k), AfterLayout(node, lay, p, n))
  {
    PutAfterBefore(node, lay, p, n, k);
    var node', lay' := PutAfter(node, p, n, k), AfterLayout(node, lay, p, n);
    forall i, j | Before(node', lay', i, j)
      ensures node'[i].next == j || (node'[i].next >= 0 && Before(node', lay', node'[i].next, j))
    {
      if i == n {
        assert Before(node, lay, p, j);
      } else if j == n {
        assert i == p || Before(node, lay, i, p);
      } else {
        assert Before(node, lay, i, j);
      }
    }
  }

  lemma PutAfterLinked(node: seq<Node>, lay: Layout, p: nat, n: nat, k: Key)
    requires Linked(node, lay) && p < |node| && n < |node| && Used(node, p) && !Used(node, n)
    ensures Linked(PutAfter(node, p, n, k), AfterLayout(node, lay, p, n))
  {
    PutAfterForward(node, lay, p, n, k);
    PutAfterDense(node, lay, p, n, k);
    PutAfterSpread(node, lay, p, n, k);
  }

  lemma PutAfterKeyed(node: seq<Node>, lay: Layout, mp: Position, n: nat, k: Key)
    requires Chained(node, lay, mp) && Absent(node, k) && n < |node| && !Used(node, n)
    requires node[mp(k)].key.Taken? && mp(node[mp(k)].key.k) == mp(k)
    ensures Keyed(PutAfter(node, mp(k), n, k), AfterLayout(node, lay, mp(k), n), mp)
  {
    var p := mp(k);
    PutAfterBefore(node, lay, p, n, k);
    var node' := PutAfter(node, p, n, k);
    assert forall i, x :: Holds(node', i, x) ==> (i == n && x == k) || (i != n && Holds(node, i, x));
  }

  lemma PutAfterChained(node: seq<Node>, lay: Layout, mp: Position, n: nat, k: Key)
    requires Chained(node, lay, mp) && Absent(node, k) && n < |node| && !Used(node, n)
    requires node[mp(k)].key.Taken? && mp(node[mp(k)].key.k) == mp(k)
    ensures Chained(PutAfter(node, mp(k), n, k), AfterLayout(node, lay, mp(k), n), mp)
  {
    PutAfterLinked(node, lay, mp(k), n, k);
    PutAfterKeyed(node, lay, mp, n, k);
  }
}

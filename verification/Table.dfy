/** The table of ltable.c: an array part and a hash part that together refine a finite map. */
module Tables {
  import opened Numbers
  import opened TableChain
  import opened TableSizes
  import opened TableMap
  import opened TableCount

  /** mainposition: `hash` gives the position of a key in a hash part of a given size. */
  function Main(hash: (Key, nat) -> nat, n: nat): Position {
    k => if n == 0 then 0 else hash(k, n) % n
  }

  /** The keys of all non-nil entries. */
  ghost function Live(arr: seq<Val>, node: seq<Node>): set<Key> {
    ArrKeys(arr, 0) + KeysFrom(node, 0)
  }

  /** The number of nodes of a hash part for `size` keys: the least power of two that is large enough; no keys
      need no nodes of their own, only the shared dummy. */
  ghost predicate NodeSize(size: nat, n: nat, dummy: bool) {
    if size == 0 then dummy && n == 1 else !dummy && size <= n < 2 * size && exists l: nat :: n == Pow2(l)
  }

  /** The sizes that fit a set of keys: the best array part, and nodes for the keys outside it. */
  ghost predicate Sized(K: set<Key>, arr: seq<Val>, node: seq<Node>, dummy: bool) {
    && BestSize(Ints(K), |arr|, CountIn(Ints(K), 0, |arr|))
    && NodeSize(|Outside(K, |arr|)|, |node|, dummy)
  }

  /** A resize in progress: the keys of `todo` are not yet in the new parts, all others are, and
      there are enough free nodes for those that need one, with `spare` to go. */
  ghost predicate Migrating(arr0: seq<Val>, node0: seq<Node>, arr: seq<Val>, node: seq<Node>, dummy: bool,
                            todo: set<Key>, spare: int) {
    && (forall k :: Look(arr, node, k) == if k in todo then Nil else Look(arr0, node0, k))
    && |FreeNodes(node, dummy)| >= |Outside(todo, |arr|)| + spare
  }

  lemma LiveLook(arr: seq<Val>, node: seq<Node>, k: Key)
    requires Apart(arr, node)
    ensures k in Live(arr, node) <==> Look(arr, node, k) != Nil
  {
    if k in ArrKeys(arr, 0) {
      var j :| 0 <= j < |arr| && arr[j] != Nil && k == IntKey(j + 1);
    }
    if k in KeysFrom(node, 0) {
      var j :| 0 <= j < |node| && node[j].val != Nil && node[j].key.Taken? && node[j].key.k == k;
      assert Holds(node, j, k);
      LookAt(arr, node, j, k);
    }
    if Look(arr, node, k) != Nil {
      if InArrayPart(arr, k) {
        assert k == IntKey((k.n - 1) + 1);
      } else {
        var j :| Holds(node, j, k);
        LookAt(arr, node, j, k);
        assert node[j].key.k == k;
      }
    }
  }

  /** The state right after the new parts are allocated: what still lies in the new array part is in
      place, all else is to do. */
  lemma StartMigration(arr0: seq<Val>, node0: seq<Node>, arr: seq<Val>, node: seq<Node>, dummy: bool, todo: set<Key>, room: nat)
    requires Apart(arr0, node0) && forall i, k :: !Holds(node, i, k)
    requires forall i :: 0 <= i < |arr| ==> arr[i] == if i < |arr0| then arr0[i] else Nil
    requires todo == ArrKeys(arr0, |arr|) + KeysBelow(node0, |node0|)
    requires |FreeNodes(node, dummy)| >= room
    ensures Migrating(arr0, node0, arr, node, dummy, todo, room - |Outside(Live(arr0, node0), |arr|)|)
  {
    assert KeysBelow(node0, |node0|) == KeysFrom(node0, 0);
    forall k
      ensures Look(arr, node, k) == if k in todo then Nil else Look(arr0, node0, k)
    {
      LiveLook(arr0, node0, k);
      if InArrayPart(arr, k) && k in KeysFrom(node0, 0) {
        var j :| 0 <= j < |node0| && node0[j].val != Nil && node0[j].key.Taken? && node0[j].key.k == k;
        assert Holds(node0, j, k);
      }
      if k in ArrKeys(arr0, |arr|) {
        assert !InArrayPart(arr, k);
      }
      if InArrayPart(arr0, k) && Look(arr0, node0, k) != Nil && !InArrayPart(arr, k) {
        assert k == IntKey((k.n - 1) + 1);
        assert k in ArrKeys(arr0, |arr|);
      }
    }
    assert Outside(todo, |arr|) == Outside(Live(arr0, node0), |arr|);
  }

  lemma MigrateOne(arr0: seq<Val>, node0: seq<Node>, arr: seq<Val>, node: seq<Node>, arr': seq<Val>, node': seq<Node>,
                   dummy: bool, todo: set<Key>, spare: int, k: Key)
    requires Migrating(arr0, node0, arr, node, dummy, todo, spare) && k in todo && |arr'| == |arr|
    requires SetLook(arr, node, arr', node', k, Look(arr0, node0, k))
    requires InArrayPart(arr, k) ==> |FreeNodes(node', dummy)| >= |FreeNodes(node, dummy)|
    requires |FreeNodes(node', dummy)| >= |FreeNodes(node, dummy)| - 1
    ensures Migrating(arr0, node0, arr', node', dummy, todo - {k}, spare)
  {
    if InArrayPart(arr, k) {
      assert Outside(todo - {k}, |arr|) == Outside(todo, |arr|);
    } else {
      assert Outside(todo - {k}, |arr|) == Outside(todo, |arr|) - {k};
    }
  }

  /** What is left to do after one slot of the vanishing slice. */
  lemma SlotsDone(arr0: seq<Val>, node0: seq<Node>, i: nat)
    requires i >= |arr0|
    ensures ArrKeys(arr0, i) + KeysBelow(node0, |node0|) == KeysBelow(node0, |node0|)
  {
    assert ArrKeys(arr0, i) == {};
  }

  lemma SlotStep(arr0: seq<Val>, node0: seq<Node>, i: nat)
    requires Apart(arr0, node0) && i < |arr0|
    ensures var todo, rest := ArrKeys(arr0, i) + KeysBelow(node0, |node0|), ArrKeys(arr0, i + 1) + KeysBelow(node0, |node0|);
      && Look(arr0, node0, IntKey(i + 1)) == arr0[i]
      && (arr0[i] != Nil ==> IntKey(i + 1) in todo && rest == todo - {IntKey(i + 1)})
      && (arr0[i] == Nil ==> rest == todo)
  {
    var k := IntKey(i + 1);
    forall j | 0 <= j < |node0| && node0[j].val != Nil && node0[j].key.Taken?
      ensures node0[j].key.k != k
    {
      assert Holds(node0, j, node0[j].key.k);
    }
    assert ArrKeys(arr0, i) == ArrKeys(arr0, i + 1) + if arr0[i] != Nil then {k} else {};
  }

  /** What is left to do after one node of the old hash part. */
  lemma NodeStep(arr0: seq<Val>, node0: seq<Node>, i: nat)
    requires Apart(arr0, node0) && i < |node0|
    ensures var todo, rest := KeysBelow(node0, i + 1), KeysBelow(node0, i);
      if node0[i].val == Nil then rest == todo
      else
        && node0[i].key.Taken? && Holds(node0, i, node0[i].key.k)
        && Look(arr0, node0, node0[i].key.k) == node0[i].val
        && node0[i].key.k in todo && rest == todo - {node0[i].key.k}
  {
    NextKey(arr0, node0, i);
    if node0[i].val != Nil {
      assert Holds(node0, i, node0[i].key.k);
      LookAt(arr0, node0, i, node0[i].key.k);
    }
  }

  // ---------- a rehash makes room ----------

  lemma NewIsNotLive(arr: seq<Val>, node: seq<Node>, k: Key)
    requires Apart(arr, node) && !InArrayPart(arr, k) && Absent(node, k)
    ensures k !in Live(arr, node)
  {
    LiveLook(arr, node, k);
  }

  /** The keys of both parts, counted. */
  lemma LiveCount(arr: seq<Val>, node: seq<Node>)
    requires Apart(arr, node) && |arr| <= MAXASIZE
    ensures |Live(arr, node)| == CountIn(Ints(ArrKeys(arr, 0)), 0, MAXASIZE) + |KeysFrom(node, 0)|
  {
    var A := ArrKeys(arr, 0);
    OutsideCount(A, MAXASIZE);
    assert Outside(A, MAXASIZE) == {};
    forall k | k in A && k in KeysFrom(node, 0)
      ensures false
    {
      var j :| 0 <= j < |node| && node[j].val != Nil && node[j].key.Taken? && node[j].key.k == k;
      assert Holds(node, j, k);
    }
    assert A !! KeysFrom(node, 0);
  }

  /** After a resize to the counted sizes the extra key has a place: in the array part, or a free node. */
  lemma RoomForAll(K: set<Key>, ek: Key, n: nat, na: nat, totaluse: nat)
    requires ek !in K && totaluse == |K| + 1 && BestSize(Ints(K + {ek}), n, na)
    ensures n <= MAXASIZE && 0 <= totaluse - na
    ensures |Outside(K, n)| <= totaluse - na && na == CountIn(Ints(K + {ek}), 0, n)
    ensures totaluse - na == |Outside(K + {ek}, n)|
    ensures !(ek.IntKey? && 1 <= ek.n <= n) ==> |Outside(K, n)| < totaluse - na
  {
    if n > 0 {
      var i: nat :| i <= MAXBITS && n == Pow2(i);
      Pow2Mono(i, MAXBITS);
    }
    OutsideCount(K + {ek}, n);
    if ek.IntKey? && 1 <= ek.n <= n {
      assert Outside(K + {ek}, n) == Outside(K, n);
    } else {
      assert Outside(K + {ek}, n) == Outside(K, n) + {ek};
    }
  }

  /** The keys of a list of length `n`. */
  ghost function ListKeys(n: nat): set<Key> {
    set i | 1 <= i <= n :: IntKey(i)
  }

  lemma ListInts(n: nat, x: nat)
    requires n <= MAXASIZE
    ensures CountIn(Ints(ListKeys(n)), 0, x) == (if x < n then x else n) && Outside(ListKeys(n), n) == {}
    decreases x
  {
    var S := Ints(ListKeys(n));
    forall i
      ensures i in S <==> 1 <= i <= n
    {
      if 1 <= i <= n {
        assert IntKey(i) in ListKeys(n) && IsIndex(IntKey(i));
      }
    }
    if x == 0 {
      assert Between(S, 0, x) == {};
    } else {
      ListInts(n, x - 1);
      CountSplit(S, 0, x - 1, x);
      assert Between(S, x - 1, x) == if x <= n then {x as int} else {};
    }
  }

  /** A list of length `n` gets an array part that takes all of it and is more than half full, and no nodes. */
  lemma ListSized(n: nat, arr: seq<Val>, node: seq<Node>, dummy: bool)
    requires 0 < n <= MAXASIZE && Sized(ListKeys(n), arr, node, dummy)
    ensures n <= |arr| < 2 * n && dummy
  {
    var i := HasSlice(n, MAXBITS);
    ListInts(n, Pow2(i));
    ListInts(n, |arr|);
    assert 2 * n > Pow2(i);
    assert Pow2(i) <= |arr|;
    assert Outside(ListKeys(n), |arr|) == {};
  }

  lemma SameEntries(arr: seq<Val>, node: seq<Node>, arr': seq<Val>, node': seq<Node>)
    requires SameLook(arr, node, arr', node')
    ensures Contents(arr', node') == Contents(arr, node)
  {
    forall k
      ensures k in Contents(arr', node') <==> k in Contents(arr, node)
      ensures k in Contents(arr, node) ==> k in Contents(arr', node') && Contents(arr', node')[k] == Contents(arr, node)[k]
    {
      ContentsLook(arr, node, k);
      ContentsLook(arr', node', k);
    }
  }

  /** The keys of the nodes are no more than the nodes. */
  lemma {:induction false} KeysBelowCount(node: seq<Node>, i: nat)
    requires i <= |node| && forall a, b, k :: Holds(node, a, k) && Holds(node, b, k) ==> a == b
    ensures |KeysBelow(node, i)| <= i
  {
    if i > 0 {
      KeysBelowCount(node, i - 1);
      if node[i - 1].key.Taken? {
        assert KeysBelow(node, i) <= KeysBelow(node, i - 1) + {node[i - 1].key.k};
        SubsetSize(KeysBelow(node, i), KeysBelow(node, i - 1) + {node[i - 1].key.k});
      } else {
        assert KeysBelow(node, i) == KeysBelow(node, i - 1);
      }
    } else {
      assert KeysBelow(node, i) == {};
    }
  }

  /** A larger array part leaves no more entries for the hash part than it had. */
  lemma NodeKeysFit(arr: seq<Val>, node: seq<Node>, dummy: bool, nasize: nat)
    requires Apart(arr, node) && |arr| <= nasize && (dummy ==> node == [EMPTY])
    ensures |Outside(Live(arr, node), nasize)| <= if dummy then 0 else |node|
  {
    KeysBelowCount(node, |node|);
    assert KeysBelow(node, |node|) == KeysFrom(node, 0);
    assert Outside(Live(arr, node), nasize) <= KeysFrom(node, 0);
    SubsetSize(Outside(Live(arr, node), nasize), KeysFrom(node, 0));
    if dummy {
      assert KeysFrom(node, 0) == {};
    }
  }

  lemma KillKey(node: seq<Node>, lay: Layout, mp: Position, i: nat)
    requires Chained(node, lay, mp) && i < |node| && node[i].val == Nil && node[i].key.Taken?
    ensures Chained(node[i := node[i].(key := DeadKey)], lay, mp)
  {
    var node' := node[i := node[i].(key := DeadKey)];
    assert forall j, k :: Holds(node', j, k) <==> j != i && Holds(node, j, k);
    assert forall a, b :: Before(node', lay, a, b) <==> Before(node, lay, a, b);
    assert forall j :: Used(node', j) <==> Used(node, j);
  }

  lemma KillLook(arr: seq<Val>, node: seq<Node>, i: nat)
    requires Apart(arr, node) && i < |node| && node[i].val == Nil
    ensures SameLook(arr, node, arr, node[i := node[i].(key := DeadKey)])
  {
    var node' := node[i := node[i].(key := DeadKey)];
    assert forall j, k :: Holds(node', j, k) <==> j != i && Holds(node, j, k);
    forall k
      ensures Look(arr, node', k) == Look(arr, node, k)
    {
      if !InArrayPart(arr, k) && exists j :: Holds(node, j, k) {
        var j :| Holds(node, j, k);
        LookAt(arr, node, j, k);
        if j != i {
          assert Holds(node', j, k);
          LookAt(arr, node', j, k);
        }
      }
    }
  }

  lemma KillOk(arr: seq<Val>, node: seq<Node>, lastfree: int, dummy: bool, lay: Layout, mp: Position, i: nat)
    requires TableOk(arr, node, lastfree, dummy, lay, mp) && i < |node| && node[i].val == Nil && node[i].key.Taken?
    ensures var node' := node[i := node[i].(key := DeadKey)];
      TableOk(arr, node', lastfree, dummy, lay, mp) && SameLook(arr, node, arr, node')
  {
    var node' := node[i := node[i].(key := DeadKey)];
    KillKey(node, lay, mp, i);
    KillLook(arr, node, i);
    assert forall j, k :: Holds(node', j, k) ==> Holds(node, j, k);
    assert Used(node, i) && forall j :: Used(node', j) <==> Used(node, j);
  }

  /** What luaH_set returns: the slot of the key, or the error it raises. */
  datatype Found = Found(s: Slot) | Failed(msg: string)

  class Table {
    const hash: (Key, nat) -> nat
    var arr: seq<Val>
    var node: seq<Node>
    var lastfree: int
    var dummy: bool
    ghost var lay: Layout

    ghost predicate Valid()
      reads this
    {
      TableOk(arr, node, lastfree, dummy, lay, Main(hash, |node|))
    }

    /** The finite map that the table stands for. */
    ghost function Entries(): map<Key, Val>
      reads this
    {
      Contents(arr, node)
    }

    ghost predicate Present(k: Key)
      reads this
    {
      InArrayPart(arr, k) || exists i :: Holds(node, i, k)
    }

    ghost predicate HasRoom()
      reads this
    {
      FreeNodes(node, dummy) != {}
    }

    /** The table has kept its size and has at most one free node less. */
    ghost predicate TakesOne(arr0: seq<Val>, node0: seq<Node>, dummy0: bool)
      reads this
    {
      arr == arr0 && dummy == dummy0 && |node| == |node0| && |FreeNodes(node, dummy)| >= |FreeNodes(node0, dummy0)| - 1
    }

    /** luaH_new. */
    constructor (hash: (Key, nat) -> nat, narray: nat, nhash: nat)
      requires narray <= MAXASIZE
      ensures Valid() && Entries() == map[] && |arr| == narray && NodeSize(nhash, |node|, dummy)
    {
      this.hash := hash;
      arr := [];
      node, lastfree, dummy, lay := [EMPTY], 0, true, Layout([0], [0.0]);
      new;
      SetArrayVector(narray);
      SetNodeVector(nhash);
      forall k
        ensures k !in Entries()
      {
        ContentsLook(arr, node, k);
      }
    }

    method SetArrayVector(size: nat)
      modifies `arr
      ensures |arr| == size
      ensures forall i :: 0 <= i < size ==> arr[i] == if i < |old(arr)| then old(arr)[i] else Nil
    {
      if size <= |arr| {
        arr := arr[..size];
      } else {
        arr := arr + seq(size - |arr|, _ => Nil);
      }
    }

    method SetNodeVector(size: nat)
      requires |arr| <= MAXASIZE
      modifies `node, `lastfree, `dummy, `lay
      ensures Valid() && (forall i, k :: !Holds(node, i, k)) && |FreeNodes(node, dummy)| >= size
      ensures NodeSize(size, |node|, dummy)
    {
      if size == 0 {
        node, lastfree, dummy, lay := [EMPTY], 0, true, Layout([0], [0.0]);
        FreshNodes(node, lay, Main(hash, |node|));
      } else {
        var lsize := CeilLog2(size);
        node := seq(Pow2(lsize), _ => EMPTY);
        lay := Layout(seq(|node|, _ => 0), seq(|node|, _ => 0.0));
        lastfree, dummy := |node|, false;
        FreshNodes(node, lay, Main(hash, |node|));
        assert size <= Pow2(lsize) < 2 * size;
      }
    }

    // ---------- search ----------

    /** luaH_get, down to the slot it points to: the array part, else the chain of the main position. */
    method Find(k: Key) returns (s: Slot)
      requires Valid()
      ensures PlaceOf(arr, node, k, s)
    {
      if k == NilKey {
        return NoSlot;
      }
      if k.IntKey? && 1 <= k.n <= |arr| {
        return InArray(k.n - 1);
      }
      var i: int := Main(hash, |node|)(k);
      while i >= 0
        invariant -1 <= i < |node|
        invariant forall j :: Holds(node, j, k) ==> i >= 0 && (j == i || Before(node, lay, i, j))
        decreases i >= 0, if i >= 0 then Rest(node, lay, i) else {}
      {
        if node[i].key == Taken(k) && k != NanKey {
          return InNode(i);
        }
        if Used(node, i) && node[i].next >= 0 {
          RestShrinks(node, lay, i);
        }
        i := node[i].next;
      }
      return NoSlot;
    }

    /** luaH_get. */
    method Get(k: Key) returns (v: Val)
      requires Valid()
      ensures v == if k in Entries() then Entries()[k] else Nil
    {
      var s := Find(k);
      v := At(arr, node, s);
      PlaceLook(arr, node, lastfree, dummy, lay, Main(hash, |node|), k, s);
      ContentsLook(arr, node, k);
    }

    // ---------- insertion ----------

    method GetFreePos() returns (n: int)
      requires Valid()
      modifies `lastfree
      ensures n < 0 ==> Valid() && !HasRoom()
      ensures n >= 0 ==> !dummy && n < |node| && !Used(node, n) && lastfree == n
      ensures forall i :: 0 <= i < |node| && n < i && !dummy ==> Used(node, i)
    {
      while lastfree > 0
        invariant FreeBelow(node, lastfree, dummy)
      {
        lastfree := lastfree - 1;
        if node[lastfree].key == Free {
          return lastfree;
        }
      }
      lastfree := lastfree - 1;
      return -1;
    }

    /** The predecessor of node `p` on its chain, searched from the main position of its key. */
    method FindPrevious(first: nat, p: nat) returns (prev: nat)
      requires Linked(node, lay) && p < |node| && Before(node, lay, first, p)
      ensures prev < |node| && Used(node, prev) && node[prev].next == p
    {
      prev := first;
      while node[prev].next != p
        invariant prev < |node| && Before(node, lay, prev, p)
        decreases Rest(node, lay, prev)
      {
        RestShrinks(node, lay, prev);
        prev := node[prev].next;
      }
    }

    /** The colliding node moves to the free node `n`, and the key takes its place. */
    method MoveCollider(k: Key, prev: nat, p: nat, n: nat)
      requires prev < |node| && p < |node| && n < |node| && n != p
      modifies `node, `lay
      requires |lay.chain| == |lay.rank| == |node|
      ensures node == PutMove(old(node), prev, p, n, k) && lay == MoveLayout(old(lay), p, n)
    {
      lay := MoveLayout(lay, p, n);
      node := node[prev := node[prev].(next := n)];
      node := node[n := node[p]];
      node := node[p := node[p].(next := -1)];
      node := node[p := node[p].(val := Nil)];
      node := node[p := node[p].(key := Taken(k))];
    }

    /** The key goes to the free node `n`, chained right behind the colliding node. */
    method ChainAfter(k: Key, p: nat, n: nat)
      requires p < |node| && n < |node| && n != p && node[n] == EMPTY && node[p].next < |node|
      requires |lay.chain| == |lay.rank| == |node|
      modifies `node, `lay
      ensures node == PutAfter(old(node), p, n, k) && lay == AfterLayout(old(node), old(lay), p, n)
    {
      lay := AfterLayout(node, lay, p, n);
      node := node[n := node[n].(next := node[p].next)];
      node := node[p := node[p].(next := n)];
      node := node[n := node[n].(key := Taken(k))];
    }

    /** The main position of the key holds no value: it is taken. */
    method PlaceInMain(k: Key, p: nat)
      requires Valid() && Storable(k) && !Present(k) && !dummy
      requires p == Main(hash, |node|)(k) && node[p].val == Nil
      modifies `node, `lay
      ensures Valid() && PlaceOf(arr, node, k, InNode(p)) && SameLook(arr, old(node), arr, node)
      ensures |node| == |old(node)| && |FreeNodes(node, dummy)| >= |FreeNodes(old(node), dummy)| - 1
    {
      ghost var mp := Main(hash, |node|);
      node, lay := node[p := node[p].(key := Taken(k))], MainLayout(node, lay, p);
      InsertMain(arr, old(node), old(lay), mp, k);
      InsertedOk(arr, old(node), lastfree, dummy, old(lay), node, lastfree, lay, mp, k, p, p);
    }

    /** The main position of the key is occupied: either its occupant moves to the free node `n`, or
        the key goes there. */
    method PlaceBeside(k: Key, p: nat, n: nat, ghost lastfree0: int) returns (j: nat)
      requires TableOk(arr, node, lastfree0, dummy, lay, Main(hash, |node|)) && Storable(k) && !Present(k) && !dummy
      requires p == Main(hash, |node|)(k) && node[p].val != Nil && n < |node| && !Used(node, n) && lastfree == n
      requires forall i :: 0 <= i < |node| && n < i ==> Used(node, i)
      modifies `node, `lay
      ensures Valid() && PlaceOf(arr, node, k, InNode(j)) && SameLook(arr, old(node), arr, node)
      ensures |node| == |old(node)| && |FreeNodes(node, dummy)| >= |FreeNodes(old(node), dummy)| - 1
      ensures old(node)[p].key.Taken? && j == if Main(hash, |old(node)|)(old(node)[p].key.k) == p then n else p
    {
      assert Holds(node, p, node[p].key.k);
      var other := Main(hash, |node|)(node[p].key.k);
      if other != p {
        other := FindPrevious(other, p);
        Displace(k, p, n, other, lastfree0);
        j := p;
      } else {
        PlaceAfter(k, p, n, lastfree0);
        j := n;
      }
    }

    /** The occupant is out of its main position: it moves to the free node, which `prev` links to then. */
    method Displace(k: Key, p: nat, n: nat, prev: nat, ghost lastfree0: int)
      requires TableOk(arr, node, lastfree0, dummy, lay, Main(hash, |node|)) && Storable(k) && !Present(k) && !dummy
      requires p == Main(hash, |node|)(k) && n < |node| && !Used(node, n) && lastfree == n
      requires forall i :: 0 <= i < |node| && n < i ==> Used(node, i)
      requires node[p].key.Taken? && Main(hash, |node|)(node[p].key.k) != p && Used(node, prev) && node[prev].next == p
      modifies `node, `lay
      ensures Valid() && PlaceOf(arr, node, k, InNode(p)) && SameLook(arr, old(node), arr, node)
      ensures |node| == |old(node)| && |FreeNodes(node, dummy)| >= |FreeNodes(old(node), dummy)| - 1
    {
      ghost var mp := Main(hash, |node|);
      MoveCollider(k, prev, p, n);
      InsertMove(arr, old(node), old(lay), mp, prev, n, k);
      InsertedOk(arr, old(node), lastfree0, dummy, old(lay), node, lastfree, lay, mp, k, p, n);
    }

    /** The occupant is in its main position: the key goes to the free node, behind it. */
    method PlaceAfter(k: Key, p: nat, n: nat, ghost lastfree0: int)
      requires TableOk(arr, node, lastfree0, dummy, lay, Main(hash, |node|)) && Storable(k) && !Present(k) && !dummy
      requires p == Main(hash, |node|)(k) && n < |node| && !Used(node, n) && lastfree == n
      requires forall i :: 0 <= i < |node| && n < i ==> Used(node, i)
      requires node[p].key.Taken? && p == Main(hash, |node|)(node[p].key.k) && Holds(node, p, node[p].key.k)
      modifies `node, `lay
      ensures Valid() && PlaceOf(arr, node, k, InNode(n)) && SameLook(arr, old(node), arr, node)
      ensures |node| == |old(node)| && |FreeNodes(node, dummy)| >= |FreeNodes(old(node), dummy)| - 1
    {
      ghost var mp := Main(hash, |node|);
      ChainAfter(k, p, n);
      InsertAfter(arr, old(node), old(lay), mp, n, k);
      InsertedOk(arr, old(node), lastfree0, dummy, old(lay), node, lastfree, lay, mp, k, n, n);
    }

    /** Where newkey puts a key without a rehash: in its main position, unless that is taken by a key that is in
        its own main position; then in a free node. */
    ghost predicate Brent(node0: seq<Node>, k: Key, s: Slot)
      requires |node0| > 0
    {
      var p := hash(k, |node0|) % |node0|;
      if node0[p].val != Nil && node0[p].key.Taken? && hash(node0[p].key.k, |node0|) % |node0| == p
      then s.InNode? && 0 <= s.i < |node0| && !Used(node0, s.i)
      else s == InNode(p)
    }

    /** newkey: makes a place for a key that has none. */
    method NewKey(k: Key) returns (s: Slot)
      requires Valid() && Storable(k) && !Present(k)
      modifies this
      ensures Valid() && s != NoSlot && PlaceOf(arr, node, k, s)
      ensures SameLook(old(arr), old(node), arr, node)
      ensures old(HasRoom()) ==> TakesOne(old(arr), old(node), old(dummy)) && |old(node)| > 0 && Brent(old(node), k, s)
      decreases if HasRoom() then 0 else 1, 2
    {
      var p := Main(hash, |node|)(k);
      if node[p].val == Nil && !dummy {
        PlaceInMain(k, p);
        return InNode(p);
      }
      var n := GetFreePos();
      if n < 0 {
        Rehash(k);
        var f := Set(k);
        return f.s;
      }
      var j := PlaceBeside(k, p, n, old(lastfree));
      return InNode(j);
    }

    /** luaH_set: the slot of a key, made if need be. */
    method Set(k: Key) returns (f: Found)
      requires Valid()
      modifies this
      ensures Valid() && SameLook(old(arr), old(node), arr, node)
      ensures Storable(k) <==> f.Found?
      ensures f.Found? ==> f.s != NoSlot && PlaceOf(arr, node, k, f.s)
      ensures k == NilKey ==> f == Failed("table index is nil")
      ensures k == NanKey ==> f == Failed("table index is NaN")
      ensures !Storable(k) ==> arr == old(arr) && node == old(node)
      ensures old(Present(k)) ==> arr == old(arr) && node == old(node) && dummy == old(dummy)
      ensures old(HasRoom()) ==> TakesOne(old(arr), old(node), old(dummy))
      decreases if HasRoom() || Present(k) then 0 else 1, 3
    {
      var s := Find(k);
      if s != NoSlot {
        return Found(s);
      } else if k == NilKey {
        return Failed("table index is nil");
      } else if k == NanKey {
        return Failed("table index is NaN");
      }
      s := NewKey(k);
      return Found(s);
    }

    /** rehash: counts all keys and the extra one, and resizes to fit. */
    method Rehash(ek: Key)
      requires Valid() && Storable(ek) && !Present(ek)
      modifies this
      ensures Valid() && SameLook(old(arr), old(node), arr, node)
      ensures InArrayPart(arr, ek) || HasRoom()
      ensures Sized(Live(old(arr), old(node)) + {ek}, arr, node, dummy)
      decreases 1, 1
    {
      var nums := new int[MAXBITS + 1](_ => 0);
      ghost var K := Live(arr, node);
      var nasize := NumUseArray(arr, nums);
      var totaluse := nasize;
      var used, ause := NumUseHash(arr, node, nums);
      totaluse := totaluse + used;
      nasize := nasize + ause;
      NewIsNotLive(arr, node, ek);
      CountAll(K, ek);
      LiveCount(arr, node);
      var one := CountInt(ek, nums, K);
      nasize := nasize + one;
      totaluse := totaluse + 1;
      var n, na := ComputeSizes(nums, nasize, Ints(K + {ek}));
      RoomForAll(K, ek, n, na, totaluse);
      Resize(n, totaluse - na);
    }

    /** resize: new parts of the given sizes, with every entry put in again.  No insertion rehashes. */
    method Resize(nasize: nat, nhsize: nat)
      requires Valid() && nasize <= MAXASIZE && |Outside(Live(arr, node), nasize)| <= nhsize
      modifies this
      ensures Valid() && SameLook(old(arr), old(node), arr, node) && |arr| == nasize
      ensures |FreeNodes(node, dummy)| >= nhsize - |Outside(Live(old(arr), old(node)), nasize)|
      ensures NodeSize(nhsize, |node|, dummy)
      decreases 1, 0
    {
      var oldasize, oldarr, nold := |arr|, arr, node;
      ghost var spare := nhsize - |Outside(Live(arr, node), nasize)|;
      if nasize > oldasize {
        SetArrayVector(nasize);
      }
      SetNodeVector(nhsize);
      if nasize < oldasize {
        arr := arr[..nasize];
      }
      ghost var todo := ArrKeys(oldarr, nasize) + KeysBelow(nold, |nold|);
      StartMigration(oldarr, nold, arr, node, dummy, todo, nhsize);
      ReinsertSlice(oldarr, nold, spare);
      ReinsertNodes(oldarr, nold, spare);
    }

    /** Puts the entries of the vanishing slice of the array part in again. */
    method ReinsertSlice(oldarr: seq<Val>, ghost nold: seq<Node>, ghost spare: nat)
      requires Valid() && Apart(oldarr, nold)
      requires Migrating(oldarr, nold, arr, node, dummy, ArrKeys(oldarr, |arr|) + KeysBelow(nold, |nold|), spare)
      modifies this
      ensures Valid() && |arr| == |old(arr)| && |node| == |old(node)| && dummy == old(dummy)
      ensures Migrating(oldarr, nold, arr, node, dummy, KeysBelow(nold, |nold|), spare)
      decreases 0, 6
    {
      var i := |arr|;
      while i < |oldarr|
        invariant |arr| <= i && Valid() && |arr| == |old(arr)| && |node| == |old(node)| && dummy == old(dummy)
        invariant Migrating(oldarr, nold, arr, node, dummy, ArrKeys(oldarr, i) + KeysBelow(nold, |nold|), spare)
      {
        ReinsertSlot(oldarr, i, nold, spare);
        i := i + 1;
      }
      SlotsDone(oldarr, nold, i);
    }

    method ReinsertSlot(oldarr: seq<Val>, i: nat, ghost nold: seq<Node>, ghost spare: nat)
      requires Valid() && Apart(oldarr, nold) && |arr| <= i < |oldarr|
      requires Migrating(oldarr, nold, arr, node, dummy, ArrKeys(oldarr, i) + KeysBelow(nold, |nold|), spare)
      modifies this
      ensures Valid() && |arr| == |old(arr)| && |node| == |old(node)| && dummy == old(dummy)
      ensures Migrating(oldarr, nold, arr, node, dummy, ArrKeys(oldarr, i + 1) + KeysBelow(nold, |nold|), spare)
      decreases 0, 5
    {
      SlotStep(oldarr, nold, i);
      if oldarr[i] != Nil {
        Reinsert(IntKey(i + 1), oldarr[i], oldarr, nold, ArrKeys(oldarr, i) + KeysBelow(nold, |nold|), spare);
      }
    }

    /** Puts the entries of the old hash part in again, from its last node to its first. */
    method ReinsertNodes(ghost oldarr: seq<Val>, nold: seq<Node>, ghost spare: nat)
      requires Valid() && Apart(oldarr, nold) && forall i, k :: Holds(nold, i, k) ==> Storable(k)
      requires Migrating(oldarr, nold, arr, node, dummy, KeysBelow(nold, |nold|), spare)
      modifies this
      ensures Valid() && |arr| == |old(arr)| && |node| == |old(node)| && dummy == old(dummy) && SameLook(oldarr, nold, arr, node) && |FreeNodes(node, dummy)| >= spare
      decreases 0, 5
    {
      var i := |nold|;
      ghost var todo := KeysBelow(nold, i);
      while i > 0
        invariant 0 <= i <= |nold| && todo == KeysBelow(nold, i)
        invariant |node| == |old(node)| && dummy == old(dummy)
        invariant Valid() && |arr| == |old(arr)| && Migrating(oldarr, nold, arr, node, dummy, todo, spare)
      {
        i := i - 1;
        NodeStep(oldarr, nold, i);
        if nold[i].val != Nil {
          Reinsert(nold[i].key.k, nold[i].val, oldarr, nold, todo, spare);
        }
        todo := KeysBelow(nold, i);
      }
      assert KeysBelow(nold, 0) == {};
    }

    /** One of the re-insertions of a resize. */
    method Reinsert(k: Key, v: Val, ghost arr0: seq<Val>, ghost node0: seq<Node>, ghost todo: set<Key>, ghost spare: nat)
      requires Valid() && Storable(k) && k in todo && Look(arr0, node0, k) == v
      requires Migrating(arr0, node0, arr, node, dummy, todo, spare)
      modifies this
      ensures Valid() && |arr| == |old(arr)| && |node| == |old(node)| && dummy == old(dummy) && Migrating(arr0, node0, arr, node, dummy, todo - {k}, spare)
      decreases 0, 4
    {
      assert !InArrayPart(arr, k) ==> k in Outside(todo, |arr|);
      var f := Set(k);
      Store(k, f.s, v);
      MigrateOne(arr0, node0, old(arr), old(node), arr, node, dummy, todo, spare, k);
    }

    /** setobj on the slot of a key. */
    method Store(k: Key, s: Slot, v: Val)
      requires Valid() && s != NoSlot && PlaceOf(arr, node, k, s)
      modifies `arr, `node
      ensures Valid() && SetLook(old(arr), old(node), arr, node, k, v)
      ensures |arr| == |old(arr)| && |node| == |old(node)| && FreeNodes(node, dummy) == FreeNodes(old(node), dummy)
    {
      ghost var mp := Main(hash, |node|);
      match s
      case InArray(i) =>
        StoreArray(arr, node, lastfree, dummy, lay, mp, k, i, v);
        arr := arr[i := v];
      case InNode(i) =>
        StoreNode(arr, node, lastfree, dummy, lay, mp, k, i, v);
        node := node[i := node[i].(val := v)];
        assert forall j :: Used(node, j) <==> Used(old(node), j);
    }

    /** `t[k] = v`: setobj(luaH_set(t, k), v). */
    method Put(k: Key, v: Val) returns (f: Found)
      requires Valid()
      modifies this
      ensures Valid() && (f.Found? <==> k != NilKey && k != NanKey)
      ensures k != NilKey && k != NanKey ==>
        Entries() == if v == Nil then old(Entries()) - {k} else old(Entries())[k := v]
      ensures k == NilKey ==> f == Failed("table index is nil") && Entries() == old(Entries())
      ensures k == NanKey ==> f == Failed("table index is NaN") && Entries() == old(Entries())
    {
      f := Set(k);
      if f.Found? {
        ghost var arr1, node1 := arr, node;
        Store(k, f.s, v);
        ContentsUpdated(old(arr), old(node), arr, node, k, v);
      }
    }

    /** luaH_resizearray: keeps the node part, so the entries outside the new array part must fit there. */
    method ResizeArray(nasize: nat)
      requires Valid() && nasize <= MAXASIZE && |Outside(Live(arr, node), nasize)| <= if dummy then 0 else |node|
      modifies this
      ensures Valid() && |arr| == nasize && Entries() == old(Entries())
      ensures NodeSize(if old(dummy) then 0 else |old(node)|, |node|, dummy)
    {
      var nsize := if dummy then 0 else |node|;
      Resize(nasize, nsize);
      SameEntries(old(arr), old(node), arr, node);
    }

    /** OP_SETLIST, before it stores: an array part that is too small for the last index grows, which always fits. */
    method GrowArray(last: nat)
      requires Valid() && last <= MAXASIZE
      modifies this
      ensures Valid() && |arr| >= last && Entries() == old(Entries())
    {
      if last > |arr| {
        NodeKeysFit(arr, node, dummy, last);
        ResizeArray(last);
      }
    }

    /** removeentry: the collector clears the key of an entry without a value, if it is an object.  The node stays on its chain. */
    method RemoveEntry(i: nat, collectable: bool)
      requires Valid() && i < |node| && node[i].val == Nil
      modifies `node
      ensures Valid() && Entries() == old(Entries())
      ensures node == if collectable && old(node)[i].key.Taken? then old(node)[i := old(node)[i].(key := DeadKey)] else old(node)
    {
      if collectable && node[i].key.Taken? {
        KillOk(arr, node, lastfree, dummy, lay, Main(hash, |node|), i);
        node := node[i := node[i].(key := DeadKey)];
        SameEntries(arr, old(node), arr, node);
      }
    }
  }
}

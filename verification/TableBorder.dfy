/** What programs ask of a table beyond single keys: a border (the length), and a traversal. */
module TableBorder {
  import opened Numbers
  import opened TableChain
  import opened TableSizes
  import opened TableMap
  import opened Tables

  predicate HasInt(m: map<Key, Val>, n: int) {
    IntKey(n) in m
  }

  /** The length of a table, as the manual promises it: `n` is present (or zero) and `n + 1` is not. */
  predicate Border(m: map<Key, Val>, n: nat) {
    (n == 0 || HasInt(m, n)) && !HasInt(m, n + 1)
  }

  lemma ArrayEntry(t: Table, n: nat)
    requires t.Valid() && 1 <= n <= |t.arr|
    ensures HasInt(t.Entries(), n) <==> t.arr[n - 1] != Nil
  {
    ContentsLook(t.arr, t.node, IntKey(n));
  }

  /** The present integer keys from `i` on: a linear search ends. */
  ghost function IntsFrom(m: map<Key, Val>, i: nat): set<Key> {
    set k | k in m && k.IntKey? && k.n >= i
  }

  lemma FewerInts(m: map<Key, Val>, i: nat)
    requires HasInt(m, i)
    ensures IntsFrom(m, i + 1) < IntsFrom(m, i)
  {
    assert IntKey(i) in IntsFrom(m, i) && IntKey(i) !in IntsFrom(m, i + 1);
  }

  /** All from 1 to just before `i` may be present; at least the last of them is. */
  predicate CameTo(m: map<Key, Val>, i: nat) {
    i == 1 || (i > 1 && HasInt(m, i - 1))
  }

  method LinearSearch(t: Table) returns (n: nat)
    requires t.Valid()
    ensures Border(t.Entries(), n)
  {
    ghost var m := t.Entries();
    var i: nat := 1;
    while true
      invariant t.Valid() && t.Entries() == m && CameTo(m, i)
      decreases IntsFrom(m, i)
    {
      var v := ContentAt(t, i);
      if v == Nil {
        CameToBorder(m, i);
        return i - 1;
      }
      FewerInts(m, i);
      i := i + 1;
    }
  }

  lemma CameToBorder(m: map<Key, Val>, i: nat)
    requires CameTo(m, i) && !HasInt(m, i)
    ensures i > 0 && Border(m, i - 1)
  {
  }

  /** luaH_getnum. */
  method ContentAt(t: Table, n: nat) returns (v: Val)
    requires t.Valid()
    ensures v != Nil <==> HasInt(t.Entries(), n)
  {
    v := t.Get(IntKey(n));
    ContentsLook(t.arr, t.node, IntKey(n));
  }

  /** unbound_search: doubles until it finds an absent key, then halves; past MAX_INT it searches linearly. */
  method UnboundSearch(t: Table, start: nat) returns (n: nat)
    requires t.Valid() && (start == 0 || HasInt(t.Entries(), start))
    ensures Border(t.Entries(), n)
  {
    var i: nat, j: nat := start, start + 1;
    var v := ContentAt(t, j);
    while v != Nil
      invariant i < j && (i == 0 || HasInt(t.Entries(), i)) && (v != Nil <==> HasInt(t.Entries(), j))
      decreases 2 * MAX_INT + start + 2 - j
      invariant j == start + 1 || j <= MAX_INT
    {
      i := j;
      j := j * 2;
      if j > MAX_INT {
        n := LinearSearch(t);
        return;
      }
      v := ContentAt(t, j);
    }
    n := SearchBetween(t, i, j);
  }

  /** The binary search of luaH_getn in the array part. */
  method SearchArray(t: Table) returns (i: nat)
    requires t.Valid() && |t.arr| > 0 && t.arr[|t.arr| - 1] == Nil
    ensures Border(t.Entries(), i)
  {
    var j: nat := |t.arr|;
    ArrayEntry(t, j);
    i := 0;
    while j - i > 1
      invariant i < j <= |t.arr| && (i == 0 || HasInt(t.Entries(), i)) && !HasInt(t.Entries(), j)
      decreases j - i
    {
      var m := (i + j) / 2;
      ArrayEntry(t, m);
      if t.arr[m - 1] == Nil {
        j := m;
      } else {
        i := m;
      }
    }
  }

  /** The binary search of unbound_search. */
  method SearchBetween(t: Table, lo: nat, hi: nat) returns (i: nat)
    requires t.Valid() && lo < hi && (lo == 0 || HasInt(t.Entries(), lo)) && !HasInt(t.Entries(), hi)
    ensures Border(t.Entries(), i)
  {
    var j := hi;
    i := lo;
    while j - i > 1
      invariant i < j && (i == 0 || HasInt(t.Entries(), i)) && !HasInt(t.Entries(), j)
      decreases j - i
    {
      var m := (i + j) / 2;
      var v := ContentAt(t, m);
      if v == Nil {
        j := m;
      } else {
        i := m;
      }
    }
  }

  /** luaH_getn. */
  method GetN(t: Table) returns (n: nat)
    requires t.Valid()
    ensures Border(t.Entries(), n)
  {
    var j: nat := |t.arr|;
    if j > 0 {
      ArrayEntry(t, j);
    }
    if j > 0 && t.arr[j - 1] == Nil {
      n := SearchArray(t);
    } else if t.dummy {
      ContentsLook(t.arr, t.node, IntKey(j + 1));
      n := j;
    } else {
      n := UnboundSearch(t, j);
    }
  }

  // ---------- traversal ----------

  /** The slots of a table in traversal order. */
  predicate SlotKey(arr: seq<Val>, node: seq<Node>, i: int, k: Key) {
    if i < |arr| then 0 <= i && k == IntKey(i + 1) else Holds(node, i - |arr|, k)
  }

  function SlotVal(arr: seq<Val>, node: seq<Node>, i: int): Val
    requires 0 <= i < |arr| + |node|
  {
    if i < |arr| then arr[i] else node[i - |arr|].val
  }

  datatype NextResult = Entry(k: Key, v: Val) | Done | BadKey

  /** findindex: the slot of a key; -1 for nil, -2 if there is none (then luaH_next raises
      "invalid key to 'next'"). */
  method FindIndex(t: Table, k: Key) returns (i: int)
    requires t.Valid()
    ensures k == NilKey ==> i == -1
    ensures k != NilKey ==> if t.Present(k) then SlotKey(t.arr, t.node, i, k) else i == -2
  {
    if k == NilKey {
      return -1;
    }
    var s := t.Find(k);
    match s
    case NoSlot => i := -2;
    case InArray(j) => i := j;
    case InNode(j) => i := j + |t.arr|;
  }

  /** `r` tells of slot `to`, the first after `from` that has a value, or says that there is none. */
  ghost predicate NextAfter(t: Table, r: NextResult, from: int, to: int)
    reads t
  {
    && -1 <= from < to <= |t.arr| + |t.node|
    && (forall i :: from < i < to ==> SlotVal(t.arr, t.node, i) == Nil)
    && (r == Done ==> to == |t.arr| + |t.node|)
    && (r.Entry? ==> to < |t.arr| + |t.node| && SlotKey(t.arr, t.node, to, r.k)
                     && r.v == SlotVal(t.arr, t.node, to) != Nil)
  }

  /** luaH_next: the first slot after that of `k` that has a value. */
  method Next(t: Table, k: Key) returns (r: NextResult, ghost from: int, ghost to: int)
    requires t.Valid()
    ensures k == NilKey ==> from == -1
    ensures k != NilKey && t.Present(k) ==> SlotKey(t.arr, t.node, from, k)
    ensures r == BadKey <==> k != NilKey && !t.Present(k)
    ensures r != BadKey ==> NextAfter(t, r, from, to)
  {
    var i := FindIndex(t, k);
    from, to := i, i + 1;
    if i == -2 {
      return BadKey, from, to;
    }
    i := i + 1;
    while i < |t.arr|
      invariant from < i <= |t.arr| + |t.node| && forall j :: from < j < i ==> SlotVal(t.arr, t.node, j) == Nil
    {
      if t.arr[i] != Nil {
        return Entry(IntKey(i + 1), t.arr[i]), from, i;
      }
      i := i + 1;
    }
    i := i - |t.arr|;
    while i < |t.node|
      invariant from - |t.arr| < i <= |t.node| && 0 <= i
      invariant forall j :: from < j < i + |t.arr| ==> SlotVal(t.arr, t.node, j) == Nil
    {
      if t.node[i].val != Nil {
        return Entry(t.node[i].key.k, t.node[i].val), from, i + |t.arr|;
      }
      i := i + 1;
    }
    return Done, from, i + |t.arr|;
  }

  lemma SlotEntry(t: Table, i: int, k: Key)
    requires t.Valid() && SlotKey(t.arr, t.node, i, k)
    ensures 0 <= i < |t.arr| + |t.node| && Look(t.arr, t.node, k) == SlotVal(t.arr, t.node, i)
    ensures k in t.Entries() <==> SlotVal(t.arr, t.node, i) != Nil
    ensures k in t.Entries() ==> t.Entries()[k] == SlotVal(t.arr, t.node, i)
    ensures forall j :: SlotKey(t.arr, t.node, j, k) ==> i == j
  {
    ContentsLook(t.arr, t.node, k);
    if i >= |t.arr| {
      LookAt(t.arr, t.node, i - |t.arr|, k);
    }
  }

  lemma EverySlot(t: Table, k: Key) returns (i: int)
    requires t.Valid() && k in t.Entries()
    ensures 0 <= i < |t.arr| + |t.node| && SlotKey(t.arr, t.node, i, k) && SlotVal(t.arr, t.node, i) == t.Entries()[k]
  {
    ContentsLook(t.arr, t.node, k);
    if InArrayPart(t.arr, k) {
      i := k.n - 1;
    } else {
      var j :| Holds(t.node, j, k);
      i := j + |t.arr|;
      LookAt(t.arr, t.node, j, k);
    }
  }

  /** `seen` are the entries in the slots up to `at`, and `keys` lists them. */
  ghost predicate SeenTo(t: Table, keys: seq<Key>, seen: map<Key, Val>, at: int)
    reads t
  {
    && (forall k :: k in seen <==> k in t.Entries() && exists j :: SlotKey(t.arr, t.node, j, k) && j <= at)
    && (forall k :: k in seen ==> seen[k] == t.Entries()[k])
    && Lists(keys, seen)
  }

  ghost predicate Lists(keys: seq<Key>, seen: map<Key, Val>) {
    (forall k :: k in keys <==> k in seen) && forall i, j :: 0 <= i < j < |keys| ==> keys[i] != keys[j]
  }

  lemma SeeOne(t: Table, keys: seq<Key>, seen: map<Key, Val>, r: NextResult, at: int, to: int)
    requires t.Valid() && SeenTo(t, keys, seen, at) && NextAfter(t, r, at, to) && r.Entry?
    ensures SeenTo(t, keys + [r.k], seen[r.k := r.v], to)
  {
    SlotEntry(t, to, r.k);
    SeenNew(t, keys, seen, r, at, to);
    SeenKeys(t, keys, seen, r, at, to);
    MoreListed(keys, seen, r.k, r.v);
  }

  lemma MoreListed(keys: seq<Key>, seen: map<Key, Val>, k: Key, v: Val)
    requires Lists(keys, seen) && k !in seen
    ensures Lists(keys + [k], seen[k := v])
  {
  }

  /** What next has skipped has no value. */
  lemma SeenBefore(t: Table, k: Key, j: int, r: NextResult, at: int, to: int)
    requires t.Valid() && NextAfter(t, r, at, to) && r.Entry? && k in t.Entries() && k != r.k
    requires SlotKey(t.arr, t.node, j, k) && j <= to
    ensures j <= at
  {
    SlotEntry(t, j, k);
  }

  lemma SeenNew(t: Table, keys: seq<Key>, seen: map<Key, Val>, r: NextResult, at: int, to: int)
    requires t.Valid() && SeenTo(t, keys, seen, at) && NextAfter(t, r, at, to) && r.Entry?
    ensures r.k !in seen && r.k in t.Entries()
  {
    SlotEntry(t, to, r.k);
  }

  lemma SeenKeys(t: Table, keys: seq<Key>, seen: map<Key, Val>, r: NextResult, at: int, to: int)
    requires t.Valid() && SeenTo(t, keys, seen, at) && NextAfter(t, r, at, to) && r.Entry? && r.k in t.Entries()
    ensures forall k :: k in seen[r.k := r.v] <==> k in t.Entries() && exists j :: SlotKey(t.arr, t.node, j, k) && j <= to
  {
    forall k | k != r.k
      ensures k in seen <==> k in t.Entries() && exists j :: SlotKey(t.arr, t.node, j, k) && j <= to
    {
      if k in t.Entries() && exists j :: SlotKey(t.arr, t.node, j, k) && j <= to {
        var j :| SlotKey(t.arr, t.node, j, k) && j <= to;
        SeenBefore(t, k, j, r, at, to);
      }
    }
  }

  lemma SeenAll(t: Table, keys: seq<Key>, seen: map<Key, Val>, r: NextResult, at: int, to: int)
    requires t.Valid() && SeenTo(t, keys, seen, at) && NextAfter(t, r, at, to) && r == Done
    ensures seen == t.Entries() && Lists(keys, seen)
  {
    forall k | k in t.Entries()
      ensures k in seen
    {
      var i := EverySlot(t, k);
      ContentsLook(t.arr, t.node, k);
    }
  }

  /** One turn of a traversal goes on from the slot that it has met last. */
  method NextFrom(t: Table, k: Key, ghost at: int) returns (r: NextResult, ghost to: int)
    requires t.Valid() && SlotKey(t.arr, t.node, at, k) && k != NilKey
    ensures r != BadKey && NextAfter(t, r, at, to)
  {
    SlotEntry(t, at, k);
    ghost var from;
    r, from, to := Next(t, k);
    SlotEntry(t, from, k);
  }

  /** The loop of `pairs`: calling next from nil on meets every entry once, with its value. */
  method Traverse(t: Table) returns (keys: seq<Key>, seen: map<Key, Val>)
    requires t.Valid()
    ensures seen == t.Entries() && Lists(keys, seen)
  {
    keys, seen := [], map[];
    ghost var at: int, to: int;
    var r;
    r, at, to := Next(t, NilKey);
    while r.Entry?
      invariant r != BadKey && NextAfter(t, r, at, to) && SeenTo(t, keys, seen, at)
      decreases |t.arr| + |t.node| - at
    {
      SeeOne(t, keys, seen, r, at, to);
      keys, seen, at := keys + [r.k], seen[r.k := r.v], to;
      r, to := NextFrom(t, r.k, at);
    }
    SeenAll(t, keys, seen, r, at, to);
  }
}

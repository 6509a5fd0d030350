/** References to values in a table: luaL_ref and luaL_unref of lauxlib.c, on the table of ltable.c. */
module References {
  import opened TableChain
  import opened TableMap
  import opened Tables
  import opened TableBorder

  const FREELIST_REF := 0
  const LUA_REFNIL := -1

  function ToInteger(v: Val): int {
    match v
    case Nil => 0
    case Some(n) => n
  }

  function ValueAt(m: map<Key, Val>, n: int): Val {
    if IntKey(n) in m then m[IntKey(n)] else Nil
  }

  /** The references of a table: those in use with their values, and the free ones; all numbers up to `n`. */
  datatype Refs = Refs(live: map<int, int>, free: seq<int>, n: nat)

  function FreeAt(free: seq<int>, i: int): int {
    if 0 <= i < |free| then free[i] else 0
  }

  /** The free references form a list through the table, from t[0] on; each number is live or free, once. */
  ghost predicate RefsOk(m: map<Key, Val>, s: Refs) {
    && Numbered(s) && Linked(m, s.free)
    && (forall r :: r in s.live ==> ValueAt(m, r) == Some(s.live[r]))
    && (forall r :: r < 0 || r > s.n ==> !HasInt(m, r))
  }

  ghost predicate Numbered(s: Refs) {
    && (forall r :: r in s.live ==> 1 <= r <= s.n)
    && (forall i :: 0 <= i < |s.free| ==> 1 <= s.free[i] <= s.n && s.free[i] !in s.live)
    && (forall i, j :: 0 <= i < j < |s.free| ==> s.free[i] != s.free[j])
    && (forall r :: 1 <= r <= s.n ==> r in s.live || r in s.free)
  }

  ghost predicate Linked(m: map<Key, Val>, free: seq<int>) {
    && ToInteger(ValueAt(m, 0)) == FreeAt(free, 0)
    && (forall i {:trigger LinkAt(m, free, i)} :: 0 <= i < |free| ==> LinkAt(m, free, i))
  }

  predicate LinkAt(m: map<Key, Val>, free: seq<int>, i: int) {
    0 <= i < |free| && ToInteger(ValueAt(m, free[i])) == FreeAt(free, i + 1)
  }

  /** Without free references the length of the table is their number: the border is unique. */
  lemma OnlyBorder(m: map<Key, Val>, s: Refs, n: nat)
    requires RefsOk(m, s) && s.free == [] && Border(m, n)
    ensures n == s.n
  {
    forall r | 1 <= r <= s.n
      ensures HasInt(m, r)
    {
      assert r in s.live && ValueAt(m, r) != Nil;
    }
  }

  function Set(m: map<Key, Val>, n: int, v: Val): map<Key, Val> {
    Updated(m, IntKey(n), v)
  }

  lemma SetAt(m: map<Key, Val>, n: int, v: Val)
    ensures v != Nil ==> ValueAt(Set(m, n, v), n) == v
    ensures v == Nil ==> ValueAt(Set(m, n, v), n) == Nil
    ensures forall r :: r != n ==> ValueAt(Set(m, n, v), r) == ValueAt(m, r) && (HasInt(Set(m, n, v), r) <==> HasInt(m, r))
  {
  }

  lemma NumberedTake(s: Refs, v: int)
    requires Numbered(s) && s.free != []
    ensures Numbered(Refs(s.live[s.free[0] := v], s.free[1..], s.n))
  {
    var s' := Refs(s.live[s.free[0] := v], s.free[1..], s.n);
    forall x | 1 <= x <= s'.n
      ensures x in s'.live || x in s'.free
    {
      if x in s.free {
        var i :| 0 <= i < |s.free| && s.free[i] == x;
        assert i > 0 ==> s'.free[i - 1] == x;
      }
    }
  }

  lemma NumberedGive(s: Refs, r: int)
    requires Numbered(s) && r in s.live
    ensures Numbered(Refs(s.live - {r}, [r] + s.free, s.n))
  {
    var s' := Refs(s.live - {r}, [r] + s.free, s.n);
    forall x | 1 <= x <= s'.n
      ensures x in s'.live || x in s'.free
    {
      if x in s.free {
        var i :| 0 <= i < |s.free| && s.free[i] == x;
        assert s'.free[i + 1] == x;
      } else if x == r {
        assert s'.free[0] == x;
      }
    }
  }

  /** Taking the first free reference. */
  lemma TakeFree(m: map<Key, Val>, s: Refs, v: int)
    requires RefsOk(m, s) && s.free != []
    ensures var r := s.free[0];
      && r !in s.live && r >= 1
      && RefsOk(Set(Set(m, FREELIST_REF, ValueAt(m, r)), r, Some(v)), Refs(s.live[r := v], s.free[1..], s.n))
  {
    var r := s.free[0];
    var m1 := Set(m, FREELIST_REF, ValueAt(m, r));
    var m2 := Set(m1, r, Some(v));
    SetAt(m, FREELIST_REF, ValueAt(m, r));
    SetAt(m1, r, Some(v));
    NumberedTake(s, v);
    assert LinkAt(m, s.free, 0);
    forall i | 0 <= i < |s.free[1..]|
      ensures LinkAt(m2, s.free[1..], i)
    {
      assert LinkAt(m, s.free, i + 1);
    }
  }

  /** A new reference at the end. */
  lemma TakeNew(m: map<Key, Val>, s: Refs, v: int)
    requires RefsOk(m, s) && s.free == []
    ensures s.n + 1 !in s.live && RefsOk(Set(m, s.n + 1, Some(v)), Refs(s.live[s.n + 1 := v], [], s.n + 1))
  {
    SetAt(m, s.n + 1, Some(v));
  }

  /** Giving a reference back: it becomes the first free one. */
  lemma GiveBack(m: map<Key, Val>, s: Refs, r: int)
    requires RefsOk(m, s) && r in s.live
    ensures RefsOk(Set(Set(m, r, ValueAt(m, FREELIST_REF)), FREELIST_REF, Some(r)), Refs(s.live - {r}, [r] + s.free, s.n))
  {
    var m1 := Set(m, r, ValueAt(m, FREELIST_REF));
    var m2, free := Set(m1, FREELIST_REF, Some(r)), [r] + s.free;
    SetAt(m, r, ValueAt(m, FREELIST_REF));
    SetAt(m1, FREELIST_REF, Some(r));
    NumberedGive(s, r);
    forall i | 0 <= i < |free|
      ensures LinkAt(m2, free, i)
    {
      if i > 0 {
        assert LinkAt(m, s.free, i - 1);
      }
    }
  }

  method RawGetI(t: Table, n: int) returns (v: Val)
    requires t.Valid()
    ensures v == ValueAt(t.Entries(), n)
  {
    v := t.Get(IntKey(n));
  }

  method RawSetI(t: Table, n: int, v: Val)
    requires t.Valid()
    modifies t
    ensures t.Valid() && t.Entries() == Set(old(t.Entries()), n, v)
  {
    var f := t.Put(IntKey(n), v);
  }

  /** What is stored under other than integer keys stays. */
  ghost predicate OthersKept(m: map<Key, Val>, m': map<Key, Val>) {
    forall k: Key :: !k.IntKey? ==> (k in m' <==> k in m) && (k in m ==> m'[k] == m[k])
  }

  lemma KeptTrans(m: map<Key, Val>, m1: map<Key, Val>, m2: map<Key, Val>)
    requires OthersKept(m, m1) && OthersKept(m1, m2)
    ensures OthersKept(m, m2)
  {
  }

  lemma SetKeeps(m: map<Key, Val>, n: int, v: Val)
    ensures OthersKept(m, Set(m, n, v))
  {
  }

  /** The first free reference is taken. */
  method TakeFirst(t: Table, ref: int, v: int, ghost s: Refs) returns (ghost s': Refs)
    requires t.Valid() && RefsOk(t.Entries(), s) && ref != 0 && ref == ToInteger(ValueAt(t.Entries(), FREELIST_REF))
    modifies t
    ensures t.Valid() && RefsOk(t.Entries(), s') && OthersKept(old(t.Entries()), t.Entries())
    ensures ref > 0 && ref !in s.live && s.free != [] && ref == s.free[0] && s' == Refs(s.live[ref := v], s.free[1..], s.n)
  {
    ghost var m := t.Entries();
    TakeFree(m, s, v);
    var next := RawGetI(t, ref);
    RawSetI(t, FREELIST_REF, next);
    SetKeeps(m, FREELIST_REF, next);
    SetKeeps(t.Entries(), ref, Some(v));
    RawSetI(t, ref, Some(v));
    s' := Refs(s.live[ref := v], s.free[1..], s.n);
  }

  /** Without a free reference, a new one is made behind the others. */
  method MakeNew(t: Table, v: int, ghost s: Refs) returns (ref: int, ghost s': Refs)
    requires t.Valid() && RefsOk(t.Entries(), s) && s.free == []
    modifies t
    ensures t.Valid() && RefsOk(t.Entries(), s') && OthersKept(old(t.Entries()), t.Entries())
    ensures ref == s.n + 1 && ref !in s.live && s' == Refs(s.live[ref := v], [], ref)
  {
    ghost var m := t.Entries();
    ref := GetN(t);
    OnlyBorder(m, s, ref);
    TakeNew(m, s, v);
    ref := ref + 1;
    s' := Refs(s.live[ref := v], [], ref);
    assert RefsOk(Set(m, ref, Some(v)), s');
    SetKeeps(m, ref, Some(v));
    RawSetI(t, ref, Some(v));
  }

  /** A value gets the reference that was given back last, or if none is free the next number. */
  ghost predicate GivenOut(s: Refs, v: int, ref: int, s': Refs) {
    if s.free != [] then ref == s.free[0] && s' == Refs(s.live[ref := v], s.free[1..], s.n)
    else ref == s.n + 1 && s' == Refs(s.live[ref := v], [], ref)
  }

  /** luaL_ref: stores a value under a number that is not in use. */
  method Ref(t: Table, v: Val, ghost s: Refs) returns (ref: int, ghost s': Refs)
    requires t.Valid() && RefsOk(t.Entries(), s)
    modifies t
    ensures t.Valid() && RefsOk(t.Entries(), s') && OthersKept(old(t.Entries()), t.Entries())
    ensures v == Nil ==> ref == -1 && s' == s && t.Entries() == old(t.Entries())
    ensures v != Nil ==> ref > 0 && ref !in s.live && GivenOut(s, v.v, ref, s')
  {
    if v == Nil {
      return LUA_REFNIL, s;
    }
    var first := RawGetI(t, FREELIST_REF);
    ref := ToInteger(first);
    if ref != 0 {
      s' := TakeFirst(t, ref, v.v, s);
    } else {
      ref, s' := MakeNew(t, v.v, s);
    }
  }

  /** luaL_unref: gives a reference back; negative ones are ignored. */
  method Unref(t: Table, ref: int, ghost s: Refs) returns (ghost s': Refs)
    requires t.Valid() && RefsOk(t.Entries(), s) && (ref >= 0 ==> ref in s.live)
    modifies t
    ensures t.Valid() && RefsOk(t.Entries(), s') && OthersKept(old(t.Entries()), t.Entries())
    ensures ref >= 0 ==> s' == Refs(s.live - {ref}, [ref] + s.free, s.n)
    ensures ref < 0 ==> t.Entries() == old(t.Entries()) && s' == s
  {
    s' := s;
    if ref >= 0 {
      GiveBack(t.Entries(), s, ref);
      var first := RawGetI(t, FREELIST_REF);
      SetKeeps(t.Entries(), ref, first);
      RawSetI(t, ref, first);
      SetKeeps(t.Entries(), FREELIST_REF, Some(ref));
      RawSetI(t, FREELIST_REF, Some(ref));
      s' := Refs(s.live - {ref}, [ref] + s.free, s.n);
    }
  }

  // ---------- whole histories ----------

  datatype Use = Take(v: int) | Give(ref: int)

  ghost predicate UseOk(s: Refs, u: Use, ref: int, s': Refs) {
    match u
    case Take(v) => ref > 0 && ref !in s.live && GivenOut(s, v, ref, s')
    case Give(r) => s' == if r in s.live then Refs(s.live - {r}, [r] + s.free, s.n) else s
  }

  /** One call; `held` are the references in use, and only those are given back. */
  method UseOne(t: Table, u: Use, held: set<int>, ghost s: Refs) returns (ref: int, held': set<int>, ghost s': Refs)
    requires t.Valid() && RefsOk(t.Entries(), s) && held == s.live.Keys
    modifies t
    ensures t.Valid() && RefsOk(t.Entries(), s') && OthersKept(old(t.Entries()), t.Entries()) && held' == s'.live.Keys && UseOk(s, u, ref, s')
  {
    ref, held', s' := LUA_REFNIL, held, s;
    match u
    case Take(v) =>
      ref, s' := Ref(t, Some(v), s);
      held' := held + {ref};
    case Give(r) =>
      if r in held {
        s' := Unref(t, r, s);
        held' := held - {r};
      }
  }

  /** A table without integer keys has no references yet. */
  lemma NoRefs(m: map<Key, Val>)
    requires forall n :: !HasInt(m, n)
    ensures RefsOk(m, Refs(map[], [], 0))
  {
    assert !HasInt(m, FREELIST_REF);
  }

  /** Any sequence of calls on a table that has no other integer keys.  `given` lists the references that were
      returned: none was in use at that time.  In every state the references in use have their values in the table,
      and what the table has under other keys stays. */
  method UseAll(t: Table, uses: seq<Use>) returns (given: seq<int>, ghost history: seq<Refs>)
    requires t.Valid() && forall n :: !HasInt(t.Entries(), n)
    modifies t
    ensures t.Valid() && |history| == |uses| + 1 == |given| + 1 && RefsOk(t.Entries(), history[|uses|])
    ensures OthersKept(old(t.Entries()), t.Entries())
    ensures history[0] == Refs(map[], [], 0) && forall i :: 0 <= i < |uses| ==> UseOk(history[i], uses[i], given[i], history[i + 1])
  {
    var held: set<int> := {};
    ghost var s, m := Refs(map[], [], 0), t.Entries();
    NoRefs(m);
    given, history := [], [s];
    for k := 0 to |uses|
      invariant t.Valid() && |given| == k && |history| == k + 1 && history[0] == Refs(map[], [], 0)
      invariant RefsOk(t.Entries(), s) && history[k] == s && held == s.live.Keys && OthersKept(m, t.Entries())
      invariant forall i :: 0 <= i < k ==> UseOk(history[i], uses[i], given[i], history[i + 1])
    {
      var ref;
      ghost var m1 := t.Entries();
      ref, held, s := UseOne(t, uses[k], held, s);
      KeptTrans(m, m1, t.Entries());
      given, history := given + [ref], history + [s];
    }
  }
}

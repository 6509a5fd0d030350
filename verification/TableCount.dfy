/** The counting of keys that a rehash starts with. */
module TableCount {
  import opened Numbers
  import opened TableChain
  import opened TableSizes
  import opened TableMap

  /** The keys of the non-nil values of the array part, from index `i` on. */
  ghost function ArrKeys(arr: seq<Val>, i: int): set<Key> {
    set j | 0 <= j < |arr| && i <= j && arr[j] != Nil :: IntKey(j + 1)
  }

  /** The keys of the non-nil values of the nodes from `i` on. */
  ghost function KeysFrom(node: seq<Node>, i: int): set<Key> {
    set j | 0 <= j < |node| && i <= j && node[j].val != Nil && node[j].key.Taken? :: node[j].key.k
  }

  /** The keys of the non-nil values of the nodes before `i`. */
  ghost function KeysBelow(node: seq<Node>, i: int): set<Key> {
    set j | 0 <= j < |node| && j < i && node[j].val != Nil && node[j].key.Taken? :: node[j].key.k
  }

  predicate IsIndex(k: Key) {
    k.IntKey? && 1 <= k.n <= MAXASIZE
  }

  /** The candidates for the array part. */
  ghost function Ints(K: set<Key>): set<int> {
    set k | k in K && IsIndex(k) :: k.n
  }

  lemma IntsAdd(K: set<Key>, k: Key)
    requires k !in K
    ensures Ints(K + {k}) == if IsIndex(k) then Ints(K) + {k.n} else Ints(K)
    ensures IsIndex(k) ==> k.n !in Ints(K)
  {
    var after := if IsIndex(k) then Ints(K) + {k.n} else Ints(K);
    forall m
      ensures m in Ints(K + {k}) <==> m in after
    {
      if m in Ints(K + {k}) {
        var x :| x in K + {k} && IsIndex(x) && x.n == m;
        assert x == k || x in K;
      }
      if m in Ints(K) {
        var x :| x in K && IsIndex(x) && x.n == m;
        assert x in K + {k};
      }
    }
  }

  /** The keys that do not fit an array of size `n`. */
  ghost function Outside(K: set<Key>, n: nat): set<Key> {
    set k | k in K && !(k.IntKey? && 1 <= k.n <= n)
  }

  lemma Some<T>(A: set<T>) returns (m: T)
    requires A != {}
    ensures m in A
  {
    m :| m in A;
  }

  lemma {:induction false} KeysOfInts(A: set<int>)
    ensures |set n | n in A :: IntKey(n)| == |A|
  {
    if A != {} {
      var m := Some(A);
      KeysOfInts(A - {m});
      assert (set n | n in A :: IntKey(n)) == (set n | n in A - {m} :: IntKey(n)) + {IntKey(m)};
    }
  }

  /** The keys split into those that the array of size `n` takes and the others. */
  lemma OutsideCount(K: set<Key>, n: nat)
    requires n <= MAXASIZE
    ensures |Outside(K, n)| == |K| - CountIn(Ints(K), 0, n)
  {
    var A := Between(Ints(K), 0, n);
    var inside := set m | m in A :: IntKey(m);
    KeysOfInts(A);
    forall k
      ensures k in K <==> k in inside + Outside(K, n)
    {
      if k in inside {
        var m :| m in A && k == IntKey(m);
        var x :| x in K && IsIndex(x) && x.n == m;
        assert x == k;
      }
      if k in K && k !in Outside(K, n) {
        assert k.n in Ints(K) && k == IntKey(k.n);
      }
    }
    assert K == inside + Outside(K, n);
    assert inside !! Outside(K, n);
  }

  /** numusearray counts slice by slice; this is one slice, up to `lim`. */
  method CountSlice(arr: seq<Val>, i: nat, lim: nat) returns (lc: nat)
    requires 1 <= i <= lim + 1 && lim <= |arr| <= MAXASIZE
    ensures lc == CountIn(Ints(ArrKeys(arr, 0)), i - 1, lim)
  {
    lc := 0;
    ghost var S := Ints(ArrKeys(arr, 0));
    CountRoom(S, i - 1, i - 1);
    for j := i to lim + 1
      invariant lc == CountIn(S, i - 1, j - 1)
    {
      InInts(arr, j);
      CountSplit(S, i - 1, j - 1, j);
      if arr[j - 1] != Nil {
        assert Between(S, j - 1, j) == {j as int};
        lc := lc + 1;
      } else {
        assert Between(S, j - 1, j) == {};
      }
    }
  }

  lemma InInts(arr: seq<Val>, j: int)
    requires |arr| <= MAXASIZE
    ensures j in Ints(ArrKeys(arr, 0)) <==> 1 <= j <= |arr| && arr[j - 1] != Nil
  {
    if 1 <= j <= |arr| && arr[j - 1] != Nil {
      assert IntKey(j - 1 + 1) in ArrKeys(arr, 0);
      assert IntKey(j) in ArrKeys(arr, 0) && IsIndex(IntKey(j));
    }
  }

  lemma NoneBeyond(arr: seq<Val>, lo: int, hi: int)
    requires |arr| <= MAXASIZE && |arr| <= lo
    ensures CountIn(Ints(ArrKeys(arr, 0)), lo, hi) == 0
  {
    forall j
      ensures j !in Between(Ints(ArrKeys(arr, 0)), lo, hi)
    {
      InInts(arr, j);
    }
    assert Between(Ints(ArrKeys(arr, 0)), lo, hi) == {};
  }

  /** The slices before `lg` are counted, the others untouched. */
  ghost predicate CountedTo(nums: seq<int>, S: set<int>, lg: nat) {
    |nums| == MAXBITS + 1
    && forall j :: 0 <= j <= MAXBITS ==> nums[j] == if j < lg then CountIn(S, Low(j), Pow2(j)) else 0
  }

  /** The slices from `lg` on are empty, so all is counted. */
  lemma RestEmpty(nums: seq<int>, arr: seq<Val>, lg: nat)
    requires |arr| <= MAXASIZE && CountedTo(nums, Ints(ArrKeys(arr, 0)), lg)
    requires lg > MAXBITS || |arr| <= Low(lg)
    ensures Counts(nums, Ints(ArrKeys(arr, 0)))
    ensures lg <= MAXBITS ==> CountIn(Ints(ArrKeys(arr, 0)), 0, MAXASIZE) == CountIn(Ints(ArrKeys(arr, 0)), 0, Low(lg))
  {
    forall j | lg <= j <= MAXBITS
      ensures CountIn(Ints(ArrKeys(arr, 0)), Low(j), Pow2(j)) == 0
    {
      if lg < j {
        LowMono(lg, j);
      }
      NoneBeyond(arr, Low(j), Pow2(j));
    }
    if lg <= MAXBITS {
      LowMono(lg, MAXBITS + 1);
      CountSplit(Ints(ArrKeys(arr, 0)), 0, Low(lg), MAXASIZE);
      NoneBeyond(arr, Low(lg), MAXASIZE);
    }
  }

  lemma LowMono(i: nat, j: nat)
    requires i <= j
    ensures Low(i) <= Low(j)
  {
    if 0 < i {
      Pow2Mono(i - 1, j - 1);
    }
  }

  /** The state of numusearray before slice `lg`. */
  ghost predicate ArrayCounted(arr: seq<Val>, nums: seq<int>, lg: nat, ttlg: nat, i: nat, ause: nat) {
    && |arr| <= MAXASIZE && lg <= MAXBITS + 1 && ttlg == Pow2(lg) && CountedTo(nums, Ints(ArrKeys(arr, 0)), lg)
    && i == 1 + (if Low(lg) < |arr| then Low(lg) else |arr|) && ause == CountIn(Ints(ArrKeys(arr, 0)), 0, Low(lg))
  }

  lemma NothingCounted(arr: seq<Val>, nums: seq<int>)
    requires |arr| <= MAXASIZE && |nums| == MAXBITS + 1 && forall j :: 0 <= j <= MAXBITS ==> nums[j] == 0
    ensures ArrayCounted(arr, nums, 0, 1, 1, 0)
  {
    CountRoom(Ints(ArrKeys(arr, 0)), 0, 0);
  }

  lemma SliceCounted(arr: seq<Val>, nums: seq<int>, lg: nat, ttlg: nat, i: nat, ause: nat, lim: nat)
    requires ArrayCounted(arr, nums, lg, ttlg, i, ause) && lg <= MAXBITS && lim == (if ttlg > |arr| then |arr| else ttlg)
    ensures var lc := CountIn(Ints(ArrKeys(arr, 0)), i - 1, lim);
      ArrayCounted(arr, nums[lg := nums[lg] + lc], lg + 1, ttlg * 2, lim + 1, ause + lc)
  {
    LowMono(lg, lg + 1);
    SliceCount(arr, lg, i, lim);
  }

  /** numusearray. */
  method NumUseArray(arr: seq<Val>, nums: array<int>) returns (ause: nat)
    requires |arr| <= MAXASIZE && nums.Length == MAXBITS + 1 && forall j :: 0 <= j <= MAXBITS ==> nums[j] == 0
    modifies nums
    ensures Counts(nums[..], Ints(ArrKeys(arr, 0))) && ause == CountIn(Ints(ArrKeys(arr, 0)), 0, MAXASIZE)
  {
    ause := 0;
    var i: nat, lg: nat, ttlg: nat := 1, 0, 1;
    NothingCounted(arr, nums[..]);
    while lg <= MAXBITS
      invariant ArrayCounted(arr, nums[..], lg, ttlg, i, ause)
    {
      var lim := ttlg;
      if lim > |arr| {
        lim := |arr|;
        if i > lim {
          break;
        }
      }
      LowMono(lg, lg + 1);
      var lc := CountSlice(arr, i, lim);
      SliceCounted(arr, nums[..], lg, ttlg, i, ause, lim);
      nums[lg] := nums[lg] + lc;
      ause := ause + lc;
      i := lim + 1;
      lg := lg + 1;
      ttlg := ttlg * 2;
    }
    RestEmpty(nums[..], arr, lg);
  }

  /** Cutting a slice at the end of the array loses nothing. */
  lemma SliceCount(arr: seq<Val>, lg: nat, i: nat, lim: nat)
    requires |arr| <= MAXASIZE && lim == (if Pow2(lg) > |arr| then |arr| else Pow2(lg))
    requires i == 1 + (if Low(lg) < |arr| then Low(lg) else |arr|)
    ensures var S := Ints(ArrKeys(arr, 0));
      CountIn(S, i - 1, lim) == CountIn(S, Low(lg), Pow2(lg))
      && CountIn(S, 0, Pow2(lg)) == CountIn(S, 0, Low(lg)) + CountIn(S, Low(lg), Pow2(lg))
  {
    var S := Ints(ArrKeys(arr, 0));
    LowMono(lg, lg + 1);
    CountSplit(S, 0, Low(lg), Pow2(lg));
    forall j
      ensures j in Between(S, i - 1, lim) <==> j in Between(S, Low(lg), Pow2(lg))
    {
      InInts(arr, j);
    }
    assert Between(S, i - 1, lim) == Between(S, Low(lg), Pow2(lg));
  }

  /** countint: counts one key, if it could go to the array part. */
  method CountInt(k: Key, nums: array<int>, ghost K: set<Key>) returns (one: nat)
    requires Counts(nums[..], Ints(K)) && k !in K
    modifies nums
    ensures Counts(nums[..], Ints(K + {k})) && one == if IsIndex(k) then 1 else 0
  {
    IntsAdd(K, k);
    if k.IntKey? && 0 < k.n <= MAXASIZE {
      CountSlot(k.n, nums, Ints(K));
      one := 1;
    } else {
      one := 0;
    }
  }

  /** The slice of a number, which is one of those counted. */
  method SliceOf(n: nat, ghost q: seq<int>, ghost S: set<int>) returns (i: nat)
    requires 0 < n <= MAXASIZE && Counts(q, S) && n !in S
    ensures i < |q| && Counts(q[i := q[i] + 1], S + {n})
  {
    i := CeilLog2(n);
    if i > MAXBITS {
      Pow2Mono(MAXBITS, i - 1);
    }
    CountBump(q, S, n, i);
  }

  /** One more number in its slice. */
  method CountSlot(n: nat, nums: array<int>, ghost S: set<int>)
    requires Counts(nums[..], S) && n !in S && 0 < n <= MAXASIZE
    modifies nums
    ensures Counts(nums[..], S + {n})
  {
    var i := SliceOf(n, nums[..], S);
    Increase(nums, i);
  }

  method Increase(nums: array<int>, i: nat)
    requires i < nums.Length
    modifies nums
    ensures nums[..] == old(nums[..])[i := old(nums[..])[i] + 1]
  {
    nums[i] := nums[i] + 1;
  }

  lemma CountBump(nums: seq<int>, S: set<int>, n: int, i: nat)
    requires Counts(nums, S) && n !in S && InSlice(n, i) && i <= MAXBITS
    ensures Counts(nums[i := nums[i] + 1], S + {n})
  {
    forall j: nat | j <= MAXBITS
      ensures nums[i := nums[i] + 1][j] == CountIn(S + {n}, Low(j), Pow2(j))
    {
      CountAdd(S, n, Low(j), Pow2(j));
      if InSlice(n, j) {
        SliceUnique(n, i, j);
      }
    }
  }

  lemma CountAll(K: set<Key>, k: Key)
    requires k !in K
    ensures CountIn(Ints(K + {k}), 0, MAXASIZE) == CountIn(Ints(K), 0, MAXASIZE) + if IsIndex(k) then 1 else 0
  {
    IntsAdd(K, k);
    if IsIndex(k) {
      CountAdd(Ints(K), k.n, 0, MAXASIZE);
    }
  }

  /** Keys are stored once and not in both parts. */
  ghost predicate Apart(arr: seq<Val>, node: seq<Node>) {
    && (forall i, j, k :: Holds(node, i, k) && Holds(node, j, k) ==> i == j)
    && (forall i, k :: Holds(node, i, k) ==> !InArrayPart(arr, k))
    && (forall i :: 0 <= i < |node| && node[i].val != Nil ==> node[i].key.Taken?)
  }

  lemma NextKey(arr: seq<Val>, node: seq<Node>, i: nat)
    requires Apart(arr, node) && i < |node|
    ensures KeysFrom(node, i) == KeysFrom(node, i + 1) + if node[i].val != Nil then {node[i].key.k} else {}
    ensures node[i].val != Nil ==> node[i].key.k !in KeysFrom(node, i + 1) && node[i].key.k !in ArrKeys(arr, 0)
    ensures KeysBelow(node, i + 1) == KeysBelow(node, i) + if node[i].val != Nil then {node[i].key.k} else {}
    ensures node[i].val != Nil ==> node[i].key.k !in KeysBelow(node, i)
  {
    if node[i].val != Nil {
      var k := node[i].key.k;
      assert Holds(node, i, k);
      if k in KeysFrom(node, i + 1) {
        var j :| 0 <= j < |node| && i + 1 <= j && node[j].val != Nil && node[j].key.Taken? && node[j].key.k == k;
        assert Holds(node, j, k);
      }
      if k in KeysBelow(node, i) {
        var j :| 0 <= j < |node| && j < i && node[j].val != Nil && node[j].key.Taken? && node[j].key.k == k;
        assert Holds(node, j, k);
      }
    }
  }

  /** The keys with that of one more node, if its value is not nil. */
  ghost function WithNode(K: set<Key>, n: Node): set<Key> {
    if n.val != Nil && n.key.Taken? then K + {n.key.k} else K
  }

  /** What one node adds to the counts. */
  lemma AddNode(arr: seq<Val>, node: seq<Node>, i: nat)
    requires Apart(arr, node) && i < |node|
    ensures var K := ArrKeys(arr, 0) + KeysFrom(node, i + 1);
      && (node[i].val != Nil ==> node[i].key.Taken? && node[i].key.k !in K)
      && ArrKeys(arr, 0) + KeysFrom(node, i) == WithNode(K, node[i])
      && |KeysFrom(node, i)| == |KeysFrom(node, i + 1)| + if node[i].val != Nil then 1 else 0
  {
    NextKey(arr, node, i);
    UnionWith(ArrKeys(arr, 0), KeysFrom(node, i + 1), if node[i].val != Nil then {node[i].key.k} else {});
  }

  lemma UnionWith<T>(A: set<T>, K: set<T>, X: set<T>)
    ensures A + (K + X) == A + K + X
  {
  }

  /** Counts one node, and how much that adds to the total and to the candidates. */
  method CountNode(n: Node, nums: array<int>, ghost K: set<Key>) returns (used: nat, one: nat)
    requires Counts(nums[..], Ints(K)) && (n.val != Nil ==> n.key.Taken? && n.key.k !in K)
    modifies nums
    ensures Counts(nums[..], Ints(WithNode(K, n))) && used == if n.val != Nil then 1 else 0
    ensures CountIn(Ints(WithNode(K, n)), 0, MAXASIZE) == CountIn(Ints(K), 0, MAXASIZE) + one
  {
    used, one := 0, 0;
    if n.val != Nil {
      CountAll(K, n.key.k);
      one := CountInt(n.key.k, nums, K);
      used := 1;
    }
  }

  /** numusehash: counts the nodes from the last to the first; `ause` is the growth of `*pnasize`. */
  method NumUseHash(arr: seq<Val>, node: seq<Node>, nums: array<int>) returns (totaluse: nat, ause: nat)
    requires Apart(arr, node) && Counts(nums[..], Ints(ArrKeys(arr, 0)))
    modifies nums
    ensures Counts(nums[..], Ints(ArrKeys(arr, 0) + KeysFrom(node, 0))) && totaluse == |KeysFrom(node, 0)|
    ensures CountIn(Ints(ArrKeys(arr, 0) + KeysFrom(node, 0)), 0, MAXASIZE)
      == CountIn(Ints(ArrKeys(arr, 0)), 0, MAXASIZE) + ause
  {
    totaluse, ause := 0, 0;
    ghost var K := ArrKeys(arr, 0);
    ghost var start := CountIn(Ints(K), 0, MAXASIZE);
    var i := |node|;
    assert KeysFrom(node, i) == {} && K + {} == K;
    while i > 0
      invariant 0 <= i <= |node| && K == ArrKeys(arr, 0) + KeysFrom(node, i) && totaluse == |KeysFrom(node, i)|
      invariant Counts(nums[..], Ints(K)) && CountIn(Ints(K), 0, MAXASIZE) == start + ause
    {
      i := i - 1;
      AddNode(arr, node, i);
      var used, one := CountNode(node[i], nums, K);
      totaluse, ause := totaluse + used, ause + one;
      K := WithNode(K, node[i]);
    }
    assert i == 0 && Ints(K) == Ints(ArrKeys(arr, 0) + KeysFrom(node, 0));
  }
}

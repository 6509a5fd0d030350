/** table.sort: the quicksort of ltablib.c, with a median of three as pivot and recursion into the smaller half. */
module Sort {
  import opened Numbers

  type Less<!T> = (T, T) -> bool

  /** What a comparison must be for a sort to make sense. */
  ghost predicate StrictWeak<T(!new)>(lt: Less<T>) {
    (forall x :: !lt(x, x)) && forall x, y, z {:trigger Chain(lt, x, y, z)} :: Chain(lt, x, y, z)
  }

  /** Transitive, both as "before" and as "not after". */
  predicate Chain<T>(lt: Less<T>, x: T, y: T, z: T) {
    (lt(x, y) && lt(y, z) ==> lt(x, z)) && (!lt(x, y) && !lt(y, z) ==> !lt(x, z))
  }

  /** `x` may stand before `y`. */
  predicate Le<T>(lt: Less<T>, x: T, y: T) {
    !lt(y, x)
  }

  lemma LeTrans<T(!new)>(lt: Less<T>, x: T, y: T, z: T)
    requires StrictWeak(lt) && Le(lt, x, y) && Le(lt, y, z)
    ensures Le(lt, x, z)
  {
    assert Chain(lt, z, y, x);
  }

  lemma LessLe<T(!new)>(lt: Less<T>, x: T, y: T)
    requires StrictWeak(lt) && lt(x, y)
    ensures Le(lt, x, y)
  {
    assert Chain(lt, x, y, x);
  }

  ghost predicate Sorted<T>(lt: Less<T>, s: seq<T>, l: int, u: int) {
    0 <= l && u < |s| && forall i, j :: l <= i < j <= u ==> Le(lt, s[i], s[j])
  }

  /** All of s[i..j] may stand before all of s[k..m], bounds included. */
  ghost predicate AllLe<T>(lt: Less<T>, s: seq<T>, i: int, j: int, k: int, m: int) {
    0 <= i && j < |s| && 0 <= k && m < |s| && forall x, y :: i <= x <= j && k <= y <= m ==> Le(lt, s[x], s[y])
  }

  // ---------- rearranging a range ----------

  ghost predicate Rearranged<T>(s: seq<T>, t: seq<T>, l: int, u: int) {
    && |s| == |t| && 0 <= l <= u + 1 <= |s|
    && s[..l] == t[..l] && s[u + 1..] == t[u + 1..] && multiset(s[l..u + 1]) == multiset(t[l..u + 1])
  }

  lemma Outside<T>(s: seq<T>, t: seq<T>, l: int, u: int, i: int)
    requires Rearranged(s, t, l, u) && 0 <= i < |s| && (i < l || i > u)
    ensures s[i] == t[i]
  {
    if i < l {
      assert s[..l][i] == t[..l][i];
    } else {
      assert s[u + 1..][i - (u + 1)] == t[u + 1..][i - (u + 1)];
    }
  }

  /** Every element of the range was there before. */
  lemma Inside<T>(s: seq<T>, t: seq<T>, l: int, u: int, i: int) returns (j: int)
    requires Rearranged(s, t, l, u) && l <= i <= u
    ensures l <= j <= u && t[i] == s[j]
  {
    var x := t[l..u + 1][i - l];
    assert x in multiset(t[l..u + 1]);
    assert x in s[l..u + 1];
    var k :| 0 <= k < |s[l..u + 1]| && s[l..u + 1][k] == x;
    j := l + k;
  }

  lemma RearrangedTrans<T>(s: seq<T>, t: seq<T>, r: seq<T>, l: int, u: int)
    requires Rearranged(s, t, l, u) && Rearranged(t, r, l, u)
    ensures Rearranged(s, r, l, u)
  {
  }

  lemma Widen<T>(s: seq<T>, t: seq<T>, l: int, u: int, l': int, u': int)
    requires Rearranged(s, t, l, u) && 0 <= l' <= l && u <= u' < |s|
    ensures Rearranged(s, t, l', u')
  {
    assert s[l'..u' + 1] == s[l'..l] + s[l..u + 1] + s[u + 1..u' + 1];
    assert t[l'..u' + 1] == t[l'..l] + t[l..u + 1] + t[u + 1..u' + 1];
    assert s[l'..l] == s[..l][l'..] && t[l'..l] == t[..l][l'..];
    assert s[u + 1..u' + 1] == s[u + 1..][..u' - u] && t[u + 1..u' + 1] == t[u + 1..][..u' - u];
    assert s[..l'] == s[..l][..l'] && t[..l'] == t[..l][..l'];
    assert s[u' + 1..] == s[u + 1..][u' - u..] && t[u' + 1..] == t[u + 1..][u' - u..];
  }

  lemma Swapped<T>(s: seq<T>, i: int, j: int, l: int, u: int)
    requires 0 <= l <= i <= u < |s| && l <= j <= u
    ensures Rearranged(s, s[i := s[j]][j := s[i]], l, u)
  {
    var t := s[i := s[j]][j := s[i]];
    assert t[l..u + 1] == s[l..u + 1][i - l := s[j]][j - l := s[i]];
  }

  /** Rearranging one side of a split keeps the split. */
  lemma KeepsSplit<T>(lt: Less<T>, s: seq<T>, t: seq<T>, l: int, u: int, i: int, j: int, k: int, m: int)
    requires Rearranged(s, t, l, u) && AllLe(lt, s, i, j, k, m)
    requires (i <= l && u <= j) || u < i || j < l
    requires (k <= l && u <= m) || u < k || m < l
    ensures AllLe(lt, t, i, j, k, m)
  {
    forall x, y | i <= x <= j && k <= y <= m
      ensures Le(lt, t[x], t[y])
    {
      var x', y' := x, y;
      if l <= x <= u {
        x' := Inside(s, t, l, u, x);
      } else {
        Outside(s, t, l, u, x);
      }
      if l <= y <= u {
        y' := Inside(s, t, l, u, y);
      } else {
        Outside(s, t, l, u, y);
      }
      assert Le(lt, s[x'], s[y']);
    }
  }

  lemma KeepsSorted<T>(lt: Less<T>, s: seq<T>, t: seq<T>, l: int, u: int, i: int, j: int)
    requires Rearranged(s, t, l, u) && Sorted(lt, s, i, j) && (u < i || j < l)
    ensures Sorted(lt, t, i, j)
  {
    forall x, y | i <= x < y <= j
      ensures Le(lt, t[x], t[y])
    {
      Outside(s, t, l, u, x);
      Outside(s, t, l, u, y);
    }
  }

  // ---------- the sort ----------

  /** set2, after two values have been read: swaps two elements. */
  method Set2<T>(a: array<T>, i: int, j: int, ghost l: int, ghost u: int)
    requires 0 <= l <= i <= u < a.Length && l <= j <= u
    modifies a
    ensures a[..] == old(a[..])[i := old(a[j])][j := old(a[i])] && Rearranged(old(a[..]), a[..], l, u)
  {
    Swapped(a[..], i, j, l, u);
    a[i], a[j] := a[j], a[i];
    assert a[..] == old(a[..])[i := old(a[j])][j := old(a[i])];
  }

  /** Sorts a[l], a[(l+u)/2] and a[u]. */
  method SortThree<T(!new)>(a: array<T>, lt: Less<T>, l: int, u: int) returns (i: int)
    requires 0 <= l < u < a.Length && StrictWeak(lt)
    modifies a
    ensures Rearranged(old(a[..]), a[..], l, u) && i == (l + u) / 2
    ensures if u - l == 1 then Le(lt, a[l], a[u]) else Le(lt, a[l], a[i]) && Le(lt, a[i], a[u])
  {
    i := (l + u) / 2;
    if lt(a[u], a[l]) {
      LessLe(lt, a[u], a[l]);
      Set2(a, l, u, l, u);
    }
    if u - l == 1 {
      return;
    }
    ghost var s := a[..];
    SortMiddle(a, lt, l, i, u);
    RearrangedTrans(old(a[..]), s, a[..], l, u);
  }

  /** With a[l] and a[u] in order, a[i] comes between them. */
  method SortMiddle<T(!new)>(a: array<T>, lt: Less<T>, l: int, i: int, u: int)
    requires 0 <= l < i < u < a.Length && StrictWeak(lt) && Le(lt, a[l], a[u])
    modifies a
    ensures Rearranged(old(a[..]), a[..], l, u) && Le(lt, a[l], a[i]) && Le(lt, a[i], a[u])
  {
    if lt(a[i], a[l]) {
      LessLe(lt, a[i], a[l]);
      Set2(a, i, l, l, u);
    } else if lt(a[u], a[i]) {
      LessLe(lt, a[u], a[i]);
      Set2(a, i, u, l, u);
    }
  }

  /** The split of a[l..u] around the pivot `p`, which waits in a[u-1]; a[l] and a[u-1] stop the two scans. */
  ghost predicate Splitting<T>(lt: Less<T>, s: seq<T>, l: int, u: int, i: int, j: int, p: T) {
    && 0 <= l && u < |s| && l <= i <= u - 1 && l <= j <= u - 1 && i <= j + 1 && s[u - 1] == p
    && (forall x :: l <= x <= i ==> Le(lt, s[x], p)) && (forall x :: j <= x <= u ==> Le(lt, p, s[x]))
  }

  /** Repeat ++i until a[i] >= p: the pivot in a[u-1] stops it in time. */
  method ScanUp<T(!new)>(a: array<T>, lt: Less<T>, l: int, u: int, start: int, p: T) returns (i: int)
    requires 0 <= l <= start < u - 1 && u < a.Length && StrictWeak(lt) && a[u - 1] == p
    requires forall x :: l <= x <= start ==> Le(lt, a[x], p)
    ensures start < i <= u - 1 && Le(lt, p, a[i]) && forall x :: l <= x < i ==> Le(lt, a[x], p)
  {
    i := start + 1;
    while lt(a[i], p)
      invariant start < i <= u - 1 && forall x :: l <= x < i ==> Le(lt, a[x], p)
      decreases u - i
    {
      if i > u {
        assert false;
      }
      LessLe(lt, a[i], p);
      i := i + 1;
    }
  }

  /** Repeat --j until a[j] <= p: a[l] stops it in time. */
  method ScanDown<T(!new)>(a: array<T>, lt: Less<T>, l: int, u: int, start: int, p: T) returns (j: int)
    requires 0 <= l < start <= u < a.Length && StrictWeak(lt) && Le(lt, a[l], p)
    requires forall x :: start <= x <= u ==> Le(lt, p, a[x])
    ensures l <= j < start && Le(lt, a[j], p) && forall x :: j < x <= u ==> Le(lt, p, a[x])
  {
    j := start - 1;
    while lt(p, a[j])
      invariant l <= j < start && forall x :: j < x <= u ==> Le(lt, p, a[x])
      decreases j - l
    {
      if j < l {
        assert false;
      }
      LessLe(lt, p, a[j]);
      j := j - 1;
    }
  }

  /** The scans and swaps: afterwards a[l..i-1] <= p <= a[i..u]. */
  method Scan<T(!new)>(a: array<T>, lt: Less<T>, l: int, u: int, p: T) returns (i: int)
    requires 0 <= l && l + 3 <= u < a.Length && StrictWeak(lt)
    requires Splitting(lt, a[..], l, u, l, u - 1, p)
    modifies a
    ensures l < i <= u - 1 && a[u - 1] == p && Rearranged(old(a[..]), a[..], l, u)
    ensures forall x :: l <= x < i ==> Le(lt, a[x], p)
    ensures forall x :: i <= x <= u ==> Le(lt, p, a[x])
  {
    i := l;
    var j := u - 1;
    while true
      invariant Splitting(lt, a[..], l, u, i, j, p) && i <= j && i < u - 1 && l < j
      invariant Rearranged(old(a[..]), a[..], l, u)
      decreases j - i
    {
      i := ScanUp(a, lt, l, u, i, p);
      j := ScanDown(a, lt, l, u, j, p);
      if j < i {
        return;
      }
      ghost var s := a[..];
      Set2(a, i, j, l, u);
      RearrangedTrans(old(a[..]), s, a[..], l, u);
    }
  }

  /** The pivot changes places with the first element of the upper half. */
  lemma PivotPlaced<T>(lt: Less<T>, s: seq<T>, l: int, u: int, i: int, p: T)
    requires 0 <= l < i <= u - 1 && u < |s| && s[u - 1] == p
    requires (forall x :: l <= x < i ==> Le(lt, s[x], p)) && forall x :: i <= x <= u ==> Le(lt, p, s[x])
    ensures var t := s[u - 1 := s[i]][i := s[u - 1]];
      t[i] == p && AllLe(lt, t, l, i - 1, i, i) && AllLe(lt, t, i, i, i + 1, u)
  {
  }

  /** Hides the pivot in a[u-1], splits around it, and puts it between the halves. */
  method Split<T(!new)>(a: array<T>, lt: Less<T>, l: int, u: int, mid: int) returns (i: int)
    requires 0 <= l && l + 3 <= u < a.Length && l < mid < u && StrictWeak(lt)
    requires Le(lt, a[l], a[mid]) && Le(lt, a[mid], a[u])
    modifies a
    ensures Rearranged(old(a[..]), a[..], l, u) && l < i < u
    ensures AllLe(lt, a[..], l, i - 1, i, i) && AllLe(lt, a[..], i, i, i + 1, u)
  {
    var p := a[mid];
    Set2(a, mid, u - 1, l, u);
    ghost var s1 := a[..];
    i := Scan(a, lt, l, u, p);
    ghost var s2 := a[..];
    PivotPlaced(lt, s2, l, u, i, p);
    Set2(a, u - 1, i, l, u);
    RearrangedTrans(s1, s2, a[..], l, u);
    RearrangedTrans(old(a[..]), s1, a[..], l, u);
  }

  /** The partition of one turn: a[l..i-1] <= a[i] <= a[i+1..u]; two or three elements are sorted at once. */
  method Partition<T(!new)>(a: array<T>, lt: Less<T>, l: int, u: int) returns (done: bool, i: int)
    requires 0 <= l < u < a.Length && StrictWeak(lt)
    modifies a
    ensures Rearranged(old(a[..]), a[..], l, u) && done == (u - l <= 2)
    ensures done ==> Sorted(lt, a[..], l, u)
    ensures !done ==> l < i < u && AllLe(lt, a[..], l, i - 1, i, i) && AllLe(lt, a[..], i, i, i + 1, u)
  {
    i := SortThree(a, lt, l, u);
    if u - l == 1 {
      return true, i;
    }
    if u - l == 2 {
      LeTrans(lt, a[l], a[i], a[u]);
      return true, i;
    }
    ghost var s1 := a[..];
    i := Split(a, lt, l, u, i);
    RearrangedTrans(old(a[..]), s1, a[..], l, u);
    return false, i;
  }

  /** What is known between the turns of auxsort on s[lo..hi]: all but s[l..u] is in place. */
  ghost predicate InPlaceBut<T>(lt: Less<T>, s: seq<T>, lo: int, hi: int, l: int, u: int) {
    && 0 <= lo <= l && u <= hi < |s| && l <= u + 1
    && Sorted(lt, s, lo, l - 1) && Sorted(lt, s, u + 1, hi)
    && AllLe(lt, s, lo, l - 1, l, hi) && AllLe(lt, s, lo, u, u + 1, hi)
  }

  /** Rearranging s[l..u] does not disturb that. */
  lemma StillInPlace<T>(lt: Less<T>, s: seq<T>, t: seq<T>, lo: int, hi: int, l: int, u: int)
    requires InPlaceBut(lt, s, lo, hi, l, u) && Rearranged(s, t, l, u)
    ensures InPlaceBut(lt, t, lo, hi, l, u)
  {
    KeepsSorted(lt, s, t, l, u, lo, l - 1);
    KeepsSorted(lt, s, t, l, u, u + 1, hi);
    KeepsSplit(lt, s, t, l, u, lo, l - 1, l, hi);
    KeepsSplit(lt, s, t, l, u, lo, u, u + 1, hi);
  }

  /** With s[l..u] sorted, all is. */
  lemma AllInPlace<T>(lt: Less<T>, s: seq<T>, lo: int, hi: int, l: int, u: int)
    requires InPlaceBut(lt, s, lo, hi, l, u) && Sorted(lt, s, l, u)
    ensures Sorted(lt, s, lo, hi)
  {
  }

  /** One half sorted: only the other one is left. */
  lemma LowerSorted<T>(lt: Less<T>, s: seq<T>, t: seq<T>, lo: int, hi: int, l: int, u: int, i: int)
    requires InPlaceBut(lt, s, lo, hi, l, u) && l < i < u
    requires AllLe(lt, s, l, i - 1, i, i) && AllLe(lt, s, i, i, i + 1, u) && AllLe(lt, s, l, i, i + 1, u)
    requires Rearranged(s, t, l, i - 1) && Sorted(lt, t, l, i - 1)
    ensures InPlaceBut(lt, t, lo, hi, i + 1, u)
  {
    Widen(s, t, l, i - 1, l, u);
    StillInPlace(lt, s, t, lo, hi, l, u);
    KeepsSplit(lt, s, t, l, i - 1, l, i - 1, i, i);
    KeepsSplit(lt, s, t, l, i - 1, l, i, i + 1, u);
  }

  lemma UpperSorted<T>(lt: Less<T>, s: seq<T>, t: seq<T>, lo: int, hi: int, l: int, u: int, i: int)
    requires InPlaceBut(lt, s, lo, hi, l, u) && l < i < u
    requires AllLe(lt, s, l, i - 1, i, i) && AllLe(lt, s, i, i, i + 1, u) && AllLe(lt, s, l, i - 1, i, u)
    requires Rearranged(s, t, i + 1, u) && Sorted(lt, t, i + 1, u)
    ensures InPlaceBut(lt, t, lo, hi, l, i - 1)
  {
    Widen(s, t, i + 1, u, l, u);
    StillInPlace(lt, s, t, lo, hi, l, u);
    KeepsSplit(lt, s, t, i + 1, u, i, i, i + 1, u);
    KeepsSplit(lt, s, t, i + 1, u, l, i - 1, i, u);
  }

  /** The halves around the pivot are ordered among themselves. */
  lemma ThroughPivot<T(!new)>(lt: Less<T>, s: seq<T>, l: int, u: int, i: int)
    requires StrictWeak(lt) && l < i < u && AllLe(lt, s, l, i - 1, i, i) && AllLe(lt, s, i, i, i + 1, u)
    ensures AllLe(lt, s, l, i, i + 1, u) && AllLe(lt, s, l, i - 1, i, u)
  {
    forall x, y | l <= x <= i && i <= y <= u && x < y
      ensures Le(lt, s[x], s[y])
    {
      if x < i < y {
        LeTrans(lt, s[x], s[i], s[y]);
      }
    }
  }

  /** The smaller half of fewer than 2^(depth + 1) elements has fewer than 2^depth. */
  lemma HalfDepth(m: nat, n: nat, depth: nat)
    requires 2 * m < n < Pow2(depth + 1) && n >= 2
    ensures depth > 0 && m < Pow2(depth)
  {
  }

  /** What a turn has done so far, in the terms of the whole sort. */
  lemma Onwards<T>(lt: Less<T>, s0: seq<T>, s: seq<T>, t: seq<T>, lo: int, hi: int, l: int, u: int)
    requires Rearranged(s0, s, lo, hi) && Rearranged(s, t, l, u) && 0 <= lo <= l && u <= hi < |s|
    ensures Rearranged(s0, t, lo, hi)
  {
    Widen(s, t, l, u, lo, hi);
    RearrangedTrans(s0, s, t, lo, hi);
  }

  /** The smaller half is sorted by a call, the larger one is left for the next turn. */
  method SortSmaller<T(!new)>(a: array<T>, lt: Less<T>, lo: int, hi: int, l: int, u: int, i: int, ghost s0: seq<T>, ghost depth: nat)
      returns (l': int, u': int)
    requires InPlaceBut(lt, a[..], lo, hi, l, u) && Rearranged(s0, a[..], lo, hi) && StrictWeak(lt) && l < i < u
    requires AllLe(lt, a[..], l, i - 1, i, i) && AllLe(lt, a[..], i, i, i + 1, u) && u - l + 1 < Pow2(depth + 1)
    modifies a
    ensures InPlaceBut(lt, a[..], lo, hi, l', u') && Rearranged(s0, a[..], lo, hi) && l <= l' && u' <= u && u' - l' < u - l
    decreases depth, 2
  {
    if i - l < u - i {
      SortLower(a, lt, lo, hi, l, u, i, s0, depth);
      l', u' := i + 1, u;
    } else {
      SortUpper(a, lt, lo, hi, l, u, i, s0, depth);
      l', u' := l, i - 1;
    }
  }

  method SortLower<T(!new)>(a: array<T>, lt: Less<T>, lo: int, hi: int, l: int, u: int, i: int, ghost s0: seq<T>, ghost depth: nat)
    requires InPlaceBut(lt, a[..], lo, hi, l, u) && Rearranged(s0, a[..], lo, hi) && StrictWeak(lt) && l < i < u
    requires AllLe(lt, a[..], l, i - 1, i, i) && AllLe(lt, a[..], i, i, i + 1, u) && i - l < u - i && u - l + 1 < Pow2(depth + 1)
    modifies a
    ensures InPlaceBut(lt, a[..], lo, hi, i + 1, u) && Rearranged(s0, a[..], lo, hi)
    decreases depth, 1
  {
    ghost var t := a[..];
    ThroughPivot(lt, t, l, u, i);
    HalfDepth(i - l, u - l + 1, depth);
    AuxSort(a, lt, l, i - 1, depth - 1);
    LowerSorted(lt, t, a[..], lo, hi, l, u, i);
    Onwards(lt, s0, t, a[..], lo, hi, l, i - 1);
  }

  method SortUpper<T(!new)>(a: array<T>, lt: Less<T>, lo: int, hi: int, l: int, u: int, i: int, ghost s0: seq<T>, ghost depth: nat)
    requires InPlaceBut(lt, a[..], lo, hi, l, u) && Rearranged(s0, a[..], lo, hi) && StrictWeak(lt) && l < i < u
    requires AllLe(lt, a[..], l, i - 1, i, i) && AllLe(lt, a[..], i, i, i + 1, u) && i - l >= u - i && u - l + 1 < Pow2(depth + 1)
    modifies a
    ensures InPlaceBut(lt, a[..], lo, hi, l, i - 1) && Rearranged(s0, a[..], lo, hi)
    decreases depth, 1
  {
    ghost var t := a[..];
    ThroughPivot(lt, t, l, u, i);
    HalfDepth(u - i, u - l + 1, depth);
    AuxSort(a, lt, i + 1, u, depth - 1);
    UpperSorted(lt, t, a[..], lo, hi, l, u, i);
    Onwards(lt, s0, t, a[..], lo, hi, i + 1, u);
  }

  /** One turn of auxsort on s[l..u]; afterwards only s[l'..u'] is left. */
  method Turn<T(!new)>(a: array<T>, lt: Less<T>, lo: int, hi: int, l: int, u: int, ghost s0: seq<T>, ghost depth: nat)
      returns (done: bool, l': int, u': int)
    requires InPlaceBut(lt, a[..], lo, hi, l, u) && Rearranged(s0, a[..], lo, hi) && StrictWeak(lt) && l < u
    requires u - l + 1 < Pow2(depth + 1)
    modifies a
    ensures Rearranged(s0, a[..], lo, hi)
    ensures if done then Sorted(lt, a[..], lo, hi)
            else InPlaceBut(lt, a[..], lo, hi, l', u') && l <= l' && u' <= u && u' - l' < u - l
    decreases depth, 3
  {
    ghost var s := a[..];
    var i;
    done, i := Partition(a, lt, l, u);
    StillInPlace(lt, s, a[..], lo, hi, l, u);
    Onwards(lt, s0, s, a[..], lo, hi, l, u);
    l', u' := l, u;
    if done {
      AllInPlace(lt, a[..], lo, hi, l, u);
    } else {
      l', u' := SortSmaller(a, lt, lo, hi, l, u, i, s0, depth);
    }
  }

  /** auxsort: sorts a[lo..hi].  Calls nest at most `depth` deep, as every call inside has one less left: that is
      enough for fewer than 2^(depth + 1) elements, since the call takes the smaller half. */
  method AuxSort<T(!new)>(a: array<T>, lt: Less<T>, lo: int, hi: int, ghost depth: nat)
    requires 0 <= lo <= hi + 1 <= a.Length && StrictWeak(lt) && hi - lo + 1 < Pow2(depth + 1)
    modifies a
    ensures Sorted(lt, a[..], lo, hi) && Rearranged(old(a[..]), a[..], lo, hi)
    decreases depth, 4
  {
    ghost var s0 := a[..];
    var l, u := lo, hi;
    while l < u
      invariant lo <= l && u <= hi && InPlaceBut(lt, a[..], lo, hi, l, u) && Rearranged(s0, a[..], lo, hi)
      decreases u - l
    {
      var done;
      done, l, u := Turn(a, lt, lo, hi, l, u, s0, depth);
      if done {
        return;
      }
    }
    AllInPlace(lt, a[..], lo, hi, l, u);
  }

  /** The logarithm of a size, rounded down. */
  ghost function Log(n: nat): (d: nat)
    ensures n < Pow2(d + 1) && (n > 0 ==> Pow2(d) <= n)
  {
    if n < 2 then 0 else 1 + Log(n / 2)
  }

  /** table.sort on the whole list. */
  method TableSort<T(!new)>(a: array<T>, lt: Less<T>)
    requires StrictWeak(lt)
    modifies a
    ensures Sorted(lt, a[..], 0, a.Length - 1) && multiset(a[..]) == multiset(old(a[..]))
  {
    AuxSort(a, lt, 0, a.Length - 1, Log(a.Length));
    assert old(a[..])[0..a.Length] == old(a[..]) && a[..][0..a.Length] == a[..];
  }
}

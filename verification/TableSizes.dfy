/** How a rehash counts integer keys and picks the size of the array part. */
module TableSizes {
  import opened Numbers
  import opened TableChain

  const MAXBITS: nat := 26

  const MAXASIZE: nat := Pow2(MAXBITS)

  lemma {:induction false} Pow2Mono(i: nat, j: nat)
    requires i <= j
    ensures Pow2(i) <= Pow2(j)
  {
    if i < j {
      Pow2Mono(i, j - 1);
    }
  }

  // ---------- luaO_log2 ----------

  /** The table log_2: the number of bits of a byte. */
  function Bits(x: nat): nat
    requires x < 256
  {
    if x < 1 then 0 else if x < 2 then 1 else if x < 4 then 2 else if x < 8 then 3
    else if x < 16 then 4 else if x < 32 then 5 else if x < 64 then 6 else if x < 128 then 7 else 8
  }

  lemma {:induction false} Pow2Add(i: nat, j: nat)
    ensures Pow2(i + j) == Pow2(i) * Pow2(j)
  {
    if j > 0 {
      Pow2Add(i, j - 1);
      assert Pow2(i) * (2 * Pow2(j - 1)) == 2 * (Pow2(i) * Pow2(j - 1));
    }
  }

  lemma BitsBound(x: nat)
    requires 0 < x < 256
    ensures Bits(x) > 0 && Pow2(Bits(x) - 1) <= x < Pow2(Bits(x))
  {
    assert Pow2(1) == 2 && Pow2(2) == 4 && Pow2(3) == 8 && Pow2(4) == 16;
    assert Pow2(5) == 32 && Pow2(6) == 64 && Pow2(7) == 128 && Pow2(8) == 256;
  }

  lemma MulMono(p: nat, a: nat, b: nat)
    requires a <= b
    ensures p * a <= p * b
  {
  }

  lemma Log2Step(p: nat, y: nat, x: nat)
    requires p * y <= x < p * (y + 1)
    ensures (p * 256) * (y / 256) <= x < (p * 256) * (y / 256 + 1)
  {
    var z := y / 256;
    MulMono(p, 256 * z, y);
    MulMono(p, y + 1, 256 * (z + 1));
    assert (p * 256) * z == p * (256 * z);
    assert (p * 256) * (z + 1) == p * (256 * (z + 1));
  }

  lemma Log2End(m: nat, y: nat, x: nat)
    requires Pow2(m) * y <= x < Pow2(m) * (y + 1) && 0 < y < 256
    ensures Bits(y) > 0 && Pow2(m + Bits(y) - 1) <= x < Pow2(m + Bits(y))
  {
    BitsBound(y);
    Pow2Add(m, Bits(y) - 1);
    Pow2Add(m, Bits(y));
    MulMono(Pow2(m), Pow2(Bits(y) - 1), y);
    MulMono(Pow2(m), y + 1, Pow2(Bits(y)));
  }

  /** luaO_log2: the place of the highest bit; -1 for zero. */
  method Log2(x: nat) returns (l: int)
    ensures x == 0 ==> l == -1
    ensures x > 0 ==> l >= 0 && Pow2(l) <= x < Pow2(l + 1)
  {
    l := -1;
    var y := x;
    while y >= 256
      invariant l >= -1 && (x == 0 ==> y == 0 && l == -1) && (x > 0 ==> y > 0)
      invariant Pow2(l + 1) * y <= x < Pow2(l + 1) * (y + 1)
      decreases y
    {
      Log2Step(Pow2(l + 1), y, x);
      Pow2Add(l + 1, 8);
      assert Pow2(8) == 256;
      l := l + 8;
      y := y / 256;
    }
    if x > 0 {
      Log2End(l + 1, y, x);
      BitsBound(y);
    }
    l := l + Bits(y);
  }

  /** Slice `i` holds the numbers above 2^(i-1), up to 2^i; slice 0 holds 1. */
  function Low(i: nat): nat {
    if i == 0 then 0 else Pow2(i - 1)
  }

  predicate InSlice(k: int, i: nat) {
    Low(i) < k <= Pow2(i)
  }

  /** The ceillog2 macro finds the slice of a number. */
  method CeilLog2(k: nat) returns (i: nat)
    requires k > 0
    ensures InSlice(k, i)
  {
    var l := Log2(k - 1);
    i := l + 1;
  }

  lemma {:induction false} HasSlice(k: nat, m: nat) returns (i: nat)
    requires 0 < k <= Pow2(m)
    ensures InSlice(k, i) && i <= m
  {
    i := m;
    if m > 0 && k <= Pow2(m - 1) {
      i := HasSlice(k, m - 1);
    }
  }

  lemma SliceUnique(k: int, i: nat, j: nat)
    requires InSlice(k, i) && InSlice(k, j)
    ensures i == j
  {
    if i < j {
      Pow2Mono(i, j - 1);
    } else if j < i {
      Pow2Mono(j, i - 1);
    }
  }

  // ---------- counting ----------

  ghost function Between(S: set<int>, lo: int, hi: int): set<int> {
    set k | k in S && lo < k <= hi
  }

  ghost function CountIn(S: set<int>, lo: int, hi: int): nat {
    |Between(S, lo, hi)|
  }

  lemma CountSplit(S: set<int>, lo: int, mid: int, hi: int)
    requires lo <= mid <= hi
    ensures CountIn(S, lo, hi) == CountIn(S, lo, mid) + CountIn(S, mid, hi)
  {
    assert Between(S, lo, hi) == Between(S, lo, mid) + Between(S, mid, hi);
  }

  lemma CountAdd(S: set<int>, k: int, lo: int, hi: int)
    requires k !in S
    ensures CountIn(S + {k}, lo, hi) == CountIn(S, lo, hi) + if lo < k <= hi then 1 else 0
  {
    if lo < k <= hi {
      assert Between(S + {k}, lo, hi) == Between(S, lo, hi) + {k};
    } else {
      assert Between(S + {k}, lo, hi) == Between(S, lo, hi);
    }
  }

  /** Distinct numbers: no more of them than there is room. */
  lemma {:induction false} CountRoom(S: set<int>, lo: int, hi: int)
    requires lo <= hi
    ensures CountIn(S, lo, hi) <= hi - lo
    decreases hi - lo
  {
    if lo < hi {
      CountRoom(S, lo, hi - 1);
      assert Between(S, lo, hi) <= Between(S, lo, hi - 1) + {hi};
      CountSplit(S, lo, hi - 1, hi);
      assert Between(S, hi - 1, hi) <= {hi};
      if hi in S {
        assert Between(S, hi - 1, hi) == {hi};
      } else {
        assert Between(S, hi - 1, hi) == {};
      }
    } else {
      assert Between(S, lo, hi) == {};
    }
  }

  /** `nums` counts the members of `S` slice by slice. */
  ghost predicate Counts(nums: seq<int>, S: set<int>) {
    |nums| == MAXBITS + 1 && forall i :: 0 <= i <= MAXBITS ==> nums[i] == CountIn(S, Low(i), Pow2(i))
  }

  /** What computesizes must find: the largest power of two, up to 2^26, such that more than half of the slots
      from 1 to `n` would be in use; `na` is the number of these. */
  ghost predicate BestSize(S: set<int>, n: nat, na: nat) {
    && (n == 0 || exists i: nat :: i <= 26 && n == Pow2(i))
    && na == CountIn(S, 0, n) && (n > 0 ==> 2 * na > n)
    && forall i: nat :: i <= 26 && 2 * CountIn(S, 0, Pow2(i)) > Pow2(i) ==> Pow2(i) <= n
  }

  /** The best size among the powers of two below 2^i. */
  ghost predicate BestBelow(S: set<int>, i: nat, n: nat, na: nat) {
    && (n == 0 || exists j: nat :: j < i && n == Pow2(j))
    && na == CountIn(S, 0, n) && (n > 0 ==> 2 * na > n)
    && forall j: nat :: j < i && 2 * CountIn(S, 0, Pow2(j)) > Pow2(j) ==> Pow2(j) <= n
  }

  /** Taking one more power of two into account. */
  lemma BestStep(S: set<int>, i: nat, n: nat, na: nat)
    requires BestBelow(S, i, n, na)
    ensures 2 * CountIn(S, 0, Pow2(i)) > Pow2(i) ==> BestBelow(S, i + 1, Pow2(i), CountIn(S, 0, Pow2(i)))
    ensures 2 * CountIn(S, 0, Pow2(i)) <= Pow2(i) ==> BestBelow(S, i + 1, n, na)
  {
    forall j: nat | j < i
      ensures Pow2(j) <= Pow2(i)
    {
      Pow2Mono(j, i);
    }
  }

  lemma SliceStep(S: set<int>, i: nat)
    requires i <= MAXBITS
    ensures CountIn(S, 0, Pow2(i)) == CountIn(S, 0, Low(i)) + CountIn(S, Low(i), Pow2(i))
    ensures CountIn(S, 0, Pow2(i)) <= CountIn(S, 0, MAXASIZE)
    ensures CountIn(S, Low(i), Pow2(i)) == 0 ==> 2 * CountIn(S, 0, Pow2(i)) <= Pow2(i)
  {
    CountSplit(S, 0, Low(i), Pow2(i));
    Pow2Mono(i, MAXBITS);
    CountSplit(S, 0, Pow2(i), MAXASIZE);
    CountRoom(S, 0, Low(i));
  }

  /** The loop may stop when half of the next size exceeds the number of keys. */
  lemma EndLarge(S: set<int>, i: nat, n: nat, na: nat, narray: nat)
    requires BestBelow(S, i, n, na) && i <= MAXBITS + 1
    requires narray == CountIn(S, 0, MAXASIZE) && Pow2(i) / 2 >= narray
    ensures BestSize(S, n, na)
  {
    LargerTooLarge(S, i, narray);
  }

  /** It may stop as well when all keys are counted. */
  lemma EndCounted(S: set<int>, i: nat, n: nat, na: nat, narray: nat)
    requires BestBelow(S, i + 1, n, na) && i <= MAXBITS
    requires narray == CountIn(S, 0, MAXASIZE) == CountIn(S, 0, Pow2(i))
    ensures BestSize(S, n, na)
  {
    LargerAreNotFull(S, i, narray);
  }

  /** One turn of the loop, on the counts. */
  lemma Turn(q: seq<int>, S: set<int>, i: nat, n: nat, na: nat, narray: nat)
    requires Counts(q, S) && BestBelow(S, i, n, na) && i <= MAXBITS + 1
    requires narray == CountIn(S, 0, MAXASIZE) && Pow2(i) / 2 < narray
    ensures i <= MAXBITS && q[i] >= 0
    ensures CountIn(S, 0, Low(i)) + q[i] == CountIn(S, 0, Pow2(i))
    ensures var b := CountIn(S, 0, Pow2(i));
      if q[i] > 0 && b > Pow2(i) / 2 then BestBelow(S, i + 1, Pow2(i), b) else BestBelow(S, i + 1, n, na)
  {
    CountRoom(S, 0, MAXASIZE);
    assert i <= MAXBITS;
    SliceStep(S, i);
    BestStep(S, i, n, na);
  }

  /** The state of the loop before slice `i`. */
  ghost predicate Scanned(S: set<int>, narray: nat, i: nat, twotoi: nat, a: nat, n: nat, na: nat) {
    && narray == CountIn(S, 0, MAXASIZE) && i <= MAXBITS + 1 && twotoi == Pow2(i) && a == CountIn(S, 0, Low(i))
    && BestBelow(S, i, n, na)
  }

  lemma ScanStarts(S: set<int>, narray: nat)
    requires narray == CountIn(S, 0, MAXASIZE)
    ensures Scanned(S, narray, 0, 1, 0, 0, 0)
  {
    CountRoom(S, 0, 0);
  }

  /** Slice `i` is counted, and not all keys are yet, or the loop goes on anyway. */
  lemma ScanGoesOn(S: set<int>, narray: nat, i: nat, a: nat, n: nat, na: nat)
    requires narray == CountIn(S, 0, MAXASIZE) && i <= MAXBITS && a == CountIn(S, 0, Pow2(i)) && BestBelow(S, i + 1, n, na)
    ensures Scanned(S, narray, i + 1, Pow2(i) * 2, a, n, na)
  {
  }

  /** One turn of the loop: slice `i` is counted, and its size is taken if more than half of it would be used. */
  method AddSlice(nums: array<int>, i: nat, twotoi: nat, a: nat, n: nat, na: nat, ghost narray: nat, ghost S: set<int>)
    returns (a': nat, n': nat, na': nat)
    requires Counts(nums[..], S) && Scanned(S, narray, i, twotoi, a, n, na) && twotoi / 2 < narray
    ensures i <= MAXBITS && a' == CountIn(S, 0, Pow2(i)) && BestBelow(S, i + 1, n', na')
  {
    Turn(nums[..], S, i, n, na, narray);
    a', n', na' := a, n, na;
    if nums[i] > 0 {
      a' := a' + nums[i];
      if a' > twotoi / 2 {
        n' := twotoi;
        na' := a';
      }
    }
  }

  /** computesizes, with the size in place of `*narray`: `narray` counts the keys that fit an array. */
  method ComputeSizes(nums: array<int>, narray: nat, ghost S: set<int>) returns (n: nat, na: nat)
    requires Counts(nums[..], S) && narray == CountIn(S, 0, MAXASIZE)
    ensures BestSize(S, n, na)
  {
    n, na := 0, 0;
    var i: nat, twotoi: nat, a: nat := 0, 1, 0;
    ScanStarts(S, narray);
    while twotoi / 2 < narray
      invariant Scanned(S, narray, i, twotoi, a, n, na)
      decreases MAXBITS + 1 - i
    {
      a, n, na := AddSlice(nums, i, twotoi, a, n, na, narray, S);
      if a == narray {
        EndCounted(S, i, n, na, narray);
        return;
      }
      ScanGoesOn(S, narray, i, a, n, na);
      i := i + 1;
      twotoi := twotoi * 2;
    }
    EndLarge(S, i, n, na, narray);
  }

  lemma LargerTooLarge(S: set<int>, i: nat, narray: nat)
    requires narray == CountIn(S, 0, MAXASIZE) && Pow2(i) / 2 >= narray
    ensures forall j: nat :: i <= j <= MAXBITS ==> 2 * CountIn(S, 0, Pow2(j)) <= Pow2(j)
  {
    forall j: nat | i <= j <= MAXBITS
      ensures 2 * CountIn(S, 0, Pow2(j)) <= Pow2(j)
    {
      Pow2Mono(i, j);
      SliceStep(S, j);
    }
  }

  /** Once all keys are counted, a larger array could only be half full. */
  lemma LargerAreNotFull(S: set<int>, i: nat, narray: nat)
    requires i <= MAXBITS && narray == CountIn(S, 0, MAXASIZE) == CountIn(S, 0, Pow2(i))
    ensures forall j: nat :: i < j <= MAXBITS ==> 2 * CountIn(S, 0, Pow2(j)) <= Pow2(j)
  {
    CountRoom(S, 0, Pow2(i));
    forall j: nat | i < j <= MAXBITS
      ensures 2 * CountIn(S, 0, Pow2(j)) <= Pow2(j)
    {
      Pow2Mono(i + 1, j);
      SliceStep(S, j);
    }
  }
}

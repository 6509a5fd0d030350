/** A value that may be missing. */
module Wrappers {
  datatype Option<T> = None | Some(value: T)
}

/** Numbers of the C code, and addresses. */
module Numbers {
  type Byte = x: int | 0 <= x < 256

  const MAX_INT := 0x7FFF_FFFF - 2

  predicate IsDigit(c: int) {
    48 <= c <= 57
  }

  function Pow2(i: nat): (p: nat)
    ensures p >= 1
  {
    if i == 0 then 1 else 2 * Pow2(i - 1)
  }

  /** lmod: the bucket of a hash, which is the remainder. */
  function Lmod(h: nat, size: nat): (b: nat)
    requires size > 0
    ensures b < size
  {
    if h < size then h else Lmod(h - size, size)
  }

  lemma {:induction false} LmodIsRemainder(h: nat, size: nat)
    requires size > 0
    ensures Lmod(h, size) == h % size
  {
    if h >= size {
      LmodIsRemainder(h - size, size);
      SameRemainder(size, h / size, h % size, (h - size) / size, (h - size) % size);
    }
  }

  lemma SameRemainder(size: nat, q: int, r: nat, p: int, s: nat)
    requires r < size && s < size && size * q + r == size * p + s + size
    ensures r == s
  {
    assert size * (q - p - 1) == size * q - size * p - size == s - r;
    Multiple(size, q - p - 1);
  }

  lemma Multiple(size: nat, d: int)
    ensures d >= 1 ==> size * d >= size
    ensures d <= -1 ==> size * d <= 0 - size
  {
  }

  /** A number above those in use. */
  ghost function Above(keys: set<nat>): (n: nat)
    ensures forall k :: k in keys ==> k < n
  {
    if keys == {} then 0
    else
      var x :| x in keys;
      var n := Above(keys - {x});
      assert forall k :: k in keys ==> k == x || k in keys - {x};
      if x < n then n else x + 1
  }

  /** A new address. */
  function NewName(used: set<nat>, from: nat): (u: nat)
    ensures u !in used && u >= from
    decreases Above(used) - from
  {
    if from in used then NewName(used, from + 1) else from
  }
}

/** Lists threaded through links: `NULL` ends them. */
module Lists {
  const NULL := -1

  /** The link to element `i`. */
  function Nth(list: seq<nat>, i: int): int {
    if 0 <= i < |list| then list[i] else NULL
  }

  function Without(list: seq<nat>, k: int): seq<nat>
    requires 0 <= k < |list|
  {
    list[..k] + list[k + 1..]
  }

  lemma WithoutAt(list: seq<nat>, k: int, j: int)
    requires 0 <= k < |list|
    ensures |Without(list, k)| == |list| - 1 && Nth(Without(list, k), j) == Nth(list, if j < k then j else j + 1)
  {
  }
}

/** The table of all strings: lstring.c, and its part of a collection in lgc.c. */
module Strings {
  import opened Numbers
  import opened Lists

  type Text = seq<bv8>

  /** A string is white of one kind or the other, or it has been marked. */
  datatype Mark = White(kind: bool) | Gray

  datatype TString = TString(text: Text, hash: nat, next: int, mark: Mark, fixed: bool)

  // ---------- the hash ----------

  /** The hash takes in the bytes at distance `step` from `l1` down. */
  function HashFrom(s: Text, l1: nat, step: nat, h: bv32): bv32
    requires l1 <= |s| && step > 0
  {
    if l1 >= step then HashFrom(s, l1 - step, step, h ^ ((h << 5) + (h >> 2) + (s[l1 - 1] as bv32))) else h
  }

  function Hash(s: Text): nat {
    HashFrom(s, |s|, |s| / 32 + 1, (|s| % 0x1_0000_0000) as bv32) as nat
  }

  // ---------- buckets ----------

  predicate Differ(list: seq<nat>, i: int, j: int) {
    0 <= i < |list| && 0 <= j < |list| && list[i] != list[j]
  }

  predicate NodeAt(str: map<nat, TString>, list: seq<nat>, b: nat, size: nat, i: int)
    requires size > 0
  {
    0 <= i < |list| && list[i] in str && Lmod(str[list[i]].hash, size) == b && str[list[i]].next == Nth(list, i + 1)
  }

  /** Bucket `b` of `size` is a list without repetitions. */
  ghost predicate Bucket(str: map<nat, TString>, head: int, list: seq<nat>, b: nat, size: nat)
    requires size > 0
  {
    && head == Nth(list, 0)
    && (forall i {:trigger NodeAt(str, list, b, size, i)} :: 0 <= i < |list| ==> NodeAt(str, list, b, size, i))
    && (forall i, j {:trigger Differ(list, i, j)} :: 0 <= i < j < |list| ==> Differ(list, i, j))
  }

  /** The buckets hold exactly the strings in `M`, each in the bucket of its hash. */
  ghost predicate Buckets(str: map<nat, TString>, heads: seq<int>, chains: seq<seq<nat>>, M: set<nat>) {
    && |heads| == |chains| > 0 && M <= str.Keys
    && (forall b {:trigger Bucket(str, heads[b], chains[b], b, |chains|)} :: 0 <= b < |chains| ==> Bucket(str, heads[b], chains[b], b, |chains|))
    && (forall b, u :: 0 <= b < |chains| && u in chains[b] ==> u in M)
    && (forall u :: u in M ==> u in chains[Lmod(str[u].hash, |chains|)])
  }

  predicate Hashed(t: TString) {
    t.hash == Hash(t.text)
  }

  /** No two strings have the same text. */
  ghost predicate Distinct(str: map<nat, TString>) {
    && (forall u {:trigger Hashed(str[u])} :: u in str ==> Hashed(str[u]))
    && (forall u, w :: u in str && w in str && str[u].text == str[w].text ==> u == w)
  }

  /** Only what does not matter for the buckets differs. */
  ghost predicate SameLinks(str: map<nat, TString>, str': map<nat, TString>, M: set<nat>) {
    forall u :: u in M ==> u in str && u in str' && str'[u].hash == str[u].hash && str'[u].next == str[u].next
  }

  lemma BucketKept(str: map<nat, TString>, str': map<nat, TString>, head: int, list: seq<nat>, b: nat, size: nat, M: set<nat>)
    requires size > 0 && Bucket(str, head, list, b, size) && SameLinks(str, str', M) && forall u :: u in list ==> u in M
    ensures Bucket(str', head, list, b, size)
  {
    forall i | 0 <= i < |list|
      ensures NodeAt(str', list, b, size, i)
    {
      assert NodeAt(str, list, b, size, i) && list[i] in M;
    }
  }

  lemma BucketsKept(str: map<nat, TString>, str': map<nat, TString>, heads: seq<int>, chains: seq<seq<nat>>, M: set<nat>)
    requires Buckets(str, heads, chains, M) && SameLinks(str, str', M)
    ensures Buckets(str', heads, chains, M)
  {
    forall b | 0 <= b < |chains|
      ensures Bucket(str', heads[b], chains[b], b, |chains|)
    {
      assert Bucket(str, heads[b], chains[b], b, |chains|);
      BucketKept(str, str', heads[b], chains[b], b, |chains|, M);
    }
  }

  // ---------- a string comes into its bucket ----------

  lemma PushBucket(str: map<nat, TString>, str': map<nat, TString>, head: int, list: seq<nat>, b: nat, size: nat, u: nat)
    requires size > 0 && Bucket(str, head, list, b, size) && u !in list
    requires u in str' && Lmod(str'[u].hash, size) == b && str'[u].next == head
    requires forall x :: x in list ==> x in str && x in str' && str'[x].hash == str[x].hash && str'[x].next == str[x].next
    ensures Bucket(str', u, [u] + list, b, size)
  {
    var list' := [u] + list;
    forall i | 0 <= i < |list'|
      ensures NodeAt(str', list', b, size, i)
    {
      assert i > 0 ==> NodeAt(str, list, b, size, i - 1) && list[i - 1] in list;
    }
    forall i, j | 0 <= i < j < |list'|
      ensures Differ(list', i, j)
    {
      assert i > 0 ==> Differ(list, i - 1, j - 1);
    }
  }

  lemma Push(str: map<nat, TString>, str': map<nat, TString>, heads: seq<int>, chains: seq<seq<nat>>, M: set<nat>, u: nat, b: nat)
    requires Buckets(str, heads, chains, M) && SameLinks(str, str', M) && u !in M
    requires u in str' && b < |heads| && Lmod(str'[u].hash, |chains|) == b && str'[u].next == heads[b]
    ensures Buckets(str', heads[b := u], chains[b := [u] + chains[b]], M + {u})
  {
    assert Bucket(str, heads[b], chains[b], b, |chains|);
    PushBucket(str, str', heads[b], chains[b], b, |chains|, u);
    forall c | 0 <= c < |chains| && c != b
      ensures Bucket(str', heads[c], chains[c], c, |chains|)
    {
      assert Bucket(str, heads[c], chains[c], c, |chains|);
      BucketKept(str, str', heads[c], chains[c], c, |chains|, M);
    }
  }

  // ---------- a string leaves its bucket ----------

  lemma WithoutHas(list: seq<nat>, k: int)
    requires 0 <= k < |list| && forall i, j {:trigger Differ(list, i, j)} :: 0 <= i < j < |list| ==> Differ(list, i, j)
    ensures forall x :: x in Without(list, k) <==> x in list && x != list[k]
  {
    assert list == list[..k] + [list[k]] + list[k + 1..];
    forall x | x in Without(list, k)
      ensures x != list[k]
    {
      var j :| 0 <= j < |Without(list, k)| && Without(list, k)[j] == x;
      WithoutAt(list, k, j);
      assert if j < k then Differ(list, j, k) else Differ(list, k, j + 1);
    }
  }

  lemma EraseBucket(str: map<nat, TString>, str': map<nat, TString>, head: int, list: seq<nat>, b: nat, size: nat, k: int)
    requires size > 0 && Bucket(str, head, list, b, size) && 0 <= k < |list|
    requires forall x :: x in list && x != list[k] ==> x in str && x in str' && str'[x].hash == str[x].hash
    requires forall j :: 0 <= j < |list| && j != k && j != k - 1 ==> list[j] in str && list[j] in str' && str'[list[j]].next == str[list[j]].next
    requires list[k] in str && (k > 0 ==> list[k - 1] in str' && str'[list[k - 1]].next == str[list[k]].next)
    ensures Bucket(str', if k > 0 then head else str[list[k]].next, Without(list, k), b, size)
  {
    var list' := Without(list, k);
    assert NodeAt(str, list, b, size, k);
    WithoutAt(list, k, 0);
    forall i | 0 <= i < |list'|
      ensures NodeAt(str', list', b, size, i)
    {
      WithoutAt(list, k, i);
      WithoutAt(list, k, i + 1);
      var j := if i < k then i else i + 1;
      assert NodeAt(str, list, b, size, j) && list[j] in list && if j < k then Differ(list, j, k) else Differ(list, k, j);
    }
    forall i, j | 0 <= i < j < |list'|
      ensures Differ(list', i, j)
    {
      WithoutAt(list, k, i);
      WithoutAt(list, k, j);
      assert Differ(list, if i < k then i else i + 1, if j < k then j else j + 1);
    }
  }

  /** Element `k` of bucket `b` is gone. */
  ghost predicate Erased(str: map<nat, TString>, str': map<nat, TString>, list: seq<nat>, k: int)
    requires 0 <= k < |list|
  {
    && list[k] in str && str'.Keys == str.Keys - {list[k]}
    && (forall x :: x in str' ==> str'[x].hash == str[x].hash)
    && (forall x :: x in str' && !(k > 0 && x == list[k - 1]) ==> str'[x].next == str[x].next)
    && (k > 0 ==> list[k - 1] in str' && str'[list[k - 1]].next == str[list[k]].next)
  }

  lemma EraseThis(str: map<nat, TString>, str': map<nat, TString>, head: int, list: seq<nat>, b: nat, size: nat, k: int)
    requires size > 0 && Bucket(str, head, list, b, size) && 0 <= k < |list| && Erased(str, str', list, k)
    ensures Bucket(str', if k > 0 then head else str[list[k]].next, Without(list, k), b, size)
  {
    forall j | 0 <= j < |list|
      ensures list[j] in str && (j != k ==> list[j] != list[k]) && (k > 0 && j != k - 1 ==> list[j] != list[k - 1])
    {
      assert NodeAt(str, list, b, size, j);
      assert j != k ==> if j < k then Differ(list, j, k) else Differ(list, k, j);
      assert k > 0 && j != k - 1 ==> if j < k - 1 then Differ(list, j, k - 1) else Differ(list, k - 1, j);
    }
    EraseBucket(str, str', head, list, b, size, k);
  }

  lemma Erase(str: map<nat, TString>, str': map<nat, TString>, heads: seq<int>, chains: seq<seq<nat>>, b: nat, k: int)
    requires Buckets(str, heads, chains, str.Keys) && b < |chains| && 0 <= k < |chains[b]| && Erased(str, str', chains[b], k)
    ensures Buckets(str', if k > 0 then heads else heads[b := str[chains[b][k]].next], chains[b := Without(chains[b], k)], str'.Keys)
  {
    assert Bucket(str, heads[b], chains[b], b, |chains|);
    EraseThis(str, str', heads[b], chains[b], b, |chains|, k);
    WithoutHas(chains[b], k);
    forall c | 0 <= c < |chains| && c != b
      ensures Bucket(str', heads[c], chains[c], c, |chains|) && chains[b][k] !in chains[c]
    {
      EraseOther(str, str', heads, chains, b, c, k);
    }
  }

  /** A string is in one bucket only. */
  lemma EraseOther(str: map<nat, TString>, str': map<nat, TString>, heads: seq<int>, chains: seq<seq<nat>>, b: nat, c: nat, k: int)
    requires Buckets(str, heads, chains, str.Keys) && b < |chains| && c < |chains| && c != b && 0 <= k < |chains[b]|
    requires Erased(str, str', chains[b], k)
    ensures Bucket(str', heads[c], chains[c], c, |chains|) && chains[b][k] !in chains[c]
  {
    assert Bucket(str, heads[b], chains[b], b, |chains|) && Bucket(str, heads[c], chains[c], c, |chains|);
    forall i | 0 <= i < |chains[c]|
      ensures NodeAt(str', chains[c], c, |chains|, i) && chains[c][i] != chains[b][k]
    {
      assert NodeAt(str, chains[c], c, |chains|, i) && NodeAt(str, chains[b], b, |chains|, k);
      assert k > 0 ==> NodeAt(str, chains[b], b, |chains|, k - 1);
    }
  }

  // ---------- all strings move to new buckets ----------

  /** Only links differ. */
  ghost predicate Relinked(str: map<nat, TString>, str': map<nat, TString>) {
    str'.Keys == str.Keys && forall u :: u in str ==> str'[u] == str[u].(next := str'[u].next)
  }

  predicate IsMoved(chains: seq<seq<nat>>, moved: set<nat>, i: nat, k: nat, b: nat, j: nat)
    requires b < |chains| && j < |chains[b]|
  {
    chains[b][j] in moved <==> b < i || (b == i && j < k)
  }

  /** The buckets before `i` have been emptied, and `k` strings of bucket `i` have gone. */
  ghost predicate MovedTo(chains: seq<seq<nat>>, moved: set<nat>, i: nat, k: nat) {
    forall b: nat, j: nat {:trigger IsMoved(chains, moved, i, k, b, j)} :: b < |chains| && j < |chains[b]| ==> IsMoved(chains, moved, i, k, b, j)
  }

  lemma MoveOne(str: map<nat, TString>, heads: seq<int>, chains: seq<seq<nat>>, moved: set<nat>, i: nat, k: nat)
    requires Buckets(str, heads, chains, str.Keys) && i < |chains| && k < |chains[i]| && MovedTo(chains, moved, i, k)
    ensures chains[i][k] in str && chains[i][k] !in moved && MovedTo(chains, moved + {chains[i][k]}, i, k + 1)
    ensures str[chains[i][k]].next == Nth(chains[i], k + 1)
  {
    var u := chains[i][k];
    assert Bucket(str, heads[i], chains[i], i, |chains|) && NodeAt(str, chains[i], i, |chains|, k);
    assert IsMoved(chains, moved, i, k, i, k);
    forall b: nat, j: nat {:trigger IsMoved(chains, moved + {u}, i, k + 1, b, j)} | b < |chains| && j < |chains[b]|
      ensures IsMoved(chains, moved + {u}, i, k + 1, b, j)
    {
      assert IsMoved(chains, moved, i, k, b, j);
      assert Bucket(str, heads[b], chains[b], b, |chains|) && NodeAt(str, chains[b], b, |chains|, j);
      assert b == i && j != k ==> if j < k then Differ(chains[i], j, k) else Differ(chains[i], k, j);
    }
  }

  /** The resize at work: `moved` are in the new buckets, and the others are still linked as they were. */
  ghost predicate Moving(before: map<nat, TString>, str: map<nat, TString>, chains: seq<seq<nat>>,
                         newheads: seq<int>, newchains: seq<seq<nat>>, moved: set<nat>, i: nat, k: nat) {
    && Buckets(str, newheads, newchains, moved) && Relinked(before, str) && MovedTo(chains, moved, i, k)
    && (forall u :: u in str && u !in moved ==> str[u].next == before[u].next)
  }

  lemma RelinkOne(str: map<nat, TString>, str': map<nat, TString>, u: nat, next: int)
    requires Relinked(str, str') && u in str'
    ensures Relinked(str, str'[u := str'[u].(next := next)])
  {
  }

  lemma MoveString(before: map<nat, TString>, str: map<nat, TString>, heads: seq<int>, chains: seq<seq<nat>>,
                   newheads: seq<int>, newchains: seq<seq<nat>>, moved: set<nat>, i: nat, k: nat)
    requires Buckets(before, heads, chains, before.Keys) && Moving(before, str, chains, newheads, newchains, moved, i, k)
    requires i < |chains| && k < |chains[i]|
    ensures chains[i][k] in str && str[chains[i][k]].next == Nth(chains[i], k + 1)
    ensures var u := chains[i][k]; var b := Lmod(str[u].hash, |newheads|);
      Moving(before, str[u := str[u].(next := newheads[b])], chains, newheads[b := u], newchains[b := [u] + newchains[b]], moved + {u}, i, k + 1)
  {
    MoveOne(before, heads, chains, moved, i, k);
    var u := chains[i][k];
    var b := Lmod(str[u].hash, |newheads|);
    RelinkOne(before, str, u, newheads[b]);
    Push(str, str[u := str[u].(next := newheads[b])], newheads, newchains, moved, u, b);
  }

  lemma BucketDone(chains: seq<seq<nat>>, moved: set<nat>, i: nat)
    requires i < |chains| && MovedTo(chains, moved, i, |chains[i]|)
    ensures MovedTo(chains, moved, i + 1, 0)
  {
    forall b: nat, j: nat {:trigger IsMoved(chains, moved, i + 1, 0, b, j)} | b < |chains| && j < |chains[b]|
      ensures IsMoved(chains, moved, i + 1, 0, b, j)
    {
      assert IsMoved(chains, moved, i, |chains[i]|, b, j);
    }
  }

  lemma AllMoved(str: map<nat, TString>, heads: seq<int>, chains: seq<seq<nat>>, moved: set<nat>)
    requires Buckets(str, heads, chains, str.Keys) && MovedTo(chains, moved, |chains|, 0)
    ensures str.Keys <= moved
  {
    forall u | u in str
      ensures u in moved
    {
      var b := Lmod(str[u].hash, |chains|);
      var j: nat :| j < |chains[b]| && chains[b][j] == u;
      assert IsMoved(chains, moved, |chains|, 0, b, j);
    }
  }

  lemma NoneMoved(chains: seq<seq<nat>>)
    ensures MovedTo(chains, {}, 0, 0)
  {
  }

  lemma NoBuckets(str: map<nat, TString>, size: nat)
    requires size > 0
    ensures Buckets(str, seq(size, i => NULL), seq(size, i => []), {})
  {
    forall b | 0 <= b < size
      ensures Bucket(str, NULL, [], b, size)
    {
    }
  }
}

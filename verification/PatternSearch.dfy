/** What a pattern means: items that take positions of the subject, tried in order of preference. */
module PatternSearch {
  import opened Numbers
  import opened PatternClass

  const MAXCAPTURES := 32
  const CAP_UNFINISHED := -1
  const CAP_POSITION := -2

  /** A capture: where it starts, and its length, or one of the two marks above. */
  datatype Cap = Cap(init: nat, len: int)

  datatype Rep = One | Opt | Star | Plus | Lazy

  /** The item at a place of a pattern, and the place behind it. */
  datatype Item =
    | Done
    | Bad(msg: string)
    | Char(p: nat, ep: nat, rep: Rep, next: nat)
    | OpenCap(what: int, next: nat)
    | CloseCap(next: nat)
    | Balance(b: int, e: int, next: nat)
    | Frontier(p: nat, ec: nat, next: nat)
    | BackRef(l: int, next: nat)
    | AtEnd(next: nat)

  /** Reading one item. */
  function ItemAt(pat: seq<nat>, p: nat): (it: Item)
    ensures !it.Done? && !it.Bad? ==> p < it.next <= |pat|
    ensures it.Char? ==> it.p == p < it.ep
    ensures it.Bad? ==> it.msg != ""
    ensures it.OpenCap? ==> it.what == CAP_POSITION || it.what == CAP_UNFINISHED
  {
    var c := At(pat, p);
    if c == 0 then Done
    else if c == 40 then
      if At(pat, p + 1) == 41 then OpenCap(CAP_POSITION, p + 2) else OpenCap(CAP_UNFINISHED, p + 1)
    else if c == 41 then CloseCap(p + 1)
    else if c == ESC && At(pat, p + 1) == 98 then
      if At(pat, p + 2) == 0 || At(pat, p + 3) == 0 then Bad("unbalanced pattern")
      else Balance(At(pat, p + 2), At(pat, p + 3), p + 4)
    else if c == ESC && At(pat, p + 1) == 102 then
      if At(pat, p + 2) != OPEN then Bad("missing '[' after '%f' in pattern")
      else
        var e := ClassEndOf(pat, p + 2);
        if e.NoEnd? then Bad(e.msg) else Frontier(p + 2, e.ep - 1, e.ep)
    else if c == ESC && IsDigit(At(pat, p + 1)) then BackRef(At(pat, p + 1) - 49, p + 2)
    else if c == 36 && At(pat, p + 1) == 0 then AtEnd(p + 1)
    else
      var e := ClassEndOf(pat, p);
      if e.NoEnd? then Bad(e.msg)
      else
        match At(pat, e.ep)
        case 63 => Char(p, e.ep, Opt, e.ep + 1)
        case 42 => Char(p, e.ep, Star, e.ep + 1)
        case 43 => Char(p, e.ep, Plus, e.ep + 1)
        case 45 => Char(p, e.ep, Lazy, e.ep + 1)
        case _ => Char(p, e.ep, One, e.ep)
  }

  /** A byte of the subject; zero behind its end. */
  function Sub(src: seq<nat>, s: int): nat {
    if 0 <= s < |src| then src[s] else 0
  }

  /** How many characters in a row the item takes. */
  function Reps(pat: seq<nat>, src: seq<nat>, p: nat, ep: nat, s: nat): (n: nat)
    ensures s <= |src| ==> s + n <= |src|
    decreases |src| - s
  {
    if s < |src| && Single(src[s], pat, p, ep) then 1 + Reps(pat, src, p, ep, s + 1) else 0
  }

  /** The positions s + n, ..., s. */
  function Down(s: nat, n: nat): seq<nat> {
    if n == 0 then [s] else [s + n] + Down(s, n - 1)
  }

  /** The positions s, ..., s + n. */
  function Up(s: nat, n: nat): seq<nat>
    decreases n
  {
    if n == 0 then [s] else [s] + Up(s + 1, n - 1)
  }

  /** The end of the balanced text that goes on at `s` with `cont` open: the first place where all is closed. */
  function BalanceEnd(src: seq<nat>, b: int, e: int, s: nat, cont: nat): (r: seq<nat>)
    ensures |r| <= 1 && (r != [] ==> s < r[0] <= |src|)
    decreases |src| - s
  {
    if s >= |src| then []
    else if src[s] == e then if cont <= 1 then [s + 1] else BalanceEnd(src, b, e, s + 1, cont - 1)
    else if src[s] == b then BalanceEnd(src, b, e, s + 1, cont + 1)
    else BalanceEnd(src, b, e, s + 1, cont)
  }

  /** The captures hold text before `s`. */
  ghost predicate CapsOk(caps: seq<Cap>, s: nat) {
    forall c :: c in caps ==> c.init <= s && (c.len == CAP_UNFINISHED || c.len == CAP_POSITION || 0 <= c.len <= s - c.init)
  }

  /** The capture that a `)` closes: the last unfinished one. */
  function ToClose(caps: seq<Cap>): (l: int)
    ensures -1 <= l < |caps| && (l >= 0 ==> caps[l].len == CAP_UNFINISHED)
    ensures forall i :: l < i < |caps| ==> caps[i].len != CAP_UNFINISHED
  {
    if caps == [] then -1
    else if caps[|caps| - 1].len == CAP_UNFINISHED then |caps| - 1 else ToClose(caps[..|caps| - 1])
  }

  /** What goes wrong with an item whatever the subject is. */
  function Trouble(it: Item, caps: seq<Cap>): string {
    match it
    case Bad(msg) => msg
    case OpenCap(_, _) => if |caps| >= 32 then "too many captures" else ""
    case CloseCap(_) => if ToClose(caps) < 0 then "invalid pattern capture" else ""
    case BackRef(l, _) => if l < 0 || l >= |caps| || caps[l].len == CAP_UNFINISHED then "invalid capture index" else ""
    case _ => ""
  }

  /** The positions that an item takes `s` to, in the order in which they are tried. */
  function Cands(pat: seq<nat>, src: seq<nat>, it: Item, s: nat, caps: seq<Cap>): seq<nat>
    requires Trouble(it, caps) == "" && s <= |src|
  {
    match it
    case Char(p, ep, rep, _) =>
      var m := s < |src| && Single(src[s], pat, p, ep);
      (match rep
      case One => if m then [s + 1] else []
      case Opt => if m then [s + 1, s] else [s]
      case Star => Down(s, Reps(pat, src, p, ep, s))
      case Plus => if m then Down(s + 1, Reps(pat, src, p, ep, s + 1)) else []
      case Lazy => Up(s, Reps(pat, src, p, ep, s)))
    case Balance(b, e, _) => if Sub(src, s) != b then [] else BalanceEnd(src, b, e, s + 1, 1)
    case Frontier(p, ec, _) =>
      if !Bracket(if s == 0 then 0 else src[s - 1], pat, p, ec) && Bracket(Sub(src, s), pat, p, ec) then [s] else []
    case BackRef(l, _) => BackRefEnd(src, caps[l], s)
    case AtEnd(_) => if s == |src| then [s] else []
    case _ => [s]
  }

  /** The text of a capture again; a position capture has no text. */
  function BackRefEnd(src: seq<nat>, c: Cap, s: nat): seq<nat> {
    if 0 <= c.len && s + c.len <= |src| && c.init + c.len <= s && src[c.init..c.init + c.len] == src[s..s + c.len]
    then [s + c.len] else []
  }

  /** The captures behind an item. */
  function CapsAfter(it: Item, s: nat, caps: seq<Cap>): seq<Cap>
    requires Trouble(it, caps) == ""
  {
    match it
    case OpenCap(what, _) => caps + [Cap(s, what)]
    case CloseCap(_) => var l := ToClose(caps); caps[l := caps[l].(len := s - caps[l].init)]
    case _ => caps
  }

  // ---------- the search ----------

  /** `run` lists the positions behind each item. */
  datatype Result = Hit(e: nat, caps: seq<Cap>, run: seq<nat>) | Miss | Err(msg: string)

  function Search(pat: seq<nat>, src: seq<nat>, p: nat, s: nat, caps: seq<Cap>): Result
    decreases |pat| - p, 1, 0
  {
    var it := ItemAt(pat, p);
    if it.Done? then Hit(s, caps, [])
    else if Trouble(it, caps) != "" then Err(Trouble(it, caps))
    else if s > |src| then Miss
    else Try(pat, src, p, it.next, Cands(pat, src, it, s, caps), CapsAfter(it, s, caps))
  }

  /** The first of the positions from which the rest of the pattern matches. */
  function Try(pat: seq<nat>, src: seq<nat>, p: nat, next: nat, cands: seq<nat>, caps: seq<Cap>): Result
    requires p < next <= |pat|
    decreases |pat| - p, 0, |cands|
  {
    if cands == [] then Miss
    else
      var r := Search(pat, src, next, cands[0], caps);
      if r.Hit? then r.(run := [cands[0]] + r.run)
      else if r.Miss? then Try(pat, src, p, next, cands[1..], caps)
      else r
  }

  // ---------- matches, as the manual describes them ----------

  /** A match of the pattern from `p` on: every item takes the position before it to the one behind it. */
  ghost predicate Matches(pat: seq<nat>, src: seq<nat>, p: nat, s: nat, caps: seq<Cap>, run: seq<nat>)
    decreases |pat| - p
  {
    var it := ItemAt(pat, p);
    if it.Done? then run == []
    else
      && Trouble(it, caps) == "" && s <= |src| && run != [] && run[0] in Cands(pat, src, it, s, caps)
      && Matches(pat, src, it.next, run[0], CapsAfter(it, s, caps), run[1..])
  }

  /** Where a match ends, and with which captures. */
  ghost function EndOf(pat: seq<nat>, src: seq<nat>, p: nat, s: nat, caps: seq<Cap>, run: seq<nat>): (nat, seq<Cap>)
    requires Matches(pat, src, p, s, caps, run)
    decreases |pat| - p
  {
    var it := ItemAt(pat, p);
    if it.Done? then (s, caps) else EndOf(pat, src, it.next, run[0], CapsAfter(it, s, caps), run[1..])
  }

  /** Which of two positions an item prefers: `-` takes as little as it can, all others as much as they can. */
  predicate Prefers(it: Item, a: nat, b: nat) {
    if it.Char? && it.rep == Lazy then a < b else a > b
  }

  /** `r1` is tried before `r2`: at the first item where they part, its position is preferred. */
  ghost predicate Before(pat: seq<nat>, p: nat, r1: seq<nat>, r2: seq<nat>)
    decreases |pat| - p
  {
    var it := ItemAt(pat, p);
    !it.Done? && !it.Bad? && r1 != [] && r2 != []
    && (Prefers(it, r1[0], r2[0]) || (r1[0] == r2[0] && Before(pat, it.next, r1[1..], r2[1..])))
  }

  /** The candidates are in the order of preference. */
  ghost predicate Ordered(it: Item, cands: seq<nat>) {
    forall i, j :: 0 <= i < j < |cands| ==> Prefers(it, cands[i], cands[j])
  }

  lemma {:induction false} DownAt(s: nat, n: nat)
    ensures |Down(s, n)| == n + 1 && forall i :: 0 <= i <= n ==> Down(s, n)[i] == s + n - i
  {
    if n > 0 {
      DownAt(s, n - 1);
    }
  }

  lemma {:induction false} UpAt(s: nat, n: nat)
    ensures |Up(s, n)| == n + 1 && forall i :: 0 <= i <= n ==> Up(s, n)[i] == s + i
    decreases n
  {
    if n > 0 {
      UpAt(s + 1, n - 1);
    }
  }

  lemma DownOrdered(it: Item, s: nat, n: nat)
    requires it.Char? && it.rep != Lazy
    ensures Ordered(it, Down(s, n)) && forall x :: x in Down(s, n) ==> s <= x <= s + n
  {
    DownAt(s, n);
  }

  lemma UpOrdered(it: Item, s: nat, n: nat)
    requires it.Char? && it.rep == Lazy
    ensures Ordered(it, Up(s, n)) && forall x :: x in Up(s, n) ==> s <= x <= s + n
  {
    UpAt(s, n);
  }

  lemma PlusOrdered(pat: seq<nat>, src: seq<nat>, it: Item, s: nat, caps: seq<Cap>)
    requires it.Char? && it.rep == Plus && s <= |src|
    ensures Ordered(it, Cands(pat, src, it, s, caps))
    ensures forall x :: x in Cands(pat, src, it, s, caps) ==> s <= x <= |src|
  {
    if s < |src| && Single(src[s], pat, it.p, it.ep) {
      DownOrdered(it, s + 1, Reps(pat, src, it.p, it.ep, s + 1));
    }
  }

  lemma FewOrdered(pat: seq<nat>, src: seq<nat>, it: Item, s: nat, caps: seq<Cap>)
    requires Trouble(it, caps) == "" && s <= |src| && (it.Char? ==> it.rep == One || it.rep == Opt)
    ensures Ordered(it, Cands(pat, src, it, s, caps))
    ensures forall x :: x in Cands(pat, src, it, s, caps) ==> s <= x <= |src|
  {
  }

  /** Every item tries its positions in the order of its preference. */
  lemma CandsOrdered(pat: seq<nat>, src: seq<nat>, it: Item, s: nat, caps: seq<Cap>)
    requires Trouble(it, caps) == "" && s <= |src|
    ensures Ordered(it, Cands(pat, src, it, s, caps))
    ensures forall x :: x in Cands(pat, src, it, s, caps) ==> s <= x <= |src|
  {
    if !it.Char? || it.rep == One || it.rep == Opt {
      FewOrdered(pat, src, it, s, caps);
    } else if it.rep == Plus {
      PlusOrdered(pat, src, it, s, caps);
    } else if it.rep == Star {
      DownOrdered(it, s, Reps(pat, src, it.p, it.ep, s));
      assert Cands(pat, src, it, s, caps) == Down(s, Reps(pat, src, it.p, it.ep, s));
    } else {
      UpOrdered(it, s, Reps(pat, src, it.p, it.ep, s));
      assert Cands(pat, src, it, s, caps) == Up(s, Reps(pat, src, it.p, it.ep, s));
    }
  }

  /** What the repetitions of a class allow: any number of characters of the class in a row. */
  lemma {:induction false} RepsAre(pat: seq<nat>, src: seq<nat>, p: nat, ep: nat, s: nat, x: nat)
    requires s <= |src|
    ensures s <= x <= s + Reps(pat, src, p, ep, s) <==>
      s <= x <= |src| && forall i :: s <= i < x ==> Single(src[i], pat, p, ep)
    decreases |src| - s
  {
    if s < |src| && Single(src[s], pat, p, ep) {
      RepsAre(pat, src, p, ep, s + 1, x);
    }
  }

  /** How many characters a repetition mark allows. */
  predicate Allows(rep: Rep, n: int) {
    match rep
    case One => n == 1
    case Opt => 0 <= n <= 1
    case Plus => n >= 1
    case _ => n >= 0
  }

  /** The positions of a class with its repetition mark, in whichever order they are tried. */
  lemma RepCands(pat: seq<nat>, src: seq<nat>, it: Item, s: nat, caps: seq<Cap>, x: nat)
    requires it.Char? && s <= |src|
    ensures x in Cands(pat, src, it, s, caps) <==>
      s <= x <= |src| && Allows(it.rep, x - s) && forall i :: s <= i < x ==> Single(src[i], pat, it.p, it.ep)
  {
    if it.rep == Star || it.rep == Lazy {
      ManyCands(pat, src, it, s, caps, x);
    } else if it.rep == Plus && s < |src| && Single(src[s], pat, it.p, it.ep) {
      ManyCands(pat, src, it.(rep := Star), s + 1, caps, x);
    }
  }

  lemma ManyCands(pat: seq<nat>, src: seq<nat>, it: Item, s: nat, caps: seq<Cap>, x: nat)
    requires it.Char? && s <= |src| && (it.rep == Star || it.rep == Lazy)
    ensures x in Cands(pat, src, it, s, caps) <==>
      s <= x <= |src| && forall i :: s <= i < x ==> Single(src[i], pat, it.p, it.ep)
  {
    var n := Reps(pat, src, it.p, it.ep, s);
    RepsAre(pat, src, it.p, it.ep, s, x);
    DownAt(s, n);
    UpAt(s, n);
    if s <= x <= s + n {
      assert Down(s, n)[s + n - x] == x && Up(s, n)[x - s] == x;
    }
  }

  /** How often `c` occurs in src[s..x]. */
  function Count(src: seq<nat>, c: int, s: nat, x: nat): nat
    requires x <= |src|
    decreases x - s
  {
    if s >= x then 0 else (if src[s] == c then 1 else 0) + Count(src, c, s + 1, x)
  }

  /** How many delimiters are open at `x`, if `cont` are at `s`. */
  function OpenAt(src: seq<nat>, b: int, e: int, s: nat, cont: int, x: nat): int
    requires x <= |src|
  {
    cont + Count(src, b, s, x) - Count(src, e, s, x)
  }

  /** `x` is the first place behind `s` where none is open. */
  predicate FirstClosed(src: seq<nat>, b: int, e: int, s: nat, cont: int, x: nat) {
    s < x <= |src| && OpenAt(src, b, e, s, cont, x) == 0 && forall y :: s < y < x ==> OpenAt(src, b, e, s, cont, y) != 0
  }

  /** `%b` ends at the first place where as many are closed as have been opened. */
  lemma BalanceMeans(src: seq<nat>, b: int, e: int, s: nat, x: nat)
    requires s < |src| && src[s] == b && b != e
    ensures BalanceEnd(src, b, e, s + 1, 1) == [x] <==> FirstClosed(src, b, e, s, 0, x)
  {
    BalanceFrom(src, b, e, s + 1, 1, x);
    FirstStep(src, b, e, s, 0, x);
  }

  lemma FirstStep(src: seq<nat>, b: int, e: int, s: nat, cont: int, x: nat)
    requires s < |src| && b != e
    ensures var next := cont + (if src[s] == b then 1 else 0) - (if src[s] == e then 1 else 0);
      FirstClosed(src, b, e, s, cont, x) <==> if next == 0 then x == s + 1 else x > s + 1 && FirstClosed(src, b, e, s + 1, next, x)
  {
    var next := cont + (if src[s] == b then 1 else 0) - (if src[s] == e then 1 else 0);
    forall y | s < y <= |src|
      ensures OpenAt(src, b, e, s, cont, y) == OpenAt(src, b, e, s + 1, next, y)
    {
    }
    assert OpenAt(src, b, e, s + 1, next, s + 1) == next == OpenAt(src, b, e, s, cont, s + 1);
    if FirstClosed(src, b, e, s, cont, x) && next != 0 {
      var s1: nat := s + 1;
      forall y | s1 < y < x
        ensures OpenAt(src, b, e, s1, next, y) != 0
      {
        assert OpenAt(src, b, e, s, cont, y) != 0;
      }
    }
  }

  lemma {:induction false} BalanceFrom(src: seq<nat>, b: int, e: int, s: nat, cont: nat, x: nat)
    requires s <= |src| && b != e && cont > 0
    ensures BalanceEnd(src, b, e, s, cont) == [x] <==> FirstClosed(src, b, e, s, cont, x)
    decreases |src| - s
  {
    if s < |src| {
      FirstStep(src, b, e, s, cont, x);
      if src[s] != e || cont > 1 {
        BalanceFrom(src, b, e, s + 1, cont + (if src[s] == b then 1 else 0) - (if src[s] == e then 1 else 0), x);
      }
    }
  }

  /** When both delimiters are the same, the text ends behind the next one. */
  lemma {:induction false} BalanceOfOne(src: seq<nat>, b: int, s: nat, x: nat)
    requires s <= |src|
    ensures BalanceEnd(src, b, b, s, 1) == [x] <==> s < x <= |src| && src[x - 1] == b && forall y :: s <= y < x - 1 ==> src[y] != b
    decreases |src| - s
  {
    if s < |src| && src[s] != b {
      BalanceOfOne(src, b, s + 1, x);
    }
  }

  // ---------- the search finds the preferred match ----------

  /** The best match of all, or that there is none. */
  ghost predicate Best(pat: seq<nat>, src: seq<nat>, p: nat, s: nat, caps: seq<Cap>, r: Result) {
    && (r.Hit? ==>
          && Matches(pat, src, p, s, caps, r.run) && EndOf(pat, src, p, s, caps, r.run) == (r.e, r.caps)
          && forall run :: Matches(pat, src, p, s, caps, run) ==> run == r.run || Before(pat, p, r.run, run))
    && (r.Miss? ==> forall run :: !Matches(pat, src, p, s, caps, run))
  }

  /** The same for the choice of one item among `cands`. */
  ghost predicate BestOf(pat: seq<nat>, src: seq<nat>, p: nat, next: nat, cands: seq<nat>, caps: seq<Cap>, r: Result) {
    && (r.Hit? ==>
          && r.run != [] && r.run[0] in cands && Matches(pat, src, next, r.run[0], caps, r.run[1..])
          && EndOf(pat, src, next, r.run[0], caps, r.run[1..]) == (r.e, r.caps)
          && forall x, rest :: x in cands && Matches(pat, src, next, x, caps, rest) ==>
               [x] + rest == r.run || Before(pat, p, r.run, [x] + rest))
    && (r.Miss? ==> forall x, rest :: x in cands ==> !Matches(pat, src, next, x, caps, rest))
  }

  lemma {:induction false} SearchBest(pat: seq<nat>, src: seq<nat>, p: nat, s: nat, caps: seq<Cap>)
    ensures Best(pat, src, p, s, caps, Search(pat, src, p, s, caps))
    decreases |pat| - p, 1, 0
  {
    var it := ItemAt(pat, p);
    if !it.Done? && Trouble(it, caps) == "" && s <= |src| {
      var cands, caps' := Cands(pat, src, it, s, caps), CapsAfter(it, s, caps);
      CandsOrdered(pat, src, it, s, caps);
      TryBest(pat, src, p, it.next, cands, caps');
      var r := Try(pat, src, p, it.next, cands, caps');
      forall run | Matches(pat, src, p, s, caps, run)
        ensures !r.Miss? && (r.Hit? ==> run == r.run || Before(pat, p, r.run, run))
      {
        assert run == [run[0]] + run[1..] && run[0] in cands && Matches(pat, src, it.next, run[0], caps', run[1..]);
      }
    }
  }

  lemma {:induction false} TryBest(pat: seq<nat>, src: seq<nat>, p: nat, next: nat, cands: seq<nat>, caps: seq<Cap>)
    requires p < next <= |pat| && !ItemAt(pat, p).Done? && !ItemAt(pat, p).Bad? && ItemAt(pat, p).next == next
    requires Ordered(ItemAt(pat, p), cands)
    ensures BestOf(pat, src, p, next, cands, caps, Try(pat, src, p, next, cands, caps))
    decreases |pat| - p, 0, |cands|
  {
    if cands != [] {
      var x := cands[0];
      SearchBest(pat, src, next, x, caps);
      var r := Search(pat, src, next, x, caps);
      var all := Try(pat, src, p, next, cands, caps);
      if r.Hit? {
        assert all.run[0] == x && all.run[1..] == r.run;
        forall y, rest | y in cands && Matches(pat, src, next, y, caps, rest)
          ensures [y] + rest == all.run || Before(pat, p, all.run, [y] + rest)
        {
          assert ([y] + rest)[0] == y && ([y] + rest)[1..] == rest;
          if y != x {
            var j :| 0 <= j < |cands| && cands[j] == y;
            assert Prefers(ItemAt(pat, p), cands[0], cands[j]);
          }
        }
      } else if r.Miss? {
        TryBest(pat, src, p, next, cands[1..], caps);
        assert forall y :: y in cands ==> y == x || y in cands[1..];
      }
    }
  }

  // ---------- well-formed patterns raise no errors ----------

  /** Which captures are open. */
  function Shape(caps: seq<Cap>): seq<bool> {
    seq(|caps|, i requires 0 <= i < |caps| => caps[i].len == CAP_UNFINISHED)
  }

  function LastOpen(shape: seq<bool>): (l: int)
    ensures -1 <= l < |shape|
  {
    if shape == [] then -1 else if shape[|shape| - 1] then |shape| - 1 else LastOpen(shape[..|shape| - 1])
  }

  /** What can be checked of a pattern without a subject: items, capture numbers, parentheses. */
  predicate WellFormed(pat: seq<nat>, p: nat, shape: seq<bool>)
    decreases |pat| - p
  {
    var it := ItemAt(pat, p);
    match it
    case Done => true
    case Bad(_) => false
    case OpenCap(what, next) => |shape| < 32 && WellFormed(pat, next, shape + [what == CAP_UNFINISHED])
    case CloseCap(next) => LastOpen(shape) >= 0 && WellFormed(pat, next, shape[LastOpen(shape) := false])
    case BackRef(l, next) => 0 <= l < |shape| && !shape[l] && WellFormed(pat, next, shape)
    case _ => WellFormed(pat, it.next, shape)
  }

  lemma {:induction false} LastOpenCap(caps: seq<Cap>)
    ensures LastOpen(Shape(caps)) == ToClose(caps)
  {
    if caps != [] {
      assert Shape(caps)[..|caps| - 1] == Shape(caps[..|caps| - 1]);
      LastOpenCap(caps[..|caps| - 1]);
    }
  }

  /** The captures behind an item still hold text before the position. */
  lemma CapsAfterOk(pat: seq<nat>, src: seq<nat>, it: Item, s: nat, caps: seq<Cap>, x: nat)
    requires CapsOk(caps, s) && s <= x && Trouble(it, caps) == "" && (it.OpenCap? ==> it.what == CAP_POSITION || it.what == CAP_UNFINISHED)
    ensures CapsOk(CapsAfter(it, s, caps), x)
  {
  }

  lemma {:induction false} NoErrors(pat: seq<nat>, src: seq<nat>, p: nat, s: nat, caps: seq<Cap>)
    requires WellFormed(pat, p, Shape(caps)) && CapsOk(caps, s)
    ensures !Search(pat, src, p, s, caps).Err?
    decreases |pat| - p, 1, 0
  {
    var it := ItemAt(pat, p);
    LastOpenCap(caps);
    if !it.Done? && s <= |src| {
      var caps' := CapsAfter(it, s, caps);
      assert WellFormed(pat, it.next, Shape(caps')) by {
        match it
        case OpenCap(what, next) => assert Shape(caps') == Shape(caps) + [what == CAP_UNFINISHED];
        case CloseCap(next) =>
          var l := ToClose(caps);
          assert caps[l] in caps;
          assert Shape(caps') == Shape(caps)[l := false];
        case _ =>
      }
      CandsOrdered(pat, src, it, s, caps);
      forall x | x in Cands(pat, src, it, s, caps)
        ensures CapsOk(caps', x)
      {
        CapsAfterOk(pat, src, it, s, caps, x);
      }
      TryNoErrors(pat, src, p, it.next, Cands(pat, src, it, s, caps), caps');
    }
  }

  lemma {:induction false} TryNoErrors(pat: seq<nat>, src: seq<nat>, p: nat, next: nat, cands: seq<nat>, caps: seq<Cap>)
    requires p < next <= |pat| && WellFormed(pat, next, Shape(caps)) && forall x :: x in cands ==> CapsOk(caps, x)
    ensures !Try(pat, src, p, next, cands, caps).Err?
    decreases |pat| - p, 0, |cands|
  {
    if cands != [] {
      NoErrors(pat, src, next, cands[0], caps);
      TryNoErrors(pat, src, p, next, cands[1..], caps);
    }
  }
}

/** What patterns take, in plain terms: the letters behind `%`, sets, and whole patterns of one item or of plain text. */
module PatternLaws {
  import opened PatternClass
  import opened PatternSearch

  // ---------- class letters ----------

  /** The bytes that each class letter of the manual stands for. */
  lemma ClassLetters(c: nat)
    ensures MatchClass(c, 'a' as int) <==> 65 <= c <= 90 || 97 <= c <= 122
    ensures MatchClass(c, 'c' as int) <==> c <= 31 || c == 127
    ensures MatchClass(c, 'd' as int) <==> 48 <= c <= 57
    ensures MatchClass(c, 'l' as int) <==> 97 <= c <= 122
    ensures MatchClass(c, 'p' as int) <==> 33 <= c <= 47 || 58 <= c <= 64 || 91 <= c <= 96 || 123 <= c <= 126
    ensures MatchClass(c, 's' as int) <==> 9 <= c <= 13 || c == 32
    ensures MatchClass(c, 'u' as int) <==> 65 <= c <= 90
    ensures MatchClass(c, 'w' as int) <==> 48 <= c <= 57 || 65 <= c <= 90 || 97 <= c <= 122
    ensures MatchClass(c, 'x' as int) <==> 48 <= c <= 57 || 65 <= c <= 70 || 97 <= c <= 102
    ensures MatchClass(c, 'z' as int) <==> c == 0
  {
  }

  /** Every other character behind `%` stands for itself, and the upper-case letters for the complements. */
  lemma OtherLetters(c: nat, cl: nat)
    requires cl < 256
    ensures (cl as char) !in "acdlpsuwxzACDLPSUWXZ" ==> (MatchClass(c, cl) <==> c == cl)
    ensures (cl as char) in "ACDLPSUWXZ" ==> (MatchClass(c, cl) <==> !MatchClass(c, cl + 32))
  {
    if (cl as char) in "ACDLPSUWXZ" {
      Complement(c, cl + 32);
    }
    assert forall k :: 0 <= k < 20 ==> "acdlpsuwxzACDLPSUWXZ"[k] in "acdlpsuwxzACDLPSUWXZ";
  }

  // ---------- sets ----------

  /** An element of a set: a character, a range, or a class or escaped character. */
  datatype Elem = Just(x: nat) | Range(x: nat, y: nat) | Class(cl: nat)

  /** Characters that mean nothing special in a set. */
  predicate Plain(x: nat) {
    x != 0 && x != '%' as int && x != '-' as int && x != ']' as int && x != '^' as int
  }

  /** The element is written at `q`. */
  predicate WrittenAt(pat: seq<nat>, q: nat, elem: Elem) {
    match elem
    case Just(x) => Plain(x) && At(pat, q) == x
    case Range(x, y) => Plain(x) && Plain(y) && At(pat, q) == x && At(pat, q + 1) == '-' as int && At(pat, q + 2) == y
    case Class(cl) => cl != 0 && At(pat, q) == '%' as int && At(pat, q + 1) == cl
  }

  function Width(elem: Elem): nat {
    match elem
    case Just(_) => 1
    case Range(_, _) => 3
    case Class(_) => 2
  }

  /** The elements one after the other, then the `]` at `ec`. */
  predicate ElemsAt(pat: seq<nat>, q: nat, elems: seq<Elem>, ec: nat)
    decreases |elems|
  {
    if elems == [] then ec == q && At(pat, q) == ']' as int
    else WrittenAt(pat, q, elems[0]) && ElemsAt(pat, q + Width(elems[0]), elems[1..], ec)
  }

  /** A set: `^` for the complement, then a `]` that belongs to the set, then the elements. */
  predicate SetAt(pat: seq<nat>, p: nat, complement: bool, bracket: bool, elems: seq<Elem>, ec: nat) {
    var q := if complement then p + 2 else p + 1;
    && At(pat, p) == '[' as int && (complement ==> At(pat, p + 1) == '^' as int)
    && (if bracket then At(pat, q) == ']' as int && ElemsAt(pat, q + 1, elems, ec) else elems != [] && ElemsAt(pat, q, elems, ec))
  }

  /** What an element takes. */
  predicate Holds(elem: Elem, c: nat) {
    match elem
    case Just(x) => c == x
    case Range(x, y) => x <= c <= y
    case Class(cl) => MatchClass(c, cl)
  }

  /** The union of the elements. */
  ghost predicate Union(elems: seq<Elem>, c: nat) {
    exists i :: 0 <= i < |elems| && Holds(elems[i], c)
  }

  lemma UnionStep(elems: seq<Elem>, c: nat)
    requires elems != []
    ensures Union(elems, c) <==> Holds(elems[0], c) || Union(elems[1..], c)
  {
    if i :| 0 <= i < |elems[1..]| && Holds(elems[1..][i], c) {
      assert Holds(elems[i + 1], c);
    }
    if i :| 0 <= i < |elems| && Holds(elems[i], c) && i > 0 {
      assert Holds(elems[1..][i - 1], c);
    }
  }

  lemma {:induction false} ElemsStart(pat: seq<nat>, q: nat, elems: seq<Elem>, ec: nat)
    requires ElemsAt(pat, q, elems, ec)
    ensures q <= ec && At(pat, q) != 0 && At(pat, q) != 45 && At(pat, q) != 94 && (At(pat, q) == 93 <==> elems == [])
    decreases |elems|
  {
    if elems != [] {
      ElemsStart(pat, q + Width(elems[0]), elems[1..], ec);
    }
  }

  /** The end of a set, and its members, seen from one element earlier. */
  lemma ElemEnd(pat: seq<nat>, q: nat, elem: Elem)
    requires WrittenAt(pat, q, elem)
    ensures var q1 := q + Width(elem); SetEnd(pat, q) == if At(pat, q1) == 93 then Ends(q1 + 1) else SetEnd(pat, q1)
  {
    if elem.Range? {
      assert SetEnd(pat, q) == SetEnd(pat, q + 1) == SetEnd(pat, q + 2);
    }
  }

  lemma ElemHolds(c: nat, pat: seq<nat>, q: nat, elem: Elem, ec: nat)
    requires WrittenAt(pat, q, elem) && q + Width(elem) <= ec && At(pat, q + Width(elem)) != 45
    ensures InSet(c, pat, q, ec) <==> Holds(elem, c) || InSet(c, pat, q + Width(elem), ec)
  {
  }

  lemma {:induction false} ElemsEnd(pat: seq<nat>, q: nat, elems: seq<Elem>, ec: nat)
    requires elems != [] && ElemsAt(pat, q, elems, ec)
    ensures SetEnd(pat, q) == Ends(ec + 1)
    decreases |elems|
  {
    ElemEnd(pat, q, elems[0]);
    ElemsStart(pat, q + Width(elems[0]), elems[1..], ec);
    if elems[1..] != [] {
      ElemsEnd(pat, q + Width(elems[0]), elems[1..], ec);
    }
  }

  lemma {:induction false} ElemsHold(c: nat, pat: seq<nat>, q: nat, elems: seq<Elem>, ec: nat)
    requires ElemsAt(pat, q, elems, ec)
    ensures InSet(c, pat, q, ec) <==> Union(elems, c)
    decreases |elems|
  {
    if elems != [] {
      var q1 := q + Width(elems[0]);
      ElemsStart(pat, q1, elems[1..], ec);
      ElemHolds(c, pat, q, elems[0], ec);
      ElemsHold(c, pat, q1, elems[1..], ec);
      UnionStep(elems, c);
    }
  }

  /** A set is the union of its elements, with `^` the complement of that; it ends behind its `]`. */
  lemma SetMeans(c: nat, pat: seq<nat>, p: nat, complement: bool, bracket: bool, elems: seq<Elem>, ec: nat)
    requires SetAt(pat, p, complement, bracket, elems, ec)
    ensures ClassEndOf(pat, p) == Ends(ec + 1)
    ensures Single(c, pat, p, ec + 1) <==> (complement != ((bracket && c == ']' as int) || Union(elems, c)))
  {
    var q := if complement then p + 2 else p + 1;
    var q1 := if bracket then q + 1 else q;
    ElemsStart(pat, q1, elems, ec);
    ElemsHold(c, pat, q1, elems, ec);
    if elems != [] {
      ElemsEnd(pat, q1, elems, ec);
    }
    assert InSet(c, pat, q, ec) <==> (bracket && c == 93) || InSet(c, pat, q1, ec);
  }

  /** `[^]a-z%d]` takes every byte but `]`, a to z, and 0 to 9. */
  lemma SampleSet(c: nat)
    ensures var pat: seq<nat> := [91, 94, 93, 97, 45, 122, 37, 100, 93];
      ClassEndOf(pat, 0) == Ends(9) && (Single(c, pat, 0, 9) <==> !(c == 93 || 97 <= c <= 122 || 48 <= c <= 57))
  {
    var pat: seq<nat> := [91, 94, 93, 97, 45, 122, 37, 100, 93];
    var elems := [Range(97, 122), Class(100)];
    assert elems[1..] == [Class(100)] && elems[1..][1..] == [];
    assert ElemsAt(pat, 8, elems[1..][1..], 8) && ElemsAt(pat, 6, elems[1..], 8) && ElemsAt(pat, 3, elems, 8);
    SetMeans(c, pat, 0, true, true, elems, 8);
    UnionStep(elems, c);
    UnionStep(elems[1..], c);
    ClassLetters(c);
  }

  // ---------- patterns of one item ----------

  /** The whole pattern is one class or character, with or without a repetition mark. */
  predicate OneItem(pat: seq<nat>, p: nat) {
    ItemAt(pat, p).Char? && At(pat, ItemAt(pat, p).next) == 0
  }

  /** The item takes the subject from `s` to `e`. */
  ghost predicate TakesTo(pat: seq<nat>, src: seq<nat>, it: Item, s: nat, e: nat)
    requires it.Char?
  {
    s <= e <= |src| && Allows(it.rep, e - s) && forall i :: s <= i < e ==> Single(src[i], pat, it.p, it.ep)
  }

  lemma OneItemMatches(pat: seq<nat>, src: seq<nat>, p: nat, s: nat, run: seq<nat>)
    requires OneItem(pat, p) && s <= |src|
    ensures Matches(pat, src, p, s, [], run) <==> |run| == 1 && TakesTo(pat, src, ItemAt(pat, p), s, run[0])
    ensures Matches(pat, src, p, s, [], run) ==> EndOf(pat, src, p, s, [], run) == (run[0], [])
  {
    var it := ItemAt(pat, p);
    if run != [] {
      RepCands(pat, src, it, s, [], run[0]);
      assert Matches(pat, src, it.next, run[0], [], run[1..]) <==> run[1..] == [];
    }
  }

  /** Where the search must end: at the leftmost place where the item takes anything, behind as much as it can
      take, or as little with the mark `-`. */
  ghost predicate FirstTaken(pat: seq<nat>, src: seq<nat>, it: Item, init: nat, start: nat, e: nat)
    requires it.Char?
  {
    && init <= start && TakesTo(pat, src, it, start, e)
    && (forall y: nat :: TakesTo(pat, src, it, start, y) ==> if it.rep == Lazy then e <= y else y <= e)
    && (forall x: nat, y: nat :: init <= x < start ==> !TakesTo(pat, src, it, x, y))
  }

  /** A match of one item that is preferred to all others takes the most, or the least. */
  lemma OneItemBest(pat: seq<nat>, src: seq<nat>, p: nat, s: nat, run: seq<nat>)
    requires OneItem(pat, p) && s <= |src| && Matches(pat, src, p, s, [], run)
    requires forall other :: Matches(pat, src, p, s, [], other) ==> other == run || Before(pat, p, run, other)
    ensures var it, e := ItemAt(pat, p), EndOf(pat, src, p, s, [], run).0;
      && TakesTo(pat, src, it, s, e)
      && forall y: nat :: TakesTo(pat, src, it, s, y) ==> if it.rep == Lazy then e <= y else y <= e
  {
    var it := ItemAt(pat, p);
    OneItemMatches(pat, src, p, s, run);
    forall y: nat | TakesTo(pat, src, it, s, y)
      ensures if it.rep == Lazy then run[0] <= y else y <= run[0]
    {
      OneItemMatches(pat, src, p, s, [y]);
      assert [y] == run || Before(pat, p, run, [y]);
    }
  }

  lemma OneItemNone(pat: seq<nat>, src: seq<nat>, p: nat, s: nat)
    requires OneItem(pat, p) && s <= |src| && forall run :: !Matches(pat, src, p, s, [], run)
    ensures forall y: nat :: !TakesTo(pat, src, ItemAt(pat, p), s, y)
  {
    forall y: nat
      ensures !TakesTo(pat, src, ItemAt(pat, p), s, y)
    {
      OneItemMatches(pat, src, p, s, [y]);
    }
  }

  /** `%` and a class letter, with or without `+`: one byte of the class, or several in a row. */
  lemma LetterItem(pat: seq<nat>, src: seq<nat>, cl: nat, s: nat, e: nat)
    requires cl in {97, 99, 100, 108, 112, 115, 117, 119, 120, 122} && (pat == ['%' as int, cl] || pat == ['%' as int, cl, '+' as int])
    ensures OneItem(pat, 0) && ItemAt(pat, 0).rep == (if |pat| == 2 then One else Plus)
    ensures TakesTo(pat, src, ItemAt(pat, 0), s, e) <==>
      s < e <= |src| && (|pat| == 2 ==> e == s + 1) && forall i :: s <= i < e ==> MatchClass(src[i], cl)
  {
    assert forall i :: 0 <= i < |src| ==> (Single(src[i], pat, 0, 2) <==> MatchClass(src[i], cl));
  }

  // ---------- plain text ----------

  /** No character of the pattern is special. */
  ghost predicate PlainText(pat: seq<nat>, p: nat) {
    forall i :: p <= i < |pat| ==> pat[i] !in {0, 36, 37, 40, 41, 42, 43, 45, 46, 63, 91, 94}
  }

  /** The text of the pattern from `p` on stands in the subject at `s`. */
  predicate Occurs(pat: seq<nat>, p: nat, src: seq<nat>, s: nat)
    requires p <= |pat|
  {
    s + (|pat| - p) <= |src| && src[s..s + (|pat| - p)] == pat[p..]
  }

  lemma OccursStep(pat: seq<nat>, p: nat, src: seq<nat>, s: nat)
    requires p < |pat|
    ensures Occurs(pat, p, src, s) <==> s < |src| && src[s] == pat[p] && Occurs(pat, p + 1, src, s + 1)
  {
    var n := |pat| - p;
    assert pat[p..] == [pat[p]] + pat[p + 1..];
    if s + n <= |src| {
      assert src[s..s + n] == [src[s]] + src[s + 1..s + n];
    }
  }

  lemma PlainItem(pat: seq<nat>, src: seq<nat>, p: nat, s: nat, caps: seq<Cap>, x: nat)
    requires PlainText(pat, p) && p < |pat| && s <= |src|
    ensures ItemAt(pat, p) == Char(p, p + 1, One, p + 1) && Trouble(ItemAt(pat, p), caps) == ""
    ensures x in Cands(pat, src, ItemAt(pat, p), s, caps) <==> s < |src| && src[s] == pat[p] && x == s + 1
  {
  }

  lemma PlainStep(pat: seq<nat>, src: seq<nat>, p: nat, s: nat, run: seq<nat>)
    requires PlainText(pat, p) && p < |pat| && s <= |src|
    ensures Matches(pat, src, p, s, [], run) <==>
      run != [] && s < |src| && src[s] == pat[p] && run[0] == s + 1 && Matches(pat, src, p + 1, s + 1, [], run[1..])
    ensures Matches(pat, src, p, s, [], run) ==> EndOf(pat, src, p, s, [], run) == EndOf(pat, src, p + 1, s + 1, [], run[1..])
  {
    PlainItem(pat, src, p, s, [], s + 1);
    if run != [] {
      PlainItem(pat, src, p, s, [], run[0]);
    }
  }

  /** A pattern of plain text matches exactly where the text occurs. */
  lemma {:induction false} PlainMatches(pat: seq<nat>, src: seq<nat>, p: nat, s: nat, run: seq<nat>)
    requires PlainText(pat, p) && p <= |pat| && s <= |src|
    ensures Matches(pat, src, p, s, [], run) <==> Occurs(pat, p, src, s) && run == Places(s, |pat| - p)
    ensures Matches(pat, src, p, s, [], run) ==> EndOf(pat, src, p, s, [], run) == (s + (|pat| - p), [])
    decreases |pat| - p
  {
    if p < |pat| {
      OccursStep(pat, p, src, s);
      PlainStep(pat, src, p, s, run);
      if run != [] && s < |src| {
        PlainMatches(pat, src, p + 1, s + 1, run[1..]);
        assert run == [run[0]] + run[1..];
      }
    }
  }

  /** s + 1, ..., s + n. */
  function Places(s: nat, n: nat): seq<nat>
    decreases n
  {
    if n == 0 then [] else [s + 1] + Places(s + 1, n - 1)
  }

  lemma {:induction false} PlainWellFormed(pat: seq<nat>, p: nat)
    requires PlainText(pat, p) && p <= |pat|
    ensures WellFormed(pat, p, [])
    decreases |pat| - p
  {
    if p < |pat| {
      PlainItem(pat, [], p, 0, [], 0);
      PlainWellFormed(pat, p + 1);
    }
  }
}

/** Character classes of patterns: classend, match_class, matchbracketclass and singlematch of lstrlib.c. */
module PatternClass {
  import opened Numbers

  const ESC := 37
  const OPEN := 91
  const CLOSE := 93
  const CARET := 94
  const DASH := 45
  const DOT := 46

  /** A pattern ends at its first zero, or at its end. */
  function At(pat: seq<nat>, p: int): nat {
    if 0 <= p < |pat| then pat[p] else 0
  }

  predicate IsUpper(c: int) { 65 <= c <= 90 }
  predicate IsLower(c: int) { 97 <= c <= 122 }
  predicate IsAlpha(c: int) { IsUpper(c) || IsLower(c) }
  predicate IsAlnum(c: int) { IsAlpha(c) || IsDigit(c) }
  predicate IsCntrl(c: int) { 0 <= c < 32 || c == 127 }
  predicate IsSpace(c: int) { 9 <= c <= 13 || c == 32 }
  predicate IsPunct(c: int) { 33 <= c <= 126 && !IsAlnum(c) }
  predicate IsXDigit(c: int) { IsDigit(c) || 65 <= c <= 70 || 97 <= c <= 102 }

  function ToLower(c: int): int {
    if IsUpper(c) then c + 32 else c
  }

  /** match_class: %a and so on, with upper case for the complement; other characters stand for themselves. */
  predicate MatchClass(c: int, cl: int) {
    var res :=
      match ToLower(cl)
      case 97 => IsAlpha(c)
      case 99 => IsCntrl(c)
      case 100 => IsDigit(c)
      case 108 => IsLower(c)
      case 112 => IsPunct(c)
      case 115 => IsSpace(c)
      case 117 => IsUpper(c)
      case 119 => IsAlnum(c)
      case 120 => IsXDigit(c)
      case 122 => c == 0
      case _ => cl == c;
    if ToLower(cl) in {97, 99, 100, 108, 112, 115, 117, 119, 120, 122} && !IsLower(cl) then !res else res
  }

  /** The class with the other case of its letter is the complement. */
  lemma Complement(c: int, cl: int)
    requires IsLower(cl) && cl in {97, 99, 100, 108, 112, 115, 117, 119, 120, 122}
    ensures MatchClass(c, cl - 32) == !MatchClass(c, cl)
  {
  }

  // ---------- where a class ends ----------

  datatype End = Ends(ep: nat) | NoEnd(msg: string)

  /** The end of a set, from `q` on, where at least one more character belongs to it. */
  function SetEnd(pat: seq<nat>, q: nat): (e: End)
    ensures e.Ends? ==> q + 1 < e.ep <= |pat| && At(pat, e.ep - 1) == CLOSE
    ensures e.NoEnd? ==> e.msg != ""
    decreases |pat| - q
  {
    if At(pat, q) == 0 then NoEnd("malformed pattern (missing ']')")
    else
      var q1 := if At(pat, q) == ESC && At(pat, q + 1) != 0 then q + 2 else q + 1;
      if At(pat, q1) == CLOSE then Ends(q1 + 1) else SetEnd(pat, q1)
  }

  function ClassEndOf(pat: seq<nat>, p: nat): (e: End)
    requires At(pat, p) != 0
    ensures e.Ends? ==> p < e.ep <= |pat|
    ensures e.NoEnd? ==> e.msg != ""
  {
    if At(pat, p) == ESC then
      if At(pat, p + 1) == 0 then NoEnd("malformed pattern (ends with '%')") else Ends(p + 2)
    else if At(pat, p) == OPEN then SetEnd(pat, if At(pat, p + 1) == CARET then p + 2 else p + 1)
    else Ends(p + 1)
  }

  /** classend. */
  method ClassEnd(pat: seq<nat>, start: nat) returns (e: End)
    requires At(pat, start) != 0
    ensures e == ClassEndOf(pat, start)
  {
    var p: nat := start + 1;
    if At(pat, start) == ESC {
      if At(pat, p) == 0 {
        return NoEnd("malformed pattern (ends with '%')");
      }
      return Ends(p + 1);
    } else if At(pat, start) == OPEN {
      if At(pat, p) == CARET {
        p := p + 1;
      }
      var more := true;
      while more
        invariant more ==> ClassEndOf(pat, start) == SetEnd(pat, p)
        invariant !more ==> ClassEndOf(pat, start) == Ends(p + 1)
        decreases more, |pat| - p
      {
        if At(pat, p) == 0 {
          return NoEnd("malformed pattern (missing ']')");
        }
        var c := At(pat, p);
        p := p + 1;
        if c == ESC && At(pat, p) != 0 {
          p := p + 1;
        }
        more := At(pat, p) != CLOSE;
      }
      return Ends(p + 1);
    } else {
      return Ends(p);
    }
  }

  // ---------- sets ----------

  /** Whether some element of the set text pat[q..ec] holds `c`: a class, a range, or a character. */
  predicate InSet(c: int, pat: seq<nat>, q: nat, ec: nat)
    decreases ec - q
  {
    if q >= ec then false
    else if At(pat, q) == ESC then MatchClass(c, At(pat, q + 1)) || InSet(c, pat, q + 2, ec)
    else if At(pat, q + 1) == DASH && q + 2 < ec then
      At(pat, q) <= c <= At(pat, q + 2) || InSet(c, pat, q + 3, ec)
    else At(pat, q) == c || InSet(c, pat, q + 1, ec)
  }

  predicate Bracket(c: int, pat: seq<nat>, p: nat, ec: nat) {
    if At(pat, p + 1) == CARET then !InSet(c, pat, p + 2, ec) else InSet(c, pat, p + 1, ec)
  }

  /** matchbracketclass: `start` is at the `[`, `ec` at the `]`. */
  method MatchBracketClass(c: int, pat: seq<nat>, start: nat, ec: nat) returns (b: bool)
    ensures b == Bracket(c, pat, start, ec)
  {
    var sig := true;
    var p := start;
    if At(pat, p + 1) == CARET {
      sig := false;
      p := p + 1;
    }
    p := p + 1;
    while p < ec
      invariant Bracket(c, pat, start, ec) == (InSet(c, pat, p, ec) == sig)
      decreases ec - p
    {
      if At(pat, p) == ESC {
        p := p + 1;
        if MatchClass(c, At(pat, p)) {
          return sig;
        }
      } else if At(pat, p + 1) == DASH && p + 2 < ec {
        p := p + 2;
        if At(pat, p - 2) <= c <= At(pat, p) {
          return sig;
        }
      } else if At(pat, p) == c {
        return sig;
      }
      p := p + 1;
    }
    return !sig;
  }

  predicate Single(c: int, pat: seq<nat>, p: nat, ep: nat) {
    if At(pat, p) == DOT then true
    else if At(pat, p) == ESC then MatchClass(c, At(pat, p + 1))
    else if At(pat, p) == OPEN then ep > 0 && Bracket(c, pat, p, ep - 1)
    else At(pat, p) == c
  }

  /** singlematch. */
  method SingleMatch(c: int, pat: seq<nat>, p: nat, ep: nat) returns (b: bool)
    requires ep > 0
    ensures b == Single(c, pat, p, ep)
  {
    match At(pat, p)
    case 46 => b := true;
    case 37 => b := MatchClass(c, At(pat, p + 1));
    case 91 => b := MatchBracketClass(c, pat, p, ep - 1);
    case _ => b := At(pat, p) == c;
  }
}

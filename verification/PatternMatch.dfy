/** The backtracking matcher of lstrlib.c. */
module PatternMatch {
  import opened Numbers
  import opened PatternClass
  import opened PatternSearch
  import opened PatternLaws

  datatype Outcome = Found(e: nat) | None | Error(msg: string)

  class MatchState {
    const src: seq<nat>
    const pat: seq<nat>
    var level: nat
    var capture: seq<Cap>

    predicate Valid()
      reads this
    {
      |capture| == MAXCAPTURES && level <= MAXCAPTURES
    }

    /** The captures in use. */
    function Caps(): seq<Cap>
      requires Valid()
      reads this
    {
      capture[..level]
    }

    constructor (src: seq<nat>, pat: seq<nat>)
      ensures Valid() && this.src == src && this.pat == pat && Caps() == []
    {
      this.src, this.pat := src, pat;
      level := 0;
      capture := seq(MAXCAPTURES, _ => Cap(0, 0));
    }

    /** What a call promises: the end and the captures of the match that the search finds first; a call that fails
        leaves the level and all captures below it as they were. */
    ghost predicate Does(o: Outcome, r: Result, caps0: seq<Cap>)
      reads this
    {
      && Valid()
      && (match r
          case Hit(e, caps, _) => o == Found(e) && Caps() == caps
          case Miss => o == None && Caps() == caps0
          case Err(msg) => o == Error(msg))
    }

    /** check_capture. */
    method CheckCapture(l: int) returns (ok: bool)
      requires Valid()
      ensures ok == !(l < 0 || l >= |Caps()| || Caps()[l].len == CAP_UNFINISHED)
    {
      ok := !(l < 0 || l >= level || capture[l].len == CAP_UNFINISHED);
    }

    /** capture_to_close. */
    method CaptureToClose() returns (l: int)
      requires Valid()
      ensures l == ToClose(Caps())
    {
      l := level - 1;
      while l >= 0
        invariant -1 <= l < level && ToClose(Caps()) == ToClose(capture[..l + 1])
      {
        if capture[l].len == CAP_UNFINISHED {
          return;
        }
        assert capture[..l + 1][..l] == capture[..l];
        l := l - 1;
      }
    }

    /** matchbalance, from its second character on. */
    method MatchBalance(start: nat, b: nat, e: nat) returns (o: Outcome)
      requires start <= |src| && b != 0
      ensures var c := if Sub(src, start) != b then [] else BalanceEnd(src, b, e, start + 1, 1);
        o == if c == [] then None else Found(c[0])
    {
      if Sub(src, start) != b {
        return None;
      }
      var cont: nat := 1;
      var s := start + 1;
      while s < |src|
        invariant s <= |src| && cont >= 1 && BalanceEnd(src, b, e, start + 1, 1) == BalanceEnd(src, b, e, s, cont)
      {
        if src[s] == e {
          cont := cont - 1;
          if cont == 0 {
            return Found(s + 1);
          }
        } else if src[s] == b {
          cont := cont + 1;
        }
        s := s + 1;
      }
      return None;
    }

    /** match_capture. */
    method MatchCapture(s: nat, l: nat) returns (o: Outcome)
      requires Valid() && s <= |src| && l < level && CapsOk(Caps(), s) && Caps()[l].len != CAP_UNFINISHED
      ensures var c := BackRefEnd(src, Caps()[l], s); o == if c == [] then None else Found(c[0])
    {
      var c := capture[l];
      assert c == Caps()[l] && c in Caps();
      if c.len >= 0 && |src| - s >= c.len && src[c.init..c.init + c.len] == src[s..s + c.len] {
        return Found(s + c.len);
      }
      return None;
    }

    /** The check `s < ms->src_end && singlematch(...)`. */
    method Takes(s: nat, p: nat, ep: nat) returns (b: bool)
      requires ep > 0
      ensures b == (s < |src| && Single(src[s], pat, p, ep))
    {
      if s < |src| {
        b := SingleMatch(src[s], pat, p, ep);
      } else {
        b := false;
      }
    }

    // ---------- the matcher ----------

    /** The first loop of max_expand. */
    method CountReps(s: nat, p: nat, ep: nat) returns (i: nat)
      requires s <= |src| && ep > 0
      ensures i == Reps(pat, src, p, ep, s)
    {
      i := 0;
      var b := Takes(s, p, ep);
      while b
        invariant i <= |src| - s && b == (s + i < |src| && Single(src[s + i], pat, p, ep))
        invariant Reps(pat, src, p, ep, s) == i + Reps(pat, src, p, ep, s + i)
        decreases |src| - s - i, b
      {
        i := i + 1;
        b := Takes(s + i, p, ep);
      }
    }

    /** max_expand: as many repetitions as there are, then fewer and fewer. */
    method MaxExpand(s: nat, p: nat, ep: nat, ghost p0: nat) returns (o: Outcome)
      requires Valid() && s <= |src| && 0 < ep < |pat| && p0 < ep + 1 && CapsOk(Caps(), s)
      modifies this
      ensures Does(o, Try(pat, src, p0, ep + 1, Down(s, Reps(pat, src, p, ep, s)), old(Caps())), old(Caps()))
      decreases |pat| - p0, 0
    {
      var i: int := CountReps(s, p, ep);
      ghost var caps0 := Caps();
      ghost var all := Try(pat, src, p0, ep + 1, Down(s, i), caps0);
      while i >= 0
        invariant -1 <= i <= |src| - s && Valid() && Caps() == caps0
        invariant all == if i >= 0 then Try(pat, src, p0, ep + 1, Down(s, i), caps0) else Miss
        decreases i
      {
        o := MatchRest(s, i, ep, p0, caps0, all);
        if o != None {
          return;
        }
        i := i - 1;
      }
      return None;
    }

    /** The rest of the pattern, after `i` repetitions. */
    method MatchRest(s: nat, i: nat, ep: nat, ghost p0: nat, ghost caps0: seq<Cap>, ghost all: Result) returns (o: Outcome)
      requires Valid() && s + i <= |src| && ep < |pat| && p0 < ep + 1 && Caps() == caps0 && CapsOk(caps0, s)
      requires all == Try(pat, src, p0, ep + 1, Down(s, i), caps0)
      modifies this
      ensures if o == None then Valid() && Caps() == caps0 && all == (if i > 0 then Try(pat, src, p0, ep + 1, Down(s, i - 1), caps0) else Miss)
              else Does(o, all, caps0)
      decreases |pat| - p0, 0, 0
    {
      CapsFurther(caps0, s, s + i);
      TryDown(pat, src, p0, ep + 1, s, i, caps0);
      o := Match(s + i, ep + 1);
    }

    /** min_expand: as few repetitions as possible, then more and more. */
    method MinExpand(start: nat, p: nat, ep: nat, ghost p0: nat) returns (o: Outcome)
      requires Valid() && start <= |src| && 0 < ep < |pat| && p0 < ep + 1 && CapsOk(Caps(), start)
      modifies this
      ensures Does(o, Try(pat, src, p0, ep + 1, Up(start, Reps(pat, src, p, ep, start)), old(Caps())), old(Caps()))
      decreases |pat| - p0, 0
    {
      ghost var caps0 := Caps();
      ghost var all := Try(pat, src, p0, ep + 1, Up(start, Reps(pat, src, p, ep, start)), caps0);
      var s := start;
      while true
        invariant start <= s <= |src| && Valid() && Caps() == caps0
        invariant all == Try(pat, src, p0, ep + 1, Up(s, Reps(pat, src, p, ep, s)), caps0)
        decreases |src| - s
      {
        CapsFurther(caps0, start, s);
        o := MatchHere(s, Reps(pat, src, p, ep, s), ep, p0, caps0, all);
        if o != None {
          return;
        }
        var b := Takes(s, p, ep);
        if !b {
          return None;
        }
        s := s + 1;
      }
    }

    /** The rest of the pattern from here, with `n` repetitions more that could be taken. */
    method MatchHere(s: nat, ghost n: nat, ep: nat, ghost p0: nat, ghost caps0: seq<Cap>, ghost all: Result) returns (o: Outcome)
      requires Valid() && s <= |src| && ep < |pat| && p0 < ep + 1 && Caps() == caps0 && CapsOk(caps0, s)
      requires all == Try(pat, src, p0, ep + 1, Up(s, n), caps0)
      modifies this
      ensures if o == None then Valid() && Caps() == caps0 && all == (if n > 0 then Try(pat, src, p0, ep + 1, Up(s + 1, n - 1), caps0) else Miss)
              else Does(o, all, caps0)
      decreases |pat| - p0, 0, 0
    {
      TryUp(pat, src, p0, ep + 1, s, n, caps0);
      o := Match(s, ep + 1);
    }

    /** start_capture. */
    method StartCapture(s: nat, p: nat, what: int, ghost p0: nat) returns (o: Outcome)
      requires Valid() && s <= |src| && p0 < p <= |pat| && CapsOk(Caps(), s) && level < MAXCAPTURES
      requires what == CAP_POSITION || what == CAP_UNFINISHED
      modifies this
      ensures Does(o, Search(pat, src, p, s, old(Caps()) + [Cap(s, what)]), old(Caps()))
      decreases |pat| - p0, 0
    {
      capture := capture[level := Cap(s, what)];
      level := level + 1;
      assert Caps() == old(Caps()) + [Cap(s, what)];
      o := Match(s, p);
      if o == None {
        assert Caps()[..|Caps()| - 1] == old(Caps());
        level := level - 1;
      }
    }

    /** end_capture. */
    method EndCapture(s: nat, p: nat, l: nat, ghost p0: nat) returns (o: Outcome)
      requires Valid() && s <= |src| && p0 < p <= |pat| && CapsOk(Caps(), s) && l < level && l == ToClose(Caps())
      modifies this
      ensures Does(o, Search(pat, src, p, s, old(Caps())[l := old(Caps())[l].(len := s - old(Caps())[l].init)]), old(Caps()))
      decreases |pat| - p0, 0
    {
      assert capture[l] == Caps()[l] && Caps()[l] in Caps();
      ghost var caps1 := Caps()[l := Caps()[l].(len := s - Caps()[l].init)];
      capture := capture[l := capture[l].(len := s - capture[l].init)];
      assert Caps() == caps1;
      o := Match(s, p);
      if o == None {
        assert capture[l] == Caps()[l];
        capture := capture[l := capture[l].(len := CAP_UNFINISHED)];
        assert Caps() == old(Caps());
      }
    }

    /** The case `?` of match. */
    method MatchOptional(s: nat, p: nat, ep: nat) returns (o: Outcome)
      requires Valid() && s <= |src| && CapsOk(Caps(), s) && 0 < ep < |pat| && p < ep + 1
      modifies this
      ensures var m := s < |src| && Single(src[s], pat, p, ep);
        Does(o, Try(pat, src, p, ep + 1, if m then [s + 1, s] else [s], old(Caps())), old(Caps()))
      decreases |pat| - p, 0
    {
      ghost var caps0 := Caps();
      var m := Takes(s, p, ep);
      TryOne(pat, src, p, ep + 1, s, caps0);
      if m {
        TryTwo(pat, src, p, ep + 1, s + 1, s, caps0);
        CapsFurther(caps0, s, s + 1);
        o := Match(s + 1, ep + 1);
        if o != None {
          return;
        }
      }
      o := Match(s, ep + 1);
    }

    /** The cases of match for a class that may be repeated or left out. */
    method MatchDefault(s: nat, p: nat, ep: nat, rep: Rep, next: nat) returns (o: Outcome)
      requires Valid() && s <= |src| && CapsOk(Caps(), s)
      requires ItemAt(pat, p) == Char(p, ep, rep, next) && rep != One && 0 < ep < |pat| && next == ep + 1
      modifies this
      ensures Does(o, Search(pat, src, p, s, old(Caps())), old(Caps()))
      decreases |pat| - p, 1
    {
      match rep
      case Opt => o := MatchOptional(s, p, ep);
      case Star => o := MaxExpand(s, p, ep, p);
      case Plus =>
        var m := Takes(s, p, ep);
        if m {
          CapsFurther(Caps(), s, s + 1);
          o := MaxExpand(s + 1, p, ep, p);
        } else {
          o := None;
        }
      case Lazy => o := MinExpand(s, p, ep, p);
    }

    /** The items that take one position at most: match goes on from there. */
    method Advance(it: Item, s: nat) returns (o: Outcome)
      requires Valid() && s <= |src| && CapsOk(Caps(), s) && Trouble(it, Caps()) == ""
      requires it.Balance? || it.Frontier? || it.BackRef? || (it.Char? && it.rep == One && it.ep > 0)
      requires it.Balance? ==> it.b > 0 && it.e > 0
      ensures var c := Cands(pat, src, it, s, Caps()); |c| <= 1 && o == if c == [] then None else Found(c[0])
    {
      match it
      case Balance(b, e, _) => o := MatchBalance(s, b, e);
      case Frontier(fp, ec, _) =>
        var previous := if s == 0 then 0 else src[s - 1];
        var before := MatchBracketClass(previous, pat, fp, ec);
        var here := MatchBracketClass(Sub(src, s), pat, fp, ec);
        o := if before || !here then None else Found(s);
      case BackRef(l, _) => o := MatchCapture(s, l);
      case Char(p, ep, _, _) =>
        var m := Takes(s, p, ep);
        o := if m then Found(s + 1) else None;
    }

    /** match. */
    method Match(start: nat, pstart: nat) returns (o: Outcome)
      requires Valid() && start <= |src| && CapsOk(Caps(), start) && pstart <= |pat|
      modifies this
      ensures Does(o, Search(pat, src, pstart, start, old(Caps())), old(Caps()))
      decreases |pat| - pstart, 3
    {
      var s, p := start, pstart;
      ghost var caps0 := Caps();
      while true
        invariant pstart <= p <= |pat| && start <= s <= |src| && Valid() && Caps() == caps0 && CapsOk(caps0, s)
        invariant SameButRun(Search(pat, src, pstart, start, caps0), Search(pat, src, p, s, caps0))
        decreases |pat| - p
      {
        var it := ReadItem(p);
        Forced(pat, src, p, s, caps0);
        if it.Done? {
          return Found(s);
        } else if it.AtEnd? {
          return if s == |src| then Found(s) else None;
        } else if it.Balance? || it.Frontier? || it.BackRef? || (it.Char? && it.rep == One) {
          if it.BackRef? {
            var ok := CheckCapture(it.l);
            if !ok {
              return Error("invalid capture index");
            }
          }
          o := Advance(it, s);
          if o == None {
            return;
          }
          CandsOrdered(pat, src, it, s, caps0);
          CapsFurther(caps0, s, o.e);
          s, p := o.e, it.next;
        } else {
          o := MatchItem(it, s, p);
          return;
        }
      }
    }

    /** The items from which match does not come back. */
    method MatchItem(it: Item, s: nat, p: nat) returns (o: Outcome)
      requires Valid() && s <= |src| && CapsOk(Caps(), s) && p <= |pat| && it == ItemAt(pat, p)
      requires it.Bad? || it.OpenCap? || it.CloseCap? || (it.Char? && it.rep != One)
      modifies this
      ensures Does(o, Search(pat, src, p, s, old(Caps())), old(Caps()))
      decreases |pat| - p, 2
    {
      match it {
        case Bad(msg) =>
          Forced(pat, src, p, s, Caps());
          o := Error(msg);
        case OpenCap(what, next) => o := MatchOpen(s, p, what, next);
        case CloseCap(next) => o := MatchClose(s, p, next);
        case Char(_, ep, rep, next) => o := MatchDefault(s, p, ep, rep, next);
      }
    }

    /** The case `(` of match. */
    method MatchOpen(s: nat, p: nat, what: int, next: nat) returns (o: Outcome)
      requires Valid() && s <= |src| && CapsOk(Caps(), s) && p <= |pat| && ItemAt(pat, p) == OpenCap(what, next)
      modifies this
      ensures Does(o, Search(pat, src, p, s, old(Caps())), old(Caps()))
      decreases |pat| - p, 1
    {
      Forced(pat, src, p, s, Caps());
      if level >= MAXCAPTURES {
        return Error("too many captures");
      }
      o := StartCapture(s, next, what, p);
    }

    /** The case `)` of match. */
    method MatchClose(s: nat, p: nat, next: nat) returns (o: Outcome)
      requires Valid() && s <= |src| && CapsOk(Caps(), s) && p <= |pat| && ItemAt(pat, p) == CloseCap(next)
      modifies this
      ensures Does(o, Search(pat, src, p, s, old(Caps())), old(Caps()))
      decreases |pat| - p, 1
    {
      Forced(pat, src, p, s, Caps());
      var l := CaptureToClose();
      if l < 0 {
        return Error("invalid pattern capture");
      }
      o := EndCapture(s, next, l, p);
    }

    /** The loop of str_find_aux. */
    method FindLoop(init: nat) returns (o: Outcome, start: nat)
      requires Valid() && init <= |src|
      modifies this
      ensures Valid() && Finds(init, o, start)
    {
      var anchor := At(pat, 0) == CARET;
      var p := if anchor then 1 else 0;
      start := init;
      while true
        invariant init <= start <= |src| && Valid() && (anchor ==> start == init)
        invariant forall x: nat :: init <= x < start ==> NoMatch(p, x)
        decreases |src| - start
      {
        level := 0;
        assert Caps() == [];
        SearchBest(pat, src, p, start, []);
        o := Match(start, p);
        if o == None {
          assert NoMatch(p, start);
          if start == |src| || anchor {
            return;
          }
          start := start + 1;
        } else {
          NoErrorsAtStart(pat, src, p, start);
          assert o.Found? ==> Matches(pat, src, p, start, [], Search(pat, src, p, start, []).run);
          return;
        }
      }
    }

    /** str_find_aux: the leftmost place from `init` on where the pattern matches, and there the preferred match
        of all.  A pattern that starts with `^` is tried at `init` only.  For patterns of one item, of plain text,
        and for `%d`, also what that means for the text found. */
    method StrFind(init: nat) returns (o: Outcome, start: nat)
      requires Valid() && init <= |src|
      modifies this
      ensures Valid() && Finds(init, o, start)
      ensures OneItem(pat, First()) ==> ItemFound(init, o, start)
      ensures PlainText(pat, First()) ==> TextFound(init, o, start)
      ensures pat == ['%' as int, 'd' as int] ==> DigitFound(init, o, start)
    {
      o, start := FindLoop(init);
      if OneItem(pat, First()) {
        FoundItem(init, o, start);
      }
      if PlainText(pat, First()) {
        FoundText(init, o, start);
      }
      if pat == ['%' as int, 'd' as int] {
        FoundDigit(init, o, start);
      }
    }

    /** Where the pattern starts, behind `^`. */
    function First(): nat {
      if At(pat, 0) == '^' as int then 1 else 0
    }

    /** The last place to try. */
    function Last(init: nat): nat {
      if At(pat, 0) == '^' as int then init else |src|
    }

    ghost predicate Finds(init: nat, o: Outcome, start: nat)
      requires Valid()
      reads this
    {
      && (o.Found? ==> init <= start <= |src| && start <= Last(init) && IsBest(First(), start, o.e)
                       && forall x: nat :: init <= x < start ==> NoMatch(First(), x))
      && (o.None? ==> forall x: nat :: init <= x <= Last(init) ==> NoMatch(First(), x))
      && (WellFormed(pat, First(), []) ==> !o.Error?)
    }

    /** The outcome for a pattern of one item. */
    ghost predicate ItemFound(init: nat, o: Outcome, start: nat)
      requires OneItem(pat, First())
    {
      var it := ItemAt(pat, First());
      && (o.Found? ==> start <= Last(init) && FirstTaken(pat, src, it, init, start, o.e))
      && (o.None? ==> forall x: nat, y: nat :: init <= x <= Last(init) ==> !TakesTo(pat, src, it, x, y))
      && !o.Error?
    }

    /** The outcome for plain text. */
    ghost predicate TextFound(init: nat, o: Outcome, start: nat)
      requires First() <= |pat|
    {
      var p := First();
      && (o.Found? ==> init <= start <= Last(init) && o.e == start + (|pat| - p) && Occurs(pat, p, src, start)
                       && forall x: nat :: init <= x < start ==> !Occurs(pat, p, src, x))
      && (o.None? ==> forall x: nat :: init <= x <= Last(init) ==> !Occurs(pat, p, src, x))
      && !o.Error?
    }

    /** The outcome for `%d`: the leftmost digit, if there is one. */
    ghost predicate DigitFound(init: nat, o: Outcome, start: nat) {
      match o
      case Found(e) => init <= start < |src| && e == start + 1 && 48 <= src[start] <= 57 && NoDigit(init, start)
      case None => NoDigit(init, |src|)
      case Error(_) => false
    }

    ghost predicate NoDigit(init: nat, x: nat) {
      forall i :: init <= i < x && i < |src| ==> !(48 <= src[i] <= 57)
    }

    lemma FoundItem(init: nat, o: Outcome, start: nat)
      requires Valid() && init <= |src| && OneItem(pat, First()) && Finds(init, o, start)
      ensures ItemFound(init, o, start)
    {
      var p := First();
      forall x: nat, y: nat | x <= |src| && NoMatch(p, x)
        ensures !TakesTo(pat, src, ItemAt(pat, p), x, y)
      {
        OneItemNone(pat, src, p, x);
      }
      if o.Found? {
        var run :| Matches(pat, src, p, start, [], run) && EndOf(pat, src, p, start, [], run) == (o.e, Caps())
          && forall other :: Matches(pat, src, p, start, [], other) ==> other == run || Before(pat, p, run, other);
        OneItemBest(pat, src, p, start, run);
      }
      assert WellFormed(pat, p, []) by {
        assert ItemAt(pat, ItemAt(pat, p).next).Done?;
      }
    }

    lemma FoundText(init: nat, o: Outcome, start: nat)
      requires Valid() && init <= |src| && PlainText(pat, First()) && Finds(init, o, start)
      ensures TextFound(init, o, start)
    {
      var p := First();
      forall x: nat | x <= |src| && NoMatch(p, x)
        ensures !Occurs(pat, p, src, x)
      {
        PlainMatches(pat, src, p, x, Places(x, |pat| - p));
      }
      if o.Found? {
        var run :| Matches(pat, src, p, start, [], run) && EndOf(pat, src, p, start, [], run) == (o.e, Caps());
        PlainMatches(pat, src, p, start, run);
      }
      PlainWellFormed(pat, p);
    }

    lemma FoundDigit(init: nat, o: Outcome, start: nat)
      requires Valid() && init <= |src| && pat == ['%' as int, 'd' as int] && OneItem(pat, First()) && ItemFound(init, o, start)
      ensures DigitFound(init, o, start)
    {
      forall x: nat
        ensures TakesTo(pat, src, ItemAt(pat, 0), x, x + 1) <==> x < |src| && 48 <= src[x] <= 57
      {
        LetterItem(pat, src, 'd' as int, x, x + 1);
        if x < |src| {
          ClassLetters(src[x]);
        }
      }
      if o.Found? {
        LetterItem(pat, src, 'd' as int, start, o.e);
      }
    }

    ghost predicate NoMatch(p: nat, s: nat) {
      forall run :: !Matches(pat, src, p, s, [], run)
    }

    /** `e` and the captures are those of the match that the pattern prefers to all others from `s`. */
    ghost predicate IsBest(p: nat, s: nat, e: nat)
      requires Valid()
      reads this
    {
      exists run :: Matches(pat, src, p, s, [], run) && EndOf(pat, src, p, s, [], run) == (e, Caps())
        && forall other :: Matches(pat, src, p, s, [], other) ==> other == run || Before(pat, p, run, other)
    }

    /** The switch of match on the pattern. */
    method ReadItem(p: nat) returns (it: Item)
      ensures it == ItemAt(pat, p)
    {
      match At(pat, p)
      case 40 =>
        return if At(pat, p + 1) == 41 then OpenCap(CAP_POSITION, p + 2) else OpenCap(CAP_UNFINISHED, p + 1);
      case 41 => return CloseCap(p + 1);
      case 37 =>
        match At(pat, p + 1) {
          case 98 =>
            return if At(pat, p + 2) == 0 || At(pat, p + 3) == 0 then Bad("unbalanced pattern")
                   else Balance(At(pat, p + 2), At(pat, p + 3), p + 4);
          case 102 =>
            if At(pat, p + 2) != OPEN {
              return Bad("missing '[' after '%f' in pattern");
            }
            var e := ClassEnd(pat, p + 2);
            return if e.NoEnd? then Bad(e.msg) else Frontier(p + 2, e.ep - 1, e.ep);
          case c =>
            if IsDigit(c) {
              return BackRef(c - 49, p + 2);
            }
            it := ReadChar(p);
        }
      case 0 => return Done;
      case 36 =>
        if At(pat, p + 1) == 0 {
          return AtEnd(p + 1);
        }
        it := ReadChar(p);
      case _ => it := ReadChar(p);
    }

    /** A class, and how often it may be repeated. */
    method ReadChar(p: nat) returns (it: Item)
      requires At(pat, p) != 0
      ensures var e := ClassEndOf(pat, p);
        it == if e.NoEnd? then Bad(e.msg)
              else match At(pat, e.ep)
                   case 63 => Char(p, e.ep, Opt, e.ep + 1)
                   case 42 => Char(p, e.ep, Star, e.ep + 1)
                   case 43 => Char(p, e.ep, Plus, e.ep + 1)
                   case 45 => Char(p, e.ep, Lazy, e.ep + 1)
                   case _ => Char(p, e.ep, One, e.ep)
    {
      var e := ClassEnd(pat, p);
      if e.NoEnd? {
        return Bad(e.msg);
      }
      match At(pat, e.ep)
      case 63 => return Char(p, e.ep, Opt, e.ep + 1);
      case 42 => return Char(p, e.ep, Star, e.ep + 1);
      case 43 => return Char(p, e.ep, Plus, e.ep + 1);
      case 45 => return Char(p, e.ep, Lazy, e.ep + 1);
      case _ => return Char(p, e.ep, One, e.ep);
    }
  }

  lemma NoErrorsAtStart(pat: seq<nat>, src: seq<nat>, p: nat, s: nat)
    ensures WellFormed(pat, p, []) ==> !Search(pat, src, p, s, []).Err?
  {
    assert Shape([]) == [];
    if WellFormed(pat, p, []) {
      NoErrors(pat, src, p, s, []);
    }
  }

  lemma CapsFurther(caps: seq<Cap>, s: nat, x: nat)
    requires CapsOk(caps, s) && s <= x
    ensures CapsOk(caps, x)
  {
  }

  /** An item with one position only. */
  lemma TryOne(pat: seq<nat>, src: seq<nat>, p: nat, next: nat, x: nat, caps: seq<Cap>)
    requires p < next <= |pat|
    ensures SameButRun(Try(pat, src, p, next, [x], caps), Search(pat, src, next, x, caps))
  {
    assert [x][1..] == [];
  }

  lemma TryTwo(pat: seq<nat>, src: seq<nat>, p: nat, next: nat, x: nat, y: nat, caps: seq<Cap>)
    requires p < next <= |pat|
    ensures var r, all := Search(pat, src, next, x, caps), Try(pat, src, p, next, [x, y], caps);
      SameButRun(all, if r.Miss? then Try(pat, src, p, next, [y], caps) else r)
  {
    assert [x, y][1..] == [y];
  }

  /** An item with at most one position leaves no choice. */
  lemma Forced(pat: seq<nat>, src: seq<nat>, p: nat, s: nat, caps: seq<Cap>)
    requires s <= |src|
    ensures var it, r := ItemAt(pat, p), Search(pat, src, p, s, caps);
      if it.Done? then r == Hit(s, caps, [])
      else if Trouble(it, caps) != "" then r == Err(Trouble(it, caps))
      else
        var c := Cands(pat, src, it, s, caps);
        && (c == [] ==> r == Miss)
        && (|c| == 1 ==> SameButRun(r, Search(pat, src, it.next, c[0], CapsAfter(it, s, caps))))
        && (it.AtEnd? && c != [] ==> SameButRun(r, Hit(s, caps, [])))
  {
    var it := ItemAt(pat, p);
    if !it.Done? && Trouble(it, caps) == "" {
      var c := Cands(pat, src, it, s, caps);
      if |c| == 1 {
        assert c == [c[0]];
        TryOne(pat, src, p, it.next, c[0], CapsAfter(it, s, caps));
      }
    }
  }

  predicate SameButRun(r1: Result, r2: Result) {
    if r1.Hit? && r2.Hit? then r1.e == r2.e && r1.caps == r2.caps else r1 == r2
  }

  lemma TryDown(pat: seq<nat>, src: seq<nat>, p: nat, next: nat, s: nat, i: nat, caps: seq<Cap>)
    requires p < next <= |pat|
    ensures var r, all := Search(pat, src, next, s + i, caps), Try(pat, src, p, next, Down(s, i), caps);
      && (!r.Miss? ==> SameButRun(all, r))
      && (r.Miss? ==> all == if i > 0 then Try(pat, src, p, next, Down(s, i - 1), caps) else Miss)
  {
    assert Down(s, i)[0] == s + i;
    if i > 0 {
      assert Down(s, i)[1..] == Down(s, i - 1);
    }
  }

  lemma TryUp(pat: seq<nat>, src: seq<nat>, p: nat, next: nat, s: nat, n: nat, caps: seq<Cap>)
    requires p < next <= |pat|
    ensures var r, all := Search(pat, src, next, s, caps), Try(pat, src, p, next, Up(s, n), caps);
      && (!r.Miss? ==> SameButRun(all, r))
      && (r.Miss? ==> all == if n > 0 then Try(pat, src, p, next, Up(s + 1, n - 1), caps) else Miss)
  {
    assert Up(s, n)[0] == s;
    if n > 0 {
      assert Up(s, n)[1..] == Up(s + 1, n - 1);
    }
  }
}

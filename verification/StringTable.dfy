/** The string table, step by step, between the program that makes strings and the collector that frees them. */
module StringTables {
  import opened Numbers
  import opened Lists
  import opened Strings
  import opened StringMarks

  class StringTable {
    var str: map<nat, TString>
    var hash: seq<int>
    var nuse: nat
    var currentwhite: bool
    var gcstate: Phase
    var sweepstrgc: nat
    ghost var chains: seq<seq<nat>>

    ghost predicate Valid()
      reads this
    {
      Good(str, hash, chains, nuse) && MarksOk(str, chains, gcstate, currentwhite, sweepstrgc)
    }

    constructor ()
      ensures Valid() && str == map[] && |hash| == 32 && gcstate == Pause
    {
      str, hash, nuse := map[], seq(MINSTRTABSIZE, i => NULL), 0;
      currentwhite, gcstate, sweepstrgc := false, Pause, 0;
      chains := seq(MINSTRTABSIZE, i => []);
      new;
      NoBuckets(str, MINSTRTABSIZE);
    }

    /** The hash of a text. */
    static method HashOf(s: Text) returns (n: nat)
      ensures n == Hash(s)
    {
      var h: bv32 := (|s| % 0x1_0000_0000) as bv32;
      var step := |s| / 32 + 1;
      var l1 := |s|;
      while l1 >= step
        invariant 0 <= l1 <= |s|
        invariant HashFrom(s, l1, step, h) == HashFrom(s, |s|, step, (|s| % 0x1_0000_0000) as bv32)
      {
        h := h ^ ((h << 5) + (h >> 2) + (s[l1 - 1] as bv32));
        l1 := l1 - step;
      }
      n := h as nat;
    }

    /** luaS_newlstr: the string with a text; it is the one that there was, if there was one. */
    method NewLStr(s: Text) returns (u: nat)
      requires Valid()
      modifies this`str, this`hash, this`nuse, this`chains
      ensures Valid() && u in str && str[u].text == s && str[u].mark != White(!currentwhite)
      ensures if exists x :: x in old(str) && old(str)[x].text == s then u in old(str) else u !in old(str)
      ensures Grown(old(str), str, u)
      ensures u in old(str) ==> hash == old(hash)
      ensures u !in old(str) ==> |hash| == LargerSize(|str|, |old(hash)|, gcstate)
    {
      var h := HashOf(s);
      var p := Lookup(s, h);
      if p != NULL {
        u := p;
        RevivedIs(str, u, currentwhite);
        Reuse(u);
      } else {
        u := AddString(s, h);
      }
    }

    /** A string that there was is given out again. */
    method Reuse(u: nat)
      requires Valid() && u in str
      modifies this`str
      ensures Valid() && str == Revived(old(str), u, currentwhite)
    {
      RevivedOk(str, hash, chains, nuse, gcstate, currentwhite, sweepstrgc, u);
      Revive(u);
    }

    /** The walk along a bucket. */
    method Lookup(s: Text, h: nat) returns (p: int)
      requires Buckets(str, hash, chains, str.Keys) && Distinct(str) && h == Hash(s)
      ensures p != NULL ==> p >= 0 && p as nat in str && str[p as nat].text == s
      ensures p == NULL ==> forall x :: x in str ==> str[x].text != s
    {
      p := hash[Lmod(h, |hash|)];
      ghost var b := Lmod(h, |hash|);
      ghost var list, k := chains[b], 0;
      assert Bucket(str, hash[b], list, b, |chains|);
      while p != NULL
        invariant 0 <= k <= |list| && p == Nth(list, k)
        invariant forall j :: 0 <= j < k ==> list[j] in str && str[list[j]].text != s
        decreases |list| - k
      {
        assert NodeAt(str, list, b, |chains|, k);
        if str[p].text == s {
          return;
        }
        p, k := str[p].next, k + 1;
      }
      NotThere(str, hash, chains, s, h);
    }

    /** newlstr: the text is new. */
    method AddString(s: Text, h: nat) returns (u: nat)
      requires Valid() && h == Hash(s) && forall x :: x in str ==> str[x].text != s
      modifies this`str, this`hash, this`nuse, this`chains
      ensures Valid() && u in str && str[u].text == s && str[u].mark != White(!currentwhite)
      ensures u !in old(str) && Grown(old(str), str, u)
      ensures |hash| == LargerSize(|str|, |old(hash)|, gcstate)
    {
      ghost var before := str;
      u := LinkNew(s, h);
      ghost var linked := str;
      Enlarge();
      StillGrown(before, str, u, linked[u]);
    }

    /** A crowded table is doubled. */
    method Enlarge()
      requires Valid()
      modifies this`str, this`hash, this`chains
      ensures Valid() && Relinked(old(str), str) && |hash| == LargerSize(|str|, |old(hash)|, gcstate)
    {
      if nuse > |hash| && |hash| <= MAX_INT / 2 {
        Resize(|hash| * 2);
      }
    }

    method LinkNew(s: Text, h: nat) returns (u: nat)
      requires Valid() && h == Hash(s) && forall x :: x in str ==> str[x].text != s
      modifies this`str, this`hash, this`nuse, this`chains
      ensures Valid() && u !in old(str) && u in str && str == old(str)[u := str[u]]
      ensures str[u].text == s && str[u].mark == White(currentwhite) && |hash| == |old(hash)|
    {
      u := NewName(str.Keys, 0);
      LinkedOk(str, hash, chains, nuse, gcstate, currentwhite, sweepstrgc, u, s, h);
      LinkString(u, s, h);
    }

    /** A new string comes to the front of its bucket. */
    method LinkString(u: nat, s: Text, h: nat)
      requires |hash| == |chains| > 0
      modifies this`str, this`hash, this`nuse, this`chains
      ensures var b := Lmod(h, |old(hash)|);
        && str == old(str)[u := TString(s, h, old(hash)[b], White(currentwhite), false)] && hash == old(hash)[b := u]
        && chains == old(chains)[b := [u] + old(chains)[b]] && nuse == old(nuse) + 1
    {
      var b := Lmod(h, |hash|);
      str := str[u := TString(s, h, hash[b], White(currentwhite), false)];
      hash := hash[b := u];
      chains := chains[b := [u] + chains[b]];
      nuse := nuse + 1;
    }

    /** luaS_resize: all strings move, but not while the buckets are swept. */
    method Resize(newsize: nat)
      requires Valid() && newsize > 0
      modifies this`str, this`hash, this`chains
      ensures Valid() && Relinked(old(str), str)
      ensures |hash| == if gcstate == SweepString then |old(hash)| else newsize
    {
      if gcstate == SweepString {
        return;
      }
      ghost var before := str;
      MoveAll(newsize);
      RelinkedOk(before, str, gcstate, currentwhite, chains);
    }

    method MoveAll(newsize: nat)
      requires Buckets(str, hash, chains, str.Keys) && newsize > 0
      modifies this`str, this`hash, this`chains
      ensures Buckets(str, hash, chains, str.Keys) && Relinked(old(str), str) && |hash| == newsize
    {
      var newhash: seq<int> := seq(newsize, i => NULL);
      ghost var newchains: seq<seq<nat>> := seq(newsize, i => []);
      ghost var before, moved: set<nat> := str, {};
      NoneMoved(chains);
      NoBuckets(str, newsize);
      for i := 0 to |hash|
        invariant hash == old(hash) && chains == old(chains)
        invariant Buckets(before, hash, chains, before.Keys) && Moving(before, str, chains, newhash, newchains, moved, i, 0) && |newhash| == newsize
      {
        newhash, newchains, moved := MoveBucket(i, before, newhash, newchains, moved);
      }
      AllMoved(before, hash, chains, moved);
      hash, chains := newhash, newchains;
    }

    /** The strings of a bucket move. */
    method MoveBucket(i: nat, ghost before: map<nat, TString>, newhash: seq<int>, ghost newchains: seq<seq<nat>>, ghost moved: set<nat>)
      returns (newhash': seq<int>, ghost newchains': seq<seq<nat>>, ghost moved': set<nat>)
      requires Buckets(before, hash, chains, before.Keys) && Moving(before, str, chains, newhash, newchains, moved, i, 0) && i < |hash|
      modifies this`str
      ensures Moving(before, str, chains, newhash', newchains', moved', i + 1, 0) && |newhash'| == |newhash|
    {
      newhash', newchains', moved' := newhash, newchains, moved;
      var p := hash[i];
      ghost var k := 0;
      assert Bucket(before, hash[i], chains[i], i, |chains|);
      while p != NULL
        invariant 0 <= k <= |chains[i]| && p == Nth(chains[i], k) && |newhash'| == |newhash|
        invariant Moving(before, str, chains, newhash', newchains', moved', i, k)
        decreases |chains[i]| - k
      {
        MoveString(before, str, hash, chains, newhash', newchains', moved', i, k);
        var next := str[p].next;
        var h1 := Lmod(str[p].hash, |newhash'|);
        str := str[p := str[p].(next := newhash'[h1])];
        newhash', newchains', moved' := newhash'[h1 := p], newchains'[h1 := [p as nat] + newchains'[h1]], moved' + {p as nat};
        p, k := next, k + 1;
      }
      BucketDone(chains, moved', i);
    }

    /** A string that may be dead is used again. */
    method Revive(u: nat)
      requires u in str
      modifies this`str
      ensures str == Revived(old(str), u, currentwhite)
    {
      if str[u].mark == White(!currentwhite) {
        str := str[u := str[u].(mark := White(currentwhite))];
      }
    }

    // ---------- the collector ----------

    /** GCSsweepstring: one bucket is swept. */
    method SweepBucket()
      requires Valid() && gcstate == SweepString
      modifies this`str, this`hash, this`nuse, this`gcstate, this`sweepstrgc, this`chains
      ensures Valid() && OnlyDead(old(str), str, currentwhite)
      ensures forall u :: u in old(chains)[old(sweepstrgc)] && DeadAt(old(str), u, currentwhite) ==> u !in str
      ensures sweepstrgc == old(sweepstrgc) + 1 && gcstate == (if sweepstrgc < |old(hash)| then SweepString else Sweep)
      ensures |hash| == |old(hash)|
    {
      var b := sweepstrgc;
      BucketSwept(TheParts(), currentwhite, b);
      SweepList(b);
      sweepstrgc := sweepstrgc + 1;
      if sweepstrgc >= |hash| {
        gcstate := Sweep;
      }
    }

    ghost function TheParts(): Parts
      reads this
    {
      Parts(str, hash, chains, nuse)
    }

    /** sweeplist on a bucket. */
    method SweepList(b: nat)
      requires PartsOk(TheParts(), b)
      modifies this`str, this`hash, this`nuse, this`chains
      ensures TheParts() == SweepFrom(old(TheParts()), b, currentwhite, 0)
    {
      ghost var k: nat := 0;
      NextSwept(str, hash, chains, nuse, b, 0);
      var pp, p := NULL, hash[b];
      while p != NULL
        invariant PartsOk(TheParts(), b) && k <= |chains[b]| && p == Nth(chains[b], k) && pp == Nth(chains[b], k - 1)
        invariant SweepFrom(TheParts(), b, currentwhite, k) == SweepFrom(old(TheParts()), b, currentwhite, 0)
        decreases |chains[b]| - k
      {
        NextSwept(str, hash, chains, nuse, b, k);
        ghost var s, i := TheParts(), k;
        var next := str[p].next;
        pp, k := SweepOne(b, pp, p, k);
        SweepTurn(s, b, currentwhite, i, TheParts(), k);
        TurnList(s, b, currentwhite, i, TheParts(), k);
        p := next;
      }
    }

    /** One string: it stays, or it is freed. */
    method SweepOne(b: nat, pp: int, p: nat, ghost k: nat) returns (pp': int, ghost k': nat)
      requires PartsOk(TheParts(), b) && k < |chains[b]| && p == chains[b][k] && pp == Nth(chains[b], k - 1) && p in str
      modifies this`str, this`hash, this`nuse, this`chains
      ensures (TheParts(), k') == TurnOf(old(TheParts()), b, currentwhite, k)
      ensures pp' == if k' == k then pp else p
    {
      if str[p].mark != White(!currentwhite) || str[p].fixed {
        KeepString(b, p, k);
        pp', k' := p, k + 1;
      } else {
        FreeString(b, pp, p, k);
        pp', k' := pp, k;
      }
    }

    /** makewhite. */
    method KeepString(b: nat, p: nat, ghost k: nat)
      requires PartsOk(TheParts(), b) && k < |chains[b]| && p == chains[b][k] && p in str
      modifies this`str
      ensures TheParts() == KeepOne(old(TheParts()), b, k, currentwhite)
    {
      str := str[p := str[p].(mark := White(currentwhite))];
    }

    /** A string is unlinked and freed. */
    method FreeString(b: nat, pp: int, p: nat, ghost k: nat)
      requires PartsOk(TheParts(), b) && k < |chains[b]| && p == chains[b][k] && pp == Nth(chains[b], k - 1) && p in str
      modifies this`str, this`hash, this`nuse, this`chains
      ensures TheParts() == FreeOne(old(TheParts()), b, k)
    {
      FreeFits(TheParts(), b, k);
      UnlinkString(b, pp, p, k);
      str, nuse := str - {p}, nuse - 1;
      chains := chains[b := Without(chains[b], k)];
    }

    method UnlinkString(b: nat, pp: int, p: nat, ghost k: nat)
      requires b < |hash| == |chains| && k < |chains[b]| && p == chains[b][k] && p in str
      requires pp == Nth(chains[b], k - 1) && (k > 0 ==> chains[b][k - 1] in str)
      modifies this`str, this`hash
      ensures hash == FreeHead(old(str), old(hash), b, chains[b], k)
      ensures str == if k > 0 then old(str)[chains[b][k - 1] := old(str)[chains[b][k - 1]].(next := old(str)[p].next)] else old(str)
    {
      if pp == NULL {
        hash := hash[b := str[p].next];
      } else {
        str := str[pp := str[pp].(next := str[p].next)];
      }
    }

    /** markroot. */
    method StartCycle()
      requires Valid() && gcstate == Pause
      modifies this`gcstate
      ensures Valid() && gcstate == Propagate
    {
      gcstate := Propagate;
    }

    /** reallymarkobject, on a string. */
    method MarkString(u: nat)
      requires Valid() && gcstate == Propagate && u in str
      modifies this`str
      ensures Valid() && str == old(str)[u := old(str)[u].(mark := Gray)]
    {
      TouchGood(str, hash, chains, nuse, u, str[u].(mark := Gray));
      GrayMarks(str, chains, currentwhite, sweepstrgc, u);
      str := str[u := str[u].(mark := Gray)];
    }

    /** luaS_fix. */
    method FixString(u: nat)
      requires Valid() && u in str
      modifies this`str
      ensures Valid() && str == old(str)[u := old(str)[u].(fixed := true)]
    {
      TouchGood(str, hash, chains, nuse, u, str[u].(fixed := true));
      FixMarks(str, chains, gcstate, currentwhite, sweepstrgc, u);
      str := str[u := str[u].(fixed := true)];
    }

    /** The end of atomic: what is still white is dead from now on. */
    method Flip()
      requires Valid() && gcstate == Propagate
      modifies this`gcstate, this`currentwhite, this`sweepstrgc
      ensures Valid() && gcstate == SweepString && currentwhite == !old(currentwhite) && sweepstrgc == 0
    {
      currentwhite := !currentwhite;
      sweepstrgc, gcstate := 0, SweepString;
    }

    /** luaC_fullgc gives up a cycle that has not got to its sweep: everything becomes white again. */
    method Restart()
      requires Valid() && (gcstate == Pause || gcstate == Propagate)
      modifies this`gcstate, this`sweepstrgc
      ensures Valid() && gcstate == SweepString && sweepstrgc == 0
    {
      sweepstrgc, gcstate := 0, SweepString;
    }

    /** The end of a cycle: a table with few strings is halved. */
    method EndCycle()
      requires Valid() && gcstate == Sweep
      modifies this`str, this`hash, this`chains, this`gcstate
      ensures Valid() && gcstate == Pause && Relinked(old(str), str) && |hash| == SmallerSize(|str|, |old(hash)|)
    {
      if nuse < |hash| / 4 && |hash| > MINSTRTABSIZE * 2 {
        Resize(|hash| / 2);
      }
      gcstate := Pause;
    }

    // ---------- whole histories ----------

    ghost function Now(): View
      reads this
    {
      View(str, |hash|, gcstate, currentwhite, sweepstrgc)
    }

    /** The same with what every event keeps. */
    method Do(ev: Event, held: map<nat, Text>) returns (given: nat, held': map<nat, Text>)
      requires Valid() && HeldOk(str, held, currentwhite)
      modifies this
      ensures Valid() && HeldOk(str, held', currentwhite) && EventOk(held, ev, given, held')
      ensures old(PowerSize(|hash|)) ==> PowerSize(|hash|)
    {
      ghost var s := Now();
      given, held' := DoOne(ev, held);
      if PowerSize(s.size) {
        SizeKept(held, ev, given, s, Now());
      }
    }

    /** One event; `held` is what the program holds.  The white is flipped only when all of that is marked or fixed,
        as the mark phase sees to. */
    method DoOne(ev: Event, held: map<nat, Text>) returns (given: nat, held': map<nat, Text>)
      requires Valid() && HeldOk(str, held, currentwhite)
      modifies this
      ensures Valid() && HeldOk(str, held', currentwhite) && EventOk(held, ev, given, held')
      ensures EventDone(held, ev, given, old(Now()), Now())
    {
      given, held' := 0, held;
      match ev {
        case Intern(s) =>
          given := InternHeld(s, held);
          held' := held[given := s];
        case Drop(u) => held' := held - {u};
        case Fix(u) => FixHeld(u, held);
        case MarkOne(u) => MarkHeld(u, held);
        case Step => StepHeld(held);
        case GiveUp =>
          if gcstate == Pause || gcstate == Propagate {
            Restart();
          }
      }
    }

    method FixHeld(u: nat, ghost held: map<nat, Text>)
      requires Valid() && HeldOk(str, held, currentwhite)
      modifies this`str
      ensures Valid() && HeldOk(str, held, currentwhite)
      ensures str == if u in old(str) then old(str)[u := old(str)[u].(fixed := true)] else old(str)
    {
      if u in str {
        FixString(u);
      }
    }

    method MarkHeld(u: nat, ghost held: map<nat, Text>)
      requires Valid() && HeldOk(str, held, currentwhite)
      modifies this`str
      ensures Valid() && HeldOk(str, held, currentwhite)
      ensures str == if gcstate == Propagate && u in old(str) then old(str)[u := old(str)[u].(mark := Gray)] else old(str)
    {
      if gcstate == Propagate && u in str {
        MarkString(u);
      }
    }

    /** A step of the collector. */
    method StepHeld(held: map<nat, Text>)
      requires Valid() && HeldOk(str, held, currentwhite)
      modifies this
      ensures Valid() && HeldOk(str, held, currentwhite) && StepDone(held, old(Now()), Now())
    {
      match gcstate {
        case Pause => StartCycle();
        case Propagate =>
          if forall u :: u in held ==> str[u].mark == Gray || str[u].fixed {
            Flip();
          }
        case SweepString => SweepHeld(held);
        case Sweep => EndCycle();
      }
    }

    method SweepHeld(ghost held: map<nat, Text>)
      requires Valid() && gcstate == SweepString && HeldOk(str, held, currentwhite)
      modifies this`str, this`hash, this`nuse, this`gcstate, this`sweepstrgc, this`chains
      ensures Valid() && HeldOk(str, held, currentwhite) && StepDone(held, old(Now()), Now())
    {
      ghost var before := str;
      SweepBucket();
      HeldSurvive(before, str, held, currentwhite);
    }

    method InternHeld(s: Text, ghost held: map<nat, Text>) returns (u: nat)
      requires Valid() && HeldOk(str, held, currentwhite)
      modifies this`str, this`hash, this`nuse, this`chains
      ensures Valid() && HeldOk(str, held[u := s], currentwhite) && EventOk(held, Intern(s), u, held[u := s])
      ensures Interned(s, u, old(Now()), Now())
    {
      ghost var before := str;
      u := NewLStr(s);
      HeldMore(before, str, held, currentwhite, u, s);
    }

    /** Any sequence of events, in which collections go on at any time: whenever the program asks for a text that it
        holds, it gets the string that it holds, and otherwise one that it does not. */
    method DoAll(events: seq<Event>) returns (given: seq<nat>, history: seq<map<nat, Text>>)
      requires Valid()
      modifies this
      ensures Valid() && RunOk(events, given, history) && |given| == |events|
      ensures HeldOk(str, history[|events|], currentwhite)
      ensures old(PowerSize(|hash|)) ==> PowerSize(|hash|)
    {
      var held: map<nat, Text> := map[];
      given, history := [], [held];
      ghost var power := PowerSize(|hash|);
      for k := 0 to |events|
        invariant |given| == k && |history| == k + 1 && history[k] == held
        invariant Valid() && HeldOk(str, held, currentwhite) && RunOk(events, given, history) && (power ==> PowerSize(|hash|))
      {
        var u, held1 := Do(events[k], held);
        SameText(str, held1, currentwhite);
        RunMore(events, given, history, u, held1);
        held := held1;
        given, history := given + [u], history + [held];
      }
    }
  }

  /** What happens to strings: the program asks for one or lets one go, and the collector goes on. */
  datatype Event = Intern(s: Text) | Drop(u: nat) | Fix(u: nat) | MarkOne(u: nat) | Step | GiveUp

  /** What the program was given, and what it has held: at any time, one address for each text. */
  ghost predicate RunOk(events: seq<Event>, given: seq<nat>, history: seq<map<nat, Text>>) {
    && |history| == |given| + 1 && |given| <= |events| && history[0] == map[]
    && (forall i :: 0 <= i < |given| ==> EventOk(history[i], events[i], given[i], history[i + 1]))
    && (forall i :: 0 <= i <= |given| ==> Unique(history[i]))
  }

  lemma RunMore(events: seq<Event>, given: seq<nat>, history: seq<map<nat, Text>>, u: nat, held: map<nat, Text>)
    requires RunOk(events, given, history) && |given| < |events|
    requires EventOk(history[|given|], events[|given|], u, held) && Unique(held)
    ensures RunOk(events, given + [u], history + [held])
  {
  }

  /** What the events are about. */
  datatype View = View(str: map<nat, TString>, size: nat, phase: Phase, kind: bool, sweepstrgc: nat)

  /** The sizes of the table, in buckets: it is doubled when it holds more strings than buckets, but not while it
      is swept, and halved at the end of a cycle when it holds less than a quarter as many. */
  function LargerSize(n: nat, size: nat, phase: Phase): nat {
    if phase != SweepString && n > size && size <= 0x3FFF_FFFE then 2 * size else size
  }

  function SmallerSize(n: nat, size: nat): nat {
    if n < size / 4 && size > 64 then size / 2 else size
  }

  /** A text was asked for. */
  ghost predicate Interned(t: Text, given: nat, s: View, s': View) {
    && s' == s.(str := s'.str, size := s'.size) && Grown(s.str, s'.str, given)
    && given in s'.str && s'.str[given].text == t && s'.str[given].mark != White(!s.kind)
    && (given in s.str <==> exists x :: x in s.str && s.str[x].text == t)
    && s'.size == (if given in s.str then s.size else LargerSize(|s'.str|, s.size, s.phase))
  }

  /** What a step of the collector does in each phase. */
  ghost predicate StepDone(held: map<nat, Text>, s: View, s': View) {
    match s.phase
    case Pause => s' == s.(phase := Propagate)
    case Propagate =>
      if forall u :: u in held ==> u in s.str && (s.str[u].mark == Gray || s.str[u].fixed)
      then s' == s.(phase := SweepString, kind := !s.kind, sweepstrgc := 0) else s' == s
    case SweepString =>
      && s' == s.(str := s'.str, sweepstrgc := s.sweepstrgc + 1, phase := if s.sweepstrgc + 1 < s.size then SweepString else Sweep)
      && OnlyDead(s.str, s'.str, s.kind)
      && forall u :: u in s.str && s.size > 0 && Lmod(s.str[u].hash, s.size) == s.sweepstrgc && DeadAt(s.str, u, s.kind) ==> u !in s'.str
    case Sweep =>
      s' == s.(str := s'.str, phase := Pause, size := SmallerSize(|s.str|, s.size)) && Relinked(s.str, s'.str)
  }

  /** What an event does. */
  ghost predicate EventDone(held: map<nat, Text>, ev: Event, given: nat, s: View, s': View) {
    match ev
    case Intern(t) => Interned(t, given, s, s')
    case Drop(_) => s' == s
    case Fix(u) => s' == if u in s.str then s.(str := s.str[u := s.str[u].(fixed := true)]) else s
    case MarkOne(u) => s' == if s.phase == Propagate && u in s.str then s.(str := s.str[u := s.str[u].(mark := Gray)]) else s
    case Step => StepDone(held, s, s')
    case GiveUp => s' == if s.phase == Pause || s.phase == Propagate then s.(phase := SweepString, sweepstrgc := 0) else s
  }

  /** lmod takes the low bits, so the size must be a power of two; it is never less than 32. */
  ghost predicate PowerSize(size: nat) {
    size >= 32 && exists k: nat :: size == Pow2(k)
  }

  lemma SizeKept(held: map<nat, Text>, ev: Event, given: nat, s: View, s': View)
    requires EventDone(held, ev, given, s, s') && PowerSize(s.size)
    ensures PowerSize(s'.size)
  {
    var k: nat :| s.size == Pow2(k);
    assert 2 * s.size == Pow2(k + 1);
    assert k > 0 && s.size / 2 == Pow2(k - 1);
  }

  /** What an event gives to the program. */
  ghost predicate EventOk(held: map<nat, Text>, ev: Event, given: nat, held': map<nat, Text>) {
    match ev
    case Intern(s) => held' == held[given := s] && (forall w :: w in held ==> (held[w] == s <==> w == given))
    case Drop(u) => held' == held - {u}
    case _ => held' == held
  }
}

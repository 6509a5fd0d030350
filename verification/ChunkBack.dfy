/** What is written can be read back: the round trip of precompiled chunks. */
module ChunkBack {
  import opened Wrappers
  import opened Numbers
  import opened ChunkFormat

  /** A prototype as it comes back: the same, or without its debug information. */
  function Stripped(f: Proto): Proto {
    f.(source := Some([61, 63]), lineinfo := [], locvars := [], upvalues := [],
       p := seq(|f.p|, i requires 0 <= i < |f.p| => Stripped(f.p[i])))
  }

  function Loaded(f: Proto, strip: bool): Proto {
    if strip then Stripped(f) else f
  }

  function Depth(f: Proto): nat {
    1 + DepthOf(f.p)
  }

  function DepthOf(ps: seq<Proto>): nat {
    if ps == [] then 0 else var d := DepthOf(ps[1..]); if Depth(ps[0]) > d then Depth(ps[0]) else d
  }

  /** What must hold of a function to come back: it says where it comes from, unless that is stripped, and line and
      pc fields that are read with LoadInt are not negative. */
  predicate Dumpable(f: Proto, strip: bool) {
    PartsFit(f, strip) && forall i :: 0 <= i < |f.p| ==> Dumpable(f.p[i], strip)
  }

  predicate PartsFit(f: Proto, strip: bool) {
    && f.linedefined >= 0 && f.lastlinedefined >= 0
    && (strip || (f.source.Some? && forall i :: 0 <= i < |f.locvars| ==> f.locvars[i].startpc >= 0 && f.locvars[i].endpc >= 0))
  }

  /** The checker accepts the function and those in it. */
  predicate Accepted(f: Proto, check: Proto -> bool) {
    check(f) && forall i :: 0 <= i < |f.p| ==> Accepted(f.p[i], check)
  }

  // ---------- the parts ----------

  lemma Grouped2(a: Text, b: Text, rest: Text)
    ensures a + b + rest == a + (b + rest)
  {
  }

  lemma BlockBack(a: Text, rest: Text)
    ensures ReadBlock(a + rest, |a|) == Good(a, rest)
  {
    BlockIs(a + rest, |a|);
    assert (a + rest)[..|a|] == a && (a + rest)[|a|..] == rest;
  }

  lemma IntBack(x: int, rest: Text)
    requires 0 <= x && IsInt(x)
    ensures ReadInt(IntBytes(x) + rest) == Good(x, rest)
  {
    BlockBack(IntBytes(x), rest);
    Sizes();
    WordBack(x, SIZE_INT);
  }

  lemma TextBack(s: Option<Text>, rest: Text)
    requires FitsText(s)
    ensures ReadText(TextBytes(s) + rest) == Good(s, rest)
  {
    Sizes();
    match s
    case None =>
      BlockBack(Word(0, SIZE_SIZE_T), rest);
      WordBack(0, SIZE_SIZE_T);
    case Some(t) =>
      var y := t + [0] + rest;
      assert TextBytes(s) + rest == Word(|t| + 1, SIZE_SIZE_T) + y;
      BlockBack(Word(|t| + 1, SIZE_SIZE_T), y);
      WordBack(|t| + 1, SIZE_SIZE_T);
      BlockBack(t + [0], rest);
      assert (t + [0])[..|t|] == t;
  }

  lemma TagBack(t: Byte, y: Text)
    ensures ReadChar([t] + y) == Good(t, y)
  {
    BlockBack([t], y);
  }

  lemma NumberBack(bits: nat, rest: Text)
    requires bits < 0x1_0000_0000_0000_0000
    ensures ReadConst(ConstBytes(Number(bits)) + rest) == Good(Number(bits), rest)
  {
    assert ConstBytes(Number(bits)) + rest == [3] + (Word(bits, SIZE_NUMBER) + rest);
    TagBack(3, Word(bits, SIZE_NUMBER) + rest);
    BlockBack(Word(bits, SIZE_NUMBER), rest);
    Sizes();
    WordBack(bits, SIZE_NUMBER);
  }

  lemma BoolBack(b: bool, rest: Text)
    ensures ReadConst(ConstBytes(Bool(b)) + rest) == Good(Bool(b), rest)
  {
    var y: Text := [if b then 1 else 0];
    assert ConstBytes(Bool(b)) + rest == [1] + (y + rest);
    TagBack(1, y + rest);
    TagBack(y[0], rest);
  }

  lemma StrBack(s: Option<Text>, rest: Text)
    requires FitsText(s)
    ensures ReadConst(ConstBytes(Str(s)) + rest) == Good(Str(s), rest)
  {
    assert ConstBytes(Str(s)) + rest == [4] + (TextBytes(s) + rest);
    TagBack(4, TextBytes(s) + rest);
    TextBack(s, rest);
  }

  lemma ConstBack(c: Const, rest: Text)
    requires FitsConst(c)
    ensures ReadConst(ConstBytes(c) + rest) == Good(c, rest)
  {
    match c
    case Nil => TagBack(0, rest);
    case Bool(b) => BoolBack(b, rest);
    case Number(bits) => NumberBack(bits, rest);
    case Str(s) => StrBack(s, rest);
  }

  lemma ConstsStep(z: Text, c: Const, y: Text, cs: seq<Const>, rest: Text)
    requires ReadConst(z) == Good(c, y) && ReadConsts(y, |cs|) == Good(cs, rest)
    ensures ReadConsts(z, |cs| + 1) == Good([c] + cs, rest)
  {
  }

  lemma {:induction false} ConstsBack(k: seq<Const>, rest: Text)
    requires forall i :: 0 <= i < |k| ==> FitsConst(k[i])
    ensures ReadConsts(ConstsBytes(k) + rest, |k|) == Good(k, rest)
  {
    if k == [] {
      assert ConstsBytes(k) + rest == rest;
    } else {
      var more := ConstsBytes(k[1..]) + rest;
      Grouped2(ConstBytes(k[0]), ConstsBytes(k[1..]), rest);
      ConstBack(k[0], more);
      ConstsBack(k[1..], rest);
      ConstsStep(ConstsBytes(k) + rest, k[0], more, k[1..], rest);
      assert [k[0]] + k[1..] == k;
    }
  }

  lemma TextsStep(z: Text, t: Option<Text>, y: Text, ts: seq<Option<Text>>, rest: Text)
    requires ReadText(z) == Good(t, y) && ReadTexts(y, |ts|) == Good(ts, rest)
    ensures ReadTexts(z, |ts| + 1) == Good([t] + ts, rest)
  {
  }

  lemma {:induction false} TextsBack(ts: seq<Option<Text>>, rest: Text)
    requires forall i :: 0 <= i < |ts| ==> FitsText(ts[i])
    ensures ReadTexts(TextsBytes(ts) + rest, |ts|) == Good(ts, rest)
  {
    if ts == [] {
      assert TextsBytes(ts) + rest == rest;
    } else {
      var more := TextsBytes(ts[1..]) + rest;
      Grouped2(TextBytes(ts[0]), TextsBytes(ts[1..]), rest);
      TextBack(ts[0], more);
      TextsBack(ts[1..], rest);
      TextsStep(TextsBytes(ts) + rest, ts[0], more, ts[1..], rest);
      assert [ts[0]] + ts[1..] == ts;
    }
  }

  lemma LocVarStep(z: Text, v: LocVar, y: Text, x: Text, rest: Text)
    requires ReadText(z) == Good(v.varname, y) && v.startpc >= 0 && v.endpc >= 0
    requires ReadInt(y) == Good(v.startpc, x) && ReadInt(x) == Good(v.endpc, rest)
    ensures ReadLocVar(z) == Good(v, rest)
  {
  }

  lemma LocVarsStep(z: Text, v: LocVar, y: Text, vs: seq<LocVar>, rest: Text)
    requires ReadLocVar(z) == Good(v, y) && ReadLocVars(y, |vs|) == Good(vs, rest)
    ensures ReadLocVars(z, |vs| + 1) == Good([v] + vs, rest)
  {
  }

  lemma LocVarBack(v: LocVar, rest: Text)
    requires FitsLocVar(v) && v.startpc >= 0 && v.endpc >= 0
    ensures ReadLocVar(LocVarBytes(v) + rest) == Good(v, rest)
  {
    var e := IntBytes(v.endpc) + rest;
    var s := IntBytes(v.startpc) + e;
    assert LocVarBytes(v) + rest == TextBytes(v.varname) + s;
    TextBack(v.varname, s);
    IntBack(v.startpc, e);
    IntBack(v.endpc, rest);
    LocVarStep(LocVarBytes(v) + rest, v, s, e, rest);
  }

  lemma {:induction false} LocVarsBack(vs: seq<LocVar>, rest: Text)
    requires forall i :: 0 <= i < |vs| ==> FitsLocVar(vs[i]) && vs[i].startpc >= 0 && vs[i].endpc >= 0
    ensures ReadLocVars(LocVarsBytes(vs) + rest, |vs|) == Good(vs, rest)
  {
    if vs == [] {
      assert LocVarsBytes(vs) + rest == rest;
    } else {
      var more := LocVarsBytes(vs[1..]) + rest;
      Grouped2(LocVarBytes(vs[0]), LocVarsBytes(vs[1..]), rest);
      LocVarBack(vs[0], more);
      LocVarsBack(vs[1..], rest);
      LocVarsStep(LocVarsBytes(vs) + rest, vs[0], more, vs[1..], rest);
      assert [vs[0]] + vs[1..] == vs;
    }
  }

  lemma VectorBack(a: seq<nat>, w: nat, rest: Text)
    requires IsSize(|a|) && forall i :: 0 <= i < |a| ==> a[i] < Pow256(w)
    ensures ReadVector(IntBytes(|a|) + (Words(a, w) + rest), w) == Good(a, rest)
  {
    IntBack(|a|, Words(a, w) + rest);
    BlockBack(Words(a, w), rest);
    WordsBack(a, w);
  }

  lemma FlagsBack(n: Byte, p: Byte, v: Byte, m: Byte, rest: Text)
    ensures ReadFlags([n, p, v, m] + rest) == Good([n, p, v, m], rest)
  {
    assert [n, p, v, m] + rest == [n] + ([p] + ([v] + ([m] + rest)));
    TagBack(n, [p] + ([v] + ([m] + rest)));
    TagBack(p, [v] + ([m] + rest));
    TagBack(v, [m] + rest);
    TagBack(m, rest);
  }

  lemma StartStep(z: Text, parent: Option<Text>, s: Option<Text>, l: Text, ld: nat, m: Text, lld: nat, b: Text,
                  nups: Byte, numparams: Byte, isVararg: Byte, maxstacksize: Byte, c: Text, code: seq<nat>, rest: Text)
    requires ReadText(z) == Good(s, l) && ReadInt(l) == Good(ld, m) && ReadInt(m) == Good(lld, b)
    requires b == [nups, numparams, isVararg, maxstacksize] + c && ReadVector(c, SIZE_INSTRUCTION) == Good(code, rest)
    ensures ReadStart(z, parent)
      == Good(Proto(if s == None then parent else s, ld, lld, nups, numparams, isVararg, maxstacksize, code, [], [], [], [], []), rest)
  {
    FlagsBack(nups, numparams, isVararg, maxstacksize, c);
  }

  lemma Grouped6(a: Text, b: Text, c: Text, d: Text, e: Text, f: Text, rest: Text)
    ensures a + b + c + d + e + f + rest == a + (b + (c + (d + (e + (f + rest)))))
  {
  }

  lemma StartBack(f: Fitting, dumped: Option<Text>, loaded: Option<Text>, strip: bool, rest: Text)
    requires PartsFit(f, strip)
    requires if strip then loaded == Some(UNKNOWN) else dumped == None || dumped == loaded
    ensures ReadStart(StartBytes(f, dumped, strip) + rest, loaded)
      == Good(Proto(if strip then Some(UNKNOWN) else f.source, f.linedefined, f.lastlinedefined, f.nups, f.numparams,
                    f.isVararg, f.maxstacksize, f.code, [], [], [], [], []), rest)
  {
    var s := if f.source == dumped || strip then None else f.source;
    var code, flags := Words(f.code, SIZE_INSTRUCTION), [f.nups, f.numparams, f.isVararg, f.maxstacksize];
    var c := IntBytes(|f.code|) + (code + rest);
    var b := flags + c;
    var m := IntBytes(f.lastlinedefined) + b;
    var l := IntBytes(f.linedefined) + m;
    Grouped6(TextBytes(s), IntBytes(f.linedefined), IntBytes(f.lastlinedefined), flags, IntBytes(|f.code|), code, rest);
    TextBack(s, l);
    IntBack(f.linedefined, m);
    IntBack(f.lastlinedefined, b);
    Sizes();
    VectorBack(f.code, SIZE_INSTRUCTION, rest);
    StartStep(StartBytes(f, dumped, strip) + rest, loaded, s, l, f.linedefined, m, f.lastlinedefined, b,
              f.nups, f.numparams, f.isVararg, f.maxstacksize, c, f.code, rest);
  }

  lemma SignedBack(a: seq<int>)
    requires forall i :: 0 <= i < |a| ==> IsInt(a[i])
    ensures Signeds(Unsigneds(a)) == a && forall i :: 0 <= i < |a| ==> Unsigneds(a)[i] < 0x1_0000_0000
  {
  }

  lemma DebugStep(z: Text, g: Proto, lineinfo: seq<nat>, y: Text, locvars: seq<LocVar>, vs: Text, x: Text,
                  upvalues: seq<Option<Text>>, us: Text, rest: Text)
    requires ReadVector(z, SIZE_INT) == Good(lineinfo, y)
    requires ReadInt(y) == Good(|locvars|, vs) && ReadLocVars(vs, |locvars|) == Good(locvars, x)
    requires ReadInt(x) == Good(|upvalues|, us) && ReadTexts(us, |upvalues|) == Good(upvalues, rest)
    ensures ReadDebug(z, g) == Good(g.(lineinfo := Signeds(lineinfo), locvars := locvars, upvalues := upvalues), rest)
  {
  }

  lemma DebugBack(f: Fitting, g: Proto, strip: bool, rest: Text)
    requires PartsFit(f, strip)
    ensures ReadDebug(DebugBytes(f, strip) + rest, g)
      == Good(if strip then g.(lineinfo := [], locvars := [], upvalues := [])
              else g.(lineinfo := f.lineinfo, locvars := f.locvars, upvalues := f.upvalues), rest)
  {
    var lineinfo, locvars, upvalues := if strip then [] else f.lineinfo, if strip then [] else f.locvars,
                                       if strip then [] else f.upvalues;
    DebugAs(f, strip, rest);
    DebugPartsBack(lineinfo, locvars, upvalues, g, rest);
    SignedBack(lineinfo);
  }

  function DebugParts(lineinfo: seq<int>, locvars: seq<LocVar>, upvalues: seq<Option<Text>>, rest: Text): Text
    requires IsSize(|lineinfo|) && IsSize(|locvars|) && IsSize(|upvalues|)
    requires (forall i :: 0 <= i < |lineinfo| ==> IsInt(lineinfo[i])) && forall i :: 0 <= i < |locvars| ==> FitsLocVar(locvars[i])
  {
    IntBytes(|lineinfo|) + (Words(Unsigneds(lineinfo), SIZE_INT)
    + (IntBytes(|locvars|) + (LocVarsBytes(locvars) + (IntBytes(|upvalues|) + (TextsBytes(upvalues) + rest)))))
  }

  lemma DebugAs(f: Fitting, strip: bool, rest: Text)
    ensures DebugBytes(f, strip) + rest
      == if strip then DebugParts([], [], [], rest) else DebugParts(f.lineinfo, f.locvars, f.upvalues, rest)
  {
    if strip {
      assert Words(Unsigneds([]), SIZE_INT) == [] && LocVarsBytes([]) == [] && TextsBytes([]) == [];
    } else {
      Grouped6(IntBytes(|f.lineinfo|), Words(Unsigneds(f.lineinfo), SIZE_INT), IntBytes(|f.locvars|), LocVarsBytes(f.locvars),
               IntBytes(|f.upvalues|), TextsBytes(f.upvalues), rest);
    }
  }

  lemma DebugPartsBack(lineinfo: seq<int>, locvars: seq<LocVar>, upvalues: seq<Option<Text>>, g: Proto, rest: Text)
    requires IsSize(|lineinfo|) && IsSize(|locvars|) && IsSize(|upvalues|)
    requires forall i :: 0 <= i < |lineinfo| ==> IsInt(lineinfo[i])
    requires forall i :: 0 <= i < |locvars| ==> FitsLocVar(locvars[i]) && locvars[i].startpc >= 0 && locvars[i].endpc >= 0
    requires forall i :: 0 <= i < |upvalues| ==> FitsText(upvalues[i])
    ensures ReadDebug(DebugParts(lineinfo, locvars, upvalues, rest), g)
      == Good(g.(lineinfo := lineinfo, locvars := locvars, upvalues := upvalues), rest)
  {
    var us := TextsBytes(upvalues) + rest;
    var x := IntBytes(|upvalues|) + us;
    var vs := LocVarsBytes(locvars) + x;
    var y := IntBytes(|locvars|) + vs;
    Sizes();
    SignedBack(lineinfo);
    VectorBack(Unsigneds(lineinfo), SIZE_INT, y);
    IntBack(|locvars|, vs);
    LocVarsBack(locvars, x);
    IntBack(|upvalues|, us);
    TextsBack(upvalues, rest);
    DebugStep(DebugParts(lineinfo, locvars, upvalues, rest), g, Unsigneds(lineinfo), y, locvars, vs, x, upvalues, us, rest);
  }

  // ---------- whole functions ----------


  /** The constants and the functions inside. */
  lemma ConstantsStep(n: Text, source: Option<Text>, calls: nat, check: Proto -> bool, k: seq<Const>, kz: Text, m: Text,
                      ps: seq<Proto>, pz: Text, d: Text)
    requires ReadInt(n) == Good(|k|, kz) && ReadConsts(kz, |k|) == Good(k, m)
    requires ReadInt(m) == Good(|ps|, pz) && ReadFunctions(pz, |ps|, source, calls, check) == Good(ps, d)
    ensures ReadConstants(n, source, calls, check) == Good((k, ps), d)
  {
  }

  lemma NestedStep(z: Text, parent: Option<Text>, calls: nat, check: Proto -> bool, start: Proto, n: Text,
                   k: seq<Const>, ps: seq<Proto>, d: Text)
    requires ReadStart(z, parent) == Good(start, n)
    requires ReadConstants(n, start.source, calls, check) == Good((k, ps), d)
    ensures var r := ReadDebug(d, start.(k := k, p := ps));
      ReadNested(z, parent, calls, check) == if r.Bad? then r else if !check(r.v) then Bad("bad code") else r
  {
  }

  lemma FunctionStep(z: Text, parent: Option<Text>, calls: nat, check: Proto -> bool, start: Proto, n: Text,
                     k: seq<Const>, kz: Text, m: Text, ps: seq<Proto>, pz: Text, d: Text, f: Proto, rest: Text)
    requires calls + 1 <= LUAI_MAXCCALLS && ReadStart(z, parent) == Good(start, n)
    requires ReadInt(n) == Good(|k|, kz) && ReadConsts(kz, |k|) == Good(k, m)
    requires ReadInt(m) == Good(|ps|, pz) && ReadFunctions(pz, |ps|, start.source, calls + 1, check) == Good(ps, d)
    requires ReadDebug(d, start.(k := k, p := ps)) == Good(f, rest) && check(f)
    ensures ReadFunction(z, parent, calls, check) == Good(f, rest)
  {
    ConstantsStep(n, start.source, calls + 1, check, k, kz, m, ps, pz, d);
    NestedStep(z, parent, calls + 1, check, start, n, k, ps, d);
  }

  lemma FunctionsStep(z: Text, parent: Option<Text>, calls: nat, check: Proto -> bool, f: Proto, y: Text, fs: seq<Proto>, rest: Text)
    requires ReadFunction(z, parent, calls, check) == Good(f, y)
    requires ReadFunctions(y, |fs|, parent, calls, check) == Good(fs, rest)
    ensures ReadFunctions(z, |fs| + 1, parent, calls, check) == Good([f] + fs, rest)
  {
  }

  // What follows each part of the bytes of a function.

  function DebugOn(f: Fitting, strip: bool, rest: Text): Text
  {
    DebugBytes(f, strip) + rest
  }

  function ProtosOn(f: Fitting, strip: bool, rest: Text): Text
  {
    FunctionsBytes(f.p, f.source, strip) + DebugOn(f, strip, rest)
  }

  function ProtoCountOn(f: Fitting, strip: bool, rest: Text): Text
  {
    IntBytes(|f.p|) + ProtosOn(f, strip, rest)
  }

  function ConstsOn(f: Fitting, strip: bool, rest: Text): Text
  {
    ConstsBytes(f.k) + ProtoCountOn(f, strip, rest)
  }

  function ConstCountOn(f: Fitting, strip: bool, rest: Text): Text
  {
    IntBytes(|f.k|) + ConstsOn(f, strip, rest)
  }

  lemma FunctionOn(f: Fitting, dumped: Option<Text>, strip: bool, rest: Text)
    ensures FunctionBytes(f, dumped, strip) + rest == StartBytes(f, dumped, strip) + ConstCountOn(f, strip, rest)
  {
    Grouped6(StartBytes(f, dumped, strip), IntBytes(|f.k|), ConstsBytes(f.k), IntBytes(|f.p|),
             FunctionsBytes(f.p, f.source, strip), DebugBytes(f, strip), rest);
  }

  function LoadedStart(f: Proto, strip: bool): Proto {
    Proto(if strip then Some(UNKNOWN) else f.source, f.linedefined, f.lastlinedefined, f.nups, f.numparams, f.isVararg,
          f.maxstacksize, f.code, [], [], [], [], [])
  }

  /** All of a function but those inside it. */
  lemma PiecesBack(f: Fitting, dumped: Option<Text>, loaded: Option<Text>, strip: bool, rest: Text)
    requires PartsFit(f, strip)
    requires if strip then loaded == Some(UNKNOWN) else dumped == None || dumped == loaded
    ensures ReadStart(FunctionBytes(f, dumped, strip) + rest, loaded) == Good(LoadedStart(f, strip), ConstCountOn(f, strip, rest))
    ensures ReadInt(ConstCountOn(f, strip, rest)) == Good(|f.k|, ConstsOn(f, strip, rest))
    ensures ReadConsts(ConstsOn(f, strip, rest), |f.k|) == Good(f.k, ProtoCountOn(f, strip, rest))
    ensures ReadInt(ProtoCountOn(f, strip, rest)) == Good(|f.p|, ProtosOn(f, strip, rest))
    ensures ReadDebug(DebugOn(f, strip, rest), LoadedStart(f, strip).(k := f.k, p := LoadedAll(f.p, strip)))
      == Good(Loaded(f, strip), rest)
  {
    FunctionOn(f, dumped, strip, rest);
    StartBack(f, dumped, loaded, strip, ConstCountOn(f, strip, rest));
    IntBack(|f.k|, ConstsOn(f, strip, rest));
    ConstsBack(f.k, ProtoCountOn(f, strip, rest));
    IntBack(|f.p|, ProtosOn(f, strip, rest));
    DebugBack(f, LoadedStart(f, strip).(k := f.k, p := LoadedAll(f.p, strip)), strip, rest);
    assert LoadedAll(f.p, strip) == Loaded(f, strip).p;
  }

  /** A function that can be dumped, and is accepted when it is loaded. */
  ghost predicate Ready(f: Proto, strip: bool, check: Proto -> bool) {
    Dumpable(f, strip) && Accepted(Loaded(f, strip), check)
  }

  ghost predicate AllReady(ps: seq<Proto>, strip: bool, check: Proto -> bool) {
    forall i :: 0 <= i < |ps| ==> Ready(ps[i], strip, check)
  }

  /** What holds of a function holds of those in it. */
  lemma PartsReady(f: Proto, strip: bool, check: Proto -> bool)
    requires Ready(f, strip, check)
    ensures AllReady(f.p, strip, check) && check(Loaded(f, strip))
  {
    forall i | 0 <= i < |f.p|
      ensures Accepted(Loaded(f.p[i], strip), check)
    {
      assert Loaded(f, strip).p[i] == Loaded(f.p[i], strip);
    }
  }

  lemma ReadyTail(ps: seq<Proto>, strip: bool, check: Proto -> bool)
    requires AllReady(ps, strip, check) && ps != []
    ensures Ready(ps[0], strip, check) && AllReady(ps[1..], strip, check)
  {
  }

  lemma LoadedCons(ps: seq<Proto>, strip: bool)
    requires ps != []
    ensures LoadedAll(ps, strip) == [Loaded(ps[0], strip)] + LoadedAll(ps[1..], strip)
  {
  }

  function LoadedAll(ps: seq<Proto>, strip: bool): (r: seq<Proto>)
    ensures |r| == |ps|
  {
    seq(|ps|, i requires 0 <= i < |ps| => Loaded(ps[i], strip))
  }

  lemma FunctionsOn(ps: seq<Fitting>, dumped: Option<Text>, strip: bool, rest: Text)
    requires ps != []
    ensures FunctionsBytes(ps, dumped, strip) + rest
      == FunctionBytes(ps[0], dumped, strip) + (FunctionsBytes(ps[1..], dumped, strip) + rest)
  {
    Grouped2(FunctionBytes(ps[0], dumped, strip), FunctionsBytes(ps[1..], dumped, strip), rest);
  }

  /** With those inside it read, the function is. */
  lemma FunctionJoined(f: Fitting, dumped: Option<Text>, loaded: Option<Text>, strip: bool, calls: nat,
                       check: Proto -> bool, rest: Text)
    requires PartsFit(f, strip)
    requires if strip then loaded == Some(UNKNOWN) else dumped == None || dumped == loaded
    requires check(Loaded(f, strip)) && calls + 1 <= LUAI_MAXCCALLS
    requires ReadFunctions(ProtosOn(f, strip, rest), |f.p|, LoadedStart(f, strip).source, calls + 1, check)
      == Good(LoadedAll(f.p, strip), DebugOn(f, strip, rest))
    ensures ReadFunction(FunctionBytes(f, dumped, strip) + rest, loaded, calls, check) == Good(Loaded(f, strip), rest)
  {
    PiecesBack(f, dumped, loaded, strip, rest);
    FunctionStep(FunctionBytes(f, dumped, strip) + rest, loaded, calls, check, LoadedStart(f, strip),
                 ConstCountOn(f, strip, rest), f.k, ConstsOn(f, strip, rest), ProtoCountOn(f, strip, rest),
                 LoadedAll(f.p, strip), ProtosOn(f, strip, rest), DebugOn(f, strip, rest), Loaded(f, strip), rest);
  }

  lemma {:induction false} FunctionBack(f: Fitting, dumped: Option<Text>, loaded: Option<Text>, strip: bool, calls: nat,
                                        check: Proto -> bool, rest: Text)
    requires Ready(f, strip, check) && calls + Depth(f) <= LUAI_MAXCCALLS
    requires if strip then loaded == Some(UNKNOWN) else dumped == None || dumped == loaded
    ensures ReadFunction(FunctionBytes(f, dumped, strip) + rest, loaded, calls, check) == Good(Loaded(f, strip), rest)
    decreases f, 0
  {
    PartsReady(f, strip, check);
    FunctionsBack(f.p, f.source, LoadedStart(f, strip).source, strip, calls + 1, check, DebugOn(f, strip, rest));
    FunctionJoined(f, dumped, loaded, strip, calls, check, rest);
  }

  lemma {:induction false} FunctionsBack(ps: seq<Fitting>, dumped: Option<Text>, loaded: Option<Text>, strip: bool, calls: nat,
                                         check: Proto -> bool, rest: Text)
    requires AllReady(ps, strip, check) && calls + DepthOf(ps) <= LUAI_MAXCCALLS
    requires if strip then loaded == Some(UNKNOWN) else dumped == None || dumped == loaded
    ensures ReadFunctions(FunctionsBytes(ps, dumped, strip) + rest, |ps|, loaded, calls, check)
      == Good(LoadedAll(ps, strip), rest)
    decreases ps
  {
    if ps == [] {
      assert FunctionsBytes(ps, dumped, strip) + rest == rest && LoadedAll(ps, strip) == [];
    } else {
      ReadyTail(ps, strip, check);
      FunctionsOn(ps, dumped, strip, rest);
      var more := FunctionsBytes(ps[1..], dumped, strip) + rest;
      FunctionBack(ps[0], dumped, loaded, strip, calls, check, more);
      FunctionsBack(ps[1..], dumped, loaded, strip, calls, check, rest);
      FunctionsStep(FunctionsBytes(ps, dumped, strip) + rest, loaded, calls, check, Loaded(ps[0], strip), more,
                    LoadedAll(ps[1..], strip), rest);
      LoadedCons(ps, strip);
    }
  }

  /** The bytes of a whole chunk. */
  function ChunkBytes(f: Fitting, strip: bool): Text
  {
    [27, 76, 117, 97, 0x51, 0, 1, 4, 8, 4, 8, 0] + FunctionBytes(f, None, strip)
  }

  /** Undumping a dumped function gives it back (without its debug information when it was stripped), and consumes
      exactly the bytes written. */
  lemma ChunkComesBack(f: Fitting, strip: bool, calls: nat, check: Proto -> bool, rest: Text)
    requires Ready(f, strip, check) && calls + Depth(f) <= LUAI_MAXCCALLS
    ensures ReadChunk(ChunkBytes(f, strip) + rest, calls, check) == Good(Loaded(f, strip), rest)
  {
    var z := FunctionBytes(f, None, strip) + rest;
    assert ChunkBytes(f, strip) + rest == HEADER + z;
    BlockBack(HEADER, z);
    FunctionBack(f, None, Some(UNKNOWN), strip, calls, check, rest);
  }
}

/** Precompiled chunks: the bytes of a function prototype, and how they are read back. */
module ChunkFormat {
  import opened Wrappers
  import opened Numbers

  type Text = seq<Byte>

  datatype Const = Nil | Bool(b: bool) | Number(bits: nat) | Str(s: Option<Text>)

  datatype LocVar = LocVar(varname: Option<Text>, startpc: int, endpc: int)

  datatype Proto = Proto(source: Option<Text>, linedefined: int, lastlinedefined: int, nups: Byte, numparams: Byte,
                         isVararg: Byte, maxstacksize: Byte, code: seq<nat>, k: seq<Const>, p: seq<Proto>,
                         lineinfo: seq<int>, locvars: seq<LocVar>, upvalues: seq<Option<Text>>)

  const SIZE_INT: nat := 4
  const SIZE_SIZE_T: nat := 8
  const SIZE_INSTRUCTION: nat := 4
  const SIZE_NUMBER: nat := 8
  const LUAI_MAXCCALLS: nat := 200
  const HEADERSIZE: nat := 12
  /** "=?", the source of a chunk that does not tell it. */
  const UNKNOWN: Text := [61, 63]

  /** luaU_header, on a little-endian machine with the sizes above and numbers with fractions. */
  const HEADER: Text := [27, 76, 117, 97, 0x51, 0, 1, 4, 8, 4, 8, 0]

  // ---------- words ----------

  function Pow256(w: nat): (n: nat)
    ensures n >= 1
  {
    if w == 0 then 1 else 256 * Pow256(w - 1)
  }

  /** The bytes of a number of `w` bytes in memory. */
  function Word(n: nat, w: nat): (b: Text)
    ensures |b| == w
  {
    if w == 0 then [] else [n % 256] + Word(n / 256, w - 1)
  }

  function FromWord(b: Text): nat {
    if b == [] then 0 else b[0] + 256 * FromWord(b[1..])
  }

  lemma {:induction false} WordBack(n: nat, w: nat)
    requires n < Pow256(w)
    ensures FromWord(Word(n, w)) == n
  {
    if w > 0 {
      WordBack(n / 256, w - 1);
      assert Word(n, w)[1..] == Word(n / 256, w - 1);
    }
  }

  lemma Sizes()
    ensures Pow256(4) == 0x1_0000_0000 && Pow256(8) == 0x1_0000_0000_0000_0000
  {
    assert Pow256(2) == 0x1_0000 && Pow256(3) == 0x100_0000;
    assert Pow256(6) == 0x1_0000_0000_0000;
  }

  predicate IsInt(x: int) {
    -0x8000_0000 <= x < 0x8000_0000
  }

  function Unsigned(x: int): nat
    requires IsInt(x)
  {
    if x < 0 then x + 0x1_0000_0000 else x
  }

  function Signed(n: nat): int {
    if n >= 0x8000_0000 then n - 0x1_0000_0000 else n
  }

  function IntBytes(x: int): Text
    requires IsInt(x)
  {
    Word(Unsigned(x), SIZE_INT)
  }

  /** Words in a row, as DumpMem writes an array. */
  function Words(a: seq<nat>, w: nat): (b: Text)
    ensures |b| == |a| * w
  {
    if a == [] then [] else Word(a[0], w) + Words(a[1..], w)
  }

  function FromWords(b: Text, n: nat, w: nat): (a: seq<nat>)
    requires |b| == n * w
    ensures |a| == n
    decreases n
  {
    if n == 0 then []
    else
      assert |b[w..]| == (n - 1) * w;
      [FromWord(b[..w])] + FromWords(b[w..], n - 1, w)
  }

  lemma {:induction false} WordsBack(a: seq<nat>, w: nat)
    requires forall i :: 0 <= i < |a| ==> a[i] < Pow256(w)
    ensures FromWords(Words(a, w), |a|, w) == a
  {
    if a != [] {
      WordBack(a[0], w);
      WordsBack(a[1..], w);
      assert Words(a, w)[..w] == Word(a[0], w) && Words(a, w)[w..] == Words(a[1..], w);
    }
  }

  function Unsigneds(a: seq<int>): (r: seq<nat>)
    requires forall i :: 0 <= i < |a| ==> IsInt(a[i])
    ensures |r| == |a| && forall i :: 0 <= i < |a| ==> r[i] == Unsigned(a[i])
  {
    seq(|a|, i requires 0 <= i < |a| => Unsigned(a[i]))
  }

  function Signeds(a: seq<nat>): (r: seq<int>)
    ensures |r| == |a|
  {
    seq(|a|, i requires 0 <= i < |a| => Signed(a[i]))
  }

  // ---------- writing ----------

  /** DumpString: the size with the closing zero, then both; nothing but a zero size for no string. */
  function TextBytes(s: Option<Text>): Text {
    match s
    case None => Word(0, SIZE_SIZE_T)
    case Some(t) => Word(|t| + 1, SIZE_SIZE_T) + t + [0]
  }

  function ConstBytes(c: Const): Text {
    match c
    case Nil => [0]
    case Bool(b) => [1, if b then 1 else 0]
    case Number(bits) => [3] + Word(bits, SIZE_NUMBER)
    case Str(s) => [4] + TextBytes(s)
  }

  function ConstsBytes(k: seq<Const>): Text {
    if k == [] then [] else ConstBytes(k[0]) + ConstsBytes(k[1..])
  }

  function LocVarBytes(v: LocVar): Text
    requires FitsLocVar(v)
  {
    TextBytes(v.varname) + IntBytes(v.startpc) + IntBytes(v.endpc)
  }

  function LocVarsBytes(vs: seq<LocVar>): Text
    requires forall i :: 0 <= i < |vs| ==> FitsLocVar(vs[i])
  {
    if vs == [] then [] else LocVarBytes(vs[0]) + LocVarsBytes(vs[1..])
  }

  function TextsBytes(ts: seq<Option<Text>>): Text {
    if ts == [] then [] else TextBytes(ts[0]) + TextsBytes(ts[1..])
  }

  predicate IsSize(n: int) {
    0 <= n < 0x8000_0000
  }

  predicate FitsText(s: Option<Text>) {
    s.Some? ==> |s.value| + 1 < 0x1_0000_0000_0000_0000
  }

  predicate FitsConst(c: Const) {
    (c.Number? ==> c.bits < 0x1_0000_0000_0000_0000) && (c.Str? ==> FitsText(c.s))
  }

  predicate FitsLocVar(v: LocVar) {
    FitsText(v.varname) && IsInt(v.startpc) && IsInt(v.endpc)
  }

  /** What the C types of a prototype and of its parts can hold. */
  predicate Fits(f: Proto) {
    && FitsText(f.source) && IsInt(f.linedefined) && IsInt(f.lastlinedefined)
    && IsSize(|f.code|) && (forall i :: 0 <= i < |f.code| ==> f.code[i] < 0x1_0000_0000)
    && IsSize(|f.k|) && (forall i :: 0 <= i < |f.k| ==> FitsConst(f.k[i]))
    && IsSize(|f.lineinfo|) && (forall i :: 0 <= i < |f.lineinfo| ==> IsInt(f.lineinfo[i]))
    && IsSize(|f.locvars|) && (forall i :: 0 <= i < |f.locvars| ==> FitsLocVar(f.locvars[i]))
    && IsSize(|f.upvalues|) && (forall i :: 0 <= i < |f.upvalues| ==> FitsText(f.upvalues[i]))
    && IsSize(|f.p|) && forall i :: 0 <= i < |f.p| ==> Fits(f.p[i])
  }

  type Fitting = f: Proto | Fits(f) witness Proto(None, 0, 0, 0, 0, 0, 0, [], [], [], [], [], [])

  /** DumpDebug. */
  function DebugBytes(f: Fitting, strip: bool): Text
  {
    if strip then IntBytes(0) + IntBytes(0) + IntBytes(0)
    else
      IntBytes(|f.lineinfo|) + Words(Unsigneds(f.lineinfo), SIZE_INT)
      + IntBytes(|f.locvars|) + LocVarsBytes(f.locvars) + IntBytes(|f.upvalues|) + TextsBytes(f.upvalues)
  }

  /** The fields before the constants. */
  function StartBytes(f: Fitting, parent: Option<Text>, strip: bool): Text
  {
    TextBytes(if f.source == parent || strip then None else f.source)
    + IntBytes(f.linedefined) + IntBytes(f.lastlinedefined)
    + [f.nups, f.numparams, f.isVararg, f.maxstacksize]
    + IntBytes(|f.code|) + Words(f.code, SIZE_INSTRUCTION)
  }

  /** DumpFunction; `parent` is the source of the enclosing function. */
  function FunctionBytes(f: Fitting, parent: Option<Text>, strip: bool): Text
    decreases f, 0
  {
    StartBytes(f, parent, strip) + IntBytes(|f.k|) + ConstsBytes(f.k)
    + IntBytes(|f.p|) + FunctionsBytes(f.p, f.source, strip) + DebugBytes(f, strip)
  }

  function FunctionsBytes(ps: seq<Fitting>, parent: Option<Text>, strip: bool): Text
    decreases ps
  {
    if ps == [] then [] else FunctionBytes(ps[0], parent, strip) + FunctionsBytes(ps[1..], parent, strip)
  }

  // ---------- reading ----------

  datatype Read<T> = Good(v: T, rest: Text) | Bad(msg: string)

  /** LoadBlock: the next `n` bytes. */
  function ReadBlock(z: Text, n: nat): (r: Read<Text>)
    ensures r.Good? ==> |r.v| == n && |r.rest| + n == |z|
    ensures r.Bad? <==> |z| < n
    decreases |z|
  {
    if n == 0 then Good([], z)
    else if z == [] then Bad("unexpected end")
    else
      var r := ReadBlock(z[1..], n - 1);
      if r.Bad? then r else Good([z[0]] + r.v, r.rest)
  }

  lemma {:induction false} BlockIs(z: Text, n: nat)
    ensures ReadBlock(z, n) == if |z| < n then Bad("unexpected end") else Good(z[..n], z[n..])
    decreases n
  {
    if n > 0 && z != [] {
      BlockIs(z[1..], n - 1);
      if |z| >= n {
        assert z[..n] == [z[0]] + z[1..][..n - 1] && z[n..] == z[1..][n - 1..];
      }
    }
  }

  function ReadChar(z: Text): (r: Read<Byte>)
    ensures r.Good? ==> |r.rest| < |z|
  {
    var b := ReadBlock(z, 1);
    if b.Bad? then Bad(b.msg) else Good(b.v[0], b.rest)
  }

  function ReadInt(z: Text): (r: Read<nat>)
    ensures r.Good? ==> |r.rest| + SIZE_INT == |z|
  {
    var b := ReadBlock(z, SIZE_INT);
    if b.Bad? then Bad(b.msg)
    else if Signed(FromWord(b.v)) < 0 then Bad("bad integer")
    else Good(Signed(FromWord(b.v)), b.rest)
  }

  function ReadText(z: Text): (r: Read<Option<Text>>)
    ensures r.Good? ==> |r.rest| < |z|
  {
    var b := ReadBlock(z, SIZE_SIZE_T);
    if b.Bad? then Bad(b.msg)
    else
      var size := FromWord(b.v);
      if size == 0 then Good(None, b.rest)
      else
        var t := ReadBlock(b.rest, size);
        if t.Bad? then Bad(t.msg) else Good(Some(t.v[..size - 1]), t.rest)
  }

  function ReadConst(z: Text): (r: Read<Const>)
    ensures r.Good? ==> |r.rest| < |z|
  {
    var t := ReadChar(z);
    if t.Bad? then Bad(t.msg)
    else
      match t.v
      case 0 => Good(Nil, t.rest)
      case 1 => (var b := ReadChar(t.rest); if b.Bad? then Bad(b.msg) else Good(Bool(b.v != 0), b.rest))
      case 3 => (var b := ReadBlock(t.rest, SIZE_NUMBER); if b.Bad? then Bad(b.msg) else Good(Number(FromWord(b.v)), b.rest))
      case 4 => (var s := ReadText(t.rest); if s.Bad? then Bad(s.msg) else Good(Str(s.v), s.rest))
      case _ => Bad("bad constant")
  }

  function ReadConsts(z: Text, n: nat): (r: Read<seq<Const>>)
    ensures r.Good? ==> |r.rest| <= |z| && |r.v| == n
    decreases n
  {
    if n == 0 then Good([], z)
    else
      var c := ReadConst(z);
      if c.Bad? then Bad(c.msg)
      else
        var cs := ReadConsts(c.rest, n - 1);
        if cs.Bad? then cs else Good([c.v] + cs.v, cs.rest)
  }

  function ReadTexts(z: Text, n: nat): (r: Read<seq<Option<Text>>>)
    ensures r.Good? ==> |r.rest| <= |z| && |r.v| == n
    decreases n
  {
    if n == 0 then Good([], z)
    else
      var t := ReadText(z);
      if t.Bad? then Bad(t.msg)
      else
        var ts := ReadTexts(t.rest, n - 1);
        if ts.Bad? then ts else Good([t.v] + ts.v, ts.rest)
  }

  function ReadLocVar(z: Text): (r: Read<LocVar>)
    ensures r.Good? ==> |r.rest| <= |z|
  {
    var t := ReadText(z);
    if t.Bad? then Bad(t.msg)
    else
      var s := ReadInt(t.rest);
      if s.Bad? then Bad(s.msg)
      else
        var e := ReadInt(s.rest);
        if e.Bad? then Bad(e.msg) else Good(LocVar(t.v, s.v, e.v), e.rest)
  }

  function ReadLocVars(z: Text, n: nat): (r: Read<seq<LocVar>>)
    ensures r.Good? ==> |r.rest| <= |z| && |r.v| == n
    decreases n
  {
    if n == 0 then Good([], z)
    else
      var v := ReadLocVar(z);
      if v.Bad? then Bad(v.msg)
      else
        var vs := ReadLocVars(v.rest, n - 1);
        if vs.Bad? then vs else Good([v.v] + vs.v, vs.rest)
  }

  /** A vector of words with its length before it. */
  function ReadVector(z: Text, w: nat): (r: Read<seq<nat>>)
    ensures r.Good? ==> |r.rest| <= |z|
  {
    var n := ReadInt(z);
    if n.Bad? then Bad(n.msg)
    else
      var b := ReadBlock(n.rest, n.v * w);
      if b.Bad? then Bad(b.msg) else Good(FromWords(b.v, n.v, w), b.rest)
  }

  /** Four bytes in a row. */
  function ReadFlags(z: Text): (r: Read<Text>)
    ensures r.Good? ==> |r.v| == 4 && |r.rest| < |z|
  {
    var a := ReadChar(z);
    if a.Bad? then Bad(a.msg)
    else
      var b := ReadChar(a.rest);
      if b.Bad? then Bad(b.msg)
      else
        var c := ReadChar(b.rest);
        if c.Bad? then Bad(c.msg)
        else
          var d := ReadChar(c.rest);
          if d.Bad? then Bad(d.msg) else Good([a.v, b.v, c.v, d.v], d.rest)
  }

  /** The fields of a prototype up to its code. */
  function ReadStart(z: Text, parent: Option<Text>): (r: Read<Proto>)
    ensures r.Good? ==> |r.rest| < |z|
  {
    var s := ReadText(z);
    if s.Bad? then Bad(s.msg)
    else
      var l := ReadInt(s.rest);
      if l.Bad? then Bad(l.msg)
      else
        var m := ReadInt(l.rest);
        if m.Bad? then Bad(m.msg)
        else
          var b := ReadFlags(m.rest);
          if b.Bad? then Bad(b.msg)
          else
            var c := ReadVector(b.rest, SIZE_INSTRUCTION);
            if c.Bad? then Bad(c.msg)
            else
              Good(Proto(if s.v == None then parent else s.v, l.v, m.v, b.v[0], b.v[1], b.v[2], b.v[3],
                         c.v, [], [], [], [], []), c.rest)
  }

  /** LoadDebug. */
  function ReadDebug(z: Text, f: Proto): (r: Read<Proto>)
    ensures r.Good? ==> |r.rest| <= |z|
  {
    var l := ReadVector(z, SIZE_INT);
    if l.Bad? then Bad(l.msg)
    else
      var n := ReadInt(l.rest);
      if n.Bad? then Bad(n.msg)
      else
        var vs := ReadLocVars(n.rest, n.v);
        if vs.Bad? then Bad(vs.msg)
        else
          var m := ReadInt(vs.rest);
          if m.Bad? then Bad(m.msg)
          else
            var us := ReadTexts(m.rest, m.v);
            if us.Bad? then Bad(us.msg)
            else Good(f.(lineinfo := Signeds(l.v), locvars := vs.v, upvalues := us.v), us.rest)
  }

  /** LoadFunction; `calls` counts the nested calls, `check` is the checker of the code. */
  function ReadFunction(z: Text, parent: Option<Text>, calls: nat, check: Proto -> bool): (r: Read<Proto>)
    ensures r.Good? ==> |r.rest| < |z|
    decreases |z|, 1, 0
  {
    if calls + 1 > 200 then Bad("code too deep") else ReadNested(z, parent, calls + 1, check)
  }

  /** The same, with the nesting already counted. */
  function ReadNested(z: Text, parent: Option<Text>, calls: nat, check: Proto -> bool): (r: Read<Proto>)
    ensures r.Good? ==> |r.rest| < |z|
    decreases |z|, 0, 0
  {
    var s := ReadStart(z, parent);
    if s.Bad? then s
    else
      var c := ReadConstants(s.rest, s.v.source, calls, check);
      if c.Bad? then Bad(c.msg)
      else
        var d := ReadDebug(c.rest, s.v.(k := c.v.0, p := c.v.1));
        if d.Bad? then d else if !check(d.v) then Bad("bad code") else d
  }

  /** LoadConstants: the constants and the functions inside. */
  function ReadConstants(z: Text, source: Option<Text>, calls: nat, check: Proto -> bool): (r: Read<(seq<Const>, seq<Proto>)>)
    ensures r.Good? ==> |r.rest| <= |z|
    decreases |z|, 3, 0
  {
    var n := ReadInt(z);
    if n.Bad? then Bad(n.msg)
    else
      var k := ReadConsts(n.rest, n.v);
      if k.Bad? then Bad(k.msg)
      else
        var m := ReadInt(k.rest);
        if m.Bad? then Bad(m.msg)
        else
          var ps := ReadFunctions(m.rest, m.v, source, calls, check);
          if ps.Bad? then Bad(ps.msg) else Good((k.v, ps.v), ps.rest)
  }

  function ReadFunctions(z: Text, n: nat, parent: Option<Text>, calls: nat, check: Proto -> bool): (r: Read<seq<Proto>>)
    ensures r.Good? ==> |r.rest| <= |z| && |r.v| == n
    decreases |z|, 2, n
  {
    if n == 0 then Good([], z)
    else
      var f := ReadFunction(z, parent, calls, check);
      if f.Bad? then Bad(f.msg)
      else
        var fs := ReadFunctions(f.rest, n - 1, parent, calls, check);
        if fs.Bad? then fs else Good([f.v] + fs.v, fs.rest)
  }

  function ReadChunk(z: Text, calls: nat, check: Proto -> bool): Read<Proto> {
    var h := ReadBlock(z, 12);
    if h.Bad? then Bad(h.msg)
    else if h.v != [27, 76, 117, 97, 0x51, 0, 1, 4, 8, 4, 8, 0] then Bad("bad header")
    else ReadFunction(h.rest, Some([61, 63]), calls, check)
  }
}

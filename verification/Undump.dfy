/** Reading precompiled chunks: lundump.c, from the chunked streams of lzio.c. */
module Undump {
  import opened Wrappers
  import opened Numbers
  import opened ChunkFormat
  import opened ChunkBack

  const EOZ := -1

  function Flat(chunks: seq<Text>): Text {
    if chunks == [] then [] else chunks[0] + Flat(chunks[1..])
  }

  /** ZIO: a buffer with `pos` at its next byte, and the chunks that the reader will still deliver. */
  class Zio {
    var buf: Text
    var pos: nat
    var chunks: seq<Text>

    ghost predicate Valid()
      reads this
    {
      pos <= |buf| && forall i :: 0 <= i < |chunks| ==> chunks[i] != []
    }

    /** The bytes left, however they are split. */
    function Rest(): Text
      requires pos <= |buf|
      reads this
    {
      buf[pos..] + Flat(chunks)
    }

    /** luaZ_init. */
    constructor (chunks: seq<Text>)
      requires forall i :: 0 <= i < |chunks| ==> chunks[i] != []
      ensures Valid() && Rest() == Flat(chunks)
    {
      buf, pos, this.chunks := [], 0, chunks;
    }

    /** luaZ_fill: takes the next chunk and its first byte. */
    method Fill() returns (c: int)
      requires Valid() && pos == |buf|
      modifies this
      ensures Valid()
      ensures old(Rest()) == [] <==> c == EOZ
      ensures c == EOZ ==> Rest() == [] && pos == |buf|
      ensures c != EOZ ==> pos == 1 <= |buf| && buf[0] == c && old(Rest()) == buf + Flat(chunks)
    {
      if chunks == [] {
        return EOZ;
      }
      buf, pos, chunks := chunks[0], 1, chunks[1..];
      return buf[0];
    }

    /** luaZ_lookahead: the next byte, not consumed. */
    method Lookahead() returns (c: int)
      requires Valid()
      modifies this
      ensures Valid() && Rest() == old(Rest())
      ensures if Rest() == [] then c == EOZ else pos < |buf| && c == buf[pos] == Rest()[0]
    {
      if pos == |buf| {
        c := Fill();
        if c == EOZ {
          return;
        }
        pos := pos - 1;
      }
      c := buf[pos];
    }

    /** luaZ_read: the next `size` bytes, or the number of those that are missing. */
    method Read(size: nat) returns (missing: nat, b: Text)
      requires Valid()
      modifies this
      ensures Valid()
      ensures |old(Rest())| >= size ==> missing == 0 && b == old(Rest())[..size] && Rest() == old(Rest())[size..]
      ensures |old(Rest())| < size ==> missing == size - |old(Rest())|
    {
      ghost var z := Rest();
      b := [];
      var n := size;
      while n > 0
        invariant 0 <= n <= size && Valid() && |b| == size - n && b + Rest() == z
        decreases n
      {
        var c := Lookahead();
        if c == EOZ {
          return n, b;
        }
        var part := Take(n);
        Grouped2(b, part, Rest());
        b := b + part;
        n := n - |part|;
      }
      Parted(b, Rest());
      return 0, b;
    }

    /** As much of `n` bytes as the buffer holds. */
    method Take(n: nat) returns (part: Text)
      requires Valid() && pos < |buf| && n > 0
      modifies `pos
      ensures Valid() && 0 < |part| <= n && part + Rest() == old(Rest())
    {
      var m := if n <= |buf| - pos then n else |buf| - pos;
      part := buf[pos..pos + m];
      assert buf[pos..] == part + buf[pos + m..];
      pos := pos + m;
    }
  }

  lemma Parted(a: Text, b: Text)
    ensures (a + b)[..|a|] == a && (a + b)[|a|..] == b && |a + b| == |a| + |b|
  {
  }

  datatype Res<T> = Ok(v: T) | Fail(msg: string)

  /** A method reads what the function reads: the same value with the same bytes left, or the same error. */
  ghost predicate Reads<T(!new)>(r: Read<T>, o: Res<T>, rest: Text) {
    match r
    case Good(v, y) => o == Ok(v) && rest == y
    case Bad(msg) => o == Fail(msg)
  }

  class LoadState {
    const z: Zio
    /** luaG_checkcode. */
    const check: Proto -> bool
    var nCcalls: nat

    constructor (z: Zio, check: Proto -> bool, nCcalls: nat)
      ensures this.z == z && this.check == check && this.nCcalls == nCcalls
    {
      this.z, this.check, this.nCcalls := z, check, nCcalls;
    }

    method LoadBlock(size: nat) returns (o: Res<Text>)
      requires z.Valid()
      modifies z
      ensures z.Valid() && Reads(ReadBlock(old(z.Rest()), size), o, z.Rest())
    {
      BlockIs(z.Rest(), size);
      var r, b := z.Read(size);
      o := if r != 0 then Fail("unexpected end") else Ok(b);
    }

    method LoadChar() returns (o: Res<Byte>)
      requires z.Valid()
      modifies z
      ensures z.Valid() && Reads(ReadChar(old(z.Rest())), o, z.Rest())
    {
      var b := LoadBlock(1);
      o := if b.Fail? then Fail(b.msg) else Ok(b.v[0]);
    }

    method LoadInt() returns (o: Res<nat>)
      requires z.Valid()
      modifies z
      ensures z.Valid() && Reads(ReadInt(old(z.Rest())), o, z.Rest())
    {
      var b := LoadBlock(SIZE_INT);
      if b.Fail? {
        return Fail(b.msg);
      }
      var x := Signed(FromWord(b.v));
      o := if x < 0 then Fail("bad integer") else Ok(x);
    }

    method LoadString() returns (o: Res<Option<Text>>)
      requires z.Valid()
      modifies z
      ensures z.Valid() && Reads(ReadText(old(z.Rest())), o, z.Rest())
    {
      var b := LoadBlock(SIZE_SIZE_T);
      if b.Fail? {
        return Fail(b.msg);
      }
      var size := FromWord(b.v);
      if size == 0 {
        return Ok(None);
      }
      b := LoadBlock(size);
      if b.Fail? {
        return Fail(b.msg);
      }
      return Ok(Some(b.v[..size - 1]));
    }

    method LoadVector(w: nat) returns (o: Res<seq<nat>>)
      requires z.Valid()
      modifies z
      ensures z.Valid() && Reads(ReadVector(old(z.Rest()), w), o, z.Rest())
    {
      var n := LoadInt();
      if n.Fail? {
        return Fail(n.msg);
      }
      var b := LoadBlock(n.v * w);
      o := if b.Fail? then Fail(b.msg) else Ok(FromWords(b.v, n.v, w));
    }

    method LoadConst() returns (o: Res<Const>)
      requires z.Valid()
      modifies z
      ensures z.Valid() && Reads(ReadConst(old(z.Rest())), o, z.Rest())
    {
      var t := LoadChar();
      if t.Fail? {
        return Fail(t.msg);
      }
      match t.v {
        case 0 => o := Ok(Nil);
        case 1 =>
          var b := LoadChar();
          o := if b.Fail? then Fail(b.msg) else Ok(Bool(b.v != 0));
        case 3 =>
          var b := LoadBlock(SIZE_NUMBER);
          o := if b.Fail? then Fail(b.msg) else Ok(Number(FromWord(b.v)));
        case 4 =>
          var s := LoadString();
          o := if s.Fail? then Fail(s.msg) else Ok(Str(s.v));
        case _ => o := Fail("bad constant");
      }
    }

    /** The loop over the constants. */
    method LoadConsts(n: nat) returns (o: Res<seq<Const>>)
      requires z.Valid()
      modifies z
      ensures z.Valid() && Reads(ReadConsts(old(z.Rest()), n), o, z.Rest())
    {
      var k := [];
      ghost var z0 := z.Rest();
      ghost var all := ReadConsts(z0, n);
      ghost var zi, m := z0, n;
      AfterNone(all);
      for i := 0 to n
        invariant z.Valid() && |k| == i && zi == z.Rest() && m == n - i && After(k, all, ReadConsts(zi, m))
      {
        ConstsOne(k, all, zi, m);
        var c := LoadConst();
        if c.Fail? {
          return Fail(c.msg);
        }
        k := k + [c.v];
        zi, m := z.Rest(), m - 1;
      }
      ConstsOne(k, all, zi, m);
      o := Ok(k);
    }

    method LoadTexts(n: nat) returns (o: Res<seq<Option<Text>>>)
      requires z.Valid()
      modifies z
      ensures z.Valid() && Reads(ReadTexts(old(z.Rest()), n), o, z.Rest())
    {
      var k := [];
      ghost var z0 := z.Rest();
      ghost var all := ReadTexts(z0, n);
      ghost var zi, m := z0, n;
      AfterNone(all);
      for i := 0 to n
        invariant z.Valid() && |k| == i && zi == z.Rest() && m == n - i && After(k, all, ReadTexts(zi, m))
      {
        TextsOne(k, all, zi, m);
        var c := LoadString();
        if c.Fail? {
          return Fail(c.msg);
        }
        k := k + [c.v];
        zi, m := z.Rest(), m - 1;
      }
      TextsOne(k, all, zi, m);
      o := Ok(k);
    }

    method LoadLocVar() returns (o: Res<LocVar>)
      requires z.Valid()
      modifies z
      ensures z.Valid() && Reads(ReadLocVar(old(z.Rest())), o, z.Rest())
    {
      var t := LoadString();
      if t.Fail? {
        return Fail(t.msg);
      }
      var s := LoadInt();
      if s.Fail? {
        return Fail(s.msg);
      }
      var e := LoadInt();
      o := if e.Fail? then Fail(e.msg) else Ok(LocVar(t.v, s.v, e.v));
    }

    method NextLocVar(ghost k: seq<LocVar>, ghost all: Read<seq<LocVar>>, ghost n: nat) returns (o: Res<LocVar>)
      requires z.Valid() && n > 0 && After(k, all, ReadLocVars(z.Rest(), n))
      modifies z
      ensures z.Valid()
      ensures if o.Ok? then After(k + [o.v], all, ReadLocVars(z.Rest(), n - 1)) else all == Bad(o.msg)
    {
      LocVarsOne(k, all, z.Rest(), n);
      o := LoadLocVar();
    }

    /** The loop over the local variables. */
    method LoadLocVars(n: nat) returns (o: Res<seq<LocVar>>)
      requires z.Valid()
      modifies z
      ensures z.Valid() && Reads(ReadLocVars(old(z.Rest()), n), o, z.Rest())
    {
      var k := [];
      ghost var all, m := ReadLocVars(z.Rest(), n), n;
      AfterNone(all);
      for i := 0 to n
        invariant z.Valid() && m == n - i && After(k, all, ReadLocVars(z.Rest(), m))
      {
        var c := NextLocVar(k, all, m);
        if c.Fail? {
          return Fail(c.msg);
        }
        k, m := k + [c.v], m - 1;
      }
      LocVarsOne(k, all, z.Rest(), m);
      o := Ok(k);
    }

    /** LoadDebug. */
    method LoadDebug(f: Proto) returns (o: Res<Proto>)
      requires z.Valid()
      modifies z
      ensures z.Valid() && Reads(ReadDebug(old(z.Rest()), f), o, z.Rest())
    {
      var l := LoadVector(SIZE_INT);
      if l.Fail? {
        return Fail(l.msg);
      }
      var n := LoadInt();
      if n.Fail? {
        return Fail(n.msg);
      }
      var vs := LoadLocVars(n.v);
      if vs.Fail? {
        return Fail(vs.msg);
      }
      var m := LoadInt();
      if m.Fail? {
        return Fail(m.msg);
      }
      var us := LoadTexts(m.v);
      if us.Fail? {
        return Fail(us.msg);
      }
      return Ok(f.(lineinfo := Signeds(l.v), locvars := vs.v, upvalues := us.v));
    }

    /** LoadFunction, up to the code. */
    method LoadStart(parent: Option<Text>) returns (o: Res<Proto>)
      requires z.Valid()
      modifies z
      ensures z.Valid() && Reads(ReadStart(old(z.Rest()), parent), o, z.Rest())
    {
      var s := LoadString();
      if s.Fail? {
        return Fail(s.msg);
      }
      var l := LoadInt();
      if l.Fail? {
        return Fail(l.msg);
      }
      var m := LoadInt();
      if m.Fail? {
        return Fail(m.msg);
      }
      var b := LoadFlags();
      if b.Fail? {
        return Fail(b.msg);
      }
      var c := LoadVector(SIZE_INSTRUCTION);
      if c.Fail? {
        return Fail(c.msg);
      }
      return Ok(Proto(if s.v == None then parent else s.v, l.v, m.v, b.v[0], b.v[1], b.v[2], b.v[3], c.v, [], [], [], [], []));
    }

    /** The four bytes of a prototype. */
    method LoadFlags() returns (o: Res<Text>)
      requires z.Valid()
      modifies z
      ensures z.Valid() && Reads(ReadFlags(old(z.Rest())), o, z.Rest()) && (o.Ok? ==> |o.v| == 4)
    {
      var nups := LoadChar();
      if nups.Fail? {
        return Fail(nups.msg);
      }
      var numparams := LoadChar();
      if numparams.Fail? {
        return Fail(numparams.msg);
      }
      var isVararg := LoadChar();
      if isVararg.Fail? {
        return Fail(isVararg.msg);
      }
      var maxstacksize := LoadChar();
      if maxstacksize.Fail? {
        return Fail(maxstacksize.msg);
      }
      o := Ok([nups.v, numparams.v, isVararg.v, maxstacksize.v]);
    }

    /** LoadFunction. */
    method LoadFunction(parent: Option<Text>) returns (o: Res<Proto>)
      requires z.Valid()
      modifies z, this
      ensures z.Valid() && Reads(ReadFunction(old(z.Rest()), parent, old(nCcalls), check), o, z.Rest())
      ensures o.Ok? ==> nCcalls == old(nCcalls)
      decreases |z.Rest()|, 0, 1
    {
      nCcalls := nCcalls + 1;
      if nCcalls > LUAI_MAXCCALLS {
        return Fail("code too deep");
      }
      o := LoadNested(parent);
      if o.Ok? {
        nCcalls := nCcalls - 1;
      }
    }

    /** LoadFunction, between the two changes of `nCcalls`. */
    method LoadNested(parent: Option<Text>) returns (o: Res<Proto>)
      requires z.Valid()
      modifies z, this
      ensures z.Valid() && Reads(ReadNested(old(z.Rest()), parent, old(nCcalls), check), o, z.Rest())
      ensures o.Ok? ==> nCcalls == old(nCcalls)
      decreases |z.Rest()|, 0, 0
    {
      ghost var z0, calls := z.Rest(), nCcalls;
      var s := LoadStart(parent);
      if s.Fail? {
        return Fail(s.msg);
      }
      ghost var z1 := z.Rest();
      var c := LoadConstants(s.v.source);
      if c.Fail? {
        return Fail(c.msg);
      }
      ghost var z2 := z.Rest();
      o := LoadDebug(s.v.(k := c.v.0, p := c.v.1));
      NestedStep(z0, parent, calls, check, s.v, z1, c.v.0, c.v.1, z2);
      if o.Ok? && !check(o.v) {
        return Fail("bad code");
      }
    }

    /** LoadConstants. */
    method LoadConstants(source: Option<Text>) returns (o: Res<(seq<Const>, seq<Proto>)>)
      requires z.Valid()
      modifies z, this
      ensures z.Valid() && Reads(ReadConstants(old(z.Rest()), source, old(nCcalls), check), o, z.Rest())
      ensures o.Ok? ==> nCcalls == old(nCcalls)
      decreases |z.Rest()|, 3
    {
      var n := LoadInt();
      if n.Fail? {
        return Fail(n.msg);
      }
      var k := LoadConsts(n.v);
      if k.Fail? {
        return Fail(k.msg);
      }
      n := LoadInt();
      if n.Fail? {
        return Fail(n.msg);
      }
      var ps := LoadFunctions(n.v, source);
      o := if ps.Fail? then Fail(ps.msg) else Ok((k.v, ps.v));
    }

    method NextFunction(parent: Option<Text>, ghost k: seq<Proto>, ghost all: Read<seq<Proto>>, ghost n: nat) returns (o: Res<Proto>)
      requires z.Valid() && n > 0 && After(k, all, ReadFunctions(z.Rest(), n, parent, nCcalls, check))
      modifies z, this
      ensures z.Valid() && (o.Ok? ==> |z.Rest()| <= old(|z.Rest()|))
      ensures if o.Ok? then nCcalls == old(nCcalls) && After(k + [o.v], all, ReadFunctions(z.Rest(), n - 1, parent, nCcalls, check))
              else all == Bad(o.msg)
      decreases |z.Rest()|, 0, 2
    {
      FunctionsOne(k, all, z.Rest(), n, parent, nCcalls, check);
      o := LoadFunction(parent);
    }

    /** The loop over the functions inside. */
    method LoadFunctions(n: nat, parent: Option<Text>) returns (o: Res<seq<Proto>>)
      requires z.Valid()
      modifies z, this
      ensures z.Valid() && Reads(ReadFunctions(old(z.Rest()), n, parent, old(nCcalls), check), o, z.Rest())
      ensures o.Ok? ==> nCcalls == old(nCcalls)
      decreases |z.Rest()|, 1
    {
      var k := [];
      ghost var all, m := ReadFunctions(z.Rest(), n, parent, nCcalls, check), n;
      AfterNone(all);
      for i := 0 to n
        invariant z.Valid() && m == n - i && nCcalls == old(nCcalls) && |z.Rest()| <= old(|z.Rest()|)
        invariant After(k, all, ReadFunctions(z.Rest(), m, parent, nCcalls, check))
      {
        var c := NextFunction(parent, k, all, m);
        if c.Fail? {
          return Fail(c.msg);
        }
        k, m := k + [c.v], m - 1;
      }
      FunctionsOne(k, all, z.Rest(), m, parent, nCcalls, check);
      o := Ok(k);
    }

    /** luaU_undump. */
    method Load() returns (o: Res<Proto>)
      requires z.Valid()
      modifies z, this
      ensures z.Valid() && Reads(ReadChunk(old(z.Rest()), old(nCcalls), check), o, z.Rest())
    {
      var h := LoadBlock(HEADERSIZE);
      if h.Fail? {
        return Fail(h.msg);
      }
      if h.v != HEADER {
        return Fail("bad header");
      }
      o := LoadFunction(Some(UNKNOWN));
    }
  }

  /** Reading all elements is reading `k` first, and then the others. */
  ghost predicate After<T>(k: seq<T>, all: Read<seq<T>>, more: Read<seq<T>>) {
    match more
    case Good(v, rest) => all == Good(k + v, rest)
    case Bad(msg) => all == Bad(msg)
  }

  lemma AfterNone<T>(all: Read<seq<T>>)
    ensures After([], all, all)
  {
    if all.Good? {
      assert [] + all.v == all.v;
    }
  }

  lemma ConstsOne(k: seq<Const>, all: Read<seq<Const>>, z: Text, n: nat)
    requires After(k, all, ReadConsts(z, n))
    ensures n == 0 ==> all == Good(k, z)
    ensures n > 0 ==>
      match ReadConst(z)
      case Good(x, y) => After(k + [x], all, ReadConsts(y, n - 1))
      case Bad(msg) => all == Bad(msg)
  {
    if n == 0 {
      assert k + [] == k;
    } else if ReadConst(z).Good? {
      var x, r := ReadConst(z).v, ReadConsts(ReadConst(z).rest, n - 1);
      if r.Good? {
        assert k + ([x] + r.v) == k + [x] + r.v;
      }
    }
  }

  lemma TextsOne(k: seq<Option<Text>>, all: Read<seq<Option<Text>>>, z: Text, n: nat)
    requires After(k, all, ReadTexts(z, n))
    ensures n == 0 ==> all == Good(k, z)
    ensures n > 0 ==>
      match ReadText(z)
      case Good(x, y) => After(k + [x], all, ReadTexts(y, n - 1))
      case Bad(msg) => all == Bad(msg)
  {
    if n == 0 {
      assert k + [] == k;
    } else if ReadText(z).Good? {
      var x, r := ReadText(z).v, ReadTexts(ReadText(z).rest, n - 1);
      if r.Good? {
        assert k + ([x] + r.v) == k + [x] + r.v;
      }
    }
  }

  lemma LocVarsOne(k: seq<LocVar>, all: Read<seq<LocVar>>, z: Text, n: nat)
    requires After(k, all, ReadLocVars(z, n))
    ensures n == 0 ==> all == Good(k, z)
    ensures n > 0 ==>
      match ReadLocVar(z)
      case Good(x, y) => After(k + [x], all, ReadLocVars(y, n - 1))
      case Bad(msg) => all == Bad(msg)
  {
    if n == 0 {
      assert k + [] == k;
    } else if ReadLocVar(z).Good? {
      var x, r := ReadLocVar(z).v, ReadLocVars(ReadLocVar(z).rest, n - 1);
      if r.Good? {
        assert k + ([x] + r.v) == k + [x] + r.v;
      }
    }
  }

  lemma FunctionsOne(k: seq<Proto>, all: Read<seq<Proto>>, z: Text, n: nat, parent: Option<Text>, calls: nat, check: Proto -> bool)
    requires After(k, all, ReadFunctions(z, n, parent, calls, check))
    ensures n == 0 ==> all == Good(k, z)
    ensures n > 0 ==>
      match ReadFunction(z, parent, calls, check)
      case Good(x, y) => After(k + [x], all, ReadFunctions(y, n - 1, parent, calls, check))
      case Bad(msg) => all == Bad(msg)
  {
    if n == 0 {
      assert k + [] == k;
    } else if ReadFunction(z, parent, calls, check).Good? {
      var x, r := ReadFunction(z, parent, calls, check).v, ReadFunctions(ReadFunction(z, parent, calls, check).rest, n - 1, parent, calls, check);
      if r.Good? {
        assert k + ([x] + r.v) == k + [x] + r.v;
      }
    }
  }
}

/** Writing precompiled chunks: ldump.c. */
module Dump {
  import opened Wrappers
  import opened Numbers
  import opened ChunkFormat
  import opened ChunkBack

  /** The effect of writing `b`: it is appended, unless the writer has failed or fails. */
  ghost predicate Wrote(status0: int, out0: Text, status: int, out: Text, b: Text) {
    && (status == 0 ==> status0 == 0 && out == out0 + b)
    && (status0 != 0 ==> status == status0 && out == out0)
  }

  lemma WroteBoth(s0: int, o0: Text, s1: int, o1: Text, b1: Text, s2: int, o2: Text, b2: Text)
    requires Wrote(s0, o0, s1, o1, b1) && Wrote(s1, o1, s2, o2, b2)
    ensures Wrote(s0, o0, s2, o2, b1 + b2)
  {
    if s2 == 0 {
      assert o0 + b1 + b2 == o0 + (b1 + b2);
    }
  }

  class DumpState {
    /** The status that the writer returns for its n-th block; 0 is success. */
    const writer: nat -> int
    const strip: bool
    var status: int
    var out: Text
    var blocks: nat

    constructor (writer: nat -> int, strip: bool)
      ensures this.writer == writer && this.strip == strip && status == 0 && out == [] && blocks == 0
    {
      this.writer, this.strip := writer, strip;
      status, out, blocks := 0, [], 0;
    }

    ghost predicate Reliable() {
      forall n :: writer(n) == 0
    }

    method DumpBlock(b: Text)
      modifies this
      ensures Wrote(old(status), old(out), status, out, b) && (Reliable() ==> status == old(status))
    {
      if status == 0 {
        status := writer(blocks);
        out := out + b;
        blocks := blocks + 1;
      }
    }

    method DumpChar(y: Byte)
      modifies this
      ensures Wrote(old(status), old(out), status, out, [y]) && (Reliable() ==> status == old(status))
    {
      DumpBlock([y]);
    }

    method DumpInt(x: int)
      requires IsInt(x)
      modifies this
      ensures Wrote(old(status), old(out), status, out, IntBytes(x)) && (Reliable() ==> status == old(status))
    {
      DumpBlock(IntBytes(x));
    }

    method DumpString(s: Option<Text>)
      modifies this
      ensures Wrote(old(status), old(out), status, out, TextBytes(s)) && (Reliable() ==> status == old(status))
    {
      match s
      case None => DumpBlock(Word(0, SIZE_SIZE_T));
      case Some(t) =>
        DumpBlock(Word(|t| + 1, SIZE_SIZE_T));
        ghost var s1, o1 := status, out;
        DumpBlock(t + [0]);
        WroteBoth(old(status), old(out), s1, o1, Word(|t| + 1, SIZE_SIZE_T), status, out, t + [0]);
        assert Word(|t| + 1, SIZE_SIZE_T) + (t + [0]) == TextBytes(s);
    }

    /** DumpVector, for words of `w` bytes. */
    method DumpVector(a: seq<nat>, w: nat)
      requires IsSize(|a|)
      modifies this
      ensures Wrote(old(status), old(out), status, out, IntBytes(|a|) + Words(a, w)) && (Reliable() ==> status == old(status))
    {
      DumpInt(|a|);
      ghost var s1, o1 := status, out;
      DumpBlock(Words(a, w));
      WroteBoth(old(status), old(out), s1, o1, IntBytes(|a|), status, out, Words(a, w));
    }

    method DumpConst(c: Const)
      modifies this
      ensures Wrote(old(status), old(out), status, out, ConstBytes(c)) && (Reliable() ==> status == old(status))
    {
      var t: Byte := match c case Nil => 0 case Bool(_) => 1 case Number(_) => 3 case Str(_) => 4;
      DumpChar(t);
      ghost var s1, o1 := status, out;
      match c
      case Nil =>
      case Bool(b) =>
        var y: Byte := if b then 1 else 0;
        DumpChar(y);
        WroteBoth(old(status), old(out), s1, o1, [t], status, out, [y]);
      case Number(bits) =>
        DumpBlock(Word(bits, SIZE_NUMBER));
        WroteBoth(old(status), old(out), s1, o1, [t], status, out, Word(bits, SIZE_NUMBER));
      case Str(s) =>
        DumpString(s);
        WroteBoth(old(status), old(out), s1, o1, [t], status, out, TextBytes(s));
    }

    /** The first loop of DumpConstants, with its count. */
    method DumpConsts(k: seq<Const>)
      requires IsSize(|k|)
      modifies this
      ensures Wrote(old(status), old(out), status, out, IntBytes(|k|) + ConstsBytes(k)) && (Reliable() ==> status == old(status))
    {
      DumpInt(|k|);
      ghost var done := IntBytes(|k|);
      for i := 0 to |k|
        invariant Wrote(old(status), old(out), status, out, done) && done + ConstsBytes(k[i..]) == IntBytes(|k|) + ConstsBytes(k)
        invariant Reliable() ==> status == old(status)
      {
        assert k[i..][0] == k[i] && k[i..][1..] == k[i + 1..];
        ghost var s1, o1 := status, out;
        DumpConst(k[i]);
        WroteBoth(old(status), old(out), s1, o1, done, status, out, ConstBytes(k[i]));
        Grouped2(done, ConstBytes(k[i]), ConstsBytes(k[i + 1..]));
        done := done + ConstBytes(k[i]);
      }
    }

    method DumpTexts(ts: seq<Option<Text>>)
      requires IsSize(|ts|)
      modifies this
      ensures Wrote(old(status), old(out), status, out, IntBytes(|ts|) + TextsBytes(ts)) && (Reliable() ==> status == old(status))
    {
      DumpInt(|ts|);
      ghost var done := IntBytes(|ts|);
      for i := 0 to |ts|
        invariant Wrote(old(status), old(out), status, out, done) && done + TextsBytes(ts[i..]) == IntBytes(|ts|) + TextsBytes(ts)
        invariant Reliable() ==> status == old(status)
      {
        assert ts[i..][0] == ts[i] && ts[i..][1..] == ts[i + 1..];
        ghost var s1, o1 := status, out;
        DumpString(ts[i]);
        WroteBoth(old(status), old(out), s1, o1, done, status, out, TextBytes(ts[i]));
        Grouped2(done, TextBytes(ts[i]), TextsBytes(ts[i + 1..]));
        done := done + TextBytes(ts[i]);
      }
    }

    method DumpLocVar(v: LocVar)
      requires FitsLocVar(v)
      modifies this
      ensures Wrote(old(status), old(out), status, out, LocVarBytes(v)) && (Reliable() ==> status == old(status))
    {
      DumpString(v.varname);
      ghost var s1, o1 := status, out;
      DumpInt(v.startpc);
      WroteBoth(old(status), old(out), s1, o1, TextBytes(v.varname), status, out, IntBytes(v.startpc));
      ghost var s2, o2 := status, out;
      DumpInt(v.endpc);
      WroteBoth(old(status), old(out), s2, o2, TextBytes(v.varname) + IntBytes(v.startpc), status, out, IntBytes(v.endpc));
    }

    method DumpLocVars(vs: seq<LocVar>)
      requires IsSize(|vs|) && forall i :: 0 <= i < |vs| ==> FitsLocVar(vs[i])
      modifies this
      ensures Wrote(old(status), old(out), status, out, IntBytes(|vs|) + LocVarsBytes(vs)) && (Reliable() ==> status == old(status))
    {
      DumpInt(|vs|);
      ghost var done := IntBytes(|vs|);
      for i := 0 to |vs|
        invariant Wrote(old(status), old(out), status, out, done) && done + LocVarsBytes(vs[i..]) == IntBytes(|vs|) + LocVarsBytes(vs)
        invariant Reliable() ==> status == old(status)
      {
        LocVarsOn(vs, i, done);
        ghost var s1, o1 := status, out;
        DumpLocVar(vs[i]);
        WroteBoth(old(status), old(out), s1, o1, done, status, out, LocVarBytes(vs[i]));
        done := done + LocVarBytes(vs[i]);
      }
    }

    method DumpDebug(f: Fitting)
      modifies this
      ensures Wrote(old(status), old(out), status, out, DebugBytes(f, strip)) && (Reliable() ==> status == old(status))
    {
      var lineinfo := if strip then [] else f.lineinfo;
      var locvars := if strip then [] else f.locvars;
      var upvalues := if strip then [] else f.upvalues;
      ghost var b1 := IntBytes(|lineinfo|) + Words(Unsigneds(lineinfo), SIZE_INT);
      ghost var b2 := IntBytes(|locvars|) + LocVarsBytes(locvars);
      ghost var b3 := IntBytes(|upvalues|) + TextsBytes(upvalues);
      DumpVector(Unsigneds(lineinfo), SIZE_INT);
      ghost var s1, o1 := status, out;
      DumpLocVars(locvars);
      WroteBoth(old(status), old(out), s1, o1, b1, status, out, b2);
      ghost var s2, o2 := status, out;
      DumpTexts(upvalues);
      WroteBoth(old(status), old(out), s2, o2, b1 + b2, status, out, b3);
      DebugParts3(f, strip);
    }

    /** DumpFunction, up to the code. */
    method DumpStart(f: Fitting, parent: Option<Text>)
      modifies this
      ensures Wrote(old(status), old(out), status, out, StartBytes(f, parent, strip)) && (Reliable() ==> status == old(status))
    {
      var source := if f.source == parent || strip then None else f.source;
      DumpString(source);
      ghost var b := TextBytes(source);
      ghost var s1, o1 := status, out;
      DumpInt(f.linedefined);
      WroteBoth(old(status), old(out), s1, o1, b, status, out, IntBytes(f.linedefined));
      b := b + IntBytes(f.linedefined);
      s1, o1 := status, out;
      DumpInt(f.lastlinedefined);
      WroteBoth(old(status), old(out), s1, o1, b, status, out, IntBytes(f.lastlinedefined));
      b := b + IntBytes(f.lastlinedefined);
      s1, o1 := status, out;
      DumpFlags(f);
      WroteBoth(old(status), old(out), s1, o1, b, status, out, [f.nups, f.numparams, f.isVararg, f.maxstacksize]);
      b := b + [f.nups, f.numparams, f.isVararg, f.maxstacksize];
      s1, o1 := status, out;
      DumpVector(f.code, SIZE_INSTRUCTION);
      WroteBoth(old(status), old(out), s1, o1, b, status, out, IntBytes(|f.code|) + Words(f.code, SIZE_INSTRUCTION));
      Grouped2(b, IntBytes(|f.code|), Words(f.code, SIZE_INSTRUCTION));
    }

    method DumpFlags(f: Fitting)
      modifies this
      ensures Wrote(old(status), old(out), status, out, [f.nups, f.numparams, f.isVararg, f.maxstacksize])
      ensures Reliable() ==> status == old(status)
    {
      DumpChar(f.nups);
      DumpChar(f.numparams);
      DumpChar(f.isVararg);
      DumpChar(f.maxstacksize);
    }

    /** DumpFunction. */
    method DumpFunction(f: Fitting, parent: Option<Text>)
      modifies this
      ensures Wrote(old(status), old(out), status, out, FunctionBytes(f, parent, strip)) && (Reliable() ==> status == old(status))
      decreases f, 0
    {
      DumpStart(f, parent);
      ghost var b := StartBytes(f, parent, strip);
      ghost var s1, o1 := status, out;
      DumpConsts(f.k);
      ghost var b1 := IntBytes(|f.k|) + ConstsBytes(f.k);
      WroteBoth(old(status), old(out), s1, o1, b, status, out, b1);
      s1, o1 := status, out;
      DumpFunctions(f.p, f.source);
      ghost var b2 := IntBytes(|f.p|) + FunctionsBytes(f.p, f.source, strip);
      WroteBoth(old(status), old(out), s1, o1, b + b1, status, out, b2);
      s1, o1 := status, out;
      DumpDebug(f);
      WroteBoth(old(status), old(out), s1, o1, b + b1 + b2, status, out, DebugBytes(f, strip));
      FunctionParts(f, parent, strip);
    }

    /** The second loop of DumpConstants, with its count. */
    method DumpFunctions(ps: seq<Fitting>, parent: Option<Text>)
      requires IsSize(|ps|)
      modifies this
      ensures Wrote(old(status), old(out), status, out, IntBytes(|ps|) + FunctionsBytes(ps, parent, strip))
      ensures Reliable() ==> status == old(status)
      decreases ps, 1
    {
      DumpInt(|ps|);
      ghost var done := IntBytes(|ps|);
      for i := 0 to |ps|
        invariant Wrote(old(status), old(out), status, out, done)
        invariant done + FunctionsBytes(ps[i..], parent, strip) == IntBytes(|ps|) + FunctionsBytes(ps, parent, strip)
        invariant Reliable() ==> status == old(status)
      {
        FunctionsFrom(ps, i, parent, strip, done);
        ghost var s1, o1 := status, out;
        DumpFunction(ps[i], parent);
        WroteBoth(old(status), old(out), s1, o1, done, status, out, FunctionBytes(ps[i], parent, strip));
        done := done + FunctionBytes(ps[i], parent, strip);
      }
      assert ps[|ps|..] == [] && done + [] == done;
    }

    /** luaU_dump. */
    method DumpChunk(f: Fitting) returns (result: int)
      requires status == 0 && out == []
      modifies this
      ensures result == 0 ==> out == ChunkBytes(f, strip)
      ensures Reliable() ==> result == 0
    {
      DumpBlock(HEADER);
      ghost var s1, o1 := status, out;
      DumpFunction(f, None);
      WroteBoth(0, [], s1, o1, HEADER, status, out, FunctionBytes(f, None, strip));
      assert [] + (HEADER + FunctionBytes(f, None, strip)) == ChunkBytes(f, strip);
      return status;
    }
  }

  lemma LocVarsOn(vs: seq<LocVar>, i: nat, done: Text)
    requires i < |vs| && forall j :: 0 <= j < |vs| ==> FitsLocVar(vs[j])
    ensures done + LocVarsBytes(vs[i..]) == done + LocVarBytes(vs[i]) + LocVarsBytes(vs[i + 1..])
  {
    assert vs[i..][0] == vs[i] && vs[i..][1..] == vs[i + 1..];
    Grouped2(done, LocVarBytes(vs[i]), LocVarsBytes(vs[i + 1..]));
  }

  lemma FunctionsFrom(ps: seq<Fitting>, i: nat, parent: Option<Text>, strip: bool, done: Text)
    requires i < |ps|
    ensures done + FunctionsBytes(ps[i..], parent, strip)
      == done + FunctionBytes(ps[i], parent, strip) + FunctionsBytes(ps[i + 1..], parent, strip)
  {
    assert ps[i..][0] == ps[i] && ps[i..][1..] == ps[i + 1..];
    Grouped2(done, FunctionBytes(ps[i], parent, strip), FunctionsBytes(ps[i + 1..], parent, strip));
  }

  lemma DebugParts3(f: Fitting, strip: bool)
    ensures var lineinfo := if strip then [] else f.lineinfo;
      var locvars := if strip then [] else f.locvars;
      var upvalues := if strip then [] else f.upvalues;
      DebugBytes(f, strip) == (IntBytes(|lineinfo|) + Words(Unsigneds(lineinfo), SIZE_INT))
        + (IntBytes(|locvars|) + LocVarsBytes(locvars)) + (IntBytes(|upvalues|) + TextsBytes(upvalues))
  {
    if strip {
      assert Words(Unsigneds([]), SIZE_INT) == [] && LocVarsBytes([]) == [] && TextsBytes([]) == [];
    } else {
      Pairs3(IntBytes(|f.lineinfo|), Words(Unsigneds(f.lineinfo), SIZE_INT), IntBytes(|f.locvars|), LocVarsBytes(f.locvars),
             IntBytes(|f.upvalues|), TextsBytes(f.upvalues));
    }
  }

  lemma Pairs3(a: Text, b: Text, c: Text, d: Text, e: Text, f: Text)
    ensures a + b + c + d + e + f == (a + b) + (c + d) + (e + f)
  {
  }

  lemma FunctionParts(f: Fitting, parent: Option<Text>, strip: bool)
    ensures FunctionBytes(f, parent, strip)
      == StartBytes(f, parent, strip) + (IntBytes(|f.k|) + ConstsBytes(f.k))
         + (IntBytes(|f.p|) + FunctionsBytes(f.p, f.source, strip)) + DebugBytes(f, strip)
  {
    var a := StartBytes(f, parent, strip);
    Pairs3([], a, IntBytes(|f.k|), ConstsBytes(f.k), IntBytes(|f.p|), FunctionsBytes(f.p, f.source, strip));
    assert [] + a == a;
  }
}

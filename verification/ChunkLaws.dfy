/** The bytes of a precompiled chunk, one by one. */
module ChunkLaws {
  import opened Wrappers
  import opened Numbers
  import opened ChunkFormat
  import opened ChunkBack

  /** An int is written in two's complement, the low byte first. */
  lemma IntLittleEndian(a: Byte, b: Byte, c: Byte, d: Byte)
    ensures var x := a + 0x100 * b + 0x1_0000 * c + 0x100_0000 * d;
      IntBytes(if x < 0x8000_0000 then x else x - 0x1_0000_0000) == [a, b, c, d]
  {
    var n := a + 0x100 * b + 0x1_0000 * c + 0x100_0000 * d;
    WordOf4(n, a, b, c, d);
  }

  lemma WordOf4(n: nat, a: Byte, b: Byte, c: Byte, d: Byte)
    requires n == a + 0x100 * b + 0x1_0000 * c + 0x100_0000 * d
    ensures Word(n, 4) == [a, b, c, d]
  {
    var n1, n2 := b + 0x100 * c + 0x1_0000 * d, c + 0x100 * d;
    assert Word(d, 1) == [d] + Word(0, 0);
    assert Word(n2, 2) == [c] + Word(d, 1);
    assert Word(n1, 3) == [b] + Word(n2, 2);
    assert Word(n, 4) == [a] + Word(n1, 3);
  }

  /** A chunk starts with the signature, the version, the format, the byte order, and the sizes of int, size_t,
      Instruction and lua_Number; a chunk that starts with anything else is refused. */
  lemma Header(f: Fitting, strip: bool, z: Text, calls: nat, check: Proto -> bool)
    ensures |ChunkBytes(f, strip)| > 12 && ChunkBytes(f, strip)[..12] == [27, 76, 117, 97, 0x51, 0, 1, 4, 8, 4, 8, 0]
    ensures |z| < 12 ==> ReadChunk(z, calls, check) == Bad("unexpected end")
    ensures |z| >= 12 && z[..12] != [27, 76, 117, 97, 0x51, 0, 1, 4, 8, 4, 8, 0] ==> ReadChunk(z, calls, check) == Bad("bad header")
  {
    BlockIs(z, 12);
    assert |StartBytes(f, None, strip)| > 0;
  }

  // ---------- a sample ----------

  lemma SmallInt(n: Byte)
    ensures IntBytes(n) == Word(n, 4) == [n, 0, 0, 0]
  {
    WordOf4(n, n, 0, 0, 0);
  }

  lemma SmallWord(n: Byte)
    ensures Word(n, 8) == [n, 0, 0, 0, 0, 0, 0, 0]
  {
    WordOf4(0, 0, 0, 0, 0);
    assert Word(0, 5) == [0] + Word(0, 4);
    assert Word(0, 6) == [0] + Word(0, 5);
    assert Word(0, 7) == [0] + Word(0, 6);
    assert Word(n, 8) == [n] + Word(0, 7);
  }

  /** A text of one character with its size and its closing zero. */
  lemma SmallText(c: Byte)
    ensures TextBytes(Some([c])) == [2, 0, 0, 0, 0, 0, 0, 0, c, 0]
  {
    SmallWord(2);
  }

  /** A function with one of everything: its fields from a to z. */
  const SAMPLE: Proto := Proto(Some([64]), 1, 2, 3, 4, 5, 6, [0x0403_0201], [Nil, Bool(true), Number(7), Str(Some([120]))], [],
                               [8], [LocVar(Some([121]), 9, 10)], [Some([122])])

  lemma SampleFits()
    ensures Fits(SAMPLE)
  {
  }

  lemma SampleStart()
    requires Fits(SAMPLE)
    ensures StartBytes(SAMPLE, None, false)
      == [2, 0, 0, 0, 0, 0, 0, 0, 64, 0] + [1, 0, 0, 0] + [2, 0, 0, 0] + [3, 4, 5, 6] + [1, 0, 0, 0] + [1, 2, 3, 4]
  {
    SmallText(64);
    SmallInt(1);
    SmallInt(2);
    WordOf4(0x0403_0201, 1, 2, 3, 4);
    var code := SAMPLE.code;
    assert code[1..] == [] && Words(code[1..], 4) == [] && Words(code, 4) == [1, 2, 3, 4];
  }

  lemma ConstsOf(c: Const, k: seq<Const>)
    ensures ConstsBytes([c] + k) == ConstBytes(c) + ConstsBytes(k)
  {
    assert ([c] + k)[1..] == k;
  }

  lemma FourConsts(a: Const, b: Const, c: Const, d: Const)
    ensures ConstsBytes([a, b, c, d]) == ConstBytes(a) + (ConstBytes(b) + (ConstBytes(c) + ConstBytes(d)))
  {
    ConstsOf(a, [b, c, d]);
    ConstsOf(b, [c, d]);
    ConstsOf(c, [d]);
    ConstsOf(d, []);
    assert [a] + [b, c, d] == [a, b, c, d] && [b] + [c, d] == [b, c, d] && [c] + [d] == [c, d] && [d] + [] == [d];
  }

  lemma SampleConsts()
    ensures ConstsBytes(SAMPLE.k) == [0] + ([1, 1] + ([3, 7, 0, 0, 0, 0, 0, 0, 0] + [4, 2, 0, 0, 0, 0, 0, 0, 0, 120, 0]))
  {
    SmallWord(7);
    SmallText(120);
    FourConsts(Nil, Bool(true), Number(7), Str(Some([120])));
    assert ConstBytes(Number(7)) == [3, 7, 0, 0, 0, 0, 0, 0, 0];
    assert ConstBytes(Str(Some([120]))) == [4, 2, 0, 0, 0, 0, 0, 0, 0, 120, 0];
  }

  lemma OneOfEach(n: nat, v: LocVar, t: Option<Text>)
    requires FitsLocVar(v)
    ensures Words([n], 4) == Word(n, 4) && LocVarsBytes([v]) == LocVarBytes(v) && TextsBytes([t]) == TextBytes(t)
  {
    assert [n][1..] == [] && [v][1..] == [] && [t][1..] == [];
  }

  lemma SampleVar()
    ensures LocVarBytes(LocVar(Some([121]), 9, 10)) == [2, 0, 0, 0, 0, 0, 0, 0, 121, 0] + [9, 0, 0, 0] + [10, 0, 0, 0]
  {
    SmallInt(9);
    SmallInt(10);
    SmallText(121);
  }

  lemma SampleDebug()
    requires Fits(SAMPLE)
    ensures DebugBytes(SAMPLE, false)
      == [1, 0, 0, 0] + [8, 0, 0, 0] + [1, 0, 0, 0] + ([2, 0, 0, 0, 0, 0, 0, 0, 121, 0] + [9, 0, 0, 0] + [10, 0, 0, 0])
         + [1, 0, 0, 0] + [2, 0, 0, 0, 0, 0, 0, 0, 122, 0]
  {
    SmallInt(1);
    SmallInt(8);
    SmallText(122);
    SampleVar();
    OneOfEach(8, LocVar(Some([121]), 9, 10), Some([122]));
    assert Unsigneds(SAMPLE.lineinfo) == [8];
  }

  /** It may be dumped, with and without its debug information. */
  lemma SampleReady(strip: bool, check: Proto -> bool)
    requires check(Loaded(SAMPLE, strip))
    ensures Fits(SAMPLE) && Ready(SAMPLE, strip, check) && Depth(SAMPLE) == 1
  {
    SampleFits();
  }

  /** The sample in bytes: source, lines, four counts, code, constants with their tags, functions, line numbers,
      local variables, names of upvalues. */
  lemma SampleBytes()
    ensures Fits(SAMPLE) && FunctionBytes(SAMPLE, None, false)
      == ([2, 0, 0, 0, 0, 0, 0, 0, 64, 0] + [1, 0, 0, 0] + [2, 0, 0, 0] + [3, 4, 5, 6] + [1, 0, 0, 0] + [1, 2, 3, 4])
         + [4, 0, 0, 0] + ([0] + ([1, 1] + ([3, 7, 0, 0, 0, 0, 0, 0, 0] + [4, 2, 0, 0, 0, 0, 0, 0, 0, 120, 0])))
         + [0, 0, 0, 0] + []
         + ([1, 0, 0, 0] + [8, 0, 0, 0] + [1, 0, 0, 0] + ([2, 0, 0, 0, 0, 0, 0, 0, 121, 0] + [9, 0, 0, 0] + [10, 0, 0, 0])
            + [1, 0, 0, 0] + [2, 0, 0, 0, 0, 0, 0, 0, 122, 0])
  {
    SampleFits();
    SampleStart();
    SampleConsts();
    SampleDebug();
    SmallInt(4);
    SmallInt(0);
  }
}

/** Strings as source text: the %q format of lstrlib.c, and the string literals of llex.c. */
module Quote {
  import opened Numbers

  const EOZ := -1
  const NUL: Byte := 0
  const NL: Byte := 10
  const CR: Byte := 13
  const QUOTE: Byte := 34
  const BACKSLASH: Byte := 92

  predicate IsNewline(c: int) {
    c == NL || c == CR
  }

  // ---------- writing ----------

  /** What addquoted writes for one byte. */
  function QuotedByte(c: Byte): seq<Byte> {
    if c == QUOTE || c == BACKSLASH || c == NL then [BACKSLASH, c]
    else if c == CR then [BACKSLASH, 114]
    else if c == NUL then [BACKSLASH, 48, 48, 48]
    else [c]
  }

  function QuotedBody(s: seq<Byte>): seq<Byte> {
    if s == [] then [] else QuotedByte(s[0]) + QuotedBody(s[1..])
  }

  function Quoted(s: seq<Byte>): seq<Byte> {
    [QUOTE] + QuotedBody(s) + [QUOTE]
  }

  /** addquoted. */
  method AddQuoted(s: seq<Byte>) returns (b: seq<Byte>)
    ensures b == Quoted(s)
  {
    b := [QUOTE];
    for i := 0 to |s|
      invariant b + QuotedBody(s[i..]) == [QUOTE] + QuotedBody(s)
    {
      var c := s[i];
      assert s[i..][0] == c && s[i..][1..] == s[i + 1..];
      assert b + (QuotedByte(c) + QuotedBody(s[i + 1..])) == b + QuotedByte(c) + QuotedBody(s[i + 1..]);
      b := AddByte(b, c);
    }
    b := b + [QUOTE];
  }

  /** The switch of addquoted. */
  method AddByte(b: seq<Byte>, c: Byte) returns (b': seq<Byte>)
    ensures b' == b + QuotedByte(c)
  {
    b' := b;
    if c == QUOTE || c == BACKSLASH || c == NL {
      b' := b' + [BACKSLASH];
      b' := b' + [c];
    } else if c == CR {
      b' := b' + [BACKSLASH, 114];
    } else if c == NUL {
      b' := b' + [BACKSLASH, 48, 48, 48];
    } else {
      b' := b' + [c];
    }
  }

  // ---------- reading ----------

  /** A literal read: its contents, the input behind it, and the line number there. */
  datatype Lexed = Str(s: seq<Byte>, rest: seq<Byte>, line: int) | Error(msg: string)

  function First(z: seq<Byte>): int {
    if z == [] then EOZ else z[0]
  }

  function Rest(z: seq<Byte>): seq<Byte> {
    if z == [] then [] else z[1..]
  }

  /** The characters that stand for control codes after a backslash. */
  function Control(c: int): int {
    if c == 97 then 7 else if c == 98 then 8 else if c == 102 then 12 else if c == 110 then 10
    else if c == 114 then 13 else if c == 116 then 9 else if c == 118 then 11 else -1
  }

  /** The number of digits of a decimal escape, at most three. */
  function Digits(z: seq<Byte>): (k: nat)
    ensures k <= 3 && k <= |z| && forall i :: 0 <= i < k ==> IsDigit(z[i])
  {
    if !IsDigit(First(z)) then 0
    else if !IsDigit(First(Rest(z))) then 1
    else if !IsDigit(First(Rest(Rest(z)))) then 2 else 3
  }

  function Number(z: seq<Byte>): nat
    requires forall i :: 0 <= i < |z| ==> IsDigit(z[i])
  {
    if z == [] then 0 else
      assert IsDigit(z[|z| - 1]);
      10 * Number(z[..|z| - 1]) + (z[|z| - 1] as int - 48)
  }

  /** Behind a newline: both bytes of a pair of different ones count as one. */
  function AfterNewline(z: seq<Byte>): (r: seq<Byte>)
    requires z != []
    ensures |r| < |z|
  {
    if IsNewline(First(Rest(z))) && First(Rest(z)) != First(z) then Rest(Rest(z)) else Rest(z)
  }

  /** The body of a literal, up to the delimiter. */
  function Body(z: seq<Byte>, del: Byte, s: seq<Byte>, line: int): Lexed
    decreases |z|
  {
    var c := First(z);
    if c == del then Str(s, z[1..], line)
    else if c == EOZ || IsNewline(c) then Error("unfinished string")
    else if c != BACKSLASH then Body(z[1..], del, s + [z[0]], line)
    else
      var e := z[1..];
      var d := First(e);
      if Control(d) >= 0 then Body(e[1..], del, s + [Control(d)], line)
      else if IsNewline(d) then
        if line + 1 >= MAX_INT then Error("chunk has too many lines")
        else Body(AfterNewline(e), del, s + [NL], line + 1)
      else if d == EOZ then Error("unfinished string")
      else if !IsDigit(d) then Body(e[1..], del, s + [e[0]], line)
      else
        var n := Number(e[..Digits(e)]);
        if n > 255 then Error("escape sequence too large")
        else Body(e[Digits(e)..], del, s + [n], line)
  }

  class LexState {
    var z: seq<Byte>
    var buff: seq<Byte>
    var linenumber: int

    constructor (z: seq<Byte>, linenumber: int)
      ensures this.z == z && buff == [] && this.linenumber == linenumber
    {
      this.z, buff, this.linenumber := z, [], linenumber;
    }

    /** The current character. */
    function Current(): int
      reads this
    {
      First(z)
    }

    /** The macro next: zgetc at the end of the stream stays there. */
    method Advance()
      modifies `z
      ensures z == Rest(old(z))
    {
      if z != [] {
        z := z[1..];
      }
    }

    method Save(c: Byte)
      modifies `buff
      ensures buff == old(buff) + [c] && (old(buff) != [] ==> buff[1..] == old(buff)[1..] + [c])
    {
      buff := buff + [c];
    }

    /** inclinenumber. */
    method IncLineNumber() returns (ok: bool)
      requires z != [] && IsNewline(Current())
      modifies `z, `linenumber
      ensures z == AfterNewline(old(z)) && linenumber == old(linenumber) + 1 && ok == (linenumber < MAX_INT)
    {
      var first := Current();
      Advance();
      if IsNewline(Current()) && Current() != first {
        Advance();
      }
      linenumber := linenumber + 1;
      ok := linenumber < MAX_INT;
    }

    /** A decimal escape. */
    method ReadDecimal() returns (c: int)
      requires IsDigit(Current())
      modifies `z
      ensures c == Number(old(z)[..Digits(old(z))]) && z == old(z)[Digits(old(z))..]
    {
      ghost var z0 := z;
      var i := 0;
      c := 0;
      while i == 0 || (i < 3 && IsDigit(Current()))
        invariant 0 <= i <= Digits(z0) && z == z0[i..] && c == Number(z0[..i])
        decreases 3 - i
      {
        assert z0[..i + 1][..i] == z0[..i] && z0[..i + 1][i] == z0[i];
        c := 10 * c + (Current() - 48);
        Advance();
        i := i + 1;
      }
    }

    /** The turn of read_string for a backslash. */
    method ReadEscape(del: Byte) returns (r: Lexed)
      requires z != [] && Current() == BACKSLASH && del != BACKSLASH && buff != []
      modifies this
      ensures r.Error? ==> Body(old(z), del, old(buff)[1..], old(linenumber)) == r
      ensures buff != [] && |z| < |old(z)|
      ensures r.Str? ==> Body(old(z), del, old(buff)[1..], old(linenumber)) == Body(z, del, buff[1..], linenumber)
    {
      Advance();
      var d := Current();
      if Control(d) >= 0 {
        Save(Control(d));
        Advance();
      } else if IsNewline(d) {
        Save(NL);
        var ok := IncLineNumber();
        if !ok {
          return Error("chunk has too many lines");
        }
      } else if d == EOZ {
      } else if !IsDigit(d) {
        Save(d);
        Advance();
      } else {
        var c := ReadDecimal();
        if c > 255 {
          return Error("escape sequence too large");
        }
        Save(c);
      }
      r := Str([], [], 0);
    }

    /** read_string: the buffer takes both delimiters, which are not part of the string. */
    method ReadString(del: Byte) returns (r: Lexed)
      requires z != [] && Current() == del && buff == [] && (del == QUOTE || del == 39)
      modifies this
      ensures r == Body(old(z)[1..], del, [], old(linenumber))
      ensures r.Str? ==> r.rest == z && r.line == linenumber
    {
      Save(Current());
      Advance();
      ghost var z1 := z;
      assert buff[1..] == [];
      while Current() != del
        invariant buff != [] && Body(z1, del, [], old(linenumber)) == Body(z, del, buff[1..], linenumber)
        decreases |z|
      {
        if Current() == EOZ || IsNewline(Current()) {
          return Error("unfinished string");
        } else if Current() == BACKSLASH {
          var e := ReadEscape(del);
          if e.Error? {
            return e;
          }
        } else {
          Save(Current());
          Advance();
        }
      }
      Save(del);
      Advance();
      r := Str(buff[1..|buff| - 1], z, linenumber);
    }
  }

  // ---------- the escapes of the manual ----------

  /** Section 2.1 of the manual: the control codes that letters behind a backslash stand for. */
  lemma ControlCodes(c: nat)
    ensures Control('a' as int) == 7 && Control('b' as int) == 8 && Control('t' as int) == 9 && Control('n' as int) == 10
    ensures Control('v' as int) == 11 && Control('f' as int) == 12 && Control('r' as int) == 13
    ensures c < 256 && (c as char) !in "abtnvfr" ==> Control(c) < 0
  {
    assert forall k :: 0 <= k < 7 ==> "abtnvfr"[k] in "abtnvfr";
  }

  /** A letter or another character behind a backslash, in the body of a literal. */
  lemma CharacterEscape(c: Byte, tail: seq<Byte>, del: Byte, acc: seq<Byte>, line: int)
    requires del == 34 || del == 39
    ensures (c as char) in "abtnvfr" ==> Body([92, c] + tail, del, acc, line) == Body(tail, del, acc + [Control(c)], line)
    ensures (c as char) !in "abtnvfr" && c != 10 && c != 13 && !(48 <= c <= 57) ==>
      Body([92, c] + tail, del, acc, line) == Body(tail, del, acc + [c], line)
  {
    var z := [92, c] + tail;
    assert z[1..] == [c] + tail && z[1..][1..] == tail && First(z[1..]) == c;
    ControlCodes(c);
  }

  /** A newline behind a backslash is a newline of the string, and both bytes of a pair count as one. */
  lemma NewlineEscape(c: Byte, d: Byte, tail: seq<Byte>, del: Byte, acc: seq<Byte>, line: int)
    requires (del == 34 || del == 39) && (c == 10 || c == 13) && line + 1 < 0x7FFF_FFFD
    ensures c + d == 23 ==> Body([92, c, d] + tail, del, acc, line) == Body(tail, del, acc + [10], line + 1)
    ensures d == c || !(d == 10 || d == 13) ==> Body([92, c, d] + tail, del, acc, line) == Body([d] + tail, del, acc + [10], line + 1)
  {
    var z := [92, c, d] + tail;
    assert z[1..] == [c, d] + tail && z[1..][1..] == [d] + tail && z[1..][1..][1..] == tail;
  }

  /** The value of decimal digits. */
  function Decimal(d: seq<Byte>): int {
    if |d| == 1 then d[0] as int - 48
    else if |d| == 2 then 10 * (d[0] as int - 48) + (d[1] as int - 48)
    else if |d| == 3 then 100 * (d[0] as int - 48) + 10 * (d[1] as int - 48) + (d[2] as int - 48)
    else 0
  }

  /** Up to three digits behind a backslash: the byte with that number. */
  lemma DecimalEscape(d: seq<Byte>, tail: seq<Byte>, del: Byte, acc: seq<Byte>, line: int)
    requires (del == 34 || del == 39) && 1 <= |d| <= 3 && forall i :: 0 <= i < |d| ==> 48 <= d[i] <= 57
    requires |d| < 3 ==> tail == [] || !(48 <= tail[0] <= 57)
    ensures Body([92] + d + tail, del, acc, line)
      == if Decimal(d) > 255 then Error("escape sequence too large") else Body(tail, del, acc + [Decimal(d)], line)
  {
    var z, e := [92] + d + tail, d + tail;
    assert z[1..] == e && First(e) == d[0];
    DecimalDigits(d, tail);
    assert e[..|d|] == d && e[|d|..] == tail;
  }

  lemma DecimalDigits(d: seq<Byte>, tail: seq<Byte>)
    requires 1 <= |d| <= 3 && forall i :: 0 <= i < |d| ==> 48 <= d[i] <= 57
    requires |d| < 3 ==> tail == [] || !(48 <= tail[0] <= 57)
    ensures Digits(d + tail) == |d| && Number(d) == Decimal(d)
  {
    var e := d + tail;
    assert First(e) == d[0];
    if |d| > 1 {
      assert First(Rest(e)) == d[1];
    } else {
      assert Rest(e) == tail;
    }
    if |d| > 2 {
      assert First(Rest(Rest(e))) == d[2];
    } else if |d| == 2 {
      assert Rest(Rest(e)) == tail;
    }
    NumberIs(d);
  }

  lemma NumberIs(d: seq<Byte>)
    requires 1 <= |d| <= 3 && forall i :: 0 <= i < |d| ==> IsDigit(d[i])
    ensures Number(d) == Decimal(d)
  {
    assert Number([]) == 0;
    assert d[..1] == [d[0]] && d[..1][..0] == [];
    assert Number(d[..1]) == d[0] - 48;
    if |d| > 1 {
      assert d[..2][..1] == d[..1];
      assert Number(d[..2]) == 10 * Number(d[..1]) + (d[1] - 48);
    }
    if |d| > 2 {
      assert d[..3][..2] == d[..2] && d[..3] == d;
    } else {
      assert d[..|d|] == d;
    }
  }

  /** What ends a literal: its delimiter; a newline or the end of the input is an error. */
  lemma LiteralEnds(z: seq<Byte>, del: Byte, acc: seq<Byte>, line: int)
    requires del == 34 || del == 39
    ensures Body([del] + z, del, acc, line) == Str(acc, z, line)
    ensures Body([10] + z, del, acc, line) == Body([13] + z, del, acc, line) == Body([], del, acc, line) == Error("unfinished string")
  {
    assert ([del] + z)[1..] == z;
  }

  // ---------- round trip ----------

  function Lines(s: seq<Byte>): nat {
    if s == [] then 0 else (if s[0] == NL then 1 else 0) + Lines(s[1..])
  }

  /** Quoted text never starts with a raw carriage return or newline. */
  lemma QuotedStart(s: seq<Byte>, rest: seq<Byte>)
    ensures !IsNewline(First(QuotedBody(s) + [QUOTE] + rest))
  {
  }

  lemma NumberZero()
    ensures Number([48, 48, 48]) == 0
  {
    assert [48, 48, 48][..2] == [48, 48] && [48, 48][..1] == [48] && [48][..0] == [];
    assert Number([48]) == 0 && Number([48, 48]) == 0;
  }

  /** One byte read back. */
  lemma ReadByte(c: Byte, tail: seq<Byte>, acc: seq<Byte>, line: int)
    requires !IsNewline(First(tail)) && (c == NL ==> line + 1 < MAX_INT)
    ensures Body(QuotedByte(c) + tail, QUOTE, acc, line) == Body(tail, QUOTE, acc + [c], line + if c == NL then 1 else 0)
  {
    var z := QuotedByte(c) + tail;
    if |QuotedByte(c)| == 1 {
      assert z[1..] == tail;
    } else if c == NUL {
      assert z[1..][..3] == [48, 48, 48] && Digits(z[1..]) == 3 && z[1..][3..] == tail;
      NumberZero();
    } else {
      assert z[1..][1..] == tail;
    }
  }

  lemma QuotedTail(s: seq<Byte>, rest: seq<Byte>)
    requires s != []
    ensures QuotedBody(s) + [QUOTE] + rest == QuotedByte(s[0]) + (QuotedBody(s[1..]) + [QUOTE] + rest)
  {
    assert QuotedBody(s) == QuotedByte(s[0]) + QuotedBody(s[1..]);
  }

  lemma OneMore(acc: seq<Byte>, s: seq<Byte>)
    requires s != []
    ensures acc + [s[0]] + s[1..] == acc + s
  {
  }

  lemma {:induction false} ReadQuoted(s: seq<Byte>, rest: seq<Byte>, acc: seq<Byte>, line: int)
    requires line + Lines(s) < MAX_INT
    ensures Body(QuotedBody(s) + [QUOTE] + rest, QUOTE, acc, line) == Str(acc + s, rest, line + Lines(s))
  {
    if s == [] {
      assert QuotedBody(s) + [QUOTE] + rest == [QUOTE] + rest && acc + s == acc;
    } else {
      var tail := QuotedBody(s[1..]) + [QUOTE] + rest;
      QuotedTail(s, rest);
      QuotedStart(s[1..], rest);
      ReadByte(s[0], tail, acc, line);
      ReadQuoted(s[1..], rest, acc + [s[0]], line + if s[0] == NL then 1 else 0);
      OneMore(acc, s);
    }
  }

  /** For every string of bytes: what %q writes is a literal that the lexer reads back as that string, consuming
      it exactly, and counting the newlines in it. */
  method WriteThenRead(s: seq<Byte>, rest: seq<Byte>, line: int) returns (r: Lexed)
    requires line + Lines(s) < MAX_INT
    ensures r == Str(s, rest, line + Lines(s))
  {
    var b := AddQuoted(s);
    var ls := new LexState(b + rest, line);
    assert (b + rest)[1..] == QuotedBody(s) + [QUOTE] + rest;
    ReadQuoted(s, rest, [], line);
    assert [] + s == s;
    r := ls.ReadString(QUOTE);
  }
}

/** The UTF-16 and UTF-32 cases of iconv (musl-locale/iconv.c). */
module Transcoding {
  import opened Utf8

  datatype Encoding = Utf16Be | Utf16Le | Utf32Be | Utf32Le
  {
    /** The code of the encoding in the table of character maps. */
    function Type(): nat {
      match this
      case Utf32Be => 192
      case Utf16Le => 193
      case Utf16Be => 194
      case Utf32Le => 195
    }

    predicate Is32() {
      Utf32Be? || Utf32Le?
    }
  }

  // ----- Byte order -----

  /** Byte k of a number, the most significant one first. */
  function ByteOf(c: bv32, k: nat): byte
    requires k < 4
  {
    if k == 0 then Low(c >> 24) else if k == 1 then Low(c >> 16) else if k == 2 then Low(c >> 8) else Low(c)
  }

  function Low(c: bv32): byte {
    (c & 0xFF) as byte
  }

  function Make16(a: byte, b: byte): bv32 {
    ((a as bv32) << 8) | (b as bv32)
  }

  function Make32(a: byte, b: byte, c: byte, d: byte): bv32 {
    ((a as bv32) << 24) | ((b as bv32) << 16) | ((c as bv32) << 8) | (d as bv32)
  }

  function Get16(s: seq<byte>, code: nat): bv32
    requires 2 <= |s|
  {
    var e := code % 2;
    Make16(s[e], s[1 - e])
  }

  function Put16(c: bv32, code: nat): (s: seq<byte>)
    ensures |s| == 2
  {
    if code % 2 == 0 then [ByteOf(c, 2), ByteOf(c, 3)] else [ByteOf(c, 3), ByteOf(c, 2)]
  }

  /** The bitwise exclusive or of two numbers below 4. */
  function Xor(e: nat, k: nat): (r: nat)
    requires e < 4 && k < 4
    ensures r < 4
  {
    (if e % 2 == k % 2 then 0 else 1) + (if e / 2 == k / 2 then 0 else 2)
  }

  function Get32(s: seq<byte>, code: nat): bv32
    requires 4 <= |s|
  {
    var e := code % 4;
    Make32(s[e], s[Xor(e, 1)], s[Xor(e, 2)], s[Xor(e, 3)])
  }

  /** Byte k is assigned at position e^k, so at position j stands byte e^j. */
  function Put32(c: bv32, code: nat): (s: seq<byte>)
    ensures |s| == 4
  {
    var e := code % 4;
    [ByteOf(c, Xor(e, 0)), ByteOf(c, Xor(e, 1)), ByteOf(c, Xor(e, 2)), ByteOf(c, Xor(e, 3))]
  }

  lemma BytesOf16(a: byte, b: byte)
    ensures var v := Make16(a, b); v < 0x10000 && ByteOf(v, 2) == a && ByteOf(v, 3) == b
  {
  }

  lemma MakeOf16(c: bv32)
    requires c < 0x10000
    ensures Make16(ByteOf(c, 2), ByteOf(c, 3)) == c
  {
  }

  lemma BytesOf32(a: byte, b: byte, c: byte, d: byte)
    ensures var v := Make32(a, b, c, d);
            ByteOf(v, 0) == a && ByteOf(v, 1) == b && ByteOf(v, 2) == c && ByteOf(v, 3) == d
  {
  }

  lemma MakeOf32(c: bv32)
    ensures Make32(ByteOf(c, 0), ByteOf(c, 1), ByteOf(c, 2), ByteOf(c, 3)) == c
  {
  }

  lemma Get16Put16(c: bv32, code: nat, rest: seq<byte>)
    requires c < 0x10000
    ensures Get16(Put16(c, code) + rest, code) == c
  {
    hide ByteOf, Make16;
    MakeOf16(c);
  }

  lemma Put16Get16(s: seq<byte>, code: nat)
    requires 2 <= |s|
    ensures Get16(s, code) < 0x10000 && Put16(Get16(s, code), code) == s[..2]
  {
    hide ByteOf, Make16;
    BytesOf16(s[0], s[1]);
    BytesOf16(s[1], s[0]);
  }

  lemma Get32Put32(c: bv32, code: nat, rest: seq<byte>)
    ensures Get32(Put32(c, code) + rest, code) == c
  {
    hide ByteOf, Make32, Xor, Put32;
    var e, s := code % 4, Put32(c, code) + rest;
    MakeOf32(c);
    XorTwice(e, 0);
    forall k: nat | k < 4 ensures s[Xor(e, k)] == ByteOf(c, k) {
      XorTwice(e, k);
      Put32At(c, code, Xor(e, k));
    }
  }

  lemma Put32At(c: bv32, code: nat, j: nat)
    requires j < 4
    ensures Put32(c, code)[j] == ByteOf(c, Xor(code % 4, j))
  {
    hide ByteOf, Xor;
  }

  lemma Put32Get32(s: seq<byte>, code: nat)
    requires 4 <= |s|
    ensures Put32(Get32(s, code), code) == s[..4]
  {
    hide ByteOf, Make32, Xor, Put32;
    var e, v := code % 4, Get32(s, code);
    BytesOf32(s[e], s[Xor(e, 1)], s[Xor(e, 2)], s[Xor(e, 3)]);
    forall j: nat | j < 4 ensures Put32(v, code)[j] == s[..4][j] {
      XorTwice(e, j);
      XorTwice(e, 0);
      Put32At(v, code, j);
      assert ByteOf(v, Xor(e, j)) == s[Xor(e, Xor(e, j))];
    }
  }

  lemma XorTwice(e: nat, k: nat)
    requires e < 4 && k < 4
    ensures Xor(e, Xor(e, k)) == k && Xor(e, 0) == e
  {
  }

  // ----- One character -----

  datatype Next = Read(c: bv32, length: nat) | Starved | Malformed

  /** The first character of a non-empty input. */
  function GetNext(from: Encoding, input: seq<byte>): (n: Next)
    ensures n.Read? ==> 1 <= n.length <= |input|
  {
    if from.Is32() then
      if |input| < 4 then Starved
      else
        var c := Get32(input, from.Type());
        if c - 0xD800 < 0x800 || c >= 0x110000 then Malformed else Read(c, 4)
    else if |input| < 2 then Starved
    else
      var c := Get16(input, from.Type());
      if c - 0xDC00 < 0x400 then Malformed
      else if c - 0xD800 < 0x400 then
        if |input| < 4 then Starved
        else
          var d := Get16(input[2..], from.Type());
          if d - 0xDC00 >= 0x400 then Malformed else Read(((c - 0xD7C0) << 10) + (d - 0xDC00), 4)
      else Read(c, 2)
  }

  /** The bytes that are written for a character. */
  function PutNext(to: Encoding, c: bv32): (s: seq<byte>)
    ensures |s| == 2 || |s| == 4
  {
    if to.Is32() then Put32(c, to.Type())
    else if c < 0x10000 then Put16(c, to.Type())
    else Put16(((c - 0x10000) >> 10) | 0xD800, to.Type()) + Put16(((c - 0x10000) & 0x3FF) | 0xDC00, to.Type())
  }

  // ----- Surrogate pairs (sections 2.1 and 2.2 of RFC 2781) -----

  function High(c: bv32): bv32 { ((c - 0x10000) >> 10) | 0xD800 }

  function LowHalf(c: bv32): bv32 { ((c - 0x10000) & 0x3FF) | 0xDC00 }

  function Pair(c: bv32, d: bv32): bv32 { ((c - 0xD7C0) << 10) + (d - 0xDC00) }

  lemma PairOfHalves(c: bv32)
    requires 0x10000 <= c < 0x110000
    ensures High(c) < 0x10000 && LowHalf(c) < 0x10000 && Pair(High(c), LowHalf(c)) == c
    ensures High(c) - 0xDC00 >= 0x400 && High(c) - 0xD800 < 0x400 && LowHalf(c) - 0xDC00 < 0x400
  {
  }

  lemma HalvesOfPair(c: bv32, d: bv32)
    requires c - 0xD800 < 0x400 && d - 0xDC00 < 0x400
    ensures 0x10000 <= Pair(c, d) < 0x110000 && High(Pair(c, d)) == c && LowHalf(Pair(c, d)) == d
  {
  }

  lemma NoSurrogate(c: bv32)
    requires c < 0x10000
    ensures (c - 0xDC00 >= 0x400 && c - 0xD800 >= 0x400) <==> Scalar(c)
  {
  }

  lemma ScalarTest(c: bv32)
    ensures (c - 0xD800 < 0x800 || c >= 0x110000) <==> !Scalar(c)
  {
  }

  /** Writing a scalar value and reading it back. */
  lemma GetPut(enc: Encoding, c: bv32, rest: seq<byte>)
    requires Scalar(c)
    ensures GetNext(enc, PutNext(enc, c) + rest) == Read(c, |PutNext(enc, c)|)
  {
    hide Get16, Get32, Put16, Put32, Scalar, High, LowHalf, Pair;
    var code := enc.Type();
    if enc.Is32() {
      Get32Put32(c, code, rest);
      ScalarTest(c);
    } else if c < 0x10000 {
      Get16Put16(c, code, rest);
      NoSurrogate(c);
    } else {
      ScalarRange(c);
      GetPutPair(enc, c, rest);
    }
  }

  lemma GetPutPair(enc: Encoding, c: bv32, rest: seq<byte>)
    requires !enc.Is32() && 0x10000 <= c < 0x110000
    ensures GetNext(enc, PutNext(enc, c) + rest) == Read(c, |PutNext(enc, c)|)
  {
    hide GetNext, PutNext, Get16, Put16, High, LowHalf, Pair;
    var code := enc.Type();
    PairOfHalves(c);
    PutPair(enc, c);
    var first, second := Put16(High(c), code), Put16(LowHalf(c), code);
    var s := first + second + rest;
    assert s == first + (second + rest) && s[2..] == second + rest;
    Get16Put16(High(c), code, second + rest);
    Get16Put16(LowHalf(c), code, rest);
    GetPair(enc, s);
  }

  lemma ScalarRange(c: bv32)
    requires Scalar(c)
    ensures c < 0x110000
  {
  }

  lemma PutPair(to: Encoding, c: bv32)
    requires !to.Is32() && 0x10000 <= c
    ensures PutNext(to, c) == Put16(High(c), to.Type()) + Put16(LowHalf(c), to.Type())
  {
    hide Put16;
  }

  lemma GetPair(from: Encoding, s: seq<byte>)
    requires !from.Is32() && 4 <= |s|
    requires var c := Get16(s, from.Type()); c - 0xDC00 >= 0x400 && c - 0xD800 < 0x400
    ensures var c, d := Get16(s, from.Type()), Get16(s[2..], from.Type());
            GetNext(from, s) == if d - 0xDC00 >= 0x400 then Malformed else Read(Pair(c, d), 4)
  {
    hide Get16;
  }

  /** Reading a character and writing it again. */
  lemma PutGet(enc: Encoding, input: seq<byte>)
    requires GetNext(enc, input).Read?
    ensures var n := GetNext(enc, input); Scalar(n.c) && PutNext(enc, n.c) == input[..n.length]
  {
    hide Get16, Get32, Put16, Put32, Scalar, High, LowHalf, Pair;
    var code := enc.Type();
    if enc.Is32() {
      Put32Get32(input, code);
      ScalarTest(Get32(input, code));
    } else {
      var c := Get16(input, code);
      Put16Get16(input, code);
      NoSurrogate(c);
      if c - 0xD800 < 0x400 {
        GetPair(enc, input);
        var d := Get16(input[2..], code);
        Put16Get16(input[2..], code);
        HalvesOfPair(c, d);
        PairIsScalar(Pair(c, d));
        PutPair(enc, Pair(c, d));
        assert input[..2] + input[2..][..2] == input[..4];
      }
    }
  }

  lemma PairIsScalar(c: bv32)
    requires 0x10000 <= c < 0x110000
    ensures Scalar(c)
  {
  }

  /** More input does not change a character that has been read. */
  lemma GetMore(from: Encoding, input: seq<byte>, more: seq<byte>)
    requires GetNext(from, input).Read?
    ensures GetNext(from, input + more) == GetNext(from, input)
  {
    hide Get16, Get32;
    PutGet(from, input);
    var n := GetNext(from, input);
    GetPut(from, n.c, input[n.length..] + more);
    assert input + more == PutNext(from, n.c) + (input[n.length..] + more);
  }

  // ----- The bytes of the forms -----

  /** A 16-bit unit, most significant byte first. */
  predicate IsUnit(s: seq<byte>, v: bv32) {
    |s| == 2 && (s[0] as bv32) * 0x100 + (s[1] as bv32) == v
  }

  function Swapped(s: seq<byte>): seq<byte>
    requires |s| == 2
  {
    [s[1], s[0]]
  }

  function Reversed(s: seq<byte>): seq<byte>
    requires |s| == 4
  {
    [s[3], s[2], s[1], s[0]]
  }

  lemma UnitBytes(v: bv32)
    requires v < 0x10000
    ensures IsUnit([ByteOf(v, 2), ByteOf(v, 3)], v)
  {
  }

  /** A 32-bit unit, most significant byte first. */
  predicate IsWord(s: seq<byte>, v: bv32) {
    && |s| == 4
    && (s[0] as bv32) * 0x1000000 + (s[1] as bv32) * 0x10000 + (s[2] as bv32) * 0x100 + (s[3] as bv32) == v
  }

  lemma WordBytes(v: bv32)
    ensures IsWord([ByteOf(v, 0), ByteOf(v, 1), ByteOf(v, 2), ByteOf(v, 3)], v)
  {
  }

  /** Surrogates carry the upper and the lower ten bits of what exceeds 10000 (section 2.1 of RFC 2781). */
  lemma SurrogateValues(c: bv32)
    requires 0x10000 <= c < 0x110000
    ensures High(c) == 0xD800 + (c - 0x10000) / 0x400 && LowHalf(c) == 0xDC00 + (c - 0x10000) % 0x400
    ensures High(c) < 0x10000 && LowHalf(c) < 0x10000
  {
  }

  /** UTF-16, most significant byte first: one unit, or a pair of surrogates. */
  lemma Utf16BeBytes(c: bv32)
    requires c < 0x110000
    ensures var s := PutNext(Utf16Be, c);
            if c < 0x10000 then IsUnit(s, c)
            else |s| == 4 && IsUnit(s[..2], 0xD800 + (c - 0x10000) / 0x400)
                 && IsUnit(s[2..], 0xDC00 + (c - 0x10000) % 0x400)
  {
    hide ByteOf, High, LowHalf, IsUnit;
    if c < 0x10000 {
      UnitBytes(c);
    } else {
      PutPair(Utf16Be, c);
      SurrogateValues(c);
      UnitBytes(High(c));
      UnitBytes(LowHalf(c));
      var s := PutNext(Utf16Be, c);
      assert s[..2] == [ByteOf(High(c), 2), ByteOf(High(c), 3)];
      assert s[2..] == [ByteOf(LowHalf(c), 2), ByteOf(LowHalf(c), 3)];
    }
  }

  /** The other order swaps the bytes of every unit. */
  lemma Utf16LeBytes(c: bv32)
    ensures var be, le := PutNext(Utf16Be, c), PutNext(Utf16Le, c);
            if c < 0x10000 then |be| == 2 && le == Swapped(be)
            else |be| == 4 && le == Swapped(be[..2]) + Swapped(be[2..])
  {
    hide ByteOf, High, LowHalf;
    if c >= 0x10000 {
      PutPair(Utf16Be, c);
      PutPair(Utf16Le, c);
    }
  }

  /** UTF-32: four bytes, most significant first, or reversed. */
  lemma Utf32Bytes(c: bv32)
    ensures var be := PutNext(Utf32Be, c);
            |be| == 4 && PutNext(Utf32Le, c) == Reversed(be) && IsWord(be, c)
  {
    hide ByteOf, IsWord;
    WordBytes(c);
  }

  // ----- What is read, and when nothing can be -----

  /** The bytes of a unit, most significant one first. */
  function InOrder(enc: Encoding, s: seq<byte>): seq<byte> {
    if (enc.Utf16Le? && |s| == 2) then Swapped(s) else if (enc.Utf32Le? && |s| == 4) then Reversed(s) else s
  }

  lemma UnitOf(a: byte, b: byte, v: bv32)
    requires IsUnit([a, b], v)
    ensures Make16(a, b) == v && v < 0x10000
  {
  }

  lemma WordOf(a: byte, b: byte, c: byte, d: byte, v: bv32)
    requires IsWord([a, b, c, d], v)
    ensures Make32(a, b, c, d) == v
  {
  }

  lemma UnitRead(enc: Encoding, s: seq<byte>, v: bv32)
    requires !enc.Is32() && 2 <= |s| && IsUnit(InOrder(enc, s[..2]), v)
    ensures Get16(s, enc.Type()) == v && v < 0x10000
  {
    hide Make16;
    if enc.Utf16Be? {
      assert s[..2] == [s[0], s[1]];
      UnitOf(s[0], s[1], v);
    } else {
      assert Swapped(s[..2]) == [s[1], s[0]];
      UnitOf(s[1], s[0], v);
    }
  }

  predicate IsHigh(v: bv32) {
    0xD800 <= v < 0xDC00
  }

  predicate IsLow(v: bv32) {
    0xDC00 <= v < 0xE000
  }

  lemma SurrogateTests(v: bv32)
    ensures IsLow(v) <==> v - 0xDC00 < 0x400
    ensures IsHigh(v) <==> v - 0xD800 < 0x400
  {
  }

  lemma PairValue(v: bv32, d: bv32)
    requires IsHigh(v) && IsLow(d)
    ensures Pair(v, d) == 0x10000 + (v - 0xD800) * 0x400 + (d - 0xDC00)
  {
  }

  /**
    UTF-16: a low surrogate first is an error, a high one needs a low one after it, and all other units are themselves;
    a unit or pair that is cut off asks for more input.
   */
  lemma Utf16Read(enc: Encoding, input: seq<byte>, v: bv32, d: bv32)
    requires !enc.Is32() && (2 <= |input| ==> IsUnit(InOrder(enc, input[..2]), v))
    requires 4 <= |input| ==> IsUnit(InOrder(enc, input[2..4]), d)
    ensures GetNext(enc, input)
            == if |input| < 2 then Starved
               else if IsLow(v) then Malformed
               else if !IsHigh(v) then Read(v, 2)
               else if |input| < 4 then Starved
               else if IsLow(d) then Read(0x10000 + (v - 0xD800) * 0x400 + (d - 0xDC00), 4)
               else Malformed
  {
    hide Get16, IsUnit, InOrder, IsHigh, IsLow;
    if 2 <= |input| {
      UnitRead(enc, input, v);
      SurrogateTests(v);
      if 4 <= |input| {
        assert input[2..][..2] == input[2..4];
        UnitRead(enc, input[2..], d);
        SurrogateTests(d);
        if IsHigh(v) && IsLow(d) {
          PairValue(v, d);
        }
      }
    }
  }

  /** UTF-32: surrogates and values beyond 10FFFF are errors. */
  lemma Utf32Read(enc: Encoding, input: seq<byte>, v: bv32)
    requires enc.Is32() && (4 <= |input| ==> IsWord(InOrder(enc, input[..4]), v))
    ensures GetNext(enc, input)
            == if |input| < 4 then Starved else if IsHigh(v) || IsLow(v) || 0x110000 <= v then Malformed else Read(v, 4)
  {
    hide Make32, IsWord;
    if 4 <= |input| {
      if enc.Utf32Be? {
        assert input[..4] == [input[0], input[1], input[2], input[3]];
        WordOf(input[0], input[1], input[2], input[3], v);
      } else {
        assert Reversed(input[..4]) == [input[3], input[2], input[1], input[0]];
        WordOf(input[3], input[2], input[1], input[0], v);
      }
      SurrogateRange(v);
    }
  }

  lemma SurrogateRange(v: bv32)
    ensures IsHigh(v) || IsLow(v) <==> v - 0xD800 < 0x800
  {
  }
}

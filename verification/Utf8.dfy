/** UTF-8 as defined in RFC 3629. */
module Utf8 {

  type byte = bv8

  // ----- The bits of a sequence -----

  function Lead2(v: bv32): byte { (0xC0 | ((v >> 6) & 0x1F)) as byte }

  function Lead3(v: bv32): byte { (0xE0 | ((v >> 12) & 0x0F)) as byte }

  function Lead4(v: bv32): byte { (0xF0 | ((v >> 18) & 0x07)) as byte }

  /** A further byte, which holds the six bits of v from the given one on. */
  function Tail(v: bv32): byte { (0x80 | (v & 0x3F)) as byte }

  function Tail6(v: bv32): byte { Tail(v >> 6) }

  function Tail12(v: bv32): byte { Tail(v >> 12) }

  function Bits(b: byte): bv32 { (b & 0x3F) as bv32 }

  function Join2(b0: byte, b1: byte): bv32 { (((b0 & 0x1F) as bv32) << 6) | Bits(b1) }

  function Join3(b0: byte, b1: byte, b2: byte): bv32 { (((b0 & 0x0F) as bv32) << 12) | (Bits(b1) << 6) | Bits(b2) }

  function Join4(b0: byte, b1: byte, b2: byte, b3: byte): bv32 {
    (((b0 & 0x07) as bv32) << 18) | (Bits(b1) << 12) | (Bits(b2) << 6) | Bits(b3)
  }

  /** The encoding of section 3 of RFC 3629, for values of up to 21 bits. */
  function Encode(v: bv32): (s: seq<byte>)
    requires v < 0x200000
    ensures 1 <= |s| <= 4
  {
    if v < 0x80 then [v as byte]
    else if v < 0x800 then [Lead2(v), Tail(v)]
    else if v < 0x10000 then [Lead3(v), Tail6(v), Tail(v)]
    else [Lead4(v), Tail12(v), Tail6(v), Tail(v)]
  }

  // ----- The grammar -----

  predicate IsTail(b: byte) {
    0x80 <= b <= 0xBF
  }

  /** The number of bytes in a sequence that starts with the given byte, 0 if none does. */
  function Length(lead: byte): nat {
    if lead < 0x80 then 1
    else if 0xC2 <= lead <= 0xDF then 2
    else if 0xE0 <= lead <= 0xEF then 3
    else if 0xF0 <= lead <= 0xF4 then 4
    else 0
  }

  /** The second bytes of section 4 of RFC 3629, except that after F4 they go up to 9F and not only to 8F. */
  predicate SecondOk(lead: byte, b: byte) {
    if lead == 0xE0 then 0xA0 <= b <= 0xBF
    else if lead == 0xED then 0x80 <= b <= 0x9F
    else if lead == 0xF0 then 0x90 <= b <= 0xBF
    else if lead == 0xF4 then 0x80 <= b <= 0x9F
    else IsTail(b)
  }

  /** Exactly one character, in the form of the grammar in section 4 of RFC 3629. */
  predicate IsSequence(s: seq<byte>) {
    && s != [] && |s| == Length(s[0])
    && (2 <= |s| ==> SecondOk(s[0], s[1]))
    && (3 <= |s| ==> IsTail(s[2]))
    && (4 <= |s| ==> IsTail(s[3]))
  }

  function Value(s: seq<byte>): bv32
    requires IsSequence(s)
  {
    if |s| == 1 then s[0] as bv32
    else if |s| == 2 then Join2(s[0], s[1])
    else if |s| == 3 then Join3(s[0], s[1], s[2])
    else Join4(s[0], s[1], s[2], s[3])
  }

  /** The Unicode scalar values. */
  predicate Scalar(v: bv32) {
    v < 0x110000 && !(0xD800 <= v <= 0xDFFF)
  }

  /** The values that the sequences stand for: the scalar values, and those up to 11FFFF because of F4. */
  predicate Encodable(v: bv32) {
    v < 0x120000 && !(0xD800 <= v <= 0xDFFF)
  }

  predicate AllEncodable(vs: seq<bv32>) {
    forall i :: 0 <= i < |vs| ==> Encodable(vs[i])
  }

  function EncodeAll(vs: seq<bv32>): seq<byte>
    requires AllEncodable(vs)
  {
    if vs == [] then [] else Encode(vs[0]) + EncodeAll(vs[1..])
  }

  // ----- Sequences and encodings are the same -----

  lemma SequenceOf1(b: byte)
    requires b < 0x80
    ensures var v := b as bv32; v < 0x80 && v as byte == b
  {
  }

  lemma SequenceOf2(b0: byte, b1: byte)
    requires 0xC2 <= b0 <= 0xDF && SecondOk(b0, b1)
    ensures var v := Join2(b0, b1); 0x80 <= v < 0x800 && Lead2(v) == b0 && Tail(v) == b1
  {
  }

  lemma SequenceOf3(b0: byte, b1: byte, b2: byte)
    requires 0xE0 <= b0 <= 0xEF && SecondOk(b0, b1) && IsTail(b2)
    ensures var v := Join3(b0, b1, b2);
            && 0x800 <= v < 0x10000 && !(0xD800 <= v <= 0xDFFF)
            && Lead3(v) == b0 && Tail6(v) == b1 && Tail(v) == b2
  {
  }

  lemma SequenceOf4(b0: byte, b1: byte, b2: byte, b3: byte)
    requires 0xF0 <= b0 <= 0xF4 && SecondOk(b0, b1) && IsTail(b2) && IsTail(b3)
    ensures var v := Join4(b0, b1, b2, b3);
            0x10000 <= v < 0x120000 && Lead4(v) == b0 && Tail12(v) == b1 && Tail6(v) == b2 && Tail(v) == b3
  {
  }

  lemma EncodingOf1(v: bv32)
    requires v < 0x80
    ensures var b := v as byte; b < 0x80 && b as bv32 == v
  {
  }

  lemma EncodingOf2(v: bv32)
    requires 0x80 <= v < 0x800
    ensures 0xC2 <= Lead2(v) <= 0xDF && SecondOk(Lead2(v), Tail(v)) && Join2(Lead2(v), Tail(v)) == v
  {
  }

  lemma TailIsTail(v: bv32)
    ensures IsTail(Tail(v))
  {
  }

  lemma Lead3Ok(v: bv32)
    requires 0x800 <= v < 0x10000 && !(0xD800 <= v <= 0xDFFF)
    ensures 0xE0 <= Lead3(v) <= 0xEF && SecondOk(Lead3(v), Tail6(v))
  {
  }

  lemma Join3Leads(v: bv32)
    requires v < 0x10000
    ensures Join3(Lead3(v), Tail6(v), Tail(v)) == v
  {
  }

  lemma EncodingOf3(v: bv32)
    requires 0x800 <= v < 0x10000 && !(0xD800 <= v <= 0xDFFF)
    ensures 0xE0 <= Lead3(v) <= 0xEF && SecondOk(Lead3(v), Tail6(v)) && IsTail(Tail(v))
    ensures Join3(Lead3(v), Tail6(v), Tail(v)) == v
  {
    hide Lead3, Tail, Tail6, Join3, SecondOk, IsTail;
    Lead3Ok(v);
    TailIsTail(v);
    Join3Leads(v);
  }

  lemma Lead4Ok(v: bv32)
    requires 0x10000 <= v < 0x120000
    ensures 0xF0 <= Lead4(v) <= 0xF4 && SecondOk(Lead4(v), Tail12(v))
  {
  }

  lemma Join4Leads(v: bv32)
    requires v < 0x200000
    ensures Join4(Lead4(v), Tail12(v), Tail6(v), Tail(v)) == v
  {
  }

  lemma EncodingOf4(v: bv32)
    requires 0x10000 <= v < 0x120000
    ensures 0xF0 <= Lead4(v) <= 0xF4 && SecondOk(Lead4(v), Tail12(v)) && IsTail(Tail6(v)) && IsTail(Tail(v))
    ensures Join4(Lead4(v), Tail12(v), Tail6(v), Tail(v)) == v
  {
    hide Lead4, Tail, Tail12, Join4, SecondOk, IsTail;
    Lead4Ok(v);
    TailIsTail(v);
    TailIsTail(v >> 6);
    Join4Leads(v);
  }

  /** Every sequence is the encoding of its value. */
  lemma SequenceIsEncoding(s: seq<byte>)
    requires IsSequence(s)
    ensures Encodable(Value(s)) && Encode(Value(s)) == s
  {
    hide Join2, Join3, Join4, Lead2, Lead3, Lead4, Tail, Tail6, Tail12, SecondOk, IsTail;
    if |s| == 1 {
      SequenceOf1(s[0]);
    } else if |s| == 2 {
      SequenceOf2(s[0], s[1]);
    } else if |s| == 3 {
      SequenceOf3(s[0], s[1], s[2]);
    } else {
      SequenceOf4(s[0], s[1], s[2], s[3]);
    }
  }

  /** Every encoding is a sequence with that value. */
  lemma EncodingIsSequence(v: bv32)
    requires Encodable(v)
    ensures IsSequence(Encode(v)) && Value(Encode(v)) == v
  {
    hide Join2, Join3, Join4, Lead2, Lead3, Lead4, Tail, Tail6, Tail12, SecondOk, IsTail;
    if v < 0x80 {
      EncodingOf1(v);
    } else if v < 0x800 {
      EncodingOf2(v);
    } else if v < 0x10000 {
      EncodingOf3(v);
    } else {
      EncodingOf4(v);
    }
  }
}

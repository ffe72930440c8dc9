/** The streaming UTF-8 decoder of the terminal emulator: append and processByte in TerminalEmulator.java. */
module Utf8Stream {
  import opened Utf8

  const REPLACEMENT: bv32 := 0xFFFD

  /** A code point handed to processCodePoint or directly to emitCodePoint. */
  datatype Event = Process(codePoint: bv32) | Emit(codePoint: bv32)

  /** The bytes of a sequence that has begun, and how many are still to follow. */
  datatype Decoder = Decoder(pending: seq<byte>, toFollow: nat)

  const START := Decoder([], 0)

  predicate Ok(d: Decoder) {
    if d.toFollow == 0 then d.pending == []
    else
      && 1 <= |d.pending| && |d.pending| + d.toFollow <= 4
      && |d.pending| + d.toFollow == Size(d.pending[0])
      && forall i :: 1 <= i < |d.pending| ==> IsContinuation(d.pending[i])
  }

  predicate IsContinuation(b: byte) {
    b & 0xC0 == 0x80
  }

  /** The length of the sequence that a byte announces; 0 for a byte that starts none. */
  function Size(b: byte): nat {
    if b & 0x80 == 0 then 1
    else if b & 0xE0 == 0xC0 then 2
    else if b & 0xF0 == 0xE0 then 3
    else if b & 0xF8 == 0xF0 then 4
    else 0
  }

  function Mask(size: nat): byte {
    if size == 2 then 0x1F else if size == 3 then 0x0F else 0x07
  }

  /** The bits of the first n bytes put together. */
  function Gather(s: seq<byte>, n: nat): bv32
    requires 1 <= n <= |s|
    decreases n
  {
    if n == 1 then FirstBits(s[0], |s|) else MoreBits(Gather(s, n - 1), s[n - 1])
  }

  function FirstBits(b: byte, size: nat): bv32 {
    (b & Mask(size)) as bv32
  }

  function MoreBits(c: bv32, b: byte): bv32 {
    (c << 6) | Bits(b)
  }

  /** The test for a sequence that is longer than need be. */
  predicate Overlong(c: bv32, size: nat) {
    (c <= 0x7F && size > 1) || (c < 0x7FF && size > 2) || (c < 0xFFFF && size > 3)
  }

  predicate IsC1(c: bv32) {
    0x80 <= c <= 0x9F
  }

  /**
    What a complete sequence delivers.  C1 controls are dropped; replaced tells the code points whose type is
    unassigned or surrogate.
   */
  function Deliver(s: seq<byte>, replaced: bv32 -> bool): (events: seq<Event>)
    requires s != []
    ensures |events| <= 1
  {
    var c := if Overlong(Gather(s, |s|), |s|) then REPLACEMENT else Gather(s, |s|);
    if IsC1(c) then [] else [Process(if replaced(c) then REPLACEMENT else c)]
  }

  /** A byte when no sequence has begun. */
  function Begin(b: byte): (r: (Decoder, seq<Event>))
    ensures Ok(r.0)
  {
    if Size(b) == 1 then (START, [Process(b as bv32)])
    else if Size(b) == 0 then (START, [Process(REPLACEMENT)])
    else (Decoder([b], Size(b) - 1), [])
  }

  /** One byte: the new state and what is delivered. */
  function Feed(d: Decoder, b: byte, replaced: bv32 -> bool): (r: (Decoder, seq<Event>))
    requires Ok(d)
    ensures Ok(r.0)
  {
    if d.toFollow == 0 then Begin(b)
    else if IsContinuation(b) then
      var s := d.pending + [b];
      if d.toFollow == 1 then (START, Deliver(s, replaced)) else (Decoder(s, d.toFollow - 1), [])
    else
      var r := Begin(b);
      (r.0, [Emit(REPLACEMENT)] + r.1)
  }

  function FeedAll(d: Decoder, bytes: seq<byte>, replaced: bv32 -> bool): (r: (Decoder, seq<Event>))
    requires Ok(d)
    ensures Ok(r.0)
    decreases |bytes|
  {
    if bytes == [] then (d, [])
    else
      var r := Feed(d, bytes[0], replaced);
      var r' := FeedAll(r.0, bytes[1..], replaced);
      (r'.0, r.1 + r'.1)
  }

  // ----- The object -----

  class Utf8Decoder {
    const buffer: array<byte>
    var index: nat
    var toFollow: nat
    /** All that has been delivered. */
    var delivered: seq<Event>

    ghost predicate Valid()
      reads this, buffer
    {
      buffer.Length == 4 && index <= 4 && Ok(State())
    }

    ghost function State(): Decoder
      reads this, buffer
      requires index <= buffer.Length
    {
      Decoder(buffer[..index], toFollow)
    }

    constructor ()
      ensures Valid() && fresh(buffer) && State() == START && delivered == []
    {
      buffer := new byte[4];
      index, toFollow, delivered := 0, 0, [];
    }

    /** A byte that starts a sequence, stands for itself or is an error. */
    method BeginSequence(b: byte)
      requires Valid() && toFollow == 0
      modifies this, buffer
      ensures Valid() && State() == Begin(b).0 && delivered == old(delivered) + Begin(b).1
    {
      if b & 0x80 == 0 {
        delivered := delivered + [Process(b as bv32)];
        return;
      } else if b & 0xE0 == 0xC0 {
        toFollow := 1;
      } else if b & 0xF0 == 0xE0 {
        toFollow := 2;
      } else if b & 0xF8 == 0xF0 {
        toFollow := 3;
      } else {
        delivered := delivered + [Process(REPLACEMENT)];
        return;
      }
      buffer[index] := b;
      index := index + 1;
    }

    method GatherBits() returns (c: bv32)
      requires buffer.Length == 4 && 2 <= index <= 4
      ensures c == Gather(buffer[..index], index)
    {
      hide FirstBits, MoreBits;
      c := FirstBits(buffer[0], index);
      var i := 1;
      while i < index
        invariant 1 <= i <= index && c == Gather(buffer[..index], i)
      {
        c := MoreBits(c, buffer[i]);
        i := i + 1;
      }
    }

    /** A byte of a sequence that has begun. */
    method Continue(b: byte, replaced: bv32 -> bool)
      requires Valid() && toFollow > 0 && IsContinuation(b)
      modifies this, buffer
      ensures Valid()
      ensures var r := Feed(old(State()), b, replaced); State() == r.0 && delivered == old(delivered) + r.1
    {
      hide Size, IsContinuation, Mask, Gather, Overlong, IsC1;
      buffer[index] := b;
      index := index + 1;
      assert buffer[..index] == old(buffer[..index]) + [b];
      toFollow := toFollow - 1;
      if toFollow == 0 {
        var c := GatherBits();
        if Overlong(c, index) {
          c := REPLACEMENT;
        }
        index := 0;
        if !IsC1(c) {
          if replaced(c) {
            c := REPLACEMENT;
          }
          delivered := delivered + [Process(c)];
        }
      }
    }

    /** processByte; it calls itself at most once, because no sequence has begun then. */
    method ProcessByte(b: byte, replaced: bv32 -> bool)
      requires Valid()
      modifies this, buffer
      ensures Valid()
      ensures var r := Feed(old(State()), b, replaced); State() == r.0 && delivered == old(delivered) + r.1
      decreases if toFollow > 0 then 1 else 0
    {
      hide Size, IsContinuation, Deliver, Begin;
      if toFollow > 0 {
        if b & 0xC0 == 0x80 {
          ContinuationTest(b);
          Continue(b, replaced);
        } else {
          ContinuationTest(b);
          index, toFollow := 0, 0;
          delivered := delivered + [Emit(REPLACEMENT)];
          ProcessByte(b, replaced);
        }
      } else {
        BeginSequence(b);
      }
    }

    method Append(bytes: seq<byte>, replaced: bv32 -> bool)
      requires Valid()
      modifies this, buffer
      ensures Valid()
      ensures var r := FeedAll(old(State()), bytes, replaced); State() == r.0 && delivered == old(delivered) + r.1
    {
      hide Ok, Feed;
      ghost var d0, sent := State(), delivered;
      var i := 0;
      assert bytes[..0] == [];
      while i < |bytes|
        invariant i <= |bytes| && Valid() && Ok(d0)
        invariant var r := FeedAll(d0, bytes[..i], replaced); State() == r.0 && delivered == sent + r.1
      {
        FeedLast(d0, bytes[..i], bytes[i], replaced);
        assert bytes[..i] + [bytes[i]] == bytes[..i + 1];
        ProcessByte(bytes[i], replaced);
        i := i + 1;
      }
      assert bytes[..i] == bytes;
    }
  }

  lemma ContinuationTest(b: byte)
    ensures IsContinuation(b) <==> b & 0xC0 == 0x80
  {
  }

  // ----- Chunks -----

  /** Bytes that come in two chunks are decoded like the bytes of both. */
  lemma {:induction false} FeedConcat(d: Decoder, a: seq<byte>, b: seq<byte>, replaced: bv32 -> bool)
    requires Ok(d)
    ensures var r := FeedAll(d, a, replaced); var r' := FeedAll(r.0, b, replaced);
            FeedAll(d, a + b, replaced) == (r'.0, r.1 + r'.1)
    decreases |a|
  {
    hide Ok, Feed;
    if a == [] {
      assert a + b == b;
      assert [] + FeedAll(d, b, replaced).1 == FeedAll(d, b, replaced).1;
    } else {
      assert (a + b)[1..] == a[1..] + b;
      var r := Feed(d, a[0], replaced);
      var r1 := FeedAll(r.0, a[1..], replaced);
      FeedConcat(r.0, a[1..], b, replaced);
      assert r.1 + (r1.1 + FeedAll(r1.0, b, replaced).1) == r.1 + r1.1 + FeedAll(r1.0, b, replaced).1;
    }
  }

  lemma FeedLast(d: Decoder, a: seq<byte>, b: byte, replaced: bv32 -> bool)
    requires Ok(d)
    ensures var r := FeedAll(d, a, replaced); var r' := Feed(r.0, b, replaced);
            FeedAll(d, a + [b], replaced) == (r'.0, r.1 + r'.1)
  {
    hide Ok, Feed;
    FeedConcat(d, a, [b], replaced);
    var r := Feed(FeedAll(d, a, replaced).0, b, replaced);
    FeedOne(FeedAll(d, a, replaced).0, b, replaced);
  }

  lemma FeedOne(d: Decoder, b: byte, replaced: bv32 -> bool)
    requires Ok(d)
    ensures FeedAll(d, [b], replaced) == Feed(d, b, replaced)
  {
    hide Ok, Feed;
    var r := Feed(d, b, replaced);
    assert [b][1..] == [] && r.1 + [] == r.1;
  }

  /** However the bytes are cut into chunks. */
  function Concat(chunks: seq<seq<byte>>): seq<byte> {
    if chunks == [] then [] else chunks[0] + Concat(chunks[1..])
  }

  function FeedChunks(d: Decoder, chunks: seq<seq<byte>>, replaced: bv32 -> bool): (r: (Decoder, seq<Event>))
    requires Ok(d)
    decreases |chunks|
  {
    if chunks == [] then (d, [])
    else
      var r := FeedAll(d, chunks[0], replaced);
      var r' := FeedChunks(r.0, chunks[1..], replaced);
      (r'.0, r.1 + r'.1)
  }

  lemma {:induction false} ChunksDoNotMatter(d: Decoder, chunks: seq<seq<byte>>, replaced: bv32 -> bool)
    requires Ok(d)
    ensures FeedChunks(d, chunks, replaced) == FeedAll(d, Concat(chunks), replaced)
    decreases |chunks|
  {
    hide Ok, FeedAll;
    if chunks == [] {
      FeedNothing(d, replaced);
    } else {
      ChunksDoNotMatter(FeedAll(d, chunks[0], replaced).0, chunks[1..], replaced);
      FeedConcat(d, chunks[0], Concat(chunks[1..]), replaced);
    }
  }

  lemma FeedNothing(d: Decoder, replaced: bv32 -> bool)
    requires Ok(d)
    ensures FeedAll(d, [], replaced) == (d, [])
  {
  }

  // ----- Sequences -----

  lemma ContinuationIsTail(b: byte)
    ensures IsContinuation(b) <==> IsTail(b)
  {
  }

  lemma SecondIsContinuation(lead: byte, b: byte)
    requires SecondOk(lead, b)
    ensures IsContinuation(b)
  {
  }

  lemma SizeIsLength(b: byte)
    requires Length(b) != 0
    ensures Size(b) == Length(b) && !IsContinuation(b)
  {
  }

  lemma Gather2(b0: byte, b1: byte)
    ensures MoreBits(FirstBits(b0, 2), b1) == Join2(b0, b1)
  {
  }

  lemma Gather3(b0: byte, b1: byte, b2: byte)
    ensures MoreBits(MoreBits(FirstBits(b0, 3), b1), b2) == Join3(b0, b1, b2)
  {
  }

  lemma Gather4(b0: byte, b1: byte, b2: byte, b3: byte)
    ensures MoreBits(MoreBits(MoreBits(FirstBits(b0, 4), b1), b2), b3) == Join4(b0, b1, b2, b3)
  {
  }

  /** Putting the bits together gives the value of the sequence. */
  lemma GatherIsValue(s: seq<byte>)
    requires IsSequence(s) && 2 <= |s|
    ensures Gather(s, |s|) == Value(s)
  {
    hide FirstBits, MoreBits, Join2, Join3, Join4, SecondOk, IsTail;
    assert Gather(s, 2) == MoreBits(FirstBits(s[0], |s|), s[1]);
    if |s| == 2 {
      Gather2(s[0], s[1]);
    } else if |s| == 3 {
      Gather3(s[0], s[1], s[2]);
    } else {
      Gather4(s[0], s[1], s[2], s[3]);
      assert Gather(s, 3) == MoreBits(Gather(s, 2), s[2]);
    }
  }

  lemma Continues(s: seq<byte>)
    requires IsSequence(s)
    ensures 1 <= |s| <= 4 && Size(s[0]) == |s| && !IsContinuation(s[0])
    ensures forall i :: 1 <= i < |s| ==> IsContinuation(s[i])
  {
    hide Size, IsContinuation, SecondOk, IsTail, Length;
    SizeIsLength(s[0]);
    if 2 <= |s| { SecondIsContinuation(s[0], s[1]); }
    if 3 <= |s| { ContinuationIsTail(s[2]); }
    if 4 <= |s| { ContinuationIsTail(s[3]); }
    AtMostFour(s[0]);
  }

  lemma AtMostFour(b: byte)
    ensures Length(b) <= 4
  {
  }

  lemma FeedNext(s: seq<byte>, n: nat, replaced: bv32 -> bool)
    requires IsSequence(s) && 1 <= n < |s| && Ok(Decoder(s[..n], |s| - n))
    ensures Feed(Decoder(s[..n], |s| - n), s[n], replaced)
            == if n + 1 == |s| then (START, Deliver(s, replaced)) else (Decoder(s[..n + 1], |s| - n - 1), [])
  {
    hide Size, IsContinuation, IsSequence, Deliver;
    Continues(s);
    assert s[..n] + [s[n]] == s[..n + 1];
    assert s[..|s|] == s;
  }

  /** While a sequence is incomplete nothing is delivered. */
  lemma {:induction false} FeedPart(s: seq<byte>, n: nat, replaced: bv32 -> bool)
    requires IsSequence(s) && 1 <= n < |s|
    ensures Ok(START) && FeedAll(START, s[..n], replaced) == (Decoder(s[..n], |s| - n), [])
    decreases n
  {
    hide Size, IsContinuation, IsSequence, Deliver, FeedAll;
    Continues(s);
    if n == 1 {
      assert s[..1] == [s[0]];
      FeedOne(START, s[0], replaced);
    } else {
      FeedPart(s, n - 1, replaced);
      assert s[..n] == s[..n - 1] + [s[n - 1]];
      FeedLast(START, s[..n - 1], s[n - 1], replaced);
      FeedNext(s, n - 1, replaced);
      var none: seq<Event> := [];
      assert none + none == none;
    }
  }

  lemma FeedSequence(s: seq<byte>, replaced: bv32 -> bool)
    requires IsSequence(s)
    ensures FeedAll(START, s, replaced) == (START, if |s| == 1 then [Process(s[0] as bv32)] else Deliver(s, replaced))
  {
    hide Size, IsContinuation, IsSequence, Deliver, FeedAll;
    Continues(s);
    var n := |s| - 1;
    assert s == s[..n] + [s[n]];
    if n == 0 {
      FeedOne(START, s[0], replaced);
    } else {
      FeedPart(s, n, replaced);
      FeedLast(START, s[..n], s[n], replaced);
      FeedNext(s, n, replaced);
      assert [] + Deliver(s, replaced) == Deliver(s, replaced);
    }
  }

  // ----- Overlong sequences -----

  /** The test finds the overlong sequences, except those for the last value of the shorter length. */
  lemma OverlongExactly(c: bv32, size: nat)
    requires c < 0x200000 && 2 <= size <= 4
    ensures Overlong(c, size) <==> |Encode(c)| < size && !(size == 3 && c == 0x7FF) && !(size == 4 && c == 0xFFFF)
  {
    hide Lead2, Lead3, Lead4, Tail, Tail6, Tail12;
  }

  /** Three bytes for a character that needs two. */
  lemma OverlongExample(replaced: bv32 -> bool)
    requires !replaced(0x7FF)
    ensures Deliver([0xE0, 0x9F, 0xBF], replaced) == [Process(0x7FF)] && |Encode(0x7FF)| == 2
  {
    var s: seq<byte> := [0xE0, 0x9F, 0xBF];
    assert Gather(s, 1) == 0 && Gather(s, 2) == 0x1F && Gather(s, 3) == 0x7FF;
  }

  // ----- Round trip -----

  predicate Scalars(vs: seq<bv32>) {
    forall i :: 0 <= i < |vs| ==> Scalar(vs[i])
  }

  /** The list without C1 controls, and with the replacement character for other characters that are replaced. */
  function Delivered(vs: seq<bv32>, replaced: bv32 -> bool): seq<Event> {
    if vs == [] then []
    else (if IsC1(vs[0]) then [] else [Process(if 0x80 <= vs[0] && replaced(vs[0]) then REPLACEMENT else vs[0])])
         + Delivered(vs[1..], replaced)
  }

  lemma FeedScalar(v: bv32, replaced: bv32 -> bool)
    requires Scalar(v)
    ensures FeedAll(START, Encode(v), replaced) == (START, Delivered([v], replaced))
  {
    hide Encode, IsSequence, FeedAll, Gather, Value, IsC1, Overlong, Delivered;
    var s := Encode(v);
    EncodingIsSequence(v);
    FeedSequence(s, replaced);
    NotOverlong(v);
    DeliveredOne(v, replaced);
    if |s| == 1 {
      OneByte(v);
    } else {
      GatherIsValue(s);
    }
  }

  lemma DeliveredOne(v: bv32, replaced: bv32 -> bool)
    ensures Delivered([v], replaced)
            == if IsC1(v) then [] else [Process(if 0x80 <= v && replaced(v) then REPLACEMENT else v)]
  {
    assert [v][1..] == [];
  }

  lemma NotOverlong(v: bv32)
    requires v < 0x110000
    ensures |Encode(v)| == 1 <==> v < 0x80
    ensures !Overlong(v, |Encode(v)|)
  {
    hide Lead2, Lead3, Lead4, Tail, Tail6, Tail12;
  }

  lemma OneByte(v: bv32)
    requires v < 0x80
    ensures Encode(v)[0] as bv32 == v && !IsC1(v)
  {
    EncodingOf1(v);
  }

  /** Encoding a list of scalar values and decoding it. */
  lemma {:induction false} RoundTrip(vs: seq<bv32>, replaced: bv32 -> bool)
    requires Scalars(vs)
    ensures FeedAll(START, EncodeAll(vs), replaced) == (START, Delivered(vs, replaced))
    decreases |vs|
  {
    hide Encode, FeedAll, IsC1;
    if vs == [] {
      FeedNothing(START, replaced);
    } else {
      FeedScalar(vs[0], replaced);
      RoundTrip(vs[1..], replaced);
      FeedConcat(START, Encode(vs[0]), EncodeAll(vs[1..]), replaced);
      assert [vs[0]][1..] == [];
      assert Delivered(vs, replaced) == Delivered([vs[0]], replaced) + Delivered(vs[1..], replaced);
    }
  }

  lemma RoundTripInChunks(vs: seq<bv32>, chunks: seq<seq<byte>>, replaced: bv32 -> bool)
    requires Scalars(vs) && Concat(chunks) == EncodeAll(vs)
    ensures FeedChunks(START, chunks, replaced) == (START, Delivered(vs, replaced))
  {
    RoundTrip(vs, replaced);
    ChunksDoNotMatter(START, chunks, replaced);
  }

  // ----- Arbitrary bytes -----

  /**
    Text that follows anything at all is decoded in full: of an incomplete sequence before it only a replacement
    character remains.
   */
  lemma TextAfterAnything(garbage: seq<byte>, vs: seq<bv32>, replaced: bv32 -> bool)
    requires Scalars(vs) && vs != []
    ensures var r := FeedAll(START, garbage, replaced);
            FeedAll(START, garbage + EncodeAll(vs), replaced)
            == (START, r.1 + (if r.0.toFollow > 0 then [Emit(REPLACEMENT)] else []) + Delivered(vs, replaced))
  {
    hide Encode, FeedAll, EncodeAll, Delivered;
    var r := FeedAll(START, garbage, replaced);
    FeedConcat(START, garbage, EncodeAll(vs), replaced);
    RoundTrip(vs, replaced);
    FirstByte(vs);
    Interrupted(r.0, EncodeAll(vs), replaced);
    var flushed := if r.0.toFollow > 0 then [Emit(REPLACEMENT)] else [];
    assert r.1 + (flushed + Delivered(vs, replaced)) == r.1 + flushed + Delivered(vs, replaced);
  }

  lemma FirstByte(vs: seq<bv32>)
    requires Scalars(vs) && vs != []
    ensures EncodeAll(vs) != [] && !IsContinuation(EncodeAll(vs)[0])
  {
    hide Encode, IsSequence, IsContinuation;
    EncodingIsSequence(vs[0]);
    Continues(Encode(vs[0]));
  }

  lemma Interrupted(d: Decoder, bytes: seq<byte>, replaced: bv32 -> bool)
    requires Ok(d) && bytes != [] && !IsContinuation(bytes[0])
    ensures var r := FeedAll(START, bytes, replaced);
            FeedAll(d, bytes, replaced) == (r.0, (if d.toFollow > 0 then [Emit(REPLACEMENT)] else []) + r.1)
  {
    hide IsContinuation, Begin;
    var r := Begin(bytes[0]);
    var rest := FeedAll(r.0, bytes[1..], replaced);
    if d.toFollow > 0 {
      assert [Emit(REPLACEMENT)] + r.1 + rest.1 == [Emit(REPLACEMENT)] + (r.1 + rest.1);
    } else {
      assert d == START;
      assert [] + FeedAll(START, bytes, replaced).1 == FeedAll(START, bytes, replaced).1;
    }
  }

  function Held(d: Decoder): nat {
    if d.toFollow > 0 then 1 else 0
  }

  lemma {:induction false} FeedBounded(d: Decoder, bytes: seq<byte>, replaced: bv32 -> bool)
    requires Ok(d)
    ensures var r := FeedAll(d, bytes, replaced); |r.1| + Held(r.0) <= |bytes| + Held(d)
    decreases |bytes|
  {
    hide Ok, IsContinuation, Size, Deliver;
    if bytes != [] {
      FeedBounded(Feed(d, bytes[0], replaced).0, bytes[1..], replaced);
    }
  }

  /** No more code points are delivered than bytes are fed. */
  lemma AtMostOnePerByte(bytes: seq<byte>, replaced: bv32 -> bool)
    ensures |FeedAll(START, bytes, replaced).1| <= |bytes|
  {
    FeedBounded(START, bytes, replaced);
  }
}

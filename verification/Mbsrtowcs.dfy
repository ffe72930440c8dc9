/** mbsrtowcs of musl-multibyte/mbsrtowcs.c, called with no pending state. */
module Mbsrtowcs {
  import opened Wrappers
  import opened Utf8
  import opened MultibyteTable
  import opened MultibyteText

  /** The index of the terminator of the string that starts at s, or the end of the memory. */
  ghost function End(mem: seq<byte>, s: nat): (z: nat)
    requires s <= |mem|
    ensures s <= z <= |mem| && (z < |mem| ==> mem[z] == 0) && forall i :: s <= i < z ==> mem[i] != 0
    decreases |mem| - s
  {
    if s == |mem| || mem[s] == 0 then s else End(mem, s + 1)
  }

  /**
    The memory holds a terminated string at s.  It ends where a word ends: a word that contains a byte of the string
    can be read as a whole.
   */
  ghost predicate IsString(mem: seq<byte>, base: nat, s: nat) {
    s <= |mem| && End(mem, s) < |mem| && (base + |mem|) % 4 == 0
  }

  lemma AlignedWordFits(base: nat, s: nat, size: nat)
    requires s < size && (base + s) % 4 == 0 && (base + size) % 4 == 0
    ensures s + 4 <= size
  {
  }

  /** The encoding of a character at the start of a text obeys the grammar. */
  lemma CharacterAt(text: seq<byte>, v: bv32)
    requires Encodable(v) && Encode(v) <= text
    ensures var n := |Encode(v)|;
            && 1 <= n <= |text| && Length(text[0]) == n
            && (2 <= n ==> SecondOk(text[0], text[1])) && (3 <= n ==> IsTail(text[2])) && (4 <= n ==> IsTail(text[3]))
  {
    hide Encode, Value, SecondOk, IsTail, Length;
    EncodingIsSequence(v);
    assert forall i :: 0 <= i < |Encode(v)| ==> Encode(v)[i] == text[i];
  }

  /** Where the bytes from s on do not follow the grammar, no character starts. */
  lemma BadAt(mem: seq<byte>, s: nat, z: nat)
    requires s <= z < |mem| && mem[z] == 0
    requires s == z || (mem[s] >= 0x80 &&
                        var n := Length(mem[s]);
                        || n == 0
                        || !SecondOk(mem[s], mem[s + 1])
                        || (3 <= n && s + 2 <= z && !IsTail(mem[s + 2]))
                        || (4 <= n && s + 3 <= z && !IsTail(mem[s + 3])))
    ensures StartsBad(mem[s..z])
  {
    hide Encode, SecondOk, IsTail, Length;
    var text := mem[s..z];
    forall v | IsCharacter(v) ensures !(Encode(v) <= text) {
      if Encode(v) <= text {
        CharacterAt(text, v);
        LeadOfOne(text[0]);
      }
    }
  }

  lemma LeadOfOne(b: byte)
    ensures Length(b) == 1 <==> b < 0x80
  {
  }

  /** Reads a character that is not ASCII.  On failure the pointer is back at its first byte. */
  method NextWide(mem: seq<byte>, s: nat, ghost z: nat) returns (ok: bool, c: bv32, s': nat)
    requires s <= z < |mem| && mem[z] == 0 && (forall i :: s <= i < z ==> mem[i] != 0) && !IsAscii(mem[s])
    ensures ok ==> IsCharacter(c) && s < s' <= z && Encode(c) == mem[s..s']
    ensures !ok ==> s' == s && StartsBad(mem[s..z]) && (s == z <==> c == 0 && mem[s] == 0)
  {
    hide Encode, SecondOk, IsTail, OutOfBounds, State, StartsBad, Join2, Join3, Join4, Shifted, More, IsAscii;
    AsciiBytes(mem[s]);
    LeadTest(mem[s]);
    if (mem[s] as bv32) - SA > SB - SA {
      BadAt(mem, s, z);
      return false, 0, s;
    }
    c := State(mem[s]);
    StateNotZero(mem[s]);
    s' := s + 1;
    BoundsAreGrammar(mem[s], mem[s']);
    if OutOfBounds(c, mem[s']) {
      BadAt(mem, s, z);
      s' := s' - 1;
      return false, c, s';
    }
    c := Shifted(c, mem[s']);
    StateAfter2(mem[s], mem[s']);
    SecondNotZero(mem[s], mem[s']);
    s' := s' + 1;
    if More(c) {
      TailTest(mem[s']);
      MoreNotZero(c);
      if (mem[s'] as bv32) - 0x80 >= 0x40 {
        BadAt(mem, s, z);
        s' := s' - 2;
        return false, c, s';
      }
      c := Shifted(c, mem[s']);
      StateAfter3(mem[s], mem[s + 1], mem[s']);
      SecondNotZero(0xDF, mem[s']);
      s' := s' + 1;
      if More(c) {
        TailTest(mem[s']);
        MoreNotZero(c);
        if (mem[s'] as bv32) - 0x80 >= 0x40 {
          BadAt(mem, s, z);
          s' := s' - 3;
          return false, c, s';
        }
        c := Shifted(c, mem[s']);
        StateAfter4(mem[s], mem[s + 1], mem[s + 2], mem[s']);
        SecondNotZero(0xDF, mem[s']);
        s' := s' + 1;
      }
    }
    ok := true;
    ghost var read := mem[s..s'];
    assert read[0] == mem[s] && read[1] == mem[s + 1];
    assert |read| == Length(read[0]);
    assert IsSequence(read);
    Whole(read, c);
  }

  lemma MoreNotZero(c: bv32)
    requires More(c)
    ensures c != 0
  {
  }

  lemma SecondNotZero(lead: byte, b: byte)
    requires 0xC2 <= lead <= 0xF4
    ensures SecondOk(lead, b) ==> b != 0
    ensures lead == 0xDF ==> (SecondOk(lead, b) <==> IsTail(b))
  {
  }

  /** A sequence of the grammar whose value has been put together. */
  lemma Whole(s: seq<byte>, c: bv32)
    requires IsSequence(s) && 2 <= |s| && c == Value(s)
    ensures IsCharacter(c) && Encode(c) == s
  {
    hide Encode, Value, IsSequence;
    SequenceIsEncoding(s);
    ZeroIsOneByte();
  }

  lemma ZeroIsOneByte()
    ensures |Encode(0)| == 1
  {
  }

  /** The same for the loop that only counts: the state tells how many bytes follow, and no value is put together. */
  method SkipWide(mem: seq<byte>, s: nat, ghost z: nat) returns (ok: bool, c: bv32, s': nat, ghost v: bv32)
    requires s <= z < |mem| && mem[z] == 0 && (forall i :: s <= i < z ==> mem[i] != 0) && !IsAscii(mem[s])
    ensures ok ==> IsCharacter(v) && s < s' <= z && Encode(v) == mem[s..s']
    ensures !ok ==> s' == s && StartsBad(mem[s..z]) && (s == z <==> c == 0 && mem[s] == 0)
  {
    hide Encode, SecondOk, IsTail, OutOfBounds, State, StartsBad, Join2, Join3, Join4, Shifted, More, IsAscii;
    v := 0;
    AsciiBytes(mem[s]);
    LeadTest(mem[s]);
    if (mem[s] as bv32) - SA > SB - SA {
      BadAt(mem, s, z);
      return false, 0, s, v;
    }
    c := State(mem[s]);
    StateNotZero(mem[s]);
    s' := s + 1;
    BoundsAreGrammar(mem[s], mem[s']);
    if OutOfBounds(c, mem[s']) {
      BadAt(mem, s, z);
      s' := s' - 1;
      return false, c, s', v;
    }
    StateAfter2(mem[s], mem[s']);
    SecondNotZero(mem[s], mem[s']);
    s' := s' + 1;
    if c & 0x02000000 != 0 {
      TailTest(mem[s']);
      if (mem[s'] as bv32) - 0x80 >= 0x40 {
        BadAt(mem, s, z);
        s' := s' - 2;
        return false, c, s', v;
      }
      StateAfter3(mem[s], mem[s + 1], mem[s']);
      SecondNotZero(0xDF, mem[s']);
      s' := s' + 1;
      if c & 0x00080000 != 0 {
        TailTest(mem[s']);
        if (mem[s'] as bv32) - 0x80 >= 0x40 {
          BadAt(mem, s, z);
          s' := s' - 3;
          return false, c, s', v;
        }
        SecondNotZero(0xDF, mem[s']);
        s' := s' + 1;
      }
    }
    ok := true;
    ghost var read := mem[s..s'];
    assert read[0] == mem[s] && read[1] == mem[s + 1];
    assert |read| == Length(read[0]);
    v := Value(read);
    Whole(read, v);
  }

  // ----- The storing loop -----

  /** The bytes from src to s are the encoding of the first k wide characters. */
  ghost predicate Stored(out: seq<bv32>, k: nat, mem: seq<byte>, src: nat, s: nat) {
    k <= |out| && AreCharacters(out[..k]) && src <= s <= |mem| && EncodeAll(out[..k]) == mem[src..s]
  }

  lemma StoredOne(out: seq<bv32>, k: nat, c: bv32, mem: seq<byte>, src: nat, s: nat, s': nat)
    requires Stored(out, k, mem, src, s) && k < |out| && s <= s' <= |mem| && IsCharacter(c) && Encode(c) == mem[s..s']
    ensures Stored(out[k := c], k + 1, mem, src, s')
  {
    hide Encode;
    assert out[k := c][..k + 1] == out[..k] + [c];
    EncodeAllConcat(out[..k], [c]);
    assert [c][1..] == [] && EncodeAll([c]) == Encode(c) + [];
    assert Encode(c) + [] == Encode(c);
    assert mem[src..s] + mem[s..s'] == mem[src..s'];
  }

  lemma AsciiIsCharacter(b: byte)
    requires IsAscii(b)
    ensures IsCharacter(b as bv32) && Encode(b as bv32) == [b] && b != 0
  {
    AsciiBytes(b);
    SequenceOf1(b);
  }

  method StoreAscii(ws: array<bv32>, k: nat, mem: seq<byte>, ghost src: nat, s: nat)
    requires k < ws.Length && s < |mem| && Stored(ws[..], k, mem, src, s) && IsAscii(mem[s])
    modifies ws
    ensures ws[..] == old(ws[..])[k := mem[s] as bv32] && Stored(ws[..], k + 1, mem, src, s + 1)
  {
    hide Stored, IsAscii, Encode, IsCharacter;
    AsciiIsCharacter(mem[s]);
    assert mem[s..s + 1] == [mem[s]];
    StoredOne(ws[..], k, mem[s] as bv32, mem, src, s, s + 1);
    ws[k] := mem[s] as bv32;
  }

  function WordAt(mem: seq<byte>, s: nat): bv32
    requires s + 4 <= |mem|
  {
    Word(mem[s], mem[s + 1], mem[s + 2], mem[s + 3])
  }

  lemma WordAtTest(mem: seq<byte>, s: nat)
    requires s + 4 <= |mem|
    ensures AllAscii(WordAt(mem, s)) <==>
              IsAscii(mem[s]) && IsAscii(mem[s + 1]) && IsAscii(mem[s + 2]) && IsAscii(mem[s + 3])
  {
    hide Word, AllAscii, IsAscii;
    WordTest(mem[s], mem[s + 1], mem[s + 2], mem[s + 3]);
    AsciiBytes(mem[s]);
    AsciiBytes(mem[s + 1]);
    AsciiBytes(mem[s + 2]);
    AsciiBytes(mem[s + 3]);
  }

  /** Only characters below 80 are bytes of their own, so none is the terminator. */
  lemma AsciiBeforeEnd(mem: seq<byte>, s: nat, z: nat)
    requires s <= z < |mem| && mem[z] == 0 && IsAscii(mem[s])
    ensures s < z
  {
  }

  /** The inner loop of the storing loop: whole words of ASCII characters while there is room for more than four. */
  method StoreWords(ws: array<bv32>, k0: nat, wn: nat, mem: seq<byte>, base: nat, ghost src: nat, s0: nat, ghost z: nat)
    returns (k: nat, s: nat)
    requires k0 <= wn <= ws.Length && Stored(ws[..], k0, mem, src, s0) && s0 <= z < |mem| && mem[z] == 0
    requires (base + s0) % 4 == 0 && (base + |mem|) % 4 == 0
    modifies ws
    ensures k0 <= k && (k0 < wn ==> k < wn) && k <= wn && s0 <= s <= z && Stored(ws[..], k, mem, src, s)
    ensures forall i :: wn <= i < ws.Length ==> ws[i] == old(ws[i])
  {
    hide Stored, IsAscii, AllAscii, WordAt;
    k, s := k0, s0;
    AlignedWordFits(base, s, |mem|);
    while wn - k >= 5 && AllAscii(WordAt(mem, s))
      invariant k0 <= k && (k0 < wn ==> k < wn) && k <= wn && s0 <= s <= z && (base + s) % 4 == 0 && s + 4 <= |mem|
      invariant Stored(ws[..], k, mem, src, s)
      invariant forall i :: wn <= i < ws.Length ==> ws[i] == old(ws[i])
    {
      WordAtTest(mem, s);
      AsciiBeforeEnd(mem, s, z);
      StoreAscii(ws, k, mem, src, s);
      k, s := k + 1, s + 1;
      AsciiBeforeEnd(mem, s, z);
      StoreAscii(ws, k, mem, src, s);
      k, s := k + 1, s + 1;
      AsciiBeforeEnd(mem, s, z);
      StoreAscii(ws, k, mem, src, s);
      k, s := k + 1, s + 1;
      AsciiBeforeEnd(mem, s, z);
      StoreAscii(ws, k, mem, src, s);
      k, s := k + 1, s + 1;
      AlignedWordFits(base, s, |mem|);
    }
  }

  /** What a storing call returns and where it leaves the source pointer. */
  datatype Return = Converted(count: nat) | Room(count: nat, src: nat) | IllegalSequence(src: nat)

  /** The result of a storing call in terms of the text. */
  ghost predicate Returns(r: Return, call: Call, out: seq<bv32>, wn: nat, mem: seq<byte>, z: nat)
    requires wn <= |out|
  {
    match r
    case Converted(count) => count < wn && call == Complete(out[..count]) && out[count] == 0
    case Room(count, src) => count == wn && src <= z <= |mem| && call == Full(out[..wn], mem[src..z])
    case IllegalSequence(src) =>
      src < z <= |mem| && |call.chars| < wn && call == Illegal(out[..|call.chars|], mem[src..z])
  }

  /** All characters but the last of the string have been stored. */
  lemma StoredAll(out: seq<bv32>, k: nat, mem: seq<byte>, src: nat, s: nat, z: nat)
    requires Stored(out, k, mem, src, s) && s <= z < |mem| && StartsBad(mem[s..z])
    ensures Parse(mem[src..z]) == Parsed(out[..k], mem[s..z])
  {
    hide Parse, EncodeAll, StartsBad;
    ParseUnique(out[..k], mem[s..z]);
    assert mem[src..s] + mem[s..z] == mem[src..z];
  }

  lemma StoredSome(out: seq<bv32>, k: nat, mem: seq<byte>, src: nat, s: nat, z: nat)
    requires Stored(out, k, mem, src, s) && s <= z < |mem|
    ensures MultibyteText.Store(mem[src..z], k) == Full(out[..k], mem[s..z])
  {
    hide Parse, EncodeAll;
    ParseConcat(out[..k], mem[s..z]);
    assert mem[src..s] + mem[s..z] == mem[src..z];
    var p := Parse(mem[s..z]);
    assert (out[..k] + p.chars)[..k] == out[..k] && (out[..k] + p.chars)[k..] == p.chars;
  }

  /** The call for a destination with room for wn wide characters; nothing is written beyond it. */
  method Store(ws: array<bv32>, wn: nat, mem: seq<byte>, base: nat, src: nat) returns (r: Return)
    requires IsString(mem, base, src) && wn <= ws.Length
    modifies ws
    ensures Returns(r, MultibyteText.Store(mem[src..End(mem, src)], wn), ws[..], wn, mem, End(mem, src))
    ensures forall i :: wn <= i < ws.Length ==> ws[i] == old(ws[i])
  {
    hide Stored, IsAscii, StartsBad, Parse, EncodeAll, Encode, IsCharacter;
    ghost var z := End(mem, src);
    var s, k := src, 0;
    StoredNothing(ws[..], mem, src);
    while true
      invariant src <= s <= z && k <= wn && Stored(ws[..], k, mem, src, s)
      invariant forall i :: wn <= i < ws.Length ==> ws[i] == old(ws[i])
      decreases z - s
    {
      if k == wn {
        StoredSome(ws[..], k, mem, src, s, z);
        return Room(wn, s);
      }
      if IsAscii(mem[s]) && (base + s) % 4 == 0 {
        k, s := StoreWords(ws, k, wn, mem, base, src, s, z);
      }
      if IsAscii(mem[s]) {
        AsciiBeforeEnd(mem, s, z);
        StoreAscii(ws, k, mem, src, s);
        k, s := k + 1, s + 1;
        continue;
      }
      var ok, c, s' := NextWide(mem, s, z);
      if !ok {
        StoredAll(ws[..], k, mem, src, s, z);
        if c == 0 && mem[s'] == 0 {
          ws[k] := 0;
          return Converted(k);
        }
        return IllegalSequence(s');
      }
      StoredOne(ws[..], k, c, mem, src, s, s');
      ws[k] := c;
      k, s := k + 1, s';
    }
  }

  lemma StoredNothing(out: seq<bv32>, mem: seq<byte>, src: nat)
    requires src <= |mem|
    ensures Stored(out, 0, mem, src, src)
  {
  }

  // ----- The counting loop -----

  lemma CountedOne(vs: seq<bv32>, c: bv32, mem: seq<byte>, src: nat, s: nat, s': nat)
    requires Stored(vs, |vs|, mem, src, s) && s <= s' <= |mem| && IsCharacter(c) && Encode(c) == mem[s..s']
    ensures Stored(vs + [c], |vs| + 1, mem, src, s')
  {
    hide EncodeAll, Encode, IsCharacter;
    assert (vs + [c])[..|vs|] == vs[..|vs|];
    StoredOne(vs + [c], |vs|, c, mem, src, s, s');
    assert (vs + [c])[|vs| := c] == vs + [c];
  }

  lemma CountedAscii(vs: seq<bv32>, mem: seq<byte>, src: nat, s: nat)
    requires s < |mem| && Stored(vs, |vs|, mem, src, s) && IsAscii(mem[s])
    ensures Stored(vs + [mem[s] as bv32], |vs| + 1, mem, src, s + 1)
  {
    hide Stored, IsAscii, Encode, IsCharacter;
    AsciiIsCharacter(mem[s]);
    assert mem[s..s + 1] == [mem[s]];
    CountedOne(vs, mem[s] as bv32, mem, src, s, s + 1);
  }

  method CountWords(n0: nat, mem: seq<byte>, base: nat, ghost src: nat, s0: nat, ghost z: nat, ghost vs0: seq<bv32>)
    returns (n: nat, s: nat, ghost vs: seq<bv32>)
    requires n0 == |vs0| && Stored(vs0, n0, mem, src, s0) && s0 <= z < |mem| && mem[z] == 0
    requires (base + s0) % 4 == 0 && (base + |mem|) % 4 == 0
    ensures n == |vs| && s0 <= s <= z && Stored(vs, n, mem, src, s)
  {
    hide Stored, IsAscii, AllAscii, WordAt;
    n, s, vs := n0, s0, vs0;
    AlignedWordFits(base, s, |mem|);
    while AllAscii(WordAt(mem, s))
      invariant n == |vs| && s0 <= s <= z && (base + s) % 4 == 0 && s + 4 <= |mem| && Stored(vs, n, mem, src, s)
      decreases z - s
    {
      WordAtTest(mem, s);
      ghost var k := 0;
      ghost var more := vs;
      while k < 4
        invariant k <= 4 && |more| == |vs| + k && s + k <= z && Stored(more, |more|, mem, src, s + k)
      {
        CountedAscii(more, mem, src, s + k);
        AsciiBeforeEnd(mem, s + k, z);
        more := more + [mem[s + k] as bv32];
        k := k + 1;
      }
      vs := more;
      s := s + 4;
      n := n + 4;
      AlignedWordFits(base, s, |mem|);
    }
  }

  /** The call without a destination counts the characters, whatever room is given. */
  method Count(mem: seq<byte>, base: nat, src: nat) returns (r: Option<nat>)
    requires IsString(mem, base, src)
    ensures r == CountOf(mem[src..End(mem, src)])
  {
    hide Stored, IsAscii, StartsBad, Parse, EncodeAll, Encode, IsCharacter;
    ghost var z := End(mem, src);
    ghost var vs: seq<bv32> := [];
    var s, n := src, 0;
    StoredNothing(vs, mem, src);
    while true
      invariant src <= s <= z && n == |vs| && Stored(vs, n, mem, src, s)
      decreases z - s
    {
      if IsAscii(mem[s]) && (base + s) % 4 == 0 {
        n, s, vs := CountWords(n, mem, base, src, s, z, vs);
      }
      if IsAscii(mem[s]) {
        AsciiBeforeEnd(mem, s, z);
        CountedAscii(vs, mem, src, s);
        vs := vs + [mem[s] as bv32];
        n, s := n + 1, s + 1;
        continue;
      }
      ghost var v;
      var ok, c, s';
      ok, c, s', v := SkipWide(mem, s, z);
      if !ok {
        StoredAll(vs, n, mem, src, s, z);
        assert vs[..n] == vs;
        return if c == 0 && mem[s'] == 0 then Some(n) else None;
      }
      CountedOne(vs, v, mem, src, s, s');
      vs := vs + [v];
      n, s := n + 1, s';
    }
  }

  /** What the counting call returns for a text. */
  ghost function CountOf(text: seq<byte>): Option<nat> {
    var p := Parse(text);
    if p.rest == [] then Some(|p.chars|) else None
  }

  /**
    Counting agrees with storing: for a destination with more room than there are characters, the storing call returns
    n exactly if the counting call does, and fails exactly if it fails.
   */
  lemma CountIsStore(mem: seq<byte>, src: nat, z: nat, wn: nat, out: seq<bv32>, r: Return)
    requires src <= z <= |mem| && |Parse(mem[src..z]).chars| < wn <= |out|
    requires Returns(r, MultibyteText.Store(mem[src..z], wn), out, wn, mem, z)
    ensures forall n: nat :: r == Converted(n) <==> CountOf(mem[src..z]) == Some(n)
    ensures r.IllegalSequence? <==> CountOf(mem[src..z]) == None
  {
    hide Parse, EncodeAll;
  }

  /** The two calls in a row: count, make room for the characters and the terminator, and convert. */
  method CountThenStore(mem: seq<byte>, base: nat, src: nat) returns (r: Option<array<bv32>>)
    requires IsString(mem, base, src)
    ensures r.Some? <==> exists vs :: AreCharacters(vs) && EncodeAll(vs) == mem[src..End(mem, src)]
    ensures r.Some? ==>
              var n := r.value.Length - 1;
              && fresh(r.value) && 0 <= n && r.value[n] == 0 && AreCharacters(r.value[..n])
              && EncodeAll(r.value[..n]) == mem[src..End(mem, src)]
  {
    hide Parse, EncodeAll;
    AcceptedTexts(mem[src..End(mem, src)]);
    var count := Count(mem, base, src);
    if count == None { return None; }
    var ws := new bv32[count.value + 1];
    var stored := Store(ws, count.value + 1, mem, base, src);
    CountIsStore(mem, src, End(mem, src), count.value + 1, ws[..], stored);
    ghost var p := Parse(mem[src..End(mem, src)]);
    assert ws[..][..count.value] == ws[..count.value] == p.chars;
    assert EncodeAll(p.chars) + [] == EncodeAll(p.chars);
    r := Some(ws);
  }
}

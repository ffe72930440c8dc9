/** What mbsrtowcs makes of a string: its characters, and the rest from the first byte that starts no character. */
module MultibyteText {
  import opened Utf8

  /** A character of a NUL-terminated string. */
  predicate IsCharacter(v: bv32) {
    Encodable(v) && v != 0
  }

  predicate AreCharacters(vs: seq<bv32>) {
    forall i :: 0 <= i < |vs| ==> IsCharacter(vs[i])
  }

  /** No character's encoding begins here. */
  ghost predicate StartsBad(text: seq<byte>) {
    forall v :: IsCharacter(v) ==> !(Encode(v) <= text)
  }

  datatype Parsed = Parsed(chars: seq<bv32>, rest: seq<byte>)

  lemma EncodeFirst(v: bv32, vs: seq<bv32>, rest: seq<byte>, text: seq<byte>)
    requires IsCharacter(v) && AreCharacters(vs) && Encode(v) <= text && text[|Encode(v)|..] == EncodeAll(vs) + rest
    ensures AreCharacters([v] + vs) && text == EncodeAll([v] + vs) + rest
  {
    hide Encode;
    assert ([v] + vs)[1..] == vs;
    assert text == Encode(v) + text[|Encode(v)|..];
    assert Encode(v) + (EncodeAll(vs) + rest) == Encode(v) + EncodeAll(vs) + rest;
  }

  /** The longest list of characters at the start of a text, and what follows it. */
  ghost function Parse(text: seq<byte>): (p: Parsed)
    ensures AreCharacters(p.chars) && text == EncodeAll(p.chars) + p.rest && StartsBad(p.rest)
    decreases |text|
  {
    hide Encode, EncodeAll;
    if v :| IsCharacter(v) && Encode(v) <= text then
      var p := Parse(text[|Encode(v)|..]);
      EncodeFirst(v, p.chars, p.rest, text);
      Parsed([v] + p.chars, p.rest)
    else Parsed([], text)
  }

  /** No encoding is a prefix of another one. */
  lemma PrefixFree(v: bv32, w: bv32, text: seq<byte>)
    requires Encodable(v) && Encodable(w) && Encode(v) <= text && Encode(w) <= text
    ensures v == w
  {
    hide Encode, Value, SecondOk, IsTail, Length;
    EncodingIsSequence(v);
    EncodingIsSequence(w);
    assert Encode(v)[0] == text[0] == Encode(w)[0];
    assert Encode(v) == text[..|Encode(v)|] == Encode(w);
  }

  lemma ParseBad(text: seq<byte>)
    requires StartsBad(text)
    ensures Parse(text) == Parsed([], text)
  {
  }

  lemma ParseCharacter(v: bv32, text: seq<byte>)
    requires IsCharacter(v) && Encode(v) <= text
    ensures var p := Parse(text[|Encode(v)|..]); Parse(text) == Parsed([v] + p.chars, p.rest)
  {
    hide Encode;
    forall w | IsCharacter(w) && Encode(w) <= text ensures w == v {
      PrefixFree(v, w, text);
    }
  }

  lemma EncodeNothing()
    ensures EncodeAll([]) == []
  {
  }

  lemma FirstEncoded(vs: seq<bv32>, text: seq<byte>)
    requires AreCharacters(vs) && vs != []
    ensures var all := EncodeAll(vs) + text;
            Encode(vs[0]) <= all && all[|Encode(vs[0])|..] == EncodeAll(vs[1..]) + text
  {
    hide Encode;
    assert EncodeAll(vs) + text == Encode(vs[0]) + (EncodeAll(vs[1..]) + text);
  }

  /** Characters at the start of a text are parsed as themselves. */
  lemma {:induction false} ParseConcat(vs: seq<bv32>, text: seq<byte>)
    requires AreCharacters(vs)
    ensures var p := Parse(text); Parse(EncodeAll(vs) + text) == Parsed(vs + p.chars, p.rest)
    decreases |vs|
  {
    hide Encode, Parse, EncodeAll;
    if vs == [] {
      EncodeNothing();
      assert [] + text == text && vs + Parse(text).chars == Parse(text).chars;
    } else {
      ParseConcat(vs[1..], text);
      FirstEncoded(vs, text);
      ParseCharacter(vs[0], EncodeAll(vs) + text);
      assert [vs[0]] + (vs[1..] + Parse(text).chars) == vs + Parse(text).chars;
    }
  }

  /** The characters and the rest are determined by the text. */
  lemma ParseUnique(vs: seq<bv32>, rest: seq<byte>)
    requires AreCharacters(vs) && StartsBad(rest)
    ensures Parse(EncodeAll(vs) + rest) == Parsed(vs, rest)
  {
    hide Parse;
    ParseConcat(vs, rest);
    ParseBad(rest);
    assert vs + [] == vs;
  }

  lemma NothingStartsBad()
    ensures StartsBad([])
  {
  }

  /** A text is the encoding of some characters exactly if nothing is left of it. */
  lemma AcceptedTexts(text: seq<byte>)
    ensures Parse(text).rest == [] <==> exists vs :: AreCharacters(vs) && EncodeAll(vs) == text
  {
    hide Parse, EncodeAll;
    if Parse(text).rest == [] {
      assert EncodeAll(Parse(text).chars) + [] == EncodeAll(Parse(text).chars);
    }
    if vs :| AreCharacters(vs) && EncodeAll(vs) == text {
      NothingStartsBad();
      ParseUnique(vs, []);
      assert EncodeAll(vs) + [] == text;
    }
  }

  lemma {:induction false} EncodeAllConcat(a: seq<bv32>, b: seq<bv32>)
    requires AreCharacters(a) && AreCharacters(b)
    ensures EncodeAll(a + b) == EncodeAll(a) + EncodeAll(b)
    decreases |a|
  {
    hide Encode;
    if a == [] {
      assert a + b == b;
    } else {
      EncodeAllConcat(a[1..], b);
      assert (a + b)[1..] == a[1..] + b;
    }
  }

  // ----- Calls with limited room -----

  /** What one storing call with room for n wide characters does. */
  datatype Call =
    | Complete(chars: seq<bv32>)
    | Full(chars: seq<bv32>, next: seq<byte>)
    | Illegal(chars: seq<bv32>, next: seq<byte>)

  ghost function Store(text: seq<byte>, n: nat): Call {
    var p := Parse(text);
    if n <= |p.chars| then Full(p.chars[..n], EncodeAll(p.chars[n..]) + p.rest)
    else if p.rest == [] then Complete(p.chars)
    else Illegal(p.chars, p.rest)
  }

  function After(chars: seq<bv32>, call: Call): Call {
    match call
    case Complete(more) => Complete(chars + more)
    case Full(more, next) => Full(chars + more, next)
    case Illegal(more, next) => Illegal(chars + more, next)
  }

  /** A call with room for m characters and then, where it stopped, one for n do the same as one call for m + n. */
  lemma TwoCalls(text: seq<byte>, m: nat, n: nat)
    ensures Store(text, m + n)
            == match Store(text, m)
               case Full(chars, next) => After(chars, Store(next, n))
               case done => done
  {
    hide Parse, EncodeAll;
    var p := Parse(text);
    if m <= |p.chars| {
      var first, others := p.chars[..m], p.chars[m..];
      ParseUnique(others, p.rest);
      assert first + others == p.chars;
      if m + n <= |p.chars| {
        assert first + others[..n] == p.chars[..m + n] && others[n..] == p.chars[m + n..];
      }
    }
  }

  function Sum(sizes: seq<nat>): nat {
    if sizes == [] then 0 else sizes[0] + Sum(sizes[1..])
  }

  /** A series of calls, each taking up where the one before was full. */
  ghost function Calls(text: seq<byte>, sizes: seq<nat>): Call
    decreases |sizes|
  {
    if sizes == [] then Full([], text)
    else
      match Store(text, sizes[0])
      case Full(chars, next) => After(chars, Calls(next, sizes[1..]))
      case done => done
  }

  lemma StoreNothing(text: seq<byte>)
    ensures Store(text, 0) == Full([], text)
  {
    var p := Parse(text);
    assert p.chars[0..] == p.chars;
  }

  /** Repeated short calls amount to one long call. */
  lemma {:induction false} CallsConcatenate(text: seq<byte>, sizes: seq<nat>)
    ensures Calls(text, sizes) == Store(text, Sum(sizes))
    decreases |sizes|
  {
    hide Store;
    if sizes == [] {
      StoreNothing(text);
    } else {
      TwoCalls(text, sizes[0], Sum(sizes[1..]));
      match Store(text, sizes[0]) {
        case Full(chars, next) => CallsConcatenate(next, sizes[1..]);
        case Complete(_) =>
        case Illegal(_, _) =>
      }
    }
  }
}

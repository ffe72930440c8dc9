/** The conversion loop of iconv for UTF-16 and UTF-32 (musl-locale/iconv.c). */
module Iconv {
  import opened Utf8
  import opened Transcoding

  /** All input converted, or E2BIG, EINVAL, EILSEQ. */
  datatype Status = Done | TooBig | Truncated | IllegalInput

  /** How far a call gets in its input, what it writes, and how it ends. */
  datatype Outcome = Outcome(consumed: nat, written: seq<byte>, status: Status)

  function Prepend(consumed: nat, written: seq<byte>, o: Outcome): Outcome {
    Outcome(consumed + o.consumed, written + o.written, o.status)
  }

  /** A call with room for a number of bytes of output. */
  function Convert(from: Encoding, to: Encoding, input: seq<byte>, room: nat): (o: Outcome)
    ensures o.consumed <= |input| && |o.written| <= room
    decreases |input|
  {
    if input == [] then Outcome(0, [], Done)
    else
      match GetNext(from, input)
      case Starved => Outcome(0, [], Truncated)
      case Malformed => Outcome(0, [], IllegalInput)
      case Read(c, length) =>
        var bytes := PutNext(to, c);
        if room < |bytes| then Outcome(0, [], TooBig)
        else Prepend(length, bytes, Convert(from, to, input[length..], room - |bytes|))
  }

  lemma PrependTwice(n1: nat, w1: seq<byte>, n2: nat, w2: seq<byte>, o: Outcome)
    ensures Prepend(n1, w1, Prepend(n2, w2, o)) == Prepend(n1 + n2, w1 + w2, o)
  {
    assert w1 + (w2 + o.written) == w1 + w2 + o.written;
  }

  lemma PrependNothing(o: Outcome)
    ensures Prepend(0, [], o) == o
  {
    assert [] + o.written == o.written;
  }

  lemma PrependStop(consumed: nat, written: seq<byte>, o: Outcome)
    requires o.consumed == 0 && o.written == []
    ensures Prepend(consumed, written, o) == Outcome(consumed, written, o.status)
  {
    assert written + [] == written;
  }

  predicate Fits(from: Encoding, to: Encoding, input: seq<byte>, room: nat) {
    input != [] && GetNext(from, input).Read? && |PutNext(to, GetNext(from, input).c)| <= room
  }

  /** A call that converts a first character. */
  lemma ConvertStep(from: Encoding, to: Encoding, input: seq<byte>, room: nat)
    requires Fits(from, to, input, room)
    ensures var n := GetNext(from, input); var bytes := PutNext(to, n.c);
            Convert(from, to, input, room)
              == Prepend(n.length, bytes, Convert(from, to, input[n.length..], room - |bytes|))
  {
    hide GetNext, PutNext;
  }

  /** A call that converts nothing. */
  lemma ConvertStop(from: Encoding, to: Encoding, input: seq<byte>, room: nat)
    requires !Fits(from, to, input, room)
    ensures Convert(from, to, input, room)
            == Outcome(0, [], if input == [] then Done
                              else match GetNext(from, input)
                                   case Starved => Truncated
                                   case Malformed => IllegalInput
                                   case Read(_, _) => TooBig)
  {
    hide GetNext, PutNext;
  }

  /** Stores the bytes of a character. */
  method PutBytes(out: array<byte>, at: nat, to: Encoding, c: bv32)
    requires at + |PutNext(to, c)| <= out.Length
    modifies out
    ensures out[..] == old(out[..])[..at] + PutNext(to, c) + old(out[..])[at + |PutNext(to, c)|..]
  {
    var bytes := PutNext(to, c);
    var k := 0;
    while k < |bytes|
      invariant k <= |bytes|
      invariant out[..] == old(out[..])[..at] + bytes[..k] + old(out[..])[at + k..]
    {
      out[at + k] := bytes[k];
      k := k + 1;
    }
    assert bytes[..k] == bytes;
  }

  lemma WrittenMore(old0: seq<byte>, before: seq<byte>, after: seq<byte>, o0: nat, o: nat, bytes: seq<byte>)
    requires o0 <= o <= o + |bytes| <= |old0| == |before|
    requires before == old0[..o0] + before[o0..o] + old0[o..]
    requires after == before[..o] + bytes + before[o + |bytes|..]
    ensures |after| == |before| && after[o0..o + |bytes|] == before[o0..o] + bytes
    ensures after == old0[..o0] + after[o0..o + |bytes|] + old0[o + |bytes|..]
  {
    assert before[o + |bytes|..] == old0[o + |bytes|..];
    assert before[..o] == old0[..o0] + before[o0..o];
    assert after[..o0] == before[..o0] == old0[..o0];
    assert after[o0..o] == before[o0..o] && after[o..o + |bytes|] == bytes;
    assert after[o + |bytes|..] == before[o + |bytes|..];
  }

  /** The same, for output that has been written from position o0 on. */
  method PutMore(out: array<byte>, ghost old0: seq<byte>, ghost o0: nat, o: nat, to: Encoding, c: bv32)
    requires o0 <= o <= o + |PutNext(to, c)| <= out.Length == |old0|
    requires out[..] == old0[..o0] + out[o0..o] + old0[o..]
    modifies out
    ensures var o' := o + |PutNext(to, c)|;
            && out[o0..o'] == old(out[o0..o]) + PutNext(to, c)
            && out[..] == old0[..o0] + out[o0..o'] + old0[o'..]
  {
    hide PutNext;
    ghost var before := out[..];
    PutBytes(out, o, to, c);
    assert before[o0..o] == old(out[o0..o]);
    WrittenMore(old0, before, out[..], o0, o, PutNext(to, c));
    assert out[..][o0..o + |PutNext(to, c)|] == out[o0..o + |PutNext(to, c)|];
  }

  /** Going on with the rest of the input and the given room completes the call. */
  ghost predicate GoesOn(from: Encoding, to: Encoding, input: seq<byte>, consumed: nat, written: seq<byte>, room: nat,
                         all: Outcome)
    requires consumed <= |input|
  {
    Prepend(consumed, written, Convert(from, to, input[consumed..], room)) == all
  }

  lemma GoesOnFrom(from: Encoding, to: Encoding, input: seq<byte>, room: nat)
    ensures GoesOn(from, to, input, 0, [], room, Convert(from, to, input, room))
  {
    hide Convert;
    PrependNothing(Convert(from, to, input, room));
    assert input[0..] == input;
  }

  lemma GoesOnStep(from: Encoding, to: Encoding, input: seq<byte>, consumed: nat, written: seq<byte>, room: nat,
                   all: Outcome)
    requires consumed <= |input| && Fits(from, to, input[consumed..], room)
             && GoesOn(from, to, input, consumed, written, room, all)
    ensures var n := GetNext(from, input[consumed..]); var bytes := PutNext(to, n.c);
            GoesOn(from, to, input, consumed + n.length, written + bytes, room - |bytes|, all)
  {
    hide GetNext, PutNext, Convert;
    var n := GetNext(from, input[consumed..]);
    ConvertStep(from, to, input[consumed..], room);
    assert input[consumed..][n.length..] == input[consumed + n.length..];
    PrependTwice(consumed, written, n.length, PutNext(to, n.c),
                 Convert(from, to, input[consumed + n.length..], room - |PutNext(to, n.c)|));
  }

  lemma GoesOnStop(from: Encoding, to: Encoding, input: seq<byte>, consumed: nat, written: seq<byte>, room: nat,
                   all: Outcome)
    requires consumed <= |input| && !Fits(from, to, input[consumed..], room)
             && GoesOn(from, to, input, consumed, written, room, all)
    ensures var s := input[consumed..];
            all == Outcome(consumed, written, if s == [] then Done
                                              else match GetNext(from, s)
                                                   case Starved => Truncated
                                                   case Malformed => IllegalInput
                                                   case Read(_, _) => TooBig)
  {
    hide GetNext, PutNext, Convert;
    ConvertStop(from, to, input[consumed..], room);
    PrependStop(consumed, written, Convert(from, to, input[consumed..], room));
  }

  /** iconv with room for outb0 bytes of output from position outp0 on. */
  method Run(from: Encoding, to: Encoding, input: seq<byte>, out: array<byte>, outp0: nat, outb0: nat)
    returns (status: Status, inp: nat, outp: nat)
    requires outp0 + outb0 <= out.Length
    modifies out
    ensures inp <= |input| && outp0 <= outp <= outp0 + outb0
    ensures Outcome(inp, out[outp0..outp], status) == Convert(from, to, input, outb0)
    ensures out[..] == old(out[..])[..outp0] + out[outp0..outp] + old(out[..])[outp..]
  {
    hide GetNext, PutNext, Convert, GoesOn;
    inp, outp, status := 0, outp0, Done;
    var outb := outb0;
    ghost var all := Convert(from, to, input, outb0);
    GoesOnFrom(from, to, input, outb0);
    while inp < |input|
      invariant inp <= |input| && outp0 <= outp && 0 <= outb && outp + outb == outp0 + outb0 && status == Done
      invariant out[..] == old(out[..])[..outp0] + out[outp0..outp] + old(out[..])[outp..]
      invariant GoesOn(from, to, input, inp, out[outp0..outp], outb, all)
    {
      var next := GetNext(from, input[inp..]);
      if !next.Read? || outb < |PutNext(to, next.c)| {
        GoesOnStop(from, to, input, inp, out[outp0..outp], outb, all);
        status := if next.Starved? then Truncated else if next.Malformed? then IllegalInput else TooBig;
        return;
      }
      var size := |PutNext(to, next.c)|;
      GoesOnStep(from, to, input, inp, out[outp0..outp], outb, all);
      PutMore(out, old(out[..]), outp0, outp, to, next.c);
      inp, outp, outb := inp + next.length, outp + size, outb - size;
    }
    GoesOnStop(from, to, input, inp, out[outp0..outp], outb, all);
  }

  // ----- Scalar values -----

  predicate Scalars(cs: seq<bv32>) {
    forall i :: 0 <= i < |cs| ==> Scalar(cs[i])
  }

  function PutAll(enc: Encoding, cs: seq<bv32>): seq<byte> {
    if cs == [] then [] else PutNext(enc, cs[0]) + PutAll(enc, cs[1..])
  }

  /** The encoding of scalar values in one form is converted into their encoding in the other form. */
  lemma {:induction false} ConvertsScalars(from: Encoding, to: Encoding, cs: seq<bv32>, room: nat)
    requires Scalars(cs) && |PutAll(to, cs)| <= room
    ensures Convert(from, to, PutAll(from, cs), room) == Outcome(|PutAll(from, cs)|, PutAll(to, cs), Done)
    decreases |cs|
  {
    hide GetNext, PutNext, Scalar;
    if cs != [] {
      var input, bytes := PutAll(from, cs), PutNext(from, cs[0]);
      GetPut(from, cs[0], PutAll(from, cs[1..]));
      assert input[|bytes|..] == PutAll(from, cs[1..]);
      ConvertsScalars(from, to, cs[1..], room - |PutNext(to, cs[0])|);
    }
  }

  /** To another form and back, in any byte orders, is the identity on scalar values. */
  lemma RoundTrip(a: Encoding, b: Encoding, cs: seq<bv32>)
    requires Scalars(cs)
    ensures var there := Convert(a, b, PutAll(a, cs), |PutAll(b, cs)|);
            Convert(b, a, there.written, |PutAll(a, cs)|) == Outcome(|there.written|, PutAll(a, cs), Done)
  {
    ConvertsScalars(a, b, cs, |PutAll(b, cs)|);
    ConvertsScalars(b, a, cs, |PutAll(a, cs)|);
  }

  /**
    What a call has consumed is the encoding of scalar values, and what it has
    written is the encoding of the same values.
   */
  lemma {:induction false} ConvertedScalars(from: Encoding, to: Encoding, input: seq<byte>, room: nat)
    returns (cs: seq<bv32>)
    ensures Scalars(cs)
    ensures var o := Convert(from, to, input, room);
            PutAll(from, cs) == input[..o.consumed] && PutAll(to, cs) == o.written
    ensures Convert(from, to, input, room).status == Done ==> PutAll(from, cs) == input
    decreases |input|
  {
    hide GetNext, PutNext, Scalar, Convert;
    if Fits(from, to, input, room) {
      var n := GetNext(from, input);
      var size := |PutNext(to, n.c)|;
      PutGet(from, input);
      ConvertStep(from, to, input, room);
      var rest := ConvertedScalars(from, to, input[n.length..], room - size);
      cs := [n.c] + rest;
      assert cs[1..] == rest;
      var o := Convert(from, to, input[n.length..], room - size);
      assert input[..n.length] + input[n.length..][..o.consumed] == input[..n.length + o.consumed];
      assert input[..n.length] + input[n.length..] == input;
    } else {
      cs := [];
      ConvertStop(from, to, input, room);
    }
  }

  // ----- Interrupted calls -----

  /**
    A call that stops for whatever reason, on input that may be cut short, can be taken up where it stopped: a single
    call that gets all the input writes the same bytes first and then does what the second call does.
   */
  lemma {:induction false} Resume(from: Encoding, to: Encoding, input: seq<byte>, room: nat, more: seq<byte>,
                                  room2: nat)
    ensures var o := Convert(from, to, input, room);
            Convert(from, to, input + more, |o.written| + room2)
            == Prepend(o.consumed, o.written, Convert(from, to, input[o.consumed..] + more, room2))
    decreases |input|
  {
    hide GetNext, PutNext, Convert;
    if Fits(from, to, input, room) {
      var n := GetNext(from, input);
      var bytes := PutNext(to, n.c);
      ConvertStep(from, to, input, room);
      GetMore(from, input, more);
      var rest := input[n.length..];
      var o := Convert(from, to, rest, room - |bytes|);
      Resume(from, to, rest, room - |bytes|, more, room2);
      ConvertStep(from, to, input + more, |bytes| + |o.written| + room2);
      assert (input + more)[n.length..] == rest + more;
      assert input[n.length + o.consumed..] == rest[o.consumed..];
      PrependTwice(n.length, bytes, o.consumed, o.written, Convert(from, to, rest[o.consumed..] + more, room2));
    } else {
      ConvertStop(from, to, input, room);
      PrependNothing(Convert(from, to, input + more, room2));
      assert input[0..] == input;
    }
  }

  /** A call of a session: the input that has arrived since the last one, and the room for output. */
  datatype CallOf = CallOf(arrived: seq<byte>, room: nat)

  function Arrived(calls: seq<CallOf>): seq<byte> {
    if calls == [] then [] else calls[0].arrived + Arrived(calls[1..])
  }

  /** A series of calls, each on the input that is left over and what has arrived: all output and what is left. */
  function Session(from: Encoding, to: Encoding, pending: seq<byte>, calls: seq<CallOf>): (r: (seq<byte>, seq<byte>))
    decreases |calls|
  {
    if calls == [] then ([], pending)
    else
      var input := pending + calls[0].arrived;
      var o := Convert(from, to, input, calls[0].room);
      var r := Session(from, to, input[o.consumed..], calls[1..]);
      (o.written + r.0, r.1)
  }

  /** Any series of interrupted calls does the same as one call on all the input. */
  lemma {:induction false} SessionIsOneCall(from: Encoding, to: Encoding, pending: seq<byte>, calls: seq<CallOf>,
                                            room: nat)
    ensures var r := Session(from, to, pending, calls); var all := pending + Arrived(calls);
            && |r.1| <= |all|
            && Convert(from, to, all, |r.0| + room) == Prepend(|all| - |r.1|, r.0, Convert(from, to, r.1, room))
    decreases |calls|
  {
    hide Convert;
    if calls == [] {
      PrependNothing(Convert(from, to, pending, room));
      assert pending + [] == pending;
    } else {
      var input, later := pending + calls[0].arrived, Arrived(calls[1..]);
      var o := Convert(from, to, input, calls[0].room);
      var left := input[o.consumed..];
      var r := Session(from, to, left, calls[1..]);
      SessionIsOneCall(from, to, left, calls[1..], room);
      Resume(from, to, input, calls[0].room, later, |r.0| + room);
      assert pending + Arrived(calls) == input + later;
      PrependTwice(o.consumed, o.written, |left + later| - |r.1|, r.0, Convert(from, to, r.1, room));
    }
  }

  /** When a session has converted all its input, its output is that of one call. */
  lemma FinishedSession(from: Encoding, to: Encoding, calls: seq<CallOf>)
    requires Session(from, to, [], calls).1 == []
    ensures var w := Session(from, to, [], calls).0;
            Convert(from, to, Arrived(calls), |w|) == Outcome(|Arrived(calls)|, w, Done)
  {
    hide Session, GetNext, PutNext, Arrived;
    SessionIsOneCall(from, to, [], calls, 0);
    assert [] + Arrived(calls) == Arrived(calls);
    var w := Session(from, to, [], calls).0;
    assert w + [] == w;
  }
}

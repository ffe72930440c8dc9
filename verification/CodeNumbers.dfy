/** The numbers of the GB18030 and EUC-KR codes count the codes before them. */
module CodeNumbers {
  import opened Wrappers
  import opened MissingValues

  // ----- EUC-KR -----

  /** Letters and the bytes from 81 on. */
  predicate IsTrail(trail: nat) {
    0x41 <= trail <= 0x5A || 0x61 <= trail <= 0x7A || 0x81 <= trail <= 0xFE
  }

  /** The pairs of bytes around those of the table: the codes of the table have both bytes from A1 on. */
  predicate IsExtended(lead: nat, trail: nat) {
    && 0x81 <= lead <= 0xDD && IsTrail(trail)
    && (0xA1 <= lead ==> trail < 0xA1) && (0xC6 <= lead ==> trail <= 0x52)
  }

  lemma ExtendedCodes(lead: nat, trail: nat)
    ensures KrIndex(lead, trail).Some? <==> IsExtended(lead, trail)
  {
  }

  predicate Before(lead1: nat, trail1: nat, lead2: nat, trail2: nat) {
    lead1 < lead2 || (lead1 == lead2 && trail1 < trail2)
  }

  /** The extended codes before a code. */
  function ExtendedBefore(lead: nat, trail: nat): set<(nat, nat)> {
    set l: nat, t: nat | l <= 0xFF && t <= 0xFF && IsExtended(l, t) && Before(l, t, lead, trail) :: (l, t)
  }

  /** The extended code before a code. */
  function PreviousKr(lead: nat, trail: nat): (nat, nat)
    requires IsExtended(lead, trail) && (lead, trail) != (0x81, 0x41)
  {
    if trail == 0x41 then (lead - 1, if lead <= 0xA1 then 0xFE else 0xA0)
    else if trail == 0x61 then (lead, 0x5A)
    else if trail == 0x81 then (lead, 0x7A)
    else (lead, trail - 1)
  }

  lemma OneMoreKr(lead: nat, trail: nat)
    requires IsExtended(lead, trail) && lead <= 0xC6 && (lead, trail) != (0x81, 0x41)
    ensures var q := PreviousKr(lead, trail);
            && IsExtended(q.0, q.1) && q.0 <= lead && Before(q.0, q.1, lead, trail)
            && ExtendedBefore(lead, trail) == ExtendedBefore(q.0, q.1) + {q} && q !in ExtendedBefore(q.0, q.1)
            && KrIndex(lead, trail).value == KrIndex(q.0, q.1).value + 1
  {
    var q := PreviousKr(lead, trail);
    forall l: nat, t: nat | IsExtended(l, t)
      ensures Before(l, t, lead, trail) <==> Before(l, t, q.0, q.1) || (l, t) == q
    {
    }
  }

  /**
    Up to lead byte C6 the number of an extended code is the number of extended codes before it, so the numbers run
    without a gap from AC00 on.
   */
  lemma {:induction false} KrCounts(lead: nat, trail: nat)
    requires IsExtended(lead, trail) && lead <= 0xC6
    ensures KrIndex(lead, trail) == Some(0xAC00 + |ExtendedBefore(lead, trail)|)
    decreases lead, trail
  {
    if (lead, trail) == (0x81, 0x41) {
      assert ExtendedBefore(lead, trail) == {};
    } else {
      OneMoreKr(lead, trail);
      var q := PreviousKr(lead, trail);
      KrCounts(q.0, q.1);
    }
  }

  /** There are 8822 of them. */
  lemma LastKr()
    ensures IsExtended(0xC6, 0x52) && |ExtendedBefore(0xC6, 0x52)| == 8821
  {
    KrCounts(0xC6, 0x52);
  }

  // ----- GB18030 -----

  /** The four-byte codes of the standard; the program takes third byte FF as well. */
  predicate IsFourByte(p: Code) {
    0x81 <= p.b1 <= 0xFE && 0x30 <= p.b2 <= 0x39 && 0x81 <= p.b3 <= 0xFE && 0x30 <= p.b4 <= 0x39
  }

  predicate GbBefore(p: Code, q: Code) {
    || p.b1 < q.b1 || (p.b1 == q.b1 && p.b2 < q.b2) || (p.b1 == q.b1 && p.b2 == q.b2 && p.b3 < q.b3)
    || (p.b1 == q.b1 && p.b2 == q.b2 && p.b3 == q.b3 && p.b4 < q.b4)
  }

  function FourByteBefore(p: Code): set<Code> {
    set b1: nat, b2: nat, b3: nat, b4: nat
      | b1 <= 0xFF && b2 <= 0xFF && b3 <= 0xFF && b4 <= 0xFF && IsFourByte(Code(b1, b2, b3, b4))
        && GbBefore(Code(b1, b2, b3, b4), p)
      :: Code(b1, b2, b3, b4)
  }

  /** Counting down the last byte, and the others when those after them are at their ends. */
  function PreviousGb(p: Code): Code
    requires IsFourByte(p) && p != Code(0x81, 0x30, 0x81, 0x30)
  {
    if p.b4 > 0x30 then Code(p.b1, p.b2, p.b3, p.b4 - 1)
    else if p.b3 > 0x81 then Code(p.b1, p.b2, p.b3 - 1, 0x39)
    else if p.b2 > 0x30 then Code(p.b1, p.b2 - 1, 0xFE, 0x39)
    else Code(p.b1 - 1, 0x39, 0xFE, 0x39)
  }

  lemma OneMoreGb(p: Code)
    requires IsFourByte(p) && p != Code(0x81, 0x30, 0x81, 0x30)
    ensures var q := PreviousGb(p);
            && IsFourByte(q) && GbBefore(q, p)
            && FourByteBefore(p) == FourByteBefore(q) + {q} && q !in FourByteBefore(q)
            && GbIndex(q).Some? && GbIndex(p) == Some(GbIndex(q).value + 1)
  {
    var q := PreviousGb(p);
    forall c: Code | IsFourByte(c) ensures GbBefore(c, p) <==> GbBefore(c, q) || c == q {
    }
    forall c: Code ensures c in FourByteBefore(p) <==> c in FourByteBefore(q) + {q} {
      assert c == Code(c.b1, c.b2, c.b3, c.b4);
    }
  }

  /** The number of a four-byte code of the standard is 128 more than the number of such codes before it. */
  lemma {:induction false} GbCounts(p: Code)
    requires IsFourByte(p)
    ensures GbIndex(p) == Some(128 + |FourByteBefore(p)|)
    decreases p.b1, p.b2, p.b3, p.b4
  {
    if p == Code(0x81, 0x30, 0x81, 0x30) {
      assert FourByteBefore(p) == {};
    } else {
      OneMoreGb(p);
      GbCounts(PreviousGb(p));
    }
  }

  predicate IsSecond(b: nat) {
    0x40 <= b <= 0xFE && b != 0x7F
  }

  function SecondBefore(b2: nat): set<nat> {
    set b: nat | b < b2 && IsSecond(b)
  }

  /** The column of a two-byte code is the number of second bytes before its own. */
  lemma {:induction false} ColumnCounts(b2: nat)
    requires IsSecond(b2)
    ensures Column(b2) == |SecondBefore(b2)|
    decreases b2
  {
    if b2 == 0x40 {
      assert SecondBefore(b2) == {};
    } else {
      var b := if b2 == 0x80 then 0x7E else b2 - 1;
      ColumnCounts(b);
      assert SecondBefore(b2) == SecondBefore(b) + {b};
    }
  }
}

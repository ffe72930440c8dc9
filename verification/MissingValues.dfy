/**
  The loops of iconv that find the n-th code point that a table does not contain, and the numbers of the codes that
  use them: four-byte codes of GB18030 and the extended codes of EUC-KR (musl-locale/iconv.c).
 */
module MissingValues {
  import opened Wrappers

  // ----- Counting table entries -----

  /** The number of entries between two bounds. */
  function CountIn(table: seq<int>, lo: int, hi: int): nat {
    if table == [] then 0 else CountIn(table[..|table| - 1], lo, hi) + if lo <= table[|table| - 1] <= hi then 1 else 0
  }

  function Flat(rows: seq<seq<int>>): seq<int> {
    if rows == [] then [] else Flat(rows[..|rows| - 1]) + rows[|rows| - 1]
  }

  predicate Shorts(table: seq<int>) {
    forall i :: 0 <= i < |table| ==> 0 <= table[i] < 0x1_0000
  }

  const WORD := 0x1_0000_0000

  /** The comparison v - d <= c - d of unsigned 32-bit numbers. */
  predicate Within(v: int, d: int, c: int) {
    (v - d) % WORD <= (c - d) % WORD
  }

  lemma WithinBounds(v: int, d: int, c: int)
    requires 0 <= v < 0x1_0000 && 0 <= d <= c < WORD
    ensures Within(v, d, c) <==> d <= v <= c
  {
    if v < d {
      assert (v - d) % WORD == v - d + WORD;
    }
  }

  lemma {:induction false} CountConcat(a: seq<int>, b: seq<int>, lo: int, hi: int)
    ensures CountIn(a + b, lo, hi) == CountIn(a, lo, hi) + CountIn(b, lo, hi)
    decreases |b|
  {
    if b == [] {
      assert a + b == a;
    } else {
      CountConcat(a, b[..|b| - 1], lo, hi);
      assert (a + b)[..|a + b| - 1] == a + b[..|b| - 1];
    }
  }

  lemma {:induction false} CountSplit(table: seq<int>, lo: int, mid: int, hi: int)
    requires lo <= mid + 1 && mid <= hi
    ensures CountIn(table, lo, hi) == CountIn(table, lo, mid) + CountIn(table, mid + 1, hi)
  {
    if table != [] {
      CountSplit(table[..|table| - 1], lo, mid, hi);
    }
  }

  lemma {:induction false} CountAtMost(table: seq<int>, lo: int, hi: int)
    ensures CountIn(table, lo, hi) <= |table|
  {
    if table != [] {
      CountAtMost(table[..|table| - 1], lo, hi);
    }
  }

  lemma {:induction false} CountZero(table: seq<int>, lo: int, hi: int)
    ensures CountIn(table, lo, hi) == 0 <==> forall v :: lo <= v <= hi ==> v !in table
  {
    if table != [] {
      var last := table[|table| - 1];
      assert table == table[..|table| - 1] + [last];
      CountZero(table[..|table| - 1], lo, hi);
      if CountIn(table, lo, hi) != 0 && !(lo <= last <= hi) {
        var v :| lo <= v <= hi && v in table[..|table| - 1];
        assert v in table;
      } else if lo <= last <= hi {
        assert last in table;
      }
    }
  }

  /** The two nested loops over a table. */
  method CountEntries(rows: seq<seq<int>>, d: nat, c: nat) returns (k: nat)
    requires Shorts(Flat(rows)) && d <= c < WORD
    ensures k == CountIn(Flat(rows), d, c)
  {
    k := 0;
    var i := 0;
    while i < |rows|
      invariant i <= |rows| && k == CountIn(Flat(rows[..i]), d, c)
    {
      FlatTake(rows, i);
      var j := 0;
      while j < |rows[i]|
        invariant j <= |rows[i]| && k == CountIn(Flat(rows[..i]), d, c) + CountIn(rows[i][..j], d, c)
      {
        WithinBounds(rows[i][j], d, c);
        assert rows[i][..j + 1][..j] == rows[i][..j];
        if Within(rows[i][j], d, c) { k := k + 1; }
        j := j + 1;
      }
      assert rows[i][..j] == rows[i];
      CountConcat(Flat(rows[..i]), rows[i], d, c);
      i := i + 1;
    }
    assert rows[..i] == rows;
  }

  lemma FlatTake(rows: seq<seq<int>>, i: nat)
    requires i < |rows| && Shorts(Flat(rows))
    ensures Flat(rows[..i + 1]) == Flat(rows[..i]) + rows[i] && Shorts(rows[i])
  {
    assert rows[..i + 1][..i] == rows[..i];
    FlatRow(rows, i);
  }

  lemma {:induction false} FlatRow(rows: seq<seq<int>>, i: nat)
    requires i < |rows| && Shorts(Flat(rows))
    ensures Shorts(rows[i])
    decreases |rows|
  {
    var n := |rows| - 1;
    var before := Flat(rows[..n]);
    if i < n {
      assert forall j :: 0 <= j < |before| ==> before[j] == Flat(rows)[j];
      FlatRow(rows[..n], i);
    } else {
      assert forall j :: 0 <= j < |rows[n]| ==> rows[n][j] == Flat(rows)[|before| + j];
    }
  }

  // ----- The n-th missing value -----

  predicate Distinct(table: seq<int>) {
    forall i, j :: 0 <= i < j < |table| ==> table[i] != table[j]
  }

  /** The number of values from lo up to but excluding hi that are not in the table. */
  function MissingBelow(table: seq<int>, lo: int, hi: int): nat
    decreases hi - lo
  {
    if hi <= lo then 0 else MissingBelow(table, lo, hi - 1) + if hi - 1 in table then 0 else 1
  }

  /** Value r is missing, and so are exactly n of the values from start up to it. */
  predicate IsMissing(table: seq<int>, start: int, n: nat, r: int) {
    start <= r && r !in table && MissingBelow(table, start, r) == n
  }

  lemma {:induction false} CountOne(table: seq<int>, v: int)
    requires Distinct(table)
    ensures CountIn(table, v, v) == if v in table then 1 else 0
  {
    if table != [] {
      var n := |table| - 1;
      CountOne(table[..n], v);
      assert table == table[..n] + [table[n]];
      assert v in table <==> v in table[..n] || v == table[n];
    }
  }

  lemma {:induction false} MissingAndPresent(table: seq<int>, lo: int, hi: int)
    requires Distinct(table) && lo <= hi
    ensures MissingBelow(table, lo, hi) + CountIn(table, lo, hi - 1) == hi - lo
    decreases hi - lo
  {
    if lo < hi {
      MissingAndPresent(table, lo, hi - 1);
      CountSplit(table, lo, hi - 2, hi - 1);
      CountOne(table, hi - 1);
    } else {
      CountZero(table, lo, hi - 1);
    }
  }

  /** The loop, started at the number index: it ends, and for a table without duplicates it ends at the right value. */
  method Select(rows: seq<seq<int>>, start: nat, index: nat) returns (c: nat)
    requires Shorts(Flat(rows)) && start <= index && index + |Flat(rows)| < WORD
    ensures index <= c && c !in Flat(rows)
    ensures Distinct(Flat(rows)) ==> IsMissing(Flat(rows), start, index - start, c)
  {
    ghost var table := Flat(rows);
    var d: nat := start;
    c := index;
    CountZero(table, start, start - 1);
    while d <= c
      invariant start <= d <= c + 1 && index <= c && c == index + CountIn(table, start, d - 1)
      invariant d == c + 1 ==> c !in table
      decreases |table| - CountIn(table, start, d - 1), c + 1 - d
    {
      CountAtMost(table, start, d - 1);
      CountAtMost(table, start, c);
      var k := CountEntries(rows, d, c);
      CountSplit(table, start, d - 1, c);
      CountZero(table, d, c);
      d := c + 1;
      c := c + k;
    }
    if Distinct(table) {
      MissingAndPresent(table, start, c);
      CountSplit(table, start, c - 1, c);
      CountOne(table, c);
    }
  }

  lemma {:induction false} MissingGrows(table: seq<int>, lo: int, mid: int, hi: int)
    requires lo <= mid <= hi
    ensures MissingBelow(table, lo, mid) <= MissingBelow(table, lo, hi)
    decreases hi - mid
  {
    if mid < hi {
      MissingGrows(table, lo, mid, hi - 1);
    }
  }

  /** The value grows strictly with its number; so it is unique, and different numbers have different values. */
  lemma MissingIncreases(table: seq<int>, start: int, n1: nat, r1: int, n2: nat, r2: int)
    requires IsMissing(table, start, n1, r1) && IsMissing(table, start, n2, r2)
    ensures n1 < n2 <==> r1 < r2
    ensures n1 == n2 <==> r1 == r2
  {
    if r1 < r2 {
      MissingGrows(table, start, r1 + 1, r2);
    } else if r2 < r1 {
      MissingGrows(table, start, r2 + 1, r1);
    }
  }

  // ----- GB18030 -----

  /** Four bytes of input. */
  datatype Code = Code(b1: nat, b2: nat, b3: nat, b4: nat)

  /** The linear number of a four-byte code, if its bytes are accepted. */
  function GbIndex(q: Code): Option<nat> {
    if !(0x81 <= q.b1 <= 0xFE) || !(0x30 <= q.b2 <= 0x39) then None
    else if !(0x81 <= q.b3 <= 0xFF) || !(0x30 <= q.b4 <= 0x39) then None
    else Some((10 * (q.b1 - 0x81) + q.b2 - 0x30) * 1260 + 10 * (q.b3 - 0x81) + (q.b4 - 0x30) + 128)
  }

  /** Third byte FF is one more than there should be, and stands for the same as 81 after the next two bytes. */
  predicate Carries(p: Code, q: Code) {
    p.b3 == 0xFF && q.b3 == 0x81 && p.b4 == q.b4 && 10 * p.b1 + p.b2 + 1 == 10 * q.b1 + q.b2
  }

  /**
    Two codes have the same number only if they are equal or one of them has third
    byte FF and carries to the other.
   */
  lemma GbCollisions(p: Code, q: Code)
    requires GbIndex(p).Some? && GbIndex(q).Some?
    ensures GbIndex(p) == GbIndex(q) <==> p == q || Carries(p, q) || Carries(q, p)
  {
    var x, y := 10 * (p.b1 - 0x81) + p.b2 - 0x30, 10 * (q.b1 - 0x81) + q.b2 - 0x30;
    var u, v := 10 * (p.b3 - 0x81) + p.b4 - 0x30, 10 * (q.b3 - 0x81) + q.b4 - 0x30;
    assert GbIndex(p) == GbIndex(q) <==> (x - y) * 1260 == v - u;
    assert -1269 <= v - u <= 1269;
    assert x - y == 0 || x - y == 1 || x - y == -1 || (x - y) * 1260 > 1269 || (x - y) * 1260 < -1269;
  }

  lemma GbExample()
    ensures GbIndex(Code(0x81, 0x30, 0xFF, 0x30)) == GbIndex(Code(0x81, 0x31, 0x81, 0x30)) == Some(1388)
  {
  }

  /** A code shares its number exactly if its third byte is FF or 81 and there is a code to carry to or from. */
  lemma GbOwnNumber(p: Code)
    requires GbIndex(p).Some?
    ensures (exists q :: q != p && GbIndex(q) == GbIndex(p))
            <==> (p.b3 == 0xFF && !(p.b1 == 0xFE && p.b2 == 0x39)) || (p.b3 == 0x81 && !(p.b1 == 0x81 && p.b2 == 0x30))
  {
    forall q | GbIndex(q) == GbIndex(p) ensures q == p || Carries(p, q) || Carries(q, p) {
      GbCollisions(p, q);
    }
    if p.b3 == 0xFF && !(p.b1 == 0xFE && p.b2 == 0x39) {
      var q := if p.b2 < 0x39 then Code(p.b1, p.b2 + 1, 0x81, p.b4) else Code(p.b1 + 1, 0x30, 0x81, p.b4);
      GbCollisions(p, q);
      assert GbIndex(q) == GbIndex(p) && q != p;
    } else if p.b3 == 0x81 && !(p.b1 == 0x81 && p.b2 == 0x30) {
      var q := if p.b2 > 0x30 then Code(p.b1, p.b2 - 1, 0xFF, p.b4) else Code(p.b1 - 1, 0x39, 0xFF, p.b4);
      GbCollisions(p, q);
      assert GbIndex(q) == GbIndex(p) && q != p;
    }
  }

  /** The values of two codes are in the order of their numbers, and in no two-byte table. */
  lemma GbValues(table: seq<int>, p: Code, q: Code, rp: int, rq: int)
    requires GbIndex(p).Some? && GbIndex(q).Some?
    requires IsMissing(table, 0, GbIndex(p).value, rp) && IsMissing(table, 0, GbIndex(q).value, rq)
    ensures rp !in table && (GbIndex(p).value < GbIndex(q).value <==> rp < rq)
    ensures rp == rq <==> p == q || Carries(p, q) || Carries(q, p)
  {
    GbCollisions(p, q);
    MissingIncreases(table, 0, GbIndex(p).value, rp, GbIndex(q).value, rq);
  }

  lemma {:induction false} CountAll(table: seq<int>, hi: int)
    requires Shorts(table) && 0xFFFF <= hi
    ensures CountIn(table, 0, hi) == |table|
  {
    if table != [] {
      CountAll(table[..|table| - 1], hi);
    }
  }

  /** The selected value is a code point exactly if the number is small enough for the size of the table. */
  lemma GbWithinUnicode(table: seq<int>, n: nat, r: int)
    requires Shorts(table) && Distinct(table) && |table| <= TABLE && IsMissing(table, 0, n, r)
    ensures r <= 0x10FFFF <==> n + |table| <= 0x10FFFF
  {
    MissingAndPresent(table, 0, r);
    CountAtMost(table, 0, r - 1);
    if r > 0xFFFF {
      CountAll(table, r - 1);
    }
  }

  /** It is not checked: with any table, the last code stands for a value beyond the last code point. */
  lemma GbBeyondUnicode(table: seq<int>, r: int)
    requires Shorts(table) && Distinct(table) && |table| <= TABLE
    requires IsMissing(table, 0, GbIndex(Code(0xFE, 0x39, 0xFE, 0x39)).value, r)
    ensures r > 0x10FFFF
  {
    GbWithinUnicode(table, 1587727, r);
  }

  /** A character and the number of bytes it took, EINVAL, or EILSEQ. */
  datatype Decoded = Char(value: nat, length: nat) | Starved | Illegal

  /** The size of the table of two-byte codes. */
  const TABLE := 126 * 190

  /** Whether two bytes stand for an entry of the table, and which one. */
  predicate IsTwoByte(b1: int, b2: int) {
    0x81 <= b1 <= 0xFE && 0x40 <= b2 <= 0xFE && b2 != 0x7F
  }

  function Column(b2: nat): nat
    requires 0x40 <= b2
  {
    if b2 > 0x7F then b2 - 0x41 else b2 - 0x40
  }

  predicate IsTable(rows: seq<seq<int>>) {
    && Shorts(Flat(rows)) && |Flat(rows)| <= TABLE
    && |rows| == 126 && forall i :: 0 <= i < |rows| ==> |rows[i]| == 190
  }

  /** The GB18030 case, for input whose first byte is not ASCII. */
  method DecodeGb(rows: seq<seq<int>>, input: seq<nat>) returns (r: Decoded)
    requires IsTable(rows) && input != [] && 0x80 <= input[0]
    ensures r.Starved? <==> 0x81 <= input[0] <= 0xFE && (|input| < 2 || (0x30 <= input[1] <= 0x39 && |input| < 4))
    ensures r.Char? && r.length == 2 <==> 2 <= |input| && IsTwoByte(input[0], input[1])
    ensures r.Char? && r.length == 4 <==>
              4 <= |input| && GbIndex(Code(input[0], input[1], input[2], input[3])).Some?
    ensures r.Char? ==> r.length == 2 || r.length == 4
    ensures r.Char? && r.length == 2 ==> r.value == rows[input[0] - 0x81][Column(input[1])] && r.value in Flat(rows)
    ensures r.Char? && r.length == 4 ==>
              var n := GbIndex(Code(input[0], input[1], input[2], input[3])).value;
              && n <= r.value && r.value !in Flat(rows)
              && (Distinct(Flat(rows)) ==>
                    IsMissing(Flat(rows), 0, n, r.value) && (r.value <= 0x10FFFF <==> n + |Flat(rows)| <= 0x10FFFF))
  {
    if input[0] < 0x81 || input[0] - 0x81 >= 126 { return Illegal; }
    if |input| < 2 { return Starved; }
    if IsTwoByte(input[0], input[1]) {
      FlatHolds(rows, input[0] - 0x81, Column(input[1]));
      FlatRow(rows, input[0] - 0x81);
      return Char(rows[input[0] - 0x81][Column(input[1])], 2);
    }
    if !(0x30 <= input[1] <= 0x39) { return Illegal; }
    if |input| < 4 { return Starved; }
    match GbIndex(Code(input[0], input[1], input[2], input[3]))
    case None => r := Illegal;
    case Some(index) =>
      var c := Select(rows, 0, index);
      r := Char(c, 4);
      if Distinct(Flat(rows)) {
        GbWithinUnicode(Flat(rows), index, c);
      }
  }

  lemma {:induction false} FlatHolds(rows: seq<seq<int>>, i: nat, j: nat)
    requires i < |rows| && j < |rows[i]|
    ensures rows[i][j] in Flat(rows)
    decreases |rows|
  {
    if i < |rows| - 1 {
      FlatHolds(rows[..|rows| - 1], i, j);
    }
  }

  // ----- EUC-KR -----

  method DecodeKr(rows: seq<seq<int>>, lead: nat, trail: nat) returns (r: Option<nat>)
    requires Shorts(Flat(rows)) && |Flat(rows)| <= 93 * 94
    ensures r.Some? <==> KrIndex(lead, trail).Some?
    ensures r.Some? ==> r.value !in Flat(rows)
    ensures r.Some? && Distinct(Flat(rows)) ==>
              IsMissing(Flat(rows), 0xAC00, KrIndex(lead, trail).value - 0xAC00, r.value)
  {
    match KrIndex(lead, trail)
    case None => r := None;
    case Some(index) =>
      var c := Select(rows, 0xAC00, index);
      r := Some(c);
  }

  /** The number of an extended two-byte code, if its bytes are accepted. */
  function KrIndex(lead: nat, trail: nat): Option<nat> {
    if 0xA1 <= lead < 0xFE && 0xA1 <= trail < 0xFF then None // A code of the table.
    else if lead < 0x81 || lead - 0x81 >= 93 || (lead >= 0xC6 && trail > 0x52) then None
    else
      match KrColumn(trail)
      case None => None
      case Some(d) =>
        var c := lead - 0x81;
        Some((if c < 0x20 then 178 * c + d else 178 * 0x20 + 84 * (c - 0x20) + d) + 0xAC00)
  }

  function KrColumn(trail: nat): Option<nat> {
    if 0x41 <= trail < 0x5B then Some(trail - 0x41)
    else if 0x61 <= trail < 0x7B then Some(trail - 0x61 + 26)
    else if 0x81 <= trail < 0xFF then Some(trail - 0x81 + 52)
    else None
  }

  /** The numbers of extended codes increase with the code. */
  lemma KrIncreases(lead1: nat, trail1: nat, lead2: nat, trail2: nat)
    requires KrIndex(lead1, trail1).Some? && KrIndex(lead2, trail2).Some?
    ensures KrIndex(lead1, trail1).value < KrIndex(lead2, trail2).value
            <==> lead1 < lead2 || (lead1 == lead2 && trail1 < trail2)
  {
  }

  /** No two extended codes stand for the same value, and none stands for a value of the table. */
  lemma KrValues(table: seq<int>, lead1: nat, trail1: nat, lead2: nat, trail2: nat, r1: int, r2: int)
    requires KrIndex(lead1, trail1).Some? && KrIndex(lead2, trail2).Some?
    requires IsMissing(table, 0xAC00, KrIndex(lead1, trail1).value - 0xAC00, r1)
    requires IsMissing(table, 0xAC00, KrIndex(lead2, trail2).value - 0xAC00, r2)
    ensures r1 !in table && (r1 == r2 <==> lead1 == lead2 && trail1 == trail2)
  {
    KrIncreases(lead1, trail1, lead2, trail2);
    KrIncreases(lead2, trail2, lead1, trail1);
    MissingIncreases(table, 0xAC00, KrIndex(lead1, trail1).value - 0xAC00, r1, KrIndex(lead2, trail2).value - 0xAC00,
                     r2);
  }
}

/** Reading a circular array from a given start. */
module Rotation {

  /** The index that lies i steps after from in an array of n elements. */
  function Index(from: nat, i: nat, n: nat): (k: nat)
    requires 0 < n
    ensures k < n
  {
    (from + i) % n
  }

  function Rotate<T>(s: seq<T>, from: nat): (r: seq<T>)
    requires 0 < |s|
    ensures |r| == |s|
  {
    s[Index(from, 0, |s|)..] + s[..Index(from, 0, |s|)]
  }

  lemma DivModUnique(a: int, q: int, r: int, n: int)
    requires 0 < n && a == q * n + r && 0 <= r < n
    ensures a % n == r
  {
    assert a == a / n * n + a % n;
    var d := q - a / n;
    assert d * n == a % n - r;
    assert d >= 1 ==> d * n >= n;
    assert d <= -1 ==> d * n <= -n;
  }

  lemma ModPlusOne(b: nat, n: nat)
    requires 0 < n
    ensures (b + n) % n == b % n
  {
    assert b == b / n * n + b % n;
    assert b + n == (b / n + 1) * n + b % n;
    DivModUnique(b + n, b / n + 1, b % n, n);
  }

  /** Adding less than a turn. */
  lemma ModAdd(a: nat, b: nat, n: nat)
    requires b <= n && 0 < n
    ensures (a + b) % n == if a % n + b < n then a % n + b else a % n + b - n
  {
    assert a == a / n * n + a % n;
    if a % n + b < n {
      DivModUnique(a + b, a / n, a % n + b, n);
    } else {
      assert a + b == (a / n + 1) * n + (a % n + b - n);
      DivModUnique(a + b, a / n + 1, a % n + b - n, n);
    }
  }

  /** Rows of a screen are stored at different places exactly if the screen has no more rows than the array. */
  lemma DistinctRowsIff(first: nat, rows: nat, total: nat)
    requires 0 < total
    ensures (forall i: nat, j: nat :: i < j < rows ==> Index(first, i, total) != Index(first, j, total))
            <==> rows <= total
  {
    if rows <= total {
      forall i: nat, j: nat | i < j < rows
        ensures Index(first, i, total) != Index(first, j, total)
      {
        ModAdd(first, i, total);
        ModAdd(first, j, total);
      }
    } else {
      ModPlusOne(first, total);
      assert Index(first, 0, total) == Index(first, total, total);
    }
  }

  /** Position i is i steps after the start. */
  lemma RotateAt<T>(s: seq<T>, from: nat, i: nat)
    requires i < |s|
    ensures Rotate(s, from)[i] == s[Index(from, i, |s|)]
  {
    ModAdd(from, i, |s|);
  }

  /** Storing at the index of position i changes position i only. */
  lemma RotateUpdate<T>(s: seq<T>, from: nat, i: nat, x: T)
    requires i < |s|
    ensures Rotate(s[Index(from, i, |s|) := x], from) == Rotate(s, from)[i := x]
  {
    ModAdd(from, i, |s|);
  }

  /** Turning further by at most a turn. */
  lemma RotateMore<T>(s: seq<T>, a: nat, b: nat)
    requires 0 < |s| && b <= |s|
    ensures Rotate(s, a + b) == Rotate(s, a)[b..] + Rotate(s, a)[..b]
  {
    ModAdd(a, b, |s|);
  }

  lemma RotateIndex<T>(s: seq<T>, a: nat, b: nat)
    requires 0 < |s|
    ensures Rotate(s, Index(a, b, |s|)) == Rotate(s, a + b)
  {
    var k := (a + b) % |s|;
    DivModUnique(k, 0, k, |s|);
  }

  lemma RotateFullTurn<T>(s: seq<T>, a: nat)
    requires 0 < |s|
    ensures Rotate(s, a + |s|) == Rotate(s, a)
  {
    ModPlusOne(a, |s|);
  }

  /** Turning on to the end of the turn. */
  lemma RotateBack<T>(s: seq<T>, a: nat)
    requires 0 < |s|
    ensures Rotate(Rotate(s, a), |s| - Index(a, 0, |s|)) == s
  {
    var n, k := |s|, Index(a, 0, |s|);
    DivModUnique(n - k, if k == 0 then 1 else 0, if k == 0 then 0 else n - k, n);
  }
}

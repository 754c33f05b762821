/** lcsubstr: the longest common substrings of two strings, by the
    two-row dynamic programme over common suffix lengths. */
module CommonSubstring {

  /** PAIR: where one common substring starts in the first and in the second string. */
  datatype Pair = Pair(a: int, b: int)

  /** `s` and `t` agree on the `l` characters from `a` in `s` and `b` in `t`. */
  predicate CommonAt(s: seq<char>, t: seq<char>, a: int, b: int, l: int)
  {
    0 <= l && 0 <= a && a + l <= |s| && 0 <= b && b + l <= |t|
    && forall x :: a <= x < a + l ==> s[x] == t[x - a + b]
  }

  /** The length of the longest common suffix of `s[..i]` and `t[..j]`:
      the value the programme keeps in its table. */
  function Suf(s: seq<char>, t: seq<char>, i: nat, j: nat): nat
    requires i <= |s| && j <= |t|
  {
    if i == 0 || j == 0 || s[i - 1] != t[j - 1] then 0 else Suf(s, t, i - 1, j - 1) + 1
  }

  /** A common suffix is a common substring ending there. */
  lemma {:induction false} SufIsCommon(s: seq<char>, t: seq<char>, i: nat, j: nat)
    requires i <= |s| && j <= |t|
    ensures Suf(s, t, i, j) <= i && Suf(s, t, i, j) <= j
    ensures CommonAt(s, t, i - Suf(s, t, i, j), j - Suf(s, t, i, j), Suf(s, t, i, j))
  {
    if i > 0 && j > 0 && s[i - 1] == t[j - 1] {
      SufIsCommon(s, t, i - 1, j - 1);
      var l := Suf(s, t, i, j);
      assert forall x :: i - l <= x < i - 1 ==> s[x] == t[x - (i - l) + (j - l)];
    }
  }

  /** A common substring ending at `a + l`, `b + l` is a common suffix there. */
  lemma {:induction false} CommonIsSuf(s: seq<char>, t: seq<char>, a: int, b: int, l: int)
    requires CommonAt(s, t, a, b, l)
    ensures Suf(s, t, a + l, b + l) >= l
    decreases l
  {
    if l > 0 {
      assert s[a + l - 1] == t[b + l - 1];
      assert CommonAt(s, t, a, b, l - 1);
      CommonIsSuf(s, t, a, b, l - 1);
    }
  }

  /** No common suffix ending in the first `rows` rows is longer than `z`. */
  predicate RowsBelow(s: seq<char>, t: seq<char>, rows: nat, n: nat, z: int)
    requires rows <= |s| && n <= |t|
  {
    forall i, j :: 1 <= i <= rows && 1 <= j <= n ==> Suf(s, t, i, j) <= z
  }

  /** Every pair starts a common substring of length `z` within the first
      `m` and `n` characters. */
  predicate PairsCommon(s: seq<char>, t: seq<char>, ret: seq<Pair>, z: int, m: int, n: int)
  {
    forall q :: 0 <= q < |ret| ==> CommonAt(s, t, ret[q].a, ret[q].b, z) && ret[q].a + z <= m && ret[q].b + z <= n
  }

  /** No common substring within the first `m` and `n` characters is longer than `z`. */
  ghost predicate Longest(s: seq<char>, t: seq<char>, m: int, n: int, z: int)
  {
    forall a, b, l :: CommonAt(s, t, a, b, l) && a + l <= m && b + l <= n ==> l <= z
  }

  /** The pairs go strictly forward in both strings. */
  predicate Increasing(ret: seq<Pair>)
  {
    forall q, r :: 0 <= q < r < |ret| ==> ret[q].a < ret[r].a && ret[q].b < ret[r].b
  }

  /** When the table holds no value above `z`, no common substring is longer. */
  lemma LongestFromRows(s: seq<char>, t: seq<char>, m: nat, n: nat, z: int)
    requires m <= |s| && n <= |t| && z >= 0 && RowsBelow(s, t, m, n, z)
    ensures forall a, b, l :: CommonAt(s, t, a, b, l) && a + l <= m && b + l <= n ==> l <= z
  {
    forall a, b, l | CommonAt(s, t, a, b, l) && a + l <= m && b + l <= n
      ensures l <= z
    {
      if l > 0 {
        CommonIsSuf(s, t, a, b, l);
      }
    }
  }

  /** The scan over the pairs found so far: the index of the first pair that
      starts at the same place in `s` or not before `off1` in `t`, or
      `|ret|` when there is none. */
  method FindClash(ret: seq<Pair>, off0: int, off1: int) returns (k: nat)
    ensures k <= |ret|
    ensures forall q :: 0 <= q < k ==> ret[q].a != off0 && ret[q].b < off1
    ensures k < |ret| ==> ret[k].a == off0 || ret[k].b >= off1
  {
    k := 0;
    while k < |ret|
      invariant k <= |ret|
      invariant forall q :: 0 <= q < k ==> ret[q].a != off0 && ret[q].b < off1
    {
      if ret[k].a == off0 || ret[k].b >= off1 {
        return;
      }
      k := k + 1;
    }
  }

  /** What the scan keeps about the pairs: they all start common substrings
      of length `z` ending within the first `rows` rows, go forward, start no
      later than row `rows - z`, and exist exactly when `z` reaches `min`. */
  predicate PairsKept(s: seq<char>, t: seq<char>, ret: seq<Pair>, z: int, rows: int, n: int, min: int)
  {
    && PairsCommon(s, t, ret, z, rows, n)
    && Increasing(ret)
    && (forall q :: 0 <= q < |ret| ==> ret[q].a <= rows - z)
    && (ret != [] <==> z >= min)
  }

  /** The part of the inner loop's body that follows a match at `s[i]`,
      `t[j]` whose common suffix has length `v`: a longer suffix becomes
      the new maximum and empties the pairs; a suffix of the maximum length,
      once it reaches `min`, is recorded unless a pair already starts on
      the same row or not before it in `t`. */
  method RecordMatch(s: seq<char>, t: seq<char>, i: nat, j: nat, n: nat, v: int, min: int,
                     z: int, ret: seq<Pair>, ghost za: int, ghost zb: int)
    returns (z': int, ret': seq<Pair>, ghost za': int, ghost zb': int)
    requires i < |s| && j < n <= |t| && min >= 1
    requires v == Suf(s, t, i + 1, j + 1) && v >= 1
    requires z >= 0 && (z > 0 ==> CommonAt(s, t, za, zb, z) && za + z <= i + 1 && zb + z <= n)
    requires PairsKept(s, t, ret, z, i + 1, n, min)
    ensures z' == if z < v then v else z
    ensures z' > 0 ==> CommonAt(s, t, za', zb', z') && za' + z' <= i + 1 && zb' + z' <= n
    ensures PairsKept(s, t, ret', z', i + 1, n, min)
  {
    SufIsCommon(s, t, i + 1, j + 1);
    z', ret', za', zb' := z, ret, za, zb;
    if z' < v {
      z' := v;
      ret' := [];
      za', zb' := i + 1 - v, j + 1 - v;
    }
    if z' == v && z' >= min {
      var off0 := i - z' + 1;
      var off1 := j - z' + 1;
      var k := FindClash(ret', off0, off1);
      if k == |ret'| {
        ret' := ret' + [Pair(off0, off1)];
      }
    }
  }

  /** One row of the programme, for `s[i]`: fills `lcurr` with the common
      suffix lengths of row `i + 1` from those of row `i` in `lprev`, and
      records the matches of the row. */
  method LcsRow(s: seq<char>, t: seq<char>, i: nat, n: nat, min: int, lprev: array<int>, lcurr: array<int>,
                z: int, ret: seq<Pair>, ghost za: int, ghost zb: int)
    returns (z': int, ret': seq<Pair>, ghost za': int, ghost zb': int)
    requires i < |s| && n <= |t| && min >= 1
    requires lprev != lcurr && lprev.Length == n + 1 && lcurr.Length == n + 1
    requires forall x :: 0 <= x <= n ==> lprev[x] == Suf(s, t, i, x)
    requires lcurr[0] == 0
    requires z >= 0 && RowsBelow(s, t, i, n, z)
    requires z > 0 ==> CommonAt(s, t, za, zb, z) && za + z <= i && zb + z <= n
    requires PairsKept(s, t, ret, z, i, n, min)
    modifies lcurr
    ensures forall x :: 0 <= x <= n ==> lcurr[x] == Suf(s, t, i + 1, x)
    ensures z' >= 0 && RowsBelow(s, t, i + 1, n, z')
    ensures z' > 0 ==> CommonAt(s, t, za', zb', z') && za' + z' <= i + 1 && zb' + z' <= n
    ensures PairsKept(s, t, ret', z', i + 1, n, min)
  {
    z', ret', za', zb' := z, ret, za, zb;
    ghost var row := i + 1;
    var j := 0;
    while j < n
      invariant 0 <= j <= n
      invariant lcurr[0] == 0
      invariant forall x :: 1 <= x <= j ==> lcurr[x] == Suf(s, t, row, x) <= z'
      invariant z' >= 0 && RowsBelow(s, t, i, n, z')
      invariant z' > 0 ==> CommonAt(s, t, za', zb', z') && za' + z' <= row && zb' + z' <= n
      invariant PairsKept(s, t, ret', z', row, n, min)
    {
      lcurr[j + 1] := 0;
      if s[i] == t[j] {
        var v := lprev[j] + 1;
        lcurr[j + 1] := v;
        z', ret', za', zb' := RecordMatch(s, t, i, j, n, v, min, z', ret', za', zb');
      }
      j := j + 1;
    }
  }

  /** lcsubstr on the first `m` characters of `s` and the first `n` of `t`:
      returns the length `z` of their longest common substrings and, when
      `z` reaches `min`, the pairs where such substrings start, one per row
      and going forward in both strings. Strings shorter than `min` are
      culled at once. */
  method LcSubstr(s: seq<char>, m: int, t: seq<char>, n: int, min: int) returns (z: int, ret: seq<Pair>)
    requires m <= |s| && n <= |t| && min >= 1
    ensures m < min || n < min ==> z == 0 && ret == []
    ensures z >= 0
    ensures z > 0 ==> exists a, b :: CommonAt(s, t, a, b, z) && a + z <= m && b + z <= n
    ensures m >= min && n >= min ==> Longest(s, t, m, n, z)
    ensures ret != [] <==> z >= min
    ensures PairsCommon(s, t, ret, z, m, n)
    ensures Increasing(ret)
  {
    z := 0;
    ret := [];
    if m < min || n < min {
      return;
    }
    var lprev := new int[n + 1](_ => 0);
    var lcurr := new int[n + 1](_ => 0);
    ghost var za, zb := 0, 0;
    var i := 0;
    while i < m
      invariant 0 <= i <= m
      invariant fresh(lprev) && fresh(lcurr)
      invariant lprev != lcurr && lprev.Length == n + 1 && lcurr.Length == n + 1
      invariant lprev[0] == 0
      invariant forall x :: 0 <= x <= n ==> lcurr[x] == Suf(s, t, i, x)
      invariant z >= 0 && RowsBelow(s, t, i, n, z)
      invariant z > 0 ==> CommonAt(s, t, za, zb, z) && za + z <= i && zb + z <= n
      invariant PairsKept(s, t, ret, z, i, n, min)
    {
      lprev, lcurr := lcurr, lprev;
      z, ret, za, zb := LcsRow(s, t, i, n, min, lprev, lcurr, z, ret, za, zb);
      i := i + 1;
    }
    LongestFromRows(s, t, m, n, z);
  }
}

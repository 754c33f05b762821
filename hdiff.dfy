module HorizontalDiff {
  import opened CommonSubstring

  datatype Side = Left | Right

  /** One side of a horizontal diff range: `len` characters from `off`. */
  datatype Range = Range(off: int, len: int)

  /** BRACKET: the pair of ranges, one per file, of one intra-line difference. */
  datatype Bracket = Bracket(left: Range, right: Range) {
    function Get(ord: Side): Range
    {
      if ord == Left then left else right
    }
  }

  predicate InRange(k: int, r: Range)
  {
    r.off <= k < r.off + r.len
  }

  /** Column `k` lies in some range of `hdiff` on side `ord`. */
  predicate Inside(k: int, hdiff: seq<Bracket>, ord: Side)
  {
    exists i :: 0 <= i < |hdiff| && InRange(k, hdiff[i].Get(ord))
  }

  /** is_inside: scans the ranges in order and stops at the first that holds `k`. */
  method IsInside(k: int, hdiff: seq<Bracket>, ord: Side) returns (r: bool)
    ensures r == Inside(k, hdiff, ord)
  {
    var i := 0;
    while i < |hdiff|
      invariant 0 <= i <= |hdiff|
      invariant forall q :: 0 <= q < i ==> !InRange(k, hdiff[q].Get(ord))
    {
      var b := hdiff[i].Get(ord);
      var start := b.off;
      var end := start + b.len;
      if k >= start && k < end {
        return true;
      }
      i := i + 1;
    }
    return false;
  }

  /** `x` starts no earlier and ends no later than `g` (either may be empty or
      have a negative length). */
  predicate WithinRange(x: Range, g: Range)
  {
    g.off <= x.off && x.off + x.len <= g.off + g.len
  }

  predicate Within(x: Bracket, b: Bracket)
  {
    WithinRange(x.left, b.left) && WithinRange(x.right, b.right)
  }

  /** Both ranges start inside their string and end no later than its end. */
  predicate Fits(s: seq<char>, t: seq<char>, b: Bracket)
  {
    0 <= b.left.off <= |s| && b.left.off + b.left.len <= |s|
    && 0 <= b.right.off <= |t| && b.right.off + b.right.len <= |t|
  }

  /** No column lies in both ranges. */
  predicate Disjoint(r1: Range, r2: Range)
  {
    r1.len <= 0 || r2.len <= 0 || r1.off + r1.len <= r2.off || r2.off + r2.len <= r1.off
  }

  predicate Apart(f: Bracket, x: Bracket)
  {
    Disjoint(f.left, x.left) && Disjoint(f.right, x.right)
  }

  /** `f` marks a common substring of length at least `min`. */
  predicate Matched(s: seq<char>, t: seq<char>, f: Bracket, min: int)
  {
    f.left.len == f.right.len >= min && CommonAt(s, t, f.left.off, f.right.off, f.left.len)
  }

  /** The two sides of `b` share a substring of length `min`. */
  ghost predicate HasCommon(s: seq<char>, t: seq<char>, b: Bracket, min: int)
  {
    exists a, c :: CommonAt(s, t, a, c, min) && WithinRange(Range(a, min), b.left) && WithinRange(Range(c, min), b.right)
  }

  /** The `k`-th stretch between the common substrings that start at `ret`
      (relative to `b`) and have length `z`: before the first for `k == 0`,
      after the last for `k == |ret|`. */
  function Gap(b: Bracket, ret: seq<Pair>, z: int, k: nat): Bracket
    requires 0 < |ret| && k <= |ret|
  {
    var l0 := if k == 0 then b.left.off else b.left.off + ret[k - 1].a + z;
    var r0 := if k == 0 then b.right.off else b.right.off + ret[k - 1].b + z;
    var l1 := if k == |ret| then b.left.off + b.left.len else b.left.off + ret[k].a;
    var r1 := if k == |ret| then b.right.off + b.right.len else b.right.off + ret[k].b;
    Bracket(Range(l0, l1 - l0), Range(r0, r1 - r0))
  }

  /** The common substring that starts at `p`, relative to `b`. */
  function PairBracket(b: Bracket, p: Pair, z: int): Bracket
  {
    Bracket(Range(b.left.off + p.a, z), Range(b.right.off + p.b, z))
  }

  /** The state hdiff_multi builds up: the ranges appended after `hdiff0`
      lie in `b`, fit the strings and end by `nl`, `nr`; the matched
      substrings lie in `b` and end by `fl`, `fr`; no appended range
      overlaps a matched substring. */
  predicate Progress(s: seq<char>, t: seq<char>, b: Bracket, min: int, hdiff0: seq<Bracket>, hdiff: seq<Bracket>,
                     found: seq<Bracket>, nl: int, nr: int, fl: int, fr: int)
  {
    && |hdiff0| <= |hdiff| && hdiff[..|hdiff0|] == hdiff0
    && (forall q :: |hdiff0| <= q < |hdiff| ==>
          Within(hdiff[q], b) && Fits(s, t, hdiff[q])
          && hdiff[q].left.off + hdiff[q].left.len <= nl && hdiff[q].right.off + hdiff[q].right.len <= nr)
    && (forall f :: f in found ==>
          Matched(s, t, f, min) && Within(f, b)
          && f.left.off + f.left.len <= fl && f.right.off + f.right.len <= fr)
    && (forall f, q :: f in found && |hdiff0| <= q < |hdiff| ==> Apart(f, hdiff[q]))
  }

  /** A common substring of the suffixes of `s` and `t` is one of `s` and `t`. */
  lemma ShiftCommon(s: seq<char>, t: seq<char>, o: int, p: int, a: int, c: int, l: int)
    requires 0 <= o <= |s| && 0 <= p <= |t| && 0 <= a && 0 <= c
    ensures CommonAt(s[o..], t[p..], a, c, l) <==> CommonAt(s, t, a + o, c + p, l)
  {
    if CommonAt(s[o..], t[p..], a, c, l) {
      forall x | a + o <= x < a + o + l
        ensures s[x] == t[x - (a + o) + (c + p)]
      {
        assert s[o..][x - o] == t[p..][x - o - a + c];
      }
    }
    if CommonAt(s, t, a + o, c + p, l) {
      forall x | a <= x < a + l
        ensures s[o..][x] == t[p..][x - a + c]
      {
        assert s[x + o] == t[x + o - (a + o) + (c + p)];
      }
    }
  }

  /** A pair found on the bracket's substrings marks a matched run inside the bracket. */
  lemma PairMatched(s: seq<char>, t: seq<char>, b: Bracket, min: int, z: int, q: Pair)
    requires Fits(s, t, b) && 1 <= min <= z
    requires CommonAt(s[b.left.off..], t[b.right.off..], q.a, q.b, z) && q.a + z <= b.left.len && q.b + z <= b.right.len
    ensures Matched(s, t, PairBracket(b, q, z), min) && Within(PairBracket(b, q, z), b)
  {
    ShiftCommon(s, t, b.left.off, b.right.off, q.a, q.b, z);
  }

  /** What lcsubstr promises, read on the bracket: it finds pairs exactly
      when the two sides share a substring of length `min`, and each pair
      starts one of its longest common substrings. */
  lemma PairsFromLcs(s: seq<char>, t: seq<char>, b: Bracket, min: int, z: int, ret: seq<Pair>)
    requires Fits(s, t, b) && min >= 1
    requires b.left.len < min || b.right.len < min ==> ret == []
    requires z > 0 ==> exists a, c :: CommonAt(s[b.left.off..], t[b.right.off..], a, c, z) && a + z <= b.left.len && c + z <= b.right.len
    requires b.left.len >= min && b.right.len >= min ==> Longest(s[b.left.off..], t[b.right.off..], b.left.len, b.right.len, z)
    requires ret != [] <==> z >= min
    requires PairsCommon(s[b.left.off..], t[b.right.off..], ret, z, b.left.len, b.right.len)
    ensures ret != [] <==> HasCommon(s, t, b, min)
    ensures forall q :: 0 <= q < |ret| ==> Matched(s, t, PairBracket(b, ret[q], z), min) && Within(PairBracket(b, ret[q], z), b)
  {
    forall q | 0 <= q < |ret|
      ensures Matched(s, t, PairBracket(b, ret[q], z), min) && Within(PairBracket(b, ret[q], z), b)
    {
      PairMatched(s, t, b, min, z, ret[q]);
    }
    if ret != [] {
      var f := PairBracket(b, ret[0], z);
      PairMatched(s, t, b, min, z, ret[0]);
      assert CommonAt(s, t, f.left.off, f.right.off, min);
    }
    if HasCommon(s, t, b, min) {
      CommonFound(s, t, b, min, z);
    }
  }

  /** A common substring of length `min` inside the bracket bounds from
      below the longest one lcsubstr reports. */
  lemma CommonFound(s: seq<char>, t: seq<char>, b: Bracket, min: int, z: int)
    requires Fits(s, t, b) && min >= 1 && HasCommon(s, t, b, min)
    requires b.left.len >= min && b.right.len >= min ==> Longest(s[b.left.off..], t[b.right.off..], b.left.len, b.right.len, z)
    ensures min <= z
  {
    var a, c :| CommonAt(s, t, a, c, min) && WithinRange(Range(a, min), b.left) && WithinRange(Range(c, min), b.right);
    ToSuffixes(s, t, b.left.off, b.right.off, a, c, min);
  }

  /** A common substring of `s` and `t` past `o` and `p` is one of their suffixes from there. */
  lemma ToSuffixes(s: seq<char>, t: seq<char>, o: int, p: int, a: int, c: int, l: int)
    requires 0 <= o <= a && 0 <= p <= c && CommonAt(s, t, a, c, l)
    ensures CommonAt(s[o..], t[p..], a - o, c - p, l)
  {
    forall x | a - o <= x < a - o + l
      ensures s[o..][x] == t[p..][x - (a - o) + (c - p)]
    {
      assert s[x + o] == t[x + o - a + c];
    }
  }

  /** Every stretch between the pairs fits the strings and lies in `b`. */
  lemma GapFits(s: seq<char>, t: seq<char>, b: Bracket, min: int, z: int, ret: seq<Pair>, k: nat)
    requires Fits(s, t, b) && z >= 1 && 0 < |ret| && k <= |ret|
    requires PairsCommon(s[b.left.off..], t[b.right.off..], ret, z, b.left.len, b.right.len) && Increasing(ret)
    ensures Fits(s, t, Gap(b, ret, z, k)) && Within(Gap(b, ret, z, k), b)
  {
    if k > 0 {
      assert CommonAt(s[b.left.off..], t[b.right.off..], ret[k - 1].a, ret[k - 1].b, z);
    }
    if k < |ret| {
      assert CommonAt(s[b.left.off..], t[b.right.off..], ret[k].a, ret[k].b, z);
    }
  }

  /** Appending the result of the recursive call for `g`, a bracket that
      starts after everything recorded so far, keeps the state. */
  lemma Extend(s: seq<char>, t: seq<char>, b: Bracket, min: int, hdiff0: seq<Bracket>, hdiff: seq<Bracket>,
               found: seq<Bracket>, nl: int, nr: int, fl: int, fr: int,
               g: Bracket, hdiff': seq<Bracket>, found': seq<Bracket>, nl': int, nr': int, fl': int, fr': int)
    requires Progress(s, t, b, min, hdiff0, hdiff, found, nl, nr, fl, fr)
    requires Within(g, b) && nl <= g.left.off && nr <= g.right.off && fl <= g.left.off && fr <= g.right.off
    requires nl <= nl' && nr <= nr' && fl <= fl' && fr <= fr'
    requires g.left.off + g.left.len <= nl' && g.right.off + g.right.len <= nr'
    requires g.left.off + g.left.len <= fl' && g.right.off + g.right.len <= fr'
    requires Progress(s, t, g, min, hdiff, hdiff', found', g.left.off + g.left.len, g.right.off + g.right.len,
                      g.left.off + g.left.len, g.right.off + g.right.len)
    ensures Progress(s, t, b, min, hdiff0, hdiff', found + found', nl', nr', fl', fr')
  {
    assert hdiff'[..|hdiff0|] == hdiff'[..|hdiff|][..|hdiff0|];
    forall q | |hdiff0| <= q < |hdiff|
      ensures hdiff'[q] == hdiff[q]
    {
      assert hdiff'[q] == hdiff'[..|hdiff|][q];
    }
  }

  /** Recording the pair that follows the stretch just scanned keeps the state. */
  lemma AddPair(s: seq<char>, t: seq<char>, b: Bracket, min: int, hdiff0: seq<Bracket>, hdiff: seq<Bracket>,
                found: seq<Bracket>, nl: int, nr: int, fl: int, fr: int, f: Bracket)
    requires Progress(s, t, b, min, hdiff0, hdiff, found, nl, nr, fl, fr)
    requires Matched(s, t, f, min) && Within(f, b)
    requires nl <= f.left.off && nr <= f.right.off && fl <= f.left.off + f.left.len && fr <= f.right.off + f.right.len
    ensures Progress(s, t, b, min, hdiff0, hdiff, found + [f], nl, nr, f.left.off + f.left.len, f.right.off + f.right.len)
  {
  }

  function At(p: Pair, ord: Side): int
  {
    if ord == Left then p.a else p.b
  }

  /** Where the appended ranges end once the stretches before pair `k` are
      scanned (all of `b` for `k == |ret| + 1`). */
  function NewsEnd(b: Bracket, ret: seq<Pair>, k: nat, ord: Side): int
    requires k <= |ret| + 1
  {
    var r := b.Get(ord);
    if k == 0 then r.off else if k <= |ret| then r.off + At(ret[k - 1], ord) else r.off + r.len
  }

  /** Where the matched substrings end once pairs before `k` are recorded. */
  function FoundEnd(b: Bracket, ret: seq<Pair>, z: int, k: nat, ord: Side): int
    requires k <= |ret| + 1
  {
    var r := b.Get(ord);
    if k == 0 then r.off else if k <= |ret| then r.off + At(ret[k - 1], ord) + z else r.off + r.len
  }

  /** What lcsubstr found in `b`: pairs of common substrings of length
      `z >= min`, going forward, fitting `b`. */
  predicate Stretches(s: seq<char>, t: seq<char>, b: Bracket, min: int, z: int, ret: seq<Pair>)
  {
    && Fits(s, t, b) && min >= 1 && z >= min && 0 < |ret|
    && PairsCommon(s[b.left.off..], t[b.right.off..], ret, z, b.left.len, b.right.len) && Increasing(ret)
    && forall q :: 0 <= q < |ret| ==> Matched(s, t, PairBracket(b, ret[q], z), min) && Within(PairBracket(b, ret[q], z), b)
  }

  predicate Stage(s: seq<char>, t: seq<char>, b: Bracket, min: int, z: int, ret: seq<Pair>,
                  hdiff0: seq<Bracket>, hdiff: seq<Bracket>, found: seq<Bracket>, k: nat)
    requires k <= |ret| + 1
  {
    Progress(s, t, b, min, hdiff0, hdiff, found, NewsEnd(b, ret, k, Left), NewsEnd(b, ret, k, Right),
             FoundEnd(b, ret, z, k, Left), FoundEnd(b, ret, z, k, Right))
  }

  /** One stretch of hdiff_multi's scan: the recursive call on the `k`-th
      stretch, which then records the pair that follows it. */
  method ScanStretch(s: seq<char>, t: seq<char>, b: Bracket, min: int, z: int, ret: seq<Pair>, k: nat,
                     hdiff0: seq<Bracket>, hdiff: seq<Bracket>, ghost found: seq<Bracket>, depth: nat)
    returns (hdiff': seq<Bracket>, ghost found': seq<Bracket>)
    requires Stretches(s, t, b, min, z, ret) && k <= |ret|
    requires Stage(s, t, b, min, z, ret, hdiff0, hdiff, found, k)
    ensures |hdiff| < |hdiff'|
    ensures Stage(s, t, b, min, z, ret, hdiff0, hdiff', found', k + 1)
    ensures |found| <= |found'| && (k < |ret| ==> found' != [])
    decreases depth, 1
  {
    var g := Gap(b, ret, z, k);
    GapFits(s, t, b, min, z, ret, k);
    ghost var found2;
    hdiff', found2 := HdiffMulti(s, t, g, min, hdiff, depth);
    if k < |ret| {
      ghost var f := PairBracket(b, ret[k], z);
      Extend(s, t, b, min, hdiff0, hdiff, found, NewsEnd(b, ret, k, Left), NewsEnd(b, ret, k, Right),
             FoundEnd(b, ret, z, k, Left), FoundEnd(b, ret, z, k, Right), g, hdiff', found2,
             f.left.off, f.right.off, f.left.off + z, f.right.off + z);
      AddPair(s, t, b, min, hdiff0, hdiff', found + found2, f.left.off, f.right.off, f.left.off + z, f.right.off + z, f);
      found' := found + found2 + [f];
    } else {
      Extend(s, t, b, min, hdiff0, hdiff, found, NewsEnd(b, ret, k, Left), NewsEnd(b, ret, k, Right),
             FoundEnd(b, ret, z, k, Left), FoundEnd(b, ret, z, k, Right), g, hdiff', found2,
             b.left.off + b.left.len, b.right.off + b.right.len, b.left.off + b.left.len, b.right.off + b.right.len);
      found' := found + found2;
    }
  }

  /** The scan of hdiff_multi once lcsubstr has found pairs: the stretch
      before the first pair, those between consecutive pairs, and the one
      after the last, in this order. */
  method ScanStretches(s: seq<char>, t: seq<char>, b: Bracket, min: int, z: int, ret: seq<Pair>,
                       hdiff0: seq<Bracket>, depth: nat)
    returns (hdiff: seq<Bracket>, ghost found: seq<Bracket>)
    requires Stretches(s, t, b, min, z, ret)
    ensures |hdiff| >= |hdiff0| + 2 && found != []
    ensures Stage(s, t, b, min, z, ret, hdiff0, hdiff, found, |ret| + 1)
    decreases depth, 2
  {
    hdiff, found := ScanStretch(s, t, b, min, z, ret, 0, hdiff0, hdiff0, [], depth);
    var k := 0;
    while k < |ret| - 1
      invariant 0 <= k <= |ret| - 1
      invariant |hdiff0| < |hdiff| && found != []
      invariant Stage(s, t, b, min, z, ret, hdiff0, hdiff, found, k + 1)
    {
      hdiff, found := ScanStretch(s, t, b, min, z, ret, k + 1, hdiff0, hdiff, found, depth);
      k := k + 1;
    }
    hdiff, found := ScanStretch(s, t, b, min, z, ret, |ret|, hdiff0, hdiff, found, depth);
  }

  /** hdiff_multi: the ranges of `b` that differ, appended to `hdiff0`. With
      recursion depth left, the longest common substrings of the two sides
      (at least `min` long) are looked up; the stretches before, between and
      after them are scanned again one level deeper; a bracket with no
      depth left or no such substring is appended whole. The ghost `found`
      collects the common substrings matched on the way. */
  method HdiffMulti(s: seq<char>, t: seq<char>, b: Bracket, min: int, hdiff0: seq<Bracket>, depth: nat)
    returns (hdiff: seq<Bracket>, ghost found: seq<Bracket>)
    requires Fits(s, t, b) && min >= 1
    ensures |hdiff0| < |hdiff|
    ensures Progress(s, t, b, min, hdiff0, hdiff, found, b.left.off + b.left.len, b.right.off + b.right.len,
                     b.left.off + b.left.len, b.right.off + b.right.len)
    ensures depth == 0 || !HasCommon(s, t, b, min) ==> hdiff == hdiff0 + [b] && found == []
    ensures depth > 0 && HasCommon(s, t, b, min) ==> found != [] && |hdiff| >= |hdiff0| + 2
    decreases depth, 0
  {
    if depth != 0 {
      var z, ret := LcSubstr(s[b.left.off..], b.left.len, t[b.right.off..], b.right.len, min);
      PairsFromLcs(s, t, b, min, z, ret);
      if ret != [] {
        hdiff, found := ScanStretches(s, t, b, min, z, ret, hdiff0, depth - 1);
        return;
      }
    }
    hdiff := hdiff0 + [b];
    found := [];
  }

  /** Reading the state as highlighting: no column outside `b`, and no
      column of a matched substring, lies in an appended range. */
  lemma NotHighlighted(s: seq<char>, t: seq<char>, b: Bracket, min: int, hdiff0: seq<Bracket>, hdiff: seq<Bracket>,
                       found: seq<Bracket>)
    requires Progress(s, t, b, min, hdiff0, hdiff, found, b.left.off + b.left.len, b.right.off + b.right.len,
                      b.left.off + b.left.len, b.right.off + b.right.len)
    ensures forall c :: !InRange(c, b.left) ==> !Inside(c, hdiff[|hdiff0|..], Left)
    ensures forall c :: !InRange(c, b.right) ==> !Inside(c, hdiff[|hdiff0|..], Right)
    ensures forall f, c :: f in found && InRange(c, f.left) ==> !Inside(c, hdiff[|hdiff0|..], Left)
    ensures forall f, c :: f in found && InRange(c, f.right) ==> !Inside(c, hdiff[|hdiff0|..], Right)
  {
    var news := hdiff[|hdiff0|..];
    assert forall i :: 0 <= i < |news| ==> news[i] == hdiff[|hdiff0| + i];
  }

  /** The bracket hdiff_scan hands to hdiff_multi: what is left of the
      first `m` and `n` characters once the common prefix of length `pre`
      and the common suffix of length `suf` are cut off. */
  function Middle(m: int, n: int, pre: int, suf: int): Bracket
  {
    Bracket(Range(pre, m - suf - pre), Range(pre, n - suf - pre))
  }

  /** hdiff_scan: cuts off the longest common prefix and then the longest
      common suffix of the first `m` characters of `s` and the first `n`
      of `t`, and hands the rest to hdiff_multi. */
  method HdiffScan(s: seq<char>, m: int, t: seq<char>, n: int, min: int, hdiff0: seq<Bracket>, depth: nat)
    returns (hdiff: seq<Bracket>, ghost pre: int, ghost suf: int, ghost found: seq<Bracket>)
    requires 0 <= m <= |s| && 0 <= n <= |t| && min >= 1
    ensures 0 <= pre && 0 <= suf && pre + suf <= m && pre + suf <= n
    ensures forall x :: 0 <= x < pre ==> s[x] == t[x]
    ensures pre == m || pre == n || s[pre] != t[pre]
    ensures forall x :: m - suf <= x < m ==> s[x] == t[x - m + n]
    ensures pre + suf == m || pre + suf == n || s[m - suf - 1] != t[n - suf - 1]
    ensures |hdiff0| < |hdiff|
    ensures Progress(s, t, Middle(m, n, pre, suf), min, hdiff0, hdiff, found, m - suf, n - suf, m - suf, n - suf)
    ensures forall c :: 0 <= c < pre || m - suf <= c < m ==> !Inside(c, hdiff[|hdiff0|..], Left)
    ensures forall c :: 0 <= c < pre || n - suf <= c < n ==> !Inside(c, hdiff[|hdiff0|..], Right)
    ensures forall f, c :: f in found && InRange(c, f.left) ==> !Inside(c, hdiff[|hdiff0|..], Left)
    ensures forall f, c :: f in found && InRange(c, f.right) ==> !Inside(c, hdiff[|hdiff0|..], Right)
    ensures depth == 0 || !HasCommon(s, t, Middle(m, n, pre, suf), min) ==> hdiff == hdiff0 + [Middle(m, n, pre, suf)]
  {
    var i := 0;
    while i < m && i < n && s[i] == t[i]
      invariant 0 <= i <= m && i <= n
      invariant forall x :: 0 <= x < i ==> s[x] == t[x]
    {
      i := i + 1;
    }
    var m', n' := m, n;
    while m' > i && n' > i && s[m' - 1] == t[n' - 1]
      invariant i <= m' <= m && i <= n' <= n && m - m' == n - n'
      invariant forall x :: m' <= x < m ==> s[x] == t[x - m + n]
    {
      m', n' := m' - 1, n' - 1;
    }
    pre, suf := i, m - m';
    var b := Bracket(Range(i, m' - i), Range(i, n' - i));
    assert b == Middle(m, n, pre, suf);
    hdiff, found := HdiffMulti(s, t, b, min, hdiff0, depth);
    NotHighlighted(s, t, b, min, hdiff0, hdiff, found);
  }
}

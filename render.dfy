/** Line rendering of the diff viewer: tab stops, tab expansion into
    fixed-size buffers, and the padded display line with its attribute row. */
module Render {
  /** The remainder of a non-negative dividend, by repeated subtraction. */
  function Rem(a: nat, b: int): (r: nat)
    requires b > 0
    ensures r < b
    decreases a
  {
    if a < b then a else Rem(a - b, b)
  }

  /** Adding less than what is left to the next multiple just adds to the remainder. */
  lemma {:induction false} RemAdd(a: nat, d: nat, b: int)
    requires b > 0 && Rem(a, b) + d < b
    ensures Rem(a + d, b) == Rem(a, b) + d
  {
    if a >= b {
      RemAdd(a - b, d, b);
      assert a + d - b == (a - b) + d;
    }
  }

  /** Adding the divisor does not change the remainder. */
  lemma {:induction false} RemShift(a: nat, b: int)
    requires b > 0
    ensures Rem(a + b, b) == Rem(a, b)
  {
  }

  /** C's `%` for a positive divisor: it truncates toward zero, so the
      remainder takes the sign of the dividend. */
  function CRem(a: int, b: int): (r: int)
    requires b > 0
    ensures -b < r < b
    ensures a >= 0 ==> 0 <= r
    ensures a < 0 ==> r <= 0
  {
    if a >= 0 then Rem(a, b) else 0 - Rem(-a, b)
  }

  function Min(a: int, b: int): int
  {
    if a < b then a else b
  }

  /** The tab width the viewer uses: the configured size when it is 1..8, otherwise 8. */
  function TabWidth(ts: int): (w: int)
    ensures 1 <= w <= 8
  {
    if 0 < ts < 9 then ts else 8
  }

  /** Column `c` is a tab stop when it is a multiple of the tab width `w`. */
  predicate IsTabStop(c: nat, w: int)
    requires w > 0
  {
    Rem(c, w) == 0
  }

  /** TAB_SKIP: how many columns a tab at column `pos` covers. */
  function TabSkip(ts: int, pos: int): (r: int)
    ensures 1 <= r
  {
    if 0 < ts < 9 then ts - CRem(pos, ts) else 8 - CRem(pos, 8)
  }

  /** From a non-negative column a tab covers 1..w columns and ends on the
      first tab stop after `pos`, w being the effective tab width. */
  lemma TabSkipReachesNextStop(ts: int, pos: nat)
    ensures TabSkip(ts, pos) <= TabWidth(ts)
    ensures IsTabStop(pos + TabSkip(ts, pos), TabWidth(ts))
    ensures forall c :: pos < c < pos + TabSkip(ts, pos) ==> !IsTabStop(c, TabWidth(ts))
  {
    var w := TabWidth(ts);
    var r := TabSkip(ts, pos);
    assert r == w - Rem(pos, w);
    TabSkipEndsOnStop(pos, w);
    forall c | pos < c < pos + r
      ensures !IsTabStop(c, w)
    {
      RemAdd(pos, c - pos, w);
    }
  }

  lemma {:induction false} TabSkipEndsOnStop(pos: nat, w: int)
    requires w > 0
    ensures Rem(pos + (w - Rem(pos, w)), w) == 0
  {
    if pos < w {
      assert pos + (w - Rem(pos, w)) == w;
      RemShift(0, w);
    } else {
      TabSkipEndsOnStop(pos - w, w);
      RemShift(pos - w + (w - Rem(pos - w, w)), w);
    }
  }

  function Spaces(n: nat): (r: seq<char>)
    ensures |r| == n
    ensures forall k :: 0 <= k < n ==> r[k] == ' '
  {
    if n == 0 then [] else [' '] + Spaces(n - 1)
  }

  /** What one source byte at column `col` becomes in the expanded line. */
  function Piece(c: char, col: int, ts: int): seq<char>
  {
    if c == '\t' then Spaces(TabSkip(ts, col)) else [c]
  }

  /** The line `src`, starting at virtual column `col`, with every tab
      replaced by the spaces up to the next tab stop. */
  function ExpandTabs(src: seq<char>, col: int, ts: int): seq<char>
  {
    if src == [] then []
    else
      var p := Piece(src[0], col, ts);
      p + ExpandTabs(src[1..], col + |p|, ts)
  }

  lemma {:induction false} ExpandTabsSplit(a: seq<char>, b: seq<char>, col: int, ts: int)
    ensures ExpandTabs(a + b, col, ts)
         == ExpandTabs(a, col, ts) + ExpandTabs(b, col + |ExpandTabs(a, col, ts)|, ts)
    decreases |a|
  {
    if a == [] {
      assert a + b == b;
    } else {
      var p := Piece(a[0], col, ts);
      var ab := a + b;
      assert ab != [] && ab[0] == a[0];
      assert ab[1..] == a[1..] + b;
      ExpandTabsSplit(a[1..], b, col + |p|, ts);
    }
  }

  /** Expansion never grows shorter than its source and leaves no tab behind. */
  lemma {:induction false} ExpandTabsShape(src: seq<char>, col: int, ts: int)
    ensures |ExpandTabs(src, col, ts)| >= |src|
    ensures '\t' !in ExpandTabs(src, col, ts)
  {
    if src != [] {
      ExpandTabsShape(src[1..], col + |Piece(src[0], col, ts)|, ts);
    }
  }

  /** A line without tabs is copied unchanged. */
  lemma {:induction false} ExpandTabsIdentity(src: seq<char>, col: int, ts: int)
    requires '\t' !in src
    ensures ExpandTabs(src, col, ts) == src
  {
    if src != [] {
      assert src == [src[0]] + src[1..];
      ExpandTabsIdentity(src[1..], col + 1, ts);
    }
  }

  /** From a non-negative column, every tab of the source ends on a tab stop:
      the expansion of a line that ends with a tab reaches a tab stop. */
  lemma ExpandTabsEndsOnStop(pre: seq<char>, col: nat, ts: int)
    ensures IsTabStop(col + |ExpandTabs(pre + ['\t'], col, ts)|, TabWidth(ts))
  {
    ExpandTabsSplit(pre, ['\t'], col, ts);
    var c := col + |ExpandTabs(pre, col, ts)|;
    ExpandTabsShape(pre, col, ts);
    TabSkipReachesNextStop(ts, c);
    assert ExpandTabs(['\t'], c, ts) == Spaces(TabSkip(ts, c)) + ExpandTabs([], c + TabSkip(ts, c), ts);
  }

  /** fill_by_space: `n` spaces at `at`, and a NUL after them when asked. */
  method FillBySpace(buf: array<char>, at: nat, n: nat, zeroTerminate: bool)
    requires at + n + (if zeroTerminate then 1 else 0) <= buf.Length
    modifies buf
    ensures forall k :: at <= k < at + n ==> buf[k] == ' '
    ensures zeroTerminate ==> buf[at + n] == '\0'
    ensures forall k :: 0 <= k < buf.Length && !(at <= k < at + n + (if zeroTerminate then 1 else 0)) ==> buf[k] == old(buf[k])
  {
    forall k | at <= k < at + n {
      buf[k] := ' ';
    }
    if zeroTerminate {
      buf[at + n] := '\0';
    }
  }

  /** One step of the copy loops: `*dst = *src`, and for a tab the `n`
      columns up to the next stop (or up to the buffer's end) become spaces.
      The `i` bytes already written at `at` agree with the expansion `e`,
      and so do the `n` written here; the rest of `dst` stays `orig`. */
  method PutPiece(dst: array<char>, at: nat, i: nat, c: char, n: nat, ghost e: seq<char>, ghost orig: seq<char>)
    requires at + i + n <= dst.Length && i + n <= |e| && |orig| == dst.Length
    requires c != '\t' ==> n == 1
    requires c == '\t' ==> n >= 1
    requires forall k :: i <= k < i + n ==> e[k] == (if c == '\t' then ' ' else c)
    requires forall k :: 0 <= k < i ==> dst[at + k] == e[k]
    requires forall k :: 0 <= k < dst.Length && !(at <= k < at + i) ==> dst[k] == orig[k]
    modifies dst
    ensures forall k :: 0 <= k < i + n ==> dst[at + k] == e[k]
    ensures forall k :: 0 <= k < dst.Length && !(at <= k < at + i + n) ==> dst[k] == orig[k]
  {
    dst[at + i] := c;
    if c == '\t' {
      FillBySpace(dst, at + i, n, false);
    }
  }

  /** cvt_cpy: copies all of `src` into `dst` from index `at`, expanding tabs
      relative to the virtual column `base`, and returns the new virtual column. */
  method CvtCpy(dst: array<char>, at: nat, src: seq<char>, base: int, ts: int) returns (r: int)
    requires at + |ExpandTabs(src, base, ts)| <= dst.Length
    modifies dst
    ensures r == base + |ExpandTabs(src, base, ts)|
    ensures forall k :: 0 <= k < r - base ==> dst[at + k] == ExpandTabs(src, base, ts)[k]
    ensures forall k :: 0 <= k < dst.Length && !(at <= k < r - base + at) ==> dst[k] == old(dst[k])
  {
    ghost var orig := dst[..];
    ghost var all := ExpandTabs(src, base, ts);
    ghost var out: seq<char> := [];
    var i := 0;
    var si := 0;
    while si < |src|
      invariant 0 <= si <= |src|
      invariant out == ExpandTabs(src[..si], base, ts)
      invariant i == |out| <= |all|
      invariant forall k :: 0 <= k < i ==> dst[at + k] == out[k]
      invariant forall k :: 0 <= k < dst.Length && !(at <= k < at + i) ==> dst[k] == orig[k]
    {
      ExpandTabsSnoc(src, si, base, ts);
      ExpandTabsPrefix(src, si + 1, base, ts);
      out := ExpandTabs(src[..si + 1], base, ts);
      var w := if src[si] == '\t' then TabSkip(ts, i + base) else 1;
      PutPiece(dst, at, i, src[si], w, out, orig);
      i := i + w;
      si := si + 1;
    }
    assert src[..si] == src;
    r := i + base;
  }

  /** Appending one source byte appends its piece at the column reached so far. */
  lemma ExpandTabsSnoc(src: seq<char>, si: nat, base: int, ts: int)
    requires si < |src|
    ensures var pre := ExpandTabs(src[..si], base, ts);
      var e1 := ExpandTabs(src[..si + 1], base, ts);
      && |e1| == |pre| + (if src[si] == '\t' then TabSkip(ts, |pre| + base) else 1)
      && (forall k :: 0 <= k < |pre| ==> e1[k] == pre[k])
      && (forall k :: |pre| <= k < |e1| ==> e1[k] == (if src[si] == '\t' then ' ' else src[si]))
  {
    assert src[..si + 1] == src[..si] + [src[si]];
    ExpandTabsSplit(src[..si], [src[si]], base, ts);
    var c := base + |ExpandTabs(src[..si], base, ts)|;
    assert ExpandTabs([src[si]], c, ts) == Piece(src[si], c, ts) + ExpandTabs([], c + |Piece(src[si], c, ts)|, ts);
  }

  /** The expansion of a prefix is a prefix of the expansion. */
  lemma ExpandTabsPrefix(src: seq<char>, n: nat, base: int, ts: int)
    requires n <= |src|
    ensures ExpandTabs(src, base, ts) == ExpandTabs(src[..n], base, ts)
            + ExpandTabs(src[n..], base + |ExpandTabs(src[..n], base, ts)|, ts)
    ensures n < |src| ==> |ExpandTabs(src[..n], base, ts)| < |ExpandTabs(src, base, ts)|
  {
    assert src == src[..n] + src[n..];
    ExpandTabsSplit(src[..n], src[n..], base, ts);
    if n < |src| {
      ExpandTabsShape(src[n..], base + |ExpandTabs(src[..n], base, ts)|, ts);
    }
  }

  /** cvt_ncpy: like cvt_cpy, but writes at most `dstsize` bytes; a tab that
      crosses the end of the buffer is cut there. Returns the new virtual
      column and how many source bytes were consumed. */
  method CvtNcpy(dst: array<char>, at: nat, dstsize: int, src: seq<char>, base: int, ts: int)
    returns (r: int, consumed: nat)
    requires at + (if dstsize > 0 then dstsize else 0) <= dst.Length
    modifies dst
    ensures consumed <= |src|
    ensures dstsize <= 0 ==> consumed == 0 && r == base
    ensures dstsize > 0 ==> r - base == Min(dstsize, |ExpandTabs(src[..consumed], base, ts)|)
    ensures forall k :: 0 <= k < r - base ==> dst[at + k] == ExpandTabs(src[..consumed], base, ts)[k]
    ensures forall k :: 0 <= k < dst.Length && !(at <= k < at + r - base) ==> dst[k] == old(dst[k])
    // it stops only when the source is used up or the buffer is full
    ensures dstsize > 0 ==> consumed == |src| || r - base == dstsize
    // and it consumes no byte that starts past the end of the buffer
    ensures consumed > 0 ==> |ExpandTabs(src[..consumed - 1], base, ts)| < dstsize
    // when the whole expansion fits, it is cvt_cpy
    ensures |ExpandTabs(src, base, ts)| <= dstsize ==> consumed == |src| && r == base + |ExpandTabs(src, base, ts)|
  {
    ghost var orig := dst[..];
    ghost var out: seq<char> := [];
    var i := 0;
    var si := 0;
    while i < dstsize && si < |src|
      invariant 0 <= si <= |src|
      invariant out == ExpandTabs(src[..si], base, ts)
      invariant dstsize <= 0 ==> i == 0 && si == 0
      invariant 0 <= i <= |out|
      invariant i < |out| ==> i == dstsize
      invariant dstsize > 0 ==> i <= dstsize
      invariant si > 0 ==> |ExpandTabs(src[..si - 1], base, ts)| < dstsize
      invariant forall k :: 0 <= k < i ==> dst[at + k] == out[k]
      invariant forall k :: 0 <= k < dst.Length && !(at <= k < at + i) ==> dst[k] == orig[k]
    {
      ExpandTabsSnoc(src, si, base, ts);
      out := ExpandTabs(src[..si + 1], base, ts);
      var w := if src[si] == '\t' then TabSkip(ts, i + base) else 1;
      if w > dstsize - i {
        w := dstsize - i;
      }
      PutPiece(dst, at, i, src[si], w, out, orig);
      i := i + w;
      si := si + 1;
    }
    ExpandTabsShape(src[..si], base, ts);
    if si < |src| {
      ExpandTabsPrefix(src, si, base, ts);
    } else {
      assert src[..si] == src;
    }
    r := i + base;
    consumed := si;
  }
}

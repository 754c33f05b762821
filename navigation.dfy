/** Navigation over the two aligned row arrays of the diff viewer: the width
    of the line-number column, the line number shown for a row, moving to the
    previous and next hunk, the extent of the hunk under the cursor, and the
    split between the two panels. */
module Navigation {
  import opened Wrappers
  import opened DiffCommands

  /** The row kinds written by the diff parser. */
  const ADD_CH: char := '+'
  const DEL_CH: char := '-'
  const CHG_CH: char := '*'
  const EQU_CH: char := ' '

  const UINT_MAX: nat := 0xFFFF_FFFF

  /** DIFFLN: one display row; `line` is the file's line number (0 on the
      padding rows of the shorter side) and `ch` the row kind. */
  datatype Row = Row(line: int, ch: char)

  /** Rows `lo` up to (not including) `hi` are all equal rows (`equ`) or all
      changed rows (`!equ`). */
  ghost predicate Run(a: seq<Row>, lo: int, hi: int, equ: bool)
  {
    forall k :: lo <= k < hi && 0 <= k < |a| ==> (a[k].ch == EQU_CH) == equ
  }

  /** Row `k` opens a hunk: it is a changed row right after an equal one. */
  ghost predicate HunkStart(a: seq<Row>, k: int)
  {
    0 < k < |a| && a[k - 1].ch == EQU_CH && a[k].ch != EQU_CH
  }

  function Max(a: int, b: int): int
  {
    if a < b then b else a
  }

  // ---------------------------------------------------------------------
  // get_digits

  /** A numeral of `|Show(n)|` digits: at least 10^(d-1) unless it is a
      single digit, and below 10^d. */
  lemma {:induction false} ShowBounds(n: nat)
    ensures n < Pow10(|Show(n)|)
    ensures |Show(n)| == 1 || Pow10(|Show(n)| - 1) <= n
    decreases n
  {
    if n >= 10 {
      ShowBounds(n / 10);
      assert |Show(n)| == |Show(n / 10)| + 1;
    }
  }

  /** get_digits: the number of decimal digits of an `unsigned int`, which
      is the width printf gives it. */
  method GetDigits(n: nat) returns (d: int)
    requires n <= UINT_MAX
    ensures d == |Show(n)|
    ensures n < Pow10(d) && (d == 1 || Pow10(d - 1) <= n)
  {
    d := 1;
    var m: nat := n / 10;
    while m != 0
      invariant 1 <= d
      invariant m == 0 ==> d == |Show(n)|
      invariant m > 0 ==> d + |Show(m)| == |Show(n)|
      decreases m
    {
      d := d + 1;
      m := m / 10;
    }
    ShowBounds(n);
  }

  // ---------------------------------------------------------------------
  // get_line_numbers

  /** The row the cursor `pos` stands for in a non-empty array: `pos`
      itself, or the last row when `pos` lies past the end. */
  function ClampRow(pos: nat, len: nat): (at: nat)
    requires 0 < len
    ensures at < len
    ensures pos < len ==> at == pos
  {
    if pos >= len then len - 1 else pos
  }

  /** `linenum` and `lineofs` describe row `at`: its own line number with
      offset 0 when it has one; otherwise the line number of the nearest
      earlier numbered row and the distance back to it, or 0 and `at + 1`
      when no row up to `at` carries a number. */
  ghost predicate NearestNumbered(a: seq<Row>, at: nat, linenum: int, lineofs: int)
    requires at < |a|
  {
    && (a[at].line != 0 ==> linenum == a[at].line && lineofs == 0)
    && (a[at].line == 0 ==>
          && 1 <= lineofs <= at + 1
          && (forall k :: at - lineofs < k <= at ==> a[k].line == 0)
          && (lineofs <= at ==> a[at - lineofs].line != 0 && linenum == a[at - lineofs].line)
          && (lineofs == at + 1 ==> linenum == 0))
  }

  /** get_line_numbers: the line number to print beside row `pos` (clamped
      to the last row), and how many rows below that numbered row it is. */
  method GetLineNumbers(a: seq<Row>, pos: nat) returns (linenum: int, lineofs: int)
    ensures |a| == 0 ==> linenum == 0 && lineofs == 0
    ensures |a| > 0 ==> NearestNumbered(a, ClampRow(pos, |a|), linenum, lineofs)
  {
    linenum, lineofs := 0, 0;
    if |a| != 0 {
      var at := pos;
      if at >= |a| {
        at := |a| - 1;
      }
      var p := at;
      if a[p].line == 0 {
        var n := at;
        while n > 0
          invariant 0 <= n <= at && p == n
          invariant forall k :: n <= k <= at ==> a[k].line == 0
        {
          p := p - 1;
          if a[p].line != 0 {
            break;
          }
          n := n - 1;
        }
        lineofs := at - n + 1;
      }
      linenum := a[p].line;
    }
  }

  // ---------------------------------------------------------------------
  // find_next_hunk and find_prev_hunk

  /** find_next_hunk: from `pos`, skip the rest of the current hunk and the
      equal rows after it; the result is the first row of the next hunk, or
      the end of the array when there is none. */
  method FindNextHunk(a: seq<Row>, pos: nat) returns (r: nat)
    ensures pos <= r
    ensures pos < |a| ==> r <= |a|
    ensures pos >= |a| ==> r == pos
    ensures r < |a| ==> pos < r && HunkStart(a, r)
    ensures forall i, j :: pos <= i < j < r ==> !(a[i].ch == EQU_CH && a[j].ch != EQU_CH)
  {
    r := pos;
    while r < |a| && a[r].ch != EQU_CH
      invariant pos <= r && (pos < |a| ==> r <= |a|) && (pos >= |a| ==> r == pos)
      invariant Run(a, pos, r, false)
    {
      r := r + 1;
    }
    ghost var m := r;
    while r < |a| && a[r].ch == EQU_CH
      invariant m <= r && (pos < |a| ==> r <= |a|) && (pos >= |a| ==> r == pos)
      invariant Run(a, pos, m, false) && Run(a, m, r, true)
      invariant m < |a| ==> a[m].ch == EQU_CH
    {
      r := r + 1;
    }
  }

  /** find_prev_hunk: from the row `pos`, skip back over the current hunk,
      the equal rows before it and the hunk before those, and return that
      hunk's first row. When the walk reaches the top the result is 0, so a
      hunk that opens at row 1 is reported as row 0. */
  method FindPrevHunk(a: seq<Row>, pos: int) returns (r: int)
    requires pos <= 0 || pos < |a|
    ensures pos <= 0 ==> r == pos
    ensures pos > 0 ==> 0 <= r <= pos
    ensures r > 0 ==> HunkStart(a, r) && exists k :: r < k <= pos && a[k].ch == EQU_CH
    ensures pos > 0 ==> forall k :: Max(r, 1) < k <= pos && HunkStart(a, k) ==> Run(a, k, pos + 1, false)
  {
    r := pos;
    while r > 0 && a[r].ch != EQU_CH
      invariant r <= pos && (pos > 0 ==> 0 <= r) && (pos <= 0 ==> r == pos)
      invariant Run(a, r + 1, pos + 1, false)
    {
      r := r - 1;
    }
    ghost var p1 := r;
    while r > 0 && a[r].ch == EQU_CH
      invariant r <= p1 && (pos > 0 ==> 0 <= r) && (pos <= 0 ==> r == pos)
      invariant Run(a, r + 1, p1 + 1, true)
    {
      r := r - 1;
    }
    ghost var p2 := r;
    while r > 0 && a[r].ch != EQU_CH
      invariant r <= p2 && (pos > 0 ==> 0 <= r) && (pos <= 0 ==> r == pos)
      invariant Run(a, r + 1, p2 + 1, false)
    {
      r := r - 1;
    }
    if r > 0 && r < |a| {
      assert p2 > 0 && a[p2].ch != EQU_CH && p2 < p1;
      r := r + 1;
      assert a[p1].ch == EQU_CH;
    }
  }

  // ---------------------------------------------------------------------
  // get_current_hunk

  /** The hunk kinds get_current_hunk reports (0 when the cursor is not on a
      hunk or the file is empty). */
  datatype HunkKind = NoHunk | DiffAdd | DiffDel | DiffChg

  /** First and last line of the hunk in each file. */
  datatype HunkLines = HunkLines(start1: int, end1: int, start2: int, end2: int)

  /** The kind of the hunk whose left-hand row has kind `ch`; note the swap
      of adding and deleting. */
  function KindOf(ch: char): (k: HunkKind)
    ensures k == NoHunk <==> ch != ADD_CH && ch != DEL_CH && ch != CHG_CH
  {
    if ch == ADD_CH then DiffDel
    else if ch == DEL_CH then DiffAdd
    else if ch == CHG_CH then DiffChg
    else NoHunk
  }

  /** Walking back from row `k` over changed rows: the row where the walk
      stops, an equal row or the top. */
  function GapRow(a: seq<Row>, k: nat): (g: nat)
    requires k < |a|
    ensures g <= k
    ensures Run(a, g + 1, k + 1, false)
    ensures g > 0 ==> a[g].ch == EQU_CH
    decreases k
  {
    if k > 0 && a[k].ch != EQU_CH then GapRow(a, k - 1) else k
  }

  /** Walking forward from row `k` over changed rows: the first equal row,
      or the end of the array. */
  function HunkEndRow(a: seq<Row>, k: nat): (e: nat)
    requires k <= |a|
    ensures k <= e <= |a|
    ensures Run(a, k, e, false)
    ensures e < |a| ==> a[e].ch == EQU_CH
    decreases |a| - k
  {
    if k < |a| && a[k].ch != EQU_CH then HunkEndRow(a, k + 1) else k
  }

  /** The line number of the last numbered row in `lo`..`hi`, or 0 when all
      of them are padding rows. */
  function LastNumbered(a: seq<Row>, lo: nat, hi: nat): (l: int)
    requires lo <= hi <= |a|
    ensures l >= 0
    ensures l == 0 ==> forall k :: lo <= k < hi ==> a[k].line <= 0
    ensures l > 0 ==> exists k :: lo <= k < hi && a[k].line == l && forall j :: k < j < hi ==> a[j].line <= 0
    decreases hi - lo
  {
    if hi == lo then 0
    else if a[hi - 1].line > 0 then a[hi - 1].line
    else LastNumbered(a, lo, hi - 1)
  }

  /** The last line of a hunk starting at line `start`: the last numbered
      line seen (never less than `start`), and 1 when there is none. */
  function EndLine(start: int, last: int): int
  {
    if last > 0 then Max(start, last) else 1
  }

  /** The first line of the hunk as get_current_hunk computes it from the
      row `g` where the walk back stopped: one past that row's line, but
      only when `g` is not the top row. */
  function FirstLine(a: seq<Row>, g: nat): int
    requires g < |a|
  {
    if g > 0 then a[g].line + 1 else 1
  }

  /** The first row of the hunk holding the changed row `k`. */
  function HunkFirstRow(a: seq<Row>, k: nat): (h: nat)
    requires k < |a| && a[k].ch != EQU_CH
    ensures h <= k && Run(a, h, k + 1, false)
    ensures h > 0 ==> a[h - 1].ch == EQU_CH
  {
    var g := GapRow(a, k);
    if a[g].ch == EQU_CH then g + 1 else g
  }

  /** As written, a hunk that opens at row 1 under an equal row 0 is said to
      start at line 1, not one past row 0's line. */
  lemma FirstLineMissesTopRow()
    ensures var a := [Row(1, EQU_CH), Row(2, CHG_CH)];
      && HunkFirstRow(a, 1) == 1
      && FirstLine(a, GapRow(a, 1)) == 1
      && a[HunkFirstRow(a, 1) - 1].line + 1 == 2
  {
    var a := [Row(1, EQU_CH), Row(2, CHG_CH)];
    assert GapRow(a, 1) == GapRow(a, 0) == 0;
  }

  /** The loop that walks back from the cursor over changed rows. */
  method WalkBack(a: seq<Row>, pos: nat) returns (g: nat)
    requires pos < |a|
    ensures g == GapRow(a, pos)
  {
    g := pos;
    while g > 0 && a[g].ch != EQU_CH
      invariant g <= pos && GapRow(a, g) == GapRow(a, pos)
    {
      g := g - 1;
    }
  }

  /** The loop that walks forward from the cursor over changed rows,
      keeping the last line number seen on each side. */
  method WalkForward(a0: seq<Row>, a1: seq<Row>, pos: nat, start1: int, start2: int)
    returns (end1: int, end2: int)
    requires |a1| == |a0| && pos < |a0|
    ensures var e := HunkEndRow(a0, pos);
      && end1 == EndLine(start1, LastNumbered(a0, pos, e))
      && end2 == EndLine(start2, LastNumbered(a1, pos, e))
  {
    end1, end2 := 1, 1;
    var p := pos;
    while p < |a0| && a0[p].ch != EQU_CH
      invariant pos <= p <= |a0|
      invariant HunkEndRow(a0, p) == HunkEndRow(a0, pos)
      invariant end1 == EndLine(start1, LastNumbered(a0, pos, p))
      invariant end2 == EndLine(start2, LastNumbered(a1, pos, p))
    {
      var l0 := a0[p].line;
      var l1 := a1[p].line;
      if l0 > 0 {
        end1 := Max(start1, l0);
      }
      if l1 > 0 {
        end2 := Max(start2, l1);
      }
      p := p + 1;
    }
  }

  /** The lines get_current_hunk reports for a changed cursor row `pos`,
      given the first lines on each side. */
  ghost predicate HunkSpans(a0: seq<Row>, a1: seq<Row>, pos: nat, start1: int, start2: int, lines: HunkLines)
    requires |a1| == |a0| && pos < |a0|
  {
    var e := HunkEndRow(a0, pos);
    lines == HunkLines(start1, EndLine(start1, LastNumbered(a0, pos, e)),
                       start2, EndLine(start2, LastNumbered(a1, pos, e)))
  }

  /** get_current_hunk: the kind of the hunk under the cursor row `pos` of
      the left array `a0` and its first and last lines in both files. No
      lines are reported for an empty file; an equal row gives kind 0 and
      lines 1..1. */
  method GetCurrentHunk(a0: seq<Row>, a1: seq<Row>, pos: nat) returns (kind: HunkKind, lines: Option<HunkLines>)
    requires |a1| == |a0| && (|a0| == 0 || pos < |a0|)
    ensures |a0| == 0 ==> kind == NoHunk && lines == None
    ensures |a0| > 0 ==> kind == KindOf(a0[pos].ch) && lines.Some?
    ensures |a0| > 0 && a0[pos].ch == EQU_CH ==> lines == Some(HunkLines(1, 1, 1, 1))
    ensures |a0| > 0 && a0[pos].ch != EQU_CH ==>
      var g := GapRow(a0, pos);
      HunkSpans(a0, a1, pos, FirstLine(a0, g), FirstLine(a1, g), lines.value)
  {
    if |a0| == 0 {
      return NoHunk, None;
    }
    kind := NoHunk;
    var ch := a0[pos].ch;
    if ch == EQU_CH {
      return kind, Some(HunkLines(1, 1, 1, 1));
    }
    kind := KindOf(ch);
    var g := WalkBack(a0, pos);
    var start1, start2 := 1, 1;
    if g > 0 {
      start1 := a0[g].line + 1;
      start2 := a1[g].line + 1;
    }
    var end1, end2 := WalkForward(a0, a1, pos, start1, start2);
    lines := Some(HunkLines(start1, end1, start2, end2));
  }

  /** get_current_hunk with the walk back accepting an equal top row as the
      row above the hunk, so that the first lines are always one past the
      lines of the equal row above the hunk, or 1 at the top of the file. */
  method GetCurrentHunkFixed(a0: seq<Row>, a1: seq<Row>, pos: nat) returns (kind: HunkKind, lines: Option<HunkLines>)
    requires |a1| == |a0| && (|a0| == 0 || pos < |a0|)
    ensures |a0| == 0 ==> kind == NoHunk && lines == None
    ensures |a0| > 0 ==> kind == KindOf(a0[pos].ch) && lines.Some?
    ensures |a0| > 0 && a0[pos].ch == EQU_CH ==> lines == Some(HunkLines(1, 1, 1, 1))
    ensures |a0| > 0 && a0[pos].ch != EQU_CH ==>
      var h := HunkFirstRow(a0, pos);
      && HunkSpans(a0, a1, pos, if h > 0 then a0[h - 1].line + 1 else 1,
                   if h > 0 then a1[h - 1].line + 1 else 1, lines.value)
  {
    if |a0| == 0 {
      return NoHunk, None;
    }
    kind := NoHunk;
    var ch := a0[pos].ch;
    if ch == EQU_CH {
      return kind, Some(HunkLines(1, 1, 1, 1));
    }
    kind := KindOf(ch);
    var g := WalkBack(a0, pos);
    var start1, start2 := 1, 1;
    if a0[g].ch == EQU_CH {
      start1 := a0[g].line + 1;
      start2 := a1[g].line + 1;
    }
    var end1, end2 := WalkForward(a0, a1, pos, start1, start2);
    lines := Some(HunkLines(start1, end1, start2, end2));
  }

  // ---------------------------------------------------------------------
  // dview_compute_split and dview_compute_areas

  /** `c / 2` with C's truncating division. */
  function CHalf(c: int): (h: int)
    ensures c >= 0 ==> 0 <= h && c - 1 <= 2 * h <= c
    ensures c < 0 ==> h <= 0 && c <= 2 * h <= c + 1
  {
    if c >= 0 then c / 2 else -((-c) / 2)
  }

  /** The geometry of the diff viewer: the two panels share the columns,
      `half1` and `half2` being the even split and `bias` the user's shift
      of the divider to the right. */
  class DiffView {
    var bias: int
    var half1: int
    var half2: int
    var height: int

    /** The widths the two panels are drawn with. */
    function Width1(): int
      reads this
    {
      half1 + bias
    }

    function Width2(): int
      reads this
    {
      half2 - bias
    }

    /** dview_compute_split: shift the divider by `i` columns, keeping each
        panel at least two columns wide; the right panel's bound wins when
        there is not room for both. */
    method ComputeSplit(i: int)
      modifies this
      ensures half1 == old(half1) && half2 == old(half2) && height == old(height)
      ensures Width1() + Width2() == half1 + half2
      ensures Width2() >= 2
      ensures half1 + half2 >= 4 ==> Width1() >= 2
      ensures 2 - half1 <= old(bias) + i <= half2 - 2 ==> bias == old(bias) + i
      ensures old(bias) + i > half2 - 2 ==> bias == half2 - 2
      ensures old(bias) + i < 2 - half1 ==> bias == if 2 - half1 <= half2 - 2 then 2 - half1 else half2 - 2
    {
      bias := bias + i;
      if bias < 2 - half1 {
        bias := 2 - half1;
      }
      if bias > half2 - 2 {
        bias := half2 - 2;
      }
    }

    /** dview_compute_areas: lay the viewer out on a widget of `cols`
        columns and `lines` lines (one kept for the status line), then
        re-clamp the divider. */
    method ComputeAreas(cols: int, lines: int)
      modifies this
      ensures height == lines - 1
      ensures half1 == CHalf(cols) && half1 + half2 == cols
      ensures cols >= 0 ==> half1 <= half2 <= half1 + 1
      ensures Width1() + Width2() == cols && Width2() >= 2
      ensures cols >= 4 ==> Width1() >= 2
      ensures 2 - half1 <= old(bias) <= half2 - 2 ==> bias == old(bias)
      ensures old(bias) > half2 - 2 ==> bias == half2 - 2
      ensures old(bias) < 2 - half1 ==> bias == if 2 - half1 <= half2 - 2 then 2 - half1 else half2 - 2
    {
      height := lines - 1;
      half1 := CHalf(cols);
      half2 := cols - half1;
      ComputeSplit(0);
    }
  }
}

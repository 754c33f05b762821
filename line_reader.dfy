/** Reading one line of a file into the viewer's screen buffer: the skipped
    leading columns, tabs expanded, a trailing carriage return shown as `^M`
    and the rest of the row padded with spaces (cvt_mget), optionally with a
    row of attributes marking the bytes of a horizontal-diff bracket (cvt_mgeta). */
module LineReader {
  import opened Wrappers
  import opened HorizontalDiff
  import opened Render

  /** How a reader tests its skip counter: cvt_mget skips while it is
      positive, cvt_mgeta while it is non-zero. */
  datatype SkipTest = WhilePositive | WhileNonZero

  predicate Skipping(test: SkipTest, skip: int)
  {
    if test == WhilePositive then skip > 0 else skip != 0
  }

  /** The settings a reader runs under: tab size, whether to show a
      trailing carriage return, and how it tests the skip counter. */
  datatype Style = Style(ts: int, showCr: bool, test: SkipTest)

  /** What a tab's columns leave behind: the skip counter, the room left
      in the row and the number of spaces written. */
  datatype TabOut = TabOut(skip: int, room: nat, spaces: nat)

  /** The loop over a tab's `j` columns: a column is skipped while the reader
      is skipping, else written as a space while there is room. */
  function TabRun(test: SkipTest, skip: int, room: nat, j: nat): (t: TabOut)
    ensures t.spaces + t.room == room
    ensures t.spaces <= j
    decreases j
  {
    if j == 0 then TabOut(skip, room, 0)
    else if Skipping(test, skip) then TabRun(test, skip - 1, room, j - 1)
    else if room != 0 then
      var t := TabRun(test, skip, room - 1, j - 1);
      TabOut(t.skip, t.room, t.spaces + 1)
    else TabRun(test, skip, room, j - 1)
  }

  /** From a non-negative skip counter a tab first absorbs what is left to
      skip, then writes as many of its remaining columns as fit. */
  lemma {:induction false} TabRunClosed(test: SkipTest, skip: int, room: nat, j: nat)
    requires skip >= 0
    ensures TabRun(test, skip, room, j).skip == skip - Min(skip, j)
    ensures TabRun(test, skip, room, j).spaces == Min(j - Min(skip, j), room)
  {
    if j > 0 {
      if skip > 0 {
        TabRunClosed(test, skip - 1, room, j - 1);
      } else if room != 0 {
        TabRunClosed(test, skip, room - 1, j - 1);
      } else {
        TabRunClosed(test, skip, room, j - 1);
      }
    }
  }

  /** One byte of the row: the character shown and the source byte it comes from. */
  datatype Cell = Cell(ch: char, from: nat)

  function Chars(cs: seq<Cell>): (r: seq<char>)
    ensures |r| == |cs|
    ensures forall k :: 0 <= k < |cs| ==> r[k] == cs[k].ch
  {
    if cs == [] then [] else [cs[0].ch] + Chars(cs[1..])
  }

  /** `n` spaces, all standing for the tab at source byte `from`. */
  function SpaceCells(n: nat, from: nat): (r: seq<Cell>)
    ensures |r| == n
    ensures forall k :: 0 <= k < n ==> r[k] == Cell(' ', from)
  {
    if n == 0 then [] else SpaceCells(n - 1, from) + [Cell(' ', from)]
  }

  /** A carriage return shown at the end of a line: `^M`, or `.` when only
      one column is left. */
  function CrCells(room: nat, from: nat): seq<Cell>
  {
    if room > 1 then [Cell('^', from), Cell('M', from)] else [Cell('.', from)]
  }

  /** The carriage return at `p` ends the line: it is the last byte or
      stands before a newline. */
  predicate EndingCr(src: seq<char>, p: nat)
    requires p < |src|
  {
    src[p] == '\r' && (p + 1 == |src| || src[p + 1] == '\n')
  }

  /** The cells a reader writes for the line `src` from byte `p` on, at
      column `col`, with `skip` columns still to skip and `room` columns
      left in the row, appended to the cells `acc` written so far. `utf[q]`
      is the length of the character that starts at byte `q` as the UTF-8
      decoder sees it. */
  function MGetCells(src: seq<char>, p: nat, col: int, skip: int, room: nat, st: Style, utf: seq<int>, acc: seq<Cell>)
    : seq<Cell>
    requires p <= |src| && |utf| == |src|
    decreases |src| - p
  {
    if room == 0 || p == |src| || src[p] == '\n' then acc
    else if src[p] == '\t' then
      var j := TabSkip(st.ts, col);
      var t := TabRun(st.test, skip, room, j);
      MGetCells(src, p + 1, col + j, t.skip, t.room, st, utf, acc + SpaceCells(t.spaces, p))
    else if EndingCr(src, p) then
      if skip == 0 && st.showCr then acc + CrCells(room, p) else acc
    else if Skipping(st.test, skip) then
      var sk := if utf[p] > 1 then skip + (utf[p] - 1) else skip;
      MGetCells(src, p + 1, col + 1, sk - 1, room, st, utf, acc)
    else
      MGetCells(src, p + 1, col + 1, skip, room - 1, st, utf, acc + [Cell(src[p], p)])
  }

  /** A reader only appends to what it has written, never more cells than
      it has room for, never a tab or a newline, and every cell comes from
      a byte at or after `p`. */
  lemma {:induction false} MGetCellsShape(src: seq<char>, p: nat, col: int, skip: int, room: nat, st: Style, utf: seq<int>, acc: seq<Cell>)
    requires p <= |src| && |utf| == |src|
    ensures |acc| <= |MGetCells(src, p, col, skip, room, st, utf, acc)| <= |acc| + room
    ensures forall k :: 0 <= k < |acc| ==> MGetCells(src, p, col, skip, room, st, utf, acc)[k] == acc[k]
    ensures var r := MGetCells(src, p, col, skip, room, st, utf, acc);
      forall k :: |acc| <= k < |r| ==> r[k].ch != '\t' && r[k].ch != '\n' && p <= r[k].from < |src|
    decreases |src| - p, 0
  {
    if room == 0 || p == |src| || src[p] == '\n' {
    } else if src[p] == '\t' {
      var j := TabSkip(st.ts, col);
      var t := TabRun(st.test, skip, room, j);
      AppendedShape(src, p + 1, col + j, t.skip, t.room, st, utf, acc, SpaceCells(t.spaces, p), p);
    } else if EndingCr(src, p) {
    } else if Skipping(st.test, skip) {
      var sk := if utf[p] > 1 then skip + (utf[p] - 1) else skip;
      MGetCellsShape(src, p + 1, col + 1, sk - 1, room, st, utf, acc);
    } else {
      AppendedShape(src, p + 1, col + 1, skip, room - 1, st, utf, acc, [Cell(src[p], p)], p);
    }
  }

  /** The step of MGetCellsShape where cells `a` for byte `p - 1` were appended. */
  lemma {:induction false} AppendedShape(src: seq<char>, p: nat, col: int, skip: int, room: nat, st: Style, utf: seq<int>,
                                         acc: seq<Cell>, a: seq<Cell>, from: nat)
    requires p <= |src| && |utf| == |src| && from + 1 == p
    requires forall k :: 0 <= k < |a| ==> a[k].ch != '\t' && a[k].ch != '\n' && a[k].from == from
    ensures |acc| + |a| <= |MGetCells(src, p, col, skip, room, st, utf, acc + a)| <= |acc| + |a| + room
    ensures forall k :: 0 <= k < |acc| ==> MGetCells(src, p, col, skip, room, st, utf, acc + a)[k] == acc[k]
    ensures var r := MGetCells(src, p, col, skip, room, st, utf, acc + a);
      forall k :: |acc| <= k < |r| ==> r[k].ch != '\t' && r[k].ch != '\n' && from <= r[k].from < |src|
    decreases |src| - p, 1
  {
    MGetCellsShape(src, p, col, skip, room, st, utf, acc + a);
    var r := MGetCells(src, p, col, skip, room, st, utf, acc + a);
    forall k | 0 <= k < |acc| + |a|
      ensures r[k] == (acc + a)[k]
    {
    }
  }

  /** The characters of a row split where its cells do. */
  lemma CharsAppend(a: seq<Cell>, b: seq<Cell>)
    ensures Chars(a + b) == Chars(a) + Chars(b)
  {
    assert forall k :: 0 <= k < |a + b| ==> Chars(a + b)[k] == (Chars(a) + Chars(b))[k];
  }

  /** The show-CR suffix for a line whose rest is `tail`. */
  function CrSuffix(tail: seq<char>, showCr: bool): seq<char>
  {
    if tail != [] && tail[0] == '\r' && showCr then "^M" else ""
  }

  /** With nothing left to skip and room enough, a reader shows the line
      up to its end or newline with tabs expanded exactly as cvt_cpy
      expands them, followed by `^M` for a line-ending carriage return when
      asked to show one. */
  lemma {:induction false} MGetExpandsTabs(src: seq<char>, p: nat, col: int, room: nat, st: Style, utf: seq<int>,
                                           acc: seq<Cell>, body: seq<char>, tail: seq<char>)
    requires p <= |src| && |utf| == |src| && src[p..] == body + tail
    requires '\n' !in body && '\r' !in body
    requires tail == [] || tail[0] == '\n' || (tail[0] == '\r' && (|tail| == 1 || tail[1] == '\n'))
    requires room >= |ExpandTabs(body, col, st.ts)| + 2
    ensures Chars(MGetCells(src, p, col, 0, room, st, utf, acc))
         == Chars(acc) + ExpandTabs(body, col, st.ts) + CrSuffix(tail, st.showCr)
    decreases |body|
  {
    if body == [] {
      MGetLineEnd(src, p, col, room, st, utf, acc, tail);
    } else {
      assert src[p] == body[0];
      assert src[p + 1..] == body[1..] + tail;
      var w := |Piece(body[0], col, st.ts)|;
      var rest := ExpandTabs(body[1..], col + w, st.ts);
      assert ExpandTabs(body, col, st.ts) == Piece(body[0], col, st.ts) + rest;
      var cells := if body[0] == '\t' then SpaceCells(w, p) else [Cell(body[0], p)];
      var cr := CrSuffix(tail, st.showCr);
      calc {
        Chars(MGetCells(src, p, col, 0, room, st, utf, acc));
        { MGetStepPlain(src, p, col, room, st, utf, acc); }
        Chars(MGetCells(src, p + 1, col + w, 0, room - w, st, utf, acc + cells));
        { MGetExpandsTabs(src, p + 1, col + w, room - w, st, utf, acc + cells, body[1..], tail); }
        Chars(acc + cells) + rest + cr;
        { CharsAppend(acc, cells); }
        Chars(acc) + Chars(cells) + rest + cr;
        { Regroup(Chars(acc), Chars(cells), rest, cr); }
        Chars(acc) + (Chars(cells) + rest) + cr;
        { assert Chars(cells) == Piece(body[0], col, st.ts); }
        Chars(acc) + ExpandTabs(body, col, st.ts) + cr;
      }
    }
  }

  lemma Regroup(a: seq<char>, b: seq<char>, c: seq<char>, d: seq<char>)
    ensures a + b + c + d == a + (b + c) + d
  {
  }

  /** At the end of a line, or at its line-ending carriage return, a
      reader with nothing left to skip writes only the `^M` it shows. */
  lemma MGetLineEnd(src: seq<char>, p: nat, col: int, room: nat, st: Style, utf: seq<int>, acc: seq<Cell>, tail: seq<char>)
    requires p <= |src| && |utf| == |src| && src[p..] == tail && room >= 2
    requires tail == [] || tail[0] == '\n' || (tail[0] == '\r' && (|tail| == 1 || tail[1] == '\n'))
    ensures Chars(MGetCells(src, p, col, 0, room, st, utf, acc)) == Chars(acc) + CrSuffix(tail, st.showCr)
  {
    if tail != [] && tail[0] == '\r' {
      assert EndingCr(src, p);
      if st.showCr {
        CharsAppend(acc, CrCells(room, p));
      }
    }
  }

  /** One step of a reader with nothing to skip over a tab or a plain
      character: it writes the character, or the tab's columns as spaces. */
  lemma MGetStepPlain(src: seq<char>, p: nat, col: int, room: nat, st: Style, utf: seq<int>, acc: seq<Cell>)
    requires p < |src| && |utf| == |src| && src[p] != '\n' && src[p] != '\r'
    requires room >= |Piece(src[p], col, st.ts)|
    requires room > 0
    ensures var w := |Piece(src[p], col, st.ts)|;
      var cells := if src[p] == '\t' then SpaceCells(w, p) else [Cell(src[p], p)];
      MGetCells(src, p, col, 0, room, st, utf, acc) == MGetCells(src, p + 1, col + w, 0, room - w, st, utf, acc + cells)
  {
    if src[p] == '\t' {
      TabRunClosed(st.test, 0, room, TabSkip(st.ts, col));
    }
  }

  /** A reader skipping `n` columns over `n` plain one-byte characters
      (no tab, newline or carriage return) resumes after them with nothing
      left to skip. */
  lemma {:induction false} MGetSkipsPlain(src: seq<char>, p: nat, col: int, n: nat, room: nat, st: Style, utf: seq<int>, acc: seq<Cell>)
    requires p + n <= |src| && |utf| == |src|
    requires forall q :: p <= q < p + n ==> src[q] != '\t' && src[q] != '\n' && src[q] != '\r' && utf[q] <= 1
    ensures MGetCells(src, p, col, n, room, st, utf, acc) == MGetCells(src, p + n, col + n, 0, room, st, utf, acc)
    decreases n
  {
    if n > 0 && room != 0 {
      MGetSkipsPlain(src, p + 1, col + 1, n - 1, room, st, utf, acc);
    }
  }

  /** On a non-negative skip counter the two tests agree. */
  lemma {:induction false} TabRunTestsAgree(skip: int, room: nat, j: nat)
    requires skip >= 0
    ensures TabRun(WhilePositive, skip, room, j) == TabRun(WhileNonZero, skip, room, j)
  {
    if j > 0 {
      if skip > 0 {
        TabRunTestsAgree(skip - 1, room, j - 1);
      } else if room != 0 {
        TabRunTestsAgree(skip, room - 1, j - 1);
      } else {
        TabRunTestsAgree(skip, room, j - 1);
      }
    }
  }

  /** cvt_mget and cvt_mgeta write the same cells whenever the skip count
      is not negative, as it is when the viewer calls them. */
  lemma {:induction false} MGetTestsAgree(src: seq<char>, p: nat, col: int, skip: int, room: nat, ts: int, showCr: bool,
                                          utf: seq<int>, acc: seq<Cell>)
    requires p <= |src| && |utf| == |src| && skip >= 0
    ensures MGetCells(src, p, col, skip, room, Style(ts, showCr, WhilePositive), utf, acc)
         == MGetCells(src, p, col, skip, room, Style(ts, showCr, WhileNonZero), utf, acc)
    decreases |src| - p
  {
    if room == 0 || p == |src| || src[p] == '\n' {
    } else if src[p] == '\t' {
      var j := TabSkip(ts, col);
      TabRunTestsAgree(skip, room, j);
      TabRunClosed(WhilePositive, skip, room, j);
      var t := TabRun(WhilePositive, skip, room, j);
      MGetTestsAgree(src, p + 1, col + j, t.skip, t.room, ts, showCr, utf, acc + SpaceCells(t.spaces, p));
    } else if EndingCr(src, p) {
    } else if skip > 0 {
      var sk := if utf[p] > 1 then skip + (utf[p] - 1) else skip;
      MGetTestsAgree(src, p + 1, col + 1, sk - 1, room, ts, showCr, utf, acc);
    } else {
      MGetTestsAgree(src, p + 1, col + 1, skip, room - 1, ts, showCr, utf, acc + [Cell(src[p], p)]);
    }
  }

  /** The cells of a whole line; a missing line (a NULL source) writes none. */
  function LineCells(src: Option<seq<char>>, utf: seq<int>, skip: int, room: nat, st: Style): (r: seq<Cell>)
    requires src.Some? ==> |utf| == |src.value|
    ensures |r| <= room
    ensures src.None? ==> r == []
  {
    if src.None? then []
    else
      MGetCellsShape(src.value, 0, 0, skip, room, st, utf, []);
      MGetCells(src.value, 0, 0, skip, room, st, utf, [])
  }

  /** The loop over a tab's `j` columns in cvt_mget: writes the spaces of
      TabRun at `dst[sz..]`. */
  method TabColumns(dst: array<char>, sz: nat, room: nat, skip: int, j: nat, ghost out: seq<Cell>, ghost from: nat)
    returns (sz': nat, room': nat, skip': int, ghost out': seq<Cell>)
    requires sz + room < dst.Length && |out| == sz
    requires forall k :: 0 <= k < sz ==> dst[k] == out[k].ch
    modifies dst
    ensures var t := TabRun(WhilePositive, skip, room, j);
      skip' == t.skip && room' == t.room && sz' == sz + t.spaces
      && out' == out + SpaceCells(t.spaces, from)
    ensures forall k :: 0 <= k < sz' ==> dst[k] == out'[k].ch
    ensures forall k :: sz' <= k < dst.Length ==> dst[k] == old(dst[k])
  {
    sz', room', skip', out' := sz, room, skip, out;
    var jj := j;
    ghost var n := 0;
    while jj > 0
      invariant 0 <= jj <= j && sz' == sz + n && sz' + room' == sz + room
      invariant out' == out + SpaceCells(n, from)
      invariant var t := TabRun(WhilePositive, skip, room, j);
        var u := TabRun(WhilePositive, skip', room', jj);
        u.skip == t.skip && u.room == t.room && u.spaces + n == t.spaces
      invariant forall k :: 0 <= k < sz' ==> dst[k] == out'[k].ch
      invariant forall k :: sz' <= k < dst.Length ==> dst[k] == old(dst[k])
    {
      if skip' > 0 {
        skip' := skip' - 1;
      } else if room' != 0 {
        room' := room' - 1;
        dst[sz'] := ' ';
        sz' := sz' + 1;
        out' := out' + [Cell(' ', from)];
        n := n + 1;
      }
      jj := jj - 1;
    }
  }

  /** One pass of cvt_mget's loop, on the byte `s[p]` at column `i`: the
      cells it writes take the reader from the state before to the state
      after, or end the line when `stop`. */
  method MGetByte(dst: array<char>, s: seq<char>, utf: seq<int>, st: Style, p: nat, i: int, sk: int, room: nat, sz: nat, ghost out: seq<Cell>)
    returns (i': int, sk': int, room': nat, sz': nat, stop: bool, ghost out': seq<Cell>)
    requires st.test == WhilePositive
    requires p < |s| && |utf| == |s| && room != 0 && s[p] != '\n'
    requires sz + room < dst.Length && |out| == sz
    requires forall k :: 0 <= k < sz ==> dst[k] == out[k].ch
    modifies dst
    ensures sz <= sz' == |out'| && sz' + room' == sz + room
    ensures MGetCells(s, p, i, sk, room, st, utf, out)
         == if stop then out' else MGetCells(s, p + 1, i', sk', room', st, utf, out')
    ensures forall k :: 0 <= k < sz' ==> dst[k] == out'[k].ch
    ensures forall k :: sz' <= k < dst.Length ==> dst[k] == old(dst[k])
  {
    i', sk', room', sz', stop, out' := i, sk, room, sz, false, out;
    if s[p] == '\t' {
      var j := TabSkip(st.ts, i);
      sz', room', sk', out' := TabColumns(dst, sz, room, sk, j, out, p);
      i' := i + j - 1;
    } else if s[p] == '\r' && (p + 1 == |s| || s[p + 1] == '\n') {
      assert EndingCr(s, p);
      if sk == 0 && st.showCr {
        if room > 1 {
          room' := room - 2;
          dst[sz] := '^';
          dst[sz + 1] := 'M';
          out' := out + [Cell('^', p), Cell('M', p)];
          sz' := sz + 2;
        } else {
          room' := room - 1;
          dst[sz] := '.';
          out' := out + [Cell('.', p)];
          sz' := sz + 1;
        }
      }
      stop := true;
      return;
    } else if sk > 0 {
      var chLength := utf[p];
      if chLength > 1 {
        sk' := sk + (chLength - 1);
      }
      sk' := sk' - 1;
    } else {
      room' := room - 1;
      dst[sz] := s[p];
      out' := out + [Cell(s[p], p)];
      sz' := sz + 1;
    }
    i' := i' + 1;
  }

  /** cvt_mget: reads the line `src` (absent when NULL) into the first
      `dstsize` bytes of `dst`, skipping `skip` leading columns, then pads
      the row with spaces and terminates it with a NUL. Returns the number
      of bytes written before the padding. */
  method CvtMget(src: Option<seq<char>>, utf: seq<int>, dst: array<char>, dstsize: int, skip: int, ts: int, showCr: bool)
    returns (sz: int)
    requires src.Some? ==> |utf| == |src.value|
    requires 0 <= dstsize < dst.Length
    modifies dst
    ensures sz == |LineCells(src, utf, skip, dstsize, Style(ts, showCr, WhilePositive))|
    ensures forall k :: 0 <= k < sz ==> dst[k] == LineCells(src, utf, skip, dstsize, Style(ts, showCr, WhilePositive))[k].ch
    ensures forall k :: sz <= k < dstsize ==> dst[k] == ' '
    ensures dst[dstsize] == '\0'
    ensures forall k :: dstsize < k < dst.Length ==> dst[k] == old(dst[k])
  {
    var room: nat := dstsize;
    var n: nat := 0;
    var st := Style(ts, showCr, WhilePositive);
    ghost var out: seq<Cell> := [];
    if src.Some? {
      var s := src.value;
      ghost var total := MGetCells(s, 0, 0, skip, dstsize, st, utf, []);
      var i := 0;
      var p := 0;
      var sk := skip;
      while room != 0 && p < |s| && s[p] != '\n'
        invariant 0 <= p <= |s|
        invariant n == |out| && n + room == dstsize
        invariant total == MGetCells(s, p, i, sk, room, st, utf, out)
        invariant forall k :: 0 <= k < n ==> dst[k] == out[k].ch
        invariant forall k :: n <= k < dst.Length ==> dst[k] == old(dst[k])
        decreases |s| - p
      {
        var stop;
        i, sk, room, n, stop, out := MGetByte(dst, s, utf, st, p, i, sk, room, n, out);
        if stop {
          break;
        }
        p := p + 1;
      }
      assert out == total;
    }
    assert out == LineCells(src, utf, skip, dstsize, st);
    FillBySpace(dst, n, room, true);
    sz := n;
  }

  /** The loop over a tab's `j` columns in cvt_mgeta: writes the spaces of
      TabRun at `dst[sz..]` and, beside each, whether the tab's byte `from`
      lies inside a bracket of `hdiff` on side `ord`. */
  method TabColumnsAtt(dst: array<char>, att: array<bool>, sz: nat, room: nat, skip: int, j: nat,
                       hdiff: seq<Bracket>, ord: Side, ghost out: seq<Cell>, from: nat)
    returns (sz': nat, room': nat, skip': int, ghost out': seq<Cell>)
    requires sz + room < dst.Length && sz + room <= att.Length && |out| == sz
    requires forall k :: 0 <= k < sz ==> dst[k] == out[k].ch && att[k] == Inside(out[k].from, hdiff, ord)
    modifies dst, att
    ensures var t := TabRun(WhileNonZero, skip, room, j);
      skip' == t.skip && room' == t.room && sz' == sz + t.spaces
      && out' == out + SpaceCells(t.spaces, from)
    ensures forall k :: 0 <= k < sz' ==> dst[k] == out'[k].ch && att[k] == Inside(out'[k].from, hdiff, ord)
    ensures forall k :: sz' <= k < dst.Length ==> dst[k] == old(dst[k])
    ensures forall k :: sz' <= k < att.Length ==> att[k] == old(att[k])
  {
    sz', room', skip', out' := sz, room, skip, out;
    var jj := j;
    ghost var n := 0;
    while jj > 0
      invariant 0 <= jj <= j && sz' == sz + n && sz' + room' == sz + room
      invariant out' == out + SpaceCells(n, from)
      invariant var t := TabRun(WhileNonZero, skip, room, j);
        var u := TabRun(WhileNonZero, skip', room', jj);
        u.skip == t.skip && u.room == t.room && u.spaces + n == t.spaces
      invariant forall k :: 0 <= k < sz' ==> dst[k] == out'[k].ch && att[k] == Inside(out'[k].from, hdiff, ord)
      invariant forall k :: sz' <= k < dst.Length ==> dst[k] == old(dst[k])
      invariant forall k :: sz' <= k < att.Length ==> att[k] == old(att[k])
    {
      if skip' != 0 {
        skip' := skip' - 1;
      } else if room' != 0 {
        room' := room' - 1;
        att[sz'] := IsInside(from, hdiff, ord);
        dst[sz'] := ' ';
        sz' := sz' + 1;
        out' := out' + [Cell(' ', from)];
        n := n + 1;
      }
      jj := jj - 1;
    }
  }

  /** One pass of cvt_mgeta's loop, on the byte `s[p]` at column `i`: as
      MGetByte, and each cell written gets its attribute. */
  method MGetaByte(dst: array<char>, att: array<bool>, s: seq<char>, utf: seq<int>, st: Style,
                   hdiff: seq<Bracket>, ord: Side, p: nat, i: int, sk: int, room: nat, sz: nat, ghost out: seq<Cell>)
    returns (i': int, sk': int, room': nat, sz': nat, stop: bool, ghost out': seq<Cell>)
    requires st.test == WhileNonZero
    requires p < |s| && |utf| == |s| && room != 0 && s[p] != '\n'
    requires sz + room < dst.Length && sz + room <= att.Length && |out| == sz
    requires forall k :: 0 <= k < sz ==> dst[k] == out[k].ch && att[k] == Inside(out[k].from, hdiff, ord)
    modifies dst, att
    ensures sz <= sz' == |out'| && sz' + room' == sz + room
    ensures MGetCells(s, p, i, sk, room, st, utf, out)
         == if stop then out' else MGetCells(s, p + 1, i', sk', room', st, utf, out')
    ensures forall k :: 0 <= k < sz' ==> dst[k] == out'[k].ch && att[k] == Inside(out'[k].from, hdiff, ord)
    ensures forall k :: sz' <= k < dst.Length ==> dst[k] == old(dst[k])
    ensures forall k :: sz' <= k < att.Length ==> att[k] == old(att[k])
  {
    i', sk', room', sz', stop, out' := i, sk, room, sz, false, out;
    if s[p] == '\t' {
      var j := TabSkip(st.ts, i);
      sz', room', sk', out' := TabColumnsAtt(dst, att, sz, room, sk, j, hdiff, ord, out, p);
      i' := i + j - 1;
    } else if s[p] == '\r' && (p + 1 == |s| || s[p + 1] == '\n') {
      assert EndingCr(s, p);
      if sk == 0 && st.showCr {
        if room > 1 {
          room' := room - 2;
          att[sz] := IsInside(p, hdiff, ord);
          dst[sz] := '^';
          att[sz + 1] := IsInside(p, hdiff, ord);
          dst[sz + 1] := 'M';
          out' := out + [Cell('^', p), Cell('M', p)];
          sz' := sz + 2;
        } else {
          room' := room - 1;
          att[sz] := IsInside(p, hdiff, ord);
          dst[sz] := '.';
          out' := out + [Cell('.', p)];
          sz' := sz + 1;
        }
      }
      stop := true;
      return;
    } else if sk != 0 {
      var chLength := utf[p];
      if chLength > 1 {
        sk' := sk + (chLength - 1);
      }
      sk' := sk' - 1;
    } else {
      room' := room - 1;
      att[sz] := IsInside(p, hdiff, ord);
      dst[sz] := s[p];
      out' := out + [Cell(s[p], p)];
      sz' := sz + 1;
    }
    i' := i' + 1;
  }

  /** cvt_mgeta: cvt_mget, and beside every byte written the attribute
      saying whether the source byte it shows lies inside a bracket of
      `hdiff` on side `ord`; the padding gets no attribute. */
  method CvtMgeta(src: Option<seq<char>>, utf: seq<int>, dst: array<char>, dstsize: int, skip: int, ts: int, showCr: bool,
                  hdiff: seq<Bracket>, ord: Side, att: array<bool>)
    returns (sz: int)
    requires src.Some? ==> |utf| == |src.value|
    requires 0 <= dstsize < dst.Length && dstsize <= att.Length
    modifies dst, att
    ensures sz == |LineCells(src, utf, skip, dstsize, Style(ts, showCr, WhileNonZero))|
    ensures forall k :: 0 <= k < sz ==>
      var c := LineCells(src, utf, skip, dstsize, Style(ts, showCr, WhileNonZero))[k];
      dst[k] == c.ch && att[k] == Inside(c.from, hdiff, ord)
    ensures forall k :: sz <= k < dstsize ==> dst[k] == ' ' && !att[k]
    ensures dst[dstsize] == '\0'
    ensures forall k :: dstsize < k < dst.Length ==> dst[k] == old(dst[k])
    ensures forall k :: dstsize <= k < att.Length ==> att[k] == old(att[k])
  {
    var room: nat := dstsize;
    var n: nat := 0;
    var st := Style(ts, showCr, WhileNonZero);
    ghost var out: seq<Cell> := [];
    if src.Some? {
      var s := src.value;
      ghost var total := MGetCells(s, 0, 0, skip, dstsize, st, utf, []);
      var i := 0;
      var p := 0;
      var sk := skip;
      while room != 0 && p < |s| && s[p] != '\n'
        invariant 0 <= p <= |s|
        invariant n == |out| && n + room == dstsize
        invariant total == MGetCells(s, p, i, sk, room, st, utf, out)
        invariant forall k :: 0 <= k < n ==> dst[k] == out[k].ch && att[k] == Inside(out[k].from, hdiff, ord)
        invariant forall k :: n <= k < dst.Length ==> dst[k] == old(dst[k])
        invariant forall k :: n <= k < att.Length ==> att[k] == old(att[k])
        decreases |s| - p
      {
        var stop;
        i, sk, room, n, stop, out := MGetaByte(dst, att, s, utf, st, hdiff, ord, p, i, sk, room, n, out);
        if stop {
          break;
        }
        p := p + 1;
      }
      assert out == total;
    }
    assert out == LineCells(src, utf, skip, dstsize, st);
    forall k | n <= k < n + room {
      att[k] := false;
    }
    FillBySpace(dst, n, room, true);
    sz := n;
  }
}

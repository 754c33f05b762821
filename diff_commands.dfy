/** The change-command lines of diff's default output format
    (`NUMaNUM[,NUM]`, `NUM[,NUM]cNUM[,NUM]`, `NUM[,NUM]dNUM`), as the diff
    viewer reads them: numbers through strtol, one command per line, lines
    that start with anything but a digit skipped. */
module DiffCommands {
  import opened Wrappers

  const INT_MIN: int := -0x8000_0000
  const INT_MAX: int := 0x7fff_ffff
  const LONG_MIN: int := -0x8000_0000_0000_0000
  const LONG_MAX: int := 0x7fff_ffff_ffff_ffff

  /** DIFFCMD: lines `f1..f2` of the first file and `t1..t2` of the second,
      with the command letter `cmd`. */
  datatype DiffCmd = DiffCmd(f1: int, f2: int, cmd: char, t1: int, t2: int)

  /** The character at `i` of a C string: NUL at and past its end. */
  function At(p: seq<char>, i: int): char
  {
    if 0 <= i < |p| then p[i] else '\0'
  }

  predicate IsDigit(c: char)
  {
    '0' <= c <= '9'
  }

  /** isspace in the C locale. */
  predicate IsSpace(c: char)
  {
    c == ' ' || c == '\t' || c == '\n' || c == '\U{000B}' || c == '\U{000C}' || c == '\r'
  }

  /** A `long` stored into an `int`: the low 32 bits, read as two's complement. */
  function Wrap32(v: int): (r: int)
    ensures INT_MIN <= r <= INT_MAX
    ensures INT_MIN <= v <= INT_MAX ==> r == v
  {
    (v - INT_MIN) % 0x1_0000_0000 + INT_MIN
  }

  function SkipSpaces(p: seq<char>, i: nat): (j: nat)
    requires i <= |p|
    ensures i <= j <= |p|
    ensures !IsSpace(At(p, j))
    decreases |p| - i
  {
    if i < |p| && IsSpace(p[i]) then SkipSpaces(p, i + 1) else i
  }

  /** The end of the run of digits that starts at `i`. */
  function DigitsEnd(p: seq<char>, i: nat): (e: nat)
    requires i <= |p|
    ensures i <= e <= |p|
    ensures !IsDigit(At(p, e))
    ensures i < e ==> IsDigit(p[e - 1])
    decreases |p| - i
  {
    if i < |p| && IsDigit(p[i]) then DigitsEnd(p, i + 1) else i
  }

  function DigitValue(c: char): nat
  {
    if IsDigit(c) then (c - '0') as nat else 0
  }

  /** The decimal value of the digits `p[i..e]`. */
  function DecValue(p: seq<char>, i: nat, e: nat): nat
    requires i <= e <= |p|
    decreases e
  {
    if e == i then 0 else DecValue(p, i, e - 1) * 10 + DigitValue(p[e - 1])
  }

  /** A number read and where reading stopped. */
  datatype Scanned = Scanned(value: int, next: nat)

  /** scan_deci at position `i`: strtol in base 10 (white space, an optional
      sign, then digits) stored into an `int`. It fails when no digit is
      read or when the value overflows a 64-bit `long` (errno set); on
      success reading goes on after the last digit. */
  function ScanDeci(p: seq<char>, i: nat): (r: Option<Scanned>)
    requires i <= |p|
    ensures r.Some? ==> i < r.value.next <= |p| && IsDigit(p[r.value.next - 1]) && !IsDigit(At(p, r.value.next))
    ensures r.Some? ==> INT_MIN <= r.value.value <= INT_MAX
    ensures !IsSpace(At(p, i)) && At(p, i) != '+' && At(p, i) != '-' && !IsDigit(At(p, i)) ==> r.None?
  {
    var j := SkipSpaces(p, i);
    var neg := At(p, j) == '-';
    var k := if At(p, j) == '+' || neg then j + 1 else j;
    var e := DigitsEnd(p, k);
    if e == k then None
    else
      var magnitude: int := DecValue(p, k, e);
      var v := if neg then -magnitude else magnitude;
      if v < LONG_MIN || LONG_MAX < v then None
      else Some(Scanned(Wrap32(v), e))
  }

  /** The second number of an optional `,NUM` range at `i`, which must not
      be below `first`, and whether a range was there. */
  datatype RangeEnd = RangeEnd(last: int, next: nat, range: bool)

  function ScanRangeEnd(p: seq<char>, i: nat, first: int): (r: Option<RangeEnd>)
    requires i <= |p|
    ensures r.Some? ==> first <= r.value.last && r.value.next <= |p|
    ensures r.Some? && !r.value.range ==> r.value == RangeEnd(first, i, false)
    ensures At(p, i) != ',' ==> r == Some(RangeEnd(first, i, false))
  {
    if At(p, i) == ',' then
      match ScanDeci(p, i + 1)
      case None => None
      case Some(s) => if s.value < first then None else Some(RangeEnd(s.value, s.next, true))
    else Some(RangeEnd(first, i, false))
  }

  /** A change command that can stand in diff's default output. */
  predicate WellFormed(op: DiffCmd)
  {
    && 0 <= op.f1 <= op.f2 <= INT_MAX && 0 <= op.t1 <= op.t2 <= INT_MAX
    && (op.cmd == 'a' || op.cmd == 'c' || op.cmd == 'd')
    && (op.cmd == 'a' ==> op.f2 == op.f1)
    && (op.cmd == 'd' ==> op.t2 == op.t1)
  }

  /** One side of a command: `first[,last]`. */
  datatype Side = Side(first: int, last: int, range: bool, next: nat)

  /** A start that must not be negative, then an optional range end. */
  function ScanSide(p: seq<char>, i: nat): (r: Option<Side>)
    requires i <= |p|
    ensures r.Some? ==> 0 <= r.value.first <= r.value.last <= INT_MAX && i < r.value.next <= |p|
    ensures r.Some? && !r.value.range ==> r.value.last == r.value.first
  {
    match ScanDeci(p, i)
    case None => None
    case Some(a) =>
      if a.value < 0 then None
      else
        match ScanRangeEnd(p, a.next, a.value)
        case None => None
        case Some(e) => Some(Side(a.value, e.last, e.range, e.next))
  }

  /** The grammar of scan_line: `f1[,f2]` then the command letter then
      `t1[,t2]`; a missing second number is the first; both starts must be
      non-negative, both ranges ascending, `a` takes no left range and `d`
      no right range. What follows the last number is not looked at. */
  function ParseCommand(p: seq<char>): (r: Option<DiffCmd>)
    ensures r.Some? ==> WellFormed(r.value)
  {
    match ScanSide(p, 0)
    case None => None
    case Some(l) =>
      var cmd := At(p, l.next);
      if cmd == 'a' && l.range then None
      else if cmd != 'a' && cmd != 'c' && cmd != 'd' then None
      else
        match ScanSide(p, l.next + 1)
        case None => None
        case Some(q) =>
          if cmd == 'd' && q.range then None
          else Some(DiffCmd(l.first, l.last, cmd, q.first, q.last))
  }

  /** What scan_line returns and the list it leaves. */
  datatype LineResult = LineResult(code: int, ops: seq<DiffCmd>)

  /** scan_line: appends the command of the line to `ops` and returns 0, or
      returns -1 and leaves `ops` as it was. */
  function ScanLine(p: seq<char>, ops: seq<DiffCmd>): (r: LineResult)
    ensures r.code == 0 || r.code == -1
    ensures r.code == -1 ==> r.ops == ops
    ensures r.code == 0 ==> |r.ops| == |ops| + 1 && r.ops[..|ops|] == ops && WellFormed(r.ops[|ops|])
  {
    match ParseCommand(p)
    case None => LineResult(-1, ops)
    case Some(op) => LineResult(0, ops + [op])
  }

  // ---------------------------------------------------------------------
  // Printing a command and reading it back

  function DigitChar(d: nat): char
    requires d < 10
  {
    ('0' as int + d) as char
  }

  /** The decimal digits of `n`, as printf's `%d` writes them. */
  function Show(n: nat): (s: seq<char>)
    ensures 0 < |s|
    decreases n
  {
    if n < 10 then [DigitChar(n)] else Show(n / 10) + [DigitChar(n % 10)]
  }

  /** `w` is a decimal numeral for `n`: digits only, at least one. */
  predicate Numeral(w: seq<char>, n: nat)
  {
    && 0 < |w|
    && (forall x :: 0 <= x < |w| ==> IsDigit(w[x]))
    && DecValue(w, 0, |w|) == n
  }

  /** `p` holds the word `w` from position `i` on. */
  predicate Holds(p: seq<char>, i: nat, w: seq<char>)
  {
    i + |w| <= |p| && forall x :: 0 <= x < |w| ==> p[i + x] == w[x]
  }

  lemma HoldsSelf(p: seq<char>)
    ensures Holds(p, 0, p)
  {
    forall x | 0 <= x < |p|
      ensures p[0 + x] == p[x]
    {
    }
  }

  lemma HoldsPrefix(a: seq<char>, b: seq<char>)
    ensures Holds(a + b, 0, a)
  {
    forall x | 0 <= x < |a|
      ensures (a + b)[0 + x] == a[x]
    {
    }
  }

  lemma HoldsSplit(p: seq<char>, i: nat, a: seq<char>, b: seq<char>)
    requires Holds(p, i, a + b)
    ensures Holds(p, i, a) && Holds(p, i + |a|, b)
  {
    forall x | 0 <= x < |a|
      ensures p[i + x] == a[x]
    {
      assert p[i + x] == (a + b)[x];
    }
    forall x | 0 <= x < |b|
      ensures p[i + |a| + x] == b[x]
    {
      assert p[i + (|a| + x)] == (a + b)[|a| + x];
    }
  }

  lemma HoldsJoin(p: seq<char>, i: nat, a: seq<char>, b: seq<char>)
    requires Holds(p, i, a) && Holds(p, i + |a|, b)
    ensures Holds(p, i, a + b)
  {
    forall x | 0 <= x < |a + b|
      ensures p[i + x] == (a + b)[x]
    {
      if x >= |a| {
        assert p[i + |a| + (x - |a|)] == b[x - |a|];
      }
    }
  }

  /** The digits a word copies have the value of the word. */
  lemma {:induction false} DecValueHolds(p: seq<char>, i: nat, w: seq<char>, e: nat)
    requires Holds(p, i, w) && e <= |w|
    ensures DecValue(p, i, i + e) == DecValue(w, 0, e)
    decreases e
  {
    if e > 0 {
      DecValueHolds(p, i, w, e - 1);
      assert p[i + (e - 1)] == w[e - 1];
    }
  }

  /** `Show(n)` is a numeral for `n`. */
  lemma {:induction false} ShowNumeral(n: nat)
    ensures Numeral(Show(n), n)
    decreases n
  {
    var w := Show(n);
    if n >= 10 {
      var v := Show(n / 10);
      var d := DigitChar(n % 10);
      ShowNumeral(n / 10);
      HoldsPrefix(v, [d]);
      DecValueHolds(w, 0, v, |v|);
      assert w[|w| - 1] == d;
      assert DigitValue(d) == n % 10;
      forall x | 0 <= x < |w|
        ensures IsDigit(w[x])
      {
        if x < |v| {
          assert w[0 + x] == v[x];
        }
      }
    } else {
      assert DigitValue(DigitChar(n)) == n;
    }
  }

  /** A run of digits from `k` up to a non-digit at `e` ends at `e`. */
  lemma {:induction false} DigitsEndRun(p: seq<char>, k: nat, e: nat)
    requires k <= e <= |p| && !IsDigit(At(p, e))
    requires forall x :: k <= x < e ==> IsDigit(p[x])
    ensures DigitsEnd(p, k) == e
    decreases e - k
  {
    if k < e {
      DigitsEndRun(p, k + 1, e);
    }
  }

  /** The digits of a numeral copied at `k` run up to its end. */
  lemma NumeralRun(p: seq<char>, k: nat, w: seq<char>, n: nat)
    requires Numeral(w, n) && Holds(p, k, w) && !IsDigit(At(p, k + |w|))
    ensures DigitsEnd(p, k) == k + |w| && DecValue(p, k, k + |w|) == n
  {
    forall x | k <= x < k + |w|
      ensures IsDigit(p[x])
    {
      assert p[k + (x - k)] == w[x - k];
    }
    DigitsEndRun(p, k, k + |w|);
    DecValueHolds(p, k, w, |w|);
  }

  /** scan_deci reads back a numeral copied at `i` and followed by a non-digit. */
  lemma ScanDeciNumeral(p: seq<char>, i: nat, w: seq<char>, n: nat)
    requires n <= INT_MAX && Numeral(w, n)
    requires Holds(p, i, w) && !IsDigit(At(p, i + |w|))
    ensures ScanDeci(p, i) == Some(Scanned(n, i + |w|))
  {
    assert p[i + 0] == w[0];
    assert SkipSpaces(p, i) == i;
    NumeralRun(p, i, w, n);
  }

  /** strtol reads a minus sign followed by digits as a negative number. */
  lemma ScanDeciNegative(p: seq<char>, w: seq<char>, n: nat)
    requires n <= INT_MAX && Numeral(w, n) && 0 < |p| && p[0] == '-'
    requires Holds(p, 1, w) && !IsDigit(At(p, 1 + |w|))
    ensures ScanDeci(p, 0) == Some(Scanned(-(n as int), 1 + |w|))
  {
    assert SkipSpaces(p, 0) == 0;
    NumeralRun(p, 1, w, n);
  }

  /** A range end read after a comma. */
  lemma ScanRangeEndComma(p: seq<char>, i: nat, first: int, last: int, next: nat)
    requires i < |p| && p[i] == ','
    requires ScanDeci(p, i + 1) == Some(Scanned(last, next)) && first <= last
    ensures ScanRangeEnd(p, i, first) == Some(RangeEnd(last, next, true))
  {
  }

  /** One side of a command as diff prints it: `first` alone for a single
      line, `first,last` otherwise. */
  function ShowSide(first: nat, last: nat): seq<char>
  {
    if last == first then Show(first) else Show(first) + [','] + Show(last)
  }

  /** The line of diff's default output for `op`, as the group formats the
      viewer gives diff print it. */
  function Format(op: DiffCmd): seq<char>
    requires WellFormed(op)
  {
    ShowSide(op.f1, op.f2) + [op.cmd] + ShowSide(op.t1, op.t2) + ['\n']
  }

  /** A number not followed by a comma is a single-line side. */
  lemma ReadSingle(p: seq<char>, i: nat, first: nat, e: nat)
    requires i <= |p| && ScanDeci(p, i) == Some(Scanned(first, e)) && At(p, e) != ','
    ensures ScanSide(p, i) == Some(Side(first, first, false, e))
  {
    assert ScanRangeEnd(p, e, first) == Some(RangeEnd(first, e, false));
  }

  /** Two ascending numbers around a comma are a range side. */
  lemma ReadRange(p: seq<char>, i: nat, first: nat, e: nat, last: nat, next: nat)
    requires i <= |p| && ScanDeci(p, i) == Some(Scanned(first, e)) && e < |p| && p[e] == ','
    requires ScanDeci(p, e + 1) == Some(Scanned(last, next)) && first <= last
    ensures ScanSide(p, i) == Some(Side(first, last, true, next))
  {
    ScanRangeEndComma(p, e, first, last, next);
  }

  /** A numeral at `i`, followed by neither a digit nor a comma, is a single-line side. */
  lemma ReadSingleAt(p: seq<char>, i: nat, w: seq<char>, first: nat)
    requires first <= INT_MAX && Numeral(w, first) && Holds(p, i, w)
    requires !IsDigit(At(p, i + |w|)) && At(p, i + |w|) != ','
    ensures ScanSide(p, i) == Some(Side(first, first, false, i + |w|))
  {
    ScanDeciNumeral(p, i, w, first);
    ReadSingle(p, i, first, i + |w|);
  }

  /** Two ascending numerals around a comma at `i`, followed by a non-digit, are a range side. */
  lemma ReadRangeAt(p: seq<char>, i: nat, w1: seq<char>, first: nat, w2: seq<char>, last: nat)
    requires first <= last <= INT_MAX && Numeral(w1, first) && Numeral(w2, last)
    requires Holds(p, i, w1) && At(p, i + |w1|) == ','
    requires Holds(p, i + |w1| + 1, w2) && !IsDigit(At(p, i + |w1| + 1 + |w2|))
    ensures ScanSide(p, i) == Some(Side(first, last, true, i + |w1| + 1 + |w2|))
  {
    var e := i + |w1|;
    ScanDeciNumeral(p, i, w1, first);
    ScanDeciNumeral(p, e + 1, w2, last);
    ReadRange(p, i, first, e, last, e + 1 + |w2|);
  }

  /** The parts of a word `w1,w2` followed by `stop`. */
  lemma RangeWords(p: seq<char>, i: nat, w1: seq<char>, w2: seq<char>, stop: char)
    requires Holds(p, i, w1 + [','] + w2 + [stop])
    ensures Holds(p, i, w1) && At(p, i + |w1|) == ','
    ensures Holds(p, i + |w1| + 1, w2) && At(p, i + |w1| + 1 + |w2|) == stop
  {
    HoldsSplit(p, i, w1 + [','] + w2, [stop]);
    HoldsSplit(p, i, w1 + [','], w2);
    HoldsSplit(p, i, w1, [',']);
    assert p[i + |w1| + 0] == [','][0];
    assert p[i + |w1 + [','] + w2| + 0] == [stop][0];
  }

  /** The parts of a word `w` followed by `stop`. */
  lemma SingleWord(p: seq<char>, i: nat, w: seq<char>, stop: char)
    requires Holds(p, i, w + [stop])
    ensures Holds(p, i, w) && At(p, i + |w|) == stop
  {
    HoldsSplit(p, i, w, [stop]);
    assert p[i + |w| + 0] == [stop][0];
  }

  /** A side printed at `i`, followed by neither a digit nor a comma, reads back. */
  lemma ReadSide(p: seq<char>, i: nat, first: nat, last: nat, stop: char)
    requires first <= last <= INT_MAX && !IsDigit(stop) && stop != ','
    requires Holds(p, i, ShowSide(first, last) + [stop])
    ensures ScanSide(p, i) == Some(Side(first, last, last != first, i + |ShowSide(first, last)|))
  {
    ShowNumeral(first);
    if last == first {
      SingleWord(p, i, Show(first), stop);
      ReadSingleAt(p, i, Show(first), first);
    } else {
      ShowNumeral(last);
      RangeWords(p, i, Show(first), Show(last), stop);
      ReadRangeAt(p, i, Show(first), first, Show(last), last);
    }
  }

  /** The command is read from its two sides and the letter between them. */
  lemma ParseFromSides(p: seq<char>, n: nat, l: Side, cmd: char, q: Side)
    requires ScanSide(p, 0) == Some(l) && l.next == n
    requires n < |p| && p[n] == cmd
    requires (cmd == 'a' && !l.range) || cmd == 'c' || (cmd == 'd' && !q.range)
    requires n + 1 <= |p| && ScanSide(p, n + 1) == Some(q)
    ensures ParseCommand(p) == Some(DiffCmd(l.first, l.last, cmd, q.first, q.last))
  {
  }

  /** The left side of a printed line reads back and stops at the letter `c`. */
  lemma ReadLeft(p: seq<char>, f1: nat, f2: nat, c: char)
    requires f1 <= f2 <= INT_MAX && !IsDigit(c) && c != ','
    requires Holds(p, 0, ShowSide(f1, f2) + [c])
    ensures ScanSide(p, 0) == Some(Side(f1, f2, f2 != f1, |ShowSide(f1, f2)|))
    ensures |ShowSide(f1, f2)| < |p| && p[|ShowSide(f1, f2)|] == c
  {
    ReadSide(p, 0, f1, f2, c);
    assert p[0 + |ShowSide(f1, f2)|] == (ShowSide(f1, f2) + [c])[|ShowSide(f1, f2)|];
  }

  /** The right side of a printed line, which starts after the letter at `n`, reads back. */
  lemma ReadRight(p: seq<char>, t1: nat, t2: nat, n: nat)
    requires t1 <= t2 <= INT_MAX
    requires Holds(p, n + 1, ShowSide(t1, t2) + ['\n'])
    ensures ScanSide(p, n + 1) == Some(Side(t1, t2, t2 != t1, n + 1 + |ShowSide(t1, t2)|))
  {
    ReadSide(p, n + 1, t1, t2, '\n');
  }

  /** A line holding the two printed sides of `op` around its letter reads back as `op`. */
  lemma ReadPrinted(p: seq<char>, op: DiffCmd)
    requires WellFormed(op)
    requires Holds(p, 0, ShowSide(op.f1, op.f2) + [op.cmd])
    requires Holds(p, |ShowSide(op.f1, op.f2)| + 1, ShowSide(op.t1, op.t2) + ['\n'])
    ensures ParseCommand(p) == Some(op)
  {
    var n := |ShowSide(op.f1, op.f2)|;
    var l := Side(op.f1, op.f2, op.f2 != op.f1, n);
    var q := Side(op.t1, op.t2, op.t2 != op.t1, n + 1 + |ShowSide(op.t1, op.t2)|);
    ReadLeft(p, op.f1, op.f2, op.cmd);
    ReadRight(p, op.t1, op.t2, n);
    ParseFromSides(p, n, l, op.cmd, q);
  }

  /** Where the two halves of a line `a c b \n` sit in it. */
  lemma LineHolds(a: seq<char>, c: char, b: seq<char>)
    ensures Holds(a + [c] + b + ['\n'], 0, a + [c])
    ensures Holds(a + [c] + b + ['\n'], |a| + 1, b + ['\n'])
  {
    var p := a + [c] + b + ['\n'];
    HoldsSelf(p);
    HoldsSplit(p, 0, a + [c] + b, ['\n']);
    HoldsSplit(p, 0, a + [c], b);
    HoldsJoin(p, |a| + 1, b, ['\n']);
  }

  /** Reading back the line printed for a well-formed command gives that command. */
  lemma ParseFormat(op: DiffCmd)
    requires WellFormed(op)
    ensures ParseCommand(Format(op)) == Some(op)
  {
    LineHolds(ShowSide(op.f1, op.f2), op.cmd, ShowSide(op.t1, op.t2));
    ReadPrinted(Format(op), op);
  }

  // ---------------------------------------------------------------------
  // What scan_line turns down

  /** An `a` after a left range stops the parse. */
  lemma AddAfterRange(p: seq<char>, l: Side)
    requires ScanSide(p, 0) == Some(l) && l.range && l.next < |p| && p[l.next] == 'a'
    ensures ParseCommand(p) == None
  {
  }

  /** A line that starts with a printed range and an `a` is turned down. */
  lemma RejectsAddWithRange(p: seq<char>, f1: nat, f2: nat)
    requires f1 < f2 <= INT_MAX && Holds(p, 0, ShowSide(f1, f2) + ['a'])
    ensures ParseCommand(p) == None
  {
    ReadLeft(p, f1, f2, 'a');
    AddAfterRange(p, Side(f1, f2, true, |ShowSide(f1, f2)|));
  }

  /** A letter other than `a`, `c` and `d` after the left side stops the parse. */
  lemma OtherAfterSide(p: seq<char>, l: Side)
    requires ScanSide(p, 0) == Some(l)
    requires At(p, l.next) != 'a' && At(p, l.next) != 'c' && At(p, l.next) != 'd'
    ensures ParseCommand(p) == None
  {
  }

  /** A line that starts with a printed side and a letter other than `a`,
      `c` and `d` is turned down. */
  lemma RejectsOtherLetter(p: seq<char>, f1: nat, f2: nat, c: char)
    requires f1 <= f2 <= INT_MAX && !IsDigit(c) && c != ','
    requires c != 'a' && c != 'c' && c != 'd'
    requires Holds(p, 0, ShowSide(f1, f2) + [c])
    ensures ParseCommand(p) == None
  {
    ReadLeft(p, f1, f2, c);
    OtherAfterSide(p, Side(f1, f2, f2 != f1, |ShowSide(f1, f2)|));
  }

  /** A `d` command whose right side is a range stops the parse. */
  lemma DeleteFromSides(p: seq<char>, n: nat, l: Side, q: Side)
    requires ScanSide(p, 0) == Some(l) && l.next == n && n < |p| && p[n] == 'd'
    requires ScanSide(p, n + 1) == Some(q) && q.range
    ensures ParseCommand(p) == None
  {
  }

  /** A `d` line whose right side is a range is turned down. */
  lemma RejectsDeleteWithRange(p: seq<char>, f1: nat, f2: nat, t1: nat, t2: nat)
    requires f1 <= f2 <= INT_MAX && t1 < t2 <= INT_MAX
    requires Holds(p, 0, ShowSide(f1, f2) + ['d'])
    requires Holds(p, |ShowSide(f1, f2)| + 1, ShowSide(t1, t2) + ['\n'])
    ensures ParseCommand(p) == None
  {
    var n := |ShowSide(f1, f2)|;
    ReadLeft(p, f1, f2, 'd');
    ReadRight(p, t1, t2, n);
    DeleteFromSides(p, n, Side(f1, f2, f2 != f1, n), Side(t1, t2, true, n + 1 + |ShowSide(t1, t2)|));
  }

  /** Without a left side there is no command. */
  lemma NoLeftSide(p: seq<char>)
    requires ScanSide(p, 0) == None
    ensures ParseCommand(p) == None
  {
  }

  /** Two numbers around a comma, the second below the first, are no side. */
  lemma DescendingNumbers(p: seq<char>, f1: nat, e: nat, f2: nat, next: nat)
    requires ScanDeci(p, 0) == Some(Scanned(f1, e)) && e < |p| && p[e] == ','
    requires ScanDeci(p, e + 1) == Some(Scanned(f2, next)) && f2 < f1
    ensures ScanSide(p, 0) == None
  {
    assert ScanRangeEnd(p, e, f1) == None;
  }

  /** A range whose end is below its start does not read as a side. */
  lemma DescendingSide(p: seq<char>, f1: nat, f2: nat)
    requires f2 < f1 <= INT_MAX
    requires Holds(p, 0, Show(f1)) && At(p, |Show(f1)|) == ','
    requires Holds(p, |Show(f1)| + 1, Show(f2)) && !IsDigit(At(p, |Show(f1)| + 1 + |Show(f2)|))
    ensures ScanSide(p, 0) == None
  {
    var n := |Show(f1)|;
    ShowNumeral(f1);
    ShowNumeral(f2);
    ScanDeciNumeral(p, 0, Show(f1), f1);
    ScanDeciNumeral(p, n + 1, Show(f2), f2);
    DescendingNumbers(p, f1, n, f2, n + 1 + |Show(f2)|);
  }

  /** A line that starts with a descending range `f1,f2` is turned down. */
  lemma RejectsDescending(p: seq<char>, f1: nat, f2: nat, c: char)
    requires f2 < f1 <= INT_MAX && !IsDigit(c)
    requires Holds(p, 0, Show(f1) + [','] + Show(f2) + [c])
    ensures ParseCommand(p) == None
  {
    RangeWords(p, 0, Show(f1), Show(f2), c);
    DescendingSide(p, f1, f2);
    NoLeftSide(p);
  }

  /** A line that starts with a minus sign and a positive number is turned down. */
  lemma RejectsNegativeStart(p: seq<char>, n: nat, c: char)
    requires 0 < n <= INT_MAX && !IsDigit(c)
    requires Holds(p, 0, ['-'] + Show(n) + [c])
    ensures ParseCommand(p) == None
  {
    HoldsSplit(p, 0, ['-'] + Show(n), [c]);
    HoldsSplit(p, 0, ['-'], Show(n));
    assert p[0 + 0] == ['-'][0];
    assert p[1 + |Show(n)| + 0] == [c][0];
    ShowNumeral(n);
    ScanDeciNegative(p, Show(n), n);
    NoLeftSide(p);
  }

  // ---------------------------------------------------------------------
  // scan_diff: diff's output, line by line

  /** The size of scan_diff's line buffer; one byte is kept for the NUL, so
      a line is read whole only when it has at most BUFSIZ - 1 bytes. */
  const BUFSIZ: nat := 8192

  /** A line of diff's output as dview_fgets hands it over: read whole and
      ending in a newline. */
  predicate ReadWhole(l: seq<char>)
  {
    0 < |l| <= BUFSIZ - 1 && l[|l| - 1] == '\n'
  }

  /** What scan_diff makes of one line. */
  datatype Outcome = Skipped | Failed | Command(op: DiffCmd)

  /** A line starting with anything but a digit is skipped whatever its
      length; one starting with a digit must be read whole and hold a
      command. */
  function Classify(l: seq<char>): (o: Outcome)
    ensures o.Skipped? <==> !IsDigit(At(l, 0))
    ensures o.Command? <==> IsDigit(At(l, 0)) && ReadWhole(l) && ParseCommand(l).Some?
    ensures o.Command? ==> ParseCommand(l) == Some(o.op) && WellFormed(o.op)
  {
    if !IsDigit(At(l, 0)) then Skipped
    else if !ReadWhole(l) then Failed
    else
      match ParseCommand(l)
      case None => Failed
      case Some(op) => Command(op)
  }

  function Outcomes(lines: seq<seq<char>>): (outs: seq<Outcome>)
    ensures |outs| == |lines| && forall k :: 0 <= k < |lines| ==> outs[k] == Classify(lines[k])
  {
    seq(|lines|, k requires 0 <= k < |lines| => Classify(lines[k]))
  }

  /** The commands of the outcomes, appended to `ops`, up to the first
      failure; -1 at a failure, otherwise the length of the list. */
  function Collect(outs: seq<Outcome>, ops: seq<DiffCmd>): (r: LineResult)
    ensures r.code == -1 || r.code == |r.ops|
    ensures |ops| <= |r.ops| && r.ops[..|ops|] == ops
    ensures (forall k :: 0 <= k < |outs| ==> !outs[k].Failed?) ==> r.code == |r.ops|
    decreases |outs|
  {
    if outs == [] then LineResult(|ops|, ops)
    else
      match outs[0]
      case Skipped => Collect(outs[1..], ops)
      case Failed => LineResult(-1, ops)
      case Command(op) => Collect(outs[1..], ops + [op])
  }

  /** scan_diff over the lines of diff's output, appending to `ops`. */
  function ScanLines(lines: seq<seq<char>>, ops: seq<DiffCmd>): LineResult
  {
    Collect(Outcomes(lines), ops)
  }

  /** scan_diff: reads the lines in turn, stopping at the first failure. */
  method ScanDiff(lines: seq<seq<char>>, ops0: seq<DiffCmd>) returns (code: int, ops: seq<DiffCmd>)
    ensures LineResult(code, ops) == ScanLines(lines, ops0)
  {
    ghost var outs := Outcomes(lines);
    ops := ops0;
    var i := 0;
    while i < |lines|
      invariant 0 <= i <= |lines|
      invariant Collect(outs[i..], ops) == Collect(outs, ops0)
      decreases |lines| - i
    {
      var l := lines[i];
      assert outs[i..][1..] == outs[i + 1..];
      if IsDigit(At(l, 0)) {
        if !ReadWhole(l) {
          return -1, ops;
        }
        var s := ScanLine(l, ops);
        if s.code != 0 {
          return -1, ops;
        }
        ops := s.ops;
      }
      i := i + 1;
    }
    return |ops|, ops;
  }

  /** Every command collected comes from one of the outcomes. */
  lemma {:induction false} CollectedFrom(outs: seq<Outcome>, ops: seq<DiffCmd>)
    ensures forall j :: |ops| <= j < |Collect(outs, ops).ops| ==> Command(Collect(outs, ops).ops[j]) in outs
    decreases |outs|
  {
    if outs != [] {
      var r := Collect(outs, ops);
      var ops' := if outs[0].Command? then ops + [outs[0].op] else ops;
      CollectedFrom(outs[1..], ops');
      forall j | |ops| <= j < |r.ops|
        ensures Command(r.ops[j]) in outs
      {
        if j < |ops'| {
          assert r.ops[j] == r.ops[..|ops'|][j] == ops'[j];
        } else {
          assert Command(r.ops[j]) in outs[1..];
        }
      }
    }
  }

  /** Every command scan_diff appends was read from one of the lines, and so
      is well-formed. */
  lemma ScanLinesFromLines(lines: seq<seq<char>>, ops: seq<DiffCmd>)
    ensures forall j :: |ops| <= j < |ScanLines(lines, ops).ops| ==>
      exists k :: 0 <= k < |lines| && ParseCommand(lines[k]) == Some(ScanLines(lines, ops).ops[j])
  {
    var outs := Outcomes(lines);
    var r := ScanLines(lines, ops);
    assert r == Collect(outs, ops);
    CollectedFrom(outs, ops);
    forall j | |ops| <= j < |r.ops|
      ensures exists k :: 0 <= k < |lines| && ParseCommand(lines[k]) == Some(r.ops[j])
    {
      var k :| 0 <= k < |outs| && outs[k] == Command(r.ops[j]);
      assert Classify(lines[k]) == Command(r.ops[j]);
    }
  }

  function Pow10(k: nat): (r: nat)
    ensures 0 < r
  {
    if k == 0 then 1 else 10 * Pow10(k - 1)
  }

  /** A number below 10^k takes at most k digits. */
  lemma {:induction false} ShowLength(n: nat, k: nat)
    requires 0 < k && n < Pow10(k)
    ensures |Show(n)| <= k
    decreases n
  {
    if n >= 10 {
      assert n / 10 < Pow10(k - 1);
      ShowLength(n / 10, k - 1);
    }
  }

  /** An `int` prints in at most ten digits. */
  lemma ShowInt(n: nat)
    requires n <= INT_MAX
    ensures |Show(n)| <= 10
  {
    assert Pow10(10) == 10_000_000_000;
    ShowLength(n, 10);
  }

  /** The line printed for a command starts with a digit and is read whole. */
  lemma FormatReadWhole(op: DiffCmd)
    requires WellFormed(op)
    ensures IsDigit(At(Format(op), 0)) && ReadWhole(Format(op))
  {
    ShowInt(op.f1);
    ShowInt(op.f2);
    ShowInt(op.t1);
    ShowInt(op.t2);
    ShowNumeral(op.f1);
    assert Format(op)[0] == Show(op.f1)[0];
  }

  /** The lines diff prints for a list of commands. */
  function Printed(cmds: seq<DiffCmd>): (lines: seq<seq<char>>)
    requires forall k :: 0 <= k < |cmds| ==> WellFormed(cmds[k])
    ensures |lines| == |cmds| && forall k :: 0 <= k < |cmds| ==> lines[k] == Format(cmds[k])
  {
    seq(|cmds|, k requires 0 <= k < |cmds| => Format(cmds[k]))
  }

  /** Outcomes that are all commands give those commands, in order. */
  lemma {:induction false} CollectCommands(outs: seq<Outcome>, cmds: seq<DiffCmd>, ops: seq<DiffCmd>)
    requires |outs| == |cmds| && forall k :: 0 <= k < |outs| ==> outs[k] == Command(cmds[k])
    ensures Collect(outs, ops) == LineResult(|ops| + |cmds|, ops + cmds)
    decreases |outs|
  {
    if outs != [] {
      CollectCommands(outs[1..], cmds[1..], ops + [cmds[0]]);
      assert ops + [cmds[0]] + cmds[1..] == ops + cmds;
    }
  }

  /** Reading diff's output for a list of well-formed commands gives back
      the list, after what `ops` already held, and its length. */
  lemma ScanPrinted(cmds: seq<DiffCmd>, ops: seq<DiffCmd>)
    requires forall k :: 0 <= k < |cmds| ==> WellFormed(cmds[k])
    ensures ScanLines(Printed(cmds), ops) == LineResult(|ops| + |cmds|, ops + cmds)
  {
    var outs := Outcomes(Printed(cmds));
    forall k | 0 <= k < |cmds|
      ensures outs[k] == Command(cmds[k])
    {
      FormatReadWhole(cmds[k]);
      ParseFormat(cmds[k]);
    }
    CollectCommands(outs, cmds, ops);
  }

  /** A command line too long for the buffer, or missing its newline, fails
      the whole reading. */
  lemma RejectsCutLine(l: seq<char>, rest: seq<seq<char>>, ops: seq<DiffCmd>)
    requires IsDigit(At(l, 0)) && (BUFSIZ - 1 < |l| || l[|l| - 1] != '\n')
    ensures ScanLines([l] + rest, ops) == LineResult(-1, ops)
  {
    assert Outcomes([l] + rest)[0] == Failed;
  }
}

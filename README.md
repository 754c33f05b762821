# Diff viewer core and ownership command of a console file manager, in Dafny

This project models two parts of a console file manager.

1. The text-processing core of its diff viewer (`src/diffviewer/ydiff.c`):
   - reading the hunk commands that `diff` prints (`scan_deci`, `scan_line`, `scan_diff`);
   - highlighting the differences within a changed line (`lcsubstr`, `hdiff_multi`, `hdiff_scan`, `is_inside`);
   - expanding tabs while copying a line into a screen buffer (`TAB_SKIP`, `fill_by_space`, `cvt_cpy`, `cvt_ncpy`, `cvt_mget`, `cvt_mgeta`);
   - moving over the two aligned row arrays (`get_digits`, `get_line_numbers`, `find_prev_hunk`, `find_next_hunk`, `get_current_hunk`);
   - splitting the screen between the two panels (`dview_compute_split`, `dview_compute_areas`).
2. The ownership-change command (`src/filemanager/chown.c`): `try_chown`, `do_chown`, `apply_chowns` and the loop of `chown_cmd`, with the file-scope state `current_file` and `ignore_all`.

One module per file:

| file | module | models |
|---|---|---|
| `wrappers.dfy` | `Wrappers` | the `Option` type |
| `diff_commands.dfy` | `DiffCommands` | `scan_deci`, `scan_line`, `scan_diff`, and the `diff` group formats they read back |
| `lcs.dfy` | `CommonSubstring` | `lcsubstr` |
| `hdiff.dfy` | `HorizontalDiff` | `is_inside`, `hdiff_multi`, `hdiff_scan` |
| `render.dfy` | `Render` | `TAB_SKIP`, `fill_by_space`, `cvt_cpy`, `cvt_ncpy` |
| `line_reader.dfy` | `LineReader` | `cvt_mget`, `cvt_mgeta` |
| `navigation.dfy` | `Navigation` | `get_digits`, `get_line_numbers`, `find_prev_hunk`, `find_next_hunk`, `get_current_hunk`, `dview_compute_split`, `dview_compute_areas` |
| `chown.dfy` | `Chown` | `try_chown`, `do_chown`, `apply_chowns`, `chown_cmd` |

The model takes the form of the code:
- Code that works on values becomes functions and lemmas: parsing a hunk command, tab expansion, the hunk spans.
- Loops become methods with invariants, proved against those functions.
- Fixed-size screen buffers and the two DP rows of `lcsubstr` are `array`s.
- The viewer's geometry is a class with `bias`, `half1`, `half2` and `height`, updated in place.
- The chown command is a class with `current_file` and `ignore_all`. It works on a `Panel` class (the marks and the cursor) and an `Env` class. Each of its methods is proved equal, on a snapshot `Snap` of that state, to a function (DoChownOf, NextOf, ApplyFrom, ActOf, TurnOf, RoundOf, CmdOf), and the lemmas state what those functions do.

`Env` stands for the file system and the user. It holds the coming results of `mc_chown` and `mc_stat`, the coming answers to the failure prompt and the coming dialog outcomes, each as a sequence read from the front. It also logs the `mc_chown` calls made and counts the prompts and messages shown.

## Model

| member | source | states |
|---|---|---|
| DiffCommands.Wrap32 | src/diffviewer/ydiff.c:665 | storing strtol's `long` in an `int` keeps every value in the int range and changes none that fits |
| DiffCommands.ScanDeci | src/diffviewer/ydiff.c:658-670 | on success the number read is an int and the scan ends after a digit, before a non-digit; input that starts with no space, sign or digit fails |
| DiffCommands.ScanDeciNumeral | src/diffviewer/ydiff.c:658-670 | the decimal numeral of any n up to INT_MAX, followed by a non-digit, is read back as n with the position just after it |
| DiffCommands.ScanDeciNegative | src/diffviewer/ydiff.c:658-670 | a minus sign before a numeral is read as the negative number |
| DiffCommands.ScanRangeEnd | src/diffviewer/ydiff.c:702-710 | no comma means a single number with no range; a range is never descending |
| DiffCommands.ScanRangeEndComma | src/diffviewer/ydiff.c:703-710 | a comma followed by a number not below the first gives a range ending at that number |
| DiffCommands.ScanSide | src/diffviewer/ydiff.c:699-710 | a side that parses has 0 <= first <= last <= INT_MAX; without a range, last == first |
| DiffCommands.ParseCommand | src/diffviewer/ydiff.c:682-745 | every command accepted is well formed: a, c or d; no range before a; no range after d; sides non-negative and ascending |
| DiffCommands.ScanLine | src/diffviewer/ydiff.c:682-745 | returns 0 and appends exactly one well-formed command, or returns -1 and leaves the list unchanged |
| DiffCommands.ParseFormat | src/diffviewer/ydiff.c:799-802 | every well-formed command that the group formats print is parsed back to the same command (round trip) |
| DiffCommands.ReadPrinted | src/diffviewer/ydiff.c:682-745 | any line that begins with a printed command's two sides and letter parses to that command |
| DiffCommands.RejectsAddWithRange | src/diffviewer/ydiff.c:713-717 | `N,Ma…` with N < M is rejected |
| DiffCommands.RejectsOtherLetter | src/diffviewer/ydiff.c:712-719 | a side followed by a letter other than a, c, d is rejected |
| DiffCommands.RejectsDeleteWithRange | src/diffviewer/ydiff.c:735-736 | `…dN,M` with N < M is rejected |
| DiffCommands.RejectsDescending | src/diffviewer/ydiff.c:706-707 | a descending range `N,M` with M < N is rejected |
| DiffCommands.RejectsNegativeStart | src/diffviewer/ydiff.c:699-700 | a line that starts with a negative number is rejected |
| DiffCommands.NoLeftSide | src/diffviewer/ydiff.c:699-710 | a line whose first side does not parse is rejected |
| DiffCommands.Classify | src/diffviewer/ydiff.c:765-776 | a line is skipped iff it does not start with a digit; it yields a command iff it starts with a digit, was read whole and parses |
| DiffCommands.Collect | src/diffviewer/ydiff.c:763-779 | the result is -1 or the number of commands; the commands already in the list stay in front; with no failing line the result is that count |
| DiffCommands.ScanDiff | src/diffviewer/ydiff.c:757-780 | the loop over the lines returns exactly what the fold over the classified lines returns |
| DiffCommands.ScanLinesFromLines | src/diffviewer/ydiff.c:757-780 | every command scan_diff adds is the parse of one of the input lines |
| DiffCommands.ScanPrinted | src/diffviewer/ydiff.c:757-780 | scanning the printed lines of any list of well-formed commands appends exactly those commands and returns the new count (round trip) |
| DiffCommands.RejectsCutLine | src/diffviewer/ydiff.c:765-768 | a digit line that does not fit the buffer or lacks its newline makes scan_diff return -1 and add nothing |
| DiffCommands.FormatReadWhole | src/diffviewer/ydiff.c:761-768 | every printed command starts with a digit and fits the buffer with its newline |
| DiffCommands.ShowNumeral | src/diffviewer/ydiff.c:799-802 | the printed decimal form of n is a numeral whose value is n |
| DiffCommands.ShowInt | src/diffviewer/ydiff.c:799-802 | a number up to INT_MAX prints in at most 10 digits |
| CommonSubstring.SufIsCommon | src/diffviewer/ydiff.c:1031-1034 | the DP value is the length of a common run that ends at (i, j) |
| CommonSubstring.CommonIsSuf | src/diffviewer/ydiff.c:1031-1034 | every common run of length l that ends at (i, j) is counted in the DP value, so the value is the longest |
| CommonSubstring.LongestFromRows | src/diffviewer/ydiff.c:1014-1063 | once every row is scanned, no common substring is longer than z |
| CommonSubstring.FindClash | src/diffviewer/ydiff.c:1047-1052 | stops at the first pair with the same start in s or a start in t at or past the new one, or at the end |
| CommonSubstring.RecordMatch | src/diffviewer/ydiff.c:1031-1061 | z grows to v when v is longer and stays a common run; the kept pairs stay common runs of length z, in increasing order |
| CommonSubstring.LcsRow | src/diffviewer/ydiff.c:1016-1063 | after row i, the DP row holds the common-suffix lengths and z is the longest common substring so far |
| CommonSubstring.LcSubstr | src/diffviewer/ydiff.c:990-1070 | z is the length of a longest common substring (0 when either string is shorter than min); pairs are kept iff z >= min; each pair starts a common substring of length z; pairs increase in both strings |
| HorizontalDiff.IsInside | src/diffviewer/ydiff.c:1200-1217 | true iff position k lies in the chosen side of one of the brackets |
| HorizontalDiff.ShiftCommon | src/diffviewer/ydiff.c:1101-1102 | a common run of the two bracket substrings is a common run of the whole strings, shifted by the bracket offsets, and back |
| HorizontalDiff.PairsFromLcs | src/diffviewer/ydiff.c:1101-1103 | lcsubstr on a bracket finds pairs iff the bracket holds a common substring of at least min; each pair spans a matched run inside the bracket |
| HorizontalDiff.GapFits | src/diffviewer/ydiff.c:1109-1131 | every gap before, between and after the pairs lies inside the bracket and inside the strings |
| HorizontalDiff.ScanStretch | src/diffviewer/ydiff.c:1116-1126 | one gap's recursive call appends at least one bracket and keeps the progress invariant |
| HorizontalDiff.ScanStretches | src/diffviewer/ydiff.c:1105-1136 | the calls over all gaps append at least two brackets and find at least one match |
| HorizontalDiff.HdiffMulti | src/diffviewer/ydiff.c:1087-1147 | keeps the earlier entries and appends at least one bracket; each appended bracket lies in the input bracket and fits the strings; the matched runs found are common substrings of length at least min inside it, and no appended bracket overlaps one; with depth 0 or no common substring of length min it appends exactly the input bracket, otherwise it finds a match and appends at least two |
| HorizontalDiff.NotHighlighted | src/diffviewer/ydiff.c:1087-1147 | no position outside the bracket, and no position of a matched run, is inside an appended bracket |
| HorizontalDiff.HdiffScan | src/diffviewer/ydiff.c:1165-1184 | the common prefix and suffix are the longest ones that do not overlap; no position in them or in a matched run is highlighted; at least one bracket is appended; with depth 0 or no common substring of length min in the middle, exactly the middle is appended |
| Render.CRem | src/diffviewer/ydiff.c:108 | C's `%` by a positive divisor: the remainder has the sign of the dividend and a smaller magnitude |
| Render.TabSkipReachesNextStop | src/diffviewer/ydiff.c:105-112 | from a non-negative column, a tab covers 1..w columns (w is ts when 1..8, otherwise 8) and ends on the next tab stop, with no stop before it |
| Render.ExpandTabsSplit | src/diffviewer/ydiff.c:1234-1253 | expanding a concatenation expands the second part from the column the first part reached |
| Render.ExpandTabsShape | src/diffviewer/ydiff.c:1234-1253 | the expansion is no shorter than the source and holds no tab |
| Render.ExpandTabsIdentity | src/diffviewer/ydiff.c:1234-1253 | a line without tabs is copied unchanged |
| Render.ExpandTabsEndsOnStop | src/diffviewer/ydiff.c:1234-1253 | the expansion of a line that ends in a tab, from a non-negative column, ends on a tab stop |
| Render.ExpandTabsPrefix | src/diffviewer/ydiff.c:1274-1297 | the expansion of a prefix is a prefix of the expansion, and a proper one for a proper prefix |
| Render.FillBySpace | src/diffviewer/ydiff.c:123-129 | writes n spaces, then a NUL when asked, and changes no other cell |
| Render.CvtCpy | src/diffviewer/ydiff.c:1234-1253 | the buffer holds the tab expansion of the whole source from the start index; returns base plus its length; no other cell changes |
| Render.CvtNcpy | src/diffviewer/ydiff.c:1274-1297 | writes the expansion of the bytes consumed, cut at dstsize; stops only when the source is used up or the buffer is full; every byte consumed starts inside the buffer; equals cvt_cpy when the expansion fits |
| LineReader.TabRunClosed | src/diffviewer/ydiff.c:1329-1344 | a tab of j columns first uses up the skip and then writes min(j - skipped, room) spaces |
| LineReader.TabRunTestsAgree | src/diffviewer/ydiff.c:1427-1437 | cvt_mgeta's `skip != 0` test skips the same tab columns as cvt_mget's `skip > 0` for any non-negative skip |
| LineReader.MGetTestsAgree | src/diffviewer/ydiff.c:1407-1484 | for a non-negative skip, cvt_mgeta lays out the same cells as cvt_mget |
| LineReader.MGetCellsShape | src/diffviewer/ydiff.c:1315-1386 | at most `room` cells are added after the ones already written; none is a tab or newline; each comes from a source byte at or after the current one |
| LineReader.MGetExpandsTabs | src/diffviewer/ydiff.c:1315-1386 | with no skip and enough room, a line is shown as its tab expansion, followed by `^M` for a CR ending when show_cr is set |
| LineReader.MGetLineEnd | src/diffviewer/ydiff.c:1345-1362 | at a newline, a lone trailing CR or a CR before a newline, the line ends; the CR shows as `^M` when show_cr is set |
| LineReader.MGetSkipsPlain | src/diffviewer/ydiff.c:1363-1371 | skipping n plain one-byte characters is the same as starting n bytes and n columns later |
| LineReader.LineCells | src/diffviewer/ydiff.c:1315-1386 | a line yields at most dstsize cells, and none when the source is NULL |
| LineReader.TabColumns | src/diffviewer/ydiff.c:1333-1343 | the inner loop over a tab's columns writes the spaces TabRun gives and updates skip and room as it says |
| LineReader.MGetByte | src/diffviewer/ydiff.c:1327-1377 | one turn of cvt_mget's loop writes the cells of one source byte and leaves the rest of the line to the same layout function |
| LineReader.CvtMget | src/diffviewer/ydiff.c:1315-1386 | the buffer holds the cells of the line, then spaces up to dstsize and a NUL; returns the number of cells; nothing past the NUL changes |
| LineReader.TabColumnsAtt | src/diffviewer/ydiff.c:1427-1437 | as TabColumns, and each space's attribute says whether the tab's byte lies in a bracket |
| LineReader.MGetaByte | src/diffviewer/ydiff.c:1407-1484 | as MGetByte, with each cell's attribute set by is_inside of its source byte |
| LineReader.CvtMgeta | src/diffviewer/ydiff.c:1407-1484 | as CvtMget; each written cell's attribute is is_inside of the byte it came from, and padding cells are unmarked |
| Navigation.ShowBounds | src/diffviewer/ydiff.c:1794-1802 | the number of decimal digits d of n satisfies n < 10^d and, for d > 1, 10^(d-1) <= n |
| Navigation.GetDigits | src/diffviewer/ydiff.c:1794-1802 | returns the number of decimal digits of n: the length of its printed form, bounded by the powers of ten |
| Navigation.ClampRow | src/diffviewer/ydiff.c:1816-1817 | a cursor past the end stands for the last row; any other cursor stands for itself |
| Navigation.GetLineNumbers | src/diffviewer/ydiff.c:1806-1837 | 0 and 0 for an empty array; otherwise the row's own number with offset 0, or the nearest numbered row above and the distance to it, or 0 and row + 1 when none |
| Navigation.FindNextHunk | src/diffviewer/ydiff.c:1880-1888 | the result is the first hunk start after pos, or the end of the array; no hunk starts between pos and the result |
| Navigation.FindPrevHunk | src/diffviewer/ydiff.c:1856-1876 | a positive result is a hunk start with an equal row between it and pos; every later hunk start up to pos opens the hunk that holds pos |
| Navigation.KindOf | src/diffviewer/ydiff.c:1924-1937 | a row kind gives no hunk iff it is none of `+`, `-`, `*` (with `+` reported as a deletion and `-` as an addition) |
| Navigation.GapRow | src/diffviewer/ydiff.c:1939-1940 | the walk back stops at or above the row; only changed rows lie between; it stops on an equal row unless it reaches the top |
| Navigation.HunkEndRow | src/diffviewer/ydiff.c:1947-1948 | the walk forward stops at the first equal row or the end; only changed rows lie between |
| Navigation.LastNumbered | src/diffviewer/ydiff.c:1947-1958 | the number of the last numbered row in the range, or 0 when none of its rows has a number |
| Navigation.HunkFirstRow | src/diffviewer/ydiff.c:1939-1945 | the first row of the hunk that holds a changed row: only changed rows from it to the row, and an equal row just above it unless it is the top row |
| Navigation.WalkBack | src/diffviewer/ydiff.c:1939-1940 | the loop stops where GapRow says |
| Navigation.WalkForward | src/diffviewer/ydiff.c:1947-1958 | each side's last line is the larger of its first line and the last numbered row of the hunk, or 1 when the hunk has no numbered row |
| Navigation.GetCurrentHunk | src/diffviewer/ydiff.c:1902-1961 | an empty file gives no hunk; an equal row gives kind 0 and lines 1..1; a changed row gives its kind and, as written, first lines from the walk back's row only when that row is not row 0 |
| Navigation.FirstLineMissesTopRow | src/diffviewer/ydiff.c:1941-1945 | a hunk at row 1 under an equal row 0 with line 1 is reported to start at line 1, not at line 2 |
| Navigation.GetCurrentHunkFixed | src/diffviewer/ydiff.c:1902-1961 | as GetCurrentHunk, but the first lines are always one past the lines of the equal row above the hunk, or 1 when the hunk opens the file |
| Navigation.CHalf | src/diffviewer/ydiff.c:2192 | C's `cols / 2`: truncated toward zero, within one of half |
| Navigation.DiffView.ComputeSplit | src/diffviewer/ydiff.c:2176-2184 | shifts bias by i, clamped so that the right panel keeps 2 columns, and the left one too when there is room for both; the widths still sum to the columns; nothing else changes |
| Navigation.DiffView.ComputeAreas | src/diffviewer/ydiff.c:2188-2198 | height is lines - 1; the halves split cols (the right one the larger by at most one); the old bias is kept when both panels stay two columns wide, otherwise it is clamped to the right bound, or to the left bound unless that exceeds the right one |
| Chown.Count | src/filemanager/chown.c:510 | the number of marked entries is at most the number of entries |
| Chown.CountUnmark | src/filemanager/chown.c:316 | clearing a mark lowers the marked count by one exactly when the entry was marked |
| Chown.CountZero | src/filemanager/chown.c:510 | no entry is marked iff the marked count is 0 |
| Chown.FirstMarkedFrom | src/filemanager/chown.c:336 | the first marked entry at or after k, or past the end; no marked entry is skipped |
| Chown.Panel.Unmark | src/filemanager/chown.c:316 | do_file_mark(panel, i, 0): clears mark i, and lowers the count when it was set |
| Chown.Panel.FindMarkedFile | src/filemanager/chown.c:336 | the first marked entry from the cursor on, or none |
| Chown.Panel.GetMarkedFile | src/filemanager/chown.c:388 | the next marked entry when there are marks, otherwise the entry under the cursor |
| Chown.Selected | src/filemanager/chown.c:388-390 | the entry a pass works on exists, and is marked whenever anything is marked |
| Chown.AfterAttempt | src/filemanager/chown.c:273-302 | try_chown from one mc_chown result on, as a function of the oracles: at least one call, and no more answers used than there are |
| Chown.TryWithoutPrompt | src/filemanager/chown.c:273 | a change that succeeds, or any change while ignore_all is set, returns TRUE after one call and no prompt |
| Chown.TryAfterFailure | src/filemanager/chown.c:282-302 | after a failure: Ignore gives TRUE, Ignore all gives TRUE and sets ignore_all, Retry calls again, and anything else gives FALSE |
| Chown.AnswersOfTry | src/filemanager/chown.c:273-302 | all answers used but the last are Retry; answers used <= prompts <= calls <= prompts + 1 |
| Chown.OutcomeOfTry | src/filemanager/chown.c:273-302 | ignore_all ends set iff it was set or the last answer was Ignore all; FALSE comes only after a prompt, never with ignore_all set, and from an Abort-like answer or from the answers running out |
| Chown.UsedByTry | src/filemanager/chown.c:268-305 | try_chown only consumes answers; ignore_all once set stays set and makes the result TRUE |
| Chown.ChownCommand.constructor | src/filemanager/chown.c:98-99 | current_file starts at 0 and ignore_all unset |
| Chown.ChownCommand.TryChown | src/filemanager/chown.c:268-305 | the loop makes exactly the calls, prompts and answer uses that Try gives, all on one entry with the same ids, and returns its result |
| Chown.ChownCommand.DoChown | src/filemanager/chown.c:309-319 | equals DoChownOf: try_chown's calls, prompts and answer uses as Try gives them and its result, then the mark of current_file cleared whatever the result; the marked count drops by one when that mark was set |
| Chown.AnswersOfOutcome | src/filemanager/chown.c:273-302 | try_chown that returns TRUE consumed only Ignore, Ignore all or Retry answers, one per prompt; one that returns FALSE settled all but its last prompt, which got some other answer or found the answers used up |
| Chown.FirstStep | src/filemanager/chown.c:328-329 | the first do_chown of apply_chowns clears only current_file's mark, touches no later entry, calls only on that entry, and is all that happens when it returns FALSE |
| Chown.NextPassed | src/filemanager/chown.c:334-351 | one pass of the do-while, as NextOf computes it, moves current_file to the next marked entry and clears exactly that mark; every call is on that entry with the given ids; its prompts are all settled when the pass returns TRUE, and the last one gave up when it returns FALSE |
| Chown.ChownCommand.ApplyNext | src/filemanager/chown.c:334-351 | equals NextOf: current_file moves to the next marked entry; one that mc_stat cannot find loses its mark with no call and the pass returns TRUE; any other is do_chowned; exactly one mark is cleared when one was left |
| Chown.LoopOutcome | src/filemanager/chown.c:331-354 | the do-while, as ApplyLoop computes it, either leaves no mark with every prompt settled, or stops on the pass whose prompt gave up, with every later entry still marked |
| Chown.ApplyFromOutcome | src/filemanager/chown.c:323-355 | apply_chowns as ApplyFrom computes it has ApplyOutcome: marks only cleared, calls only on `f` or marked entries, answers only consumed, and when the first do_chown returns FALSE nothing else happens |
| Chown.ChownCommand.ApplyChowns | src/filemanager/chown.c:323-355 | equals ApplyFrom: do_chown on the first entry, nothing more when it returns FALSE, then passes of the do-while until one returns FALSE or no mark is left |
| Chown.LoopAllSucceed | src/filemanager/chown.c:331-354 | when every mc_stat and mc_chown succeeds the do-while makes one call on each marked entry from current_file on, in order, with no prompt, and leaves no mark |
| Chown.ApplyAllSucceed | src/filemanager/chown.c:323-355 | when every mc_stat and mc_chown succeeds apply_chowns makes one call on its first entry and then one on each later marked entry, in order, with no prompt, and leaves no mark |
| Chown.ChownCommand.Pick | src/filemanager/chown.c:388-397 | the entry Selected gives and whether mc_stat finds it; current_file moves to the first marked entry from itself on when entries are marked |
| Chown.ActOfOutcome | src/filemanager/chown.c:415-498 | the switch as ActOf computes it: Cancel ends and changes nothing; Set on one file makes one call; Set on many is try_chown, and giving up turns the result into Cancel; Set all, Set users and Set groups with resolved names end with ApplyOutcome; unresolved names and other buttons change nothing and do not end; need_update is set exactly for Set and the apply_chowns cases |
| Chown.ChownCommand.Act | src/filemanager/chown.c:415-498 | equals ActOf, messages included: a failed single-file chown shows one message and no prompt |
| Chown.PassOutcome | src/filemanager/chown.c:415-504 | the switch followed by clearing current_file's mark unless the result is Cancel gives the pass's outcome: Cancel changes nothing; Set on the only or last file leaves no mark; Set on many ends iff try_chown gives up and otherwise clears the entry's mark; an idle button does not end and clears the mark when there are marks; the apply_chowns buttons end with ApplyChowns's outcome |
| Chown.TurnOfOutcome | src/filemanager/chown.c:413-504 | one dialog part, as TurnOf computes it, uses exactly one dialog, has the outcome PassDone states, and sets need_update exactly when the result is not Cancel and the button is Set or an apply_chowns button or marks were left |
| Chown.ChownCommand.Turn | src/filemanager/chown.c:413-504 | equals TurnOf: the next dialog, the switch, then clearing the mark of current_file unless the result is Cancel or no mark is left |
| Chown.RoundOfOutcome | src/filemanager/chown.c:385-510 | one pass, as RoundOf computes it, has RoundOutcome; it finds an entry exactly when one is selected and mc_stat succeeds; otherwise it breaks out with end_chown and need_update unset and uses no dialog |
| Chown.ChownCommand.Round | src/filemanager/chown.c:385-510 | equals RoundOf: need_update and end_chown reset, the next marked entry or the cursor entry, a break (found false, both flags unset) when there is none or mc_stat fails, else the dialog part on it |
| Chown.RoundLowers | src/filemanager/chown.c:510 | a pass that neither ends the command nor leaves the panel unmarked lowers the marked count, so the do-while ends |
| Chown.LoopOfOutcome | src/filemanager/chown.c:372-510 | the do-while, as LoopOf computes it, stops with no mark left or end_chown set; marks are only cleared, calls only reach targets, answers are only consumed |
| Chown.CmdOfOutcome | src/filemanager/chown.c:361-513 | chown_cmd as CmdOf computes it has CmdOutcome: it stops with no mark left or end_chown set; with nothing selected or a failed mc_stat nothing changes; after a first dialog of Cancel, Set on one file, Set whose try_chown gives up, or Set all, users or groups, the outcome is that first pass's, from current_file 0 and ignore_all unset |
| Chown.CmdBreaks | src/filemanager/chown.c:385-512 | with nothing selected or a failed mc_stat, chown_cmd returns end_chown and need_update unset, changing no mark, making no call and showing no prompt or message |
| Chown.SingleSetFails | src/filemanager/chown.c:436-510 | Set on the only file whose mc_chown fails makes one call, shows one message and no prompt, leaves no mark and returns end_chown and need_update set |
| Chown.IdleGoesOn | src/filemanager/chown.c:462-510 | Set users or Set groups on a name that does not resolve, or an unknown button, with more than one mark, does not end the command: the pass makes no call, clears one mark, sets need_update, and the do-while goes on with the next dialog |
| Chown.AllSetLoop | src/filemanager/chown.c:436-510 | a Set dialog per marked entry, with every mc_stat and mc_chown succeeding, makes one call on each marked entry in order, uses one dialog each, shows no prompt, leaves no mark and ends with need_update set |
| Chown.ChownCommand.ChownCmd | src/filemanager/chown.c:361-513 | equals CmdOf, messages included: current_file reset to 0 and ignore_all unset, then passes until one breaks out, no mark is left or one ends the command; need_update and end_chown are the last pass's, both unset after a break |
| Chown.AnswersUsedTrans | src/filemanager/chown.c:372-510 | consuming answers in two steps is consuming them in one |
| Chown.CallsToTarget | src/filemanager/chown.c:415-498 | the calls of one pass, on its entry or on marked entries, reach targets when its entry is one |
| Chown.TargetsNarrow | src/filemanager/chown.c:372-510 | a later pass's targets, while marks remain, are targets of the first pass |

## Left out

- The `FBUF` buffered reader, `dview_fgets`, running `diff` and the temporary files are not modelled. scan_diff is modelled over the lines `dview_fgets` would hand it, so a digit line is one chunk of at most BUFSIZ - 1 bytes.
- Drawing, key handling, the merge functions and the rest of `ydiff.c` are outside this model.
- `dview_get_utf` is not part of this model. Its character lengths are a parameter `utf`, one entry per source byte.
- Allocation failures are not modelled: `g_try_new0` returning NULL (lcsubstr's -1), and `hdiff_multi` returning FALSE, which only follows from that.
- Integers are unbounded. Overflow of column counters and buffer sizes is not modelled; strtol's `long` overflow and the `long` to `int` cast in scan_deci are.
- `size_t srcsize` and `const char *` lines are sequences, and a NULL line is `None`.
- Navigation.GetCurrentHunk: the `DIFF_ADD`, `DIFF_DEL` and `DIFF_CHG` numbers are an enumeration. The cursor `dview->skip_rows` is a parameter that must lie inside the array, as the caller guarantees.
- Navigation.FindPrevHunk: when the walk back ends at row 0 the result is 0, even when row 1 opens a hunk under an equal row 0. The contract says nothing about the hunk for a result of 0.
- Navigation.DiffView: only the fields these two functions touch are modelled. The `full` mode and the display widths elsewhere in the viewer are not.
- The chown dialog, its list boxes and labels, `getpwnam` and `getgrnam` are not modelled. A dialog outcome carries the button and the ids already resolved, with None for a name that does not resolve.
- File names and `vfs_path_t` are panel entry indexes.
- The prompt text, `errno`, screen refreshes, `chown_init` and `chown_done` are not modelled. ChownCmd returns the `need_update` that is passed to `chown_done`.
- `panel_get_marked_file`, `panel_find_marked_file` and `do_file_mark` are not part of this model. They are given by the behaviour chown relies on: the first marked entry from the cursor on, or the cursor entry when nothing is marked.
- Chown.ChownCommand.ApplyChowns: the source's do-while runs its body once after the first do_chown without testing the marked count. That cannot find no mark in the source: the Set all, Set users and Set groups buttons exist only when at least two entries are marked (src/filemanager/chown.c:204, 245-246). The model's dialog oracle may offer those buttons with any number of marks, so the model tests the count before each pass.
- CommonSubstring.LcSubstr: lcsubstr appends to the caller's `ret` array; the model starts from an empty pair list, which is what the only caller passes (src/diffviewer/ydiff.c:1098-1100).
- Chown.Env: the oracles are finite. A used-up `mc_chown` or `mc_stat` stream succeeds, a used-up answer stream answers Abort, and a used-up dialog stream gives Cancel.
- HorizontalDiff.HdiffMulti: the contract states where the appended brackets lie and what they exclude, not the exact list. Overlapping pairs from lcsubstr can give a gap of negative length, which the contract allows.

## Findings

| source | as written | input that shows it | evidently intended | confidence | as-written member | corrected member |
|---|---|---|---|---|---|---|
| src/diffviewer/ydiff.c:1941 | `if (pos > 0)` takes the first lines from the row where the walk back stopped only when that row is not row 0, so an equal row 0 is ignored | rows `[(line 1, ' '), (line 2, '*')]`, cursor on row 1: the hunk is reported to start at line 1 | the hunk starts one past the equal row above it, at line 2; the test should be whether that row is an equal row | not executed | Navigation.GetCurrentHunk, Navigation.FirstLineMissesTopRow | Navigation.GetCurrentHunkFixed |

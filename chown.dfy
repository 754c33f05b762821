/** The ownership-change command of the file manager: change the owner and
    group of the marked files of a panel, one dialog per file or one choice
    for all of them, with an Ignore / Ignore all / Retry / Abort prompt when
    a change fails. The file system and the user are oracles: the results of
    the coming mc_chown and mc_stat calls, the user's answers and the
    dialogs' outcomes are sequences read from the front. */
module Chown {
  import opened Wrappers

  /** A user or group id to set; None is `(uid_t) -1` / `(gid_t) -1`,
      which leaves that id unchanged. */
  type Id = Option<nat>

  /** The answers of the file_error prompt; anything else counts as Abort. */
  datatype Answer = Ignore | IgnoreAll | Retry | Abort | OtherAnswer

  /** The dialog's buttons; OtherButton stands for any other dialog result. */
  datatype Button = SetAll | SetGroups | SetUsers | Set | Cancel | OtherButton

  /** How a chown dialog ended: the button and the ids getpwnam and getgrnam
      give for the names selected in the two lists (None when a name does
      not resolve). */
  datatype Dialog = Dialog(button: Button, user: Id, group: Id)

  /** One mc_chown call: the panel entry's index and the ids passed. */
  datatype Call = Call(file: nat, user: Id, group: Id)

  // ---------------------------------------------------------------------
  // Oracle streams

  /** The front of an oracle stream, or `dflt` once it is used up. */
  function Head<T>(s: seq<T>, dflt: T): T
  {
    if s == [] then dflt else s[0]
  }

  /** The stream after its front has been used. */
  function Rest<T>(s: seq<T>): (r: seq<T>)
    ensures s != [] ==> |r| == |s| - 1
    ensures s == [] ==> r == []
  {
    if s == [] then [] else s[1..]
  }

  function Repeat<T>(x: T, n: nat): (r: seq<T>)
    ensures |r| == n && forall k :: 0 <= k < n ==> r[k] == x
  {
    seq(n, _ => x)
  }

  lemma AppendRepeat<T>(a: seq<T>, x: T, n: nat)
    ensures a + Repeat(x, n) + [x] == a + Repeat(x, n + 1)
  {
    assert Repeat(x, n) + [x] == Repeat(x, n + 1);
  }

  // ---------------------------------------------------------------------
  // Panel marks

  /** The number of marked entries (`panel->marked`). */
  function Count(s: seq<bool>): (n: nat)
    ensures n <= |s|
  {
    if s == [] then 0 else (if s[0] then 1 else 0) + Count(s[1..])
  }

  lemma {:induction false} CountUnmark(s: seq<bool>, i: nat)
    requires i < |s|
    ensures Count(s[i := false]) == Count(s) - (if s[i] then 1 else 0)
    decreases i
  {
    if i > 0 {
      assert s[i := false][1..] == s[1..][i - 1 := false];
      CountUnmark(s[1..], i - 1);
    } else {
      assert s[i := false][1..] == s[1..];
    }
  }

  lemma {:induction false} CountZero(s: seq<bool>)
    ensures Count(s) == 0 <==> forall i :: 0 <= i < |s| ==> !s[i]
    decreases |s|
  {
    if s != [] {
      CountZero(s[1..]);
      assert forall i :: 1 <= i < |s| ==> s[i] == s[1..][i - 1];
    }
  }

  /** No entry before `k` is marked. */
  ghost predicate NoMarksBefore(s: seq<bool>, k: nat)
  {
    forall i :: 0 <= i < k && i < |s| ==> !s[i]
  }

  /** `after` is `before` with some marks cleared and none set. */
  ghost predicate Cleared(before: seq<bool>, after: seq<bool>)
  {
    |after| == |before| && forall i :: 0 <= i < |after| && after[i] ==> before[i]
  }

  lemma ClearedUnmark(m0: seq<bool>, m1: seq<bool>, i: nat)
    requires Cleared(m0, m1)
    ensures Cleared(m0, Unmarked(m1, i))
  {
  }

  /** The first marked entry at or after `k`, or `k` itself when there is
      none from `k` to the end and `k` is past it, else the end. */
  function FirstMarkedFrom(s: seq<bool>, k: nat): (r: nat)
    ensures k <= r
    ensures r < |s| ==> s[r]
    ensures r >= |s| ==> r == if k >= |s| then k else |s|
    ensures forall i :: k <= i < r && i < |s| ==> !s[i]
    decreases |s| - k
  {
    if k >= |s| || s[k] then k else FirstMarkedFrom(s, k + 1)
  }

  /** With nothing marked before `k`, a panel that has marks has one at or
      after `k`. */
  lemma MarkAhead(s: seq<bool>, k: nat)
    requires NoMarksBefore(s, k) && Count(s) > 0
    ensures FirstMarkedFrom(s, k) < |s|
  {
    CountZero(s);
  }

  /** `do_file_mark (panel, i, 0)` on a list of `|s|` entries. */
  function Unmarked(s: seq<bool>, i: nat): seq<bool>
  {
    if i < |s| then s[i := false] else s
  }

  /** The panel: the mark of each directory entry and the entry under the
      cursor. panel_get_marked_file, panel_find_marked_file and do_file_mark
      belong to the panel; they are given here by what chown relies on. */
  class Panel {
    var marks: seq<bool>
    var current: nat

    function Marked(): nat
      reads this
    {
      Count(marks)
    }

    /** do_file_mark (panel, i, 0): clear the mark of entry `i`, lowering the
        marked count when it was set. */
    method Unmark(i: nat)
      modifies this`marks
      ensures marks == Unmarked(old(marks), i)
      ensures Marked() == old(Marked()) - (if i < |marks| && old(marks)[i] then 1 else 0)
    {
      if i < |marks| {
        CountUnmark(marks, i);
        marks := marks[i := false];
      }
    }

    /** panel_find_marked_file: the first marked entry from `cur` on, and
        the cursor moved there. */
    method FindMarkedFile(cur: nat) returns (file: Option<nat>, next: nat)
      ensures next == FirstMarkedFrom(marks, cur)
      ensures file == if next < |marks| then Some(next) else None
    {
      next := cur;
      while next < |marks| && !marks[next]
        invariant cur <= next
        invariant FirstMarkedFrom(marks, next) == FirstMarkedFrom(marks, cur)
        decreases |marks| - next
      {
        next := next + 1;
      }
      file := if next < |marks| then Some(next) else None;
    }

    /** panel_get_marked_file: the next marked entry when there are marks,
        otherwise the entry under the cursor. */
    method GetMarkedFile(cur: nat) returns (file: Option<nat>, next: nat)
      ensures Marked() > 0 ==> next == FirstMarkedFrom(marks, cur) && file == if next < |marks| then Some(next) else None
      ensures Marked() == 0 ==> next == cur && file == if current < |marks| then Some(current) else None
    {
      if Marked() > 0 {
        file, next := FindMarkedFile(cur);
      } else {
        next := cur;
        file := if current < |marks| then Some(current) else None;
      }
    }
  }

  /** The entry chown_cmd's loop works on next, when `cur` is current_file. */
  function Selected(marks: seq<bool>, current: nat, cur: nat): (r: Option<nat>)
    ensures r.Some? ==> r.value < |marks|
    ensures r.Some? && Count(marks) > 0 ==> marks[r.value]
  {
    if Count(marks) > 0 then
      var next := FirstMarkedFrom(marks, cur);
      if next < |marks| then Some(next) else None
    else if current < |marks| then Some(current) else None
  }

  // ---------------------------------------------------------------------
  // The oracles

  /** The file system and the user: results of the coming calls, and a log
      of the calls made and the messages shown. */
  class Env {
    /** The results of the coming mc_chown calls (success once used up). */
    var chownOk: seq<bool>
    /** The results of the coming mc_stat calls (success once used up). */
    var statOk: seq<bool>
    /** The user's answers to the coming failure prompts (Abort once used up). */
    var answers: seq<Answer>
    /** The outcomes of the coming chown dialogs (Cancel once used up). */
    var dialogs: seq<Dialog>
    /** The mc_chown calls made. */
    var calls: seq<Call>
    /** The failure prompts shown (file_error). */
    var prompts: nat
    /** The failure messages shown without a prompt (file_error_message). */
    var messages: nat

    method Chown(file: nat, u: Id, g: Id) returns (ok: bool)
      modifies this`chownOk, this`calls
      ensures ok == Head(old(chownOk), true) && chownOk == Rest(old(chownOk))
      ensures calls == old(calls) + [Call(file, u, g)]
    {
      ok := Head(chownOk, true);
      chownOk := Rest(chownOk);
      calls := calls + [Call(file, u, g)];
    }

    method Stat(file: nat) returns (ok: bool)
      modifies this`statOk
      ensures ok == Head(old(statOk), true) && statOk == Rest(old(statOk))
    {
      ok := Head(statOk, true);
      statOk := Rest(statOk);
    }

    method Ask() returns (a: Answer)
      modifies this`answers, this`prompts
      ensures a == Head(old(answers), Abort) && answers == Rest(old(answers))
      ensures prompts == old(prompts) + 1
    {
      a := Head(answers, Abort);
      answers := Rest(answers);
      prompts := prompts + 1;
    }

    method RunDialog() returns (d: Dialog)
      modifies this`dialogs
      ensures d == Head(old(dialogs), Dialog(Cancel, None, None)) && dialogs == Rest(old(dialogs))
    {
      d := Head(dialogs, Dialog(Cancel, None, None));
      dialogs := Rest(dialogs);
    }

    method Report()
      modifies this`messages
      ensures messages == old(messages) + 1
    {
      messages := messages + 1;
    }
  }

  // ---------------------------------------------------------------------
  // try_chown as a function of the oracles

  /** What try_chown did: its result, the ignore_all flag after it, the
      mc_chown calls and prompts it made, how many answers it used, and the
      mc_chown results it left. */
  datatype Tried = Tried(ok: bool, ignoreAll: bool, attempts: nat, prompts: nat, used: nat,
                         chownOk: seq<bool>)

  /** `r` after `n` more failed calls, each answered Retry. */
  function Retried(r: Tried, n: nat): Tried
  {
    r.(attempts := r.attempts + n, prompts := r.prompts + n, used := r.used + n)
  }

  /** try_chown's loop after an mc_chown call that `succeeded` or not. */
  function AfterAttempt(succeeded: bool, chownOk: seq<bool>, answers: seq<Answer>, ignoreAll: bool): (r: Tried)
    ensures 1 <= r.attempts && r.used <= |answers|
    decreases |answers|
  {
    if succeeded || ignoreAll then Tried(true, ignoreAll, 1, 0, 0, chownOk)
    else if answers == [] then Tried(false, ignoreAll, 1, 1, 0, chownOk)
    else match answers[0]
      case Ignore => Tried(true, ignoreAll, 1, 1, 1, chownOk)
      case IgnoreAll => Tried(true, true, 1, 1, 1, chownOk)
      case Retry => Retried(AfterAttempt(Head(chownOk, true), Rest(chownOk), answers[1..], ignoreAll), 1)
      case _ => Tried(false, ignoreAll, 1, 1, 1, chownOk)
  }

  /** try_chown on the oracles `chownOk` and `answers`. */
  function Try(chownOk: seq<bool>, answers: seq<Answer>, ignoreAll: bool): Tried
  {
    AfterAttempt(Head(chownOk, true), Rest(chownOk), answers, ignoreAll)
  }

  /** A change that succeeds, or any change while ignore_all is set, gives
      TRUE after one call and no prompt. */
  lemma TryWithoutPrompt(chownOk: seq<bool>, answers: seq<Answer>, ignoreAll: bool)
    requires Head(chownOk, true) || ignoreAll
    ensures Try(chownOk, answers, ignoreAll) == Tried(true, ignoreAll, 1, 0, 0, Rest(chownOk))
  {
  }

  /** After a failed change without ignore_all the answer decides: Ignore and
      Ignore all give TRUE (the second setting ignore_all), Retry calls
      mc_chown again, anything else gives FALSE. */
  lemma TryAfterFailure(chownOk: seq<bool>, answers: seq<Answer>)
    requires !Head(chownOk, true)
    ensures var r := Try(chownOk, answers, false);
      match Head(answers, Abort)
      case Ignore => r.ok && !r.ignoreAll && r.attempts == 1 && r.prompts == 1
      case IgnoreAll => r.ok && r.ignoreAll && r.attempts == 1 && r.prompts == 1
      case Retry =>
        var again := Try(Rest(chownOk), Rest(answers), false);
        r.ok == again.ok && r.ignoreAll == again.ignoreAll && r.attempts == again.attempts + 1
      case _ => !r.ok && !r.ignoreAll && r.attempts == 1 && r.prompts == 1
  {
  }

  /** Every further call follows a prompt answered Retry: the answers used
      are all Retry but the last, and there is at most one call more than
      prompts. */
  lemma {:induction false} AnswersOfTry(succeeded: bool, chownOk: seq<bool>, answers: seq<Answer>, ignoreAll: bool)
    ensures var r := AfterAttempt(succeeded, chownOk, answers, ignoreAll);
      && r.used <= r.prompts <= r.attempts <= r.prompts + 1
      && r.attempts - 1 <= r.used
      && forall k :: 0 <= k < r.attempts - 1 ==> answers[k] == Retry
    decreases |answers|
  {
    if !succeeded && !ignoreAll && answers != [] && answers[0] == Retry {
      var tail := answers[1..];
      AnswersOfTry(Head(chownOk, true), Rest(chownOk), tail, ignoreAll);
      assert forall k :: 1 <= k < |answers| ==> answers[k] == tail[k - 1];
    }
  }

  /** ignore_all ends set only when it was set before or the last answer
      used was Ignore all; FALSE comes only after a prompt, never with
      ignore_all set, and from an answer other than Ignore, Ignore all and
      Retry, or from the answers running out. */
  lemma {:induction false} OutcomeOfTry(succeeded: bool, chownOk: seq<bool>, answers: seq<Answer>, ignoreAll: bool)
    ensures var r := AfterAttempt(succeeded, chownOk, answers, ignoreAll);
      && (r.ignoreAll <==> ignoreAll || (0 < r.used && answers[r.used - 1] == IgnoreAll))
      && (!r.ok ==>
            && !r.ignoreAll && r.prompts == r.attempts
            && (r.used == |answers| || (0 < r.used && answers[r.used - 1] !in {Ignore, IgnoreAll, Retry})))
    decreases |answers|
  {
    if !succeeded && !ignoreAll && answers != [] && answers[0] == Retry {
      var tail := answers[1..];
      OutcomeOfTry(Head(chownOk, true), Rest(chownOk), tail, ignoreAll);
      var r := AfterAttempt(Head(chownOk, true), Rest(chownOk), tail, ignoreAll);
      assert r.used > 0 ==> tail[r.used - 1] == answers[r.used];
    }
  }

  /** One more turn of try_chown's loop: a failed call answered Retry. */
  lemma RetryStep(chownOk: seq<bool>, answers: seq<Answer>, ignoreAll: bool, n: nat)
    requires !ignoreAll && answers != [] && answers[0] == Retry
    ensures Retried(AfterAttempt(false, chownOk, answers, ignoreAll), n)
         == Retried(AfterAttempt(Head(chownOk, true), Rest(chownOk), answers[1..], ignoreAll), n + 1)
  {
  }

  /** The end of try_chown's loop: a failed call answered otherwise. */
  lemma LastAnswer(chownOk: seq<bool>, answers: seq<Answer>, ignoreAll: bool, n: nat)
    requires !ignoreAll && Head(answers, Abort) != Retry
    ensures var a := Head(answers, Abort);
      Retried(AfterAttempt(false, chownOk, answers, ignoreAll), n)
         == Tried(a == Ignore || a == IgnoreAll, a == IgnoreAll, n + 1, n + 1, n + (if answers == [] then 0 else 1), chownOk)
  {
  }

  /** try_chown's answers, as a state change of the answer stream. */
  lemma UsedByTry(chownOk: seq<bool>, answers: seq<Answer>, ignoreAll: bool)
    ensures var r := Try(chownOk, answers, ignoreAll);
      && AnswersUsed(answers, answers[r.used..], ignoreAll, r.ignoreAll)
      && (ignoreAll ==> r.ignoreAll && r.ok)
      && (!r.ok ==> !r.ignoreAll)
  {
    var r := Try(chownOk, answers, ignoreAll);
    OutcomeOfTry(Head(chownOk, true), Rest(chownOk), answers, ignoreAll);
    var after := answers[r.used..];
    assert |answers| - |after| == r.used;
    if r.ignoreAll && !ignoreAll {
      assert answers[..r.used][r.used - 1] == IgnoreAll;
    }
  }

  /** `after` is what is left of the answer stream `before`, and ignore_all
      went from `was` to `now` only through an Ignore all among the answers
      used. */
  ghost predicate AnswersUsed(before: seq<Answer>, after: seq<Answer>, was: bool, now: bool)
  {
    && |after| <= |before| && after == before[|before| - |after|..]
    && (now ==> was || IgnoreAll in before[..|before| - |after|])
  }

  lemma AnswersUsedTrans(a: seq<Answer>, b: seq<Answer>, c: seq<Answer>, i0: bool, i1: bool, i2: bool)
    requires AnswersUsed(a, b, i0, i1) && AnswersUsed(b, c, i1, i2)
    ensures AnswersUsed(a, c, i0, i2)
  {
    assert c == a[|a| - |c|..];
    assert b[..|b| - |c|] == a[|a| - |b|..|a| - |c|];
    assert a[..|a| - |c|] == a[..|a| - |b|] + a[|a| - |b|..|a| - |c|];
  }

  /** An answer after which try_chown goes on: Ignore, Ignore all or Retry. */
  predicate Settles(a: Answer)
  {
    a == Ignore || a == IgnoreAll || a == Retry
  }

  /** The answers used between `before` and `after` were given to the `p`
      prompts shown, one each, and none of them gave up. */
  ghost predicate Settled(before: seq<Answer>, after: seq<Answer>, p: int)
  {
    var n := |before| - |after|;
    && |after| <= |before| && after == before[n..] && p == n
    && forall i :: 0 <= i < n ==> Settles(before[i])
  }

  /** The last of the `p` prompts shown gave up: it was left unanswered
      when the answers ran out, or answered otherwise than Ignore, Ignore
      all or Retry; every earlier prompt was answered and settled. */
  ghost predicate Aborted(before: seq<Answer>, after: seq<Answer>, p: int)
  {
    var n := |before| - |after|;
    && |after| <= |before| && after == before[n..]
    && ((p == n + 1 && after == [] && forall i :: 0 <= i < n ==> Settles(before[i]))
        || (p == n && 0 < n && (forall i :: 0 <= i < n - 1 ==> Settles(before[i])) && !Settles(before[n - 1])))
  }

  lemma SettledTrans(a: seq<Answer>, b: seq<Answer>, c: seq<Answer>, p1: int, p2: int)
    requires Settled(a, b, p1) && Settled(b, c, p2)
    ensures Settled(a, c, p1 + p2)
  {
    var n := |a| - |b|;
    assert forall i :: 0 <= i < |b| ==> b[i] == a[n + i];
  }

  lemma AbortedAfter(a: seq<Answer>, b: seq<Answer>, c: seq<Answer>, p1: int, p2: int)
    requires Settled(a, b, p1) && Aborted(b, c, p2)
    ensures Aborted(a, c, p1 + p2)
  {
    var n := |a| - |b|;
    assert forall i :: 0 <= i < |b| ==> b[i] == a[n + i];
  }

  /** try_chown returns TRUE exactly when every prompt it showed was
      settled, and FALSE when its last prompt gave up. */
  lemma {:induction false} AnswersOfOutcome(succeeded: bool, chownOk: seq<bool>, answers: seq<Answer>, ignoreAll: bool)
    ensures var r := AfterAttempt(succeeded, chownOk, answers, ignoreAll);
      && r.used <= |answers|
      && (r.ok ==> Settled(answers, answers[r.used..], r.prompts))
      && (!r.ok ==> Aborted(answers, answers[r.used..], r.prompts))
    decreases |answers|
  {
    if !succeeded && !ignoreAll && answers != [] && answers[0] == Retry {
      var tail := answers[1..];
      AnswersOfOutcome(Head(chownOk, true), Rest(chownOk), tail, ignoreAll);
      var r := AfterAttempt(Head(chownOk, true), Rest(chownOk), tail, ignoreAll);
      assert tail[r.used..] == answers[r.used + 1..];
      assert Settled(answers, tail, 1);
      if r.ok {
        SettledTrans(answers, tail, tail[r.used..], 1, r.prompts);
      } else {
        AbortedAfter(answers, tail, tail[r.used..], 1, r.prompts);
      }
    }
  }

  /** The calls added after `before` pass the ids `u`, `g` and go to entry
      `f` or to an entry marked in `marks`. */
  ghost predicate CallsFrom(before: seq<Call>, after: seq<Call>, f: nat, marks: seq<bool>, u: Id, g: Id)
  {
    && before <= after
    && forall k :: |before| <= k < |after| ==>
         && after[k].user == u && after[k].group == g
         && (after[k].file == f || (after[k].file < |marks| && marks[after[k].file]))
  }

  /** Calls that extend a log by calls on a marked entry keep
      CallsFrom. */
  lemma CallsFromStep(c0: seq<Call>, c1: seq<Call>, c2: seq<Call>, f: nat, m0: seq<bool>, m1: seq<bool>,
                      file: nat, u: Id, g: Id)
    requires CallsFrom(c0, c1, f, m0, u, g) && Cleared(m0, m1)
    requires file < |m1| && m1[file]
    requires c1 <= c2 && forall k :: |c1| <= k < |c2| ==> c2[k] == Call(file, u, g)
    ensures CallsFrom(c0, c2, f, m0, u, g)
  {
  }

  /** The buttons whose ids resolved and that go to apply_chowns. */
  predicate Applies(d: Dialog)
  {
    || d.button == SetAll
    || (d.button == SetUsers && d.user != None)
    || (d.button == SetGroups && d.group != None)
  }

  /** The entries chown_cmd may change: the marked ones, or the one under
      the cursor when none is marked. */
  ghost predicate Target(marks: seq<bool>, current: nat, file: nat)
  {
    if Count(marks) > 0 then file < |marks| && marks[file] else file == current
  }

  ghost predicate CallsToTargets(before: seq<Call>, after: seq<Call>, marks: seq<bool>, current: nat)
  {
    && before <= after
    && forall k :: |before| <= k < |after| ==> Target(marks, current, after[k].file)
  }

  /** What chown's helpers read and change, taken at one moment: the marks,
      current_file, the oracles not yet used, ignore_all, and the log of
      calls, prompts and messages. */
  datatype Snap = Snap(marks: seq<bool>, cur: nat, statOk: seq<bool>, chownOk: seq<bool>,
                       answers: seq<Answer>, ignoreAll: bool, calls: seq<Call>, prompts: nat,
                       messages: nat)

  /** apply_chowns from `s0` has got as far as `s1`: the entries up to
      current_file have been dealt with and no later one has been touched;
      every call passed `u`, `g` and went to `f` or a marked entry; and the
      prompts were all settled (`ok`) or the last one gave up. */
  ghost predicate ApplyProgress(s0: Snap, s1: Snap, f: nat, u: Id, g: Id, ok: bool)
  {
    && Cleared(s0.marks, s1.marks)
    && NoMarksBefore(s1.marks, s1.cur + 1)
    && s0.cur <= s1.cur
    && (forall i :: s1.cur < i < |s1.marks| ==> s1.marks[i] == s0.marks[i])
    && CallsFrom(s0.calls, s1.calls, f, s0.marks, u, g)
    && (forall k :: |s0.calls| <= k < |s1.calls| ==> s1.calls[k].file == f || s1.calls[k].file <= s1.cur)
    && AnswersUsed(s0.answers, s1.answers, s0.ignoreAll, s1.ignoreAll)
    && (s0.ignoreAll ==> s1.ignoreAll)
    && (ok ==> Settled(s0.answers, s1.answers, s1.prompts - s0.prompts))
    && (!ok ==> Aborted(s0.answers, s1.answers, s1.prompts - s0.prompts) && !s1.ignoreAll)
  }

  /** When the do_chown of `f` gives up, apply_chowns stops right there:
      only try_chown's calls on `f` and the clearing of current_file's mark
      happened. */
  ghost predicate FirstAborts(s0: Snap, s1: Snap, f: nat, u: Id, g: Id)
  {
    var r := Try(s0.chownOk, s0.answers, s0.ignoreAll);
    !r.ok ==>
      s1 == s0.(marks := Unmarked(s0.marks, s0.cur), chownOk := r.chownOk, answers := s0.answers[r.used..],
                calls := s0.calls + Repeat(Call(f, u, g), r.attempts), prompts := s0.prompts + r.prompts)
  }

  /** What apply_chowns does from `s0` to `s1`: every prompt was settled and
      no mark is left, or it stopped at the entry whose prompt gave up,
      leaving every later entry as it was. */
  ghost predicate ApplyOutcome(s0: Snap, s1: Snap, f: nat, u: Id, g: Id)
  {
    && ((ApplyProgress(s0, s1, f, u, g, true) && Count(s1.marks) == 0) || ApplyProgress(s0, s1, f, u, g, false))
    && FirstAborts(s0, s1, f, u, g)
  }

  /** Where a do_chown, or a pass of apply_chowns's loop, left things: the
      state and the result. */
  datatype Step = Step(snap: Snap, ok: bool)

  /** do_chown of entry `f` from `s`: try_chown's calls, prompts and
      answers as Try gives them, then the mark of current_file cleared
      whatever try_chown returned. */
  function DoChownOf(s: Snap, f: nat, u: Id, g: Id): Step
  {
    var r := Try(s.chownOk, s.answers, s.ignoreAll);
    Step(s.(marks := Unmarked(s.marks, s.cur), ignoreAll := r.ignoreAll, chownOk := r.chownOk,
            answers := s.answers[r.used..], calls := s.calls + Repeat(Call(f, u, g), r.attempts),
            prompts := s.prompts + r.prompts),
         r.ok)
  }

  /** The first do_chown of apply_chowns, from `s0`, starts its progress,
      and is all that happens when it returns FALSE. */
  lemma FirstStep(s0: Snap, f: nat, u: Id, g: Id)
    requires NoMarksBefore(s0.marks, s0.cur)
    ensures var st := DoChownOf(s0, f, u, g);
      ApplyProgress(s0, st.snap, f, u, g, st.ok) && FirstAborts(s0, st.snap, f, u, g)
  {
    var r := Try(s0.chownOk, s0.answers, s0.ignoreAll);
    UnmarkFirst(s0.marks, s0.cur);
    RepeatedCalls(s0.calls, f, s0.marks, u, g, r.attempts);
    UsedByTry(s0.chownOk, s0.answers, s0.ignoreAll);
    AnswersOfOutcome(Head(s0.chownOk, true), Rest(s0.chownOk), s0.answers, s0.ignoreAll);
  }

  /** Clearing the first marked entry `c` clears no other entry and leaves
      none marked up to `c`. */
  lemma UnmarkFirst(m: seq<bool>, c: nat)
    requires NoMarksBefore(m, c)
    ensures Cleared(m, Unmarked(m, c)) && NoMarksBefore(Unmarked(m, c), c + 1)
    ensures forall i :: c < i < |m| ==> Unmarked(m, c)[i] == m[i]
  {
  }

  /** Moving to the first marked entry from `k` keeps every entry before
      the position unmarked, and unmarking it keeps that true. */
  lemma SkipToMark(m: seq<bool>, k: nat, c: nat)
    requires NoMarksBefore(m, k) && c == FirstMarkedFrom(m, k)
    ensures NoMarksBefore(m, c) && NoMarksBefore(Unmarked(m, c), c)
  {
  }

  /** Repeated calls on `f` with `u`, `g` meet CallsFrom. */
  lemma RepeatedCalls(c: seq<Call>, f: nat, marks: seq<bool>, u: Id, g: Id, n: nat)
    ensures CallsFrom(c, c + Repeat(Call(f, u, g), n), f, marks, u, g)
    ensures forall k :: |c| <= k < |c| + n ==> (c + Repeat(Call(f, u, g), n))[k].file == f
  {
  }

  /** One pass of apply_chowns's loop went from `m` to `s2`: current_file
      moved to the next marked entry and its mark was cleared; any calls
      were on it with `u`, `g`; and its prompts were settled (`ok`) or the
      last one gave up. */
  ghost predicate Passed(m: Snap, s2: Snap, u: Id, g: Id, ok: bool)
  {
    && s2.cur == FirstMarkedFrom(m.marks, m.cur) && s2.cur < |m.marks| && m.marks[s2.cur]
    && s2.marks == Unmarked(m.marks, s2.cur) && NoMarksBefore(s2.marks, s2.cur + 1)
    && m.calls <= s2.calls && (forall k :: |m.calls| <= k < |s2.calls| ==> s2.calls[k] == Call(s2.cur, u, g))
    && AnswersUsed(m.answers, s2.answers, m.ignoreAll, s2.ignoreAll) && (m.ignoreAll ==> s2.ignoreAll)
    && (ok ==> Settled(m.answers, s2.answers, s2.prompts - m.prompts))
    && (!ok ==> Aborted(m.answers, s2.answers, s2.prompts - m.prompts) && !s2.ignoreAll)
  }

  /** One pass of apply_chowns's loop from `s`: current_file moves to the
      next marked entry; an entry mc_stat says is gone only loses its mark,
      with no call; any other entry is do_chowned. When no marked entry is
      left from current_file on, only current_file moves. */
  function NextOf(s: Snap, u: Id, g: Id): Step
  {
    var c := FirstMarkedFrom(s.marks, s.cur);
    if c >= |s.marks| then Step(s.(cur := c), true)
    else if !Head(s.statOk, true) then Step(s.(cur := c, statOk := Rest(s.statOk), marks := Unmarked(s.marks, c)), true)
    else DoChownOf(s.(cur := c, statOk := Rest(s.statOk)), c, u, g)
  }

  /** A pass on a panel with a marked entry ahead is a Passed step. */
  lemma NextPassed(m: Snap, u: Id, g: Id)
    requires NoMarksBefore(m.marks, m.cur) && FirstMarkedFrom(m.marks, m.cur) < |m.marks|
    ensures Passed(m, NextOf(m, u, g).snap, u, g, NextOf(m, u, g).ok)
  {
    var c := FirstMarkedFrom(m.marks, m.cur);
    SkipToMark(m.marks, m.cur, c);
    UnmarkFirst(m.marks, c);
    if Head(m.statOk, true) {
      ChownPassed(m, c, u, g);
    }
  }

  /** The do_chown half of NextPassed. */
  lemma ChownPassed(m: Snap, c: nat, u: Id, g: Id)
    requires c == FirstMarkedFrom(m.marks, m.cur) < |m.marks|
    requires NoMarksBefore(Unmarked(m.marks, c), c + 1)
    ensures var st := DoChownOf(m.(cur := c, statOk := Rest(m.statOk)), c, u, g);
      Passed(m, st.snap, u, g, st.ok)
  {
    var s1 := m.(cur := c, statOk := Rest(m.statOk));
    var s2 := DoChownOf(s1, c, u, g).snap;
    UsedByTry(s1.chownOk, s1.answers, s1.ignoreAll);
    AnswersOfOutcome(Head(s1.chownOk, true), Rest(s1.chownOk), s1.answers, s1.ignoreAll);
    var r := Try(s1.chownOk, s1.answers, s1.ignoreAll);
    assert forall k :: |m.calls| <= k < |s2.calls| ==> s2.calls[k] == Repeat(Call(c, u, g), r.attempts)[k - |m.calls|];
  }

  /** One pass of apply_chowns's loop, from `m` to `s2`, on the next marked
      entry, keeps its progress from `s0`. */
  lemma NextStep(s0: Snap, m: Snap, s2: Snap, f: nat, u: Id, g: Id, ok: bool)
    requires ApplyProgress(s0, m, f, u, g, true)
    requires Passed(m, s2, u, g, ok)
    ensures ApplyProgress(s0, s2, f, u, g, ok)
  {
    ClearedUnmark(s0.marks, m.marks, s2.cur);
    CallsFromStep(s0.calls, m.calls, s2.calls, f, s0.marks, m.marks, s2.cur, u, g);
    AnswersUsedTrans(s0.answers, m.answers, s2.answers, s0.ignoreAll, m.ignoreAll, s2.ignoreAll);
    if ok {
      SettledTrans(s0.answers, m.answers, s2.answers, m.prompts - s0.prompts, s2.prompts - m.prompts);
    } else {
      AbortedAfter(s0.answers, m.answers, s2.answers, m.prompts - s0.prompts, s2.prompts - m.prompts);
    }
  }

  /** apply_chowns's do-while from `s`, after a do_chown that returned
      TRUE: passes until one returns FALSE or no mark is left. A pass that
      finds no marked entry ends it too (the source would dereference the
      missing file name; it cannot happen while no mark lies before
      current_file). */
  function ApplyLoop(s: Snap, u: Id, g: Id): Snap
    decreases Count(s.marks)
  {
    if Count(s.marks) == 0 then s
    else
      var c := FirstMarkedFrom(s.marks, s.cur);
      var st := NextOf(s, u, g);
      if c >= |s.marks| || !st.ok then st.snap
      else
        CountUnmark(s.marks, c);
        ApplyLoop(st.snap, u, g)
  }

  /** apply_chowns on entry `f` from `s`: do_chown `f`, then, unless that
      returned FALSE, the do-while over the remaining marked entries. */
  function ApplyFrom(s: Snap, f: nat, u: Id, g: Id): Snap
  {
    var st := DoChownOf(s, f, u, g);
    if st.ok then ApplyLoop(st.snap, u, g) else st.snap
  }

  /** The do-while keeps apply_chowns's progress, and ends with every
      prompt settled and no mark left, or on the entry whose prompt gave
      up. */
  lemma {:induction false} LoopOutcome(s0: Snap, s: Snap, f: nat, u: Id, g: Id)
    requires ApplyProgress(s0, s, f, u, g, true)
    ensures var l := ApplyLoop(s, u, g);
      (ApplyProgress(s0, l, f, u, g, true) && Count(l.marks) == 0) || ApplyProgress(s0, l, f, u, g, false)
    decreases Count(s.marks)
  {
    if Count(s.marks) != 0 {
      MarkAhead(s.marks, s.cur);
      var c := FirstMarkedFrom(s.marks, s.cur);
      var st := NextOf(s, u, g);
      NextPassed(s, u, g);
      NextStep(s0, s, st.snap, f, u, g, st.ok);
      if st.ok {
        CountUnmark(s.marks, c);
        LoopOutcome(s0, st.snap, f, u, g);
      }
    }
  }

  /** apply_chowns as ApplyFrom computes it has the outcome ApplyOutcome
      states. */
  lemma ApplyFromOutcome(s: Snap, f: nat, u: Id, g: Id)
    requires NoMarksBefore(s.marks, s.cur)
    ensures ApplyOutcome(s, ApplyFrom(s, f, u, g), f, u, g)
  {
    var st := DoChownOf(s, f, u, g);
    FirstStep(s, f, u, g);
    if st.ok {
      LoopOutcome(s, st.snap, f, u, g);
    }
  }

  /** The marked entries from `k` on, in increasing order. */
  function MarkedFrom(marks: seq<bool>, k: nat): seq<nat>
    decreases |marks| - k
  {
    if k >= |marks| then [] else (if marks[k] then [k] else []) + MarkedFrom(marks, k + 1)
  }

  /** One call with the ids `u`, `g` on each entry of `files`, in order. */
  function CallsOn(files: seq<nat>, u: Id, g: Id): (r: seq<Call>)
    ensures |r| == |files| && forall i :: 0 <= i < |files| ==> r[i] == Call(files[i], u, g)
  {
    seq(|files|, i requires 0 <= i < |files| => Call(files[i], u, g))
  }

  lemma {:induction false} MarkedFromSkip(marks: seq<bool>, k: nat, c: nat)
    requires k <= c && forall i :: k <= i < c && i < |marks| ==> !marks[i]
    ensures MarkedFrom(marks, k) == MarkedFrom(marks, c)
    decreases c - k
  {
    if k < c && k < |marks| {
      MarkedFromSkip(marks, k + 1, c);
    }
  }

  lemma {:induction false} MarkedFromSame(m1: seq<bool>, m2: seq<bool>, k: nat)
    requires |m1| == |m2| && forall i :: k <= i < |m1| ==> m1[i] == m2[i]
    ensures MarkedFrom(m1, k) == MarkedFrom(m2, k)
    decreases |m1| - k
  {
    if k < |m1| {
      MarkedFromSame(m1, m2, k + 1);
    }
  }

  /** The marked entries after `c` once `c`'s own mark is cleared. */
  lemma MarkedAfterUnmark(marks: seq<bool>, c: nat)
    ensures MarkedFrom(Unmarked(marks, c), c) == MarkedFrom(marks, c + 1)
  {
    if c < |marks| {
      MarkedFromSame(Unmarked(marks, c), marks, c + 1);
    }
  }

  /** Every mc_stat and every mc_chown still to come succeeds. */
  ghost predicate Unfailing(s: Snap)
  {
    && (forall i :: 0 <= i < |s.chownOk| ==> s.chownOk[i])
    && (forall i :: 0 <= i < |s.statOk| ==> s.statOk[i])
  }

  /** When every mc_stat and mc_chown succeeds, the do-while makes one call
      on each marked entry from current_file on, in order, shows no prompt
      and leaves no mark. */
  lemma {:induction false} LoopAllSucceed(s: Snap, u: Id, g: Id)
    requires NoMarksBefore(s.marks, s.cur)
    requires Unfailing(s)
    ensures CalledOnAll(s, ApplyLoop(s, u, g), u, g)
    decreases Count(s.marks)
  {
    if Count(s.marks) == 0 {
      CountZero(s.marks);
      MarkedFromSkip(s.marks, s.cur, s.cur + |s.marks|);
    } else {
      var next := SucceedStep(s, u, g);
      CountUnmark(s.marks, next.cur);
      LoopAllSucceed(next, u, g);
      AllSucceedStep(s, u, g);
    }
  }

  /** `l` is where apply_chowns's loop from `s` ends when nothing fails:
      one call on each marked entry from current_file on, in order, no
      prompt and no mark left. */
  ghost predicate CalledOnAll(s: Snap, l: Snap, u: Id, g: Id)
  {
    && Count(l.marks) == 0 && l.calls == s.calls + CallsOn(MarkedFrom(s.marks, s.cur), u, g)
    && l.prompts == s.prompts && l.answers == s.answers
  }

  /** A pass of apply_chowns's loop that finds a marked entry and is not
      aborted leaves the loop to go on from where that pass ended. */
  lemma LoopUnfold(s: Snap, u: Id, g: Id)
    requires Count(s.marks) > 0 && FirstMarkedFrom(s.marks, s.cur) < |s.marks| && NextOf(s, u, g).ok
    ensures ApplyLoop(s, u, g) == ApplyLoop(NextOf(s, u, g).snap, u, g)
  {
  }

  /** The inductive step of LoopAllSucceed: what holds from the entry after
      the next marked one holds from `s`. */
  lemma AllSucceedStep(s: Snap, u: Id, g: Id)
    requires NoMarksBefore(s.marks, s.cur) && Count(s.marks) > 0 && Unfailing(s)
    requires var n := NextOf(s, u, g).snap; CalledOnAll(n, ApplyLoop(n, u, g), u, g)
    ensures CalledOnAll(s, ApplyLoop(s, u, g), u, g)
  {
    var next := SucceedStep(s, u, g);
    CountUnmark(s.marks, next.cur);
    LoopUnfold(s, u, g);
    CallsOnFirst(s.marks, s.cur, next.cur, u, g);
    var rest := CallsOn(MarkedFrom(next.marks, next.cur), u, g);
    Assoc(s.calls, [Call(next.cur, u, g)], rest);
  }

  lemma Assoc<T>(a: seq<T>, b: seq<T>, c: seq<T>)
    ensures a + (b + c) == (a + b) + c
  {
  }

  /** The calls on the marked entries from `k` on are the call on the first
      of them followed by the calls on the rest. */
  lemma CallsOnFirst(marks: seq<bool>, k: nat, c: nat, u: Id, g: Id)
    requires NoMarksBefore(marks, k) && Count(marks) > 0 && c == FirstMarkedFrom(marks, k)
    ensures CallsOn(MarkedFrom(marks, k), u, g) == [Call(c, u, g)] + CallsOn(MarkedFrom(Unmarked(marks, c), c), u, g)
  {
    MarkAhead(marks, k);
    MarkedFromSkip(marks, k, c);
    MarkedAfterUnmark(marks, c);
    assert MarkedFrom(marks, c) == [c] + MarkedFrom(marks, c + 1);
    assert CallsOn([c] + MarkedFrom(marks, c + 1), u, g) == [Call(c, u, g)] + CallsOn(MarkedFrom(marks, c + 1), u, g);
  }

  /** A pass of apply_chowns's loop on which mc_stat and mc_chown succeed
      makes one call on the next marked entry and clears its mark. */
  lemma SucceedStep(s: Snap, u: Id, g: Id) returns (next: Snap)
    requires NoMarksBefore(s.marks, s.cur) && Count(s.marks) > 0
    requires Head(s.statOk, true) && Head(s.chownOk, true)
    ensures next.cur == FirstMarkedFrom(s.marks, s.cur) < |s.marks|
    ensures next == s.(cur := next.cur, statOk := Rest(s.statOk), marks := Unmarked(s.marks, next.cur),
                       chownOk := Rest(s.chownOk), calls := s.calls + [Call(next.cur, u, g)])
    ensures next.calls == s.calls + [Call(next.cur, u, g)] && next.marks == Unmarked(s.marks, next.cur)
    ensures NextOf(s, u, g) == Step(next, true)
    ensures NoMarksBefore(next.marks, next.cur)
    ensures Unfailing(s) ==> Unfailing(next)
  {
    MarkAhead(s.marks, s.cur);
    var c := FirstMarkedFrom(s.marks, s.cur);
    TryWithoutPrompt(s.chownOk, s.answers, s.ignoreAll);
    next := s.(cur := c, statOk := Rest(s.statOk), marks := Unmarked(s.marks, c), chownOk := Rest(s.chownOk),
               calls := s.calls + [Call(c, u, g)]);
  }

  /** When every mc_stat and mc_chown succeeds, apply_chowns makes one call
      on `f` and then one on each later marked entry, in order, shows no
      prompt and leaves no mark. */
  lemma ApplyAllSucceed(s: Snap, f: nat, u: Id, g: Id)
    requires NoMarksBefore(s.marks, s.cur)
    requires Unfailing(s)
    ensures var a := ApplyFrom(s, f, u, g);
      && Count(a.marks) == 0 && a.calls == s.calls + [Call(f, u, g)] + CallsOn(MarkedFrom(s.marks, s.cur + 1), u, g)
      && a.prompts == s.prompts && a.answers == s.answers
  {
    TryWithoutPrompt(s.chownOk, s.answers, s.ignoreAll);
    var st := s.(marks := Unmarked(s.marks, s.cur), chownOk := Rest(s.chownOk), calls := s.calls + [Call(f, u, g)]);
    assert DoChownOf(s, f, u, g) == Step(st, true);
    LoopAllSucceed(st, u, g);
    MarkedAfterUnmark(s.marks, s.cur);
  }

  /** The dialog outcomes on which chown_cmd's switch does nothing: an
      unknown result, or Set users / Set groups on a name that does not
      resolve. */
  predicate Idle(d: Dialog)
  {
    || d.button == OtherButton
    || (d.button == SetUsers && d.user == None)
    || (d.button == SetGroups && d.group == None)
  }

  /** What one pass of chown_cmd's loop does to entry `file` from `s0` (the
      dialog already shown) to `s1`, by the dialog's outcome `d`: Cancel
      ends with nothing changed; Set on the single or last file makes one
      call and leaves no mark; Set on several files runs try_chown and ends
      when it gives up, otherwise clears the mark of `file`; an idle outcome
      only clears that mark; the other buttons end after apply_chowns. */
  ghost predicate DialogOutcome(s0: Snap, s1: Snap, d: Dialog, file: nat, endChown: bool)
  {
    && (d.button == Cancel ==> endChown && s1.marks == s0.marks && s1.calls == s0.calls)
    && (d.button == Set && Count(s0.marks) <= 1 ==>
          && endChown && Count(s1.marks) == 0
          && s1.calls == s0.calls + [Call(file, d.user, d.group)] && s1.prompts == s0.prompts)
    && (d.button == Set && Count(s0.marks) > 1 ==>
          var r := Try(s0.chownOk, s0.answers, s0.ignoreAll);
          && (endChown <==> !r.ok)
          && s1.calls == s0.calls + Repeat(Call(file, d.user, d.group), r.attempts)
          && s1.marks == if endChown then s0.marks else Unmarked(s0.marks, file))
    && (Idle(d) ==>
          && !endChown && s1.calls == s0.calls
          && s1.marks == if Count(s0.marks) > 0 then Unmarked(s0.marks, file) else s0.marks)
    && (Applies(d) ==> endChown && ApplyOutcome(s0, s1, file, ApplyUser(d), ApplyGroup(d)))
  }

  /** What chown_cmd's switch does on the dialog outcome `d` for entry
      `file`, from `s0` to `s1`, with the result it leaves (Set turned into
      Cancel when try_chown gives up). */
  ghost predicate ActOutcome(s0: Snap, s1: Snap, d: Dialog, file: nat, result: Button, endChown: bool)
  {
    && (d.button == Cancel ==> result == Cancel && endChown && s1 == s0)
    && (d.button == Set && Count(s0.marks) <= 1 ==>
          && result == Set && endChown
          && s1 == s0.(chownOk := Rest(s0.chownOk), calls := s0.calls + [Call(file, d.user, d.group)],
                       messages := s0.messages + if Head(s0.chownOk, true) then 0 else 1))
    && (d.button == Set && Count(s0.marks) > 1 ==>
          var r := Try(s0.chownOk, s0.answers, s0.ignoreAll);
          && result == (if r.ok then Set else Cancel) && endChown == !r.ok && r.used <= |s0.answers|
          && s1 == s0.(ignoreAll := r.ignoreAll, chownOk := r.chownOk, answers := s0.answers[r.used..],
                       calls := s0.calls + Repeat(Call(file, d.user, d.group), r.attempts),
                       prompts := s0.prompts + r.prompts))
    && (Idle(d) ==> result == d.button && !endChown && s1 == s0)
    && (Applies(d) ==> result == d.button && endChown && ApplyOutcome(s0, s1, file, ApplyUser(d), ApplyGroup(d)))
  }

  /** What a pass of chown_cmd's loop keeps, from `s0` to `s1`: marks are
      only cleared, none before current_file; answers are only used;
      ignore_all, once set, stays set; every call goes to an entry the
      command may change (`current` is the entry under the cursor); and a
      pass that does not end the command lowers the marked count or leaves
      none. */
  ghost predicate Kept(s0: Snap, s1: Snap, current: nat, endChown: bool)
  {
    && Cleared(s0.marks, s1.marks)
    && NoMarksBefore(s1.marks, s1.cur)
    && (s0.ignoreAll ==> s1.ignoreAll)
    && AnswersUsed(s0.answers, s1.answers, s0.ignoreAll, s1.ignoreAll)
    && CallsToTargets(s0.calls, s1.calls, s0.marks, current)
    && (!endChown && Count(s1.marks) != 0 ==> Count(s1.marks) < Count(s0.marks))
  }

  /** What a pass keeps from `s1` it keeps from any `s0` that differs from
      `s1` only in current_file and the mc_stat results. */
  lemma KeptShift(s0: Snap, s1: Snap, s2: Snap, current: nat, endChown: bool)
    requires s1 == s0.(cur := s1.cur, statOk := s1.statOk)
    requires Kept(s1, s2, current, endChown)
    ensures Kept(s0, s2, current, endChown)
  {
  }

  /** One pass of chown_cmd's loop from `s0`: what every pass keeps and the
      dialog's outcome. */
  ghost predicate PassDone(s0: Snap, s1: Snap, d: Dialog, file: nat, current: nat, endChown: bool)
  {
    Kept(s0, s1, current, endChown) && DialogOutcome(s0, s1, d, file, endChown)
  }

  /** Act followed by the clearing of current_file's mark unless the
      result is Cancel (from `s1` to `s2`) is the DialogOutcome of a pass,
      and keeps what a pass keeps. */
  lemma PassOutcome(s0: Snap, s1: Snap, s2: Snap, d: Dialog, file: nat, current: nat, result: Button, endChown: bool)
    requires NoMarksBefore(s0.marks, s0.cur)
    requires Target(s0.marks, current, file) && (Count(s0.marks) > 0 ==> s0.cur == file)
    requires ActOutcome(s0, s1, d, file, result, endChown)
    requires s2 == if Count(s1.marks) != 0 && result != Cancel then s1.(marks := Unmarked(s1.marks, s1.cur)) else s1
    ensures PassDone(s0, s2, d, file, current, endChown)
  {
    CountZero(s0.marks);
    if d.button == Set && Count(s0.marks) <= 1 {
      if Count(s0.marks) == 1 {
        CountUnmark(s0.marks, file);
      }
      assert s2.calls[|s0.calls|] == Call(file, d.user, d.group);
    } else if d.button == Set {
      UsedByTry(s0.chownOk, s0.answers, s0.ignoreAll);
      CountUnmark(s0.marks, file);
      var r := Try(s0.chownOk, s0.answers, s0.ignoreAll);
      assert forall k :: |s0.calls| <= k < |s2.calls| ==> s2.calls[k] == Repeat(Call(file, d.user, d.group), r.attempts)[k - |s0.calls|];
    } else if Idle(d) {
      if Count(s0.marks) > 0 {
        CountUnmark(s0.marks, file);
      }
    } else if Applies(d) {
      OutcomeBasics(s0, s1, file, ApplyUser(d), ApplyGroup(d));
      CallsToTarget(s0.calls, s1.calls, file, s0.marks, current, d);
      UnmarkedClear(s1.marks, s1.cur);
      assert s2 == s1;
    }
  }

  /** Clearing a mark that is already clear changes nothing. */
  lemma UnmarkedClear(s: seq<bool>, c: nat)
    requires NoMarksBefore(s, c + 1)
    ensures Unmarked(s, c) == s
  {
  }

  /** What chown_cmd's loop keeps across an apply_chowns. */
  lemma OutcomeBasics(s0: Snap, s1: Snap, f: nat, u: Id, g: Id)
    requires ApplyOutcome(s0, s1, f, u, g)
    ensures Cleared(s0.marks, s1.marks) && NoMarksBefore(s1.marks, s1.cur + 1) && NoMarksBefore(s1.marks, s1.cur)
    ensures (s0.ignoreAll ==> s1.ignoreAll) && AnswersUsed(s0.answers, s1.answers, s0.ignoreAll, s1.ignoreAll)
    ensures CallsFrom(s0.calls, s1.calls, f, s0.marks, u, g)
  {
  }

  /** The ids apply_chowns is called with for the dialog outcome `d`: Set
      users leaves the group and Set groups the owner unchanged. */
  function ApplyUser(d: Dialog): Id
  {
    if d.button == SetGroups then None else d.user
  }

  function ApplyGroup(d: Dialog): Id
  {
    if d.button == SetUsers then None else d.group
  }

  // ---------------------------------------------------------------------
  // The command

  /** The state chown keeps across its helpers: the panel, the oracles and
      the file-scope globals current_file and ignore_all. */
  class ChownCommand {
    const panel: Panel
    const env: Env
    var currentFile: nat
    var ignoreAll: bool

    constructor(panel: Panel, env: Env)
      ensures this.panel == panel && this.env == env
      ensures currentFile == 0 && !ignoreAll
    {
      this.panel := panel;
      this.env := env;
      currentFile := 0;
      ignoreAll := false;
    }

    function State(): Snap
      reads this, panel, env
    {
      Snap(panel.marks, currentFile, env.statOk, env.chownOk, env.answers, ignoreAll, env.calls, env.prompts,
           env.messages)
    }

    /** The effect of try_chown on entry `f`: the calls made, all on `f`
        with the same ids, and the oracles and flag as Try says. */
    twostate predicate TryEffect(f: nat, u: Id, g: Id, ok: bool)
      reads this, env
    {
      var r := Try(old(env.chownOk), old(env.answers), old(ignoreAll));
      && ok == r.ok && ignoreAll == r.ignoreAll
      && r.used <= |old(env.answers)|
      && env.chownOk == r.chownOk && env.answers == old(env.answers)[r.used..]
      && env.calls == old(env.calls) + Repeat(Call(f, u, g), r.attempts)
      && env.prompts == old(env.prompts) + r.prompts
    }

    /** try_chown: change the ids of entry `f`, prompting after each failure
        until the change succeeds or the user gives up on it. */
    method TryChown(f: nat, u: Id, g: Id) returns (ok: bool)
      modifies this`ignoreAll, env`chownOk, env`answers, env`calls, env`prompts
      ensures TryEffect(f, u, g, ok)
    {
      ghost var c0, a0, i0 := env.chownOk, env.answers, ignoreAll;
      var succeeded := env.Chown(f, u, g);
      ok := true;
      ghost var n: nat := 0;
      while !succeeded && !ignoreAll
        invariant ignoreAll == i0
        invariant n <= |a0| && env.answers == a0[n..]
        invariant Try(c0, a0, i0) == Retried(AfterAttempt(succeeded, env.chownOk, env.answers, ignoreAll), n)
        invariant env.calls == old(env.calls) + Repeat(Call(f, u, g), n + 1)
        invariant env.prompts == old(env.prompts) + n
        decreases |env.answers|
      {
        ghost var c1, a1 := env.chownOk, env.answers;
        var a := env.Ask();
        if a != Retry {
          LastAnswer(c1, a1, i0, n);
          ok := a == Ignore || a == IgnoreAll;
          if a == IgnoreAll {
            ignoreAll := true;
          }
          break;
        }
        RetryStep(c1, a1, i0, n);
        assert a0[n..][1..] == a0[n + 1..];
        AppendRepeat(old(env.calls), Call(f, u, g), n + 1);
        succeeded := env.Chown(f, u, g);
        n := n + 1;
      }
    }

    /** do_chown: try_chown, then clear the mark of current_file whatever
        try_chown returned. */
    method DoChown(f: nat, u: Id, g: Id) returns (ok: bool)
      modifies this`ignoreAll, env`chownOk, env`answers, env`calls, env`prompts, panel`marks
      ensures Step(State(), ok) == DoChownOf(old(State()), f, u, g)
      ensures panel.Marked() == old(panel.Marked()) - (if currentFile < |panel.marks| && old(panel.marks)[currentFile] then 1 else 0)
    {
      ok := TryChown(f, u, g);
      panel.Unmark(currentFile);
    }

    /** One pass of apply_chowns's loop: move current_file to the next marked
        entry; clear its mark without a call when mc_stat says it is gone,
        otherwise do_chown it. `found` is false when no marked entry is
        left. */
    method ApplyNext(u: Id, g: Id) returns (ok: bool, found: bool)
      requires NoMarksBefore(panel.marks, currentFile)
      modifies this, panel`marks, env`statOk, env`chownOk, env`answers, env`calls, env`prompts
      ensures Step(State(), ok) == NextOf(old(State()), u, g)
      ensures found <==> old(panel.Marked()) > 0
      ensures found ==> panel.Marked() == old(panel.Marked()) - 1
      ensures NoMarksBefore(panel.marks, currentFile)
    {
      ghost var s0 := State();
      var file, next := panel.FindMarkedFile(currentFile);
      currentFile := next;
      if file == None {
        if panel.Marked() > 0 {
          MarkAhead(panel.marks, old(currentFile));
        }
        return true, false;
      }
      CountZero(panel.marks);
      SkipToMark(panel.marks, old(currentFile), currentFile);
      assert panel.marks[currentFile];
      var present := env.Stat(currentFile);
      ghost var s1 := State();
      assert s1 == s0.(cur := currentFile, statOk := Rest(s0.statOk));
      if !present {
        panel.Unmark(currentFile);
        ok := true;
      } else {
        ok := DoChown(currentFile, u, g);
      }
      found := true;
    }

    /** apply_chowns: do_chown entry `f`, then, unless that was aborted, the
        remaining marked entries one by one until one is aborted or no mark
        is left. */
    method ApplyChowns(f: nat, u: Id, g: Id)
      requires NoMarksBefore(panel.marks, currentFile)
      modifies this, panel`marks, env`statOk, env`chownOk, env`answers, env`calls, env`prompts
      ensures State() == ApplyFrom(old(State()), f, u, g)
    {
      ghost var s0 := State();
      var ok := DoChown(f, u, g);
      while ok && panel.Marked() != 0
        invariant NoMarksBefore(panel.marks, currentFile)
        invariant ApplyFrom(s0, f, u, g) == if ok then ApplyLoop(State(), u, g) else State()
        decreases panel.Marked()
      {
        MarkAhead(panel.marks, currentFile);
        var found;
        ok, found := ApplyNext(u, g);
      }
    }

    /** panel_get_marked_file and mc_stat at the head of chown_cmd's loop:
        the entry to work on, if any, and whether it still exists. */
    method Pick() returns (file: Option<nat>, present: bool)
      requires NoMarksBefore(panel.marks, currentFile)
      modifies this`currentFile, env`statOk
      ensures file == Selected(panel.marks, panel.current, old(currentFile))
      ensures file.Some? ==> present == Head(old(env.statOk), true) && env.statOk == Rest(old(env.statOk))
      ensures file.None? ==> !present && env.statOk == old(env.statOk)
      ensures currentFile == if panel.Marked() > 0 then FirstMarkedFrom(panel.marks, old(currentFile)) else old(currentFile)
      ensures State() == old(State()).(cur := currentFile, statOk := env.statOk)
    {
      var next;
      file, next := panel.GetMarkedFile(currentFile);
      currentFile := next;
      present := false;
      if file != None {
        present := env.Stat(file.value);
      }
    }

    /** The switch of chown_cmd's loop on the dialog's outcome `d` for entry
        `file`: returns the result (Set's abort turns it into Cancel),
        whether the command ends and whether the panel needs an update. */
    method Act(file: nat, d: Dialog) returns (result: Button, endChown: bool, needUpdate: bool)
      requires NoMarksBefore(panel.marks, currentFile)
      modifies this, panel`marks, env`statOk, env`chownOk, env`answers, env`calls, env`prompts, env`messages
      ensures Acted(State(), result, endChown, needUpdate) == ActOf(old(State()), d, file)
    {
      result := d.button;
      endChown, needUpdate := false, false;
      match d.button {
        case Cancel =>
          endChown := true;
        case Set =>
          if panel.Marked() <= 1 {
            var ok := env.Chown(file, d.user, d.group);
            if !ok {
              env.Report();
            }
            endChown := true;
          } else {
            var ok := TryChown(file, d.user, d.group);
            if !ok {
              result := Cancel;
              endChown := true;
            }
          }
          needUpdate := true;
        case SetAll =>
          ApplyChowns(file, d.user, d.group);
          endChown := true;
          needUpdate := true;
        case SetUsers =>
          if d.user != None {
            ApplyChowns(file, d.user, None);
            needUpdate, endChown := true, true;
          }
        case SetGroups =>
          if d.group != None {
            ApplyChowns(file, None, d.group);
            needUpdate, endChown := true, true;
          }
        case OtherButton =>
      }
    }

    /** The dialog part of one pass of chown_cmd's loop on entry `file`:
        run the dialog, act on its outcome, then clear the mark of
        current_file unless the result is Cancel. Returns end_chown and
        need_update. */
    method Turn(file: nat) returns (endChown: bool, needUpdate: bool)
      requires NoMarksBefore(panel.marks, currentFile)
      modifies this, panel`marks, env`statOk, env`chownOk, env`answers, env`calls, env`prompts,
        env`dialogs, env`messages
      ensures Pass(State(), env.dialogs, true, endChown, needUpdate) == TurnOf(old(State()), old(env.dialogs), file)
    {
      var d := env.RunDialog();
      var result;
      result, endChown, needUpdate := Act(file, d);
      if panel.Marked() != 0 && result != Cancel {
        panel.Unmark(currentFile);
        needUpdate := true;
      }
    }

    /** One pass of chown_cmd's loop: reset need_update and end_chown, take
        the next marked entry (or the one under the cursor), break out of
        the loop (`found` false) when there is none or mc_stat fails, else
        run the dialog on it. Returns end_chown and need_update. */
    method Round() returns (found: bool, endChown: bool, needUpdate: bool)
      requires NoMarksBefore(panel.marks, currentFile)
      modifies this, panel`marks, env`statOk, env`chownOk, env`answers, env`calls, env`prompts,
        env`dialogs, env`messages
      ensures Pass(State(), env.dialogs, found, endChown, needUpdate) == RoundOf(old(State()), old(env.dialogs), panel.current)
      ensures NoMarksBefore(panel.marks, currentFile)
    {
      ghost var s0, ds := State(), env.dialogs;
      needUpdate, endChown := false, false;
      var file, present := Pick();
      if !present {
        return false, endChown, needUpdate;
      }
      endChown, needUpdate := Turn(file.value);
      found := true;
      RoundOfOutcome(s0, ds, panel.current);
    }

    /** chown_cmd: reset current_file and ignore_all, then run passes until
        one breaks out, no mark is left or a pass ends the command. Returns
        the need_update and end_chown of the last pass, both false when it
        broke out. */
    method ChownCmd() returns (needUpdate: bool, endChown: bool)
      modifies this, panel`marks, env`statOk, env`chownOk, env`answers, env`calls, env`prompts,
        env`dialogs, env`messages
      ensures var p := CmdOf(old(State()), old(env.dialogs), panel.current);
        State() == p.snap && env.dialogs == p.dialogs && endChown == p.endChown && needUpdate == p.needUpdate
    {
      currentFile := 0;
      ignoreAll := false;
      while true
        invariant NoMarksBefore(panel.marks, currentFile)
        invariant CmdOf(old(State()), old(env.dialogs), panel.current) == LoopOf(State(), env.dialogs, panel.current)
        decreases panel.Marked()
      {
        ghost var s, ds := State(), env.dialogs;
        var found;
        found, endChown, needUpdate := Round();
        RoundLowers(s, ds, panel.current);
        if !found || panel.Marked() == 0 || endChown {
          break;
        }
      }
    }
  }

  /** What the switch of chown_cmd's loop left: the state, the result (Set
      turned into Cancel when try_chown gives up), end_chown and
      need_update. */
  datatype Acted = Acted(snap: Snap, result: Button, endChown: bool, needUpdate: bool)

  /** chown_cmd's switch on the dialog outcome `d` for entry `file` from
      `s`. */
  function ActOf(s: Snap, d: Dialog, file: nat): Acted
  {
    if d.button == Cancel then Acted(s, Cancel, true, false)
    else if d.button == Set then
      if Count(s.marks) <= 1 then
        Acted(s.(chownOk := Rest(s.chownOk), calls := s.calls + [Call(file, d.user, d.group)],
                 messages := s.messages + if Head(s.chownOk, true) then 0 else 1), Set, true, true)
      else
        var r := Try(s.chownOk, s.answers, s.ignoreAll);
        Acted(s.(ignoreAll := r.ignoreAll, chownOk := r.chownOk, answers := s.answers[r.used..],
                 calls := s.calls + Repeat(Call(file, d.user, d.group), r.attempts), prompts := s.prompts + r.prompts),
              if r.ok then Set else Cancel, !r.ok, true)
    else if Applies(d) then Acted(ApplyFrom(s, file, ApplyUser(d), ApplyGroup(d)), d.button, true, true)
    else Acted(s, d.button, false, false)
  }

  /** Where a pass of chown_cmd's loop left things: the state, the dialogs
      still to come, whether it found an entry to work on (false when it
      broke out of the loop), end_chown and need_update. */
  datatype Pass = Pass(snap: Snap, dialogs: seq<Dialog>, found: bool, endChown: bool, needUpdate: bool)
  {
    /** The do-while stops after this pass whatever the marks. */
    predicate Stops()
    {
      !found || endChown
    }
  }

  /** The dialog part of a pass on entry `file` from `s`: the next dialog,
      the switch, then current_file's mark cleared unless the result is
      Cancel. */
  function TurnOf(s: Snap, dialogs: seq<Dialog>, file: nat): Pass
  {
    var a := ActOf(s, Head(dialogs, Dialog(Cancel, None, None)), file);
    if Count(a.snap.marks) != 0 && a.result != Cancel then
      Pass(a.snap.(marks := Unmarked(a.snap.marks, a.snap.cur)), Rest(dialogs), true, a.endChown, true)
    else Pass(a.snap, Rest(dialogs), true, a.endChown, a.needUpdate)
  }

  /** A pass of chown_cmd's loop from `s`: current_file moves to the next
      marked entry; with no entry, or one mc_stat fails on, it breaks out
      of the loop with need_update and end_chown unset; otherwise the
      dialog part on it. */
  function RoundOf(s: Snap, dialogs: seq<Dialog>, current: nat): Pass
  {
    var sel := Selected(s.marks, current, s.cur);
    var cur := if Count(s.marks) > 0 then FirstMarkedFrom(s.marks, s.cur) else s.cur;
    if sel.None? then Pass(s.(cur := cur), dialogs, false, false, false)
    else if !Head(s.statOk, true) then Pass(s.(cur := cur, statOk := Rest(s.statOk)), dialogs, false, false, false)
    else TurnOf(s.(cur := cur, statOk := Rest(s.statOk)), dialogs, sel.value)
  }

  /** A pass that neither stops the loop nor leaves the panel unmarked
      lowers the marked count. */
  lemma RoundLowers(s: Snap, dialogs: seq<Dialog>, current: nat)
    ensures var p := RoundOf(s, dialogs, current);
      !p.Stops() && Count(p.snap.marks) != 0 ==> Count(p.snap.marks) < Count(s.marks)
  {
    var sel := Selected(s.marks, current, s.cur);
    if sel.Some? && Count(s.marks) > 0 {
      CountUnmark(s.marks, sel.value);
    }
  }

  /** chown_cmd's do-while from `s`: passes until one breaks out, ends the
      command or leaves no mark; the last pass's end_chown and
      need_update. */
  function LoopOf(s: Snap, dialogs: seq<Dialog>, current: nat): Pass
    decreases Count(s.marks)
  {
    var p := RoundOf(s, dialogs, current);
    if Count(p.snap.marks) == 0 || p.Stops() then p
    else
      RoundLowers(s, dialogs, current);
      LoopOf(p.snap, p.dialogs, current)
  }

  /** chown_cmd from `s`: current_file reset to 0 and ignore_all unset,
      then the do-while. */
  function CmdOf(s: Snap, dialogs: seq<Dialog>, current: nat): Pass
  {
    LoopOf(s.(cur := 0, ignoreAll := false), dialogs, current)
  }

  /** The switch as ActOf computes it has the outcome ActOutcome states,
      and sets need_update exactly for Set and the apply_chowns buttons. */
  lemma ActOfOutcome(s: Snap, d: Dialog, file: nat)
    requires NoMarksBefore(s.marks, s.cur)
    ensures var a := ActOf(s, d, file);
      && ActOutcome(s, a.snap, d, file, a.result, a.endChown)
      && (a.needUpdate <==> d.button == Set || Applies(d))
  {
    if Applies(d) {
      ApplyFromOutcome(s, file, ApplyUser(d), ApplyGroup(d));
    }
  }

  /** The dialog part as TurnOf computes it has the pass outcome PassDone
      states; it uses one dialog, and sets need_update unless the dialog was
      cancelled or did nothing on a panel without marks. */
  lemma TurnOfOutcome(s: Snap, dialogs: seq<Dialog>, file: nat, current: nat)
    requires NoMarksBefore(s.marks, s.cur)
    requires Target(s.marks, current, file) && (Count(s.marks) > 0 ==> s.cur == file)
    ensures var p := TurnOf(s, dialogs, file);
      var d := Head(dialogs, Dialog(Cancel, None, None));
      && PassDone(s, p.snap, d, file, current, p.endChown)
      && p.found && p.dialogs == Rest(dialogs)
      && (p.needUpdate <==> d.button != Cancel && (d.button == Set || Applies(d) || Count(s.marks) > 0))
  {
    var d := Head(dialogs, Dialog(Cancel, None, None));
    var a := ActOf(s, d, file);
    ActOfOutcome(s, d, file);
    PassOutcome(s, a.snap, TurnOf(s, dialogs, file).snap, d, file, current, a.result, a.endChown);
  }

  /** A pass as RoundOf computes it has the outcome RoundOutcome states;
      with no entry or a failed mc_stat it uses no dialog and leaves
      need_update unset. */
  lemma RoundOfOutcome(s: Snap, dialogs: seq<Dialog>, current: nat)
    requires NoMarksBefore(s.marks, s.cur)
    ensures var p := RoundOf(s, dialogs, current);
      var sel := Selected(s.marks, current, s.cur);
      && RoundOutcome(s, p.snap, current, Head(dialogs, Dialog(Cancel, None, None)), p.Stops())
      && (p.found <==> sel.Some? && Head(s.statOk, true))
      && (!p.found ==> !p.endChown && !p.needUpdate && p.dialogs == dialogs)
      && (sel.Some? && Head(s.statOk, true) ==> p.dialogs == Rest(dialogs))
  {
    var sel := Selected(s.marks, current, s.cur);
    var cur := if Count(s.marks) > 0 then FirstMarkedFrom(s.marks, s.cur) else s.cur;
    var p := RoundOf(s, dialogs, current);
    if sel.Some? && Head(s.statOk, true) {
      var s1 := s.(cur := cur, statOk := Rest(s.statOk));
      TurnOfOutcome(s1, dialogs, sel.value, current);
      KeptShift(s, s1, p.snap, current, p.Stops());
    }
  }

  /** chown_cmd's do-while as LoopOf computes it: marks only cleared, calls
      only on targets, answers consumed from the front, and the loop left
      with no mark or with the command ended. */
  lemma {:induction false} LoopOfOutcome(s: Snap, dialogs: seq<Dialog>, current: nat)
    requires NoMarksBefore(s.marks, s.cur)
    ensures var p := LoopOf(s, dialogs, current);
      Rounds(s, p.snap, current, p.Stops())
    decreases Count(s.marks)
  {
    var p := RoundOf(s, dialogs, current);
    RoundOfOutcome(s, dialogs, current);
    if Count(p.snap.marks) != 0 && !p.Stops() {
      RoundLowers(s, dialogs, current);
      LoopOfOutcome(p.snap, p.dialogs, current);
      var q := LoopOf(p.snap, p.dialogs, current);
      AnswersUsedTrans(s.answers, p.snap.answers, q.snap.answers, s.ignoreAll, p.snap.ignoreAll, q.snap.ignoreAll);
      TargetsNarrow(s.marks, p.snap.marks, current, s.calls, p.snap.calls, q.snap.calls);
    }
  }

  /** chown_cmd as CmdOf computes it has the outcome CmdOutcome states. */
  lemma CmdOfOutcome(s: Snap, dialogs: seq<Dialog>, current: nat)
    ensures var p := CmdOf(s, dialogs, current);
      CmdOutcome(s, p.snap, current, Head(dialogs, Dialog(Cancel, None, None)), p.Stops())
  {
    var r := s.(cur := 0, ignoreAll := false);
    var d := Head(dialogs, Dialog(Cancel, None, None));
    var sel := Selected(s.marks, current, 0);
    RoundOfOutcome(r, dialogs, current);
    LoopOfOutcome(r, dialogs, current);
    var first := RoundOf(r, dialogs, current);
    if sel.Some? && Head(s.statOk, true) {
      assert r.(cur := if Count(r.marks) > 0 then sel.value else r.cur, statOk := Rest(r.statOk))
          == s.(cur := if Count(s.marks) > 0 then sel.value else 0, statOk := Rest(s.statOk), ignoreAll := false);
      if Terminal(s, d) {
        assert first.Stops();
      }
    }
  }

  /** When chown_cmd finds no entry, or mc_stat fails on the first one, it
      breaks out of its first pass with end_chown and need_update unset,
      and nothing is chowned, marked, asked or shown. */
  lemma CmdBreaks(s: Snap, dialogs: seq<Dialog>, current: nat)
    requires Selected(s.marks, current, 0).None? || !Head(s.statOk, true)
    ensures var p := CmdOf(s, dialogs, current);
      && !p.endChown && !p.needUpdate && p.dialogs == dialogs
      && p.snap.marks == s.marks && p.snap.calls == s.calls
      && p.snap.prompts == s.prompts && p.snap.messages == s.messages
  {
  }

  /** Set on the only file, when mc_chown fails, makes one call, shows the
      "Cannot chown" message once without a prompt, and ends the command
      with need_update set. */
  lemma SingleSetFails(s: Snap, dialogs: seq<Dialog>, current: nat)
    requires Count(s.marks) <= 1 && Selected(s.marks, current, 0).Some? && Head(s.statOk, true)
    requires dialogs != [] && dialogs[0].button == Set && !Head(s.chownOk, true)
    ensures var p := CmdOf(s, dialogs, current);
      var file := Selected(s.marks, current, 0).value;
      && p.endChown && p.needUpdate && p.dialogs == dialogs[1..]
      && p.snap.calls == s.calls + [Call(file, dialogs[0].user, dialogs[0].group)]
      && p.snap.messages == s.messages + 1 && p.snap.prompts == s.prompts
      && Count(p.snap.marks) == 0
  {
    var file := Selected(s.marks, current, 0).value;
    if Count(s.marks) == 1 {
      CountUnmark(s.marks, file);
    }
  }

  /** A dialog on which the switch does nothing (an unknown button, or Set
      users or Set groups on a name that does not resolve) does not end
      the command: the pass only clears the entry's mark, and the loop goes
      on with the next marked entry and the next dialog. */
  lemma IdleGoesOn(s: Snap, dialogs: seq<Dialog>, current: nat)
    requires NoMarksBefore(s.marks, s.cur) && Count(s.marks) > 1 && Head(s.statOk, true)
    requires Idle(Head(dialogs, Dialog(Cancel, None, None)))
    ensures var p := RoundOf(s, dialogs, current);
      && !p.Stops() && p.needUpdate && p.snap.calls == s.calls && p.dialogs == Rest(dialogs)
      && Count(p.snap.marks) == Count(s.marks) - 1
      && LoopOf(s, dialogs, current) == LoopOf(p.snap, Rest(dialogs), current)
  {
    MarkAhead(s.marks, s.cur);
    CountUnmark(s.marks, FirstMarkedFrom(s.marks, s.cur));
  }

  /** When every dialog is Set with the same ids and every mc_stat and
      mc_chown succeeds, the do-while makes one call on each marked entry
      from current_file on, in order, uses one dialog per entry, shows no
      prompt and leaves no mark. */
  lemma {:induction false} AllSetLoop(s: Snap, dialogs: seq<Dialog>, current: nat, u: Id, g: Id)
    requires NoMarksBefore(s.marks, s.cur) && Count(s.marks) > 0
    requires Unfailing(s)
    requires Count(s.marks) <= |dialogs| && forall i :: 0 <= i < |dialogs| ==> dialogs[i] == Dialog(Set, u, g)
    ensures var p := LoopOf(s, dialogs, current);
      && Count(p.snap.marks) == 0 && p.endChown && p.needUpdate
      && p.snap.calls == s.calls + CallsOn(MarkedFrom(s.marks, s.cur), u, g)
      && p.snap.prompts == s.prompts && p.snap.answers == s.answers
      && p.dialogs == dialogs[Count(s.marks)..]
    decreases Count(s.marks)
  {
    var next := SetStep(s, dialogs, current, u, g);
    CallsOnFirst(s.marks, s.cur, next.cur, u, g);
    var rest := CallsOn(MarkedFrom(next.marks, next.cur), u, g);
    assert CallsOn(MarkedFrom(s.marks, s.cur), u, g) == [Call(next.cur, u, g)] + rest;
    Assoc(s.calls, [Call(next.cur, u, g)], rest);
    if Count(s.marks) == 1 {
      CountZero(next.marks);
      MarkedFromSkip(next.marks, next.cur, next.cur + |next.marks|);
    } else {
      assert LoopOf(s, dialogs, current) == LoopOf(next, dialogs[1..], current);
      AllSetLoop(next, dialogs[1..], current, u, g);
      assert s.calls + CallsOn(MarkedFrom(s.marks, s.cur), u, g)
          == next.calls + CallsOn(MarkedFrom(next.marks, next.cur), u, g);
      assert dialogs[1..][Count(next.marks)..] == dialogs[Count(s.marks)..];
    }
  }

  /** A pass of chown_cmd's loop whose dialog is Set, and on which mc_stat
      and mc_chown succeed, makes one call on the next marked entry and
      clears its mark; it ends the command on the last marked entry. */
  lemma SetStep(s: Snap, dialogs: seq<Dialog>, current: nat, u: Id, g: Id) returns (next: Snap)
    requires NoMarksBefore(s.marks, s.cur) && Count(s.marks) > 0
    requires Head(s.statOk, true) && Head(s.chownOk, true)
    requires dialogs != [] && dialogs[0] == Dialog(Set, u, g)
    ensures next.cur == FirstMarkedFrom(s.marks, s.cur) < |s.marks|
    ensures next == s.(cur := next.cur, statOk := Rest(s.statOk), marks := Unmarked(s.marks, next.cur),
                       chownOk := Rest(s.chownOk), calls := s.calls + [Call(next.cur, u, g)])
    ensures next.calls == s.calls + [Call(next.cur, u, g)] && next.marks == Unmarked(s.marks, next.cur)
    ensures Count(next.marks) == Count(s.marks) - 1
    ensures RoundOf(s, dialogs, current) == Pass(next, dialogs[1..], true, Count(s.marks) == 1, true)
    ensures NoMarksBefore(next.marks, next.cur)
    ensures Unfailing(s) ==> Unfailing(next)
  {
    MarkAhead(s.marks, s.cur);
    var c := FirstMarkedFrom(s.marks, s.cur);
    TryWithoutPrompt(s.chownOk, s.answers, s.ignoreAll);
    CountUnmark(s.marks, c);
    next := s.(cur := c, statOk := Rest(s.statOk), marks := Unmarked(s.marks, c), chownOk := Rest(s.chownOk),
               calls := s.calls + [Call(c, u, g)]);
  }

  /** One round of chown_cmd from `s0`: what every pass keeps; no change
      and a stop of the loop when no entry is selected or mc_stat fails on
      it; otherwise the dialog's outcome on the selected entry, where
      `stop` is end_chown. */
  ghost predicate RoundOutcome(s0: Snap, s1: Snap, current: nat, d: Dialog, stop: bool)
  {
    var sel := Selected(s0.marks, current, s0.cur);
    && Kept(s0, s1, current, stop)
    && (sel.None? || !Head(s0.statOk, true) ==> stop && s1.marks == s0.marks && s1.calls == s0.calls)
    && (sel.Some? && Head(s0.statOk, true) ==>
          DialogOutcome(s0.(cur := if Count(s0.marks) > 0 then sel.value else s0.cur, statOk := Rest(s0.statOk)),
                        s1, d, sel.value, stop))
  }

  /** Several rounds from `s0`: marks only cleared, calls only on targets,
      answers consumed from the front, and the loop left with no mark or
      stopped by a break or end_chown. */
  ghost predicate Rounds(s0: Snap, s1: Snap, current: nat, stop: bool)
  {
    && Cleared(s0.marks, s1.marks)
    && CallsToTargets(s0.calls, s1.calls, s0.marks, current)
    && AnswersUsed(s0.answers, s1.answers, s0.ignoreAll, s1.ignoreAll)
    && (Count(s1.marks) == 0 || stop)
  }

  /** A first dialog after which chown_cmd cannot go on: Cancel, a Set all,
      users or groups, or a Set on the only entry or one whose chown is
      aborted. */
  ghost predicate Terminal(s0: Snap, d: Dialog)
  {
    || d.button == Cancel || Applies(d)
    || (d.button == Set && (Count(s0.marks) <= 1 || !Try(s0.chownOk, s0.answers, false).ok))
  }

  /** chown_cmd from `s0`: the several-round facts from the reset state,
      nothing done when the first round selects nothing or mc_stat fails,
      and after a terminal first dialog exactly that dialog's outcome. */
  ghost predicate CmdOutcome(s0: Snap, s1: Snap, current: nat, d: Dialog, stop: bool)
  {
    var sel := Selected(s0.marks, current, 0);
    && Rounds(s0.(ignoreAll := false), s1, current, stop)
    && (sel.None? || !Head(s0.statOk, true) ==> stop && s1.marks == s0.marks && s1.calls == s0.calls)
    && (sel.Some? && Head(s0.statOk, true) && Terminal(s0, d) ==>
          DialogOutcome(s0.(cur := if Count(s0.marks) > 0 then sel.value else 0, statOk := Rest(s0.statOk),
                            ignoreAll := false),
                        s1, d, sel.value, stop))
  }

  /** The calls of one round, all on its entry or on marked entries, aim at
      targets when its entry does. */
  lemma CallsToTarget(c0: seq<Call>, c1: seq<Call>, file: nat, marks: seq<bool>, current: nat, d: Dialog)
    requires Target(marks, current, file)
    requires CallsFrom(c0, c1, file, marks, ApplyUser(d), ApplyGroup(d))
    ensures CallsToTargets(c0, c1, marks, current)
  {
    CountZero(marks);
  }

  /** Calls aimed at the targets of a later round, when that round still
      had marks, are aimed at the targets of the first. */
  lemma TargetsNarrow(marks0: seq<bool>, marks: seq<bool>, current: nat, c0: seq<Call>, c1: seq<Call>, c2: seq<Call>)
    requires Cleared(marks0, marks)
    requires marks == marks0 || Count(marks) > 0
    requires CallsToTargets(c0, c1, marks0, current) && CallsToTargets(c1, c2, marks, current)
    ensures CallsToTargets(c0, c2, marks0, current)
  {
    if marks != marks0 {
      CountZero(marks);
      CountZero(marks0);
    }
  }
}

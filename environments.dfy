/** The environment pass, `indent_environments` in src/texformatter.py: every
    line is re-indented by the number of environments open around it, and the
    lines strictly inside a `verbatim` block are copied as they are. */
module EnvironmentPass {
  import opened PyStrings
  import opened Markup

  /** The pass's local state: the stack of open environment names and the
      verbatim flag. Both start empty/false on every call. */
  datatype EnvState = EnvState(stack: seq<string>, inVerbatim: bool)

  const Initial := EnvState([], false)

  /** What one line produces: the state for the next line and the output line. */
  datatype Emit = Emit(next: EnvState, line: string)

  /** A line strictly inside a verbatim block (the flag is on and the line does
      not close the block). */
  predicate Interior(st: EnvState, stripped: string) {
    st.inVerbatim && !StartsWith(stripped, EndVerbatim)
  }

  /** The depth a non-interior line is indented at: the stack size after an
      `\end{` line pops, where the pop is skipped on an empty stack. */
  function Depth(st: EnvState, stripped: string): nat {
    if StartsWith(stripped, EndPrefix) && |st.stack| > 0 then |st.stack| - 1 else |st.stack|
  }

  /** One iteration of the loop over the lines. */
  function EnvStep(st: EnvState, line: string, unit: string): Emit {
    var stripped := Strip(line);
    if Interior(st, stripped) then Emit(st, line)
    else
      var stack := if StartsWith(stripped, EndPrefix) && |st.stack| > 0
                   then st.stack[..|st.stack| - 1] else st.stack;
      var out := Repeat(unit, |stack|) + stripped;
      match BeginName(stripped)
      case Some(name) => Emit(EnvState(stack + [name], name == Verbatim), out)
      case None => Emit(EnvState(stack, false), out)
  }

  /** The state after a prefix of the lines, and the lines emitted so far. */
  datatype Run = Run(state: EnvState, lines: seq<string>)

  function EnvRun(lines: seq<string>, unit: string): (r: Run)
    ensures |r.lines| == |lines|
  {
    if lines == [] then Run(Initial, [])
    else
      var prev := EnvRun(lines[..|lines| - 1], unit);
      var e := EnvStep(prev.state, lines[|lines| - 1], unit);
      Run(e.next, prev.lines + [e.line])
  }

  /** The result of `indent_environments(lines, unit)`. */
  function Environments(lines: seq<string>, unit: string := DefaultUnit): seq<string> {
    EnvRun(lines, unit).lines
  }

  /** The state in which line `i` is processed. */
  function Before(lines: seq<string>, unit: string, i: nat): EnvState
    requires i <= |lines|
  {
    EnvRun(lines[..i], unit).state
  }

  /** `indent_environments` as written: a loop that pushes and pops a stack
      of names, toggles the verbatim flag and appends one line per input. */
  method IndentEnvironments(lines: seq<string>, unit: string := DefaultUnit) returns (newLines: seq<string>)
    ensures newLines == Environments(lines, unit)
    ensures |newLines| == |lines|
  {
    var envStack: seq<string> := [];
    newLines := [];
    var inVerbatim := false;
    var i := 0;
    while i < |lines|
      invariant i <= |lines|
      invariant EnvRun(lines[..i], unit) == Run(EnvState(envStack, inVerbatim), newLines)
    {
      assert lines[..i + 1][..i] == lines[..i];
      var line := lines[i];
      ghost var e := EnvStep(EnvState(envStack, inVerbatim), line, unit);
      ghost var done := newLines;
      assert EnvRun(lines[..i + 1], unit) == Run(e.next, done + [e.line]);
      var stripped := Strip(line);
      if StartsWith(stripped, EndVerbatim) {
        inVerbatim := false;
      }
      if inVerbatim && !StartsWith(stripped, EndVerbatim) {
        newLines := newLines + [line];
        i := i + 1;
        continue;
      }
      if StartsWith(stripped, EndPrefix) && |envStack| > 0 {
        envStack := envStack[..|envStack| - 1];
      }
      var indented := Repeat(unit, |envStack|) + stripped;
      newLines := newLines + [indented];
      if StartsWith(stripped, BeginPrefix) {
        var m := BeginName(stripped);
        if m.Some? {
          envStack := envStack + [m.value];
          if m.value == Verbatim {
            inVerbatim := true;
          }
        }
      }
      i := i + 1;
    }
    assert lines[..i] == lines;
  }

  lemma {:induction false} EnvRunPrefix(lines: seq<string>, unit: string, j: nat)
    requires j <= |lines|
    ensures EnvRun(lines[..j], unit).lines == Environments(lines, unit)[..j]
    decreases |lines|
  {
    if j < |lines| {
      var init := lines[..|lines| - 1];
      EnvRunPrefix(init, unit, j);
      assert init[..j] == lines[..j];
    } else {
      assert lines[..j] == lines;
    }
  }

  /** Output line `i` is what one step produces from the state left by the
      lines before it, and that step yields the state for line `i + 1`. */
  lemma EnvLineAt(lines: seq<string>, unit: string, i: nat)
    requires i < |lines|
    ensures Environments(lines, unit)[i] == EnvStep(Before(lines, unit, i), lines[i], unit).line
    ensures Before(lines, unit, i + 1) == EnvStep(Before(lines, unit, i), lines[i], unit).next
  {
    EnvRunPrefix(lines, unit, i + 1);
    assert lines[..i + 1][..i] == lines[..i];
  }

  /** The shape of every output line: a line strictly inside a verbatim block
      is copied byte for byte and leaves the state alone; every other line is
      `unit` repeated (stack size after the guarded pop) followed by the
      stripped line, and the stack then grows by one exactly when the line
      opens an environment. */
  lemma EnvLineShape(lines: seq<string>, unit: string, i: nat)
    requires i < |lines|
    ensures var st := Before(lines, unit, i);
            var s := Strip(lines[i]);
            if Interior(st, s) then
              Environments(lines, unit)[i] == lines[i] && Before(lines, unit, i + 1) == st
            else
              Environments(lines, unit)[i] == Repeat(unit, Depth(st, s)) + s &&
              |Before(lines, unit, i + 1).stack| == Depth(st, s) + (if BeginName(s).Some? then 1 else 0) &&
              Before(lines, unit, i + 1).inVerbatim == (BeginName(s) == Some(Verbatim))
  {
    EnvLineAt(lines, unit, i);
  }

  /** An `\end{` line met with nothing open stays at the left margin, and the
      stack stays empty: unmatched closers are absorbed, never an error. */
  lemma UnmatchedEndAtMargin(lines: seq<string>, unit: string, i: nat)
    requires i < |lines|
    requires Before(lines, unit, i).stack == []
    requires StartsWith(Strip(lines[i]), EndPrefix)
    requires !Interior(Before(lines, unit, i), Strip(lines[i]))
    ensures Environments(lines, unit)[i] == Strip(lines[i])
    ensures Before(lines, unit, i + 1).stack == []
  {
    EnvLineAt(lines, unit, i);
    OpenerIsNotCloser(Strip(lines[i]));
  }

  /** The verbatim flag of the pass is the document's verbatim flag: on after
      a `\begin{verbatim}` line, off after an `\end{verbatim}` line. */
  lemma {:induction false} EnvVerbatimFlag(lines: seq<string>, unit: string, i: nat)
    requires i <= |lines|
    ensures Before(lines, unit, i).inVerbatim == VerbatimAfter(lines[..i])
  {
    if i > 0 {
      EnvVerbatimFlag(lines, unit, i - 1);
      EnvLineAt(lines, unit, i - 1);
      assert lines[..i][..i - 1] == lines[..i - 1];
      OpensVerbatim(Strip(lines[i - 1]));
      OpenerIsNotCloser(Strip(lines[i - 1]));
    }
  }

  /** Number of lines that open an environment. */
  function Openers(lines: seq<string>): nat {
    if lines == [] then 0
    else Openers(lines[..|lines| - 1]) + (if BeginName(Strip(lines[|lines| - 1])).Some? then 1 else 0)
  }

  /** The stack never holds more names than there were opener lines, so the
      indentation depth is bounded by the number of `\begin{...}` lines. */
  lemma {:induction false} DepthBounded(lines: seq<string>, unit: string, i: nat)
    requires i <= |lines|
    ensures |Before(lines, unit, i).stack| <= Openers(lines[..i])
  {
    if i > 0 {
      DepthBounded(lines, unit, i - 1);
      EnvLineAt(lines, unit, i - 1);
      assert lines[..i][..i - 1] == lines[..i - 1];
    }
  }

  /** Net effect of a stripped line on the depth: +1 for an opener, -1 for a
      closer. */
  function Delta(stripped: string): int {
    if BeginName(stripped).Some? then 1 else if StartsWith(stripped, EndPrefix) then -1 else 0
  }

  /** Net effect of line `k` on the depth: none for a line the pass copies
      from inside a verbatim block, otherwise that of its stripped text. */
  function Effect(lines: seq<string>, k: nat): int
    requires k < |lines|
  {
    if InsideVerbatim(lines, k) then 0 else Delta(Strip(lines[k]))
  }

  /** Openers minus closers, as the pass reads them, among lines `i` up to,
      not including, `k`. */
  function Balance(lines: seq<string>, i: nat, k: nat): int
    requires i <= k <= |lines|
    decreases k
  {
    if k == i then 0 else Balance(lines, i, k - 1) + Effect(lines, k - 1)
  }

  /** The state after line `i` is the step of the state before it. */
  lemma BeforeStep(lines: seq<string>, unit: string, i: nat)
    requires i < |lines|
    ensures Before(lines, unit, i + 1) == EnvStep(Before(lines, unit, i), lines[i], unit).next
  {
    assert lines[..i + 1][..i] == lines[..i];
  }

  /** One line moves the depth by its own effect: none when the pass copies
      it, +1 for an opener, -1 for a closer when something is open, and 0
      otherwise. */
  lemma DepthStep(st: EnvState, line: string, unit: string)
    requires |st.stack| + (if Interior(st, Strip(line)) then 0 else Delta(Strip(line))) >= 0
    ensures |EnvStep(st, line, unit).next.stack| ==
            |st.stack| + (if Interior(st, Strip(line)) then 0 else Delta(Strip(line)))
  {
    OpenerIsNotCloser(Strip(line));
  }

  /** Line `j - 1` moves the depth by its effect, so the depth keeps
      following the balance counted from line `i`. */
  lemma BalanceStep(lines: seq<string>, unit: string, i: nat, j: nat, base: int, st: EnvState, next: EnvState)
    requires i < j <= |lines|
    requires next == EnvStep(st, lines[j - 1], unit).next
    requires st.inVerbatim == VerbatimAfter(lines[..j - 1])
    requires |st.stack| == base + Balance(lines, i, j - 1)
    requires base + Balance(lines, i, j) >= 0
    ensures |next.stack| == base + Balance(lines, i, j)
  {
    var line := lines[j - 1];
    assert Balance(lines, i, j) == Balance(lines, i, j - 1) + Effect(lines, j - 1);
    assert InsideVerbatim(lines, j - 1) == Interior(st, Strip(line));
    DepthStep(st, line, unit);
  }

  /** From depth `base` at line `i`, the lines up to `k` never close more
      environments than are open. */
  predicate Floor(lines: seq<string>, base: int, i: nat, k: nat) {
    i <= k <= |lines| && base + Balance(lines, i, k) >= 0
  }

  /** Across lines that never close more than is open, the depth moves by
      exactly the lines' balance of openers and closers; lines copied from
      inside a verbatim block leave it alone. */
  lemma {:induction false} StackFollowsBalance(lines: seq<string>, unit: string, i: nat, j: nat)
    requires i <= j <= |lines|
    requires forall k :: i <= k <= j ==> Floor(lines, |Before(lines, unit, i).stack|, i, k)
    ensures |Before(lines, unit, j).stack| == |Before(lines, unit, i).stack| + Balance(lines, i, j)
    decreases j
  {
    if j > i {
      var base := |Before(lines, unit, i).stack|;
      StackFollowsBalance(lines, unit, i, j - 1);
      assert Floor(lines, base, i, j);
      FollowStep(lines, unit, i, j, base);
    }
  }

  /** The depth before line `j` follows the balance when the depth before
      line `j - 1` does. */
  lemma FollowStep(lines: seq<string>, unit: string, i: nat, j: nat, base: int)
    requires i < j <= |lines|
    requires |Before(lines, unit, j - 1).stack| == base + Balance(lines, i, j - 1)
    requires base + Balance(lines, i, j) >= 0
    ensures |Before(lines, unit, j).stack| == base + Balance(lines, i, j)
  {
    BeforeStep(lines, unit, j - 1);
    EnvVerbatimFlag(lines, unit, j - 1);
    BalanceStep(lines, unit, i, j, base, Before(lines, unit, j - 1), Before(lines, unit, j));
  }

  /** Lines that keep an environment open from line `i` on never fall below
      any starting depth. */
  lemma OpenBetween(lines: seq<string>, base: nat, i: nat, j: nat)
    requires i <= j <= |lines|
    requires forall k :: i < k <= j ==> Balance(lines, i, k) >= 1
    ensures forall k :: i <= k <= j ==> Floor(lines, base, i, k)
  {
    forall k | i <= k <= j ensures Floor(lines, base, i, k) {
      if k > i {
        assert Balance(lines, i, k) >= 1;
      }
    }
  }

  /** A `\begin{X}` line and the `\end{...}` line that balances it are both
      indented at the depth outside X, whatever X encloses, verbatim blocks
      included: counting the opener, every stretch from line `i` keeps at
      least one environment open until line `j`, which the pass reads as a
      closer, closes the last one. */
  lemma MatchingEndSameDepth(lines: seq<string>, unit: string, i: nat, j: nat)
    requires i < j < |lines|
    requires !VerbatimAfter(lines[..i])
    requires BeginName(Strip(lines[i])).Some?
    requires !InsideVerbatim(lines, j) && StartsWith(Strip(lines[j]), EndPrefix)
    requires forall k :: i < k <= j ==> Balance(lines, i, k) >= 1
    requires Balance(lines, i, j) == 1
    ensures var d := |Before(lines, unit, i).stack|;
            Environments(lines, unit)[i] == Repeat(unit, d) + Strip(lines[i]) &&
            Environments(lines, unit)[j] == Repeat(unit, d) + Strip(lines[j])
  {
    EnvVerbatimFlag(lines, unit, i);
    OpenerIsNotCloser(Strip(lines[i]));
    EnvLineAt(lines, unit, i);
    OpenBetween(lines, |Before(lines, unit, i).stack|, i, j);
    StackFollowsBalance(lines, unit, i, j);
    EnvVerbatimFlag(lines, unit, j);
    EnvLineAt(lines, unit, j);
  }

  lemma {:induction false} VerbatimStateHeld(lines: seq<string>, unit: string, i: nat, k: nat)
    requires i < k <= |lines|
    requires !Interior(Before(lines, unit, i), Strip(lines[i]))
    requires StartsWith(Strip(lines[i]), BeginVerbatim)
    requires forall m :: i < m < k ==> !StartsWith(Strip(lines[m]), EndVerbatim)
    ensures Before(lines, unit, k) == Before(lines, unit, i + 1)
    ensures Before(lines, unit, k).inVerbatim
    decreases k
  {
    EnvLineAt(lines, unit, i);
    OpensVerbatim(Strip(lines[i]));
    if k > i + 1 {
      VerbatimStateHeld(lines, unit, i, k - 1);
      EnvLineAt(lines, unit, k - 1);
    }
  }

  /** A verbatim block: the lines strictly between the `\begin{verbatim}`
      line and the next line starting with `\end{verbatim}` (or the end of the
      document) come out byte-identical, and the two boundary lines are
      indented normally, at the same depth. */
  lemma VerbatimBlockKept(lines: seq<string>, unit: string, i: nat, j: nat)
    requires i < j <= |lines|
    requires !VerbatimAfter(lines[..i])
    requires StartsWith(Strip(lines[i]), BeginVerbatim)
    requires forall m :: i < m < j ==> !StartsWith(Strip(lines[m]), EndVerbatim)
    requires j < |lines| ==> StartsWith(Strip(lines[j]), EndVerbatim)
    ensures forall k :: i < k < j ==> Environments(lines, unit)[k] == lines[k]
    ensures var d := Depth(Before(lines, unit, i), Strip(lines[i]));
            Environments(lines, unit)[i] == Repeat(unit, d) + Strip(lines[i]) &&
            (j < |lines| ==> Environments(lines, unit)[j] == Repeat(unit, d) + Strip(lines[j]))
  {
    EnvVerbatimFlag(lines, unit, i);
    EnvLineAt(lines, unit, i);
    OpensVerbatim(Strip(lines[i]));
    OpenerIsNotCloser(Strip(lines[i]));
    forall k | i < k < j
      ensures Environments(lines, unit)[k] == lines[k]
    {
      VerbatimStateHeld(lines, unit, i, k);
      EnvLineAt(lines, unit, k);
    }
    if j < |lines| {
      VerbatimStateHeld(lines, unit, i, j);
      EnvLineAt(lines, unit, j);
      assert StartsWith(Strip(lines[j]), EndPrefix);
    }
  }

  /** With a whitespace unit the pass keeps every line's stripped form. */
  lemma EnvKeepsStripped(lines: seq<string>, unit: string, i: nat)
    requires AllSpace(unit)
    requires i < |lines|
    ensures Strip(Environments(lines, unit)[i]) == Strip(lines[i])
  {
    EnvLineAt(lines, unit, i);
    StripIndented(unit, Depth(Before(lines, unit, i), Strip(lines[i])), lines[i]);
  }

  /** Lines strictly inside a verbatim block come out byte-identical. */
  lemma EnvKeepsVerbatim(lines: seq<string>, unit: string, i: nat)
    requires i < |lines|
    requires InsideVerbatim(lines, i)
    ensures Environments(lines, unit)[i] == lines[i]
  {
    EnvVerbatimFlag(lines, unit, i);
    EnvLineAt(lines, unit, i);
  }

  /** With a whitespace unit, stepping again over the line a step emitted,
      from the same state, emits it again and reaches the same state. */
  lemma EnvStepAgain(st: EnvState, line: string, unit: string)
    requires AllSpace(unit)
    ensures var e := EnvStep(st, line, unit);
            EnvStep(st, e.line, unit) == e
  {
    var s := Strip(line);
    if !Interior(st, s) {
      var stack := if StartsWith(s, EndPrefix) && |st.stack| > 0 then st.stack[..|st.stack| - 1] else st.stack;
      StripIndented(unit, |stack|, line);
    }
  }

  /** Re-running the pass over its own output, with the same whitespace unit,
      reaches the same state and emits the same lines. */
  lemma {:induction false} EnvRunAgain(lines: seq<string>, unit: string)
    requires AllSpace(unit)
    ensures EnvRun(EnvRun(lines, unit).lines, unit) == EnvRun(lines, unit)
  {
    if lines != [] {
      var init := lines[..|lines| - 1];
      var prev := EnvRun(init, unit);
      var e := EnvStep(prev.state, lines[|lines| - 1], unit);
      var out := prev.lines + [e.line];
      EnvRunAgain(init, unit);
      EnvStepAgain(prev.state, lines[|lines| - 1], unit);
      assert out[..|out| - 1] == prev.lines;
    }
  }

  /** Re-running the pass with the same whitespace unit changes nothing. */
  lemma EnvIdempotent(lines: seq<string>, unit: string)
    requires AllSpace(unit)
    ensures Environments(Environments(lines, unit), unit) == Environments(lines, unit)
  {
    EnvRunAgain(lines, unit);
  }

  /** The state after a line depends only on the line's stripped text. */
  lemma NextStripped(st: EnvState, x: string, y: string, ux: string, uy: string)
    requires Strip(x) == Strip(y)
    ensures EnvStep(st, x, ux).next == EnvStep(st, y, uy).next
  {
  }

  /** The state the pass reaches depends on the stripped lines only, and not
      on the unit. */
  lemma {:induction false} StateStripped(a: seq<string>, b: seq<string>, ua: string, ub: string, i: nat)
    requires |a| == |b| && i <= |a|
    requires forall k :: 0 <= k < |a| ==> Strip(a[k]) == Strip(b[k])
    ensures Before(a, ua, i) == Before(b, ub, i)
  {
    if i > 0 {
      StateStripped(a, b, ua, ub, i - 1);
      BeforeStep(a, ua, i - 1);
      BeforeStep(b, ub, i - 1);
      NextStripped(Before(a, ua, i - 1), a[i - 1], b[i - 1], ua, ub);
    }
  }

  /** Two documents that agree once stripped, and agree byte for byte on the
      lines strictly inside verbatim blocks, get the same output from the
      pass: every other line is rebuilt from its stripped text alone. */
  lemma EnvStripped(a: seq<string>, b: seq<string>, unit: string)
    requires |a| == |b|
    requires forall k :: 0 <= k < |a| ==> Strip(a[k]) == Strip(b[k])
    requires forall k :: 0 <= k < |a| && InsideVerbatim(a, k) ==> a[k] == b[k]
    ensures Environments(a, unit) == Environments(b, unit)
  {
    forall i | 0 <= i < |a|
      ensures Environments(a, unit)[i] == Environments(b, unit)[i]
    {
      StateStripped(a, b, unit, unit, i);
      EnvVerbatimFlag(a, unit, i);
      EnvLineAt(a, unit, i);
      EnvLineAt(b, unit, i);
    }
  }
}

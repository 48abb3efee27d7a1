/** The section-level pass, `indent_section_level` in src/texformatter.py:
    one generic pass, configured by a sectioning command and the commands
    that end its scope, which adds one indentation unit to every line between
    a command line and the next line that ends the scope. Lines strictly
    inside a verbatim block are copied as they are. */
module SectionPass {
  import opened PyStrings
  import opened Markup

  /** The pass's configuration: `command` and `exit_commands`. */
  datatype Level = Level(command: string, exitCommands: seq<string>)

  /** The characters `line.lstrip(" \t")` removes. */
  const IndentChars: set<char> := {' ', '\t'}

  /** A unit the level arithmetic reads back exactly: non-empty, and made of
      the characters the pass measures. */
  predicate IndentUnit(unit: string) {
    |unit| > 0 && forall c :: c in unit ==> c in IndentChars
  }

  lemma IndentUnitIsSpace(unit: string)
    requires IndentUnit(unit)
    ensures AllSpace(unit)
  {
    forall i | 0 <= i < |unit| ensures IsSpace(unit[i]) {
      assert unit[i] in unit;
    }
  }

  /** The existing indentation of a line in units: the number of leading
      spaces and tabs divided by the unit's length (floor division), or 0
      for an empty unit. */
  function CurrentLevel(line: string, unit: string): nat {
    if |unit| > 0 then LeadingIn(line, IndentChars) / |unit| else 0
  }

  /** A line that ends the scope: it starts with one of the exit commands, or
      is exactly `\end{document}`. */
  predicate IsExit(stripped: string, exitCommands: seq<string>) {
    (exists cmd :: cmd in exitCommands && StartsWith(stripped, cmd)) || stripped == EndDocument
  }

  /** Whether a line that is not copied gets the extra unit: inside the scope,
      and neither a command line nor a line that ends the scope. */
  predicate Deeper(inSection: bool, stripped: string, lvl: Level) {
    inSection && !StartsWith(stripped, lvl.command) && !IsExit(stripped, lvl.exitCommands)
  }

  /** The pass's local state: the in-section flag and its own verbatim flag. */
  datatype SecState = SecState(inSection: bool, inVerbatim: bool)

  const Initial := SecState(false, false)

  datatype Emit = Emit(next: SecState, line: string)

  /** One iteration of the loop over the lines. */
  function SecStep(st: SecState, line: string, lvl: Level, unit: string): Emit {
    var stripped := Strip(line);
    var v := if StartsWith(stripped, BeginVerbatim) then true
             else if StartsWith(stripped, EndVerbatim) then false
             else st.inVerbatim;
    if v && !StartsWith(stripped, BeginVerbatim) && !StartsWith(stripped, EndVerbatim) then
      Emit(SecState(st.inSection, v), line)
    else
      var level := CurrentLevel(line, unit);
      if StartsWith(stripped, lvl.command) then
        Emit(SecState(true, v), Repeat(unit, level) + stripped)
      else if st.inSection then
        if IsExit(stripped, lvl.exitCommands) then
          Emit(SecState(false, v), Repeat(unit, level) + stripped)
        else
          Emit(SecState(true, v), Repeat(unit, level + 1) + stripped)
      else
        Emit(SecState(false, v), Repeat(unit, level) + stripped)
  }

  datatype Run = Run(state: SecState, lines: seq<string>)

  function SecRun(lines: seq<string>, lvl: Level, unit: string): (r: Run)
    ensures |r.lines| == |lines|
  {
    if lines == [] then Run(Initial, [])
    else
      var prev := SecRun(lines[..|lines| - 1], lvl, unit);
      var e := SecStep(prev.state, lines[|lines| - 1], lvl, unit);
      Run(e.next, prev.lines + [e.line])
  }

  /** The result of `indent_section_level(lines, command, exit_commands, unit)`. */
  function Sections(lines: seq<string>, lvl: Level, unit: string := DefaultUnit): seq<string> {
    SecRun(lines, lvl, unit).lines
  }

  /** The state in which line `i` is processed. */
  function Before(lines: seq<string>, lvl: Level, unit: string, i: nat): SecState
    requires i <= |lines|
  {
    SecRun(lines[..i], lvl, unit).state
  }

  /** `any(stripped.startswith(cmd) for cmd in exit_commands)`, scanning the
      commands in order and stopping at the first match. */
  method StartsWithAny(stripped: string, cmds: seq<string>) returns (found: bool)
    ensures found <==> exists cmd :: cmd in cmds && StartsWith(stripped, cmd)
  {
    found := false;
    var k := 0;
    while k < |cmds| && !found
      invariant k <= |cmds|
      invariant found ==> k > 0 && StartsWith(stripped, cmds[k - 1])
      invariant !found ==> forall m :: 0 <= m < k ==> !StartsWith(stripped, cmds[m])
    {
      found := StartsWith(stripped, cmds[k]);
      k := k + 1;
    }
  }

  /** `indent_section_level` as written: a loop that keeps the in-section and
      verbatim flags and appends one line per input. */
  method IndentSectionLevel(lines: seq<string>, command: string, exitCommands: seq<string>, unit: string := DefaultUnit)
    returns (newLines: seq<string>)
    ensures newLines == Sections(lines, Level(command, exitCommands), unit)
    ensures |newLines| == |lines|
  {
    ghost var lvl := Level(command, exitCommands);
    var inSection := false;
    var inVerbatim := false;
    newLines := [];
    var i := 0;
    while i < |lines|
      invariant i <= |lines|
      invariant SecRun(lines[..i], lvl, unit) == Run(SecState(inSection, inVerbatim), newLines)
    {
      assert lines[..i + 1][..i] == lines[..i];
      var out;
      inSection, inVerbatim, out := SectionLine(inSection, inVerbatim, lines[i], command, exitCommands, unit);
      newLines := newLines + [out];
      i := i + 1;
    }
    assert lines[..i] == lines;
  }

  /** The body of the loop for one line: the flags after it and the line it
      appends, a copied verbatim line standing for the `continue`. */
  method SectionLine(inSection: bool, inVerbatim: bool, line: string, command: string, exitCommands: seq<string>, unit: string)
    returns (nextSection: bool, nextVerbatim: bool, out: string)
    ensures Emit(SecState(nextSection, nextVerbatim), out) ==
            SecStep(SecState(inSection, inVerbatim), line, Level(command, exitCommands), unit)
  {
    var stripped := Strip(line);
    nextSection, nextVerbatim := inSection, inVerbatim;
    if StartsWith(stripped, BeginVerbatim) {
      nextVerbatim := true;
    } else if StartsWith(stripped, EndVerbatim) {
      nextVerbatim := false;
    }
    if nextVerbatim && !StartsWith(stripped, BeginVerbatim) && !StartsWith(stripped, EndVerbatim) {
      return nextSection, nextVerbatim, line;
    }
    var currentLevel := CurrentLevel(line, unit);
    var newLevel;
    if StartsWith(stripped, command) {
      newLevel := currentLevel;
      nextSection := true;
    } else if inSection {
      var exits := StartsWithAny(stripped, exitCommands);
      if exits || stripped == EndDocument {
        newLevel := currentLevel;
        nextSection := false;
      } else {
        newLevel := currentLevel + 1;
      }
    } else {
      newLevel := currentLevel;
    }
    out := Repeat(unit, newLevel) + stripped;
  }

  lemma {:induction false} SecRunPrefix(lines: seq<string>, lvl: Level, unit: string, j: nat)
    requires j <= |lines|
    ensures SecRun(lines[..j], lvl, unit).lines == Sections(lines, lvl, unit)[..j]
    decreases |lines|
  {
    if j < |lines| {
      var init := lines[..|lines| - 1];
      SecRunPrefix(init, lvl, unit, j);
      assert init[..j] == lines[..j];
    } else {
      assert lines[..j] == lines;
    }
  }

  /** Output line `i` is what one step produces from the state left by the
      lines before it, and that step yields the state for line `i + 1`. */
  lemma SecLineAt(lines: seq<string>, lvl: Level, unit: string, i: nat)
    requires i < |lines|
    ensures Sections(lines, lvl, unit)[i] == SecStep(Before(lines, lvl, unit, i), lines[i], lvl, unit).line
    ensures Before(lines, lvl, unit, i + 1) == SecStep(Before(lines, lvl, unit, i), lines[i], lvl, unit).next
  {
    var upTo := lines[..i + 1];
    SecRunPrefix(lines, lvl, unit, i + 1);
    assert upTo[..i] == lines[..i] && upTo[i] == lines[i];
    SecBeforeStep(lines, lvl, unit, i);
  }

  /** The pass's verbatim flag is the document's verbatim flag. */
  lemma {:induction false} SecVerbatimFlag(lines: seq<string>, lvl: Level, unit: string, i: nat)
    requires i <= |lines|
    ensures Before(lines, lvl, unit, i).inVerbatim == VerbatimAfter(lines[..i])
  {
    if i > 0 {
      SecVerbatimFlag(lines, lvl, unit, i - 1);
      SecLineAt(lines, lvl, unit, i - 1);
      assert lines[..i][..i - 1] == lines[..i - 1];
      OpenerIsNotCloser(Strip(lines[i - 1]));
    }
  }

  /** A line the pass copies unchanged: strictly inside a verbatim block and
      not itself a `\begin{verbatim}` line. */
  predicate Copied(lines: seq<string>, i: nat)
    requires i < |lines|
  {
    InsideVerbatim(lines, i) && !StartsWith(Strip(lines[i]), BeginVerbatim)
  }

  /** The shape of every output line: a copied line is byte-identical and
      leaves the in-section flag alone; every other line is `unit` repeated
      (existing level, plus one inside the scope unless the line starts or
      ends a scope) followed by the stripped line, and the flag afterwards is
      on after a command line, off after a line that ends the scope, and
      otherwise unchanged. */
  lemma SecLineShape(lines: seq<string>, lvl: Level, unit: string, i: nat)
    requires i < |lines|
    ensures var inSection := Before(lines, lvl, unit, i).inSection;
            var s := Strip(lines[i]);
            var after := Before(lines, lvl, unit, i + 1).inSection;
            if Copied(lines, i) then
              Sections(lines, lvl, unit)[i] == lines[i] && after == inSection
            else
              Sections(lines, lvl, unit)[i] ==
                Repeat(unit, CurrentLevel(lines[i], unit) + (if Deeper(inSection, s, lvl) then 1 else 0)) + s &&
              after == (StartsWith(s, lvl.command) || (inSection && !IsExit(s, lvl.exitCommands)))
  {
    SecVerbatimFlag(lines, lvl, unit, i);
    SecLineAt(lines, lvl, unit, i);
    OpenerIsNotCloser(Strip(lines[i]));
  }

  /** Line `j` opens the scope: a command line the pass does not copy. */
  predicate Opens(lines: seq<string>, lvl: Level, j: nat)
    requires j < |lines|
  {
    !Copied(lines, j) && StartsWith(Strip(lines[j]), lvl.command)
  }

  /** Line `k` ends the scope: a non-command line, not copied, that starts
      with an exit command or is `\end{document}`. */
  predicate Closes(lines: seq<string>, lvl: Level, k: nat)
    requires k < |lines|
  {
    !Copied(lines, k) && !StartsWith(Strip(lines[k]), lvl.command) && IsExit(Strip(lines[k]), lvl.exitCommands)
  }

  /** Some line before `i` opened the scope and no line since has ended it. */
  predicate OpenSince(lines: seq<string>, lvl: Level, i: nat)
    requires i <= |lines|
  {
    exists j :: 0 <= j < i && Opens(lines, lvl, j) && forall k :: j < k < i ==> !Closes(lines, lvl, k)
  }

  lemma OpenSinceStep(lines: seq<string>, lvl: Level, p: nat)
    requires p < |lines|
    ensures OpenSince(lines, lvl, p + 1) == (Opens(lines, lvl, p) || (!Closes(lines, lvl, p) && OpenSince(lines, lvl, p)))
  {
    var i := p + 1;
    if !Opens(lines, lvl, p) {
      if Closes(lines, lvl, p) {
        forall j | 0 <= j < p
          ensures !(Opens(lines, lvl, j) && forall k :: j < k < i ==> !Closes(lines, lvl, k))
        {
          assert j < p < i;
        }
      } else if OpenSince(lines, lvl, p) {
        var j :| 0 <= j < p && Opens(lines, lvl, j) && forall k :: j < k < p ==> !Closes(lines, lvl, k);
        forall k | j < k < i
          ensures !Closes(lines, lvl, k)
        {
          if k == p {
            assert !Closes(lines, lvl, p);
          }
        }
      } else {
        forall j | 0 <= j < p
          ensures !(Opens(lines, lvl, j) && forall k :: j < k < i ==> !Closes(lines, lvl, k))
        {
          assert !(Opens(lines, lvl, j) && forall k :: j < k < p ==> !Closes(lines, lvl, k));
        }
      }
    }
  }

  /** The enter/exit rule: line `i` is processed inside the scope exactly
      when some earlier line opened it and no line since has ended it. */
  lemma {:induction false} InSectionIff(lines: seq<string>, lvl: Level, unit: string, i: nat)
    requires i <= |lines|
    ensures Before(lines, lvl, unit, i).inSection <==> OpenSince(lines, lvl, i)
  {
    if i == 0 {
      assert lines[..0] == [];
    } else {
      InSectionIff(lines, lvl, unit, i - 1);
      SecLineShape(lines, lvl, unit, i - 1);
      OpenSinceStep(lines, lvl, i - 1);
    }
  }

  /** With a whitespace unit one step keeps the line's stripped form. */
  lemma SecStepKeepsStripped(st: SecState, line: string, lvl: Level, unit: string)
    requires AllSpace(unit)
    ensures Strip(SecStep(st, line, lvl, unit).line) == Strip(line)
  {
    var e := SecStep(st, line, lvl, unit);
    if e.line != line {
      var n :| e.line == Repeat(unit, n) + Strip(line);
      StripIndented(unit, n, line);
    }
  }

  /** With a whitespace unit the pass keeps every line's stripped form. */
  lemma SecKeepsStripped(lines: seq<string>, lvl: Level, unit: string, i: nat)
    requires AllSpace(unit)
    requires i < |lines|
    ensures Strip(Sections(lines, lvl, unit)[i]) == Strip(lines[i])
  {
    SecLineAt(lines, lvl, unit, i);
    SecStepKeepsStripped(Before(lines, lvl, unit, i), lines[i], lvl, unit);
  }

  /** Whether a line is copied depends on the stripped lines only. */
  lemma CopiedStripped(a: seq<string>, b: seq<string>, i: nat)
    requires |a| == |b| && i < |a|
    requires forall k :: 0 <= k < |a| ==> Strip(a[k]) == Strip(b[k])
    ensures Copied(a, i) == Copied(b, i)
  {
    VerbatimAfterStripped(a[..i], b[..i]);
  }

  /** A line written as `unit` repeated `n` times before a stripped line
      measures back to level `n`. */
  lemma LevelOfIndented(unit: string, n: nat, line: string)
    requires |unit| > 0
    requires forall c :: c in unit ==> c in IndentChars
    ensures CurrentLevel(Repeat(unit, n) + Strip(line), unit) == n
  {
    var t := Strip(line);
    StripShape(line);
    assert t == [] || t[0] !in IndentChars;
    assert forall k :: 0 <= k < |unit| ==> unit[k] in IndentChars;
    MeasureIndented(unit, n, t, IndentChars);
    MulDiv(|unit|, n);
  }

  /** A line the pass does not copy: its stripped text behind its existing
      level in units, plus one inside the scope. */
  lemma IndentedLine(lines: seq<string>, lvl: Level, unit: string, i: nat)
    requires i < |lines|
    requires !Copied(lines, i)
    ensures Sections(lines, lvl, unit)[i] ==
            Repeat(unit, CurrentLevel(lines[i], unit) +
                         (if Deeper(Before(lines, lvl, unit, i).inSection, Strip(lines[i]), lvl) then 1 else 0)) +
            Strip(lines[i])
  {
    SecLineShape(lines, lvl, unit, i);
  }

  /** A line already at `m` units comes out at `m` units, plus one inside
      the scope. */
  lemma IndentedAt(lines: seq<string>, lvl: Level, unit: string, i: nat, m: nat)
    requires IndentUnit(unit)
    requires i < |lines|
    requires !Copied(lines, i)
    requires lines[i] == Repeat(unit, m) + Strip(lines[i])
    ensures Sections(lines, lvl, unit)[i] ==
            Repeat(unit, m + (if Deeper(Before(lines, lvl, unit, i).inSection, Strip(lines[i]), lvl) then 1 else 0)) +
            Strip(lines[i])
  {
    LevelOfIndented(unit, m, lines[i]);
    IndentedLine(lines, lvl, unit, i);
  }

  /** With a unit of spaces and tabs, no line moves by more than one unit:
      a line the pass does not copy comes out as its stripped text behind a
      whole number of units, its existing level or one more. */
  lemma {:induction false} AtMostOneUnitDeeper(lines: seq<string>, lvl: Level, unit: string, i: nat)
    requires IndentUnit(unit)
    requires i < |lines|
    requires !Copied(lines, i)
    ensures var out := Sections(lines, lvl, unit)[i];
            out == Repeat(unit, CurrentLevel(out, unit)) + Strip(lines[i]) &&
            CurrentLevel(lines[i], unit) <= CurrentLevel(out, unit) <= CurrentLevel(lines[i], unit) + 1
  {
    var m := CurrentLevel(lines[i], unit);
    var b := if Deeper(Before(lines, lvl, unit, i).inSection, Strip(lines[i]), lvl) then 1 else 0;
    IndentedLine(lines, lvl, unit, i);
    LevelOfIndented(unit, m + b, lines[i]);
  }

  /** The state after line `i` is the step of the state before it. */
  lemma SecBeforeStep(lines: seq<string>, lvl: Level, unit: string, i: nat)
    requires i < |lines|
    ensures Before(lines, lvl, unit, i + 1) == SecStep(Before(lines, lvl, unit, i), lines[i], lvl, unit).next
  {
    assert lines[..i + 1][..i] == lines[..i];
  }

  /** The state after a line depends only on the line's stripped text. */
  lemma SecNextStripped(st: SecState, x: string, y: string, lvl: Level, ux: string, uy: string)
    requires Strip(x) == Strip(y)
    ensures SecStep(st, x, lvl, ux).next == SecStep(st, y, lvl, uy).next
  {
  }

  /** Both flags depend on the stripped lines only, so two documents that
      agree once stripped are processed in the same states, whatever the
      units. */
  lemma {:induction false} SecStateStripped(a: seq<string>, b: seq<string>, lvl: Level, ua: string, ub: string, i: nat)
    requires |a| == |b| && i <= |a|
    requires forall k :: 0 <= k < |a| ==> Strip(a[k]) == Strip(b[k])
    ensures Before(a, lvl, ua, i) == Before(b, lvl, ub, i)
  {
    if i > 0 {
      SecStateStripped(a, b, lvl, ua, ub, i - 1);
      SecBeforeStep(a, lvl, ua, i - 1);
      SecBeforeStep(b, lvl, ub, i - 1);
      SecNextStripped(Before(a, lvl, ua, i - 1), a[i - 1], b[i - 1], lvl, ua, ub);
    }
  }

  /** Whether a line opens or ends the scope depends on the stripped lines
      only, so the enter/exit rule reads the same on any two documents that
      agree once stripped. */
  lemma InSectionStripped(a: seq<string>, b: seq<string>, lvl: Level, ua: string, ub: string, i: nat)
    requires |a| == |b| && i <= |a|
    requires forall k :: 0 <= k < |a| ==> Strip(a[k]) == Strip(b[k])
    ensures Before(a, lvl, ua, i).inSection == Before(b, lvl, ub, i).inSection
  {
    SecStateStripped(a, b, lvl, ua, ub, i);
  }

  /** One step, from the same state, over two lines that agree once stripped
      and sit at the same level in two units: both come out at the same new
      level, the old one or one more. */
  lemma StepAnyUnit(st: SecState, x: string, y: string, lvl: Level, ua: string, ub: string, m: nat)
    requires IndentUnit(ua) && IndentUnit(ub) && Strip(x) == Strip(y)
    requires !(st.inVerbatim && !StartsWith(Strip(x), BeginVerbatim) && !StartsWith(Strip(x), EndVerbatim))
    requires x == Repeat(ua, m) + Strip(x) && y == Repeat(ub, m) + Strip(y)
    ensures var l := CurrentLevel(SecStep(st, x, lvl, ua).line, ua);
            SecStep(st, x, lvl, ua).line == Repeat(ua, l) + Strip(x) &&
            SecStep(st, y, lvl, ub).line == Repeat(ub, l) + Strip(y) &&
            m <= l <= m + 1
  {
    var d := if Deeper(st.inSection, Strip(x), lvl) then 1 else 0;
    StepLine(st, x, lvl, ua);
    StepLine(st, y, lvl, ub);
    LevelOfIndented(ua, m, x);
    LevelOfIndented(ub, m, y);
    SameCount(SecStep(st, x, lvl, ua).line, SecStep(st, y, lvl, ub).line, x, y, ua, ub, m, d);
  }

  /** A step that does not copy its line emits the stripped line behind the
      existing level, plus one unit when the line goes deeper. */
  lemma StepLine(st: SecState, x: string, lvl: Level, u: string)
    requires !(st.inVerbatim && !StartsWith(Strip(x), BeginVerbatim) && !StartsWith(Strip(x), EndVerbatim))
    ensures SecStep(st, x, lvl, u).line ==
            Repeat(u, CurrentLevel(x, u) + (if Deeper(st.inSection, Strip(x), lvl) then 1 else 0)) + Strip(x)
  {
  }

  /** Two lines indented by the same number of units, each in its own unit,
      both read back as that number of units in the first unit's terms. */
  lemma SameCount(outA: string, outB: string, x: string, y: string, ua: string, ub: string, m: nat, d: nat)
    requires IndentUnit(ua) && d <= 1
    requires outA == Repeat(ua, m + d) + Strip(x) && outB == Repeat(ub, m + d) + Strip(y)
    ensures var l := CurrentLevel(outA, ua);
            outA == Repeat(ua, l) + Strip(x) &&
            outB == Repeat(ub, l) + Strip(y) &&
            m <= l <= m + 1
  {
    LevelOfIndented(ua, m + d, x);
  }

  /** Two documents that agree once stripped, with the same line at the same
      level in two units, get that line at the same new level in both units:
      the pass adds the same number of units whatever the unit is. */
  lemma SameLevelAnyUnit(a: seq<string>, b: seq<string>, lvl: Level, ua: string, ub: string, k: nat, m: nat)
    requires IndentUnit(ua) && IndentUnit(ub)
    requires |a| == |b| && k < |a|
    requires forall j :: 0 <= j < |a| ==> Strip(a[j]) == Strip(b[j])
    requires !Copied(a, k)
    requires a[k] == Repeat(ua, m) + Strip(a[k])
    requires b[k] == Repeat(ub, m) + Strip(b[k])
    ensures var l := CurrentLevel(Sections(a, lvl, ua)[k], ua);
            Sections(a, lvl, ua)[k] == Repeat(ua, l) + Strip(a[k]) &&
            Sections(b, lvl, ub)[k] == Repeat(ub, l) + Strip(b[k]) &&
            m <= l <= m + 1
  {
    SecStateStripped(a, b, lvl, ua, ub, k);
    SecVerbatimFlag(a, lvl, ua, k);
    SecLineAt(a, lvl, ua, k);
    SecLineAt(b, lvl, ub, k);
    StepAnyUnit(Before(a, lvl, ua, k), a[k], b[k], lvl, ua, ub, m);
  }

  /** No line of the document starts with `cmd`. */
  predicate Absent(lines: seq<string>, cmd: string) {
    forall k :: 0 <= k < |lines| ==> !StartsWith(Strip(lines[k]), cmd)
  }

  /** A pass whose command never occurs is never in scope, so it leaves
      every line that already sits at a whole number of units as it is. */
  lemma NoCommandKeepsLine(lines: seq<string>, lvl: Level, unit: string, i: nat, n: nat)
    requires IndentUnit(unit)
    requires i < |lines|
    requires Absent(lines, lvl.command)
    requires !Copied(lines, i) ==> lines[i] == Repeat(unit, n) + Strip(lines[i])
    ensures Sections(lines, lvl, unit)[i] == lines[i]
  {
    InSectionIff(lines, lvl, unit, i);
    SecLineShape(lines, lvl, unit, i);
    if !Copied(lines, i) {
      LevelOfIndented(unit, n, lines[i]);
    }
  }

  /** The first line of a document is read at its measured level and, the
      scope being closed, written back at that level. */
  lemma FirstLine(line: string, lvl: Level, unit: string)
    ensures Sections([line], lvl, unit)[0] == Repeat(unit, CurrentLevel(line, unit)) + Strip(line)
  {
    var lines := [line];
    assert lines[..0] == [];
    assert !Copied(lines, 0);
    SecLineShape(lines, lvl, unit, 0);
  }

  /** With a whitespace unit that is not made of spaces and tabs, the level
      written by the unit is not the level measured: a line indented by one
      no-break-space unit is read at level 0 and rewritten without its
      indentation, where the same line indented by a one-space unit is kept. */
  lemma NoBreakSpaceUnitDropped(lvl: Level)
    ensures Sections([[0xA0 as char, 'x']], lvl, [0xA0 as char])[0] == "x"
    ensures Sections([" x"], lvl, " ")[0] == " x"
  {
    var a := [0xA0 as char, 'x'];
    assert a[1..] == "x" && (" x")[1..] == "x";
    assert LStrip("x") == "x" && RStrip("x") == "x";
    assert Strip(a) == "x" && Strip(" x") == "x";
    assert LeadingIn(a, IndentChars) == 0;
    assert LeadingIn(" x", IndentChars) == 1 by {
      assert LeadingIn("x", IndentChars) == 0;
    }
    FirstLine(a, lvl, [0xA0 as char]);
    FirstLine(" x", lvl, " ");
  }
}

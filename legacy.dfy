/** The earlier formatter in texformatter.py at the repository root: the same
    three functions with the indentation hard-wired to four spaces, no
    verbatim handling in either pass, and a section pass that measures a
    line's indentation in leading spaces only and adds four of them. */
module LegacyFormatter {
  import opened PyStrings
  import opened Markup
  import Env = EnvironmentPass
  import Sec = SectionPass
  import Tex = TexFormatter

  /** The one indentation unit of this variant. */
  const Four := "    "

  /** The characters `line.lstrip(" ")` removes. */
  const Spaces: set<char> := {' '}

  /** What one line of the environment loop produces: the stack for the next
      line and the output line. */
  datatype EnvEmit = EnvEmit(next: seq<string>, line: string)

  /** The stack after a `\end{` line pops it, the pop skipped when empty. */
  function Popped(stack: seq<string>, stripped: string): seq<string> {
    if StartsWith(stripped, EndPrefix) && |stack| > 0 then stack[..|stack| - 1] else stack
  }

  /** One iteration of the loop in `indent_environments`. */
  function EnvStep(stack: seq<string>, line: string): EnvEmit {
    var stripped := Strip(line);
    var popped := Popped(stack, stripped);
    var out := Repeat(Four, |popped|) + stripped;
    match BeginName(stripped)
    case Some(name) => EnvEmit(popped + [name], out)
    case None => EnvEmit(popped, out)
  }

  /** The stack after a prefix of the lines, and the lines emitted so far. */
  datatype EnvRunResult = EnvRunResult(stack: seq<string>, lines: seq<string>)

  function EnvRun(lines: seq<string>): (r: EnvRunResult)
    ensures |r.lines| == |lines|
  {
    if lines == [] then EnvRunResult([], [])
    else
      var prev := EnvRun(lines[..|lines| - 1]);
      var e := EnvStep(prev.stack, lines[|lines| - 1]);
      EnvRunResult(e.next, prev.lines + [e.line])
  }

  /** The result of `indent_environments(lines)`. */
  function Environments(lines: seq<string>): seq<string> {
    EnvRun(lines).lines
  }

  /** The stack with which line `i` is processed. */
  function EnvBefore(lines: seq<string>, i: nat): seq<string>
    requires i <= |lines|
  {
    EnvRun(lines[..i]).stack
  }

  /** `indent_environments` as written: pop on `\end{`, append the line at
      the stack's depth, push on a `\begin{name}` match. */
  method IndentEnvironments(lines: seq<string>) returns (newLines: seq<string>)
    ensures newLines == Environments(lines)
    ensures |newLines| == |lines|
  {
    var envStack: seq<string> := [];
    newLines := [];
    var i := 0;
    while i < |lines|
      invariant i <= |lines|
      invariant EnvRun(lines[..i]) == EnvRunResult(envStack, newLines)
    {
      assert lines[..i + 1][..i] == lines[..i];
      var stripped := Strip(lines[i]);
      if StartsWith(stripped, EndPrefix) && |envStack| > 0 {
        envStack := envStack[..|envStack| - 1];
      }
      newLines := newLines + [Repeat(Four, |envStack|) + stripped];
      if StartsWith(stripped, BeginPrefix) {
        var m := BeginName(stripped);
        if m.Some? {
          envStack := envStack + [m.value];
        }
      }
      i := i + 1;
    }
    assert lines[..i] == lines;
  }

  lemma {:induction false} EnvRunPrefix(lines: seq<string>, j: nat)
    requires j <= |lines|
    ensures EnvRun(lines[..j]).lines == Environments(lines)[..j]
    decreases |lines|
  {
    if j < |lines| {
      var init := lines[..|lines| - 1];
      EnvRunPrefix(init, j);
      assert init[..j] == lines[..j];
    } else {
      assert lines[..j] == lines;
    }
  }

  /** Output line `i` is what one step produces from the stack left by the
      lines before it, and that step yields the stack for line `i + 1`. */
  lemma EnvLineAt(lines: seq<string>, i: nat)
    requires i < |lines|
    ensures Environments(lines)[i] == EnvStep(EnvBefore(lines, i), lines[i]).line
    ensures EnvBefore(lines, i + 1) == EnvStep(EnvBefore(lines, i), lines[i]).next
  {
    var upTo := lines[..i + 1];
    EnvRunPrefix(lines, i + 1);
    assert upTo[..i] == lines[..i] && upTo[i] == lines[i];
    var prev := EnvRun(lines[..i]);
    var e := EnvStep(prev.stack, lines[i]);
    assert EnvRun(upTo) == EnvRunResult(e.next, prev.lines + [e.line]);
    assert Environments(lines)[i] == EnvRun(upTo).lines[i];
  }

  /** Every output line is four spaces per environment left open after the
      guarded pop, then the stripped line; the stack grows by one exactly
      when the line opens an environment. Nothing is special for verbatim. */
  lemma EnvLineShape(lines: seq<string>, i: nat)
    requires i < |lines|
    ensures var s := Strip(lines[i]);
            var popped := Popped(EnvBefore(lines, i), s);
            Environments(lines)[i] == Repeat(Four, |popped|) + s &&
            EnvBefore(lines, i + 1) == popped + (if BeginName(s).Some? then [BeginName(s).value] else [])
  {
    EnvLineAt(lines, i);
  }

  /** What one line of the section loop produces: the in-section flag for
      the next line and the output line. */
  datatype SecEmit = SecEmit(next: bool, line: string)

  /** One iteration of the loop in `indent_section_level`: the line keeps its
      leading-space count, plus four spaces inside the scope. */
  function SecStep(inSection: bool, line: string, lvl: Sec.Level): SecEmit {
    var stripped := Strip(line);
    var current := LeadingIn(line, Spaces);
    if StartsWith(stripped, lvl.command) then SecEmit(true, Repeat(" ", current) + stripped)
    else if inSection then
      if Sec.IsExit(stripped, lvl.exitCommands) then SecEmit(false, Repeat(" ", current) + stripped)
      else SecEmit(true, Repeat(" ", current + 4) + stripped)
    else SecEmit(false, Repeat(" ", current) + stripped)
  }

  datatype SecRunResult = SecRunResult(inSection: bool, lines: seq<string>)

  function SecRun(lines: seq<string>, lvl: Sec.Level): (r: SecRunResult)
    ensures |r.lines| == |lines|
  {
    if lines == [] then SecRunResult(false, [])
    else
      var prev := SecRun(lines[..|lines| - 1], lvl);
      var e := SecStep(prev.inSection, lines[|lines| - 1], lvl);
      SecRunResult(e.next, prev.lines + [e.line])
  }

  /** The result of `indent_section_level(lines, command, exit_commands)`. */
  function Sections(lines: seq<string>, lvl: Sec.Level): seq<string> {
    SecRun(lines, lvl).lines
  }

  /** The in-section flag with which line `i` is processed. */
  function SecBefore(lines: seq<string>, lvl: Sec.Level, i: nat): bool
    requires i <= |lines|
  {
    SecRun(lines[..i], lvl).inSection
  }

  /** `indent_section_level` as written. */
  method IndentSectionLevel(lines: seq<string>, command: string, exitCommands: seq<string>)
    returns (newLines: seq<string>)
    ensures newLines == Sections(lines, Sec.Level(command, exitCommands))
    ensures |newLines| == |lines|
  {
    ghost var lvl := Sec.Level(command, exitCommands);
    var inSection := false;
    newLines := [];
    var i := 0;
    while i < |lines|
      invariant i <= |lines|
      invariant SecRun(lines[..i], lvl) == SecRunResult(inSection, newLines)
    {
      assert lines[..i + 1][..i] == lines[..i];
      var line := lines[i];
      ghost var e := SecStep(inSection, line, lvl);
      ghost var done := newLines;
      assert SecRun(lines[..i + 1], lvl) == SecRunResult(e.next, done + [e.line]);
      var stripped := Strip(line);
      var currentIndent := LeadingIn(line, Spaces);
      var newIndent;
      if StartsWith(stripped, command) {
        newIndent := currentIndent;
        inSection := true;
      } else if inSection {
        var exits := Sec.StartsWithAny(stripped, exitCommands);
        if exits || stripped == EndDocument {
          newIndent := currentIndent;
          inSection := false;
        } else {
          newIndent := currentIndent + 4;
        }
      } else {
        newIndent := currentIndent;
      }
      newLines := newLines + [Repeat(" ", newIndent) + stripped];
      assert e == SecEmit(inSection, Repeat(" ", newIndent) + stripped);
      i := i + 1;
    }
    assert lines[..i] == lines;
  }

  lemma {:induction false} SecRunPrefix(lines: seq<string>, lvl: Sec.Level, j: nat)
    requires j <= |lines|
    ensures SecRun(lines[..j], lvl).lines == Sections(lines, lvl)[..j]
    decreases |lines|
  {
    if j < |lines| {
      var init := lines[..|lines| - 1];
      SecRunPrefix(init, lvl, j);
      assert init[..j] == lines[..j];
    } else {
      assert lines[..j] == lines;
    }
  }

  /** Output line `i` is what one step produces from the flag left by the
      lines before it, and that step yields the flag for line `i + 1`. */
  lemma SecLineAt(lines: seq<string>, lvl: Sec.Level, i: nat)
    requires i < |lines|
    ensures Sections(lines, lvl)[i] == SecStep(SecBefore(lines, lvl, i), lines[i], lvl).line
    ensures SecBefore(lines, lvl, i + 1) == SecStep(SecBefore(lines, lvl, i), lines[i], lvl).next
  {
    var upTo := lines[..i + 1];
    SecRunPrefix(lines, lvl, i + 1);
    assert upTo[..i] == lines[..i] && upTo[i] == lines[i];
    var prev := SecRun(lines[..i], lvl);
    var e := SecStep(prev.inSection, lines[i], lvl);
    assert SecRun(upTo, lvl) == SecRunResult(e.next, prev.lines + [e.line]);
    assert Sections(lines, lvl)[i] == SecRun(upTo, lvl).lines[i];
  }

  /** The +4 rule: every output line is its leading-space count, plus four
      inside the scope unless the line starts or ends a scope, in spaces,
      then the stripped line. The flag is on after a command line, off after
      a line that ends the scope, and otherwise unchanged. */
  lemma SecLineShape(lines: seq<string>, lvl: Sec.Level, i: nat)
    requires i < |lines|
    ensures var inSection := SecBefore(lines, lvl, i);
            var s := Strip(lines[i]);
            Sections(lines, lvl)[i] ==
              Repeat(" ", LeadingIn(lines[i], Spaces) + (if Sec.Deeper(inSection, s, lvl) then 4 else 0)) + s &&
            SecBefore(lines, lvl, i + 1) == (StartsWith(s, lvl.command) || (inSection && !Sec.IsExit(s, lvl.exitCommands)))
  {
    SecLineAt(lines, lvl, i);
  }

  /** Leading tabs are not counted: a line that starts with a tab, and that
      the pass does not indent further, comes out as its stripped text. */
  lemma TabIndentDropped(lines: seq<string>, lvl: Sec.Level, i: nat)
    requires i < |lines|
    requires |lines[i]| > 0 && lines[i][0] == '\t'
    requires !Sec.Deeper(SecBefore(lines, lvl, i), Strip(lines[i]), lvl)
    ensures Sections(lines, lvl)[i] == Strip(lines[i])
  {
    SecLineShape(lines, lvl, i);
  }

  /** The section passes of `levels`, applied in order. */
  function ApplyLevels(lines: seq<string>, levels: seq<Sec.Level>): (r: seq<string>)
    ensures |r| == |lines|
  {
    if levels == [] then lines
    else Sections(ApplyLevels(lines, levels[..|levels| - 1]), levels[|levels| - 1])
  }

  /** One more level is one more pass over the previous output. */
  lemma ApplyLevelsStep(lines: seq<string>, levels: seq<Sec.Level>, k: nat)
    requires k < |levels|
    ensures ApplyLevels(lines, levels[..k + 1]) == Sections(ApplyLevels(lines, levels[..k]), levels[k])
  {
    assert levels[..k + 1][..k] == levels[..k];
  }

  /** The lines `indent_latex` joins; the four levels and their exit sets are
      the same as in the current formatter. */
  function FormatLines(lines: seq<string>): (r: seq<string>)
    ensures |r| == |lines|
  {
    ApplyLevels(Environments(lines), Tex.SectionLevels)
  }

  /** The text `indent_latex(code)` returns. */
  function Format(code: string): string {
    Join(FormatLines(Split(code, '\n')), '\n')
  }

  /** `indent_latex` as written. */
  method IndentLatex(code: string) returns (formatted: string)
    ensures formatted == Format(code)
  {
    var lines := Split(code, '\n');
    ghost var envLines := Environments(lines);
    lines := IndentEnvironments(lines);
    var k := 0;
    while k < |Tex.SectionLevels|
      invariant k <= |Tex.SectionLevels|
      invariant lines == ApplyLevels(envLines, Tex.SectionLevels[..k])
    {
      var level := Tex.SectionLevels[k];
      ApplyLevelsStep(envLines, Tex.SectionLevels, k);
      lines := IndentSectionLevel(lines, level.command, level.exitCommands);
      k := k + 1;
    }
    assert Tex.SectionLevels[..k] == Tex.SectionLevels;
    formatted := Join(lines, '\n');
  }

  lemma {:induction false} LevelsKeepCharOut(lines: seq<string>, levels: seq<Sec.Level>, c: char)
    requires c != ' '
    requires forall k :: 0 <= k < |lines| ==> c !in lines[k]
    ensures forall k :: 0 <= k < |lines| ==> c !in ApplyLevels(lines, levels)[k]
    decreases |levels|
  {
    if levels != [] {
      var prev := ApplyLevels(lines, levels[..|levels| - 1]);
      LevelsKeepCharOut(lines, levels[..|levels| - 1], c);
      forall k | 0 <= k < |lines|
        ensures c !in ApplyLevels(lines, levels)[k]
      {
        SecLineShape(prev, levels[|levels| - 1], k);
        StripKeepsCharOut(prev[k], c);
      }
    }
  }

  /** No formatted line holds a newline when no input line does. */
  lemma FormatLinesNoNewline(lines: seq<string>)
    requires forall k :: 0 <= k < |lines| ==> '\n' !in lines[k]
    ensures forall k :: 0 <= k < |lines| ==> '\n' !in FormatLines(lines)[k]
  {
    forall k | 0 <= k < |lines|
      ensures '\n' !in Environments(lines)[k]
    {
      EnvLineShape(lines, k);
      StripKeepsCharOut(lines[k], '\n');
    }
    LevelsKeepCharOut(Environments(lines), Tex.SectionLevels, '\n');
  }

  /** The formatted text has exactly as many lines as the input. */
  lemma LineCountPreserved(code: string)
    ensures |Split(Format(code), '\n')| == |Split(code, '\n')|
    ensures Count(Format(code), '\n') == Count(code, '\n')
  {
    var lines := Split(code, '\n');
    FormatLinesNoNewline(lines);
    SplitJoin(FormatLines(lines), '\n');
    SplitCount(Format(code), '\n');
    SplitCount(code, '\n');
  }

  /** No line starts `\begin{verbatim}`: the only documents on which the
      two formatters can agree. */
  predicate NoVerbatim(lines: seq<string>) {
    forall k :: 0 <= k < |lines| ==> !StartsWith(Strip(lines[k]), BeginVerbatim)
  }

  lemma {:induction false} NoVerbatimNeverInside(lines: seq<string>)
    requires NoVerbatim(lines)
    ensures !VerbatimAfter(lines)
    decreases |lines|
  {
    if lines != [] {
      NoVerbatimNeverInside(lines[..|lines| - 1]);
    }
  }

  /** Without `\begin{verbatim}` lines the current environment pass, run with
      four spaces, keeps the same stack and emits the same lines. */
  lemma {:induction false} EnvRunAgrees(lines: seq<string>)
    requires NoVerbatim(lines)
    ensures Env.EnvRun(lines, Four) == Env.Run(Env.EnvState(EnvRun(lines).stack, false), EnvRun(lines).lines)
    decreases |lines|
  {
    if lines != [] {
      var init := lines[..|lines| - 1];
      EnvRunAgrees(init);
      OpensVerbatim(Strip(lines[|lines| - 1]));
    }
  }

  lemma EnvAgrees(lines: seq<string>)
    requires NoVerbatim(lines)
    ensures Environments(lines) == Env.Environments(lines, Four)
  {
    EnvRunAgrees(lines);
  }

  /** Every line sits at a whole number of four-space units before its
      stripped text. */
  predicate Aligned(lines: seq<string>) {
    forall k :: 0 <= k < |lines| ==> lines[k] == Repeat(Four, Sec.CurrentLevel(lines[k], Four)) + Strip(lines[k])
  }

  /** On an aligned line, counting leading spaces and adding four is counting
      units and adding one. */
  lemma SecStepAgrees(inSection: bool, line: string, lvl: Sec.Level)
    requires line == Repeat(Four, Sec.CurrentLevel(line, Four)) + Strip(line)
    requires !StartsWith(Strip(line), BeginVerbatim)
    ensures var e := SecStep(inSection, line, lvl);
            Sec.SecStep(Sec.SecState(inSection, false), line, lvl, Four) == Sec.Emit(Sec.SecState(e.next, false), e.line)
  {
    var m := Sec.CurrentLevel(line, Four);
    var t := Strip(line);
    StripShape(line);
    RepeatFourSpaces(m);
    RepeatFourSpaces(m + 1);
    MeasureIndented(" ", 4 * m, t, Spaces);
  }

  lemma {:induction false} SecRunAgrees(lines: seq<string>, lvl: Sec.Level)
    requires NoVerbatim(lines) && Aligned(lines)
    ensures Sec.SecRun(lines, lvl, Four) == Sec.Run(Sec.SecState(SecRun(lines, lvl).inSection, false), SecRun(lines, lvl).lines)
    decreases |lines|
  {
    if lines != [] {
      var init := lines[..|lines| - 1];
      SecRunAgrees(init, lvl);
      SecStepAgrees(SecRun(init, lvl).inSection, lines[|lines| - 1], lvl);
    }
  }

  /** On aligned lines without `\begin{verbatim}`, the four-space section
      pass is the current section pass run with four spaces. */
  lemma SectionsAgree(lines: seq<string>, lvl: Sec.Level)
    requires NoVerbatim(lines) && Aligned(lines)
    ensures Sections(lines, lvl) == Sec.Sections(lines, lvl, Four)
  {
    SecRunAgrees(lines, lvl);
  }

  /** The current section pass keeps lines without verbatim aligned. */
  lemma SectionsKeepAligned(lines: seq<string>, lvl: Sec.Level)
    requires NoVerbatim(lines) && Aligned(lines)
    ensures NoVerbatim(Sec.Sections(lines, lvl, Four)) && Aligned(Sec.Sections(lines, lvl, Four))
  {
    var out := Sec.Sections(lines, lvl, Four);
    forall k | 0 <= k < |lines|
      ensures !StartsWith(Strip(out[k]), BeginVerbatim)
      ensures out[k] == Repeat(Four, Sec.CurrentLevel(out[k], Four)) + Strip(out[k])
    {
      NoVerbatimNeverInside(lines[..k]);
      Sec.SecKeepsStripped(lines, lvl, Four, k);
      Sec.AtMostOneUnitDeeper(lines, lvl, Four, k);
    }
  }

  lemma {:induction false} LevelsAgree(lines: seq<string>, levels: seq<Sec.Level>)
    requires NoVerbatim(lines) && Aligned(lines)
    ensures ApplyLevels(lines, levels) == Tex.ApplyLevels(lines, levels, Four)
    ensures NoVerbatim(ApplyLevels(lines, levels)) && Aligned(ApplyLevels(lines, levels))
    decreases |levels|
  {
    if levels != [] {
      var init := levels[..|levels| - 1];
      LevelsAgree(lines, init);
      var prev := ApplyLevels(lines, init);
      SectionsAgree(prev, levels[|levels| - 1]);
      SectionsKeepAligned(prev, levels[|levels| - 1]);
    }
  }

  /** On lines without `\begin{verbatim}`, this formatter and the current one
      run with four spaces produce the same lines. */
  lemma FormatLinesAgree(lines: seq<string>)
    requires NoVerbatim(lines)
    ensures FormatLines(lines) == Tex.FormatLines(lines, Four)
  {
    EnvAgrees(lines);
    NoVerbatimNeverInside(lines);
    var envLines := Environments(lines);
    forall k | 0 <= k < |lines|
      ensures !StartsWith(Strip(envLines[k]), BeginVerbatim)
      ensures envLines[k] == Repeat(Four, Sec.CurrentLevel(envLines[k], Four)) + Strip(envLines[k])
    {
      EnvLineShape(lines, k);
      Env.EnvKeepsStripped(lines, Four, k);
      var d := |Popped(EnvBefore(lines, k), Strip(lines[k]))|;
      Sec.LevelOfIndented(Four, d, lines[k]);
    }
    LevelsAgree(envLines, Tex.SectionLevels);
  }

  /** On a document without `\begin{verbatim}` lines, this formatter and the
      current one run with four spaces, which is its default unit, produce
      the same text. */
  lemma FormatAgrees(code: string)
    requires NoVerbatim(Split(code, '\n'))
    ensures Format(code) == Tex.Format(code, Four)
    ensures Format(code) == Tex.Format(code)
  {
    FormatLinesAgree(Split(code, '\n'));
  }

  /** The environment pass reads only the stripped lines: two documents that
      agree once stripped reach the same stack and emit the same lines. */
  lemma {:induction false} EnvRunStripped(a: seq<string>, b: seq<string>)
    requires |a| == |b|
    requires forall k :: 0 <= k < |a| ==> Strip(a[k]) == Strip(b[k])
    ensures EnvRun(a) == EnvRun(b)
    decreases |a|
  {
    if a != [] {
      EnvRunStripped(a[..|a| - 1], b[..|b| - 1]);
    }
  }

  /** The section passes keep every line's stripped form. */
  lemma {:induction false} LevelsKeepStripped(lines: seq<string>, levels: seq<Sec.Level>)
    ensures forall k :: 0 <= k < |lines| ==> Strip(ApplyLevels(lines, levels)[k]) == Strip(lines[k])
    decreases |levels|
  {
    if levels != [] {
      var prev := ApplyLevels(lines, levels[..|levels| - 1]);
      var lvl := levels[|levels| - 1];
      LevelsKeepStripped(lines, levels[..|levels| - 1]);
      forall k | 0 <= k < |lines|
        ensures Strip(ApplyLevels(lines, levels)[k]) == Strip(lines[k])
      {
        SecLineShape(prev, lvl, k);
        var n := LeadingIn(prev[k], Spaces) + (if Sec.Deeper(SecBefore(prev, lvl, k), Strip(prev[k]), lvl) then 4 else 0);
        assert AllSpace(" ");
        StripIndented(" ", n, prev[k]);
      }
    }
  }

  /** Formatting formatted lines again changes nothing, on every document:
      the formatted lines strip to the input's stripped lines, from which
      the environment pass rebuilds its first output. */
  lemma FormatIdempotent(lines: seq<string>)
    ensures FormatLines(FormatLines(lines)) == FormatLines(lines)
  {
    var envLines := Environments(lines);
    forall k | 0 <= k < |lines|
      ensures Strip(envLines[k]) == Strip(lines[k])
    {
      EnvLineShape(lines, k);
      assert AllSpace(Four);
      StripIndented(Four, |Popped(EnvBefore(lines, k), Strip(lines[k]))|, lines[k]);
    }
    LevelsKeepStripped(envLines, Tex.SectionLevels);
    EnvRunStripped(FormatLines(lines), lines);
  }

  /** `indent_latex` run again on its own output text returns that text
      unchanged. */
  lemma FormatTextIdempotent(code: string)
    ensures Format(Format(code)) == Format(code)
  {
    var lines := Split(code, '\n');
    FormatLinesNoNewline(lines);
    SplitJoin(FormatLines(lines), '\n');
    FormatIdempotent(lines);
  }
}

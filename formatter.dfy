/** The orchestrator, `indent_latex` in src/texformatter.py: split the text
    on newlines, run the environment pass once, run the section pass for
    `\chapter`, `\section`, `\subsection` and `\subsubsection` in that order,
    and join the lines again. */
module TexFormatter {
  import opened PyStrings
  import opened Markup
  import Env = EnvironmentPass
  import Sec = SectionPass

  const Chapter := "\\chapter"
  const Section := "\\section"
  const Subsection := "\\subsection"
  const Subsubsection := "\\subsubsection"

  /** The four section passes, in their fixed order, each with the commands
      that end its scope; every level ends at its own command, so siblings do
      not nest. */
  const SectionLevels: seq<Sec.Level> := [
    Sec.Level(Chapter, [Chapter, Section]),
    Sec.Level(Section, [Chapter, Section]),
    Sec.Level(Subsection, [Chapter, Section, Subsection]),
    Sec.Level(Subsubsection, [Chapter, Section, Subsection, Subsubsection])
  ]

  /** The scopes nest: each level's scope is ended by its own command and by
      every shallower one, and the only deeper command that ends a scope is
      `\section`, which ends a chapter's. */
  lemma LevelsNest()
    ensures |SectionLevels| == 4
    ensures forall k, m :: 0 <= m <= k < |SectionLevels| ==>
              SectionLevels[m].command in SectionLevels[k].exitCommands
    ensures forall k, m :: 0 <= k < m < |SectionLevels| ==>
              (SectionLevels[m].command in SectionLevels[k].exitCommands <==> k == 0 && m == 1)
  {
  }

  /** The lines after the section passes of `levels`, applied in order, each
      to the previous one's output. */
  function ApplyLevels(lines: seq<string>, levels: seq<Sec.Level>, unit: string): (r: seq<string>)
    ensures |r| == |lines|
  {
    if levels == [] then lines
    else Sec.Sections(ApplyLevels(lines, levels[..|levels| - 1], unit), levels[|levels| - 1], unit)
  }

  /** One more level is one more pass over the previous output. */
  lemma ApplyLevelsStep(lines: seq<string>, levels: seq<Sec.Level>, unit: string, k: nat)
    requires k < |levels|
    ensures ApplyLevels(lines, levels[..k + 1], unit) == Sec.Sections(ApplyLevels(lines, levels[..k], unit), levels[k], unit)
  {
    assert levels[..k + 1][..k] == levels[..k];
  }

  /** The lines `indent_latex` joins. */
  function FormatLines(lines: seq<string>, unit: string): (r: seq<string>)
    ensures |r| == |lines|
  {
    ApplyLevels(Env.Environments(lines, unit), SectionLevels, unit)
  }

  /** The text `indent_latex(code, unit)` returns. */
  function Format(code: string, unit: string := DefaultUnit): string {
    Join(FormatLines(Split(code, '\n'), unit), '\n')
  }

  /** `indent_latex` as written: the lines are reassigned by each pass in
      turn, in a loop over the section levels. */
  method IndentLatex(code: string, unit: string := DefaultUnit) returns (formatted: string)
    ensures formatted == Format(code, unit)
  {
    var lines := Split(code, '\n');
    ghost var envLines := Env.Environments(lines, unit);
    lines := Env.IndentEnvironments(lines, unit);
    var k := 0;
    while k < |SectionLevels|
      invariant k <= |SectionLevels|
      invariant lines == ApplyLevels(envLines, SectionLevels[..k], unit)
    {
      var level := SectionLevels[k];
      ApplyLevelsStep(envLines, SectionLevels, unit, k);
      lines := Sec.IndentSectionLevel(lines, level.command, level.exitCommands, unit);
      k := k + 1;
    }
    assert SectionLevels[..k] == SectionLevels;
    formatted := Join(lines, '\n');
  }

  /** Every pass keeps a character out of the lines when the unit does not
      hold it. */
  lemma {:induction false} LevelsKeepCharOut(lines: seq<string>, levels: seq<Sec.Level>, unit: string, c: char)
    requires c !in unit
    requires forall k :: 0 <= k < |lines| ==> c !in lines[k]
    ensures forall k :: 0 <= k < |lines| ==> c !in ApplyLevels(lines, levels, unit)[k]
    decreases |levels|
  {
    if levels != [] {
      var prev := ApplyLevels(lines, levels[..|levels| - 1], unit);
      LevelsKeepCharOut(lines, levels[..|levels| - 1], unit, c);
      forall k | 0 <= k < |lines|
        ensures c !in ApplyLevels(lines, levels, unit)[k]
      {
        var lvl := levels[|levels| - 1];
        Sec.SecLineShape(prev, lvl, unit, k);
        StripKeepsCharOut(prev[k], c);
      }
    }
  }

  lemma EnvKeepsCharOut(lines: seq<string>, unit: string, c: char)
    requires c !in unit
    requires forall k :: 0 <= k < |lines| ==> c !in lines[k]
    ensures forall k :: 0 <= k < |lines| ==> c !in Env.Environments(lines, unit)[k]
  {
    forall k | 0 <= k < |lines|
      ensures c !in Env.Environments(lines, unit)[k]
    {
      Env.EnvLineShape(lines, unit, k);
      StripKeepsCharOut(lines[k], c);
    }
  }

  /** No formatted line holds a newline when neither the lines nor the unit
      do. */
  lemma FormatLinesNoNewline(lines: seq<string>, unit: string)
    requires '\n' !in unit
    requires forall k :: 0 <= k < |lines| ==> '\n' !in lines[k]
    ensures forall k :: 0 <= k < |lines| ==> '\n' !in FormatLines(lines, unit)[k]
  {
    EnvKeepsCharOut(lines, unit, '\n');
    LevelsKeepCharOut(Env.Environments(lines, unit), SectionLevels, unit, '\n');
  }

  /** The formatted text has exactly as many lines as the input, provided the
      unit itself holds no newline. */
  lemma LineCountPreserved(code: string, unit: string)
    requires '\n' !in unit
    ensures |Split(Format(code, unit), '\n')| == |Split(code, '\n')|
    ensures Count(Format(code, unit), '\n') == Count(code, '\n')
  {
    var lines := Split(code, '\n');
    FormatLinesNoNewline(lines, unit);
    SplitJoin(FormatLines(lines, unit), '\n');
    SplitCount(Format(code, unit), '\n');
    SplitCount(code, '\n');
  }

  /** With a whitespace unit, the section passes keep every line's stripped
      form and copy the lines inside verbatim blocks byte for byte. */
  lemma {:induction false} LevelsKeepText(lines: seq<string>, levels: seq<Sec.Level>, unit: string)
    requires AllSpace(unit)
    ensures forall k :: 0 <= k < |lines| ==> Strip(ApplyLevels(lines, levels, unit)[k]) == Strip(lines[k])
    ensures forall k :: 0 <= k < |lines| && Sec.Copied(lines, k) ==> ApplyLevels(lines, levels, unit)[k] == lines[k]
    decreases |levels|
  {
    if levels != [] {
      var prev := ApplyLevels(lines, levels[..|levels| - 1], unit);
      var lvl := levels[|levels| - 1];
      LevelsKeepText(lines, levels[..|levels| - 1], unit);
      forall k | 0 <= k < |lines|
        ensures Strip(ApplyLevels(lines, levels, unit)[k]) == Strip(lines[k])
        ensures Sec.Copied(lines, k) ==> ApplyLevels(lines, levels, unit)[k] == lines[k]
      {
        Sec.SecKeepsStripped(prev, lvl, unit, k);
        Sec.CopiedStripped(prev, lines, k);
        Sec.SecLineShape(prev, lvl, unit, k);
      }
    }
  }

  /** With a unit of spaces and tabs, a line the section passes do not copy
      and that already reads as `n` units before its stripped text comes out
      as between `n` and `n + |levels|` units before the same text. */
  lemma {:induction false} LevelsAddAtMostOneEach(lines: seq<string>, levels: seq<Sec.Level>, unit: string, k: nat, n: nat)
    requires Sec.IndentUnit(unit)
    requires k < |lines|
    requires !Sec.Copied(lines, k)
    requires lines[k] == Repeat(unit, n) + Strip(lines[k])
    ensures var out := ApplyLevels(lines, levels, unit)[k];
            out == Repeat(unit, Sec.CurrentLevel(out, unit)) + Strip(lines[k]) &&
            n <= Sec.CurrentLevel(out, unit) <= n + |levels|
    decreases |levels|
  {
    Sec.IndentUnitIsSpace(unit);
    if levels == [] {
      Sec.LevelOfIndented(unit, n, lines[k]);
    } else {
      var prev := ApplyLevels(lines, levels[..|levels| - 1], unit);
      LevelsAddAtMostOneEach(lines, levels[..|levels| - 1], unit, k, n);
      LevelsKeepText(lines, levels[..|levels| - 1], unit);
      Sec.CopiedStripped(prev, lines, k);
      Sec.AtMostOneUnitDeeper(prev, levels[|levels| - 1], unit, k);
    }
  }

  /** Verbatim survives the whole pipeline: with a whitespace unit, a line
      strictly inside a verbatim block comes out byte-identical, unless the
      line itself starts with `\begin{verbatim}` (the section passes treat
      such a line as a block boundary and re-indent it). */
  lemma VerbatimKept(lines: seq<string>, unit: string, i: nat)
    requires AllSpace(unit)
    requires i < |lines|
    requires InsideVerbatim(lines, i)
    requires !StartsWith(Strip(lines[i]), BeginVerbatim)
    ensures FormatLines(lines, unit)[i] == lines[i]
  {
    var envLines := Env.Environments(lines, unit);
    forall k | 0 <= k < |lines|
      ensures Strip(envLines[k]) == Strip(lines[k])
    {
      Env.EnvKeepsStripped(lines, unit, k);
    }
    Sec.CopiedStripped(envLines, lines, i);
    Env.EnvKeepsVerbatim(lines, unit, i);
    LevelsKeepText(envLines, SectionLevels, unit);
  }

  /** The final indentation of every line outside verbatim blocks: with a
      unit of spaces and tabs, the line is its stripped text behind a whole
      number of units, at least the environment depth and at most four more
      (one per section level). */
  lemma {:induction false} IndentationBounded(lines: seq<string>, unit: string, i: nat)
    requires Sec.IndentUnit(unit)
    requires i < |lines|
    requires !InsideVerbatim(lines, i)
    ensures var out := FormatLines(lines, unit)[i];
            var d := Env.Depth(Env.Before(lines, unit, i), Strip(lines[i]));
            out == Repeat(unit, Sec.CurrentLevel(out, unit)) + Strip(lines[i]) &&
            d <= Sec.CurrentLevel(out, unit) <= d + 4
  {
    Sec.IndentUnitIsSpace(unit);
    var envLines := Env.Environments(lines, unit);
    forall k | 0 <= k < |lines|
      ensures Strip(envLines[k]) == Strip(lines[k])
    {
      Env.EnvKeepsStripped(lines, unit, k);
    }
    Env.EnvVerbatimFlag(lines, unit, i);
    Env.EnvLineShape(lines, unit, i);
    Sec.CopiedStripped(envLines, lines, i);
    var d := Env.Depth(Env.Before(lines, unit, i), Strip(lines[i]));
    LevelsAddAtMostOneEach(envLines, SectionLevels, unit, i, d);
  }

  /** The whole pipeline keeps every line's stripped form. */
  lemma FormatKeepsStripped(lines: seq<string>, unit: string)
    requires AllSpace(unit)
    ensures forall k :: 0 <= k < |lines| ==> Strip(FormatLines(lines, unit)[k]) == Strip(lines[k])
  {
    var envLines := Env.Environments(lines, unit);
    forall k | 0 <= k < |lines|
      ensures Strip(envLines[k]) == Strip(lines[k])
    {
      Env.EnvKeepsStripped(lines, unit, k);
    }
    LevelsKeepText(envLines, SectionLevels, unit);
  }

  /** The section passes add the same number of units to a line of two
      documents that agree once stripped, whatever the two units are. */
  lemma {:induction false} LevelsAnyUnit(a: seq<string>, b: seq<string>, levels: seq<Sec.Level>, ua: string, ub: string, k: nat, n: nat)
    requires Sec.IndentUnit(ua) && Sec.IndentUnit(ub)
    requires |a| == |b| && k < |a|
    requires forall j :: 0 <= j < |a| ==> Strip(a[j]) == Strip(b[j])
    requires !Sec.Copied(a, k)
    requires a[k] == Repeat(ua, n) + Strip(a[k])
    requires b[k] == Repeat(ub, n) + Strip(b[k])
    ensures var l := Sec.CurrentLevel(ApplyLevels(a, levels, ua)[k], ua);
            ApplyLevels(a, levels, ua)[k] == Repeat(ua, l) + Strip(a[k]) &&
            ApplyLevels(b, levels, ub)[k] == Repeat(ub, l) + Strip(b[k])
    decreases |levels|
  {
    Sec.IndentUnitIsSpace(ua);
    Sec.IndentUnitIsSpace(ub);
    if levels == [] {
      Sec.LevelOfIndented(ua, n, a[k]);
    } else {
      var init := levels[..|levels| - 1];
      var pa := ApplyLevels(a, init, ua);
      var pb := ApplyLevels(b, init, ub);
      LevelsAnyUnit(a, b, init, ua, ub, k, n);
      LevelsKeepText(a, init, ua);
      LevelsKeepText(b, init, ub);
      Sec.CopiedStripped(pa, a, k);
      var m := Sec.CurrentLevel(pa[k], ua);
      Sec.SameLevelAnyUnit(pa, pb, levels[|levels| - 1], ua, ub, k, m);
    }
  }

  /** A line outside verbatim blocks comes out at the same level, counted in
      units, in two documents that agree once stripped, whatever units they
      are formatted with. */
  lemma SameLevelOutside(a: seq<string>, b: seq<string>, ua: string, ub: string, i: nat)
    requires Sec.IndentUnit(ua) && Sec.IndentUnit(ub)
    requires |a| == |b| && i < |a|
    requires forall j :: 0 <= j < |a| ==> Strip(a[j]) == Strip(b[j])
    requires !InsideVerbatim(a, i)
    ensures var l := Sec.CurrentLevel(FormatLines(a, ua)[i], ua);
            FormatLines(a, ua)[i] == Repeat(ua, l) + Strip(a[i]) &&
            FormatLines(b, ub)[i] == Repeat(ub, l) + Strip(b[i])
  {
    Sec.IndentUnitIsSpace(ua);
    Sec.IndentUnitIsSpace(ub);
    var ea := Env.Environments(a, ua);
    var eb := Env.Environments(b, ub);
    forall k | 0 <= k < |a|
      ensures Strip(ea[k]) == Strip(a[k]) && Strip(eb[k]) == Strip(b[k])
    {
      Env.EnvKeepsStripped(a, ua, k);
      Env.EnvKeepsStripped(b, ub, k);
    }
    Env.StateStripped(a, b, ua, ub, i);
    Env.EnvVerbatimFlag(a, ua, i);
    Env.EnvVerbatimFlag(b, ub, i);
    VerbatimAfterStripped(a[..i], b[..i]);
    Env.EnvLineShape(a, ua, i);
    Env.EnvLineShape(b, ub, i);
    Sec.CopiedStripped(ea, a, i);
    var d := Env.Depth(Env.Before(a, ua, i), Strip(a[i]));
    LevelsAnyUnit(ea, eb, SectionLevels, ua, ub, i, d);
  }

  /** Formatting with one unit or another gives every line outside verbatim
      blocks the same structural depth: only the unit it is drawn with
      differs. */
  lemma UnitScales(lines: seq<string>, ua: string, ub: string, i: nat)
    requires Sec.IndentUnit(ua) && Sec.IndentUnit(ub)
    requires i < |lines|
    requires !InsideVerbatim(lines, i)
    ensures var l := Sec.CurrentLevel(FormatLines(lines, ua)[i], ua);
            FormatLines(lines, ua)[i] == Repeat(ua, l) + Strip(lines[i]) &&
            FormatLines(lines, ub)[i] == Repeat(ub, l) + Strip(lines[i])
  {
    SameLevelOutside(lines, lines, ua, ub, i);
  }

  /** No line inside a verbatim block starts a nested `\begin{verbatim}`. */
  predicate NoNestedVerbatim(lines: seq<string>) {
    forall k :: 0 <= k < |lines| && InsideVerbatim(lines, k) ==> !StartsWith(Strip(lines[k]), BeginVerbatim)
  }

  /** Formatting formatted text again with the same whitespace unit changes
      nothing, provided no verbatim block holds a line starting
      `\begin{verbatim}` (such a line is copied by the environment pass but
      re-indented by the section passes, so it can drift on every run). The
      environment pass rebuilds every line it does not copy from its stripped
      form, so its output on the formatted lines is its first output again. */
  lemma FormatIdempotent(lines: seq<string>, unit: string)
    requires AllSpace(unit)
    requires NoNestedVerbatim(lines)
    ensures FormatLines(FormatLines(lines, unit), unit) == FormatLines(lines, unit)
  {
    var f := FormatLines(lines, unit);
    FormatKeepsStripped(lines, unit);
    forall k | 0 <= k < |f| && InsideVerbatim(f, k)
      ensures f[k] == lines[k]
    {
      VerbatimAfterStripped(f[..k], lines[..k]);
      VerbatimKept(lines, unit, k);
    }
    Env.EnvStripped(f, lines, unit);
  }

  /** `indent_latex` run again on its own output text, with the same
      whitespace unit holding no newline, returns that text unchanged, under
      the same proviso on verbatim blocks. */
  lemma FormatTextIdempotent(code: string, unit: string)
    requires AllSpace(unit) && '\n' !in unit
    requires NoNestedVerbatim(Split(code, '\n'))
    ensures Format(Format(code, unit), unit) == Format(code, unit)
  {
    var lines := Split(code, '\n');
    var f := FormatLines(lines, unit);
    FormatLinesNoNewline(lines, unit);
    SplitJoin(f, '\n');
    FormatIdempotent(lines, unit);
  }

  /** Without sectioning commands the section passes change nothing. */
  lemma {:induction false} LevelsWithoutCommands(lines: seq<string>, levels: seq<Sec.Level>, unit: string, k: nat, n: nat)
    requires Sec.IndentUnit(unit)
    requires k < |lines|
    requires forall l :: l in levels ==> Sec.Absent(lines, l.command)
    requires !Sec.Copied(lines, k) ==> lines[k] == Repeat(unit, n) + Strip(lines[k])
    ensures ApplyLevels(lines, levels, unit)[k] == lines[k]
    decreases |levels|
  {
    Sec.IndentUnitIsSpace(unit);
    if levels != [] {
      var init := levels[..|levels| - 1];
      var lvl := levels[|levels| - 1];
      var prev := ApplyLevels(lines, init, unit);
      assert forall l :: l in init ==> l in levels;
      LevelsWithoutCommands(lines, init, unit, k, n);
      LevelsKeepText(lines, init, unit);
      Sec.CopiedStripped(prev, lines, k);
      assert Sec.Absent(lines, lvl.command);
      Sec.NoCommandKeepsLine(prev, lvl, unit, k, n);
    }
  }

  /** No line starts with any of the four sectioning commands. */
  predicate NoSectioning(lines: seq<string>) {
    Sec.Absent(lines, Chapter) && Sec.Absent(lines, Section) &&
    Sec.Absent(lines, Subsection) && Sec.Absent(lines, Subsubsection)
  }

  /** In a document without sectioning commands, every line outside verbatim
      blocks is indented by exactly its environment nesting depth. */
  lemma DepthOnlyWithoutSections(lines: seq<string>, unit: string, i: nat)
    requires Sec.IndentUnit(unit)
    requires i < |lines|
    requires NoSectioning(lines)
    requires !InsideVerbatim(lines, i)
    ensures FormatLines(lines, unit)[i] ==
            Repeat(unit, Env.Depth(Env.Before(lines, unit, i), Strip(lines[i]))) + Strip(lines[i])
  {
    Sec.IndentUnitIsSpace(unit);
    var envLines := Env.Environments(lines, unit);
    forall k | 0 <= k < |lines|
      ensures Strip(envLines[k]) == Strip(lines[k])
    {
      Env.EnvKeepsStripped(lines, unit, k);
    }
    Env.EnvVerbatimFlag(lines, unit, i);
    Env.EnvLineShape(lines, unit, i);
    Sec.CopiedStripped(envLines, lines, i);
    forall l | l in SectionLevels
      ensures Sec.Absent(envLines, l.command)
    {
    }
    LevelsWithoutCommands(envLines, SectionLevels, unit, i, Env.Depth(Env.Before(lines, unit, i), Strip(lines[i])));
  }
}

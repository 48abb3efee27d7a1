# TeX-Formatter re-indentation engine, in Dafny

This project models the engine of TeX-Formatter, a LaTeX source re-indenter.
The engine splits the text on newlines and runs two kinds of pass over the lines:

- the **environment pass** (`indent_environments`) re-indents every line by
  the number of `\begin{...}` environments open around it;
- the **section-level pass** (`indent_section_level`) adds one indentation unit
  to every line between a sectioning command and the line that ends its
  scope.

`indent_latex` runs the environment pass once, then the section pass four
times (`\chapter`, `\section`, `\subsection`, `\subsubsection`), and joins
the lines again.

Two versions are modelled:

- `src/texformatter.py`, the current engine. It takes a caller-chosen
  indentation unit and copies the interior lines of `verbatim` blocks
  unchanged.
- `texformatter.py`, the earlier engine at the repository root. Its unit is
  fixed at four spaces, it has no verbatim handling, and its section pass
  counts and adds raw spaces.

Every Python loop is a Dafny `method` with a `while` loop. Each method is
proved equal to a pure specification: a per-line step function folded over
the lines. The properties are proved about those specifications.

Files:

- `strings.dfy` (`PyStrings`): the Python string operations the engine uses.
  These are `str.isspace`, `strip`, `lstrip(chars)`, `startswith`, `str * n`,
  `split("\n")` and `"\n".join`.
- `markup.dfy` (`Markup`): the `\begin{name}` match, the `\end{` and verbatim
  markers, and the document's verbatim flag.
- `environments.dfy` (`EnvironmentPass`), `sections.dfy` (`SectionPass`) and
  `formatter.dfy` (`TexFormatter`): `src/texformatter.py`.
- `legacy.dfy` (`LegacyFormatter`): the root `texformatter.py`, and its
  agreement with the current engine.

The section pass in `src/texformatter.py` tracks verbatim blocks itself
(lines 65-79). Interior lines are copied and never open or close a scope.
The model follows that code. With a whitespace unit, a section pass never
shifts the text of a verbatim block, with the one exception below. With a
unit that is not whitespace, the environment pass's prefix hides the
`\begin{verbatim}` marker from the section passes (see "## Left out").

One consequence is modelled as written. The section pass reopens its
verbatim flag on any line that starts with `\begin{verbatim}`, even one
already inside a verbatim block. So such a nested line is copied by the
environment pass but re-indented by the section passes. `TexFormatter.VerbatimKept`,
`TexFormatter.FormatIdempotent` and `TexFormatter.FormatTextIdempotent` exclude
exactly those lines.

## Model

| member | source | states |
|---|---|---|
| PyStrings.StripShape | src/texformatter.py:19 | `strip()` keeps a middle slice of the line, cut off by whitespace only, with no whitespace at either end |
| PyStrings.IsSpace | src/texformatter.py:19 | the characters `str.isspace` accepts, code point by code point; the whitespace `strip()` removes |
| PyStrings.LStrip | src/texformatter.py:19 | `s.lstrip()`: drops leading whitespace; specified by `PyStrings.LStripShape` |
| PyStrings.LStripShape | src/texformatter.py:19 | `lstrip()` keeps a suffix, drops only whitespace, and leaves no whitespace at the front |
| PyStrings.RStrip | src/texformatter.py:19 | `s.rstrip()`: drops trailing whitespace; specified by `PyStrings.RStripShape` |
| PyStrings.RStripShape | src/texformatter.py:19 | `rstrip()` keeps a prefix, drops only whitespace, and leaves no whitespace at the end |
| PyStrings.Strip | src/texformatter.py:19 | `line.strip()`, as `rstrip` after `lstrip`; specified by `PyStrings.StripShape` |
| PyStrings.StartsWith | src/texformatter.py:22 | `s.startswith(p)`: `p` is a prefix of `s` |
| PyStrings.StripIdempotent | src/texformatter.py:63 | stripping a stripped line changes nothing |
| PyStrings.StripIndented | src/texformatter.py:34 | a whitespace unit repeated in front of a stripped line is removed again by `strip()` |
| PyStrings.LeadingIn | src/texformatter.py:82-83 | `len(line) - len(line.lstrip(cs))` counts exactly the leading run of `cs` characters |
| PyStrings.MeasureIndented | src/texformatter.py:82-89 | indentation written with a unit of `cs` characters, before text that does not start with one of them, measures back to `len(unit) * n` characters |
| PyStrings.Repeat | src/texformatter.py:34 | `unit * n` has length `len(unit) * n` and holds only characters of the unit |
| PyStrings.RepeatFourSpaces | texformatter.py:24 | four spaces repeated `m` times is `4 * m` spaces |
| PyStrings.Split | src/texformatter.py:116 | `split("\n")` yields at least one piece and no piece holds the separator |
| PyStrings.SplitCount | src/texformatter.py:116 | `split` yields one more piece than there are separators |
| PyStrings.Join | src/texformatter.py:136 | `"\n".join(lines)`: the lines with one separator between neighbours; related to `split` by `PyStrings.JoinSplit` and `PyStrings.SplitJoin` |
| PyStrings.JoinSplit | src/texformatter.py:116-136 | joining the pieces of a split gives the text back |
| PyStrings.SplitJoin | src/texformatter.py:116-136 | splitting joined lines that hold no separator gives the lines back |
| Markup.CloseAt | src/texformatter.py:39 | the scan for `[^}]+` stops at the first `}` or at the end of the line |
| Markup.BeginName | src/texformatter.py:38-43 | `match(r"\\begin\{([^}]+)}", stripped)` and its group 1, as an option; specified by `Markup.BeginNameMatches` |
| Markup.BeginNameMatches | src/texformatter.py:38-43 | the regex matches with group `name` iff the line starts with `\begin{name}` for a non-empty `name` without `}` |
| Markup.OpensVerbatim | src/texformatter.py:38-46 | the pushed name is `verbatim` iff the stripped line starts with `\begin{verbatim}` |
| Markup.VerbatimAfter | src/texformatter.py:21-46 | the document's verbatim flag after a prefix of the lines: on after a `\begin{verbatim}` line, off after an `\end{verbatim}` line; the pass flags are proved equal to it by `EnvironmentPass.EnvVerbatimFlag` and `SectionPass.SecVerbatimFlag` |
| Markup.InsideVerbatim | src/texformatter.py:21-27 | line `i` of a document is one the environment pass copies: the document is inside a verbatim block before it and the line does not start `\end{verbatim}`; equal to the pass's own copy test by `EnvironmentPass.EnvVerbatimFlag` and `EnvironmentPass.EnvKeepsVerbatim` |
| Markup.VerbatimAfterStripped | src/texformatter.py:18-27 | whether the document is inside a verbatim block depends only on the stripped lines |
| EnvironmentPass.IndentEnvironments | src/texformatter.py:8-48 | the loop returns the specification's lines, one output line per input line; its unit defaults to four spaces |
| EnvironmentPass.EnvStep | src/texformatter.py:19-46 | one iteration of the loop: copy a verbatim interior line, else pop on a guarded `\end{`, emit `unit` × stack size + stripped, push on a `\begin{name}` match and set the flag for `verbatim`; its shape is stated by `EnvironmentPass.EnvLineShape` |
| EnvironmentPass.Depth | src/texformatter.py:30-34 | the stack size after a `\end{` line pops, the pop skipped on an empty stack: the depth a line the pass reads is indented at; used by `EnvironmentPass.EnvLineShape` |
| EnvironmentPass.Environments | src/texformatter.py:8-48 | the lines `indent_environments(lines, unit)` returns; computed by `EnvironmentPass.IndentEnvironments` and shaped line by line by `EnvironmentPass.EnvLineShape`; the unit defaults to four spaces (`Markup.DefaultUnit`), as `indent_str` does |
| EnvironmentPass.EnvRun | src/texformatter.py:18-48 | every prefix of the input yields exactly as many output lines |
| EnvironmentPass.EnvLineAt | src/texformatter.py:18-46 | output line `i` and the next state come from one step on the state left by the lines before it |
| EnvironmentPass.BeforeStep | src/texformatter.py:18-46 | the state before line `i + 1` is one step on the state before line `i` |
| EnvironmentPass.EnvLineShape | src/texformatter.py:21-46 | a verbatim interior line is copied and leaves stack and flag alone; any other line is `unit` × (stack size after the guarded pop) + stripped line, the stack grows by one exactly on a `\begin{name}` match, and the flag is then on exactly for `verbatim` |
| EnvironmentPass.UnmatchedEndAtMargin | src/texformatter.py:30-34 | an `\end{` line with nothing open is emitted unindented and the stack stays empty, with no error |
| EnvironmentPass.EnvVerbatimFlag | src/texformatter.py:21-46 | the pass's flag is on before line `i` exactly when a `\begin{verbatim}` line has not yet been followed by an `\end{verbatim}` line |
| EnvironmentPass.DepthBounded | src/texformatter.py:30-43 | the stack never holds more names than there were opener lines |
| EnvironmentPass.Balance | src/texformatter.py:30-43 | openers minus closers among a range of lines, a line copied from inside a verbatim block counting 0 |
| EnvironmentPass.DepthStep | src/texformatter.py:21-43 | when the stack does not underflow, one line moves the stack size by its effect: 0 when the pass copies it from inside a verbatim block, otherwise +1 for an opener, -1 for a closer and 0 for any other line |
| EnvironmentPass.BalanceStep | src/texformatter.py:21-43 | one more line keeps the depth equal to the starting depth plus the balance so far, when that stays non-negative |
| EnvironmentPass.FollowStep | src/texformatter.py:18-43 | if the depth before line `j - 1` follows the balance, so does the depth before line `j` |
| EnvironmentPass.StackFollowsBalance | src/texformatter.py:21-43 | from any line, the depth moves by exactly the balance of openers and closers, lines copied from inside a verbatim block counting 0, as long as that balance never takes the depth below zero |
| EnvironmentPass.MatchingEndSameDepth | src/texformatter.py:21-43 | a `\begin{X}` line outside verbatim and the `\end{` line that balances it are both indented at the depth outside X, also when X encloses verbatim blocks; the `\end{` line must be one the pass reads, not one it copies from inside a verbatim block |
| EnvironmentPass.VerbatimStateHeld | src/texformatter.py:21-27 | after a `\begin{verbatim}` line and until the next `\end{verbatim}` line, the stack does not change and the flag stays on |
| EnvironmentPass.VerbatimBlockKept | src/texformatter.py:21-46 | lines strictly inside a verbatim block come out byte-identical, and its two boundary lines sit at the same depth |
| EnvironmentPass.EnvKeepsStripped | src/texformatter.py:34 | with a whitespace unit, every output line strips to the input line's stripped form |
| EnvironmentPass.EnvKeepsVerbatim | src/texformatter.py:25-27 | a line strictly inside a verbatim block is emitted as it is |
| EnvironmentPass.EnvStepAgain | src/texformatter.py:19-46 | with a whitespace unit, a step over the line it just emitted, from the same state, emits that line again and reaches the same state |
| EnvironmentPass.EnvRunAgain | src/texformatter.py:8-48 | with a whitespace unit, re-running the pass over its own output reaches the same final state and emits the same lines |
| EnvironmentPass.EnvIdempotent | src/texformatter.py:8-48 | re-running the pass with the same whitespace unit changes nothing |
| EnvironmentPass.EnvStripped | src/texformatter.py:18-46 | two documents that agree once stripped, and byte for byte on lines strictly inside verbatim blocks, get the same output from the pass |
| EnvironmentPass.StateStripped | src/texformatter.py:18-46 | the stack and flag depend only on the stripped lines, not on the raw lines or the unit |
| SectionPass.StartsWithAny | src/texformatter.py:97 | the scan is true iff the stripped line starts with one of the exit commands |
| SectionPass.IndentSectionLevel | src/texformatter.py:51-111 | the loop returns the specification's lines, one output line per input line; its unit defaults to four spaces |
| SectionPass.SecStep | src/texformatter.py:63-109 | one iteration of the loop: update the verbatim flag, copy an interior line, else emit `unit` × new level + stripped and update `in_section`; its shape is stated by `SectionPass.SecLineShape` |
| SectionPass.CurrentLevel | src/texformatter.py:82-89 | the leading spaces and tabs floor-divided by the unit's length, or 0 for an empty unit; read back by `SectionPass.LevelOfIndented` |
| SectionPass.IsExit | src/texformatter.py:96-99 | a line ends the scope when it starts with an exit command or is exactly `\end{document}`; the scan is `SectionPass.StartsWithAny` |
| SectionPass.SectionLine | src/texformatter.py:63-109 | one iteration of the loop yields exactly the flags and the appended line of the step specification, the copied verbatim line standing for the `continue` |
| SectionPass.Sections | src/texformatter.py:51-111 | the lines `indent_section_level(lines, command, exit_commands, unit)` returns; computed by `SectionPass.IndentSectionLevel` and shaped line by line by `SectionPass.SecLineShape`; the unit defaults to four spaces |
| SectionPass.Copied | src/texformatter.py:65-79 | line `i` is one the section pass copies: inside a verbatim block and starting with neither `\begin{verbatim}` nor `\end{verbatim}`; used by `SectionPass.SecLineShape` |
| SectionPass.Deeper | src/texformatter.py:91-104 | a line the pass reads gets one more unit exactly when the scope is open and the line is neither a command line nor one that ends the scope; used by `SectionPass.SecLineShape` and `SectionPass.InSectionIff` |
| SectionPass.SecRun | src/texformatter.py:62-111 | every prefix of the input yields exactly as many output lines |
| SectionPass.SecLineAt | src/texformatter.py:62-109 | output line `i` and the next state come from one step on the state left by the lines before it |
| SectionPass.SecBeforeStep | src/texformatter.py:62-109 | the state before line `i + 1` is one step on the state before line `i` |
| SectionPass.SecVerbatimFlag | src/texformatter.py:65-70 | the pass's own verbatim flag equals the document's verbatim flag |
| SectionPass.SecLineShape | src/texformatter.py:72-109 | a copied line is byte-identical and keeps `in_section`; any other line is `unit` × (existing level, +1 inside the scope unless it is a command or exit line) + stripped, and the flag is then on after a command line, off after an exit line, otherwise unchanged |
| SectionPass.OpenSinceStep | src/texformatter.py:91-104 | the scope is open after line `p` iff `p` opens it, or `p` does not end it and it was open before |
| SectionPass.InSectionIff | src/texformatter.py:91-104 | line `i` is processed in scope iff an earlier non-copied line started with the command and no non-copied line since has ended the scope |
| SectionPass.SecKeepsStripped | src/texformatter.py:109 | with a whitespace unit, every output line strips to the input line's stripped form |
| SectionPass.SecStepKeepsStripped | src/texformatter.py:72-109 | with a whitespace unit, one step keeps its line's stripped form |
| SectionPass.CopiedStripped | src/texformatter.py:62-79 | whether a line is copied depends only on the stripped lines |
| SectionPass.LevelOfIndented | src/texformatter.py:82-89 | a line written as `unit` × n + stripped text measures back to level n when the unit is non-empty and made of spaces and tabs |
| SectionPass.IndentedLine | src/texformatter.py:82-109 | a line the pass does not copy is re-emitted at its existing level, plus one inside the scope |
| SectionPass.StepLine | src/texformatter.py:81-109 | a step that does not copy its line emits the stripped line behind the existing level, plus one unit when the line goes deeper |
| SectionPass.IndentedAt | src/texformatter.py:82-109 | for a non-empty unit of spaces and tabs, a line the pass does not copy and already at `m` units comes out at `m` units, plus one inside the scope |
| SectionPass.AtMostOneUnitDeeper | src/texformatter.py:82-109 | with a unit of spaces and tabs, a non-copied line comes out at a whole number of units, its old level or one more |
| SectionPass.InSectionStripped | src/texformatter.py:62-104 | on two documents that agree once stripped, the scope is open at the same lines, whatever the units |
| SectionPass.SecStateStripped | src/texformatter.py:62-104 | on two documents that agree once stripped, both flags are the same before every line, whatever the units |
| SectionPass.SameLevelAnyUnit | src/texformatter.py:82-109 | for two non-empty units of spaces and tabs, a line the pass does not copy, at the same level in both units, in documents that agree once stripped, comes out at the same new level in both |
| SectionPass.StepAnyUnit | src/texformatter.py:82-109 | for two non-empty units of spaces and tabs, from one state in which the line is not copied, two lines that agree once stripped and sit at the same level in the two units come out at the same new level, the old one or one more |
| SectionPass.SameCount | src/texformatter.py:82-89 | lines indented by the same count of units, each in its own unit, read back as that count when the first unit is non-empty and made of spaces and tabs |
| SectionPass.FirstLine | src/texformatter.py:57-109 | the first line of a document, read with the scope closed, is written back at its measured level, for any unit |
| SectionPass.NoBreakSpaceUnitDropped | src/texformatter.py:82-109 | a line indented by one no-break-space unit comes out of a section pass without its indentation, while the same line indented by one space is kept: a whitespace unit outside spaces and tabs is not read back |
| SectionPass.NoCommandKeepsLine | src/texformatter.py:91-109 | for a non-empty unit of spaces and tabs, a pass whose command never occurs leaves every copied line, and every line aligned to whole units, as it is |
| TexFormatter.ApplyLevels | src/texformatter.py:132-134 | the section passes keep the number of lines |
| TexFormatter.ApplyLevelsStep | src/texformatter.py:133-134 | running the first `k + 1` section passes is running the `k`-th pass on the result of the first `k` |
| TexFormatter.FormatLines | src/texformatter.py:116-134 | the pipeline keeps the number of lines |
| TexFormatter.IndentLatex | src/texformatter.py:114-136 | the function returns the split, environment pass, the four section passes in order, and join; its unit defaults to four spaces |
| TexFormatter.Format | src/texformatter.py:114-136 | the text `indent_latex(code, unit)` returns: split, the environment pass, the four section passes, join; computed by `TexFormatter.IndentLatex`; the unit defaults to four spaces |
| TexFormatter.LevelsNest | src/texformatter.py:122-130 | the table `section_levels` (the constant `SectionLevels`): four levels, each scope ended by its own command and every shallower one, and by one deeper command only, `\section` ending a chapter |
| TexFormatter.LevelsKeepCharOut | src/texformatter.py:132-134 | the section passes never introduce a character that is absent from the lines and the unit |
| TexFormatter.EnvKeepsCharOut | src/texformatter.py:119 | the environment pass never introduces a character that is absent from the lines and the unit |
| TexFormatter.LineCountPreserved | src/texformatter.py:114-136 | the output has exactly as many newline-separated lines, and newlines, as the input, for any unit without a newline |
| TexFormatter.FormatLinesNoNewline | src/texformatter.py:116-134 | no formatted line holds a newline when neither the lines nor the unit do |
| TexFormatter.LevelsKeepText | src/texformatter.py:132-134 | with a whitespace unit, the section passes keep every stripped line and copy verbatim interior lines byte for byte |
| TexFormatter.LevelsAddAtMostOneEach | src/texformatter.py:132-134 | with a non-empty unit of spaces and tabs, a line the section passes do not copy and that already sits at `n` units before its stripped text comes out at a whole number of units between `n` and `n` plus the number of passes, before the same text |
| TexFormatter.VerbatimKept | src/texformatter.py:114-136 | with a whitespace unit, lines strictly inside a verbatim block survive the whole pipeline byte-identical, except lines that start a nested `\begin{verbatim}` |
| TexFormatter.IndentationBounded | src/texformatter.py:114-136 | outside verbatim, each line ends up at a whole number of units, between its environment depth and four more |
| TexFormatter.FormatKeepsStripped | src/texformatter.py:114-136 | with a whitespace unit, the pipeline keeps every line's stripped form |
| TexFormatter.LevelsAnyUnit | src/texformatter.py:132-134 | for any two non-empty units of spaces and tabs, the section passes add the same number of units to a line they do not copy that sits at the same level in both |
| TexFormatter.SameLevelOutside | src/texformatter.py:114-136 | a line outside verbatim gets the same level in two documents that agree once stripped, formatted in any two non-empty units of spaces and tabs |
| TexFormatter.UnitScales | src/texformatter.py:114-136 | formatting with a tab or with spaces gives every line outside verbatim the same structural depth |
| TexFormatter.FormatIdempotent | src/texformatter.py:114-136 | re-formatting formatted lines with the same whitespace unit, the empty unit included, changes nothing, when no verbatim block holds a nested `\begin{verbatim}` line |
| TexFormatter.FormatTextIdempotent | src/texformatter.py:114-136 | `indent_latex` run again on its own output text, with the same whitespace unit holding no newline, returns that text unchanged, under the same proviso on nested verbatim openers |
| TexFormatter.LevelsWithoutCommands | src/texformatter.py:132-134 | for a non-empty unit of spaces and tabs, section passes whose commands never occur leave copied lines, and lines aligned to whole units, as they are |
| TexFormatter.DepthOnlyWithoutSections | src/texformatter.py:114-136 | without sectioning commands, every line outside verbatim is indented by exactly its environment depth |
| LegacyFormatter.IndentEnvironments | texformatter.py:11-33 | the loop returns the specification's lines, one output line per input line |
| LegacyFormatter.EnvStep | texformatter.py:19-31 | one iteration of the loop: pop on a guarded `\end{`, emit four spaces × stack size + stripped, push on a `\begin{name}` match; its shape is stated by `LegacyFormatter.EnvLineShape` |
| LegacyFormatter.Popped | texformatter.py:21-22 | the stack after a `\end{` line pops it, the pop skipped when empty; used by `LegacyFormatter.EnvLineShape` |
| LegacyFormatter.Environments | texformatter.py:11-33 | the lines the root `indent_environments(lines)` returns; computed by `LegacyFormatter.IndentEnvironments` |
| LegacyFormatter.EnvRun | texformatter.py:18-33 | every prefix of the input yields exactly as many output lines |
| LegacyFormatter.EnvLineAt | texformatter.py:18-31 | output line `i` and the next state come from one step on the state left by the lines before it |
| LegacyFormatter.EnvLineShape | texformatter.py:18-31 | each output line is four spaces × (stack size after the guarded pop) + stripped line, the stack grows by one exactly on a `\begin{name}` match, and nothing is special for verbatim |
| LegacyFormatter.IndentSectionLevel | texformatter.py:36-67 | the loop returns the specification's lines, one output line per input line |
| LegacyFormatter.SecStep | texformatter.py:44-65 | one iteration of the loop: count leading spaces, add 4 inside the scope unless a command or exit line, emit that many spaces + stripped, update `in_section`; its shape is stated by `LegacyFormatter.SecLineShape` |
| LegacyFormatter.Sections | texformatter.py:36-67 | the lines the root `indent_section_level(lines, command, exit_commands)` returns; computed by `LegacyFormatter.IndentSectionLevel` |
| LegacyFormatter.SecRun | texformatter.py:43-67 | every prefix of the input yields exactly as many output lines |
| LegacyFormatter.SecLineAt | texformatter.py:43-65 | output line `i` and the next state come from one step on the state left by the lines before it |
| LegacyFormatter.SecLineShape | texformatter.py:43-65 | each output line is its leading-space count in spaces, +4 inside the scope unless it is a command or exit line, then the stripped line; the flag is on after a command line, off after an exit line, otherwise unchanged |
| LegacyFormatter.TabIndentDropped | texformatter.py:45 | leading tabs are not counted: a tab-indented line that gets no extra indentation comes out unindented |
| LegacyFormatter.ApplyLevels | texformatter.py:89-90 | the section passes keep the number of lines |
| LegacyFormatter.ApplyLevelsStep | texformatter.py:89-90 | running the first `k + 1` section passes is running the `k`-th pass on the result of the first `k` |
| LegacyFormatter.FormatLines | texformatter.py:72-90 | the pipeline keeps the number of lines |
| LegacyFormatter.IndentLatex | texformatter.py:70-92 | the function returns the split, environment pass, the four section passes in order, and join |
| LegacyFormatter.Format | texformatter.py:70-92 | the text `indent_latex(code)` returns; computed by `LegacyFormatter.IndentLatex` |
| LegacyFormatter.LevelsKeepCharOut | texformatter.py:89-90 | the section passes never introduce a character other than a space |
| LegacyFormatter.LineCountPreserved | texformatter.py:70-92 | the output has exactly as many newline-separated lines, and newlines, as the input |
| LegacyFormatter.FormatLinesNoNewline | texformatter.py:72-90 | no formatted line holds a newline when no input line does |
| LegacyFormatter.NoVerbatimNeverInside | texformatter.py:18-31 | a document without `\begin{verbatim}` lines is never inside a verbatim block |
| LegacyFormatter.EnvRunAgrees | texformatter.py:18-33 | without `\begin{verbatim}` lines, the current environment pass with four spaces keeps the same stack and lines |
| LegacyFormatter.EnvAgrees | texformatter.py:11-33 | without `\begin{verbatim}` lines, the environment pass equals the current one run with four spaces |
| LegacyFormatter.SecStepAgrees | texformatter.py:45-65 | on a line aligned to four-space units, +4 spaces is +1 unit of the current pass |
| LegacyFormatter.SecRunAgrees | texformatter.py:43-67 | on aligned lines without verbatim, the two section loops keep the same flag and lines |
| LegacyFormatter.SectionsAgree | texformatter.py:36-67 | on aligned lines without verbatim, the section pass equals the current one run with four spaces |
| LegacyFormatter.SectionsKeepAligned | texformatter.py:36-67 | the four-space section pass keeps lines aligned to units and free of verbatim openers |
| LegacyFormatter.LevelsAgree | texformatter.py:89-90 | on aligned lines without verbatim, all four section passes agree with the current ones |
| LegacyFormatter.FormatLinesAgree | texformatter.py:72-90 | without `\begin{verbatim}` lines, the pipeline equals the current one run with four spaces |
| LegacyFormatter.FormatAgrees | texformatter.py:70-92 | without `\begin{verbatim}` lines, `indent_latex(code)` equals the current `indent_latex(code, "    ")`, which is the current `indent_latex(code)` with its default unit |
| LegacyFormatter.EnvRunStripped | texformatter.py:18-31 | the environment pass reads only the stripped lines: documents that agree once stripped get the same stack and lines |
| LegacyFormatter.LevelsKeepStripped | texformatter.py:43-65 | the section passes keep every line's stripped form |
| LegacyFormatter.FormatIdempotent | texformatter.py:70-92 | on every document, verbatim blocks included, re-formatting formatted lines changes nothing |
| LegacyFormatter.FormatTextIdempotent | texformatter.py:70-92 | on every text, `indent_latex` run again on its own output returns that output unchanged |

## Left out

- The command-line front ends are not part of this model: `main` in `src/texformatter.py` and the `__main__` block of `texformatter.py`. They are argument parsing, file reading and writing, the backup copy and printing, all I/O.
- The Flask applications `src/app.py` and `app.py` are not part of this model. They are HTTP plumbing. `app.py` passes two arguments to the root `indent_latex`, which takes one, so every request that carries `latex_code` ends in the 500 handler (`app.py:33-34`); a request without it still gets the 400 answer first.
- The regular expression engine is not modelled. The one pattern used, `\\begin\{([^}]+)}` at the start of the line, is a hand-written prefix check and scan (`Markup.BeginName`).
- `strip()` follows Python's `str.isspace` code point by code point. Nothing about encodings, normalisation or surrogates is modelled: a character is one code point.
- `TexFormatter.VerbatimKept`, `TexFormatter.FormatIdempotent` and `TexFormatter.FormatTextIdempotent` exclude lines inside a verbatim block that themselves start with `\begin{verbatim}`. The section passes re-indent such a line, so it can move on every run.
- `TexFormatter.IndentationBounded`, `TexFormatter.UnitScales`, `TexFormatter.LevelsAddAtMostOneEach`, `TexFormatter.DepthOnlyWithoutSections`, `TexFormatter.LevelsAnyUnit`, `TexFormatter.SameLevelOutside`, `TexFormatter.LevelsWithoutCommands`, `SectionPass.IndentedAt`, `SectionPass.AtMostOneUnitDeeper`, `SectionPass.SameLevelAnyUnit`, `SectionPass.StepAnyUnit`, `SectionPass.SameCount`, `SectionPass.NoCommandKeepsLine` and `SectionPass.LevelOfIndented` assume a non-empty unit made of spaces and tabs. They need the level computed by `lstrip(" \t")` to read back the indentation the passes wrote. With an empty unit or other whitespace the measured level is not the written one, as the code says: a line `\u00A0x` indented by one no-break-space unit measures level 0, so a section pass rewrites it as `x`, while ` x` with a one-space unit stays ` x` (`SectionPass.NoBreakSpaceUnitDropped`).
- `TexFormatter.VerbatimKept`, `TexFormatter.FormatKeepsStripped`, `TexFormatter.LevelsKeepText`, `TexFormatter.FormatIdempotent`, `TexFormatter.FormatTextIdempotent` and `EnvironmentPass.EnvRunAgain` assume a whitespace unit (the empty unit included). The code accepts any unit (`src/app.py` passes the caller's). With a unit that is not whitespace, the environment pass writes it in front of a `\begin{verbatim}` line, so the stripped line no longer starts with `\begin{verbatim}`. The section passes then never enter verbatim mode and re-indent the block's interior: with unit `ab`, a line `    code` in a verbatim block inside an `itemize` comes out as `ababcode`, its four leading spaces read as two units and rewritten in the unit.
- `TexFormatter.LineCountPreserved` and `TexFormatter.FormatTextIdempotent` assume the unit holds no newline; a unit with one would add lines.
- The whole-pipeline equality of the two formatters (`LegacyFormatter.FormatAgrees`) is stated only for documents without `\begin{verbatim}` lines. On other documents the current engine copies verbatim interiors and the root one does not.
- The exact expected outputs in the test files are not restated as concrete lemmas. The general lemmas above state the rules those examples follow: `SectionPass.SecLineShape`, `TexFormatter.IndentationBounded` and `EnvironmentPass.MatchingEndSameDepth`.

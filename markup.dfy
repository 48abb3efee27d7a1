/** What the formatter recognises in a stripped line: the `\begin{name}`
    opener (the regular expression `\\begin\{([^}]+)}` anchored at the start
    of the line), `\end{` closers, and the boundaries of `verbatim` blocks;
    also the indentation unit the formatter's functions default to. */
module Markup {
  import opened PyStrings

  datatype Option<T> = None | Some(value: T)

  /** The default of the `indent_str` parameter of `indent_environments`,
      `indent_section_level` and `indent_latex`: four spaces. */
  const DefaultUnit: string := "    "

  const BeginPrefix := "\\begin{"
  const EndPrefix := "\\end{"
  const Verbatim := "verbatim"
  const BeginVerbatim := "\\begin{verbatim}"
  const EndVerbatim := "\\end{verbatim}"
  const EndDocument := "\\end{document}"

  /** Position of the first `}` in `s`, or `|s|` when there is none. */
  function CloseAt(s: string): (k: nat)
    ensures k <= |s|
    ensures forall i :: 0 <= i < k ==> s[i] != '}'
    ensures k == |s| || s[k] == '}'
  {
    if s == [] || s[0] == '}' then 0 else 1 + CloseAt(s[1..])
  }

  /** `re.match(r"\\begin\{([^}]+)}", s)` and its group 1: the name, when the
      line starts with `\begin{`, then at least one character other than `}`,
      then `}`. The character class is greedy, so the name runs up to the
      first `}`. */
  function BeginName(s: string): Option<string> {
    if !StartsWith(s, BeginPrefix) then None
    else
      var rest := s[|BeginPrefix|..];
      var k := CloseAt(rest);
      if 0 < k < |rest| then Some(rest[..k]) else None
  }

  /** The match succeeds with `name` exactly when the line starts with
      `\begin{name}` for a non-empty `name` free of `}`. */
  lemma BeginNameMatches(s: string, name: string)
    ensures BeginName(s) == Some(name) <==>
            (|name| > 0 && '}' !in name && StartsWith(s, BeginPrefix + name + "}"))
  {
    var p := |BeginPrefix|;
    if |name| > 0 && '}' !in name && StartsWith(s, BeginPrefix + name + "}") {
      var rest := s[p..];
      assert rest[..|name|] == name;
      assert rest[|name|] == '}';
      assert forall i :: 0 <= i < |name| ==> rest[i] == name[i];
      assert CloseAt(rest) == |name|;
    }
    if BeginName(s) == Some(name) {
      var rest := s[p..];
      var k := CloseAt(rest);
      assert name == rest[..k];
      assert forall i :: 0 <= i < |name| ==> name[i] == rest[i];
      assert BeginPrefix + name + "}" == s[..p + k + 1];
    }
  }

  /** A line opens a verbatim environment exactly when it starts with
      `\begin{verbatim}`. */
  lemma OpensVerbatim(s: string)
    ensures BeginName(s) == Some(Verbatim) <==> StartsWith(s, BeginVerbatim)
  {
    BeginNameMatches(s, Verbatim);
    assert BeginPrefix + Verbatim + "}" == BeginVerbatim;
  }

  /** `\begin{...}` and `\end{...}` lines never coincide. */
  lemma OpenerIsNotCloser(s: string)
    ensures !(StartsWith(s, BeginPrefix) && StartsWith(s, EndPrefix))
    ensures !(StartsWith(s, BeginVerbatim) && StartsWith(s, EndVerbatim))
  {
    if StartsWith(s, BeginPrefix) {
      assert s[1] == 'b' != EndPrefix[1];
    }
    if StartsWith(s, BeginVerbatim) {
      assert s[1] == 'b' != EndVerbatim[1];
    }
  }

  /** Whether the lines so far leave the document inside a verbatim block:
      a line starting with `\end{verbatim}` leaves it, a line starting with
      `\begin{verbatim}` enters it. Both passes keep this flag, each in its
      own words. */
  function VerbatimAfter(lines: seq<string>): bool {
    if lines == [] then false
    else
      var s := Strip(lines[|lines| - 1]);
      !StartsWith(s, EndVerbatim) && (VerbatimAfter(lines[..|lines| - 1]) || StartsWith(s, BeginVerbatim))
  }

  /** Line `i` lies strictly inside a verbatim block: the block is open and
      the line does not close it. */
  predicate InsideVerbatim(lines: seq<string>, i: nat)
    requires i < |lines|
  {
    VerbatimAfter(lines[..i]) && !StartsWith(Strip(lines[i]), EndVerbatim)
  }

  /** The flag depends on the stripped lines only. */
  lemma {:induction false} VerbatimAfterStripped(a: seq<string>, b: seq<string>)
    requires |a| == |b|
    requires forall k :: 0 <= k < |a| ==> Strip(a[k]) == Strip(b[k])
    ensures VerbatimAfter(a) == VerbatimAfter(b)
    decreases |a|
  {
    if a != [] {
      VerbatimAfterStripped(a[..|a| - 1], b[..|b| - 1]);
    }
  }
}

/** The handful of Python string operations the formatter relies on:
    `str.isspace`, `str.strip()`, `str.lstrip(chars)`, `str.startswith`,
    `str * n`, `str.split("\n")` and `"\n".join(...)`. */
module PyStrings {

  /** Python's `str.isspace` for one code point: the characters whose
      bidirectional class is WS, B or S, or whose category is Zs. */
  predicate IsSpace(c: char) {
    var n := c as int;
    (9 <= n <= 13) || (28 <= n <= 32) || n == 0x85 || n == 0xA0 || n == 0x1680 ||
    (0x2000 <= n <= 0x200A) || n == 0x2028 || n == 0x2029 || n == 0x202F ||
    n == 0x205F || n == 0x3000
  }

  predicate AllSpace(s: string) {
    forall i :: 0 <= i < |s| ==> IsSpace(s[i])
  }

  /** `s.startswith(p)` */
  predicate StartsWith(s: string, p: string) {
    p <= s
  }

  /** `s.lstrip()` */
  function LStrip(s: string): string {
    if |s| > 0 && IsSpace(s[0]) then LStrip(s[1..]) else s
  }

  /** `s.lstrip()` removes a run of whitespace and nothing else. */
  lemma {:induction false} LStripShape(s: string)
    ensures |LStrip(s)| <= |s| && LStrip(s) == s[|s| - |LStrip(s)|..]
    ensures LStrip(s) == [] || !IsSpace(LStrip(s)[0])
    ensures AllSpace(s[..|s| - |LStrip(s)|])
  {
    if |s| > 0 && IsSpace(s[0]) {
      LStripShape(s[1..]);
      assert forall i :: 1 <= i < |s| - |LStrip(s)| ==> s[i] == s[1..][i - 1];
    }
  }

  /** `s.rstrip()` */
  function RStrip(s: string): string {
    if |s| > 0 && IsSpace(s[|s| - 1]) then RStrip(s[..|s| - 1]) else s
  }

  /** `s.rstrip()` removes a run of trailing whitespace and nothing else. */
  lemma {:induction false} RStripShape(s: string)
    ensures |RStrip(s)| <= |s| && RStrip(s) == s[..|RStrip(s)|]
    ensures RStrip(s) == [] || !IsSpace(RStrip(s)[|RStrip(s)| - 1])
    ensures AllSpace(s[|RStrip(s)|..])
  {
    if |s| > 0 && IsSpace(s[|s| - 1]) {
      RStripShape(s[..|s| - 1]);
      assert forall i :: |RStrip(s)| <= i < |s| - 1 ==> s[i] == s[..|s| - 1][i];
    }
  }

  /** `s.strip()`: whitespace removed at both ends. */
  function Strip(s: string): string {
    RStrip(LStrip(s))
  }

  /** `s.strip()` keeps a middle part of `s`, cut off by whitespace only, and
      that part has no whitespace at either end. */
  lemma StripShape(s: string)
    ensures exists a :: 0 <= a <= |s| - |Strip(s)| && Strip(s) == s[a..a + |Strip(s)|] &&
                        AllSpace(s[..a]) && AllSpace(s[a + |Strip(s)|..])
    ensures Strip(s) == [] || (!IsSpace(Strip(s)[0]) && !IsSpace(Strip(s)[|Strip(s)| - 1]))
  {
    var l := LStrip(s);
    var r := RStrip(l);
    LStripShape(s);
    RStripShape(l);
    var a := |s| - |l|;
    assert l == s[a..];
    assert r == l[..|r|];
    assert r == s[a..a + |r|];
    assert s[a + |r|..] == l[|r|..];
  }

  /** `strip` only removes characters. */
  lemma StripKeepsCharOut(s: string, c: char)
    requires c !in s
    ensures c !in Strip(s)
  {
    var l := LStrip(s);
    LStripShape(s);
    RStripShape(l);
    var a := |s| - |l|;
    assert l == s[a..];
    forall j | 0 <= j < |Strip(s)|
      ensures Strip(s)[j] != c
    {
      assert Strip(s)[j] == l[j] == s[a + j];
    }
  }

  lemma {:induction false} LStripPadded(w: string, t: string)
    requires AllSpace(w)
    ensures LStrip(w + t) == LStrip(t)
    decreases |w|
  {
    if w != [] {
      assert (w + t)[0] == w[0] && IsSpace(w[0]);
      assert (w + t)[1..] == w[1..] + t;
      assert AllSpace(w[1..]) by {
        forall i | 0 <= i < |w[1..]| ensures IsSpace(w[1..][i]) {
          assert w[1..][i] == w[i + 1];
        }
      }
      LStripPadded(w[1..], t);
    } else {
      assert w + t == t;
    }
  }

  /** Whitespace in front of a string does not change what `strip` returns. */
  lemma StripPadded(w: string, t: string)
    requires AllSpace(w)
    ensures Strip(w + t) == Strip(t)
  {
    LStripPadded(w, t);
  }

  /** `strip` is idempotent. */
  lemma StripIdempotent(s: string)
    ensures Strip(Strip(s)) == Strip(s)
  {
    var r := Strip(s);
    StripShape(s);
    if r != [] {
      assert LStrip(r) == r;
      assert RStrip(r) == r;
    } else {
      assert LStrip(r) == r;
    }
  }

  /** `len(s) - len(s.lstrip(cs))`: the number of leading characters of `s`
      that belong to `cs`. */
  function LeadingIn(s: string, cs: set<char>): (n: nat)
    ensures n <= |s|
    ensures forall i :: 0 <= i < n ==> s[i] in cs
    ensures n == |s| || s[n] !in cs
  {
    if |s| > 0 && s[0] in cs then 1 + LeadingIn(s[1..], cs) else 0
  }

  lemma {:induction false} LeadingInAppend(w: string, t: string, cs: set<char>)
    requires forall i :: 0 <= i < |w| ==> w[i] in cs
    ensures LeadingIn(w + t, cs) == |w| + LeadingIn(t, cs)
    decreases |w|
  {
    if w != [] {
      assert (w + t)[0] == w[0] && w[0] in cs;
      assert (w + t)[1..] == w[1..] + t;
      assert forall i :: 0 <= i < |w[1..]| ==> w[1..][i] == w[i + 1];
      LeadingInAppend(w[1..], t, cs);
    } else {
      assert w + t == t;
    }
  }

  /** `u * n` in Python. */
  function Repeat(u: string, n: nat): (r: string)
    ensures |r| == |u| * n
    ensures forall i :: 0 <= i < |r| ==> r[i] in u
  {
    if n == 0 then [] else Repeat(u, n - 1) + u
  }

  lemma RepeatAllSpace(u: string, n: nat)
    requires AllSpace(u)
    ensures AllSpace(Repeat(u, n))
  {
    var r := Repeat(u, n);
    forall i | 0 <= i < |r| ensures IsSpace(r[i]) {
      assert r[i] in u;
      var j :| 0 <= j < |u| && u[j] == r[i];
    }
  }

  /** With a whitespace unit, `strip` sees through the indentation. */
  lemma StripIndented(u: string, n: nat, line: string)
    requires AllSpace(u)
    ensures Strip(Repeat(u, n) + Strip(line)) == Strip(line)
  {
    RepeatAllSpace(u, n);
    StripPadded(Repeat(u, n), Strip(line));
    StripIdempotent(line);
  }

  lemma {:induction false} RepeatAdd(u: string, m: nat, n: nat)
    ensures Repeat(u, m + n) == Repeat(u, m) + Repeat(u, n)
    decreases n
  {
    if n > 0 {
      RepeatAdd(u, m, n - 1);
    }
  }

  /** `"    " * m == " " * (4 * m)` */
  lemma {:induction false} RepeatFourSpaces(m: nat)
    ensures Repeat("    ", m) == Repeat(" ", 4 * m)
  {
    if m > 0 {
      RepeatFourSpaces(m - 1);
      RepeatAdd(" ", 4 * (m - 1), 4);
    }
  }

  /** Indentation written with a unit made of `cs` characters, in front of a
      stripped line that does not start with one, measures back to `n` units. */
  lemma MeasureIndented(u: string, n: nat, t: string, cs: set<char>)
    requires forall i :: 0 <= i < |u| ==> u[i] in cs
    requires t == [] || t[0] !in cs
    ensures LeadingIn(Repeat(u, n) + t, cs) == |u| * n
  {
    LeadingInAppend(Repeat(u, n), t, cs);
  }

  /** `s.split(sep)`: the pieces of `s` between occurrences of `sep`. */
  function Split(s: string, sep: char): (r: seq<string>)
    ensures |r| >= 1
    ensures forall k :: 0 <= k < |r| ==> sep !in r[k]
  {
    if s == [] then [[]]
    else
      var rest := Split(s[1..], sep);
      if s[0] == sep then [[]] + rest else [[s[0]] + rest[0]] + rest[1..]
  }

  /** `sep.join(ls)` */
  function Join(ls: seq<string>, sep: char): string {
    if |ls| == 0 then []
    else if |ls| == 1 then ls[0]
    else ls[0] + [sep] + Join(ls[1..], sep)
  }

  function Count(s: string, c: char): nat {
    if s == [] then 0 else (if s[0] == c then 1 else 0) + Count(s[1..], c)
  }

  /** `s.split(sep)` has one more piece than `s` has separators. */
  lemma {:induction false} SplitCount(s: string, sep: char)
    ensures |Split(s, sep)| == Count(s, sep) + 1
  {
    if s != [] {
      SplitCount(s[1..], sep);
    }
  }

  /** `sep.join(s.split(sep)) == s` */
  lemma {:induction false} JoinSplit(s: string, sep: char)
    ensures Join(Split(s, sep), sep) == s
  {
    if s != [] {
      var rest := Split(s[1..], sep);
      JoinSplit(s[1..], sep);
      if s[0] == sep {
        assert Split(s, sep) == [[]] + rest;
        assert [sep] + Join(rest, sep) == [s[0]] + s[1..];
      } else {
        var r := Split(s, sep);
        assert r[1..] == rest[1..];
        if |rest| == 1 {
          assert Join(r, sep) == [s[0]] + rest[0];
        } else {
          assert Join(rest, sep) == rest[0] + [sep] + Join(rest[1..], sep);
          assert Join(r, sep) == [s[0]] + rest[0] + [sep] + Join(rest[1..], sep);
        }
      }
    }
  }

  /** `sep.join(ls).split(sep) == ls` when no piece holds `sep`. */
  lemma {:induction false} SplitJoin(ls: seq<string>, sep: char)
    requires |ls| >= 1
    requires forall k :: 0 <= k < |ls| ==> sep !in ls[k]
    ensures Split(Join(ls, sep), sep) == ls
    decreases |ls|, |ls[0]|
  {
    if |ls| == 1 {
      SplitNoSep(ls[0], sep);
    } else if ls[0] == [] {
      SplitJoin(ls[1..], sep);
      assert Join(ls, sep) == [sep] + Join(ls[1..], sep);
      assert Join(ls, sep)[1..] == Join(ls[1..], sep);
    } else {
      var first := ls[0];
      var tail := [first[1..]] + ls[1..];
      SplitJoin(tail, sep);
      assert Join(tail, sep) == first[1..] + [sep] + Join(ls[1..], sep);
      assert Join(ls, sep) == [first[0]] + Join(tail, sep);
      assert Join(ls, sep)[1..] == Join(tail, sep);
      assert [first[0]] + first[1..] == first;
    }
  }

  lemma {:induction false} SplitNoSep(s: string, sep: char)
    requires sep !in s
    ensures Split(s, sep) == [s]
  {
    if s != [] {
      assert s[0] != sep;
      SplitNoSep(s[1..], sep);
      assert [s[0]] + s[1..] == s;
    }
  }

  lemma MulNonneg(a: int, b: int)
    requires a >= 0 && b >= 0
    ensures a * b >= 0
  {
  }

  lemma MulAtLeast(a: int, b: int)
    requires a >= 0 && b >= 1
    ensures a * b >= a
  {
    assert a * b == a * (b - 1) + a;
    MulNonneg(a, b - 1);
  }

  /** Floor division is determined by quotient and remainder. */
  lemma DivUnique(a: int, u: int, q: int, r: int)
    requires u > 0 && 0 <= r < u && a == u * q + r
    ensures a / u == q
  {
    var q', r' := a / u, a % u;
    assert a == u * q' + r' && 0 <= r' < u;
    if q > q' {
      assert u * (q - q') == r' - r;
      MulAtLeast(u, q - q');
    } else if q < q' {
      assert u * (q' - q) == r - r';
      MulAtLeast(u, q' - q);
    }
  }

  lemma MulDiv(u: nat, n: nat)
    requires u > 0
    ensures u * n / u == n
  {
    DivUnique(u * n, u, n, 0);
  }
}

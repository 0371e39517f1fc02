/**
 * The small pieces of Python's string library that the registration core relies on:
 * `str.splitlines`, `str.join`, `str.split(',')`, `str.strip`, `str(int)`,
 * `str.startswith` and `os.path.basename`.
 */
module Text {

  // ---------------------------------------------------------------------------
  // Line boundaries and str.splitlines
  // ---------------------------------------------------------------------------

  /** The characters Python's `str.splitlines` treats as line boundaries. */
  predicate IsLineBreak(c: char) {
    c == '\n' || c == '\r' || c == '\U{000B}' || c == '\U{000C}' ||
    c == '\U{001C}' || c == '\U{001D}' || c == '\U{001E}' || c == '\U{0085}' ||
    c == '\U{2028}' || c == '\U{2029}'
  }

  predicate NoLineBreak(s: string) {
    forall i :: 0 <= i < |s| ==> !IsLineBreak(s[i])
  }

  /** Every line boundary in `s` is a plain '\n'. */
  predicate OnlyNewlineBreaks(s: string) {
    forall i :: 0 <= i < |s| && IsLineBreak(s[i]) ==> s[i] == '\n'
  }

  /** Length of the boundary at the head of `s`: "\r\n" counts as one boundary of two characters. */
  function BreakLength(s: string): (n: nat)
    requires |s| > 0 && IsLineBreak(s[0])
    ensures 1 <= n <= |s|
  {
    if s[0] == '\r' && |s| > 1 && s[1] == '\n' then 2 else 1
  }

  /** `s.splitlines()`, where `cur` is the part of the current line already read. */
  function SplitLinesFrom(s: string, cur: string): seq<string>
    decreases |s|
  {
    if s == [] then (if cur == [] then [] else [cur])
    else if IsLineBreak(s[0]) then [cur] + SplitLinesFrom(s[BreakLength(s)..], [])
    else SplitLinesFrom(s[1..], cur + [s[0]])
  }

  /** Python's `s.splitlines()`: a trailing boundary does not open an empty last line. */
  function SplitLines(s: string): seq<string> {
    SplitLinesFrom(s, [])
  }

  /** Python's `sep.join(parts)`. */
  function Join(sep: string, parts: seq<string>): string
    decreases |parts|
  {
    if |parts| == 0 then []
    else if |parts| == 1 then parts[0]
    else parts[0] + sep + Join(sep, parts[1..])
  }

  /** `'\n'.join(s.splitlines())`: the normalisation every exported text cell goes through. */
  function Normalise(s: string): string {
    Join("\n", SplitLines(s))
  }

  predicate EndsWithNewline(s: string) {
    |s| > 0 && s[|s| - 1] == '\n'
  }

  lemma {:induction false} SplitLinesFromBreakFree(s: string, cur: string)
    requires NoLineBreak(cur)
    ensures forall k :: 0 <= k < |SplitLinesFrom(s, cur)| ==> NoLineBreak(SplitLinesFrom(s, cur)[k])
    decreases |s|
  {
    if s == [] {
    } else if IsLineBreak(s[0]) {
      SplitLinesFromBreakFree(s[BreakLength(s)..], []);
    } else {
      SplitLinesFromBreakFree(s[1..], cur + [s[0]]);
    }
  }

  /** No line that `splitlines` returns contains a line boundary. */
  lemma SplitLinesBreakFree(s: string)
    ensures forall k :: 0 <= k < |SplitLines(s)| ==> NoLineBreak(SplitLines(s)[k])
  {
    SplitLinesFromBreakFree(s, []);
  }

  /** Reading a boundary-free stretch only extends the current line. */
  lemma {:induction false} SplitLinesFromSkip(t: string, rest: string, cur: string)
    requires NoLineBreak(t)
    ensures SplitLinesFrom(t + rest, cur) == SplitLinesFrom(rest, cur + t)
    decreases |t|
  {
    if t == [] {
      assert t + rest == rest;
      assert cur + t == cur;
    } else {
      assert (t + rest)[0] == t[0];
      assert (t + rest)[1..] == t[1..] + rest;
      SplitLinesFromSkip(t[1..], rest, cur + [t[0]]);
      assert cur + [t[0]] + t[1..] == cur + t;
    }
  }

  /** A line followed by '\n' is read as that line, whatever follows. */
  lemma SplitLinesLine(l: string, rest: string)
    requires NoLineBreak(l)
    ensures SplitLinesFrom(l + "\n" + rest, []) == [l] + SplitLinesFrom(rest, [])
  {
    assert l + "\n" + rest == l + ("\n" + rest);
    SplitLinesFromSkip(l, "\n" + rest, []);
    assert [] + l == l;
    var s := "\n" + rest;
    assert s[0] == '\n' && BreakLength(s) == 1;
    assert s[1..] == rest;
  }

  lemma {:induction false} JoinSnoc(sep: string, ps: seq<string>, x: string)
    requires |ps| > 0
    ensures Join(sep, ps + [x]) == Join(sep, ps) + sep + x
    decreases |ps|
  {
    if |ps| == 1 {
      assert (ps + [x])[1..] == [x];
    } else {
      assert (ps + [x])[1..] == ps[1..] + [x];
      JoinSnoc(sep, ps[1..], x);
    }
  }

  /** Joining boundary-free lines and ending with '\n' splits back into exactly those lines. */
  lemma {:induction false} SplitJoinTerminated(ls: seq<string>)
    requires |ls| > 0
    requires forall k :: 0 <= k < |ls| ==> NoLineBreak(ls[k])
    ensures SplitLines(Join("\n", ls) + "\n") == ls
    decreases |ls|
  {
    if |ls| == 1 {
      SplitLinesLine(ls[0], "");
      assert ls[0] + "\n" + "" == ls[0] + "\n";
    } else {
      var j := Join("\n", ls[1..]);
      assert Join("\n", ls) + "\n" == ls[0] + "\n" + (j + "\n");
      SplitLinesLine(ls[0], j + "\n");
      SplitJoinTerminated(ls[1..]);
      assert [ls[0]] + ls[1..] == ls;
    }
  }

  /**
   * The round trip behind the export normalisation: joining boundary-free lines with '\n'
   * and splitting again gives the same lines, unless the last line is empty (that line
   * would be lost, because `splitlines` opens no line after a final boundary).
   */
  lemma {:induction false} SplitJoin(ls: seq<string>)
    requires forall k :: 0 <= k < |ls| ==> NoLineBreak(ls[k])
    requires ls == [] || ls[|ls| - 1] != ""
    ensures SplitLines(Join("\n", ls)) == ls
    decreases |ls|
  {
    if |ls| == 0 {
    } else if |ls| == 1 {
      SplitLinesFromSkip(ls[0], "", []);
      assert ls[0] + "" == ls[0];
      assert [] + ls[0] == ls[0];
    } else {
      var j := Join("\n", ls[1..]);
      SplitLinesLine(ls[0], j);
      SplitJoin(ls[1..]);
      assert [ls[0]] + ls[1..] == ls;
    }
  }

  lemma {:induction false} JoinNewlineBreaks(ps: seq<string>)
    requires forall k :: 0 <= k < |ps| ==> NoLineBreak(ps[k])
    ensures OnlyNewlineBreaks(Join("\n", ps))
    decreases |ps|
  {
    if |ps| > 1 {
      JoinNewlineBreaks(ps[1..]);
      var a, b := ps[0] + "\n", Join("\n", ps[1..]);
      assert OnlyNewlineBreaks(a);
      assert Join("\n", ps) == a + b;
    }
  }

  /** A join whose last part is non-empty and boundary-free does not end with '\n'. */
  lemma {:induction false} JoinLastChar(ps: seq<string>)
    requires |ps| > 0 && ps[|ps| - 1] != "" && NoLineBreak(ps[|ps| - 1])
    ensures !EndsWithNewline(Join("\n", ps))
    decreases |ps|
  {
    if |ps| > 1 {
      JoinLastChar(ps[1..]);
      assert Join("\n", ps) == ps[0] + "\n" + Join("\n", ps[1..]);
    }
  }

  /** A normalised cell holds no line boundary but '\n'; in particular no '\r'. */
  lemma NormaliseBreaks(s: string)
    ensures OnlyNewlineBreaks(Normalise(s))
    ensures forall i :: 0 <= i < |Normalise(s)| ==> Normalise(s)[i] != '\r'
  {
    SplitLinesBreakFree(s);
    JoinNewlineBreaks(SplitLines(s));
  }

  /** Normalisation keeps the text of every line, provided the last one is not empty. */
  lemma NormaliseKeepsLines(s: string)
    requires SplitLines(s) == [] || SplitLines(s)[|SplitLines(s)| - 1] != ""
    ensures SplitLines(Normalise(s)) == SplitLines(s)
  {
    SplitLinesBreakFree(s);
    SplitJoin(SplitLines(s));
  }

  /**
   * Normalising twice equals normalising once exactly when the first result does not end
   * with '\n'. It does end with '\n' when the input's line list ends with an empty line
   * (for example "a\n\n"), and then a second pass drops that line.
   */
  lemma NormaliseIdempotentIff(s: string)
    ensures Normalise(Normalise(s)) == Normalise(s) <==> !EndsWithNewline(Normalise(s))
  {
    var ls := SplitLines(s);
    SplitLinesBreakFree(s);
    if ls == [] {
    } else if ls[|ls| - 1] != "" {
      SplitJoin(ls);
      JoinLastChar(ls);
    } else if |ls| == 1 {
      assert Normalise(s) == "";
    } else {
      var front := ls[..|ls| - 1];
      assert ls == front + [""];
      JoinSnoc("\n", front, "");
      assert Normalise(s) == Join("\n", front) + "\n";
      SplitJoinTerminated(front);
      assert |Normalise(Normalise(s))| < |Normalise(s)|;
    }
  }

  /** The text "a\n\n" shows that a normalised cell can still end with a line break. */
  lemma NormaliseKeepsOneTrailingBreak()
    ensures Normalise("a\n\n") == "a\n"
    ensures Normalise(Normalise("a\n\n")) == "a"
  {
    assert "" + ['a'] == "a";
    assert "a\n\n"[1..] == "\n\n" && "\n\n"[1..] == "\n" && "\n"[1..] == "";
    assert SplitLinesFrom("", "") == [];
    assert SplitLinesFrom("\n", "") == [""];
    assert SplitLinesFrom("\n\n", "a") == ["a", ""];
    assert SplitLinesFrom("a\n\n", "") == SplitLinesFrom("\n\n", "a");
    assert "a\n"[1..] == "\n";
    assert SplitLinesFrom("\n", "a") == ["a"];
    assert SplitLinesFrom("a\n", "") == SplitLinesFrom("\n", "a");
  }

  // ---------------------------------------------------------------------------
  // str.split(',') and str.strip()
  // ---------------------------------------------------------------------------

  function Count(s: string, c: char): nat {
    if s == [] then 0 else (if s[0] == c then 1 else 0) + Count(s[1..], c)
  }

  /** `s.split(c)` for a one-character separator, with `cur` the piece read so far. */
  function SplitOnFrom(s: string, c: char, cur: string): seq<string>
    decreases |s|
  {
    if s == [] then [cur]
    else if s[0] == c then [cur] + SplitOnFrom(s[1..], c, [])
    else SplitOnFrom(s[1..], c, cur + [s[0]])
  }

  /** Python's `s.split(c)`: one piece more than there are separators, the empty string included. */
  function SplitOn(s: string, c: char): seq<string> {
    SplitOnFrom(s, c, [])
  }

  lemma {:induction false} SplitOnFromFacts(s: string, c: char, cur: string)
    requires forall i :: 0 <= i < |cur| ==> cur[i] != c
    ensures |SplitOnFrom(s, c, cur)| == Count(s, c) + 1
    ensures forall k, i :: 0 <= k < |SplitOnFrom(s, c, cur)| && 0 <= i < |SplitOnFrom(s, c, cur)[k]| ==>
              SplitOnFrom(s, c, cur)[k][i] != c
    ensures Join([c], SplitOnFrom(s, c, cur)) == cur + s
    decreases |s|
  {
    if s == [] {
      assert cur + s == cur;
    } else if s[0] == c {
      var rest := SplitOnFrom(s[1..], c, []);
      SplitOnFromFacts(s[1..], c, []);
      assert SplitOnFrom(s, c, cur) == [cur] + rest;
      assert ([cur] + rest)[1..] == rest;
      assert cur + s == cur + [c] + s[1..];
    } else {
      SplitOnFromFacts(s[1..], c, cur + [s[0]]);
      assert cur + [s[0]] + s[1..] == cur + s;
    }
  }

  /** `split` and `join` with the same separator are inverse; the pieces never hold the separator. */
  lemma SplitOnFacts(s: string, c: char)
    ensures |SplitOn(s, c)| == Count(s, c) + 1
    ensures forall k, i :: 0 <= k < |SplitOn(s, c)| && 0 <= i < |SplitOn(s, c)[k]| ==> SplitOn(s, c)[k][i] != c
    ensures Join([c], SplitOn(s, c)) == s
  {
    SplitOnFromFacts(s, c, []);
  }

  /** The characters Python's `str.isspace` accepts, which `str.strip()` removes. */
  predicate IsSpace(c: char) {
    c == ' ' || c == '\t' || c == '\n' || c == '\r' || c == '\U{000B}' || c == '\U{000C}' ||
    c == '\U{001C}' || c == '\U{001D}' || c == '\U{001E}' || c == '\U{001F}' ||
    c == '\U{0085}' || c == '\U{00A0}' || c == '\U{1680}' || ('\U{2000}' <= c <= '\U{200A}') ||
    c == '\U{2028}' || c == '\U{2029}' || c == '\U{202F}' || c == '\U{205F}' || c == '\U{3000}'
  }

  function LeadingSpaces(s: string): (n: nat)
    ensures n <= |s|
    ensures forall i :: 0 <= i < n ==> IsSpace(s[i])
    ensures n < |s| ==> !IsSpace(s[n])
  {
    if s == [] || !IsSpace(s[0]) then 0 else 1 + LeadingSpaces(s[1..])
  }

  function TrailingSpaces(s: string): (n: nat)
    ensures n <= |s|
    ensures forall i :: |s| - n <= i < |s| ==> IsSpace(s[i])
    ensures n < |s| ==> !IsSpace(s[|s| - n - 1])
  {
    if s == [] || !IsSpace(s[|s| - 1]) then 0 else 1 + TrailingSpaces(s[..|s| - 1])
  }

  /**
   * Python's `s.strip()`: the result is the part of `s` between its leading and its
   * trailing whitespace; it neither starts nor ends with whitespace.
   */
  function Strip(s: string): (r: string)
    ensures LeadingSpaces(s) + |r| <= |s|
    ensures r == [] || (!IsSpace(r[0]) && !IsSpace(r[|r| - 1]))
    ensures forall i :: 0 <= i < |r| ==> r[i] == s[LeadingSpaces(s) + i]
    ensures forall i :: 0 <= i < LeadingSpaces(s) ==> IsSpace(s[i])
    ensures forall i :: LeadingSpaces(s) + |r| <= i < |s| ==> IsSpace(s[i])
  {
    var t := s[LeadingSpaces(s)..];
    t[..|t| - TrailingSpaces(t)]
  }

  lemma StripIdempotent(s: string)
    ensures Strip(Strip(s)) == Strip(s)
  {
    var r := Strip(s);
    assert LeadingSpaces(r) == 0;
    assert TrailingSpaces(r) == 0;
  }

  // ---------------------------------------------------------------------------
  // str(int), str.startswith, os.path.basename
  // ---------------------------------------------------------------------------

  function DigitChar(d: nat): char
    requires d < 10
  {
    ['0', '1', '2', '3', '4', '5', '6', '7', '8', '9'][d]
  }

  predicate IsDigit(c: char) { '0' <= c <= '9' }

  function DigitValue(c: char): (d: nat)
    requires IsDigit(c)
    ensures d < 10 && DigitChar(d) == c
  {
    if c == '0' then 0 else if c == '1' then 1 else if c == '2' then 2 else if c == '3' then 3
    else if c == '4' then 4 else if c == '5' then 5 else if c == '6' then 6 else if c == '7' then 7
    else if c == '8' then 8 else 9
  }

  /** Decimal notation of a natural number, as Python's `str(n)` prints it. */
  function NatToString(n: nat): (r: string)
    ensures |r| > 0
    ensures forall i :: 0 <= i < |r| ==> IsDigit(r[i])
    ensures |r| > 1 ==> r[0] != '0'
  {
    if n < 10 then [DigitChar(n)] else NatToString(n / 10) + [DigitChar(n % 10)]
  }

  /** Python's `str(n)` for any integer. */
  function IntToString(n: int): (r: string)
    ensures |r| > 0
    ensures (r[0] == '-') <==> n < 0
  {
    if n < 0 then "-" + NatToString(-n) else NatToString(n)
  }

  /** Reading a string of digits back as a number (the partner of NatToString). */
  function ParseDigits(s: string): nat
    requires forall i :: 0 <= i < |s| ==> IsDigit(s[i])
  {
    if s == [] then 0 else 10 * ParseDigits(s[..|s| - 1]) + DigitValue(s[|s| - 1])
  }

  lemma {:induction false} ParseNatToString(n: nat)
    ensures ParseDigits(NatToString(n)) == n
    decreases n
  {
    var r := NatToString(n);
    if n < 10 {
      assert r[..0] == [];
    } else {
      ParseNatToString(n / 10);
      assert r[..|r| - 1] == NatToString(n / 10);
    }
  }

  /** Decimal notation is injective: two numbers print alike only if they are equal. */
  lemma NatToStringInjective(m: nat, n: nat)
    requires NatToString(m) == NatToString(n)
    ensures m == n
  {
    ParseNatToString(m);
    ParseNatToString(n);
  }

  /** Python's `s.startswith(p)`. */
  predicate StartsWith(s: string, p: string) {
    |p| <= |s| && s[..|p|] == p
  }

  /** `os.path.basename(path)`: what follows the last '/'. */
  function BaseName(path: string): string {
    if path == [] || path[|path| - 1] == '/' then []
    else BaseName(path[..|path| - 1]) + [path[|path| - 1]]
  }

  /** The base name is the slash-free tail of the path, preceded by a '/' unless it is all of it. */
  lemma {:induction false} BaseNameFacts(path: string)
    ensures |BaseName(path)| <= |path|
    ensures BaseName(path) == path[|path| - |BaseName(path)|..]
    ensures forall i :: 0 <= i < |BaseName(path)| ==> BaseName(path)[i] != '/'
    ensures |BaseName(path)| < |path| ==> path[|path| - |BaseName(path)| - 1] == '/'
    ensures path != [] && path[|path| - 1] != '/' ==> BaseName(path) != []
  {
    if path != [] && path[|path| - 1] != '/' {
      var n := |path|;
      var init := path[..n - 1];
      var c := path[n - 1];
      BaseNameFacts(init);
      var b := BaseName(init);
      var m := |b|;
      assert BaseName(path) == b + [c];
      assert b == init[n - 1 - m..];
      assert path[n - 1 - m..] == init[n - 1 - m..] + [c];
      assert m < n - 1 ==> path[n - 1 - m - 1] == init[n - 1 - m - 1];
    }
  }
}

/**
 * The parts of the C++ standard library the request parser relies on, as pure
 * functions over strings: `std::istringstream >> std::string`, `std::getline`,
 * `std::string::find` and `find_first_not_of` followed by `erase`.
 */
module StdText {
  import opened Wrappers

  /** Whitespace as `isspace` classifies it in the "C" locale. */
  predicate IsSpace(c: char) {
    c == ' ' || c == '\t' || c == '\n' || c == '\r' || c == '\U{B}' || c == '\U{C}'
  }

  predicate AllSpace(s: string) {
    forall k :: 0 <= k < |s| ==> IsSpace(s[k])
  }

  predicate NoSpace(s: string) {
    forall k :: 0 <= k < |s| ==> !IsSpace(s[k])
  }

  /** The first position at or after `i` that does not hold whitespace (or `|s|`). */
  function SkipSpace(s: string, i: nat): (j: nat)
    requires i <= |s|
    ensures i <= j <= |s|
    decreases |s| - i
  {
    if i == |s| || !IsSpace(s[i]) then i else SkipSpace(s, i + 1)
  }

  lemma {:induction false} SkipSpaceSpec(s: string, i: nat)
    requires i <= |s|
    ensures AllSpace(s[i..SkipSpace(s, i)])
    ensures SkipSpace(s, i) == |s| || !IsSpace(s[SkipSpace(s, i)])
    decreases |s| - i
  {
    if i < |s| && IsSpace(s[i]) {
      SkipSpaceSpec(s, i + 1);
      assert s[i..SkipSpace(s, i)] == [s[i]] + s[i + 1..SkipSpace(s, i)];
    }
  }

  /** The end of the run of non-whitespace characters that starts at `i`. */
  function TokenEnd(s: string, i: nat): (j: nat)
    requires i <= |s|
    ensures i <= j <= |s|
    decreases |s| - i
  {
    if i == |s| || IsSpace(s[i]) then i else TokenEnd(s, i + 1)
  }

  lemma {:induction false} TokenEndSpec(s: string, i: nat)
    requires i <= |s|
    ensures NoSpace(s[i..TokenEnd(s, i)])
    ensures TokenEnd(s, i) == |s| || IsSpace(s[TokenEnd(s, i)])
    decreases |s| - i
  {
    if i < |s| && !IsSpace(s[i]) {
      TokenEndSpec(s, i + 1);
      assert s[i..TokenEnd(s, i)] == [s[i]] + s[i + 1..TokenEnd(s, i)];
    }
  }

  /**
   * One `stream >> str` on a stream positioned at `i`: skip whitespace, then take
   * the maximal run of non-whitespace. `None` when only whitespace is left, in
   * which case the stream fails and `str` is left as it was.
   */
  function ExtractToken(s: string, i: nat): (r: Option<(string, nat)>)
    requires i <= |s|
    ensures r.Some? ==> i < r.value.1 <= |s|
  {
    var b := SkipSpace(s, i);
    if b == |s| then None else Some((s[b..TokenEnd(s, b)], TokenEnd(s, b)))
  }

  /**
   * What `ExtractToken` takes: nothing exactly when only whitespace is left;
   * otherwise a non-empty token without whitespace, preceded only by
   * whitespace and followed by whitespace or the end of input.
   */
  lemma ExtractTokenSpec(s: string, i: nat)
    requires i <= |s|
    ensures ExtractToken(s, i).None? <==> AllSpace(s[i..])
    ensures ExtractToken(s, i).Some? ==> var (t, j) := ExtractToken(s, i).value;
      && |t| > 0 && i + |t| <= j <= |s|
      && AllSpace(s[i..j - |t|]) && s[j - |t|..j] == t && NoSpace(t)
      && (j == |s| || IsSpace(s[j]))
  {
    var b := SkipSpace(s, i);
    SkipSpaceSpec(s, i);
    TokenEndSpec(s, b);
    if b == |s| {
      assert s[i..] == s[i..b];
    } else {
      var e := TokenEnd(s, b);
      assert s[i..e] == s[i..b] + s[b..e];
      assert s[i..][b - i] == s[b];
    }
  }

  /** `SkipSpace` stops at the first non-whitespace position. */
  lemma {:induction false} SkipSpaceOf(s: string, i: nat, m: nat)
    requires i <= m <= |s|
    requires forall k :: i <= k < m ==> IsSpace(s[k])
    requires m == |s| || !IsSpace(s[m])
    ensures SkipSpace(s, i) == m
    decreases m - i
  {
    if i < m {
      SkipSpaceOf(s, i + 1, m);
    }
  }

  /** `TokenEnd` stops at the first whitespace position. */
  lemma {:induction false} TokenEndOf(s: string, i: nat, e: nat)
    requires i <= e <= |s|
    requires forall k :: i <= k < e ==> !IsSpace(s[k])
    requires e == |s| || IsSpace(s[e])
    ensures TokenEnd(s, i) == e
    decreases e - i
  {
    if i < e {
      TokenEndOf(s, i + 1, e);
    }
  }

  /**
   * The converse of `ExtractTokenSpec`: when `s[i..j]` is whitespace and
   * `s[j..k]` a maximal non-empty run of non-whitespace, `>>` from `i` takes
   * exactly `s[j..k]` and stops at `k`.
   */
  lemma ExtractTokenAt(s: string, i: nat, j: nat, k: nat)
    requires i <= j < k <= |s|
    requires AllSpace(s[i..j]) && NoSpace(s[j..k]) && (k == |s| || IsSpace(s[k]))
    ensures ExtractToken(s, i) == Some((s[j..k], k))
  {
    assert forall n :: i <= n < j ==> s[n] == s[i..j][n - i];
    assert forall n :: j <= n < k ==> s[n] == s[j..k][n - j];
    SkipSpaceOf(s, i, j);
    TokenEndOf(s, j, k);
  }

  /** The first index of `c` in `s` (`std::string::find`); `None` is `npos`. */
  function Find(s: string, c: char): (r: Option<nat>)
    ensures r.None? <==> c !in s
    ensures r.Some? ==> r.value < |s| && s[r.value] == c && c !in s[..r.value]
  {
    if |s| == 0 then None
    else if s[0] == c then Some(0)
    else
      var r := Find(s[1..], c);
      if r.None? then None
      else
        assert s[..r.value + 1] == [s[0]] + s[1..][..r.value];
        Some(r.value + 1)
  }

  /** The last index of `c` in `s` (`std::string::rfind`). */
  function FindLast(s: string, c: char): (r: Option<nat>)
    ensures r.None? <==> c !in s
    ensures r.Some? ==> r.value < |s| && s[r.value] == c && c !in s[r.value + 1..]
  {
    if |s| == 0 then None
    else if s[|s| - 1] == c then Some(|s| - 1)
    else
      var r := FindLast(s[..|s| - 1], c);
      if r.None? then None
      else
        assert s[r.value + 1..] == s[..|s| - 1][r.value + 1..] + [s[|s| - 1]];
        Some(r.value)
  }

  predicate IsBlank(c: char) { c == ' ' || c == '\t' }

  /**
   * `v.erase(0, v.find_first_not_of(" \t"))`: drop the leading spaces and tabs;
   * a value made only of them becomes empty (the `npos` length erases it all).
   */
  function TrimLeadingBlanks(v: string): (r: string)
    ensures |r| <= |v| && r == v[|v| - |r|..]
    ensures forall k :: 0 <= k < |v| - |r| ==> IsBlank(v[k])
    ensures r == [] || !IsBlank(r[0])
  {
    if |v| == 0 || !IsBlank(v[0]) then v
    else
      var r := TrimLeadingBlanks(v[1..]);
      assert forall k :: 1 <= k < |v| - |r| ==> v[k] == v[1..][k - 1];
      r
  }

  /** The end of the line that starts at `i`: the next `'\n'` or the end of input. */
  function LineEnd(s: string, i: nat): (j: nat)
    requires i <= |s|
    ensures i <= j <= |s|
    ensures '\n' !in s[i..j]
    ensures j == |s| || s[j] == '\n'
    decreases |s| - i
  {
    if i == |s| || s[i] == '\n' then i
    else
      var j := LineEnd(s, i + 1);
      assert s[i..j] == [s[i]] + s[i + 1..j];
      j
  }

  /**
   * One `std::getline(stream, line)` on a stream positioned at `i`: fails at the
   * end of input; otherwise yields the text up to the next `'\n'` (which is
   * consumed but not stored) or to the end. Only `'\n'` ends a line, so a
   * `'\r'` before it stays in the line.
   */
  function GetLine(s: string, i: nat): (r: Option<(string, nat)>)
    requires i <= |s|
    ensures r.None? <==> i == |s|
    ensures r.Some? ==> i < r.value.1 <= |s|
  {
    if i == |s| then None
    else
      var e := LineEnd(s, i);
      Some((s[i..e], if e < |s| then e + 1 else e))
  }

  /** What `GetLine` yields: a line without `'\n'` that is followed by one, or that runs to the end of input. */
  lemma GetLineSpec(s: string, i: nat)
    requires i < |s|
    ensures var (line, j) := GetLine(s, i).value;
      && '\n' !in line
      && (s[i..j] == line + "\n" || (j == |s| && s[i..j] == line))
  {
    var e := LineEnd(s, i);
    if e < |s| {
      assert s[i..e + 1] == s[i..e] + [s[e]];
    }
  }

  /** The lines a `while (std::getline(...))` loop started at `i` reads, in order. */
  function LinesFrom(s: string, i: nat): seq<string>
    requires i <= |s|
    decreases |s| - i
  {
    match GetLine(s, i)
    case None => []
    case Some((line, j)) => [line] + LinesFrom(s, j)
  }

  /** A `getline` loop from `i` reads the line at `i`, then the lines after it. */
  lemma LinesFromStep(s: string, i: nat)
    requires i < |s|
    ensures LinesFrom(s, i) == [GetLine(s, i).value.0] + LinesFrom(s, GetLine(s, i).value.1)
  {
  }

  /** Each line followed by its `'\n'`. */
  function Terminated(lines: seq<string>): string {
    if lines == [] then "" else lines[0] + "\n" + Terminated(lines[1..])
  }

  /** No line read by a `getline` loop holds a `'\n'`. */
  lemma {:induction false} LinesFromNoNewline(s: string, i: nat)
    requires i <= |s|
    ensures forall k :: 0 <= k < |LinesFrom(s, i)| ==> '\n' !in LinesFrom(s, i)[k]
    decreases |s| - i
  {
    if i < |s| {
      var (line, j) := GetLine(s, i).value;
      GetLineSpec(s, i);
      LinesFromNoNewline(s, j);
      LinesFromStep(s, i);
    }
  }

  /** The last character of `s[i..]` after splitting off its first line. */
  lemma LastAfterLine(s: string, i: nat)
    requires i < |s|
    ensures var (line, j) := GetLine(s, i).value;
      (j < |s| ==> s[|s| - 1] == s[j..][|s| - 1 - j])
      && (j == |s| ==> (s[|s| - 1] == '\n' <==> s[i..j] == line + "\n"))
  {
    var (line, j) := GetLine(s, i).value;
    GetLineSpec(s, i);
    if j == |s| {
      if s[i..j] == line + "\n" {
        assert s[j - 1] == s[i..j][j - 1 - i];
      } else {
        assert s[i..j] == line;
        assert s[|s| - 1] == line[|line| - 1];
      }
    }
  }

  /**
   * The lines read by `getline` give back the input: re-terminating each line
   * with `'\n'` reproduces `s[i..]`, plus one `'\n'` when the input's last line
   * had none.
   */
  lemma {:induction false} LinesFromRoundTrip(s: string, i: nat)
    requires i <= |s|
    ensures Terminated(LinesFrom(s, i)) == s[i..] + (if i < |s| && s[|s| - 1] != '\n' then "\n" else "")
    decreases |s| - i
  {
    if i < |s| {
      var (line, j) := GetLine(s, i).value;
      GetLineSpec(s, i);
      LastAfterLine(s, i);
      LinesFromRoundTrip(s, j);
      LinesFromStep(s, i);
      var ls := LinesFrom(s, i);
      assert ls[0] == line && ls[1..] == LinesFrom(s, j);
      assert Terminated(ls) == line + "\n" + Terminated(LinesFrom(s, j));
      assert s[i..] == s[i..j] + s[j..];
      if j < |s| {
        assert s[i..j] == line + "\n";
        var extra := if s[|s| - 1] != '\n' then "\n" else "";
        assert Terminated(LinesFrom(s, j)) == s[j..] + extra;
        assert line + "\n" + (s[j..] + extra) == s[i..j] + s[j..] + extra;
      } else {
        assert s[j..] == [] && LinesFrom(s, j) == [];
      }
    }
  }

  /** `s` split at the first `c`: what precedes it and what follows it. */
  function SplitAt(s: string, c: char): Option<(string, string)> {
    match Find(s, c)
    case None => None
    case Some(k) => Some((s[..k], s[k + 1..]))
  }

  /** Splitting `x + [c] + y` at `c`, when `x` has no `c`, gives back `x` and `y`. */
  lemma SplitAtJoin(x: string, c: char, y: string)
    requires c !in x
    ensures SplitAt(x + [c] + y, c) == Some((x, y))
  {
    var s := x + [c] + y;
    assert s[|x|] == c;
    assert s[..|x|] == x && s[|x| + 1..] == y;
  }

  /** Concatenation regrouped to the right. */
  lemma AppendAssoc(p: string, q: string, r: string)
    ensures p + q + r == p + (q + r)
  {
  }
}

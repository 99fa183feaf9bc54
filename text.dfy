/**
 * The JavaScript string operations the generation routes rely on:
 * `String.prototype.trim`, `split` with a non-empty string separator,
 * `replace` with a string pattern (first occurrence only), and the
 * decimal rendering of a non-negative integer in a template literal.
 */
module Text {
  import opened Wrappers

  /** The ECMAScript WhiteSpace and LineTerminator code points, which `trim` strips. */
  predicate IsWhitespace(c: char) {
    || c == '\t' || c == '\n' || c == '\U{000B}' || c == '\U{000C}' || c == '\r' || c == ' '
    || c == '\U{00A0}' || c == '\U{1680}' || '\U{2000}' <= c <= '\U{200A}'
    || c == '\U{2028}' || c == '\U{2029}' || c == '\U{202F}' || c == '\U{205F}'
    || c == '\U{3000}' || c == '\U{FEFF}'
  }

  predicate AllWhitespace(s: string) {
    forall i :: 0 <= i < |s| ==> IsWhitespace(s[i])
  }

  /** Neither the first nor the last character is whitespace. */
  predicate IsTrimmed(s: string) {
    s == [] || (!IsWhitespace(s[0]) && !IsWhitespace(s[|s| - 1]))
  }

  /** The index of the first non-whitespace character at or after `i`, or `|s|`. */
  function SkipStart(s: string, i: nat): (k: nat)
    requires i <= |s|
    ensures i <= k <= |s|
    ensures forall j :: i <= j < k ==> IsWhitespace(s[j])
    ensures k < |s| ==> !IsWhitespace(s[k])
    decreases |s| - i
  {
    if i < |s| && IsWhitespace(s[i]) then SkipStart(s, i + 1) else i
  }

  /** The end of the last non-whitespace character before `e`, not going below `lo`. */
  function SkipEnd(s: string, lo: nat, e: nat): (k: nat)
    requires lo <= e <= |s|
    ensures lo <= k <= e
    ensures forall j :: k <= j < e ==> IsWhitespace(s[j])
    ensures k > lo ==> !IsWhitespace(s[k - 1])
    decreases e
  {
    if e > lo && IsWhitespace(s[e - 1]) then SkipEnd(s, lo, e - 1) else e
  }

  /**
   * `s.trim()`: the result is a slice of `s`, everything cut away on either
   * side is whitespace, and the result neither starts nor ends with whitespace.
   */
  function Trim(s: string): (r: string)
    ensures |r| <= |s| && IsTrimmed(r)
    ensures exists i :: (0 <= i <= |s| - |r| && r == s[i..i + |r|]
                         && AllWhitespace(s[..i]) && AllWhitespace(s[i + |r|..]))
    ensures r == [] <==> AllWhitespace(s)
  {
    var i := SkipStart(s, 0);
    var e := SkipEnd(s, i, |s|);
    var r := s[i..e];
    assert AllWhitespace(s[..i]) by {
      forall j | 0 <= j < i ensures IsWhitespace(s[..i][j]) {
        assert s[..i][j] == s[j];
      }
    }
    assert AllWhitespace(s[e..]) by {
      forall j | 0 <= j < |s| - e ensures IsWhitespace(s[e..][j]) {
        assert s[e..][j] == s[e + j];
      }
    }
    assert r != [] ==> r[0] == s[i] && r[|r| - 1] == s[e - 1];
    assert r == [] ==> e == i;
    assert i + |r| == e;
    r
  }

  /** A string that neither starts nor ends with whitespace is its own trim; so trimming twice is trimming once. */
  lemma TrimIdempotent(s: string)
    ensures IsTrimmed(s) ==> Trim(s) == s
    ensures Trim(Trim(s)) == Trim(s)
  {
    TrimOfTrimmed(s);
    TrimOfTrimmed(Trim(s));
  }

  lemma TrimOfTrimmed(s: string)
    ensures IsTrimmed(s) ==> Trim(s) == s
  {
    if IsTrimmed(s) && s != [] {
      assert SkipStart(s, 0) == 0;
      assert SkipEnd(s, 0, |s|) == |s|;
      assert s[0..|s|] == s;
    }
  }

  /** `pat` occurs in `s` starting at index `k`. */
  predicate OccursAt(s: string, pat: string, k: int) {
    0 <= k && k + |pat| <= |s| && s[k..k + |pat|] == pat
  }

  predicate Contains(s: string, pat: string) {
    exists k :: 0 <= k <= |s| && OccursAt(s, pat, k)
  }

  /** The first occurrence of `pat` in `s` at or after `k` (`indexOf(pat, k)`), or None for -1. */
  function IndexOfFrom(s: string, pat: string, k: nat): (r: Option<nat>)
    requires |pat| > 0
    ensures r.Some? ==> (k <= r.value && OccursAt(s, pat, r.value)
                         && forall j :: k <= j < r.value ==> !OccursAt(s, pat, j))
    ensures r.None? ==> forall j :: k <= j ==> !OccursAt(s, pat, j)
    decreases |s| - k
  {
    if k + |pat| > |s| then None
    else if OccursAt(s, pat, k) then Some(k)
    else IndexOfFrom(s, pat, k + 1)
  }

  /** `s.indexOf(pat)`, None standing for -1. */
  function IndexOf(s: string, pat: string): (r: Option<nat>)
    requires |pat| > 0
    ensures r.None? <==> !Contains(s, pat)
    ensures r.Some? ==> OccursAt(s, pat, r.value) && forall j :: 0 <= j < r.value ==> !OccursAt(s, pat, j)
  {
    IndexOfFrom(s, pat, 0)
  }

  /** An occurrence inside a prefix is an occurrence in the whole string. */
  lemma OccursInPrefix(s: string, pat: string, n: nat, k: int)
    requires n <= |s| && OccursAt(s[..n], pat, k)
    ensures OccursAt(s, pat, k)
  {
    assert s[..n][k..k + |pat|] == s[k..k + |pat|];
  }

  /** An occurrence in `t` is an occurrence at the same index in `t + u`. */
  lemma OccursInExtension(t: string, u: string, pat: string, k: int)
    requires OccursAt(t, pat, k)
    ensures OccursAt(t + u, pat, k)
  {
    assert (t + u)[k..k + |pat|] == t[k..k + |pat|];
  }

  /** Joins `parts` with `sep` between neighbours (`parts.join(sep)`). */
  function Join(parts: seq<string>, sep: string): string {
    if |parts| == 0 then ""
    else if |parts| == 1 then parts[0]
    else parts[0] + sep + Join(parts[1..], sep)
  }

  /**
   * `s.split(sep)` for a non-empty separator: cut at the leftmost occurrence,
   * then split the rest. Joining the pieces gives back `s`, no piece
   * contains the separator, and every piece but the last ends cleanly, so
   * no cut could have been made further left.
   */
  function Split(s: string, sep: string): (r: seq<string>)
    requires |sep| > 0
    ensures |r| >= 1
    ensures Join(r, sep) == s
    ensures forall k :: 0 <= k < |r| ==> !Contains(r[k], sep)
    ensures Separable(r, sep)
    decreases |s|
  {
    match IndexOf(s, sep)
    case None => [s]
    case Some(i) =>
      var rest := Split(s[i + |sep|..], sep);
      FirstPieceIsClean(s, sep, i);
      [s[..i]] + rest
  }

  /**
   * The text before the leftmost occurrence of the separator does not
   * contain it, ends cleanly, and is followed by the separator.
   */
  lemma FirstPieceIsClean(s: string, sep: string, i: nat)
    requires |sep| > 0 && OccursAt(s, sep, i)
    requires forall j :: 0 <= j < i ==> !OccursAt(s, sep, j)
    ensures !Contains(s[..i], sep) && EndsCleanly(s[..i], sep)
    ensures s[..i] + sep + s[i + |sep|..] == s
  {
    forall j | OccursAt(s[..i], sep, j) ensures false {
      OccursInPrefix(s, sep, i, j);
    }
    assert s[..i] + sep == s[..i + |sep|];
    forall j | 0 <= j < i ensures !OccursAt(s[..i] + sep, sep, j) {
      if OccursAt(s[..i] + sep, sep, j) {
        OccursInPrefix(s, sep, i + |sep|, j);
      }
    }
    assert s == s[..i] + s[i..i + |sep|] + s[i + |sep|..];
  }

  /**
   * The first piece of a split is what precedes the first occurrence of the
   * separator (the whole string when there is none); when there is one, a
   * second piece exists and starts right after it.
   */
  lemma SplitFirstPieces(s: string, sep: string)
    requires |sep| > 0
    ensures IndexOf(s, sep).None? ==> Split(s, sep) == [s]
    ensures IndexOf(s, sep).Some? ==>
      var i := IndexOf(s, sep).value;
      |Split(s, sep)| >= 2 && Split(s, sep)[0] == s[..i]
      && Split(s, sep)[1] == Split(s[i + |sep|..], sep)[0]
  {
  }

  /**
   * A piece ends cleanly when the separator written after it is found
   * exactly there, and not earlier.
   */
  predicate EndsCleanly(p: string, sep: string) {
    forall j :: 0 <= j < |p| ==> !OccursAt(p + sep, sep, j)
  }

  /** When `p` ends cleanly, the first occurrence of `sep` in `p + sep + q` is right after `p`. */
  lemma FirstAfterCleanPiece(p: string, q: string, sep: string)
    requires |sep| > 0 && EndsCleanly(p, sep)
    ensures IndexOf(p + sep + q, sep) == Some(|p|)
  {
    var s := p + sep + q;
    assert s[|p|..|p| + |sep|] == sep;
    assert OccursAt(s, sep, |p|);
    forall j | 0 <= j < |p| ensures !OccursAt(s, sep, j) {
      if OccursAt(s, sep, j) {
        assert (p + sep)[j..j + |sep|] == s[j..j + |sep|];
        assert OccursAt(p + sep, sep, j);
      }
    }
    match IndexOf(s, sep)
    case None =>
      assert false;
    case Some(v) =>
      assert !(v < |p|);
      assert !(v > |p|);
  }

  /** Pieces that split back to themselves once joined. */
  predicate Separable(parts: seq<string>, sep: string) {
    && |parts| >= 1
    && (forall k :: 0 <= k < |parts| - 1 ==> EndsCleanly(parts[k], sep))
    && !Contains(parts[|parts| - 1], sep)
  }

  /** Splitting a join of separable pieces gives the pieces back. */
  lemma {:induction false} SplitJoin(parts: seq<string>, sep: string)
    requires |sep| > 0 && Separable(parts, sep)
    ensures Split(Join(parts, sep), sep) == parts
    decreases |parts|
  {
    var s := Join(parts, sep);
    if |parts| == 1 {
      assert IndexOf(s, sep).None?;
    } else {
      var p := parts[0];
      var rest := Join(parts[1..], sep);
      assert s == p + sep + rest;
      FirstAfterCleanPiece(p, rest, sep);
      assert s[|p| + |sep|..] == rest;
      assert Separable(parts[1..], sep);
      SplitJoin(parts[1..], sep);
      assert parts == [p] + parts[1..];
    }
  }

  /**
   * `s.replace(pat, rep)` with a string pattern: only the leftmost
   * occurrence is replaced, and the text around it is kept.
   */
  function ReplaceFirst(s: string, pat: string, rep: string): (r: string)
    requires |pat| > 0
    ensures !Contains(s, pat) ==> r == s
    ensures Contains(s, pat) ==> |r| == |s| - |pat| + |rep|
    ensures forall i :: OccursAt(s, pat, i) && (forall j :: 0 <= j < i ==> !OccursAt(s, pat, j)) ==>
      r == s[..i] + rep + s[i + |pat|..]
  {
    match IndexOf(s, pat)
    case None => s
    case Some(i) => s[..i] + rep + s[i + |pat|..]
  }

  /** Removing a leading pattern leaves exactly what followed it, even when that contains the pattern again. */
  lemma ReplaceLeading(pat: string, t: string)
    requires |pat| > 0
    ensures ReplaceFirst(pat + t, pat, "") == t
  {
    assert (pat + t)[0..|pat|] == pat;
    assert OccursAt(pat + t, pat, 0);
    assert (pat + t)[|pat|..] == t;
  }

  /** Without an occurrence, the text before the first match is the whole string. */
  lemma ReplaceAbsent(s: string, pat: string, rep: string)
    requires |pat| > 0 && !Contains(s, pat)
    ensures ReplaceFirst(s, pat, rep) == s
  {
  }

  predicate IsDigit(c: char) { '0' <= c <= '9' }

  function DigitChar(d: nat): (c: char)
    requires d < 10
    ensures IsDigit(c)
  {
    ('0' as int + d) as char
  }

  function DigitValue(c: char): (d: nat)
    requires IsDigit(c)
    ensures d < 10
  {
    c as int - '0' as int
  }

  /** The decimal text of a non-negative integer, as a template literal renders it. */
  function NatToString(n: nat): (r: string)
    ensures |r| >= 1 && forall i :: 0 <= i < |r| ==> IsDigit(r[i])
  {
    if n < 10 then [DigitChar(n)] else NatToString(n / 10) + [DigitChar(n % 10)]
  }

  function ParseDecimal(s: string): nat
    requires forall i :: 0 <= i < |s| ==> IsDigit(s[i])
  {
    if |s| == 0 then 0 else 10 * ParseDecimal(s[..|s| - 1]) + DigitValue(s[|s| - 1])
  }

  /** Reading the decimal text back gives the number. */
  lemma {:induction false} DecimalRoundTrip(n: nat)
    ensures ParseDecimal(NatToString(n)) == n
  {
    var s := NatToString(n);
    if n >= 10 {
      DecimalRoundTrip(n / 10);
      assert s[..|s| - 1] == NatToString(n / 10);
    }
  }

  /** Distinct numbers have distinct decimal texts. */
  lemma NatToStringInjective(m: nat, n: nat)
    requires m != n
    ensures NatToString(m) != NatToString(n)
  {
    DecimalRoundTrip(m);
    DecimalRoundTrip(n);
  }
}

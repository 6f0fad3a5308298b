/**
 * The Go `strings` primitives the generator relies on, over `seq<char>`,
 * together with the facts about them the rest of the model uses.
 *
 * Case mapping (`ToUpper`, `ToLower`, `EqualFold`, `Title`) is modelled for
 * ASCII letters only; every other character is left as it is.
 */
module Strings {
  import opened Wrappers

  // ---------------------------------------------------------------------
  // Prefixes, suffixes and occurrences
  // ---------------------------------------------------------------------

  predicate HasPrefix(s: string, p: string) {
    |p| <= |s| && s[..|p|] == p
  }

  predicate HasSuffix(s: string, p: string) {
    |p| <= |s| && s[|s| - |p|..] == p
  }

  /** strings.TrimPrefix: drops `p` once when `s` starts with it. */
  function TrimPrefix(s: string, p: string): (r: string)
    ensures HasPrefix(s, p) ==> p + r == s
    ensures !HasPrefix(s, p) ==> r == s
  {
    if HasPrefix(s, p) then s[|p|..] else s
  }

  /** strings.TrimSuffix: drops `p` once when `s` ends with it. */
  function TrimSuffix(s: string, p: string): (r: string)
    ensures HasSuffix(s, p) ==> r + p == s
    ensures !HasSuffix(s, p) ==> r == s
  {
    if HasSuffix(s, p) then s[..|s| - |p|] else s
  }

  /** `sub` starts at offset `k` of `s`. */
  predicate OccursAt(s: string, sub: string, k: nat) {
    k + |sub| <= |s| && s[k..k + |sub|] == sub
  }

  /** strings.Contains */
  predicate Contains(s: string, sub: string) {
    exists k: nat :: k <= |s| && OccursAt(s, sub, k)
  }

  /** `k` is the leftmost offset at which `sub` occurs in `s`. */
  predicate FirstAt(s: string, sub: string, k: nat) {
    OccursAt(s, sub, k) && forall j: nat :: j < k ==> !OccursAt(s, sub, j)
  }

  function IndexFrom(s: string, sub: string, k: nat): (r: Option<nat>)
    decreases |s| - k
    ensures r.Some? ==> k <= r.value && OccursAt(s, sub, r.value)
    ensures forall j: nat :: k <= j && (r.None? || j < r.value) ==> !OccursAt(s, sub, j)
  {
    if k + |sub| > |s| then None
    else if OccursAt(s, sub, k) then Some(k)
    else IndexFrom(s, sub, k + 1)
  }

  /** strings.Index: the leftmost occurrence, `None` standing for Go's -1. */
  function Index(s: string, sub: string): (r: Option<nat>)
    ensures r.Some? ==> FirstAt(s, sub, r.value)
    ensures r.None? <==> !Contains(s, sub)
  {
    IndexFrom(s, sub, 0)
  }

  /** Concatenation regroups freely; stated on plain variables so that no literal is unfolded. */
  lemma Reassociate(a: string, b: string, c: string)
    ensures a + (b + c) == a + b + c
  {
  }

  /** What is put between two strings occurs right after the first. */
  lemma InfixAt(p: string, m: string, q: string)
    ensures OccursAt(p + m + q, m, |p|) && Contains(p + m + q, m)
  {
    assert (p + m + q)[|p|..|p| + |m|] == m;
    var k: nat := |p|;
    assert k <= |p + m + q| && OccursAt(p + m + q, m, k);
  }

  /** The three parts of `h + (p + t)` are recovered by slicing at their lengths. */
  lemma ThreeParts(h: string, p: string, t: string)
    ensures var b := h + (p + t);
            && b[..|h|] == h && b[|h|..|h| + |p|] == p && b[|h| + |p|..] == t
  {
  }

  /** A string ends with, and so contains, what was appended to it. */
  lemma AppendedSuffix(p: string, q: string)
    ensures HasSuffix(p + q, q) && OccursAt(p + q, q, |p|) && Contains(p + q, q)
  {
    assert (p + q)[|p|..] == q;
    assert (p + q)[|p|..|p| + |q|] == q;
    var k: nat := |p|;
    assert k <= |p + q| && OccursAt(p + q, q, k);
  }

  lemma AppendedPrefix(p: string, q: string)
    ensures HasPrefix(p + q, p) && TrimPrefix(p + q, p) == q
  {
    assert (p + q)[..|p|] == p;
    assert (p + q)[|p|..] == q;
  }

  /** A non-empty string is its text before the last character, then that character. */
  lemma SplitLast(s: string)
    requires |s| > 0
    ensures s == s[..|s| - 1] + [s[|s| - 1]]
  {
  }

  /** The leftmost occurrence is unique, so it is what Index reports. */
  lemma IndexIsFirst(s: string, sub: string, k: nat)
    requires FirstAt(s, sub, k)
    ensures Index(s, sub) == Some(k)
  {
    assert OccursAt(s, sub, k);
  }

  lemma OccursInConcat(a: string, b: string, c: string, sub: string, k: nat)
    requires OccursAt(b, sub, k)
    ensures OccursAt(a + b + c, sub, |a| + k)
  {
    var s := a + b + c;
    assert s[|a| + k..|a| + k + |sub|] == b[k..k + |sub|] by {
      forall i | |a| + k <= i < |a| + k + |sub|
        ensures s[i] == b[i - |a|]
      {
      }
    }
  }

  lemma ContainsInConcat(a: string, b: string, c: string, sub: string)
    requires Contains(b, sub)
    ensures Contains(a + b + c, sub)
  {
    var k: nat :| OccursAt(b, sub, k);
    OccursInConcat(a, b, c, sub, k);
  }

  lemma ContainsItself(s: string)
    ensures Contains(s, s)
  {
    assert OccursAt(s, s, 0);
  }

  /** A string that lacks the first character of `sub` cannot contain `sub`. */
  lemma NotContainsWithoutFirstChar(s: string, sub: string)
    requires |sub| > 0
    requires forall i :: 0 <= i < |s| ==> s[i] != sub[0]
    ensures !Contains(s, sub)
  {
    forall k: nat | k <= |s|
      ensures !OccursAt(s, sub, k)
    {
      if k + |sub| <= |s| {
        assert s[k..k + |sub|][0] == s[k];
      }
    }
  }

  /** `c` occurs nowhere in `s`. */
  predicate Lacks(s: string, c: char) {
    forall i :: 0 <= i < |s| ==> s[i] != c
  }

  // ---------------------------------------------------------------------
  // Replacement
  // ---------------------------------------------------------------------

  /** strings.Replace(s, pat, rep, 1): the leftmost occurrence only. */
  function ReplaceFirst(s: string, pat: string, rep: string): string {
    match Index(s, pat)
    case None => s
    case Some(k) => s[..k] + rep + s[k + |pat|..]
  }

  lemma ReplaceFirstAt(s: string, pat: string, rep: string, k: nat)
    requires FirstAt(s, pat, k)
    ensures ReplaceFirst(s, pat, rep) == s[..k] + rep + s[k + |pat|..]
  {
    IndexIsFirst(s, pat, k);
  }

  /** Replacing the first `pat` by a text that contains both `m` and `pat` leaves both in the result. */
  lemma ReplaceFirstKeeps(s: string, pat: string, rep: string, k: nat, m: string)
    requires FirstAt(s, pat, k)
    requires Contains(rep, m) && Contains(rep, pat)
    ensures ReplaceFirst(s, pat, rep) == s[..k] + rep + s[k + |pat|..]
    ensures Contains(ReplaceFirst(s, pat, rep), m) && Contains(ReplaceFirst(s, pat, rep), pat)
  {
    ReplaceFirstAt(s, pat, rep, k);
    ContainsInConcat(s[..k], rep, s[k + |pat|..], m);
    ContainsInConcat(s[..k], rep, s[k + |pat|..], pat);
  }

  lemma ReplaceFirstMissing(s: string, pat: string, rep: string)
    requires !Contains(s, pat)
    ensures ReplaceFirst(s, pat, rep) == s
  {
  }

  /** strings.ReplaceAll: every occurrence of `pat`, scanning left to right (`pat` non-empty). */
  function ReplaceAll(s: string, pat: string, rep: string): (r: string)
    requires |pat| > 0
    decreases |s|
  {
    match Index(s, pat)
    case None => s
    case Some(k) => s[..k] + rep + ReplaceAll(s[k + |pat|..], pat, rep)
  }

  lemma ReplaceAllMissing(s: string, pat: string, rep: string)
    requires |pat| > 0 && !Contains(s, pat)
    ensures ReplaceAll(s, pat, rep) == s
  {
  }

  // ---------------------------------------------------------------------
  // Trimming
  // ---------------------------------------------------------------------

  /** unicode.IsSpace, the test strings.TrimSpace trims by. */
  predicate IsSpace(c: char) {
    c == ' ' || c == '\t' || c == '\n' || c == '\r' || c == '\U{000B}' || c == '\U{000C}'
    || c == '\U{0085}' || c == '\U{00A0}' || c == '\U{1680}'
    || ('\U{2000}' <= c <= '\U{200A}')
    || c == '\U{2028}' || c == '\U{2029}' || c == '\U{202F}' || c == '\U{205F}' || c == '\U{3000}'
  }

  function TrimLeftSpace(s: string): (r: string)
    ensures HasSuffix(s, r)
    ensures forall i :: 0 <= i < |s| - |r| ==> IsSpace(s[i])
    ensures |r| > 0 ==> !IsSpace(r[0])
  {
    if |s| > 0 && IsSpace(s[0]) then TrimLeftSpace(s[1..]) else s
  }

  function TrimRightSpace(s: string): (r: string)
    ensures HasPrefix(s, r)
    ensures forall i :: |r| <= i < |s| ==> IsSpace(s[i])
    ensures |r| > 0 ==> !IsSpace(r[|r| - 1])
  {
    if |s| > 0 && IsSpace(s[|s| - 1]) then TrimRightSpace(s[..|s| - 1]) else s
  }

  /** Trailing spaces never reach into a prefix that ends with a non-space. */
  lemma TrimRightPrefix(x: string, p: string)
    requires |p| > 0 && !IsSpace(p[|p| - 1])
    ensures HasPrefix(TrimRightSpace(x), p) <==> HasPrefix(x, p)
  {
    var r := TrimRightSpace(x);
    if HasPrefix(x, p) {
      assert x[|p| - 1] == p[|p| - 1];
      assert |p| <= |r|;
      assert r[..|p|] == x[..|r|][..|p|];
    }
    if HasPrefix(r, p) {
      assert x[..|p|] == x[..|r|][..|p|];
    }
  }

  /** strings.TrimSpace: the longest middle part not starting or ending with a space. */
  function TrimSpace(s: string): (r: string)
    ensures |r| > 0 ==> !IsSpace(r[0]) && !IsSpace(r[|r| - 1])
    ensures |r| <= |s|
  {
    TrimRightSpace(TrimLeftSpace(s))
  }

  lemma TrimSpaceKeeps(s: string)
    requires |s| == 0 || (!IsSpace(s[0]) && !IsSpace(s[|s| - 1]))
    ensures TrimSpace(s) == s
  {
    var l := TrimLeftSpace(s);
    assert l == s;
    assert TrimRightSpace(l) == s;
    assert TrimSpace(s) == TrimRightSpace(l);
  }

  /** Padding made of spaces on both sides is exactly what TrimSpace removes. */
  lemma {:induction false} TrimSpacePadding(pre: string, s: string, post: string)
    requires forall i :: 0 <= i < |pre| ==> IsSpace(pre[i])
    requires forall i :: 0 <= i < |post| ==> IsSpace(post[i])
    requires |s| > 0 && !IsSpace(s[0]) && !IsSpace(s[|s| - 1])
    ensures TrimSpace(pre + s + post) == s
  {
    LeftPadding(pre, s + post);
    assert pre + s + post == pre + (s + post);
    RightPadding(s, post);
  }

  lemma {:induction false} LeftPadding(pre: string, s: string)
    requires forall i :: 0 <= i < |pre| ==> IsSpace(pre[i])
    requires |s| > 0 && !IsSpace(s[0])
    ensures TrimLeftSpace(pre + s) == s
    decreases |pre|
  {
    if |pre| > 0 {
      assert (pre + s)[1..] == pre[1..] + s;
      LeftPadding(pre[1..], s);
    } else {
      assert pre + s == s;
    }
  }

  lemma {:induction false} RightPadding(s: string, post: string)
    requires forall i :: 0 <= i < |post| ==> IsSpace(post[i])
    requires |s| > 0 && !IsSpace(s[|s| - 1])
    ensures TrimRightSpace(s + post) == s
    decreases |post|
  {
    if |post| > 0 {
      assert (s + post)[..|s + post| - 1] == s + post[..|post| - 1];
      RightPadding(s, post[..|post| - 1]);
    } else {
      assert s + post == s;
    }
  }

  function TrimLeftChar(s: string, c: char): (r: string)
    ensures HasSuffix(s, r)
    ensures forall i :: 0 <= i < |s| - |r| ==> s[i] == c
    ensures |r| > 0 ==> r[0] != c
  {
    if |s| > 0 && s[0] == c then TrimLeftChar(s[1..], c) else s
  }

  function TrimRightChar(s: string, c: char): (r: string)
    ensures HasPrefix(s, r)
    ensures forall i :: |r| <= i < |s| ==> s[i] == c
    ensures |r| > 0 ==> r[|r| - 1] != c
  {
    if |s| > 0 && s[|s| - 1] == c then TrimRightChar(s[..|s| - 1], c) else s
  }

  /** strings.Trim(s, cutset) for a one-character cutset. */
  function TrimChar(s: string, c: char): (r: string)
    ensures |r| > 0 ==> r[0] != c && r[|r| - 1] != c
  {
    TrimRightChar(TrimLeftChar(s, c), c)
  }

  /** Trimming a quoted literal yields its inside when the inside is not itself quote-bounded. */
  lemma TrimQuoted(s: string, c: char)
    requires |s| == 0 || (s[0] != c && s[|s| - 1] != c)
    ensures TrimChar([c] + s + [c], c) == s
  {
    var q := [c] + s + [c];
    assert q[1..] == s + [c];
    if |s| == 0 {
      assert TrimLeftChar(q, c) == TrimLeftChar([c], c);
      assert [c][1..] == [];
    } else {
      assert TrimLeftChar(s + [c], c) == s + [c];
      assert (s + [c])[..|s + [c]| - 1] == s;
    }
  }

  // ---------------------------------------------------------------------
  // Case (ASCII)
  // ---------------------------------------------------------------------

  predicate IsUpper(c: char) {
    'A' <= c <= 'Z'
  }

  predicate IsLower(c: char) {
    'a' <= c <= 'z'
  }

  function LowerChar(c: char): (r: char)
    ensures !IsUpper(r)
    ensures !IsUpper(c) ==> r == c
  {
    if IsUpper(c) then (c as int + 32) as char else c
  }

  function UpperChar(c: char): (r: char)
    ensures !IsLower(r)
    ensures !IsLower(c) ==> r == c
  {
    if IsLower(c) then (c as int - 32) as char else c
  }

  function ToLower(s: string): (r: string)
    ensures |r| == |s|
  {
    seq(|s|, i requires 0 <= i < |s| => LowerChar(s[i]))
  }

  /** Lowering a prefix one character longer appends that character lowered. */
  lemma ToLowerSnoc(s: string, n: nat)
    requires 0 < n <= |s|
    ensures ToLower(s[..n]) == ToLower(s[..n - 1]) + [LowerChar(s[n - 1])]
  {
    assert ToLower(s[..n])[..n - 1] == ToLower(s[..n - 1]);
  }

  function ToUpper(s: string): (r: string)
    ensures |r| == |s|
  {
    seq(|s|, i requires 0 <= i < |s| => UpperChar(s[i]))
  }

  lemma ToUpperIdempotent(s: string)
    ensures ToUpper(ToUpper(s)) == ToUpper(s)
  {
  }

  /** Lowering an upper-cased string is lowering it. */
  lemma ToLowerToUpper(s: string)
    ensures ToLower(ToUpper(s)) == ToLower(s)
  {
    forall i | 0 <= i < |s|
      ensures LowerChar(UpperChar(s[i])) == LowerChar(s[i])
    {
    }
  }

  /** strings.EqualFold: equal up to letter case. */
  predicate EqualFold(a: string, b: string) {
    ToLower(a) == ToLower(b)
  }

  /** The separators strings.Title starts a new word after. */
  predicate IsWordSeparator(c: char) {
    if c as int <= 0x7F then !(IsUpper(c) || IsLower(c) || ('0' <= c <= '9') || c == '_')
    else IsSpace(c)
  }

  /** strings.Title: upper-cases the first letter of every word. */
  function Title(s: string): (r: string)
    ensures |r| == |s|
  {
    seq(|s|, i requires 0 <= i < |s| => if i == 0 || IsWordSeparator(s[i - 1]) then UpperChar(s[i]) else s[i])
  }

  // ---------------------------------------------------------------------
  // Splitting and joining
  // ---------------------------------------------------------------------

  /** strings.Join */
  function Join(parts: seq<string>, sep: string): string {
    if |parts| == 0 then ""
    else if |parts| == 1 then parts[0]
    else parts[0] + sep + Join(parts[1..], sep)
  }

  /** strings.Split for a non-empty separator. */
  function Split(s: string, sep: string): (r: seq<string>)
    requires |sep| > 0
    ensures |r| >= 1
    ensures Contains(s, sep) ==> |r| >= 2
    ensures !Contains(r[0], sep)
    decreases |s|
  {
    match Index(s, sep)
    case None => [s]
    case Some(k) =>
      FirstPieceClean(s, sep, k);
      [s[..k]] + Split(s[k + |sep|..], sep)
  }

  /** The part before the leftmost separator holds no separator. */
  lemma FirstPieceClean(s: string, sep: string, k: nat)
    requires |sep| > 0 && FirstAt(s, sep, k)
    ensures !Contains(s[..k], sep)
  {
    forall j: nat | j <= k
      ensures !OccursAt(s[..k], sep, j)
    {
      if j + |sep| <= k {
        assert s[..k][j..j + |sep|] == s[j..j + |sep|];
        assert !OccursAt(s, sep, j);
      }
    }
  }

  /** Splitting and joining with the same separator give back the string. */
  lemma {:induction false} JoinSplit(s: string, sep: string)
    requires |sep| > 0
    ensures Join(Split(s, sep), sep) == s
    decreases |s|
  {
    match Index(s, sep)
    case None =>
      assert Split(s, sep) == [s];
    case Some(k) =>
      var rest := s[k + |sep|..];
      JoinSplit(rest, sep);
      SplitAt(s, sep, k);
      JoinCons(s[..k], Split(rest, sep), sep);
      assert s == s[..k] + sep + rest;
  }

  lemma SplitAt(s: string, sep: string, k: nat)
    requires |sep| > 0 && Index(s, sep) == Some(k)
    ensures Split(s, sep) == [s[..k]] + Split(s[k + |sep|..], sep)
  {
  }

  lemma JoinCons(head: string, tail: seq<string>, sep: string)
    requires |tail| > 0
    ensures Join([head] + tail, sep) == head + sep + Join(tail, sep)
  {
    assert ([head] + tail)[1..] == tail;
  }

  /** strings.SplitN(s, sep, 2) for a non-empty separator. */
  function SplitTwo(s: string, sep: string): (r: seq<string>)
    requires |sep| > 0
    ensures 1 <= |r| <= 2
    ensures |r| == 1 <==> !Contains(s, sep)
    ensures |r| == 1 ==> r[0] == s
    ensures |r| == 2 ==> r[0] + sep + r[1] == s && !Contains(r[0], sep)
  {
    match Index(s, sep)
    case None => [s]
    case Some(k) =>
      FirstPieceClean(s, sep, k);
      [s[..k], s[k + |sep|..]]
  }

  /** Cutting at the first occurrence of a character the head lacks gives the head and the rest. */
  lemma SplitTwoAtChar(a: string, c: char, b: string)
    requires Lacks(a, c)
    ensures SplitTwo(a + [c] + b, [c]) == [a, b]
  {
    var s := a + [c] + b;
    forall j: nat | j < |a|
      ensures !OccursAt(s, [c], j)
    {
      assert s[j..j + 1][0] == a[j];
    }
    assert s[|a|..|a| + 1] == [c];
    IndexIsFirst(s, [c], |a|);
    assert s[..|a|] == a;
    assert s[|a| + 1..] == b;
  }

  /**
   * The lines a bufio.Scanner in its default line mode yields when no line
   * exceeds the scanner's 64 KiB token limit: the text cut at every "\n", a
   * final empty piece dropped, one trailing "\r" removed from each line.
   */
  function ScanLines(content: string): (lines: seq<string>) {
    var parts := Split(content, "\n");
    var kept := if parts[|parts| - 1] == "" then parts[..|parts| - 1] else parts;
    seq(|kept|, i requires 0 <= i < |kept| => TrimSuffix(kept[i], "\r"))
  }

  // ---------------------------------------------------------------------
  // Regular-expression character classes (RE2 syntax)
  // ---------------------------------------------------------------------

  /** `\w` */
  predicate IsWordChar(c: char) {
    IsUpper(c) || IsLower(c) || ('0' <= c <= '9') || c == '_'
  }

  /** A non-empty run of `\w`, what `(\w+)` captures. */
  predicate IsWord(s: string) {
    |s| > 0 && forall i :: 0 <= i < |s| ==> IsWordChar(s[i])
  }

  /** `\s`: the Perl class, ASCII only. */
  predicate IsRegexSpace(c: char) {
    c == ' ' || c == '\t' || c == '\n' || c == '\U{000C}' || c == '\r'
  }

  /** Length of the longest prefix of `s` made of `\w` characters (what greedy `\w*` takes). */
  function WordRun(s: string): (n: nat)
    ensures n <= |s|
    ensures forall i :: 0 <= i < n ==> IsWordChar(s[i])
    ensures n < |s| ==> !IsWordChar(s[n])
  {
    if |s| > 0 && IsWordChar(s[0]) then 1 + WordRun(s[1..]) else 0
  }

  /** Length of the longest prefix of `s` made of `\S` characters. */
  function NonSpaceRun(s: string): (n: nat)
    ensures n <= |s|
    ensures forall i :: 0 <= i < n ==> !IsRegexSpace(s[i])
    ensures n < |s| ==> IsRegexSpace(s[n])
  {
    if |s| > 0 && !IsRegexSpace(s[0]) then 1 + NonSpaceRun(s[1..]) else 0
  }

  /** The word run of a word followed by a non-word character is that word. */
  lemma {:induction false} WordRunOf(w: string, rest: string)
    requires forall i :: 0 <= i < |w| ==> IsWordChar(w[i])
    requires |rest| == 0 || !IsWordChar(rest[0])
    ensures WordRun(w + rest) == |w|
    decreases |w|
  {
    if |w| > 0 {
      assert (w + rest)[1..] == w[1..] + rest;
      WordRunOf(w[1..], rest);
    } else {
      assert w + rest == rest;
    }
  }

  lemma UpperWord(s: string)
    requires IsWord(s)
    ensures IsWord(ToUpper(s))
  {
  }
}

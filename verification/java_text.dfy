/**
 * The handful of `java.lang.String` operations the parsers rely on, with Java's exact
 * semantics where they differ from the obvious ones:
 * - `trim` strips every character up to U+0020 (not just blanks);
 * - `toLowerCase` is modelled for ASCII letters only;
 * - `replace(target, "")` removes every non-overlapping occurrence, scanning left to right;
 * - `split` drops trailing empty pieces.
 */
module JavaText {

  // ---------------------------------------------------------------- prefixes, substrings

  predicate StartsWith(s: string, p: string) {
    |p| <= |s| && s[..|p|] == p
  }

  predicate EndsWith(s: string, p: string) {
    |p| <= |s| && s[|s| - |p|..] == p
  }

  /** `s.contains(p)`: `p` occurs in `s` at some offset. */
  predicate Contains(s: string, p: string)
    decreases |s|
  {
    StartsWith(s, p) || (|s| > 0 && Contains(s[1..], p))
  }

  /** `p` occurs in `s` starting at offset `i`. */
  predicate OccursAt(s: string, p: string, i: int) {
    0 <= i <= |s| - |p| && s[i..i + |p|] == p
  }

  /** One mismatching position rules a prefix out. */
  lemma {:induction false} NotStartsWithAt(s: string, p: string, i: int)
    requires 0 <= i < |p| && (i >= |s| || s[i] != p[i])
    ensures !StartsWith(s, p)
  {
    assert |p| <= |s| ==> s[..|p|][i] == s[i];
  }

  /** Contains agrees with the offset-based reading of "occurs somewhere". */
  lemma {:induction false} ContainsIffOccurs(s: string, p: string)
    ensures Contains(s, p) <==> exists i :: OccursAt(s, p, i)
    decreases |s|
  {
    if StartsWith(s, p) {
      assert OccursAt(s, p, 0);
    } else if |s| == 0 {
      assert |p| > 0;
    } else {
      ContainsIffOccurs(s[1..], p);
      if Contains(s[1..], p) {
        var i :| OccursAt(s[1..], p, i);
        assert s[i + 1..i + 1 + |p|] == s[1..][i..i + |p|];
        assert OccursAt(s, p, i + 1);
      }
      if exists i :: OccursAt(s, p, i) {
        var i :| OccursAt(s, p, i);
        assert i != 0 by { assert s[..|p|] == s[0..0 + |p|]; }
        assert s[1..][i - 1..i - 1 + |p|] == s[i..i + |p|];
        assert OccursAt(s[1..], p, i - 1);
      }
    }
  }

  /** A pattern whose first character does not occur in `s` cannot occur in `s`. */
  lemma {:induction false} NotContainsFirstChar(s: string, p: string)
    requires |p| > 0 && p[0] !in s
    ensures !Contains(s, p)
    decreases |s|
  {
    if |s| > 0 {
      assert s[0] != p[0];
      assert !StartsWith(s, p) by {
        if |p| <= |s| { assert s[..|p|][0] == s[0]; }
      }
      NotContainsFirstChar(s[1..], p);
    }
  }

  /** More generally, a pattern with any character that does not occur in `s` cannot occur in `s`. */
  lemma {:induction false} NotContainsSomeChar(s: string, p: string, j: int)
    requires 0 <= j < |p| && p[j] !in s
    ensures !Contains(s, p)
  {
    ContainsIffOccurs(s, p);
    forall i
      ensures !OccursAt(s, p, i)
    {
      if 0 <= i <= |s| - |p| {
        assert s[i..i + |p|][j] == s[i + j];
      }
    }
  }

  /** An occurrence at a known offset is an occurrence. */
  lemma {:induction false} ContainsAt(s: string, p: string, i: int)
    requires OccursAt(s, p, i)
    ensures Contains(s, p)
  {
    ContainsIffOccurs(s, p);
  }

  lemma {:induction false} ContainsOfPrefix(s: string, p: string)
    requires StartsWith(s, p)
    ensures Contains(s, p)
  {
  }

  lemma {:induction false} ContainsLength(s: string, p: string)
    requires Contains(s, p)
    ensures |p| <= |s|
    ensures |p| == |s| ==> s == p
    decreases |s|
  {
    if !StartsWith(s, p) {
      ContainsLength(s[1..], p);
    }
  }

  /** An occurrence inside a prefix is an occurrence in the whole string. */
  lemma {:induction false} ContainsInPrefix(a: string, b: string, p: string)
    requires Contains(a, p)
    ensures Contains(a + b, p)
    decreases |a|
  {
    if StartsWith(a, p) {
      assert (a + b)[..|p|] == a[..|p|];
    } else {
      assert (a + b)[1..] == a[1..] + b;
      ContainsInPrefix(a[1..], b, p);
    }
  }

  /** An occurrence inside a suffix is an occurrence in the whole string. */
  lemma {:induction false} ContainsInSuffix(a: string, b: string, p: string)
    requires Contains(b, p)
    ensures Contains(a + b, p)
    decreases |a|
  {
    if |a| > 0 {
      assert (a + b)[1..] == a[1..] + b;
      ContainsInSuffix(a[1..], b, p);
    } else {
      assert a + b == b;
    }
  }

  /** `s.indexOf(c)`, except that "absent" is `|s|` rather than `-1`. */
  function IndexOfChar(s: string, c: char): (i: nat)
    ensures i <= |s| && (i < |s| ==> s[i] == c)
    ensures forall k :: 0 <= k < i ==> s[k] != c
    decreases |s|
  {
    if s == [] || s[0] == c then 0 else 1 + IndexOfChar(s[1..], c)
  }

  /** `s.lastIndexOf(c)`: the last position holding `c`, or `-1`. */
  function LastIndexOfChar(s: string, c: char): (i: int)
    ensures -1 <= i < |s| && (i >= 0 ==> s[i] == c)
    ensures forall k :: i < k < |s| ==> s[k] != c
    decreases |s|
  {
    if s == [] then -1
    else if s[|s| - 1] == c then |s| - 1
    else LastIndexOfChar(s[..|s| - 1], c)
  }

  // ---------------------------------------------------------------- trim

  /** Characters `String.trim` removes from either end: every code point up to U+0020. */
  predicate IsTrimmable(c: char) {
    c <= ' '
  }

  function TrimStart(s: string): (r: string)
    ensures |r| <= |s| && r == s[|s| - |r|..]
    ensures r == [] || !IsTrimmable(r[0])
    decreases |s|
  {
    if |s| > 0 && IsTrimmable(s[0]) then TrimStart(s[1..]) else s
  }

  function TrimEnd(s: string): (r: string)
    ensures |r| <= |s| && r == s[..|r|]
    ensures r == [] || !IsTrimmable(r[|r| - 1])
    decreases |s|
  {
    if |s| > 0 && IsTrimmable(s[|s| - 1]) then TrimEnd(s[..|s| - 1]) else s
  }

  /** What `TrimStart` and `TrimEnd` drop is trimmable, and only that. */
  lemma {:induction false} TrimStartDropsTrimmable(s: string)
    ensures forall i :: 0 <= i < |s| - |TrimStart(s)| ==> IsTrimmable(s[i])
    decreases |s|
  {
    if |s| > 0 && IsTrimmable(s[0]) {
      TrimStartDropsTrimmable(s[1..]);
      assert forall i :: 1 <= i < |s| ==> s[i] == s[1..][i - 1];
    }
  }

  lemma {:induction false} TrimEndDropsTrimmable(s: string)
    ensures forall i :: |TrimEnd(s)| <= i < |s| ==> IsTrimmable(s[i])
    decreases |s|
  {
    if |s| > 0 && IsTrimmable(s[|s| - 1]) {
      TrimEndDropsTrimmable(s[..|s| - 1]);
      assert forall i :: 0 <= i < |s| - 1 ==> s[i] == s[..|s| - 1][i];
    }
  }

  /** A string `trim` leaves unchanged: empty, or neither end is trimmable. */
  predicate IsTrimmed(s: string) {
    s == [] || (!IsTrimmable(s[0]) && !IsTrimmable(s[|s| - 1]))
  }

  /** `String.trim`. */
  function Trim(s: string): (r: string)
    ensures IsTrimmed(r)
  {
    var t := TrimStart(s);
    var r := TrimEnd(t);
    assert r != [] ==> r[0] == t[0];
    r
  }

  /** `trim` keeps a contiguous piece of its input and removes only trimmable characters around it. */
  lemma {:induction false} TrimIsInfix(s: string)
    ensures OccursAt(s, Trim(s), |s| - |TrimStart(s)|)
    ensures forall i :: 0 <= i < |s| - |TrimStart(s)| ==> IsTrimmable(s[i])
    ensures forall i :: |s| - |TrimStart(s)| + |Trim(s)| <= i < |s| ==> IsTrimmable(s[i])
  {
    TrimKeepsInfix(s);
    TrimStartDropsTrimmable(s);
    TrimDropsTrimmableSuffix(s);
  }

  lemma {:induction false} TrimKeepsInfix(s: string)
    ensures OccursAt(s, Trim(s), |s| - |TrimStart(s)|)
  {
    var t := TrimStart(s);
    var r := TrimEnd(t);
    var i := |s| - |t|;
    assert r == t[..|r|] && t == s[i..];
    assert s[i..][..|r|] == s[i..i + |r|];
  }

  lemma {:induction false} TrimDropsTrimmableSuffix(s: string)
    ensures forall i :: |s| - |TrimStart(s)| + |Trim(s)| <= i < |s| ==> IsTrimmable(s[i])
  {
    var t := TrimStart(s);
    var i := |s| - |t|;
    assert t == s[i..];
    TrimEndDropsTrimmable(t);
    forall k | i + |Trim(s)| <= k < |s|
      ensures IsTrimmable(s[k])
    {
      assert s[k] == t[k - i];
    }
  }

  lemma {:induction false} TrimOfTrimmed(s: string)
    requires IsTrimmed(s)
    ensures Trim(s) == s
  {
  }

  lemma {:induction false} TrimIdempotent(s: string)
    ensures Trim(Trim(s)) == Trim(s)
  {
    TrimOfTrimmed(Trim(s));
  }

  predicate AllTrimmable(s: string) {
    forall i :: 0 <= i < |s| ==> IsTrimmable(s[i])
  }

  lemma {:induction false} TrimStartPadded(pad: string, x: string)
    requires AllTrimmable(pad) && x != [] && !IsTrimmable(x[0])
    ensures TrimStart(pad + x) == x
    decreases |pad|
  {
    if pad != [] {
      assert (pad + x)[1..] == pad[1..] + x;
      TrimStartPadded(pad[1..], x);
    } else {
      assert pad + x == x;
    }
  }

  lemma {:induction false} TrimEndPadded(x: string, pad: string)
    requires AllTrimmable(pad) && x != [] && !IsTrimmable(x[|x| - 1])
    ensures TrimEnd(x + pad) == x
    decreases |pad|
  {
    if pad != [] {
      assert (x + pad)[..|x + pad| - 1] == x + pad[..|pad| - 1];
      TrimEndPadded(x, pad[..|pad| - 1]);
    } else {
      assert x + pad == x;
    }
  }

  /** `trim` takes off exactly the padding around a trimmed, non-empty core. */
  lemma {:induction false} TrimPadded(before: string, x: string, after: string)
    requires AllTrimmable(before) && AllTrimmable(after) && x != [] && IsTrimmed(x)
    ensures Trim(before + (x + after)) == x
  {
    assert (x + after)[0] == x[0];
    TrimStartPadded(before, x + after);
    TrimEndPadded(x, after);
  }

  /** Characters `Character.isWhitespace` accepts, which `String.isBlank` tests for. */
  predicate IsJavaWhitespace(c: char) {
    || ('\t' <= c <= '\r')
    || ('\U{1C}' <= c <= '\U{1F}')
    || c == ' '
    || c == '\U{1680}'
    || ('\U{2000}' <= c <= '\U{2006}')
    || ('\U{2008}' <= c <= '\U{200A}')
    || c == '\U{2028}' || c == '\U{2029}' || c == '\U{205F}' || c == '\U{3000}'
  }

  /** `String.isBlank`. */
  predicate IsBlank(s: string) {
    forall i :: 0 <= i < |s| ==> IsJavaWhitespace(s[i])
  }

  // ---------------------------------------------------------------- lower case

  function ToLowerChar(c: char): char {
    if 'A' <= c <= 'Z' then (c as int + 32) as char else c
  }

  /** `String.toLowerCase`, restricted to the ASCII letters. */
  function ToLower(s: string): (r: string)
    ensures |r| == |s|
    ensures forall i :: 0 <= i < |s| ==> r[i] == ToLowerChar(s[i])
  {
    seq(|s|, i requires 0 <= i < |s| => ToLowerChar(s[i]))
  }

  predicate HasNoUpper(s: string) {
    forall i :: 0 <= i < |s| ==> !('A' <= s[i] <= 'Z')
  }

  lemma {:induction false} ToLowerOfLower(s: string)
    requires HasNoUpper(s)
    ensures ToLower(s) == s
  {
  }

  lemma {:induction false} ToLowerSlice(s: string, i: int, j: int)
    requires 0 <= i <= j <= |s|
    ensures ToLower(s)[i..j] == ToLower(s[i..j])
  {
  }

  // ---------------------------------------------------------------- replace

  /** `s.replace(p, "")`: every non-overlapping occurrence of `p`, found left to right, removed. */
  function RemoveAll(s: string, p: string): (r: string)
    requires |p| > 0
    ensures |r| <= |s|
    decreases |s|
  {
    if |s| < |p| then s
    else if StartsWith(s, p) then RemoveAll(s[|p|..], p)
    else [s[0]] + RemoveAll(s[1..], p)
  }

  lemma {:induction false} RemoveAllAbsent(s: string, p: string)
    requires |p| > 0 && !Contains(s, p)
    ensures RemoveAll(s, p) == s
    decreases |s|
  {
    if |s| >= |p| {
      RemoveAllAbsent(s[1..], p);
      assert [s[0]] + s[1..] == s;
    }
  }

  // ---------------------------------------------------------------- split("\\s+")

  /** The characters of Java's regex class `\s`. */
  predicate IsRegexSpace(c: char) {
    c == ' ' || ('\t' <= c <= '\r')
  }

  /** The longest prefix of `s` holding no `\s` character. */
  function WordPrefix(s: string): (r: string)
    ensures |r| <= |s| && r == s[..|r|]
    ensures forall i :: 0 <= i < |r| ==> !IsRegexSpace(r[i])
    ensures |r| < |s| ==> IsRegexSpace(s[|r|])
    decreases |s|
  {
    if s == [] || IsRegexSpace(s[0]) then [] else [s[0]] + WordPrefix(s[1..])
  }

  /**
   * The maximal runs of non-`\s` characters of `s`, in order. For a string whose first
   * and last characters are not `\s` (every non-empty trimmed line), this is what Java's
   * `s.split("\\s+")` returns.
   */
  function Tokens(s: string): (r: seq<string>)
    ensures forall k :: 0 <= k < |r| ==> r[k] != []
    decreases |s|
  {
    if s == [] then []
    else if IsRegexSpace(s[0]) then Tokens(s[1..])
    else
      var w := WordPrefix(s);
      [w] + Tokens(s[|w|..])
  }

  lemma {:induction false} WordPrefixOfWord(w: string, rest: string)
    requires forall i :: 0 <= i < |w| ==> !IsRegexSpace(w[i])
    requires rest == [] || IsRegexSpace(rest[0])
    ensures WordPrefix(w + rest) == w
    decreases |w|
  {
    if w == [] {
      assert w + rest == rest;
    } else {
      assert (w + rest)[1..] == w[1..] + rest;
      WordPrefixOfWord(w[1..], rest);
      assert [w[0]] + w[1..] == w;
    }
  }

  /** Splitting a word followed by nothing or by a `\s` character yields that word first. */
  lemma {:induction false} TokensCons(w: string, rest: string)
    requires w != [] && forall i :: 0 <= i < |w| ==> !IsRegexSpace(w[i])
    requires rest == [] || IsRegexSpace(rest[0])
    ensures Tokens(w + rest) == [w] + Tokens(rest)
  {
    WordPrefixOfWord(w, rest);
    assert (w + rest)[|w|..] == rest;
  }

  // ---------------------------------------------------------------- split(literal)

  /**
   * The pieces between the non-overlapping occurrences of `sep` in `s`, found left to
   * right, empty pieces included: one more piece than there are occurrences.
   */
  function Pieces(s: string, sep: string): (r: seq<string>)
    requires |sep| > 0
    ensures |r| >= 1
    decreases |s|
  {
    if |s| < |sep| then [s]
    else if StartsWith(s, sep) then [""] + Pieces(s[|sep|..], sep)
    else
      var rest := Pieces(s[1..], sep);
      [[s[0]] + rest[0]] + rest[1..]
  }

  function DropTrailingEmpty(ps: seq<string>): (r: seq<string>)
    ensures |r| <= |ps| && r == ps[..|r|]
    ensures r == [] || r[|r| - 1] != ""
    ensures forall k :: |r| <= k < |ps| ==> ps[k] == ""
    decreases |ps|
  {
    if ps != [] && ps[|ps| - 1] == "" then DropTrailingEmpty(ps[..|ps| - 1]) else ps
  }

  /**
   * `s.split(sep)` for a separator with no regex metacharacters: if `sep` does not occur
   * the result is `[s]` (so `"".split(sep)` is `[""]`); otherwise the pieces with trailing
   * empty ones dropped.
   */
  function SplitLiteral(s: string, sep: string): (r: seq<string>)
    requires |sep| > 0
  {
    var ps := Pieces(s, sep);
    if |ps| == 1 then [s] else DropTrailingEmpty(ps)
  }

  lemma {:induction false} PiecesAbsent(s: string, sep: string)
    requires |sep| > 0 && !Contains(s, sep)
    ensures Pieces(s, sep) == [s]
    decreases |s|
  {
    if |s| >= |sep| {
      PiecesAbsent(s[1..], sep);
      assert [s[0]] + s[1..] == s;
    }
  }

  /** A piece followed by the separator splits off as a whole, when no occurrence straddles it. */
  lemma {:induction false} PiecesAfterPiece(a: string, sep: string, b: string)
    requires |sep| > 0 && !Contains(a + sep[..|sep| - 1], sep)
    ensures Pieces(a + (sep + b), sep) == [a] + Pieces(b, sep)
    decreases |a|
  {
    var s := a + (sep + b);
    if a == [] {
      assert s == sep + b;
      assert s[..|sep|] == sep;
      assert s[|sep|..] == b;
    } else {
      var w := a + sep[..|sep| - 1];
      assert s[..|sep|] == w[..|sep|];
      if StartsWith(s, sep) {
        ContainsOfPrefix(w, sep);
      }
      assert !StartsWith(s, sep);
      assert s[1..] == a[1..] + (sep + b);
      assert w[1..] == a[1..] + sep[..|sep| - 1];
      PiecesAfterPiece(a[1..], sep, b);
      assert [a[0]] + a[1..] == a;
    }
  }

  /** Text without blanks cannot hold a run of blanks, even with up to three blanks after it. */
  lemma {:induction false} NoBlankRun(a: string, sep: string)
    requires ' ' !in a && |sep| > 0 && forall i :: 0 <= i < |sep| ==> sep[i] == ' '
    ensures !Contains(a + sep[..|sep| - 1], sep)
  {
    var w := a + sep[..|sep| - 1];
    forall i | 0 <= i <= |w| - |sep|
      ensures !OccursAt(w, sep, i)
    {
      assert w[i..i + |sep|][0] == w[i] == a[i];
    }
    ContainsIffOccurs(w, sep);
  }

  /** A word: non-empty, and free of `\s` and of everything `trim` would strip. */
  predicate IsWord(w: string) {
    w != [] && forall i :: 0 <= i < |w| ==> !IsRegexSpace(w[i]) && !IsTrimmable(w[i])
  }

  /** A non-empty run of `\s` characters: what `split("\\s+")` treats as one separator. */
  predicate IsSpaceRun(sep: string) {
    sep != [] && forall i :: 0 <= i < |sep| ==> IsRegexSpace(sep[i])
  }

  /** Text after a last word: nothing, or a `\s` character followed by anything not ending in a trimmable one. */
  predicate IsTail(extra: string) {
    extra == [] || (IsRegexSpace(extra[0]) && !IsTrimmable(extra[|extra| - 1]))
  }

  /** `\s` characters in front of the text add no token. */
  lemma {:induction false} TokensAfterSpaces(sep: string, r: string)
    requires forall i :: 0 <= i < |sep| ==> IsRegexSpace(sep[i])
    ensures Tokens(sep + r) == Tokens(r)
    decreases |sep|
  {
    if sep == [] {
      assert sep + r == r;
    } else {
      assert (sep + r)[1..] == sep[1..] + r;
      TokensAfterSpaces(sep[1..], r);
    }
  }

  /** A word followed by a run of `\s` characters is the first token, whatever comes after. */
  lemma {:induction false} TokensWordRun(w: string, sep: string, r: string)
    requires IsWord(w) && IsSpaceRun(sep)
    ensures Tokens(w + (sep + r)) == [w] + Tokens(r)
  {
    TokensCons(w, sep + r);
    TokensAfterSpaces(sep, r);
  }

  /** Two words separated by a run of `\s` characters, then a tail, split into those two words first. */
  lemma {:induction false} TwoWordTokens(b: string, sep: string, c: string, extra: string)
    requires IsWord(b) && IsSpaceRun(sep) && IsWord(c) && IsTail(extra)
    ensures Tokens(b + (sep + (c + extra))) == [b, c] + Tokens(extra)
  {
    TokensCons(c, extra);
    TokensWordRun(b, sep, c + extra);
  }

  /** Three words separated by runs of `\s` characters, then a tail, split into those three words first. */
  lemma {:induction false} ThreeWordTokens(a: string, s1: string, b: string, s2: string, c: string, extra: string)
    requires IsWord(a) && IsSpaceRun(s1) && IsWord(b) && IsSpaceRun(s2) && IsWord(c) && IsTail(extra)
    ensures Tokens(a + (s1 + (b + (s2 + (c + extra))))) == [a, b, c] + Tokens(extra)
  {
    var tail := Tokens(extra);
    TwoWordTokens(b, s2, c, extra);
    TokensWordRun(a, s1, b + (s2 + (c + extra)));
    assert [a] + ([b, c] + tail) == [a, b, c] + tail;
  }

  // ---------------------------------------------------------------- line text

  /** Every line followed by `"\n"`, concatenated: what a `StringBuilder` fed line by line holds. */
  function LineText(lines: seq<string>): string
    decreases |lines|
  {
    if lines == [] then "" else lines[0] + "\n" + LineText(lines[1..])
  }

  lemma {:induction false} LineTextAppend(lines: seq<string>, line: string)
    ensures LineText(lines + [line]) == LineText(lines) + line + "\n"
    decreases |lines|
  {
    if lines == [] {
      assert lines + [line] == [line];
    } else {
      assert (lines + [line])[1..] == lines[1..] + [line];
      LineTextAppend(lines[1..], line);
    }
  }

  /** The position of the first `'\n'` in `t`, or `|t|`. */
  function NewlineIndex(t: string): (i: nat)
    ensures i <= |t| && (i < |t| ==> t[i] == '\n')
    ensures forall k :: 0 <= k < i ==> t[k] != '\n'
    decreases |t|
  {
    if t == [] || t[0] == '\n' then 0 else 1 + NewlineIndex(t[1..])
  }

  /** Text cut at each `'\n'`, the way `BufferedReader.readLine` would read it back. */
  function LinesOf(t: string): seq<string>
    decreases |t|
  {
    if t == [] then []
    else
      var i := NewlineIndex(t);
      if i == |t| then [t] else [t[..i]] + LinesOf(t[i + 1..])
  }

  predicate HasNoNewline(line: string) {
    forall k :: 0 <= k < |line| ==> line[k] != '\n'
  }

  lemma {:induction false} NewlineIndexAfterLine(line: string, rest: string)
    requires HasNoNewline(line)
    ensures NewlineIndex(line + "\n" + rest) == |line|
    decreases |line|
  {
    if line != [] {
      assert (line + "\n" + rest)[1..] == line[1..] + "\n" + rest;
      NewlineIndexAfterLine(line[1..], rest);
    }
  }

  /** One line and its `'\n'` read back as that line, then the rest. */
  lemma {:induction false} LinesOfCons(line: string, rest: string)
    requires HasNoNewline(line)
    ensures LinesOf(line + "\n" + rest) == [line] + LinesOf(rest)
  {
    var t := line + "\n" + rest;
    NewlineIndexAfterLine(line, rest);
    assert t[..|line|] == line;
    assert t[|line| + 1..] == rest;
  }

  /** Reading the text back line by line gives the lines it was built from. */
  lemma {:induction false} LineTextRoundTrip(lines: seq<string>)
    requires forall k :: 0 <= k < |lines| ==> HasNoNewline(lines[k])
    ensures LinesOf(LineText(lines)) == lines
    decreases |lines|
  {
    if lines != [] {
      LinesOfCons(lines[0], LineText(lines[1..]));
      LineTextRoundTrip(lines[1..]);
      assert lines == [lines[0]] + lines[1..];
    }
  }
}

/**
 * `SoftwareInfo.parseCsvLine`, the tokenizer applied to `driverquery /FO CSV` rows. It is
 * not RFC 4180: a `"` only toggles the in-quotes state and is dropped (so a doubled quote
 * is no escape), and a `,` ends the current token only outside quotes.
 */
module CsvLine {

  // ---------------------------------------------------------------- reference definition

  /** `p` glued to the front of the first token of `r`. */
  function Prepend(p: string, r: seq<string>): (r': seq<string>)
    requires |r| >= 1
    ensures |r'| == |r| && r'[0] == p + r[0] && r'[1..] == r[1..]
  {
    [p + r[0]] + r[1..]
  }

  lemma {:induction false} PrependEmpty(r: seq<string>)
    requires |r| >= 1
    ensures Prepend("", r) == r
  {
    assert "" + r[0] == r[0];
    assert [r[0]] + r[1..] == r;
  }

  lemma {:induction false} PrependTwice(p: string, q: string, r: seq<string>)
    requires |r| >= 1
    ensures Prepend(p, Prepend(q, r)) == Prepend(p + q, r)
  {
    assert p + (q + r[0]) == (p + q) + r[0];
  }

  lemma {:induction false} PrependOnEmptyToken(p: string, r: seq<string>)
    ensures Prepend(p, [""] + r) == [p] + r
  {
    assert p + "" == p;
    assert ([""] + r)[1..] == r;
  }

  /** The tokens of `s`, read starting inside quotes when `quoted` holds. */
  function CsvSplit(s: string, quoted: bool): (r: seq<string>)
    ensures |r| >= 1
    decreases |s|
  {
    if s == [] then [""]
    else if s[0] == '"' then CsvSplit(s[1..], !quoted)
    else if s[0] == ',' && !quoted then [""] + CsvSplit(s[1..], quoted)
    else Prepend([s[0]], CsvSplit(s[1..], quoted))
  }

  /** Whether the reader is inside quotes after `s`, having started in state `quoted`. */
  function QuotedAfter(s: string, quoted: bool): bool
    decreases |s|
  {
    if s == [] then quoted
    else QuotedAfter(s[1..], if s[0] == '"' then !quoted else quoted)
  }

  /** The commas of `s` that fall outside quotes. */
  function CommasOutside(s: string, quoted: bool): nat
    decreases |s|
  {
    if s == [] then 0
    else if s[0] == '"' then CommasOutside(s[1..], !quoted)
    else (if s[0] == ',' && !quoted then 1 else 0) + CommasOutside(s[1..], quoted)
  }

  /** `s` with every `"` removed. */
  function StripQuotes(s: string): string
    decreases |s|
  {
    if s == [] then ""
    else (if s[0] == '"' then "" else [s[0]]) + StripQuotes(s[1..])
  }

  /** `String.join(",", ts)`. */
  function JoinComma(ts: seq<string>): string
    requires |ts| >= 1
    decreases |ts|
  {
    if |ts| == 1 then ts[0] else ts[0] + "," + JoinComma(ts[1..])
  }

  // ---------------------------------------------------------------- the source's loop

  /**
   * The loop's invariant after `i` characters: the tokens already added, then the tokens
   * still to come with the buffer `sb` in front, are the tokens of the whole line.
   */
  predicate LoopState(line: string, i: int, tokens: seq<string>, sb: string, quoted: bool) {
    0 <= i <= |line| && tokens + Prepend(sb, CsvSplit(line[i..], quoted)) == CsvSplit(line, false)
  }

  /** One character of the loop keeps its invariant. */
  lemma {:induction false} CsvStep(line: string, i: int, tokens: seq<string>, sb: string, quoted: bool)
    requires i < |line| && LoopState(line, i, tokens, sb, quoted)
    ensures line[i] == '"' ==> LoopState(line, i + 1, tokens, sb, !quoted)
    ensures line[i] == ',' && !quoted ==> LoopState(line, i + 1, tokens + [sb], "", quoted)
    ensures line[i] != '"' && !(line[i] == ',' && !quoted) ==>
              LoopState(line, i + 1, tokens, sb + [line[i]], quoted)
  {
    var s := line[i..];
    assert s[0] == line[i] && s[1..] == line[i + 1..];
    var rest := CsvSplit(line[i + 1..], quoted);
    if line[i] == ',' && !quoted {
      PrependOnEmptyToken(sb, rest);
      PrependEmpty(rest);
      assert tokens + ([sb] + rest) == (tokens + [sb]) + rest;
    } else if line[i] != '"' {
      PrependTwice(sb, [line[i]], rest);
    }
  }

  /** The character loop of `parseCsvLine`, with its token list, buffer and quote flag. */
  method ParseCsvLine(line: string) returns (tokens: seq<string>)
    ensures tokens == CsvSplit(line, false)
  {
    tokens := [];
    var quoted := false;
    var sb := "";
    var i := 0;
    assert line[0..] == line;
    PrependEmpty(CsvSplit(line, false));
    while i < |line|
      invariant LoopState(line, i, tokens, sb, quoted)
    {
      var c := line[i];
      CsvStep(line, i, tokens, sb, quoted);
      if c == '"' {
        quoted := !quoted;
      } else if c == ',' && !quoted {
        tokens := tokens + [sb];
        sb := "";
      } else {
        sb := sb + [c];
      }
      i := i + 1;
    }
    assert line[i..] == [];
    assert sb + "" == sb;
    tokens := tokens + [sb];
  }

  // ---------------------------------------------------------------- properties

  /** `join` of a token list with more than one token: the first, a comma, the rest joined. */
  lemma {:induction false} JoinCons(t: string, ts: seq<string>)
    requires |ts| >= 1
    ensures JoinComma([t] + ts) == t + "," + JoinComma(ts)
  {
    assert ([t] + ts)[1..] == ts;
  }

  lemma {:induction false} JoinPrepend(p: string, r: seq<string>)
    requires |r| >= 1
    ensures JoinComma(Prepend(p, r)) == p + JoinComma(r)
  {
    if |r| > 1 {
      var head := r[0];
      var tail := r[1..];
      var j := JoinComma(tail);
      assert r == [head] + tail;
      assert Prepend(p, r) == [p + head] + tail;
      JoinCons(head, tail);
      JoinCons(p + head, tail);
      assert JoinComma(r) == head + "," + j;
      assert JoinComma(Prepend(p, r)) == (p + head) + "," + j;
      assert (p + head) + "," + j == p + (head + "," + j);
    }
  }

  /** Joining the tokens with commas gives back the line without its quotes. */
  lemma {:induction false} JoinIsStripQuotes(s: string, quoted: bool)
    ensures JoinComma(CsvSplit(s, quoted)) == StripQuotes(s)
    decreases |s|
  {
    if s != [] {
      JoinIsStripQuotes(s[1..], quoted);
      JoinIsStripQuotes(s[1..], !quoted);
      if s[0] == '"' {
      } else if s[0] == ',' && !quoted {
        var r := CsvSplit(s[1..], quoted);
        assert ([""] + r)[1..] == r;
      } else {
        JoinPrepend([s[0]], CsvSplit(s[1..], quoted));
      }
    }
  }

  /** One token more than there are commas outside quotes. */
  lemma {:induction false} TokenCount(s: string, quoted: bool)
    ensures |CsvSplit(s, quoted)| == 1 + CommasOutside(s, quoted)
    decreases |s|
  {
    if s != [] {
      TokenCount(s[1..], quoted);
      TokenCount(s[1..], !quoted);
    }
  }

  /** Quote characters never reach a token. */
  lemma {:induction false} NoQuoteInTokens(s: string, quoted: bool)
    ensures forall k :: 0 <= k < |CsvSplit(s, quoted)| ==> '"' !in CsvSplit(s, quoted)[k]
    decreases |s|
  {
    if s != [] {
      NoQuoteInTokens(s[1..], quoted);
      NoQuoteInTokens(s[1..], !quoted);
      if s[0] != '"' && !(s[0] == ',' && !quoted) {
        var r := CsvSplit(s[1..], quoted);
        assert '"' !in r[0];
        assert '"' !in [s[0]] + r[0];
        var r' := Prepend([s[0]], r);
        forall k | 0 <= k < |r'|
          ensures '"' !in r'[k]
        {
          if k > 0 { assert r'[k] == r[k]; }
        }
      }
    }
  }

  /** The last token of `a` glued to the first of `b`: the tokens of two adjacent pieces. */
  function Glue(a: seq<string>, b: seq<string>): (r: seq<string>)
    requires |a| >= 1 && |b| >= 1
    ensures |r| == |a| + |b| - 1
  {
    a[..|a| - 1] + [a[|a| - 1] + b[0]] + b[1..]
  }

  lemma {:induction false} GlueEmpty(b: seq<string>)
    requires |b| >= 1
    ensures Glue([""], b) == b
  {
    assert "" + b[0] == b[0];
    assert Glue([""], b) == [b[0]] + b[1..];
    assert [b[0]] + b[1..] == b;
  }

  lemma {:induction false} GlueCons(a: seq<string>, b: seq<string>)
    requires |a| >= 1 && |b| >= 1
    ensures Glue([""] + a, b) == [""] + Glue(a, b)
  {
    assert ([""] + a)[..|a|] == [""] + a[..|a| - 1];
  }

  lemma {:induction false} GluePrepend(c: char, a: seq<string>, b: seq<string>)
    requires |a| >= 1 && |b| >= 1
    ensures Prepend([c], Glue(a, b)) == Glue(Prepend([c], a), b)
  {
    if |a| == 1 {
      assert Glue(a, b) == [a[0] + b[0]] + b[1..];
      assert Prepend([c], a) == [[c] + a[0]];
      assert [c] + (a[0] + b[0]) == ([c] + a[0]) + b[0];
    } else {
      var pa := Prepend([c], a);
      assert pa[..|pa| - 1] == [[c] + a[0]] + a[1..|a| - 1];
      assert a[..|a| - 1] == [a[0]] + a[1..|a| - 1];
    }
  }

  /** The tokens of a concatenation: those of each part, the boundary token shared. */
  lemma {:induction false} SplitConcat(s: string, t: string, quoted: bool)
    ensures CsvSplit(s + t, quoted) == Glue(CsvSplit(s, quoted), CsvSplit(t, QuotedAfter(s, quoted)))
    decreases |s|
  {
    if s == [] {
      assert s + t == t;
      GlueEmpty(CsvSplit(t, quoted));
    } else {
      assert (s + t)[0] == s[0] && (s + t)[1..] == s[1..] + t;
      var q := if s[0] == '"' then !quoted else quoted;
      SplitConcat(s[1..], t, q);
      var b := CsvSplit(t, QuotedAfter(s, quoted));
      if s[0] == '"' {
      } else if s[0] == ',' && !quoted {
        GlueCons(CsvSplit(s[1..], quoted), b);
      } else {
        GluePrepend(s[0], CsvSplit(s[1..], quoted), b);
      }
    }
  }

  /** A comma after the line's last quote is closed leaves an empty last token. */
  lemma {:induction false} TrailingCommaEmptyToken(s: string)
    requires !QuotedAfter(s, false)
    ensures var r := CsvSplit(s + ",", false);
            |r| == |CsvSplit(s, false)| + 1 && r[|r| - 1] == ""
  {
    SplitConcat(s, ",", false);
    assert ","[1..] == [];
    assert CsvSplit(",", false) == ["", ""];
  }

  /** The empty line is one empty token. */
  lemma {:induction false} EmptyLineOneToken()
    ensures CsvSplit("", false) == [""]
  {
  }

  /** A field without quotes, read inside quotes up to a closing quote, is one token's text. */
  lemma {:induction false} QuotedField(f: string, rest: string)
    requires '"' !in f
    ensures CsvSplit(f + ("\"" + rest), true) == Prepend(f, CsvSplit(rest, false))
    decreases |f|
  {
    if f == [] {
      assert f + ("\"" + rest) == "\"" + rest;
      assert ("\"" + rest)[1..] == rest;
      PrependEmpty(CsvSplit(rest, false));
    } else {
      var s := f + ("\"" + rest);
      assert s[0] == f[0] && s[1..] == f[1..] + ("\"" + rest);
      QuotedField(f[1..], rest);
      var r := CsvSplit(rest, false);
      PrependTwice([f[0]], f[1..], r);
      assert [f[0]] + f[1..] == f;
    }
  }

  /** Every field wrapped in quotes, joined with commas: the shape `driverquery` prints. */
  function JoinQuoted(fs: seq<string>): string
    requires |fs| >= 1
    decreases |fs|
  {
    if |fs| == 1 then "\"" + (fs[0] + "\"")
    else "\"" + (fs[0] + ("\"" + ("," + JoinQuoted(fs[1..]))))
  }

  /** Fields written as a quoted CSV row, commas inside them included, read back unchanged. */
  lemma {:induction false} QuotedRoundTrip(fs: seq<string>)
    requires |fs| >= 1
    requires forall k :: 0 <= k < |fs| ==> '"' !in fs[k]
    ensures CsvSplit(JoinQuoted(fs), false) == fs
    decreases |fs|
  {
    var f := fs[0];
    var rest := if |fs| == 1 then "" else "," + JoinQuoted(fs[1..]);
    assert JoinQuoted(fs) == "\"" + (f + ("\"" + rest));
    assert ("\"" + (f + ("\"" + rest)))[1..] == f + ("\"" + rest);
    QuotedField(f, rest);
    if |fs| == 1 {
      assert CsvSplit(rest, false) == [""];
      assert f + "" == f;
      assert fs == [f];
    } else {
      assert forall k :: 0 <= k < |fs[1..]| ==> fs[1..][k] == fs[k + 1];
      QuotedRoundTrip(fs[1..]);
      var tail := JoinQuoted(fs[1..]);
      assert rest[0] == ',' && rest[1..] == tail;
      assert CsvSplit(rest, false) == [""] + fs[1..];
      PrependOnEmptyToken(f, fs[1..]);
      assert fs == [f] + fs[1..];
    }
  }

  /** `"a,b",c`: the quoted comma stays in its token. */
  lemma {:induction false} QuotedCommaExample(line: string)
    requires line == "\"a,b\",c"
    ensures CsvSplit(line, false) == ["a,b", "c"]
  {
    assert line[0] == '"';
    assert line[1..] == "a,b" + ("\"" + ",c");
    QuotedField("a,b", ",c");
    assert ",c"[0] == ',' && ",c"[1..] == "c";
    assert "c"[0] == 'c' && "c"[1..] == "";
    assert "c" + "" == "c";
    assert CsvSplit("c", false) == Prepend("c", [""]) == ["c"];
    assert CsvSplit(",c", false) == [""] + ["c"];
    PrependOnEmptyToken("a,b", ["c"]);
  }

  /** `"a""b"`: the doubled quote closes and reopens quoting, it does not stand for a quote. */
  lemma {:induction false} DoubledQuoteExample(line: string)
    requires line == "\"a\"\"b\""
    ensures CsvSplit(line, false) == ["ab"]
  {
    assert line[0] == '"';
    assert line[1..] == "a" + ("\"" + "\"b\"");
    QuotedField("a", "\"b\"");
    var t := "\"b\"";
    assert t[0] == '"' && t[1..] == "b" + ("\"" + "");
    QuotedField("b", "");
    assert CsvSplit("", false) == [""];
    assert "b" + "" == "b";
    assert CsvSplit(t, false) == Prepend("b", [""]) == ["b"];
    assert "a" + "b" == "ab";
  }
}

/**
 * Tokens of one clause: white space outside quotes and parentheses separates
 * words, a '(' there starts a parenthesised group, and quoted text stays whole.
 */
module Lexer {
  import opened Wrappers
  import opened Text
  import opened Scanner

  function Flush(cur: string): seq<string> {
    if cur == [] then [] else [cur]
  }

  function Tok(s: string, st: ScanState, cur: string): (r: seq<string>)
    ensures forall k :: 0 <= k < |r| ==> r[k] != []
    decreases |s|
  {
    if s == [] then Flush(cur)
    else if st == Start && IsSpace(s[0]) then Flush(cur) + Tok(s[1..], Start, [])
    else if st == Start && s[0] == '(' then Flush(cur) + Tok(s[1..], Step(st, s[0]), [s[0]])
    else Tok(s[1..], Step(st, s[0]), cur + [s[0]])
  }

  function Tokens(s: string): seq<string> {
    Tok(s, Start, [])
  }

  /** A parenthesised group token such as `(500)` or `(`id`)`. */
  predicate IsGroup(t: string) {
    |t| >= 2 && t[0] == '('
  }

  /** Text with no white space, quote or parenthesis: a token on its own. */
  predicate IsPlain(x: string) {
    forall k :: 0 <= k < |x| ==> !IsSpace(x[k]) && !IsQuoteChar(x[k]) && x[k] != '(' && x[k] != ')'
  }

  // ---- quoting ----

  /** Doubles every `q` in `x`. */
  function Escape(x: string, q: char): string {
    if x == [] then [] else (if x[0] == q then [q, q] else [x[0]]) + Escape(x[1..], q)
  }

  /** Collapses every doubled `q` in `x` to one. */
  function Unescape(x: string, q: char): string {
    if |x| >= 2 && x[0] == q && x[1] == q then [q] + Unescape(x[2..], q)
    else if x == [] then []
    else [x[0]] + Unescape(x[1..], q)
  }

  /** `x` as a quoted identifier or literal. */
  function Quoted(x: string, q: QuoteChar): string {
    [q] + Escape(x, q) + [q]
  }

  /** Strips one pair of matching surrounding quotes and undoes the doubling inside. */
  function Unquote(t: string): string {
    if |t| >= 2 && IsQuoteChar(t[0]) && t[|t| - 1] == t[0] then Unescape(t[1..|t| - 1], t[0]) else t
  }

  lemma {:induction false} UnescapeEscape(x: string, q: char)
    ensures Unescape(Escape(x, q), q) == x
    decreases |x|
  {
    if x != [] {
      UnescapeEscape(x[1..], q);
      var e := Escape(x[1..], q);
      if x[0] == q {
        assert Escape(x, q) == [q, q] + e;
        assert ([q, q] + e)[2..] == e;
      } else {
        assert Escape(x, q) == [x[0]] + e;
        assert ([x[0]] + e)[1..] == e;
      }
      assert [x[0]] + x[1..] == x;
    }
  }

  /** Quoting round-trips: the quotes come off and every doubled quote is single again. */
  lemma UnquoteQuoted(x: string, q: QuoteChar)
    ensures Unquote(Quoted(x, q)) == x
  {
    var t := Quoted(x, q);
    assert t[1..|t| - 1] == Escape(x, q);
    UnescapeEscape(x, q);
  }

  // ---- how text splits into tokens ----

  /**
   * Where the scan is back outside every quote and parenthesis, white space or a '('
   * ends the token in progress, and the rest is tokenized afresh.
   */
  lemma {:induction false} TokBreak(a: string, t: string, st: ScanState, cur: string)
    requires Scan(a, st) == Some(Start)
    requires t != [] && (IsSpace(t[0]) || t[0] == '(')
    ensures Tok(a + t, st, cur) == Tok(a, st, cur) + Tok(t, Start, [])
    decreases |a|
  {
    if a == [] {
      assert a + t == t;
      assert t[1..] == t[1..];
    } else {
      assert (a + t)[0] == a[0] && (a + t)[1..] == a[1..] + t;
      var st' := Step(st, a[0]);
      if st == Start && IsSpace(a[0]) {
        TokBreak(a[1..], t, Start, []);
      } else if st == Start && a[0] == '(' {
        TokBreak(a[1..], t, st', [a[0]]);
      } else {
        TokBreak(a[1..], t, st', cur + [a[0]]);
      }
    }
  }

  /** Leading white space produces no token. */
  lemma {:induction false} TokensBlankPrefix(w: string, b: string)
    requires IsBlank(w)
    ensures Tokens(w + b) == Tokens(b)
    decreases |w|
  {
    if w == [] {
      assert w + b == b;
    } else {
      assert (w + b)[0] == w[0] && (w + b)[1..] == w[1..] + b;
      TokensBlankPrefix(w[1..], b);
    }
  }

  /** A run of white space outside quotes and parentheses separates: the tokens on either side just concatenate. */
  lemma TokensSplit(a: string, w: string, b: string)
    requires Scan(a, Start) == Some(Start)
    requires w != [] && IsBlank(w)
    ensures Tokens(a + w + b) == Tokens(a) + Tokens(b)
  {
    assert a + w + b == a + (w + b);
    TokBreak(a, w + b, Start, []);
    TokensBlankPrefix(w, b);
  }

  /** How much white space separates two parts of a clause does not change its tokens. */
  lemma TokensWhitespaceInsensitive(a: string, w1: string, w2: string, b: string)
    requires Scan(a, Start) == Some(Start)
    requires w1 != [] && IsBlank(w1) && w2 != [] && IsBlank(w2)
    ensures Tokens(a + w1 + b) == Tokens(a + w2 + b)
  {
    TokensSplit(a, w1, b);
    TokensSplit(a, w2, b);
  }

  /** A '(' straight after a token starts a new token. */
  lemma TokensGroupAfter(a: string, g: string)
    requires Scan(a, Start) == Some(Start)
    requires g != [] && g[0] == '('
    ensures Tokens(a + g) == Tokens(a) + Tokens(g)
  {
    TokBreak(a, g, Start, []);
  }

  // ---- single tokens ----

  lemma {:induction false} TokPlain(x: string, cur: string)
    requires IsPlain(x)
    ensures Tok(x, Start, cur) == Flush(cur + x)
    ensures Scan(x, Start) == Some(Start)
    decreases |x|
  {
    if x == [] {
      assert cur + x == cur;
    } else {
      assert Step(Start, x[0]) == Start;
      assert IsPlain(x[1..]);
      TokPlain(x[1..], cur + [x[0]]);
      assert cur + [x[0]] + x[1..] == cur + x;
    }
  }

  /** A plain word is one token, and scanning it leaves the scan where it was. */
  lemma TokensOfWord(x: string)
    requires x != [] && IsPlain(x)
    ensures Tokens(x) == [x] && Scan(x, Start) == Some(Start)
  {
    TokPlain(x, []);
    assert [] + x == x;
  }

  /** Inside a quote, the rest of a quoted literal joins the token in progress. */
  lemma {:induction false} TokInsideQuote(x: string, q: QuoteChar, d: int, cur: string)
    requires d >= 0
    ensures Tok(Escape(x, q) + [q], ScanState(d, InQuote(q)), cur) == [cur + Escape(x, q) + [q]]
    decreases |x|
  {
    var inq := ScanState(d, InQuote(q));
    var out := ScanState(d, NoQuote);
    var s := Escape(x, q) + [q];
    if x == [] {
      assert Escape(x, q) == [] && s == [q] && s[1..] == [];
      calc {
        Tok(s, inq, cur);
        Tok(s[1..], out, cur + [q]);
        Flush(cur + [q]);
        { assert cur + [q] == cur + Escape(x, q) + [q]; }
        [cur + Escape(x, q) + [q]];
      }
    } else if x[0] == q {
      var e := Escape(x[1..], q);
      TokInsideQuote(x[1..], q, d, cur + [q] + [q]);
      assert s == [q, q] + (e + [q]);
      var s1 := s[1..];
      assert s1 == [q] + (e + [q]) && s1[1..] == e + [q];
      calc {
        Tok(s, inq, cur);
        Tok(s1, out, cur + [q]);
        Tok(s1[1..], inq, cur + [q] + [q]);
        [cur + [q] + [q] + e + [q]];
        { assert cur + [q] + [q] + e + [q] == cur + Escape(x, q) + [q]; }
        [cur + Escape(x, q) + [q]];
      }
    } else {
      var e := Escape(x[1..], q);
      TokInsideQuote(x[1..], q, d, cur + [x[0]]);
      assert s == [x[0]] + (e + [q]) && s[1..] == e + [q];
      calc {
        Tok(s, inq, cur);
        Tok(s[1..], inq, cur + [x[0]]);
        [cur + [x[0]] + e + [q]];
        { assert cur + [x[0]] + e + [q] == cur + Escape(x, q) + [q]; }
        [cur + Escape(x, q) + [q]];
      }
    }
  }

  /** Scanning the rest of a quoted literal closes the quote and keeps the depth. */
  lemma {:induction false} ScanInsideQuote(x: string, q: QuoteChar, d: int)
    requires d >= 0
    ensures Scan(Escape(x, q) + [q], ScanState(d, InQuote(q))) == Some(ScanState(d, NoQuote))
    decreases |x|
  {
    var inq := ScanState(d, InQuote(q));
    var out := ScanState(d, NoQuote);
    var s := Escape(x, q) + [q];
    if x == [] {
      assert s == [q] && s[1..] == [];
      assert Scan(s, inq) == Scan(s[1..], out);
    } else if x[0] == q {
      ScanInsideQuote(x[1..], q, d);
      assert s == [q, q] + (Escape(x[1..], q) + [q]);
      var s1 := s[1..];
      assert s1 == [q] + (Escape(x[1..], q) + [q]) && s1[1..] == Escape(x[1..], q) + [q];
      assert Scan(s, inq) == Scan(s1, out) == Scan(s1[1..], inq);
    } else {
      ScanInsideQuote(x[1..], q, d);
      assert s == [x[0]] + (Escape(x[1..], q) + [q]) && s[1..] == Escape(x[1..], q) + [q];
      assert Scan(s, inq) == Scan(s[1..], inq);
    }
  }

  /** The same for Run: a comma inside a quoted literal never separates. */
  lemma {:induction false} RunInsideQuote(x: string, q: QuoteChar, d: int)
    requires d >= 0
    ensures Run(Escape(x, q) + [q], ScanState(d, InQuote(q))) == Some(ScanState(d, NoQuote))
    decreases |x|
  {
    var inq := ScanState(d, InQuote(q));
    var out := ScanState(d, NoQuote);
    var s := Escape(x, q) + [q];
    if x == [] {
      assert s == [q] && s[1..] == [];
      assert Run(s, inq) == Run(s[1..], out);
    } else if x[0] == q {
      RunInsideQuote(x[1..], q, d);
      assert s == [q, q] + (Escape(x[1..], q) + [q]);
      var s1 := s[1..];
      assert s1 == [q] + (Escape(x[1..], q) + [q]) && s1[1..] == Escape(x[1..], q) + [q];
      assert Run(s, inq) == Run(s1, out) == Run(s1[1..], inq);
    } else {
      RunInsideQuote(x[1..], q, d);
      assert s == [x[0]] + (Escape(x[1..], q) + [q]) && s[1..] == Escape(x[1..], q) + [q];
      assert Run(s, inq) == Run(s[1..], inq);
    }
  }

  /**
   * A quoted literal is one token whatever it holds (spaces, commas, parentheses,
   * doubled quotes), is balanced, and never splits a clause.
   */
  lemma TokensOfQuoted(x: string, q: QuoteChar)
    ensures Tokens(Quoted(x, q)) == [Quoted(x, q)]
    ensures Scan(Quoted(x, q), Start) == Some(Start)
    ensures IsClause(Quoted(x, q))
  {
    var t := Quoted(x, q);
    assert t[0] == q && t[1..] == Escape(x, q) + [q];
    assert Step(Start, q) == ScanState(0, InQuote(q));
    var e: string := [];
    assert e + [q] == [q];
    assert Tok(t, Start, e) == Tok(t[1..], ScanState(0, InQuote(q)), [q]);
    TokInsideQuote(x, q, 0, [q]);
    ScanInsideQuote(x, q, 0);
    RunInsideQuote(x, q, 0);
    assert [q] + Escape(x, q) + [q] == t;
  }

  /** The same, from any unquoted state: a quoted literal leaves the depth as it found it. */
  lemma ScanQuoted(x: string, q: QuoteChar, d: int)
    requires d >= 0
    ensures Scan(Quoted(x, q), ScanState(d, NoQuote)) == Some(ScanState(d, NoQuote))
  {
    var t := Quoted(x, q);
    assert t[0] == q && t[1..] == Escape(x, q) + [q];
    ScanInsideQuote(x, q, d);
  }

  lemma {:induction false} TokUntilClose(x: string, st: ScanState, cur: string)
    requires st.depth >= 1
    requires forall k :: 0 <= k < |x| ==> x[k] != '(' && x[k] != ')'
    ensures Tok(x + ")", st, cur) == [cur + x + ")"]
    decreases |x|
  {
    if x == [] {
      var t := x + ")";
      assert t == ")" && t[1..] == [];
      assert cur + x + ")" == cur + ")";
      assert Tok(t, st, cur) == Tok([], Step(st, ')'), cur + ")");
    } else {
      assert (x + ")")[0] == x[0] && (x + ")")[1..] == x[1..] + ")";
      TokUntilClose(x[1..], Step(st, x[0]), cur + [x[0]]);
      assert cur + [x[0]] + x[1..] == cur + x;
    }
  }

  /** A parenthesised group with no nested parenthesis is one token. */
  lemma TokensOfGroup(x: string)
    requires forall k :: 0 <= k < |x| ==> x[k] != '(' && x[k] != ')'
    ensures Tokens("(" + x + ")") == ["(" + x + ")"]
  {
    var t := "(" + x + ")";
    assert t[0] == '(' && t[1..] == x + ")";
    TokUntilClose(x, ScanState(1, NoQuote), "(");
  }

  lemma {:induction false} RunName(n: string, st: ScanState)
    requires st.quote == NoQuote && st.depth >= 0
    requires forall k :: 0 <= k < |n| ==> IsNameChar(n[k])
    ensures Run(n, st) == Some(st) && Scan(n, st) == Some(st)
    decreases |n|
  {
    if n != [] {
      assert Step(st, n[0]) == st && !IsSeparator(st, n[0]);
      RunName(n[1..], st);
    }
  }

  /** A bare name is one token and one clause. */
  lemma TokensOfName(n: string)
    requires IsName(n)
    ensures Tokens(n) == [n] && Scan(n, Start) == Some(Start) && IsClause(n)
  {
    TokensOfWord(n);
    RunName(n, Start);
  }

  /** The first token produced while `cur` is pending starts with `cur`, and grows past it inside quotes or parentheses. */
  lemma {:induction false} TokFirst(s: string, st: ScanState, cur: string)
    requires cur != []
    ensures |Tok(s, st, cur)| >= 1 && |Tok(s, st, cur)[0]| >= |cur| && Tok(s, st, cur)[0][..|cur|] == cur
    ensures s != [] && st != Start ==> |Tok(s, st, cur)[0]| > |cur|
    decreases |s|
  {
    if s == [] {
    } else if st == Start && IsSpace(s[0]) {
    } else if st == Start && s[0] == '(' {
    } else {
      var cur' := cur + [s[0]];
      TokFirst(s[1..], Step(st, s[0]), cur');
      var t := Tok(s, st, cur)[0];
      assert t[..|cur'|][..|cur|] == cur;
    }
  }

  /** A clause that starts with '(' starts with a group token. */
  lemma TokensOfGroupStart(s: string)
    requires |s| >= 2 && s[0] == '('
    ensures |Tokens(s)| >= 1 && IsGroup(Tokens(s)[0])
  {
    var open := ScanState(1, NoQuote);
    var e: string := [];
    assert Step(Start, '(') == open;
    assert Tokens(s) == Flush(e) + Tok(s[1..], open, "(");
    TokFirst(s[1..], open, "(");
    assert Tok(s[1..], open, "(")[0][..1] == "(";
  }

  // ---- clauses laid out as words and white space ----

  /** Text that is exactly one token and leaves the scan outside every quote and parenthesis. */
  predicate IsWordToken(t: string) {
    t != [] && Tokens(t) == [t] && Scan(t, Start) == Some(Start)
  }

  /** A valid gap between two words: white space, which may be empty only before a '('. */
  predicate IsGap(gap: string, next: string) {
    IsBlank(gap) && (gap != [] || (next != [] && next[0] == '('))
  }

  /** The words `ws` with the gap `gaps[k]` between `ws[k]` and `ws[k + 1]`. */
  function Layout(ws: seq<string>, gaps: seq<string>): string
    requires |ws| >= 1 && |gaps| == |ws| - 1
  {
    if |ws| == 1 then ws[0] else ws[0] + gaps[0] + Layout(ws[1..], gaps[1..])
  }

  lemma LayoutStart(ws: seq<string>, gaps: seq<string>)
    requires |ws| >= 1 && |gaps| == |ws| - 1 && ws[0] != []
    ensures Layout(ws, gaps) != [] && Layout(ws, gaps)[0] == ws[0][0]
  {
  }

  /**
   * Whatever white space separates them, words laid out in a clause come back as its
   * tokens: the tokens of a clause do not depend on its layout.
   */
  lemma {:induction false} TokensOfLayout(ws: seq<string>, gaps: seq<string>)
    requires |ws| >= 1 && |gaps| == |ws| - 1
    requires forall k :: 0 <= k < |ws| ==> IsWordToken(ws[k])
    requires forall k :: 0 <= k < |gaps| ==> IsGap(gaps[k], ws[k + 1])
    ensures Tokens(Layout(ws, gaps)) == ws
    ensures Scan(Layout(ws, gaps), Start) == Some(Start)
    decreases |ws|
  {
    if |ws| > 1 {
      var rest := Layout(ws[1..], gaps[1..]);
      TokensOfLayout(ws[1..], gaps[1..]);
      LayoutStart(ws[1..], gaps[1..]);
      assert IsWordToken(ws[0]) && IsGap(gaps[0], ws[1]);
      WordThenGap(ws[0], gaps[0], ws[1], rest);
    }
  }

  /** One word, a gap and the rest of a balanced clause: the word is the first token. */
  lemma WordThenGap(w: string, g: string, next: string, rest: string)
    requires IsWordToken(w) && IsGap(g, next)
    requires rest != [] && next != [] && rest[0] == next[0] && Scan(rest, Start) == Some(Start)
    ensures Tokens(w + g + rest) == [w] + Tokens(rest)
    ensures Scan(w + g + rest, Start) == Some(Start)
  {
    if g == [] {
      assert w + g + rest == w + rest;
      TokensGroupAfter(w, rest);
    } else {
      TokensSplit(w, g, rest);
    }
    ScanConcat(w, g + rest, Start);
    ScanConcat(g, rest, Start);
    ScanBlank(g, Start);
    assert w + g + rest == w + (g + rest);
  }

  lemma {:induction false} ScanBlank(w: string, st: ScanState)
    requires IsBlank(w) && st.quote == NoQuote && st.depth >= 0
    ensures Scan(w, st) == Some(st)
    decreases |w|
  {
    if w != [] {
      assert Step(st, w[0]) == st;
      ScanBlank(w[1..], st);
    }
  }

  /** Bare names and quoted literals are word tokens. */
  lemma NameIsWord(n: string)
    requires IsName(n)
    ensures IsWordToken(n)
  {
    TokensOfName(n);
  }

  lemma QuotedIsWord(x: string, q: QuoteChar)
    ensures IsWordToken(Quoted(x, q))
  {
    TokensOfQuoted(x, q);
  }

  /** A parenthesised run of names and commas, such as "(500)" or "(10,2)", is a word token. */
  lemma PlainGroupIsWord(x: string)
    requires forall k :: 0 <= k < |x| ==> IsNameChar(x[k]) || x[k] == ',' || x[k] == ' '
    ensures IsWordToken("(" + x + ")")
  {
    var g := "(" + x + ")";
    var open := ScanState(1, NoQuote);
    TokensOfGroup(x);
    assert g[0] == '(' && g[1..] == x + ")";
    assert Step(Start, '(') == open;
    ScanConcat(x, ")", open);
    ScanPlain(x, open);
    assert Step(open, ')') == Start;
  }

  /**
   * A clause followed by a group holding one quoted name is still one clause:
   * `REFERENCES \`users\`(\`id\`)` does not split.
   */
  lemma ClauseThenQuotedGroup(a: string, n: string, q: QuoteChar)
    requires IsClause(a)
    ensures IsClause(a + "(" + Quoted(n, q) + ")")
  {
    var open := ScanState(1, NoQuote);
    var x := Quoted(n, q);
    assert x[0] == q && x[1..] == Escape(n, q) + [q];
    assert Step(open, q) == ScanState(1, InQuote(q));
    RunInsideQuote(n, q, 1);
    assert Run(x, open) == Some(open);
    RunConcat(a, "(", Start);
    RunConcat(a + "(", x, Start);
    RunConcat(a + "(" + x, ")", Start);
  }

  /**
   * A clause followed by a quoted literal is still one clause, whatever commas the
   * literal holds: `DEFAULT "a, b"` does not split.
   */
  lemma ClauseThenQuoted(a: string, x: string, q: QuoteChar)
    requires IsClause(a)
    ensures IsClause(a + Quoted(x, q))
  {
    RunConcat(a, Quoted(x, q), Start);
    TokensOfQuoted(x, q);
  }
}

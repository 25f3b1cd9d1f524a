/**
 * The balanced splitter: the body of a CREATE TABLE is cut into its top-level
 * clauses at the commas that stand outside every parenthesis and every quote.
 */
module Scanner {
  import opened Wrappers
  import opened Text

  datatype ParseError = InvalidStatement | UnbalancedBrackets | UnterminatedQuote | BadLength

  type QuoteChar = c: char | IsQuoteChar(c) witness '"'

  datatype Quote = NoQuote | InQuote(q: QuoteChar)

  /** Where a left-to-right scan stands: the parenthesis depth and the open quote, if any. */
  datatype ScanState = ScanState(depth: int, quote: Quote)

  const Start := ScanState(0, NoQuote)

  /** One character of the scan; commas and other text leave the state alone. */
  function Step(st: ScanState, c: char): (r: ScanState)
    ensures r.depth == st.depth || (st.quote == NoQuote && r.depth == st.depth + (if c == '(' then 1 else -1))
  {
    match st.quote
    case InQuote(q) => if c == q then ScanState(st.depth, NoQuote) else st
    case NoQuote =>
      if IsQuoteChar(c) then ScanState(st.depth, InQuote(c))
      else if c == '(' then ScanState(st.depth + 1, NoQuote)
      else if c == ')' then ScanState(st.depth - 1, NoQuote)
      else st
  }

  /** A comma that ends a clause: outside every parenthesis and quote. */
  predicate IsSeparator(st: ScanState, c: char) {
    c == ',' && st == Start
  }

  /** The state after scanning `s` from `st`, or None if a ')' closes more than was opened. */
  function Scan(s: string, st: ScanState): Option<ScanState>
    decreases |s|
  {
    if s == [] then Some(st)
    else
      var st' := Step(st, s[0]);
      if st'.depth < 0 then None else Scan(s[1..], st')
  }

  /** Like Scan, but a separating comma also fails: `s` lies inside one clause. */
  function Run(s: string, st: ScanState): (r: Option<ScanState>)
    ensures st.depth >= 0 && r.Some? ==> r.value.depth >= 0
    decreases |s|
  {
    if s == [] then Some(st)
    else if IsSeparator(st, s[0]) then None
    else
      var st' := Step(st, s[0]);
      if st'.depth < 0 then None else Run(s[1..], st')
  }

  /** One whole top-level clause: balanced, and with no separating comma. */
  predicate IsClause(p: string) {
    Run(p, Start) == Some(Start)
  }

  function EndError(st: ScanState): ParseError {
    if st.quote.InQuote? then UnterminatedQuote else UnbalancedBrackets
  }

  /**
   * The untrimmed pieces of `s` scanned from `st`: the first element is the rest of
   * the clause being scanned, every separating comma starts a new one.
   */
  function Pieces(s: string, st: ScanState): (r: Result<seq<string>, ParseError>)
    ensures r.Ok? ==> |r.value| >= 1
    decreases |s|
  {
    if s == [] then
      if st == Start then Ok([[]]) else Err(EndError(st))
    else if IsSeparator(st, s[0]) then
      match Pieces(s[1..], st)
      case Err(e) => Err(e)
      case Ok(ps) => Ok([[]] + ps)
    else
      var st' := Step(st, s[0]);
      if st'.depth < 0 then Err(UnbalancedBrackets)
      else
        match Pieces(s[1..], st')
        case Err(e) => Err(e)
        case Ok(ps) => Ok([[s[0]] + ps[0]] + ps[1..])
  }

  /** The clauses of a table body, trimmed; a blank body has none. */
  function SplitFields(body: string): Result<seq<string>, ParseError>
  {
    if IsBlank(body) then Ok([])
    else
      match Pieces(body, Start)
      case Err(e) => Err(e)
      case Ok(ps) => Ok(TrimAll(ps))
  }

  /** `r` with `done` and `buf` put in front: how far a left-to-right split has got. */
  function Resume(done: seq<string>, buf: string, r: Result<seq<string>, ParseError>): Result<seq<string>, ParseError>
    requires r.Ok? ==> |r.value| >= 1
  {
    match r
    case Err(e) => Err(e)
    case Ok(ps) => Ok(done + [buf + ps[0]] + ps[1..])
  }

  /** Splitting loses nothing: the pieces joined with commas give back the scanned text. */
  lemma {:induction false} PiecesJoin(s: string, st: ScanState)
    requires Pieces(s, st).Ok?
    ensures Join(Pieces(s, st).value) == s
    decreases |s|
  {
    if s != [] {
      var ps := Pieces(s, st).value;
      if IsSeparator(st, s[0]) {
        var qs := Pieces(s[1..], st).value;
        PiecesJoin(s[1..], st);
        assert ps == [[]] + qs;
        JoinAfterEmpty(qs);
      } else {
        var qs := Pieces(s[1..], Step(st, s[0])).value;
        PiecesJoin(s[1..], Step(st, s[0]));
        assert ps == [[s[0]] + qs[0]] + qs[1..];
        JoinAfterChar(s[0], qs[0], qs[1..]);
        assert [qs[0]] + qs[1..] == qs;
      }
      assert [s[0]] + s[1..] == s;
    }
  }

  /** An empty first piece contributes only its separating comma. */
  lemma JoinAfterEmpty(qs: seq<string>)
    requires |qs| >= 1
    ensures Join([[]] + qs) == "," + Join(qs)
  {
    var e: string := [];
    assert ([e] + qs)[0] == e && ([e] + qs)[1..] == qs;
    assert e + "," + Join(qs) == "," + Join(qs);
  }

  /** A character in front of the first piece is a character in front of the joined text. */
  lemma JoinAfterChar(c: char, p: string, rest: seq<string>)
    ensures Join([[c] + p] + rest) == [c] + Join([p] + rest)
  {
    var ps := [[c] + p] + rest;
    var qs := [p] + rest;
    assert ps[1..] == rest && qs[1..] == rest;
    if rest != [] {
      var j := Join(rest);
      calc {
        Join(ps);
        ([c] + p) + "," + j;
        [c] + (p + "," + j);
        [c] + Join(qs);
      }
    }
  }

  lemma ResumeNothing(r: Result<seq<string>, ParseError>)
    requires r.Ok? ==> |r.value| >= 1
    ensures Resume([], [], r) == r
  {
    if r.Ok? {
      var ps := r.value;
      var e: string := [];
      var d: seq<string> := [];
      assert e + ps[0] == ps[0];
      assert d + [e + ps[0]] + ps[1..] == ps;
    }
  }

  lemma ResumeAtSeparator(done: seq<string>, buf: string, s: string, st: ScanState)
    requires s != [] && IsSeparator(st, s[0])
    ensures Resume(done, buf, Pieces(s, st)) == Resume(done + [buf], [], Pieces(s[1..], st))
  {
    if Pieces(s[1..], st).Ok? {
      var ps := Pieces(s[1..], st).value;
      var e: string := [];
      assert Pieces(s, st) == Ok([e] + ps);
      assert ([e] + ps)[0] == e && ([e] + ps)[1..] == ps;
      assert e + ps[0] == ps[0] && buf + e == buf;
      assert done + [buf] + ps == done + [buf] + [ps[0]] + ps[1..];
    }
  }

  lemma ResumeAtChar(done: seq<string>, buf: string, s: string, st: ScanState)
    requires s != [] && !IsSeparator(st, s[0]) && Step(st, s[0]).depth >= 0
    ensures Resume(done, buf, Pieces(s, st)) == Resume(done, buf + [s[0]], Pieces(s[1..], Step(st, s[0])))
  {
    if Pieces(s[1..], Step(st, s[0])).Ok? {
      var ps := Pieces(s[1..], Step(st, s[0])).value;
      assert buf + ([s[0]] + ps[0]) == (buf + [s[0]]) + ps[0];
    }
  }

  lemma {:induction false} BlankIsOneClause(s: string, st: ScanState)
    requires IsBlank(s) && st == Start
    ensures Pieces(s, st) == Ok([s])
    decreases |s|
  {
    if s != [] {
      assert IsBlank(s[1..]);
      assert !IsSeparator(st, s[0]) && Step(st, s[0]) == st;
      BlankIsOneClause(s[1..], st);
      var ps := [s[1..]];
      assert ps[1..] == [];
      assert Pieces(s, st) == Ok([[s[0]] + ps[0]] + ps[1..]);
      assert [s[0]] + s[1..] == s;
      assert [[s[0]] + ps[0]] + ps[1..] == [s];
    }
  }

  lemma ResumeAtEnd(done: seq<string>, buf: string)
    ensures Resume(done, buf, Pieces([], Start)) == Ok(done + [buf])
  {
    var e: string := [];
    assert Pieces([], Start) == Ok([e]);
    assert buf + e == buf;
    assert [e][1..] == [];
    assert done + [buf + e] + [e][1..] == done + [buf];
  }

  /** The splitter as a loop over a depth counter and a quote flag. */
  method SplitClauses(body: string) returns (r: Result<seq<string>, ParseError>)
    ensures r == SplitFields(body)
  {
    var fields: seq<string> := [];
    var buf: string := [];
    var st := Start;
    var i := 0;
    ghost var done: seq<string> := [];
    assert body[i..] == body;
    ResumeNothing(Pieces(body, Start));
    while i < |body|
      invariant 0 <= i <= |body|
      invariant st.depth >= 0
      invariant |fields| == |done| && forall k :: 0 <= k < |done| ==> fields[k] == Trim(done[k])
      invariant Pieces(body, Start) == Resume(done, buf, Pieces(body[i..], st))
    {
      var c := body[i];
      assert body[i..][1..] == body[i + 1..];
      if IsSeparator(st, c) {
        ResumeAtSeparator(done, buf, body[i..], st);
        fields := fields + [Trim(buf)];
        done := done + [buf];
        buf := [];
      } else {
        var st' := Step(st, c);
        if st'.depth < 0 {
          assert Pieces(body[i..], st) == Err(UnbalancedBrackets);
          assert !IsBlank(body) by { assert !IsSpace(body[i]); }
          return Err(UnbalancedBrackets);
        }
        ResumeAtChar(done, buf, body[i..], st);
        buf := buf + [c];
        st := st';
      }
      i := i + 1;

    }
    if st != Start {
      assert body[i..] == [];
      assert !IsBlank(body) by {
        if IsBlank(body) { BlankIsOneClause(body, Start); }
      }
      return Err(EndError(st));
    }
    assert body[i..] == [];
    ResumeAtEnd(done, buf);
    PiecesJoin(body, Start);
    if |fields| == 0 && IsBlank(buf) {
      assert done + [buf] == [buf];
      return Ok([]);
    }
    assert !IsBlank(body) by {
      if IsBlank(body) {
        BlankIsOneClause(body, Start);
      }
    }
    r := Ok(fields + [Trim(buf)]);
    assert TrimAll(done + [buf]) == fields + [Trim(buf)];
  }

  /** Scanning a concatenation is scanning the first part, then the second from where it stopped. */
  lemma {:induction false} RunConcat(a: string, b: string, st: ScanState)
    ensures Run(a + b, st) == if Run(a, st).None? then None else Run(b, Run(a, st).value)
    decreases |a|
  {
    if a != [] {
      assert (a + b)[0] == a[0] && (a + b)[1..] == a[1..] + b;
      if !IsSeparator(st, a[0]) && Step(st, a[0]).depth >= 0 {
        RunConcat(a[1..], b, Step(st, a[0]));
      }
    } else {
      assert a + b == b;
    }
  }

  /** Inside a parenthesis, text without parentheses or quotes, commas included, never ends the clause. */
  lemma {:induction false} RunInsideGroup(x: string, st: ScanState)
    requires st.quote == NoQuote && st.depth >= 1
    requires forall k :: 0 <= k < |x| ==> x[k] != '(' && x[k] != ')' && !IsQuoteChar(x[k])
    ensures Run(x, st) == Some(st)
    decreases |x|
  {
    if x != [] {
      assert Step(st, x[0]) == st;
      RunInsideGroup(x[1..], st);
    }
  }

  /**
   * A clause followed by a parenthesised group is still one clause, whatever commas the
   * group holds: `FOREIGN KEY (UserID) REFERENCES Users(ID)` does not split.
   */
  lemma ClauseThenGroup(a: string, x: string)
    requires IsClause(a)
    requires forall k :: 0 <= k < |x| ==> x[k] != '(' && x[k] != ')' && !IsQuoteChar(x[k])
    ensures IsClause(a + "(" + x + ")")
  {
    var open := ScanState(1, NoQuote);
    RunConcat(a, "(", Start);
    RunConcat(a + "(", x, Start);
    RunConcat(a + "(" + x, ")", Start);
    RunInsideGroup(x, open);
  }

  /** White space never moves the scan. */
  lemma {:induction false} RunBlank(w: string, st: ScanState)
    requires IsBlank(w) && st.depth >= 0
    ensures Run(w, st) == Some(st)
    decreases |w|
  {
    if w != [] {
      assert IsSpace(w[0]) && IsBlank(w[1..]);
      assert Step(st, w[0]) == st;
      RunBlank(w[1..], st);
    }
  }

  /** Every element after the first is a whole clause. */
  predicate TailClauses(ps: seq<string>) {
    forall k :: 1 <= k < |ps| ==> IsClause(ps[k])
  }

  /** A new empty piece in front: the old first piece joins the whole clauses. */
  lemma TailClausesAfterComma(qs: seq<string>)
    requires |qs| >= 1 && IsClause(qs[0]) && TailClauses(qs)
    ensures TailClauses([[]] + qs)
  {
    var e: string := [];
    assert forall k :: 1 <= k < |[e] + qs| ==> ([e] + qs)[k] == qs[k - 1];
  }

  /** A character added to the front of the first piece leaves the others alone. */
  lemma TailClausesAfterChar(c: char, qs: seq<string>)
    requires |qs| >= 1 && TailClauses(qs)
    ensures TailClauses([[c] + qs[0]] + qs[1..])
  {
    assert forall k :: 1 <= k < |qs| ==> ([[c] + qs[0]] + qs[1..])[k] == qs[k];
  }

  /** Every piece of a split is a whole clause: no comma inside a parenthesis or a quote ever separates. */
  lemma {:induction false} PiecesAreClauses(s: string, st: ScanState)
    requires Pieces(s, st).Ok?
    ensures Run(Pieces(s, st).value[0], st) == Some(Start)
    ensures forall k :: 1 <= k < |Pieces(s, st).value| ==> IsClause(Pieces(s, st).value[k])
    decreases |s|
  {
    var ps := Pieces(s, st).value;
    if s != [] {
      if IsSeparator(st, s[0]) {
        PiecesAreClauses(s[1..], st);
        var qs := Pieces(s[1..], st).value;
        assert ps == [[]] + qs;
        TailClausesAfterComma(qs);
      } else {
        var st' := Step(st, s[0]);
        PiecesAreClauses(s[1..], st');
        var qs := Pieces(s[1..], st').value;
        assert ps == [[s[0]] + qs[0]] + qs[1..];
        assert ([s[0]] + qs[0])[0] == s[0] && ([s[0]] + qs[0])[1..] == qs[0];
        TailClausesAfterChar(s[0], qs);
      }
    }
    assert TailClauses(ps);
  }

  /** A clause followed by more text: the clause becomes the front of the first piece. */
  lemma {:induction false} PiecesAfterClause(p: string, t: string, st: ScanState)
    requires Run(p, st) == Some(Start)
    ensures Pieces(p + t, st) == Resume([], p, Pieces(t, Start))
    decreases |p|
  {
    if p == [] {
      assert p + t == t;
      ResumeNothing(Pieces(t, Start));
    } else {
      var st' := Step(st, p[0]);
      assert (p + t)[0] == p[0] && (p + t)[1..] == p[1..] + t;
      PiecesAfterClause(p[1..], t, st');
      ResumeAtChar([], [], p + t, st);
      ResumeAtChar([], [], p + t, st);
      if Pieces(t, Start).Ok? {
        var ps := Pieces(t, Start).value;
        assert [p[0]] + (p[1..] + ps[0]) == p + ps[0];
      }
      ResumeNothing(Pieces(p + t, st));
    }
  }

  /** A comma at the top level starts a new, so far empty, piece. */
  lemma PiecesAfterComma(rest: string, ps: seq<string>)
    requires Pieces(rest, Start) == Ok(ps)
    ensures Pieces("," + rest, Start) == Ok([[]] + ps)
  {
    var s := "," + rest;
    assert s[0] == ',' && s[1..] == rest;
    assert IsSeparator(Start, s[0]);
  }

  /** A clause put in front of pieces that start with an empty one fills that one. */
  lemma ResumeClause(p: string, ps: seq<string>)
    ensures Resume([], p, Ok([[]] + ps)) == Ok([p] + ps)
  {
    var e: string := [];
    var d: seq<string> := [];
    assert ([e] + ps)[0] == e && ([e] + ps)[1..] == ps;
    assert p + e == p;
    assert d + [p] + ps == [p] + ps;
  }

  /** One clause alone is one piece. */
  lemma PiecesOfClause(p: string)
    requires IsClause(p)
    ensures Pieces(p, Start) == Ok([p])
  {
    PiecesAfterClause(p, [], Start);
    assert p + [] == p;
    ResumeAtEnd([], p);
    assert [] + [p] == [p];
  }

  /**
   * The split is the only way to cut a text into clauses: clauses joined with commas
   * split back into exactly those clauses.
   */
  lemma {:induction false} PiecesOfClauses(qs: seq<string>)
    requires |qs| >= 1 && forall k :: 0 <= k < |qs| ==> IsClause(qs[k])
    ensures Pieces(Join(qs), Start) == Ok(qs)
    decreases |qs|
  {
    if |qs| == 1 {
      PiecesOfClause(qs[0]);
      assert Join(qs) == qs[0] && [qs[0]] == qs;
    } else {
      var rest := Join(qs[1..]);
      PiecesOfClauses(qs[1..]);
      PiecesAfterComma(rest, qs[1..]);
      assert Join(qs) == qs[0] + ("," + rest);
      PiecesAfterClause(qs[0], "," + rest, Start);
      ResumeClause(qs[0], qs[1..]);
      assert [qs[0]] + qs[1..] == qs;
    }
  }

  /** Trimming white space off a clause leaves a clause. */
  lemma TrimClause(p: string)
    requires IsClause(p)
    ensures IsClause(Trim(p))
  {
    var t := Trim(p);
    var i, j := TrimBounds(p);
    assert p == p[..i] + (t + p[j..]);
    RunConcat(p[..i], t + p[j..], Start);
    RunBlank(p[..i], Start);
    RunConcat(t, p[j..], Start);
    if Run(t, Start).Some? {
      RunBlank(p[j..], Run(t, Start).value);
    }
  }

  /** The fields of a successful split are trimmed clauses, and a lone field is never empty. */
  lemma SplitFieldsAreClauses(body: string)
    requires SplitFields(body).Ok?
    ensures forall k :: 0 <= k < |SplitFields(body).value| ==>
      IsClause(SplitFields(body).value[k]) && IsTrimmed(SplitFields(body).value[k])
    ensures SplitFields(body).value != [[]]
  {
    if !IsBlank(body) {
      var ps := Pieces(body, Start).value;
      PiecesAreClauses(body, Start);
      forall k | 0 <= k < |ps| ensures IsClause(Trim(ps[k])) {
        TrimClause(ps[k]);
      }
      forall k | 0 <= k < |ps| ensures IsTrimmed(Trim(ps[k])) {
        var _, _ := TrimBounds(ps[k]);
      }
      if |ps| == 1 {
        PiecesJoin(body, Start);
        if Trim(ps[0]) == [] {
          TrimOfBlank(ps[0]);
        }
      }
    }
  }

  lemma TrimOfBlank(s: string)
    requires Trim(s) == []
    ensures IsBlank(s)
  {
    var i, j := TrimBounds(s);
    assert s == s[..i] + s[j..];
  }

  lemma JoinNotBlank(fs: seq<string>)
    requires fs != [] && fs != [[]]
    requires forall k :: 0 <= k < |fs| ==> IsTrimmed(fs[k])
    ensures !IsBlank(Join(fs))
  {
    if |fs| == 1 {
      assert Join(fs) == fs[0];
      assert !IsSpace(fs[0][0]);
    } else {
      assert Join(fs) == fs[0] + "," + Join(fs[1..]);
      assert Join(fs)[|fs[0]|] == ',';
    }
  }

  /** Trimmed clauses joined with commas split back into exactly those clauses. */
  lemma SplitJoin(fs: seq<string>)
    requires fs != [[]]
    requires forall k :: 0 <= k < |fs| ==> IsClause(fs[k]) && IsTrimmed(fs[k])
    ensures SplitFields(Join(fs)) == Ok(fs)
  {
    if fs != [] {
      PiecesOfClauses(fs);
      JoinNotBlank(fs);
      forall k | 0 <= k < |fs| ensures Trim(fs[k]) == fs[k] {
        TrimOfTrimmed(fs[k]);
      }
      assert TrimAll(fs) == fs;
    }
  }

  /** Re-splitting the joined fields of a split gives the same fields back. */
  lemma SplitJoinFields(body: string)
    requires SplitFields(body).Ok?
    ensures SplitFields(Join(SplitFields(body).value)) == SplitFields(body)
  {
    SplitFieldsAreClauses(body);
    SplitJoin(SplitFields(body).value);
  }

  /** A split succeeds exactly when the text is balanced: no ')' closes more than was opened, and nothing is left open. */
  lemma {:induction false} PiecesOkIffBalanced(s: string, st: ScanState)
    requires st.depth >= 0
    ensures Pieces(s, st).Ok? <==> Scan(s, st) == Some(Start)
    decreases |s|
  {
    if s != [] {
      if IsSeparator(st, s[0]) {
        assert Step(st, s[0]) == st;
        PiecesOkIffBalanced(s[1..], st);
      } else if Step(st, s[0]).depth >= 0 {
        PiecesOkIffBalanced(s[1..], Step(st, s[0]));
      }
    }
  }

  lemma {:induction false} ScanConcat(a: string, b: string, st: ScanState)
    ensures Scan(a + b, st) == if Scan(a, st).None? then None else Scan(b, Scan(a, st).value)
    decreases |a|
  {
    if a != [] {
      assert (a + b)[0] == a[0] && (a + b)[1..] == a[1..] + b;
      if Step(st, a[0]).depth >= 0 {
        ScanConcat(a[1..], b, Step(st, a[0]));
      }
    } else {
      assert a + b == b;
    }
  }

  /** Text with no parenthesis and no quote character leaves an unquoted scan where it was. */
  lemma {:induction false} ScanPlain(b: string, st: ScanState)
    requires st.quote == NoQuote && st.depth >= 0
    requires forall k :: 0 <= k < |b| ==> b[k] != '(' && b[k] != ')' && !IsQuoteChar(b[k])
    ensures Scan(b, st) == Some(st)
    decreases |b|
  {
    if b != [] {
      assert Step(st, b[0]) == st;
      ScanPlain(b[1..], st);
    }
  }

  /** A balanced body followed by one more ')' does not split. */
  lemma ExtraCloseRejected(a: string)
    requires Scan(a, Start) == Some(Start)
    ensures Pieces(a + ")", Start).Err?
  {
    ScanConcat(a, ")", Start);
    PiecesOkIffBalanced(a + ")", Start);
  }

  /** A '(' followed by text with no parenthesis or quote leaves the scan one level deep. */
  lemma ScanOpenGroup(b: string)
    requires forall k :: 0 <= k < |b| ==> b[k] != '(' && b[k] != ')' && !IsQuoteChar(b[k])
    ensures Scan("(" + b, Start) == Some(ScanState(1, NoQuote))
  {
    var t := "(" + b;
    assert t[0] == '(' && t[1..] == b;
    ScanPlain(b, ScanState(1, NoQuote));
  }

  /** A balanced body followed by a '(' that is never closed does not split. */
  lemma MissingCloseRejected(a: string, b: string)
    requires Scan(a, Start) == Some(Start)
    requires forall k :: 0 <= k < |b| ==> b[k] != '(' && b[k] != ')' && !IsQuoteChar(b[k])
    ensures Pieces(a + "(" + b, Start).Err?
  {
    ScanOpenGroup(b);
    ScanConcat(a, "(" + b, Start);
    assert a + "(" + b == a + ("(" + b);
    PiecesOkIffBalanced(a + ("(" + b), Start);
  }

  /** Leading white space only joins the front of the first piece. */
  lemma PiecesLeadingBlank(w: string, b: string)
    requires IsBlank(w)
    ensures Pieces(w + b, Start) == Resume([], w, Pieces(b, Start))
  {
    RunBlank(w, Start);
    PiecesAfterClause(w, b, Start);
  }

  /** White space in front of the first piece is trimmed away with the rest. */
  lemma TrimAllLeadingBlank(w: string, ps: seq<string>)
    requires IsBlank(w) && |ps| >= 1
    ensures Resume([], w, Ok(ps)) == Ok([w + ps[0]] + ps[1..])
    ensures TrimAll([w + ps[0]] + ps[1..]) == TrimAll(ps)
  {
    var qs := [w + ps[0]] + ps[1..];
    var d: seq<string> := [];
    assert d + [w + ps[0]] + ps[1..] == qs;
    TrimLeftBlank(w, ps[0]);
    assert qs[0] == w + ps[0] && qs[1..] == ps[1..];
    assert TrimAll(qs) == [Trim(w + ps[0])] + TrimAll(ps[1..]);
  }

  /** White space before the first clause of a body changes none of its fields. */
  lemma SplitLeadingBlank(w: string, b: string)
    requires IsBlank(w)
    ensures SplitFields(w + b) == SplitFields(b)
  {
    if IsBlank(b) {
      assert IsBlank(w + b);
    } else {
      assert !IsBlank(w + b) by {
        var k :| 0 <= k < |b| && !IsSpace(b[k]);
        assert (w + b)[|w| + k] == b[k];
      }
      PiecesLeadingBlank(w, b);
      if Pieces(b, Start).Ok? {
        TrimAllLeadingBlank(w, Pieces(b, Start).value);
      }
    }
  }
}

/**
 * The DDL model: one CREATE TABLE statement (plus optional CREATE INDEX statements)
 * parsed into its header, its raw clauses and its column metadata; recompiled to
 * text; and edited by adding and removing named constraints.
 */
module Ddl {
  import opened Wrappers
  import opened Text
  import opened Scanner
  import opened Lexer
  import opened Clauses
  import opened Metadata

  /** A parsed table: the "CREATE TABLE <name>" header as written, the clauses, the columns. */
  datatype Table = Table(head: string, fields: seq<string>, columns: seq<ColumnMeta>)

  // ---- the header ----

  /** The end of the run of name characters that starts at `i`. */
  function NameEnd(s: string, i: nat): (r: nat)
    requires i <= |s|
    ensures i <= r <= |s| && (r == |s| || !IsNameChar(s[r]))
    ensures forall k :: i <= k < r ==> IsNameChar(s[k])
    decreases |s| - i
  {
    if i < |s| && IsNameChar(s[i]) then NameEnd(s, i + 1) else i
  }

  /**
   * The length of the header that opens `s`: "CREATE TABLE " in any letter case, then
   * a table name, bare or between two equal quote characters.
   */
  function HeaderLength(s: string): (r: Option<nat>)
    ensures r.Some? ==> 13 < r.value <= |s| && IsKeyword(s[..13], "CREATE TABLE ")
    ensures r.Some? ==> IsName(s[13..r.value])
                        || (IsQuoteChar(s[13]) && 15 < r.value && s[r.value - 1] == s[13] && IsName(s[14..r.value - 1]))
  {
    if |s| < 13 || !IsKeyword(s[..13], "CREATE TABLE ") then None
    else if 13 < |s| && IsQuoteChar(s[13]) then
      var j := NameEnd(s, 14);
      if 14 < j < |s| && s[j] == s[13] then Some(j + 1) else None
    else
      var j := NameEnd(s, 13);
      if 13 < j then Some(j) else None
  }

  /** Text that is a header and nothing more. */
  predicate IsHeader(h: string) {
    HeaderLength(h) == Some(|h|)
  }

  lemma {:induction false} NameEndPrefix(s: string, t: string, i: nat)
    requires i <= |s|
    requires NameEnd(s, i) < |s| || t == [] || !IsNameChar(t[0])
    ensures NameEnd(s + t, i) == NameEnd(s, i)
    decreases |s| - i
  {
    if i < |s| && IsNameChar(s[i]) {
      NameEndPrefix(s, t, i + 1);
    } else if i == |s| && t != [] {
      assert (s + t)[i] == t[0];
    }
  }

  /** A header ends where its name ends: what follows a name never lengthens it. */
  lemma HeaderThen(h: string, t: string)
    requires IsHeader(h)
    requires t == [] || !IsNameChar(t[0])
    ensures HeaderLength(h + t) == Some(|h|)
  {
    var s := h + t;
    assert s[..13] == h[..13];
    assert s[13] == h[13];
    if IsQuoteChar(h[13]) {
      NameEndPrefix(h, t, 14);
      assert s[NameEnd(h, 14)] == h[NameEnd(h, 14)];
    } else {
      NameEndPrefix(h, t, 13);
    }
  }

  /** Name characters all the way to the end: the run of them ends with the text. */
  lemma {:induction false} NameEndAtEnd(s: string, i: nat)
    requires i <= |s|
    requires forall k :: i <= k < |s| ==> IsNameChar(s[k])
    ensures NameEnd(s, i) == |s|
    decreases |s| - i
  {
    if i < |s| {
      NameEndAtEnd(s, i + 1);
    }
  }

  /** "CREATE TABLE " in any letter case followed by a bare name is a header. */
  lemma BareHeader(kw: string, n: string)
    requires |kw| == 13 && IsKeyword(kw, "CREATE TABLE ")
    requires IsName(n)
    ensures IsHeader(kw + n)
  {
    var s := kw + n;
    assert s[..13] == kw;
    assert s[13] == n[0];
    assert forall k :: 13 <= k < |s| ==> s[k] == n[k - 13];
    NameEndAtEnd(s, 13);
  }

  /** "CREATE TABLE " in any letter case followed by a name between two equal quotes is a header. */
  lemma QuotedHeader(kw: string, n: string, q: QuoteChar)
    requires |kw| == 13 && IsKeyword(kw, "CREATE TABLE ")
    requires IsName(n)
    ensures IsHeader(kw + [q] + n + [q])
  {
    var s := kw + [q] + n + [q];
    var e := kw + [q] + n;
    assert s == e + [q];
    assert s[..13] == kw;
    assert s[13] == q;
    assert forall k :: 14 <= k < |e| ==> e[k] == n[k - 14];
    NameEndAtEnd(e, 14);
    NameEndPrefix(e, [q], 14);
    assert s[|e|] == q;
  }

  /** The header a statement opens with is a header on its own. */
  lemma HeaderPrefix(s: string)
    requires HeaderLength(s).Some?
    ensures IsHeader(s[..HeaderLength(s).value])
  {
  }

  // ---- parsing ----

  /**
   * The clauses after a header ending at `k`: none when nothing but white space
   * follows, else the split interior of the parenthesised body.
   */
  function Body(s: string, k: nat): (r: Result<seq<string>, ParseError>)
    requires k <= |s|
  {
    var rest := Trim(s[k..]);
    if rest == [] then Ok([])
    else if rest[0] != '(' then Err(InvalidStatement)
    else if |rest| < 2 || rest[|rest| - 1] != ')' then Err(UnbalancedBrackets)
    else SplitFields(rest[1..|rest| - 1])
  }

  function ParseTable(s: string): (r: Result<Table, ParseError>)
    ensures r.Ok? ==> IsHeader(r.value.head) && Columns(r.value.fields) == Ok(r.value.columns)
  {
    match HeaderLength(s)
    case None => Err(InvalidStatement)
    case Some(k) =>
      HeaderPrefix(s);
      match Body(s, k)
      case Err(e) => Err(e)
      case Ok(fields) =>
        match Columns(fields)
        case Err(e) => Err(e)
        case Ok(cols) => Ok(Table(s[..k], fields, cols))
  }

  /** A CREATE [UNIQUE] INDEX ... ON ... statement, in any letter case and layout. */
  predicate IsIndexStatement(s: string) {
    var toks := Tokens(s);
    |toks| >= 3 && IsKeyword(toks[0], "CREATE")
    && (IsKeyword(toks[1], "INDEX") || (IsKeyword(toks[1], "UNIQUE") && IsKeyword(toks[2], "INDEX")))
    && HasWord(toks, "ON")
  }

  /**
   * A CREATE TABLE statement followed by index statements. The index statements are
   * checked but change nothing: not even a unique index marks a column unique.
   */
  function ParseDDL(stmts: seq<string>): (r: Result<Table, ParseError>)
    ensures r.Ok? <==> |stmts| >= 1 && ParseTable(stmts[0]).Ok?
                       && forall k :: 1 <= k < |stmts| ==> IsIndexStatement(stmts[k])
    ensures r.Ok? ==> r == ParseTable(stmts[0])
  {
    if stmts == [] then Err(InvalidStatement)
    else
      match ParseTable(stmts[0])
      case Err(e) => Err(e)
      case Ok(t) =>
        if forall k :: 1 <= k < |stmts| ==> IsIndexStatement(stmts[k]) then Ok(t) else Err(InvalidStatement)
  }

  // ---- compiling ----

  /** The statement text of a header and clauses: "head (c1,c2,...)", or the header alone. */
  function Render(head: string, fields: seq<string>): string {
    if fields == [] then head else head + " (" + Join(fields) + ")"
  }

  // ---- round trip ----

  /**
   * Trimmed clauses rendered after a header parse back to exactly that header and
   * those clauses, so compiling the parse reproduces the text byte for byte.
   */
  lemma RenderParses(h: string, fs: seq<string>)
    requires IsHeader(h) && fs != [[]]
    requires forall k :: 0 <= k < |fs| ==> IsClause(fs[k]) && IsTrimmed(fs[k])
    requires Columns(fs).Ok?
    ensures ParseTable(Render(h, fs)) == Ok(Table(h, fs, Columns(fs).value))
    ensures Render(ParseTable(Render(h, fs)).value.head, ParseTable(Render(h, fs)).value.fields) == Render(h, fs)
  {
    if fs == [] {
      HeaderAloneParses(h, fs);
    } else {
      var s := RenderShape(h, fs);
      SplitJoin(fs);
      HeaderAndBodyParses(h, Join(fs), fs, s);
    }
  }

  lemma RenderShape(h: string, fs: seq<string>) returns (s: string)
    requires fs != []
    ensures s == Render(h, fs) && s == h + " " + ("(" + Join(fs) + ")")
  {
    s := h + " " + ("(" + Join(fs) + ")");
  }

  lemma HeaderAloneParses(h: string, fs: seq<string>)
    requires IsHeader(h) && fs == [] && Columns(fs).Ok?
    ensures ParseTable(h) == Ok(Table(h, fs, Columns(fs).value))
  {
    var e: string := [];
    assert h == h + e;
    HeaderThen(h, e);
    BodyOfBlank(h, |h|);
    ParseTableOf(h, |h|, fs);
  }

  lemma HeaderAndBodyParses(h: string, body: string, fs: seq<string>, s: string)
    requires IsHeader(h) && SplitFields(body) == Ok(fs) && Columns(fs).Ok?
    requires s == h + " " + ("(" + body + ")")
    ensures ParseTable(s) == Ok(Table(h, fs, Columns(fs).value))
  {
    var inner := "(" + body + ")";
    var w := " ";
    BodyAfterHeader(h, w, inner);
    assert inner[1..|inner| - 1] == body;
    ParseTableOf(s, |h|, fs);
  }

  /** How ParseTable assembles a table from a header, a body that splits and its columns. */
  lemma ParseTableOf(s: string, k: nat, fs: seq<string>)
    requires HeaderLength(s) == Some(k) && Body(s, k) == Ok(fs) && Columns(fs).Ok?
    ensures ParseTable(s) == Ok(Table(s[..k], fs, Columns(fs).value))
  {
  }

  /** Compiling a parsed statement and parsing the result gives the same table again. */
  lemma ReparseStable(s: string)
    requires ParseTable(s).Ok?
    ensures ParseTable(Render(ParseTable(s).value.head, ParseTable(s).value.fields)) == ParseTable(s)
  {
    var k := HeaderLength(s).value;
    var rest := Trim(s[k..]);
    var t := ParseTable(s).value;
    if rest != [] {
      SplitFieldsAreClauses(rest[1..|rest| - 1]);
    }
    RenderParses(t.head, t.fields);
  }

  /** A header with no body parses to a table with no fields and no columns. */
  lemma HeaderOnly(h: string)
    requires IsHeader(h)
    ensures ParseDDL([h]) == Ok(Table(h, [], []))
  {
    RenderParses(h, []);
  }

  /** "create table test": lower-case keywords, no body. */
  lemma LowercaseHeaderOnly()
    ensures ParseDDL(["create table test"]) == Ok(Table("create table test", [], []))
  {
    assert "create table test" == "create table " + "test";
    assert IsKeyword("create table ", "CREATE TABLE ");
    BareHeader("create table ", "test");
    HeaderOnly("create table test");
  }

  // ---- errors ----

  /** "CREATE TABLE" with no table name is not a statement this parser accepts. */
  lemma MissingTableName()
    ensures ParseDDL(["CREATE TABLE"]) == Err(InvalidStatement)
  {
  }

  lemma BodyOfBlank(s: string, k: nat)
    requires HeaderLength(s) == Some(k) && k == |s|
    ensures s[..k] == s && Body(s, k) == Ok([])
  {
    assert s[k..] == [];
  }

  lemma BodyOfParens(s: string, k: nat, w: string, x: string)
    requires k <= |s| && s[k..] == w + x && IsBlank(w)
    requires |x| >= 2 && x[0] == '(' && x[|x| - 1] == ')'
    ensures Body(s, k) == SplitFields(x[1..|x| - 1])
  {
    TrimPadded(w, x);
  }

  /** After a header, optional white space and a parenthesised body: the body's clauses. */
  lemma BodyAfterHeader(h: string, w: string, x: string)
    requires IsHeader(h) && IsBlank(w)
    requires |x| >= 2 && x[0] == '(' && x[|x| - 1] == ')'
    ensures HeaderLength(h + w + x) == Some(|h|) && (h + w + x)[..|h|] == h
    ensures Body(h + w + x, |h|) == SplitFields(x[1..|x| - 1])
  {
    var s := h + w + x;
    assert s == h + (w + x);
    assert (w + x)[0] == if w == [] then '(' else w[0];
    HeaderThen(h, w + x);
    assert s[|h|..] == w + x;
    BodyOfParens(s, |h|, w, x);
  }

  /** A statement whose body does not split is rejected. */
  lemma ParseTableOfBadBody(s: string, k: nat)
    requires HeaderLength(s) == Some(k) && Body(s, k).Err?
    ensures ParseTable(s).Err?
  {
  }

  /** Two statements with the same header and the same body parse alike. */
  lemma ParseTableAlike(s: string, t: string, k: nat)
    requires HeaderLength(s) == Some(k) && HeaderLength(t) == Some(k)
    requires s[..k] == t[..k] && Body(s, k) == Body(t, k)
    ensures ParseTable(s) == ParseTable(t)
  {
  }

  /** A body text the scan rejects is not split into fields, blank or not. */
  lemma SplitFieldsRejects(body: string)
    requires Pieces(body, Start).Err?
    ensures SplitFields(body).Err?
  {
    if IsBlank(body) {
      BlankIsOneClause(body, Start);
    }
  }

  /** A body missing its closing parenthesis is rejected. */
  lemma MissingCloseParen(h: string, w: string, a: string, b: string)
    requires IsHeader(h) && IsBlank(w)
    requires Scan(a, Start) == Some(Start)
    requires forall k :: 0 <= k < |b| ==> b[k] != '(' && b[k] != ')' && !IsQuoteChar(b[k])
    ensures ParseTable(h + w + "(" + a + "(" + b + ")").Err?
  {
    var x := "(" + (a + "(" + b) + ")";
    assert h + w + "(" + a + "(" + b + ")" == h + w + x;
    BodyAfterHeader(h, w, x);
    assert x[1..|x| - 1] == a + "(" + b;
    MissingCloseRejected(a, b);
    SplitFieldsRejects(a + "(" + b);
    ParseTableOfBadBody(h + w + x, |h|);
  }

  /** A body with one closing parenthesis too many is rejected. */
  lemma ExtraCloseParen(h: string, w: string, a: string)
    requires IsHeader(h) && IsBlank(w)
    requires Scan(a, Start) == Some(Start)
    ensures ParseTable(h + w + "(" + a + ")" + ")").Err?
  {
    var x := "(" + (a + ")") + ")";
    assert h + w + "(" + a + ")" + ")" == h + w + x;
    BodyAfterHeader(h, w, x);
    assert x[1..|x| - 1] == a + ")";
    ExtraCloseRejected(a);
    SplitFieldsRejects(a + ")");
    ParseTableOfBadBody(h + w + x, |h|);
  }

  // ---- layout ----

  /**
   * White space between the header and the body, or at the start of the body, does not
   * change the parse: "`users`\n(\nid ...", "`users` (\n\nid ...", "`users`(id ..." agree.
   */
  lemma LayoutAroundBody(h: string, w1: string, w2: string, body: string)
    requires IsHeader(h) && IsBlank(w1) && IsBlank(w2)
    ensures ParseTable(h + w1 + "(" + w2 + body + ")") == ParseTable(h + "(" + body + ")")
  {
    var x := "(" + (w2 + body) + ")";
    var y := "(" + body + ")";
    var e: string := [];
    assert h + w1 + "(" + w2 + body + ")" == h + w1 + x;
    assert h + "(" + body + ")" == h + e + y;
    BodyAfterHeader(h, w1, x);
    BodyAfterHeader(h, e, y);
    assert x[1..|x| - 1] == w2 + body;
    assert y[1..|y| - 1] == body;
    SplitLeadingBlank(w2, body);
    ParseTableAlike(h + w1 + x, h + e + y, |h|);
  }

  // ---- index statements ----

  /** However the words of an index statement are spaced (newlines before ON included), it is recognized. */
  lemma IndexStatementOfLayout(ws: seq<string>, gaps: seq<string>, on: nat)
    requires |ws| >= 3 && |gaps| == |ws| - 1
    requires forall k :: 0 <= k < |ws| ==> IsWordToken(ws[k])
    requires forall k :: 0 <= k < |gaps| ==> IsGap(gaps[k], ws[k + 1])
    requires IsKeyword(ws[0], "CREATE")
    requires IsKeyword(ws[1], "INDEX") || (IsKeyword(ws[1], "UNIQUE") && IsKeyword(ws[2], "INDEX"))
    requires on < |ws| && IsKeyword(ws[on], "ON")
    ensures IsIndexStatement(Layout(ws, gaps))
  {
    TokensOfLayout(ws, gaps);
  }

  /**
   * Index statements after the table are accepted and change nothing: a unique index,
   * partial or not, never marks a column unique, and neither does a plain one.
   */
  lemma IndexStatementsIgnored(t: string, idxs: seq<string>)
    requires forall k :: 0 <= k < |idxs| ==> IsIndexStatement(idxs[k])
    ensures ParseDDL([t] + idxs) == ParseDDL([t])
  {
  }

  /** A statement after the first that is not an index statement fails the whole parse. */
  lemma OtherStatementRejected(t: string, other: string)
    requires !IsIndexStatement(other)
    ensures ParseDDL([t, other]).Err?
  {
    assert [t, other][1] == other;
  }

  // ---- column names (getColumns) ----

  /** GENERATED ALWAYS AS, in any letter case, somewhere among the tokens. */
  predicate IsGenerated(toks: seq<string>) {
    exists i :: 0 <= i < |toks| - 2 && IsKeyword(toks[i], "GENERATED") && IsKeyword(toks[i + 1], "ALWAYS")
                                    && IsKeyword(toks[i + 2], "AS")
  }

  /** A stored column: one whose values a rebuilt table copies over. */
  predicate IsStoredColumn(f: string) {
    IsColumnClause(f) && !IsGenerated(Tokens(f))
  }

  /** The unquoted name a clause starts with. */
  function NameOf(f: string): string {
    var toks := Tokens(f);
    if toks == [] then [] else Unquote(toks[0])
  }

  predicate IsBackticked(t: string) {
    |t| >= 2 && t[0] == '`' && t[|t| - 1] == '`'
  }

  function Backticked(n: string): (r: string)
    ensures IsBackticked(r) && r[1..|r| - 1] == n
  {
    "`" + n + "`"
  }

  /**
   * The backticked names of the stored columns, in declaration order: no constraint
   * clause and no generated column contributes one.
   */
  function ColumnNames(fields: seq<string>): (r: seq<string>)
    ensures |r| <= |fields|
    ensures forall k :: 0 <= k < |r| ==> IsBackticked(r[k])
  {
    if fields == [] then []
    else
      var rest := ColumnNames(fields[1..]);
      if IsStoredColumn(fields[0]) then [Backticked(NameOf(fields[0]))] + rest else rest
  }

  lemma {:induction false} ColumnNamesAppend(a: seq<string>, b: seq<string>)
    ensures ColumnNames(a + b) == ColumnNames(a) + ColumnNames(b)
    decreases |a|
  {
    if a == [] {
      assert a + b == b;
    } else {
      assert (a + b)[0] == a[0] && (a + b)[1..] == a[1..] + b;
      ColumnNamesAppend(a[1..], b);
    }
  }

  /** A lone clause that is not a stored column has no column name. */
  lemma NoNameOfOne(f: string)
    requires !IsStoredColumn(f)
    ensures ColumnNames([f]) == []
  {
    assert [f][0] == f && [f][1..] == [];
  }

  /** A constraint clause or a generated column, wherever it sits, adds no name. */
  lemma ColumnNamesSkip(a: seq<string>, f: string, b: seq<string>)
    requires Classify(f) != Column || IsGenerated(Tokens(f))
    ensures ColumnNames(a + [f] + b) == ColumnNames(a + b)
  {
    assert !IsStoredColumn(f);
    NoNameOfOne(f);
    ColumnNamesAppend(a + [f], b);
    ColumnNamesAppend(a, [f]);
    ColumnNamesAppend(a, b);
  }

  /** The backticked leading names of the clauses `cs`, one each, in order. */
  function NamesOfClauses(cs: seq<string>): (r: seq<string>)
    ensures |r| == |cs| && forall k :: 0 <= k < |cs| ==> r[k] == Backticked(NameOf(cs[k]))
  {
    if cs == [] then [] else [Backticked(NameOf(cs[0]))] + NamesOfClauses(cs[1..])
  }

  /** The names, in order, of the clauses the column metadata is built from. */
  lemma {:induction false} ColumnNamesOfClauses(fields: seq<string>)
    requires forall k :: 0 <= k < |fields| ==> !IsGenerated(Tokens(fields[k]))
    ensures ColumnNames(fields) == NamesOfClauses(ColumnClauses(fields))
    decreases |fields|
  {
    if fields != [] {
      var tl := fields[1..];
      assert forall k :: 0 <= k < |tl| ==> tl[k] == fields[k + 1];
      ColumnNamesOfClauses(tl);
      if IsColumnClause(fields[0]) {
        assert ColumnClauses(fields) == [fields[0]] + ColumnClauses(tl);
        assert NamesOfClauses([fields[0]] + ColumnClauses(tl))
            == [Backticked(NameOf(fields[0]))] + NamesOfClauses(ColumnClauses(tl));
      } else {
        assert ColumnClauses(fields) == ColumnClauses(tl);
      }
    }
  }

  /**
   * Without generated columns, the names getColumns lists are exactly the names of the
   * parsed columns, backticked, in the same order.
   */
  lemma ColumnNamesMatchColumns(fields: seq<string>)
    requires Columns(fields).Ok?
    requires forall k :: 0 <= k < |fields| ==> !IsGenerated(Tokens(fields[k]))
    ensures var cols := Columns(fields).value;
            ColumnNames(fields) == seq(|cols|, k requires 0 <= k < |cols| => Backticked(cols[k].name))
  {
    ColumnNamesOfClauses(fields);
    var cs := ColumnClauses(fields);
    var cols := Columns(fields).value;
    forall k | 0 <= k < |cs|
      ensures cols[k].name == NameOf(cs[k])
    {
      assert ExtractColumn(Tokens(cs[k]), KeyNames(fields), UniqueNames(fields)) == Ok(cols[k]);
    }
  }

  // ---- editing named constraints ----

  /** `f` is a CONSTRAINT clause named `name`: exactly, or in any ASCII letter case when `folded`. */
  predicate Names(f: string, name: string, folded: bool) {
    match Classify(f)
    case NamedConstraint(n, _) => if folded then Upper(n) == Upper(name) else n == name
    case _ => false
  }

  /** The position of the first clause named `name`, if there is one. */
  function FirstMatch(fields: seq<string>, name: string, folded: bool): (r: Option<nat>)
    ensures r.Some? ==> r.value < |fields| && Names(fields[r.value], name, folded)
                        && forall k :: 0 <= k < r.value ==> !Names(fields[k], name, folded)
    ensures r.None? ==> forall k :: 0 <= k < |fields| ==> !Names(fields[k], name, folded)
  {
    if fields == [] then None
    else if Names(fields[0], name, folded) then Some(0)
    else
      match FirstMatch(fields[1..], name, folded)
      case None =>
        NoMatchShift(fields, name, folded, |fields| - 1);
        None
      case Some(i) =>
        NoMatchShift(fields, name, folded, i);
        assert fields[i + 1] == fields[1..][i];
        Some(i + 1)
  }

  /** No match in the first `n` fields of the tail and none at the head: no match in the first `n + 1`. */
  lemma NoMatchShift(fields: seq<string>, name: string, folded: bool, n: nat)
    requires n < |fields| && !Names(fields[0], name, folded)
    requires forall k :: 0 <= k < n ==> !Names(fields[1..][k], name, folded)
    ensures forall k :: 0 <= k <= n ==> !Names(fields[k], name, folded)
  {
    forall k | 1 <= k <= n
      ensures !Names(fields[k], name, folded)
    {
      assert fields[k] == fields[1..][k - 1];
    }
  }

  /** addConstraint: the clause named exactly `name` replaced by `sql` in place, or `sql` appended. */
  function WithConstraint(fields: seq<string>, name: string, sql: string): (r: seq<string>)
  {
    match FirstMatch(fields, name, false)
    case Some(i) => fields[i := sql]
    case None => fields + [sql]
  }

  /** removeConstraint: the first clause named `name` in any letter case taken out. */
  function WithoutConstraint(fields: seq<string>, name: string): (r: seq<string>)
  {
    match FirstMatch(fields, name, true)
    case Some(i) => fields[..i] + fields[i + 1..]
    case None => fields
  }

  /**
   * Adding a constraint replaces the first clause of that name where it stands, or
   * appends; every other clause keeps its place and text.
   */
  lemma WithConstraintShape(fields: seq<string>, name: string, sql: string)
    ensures var r := WithConstraint(fields, name, sql);
            (exists i :: 0 <= i < |fields| && Names(fields[i], name, false)
                         && (forall k :: 0 <= k < i ==> !Names(fields[k], name, false))
                         && r == fields[i := sql])
            || ((forall k :: 0 <= k < |fields| ==> !Names(fields[k], name, false)) && r == fields + [sql])
  {
    match FirstMatch(fields, name, false)
    case Some(i) =>
      assert WithConstraint(fields, name, sql) == fields[i := sql];
    case None =>
      assert WithConstraint(fields, name, sql) == fields + [sql];
  }

  /**
   * Adding twice under one name is adding once with the latest text: the second add
   * replaces what the first one put in.
   */
  lemma AddTwice(fields: seq<string>, name: string, sql1: string, sql2: string)
    requires ConstraintName(sql1) == Some(name)
    ensures WithConstraint(WithConstraint(fields, name, sql1), name, sql2) == WithConstraint(fields, name, sql2)
  {
    var once := WithConstraint(fields, name, sql1);
    assert Names(sql1, name, false);
    match FirstMatch(fields, name, false)
    case Some(i) =>
      assert once == fields[i := sql1];
      assert forall k :: 0 <= k < i ==> once[k] == fields[k];
      FirstMatchAt(once, i, name, false);
      assert once[i := sql2] == fields[i := sql2];
    case None =>
      assert once == fields + [sql1];
      assert forall k :: 0 <= k < |fields| ==> once[k] == fields[k];
      FirstMatchAt(once, |fields|, name, false);
      assert once[|fields| := sql2] == fields + [sql2];
  }

  /** A clause named exactly `name` is also named `name` ignoring letter case. */
  lemma ExactIsFolded(f: string, name: string)
    requires Names(f, name, false)
    ensures Names(f, name, true)
  {
  }

  lemma FirstMatchAt(fields: seq<string>, i: nat, name: string, folded: bool)
    requires i < |fields| && Names(fields[i], name, folded)
    requires forall k :: 0 <= k < i ==> !Names(fields[k], name, folded)
    ensures FirstMatch(fields, name, folded) == Some(i)
  {
  }

  /** Removing what was just added, when nothing of that name existed, restores the clauses. */
  lemma RemoveAfterAdd(fields: seq<string>, name: string, sql: string)
    requires ConstraintName(sql) == Some(name)
    requires FirstMatch(fields, name, true).None?
    ensures WithoutConstraint(WithConstraint(fields, name, sql), name) == fields
  {
    forall k | 0 <= k < |fields|
      ensures !Names(fields[k], name, false)
    {
      if Names(fields[k], name, false) {
        ExactIsFolded(fields[k], name);
      }
    }
    assert WithConstraint(fields, name, sql) == fields + [sql];
    var once := fields + [sql];
    assert Names(sql, name, true);
    assert forall k :: 0 <= k < |fields| ==> once[k] == fields[k];
    FirstMatchAt(once, |fields|, name, true);
    assert once[..|fields|] == fields;
  }

  /**
   * Removal takes out the first clause named `name` in any case and nothing else; when
   * there is none, the clauses are untouched.
   */
  lemma WithoutConstraintShape(a: seq<string>, f: string, b: seq<string>, name: string)
    requires forall k :: 0 <= k < |a| ==> !Names(a[k], name, true)
    requires Names(f, name, true)
    ensures WithoutConstraint(a + [f] + b, name) == a + b
  {
    var fs := a + [f] + b;
    assert forall k :: 0 <= k < |a| ==> fs[k] == a[k];
    assert fs[|a|] == f;
    assert FirstMatch(fs, name, true) == Some(|a|);
    assert fs[..|a|] == a && fs[|a| + 1..] == b;
  }

  /** Adding a named constraint never changes the column names. */
  lemma AddKeepsColumnNames(fields: seq<string>, name: string, sql: string)
    requires ConstraintName(sql).Some?
    ensures ColumnNames(WithConstraint(fields, name, sql)) == ColumnNames(fields)
  {
    var e: seq<string> := [];
    match FirstMatch(fields, name, false)
    case Some(i) =>
      assert fields == fields[..i] + [fields[i]] + fields[i + 1..];
      assert fields[i := sql] == fields[..i] + [sql] + fields[i + 1..];
      NamedIsConstraint(fields[i], name, false);
      ColumnNamesSkip(fields[..i], fields[i], fields[i + 1..]);
      ColumnNamesSkip(fields[..i], sql, fields[i + 1..]);
    case None =>
      assert fields + [sql] == fields + [sql] + e;
      assert fields == fields + e;
      ColumnNamesSkip(fields, sql, e);
  }

  /** A clause that names a constraint is classified as a named constraint. */
  lemma NamedIsConstraint(f: string, name: string, folded: bool)
    requires Names(f, name, folded)
    ensures Classify(f).NamedConstraint?
  {
  }

  /** Removing a named constraint never changes the column names. */
  lemma RemoveKeepsColumnNames(fields: seq<string>, name: string)
    ensures ColumnNames(WithoutConstraint(fields, name)) == ColumnNames(fields)
  {
    match FirstMatch(fields, name, true)
    case Some(i) =>
      assert fields == fields[..i] + [fields[i]] + fields[i + 1..];
      NamedIsConstraint(fields[i], name, true);
      ColumnNamesSkip(fields[..i], fields[i], fields[i + 1..]);
    case None =>
  }

  // ---- the ddl object ----

  /** A parsed table whose clause list the constraint editors change in place. */
  class DDL {
    var head: string
    var fields: seq<string>
    var columns: seq<ColumnMeta>

    constructor (t: Table)
      ensures head == t.head && fields == t.fields && columns == t.columns
    {
      head := t.head;
      fields := t.fields;
      columns := t.columns;
    }

    /** The statement text; see RenderParses for the round trip. */
    function Compile(): (r: string)
      reads this
      ensures r == head <==> fields == []
      ensures |r| >= |head| && r[..|head|] == head
    {
      Render(head, fields)
    }

    /** The backticked names of the stored columns, as a data copy between tables needs them. */
    function GetColumns(): (r: seq<string>)
      reads this
      ensures |r| <= |fields|
      ensures forall k :: 0 <= k < |r| ==> IsBackticked(r[k])
    {
      ColumnNames(fields)
    }

    /** Replaces the clause named exactly `name` by `sql` where it stands, or appends `sql`. */
    method AddConstraint(name: string, sql: string)
      modifies this
      ensures fields == WithConstraint(old(fields), name, sql)
      ensures head == old(head) && columns == old(columns)
    {
      var i := 0;
      while i < |fields| && !Names(fields[i], name, false)
        invariant 0 <= i <= |fields|
        invariant forall k :: 0 <= k < i ==> !Names(fields[k], name, false)
      {
        i := i + 1;
      }
      if i < |fields| {
        FirstMatchAt(fields, i, name, false);
        fields := fields[i := sql];
      } else {
        assert FirstMatch(fields, name, false).None?;
        fields := fields + [sql];
      }
    }

    /**
     * Deletes the first CONSTRAINT clause whose name matches `name` in any letter case,
     * however the clause is spaced and whether or not the name is quoted; reports whether
     * there was one.
     */
    method RemoveConstraint(name: string) returns (removed: bool)
      modifies this
      ensures removed <==> exists k :: 0 <= k < |old(fields)| && Names(old(fields)[k], name, true)
      ensures removed ==> |fields| == |old(fields)| - 1
      ensures fields == WithoutConstraint(old(fields), name)
      ensures head == old(head) && columns == old(columns)
    {
      var i := 0;
      while i < |fields| && !Names(fields[i], name, true)
        invariant 0 <= i <= |fields|
        invariant forall k :: 0 <= k < i ==> !Names(fields[k], name, true)
      {
        i := i + 1;
      }
      if i < |fields| {
        FirstMatchAt(fields, i, name, true);
        fields := fields[..i] + fields[i + 1..];
        removed := true;
      } else {
        assert FirstMatch(fields, name, true).None?;
        removed := false;
      }
    }
  }
}

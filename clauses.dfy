/**
 * The clause classifier: a top-level clause of a table body is a column
 * definition unless its first token is one of the constraint keywords.
 */
module Clauses {
  import opened Wrappers
  import opened Text
  import opened Scanner
  import opened Lexer

  datatype ConstraintKind =
    | PrimaryKey(columns: seq<string>)
    | ForeignKey
    | Check
    | Unique(columns: seq<string>)

  /** What one top-level clause of a table body is. */
  datatype Clause =
    | Column
    | TableConstraint(kind: ConstraintKind)
    | NamedConstraint(name: string, body: Option<ConstraintKind>)

  /** The words that can open a constraint clause, in any letter case. */
  predicate IsLeadingKeyword(t: string) {
    IsKeyword(t, "CONSTRAINT") || IsKeyword(t, "PRIMARY") || IsKeyword(t, "FOREIGN")
    || IsKeyword(t, "CHECK") || IsKeyword(t, "UNIQUE")
  }

  function UnquoteAll(ps: seq<string>): (r: seq<string>)
    ensures |r| == |ps| && forall k :: 0 <= k < |ps| ==> r[k] == Unquote(ps[k])
  {
    if ps == [] then [] else [Unquote(ps[0])] + UnquoteAll(ps[1..])
  }

  /** The column names listed in a group token such as "(`a`,b)", unquoted. */
  function GroupNames(g: string): seq<string> {
    if |g| >= 2 && g[0] == '(' && g[|g| - 1] == ')' then
      match SplitFields(g[1..|g| - 1])
      case Ok(ps) => UnquoteAll(ps)
      case Err(_) => []
    else []
  }

  /** The constraint that tokens spell, if they open with one of its keywords and the group it needs. */
  function KindOf(toks: seq<string>): (r: Option<ConstraintKind>)
    ensures r.Some? ==> |toks| >= 2 && IsLeadingKeyword(toks[0]) && !IsKeyword(toks[0], "CONSTRAINT")
  {
    if |toks| >= 3 && IsKeyword(toks[0], "PRIMARY") && IsKeyword(toks[1], "KEY") && IsGroup(toks[2]) then
      Some(PrimaryKey(GroupNames(toks[2])))
    else if |toks| >= 3 && IsKeyword(toks[0], "FOREIGN") && IsKeyword(toks[1], "KEY") && IsGroup(toks[2]) then
      Some(ForeignKey)
    else if |toks| >= 2 && IsKeyword(toks[0], "CHECK") && IsGroup(toks[1]) then
      Some(Check)
    else if |toks| >= 2 && IsKeyword(toks[0], "UNIQUE") && IsGroup(toks[1]) then
      Some(Unique(GroupNames(toks[1])))
    else None
  }

  /**
   * Classification looks at the leading tokens only: a clause whose first token is
   * not a constraint keyword is a column, and only CONSTRAINT names a constraint.
   */
  function ClassifyTokens(toks: seq<string>): (r: Clause)
    ensures toks == [] || !IsLeadingKeyword(toks[0]) ==> r == Column
    ensures r.NamedConstraint? <==> |toks| >= 2 && IsKeyword(toks[0], "CONSTRAINT")
    ensures r.NamedConstraint? ==> r.name == Unquote(toks[1]) && r.body == KindOf(toks[2..])
  {
    if |toks| >= 2 && IsKeyword(toks[0], "CONSTRAINT") then NamedConstraint(Unquote(toks[1]), KindOf(toks[2..]))
    else match KindOf(toks)
      case Some(k) => TableConstraint(k)
      case None => Column
  }

  function Classify(field: string): Clause {
    ClassifyTokens(Tokens(field))
  }

  /** The name of a CONSTRAINT clause, unquoted; None for every other clause. */
  function ConstraintName(field: string): (r: Option<string>)
    ensures r.Some? <==> |Tokens(field)| >= 2 && IsKeyword(Tokens(field)[0], "CONSTRAINT")
    ensures r.Some? ==> r.value == Unquote(Tokens(field)[1])
  {
    match Classify(field)
    case NamedConstraint(n, _) => Some(n)
    case _ => None
  }

  // ---- how clauses of the usual shapes tokenize ----

  /** A bare word followed by white space, or directly by a group, is a token of its own. */
  lemma WordThen(a: string, w: string, b: string)
    requires IsName(a) && IsBlank(w)
    requires w != [] || (b != [] && b[0] == '(')
    ensures Tokens(a + w + b) == [a] + Tokens(b)
  {
    TokensOfName(a);
    if w == [] {
      assert a + w + b == a + b;
      TokensGroupAfter(a, b);
    } else {
      TokensSplit(a, w, b);
    }
  }

  /** Keywords matched in any letter case are bare words. */
  lemma KeywordIsName(t: string, kw: string)
    requires IsKeyword(t, kw) && IsName(kw)
    ensures IsName(t)
  {
    UpperOfName(t);
  }

  /** A group holding one bare name is one token, and lists that name. */
  lemma GroupOfName(n: string)
    requires IsName(n)
    ensures Tokens("(" + n + ")") == ["(" + n + ")"]
    ensures GroupNames("(" + n + ")") == [n]
  {
    var g := "(" + n + ")";
    TokensOfGroup(n);
    TokensOfName(n);
    assert g[1..|g| - 1] == n;
    assert Join([n]) == n;
    SplitJoin([n]);
    assert Unquote(n) == n;
  }

  lemma {:induction false} EscapeChars(x: string, q: char)
    ensures forall k :: 0 <= k < |Escape(x, q)| ==> Escape(x, q)[k] == q || Escape(x, q)[k] in x
    decreases |x|
  {
    if x != [] {
      EscapeChars(x[1..], q);
      var e := Escape(x[1..], q);
      var h := if x[0] == q then [q, q] else [x[0]];
      assert Escape(x, q) == h + e;
      forall k | 0 <= k < |h + e| ensures (h + e)[k] == q || (h + e)[k] in x {
        if k >= |h| {
          assert (h + e)[k] == e[k - |h|];
          assert x == [x[0]] + x[1..];
          assert e[k - |h|] == q || e[k - |h|] in x[1..];
        }
      }
    }
  }

  /** A group holding one quoted name is one token, and lists the name without its quotes. */
  lemma GroupOfQuoted(n: string, q: QuoteChar)
    requires forall k :: 0 <= k < |n| ==> n[k] != '(' && n[k] != ')'
    ensures Tokens("(" + Quoted(n, q) + ")") == ["(" + Quoted(n, q) + ")"]
    ensures GroupNames("(" + Quoted(n, q) + ")") == [n]
  {
    var x := Quoted(n, q);
    var g := "(" + x + ")";
    EscapeChars(n, q);
    assert x == [q] + Escape(n, q) + [q];
    forall k | 0 <= k < |x| ensures x[k] != '(' && x[k] != ')' {
      if 0 < k < |x| - 1 {
        assert x[k] == Escape(n, q)[k - 1];
      }
    }
    TokensOfGroup(x);
    TokensOfQuoted(n, q);
    assert g[1..|g| - 1] == x;
    assert Join([x]) == x;
    SplitJoin([x]);
    UnquoteQuoted(n, q);
  }

  // ---- classification of the clause shapes a table body holds ----

  /** A clause that opens with a bare name that is not a keyword is a column. */
  lemma NameFirstIsColumn(n: string, w: string, rest: string)
    requires IsName(n) && !IsLeadingKeyword(n)
    requires w != [] && IsBlank(w)
    ensures Classify(n + w + rest) == Column
  {
    WordThen(n, w, rest);
  }

  /** A clause that opens with a quoted name is a column, whatever the name says. */
  lemma QuotedFirstIsColumn(n: string, q: QuoteChar, w: string, rest: string)
    requires w != [] && IsBlank(w)
    ensures Classify(Quoted(n, q) + w + rest) == Column
  {
    TokensOfQuoted(n, q);
    TokensSplit(Quoted(n, q), w, rest);
    assert Upper(Quoted(n, q))[0] == q;
  }

  /** Columns named like a keyword's prefix (Checksum, constraints, unique_code) stay columns. */
  lemma KeywordLikeNamesAreColumns(w: string, rest: string)
    requires w != [] && IsBlank(w)
    ensures Classify("Checksum" + w + rest) == Column
    ensures Classify("constraints" + w + rest) == Column
    ensures Classify("unique_code" + w + rest) == Column
  {
    NotLeadingByLength("Checksum");
    NotLeadingByLength("constraints");
    NotLeadingByLength("unique_code");
    NameFirstIsColumn("Checksum", w, rest);
    NameFirstIsColumn("constraints", w, rest);
    NameFirstIsColumn("unique_code", w, rest);
  }

  /** A word whose length is none of the constraint keywords' lengths is not one of them. */
  lemma NotLeadingByLength(t: string)
    requires |t| != 5 && |t| != 6 && |t| != 7 && |t| != 10
    ensures !IsLeadingKeyword(t)
  {
  }

  /** "CONSTRAINT <name> ..." in any keyword case and with any white space yields the bare name. */
  lemma ConstraintNameOfBare(kw: string, w1: string, n: string, w2: string, rest: string)
    requires IsKeyword(kw, "CONSTRAINT") && IsName(n)
    requires w1 != [] && IsBlank(w1) && w2 != [] && IsBlank(w2)
    ensures ConstraintName(kw + w1 + n + w2 + rest) == Some(n)
  {
    KeywordIsName(kw, "CONSTRAINT");
    WordThen(kw, w1, n + w2 + rest);
    WordThen(n, w2, rest);
    assert kw + w1 + n + w2 + rest == kw + w1 + (n + w2 + rest);
    assert Unquote(n) == n;
  }

  /** The same with a quoted name: the quotes come off. */
  lemma ConstraintNameOfQuoted(kw: string, w1: string, n: string, q: QuoteChar, w2: string, rest: string)
    requires IsKeyword(kw, "CONSTRAINT")
    requires w1 != [] && IsBlank(w1) && w2 != [] && IsBlank(w2)
    ensures ConstraintName(kw + w1 + Quoted(n, q) + w2 + rest) == Some(n)
  {
    var x := Quoted(n, q);
    KeywordIsName(kw, "CONSTRAINT");
    WordThen(kw, w1, x + w2 + rest);
    TokensOfQuoted(n, q);
    TokensSplit(x, w2, rest);
    assert kw + w1 + x + w2 + rest == kw + w1 + (x + w2 + rest);
    UnquoteQuoted(n, q);
  }

  /** "PRIMARY KEY (...)" is a primary-key constraint over the names in its group. */
  lemma PrimaryKeyClause(p: string, w1: string, k: string, w2: string, g: string)
    requires IsKeyword(p, "PRIMARY") && IsKeyword(k, "KEY")
    requires w1 != [] && IsBlank(w1) && IsBlank(w2)
    requires IsGroup(g) && Tokens(g) == [g]
    ensures Classify(p + w1 + k + w2 + g) == TableConstraint(PrimaryKey(GroupNames(g)))
  {
    KeywordIsName(p, "PRIMARY");
    KeywordIsName(k, "KEY");
    WordThen(p, w1, k + w2 + g);
    WordThen(k, w2, g);
    assert p + w1 + k + w2 + g == p + w1 + (k + w2 + g);
  }

  /** "UNIQUE (...)" is a unique constraint over the names in its group. */
  lemma UniqueClause(u: string, w: string, g: string)
    requires IsKeyword(u, "UNIQUE") && IsBlank(w)
    requires IsGroup(g) && Tokens(g) == [g]
    ensures Classify(u + w + g) == TableConstraint(Unique(GroupNames(g)))
  {
    KeywordIsName(u, "UNIQUE");
    WordThen(u, w, g);
  }

  /** "CONSTRAINT <name> UNIQUE (...)" is a named unique constraint. */
  lemma NamedUniqueClause(c: string, w1: string, n: string, q: QuoteChar, w2: string, u: string, w3: string, g: string)
    requires IsKeyword(c, "CONSTRAINT") && IsKeyword(u, "UNIQUE")
    requires w1 != [] && IsBlank(w1) && w2 != [] && IsBlank(w2) && IsBlank(w3)
    requires IsGroup(g) && Tokens(g) == [g]
    ensures Classify(c + w1 + Quoted(n, q) + w2 + u + w3 + g) == NamedConstraint(n, Some(Unique(GroupNames(g))))
  {
    var x := Quoted(n, q);
    var toks := Tokens(c + w1 + x + w2 + u + w3 + g);
    NamedUniqueTokens(c, w1, n, q, w2, u, w3, g);
    assert toks[2..] == [u, g];
    UnquoteQuoted(n, q);
  }

  lemma NamedUniqueTokens(c: string, w1: string, n: string, q: QuoteChar, w2: string, u: string, w3: string, g: string)
    requires IsKeyword(c, "CONSTRAINT") && IsKeyword(u, "UNIQUE")
    requires w1 != [] && IsBlank(w1) && w2 != [] && IsBlank(w2) && IsBlank(w3)
    requires IsGroup(g) && Tokens(g) == [g]
    ensures Tokens(c + w1 + Quoted(n, q) + w2 + u + w3 + g) == [c, Quoted(n, q), u, g]
  {
    var x := Quoted(n, q);
    KeywordIsName(c, "CONSTRAINT");
    KeywordIsName(u, "UNIQUE");
    var t3 := u + w3 + g;
    var t2 := x + w2 + t3;
    WordThen(c, w1, t2);
    TokensOfQuoted(n, q);
    TokensSplit(x, w2, t3);
    WordThen(u, w3, g);
    assert c + w1 + x + w2 + u + w3 + g == c + w1 + t2;
  }

  /** "FOREIGN KEY (" opens a foreign-key constraint, whatever follows. */
  lemma ForeignKeyClause(f: string, w1: string, k: string, w2: string, rest: string)
    requires IsKeyword(f, "FOREIGN") && IsKeyword(k, "KEY")
    requires w1 != [] && IsBlank(w1) && IsBlank(w2) && rest != []
    ensures Classify(f + w1 + k + w2 + "(" + rest) == TableConstraint(ForeignKey)
  {
    KeywordIsName(f, "FOREIGN");
    KeywordIsName(k, "KEY");
    var g := "(" + rest;
    WordThen(f, w1, k + w2 + g);
    WordThen(k, w2, g);
    TokensOfGroupStart(g);
    assert f + w1 + k + w2 + "(" + rest == f + w1 + (k + w2 + g);
  }

  /** "CHECK (" opens a check constraint, whatever follows. */
  lemma CheckClause(c: string, w: string, rest: string)
    requires IsKeyword(c, "CHECK") && IsBlank(w) && rest != []
    ensures Classify(c + w + "(" + rest) == TableConstraint(Check)
  {
    KeywordIsName(c, "CHECK");
    var g := "(" + rest;
    WordThen(c, w, g);
    TokensOfGroupStart(g);
    assert c + w + "(" + rest == c + w + g;
  }
}

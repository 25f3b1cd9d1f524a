/**
 * The column metadata extractor: the structural facts of one column-definition
 * clause, read off its tokens.
 */
module Metadata {
  import opened Wrappers
  import opened Text
  import opened Scanner
  import opened Lexer
  import opened Clauses

  /** One column's structural facts. */
  datatype ColumnMeta = ColumnMeta(
    name: string,
    dataType: string,
    columnType: string,
    length: Option<nat>,
    defaultValue: Option<string>,
    nullable: bool,
    unique: bool,
    primaryKey: bool)

  // ---- numerals ----

  predicate IsDigit(c: char) {
    '0' <= c <= '9'
  }

  predicate IsNumeral(s: string) {
    |s| > 0 && forall i :: 0 <= i < |s| ==> IsDigit(s[i])
  }

  function DigitValue(c: char): nat
    requires IsDigit(c)
  {
    c as int - '0' as int
  }

  function NumeralValue(s: string): nat
    requires forall i :: 0 <= i < |s| ==> IsDigit(s[i])
    decreases |s|
  {
    if s == [] then 0 else NumeralValue(s[..|s| - 1]) * 10 + DigitValue(s[|s| - 1])
  }

  /** The decimal numeral of `n`, without leading zeros. */
  function Numeral(n: nat): (r: string)
    ensures IsNumeral(r)
    decreases n
  {
    (if n < 10 then [] else Numeral(n / 10)) + [('0' as int + n % 10) as char]
  }

  lemma NumeralLast(n: nat)
    ensures var s := Numeral(n);
            s[..|s| - 1] == (if n < 10 then [] else Numeral(n / 10)) && DigitValue(s[|s| - 1]) == n % 10
  {
    var s := Numeral(n);
    var p := if n < 10 then [] else Numeral(n / 10);
    assert s == p + [('0' as int + n % 10) as char];
  }

  lemma {:induction false} NumeralValueOfNumeral(n: nat)
    ensures NumeralValue(Numeral(n)) == n
    decreases n
  {
    NumeralLast(n);
    if n >= 10 {
      NumeralValueOfNumeral(n / 10);
    }
  }

  /** The length a type's parenthesised argument declares: "(500)" declares 500. */
  function LengthOf(g: string): (r: Result<nat, ParseError>)
    ensures r.Err? ==> r.error == BadLength
  {
    if |g| >= 2 && g[|g| - 1] == ')' && IsNumeral(Trim(g[1..|g| - 1])) then
      Ok(NumeralValue(Trim(g[1..|g| - 1])))
    else Err(BadLength)
  }

  /** A declared length reads back as the number written. */
  lemma LengthOfNumeral(n: nat)
    ensures LengthOf("(" + Numeral(n) + ")") == Ok(n)
  {
    var g := "(" + Numeral(n) + ")";
    assert g[1..|g| - 1] == Numeral(n);
    TrimOfTrimmed(Numeral(n));
    NumeralValueOfNumeral(n);
  }

  // ---- modifiers ----

  /** Some token is the keyword `kw`. */
  predicate HasWord(toks: seq<string>, kw: string) {
    exists i :: 0 <= i < |toks| && IsKeyword(toks[i], kw)
  }

  /** Two consecutive tokens are the keywords `a` and `b`. */
  predicate HasPair(toks: seq<string>, a: string, b: string) {
    exists i :: 0 <= i < |toks| - 1 && IsKeyword(toks[i], a) && IsKeyword(toks[i + 1], b)
  }

  /** The token after the first DEFAULT that has one, unquoted. */
  function DefaultOf(toks: seq<string>): Option<string>
    decreases |toks|
  {
    if |toks| < 2 then None
    else if IsKeyword(toks[0], "DEFAULT") then Some(Unquote(toks[1]))
    else DefaultOf(toks[1..])
  }

  /** The first DEFAULT followed by a value gives the default, with its quotes removed. */
  lemma {:induction false} DefaultOfFirst(toks: seq<string>, i: nat)
    requires i < |toks| - 1 && IsKeyword(toks[i], "DEFAULT")
    requires forall j :: 0 <= j < i ==> !IsKeyword(toks[j], "DEFAULT")
    ensures DefaultOf(toks) == Some(Unquote(toks[i + 1]))
    decreases i
  {
    if i > 0 {
      DefaultOfFirst(toks[1..], i - 1);
    }
  }

  /** Without a DEFAULT followed by a value there is no default, not even an empty one. */
  lemma {:induction false} DefaultOfNone(toks: seq<string>)
    requires forall i :: 0 <= i < |toks| - 1 ==> !IsKeyword(toks[i], "DEFAULT")
    ensures DefaultOf(toks) == None
    decreases |toks|
  {
    if |toks| >= 2 {
      assert !IsKeyword(toks[0], "DEFAULT");
      DefaultOfNone(toks[1..]);
    }
  }

  /**
   * The metadata of a column clause given by its tokens: the name, then the type, an
   * optional length group, and modifiers. `keys` and `uniques` are the column names
   * that table-level constraints make primary key and unique.
   */
  function ExtractColumn(toks: seq<string>, keys: seq<string>, uniques: seq<string>): (r: Result<ColumnMeta, ParseError>)
    requires |toks| >= 2
    ensures r.Err? <==> |toks| >= 3 && IsGroup(toks[2]) && LengthOf(toks[2]).Err?
    ensures r.Ok? ==> r.value.name == Unquote(toks[0]) && r.value.dataType == toks[1]
    ensures r.Ok? ==> (r.value.length.Some? <==> |toks| >= 3 && IsGroup(toks[2]))
    ensures r.Ok? && r.value.length.Some? ==> r.value.columnType == toks[1] + toks[2] && LengthOf(toks[2]) == Ok(r.value.length.value)
    ensures r.Ok? && r.value.length.None? ==> r.value.columnType == toks[1]
    ensures r.Ok? ==> (r.value.nullable <==> !HasPair(toks[2..], "NOT", "NULL"))
    ensures r.Ok? ==> r.value.defaultValue == DefaultOf(toks[2..])
    ensures r.Ok? ==> (r.value.primaryKey <==> HasPair(toks[2..], "PRIMARY", "KEY") || r.value.name in keys)
    ensures r.Ok? ==> (r.value.unique <==> HasWord(toks[2..], "UNIQUE") || r.value.name in uniques)
  {
    var name := Unquote(toks[0]);
    var mods := toks[2..];
    var nullable := !HasPair(mods, "NOT", "NULL");
    var primaryKey := HasPair(mods, "PRIMARY", "KEY") || name in keys;
    var unique := HasWord(mods, "UNIQUE") || name in uniques;
    if |toks| >= 3 && IsGroup(toks[2]) then
      match LengthOf(toks[2])
      case Err(e) => Err(e)
      case Ok(n) => Ok(ColumnMeta(name, toks[1], toks[1] + toks[2], Some(n), DefaultOf(mods), nullable, unique, primaryKey))
    else
      Ok(ColumnMeta(name, toks[1], toks[1], None, DefaultOf(mods), nullable, unique, primaryKey))
  }

  // ---- across the clauses of a table ----

  /** A clause that defines a column: classified as one, with a name and a type. */
  predicate IsColumnClause(f: string) {
    Classify(f) == Column && |Tokens(f)| >= 2
  }

  function ConstraintOf(f: string): Option<ConstraintKind> {
    match Classify(f)
    case Column => None
    case TableConstraint(k) => Some(k)
    case NamedConstraint(_, k) => k
  }

  /** `f` is a primary-key constraint naming `n`. */
  predicate DeclaresKey(f: string, n: string) {
    match ConstraintOf(f)
    case Some(PrimaryKey(cs)) => n in cs
    case _ => false
  }

  /** `f` is a unique constraint on the single column `n`. */
  predicate DeclaresUnique(f: string, n: string) {
    ConstraintOf(f) == Some(Unique([n]))
  }

  function ColumnClauses(fields: seq<string>): (r: seq<string>)
    ensures forall k :: 0 <= k < |r| ==> IsColumnClause(r[k]) && |Tokens(r[k])| >= 2
  {
    if fields == [] then []
    else (if IsColumnClause(fields[0]) then [fields[0]] else []) + ColumnClauses(fields[1..])
  }

  /** The columns one clause declares a primary key. */
  function KeysOf(f: string): (r: seq<string>)
    ensures forall n :: n in r <==> DeclaresKey(f, n)
  {
    match ConstraintOf(f) case Some(PrimaryKey(cs)) => cs case _ => []
  }

  /** The column one clause declares unique on its own, if any. */
  function UniquesOf(f: string): (r: seq<string>)
    ensures forall n :: n in r <==> DeclaresUnique(f, n)
  {
    match ConstraintOf(f)
    case Some(Unique(cs)) =>
      if |cs| == 1 then
        assert cs == [cs[0]];
        cs
      else []
    case _ => []
  }

  /** Every column name that a PRIMARY KEY constraint lists. */
  function KeyNames(fields: seq<string>): (r: seq<string>)
    ensures forall n :: n in r <==> exists k :: 0 <= k < |fields| && DeclaresKey(fields[k], n)
  {
    if fields == [] then []
    else
      var tl := fields[1..];
      var r := KeysOf(fields[0]) + KeyNames(tl);
      assert forall k :: 1 <= k < |fields| ==> fields[k] == tl[k - 1];
      assert forall n :: n in r ==> exists k :: 0 <= k < |fields| && DeclaresKey(fields[k], n) by {
        forall n | n in r ensures exists k :: 0 <= k < |fields| && DeclaresKey(fields[k], n) {
          if n !in KeysOf(fields[0]) {
            var k :| 0 <= k < |tl| && DeclaresKey(tl[k], n);
            assert fields[k + 1] == tl[k];
          }
        }
      }
      r
  }

  /** Every column that a single-column UNIQUE constraint names. */
  function UniqueNames(fields: seq<string>): (r: seq<string>)
    ensures forall n :: n in r <==> exists k :: 0 <= k < |fields| && DeclaresUnique(fields[k], n)
  {
    if fields == [] then []
    else
      var tl := fields[1..];
      var r := UniquesOf(fields[0]) + UniqueNames(tl);
      assert forall k :: 1 <= k < |fields| ==> fields[k] == tl[k - 1];
      assert forall n :: n in r ==> exists k :: 0 <= k < |fields| && DeclaresUnique(fields[k], n) by {
        forall n | n in r ensures exists k :: 0 <= k < |fields| && DeclaresUnique(fields[k], n) {
          if n !in UniquesOf(fields[0]) {
            var k :| 0 <= k < |tl| && DeclaresUnique(tl[k], n);
            assert fields[k + 1] == tl[k];
          }
        }
      }
      r
  }

  /** The metadata of the column clauses `cs`, in order; the first bad length fails it. */
  function ColumnsOf(cs: seq<string>, keys: seq<string>, uniques: seq<string>): (r: Result<seq<ColumnMeta>, ParseError>)
    requires forall k :: 0 <= k < |cs| ==> |Tokens(cs[k])| >= 2
    ensures r.Ok? <==> forall k :: 0 <= k < |cs| ==> ExtractColumn(Tokens(cs[k]), keys, uniques).Ok?
    ensures r.Ok? ==> |r.value| == |cs| && forall k :: 0 <= k < |cs| ==> ExtractColumn(Tokens(cs[k]), keys, uniques) == Ok(r.value[k])
    ensures r.Err? ==> r.error == BadLength
  {
    if cs == [] then Ok([])
    else
      var tl := cs[1..];
      assert forall k :: 1 <= k < |cs| ==> cs[k] == tl[k - 1];
      var first := ExtractColumn(Tokens(cs[0]), keys, uniques);
      var rest := ColumnsOf(tl, keys, uniques);
      if first.Err? then Err(first.error)
      else if rest.Err? then Err(rest.error)
      else Ok([first.value] + rest.value)
  }

  /** The columns of a table body: one per column clause, in declaration order. */
  function Columns(fields: seq<string>): Result<seq<ColumnMeta>, ParseError> {
    ColumnsOf(ColumnClauses(fields), KeyNames(fields), UniqueNames(fields))
  }

  // ---- what the metadata of the usual clause shapes is ----

  /** The length group a type may carry: "(500)" for Some(500), nothing for None. */
  function SizeWords(len: Option<nat>): seq<string> {
    if len.Some? then ["(" + Numeral(len.value) + ")"] else []
  }

  /** The type as declared, with its length. */
  function TypeText(ty: string, len: Option<nat>): string {
    ty + if len.Some? then "(" + Numeral(len.value) + ")" else []
  }

  /**
   * A column given as name, type, optional length and modifiers: the name loses its
   * quotes, the length reads back as written, NOT NULL alone clears nullable, and the
   * flags come from the inline modifiers or from the table-level constraints.
   */
  lemma ColumnWords(nm: string, ty: string, len: Option<nat>, mods: seq<string>, keys: seq<string>, uniques: seq<string>)
    requires mods == [] || !IsGroup(mods[0])
    ensures ExtractColumn([nm, ty] + SizeWords(len) + mods, keys, uniques) == Ok(ColumnMeta(
      Unquote(nm), ty, TypeText(ty, len), len, DefaultOf(mods),
      !HasPair(mods, "NOT", "NULL"),
      HasWord(mods, "UNIQUE") || Unquote(nm) in uniques,
      HasPair(mods, "PRIMARY", "KEY") || Unquote(nm) in keys))
  {
    if len.Some? {
      SizedColumnWords(nm, ty, len.value, mods, keys, uniques);
    } else {
      PlainColumnWords(nm, ty, mods, keys, uniques);
    }
  }

  /** ColumnWords for a type with a length group. */
  lemma SizedColumnWords(nm: string, ty: string, n: nat, mods: seq<string>, keys: seq<string>, uniques: seq<string>)
    requires mods == [] || !IsGroup(mods[0])
    ensures ExtractColumn([nm, ty] + SizeWords(Some(n)) + mods, keys, uniques) == Ok(ColumnMeta(
      Unquote(nm), ty, TypeText(ty, Some(n)), Some(n), DefaultOf(mods),
      !HasPair(mods, "NOT", "NULL"),
      HasWord(mods, "UNIQUE") || Unquote(nm) in uniques,
      HasPair(mods, "PRIMARY", "KEY") || Unquote(nm) in keys))
  {
    var g := "(" + Numeral(n) + ")";
    var toks := [nm, ty] + [g] + mods;
    assert [nm, ty] + SizeWords(Some(n)) + mods == toks;
    LengthOfNumeral(n);
    assert toks[2] == g && toks[2..] == [g] + mods;
    AfterGroup(g, mods, "NOT", "NULL");
    AfterGroup(g, mods, "PRIMARY", "KEY");
    AfterGroup(g, mods, "UNIQUE", "");
    AfterGroup(g, mods, "DEFAULT", "");
    var r := ExtractColumn(toks, keys, uniques);
    assert r.Ok? && r.value.length == Some(n);
    assert r.value.columnType == TypeText(ty, Some(n));
  }

  /** ColumnWords for a type without a length group. */
  lemma PlainColumnWords(nm: string, ty: string, mods: seq<string>, keys: seq<string>, uniques: seq<string>)
    requires mods == [] || !IsGroup(mods[0])
    ensures ExtractColumn([nm, ty] + SizeWords(None) + mods, keys, uniques) == Ok(ColumnMeta(
      Unquote(nm), ty, TypeText(ty, None), None, DefaultOf(mods),
      !HasPair(mods, "NOT", "NULL"),
      HasWord(mods, "UNIQUE") || Unquote(nm) in uniques,
      HasPair(mods, "PRIMARY", "KEY") || Unquote(nm) in keys))
  {
    var toks := [nm, ty] + mods;
    assert [nm, ty] + SizeWords(None) + mods == toks;
    assert toks[2..] == mods;
    assert TypeText(ty, None) == ty;
    assert |toks| >= 3 ==> toks[2] == mods[0];
  }

  /** A leading group token is none of the modifier keywords, so it changes none of them. */
  lemma AfterGroup(g: string, mods: seq<string>, a: string, b: string)
    requires g != [] && g[0] == '(' && a != [] && a[0] != '('
    ensures HasPair([g] + mods, a, b) <==> HasPair(mods, a, b)
    ensures HasWord([g] + mods, a) <==> HasWord(mods, a)
    ensures a == "DEFAULT" ==> DefaultOf([g] + mods) == DefaultOf(mods)
  {
    assert !IsKeyword(g, a) by {
      assert Upper(g)[0] == '(';
    }
    AfterGroupPair(g, mods, a, b);
    AfterGroupWord(g, mods, a);
    var t := [g] + mods;
    assert t[1..] == mods;
  }

  lemma AfterGroupPair(g: string, mods: seq<string>, a: string, b: string)
    requires !IsKeyword(g, a)
    ensures HasPair([g] + mods, a, b) <==> HasPair(mods, a, b)
  {
    var t := [g] + mods;
    if HasPair(t, a, b) {
      var i :| 0 <= i < |t| - 1 && IsKeyword(t[i], a) && IsKeyword(t[i + 1], b);
      assert t[i] == mods[i - 1] && t[i + 1] == mods[i];
    }
    if HasPair(mods, a, b) {
      var i :| 0 <= i < |mods| - 1 && IsKeyword(mods[i], a) && IsKeyword(mods[i + 1], b);
      assert t[i + 1] == mods[i] && t[i + 2] == mods[i + 1];
    }
  }

  lemma AfterGroupWord(g: string, mods: seq<string>, a: string)
    requires !IsKeyword(g, a)
    ensures HasWord([g] + mods, a) <==> HasWord(mods, a)
  {
    var t := [g] + mods;
    if HasWord(t, a) {
      var i :| 0 <= i < |t| && IsKeyword(t[i], a);
      assert t[i] == mods[i - 1];
    }
    if HasWord(mods, a) {
      var i :| 0 <= i < |mods| && IsKeyword(mods[i], a);
      assert t[i + 1] == mods[i];
    }
  }

  /** `id integer NOT NULL`: not nullable, no default, flags only from table-level constraints. */
  lemma NotNullColumn(nm: string, ty: string, len: Option<nat>, nt: string, nl: string, keys: seq<string>, uniques: seq<string>)
    requires IsKeyword(nt, "NOT") && IsKeyword(nl, "NULL")
    ensures ExtractColumn([nm, ty] + SizeWords(len) + [nt, nl], keys, uniques) == Ok(ColumnMeta(
      Unquote(nm), ty, TypeText(ty, len), len, None, false, Unquote(nm) in uniques, Unquote(nm) in keys))
  {
    var mods := [nt, nl];
    assert Upper(nt)[0] == 'N';
    ColumnWords(nm, ty, len, mods, keys, uniques);
    assert mods[0] == nt && mods[1] == nl;
    assert HasPair(mods, "NOT", "NULL");
    DefaultOfNone(mods);
  }

  /** `age integer DEFAULT 18`, `text varchar(500) DEFAULT "hello"`: nullable, with the value unquoted as default. */
  lemma DefaultColumn(nm: string, ty: string, len: Option<nat>, d: string, v: string, keys: seq<string>, uniques: seq<string>)
    requires IsKeyword(d, "DEFAULT") && !IsKeyword(v, "UNIQUE")
    ensures ExtractColumn([nm, ty] + SizeWords(len) + [d, v], keys, uniques) == Ok(ColumnMeta(
      Unquote(nm), ty, TypeText(ty, len), len, Some(Unquote(v)), true, Unquote(nm) in uniques, Unquote(nm) in keys))
  {
    var mods := [d, v];
    assert Upper(d)[0] == 'D';
    ColumnWords(nm, ty, len, mods, keys, uniques);
    DefaultOfFirst(mods, 0);
  }

  /** `id integer primary key unique`: primary key and unique, and still nullable. */
  lemma InlineKeyUniqueColumn(nm: string, ty: string, p: string, k: string, u: string, keys: seq<string>, uniques: seq<string>)
    requires IsKeyword(p, "PRIMARY") && IsKeyword(k, "KEY") && IsKeyword(u, "UNIQUE")
    ensures ExtractColumn([nm, ty, p, k, u], keys, uniques) == Ok(ColumnMeta(
      Unquote(nm), ty, ty, None, None, true, true, true))
  {
    var mods := [p, k, u];
    assert Upper(p)[0] == 'P';
    ColumnWords(nm, ty, None, mods, keys, uniques);
    assert [nm, ty] + SizeWords(None) + mods == [nm, ty, p, k, u];
    assert mods[0] == p && mods[1] == k && mods[2] == u;
    assert HasPair(mods, "PRIMARY", "KEY");
    assert HasWord(mods, "UNIQUE");
    DefaultOfNone(mods);
  }

  /**
   * How a column clause is laid out does not matter: with any white space between its
   * words, it is a column clause with the metadata of the words alone.
   */
  lemma ColumnOfLayout(ws: seq<string>, gaps: seq<string>, keys: seq<string>, uniques: seq<string>)
    requires |ws| >= 2 && |gaps| == |ws| - 1 && !IsLeadingKeyword(ws[0])
    requires forall k :: 0 <= k < |ws| ==> IsWordToken(ws[k])
    requires forall k :: 0 <= k < |gaps| ==> IsGap(gaps[k], ws[k + 1])
    ensures IsColumnClause(Layout(ws, gaps))
    ensures ExtractColumn(Tokens(Layout(ws, gaps)), keys, uniques) == ExtractColumn(ws, keys, uniques)
  {
    TokensOfLayout(ws, gaps);
  }

  /**
   * The flags of the j-th column: primary key exactly when inline PRIMARY KEY or a
   * PRIMARY KEY constraint names it; unique exactly when inline UNIQUE or a
   * single-column UNIQUE constraint names it.
   */
  lemma ColumnFlags(fields: seq<string>, j: nat)
    requires Columns(fields).Ok? && j < |Columns(fields).value|
    ensures var c := Columns(fields).value[j];
      var mods := Tokens(ColumnClauses(fields)[j])[2..];
      (c.primaryKey <==> HasPair(mods, "PRIMARY", "KEY") || exists k :: 0 <= k < |fields| && DeclaresKey(fields[k], c.name))
      && (c.unique <==> HasWord(mods, "UNIQUE") || exists k :: 0 <= k < |fields| && DeclaresUnique(fields[k], c.name))
  {
  }
}

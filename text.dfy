/** Character classes and string helpers shared by the scanner, the tokenizer and the DDL model. */
module Text {

  /** ASCII white space, as the trimming of a clause understands it. */
  predicate IsSpace(c: char) {
    c == ' ' || c == '\t' || c == '\n' || c == '\r'
  }

  /** The characters that open and close a quoted identifier or literal. */
  predicate IsQuoteChar(c: char) {
    c == '`' || c == '"' || c == '\''
  }

  /** Letters, digits, '_' and '-': what a bare table, column or constraint name is made of. */
  predicate IsNameChar(c: char) {
    'a' <= c <= 'z' || 'A' <= c <= 'Z' || '0' <= c <= '9' || c == '_' || c == '-'
  }

  predicate IsName(s: string) {
    |s| > 0 && forall i :: 0 <= i < |s| ==> IsNameChar(s[i])
  }

  predicate IsBlank(s: string) {
    forall i :: 0 <= i < |s| ==> IsSpace(s[i])
  }

  /** A string that is empty or begins and ends with something other than white space. */
  predicate IsTrimmed(s: string) {
    s == [] || (!IsSpace(s[0]) && !IsSpace(s[|s| - 1]))
  }

  function UpperChar(c: char): char {
    if 'a' <= c <= 'z' then (c as int - 32) as char else c
  }

  /** ASCII upper-casing; keywords are compared through it. */
  function Upper(s: string): (r: string)
    ensures |r| == |s|
  {
    seq(|s|, i requires 0 <= i < |s| => UpperChar(s[i]))
  }

  /** True when `t` is the keyword `kw` in any ASCII letter case. */
  predicate IsKeyword(t: string, kw: string) {
    Upper(t) == kw
  }

  /** A word that upper-cases to a name is a name: upper-casing only touches letters. */
  lemma UpperOfName(t: string)
    requires IsName(Upper(t))
    ensures IsName(t)
  {
    forall i | 0 <= i < |t|
      ensures IsNameChar(t[i])
    {
      assert Upper(t)[i] == UpperChar(t[i]);
    }
  }

  function TrimLeft(s: string): (r: string)
  {
    if s != [] && IsSpace(s[0]) then TrimLeft(s[1..]) else s
  }

  function TrimRight(s: string): (r: string)
  {
    if s != [] && IsSpace(s[|s| - 1]) then TrimRight(s[..|s| - 1]) else s
  }

  /** Drops leading and trailing white space: spaces, tabs, newlines and carriage returns. */
  function Trim(s: string): string
  {
    TrimRight(TrimLeft(s))
  }

  lemma {:induction false} TrimLeftBounds(s: string) returns (i: nat)
    ensures i <= |s| && TrimLeft(s) == s[i..] && IsBlank(s[..i])
    ensures i == |s| || !IsSpace(s[i])
    decreases |s|
  {
    if s != [] && IsSpace(s[0]) {
      var k := TrimLeftBounds(s[1..]);
      i := k + 1;
      assert s[1..][k..] == s[i..];
      assert s[..i] == [s[0]] + s[1..][..k];
    } else {
      i := 0;
    }
  }

  lemma {:induction false} TrimRightBounds(s: string) returns (j: nat)
    ensures j <= |s| && TrimRight(s) == s[..j] && IsBlank(s[j..])
    ensures j == 0 || !IsSpace(s[j - 1])
    decreases |s|
  {
    if s != [] && IsSpace(s[|s| - 1]) {
      j := TrimRightBounds(s[..|s| - 1]);
      assert s[..|s| - 1][..j] == s[..j];
      assert s[j..] == s[..|s| - 1][j..] + [s[|s| - 1]];
    } else {
      j := |s|;
    }
  }

  /** Trim(s) is trimmed, and is a slice of `s` with only white space cut away on either side. */
  lemma TrimBounds(s: string) returns (i: nat, j: nat)
    ensures i <= j <= |s| && Trim(s) == s[i..j]
    ensures IsBlank(s[..i]) && IsBlank(s[j..])
    ensures IsTrimmed(Trim(s))
  {
    i := TrimLeftBounds(s);
    var l := TrimLeft(s);
    var k := TrimRightBounds(l);
    j := i + k;
    assert l[..k] == s[i..j];
    assert s[j..] == l[k..];
    if k > 0 {
      assert l[0] == s[i];
    }
  }

  /** Trimming leaves an already trimmed string alone. */
  lemma TrimOfTrimmed(s: string)
    requires IsTrimmed(s)
    ensures Trim(s) == s
  {
  }

  lemma {:induction false} TrimLeftBlank(w: string, x: string)
    requires IsBlank(w)
    ensures TrimLeft(w + x) == TrimLeft(x)
    decreases |w|
  {
    if w == [] {
      assert w + x == x;
    } else {
      assert (w + x)[0] == w[0] && (w + x)[1..] == w[1..] + x;
      TrimLeftBlank(w[1..], x);
    }
  }

  /** White space in front of a trimmed string is all that trimming removes. */
  lemma TrimPadded(w: string, x: string)
    requires IsBlank(w) && IsTrimmed(x)
    ensures Trim(w + x) == x
  {
    TrimLeftBlank(w, x);
    TrimOfTrimmed(x);
  }

  /** Joins with a bare comma, as the table body is rebuilt. */
  function Join(ps: seq<string>): string
  {
    if |ps| == 0 then [] else if |ps| == 1 then ps[0] else ps[0] + "," + Join(ps[1..])
  }

  /** Each element trimmed, in order. */
  function TrimAll(ps: seq<string>): (r: seq<string>)
    ensures |r| == |ps| && forall k :: 0 <= k < |ps| ==> r[k] == Trim(ps[k])
  {
    if ps == [] then [] else [Trim(ps[0])] + TrimAll(ps[1..])
  }
}

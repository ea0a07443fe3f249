/** A1 addressing of the transfer-tracking sheet (apps/app3.py): quoting a
    sheet title for use in a range, and bijective base-26 column letters. */
module SheetAddress {
  import opened Text

  /** Characters that force a sheet title to be quoted in an A1 range. */
  predicate IsSpecial(c: char) {
    c == ' ' || c == '!' || c == '\'' || c == ',' || c == ';' || c == ':' || c == '[' || c == ']'
  }

  predicate NeedsQuoting(title: string) {
    exists i :: 0 <= i < |title| && IsSpecial(title[i])
  }

  /** `t.replace("'", "''")`. */
  function DoubleQuotes(t: string): (r: string)
    ensures |r| >= |t|
    ensures '\'' !in t ==> r == t
  {
    if t == [] then []
    else (if t[0] == '\'' then "''" else [t[0]]) + DoubleQuotes(t[1..])
  }

  /** Doubling works character by character: a quote becomes two quotes and
      any other character stays as it is. */
  lemma DoubleQuotesOne(c: char)
    ensures DoubleQuotes([c]) == if c == '\'' then "''" else [c]
  {
    assert [c][1..] == [];
  }

  /** Doubling a concatenation doubles each part, in place. */
  lemma {:induction false} DoubleQuotesSplit(a: string, b: string)
    ensures DoubleQuotes(a + b) == DoubleQuotes(a) + DoubleQuotes(b)
    decreases |a|
  {
    if a == [] {
      assert a + b == b;
    } else {
      var ab := a + b;
      assert ab[0] == a[0] && ab[1..] == a[1..] + b;
      DoubleQuotesSplit(a[1..], b);
    }
  }

  /** Reads `''` back as `'`; the inverse of `DoubleQuotes`. */
  function UndoubleQuotes(s: string): string {
    if s == [] then []
    else if |s| >= 2 && s[0] == '\'' && s[1] == '\'' then "'" + UndoubleQuotes(s[2..])
    else [s[0]] + UndoubleQuotes(s[1..])
  }

  lemma {:induction false} UndoubleDouble(t: string)
    ensures UndoubleQuotes(DoubleQuotes(t)) == t
    decreases |t|
  {
    if t != [] {
      UndoubleDouble(t[1..]);
      var d := DoubleQuotes(t[1..]);
      if t[0] == '\'' {
        assert ("''" + d)[2..] == d;
      } else {
        assert ([t[0]] + d)[1..] == d;
      }
      assert t == [t[0]] + t[1..];
    }
  }

  /** `_a1_sheet`: a title with a special character is wrapped in single
      quotes with its quotes doubled; any other title is used as is. */
  function A1Sheet(title: string): (r: string)
    ensures !NeedsQuoting(title) ==> r == title
    ensures NeedsQuoting(title) ==> |r| >= |title| + 2 && r[0] == '\'' && r[|r| - 1] == '\''
    ensures NeedsQuoting(title) ==> r == "'" + DoubleQuotes(title) + "'"
  {
    if NeedsQuoting(title) then "'" + DoubleQuotes(title) + "'" else title
  }

  /** The title `O'Hare` has a quote, so it is quoted with that quote doubled. */
  lemma A1SheetExample(title: string)
    requires title == "O'Hare"
    ensures A1Sheet(title) == "'O''Hare'"
  {
    assert IsSpecial(title[1]);
    DoubledExample(title);
  }

  lemma DoubledExample(title: string)
    requires title == "O'Hare"
    ensures DoubleQuotes(title) == "O''Hare"
  {
    var a, b := "O", "Hare";
    assert title == a + "'" + b;
    assert '\'' !in a && '\'' !in b;
    OneQuoteDoubled(a, b);
    assert a + "''" + b == "O''Hare";
  }

  /** A text with one quote gets exactly that quote doubled. */
  lemma OneQuoteDoubled(a: string, b: string)
    requires '\'' !in a && '\'' !in b
    ensures DoubleQuotes(a + "'" + b) == a + "''" + b
  {
    DoubleQuotesSplit(a + "'", b);
    DoubleQuotesSplit(a, "'");
    DoubleQuotesOne('\'');
  }

  /** How a reader of an A1 range recovers the title. */
  function Unquote(r: string): string {
    if |r| >= 2 && r[0] == '\'' && r[|r| - 1] == '\'' then UndoubleQuotes(r[1..|r| - 1]) else r
  }

  /** Quoting never loses the title. */
  lemma A1SheetRoundTrip(title: string)
    ensures Unquote(A1Sheet(title)) == title
  {
    if NeedsQuoting(title) {
      var d := DoubleQuotes(title);
      assert ("'" + d + "'")[1..|d| + 1] == d;
      UndoubleDouble(title);
    } else if |title| >= 2 && title[0] == '\'' {
      assert IsSpecial(title[0]);
    }
  }

  /** `_col_letter(n)`: the column name of 1-based column `n` in bijective
      base 26; nothing for `n <= 0`. */
  function ColLetter(n: int): (s: string)
    ensures s == [] <==> n <= 0
    ensures AllUpperLetters(s)
    decreases n
  {
    if n <= 0 then ""
    else
      var s := ColLetter((n - 1) / 26) + [('A' as int + (n - 1) % 26) as char];
      assert s[|s| - 1] == ('A' as int + (n - 1) % 26) as char;
      s
  }

  /** The column number a column name denotes. */
  function ColNumber(s: string): (n: nat)
    requires AllUpperLetters(s)
    ensures s != [] ==> n >= 1
  {
    if s == [] then 0
    else ColNumber(s[..|s| - 1]) * 26 + (s[|s| - 1] as int - 'A' as int + 1)
  }

  lemma {:induction false} ColNumberOfLetter(n: int)
    ensures ColNumber(ColLetter(n)) == if n <= 0 then 0 else n
    decreases n
  {
    if n > 0 {
      var q, d := (n - 1) / 26, (n - 1) % 26;
      ColNumberOfLetter(q);
      var s := ColLetter(n);
      assert s[..|s| - 1] == ColLetter(q);
      assert s[|s| - 1] as int - 'A' as int == d;
      assert q * 26 + d == n - 1;
      assert ColNumber(s) == ColNumber(ColLetter(q)) * 26 + d + 1;
    }
  }

  lemma {:induction false} ColLetterOfNumber(s: string)
    requires AllUpperLetters(s)
    ensures ColLetter(ColNumber(s)) == s
    decreases |s|
  {
    if s != [] {
      var init := s[..|s| - 1];
      var d := s[|s| - 1] as int - 'A' as int;
      ColLetterOfNumber(init);
      var n := ColNumber(s);
      assert n - 1 == ColNumber(init) * 26 + d;
      DivMod26(ColNumber(init), d);
      assert ('A' as int + d) as char == s[|s| - 1];
      assert s == init + [s[|s| - 1]];
    }
  }

  lemma DivMod26(q: nat, d: int)
    requires 0 <= d < 26
    ensures (q * 26 + d) / 26 == q && (q * 26 + d) % 26 == d
  {
  }

  /** Distinct column numbers get distinct names. */
  lemma ColLetterInjective(m: int, n: int)
    requires m >= 1 && n >= 1 && ColLetter(m) == ColLetter(n)
    ensures m == n
  {
    ColNumberOfLetter(m);
    ColNumberOfLetter(n);
  }

  lemma ColLetterExamples()
    ensures ColLetter(1) == "A" && ColLetter(26) == "Z" && ColLetter(27) == "AA"
    ensures ColLetter(52) == "AZ" && ColLetter(702) == "ZZ" && ColLetter(703) == "AAA"
    ensures ColLetter(0) == ""
  {
    assert ColLetter(26) == "Z";
    assert ColLetter(27) == "AA";
    assert ColLetter(52) == "AZ";
    assert ColLetter(702) == ColLetter(26) + "Z";
    assert ColLetter(703) == ColLetter(27) + "A";
  }

  /** The `while n > 0: n, r = divmod(n - 1, 26)` loop itself. */
  method ColLetterLoop(n0: int) returns (s: string)
    ensures s == ColLetter(n0)
    ensures n0 >= 1 ==> ColNumber(s) == n0
  {
    var n := n0;
    s := "";
    while n > 0
      invariant ColLetter(n) + s == ColLetter(n0)
      decreases n
    {
      var r := (n - 1) % 26;
      assert ColLetter(n) == ColLetter((n - 1) / 26) + [('A' as int + r) as char];
      n := (n - 1) / 26;
      s := [('A' as int + r) as char] + s;
    }
    assert ColLetter(n) == [];
    ColNumberOfLetter(n0);
  }
}

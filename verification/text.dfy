/** String helpers mirroring the Python built-ins the pages lean on:
    `str.strip()`, `str.upper()`, decimal rendering and parsing, substring
    search and whitespace splitting. */
module Text {

  /** Python's `str.isspace()`: the ASCII controls 9-13 and 28-31, the space,
      NEL, NBSP and the Unicode space separators. */
  predicate IsSpace(c: char) {
    || c == ' '
    || ('\t' <= c <= '\r')
    || ('\U{1C}' <= c <= '\U{1F}')
    || c == '\U{85}'
    || c == '\U{A0}'
    || c == '\U{1680}'
    || ('\U{2000}' <= c <= '\U{200A}')
    || c == '\U{2028}'
    || c == '\U{2029}'
    || c == '\U{202F}'
    || c == '\U{205F}'
    || c == '\U{3000}'
  }

  /** A string with no whitespace at either end. */
  predicate Stripped(s: string) {
    s == [] || (!IsSpace(s[0]) && !IsSpace(s[|s| - 1]))
  }

  predicate AllSpace(s: string) {
    forall k :: 0 <= k < |s| ==> IsSpace(s[k])
  }

  function TrimLeft(s: string): (r: string)
    ensures |r| <= |s| && r == s[|s| - |r|..]
    ensures AllSpace(s[..|s| - |r|])
    ensures r == [] || !IsSpace(r[0])
  {
    if s != [] && IsSpace(s[0]) then TrimLeft(s[1..]) else s
  }

  function TrimRight(s: string): (r: string)
    ensures |r| <= |s| && r == s[..|r|]
    ensures AllSpace(s[|r|..])
    ensures r == [] || !IsSpace(r[|r| - 1])
  {
    if s != [] && IsSpace(s[|s| - 1]) then
      var init := s[..|s| - 1];
      var r := TrimRight(init);
      assert init[..|r|] == s[..|r|];
      assert s[|r|..] == init[|r|..] + [s[|s| - 1]];
      AllSpaceConcat(init[|r|..], [s[|s| - 1]]);
      r
    else s
  }

  /** `str.strip()` with no argument: whitespace is dropped from both ends. */
  function Strip(s: string): (r: string)
    ensures Stripped(r) && |r| <= |s|
    ensures Stripped(s) ==> r == s
    decreases |s|
  {
    if s != [] && IsSpace(s[0]) then Strip(s[1..])
    else if s != [] && IsSpace(s[|s| - 1]) then Strip(s[..|s| - 1])
    else s
  }

  lemma AllSpaceConcat(x: string, y: string)
    requires AllSpace(x) && AllSpace(y)
    ensures AllSpace(x + y)
  {
    forall k | 0 <= k < |x + y| ensures IsSpace((x + y)[k]) {
      if k >= |x| {
        assert (x + y)[k] == y[k - |x|];
      }
    }
  }

  /** `r` is `s[a..b]` and everything outside that window is whitespace. */
  predicate SpaceAround(s: string, r: string, a: int, b: int) {
    0 <= a <= b <= |s| && r == s[a..b] && AllSpace(s[..a]) && AllSpace(s[b..])
  }

  /** What `strip` removes is whitespace, and what it keeps is one contiguous
      piece of the input. */
  lemma {:induction false} StripSlice(s: string)
    ensures exists a, b :: SpaceAround(s, Strip(s), a, b)
    decreases |s|
  {
    if s != [] && IsSpace(s[0]) {
      var t := s[1..];
      StripSlice(t);
      var a, b :| SpaceAround(t, Strip(t), a, b);
      ShiftRight(s, a, b);
      assert SpaceAround(s, Strip(s), a + 1, b + 1);
    } else if s != [] && IsSpace(s[|s| - 1]) {
      var init := s[..|s| - 1];
      StripSlice(init);
      var a, b :| SpaceAround(init, Strip(init), a, b);
      ExtendRight(s, a, b);
      assert SpaceAround(s, Strip(s), a, b);
    } else {
      assert s[0..|s|] == s && s[..0] == [] && s[|s|..] == [];
      assert SpaceAround(s, Strip(s), 0, |s|);
    }
  }

  lemma ShiftRight(s: string, a: int, b: int)
    requires s != [] && IsSpace(s[0]) && SpaceAround(s[1..], Strip(s[1..]), a, b)
    ensures SpaceAround(s, Strip(s[1..]), a + 1, b + 1)
  {
    var t := s[1..];
    assert t[a..b] == s[a + 1..b + 1];
    assert t[b..] == s[b + 1..];
    assert s[..a + 1] == s[..1] + t[..a];
    AllSpaceConcat(s[..1], t[..a]);
  }

  lemma ExtendRight(s: string, a: int, b: int)
    requires s != [] && IsSpace(s[|s| - 1]) && SpaceAround(s[..|s| - 1], Strip(s[..|s| - 1]), a, b)
    ensures SpaceAround(s, Strip(s[..|s| - 1]), a, b)
  {
    var init := s[..|s| - 1];
    assert init[a..b] == s[a..b] && init[..a] == s[..a];
    assert s[b..] == init[b..] + s[|s| - 1..];
    AllSpaceConcat(init[b..], s[|s| - 1..]);
  }

  /** `strip` leaves nothing exactly when the input is all whitespace. */
  lemma {:induction false} StripBlank(s: string)
    ensures Strip(s) == [] <==> AllSpace(s)
    decreases |s|
  {
    if s != [] && IsSpace(s[0]) {
      StripBlank(s[1..]);
      assert s == s[..1] + s[1..];
      if AllSpace(s[1..]) {
        AllSpaceConcat(s[..1], s[1..]);
      }
    } else if s != [] && IsSpace(s[|s| - 1]) {
      var init := s[..|s| - 1];
      StripBlank(init);
      assert init[0] == s[0];
    }
  }

  lemma StripIdempotent(s: string)
    ensures Strip(Strip(s)) == Strip(s)
  {
  }

  predicate IsDigit(c: char) { '0' <= c <= '9' }

  predicate AllDigits(s: string) {
    forall k :: 0 <= k < |s| ==> IsDigit(s[k])
  }

  predicate IsUpperLetter(c: char) { 'A' <= c <= 'Z' }

  predicate AllUpperLetters(s: string) {
    forall k :: 0 <= k < |s| ==> IsUpperLetter(s[k])
  }

  /** `str.upper()` on the ASCII letters; every other character is kept. */
  function UpperChar(c: char): char {
    if 'a' <= c <= 'z' then (c as int - 32) as char else c
  }

  /** Case folding used by a case-insensitive match, on the ASCII letters. */
  function LowerChar(c: char): char {
    if 'A' <= c <= 'Z' then (c as int + 32) as char else c
  }

  function Upper(s: string): (r: string)
    ensures |r| == |s|
    ensures forall k :: 0 <= k < |s| ==> r[k] == UpperChar(s[k])
  {
    seq(|s|, k requires 0 <= k < |s| => UpperChar(s[k]))
  }

  function Lower(s: string): (r: string)
    ensures |r| == |s|
    ensures forall k :: 0 <= k < |s| ==> r[k] == LowerChar(s[k])
  {
    seq(|s|, k requires 0 <= k < |s| => LowerChar(s[k]))
  }

  function DigitChar(d: nat): (c: char)
    requires d < 10
    ensures IsDigit(c)
  {
    ('0' as int + d) as char
  }

  function DigitValue(c: char): (d: nat)
    requires IsDigit(c)
    ensures d < 10 && DigitChar(d) == c
  {
    c as int - '0' as int
  }

  /** Length of the run of decimal digits at the start of `s`. */
  function DigitRun(s: string): (n: nat)
    ensures n <= |s| && AllDigits(s[..n])
    ensures n < |s| ==> !IsDigit(s[n])
  {
    if s != [] && IsDigit(s[0]) then
      var n := 1 + DigitRun(s[1..]);
      assert s[..n] == [s[0]] + s[1..][..n - 1];
      n
    else 0
  }

  /** A digit run of length `n` followed by a non-digit is the whole run. */
  lemma {:induction false} DigitRunOf(s: string, n: nat)
    requires n < |s| && AllDigits(s[..n]) && !IsDigit(s[n])
    ensures DigitRun(s) == n
    decreases n
  {
    if n > 0 {
      assert IsDigit(s[..n][0]);
      assert s[1..][..n - 1] == s[1..n];
      DigitRunOf(s[1..], n - 1);
    }
  }

  /** `str(n)` for a non-negative integer: decimal digits, no leading zero. */
  function NatToString(n: nat): (s: string)
    ensures |s| >= 1 && AllDigits(s)
    ensures |s| > 1 ==> s[0] != '0'
  {
    if n < 10 then [DigitChar(n)] else NatToString(n / 10) + [DigitChar(n % 10)]
  }

  /** `int(s)` for a string of decimal digits; leading zeros are ignored. */
  function DecimalValue(s: string): nat
    requires AllDigits(s)
  {
    if s == [] then 0 else DecimalValue(s[..|s| - 1]) * 10 + DigitValue(s[|s| - 1])
  }

  lemma {:induction false} DecimalRoundTrip(n: nat)
    ensures DecimalValue(NatToString(n)) == n
  {
    var s := NatToString(n);
    if n >= 10 {
      DecimalRoundTrip(n / 10);
      assert s[..|s| - 1] == NatToString(n / 10);
    }
  }

  /** A canonical digit string (no leading zero) is the rendering of its value. */
  lemma {:induction false} CanonicalDecimal(s: string)
    requires AllDigits(s) && s != [] && (|s| > 1 ==> s[0] != '0')
    ensures NatToString(DecimalValue(s)) == s
    decreases |s|
  {
    var init := s[..|s| - 1];
    if |s| > 1 {
      assert init[0] == s[0];
      CanonicalDecimal(init);
      var v := DecimalValue(s);
      assert NatToString(0) == "0";
      assert init != "0";
      assert DecimalValue(init) >= 1;
      assert v / 10 == DecimalValue(init) && v % 10 == DigitValue(s[|s| - 1]);
      assert s == init + [s[|s| - 1]];
    }
  }

  lemma NatToStringInjective(m: nat, n: nat)
    requires NatToString(m) == NatToString(n)
    ensures m == n
  {
    DecimalRoundTrip(m);
    DecimalRoundTrip(n);
  }

  /** Decimal value of `int(s)` is unchanged by leading zeros. */
  lemma {:induction false} DecimalLeadingZero(s: string)
    requires AllDigits(s)
    ensures DecimalValue("0" + s) == DecimalValue(s)
    decreases |s|
  {
    if s != [] {
      var t := "0" + s;
      assert t[..|t| - 1] == "0" + s[..|s| - 1];
      DecimalLeadingZero(s[..|s| - 1]);
    }
  }

  /** `sub` occurs in `s` starting at position `i`. */
  predicate OccursAt(sub: string, s: string, i: nat) {
    i + |sub| <= |s| && s[i..i + |sub|] == sub
  }

  lemma NoLongOccurrence(sub: string, s: string)
    requires !(sub <= s) && |s| <= |sub|
    ensures forall i: nat :: !OccursAt(sub, s, i)
  {
    forall i: nat
      ensures !OccursAt(sub, s, i)
    {
      if i + |sub| <= |s| {
        assert s[i..i + |sub|] == s[..|sub|];
      }
    }
  }

  /** `sub in s` for Python strings: `sub` occurs as a contiguous substring. */
  predicate IsInfix(sub: string, s: string)
    decreases |s|
  {
    if sub <= s then true
    else if |s| <= |sub| then false
    else IsInfix(sub, s[1..])
  }

  /** The declarative meaning of `IsInfix`: some window of `s` equals `sub`. */
  lemma {:induction false} IsInfixMeaning(sub: string, s: string)
    ensures IsInfix(sub, s) <==> exists i: nat :: OccursAt(sub, s, i)
    decreases |s|
  {
    if sub <= s {
      assert OccursAt(sub, s, 0);
    } else if |s| <= |sub| {
      NoLongOccurrence(sub, s);
    } else {
      IsInfixMeaning(sub, s[1..]);
      OccursAfterFirst(sub, s);
    }
  }

  /** When `sub` is not a prefix of `s`, it occurs in `s` exactly when it
      occurs in `s` past the first character. */
  lemma OccursAfterFirst(sub: string, s: string)
    requires s != [] && !(sub <= s)
    ensures (exists i: nat :: OccursAt(sub, s[1..], i)) <==> (exists i: nat :: OccursAt(sub, s, i))
  {
    var t := s[1..];
    if exists i: nat :: OccursAt(sub, t, i) {
      var i: nat :| OccursAt(sub, t, i);
      assert s[i + 1..i + 1 + |sub|] == t[i..i + |sub|];
      assert OccursAt(sub, s, i + 1);
    }
    if exists i: nat :: OccursAt(sub, s, i) {
      var i: nat :| OccursAt(sub, s, i);
      if i > 0 {
        assert t[i - 1..i - 1 + |sub|] == s[i..i + |sub|];
        assert OccursAt(sub, t, i - 1);
      }
    }
  }

  /** Length of the longest prefix of non-whitespace characters. */
  function WordLength(s: string): (n: nat)
    ensures n <= |s|
    ensures forall k :: 0 <= k < n ==> !IsSpace(s[k])
    ensures n < |s| ==> IsSpace(s[n])
  {
    if s == [] || IsSpace(s[0]) then 0 else 1 + WordLength(s[1..])
  }

  predicate NoSpace(w: string) {
    forall k :: 0 <= k < |w| ==> !IsSpace(w[k])
  }

  /** `[k.strip() for k in re.split(r"\s+", s.strip()) if k.strip()]`: the
      maximal runs of non-whitespace characters, in order. */
  function Words(s: string): (ws: seq<string>)
    decreases |s|
  {
    var t := TrimLeft(s);
    if t == [] then []
    else
      var n := WordLength(t);
      [t[..n]] + Words(t[n..])
  }

  /** Every word is non-empty and holds no whitespace. */
  lemma {:induction false} WordsAreTerms(s: string)
    ensures forall i :: 0 <= i < |Words(s)| ==> Words(s)[i] != [] && NoSpace(Words(s)[i])
    decreases |s|
  {
    var t := TrimLeft(s);
    if t != [] {
      var n := WordLength(t);
      var w := t[..n];
      assert w != [] && w[0] == t[0];
      assert NoSpace(w) by {
        forall k | 0 <= k < |w| ensures !IsSpace(w[k]) {
          assert w[k] == t[k];
        }
      }
      WordsAreTerms(t[n..]);
      assert Words(s) == [w] + Words(t[n..]);
      ConsTerms(w, Words(t[n..]));
    }
  }

  lemma ConsTerms(w: string, rest: seq<string>)
    requires w != [] && NoSpace(w)
    requires forall i :: 0 <= i < |rest| ==> rest[i] != [] && NoSpace(rest[i])
    ensures forall i :: 0 <= i < |[w] + rest| ==> ([w] + rest)[i] != [] && NoSpace(([w] + rest)[i])
  {
    var ws := [w] + rest;
    forall i | 0 < i < |ws| ensures ws[i] != [] && NoSpace(ws[i]) {
      assert ws[i] == rest[i - 1];
    }
  }

  /** A blank query has no terms. */
  lemma WordsOfBlank(s: string)
    requires AllSpace(s)
    ensures Words(s) == []
  {
    var t := TrimLeft(s);
    if t != [] {
      assert t[0] == s[|s| - |t|];
    }
  }

  /** A single word with no surrounding whitespace splits into itself. */
  lemma WordsOfWord(w: string)
    requires w != [] && NoSpace(w)
    ensures Words(w) == [w]
  {
    assert TrimLeft(w) == w;
    assert WordLength(w) == |w| by {
      if WordLength(w) < |w| {
        assert IsSpace(w[WordLength(w)]);
      }
    }
    assert w[..|w|] == w && w[|w|..] == [];
    assert TrimLeft([]) == [];
    assert Words([]) == [];
  }

  /** Leading whitespace is dropped by `TrimLeft` whatever follows it. */
  lemma {:induction false} TrimLeftAfterSpace(p: string, s: string)
    requires AllSpace(p)
    ensures TrimLeft(p + s) == TrimLeft(s)
    decreases |p|
  {
    if p != [] {
      var ps := p + s;
      assert ps[0] == p[0] && ps[1..] == p[1..] + s;
      TrimLeftAfterSpace(p[1..], s);
    } else {
      assert p + s == s;
    }
  }

  /** Whitespace before a query does not change its terms. */
  lemma WordsAfterSpace(p: string, s: string)
    requires AllSpace(p)
    ensures Words(p + s) == Words(s)
  {
    TrimLeftAfterSpace(p, s);
  }

  /** A word ends where whitespace, or the text, begins. */
  lemma WordLengthOfWord(w: string, rest: string)
    requires NoSpace(w)
    requires rest == [] || IsSpace(rest[0])
    ensures WordLength(w + rest) == |w|
  {
    assert forall k :: 0 <= k < |w| ==> (w + rest)[k] == w[k];
    assert rest != [] ==> (w + rest)[|w|] == rest[0];
  }

  /** The first term of a query is its first run of non-whitespace
      characters; the terms after it are those of the rest of the query,
      past the whitespace that ends the run. */
  lemma WordsSplit(p: string, w: string, sp: string, r: string)
    requires AllSpace(p) && AllSpace(sp) && sp != []
    requires w != [] && NoSpace(w)
    ensures Words(p + w + sp + r) == [w] + Words(r)
  {
    var t := w + (sp + r);
    assert p + w + sp + r == p + t;
    WordsAfterSpace(p, t);
    assert TrimLeft(t) == t by {
      assert t[0] == w[0];
    }
    assert (sp + r)[0] == sp[0];
    WordLengthOfWord(w, sp + r);
    assert t[..|w|] == w && t[|w|..] == sp + r;
    WordsAfterSpace(sp, r);
  }

  /** A query that ends in its last run of non-whitespace characters has
      that run as its last term. */
  lemma WordsOfLast(p: string, w: string)
    requires AllSpace(p)
    requires w != [] && NoSpace(w)
    ensures Words(p + w) == [w]
  {
    WordsAfterSpace(p, w);
    WordsOfWord(w);
  }
}

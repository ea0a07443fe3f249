/** Cell and header clean-up of the transfer-tracking page (apps/app3.py):
    waybill normalisation, blank detection, header de-duplication and row
    padding. */
module Header {
  import opened Base
  import opened Text
  import opened Seqs

  // ---- _norm_wb ----

  /** Digits a double holds exactly: every integer below 10^15 is one. */
  const ExactDigits: nat := 15

  /** `s[:-2]` when `s.endswith(".0")`. */
  function DropPointZero(s: string): (r: string)
    ensures r == s || (s == r + ".0")
  {
    if |s| >= 2 && s[|s| - 2..] == ".0" then
      assert s == s[..|s| - 2] + ".0";
      s[..|s| - 2]
    else s
  }

  predicate AllZeros(s: string) {
    forall k :: 0 <= k < |s| ==> s[k] == '0'
  }

  /** `z` is what may follow the digits of a whole number written as a float:
      nothing, or a point and any number of zeros. */
  predicate ZeroFraction(z: string) {
    z == [] || (z[0] == '.' && AllZeros(z[1..]))
  }

  /** `t` is `d + z`: at most `ExactDigits` digits, then a zero fraction. */
  predicate WholeNumberAt(t: string, p: nat) {
    0 < p <= ExactDigits && p <= |t| && AllDigits(t[..p]) && ZeroFraction(t[p..])
  }

  /** Length of the integer part when `t` is `digits` or `digits.zeros` with
      at most `ExactDigits` integer digits: text whose float value is a whole
      number that a double holds exactly. */
  function WholeNumberDigits(t: string): (p: Option<nat>)
    ensures p.Some? ==> WholeNumberAt(t, p.value)
    ensures forall n: nat :: WholeNumberAt(t, n) ==> p == Some(n)
  {
    var p := DigitRun(t);
    forall n: nat | WholeNumberAt(t, n) ensures p == n {
      if n < |t| {
        assert t[n] == t[n..][0];
        DigitRunOf(t, n);
      } else {
        assert t[..n] == t;
      }
    }
    if 0 < p <= ExactDigits && (p == |t| || (t[p] == '.' && AllZeros(t[p + 1..]))) then
      assert p < |t| ==> t[p..][0] == t[p] && t[p..][1..] == t[p + 1..];
      Some(p)
    else
      assert p < |t| ==> t[p..][0] == t[p] && t[p..][1..] == t[p + 1..];
      None
  }

  /** Text made only of digits and points: the only text `float()` could read
      as a whole number here. */
  predicate DigitsAndPoints(s: string) {
    forall k :: 0 <= k < |s| ==> IsDigit(s[k]) || s[k] == '.'
  }

  /** `_norm_wb`: strip, drop one trailing `.0`, and rewrite text that reads
      as a whole number as that number's decimal form, leading zeros gone.
      Other text is returned as it stands after the first two steps. */
  function NormWb(v: Option<string>): (r: string)
    ensures v.None? ==> r == ""
    ensures !DigitsAndPoints(Strip(v.GetOr(""))) ==> r == DropPointZero(Strip(v.GetOr("")))
    ensures r == DropPointZero(Strip(v.GetOr(""))) || (AllDigits(r) && (|r| > 1 ==> r[0] != '0'))
  {
    var s := Strip(v.GetOr(""));
    var t := DropPointZero(s);
    match WholeNumberDigits(t)
    case Some(p) =>
      WholeNumberChars(t, p);
      DropPointZeroChars(s);
      NatToString(DecimalValue(t[..p]))
    case None => t
  }

  /** A whole number is written with digits and points only. */
  lemma WholeNumberChars(t: string, p: nat)
    requires WholeNumberAt(t, p)
    ensures DigitsAndPoints(t)
  {
    forall k | 0 <= k < |t| ensures IsDigit(t[k]) || t[k] == '.' {
      if k < p {
        assert t[k] == t[..p][k];
      } else if k > p {
        assert t[k] == t[p..][1..][k - p - 1];
      }
    }
  }

  /** Text that is digits and points once `.0` is dropped was so before. */
  lemma DropPointZeroChars(s: string)
    requires DigitsAndPoints(DropPointZero(s))
    ensures DigitsAndPoints(s)
  {
    var t := DropPointZero(s);
    if t != s {
      assert s == t + ".0";
      forall k | 0 <= k < |s| ensures IsDigit(s[k]) || s[k] == '.' {
        if k < |t| {
          assert s[k] == t[k];
        }
      }
    }
  }

  /** A whole number of at most `ExactDigits` digits, leading zeros allowed,
      written with nothing, `.0` or a point and zeros after it and with
      whitespace around it, normalises to that number's decimal form. */
  lemma NormWbWholeNumber(ws: string, d: string, z: string, ws': string)
    requires AllSpace(ws) && AllSpace(ws')
    requires AllDigits(d) && 0 < |d| <= ExactDigits && ZeroFraction(z)
    ensures NormWb(Some(ws + d + z + ws')) == NatToString(DecimalValue(d))
  {
    var dz := d + z;
    var x := ws + d + z + ws';
    assert x == ws + dz + ws';
    WholeNumberStripped(d, z);
    StripAround(ws, dz, ws');
    NormWbOfWhole(x, d, z);
  }

  /** A whole number written as above has no whitespace at its ends. */
  lemma WholeNumberStripped(d: string, z: string)
    requires AllDigits(d) && d != [] && ZeroFraction(z)
    ensures d + z != [] && Stripped(d + z)
  {
    var dz := d + z;
    assert dz[0] == d[0];
    if z == [] {
      assert dz[|dz| - 1] == d[|d| - 1];
    } else {
      assert dz[|dz| - 1] == z[|z| - 1];
      assert |z| > 1 ==> z[|z| - 1] == z[1..][|z| - 2];
    }
  }

  lemma NormWbOfWhole(x: string, d: string, z: string)
    requires AllDigits(d) && 0 < |d| <= ExactDigits && ZeroFraction(z)
    requires Strip(x) == d + z
    ensures NormWb(Some(x)) == NatToString(DecimalValue(d))
  {
    var z2 := DropZeroFraction(d, z);
    var t := d + z2;
    assert t[..|d|] == d && t[|d|..] == z2;
    assert WholeNumberAt(t, |d|);
    assert WholeNumberDigits(t) == Some(|d|);
  }

  /** Dropping one `.0` from a whole number leaves a whole number over the
      same digits. */
  lemma DropZeroFraction(d: string, z: string) returns (z2: string)
    requires AllDigits(d) && d != [] && ZeroFraction(z)
    ensures ZeroFraction(z2) && DropPointZero(d + z) == d + z2
  {
    var s := d + z;
    assert forall k :: 0 <= k < |d| ==> s[k] == d[k];
    assert forall k :: |d| < k < |s| ==> s[k] == z[1..][k - |d| - 1];
    if |s| >= 2 && s[|s| - 2..] == ".0" {
      assert s[|s| - 2] == '.';
      z2 := [];
      assert s[..|s| - 2] == d;
    } else {
      z2 := z;
    }
  }

  /** Once stripping and dropping `.0` leave a number's decimal form, that
      form is the result. */
  lemma NormWbRendered(v: Option<string>, n: nat)
    requires |NatToString(n)| <= ExactDigits
    requires DropPointZero(Strip(v.GetOr(""))) == NatToString(n)
    ensures NormWb(v) == NatToString(n)
  {
    var s := NatToString(n);
    DecimalRoundTrip(n);
    assert DigitRun(s) == |s|;
    assert s[..|s|] == s;
  }

  lemma DropPointZeroOfNumber(n: nat)
    ensures DropPointZero(NatToString(n)) == NatToString(n)
    ensures DropPointZero(NatToString(n) + ".0") == NatToString(n)
  {
    var s := NatToString(n);
    assert |s| >= 2 ==> s[|s| - 2..][0] == s[|s| - 2];
    var t := s + ".0";
    assert t[|t| - 2..] == ".0" && t[..|t| - 2] == s;
  }

  /** A number written out, with or without `.0` and surrounding blanks,
      normalises to its decimal form; `"123456789.0"` becomes `"123456789"`. */
  lemma NormWbOfNumber(n: nat, pad: string)
    requires |NatToString(n)| <= ExactDigits && AllSpace(pad)
    ensures NormWb(Some(NatToString(n))) == NatToString(n)
    ensures NormWb(Some(NatToString(n) + ".0")) == NatToString(n)
    ensures NormWb(Some(pad + NatToString(n) + pad)) == NatToString(n)
  {
    var s := NatToString(n);
    DropPointZeroOfNumber(n);
    assert Stripped(s);
    NormWbRendered(Some(s), n);
    var t := s + ".0";
    assert Stripped(t);
    NormWbRendered(Some(t), n);
    StripPadded(pad, s);
    NormWbRendered(Some(pad + s + pad), n);
  }

  /** Whitespace around text that has none at its ends is exactly what `strip` removes. */
  lemma StripPadded(pad: string, s: string)
    requires AllSpace(pad) && s != [] && Stripped(s)
    ensures Strip(pad + s + pad) == s
  {
    StripAround(pad, s, pad);
  }

  lemma {:induction false} StripAround(p: string, s: string, q: string)
    requires AllSpace(p) && AllSpace(q) && s != [] && Stripped(s)
    ensures Strip(p + s + q) == s
    decreases |p| + |q|
  {
    var u := p + s + q;
    if p != [] {
      var rest := p[1..] + s + q;
      assert p == [p[0]] + p[1..];
      assert u == [p[0]] + rest;
      assert u[0] == p[0] && u[1..] == rest;
      StripAround(p[1..], s, q);
    } else if q != [] {
      assert u == s + q;
      assert u[0] == s[0] && u[|u| - 1] == q[|q| - 1];
      assert u[..|u| - 1] == [] + s + q[..|q| - 1];
      StripAround([], s, q[..|q| - 1]);
    } else {
      assert u == s;
    }
  }

  lemma NormWbExamples(float: string, padded: string)
    requires float == "123456789.0" && padded == " 007 "
    ensures NormWb(Some(float)) == "123456789"
    ensures NormWb(Some(padded)) == "7"
    ensures NormWb(None) == ""
  {
    FloatCellNormalised(float);
    LeadingZerosNormalised(padded);
    assert Strip("") == "" && DropPointZero("") == "" && WholeNumberDigits("").None?;
  }

  lemma FloatCellNormalised(float: string)
    requires float == "123456789.0"
    ensures NormWb(Some(float)) == "123456789"
  {
    Render123456789();
    NormWbOfNumber(123456789, "");
    assert NatToString(123456789) + ".0" == float;
  }

  lemma Render123456789()
    ensures NatToString(123456789) == "123456789"
  {
    NatToStringAppend(1, 2, "1");
    NatToStringAppend(12, 3, "12");
    NatToStringAppend(123, 4, "123");
    NatToStringAppend(1234, 5, "1234");
    NatToStringAppend(12345, 6, "12345");
    NatToStringAppend(123456, 7, "123456");
    NatToStringAppend(1234567, 8, "1234567");
    NatToStringAppend(12345678, 9, "12345678");
  }

  /** Writing one more digit after a number's text. */
  lemma NatToStringAppend(n: nat, d: nat, s: string)
    requires 0 < n && d < 10 && NatToString(n) == s
    ensures NatToString(n * 10 + d) == s + [DigitChar(d)]
  {
    var m := n * 10 + d;
    assert m / 10 == n && m % 10 == d;
  }

  lemma LeadingZerosNormalised(padded: string)
    requires padded == " 007 "
    ensures NormWb(Some(padded)) == "7"
  {
    var t := Strip(padded);
    assert t == "007" by {
      StripAround(" ", "007", " ");
      assert " " + "007" + " " == padded;
    }
    ZeroZeroSeven(t);
  }

  lemma ZeroZeroSeven(t: string)
    requires t == "007"
    ensures DropPointZero(t) == t && WholeNumberDigits(t) == Some(3)
    ensures DecimalValue(t[..3]) == 7 && NatToString(7) == "7"
  {
    assert t[|t| - 2..] != ".0";
    assert DigitRun(t) == 3 by {
      assert DigitRun(t[1..][1..][1..]) == 0;
    }
    assert t[..3] == t;
    assert DecimalValue(t) == 7 by {
      assert t == "0" + ("0" + "7");
      DecimalLeadingZero("0" + "7");
      DecimalLeadingZero("7");
      assert "7"[..0] == "";
    }
  }

  // ---- _is_blank ----

  /** `_is_blank` on a text cell: missing, or only whitespace. */
  function IsBlank(v: Option<string>): (b: bool)
    ensures b <==> v.None? || AllSpace(v.value)
  {
    if v.None? then true
    else
      StripBlank(v.value);
      Strip(v.value) == []
  }

  // ---- _sanitize_header ----

  /** The name a header cell is de-duplicated under: stripped, `"col"` when blank. */
  function Key(h: string): (k: string)
    ensures k != []
  {
    var s := Strip(h);
    if s == [] then "col" else s
  }

  function Keys(header: seq<string>): (ks: seq<string>)
    ensures |ks| == |header| && forall i :: 0 <= i < |header| ==> ks[i] == Key(header[i])
  {
    seq(|header|, i requires 0 <= i < |header| => Key(header[i]))
  }

  /** `f"{key}_{n}"`. */
  function Suffixed(key: string, n: nat): string {
    key + "_" + NatToString(n)
  }

  /** The label of position `i`: its key on the first occurrence, the key
      with the number of earlier occurrences appended on a repeat. */
  function Label(keys: seq<string>, i: nat): string
    requires i < |keys|
  {
    var c := Count(keys[..i], keys[i]);
    if c == 0 then keys[i] else Suffixed(keys[i], c)
  }

  /** `_sanitize_header`. */
  function SanitizeHeader(header: seq<string>): (out: seq<string>)
    ensures |out| == |header|
    ensures forall i :: 0 <= i < |header| ==> out[i] == Label(Keys(header), i)
  {
    var keys := Keys(header);
    seq(|header|, i requires 0 <= i < |header| => Label(keys, i))
  }

  /** The loop of `_sanitize_header`, with its `seen` dictionary counting
      repeats, computes the labels. */
  method SanitizeHeaderLoop(header: seq<string>) returns (out: seq<string>)
    ensures out == SanitizeHeader(header)
  {
    out := LabelLoop(Keys(header));
  }

  /** The labelling loop over the keys. */
  method LabelLoop(keys: seq<string>) returns (out: seq<string>)
    ensures |out| == |keys| && forall j :: 0 <= j < |keys| ==> out[j] == Label(keys, j)
  {
    var seen: map<string, nat> := map[];
    out := [];
    var i := 0;
    while i < |keys|
      invariant 0 <= i <= |keys|
      invariant forall k :: k in seen ==> seen[k] + 1 == Count(keys[..i], k)
      invariant forall k :: k !in seen ==> Count(keys[..i], k) == 0
      invariant |out| == i && forall j :: 0 <= j < i ==> out[j] == Label(keys, j)
    {
      var key := keys[i];
      assert keys[..i + 1] == keys[..i] + [key];
      CountSnoc(keys[..i], key);
      var name := if key !in seen then key else Suffixed(key, seen[key] + 1);
      assert name == Label(keys, i);
      seen := seen[key := if key !in seen then 0 else seen[key] + 1];
      out := out + [name];
      i := i + 1;
    }
  }

  /** A blank header cell is labelled `col`, or `col_n` on a repeat. */
  lemma BlankBecomesCol(header: seq<string>, i: nat)
    requires i < |header| && AllSpace(header[i])
    ensures SanitizeHeader(header)[i] == "col" || exists n: nat :: n >= 1 && SanitizeHeader(header)[i] == Suffixed("col", n)
  {
    StripBlank(header[i]);
  }

  /** Ends in `_` followed by at least one digit, the shape of a repeat's label. */
  predicate HasNumericSuffix(s: string) {
    exists p :: 0 <= p < |s| - 1 && s[p] == '_' && AllDigits(s[p + 1..])
  }

  lemma SuffixedHasSuffix(key: string, n: nat)
    ensures HasNumericSuffix(Suffixed(key, n))
  {
    var s := Suffixed(key, n);
    assert s[|key|] == '_' && s[|key| + 1..] == NatToString(n);
  }

  /** `x_d == y_e` for digit strings `d` and `e` only when `x == y` and `d == e`. */
  lemma SuffixSplit(x: string, d: string, y: string, e: string)
    requires AllDigits(d) && AllDigits(e)
    ensures x + "_" + d == y + "_" + e ==> x == y && d == e
  {
    var s := x + "_" + d;
    if s == y + "_" + e {
      assert s[|x|] == '_' && s[|y|] == '_';
      assert forall k :: |x| < k < |s| ==> s[k] == d[k - |x| - 1];
      assert forall k :: |y| < k < |s| ==> s[k] == e[k - |y| - 1];
      assert |x| == |y|;
      assert x == s[..|x|] == y;
      assert d == s[|x| + 1..] == e;
    }
  }

  /** The header's labels are all different provided no key already looks
      like a repeat's label. */
  lemma {:induction false} SanitizedDistinct(header: seq<string>)
    requires forall i :: 0 <= i < |header| ==> !HasNumericSuffix(Key(header[i]))
    ensures Distinct(SanitizeHeader(header))
  {
    var keys := Keys(header);
    var out := SanitizeHeader(header);
    forall i, j | 0 <= i < j < |out| ensures out[i] != out[j] {
      LabelsDiffer(keys, i, j);
    }
  }

  lemma LabelsDiffer(keys: seq<string>, i: nat, j: nat)
    requires i < j < |keys|
    requires forall k :: 0 <= k < |keys| ==> !HasNumericSuffix(keys[k])
    ensures Label(keys, i) != Label(keys, j)
  {
    var ci := Count(keys[..i], keys[i]);
    var cj := Count(keys[..j], keys[j]);
    SuffixSplit(keys[i], NatToString(ci), keys[j], NatToString(cj));
    if ci > 0 {
      SuffixedHasSuffix(keys[i], ci);
    }
    if cj > 0 {
      SuffixedHasSuffix(keys[j], cj);
    }
    CountZero(keys[..j], keys[j]);
    assert keys[i] == keys[..j][i];
    if keys[i] == keys[j] {
      CountPrefixGrows(keys, i, j);
      DecimalRoundTrip(ci);
      DecimalRoundTrip(cj);
    }
  }

  /** Without that proviso the labels can clash: `a_1, a, a` becomes `a_1, a, a_1`. */
  lemma SanitizeClash()
    ensures SanitizeHeader(["a_1", "a", "a"]) == ["a_1", "a", "a_1"]
    ensures !Distinct(SanitizeHeader(["a_1", "a", "a"]))
  {
    var h := ["a_1", "a", "a"];
    assert Strip("a_1") == "a_1" && Strip("a") == "a";
    var keys := Keys(h);
    assert keys == h;
    assert Count(keys[..0], "a_1") == 0;
    assert keys[..1] == ["a_1"] && keys[..1][..0] == [];
    assert Count(keys[..1], "a") == 0;
    assert keys[..2] == ["a_1", "a"] && keys[..2][..1] == ["a_1"];
    assert Count(keys[..2], "a") == 1;
    assert NatToString(1) == "1";
    assert Suffixed("a", 1) == "a_1";
    var out := SanitizeHeader(h);
    assert out[0] == out[2];
  }

  // ---- _pad_rows_to_header ----

  function Blanks(n: nat): (r: seq<string>)
    ensures |r| == n && forall k :: 0 <= k < n ==> r[k] == ""
  {
    if n == 0 then [] else Blanks(n - 1) + [""]
  }

  /** One row padded with `""` or cut to `n` cells. */
  function PadRow(row: seq<string>, n: nat): (r: seq<string>)
    ensures |r| == n
    ensures forall k :: 0 <= k < n ==> r[k] == (if k < |row| then row[k] else "")
  {
    if |row| < n then row + Blanks(n - |row|)
    else if |row| > n then row[..n]
    else row
  }

  /** `_pad_rows_to_header`: every row gets exactly `n` cells; the first
      `min(len, n)` are kept, the rest are `""`. */
  function PadRows(rows: seq<seq<string>>, n: nat): (out: seq<seq<string>>)
    ensures |out| == |rows|
    ensures forall i :: 0 <= i < |rows| ==> |out[i]| == n
    ensures forall i, k :: 0 <= i < |rows| && 0 <= k < n ==> out[i][k] == (if k < |rows[i]| then rows[i][k] else "")
  {
    seq(|rows|, i requires 0 <= i < |rows| => PadRow(rows[i], n))
  }

  /** Padding twice is padding once. */
  lemma PadRowsIdempotent(rows: seq<seq<string>>, n: nat)
    ensures PadRows(PadRows(rows, n), n) == PadRows(rows, n)
  {
    var once := PadRows(rows, n);
    var twice := PadRows(once, n);
    forall i | 0 <= i < |rows| ensures twice[i] == once[i] {
    }
  }

  /** Padding keeps what the row held under every column it reaches. */
  lemma PadRowsKeepsCells(rows: seq<seq<string>>, n: nat, i: nat, k: nat)
    requires i < |rows| && k < n && k < |rows[i]|
    ensures PadRows(rows, n)[i][k] == rows[i][k]
  {
  }
}

/** The sequence number `allocate_unique_seq` (apps/test1.py) reads back
    from the pallet registry's append response: the row number in an
    `updatedRange` such as `Sheet1!A42:C42`, found with the regular expression
    `![A-Z]+(\d+):`, and the row-count fallback when nothing matches. The
    append itself and the timestamp fallback are outside the model. */
module Registry {
  import opened Base
  import opened Text

  /** Length of the run of `A`-`Z` letters at the start of `s`. */
  function LetterRun(s: string): (n: nat)
    ensures n <= |s| && AllUpperLetters(s[..n])
    ensures n < |s| ==> !IsUpperLetter(s[n])
  {
    if s != [] && IsUpperLetter(s[0]) then
      var n := 1 + LetterRun(s[1..]);
      assert s[..n] == [s[0]] + s[1..][..n - 1];
      n
    else 0
  }

  /** `![A-Z]+(\d+):` matches `s` at `i`, the letters spanning `i+1..j` and the
      captured digits `j..k`. */
  predicate PatternAt(s: string, i: int, j: int, k: int) {
    && 0 <= i && i + 1 < j < k < |s|
    && s[i] == '!'
    && AllUpperLetters(s[i + 1..j])
    && AllDigits(s[j..k])
    && s[k] == ':'
  }

  /** The regular expression tried at position `i`. Letters and digits are
      disjoint, so greedy matching without backtracking is exact here. */
  function MatchAt(s: string, i: nat): Option<nat>
    requires i <= |s|
  {
    if i < |s| && s[i] == '!' then
      var j := i + 1 + LetterRun(s[i + 1..]);
      var k := j + DigitRun(s[j..]);
      assert s[j..k] == s[j..][..k - j];
      if j == i + 1 || k == j || k == |s| || s[k] != ':' then None
      else Some(DecimalValue(s[j..k]))
    else None
  }

  /** A match at `i` is exactly an instance of the pattern at `i`, and the
      pattern at `i` determines the captured number. */
  lemma MatchAtMeaning(s: string, i: nat)
    requires i <= |s|
    ensures MatchAt(s, i).Some? ==>
      exists j, k :: PatternAt(s, i, j, k) && MatchAt(s, i).value == DecimalValue(s[j..k])
    ensures forall j, k :: PatternAt(s, i, j, k) ==> MatchAt(s, i) == Some(DecimalValue(s[j..k]))
  {
    if i < |s| && s[i] == '!' {
      MatchAtSound(s, i);
      forall j', k' | PatternAt(s, i, j', k') ensures MatchAt(s, i) == Some(DecimalValue(s[j'..k'])) {
        PatternRunsAreMaximal(s, i, j', k');
      }
    }
  }

  /** A match at `i` spans the letter run and the digit run that follow. */
  lemma MatchAtSound(s: string, i: nat)
    requires i < |s| && s[i] == '!'
    ensures var j := i + 1 + LetterRun(s[i + 1..]);
            var k := j + DigitRun(s[j..]);
            MatchAt(s, i).Some? ==> PatternAt(s, i, j, k) && MatchAt(s, i).value == DecimalValue(s[j..k])
  {
    var j := i + 1 + LetterRun(s[i + 1..]);
    var k := j + DigitRun(s[j..]);
    assert s[i + 1..j] == s[i + 1..][..j - i - 1];
    assert s[j..k] == s[j..][..k - j];
  }

  lemma PatternRunsAreMaximal(s: string, i: nat, j: nat, k: nat)
    requires PatternAt(s, i, j, k)
    ensures i + 1 + LetterRun(s[i + 1..]) == j
    ensures j + DigitRun(s[j..]) == k
  {
    var letters := s[i + 1..];
    assert letters[..j - i - 1] == s[i + 1..j];
    assert letters[j - i - 1] == s[j] && IsDigit(s[j..k][0]);
    LetterRunOf(letters, j - i - 1);
    var digits := s[j..];
    assert digits[..k - j] == s[j..k];
    assert digits[k - j] == s[k];
    DigitRunOf(digits, k - j);
  }

  lemma {:induction false} LetterRunOf(s: string, n: nat)
    requires n < |s| && AllUpperLetters(s[..n]) && !IsUpperLetter(s[n])
    ensures LetterRun(s) == n
    decreases n
  {
    if n > 0 {
      assert IsUpperLetter(s[..n][0]);
      assert s[1..][..n - 1] == s[1..n];
      LetterRunOf(s[1..], n - 1);
    }
  }

  /** `re.search`: the leftmost position at which the expression matches. */
  function SearchFrom(s: string, i: nat): Option<nat>
    requires i <= |s|
    decreases |s| - i
  {
    if i == |s| then None
    else if MatchAt(s, i).Some? then MatchAt(s, i)
    else SearchFrom(s, i + 1)
  }

  /** `int(m.group(1))` when `re.search(r"![A-Z]+(\d+):", updated_range)` matches. */
  function ParseUpdatedRange(updatedRange: string): Option<nat> {
    SearchFrom(updatedRange, 0)
  }

  /** The search finds a number exactly when the pattern occurs somewhere,
      and the number it finds is the one captured at the leftmost occurrence. */
  lemma {:induction false} SearchFromMeaning(s: string, i: nat)
    requires i <= |s|
    ensures SearchFrom(s, i).None? <==> forall p, j, k :: i <= p ==> !PatternAt(s, p, j, k)
    ensures SearchFrom(s, i).Some? ==>
      exists p, j, k :: i <= p && PatternAt(s, p, j, k) && SearchFrom(s, i).value == DecimalValue(s[j..k])
                         && forall q, j', k' :: i <= q < p ==> !PatternAt(s, q, j', k')
    decreases |s| - i
  {
    MatchAtMeaning(s, i);
    if i == |s| {
    } else if MatchAt(s, i).Some? {
      var j, k :| PatternAt(s, i, j, k) && MatchAt(s, i).value == DecimalValue(s[j..k]);
      assert forall q, j', k' :: i <= q < i ==> !PatternAt(s, q, j', k');
    } else {
      SearchFromMeaning(s, i + 1);
      assert forall j, k :: !PatternAt(s, i, j, k);
    }
  }

  /** Round trip with the response format: whatever the sheet title (as long
      as it has no `!`), the column letters and the rest, the row number
      written after the first `!` and its column letters is read back. */
  lemma ParseRowNumber(title: string, column: string, row: nat, rest: string)
    requires '!' !in title
    requires column != [] && AllUpperLetters(column)
    ensures ParseUpdatedRange(title + "!" + column + NatToString(row) + ":" + rest) == Some(row)
  {
    var digits := NatToString(row);
    var s := title + "!" + column + digits + ":" + rest;
    var i := |title|;
    var j := i + 1 + |column|;
    var k := j + |digits|;
    assert s[i + 1..j] == column;
    assert s[j..k] == digits;
    assert PatternAt(s, i, j, k);
    MatchAtMeaning(s, i);
    DecimalRoundTrip(row);
    SkipNoBang(s, 0, i);
  }

  /** Positions before the first `!` never start a match. */
  lemma {:induction false} SkipNoBang(s: string, lo: nat, hi: nat)
    requires lo <= hi < |s|
    requires forall p :: lo <= p < hi ==> s[p] != '!'
    ensures SearchFrom(s, lo) == SearchFrom(s, hi)
    decreases hi
  {
    if lo < hi {
      SkipNoBang(s, lo, hi - 1);
      assert MatchAt(s, hi - 1).None?;
    }
  }

  /** The sample `updatedRange` the registry append is documented with. */
  lemma ExampleRange()
    ensures ParseUpdatedRange("Sheet1!A42:C42") == Some(42)
  {
    assert NatToString(42) == "42" by {
      assert NatToString(4) == "4";
    }
    ParseRowNumber("Sheet1", "A", 42, "C42");
    assert "Sheet1" + "!" + "A" + "42" + ":" + "C42" == "Sheet1!A42:C42";
  }

  /** The sequence number `allocate_unique_seq` returns once the append has
      succeeded: the parsed row, or `max(used, 2)` where `used` is the number
      of rows the registry holds. */
  function SequenceFromResponse(updatedRange: string, usedRows: nat): (n: nat)
    ensures ParseUpdatedRange(updatedRange).Some? ==> n == ParseUpdatedRange(updatedRange).value
    ensures ParseUpdatedRange(updatedRange).None? ==> n >= 2 && n >= usedRows && (n == 2 || n == usedRows)
  {
    match ParseUpdatedRange(updatedRange)
    case Some(row) => row
    case None => Max(usedRows, 2)
  }
}

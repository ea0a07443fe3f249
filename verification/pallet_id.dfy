/** Pallet identifiers of the receiving page (apps/test1.py):
    `P<YYMMDD>-<WH3>-<SEQ36>-<C>`, where SEQ36 is the registry row number in
    base 36 left-padded to six symbols and C is a check symbol chosen by the
    CRC-32 of everything before it. The CRC-32 routine is a parameter. */
module PalletId {
  import opened Base
  import opened Text

  const Alphabet: string := "0123456789ABCDEFGHIJKLMNOPQRSTUVWXYZ"

  predicate IsSymbol(c: char) { IsDigit(c) || IsUpperLetter(c) }

  predicate AllSymbols(s: string) {
    forall k :: 0 <= k < |s| ==> IsSymbol(s[k])
  }

  /** The value of one base-36 symbol: its position in `Alphabet`. */
  function SymbolValue(c: char): (d: nat)
    requires IsSymbol(c)
    ensures d < 36 && Alphabet[d] == c
  {
    if IsDigit(c) then c as int - '0' as int else c as int - 'A' as int + 10
  }

  lemma AlphabetSymbols(d: nat)
    requires d < 36
    ensures IsSymbol(Alphabet[d]) && SymbolValue(Alphabet[d]) == d
  {
  }

  /** Base-36 digits of `n`, most significant first; empty for zero. */
  function Base36Digits(n: nat): (s: string)
    ensures AllSymbols(s)
    ensures n > 0 ==> s != [] && s[0] != '0'
    ensures n == 0 ==> s == []
  {
    if n == 0 then []
    else
      AlphabetSymbols(n % 36);
      Base36Digits(n / 36) + [Alphabet[n % 36]]
  }

  /** `_to_base36`: `"0"` for zero, otherwise the digits without a leading zero. */
  function ToBase36(n: nat): (s: string)
    ensures s != [] && AllSymbols(s)
    ensures n == 0 <==> s == "0"
    ensures n > 0 ==> s[0] != '0'
  {
    if n == 0 then "0" else Base36Digits(n)
  }

  /** `int(s, 36)` restricted to the upper-case alphabet. */
  function FromBase36(s: string): nat
    requires AllSymbols(s)
  {
    if s == [] then 0 else FromBase36(s[..|s| - 1]) * 36 + SymbolValue(s[|s| - 1])
  }

  lemma {:induction false} Base36DigitsRoundTrip(n: nat)
    ensures FromBase36(Base36Digits(n)) == n
  {
    if n > 0 {
      var s := Base36Digits(n);
      Base36DigitsRoundTrip(n / 36);
      assert s[..|s| - 1] == Base36Digits(n / 36);
      AlphabetSymbols(n % 36);
    }
  }

  /** Decoding the encoding gives back the sequence number. */
  lemma Base36RoundTrip(n: nat)
    ensures FromBase36(ToBase36(n)) == n
  {
    Base36DigitsRoundTrip(n);
  }

  /** Every canonical base-36 string (no leading zero) is an encoding. */
  lemma {:induction false} Base36Canonical(s: string)
    requires s != [] && AllSymbols(s) && s[0] != '0'
    ensures ToBase36(FromBase36(s)) == s
    decreases |s|
  {
    var init := s[..|s| - 1];
    var v := FromBase36(s);
    var last := SymbolValue(s[|s| - 1]);
    if |s| == 1 {
      assert FromBase36(init) == 0;
      assert v == last && v > 0;
      assert Base36Digits(v / 36) == [];
    } else {
      assert init[0] == s[0];
      Base36Canonical(init);
      assert FromBase36(init) > 0;
      assert v / 36 == FromBase36(init) && v % 36 == last;
      assert s == init + [s[|s| - 1]];
    }
  }

  /** The two encodings of the same number are equal: `ToBase36` is injective. */
  lemma Base36Injective(m: nat, n: nat)
    requires ToBase36(m) == ToBase36(n)
    ensures m == n
  {
    Base36RoundTrip(m);
    Base36RoundTrip(n);
  }

  /** The `while n: n, r = divmod(n, 36); s.append(ALPHABET[r])` loop of `_to_base36`. */
  method ToBase36Loop(n: nat) returns (s: string)
    ensures s == ToBase36(n)
    ensures FromBase36(s) == n
  {
    if n == 0 {
      s := "0";
    } else {
      var m := n;
      var acc := "";
      while m > 0
        invariant Base36Digits(m) + acc == Base36Digits(n)
        decreases m
      {
        AlphabetSymbols(m % 36);
        acc := [Alphabet[m % 36]] + acc;
        m := m / 36;
      }
      s := acc;
    }
    Base36RoundTrip(n);
  }

  function Repeat(c: char, k: nat): (s: string)
    ensures |s| == k && forall i :: 0 <= i < k ==> s[i] == c
  {
    if k == 0 then [] else [c] + Repeat(c, k - 1)
  }

  /** `s.rjust(width, fill)`: pads on the left, never truncates. */
  function Rjust(s: string, width: nat, fill: char): (r: string)
    ensures |r| == Max(width, |s|)
    ensures r[|r| - |s|..] == s
    ensures forall i :: 0 <= i < |r| - |s| ==> r[i] == fill
  {
    if |s| >= width then s else Repeat(fill, width - |s|) + s
  }

  lemma {:induction false} LeadingZerosIgnored(k: nat, s: string)
    requires AllSymbols(s)
    ensures AllSymbols(Repeat('0', k) + s)
    ensures FromBase36(Repeat('0', k) + s) == FromBase36(s)
    decreases |s|
  {
    var z := Repeat('0', k);
    var t := z + s;
    assert AllSymbols(t) by {
      forall i | 0 <= i < |t| ensures IsSymbol(t[i]) {
        if i < k { assert t[i] == z[i]; } else { assert t[i] == s[i - k]; }
      }
    }
    if s == [] {
      assert t == z;
      ZerosAreZero(k);
    } else {
      assert t[..|t| - 1] == z + s[..|s| - 1];
      LeadingZerosIgnored(k, s[..|s| - 1]);
    }
  }

  lemma {:induction false} ZerosAreZero(k: nat)
    ensures AllSymbols(Repeat('0', k)) && FromBase36(Repeat('0', k)) == 0
  {
    if k > 0 {
      var z := Repeat('0', k);
      assert z[..k - 1] == Repeat('0', k - 1);
      ZerosAreZero(k - 1);
    }
  }

  /** The SEQ36 segment: `_to_base36(seqNo).rjust(6, '0')`. At least six
      symbols, longer only when the number needs it, and it decodes to `seqNo`. */
  function SeqSegment(seqNo: nat): (r: string)
    ensures |r| == Max(6, |ToBase36(seqNo)|)
    ensures r[|r| - |ToBase36(seqNo)|..] == ToBase36(seqNo)
    ensures AllSymbols(r) && FromBase36(r) == seqNo
  {
    var digits := ToBase36(seqNo);
    var r := Rjust(digits, 6, '0');
    LeadingZerosIgnored(|r| - |digits|, digits);
    assert r == Repeat('0', |r| - |digits|) + digits;
    Base36RoundTrip(seqNo);
    r
  }

  /** `(str(warehouse) if warehouse else "UNK").upper()[:3] or "UNK"`. */
  function WarehouseSegment(warehouse: Option<string>): (seg: string)
    ensures 1 <= |seg| <= 3
    ensures (warehouse == None || warehouse == Some("")) ==> seg == "UNK"
    ensures warehouse.Some? && warehouse.value != "" ==>
              |seg| == Min(3, |warehouse.value|) &&
              forall k :: 0 <= k < |seg| ==> seg[k] == UpperChar(warehouse.value[k])
  {
    var name := if warehouse.Some? && warehouse.value != "" then warehouse.value else "UNK";
    var cut := Upper(name)[..Min(3, |name|)];
    if cut == "" then "UNK" else cut
  }

  /** A calendar date as `datetime.now()` yields it. */
  datatype Date = Date(year: nat, month: nat, day: nat) {
    predicate Valid() { 1 <= month <= 12 && 1 <= day <= 31 }
  }

  function TwoDigits(n: nat): (s: string)
    requires n < 100
    ensures |s| == 2 && AllDigits(s) && DecimalValue(s) == n
  {
    var s := [DigitChar(n / 10), DigitChar(n % 10)];
    assert s[..1] == [DigitChar(n / 10)] && s[..1][..0] == [];
    assert DecimalValue(s[..1]) == n / 10;
    s
  }

  /** `strftime("%y%m%d")`: six digits, two each for year-of-century, month and day. */
  function DateStamp(d: Date): (s: string)
    requires d.Valid()
    ensures |s| == 6 && AllDigits(s)
    ensures DecimalValue(s[..2]) == d.year % 100
    ensures DecimalValue(s[2..4]) == d.month && DecimalValue(s[4..]) == d.day
  {
    var s := TwoDigits(d.year % 100) + TwoDigits(d.month) + TwoDigits(d.day);
    assert s[..2] == TwoDigits(d.year % 100);
    assert s[2..4] == TwoDigits(d.month);
    assert s[4..] == TwoDigits(d.day);
    s
  }

  /** `f"P{ts}-{wh}-{seq36}"`, laid out field by field. */
  function AssembleCore(stamp: string, wh: string, segment: string): (c: string)
    requires |stamp| == 6
    ensures |c| == 9 + |wh| + |segment|
    ensures c[0] == 'P' && c[1..7] == stamp && c[7] == '-'
    ensures c[8..8 + |wh|] == wh && c[8 + |wh|] == '-' && c[9 + |wh|..] == segment
  {
    var c := "P" + stamp + "-" + wh + "-" + segment;
    assert c == ("P" + stamp + "-") + wh + ("-" + segment);
    c
  }

  /** The part of the identifier the check symbol protects: `P{ts}-{wh}-{seq36}`. */
  function Core(d: Date, warehouse: Option<string>, seqNo: nat): string
    requires d.Valid()
  {
    AssembleCore(DateStamp(d), WarehouseSegment(warehouse), SeqSegment(seqNo))
  }

  /** `ALPHABET[zlib.crc32(core.encode()) % 36]`, with the checksum routine as `crc`. */
  function CheckSymbol(core: string, crc: string -> nat): (c: char)
    ensures IsSymbol(c)
  {
    AlphabetSymbols(crc(core) % 36);
    Alphabet[crc(core) % 36]
  }

  /** `generate_pallet_id` once the date and the registry sequence number are known. */
  function MakePalletId(d: Date, warehouse: Option<string>, seqNo: nat, crc: string -> nat): (id: string)
    requires d.Valid()
    ensures |id| == 11 + |WarehouseSegment(warehouse)| + |SeqSegment(seqNo)|
    ensures id[..|id| - 2] == Core(d, warehouse, seqNo)
    ensures id[|id| - 2] == '-' && id[|id| - 1] == CheckSymbol(id[..|id| - 2], crc)
  {
    var stamp := DateStamp(d);
    var wh := WarehouseSegment(warehouse);
    var segment := SeqSegment(seqNo);
    var core := AssembleCore(stamp, wh, segment);
    var id := core + ['-', CheckSymbol(core, crc)];
    assert id[..|id| - 2] == core;
    id
  }

  /** The fields recovered from an identifier. */
  datatype IdParts = IdParts(stamp: string, warehouse: string, seqNo: nat)

  /** Position of the last occurrence of `c` in `s`. */
  function LastIndexOf(s: string, c: char): (r: Option<nat>)
    ensures r.None? ==> c !in s
    ensures r.Some? ==> r.value < |s| && s[r.value] == c && c !in s[r.value + 1..]
  {
    if s == [] then None
    else if s[|s| - 1] == c then Some(|s| - 1)
    else
      var r := LastIndexOf(s[..|s| - 1], c);
      if r.Some? then
        assert s[r.value + 1..] == s[..|s| - 1][r.value + 1..] + [s[|s| - 1]];
        r
      else
        assert s == s[..|s| - 1] + [s[|s| - 1]];
        r
  }

  /** Reads an identifier back: checks the check symbol against the core
      and splits the core into date stamp, warehouse and sequence number. */
  function ParsePalletId(id: string, crc: string -> nat): Option<IdParts> {
    if |id| < 11 then None
    else
      var core := id[..|id| - 2];
      if id[|id| - 2] != '-' || id[|id| - 1] != CheckSymbol(core, crc) then None
      else if core[0] != 'P' || core[7] != '-' || !AllDigits(core[1..7]) then None
      else
        match LastIndexOf(core, '-')
        case None => None
        case Some(p) =>
          if p <= 7 || p + 1 == |core| || !AllSymbols(core[p + 1..]) then None
          else Some(IdParts(core[1..7], core[8..p], FromBase36(core[p + 1..])))
  }

  /** Round trip: every generated identifier validates, and its date stamp,
      warehouse segment and sequence number can be read back from it. */
  lemma ParseMakeRoundTrip(d: Date, warehouse: Option<string>, seqNo: nat, crc: string -> nat)
    requires d.Valid()
    ensures ParsePalletId(MakePalletId(d, warehouse, seqNo, crc), crc)
            == Some(IdParts(DateStamp(d), WarehouseSegment(warehouse), seqNo))
  {
    var core := Core(d, warehouse, seqNo);
    var id := MakePalletId(d, warehouse, seqNo, crc);
    assert id == core + ['-', CheckSymbol(core, crc)] by {
      assert id[..|id| - 2] == core;
    }
    ParseAssembled(DateStamp(d), WarehouseSegment(warehouse), SeqSegment(seqNo), crc);
  }

  /** The parser splits an assembled identifier back into the fields it was built from. */
  lemma ParseAssembled(stamp: string, wh: string, segment: string, crc: string -> nat)
    requires |stamp| == 6 && AllDigits(stamp)
    requires segment != [] && AllSymbols(segment)
    ensures var core := AssembleCore(stamp, wh, segment);
      ParsePalletId(core + ['-', CheckSymbol(core, crc)], crc) == Some(IdParts(stamp, wh, FromBase36(segment)))
  {
    var core := AssembleCore(stamp, wh, segment);
    var id := core + ['-', CheckSymbol(core, crc)];
    assert id[..|id| - 2] == core;
    var p := 8 + |wh|;
    assert core[p + 1..] == segment;
    assert '-' !in segment by {
      forall k | 0 <= k < |segment| ensures segment[k] != '-' {
        assert IsSymbol(segment[k]);
      }
    }
    LastIndexOfAt(core, p, '-');
  }

  lemma {:induction false} LastIndexOfAt(s: string, p: nat, c: char)
    requires p < |s| && s[p] == c && c !in s[p + 1..]
    ensures LastIndexOf(s, c) == Some(p)
    decreases |s|
  {
    if p < |s| - 1 {
      assert s[|s| - 1] == s[p + 1..][|s| - 2 - p];
      var init := s[..|s| - 1];
      assert init[p + 1..] == s[p + 1..|s| - 1];
      assert init[p + 1..] == s[p + 1..][..|s| - 2 - p];
      LastIndexOfAt(init, p, c);
    }
  }

  /** A wrong check symbol is always caught. */
  lemma WrongCheckRejected(core: string, c: char, crc: string -> nat)
    requires c != CheckSymbol(core, crc)
    ensures ParsePalletId(core + "-" + [c], crc) == None
  {
    var id := core + "-" + [c];
    assert id[..|id| - 2] == core;
  }
}

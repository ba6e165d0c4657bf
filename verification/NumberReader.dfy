/** The keyboard number reader of examples/zigbee/artik_zigbee_common.c, and the
    three range-checked readers of the network wizard built on it. */
module NumberReader {
  import opened Base
  import opened Radix

  // -1 for a character that is not a digit of the radix, as the C helpers answer.
  function GetDigit(c: char): int {
    if '0' <= c <= '9' then c as int - '0' as int else -1
  }

  function GetHex(c: char): int {
    if '0' <= c <= '9' then c as int - '0' as int
    else if 'A' <= c <= 'F' then c as int - 'A' as int + 10
    else if 'a' <= c <= 'f' then c as int - 'a' as int + 10
    else -1
  }

  function DigitOf(c: char, base: NumberBase): int {
    if base == 16 then GetHex(c) else GetDigit(c)
  }

  predicate IsDigit(c: char, base: NumberBase) { DigitOf(c, base) >= 0 }

  function DigitValue(c: char, base: NumberBase): nat
    requires IsDigit(c, base)
  {
    DigitOf(c, base)
  }

  // Length of the longest prefix of digits.
  function DigitRun(s: string, base: NumberBase): (n: nat)
    ensures n <= |s|
    ensures forall i :: 0 <= i < n ==> IsDigit(s[i], base)
    ensures n < |s| ==> !IsDigit(s[n], base)
  {
    if s == [] || !IsDigit(s[0], base) then 0 else 1 + DigitRun(s[1..], base)
  }

  function DigitsOf(s: string, base: NumberBase): (ds: seq<nat>)
    requires forall i :: 0 <= i < |s| ==> IsDigit(s[i], base)
    ensures |ds| == |s| && forall i :: 0 <= i < |s| ==> ds[i] == DigitValue(s[i], base)
  {
    seq(|s|, i requires 0 <= i < |s| => DigitValue(s[i], base))
  }

  // The number denoted by the longest digit prefix of s.
  function Numeral(s: string, base: NumberBase): nat {
    Value(DigitsOf(s[..DigitRun(s, base)], base), base)
  }

  predicate IsStop(c: char) { c == '\0' || c == '\n' }

  // Position of the first character at which the scan can end.
  function Scan(s: string): (i: nat)
    ensures i <= |s|
    ensures forall j :: 0 <= j < i ==> !IsStop(s[j]) && !IsDigit(s[j], 10)
    ensures i < |s| ==> IsStop(s[i]) || IsDigit(s[i], 10)
  {
    if s == [] || IsStop(s[0]) || IsDigit(s[0], 10) then 0 else 1 + Scan(s[1..])
  }

  // "0x" counts as a radix mark only with two hex digits behind it.
  predicate HexMark(t: string) {
    && |t| > 3 && t[0] == '0' && (t[1] == 'x' || t[1] == 'X')
    && IsDigit(t[2], 16) && IsDigit(t[3], 16)
  }

  // What is read where the scan ends.
  function ReadHere(t: string, default: int): int {
    if t == [] || IsStop(t[0]) then default
    else if HexMark(t) then Numeral(t[2..], 16)
    else Numeral(t, 10)
  }

  // What read_int reads: the first numeral before the first NUL or newline.
  function ReadIntOf(s: string, default: int): int {
    ReadHere(s[Scan(s)..], default)
  }

  method ReadNumeral(input: string, from: nat, maxSize: nat, base: NumberBase) returns (result: nat)
    requires from + maxSize <= |input|
    ensures result == Numeral(input[from..from + maxSize], base)
  {
    ghost var s := input[from..from + maxSize];
    ghost var n := DigitRun(s, base);
    ghost var ds := DigitsOf(s[..n], base);
    result := 0;
    var i := 0;
    while i < maxSize
      invariant 0 <= i <= n
      invariant result == Value(ds[..i], base)
    {
      var c := input[from + i];
      assert c == s[i];
      if !IsDigit(c, base) { break; }
      assert ds[..i + 1][..i] == ds[..i];
      result := Scale(result, base);
      result := result + DigitOf(c, base);
      i := i + 1;
    }
    assert ds[..i] == ds;
  }

  // Every index read is below maxSize.
  method ReadInt(input: string, maxSize: nat, default: int) returns (n: int)
    requires maxSize <= |input|
    ensures n == ReadIntOf(input[..maxSize], default)
  {
    hide Numeral;
    ghost var s := input[..maxSize];
    ghost var k := Scan(s);
    var i := 0;
    while i < maxSize
      invariant 0 <= i <= k
    {
      var c := input[i];
      assert c == s[i];
      if c == '\0' || c == '\n' { break; }
      if c == '0' && i + 3 < maxSize && (input[i + 1] == 'x' || input[i + 1] == 'X') &&
         GetHex(input[i + 2]) >= 0 && GetHex(input[i + 3]) >= 0
      {
        assert i == k && HexMark(s[k..]);
        n := ReadNumeral(input, i + 2, maxSize - (i + 2), 16);
        assert input[i + 2..i + 2 + (maxSize - (i + 2))] == s[k..][2..];
        return;
      }
      if GetDigit(c) >= 0 {
        assert i == k && !HexMark(s[k..]);
        n := ReadNumeral(input, i, maxSize - i, 10);
        assert input[i..i + (maxSize - i)] == s[i..];
        return;
      }
      i := i + 1;
    }
    return default;
  }

  // ---- What the reader means ----

  // No numeral starts in s and the scan does not end in it.
  predicate Skipped(s: string) {
    forall i :: 0 <= i < |s| ==> !IsStop(s[i]) && !IsDigit(s[i], 10)
  }

  lemma {:induction false} ScanSkips(pre: string, s: string)
    requires Skipped(pre)
    ensures Scan(pre + s) == |pre| + Scan(s)
  {
    if pre == [] {
      assert pre + s == s;
    } else {
      assert (pre + s)[1..] == pre[1..] + s;
      ScanSkips(pre[1..], s);
    }
  }

  // Everything before the first digit is ignored, a minus sign included.
  lemma PrefixIgnored(pre: string, s: string, default: int)
    requires Skipped(pre)
    ensures ReadIntOf(pre + s, default) == ReadIntOf(s, default)
    ensures ReadIntOf("-" + s, default) == ReadIntOf(s, default)
  {
    PrefixIgnoredOnce(pre, s, default);
    PrefixIgnoredOnce("-", s, default);
  }

  lemma PrefixIgnoredOnce(pre: string, s: string, default: int)
    requires Skipped(pre)
    ensures ReadIntOf(pre + s, default) == ReadIntOf(s, default)
  {
    hide ReadHere;
    ScanSkips(pre, s);
    assert (pre + s)[|pre| + Scan(s)..] == s[Scan(s)..];
  }

  // The printed form of a digit string: decimal digits, or upper-case hex as %X prints.
  function DigitChar(d: nat): (c: char)
    requires d < 16
    ensures GetHex(c) == d && (d < 10 ==> GetDigit(c) == d)
  {
    if d < 10 then ('0' as int + d) as char else ('A' as int + d - 10) as char
  }

  function Text(ds: seq<nat>): (s: string)
    requires AreDigits(ds, 16)
    ensures |s| == |ds| && forall i :: 0 <= i < |s| ==> s[i] == DigitChar(ds[i])
  {
    seq(|ds|, i requires 0 <= i < |ds| => DigitChar(ds[i]))
  }

  lemma NumeralOfText(ds: seq<nat>, post: string, base: NumberBase)
    requires base == 10 || base == 16
    requires AreDigits(ds, base)
    requires post == [] || !IsDigit(post[0], base)
    ensures AreDigits(ds, 16)
    ensures Numeral(Text(ds) + post, base) == Value(ds, base)
  {
    var t := Text(ds) + post;
    assert forall i :: 0 <= i < |ds| ==> t[i] == DigitChar(ds[i]) && IsDigit(t[i], base);
    var n := DigitRun(t, base);
    assert |ds| < |t| ==> t[|ds|] == post[0];
    assert DigitsOf(t[..n], base) == ds;
  }

  lemma ReadsFromFirstDigit(s: string, default: int)
    requires s != [] && IsDigit(s[0], 10)
    ensures ReadIntOf(s, default) == ReadHere(s, default)
  {
    assert s[Scan(s)..] == s;
  }

  lemma DecimalTextStart(ds: seq<nat>, post: string)
    requires ds != [] && AreDigits(ds, 10)
    requires post == [] || (!IsDigit(post[0], 10) && post[0] != 'x' && post[0] != 'X')
    ensures AreDigits(ds, 16)
    ensures var t := Text(ds) + post; IsDigit(t[0], 10) && !IsStop(t[0]) && !HexMark(t)
  {
    var t := Text(ds) + post;
    assert t[0] == DigitChar(ds[0]);
    assert |t| > 1 ==> t[1] == if |ds| > 1 then DigitChar(ds[1]) else post[0];
  }

  // %d then read_int: the number comes back, whatever unread text stands before it.
  lemma ReadsPrintedDecimal(pre: string, n: nat, post: string, default: int)
    requires Skipped(pre)
    requires post == [] || (!IsDigit(post[0], 10) && post[0] != 'x' && post[0] != 'X')
    ensures ReadIntOf(pre + (Text(Digits(n, 10)) + post), default) == n
  {
    var t := Text(Digits(n, 10)) + post;
    DecimalTextStart(Digits(n, 10), post);
    NumeralOfText(Digits(n, 10), post, 10);
    DigitsValue(n, 10);
    assert ReadHere(t, default) == n;
    ReadsFromFirstDigit(t, default);
    PrefixIgnored(pre, t, default);
  }

  // A hex numeral behind "0x" is read back exactly when it has two digits or is zero:
  // a single hex digit does not make a radix mark, and only the leading 0 is read.
  lemma ReadsPrintedHexIff(pre: string, ds: seq<nat>, post: string, default: int)
    requires Skipped(pre)
    requires ds != [] && AreDigits(ds, 16)
    requires post == [] || !IsDigit(post[0], 16)
    ensures ReadIntOf(pre + ("0x" + Text(ds) + post), default) == Value(ds, 16)
            <==> |ds| >= 2 || ds == [0]
    ensures |ds| == 1 ==> ReadIntOf(pre + ("0x" + Text(ds) + post), default) == 0
  {
    hide ReadIntOf, Text;
    PrefixIgnored(pre, "0x" + Text(ds) + post, default);
    if |ds| >= 2 {
      ReadsMarkedHex(ds, post, default);
    } else {
      LoneHexDigitReadsZero(ds, post, default);
      assert ds[..0] == [] && Value(ds, 16) == ds[0];
    }
  }

  lemma HexTextStart(ds: seq<nat>, post: string)
    requires |ds| >= 2 && AreDigits(ds, 16)
    ensures var t := "0x" + Text(ds) + post;
      IsDigit(t[0], 10) && !IsStop(t[0]) && HexMark(t) && t[2..] == Text(ds) + post
  {
    var t := "0x" + Text(ds) + post;
    assert t[0] == '0' && t[1] == 'x' && t[2] == DigitChar(ds[0]) && t[3] == DigitChar(ds[1]);
  }

  lemma ReadsMarkedHex(ds: seq<nat>, post: string, default: int)
    requires |ds| >= 2 && AreDigits(ds, 16)
    requires post == [] || !IsDigit(post[0], 16)
    ensures ReadIntOf("0x" + Text(ds) + post, default) == Value(ds, 16)
  {
    var t := "0x" + Text(ds) + post;
    HexTextStart(ds, post);
    NumeralOfText(ds, post, 16);
    assert ReadHere(t, default) == Value(ds, 16);
    ReadsFromFirstDigit(t, default);
  }

  lemma LoneHexDigitReadsZero(ds: seq<nat>, post: string, default: int)
    requires |ds| == 1 && AreDigits(ds, 16)
    requires post == [] || !IsDigit(post[0], 16)
    ensures ReadIntOf("0x" + Text(ds) + post, default) == 0
  {
    var t := "0x" + Text(ds) + post;
    assert t[0] == '0' && t[1] == 'x';
    assert |t| > 3 ==> t[3] == post[0];
    ReadsFromFirstDigit(t, default);
    assert Text([0]) == "0";
    assert t == Text([0]) + t[1..];
    NumeralOfText([0], t[1..], 10);
    assert [0][..0] == [] && Value([0], 10) == 0;
  }

  // 0x%04X then read_int.
  lemma ReadsPrintedHex4(pre: string, n: nat, post: string, default: int)
    requires Skipped(pre)
    requires post == [] || !IsDigit(post[0], 16)
    ensures ReadIntOf(pre + ("0x" + Text(Padded(n, 4, 16)) + post), default) == n
  {
    PaddedValue(n, 4, 16);
    ReadsPrintedHexIff(pre, Padded(n, 4, 16), post, default);
  }

  // Every digit stands behind a NUL or newline.
  predicate NoDigit(s: string) {
    forall i :: 0 <= i < |s| && IsDigit(s[i], 10) ==> exists j :: 0 <= j < i && IsStop(s[j])
  }

  // The default matters exactly when no digit occurs, and then it is the answer; every other
  // answer is non-negative.
  lemma DefaultIffNoDigit(s: string, default: int, other: int)
    requires default != other
    ensures ReadIntOf(s, default) != ReadIntOf(s, other) <==> NoDigit(s)
    ensures NoDigit(s) ==> ReadIntOf(s, default) == default
    ensures !NoDigit(s) ==> ReadIntOf(s, default) >= 0
  {
    var k := Scan(s);
    if k < |s| && IsDigit(s[k], 10) {
      assert !exists j :: 0 <= j < k && IsStop(s[j]);
      assert !NoDigit(s);
    } else {
      forall i | 0 <= i < |s| && IsDigit(s[i], 10) ensures exists j :: 0 <= j < i && IsStop(s[j]) {
        assert k < i && IsStop(s[k]);
      }
    }
  }

  // ---- Upper and lower case ----

  const UPPER_DIGITS := "0123456789ABCDEF"
  const LOWER_DIGITS := "0123456789abcdef"

  // The characters that are digits, and what they are worth.
  lemma DigitsAreThese(c: char)
    ensures IsDigit(c, 10) <==> '0' <= c <= '9'
    ensures IsDigit(c, 16) <==> '0' <= c <= '9' || 'A' <= c <= 'F' || 'a' <= c <= 'f'
    ensures forall d :: 0 <= d < 16 ==> GetHex(UPPER_DIGITS[d]) == d && GetHex(LOWER_DIGITS[d]) == d
    ensures forall d :: 0 <= d < 10 ==> GetDigit(UPPER_DIGITS[d]) == d
    ensures forall d :: 0 <= d < 16 ==> DigitChar(d) == UPPER_DIGITS[d]
  {
  }

  // text writes the digits ds, each letter in either case.
  predicate Writes(text: string, ds: seq<nat>) {
    && |text| == |ds| && AreDigits(ds, 16)
    && forall i :: 0 <= i < |ds| ==> text[i] == UPPER_DIGITS[ds[i]] || text[i] == LOWER_DIGITS[ds[i]]
  }

  lemma WrittenDigits(text: string, ds: seq<nat>)
    requires Writes(text, ds)
    ensures forall i :: 0 <= i < |text| ==> IsDigit(text[i], 16) && DigitValue(text[i], 16) == ds[i]
    ensures DigitsOf(text, 16) == ds
  {
    forall i | 0 <= i < |text| ensures IsDigit(text[i], 16) && DigitValue(text[i], 16) == ds[i] {
      DigitsAreThese(text[i]);
    }
  }

  lemma NumeralWritten(text: string, ds: seq<nat>, post: string)
    requires Writes(text, ds)
    requires post == [] || !IsDigit(post[0], 16)
    ensures Numeral(text + post, 16) == Value(ds, 16)
  {
    WrittenDigits(text, ds);
    hide Value, GetHex, Writes;
    var t := text + post;
    var n := DigitRun(t, 16);
    assert forall i :: 0 <= i < |text| ==> t[i] == text[i];
    assert n < |t| ==> !IsDigit(t[n], 16);
    assert |text| < |t| ==> t[|text|] == post[0];
    assert t[..n] == text;
  }

  // Hexadecimal behind 0x or 0X is read whatever the case of its letters.
  lemma ReadsHexInEitherCase(mark: char, text: string, ds: seq<nat>, post: string, default: int)
    requires (mark == 'x' || mark == 'X') && |ds| >= 2 && Writes(text, ds)
    requires post == [] || !IsDigit(post[0], 16)
    ensures ReadIntOf("0" + [mark] + text + post, default) == Value(ds, 16)
  {
    hide Value, Numeral, Scan, GetHex, ReadIntOf;
    var t := "0" + [mark] + text + post;
    HexMarkStart(mark, text, ds, post);
    NumeralWritten(text, ds, post);
    ReadsFromFirstDigit(t, default);
  }

  lemma HexMarkStart(mark: char, text: string, ds: seq<nat>, post: string)
    requires (mark == 'x' || mark == 'X') && |ds| >= 2 && Writes(text, ds)
    ensures var t := "0" + [mark] + text + post;
      IsDigit(t[0], 10) && !IsStop(t[0]) && HexMark(t) && t[2..] == text + post
  {
    WrittenDigits(text, ds);
    hide Value, GetHex, Writes;
    var t := "0" + [mark] + text + post;
    assert t[0] == '0' && t[1] == mark && t[2] == text[0] && t[3] == text[1];
  }

  // The scan ends at the first newline or NUL, whatever stands behind it.
  lemma StopsAtLineEnd(pre: string, stop: char, post: string, default: int)
    requires Skipped(pre) && (stop == '\n' || stop == '\0')
    ensures ReadIntOf(pre + ([stop] + post), default) == default
  {
    PrefixIgnoredOnce(pre, [stop] + post, default);
    assert ([stop] + post)[0] == stop;
  }

  // ---- The wizard's readers ----

  const DEFAULT_CHANNEL := 25
  const DEFAULT_TX := 2
  const DEFAULT_PAN := 0x1234
  const CHANNEL_MIN := 11
  const CHANNEL_MAX := 26
  const TX_MIN := -9
  const TX_MAX := 8
  const PAN_MAX := 0xFFFF
  const INVALID_TX := -100

  // A line as fgets leaves it in the buffer; it always holds at least one character.
  type Line = s: string | |s| > 0 witness "\n"

  predicate ReadQ(input: Line) { input[0] == 'q' || input[0] == 'Q' }
  predicate ReadE(input: Line) { input[0] == 'e' || input[0] == 'E' }
  predicate ReadLf(input: Line) { input[0] == '\n' }

  // None is the rejected answer, after which the wizard asks again.
  function InRange(n: int, lo: int, hi: int): Option<int> {
    if lo <= n <= hi then Some(n) else None
  }

  function ReadChannel(input: Line): Option<int> {
    InRange(if ReadLf(input) then DEFAULT_CHANNEL else ReadIntOf(input, -1), CHANNEL_MIN, CHANNEL_MAX)
  }

  function ReadTx(input: Line): Option<int> {
    InRange(if ReadLf(input) then DEFAULT_TX else ReadIntOf(input, INVALID_TX), TX_MIN, TX_MAX)
  }

  function ReadPanId(input: Line): Option<int> {
    InRange(if ReadLf(input) then DEFAULT_PAN else ReadIntOf(input, -1), 0, PAN_MAX)
  }

  // The prompt offers -9..8, but a typed minus sign is skipped: of the negative powers
  // none can be entered, while exactly the powers 0..8 can, with or without a sign.
  lemma TxAnswersAreNonNegative(input: Line)
    ensures ReadTx(input).Some? ==> 0 <= ReadTx(input).value <= TX_MAX
    ensures forall p: nat | p <= TX_MAX ::
      ReadTx(Typed(p)) == Some(p) && ReadTx("-" + Typed(p)) == Some(p)
  {
    hide ReadIntOf, Digits;
    DefaultIffNoDigit(input, INVALID_TX, 0);
    forall p: nat | p <= TX_MAX
      ensures ReadTx(Typed(p)) == Some(p) && ReadTx("-" + Typed(p)) == Some(p)
    {
      TypedReads(p, INVALID_TX);
      PrefixIgnored("", Typed(p), INVALID_TX);
      assert Typed(p)[0] == DigitChar(Digits(p, 10)[0]);
      assert ("-" + Typed(p))[0] == '-';
    }
  }

  // Which answers the three questions accept: an empty line is the default, a typed number is
  // itself if it is in range and rejected if not.
  lemma AnswersAccepted(n: nat)
    ensures ReadChannel("\n") == Some(25) && ReadTx("\n") == Some(2) && ReadPanId("\n") == Some(0x1234)
    ensures ReadChannel(Typed(n)) == if 11 <= n <= 26 then Some(n) else None
    ensures ReadTx(Typed(n)) == if n <= 8 then Some(n) else None
    ensures ReadPanId(Typed(n)) == if n <= 0xFFFF then Some(n) else None
  {
    forall d: int ensures ReadIntOf(Typed(n), d) == n { TypedReads(n, d); }
    hide ReadIntOf, Digits;
    assert Typed(n)[0] == DigitChar(Digits(n, 10)[0]);
  }

  lemma TypedReads(n: nat, default: int)
    ensures ReadIntOf(Typed(n), default) == n
  {
    ReadsPrintedDecimal("", n, "\n", default);
    assert [] + Typed(n) == Typed(n);
  }

  function Typed(p: nat): Line { Text(Digits(p, 10)) + "\n" }
}

/** The signing date of examples/security/pkcs7_sig_verify/pkcs7_sig_verify.c: the parser of
    the -d option and the printer of the signing time. */
module SigningTime {
  import opened Base
  import opened Radix
  import opened NumberReader

  // The fields are unsigned int.
  const MODULUS := 0x1_0000_0000
  type UInt32 = n: nat | n < MODULUS

  // The fields of artik_time that the date carries.
  datatype ArtikTime = ArtikTime(
    month: UInt32, day: UInt32, year: UInt32, hour: UInt32, minute: UInt32, second: UInt32)

  datatype Field = Month | Day | Year | Hour | Minute | Second

  datatype Parsed = TooShort | Failed(field: Field) | Time(time: ArtikTime)

  // strlen("MM/DD/YYYY HH:mm:SS")
  const DATE_LENGTH := 19

  predicate AllDigits(s: string) {
    forall i :: 0 <= i < |s| ==> IsDigit(s[i], 10)
  }

  // The number written in the n characters at p.
  function FieldAt(date: string, p: nat, n: nat): Option<nat>
    requires p + n <= |date|
  {
    var s := date[p..p + n];
    if AllDigits(s) then Some(Value(DigitsOf(s, 10), 10)) else None
  }

  lemma PowFour()
    ensures Pow(10, 1) == 10 && Pow(10, 2) == 100 && Pow(10, 3) == 1000 && Pow(10, 4) == 10000
  {
    assert Pow(10, 0) == 1;
    assert Pow(10, 1) == 10;
    assert Pow(10, 2) == 100;
    assert Pow(10, 3) == 1000;
  }

  lemma FieldBelow(date: string, p: nat, n: nat)
    requires p + n <= |date| && n <= 4
    ensures FieldAt(date, p, n).Some? ==> FieldAt(date, p, n).value < Pow(10, n) <= 10000
  {
    var s := date[p..p + n];
    if AllDigits(s) { ValueBound(DigitsOf(s, 10), 10); }
    PowFour();
  }

  // What the -d option stores: the first field that is not all digits decides, and whatever
  // stands between the fields or behind them does not matter.
  function ParseDate(date: string): Parsed {
    if |date| < DATE_LENGTH then TooShort
    else
      var month, day, year := FieldAt(date, 0, 2), FieldAt(date, 3, 2), FieldAt(date, 6, 4);
      var hour, minute, second := FieldAt(date, 11, 2), FieldAt(date, 14, 2), FieldAt(date, 17, 2);
      if month.None? then Failed(Month)
      else if day.None? then Failed(Day)
      else if year.None? then Failed(Year)
      else if hour.None? then Failed(Hour)
      else if minute.None? then Failed(Minute)
      else if second.None? then Failed(Second)
      else
        FieldBelow(date, 0, 2); FieldBelow(date, 3, 2); FieldBelow(date, 6, 4);
        FieldBelow(date, 11, 2); FieldBelow(date, 14, 2); FieldBelow(date, 17, 2);
        Time(ArtikTime(month.value, day.value, year.value, hour.value, minute.value, second.value))
  }

  function Wrapped(v: nat): UInt32 { v % MODULUS }

  // Wrapping at every step is wrapping once.
  lemma WrapOnce(v: nat, d: nat)
    ensures ((v % MODULUS * 10) % MODULUS + d) % MODULUS == (Scale(v, 10) + d) % MODULUS
  {
    var q, r := v / MODULUS, v % MODULUS;
    SameRemainder(r * 10 + d, (r * 10) % MODULUS + d, r * 10 / MODULUS);
    SameRemainder(Scale(v, 10) + d, r * 10 + d, q * 10);
  }

  lemma SameRemainder(a: nat, b: nat, k: nat)
    requires a == b + k * MODULUS
    ensures a % MODULUS == b % MODULUS
  {
    var x, y := a / MODULUS, b / MODULUS;
    assert (x - y - k) * MODULUS == b % MODULUS - a % MODULUS;
  }

  // parse_int: advances over n digits, or stops at the first other character. The number is an
  // unsigned int and wraps around.
  method ParseInt(date: string, p: nat, n: nat) returns (next: nat, res: UInt32, ret: int)
    requires p + n <= |date|
    ensures ret == if FieldAt(date, p, n).Some? then 0 else -1
    ensures ret == 0 ==> next == p + n && res == Wrapped(FieldAt(date, p, n).value)
    ensures ret == 0 && n <= 4 ==> Some(res) == FieldAt(date, p, n)
  {
    hide Scale;
    ghost var s := date[p..p + n];
    ghost var ds: seq<nat> := [];
    next, res := p, 0;
    var left := n;
    while left > 0
      invariant 0 <= left <= n && next == p + n - left
      invariant forall i :: 0 <= i < n - left ==> IsDigit(s[i], 10)
      invariant |ds| == n - left && forall i :: 0 <= i < |ds| ==> ds[i] == DigitValue(s[i], 10)
      invariant res == Value(ds, 10) % MODULUS
    {
      if date[next] < '0' || date[next] > '9' {
        assert !IsDigit(s[next - p], 10);
        return next, res, -1;
      }
      assert date[next] == s[n - left];
      ValueSnoc(ds, DigitValue(date[next], 10), 10);
      WrapOnce(Value(ds, 10), DigitValue(date[next], 10));
      ds := ds + [DigitValue(date[next], 10)];
      res := (res * 10) % MODULUS;
      res := (res + (date[next] as int - '0' as int)) % MODULUS;
      next := next + 1;
      left := left - 1;
    }
    assert ds == DigitsOf(s, 10);
    if n <= 4 { FieldBelow(date, p, n); }
    ret := 0;
  }

  // The -d case of main. No index of 19 or more is read.
  method ParseDateOption(date: string) returns (r: Parsed)
    ensures r == ParseDate(date)
  {
    if |date| < DATE_LENGTH { return TooShort; }
    FieldBelow(date, 0, 2); FieldBelow(date, 3, 2); FieldBelow(date, 6, 4);
    FieldBelow(date, 11, 2); FieldBelow(date, 14, 2); FieldBelow(date, 17, 2);
    hide FieldAt, Pow, Wrapped;
    var p, month, ret := ParseInt(date, 0, 2);
    if ret != 0 { return Failed(Month); }
    var day;
    p, day, ret := ParseInt(date, p + 1, 2);
    if ret != 0 { return Failed(Day); }
    var year;
    p, year, ret := ParseInt(date, p + 1, 4);
    if ret != 0 { return Failed(Year); }
    var hour;
    p, hour, ret := ParseInt(date, p + 1, 2);
    if ret != 0 { return Failed(Hour); }
    var minute;
    p, minute, ret := ParseInt(date, p + 1, 2);
    if ret != 0 { return Failed(Minute); }
    var second;
    p, second, ret := ParseInt(date, p + 1, 2);
    if ret != 0 { return Failed(Second); }
    return Time(ArtikTime(month, day, year, hour, minute, second));
  }

  // ---- What a date means ----

  function Start(f: Field): nat {
    match f case Month => 0 case Day => 3 case Year => 6 case Hour => 11 case Minute => 14 case Second => 17
  }

  function Width(f: Field): nat { if f == Year then 4 else 2 }

  // Field f of a date is written in decimal digits.
  predicate Written(date: string, f: Field)
    requires |date| >= DATE_LENGTH
  {
    forall i :: Start(f) <= i < Start(f) + Width(f) ==> '0' <= date[i] <= '9'
  }

  lemma WrittenIff(date: string, f: Field)
    requires |date| >= DATE_LENGTH
    ensures Written(date, f) <==> FieldAt(date, Start(f), Width(f)).Some?
  {
    var s := date[Start(f)..Start(f) + Width(f)];
    forall i | Start(f) <= i < Start(f) + Width(f)
      ensures '0' <= date[i] <= '9' <==> IsDigit(s[i - Start(f)], 10)
    {
      assert s[i - Start(f)] == date[i];
    }
    hide IsDigit;
    if AllDigits(s) {
      forall i | Start(f) <= i < Start(f) + Width(f) ensures '0' <= date[i] <= '9' {
        assert IsDigit(s[i - Start(f)], 10);
      }
    }
    if Written(date, f) {
      forall k | 0 <= k < |s| ensures IsDigit(s[k], 10) { assert '0' <= date[Start(f) + k] <= '9'; }
    }
  }

  // A date fails at the first field that is not written in digits, and at no other.
  lemma FailsAtFirstBadField(date: string, f: Field)
    ensures ParseDate(date) == TooShort <==> |date| < 19
    ensures |date| >= 19 ==>
      (ParseDate(date) == Failed(f) <==>
        !Written(date, f) && forall g: Field :: Start(g) < Start(f) ==> Written(date, g))
    ensures |date| >= 19 ==> (ParseDate(date).Time? <==> forall g: Field :: Written(date, g))
  {
    if |date| >= DATE_LENGTH {
      forall g: Field ensures Written(date, g) <==> FieldAt(date, Start(g), Width(g)).Some? {
        WrittenIff(date, g);
      }
      AllFields();
      hide FieldAt, Written;
    }
  }

  lemma AllFields()
    ensures Start(Month) == 0 && Start(Day) == 3 && Start(Year) == 6
    ensures Start(Hour) == 11 && Start(Minute) == 14 && Start(Second) == 17
    ensures Width(Month) == Width(Day) == Width(Hour) == Width(Minute) == Width(Second) == 2 && Width(Year) == 4
  {
  }

  function Digit(c: char): int { c as int - '0' as int }

  lemma TwoDigits(date: string, p: nat)
    requires p + 2 <= |date| && FieldAt(date, p, 2).Some?
    ensures FieldAt(date, p, 2).value == 10 * Digit(date[p]) + Digit(date[p + 1])
  {
    var ds := DigitsOf(date[p..p + 2], 10);
    assert ds == [] + [ds[0]] + [ds[1]];
    assert Value([], 10) == 0;
    ValueSnoc([], ds[0], 10);
    ValueSnoc([] + [ds[0]], ds[1], 10);
  }

  lemma FourDigits(date: string, p: nat)
    requires p + 4 <= |date| && FieldAt(date, p, 4).Some?
    ensures FieldAt(date, p, 4).value ==
      1000 * Digit(date[p]) + 100 * Digit(date[p + 1]) + 10 * Digit(date[p + 2]) + Digit(date[p + 3])
  {
    var ds := DigitsOf(date[p..p + 4], 10);
    assert Value([], 10) == 0;
    hide Value;
    assert ds == [] + [ds[0]] + [ds[1]] + [ds[2]] + [ds[3]];
    ValueSnoc([], ds[0], 10);
    ValueSnoc([] + [ds[0]], ds[1], 10);
    ValueSnoc([] + [ds[0]] + [ds[1]], ds[2], 10);
    ValueSnoc([] + [ds[0]] + [ds[1]] + [ds[2]], ds[3], 10);
  }

  // Month first, then day and year, hour, minute and second, each by its own digits.
  lemma DateReads(date: string)
    requires ParseDate(date).Time?
    ensures |date| >= 19
    ensures var t := ParseDate(date).time;
      && t.month == 10 * Digit(date[0]) + Digit(date[1])
      && t.day == 10 * Digit(date[3]) + Digit(date[4])
      && t.year == 1000 * Digit(date[6]) + 100 * Digit(date[7]) + 10 * Digit(date[8]) + Digit(date[9])
      && t.hour == 10 * Digit(date[11]) + Digit(date[12])
      && t.minute == 10 * Digit(date[14]) + Digit(date[15])
      && t.second == 10 * Digit(date[17]) + Digit(date[18])
  {
    hide FieldAt, Digit;
    TwoDigits(date, 0); TwoDigits(date, 3); FourDigits(date, 6);
    TwoDigits(date, 11); TwoDigits(date, 14); TwoDigits(date, 17);
  }

  // ---- Printing ----

  // %0<width>d of an unsigned field: the upper half of the range comes out negative, and the
  // sign takes one place of the width.
  function Print(n: UInt32, width: nat): string
    requires width > 0
  {
    if n < 0x8000_0000 then Text(Padded(n, width, 10))
    else "-" + Text(Padded(MODULUS - n, width - 1, 10))
  }

  function Joined(mo: string, da: string, ye: string, ho: string, mi: string, se: string): string {
    mo + "/" + da + "/" + ye + " " + ho + ":" + mi + ":" + se
  }

  function Full(t: ArtikTime): string {
    Joined(Print(t.month, 2), Print(t.day, 2), Print(t.year, 4),
           Print(t.hour, 2), Print(t.minute, 2), Print(t.second, 2))
  }

  // convert_time_to_str into the 20-byte buffer of main: at most 19 characters are kept.
  function TimeToStr(t: ArtikTime): string {
    var full := Full(t);
    if |full| <= DATE_LENGTH then full else full[..DATE_LENGTH]
  }

  predicate Fits(t: ArtikTime) {
    t.month < 100 && t.day < 100 && t.year < 10000 && t.hour < 100 && t.minute < 100 && t.second < 100
  }

  lemma DigitsOfText(ds: seq<nat>)
    requires AreDigits(ds, 10)
    ensures AreDigits(ds, 16) && AllDigits(Text(ds)) && DigitsOf(Text(ds), 10) == ds
  {
    forall i | 0 <= i < |ds| ensures IsDigit(Text(ds)[i], 10) && DigitValue(Text(ds)[i], 10) == ds[i] {
      assert Text(ds)[i] == DigitChar(ds[i]);
    }
  }

  lemma TextOfDigits(s: string)
    requires AllDigits(s)
    ensures var ds := DigitsOf(s, 10); AreDigits(ds, 10) && AreDigits(ds, 16) && Text(ds) == s
  {
    var ds := DigitsOf(s, 10);
    assert forall i :: 0 <= i < |ds| ==> ds[i] == DigitValue(s[i], 10) < 10;
    assert forall i :: 0 <= i < |s| ==> Text(ds)[i] == DigitChar(ds[i]) == s[i];
  }

  lemma PaddedToWidth(n: nat, width: nat)
    requires width > 0 && n < Pow(10, width)
    ensures |Padded(n, width, 10)| == width && Value(Padded(n, width, 10), 10) == n
  {
    DigitsLength(n, width, 10);
    PaddedValue(n, width, 10);
    hide Value, Pow, Digits;
  }

  lemma PrintedField(n: UInt32, width: nat)
    requires 0 < width <= 4 && n < Pow(10, width)
    ensures var s := Print(n, width);
      |s| == width && AllDigits(s) && Value(DigitsOf(s, 10), 10) == n
  {
    hide Value, Pow, Padded, AllDigits, DigitsOf, Text, Remainder, Scale, Quotient;
    PowFour();
    assert n < 10000;
    PaddedToWidth(n, width);
    DigitsOfText(Padded(n, width, 10));
  }

  // Whatever the field: its number in decimal, or, from the middle of the range on, a minus
  // sign and how much is missing to 2^32.
  lemma PrintedAnyField(n: UInt32, width: nat)
    requires width > 0
    ensures var s, negative := Print(n, width), n >= 0x8000_0000;
      && |s| >= width && (negative ==> s[0] == '-')
      && var digits := if negative then s[1..] else s;
         AllDigits(digits) && Value(DigitsOf(digits, 10), 10) == if negative then 0x1_0000_0000 - n else n
  {
    var v, w := if n >= 0x8000_0000 then MODULUS - n else n, if n >= 0x8000_0000 then width - 1 else width;
    PaddedValue(v, w, 10);
    DigitsOfText(Padded(v, w, 10));
    hide Value, Padded, AllDigits, DigitsOf, Text;
    assert ("-" + Text(Padded(v, w, 10)))[1..] == Text(Padded(v, w, 10));
  }

  // Fields of the right widths stand where the parser looks for them.
  lemma JoinedFields(mo: string, da: string, ye: string, ho: string, mi: string, se: string)
    requires |mo| == |da| == |ho| == |mi| == |se| == 2 && |ye| == 4
    ensures var s := Joined(mo, da, ye, ho, mi, se);
      && |s| == DATE_LENGTH
      && s[0..2] == mo && s[3..5] == da && s[6..10] == ye
      && s[11..13] == ho && s[14..16] == mi && s[17..19] == se
      && s[2] == '/' && s[5] == '/' && s[10] == ' ' && s[13] == ':' && s[16] == ':'
  {
  }

  // Parsing what was printed gives the time back exactly when every field fits its width.
  lemma PrintParseIff(t: ArtikTime)
    ensures ParseDate(TimeToStr(t)) == Time(t) <==> Fits(t)
  {
    if Fits(t) {
      PrintParse(t);
    } else if ParseDate(TimeToStr(t)) == Time(t) {
      var date := TimeToStr(t);
      FieldBelow(date, 0, 2); FieldBelow(date, 3, 2); FieldBelow(date, 6, 4);
      FieldBelow(date, 11, 2); FieldBelow(date, 14, 2); FieldBelow(date, 17, 2);
    }
  }

  lemma PrintParse(t: ArtikTime)
    requires Fits(t)
    ensures ParseDate(TimeToStr(t)) == Time(t)
  {
    hide Print, AllDigits, DigitsOf, Value, Pow, Joined;
    PowFour();
    PrintedField(t.month, 2); PrintedField(t.day, 2); PrintedField(t.year, 4);
    PrintedField(t.hour, 2); PrintedField(t.minute, 2); PrintedField(t.second, 2);
    JoinedFields(Print(t.month, 2), Print(t.day, 2), Print(t.year, 4),
                 Print(t.hour, 2), Print(t.minute, 2), Print(t.second, 2));
  }

  predicate Separated(date: string)
    requires |date| >= DATE_LENGTH
  {
    date[2] == '/' && date[5] == '/' && date[10] == ' ' && date[13] == ':' && date[16] == ':'
  }

  // Reading a field and printing it again gives the same characters.
  lemma FieldReprinted(date: string, p: nat, n: nat)
    requires p + n <= |date| && 0 < n <= 4 && FieldAt(date, p, n).Some?
    ensures FieldAt(date, p, n).value < 10000
    ensures Print(FieldAt(date, p, n).value, n) == date[p..p + n]
  {
    hide Value, Pow, Padded, Digits, AllDigits, DigitsOf, Text, Remainder, Scale, Quotient;
    var s := date[p..p + n];
    var ds := DigitsOf(s, 10);
    TextOfDigits(s);
    ValueBound(ds, 10);
    PowFour();
    PaddedToWidth(Value(ds, 10), n);
    ValueInjective(Padded(Value(ds, 10), n, 10), ds, 10);
  }

  // Printing a parsed date gives its first 19 characters back exactly when those were
  // separated the way the format says.
  lemma ParsePrintIff(date: string)
    requires ParseDate(date).Time?
    ensures TimeToStr(ParseDate(date).time) == date[..DATE_LENGTH] <==> Separated(date)
  {
    var t := ParseDate(date).time;
    FieldReprinted(date, 0, 2); FieldReprinted(date, 3, 2); FieldReprinted(date, 6, 4);
    FieldReprinted(date, 11, 2); FieldReprinted(date, 14, 2); FieldReprinted(date, 17, 2);
    hide Print, FieldAt;
    var s := Joined(date[0..2], date[3..5], date[6..10], date[11..13], date[14..16], date[17..19]);
    assert Full(t) == s;
    SeparatorsDecide(date);
  }

  lemma SeparatorsDecide(date: string)
    requires |date| >= DATE_LENGTH
    ensures var s := Joined(date[0..2], date[3..5], date[6..10], date[11..13], date[14..16], date[17..19]);
      |s| == DATE_LENGTH && (s == date[..DATE_LENGTH] <==> Separated(date))
  {
    var s := Joined(date[0..2], date[3..5], date[6..10], date[11..13], date[14..16], date[17..19]);
    JoinedFields(date[0..2], date[3..5], date[6..10], date[11..13], date[14..16], date[17..19]);
    hide Joined;
    if Separated(date) {
      forall i | 0 <= i < DATE_LENGTH ensures s[i] == date[i] {
        if i < 2 { assert s[0..2][i] == date[0..2][i]; }
        else if 3 <= i < 5 { assert s[3..5][i - 3] == date[3..5][i - 3]; }
        else if 6 <= i < 10 { assert s[6..10][i - 6] == date[6..10][i - 6]; }
        else if 11 <= i < 13 { assert s[11..13][i - 11] == date[11..13][i - 11]; }
        else if 14 <= i < 16 { assert s[14..16][i - 14] == date[14..16][i - 14]; }
        else if 17 <= i { assert s[17..19][i - 17] == date[17..19][i - 17]; }
      }
    }
  }

  // Nothing behind the first 19 characters is looked at.
  lemma OnlyNineteenRead(date: string)
    requires |date| >= DATE_LENGTH
    ensures ParseDate(date) == ParseDate(date[..DATE_LENGTH])
  {
    var d := date[..DATE_LENGTH];
    assert d[0..2] == date[0..2] && d[3..5] == date[3..5] && d[6..10] == date[6..10];
    assert d[11..13] == date[11..13] && d[14..16] == date[14..16] && d[17..19] == date[17..19];
  }
}

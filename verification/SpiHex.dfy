/** The hex argument parser and the hex dump of examples/spi/artik_spi_example.c. */
module SpiHex {
  import opened Radix
  import opened NumberReader

  type Byte = n: nat | n < 256

  // isspace in the C locale.
  predicate IsSpace(c: char) {
    c == ' ' || ('\t' <= c && c <= '\r')
  }

  // isprint in the C locale.
  predicate IsPrint(b: Byte) { 0x20 <= b < 0x7F }

  predicate AllHex(s: string) {
    forall i :: 0 <= i < |s| ==> IsDigit(s[i], 16)
  }

  // The characters of s that are not white space, in order.
  function Packed(s: string): string {
    if s == [] then []
    else
      var c := s[|s| - 1];
      Packed(s[..|s| - 1]) + if IsSpace(c) then [] else [c]
  }

  function HexValue(s: string): nat
    requires AllHex(s)
  {
    Value(DigitsOf(s, 16), 16)
  }

  // bytes is what the hexadecimal text s says: half as many bytes as digits, rounded up, and
  // the same number.
  ghost predicate Spells(s: string, bytes: seq<Byte>) {
    var digits := Packed(s);
    && AllHex(digits)
    && |bytes| == (|digits| + 1) / 2
    && Value(bytes, 256) == HexValue(digits)
  }

  // ---- Parsing ----

  method StrLen(a: array<char>) returns (n: nat)
    requires '\0' in a[..]
    ensures n < a.Length && a[n] == '\0' && '\0' !in a[..n]
  {
    n := 0;
    while a[n] != '\0'
      invariant n < a.Length && '\0' !in a[..n]
      decreases a.Length - n
    {
      n := n + 1;
    }
  }

  lemma FirstNul(a: seq<char>, m: nat, n: nat)
    requires m < |a| && a[m] == '\0' && '\0' !in a[..m]
    requires n < |a| && a[n] == '\0' && '\0' !in a[..n]
    ensures m == n
  {
    assert forall k :: 0 <= k < n ==> a[..n][k] == a[k];
    assert forall k :: 0 <= k < m ==> a[..m][k] == a[k];
  }

  // The first loop of hex_string_to_array.
  method Compact(str: string) returns (tmp: array<char>, count: nat)
    requires '\0' !in str
    ensures tmp.Length == |str| + 1 && count <= |str|
    ensures tmp[..count] == Packed(str) && '\0' !in Packed(str) && tmp[count] == '\0'
  {
    tmp := new char[|str| + 1];
    count := 0;
    for i := 0 to |str|
      invariant count <= i
      invariant tmp[..count] == Packed(str[..i]) && '\0' !in Packed(str[..i])
    {
      assert str[..i + 1][..i] == str[..i];
      if !IsSpace(str[i]) {
        tmp[count] := str[i];
        count := count + 1;
      }
    }
    assert str[..|str|] == str;
    tmp[count] := '\0';
  }

  // A leading zero makes the number of digits even.
  function Evened(s: string): string {
    if |s| % 2 == 0 then s else "0" + s
  }

  lemma ZeroAhead(s: string)
    ensures AllHex("0" + s) <==> AllHex(s)
  {
    var t := "0" + s;
    assert t[0] == '0' && IsDigit(t[0], 16);
    hide DigitOf, IsDigit;
    if AllHex(t) {
      forall i | 0 <= i < |s| ensures IsDigit(s[i], 16) { assert t[i + 1] == s[i]; }
    }
    if AllHex(s) {
      forall i | 0 <= i < |t| ensures IsDigit(t[i], 16) { assert i > 0 ==> t[i] == s[i - 1]; }
    }
  }

  lemma EvenedSame(s: string)
    ensures |Evened(s)| % 2 == 0 && AllHex(Evened(s)) == AllHex(s)
    ensures AllHex(s) ==> HexValue(Evened(s)) == HexValue(s)
  {
    ZeroAhead(s);
    if |s| % 2 == 1 && AllHex(s) {
      assert DigitsOf("0" + s, 16) == Zeros(1) + DigitsOf(s, 16);
      ValueZeros(1, DigitsOf(s, 16), 16);
    }
  }

  method PadToEven(tmp: array<char>, count: nat) returns (strhex: array<char>)
    requires count < tmp.Length && tmp[count] == '\0' && '\0' !in tmp[..count]
    ensures |Evened(tmp[..count])| < strhex.Length
    ensures strhex[..|Evened(tmp[..count])|] == Evened(tmp[..count])
    ensures strhex[|Evened(tmp[..count])|] == '\0'
  {
    if count % 2 == 0 { return tmp; }
    strhex := new char[count + 2];
    strhex[0] := '0';
    for i := 0 to count
      invariant strhex[0] == '0' && strhex[1..i + 1] == tmp[..i]
    {
      strhex[i + 1] := tmp[i];
    }
    strhex[count + 1] := '\0';
    assert strhex[..count + 1] == ['0'] + strhex[1..count + 1];
  }

  // strtol of two hex digits.
  function HexByte(hi: char, lo: char): Byte
    requires IsDigit(hi, 16) && IsDigit(lo, 16)
  {
    DigitValue(hi, 16) * 16 + DigitValue(lo, 16)
  }

  lemma PairValue(s: string, i: nat, bytes: seq<Byte>, b: Byte)
    requires i + 2 <= |s| && AllHex(s[..i]) && IsDigit(s[i], 16) && IsDigit(s[i + 1], 16)
    requires Value(bytes, 256) == HexValue(s[..i])
    requires b == HexByte(s[i], s[i + 1])
    ensures AllHex(s[..i + 2]) && Value(bytes + [b], 256) == HexValue(s[..i + 2])
  {
    hide Value, Scale, DigitOf;
    var ds := DigitsOf(s[..i], 16);
    var d, e := DigitValue(s[i], 16), DigitValue(s[i + 1], 16);
    ValueSnoc(bytes, b, 256);
    ValueSnoc(ds, d, 16);
    ValueSnoc(ds + [d], e, 16);
    ScaleTwice(Value(ds, 16), d, e);
    assert DigitsOf(s[..i + 2], 16) == ds + [d] + [e];
  }

  lemma ScaleTwice(v: nat, d: nat, e: nat)
    ensures Scale(Scale(v, 16) + d, 16) + e == Scale(v, 256) + (d * 16 + e)
  {
  }

  lemma NothingSpelt()
    ensures Packed([]) == [] && AllHex([]) && HexValue([]) == 0 && Value([], 256) == 0
  {
  }

  // The last loop of hex_string_to_array.
  method ConvertPairs(strhex: array<char>, count: nat) returns (buf: array?<Byte>)
    requires count <= strhex.Length && count % 2 == 0
    ensures buf != null <==> AllHex(strhex[..count])
    ensures buf != null ==> count / 2 <= buf.Length
    ensures buf != null ==> Value(buf[..count / 2], 256) == HexValue(strhex[..count])
  {
    NothingSpelt();
    hide HexValue, Value, GetHex;
    ghost var s := strhex[..count];
    var a := new Byte[count * 2];
    assert a[..0] == [] && s[..0] == [];
    var i, j := 0, 0;
    while i < count
      invariant i == 2 * j <= count
      invariant AllHex(s[..i]) && Value(a[..j], 256) == HexValue(s[..i])
    {
      assert strhex[i] == s[i] && strhex[i + 1] == s[i + 1];
      if !IsDigit(strhex[i], 16) || !IsDigit(strhex[i + 1], 16) { return null; }
      ghost var done := a[..j];
      ghost var b := HexByte(strhex[i], strhex[i + 1]);
      a[j] := HexByte(strhex[i], strhex[i + 1]);
      assert a[..j] == done && a[..j + 1] == done + [b];
      PairValue(s, i, done, b);
      i, j := i + 2, j + 1;
    }
    assert s[..i] == s;
    buf := a;
  }

  // zeroAlloc: whether malloc(0) gives a pointer, which the C standard leaves to the library.
  method HexStringToArray(str: string, zeroAlloc: bool) returns (ok: bool, buf: array?<Byte>, len: nat)
    requires '\0' !in str
    ensures ok <==> AllHex(Packed(str)) && (Packed(str) != [] || zeroAlloc)
    ensures ok <==> buf != null
    ensures ok ==> len <= buf.Length && Spells(str, buf[..len])
  {
    var tmp, count := Compact(str);
    ghost var digits := Packed(str);
    NothingSpelt();
    hide Packed, HexValue, Value, AllHex;
    EvenedSame(digits);
    var strhex := PadToEven(tmp, count);
    ghost var s := Evened(digits);
    assert strhex[..][..|s|] == s && strhex[..][|s|] == '\0' && '\0' !in s;
    count := StrLen(strhex);
    assert strhex[..][..count] == strhex[..count];
    FirstNul(strhex[..], |s|, count);
    len := 0;
    if count == 0 && !zeroAlloc { return false, null, len; }
    len := count / 2;
    buf := ConvertPairs(strhex, count);
    ok := buf != null;
  }

  // The text determines the bytes.
  lemma SpellsOne(s: string, a: seq<Byte>, b: seq<Byte>)
    requires Spells(s, a) && Spells(s, b)
    ensures a == b
  {
    ValueInjective(a, b, 256);
  }

  // ---- What the parser looks at ----

  function Lower(c: char): char {
    if 'A' <= c <= 'Z' then (c as int + 32) as char else c
  }

  predicate SameLetters(s: string, t: string) {
    |s| == |t| && forall i :: 0 <= i < |s| ==> Lower(s[i]) == Lower(t[i])
  }

  lemma SameLetter(c: char, d: char)
    requires Lower(c) == Lower(d)
    ensures IsSpace(c) == IsSpace(d) && GetHex(c) == GetHex(d)
  {
    DigitsAreThese(c);
  }

  lemma {:induction false} PackedLetters(s: string, t: string)
    requires SameLetters(s, t)
    ensures SameLetters(Packed(s), Packed(t))
  {
    hide Lower, IsSpace, GetHex;
    if s != [] {
      var n := |s| - 1;
      SameLetter(s[n], t[n]);
      PackedLetters(s[..n], t[..n]);
    }
  }

  lemma SameDigits(s: string, t: string)
    requires SameLetters(s, t)
    ensures AllHex(s) == AllHex(t) && (AllHex(s) ==> HexValue(s) == HexValue(t))
  {
    forall i | 0 <= i < |s| ensures GetHex(s[i]) == GetHex(t[i]) { SameLetter(s[i], t[i]); }
    hide Value, GetHex;
    assert AllHex(s) <==> AllHex(t) by {
      assert forall i :: 0 <= i < |s| ==> IsDigit(s[i], 16) == IsDigit(t[i], 16);
    }
    if AllHex(s) { assert DigitsOf(s, 16) == DigitsOf(t, 16); }
  }

  // The case of the letters does not matter.
  lemma CaseDoesNotMatter(s: string, t: string, bytes: seq<Byte>)
    requires SameLetters(s, t)
    ensures Spells(s, bytes) <==> Spells(t, bytes)
  {
    PackedLetters(s, t);
    SameDigits(Packed(s), Packed(t));
  }

  // Digits written in either case, white space anywhere between them, spell their number.
  lemma WrittenSpells(s: string, text: string, ds: seq<nat>, bytes: seq<Byte>)
    requires Writes(text, ds) && Packed(s) == text
    ensures Spells(s, bytes) <==> |bytes| == (|ds| + 1) / 2 && Value(bytes, 256) == Value(ds, 16)
  {
    WrittenDigits(text, ds);
  }

  // What packing leaves out: the six white space characters, and nothing else.
  lemma PackedChar(c: char)
    ensures Packed([c]) == if c in " \t\n\r" || c as int == 11 || c as int == 12 then [] else [c]
  {
    assert [c][..0] == [];
  }

  // ---- The dump ----

  function HexPair(b: Byte): string { [DigitChar(b / 16), DigitChar(b % 16)] }

  // %02X of a char: where char is signed, a byte above 0x7F is sign-extended first.
  function Hex(b: Byte, charSigned: bool): string {
    if charSigned && b >= 0x80 then "FFFFFF" + HexPair(b) else HexPair(b)
  }

  // Every fourth column is followed by a second space.
  function Gap(j: nat): string { if j % 4 == 3 then " " else "" }

  function Cells(row: seq<Byte>, charSigned: bool): string {
    if row == [] then []
    else
      var j := |row| - 1;
      Cells(row[..j], charSigned) + (Hex(row[j], charSigned) + " " + Gap(j))
  }

  // The columns from j to 16 of a short last row.
  function Blanks(j: nat): string
    decreases 16 - j
  {
    if j >= 16 then [] else "   " + Gap(j) + Blanks(j + 1)
  }

  function Shown(row: seq<Byte>): string {
    if row == [] then []
    else
      var j := |row| - 1;
      Shown(row[..j]) + [if IsPrint(row[j]) then row[j] as char else '.']
  }

  // The hex columns of one row.
  function Columns(row: seq<Byte>, charSigned: bool, long: bool): string {
    Cells(row, charSigned) + if long then Blanks(|row|) else []
  }

  function Row(row: seq<Byte>, charSigned: bool, long: bool): string {
    Columns(row, charSigned, long) + " " + Shown(row) + "\n"
  }

  function RowAt(buffer: seq<Byte>, i: nat): seq<Byte>
    requires i < |buffer|
  {
    buffer[i..if i + 16 <= |buffer| then i + 16 else |buffer|]
  }

  // The dump from offset i on.
  function Dump(buffer: seq<Byte>, i: nat, charSigned: bool): string
    decreases |buffer| - i
  {
    if i >= |buffer| then []
    else Row(RowAt(buffer, i), charSigned, |buffer| > 16) + Dump(buffer, i + 16, charSigned)
  }

  method PrintCells(row: array<Byte>, size: nat, charSigned: bool) returns (out: string)
    requires size <= row.Length
    ensures out == Cells(row[..size], charSigned)
  {
    out := [];
    for j := 0 to size
      invariant out == Cells(row[..j], charSigned)
    {
      assert row[..j + 1][..j] == row[..j];
      out := out + (Hex(row[j], charSigned) + " " + if j % 4 == 3 then " " else "");
    }
  }

  method PrintShown(row: array<Byte>, size: nat) returns (out: string)
    requires size <= row.Length
    ensures out == Shown(row[..size])
  {
    out := [];
    for j := 0 to size
      invariant out == Shown(row[..j])
    {
      assert row[..j + 1][..j] == row[..j];
      out := out + [if IsPrint(row[j]) then row[j] as char else '.'];
    }
  }

  method PrintBlanks(from: nat) returns (out: string)
    ensures out == Blanks(from)
  {
    out := [];
    var j := from;
    while j < 16
      invariant out + Blanks(j) == Blanks(from)
    {
      out := out + ("   " + Gap(j));
      j := j + 1;
    }
  }

  lemma RowIs(row: seq<Byte>, size: nat, buffer: seq<Byte>, i: nat)
    requires i < |buffer| && size == (if 16 > |buffer| - i then |buffer| - i else 16) <= |row|
    requires forall k :: 0 <= k < size ==> row[k] == buffer[i + k]
    ensures row[..size] == RowAt(buffer, i) && |RowAt(buffer, i)| == size
  {
  }

  // One turn of the loop of print_buffer.
  method PrintRow(buffer: array<Byte>, length: nat, i: nat, charSigned: bool) returns (line: string)
    requires i < length <= buffer.Length
    ensures line == Row(RowAt(buffer[..length], i), charSigned, length > 16)
  {
    var row := new Byte[16](_ => 0);
    var size := if 16 > length - i then length - i else 16;
    forall k | 0 <= k < size { row[k] := buffer[i + k]; }
    ghost var bytes := RowAt(buffer[..length], i);
    RowIs(row[..], size, buffer[..length], i);
    RowText(bytes, charSigned, length > 16);
    hide RowAt, Row, Columns, Cells, Blanks, Shown, Hex, Gap;
    line := PrintCells(row, size, charSigned);
    if length > 16 {
      var blanks := PrintBlanks(size);
      line := line + blanks;
    }
    var shown := PrintShown(row, size);
    line := line + " " + shown + "\n";
  }

  lemma RowText(row: seq<Byte>, charSigned: bool, long: bool)
    ensures Row(row, charSigned, long) ==
      (if long then Cells(row, charSigned) + Blanks(|row|) else Cells(row, charSigned)) + " " + Shown(row) + "\n"
  {
    hide Cells, Blanks, Shown;
    assert Cells(row, charSigned) + [] == Cells(row, charSigned);
  }

  // print_buffer, with what it prints as its result.
  method PrintBuffer(buffer: array<Byte>, length: int, charSigned: bool) returns (out: string)
    requires length <= buffer.Length
    ensures out == if length <= 0 then [] else Dump(buffer[..length], 0, charSigned)
  {
    out := [];
    if length <= 0 { return; }
    hide Row, RowAt;
    ghost var bytes := buffer[..length];
    ghost var all := Dump(bytes, 0, charSigned);
    assert out + all == all;
    var i := 0;
    while i < length
      invariant 0 <= i
      invariant out + Dump(bytes, i, charSigned) == all
    {
      var line := PrintRow(buffer, length, i, charSigned);
      Append(out, line, Dump(bytes, i + 16, charSigned));
      out := out + line;
      i := i + 16;
    }
    assert out + [] == out;
  }

  lemma Append(a: string, b: string, c: string)
    ensures a + (b + c) == a + b + c
  {
  }

  // ---- The round trip ----

  // The hex columns of all rows from offset i on.
  function AllColumns(buffer: seq<Byte>, i: nat, charSigned: bool): string
    decreases |buffer| - i
  {
    if i >= |buffer| then []
    else Columns(RowAt(buffer, i), charSigned, |buffer| > 16) + AllColumns(buffer, i + 16, charSigned)
  }

  function HexText(bytes: seq<Byte>, charSigned: bool): string {
    if bytes == [] then []
    else HexText(bytes[..|bytes| - 1], charSigned) + Hex(bytes[|bytes| - 1], charSigned)
  }

  lemma {:induction false} PackedConcat(a: string, b: string)
    ensures Packed(a + b) == Packed(a) + Packed(b)
    decreases |b|
  {
    if b == [] {
      assert a + b == a;
    } else {
      var k := |b| - 1;
      PackedConcat(a, b[..k]);
      assert (a + b)[..|a| + k] == a + b[..k];
    }
  }

  lemma {:induction false} PackedBlank(s: string)
    requires forall i :: 0 <= i < |s| ==> s[i] == ' '
    ensures Packed(s) == []
  {
    if s != [] { PackedBlank(s[..|s| - 1]); }
  }

  lemma {:induction false} PackedHexDigits(s: string)
    requires AllHex(s)
    ensures Packed(s) == s
  {
    if s != [] {
      PackedHexDigits(s[..|s| - 1]);
      assert s == s[..|s| - 1] + [s[|s| - 1]];
    }
  }

  lemma HexIsHex(b: Byte, charSigned: bool)
    ensures AllHex(Hex(b, charSigned))
    ensures AllHex(HexPair(b)) && DigitsOf(HexPair(b), 16) == [b / 16, b % 16]
    ensures |Hex(b, charSigned)| == if charSigned && b >= 0x80 then 8 else 2
  {
  }

  lemma {:induction false} BlanksAreBlank(j: nat)
    ensures forall i :: 0 <= i < |Blanks(j)| ==> Blanks(j)[i] == ' '
    decreases 16 - j
  {
    if j < 16 { BlanksAreBlank(j + 1); }
  }

  lemma PackedCell(b: Byte, j: nat, charSigned: bool)
    ensures Packed(Hex(b, charSigned) + " " + Gap(j)) == Hex(b, charSigned)
  {
    var hex, gap := Hex(b, charSigned), " " + Gap(j);
    HexIsHex(b, charSigned);
    PackedHexDigits(hex);
    PackedBlank(gap);
    PackedConcat(hex, gap);
    hide Packed, Hex;
    assert hex + " " + Gap(j) == hex + gap;
  }

  lemma {:induction false} PackedCells(row: seq<Byte>, charSigned: bool)
    ensures Packed(Cells(row, charSigned)) == HexText(row, charSigned)
  {
    NothingSpelt();
    hide Packed, Hex, Gap;
    if row != [] {
      var j := |row| - 1;
      PackedCells(row[..j], charSigned);
      PackedCell(row[j], j, charSigned);
      PackedConcat(Cells(row[..j], charSigned), Hex(row[j], charSigned) + " " + Gap(j));
    }
  }

  lemma PackedRow(row: seq<Byte>, charSigned: bool, long: bool)
    ensures Packed(Columns(row, charSigned, long)) == HexText(row, charSigned)
  {
    var cells := Cells(row, charSigned);
    PackedCells(row, charSigned);
    if long {
      BlanksAreBlank(|row|);
      PackedBlank(Blanks(|row|));
      PackedConcat(cells, Blanks(|row|));
    } else {
      assert cells + [] == cells;
    }
  }

  lemma {:induction false} HexTextConcat(a: seq<Byte>, b: seq<Byte>, charSigned: bool)
    ensures HexText(a + b, charSigned) == HexText(a, charSigned) + HexText(b, charSigned)
    decreases |b|
  {
    hide Hex;
    if b == [] {
      assert a + b == a;
    } else {
      var k := |b| - 1;
      HexTextConcat(a, b[..k], charSigned);
      assert (a + b)[..|a| + k] == a + b[..k] && (a + b)[|a| + k] == b[k];
      Append(HexText(a, charSigned), HexText(b[..k], charSigned), Hex(b[k], charSigned));
    }
  }

  lemma RowThenRest(buffer: seq<Byte>, i: nat)
    requires i < |buffer|
    ensures var row := RowAt(buffer, i);
      && 0 < |row| && i + |row| <= |buffer| && row + buffer[i + |row|..] == buffer[i..]
      && |row| <= 16 && (|row| == 16 || i + |row| == |buffer|)
  {
  }

  lemma FirstRow(buffer: seq<Byte>, i: nat, charSigned: bool)
    requires i < |buffer|
    ensures var row := RowAt(buffer, i);
      AllColumns(buffer, i, charSigned) ==
      Columns(row, charSigned, |buffer| > 16) + AllColumns(buffer, i + |row|, charSigned)
  {
    hide Columns;
    if |RowAt(buffer, i)| < 16 {
      assert AllColumns(buffer, |buffer|, charSigned) == AllColumns(buffer, i + 16, charSigned) == [];
    }
  }

  lemma {:induction false} PackedColumns(buffer: seq<Byte>, i: nat, charSigned: bool)
    requires i <= |buffer|
    ensures Packed(AllColumns(buffer, i, charSigned)) == HexText(buffer[i..], charSigned)
    decreases |buffer| - i
  {
    NothingSpelt();
    assert HexText([], charSigned) == [];
    assert i == |buffer| ==> AllColumns(buffer, i, charSigned) == [];
    hide Packed, HexText, Columns, RowAt, AllColumns;
    if i < |buffer| {
      var row := RowAt(buffer, i);
      RowThenRest(buffer, i);
      var next := i + |row|;
      PackedRow(row, charSigned, |buffer| > 16);
      PackedColumns(buffer, next, charSigned);
      FirstRow(buffer, i, charSigned);
      PackedConcat(Columns(row, charSigned, |buffer| > 16), AllColumns(buffer, next, charSigned));
      HexTextConcat(row, buffer[next..], charSigned);
    } else {
      assert buffer[i..] == [];
    }
  }

  // How many bytes of the buffer a signed char makes print with eight digits.
  function HighBytes(bytes: seq<Byte>): nat {
    if bytes == [] then 0
    else HighBytes(bytes[..|bytes| - 1]) + if bytes[|bytes| - 1] >= 0x80 then 1 else 0
  }

  lemma {:induction false} HexTextShape(bytes: seq<Byte>, charSigned: bool)
    ensures AllHex(HexText(bytes, charSigned))
    ensures |HexText(bytes, charSigned)| == 2 * |bytes| + if charSigned then 6 * HighBytes(bytes) else 0
  {
    if bytes != [] {
      HexTextShape(bytes[..|bytes| - 1], charSigned);
      HexIsHex(bytes[|bytes| - 1], charSigned);
    }
  }

  lemma HexPairValue(s: string, bytes: seq<Byte>, b: Byte)
    requires AllHex(s) && HexValue(s) == Value(bytes, 256)
    ensures AllHex(s + HexPair(b)) && HexValue(s + HexPair(b)) == Value(bytes + [b], 256)
  {
    var t := s + HexPair(b);
    HexIsHex(b, false);
    assert t[..|s|] == s && t[..|s| + 2] == t;
    PairValue(t, |s|, bytes, b);
  }

  lemma {:induction false} HexTextValue(bytes: seq<Byte>, charSigned: bool)
    requires charSigned ==> HighBytes(bytes) == 0
    ensures AllHex(HexText(bytes, charSigned))
    ensures HexValue(HexText(bytes, charSigned)) == Value(bytes, 256)
  {
    NothingSpelt();
    hide AllHex, HexValue, Value, HexPair;
    if bytes != [] {
      var k := |bytes| - 1;
      HexTextValue(bytes[..k], charSigned);
      HexPairValue(HexText(bytes[..k], charSigned), bytes[..k], bytes[k]);
      assert bytes == bytes[..k] + [bytes[k]];
    }
  }

  lemma {:induction false} HighBytesZero(bytes: seq<Byte>)
    ensures HighBytes(bytes) == 0 <==> forall i :: 0 <= i < |bytes| ==> bytes[i] < 0x80
  {
    if bytes != [] {
      HighBytesZero(bytes[..|bytes| - 1]);
      assert forall i :: 0 <= i < |bytes| - 1 ==> bytes[..|bytes| - 1][i] == bytes[i];
    }
  }

  lemma FourBytes(b: Byte)
    ensures Value([b], 256) == b && Value([255, 255, 255, b], 256) == 0xFFFF_FF00 + b
  {
    var f: Byte := 255;
    NothingSpelt();
    hide Value;
    assert [b] == [] + [b] && [f] == [] + [f];
    assert [f, f] == [f] + [f] && [f, f, f] == [f, f] + [f] && [f, f, f, b] == [f, f, f] + [b];
    ValueSnoc([], b, 256);
    ValueSnoc([], f, 256);
    ValueSnoc([f], f, 256);
    ValueSnoc([f, f], f, 256);
    ValueSnoc([f, f, f], b, 256);
  }

  // Reading the hex columns of a dump gives the buffer back exactly when no byte of it was
  // sign-extended on the way out. Reading always succeeds, and sign extension adds three
  // bytes for each byte above 0x7F.
  lemma DumpParseIff(buffer: seq<Byte>, charSigned: bool, bytes: seq<Byte>)
    requires Spells(AllColumns(buffer, 0, charSigned), bytes)
    ensures bytes == buffer <==> (charSigned ==> forall i :: 0 <= i < |buffer| ==> buffer[i] < 0x80)
    ensures |bytes| == |buffer| + if charSigned then 3 * HighBytes(buffer) else 0
  {
    PackedColumns(buffer, 0, charSigned);
    assert buffer[0..] == buffer;
    HexTextShape(buffer, charSigned);
    HighBytesZero(buffer);
    if charSigned ==> HighBytes(buffer) == 0 {
      HexTextValue(buffer, charSigned);
      ValueInjective(bytes, buffer, 256);
    }
  }

  // The columns of a dump always are hexadecimal text, so the parser accepts them unless the
  // buffer is empty and malloc(0) gives no pointer.
  lemma DumpIsHex(buffer: seq<Byte>, charSigned: bool)
    ensures AllHex(Packed(AllColumns(buffer, 0, charSigned)))
    ensures Packed(AllColumns(buffer, 0, charSigned)) != [] <==> buffer != []
  {
    PackedColumns(buffer, 0, charSigned);
    assert buffer[0..] == buffer;
    HexTextShape(buffer, charSigned);
  }

  // ---- Cutting the columns out of the printed text ----

  function LineEnd(text: string): (n: nat)
    ensures n <= |text|
  {
    if text == [] || text[0] == '\n' then 0 else 1 + LineEnd(text[1..])
  }

  // The first `width` characters of every line.
  function Cut(text: string, width: nat): string {
    var n := LineEnd(text);
    if n == |text| then []
    else text[..if width < n then width else n] + Cut(text[n + 1..], width)
  }

  // How wide the hex columns of a dump of n bytes are, where char is unsigned.
  function Width(n: nat): nat { if n > 16 then 52 else 3 * n + n / 4 }

  lemma {:induction false} LineEndAt(line: string, rest: string)
    requires '\n' !in line
    ensures LineEnd(line + ("\n" + rest)) == |line|
  {
    var text := line + ("\n" + rest);
    if line != [] {
      LineEndAt(line[1..], rest);
      assert text[1..] == line[1..] + ("\n" + rest) && text[0] == line[0];
    }
  }

  lemma CutLine(line: string, more: string, width: nat)
    requires '\n' !in line && width <= |line|
    ensures Cut(line + ("\n" + more), width) == line[..width] + Cut(more, width)
  {
    var text := line + ("\n" + more);
    LineEndAt(line, more);
    hide LineEnd;
    assert text[..width] == line[..width] && text[|line| + 1..] == more;
  }

  lemma {:induction false} CellsWidth(row: seq<Byte>)
    ensures |Cells(row, false)| == 3 * |row| + |row| / 4 && '\n' !in Cells(row, false)
  {
    if row != [] {
      var j := |row| - 1;
      CellsWidth(row[..j]);
      HexIsHex(row[j], false);
      assert '\n' !in Hex(row[j], false) + " " + Gap(j);
    }
  }

  lemma {:induction false} BlanksWidth(j: nat)
    requires j <= 16
    ensures |Blanks(j)| == 52 - (3 * j + j / 4)
    decreases 16 - j
  {
    if j < 16 { BlanksWidth(j + 1); }
  }

  // The text column shows each byte at its place: as the character it is, or as a dot.
  lemma {:induction false} ShownAt(row: seq<Byte>)
    ensures |Shown(row)| == |row| && '\n' !in Shown(row)
    ensures forall j :: 0 <= j < |row| ==>
      Shown(row)[j] == if 0x20 <= row[j] <= 0x7E then row[j] as char else '.'
  {
    if row != [] {
      ShownAt(row[..|row| - 1]);
      assert '.' != '\n' && forall b: Byte | IsPrint(b) :: b as char != '\n';
    }
  }

  // Each byte has its two digits at its place in the hex columns, and a space behind them.
  lemma {:induction false} CellAt(row: seq<Byte>, j: nat)
    requires j < |row|
    ensures var cells, k := Cells(row, false), 3 * j + j / 4;
      && k + 2 < |cells|
      && cells[k] == UPPER_DIGITS[row[j] / 16] && cells[k + 1] == UPPER_DIGITS[row[j] % 16]
      && cells[k + 2] == ' '
  {
    var last := |row| - 1;
    CellsWidth(row[..last]);
    LastCell(Cells(row[..last], false), row[last], last);
    assert Cells(row, false) == Cells(row[..last], false) + (Hex(row[last], false) + " " + Gap(last));
    hide Cells, Hex, Gap;
    if j < last {
      CellAt(row[..last], j);
      assert row[..last][j] == row[j];
    }
  }

  lemma LastCell(cells: string, b: Byte, j: nat)
    requires |cells| == 3 * j + j / 4
    ensures var all, k := cells + (Hex(b, false) + " " + Gap(j)), |cells|;
      && k + 2 < |all|
      && all[k] == UPPER_DIGITS[b / 16] && all[k + 1] == UPPER_DIGITS[b % 16] && all[k + 2] == ' '
  {
    DigitsAreThese('0');
  }

  // A byte above 0x7F prints as the number it is sign-extended to.
  lemma SignExtended(b: Byte)
    ensures AllHex(Hex(b, true))
    ensures HexValue(Hex(b, true)) == if b < 0x80 then b else 0x1_0000_0000 + b - 0x100
  {
    NothingSpelt();
    assert Hex(b, true) == if b < 0x80 then HexPair(b) else "FFFFFF" + HexPair(b);
    hide AllHex, HexValue, Value, HexPair, Hex;
    HexPairValue("", [], b);
    assert "" + HexPair(b) == HexPair(b) && [] + [b] == [b];
    FourBytes(b);
    if b >= 0x80 {
      AllOnes();
      var f: Byte := 255;
      HexPairValue("FFFFFF", [f, f, f], b);
      assert [f, f, f] + [b] == [f, f, f, b];
    }
  }

  lemma AllOnes()
    ensures AllHex("FFFFFF") && HexValue("FFFFFF") == Value([255, 255, 255], 256)
  {
    FourBytes(0);
    hide Value;
    ValueSnoc([255, 255, 255], 0, 256);
    assert [255, 255, 255, 0] == [255, 255, 255] + [0];
    SixDigits();
    assert AllHex("FFFFFF") by { DigitsAreThese('F'); }
    assert DigitsOf("FFFFFF", 16) == [15, 15, 15, 15, 15, 15];
  }

  lemma SixDigits()
    ensures Value([15, 15, 15, 15, 15, 15], 16) == 0xFF_FFFF
  {
    NothingSpelt();
    hide Value;
    ValueSnoc([], 15, 16);
    ValueSnoc([15], 15, 16);
    ValueSnoc([15, 15], 15, 16);
    ValueSnoc([15, 15, 15], 15, 16);
    ValueSnoc([15, 15, 15, 15], 15, 16);
    ValueSnoc([15, 15, 15, 15, 15], 15, 16);
    assert [15] == [] + [15] && [15, 15] == [15] + [15] && [15, 15, 15] == [15, 15] + [15];
    assert [15, 15, 15, 15] == [15, 15, 15] + [15] && [15, 15, 15, 15, 15] == [15, 15, 15, 15] + [15];
    assert [15, 15, 15, 15, 15, 15] == [15, 15, 15, 15, 15] + [15];
  }

  // A line of the dump without its newline.
  function LineAt(buffer: seq<Byte>, i: nat): string
    requires i < |buffer|
  {
    var row := RowAt(buffer, i);
    Columns(row, false, |buffer| > 16) + (" " + Shown(row))
  }

  lemma ColumnsWidth(buffer: seq<Byte>, i: nat)
    requires i < |buffer| && (|buffer| > 16 || i == 0)
    ensures var columns := Columns(RowAt(buffer, i), false, |buffer| > 16);
      |columns| == Width(|buffer|) && '\n' !in columns
  {
    var row := RowAt(buffer, i);
    CellsWidth(row);
    if |buffer| > 16 {
      BlanksWidth(|row|);
      BlanksAreBlank(|row|);
    }
  }

  lemma LineStart(buffer: seq<Byte>, i: nat)
    requires i < |buffer| && (|buffer| > 16 || i == 0)
    ensures var line, w := LineAt(buffer, i), Width(|buffer|);
      '\n' !in line && w <= |line| && line[..w] == Columns(RowAt(buffer, i), false, |buffer| > 16)
  {
    ColumnsWidth(buffer, i);
    ShownAt(RowAt(buffer, i));
    hide Columns, Shown, RowAt, Width;
  }

  // What stands where in a line of the dump.
  lemma LineLayout(buffer: seq<Byte>, i: nat, j: nat)
    requires (|buffer| > 16 || i == 0) && j < 16 && i + j < |buffer|
    ensures var line, w, b, k := LineAt(buffer, i), Width(|buffer|), buffer[i + j], 3 * j + j / 4;
      && |line| == w + 1 + |RowAt(buffer, i)| && k + 2 < w && w + 1 + j < |line|
      && line[k] == UPPER_DIGITS[b / 16] && line[k + 1] == UPPER_DIGITS[b % 16]
      && line[k + 2] == ' ' && line[w] == ' '
      && line[w + 1 + j] == if 0x20 <= b <= 0x7E then b as char else '.'
  {
    hide Columns, Shown, Cells, Width, RowAt;
    var row := RowAt(buffer, i);
    assert j < |row| && row[j] == buffer[i + j] by { RowIsSlice(buffer, i, j); }
    ColumnAt(buffer, i, j);
    ColumnsWidth(buffer, i);
    ShownAt(row);
  }

  lemma RowIsSlice(buffer: seq<Byte>, i: nat, j: nat)
    requires j < 16 && i + j < |buffer|
    ensures j < |RowAt(buffer, i)| && RowAt(buffer, i)[j] == buffer[i + j]
  {
  }

  lemma ColumnAt(buffer: seq<Byte>, i: nat, j: nat)
    requires (|buffer| > 16 || i == 0) && j < 16 && i + j < |buffer|
    ensures var columns, b, k :=
        Columns(RowAt(buffer, i), false, |buffer| > 16), buffer[i + j], 3 * j + j / 4;
      && k + 2 < |columns|
      && columns[k] == UPPER_DIGITS[b / 16] && columns[k + 1] == UPPER_DIGITS[b % 16]
      && columns[k + 2] == ' '
  {
    hide RowAt, Cells, Blanks;
    RowIsSlice(buffer, i, j);
    CellAt(RowAt(buffer, i), j);
  }

  lemma FirstLine(buffer: seq<Byte>, i: nat)
    requires i < |buffer|
    ensures Dump(buffer, i, false) == LineAt(buffer, i) + ("\n" + Dump(buffer, i + 16, false))
  {
    var row := RowAt(buffer, i);
    hide Columns, RowAt, Shown;
    var columns, shown, more := Columns(row, false, |buffer| > 16), Shown(row), Dump(buffer, i + 16, false);
    assert Dump(buffer, i, false) == columns + " " + shown + "\n" + more;
    hide Dump;
    Append(columns, " ", shown);
    Append(columns + (" " + shown), "\n", more);
  }

  lemma ColumnsStep(buffer: seq<Byte>, i: nat, charSigned: bool)
    requires i < |buffer|
    ensures AllColumns(buffer, i, charSigned) ==
            Columns(RowAt(buffer, i), charSigned, |buffer| > 16) + AllColumns(buffer, i + 16, charSigned)
  {
  }

  // The columns can be cut out of the text by their width alone.
  lemma {:induction false} CutDump(buffer: seq<Byte>, i: nat)
    requires |buffer| > 16 || i == 0 || i >= |buffer|
    ensures Cut(Dump(buffer, i, false), Width(|buffer|)) == AllColumns(buffer, i, false)
    decreases |buffer| - i
  {
    if i < |buffer| {
      hide *;
      ColumnsStep(buffer, i, false);
      FirstLine(buffer, i);
      LineStart(buffer, i);
      CutLine(LineAt(buffer, i), Dump(buffer, i + 16, false), Width(|buffer|));
      CutDump(buffer, i + 16);
    } else {
      assert Cut([], Width(|buffer|)) == [];
    }
  }

  // Where char is unsigned, what PrintBuffer prints of a buffer determines the buffer: the
  // text cut to its columns is parsed to these bytes and no others.
  lemma PrintedTextIsParsedBack(buffer: seq<Byte>, bytes: seq<Byte>)
    ensures Spells(Cut(Dump(buffer, 0, false), Width(|buffer|)), bytes) <==> bytes == buffer
  {
    CutDump(buffer, 0);
    PackedColumns(buffer, 0, false);
    hide Cut, Dump, Width, AllColumns, HexText;
    assert buffer[0..] == buffer;
    HexTextSpells(AllColumns(buffer, 0, false), buffer, bytes);
  }

  lemma HexTextSpells(s: string, buffer: seq<Byte>, bytes: seq<Byte>)
    requires Packed(s) == HexText(buffer, false)
    ensures Spells(s, bytes) <==> bytes == buffer
  {
    HexTextShape(buffer, false);
    HexTextValue(buffer, false);
    hide Packed, HexText, Value, HexValue;
    if Spells(s, bytes) { ValueInjective(bytes, buffer, 256); }
  }
}

/** Positional notation, shared by every routine of the model that reads or prints numerals. */
module Radix {

  // The two radixes the program uses in text, and the radix of a byte string.
  type NumberBase = b: nat | b == 10 || b == 16 || b == 256 witness 10

  predicate AreDigits(ds: seq<nat>, base: nat) {
    forall i :: 0 <= i < |ds| ==> ds[i] < base
  }

  // base * v, by cases so that every step of a proof is linear.
  function Scale(v: nat, base: NumberBase): nat {
    if base == 10 then 10 * v else if base == 16 then 16 * v else 256 * v
  }

  function Quotient(n: nat, base: NumberBase): nat {
    if base == 10 then n / 10 else if base == 16 then n / 16 else n / 256
  }

  function Remainder(n: nat, base: NumberBase): (r: nat)
    ensures r < base
    ensures Scale(Quotient(n, base), base) + r == n
  {
    if base == 10 then n % 10 else if base == 16 then n % 16 else n % 256
  }

  // The number a most-significant-first digit string denotes.
  function Value(ds: seq<nat>, base: NumberBase): nat {
    if ds == [] then 0 else Scale(Value(ds[..|ds| - 1], base), base) + ds[|ds| - 1]
  }

  // The shortest digit string of n; zero is a single 0.
  function Digits(n: nat, base: NumberBase): (ds: seq<nat>)
    ensures ds != [] && AreDigits(ds, base)
    decreases n
  {
    if n < base then [n] else Digits(Quotient(n, base), base) + [Remainder(n, base)]
  }

  lemma ValueSnoc(ds: seq<nat>, d: nat, base: NumberBase)
    ensures Value(ds + [d], base) == Scale(Value(ds, base), base) + d
  {
    assert (ds + [d])[..|ds|] == ds;
  }

  lemma {:induction false} DigitsValue(n: nat, base: NumberBase)
    ensures Value(Digits(n, base), base) == n
    decreases n
  {
    if n >= base {
      DigitsValue(Quotient(n, base), base);
      ValueSnoc(Digits(Quotient(n, base), base), Remainder(n, base), base);
    } else {
      ValueSnoc([], n, base);
      assert [] + [n] == [n];
    }
  }

  function Zeros(n: nat): (ds: seq<nat>)
    ensures |ds| == n && forall i :: 0 <= i < n ==> ds[i] == 0
  {
    seq(n, _ => 0)
  }

  // Left-padded with zeros to at least `width` digits, as printf's %0<width> does.
  function Padded(n: nat, width: nat, base: NumberBase): (ds: seq<nat>)
    ensures |ds| >= width && ds != [] && AreDigits(ds, base)
  {
    var ds := Digits(n, base);
    if |ds| < width then Zeros(width - |ds|) + ds else ds
  }

  lemma {:induction false} ValueZeros(n: nat, ds: seq<nat>, base: NumberBase)
    ensures Value(Zeros(n) + ds, base) == Value(ds, base)
    decreases |ds|, n
  {
    if ds != [] {
      var front, d := ds[..|ds| - 1], ds[|ds| - 1];
      ValueZeros(n, front, base);
      ValueSnoc(Zeros(n) + front, d, base);
      assert Zeros(n) + front + [d] == Zeros(n) + ds;
    } else if n > 0 {
      ValueZeros(n - 1, [], base);
      ValueSnoc(Zeros(n - 1), 0, base);
      assert Zeros(n - 1) + [] == Zeros(n - 1) && Zeros(n) + ds == Zeros(n - 1) + [0];
    }
  }

  lemma PaddedValue(n: nat, width: nat, base: NumberBase)
    ensures Value(Padded(n, width, base), base) == n
  {
    hide Digits, Value, Zeros;
    var ds := Digits(n, base);
    DigitsValue(n, base);
    ValueZeros(if |ds| < width then width - |ds| else 0, ds, base);
  }

  function Pow(base: NumberBase, e: nat): nat {
    if e == 0 then 1 else Scale(Pow(base, e - 1), base)
  }

  lemma {:induction false} ValueBound(ds: seq<nat>, base: NumberBase)
    requires AreDigits(ds, base)
    ensures Value(ds, base) < Pow(base, |ds|)
  {
    if ds != [] { ValueBound(ds[..|ds| - 1], base); }
  }

  lemma ScaleUnique(x: nat, d: nat, y: nat, e: nat, base: NumberBase)
    requires d < base && e < base && Scale(x, base) + d == Scale(y, base) + e
    ensures x == y && d == e
  {
  }

  // Two digit strings of one length that denote the same number are the same string.
  lemma {:induction false} ValueInjective(a: seq<nat>, b: seq<nat>, base: NumberBase)
    requires AreDigits(a, base) && AreDigits(b, base)
    requires |a| == |b| && Value(a, base) == Value(b, base)
    ensures a == b
  {
    if a != [] {
      var m := |a| - 1;
      ScaleUnique(Value(a[..m], base), a[m], Value(b[..m], base), b[m], base);
      ValueInjective(a[..m], b[..m], base);
      assert a == a[..|a| - 1] + [a[|a| - 1]] && b == b[..|b| - 1] + [b[|b| - 1]];
    }
  }

  // A number below base^width prints in at most width digits.
  lemma {:induction false} DigitsLength(n: nat, width: nat, base: NumberBase)
    requires width > 0 && n < Pow(base, width)
    ensures |Digits(n, base)| <= width
    decreases width
  {
    if n >= base {
      assert Pow(base, 1) == Scale(Pow(base, 0), base);
      DigitsLength(Quotient(n, base), width - 1, base);
    }
  }
}

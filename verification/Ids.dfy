/** The identifiers of records and batches: "energy-" and a decimal number. */
module Ids {
  import opened Machine

  /** "energy-" */
  const PREFIX: Bytes := [0x65, 0x6E, 0x65, 0x72, 0x67, 0x79, 0x2D]

  /** The number written in decimal, as `%d` does. */
  function Decimal(n: nat): (s: Bytes)
    ensures s != []
  {
    if n < 10 then [0x30 + n] else Decimal(n / 10) + [0x30 + n % 10]
  }

  function Print(n: nat): Bytes {
    PREFIX + Decimal(n)
  }

  predicate IsDigit(c: byte) {
    0x30 <= c <= 0x39
  }

  /** Reading digits on top of the number read so far, in wrapping 64-bit arithmetic. */
  function Digits(s: Bytes, n: uint64): Option<uint64> {
    if s == [] then Some(n)
    else if !IsDigit(s[0]) then None
    else Digits(s[1..], (n * 10 + (s[0] - 0x30)) % TWO_64)
  }

  function Parse(id: Bytes): Option<uint64> {
    if |id| <= |PREFIX| || id[..|PREFIX|] != PREFIX then None
    else Digits(id[|PREFIX|..], 0)
  }

  /** `parseEnergyID`. A character that is not ASCII is not a digit, so reading bytes
      instead of runes changes nothing. */
  method ParseEnergyID(id: Bytes) returns (r: Option<uint64>)
    ensures r == Parse(id)
  {
    if |id| <= |PREFIX| || id[..|PREFIX|] != PREFIX {
      return None;
    }
    var rest := id[|PREFIX|..];
    var n: uint64 := 0;
    assert rest[0..] == rest;
    for i := 0 to |rest|
      invariant Parse(id) == Digits(rest[i..], n)
    {
      assert rest[i..][1..] == rest[i + 1..];
      var c := rest[i];
      if c < 0x30 || c > 0x39 {
        return None;
      }
      n := (n * 10 + (c - 0x30)) % TWO_64;
    }
    return Some(n);
  }

  lemma {:induction false} DigitsAppend(s: Bytes, d: byte, n: uint64)
    requires Digits(s, n).Some? && IsDigit(d)
    ensures Digits(s + [d], n) == Some((Digits(s, n).value * 10 + (d - 0x30)) % TWO_64)
    decreases |s|
  {
    var t := s + [d];
    if s == [] {
      assert t[1..] == [];
    } else {
      assert t[0] == s[0] && t[1..] == s[1..] + [d];
      DigitsAppend(s[1..], d, (n * 10 + (s[0] - 0x30)) % TWO_64);
    }
  }

  lemma DigitsOfDecimal(n: uint64)
    ensures Digits(Decimal(n), 0) == Some(n)
  {
    hide Decimal, Digits, Written, AllDigits;
    DecimalIsCanonical(n);
    DigitsAre(Decimal(n));
  }

  /** Reading back what was printed, for every 64-bit number. */
  lemma ParsePrint(n: uint64)
    ensures Parse(Print(n)) == Some(n)
  {
    hide Decimal, Digits;
    assert Print(n)[..|PREFIX|] == PREFIX && Print(n)[|PREFIX|..] == Decimal(n);
    DigitsOfDecimal(n);
  }

  // ------------------------------------------------------------------ printing what was read

  predicate AllDigits(s: Bytes) {
    forall i :: 0 <= i < |s| ==> IsDigit(s[i])
  }

  /** The number a text of digits writes, whatever its size. */
  function Written(s: Bytes): nat
    requires AllDigits(s)
    decreases |s|
  {
    if s == [] then 0 else 10 * Written(s[..|s| - 1]) + (s[|s| - 1] - 0x30)
  }

  /** The digits of an identifier that carries a number. */
  function Suffix(id: Bytes): Bytes
    requires |id| >= |PREFIX|
  {
    id[|PREFIX|..]
  }

  predicate Canonical(digits: Bytes) {
    digits != [] && (digits[0] == 0x30 ==> |digits| == 1)
  }

  /** Reading succeeds on digits only, and wraps the number written at 2^64. */
  lemma {:induction false} DigitsAre(s: Bytes)
    ensures Digits(s, 0).Some? <==> AllDigits(s)
    ensures AllDigits(s) ==> Digits(s, 0) == Some(Written(s) % TWO_64)
    decreases |s|
  {
    if s != [] {
      var front, last := s[..|s| - 1], s[|s| - 1];
      assert s == front + [last];
      DigitsAre(front);
      DigitsFail(front, [last], 0);
      if Digits(front, 0).Some? && IsDigit(last) {
        DigitsAppend(front, last, 0);
        WrapStep(Written(front), last - 0x30);
      }
      if Digits(front, 0).Some? && !IsDigit(last) {
        DigitsStop(front, last, 0);
      }
    }
  }

  lemma WrapStep(n: nat, d: nat)
    ensures (n % TWO_64 * 10 + d) % TWO_64 == (10 * n + d) % TWO_64
  {
  }

  lemma {:induction false} DigitsFail(s: Bytes, t: Bytes, n: uint64)
    ensures Digits(s, n).None? ==> Digits(s + t, n).None?
    decreases |s|
  {
    if s != [] {
      assert (s + t)[0] == s[0] && (s + t)[1..] == s[1..] + t;
      if IsDigit(s[0]) {
        DigitsFail(s[1..], t, (n * 10 + (s[0] - 0x30)) % TWO_64);
      }
    }
  }

  lemma {:induction false} DigitsStop(s: Bytes, c: byte, n: uint64)
    requires !IsDigit(c)
    ensures Digits(s + [c], n).None?
    decreases |s|
  {
    if s != [] {
      assert (s + [c])[0] == s[0] && (s + [c])[1..] == s[1..] + [c];
      if IsDigit(s[0]) {
        DigitsStop(s[1..], c, (n * 10 + (s[0] - 0x30)) % TWO_64);
      }
    }
  }

  /** Decimal notation has no leading zero and writes its number. */
  lemma {:induction false} DecimalIsCanonical(n: nat)
    ensures AllDigits(Decimal(n)) && Canonical(Decimal(n)) && Written(Decimal(n)) == n
    ensures n > 0 ==> Decimal(n)[0] != 0x30
  {
    if n >= 10 {
      var s := Decimal(n);
      DecimalIsCanonical(n / 10);
      assert s[..|s| - 1] == Decimal(n / 10);
    }
  }

  /** Digits without a leading zero are the decimal notation of the number they write. */
  lemma {:induction false} CanonicalIsDecimal(s: Bytes)
    requires AllDigits(s) && Canonical(s)
    ensures Decimal(Written(s)) == s && (s[0] != 0x30 ==> Written(s) > 0)
    decreases |s|
  {
    var front := s[..|s| - 1];
    assert s == front + [s[|s| - 1]];
    if front != [] {
      CanonicalIsDecimal(front);
      assert Written(s) / 10 == Written(front) && Written(s) % 10 == s[|s| - 1] - 0x30;
    }
  }

  /** Which identifiers carry a number: the prefix and at least one digit, nothing else.
      The number is the one written, modulo 2^64. */
  lemma ParseIs(id: Bytes)
    ensures Parse(id).Some? <==>
            |id| > |PREFIX| && id[..|PREFIX|] == PREFIX && AllDigits(Suffix(id))
    ensures Parse(id).Some? ==> Parse(id) == Some(Written(Suffix(id)) % TWO_64)
  {
    if |id| > |PREFIX| {
      DigitsAre(Suffix(id));
    }
  }

  /** Printing the number read gives the text back if and only if its digits have no
      leading zero, unless they are "0", and write a number below 2^64. */
  lemma PrintParseIff(id: Bytes)
    requires Parse(id).Some?
    ensures |id| > |PREFIX| && AllDigits(Suffix(id))
    ensures Print(Parse(id).value) == id <==> Canonical(Suffix(id)) && Written(Suffix(id)) < TWO_64
  {
    hide Written, Decimal, Digits, Parse;
    ParseIs(id);
    var s, n := Suffix(id), Parse(id).value;
    assert id == PREFIX + s;
    if Print(n) == id {
      assert Print(n)[|PREFIX|..] == Decimal(n);
      DecimalIsCanonical(n);
    }
    if Canonical(s) && Written(s) < TWO_64 {
      CanonicalIsDecimal(s);
    }
  }

  /** So printing after reading need not give the text back: a leading zero is lost. */
  lemma PrintParseLosesZeros()
    ensures exists id :: Parse(id) == Some(7) && id != Print(7)
  {
    var id := PREFIX + [0x30, 0x37];
    assert Suffix(id) == [0x30, 0x37];
    assert Written([0x30]) == 0 by { assert [0x30][..0] == []; }
    assert Written([0x30, 0x37]) == 7 by { assert [0x30, 0x37][..1] == [0x30]; }
    ParseIs(id);
    PrintParseIff(id);
  }

  /** What is printed: "energy-" and the digits of the number, without a leading zero. */
  lemma PrintIs(n: nat)
    ensures var id := Print(n);
            && |id| > 7 && id[..7] == [0x65, 0x6E, 0x65, 0x72, 0x67, 0x79, 0x2D]
            && (forall i :: 7 <= i < |id| ==> 0x30 <= id[i] <= 0x39)
            && (id[7] == 0x30 ==> n == 0 && |id| == 8)
            && AllDigits(id[7..]) && Written(id[7..]) == n
  {
    hide Decimal, Written;
    DecimalIsCanonical(n);
    var id, s := Print(n), Decimal(n);
    assert id[7..] == s;
    assert forall i :: 7 <= i < |id| ==> id[i] == s[i - 7];
  }

  lemma DecimalStep(n: nat, d: nat)
    requires n > 0 && d < 10
    ensures Decimal(10 * n + d) == Decimal(n) + [0x30 + d]
  {
    var m := 10 * n + d;
    assert m / 10 == n && m % 10 == d;
  }

  /** All ten digits: "energy-1234567890". */
  lemma PrintDigits()
    ensures Print(1_234_567_890)
         == [0x65, 0x6E, 0x65, 0x72, 0x67, 0x79, 0x2D, 0x31, 0x32, 0x33, 0x34, 0x35, 0x36, 0x37, 0x38, 0x39, 0x30]
  {
    assert Decimal(1) == [0x31];
    hide Decimal;
    DecimalStep(1, 2);
    DecimalStep(12, 3);
    DecimalStep(123, 4);
    DecimalStep(1_234, 5);
    DecimalStep(12_345, 6);
    DecimalStep(123_456, 7);
    DecimalStep(1_234_567, 8);
    DecimalStep(12_345_678, 9);
    DecimalStep(123_456_789, 0);
  }
}

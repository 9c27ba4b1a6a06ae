/** Base 128 varints: the specification, and the loops of the generated code that
    read and size them. */
module Varint {
  import opened Machine

  datatype WireError =
    | IntOverflow
    | UnexpectedEOF
    | InvalidLength
    | EndGroupForNonGroup
    | IllegalTag
    | WrongWireType
    | IllegalWireType
    | UnexpectedEndOfGroup

  /** Shifts of 0, 7, .., 63 are allowed: a varint has at most ten bytes. */
  const MAX_LEN: nat := 10

  /** A number read from the front of a byte sequence and the bytes it took. */
  datatype Reading = Reading(value: nat, used: nat)

  /** The canonical encoding: seven bits a byte, least significant first, the top bit
      of each byte saying whether more follow. */
  function Put(v: nat): (s: Bytes)
    ensures |s| >= 1
  {
    if v < 0x80 then [v] else [v % 0x80 + 0x80] + Put(v / 0x80)
  }

  /** The base 128 number at the front of `s`, if it ends within `room` bytes. */
  function Get(s: Bytes, room: nat): (r: Option<Reading>)
    ensures r.Some? ==> 1 <= r.value.used <= |s| && r.value.used <= room
    decreases room
  {
    if room == 0 || s == [] then None
    else if s[0] < 0x80 then Some(Reading(s[0], 1))
    else match Get(s[1..], room - 1)
      case None => None
      case Some(r) => Some(Reading(s[0] - 0x80 + 0x80 * r.value, r.used + 1))
  }

  function Low64(x: nat): uint64 {
    x % TWO_64
  }

  /** The reading the decoder makes: at most ten bytes, kept modulo 2^64. */
  function Read(s: Bytes): (r: Option<Reading>)
    ensures r.Some? ==> 1 <= r.value.used <= |s| && r.value.value < TWO_64
  {
    match Get(s, MAX_LEN)
    case None => None
    case Some(r) => Some(Reading(Low64(r.value), r.used))
  }

  /** Reading looks at nothing past the number it returns. */
  lemma {:induction false} GetExtend(x: Bytes, y: Bytes, room: nat)
    requires Get(x, room).Some?
    ensures Get(x + y, room) == Get(x, room)
    decreases room
  {
    assert (x + y)[0] == x[0];
    if x[0] >= 0x80 {
      GetExtend(x[1..], y, room - 1);
      assert (x + y)[1..] == x[1..] + y;
    }
  }

  /** Cutting off what follows the number changes nothing. */
  lemma {:induction false} GetPrefix(s: Bytes, room: nat)
    requires Get(s, room).Some?
    ensures var n := Get(s, room).value.used; Get(s[..n], room) == Get(s, room)
    decreases room
  {
    var x := s[..Get(s, room).value.used];
    assert x[0] == s[0];
    if s[0] >= 0x80 {
      GetPrefix(s[1..], room - 1);
      assert x[1..] == s[1..][..Get(s[1..], room - 1).value.used];
    }
  }

  function Bound(room: nat): nat {
    if room == 0 then 1 else 0x80 * Bound(room - 1)
  }

  lemma {:induction false} GetPut(v: nat, y: Bytes, room: nat)
    requires room > 0 && v < Bound(room)
    ensures Get(Put(v) + y, room) == Some(Reading(v, |Put(v)|))
    decreases room
  {
    var s := Put(v) + y;
    if v >= 0x80 {
      assert room > 1 by { assert Bound(1) == 0x80; }
      GetPut(v / 0x80, y, room - 1);
      assert s[1..] == Put(v / 0x80) + y;
    }
  }

  /** Every unsigned 64-bit value survives encoding, whatever follows it. */
  lemma ReadPut(v: uint64, y: Bytes)
    ensures Read(Put(v) + y) == Some(Reading(v, |Put(v)|))
  {
    assert Bound(10) > TWO_64;
    GetPut(v, y, MAX_LEN);
  }

  /** The size in bytes of a varint, from its bit length. */
  function Sov(x: nat): nat {
    (BitLen(BitOr(x, 1)) + 6) / 7
  }

  lemma BitLenOrOne(x: nat)
    ensures BitLen(BitOr(x, 1)) == if x == 0 then 1 else BitLen(x)
  {
    if x != 0 {
      assert BitOr(x / 2, 1 / 2) == x / 2;
    }
  }

  /** The bit-length formula counts exactly the bytes of the canonical encoding. */
  lemma {:induction false} SovIsLength(x: nat)
    ensures |Put(x)| == Sov(x)
  {
    BitLenOrOne(x);
    if x >= 0x80 {
      SovIsLength(x / 0x80);
      BitLenOrOne(x / 0x80);
      BitLenSeven(x);
    } else if x > 0 {
      assert Pow2(7) == 0x80;
      BitLenSmall(x, 7);
    }
  }

  lemma {:induction false} BitLenSmall(x: nat, k: nat)
    requires 0 < x < Pow2(k)
    ensures 1 <= BitLen(x) <= k
    decreases k
  {
    if x > 1 {
      assert k > 1;
      BitLenSmall(x / 2, k - 1);
    }
  }

  lemma BitLenHalf(x: nat, half: nat)
    requires x > 0 && half == x / 2
    ensures BitLen(x) == 1 + BitLen(half)
  {
  }

  lemma BitLenSeven(x: nat)
    requires x >= 0x80
    ensures BitLen(x) == 7 + BitLen(x / 0x80)
  {
    hide BitLen;
    BitLenHalf(x, x / 2);
    BitLenHalf(x / 2, x / 4);
    BitLenHalf(x / 4, x / 8);
    BitLenHalf(x / 8, x / 16);
    BitLenHalf(x / 16, x / 32);
    BitLenHalf(x / 32, x / 64);
    BitLenHalf(x / 64, x / 128);
  }

  /** The low `width` bits. */
  function Trunc(x: nat, width: nat): nat {
    x % Pow2(width)
  }

  /** `uintW(b & 0x7F) << shift` for a W-bit target: bits shifted past the top are lost. */
  function ShiftIn(b: byte, shift: nat, width: nat): nat {
    Trunc(b % 0x80 * Pow2(shift), width)
  }

  /** The number read so far with the next seven bits placed above it. */
  function WithByte(raw: nat, b: byte, shift: nat): nat {
    raw + b % 0x80 * Pow2(shift)
  }

  lemma DivModUnique(n: nat, m: nat, q: nat, r: nat)
    requires m > 0 && r < m && n == q * m + r
    ensures n / m == q && n % m == r
  {
    var q', r' := n / m, n % m;
    assert (q - q') * m == r' - r;
    if q > q' {
      MulAtLeast(q - q', m);
    } else if q < q' {
      MulAtLeast(q' - q, m);
    }
  }

  lemma MulAtLeast(a: nat, m: nat)
    requires a >= 1
    ensures a * m >= m
  {
    assert a * m == (a - 1) * m + m;
    assert (a - 1) * m >= 0;
  }

  lemma MulStep(r: nat, q: nat, p: nat)
    requires r < q
    ensures r * p + p <= q * p == p * q
  {
    assert q * p == (r + 1) * p + (q - r - 1) * p;
    assert (q - r - 1) * p >= 0;
  }

  lemma MulSplit(d: nat, q: nat, r: nat, p: nat)
    ensures (d * q + r) * p == d * (p * q) + r * p
  {
    assert d * q * p == d * (q * p);
  }

  lemma SumMod(raw: nat, c: nat, p: nat, q: nat)
    requires q > 0 && raw < p
    ensures p * q > 0 && (raw + c * p) % (p * q) == raw + (c % q) * p
  {
    var d, r := c / q, c % q;
    MulStep(r, q, p);
    MulSplit(d, q, r, p);
    assert c == d * q + r;
    DivModUnique(raw + c * p, p * q, d, raw + r * p);
  }

  /** Bits shifted in below the top of the accumulator land above those already there. */
  lemma AccumulateLow(raw: nat, c: nat, p: nat, q: nat, shift: nat)
    requires p == Pow2(shift) && q > 0 && raw < p
    ensures p * q > 0 && BitOr(raw % (p * q), (c * p) % (p * q)) == (raw + c * p) % (p * q)
  {
    hide *;
    SumMod(raw, c, p, q);
    SumMod(raw, 0, p, q);
    SumMod(0, c, p, q);
    assert raw + 0 * p == raw && 0 % q == 0;
    assert raw % (p * q) == raw;
    assert (c * p) % (p * q) == (c % q) * p;
    BitOrAbove(raw, c % q, shift);
    assert BitOr(raw, (c % q) * p) == raw + (c % q) * p;
  }

  /** Bits shifted in at or above the top of the accumulator vanish. */
  lemma AccumulateHigh(raw: nat, c: nat, w: nat, q: nat)
    requires w > 0
    ensures BitOr(raw % w, (c * (w * q)) % w) == (raw + c * (w * q)) % w
  {
    var d, r := raw / w, raw % w;
    assert c * (w * q) == (c * q) * w;
    DivModUnique((c * q) * w, w, c * q, 0);
    assert raw + (c * q) * w == (d + c * q) * w + r;
    DivModUnique(raw + (c * q) * w, w, d + c * q, r);
    assert BitOr(r, 0) == r;
  }

  /** One iteration of a varint loop on a W-bit accumulator keeps it equal to the
      number read so far modulo 2^W. */
  lemma AccumulateStep(raw: nat, b: byte, shift: nat, width: nat)
    requires raw < Pow2(shift)
    ensures BitOr(Trunc(raw, width), ShiftIn(b, shift, width))
         == Trunc(WithByte(raw, b, shift), width)
  {
    if shift <= width {
      Pow2Add(shift, width - shift);
      AccumulateLow(raw, b % 0x80, Pow2(shift), Pow2(width - shift), shift);
    } else {
      Pow2Add(width, shift - width);
      AccumulateHigh(raw, b % 0x80, Pow2(width), Pow2(shift - width));
    }
  }

  lemma WithByteFits(raw: nat, b: byte, shift: nat)
    requires raw < Pow2(shift)
    ensures WithByte(raw, b, shift) < Pow2(shift + 7)
  {
    Pow2Add(7, shift);
    assert Pow2(7) == 0x80;
    MulStep(b % 0x80, 0x80, Pow2(shift));
  }

  /** What is still to come, `tail`, put after `used` bytes that hold `raw`. */
  function Resume(raw: nat, used: nat, tail: Option<Reading>): Option<Reading> {
    match tail
    case None => None
    case Some(r) => Some(Reading(raw + Pow2(7 * used) * r.value, used + r.used))
  }

  /** `Resume` after one more byte of a longer number. */
  lemma ResumeMore(raw: nat, n: nat, b: byte, t: Reading)
    requires b >= 0x80
    ensures Resume(raw, n, Some(Reading(b - 0x80 + 0x80 * t.value, t.used + 1)))
         == Resume(WithByte(raw, b, 7 * n), n + 1, Some(t))
  {
    hide Pow2;
    Pow2Seven(n);
    PlaceAbove(Pow2(7 * n), b - 0x80, t.value);
  }

  lemma ResumeNone(raw: nat, n: nat)
    ensures Resume(raw, n, None) == None
  {
  }

  lemma ResumeLast(raw: nat, n: nat, b: byte)
    requires b < 0x80
    ensures Resume(raw, n, Some(Reading(b, 1))) == Some(Reading(WithByte(raw, b, 7 * n), n + 1))
  {
    hide Pow2;
  }

  lemma Pow2Seven(n: nat)
    ensures Pow2(7 * (n + 1)) == 0x80 * Pow2(7 * n)
  {
    Pow2Add(7, 7 * n);
    assert Pow2(7) == 0x80;
  }

  lemma PlaceAbove(p: nat, c: nat, t: nat)
    ensures p * (c + 0x80 * t) == c * p + (0x80 * p) * t
  {
    assert p * (0x80 * t) == (0x80 * p) * t;
  }

  /** `Get` with the number accumulated from the low end, as a loop does it. */
  function Scan(s: Bytes, room: nat, n: nat, raw: nat): Option<Reading>
    decreases room
  {
    if room == 0 || s == [] then None
    else if s[0] < 0x80 then Some(Reading(WithByte(raw, s[0], 7 * n), n + 1))
    else Scan(s[1..], room - 1, n + 1, WithByte(raw, s[0], 7 * n))
  }

  lemma {:induction false} ScanIsGet(s: Bytes, room: nat, n: nat, raw: nat)
    requires raw < Pow2(7 * n)
    ensures Scan(s, room, n, raw) == Resume(raw, n, Get(s, room))
    decreases room
  {
    hide Pow2, WithByte, Resume;
    ResumeNone(raw, n);
    if room > 0 && s != [] {
      if s[0] < 0x80 {
        ResumeLast(raw, n, s[0]);
      } else {
        WithByteFits(raw, s[0], 7 * n);
        ScanIsGet(s[1..], room - 1, n + 1, WithByte(raw, s[0], 7 * n));
        if Get(s[1..], room - 1).Some? {
          ResumeMore(raw, n, s[0], Get(s[1..], room - 1).value);
        }
        ResumeNone(WithByte(raw, s[0], 7 * n), n + 1);
      }
    }
  }

  lemma ReadStart(s: Bytes, width: nat)
    ensures Pow2(0) == 1 && Trunc(0, width) == 0
    ensures Scan(s, MAX_LEN, 0, 0) == Get(s, MAX_LEN)
  {
    ScanIsGet(s, MAX_LEN, 0, 0);
  }

  /** The varint loop of the generated decoder, reading into a `width`-bit variable. */
  method ReadVarint(d: Bytes, start: nat, width: nat) returns (r: Result<Reading, WireError>)
    requires start <= |d|
    ensures r.Ok? <==> Get(d[start..], MAX_LEN).Some?
    ensures r.Ok? ==> var g := Get(d[start..], MAX_LEN).value;
                      r.value == Reading(Trunc(g.value, width), g.used)
    ensures r.Err? ==> r.error == if |d| - start >= MAX_LEN then IntOverflow else UnexpectedEOF
  {
    hide Get, Pow2, Trunc, ShiftIn, WithByte, BitOr;
    var i, shift, v: nat := start, 0, 0;
    ghost var raw: nat, n: nat := 0, 0;
    ghost var goal := Scan(d[start..], MAX_LEN, 0, 0);
    ReadStart(d[start..], width);
    while true
      invariant start <= i <= |d| && i == start + n && shift == 7 * n && n <= MAX_LEN
      invariant raw < Pow2(shift) && v == Trunc(raw, width)
      invariant goal == Scan(d[i..], MAX_LEN - n, n, raw)
      decreases MAX_LEN - n
    {
      if shift >= 64 {
        return Err(IntOverflow);
      }
      if i >= |d| {
        return Err(UnexpectedEOF);
      }
      var b := d[i];
      assert d[i..][1..] == d[i + 1..];
      i := i + 1;
      v := BitOr(v, ShiftIn(b, shift, width));
      AccumulateStep(raw, b, shift, width);
      WithByteFits(raw, b, shift);
      raw, n := WithByte(raw, b, shift), n + 1;
      if b < 0x80 {
        return Ok(Reading(v, i - start));
      }
      shift := shift + 7;
    }
  }

  /** The loop for a 64-bit variable makes the specified reading. */
  method Read64(d: Bytes, start: nat) returns (r: Result<Reading, WireError>)
    requires start <= |d|
    ensures r.ToOption() == Read(d[start..])
  {
    hide Get;
    Pow2Widths();
    r := ReadVarint(d, start, 64);
  }

  /** The loop for a 32-bit variable keeps the low half of the 64-bit reading. */
  method Read32(d: Bytes, start: nat) returns (r: Result<Reading, WireError>)
    requires start <= |d|
    ensures r.Ok? <==> Read(d[start..]).Some?
    ensures r.Ok? ==> r.value.value == Read(d[start..]).value.value % TWO_32
                      && r.value.used == Read(d[start..]).value.used
  {
    hide Get;
    Pow2Widths();
    r := ReadVarint(d, start, 32);
  }
}
